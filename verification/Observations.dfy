/** From what a cluster showed to what a mirror may rely on: snapshots collected from
    workloads the digest tells apart have equal fields wherever they have equal revisions. */
module Observations {
  import opened Snapshots
  import opened Replay
  import opened Collecting

  // The workloads and configuration versions a cluster ever showed.
  datatype Cluster = Cluster(intents: Intent -> bool, versions: ConfigVersion -> bool)

  ghost function Reducing(digest: string -> string): Intent -> ObjectState {
    (intent: Intent) => WorkloadStateOf(digest, intent)
  }

  ghost predicate Shows(cluster: Cluster, answers: seq<Answers>) {
    && (forall i :: Runs(answers, i) ==> cluster.intents(i))
    && (forall v :: HasConfigMap(answers, v) || HasSecret(answers, v) ==> cluster.versions(v))
  }

  // No value holds the separator or is long enough to be clipped.
  ghost predicate Plain(cluster: Cluster) {
    && (forall i :: cluster.intents(i) ==> NulFree(WatchedFields(i)) && Short(WatchedFields(i)))
    && (forall v :: cluster.versions(v) ==> Short(map["metadata.resourceVersion" := v.resourceVersion]))
  }

  ghost predicate NoCollision(digest: string -> string, cluster: Cluster) {
    forall a, b :: cluster.intents(a) && cluster.intents(b)
                   && digest(Encoding(WatchedFields(a))) == digest(Encoding(WatchedFields(b))) ==>
      Encoding(WatchedFields(a)) == Encoding(WatchedFields(b))
  }

  // The snapshot was collected from answers of this cluster.
  ghost predicate CollectedFrom(digest: string -> string, cluster: Cluster, snapshot: Snapshot) {
    exists answers :: Shows(cluster, answers) && snapshot == SnapshotOf(Reducing(digest), answers)
  }

  // Every entry is the state of a workload the cluster showed, or a version it listed.
  ghost predicate EntryOf(digest: string -> string, cluster: Cluster, key: ObjectKey, state: ObjectState) {
    if key.kind in {ConfigMap, Secret} then
      exists v :: cluster.versions(v) && VersionAt(key, state, v)
    else exists i :: cluster.intents(i) && WorkloadKey(i) == key && state == WorkloadStateOf(digest, i)
  }

  lemma EntryIsShown(digest: string -> string, cluster: Cluster, answers: seq<Answers>, key: ObjectKey,
                     state: ObjectState)
    requires Shows(cluster, answers) && EntryFrom(Reducing(digest), answers, key, state)
    ensures EntryOf(digest, cluster, key, state)
  {
  }

  lemma CollectedIsObserved(digest: string -> string, cluster: Cluster, snapshot: Snapshot, key: ObjectKey)
    requires CollectedFrom(digest, cluster, snapshot) && key in snapshot
    ensures EntryOf(digest, cluster, key, snapshot[key])
  {
    var answers :| Shows(cluster, answers) && snapshot == SnapshotOf(Reducing(digest), answers);
    SnapshotEntriesAreObserved(Reducing(digest), answers);
    EntryIsShown(digest, cluster, answers, key, snapshot[key]);
  }

  lemma EntriesAgree(digest: string -> string, cluster: Cluster, key: ObjectKey, a: ObjectState, b: ObjectState)
    requires Plain(cluster) && NoCollision(digest, cluster) && a.revision == b.revision
    requires EntryOf(digest, cluster, key, a) && EntryOf(digest, cluster, key, b)
    ensures a.fields == b.fields
  {
    if key.kind !in {ConfigMap, Secret} {
      var x :| cluster.intents(x) && WorkloadKey(x) == key && a == WorkloadStateOf(digest, x);
      var y :| cluster.intents(y) && WorkloadKey(y) == key && b == WorkloadStateOf(digest, y);
      RevisionTracksTheWorkload(digest, x, y);
    }
  }

  /** Between two snapshots of a cluster whose workloads the digest tells apart, equal
      revisions mean equal fields. */
  lemma CollectedIsFaithful(digest: string -> string, cluster: Cluster, previous: Snapshot, current: Snapshot)
    requires Plain(cluster) && NoCollision(digest, cluster)
    requires CollectedFrom(digest, cluster, previous) && CollectedFrom(digest, cluster, current)
    ensures Faithful(previous, current)
  {
    forall key | key in previous && key in current && previous[key].revision == current[key].revision
      ensures previous[key].fields == current[key].fields
    {
      CollectedIsObserved(digest, cluster, previous, key);
      CollectedIsObserved(digest, cluster, current, key);
      EntriesAgree(digest, cluster, key, previous[key], current[key]);
    }
  }

  lemma CollectedIsShort(digest: string -> string, cluster: Cluster, snapshot: Snapshot)
    requires Plain(cluster) && CollectedFrom(digest, cluster, snapshot)
    ensures AllShort(snapshot)
  {
    forall key | key in snapshot
      ensures Short(snapshot[key].fields)
    {
      CollectedIsObserved(digest, cluster, snapshot, key);
    }
  }
}
