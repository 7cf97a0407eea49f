/** Full namespaces: within every list's limit, and fourteen of them too large for the queue. */
module FullScope {
  import opened Wrappers
  import opened Snapshots
  import opened Scopes
  import opened Collecting
  import opened SyncRuns
  import opened SyncTheorems
  import opened Recovery
  import opened Rounds

  const PER_NAMESPACE := 2500

  function WorkloadKindName(k: nat): string {
    if k == 0 then "deployment" else if k == 1 then "statefulset" else "daemonset"
  }

  function KindAt(k: nat): Kind {
    if k == 0 then Deployment else if k == 1 then StatefulSet else if k == 2 then DaemonSet
    else if k == 3 then ConfigMap else Secret
  }

  function Names(): (r: seq<string>)
    ensures |r| == LIST_LIMIT && forall i :: 0 <= i < LIST_LIMIT ==> r[i] == Decimal(i)
  {
    seq(LIST_LIMIT, i requires 0 <= i < LIST_LIMIT => Decimal(i))
  }

  // The j-th workload of a namespace: five hundred of each kind, each referring to
  // everything there is to refer to.
  function FullIntent(namespace: string, j: nat): Intent {
    Intent(WorkloadKindName(j / LIST_LIMIT), namespace, Decimal(j % LIST_LIMIT), "", 0, "", "", [], Names(), Names(),
           "")
  }

  function FullIntents(namespace: string): (r: seq<Intent>)
    ensures |r| == 3 * LIST_LIMIT && forall j :: 0 <= j < 3 * LIST_LIMIT ==> r[j] == FullIntent(namespace, j)
  {
    seq(3 * LIST_LIMIT, j requires 0 <= j < 3 * LIST_LIMIT => FullIntent(namespace, j))
  }

  function FullVersions(namespace: string): (r: seq<ConfigVersion>)
    ensures |r| == LIST_LIMIT && forall i :: 0 <= i < LIST_LIMIT ==>
                r[i] == ConfigVersion(namespace, Decimal(i), "", "")
  {
    seq(LIST_LIMIT, i requires 0 <= i < LIST_LIMIT => ConfigVersion(namespace, Decimal(i), "", ""))
  }

  function FullAnswer(namespace: string): Answers {
    Answers(Ok(InventoryPage(FullIntents(namespace), false)), Ok(VersionPage(FullVersions(namespace), false)),
            Ok(VersionPage(FullVersions(namespace), false)))
  }

  // What a tick over these namespaces reads when every one of them is full.
  function FullAnswers(namespaces: seq<string>): (r: seq<Answers>)
    ensures |r| == |namespaces| && forall n :: 0 <= n < |namespaces| ==> r[n] == FullAnswer(namespaces[n])
  {
    seq(|namespaces|, n requires 0 <= n < |namespaces| => FullAnswer(namespaces[n]))
  }

  predicate Distinct(namespaces: seq<string>) {
    forall i, j :: 0 <= i < j < |namespaces| ==> namespaces[i] != namespaces[j]
  }

  // ---------------------------------------------------------------- counting its objects

  function KeyAt(namespace: string, k: nat, i: nat): ObjectKey {
    ObjectKey(KindAt(k), namespace, Decimal(i), "")
  }

  // The x-th object of these namespaces.
  function KeyOf(namespaces: seq<string>, x: nat): ObjectKey {
    var n := x / PER_NAMESPACE;
    KeyAt(if n < |namespaces| then namespaces[n] else "", x % PER_NAMESPACE / LIST_LIMIT,
          x % PER_NAMESPACE % LIST_LIMIT)
  }

  lemma KeyOfIsInjective(namespaces: seq<string>, x: nat, y: nat)
    requires Distinct(namespaces) && x < |namespaces| * PER_NAMESPACE && y < |namespaces| * PER_NAMESPACE
    requires KeyOf(namespaces, x) == KeyOf(namespaces, y)
    ensures x == y
  {
    assert x / PER_NAMESPACE == y / PER_NAMESPACE;
    DecimalIsInjective(x % PER_NAMESPACE % LIST_LIMIT, y % PER_NAMESPACE % LIST_LIMIT);
    KindsDiffer(x % PER_NAMESPACE / LIST_LIMIT, y % PER_NAMESPACE / LIST_LIMIT);
  }

  lemma KindsDiffer(a: nat, b: nat)
    requires a < 5 && b < 5 && KindAt(a) == KindAt(b)
    ensures a == b
  {
  }

  ghost function KeysBelow(key: nat -> ObjectKey, m: nat): set<ObjectKey> {
    if m == 0 then {} else KeysBelow(key, m - 1) + {key(m - 1)}
  }

  lemma {:induction false} KeysBelowMeans(key: nat -> ObjectKey, m: nat, k: ObjectKey)
    ensures k in KeysBelow(key, m) <==> exists x: nat :: x < m && key(x) == k
    decreases m
  {
    if m > 0 { KeysBelowMeans(key, m - 1, k); }
  }

  lemma {:induction false} KeysBelowCount(key: nat -> ObjectKey, m: nat)
    requires forall x: nat, y: nat :: x < y < m ==> key(x) != key(y)
    ensures |KeysBelow(key, m)| == m
    decreases m
  {
    if m > 0 {
      KeysBelowCount(key, m - 1);
      KeysBelowMeans(key, m - 1, key(m - 1));
    }
  }

  lemma {:induction false} FewerKeys(keys: set<ObjectKey>, all: set<ObjectKey>)
    requires keys <= all
    ensures |keys| <= |all|
  {
    assert all == keys + (all - keys);
  }

  // ---------------------------------------------------------------- every one is collected

  lemma {:induction false} PageIsInAll(answers: seq<Answers>, n: nat, intent: Intent)
    requires n < |answers| && intent in answers[n].Intents()
    ensures intent in AllIntents(answers)
    decreases |answers|
  {
    var m := |answers| - 1;
    if n < m { PageIsInAll(answers[..m], n, intent); }
  }

  lemma ShownIsCollected(reduce: Intent -> ObjectState, answers: seq<Answers>, key: ObjectKey)
    requires Shown(AllIntents(answers), key)
    ensures key in SnapshotOf(reduce, answers)
  {
    SnapshotKeys(reduce, answers, key);
  }

  lemma ReferredToIsCollected(reduce: Intent -> ObjectState, answers: seq<Answers>, kind: Kind, key: ObjectKey)
    requires kind in {ConfigMap, Secret} && ListedBy(answers, kind, key) && ReferredTo(kind, AllIntents(answers), key)
    ensures key in SnapshotOf(reduce, answers)
  {
    SnapshotKeys(reduce, answers, key);
  }

  lemma FullIntentKey(namespace: string, k: nat, i: nat)
    requires k < 3 && i < LIST_LIMIT
    ensures WorkloadKey(FullIntent(namespace, k * LIST_LIMIT + i)) == KeyAt(namespace, k, i)
  {
    assert (k * LIST_LIMIT + i) / LIST_LIMIT == k && (k * LIST_LIMIT + i) % LIST_LIMIT == i;
  }

  lemma FullIntentIsShown(answers: seq<Answers>, n: nat, namespace: string, j: nat)
    requires n < |answers| && answers[n] == FullAnswer(namespace) && j < 3 * LIST_LIMIT
    ensures FullIntent(namespace, j) in AllIntents(answers)
  {
    assert FullIntents(namespace)[j] == FullIntent(namespace, j);
    assert FullIntent(namespace, j) in FullAnswer(namespace).Intents();
    PageIsInAll(answers, n, FullIntent(namespace, j));
  }

  lemma WorkloadIsCollected(reduce: Intent -> ObjectState, answers: seq<Answers>, n: nat, namespace: string, k: nat,
                            i: nat)
    requires n < |answers| && answers[n] == FullAnswer(namespace) && k < 3 && i < LIST_LIMIT
    ensures KeyAt(namespace, k, i) in SnapshotOf(reduce, answers)
  {
    FullIntentIsShown(answers, n, namespace, k * LIST_LIMIT + i);
    FullIntentKey(namespace, k, i);
    assert Shown(AllIntents(answers), KeyAt(namespace, k, i));
    ShownIsCollected(reduce, answers, KeyAt(namespace, k, i));
  }

  lemma NamespaceRefers(answers: seq<Answers>, kind: Kind, n: nat, i: nat, key: ObjectKey)
    requires n < |answers| && answers[n] == FullAnswer(key.namespace) && i < LIST_LIMIT && key.name == Decimal(i)
    ensures ReferredTo(kind, AllIntents(answers), key)
  {
    var intents, intent := AllIntents(answers), FullIntent(key.namespace, 0);
    FullIntentIsShown(answers, n, key.namespace, 0);
    assert Names()[i] == key.name && Refers(kind, intent, key.namespace, key.name);
    var x :| 0 <= x < |intents| && intents[x] == intent;
    assert Refers(kind, intents[x], key.namespace, key.name);
  }

  lemma FullVersionIsListed(answers: seq<Answers>, kind: Kind, n: nat, namespace: string, i: nat)
    requires n < |answers| && answers[n] == FullAnswer(namespace) && i < LIST_LIMIT && kind in {ConfigMap, Secret}
    ensures ListedBy(answers, kind, ObjectKey(kind, namespace, Decimal(i), ""))
  {
    var v := FullVersions(namespace)[i];
    assert v in FullAnswer(namespace).Versions(kind);
    assert ConfigKey(kind, v) == ObjectKey(kind, namespace, Decimal(i), "");
    assert Lists(answers[n], kind, ObjectKey(kind, namespace, Decimal(i), ""));
  }

  lemma ConfigIsCollected(reduce: Intent -> ObjectState, answers: seq<Answers>, n: nat, namespace: string, k: nat,
                          i: nat)
    requires n < |answers| && answers[n] == FullAnswer(namespace) && 3 <= k < 5 && i < LIST_LIMIT
    ensures KeyAt(namespace, k, i) in SnapshotOf(reduce, answers)
  {
    FullVersionIsListed(answers, KindAt(k), n, namespace, i);
    NamespaceRefers(answers, KindAt(k), n, i, KeyAt(namespace, k, i));
    ReferredToIsCollected(reduce, answers, KindAt(k), KeyAt(namespace, k, i));
  }

  lemma KeyIsCollected(reduce: Intent -> ObjectState, namespaces: seq<string>, x: nat)
    requires x < |namespaces| * PER_NAMESPACE
    ensures KeyOf(namespaces, x) in SnapshotOf(reduce, FullAnswers(namespaces))
  {
    var answers := FullAnswers(namespaces);
    var n, k, i := x / PER_NAMESPACE, x % PER_NAMESPACE / LIST_LIMIT, x % PER_NAMESPACE % LIST_LIMIT;
    if k < 3 {
      WorkloadIsCollected(reduce, answers, n, namespaces[n], k, i);
    } else {
      ConfigIsCollected(reduce, answers, n, namespaces[n], k, i);
    }
  }

  /** Full namespaces collect to 2500 objects each. */
  lemma FullNamespacesCollect(reduce: Intent -> ObjectState, namespaces: seq<string>, m: nat)
    requires Distinct(namespaces) && m == |namespaces| * PER_NAMESPACE
    ensures |SnapshotOf(reduce, FullAnswers(namespaces))| >= m
  {
    var snapshot, key := SnapshotOf(reduce, FullAnswers(namespaces)), (x: nat) => KeyOf(namespaces, x);
    forall k | k in KeysBelow(key, m) ensures k in snapshot.Keys {
      KeysBelowMeans(key, m, k);
      var x: nat :| x < m && key(x) == k;
      KeyIsCollected(reduce, namespaces, x);
    }
    forall x: nat, y: nat | x < y < m ensures key(x) != key(y) {
      if key(x) == key(y) { KeyOfIsInjective(namespaces, x, y); }
    }
    KeysBelowCount(key, m);
    FewerKeys(KeysBelow(key, m), snapshot.Keys);
  }

  /** Any fourteen namespaces whose lists all honour their limits can collect to more objects
      than the queue can hold a baseline of. */
  lemma FourteenNamespacesCanBeTooLarge(reduce: Intent -> ObjectState, namespaces: seq<string>)
    requires Distinct(namespaces) && |namespaces| >= 14
    ensures forall n :: 0 <= n < |namespaces| ==>
              FullAnswers(namespaces)[n].Complete() && WithinLimits(FullAnswers(namespaces)[n])
    ensures |SnapshotOf(reduce, FullAnswers(namespaces))| > MAX_PENDING_DELTAS * MAX_CHANGES_PER_DELTA
  {
    FullNamespacesCollect(reduce, namespaces, |namespaces| * PER_NAMESPACE);
  }

  // ---------------------------------------------------------------- a scope of fourteen, run

  // The tick lists fourteen namespaces or more, and reads every one of them full.
  ghost predicate ReadsFull(tick: Tick, reading: Reading, reduce: Intent -> ObjectState) {
    && |tick.namespaces| >= 14 && Distinct(tick.namespaces)
    && reading == Collected(SnapshotOf(reduce, FullAnswers(tick.namespaces)), false)
  }

  // Every tick of this scope that lands does.
  ghost predicate AlwaysFull(s: System, run: seq<Event>, c: string, reduce: Intent -> ObjectState)
    requires ValidFrom(s, run)
    decreases |run|
  {
    run == [] || ((LandsOn(s, run[0], c) ==> ReadsFull(s.running.value.tick, run[0].reading, reduce))
                  && AlwaysFull(Step(s, run[0]), run[1..], c, reduce))
  }

  lemma {:induction false} FullIsTooLarge(s: System, run: seq<Event>, c: string, reduce: Intent -> ObjectState)
    requires ValidFrom(s, run) && AlwaysFull(s, run, c, reduce)
    ensures AlwaysTooLarge(s, run, c)
    decreases |run|
  {
    if run != [] {
      if LandsOn(s, run[0], c) { FourteenNamespacesCanBeTooLarge(reduce, s.running.value.tick.namespaces); }
      FullIsTooLarge(Step(s, run[0]), run[1..], c, reduce);
    }
  }

  /** Take any policy that comes to fourteen namespaces or more.  There is a run from the start
      to a tick over exactly those, which, reading them full, lands in debt with nothing
      queued; and from there on, however long it goes on, a scope whose ticks read full never
      gets out of it. */
  lemma FourteenNamespacesNeverRecover(local: Local, policy: Policy, clock: Time, at: Time, ids: nat -> string,
                                       reduce: Intent -> ObjectState)
    returns (run: seq<Event>, commit: Event)
    requires local.enabled && local.minimumInterval >= 0 && policy.connectionId != "" && FreshIds(ids, {})
    requires var namespaces := EffectiveNamespaces(local, policy.namespaces);
             |namespaces| >= 14 && Distinct(namespaces)
    ensures ValidFrom(Start(local, clock), run)
    ensures var s, c := After(Start(local, clock), run), policy.connectionId;
            && Enabled(s, commit) && LandsOn(s, commit, c) && ReadsFull(s.running.value.tick, commit.reading, reduce)
            && s.running.value.tick.namespaces == EffectiveNamespaces(local, policy.namespaces)
            && Emptied(Step(s, commit), c)
            && forall more :: ValidFrom(Step(s, commit), more) && AlwaysFull(Step(s, commit), more, c, reduce) ==>
                 var later := After(Step(s, commit), more); c in later.scopes && later.scopes[c].rebaseline
  {
    var s0, c, scope, trace := Start(local, clock), policy.connectionId, *, *;
    run, scope, trace := TickBegins(s0, policy, clock);
    var s, namespaces := After(s0, run), scope.namespaces;
    commit := CommitTick(at, Collected(SnapshotOf(reduce, FullAnswers(namespaces)), false), ids);
    RunKeepsInv(s0, run);
    FullTickOverflows(s, commit, c, reduce);
    StepKeepsInv(s, commit);
    forall more | ValidFrom(Step(s, commit), more) && AlwaysFull(Step(s, commit), more, c, reduce)
      ensures var later := After(Step(s, commit), more); c in later.scopes && later.scopes[c].rebaseline
    {
      FullIsTooLarge(Step(s, commit), more, c, reduce);
      TooLargeNeverRecovers(Step(s, commit), more, c);
    }
  }

  lemma FullTickOverflows(s: System, commit: Event, c: string, reduce: Intent -> ObjectState)
    requires Inv(s) && Enabled(s, commit) && LandsOn(s, commit, c) && TickOf(s.scopes[c]).baseline
    requires ReadsFull(s.running.value.tick, commit.reading, reduce)
    ensures Emptied(Step(s, commit), c)
  {
    FourteenNamespacesCanBeTooLarge(reduce, s.running.value.tick.namespaces);
    LandingSettlesIff(s, commit, c);
    WhatFitsAnEmptyQueue(|commit.reading.snapshot|);
  }
}
