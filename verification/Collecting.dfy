/** One tick's view of a scope, collected page by page.

    What the cluster answers is a parameter: for each listed namespace, a page or an error
    for each of the three lists.  So is `reduce`, which takes a workload to its state and
    which `Snapshots.WorkloadState` computes. */
module Collecting {
  import opened Wrappers
  import opened Ordering
  import opened Snapshots
  import opened Scopes

  const LIST_LIMIT := 500

  datatype InventoryPage = InventoryPage(workloads: seq<Intent>, truncated: bool)
  datatype VersionPage = VersionPage(versions: seq<ConfigVersion>, truncated: bool)
  datatype Answers = Answers(workloads: Result<InventoryPage>, configMaps: Result<VersionPage>,
                             secrets: Result<VersionPage>)
  {
    predicate Complete() { workloads.Ok? && configMaps.Ok? && secrets.Ok? }
    predicate Cut() {
      Complete() && (workloads.value.truncated || configMaps.value.truncated || secrets.value.truncated)
    }
    function Intents(): seq<Intent> { if workloads.Ok? then workloads.value.workloads else [] }
    function Versions(kind: Kind): seq<ConfigVersion> {
      var page := if kind == ConfigMap then configMaps else secrets;
      if page.Ok? then page.value.versions else []
    }
  }

  // ---------------------------------------------------------------- what a snapshot holds

  function AllIntents(answers: seq<Answers>): seq<Intent> {
    if answers == [] then [] else AllIntents(answers[..|answers| - 1]) + answers[|answers| - 1].Intents()
  }

  // The references workloads make, as (namespace, name) pairs.
  type References = set<(string, string)>

  function RefsOf(kind: Kind, intent: Intent): seq<string> {
    if kind == ConfigMap then intent.configMapRefs else intent.secretRefs
  }

  function Noted(into: References, namespace: string, names: seq<string>): References {
    into + set n | n in names :: (namespace, n)
  }

  function AllRefs(kind: Kind, intents: seq<Intent>): References {
    if intents == [] then {}
    else
      var last := intents[|intents| - 1];
      Noted(AllRefs(kind, intents[..|intents| - 1]), last.namespace, RefsOf(kind, last))
  }

  function Workloads(reduce: Intent -> ObjectState, intents: seq<Intent>): Snapshot {
    if intents == [] then map[]
    else
      var last := intents[|intents| - 1];
      Workloads(reduce, intents[..|intents| - 1])[WorkloadKey(last) := reduce(last)]
  }

  lemma {:induction false} WorkloadsArePuts(reduce: Intent -> ObjectState, intents: seq<Intent>)
    ensures Workloads(reduce, intents)
                == Puts((i: Intent) => true, (i: Intent) => WorkloadKey(i), reduce, map[], intents)
  {
    if intents != [] { WorkloadsArePuts(reduce, intents[..|intents| - 1]); }
  }

  function Configs(kind: Kind, references: References, start: Snapshot, versions: seq<ConfigVersion>): Snapshot {
    Puts((v: ConfigVersion) => (v.namespace, v.name) in references, (v: ConfigVersion) => ConfigKey(kind, v),
         (v: ConfigVersion) => ConfigState(v), start, versions)
  }

  function AllConfigs(maps: References, secrets: References, start: Snapshot, answers: seq<Answers>): Snapshot {
    if answers == [] then start
    else
      var last := answers[|answers| - 1];
      var before := AllConfigs(maps, secrets, start, answers[..|answers| - 1]);
      Configs(Secret, secrets, Configs(ConfigMap, maps, before, last.Versions(ConfigMap)), last.Versions(Secret))
  }

  function SnapshotOf(reduce: Intent -> ObjectState, answers: seq<Answers>): Snapshot {
    var intents := AllIntents(answers);
    AllConfigs(AllRefs(ConfigMap, intents), AllRefs(Secret, intents), Workloads(reduce, intents), answers)
  }

  // ---------------------------------------------------------------- collecting it

  // What the walk over the workloads accumulates.
  datatype Gathered = Gathered(snapshot: Snapshot, maps: References, secrets: References)

  function Observed(reduce: Intent -> ObjectState, so: Gathered, intent: Intent): Gathered {
    Gathered(so.snapshot[WorkloadKey(intent) := reduce(intent)],
             Noted(so.maps, intent.namespace, RefsOf(ConfigMap, intent)),
             Noted(so.secrets, intent.namespace, RefsOf(Secret, intent)))
  }

  function Observing(reduce: Intent -> ObjectState): (Gathered, Intent) -> Gathered {
    (so, intent) => Observed(reduce, so, intent)
  }

  const NOTHING := Gathered(map[], {}, {})

  lemma {:induction false} GatherIs(reduce: Intent -> ObjectState, intents: seq<Intent>)
    ensures Fold(Observing(reduce), NOTHING, intents) ==
            Gathered(Workloads(reduce, intents), AllRefs(ConfigMap, intents), AllRefs(Secret, intents))
  {
    if intents != [] { GatherIs(reduce, intents[..|intents| - 1]); }
  }

  method AddConfigs(kind: Kind, references: References, start: Snapshot, versions: seq<ConfigVersion>)
    returns (snapshot: Snapshot)
    ensures snapshot == Configs(kind, references, start, versions)
  {
    snapshot := start;
    var i := 0;
    while i < |versions|
      invariant i <= |versions| && snapshot == Configs(kind, references, start, versions[..i])
    {
      var version := versions[i];
      assert versions[..i + 1][..i] == versions[..i];
      if (version.namespace, version.name) in references {
        snapshot := snapshot[ConfigKey(kind, version) := ConfigState(version)];
      }
      i := i + 1;
    }
    assert versions[..i] == versions;
  }

  ghost predicate SomeIncomplete(answers: seq<Answers>) {
    exists i :: 0 <= i < |answers| && !answers[i].Complete()
  }

  ghost predicate SomeCut(answers: seq<Answers>) {
    exists i :: 0 <= i < |answers| && answers[i].Cut()
  }

  /** The workloads of every namespace first, then the configuration objects they refer to.
      Any failed read fails the tick. */
  method CollectAll(reduce: Intent -> ObjectState, answers: seq<Answers>) returns (r: Reading)
    ensures r.Collected? <==>
              forall a :: a in answers ==> a.workloads.Ok? && a.configMaps.Ok? && a.secrets.Ok?
    ensures r.Collected? ==> r.snapshot == SnapshotOf(reduce, answers)
    ensures r.Collected? ==>
              (!r.truncated <==>
                 forall a :: a in answers ==>
                   !a.workloads.value.truncated && !a.configMaps.value.truncated && !a.secrets.value.truncated)
  {
    var ok, so, truncated := CollectWorkloads(Observing(reduce), NOTHING, answers);
    if !ok {
      return Faulted;
    }
    GatherIs(reduce, AllIntents(answers));
    r := CollectConfigs(answers, so.snapshot, so.maps, so.secrets, truncated);
  }

  lemma NextPage(answers: seq<Answers>, i: nat)
    requires i < |answers|
    ensures AllIntents(answers[..i + 1]) == AllIntents(answers[..i]) + answers[i].Intents()
  {
    assert answers[..i + 1][..i] == answers[..i];
  }

  // What the first i pages accumulate.
  ghost function AfterPages<A>(observe: (A, Intent) -> A, start: A, answers: seq<Answers>, i: nat): A
    requires i <= |answers|
  {
    if i == 0 then start else Fold(observe, AfterPages(observe, start, answers, i - 1), answers[i - 1].Intents())
  }

  lemma {:induction false} PagesAreFolded<A>(observe: (A, Intent) -> A, start: A, answers: seq<Answers>, i: nat)
    requires i <= |answers|
    ensures AfterPages(observe, start, answers, i) == Fold(observe, start, AllIntents(answers[..i]))
  {
    if i == 0 {
      assert answers[..0] == [];
    } else {
      var j := i - 1;
      PagesAreFolded(observe, start, answers, j);
      FoldOfPage(observe, start, answers, j);
      assert answers[..i] == answers[..j + 1];
    }
  }

  lemma FoldOfPage<A>(observe: (A, Intent) -> A, start: A, answers: seq<Answers>, j: nat)
    requires j < |answers|
    ensures Fold(observe, start, AllIntents(answers[..j + 1]))
         == Fold(observe, Fold(observe, start, AllIntents(answers[..j])), answers[j].Intents())
  {
    NextPage(answers, j);
    FoldConcat(observe, start, AllIntents(answers[..j]), answers[j].Intents());
  }

  ghost predicate SomeWorkloadsCut(answers: seq<Answers>, i: nat)
    requires i <= |answers|
  {
    i > 0 && (SomeWorkloadsCut(answers, i - 1)
              || (answers[i - 1].workloads.Ok? && answers[i - 1].workloads.value.truncated))
  }

  lemma {:induction false} SomeWorkloadsCutMeans(answers: seq<Answers>, i: nat)
    requires i <= |answers|
    ensures SomeWorkloadsCut(answers, i) <==>
                exists j :: 0 <= j < i && answers[j].workloads.Ok? && answers[j].workloads.value.truncated
  {
    if i > 0 { SomeWorkloadsCutMeans(answers, i - 1); }
  }

  // Every page's workloads in turn, whatever is done with each.
  method CollectWorkloads<A>(observe: (A, Intent) -> A, start: A, answers: seq<Answers>)
    returns (ok: bool, so: A, truncated: bool)
    ensures !ok ==> SomeIncomplete(answers)
    ensures ok ==> forall j :: 0 <= j < |answers| ==> answers[j].workloads.Ok?
    ensures ok ==> (truncated <==> SomeWorkloadsCut(answers, |answers|))
    ensures ok ==> so == Fold(observe, start, AllIntents(answers))
  {
    so, truncated := start, false;
    var i := 0;
    while i < |answers|
      invariant i <= |answers| && so == AfterPages(observe, start, answers, i)
      invariant forall j :: 0 <= j < i ==> answers[j].workloads.Ok?
      invariant truncated <==> SomeWorkloadsCut(answers, i)
    {
      if answers[i].workloads.Err? {
        assert !answers[i].Complete();
        return false, so, truncated;
      }
      var page := answers[i].workloads.value;
      truncated := truncated || page.truncated;
      so := Walk(observe, so, page.workloads);
      i := i + 1;
    }
    PagesAreFolded(observe, start, answers, i);
    assert answers[..i] == answers;
    ok := true;
  }

  method CollectConfigs(answers: seq<Answers>, start: Snapshot, maps: References, secrets: References, cut: bool)
    returns (r: Reading)
    requires forall j :: 0 <= j < |answers| ==> answers[j].workloads.Ok?
    requires cut <==> SomeWorkloadsCut(answers, |answers|)
    ensures r.Faulted? <==> SomeIncomplete(answers)
    ensures r.Collected? ==>
                r.snapshot == AllConfigs(maps, secrets, start, answers) && (r.truncated <==> SomeCut(answers))
  {
    var snapshot, truncated := start, cut;
    SomeWorkloadsCutMeans(answers, |answers|);
    var i := 0;
    while i < |answers|
      invariant i <= |answers|
      invariant forall j :: 0 <= j < i ==> answers[j].Complete()
      invariant truncated <==> cut || exists j :: 0 <= j < i && answers[j].Cut()
      invariant snapshot == AllConfigs(maps, secrets, start, answers[..i])
    {
      assert answers[..i + 1][..i] == answers[..i];
      if answers[i].configMaps.Err? {
        assert !answers[i].Complete();
        return Faulted;
      }
      var listed := answers[i].configMaps.value;
      snapshot := AddConfigs(ConfigMap, maps, snapshot, listed.versions);
      if answers[i].secrets.Err? {
        assert !answers[i].Complete();
        return Faulted;
      }
      var versions := answers[i].secrets.value;
      snapshot := AddConfigs(Secret, secrets, snapshot, versions.versions);
      truncated := truncated || listed.truncated || versions.truncated;
      i := i + 1;
    }
    assert answers[..i] == answers;
    r := Collected(snapshot, truncated);
  }

  // ---------------------------------------------------------------- what was collected

  predicate Refers(kind: Kind, intent: Intent, namespace: string, name: string) {
    intent.namespace == namespace && name in RefsOf(kind, intent)
  }

  lemma {:induction false} RefsMean(kind: Kind, intents: seq<Intent>, namespace: string, name: string)
    ensures (namespace, name) in AllRefs(kind, intents) <==>
                exists i :: 0 <= i < |intents| && Refers(kind, intents[i], namespace, name)
  {
    if intents != [] {
      var n := |intents| - 1;
      RefsMean(kind, intents[..n], namespace, name);
      if exists i :: 0 <= i < |intents| && Refers(kind, intents[i], namespace, name) {
        var i :| 0 <= i < |intents| && Refers(kind, intents[i], namespace, name);
        assert i < n ==> Refers(kind, intents[..n][i], namespace, name);
      }
    }
  }

  predicate Lists(answer: Answers, kind: Kind, key: ObjectKey) {
    exists v :: v in answer.Versions(kind) && ConfigKey(kind, v) == key
  }

  function Size(answer: Answers): nat {
    |answer.Versions(ConfigMap)| + |answer.Versions(Secret)|
  }

  function TotalSize(answers: seq<Answers>): nat {
    if answers == [] then 0 else TotalSize(answers[..|answers| - 1]) + Size(answers[|answers| - 1])
  }

  lemma ConfigsHold(kind: Kind, references: References, start: Snapshot, answer: Answers)
    ensures var s := Configs(kind, references, start, answer.Versions(kind));
            && |s| <= |start| + |answer.Versions(kind)|
            && forall key :: key in s <==>
                key in start || (Lists(answer, kind, key) && (key.namespace, key.name) in references)
  {
    PutsHold((v: ConfigVersion) => (v.namespace, v.name) in references, (v: ConfigVersion) => ConfigKey(kind, v),
             (v: ConfigVersion) => ConfigState(v), start, answer.Versions(kind));
  }

  ghost predicate ListedBy(answers: seq<Answers>, kind: Kind, key: ObjectKey) {
    exists i :: 0 <= i < |answers| && Lists(answers[i], kind, key)
  }

  lemma ListedByOneMore(answers: seq<Answers>, kind: Kind, key: ObjectKey)
    requires answers != []
    ensures ListedBy(answers, kind, key) <==>
                ListedBy(answers[..|answers| - 1], kind, key) || Lists(answers[|answers| - 1], kind, key)
  {
    var n := |answers| - 1;
    if ListedBy(answers, kind, key) {
      var i :| 0 <= i < |answers| && Lists(answers[i], kind, key);
      assert i < n ==> Lists(answers[..n][i], kind, key);
    }
    if ListedBy(answers[..n], kind, key) {
      var i :| 0 <= i < n && Lists(answers[..n][i], kind, key);
      assert Lists(answers[i], kind, key);
    }
  }

  lemma {:induction false} AllConfigsHold(maps: References, secrets: References, start: Snapshot,
                                          answers: seq<Answers>, key: ObjectKey)
    ensures var s := AllConfigs(maps, secrets, start, answers);
            && |s| <= |start| + TotalSize(answers)
            && (key in s <==>
                  || key in start
                  || (ListedBy(answers, ConfigMap, key) && (key.namespace, key.name) in maps)
                  || (ListedBy(answers, Secret, key) && (key.namespace, key.name) in secrets))
  {
    if answers != [] {
      var n := |answers| - 1;
      AllConfigsHold(maps, secrets, start, answers[..n], key);
      var before := AllConfigs(maps, secrets, start, answers[..n]);
      ConfigsHold(ConfigMap, maps, before, answers[n]);
      ConfigsHold(Secret, secrets, Configs(ConfigMap, maps, before, answers[n].Versions(ConfigMap)), answers[n]);
      ListedByOneMore(answers, ConfigMap, key);
      ListedByOneMore(answers, Secret, key);
    }
  }

  lemma WorkloadsHold(reduce: Intent -> ObjectState, intents: seq<Intent>)
    ensures |Workloads(reduce, intents)| <= |intents|
    ensures forall key :: key in Workloads(reduce, intents) <==> exists i :: i in intents && WorkloadKey(i) == key
    ensures forall key :: key in Workloads(reduce, intents) ==>
                exists i :: i in intents && WorkloadKey(i) == key && Workloads(reduce, intents)[key] == reduce(i)
  {
    WorkloadsArePuts(reduce, intents);
    PutsHold((i: Intent) => true, (i: Intent) => WorkloadKey(i), reduce, map[], intents);
  }

  ghost predicate Shown(intents: seq<Intent>, key: ObjectKey) {
    exists i :: i in intents && WorkloadKey(i) == key
  }

  ghost predicate ReferredTo(kind: Kind, intents: seq<Intent>, key: ObjectKey) {
    exists i :: 0 <= i < |intents| && Refers(kind, intents[i], key.namespace, key.name)
  }

  lemma WorkloadsAreShown(reduce: Intent -> ObjectState, intents: seq<Intent>, key: ObjectKey)
    ensures key in Workloads(reduce, intents) <==> Shown(intents, key)
  {
    WorkloadsHold(reduce, intents);
  }

  lemma RefsAreReferredTo(kind: Kind, intents: seq<Intent>, key: ObjectKey)
    ensures (key.namespace, key.name) in AllRefs(kind, intents) <==> ReferredTo(kind, intents, key)
  {
    RefsMean(kind, intents, key.namespace, key.name);
  }

  lemma SnapshotKeys(reduce: Intent -> ObjectState, answers: seq<Answers>, key: ObjectKey)
    ensures var intents := AllIntents(answers);
            key in SnapshotOf(reduce, answers) <==>
              || Shown(intents, key)
              || (ListedBy(answers, ConfigMap, key) && ReferredTo(ConfigMap, intents, key))
              || (ListedBy(answers, Secret, key) && ReferredTo(Secret, intents, key))
  {
    var intents := AllIntents(answers);
    WorkloadsAreShown(reduce, intents, key);
    RefsAreReferredTo(ConfigMap, intents, key);
    RefsAreReferredTo(Secret, intents, key);
    AllConfigsHold(AllRefs(ConfigMap, intents), AllRefs(Secret, intents), Workloads(reduce, intents), answers, key);
  }

  // The three lists of the answers, each read as one.
  ghost predicate Runs(answers: seq<Answers>, intent: Intent) {
    exists a :: a in answers && a.workloads.Ok? && intent in a.workloads.value.workloads
  }

  ghost predicate HasConfigMap(answers: seq<Answers>, version: ConfigVersion) {
    exists a :: a in answers && a.configMaps.Ok? && version in a.configMaps.value.versions
  }

  ghost predicate HasSecret(answers: seq<Answers>, version: ConfigVersion) {
    exists a :: a in answers && a.secrets.Ok? && version in a.secrets.value.versions
  }

  lemma {:induction false} IntentsRun(answers: seq<Answers>, intent: Intent)
    ensures intent in AllIntents(answers) <==> Runs(answers, intent)
  {
    if answers != [] {
      var n := |answers| - 1;
      IntentsRun(answers[..n], intent);
      assert forall a :: a in answers <==> a in answers[..n] || a == answers[n];
    }
  }

  lemma IntentsShown(answers: seq<Answers>, key: ObjectKey)
    ensures Shown(AllIntents(answers), key) <==> exists i :: Runs(answers, i) && WorkloadKey(i) == key
  {
    forall i ensures i in AllIntents(answers) <==> Runs(answers, i) { IntentsRun(answers, i); }
  }

  lemma MapsListed(answers: seq<Answers>, key: ObjectKey)
    ensures ListedBy(answers, ConfigMap, key) <==>
                exists v :: HasConfigMap(answers, v) && key == ObjectKey(ConfigMap, v.namespace, v.name, v.uid)
  {
    if ListedBy(answers, ConfigMap, key) {
      var i :| 0 <= i < |answers| && Lists(answers[i], ConfigMap, key);
      var v :| v in answers[i].Versions(ConfigMap) && ConfigKey(ConfigMap, v) == key;
      assert HasConfigMap(answers, v);
    }
    forall v, a | a in answers && a.configMaps.Ok? && v in a.configMaps.value.versions
                  && key == ObjectKey(ConfigMap, v.namespace, v.name, v.uid)
      ensures ListedBy(answers, ConfigMap, key)
    {
      assert v in a.Versions(ConfigMap) && Lists(a, ConfigMap, key);
    }
  }

  lemma SecretsListed(answers: seq<Answers>, key: ObjectKey)
    ensures ListedBy(answers, Secret, key) <==>
                exists v :: HasSecret(answers, v) && key == ObjectKey(Secret, v.namespace, v.name, v.uid)
  {
    if ListedBy(answers, Secret, key) {
      var i :| 0 <= i < |answers| && Lists(answers[i], Secret, key);
      var v :| v in answers[i].Versions(Secret) && ConfigKey(Secret, v) == key;
      assert HasSecret(answers, v);
    }
    forall v, a | a in answers && a.secrets.Ok? && v in a.secrets.value.versions
                  && key == ObjectKey(Secret, v.namespace, v.name, v.uid)
      ensures ListedBy(answers, Secret, key)
    {
      assert v in a.Versions(Secret) && Lists(a, Secret, key);
    }
  }

  lemma RunningRefers(answers: seq<Answers>, key: ObjectKey)
    ensures ReferredTo(ConfigMap, AllIntents(answers), key) <==>
                exists i :: Runs(answers, i) && i.namespace == key.namespace && key.name in i.configMapRefs
    ensures ReferredTo(Secret, AllIntents(answers), key) <==>
                exists i :: Runs(answers, i) && i.namespace == key.namespace && key.name in i.secretRefs
  {
    var intents := AllIntents(answers);
    forall i ensures i in intents <==> Runs(answers, i) { IntentsRun(answers, i); }
    forall i | i in intents && i.namespace == key.namespace && key.name in i.configMapRefs
      ensures ReferredTo(ConfigMap, intents, key)
    {
      assert Refers(ConfigMap, i, key.namespace, key.name);
    }
    forall i | i in intents && i.namespace == key.namespace && key.name in i.secretRefs
      ensures ReferredTo(Secret, intents, key)
    {
      assert Refers(Secret, i, key.namespace, key.name);
    }
  }

  // A workload by its own key; a configuration object by its list's kind, where some
  // workload of its namespace names it.
  ghost predicate Belongs(answers: seq<Answers>, key: ObjectKey) {
    match key.kind
    case ConfigMap =>
      && (exists v :: HasConfigMap(answers, v) && key == ObjectKey(ConfigMap, v.namespace, v.name, v.uid))
      && (exists i :: Runs(answers, i) && i.namespace == key.namespace && key.name in i.configMapRefs)
    case Secret =>
      && (exists v :: HasSecret(answers, v) && key == ObjectKey(Secret, v.namespace, v.name, v.uid))
      && (exists i :: Runs(answers, i) && i.namespace == key.namespace && key.name in i.secretRefs)
    case _ =>
      exists i :: Runs(answers, i) && WorkloadKey(i) == key
  }

  lemma KindsAreApart(answers: seq<Answers>, intents: seq<Intent>, key: ObjectKey)
    ensures Shown(intents, key) ==> key.kind !in {ConfigMap, Secret}
    ensures ListedBy(answers, ConfigMap, key) ==> key.kind == ConfigMap
    ensures ListedBy(answers, Secret, key) ==> key.kind == Secret
  {
  }

  /** A snapshot holds every listed workload, and of the listed configuration objects
      exactly those some workload of the scope refers to, in its own namespace. */
  lemma SnapshotHoldsWhatIsReferenced(reduce: Intent -> ObjectState, answers: seq<Answers>, key: ObjectKey)
    ensures key in SnapshotOf(reduce, answers) <==> Belongs(answers, key)
  {
    SnapshotKeys(reduce, answers, key);
    KindsAreApart(answers, AllIntents(answers), key);
    match key.kind
    case ConfigMap =>
      MapsListed(answers, key);
      RunningRefers(answers, key);
    case Secret =>
      SecretsListed(answers, key);
      RunningRefers(answers, key);
    case _ =>
      IntentsShown(answers, key);
  }

  // ---------------------------------------------------------------- what each entry is

  predicate VersionAt(key: ObjectKey, state: ObjectState, version: ConfigVersion) {
    && key.namespace == version.namespace && key.name == version.name && key.uid == version.uid
    && state.revision == version.resourceVersion
    && state.fields == map["metadata.resourceVersion" := version.resourceVersion]
  }

  // The entry is the state of a workload of this key, or the version of a listed
  // configuration object of this key.
  ghost predicate EntryFrom(reduce: Intent -> ObjectState, answers: seq<Answers>, key: ObjectKey, state: ObjectState) {
    match key.kind
    case ConfigMap => exists v :: HasConfigMap(answers, v) && VersionAt(key, state, v)
    case Secret => exists v :: HasSecret(answers, v) && VersionAt(key, state, v)
    case _ => exists i :: Runs(answers, i) && WorkloadKey(i) == key && state == reduce(i)
  }

  ghost predicate AllFrom(reduce: Intent -> ObjectState, answers: seq<Answers>, snapshot: Snapshot) {
    forall key :: key in snapshot ==> EntryFrom(reduce, answers, key, snapshot[key])
  }

  lemma ConfigsAreVersions(reduce: Intent -> ObjectState, answers: seq<Answers>, kind: Kind, references: References,
                           start: Snapshot, answer: Answers)
    requires kind in {ConfigMap, Secret} && answer in answers && AllFrom(reduce, answers, start)
    ensures AllFrom(reduce, answers, Configs(kind, references, start, answer.Versions(kind)))
  {
    var listed := answer.Versions(kind);
    PutsHold((v: ConfigVersion) => (v.namespace, v.name) in references, (v: ConfigVersion) => ConfigKey(kind, v),
             (v: ConfigVersion) => ConfigState(v), start, listed);
    var s := Configs(kind, references, start, listed);
    forall key | key in s ensures EntryFrom(reduce, answers, key, s[key]) {
      if !(key in start && s[key] == start[key]) {
        var v :| v in listed && ConfigKey(kind, v) == key && s[key] == ConfigState(v);
        assert VersionAt(key, s[key], v);
        assert if kind == ConfigMap then HasConfigMap(answers, v) else HasSecret(answers, v);
      }
    }
  }

  lemma {:induction false} AllConfigsAreVersions(reduce: Intent -> ObjectState, maps: References, secrets: References,
                                                 start: Snapshot, answers: seq<Answers>, n: nat)
    requires AllFrom(reduce, answers, start) && n <= |answers|
    ensures AllFrom(reduce, answers, AllConfigs(maps, secrets, start, answers[..n]))
  {
    if n > 0 {
      var last := answers[n - 1];
      assert answers[..n][..n - 1] == answers[..n - 1];
      AllConfigsAreVersions(reduce, maps, secrets, start, answers, n - 1);
      var before := AllConfigs(maps, secrets, start, answers[..n - 1]);
      ConfigsAreVersions(reduce, answers, ConfigMap, maps, before, last);
      var middle := Configs(ConfigMap, maps, before, last.Versions(ConfigMap));
      ConfigsAreVersions(reduce, answers, Secret, secrets, middle, last);
    }
  }

  lemma WorkloadIsAnEntry(reduce: Intent -> ObjectState, answers: seq<Answers>, intent: Intent)
    requires intent in AllIntents(answers)
    ensures EntryFrom(reduce, answers, WorkloadKey(intent), reduce(intent))
  {
    IntentsRun(answers, intent);
    assert WorkloadKey(intent).kind !in {ConfigMap, Secret};
  }

  lemma WorkloadsAreReduced(reduce: Intent -> ObjectState, answers: seq<Answers>)
    ensures AllFrom(reduce, answers, Workloads(reduce, AllIntents(answers)))
  {
    var intents := AllIntents(answers);
    WorkloadsHold(reduce, intents);
    var s := Workloads(reduce, intents);
    forall key | key in s ensures EntryFrom(reduce, answers, key, s[key]) {
      var i :| i in intents && WorkloadKey(i) == key && s[key] == reduce(i);
      WorkloadIsAnEntry(reduce, answers, i);
    }
  }

  /** Every entry of a collected snapshot is what one listed object is reduced to. */
  lemma SnapshotEntriesAreObserved(reduce: Intent -> ObjectState, answers: seq<Answers>)
    ensures AllFrom(reduce, answers, SnapshotOf(reduce, answers))
  {
    var intents := AllIntents(answers);
    WorkloadsAreReduced(reduce, answers);
    AllConfigsAreVersions(reduce, AllRefs(ConfigMap, intents), AllRefs(Secret, intents), Workloads(reduce, intents),
                          answers, |answers|);
    assert answers[..|answers|] == answers;
  }

  // Each of the five lists behind an answer honours its limit.
  predicate WithinLimits(answer: Answers) {
    |answer.Intents()| <= 3 * LIST_LIMIT && |answer.Versions(ConfigMap)| <= LIST_LIMIT
        && |answer.Versions(Secret)| <= LIST_LIMIT
  }

  lemma {:induction false} AnswersAreBounded(answers: seq<Answers>)
    requires forall i :: 0 <= i < |answers| ==> WithinLimits(answers[i])
    ensures |AllIntents(answers)| + TotalSize(answers) <= |answers| * (5 * LIST_LIMIT)
  {
    if answers != [] {
      var n := |answers| - 1;
      AnswersAreBounded(answers[..n]);
      assert WithinLimits(answers[n]);
      assert |AllIntents(answers)| == |AllIntents(answers[..n])| + |answers[n].Intents()|;
    }
  }

  lemma SnapshotIsBounded(reduce: Intent -> ObjectState, answers: seq<Answers>)
    requires forall i :: 0 <= i < |answers| ==> WithinLimits(answers[i])
    ensures |SnapshotOf(reduce, answers)| <= |answers| * (5 * LIST_LIMIT)
  {
    var intents := AllIntents(answers);
    WorkloadsHold(reduce, intents);
    AllConfigsHold(AllRefs(ConfigMap, intents), AllRefs(Secret, intents), Workloads(reduce, intents), answers,
                   ObjectKey(Secret, "", "", ""));
    AnswersAreBounded(answers);
  }
}
