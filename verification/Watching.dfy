/** Which field of a workload's state holds which part of its declared intent. */
module Watching {
  import opened Snapshots

  // ---------------------------------------------------------------- names that cannot be confused

  const PARTS := [".image", ".resources.requests.cpu", ".resources.requests.memory", ".resources.limits.cpu",
                  ".resources.limits.memory"]

  function Part(c: Container, i: nat): string {
    if i == 0 then c.image else if i == 1 then c.requestsCpu else if i == 2 then c.requestsMemory
    else if i == 3 then c.limitsCpu else c.limitsMemory
  }

  function PartName(c: Container, i: nat): string
    requires i < 5
  {
    ContainerPrefix(c) + PARTS[i]
  }

  lemma SuffixDecides(a: string, b: string, s: string, t: string)
    requires a + s == b + t && |s| <= |t|
    ensures t[|t| - |s|..] == s && a == b + t[..|t| - |s|]
  {
    assert (a + s)[|a + s| - |s|..] == s && (b + t)[|b + t| - |s|..] == t[|t| - |s|..];
    assert (a + s)[..|a|] == a && (b + t)[..|a|] == b + t[..|t| - |s|];
  }

  lemma SuffixesDiffer(i: nat, j: nat)
    requires i < 5 && j < 5 && |PARTS[i]| <= |PARTS[j]| && PARTS[j][|PARTS[j]| - |PARTS[i]|..] == PARTS[i]
    ensures i == j
  {
  }

  lemma PartsDiffer(a: string, b: string, i: nat, j: nat)
    requires i < 5 && j < 5 && |PARTS[i]| <= |PARTS[j]| && a + PARTS[i] == b + PARTS[j]
    ensures i == j && a == b
  {
    SuffixDecides(a, b, PARTS[i], PARTS[j]);
    SuffixesDiffer(i, j);
    assert PARTS[j][..0] == "" && b + "" == b;
  }

  lemma PrefixesDiffer(c: Container, d: Container)
    requires ContainerPrefix(c) == ContainerPrefix(d)
    ensures c.init == d.init && c.name == d.name
  {
    var p, q := ContainerPrefix(c), ContainerPrefix(d);
    assert p[19] == (if c.init then 'i' else 'c') && q[19] == (if d.init then 'i' else 'c');
    var n := if c.init then 34 else 30;
    assert p[n..|p| - 1] == c.name && q[n..|q| - 1] == d.name;
  }

  lemma PartNamesDiffer(c: Container, d: Container, i: nat, j: nat)
    requires i < 5 && j < 5 && PartName(c, i) == PartName(d, j)
    ensures i == j && c.init == d.init && c.name == d.name
  {
    if |PARTS[i]| <= |PARTS[j]| {
      PartsDiffer(ContainerPrefix(c), ContainerPrefix(d), i, j);
    } else {
      PartsDiffer(ContainerPrefix(d), ContainerPrefix(c), j, i);
    }
    PrefixesDiffer(c, d);
  }

  // ---------------------------------------------------------------- one container, and all

  lemma FieldOfPart(c: Container, i: nat)
    requires i < 5
    ensures Get(ContainerFields(c), PartName(c, i)) == Part(c, i)
    ensures i == 0 ==> PartName(c, i) in ContainerFields(c)
  {
    forall j | 0 <= j < 5 && j != i ensures PartName(c, j) != PartName(c, i) {
      if PartName(c, j) == PartName(c, i) { PartNamesDiffer(c, c, j, i); }
    }
    assert PartName(c, 0) == ContainerPrefix(c) + ".image";
    assert PartName(c, 1) == ContainerPrefix(c) + ".resources.requests.cpu";
    assert PartName(c, 2) == ContainerPrefix(c) + ".resources.requests.memory";
    assert PartName(c, 3) == ContainerPrefix(c) + ".resources.limits.cpu";
    assert PartName(c, 4) == ContainerPrefix(c) + ".resources.limits.memory";
  }

  lemma FieldsAreParts(c: Container, name: string)
    requires name in ContainerFields(c)
    ensures exists i :: 0 <= i < 5 && name == PartName(c, i)
  {
    assert PartName(c, 0) == ContainerPrefix(c) + ".image";
    assert PartName(c, 1) == ContainerPrefix(c) + ".resources.requests.cpu";
    assert PartName(c, 2) == ContainerPrefix(c) + ".resources.requests.memory";
    assert PartName(c, 3) == ContainerPrefix(c) + ".resources.limits.cpu";
    assert PartName(c, 4) == ContainerPrefix(c) + ".resources.limits.memory";
  }

  // No other container of the list goes by the name of the k-th.
  predicate Alone(containers: seq<Container>, k: nat)
    requires k < |containers|
  {
    forall j :: 0 <= j < |containers| && j != k ==>
      containers[j].init != containers[k].init || containers[j].name != containers[k].name
  }

  lemma {:induction false} NobodyElse(containers: seq<Container>, c: Container, i: nat)
    requires i < 5 && forall j :: 0 <= j < |containers| ==> containers[j].init != c.init || containers[j].name != c.name
    ensures PartName(c, i) !in AllContainerFields(containers)
  {
    if containers != [] {
      var n := |containers| - 1;
      NobodyElse(containers[..n], c, i);
      if PartName(c, i) in ContainerFields(containers[n]) {
        FieldsAreParts(containers[n], PartName(c, i));
        var j :| 0 <= j < 5 && PartName(c, i) == PartName(containers[n], j);
        PartNamesDiffer(c, containers[n], i, j);
      }
    }
  }

  lemma {:induction false} PartIsKept(containers: seq<Container>, k: nat, i: nat)
    requires i < 5 && k < |containers| && Alone(containers, k)
    ensures Get(AllContainerFields(containers), PartName(containers[k], i)) == Part(containers[k], i)
    ensures i == 0 ==> PartName(containers[k], i) in AllContainerFields(containers)
    decreases |containers|
  {
    var n, c := |containers| - 1, containers[k];
    if k == n {
      NobodyElse(containers[..n], c, i);
      FieldOfPart(c, i);
    } else {
      PartIsKept(containers[..n], k, i);
      NobodyElse([containers[n]], c, i);
      assert [containers[n]][..0] == [];
      assert AllContainerFields([containers[n]]) == map[] + ContainerFields(containers[n]);
    }
  }

  lemma {:induction false} ContainerFieldsBegin(containers: seq<Container>, name: string)
    requires name in AllContainerFields(containers)
    ensures exists k, i :: 0 <= k < |containers| && 0 <= i < 5 && name == PartName(containers[k], i)
  {
    var n := |containers| - 1;
    if name in ContainerFields(containers[n]) {
      FieldsAreParts(containers[n], name);
    } else {
      ContainerFieldsBegin(containers[..n], name);
      var k, i :| 0 <= k < n && 0 <= i < 5 && name == PartName(containers[..n][k], i);
      assert name == PartName(containers[k], i);
    }
  }

  lemma PartNameBegins(c: Container, i: nat)
    requires i < 5
    ensures "spec.template.spec." <= PartName(c, i)
  {
    assert PartName(c, i)[..19] == ContainerPrefix(c)[..19] == "spec.template.spec.";
  }

  lemma PartNameEnds(c: Container, i: nat)
    requires i < 5
    ensures PartName(c, i)[|PartName(c, i)| - 1] != ']'
  {
    assert PartName(c, i)[|PartName(c, i)| - 1] == PARTS[i][|PARTS[i]| - 1];
  }

  lemma NotOfAContainer(containers: seq<Container>, name: string)
    requires !("spec.template.spec." <= name) || (name != "" && name[|name| - 1] == ']')
    ensures name !in AllContainerFields(containers)
  {
    if name in AllContainerFields(containers) {
      ContainerFieldsBegin(containers, name);
      var k, i :| 0 <= k < |containers| && 0 <= i < 5 && name == PartName(containers[k], i);
      PartNameBegins(containers[k], i);
      PartNameEnds(containers[k], i);
    }
  }

  // ---------------------------------------------------------------- the whole state

  const REPLICAS := "spec.replicas"
  const REVISION := "metadata.annotations[deployment.kubernetes.io/revision]"
  const CONFIG_MAPS := "references.configMaps"
  const SECRETS := "references.secrets"

  lemma NamesDiffer()
    ensures |REPLICAS| == |TEMPLATE| == 13 && REPLICAS[5] != TEMPLATE[5]
    ensures |REVISION| == 55 && REVISION[54] == ']' && REPLICAS[0] == TEMPLATE[0] == 's'
    ensures |CONFIG_MAPS| == 21 && |SECRETS| == 18 && CONFIG_MAPS[0] == SECRETS[0] == 'r'
  {
    assert REPLICAS[5] == 'r' && TEMPLATE[5] == 't';
  }

  // One layer more, under a name not there before.
  lemma LayerHolds(below: map<string, string>, name: string, value: string, all: map<string, string>)
    requires name !in below && (all == below + IfPresent(name, value) || all == below + map[name := value])
    ensures Get(all, name) == value
    ensures forall other :: other != name ==> Get(all, other) == Get(below, other) && (other in all <==> other in below)
  {
  }

  // Two layers and then the containers'.
  function Lower(a: string, av: string, b: string, bv: string, containers: map<string, string>): map<string, string> {
    IfPresent(a, av) + IfPresent(b, bv) + containers
  }

  lemma LowerHolds(a: string, av: string, b: string, bv: string, containers: map<string, string>)
    requires a != b && a !in containers && b !in containers
    ensures var fields := Lower(a, av, b, bv, containers);
            && Get(fields, a) == av && Get(fields, b) == bv
            && forall other :: other != a && other != b ==>
                 Get(fields, other) == Get(containers, other) && (other in fields <==> other in containers)
  {
    LayerHolds(IfPresent(a, av), b, bv, IfPresent(a, av) + IfPresent(b, bv));
  }

  function Upper(lower: map<string, string>, c: string, cv: string, d: string, dv: string, e: string,
                 ev: string): map<string, string>
  {
    lower + IfPresent(c, cv) + IfPresent(d, dv) + map[e := ev]
  }

  lemma UpperHolds(lower: map<string, string>, c: string, cv: string, d: string, dv: string, e: string, ev: string)
    requires c != d && c != e && d != e && c !in lower && d !in lower && e !in lower
    ensures var fields := Upper(lower, c, cv, d, dv, e, ev);
            && Get(fields, c) == cv && Get(fields, d) == dv && e in fields && fields[e] == ev
            && forall other :: other != c && other != d && other != e ==>
                 Get(fields, other) == Get(lower, other) && (other in fields <==> other in lower)
  {
    var one := lower + IfPresent(c, cv);
    var two := one + IfPresent(d, dv);
    LayerHolds(lower, c, cv, one);
    LayerHolds(one, d, dv, two);
    LayerHolds(two, e, ev, two + map[e := ev]);
  }

  function WholeNames(): seq<string> { [REPLICAS, REVISION, CONFIG_MAPS, SECRETS, TEMPLATE] }

  lemma WholeNamesDiffer(i: nat, j: nat)
    requires i < j < 5
    ensures WholeNames()[i] != WholeNames()[j]
  {
    NamesDiffer();
  }

  lemma WholeNamesAreNotOfContainers(containers: seq<Container>, i: nat)
    requires i < 5
    ensures WholeNames()[i] !in AllContainerFields(containers)
  {
    NamesDiffer();
    NotOfAContainer(containers, WholeNames()[i]);
  }

  ghost function LowerOf(intent: Intent): map<string, string> {
    Lower(REPLICAS, intent.replicas, REVISION, intent.controllerRevision, AllContainerFields(intent.containers))
  }

  lemma WatchedInLayers(intent: Intent)
    ensures WatchedFields(intent)
         == Upper(LowerOf(intent), CONFIG_MAPS, Join(intent.configMapRefs), SECRETS, Join(intent.secretRefs), TEMPLATE,
                  intent.templateHash)
  {
  }

  lemma AllNamesDiffer(intent: Intent)
    ensures forall i :: 0 <= i < 5 ==> WholeNames()[i] !in AllContainerFields(intent.containers)
    ensures forall i, j :: 0 <= i < j < 5 ==> WholeNames()[i] != WholeNames()[j]
  {
    forall i | 0 <= i < 5 ensures WholeNames()[i] !in AllContainerFields(intent.containers) {
      WholeNamesAreNotOfContainers(intent.containers, i);
    }
    forall i, j | 0 <= i < j < 5 ensures WholeNames()[i] != WholeNames()[j] { WholeNamesDiffer(i, j); }
  }

  lemma WatchedLayersHold(intent: Intent)
    ensures var fields, names := WatchedFields(intent), WholeNames();
            && Get(fields, names[0]) == intent.replicas && Get(fields, names[1]) == intent.controllerRevision
            && Get(fields, names[2]) == Join(intent.configMapRefs) && Get(fields, names[3]) == Join(intent.secretRefs)
            && names[4] in fields && fields[names[4]] == intent.templateHash
            && (forall name :: name !in names ==>
                  Get(fields, name) == Get(AllContainerFields(intent.containers), name)
                  && (name in fields <==> name in AllContainerFields(intent.containers)))
  {
    AllNamesDiffer(intent);
    var names := WholeNames();
    LayersMeet(intent, names[0], names[1], names[2], names[3], names[4]);
  }

  lemma LayersMeet(intent: Intent, a: string, b: string, c: string, d: string, e: string)
    requires [a, b, c, d, e] == WholeNames()
    requires a != b && a != c && a != d && a != e && b != c && b != d && b != e && c != d && c != e && d != e
    requires var inner := AllContainerFields(intent.containers);
             a !in inner && b !in inner && c !in inner && d !in inner && e !in inner
    ensures var fields, inner := WatchedFields(intent), AllContainerFields(intent.containers);
            && Get(fields, a) == intent.replicas && Get(fields, b) == intent.controllerRevision
            && Get(fields, c) == Join(intent.configMapRefs) && Get(fields, d) == Join(intent.secretRefs)
            && e in fields && fields[e] == intent.templateHash
            && (forall name :: name != a && name != b && name != c && name != d && name != e ==>
                  Get(fields, name) == Get(inner, name) && (name in fields <==> name in inner))
  {
    WatchedInLayers(intent);
    LowerHolds(a, intent.replicas, b, intent.controllerRevision, AllContainerFields(intent.containers));
    UpperHolds(LowerOf(intent), c, Join(intent.configMapRefs), d, Join(intent.secretRefs), e, intent.templateHash);
  }

  /** The fields of a workload as a whole: replicas, controller revision, the two lists of
      references and the template hash, each under its own name. */
  lemma WorkloadFieldsHold(intent: Intent)
    ensures var fields := WatchedFields(intent);
            && Get(fields, "spec.replicas") == intent.replicas
            && Get(fields, "metadata.annotations[deployment.kubernetes.io/revision]") == intent.controllerRevision
            && Get(fields, "references.configMaps") == Join(intent.configMapRefs)
            && Get(fields, "references.secrets") == Join(intent.secretRefs)
            && "spec.template" in fields && fields["spec.template"] == intent.templateHash
  {
    WatchedLayersHold(intent);
  }

  lemma PartNameIsNoWholeName(c: Container, i: nat)
    requires i < 5
    ensures PartName(c, i) !in WholeNames()
  {
    NamesDiffer();
    PartNameBegins(c, i);
    PartNameEnds(c, i);
    assert PartName(c, i)[0] == "spec.template.spec."[0] == 's' && |PartName(c, i)| >= 19;
  }

  /** The fields of one container: its image, always, and its requests and limits, each under
      its own name, provided no other container of that list has its name. */
  lemma ContainerFieldsHold(intent: Intent, k: nat)
    requires k < |intent.containers| && Alone(intent.containers, k)
    ensures var fields, c := WatchedFields(intent), intent.containers[k];
            var listed := if c.init then "initContainers" else "containers";
            var name := "spec.template.spec." + listed + "[" + c.name + "]";
            && name + ".image" in fields && fields[name + ".image"] == c.image
            && Get(fields, name + ".resources.requests.cpu") == c.requestsCpu
            && Get(fields, name + ".resources.requests.memory") == c.requestsMemory
            && Get(fields, name + ".resources.limits.cpu") == c.limitsCpu
            && Get(fields, name + ".resources.limits.memory") == c.limitsMemory
  {
    var c := intent.containers[k];
    forall i | 0 <= i < 5
      ensures Get(WatchedFields(intent), PartName(c, i)) == Part(c, i)
      ensures i == 0 ==> PartName(c, i) in WatchedFields(intent)
    {
      PartIsKept(intent.containers, k, i);
      PartNameIsNoWholeName(c, i);
      WatchedLayersHold(intent);
    }
    ContainerIsNamed(c);
  }

  lemma ContainerIsNamed(c: Container)
    ensures var listed := if c.init then "initContainers" else "containers";
            var name := "spec.template.spec." + listed + "[" + c.name + "]";
            && PartName(c, 0) == name + ".image"
            && PartName(c, 1) == name + ".resources.requests.cpu"
            && PartName(c, 2) == name + ".resources.requests.memory"
            && PartName(c, 3) == name + ".resources.limits.cpu"
            && PartName(c, 4) == name + ".resources.limits.memory"
  {
    assert TEMPLATE_PREFIX + "spec." == "spec.template.spec.";
  }

  /** And nothing else is watched. */
  lemma NothingElseIsWatched(intent: Intent, name: string)
    requires name in WatchedFields(intent)
    ensures || name in {REPLICAS, REVISION, CONFIG_MAPS, SECRETS, "spec.template"}
            || exists k, i :: 0 <= k < |intent.containers| && 0 <= i < 5 && name == PartName(intent.containers[k], i)
  {
    if name !in WholeNames() {
      WatchedLayersHold(intent);
      ContainerFieldsBegin(intent.containers, name);
    }
  }

  // ---------------------------------------------------------------- lists of references

  function Splits(text: string): seq<string> {
    if ',' !in text then [text] else var n := UpToComma(text); [text[..n]] + Splits(text[n + 1..])
  }

  function UpToComma(s: string): (n: nat)
    requires ',' in s
    ensures n < |s| && s[n] == ',' && ',' !in s[..n]
  {
    if s[0] == ',' then 0 else var n := 1 + UpToComma(s[1..]); assert s[..n] == [s[0]] + s[1..][..n - 1]; n
  }

  lemma FirstSplit(a: string, x: string)
    requires ',' !in a
    ensures Splits(a + [','] + x) == [a] + Splits(x)
  {
    var s := a + [','] + x;
    FirstSeparator(',', a, x);
    assert s[|a|] in s;
    var n := UpToComma(s);
    assert s == s[..n] + [','] + s[n + 1..];
    CutIsUnique(',', a, x, s[..n], s[n + 1..]);
  }

  /** A list of references is written with a comma between them: cut at the commas, it is the
      list again. */
  lemma {:induction false} JoinSplits(parts: seq<string>)
    requires parts != [] && forall part :: part in parts ==> ',' !in part
    ensures Splits(Join(parts)) == parts
    decreases |parts|
  {
    assert parts[0] in parts;
    if |parts| > 1 {
      JoinSplits(parts[1..]);
      FirstSplit(parts[0], Join(parts[1..]));
      assert parts[0] + "," + Join(parts[1..]) == parts[0] + [','] + Join(parts[1..]);
      assert parts == [parts[0]] + parts[1..];
    }
  }
}
