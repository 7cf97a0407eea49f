/** What one tick sees of a scope: object identities, revisions and watched fields.

    A Go string is a sequence of bytes; here it is a Dafny string with one character per
    byte.  The hash is a parameter `digest`, and where a statement needs it not to collide
    it says so. */
module Snapshots {
  import opened Ordering

  datatype Kind = Unspecified | Deployment | StatefulSet | DaemonSet | ConfigMap | Secret
  {
    function Number(): nat {
      match this
      case Unspecified => 0
      case Deployment => 1
      case StatefulSet => 2
      case DaemonSet => 3
      case ConfigMap => 4
      case Secret => 5
    }
  }

  // The uid is part of the identity: a recreated object is another object.
  datatype ObjectKey = ObjectKey(kind: Kind, namespace: string, name: string, uid: string)

  datatype ObjectState = ObjectState(revision: string, fields: map<string, string>)

  type Snapshot = map<ObjectKey, ObjectState>

  function Get(fields: map<string, string>, name: string): string {
    if name in fields then fields[name] else ""
  }

  // ---------------------------------------------------------------- the order of keys

  predicate KeyLess(a: ObjectKey, b: ObjectKey) {
    if a.namespace != b.namespace then StringLess(a.namespace, b.namespace)
    else if a.kind != b.kind then a.kind.Number() < b.kind.Number()
    else if a.name != b.name then StringLess(a.name, b.name)
    else StringLess(a.uid, b.uid)
  }

  lemma KeyLessTransitive(a: ObjectKey, b: ObjectKey, c: ObjectKey)
    requires StrictTotal(StringLess) && KeyLess(a, b) && KeyLess(b, c)
    ensures KeyLess(a, c)
  {
  }

  lemma KeyLessIsTotal()
    ensures StrictTotal(KeyLess)
  {
    StringLessIsTotal();
    forall a, b, c | KeyLess(a, b) && KeyLess(b, c) ensures KeyLess(a, c) { KeyLessTransitive(a, b, c); }
  }

  ghost function SortedKeys(snapshot: Snapshot): (r: seq<ObjectKey>)
    ensures |r| == |snapshot| && (forall key :: key in r <==> key in snapshot)
  {
    KeyLessIsTotal();
    Sorted(KeyLess, snapshot.Keys)
  }

  lemma SortedKeysAscend(snapshot: Snapshot)
    ensures Ascending(KeyLess, SortedKeys(snapshot))
  {
    KeyLessIsTotal();
    SortedAscends(KeyLess, snapshot.Keys);
  }

  const KINDS := [Unspecified, Deployment, StatefulSet, DaemonSet, ConfigMap, Secret]

  // The first of namespace, kind, name and uid in which two keys differ decides.
  predicate Precedes(a: ObjectKey, b: ObjectKey) {
    && (a.namespace != b.namespace ==> StringLess(a.namespace, b.namespace))
    && (a.namespace == b.namespace && a.kind != b.kind ==>
          exists p, q :: 0 <= p < q < |KINDS| && KINDS[p] == a.kind && KINDS[q] == b.kind)
    && (a.namespace == b.namespace && a.kind == b.kind && a.name != b.name ==> StringLess(a.name, b.name))
    && (a.namespace == b.namespace && a.kind == b.kind && a.name == b.name ==> StringLess(a.uid, b.uid))
  }

  lemma KeyLessMeans(a: ObjectKey, b: ObjectKey)
    requires KeyLess(a, b)
    ensures Precedes(a, b)
  {
    assert KINDS[a.kind.Number()] == a.kind && KINDS[b.kind.Number()] == b.kind;
  }

  method ListKeys(snapshot: Snapshot) returns (r: seq<ObjectKey>)
    ensures r == SortedKeys(snapshot)
    ensures |r| == |snapshot| && forall key :: key in r <==> key in snapshot
    ensures forall i, j :: 0 <= i < j < |r| ==> Precedes(r[i], r[j])
  {
    KeyLessIsTotal();
    r := SortKeys(KeyLess, snapshot.Keys);
    SortedKeysAscend(snapshot);
    forall i, j | 0 <= i < j < |r| ensures Precedes(r[i], r[j]) { KeyLessMeans(r[i], r[j]); }
  }

  // ---------------------------------------------------------------- encoding a field map

  const NUL := '\0'

  // What is fed to the hash: name NUL value NUL, for each name in turn.
  function Encode(names: seq<string>, fields: map<string, string>): (r: string)
    requires forall name :: name in names ==> name in fields
    ensures r == "" <==> names == []
  {
    if names == [] then ""
    else names[0] + [NUL] + (fields[names[0]] + [NUL] + Encode(names[1..], fields))
  }

  ghost function Encoding(fields: map<string, string>): string {
    Encode(SortedStrings(fields.Keys), fields)
  }

  predicate NulFree(fields: map<string, string>) {
    forall name :: name in fields ==> NUL !in name && NUL !in fields[name]
  }

  lemma FirstSeparator(separator: char, a: string, x: string)
    requires separator !in a
    ensures var s := a + [separator] + x;
            s[|a|] == separator && (forall i :: 0 <= i < |a| ==> s[i] != separator) && s[..|a|] == a
                && s[|a| + 1..] == x
  {
  }

  // A string cut at its first separator is cut in one place only.
  lemma CutIsUnique(separator: char, a: string, x: string, b: string, y: string)
    requires separator !in a && separator !in b
    requires a + [separator] + x == b + [separator] + y
    ensures a == b && x == y
  {
    FirstSeparator(separator, a, x);
    FirstSeparator(separator, b, y);
    assert |a| == |b|;
  }

  lemma {:induction false} EncodeIsInjective(names: seq<string>, fields: map<string, string>, names': seq<string>,
                                             fields': map<string, string>)
    requires forall name :: name in names ==> name in fields && NUL !in name && NUL !in fields[name]
    requires forall name :: name in names' ==> name in fields' && NUL !in name && NUL !in fields'[name]
    requires Encode(names, fields) == Encode(names', fields')
    ensures names == names'
    ensures forall name :: name in names ==> fields[name] == fields'[name]
    decreases |names|
  {
    if names != [] {
      var n, n' := names[0], names'[0];
      var rest, rest' := Encode(names[1..], fields), Encode(names'[1..], fields');
      CutIsUnique(NUL, n, fields[n] + [NUL] + rest, n', fields'[n'] + [NUL] + rest');
      CutIsUnique(NUL, fields[n], rest, fields'[n'], rest');
      EncodeIsInjective(names[1..], fields, names'[1..], fields');
      assert names == [n] + names[1..] && names' == [n'] + names'[1..];
    }
  }

  // What stands before each NUL.
  function Pieces(s: string): seq<string> {
    if NUL !in s then [] else var n := UpTo(s); [s[..n]] + Pieces(s[n + 1..])
  }

  function UpTo(s: string): (n: nat)
    requires NUL in s
    ensures n < |s| && s[n] == NUL && NUL !in s[..n]
  {
    if s[0] == NUL then 0 else var n := 1 + UpTo(s[1..]); assert s[..n] == [s[0]] + s[1..][..n - 1]; n
  }

  lemma FirstPiece(a: string, x: string)
    requires NUL !in a
    ensures Pieces(a + [NUL] + x) == [a] + Pieces(x)
  {
    var s := a + [NUL] + x;
    FirstSeparator(NUL, a, x);
    assert s[|a|] == NUL && s[|a|] in s;
    var n := UpTo(s);
    assert s == s[..n] + [NUL] + s[n + 1..];
    CutIsUnique(NUL, a, x, s[..n], s[n + 1..]);
  }

  // Each name and its value, in turn.
  function Alternating(names: seq<string>, fields: map<string, string>): seq<string>
    requires forall name :: name in names ==> name in fields
  {
    if names == [] then [] else [names[0], fields[names[0]]] + Alternating(names[1..], fields)
  }

  lemma {:induction false} AlternatingAt(names: seq<string>, fields: map<string, string>, i: nat)
    requires (forall name :: name in names ==> name in fields) && i < |names|
    ensures |Alternating(names, fields)| == 2 * |names|
    ensures Alternating(names, fields)[2 * i] == names[i]
    ensures Alternating(names, fields)[2 * i + 1] == fields[names[i]]
    decreases |names|
  {
    if |names| > 1 { AlternatingAt(names[1..], fields, if i > 0 then i - 1 else 0); }
  }

  lemma {:induction false} EncodeReadsBack(names: seq<string>, fields: map<string, string>)
    requires forall name :: name in names ==> name in fields && NUL !in name && NUL !in fields[name]
    ensures Pieces(Encode(names, fields)) == Alternating(names, fields)
    decreases |names|
  {
    if names == [] {
      assert NUL !in "";
    } else {
      var rest := Encode(names[1..], fields);
      EncodeReadsBack(names[1..], fields);
      FirstTwoPieces(names[0], fields[names[0]], rest);
    }
  }

  lemma FirstTwoPieces(a: string, b: string, x: string)
    requires NUL !in a && NUL !in b
    ensures Pieces(a + [NUL] + (b + [NUL] + x)) == [a, b] + Pieces(x)
  {
    var y := b + [NUL] + x;
    var whole := PieceOff(a, y);
    var tail := PieceOff(b, x);
    assert whole == [a, b] + Pieces(x);
  }

  // The pieces of a text that begins with this one.
  lemma PieceOff(a: string, x: string) returns (pieces: seq<string>)
    requires NUL !in a
    ensures pieces == Pieces(a + [NUL] + x) == [a] + Pieces(x)
  {
    FirstPiece(a, x);
    pieces := Pieces(a + [NUL] + x);
  }

  /** Read up to each NUL in turn, the digest's input is every field's name and value, in name
      order and nothing else. */
  lemma EncodingReadsBack(fields: map<string, string>)
    requires NulFree(fields)
    ensures var names, pieces := SortedStrings(fields.Keys), Pieces(Encoding(fields));
            && (forall name :: name in names <==> name in fields)
            && (forall i, j :: 0 <= i < j < |names| ==> StringLess(names[i], names[j]))
            && |pieces| == 2 * |names|
            && forall i :: 0 <= i < |names| ==> pieces[2 * i] == names[i] && pieces[2 * i + 1] == fields[names[i]]
  {
    var names := SortedStrings(fields.Keys);
    SortedStringsAscend(fields.Keys);
    EncodeReadsBack(names, fields);
    forall i | 0 <= i < |names|
      ensures |Alternating(names, fields)| == 2 * |names| && Alternating(names, fields)[2 * i] == names[i]
      ensures Alternating(names, fields)[2 * i + 1] == fields[names[i]]
    {
      AlternatingAt(names, fields, i);
    }
    if names != [] { AlternatingAt(names, fields, 0); }
  }

  /** The digest's input determines the field map. */
  lemma EncodingIsInjective(a: map<string, string>, b: map<string, string>)
    requires NulFree(a) && NulFree(b) && Encoding(a) == Encoding(b)
    ensures a == b
  {
    EncodeIsInjective(SortedStrings(a.Keys), a, SortedStrings(b.Keys), b);
    assert a.Keys == b.Keys;
  }

  lemma EncodeStep(written: string, names: seq<string>, i: nat, fields: map<string, string>)
    requires i < |names| && forall name :: name in names ==> name in fields
    ensures written + Encode(names[i..], fields) ==
            (written + names[i] + [NUL] + fields[names[i]] + [NUL]) + Encode(names[i + 1..], fields)
  {
    assert names[i..][1..] == names[i + 1..];
  }

  method DigestFields(digest: string -> string, fields: map<string, string>) returns (r: string)
    ensures r == digest(Encoding(fields))
  {
    var names := SortNames(fields.Keys);
    var written := WriteFields(names, fields);
    r := digest(written);
  }

  method WriteFields(names: seq<string>, fields: map<string, string>) returns (written: string)
    requires forall name :: name in names ==> name in fields
    ensures written == Encode(names, fields)
  {
    written := "";
    var i := 0;
    assert names[0..] == names;
    while i < |names|
      invariant i <= |names|
      invariant written + Encode(names[i..], fields) == Encode(names, fields)
    {
      EncodeStep(written, names, i, fields);
      written := written + names[i];
      written := written + [NUL];
      written := written + fields[names[i]];
      written := written + [NUL];
      i := i + 1;
    }
  }

  // ---------------------------------------------------------------- revisions

  function Digits(n: nat): (r: string)
    ensures r != [] && forall i :: 0 <= i < |r| ==> '0' <= r[i] <= '9'
  {
    if n < 10 then ['0' + n as char] else Digits(n / 10) + ['0' + (n % 10) as char]
  }

  function Decimal(n: int): (r: string)
    ensures '.' !in r
  {
    if n < 0 then "-" + Digits(-n) else Digits(n)
  }

  lemma {:induction false} DigitsIsInjective(a: nat, b: nat)
    requires Digits(a) == Digits(b)
    ensures a == b
    decreases a
  {
    var s, t := Digits(a), Digits(b);
    assert a >= 10 ==> |Digits(a / 10)| >= 1 && s[..|s| - 1] == Digits(a / 10);
    assert b >= 10 ==> |Digits(b / 10)| >= 1 && t[..|t| - 1] == Digits(b / 10);
    assert s[|s| - 1] == t[|t| - 1];
    if a >= 10 && b >= 10 { DigitsIsInjective(a / 10, b / 10); }
  }

  lemma DecimalIsInjective(a: int, b: int)
    requires Decimal(a) == Decimal(b)
    ensures a == b
  {
    assert Decimal(a)[0] == Decimal(b)[0];
    if a < 0 && b < 0 {
      assert Decimal(a)[1..] == Digits(-a) && Decimal(b)[1..] == Digits(-b);
      DigitsIsInjective(-a, -b);
    } else if a >= 0 && b >= 0 {
      DigitsIsInjective(a, b);
    }
  }

  function ValueOf(digits: string): int {
    if digits == "" then 0 else 10 * ValueOf(digits[..|digits| - 1]) + (digits[|digits| - 1] as int - '0' as int)
  }

  /** A number is written in decimal, with a sign only when it is negative and no leading zero. */
  lemma {:induction false} DigitsReadBack(n: nat)
    ensures ValueOf(Digits(n)) == n && (|Digits(n)| > 1 ==> Digits(n)[0] != '0')
  {
    if n >= 10 {
      DigitsReadBack(n / 10);
      assert Digits(n)[..|Digits(n)| - 1] == Digits(n / 10);
      assert |Digits(n / 10)| == 1 ==> Digits(n / 10)[0] == Digits(n)[0];
      LeadingDigit(n / 10);
    }
  }

  lemma LeadingDigit(n: nat)
    requires n > 0
    ensures Digits(n)[0] != '0'
  {
    if n >= 10 { LeadingDigit(n / 10); }
  }

  function WorkloadRevision(generation: int, digested: string): string {
    "g" + (Decimal(generation) + ['.'] + digested)
  }

  /** The composite moves when either part does. */
  lemma RevisionMovesWithEitherPart(g: int, d: string, g': int, d': string)
    ensures WorkloadRevision(g, d) == WorkloadRevision(g', d') <==> g == g' && d == d'
  {
    if WorkloadRevision(g, d) == WorkloadRevision(g', d') {
      assert WorkloadRevision(g, d)[1..] == Decimal(g) + ['.'] + d;
      assert WorkloadRevision(g', d')[1..] == Decimal(g') + ['.'] + d';
      CutIsUnique('.', Decimal(g), d, Decimal(g'), d');
      DecimalIsInjective(g, g');
    }
  }

  // ---------------------------------------------------------------- workloads

  datatype Container = Container(name: string, init: bool, image: string,
                                 requestsCpu: string, requestsMemory: string, limitsCpu: string, limitsMemory: string)

  datatype Intent = Intent(kind: string, namespace: string, name: string, uid: string, generation: int,
                           replicas: string, controllerRevision: string, containers: seq<Container>,
                           configMapRefs: seq<string>, secretRefs: seq<string>, templateHash: string)

  const TEMPLATE := "spec.template"
  const TEMPLATE_PREFIX := "spec.template."

  function Join(parts: seq<string>): string {
    if parts == [] then "" else if |parts| == 1 then parts[0] else parts[0] + "," + Join(parts[1..])
  }

  function WorkloadKind(kind: string): Kind {
    if kind == "deployment" then Deployment
    else if kind == "statefulset" then StatefulSet
    else if kind == "daemonset" then DaemonSet
    else Unspecified
  }

  function IfPresent(name: string, value: string): map<string, string> {
    if value != "" then map[name := value] else map[]
  }

  function ContainerPrefix(c: Container): string {
    TEMPLATE_PREFIX + "spec." + (if c.init then "initContainers" else "containers") + "[" + c.name + "]"
  }

  function ContainerFields(c: Container): map<string, string> {
    map[ContainerPrefix(c) + ".image" := c.image]
    + IfPresent(ContainerPrefix(c) + ".resources.requests.cpu", c.requestsCpu)
    + IfPresent(ContainerPrefix(c) + ".resources.requests.memory", c.requestsMemory)
    + IfPresent(ContainerPrefix(c) + ".resources.limits.cpu", c.limitsCpu)
    + IfPresent(ContainerPrefix(c) + ".resources.limits.memory", c.limitsMemory)
  }

  // A later container overwrites an earlier one of the same list and name.
  function AllContainerFields(containers: seq<Container>): map<string, string> {
    if containers == [] then map[]
    else AllContainerFields(containers[..|containers| - 1]) + ContainerFields(containers[|containers| - 1])
  }

  function WatchedFields(intent: Intent): map<string, string> {
    IfPresent("spec.replicas", intent.replicas)
    + IfPresent("metadata.annotations[deployment.kubernetes.io/revision]", intent.controllerRevision)
    + AllContainerFields(intent.containers)
    + IfPresent("references.configMaps", Join(intent.configMapRefs))
    + IfPresent("references.secrets", Join(intent.secretRefs))
    + map[TEMPLATE := intent.templateHash]
  }

  function WorkloadKey(intent: Intent): ObjectKey {
    ObjectKey(WorkloadKind(intent.kind), intent.namespace, intent.name, intent.uid)
  }

  ghost function WorkloadStateOf(digest: string -> string, intent: Intent): ObjectState {
    ObjectState(WorkloadRevision(intent.generation, digest(Encoding(WatchedFields(intent)))), WatchedFields(intent))
  }

  lemma OverrideIsAssociative(a: map<string, string>, b: map<string, string>, c: map<string, string>)
    ensures a + (b + c) == (a + b) + c
  {
  }

  method WorkloadState(digest: string -> string, intent: Intent) returns (key: ObjectKey, state: ObjectState)
    ensures key == WorkloadKey(intent) && state == WorkloadStateOf(digest, intent)
  {
    key := WorkloadKey(intent);
    var fields := IfPresent("spec.replicas", intent.replicas);
    fields := fields + IfPresent("metadata.annotations[deployment.kubernetes.io/revision]", intent.controllerRevision);
    fields := AddContainers(fields, intent.containers);
    fields := fields + IfPresent("references.configMaps", Join(intent.configMapRefs));
    fields := fields + IfPresent("references.secrets", Join(intent.secretRefs));
    fields := fields + map[TEMPLATE := intent.templateHash];
    var digested := DigestFields(digest, fields);
    state := ObjectState(WorkloadRevision(intent.generation, digested), fields);
  }

  /** A workload's revision is its generation and the digest of its fields, spelled out. */
  lemma RevisionIsSpelled(generation: int, digested: string)
    ensures WorkloadRevision(generation, digested) == "g" + Decimal(generation) + "." + digested
  {
  }

  /** And its identity is its kind, namespace, name and uid. */
  lemma WorkloadKeySays(intent: Intent)
    ensures var key := WorkloadKey(intent);
            && key.namespace == intent.namespace && key.name == intent.name && key.uid == intent.uid
            && (intent.kind == "deployment" ==> key.kind == Deployment)
            && (intent.kind == "statefulset" ==> key.kind == StatefulSet)
            && (intent.kind == "daemonset" ==> key.kind == DaemonSet)
            && (intent.kind !in {"deployment", "statefulset", "daemonset"} ==> key.kind == Unspecified)
  {
  }

  method AddContainers(start: map<string, string>, containers: seq<Container>) returns (fields: map<string, string>)
    ensures fields == start + AllContainerFields(containers)
  {
    fields := start;
    var i := 0;
    while i < |containers|
      invariant i <= |containers| && fields == start + AllContainerFields(containers[..i])
    {
      assert containers[..i + 1][..i] == containers[..i];
      OverrideIsAssociative(start, AllContainerFields(containers[..i]), ContainerFields(containers[i]));
      fields := fields + ContainerFields(containers[i]);
      i := i + 1;
    }
    assert containers[..i] == containers;
  }

  /** Two observations of a workload carry the same revision exactly when neither its
      generation nor any watched field moved, provided the digest tells the two apart. */
  lemma RevisionTracksTheWorkload(digest: string -> string, a: Intent, b: Intent)
    requires NulFree(WatchedFields(a)) && NulFree(WatchedFields(b))
    requires digest(Encoding(WatchedFields(a))) == digest(Encoding(WatchedFields(b))) ==>
                 Encoding(WatchedFields(a)) == Encoding(WatchedFields(b))
    ensures WorkloadStateOf(digest, a).revision == WorkloadStateOf(digest, b).revision <==>
              a.generation == b.generation && WatchedFields(a) == WatchedFields(b)
  {
    RevisionMovesWithEitherPart(a.generation, digest(Encoding(WatchedFields(a))), b.generation,
                                digest(Encoding(WatchedFields(b))));
    if Encoding(WatchedFields(a)) == Encoding(WatchedFields(b)) {
      EncodingIsInjective(WatchedFields(a), WatchedFields(b));
    }
  }

  // ---------------------------------------------------------------- configuration objects

  datatype ConfigVersion = ConfigVersion(namespace: string, name: string, uid: string, resourceVersion: string)

  const RESOURCE_VERSION := "metadata.resourceVersion"

  function ConfigKey(kind: Kind, version: ConfigVersion): ObjectKey {
    ObjectKey(kind, version.namespace, version.name, version.uid)
  }

  function ConfigState(version: ConfigVersion): (state: ObjectState)
    ensures state.revision == version.resourceVersion == Get(state.fields, RESOURCE_VERSION)
    ensures forall name :: name in state.fields ==> name == RESOURCE_VERSION
  {
    ObjectState(version.resourceVersion, map[RESOURCE_VERSION := version.resourceVersion])
  }
}
