/** The reader's side: a mirror rebuilt from the changes it was sent. */
module Replay {
  import opened Ordering
  import opened Snapshots
  import opened Diffs

  datatype Entry = Missing | Present(state: ObjectState)

  function Look(mirror: Snapshot, key: ObjectKey): Entry {
    if key in mirror then Present(mirror[key]) else Missing
  }

  function Patch(fields: map<string, string>, lines: seq<FieldChange>): map<string, string> {
    if lines == [] then fields
    else Patch(fields, lines[..|lines| - 1])[lines[|lines| - 1].field := lines[|lines| - 1].after]
  }

  // What one change does to the reader's entry for its object.
  function Effect(entry: Entry, change: Change): Entry {
    match change.kind
    case Created => Present(ObjectState(change.revision, Patch(map[], change.fields)))
    case Modified =>
      Present(ObjectState(change.revision, Patch(if entry.Present? then entry.state.fields else map[], change.fields)))
    case Deleted => Missing
  }

  function Apply(mirror: Snapshot, change: Change): (r: Snapshot)
    ensures forall key :: Look(r, key) == if key == change.key then Effect(Look(mirror, key), change)
                                          else Look(mirror, key)
  {
    match Effect(Look(mirror, change.key), change)
    case Missing => mirror - {change.key}
    case Present(state) => mirror[change.key := state]
  }

  function ReplayAll(mirror: Snapshot, changes: seq<Change>): Snapshot {
    if changes == [] then mirror else Apply(ReplayAll(mirror, changes[..|changes| - 1]), changes[|changes| - 1])
  }

  lemma {:induction false} ReplayConcat(mirror: Snapshot, a: seq<Change>, b: seq<Change>)
    ensures ReplayAll(mirror, a + b) == ReplayAll(ReplayAll(mirror, a), b)
    decreases |b|
  {
    if b == [] {
      assert a + b == a;
    } else {
      var n := |b| - 1;
      assert (a + b)[..|a + b| - 1] == a + b[..n];
      ReplayConcat(mirror, a, b[..n]);
    }
  }

  lemma {:induction false} ReplayLeavesAlone(mirror: Snapshot, changes: seq<Change>, key: ObjectKey)
    requires forall i :: 0 <= i < |changes| ==> changes[i].key != key
    ensures Look(ReplayAll(mirror, changes), key) == Look(mirror, key)
  {
    if changes != [] { ReplayLeavesAlone(mirror, changes[..|changes| - 1], key); }
  }

  lemma {:induction false} ReplayHits(mirror: Snapshot, changes: seq<Change>, i: nat)
    requires i < |changes| && forall j, k :: 0 <= j < k < |changes| ==> changes[j].key != changes[k].key
    ensures Look(ReplayAll(mirror, changes), changes[i].key) == Effect(Look(mirror, changes[i].key), changes[i])
    decreases |changes|
  {
    var n := |changes| - 1;
    if i == n {
      ReplayLeavesAlone(mirror, changes[..n], changes[i].key);
    } else {
      ReplayHits(mirror, changes[..n], i);
    }
  }

  // After replaying a diff, the reader's entry for an object is the effect of the one
  // change reported for it, or what it was before.
  lemma ReplayOfDiff(mirror: Snapshot, changes: seq<Change>, previous: Snapshot, current: Snapshot, key: ObjectKey)
    requires Tells(changes, previous, current)
    ensures var after := Look(ReplayAll(mirror, changes), key);
            if Differs(previous, current, key)
            then |ReportFor(previous, current, key)| == 1
                && after == Effect(Look(mirror, key), ReportFor(previous, current, key)[0])
            else after == Look(mirror, key)
  {
    if Differs(previous, current, key) {
      var i :| 0 <= i < |changes| && changes[i].key == key;
      ReplayHits(mirror, changes, i);
    } else {
      ReplayLeavesAlone(mirror, changes, key);
    }
  }

  // ---------------------------------------------------------------- revisions

  // The mirror knows the same objects at the same revisions.
  ghost predicate SameRevisions(mirror: Snapshot, snapshot: Snapshot) {
    forall key :: (key in mirror <==> key in snapshot)
        && (key in mirror ==> mirror[key].revision == snapshot[key].revision)
  }

  /** Replaying a diff takes a mirror of the one snapshot to a mirror of the other. */
  lemma DiffCarriesRevisions(mirror: Snapshot, changes: seq<Change>, previous: Snapshot, current: Snapshot)
    requires SameRevisions(mirror, previous) && Tells(changes, previous, current)
    ensures SameRevisions(ReplayAll(mirror, changes), current)
  {
    var after := ReplayAll(mirror, changes);
    forall key
      ensures (key in after <==> key in current) && (key in after ==> after[key].revision == current[key].revision)
    {
      ReplayOfDiff(mirror, changes, previous, current, key);
    }
  }

  // ---------------------------------------------------------------- fields

  lemma {:induction false} PatchLeavesAlone(fields: map<string, string>, lines: seq<FieldChange>, name: string)
    requires forall line :: line in lines ==> line.field != name
    ensures Get(Patch(fields, lines), name) == Get(fields, name)
  {
    if lines != [] { PatchLeavesAlone(fields, lines[..|lines| - 1], name); }
  }

  // All lines about a name agree on what it became.
  lemma {:induction false} PatchHits(fields: map<string, string>, lines: seq<FieldChange>, name: string, value: string)
    requires exists line :: line in lines && line.field == name
    requires forall line :: line in lines && line.field == name ==> line.after == value
    ensures Get(Patch(fields, lines), name) == value
  {
    var n := |lines| - 1;
    if lines[n].field == name {
      assert lines[n] in lines;
    } else {
      var line :| line in lines && line.field == name;
      assert line in lines[..n];
      PatchHits(fields, lines[..n], name, value);
    }
  }

  ghost predicate Short(fields: map<string, string>) {
    forall name :: name in fields ==> |fields[name]| <= MAX_FIELD_VALUE_BYTES
  }

  // Equal in every field except the template hash, absent reading as empty.
  ghost predicate SameFields(a: map<string, string>, b: map<string, string>) {
    forall name :: name != TEMPLATE ==> Get(a, name) == Get(b, name)
  }

  lemma {:induction false} ValueLinesAre(fields: map<string, string>, names: seq<string>)
    ensures forall line :: line in Collect(ValueLines(fields), names) <==>
                line.field in names && line == ValueLine(fields, line.field)
  {
    if names != [] {
      var n := |names| - 1;
      ValueLinesAre(fields, names[..n]);
      assert names == names[..n] + [names[n]];
    }
  }

  lemma CreationCarriesFields(fields: map<string, string>)
    requires Short(fields)
    ensures SameFields(Patch(map[], FieldValuesOf(fields)), fields)
  {
    var lines := FieldValuesOf(fields);
    ValueLinesAre(fields, SortedStrings(fields.Keys));
    forall name ensures Get(Patch(map[], lines), name) == Get(fields, name) {
      if name in fields {
        assert ValueLine(fields, name) in lines;
        PatchHits(map[], lines, name, fields[name]);
      } else {
        PatchLeavesAlone(map[], lines, name);
      }
    }
  }

  lemma ModificationCarriesFields(known: map<string, string>, before: map<string, string>, after: map<string, string>)
    requires SameFields(known, before) && Short(after)
    ensures SameFields(Patch(known, FieldDifferencesOf(before, after)), after)
  {
    var lines := FieldDifferencesOf(before, after);
    DifferencesAreExact(before, after);
    forall name | name != TEMPLATE ensures Get(Patch(known, lines), name) == Get(after, name) {
      if Moved(before, after, name) {
        assert FieldChange(name, Clip(Get(before, name)), Clip(Get(after, name))) in lines;
        PatchHits(known, lines, name, Get(after, name));
      } else {
        PatchLeavesAlone(known, lines, name);
      }
    }
  }

  ghost predicate SameContents(mirror: Snapshot, snapshot: Snapshot) {
    forall key :: (key in mirror <==> key in snapshot)
        && (key in mirror ==> SameFields(mirror[key].fields, snapshot[key].fields))
  }

  // Equal revisions mean equal fields: no digest collision between the two observations.
  ghost predicate Faithful(previous: Snapshot, current: Snapshot) {
    forall key :: key in previous && key in current && previous[key].revision == current[key].revision ==>
      previous[key].fields == current[key].fields
  }

  ghost predicate AllShort(snapshot: Snapshot) {
    forall key :: key in snapshot ==> Short(snapshot[key].fields)
  }

  lemma EntryCarriesFields(mirror: Snapshot, changes: seq<Change>, previous: Snapshot, current: Snapshot,
                           key: ObjectKey)
    requires SameContents(mirror, previous) && Faithful(previous, current) && AllShort(current)
             && Tells(changes, previous, current)
    ensures var after := ReplayAll(mirror, changes);
            (key in after <==> key in current) && (key in after ==> SameFields(after[key].fields, current[key].fields))
  {
    ReplayOfDiff(mirror, changes, previous, current, key);
    if key in current {
      if key !in previous {
        CreationCarriesFields(current[key].fields);
      } else if Differs(previous, current, key) {
        ModificationCarriesFields(mirror[key].fields, previous[key].fields, current[key].fields);
      }
    }
  }

  /** A diff rebuilds every watched field, not only the revisions. */
  lemma DiffCarriesFields(mirror: Snapshot, changes: seq<Change>, previous: Snapshot, current: Snapshot)
    requires SameContents(mirror, previous) && Faithful(previous, current) && AllShort(current)
             && Tells(changes, previous, current)
    ensures SameContents(ReplayAll(mirror, changes), current)
  {
    forall key { EntryCarriesFields(mirror, changes, previous, current, key); }
  }

  // ---------------------------------------------------------------- a chain of observations

  // The changes sent from a baseline on: the baseline of the first snapshot, then the diff
  // to each following one.
  ghost function Chain(diff: (Snapshot, Snapshot) -> seq<Change>, snapshots: seq<Snapshot>): seq<Change> {
    if snapshots == [] then []
    else if |snapshots| == 1 then diff(map[], snapshots[0])
    else Chain(diff, snapshots[..|snapshots| - 1]) + diff(snapshots[|snapshots| - 2], snapshots[|snapshots| - 1])
  }

  ghost predicate Telling(diff: (Snapshot, Snapshot) -> seq<Change>) {
    forall a, b :: Tells(diff(a, b), a, b)
  }

  lemma NextCarriesFields(sent: seq<Change>, changes: seq<Change>, previous: Snapshot, current: Snapshot)
    requires SameContents(ReplayAll(map[], sent), previous) && Tells(changes, previous, current)
    requires Faithful(previous, current) && AllShort(current)
    ensures SameContents(ReplayAll(map[], sent + changes), current)
  {
    ReplayConcat(map[], sent, changes);
    DiffCarriesFields(ReplayAll(map[], sent), changes, previous, current);
  }

  // What a baseline establishes and every allowed diff keeps, a chain has.
  lemma {:induction false} ChainKeeps(diff: (Snapshot, Snapshot) -> seq<Change>, ok: (Snapshot, Snapshot) -> bool,
                                      good: (seq<Change>, Snapshot) -> bool, snapshots: seq<Snapshot>)
    requires snapshots != [] && good(diff(map[], snapshots[0]), snapshots[0])
    requires forall i :: 0 < i < |snapshots| ==> ok(snapshots[i - 1], snapshots[i])
    requires forall sent, a, b :: ok(a, b) && good(sent, a) ==> good(sent + diff(a, b), b)
    ensures good(Chain(diff, snapshots), snapshots[|snapshots| - 1])
    decreases |snapshots|
  {
    var n := |snapshots| - 1;
    if n > 0 {
      ChainKeeps(diff, ok, good, snapshots[..n]);
      assert good(Chain(diff, snapshots[..n]), snapshots[n - 1]) && ok(snapshots[n - 1], snapshots[n]);
    }
  }

  lemma ChainCarriesFields(diff: (Snapshot, Snapshot) -> seq<Change>, snapshots: seq<Snapshot>)
    requires snapshots != [] && Telling(diff)
    requires forall i :: 0 <= i < |snapshots| ==> AllShort(snapshots[i])
    requires forall i :: 0 < i < |snapshots| ==> Faithful(snapshots[i - 1], snapshots[i])
    ensures SameContents(ReplayAll(map[], Chain(diff, snapshots)), snapshots[|snapshots| - 1])
  {
    var ok := (a: Snapshot, b: Snapshot) => Faithful(a, b) && AllShort(b);
    var good := (sent: seq<Change>, s: Snapshot) => SameContents(ReplayAll(map[], sent), s);
    DiffCarriesFields(map[], diff(map[], snapshots[0]), map[], snapshots[0]);
    forall sent, a, b | ok(a, b) && good(sent, a) ensures good(sent + diff(a, b), b) {
      NextCarriesFields(sent, diff(a, b), a, b);
    }
    ChainKeeps(diff, ok, good, snapshots);
  }

  lemma DiffOfIsTelling()
    ensures Telling(DiffOf)
  {
    forall a: Snapshot, b: Snapshot { DiffIsExact(a, b); }
  }
}
