/** What moved between two snapshots, and how much of it is put on the wire. */
module Diffs {
  import opened Ordering
  import opened Snapshots

  datatype ChangeKind = Created | Modified | Deleted
  datatype FieldChange = FieldChange(field: string, before: string, after: string)
  datatype Change = Change(key: ObjectKey, revision: string, kind: ChangeKind, fields: seq<FieldChange>)

  // ---------------------------------------------------------------- field values

  const MAX_FIELD_VALUE_BYTES := 512
  const CLIP_MARKER := "...clipped"

  function Clip(value: string): (r: string)
    ensures |r| <= MAX_FIELD_VALUE_BYTES
    ensures r == value <==> |value| <= MAX_FIELD_VALUE_BYTES
    ensures |value| > 512 ==> r == value[..502] + "...clipped"
  {
    if |value| <= MAX_FIELD_VALUE_BYTES then value
    else value[..MAX_FIELD_VALUE_BYTES - |CLIP_MARKER|] + CLIP_MARKER
  }

  function ValueLine(fields: map<string, string>, name: string): FieldChange {
    FieldChange(name, "", Clip(Get(fields, name)))
  }

  function ValueLines(fields: map<string, string>): string -> seq<FieldChange> {
    name => [ValueLine(fields, name)]
  }

  // A state's fields as changes from nothing.
  ghost function FieldValuesOf(fields: map<string, string>): seq<FieldChange> {
    Collect(ValueLines(fields), SortedStrings(fields.Keys))
  }

  method FieldValues(fields: map<string, string>) returns (rendered: seq<FieldChange>)
    ensures rendered == FieldValuesOf(fields)
  {
    var names := SortNames(fields.Keys);
    rendered := RenderEach(fields, names, ValueLines(fields));
  }

  method RenderEach(fields: map<string, string>, names: seq<string>, ghost lines: string -> seq<FieldChange>)
    returns (rendered: seq<FieldChange>)
    requires forall name :: name in names ==> name in fields && lines(name) == [ValueLine(fields, name)]
    ensures rendered == Collect(lines, names)
  {
    rendered := [];
    var i := 0;
    while i < |names|
      invariant i <= |names| && rendered == Collect(lines, names[..i])
    {
      CollectStep(lines, names, i);
      rendered := rendered + [FieldChange(names[i], "", Clip(fields[names[i]]))];
      i := i + 1;
    }
    assert names[..i] == names;
  }

  lemma ValueLinesHold(fields: map<string, string>, names: seq<string>)
    requires forall name :: name in names ==> name in fields
    ensures var lines := Collect(ValueLines(fields), names);
            && |lines| == |names|
            && forall i :: 0 <= i < |names| ==> lines[i] == FieldChange(names[i], "", Clip(fields[names[i]]))
  {
    CollectOfOnes(ValueLines(fields), names);
  }

  /** A first sight lists every field once, in name order, from nothing to its value, cut to what
      a message may carry. */
  lemma FirstSightIsExact(fields: map<string, string>)
    ensures var lines := FieldValuesOf(fields);
            && |lines| == |fields|
            && (forall i, j :: 0 <= i < j < |lines| ==> StringLess(lines[i].field, lines[j].field))
            && (forall name :: name in fields ==> FieldChange(name, "", Clip(fields[name])) in lines)
            && forall line :: line in lines ==>
                 line.field in fields && line.before == "" && line.after == Clip(fields[line.field])
  {
    SortedStringsAscend(fields.Keys);
    ValueLinesHold(fields, SortedStrings(fields.Keys));
    LinesAreFields(fields, SortedStrings(fields.Keys), FieldValuesOf(fields));
  }

  lemma LinesAreFields(fields: map<string, string>, names: seq<string>, lines: seq<FieldChange>)
    requires |lines| == |names| && forall name :: name in names <==> name in fields
    requires forall i :: 0 <= i < |names| ==> lines[i] == FieldChange(names[i], "", Clip(fields[names[i]]))
    ensures forall name :: name in fields ==> FieldChange(name, "", Clip(fields[name])) in lines
    ensures forall line :: line in lines ==>
              line.field in fields && line.before == "" && line.after == Clip(fields[line.field])
  {
    forall name | name in fields ensures FieldChange(name, "", Clip(fields[name])) in lines {
      var i :| 0 <= i < |names| && names[i] == name;
      assert lines[i] in lines;
    }
    forall line | line in lines
      ensures line.field in fields && line.before == "" && line.after == Clip(fields[line.field])
    {
      var i :| 0 <= i < |lines| && lines[i] == line;
      assert names[i] in names;
    }
  }

  // ---------------------------------------------------------------- field differences

  predicate IsTemplateField(name: string) {
    |name| > |TEMPLATE_PREFIX| && name[..|TEMPLATE_PREFIX|] == TEMPLATE_PREFIX
  }

  predicate Moved(before: map<string, string>, after: map<string, string>, name: string) {
    Get(before, name) != Get(after, name)
  }

  predicate Itemized(before: map<string, string>, after: map<string, string>, name: string) {
    Moved(before, after, name) && name != TEMPLATE
  }

  function DifferenceLine(before: map<string, string>, after: map<string, string>, name: string): FieldChange {
    FieldChange(name, Clip(Get(before, name)), Clip(Get(after, name)))
  }

  function DifferenceLines(before: map<string, string>, after: map<string, string>): string -> seq<FieldChange> {
    name => if Itemized(before, after, name) then [DifferenceLine(before, after, name)] else []
  }

  predicate TemplateFieldMoved(names: seq<string>, before: map<string, string>, after: map<string, string>) {
    names != [] &&
    (TemplateFieldMoved(names[..|names| - 1], before, after)
     || (IsTemplateField(names[|names| - 1]) && Moved(before, after, names[|names| - 1])))
  }

  function TemplateHashLine(names: seq<string>, before: map<string, string>,
                            after: map<string, string>): seq<FieldChange>
  {
    if Moved(before, after, TEMPLATE) && !TemplateFieldMoved(names, before, after)
    then [FieldChange(TEMPLATE, Get(before, TEMPLATE), Get(after, TEMPLATE))] else []
  }

  function Itemization(names: seq<string>, before: map<string, string>, after: map<string, string>): seq<FieldChange> {
    Collect(DifferenceLines(before, after), names) + TemplateHashLine(names, before, after)
  }

  ghost function FieldDifferencesOf(before: map<string, string>, after: map<string, string>): seq<FieldChange> {
    Itemization(SortedStrings(before.Keys + after.Keys), before, after)
  }

  method FieldDifferences(before: map<string, string>, after: map<string, string>) returns (changes: seq<FieldChange>)
    ensures changes == FieldDifferencesOf(before, after)
  {
    var names := SortNames(before.Keys + after.Keys);
    changes := Itemize(names, before, after);
  }

  method Itemize(names: seq<string>, before: map<string, string>, after: map<string, string>)
    returns (changes: seq<FieldChange>)
    ensures changes == Itemization(names, before, after)
  {
    var templateItemized;
    changes, templateItemized := ItemizeEach(names, before, after, DifferenceLines(before, after));
    if Get(before, TEMPLATE) != Get(after, TEMPLATE) && !templateItemized {
      changes := changes + [FieldChange(TEMPLATE, Get(before, TEMPLATE), Get(after, TEMPLATE))];
    }
  }

  lemma NextTemplateField(names: seq<string>, before: map<string, string>, after: map<string, string>, i: nat)
    requires i < |names|
    ensures TemplateFieldMoved(names[..i + 1], before, after) <==>
            TemplateFieldMoved(names[..i], before, after)
                || (IsTemplateField(names[i]) && Itemized(before, after, names[i]))
  {
    assert names[..i + 1][..i] == names[..i];
    assert !IsTemplateField(TEMPLATE);
  }

  method ItemizeEach(names: seq<string>, before: map<string, string>, after: map<string, string>,
                     ghost lines: string -> seq<FieldChange>)
    returns (changes: seq<FieldChange>, templateItemized: bool)
    requires forall name :: lines(name) == if Itemized(before, after, name) then [DifferenceLine(before, after, name)]
                                           else []
    ensures changes == Collect(lines, names) && templateItemized == TemplateFieldMoved(names, before, after)
  {
    changes, templateItemized := [], false;
    var i := 0;
    while i < |names|
      invariant i <= |names| && changes == Collect(lines, names[..i])
      invariant templateItemized == TemplateFieldMoved(names[..i], before, after)
    {
      var name := names[i];
      CollectStep(lines, names, i);
      NextTemplateField(names, before, after, i);
      i := i + 1;
      if Get(before, name) == Get(after, name) {
        continue;
      }
      if name == TEMPLATE {
        continue;
      }
      if IsTemplateField(name) {
        templateItemized := true;
      }
      changes := changes + [DifferenceLine(before, after, name)];
    }
    assert names[..i] == names;
  }

  lemma {:induction false} TemplateFieldMovedMeans(names: seq<string>, before: map<string, string>,
                                                   after: map<string, string>)
    ensures TemplateFieldMoved(names, before, after) <==>
            exists name :: name in names && IsTemplateField(name) && Moved(before, after, name)
  {
    if names != [] {
      var n := |names| - 1;
      TemplateFieldMovedMeans(names[..n], before, after);
      assert names == names[..n] + [names[n]];
    }
  }

  // Each line after those of the fields before it, and the template hash after them all.
  ghost predicate InOrder(less: (string, string) -> bool, lines: seq<FieldChange>) {
    forall i, j :: 0 <= i < j < |lines| ==>
      lines[i].field != TEMPLATE && (lines[j].field == TEMPLATE || less(lines[i].field, lines[j].field))
  }

  // The facts about an itemization, for any ascending list that names every moved field.
  lemma DifferenceListIsExact(less: (string, string) -> bool, names: seq<string>, before: map<string, string>,
                              after: map<string, string>)
    requires Ascending(less, names) && forall name :: Moved(before, after, name) ==> name in names
    ensures var lines := Collect(DifferenceLines(before, after), names);
            && (forall name :: Itemized(before, after, name) ==> DifferenceLine(before, after, name) in lines)
            && (forall line :: line in lines ==>
                Itemized(before, after, line.field) && line == DifferenceLine(before, after, line.field))
            && forall i, j :: 0 <= i < j < |lines| ==> less(lines[i].field, lines[j].field)
  {
    var make := DifferenceLines(before, after);
    CollectIsExact(make, (line: FieldChange) => line.field, less, names);
    var lines := Collect(make, names);
    forall name | Itemized(before, after, name) ensures DifferenceLine(before, after, name) in lines {
      assert make(name) == [DifferenceLine(before, after, name)];
    }
    forall line | line in lines
      ensures Itemized(before, after, line.field) && line == DifferenceLine(before, after, line.field)
    {
      var i :| 0 <= i < |lines| && lines[i] == line;
      assert make(line.field) == [line];
    }
  }

  lemma ItemizationIsExact(less: (string, string) -> bool, names: seq<string>, before: map<string, string>,
                           after: map<string, string>)
    requires Ascending(less, names) && forall name :: Moved(before, after, name) ==> name in names
    ensures var lines := Itemization(names, before, after);
            && (forall name :: name != TEMPLATE && Moved(before, after, name) ==>
                DifferenceLine(before, after, name) in lines)
            && (forall line :: line in lines && line.field != TEMPLATE ==>
                  Moved(before, after, line.field) && line == DifferenceLine(before, after, line.field))
            && InOrder(less, lines)
  {
    DifferenceListIsExact(less, names, before, after);
    NoHashAmongLines(names, before, after);
    var lines, hash := Collect(DifferenceLines(before, after), names), TemplateHashLine(names, before, after);
    assert forall i :: 0 <= i < |lines| ==> lines[i] in lines && (lines + hash)[i] == lines[i];
  }

  lemma HashLineIsExact(names: seq<string>, before: map<string, string>, after: map<string, string>)
    requires forall name :: Moved(before, after, name) ==> name in names
    ensures TemplateHashLine(names, before, after) != [] <==>
              Moved(before, after, TEMPLATE) && forall name :: IsTemplateField(name) ==> !Moved(before, after, name)
  {
    TemplateFieldMovedMeans(names, before, after);
  }

  lemma MovedIsNamed(before: map<string, string>, after: map<string, string>)
    ensures forall name :: Moved(before, after, name) ==> name in SortedStrings(before.Keys + after.Keys)
  {
  }

  /** The itemization of a change: exactly one line for every field that moved except the template
      hash, from its old value to its new one, each cut to what a message may carry; in name order,
      and the hash after them if it has a line at all, with both its values whole.  An absent field
      reads as empty. */
  lemma DifferencesAreExact(before: map<string, string>, after: map<string, string>)
    ensures var lines := FieldDifferencesOf(before, after);
            && (forall name :: name != "spec.template" && Get(before, name) != Get(after, name) ==>
                  FieldChange(name, Clip(Get(before, name)), Clip(Get(after, name))) in lines)
            && (forall line :: line in lines && line.field != "spec.template" ==>
                  && Get(before, line.field) != Get(after, line.field)
                  && line.before == Clip(Get(before, line.field)) && line.after == Clip(Get(after, line.field)))
            && (forall line :: line in lines && line.field == "spec.template" ==>
                  line.before == Get(before, "spec.template") && line.after == Get(after, "spec.template"))
            && InOrder(StringLess, lines)
            && forall i, j :: 0 <= i < j < |lines| ==> lines[i].field != lines[j].field
  {
    MovedIsNamed(before, after);
    SortedStringsAscend(before.Keys + after.Keys);
    var names := SortedStrings(before.Keys + after.Keys);
    ItemizationIsExact(StringLess, names, before, after);
    NoHashAmongLines(names, before, after);
    StringLessIsTotal();
    forall name | name != "spec.template" && Get(before, name) != Get(after, name)
      ensures FieldChange(name, Clip(Get(before, name)), Clip(Get(after, name))) in FieldDifferencesOf(before, after)
    {
      assert DifferenceLine(before, after, name) in FieldDifferencesOf(before, after);
    }
  }

  lemma ItemizedIsExact(before: map<string, string>, after: map<string, string>)
    ensures var lines := FieldDifferencesOf(before, after);
            && (forall name :: Itemized(before, after, name) ==> DifferenceLine(before, after, name) in lines)
            && (forall line :: line in lines && line.field != TEMPLATE ==> Moved(before, after, line.field))
  {
    MovedIsNamed(before, after);
    SortedStringsAscend(before.Keys + after.Keys);
    ItemizationIsExact(StringLess, SortedStrings(before.Keys + after.Keys), before, after);
  }

  // Every field a line names put back to what it was.
  function Undone(fields: map<string, string>, lines: seq<FieldChange>): map<string, string> {
    if lines == [] then fields
    else Undone(fields, lines[..|lines| - 1])[lines[|lines| - 1].field := lines[|lines| - 1].before]
  }

  lemma {:induction false} UndoneLeavesAlone(fields: map<string, string>, lines: seq<FieldChange>, name: string)
    requires forall line :: line in lines ==> line.field != name
    ensures Get(Undone(fields, lines), name) == Get(fields, name)
  {
    if lines != [] { UndoneLeavesAlone(fields, lines[..|lines| - 1], name); }
  }

  lemma {:induction false} UndoneHits(fields: map<string, string>, lines: seq<FieldChange>, name: string, value: string)
    requires exists line :: line in lines && line.field == name
    requires forall line :: line in lines && line.field == name ==> line.before == value
    ensures Get(Undone(fields, lines), name) == value
  {
    var n := |lines| - 1;
    if lines[n].field == name {
      assert lines[n] in lines;
    } else {
      var line :| line in lines && line.field == name;
      assert line in lines[..n];
      UndoneHits(fields, lines[..n], name, value);
    }
  }

  /** The itemization can be undone: putting every field it names back to its old value turns the
      newer fields into the older ones, where those are short enough not to be cut. */
  lemma DifferencesUndo(before: map<string, string>, after: map<string, string>, name: string)
    requires name != "spec.template" && |Get(before, name)| <= 512
    ensures Get(Undone(after, FieldDifferencesOf(before, after)), name) == Get(before, name)
  {
    var lines := FieldDifferencesOf(before, after);
    DifferencesAreExact(before, after);
    if Get(before, name) != Get(after, name) {
      assert FieldChange(name, Clip(Get(before, name)), Clip(Get(after, name))) in lines;
      UndoneHits(after, lines, name, Get(before, name));
    } else {
      UndoneLeavesAlone(after, lines, name);
    }
  }

  lemma TemplateFieldMeans(name: string)
    ensures IsTemplateField(name) <==> "spec.template." <= name && |name| > 14
  {
    assert |TEMPLATE_PREFIX| == 14;
  }

  /** The template hash has a line exactly when it moved and no field inside the template did. */
  lemma TemplateHashIsReportedAlone(before: map<string, string>, after: map<string, string>)
    ensures (exists line :: line in FieldDifferencesOf(before, after) && line.field == "spec.template") <==>
              && Get(before, "spec.template") != Get(after, "spec.template")
              && forall name :: "spec.template." <= name && |name| > 14 ==> Get(before, name) == Get(after, name)
  {
    HashHasALine(before, after);
    forall name ensures IsTemplateField(name) <==> "spec.template." <= name && |name| > 14 {
      TemplateFieldMeans(name);
    }
  }

  lemma HashHasALine(before: map<string, string>, after: map<string, string>)
    ensures (exists line :: line in FieldDifferencesOf(before, after) && line.field == TEMPLATE) <==>
              Moved(before, after, TEMPLATE) && forall name :: IsTemplateField(name) ==> !Moved(before, after, name)
  {
    MovedIsNamed(before, after);
    var names := SortedStrings(before.Keys + after.Keys);
    HashLineIsExact(names, before, after);
    NoHashAmongLines(names, before, after);
    var lines, hash := Collect(DifferenceLines(before, after), names), TemplateHashLine(names, before, after);
    assert forall line :: line in lines + hash <==> line in lines || line in hash;
    if hash != [] { assert hash[0] in hash; }
  }

  lemma {:induction false} NoHashAmongLines(names: seq<string>, before: map<string, string>, after: map<string, string>)
    ensures forall line :: line in Collect(DifferenceLines(before, after), names) ==> line.field != TEMPLATE
  {
    if names != [] { NoHashAmongLines(names[..|names| - 1], before, after); }
  }

  /** A modification is never reported with nothing under it, and nothing is reported for
      states that read the same. */
  lemma DifferencesAreEmptyIffSame(before: map<string, string>, after: map<string, string>)
    ensures FieldDifferencesOf(before, after) == [] <==> forall name :: !Moved(before, after, name)
  {
    ItemizedIsExact(before, after);
    HashHasALine(before, after);
    NoLinesMeansSame(before, after, FieldDifferencesOf(before, after));
  }

  lemma NoLinesMeansSame(before: map<string, string>, after: map<string, string>, lines: seq<FieldChange>)
    requires forall name :: Itemized(before, after, name) ==> DifferenceLine(before, after, name) in lines
    requires forall line :: line in lines && line.field != TEMPLATE ==> Moved(before, after, line.field)
    requires (exists line :: line in lines && line.field == TEMPLATE) <==>
               Moved(before, after, TEMPLATE) && forall name :: IsTemplateField(name) ==> !Moved(before, after, name)
    ensures lines == [] <==> forall name :: !Moved(before, after, name)
  {
    if lines != [] {
      var first := lines[0];
      assert first in lines;
      assert Moved(before, after, first.field);
    } else {
      forall name | name != TEMPLATE ensures !Moved(before, after, name) {
        assert !Itemized(before, after, name);
      }
      assert !IsTemplateField(TEMPLATE);
      assert forall name :: IsTemplateField(name) ==> !Moved(before, after, name);
    }
  }

  // ---------------------------------------------------------------- snapshots

  ghost function UpsertOf(previous: Snapshot, current: Snapshot, key: ObjectKey): seq<Change> {
    if key !in current then []
    else if key !in previous then [Change(key, current[key].revision, Created, FieldValuesOf(current[key].fields))]
    else if previous[key].revision == current[key].revision then []
    else [Change(key, current[key].revision, Modified, FieldDifferencesOf(previous[key].fields, current[key].fields))]
  }

  ghost function DeleteOf(current: Snapshot, key: ObjectKey): seq<Change> {
    if key in current then [] else [Change(key, "", Deleted, [])]
  }

  ghost function Upserts(previous: Snapshot, current: Snapshot): ObjectKey -> seq<Change> {
    key => UpsertOf(previous, current, key)
  }

  ghost function Deletes(current: Snapshot): ObjectKey -> seq<Change> {
    key => DeleteOf(current, key)
  }

  ghost function Listing(currentKeys: seq<ObjectKey>, previousKeys: seq<ObjectKey>, previous: Snapshot,
                         current: Snapshot): seq<Change>
  {
    Collect(Upserts(previous, current), currentKeys) + Collect(Deletes(current), previousKeys)
  }

  ghost function DiffOf(previous: Snapshot, current: Snapshot): seq<Change> {
    Listing(SortedKeys(current), SortedKeys(previous), previous, current)
  }

  method Diff(previous: Snapshot, current: Snapshot) returns (changes: seq<Change>)
    ensures changes == DiffOf(previous, current)
  {
    var keys := ListKeys(current);
    changes := ListUpserts(keys, previous, current);
    keys := ListKeys(previous);
    var deletes := ListDeletes(keys, current);
    changes := changes + deletes;
  }

  method ListUpserts(keys: seq<ObjectKey>, previous: Snapshot, current: Snapshot) returns (changes: seq<Change>)
    requires forall key :: key in keys ==> key in current
    ensures changes == Collect(Upserts(previous, current), keys)
  {
    changes := [];
    var i := 0;
    while i < |keys|
      invariant i <= |keys| && changes == Collect(Upserts(previous, current), keys[..i])
    {
      var key := keys[i];
      CollectStep(Upserts(previous, current), keys, i);
      i := i + 1;
      var state := current[key];
      if key !in previous {
        var fields := FieldValues(state.fields);
        changes := changes + [Change(key, state.revision, Created, fields)];
        continue;
      }
      var before := previous[key];
      if before.revision == state.revision {
        continue;
      }
      var fields := FieldDifferences(before.fields, state.fields);
      changes := changes + [Change(key, state.revision, Modified, fields)];
    }
    assert keys[..i] == keys;
  }

  method ListDeletes(keys: seq<ObjectKey>, current: Snapshot) returns (changes: seq<Change>)
    ensures changes == Collect(Deletes(current), keys)
  {
    changes := [];
    var i := 0;
    while i < |keys|
      invariant i <= |keys| && changes == Collect(Deletes(current), keys[..i])
    {
      CollectStep(Deletes(current), keys, i);
      if keys[i] !in current {
        changes := changes + [Change(keys[i], "", Deleted, [])];
      }
      i := i + 1;
    }
    assert keys[..i] == keys;
  }

  ghost function FirstSights(snapshot: Snapshot): ObjectKey -> seq<Change> {
    key => if key in snapshot then [Change(key, snapshot[key].revision, Created, FieldValuesOf(snapshot[key].fields))]
           else []
  }

  ghost function BaselineOf(snapshot: Snapshot): seq<Change> {
    Collect(FirstSights(snapshot), SortedKeys(snapshot))
  }

  method Baseline(snapshot: Snapshot) returns (changes: seq<Change>)
    ensures changes == BaselineOf(snapshot)
  {
    changes := [];
    var keys := ListKeys(snapshot);
    var i := 0;
    while i < |keys|
      invariant i <= |keys| && changes == Collect(FirstSights(snapshot), keys[..i])
    {
      CollectStep(FirstSights(snapshot), keys, i);
      var state := snapshot[keys[i]];
      var fields := FieldValues(state.fields);
      changes := changes + [Change(keys[i], state.revision, Created, fields)];
      i := i + 1;
    }
    assert keys[..i] == keys;
  }

  /** A baseline is the diff from nothing. */
  lemma BaselineIsDiffFromNothing(snapshot: Snapshot)
    ensures BaselineOf(snapshot) == DiffOf(map[], snapshot)
  {
    assert SortedKeys(map[]) == [];
    CollectAgrees(FirstSights(snapshot), Upserts(map[], snapshot), SortedKeys(snapshot));
  }

  // ---------------------------------------------------------------- what a diff says

  predicate Differs(previous: Snapshot, current: Snapshot, key: ObjectKey) {
    (key in previous) != (key in current)
        || (key in previous && key in current && previous[key].revision != current[key].revision)
  }

  // The one change a diff may carry for an object, if any.
  ghost function ReportFor(previous: Snapshot, current: Snapshot, key: ObjectKey): seq<Change> {
    if key in previous && key !in current then DeleteOf(current, key) else UpsertOf(previous, current, key)
  }

  // Creations and modifications first, deletions last, each group ascending by key.
  predicate Before(less: (ObjectKey, ObjectKey) -> bool, a: Change, b: Change) {
    (a.kind.Deleted? ==> b.kind.Deleted?) && (a.kind.Deleted? == b.kind.Deleted? ==> less(a.key, b.key))
  }

  lemma ListingItems(less: (ObjectKey, ObjectKey) -> bool, cs: seq<ObjectKey>, ps: seq<ObjectKey>, previous: Snapshot,
                     current: Snapshot)
    requires Ascending(less, cs) && Ascending(less, ps)
    ensures var up, down, changes := Upserts(previous, current), Deletes(current), Listing(cs, ps, previous, current);
            && |changes| <= |cs| + |ps|
            && (forall i :: 0 <= i < |changes| ==>
                  if changes[i].kind.Deleted? then changes[i].key in ps && down(changes[i].key) == [changes[i]]
                  else changes[i].key in cs && up(changes[i].key) == [changes[i]])
            && (forall key :: key in cs && up(key) != [] ==> up(key)[0] in changes)
            && (forall key :: key in ps && down(key) != [] ==> down(key)[0] in changes)
            && (forall i, j :: 0 <= i < j < |changes| ==> Before(less, changes[i], changes[j]))
  {
    CollectTwo(Upserts(previous, current), Deletes(current), (c: Change) => c.key, (c: Change) => c.kind.Deleted?,
               less, cs, ps);
  }

  /** A list of changes tells two snapshots apart: it reports exactly the objects that
      differ, each with its own report and once. */
  ghost predicate Tells(changes: seq<Change>, previous: Snapshot, current: Snapshot) {
    && (forall i :: 0 <= i < |changes| ==>
          Differs(previous, current, changes[i].key) && ReportFor(previous, current, changes[i].key) == [changes[i]])
    && (forall key :: Differs(previous, current, key) ==> exists i :: 0 <= i < |changes| && changes[i].key == key)
    && (forall i, j :: 0 <= i < j < |changes| ==> changes[i].key != changes[j].key)
  }

  lemma ListingReports(less: (ObjectKey, ObjectKey) -> bool, cs: seq<ObjectKey>, ps: seq<ObjectKey>,
                       previous: Snapshot, current: Snapshot, i: nat)
    requires Ascending(less, cs) && Ascending(less, ps) && i < |Listing(cs, ps, previous, current)|
    requires forall key :: (key in cs <==> key in current) && (key in ps <==> key in previous)
    ensures var change := Listing(cs, ps, previous, current)[i];
            Differs(previous, current, change.key) && ReportFor(previous, current, change.key) == [change]
  {
    ListingItems(less, cs, ps, previous, current);
  }

  lemma ListingIsSound(less: (ObjectKey, ObjectKey) -> bool, cs: seq<ObjectKey>, ps: seq<ObjectKey>,
                       previous: Snapshot, current: Snapshot)
    requires Ascending(less, cs) && Ascending(less, ps) && forall key :: !less(key, key)
    requires forall key :: (key in cs <==> key in current) && (key in ps <==> key in previous)
    ensures var changes := Listing(cs, ps, previous, current);
            && (forall i :: 0 <= i < |changes| ==>
                  Differs(previous, current, changes[i].key)
                      && ReportFor(previous, current, changes[i].key) == [changes[i]])
            && (forall i, j :: 0 <= i < j < |changes| ==> changes[i].key != changes[j].key)
  {
    var changes := Listing(cs, ps, previous, current);
    forall i | 0 <= i < |changes|
      ensures Differs(previous, current, changes[i].key) && ReportFor(previous, current, changes[i].key) == [changes[i]]
    {
      ListingReports(less, cs, ps, previous, current, i);
    }
    forall i, j | 0 <= i < j < |changes| ensures changes[i].key != changes[j].key {
      ListingItems(less, cs, ps, previous, current);
      assert Before(less, changes[i], changes[j]);
    }
  }

  lemma ListingIsComplete(less: (ObjectKey, ObjectKey) -> bool, cs: seq<ObjectKey>, ps: seq<ObjectKey>,
                          previous: Snapshot, current: Snapshot, key: ObjectKey)
    requires Ascending(less, cs) && Ascending(less, ps) && Differs(previous, current, key)
    requires (key in cs <==> key in current) && (key in ps <==> key in previous)
    ensures var changes := Listing(cs, ps, previous, current); exists i :: 0 <= i < |changes| && changes[i].key == key
  {
    ListingItems(less, cs, ps, previous, current);
    var changes := Listing(cs, ps, previous, current);
    if key in current {
      assert Upserts(previous, current)(key)[0] in changes;
    } else {
      assert Deletes(current)(key)[0] in changes;
    }
  }

  lemma ListingTells(less: (ObjectKey, ObjectKey) -> bool, cs: seq<ObjectKey>, ps: seq<ObjectKey>, previous: Snapshot,
                     current: Snapshot)
    requires Ascending(less, cs) && Ascending(less, ps) && forall key :: !less(key, key)
    requires forall key :: (key in cs <==> key in current) && (key in ps <==> key in previous)
    ensures Tells(Listing(cs, ps, previous, current), previous, current)
  {
    ListingIsSound(less, cs, ps, previous, current);
    forall key | Differs(previous, current, key)
      ensures exists i :: && 0 <= i < |Listing(cs, ps, previous, current)|
                          && Listing(cs, ps, previous, current)[i].key == key
    {
      ListingIsComplete(less, cs, ps, previous, current, key);
    }
  }

  lemma DiffIsExact(previous: Snapshot, current: Snapshot)
    ensures Tells(DiffOf(previous, current), previous, current)
  {
    SortedKeysAscend(current);
    SortedKeysAscend(previous);
    KeyLessIsTotal();
    ListingTells(KeyLess, SortedKeys(current), SortedKeys(previous), previous, current);
  }

  /** What each change says.  An object seen for the first time is created, with all its fields;
      one whose revision moved is modified, with what moved; both carry the revision seen now.  An
      object no longer there is deleted, with neither revision nor fields. */
  lemma ChangeSays(previous: Snapshot, current: Snapshot, change: Change)
    requires change in DiffOf(previous, current)
    ensures var key := change.key;
            && (key in previous || key in current)
            && (key !in previous ==>
                  change.kind == Created && change.fields == FieldValuesOf(current[key].fields))
            && (key in previous && key in current ==>
                  && change.kind == Modified && previous[key].revision != current[key].revision
                  && change.fields == FieldDifferencesOf(previous[key].fields, current[key].fields))
            && (key in current ==> change.revision == current[key].revision)
            && (key !in current ==> change.kind == Deleted && change.revision == "" && change.fields == [])
  {
    DiffIsExact(previous, current);
    TellsOf(DiffOf(previous, current), previous, current, change);
  }

  lemma TellsOf(changes: seq<Change>, previous: Snapshot, current: Snapshot, change: Change)
    requires Tells(changes, previous, current) && change in changes
    ensures Differs(previous, current, change.key) && ReportFor(previous, current, change.key) == [change]
  {
    var i :| 0 <= i < |changes| && changes[i] == change;
  }

  /** The order is fixed by the keys, so the same two snapshots always list alike. */
  lemma DiffIsOrdered(previous: Snapshot, current: Snapshot)
    ensures var changes := DiffOf(previous, current);
            && |changes| <= |previous| + |current|
            && forall i, j :: 0 <= i < j < |changes| ==>
                 && (changes[i].kind == Deleted ==> changes[j].kind == Deleted)
                 && ((changes[i].kind == Deleted) == (changes[j].kind == Deleted) ==>
                       KeyLess(changes[i].key, changes[j].key))
  {
    SortedKeysAscend(current);
    SortedKeysAscend(previous);
    ListingItems(KeyLess, SortedKeys(current), SortedKeys(previous), previous, current);
  }

  /** A diff is empty exactly when no object appeared, vanished or changed its revision. */
  lemma NothingMovedNothingSaid(previous: Snapshot, current: Snapshot)
    ensures DiffOf(previous, current) == [] <==> forall key :: !Differs(previous, current, key)
  {
    DiffIsExact(previous, current);
    TellsNothing(DiffOf(previous, current), previous, current);
  }

  lemma TellsNothing(changes: seq<Change>, previous: Snapshot, current: Snapshot)
    requires Tells(changes, previous, current)
    ensures changes == [] <==> forall key :: !Differs(previous, current, key)
  {
    assert changes == [] || Differs(previous, current, changes[0].key);
  }

  lemma BaselineListsEverything(snapshot: Snapshot)
    ensures |BaselineOf(snapshot)| == |snapshot|
  {
    BaselineSize(SortedKeys(snapshot), snapshot);
  }

  lemma {:induction false} BaselineSize(keys: seq<ObjectKey>, snapshot: Snapshot)
    requires forall key :: key in keys ==> key in snapshot
    ensures |Collect(FirstSights(snapshot), keys)| == |keys|
  {
    if keys != [] { BaselineSize(keys[..|keys| - 1], snapshot); }
  }
}
