/** What excluding a field by name does to the results that leave.

    The field a report rides in is swept like any other and then overwritten with the report,
    so a string there never leaves. */
module Exclusions {
  import opened Wrappers
  import opened Masking
  import opened MaskedText
  import opened Trees
  import opened Sweeping
  import opened Redaction
  import opened FieldPaths
  import opened PathTheorems

  predicate Undotted(name: string) {
    name != "" && '.' !in name
  }

  // The root's fields have proper names, and this one holds a message: the report.
  predicate ReportsIn(schema: Schema, root: string, field: string) {
    && root in schema.fields && Undotted(field)
    && forall i :: 0 <= i < |schema.fields[root]| ==>
         && Undotted(schema.fields[root][i].name)
         && (schema.fields[root][i].name == field ==> Descends(schema.fields[root][i]))
  }

  // The path goes through this field of the root.
  predicate Under(field: string, path: string) {
    |path| > |field| && path[..|field|] == field && path[|field|] == '.'
  }

  // The policy, with one name more excluded.
  function Excluding(policy: Policy, path: string): Policy {
    policy.(alwaysMasked := policy.alwaysMasked + {path})
  }

  // ---------------------------------------------------------------- where a leaf's path goes

  lemma {:induction false} LeavesGoThrough(tree: Tree, path: string, n: nat, leaf: Leaf)
    requires path != "" && n <= |tree.entries| && leaf in LeavesTo(tree, path, n)
    ensures Under(path, leaf.path)
    decreases tree, n
  {
    if leaf in LeavesTo(tree, path, n - 1) {
      LeavesGoThrough(tree, path, n - 1, leaf);
    } else {
      EntryGoesThrough(tree.name, tree.entries[n - 1], path, leaf);
    }
  }

  // Every leaf of a field is at its path or below it.
  lemma {:induction false} EntryGoesThrough(message: string, entry: Entry, path: string, leaf: Leaf)
    requires Join(path, entry.field.name) != "" && leaf in EntryLeaves(message, entry, path)
    ensures var here := Join(path, entry.field.name);
            if Descends(entry.field) then Under(here, leaf.path) else leaf.path == here
    ensures path != "" ==> Under(path, leaf.path)
    decreases entry, 0
  {
    var here := Join(path, entry.field.name);
    if entry.field.kind.Text? {
      TextLeavesAt(message, entry.field.name, entry.texts, here);
    } else if Descends(entry.field) {
      var j := ElementOfLeaf(entry.messages, here, leaf);
      LeavesGoThrough(entry.messages[j], here, |entry.messages[j].entries|, leaf);
    }
  }

  lemma NoDotBefore(field: string, path: string, i: nat)
    requires Undotted(field) && Under(field, path) && i < |field|
    ensures path[i] != '.'
  {
    assert path[i] == path[..|field|][i] == field[i] && field[i] in field;
  }

  lemma NotShorter(a: string, b: string, path: string)
    requires Undotted(b) && Under(a, path) && Under(b, path)
    ensures |a| >= |b|
  {
    forall i | 0 <= i < |b| ensures path[i] != '.' { NoDotBefore(b, path, i); }
  }

  lemma OneWayDown(a: string, b: string, path: string)
    requires Undotted(a) && Undotted(b) && Under(a, path) && Under(b, path)
    ensures a == b
  {
    NotShorter(a, b, path);
    NotShorter(b, a, path);
  }

  lemma NoWayDown(field: string, path: string)
    requires Undotted(path)
    ensures !Under(field, path)
  {
    assert |path| > |field| ==> path[|field|] in path;
  }

  // A leaf of a result lies under the report's field exactly when that is the field it is in.
  lemma RootLeaf(message: string, entry: Entry, field: string, leaf: Leaf)
    requires Undotted(entry.field.name) && Undotted(field) && leaf in EntryLeaves(message, entry, "")
    requires entry.field.name == field ==> Descends(entry.field)
    ensures Under(field, leaf.path) <==> entry.field.name == field
  {
    EntryGoesThrough(message, entry, "", leaf);
    if Descends(entry.field) {
      if Under(field, leaf.path) { OneWayDown(entry.field.name, field, leaf.path); }
    } else {
      NoWayDown(field, leaf.path);
    }
  }

  // ---------------------------------------------------------------- what is left without the field

  // The leaves of a result with a field emptied are those that were not under it.
  lemma ClearedLeaves(schema: Schema, root: string, field: string, tree: Tree, leaf: Leaf)
    requires ReportsIn(schema, root, field) && tree.name == root && |tree.entries| == |schema.fields[root]|
    requires forall i :: 0 <= i < |tree.entries| ==> tree.entries[i].field == schema.fields[root][i]
    ensures leaf in Leaves(Cleared(tree, field), "") <==> leaf in Leaves(tree, "") && !Under(field, leaf.path)
  {
    var cleared, n := Cleared(tree, field), |tree.entries|;
    if leaf in Leaves(cleared, "") {
      var i := EntryOfLeaf(cleared, "", n, leaf);
      LeavesOfEntry(tree, "", i, n);
      RootLeaf(root, tree.entries[i], field, leaf);
    }
    if leaf in Leaves(tree, "") && !Under(field, leaf.path) {
      var i := EntryOfLeaf(tree, "", n, leaf);
      RootLeaf(root, tree.entries[i], field, leaf);
      LeavesOfEntry(cleared, "", i, n);
    }
  }

  // Excluding a name changes nothing at a string of another name.
  lemma OtherNames(schema: Schema, policy: Policy, path: string, leaf: Leaf)
    requires AllInBounds(policy.rules) && leaf.path != path
    ensures OutcomeOf(schema, Excluding(policy, path), leaf) == OutcomeOf(schema, policy, leaf)
    ensures TextOf(schema, Excluding(policy, path), leaf) == TextOf(schema, policy, leaf)
  {
  }

  /** Whatever a result held in the report's field, excluding a name under that field changes
      nothing in the rest of it. */
  lemma RestIsTheSame(schema: Schema, root: string, field: string, policy: Policy, path: string, tree: Tree)
    requires AllInBounds(policy.rules) && ReportsIn(schema, root, field) && Under(field, path)
    requires Conforms(schema, tree) && tree.name == root
    ensures Cleared(MapTree(MaskText(schema, Excluding(policy, path)), tree, ""), field)
         == Cleared(MapTree(MaskText(schema, policy), tree, ""), field)
  {
    var a, b := MaskText(schema, Excluding(policy, path)), MaskText(schema, policy);
    forall i | 0 <= i < |tree.entries| && tree.entries[i].field.name != field
      ensures MapEntry(a, root, tree.entries[i], "") == MapEntry(b, root, tree.entries[i], "")
    {
      forall leaf | leaf in EntryLeaves(root, tree.entries[i], "") && leaf.Value? ensures a(leaf) == b(leaf) {
        RootLeaf(root, tree.entries[i], field, leaf);
        OtherNames(schema, policy, path, leaf);
      }
      SameEntry(a, b, root, tree.entries[i], "");
    }
  }

  // ---------------------------------------------------------------- names under the report

  // A result as capabilities hand it in: its report's field is empty.
  predicate Arrives(schema: Schema, root: string, field: string, tree: Tree) {
    Conforms(schema, tree) && tree.name == root && Cleared(tree, field) == tree
  }

  lemma {:induction false} SameOutcomes(a: Leaf -> Outcome, b: Leaf -> Outcome, leaves: seq<Leaf>)
    requires forall leaf :: leaf in leaves ==> a(leaf) == b(leaf)
    ensures Outcomes(a, leaves) == Outcomes(b, leaves)
  {
    if leaves != [] {
      assert leaves[|leaves| - 1] in leaves;
      SameOutcomes(a, b, leaves[..|leaves| - 1]);
    }
  }

  /** Excluding a name under the report's field changes nothing that leaves, fault or report
      or string, of any result that arrives without one. */
  lemma ReportNamesDoNothing(schema: Schema, root: string, field: string, policy: Policy, path: string, tree: Tree)
    requires AllInBounds(policy.rules) && ReportsIn(schema, root, field) && Under(field, path)
    requires Arrives(schema, root, field, tree)
    ensures SentOf(schema, Excluding(policy, path), field, tree) == SentOf(schema, policy, field, tree)
  {
    var a, b, leaves := Out(schema, Excluding(policy, path)), Out(schema, policy), Leaves(tree, "");
    forall leaf | leaf in leaves ensures a(leaf) == b(leaf) {
      ClearedLeaves(schema, root, field, tree, leaf);
      OtherNames(schema, policy, path, leaf);
    }
    SameOutcomes(a, b, leaves);
    RestIsTheSame(schema, root, field, policy, path, tree);
  }

  // ---------------------------------------------------------------- names anywhere else

  lemma {:induction false} RebuiltBegins(value: string, regions: seq<Span>)
    requires InText(regions, |value|) && regions != []
    ensures value[..regions[0].start] + Marker(regions[0].rules[0]) <= RebuiltTo(value, regions)
    decreases |regions|
  {
    var k := |regions| - 1;
    assert InText(regions[..k], |value|);
    var before, gap := RebuiltTo(value, regions[..k]), value[Cursor(regions[..k])..regions[k].start];
    if k == 0 {
      assert before == "" && gap == value[..regions[0].start];
    } else {
      RebuiltBegins(value, regions[..k]);
      BeginsLonger(value[..regions[0].start] + Marker(regions[0].rules[0]), before, gap + Marker(regions[k].rules[0]));
      assert before + gap + Marker(regions[k].rules[0]) == before + (gap + Marker(regions[k].rules[0]));
    }
  }

  lemma BeginsLonger(prefix: string, text: string, more: string)
    requires prefix <= text
    ensures prefix <= text + more
  {
  }

  lemma MarkerNamesOne(id: string, rest: string)
    requires Marker(id) + rest == Marker(MASKED_FIELD_RULE)
    ensures id == MASKED_FIELD_RULE
  {
    var text, n := Marker(id) + rest, |MASKED_FIELD_RULE|;
    assert text[10..10 + |id|] == id && text[10 + |id|] == ']';
    assert text[10..10 + n] == MASKED_FIELD_RULE && |text| == n + 11;
    assert forall k :: 10 <= k < 10 + n ==> text[k] == MASKED_FIELD_RULE[k - 10] && text[k] != ']';
  }

  // No rule goes by the name exclusions are reported under.
  ghost predicate Unclaimed(rules: seq<Rule>) {
    forall rule :: rule in rules ==> rule.id != MASKED_FIELD_RULE
  }

  lemma NotTheMarker(text: string, id: string)
    requires Marker(id) <= text && id != MASKED_FIELD_RULE
    ensures text != Marker(MASKED_FIELD_RULE)
  {
    var rest := text[|Marker(id)|..];
    assert text == Marker(id) + rest;
    if text == Marker(MASKED_FIELD_RULE) { MarkerNamesOne(id, rest); }
  }

  lemma BeginsOtherwise(value: string, text: string, start: nat, id: string)
    requires start <= |value| && value != "" && value[0] != '[' && id != MASKED_FIELD_RULE
    requires value[..start] + Marker(id) <= text
    ensures text != Marker(MASKED_FIELD_RULE)
  {
    if start == 0 {
      assert value[..start] + Marker(id) == Marker(id);
      NotTheMarker(text, id);
    } else {
      assert text[0] == (value[..start] + Marker(id))[0] == value[0];
    }
  }

  // Rules under other names never write what an exclusion writes.
  lemma RulesWriteAnother(rules: seq<Rule>, value: string)
    requires AllInBounds(rules) && Unclaimed(rules) && |value| == 1 && value[0] != '['
    ensures MaskOf(rules, value).text != Marker(MASKED_FIELD_RULE)
  {
    var claims := Claims(rules, value);
    if claims != [] {
      var regions := Merged(claims);
      MergedInText(rules, value);
      ClaimsMerge(rules, value);
      FirstIsNamed(claims);
      ClaimedRuleIds(rules, value, regions[0].rules[0]);
      RebuiltBegins(value, regions);
      BeginsLonger(value[..regions[0].start] + Marker(regions[0].rules[0]), RebuiltTo(value, regions),
                   value[Cursor(regions)..]);
      BeginsOtherwise(value, Rebuilt(value, regions), regions[0].start, regions[0].rules[0]);
    }
  }

  lemma FirstIsNamed(claims: seq<Span>)
    requires Mergeable(claims)
    ensures var regions := Merged(claims);
            regions != [] && regions[0].rules != [] && regions[0].rules[0] in RuleIds(claims)
  {
    var regions := Merged(claims);
    assert Housed(claims[0], regions) && forall region :: region in regions ==> Led(region, claims) by {
      MergeIsExact(claims);
    }
    assert regions[0] in regions;
    NamedIsListed(regions, regions[0], regions[0].rules[0]);
    MergedKeepsRuleIds(claims);
  }

  lemma NamedIsListed(spans: seq<Span>, span: Span, id: string)
    requires span in spans && id in span.rules
    ensures id in RuleIds(spans)
  {
  }

  lemma NoneUnder(root: string, entry: Entry, field: string)
    requires Undotted(field) && entry.field.name == field && Descends(entry.field)
    requires forall leaf :: leaf in EntryLeaves(root, entry, "") ==> !Under(field, leaf.path)
    ensures EntryLeaves(root, entry, "") == []
  {
    if EntryLeaves(root, entry, "") != [] { RootLeaf(root, entry, field, EntryLeaves(root, entry, "")[0]); }
  }

  lemma {:induction false} NothingToClear(schema: Schema, root: string, field: string, tree: Tree, n: nat)
    requires ReportsIn(schema, root, field) && Conforms(schema, tree) && tree.name == root && n <= |tree.entries|
    requires forall leaf :: leaf in LeavesTo(tree, "", n) ==> !Under(field, leaf.path)
    ensures LeavesTo(Cleared(tree, field), "", n) == LeavesTo(tree, "", n)
    decreases n
  {
    if n > 0 {
      NothingToClear(schema, root, field, tree, n - 1);
      var entry := tree.entries[n - 1];
      if entry.field.name == field {
        NoneUnder(root, entry, field);
        EmptyHasNoLeaves(root, Entry(entry.field, [], []), "");
      }
    }
  }

  // Some result that arrives holds this string, and no other.
  lemma OneString(schema: Schema, root: string, field: string, f: FieldPath) returns (tree: Tree, leaf: Leaf)
    requires Closed(schema) && ReportsIn(schema, root, field)
    requires f in PathsOf(schema, root, "", {}) && f.classification.Some? && !Under(field, f.path)
    ensures Arrives(schema, root, field, tree) && Leaves(tree, "") == [leaf]
    ensures leaf.Value? && leaf.path == f.path && leaf.text == "x"
    ensures Classify(schema, leaf.message, leaf.field) == f.classification
  {
    var full;
    full, leaf := NamesAreLive(schema, root, f, "x");
    tree := Cleared(full, field);
    NothingToClear(schema, root, field, full, |full.entries|);
    assert forall i :: 0 <= i < |full.entries| ==> EntryConforms(schema, full.entries[i]);
    assert Cleared(tree, field) == tree;
  }

  // A result with one declared byte of text is not refused.
  lemma OneStringLeaves(schema: Schema, policy: Policy, tree: Tree, leaf: Leaf)
    requires Enforceable(policy) && Leaves(tree, "") == [leaf] && leaf.Value? && |leaf.text| == 1
    requires Classify(schema, leaf.message, leaf.field).Some?
    ensures !SweepOf(schema, policy, tree).faulted
    ensures SweptOutcomes(schema, policy, tree) == [OutcomeOf(schema, policy, leaf)]
  {
    SweepFaultsIff(schema, policy, tree);
    assert [leaf][..0] == [];
    OutcomesAreOf(Out(schema, policy), [leaf]);
  }

  // And it leaves with this in the place of the string.
  lemma OneStringBecomes(schema: Schema, root: string, field: string, policy: Policy, tree: Tree, leaf: Leaf)
    requires AllInBounds(policy.rules) && ReportsIn(schema, root, field) && Conforms(schema, tree) && tree.name == root
    requires Leaves(tree, "") == [leaf] && leaf.Value? && !Under(field, leaf.path)
    ensures var rest := Cleared(MapTree(MaskText(schema, policy), tree, ""), field);
            forall other :: other in Leaves(rest, "") <==> other == leaf.(text := TextOf(schema, policy, leaf))
  {
    var mask := MaskText(schema, policy);
    MapTreeLeaves(mask, tree, "");
    forall other
      ensures other in Leaves(Cleared(MapTree(mask, tree, ""), field), "") <==> other == MapLeaf(mask, leaf)
    {
      ClearedLeaves(schema, root, field, MapTree(mask, tree, ""), other);
      assert MapLeaves(mask, [leaf]) == [MapLeaf(mask, leaf)];
    }
  }

  // Anywhere else, excluding a name masks a string that would have left otherwise.
  lemma OtherNamesMatter(schema: Schema, root: string, field: string, policy: Policy, f: FieldPath)
    returns (tree: Tree)
    requires Closed(schema) && ReportsIn(schema, root, field) && Enforceable(policy) && Unclaimed(policy.rules)
    requires f in PathsOf(schema, root, "", {}) && f.classification.Some? && f.path !in policy.alwaysMasked
    requires !Under(field, f.path)
    ensures Arrives(schema, root, field, tree)
    ensures var sent := SentOf(schema, policy, field, tree);
            var other := SentOf(schema, Excluding(policy, f.path), field, tree);
            sent.Some? && other.Some? && sent.value.rest != other.value.rest
  {
    var leaf;
    tree, leaf := OneString(schema, root, field, f);
    var excluding := Excluding(policy, f.path);
    OneStringLeaves(schema, policy, tree, leaf);
    OneStringLeaves(schema, excluding, tree, leaf);
    RulesWriteAnother(policy.rules, "x");
    RestsDiffer(schema, root, field, policy, excluding, tree, leaf);
  }

  lemma RestsDiffer(schema: Schema, root: string, field: string, a: Policy, b: Policy, tree: Tree, leaf: Leaf)
    requires AllInBounds(a.rules) && AllInBounds(b.rules) && ReportsIn(schema, root, field)
    requires Conforms(schema, tree) && tree.name == root
    requires Leaves(tree, "") == [leaf] && leaf.Value? && !Under(field, leaf.path)
    requires TextOf(schema, a, leaf) != TextOf(schema, b, leaf)
    ensures Cleared(MapTree(MaskText(schema, a), tree, ""), field)
         != Cleared(MapTree(MaskText(schema, b), tree, ""), field)
  {
    OneStringBecomes(schema, root, field, a, tree, leaf);
    OneStringBecomes(schema, root, field, b, tree, leaf);
    var masked := leaf.(text := TextOf(schema, a, leaf));
    assert masked in Leaves(Cleared(MapTree(MaskText(schema, a), tree, ""), field), "");
    assert masked !in Leaves(Cleared(MapTree(MaskText(schema, b), tree, ""), field), "");
  }

  // ---------------------------------------------------------------- which names matter

  /** Excluding a name that a policy may use changes what leaves, for some result that arrives
      without a report, if and only if the name does not lie under the report's field. */
  lemma ExclusionMattersIff(schema: Schema, root: string, field: string, policy: Policy, f: FieldPath)
    requires Closed(schema) && ReportsIn(schema, root, field) && Enforceable(policy) && Unclaimed(policy.rules)
    requires f in PathsOf(schema, root, "", {}) && f.classification.Some? && f.path !in policy.alwaysMasked
    ensures (exists tree ::
               && Arrives(schema, root, field, tree)
               && SentOf(schema, Excluding(policy, f.path), field, tree) != SentOf(schema, policy, field, tree))
            <==> !Under(field, f.path)
  {
    if Under(field, f.path) {
      forall tree | Arrives(schema, root, field, tree)
        ensures SentOf(schema, Excluding(policy, f.path), field, tree) == SentOf(schema, policy, field, tree)
      {
        ReportNamesDoNothing(schema, root, field, policy, f.path, tree);
      }
    } else {
      var tree := OtherNamesMatter(schema, root, field, policy, f);
    }
  }

  // A rule that matches any text whole, under the name exclusions are reported under.
  const Namesake := Rule(MASKED_FIELD_RULE, value => [Match(0, |value|)])

  lemma WholeTextMasked(text: string, id: string)
    ensures var whole := [Span(0, |text|, [id])];
            && Merged(whole) == whole && InText(whole, |text|) && Rebuilt(text, whole) == Marker(id)
            && RuleIds(whole) == {id}
  {
    var whole := [Span(0, |text|, [id])];
    assert whole[..0] == [] && RebuiltTo(text, whole[..0]) == "" && Cursor(whole[..0]) == 0;
    assert text[0..0] == "" && text[|text|..] == "";
    assert RebuiltTo(text, whole) == "" + "" + Marker(id) == Marker(id);
    assert Rebuilt(text, whole) == Marker(id) + "" == Marker(id);
    assert whole[0] in whole && id in whole[0].rules;
  }

  lemma NamesakeClaims(text: string)
    ensures Claims([Namesake], text) == [Span(0, |text|, [MASKED_FIELD_RULE])]
    ensures Listed([Namesake], {MASKED_FIELD_RULE}) == [MASKED_FIELD_RULE]
  {
    assert [Namesake][..0] == [] && ClaimsOf(Namesake, text) == [Span(0, |text|, [MASKED_FIELD_RULE])];
  }

  /** Such a rule writes and reports just what an exclusion does, so that with it excluding a
      free-text name would show nowhere. */
  lemma NamesakeMasksAlike(policy: Policy, path: string, text: string)
    requires policy.rules == [Namesake] && path !in policy.alwaysMasked
    ensures AllInBounds(policy.rules) && !Unclaimed(policy.rules)
    ensures MaskedValue(Excluding(policy, path), path, text) == MaskedValue(policy, path, text)
  {
    assert Namesake in policy.rules && InBounds(Namesake);
    NamesakeClaims(text);
    WholeTextMasked(text, MASKED_FIELD_RULE);
  }

  /** A result that arrives with a report shows one trace of such a name: the report that
      leaves counts a string of the report it replaced, and nothing else is different. */
  lemma ReplacedReportIsCounted(schema: Schema, root: string, field: string, policy: Policy, f: FieldPath)
    returns (tree: Tree)
    requires Closed(schema) && ReportsIn(schema, root, field) && Enforceable(policy)
    requires f in PathsOf(schema, root, "", {}) && f.path !in policy.alwaysMasked && Under(field, f.path)
    requires f.classification == Some(Structural)
    ensures Conforms(schema, tree) && tree.name == root
    ensures var sent := SentOf(schema, policy, field, tree);
            var other := SentOf(schema, Excluding(policy, f.path), field, tree);
            && sent.Some? && other.Some? && sent.value.rest == other.value.rest
            && sent.value.report.None? && other.value.report.Some?
  {
    var leaf;
    tree, leaf := NamesAreLive(schema, root, f, "x");
    OneStringLeaves(schema, policy, tree, leaf);
    OneStringLeaves(schema, Excluding(policy, f.path), tree, leaf);
    RestIsTheSame(schema, root, field, policy, f.path, tree);
    assert OutcomeOf(schema, Excluding(policy, f.path), leaf) in SweptOutcomes(schema, Excluding(policy, f.path), tree);
  }

  // The part of the contract that every result has.
  const ReportContract := Schema(
    map["CapabilityResult" := [Field("redaction", Nested("RedactionReport"), Single)],
        "RedactionReport" := [Field("fields", Nested("RedactedField"), Repeated)],
        "RedactedField" := [Field("field_name", Text, Single), Field("masked_occurrence_count", Scalar, Single),
                            Field("rule_ids", Text, Repeated)]],
    map["RedactedField" := map["field_name" := Structural, "rule_ids" := Structural]])

  const ReportName := FieldPath("redaction.fields.field_name", "RedactedField", "field_name", Some(Structural))

  // One field down.
  lemma FoundBelow(name: string, prefix: string, visiting: set<string>, i: nat, f: FieldPath)
    requires name in ReportContract.fields && i < |ReportContract.fields[name]| && name !in visiting
    requires f in PathsAt(ReportContract, name, prefix, visiting + {name}, i)
    ensures f in PathsOf(ReportContract, name, prefix, visiting)
  {
    PathsToGrows(ReportContract, name, prefix, visiting + {name}, i, |ReportContract.fields[name]|);
  }

  lemma ReportNameJoins()
    ensures Join("redaction.fields", "field_name") == ReportName.path
    ensures Join("", "redaction") == "redaction" && Join("redaction", "fields") == "redaction.fields"
  {
  }

  /** The contract has such a name: a policy may exclude `redaction.fields.field_name`. */
  lemma ReportNameIsAccepted()
    ensures Closed(ReportContract) && ReportsIn(ReportContract, "CapabilityResult", "redaction")
    ensures Under("redaction", ReportName.path) && ReportName in PathsOf(ReportContract, "CapabilityResult", "", {})
  {
    var a := {} + {"CapabilityResult"};
    ReportNameJoins();
    FoundBelow("RedactedField", "redaction.fields", a + {"RedactionReport"}, 0, ReportName);
    FoundBelow("RedactionReport", "redaction", a, 0, ReportName);
    FoundBelow("CapabilityResult", "", {}, 0, ReportName);
  }
}
