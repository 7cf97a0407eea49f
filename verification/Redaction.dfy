/** A policy over a tree: what it makes of each leaf, and what a whole sweep is. */
module Redaction {
  import opened Wrappers
  import opened Ordering
  import opened Masking
  import opened MaskedText
  import opened Trees
  import opened Sweeping

  const MASKED_FIELD_RULE := "policy.masked_field"
  const DEFAULT_MAX_INPUT_BYTES := 4194304
  const DEFAULT_BUDGET := 2000000000

  datatype Policy = Policy(rules: seq<Rule>, alwaysMasked: set<string>, budget: int, maxInput: int)

  // What every policy in force satisfies: it came from the defaults and a file that could
  // only lower the bounds.
  ghost predicate Enforceable(policy: Policy) {
    AllInBounds(policy.rules) && 0 < policy.maxInput <= DEFAULT_MAX_INPUT_BYTES
  }

  // The sweep reads this field: it is declared, and either free text or excluded by name.
  predicate Reads(schema: Schema, policy: Policy, leaf: Leaf)
    requires leaf.Value?
  {
    var c := Classify(schema, leaf.message, leaf.field);
    c.Some? && (c.value.FreeText? || leaf.path in policy.alwaysMasked)
  }

  // What masking makes of one string the sweep reads.
  function MaskedValue(policy: Policy, path: string, text: string): Masked
    requires AllInBounds(policy.rules)
  {
    if path in policy.alwaysMasked then
      if text == "" then Masked(text, 0, []) else Masked(Marker(MASKED_FIELD_RULE), 1, [MASKED_FIELD_RULE])
    else MaskOf(policy.rules, text)
  }

  function OutcomeOf(schema: Schema, policy: Policy, leaf: Leaf): Outcome
    requires AllInBounds(policy.rules)
  {
    match leaf
    case MapField(_) => Bad
    case Value(path, message, field, text) =>
      if Classify(schema, message, field).None? then Bad
      else if !Reads(schema, policy, leaf) then Left
      else var masked := MaskedValue(policy, path, text); Swept(path, |text|, masked.occurrences, masked.matched)
  }

  function TextOf(schema: Schema, policy: Policy, leaf: Leaf): string
    requires AllInBounds(policy.rules)
  {
    match leaf
    case MapField(_) => ""
    case Value(path, _, _, text) => if Reads(schema, policy, leaf) then MaskedValue(policy, path, text).text else text
  }

  function Outcomes(out: Leaf -> Outcome, leaves: seq<Leaf>): seq<Outcome> {
    if leaves == [] then [] else Outcomes(out, leaves[..|leaves| - 1]) + [out(leaves[|leaves| - 1])]
  }

  lemma {:induction false} OutcomesAreOf(out: Leaf -> Outcome, leaves: seq<Leaf>)
    ensures |Outcomes(out, leaves)| == |leaves|
    ensures forall i :: 0 <= i < |leaves| ==> Outcomes(out, leaves)[i] == out(leaves[i])
  {
    if leaves != [] { OutcomesAreOf(out, leaves[..|leaves| - 1]); }
  }

  // A fault ends the walk: whatever the leaves that follow, nothing more happens.
  ghost predicate Halts(step: (State, Leaf) -> State) {
    forall s: State, leaf :: s.faulted ==> step(s, leaf) == s
  }

  lemma {:induction false} PastFault(step: (State, Leaf) -> State, before: State, leaves: seq<Leaf>)
    requires Halts(step) && before.faulted
    ensures Fold(step, before, leaves) == before
  {
    if leaves != [] { PastFault(step, before, leaves[..|leaves| - 1]); }
  }

  // The walk is at `some` and it has faulted there: so has the whole.
  lemma PastRest(step: (State, Leaf) -> State, before: State, some: seq<Leaf>, rest: seq<Leaf>)
    requires Halts(step) && Fold(step, before, some).faulted
    ensures Fold(step, before, some + rest) == Fold(step, before, some)
  {
    FoldConcat(step, before, some, rest);
    PastFault(step, Fold(step, before, some), rest);
  }

  lemma PastMore(step: (State, Leaf) -> State, before: State, leaves: seq<Leaf>, leaf: Leaf)
    ensures Fold(step, before, leaves + [leaf]) == step(Fold(step, before, leaves), leaf)
  {
    assert (leaves + [leaf])[..|leaves|] == leaves;
  }

  lemma {:induction false} PastLeft(step: (State, Leaf) -> State, before: State, leaves: seq<Leaf>)
    requires forall i :: 0 <= i < |leaves| ==> step(before, leaves[i]) == before
    ensures Fold(step, before, leaves) == before
  {
    if leaves != [] { PastLeft(step, before, leaves[..|leaves| - 1]); }
  }

  lemma PastBad(step: (State, Leaf) -> State, before: State, leaves: seq<Leaf>)
    requires Halts(step) && leaves != [] && step(before, leaves[0]).faulted
    ensures Fold(step, before, leaves) == step(before, leaves[0])
  {
    assert leaves == ([] + [leaves[0]]) + leaves[1..];
    PastMore(step, before, [], leaves[0]);
    PastRest(step, before, [] + [leaves[0]], leaves[1..]);
  }

  // One value more of a field.
  lemma NextText(step: (State, Leaf) -> State, before: State, message: string, field: string, texts: seq<string>,
                 path: string, k: nat)
    requires Halts(step) && k < |texts|
    ensures var past := Fold(step, before, TextLeaves(message, field, texts[..k], path));
            var now := step(past, Value(path, message, field, texts[k]));
            && Fold(step, before, TextLeaves(message, field, texts[..k + 1], path)) == now
            && (now.faulted ==> Fold(step, before, TextLeaves(message, field, texts, path)) == now)
  {
    var some, all := TextLeaves(message, field, texts[..k + 1], path), TextLeaves(message, field, texts, path);
    assert texts[..k + 1][..k] == texts[..k];
    PastMore(step, before, TextLeaves(message, field, texts[..k], path), Value(path, message, field, texts[k]));
    TextLeavesAt(message, field, texts, path);
    TextLeavesAt(message, field, texts[..k + 1], path);
    assert all == some + all[k + 1..];
    if Fold(step, before, some).faulted { PastRest(step, before, some, all[k + 1..]); }
  }

  // One message more of a list.
  lemma NextMessage(step: (State, Leaf) -> State, before: State, trees: seq<Tree>, path: string, j: nat)
    requires Halts(step) && j < |trees|
    ensures var now := Fold(step, Fold(step, before, ListLeaves(trees[..j], path)), Leaves(trees[j], path));
            && Fold(step, before, ListLeaves(trees[..j + 1], path)) == now
            && (now.faulted ==> Fold(step, before, ListLeaves(trees, path)) == now)
  {
    assert trees[..j + 1][..j] == trees[..j];
    FoldConcat(step, before, ListLeaves(trees[..j], path), Leaves(trees[j], path));
    ListLeavesSplit(trees, path, j + 1);
    if Fold(step, before, ListLeaves(trees[..j + 1], path)).faulted {
      PastRest(step, before, ListLeaves(trees[..j + 1], path), ListLeaves(trees[j + 1..], path));
    }
  }

  // One field more of a message.
  lemma NextField(step: (State, Leaf) -> State, before: State, tree: Tree, path: string, i: nat)
    requires Halts(step) && i < |tree.entries|
    ensures var now := Fold(step, Fold(step, before, LeavesTo(tree, path, i)),
                            EntryLeaves(tree.name, tree.entries[i], path));
            && Fold(step, before, LeavesTo(tree, path, i + 1)) == now
            && (now.faulted ==> Fold(step, before, Leaves(tree, path)) == now)
  {
    FoldConcat(step, before, LeavesTo(tree, path, i), EntryLeaves(tree.name, tree.entries[i], path));
    LeavesSplit(tree, path, i + 1);
    if Fold(step, before, LeavesTo(tree, path, i + 1)).faulted {
      PastRest(step, before, LeavesTo(tree, path, i + 1), LeavesFrom(tree, path, i + 1));
    }
  }

  // ---------------------------------------------------------------- a whole sweep

  function Out(schema: Schema, policy: Policy): Leaf -> Outcome
    requires AllInBounds(policy.rules)
  {
    leaf requires AllInBounds(policy.rules) => OutcomeOf(schema, policy, leaf)
  }

  function LeafStep(schema: Schema, policy: Policy): (State, Leaf) -> State
    requires AllInBounds(policy.rules)
  {
    (s, leaf) requires AllInBounds(policy.rules) => Step(policy.maxInput, s, OutcomeOf(schema, policy, leaf))
  }

  lemma LeafStepIs(schema: Schema, policy: Policy, s: State, leaf: Leaf)
    requires AllInBounds(policy.rules)
    ensures LeafStep(schema, policy)(s, leaf) == Step(policy.maxInput, s, OutcomeOf(schema, policy, leaf))
  {
  }

  // What a string the sweep reads does to the sweep.
  function ReadStep(policy: Policy, s: State, path: string, text: string): State
    requires AllInBounds(policy.rules)
  {
    var masked := MaskedValue(policy, path, text);
    Step(policy.maxInput, s, Outcome.Swept(path, |text|, masked.occurrences, masked.matched))
  }

  // At this field, each value is read so, and rewritten so.
  ghost predicate ReadsAt(policy: Policy, path: string, message: string, field: string, step: (State, Leaf) -> State,
                          mask: Leaf -> string)
  {
    AllInBounds(policy.rules) && forall s: State, text: string {:trigger ReadStep(policy, s, path, text)} ::
      var leaf := Value(path, message, field, text);
      step(s, leaf) == ReadStep(policy, s, path, text) && mask(leaf) == MaskedValue(policy, path, text).text
  }

  lemma LeafStepReads(schema: Schema, policy: Policy, path: string, message: string, field: string)
    requires AllInBounds(policy.rules) && Reads(schema, policy, Value(path, message, field, ""))
    ensures ReadsAt(policy, path, message, field, LeafStep(schema, policy), MaskText(schema, policy))
  {
    forall s: State, text: string
      ensures var leaf := Value(path, message, field, text);
              && LeafStep(schema, policy)(s, leaf) == ReadStep(policy, s, path, text)
              && MaskText(schema, policy)(leaf) == MaskedValue(policy, path, text).text
    {
      LeafStepIs(schema, policy, s, Value(path, message, field, text));
    }
  }

  lemma LeafStepHalts(schema: Schema, policy: Policy)
    requires AllInBounds(policy.rules)
    ensures Halts(LeafStep(schema, policy))
  {
  }

  lemma MapFieldFaults(schema: Schema, policy: Policy, before: State, path: string)
    requires AllInBounds(policy.rules) && !before.faulted
    ensures Fold(LeafStep(schema, policy), before, [MapField(path)]) == before.(faulted := true)
  {
    LeafStepHalts(schema, policy);
    LeafStepIs(schema, policy, before, MapField(path));
    PastBad(LeafStep(schema, policy), before, [MapField(path)]);
  }

  lemma {:induction false} WalkIsRun(schema: Schema, policy: Policy, before: State, leaves: seq<Leaf>)
    requires AllInBounds(policy.rules)
    ensures Fold(LeafStep(schema, policy), before, leaves)
                == Run(policy.maxInput, before, Outcomes(Out(schema, policy), leaves))
  {
    if leaves != [] { WalkIsRun(schema, policy, before, leaves[..|leaves| - 1]); }
  }

  function MaskText(schema: Schema, policy: Policy): Leaf -> string
    requires AllInBounds(policy.rules)
  {
    leaf requires AllInBounds(policy.rules) => TextOf(schema, policy, leaf)
  }

  function SweptOutcomes(schema: Schema, policy: Policy, tree: Tree): seq<Outcome>
    requires AllInBounds(policy.rules)
  {
    Outcomes(Out(schema, policy), Leaves(tree, ""))
  }

  function SweepOf(schema: Schema, policy: Policy, tree: Tree): State
    requires AllInBounds(policy.rules)
  {
    Run(policy.maxInput, START, SweptOutcomes(schema, policy, tree))
  }

  /** The report of a sweep that came to this: absent when nothing was masked. */
  ghost function ReportOf(outcomes: seq<Outcome>): Option<seq<ReportLine>> {
    if forall o :: o in outcomes ==> !Counts(o) then None
    else Some(seq(|Reached(outcomes)|, i requires 0 <= i < |Reached(outcomes)| =>
                LineOf(outcomes, Reached(outcomes)[i])))
  }

  // What leaves: the result with its report's field emptied, and the report that now
  // stands there.
  datatype Sent = Sent(rest: Tree, report: Option<seq<ReportLine>>)

  /** What leaves when a result is swept, if it leaves at all.  Whatever the report's field
      held when the result came in is swept with the rest, and then overwritten. */
  ghost function SentOf(schema: Schema, policy: Policy, field: string, tree: Tree): Option<Sent>
    requires AllInBounds(policy.rules)
  {
    if SweepOf(schema, policy, tree).faulted then None
    else Some(Sent(Cleared(MapTree(MaskText(schema, policy), tree, ""), field),
                   ReportOf(SweptOutcomes(schema, policy, tree))))
  }

  // A leaf the contract does not account for: a map, or a string the table does not have.
  predicate Unaccounted(schema: Schema, leaf: Leaf) {
    leaf.MapField? || leaf.message !in schema.declared || leaf.field !in schema.declared[leaf.message]
  }

  // The bytes of every string the table calls free text or the policy excludes by name.
  function BytesRead(schema: Schema, policy: Policy, leaves: seq<Leaf>): nat {
    if leaves == [] then 0
    else
      var leaf := leaves[|leaves| - 1];
      BytesRead(schema, policy, leaves[..|leaves| - 1])
      + if !Unaccounted(schema, leaf)
           && (schema.declared[leaf.message][leaf.field] == FreeText || leaf.path in policy.alwaysMasked)
        then |leaf.text| else 0
  }

  lemma {:induction false} BytesAreRead(schema: Schema, policy: Policy, leaves: seq<Leaf>)
    requires AllInBounds(policy.rules)
    ensures Bytes(Outcomes(Out(schema, policy), leaves)) == BytesRead(schema, policy, leaves)
  {
    if leaves != [] { BytesAreRead(schema, policy, leaves[..|leaves| - 1]); }
  }

  /** A sweep faults exactly when the result holds something the contract does not account
      for, or presents more bytes to read than the policy allows. */
  lemma SweepFaultsIff(schema: Schema, policy: Policy, tree: Tree)
    requires Enforceable(policy)
    ensures SweepOf(schema, policy, tree).faulted <==>
            || (exists leaf :: leaf in Leaves(tree, "") && leaf.MapField?)
            || (exists leaf :: leaf in Leaves(tree, "") && leaf.Value?
                               && (leaf.message !in schema.declared || leaf.field !in schema.declared[leaf.message]))
            || BytesRead(schema, policy, Leaves(tree, "")) > policy.maxInput
  {
    var leaves, outcomes := Leaves(tree, ""), SweptOutcomes(schema, policy, tree);
    RunReadsBytes(policy.maxInput, outcomes);
    BytesAreRead(schema, policy, leaves);
    BadIsUnaccounted(schema, policy, leaves);
  }

  lemma BadIsUnaccounted(schema: Schema, policy: Policy, leaves: seq<Leaf>)
    requires AllInBounds(policy.rules)
    ensures Bad in Outcomes(Out(schema, policy), leaves) <==>
              exists leaf :: leaf in leaves && Unaccounted(schema, leaf)
  {
    var outcomes := Outcomes(Out(schema, policy), leaves);
    OutcomesAreOf(Out(schema, policy), leaves);
    if Bad in outcomes {
      var i :| 0 <= i < |outcomes| && outcomes[i] == Bad;
      assert leaves[i] in leaves && OutcomeOf(schema, policy, leaves[i]) == Bad;
    }
    if leaf :| leaf in leaves && Unaccounted(schema, leaf) {
      var i :| 0 <= i < |leaves| && leaves[i] == leaf;
      assert outcomes[i] == OutcomeOf(schema, policy, leaf) == Bad;
    }
  }

  /** A sweep is a map over the strings.  The walk finds the swept tree leaf for leaf as it
      was, except that a string excluded by name is replaced whole unless it is empty, and
      any other that the table calls free text is masked; what the table calls structural, and is
      not excluded, is untouched. */
  lemma SweepMapsTheTree(schema: Schema, policy: Policy, tree: Tree, i: nat)
    requires AllInBounds(policy.rules) && i < |Leaves(tree, "")| && Leaves(tree, "")[i].Value?
    ensures var before := Leaves(tree, "");
            var after := Leaves(MapTree(MaskText(schema, policy), tree, ""), "");
            && |after| == |before| && after[i].Value?
            && after[i] == before[i].(text := after[i].text)
            && (!Unaccounted(schema, before[i]) ==>
                  var excluded := before[i].path in policy.alwaysMasked;
                  var declared := schema.declared[before[i].message][before[i].field];
                  && (excluded && before[i].text != "" ==> after[i].text == "[redacted:policy.masked_field]")
                  && (excluded && before[i].text == "" ==> after[i].text == "")
                  && (!excluded && declared == FreeText ==> after[i].text == MaskOf(policy.rules, before[i].text).text)
                  && (!excluded && declared == Structural ==> after[i].text == before[i].text))
  {
    MapTreeLeaves(MaskText(schema, policy), tree, "");
    ExclusionMarker();
  }

  lemma ExclusionMarker()
    ensures Marker(MASKED_FIELD_RULE) == "[redacted:policy.masked_field]"
  {
  }

  lemma OutcomeIsPlausible(schema: Schema, policy: Policy, leaf: Leaf)
    requires AllInBounds(policy.rules)
    ensures Plausible(OutcomeOf(schema, policy, leaf))
  {
    if leaf.Value? && Reads(schema, policy, leaf) && leaf.path !in policy.alwaysMasked {
      CountIsExact(policy.rules, leaf.text);
    }
  }

  /** No tally wraps: all a fault-free sweep counts, over all paths together, is at most
      8388608, and so is what it counts at any one of them. */
  lemma TalliesFitTheirWidth(schema: Schema, policy: Policy, tree: Tree)
    requires Enforceable(policy) && !SweepOf(schema, policy, tree).faulted
    ensures var outcomes := SweptOutcomes(schema, policy, tree);
            && SumAt(outcomes, Reached(outcomes)) <= 8388608
            && forall path :: TotalAt(outcomes, path) <= 8388608 < UINT32
  {
    var leaves, outcomes := Leaves(tree, ""), SweptOutcomes(schema, policy, tree);
    OutcomesAreOf(Out(schema, policy), leaves);
    forall o | o in outcomes ensures Plausible(o) {
      var i :| 0 <= i < |outcomes| && outcomes[i] == o;
      OutcomeIsPlausible(schema, policy, leaves[i]);
    }
    TotalsAreSmall(outcomes);
    RunReadsBytes(policy.maxInput, outcomes);
    TalliesAddUp(outcomes);
    forall path ensures TotalAt(outcomes, path) <= GrandTotal(outcomes) { TotalIsPartOfAll(outcomes, path); }
  }

  /** The report of a fault-free sweep: rendering its tallies gives one line per path where
      something was masked, in the order first reached, with the true count and every rule. */
  lemma ReportIsExact(schema: Schema, policy: Policy, tree: Tree, lines: seq<ReportLine>)
    requires Enforceable(policy) && !SweepOf(schema, policy, tree).faulted
    requires Rendered(lines, SweepOf(schema, policy, tree).counts)
    ensures Reports(lines, SweptOutcomes(schema, policy, tree))
  {
    var outcomes := SweptOutcomes(schema, policy, tree);
    RunTallies(policy.maxInput, outcomes);
    TalliesFitTheirWidth(schema, policy, tree);
    RenderedIsTheReport(lines, SweepOf(schema, policy, tree), outcomes);
  }

  lemma ReportsAreUnique(lines: seq<ReportLine>, outcomes: seq<Outcome>, o: Outcome)
    requires Reports(lines, outcomes) && o in outcomes && Counts(o)
    ensures ReportOf(outcomes) == Some(lines)
  {
    assert ReportOf(outcomes).Some? && ReportOf(outcomes).value == lines;
  }

  // The string is one the sweep masks something in: excluded and not empty, or free text that
  // some rule matches.
  ghost predicate Masks(schema: Schema, policy: Policy, leaf: Leaf) {
    && !Unaccounted(schema, leaf) && leaf.text != ""
    && (leaf.path in policy.alwaysMasked
        || (schema.declared[leaf.message][leaf.field] == FreeText
            && exists rule :: rule in policy.rules && rule.find(leaf.text) != []))
  }

  lemma MasksIffCounted(schema: Schema, policy: Policy, leaf: Leaf)
    requires AllInBounds(policy.rules)
    ensures Counts(OutcomeOf(schema, policy, leaf)) <==> Masks(schema, policy, leaf)
    ensures Masks(schema, policy, leaf) ==> OutcomeOf(schema, policy, leaf).path == leaf.path
  {
    if leaf.Value? && Reads(schema, policy, leaf) && leaf.path !in policy.alwaysMasked {
      ClaimedIffMatched(policy.rules, leaf.text);
    }
  }

  lemma ClaimedIffMatched(rules: seq<Rule>, text: string)
    requires AllInBounds(rules)
    ensures MaskOf(rules, text).occurrences > 0 <==> text != "" && exists rule :: rule in rules && rule.find(text) != []
  {
    ClaimsAreExact(rules, text);
    var claims := Claims(rules, text);
    if claims != [] {
      assert claims[0] in claims;
      var rule :| rule in rules && claims[0] in ClaimsOf(rule, text);
      assert rule.find(text) != [];
    }
    if rule :| rule in rules && rule.find(text) != [] { assert ClaimsOf(rule, text)[0] in claims; }
  }

  /** A path is reported exactly when the sweep masks something in some string there. */
  lemma ReportedIffMasked(schema: Schema, policy: Policy, tree: Tree, path: string)
    requires AllInBounds(policy.rules)
    ensures path in Reached(SweptOutcomes(schema, policy, tree)) <==>
            exists leaf :: leaf in Leaves(tree, "") && leaf.path == path && Masks(schema, policy, leaf)
  {
    var leaves, outcomes := Leaves(tree, ""), SweptOutcomes(schema, policy, tree);
    OutcomesAreOf(Out(schema, policy), leaves);
    ReachedIsExact(outcomes);
    if leaf :| leaf in leaves && leaf.path == path && Masks(schema, policy, leaf) {
      var k :| 0 <= k < |leaves| && leaves[k] == leaf;
      MasksIffCounted(schema, policy, leaf);
      if TotalAt(outcomes, path) == 0 { NotCounted(outcomes, path, k); }
    }
    if path in Reached(outcomes) {
      var k := CountedSomewhere(outcomes, path);
      MasksIffCounted(schema, policy, leaves[k]);
    }
  }

  // How often something was masked at this path: once for each excluded string that is not
  // empty, and once for each stretch masked in any other.
  ghost function CountIn(schema: Schema, policy: Policy, leaves: seq<Leaf>, path: string): nat
    requires AllInBounds(policy.rules)
  {
    if leaves == [] then 0
    else
      var leaf := leaves[|leaves| - 1];
      CountIn(schema, policy, leaves[..|leaves| - 1], path)
      + if leaf.path != path || !Masks(schema, policy, leaf) then 0
        else if path in policy.alwaysMasked then 1 else MaskOf(policy.rules, leaf.text).occurrences
  }

  // By which rules.
  ghost function RulesIn(schema: Schema, policy: Policy, leaves: seq<Leaf>, path: string): set<string>
    requires AllInBounds(policy.rules)
  {
    if leaves == [] then {}
    else
      var leaf := leaves[|leaves| - 1];
      RulesIn(schema, policy, leaves[..|leaves| - 1], path)
      + if leaf.path != path || !Masks(schema, policy, leaf) then {}
        else if path in policy.alwaysMasked then {"policy.masked_field"}
        else set id | id in MaskOf(policy.rules, leaf.text).matched
  }

  lemma {:induction false} TalliesAreOfLeaves(schema: Schema, policy: Policy, leaves: seq<Leaf>, path: string)
    requires AllInBounds(policy.rules)
    ensures TotalAt(Outcomes(Out(schema, policy), leaves), path) == CountIn(schema, policy, leaves, path)
    ensures RulesAt(Outcomes(Out(schema, policy), leaves), path) == RulesIn(schema, policy, leaves, path)
    decreases |leaves|
  {
    if leaves != [] {
      var n := |leaves| - 1;
      TalliesAreOfLeaves(schema, policy, leaves[..n], path);
      MasksIffCounted(schema, policy, leaves[n]);
      if CountsAt(OutcomeOf(schema, policy, leaves[n]), path) { TallyOfLeaf(schema, policy, leaves[n], path); }
    }
  }

  lemma TallyOfLeaf(schema: Schema, policy: Policy, leaf: Leaf, path: string)
    requires AllInBounds(policy.rules) && CountsAt(OutcomeOf(schema, policy, leaf), path)
    ensures var o := OutcomeOf(schema, policy, leaf);
            && o.occurrences == (if path in policy.alwaysMasked then 1 else MaskOf(policy.rules, leaf.text).occurrences)
            && (set id | id in o.rules) == if path in policy.alwaysMasked then {"policy.masked_field"}
                                           else set id | id in MaskOf(policy.rules, leaf.text).matched
  {
  }

  /** Each line of a report, read off the strings of the result: how often something was masked
      in the strings at its path, and by which rules, in order. */
  lemma ReportLinesSay(schema: Schema, policy: Policy, tree: Tree, lines: seq<ReportLine>, i: nat)
    requires AllInBounds(policy.rules) && Reports(lines, SweptOutcomes(schema, policy, tree)) && i < |lines|
    ensures var leaves := Leaves(tree, "");
            && lines[i].count == CountIn(schema, policy, leaves, lines[i].path)
            && lines[i].rules == SortedStrings(RulesIn(schema, policy, leaves, lines[i].path))
  {
    TalliesAreOfLeaves(schema, policy, Leaves(tree, ""), lines[i].path);
  }

  /** Nothing is reported exactly when nothing was masked. */
  lemma SilenceMeansNothingMasked(schema: Schema, policy: Policy, tree: Tree)
    requires Enforceable(policy) && !SweepOf(schema, policy, tree).faulted
    ensures SweepOf(schema, policy, tree).counts == map[] <==>
                forall o :: o in SweptOutcomes(schema, policy, tree) ==> !Counts(o)
  {
    var outcomes := SweptOutcomes(schema, policy, tree);
    var counts := SweepOf(schema, policy, tree).counts;
    RunTallies(policy.maxInput, outcomes);
    ReachedIsExact(outcomes);
    if o :| o in outcomes && Counts(o) {
      var k :| 0 <= k < |outcomes| && outcomes[k] == o;
      if TotalAt(outcomes, o.path) == 0 { NotCounted(outcomes, o.path, k); }
      assert o.path in counts;
    } else if path :| path in counts {
      var k := CountedSomewhere(outcomes, path);
    } else {
      assert counts == map[];
    }
  }
}
