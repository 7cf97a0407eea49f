/** What a sweep does to its own state, leaf by leaf, and what the whole walk amounts to: when
    it faults, what it tallies, and the report it renders. */
module Sweeping {
  import opened Wrappers
  import opened Ordering

  const UINT32 := 0x1_0000_0000

  datatype Tally = Tally(order: nat, occurrences: nat, rules: set<string>)

  // What one leaf is to the sweep.  `Bad` is a leaf no table entry covers, or a map field;
  // `Left` is one it does not read; `Swept` is a string it reads, `bytes` long, with what
  // masking it found.
  datatype Outcome = Bad | Left | Swept(path: string, bytes: nat, occurrences: nat, rules: seq<string>)

  datatype State = State(swept: nat, counts: map<string, Tally>, next: nat, faulted: bool)

  const START := State(0, map[], 0, false)

  // 32-bit addition.
  function Add32(a: nat, b: nat): nat {
    (a + b % UINT32) % UINT32
  }

  lemma Add32Wraps(a: nat, b: nat)
    ensures Add32(a % UINT32, b) == (a + b) % UINT32
  {
    var q := a / UINT32 + b / UINT32;
    assert a + b == q * UINT32 + (a % UINT32 + b % UINT32);
  }

  function Record(s: State, path: string, occurrences: nat, rules: seq<string>): State {
    var entry := if path in s.counts then s.counts[path] else Tally(s.next, 0, {});
    s.(next := if path in s.counts then s.next else s.next + 1,
       counts := s.counts[path := Tally(entry.order, Add32(entry.occurrences, occurrences),
                                        entry.rules + set id | id in rules)])
  }

  function Step(maxInput: int, s: State, o: Outcome): State {
    if s.faulted then s
    else match o
      case Bad => s.(faulted := true)
      case Left => s
      case Swept(path, bytes, occurrences, rules) =>
        var read := s.(swept := s.swept + bytes);
        if read.swept > maxInput then read.(faulted := true)
        else if occurrences == 0 then read
        else Record(read, path, occurrences, rules)
  }

  function Run(maxInput: int, s: State, outcomes: seq<Outcome>): State {
    if outcomes == [] then s
    else Step(maxInput, Run(maxInput, s, outcomes[..|outcomes| - 1]), outcomes[|outcomes| - 1])
  }

  // ---------------------------------------------------------------- when it faults

  // The bytes the sweep reads.
  function Bytes(outcomes: seq<Outcome>): nat {
    if outcomes == [] then 0
    else
      var o := outcomes[|outcomes| - 1];
      Bytes(outcomes[..|outcomes| - 1]) + if o.Swept? then o.bytes else 0
  }

  lemma {:induction false} RunReadsBytes(maxInput: nat, outcomes: seq<Outcome>)
    ensures var s := Run(maxInput, START, outcomes);
            && (s.faulted <==> Bad in outcomes || Bytes(outcomes) > maxInput)
            && (!s.faulted ==> s.swept == Bytes(outcomes))
  {
    if outcomes != [] {
      var n := |outcomes| - 1;
      RunReadsBytes(maxInput, outcomes[..n]);
      assert outcomes == outcomes[..n] + [outcomes[n]];
    }
  }

  // ---------------------------------------------------------------- what it tallies

  // Something was masked at this path.
  predicate Counts(o: Outcome) {
    o.Swept? && o.occurrences > 0
  }

  predicate CountsAt(o: Outcome, path: string) {
    Counts(o) && o.path == path
  }

  function TotalAt(outcomes: seq<Outcome>, path: string): nat {
    if outcomes == [] then 0
    else
      var o := outcomes[|outcomes| - 1];
      TotalAt(outcomes[..|outcomes| - 1], path) + if CountsAt(o, path) then o.occurrences else 0
  }

  function RulesAt(outcomes: seq<Outcome>, path: string): set<string> {
    if outcomes == [] then {}
    else
      var o := outcomes[|outcomes| - 1];
      RulesAt(outcomes[..|outcomes| - 1], path) + if CountsAt(o, path) then set id | id in o.rules else {}
  }

  // The paths where something was masked, each once, in the order first reached.
  function Reached(outcomes: seq<Outcome>): seq<string> {
    if outcomes == [] then []
    else
      var o := outcomes[|outcomes| - 1];
      var before := Reached(outcomes[..|outcomes| - 1]);
      if Counts(o) && o.path !in before then before + [o.path] else before
  }

  lemma {:induction false} ReachedIsExact(outcomes: seq<Outcome>)
    ensures forall path :: path in Reached(outcomes) <==> TotalAt(outcomes, path) > 0
    ensures forall i, j :: 0 <= i < j < |Reached(outcomes)| ==> Reached(outcomes)[i] != Reached(outcomes)[j]
  {
    if outcomes != [] { ReachedIsExact(outcomes[..|outcomes| - 1]); }
  }

  // Where in the walk a path is first reached.
  ghost predicate FirstAt(outcomes: seq<Outcome>, path: string, k: nat) {
    k < |outcomes| && CountsAt(outcomes[k], path) && forall j :: 0 <= j < k ==> !CountsAt(outcomes[j], path)
  }

  lemma {:induction false} ReachedInOrder(outcomes: seq<Outcome>, i: nat, j: nat, a: nat, b: nat)
    requires i < j < |Reached(outcomes)|
    requires FirstAt(outcomes, Reached(outcomes)[i], a) && FirstAt(outcomes, Reached(outcomes)[j], b)
    ensures a < b
  {
    var n := |outcomes| - 1;
    var before := outcomes[..n];
    ReachedIsExact(outcomes);
    ReachedIsExact(before);
    if j < |Reached(before)| {
      assert Reached(before)[j] in Reached(before) && Reached(before)[i] in Reached(before);
      var x := CountedSomewhere(before, Reached(before)[i]);
      var y := CountedSomewhere(before, Reached(before)[j]);
      assert outcomes[x] == before[x] && outcomes[y] == before[y];
      ReachedInOrder(before, i, j, a, b);
    } else {
      assert Reached(before)[i] in Reached(before);
      var x := CountedSomewhere(before, Reached(before)[i]);
      assert outcomes[x] == before[x];
      if b < n { NotCounted(before, Reached(outcomes)[j], b); }
    }
  }

  lemma {:induction false} CountedSomewhere(outcomes: seq<Outcome>, path: string) returns (k: nat)
    requires TotalAt(outcomes, path) > 0
    ensures k < |outcomes| && CountsAt(outcomes[k], path)
  {
    var n := |outcomes| - 1;
    if CountsAt(outcomes[n], path) {
      k := n;
    } else {
      k := CountedSomewhere(outcomes[..n], path);
    }
  }

  lemma {:induction false} NotCounted(outcomes: seq<Outcome>, path: string, k: nat)
    requires TotalAt(outcomes, path) == 0 && k < |outcomes|
    ensures !CountsAt(outcomes[k], path)
  {
    if k < |outcomes| - 1 { NotCounted(outcomes[..|outcomes| - 1], path, k); }
  }

  // The tallies after the walk: one per path reached, ranked in that order.
  ghost predicate Tallied(s: State, outcomes: seq<Outcome>) {
    var reached := Reached(outcomes);
    && s.next == |reached|
    && (forall path :: path in s.counts <==> path in reached)
    && (forall i :: 0 <= i < |reached| ==>
        s.counts[reached[i]] == Tally(i, TotalAt(outcomes, reached[i]) % UINT32, RulesAt(outcomes, reached[i])))
  }

  lemma RecordTalliesOne(s: State, before: seq<Outcome>, o: Outcome, i: nat)
    requires Tallied(s, before) && Counts(o) && i < |Reached(before + [o])|
    ensures var path := Reached(before + [o])[i];
            && path in Record(s, o.path, o.occurrences, o.rules).counts
            && Record(s, o.path, o.occurrences, o.rules).counts[path]
            == Tally(i, TotalAt(before + [o], path) % UINT32, RulesAt(before + [o], path))
  {
    var all := before + [o];
    assert all[..|before|] == before;
    ReachedIsExact(before);
    ReachedIsExact(all);
    var was, path := Reached(before), Reached(all)[i];
    Add32Wraps(TotalAt(before, path), o.occurrences);
    if i == |was| {
      NothingYet(before, path);
    } else {
      assert path == was[i] && path in s.counts;
    }
  }

  lemma RecordTallies(s: State, before: seq<Outcome>, o: Outcome)
    requires Tallied(s, before) && Counts(o)
    ensures Tallied(Record(s, o.path, o.occurrences, o.rules), before + [o])
  {
    var all := before + [o];
    assert all[..|before|] == before;
    forall i | 0 <= i < |Reached(all)|
      ensures Record(s, o.path, o.occurrences, o.rules).counts[Reached(all)[i]]
           == Tally(i, TotalAt(all, Reached(all)[i]) % UINT32, RulesAt(all, Reached(all)[i]))
    {
      RecordTalliesOne(s, before, o, i);
    }
  }

  lemma {:induction false} NothingYet(outcomes: seq<Outcome>, path: string)
    requires TotalAt(outcomes, path) == 0
    ensures RulesAt(outcomes, path) == {}
  {
    if outcomes != [] { NothingYet(outcomes[..|outcomes| - 1], path); }
  }

  lemma OthersTallyNothing(s: State, before: seq<Outcome>, o: Outcome)
    requires Tallied(s, before) && !Counts(o)
    ensures forall read :: Tallied(s.(swept := read), before + [o])
  {
    var all := before + [o];
    assert all[..|before|] == before;
    assert forall path :: TotalAt(all, path) == TotalAt(before, path) && RulesAt(all, path) == RulesAt(before, path);
  }

  lemma {:induction false} RunTallies(maxInput: nat, outcomes: seq<Outcome>)
    requires !Run(maxInput, START, outcomes).faulted
    ensures Tallied(Run(maxInput, START, outcomes), outcomes)
  {
    if outcomes != [] {
      var n := |outcomes| - 1;
      var before, o := outcomes[..n], outcomes[n];
      assert outcomes == before + [o];
      RunTallies(maxInput, before);
      var s := Run(maxInput, START, before);
      if Counts(o) {
        var read := s.(swept := s.swept + o.bytes);
        assert Tallied(read, before);
        RecordTallies(read, before, o);
      } else {
        OthersTallyNothing(s, before, o);
      }
    }
  }

  // ---------------------------------------------------------------- no tally wraps

  // A string of b bytes has at most 2b masked stretches: none when empty, else b + 1.
  predicate Plausible(o: Outcome) {
    o.Swept? ==> o.occurrences <= 2 * o.bytes
  }

  // Everything counted, wherever it was.
  function GrandTotal(outcomes: seq<Outcome>): nat {
    if outcomes == [] then 0
    else
      var o := outcomes[|outcomes| - 1];
      GrandTotal(outcomes[..|outcomes| - 1]) + if Counts(o) then o.occurrences else 0
  }

  lemma {:induction false} TotalsAreSmall(outcomes: seq<Outcome>)
    requires forall o :: o in outcomes ==> Plausible(o)
    ensures GrandTotal(outcomes) <= 2 * Bytes(outcomes)
  {
    if outcomes != [] {
      var n := |outcomes| - 1;
      assert outcomes[n] in outcomes;
      TotalsAreSmall(outcomes[..n]);
    }
  }

  lemma {:induction false} TotalIsPartOfAll(outcomes: seq<Outcome>, path: string)
    ensures TotalAt(outcomes, path) <= GrandTotal(outcomes)
  {
    if outcomes != [] { TotalIsPartOfAll(outcomes[..|outcomes| - 1], path); }
  }

  // What is counted at these paths together.
  function SumAt(outcomes: seq<Outcome>, paths: seq<string>): nat {
    if paths == [] then 0 else SumAt(outcomes, paths[..|paths| - 1]) + TotalAt(outcomes, paths[|paths| - 1])
  }

  predicate NoPathTwice(paths: seq<string>) {
    forall i, j :: 0 <= i < j < |paths| ==> paths[i] != paths[j]
  }

  lemma {:induction false} SumWithOneMore(before: seq<Outcome>, o: Outcome, paths: seq<string>)
    requires NoPathTwice(paths)
    ensures SumAt(before + [o], paths) == SumAt(before, paths) + if Counts(o) && o.path in paths then o.occurrences
                                                                 else 0
    decreases |paths|
  {
    if paths != [] {
      var n := |paths| - 1;
      SumWithOneMore(before, o, paths[..n]);
      assert (before + [o])[..|before|] == before;
      assert paths == paths[..n] + [paths[n]];
    }
  }

  /** The tallies add up: the counts of all paths together are everything that was counted. */
  lemma {:induction false} TalliesAddUp(outcomes: seq<Outcome>)
    ensures SumAt(outcomes, Reached(outcomes)) == GrandTotal(outcomes)
  {
    if outcomes != [] {
      var n := |outcomes| - 1;
      var before, o := outcomes[..n], outcomes[n];
      assert outcomes == before + [o];
      TalliesAddUp(before);
      ReachedIsExact(before);
      SumWithOneMore(before, o, Reached(before));
      if Counts(o) && o.path !in Reached(before) { NewPathAddsItsOwn(before, o); }
    }
  }

  lemma NewPathAddsItsOwn(before: seq<Outcome>, o: Outcome)
    requires Counts(o) && TotalAt(before, o.path) == 0
    ensures SumAt(before + [o], Reached(before) + [o.path]) == SumAt(before + [o], Reached(before)) + o.occurrences
  {
    assert (before + [o])[..|before|] == before;
    assert (Reached(before) + [o.path])[..|Reached(before)|] == Reached(before);
  }

  // ---------------------------------------------------------------- the report

  datatype ReportLine = ReportLine(path: string, count: nat, rules: seq<string>)

  function OrderOf(counts: map<string, Tally>, path: string): nat {
    if path in counts then counts[path].order else 0
  }

  function Earlier(counts: map<string, Tally>): (string, string) -> bool {
    (a: string, b: string) => OrderOf(counts, a) < OrderOf(counts, b)
  }

  ghost function LineOf(outcomes: seq<Outcome>, path: string): ReportLine {
    ReportLine(path, TotalAt(outcomes, path), SortedStrings(RulesAt(outcomes, path)))
  }

  /** What the report must be: one line per path with something masked, in the order first
      reached, with the full count and every rule once, in order. */
  ghost predicate Reports(report: seq<ReportLine>, outcomes: seq<Outcome>) {
    && |report| == |Reached(outcomes)|
    && forall i :: 0 <= i < |report| ==> report[i] == LineOf(outcomes, Reached(outcomes)[i])
  }

  // The keys in the order of their rank, each with its own tally.
  ghost predicate Rendered(lines: seq<ReportLine>, counts: map<string, Tally>) {
    && |lines| == |counts|
    && (forall i, j :: 0 <= i < j < |lines| ==>
        OrderOf(counts, lines[i].path) <= OrderOf(counts, lines[j].path) && lines[i].path != lines[j].path)
    && (forall i :: 0 <= i < |lines| ==>
          && lines[i].path in counts && lines[i].count == counts[lines[i].path].occurrences
          && lines[i].rules == SortedStrings(counts[lines[i].path].rules))
  }

  method ListPaths(counts: map<string, Tally>) returns (paths: seq<string>)
    ensures |paths| == |counts| && (forall i :: 0 <= i < |paths| ==> paths[i] in counts)
    ensures forall i, j :: 0 <= i < j < |paths| ==> paths[i] != paths[j]
    ensures forall i, j :: 0 <= i < j < |paths| ==> OrderOf(counts, paths[i]) <= OrderOf(counts, paths[j])
  {
    var collected: seq<string> := [];
    var left := counts.Keys;
    while left != {}
      invariant left <= counts.Keys && |collected| + |left| == |counts.Keys|
      invariant forall path :: path in collected ==> path in counts.Keys && path !in left
      invariant forall i, j :: 0 <= i < j < |collected| ==> collected[i] != collected[j]
      decreases left
    {
      var path :| path in left;
      collected := collected + [path];
      left := left - {path};
    }
    paths := SortStable(Earlier(counts), collected);
    SortStableSorts(Earlier(counts), collected);
    SortKeepsElements(Earlier(counts), collected);
    SortKeepsDistinct(Earlier(counts), collected);
    forall i | 0 <= i < |paths| ensures paths[i] in counts { assert paths[i] in paths; }
    forall i, j | 0 <= i < j < |paths| ensures OrderOf(counts, paths[i]) <= OrderOf(counts, paths[j]) {
      assert !Earlier(counts)(paths[j], paths[i]);
    }
  }

  method Render(counts: map<string, Tally>) returns (report: Option<seq<ReportLine>>)
    ensures report.None? <==> counts == map[]
    ensures report.Some? ==> Rendered(report.value, counts)
  {
    if |counts| == 0 {
      return None;
    }
    var paths := ListPaths(counts);
    var lines: seq<ReportLine> := [];
    for i := 0 to |paths|
      invariant |lines| == i
      invariant forall k :: 0 <= k < i ==>
                  && lines[k].path == paths[k] && lines[k].count == counts[paths[k]].occurrences
                  && lines[k].rules == SortedStrings(counts[paths[k]].rules)
    {
      var rules := SortNames(counts[paths[i]].rules);
      lines := lines + [ReportLine(paths[i], counts[paths[i]].occurrences, rules)];
    }
    return Some(lines);
  }

  lemma {:induction false} RanksClimb(ranks: seq<nat>, k: nat)
    requires k < |ranks| && forall i, j :: 0 <= i < j < |ranks| ==> ranks[i] < ranks[j]
    ensures k <= ranks[k]
  {
    if k > 0 { RanksClimb(ranks, k - 1); }
  }

  // Strictly climbing ranks below their number are 0, 1, 2 and so on.
  lemma {:induction false} RanksAreIndices(ranks: seq<nat>, k: nat)
    requires k < |ranks| && forall i :: 0 <= i < |ranks| ==> ranks[i] < |ranks|
    requires forall i, j :: 0 <= i < j < |ranks| ==> ranks[i] < ranks[j]
    ensures ranks[k] == k
    decreases |ranks| - k
  {
    RanksClimb(ranks, k);
    if k + 1 < |ranks| { RanksAreIndices(ranks, k + 1); }
  }

  lemma {:induction false} ReachedCount(reached: seq<string>, counts: map<string, Tally>)
    requires forall i, j :: 0 <= i < j < |reached| ==> reached[i] != reached[j]
    requires forall path :: path in counts <==> path in reached
    ensures |counts| == |reached|
    decreases |reached|
  {
    if reached == [] {
      assert counts == map[];
    } else {
      var n := |reached| - 1;
      assert reached == reached[..n] + [reached[n]];
      var fewer := counts - {reached[n]};
      assert counts == fewer[reached[n] := counts[reached[n]]];
      ReachedCount(reached[..n], fewer);
    }
  }

  // Each line of a rendering stands where the walk first reached its path.
  lemma LinesAreInReachedOrder(lines: seq<ReportLine>, counts: map<string, Tally>, reached: seq<string>)
    requires Rendered(lines, counts) && |lines| == |reached|
    requires forall i :: 0 <= i < |lines| ==> lines[i].path in reached
    requires forall i :: 0 <= i < |reached| ==> reached[i] in counts && counts[reached[i]].order == i
    ensures forall i :: 0 <= i < |lines| ==> lines[i].path == reached[i]
  {
    var ranks := seq(|lines|, i requires 0 <= i < |lines| => OrderOf(counts, lines[i].path));
    forall i | 0 <= i < |lines| ensures ranks[i] < |lines| && lines[i].path == reached[ranks[i]] {
      var k :| 0 <= k < |reached| && reached[k] == lines[i].path;
    }
    forall i, j | 0 <= i < j < |ranks| ensures ranks[i] < ranks[j] { assert lines[i].path != lines[j].path; }
    forall i | 0 <= i < |lines| ensures lines[i].path == reached[i] { RanksAreIndices(ranks, i); }
  }

  lemma LineIs(line: ReportLine, tally: Tally, total: nat, rules: set<string>)
    requires tally.occurrences == total % UINT32 && tally.rules == rules && total < UINT32
    requires line.count == tally.occurrences && line.rules == SortedStrings(tally.rules)
    ensures line.count == total && line.rules == SortedStrings(rules)
  {
  }

  /** A rendering of the tallies is the report the walk calls for, as long as no total has
      outgrown 32 bits. */
  lemma RenderedIsTheReport(lines: seq<ReportLine>, s: State, outcomes: seq<Outcome>)
    requires Rendered(lines, s.counts) && Tallied(s, outcomes)
    requires forall path :: TotalAt(outcomes, path) < UINT32
    ensures Reports(lines, outcomes)
  {
    var reached := Reached(outcomes);
    assert |lines| == |reached| by {
      ReachedIsExact(outcomes);
      ReachedCount(reached, s.counts);
    }
    LinesAreInReachedOrder(lines, s.counts, reached);
    forall i | 0 <= i < |lines| ensures lines[i] == LineOf(outcomes, reached[i]) {
      LineIs(lines[i], s.counts[reached[i]], TotalAt(outcomes, reached[i]), RulesAt(outcomes, reached[i]));
    }
  }
}
