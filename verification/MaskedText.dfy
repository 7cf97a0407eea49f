/** From regions to masked text, a count and the rules that matched; and the methods that do
    it, proved to compute what the reference reads off the claims. */
module MaskedText {
  import opened Ordering
  import opened Masking

  datatype Masked = Masked(text: string, occurrences: nat, matched: seq<string>)

  predicate InText(regions: seq<Span>, length: nat) {
    Canonical(regions) && forall i :: 0 <= i < |regions| ==> regions[i].end <= length && regions[i].rules != []
  }

  function Cursor(regions: seq<Span>): nat {
    if regions == [] then 0 else regions[|regions| - 1].end
  }

  // The text up to the end of the last region, with a marker for each.
  function RebuiltTo(value: string, regions: seq<Span>): string
    requires InText(regions, |value|)
  {
    if regions == [] then ""
    else
      var k := |regions| - 1;
      RebuiltTo(value, regions[..k]) + value[Cursor(regions[..k])..regions[k].start] + Marker(regions[k].rules[0])
  }

  function Rebuilt(value: string, regions: seq<Span>): string
    requires InText(regions, |value|)
  {
    RebuiltTo(value, regions) + value[Cursor(regions)..]
  }

  // The identifiers of the rules listed here, in their order.
  function Listed(rules: seq<Rule>, seen: set<string>): seq<string> {
    if rules == [] then []
    else
      var id := rules[|rules| - 1].id;
      Listed(rules[..|rules| - 1], seen) + if id in seen then [id] else []
  }

  function RuleIds(spans: seq<Span>): set<string> {
    set span, id | span in spans && id in span.rules :: id
  }

  lemma MergedInText(rules: seq<Rule>, value: string)
    requires AllInBounds(rules) && Claims(rules, value) != []
    ensures InText(Merged(Claims(rules, value)), |value|)
  {
    var claims, regions := Claims(rules, value), Merged(Claims(rules, value));
    ClaimsMerge(rules, value);
    MergeIsExact(claims);
    forall i | 0 <= i < |regions| ensures regions[i].end <= |value| && regions[i].rules != [] {
      assert Led(regions[i], claims);
      assert Touches(regions[i], regions[i].end) && TouchedAt(regions, regions[i].end);
      assert TouchedAt(claims, regions[i].end);
    }
  }

  function MaskOf(rules: seq<Rule>, value: string): Masked
    requires AllInBounds(rules)
  {
    var claims := Claims(rules, value);
    if value == "" || claims == [] then Masked(value, 0, [])
    else
      MergedInText(rules, value);
      Masked(Rebuilt(value, Merged(claims)), |Merged(claims)|, Listed(rules, RuleIds(Merged(claims))))
  }

  // ---------------------------------------------------------------- the text

  // Nothing hidden in [a, b), and no mark but the one at a.
  lemma {:induction false} PlainStretch(mark: int -> string, hidden: int -> bool, value: string, a: nat, b: nat)
    requires a < b <= |value|
    requires forall p :: a <= p < b ==> !hidden(p)
    requires forall p :: a < p < b ==> mark(p) == ""
    ensures Emit(mark, hidden, value, b) == Emit(mark, hidden, value, a) + mark(a) + value[a..b]
    decreases b
  {
    if a + 1 < b {
      PlainStretch(mark, hidden, value, a, b - 1);
      assert value[a..b] == value[a..b - 1] + [value[b - 1]];
    } else {
      assert value[a..b] == [value[a]];
    }
  }

  // One stretch hidden from a to b: its mark, once, and none of its text.
  lemma {:induction false} HiddenStretch(mark: int -> string, hidden: int -> bool, value: string, a: nat, b: nat)
    requires a <= b <= |value|
    requires forall p :: a <= p < b ==> hidden(p)
    requires forall p :: a < p <= b ==> mark(p) == ""
    ensures Emit(mark, hidden, value, b) + mark(b) == Emit(mark, hidden, value, a) + mark(a)
    decreases b
  {
    if a < b { HiddenStretch(mark, hidden, value, a, b - 1); }
  }

  // Where one region stands among the others.
  lemma AroundRegion(regions: seq<Span>, k: nat)
    requires Canonical(regions) && k < |regions|
    ensures OpensAt(regions, regions[k].start)
    ensures forall p :: regions[k].start <= p < regions[k].end ==> CoveredAt(regions, p)
    ensures forall p :: Cursor(regions[..k]) <= p < regions[k].start ==> !CoveredAt(regions, p)
    ensures forall p :: (k > 0 ==> Cursor(regions[..k]) < p) && p < regions[k].start ==> !TouchedAt(regions, p)
  {
    var region := regions[k];
    assert region in regions && Touches(region, region.start);
    forall p | region.start <= p < region.end ensures CoveredAt(regions, p) { assert Covers(region, p); }
    assert forall i, j :: 0 <= i < j < |regions| ==> regions[i].end < regions[j].start;
  }

  lemma AfterRegions(regions: seq<Span>, p: int)
    requires Canonical(regions) && regions != []
    ensures p >= Cursor(regions) ==> !CoveredAt(regions, p)
    ensures p > Cursor(regions) ==> !TouchedAt(regions, p)
  {
    if TouchedAt(regions, p) { ReachedAtMost(regions, p); }
    if CoveredAt(regions, p) {
      var span :| span in regions && Covers(span, p);
      assert Touches(span, p + 1) && TouchedAt(regions, p + 1);
      ReachedAtMost(regions, p + 1);
    }
  }

  // What one region asks of marks and hidden positions: its own mark and stretch, and
  // plain text since the region before.
  ghost predicate MarksOne(regions: seq<Span>, i: nat, mark: int -> string, hidden: int -> bool)
    requires i < |regions|
  {
    var from, region := Cursor(regions[..i]), regions[i];
    && region.rules != [] && mark(region.start) == Marker(region.rules[0])
    && (forall p :: region.start <= p < region.end ==> hidden(p))
    && (forall p :: region.start < p <= region.end ==> mark(p) == "")
    && (forall p :: from <= p < region.start ==> !hidden(p))
    && (forall p :: (if i == 0 then 0 <= p else from < p) && p < region.start ==> mark(p) == "")
  }

  ghost predicate Marks(regions: seq<Span>, mark: int -> string, hidden: int -> bool) {
    && (forall i :: 0 <= i < |regions| ==> MarksOne(regions, i, mark, hidden))
    && (forall p :: Cursor(regions) <= p ==> !hidden(p))
    && (forall p :: Cursor(regions) < p ==> mark(p) == "")
  }

  // The text before a region, then the region: what was written up to a, and on from there.
  lemma GapIsEmitted(mark: int -> string, hidden: int -> bool, value: string, a: nat, b: nat, written: string)
    requires a <= b <= |value|
    requires forall p :: a <= p < b ==> !hidden(p)
    requires forall p :: a < p < b ==> mark(p) == ""
    requires if a < b then written == Emit(mark, hidden, value, a) + mark(a)
             else written == Emit(mark, hidden, value, a)
    ensures written + value[a..b] == Emit(mark, hidden, value, b)
  {
    if a < b {
      PlainStretch(mark, hidden, value, a, b);
    } else {
      assert value[a..b] == "";
    }
  }

  lemma RegionIsEmitted(mark: int -> string, hidden: int -> bool, value: string, region: Span, a: nat, written: string)
    requires a <= region.start <= region.end <= |value| && region.rules != []
    requires mark(region.start) == Marker(region.rules[0])
    requires forall p :: region.start <= p < region.end ==> hidden(p)
    requires forall p :: region.start < p <= region.end ==> mark(p) == ""
    requires forall p :: a <= p < region.start ==> !hidden(p)
    requires forall p :: a < p < region.start ==> mark(p) == ""
    requires if a < region.start then written == Emit(mark, hidden, value, a) + mark(a)
             else written == Emit(mark, hidden, value, a)
    ensures written + value[a..region.start] + Marker(region.rules[0])
                == Emit(mark, hidden, value, region.end) + mark(region.end)
  {
    GapIsEmitted(mark, hidden, value, a, region.start, written);
    HiddenStretch(mark, hidden, value, region.start, region.end);
  }

  lemma {:induction false} RebuiltToIsEmitted(value: string, regions: seq<Span>, mark: int -> string,
                                              hidden: int -> bool, k: nat)
    requires InText(regions, |value|) && 0 < k <= |regions|
    requires forall i :: 0 <= i < k ==> MarksOne(regions, i, mark, hidden)
    ensures RebuiltTo(value, regions[..k]) == Emit(mark, hidden, value, regions[k - 1].end) + mark(regions[k - 1].end)
  {
    var before := regions[..k - 1];
    assert regions[..k][..k - 1] == before;
    assert MarksOne(regions, k - 1, mark, hidden);
    if k > 1 {
      RebuiltToIsEmitted(value, regions, mark, hidden, k - 1);
      assert Cursor(before) == regions[k - 2].end < regions[k - 1].start;
    } else {
      assert RebuiltTo(value, before) == "" && Cursor(before) == 0;
    }
    RegionIsEmitted(mark, hidden, value, regions[k - 1], Cursor(before), RebuiltTo(value, before));
  }

  lemma PlainTail(mark: int -> string, hidden: int -> bool, value: string, c: nat)
    requires c <= |value|
    requires forall p :: c <= p ==> !hidden(p)
    requires forall p :: c < p ==> mark(p) == ""
    ensures Emit(mark, hidden, value, |value| + 1) == Emit(mark, hidden, value, c) + mark(c) + value[c..]
  {
    var n := |value|;
    assert value[c..n] == value[c..];
    if c < n {
      PlainStretch(mark, hidden, value, c, n);
      assert Emit(mark, hidden, value, n + 1) == Emit(mark, hidden, value, n);
    }
  }

  lemma RebuiltIsEmitted(value: string, regions: seq<Span>, mark: int -> string, hidden: int -> bool)
    requires regions != [] && InText(regions, |value|) && Marks(regions, mark, hidden)
    ensures Rebuilt(value, regions) == Emit(mark, hidden, value, |value| + 1)
  {
    var k := |regions|;
    assert regions[..k] == regions;
    RebuiltToIsEmitted(value, regions, mark, hidden, k);
    PlainTail(mark, hidden, value, regions[k - 1].end);
  }

  lemma MarkOnlyWhereOpen(claims: seq<Span>, p: int)
    ensures !OpensAt(claims, p) ==> MarkerAt(claims, p) == ""
  {
  }

  lemma MergedMarksOne(claims: seq<Span>, i: nat, mark: int -> string, hidden: int -> bool)
    requires Mergeable(claims) && i < |Merged(claims)|
    requires forall p :: mark(p) == MarkerAt(claims, p)
    requires forall p :: hidden(p) <==> CoveredAt(claims, p)
    ensures MarksOne(Merged(claims), i, mark, hidden)
  {
    MergeIsExact(claims);
    var regions := Merged(claims);
    AroundRegion(regions, i);
    assert Led(regions[i], claims);
    assert OpensAt(claims, regions[i].start);
    forall p | !OpensAt(regions, p) ensures mark(p) == "" { MarkOnlyWhereOpen(claims, p); }
  }

  lemma MergedMarks(claims: seq<Span>, mark: int -> string, hidden: int -> bool)
    requires Mergeable(claims)
    requires forall p :: mark(p) == MarkerAt(claims, p)
    requires forall p :: hidden(p) <==> CoveredAt(claims, p)
    ensures Marks(Merged(claims), mark, hidden)
  {
    var regions := Merged(claims);
    forall i | 0 <= i < |regions|
      ensures MarksOne(regions, i, mark, hidden)
    {
      MergedMarksOne(claims, i, mark, hidden);
    }
    MergeIsExact(claims);
    forall p | Cursor(regions) <= p ensures !hidden(p) { AfterRegions(regions, p); }
    forall p | Cursor(regions) < p ensures mark(p) == "" { AfterRegions(regions, p); MarkOnlyWhereOpen(claims, p); }
  }

  /** Masking is the reference: going region by region writes exactly what asking the claims
      about every position does. */
  lemma MaskedTextIsReference(rules: seq<Rule>, value: string)
    requires AllInBounds(rules)
    ensures value != "" ==> MaskOf(rules, value).text == Reference(Claims(rules, value), value)
    ensures value == "" ==> MaskOf(rules, value).text == ""
  {
    var claims := Claims(rules, value);
    var mark, hidden := p => MarkerAt(claims, p), p => CoveredAt(claims, p);
    if claims == [] {
      PlainTail(mark, hidden, value, 0);
      assert value[0..] == value;
    } else if value != "" {
      ClaimsMerge(rules, value);
      MergedInText(rules, value);
      MergedMarks(claims, mark, hidden);
      RebuiltIsEmitted(value, Merged(claims), mark, hidden);
    }
  }

  // ---------------------------------------------------------------- the count

  function Starts(regions: seq<Span>): set<int> {
    if regions == [] then {} else Starts(regions[..|regions| - 1]) + {regions[|regions| - 1].start}
  }

  lemma {:induction false} StartsAreDistinct(regions: seq<Span>)
    requires Canonical(regions)
    ensures |Starts(regions)| == |regions|
    ensures forall p :: p in Starts(regions) ==> regions != [] && p <= regions[|regions| - 1].start
  {
    if regions != [] {
      var k := |regions| - 1;
      StartsAreDistinct(regions[..k]);
      assert k > 0 ==> regions[k - 1].end < regions[k].start;
    }
  }

  lemma {:induction false} StartsAreStarts(regions: seq<Span>, p: int)
    ensures p in Starts(regions) <==> exists i :: 0 <= i < |regions| && regions[i].start == p
  {
    if regions != [] {
      var k := |regions| - 1;
      StartsAreStarts(regions[..k], p);
      if i :| 0 <= i < |regions| && regions[i].start == p { assert i < k ==> regions[..k][i].start == p; }
      if i :| 0 <= i < k && regions[..k][i].start == p { assert regions[i].start == p; }
    }
  }

  lemma {:induction false} StartsClimb(regions: seq<Span>, k: nat)
    requires Canonical(regions) && k < |regions|
    ensures k <= regions[k].start
  {
    if k > 0 { StartsClimb(regions, k - 1); }
  }

  lemma StartsAreWhereItOpens(regions: seq<Span>, p: int)
    requires Canonical(regions)
    ensures OpensAt(regions, p) <==> exists i :: 0 <= i < |regions| && regions[i].start == p
  {
    if OpensAt(regions, p) {
      var span :| span in regions && Touches(span, p);
      var i :| 0 <= i < |regions| && regions[i] == span;
      assert !Covers(span, p - 1);
    }
    if i :| 0 <= i < |regions| && regions[i].start == p { AroundRegion(regions, i); }
  }

  lemma OpensWhereARegionStarts(claims: seq<Span>, p: int)
    requires Mergeable(claims)
    ensures OpensAt(claims, p) <==> p in Starts(Merged(claims))
  {
    MergeIsExact(claims);
    StartsAreWhereItOpens(Merged(claims), p);
    StartsAreStarts(Merged(claims), p);
  }

  function OpenPositions(claims: seq<Span>, n: nat): set<int> {
    set p | 0 <= p <= n && OpensAt(claims, p)
  }

  lemma OpenPositionsAreStarts(claims: seq<Span>, n: nat)
    requires Mergeable(claims) && forall c :: c in claims ==> c.end <= n
    ensures OpenPositions(claims, n) == Starts(Merged(claims))
  {
    forall p: int ensures p in OpenPositions(claims, n) <==> p in Starts(Merged(claims)) {
      OpensWhereARegionStarts(claims, p);
    }
  }

  /** The count is the number of places where a masked stretch opens, one per region, and at
      most one more than the text has bytes. */
  lemma CountIsExact(rules: seq<Rule>, value: string)
    requires AllInBounds(rules)
    ensures value != "" ==> MaskOf(rules, value).occurrences == |OpenPositions(Claims(rules, value), |value|)|
    ensures MaskOf(rules, value).occurrences <= |value| + 1 && (value == "" ==> MaskOf(rules, value).occurrences == 0)
  {
    var claims := Claims(rules, value);
    if claims == [] {
      assert OpenPositions(claims, |value|) == {};
    } else {
      ClaimsMerge(rules, value);
      MergedInText(rules, value);
      OpenPositionsAreStarts(claims, |value|);
      StartsAreDistinct(Merged(claims));
      StartsClimb(Merged(claims), |Merged(claims)| - 1);
    }
  }

  // ---------------------------------------------------------------- which rules matched

  // The rules with a match, in policy order.
  function Matching(rules: seq<Rule>, value: string): seq<string> {
    if rules == [] then []
    else
      var rule := rules[|rules| - 1];
      Matching(rules[..|rules| - 1], value) + if rule.find(value) != [] then [rule.id] else []
  }

  ghost predicate SomeMatch(rules: seq<Rule>, value: string, id: string) {
    exists rule :: rule in rules && rule.id == id && rule.find(value) != []
  }

  lemma ClaimIsNamed(claims: seq<Span>, regions: seq<Span>, c: Span, id: string)
    requires c in claims && id in c.rules && Housed(c, regions)
    requires forall region :: region in regions ==> NamesItsClaims(region, claims)
    ensures id in RuleIds(regions)
  {
    var i :| 0 <= i < |regions| && Inside(c, regions[i]);
    assert NamesItsClaims(regions[i], claims);
    assert regions[i] in regions && id in regions[i].rules;
  }

  lemma NameIsClaimed(claims: seq<Span>, region: Span, id: string)
    requires id in region.rules && NamesItsClaims(region, claims)
    ensures id in RuleIds(claims)
  {
  }

  lemma MergedKeepsRuleIds(claims: seq<Span>)
    requires Mergeable(claims)
    ensures RuleIds(Merged(claims)) == RuleIds(claims)
  {
    MergeIsExact(claims);
    var regions := Merged(claims);
    forall c, id | c in claims && id in c.rules ensures id in RuleIds(regions) { ClaimIsNamed(claims, regions, c, id); }
    forall region, id | region in regions && id in region.rules
      ensures id in RuleIds(claims)
    {
      NameIsClaimed(claims, region, id);
    }
  }

  lemma ClaimedRuleIds(rules: seq<Rule>, value: string, id: string)
    ensures id in RuleIds(Claims(rules, value)) <==> SomeMatch(rules, value, id)
  {
    ClaimsAreExact(rules, value);
    var claims := Claims(rules, value);
    if id in RuleIds(claims) {
      var c :| c in claims && id in c.rules;
      var rule :| rule in rules && c in ClaimsOf(rule, value);
      assert rule.id == id;
    }
    if SomeMatch(rules, value, id) {
      var rule :| rule in rules && rule.id == id && rule.find(value) != [];
      var c := ClaimsOf(rule, value)[0];
      assert c in ClaimsOf(rule, value) && c in claims && c.rules[0] == id && id in c.rules;
    }
  }

  lemma {:induction false} ListedIsMatching(rules: seq<Rule>, value: string, seen: set<string>)
    requires forall rule :: rule in rules ==> (rule.id in seen <==> rule.find(value) != [])
    ensures Listed(rules, seen) == Matching(rules, value)
  {
    if rules != [] { ListedIsMatching(rules[..|rules| - 1], value, seen); }
  }

  /** The reported rules are exactly those with a match, in policy order. */
  lemma MatchedAreExact(rules: seq<Rule>, value: string)
    requires AllInBounds(rules) && DistinctRules(rules) && value != ""
    ensures MaskOf(rules, value).matched == Matching(rules, value)
  {
    var claims := Claims(rules, value);
    forall rule | rule in rules ensures rule.id in RuleIds(claims) <==> rule.find(value) != [] {
      ClaimedRuleIds(rules, value, rule.id);
      if SomeMatch(rules, value, rule.id) {
        var other :| other in rules && other.id == rule.id && other.find(value) != [];
        assert other == rule;
      }
    }
    ListedIsMatching(rules, value, RuleIds(claims));
    if claims == [] {
      ListedNone(rules);
    } else {
      ClaimsMerge(rules, value);
      MergedKeepsRuleIds(claims);
    }
  }

  lemma {:induction false} ListedNone(rules: seq<Rule>)
    ensures Listed(rules, {}) == []
  {
    if rules != [] { ListedNone(rules[..|rules| - 1]); }
  }

  // ---------------------------------------------------------------- the methods

  method Claim(rules: seq<Rule>, value: string) returns (claimed: seq<Span>)
    ensures claimed == Claims(rules, value)
  {
    claimed := [];
    for i := 0 to |rules|
      invariant claimed == Claims(rules[..i], value)
    {
      assert rules[..i + 1][..i] == rules[..i];
      var found := rules[i].find(value);
      ghost var all := ClaimsOf(rules[i], value);
      for k := 0 to |found|
        invariant claimed == Claims(rules[..i], value) + all[..k]
      {
        assert all[..k + 1] == all[..k] + [all[k]];
        claimed := claimed + [Span(found[k].start, found[k].end, [rules[i].id])];
      }
      assert all[..|found|] == all;
    }
    assert rules[..|rules|] == rules;
  }

  // One claim more: it opens a region, or extends the last.
  method MergeNext(merged: seq<Span>, next: Span) returns (r: seq<Span>)
    requires merged != []
    ensures r == Absorb(merged, next)
  {
    var k := |merged| - 1;
    var last := merged[k];
    if next.start > last.end {
      return merged + [next];
    }
    if next.end > last.end {
      last := last.(end := next.end);
    }
    last := last.(rules := last.rules + next.rules);
    assert merged[k := last] == merged[..k] + [last];
    return merged[k := last];
  }

  method Merge(claimed: seq<Span>) returns (merged: seq<Span>)
    requires claimed != []
    ensures merged == Merged(claimed)
  {
    var sorted := SortStable(SpanLess, claimed);
    merged := MergeInOrder(sorted);
  }

  method MergeInOrder(sorted: seq<Span>) returns (merged: seq<Span>)
    requires sorted != []
    ensures merged == MergeSorted(sorted)
  {
    merged := [sorted[0]];
    for i := 1 to |sorted|
      invariant merged == MergeSorted(sorted[..i])
    {
      assert sorted[..i + 1][..i] == sorted[..i];
      merged := MergeNext(merged, sorted[i]);
    }
    assert sorted[..|sorted|] == sorted;
  }

  method Rebuild(value: string, regions: seq<Span>) returns (rebuilt: string, seen: set<string>)
    requires InText(regions, |value|)
    ensures rebuilt == Rebuilt(value, regions) && seen == RuleIds(regions)
  {
    rebuilt, seen := "", {};
    var cursor := 0;
    for i := 0 to |regions|
      invariant cursor == Cursor(regions[..i]) && rebuilt == RebuiltTo(value, regions[..i])
      invariant seen == RuleIds(regions[..i])
    {
      assert regions[..i + 1] == regions[..i] + [regions[i]];
      assert regions[..i + 1][..i] == regions[..i];
      assert i > 0 ==> regions[i - 1].end < regions[i].start;
      rebuilt := rebuilt + value[cursor..regions[i].start] + Marker(regions[i].rules[0]);
      cursor := regions[i].end;
      seen := seen + set id | id in regions[i].rules;
    }
    assert regions[..|regions|] == regions;
    rebuilt := rebuilt + value[cursor..];
  }

  method Mask(rules: seq<Rule>, value: string) returns (masked: string, occurrences: nat, matched: seq<string>)
    requires AllInBounds(rules)
    ensures MaskOf(rules, value) == Masked(masked, occurrences, matched)
  {
    if value == "" {
      return value, 0, [];
    }
    var claimed := Claim(rules, value);
    if |claimed| == 0 {
      return value, 0, [];
    }
    MergedInText(rules, value);
    var merged := Merge(claimed);
    var rebuilt, seen := Rebuild(value, merged);
    matched := [];
    for i := 0 to |rules|
      invariant matched == Listed(rules[..i], seen)
    {
      assert rules[..i + 1][..i] == rules[..i];
      if rules[i].id in seen {
        matched := matched + [rules[i].id];
      }
    }
    assert rules[..|rules|] == rules;
    return rebuilt, |merged|, matched;
  }
}
