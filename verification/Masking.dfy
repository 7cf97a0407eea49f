/** Claiming, merging and masking.

    A rule's pattern is a function from a text to the places it matches, in bounds; a match
    may be empty.  Masking runs every rule over the original text, merges what they claim and
    rebuilds the text once.  Beside it stands a reference that knows no regions: it goes
    through the text position by position and asks the claims about each. */
module Masking {
  import opened Wrappers
  import opened Ordering

  datatype Match = Match(start: nat, end: nat)

  datatype Rule = Rule(id: string, find: string -> seq<Match>)

  // A stretch of text, half-open, and the rules that claimed any part of it.
  datatype Span = Span(start: nat, end: nat, rules: seq<string>)

  ghost predicate InBounds(rule: Rule) {
    forall value, i :: 0 <= i < |rule.find(value)| ==> rule.find(value)[i].start <= rule.find(value)[i].end <= |value|
  }

  ghost predicate AllInBounds(rules: seq<Rule>) {
    forall rule :: rule in rules ==> InBounds(rule)
  }

  predicate DistinctRules(rules: seq<Rule>) {
    forall i, j :: 0 <= i < j < |rules| ==> rules[i].id != rules[j].id
  }

  function Marker(id: string): string {
    "[redacted:" + id + "]"
  }

  // ---------------------------------------------------------------- what a position knows

  predicate Covers(span: Span, p: int) {
    span.start <= p < span.end
  }

  predicate Touches(span: Span, p: int) {
    span.start <= p <= span.end
  }

  predicate CoveredAt(spans: seq<Span>, p: int) {
    exists span :: span in spans && Covers(span, p)
  }

  predicate TouchedAt(spans: seq<Span>, p: int) {
    exists span :: span in spans && Touches(span, p)
  }

  // A masked stretch begins here: some claim reaches this point, and none carries over
  // from the position before.
  predicate OpensAt(spans: seq<Span>, p: int) {
    TouchedAt(spans, p) && !CoveredAt(spans, p - 1)
  }

  // The better of two candidates to name the stretch that opens at p: the longer one, and
  // the earlier one on a tie.
  function Better(p: int, best: Option<Span>, next: Span): Option<Span> {
    if next.start == p && (best.None? || next.end > best.value.end) then Some(next) else best
  }

  function Leader(claims: seq<Span>, p: int): Option<Span> {
    Fold((best: Option<Span>, next: Span) => Better(p, best, next), None, claims)
  }

  function MarkerAt(claims: seq<Span>, p: int): string {
    var leader := Leader(claims, p);
    if OpensAt(claims, p) && leader.Some? && leader.value.rules != [] then Marker(leader.value.rules[0]) else ""
  }

  // Positions below n: the mark that belongs before each, and its character unless hidden.
  function Emit(mark: int -> string, hidden: int -> bool, value: string, n: nat): string
    requires n <= |value| + 1
  {
    if n == 0 then ""
    else
      var p := n - 1;
      Emit(mark, hidden, value, p) + mark(p) + if p < |value| && !hidden(p) then [value[p]] else ""
  }

  /** The reference: every position up to and including the end of the text, with a marker
      where a masked stretch opens and its own character unless a claim covers it. */
  function Reference(claims: seq<Span>, value: string): string {
    Emit(p => MarkerAt(claims, p), p => CoveredAt(claims, p), value, |value| + 1)
  }

  // ---------------------------------------------------------------- claiming

  function ClaimsOf(rule: Rule, value: string): seq<Span> {
    var found := rule.find(value);
    seq(|found|, i requires 0 <= i < |found| => Span(found[i].start, found[i].end, [rule.id]))
  }

  function Claims(rules: seq<Rule>, value: string): seq<Span> {
    if rules == [] then [] else Claims(rules[..|rules| - 1], value) + ClaimsOf(rules[|rules| - 1], value)
  }

  predicate IsClaim(span: Span, length: nat) {
    span.start <= span.end <= length && |span.rules| == 1
  }

  lemma {:induction false} ClaimsAreExact(rules: seq<Rule>, value: string)
    ensures forall c :: c in Claims(rules, value) <==> exists rule :: rule in rules && c in ClaimsOf(rule, value)
    ensures AllInBounds(rules) ==> forall c :: c in Claims(rules, value) ==> IsClaim(c, |value|)
  {
    if rules != [] {
      var n := |rules| - 1;
      assert rules == rules[..n] + [rules[n]];
      ClaimsAreExact(rules[..n], value);
      assert AllInBounds(rules) ==> InBounds(rules[n]);
    }
  }

  lemma {:induction false} ClaimsConcat(rules: seq<Rule>, more: seq<Rule>, value: string)
    ensures Claims(rules + more, value) == Claims(rules, value) + Claims(more, value)
    decreases |more|
  {
    if more == [] {
      assert rules + more == rules;
    } else {
      assert (rules + more)[..|rules + more| - 1] == rules + more[..|more| - 1];
      ClaimsConcat(rules, more[..|more| - 1], value);
    }
  }

  // ---------------------------------------------------------------- merging

  predicate SpanLess(a: Span, b: Span) {
    if a.start == b.start then a.end > b.end else a.start < b.start
  }

  // One claim more, no earlier than any before it.
  function Absorb(merged: seq<Span>, next: Span): (r: seq<Span>)
    requires merged != []
    ensures r != []
  {
    var k := |merged| - 1;
    var last := merged[k];
    if next.start > last.end then merged + [next]
    else merged[..k] + [Span(last.start, if next.end > last.end then next.end else last.end, last.rules + next.rules)]
  }

  function MergeSorted(claims: seq<Span>): (r: seq<Span>)
    requires claims != []
    ensures r != []
  {
    var n := |claims| - 1;
    if n == 0 then claims else Absorb(MergeSorted(claims[..n]), claims[n])
  }

  function Merged(claims: seq<Span>): (r: seq<Span>)
    requires claims != []
    ensures r != []
  {
    MergeSorted(SortStable(SpanLess, claims))
  }

  // Ordered, with a strict gap between one region and the next.
  predicate Canonical(spans: seq<Span>) {
    && (forall i :: 0 <= i < |spans| ==> spans[i].start <= spans[i].end)
    && (forall i, j :: 0 <= i < j < |spans| ==> spans[i].end < spans[j].start)
  }

  predicate Inside(claim: Span, region: Span) {
    region.start <= claim.start && claim.end <= region.end
  }

  // The region's rules are those of the claims inside it, and no others.
  ghost predicate NamesItsClaims(region: Span, claims: seq<Span>) {
    forall id :: id in region.rules <==> exists c :: c in claims && Inside(c, region) && id in c.rules
  }

  // What merging must get right, except which rule leads each region.
  ghost predicate Merges(regions: seq<Span>, claims: seq<Span>) {
    && Canonical(regions)
    && (forall p :: TouchedAt(regions, p) <==> TouchedAt(claims, p))
    && (forall p :: CoveredAt(regions, p) <==> CoveredAt(claims, p))
    && (forall region :: region in regions ==> NamesItsClaims(region, claims))
  }

  lemma SpanLessIsWeak()
    ensures WeakOrder(SpanLess)
  {
  }

  lemma AbsorbReaches(merged: seq<Span>, next: Span, p: int)
    requires merged != [] && Canonical(merged) && next.start <= next.end
    requires merged[|merged| - 1].start <= next.start
    ensures Canonical(Absorb(merged, next))
    ensures TouchedAt(Absorb(merged, next), p) <==> TouchedAt(merged, p) || Touches(next, p)
    ensures CoveredAt(Absorb(merged, next), p) <==> CoveredAt(merged, p) || Covers(next, p)
  {
    var k := |merged| - 1;
    var last := merged[k];
    var r := Absorb(merged, next);
    assert merged == merged[..k] + [last];
    assert r[k] in r && last in merged;
    if next.start > last.end {
      assert r[k + 1] in r;
    } else {
      assert forall s :: s in r <==> s in merged[..k] || s == r[k];
      assert Touches(r[k], p) <==> Touches(last, p) || Touches(next, p);
      assert Covers(r[k], p) <==> Covers(last, p) || Covers(next, p);
    }
  }

  ghost predicate Housed(claim: Span, regions: seq<Span>) {
    exists i :: 0 <= i < |regions| && Inside(claim, regions[i])
  }

  // A region that gains the claims of `next`, or one that has nothing to do with it.
  lemma RegionNames(region: Span, grown: Span, claims: seq<Span>, next: Span)
    requires NamesItsClaims(region, claims)
    requires forall c :: c in claims ==> (Inside(c, grown) <==> Inside(c, region))
    requires if Inside(next, grown) then grown.rules == region.rules + next.rules else grown.rules == region.rules
    ensures NamesItsClaims(grown, claims + [next])
  {
    assert next in claims + [next];
  }

  lemma FirstRegionNames(next: Span, claims: seq<Span>)
    requires next.start <= next.end && forall c :: c in claims ==> !Inside(c, next)
    ensures NamesItsClaims(next, claims + [next])
  {
    assert next in claims + [next];
  }

  lemma AbsorbHouses(merged: seq<Span>, next: Span, c: Span)
    requires merged != [] && Canonical(merged) && next.start <= next.end
    requires merged[|merged| - 1].start <= next.start
    requires Housed(c, merged) || c == next
    ensures Housed(c, Absorb(merged, next))
  {
    var r := Absorb(merged, next);
    if Housed(c, merged) {
      var i :| 0 <= i < |merged| && Inside(c, merged[i]);
      assert Inside(c, r[i]);
    } else {
      assert Inside(c, r[|r| - 1]);
    }
  }

  // Where the claims so far lie, seen from the last region.
  lemma HousedBelow(merged: seq<Span>, c: Span)
    requires merged != [] && Canonical(merged) && Housed(c, merged) && c.start <= c.end
    ensures var last := merged[|merged| - 1]; c.end <= last.end && (last.start <= c.start ==> Inside(c, last))
  {
    var i :| 0 <= i < |merged| && Inside(c, merged[i]);
    var k := |merged| - 1;
    assert i < k ==> merged[i].end < merged[k].start;
  }

  lemma AbsorbNames(merged: seq<Span>, next: Span, claims: seq<Span>, i: nat)
    requires merged != [] && Canonical(merged) && next.start <= next.end
    requires merged[|merged| - 1].start <= next.start
    requires forall j :: 0 <= j < |merged| ==> NamesItsClaims(merged[j], claims)
    requires forall c :: c in claims ==> c.start <= c.end && Housed(c, merged)
    requires i < |Absorb(merged, next)|
    ensures NamesItsClaims(Absorb(merged, next)[i], claims + [next])
  {
    var k := |merged| - 1;
    var last, r := merged[k], Absorb(merged, next);
    forall c | c in claims
      ensures c.end <= last.end && (last.start <= c.start ==> Inside(c, last))
    {
      HousedBelow(merged, c);
    }
    if i < k {
      assert merged[i].end < last.start;
      RegionNames(merged[i], r[i], claims, next);
    } else if i == k {
      RegionNames(last, r[k], claims, next);
    } else {
      FirstRegionNames(next, claims);
    }
  }

  lemma LeaderStep(claims: seq<Span>, p: int)
    requires claims != []
    ensures Leader(claims, p) == Better(p, Leader(claims[..|claims| - 1], p), claims[|claims| - 1])
  {
  }

  // The longest claim that starts at p, the earliest of those.
  predicate Leads(claims: seq<Span>, p: int, i: int) {
    && 0 <= i < |claims| && claims[i].start == p
    && (forall j :: 0 <= j < |claims| && claims[j].start == p ==> claims[j].end <= claims[i].end)
    && (forall j :: 0 <= j < i && claims[j].start == p ==> claims[j].end < claims[i].end)
  }

  lemma {:induction false} LeaderIsBest(claims: seq<Span>, p: int) returns (i: int)
    ensures if Leader(claims, p).None? then forall c :: c in claims ==> c.start != p
            else Leads(claims, p, i) && claims[i] == Leader(claims, p).value
  {
    i := 0;
    if claims != [] {
      var n := |claims| - 1;
      i := LeaderIsBest(claims[..n], p);
      LeaderStep(claims, p);
      assert claims == claims[..n] + [claims[n]];
      if Leader(claims[..n], p).None? || (claims[n].start == p && claims[n].end > claims[i].end) {
        i := n;
      }
    }
  }

  lemma LeaderSurvivesSorting(claims: seq<Span>, p: int)
    ensures Leader(SortStable(SpanLess, claims), p) == Leader(claims, p)
  {
    FoldOfSort((best: Option<Span>, next: Span) => Better(p, best, next), SpanLess, None, claims);
  }

  // The region's first rule is the one that leads where it starts.
  ghost predicate Led(region: Span, claims: seq<Span>) {
    var leader := Leader(claims, region.start);
    leader.Some? && leader.value.rules != [] && region.rules != [] && region.rules[0] == leader.value.rules[0]
  }

  ghost predicate Mergeable(claims: seq<Span>) {
    && claims != []
    && (forall c :: c in claims ==> c.start <= c.end && |c.rules| == 1)
  }

  ghost predicate MergedSoFar(regions: seq<Span>, claims: seq<Span>)
    requires claims != []
  {
    && regions != []
    && Canonical(regions)
    && regions[|regions| - 1].start <= claims[|claims| - 1].start
    && (forall i :: 0 <= i < |regions| ==> NamesItsClaims(regions[i], claims) && Led(regions[i], claims))
    && (forall c :: c in claims ==> Housed(c, regions))
  }

  lemma AbsorbLeads(merged: seq<Span>, claims: seq<Span>, next: Span, i: nat)
    requires Mergeable(claims) && MergedSoFar(merged, claims) && |next.rules| == 1
    requires next.start <= next.end && NonDescending(SpanLess, claims + [next])
    requires i < |Absorb(merged, next)|
    ensures Led(Absorb(merged, next)[i], claims + [next])
  {
    var k, r, all := |merged| - 1, Absorb(merged, next), claims + [next];
    var p := r[i].start;
    LeaderStep(all, p);
    assert all[..|claims|] == claims && all[|claims|] == next;
    var l := LeaderIsBest(claims, p);
    if i <= k {
      assert Led(merged[i], claims);
      assert all[l] == claims[l] && !SpanLess(next, all[l]);
    } else {
      forall c | c in claims ensures c.start != p { HousedBelow(merged, c); }
    }
  }

  lemma AbsorbKeeps(merged: seq<Span>, claims: seq<Span>, next: Span)
    requires Mergeable(claims) && MergedSoFar(merged, claims) && |next.rules| == 1
    requires next.start <= next.end && NonDescending(SpanLess, claims + [next])
    ensures MergedSoFar(Absorb(merged, next), claims + [next])
  {
    var r, all := Absorb(merged, next), claims + [next];
    assert all[|claims| - 1] == claims[|claims| - 1] && all[|claims|] == next && !SpanLess(next, all[|claims| - 1]);
    AbsorbReaches(merged, next, 0);
    forall i | 0 <= i < |r| ensures NamesItsClaims(r[i], all) { AbsorbNames(merged, next, claims, i); }
    forall i | 0 <= i < |r| ensures Led(r[i], all) { AbsorbLeads(merged, claims, next, i); }
    forall c | c in all ensures Housed(c, r) { AbsorbHouses(merged, next, c); }
  }

  lemma OneClaimMerges(claim: Span)
    requires claim.start <= claim.end && |claim.rules| == 1
    ensures MergedSoFar([claim], [claim])
  {
    assert [claim][..0] == [] && Inside(claim, [claim][0]);
    LeaderStep([claim], claim.start);
  }

  lemma PrefixIsMergeable(claims: seq<Span>, n: nat)
    requires Mergeable(claims) && NonDescending(SpanLess, claims) && 0 < n == |claims| - 1
    ensures Mergeable(claims[..n]) && NonDescending(SpanLess, claims[..n])
    ensures claims[n].start <= claims[n].end && |claims[n].rules| == 1 && claims[n - 1].start <= claims[n].start
    ensures claims == claims[..n] + [claims[n]]
  {
    assert claims[n] in claims && !SpanLess(claims[n], claims[n - 1]);
  }

  lemma {:induction false} MergeSortedKeeps(claims: seq<Span>)
    requires Mergeable(claims) && NonDescending(SpanLess, claims)
    ensures MergedSoFar(MergeSorted(claims), claims)
  {
    var n := |claims| - 1;
    if n == 0 {
      assert claims[0] in claims && claims == [claims[0]];
      OneClaimMerges(claims[0]);
    } else {
      PrefixIsMergeable(claims, n);
      MergeSortedKeeps(claims[..n]);
      AbsorbKeeps(MergeSorted(claims[..n]), claims[..n], claims[n]);
    }
  }

  lemma {:induction false} MergeSortedReaches(claims: seq<Span>, p: int)
    requires Mergeable(claims) && NonDescending(SpanLess, claims)
    ensures TouchedAt(MergeSorted(claims), p) <==> TouchedAt(claims, p)
    ensures CoveredAt(MergeSorted(claims), p) <==> CoveredAt(claims, p)
  {
    var n := |claims| - 1;
    if n > 0 {
      PrefixIsMergeable(claims, n);
      MergeSortedReaches(claims[..n], p);
      MergeSortedKeeps(claims[..n]);
      AbsorbReaches(MergeSorted(claims[..n]), claims[n], p);
      OneMoreReaches(claims[..n], claims[n], p);
    }
  }

  lemma OneMoreReaches(claims: seq<Span>, next: Span, p: int)
    ensures TouchedAt(claims + [next], p) <==> TouchedAt(claims, p) || Touches(next, p)
    ensures CoveredAt(claims + [next], p) <==> CoveredAt(claims, p) || Covers(next, p)
  {
    assert next in claims + [next];
  }

  /** Merging is exact.  The regions are ordered with strict gaps, reach and cover exactly
      what the claims do, and each names exactly the rules that claimed inside it, led by
      the longest claim at its start (on a tie, the first in policy order). */
  lemma MergeIsExact(claims: seq<Span>)
    requires Mergeable(claims)
    ensures Merges(Merged(claims), claims)
    ensures forall region :: region in Merged(claims) ==> Led(region, claims)
    ensures forall c :: c in claims ==> Housed(c, Merged(claims))
  {
    var sorted := SortStable(SpanLess, claims);
    SpanLessIsWeak();
    SortStableSorts(SpanLess, claims);
    SortKeepsElements(SpanLess, claims);
    MergeSortedKeeps(sorted);
    forall p ensures TouchedAt(Merged(claims), p) <==> TouchedAt(claims, p) { MergeSortedReaches(sorted, p); }
    forall p ensures CoveredAt(Merged(claims), p) <==> CoveredAt(claims, p) { MergeSortedReaches(sorted, p); }
    forall region | region in Merged(claims) ensures NamesItsClaims(region, claims) && Led(region, claims) {
      LeaderSurvivesSorting(claims, region.start);
      assert NamesItsClaims(region, sorted);
    }
  }

  // ---------------------------------------------------------------- order does not matter

  lemma ReachedAtMost(spans: seq<Span>, p: int)
    requires Canonical(spans) && TouchedAt(spans, p)
    ensures spans != [] && p <= spans[|spans| - 1].end
  {
    var span :| span in spans && Touches(span, p);
    var i :| 0 <= i < |spans| && spans[i] == span;
    assert i < |spans| - 1 ==> spans[i].end < spans[|spans| - 1].start;
  }

  lemma NothingBeforeTheLast(spans: seq<Span>)
    requires Canonical(spans) && spans != []
    ensures !CoveredAt(spans, spans[|spans| - 1].start - 1)
  {
    var k := |spans| - 1;
    forall i | 0 <= i < k ensures spans[i].end < spans[k].start {}
  }

  lemma LastIsUnique(a: seq<Span>, b: seq<Span>)
    requires Canonical(a) && Canonical(b) && a != [] && b != []
    requires forall p :: TouchedAt(a, p) <==> TouchedAt(b, p)
    requires forall p :: CoveredAt(a, p) <==> CoveredAt(b, p)
    ensures a[|a| - 1].start == b[|b| - 1].start && a[|a| - 1].end == b[|b| - 1].end
  {
    var x, y := a[|a| - 1], b[|b| - 1];
    assert Touches(x, x.end) && Touches(y, y.end);
    ReachedAtMost(b, x.end);
    ReachedAtMost(a, y.end);
    NothingBeforeTheLast(a);
    NothingBeforeTheLast(b);
    assert x.start < y.start ==> Covers(x, y.start - 1);
    assert y.start < x.start ==> Covers(y, x.start - 1);
  }

  lemma WithoutTheLast(spans: seq<Span>, p: int)
    requires Canonical(spans) && spans != []
    ensures var k := |spans| - 1;
            && (TouchedAt(spans[..k], p) <==> TouchedAt(spans, p) && p < spans[k].start)
            && (CoveredAt(spans[..k], p) <==> CoveredAt(spans, p) && p < spans[k].start)
  {
    var k := |spans| - 1;
    assert spans == spans[..k] + [spans[k]];
    forall i | 0 <= i < k ensures spans[i].end < spans[k].start {}
  }

  predicate SameBoundaries(a: seq<Span>, b: seq<Span>) {
    |a| == |b| && forall i :: 0 <= i < |a| ==> a[i].start == b[i].start && a[i].end == b[i].end
  }

  /** Strict gaps make regions unique: what is reached and what is covered say it all. */
  lemma {:induction false} CanonicalIsUnique(a: seq<Span>, b: seq<Span>)
    requires Canonical(a) && Canonical(b)
    requires forall p :: TouchedAt(a, p) <==> TouchedAt(b, p)
    requires forall p :: CoveredAt(a, p) <==> CoveredAt(b, p)
    ensures SameBoundaries(a, b)
    decreases |a|
  {
    assert b != [] ==> b[0] in b && Touches(b[0], b[0].start) && TouchedAt(b, b[0].start);
    if a != [] {
      assert a[0] in a && Touches(a[0], a[0].start) && TouchedAt(a, a[0].start);
      LastIsUnique(a, b);
      var x, y := a[..|a| - 1], b[..|b| - 1];
      forall p ensures (TouchedAt(x, p) <==> TouchedAt(y, p)) && (CoveredAt(x, p) <==> CoveredAt(y, p)) {
        WithoutTheLast(a, p);
        WithoutTheLast(b, p);
      }
      CanonicalIsUnique(x, y);
    }
  }

  /** The same claims in any order, and any number of times, merge to the same regions, with
      the same rules in each. */
  lemma MergingIgnoresOrder(a: seq<Span>, b: seq<Span>)
    requires Mergeable(a) && Mergeable(b) && forall c :: c in a <==> c in b
    ensures SameBoundaries(Merged(a), Merged(b))
    ensures forall i, id :: 0 <= i < |Merged(a)| ==> (id in Merged(a)[i].rules <==> id in Merged(b)[i].rules)
  {
    MergeIsExact(a);
    MergeIsExact(b);
    var x, y := Merged(a), Merged(b);
    forall p ensures TouchedAt(x, p) <==> TouchedAt(y, p) { assert TouchedAt(a, p) <==> TouchedAt(b, p); }
    forall p ensures CoveredAt(x, p) <==> CoveredAt(y, p) { assert CoveredAt(a, p) <==> CoveredAt(b, p); }
    CanonicalIsUnique(x, y);
    forall i, id | 0 <= i < |x| ensures id in x[i].rules <==> id in y[i].rules {
      assert NamesItsClaims(x[i], a) && NamesItsClaims(y[i], b);
      assert forall c :: Inside(c, x[i]) <==> Inside(c, y[i]);
    }
  }

  lemma SameRulesSameClaims(rules: seq<Rule>, other: seq<Rule>, value: string)
    requires forall rule :: rule in rules <==> rule in other
    ensures forall c :: c in Claims(rules, value) <==> c in Claims(other, value)
  {
    ClaimsAreExact(rules, value);
    ClaimsAreExact(other, value);
  }

  lemma ClaimsMerge(rules: seq<Rule>, value: string)
    requires AllInBounds(rules) && Claims(rules, value) != []
    ensures Mergeable(Claims(rules, value))
    ensures forall c :: c in Claims(rules, value) ==> c.end <= |value|
  {
    ClaimsAreExact(rules, value);
    assert forall c :: c in Claims(rules, value) ==> IsClaim(c, |value|);
  }

  /** Listing the rules in another order moves no boundary, changes no count and leaves
      every region the same rules. */
  lemma MaskingIgnoresRuleOrder(rules: seq<Rule>, other: seq<Rule>, value: string)
    requires AllInBounds(rules) && forall rule :: rule in rules <==> rule in other
    ensures Claims(rules, value) == [] <==> Claims(other, value) == []
    ensures Claims(rules, value) != [] ==>
              && SameBoundaries(Merged(Claims(rules, value)), Merged(Claims(other, value)))
              && forall i, id :: 0 <= i < |Merged(Claims(rules, value))| ==>
                   (id in Merged(Claims(rules, value))[i].rules <==> id in Merged(Claims(other, value))[i].rules)
  {
    SameRulesSameClaims(rules, other, value);
    var a, b := Claims(rules, value), Claims(other, value);
    assert a != [] ==> a[0] in b;
    assert b != [] ==> b[0] in a;
    if a != [] {
      ClaimsMerge(rules, value);
      MergingIgnoresOrder(a, b);
    }
  }

  // ---------------------------------------------------------------- more rules mask more

  // Every region of `small` lies inside one of `big`.
  lemma RegionsGrow(small: seq<Span>, big: seq<Span>, k: nat)
    requires Canonical(small) && Canonical(big) && k < |small|
    requires forall p :: TouchedAt(small, p) ==> TouchedAt(big, p)
    requires forall p :: CoveredAt(small, p) ==> CoveredAt(big, p)
    ensures Housed(small[k], big)
  {
    var region := small[k];
    assert region in small && Touches(region, region.start) && TouchedAt(small, region.start);
    var span :| span in big && Touches(span, region.start);
    var i :| 0 <= i < |big| && big[i] == span;
    var q := region.start;
    while q < region.end
      invariant region.start <= q <= region.end && q <= big[i].end
    {
      assert Covers(region, q) && CoveredAt(small, q);
      var other :| other in big && Covers(other, q);
      var j :| 0 <= j < |big| && big[j] == other;
      assert i == j;
      q := q + 1;
    }
    assert Inside(region, big[i]);
  }

  /** Appending rules only ever masks more: every position masked before is masked after,
      and every masked stretch lies inside one. */
  lemma AppendedRulesOnlyMaskMore(rules: seq<Rule>, more: seq<Rule>, value: string)
    requires AllInBounds(rules) && AllInBounds(more)
    ensures forall p :: CoveredAt(Claims(rules, value), p) ==> CoveredAt(Claims(rules + more, value), p)
    ensures Claims(rules, value) != [] ==>
              && Claims(rules + more, value) != []
              && forall region :: region in Merged(Claims(rules, value)) ==>
                  Housed(region, Merged(Claims(rules + more, value)))
  {
    var few, all := Claims(rules, value), Claims(rules + more, value);
    ClaimsConcat(rules, more, value);
    assert forall c :: c in few ==> c in all;
    if few != [] {
      ClaimsMerge(rules, value);
      ClaimsMerge(rules + more, value);
      MergeIsExact(few);
      MergeIsExact(all);
      var small, big := Merged(few), Merged(all);
      forall p | TouchedAt(small, p) ensures TouchedAt(big, p) { assert TouchedAt(few, p); assert TouchedAt(all, p); }
      forall p | CoveredAt(small, p) ensures CoveredAt(big, p) { assert CoveredAt(few, p); assert CoveredAt(all, p); }
      forall k | 0 <= k < |small| ensures Housed(small[k], big) { RegionsGrow(small, big, k); }
    }
  }
}
