/** Which rule a marker names.

    A region's rules are meant to stand in policy order, the first naming the marker.  They
    stand in the order the claims were merged instead: by start, then longest first.  Here is
    an input where the two differ, and exactly when they agree on the marker. */
module MarkerNames {
  import opened Ordering
  import opened Masking

  // The claims of one rule stand together.
  ghost predicate Grouped(claims: seq<Span>) {
    forall i, j, k :: 0 <= i <= j <= k < |claims| && claims[i].rules == claims[k].rules ==>
        claims[j].rules == claims[i].rules
  }

  lemma ClaimNamesItsRule(rules: seq<Rule>, value: string, i: nat)
    requires i < |Claims(rules, value)|
    ensures exists rule :: rule in rules && Claims(rules, value)[i].rules == [rule.id]
  {
    ClaimsAreExact(rules, value);
    assert Claims(rules, value)[i] in Claims(rules, value);
  }

  lemma {:induction false} ClaimsAreGrouped(rules: seq<Rule>, value: string)
    requires DistinctRules(rules)
    ensures Grouped(Claims(rules, value))
  {
    if rules != [] {
      var n := |rules| - 1;
      var before, rule := rules[..n], rules[n];
      ClaimsAreGrouped(before, value);
      var earlier, added := Claims(before, value), ClaimsOf(rule, value);
      forall i | 0 <= i < |earlier| ensures earlier[i].rules != [rule.id] {
        ClaimNamesItsRule(before, value, i);
        var other :| other in before && earlier[i].rules == [other.id];
        var j :| 0 <= j < n && rules[j] == other;
      }
      assert forall i :: 0 <= i < |added| ==> added[i].rules == [rule.id];
    }
  }

  predicate FirstInside(claims: seq<Span>, region: Span, f: int) {
    0 <= f < |claims| && Inside(claims[f], region) && forall j :: 0 <= j < f ==> !Inside(claims[j], region)
  }

  // This claim starts the region, and none that does so is longer.
  predicate StartsIt(claims: seq<Span>, region: Span, c: Span) {
    c in claims && c.start == region.start && forall d :: d in claims && d.start == region.start ==> d.end <= c.end
  }

  lemma StarterIsInside(claims: seq<Span>, region: Span, c: Span)
    requires Mergeable(claims) && region in Merged(claims) && c in claims && c.start == region.start
    ensures Inside(c, region)
  {
    MergeIsExact(claims);
    var regions := Merged(claims);
    assert Housed(c, regions);
    var i :| 0 <= i < |regions| && Inside(c, regions[i]);
    var k :| 0 <= k < |regions| && regions[k] == region;
    assert i == k;
  }

  lemma MarkerNamesFirstClaimIff(claims: seq<Span>, region: Span, f: int)
    requires Mergeable(claims) && Grouped(claims)
    requires region in Merged(claims) && FirstInside(claims, region, f)
    ensures region.rules != [] && claims[f].rules != []
    ensures region.rules[0] == claims[f].rules[0] <==>
                exists c :: StartsIt(claims, region, c) && c.rules == claims[f].rules
  {
    assert Led(region, claims) && claims[f] in claims by { MergeIsExact(claims); }
    var l := LeaderIsBest(claims, region.start);
    assert claims[l] in claims;
    StarterIsInside(claims, region, claims[l]);
    assert f <= l && StartsIt(claims, region, claims[l]);
    if c :| StartsIt(claims, region, c) && c.rules == claims[f].rules {
      var j :| 0 <= j < |claims| && claims[j] == c;
      assert l <= j;
    }
  }

  /** The marker names the first rule of the policy that claimed inside the region exactly
      when that rule has a claim that starts the region and is as long as any that does. */
  lemma MarkerNamesPolicyFirstIff(rules: seq<Rule>, value: string, region: Span, f: int)
    requires AllInBounds(rules) && DistinctRules(rules) && Claims(rules, value) != []
    requires region in Merged(Claims(rules, value)) && FirstInside(Claims(rules, value), region, f)
    ensures region.rules != [] && Claims(rules, value)[f].rules != []
    ensures region.rules[0] == Claims(rules, value)[f].rules[0] <==>
            exists c :: StartsIt(Claims(rules, value), region, c) && c.rules == Claims(rules, value)[f].rules
  {
    ClaimsMerge(rules, value);
    ClaimsAreGrouped(rules, value);
    MarkerNamesFirstClaimIff(Claims(rules, value), region, f);
  }

  const Narrow := Rule("a", (value: string) => if |value| == 3 then [Match(2, 3)] else [])
  const Wide := Rule("b", (value: string) => if |value| == 3 then [Match(0, 3)] else [])

  lemma TwoClaims(a: Span, b: Span)
    requires a == Span(2, 3, ["a"]) && b == Span(0, 3, ["b"])
    ensures Claims([Narrow, Wide], "xyz") == [a, b]
  {
    assert [Narrow, Wide][..1] == [Narrow] && [Narrow][..0] == [];
    assert ClaimsOf(Narrow, "xyz") == [a] && ClaimsOf(Wide, "xyz") == [b];
    assert Claims([Narrow], "xyz") == Claims([], "xyz") + [a] == [a];
    assert Claims([Narrow, Wide], "xyz") == [a] + [b];
  }

  lemma TwoSorted(a: Span, b: Span)
    requires SpanLess(b, a)
    ensures SortStable(SpanLess, [a, b]) == [b, a]
  {
    assert [a, b][..1] == [a] && [a][..0] == [];
    assert SortStable(SpanLess, [a]) == Insert(SpanLess, [], a) == [a];
    assert SortStable(SpanLess, [a, b]) == Insert(SpanLess, [a], b) == [b, a];
  }

  lemma TwoMerged(a: Span, b: Span)
    requires a == Span(2, 3, ["a"]) && b == Span(0, 3, ["b"])
    ensures Merged([a, b]) == [Span(0, 3, ["b", "a"])]
  {
    TwoSorted(a, b);
    assert [b, a][..1] == [b] && MergeSorted([b]) == [b];
    assert [b][..0] == [] && ["b"] + ["a"] == ["b", "a"];
    assert MergeSorted([b, a]) == Absorb([b], a);
  }

  lemma NarrowAndWideAreRules()
    ensures InBounds(Narrow) && InBounds(Wide) && Narrow.id != Wide.id
  {
    assert Narrow.id[0] != Wide.id[0];
  }

  /** The policy lists "a" before "b"; the region's rules, and so its marker, do not. */
  lemma MarkerNeedNotNamePolicyFirst()
    ensures AllInBounds([Narrow, Wide]) && DistinctRules([Narrow, Wide])
    ensures Claims([Narrow, Wide], "xyz") != []
    ensures Merged(Claims([Narrow, Wide], "xyz")) == [Span(0, 3, ["b", "a"])]
  {
    NarrowAndWideAreRules();
    TwoClaims(Span(2, 3, ["a"]), Span(0, 3, ["b"]));
    TwoMerged(Span(2, 3, ["a"]), Span(0, 3, ["b"]));
  }
}
