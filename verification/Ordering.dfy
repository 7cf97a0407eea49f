/** Orders, sorting and lists: the byte order on strings, sets listed in ascending order, a
    stable sort by a comparison, and what walking a list accumulates. */
module Ordering {

  /** The language's `<` on strings: bytewise, a proper prefix being smaller. */
  predicate StringLess(a: string, b: string) {
    if b == [] then false
    else if a == [] then true
    else if a[0] != b[0] then a[0] < b[0]
    else StringLess(a[1..], b[1..])
  }

  ghost predicate StrictTotal<T(!new)>(less: (T, T) -> bool) {
    && (forall x :: !less(x, x))
    && (forall x, y, z :: less(x, y) && less(y, z) ==> less(x, z))
    && (forall x, y :: x != y ==> less(x, y) || less(y, x))
  }

  // Ties allowed: what a comparison passed to a stable sort must satisfy.
  ghost predicate WeakOrder<T(!new)>(less: (T, T) -> bool) {
    && (forall x, y :: less(x, y) ==> !less(y, x))
    && (forall x, y, z :: !less(y, x) && !less(z, y) ==> !less(z, x))
  }

  ghost predicate Ascending<T>(less: (T, T) -> bool, s: seq<T>) {
    forall i, j :: 0 <= i < j < |s| ==> less(s[i], s[j])
  }

  ghost predicate NonDescending<T>(less: (T, T) -> bool, s: seq<T>) {
    forall i, j :: 0 <= i < j < |s| ==> !less(s[j], s[i])
  }

  ghost function Elements<T>(s: seq<T>): set<T> {
    set x | x in s
  }

  // ---------------------------------------------------------------- strings

  lemma {:induction false} StringLessTransitive(a: string, b: string, c: string)
    requires StringLess(a, b) && StringLess(b, c)
    ensures StringLess(a, c)
    decreases |a|
  {
    if a != [] && b != [] && c != [] && a[0] == b[0] && b[0] == c[0] {
      StringLessTransitive(a[1..], b[1..], c[1..]);
    }
  }

  lemma {:induction false} StringLessConnected(a: string, b: string)
    ensures a == b || StringLess(a, b) || StringLess(b, a)
    ensures !(StringLess(a, b) && StringLess(b, a)) && !StringLess(a, a)
    decreases |a|
  {
    if a != [] { StringLessConnected(a[1..], if b == [] then b else b[1..]); }
    if a != [] && b != [] && a[0] == b[0] && a[1..] == b[1..] {
      assert a == [a[0]] + a[1..] && b == [b[0]] + b[1..];
    }
  }

  /** The byte order of strings: one comes before another if and only if it is a proper prefix of
      it, or is smaller where they first differ. */
  lemma {:induction false} StringLessMeans(a: string, b: string)
    ensures StringLess(a, b) <==> exists n :: PartAt(a, b, n)
    decreases |a|
  {
    if a == [] || b == [] || a[0] != b[0] {
      assert StringLess(a, b) ==> PartAt(a, b, 0);
    } else {
      StringLessMeans(a[1..], b[1..]);
      if n :| PartAt(a[1..], b[1..], n) {
        assert a[..n + 1] == [a[0]] + a[1..][..n] && b[..n + 1] == [b[0]] + b[1..][..n];
        assert PartAt(a, b, n + 1);
      }
      if n :| PartAt(a, b, n) {
        assert a[1..][..n - 1] == a[..n][1..] && b[1..][..n - 1] == b[..n][1..];
        assert PartAt(a[1..], b[1..], n - 1);
      }
    }
  }

  // They agree on n characters, and there the first one ends or is smaller.
  predicate PartAt(a: string, b: string, n: int) {
    0 <= n <= |a| && n < |b| && a[..n] == b[..n] && (n == |a| || a[n] < b[n])
  }

  lemma StringLessIsTotal()
    ensures StrictTotal(StringLess)
  {
    forall a: string, b: string, c: string | StringLess(a, b) && StringLess(b, c) ensures StringLess(a, c) {
      StringLessTransitive(a, b, c);
    }
    forall a: string, b: string ensures (a == b || StringLess(a, b) || StringLess(b, a)) && !StringLess(a, a) {
      StringLessConnected(a, b);
    }
  }

  // ---------------------------------------------------------------- sets in ascending order

  lemma {:induction false} HasGreatest<T(!new)>(less: (T, T) -> bool, s: set<T>) returns (m: T)
    requires StrictTotal(less) && s != {}
    ensures m in s && forall x :: x in s ==> x == m || less(x, m)
    decreases |s|
  {
    var first :| first in s;
    var rest := s - {first};
    if rest == {} {
      m := first;
      forall x | x in s ensures x == m { assert x == first || x in rest; }
    } else {
      var n := HasGreatest(less, rest);
      m := if less(first, n) then n else first;
      forall x | x in s ensures x == m || less(x, m) { assert x == first || x in rest; }
    }
  }

  ghost function Sorted<T(!new)>(less: (T, T) -> bool, s: set<T>): (r: seq<T>)
    requires StrictTotal(less)
    ensures |r| == |s| && (forall x :: x in r <==> x in s)
    decreases |s|
  {
    if s == {} then []
    else
      var m := Greatest(less, s);
      Sorted(less, s - {m}) + [m]
  }

  ghost function Greatest<T(!new)>(less: (T, T) -> bool, s: set<T>): (m: T)
    requires StrictTotal(less) && s != {}
    ensures m in s && forall x :: x in s ==> x == m || less(x, m)
  {
    assert exists m :: m in s && (forall x :: x in s ==> x == m || less(x, m)) by { var m := HasGreatest(less, s); }
    var m :| m in s && forall x :: x in s ==> x == m || less(x, m);
    m
  }

  lemma {:induction false} SortedAscends<T(!new)>(less: (T, T) -> bool, s: set<T>)
    requires StrictTotal(less)
    ensures Ascending(less, Sorted(less, s))
    decreases |s|
  {
    if s != {} { SortedAscends(less, s - {Greatest(less, s)}); }
  }

  /** There is only one ascending listing of a set. */
  lemma {:induction false} AscendingIsUnique<T(!new)>(less: (T, T) -> bool, a: seq<T>, b: seq<T>)
    requires StrictTotal(less) && Ascending(less, a) && Ascending(less, b)
    requires forall x :: x in a <==> x in b
    ensures a == b
    decreases |a|
  {
    if a == [] {
      assert forall i :: 0 <= i < |b| ==> b[i] in a;
    } else {
      var n, m := |a| - 1, |b| - 1;
      assert a[n] in a;
      assert b[m] in b;
      assert a[n] == b[m];
      assert a == a[..n] + [a[n]] && b == b[..m] + [b[m]];
      forall x ensures x in a[..n] <==> x in b[..m] { WithoutLast(less, a, x); WithoutLast(less, b, x); }
      AscendingIsUnique(less, a[..n], b[..m]);
    }
  }

  lemma WithoutLast<T(!new)>(less: (T, T) -> bool, a: seq<T>, x: T)
    requires StrictTotal(less) && Ascending(less, a) && a != []
    ensures x in a[..|a| - 1] <==> x in a && x != a[|a| - 1]
  {
    var n := |a| - 1;
    assert a == a[..n] + [a[n]];
    if x in a[..n] { var i :| 0 <= i < n && a[i] == x; }
  }

  lemma SortedIsTheAscending<T(!new)>(less: (T, T) -> bool, r: seq<T>, s: set<T>)
    requires StrictTotal(less) && Ascending(less, r) && forall x :: x in r <==> x in s
    ensures r == Sorted(less, s)
  {
    SortedAscends(less, s);
    AscendingIsUnique(less, r, Sorted(less, s));
  }

  ghost function SortedStrings(s: set<string>): (r: seq<string>)
    ensures |r| == |s| && (forall x :: x in r <==> x in s)
  {
    StringLessIsTotal();
    Sorted(StringLess, s)
  }

  lemma SortedStringsAscend(s: set<string>)
    ensures Ascending(StringLess, SortedStrings(s))
  {
    StringLessIsTotal();
    SortedAscends(StringLess, s);
  }

  // ---------------------------------------------------------------- stable sort

  function Insert<T>(less: (T, T) -> bool, s: seq<T>, x: T): (r: seq<T>)
    ensures |r| == |s| + 1 && multiset(r) == multiset(s) + multiset{x}
  {
    if s == [] || !less(x, s[|s| - 1]) then s + [x]
    else
      assert s == s[..|s| - 1] + [s[|s| - 1]];
      Insert(less, s[..|s| - 1], x) + [s[|s| - 1]]
  }

  /** Stable: an element is placed after the earlier ones it ties with. */
  function SortStable<T>(less: (T, T) -> bool, s: seq<T>): (r: seq<T>)
    ensures |r| == |s| && multiset(r) == multiset(s)
  {
    if s == [] then []
    else
      assert s == s[..|s| - 1] + [s[|s| - 1]];
      Insert(less, SortStable(less, s[..|s| - 1]), s[|s| - 1])
  }

  lemma {:induction false} InsertSorts<T(!new)>(less: (T, T) -> bool, s: seq<T>, x: T)
    requires WeakOrder(less) && NonDescending(less, s)
    ensures NonDescending(less, Insert(less, s, x))
    decreases |s|
  {
    if s != [] && less(x, s[|s| - 1]) {
      var n := |s| - 1;
      InsertSorts(less, s[..n], x);
      var r := Insert(less, s[..n], x);
      forall i | 0 <= i < |r| ensures !less(s[n], r[i]) {
        assert r[i] in multiset(r);
        assert r[i] in multiset(s[..n]) || r[i] == x;
        if r[i] in multiset(s[..n]) {
          var j :| 0 <= j < n && s[j] == r[i];
        }
      }
    }
  }

  lemma {:induction false} SortStableSorts<T(!new)>(less: (T, T) -> bool, s: seq<T>)
    requires WeakOrder(less)
    ensures NonDescending(less, SortStable(less, s))
    decreases |s|
  {
    if s != [] {
      SortStableSorts(less, s[..|s| - 1]);
      InsertSorts(less, SortStable(less, s[..|s| - 1]), s[|s| - 1]);
    }
  }

  lemma SortKeepsElements<T>(less: (T, T) -> bool, s: seq<T>)
    ensures forall x :: x in SortStable(less, s) <==> x in s
  {
    forall x ensures x in SortStable(less, s) <==> x in s {
      assert x in SortStable(less, s) <==> x in multiset(SortStable(less, s));
      assert x in s <==> x in multiset(s);
    }
  }

  lemma TotalIsWeak<T(!new)>(less: (T, T) -> bool)
    requires StrictTotal(less)
    ensures WeakOrder(less)
  {
  }

  lemma StringsNeverDescend(s: seq<string>)
    ensures NonDescending(StringLess, SortStable(StringLess, s))
  {
    StringLessIsTotal();
    TotalIsWeak(StringLess);
    SortStableSorts(StringLess, s);
  }

  lemma NamesNeverDescend(s: set<string>)
    ensures NonDescending(StringLess, SortedStrings(s))
  {
    SortedStringsAscend(s);
    var r := SortedStrings(s);
    forall i, j | 0 <= i < j < |r| ensures !StringLess(r[j], r[i]) { StringLessConnected(r[i], r[j]); }
  }

  /** Sorting a list without repetitions gives the ascending listing of its elements. */
  lemma SortOfDistinct<T(!new)>(less: (T, T) -> bool, s: seq<T>)
    requires StrictTotal(less) && forall i, j :: 0 <= i < j < |s| ==> s[i] != s[j]
    ensures SortStable(less, s) == Sorted(less, Elements(s))
  {
    TotalIsWeak(less);
    SortStableSorts(less, s);
    SortKeepsElements(less, s);
    SortKeepsDistinct(less, s);
    var r := SortStable(less, s);
    forall i, j | 0 <= i < j < |r| ensures less(r[i], r[j]) { assert r[i] != r[j] && !less(r[j], r[i]); }
    SortedIsTheAscending(less, r, Elements(s));
  }

  lemma SortKeepsDistinct<T(!new)>(less: (T, T) -> bool, s: seq<T>)
    requires forall i, j :: 0 <= i < j < |s| ==> s[i] != s[j]
    ensures forall i, j :: 0 <= i < j < |SortStable(less, s)| ==> SortStable(less, s)[i] != SortStable(less, s)[j]
  {
    DistinctOnce(s);
    SortKeepsElements(less, s);
    var r := SortStable(less, s);
    forall i, j | 0 <= i < j < |r| ensures r[i] != r[j] {
      assert r[i] in r && r[i] in s;
      OnceDistinct(r, i, j);
    }
  }

  lemma {:induction false} DistinctOnce<T>(s: seq<T>)
    requires forall i, j :: 0 <= i < j < |s| ==> s[i] != s[j]
    ensures forall x :: x in s ==> multiset(s)[x] == 1
  {
    if s != [] {
      var n := |s| - 1;
      assert s == s[..n] + [s[n]];
      DistinctOnce(s[..n]);
      assert s[n] !in s[..n];
      assert multiset(s[..n])[s[n]] == 0;
    }
  }

  lemma OnceDistinct<T>(r: seq<T>, i: nat, j: nat)
    requires i < j < |r| && multiset(r)[r[i]] <= 1
    ensures r[i] != r[j]
  {
    assert r == r[..j] + [r[j]] + r[j + 1..];
    assert r[i] in r[..j];
    assert multiset(r[..j])[r[i]] >= 1;
  }

  /** The keys of a map in ascending order: collect in whatever order the map yields them,
      then sort. */
  method SortKeys<T(!new, ==)>(less: (T, T) -> bool, keys: set<T>) returns (r: seq<T>)
    requires StrictTotal(less)
    ensures r == Sorted(less, keys)
  {
    var collected := ListAll(keys);
    SortOfDistinct(less, collected);
    r := SortStable(less, collected);
  }

  // A set's elements in whatever order, each once.
  method ListAll<T(!new, ==)>(keys: set<T>) returns (collected: seq<T>)
    ensures Elements(collected) == keys
    ensures forall i, j :: 0 <= i < j < |collected| ==> collected[i] != collected[j]
  {
    collected := [];
    var left := keys;
    while left != {}
      invariant left <= keys && Elements(collected) == keys - left
      invariant forall i, j :: 0 <= i < j < |collected| ==> collected[i] != collected[j]
      decreases left
    {
      var k :| k in left;
      assert k !in Elements(collected);
      assert Elements(collected + [k]) == Elements(collected) + {k};
      collected := collected + [k];
      left := left - {k};
    }
  }

  method SortNames(names: set<string>) returns (r: seq<string>)
    ensures r == SortedStrings(names)
  {
    StringLessIsTotal();
    r := SortKeys(StringLess, names);
  }

  // ---------------------------------------------------------------- one item per key, or none

  function Collect<K, C>(make: K -> seq<C>, keys: seq<K>): seq<C> {
    if keys == [] then [] else Collect(make, keys[..|keys| - 1]) + make(keys[|keys| - 1])
  }

  ghost predicate Makes<K(!new), C(!new)>(make: K -> seq<C>, keyOf: C -> K) {
    forall k :: |make(k)| <= 1 && (make(k) != [] ==> keyOf(make(k)[0]) == k)
  }

  /** Collecting over keys in ascending order gives every made item once, ascending by key. */
  lemma {:induction false} CollectIsExact<K(!new), C(!new)>(make: K -> seq<C>, keyOf: C -> K, less: (K, K) -> bool,
                                                            keys: seq<K>)
    requires Makes(make, keyOf) && Ascending(less, keys)
    ensures var items := Collect(make, keys);
            && |items| <= |keys|
            && (forall i :: 0 <= i < |items| ==> keyOf(items[i]) in keys && make(keyOf(items[i])) == [items[i]])
            && (forall k :: k in keys && make(k) != [] ==> make(k)[0] in items)
            && (forall i, j :: 0 <= i < j < |items| ==> less(keyOf(items[i]), keyOf(items[j])))
  {
    if keys != [] {
      var n := |keys| - 1;
      CollectIsExact(make, keyOf, less, keys[..n]);
      assert keys == keys[..n] + [keys[n]];
      var first := Collect(make, keys[..n]);
      forall i | 0 <= i < |first| && make(keys[n]) != [] ensures less(keyOf(first[i]), keys[n]) {
        var j :| 0 <= j < n && keys[j] == keyOf(first[i]);
      }
    }
  }

  lemma CollectStep<K, C>(make: K -> seq<C>, keys: seq<K>, i: nat)
    requires i < |keys|
    ensures Collect(make, keys[..i + 1]) == Collect(make, keys[..i]) + make(keys[i])
  {
    assert keys[..i + 1][..i] == keys[..i];
  }

  lemma {:induction false} CollectOfOnes<K, C>(make: K -> seq<C>, keys: seq<K>)
    requires forall key :: key in keys ==> |make(key)| == 1
    ensures |Collect(make, keys)| == |keys|
    ensures forall i :: 0 <= i < |keys| ==> Collect(make, keys)[i] == make(keys[i])[0]
  {
    if keys != [] { CollectOfOnes(make, keys[..|keys| - 1]); }
  }

  lemma {:induction false} CollectAgrees<K, C>(a: K -> seq<C>, b: K -> seq<C>, keys: seq<K>)
    requires forall k :: k in keys ==> a(k) == b(k)
    ensures Collect(a, keys) == Collect(b, keys)
  {
    if keys != [] { CollectAgrees(a, b, keys[..|keys| - 1]); }
  }

  /** Two collections one after the other, the second made of items marked as late. */
  lemma CollectTwo<K(!new), C(!new)>(up: K -> seq<C>, down: K -> seq<C>, keyOf: C -> K, late: C -> bool,
                                     less: (K, K) -> bool, first: seq<K>, second: seq<K>)
    requires Makes(up, keyOf) && Makes(down, keyOf) && Ascending(less, first) && Ascending(less, second)
    requires forall k :: (up(k) != [] ==> !late(up(k)[0])) && (down(k) != [] ==> late(down(k)[0]))
    ensures var items := Collect(up, first) + Collect(down, second);
            && |items| <= |first| + |second|
            && (forall i :: 0 <= i < |items| ==>
                  if late(items[i]) then keyOf(items[i]) in second && down(keyOf(items[i])) == [items[i]]
                  else keyOf(items[i]) in first && up(keyOf(items[i])) == [items[i]])
            && (forall k :: k in first && up(k) != [] ==> up(k)[0] in items)
            && (forall k :: k in second && down(k) != [] ==> down(k)[0] in items)
            && (forall i, j :: 0 <= i < j < |items| ==>
                  (late(items[i]) ==> late(items[j]))
                      && (late(items[i]) == late(items[j]) ==> less(keyOf(items[i]), keyOf(items[j]))))
  {
    CollectIsExact(up, keyOf, less, first);
    CollectIsExact(down, keyOf, less, second);
    var a, b := Collect(up, first), Collect(down, second);
    assert forall i :: 0 <= i < |a| ==> up(keyOf(a[i])) == [a[i]];
    assert forall i :: 0 <= i < |b| ==> down(keyOf(b[i])) == [b[i]];
  }

  // ---------------------------------------------------------------- filling a map from a list

  function Puts<I, K, V>(keep: I -> bool, key: I -> K, val: I -> V, start: map<K, V>, items: seq<I>): map<K, V> {
    if items == [] then start
    else
      var last := items[|items| - 1];
      var before := Puts(keep, key, val, start, items[..|items| - 1]);
      if keep(last) then before[key(last) := val(last)] else before
  }

  /** Exactly the kept items' keys are added, and each new value is some kept item's. */
  lemma {:induction false} PutsHold<I(!new), K(!new), V>(keep: I -> bool, key: I -> K, val: I -> V, start: map<K, V>,
                                                         items: seq<I>)
    ensures var r := Puts(keep, key, val, start, items);
            && |r| <= |start| + |items|
            && (forall k :: k in r <==> k in start || exists x :: x in items && keep(x) && key(x) == k)
            && (forall k :: k in r ==>
                (k in start && r[k] == start[k]) || exists x :: x in items && keep(x) && key(x) == k && r[k] == val(x))
  {
    if items != [] {
      var n := |items| - 1;
      PutsHold(keep, key, val, start, items[..n]);
      assert items == items[..n] + [items[n]];
      var before := Puts(keep, key, val, start, items[..n]);
      assert before[key(items[n]) := val(items[n])].Keys == before.Keys + {key(items[n])};
    }
  }

  // ---------------------------------------------------------------- walking a list

  function Fold<A, I>(step: (A, I) -> A, start: A, items: seq<I>): A {
    if items == [] then start else step(Fold(step, start, items[..|items| - 1]), items[|items| - 1])
  }

  lemma {:induction false} FoldConcat<A, I>(step: (A, I) -> A, start: A, a: seq<I>, b: seq<I>)
    ensures Fold(step, start, a + b) == Fold(step, Fold(step, start, a), b)
    decreases |b|
  {
    if b == [] {
      assert a + b == a;
    } else {
      assert (a + b)[..|a + b| - 1] == a + b[..|b| - 1];
      FoldConcat(step, start, a, b[..|b| - 1]);
    }
  }

  ghost predicate Commutes<A(!new), I(!new)>(step: (A, I) -> A, less: (I, I) -> bool) {
    forall a, x, y :: less(x, y) ==> step(step(a, x), y) == step(step(a, y), x)
  }

  lemma {:induction false} FoldOfInsert<A(!new), I(!new)>(step: (A, I) -> A, less: (I, I) -> bool, start: A, s: seq<I>,
                                                          x: I)
    requires Commutes(step, less)
    ensures Fold(step, start, Insert(less, s, x)) == step(Fold(step, start, s), x)
    decreases |s|
  {
    if s == [] || !less(x, s[|s| - 1]) {
      assert (s + [x])[..|s|] == s;
    } else {
      var n := |s| - 1;
      var r := Insert(less, s[..n], x);
      FoldOfInsert(step, less, start, s[..n], x);
      assert (r + [s[n]])[..|r|] == r;
    }
  }

  /** A walk that cannot tell apart the orders the comparison can, sees a sorted list as the
      list it was: ties are all it goes by, and a stable sort leaves those in place. */
  lemma {:induction false} FoldOfSort<A(!new), I(!new)>(step: (A, I) -> A, less: (I, I) -> bool, start: A, s: seq<I>)
    requires Commutes(step, less)
    ensures Fold(step, start, SortStable(less, s)) == Fold(step, start, s)
    decreases |s|
  {
    if s != [] {
      FoldOfSort(step, less, start, s[..|s| - 1]);
      FoldOfInsert(step, less, start, SortStable(less, s[..|s| - 1]), s[|s| - 1]);
    }
  }

  method Walk<A, I>(step: (A, I) -> A, start: A, items: seq<I>) returns (so: A)
    ensures so == Fold(step, start, items)
  {
    so := start;
    var i := 0;
    while i < |items|
      invariant i <= |items| && so == Fold(step, start, items[..i])
    {
      assert items[..i + 1][..i] == items[..i];
      so := step(so, items[i]);
      i := i + 1;
    }
    assert items[..i] == items;
  }
}
