/**
 * Generic sequence operations used by the renderers: filtering, prefixes and
 * suffixes, JavaScript's default string order, the distinct sorted values of
 * a sequence (`[...new Set(xs)].sort()`), and a stable descending sort by a
 * numeric key (`xs.sort((a, b) => key(b) - key(a))`).
 */
module Sequences {

  // ---------------------------------------------------------------------------
  // Filtering, prefixes, suffixes

  /** Array.prototype.filter: the elements satisfying p, in their original order. */
  function Filter<T>(xs: seq<T>, p: T -> bool): (r: seq<T>)
    ensures |r| <= |xs|
    ensures forall i :: 0 <= i < |r| ==> r[i] in xs && p(r[i])
    ensures forall i :: 0 <= i < |xs| && p(xs[i]) ==> xs[i] in r
  {
    if xs == [] then []
    else if p(xs[0]) then [xs[0]] + Filter(xs[1..], p)
    else Filter(xs[1..], p)
  }

  /** Filtering distributes over concatenation, so it keeps the original order. */
  lemma {:induction false} FilterConcat<T>(xs: seq<T>, ys: seq<T>, p: T -> bool)
    ensures Filter(xs + ys, p) == Filter(xs, p) + Filter(ys, p)
  {
    if xs != [] {
      FilterConcat(xs[1..], ys, p);
      assert (xs + ys)[1..] == xs[1..] + ys;
    } else {
      assert xs + ys == ys;
    }
  }

  /** Filtering with a predicate every element satisfies changes nothing. */
  lemma {:induction false} FilterAll<T>(xs: seq<T>, p: T -> bool)
    requires forall i :: 0 <= i < |xs| ==> p(xs[i])
    ensures Filter(xs, p) == xs
  {
    if xs != [] {
      FilterAll(xs[1..], p);
    }
  }

  /** The number of elements satisfying p. */
  function Count<T>(xs: seq<T>, p: T -> bool): (n: nat)
    ensures n <= |xs|
  {
    if xs == [] then 0 else (if p(xs[0]) then 1 else 0) + Count(xs[1..], p)
  }

  lemma {:induction false} CountAll<T>(xs: seq<T>, p: T -> bool)
    ensures Count(xs, p) == |xs| <==> forall i :: 0 <= i < |xs| ==> p(xs[i])
  {
    if xs != [] {
      CountAll(xs[1..], p);
      assert forall i :: 1 <= i < |xs| ==> xs[i] == xs[1..][i - 1];
    }
  }

  function Min(a: int, b: int): int {
    if a < b then a else b
  }

  /** xs.slice(0, n). */
  function Take<T>(xs: seq<T>, n: nat): (r: seq<T>)
    ensures |r| == Min(|xs|, n) && r == xs[..|r|]
  {
    if |xs| <= n then xs else xs[..n]
  }

  /** xs.slice(-n) for n > 0: the last n elements, or all of them. */
  function TakeLast<T>(xs: seq<T>, n: nat): (r: seq<T>)
    ensures |r| == Min(|xs|, n) && r == xs[|xs| - |r|..]
  {
    if |xs| <= n then xs else xs[|xs| - n..]
  }

  // ---------------------------------------------------------------------------
  // String order

  /**
   * JavaScript's default sort order on strings: lexicographic by character, a
   * proper prefix first. Characters compare as Unicode scalar values, where
   * JavaScript compares UTF-16 code units; the two orders differ only between
   * a character beyond U+FFFF and one in U+E000..U+FFFF.
   */
  predicate StrLess(a: string, b: string)
  {
    if a == [] then b != []
    else if b == [] then false
    else if a[0] != b[0] then a[0] < b[0]
    else StrLess(a[1..], b[1..])
  }

  lemma {:induction false} StrLessIrreflexive(a: string)
    ensures !StrLess(a, a)
  {
    if a != [] { StrLessIrreflexive(a[1..]); }
  }

  lemma {:induction false} StrLessTransitive(a: string, b: string, c: string)
    requires StrLess(a, b) && StrLess(b, c)
    ensures StrLess(a, c)
  {
    if a != [] && a[0] == b[0] && b[0] == c[0] {
      StrLessTransitive(a[1..], b[1..], c[1..]);
    }
  }

  lemma {:induction false} StrLessTotal(a: string, b: string)
    ensures a == b || StrLess(a, b) || StrLess(b, a)
  {
    if a != [] && b != [] && a[0] == b[0] {
      StrLessTotal(a[1..], b[1..]);
      assert a == [a[0]] + a[1..] && b == [b[0]] + b[1..];
    }
  }

  lemma {:induction false} StrLessAsymmetric(a: string, b: string)
    ensures !(StrLess(a, b) && StrLess(b, a))
  {
    if StrLess(a, b) && StrLess(b, a) {
      StrLessTransitive(a, b, a);
      StrLessIrreflexive(a);
    }
  }

  predicate StrictlySorted(xs: seq<string>) {
    forall i, j :: 0 <= i < j < |xs| ==> StrLess(xs[i], xs[j])
  }

  /** Adjacent order is enough for strict sortedness. */
  lemma {:induction false} SortedFromAdjacent(xs: seq<string>)
    requires forall i :: 0 <= i < |xs| - 1 ==> StrLess(xs[i], xs[i + 1])
    ensures StrictlySorted(xs)
  {
    if |xs| > 1 {
      SortedFromAdjacent(xs[1..]);
      forall j | 1 < j < |xs| ensures StrLess(xs[0], xs[j]) {
        assert StrLess(xs[1], xs[j]) by { assert xs[1..][0] == xs[1] && xs[1..][j - 1] == xs[j]; }
        StrLessTransitive(xs[0], xs[1], xs[j]);
      }
      forall i, j | 0 <= i < j < |xs| ensures StrLess(xs[i], xs[j]) {
        if i > 0 {
          assert xs[1..][i - 1] == xs[i] && xs[1..][j - 1] == xs[j];
        }
      }
    }
  }

  /** Inserts x into a strictly sorted sequence, unless it is there already. */
  function InsertSorted(x: string, xs: seq<string>): (r: seq<string>)
    requires StrictlySorted(xs)
    ensures StrictlySorted(r)
    ensures forall y :: y in r <==> y == x || y in xs
  {
    if xs == [] then [x]
    else if x == xs[0] then xs
    else if StrLess(x, xs[0]) then
      BelowHead(x, xs);
      [x] + xs
    else
      StrLessTotal(x, xs[0]);
      var rest := InsertSorted(x, xs[1..]);
      assert forall y :: y in rest ==> StrLess(xs[0], y);
      [xs[0]] + rest
  }

  lemma BelowHead(x: string, xs: seq<string>)
    requires StrictlySorted(xs) && xs != [] && StrLess(x, xs[0])
    ensures forall j :: 0 <= j < |xs| ==> StrLess(x, xs[j])
  {
    forall j | 0 < j < |xs| ensures StrLess(x, xs[j]) {
      StrLessTransitive(x, xs[0], xs[j]);
    }
  }

  /** `[...new Set(xs)].sort()`: the distinct values of xs in increasing order. */
  function SortedDistinct(xs: seq<string>): (r: seq<string>)
    ensures StrictlySorted(r)
    ensures forall y :: y in r <==> y in xs
  {
    if xs == [] then [] else InsertSorted(xs[|xs| - 1], SortedDistinct(xs[..|xs| - 1]))
  }

  /** A strictly sorted sequence is determined by its elements: any sort of the distinct values agrees. */
  lemma {:induction false} StrictlySortedUnique(a: seq<string>, b: seq<string>)
    requires StrictlySorted(a) && StrictlySorted(b)
    requires forall y :: y in a <==> y in b
    ensures a == b
  {
    StrictlySortedCard(a);
    StrictlySortedCard(b);
    assert (set y | y in a) == (set y | y in b);
    if a != [] {
      assert a[0] in a && b[0] in b;
      var k :| 0 <= k < |b| && b[k] == a[0];
      var m :| 0 <= m < |a| && a[m] == b[0];
      assert a[0] == b[0] by {
        if a[0] != b[0] {
          assert StrLess(b[0], b[k]) && StrLess(a[0], a[m]);
          StrLessAsymmetric(a[0], b[0]);
        }
      }
      forall y ensures y in a[1..] <==> y in b[1..] {
        if y in a[1..] {
          var i :| 0 <= i < |a[1..]| && a[1..][i] == y;
          assert StrLess(a[0], a[i + 1]);
          StrLessIrreflexive(y);
          assert y in b && y != b[0];
        }
        if y in b[1..] {
          var i :| 0 <= i < |b[1..]| && b[1..][i] == y;
          assert StrLess(b[0], b[i + 1]);
          StrLessIrreflexive(y);
          assert y in a && y != a[0];
        }
      }
      StrictlySortedUnique(a[1..], b[1..]);
      assert a == [a[0]] + a[1..] && b == [b[0]] + b[1..];
    }
  }

  /** A strictly sorted sequence has no repeated element, so its length is the number of its values. */
  lemma {:induction false} StrictlySortedCard(xs: seq<string>)
    requires StrictlySorted(xs)
    ensures |set y | y in xs| == |xs|
  {
    if xs != [] {
      StrictlySortedCard(xs[1..]);
      StrLessIrreflexive(xs[0]);
      assert xs[0] !in xs[1..];
      assert (set y | y in xs) == (set y | y in xs[1..]) + {xs[0]};
    }
  }

  // ---------------------------------------------------------------------------
  // Stable descending sort by a numeric key

  predicate NonIncreasing<T>(xs: seq<T>, key: T -> real) {
    forall i, j :: 0 <= i < j < |xs| ==> key(xs[j]) <= key(xs[i])
  }

  /** Inserts x after every element whose key is at least key(x). */
  function InsertDesc<T>(x: T, xs: seq<T>, key: T -> real): (r: seq<T>)
    requires NonIncreasing(xs, key)
    ensures NonIncreasing(r, key)
    ensures multiset(r) == multiset(xs) + multiset{x}
  {
    if xs == [] || key(xs[0]) < key(x) then
      [x] + xs
    else
      var rest := InsertDesc(x, xs[1..], key);
      assert xs == [xs[0]] + xs[1..];
      BoundedByHead(x, xs, key, rest);
      [xs[0]] + rest
  }

  lemma BoundedByHead<T>(x: T, xs: seq<T>, key: T -> real, rest: seq<T>)
    requires xs != [] && NonIncreasing(xs, key) && key(x) <= key(xs[0])
    requires NonIncreasing(rest, key)
    requires multiset(rest) == multiset(xs[1..]) + multiset{x}
    ensures NonIncreasing([xs[0]] + rest, key)
  {
    forall i | 0 <= i < |rest| ensures key(rest[i]) <= key(xs[0]) {
      assert rest[i] in multiset(rest);
      if rest[i] != x {
        assert rest[i] in multiset(xs[1..]);
        var j :| 0 <= j < |xs[1..]| && xs[1..][j] == rest[i];
        assert xs[j + 1] == rest[i];
      }
    }
    var r := [xs[0]] + rest;
    forall i, j | 0 <= i < j < |r| ensures key(r[j]) <= key(r[i]) {
      assert r[j] == rest[j - 1];
      if i > 0 { assert r[i] == rest[i - 1]; }
    }
  }

  /** An insertion sort, largest key first; it is stable (`SortDescStable`), as JavaScript's sort is. */
  function SortDesc<T>(xs: seq<T>, key: T -> real): (r: seq<T>)
    ensures NonIncreasing(r, key)
    ensures multiset(r) == multiset(xs)
    ensures |r| == |xs|
  {
    if xs == [] then []
    else
      assert xs == xs[..|xs| - 1] + [xs[|xs| - 1]];
      var r := InsertDesc(xs[|xs| - 1], SortDesc(xs[..|xs| - 1], key), key);
      assert |r| == |multiset(r)|;
      r
  }

  /**
   * Inserting keeps ties in order: among the elements of one key, x lands
   * after all of those already present.
   */
  lemma {:induction false} InsertDescTies<T>(x: T, xs: seq<T>, key: T -> real, p: T -> bool, k: real)
    requires NonIncreasing(xs, key)
    requires forall y :: p(y) <==> key(y) == k
    ensures Filter(InsertDesc(x, xs, key), p) == Filter(xs, p) + (if p(x) then [x] else [])
  {
    if xs == [] || key(xs[0]) < key(x) {
      assert InsertDesc(x, xs, key) == [x] + xs;
      InsertFront(x, xs, key, p, k);
    } else {
      var ys := xs[1..];
      assert NonIncreasing(ys, key) by {
        forall i, j | 0 <= i < j < |ys| ensures key(ys[j]) <= key(ys[i]) {
          assert ys[i] == xs[i + 1] && ys[j] == xs[j + 1];
        }
      }
      InsertDescTies(x, ys, key, p, k);
      var rest := InsertDesc(x, ys, key);
      assert InsertDesc(x, xs, key) == [xs[0]] + rest;
      FilterCons(xs[0], rest, p);
      FilterCons(xs[0], ys, p);
      assert [xs[0]] + ys == xs;
      var head, fy, tail := if p(xs[0]) then [xs[0]] else [], Filter(ys, p), if p(x) then [x] else [];
      assert Filter(rest, p) == fy + tail;
      ConcatAssoc(head, fy, tail);
    }
  }

  /** An element placed before every smaller key comes after no tie. */
  lemma InsertFront<T>(x: T, xs: seq<T>, key: T -> real, p: T -> bool, k: real)
    requires NonIncreasing(xs, key) && (xs == [] || key(xs[0]) < key(x))
    requires forall y :: p(y) <==> key(y) == k
    ensures Filter([x] + xs, p) == Filter(xs, p) + (if p(x) then [x] else [])
  {
    FilterCons(x, xs, p);
    if p(x) {
      forall i | 0 <= i < |xs| ensures !p(xs[i]) {
        assert key(xs[i]) <= key(xs[0]);
      }
      FilterNone(xs, p);
    }
  }

  lemma FilterCons<T>(a: T, r: seq<T>, p: T -> bool)
    ensures Filter([a] + r, p) == (if p(a) then [a] else []) + Filter(r, p)
  {
    assert ([a] + r)[1..] == r;
  }

  /**
   * The sort is stable: the elements of any one key come out in the order
   * they went in.
   */
  lemma {:induction false} SortDescStable<T>(xs: seq<T>, key: T -> real, p: T -> bool, k: real)
    requires forall y :: p(y) <==> key(y) == k
    ensures Filter(SortDesc(xs, key), p) == Filter(xs, p)
  {
    if xs != [] {
      var init, last := xs[..|xs| - 1], xs[|xs| - 1];
      var sorted := SortDesc(init, key);
      assert SortDesc(xs, key) == InsertDesc(last, sorted, key);
      SortDescStable(init, key, p, k);
      InsertDescTies(last, sorted, key, p, k);
      SplitLast(xs);
      FilterConcat(init, [last], p);
      assert Filter([last], p) == if p(last) then [last] else [];
    }
  }

  lemma ConcatAssoc<T>(a: seq<T>, b: seq<T>, c: seq<T>)
    ensures a + (b + c) == (a + b) + c
  {
  }

  lemma SplitLast<T>(xs: seq<T>)
    requires xs != []
    ensures xs == xs[..|xs| - 1] + [xs[|xs| - 1]]
  {
  }

  /** Filtering with a predicate no element satisfies leaves nothing. */
  lemma {:induction false} FilterNone<T>(xs: seq<T>, p: T -> bool)
    requires forall i :: 0 <= i < |xs| ==> !p(xs[i])
    ensures Filter(xs, p) == []
  {
    if xs != [] {
      FilterNone(xs[1..], p);
    }
  }

  /** The first k of the sorted list are min(k, |xs|) elements taken from xs. */
  lemma TopKPart<T>(xs: seq<T>, key: T -> real, k: nat)
    ensures var r := Take(SortDesc(xs, key), k);
      |r| == Min(k, |xs|) && multiset(r) <= multiset(xs)
  {
    var sorted := SortDesc(xs, key);
    PrefixMultiset(sorted, |Take(sorted, k)|);
  }

  lemma PrefixMultiset<T>(xs: seq<T>, n: nat)
    requires n <= |xs|
    ensures multiset(xs[..n]) <= multiset(xs)
  {
    assert xs == xs[..n] + xs[n..];
  }

  /**
   * The first k of a descending sort are the k largest: an element left out
   * is no larger than the last one kept.
   */
  lemma TopK<T>(xs: seq<T>, key: T -> real, k: nat, x: T)
    requires k >= 1 && x in xs
    ensures var r := Take(SortDesc(xs, key), k);
      r != [] && (x in r || key(x) <= key(r[|r| - 1]))
  {
    var sorted := SortDesc(xs, key);
    assert x in multiset(xs);
    assert x in multiset(sorted);
    var j :| 0 <= j < |sorted| && sorted[j] == x;
    var r := Take(sorted, k);
    if j >= |r| {
      assert |r| == k;
      assert key(sorted[j]) <= key(sorted[k - 1]);
    } else {
      assert r[j] == x;
    }
  }
}
