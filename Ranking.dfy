/** Sequence helpers for the back end: Python's stable `list.sort(key=...,
    reverse=True)`, slicing a prefix (`xs[:n]`, `head(n)`) and order-preserving
    filtering (a boolean mask on a data frame). */
module Ranking {

  /** xs[:n] for n >= 0. */
  function Take<T>(xs: seq<T>, n: nat): (r: seq<T>)
    ensures |r| == if n < |xs| then n else |xs|
    ensures r <= xs
  {
    if n < |xs| then xs[..n] else xs
  }

  /** The elements of xs that satisfy keep, in their original order. */
  function Filter<T>(xs: seq<T>, keep: T -> bool): (r: seq<T>)
    ensures |r| <= |xs|
    ensures forall i :: 0 <= i < |r| ==> r[i] in xs && keep(r[i])
    ensures forall i :: 0 <= i < |xs| && keep(xs[i]) ==> xs[i] in r
  {
    if xs == [] then []
    else
      var rest := Filter(xs[..|xs| - 1], keep);
      var x := xs[|xs| - 1];
      assert forall i :: 0 <= i < |xs| - 1 ==> xs[i] == xs[..|xs| - 1][i];
      assert xs == xs[..|xs| - 1] + [x];
      if keep(x) then rest + [x] else rest
  }

  /** A kept element occurs in the result as often as in xs, any other not at
      all: filtering neither drops nor merges duplicates. */
  lemma {:induction false} FilterCounts<T>(xs: seq<T>, keep: T -> bool, x: T)
    ensures multiset(Filter(xs, keep))[x] == if keep(x) then multiset(xs)[x] else 0
  {
    if xs != [] {
      var init := xs[..|xs| - 1];
      FilterCounts(init, keep, x);
      assert xs == init + [xs[|xs| - 1]];
    }
  }

  /** Filtering works piece by piece: the kept elements of a + b are those of a
      followed by those of b, so the kept ones keep their relative order. */
  lemma {:induction false} FilterAppend<T>(a: seq<T>, b: seq<T>, keep: T -> bool)
    ensures Filter(a + b, keep) == Filter(a, keep) + Filter(b, keep)
    decreases |b|
  {
    if b == [] {
      assert a + b == a;
    } else {
      var init := b[..|b| - 1];
      var y := b[|b| - 1];
      assert (a + b)[..|a + b| - 1] == a + init;
      assert (a + b)[|a + b| - 1] == y;
      FilterAppend(a, init, keep);
    }
  }

  /** x is kept exactly when it occurs in xs and satisfies keep. */
  lemma FilterMembers<T>(xs: seq<T>, keep: T -> bool, x: T)
    ensures x in Filter(xs, keep) <==> x in xs && keep(x)
  {
    if x in xs && keep(x) {
      var i :| 0 <= i < |xs| && xs[i] == x;
    }
    if x in Filter(xs, keep) {
      var i :| 0 <= i < |Filter(xs, keep)| && Filter(xs, keep)[i] == x;
    }
  }

  /** A filter that keeps every element is the identity. */
  lemma {:induction false} FilterAll<T>(xs: seq<T>, keep: T -> bool)
    requires forall i :: 0 <= i < |xs| ==> keep(xs[i])
    ensures Filter(xs, keep) == xs
  {
    if xs != [] {
      var init := xs[..|xs| - 1];
      FilterAll(init, keep);
      assert xs == init + [xs[|xs| - 1]];
    }
  }

  ghost predicate SortedDesc<T>(xs: seq<T>, key: T -> real) {
    forall i, j :: 0 <= i < j < |xs| ==> key(xs[i]) >= key(xs[j])
  }

  /** Filtering keeps a descending sequence descending. */
  lemma {:induction false} FilterKeepsOrder<T>(xs: seq<T>, keep: T -> bool, key: T -> real)
    requires SortedDesc(xs, key)
    ensures SortedDesc(Filter(xs, keep), key)
  {
    if xs != [] {
      var init := xs[..|xs| - 1];
      var x := xs[|xs| - 1];
      assert SortedDesc(init, key);
      FilterKeepsOrder(init, keep, key);
      var rest := Filter(init, keep);
      if keep(x) {
        forall i | 0 <= i < |rest| ensures key(rest[i]) >= key(x) {
          var k :| 0 <= k < |init| && init[k] == rest[i];
          assert xs[k] == init[k];
        }
      }
    }
  }

  /** A prefix of a descending sequence is descending. */
  lemma TakeKeepsOrder<T>(xs: seq<T>, n: nat, key: T -> real)
    requires SortedDesc(xs, key)
    ensures SortedDesc(Take(xs, n), key)
  {
    var r := Take(xs, n);
    assert forall i :: 0 <= i < |r| ==> r[i] == xs[i];
  }

  /** Inserts x into a descending sequence after every element whose key is at
      least key(x), so that equal keys keep their original order. */
  function Insert<T>(sorted: seq<T>, x: T, key: T -> real): (r: seq<T>)
    decreases |sorted|
  {
    if sorted == [] then [x]
    else if key(sorted[|sorted| - 1]) >= key(x) then sorted + [x]
    else Insert(sorted[..|sorted| - 1], x, key) + [sorted[|sorted| - 1]]
  }

  /** xs sorted by key, largest first, stable: Python's
      `xs.sort(key=key, reverse=True)`. */
  function SortDesc<T>(xs: seq<T>, key: T -> real): (r: seq<T>)
    decreases |xs|
  {
    if xs == [] then [] else Insert(SortDesc(xs[..|xs| - 1], key), xs[|xs| - 1], key)
  }

  /** The sort is stable: the elements of any one key (any filter that only
      keeps elements of equal key) come out in their input order. */
  lemma {:induction false} SortDescStable<T>(xs: seq<T>, key: T -> real, keep: T -> bool)
    requires forall y, z :: keep(y) && keep(z) ==> key(y) == key(z)
    ensures Filter(SortDesc(xs, key), keep) == Filter(xs, keep)
    decreases |xs|
  {
    if xs != [] {
      var init := xs[..|xs| - 1];
      var x := xs[|xs| - 1];
      assert xs == init + [x];
      var sortedInit := SortDesc(init, key);
      assert SortDesc(xs, key) == Insert(sortedInit, x, key);
      SortDescStable(init, key, keep);
      InsertStable(sortedInit, x, key, keep);
      FilterAppend(init, [x], keep);
    }
  }

  lemma SwapEmpty<T>(a: seq<T>, b: seq<T>, c: seq<T>)
    requires b == [] || c == []
    ensures a + b + c == a + c + b
  {
    if b == [] {
      assert a + b == a;
    } else {
      assert a + c == a;
    }
  }

  /** A one-element sequence keeps its element or nothing. */
  lemma FilterSingleton<T>(x: T, keep: T -> bool)
    ensures Filter([x], keep) == if keep(x) then [x] else []
  {
    assert [x][..0] == [];
  }

  /** Inserting x adds it after every kept element of its key. */
  lemma {:induction false} InsertStable<T>(sorted: seq<T>, x: T, key: T -> real, keep: T -> bool)
    requires forall y, z :: keep(y) && keep(z) ==> key(y) == key(z)
    ensures Filter(Insert(sorted, x, key), keep) == Filter(sorted, keep) + Filter([x], keep)
    decreases |sorted|
  {
    if sorted == [] {
      assert Filter(sorted, keep) == [];
    } else if key(sorted[|sorted| - 1]) >= key(x) {
      FilterAppend(sorted, [x], keep);
    } else {
      var init := sorted[..|sorted| - 1];
      var last := sorted[|sorted| - 1];
      assert sorted == init + [last];
      InsertStable(init, x, key, keep);
      FilterAppend(Insert(init, x, key), [last], keep);
      FilterAppend(init, [last], keep);
      FilterSingleton(x, keep);
      FilterSingleton(last, keep);
      var fx := Filter([x], keep);
      var fl := Filter([last], keep);
      assert !(keep(x) && keep(last));
      SwapEmpty(Filter(init, keep), fx, fl);
    }
  }

  lemma {:induction false} InsertPermutes<T>(sorted: seq<T>, x: T, key: T -> real)
    ensures multiset(Insert(sorted, x, key)) == multiset(sorted) + multiset{x}
    ensures |Insert(sorted, x, key)| == |sorted| + 1
    decreases |sorted|
  {
    if sorted != [] && key(sorted[|sorted| - 1]) < key(x) {
      var init := sorted[..|sorted| - 1];
      InsertPermutes(init, x, key);
      assert sorted == init + [sorted[|sorted| - 1]];
    }
  }

  lemma {:induction false} InsertSorted<T>(sorted: seq<T>, x: T, key: T -> real)
    requires SortedDesc(sorted, key)
    ensures SortedDesc(Insert(sorted, x, key), key)
    decreases |sorted|
  {
    if sorted != [] && key(sorted[|sorted| - 1]) < key(x) {
      var init := sorted[..|sorted| - 1];
      var last := sorted[|sorted| - 1];
      assert SortedDesc(init, key);
      InsertSorted(init, x, key);
      InsertPermutes(init, x, key);
      var ins := Insert(init, x, key);
      forall i | 0 <= i < |ins| ensures key(ins[i]) >= key(last) {
        assert ins[i] in multiset(ins);
        if ins[i] != x {
          assert ins[i] in multiset(init);
          var k :| 0 <= k < |init| && init[k] == ins[i];
          assert sorted[k] == init[k];
        }
      }
    }
  }

  /** SortDesc returns a permutation of its input ordered largest first. */
  lemma {:induction false} SortDescProperties<T>(xs: seq<T>, key: T -> real)
    ensures SortedDesc(SortDesc(xs, key), key)
    ensures multiset(SortDesc(xs, key)) == multiset(xs)
    ensures |SortDesc(xs, key)| == |xs|
    decreases |xs|
  {
    if xs != [] {
      var init := xs[..|xs| - 1];
      SortDescProperties(init, key);
      InsertSorted(SortDesc(init, key), xs[|xs| - 1], key);
      InsertPermutes(SortDesc(init, key), xs[|xs| - 1], key);
      assert xs == init + [xs[|xs| - 1]];
    }
  }

  /** Where Insert puts x: just after the rightmost element, scanning from the
      right, whose key is at least key(x), or at the front if there is none. */
  function InsertPos<T>(sorted: seq<T>, x: T, key: T -> real): (p: nat)
    ensures p <= |sorted|
    decreases |sorted|
  {
    if sorted == [] || key(sorted[|sorted| - 1]) >= key(x) then |sorted|
    else InsertPos(sorted[..|sorted| - 1], x, key)
  }

  /** Insert places x at InsertPos and keeps everything else in order. */
  lemma {:induction false} InsertAsSplice<T>(sorted: seq<T>, x: T, key: T -> real)
    ensures Insert(sorted, x, key) ==
      sorted[..InsertPos(sorted, x, key)] + [x] + sorted[InsertPos(sorted, x, key)..]
    decreases |sorted|
  {
    if sorted != [] && key(sorted[|sorted| - 1]) < key(x) {
      var init := sorted[..|sorted| - 1];
      InsertAsSplice(init, x, key);
      var p := InsertPos(init, x, key);
      assert sorted[..p] == init[..p];
      assert sorted[p..] == init[p..] + [sorted[|sorted| - 1]];
    }
  }

  /** A slice that is the prefix up to j, then x, then the rest shifted right. */
  lemma Spliced<T>(b: seq<T>, prefix: seq<T>, x: T, j: nat)
    requires j <= |prefix| && |b| == |prefix| + 1
    requires forall k :: 0 <= k < j ==> b[k] == prefix[k]
    requires b[j] == x
    requires forall k :: j < k < |b| ==> b[k] == prefix[k - 1]
    ensures b == prefix[..j] + [x] + prefix[j..]
  {
  }

  /** Moves a[i] left past every larger element of the sorted prefix a[..i]. */
  method InsertAt<T>(a: array<T>, i: nat, key: T -> real)
    requires i < a.Length
    modifies a
    ensures a[..i + 1] == Insert(old(a[..i]), old(a[i]), key)
    ensures a[i + 1..] == old(a[i + 1..])
  {
    var x := a[i];
    ghost var prefix := a[..i];
    ghost var suffix := a[i + 1..];
    var j := i;
    assert prefix[..j] == prefix;
    while j > 0 && key(a[j - 1]) < key(x)
      invariant 0 <= j <= i
      invariant forall k :: 0 <= k < j ==> a[k] == prefix[k]
      invariant forall k :: j < k <= i ==> a[k] == prefix[k - 1]
      invariant a[i + 1..] == suffix
      invariant InsertPos(prefix, x, key) == InsertPos(prefix[..j], x, key)
    {
      assert prefix[..j][..j - 1] == prefix[..j - 1];
      a[j] := a[j - 1];
      j := j - 1;
    }
    a[j] := x;
    assert InsertPos(prefix[..j], x, key) == j;
    Spliced(a[..i + 1], prefix, x, j);
    InsertAsSplice(prefix, x, key);
  }

  /** The in-place sort of the back end's lists (stable insertion sort,
      largest key first). */
  method SortInPlace<T>(a: array<T>, key: T -> real)
    modifies a
    ensures a[..] == SortDesc(old(a[..]), key)
  {
    ghost var orig := a[..];
    var i := 0;
    while i < a.Length
      invariant 0 <= i <= a.Length
      invariant a[..i] == SortDesc(orig[..i], key)
      invariant a[i..] == orig[i..]
    {
      assert a[i] == orig[i];
      InsertAt(a, i, key);
      assert orig[..i + 1][..i] == orig[..i];
      assert a[i + 1..] == orig[i + 1..];
      i := i + 1;
    }
    assert orig[..a.Length] == orig;
  }
}
