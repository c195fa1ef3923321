/** Order-preserving sequence helpers: filtering and first-occurrence de-duplication,
    each defined once and characterised by its contract. */
module Seqs {

  /** `xs.filter(p)`: the elements satisfying `p`, in their original order. */
  function Filter<T>(xs: seq<T>, p: T -> bool): (r: seq<T>)
    ensures |r| <= |xs|
    ensures forall i :: 0 <= i < |r| ==> p(r[i]) && r[i] in xs
    ensures forall i :: 0 <= i < |xs| && p(xs[i]) ==> xs[i] in r
    decreases |xs|
  {
    if |xs| == 0 then []
    else Filter(xs[..|xs| - 1], p) + (if p(xs[|xs| - 1]) then [xs[|xs| - 1]] else [])
  }

  lemma {:induction false} FilterAllKept<T>(xs: seq<T>, p: T -> bool)
    requires forall i :: 0 <= i < |xs| ==> p(xs[i])
    ensures Filter(xs, p) == xs
    decreases |xs|
  {
    if |xs| > 0 {
      var init := xs[..|xs| - 1];
      assert forall i :: 0 <= i < |init| ==> init[i] == xs[i];
      FilterAllKept(init, p);
      assert init + [xs[|xs| - 1]] == xs;
    }
  }

  lemma FilterAppend<T>(xs: seq<T>, x: T, p: T -> bool)
    ensures Filter(xs + [x], p) == Filter(xs, p) + (if p(x) then [x] else [])
  {
    assert (xs + [x])[..|xs + [x]| - 1] == xs;
  }

  /** `r` is `xs` read at the strictly increasing positions `idx`, and
      every position whose element satisfies `p` is among them. */
  ghost predicate SelectsInOrder<T>(r: seq<T>, xs: seq<T>, p: T -> bool, idx: seq<nat>) {
    && |idx| == |r|
    && (forall k :: 0 <= k < |idx| ==> idx[k] < |xs| && r[k] == xs[idx[k]])
    && (forall k, l :: 0 <= k < l < |idx| ==> idx[k] < idx[l])
    && (forall j :: 0 <= j < |xs| && p(xs[j]) ==> j in idx)
  }

  /** The filter keeps the satisfying elements in their original order: it
      selects them at strictly increasing positions and misses none. */
  lemma {:induction false} FilterSelectsInOrder<T>(xs: seq<T>, p: T -> bool) returns (idx: seq<nat>)
    ensures SelectsInOrder(Filter(xs, p), xs, p, idx)
    decreases |xs|
  {
    if |xs| == 0 {
      idx := [];
    } else {
      var init := xs[..|xs| - 1];
      var x := xs[|xs| - 1];
      var prev := FilterSelectsInOrder(init, p);
      assert init + [x] == xs;
      idx := SelectsInOrderSnoc(Filter(init, p), init, p, prev, x);
    }
  }

  lemma SelectsInOrderSnoc<T>(r: seq<T>, xs: seq<T>, p: T -> bool, idx: seq<nat>, x: T) returns (idx': seq<nat>)
    requires SelectsInOrder(r, xs, p, idx)
    ensures SelectsInOrder(r + (if p(x) then [x] else []), xs + [x], p, idx')
  {
    var ys := xs + [x];
    idx' := idx + (if p(x) then [|xs|] else []);
    var r' := r + (if p(x) then [x] else []);
    forall k | 0 <= k < |idx'| ensures idx'[k] < |ys| && r'[k] == ys[idx'[k]] {
      if k < |idx| {
        assert ys[idx[k]] == xs[idx[k]];
      }
    }
    forall j | 0 <= j < |ys| && p(ys[j]) ensures j in idx' {
      if j < |xs| {
        assert ys[j] == xs[j];
        assert idx <= idx';
      } else {
        assert idx'[|idx'| - 1] == j;
      }
    }
  }

  predicate NoDuplicates<T(==)>(xs: seq<T>) {
    forall i, j :: 0 <= i < j < |xs| ==> xs[i] != xs[j]
  }

  /** Reading a list without duplicates at strictly increasing positions
      gives a list without duplicates. */
  lemma SelectionKeepsNoDuplicates<T>(r: seq<T>, xs: seq<T>, p: T -> bool, idx: seq<nat>)
    requires SelectsInOrder(r, xs, p, idx) && NoDuplicates(xs)
    ensures NoDuplicates(r)
  {
    forall i, j | 0 <= i < j < |r| ensures r[i] != r[j] {
      assert idx[i] < idx[j];
    }
  }

  /** Appending an absent element keeps a list free of duplicates. */
  lemma AppendAbsentKeepsNoDuplicates<T>(xs: seq<T>, x: T)
    requires NoDuplicates(xs) && x !in xs
    ensures NoDuplicates(xs + [x])
  {
    var ys := xs + [x];
    forall i, j | 0 <= i < j < |ys| ensures ys[i] != ys[j] {
      assert ys[i] == xs[i];
      if j < |xs| {
        assert ys[j] == xs[j];
      }
    }
  }

  /** Keeps the first occurrence of every element, in first-seen order. */
  function Dedup<T(==, !new)>(xs: seq<T>): (r: seq<T>)
    ensures NoDuplicates(r)
    ensures forall x :: x in r <==> x in xs
    decreases |xs|
  {
    if |xs| == 0 then []
    else
      var init := Dedup(xs[..|xs| - 1]);
      var last := xs[|xs| - 1];
      assert forall x :: x in xs <==> x in xs[..|xs| - 1] || x == last;
      if last in init then init else init + [last]
  }

  lemma DedupSnoc<T(!new)>(xs: seq<T>, x: T)
    ensures Dedup(xs + [x]) == if x in Dedup(xs) then Dedup(xs) else Dedup(xs) + [x]
  {
    assert (xs + [x])[..|xs|] == xs;
  }

  lemma {:induction false} DedupOfDistinct<T(!new)>(xs: seq<T>)
    requires NoDuplicates(xs)
    ensures Dedup(xs) == xs
    decreases |xs|
  {
    if |xs| > 0 {
      var init := xs[..|xs| - 1];
      DedupOfDistinct(init);
      assert xs[|xs| - 1] !in init;
      assert init + [xs[|xs| - 1]] == xs;
    }
  }

  /** Deduplicating after a duplicate-free prefix keeps that prefix in front. */
  lemma {:induction false} DedupKeepsDistinctPrefix<T(!new)>(pre: seq<T>, xs: seq<T>)
    requires NoDuplicates(pre)
    ensures pre <= Dedup(pre + xs)
    decreases |xs|
  {
    if |xs| == 0 {
      assert pre + xs == pre;
      DedupOfDistinct(pre);
    } else {
      var init := xs[..|xs| - 1];
      var x := xs[|xs| - 1];
      DedupKeepsDistinctPrefix(pre, init);
      assert pre + xs == (pre + init) + [x];
      DedupSnoc(pre + init, x);
      PrefixOfSnoc(pre, Dedup(pre + init), x);
    }
  }

  lemma PrefixOfSnoc<T>(a: seq<T>, b: seq<T>, x: T)
    requires a <= b
    ensures a <= b + [x]
  {
    assert (b + [x])[..|a|] == b[..|a|];
  }

  /** After a duplicate-free prefix, the deduplicated rest holds exactly the
      elements of `xs` that are not in the prefix. */
  lemma DedupAfterPrefix<T(!new)>(pre: seq<T>, xs: seq<T>)
    requires NoDuplicates(pre)
    ensures pre <= Dedup(pre + xs)
    ensures forall x :: x in Dedup(pre + xs)[|pre|..] <==> x in xs && x !in pre
  {
    var k := Dedup(pre + xs);
    DedupKeepsDistinctPrefix(pre, xs);
    assert k == pre + k[|pre|..];
    forall x ensures x in k[|pre|..] <==> x in xs && x !in pre {
      if x in k[|pre|..] {
        var j :| 0 <= j < |k[|pre|..]| && k[|pre|..][j] == x;
        assert k[|pre| + j] == x;
        assert x in pre + xs;
      }
      if x in xs && x !in pre {
        assert x in pre + xs;
        assert x in k;
      }
    }
  }
}
