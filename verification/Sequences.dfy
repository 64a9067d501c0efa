/** Filters and duplicate-free lists, as the source's array methods and sets use them. */
module Sequences {
  function Filter<T(!new)>(s: seq<T>, keep: T -> bool): (r: seq<T>)
    ensures |r| <= |s|
    ensures forall k | 0 <= k < |r| :: r[k] in s && keep(r[k])
    ensures forall x {:trigger x in r} :: x in r <==> x in s && keep(x)
  {
    if s == [] then []
    else (if keep(s[0]) then [s[0]] else []) + Filter(s[1..], keep)
  }

  ghost predicate Distinct<T>(s: seq<T>) {
    forall i, j | 0 <= i < j < |s| :: s[i] != s[j]
  }

  lemma {:induction false} FilterDistinct<T(!new)>(s: seq<T>, keep: T -> bool)
    requires Distinct(s)
    ensures Distinct(Filter(s, keep))
  {
    if s != [] {
      FilterDistinct(s[1..], keep);
    }
  }

  lemma {:induction false} FilterKeepsAll<T(!new)>(s: seq<T>, keep: T -> bool)
    requires forall k | 0 <= k < |s| :: keep(s[k])
    ensures Filter(s, keep) == s
  {
    if s != [] {
      FilterKeepsAll(s[1..], keep);
    }
  }

  lemma {:induction false} FilterKeepsNone<T(!new)>(s: seq<T>, keep: T -> bool)
    requires forall k | 0 <= k < |s| :: !keep(s[k])
    ensures Filter(s, keep) == []
  {
    if s != [] {
      FilterKeepsNone(s[1..], keep);
    }
  }

  lemma {:induction false} FilterConcat<T(!new)>(a: seq<T>, b: seq<T>, keep: T -> bool)
    ensures Filter(a + b, keep) == Filter(a, keep) + Filter(b, keep)
  {
    if a == [] {
      assert a + b == b;
    } else {
      assert (a + b)[1..] == a[1..] + b;
      FilterConcat(a[1..], b, keep);
    }
  }

  lemma {:induction false} FilterSame<T(!new)>(s: seq<T>, keep: T -> bool, also: T -> bool)
    requires forall k | 0 <= k < |s| :: keep(s[k]) == also(s[k])
    ensures Filter(s, keep) == Filter(s, also)
  {
    if s != [] {
      FilterSame(s[1..], keep, also);
    }
  }

  lemma DistinctConcat<T>(a: seq<T>, b: seq<T>)
    requires Distinct(a) && Distinct(b)
    requires forall k | 0 <= k < |b| :: b[k] !in a
    ensures Distinct(a + b)
  {
  }

  /** Each of ys is related to the element of xs at its place. */
  ghost predicate Pairwise<T(!new), U(!new)>(related: (T, U) -> bool, xs: seq<T>, ys: seq<U>) {
    |ys| <= |xs| && forall k | 0 <= k < |ys| :: related(xs[k], ys[k])
  }

  lemma PushPair<T(!new), U(!new)>(related: (T, U) -> bool, xs: seq<T>, ys: seq<U>, y: U)
    requires Pairwise(related, xs, ys) && |ys| < |xs| && related(xs[|ys|], y)
    ensures Pairwise(related, xs, ys + [y])
  {
  }

  /** As Pairwise, where the relation also sees the elements before. */
  ghost predicate PairwiseAfter<T(!new), U(!new)>(related: (T, seq<U>, U) -> bool, xs: seq<T>, ys: seq<U>) {
    |ys| <= |xs| && forall k | 0 <= k < |ys| :: related(xs[k], ys[..k], ys[k])
  }

  lemma PushPairAfter<T(!new), U(!new)>(related: (T, seq<U>, U) -> bool, xs: seq<T>, ys: seq<U>, y: U)
    requires PairwiseAfter(related, xs, ys) && |ys| < |xs| && related(xs[|ys|], ys, y)
    ensures PairwiseAfter(related, xs, ys + [y])
  {
    var more := ys + [y];
    forall k | 0 <= k < |more| ensures related(xs[k], more[..k], more[k]) {
      assert more[..k] == ys[..k];
      assert ys[..|ys|] == ys;
    }
  }
}
