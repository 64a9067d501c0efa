/** Grouping an edit script into the hunks of POSIX.1-2017 `diff` unified output (src/diff.ts). */
module Hunks {
  import opened Diff
  import opened Decimal
  import opened Options

  const CONTEXT := 3

  type Range = (nat, nat)

  // ---------------------------------------------------------------- what hunks should cover

  predicate ChangeAt(ops: seq<DiffOp>, c: int) {
    0 <= c < |ops| && !ops[c].Equal?
  }

  /** Operation k lies within three operations of a change in [from, to). */
  ghost predicate NearBetween(ops: seq<DiffOp>, k: int, from: int, to: int) {
    exists c :: ChangeAt(ops, c) && from <= c < to && c - CONTEXT <= k <= c + CONTEXT
  }

  ghost predicate NearChange(ops: seq<DiffOp>, k: int, bound: int) {
    NearBetween(ops, k, 0, bound)
  }

  ghost predicate Covered(ranges: seq<Range>, k: int) {
    exists r :: 0 <= r < |ranges| && ranges[r].0 <= k < ranges[r].1
  }

  /** Non-empty ranges in increasing order with at least one operation between any two. */
  ghost predicate Separated(ops: seq<DiffOp>, ranges: seq<Range>) {
    && (forall r | 0 <= r < |ranges| :: ranges[r].0 < ranges[r].1 <= |ops|)
    && (forall r, q | 0 <= r < q < |ranges| :: ranges[r].1 < ranges[q].0)
  }

  /** The ranges are the maximal runs of operations near a change before `bound`. */
  ghost predicate Hunking(ops: seq<DiffOp>, ranges: seq<Range>, bound: int) {
    && Separated(ops, ranges)
    && forall k | 0 <= k < |ops| :: Covered(ranges, k) <==> NearChange(ops, k, bound)
  }

  /** Maximal runs are unique: the source's merging loop has no freedom left. */
  lemma {:induction false} HunkingIsUnique(ops: seq<DiffOp>, a: seq<Range>, b: seq<Range>)
    requires Hunking(ops, a, |ops|) && Hunking(ops, b, |ops|)
    ensures a == b
  {
    SameCoverSameRanges(ops, a, b);
  }

  lemma {:induction false} SameCoverSameRanges(ops: seq<DiffOp>, a: seq<Range>, b: seq<Range>)
    requires Separated(ops, a) && Separated(ops, b)
    requires forall k | 0 <= k < |ops| :: Covered(a, k) <==> Covered(b, k)
    ensures a == b
    decreases |a|
  {
    if a == [] || b == [] {
      if a != [] {
        assert Covered(a, a[0].0);
      } else if b != [] {
        assert Covered(b, b[0].0);
      }
    } else {
      var x, y := a[|a| - 1], b[|b| - 1];
      LastRangeMatches(ops, a, b);
      LastRangeMatches(ops, b, a);
      assert x == y;
      var a', b' := a[..|a| - 1], b[..|b| - 1];
      forall k | 0 <= k < |ops| ensures Covered(a', k) <==> Covered(b', k) {
        CoveredByInit(ops, a, k);
        CoveredByInit(ops, b, k);
      }
      SameCoverSameRanges(ops, a', b');
      assert a == a[..|a| - 1] + [x] && b == b[..|b| - 1] + [y];
    }
  }

  lemma CoveredByInit(ops: seq<DiffOp>, a: seq<Range>, k: int)
    requires a != [] && Separated(ops, a)
    ensures Covered(a[..|a| - 1], k) <==> Covered(a, k) && !(a[|a| - 1].0 <= k < a[|a| - 1].1)
  {
    var a' := a[..|a| - 1];
    if Covered(a', k) {
      var r :| 0 <= r < |a'| && a'[r].0 <= k < a'[r].1;
      assert a[r] == a'[r];
    }
    if Covered(a, k) && !(a[|a| - 1].0 <= k < a[|a| - 1].1) {
      var r :| 0 <= r < |a| && a[r].0 <= k < a[r].1;
      assert a'[r] == a[r];
    }
  }

  lemma LastRangeMatches(ops: seq<DiffOp>, a: seq<Range>, b: seq<Range>)
    requires a != [] && b != [] && Separated(ops, a) && Separated(ops, b)
    requires forall k | 0 <= k < |ops| :: Covered(a, k) <==> Covered(b, k)
    ensures a[|a| - 1].1 <= b[|b| - 1].1
    ensures a[|a| - 1].1 == b[|b| - 1].1 ==> b[|b| - 1].0 <= a[|a| - 1].0
  {
    var x, y := a[|a| - 1], b[|b| - 1];
    assert Covered(a, x.1 - 1);
    var r :| 0 <= r < |b| && b[r].0 <= x.1 - 1 < b[r].1;
    if x.1 == y.1 && x.0 < y.0 {
      CoveredByLast(a, y.0 - 1);
      NotCoveredBeforeLast(ops, b);
    }
  }

  /** What a maximal run looks like: only unchanged lines lie outside the hunks, and each hunk
      starts and ends with at most three lines of context around a change. */
  lemma HunkEdges(ops: seq<DiffOp>, ranges: seq<Range>, r: nat)
    requires Hunking(ops, ranges, |ops|) && r < |ranges|
    ensures exists c :: ChangeAt(ops, c) && ranges[r].0 <= c <= ranges[r].0 + CONTEXT && c < ranges[r].1
    ensures exists c :: ChangeAt(ops, c) && ranges[r].1 - 1 - CONTEXT <= c < ranges[r].1 && ranges[r].0 <= c
    ensures forall k | 0 <= k < |ops| && !Covered(ranges, k) :: ops[k].Equal?
    ensures forall k | ranges[r].0 - 1 <= k <= ranges[r].1 && 0 <= k < |ops| && !(ranges[r].0 <= k < ranges[r].1) :: !Covered(ranges, k)
  {
    var (s, e) := ranges[r];
    forall k | 0 <= k < |ops| && !Covered(ranges, k) ensures ops[k].Equal? {
      assert !NearChange(ops, k, |ops|);
      assert !ChangeAt(ops, k);
    }
    forall k | s - 1 <= k <= e && 0 <= k < |ops| && !(s <= k < e) ensures !Covered(ranges, k) {
    }
    assert Covered(ranges, s) && Covered(ranges, e - 1);
    NearestInside(ops, ranges, r, s);
    NearestInside(ops, ranges, r, e - 1);
  }

  lemma NotCoveredBeside(ops: seq<DiffOp>, ranges: seq<Range>, r: nat, k: int)
    requires Separated(ops, ranges) && r < |ranges| && (k + 1 == ranges[r].0 || k == ranges[r].1)
    ensures !Covered(ranges, k)
  {
  }

  /** The change that puts operation k into hunk r is itself in hunk r. */
  lemma NearestInside(ops: seq<DiffOp>, ranges: seq<Range>, r: nat, k: nat)
    requires Hunking(ops, ranges, |ops|) && r < |ranges| && ranges[r].0 <= k < ranges[r].1
    ensures exists c :: ChangeAt(ops, c) && ranges[r].0 <= c < ranges[r].1 && c - CONTEXT <= k <= c + CONTEXT
  {
    assert Covered(ranges, k);
    var c :| ChangeAt(ops, c) && c - CONTEXT <= k <= c + CONTEXT;
    var (s, e) := ranges[r];
    if c < s {
      assert NearBetween(ops, s as int - 1, 0, |ops|);
      NotCoveredBeside(ops, ranges, r, s as int - 1);
    } else if c >= e {
      assert NearBetween(ops, e, 0, |ops|);
      NotCoveredBeside(ops, ranges, r, e);
    }
  }

  // ---------------------------------------------------------------- finding the hunks

  /** One iteration of the outer loop of `buildHunks`, from a change found at `index`. */
  method NextHunk(ops: seq<DiffOp>, index: nat) returns (start: nat, stop: nat, end: nat)
    requires ChangeAt(ops, index)
    ensures index < end <= |ops|
    ensures start == (if index < CONTEXT then 0 else index - CONTEXT)
    ensures start <= index < stop <= end
    ensures forall k | 0 <= k < |ops| ::
      (start <= k < stop) <==> NearBetween(ops, k, index, end)
    ensures end < |ops| ==> stop == end - CONTEXT && ops[end].Equal?
  {
    start := if index < CONTEXT then 0 else index - CONTEXT;
    end := index;
    var trailingEquals := 0;
    ghost var last := index;
    while end < |ops|
      invariant index <= end <= |ops| && 0 <= trailingEquals <= 2 * CONTEXT
      invariant end == index ==> trailingEquals == 0
      invariant end > index ==> index <= last == end - trailingEquals - 1 && ChangeAt(ops, last)
      invariant end > index ==> forall k | last < k < end :: ops[k].Equal?
      invariant end > index ==> forall k | start <= k <= last :: NearBetween(ops, k, index, end)
    {
      ghost var next := end + 1;
      forall k | start <= k <= last && end > index ensures NearBetween(ops, k, index, next) {
        assert NearBetween(ops, k, index, end);
      }
      if ops[end].Equal? {
        trailingEquals := trailingEquals + 1;
        if trailingEquals > CONTEXT * 2 {
          break;
        }
      } else {
        trailingEquals := 0;
        forall k | start <= k <= end ensures NearBetween(ops, k, index, next) {
          if end > index && k <= last {
          } else if end > index && k <= last + CONTEXT {
            assert ChangeAt(ops, last);
          } else {
            assert ChangeAt(ops, end);
          }
        }
        last := end;
      }
      end := end + 1;
    }
    var trailing := CountTrailingEquals(ops[start..end]);
    TrailingIs(ops, start, end, last, trailing);
    stop := if trailing > CONTEXT then end - (trailing - CONTEXT) else end;
    forall k | 0 <= k < |ops| ensures (start <= k < stop) <==> NearBetween(ops, k, index, end) {
      if last < k < stop {
        assert ChangeAt(ops, last);
      }
    }
  }

  method CountTrailingEquals(hunk: seq<DiffOp>) returns (trailing: nat)
    ensures trailing <= |hunk|
    ensures forall k | |hunk| - trailing <= k < |hunk| :: hunk[k].Equal?
    ensures trailing < |hunk| ==> !hunk[|hunk| - 1 - trailing].Equal?
  {
    trailing := 0;
    while trailing < |hunk| && hunk[|hunk| - 1 - trailing].Equal?
      invariant trailing <= |hunk|
      invariant forall k | |hunk| - trailing <= k < |hunk| :: hunk[k].Equal?
    {
      trailing := trailing + 1;
    }
  }

  lemma TrailingIs(ops: seq<DiffOp>, start: nat, end: nat, last: nat, trailing: nat)
    requires start <= last < end <= |ops| && ChangeAt(ops, last)
    requires forall k | last < k < end :: ops[k].Equal?
    requires trailing <= end - start
    requires forall k | end - start - trailing <= k < end - start :: ops[start..end][k].Equal?
    requires trailing < end - start ==> !ops[start..end][end - start - 1 - trailing].Equal?
    ensures trailing == end - 1 - last
  {
    assert ops[start..end][last - start] == ops[last];
    if trailing < end - start {
      assert ops[start..end][end - start - 1 - trailing] == ops[end - 1 - trailing];
    }
  }

  lemma NearGrows(ops: seq<DiffOp>, index: nat, first: nat, end: nat, k: int)
    requires index <= first <= end <= |ops|
    requires forall c | index <= c < first :: ops[c].Equal?
    ensures NearChange(ops, k, end) <==> NearChange(ops, k, index) || NearBetween(ops, k, first, end)
  {
  }

  /** Everything left to scan is too far from the last hunk to touch it. */
  ghost predicate Resumable(ops: seq<DiffOp>, ranges: seq<Range>, index: nat) {
    ranges != [] ==>
      index == |ops| || (CONTEXT <= index < |ops| && ops[index].Equal? && ranges[|ranges| - 1].1 == index - CONTEXT)
  }

  lemma AppendRange(ops: seq<DiffOp>, ranges: seq<Range>, index: nat, first: nat, start: nat, stop: nat, end: nat)
    requires index <= first < end <= |ops| && Hunking(ops, ranges, index) && Resumable(ops, ranges, index)
    requires forall c | index <= c < first :: ops[c].Equal?
    requires ChangeAt(ops, first)
    requires start == (if first < CONTEXT then 0 else first - CONTEXT) && start < stop <= end
    requires forall k | 0 <= k < |ops| ::
      (start <= k < stop) <==> NearBetween(ops, k, first, end)
    ensures Hunking(ops, ranges + [(start, stop)], end)
  {
    var more := ranges + [(start, stop)];
    AppendSeparated(ops, ranges, index, first, start, stop);
    forall k | 0 <= k < |ops| ensures Covered(more, k) <==> NearChange(ops, k, end) {
      NearGrows(ops, index, first, end, k);
      CoveredByMore(ops, ranges, (start, stop), k);
    }
  }

  lemma AppendSeparated(ops: seq<DiffOp>, ranges: seq<Range>, index: nat, first: nat, start: nat, stop: nat)
    requires index <= first < |ops| && Hunking(ops, ranges, index) && Resumable(ops, ranges, index)
    requires start == (if first < CONTEXT then 0 else first - CONTEXT) && start < stop <= |ops|
    requires ChangeAt(ops, first)
    ensures Separated(ops, ranges + [(start, stop)])
  {
  }

  lemma CoveredByMore(ops: seq<DiffOp>, ranges: seq<Range>, r: Range, k: int)
    requires Separated(ops, ranges + [r])
    ensures Covered(ranges + [r], k) <==> Covered(ranges, k) || r.0 <= k < r.1
  {
    var more := ranges + [r];
    assert more[..|more| - 1] == ranges;
    CoveredByInit(ops, more, k);
    if r.0 <= k < r.1 {
      CoveredByLast(more, k);
    }
  }

  lemma NotCoveredBeforeLast(ops: seq<DiffOp>, ranges: seq<Range>)
    requires ranges != [] && Separated(ops, ranges)
    ensures 0 < ranges[|ranges| - 1].0 ==> !Covered(ranges, ranges[|ranges| - 1].0 - 1)
  {
  }

  lemma CoveredByLast(ranges: seq<Range>, k: int)
    requires ranges != [] && ranges[|ranges| - 1].0 <= k < ranges[|ranges| - 1].1
    ensures Covered(ranges, k)
  {
  }

  /** The outer loop of `buildHunks`. */
  method FindHunks(ops: seq<DiffOp>) returns (ranges: seq<Range>)
    ensures Hunking(ops, ranges, |ops|)
  {
    ranges := [];
    var index := 0;
    while index < |ops|
      invariant 0 <= index <= |ops|
      invariant Hunking(ops, ranges, index) && Resumable(ops, ranges, index)
    {
      ghost var from := index;
      while index < |ops| && ops[index].Equal?
        invariant from <= index <= |ops|
        invariant forall c | from <= c < index :: ops[c].Equal?
      {
        index := index + 1;
      }
      if index >= |ops| {
        forall k | 0 <= k < |ops| ensures NearChange(ops, k, index) <==> NearChange(ops, k, from) {
          NearGrows(ops, from, index, index, k);
        }
        break;
      }
      var start, stop, end := NextHunk(ops, index);
      AppendRange(ops, ranges, from, index, start, stop, end);
      ranges := ranges + [(start, stop)];
      index := end;
    }
  }
}
