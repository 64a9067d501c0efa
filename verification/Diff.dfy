/** The line diff of src/diff.ts: an edit script that spells both files, shortest when the table is used. */
module Diff {
  const TABLE_CELL_LIMIT := 4_000_000

  newtype uint32 = x: int | 0 <= x < 0x1_0000_0000

  datatype DiffOp =
    | Equal(line: string, oldLine: nat, newLine: nat)
    | Delete(line: string, oldLine: nat)
    | Insert(line: string, newLine: nat)

  /** The lines of the old file that a script keeps or deletes, in order. */
  function OldSide(ops: seq<DiffOp>): seq<string> {
    if ops == [] then []
    else OldSide(ops[..|ops| - 1]) + (if ops[|ops| - 1].Insert? then [] else [ops[|ops| - 1].line])
  }

  /** The lines of the new file that a script keeps or inserts, in order. */
  function NewSide(ops: seq<DiffOp>): seq<string> {
    if ops == [] then []
    else NewSide(ops[..|ops| - 1]) + (if ops[|ops| - 1].Delete? then [] else [ops[|ops| - 1].line])
  }

  /** The lines a script keeps. */
  function Kept(ops: seq<DiffOp>): seq<string> {
    if ops == [] then []
    else Kept(ops[..|ops| - 1]) + (if ops[|ops| - 1].Equal? then [ops[|ops| - 1].line] else [])
  }

  /** Operation k carries the exact 1-based numbers of its line in either file. */
  ghost predicate NumberedAt(ops: seq<DiffOp>, k: nat)
    requires k < |ops|
  {
    && (!ops[k].Insert? ==> ops[k].oldLine == |OldSide(ops[..k])| + 1)
    && (!ops[k].Delete? ==> ops[k].newLine == |NewSide(ops[..k])| + 1)
  }

  ghost predicate Numbered(ops: seq<DiffOp>) {
    forall k: nat | k < |ops| :: NumberedAt(ops, k)
  }

  /** The script rewrites `old` into `new`, with exact line numbers. */
  ghost predicate Spells(ops: seq<DiffOp>, before: seq<string>, after: seq<string>) {
    OldSide(ops) == before && NewSide(ops) == after && Numbered(ops)
  }

  lemma PushOp(ops: seq<DiffOp>, op: DiffOp)
    requires Numbered(ops)
    requires !op.Insert? ==> op.oldLine == |OldSide(ops)| + 1
    requires !op.Delete? ==> op.newLine == |NewSide(ops)| + 1
    ensures Numbered(ops + [op])
    ensures OldSide(ops + [op]) == OldSide(ops) + (if op.Insert? then [] else [op.line])
    ensures NewSide(ops + [op]) == NewSide(ops) + (if op.Delete? then [] else [op.line])
    ensures Kept(ops + [op]) == Kept(ops) + (if op.Equal? then [op.line] else [])
  {
    var more := ops + [op];
    assert more[..|more| - 1] == ops;
    forall k: nat | k < |more| ensures NumberedAt(more, k) {
      if k < |ops| {
        assert NumberedAt(ops, k);
        assert more[..k] == ops[..k];
      } else {
        assert more[..k] == ops;
      }
    }
  }

  lemma PushEqual(ops: seq<DiffOp>, before: seq<string>, after: seq<string>, i: nat, j: nat)
    requires i < |before| && j < |after| && before[i] == after[j]
    requires Spells(ops, before[..i], after[..j])
    ensures Spells(ops + [Equal(before[i], i + 1, j + 1)], before[..i + 1], after[..j + 1])
    ensures |Kept(ops + [Equal(before[i], i + 1, j + 1)])| == |Kept(ops)| + 1
  {
    PushOp(ops, Equal(before[i], i + 1, j + 1));
  }

  lemma PushDelete(ops: seq<DiffOp>, before: seq<string>, after: seq<string>, i: nat, j: nat)
    requires i < |before| && j <= |after|
    requires Spells(ops, before[..i], after[..j])
    ensures Spells(ops + [Delete(before[i], i + 1)], before[..i + 1], after[..j])
    ensures |Kept(ops + [Delete(before[i], i + 1)])| == |Kept(ops)|
  {
    PushOp(ops, Delete(before[i], i + 1));
  }

  lemma PushInsert(ops: seq<DiffOp>, before: seq<string>, after: seq<string>, i: nat, j: nat)
    requires i <= |before| && j < |after|
    requires Spells(ops, before[..i], after[..j])
    ensures Spells(ops + [Insert(after[j], j + 1)], before[..i], after[..j + 1])
    ensures |Kept(ops + [Insert(after[j], j + 1)])| == |Kept(ops)|
  {
    PushOp(ops, Insert(after[j], j + 1));
  }

  // ---------------------------------------------------------------- common subsequences

  ghost predicate Subsequence(s: seq<string>, t: seq<string>) {
    s == [] || (t != [] && ((s[0] == t[0] && Subsequence(s[1..], t[1..])) || Subsequence(s, t[1..])))
  }

  lemma {:induction false} SubsequenceTail(s: seq<string>, t: seq<string>)
    requires s != [] && t != [] && Subsequence(s, t)
    ensures Subsequence(s[1..], t[1..])
    decreases |t|
  {
    if Subsequence(s, t[1..]) {
      SubsequenceDrop(s, t[1..]);
    }
  }

  lemma {:induction false} SubsequenceDrop(s: seq<string>, t: seq<string>)
    requires s != [] && Subsequence(s, t)
    ensures Subsequence(s[1..], t)
    decreases |t|
  {
    if Subsequence(s, t[1..]) {
      SubsequenceDrop(s, t[1..]);
    }
  }

  lemma {:induction false} SubsequenceAppend(s: seq<string>, t: seq<string>, x: string)
    requires Subsequence(s, t)
    ensures Subsequence(s + [x], t + [x])
    ensures Subsequence(s, t + [x])
    decreases |t|
  {
    if t == [] {
      assert Subsequence([x][1..], [x][1..]);
      assert s + [x] == [x] && t + [x] == [x];
    } else {
      assert (t + [x])[1..] == t[1..] + [x];
      if s == [] {
        assert Subsequence([], t[1..]);
        SubsequenceAppend([], t[1..], x);
        assert s + [x] == [] + [x];
      } else if s[0] == t[0] && Subsequence(s[1..], t[1..]) {
        assert (s + [x])[1..] == s[1..] + [x];
        SubsequenceAppend(s[1..], t[1..], x);
      } else {
        SubsequenceAppend(s, t[1..], x);
      }
    }
  }

  /** The table's recurrence: the value of the cell for the suffixes old[i..] and new[j..]. */
  function Lcs(before: seq<string>, after: seq<string>, i: nat, j: nat): (n: nat)
    requires i <= |before| && j <= |after|
    ensures n <= |before| - i && n <= |after| - j
    decreases |before| - i + |after| - j
  {
    if i == |before| || j == |after| then 0
    else if before[i] == after[j] then Lcs(before, after, i + 1, j + 1) + 1
    else
      var down := Lcs(before, after, i + 1, j);
      var right := Lcs(before, after, i, j + 1);
      if down >= right then down else right
  }

  /** No common subsequence is longer than the table's value. */
  lemma {:induction false} LcsIsUpperBound(s: seq<string>, before: seq<string>, after: seq<string>, i: nat, j: nat)
    requires i <= |before| && j <= |after|
    requires Subsequence(s, before[i..]) && Subsequence(s, after[j..])
    ensures |s| <= Lcs(before, after, i, j)
    decreases |before| - i + |after| - j
  {
    if s != [] && i < |before| && j < |after| {
      assert before[i..][1..] == before[i + 1..] && after[j..][1..] == after[j + 1..];
      if before[i] == after[j] {
        SubsequenceTail(s, before[i..]);
        SubsequenceTail(s, after[j..]);
        LcsIsUpperBound(s[1..], before, after, i + 1, j + 1);
      } else if s[0] != before[i] {
        LcsIsUpperBound(s, before, after, i + 1, j);
      } else {
        LcsIsUpperBound(s, before, after, i, j + 1);
      }
    }
  }

  /** What any script keeps is a common subsequence of the two files it spells. */
  lemma {:induction false} KeptIsCommon(ops: seq<DiffOp>)
    ensures Subsequence(Kept(ops), OldSide(ops)) && Subsequence(Kept(ops), NewSide(ops))
    ensures |ops| == |OldSide(ops)| + |NewSide(ops)| - |Kept(ops)|
  {
    if ops != [] {
      var init, last := ops[..|ops| - 1], ops[|ops| - 1];
      KeptIsCommon(init);
      SubsequenceAppend(Kept(init), OldSide(init), last.line);
      SubsequenceAppend(Kept(init), NewSide(init), last.line);
      assert Kept(init) + [] == Kept(init) && OldSide(init) + [] == OldSide(init) && NewSide(init) + [] == NewSide(init);
    }
  }

  /** A script keeping as many lines as the table promises is minimal: every script that
      spells the same two files keeps no more lines and is at least as long. */
  lemma LongestKeepsIsShortest(ops: seq<DiffOp>, other: seq<DiffOp>, before: seq<string>, after: seq<string>)
    requires OldSide(ops) == OldSide(other) == before && NewSide(ops) == NewSide(other) == after
    requires |Kept(ops)| == Lcs(before, after, 0, 0)
    ensures |Kept(other)| <= |Kept(ops)| && |ops| <= |other|
  {
    KeptIsCommon(ops);
    KeptIsCommon(other);
    assert before[0..] == before && after[0..] == after;
    LcsIsUpperBound(Kept(other), before, after, 0, 0);
  }

  // ---------------------------------------------------------------- the flat table

  lemma CellBounds(i: nat, j: nat, width: nat, rows: nat)
    requires i < rows && j < width
    ensures 0 <= i * width + j < rows * width
  {
    assert (i + 1) * width <= rows * width;
  }

  lemma CellsDistinct(i: nat, j: nat, i': nat, j': nat, width: nat)
    requires j < width && j' < width && (i, j) != (i', j')
    ensures i * width + j != i' * width + j'
  {
    if i < i' {
      assert (i + 1) * width <= i' * width;
    } else if i' < i {
      assert (i' + 1) * width <= i * width;
    }
  }

  function Cell(i: nat, j: nat, width: nat): nat {
    i * width + j
  }

  /** Cell (i, j) of the row-major table holds the recurrence's value. */
  ghost predicate CellHolds(cells: seq<uint32>, before: seq<string>, after: seq<string>, i: nat, j: nat)
    requires i <= |before| && j <= |after|
    requires |cells| == (|before| + 1) * (|after| + 1)
  {
    CellBounds(i, j, |after| + 1, |before| + 1);
    cells[Cell(i, j, |after| + 1)] as int == Lcs(before, after, i, j)
  }

  /** Every cell from (row, column) on in the filling order holds the recurrence's value, as do
      the last row and the last column. */
  ghost predicate FilledFrom(cells: seq<uint32>, before: seq<string>, after: seq<string>, row: int, column: int) {
    && |cells| == (|before| + 1) * (|after| + 1)
    && forall i: nat, j: nat
         | i <= |before| && j <= |after| && (i > row || j == |after| || (i == row && j >= column)) ::
         CellHolds(cells, before, after, i, j)
  }

  /** One step of the table loop: filling cell (i, j) keeps every cell filled before. */
  lemma FillOne(cells: seq<uint32>, before: seq<string>, after: seq<string>, i: nat, j: nat, value: uint32)
    requires i < |before| && j < |after|
    requires FilledFrom(cells, before, after, i, j + 1)
    requires value as int == Lcs(before, after, i, j)
    ensures 0 <= Cell(i, j, |after| + 1) < |cells|
    ensures FilledFrom(cells[Cell(i, j, |after| + 1) := value], before, after, i, j)
  {
    var width := |after| + 1;
    CellBounds(i, j, width, |before| + 1);
    var more := cells[Cell(i, j, width) := value];
    forall i': nat, j': nat
      | i' <= |before| && j' <= |after| && (i' > i || j' == |after| || (i' == i && j' >= j))
      ensures CellHolds(more, before, after, i', j')
    {
      CellBounds(i', j', width, |before| + 1);
      if (i', j') != (i, j) {
        CellsDistinct(i', j', i, j, width);
        assert CellHolds(cells, before, after, i', j');
      }
    }
  }

  method FillTable(before: seq<string>, after: seq<string>) returns (table: array<uint32>)
    requires |before| * |after| <= TABLE_CELL_LIMIT
    ensures FilledFrom(table[..], before, after, -1, 0)
  {
    var width := |after| + 1;
    table := new uint32[(|before| + 1) * width](_ => 0);
    FreshTableFilled(table[..], before, after);
    var oldIndex := |before| - 1;
    while oldIndex >= 0
      invariant -1 <= oldIndex < |before|
      invariant FilledFrom(table[..], before, after, oldIndex, |after|)
    {
      var newIndex := |after| - 1;
      while newIndex >= 0
        invariant -1 <= newIndex < |after|
        invariant FilledFrom(table[..], before, after, oldIndex, newIndex + 1)
      {
        FillCell(table, before, after, oldIndex, newIndex);
        newIndex := newIndex - 1;
      }
      oldIndex := oldIndex - 1;
    }
  }

  lemma FreshTableFilled(cells: seq<uint32>, before: seq<string>, after: seq<string>)
    requires |cells| == (|before| + 1) * (|after| + 1)
    requires forall k | 0 <= k < |cells| :: cells[k] == 0
    ensures FilledFrom(cells, before, after, |before| - 1, |after|)
  {
    forall i: nat, j: nat | i <= |before| && j <= |after| && (i == |before| || j == |after|)
      ensures CellHolds(cells, before, after, i, j)
    {
      CellBounds(i, j, |after| + 1, |before| + 1);
    }
  }

  /** The value stored for cell (i, j), read from the three cells filled before it. */
  function CellValue(cells: seq<uint32>, before: seq<string>, after: seq<string>, i: nat, j: nat): (value: int)
    requires i < |before| && j < |after| && |cells| == (|before| + 1) * (|after| + 1)
  {
    var width := |after| + 1;
    CellBounds(i + 1, j + 1, width, |before| + 1);
    CellBounds(i + 1, j, width, |before| + 1);
    CellBounds(i, j + 1, width, |before| + 1);
    if before[i] == after[j] then cells[Cell(i + 1, j + 1, width)] as int + 1
    else if cells[Cell(i + 1, j, width)] >= cells[Cell(i, j + 1, width)] then cells[Cell(i + 1, j, width)] as int
    else cells[Cell(i, j + 1, width)] as int
  }

  lemma CellValueIsLcs(cells: seq<uint32>, before: seq<string>, after: seq<string>, i: nat, j: nat)
    requires i < |before| && j < |after| && |before| * |after| <= TABLE_CELL_LIMIT
    requires FilledFrom(cells, before, after, i, j + 1)
    ensures CellValue(cells, before, after, i, j) == Lcs(before, after, i, j) <= TABLE_CELL_LIMIT
  {
    assert CellHolds(cells, before, after, i + 1, j + 1);
    assert CellHolds(cells, before, after, i + 1, j);
    assert CellHolds(cells, before, after, i, j + 1);
    LcsSmall(before, after, i, j);
  }

  lemma LcsSmall(before: seq<string>, after: seq<string>, i: nat, j: nat)
    requires i < |before| && j < |after| && |before| * |after| <= TABLE_CELL_LIMIT
    ensures Lcs(before, after, i, j) <= TABLE_CELL_LIMIT
  {
    AtLeastTimes(|before|, |after|);
  }

  lemma AtLeastTimes(m: nat, n: nat)
    requires n > 0
    ensures m <= m * n
  {
  }

  /** The body of the table loop. */
  method FillCell(table: array<uint32>, before: seq<string>, after: seq<string>, i: nat, j: nat)
    requires i < |before| && j < |after| && |before| * |after| <= TABLE_CELL_LIMIT
    requires FilledFrom(table[..], before, after, i, j + 1)
    modifies table
    ensures FilledFrom(table[..], before, after, i, j)
  {
    ghost var cells := table[..];
    var value := ReadValue(table, before, after, i, j);
    FillOne(cells, before, after, i, j, value);
    var offset := Cell(i, j, |after| + 1);
    table[offset] := value;
    assert table[..] == cells[offset := value];
  }

  method ReadValue(table: array<uint32>, before: seq<string>, after: seq<string>, i: nat, j: nat)
      returns (value: uint32)
    requires i < |before| && j < |after| && |before| * |after| <= TABLE_CELL_LIMIT
    requires FilledFrom(table[..], before, after, i, j + 1)
    ensures value as int == Lcs(before, after, i, j)
  {
    CellValueIsLcs(table[..], before, after, i, j);
    var width := |after| + 1;
    CellBounds(i + 1, j + 1, width, |before| + 1);
    CellBounds(i + 1, j, width, |before| + 1);
    CellBounds(i, j + 1, width, |before| + 1);
    if before[i] == after[j] {
      value := table[Cell(i + 1, j + 1, width)] + 1;
    } else {
      var down, right := table[Cell(i + 1, j, width)], table[Cell(i, j + 1, width)];
      value := if down >= right then down else right;
    }
  }

  lemma ReadCell(cells: seq<uint32>, before: seq<string>, after: seq<string>, i: nat, j: nat)
    requires |cells| == (|before| + 1) * (|after| + 1)
    requires i <= |before| && j <= |after| && CellHolds(cells, before, after, i, j)
    ensures 0 <= Cell(i, j, |after| + 1) < |cells|
    ensures cells[Cell(i, j, |after| + 1)] as int == Lcs(before, after, i, j)
  {
    CellBounds(i, j, |after| + 1, |before| + 1);
  }

  // ---------------------------------------------------------------- the two branches

  method DiffLines(before: seq<string>, after: seq<string>) returns (ops: seq<DiffOp>)
    ensures Spells(ops, before, after)
    ensures |before| * |after| <= TABLE_CELL_LIMIT ==> |Kept(ops)| == Lcs(before, after, 0, 0)
    ensures |before| * |after| > TABLE_CELL_LIMIT ==> KeepsEndsOnly(ops, before, after)
  {
    if |before| * |after| > TABLE_CELL_LIMIT {
      ops := DiffLinesByPrefixSuffix(before, after);
    } else {
      var table := FillTable(before, after);
      ops := WalkTable(table, before, after);
    }
  }

  /** The backtracking loops over the filled table. */
  method WalkTable(table: array<uint32>, before: seq<string>, after: seq<string>) returns (ops: seq<DiffOp>)
    requires FilledFrom(table[..], before, after, -1, 0)
    ensures Spells(ops, before, after)
    ensures |Kept(ops)| == Lcs(before, after, 0, 0)
  {
    ghost var cells := table[..];
    ops := [];
    var oldIndex, newIndex, oldLine, newLine := 0, 0, 1, 1;
    while oldIndex < |before| && newIndex < |after|
      invariant 0 <= oldIndex <= |before| && 0 <= newIndex <= |after|
      invariant oldLine == oldIndex + 1 && newLine == newIndex + 1
      invariant Spells(ops, before[..oldIndex], after[..newIndex])
      invariant |Kept(ops)| + Lcs(before, after, oldIndex, newIndex) == Lcs(before, after, 0, 0)
      decreases |before| - oldIndex + |after| - newIndex
    {
      if before[oldIndex] == after[newIndex] {
        PushEqual(ops, before, after, oldIndex, newIndex);
        ops := ops + [Equal(before[oldIndex], oldLine, newLine)];
        oldLine, newLine := oldLine + 1, newLine + 1;
        oldIndex, newIndex := oldIndex + 1, newIndex + 1;
      } else {
        var deletes := PreferDelete(table, before, after, oldIndex, newIndex);
        if deletes {
          PushDelete(ops, before, after, oldIndex, newIndex);
          ops := ops + [Delete(before[oldIndex], oldLine)];
          oldLine, oldIndex := oldLine + 1, oldIndex + 1;
        } else {
          PushInsert(ops, before, after, oldIndex, newIndex);
          ops := ops + [Insert(after[newIndex], newLine)];
          newLine, newIndex := newLine + 1, newIndex + 1;
        }
      }
    }
    ops := EmitRest(before, after, ops, oldIndex, newIndex);
  }

  method PreferDelete(table: array<uint32>, before: seq<string>, after: seq<string>, i: nat, j: nat)
      returns (deletes: bool)
    requires i < |before| && j < |after|
    requires FilledFrom(table[..], before, after, -1, 0)
    ensures deletes == (Lcs(before, after, i + 1, j) >= Lcs(before, after, i, j + 1))
  {
    var width := |after| + 1;
    ReadCell(table[..], before, after, i + 1, j);
    ReadCell(table[..], before, after, i, j + 1);
    deletes := table[Cell(i + 1, j, width)] >= table[Cell(i, j + 1, width)];
  }

  /** The two loops after the table walk: what is left of either file. */
  method EmitRest(before: seq<string>, after: seq<string>, head: seq<DiffOp>, i: nat, j: nat) returns (ops: seq<DiffOp>)
    requires i <= |before| && j <= |after| && Spells(head, before[..i], after[..j])
    ensures Spells(ops, before, after) && |Kept(ops)| == |Kept(head)|
  {
    ops := head;
    var oldIndex, newIndex := i, j;
    while oldIndex < |before|
      invariant 0 <= oldIndex <= |before|
      invariant Spells(ops, before[..oldIndex], after[..j]) && |Kept(ops)| == |Kept(head)|
    {
      PushDelete(ops, before, after, oldIndex, j);
      ops := ops + [Delete(before[oldIndex], oldIndex + 1)];
      oldIndex := oldIndex + 1;
    }
    while newIndex < |after|
      invariant 0 <= newIndex <= |after|
      invariant Spells(ops, before[..|before|], after[..newIndex]) && |Kept(ops)| == |Kept(head)|
    {
      PushInsert(ops, before, after, |before|, newIndex);
      ops := ops + [Insert(after[newIndex], newIndex + 1)];
      newIndex := newIndex + 1;
    }
    assert before[..|before|] == before && after[..|after|] == after;
  }

  /** p is the length of the longest common prefix of the two files. */
  ghost predicate LongestPrefix(before: seq<string>, after: seq<string>, p: nat) {
    && p <= |before| && p <= |after| && before[..p] == after[..p]
    && (p < |before| && p < |after| ==> before[p] != after[p])
  }

  /** s is the length of the longest common suffix that leaves the first p lines alone. */
  ghost predicate LongestSuffix(before: seq<string>, after: seq<string>, p: nat, s: nat) {
    && p + s <= |before| && p + s <= |after| && before[|before| - s..] == after[|after| - s..]
    && (p + s < |before| && p + s < |after| ==> before[|before| - s - 1] != after[|after| - s - 1])
  }

  /** A script of the linear fallback: the longest common prefix, every remaining old line
      deleted, every remaining new line inserted, then the longest remaining common suffix. */
  ghost predicate KeepsEndsOnly(ops: seq<DiffOp>, before: seq<string>, after: seq<string>) {
    exists p: nat, s: nat ::
      && LongestPrefix(before, after, p) && LongestSuffix(before, after, p, s)
      && ShapedAsEnds(ops, p, |before| - p - s, |after| - p - s, s)
  }

  ghost predicate ShapedAsEnds(ops: seq<DiffOp>, p: nat, deleted: nat, inserted: nat, s: nat) {
    && |ops| == p + deleted + inserted + s
    && forall k | 0 <= k < |ops| ::
         if k < p then ops[k].Equal?
         else if k < p + deleted then ops[k].Delete?
         else if k < p + deleted + inserted then ops[k].Insert?
         else ops[k].Equal?
  }

  method DiffLinesByPrefixSuffix(before: seq<string>, after: seq<string>) returns (ops: seq<DiffOp>)
    ensures Spells(ops, before, after)
    ensures KeepsEndsOnly(ops, before, after)
  {
    var prefix := 0;
    while prefix < |before| && prefix < |after| && before[prefix] == after[prefix]
      invariant 0 <= prefix <= |before| && prefix <= |after|
      invariant before[..prefix] == after[..prefix]
    {
      prefix := prefix + 1;
    }
    var oldSuffix, newSuffix := |before| - 1, |after| - 1;
    while oldSuffix >= prefix && newSuffix >= prefix && before[oldSuffix] == after[newSuffix]
      invariant prefix - 1 <= oldSuffix < |before| && prefix - 1 <= newSuffix < |after|
      invariant |before| - oldSuffix == |after| - newSuffix
      invariant before[oldSuffix + 1..] == after[newSuffix + 1..]
    {
      LongerSuffix(before, after, oldSuffix, newSuffix);
      oldSuffix, newSuffix := oldSuffix - 1, newSuffix - 1;
    }
    ops := EmitEnds(before, after, prefix, oldSuffix, newSuffix);
    EndsKept(ops, before, after, prefix, |before| - 1 - oldSuffix);
  }

  lemma LongerSuffix(before: seq<string>, after: seq<string>, i: nat, j: nat)
    requires i < |before| && j < |after| && before[i] == after[j] && before[i + 1..] == after[j + 1..]
    ensures before[i..] == after[j..]
  {
    assert before[i..] == [before[i]] + before[i + 1..];
    assert after[j..] == [after[j]] + after[j + 1..];
  }

  lemma EndsKept(ops: seq<DiffOp>, before: seq<string>, after: seq<string>, p: nat, s: nat)
    requires LongestPrefix(before, after, p) && LongestSuffix(before, after, p, s)
    requires ShapedAsEnds(ops, p, |before| - p - s, |after| - p - s, s)
    ensures KeepsEndsOnly(ops, before, after)
  {
  }

  /** The emitting loops of the fallback, once the common ends are known. */
  method EmitEnds(before: seq<string>, after: seq<string>, prefix: nat, oldSuffix: int, newSuffix: int)
      returns (ops: seq<DiffOp>)
    requires prefix - 1 <= oldSuffix < |before| && prefix - 1 <= newSuffix < |after|
    requires before[..prefix] == after[..prefix]
    requires before[oldSuffix + 1..] == after[newSuffix + 1..]
    ensures Spells(ops, before, after)
    ensures ShapedAsEnds(ops, prefix, oldSuffix + 1 - prefix, newSuffix + 1 - prefix, |before| - 1 - oldSuffix)
  {
    ops := EmitPrefix(before, after, prefix);
    ops := EmitMiddle(before, after, ops, prefix, oldSuffix, newSuffix);
    ops := EmitTail(before, after, ops, prefix, oldSuffix + 1, newSuffix + 1);
  }

  method EmitPrefix(before: seq<string>, after: seq<string>, prefix: nat) returns (ops: seq<DiffOp>)
    requires prefix <= |before| && prefix <= |after| && before[..prefix] == after[..prefix]
    ensures Spells(ops, before[..prefix], after[..prefix])
    ensures ShapedAsEnds(ops, prefix, 0, 0, 0)
  {
    ops := [];
    for index := 0 to prefix
      invariant Spells(ops, before[..index], after[..index])
      invariant ShapedAsEnds(ops, index, 0, 0, 0)
    {
      assert before[..prefix][index] == after[..prefix][index];
      PushEqual(ops, before, after, index, index);
      ops := ops + [Equal(before[index], index + 1, index + 1)];
    }
  }

  method EmitMiddle(before: seq<string>, after: seq<string>, head: seq<DiffOp>, prefix: nat, oldSuffix: int, newSuffix: int)
      returns (ops: seq<DiffOp>)
    requires prefix - 1 <= oldSuffix < |before| && prefix - 1 <= newSuffix < |after|
    requires Spells(head, before[..prefix], after[..prefix]) && ShapedAsEnds(head, prefix, 0, 0, 0)
    ensures Spells(ops, before[..oldSuffix + 1], after[..newSuffix + 1])
    ensures ShapedAsEnds(ops, prefix, oldSuffix + 1 - prefix, newSuffix + 1 - prefix, 0)
  {
    ops := head;
    for index := prefix to oldSuffix + 1
      invariant Spells(ops, before[..index], after[..prefix])
      invariant ShapedAsEnds(ops, prefix, index - prefix, 0, 0)
    {
      PushDelete(ops, before, after, index, prefix);
      ops := ops + [Delete(before[index], index + 1)];
    }
    for index := prefix to newSuffix + 1
      invariant Spells(ops, before[..oldSuffix + 1], after[..index])
      invariant ShapedAsEnds(ops, prefix, oldSuffix + 1 - prefix, index - prefix, 0)
    {
      PushInsert(ops, before, after, oldSuffix + 1, index);
      ops := ops + [Insert(after[index], index + 1)];
    }
  }

  /** The common tails have been emitted up to the two indices. */
  ghost predicate TailEmitted(ops: seq<DiffOp>, before: seq<string>, after: seq<string>, prefix: nat, oldTailStart: nat,
                              newTailStart: nat, oldIndex: nat, newIndex: nat)
  {
    && prefix <= oldTailStart <= oldIndex <= |before| && prefix <= newTailStart && newIndex <= |after|
    && Spells(ops, before[..oldIndex], after[..newIndex])
    && ShapedAsEnds(ops, prefix, oldTailStart - prefix, newTailStart - prefix, oldIndex - oldTailStart)
  }

  lemma EmitTailOne(ops: seq<DiffOp>, before: seq<string>, after: seq<string>, prefix: nat, oldTailStart: nat,
                    newTailStart: nat, oldIndex: nat, newIndex: nat)
    requires TailEmitted(ops, before, after, prefix, oldTailStart, newTailStart, oldIndex, newIndex)
    requires oldIndex < |before| && newIndex < |after| && oldIndex - oldTailStart == newIndex - newTailStart
    requires before[oldTailStart..] == after[newTailStart..]
    ensures TailEmitted(ops + [Equal(before[oldIndex], oldIndex + 1, newIndex + 1)], before, after, prefix, oldTailStart,
                        newTailStart, oldIndex + 1, newIndex + 1)
  {
    TailsAgree(before, after, oldTailStart, newTailStart, oldIndex - oldTailStart);
    PushEqual(ops, before, after, oldIndex, newIndex);
    ShapePush(ops, Equal(before[oldIndex], oldIndex + 1, newIndex + 1), prefix, oldTailStart - prefix, newTailStart - prefix,
              oldIndex - oldTailStart);
  }

  method EmitTail(before: seq<string>, after: seq<string>, head: seq<DiffOp>, ghost prefix: nat,
                  oldTailStart: nat, newTailStart: nat)
      returns (ops: seq<DiffOp>)
    requires prefix <= oldTailStart <= |before| && prefix <= newTailStart <= |after|
    requires before[oldTailStart..] == after[newTailStart..]
    requires Spells(head, before[..oldTailStart], after[..newTailStart])
    requires ShapedAsEnds(head, prefix, oldTailStart - prefix, newTailStart - prefix, 0)
    ensures Spells(ops, before, after)
    ensures ShapedAsEnds(ops, prefix, oldTailStart - prefix, newTailStart - prefix, |before| - oldTailStart)
  {
    ops := head;
    var oldIndex, newIndex := oldTailStart, newTailStart;
    while oldIndex < |before| && newIndex < |after|
      invariant oldTailStart <= oldIndex <= |before| && |before| - oldIndex == |after| - newIndex
      invariant TailEmitted(ops, before, after, prefix, oldTailStart, newTailStart, oldIndex, newIndex)
    {
      EmitTailOne(ops, before, after, prefix, oldTailStart, newTailStart, oldIndex, newIndex);
      ops := ops + [Equal(before[oldIndex], oldIndex + 1, newIndex + 1)];
      oldIndex, newIndex := oldIndex + 1, newIndex + 1;
    }
    assert before[..oldIndex] == before && after[..newIndex] == after;
  }

  lemma TailsAgree(before: seq<string>, after: seq<string>, i: nat, j: nat, offset: nat)
    requires i + offset < |before| && j + offset < |after|
    requires before[i..] == after[j..]
    ensures before[i + offset] == after[j + offset]
  {
    assert before[i..][offset] == after[j..][offset];
  }

  lemma ShapePush(ops: seq<DiffOp>, op: DiffOp, p: nat, deleted: nat, inserted: nat, s: nat)
    requires ShapedAsEnds(ops, p, deleted, inserted, s) && op.Equal?
    ensures ShapedAsEnds(ops + [op], p, deleted, inserted, s + 1)
  {
  }
}
