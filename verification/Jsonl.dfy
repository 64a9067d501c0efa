/** Bounded JSONL records (`BoundedJsonlDecoder` of src/jsonl.ts). */
module Jsonl {
  import opened Utf16
  import opened Utf8Prefix
  import opened Accumulator

  const NEWLINE: CodeUnit := 0x0A
  const RETURN: CodeUnit := 0x0D

  // ---------------------------------------------------------------- text as lines

  /** The text after the last newline. */
  function Tail(t: Text): Text {
    if t == [] || t[|t| - 1] == NEWLINE then [] else Tail(t[..|t| - 1]) + [t[|t| - 1]]
  }

  /** The lines that a newline ends. */
  function Lines(t: Text): seq<Text> {
    if t == [] then []
    else if t[|t| - 1] == NEWLINE then Lines(t[..|t| - 1]) + [Tail(t[..|t| - 1])]
    else Lines(t[..|t| - 1])
  }

  function Ended(lines: seq<Text>): Text {
    if lines == [] then [] else Ended(lines[..|lines| - 1]) + (lines[|lines| - 1] + [NEWLINE])
  }

  /** Lines and tail put together again are the text, and hold no newline. */
  lemma {:induction false} LinesSpellText(t: Text)
    ensures Ended(Lines(t)) + Tail(t) == t
    ensures NEWLINE !in Tail(t) && forall k | 0 <= k < |Lines(t)| :: NEWLINE !in Lines(t)[k]
  {
    if t != [] {
      var n := |t| - 1;
      var lines, tail := Lines(t[..n]), Tail(t[..n]);
      LinesSpellText(t[..n]);
      assert t == t[..n] + [t[n]];
      if t[n] == NEWLINE {
        assert (lines + [tail])[..|lines|] == lines;
        assert Ended(lines) + (tail + [NEWLINE]) == (Ended(lines) + tail) + [NEWLINE];
      } else {
        assert Ended(lines) + (tail + [t[n]]) == (Ended(lines) + tail) + [t[n]];
      }
    }
  }

  lemma {:induction false} AddSegment(t: Text, segment: Text)
    requires NEWLINE !in segment
    ensures Tail(t + segment) == Tail(t) + segment && Lines(t + segment) == Lines(t)
  {
    if segment == [] {
      assert t + segment == t;
    } else {
      var n := |segment| - 1;
      AddSegment(t, segment[..n]);
      AddUnit(t + segment[..n], segment[n]);
      assert t + segment == (t + segment[..n]) + [segment[n]];
      assert Tail(t) + segment == (Tail(t) + segment[..n]) + [segment[n]];
    }
  }

  lemma AddUnit(t: Text, c: CodeUnit)
    requires c != NEWLINE
    ensures Tail(t + [c]) == Tail(t) + [c] && Lines(t + [c]) == Lines(t)
  {
    assert (t + [c])[..|t|] == t;
  }

  lemma AddNewline(t: Text)
    ensures Tail(t + [NEWLINE]) == [] && Lines(t + [NEWLINE]) == Lines(t) + [Tail(t)]
  {
    assert (t + [NEWLINE])[..|t|] == t;
  }

  // ---------------------------------------------------------------- records of a whole text

  function StripReturn(line: Text): Text {
    if line != [] && line[|line| - 1] == RETURN then line[..|line| - 1] else line
  }

  function Sizes(lines: seq<Text>): (r: seq<nat>)
    ensures |r| == |lines|
  {
    if lines == [] then [] else Sizes(lines[..|lines| - 1]) + [ByteLen(lines[|lines| - 1])]
  }

  /** The lines whose sizes fit, without their final carriage return. */
  function Kept(limit: nat, lines: seq<Text>, sizes: seq<nat>): seq<Text>
    requires |lines| == |sizes|
  {
    if lines == [] then []
    else
      var n := |lines| - 1;
      Kept(limit, lines[..n], sizes[..n]) + (if sizes[n] <= limit then [StripReturn(lines[n])] else [])
  }

  function Oversized(limit: nat, sizes: seq<nat>): nat {
    if sizes == [] then 0
    else Oversized(limit, sizes[..|sizes| - 1]) + if sizes[|sizes| - 1] > limit then 1 else 0
  }

  /** The records of a whole text: its lines, and its unended tail unless it is empty. */
  function RecordLines(t: Text): seq<Text> {
    Lines(t) + if Tail(t) == [] then [] else [Tail(t)]
  }

  function WholeRecords(limit: nat, t: Text): seq<Text> {
    Kept(limit, RecordLines(t), Sizes(RecordLines(t)))
  }

  function WholeOversized(limit: nat, t: Text): nat {
    Oversized(limit, Sizes(RecordLines(t)))
  }

  lemma PushKept(limit: nat, lines: seq<Text>, sizes: seq<nat>, line: Text, size: nat)
    requires |lines| == |sizes|
    ensures Kept(limit, lines + [line], sizes + [size])
      == Kept(limit, lines, sizes) + if size <= limit then [StripReturn(line)] else []
    ensures Oversized(limit, sizes + [size]) == Oversized(limit, sizes) + if size > limit then 1 else 0
  {
    assert (lines + [line])[..|lines|] == lines && (sizes + [size])[..|sizes|] == sizes;
  }

  lemma PushSizes(lines: seq<Text>, line: Text)
    ensures Sizes(lines + [line]) == Sizes(lines) + [ByteLen(line)]
  {
    assert (lines + [line])[..|lines|] == lines;
  }

  // ---------------------------------------------------------------- what the decoder has counted

  /** The text pushed, the bytes counted for each of its lines and for its tail, and whether no
      chunk boundary split a surrogate pair. */
  datatype Count = Count(text: Text, sizes: seq<nat>, tailSize: nat, clean: bool)

  /** The counts never fall short of the actual sizes. */
  ghost predicate AtLeast(sizes: seq<nat>, lines: seq<Text>) {
    |sizes| == |lines| && forall k | 0 <= k < |lines| :: sizes[k] >= ByteLen(lines[k])
  }

  ghost predicate Counted(c: Count) {
    && AtLeast(c.sizes, Lines(c.text)) && ByteLen(Tail(c.text)) <= c.tailSize
    && (Tail(c.text) == [] ==> c.tailSize == 0)
    && (c.clean ==> c.sizes == Sizes(Lines(c.text)) && c.tailSize == ByteLen(Tail(c.text)))
  }

  function AddText(c: Count, segment: Text): Count {
    Count(c.text + segment, c.sizes, c.tailSize + ByteLen(segment), c.clean && CleanJoin(c.text, segment))
  }

  function EndLine(c: Count): Count {
    Count(c.text + [NEWLINE], c.sizes + [c.tailSize], 0, c.clean)
  }

  lemma AddTextCounted(c: Count, segment: Text)
    requires Counted(c) && NEWLINE !in segment
    ensures Counted(AddText(c, segment))
  {
    AddSegment(c.text, segment);
    ByteLenOfJoin(Tail(c.text), segment);
  }

  lemma EndLineCounted(c: Count)
    requires Counted(c)
    ensures Counted(EndLine(c))
  {
    AddNewline(c.text);
    PushSizes(Lines(c.text), Tail(c.text));
  }

  // ---------------------------------------------------------------- the decoder's steps

  /** The fields of the decoder, with the records handed out. */
  datatype View = View(records: seq<Text>, oversized: nat, pending: Text, pendingBytes: nat, discarding: bool)

  const START := View([], 0, [], 0, false)

  function Emit(v: View): View {
    View(v.records + [StripReturn(v.pending)], v.oversized, [], 0, v.discarding)
  }

  function AppendTo(limit: nat, v: View, segment: Text, terminated: bool): View {
    if v.discarding then v.(discarding := !terminated)
    else if v.pendingBytes + ByteLen(segment) > limit then View(v.records, v.oversized + 1, [], 0, !terminated)
    else
      var w := v.(pending := v.pending + segment, pendingBytes := v.pendingBytes + ByteLen(segment));
      if terminated then Emit(w) else w
  }

  function IndexOfNewline(chunk: Text): (k: nat)
    ensures k <= |chunk| && NEWLINE !in chunk[..k] && (k < |chunk| ==> chunk[k] == NEWLINE)
  {
    if chunk == [] || chunk[0] == NEWLINE then 0 else IndexOfNewline(chunk[1..]) + 1
  }

  function PushTo(limit: nat, v: View, chunk: Text): View
    decreases |chunk|
  {
    var k := IndexOfNewline(chunk);
    if k == |chunk| then AppendTo(limit, v, chunk, false)
    else PushTo(limit, AppendTo(limit, v, chunk[..k], true), chunk[k + 1..])
  }

  function PushAll(limit: nat, chunks: seq<Text>): View {
    if chunks == [] then START else PushTo(limit, PushAll(limit, chunks[..|chunks| - 1]), chunks[|chunks| - 1])
  }

  function FinishTo(v: View): View {
    var w := if !v.discarding && v.pending != [] then Emit(v) else v;
    View(w.records, w.oversized, [], 0, false)
  }

  /** The fields that the counts call for. */
  function ViewOf(limit: nat, c: Count): View
    requires |c.sizes| == |Lines(c.text)|
  {
    var over := c.tailSize > limit;
    View(Kept(limit, Lines(c.text), c.sizes), Oversized(limit, c.sizes) + (if over then 1 else 0),
         if over then [] else Tail(c.text), if over then 0 else c.tailSize, over)
  }

  lemma AppendText(limit: nat, c: Count, segment: Text)
    requires Counted(c) && NEWLINE !in segment
    ensures Counted(AddText(c, segment))
    ensures AppendTo(limit, ViewOf(limit, c), segment, false) == ViewOf(limit, AddText(c, segment))
  {
    AddTextCounted(c, segment);
    AddSegment(c.text, segment);
  }

  lemma AppendEnd(limit: nat, c: Count)
    requires Counted(c)
    ensures Counted(EndLine(c))
    ensures ViewOf(limit, EndLine(c)) ==
      var v := ViewOf(limit, c); if v.discarding then v.(discarding := false) else Emit(v)
  {
    EndLineCounted(c);
    AddNewline(c.text);
    PushKept(limit, Lines(c.text), c.sizes, Tail(c.text), c.tailSize);
  }

  /** The counts after a chunk. */
  function PushCount(c: Count, chunk: Text): Count
    decreases |chunk|
  {
    var k := IndexOfNewline(chunk);
    if k == |chunk| then AddText(c, chunk) else PushCount(EndLine(AddText(c, chunk[..k])), chunk[k + 1..])
  }

  /** A chunk carries the counts of its text into the fields. */
  lemma {:induction false} PushMeans(limit: nat, c: Count, chunk: Text)
    requires Counted(c)
    ensures Counted(PushCount(c, chunk)) && PushTo(limit, ViewOf(limit, c), chunk) == ViewOf(limit, PushCount(c, chunk))
    ensures PushCount(c, chunk).text == c.text + chunk
    ensures PushCount(c, chunk).clean == (c.clean && CleanJoin(c.text, chunk))
    decreases |chunk|
  {
    var k := IndexOfNewline(chunk);
    AppendText(limit, c, chunk[..k]);
    if k == |chunk| {
      assert chunk[..|chunk|] == chunk;
    } else {
      var added := AddText(c, chunk[..k]);
      AppendEnd(limit, added);
      AppendBoth(limit, c, chunk[..k]);
      PushMeans(limit, EndLine(added), chunk[k + 1..]);
      TextAdds(c.text, chunk, k);
    }
  }

  lemma AppendBoth(limit: nat, c: Count, segment: Text)
    requires Counted(c) && NEWLINE !in segment && Counted(AddText(c, segment))
    requires AppendTo(limit, ViewOf(limit, c), segment, false) == ViewOf(limit, AddText(c, segment))
    requires var v := ViewOf(limit, AddText(c, segment));
      ViewOf(limit, EndLine(AddText(c, segment))) == if v.discarding then v.(discarding := false) else Emit(v)
    ensures AppendTo(limit, ViewOf(limit, c), segment, true) == ViewOf(limit, EndLine(AddText(c, segment)))
  {
  }

  lemma TextAdds(t: Text, chunk: Text, k: nat)
    requires k < |chunk| && chunk[k] == NEWLINE && NEWLINE !in chunk[..k]
    ensures ((t + chunk[..k]) + [NEWLINE]) + chunk[k + 1..] == t + chunk
    ensures CleanJoin(t, chunk[..k]) == CleanJoin(t, chunk)
    ensures CleanJoin((t + chunk[..k]) + [NEWLINE], chunk[k + 1..])
  {
  }

  /** The bytes counted for each record line: for its lines and, unless it is empty, its tail. */
  function RecordSizes(c: Count): seq<nat> {
    c.sizes + if Tail(c.text) == [] then [] else [c.tailSize]
  }

  /** At the end of the text, a non-empty tail that fits is a record too. */
  lemma ViewAtEnd(limit: nat, c: Count)
    requires Counted(c)
    ensures AtLeast(RecordSizes(c), RecordLines(c.text))
    ensures c.clean ==> RecordSizes(c) == Sizes(RecordLines(c.text))
    ensures FinishTo(ViewOf(limit, c)).records == Kept(limit, RecordLines(c.text), RecordSizes(c))
    ensures FinishTo(ViewOf(limit, c)).oversized == Oversized(limit, RecordSizes(c))
  {
    if Tail(c.text) == [] {
      NothingAdded(Lines(c.text), c.sizes);
    } else {
      PushSizes(Lines(c.text), Tail(c.text));
      PushKept(limit, Lines(c.text), c.sizes, Tail(c.text), c.tailSize);
    }
  }

  lemma NothingAdded(lines: seq<Text>, sizes: seq<nat>)
    ensures lines + [] == lines && sizes + [] == sizes
  {
  }

  // ---------------------------------------------------------------- chunking

  /** No boundary between chunks splits a surrogate pair. */
  ghost predicate CleanChunks(chunks: seq<Text>) {
    chunks == []
    || (CleanChunks(chunks[..|chunks| - 1]) && CleanJoin(Concat(chunks[..|chunks| - 1]), chunks[|chunks| - 1]))
  }

  /** The counts after all chunks. */
  function CountAll(chunks: seq<Text>): Count {
    if chunks == [] then Count([], [], 0, true) else PushCount(CountAll(chunks[..|chunks| - 1]), chunks[|chunks| - 1])
  }

  lemma {:induction false} PushAllMeans(limit: nat, chunks: seq<Text>)
    ensures Counted(CountAll(chunks)) && PushAll(limit, chunks) == ViewOf(limit, CountAll(chunks))
    ensures CountAll(chunks).text == Concat(chunks) && (CountAll(chunks).clean <==> CleanChunks(chunks))
  {
    if chunks == [] {
      assert Lines([]) == [] && Tail([]) == [];
    } else {
      PushAllMeans(limit, chunks[..|chunks| - 1]);
      PushMeans(limit, CountAll(chunks[..|chunks| - 1]), chunks[|chunks| - 1]);
    }
  }

  /** Whatever the chunks, the records are the lines of the whole text whose counted bytes fit. */
  lemma RecordsOfChunks(limit: nat, chunks: seq<Text>)
    ensures AtLeast(RecordSizes(CountAll(chunks)), RecordLines(Concat(chunks)))
    ensures CleanChunks(chunks) ==> RecordSizes(CountAll(chunks)) == Sizes(RecordLines(Concat(chunks)))
    ensures FinishTo(PushAll(limit, chunks)).records
      == Kept(limit, RecordLines(Concat(chunks)), RecordSizes(CountAll(chunks)))
    ensures FinishTo(PushAll(limit, chunks)).oversized == Oversized(limit, RecordSizes(CountAll(chunks)))
  {
    PushAllMeans(limit, chunks);
    ViewAtEnd(limit, CountAll(chunks));
  }

  /** No line that fits is counted as too large. */
  ghost predicate NoOvercount(limit: nat, lines: seq<Text>, sizes: seq<nat>)
    requires |lines| == |sizes|
  {
    forall k | 0 <= k < |lines| && ByteLen(lines[k]) <= limit :: sizes[k] <= limit
  }

  lemma {:induction false} SizesAre(lines: seq<Text>, k: nat)
    requires k < |lines|
    ensures Sizes(lines)[k] == ByteLen(lines[k])
  {
    if k < |lines| - 1 {
      SizesAre(lines[..|lines| - 1], k);
    }
  }

  /** Counting too much changes the records or the oversized count exactly when it takes a line that
      fits over the limit. */
  lemma {:induction false} OvercountMatters(limit: nat, lines: seq<Text>, sizes: seq<nat>)
    requires AtLeast(sizes, lines)
    ensures Oversized(limit, sizes) >= Oversized(limit, Sizes(lines))
    ensures Oversized(limit, sizes) == Oversized(limit, Sizes(lines)) <==> NoOvercount(limit, lines, sizes)
    ensures NoOvercount(limit, lines, sizes) ==> Kept(limit, lines, sizes) == Kept(limit, lines, Sizes(lines))
  {
    if lines != [] {
      var n := |lines| - 1;
      OvercountMatters(limit, lines[..n], sizes[..n]);
      assert Sizes(lines)[..n] == Sizes(lines[..n]);
      LastOvercount(limit, lines, sizes);
    }
  }

  lemma LastOvercount(limit: nat, lines: seq<Text>, sizes: seq<nat>)
    requires |lines| == |sizes| && lines != []
    ensures var n := |lines| - 1;
      NoOvercount(limit, lines, sizes)
      <==> NoOvercount(limit, lines[..n], sizes[..n]) && (ByteLen(lines[n]) <= limit ==> sizes[n] <= limit)
  {
    var n := |lines| - 1;
    if NoOvercount(limit, lines, sizes) {
      forall k | 0 <= k < n && ByteLen(lines[..n][k]) <= limit ensures sizes[..n][k] <= limit {
        assert lines[k] == lines[..n][k];
      }
    }
    if NoOvercount(limit, lines[..n], sizes[..n]) && (ByteLen(lines[n]) <= limit ==> sizes[n] <= limit) {
      forall k | 0 <= k < |lines| && ByteLen(lines[k]) <= limit ensures sizes[k] <= limit {
        assert k < n ==> lines[..n][k] == lines[k] && sizes[..n][k] == sizes[k];
      }
    }
  }

  /** Does no chunk boundary make a record that fits look too large? */
  ghost predicate CountsFit(limit: nat, chunks: seq<Text>) {
    var lines, sizes := RecordLines(Concat(chunks)), RecordSizes(CountAll(chunks));
    |lines| == |sizes| && NoOvercount(limit, lines, sizes)
  }

  /** Main result: the records and the oversized count are those of the whole text exactly when no
      record that fits is counted over the limit. */
  lemma ChunkingIsIrrelevantIff(limit: nat, chunks: seq<Text>)
    ensures var v := FinishTo(PushAll(limit, chunks));
      v.records == WholeRecords(limit, Concat(chunks)) && v.oversized == WholeOversized(limit, Concat(chunks))
      <==> CountsFit(limit, chunks)
  {
    RecordsOfChunks(limit, chunks);
    OvercountMatters(limit, RecordLines(Concat(chunks)), RecordSizes(CountAll(chunks)));
  }

  /** In particular, chunks that split no surrogate pair may be cut anywhere. */
  lemma ChunkingIsIrrelevant(limit: nat, chunks: seq<Text>)
    requires CleanChunks(chunks)
    ensures FinishTo(PushAll(limit, chunks)).records == WholeRecords(limit, Concat(chunks))
    ensures FinishTo(PushAll(limit, chunks)).oversized == WholeOversized(limit, Concat(chunks))
  {
    RecordsOfChunks(limit, chunks);
  }

  /** For any chunks at all, what is pending never exceeds the limit. */
  lemma PendingIsBounded(limit: nat, chunks: seq<Text>)
    ensures var v := PushAll(limit, chunks); ByteLen(v.pending) <= v.pendingBytes <= limit
  {
    PushAllMeans(limit, chunks);
  }

  lemma WithoutNewline(limit: nat, v: View, chunk: Text)
    requires NEWLINE !in chunk
    ensures PushTo(limit, v, chunk) == AppendTo(limit, v, chunk, false)
  {
    assert IndexOfNewline(chunk) == |chunk|;
  }

  lemma PushMore(limit: nat, chunks: seq<Text>, chunk: Text)
    ensures PushAll(limit, chunks + [chunk]) == PushTo(limit, PushAll(limit, chunks), chunk)
  {
    assert (chunks + [chunk])[..|chunks|] == chunks;
  }

  lemma PushTwo(limit: nat, a: Text, b: Text)
    ensures PushAll(limit, [a, b]) == PushTo(limit, PushTo(limit, START, a), b)
  {
    PushMore(limit, [], a);
    PushMore(limit, [a], b);
    assert [] + [a] == [a] && [a] + [b] == [a, b];
  }

  lemma RecordLinesOf(t: Text)
    requires t != [] && NEWLINE !in t
    ensures RecordLines(t) == [t]
  {
    AddSegment([], t);
    assert [] + t == t;
    assert Lines([]) == [] && Tail([]) == [];
  }

  lemma OneRecord(limit: nat, t: Text)
    requires t != [] && NEWLINE !in t
    ensures WholeOversized(limit, t) == if ByteLen(t) > limit then 1 else 0
  {
    RecordLinesOf(t);
    PushSizes([], t);
    PushKept(limit, [], [], t, ByteLen(t));
    assert [] + [t] == [t] && [] + [ByteLen(t)] == [ByteLen(t)];
  }

  /** Cut inside a surrogate pair, a record that fits is counted as too large. */
  lemma SplitPairOvercounts(high: CodeUnit, low: CodeUnit)
    requires IsHigh(high) && IsLow(low)
    ensures WholeOversized(4, [high, low]) == 0 && PushAll(4, [[high], [low]]).oversized == 1
  {
    var pair: Text := [high, low];
    assert pair[2..] == [];
    assert ByteLen(pair) == 4;
    OneRecord(4, pair);
    OneUnit(high, 0);
    OneUnit(low, 0);
    PushTwo(4, [high], [low]);
    WithoutNewline(4, START, [high]);
    WithoutNewline(4, PushTo(4, START, [high]), [low]);
  }

  // ---------------------------------------------------------------- the decoder

  /** From the offset on, the chunk still takes the view to the end. */
  ghost predicate Pushing(limit: nat, v: View, chunk: Text, offset: nat, end: View)
    requires offset <= |chunk|
  {
    PushTo(limit, v, chunk[offset..]) == end
  }

  /** One record of a chunk, from an offset on. */
  lemma PushRecord(limit: nat, v: View, chunk: Text, offset: nat, newline: nat, end: View)
    requires offset <= newline < |chunk| && newline - offset == IndexOfNewline(chunk[offset..])
    requires Pushing(limit, v, chunk, offset, end)
    ensures Pushing(limit, AppendTo(limit, v, chunk[offset..newline], true), chunk, newline + 1, end)
  {
    var rest, k := chunk[offset..], newline - offset;
    assert chunk[offset..newline] == rest[..k] && chunk[newline + 1..] == rest[k + 1..];
  }

  /** The rest of a chunk without a newline. */
  lemma PushRest(limit: nat, v: View, chunk: Text, offset: nat, end: View)
    requires offset <= |chunk| && |chunk| - offset == IndexOfNewline(chunk[offset..])
    requires Pushing(limit, v, chunk, offset, end)
    ensures AppendTo(limit, v, chunk[offset..], false) == end
  {
  }


  class BoundedJsonlDecoder {
    var pending: Text
    var pendingBytes: nat
    var discardingOversizedRecord: bool
    var oversizedRecords: nat
    var emitted: seq<Text>
    const maxRecordBytes: nat

    function Fields(): View
      reads this
    {
      View(emitted, oversizedRecords, pending, pendingBytes, discardingOversizedRecord)
    }

    constructor (maxRecordBytes: nat)
      requires 0 < maxRecordBytes <= MAX_SAFE_INTEGER
      ensures Fields() == START && this.maxRecordBytes == maxRecordBytes
    {
      this.maxRecordBytes := maxRecordBytes;
      pending, pendingBytes, discardingOversizedRecord, oversizedRecords, emitted := [], 0, false, 0, [];
    }

    method EmitPending()
      modifies this
      ensures Fields() == Emit(old(Fields()))
    {
      var record := if pending != [] && pending[|pending| - 1] == RETURN then pending[..|pending| - 1] else pending;
      pending, pendingBytes := [], 0;
      emitted := emitted + [record];
    }

    method Append(segment: Text, terminated: bool)
      modifies this
      ensures Fields() == AppendTo(maxRecordBytes, old(Fields()), segment, terminated)
    {
      if discardingOversizedRecord {
        if terminated {
          discardingOversizedRecord := false;
        }
        return;
      }
      var segmentBytes := ByteLen(segment);
      if pendingBytes + segmentBytes > maxRecordBytes {
        pending, pendingBytes := [], 0;
        oversizedRecords := oversizedRecords + 1;
        discardingOversizedRecord := !terminated;
        return;
      }
      pending := pending + segment;
      pendingBytes := pendingBytes + segmentBytes;
      if terminated {
        EmitPending();
      }
    }

    /** Takes in a chunk of the text, wherever it was cut. */
    method Push(chunk: Text)
      modifies this
      ensures Fields() == PushTo(maxRecordBytes, old(Fields()), chunk)
    {
      ghost var end := PushTo(maxRecordBytes, Fields(), chunk);
      var offset := 0;
      assert chunk[0..] == chunk;
      while true
        invariant 0 <= offset <= |chunk| && Pushing(maxRecordBytes, Fields(), chunk, offset, end)
        decreases |chunk| - offset
      {
        var newline := offset + IndexOfNewline(chunk[offset..]);
        if newline == |chunk| {
          PushRest(maxRecordBytes, Fields(), chunk, offset, end);
          Append(chunk[offset..], false);
          return;
        }
        PushRecord(maxRecordBytes, Fields(), chunk, offset, newline, end);
        Append(chunk[offset..newline], true);
        offset := newline + 1;
      }
    }

    /** Ends the text. */
    method Finish() returns (oversized: nat)
      modifies this
      ensures Fields() == FinishTo(old(Fields())) && oversized == oversizedRecords
    {
      if !discardingOversizedRecord && pending != [] {
        EmitPending();
      }
      pending, pendingBytes, discardingOversizedRecord := [], 0, false;
      oversized := oversizedRecords;
    }
  }

  /** A fresh decoder fed chunk by chunk gives the records of the whole text, unless a boundary
      inside a surrogate pair makes a record that fits look too large. */
  method DecodeChunks(chunks: seq<Text>, maxRecordBytes: nat) returns (records: seq<Text>, oversized: nat)
    requires 0 < maxRecordBytes <= MAX_SAFE_INTEGER
    ensures |RecordSizes(CountAll(chunks))| == |RecordLines(Concat(chunks))|
    ensures records == Kept(maxRecordBytes, RecordLines(Concat(chunks)), RecordSizes(CountAll(chunks)))
    ensures oversized == Oversized(maxRecordBytes, RecordSizes(CountAll(chunks)))
    ensures records == WholeRecords(maxRecordBytes, Concat(chunks)) && oversized == WholeOversized(maxRecordBytes, Concat(chunks))
      <==> CountsFit(maxRecordBytes, chunks)
  {
    var decoder := new BoundedJsonlDecoder(maxRecordBytes);
    for i := 0 to |chunks|
      invariant fresh(decoder) && decoder.maxRecordBytes == maxRecordBytes
      invariant decoder.Fields() == PushAll(maxRecordBytes, chunks[..i])
    {
      assert chunks[..i + 1][..i] == chunks[..i];
      decoder.Push(chunks[i]);
    }
    assert chunks[..|chunks|] == chunks;
    RecordsOfChunks(maxRecordBytes, chunks);
    ChunkingIsIrrelevantIff(maxRecordBytes, chunks);
    oversized := decoder.Finish();
    records := decoder.emitted;
  }
}
