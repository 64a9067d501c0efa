/** JSONL records as a producer writes them, and how they are read back (src/jsonl.ts). */
module JsonlRecords {
  import opened Utf16
  import opened Utf8Prefix
  import opened Accumulator
  import opened Jsonl

  /** A record as a producer writes it: its text, and whether a carriage return stands before the newline. */
  datatype Written = Written(text: Text, crlf: bool)

  /** A record holds no newline, and one that ends in a carriage return is written with another. */
  predicate WrittenOk(w: Written) {
    NEWLINE !in w.text && (w.text != [] && w.text[|w.text| - 1] == RETURN ==> w.crlf)
  }

  function WriteLine(w: Written): Text {
    w.text + if w.crlf then [RETURN] else []
  }

  function WriteAll(ws: seq<Written>): Text {
    if ws == [] then [] else WriteAll(ws[..|ws| - 1]) + WriteLine(ws[|ws| - 1]) + [NEWLINE]
  }

  /** The texts of those whose line, the carriage return included, fits. */
  function Fitting(limit: nat, ws: seq<Written>): seq<Text> {
    if ws == [] then []
    else
      var w := ws[|ws| - 1];
      Fitting(limit, ws[..|ws| - 1])
      + (if ByteLen(w.text) + (if w.crlf then 1 else 0) <= limit then [w.text] else [])
  }

  lemma LineReads(w: Written)
    requires WrittenOk(w)
    ensures NEWLINE !in WriteLine(w) && StripReturn(WriteLine(w)) == w.text
    ensures ByteLen(WriteLine(w)) == ByteLen(w.text) + if w.crlf then 1 else 0
  {
    if w.crlf {
      ByteLenOfJoin(w.text, [RETURN]);
      assert ByteLen([RETURN]) == 1;
      assert (w.text + [RETURN])[..|w.text|] == w.text;
    } else {
      assert w.text + [] == w.text;
    }
  }

  /** The records of what was written are those that fit, as they were and in order; the others are
      counted. */
  ghost predicate ReadsBack(limit: nat, ws: seq<Written>) {
    var t := WriteAll(ws);
    && Tail(t) == [] && WholeRecords(limit, t) == Fitting(limit, ws)
    && WholeOversized(limit, t) == |ws| - |Fitting(limit, ws)|
  }

  /** Records written with either line end are read back without it. */
  lemma {:induction false} WrittenReadBack(limit: nat, ws: seq<Written>)
    requires forall w | w in ws :: WrittenOk(w)
    ensures ReadsBack(limit, ws)
  {
    if ws != [] {
      var n := |ws| - 1;
      assert ws[n] in ws && forall w | w in ws[..n] :: w in ws;
      WrittenReadBack(limit, ws[..n]);
      OneMoreWritten(limit, ws[..n], ws[n]);
      assert ws == ws[..n] + [ws[n]];
    }
  }

  lemma OneMoreWritten(limit: nat, ws: seq<Written>, w: Written)
    requires ReadsBack(limit, ws) && WrittenOk(w)
    ensures ReadsBack(limit, ws + [w])
  {
    var n := |ws|;
    assert (ws + [w])[..n] == ws && (ws + [w])[n] == w;
    LineReads(w);
    LineWritten(limit, WriteAll(ws), w);
  }

  /** A whole line at the end of whole lines. */
  lemma LinePushed(t: Text, line: Text)
    requires Tail(t) == [] && NEWLINE !in line
    ensures var more := t + line + [NEWLINE]; Tail(more) == [] && RecordLines(more) == RecordLines(t) + [line]
  {
    AddSegment(t, line);
    AddNewline(t + line);
    assert [] + line == line;
    assert Lines(t) + [] == Lines(t);
  }

  lemma LineWritten(limit: nat, t: Text, w: Written)
    requires Tail(t) == [] && WrittenOk(w)
    ensures var more := t + WriteLine(w) + [NEWLINE];
      && Tail(more) == []
      && WholeRecords(limit, more) == WholeRecords(limit, t) + (if ByteLen(WriteLine(w)) <= limit then [w.text] else [])
      && WholeOversized(limit, more) == WholeOversized(limit, t) + (if ByteLen(WriteLine(w)) > limit then 1 else 0)
  {
    LineReads(w);
    LinePushed(t, WriteLine(w));
    PushSizes(RecordLines(t), WriteLine(w));
    PushKept(limit, RecordLines(t), Sizes(RecordLines(t)), WriteLine(w), ByteLen(WriteLine(w)));
  }

  /** Main result: a stream of such records, cut into chunks anywhere but inside surrogate pairs, comes out
      of the decoder as the records that fit. */
  lemma StreamReadsBack(limit: nat, ws: seq<Written>, chunks: seq<Text>)
    requires (forall w | w in ws :: WrittenOk(w)) && Concat(chunks) == WriteAll(ws) && CleanChunks(chunks)
    ensures var v := FinishTo(PushAll(limit, chunks));
      v.records == Fitting(limit, ws) && v.oversized == |ws| - |Fitting(limit, ws)|
  {
    ChunkingIsIrrelevant(limit, chunks);
    WrittenReadBack(limit, ws);
  }
}
