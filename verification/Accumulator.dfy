/** Bounded accumulation of text (`BoundedTextAccumulator` of src/jsonl.ts). */
module Accumulator {
  import opened Utf16
  import opened Utf8Prefix

  const MAX_SAFE_INTEGER := 0x1F_FFFF_FFFF_FFFF

  function Concat(chunks: seq<Text>): Text {
    if chunks == [] then [] else Concat(chunks[..|chunks| - 1]) + chunks[|chunks| - 1]
  }

  lemma ConcatPush(chunks: seq<Text>, chunk: Text)
    ensures Concat(chunks + [chunk]) == Concat(chunks) + chunk
  {
    assert (chunks + [chunk])[..|chunks|] == chunks;
  }

  // ---------------------------------------------------------------- the text accumulator

  datatype Accumulated = Accumulated(text: Text, bytes: nat, received: nat)

  /** What is left of the chunks: of each, the longest prefix that still fits. */
  function Accumulate(maxBytes: nat, chunks: seq<Text>): Accumulated {
    if chunks == [] then Accumulated([], 0, 0)
    else
      var n := |chunks| - 1;
      TakeIn(maxBytes, Accumulate(maxBytes, chunks[..n]), chunks[n])
  }

  function TakeIn(maxBytes: nat, a: Accumulated, chunk: Text): Accumulated {
    var addition := Fit(chunk, maxBytes - a.bytes);
    Accumulated(a.text + addition, a.bytes + ByteLen(addition), a.received + ByteLen(chunk))
  }

  lemma FitOfNothing(value: Text, maxBytes: int)
    requires maxBytes <= 0 || value == []
    ensures Fit(value, maxBytes) == []
  {
  }

  /** The searched prefix is the one found character by character. */
  lemma PrefixIsFit(value: Text, maxBytes: int, r: Text)
    requires |r| <= |value| && r == value[..|r|] && LongestFit(value, maxBytes, |r|)
    ensures r == Fit(value, maxBytes)
  {
    FitIsLongest(value, maxBytes);
    LongestFitIsUnique(value, maxBytes, |r|, |Fit(value, maxBytes)|);
  }

  lemma FitBytes(s: Text, maxBytes: int)
    ensures ByteLen(Fit(s, maxBytes)) <= if maxBytes < 0 then 0 else maxBytes
    ensures ByteLen(Fit(s, maxBytes)) <= ByteLen(s)
    ensures ByteLen(Fit(s, maxBytes)) == ByteLen(s) <==> Fit(s, maxBytes) == s
  {
    FitIsLongest(s, maxBytes);
    var n := |Fit(s, maxBytes)|;
    assert s[..|s|] == s;
    if n < |s| {
      LongerIsLarger(s, n, |s|);
    }
  }

  /** The counter bounds the actual size and the limit bounds the counter; the text is everything
      received exactly when nothing was cut. */
  lemma {:induction false} AccumulatedWithin(maxBytes: nat, chunks: seq<Text>)
    ensures var a := Accumulate(maxBytes, chunks);
      && ByteLen(a.text) <= a.bytes <= maxBytes && a.bytes <= a.received
      && |a.text| <= |Concat(chunks)|
      && (a.bytes == a.received <==> a.text == Concat(chunks))
  {
    if chunks != [] {
      var n := |chunks| - 1;
      var before := Accumulate(maxBytes, chunks[..n]);
      var addition := Fit(chunks[n], maxBytes - before.bytes);
      AccumulatedWithin(maxBytes, chunks[..n]);
      FitBytes(chunks[n], maxBytes - before.bytes);
      ByteLenOfJoin(before.text, addition);
      if before.text + addition == Concat(chunks) {
        assert |before.text| == |Concat(chunks[..n])|;
        assert before.text == Concat(chunks)[..|before.text|] == Concat(chunks[..n]);
        assert addition == Concat(chunks)[|before.text|..] == chunks[n];
      }
    }
  }

  lemma AccumulatePush(maxBytes: nat, chunks: seq<Text>, chunk: Text)
    ensures Accumulate(maxBytes, chunks + [chunk]) == TakeIn(maxBytes, Accumulate(maxBytes, chunks), chunk)
  {
    assert (chunks + [chunk])[..|chunks|] == chunks;
  }

  lemma OneUnit(c: CodeUnit, maxBytes: int)
    ensures ByteLen([c]) == UnitBytes(c)
    ensures Fit([c], maxBytes) == if maxBytes < UnitBytes(c) then [] else [c]
  {
    var s: Text := [c];
    assert s[1..] == [] && s[..1] == s;
  }

  /** After a chunk that did not fit, a smaller one still can: the value then skips text. */
  lemma AccumulatorCanSkip(wide: CodeUnit, narrow: CodeUnit)
    requires UnitBytes(wide) > UnitBytes(narrow)
    ensures Concat([[wide], [narrow]]) == [wide, narrow]
    ensures Accumulate(UnitBytes(narrow), [[wide], [narrow]]).text == [narrow]
  {
    var limit := UnitBytes(narrow);
    ConcatPush([], [wide]);
    ConcatPush([[wide]], [narrow]);
    AccumulatePush(limit, [], [wide]);
    AccumulatePush(limit, [[wide]], [narrow]);
    assert [] + [[wide]] == [[wide]] && [[wide]] + [[narrow]] == [[wide], [narrow]];
    OneUnit(wide, limit);
    OneUnit(narrow, limit);
  }

  // ---------------------------------------------------------------- when the value is a prefix

  /** What the first chunk that was not taken whole left over. */
  function FirstRefused(maxBytes: nat, chunks: seq<Text>): Text {
    if chunks == [] then []
    else
      var n := |chunks| - 1;
      var earlier := FirstRefused(maxBytes, chunks[..n]);
      if earlier != [] then earlier
      else chunks[n][|Fit(chunks[n], maxBytes - Accumulate(maxBytes, chunks[..n]).bytes)|..]
  }

  /** A chunk adds something although an earlier one was not taken whole. One addition is no skip: a
      lone high surrogate where a pair that starts with the same unit was refused. */
  predicate Skips(maxBytes: nat, chunks: seq<Text>) {
    chunks != []
    && var n := |chunks| - 1;
    var refused := FirstRefused(maxBytes, chunks[..n]);
    var addition := Fit(chunks[n], maxBytes - Accumulate(maxBytes, chunks[..n]).bytes);
    Skips(maxBytes, chunks[..n]) || (refused != [] && addition != [] && addition != refused[..1])
  }

  lemma FitFirst(s: Text, maxBytes: nat)
    requires Fit(s, maxBytes) != []
    ensures var k := First(s); var cost := ByteLen(s[..k]);
      && cost <= maxBytes && Fit(s, maxBytes) == s[..k] + Fit(s[k..], maxBytes - cost)
      && ByteLen(Fit(s, maxBytes)) == cost + ByteLen(Fit(s[k..], maxBytes - cost))
  {
    var k := First(s);
    FirstCosts(s);
    var rest := Fit(s[k..], maxBytes - ByteLen(s[..k]));
    assert rest == [] || rest[0] == s[k];
    ByteLenOfJoin(s[..k], rest);
  }

  /** What a fitting prefix leaves over does not fit what it leaves. */
  lemma {:induction false} FitStops(s: Text, maxBytes: nat)
    ensures ByteLen(Fit(s, maxBytes)) <= maxBytes
    ensures Fit(s[|Fit(s, maxBytes)|..], maxBytes - ByteLen(Fit(s, maxBytes))) == []
    decreases |s|
  {
    if Fit(s, maxBytes) == [] {
      assert s[0..] == s;
    } else {
      var k := First(s);
      FitFirst(s, maxBytes);
      var left := maxBytes - ByteLen(s[..k]);
      FitStops(s[k..], left);
      assert s[k + |Fit(s[k..], left)|..] == s[k..][|Fit(s[k..], left)|..];
    }
  }

  lemma LessFitsLess(s: Text, maxBytes: int, less: int)
    requires Fit(s, maxBytes) == [] && less <= maxBytes
    ensures Fit(s, less) == []
  {
  }

  /** If what fits starts like what was refused, it is a lone high surrogate that uses up the rest. */
  lemma RefusedStart(refused: Text, chunk: Text, maxBytes: nat)
    requires refused != [] && Fit(refused, maxBytes) == []
    requires Fit(chunk, maxBytes) != [] && chunk[0] == refused[0]
    ensures Fit(chunk, maxBytes) == refused[..1] && ByteLen(Fit(chunk, maxBytes)) == maxBytes
  {
    assert StartsWithPair(refused) && !StartsWithPair(chunk) && maxBytes == 3;
    assert Fit(chunk[1..], 0) == [];
    assert Fit(chunk, maxBytes) == chunk[..1] + [] == refused[..1];
    OneUnit(refused[0], 0);
    assert refused[..1] == [refused[0]];
  }

  /** The value, the first text left over, everything received, and whether a chunk was skipped. */
  datatype Progress = Progress(value: Accumulated, refused: Text, received: Text, skips: bool)

  function ProgressOf(maxBytes: nat, chunks: seq<Text>): Progress {
    Progress(Accumulate(maxBytes, chunks), FirstRefused(maxBytes, chunks), Concat(chunks), Skips(maxBytes, chunks))
  }

  function Advanced(maxBytes: nat, p: Progress, chunk: Text): Progress {
    var f := Fit(chunk, maxBytes - p.value.bytes);
    Progress(TakeIn(maxBytes, p.value, chunk), if p.refused != [] then p.refused else chunk[|f|..], p.received + chunk,
             p.skips || (p.refused != [] && f != [] && f != p.refused[..1]))
  }

  lemma ProgressAdvances(maxBytes: nat, chunks: seq<Text>)
    requires chunks != []
    ensures ProgressOf(maxBytes, chunks)
      == Advanced(maxBytes, ProgressOf(maxBytes, chunks[..|chunks| - 1]), chunks[|chunks| - 1])
  {
  }

  /** How value, refused text and received text stand to each other. */
  ghost predicate PrefixState(maxBytes: nat, p: Progress) {
    var text, bytes := p.value.text, p.value.bytes;
    && bytes <= maxBytes && |text| <= |p.received|
    && (p.refused != [] ==> Fit(p.refused, maxBytes - bytes) == [])
    && (p.refused == [] ==> text == p.received && !p.skips)
    && (p.skips ==> !(text <= p.received))
    && (!p.skips && p.refused != [] ==> text + p.refused <= p.received || (bytes == maxBytes && text <= p.received))
  }

  lemma {:induction false} PrefixStateHolds(maxBytes: nat, chunks: seq<Text>)
    ensures PrefixState(maxBytes, ProgressOf(maxBytes, chunks))
  {
    if chunks != [] {
      var p := ProgressOf(maxBytes, chunks[..|chunks| - 1]);
      PrefixStateHolds(maxBytes, chunks[..|chunks| - 1]);
      AdvancedHolds(maxBytes, p, chunks[|chunks| - 1]);
      ProgressAdvances(maxBytes, chunks);
    }
  }

  lemma AdvancedHolds(maxBytes: nat, p: Progress, chunk: Text)
    requires PrefixState(maxBytes, p)
    ensures PrefixState(maxBytes, Advanced(maxBytes, p, chunk))
  {
    var left := maxBytes - p.value.bytes;
    var f := Fit(chunk, left);
    FitStops(chunk, left);
    if p.refused == [] {
      assert f + chunk[|f|..] == chunk;
      FirstCut(maxBytes, p, f, chunk[|f|..], p.value.received + ByteLen(chunk));
    } else if f == [] {
      NothingTaken(maxBytes, p, chunk);
    } else {
      LessFitsLess(p.refused, left, left - ByteLen(f));
      TakenAfterCut(maxBytes, p, chunk, f);
    }
  }

  lemma FirstCut(maxBytes: nat, p: Progress, f: Text, left: Text, received: nat)
    requires PrefixState(maxBytes, p) && p.refused == []
    requires p.value.bytes + ByteLen(f) <= maxBytes && Fit(left, maxBytes - (p.value.bytes + ByteLen(f))) == []
    ensures var value := Accumulated(p.value.text + f, p.value.bytes + ByteLen(f), received);
      PrefixState(maxBytes, Progress(value, left, p.received + (f + left), false))
  {
    assert (p.value.text + f) + left == p.received + (f + left);
    assert left == [] ==> f + left == f;
  }

  lemma NothingTaken(maxBytes: nat, p: Progress, chunk: Text)
    requires PrefixState(maxBytes, p) && p.refused != [] && Fit(chunk, maxBytes - p.value.bytes) == []
    ensures PrefixState(maxBytes, Advanced(maxBytes, p, chunk))
  {
    assert p.value.text + [] == p.value.text;
    if p.skips {
      StillNoPrefix(p.value.text, [], p.received, chunk);
    }
  }

  lemma TakenAfterCut(maxBytes: nat, p: Progress, chunk: Text, f: Text)
    requires PrefixState(maxBytes, p) && p.refused != [] && f == Fit(chunk, maxBytes - p.value.bytes) != []
    requires p.value.bytes + ByteLen(f) <= maxBytes && Fit(p.refused, maxBytes - p.value.bytes - ByteLen(f)) == []
    ensures PrefixState(maxBytes, Advanced(maxBytes, p, chunk))
  {
    FitOfNothing(chunk, 0);
    if p.skips {
      StillNoPrefix(p.value.text, f, p.received, chunk);
    } else if chunk[0] == p.refused[0] {
      RefusedStart(p.refused, chunk, maxBytes - p.value.bytes);
      LoneSurrogateKeepsPrefix(p.value.text, p.refused, p.received, chunk);
    } else {
      SkipLosesPrefix(p.value.text, p.refused, p.received, f, chunk);
    }
  }

  lemma LoneSurrogateKeepsPrefix(text: Text, refused: Text, received: Text, chunk: Text)
    requires refused != [] && text + refused <= received
    ensures text + refused[..1] <= received + chunk && |text + refused[..1]| <= |received + chunk|
  {
    assert (text + refused)[..|text| + 1] == text + refused[..1];
  }

  lemma SkipLosesPrefix(text: Text, refused: Text, received: Text, f: Text, chunk: Text)
    requires refused != [] && f != [] && f[0] != refused[0] && text + refused <= received && f <= chunk
    ensures !(text + f <= received + chunk) && f != refused[..1] && |text + f| <= |received + chunk|
  {
    assert received[|text|] == (text + refused)[|text|] == refused[0];
    assert (text + f)[|text|] == f[0] && (received + chunk)[|text|] == refused[0];
    assert refused[..1][0] == refused[0];
  }

  lemma StillNoPrefix(text: Text, f: Text, received: Text, chunk: Text)
    requires !(text <= received) && |text| <= |received|
    ensures !(text + f <= received + chunk)
  {
    if text + f <= received + chunk {
      PrefixOfPrefix(text, f, received, chunk);
    }
  }

  lemma PrefixOfPrefix(text: Text, f: Text, received: Text, chunk: Text)
    requires text + f <= received + chunk && |text| <= |received|
    ensures text <= received
  {
    assert (received + chunk)[..|text + f|][..|text|] == received[..|text|];
    assert (text + f)[..|text|] == text;
  }

  /** The value is a prefix of everything received exactly when no chunk is skipped. */
  lemma PrefixUnlessSkips(maxBytes: nat, chunks: seq<Text>)
    ensures Accumulate(maxBytes, chunks).text <= Concat(chunks) <==> !Skips(maxBytes, chunks)
  {
    PrefixStateHolds(maxBytes, chunks);
    var p := ProgressOf(maxBytes, chunks);
    if !p.skips && p.value.text + p.refused <= p.received {
      assert (p.value.text + p.refused)[..|p.value.text|] == p.value.text;
    }
  }

  class BoundedTextAccumulator {
    var current: Text
    var currentBytes: nat
    var receivedBytes: nat
    const maxBytes: nat

    function Fields(): Accumulated
      reads this
    {
      Accumulated(current, currentBytes, receivedBytes)
    }

    constructor (maxBytes: nat)
      requires 0 < maxBytes <= MAX_SAFE_INTEGER
      ensures Fields() == Accumulate(maxBytes, []) && this.maxBytes == maxBytes
    {
      this.maxBytes := maxBytes;
      current, currentBytes, receivedBytes := [], 0, 0;
    }

    method Clear()
      modifies this
      ensures Fields() == Accumulate(maxBytes, [])
    {
      current, currentBytes, receivedBytes := [], 0, 0;
    }

    method Set(value: Text)
      modifies this
      ensures Fields() == Accumulate(maxBytes, [value])
    {
      Clear();
      Append(value);
      assert [value][..0] == [];
    }

    method Append(value: Text)
      modifies this
      ensures Fields() == TakeIn(maxBytes, old(Fields()), value)
    {
      receivedBytes := receivedBytes + ByteLen(value);
      var remaining := maxBytes - currentBytes;
      if remaining <= 0 || value == [] {
        FitOfNothing(value, remaining);
        assert current + [] == current;
        return;
      }
      var addition := Utf8Prefix.Utf8Prefix(value, remaining);
      PrefixIsFit(value, remaining, addition);
      current := current + addition;
      currentBytes := currentBytes + ByteLen(addition);
    }

    method Truncated() returns (b: bool)
      ensures forall chunks | Fields() == Accumulate(maxBytes, chunks) :: b <==> current != Concat(chunks)
    {
      b := receivedBytes > currentBytes;
      forall chunks | Fields() == Accumulate(maxBytes, chunks) ensures b <==> current != Concat(chunks) {
        AccumulatedWithin(maxBytes, chunks);
      }
    }
  }
}
