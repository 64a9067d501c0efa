/** UTF-8 as section 4 of RFC 3629 defines it, and the cut-sample rule of src/capture.ts. */
module Utf8 {
  type Byte = b: int | 0 <= b < 256

  predicate Continuation(b: Byte) {
    0x80 <= b <= 0xBF
  }

  /** The sequence length a lead byte announces, or 0 for a byte that leads none. */
  function LeadLength(b: Byte): nat {
    if b < 0x80 then 1
    else if 0xC2 <= b <= 0xDF then 2
    else if 0xE0 <= b <= 0xEF then 3
    else if 0xF0 <= b <= 0xF4 then 4
    else 0
  }

  /** The second bytes a lead allows. */
  predicate SecondAllowed(lead: Byte, b: Byte) {
    if lead == 0xE0 then 0xA0 <= b <= 0xBF
    else if lead == 0xED then 0x80 <= b <= 0x9F
    else if lead == 0xF0 then 0x90 <= b <= 0xBF
    else if lead == 0xF4 then 0x80 <= b <= 0x8F
    else Continuation(b)
  }

  /** Do the bytes present agree with a character of the announced length? */
  predicate Agrees(s: seq<Byte>) {
    && s != [] && LeadLength(s[0]) > 0
    && (LeadLength(s[0]) >= 2 && |s| >= 2 ==> SecondAllowed(s[0], s[1]))
    && (LeadLength(s[0]) >= 3 && |s| >= 3 ==> Continuation(s[2]))
    && (LeadLength(s[0]) >= 4 && |s| >= 4 ==> Continuation(s[3]))
  }

  /** The length of the character the bytes start with, or 0 if they start with none. */
  function CharLength(s: seq<Byte>): (k: nat)
    ensures k <= |s| && k <= 4
  {
    if Agrees(s) && LeadLength(s[0]) <= |s| then LeadLength(s[0]) else 0
  }

  predicate Valid(s: seq<Byte>) {
    s == [] || (CharLength(s) > 0 && Valid(s[CharLength(s)..]))
  }

  /** Can later bytes turn these into valid text? */
  ghost predicate Extendable(s: seq<Byte>) {
    exists rest: seq<Byte> :: Valid(s + rest)
  }

  // ---------------------------------------------------------------- the tail analysis

  /** The length of the trailing run of continuation bytes. */
  function TrailingRun(s: seq<Byte>): (n: nat)
    ensures n <= |s| && (forall k | |s| - n <= k < |s| :: Continuation(s[k]))
    ensures n < |s| ==> !Continuation(s[|s| - n - 1])
  {
    if s == [] || !Continuation(s[|s| - 1]) then 0 else TrailingRun(s[..|s| - 1]) + 1
  }

  /** A second byte outside its lead's sub-range; the byte is known to be a continuation. */
  predicate SecondExcluded(lead: Byte, second: Byte) {
    || (lead == 0xE0 && second < 0xA0) || (lead == 0xED && second > 0x9F)
    || (lead == 0xF0 && second < 0x90) || (lead == 0xF4 && second > 0x8F)
  }

  /** Where `utf8CompleteSequenceEnd` cuts a sample. */
  function CompleteEnd(s: seq<Byte>): (end: nat)
    ensures end <= |s|
  {
    var tail := if TrailingRun(s) < 3 then TrailingRun(s) else 3;
    var lead := |s| - 1 - tail;
    if lead < 0 || LeadLength(s[lead]) == 0 || tail >= LeadLength(s[lead]) - 1 then |s|
    else if tail >= 1 && SecondExcluded(s[lead], s[lead + 1]) then |s|
    else lead
  }

  method Utf8CompleteSequenceEnd(buffer: seq<Byte>, length: nat) returns (end: nat)
    requires length <= |buffer|
    ensures end == CompleteEnd(buffer[..length])
  {
    ghost var s := buffer[..length];
    var tail := 0;
    while tail < 3 && length - 1 - tail >= 0 && Continuation(buffer[length - 1 - tail])
      invariant 0 <= tail <= 3 && tail <= length
      invariant forall k | length - tail <= k < length :: Continuation(s[k])
    {
      tail := tail + 1;
    }
    TrailingRunIs(s, tail);
    var leadIndex := length - 1 - tail;
    if leadIndex < 0 {
      return length;
    }
    var lead := buffer[leadIndex];
    var sequenceLength;
    if lead < 0x80 {
      sequenceLength := 1;
    } else if lead >= 0xC2 && lead <= 0xDF {
      sequenceLength := 2;
    } else if lead >= 0xE0 && lead <= 0xEF {
      sequenceLength := 3;
    } else if lead >= 0xF0 && lead <= 0xF4 {
      sequenceLength := 4;
    } else {
      return length;
    }
    if tail >= sequenceLength - 1 {
      return length;
    }
    if tail >= 1 {
      var second := buffer[leadIndex + 1];
      if SecondExcluded(lead, second) {
        return length;
      }
    }
    return leadIndex;
  }

  lemma TrailingRunIs(s: seq<Byte>, tail: nat)
    requires tail <= |s| && tail <= 3
    requires forall k | |s| - tail <= k < |s| :: Continuation(s[k])
    requires tail == 3 || tail == |s| || !Continuation(s[|s| - 1 - tail])
    ensures tail == if TrailingRun(s) < 3 then TrailingRun(s) else 3
  {
    var n := TrailingRun(s);
    assert n == |s| || !Continuation(s[|s| - n - 1]);
  }

  // ---------------------------------------------------------------- its meaning

  /** A whole character at the front does not change where the tail is cut. */
  lemma EndPastChar(s: seq<Byte>)
    requires CharLength(s) > 0
    ensures CompleteEnd(s) == CharLength(s) + CompleteEnd(s[CharLength(s)..])
  {
    var k := CharLength(s);
    var rest := s[k..];
    var n, m := TrailingRun(s), TrailingRun(rest);
    CharBytes(s);
    if m < |rest| {
      assert rest[|rest| - m - 1] == s[|s| - m - 1];
      RunUnique(s, m);
    } else {
      RunUnique(s, |rest| + k - 1);
    }
  }

  lemma CharBytes(s: seq<Byte>)
    requires Agrees(s)
    ensures !Continuation(s[0]) && LeadLength(s[0]) <= 4
    ensures forall k | 1 <= k < LeadLength(s[0]) && k < |s| :: Continuation(s[k])
  {
  }

  lemma RunUnique(s: seq<Byte>, n: nat)
    requires n <= |s| && (forall k | |s| - n <= k < |s| :: Continuation(s[k]))
    requires n < |s| ==> !Continuation(s[|s| - n - 1])
    ensures TrailingRun(s) == n
  {
    var m := TrailingRun(s);
    assert m == |s| || !Continuation(s[|s| - m - 1]);
  }

  /** A proper prefix of some character. */
  predicate PartialChar(s: seq<Byte>) {
    Agrees(s) && |s| < LeadLength(s[0])
  }

  lemma EndOfPartial(s: seq<Byte>)
    requires s != [] && CharLength(s) == 0
    ensures CompleteEnd(s) == 0 <==> PartialChar(s)
  {
    if PartialChar(s) {
      CharBytes(s);
      RunUnique(s, |s| - 1);
    }
  }

  /** Bytes that complete a partial character. */
  function Completion(s: seq<Byte>): seq<Byte>
    requires PartialChar(s)
  {
    var missing := LeadLength(s[0]) - |s|;
    if |s| >= 2 then seq(missing, _ => 0x80)
    else [if s[0] == 0xE0 then 0xA0 else if s[0] == 0xF0 then 0x90 else 0x80] + seq(missing - 1, _ => 0x80)
  }

  lemma PartialExtends(s: seq<Byte>)
    requires PartialChar(s)
    ensures Extendable(s)
  {
    var whole := s + Completion(s);
    assert CharLength(whole) == |whole| == LeadLength(s[0]);
    assert Valid(whole[|whole|..]);
    assert Valid(whole);
  }

  lemma ExtendableIsPartial(s: seq<Byte>)
    requires s != [] && CharLength(s) == 0 && Extendable(s)
    ensures PartialChar(s)
  {
    var rest: seq<Byte> :| Valid(s + rest);
    assert Agrees(s + rest);
  }

  lemma ExtendPastChar(s: seq<Byte>)
    requires CharLength(s) > 0
    ensures Extendable(s) <==> Extendable(s[CharLength(s)..])
  {
    if Extendable(s) {
      var rest: seq<Byte> :| Valid(s + rest);
      ValidWith(s, rest);
    }
    if Extendable(s[CharLength(s)..]) {
      var rest: seq<Byte> :| Valid(s[CharLength(s)..] + rest);
      ValidWith(s, rest);
    }
  }

  lemma ValidWith(s: seq<Byte>, rest: seq<Byte>)
    requires CharLength(s) > 0
    ensures Valid(s + rest) <==> Valid(s[CharLength(s)..] + rest)
  {
    var k := CharLength(s);
    assert CharLength(s + rest) == k;
    assert (s + rest)[k..] == s[k..] + rest;
  }

  lemma ValidPastChar(s: seq<Byte>, end: nat)
    requires 0 < CharLength(s) <= end <= |s|
    ensures Valid(s[..end]) <==> Valid(s[CharLength(s)..][..end - CharLength(s)])
  {
    var k := CharLength(s);
    assert s[..end][k..] == s[k..][..end - k];
    assert CharLength(s[..end]) == k;
  }

  lemma CutOfPartial(s: seq<Byte>)
    requires s != [] && CharLength(s) == 0
    ensures Valid(s[..CompleteEnd(s)]) <==> PartialChar(s)
  {
    EndOfPartial(s);
    assert PartialChar(s) || CharLength(s[..CompleteEnd(s)]) == 0;
  }

  /** Main result: the cut sample is valid exactly when some continuation of the sample is. */
  lemma {:induction false} CutIsExact(s: seq<Byte>)
    ensures Valid(s[..CompleteEnd(s)]) <==> Extendable(s)
    decreases |s|
  {
    if s == [] {
      assert Valid(s + []);
    } else if CharLength(s) > 0 {
      EndPastChar(s);
      ValidPastChar(s, CompleteEnd(s));
      ExtendPastChar(s);
      CutIsExact(s[CharLength(s)..]);
    } else {
      CutOfPartial(s);
      if PartialChar(s) {
        PartialExtends(s);
      }
      if Extendable(s) {
        ExtendableIsPartial(s);
      }
    }
  }

  // ---------------------------------------------------------------- decoding and classifying

  const SAMPLE_BYTES := 8192
  const REPLACEMENT: seq<Byte> := [0xEF, 0xBF, 0xBD]

  /** Does decoding these bytes yield U+FFFD? Invalid input does, and so does a genuine one. */
  predicate DecodesToReplacement(s: seq<Byte>) {
    s != [] && (CharLength(s) == 0 || s[..CharLength(s)] == REPLACEMENT || DecodesToReplacement(s[CharLength(s)..]))
  }

  /** A genuine U+FFFD at a character boundary of the valid front of the bytes. */
  predicate HoldsReplacement(s: seq<Byte>) {
    s != [] && CharLength(s) > 0 && (s[..CharLength(s)] == REPLACEMENT || HoldsReplacement(s[CharLength(s)..]))
  }

  lemma {:induction false} ReplacementMeans(s: seq<Byte>)
    ensures DecodesToReplacement(s) <==> !Valid(s) || HoldsReplacement(s)
    decreases |s|
  {
    if s != [] && CharLength(s) > 0 {
      ReplacementMeans(s[CharLength(s)..]);
    }
  }

  /** `looksBinary`; `magic` stands for the table of known binary signatures. */
  predicate LooksBinary(magic: seq<Byte> -> bool, buffer: seq<Byte>, sampleCut: bool) {
    var sample := if |buffer| < SAMPLE_BYTES then buffer else buffer[..SAMPLE_BYTES];
    || magic(buffer)
    || 0 in sample
    || DecodesToReplacement(if sampleCut then sample[..CompleteEnd(sample)] else sample)
  }

  lemma {:induction false} ReplacementInPrefix(s: seq<Byte>, end: nat)
    requires end <= |s| && HoldsReplacement(s[..end])
    ensures HoldsReplacement(s)
    decreases |s|
  {
    var k := CharLength(s[..end]);
    assert CharLength(s) == k;
    if s[..end][..k] != REPLACEMENT {
      assert s[..end][k..] == s[k..][..end - k];
      ReplacementInPrefix(s[k..], end - k);
    } else {
      assert s[..k] == s[..end][..k];
    }
  }

  /** A cut sample is binary exactly when it has a signature or a zero byte, when no continuation
      makes it valid, or when its complete part holds a genuine U+FFFD. */
  lemma CutSampleVerdict(magic: seq<Byte> -> bool, sample: seq<Byte>)
    requires |sample| <= SAMPLE_BYTES
    ensures LooksBinary(magic, sample, true) <==>
      magic(sample) || 0 in sample || !Extendable(sample) || HoldsReplacement(sample[..CompleteEnd(sample)])
  {
    assert sample[..|sample|] == sample;
    CutIsExact(sample);
    ReplacementMeans(sample[..CompleteEnd(sample)]);
  }

  /** A complete buffer is binary exactly when it has a signature, or its sample a zero byte, malformed
      bytes or a genuine U+FFFD. */
  lemma CompleteBufferVerdict(magic: seq<Byte> -> bool, buffer: seq<Byte>)
    ensures var sample := if |buffer| < SAMPLE_BYTES then buffer else buffer[..SAMPLE_BYTES];
      LooksBinary(magic, buffer, false) <==> magic(buffer) || 0 in sample || !Valid(sample) || HoldsReplacement(sample)
  {
    ReplacementMeans(if |buffer| < SAMPLE_BYTES then buffer else buffer[..SAMPLE_BYTES]);
  }

  /** Valid text without a zero byte that is called binary: U+FFFD itself. */
  lemma GenuineReplacementIsFlagged(magic: seq<Byte> -> bool, cut: bool)
    ensures Valid(REPLACEMENT) && 0 !in REPLACEMENT && LooksBinary(magic, REPLACEMENT, cut)
  {
    assert CharLength(REPLACEMENT) == 3 && REPLACEMENT[3..] == [] && REPLACEMENT[..3] == REPLACEMENT;
    EndPastChar(REPLACEMENT);
  }

  /** Valid text is never called binary because of where the sample is cut. */
  lemma CutNeverCondemnsText(magic: seq<Byte> -> bool, file: seq<Byte>, n: nat)
    requires n <= |file| && n <= SAMPLE_BYTES && Valid(file)
    requires !magic(file[..n]) && 0 !in file[..n] && !HoldsReplacement(file)
    ensures !LooksBinary(magic, file[..n], true)
  {
    var sample := file[..n];
    assert file == sample + file[n..];
    assert Extendable(sample);
    CutSampleVerdict(magic, sample);
    if HoldsReplacement(sample[..CompleteEnd(sample)]) {
      assert sample[..CompleteEnd(sample)] == file[..CompleteEnd(sample)];
      ReplacementInPrefix(file, CompleteEnd(sample));
    }
  }
}
