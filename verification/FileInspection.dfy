/** Streaming classification of a file's bytes (`inspectFileHandle` of src/capture.ts). */
module FileInspection {
  import opened Options
  import opened Utf8

  datatype Inspected = Inspected(hashed: seq<Byte>, isBinary: bool, content: Option<seq<Byte>>)

  datatype CaptureRace = Grew | Shrank

  function Concat(chunks: seq<seq<Byte>>): seq<Byte> {
    if chunks == [] then [] else Concat(chunks[..|chunks| - 1]) + chunks[|chunks| - 1]
  }

  lemma {:induction false} ConcatPrefix(chunks: seq<seq<Byte>>, i: nat)
    requires i <= |chunks|
    ensures Concat(chunks[..i]) <= Concat(chunks)
    decreases |chunks| - i
  {
    if i < |chunks| {
      assert chunks[..i + 1][..i] == chunks[..i];
      ConcatPrefix(chunks, i + 1);
    } else {
      assert chunks[..i] == chunks;
    }
  }

  /** The verdict of one pass over the whole file: the cut-sample rule when the file continues
      past the sample, the complete-buffer rule otherwise. */
  predicate Verdict(magic: seq<Byte> -> bool, file: seq<Byte>) {
    if |file| > SAMPLE_BYTES then LooksBinary(magic, file[..SAMPLE_BYTES], true) else LooksBinary(magic, file, false)
  }

  /** What one pass over the whole file gives: content exactly when asked for and not binary. */
  function Whole(magic: seq<Byte> -> bool, file: seq<Byte>, retainTextContent: bool): Inspected {
    var isBinary := Verdict(magic, file);
    Inspected(file, isBinary, if retainTextContent && !isBinary then Some(file) else None)
  }

  function FirstBytes(s: seq<Byte>): seq<Byte> {
    if |s| <= SAMPLE_BYTES then s else s[..SAMPLE_BYTES]
  }

  lemma PushChunk(chunks: seq<seq<Byte>>, bytes: seq<Byte>)
    ensures Concat(chunks + [bytes]) == Concat(chunks) + bytes
  {
    assert (chunks + [bytes])[..|chunks|] == chunks;
  }

  lemma ConcatNext(chunks: seq<seq<Byte>>, i: nat)
    requires i < |chunks|
    ensures Concat(chunks[..i + 1]) == Concat(chunks[..i]) + chunks[i]
    ensures |Concat(chunks[..i])| + |chunks[i]| <= |Concat(chunks)|
  {
    assert chunks[..i + 1][..i] == chunks[..i];
    ConcatPrefix(chunks, i + 1);
  }

  lemma SampleGrows(hashed: seq<Byte>, bytes: seq<Byte>)
    requires |hashed| < SAMPLE_BYTES
    ensures FirstBytes(hashed) == hashed
    ensures var remaining := SAMPLE_BYTES - |hashed|;
      FirstBytes(hashed + bytes) == hashed + (if |bytes| > remaining then bytes[..remaining] else bytes)
  {
  }

  /** The verdict is known exactly once the file is seen to continue past the sample. */
  ghost predicate Judged(magic: seq<Byte> -> bool, hashed: seq<Byte>, binary: Option<bool>) {
    && (binary.Some? <==> |hashed| > SAMPLE_BYTES)
    && (binary.Some? ==> binary.value == LooksBinary(magic, FirstBytes(hashed), true))
  }

  /** What a chunk adds to the sample, and the verdict if the chunk shows that the file continues. */
  method SampleChunk(magic: seq<Byte> -> bool, sample: seq<Byte>, binary: Option<bool>, bytes: seq<Byte>,
                     ghost hashed: seq<Byte>)
      returns (sample': seq<Byte>, binary': Option<bool>)
    requires bytes != [] && sample == FirstBytes(hashed) && Judged(magic, hashed, binary)
    ensures sample' == FirstBytes(hashed + bytes) && Judged(magic, hashed + bytes, binary')
    ensures binary.Some? ==> binary' == binary
  {
    sample', binary' := sample, binary;
    if |sample| >= SAMPLE_BYTES {
      assert (hashed + bytes)[..SAMPLE_BYTES] == sample;
      if binary.None? {
        binary' := Some(LooksBinary(magic, sample, true));
      }
      return;
    }
    SampleGrows(hashed, bytes);
    var remaining := SAMPLE_BYTES - |sample|;
    var crossesSampleBound := |bytes| > remaining;
    sample' := sample + (if crossesSampleBound then bytes[..remaining] else bytes);
    if |sample'| >= SAMPLE_BYTES && crossesSampleBound {
      binary' := Some(LooksBinary(magic, sample', true));
    }
  }

  /** Reads the file in any division into non-empty chunks. */
  method InspectFileHandle(chunks: seq<seq<Byte>>, retainTextContent: bool, expectedBytes: Option<nat>,
                           magic: seq<Byte> -> bool)
      returns (r: Result<Inspected, CaptureRace>)
    requires forall k | 0 <= k < |chunks| :: chunks[k] != []
    ensures r.Ok? <==> expectedBytes.None? || |Concat(chunks)| == expectedBytes.value
    ensures r.Err? ==> r.error == if |Concat(chunks)| > expectedBytes.value then Grew else Shrank
    ensures r.Ok? ==> r.value == Whole(magic, Concat(chunks), retainTextContent)
  {
    var hashed: seq<Byte> := [];
    var contentChunks: seq<seq<Byte>> := [];
    var sample: seq<Byte> := [];
    var bytesRead := 0;
    var binary: Option<bool> := None;
    for i := 0 to |chunks|
      invariant hashed == Concat(chunks[..i]) && bytesRead == |hashed|
      invariant sample == FirstBytes(hashed) && Judged(magic, hashed, binary)
      invariant retainTextContent && binary != Some(true) ==> Concat(contentChunks) == hashed
      invariant expectedBytes.Some? ==> bytesRead <= expectedBytes.value
    {
      var bytes := chunks[i];
      ConcatNext(chunks, i);
      if expectedBytes.Some? && bytesRead + |bytes| > expectedBytes.value {
        return Err(Grew);
      }
      ghost var before := hashed;
      bytesRead := bytesRead + |bytes|;
      hashed := hashed + bytes;
      if retainTextContent && binary != Some(true) {
        PushChunk(contentChunks, bytes);
        contentChunks := contentChunks + [bytes];
      }
      sample, binary := SampleChunk(magic, sample, binary, bytes, before);
      if binary == Some(true) {
        contentChunks := [];
      }
    }
    assert chunks[..|chunks|] == chunks;
    if expectedBytes.Some? && bytesRead != expectedBytes.value {
      return Err(Shrank);
    }
    if binary.None? {
      binary := Some(LooksBinary(magic, sample, false));
      if binary == Some(true) {
        contentChunks := [];
      }
    }
    return Ok(Inspected(hashed, binary.value,
                        if retainTextContent && !binary.value then Some(Concat(contentChunks)) else None));
  }
}
