/** Text as lines, and its size in bytes. */
module Lines {
  /** The number of bytes UTF-8 spends on a character (section 3 of RFC 3629). */
  function CharBytes(c: char): (n: nat)
    ensures 1 <= n <= 4
  {
    var v := c as int;
    if v < 0x80 then 1 else if v < 0x800 then 2 else if v < 0x10000 then 3 else 4
  }

  /** `Buffer.byteLength(s, "utf8")` for well-formed text. */
  function ByteLength(s: string): nat {
    if s == [] then 0 else CharBytes(s[0]) + ByteLength(s[1..])
  }

  lemma {:induction false} ByteLengthAdds(a: string, b: string)
    ensures ByteLength(a + b) == ByteLength(a) + ByteLength(b)
  {
    if a == [] {
      assert a + b == b;
    } else {
      assert (a + b)[1..] == a[1..] + b;
      ByteLengthAdds(a[1..], b);
    }
  }

  predicate Ascii(s: string) {
    forall k | 0 <= k < |s| :: s[k] as int < 0x80
  }

  lemma {:induction false} AsciiByteLength(s: string)
    requires Ascii(s)
    ensures ByteLength(s) == |s|
  {
    if s != [] {
      AsciiByteLength(s[1..]);
    }
  }

  // ---------------------------------------------------------------- lines

  predicate OneLine(s: string) {
    '\n' !in s
  }

  predicate AllOneLine(lines: seq<string>) {
    forall k | 0 <= k < |lines| :: OneLine(lines[k])
  }

  /** `s.split("\n")`. */
  function Split(s: string): (r: seq<string>)
    ensures r != [] && AllOneLine(r)
  {
    if s == [] then [""]
    else
      var rest := Split(s[1..]);
      if s[0] == '\n' then [""] + rest else [[s[0]] + rest[0]] + rest[1..]
  }

  /** `lines.join("\n")`. */
  function Join(lines: seq<string>): string {
    if lines == [] then ""
    else if |lines| == 1 then lines[0]
    else lines[0] + ("\n" + Join(lines[1..]))
  }

  /** `splitLines`: the final newline ends the last line instead of starting another. */
  function SplitLines(content: string): (r: seq<string>)
    ensures AllOneLine(r)
  {
    var lines := Split(content);
    if content == [] then []
    else if lines[|lines| - 1] == "" then lines[..|lines| - 1]
    else lines
  }

  lemma {:induction false} JoinOfSplit(s: string)
    ensures Join(Split(s)) == s
  {
    if s != [] {
      var rest := Split(s[1..]);
      JoinOfSplit(s[1..]);
      assert s == [s[0]] + s[1..];
      if s[0] != '\n' && |rest| > 1 {
        var r := [[s[0]] + rest[0]] + rest[1..];
        assert r[1..] == rest[1..];
        assert ([s[0]] + rest[0]) + ("\n" + Join(rest[1..])) == [s[0]] + (rest[0] + ("\n" + Join(rest[1..])));
      }
    }
  }

  lemma SplitFirst(c: char, s: string, lines: seq<string>)
    requires c != '\n' && Split(s) == lines
    ensures Split([c] + s) == [[c] + lines[0]] + lines[1..]
  {
    assert ([c] + s)[1..] == s;
  }

  /** Splitting after a line: the line, then the lines of the rest. */
  lemma {:induction false} SplitAfterLine(line: string, rest: string)
    requires OneLine(line)
    ensures Split(line + ("\n" + rest)) == [line] + Split(rest)
  {
    if line == [] {
      assert line + ("\n" + rest) == "\n" + rest;
      assert ("\n" + rest)[1..] == rest;
    } else {
      SplitAfterLine(line[1..], rest);
      assert line + ("\n" + rest) == [line[0]] + (line[1..] + ("\n" + rest));
      SplitFirst(line[0], line[1..] + ("\n" + rest), [line[1..]] + Split(rest));
      assert line == [line[0]] + line[1..];
      assert ([line[1..]] + Split(rest))[1..] == Split(rest);
    }
  }

  lemma {:induction false} SplitAfterLines(lines: seq<string>, rest: string)
    requires lines != [] && AllOneLine(lines)
    ensures Split(Join(lines) + ("\n" + rest)) == lines + Split(rest)
  {
    if |lines| == 1 {
      SplitAfterLine(lines[0], rest);
    } else {
      SplitAfterLines(lines[1..], rest);
      SplitAfterLine(lines[0], Join(lines[1..]) + ("\n" + rest));
      assert (lines[0] + ("\n" + Join(lines[1..]))) + ("\n" + rest) == lines[0] + ("\n" + (Join(lines[1..]) + ("\n" + rest)));
      assert [lines[0]] + (lines[1..] + Split(rest)) == lines + Split(rest);
    }
  }

  /** Splitting at a newline anywhere. */
  lemma SplitAtNewline(a: string, b: string)
    ensures Split(a + ("\n" + b)) == Split(a) + Split(b)
  {
    JoinOfSplit(a);
    SplitAfterLines(Split(a), b);
  }

  lemma {:induction false} JoinAppend(a: seq<string>, b: seq<string>)
    requires a != [] && b != []
    ensures Join(a + b) == Join(a) + ("\n" + Join(b))
  {
    if |a| == 1 {
      assert (a + b)[1..] == b;
    } else {
      assert (a + b)[1..] == a[1..] + b;
      JoinAppend(a[1..], b);
      assert a[0] + ("\n" + (Join(a[1..]) + ("\n" + Join(b)))) == (a[0] + ("\n" + Join(a[1..]))) + ("\n" + Join(b));
    }
  }

  lemma {:induction false} SplitOneLine(line: string)
    requires OneLine(line)
    ensures Split(line) == [line]
  {
    if line != [] {
      SplitOneLine(line[1..]);
      assert line == [line[0]] + line[1..];
    }
  }

  lemma {:induction false} SplitOfJoin(lines: seq<string>)
    requires lines != [] && AllOneLine(lines)
    ensures Split(Join(lines)) == lines
  {
    if |lines| == 1 {
      SplitOneLine(lines[0]);
    } else {
      SplitOfJoin(lines[1..]);
      SplitAfterLine(lines[0], Join(lines[1..]));
      assert lines == [lines[0]] + lines[1..];
    }
  }

  /** Lines given with a final empty one are read back without it. */
  lemma LinesReadBack(lines: seq<string>)
    requires lines != [] && AllOneLine(lines)
    ensures SplitLines(Join(lines + [""])) == lines
  {
    SplitOfJoin(lines + [""]);
    assert (lines + [""])[..|lines|] == lines;
    assert Join(lines + [""]) != "" by {
      assert Split("") == [""];
    }
  }

  /** The same after any text of its own lines. */
  lemma LinesReadBackAfter(front: seq<string>, lines: seq<string>)
    requires front != [] && AllOneLine(lines)
    ensures SplitLines(Join(front + (lines + [""]))) == Split(Join(front)) + lines
  {
    var s := Join(front + (lines + [""]));
    JoinAppend(front, lines + [""]);
    SplitAtNewline(Join(front), Join(lines + [""]));
    SplitOfJoin(lines + [""]);
    var all := Split(Join(front)) + lines;
    assert Split(s) == all + [""];
    assert (all + [""])[..|all|] == all;
    assert s != [];
  }

  lemma {:induction false} JoinEndsLine(lines: seq<string>)
    requires lines != []
    ensures Join(lines + [""]) == Join(lines) + "\n"
  {
    if |lines| > 1 {
      assert (lines + [""])[1..] == lines[1..] + [""];
      JoinEndsLine(lines[1..]);
      assert lines[0] + ("\n" + (Join(lines[1..]) + "\n")) == (lines[0] + ("\n" + Join(lines[1..]))) + "\n";
    } else {
      assert (lines + [""])[1..] == [""];
    }
  }

  /** `splitLines` forgets only whether the last line was ended. */
  lemma SplitLinesKeepsText(content: string)
    ensures content == Join(SplitLines(content))
      || (SplitLines(content) != [] && content == Join(SplitLines(content)) + "\n")
  {
    var lines := Split(content);
    JoinOfSplit(content);
    if content != [] && lines[|lines| - 1] == "" {
      var kept := lines[..|lines| - 1];
      assert lines == kept + [""];
      assert kept != [] by {
        assert Join([""]) == "";
      }
      JoinEndsLine(kept);
    }
  }
}
