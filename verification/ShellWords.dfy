/** Shell commands written from their parts, and what the token scan makes of them. */
module ShellWords {
  import opened Options
  import opened ShellTokens

  // ---------------------------------------------------------------- words and their parts

  /** A character between double quotes: written as it is; behind the escape; behind a backslash that
      is kept; or a quote written twice. */
  datatype QuotedChar = Raw(c: char) | Behind(c: char) | Kept(c: char) | Twice

  /** A part of a word. */
  datatype Piece = Plain(c: char) | Escaping(c: char) | Single(text: string) | Double(chars: seq<QuotedChar>)

  /** How each dialect lets a character stand between double quotes. */
  predicate QuotedCharOk(q: QuotedChar, powershell: bool) {
    match q
    case Raw(c) => c != '"' && c != (if powershell then '`' else '\\')
    case Behind(c) => powershell || c in {'$', '`', '"', '\\', '\n'}
    case Kept(c) => !powershell && c !in {'$', '`', '"', '\\', '\n'}
    case Twice => powershell
  }

  function WriteQuoted(q: QuotedChar, powershell: bool): string {
    match q
    case Raw(c) => [c]
    case Behind(c) => [if powershell then '`' else '\\', c]
    case Kept(c) => ['\\', c]
    case Twice => "\"\""
  }

  /** A line continuation stands for nothing. */
  function Meant(c: char): string {
    if c == '\n' then "" else [c]
  }

  function QuotedText(q: QuotedChar): string {
    match q
    case Raw(c) => [c]
    case Behind(c) => Meant(c)
    case Kept(c) => ['\\', c]
    case Twice => "\""
  }

  /** An unescaped dollar, and for a POSIX shell a backquote, calls for expansion. */
  predicate QuotedLiteral(q: QuotedChar, powershell: bool) {
    q.Raw? ==> q.c != '$' && (powershell || q.c != '`')
  }

  /** A character that can stand in a word unquoted. */
  predicate PlainOk(c: char, powershell: bool) {
    !Space(c) && c !in {'<', '>', ';', '|', '&', '(', ')'} && c !in {'\'', '"'} && c != (if powershell then '`' else '\\')
  }

  predicate QuotedCharsOk(chars: seq<QuotedChar>, powershell: bool) {
    chars == [] || (QuotedCharOk(chars[0], powershell) && QuotedCharsOk(chars[1..], powershell))
  }

  predicate QuotedLiterals(chars: seq<QuotedChar>, powershell: bool) {
    chars == [] || (QuotedLiteral(chars[0], powershell) && QuotedLiterals(chars[1..], powershell))
  }

  predicate PieceOk(p: Piece, powershell: bool) {
    match p
    case Plain(c) => PlainOk(c, powershell)
    case Escaping(_) => true
    case Single(text) => powershell || '\'' !in text
    case Double(chars) => QuotedCharsOk(chars, powershell)
  }

  function WriteAllQuoted(chars: seq<QuotedChar>, powershell: bool): string {
    if chars == [] then "" else WriteQuoted(chars[0], powershell) + WriteAllQuoted(chars[1..], powershell)
  }

  function Doubled(text: string): string {
    if text == "" then "" else (if text[0] == '\'' then "''" else [text[0]]) + Doubled(text[1..])
  }

  function Write(p: Piece, powershell: bool): string {
    match p
    case Plain(c) => [c]
    case Escaping(c) => [if powershell then '`' else '\\', c]
    case Single(text) => "'" + (Inner(text, powershell) + "'")
    case Double(chars) => "\"" + (WriteAllQuoted(chars, powershell) + "\"")
  }

  function AllQuotedText(chars: seq<QuotedChar>): string {
    if chars == [] then "" else QuotedText(chars[0]) + AllQuotedText(chars[1..])
  }

  function TextOf(p: Piece): string {
    match p
    case Plain(c) => [c]
    case Escaping(c) => Meant(c)
    case Single(text) => text
    case Double(chars) => AllQuotedText(chars)
  }

  /** The part stands for itself: no glob, no expansion. */
  predicate LiteralPiece(p: Piece, powershell: bool) {
    match p
    case Plain(c) => c !in {'$', '*', '?', '['} && (powershell || c != '`')
    case Escaping(_) => true
    case Single(_) => true
    case Double(chars) => QuotedLiterals(chars, powershell)
  }

  function WriteAll(pieces: seq<Piece>, powershell: bool): string {
    if pieces == [] then "" else Write(pieces[0], powershell) + WriteAll(pieces[1..], powershell)
  }

  function TextOfAll(pieces: seq<Piece>): string {
    if pieces == [] then "" else TextOf(pieces[0]) + TextOfAll(pieces[1..])
  }

  /** Two quoted parts of a kind side by side would read as one with a doubled quote in PowerShell. */
  predicate Touching(p: Piece, pieces: seq<Piece>) {
    pieces != [] && ((p.Single? && pieces[0].Single?) || (p.Double? && pieces[0].Double?))
  }

  predicate PiecesOk(pieces: seq<Piece>, powershell: bool) {
    pieces == []
    || (PieceOk(pieces[0], powershell) && PiecesOk(pieces[1..], powershell)
        && (powershell ==> !Touching(pieces[0], pieces[1..])))
  }

  predicate AllLiteral(pieces: seq<Piece>, powershell: bool) {
    pieces == [] || (LiteralPiece(pieces[0], powershell) && AllLiteral(pieces[1..], powershell))
  }

  // ---------------------------------------------------------------- quoted parts read back

  lemma QuotedCharReads(q: QuotedChar, s: string, powershell: bool)
    requires QuotedCharOk(q, powershell)
    ensures Quoted(WriteQuoted(q, powershell) + s, '"', powershell)
      == Before(QuotedText(q), QuotedLiteral(q, powershell), Quoted(s, '"', powershell))
  {
    var t := WriteQuoted(q, powershell) + s;
    match q
    case Raw(c) => assert t[1..] == s;
    case Behind(c) => assert t[2..] == s;
    case Twice => assert t[2..] == s;
    case Kept(c) =>
      assert t[1..] == [c] + s && t[1..][1..] == s;
      BeforeBefore("\\", true, [c], true, Quoted(s, '"', powershell));
  }

  /** The closing double quote. */
  lemma DoubleEnds(rest: string, powershell: bool)
    requires powershell && rest != [] ==> rest[0] != '"'
    ensures Quoted("\"" + rest, '"', powershell) == Part("", true, rest)
  {
    assert ("\"" + rest)[1..] == rest;
  }

  lemma ConcatAssoc(a: string, b: string, c: string)
    ensures (a + b) + c == a + (b + c)
  {
  }

  lemma {:induction false} DoubleReads(chars: seq<QuotedChar>, rest: string, powershell: bool)
    requires QuotedCharsOk(chars, powershell)
    requires powershell && rest != [] ==> rest[0] != '"'
    ensures Quoted(WriteAllQuoted(chars, powershell) + ("\"" + rest), '"', powershell)
      == Part(AllQuotedText(chars), QuotedLiterals(chars, powershell), rest)
  {
    if chars == [] {
      DoubleEnds(rest, powershell);
      assert "" + ("\"" + rest) == "\"" + rest;
    } else {
      var written := WriteAllQuoted(chars[1..], powershell);
      DoubleReads(chars[1..], rest, powershell);
      QuotedCharReads(chars[0], written + ("\"" + rest), powershell);
      ConcatAssoc(WriteQuoted(chars[0], powershell), written, "\"" + rest);
    }
  }

  /** One character between single quotes. */
  lemma SingleCharReads(c: char, s: string, powershell: bool)
    requires powershell || c != '\''
    ensures Quoted((if c == '\'' then "''" else [c]) + s, '\'', powershell) == Before([c], true, Quoted(s, '\'', powershell))
  {
    var t := (if c == '\'' then "''" else [c]) + s;
    if c == '\'' {
      assert t[2..] == s;
    } else {
      assert t[1..] == s;
    }
  }

  /** What is written between single quotes. */
  function Inner(text: string, powershell: bool): string {
    if powershell then Doubled(text) else text
  }

  lemma {:induction false} SingleReads(text: string, rest: string, powershell: bool)
    requires powershell || '\'' !in text
    requires powershell && rest != [] ==> rest[0] != '\''
    ensures Quoted(Inner(text, powershell) + ("'" + rest), '\'', powershell) == Part(text, true, rest)
  {
    var end := "'" + rest;
    if text == "" {
      assert "" + end == end && end[1..] == rest;
    } else {
      SingleReads(text[1..], rest, powershell);
      SingleCharReads(text[0], Inner(text[1..], powershell) + end, powershell);
      InnerFirst(text, powershell);
      ConcatAssoc(if text[0] == '\'' then "''" else [text[0]], Inner(text[1..], powershell), end);
      assert text == [text[0]] + text[1..];
    }
  }

  lemma InnerFirst(text: string, powershell: bool)
    requires text != "" && (powershell || '\'' !in text)
    ensures Inner(text, powershell) == (if text[0] == '\'' then "''" else [text[0]]) + Inner(text[1..], powershell)
  {
    assert text == [text[0]] + text[1..];
  }

  // ---------------------------------------------------------------- words read back

  /** The rest does not go on with the quote that the part ends with. */
  predicate Clear(p: Piece, rest: string, powershell: bool) {
    powershell && rest != [] ==> (p.Single? ==> rest[0] != '\'') && (p.Double? ==> rest[0] != '"')
  }

  lemma PieceReads(p: Piece, rest: string, powershell: bool)
    requires PieceOk(p, powershell) && Clear(p, rest, powershell)
    ensures Unquoted(Write(p, powershell) + rest, powershell)
      == Before(TextOf(p), LiteralPiece(p, powershell), Unquoted(rest, powershell))
  {
    match p
    case Plain(c) => PlainReads(c, rest, powershell);
    case Escaping(c) => assert (Write(p, powershell) + rest)[2..] == rest;
    case Single(text) =>
      SingleReads(text, rest, powershell);
      QuotedPartReads('\'', Inner(text, powershell), text, true, rest, powershell);
    case Double(chars) =>
      DoubleReads(chars, rest, powershell);
      QuotedPartReads('"', WriteAllQuoted(chars, powershell), AllQuotedText(chars),
                      QuotedLiterals(chars, powershell), rest, powershell);
  }

  lemma PlainReads(c: char, rest: string, powershell: bool)
    requires PlainOk(c, powershell)
    ensures Unquoted([c] + rest, powershell)
      == Before([c], c !in {'$', '*', '?', '['} && (powershell || c != '`'), Unquoted(rest, powershell))
  {
    assert ([c] + rest)[1..] == rest;
  }

  /** A quoted part of a word, given how its inside reads. */
  lemma QuotedPartReads(quote: char, inner: string, text: string, literal: bool, rest: string, powershell: bool)
    requires quote == '\'' || quote == '"'
    requires Quoted(inner + ([quote] + rest), quote, powershell) == Part(text, literal, rest)
    ensures Unquoted(([quote] + (inner + [quote])) + rest, powershell) == Before(text, literal, Unquoted(rest, powershell))
  {
    var s := ([quote] + (inner + [quote])) + rest;
    assert s[1..] == inner + ([quote] + rest);
  }

  /** A written part is not empty. */
  lemma WriteStarts(p: Piece, powershell: bool)
    ensures Write(p, powershell) != ""
  {
  }

  lemma FirstChar(pieces: seq<Piece>, rest: string, powershell: bool)
    requires pieces != []
    ensures var s := WriteAll(pieces, powershell) + rest;
      && s == Write(pieces[0], powershell) + (WriteAll(pieces[1..], powershell) + rest)
      && s != [] && s[0] == Write(pieces[0], powershell)[0]
  {
    WriteStarts(pieces[0], powershell);
  }

  lemma FirstClear(p: Piece, pieces: seq<Piece>, rest: string, powershell: bool)
    requires PiecesOk(pieces, powershell) && (powershell ==> !Touching(p, pieces)) && (rest == [] || EndsWord(rest[0]))
    ensures Clear(p, WriteAll(pieces, powershell) + rest, powershell)
  {
    if pieces == [] {
      assert WriteAll(pieces, powershell) + rest == rest;
    } else {
      FirstChar(pieces, rest, powershell);
      QuoteStarts(pieces[0], powershell);
    }
  }

  lemma QuoteStarts(p: Piece, powershell: bool)
    requires PieceOk(p, powershell)
    ensures Write(p, powershell) != ""
    ensures Write(p, powershell)[0] == '\'' <==> p.Single?
    ensures Write(p, powershell)[0] == '"' <==> p.Double?
  {
  }

  /** Main result on words: whatever parts a word is written from, it is read as their text, and as
      literal exactly when each of its parts is. */
  lemma {:induction false} WordReads(pieces: seq<Piece>, rest: string, powershell: bool)
    requires PiecesOk(pieces, powershell) && (rest == [] || EndsWord(rest[0]))
    ensures Unquoted(WriteAll(pieces, powershell) + rest, powershell)
      == Part(TextOfAll(pieces), AllLiteral(pieces, powershell), rest)
  {
    if pieces == [] {
      assert "" + rest == rest;
    } else {
      var p, more := pieces[0], WriteAll(pieces[1..], powershell) + rest;
      WordReads(pieces[1..], rest, powershell);
      FirstClear(p, pieces[1..], rest, powershell);
      PieceReads(p, more, powershell);
      FirstChar(pieces, rest, powershell);
    }
  }

  // ---------------------------------------------------------------- assignments and prefixes

  predicate NameChar(p: Piece) {
    p.Plain? && ('A' <= p.c <= 'Z' || 'a' <= p.c <= 'z' || p.c == '_' || '0' <= p.c <= '9')
  }

  /** Name characters, written plainly, and then an equals sign. */
  predicate NamesThenEquals(pieces: seq<Piece>) {
    pieces != [] && (pieces[0] == Plain('=') || (NameChar(pieces[0]) && NamesThenEquals(pieces[1..])))
  }

  /** `NAME=...`, the name and the sign unquoted. */
  predicate AssignsName(pieces: seq<Piece>) {
    pieces != [] && NameChar(pieces[0]) && !('0' <= pieces[0].c <= '9') && NamesThenEquals(pieces)
  }

  lemma NameRunStep(c: char, t: string)
    ensures var s := [c] + t;
      NameRun(s) == (if NameStart(c) || Digit(c) then 1 + NameRun(t) else 0) && s[0] == c
      && (NameStart(c) || Digit(c) ==> (NameRun(s) < |s| && s[NameRun(s)] == '=' <==> NameRun(t) < |t| && t[NameRun(t)] == '='))
  {
    assert ([c] + t)[1..] == t;
  }

  lemma NameStops(s: string)
    requires s != "" && !NameStart(s[0]) && !Digit(s[0])
    ensures NameRun(s) == 0
  {
  }

  lemma {:induction false} NameRunReads(pieces: seq<Piece>, rest: string)
    requires PiecesOk(pieces, false) && (rest == [] || EndsWord(rest[0]))
    ensures var s := WriteAll(pieces, false) + rest; var n := NameRun(s);
      NamesThenEquals(pieces) <==> n < |s| && s[n] == '='
  {
    var s := WriteAll(pieces, false) + rest;
    if pieces == [] {
      assert s == rest;
      if s != "" {
        NameStops(s);
      }
    } else {
      FirstChar(pieces, rest, false);
      if NameChar(pieces[0]) {
        var t := WriteAll(pieces[1..], false) + rest;
        assert s == [pieces[0].c] + t;
        NameRunStep(pieces[0].c, t);
        NameRunReads(pieces[1..], rest);
      } else {
        FirstIsNoName(pieces[0]);
        NameStops(s);
      }
    }
  }

  lemma FirstIsNoName(p: Piece)
    requires PieceOk(p, false) && !NameChar(p)
    ensures var w := Write(p, false); w != "" && !NameStart(w[0]) && !Digit(w[0]) && (w[0] == '=' <==> p == Plain('='))
  {
  }

  lemma AssignmentReads(pieces: seq<Piece>, rest: string)
    requires PiecesOk(pieces, false) && (rest == [] || EndsWord(rest[0]))
    ensures AssignmentAt(WriteAll(pieces, false) + rest) <==> AssignsName(pieces)
  {
    NameRunReads(pieces, rest);
    if pieces == [] {
      assert WriteAll(pieces, false) + rest == rest;
    } else {
      FirstChar(pieces, rest, false);
    }
  }

  /** A brace or an exclamation mark that stands alone and unquoted. */
  predicate StandsAlone(pieces: seq<Piece>) {
    pieces == [Plain('{')] || pieces == [Plain('!')]
  }

  lemma PrefixReads(pieces: seq<Piece>, rest: string)
    requires PiecesOk(pieces, false) && pieces != [] && (rest == [] || EndsWord(rest[0]))
    ensures CommandPrefixAt(WriteAll(pieces, false) + rest) <==> StandsAlone(pieces)
  {
    FirstChar(pieces, rest, false);
    if pieces[0].Plain? {
      if |pieces| == 1 {
        assert WriteAll(pieces[1..], false) + rest == rest;
      } else {
        FirstChar(pieces[1..], rest, false);
        assert PieceOk(pieces[1..][0], false);
      }
    }
  }

  // ---------------------------------------------------------------- commands read back

  /** What a command is written from, with or without a space behind. */
  datatype Item = Written(pieces: seq<Piece>, spaced: bool) | Sign(text: string, spaced: bool)

  /** The operators, save those that start a here-document. */
  const SIGNS: set<string> :=
    {"&>>", "&>", ">>", ">&", "<<<", "<&", "&&", "||", "<", ">", ";", "|", "&", "(", ")", "\n"}

  predicate ItemOk(item: Item, powershell: bool) {
    match item
    case Written(pieces, _) => pieces != [] && pieces[0] != Plain('#') && PiecesOk(pieces, powershell)
    case Sign(text, _) => text in SIGNS
  }

  predicate DigitsOnly(pieces: seq<Piece>) {
    pieces == [] || (pieces[0].Plain? && '0' <= pieces[0].c <= '9' && DigitsOnly(pieces[1..]))
  }

  /** Words and operators may touch; but a number before a redirection would be its descriptor. */
  predicate MayTouch(item: Item, items: seq<Item>, powershell: bool) {
    || items == []
    || (item.Sign? && items[0].Written?)
    || (item.Written? && items[0].Sign? && items[0].text in SIGNS
        && !(!powershell && DigitsOnly(item.pieces) && items[0].text[0] in {'<', '>'}))
  }

  predicate CommandOk(items: seq<Item>, powershell: bool) {
    items == []
    || (ItemOk(items[0], powershell) && CommandOk(items[1..], powershell)
        && (items[0].spaced || MayTouch(items[0], items[1..], powershell)))
  }

  function WriteItem(item: Item, powershell: bool): string {
    match item
    case Written(pieces, _) => WriteAll(pieces, powershell)
    case Sign(text, _) => text
  }

  function WriteCommand(items: seq<Item>, powershell: bool): string
    decreases |items|, 1
  {
    if items == [] then "" else WriteItem(items[0], powershell) + Behind(items, powershell)
  }

  /** What is written behind the first item. */
  function Behind(items: seq<Item>, powershell: bool): string
    requires items != []
    decreases |items|, 0
  {
    (if items[0].spaced then " " else "") + WriteCommand(items[1..], powershell)
  }

  function TokenOf(item: Item, powershell: bool): Token {
    match item
    case Sign(text, _) => Operator(text)
    case Written(pieces, _) =>
      var literal := AllLiteral(pieces, powershell);
      Word(TextOfAll(pieces), literal,
           !powershell && literal && AssignsName(pieces), !powershell && literal && StandsAlone(pieces))
  }

  function TokensOf(items: seq<Item>, powershell: bool): seq<Token> {
    if items == [] then [] else [TokenOf(items[0], powershell)] + TokensOf(items[1..], powershell)
  }

  lemma RestOfDigits(c: char, t: string)
    requires Digit(c)
    ensures var s := [c] + t; DigitRun(s) == 1 + DigitRun(t) && s[1..] == t
  {
    assert ([c] + t)[1..] == t;
  }

  /** Digits at the front that a redirection follows are the whole word. */
  lemma {:induction false} DigitsAdjoin(pieces: seq<Piece>, rest: string)
    requires PiecesOk(pieces, false) && (rest == [] || EndsWord(rest[0]))
    ensures var s := WriteAll(pieces, false) + rest; var n := DigitRun(s);
      n < |s| && s[n] in {'<', '>'} ==> DigitsOnly(pieces) && rest != [] && rest[0] in {'<', '>'}
  {
    var s := WriteAll(pieces, false) + rest;
    if pieces == [] {
      assert s == rest;
    } else {
      FirstChar(pieces, rest, false);
      if pieces[0].Plain? && Digit(pieces[0].c) {
        var t := WriteAll(pieces[1..], false) + rest;
        assert s == [pieces[0].c] + t;
        RestOfDigits(pieces[0].c, t);
        DigitsAdjoin(pieces[1..], rest);
      } else {
        FirstIsNoDigit(pieces[0]);
      }
    }
  }

  lemma FirstIsNoDigit(p: Piece)
    requires PieceOk(p, false) && !(p.Plain? && Digit(p.c))
    ensures var w := Write(p, false); w != "" && !Digit(w[0]) && w[0] !in {'<', '>'}
  {
  }

  /** A word's first character ends no word. */
  lemma WordStarts(pieces: seq<Piece>, rest: string, powershell: bool)
    requires pieces != [] && PiecesOk(pieces, powershell) && pieces[0] != Plain('#')
    ensures var s := WriteAll(pieces, powershell) + rest; s != [] && !EndsWord(s[0]) && s[0] != '#'
  {
    FirstChar(pieces, rest, powershell);
  }

  lemma WrittenReads(pieces: seq<Piece>, spaced: bool, rest: string, powershell: bool)
    requires ItemOk(Written(pieces, spaced), powershell) && (rest == [] || EndsWord(rest[0]))
    requires !powershell && rest != [] && rest[0] in {'<', '>'} ==> !DigitsOnly(pieces)
    ensures Next(WriteAll(pieces, powershell) + rest, powershell, Waiting(None, []))
      == Turn(Some(TokenOf(Written(pieces, spaced), powershell)), rest, Waiting(None, []))
  {
    WordStarts(pieces, rest, powershell);
    WordReads(pieces, rest, powershell);
    if !powershell {
      DigitsAdjoin(pieces, rest);
      AssignmentReads(pieces, rest);
      PrefixReads(pieces, rest);
    }
  }

  lemma SignReads(text: string, rest: string, powershell: bool)
    requires text in SIGNS && (rest == [] || !OperatorChar(rest[0]))
    ensures Next(text + rest, powershell, Waiting(None, [])) == Turn(Some(Operator(text)), rest, Waiting(None, []))
  {
    var s := text + rest;
    assert s[|text|..] == rest;
    if text == "\n" {
      assert s[1..] == rest;
    } else {
      SignIsOperator(text, rest);
      assert AfterOperator(Waiting(None, []), text, powershell) == Waiting(None, []);
    }
  }

  lemma SignIsOperator(text: string, rest: string)
    requires text in SIGNS && text != "\n" && (rest == [] || !OperatorChar(rest[0]))
    ensures var s := text + rest;
      OperatorAt(s) == text && Descriptor(s) == 0 && !Space(s[0]) && s[0] != '#' && text != "<<" && text != "<<-"
  {
    var s := text + rest;
    assert |s| > |text| ==> !OperatorChar(s[|text|]);
    if |text| == 1 {
      assert s[..1] == text;
    } else if |text| == 2 {
      assert s[..2] == text;
    } else {
      assert s[..3] == text;
    }
  }

  lemma SignStarts(text: string)
    requires text in SIGNS
    ensures text != "" && EndsWord(text[0])
  {
  }

  /** What follows an item cannot be taken for part of it. */
  lemma BehindIsApart(items: seq<Item>, powershell: bool)
    requires items != [] && CommandOk(items, powershell)
    ensures var rest := Behind(items, powershell);
      if items[0].Sign? then rest == [] || !OperatorChar(rest[0])
      else
        && (rest == [] || EndsWord(rest[0]))
        && (!powershell && rest != [] && rest[0] in {'<', '>'} ==> !DigitsOnly(items[0].pieces))
  {
    if items[0].spaced {
      assert Space(' ') && EndsWord(' ');
    } else if |items| > 1 {
      var next := items[1];
      assert Behind(items, powershell) == WriteItem(next, powershell) + Behind(items[1..], powershell);
      if next.Written? {
        WordStarts(next.pieces, Behind(items[1..], powershell), powershell);
      } else {
        SignStarts(next.text);
      }
    }
  }

  lemma ItemReads(items: seq<Item>, powershell: bool)
    requires items != [] && CommandOk(items, powershell)
    ensures WriteCommand(items, powershell) != ""
    ensures Next(WriteCommand(items, powershell), powershell, Waiting(None, []))
      == Turn(Some(TokenOf(items[0], powershell)), Behind(items, powershell), Waiting(None, []))
  {
    BehindIsApart(items, powershell);
    match items[0]
    case Written(pieces, spaced) =>
      WordStarts(pieces, Behind(items, powershell), powershell);
      WrittenReads(pieces, spaced, Behind(items, powershell), powershell);
    case Sign(text, _) =>
      SignStarts(text);
      SignReads(text, Behind(items, powershell), powershell);
  }

  /** Main result: a command written from words and operators, spaced or touching, is tokenised to
      exactly those, with the text, the literalness and the flags of each word. */
  lemma {:induction false} CommandReads(items: seq<Item>, powershell: bool)
    requires CommandOk(items, powershell)
    ensures Tokens(WriteCommand(items, powershell), powershell) == TokensOf(items, powershell)
  {
    if items != [] {
      CommandReads(items[1..], powershell);
      ItemReads(items, powershell);
      BehindScans(items, powershell);
    }
  }

  lemma BehindScans(items: seq<Item>, powershell: bool)
    requires items != []
    ensures Tokens(Behind(items, powershell), powershell) == Tokens(WriteCommand(items[1..], powershell), powershell)
  {
    var rest := WriteCommand(items[1..], powershell);
    ScanSpace(rest, powershell, Waiting(None, []));
    assert "" + rest == rest;
  }

  // ---------------------------------------------------------------- what the scan passes over

  lemma {:induction false} LineIsAll(line: string, rest: string)
    requires '\n' !in line && (rest == [] || rest[0] == '\n')
    ensures LineLength(line + rest) == |line|
  {
    if line == [] {
      assert line + rest == rest;
    } else {
      assert (line + rest)[1..] == line[1..] + rest;
      LineIsAll(line[1..], rest);
    }
  }

  /** A comment reaches to the end of its line. */
  lemma CommentIsNothing(comment: string, rest: string, powershell: bool, w: Waiting)
    requires '\n' !in comment && (rest == [] || rest[0] == '\n')
    ensures Scan("#" + comment + rest, powershell, w) == Scan(rest, powershell, w)
  {
    var s := "#" + comment + rest;
    LineIsAll("#" + comment, rest);
    assert ("#" + comment)[0] == '#' && forall c | c in "#" + comment :: c != '\n';
    assert s[LineLength(s)..] == rest;
  }

  lemma {:induction false} DigitsAre(digits: string, rest: string)
    requires (forall c | c in digits :: '0' <= c <= '9') && rest != [] && !('0' <= rest[0] <= '9')
    ensures DigitRun(digits + rest) == |digits|
  {
    if digits == [] {
      assert digits + rest == rest;
    } else {
      assert digits[0] in digits && forall c | c in digits[1..] :: c in digits;
      assert (digits + rest)[1..] == digits[1..] + rest;
      DigitsAre(digits[1..], rest);
    }
  }

  lemma DescriptorReads(digits: string, rest: string)
    requires digits != [] && (forall c | c in digits :: '0' <= c <= '9') && rest != [] && rest[0] in {'<', '>'}
    ensures var s := digits + rest; Descriptor(s) == |digits| && '0' <= s[0] <= '9' && s[|digits|..] == rest
  {
    DigitsAre(digits, rest);
    assert digits[0] in digits;
  }

  /** The number of a descriptor before a redirection is passed over, in a POSIX shell. */
  lemma DescriptorIsNothing(digits: string, rest: string, w: Waiting)
    requires digits != [] && (forall c | c in digits :: '0' <= c <= '9') && rest != [] && rest[0] in {'<', '>'}
    ensures Scan(digits + rest, false, w) == Scan(rest, false, w)
  {
    DescriptorReads(digits, rest);
    var s := digits + rest;
    assert s[0] != '\n' && !Space(s[0]) && s[0] != '#';
    assert Next(s, false, w) == Turn(None, rest, w);
  }

  /** A quote that nothing closes takes in the rest of the command, which is then not literal. */
  lemma {:induction false} UnclosedIsNotLiteral(text: string, powershell: bool)
    requires '\'' !in text
    ensures Quoted(text, '\'', powershell) == Part(text, false, [])
  {
    if text != "" {
      UnclosedIsNotLiteral(text[1..], powershell);
      assert text == [text[0]] + text[1..];
    }
  }

  predicate Tabs(s: string) {
    forall c | c in s :: c == '\t'
  }

  lemma {:induction false} TabsGone(tabs: string, rest: string)
    requires Tabs(tabs) && (rest != [] ==> rest[0] != '\t')
    ensures WithoutTabs(tabs + rest) == rest
  {
    if tabs == "" {
      assert tabs + rest == rest;
    } else {
      assert tabs[0] in tabs && (tabs + rest)[1..] == tabs[1..] + rest;
      assert forall c | c in tabs[1..] :: c in tabs;
      TabsGone(tabs[1..], rest);
    }
  }

  lemma {:induction false} TabsSplit(line: string) returns (tabs: string)
    ensures Tabs(tabs) && line == tabs + WithoutTabs(line)
    ensures WithoutTabs(line) != [] ==> WithoutTabs(line)[0] != '\t'
  {
    tabs := "";
    if line != "" && line[0] == '\t' {
      var more := TabsSplit(line[1..]);
      tabs := "\t" + more;
      assert line == "\t" + line[1..];
    }
  }

  /** A line closes a here-document exactly when it is the delimiter, behind tabs only if they are to be
      stripped. */
  lemma ClosesIff(line: string, h: Heredoc)
    ensures Closes(line, h) <==>
      if !h.stripTabs then line == h.delimiter
      else (exists tabs :: Tabs(tabs) && line == tabs + h.delimiter) && (h.delimiter != "" ==> h.delimiter[0] != '\t')
  {
    if h.stripTabs {
      var own := TabsSplit(line);
      if tabs :| Tabs(tabs) && line == tabs + h.delimiter && (h.delimiter != "" ==> h.delimiter[0] != '\t') {
        TabsGone(tabs, h.delimiter);
      }
    }
  }
}
