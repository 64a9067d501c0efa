/** A reader of JSON texts (RFC 8259), and what it makes of canonical ones. */
module JsonReader {
  import opened Utf16
  import opened CanonicalJson
  import Ordering

  // ---------------------------------------------------------------- string literals

  datatype Literal = NoLiteral | Literal(s: Text, rest: Text)

  function HexValue(c: CodeUnit): int {
    if 0x30 <= c <= 0x39 then c - 0x30 else if 0x61 <= c <= 0x66 then c - 0x57 else -1
  }

  /** The unit that four hexadecimal digits at the front name. */
  function HexUnit(t: Text): int {
    if |t| < 4 || exists k | 0 <= k < 4 :: HexValue(t[k]) < 0 then -1
    else ((HexValue(t[0]) * 16 + HexValue(t[1])) * 16 + HexValue(t[2])) * 16 + HexValue(t[3])
  }

  /** The unit that a letter behind a backslash stands for, section 7 of RFC 8259. */
  const SHORT: map<int, int> :=
    map[0x22 := 0x22, 0x5C := 0x5C, 0x2F := 0x2F, 0x62 := 0x08, 0x66 := 0x0C, 0x6E := 0x0A, 0x72 := 0x0D, 0x74 := 0x09]

  /** One character of a literal's inside. */
  function ReadChar(t: Text): Literal
    requires t != []
  {
    if t[0] != BACKSLASH then if t[0] < 0x20 then NoLiteral else Literal([t[0]], t[1..])
    else if |t| > 1 && t[1] in SHORT then Literal([SHORT[t[1]]], t[2..])
    else if |t| > 5 && t[1] == 0x75 && 0 <= HexUnit(t[2..]) < 0x10000 then Literal([HexUnit(t[2..])], t[6..])
    else NoLiteral
  }

  /** The inside of a literal up to its closing quote. */
  function ReadQuoted(t: Text): (r: Literal)
    ensures r.Literal? ==> |r.rest| < |t|
    decreases |t|
  {
    if t == [] then NoLiteral
    else if t[0] == QUOTE then Literal([], t[1..])
    else
      match ReadChar(t)
      case NoLiteral => NoLiteral
      case Literal(c, rest) =>
        match ReadQuoted(rest)
        case NoLiteral => NoLiteral
        case Literal(s, end) => Literal(c + s, end)
  }

  lemma HexReads(n: int)
    requires 0 <= n < 16
    ensures HexValue(Hex(n)) == n
  {
  }

  lemma UnicodeReads(c: CodeUnit, x: Text)
    ensures ReadChar(UnicodeEscape(c) + x) == Literal([c], x)
  {
    var t := UnicodeEscape(c) + x;
    assert t[6..] == x && t[2] == Hex(c / 16 / 16 / 16) && t[3] == Hex(c / 16 / 16 % 16);
    assert t[4] == Hex(c / 16 % 16) && t[5] == Hex(c % 16);
    HexReads(c / 16 / 16 / 16);
    HexReads(c / 16 / 16 % 16);
    HexReads(c / 16 % 16);
    HexReads(c % 16);
  }

  lemma EscapeReads(c: CodeUnit, x: Text)
    ensures Escape(c) != [] && Escape(c)[0] != QUOTE && ReadChar(Escape(c) + x) == Literal([c], x)
  {
    var t := Escape(c) + x;
    if |Escape(c)| == 6 {
      UnicodeReads(c, x);
    } else {
      assert t[|Escape(c)|..] == x;
    }
  }

  lemma CharThen(t: Text, c: Text, rest: Text, s: Text, end: Text)
    requires t != [] && t[0] != QUOTE && ReadChar(t) == Literal(c, rest) && ReadQuoted(rest) == Literal(s, end)
    ensures ReadQuoted(t) == Literal(c + s, end)
  {
  }

  /** A character that needs no escape. */
  lemma PlainReads(c: CodeUnit, x: Text)
    requires c >= 0x20 && c != QUOTE && c != BACKSLASH
    ensures ReadChar([c] + x) == Literal([c], x)
  {
    assert ([c] + x)[1..] == x;
  }

  lemma PairReads(h: CodeUnit, l: CodeUnit, s: Text, t: Text, end: Text)
    requires IsHigh(h) && IsLow(l) && ReadQuoted(t) == Literal(s, end)
    ensures ReadQuoted([h] + ([l] + t)) == Literal([h] + ([l] + s), end)
  {
    PlainReads(l, t);
    CharThen([l] + t, [l], t, s, end);
    PlainReads(h, [l] + t);
    CharThen([h] + ([l] + t), [h], [l] + t, [l] + s, end);
  }

  lemma PairSplits(s: Text, x: Text)
    requires |s| >= 2
    ensures s[..2] + x == [s[0]] + ([s[1]] + x)
  {
  }

  /** A quoted string is read back, whatever it holds. */
  lemma {:induction false} QuotedReads(s: Text, x: Text)
    ensures ReadQuoted(Quoted(s) + x) == Literal(s, x)
    decreases |s|
  {
    if s == [] {
      assert ([QUOTE] + x)[1..] == x;
    } else if StartsWithPair(s) {
      QuotedReads(s[2..], x);
      PairReads(s[0], s[1], s[2..], Quoted(s[2..]) + x, x);
      PairSplits(s, s[2..]);
      assert s == s[..2] + s[2..];
      Assoc(s[..2], Quoted(s[2..]), x);
      PairSplits(s, Quoted(s[2..]) + x);
    } else {
      var more := Quoted(s[1..]) + x;
      QuotedReads(s[1..], x);
      EscapeReads(s[0], more);
      CharThen(Escape(s[0]) + more, [s[0]], more, s[1..], x);
      Assoc(Escape(s[0]), Quoted(s[1..]), x);
      assert s == [s[0]] + s[1..];
    }
  }

  // ---------------------------------------------------------------- values

  datatype Read = Fail | Got(value: Json, rest: Text)

  datatype ReadItems = NoItems | Items(items: seq<Json>, rest: Text)

  datatype ReadFields = NoFields | Fields(fields: seq<Field>, rest: Text)

  predicate Begins(t: Text, word: Text) {
    |word| <= |t| && t[..|word|] == word
  }

  function NumberLength(t: Text): (n: nat)
    ensures n <= |t|
  {
    if t == [] || !NumberUnit(t[0]) then 0 else 1 + NumberLength(t[1..])
  }

  /** The value at the front, and what follows it. */
  function ReadValue(t: Text): (r: Read)
    ensures r.Got? ==> |r.rest| < |t|
    decreases |t|, 0
  {
    if t == [] then Fail
    else if Begins(t, ['n' as int, 'u' as int, 'l' as int, 'l' as int]) then Got(Null, t[4..])
    else if Begins(t, ['t' as int, 'r' as int, 'u' as int, 'e' as int]) then Got(Bool(true), t[4..])
    else if Begins(t, ['f' as int, 'a' as int, 'l' as int, 's' as int, 'e' as int]) then Got(Bool(false), t[5..])
    else if t[0] == '"' as int then
      match ReadQuoted(t[1..])
      case NoLiteral => Fail
      case Literal(s, rest) => Got(Str(s), rest)
    else if t[0] == '[' as int then
      if |t| > 1 && t[1] == ']' as int then Got(Arr([]), t[2..])
      else
        match ReadItemsOf(t[1..])
        case NoItems => Fail
        case Items(items, rest) => Got(Arr(items), rest)
    else if t[0] == '{' as int then
      if |t| > 1 && t[1] == '}' as int then Got(Obj([]), t[2..])
      else
        match ReadFieldsOf(t[1..])
        case NoFields => Fail
        case Fields(fields, rest) => Got(Obj(fields), rest)
    else
      var n := NumberLength(t);
      if IsNumberText(t[..n]) then Got(Num(t[..n]), t[n..]) else Fail
  }

  /** Values with commas between them, up to the closing bracket. */
  function ReadItemsOf(t: Text): (r: ReadItems)
    ensures r.Items? ==> |r.rest| < |t|
    decreases |t|, 1
  {
    match ReadValue(t)
    case Fail => NoItems
    case Got(v, rest) =>
      if rest != [] && rest[0] == ']' as int then Items([v], rest[1..])
      else if rest == [] || rest[0] != ',' as int then NoItems
      else
        match ReadItemsOf(rest[1..])
        case NoItems => NoItems
        case Items(more, end) => Items([v] + more, end)
  }

  /** Quoted keys, colons and values, up to the closing brace. */
  function ReadFieldsOf(t: Text): (r: ReadFields)
    ensures r.Fields? ==> |r.rest| < |t|
    decreases |t|, 1
  {
    if t == [] || t[0] != '"' as int then NoFields
    else
      match ReadQuoted(t[1..])
      case NoLiteral => NoFields
      case Literal(key, behind) =>
        if behind == [] || behind[0] != ':' as int then NoFields
        else
          match ReadValue(behind[1..])
          case Fail => NoFields
          case Got(v, rest) =>
            if rest != [] && rest[0] == '}' as int then Fields([Field(key, v)], rest[1..])
            else if rest == [] || rest[0] != ',' as int then NoFields
            else
              match ReadFieldsOf(rest[1..])
              case NoFields => NoFields
              case Fields(more, end) => Fields([Field(key, v)] + more, end)
  }

  // ---------------------------------------------------------------- canonical texts read back

  /** What a value should be read as: itself, with null for what JSON has no text for, and with an
      object's properties in the order of their keys. */
  ghost predicate ReadAs(v: Json, w: Json) {
    && Same(v, w) && WellFormed(w) && (v.Bool? || v.Num? || v.Str? ==> w == v) && (Nullish(v) ==> w == Null)
    && (v.Obj? && w.Obj? ==> forall i, j | 0 <= i < j < |w.fields| :: Ordering.LexLess(w.fields[i].key, w.fields[j].key))
  }

  lemma NothingBegins(t: Text)
    requires t != [] && t[0] != 0x6E && t[0] != 0x74 && t[0] != 0x66
    ensures !Begins(t, ['n' as int, 'u' as int, 'l' as int, 'l' as int])
    ensures !Begins(t, ['t' as int, 'r' as int, 'u' as int, 'e' as int])
    ensures !Begins(t, ['f' as int, 'a' as int, 'l' as int, 's' as int, 'e' as int])
  {
  }

  lemma {:induction false} NumberLengthIs(m: Text, x: Text)
    requires Delimited(x) && forall k | 0 <= k < |m| :: NumberUnit(m[k])
    ensures NumberLength(m + x) == |m|
  {
    if m == [] {
      assert m + x == x;
    } else {
      assert (m + x)[1..] == m[1..] + x;
      NumberLengthIs(m[1..], x);
    }
  }

  lemma NumberReads(text: NumberText, x: Text)
    requires Delimited(x)
    ensures ReadValue(text + x) == Got(Num(text), x)
  {
    NumberLengthIs(text, x);
    NothingBegins(text + x);
    assert (text + x)[..|text|] == text && (text + x)[|text|..] == x;
  }

  lemma StringReads(s: Text, x: Text)
    ensures ReadValue(PrintString(s) + x) == Got(Str(s), x)
  {
    var t := [QUOTE] + (Quoted(s) + x);
    Assoc([QUOTE], Quoted(s), x);
    assert t[1..] == Quoted(s) + x;
    QuotedReads(s, x);
    NothingBegins(t);
  }

  lemma WordReads(word: Text, x: Text)
    ensures Begins(word + x, word) && (word + x)[|word|..] == x
    ensures word != [] ==> (word + x)[0] == word[0]
  {
    assert (word + x)[..|word|] == word;
  }

  lemma ScalarReads(v: Json, x: Text)
    requires !v.Arr? && !v.Obj? && Delimited(x)
    ensures var r := ReadValue(Print(v) + x); r.Got? && r.rest == x && ReadAs(v, r.value)
  {
    match v
    case Num(text) => NumberReads(text, x);
    case Str(s) => StringReads(s, x);
    case _ => WordReads(Print(v), x);
  }

  /** Items read as those of the array from an index on. */
  ghost predicate ItemsAs(v: Json, from: nat, items: seq<Json>)
    requires v.Arr? && from <= |v.items|
  {
    |items| == |v.items| - from && forall k | 0 <= k < |items| :: ReadAs(v.items[from + k], items[k])
  }

  lemma PushItemAs(v: Json, from: nat, w: Json, more: seq<Json>)
    requires v.Arr? && from < |v.items| && ReadAs(v.items[from], w) && ItemsAs(v, from + 1, more)
    ensures ItemsAs(v, from, [w] + more)
  {
    forall k | 0 <= k < |[w] + more| ensures ReadAs(v.items[from + k], ([w] + more)[k]) {
      assert k > 0 ==> ([w] + more)[k] == more[k - 1] && v.items[from + k] == v.items[from + 1 + (k - 1)];
    }
  }

  lemma ArrayAs(v: Json, items: seq<Json>)
    requires v.Arr? && ItemsAs(v, 0, items)
    ensures ReadAs(v, Arr(items))
  {
    forall k | 0 <= k < |items| ensures Same(v.items[k], items[k]) && WellFormed(items[k]) {
      assert ReadAs(v.items[0 + k], items[k]);
    }
  }

  /** Fields read as those of the object under some keys. */
  ghost predicate FieldsAs(v: Json, keys: seq<Text>, fields: seq<Field>)
    requires v.Obj? && forall k | 0 <= k < |keys| :: keys[k] in Keys(v.fields)
  {
    |fields| == |keys| && forall k | 0 <= k < |keys| :: fields[k].key == keys[k] && ReadAs(Get(v.fields, keys[k]), fields[k].value)
  }

  lemma PushFieldAs(v: Json, keys: seq<Text>, w: Json, more: seq<Field>)
    requires v.Obj? && keys != [] && forall k | 0 <= k < |keys| :: keys[k] in Keys(v.fields)
    requires ReadAs(Get(v.fields, keys[0]), w) && FieldsAs(v, keys[1..], more)
    ensures FieldsAs(v, keys, [Field(keys[0], w)] + more)
  {
    var fields := [Field(keys[0], w)] + more;
    forall k | 0 <= k < |keys| ensures fields[k].key == keys[k] && ReadAs(Get(v.fields, keys[k]), fields[k].value) {
      assert k > 0 ==> fields[k] == more[k - 1] && keys[k] == keys[1..][k - 1];
    }
  }

  lemma {:induction false} GetAt(fields: seq<Field>, k: nat)
    requires k < |fields| && forall i, j | 0 <= i < j < |fields| :: fields[i].key != fields[j].key
    ensures fields[k].key == Keys(fields)[k] && Get(fields, fields[k].key) == fields[k].value
  {
    if k > 0 {
      GetAt(fields[1..], k - 1);
    }
  }

  lemma ObjectKeys(v: Json, fields: seq<Field>)
    requires v.Obj? && WellFormed(v) && FieldsAs(v, SortedKeys(v.fields), fields)
    ensures Keys(fields) == SortedKeys(v.fields)
    ensures forall i, j | 0 <= i < j < |fields| ::
      Ordering.LexLess(fields[i].key, fields[j].key) && fields[i].key != fields[j].key
  {
    var keys := SortedKeys(v.fields);
    KeysSorted(v.fields);
    forall i, j | 0 <= i < j < |fields| ensures Ordering.LexLess(fields[i].key, fields[j].key) && fields[i].key != fields[j].key {
      assert fields[i].key == keys[i] && fields[j].key == keys[j];
      Ordering.LexIrreflexive(keys[i]);
    }
  }

  lemma ObjectValue(v: Json, fields: seq<Field>, key: Text)
    requires v.Obj? && FieldsAs(v, SortedKeys(v.fields), fields) && key in Keys(fields) && key in Keys(v.fields)
    requires forall i, j | 0 <= i < j < |fields| :: fields[i].key != fields[j].key
    ensures ReadAs(Get(v.fields, key), Get(fields, key))
  {
    var k :| 0 <= k < |fields| && Keys(fields)[k] == key;
    GetAt(fields, k);
  }

  lemma ObjectSame(v: Json, fields: seq<Field>)
    requires v.Obj? && WellFormed(v) && FieldsAs(v, SortedKeys(v.fields), fields) && Keys(fields) == SortedKeys(v.fields)
    requires forall i, j | 0 <= i < j < |fields| :: fields[i].key != fields[j].key
    ensures Same(v, Obj(fields))
  {
    assert forall key :: key in SortedKeys(v.fields) <==> key in Keys(v.fields);
    forall key | key in Keys(v.fields) && key in Keys(fields) ensures Same(Get(v.fields, key), Get(fields, key)) {
      ObjectValue(v, fields, key);
    }
  }

  lemma ObjectWellFormed(v: Json, fields: seq<Field>)
    requires v.Obj? && FieldsAs(v, SortedKeys(v.fields), fields)
    requires forall i, j | 0 <= i < j < |fields| :: fields[i].key != fields[j].key
    ensures WellFormed(Obj(fields))
  {
    var keys := SortedKeys(v.fields);
    forall k | 0 <= k < |fields| ensures WellFormed(fields[k].value) {
      assert ReadAs(Get(v.fields, keys[k]), fields[k].value);
    }
  }

  lemma ObjectAs(v: Json, fields: seq<Field>)
    requires v.Obj? && WellFormed(v) && FieldsAs(v, SortedKeys(v.fields), fields)
    ensures ReadAs(v, Obj(fields))
  {
    ObjectKeys(v, fields);
    ObjectSame(v, fields);
    ObjectWellFormed(v, fields);
  }

  lemma BracketReads(u: CodeUnit, rest: Text)
    ensures ([u] + rest)[1..] == rest && ([u] + rest)[0] == u
  {
  }

  lemma {:induction false} ItemsRead(v: Json, from: nat, x: Text) returns (items: seq<Json>)
    requires v.Arr? && WellFormed(v) && from < |v.items| && Delimited(x)
    ensures ReadItemsOf(ItemsThen(v, from, x)) == Items(items, x) && ItemsAs(v, from, items)
    decreases v, 0, |v.items| - from
  {
    var rest := ItemsRest(v, from, x);
    var w := TextReadsBack(v.items[from], rest);
    if from + 1 == |v.items| {
      BracketReads(CLOSE_ARRAY, x);
      items := [w];
    } else {
      BracketReads(COMMA, ItemsThen(v, from + 1, x));
      var more := ItemsRead(v, from + 1, x);
      PushItemAs(v, from, w, more);
      items := [w] + more;
    }
  }

  /** A field, given how its value reads, and what follows it. */
  lemma FieldReads(key: Text, value: Text, rest: Text, w: Json)
    requires ReadValue(value + rest) == Got(w, rest) && rest != []
    ensures var r, more := ReadFieldsOf(FieldThen(Quoted(key), value, rest)), ReadFieldsOf(rest[1..]);
      && (rest[0] == CLOSE_OBJECT ==> r == Fields([Field(key, w)], rest[1..]))
      && (rest[0] == COMMA && more.Fields? ==> r == Fields([Field(key, w)] + more.fields, more.rest))
  {
    var behind := [COLON] + (value + rest);
    BracketReads(QUOTE, Quoted(key) + behind);
    BracketReads(COLON, value + rest);
    QuotedReads(key, behind);
  }

  lemma {:induction false} FieldsRead(v: Json, keys: seq<Text>, x: Text) returns (fields: seq<Field>)
    requires v.Obj? && WellFormed(v) && keys != [] && Delimited(x)
    requires forall k | 0 <= k < |keys| :: keys[k] in Keys(v.fields)
    ensures ReadFieldsOf(FieldsThen(v, keys, x)) == Fields(fields, x) && FieldsAs(v, keys, fields)
    decreases v, 0, |keys|
  {
    var w := FirstFieldReads(v, keys, x);
    FieldReads(keys[0], Print(Get(v.fields, keys[0])), FieldsRest(v, keys, x), w);
    if |keys| == 1 {
      BracketReads(CLOSE_OBJECT, x);
      fields := [Field(keys[0], w)];
    } else {
      BracketReads(COMMA, FieldsThen(v, keys[1..], x));
      var more := FieldsRead(v, keys[1..], x);
      PushFieldAs(v, keys, w, more);
      fields := [Field(keys[0], w)] + more;
    }
  }

  /** The value of the first field. */
  lemma {:induction false} FirstFieldReads(v: Json, keys: seq<Text>, x: Text) returns (w: Json)
    requires v.Obj? && WellFormed(v) && keys != [] && Delimited(x)
    requires forall k | 0 <= k < |keys| :: keys[k] in Keys(v.fields)
    ensures var value := Get(v.fields, keys[0]); var rest := FieldsRest(v, keys, x);
      rest != [] && ReadValue(Print(value) + rest) == Got(w, rest) && ReadAs(value, w)
    decreases v, 0, 0
  {
    GetDecreases(v, keys[0]);
    GetWellFormed(v, keys[0]);
    w := TextReadsBack(Get(v.fields, keys[0]), FieldsRest(v, keys, x));
  }

  lemma EmptyObjectReads(x: Text)
    ensures ReadValue([OPEN_OBJECT] + ([CLOSE_OBJECT] + x)) == Got(Obj([]), x)
  {
    var t := [OPEN_OBJECT] + ([CLOSE_OBJECT] + x);
    NothingBegins(t);
    assert t[2..] == x;
  }

  lemma BraceReads(text: Text, fields: seq<Field>, x: Text)
    requires text != [] && text[0] != CLOSE_OBJECT && ReadFieldsOf(text) == Fields(fields, x)
    ensures ReadValue([OPEN_OBJECT] + text) == Got(Obj(fields), x)
  {
    NothingBegins([OPEN_OBJECT] + text);
    BracketReads(OPEN_OBJECT, text);
  }

  lemma {:induction false} ArrayReads(v: Json, x: Text) returns (w: Json)
    requires v.Arr? && WellFormed(v) && Delimited(x)
    ensures ReadValue(Print(v) + x) == Got(w, x) && ReadAs(v, w)
    decreases v, 1
  {
    var t := [OPEN_ARRAY] + ItemsThen(v, 0, x);
    ArrayText(v, x);
    NothingBegins(t);
    ItemsHead(v, 0, x);
    BracketReads(OPEN_ARRAY, ItemsThen(v, 0, x));
    if v.items == [] {
      assert t[2..] == x;
      w := Arr([]);
    } else {
      var items := ItemsRead(v, 0, x);
      w := Arr(items);
      ArrayAs(v, items);
    }
  }

  lemma {:induction false} ObjectReads(v: Json, x: Text) returns (w: Json)
    requires v.Obj? && WellFormed(v) && Delimited(x)
    ensures ReadValue(Print(v) + x) == Got(w, x) && ReadAs(v, w)
    decreases v, 1
  {
    var keys := SortedKeys(v.fields);
    ObjectText(v, x);
    var fields := [];
    if keys == [] {
      EmptyObjectReads(x);
    } else {
      FieldsStart(v, keys, x);
      fields := FieldsRead(v, keys, x);
      BraceReads(FieldsThen(v, keys, x), fields, x);
    }
    w := Obj(fields);
    ObjectAs(v, fields);
  }

  /** Main result: what the reader makes of a canonical text, at the end or before a delimiter, is the
      value printed, and the reader stops where the text ends. */
  lemma {:induction false} TextReadsBack(v: Json, x: Text) returns (w: Json)
    requires WellFormed(v) && Delimited(x)
    ensures ReadValue(Print(v) + x) == Got(w, x) && ReadAs(v, w)
    decreases v, 2
  {
    if v.Arr? {
      w := ArrayReads(v, x);
    } else if v.Obj? {
      w := ObjectReads(v, x);
    } else {
      ScalarReads(v, x);
      w := ReadValue(Print(v) + x).value;
    }
  }
}
