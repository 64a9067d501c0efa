/** Canonical JSON (src/canonical-json.ts): equal texts exactly for equal values. */
module CanonicalJson {
  import opened Utf16
  import Ordering

  const QUOTE: CodeUnit := 0x22
  const BACKSLASH: CodeUnit := 0x5C
  const COMMA: CodeUnit := 0x2C
  const COLON: CodeUnit := 0x3A
  const OPEN_ARRAY: CodeUnit := 0x5B
  const CLOSE_ARRAY: CodeUnit := 0x5D
  const OPEN_OBJECT: CodeUnit := 0x7B
  const CLOSE_OBJECT: CodeUnit := 0x7D

  const NULL_TEXT: Text := [0x6E, 0x75, 0x6C, 0x6C]
  const TRUE_TEXT: Text := [0x74, 0x72, 0x75, 0x65]
  const FALSE_TEXT: Text := [0x66, 0x61, 0x6C, 0x73, 0x65]

  /** Digits, signs, the decimal point and the exponent mark. */
  predicate NumberUnit(c: CodeUnit) {
    0x30 <= c <= 0x39 || c == 0x2D || c == 0x2B || c == 0x2E || c == 0x65
  }

  /** A finite number is known by its shortest decimal text, which determines it. */
  predicate IsNumberText(s: Text) {
    s != [] && (0x30 <= s[0] <= 0x39 || s[0] == 0x2D) && forall k | 0 <= k < |s| :: NumberUnit(s[k])
  }

  type NumberText = s: Text | IsNumberText(s) witness [0x30]

  datatype Json =
    | Undefined
    | Null
    | NonFinite
    | Bool(b: bool)
    | Num(text: NumberText)
    | Str(s: Text)
    | Arr(items: seq<Json>)
    | Obj(fields: seq<Field>)

  datatype Field = Field(key: Text, value: Json)

  // ---------------------------------------------------------------- objects

  function Keys(fields: seq<Field>): (keys: seq<Text>)
    ensures |keys| == |fields| && forall k | 0 <= k < |fields| :: keys[k] == fields[k].key
  {
    seq(|fields|, k requires 0 <= k < |fields| => fields[k].key)
  }

  function Get(fields: seq<Field>, key: Text): (v: Json)
    requires key in Keys(fields)
    ensures exists k :: 0 <= k < |fields| && fields[k].key == key && fields[k].value == v
  {
    if fields[0].key == key then fields[0].value
    else
      assert Keys(fields[1..]) == Keys(fields)[1..];
      var v := Get(fields[1..], key);
      var k :| 0 <= k < |fields[1..]| && fields[1..][k].key == key && fields[1..][k].value == v;
      assert fields[k + 1].key == key;
      v
  }

  /** The child found under a key is smaller than its object. */
  lemma GetDecreases(v: Json, key: Text)
    requires v.Obj? && key in Keys(v.fields)
    ensures Get(v.fields, key) < v
  {
    var k :| 0 <= k < |v.fields| && v.fields[k].key == key && v.fields[k].value == Get(v.fields, key);
    assert v.fields[k] < v;
  }

  /** No object repeats a key. */
  ghost predicate WellFormed(v: Json) {
    match v
    case Arr(items) => forall k | 0 <= k < |items| :: WellFormed(items[k])
    case Obj(fields) =>
      (forall i, j | 0 <= i < j < |fields| :: fields[i].key != fields[j].key)
      && forall k | 0 <= k < |fields| :: WellFormed(fields[k].value)
    case _ => true
  }

  predicate Nullish(v: Json) {
    v.Undefined? || v.Null? || v.NonFinite?
  }

  /** Equality up to the order of object keys, with everything JSON prints as null identified. */
  ghost predicate Same(a: Json, b: Json)
    decreases a
  {
    if Nullish(a) || Nullish(b) then Nullish(a) && Nullish(b)
    else
      match (a, b)
      case (Arr(x), Arr(y)) => |x| == |y| && forall k | 0 <= k < |x| :: Same(x[k], y[k])
      case (Obj(x), Obj(y)) =>
        (forall key :: key in Keys(x) <==> key in Keys(y))
        && forall key | key in Keys(x) && key in Keys(y) :: (GetDecreases(a, key); Same(Get(x, key), Get(y, key)))
      case (Arr(_), _) => false
      case (Obj(_), _) => false
      case _ => a == b
  }

  // ---------------------------------------------------------------- printing

  function Hex(n: int): CodeUnit
    requires 0 <= n < 16
  {
    if n < 10 then 0x30 + n else 0x61 + n - 10
  }

  function UnicodeEscape(c: CodeUnit): Text {
    [BACKSLASH, 0x75, Hex(c / 16 / 16 / 16), Hex(c / 16 / 16 % 16), Hex(c / 16 % 16), Hex(c % 16)]
  }

  /** The escape of one unit outside a surrogate pair. */
  function Escape(c: CodeUnit): Text {
    if c == QUOTE then [BACKSLASH, QUOTE]
    else if c == BACKSLASH then [BACKSLASH, BACKSLASH]
    else if c == 0x08 then [BACKSLASH, 0x62]
    else if c == 0x0C then [BACKSLASH, 0x66]
    else if c == 0x0A then [BACKSLASH, 0x6E]
    else if c == 0x0D then [BACKSLASH, 0x72]
    else if c == 0x09 then [BACKSLASH, 0x74]
    else if c < 0x20 || IsHigh(c) || IsLow(c) then UnicodeEscape(c)
    else [c]
  }

  /** The inside of a string literal, closed by its quote: pairs stay, lone surrogates escape. */
  function Quoted(s: Text): Text {
    if s == [] then [QUOTE]
    else if StartsWithPair(s) then s[..2] + Quoted(s[2..])
    else Escape(s[0]) + Quoted(s[1..])
  }

  function PrintString(s: Text): Text {
    [QUOTE] + Quoted(s)
  }

  function Print(v: Json): Text
    decreases v, 1, 0
  {
    match v
    case Undefined => NULL_TEXT
    case Null => NULL_TEXT
    case NonFinite => NULL_TEXT
    case Bool(b) => if b then TRUE_TEXT else FALSE_TEXT
    case Num(text) => text
    case Str(s) => PrintString(s)
    case Arr(items) => [OPEN_ARRAY] + (PrintItems(v, 0) + [CLOSE_ARRAY])
    case Obj(fields) => [OPEN_OBJECT] + (PrintFields(v, SortedKeys(fields)) + [CLOSE_OBJECT])
  }

  /** The items from an index on, joined by commas. */
  function PrintItems(v: Json, from: nat): Text
    requires v.Arr? && from <= |v.items|
    decreases v, 0, |v.items| - from
  {
    if from == |v.items| then []
    else if from == |v.items| - 1 then Print(v.items[from])
    else Print(v.items[from]) + ([COMMA] + PrintItems(v, from + 1))
  }

  function SortedKeys(fields: seq<Field>): seq<Text> {
    Ordering.SortBy(Keys(fields), (s: Text) => s)
  }

  function PrintFields(v: Json, keys: seq<Text>): Text
    requires v.Obj? && forall k | 0 <= k < |keys| :: keys[k] in Keys(v.fields)
    decreases v, 0, |keys|
  {
    if keys == [] then []
    else
      GetDecreases(v, keys[0]);
      var field := PrintString(keys[0]) + ([COLON] + Print(Get(v.fields, keys[0])));
      if |keys| == 1 then field else field + ([COMMA] + PrintFields(v, keys[1..]))
  }

  // ---------------------------------------------------------------- key order does not matter

  lemma KeysSorted(fields: seq<Field>)
    requires forall i, j | 0 <= i < j < |fields| :: fields[i].key != fields[j].key
    ensures Ordering.IncreasingBy(SortedKeys(fields), (s: Text) => s)
  {
    Ordering.SortIncreasing(Keys(fields), (s: Text) => s);
  }

  lemma SameKeysSameOrder(x: seq<Field>, y: seq<Field>)
    requires forall i, j | 0 <= i < j < |x| :: x[i].key != x[j].key
    requires forall i, j | 0 <= i < j < |y| :: y[i].key != y[j].key
    requires forall key :: key in Keys(x) <==> key in Keys(y)
    ensures SortedKeys(x) == SortedKeys(y)
  {
    KeysSorted(x);
    KeysSorted(y);
    Ordering.IncreasingIsUnique(SortedKeys(x), SortedKeys(y), (s: Text) => s);
  }

  lemma GetWellFormed(v: Json, key: Text)
    requires v.Obj? && WellFormed(v) && key in Keys(v.fields)
    ensures WellFormed(Get(v.fields, key))
  {
  }

  /** Equal values, whatever the order of their object keys, have equal texts. */
  lemma {:induction false} SameValuesPrintAlike(a: Json, b: Json)
    requires WellFormed(a) && WellFormed(b) && Same(a, b)
    ensures Print(a) == Print(b)
    decreases a, 1, 0
  {
    match (a, b)
    case (Arr(_), Arr(_)) => SameItemsPrintAlike(a, b, 0);
    case (Obj(x), Obj(y)) =>
      SameKeysSameOrder(x, y);
      SameFieldsPrintAlike(a, b, SortedKeys(x));
    case _ =>
  }

  lemma {:induction false} SameItemsPrintAlike(a: Json, b: Json, from: nat)
    requires a.Arr? && b.Arr? && WellFormed(a) && WellFormed(b) && Same(a, b) && from <= |a.items|
    ensures PrintItems(a, from) == PrintItems(b, from)
    decreases a, 0, |a.items| - from
  {
    if from < |a.items| {
      SameValuesPrintAlike(a.items[from], b.items[from]);
      SameItemsPrintAlike(a, b, from + 1);
    }
  }

  lemma {:induction false} SameFieldsPrintAlike(a: Json, b: Json, keys: seq<Text>)
    requires a.Obj? && b.Obj? && WellFormed(a) && WellFormed(b) && Same(a, b)
    requires forall k | 0 <= k < |keys| :: keys[k] in Keys(a.fields)
    ensures forall k | 0 <= k < |keys| :: keys[k] in Keys(b.fields)
    ensures PrintFields(a, keys) == PrintFields(b, keys)
    decreases a, 0, |keys|
  {
    if keys != [] {
      GetDecreases(a, keys[0]);
      GetWellFormed(a, keys[0]);
      GetWellFormed(b, keys[0]);
      SameValuesPrintAlike(Get(a.fields, keys[0]), Get(b.fields, keys[0]));
      SameFieldsPrintAlike(a, b, keys[1..]);
    }
  }

  // ---------------------------------------------------------------- texts are self-delimiting

  /** What may follow a value inside a text. */
  predicate Delimited(x: Text) {
    x == [] || x[0] == COMMA || x[0] == CLOSE_ARRAY || x[0] == CLOSE_OBJECT
  }

  lemma CancelPrefix(p: Text, x: Text, y: Text)
    requires p + x == p + y
    ensures x == y
  {
    assert x == (p + x)[|p|..] == (p + y)[|p|..] == y;
  }

  lemma HexDistinct(c: CodeUnit, d: CodeUnit)
    requires UnicodeEscape(c) == UnicodeEscape(d)
    ensures c == d
  {
    var u, v := UnicodeEscape(c), UnicodeEscape(d);
    assert u[2] == v[2] && u[3] == v[3] && u[4] == v[4] && u[5] == v[5];
    HexInjective(c % 16, d % 16);
    HexInjective(c / 16 % 16, d / 16 % 16);
    HexInjective(c / 16 / 16 % 16, d / 16 / 16 % 16);
    HexInjective(c / 16 / 16 / 16, d / 16 / 16 / 16);
    Digits(c / 16 / 16, d / 16 / 16);
    Digits(c / 16, d / 16);
    Digits(c, d);
  }

  lemma Digits(m: nat, n: nat)
    requires m / 16 == n / 16 && m % 16 == n % 16
    ensures m == n
  {
  }

  lemma HexInjective(m: int, n: int)
    requires 0 <= m < 16 && 0 <= n < 16 && Hex(m) == Hex(n)
    ensures m == n
  {
  }

  /** An escape is known from its text and what follows it cannot be mistaken for part of it. */
  lemma EscapeUnique(c: CodeUnit, d: CodeUnit, x: Text, y: Text)
    requires Escape(c) + x == Escape(d) + y
    ensures c == d && x == y
  {
    var u, v := Escape(c) + x, Escape(d) + y;
    assert u[0] == v[0];
    if u[0] == BACKSLASH {
      assert u[1] == v[1];
      if u[1] == 0x75 {
        assert Escape(c) == u[..6] == v[..6] == Escape(d);
        HexDistinct(c, d);
      }
    }
    CancelPrefix(Escape(c), x, y);
  }

  lemma {:induction false} QuotedUnique(s: Text, t: Text, x: Text, y: Text)
    requires Quoted(s) + x == Quoted(t) + y
    ensures s == t && x == y
    decreases |s|
  {
    QuotedHead(s, x);
    QuotedHead(t, y);
    if s == [] {
      CancelPrefix([QUOTE], x, y);
    } else if StartsWithPair(s) {
      PairsMatch(s, t, x, y);
      QuotedUnique(s[2..], t[2..], x, y);
      assert s == s[..2] + s[2..] && t == t[..2] + t[2..];
    } else {
      Assoc(Escape(s[0]), Quoted(s[1..]), x);
      Assoc(Escape(t[0]), Quoted(t[1..]), y);
      EscapeUnique(s[0], t[0], Quoted(s[1..]) + x, Quoted(t[1..]) + y);
      QuotedUnique(s[1..], t[1..], x, y);
      assert s == [s[0]] + s[1..] && t == [t[0]] + t[1..];
    }
  }

  lemma Assoc(a: Text, b: Text, c: Text)
    ensures (a + b) + c == a + (b + c)
  {
  }

  lemma PairsMatch(s: Text, t: Text, x: Text, y: Text)
    requires StartsWithPair(s) && StartsWithPair(t) && Quoted(s) + x == Quoted(t) + y
    ensures s[..2] == t[..2] && Quoted(s[2..]) + x == Quoted(t[2..]) + y
  {
    Assoc(s[..2], Quoted(s[2..]), x);
    Assoc(t[..2], Quoted(t[2..]), y);
    assert s[..2] == (Quoted(s) + x)[..2] && t[..2] == (Quoted(t) + y)[..2];
    CancelPrefix(s[..2], Quoted(s[2..]) + x, Quoted(t[2..]) + y);
  }

  /** The first unit tells the three cases of a literal's inside apart. */
  lemma QuotedHead(s: Text, x: Text)
    ensures Quoted(s) != []
    ensures var u := (Quoted(s) + x)[0];
      && (u == QUOTE <==> s == [])
      && (IsHigh(u) <==> StartsWithPair(s))
      && (StartsWithPair(s) ==> |Quoted(s)| >= 2 && Quoted(s)[..2] == s[..2])
  {
  }

  lemma {:induction false} NumberUnique(m: Text, n: Text, x: Text, y: Text)
    requires m + x == n + y && Delimited(x) && Delimited(y)
    requires (forall k | 0 <= k < |m| :: NumberUnit(m[k])) && forall k | 0 <= k < |n| :: NumberUnit(n[k])
    ensures m == n && x == y
  {
    NumberStops(m, x);
    NumberStops(n, y);
    assert |m| == |n|;
    assert m == (m + x)[..|m|] && n == (n + y)[..|n|];
    CancelPrefix(m, x, y);
  }

  lemma NumberStops(m: Text, x: Text)
    requires Delimited(x) && forall k | 0 <= k < |m| :: NumberUnit(m[k])
    ensures forall k | 0 <= k < |m| :: NumberUnit((m + x)[k])
    ensures |m| < |m + x| ==> !NumberUnit((m + x)[|m|])
  {
  }

  /** The first unit of a value's text names its kind. */
  lemma FirstUnit(v: Json)
    ensures Print(v) != []
    ensures var u := Print(v)[0];
      && (u == 0x6E <==> Nullish(v))
      && (u == 0x74 <==> v == Bool(true)) && (u == 0x66 <==> v == Bool(false))
      && (u == QUOTE <==> v.Str?) && (u == OPEN_ARRAY <==> v.Arr?) && (u == OPEN_OBJECT <==> v.Obj?)
      && u != COMMA && u != CLOSE_ARRAY && u != CLOSE_OBJECT
  {
  }

  /** The text of the items from an index on, with the closing bracket and what follows. */
  function ItemsThen(v: Json, from: nat, x: Text): Text
    requires v.Arr? && from <= |v.items|
    decreases |v.items| - from, 1
  {
    if from == |v.items| then [CLOSE_ARRAY] + x else Print(v.items[from]) + ItemsRest(v, from, x)
  }

  /** What follows the item at an index. */
  function ItemsRest(v: Json, from: nat, x: Text): Text
    requires v.Arr? && from < |v.items|
    decreases |v.items| - from, 0
  {
    if from + 1 == |v.items| then [CLOSE_ARRAY] + x else [COMMA] + ItemsThen(v, from + 1, x)
  }

  lemma {:induction false} PrintItemsThen(v: Json, from: nat, x: Text)
    requires v.Arr? && from <= |v.items|
    ensures PrintItems(v, from) + ([CLOSE_ARRAY] + x) == ItemsThen(v, from, x)
    decreases |v.items| - from
  {
    if from + 1 < |v.items| {
      PrintItemsThen(v, from + 1, x);
      Assoc(Print(v.items[from]), [COMMA] + PrintItems(v, from + 1), [CLOSE_ARRAY] + x);
      Assoc([COMMA], PrintItems(v, from + 1), [CLOSE_ARRAY] + x);
    }
  }

  /** One field: the quoted key, its value and what follows. */
  function FieldThen(quoted: Text, value: Text, rest: Text): Text {
    [QUOTE] + (quoted + ([COLON] + (value + rest)))
  }

  /** The text of the fields of some keys, with the closing brace and what follows. */
  function FieldsThen(v: Json, keys: seq<Text>, x: Text): Text
    requires v.Obj? && forall k | 0 <= k < |keys| :: keys[k] in Keys(v.fields)
    decreases |keys|, 1
  {
    if keys == [] then [CLOSE_OBJECT] + x
    else FieldThen(Quoted(keys[0]), Print(Get(v.fields, keys[0])), FieldsRest(v, keys, x))
  }

  /** What follows the first of some fields. */
  function FieldsRest(v: Json, keys: seq<Text>, x: Text): Text
    requires v.Obj? && keys != [] && forall k | 0 <= k < |keys| :: keys[k] in Keys(v.fields)
    decreases |keys|, 0
  {
    if |keys| == 1 then [CLOSE_OBJECT] + x else [COMMA] + FieldsThen(v, keys[1..], x)
  }

  lemma FieldAssoc(quoted: Text, value: Text, rest: Text)
    ensures (([QUOTE] + quoted) + ([COLON] + value)) + rest == FieldThen(quoted, value, rest)
  {
    Assoc([QUOTE] + quoted, [COLON] + value, rest);
    Assoc([QUOTE], quoted, ([COLON] + value) + rest);
    Assoc([COLON], value, rest);
  }

  lemma {:induction false} PrintFieldsThen(v: Json, keys: seq<Text>, x: Text)
    requires v.Obj? && forall k | 0 <= k < |keys| :: keys[k] in Keys(v.fields)
    ensures PrintFields(v, keys) + ([CLOSE_OBJECT] + x) == FieldsThen(v, keys, x)
    decreases |keys|
  {
    if keys != [] {
      var quoted, value := Quoted(keys[0]), Print(Get(v.fields, keys[0]));
      FieldAssoc(quoted, value, FieldsRest(v, keys, x));
      if |keys| > 1 {
        PrintFieldsThen(v, keys[1..], x);
        Assoc(PrintString(keys[0]) + ([COLON] + value), [COMMA] + PrintFields(v, keys[1..]), [CLOSE_OBJECT] + x);
        Assoc([COMMA], PrintFields(v, keys[1..]), [CLOSE_OBJECT] + x);
      }
    }
  }

  /** Main lemma: a value's text, followed by a delimiter, determines the value (up to key order)
      and where the text ends. */
  lemma {:induction false} TextDeterminesValue(a: Json, b: Json, x: Text, y: Text)
    requires WellFormed(a) && WellFormed(b) && Delimited(x) && Delimited(y)
    requires Print(a) + x == Print(b) + y
    ensures Same(a, b) && x == y
    decreases a, 1, 0
  {
    SameKind(a, b, x, y);
    if a.Arr? {
      ArraysDetermined(a, b, x, y);
    } else if a.Obj? {
      ObjectsDetermined(a, b, x, y);
    } else {
      ScalarsDetermined(a, b, x, y);
    }
  }

  lemma SameKind(a: Json, b: Json, x: Text, y: Text)
    requires Print(a) + x == Print(b) + y
    ensures Nullish(a) == Nullish(b) && a.Bool? == b.Bool? && a.Num? == b.Num? && a.Str? == b.Str?
    ensures a.Arr? == b.Arr? && a.Obj? == b.Obj? && (a.Bool? ==> a == b)
  {
    FirstUnit(a);
    FirstUnit(b);
    assert (Print(a) + x)[0] == Print(a)[0] && (Print(b) + y)[0] == Print(b)[0];
  }

  lemma ScalarsDetermined(a: Json, b: Json, x: Text, y: Text)
    requires !a.Arr? && !a.Obj? && Delimited(x) && Delimited(y) && Print(a) + x == Print(b) + y
    ensures Same(a, b) && x == y
  {
    SameKind(a, b, x, y);
    if a.Num? {
      NumberUnique(a.text, b.text, x, y);
    } else if a.Str? {
      Assoc([QUOTE], Quoted(a.s), x);
      Assoc([QUOTE], Quoted(b.s), y);
      CancelPrefix([QUOTE], Quoted(a.s) + x, Quoted(b.s) + y);
      QuotedUnique(a.s, b.s, x, y);
    } else {
      CancelPrefix(Print(a), x, y);
    }
  }

  lemma {:induction false} ArraysDetermined(a: Json, b: Json, x: Text, y: Text)
    requires a.Arr? && b.Arr? && WellFormed(a) && WellFormed(b) && Delimited(x) && Delimited(y)
    requires Print(a) + x == Print(b) + y
    ensures Same(a, b) && x == y
    decreases a, 0, |a.items| + 1
  {
    ArrayText(a, x);
    ArrayText(b, y);
    CancelPrefix([OPEN_ARRAY], ItemsThen(a, 0, x), ItemsThen(b, 0, y));
    ItemsDetermined(a, b, 0, x, y);
  }

  lemma ArrayText(v: Json, x: Text)
    requires v.Arr?
    ensures Print(v) + x == [OPEN_ARRAY] + ItemsThen(v, 0, x)
  {
    PrintItemsThen(v, 0, x);
    Assoc([OPEN_ARRAY], PrintItems(v, 0) + [CLOSE_ARRAY], x);
    Assoc(PrintItems(v, 0), [CLOSE_ARRAY], x);
  }

  lemma {:induction false} ItemsDetermined(a: Json, b: Json, from: nat, x: Text, y: Text)
    requires a.Arr? && b.Arr? && WellFormed(a) && WellFormed(b) && Delimited(x) && Delimited(y)
    requires from <= |a.items| && from <= |b.items| && ItemsThen(a, from, x) == ItemsThen(b, from, y)
    ensures |a.items| == |b.items| && x == y
    ensures forall k | from <= k < |a.items| :: Same(a.items[k], b.items[k])
    decreases a, 0, |a.items| - from, 1
  {
    ItemsHead(a, from, x);
    ItemsHead(b, from, y);
    if from == |a.items| {
      CancelPrefix([CLOSE_ARRAY], x, y);
    } else {
      TextDeterminesValue(a.items[from], b.items[from], ItemsRest(a, from, x), ItemsRest(b, from, y));
      ItemsTail(a, b, from, x, y);
    }
  }

  /** The step of ItemsDetermined after an item. */
  lemma {:induction false} ItemsTail(a: Json, b: Json, from: nat, x: Text, y: Text)
    requires a.Arr? && b.Arr? && WellFormed(a) && WellFormed(b) && Delimited(x) && Delimited(y)
    requires from < |a.items| && from < |b.items| && ItemsRest(a, from, x) == ItemsRest(b, from, y)
    ensures |a.items| == |b.items| && x == y
    ensures forall k | from < k < |a.items| :: Same(a.items[k], b.items[k])
    decreases a, 0, |a.items| - from, 0
  {
    assert ItemsRest(a, from, x)[0] == ItemsRest(b, from, y)[0];
    if from + 1 == |a.items| {
      CancelPrefix([CLOSE_ARRAY], x, y);
    } else {
      CancelPrefix([COMMA], ItemsThen(a, from + 1, x), ItemsThen(b, from + 1, y));
      ItemsDetermined(a, b, from + 1, x, y);
    }
  }

  lemma ItemsHead(v: Json, from: nat, x: Text)
    requires v.Arr? && from <= |v.items|
    ensures ItemsThen(v, from, x) != [] && (ItemsThen(v, from, x)[0] == CLOSE_ARRAY <==> from == |v.items|)
  {
    if from < |v.items| {
      FirstUnit(v.items[from]);
    }
  }

  lemma {:induction false} ObjectsDetermined(a: Json, b: Json, x: Text, y: Text)
    requires a.Obj? && b.Obj? && WellFormed(a) && WellFormed(b) && Delimited(x) && Delimited(y)
    requires Print(a) + x == Print(b) + y
    ensures Same(a, b) && x == y
    decreases a, 0, |a.fields| + 1
  {
    var ka, kb := SortedKeys(a.fields), SortedKeys(b.fields);
    ObjectText(a, x);
    ObjectText(b, y);
    CancelPrefix([OPEN_OBJECT], FieldsThen(a, ka, x), FieldsThen(b, kb, y));
    FieldsDetermined(a, b, ka, kb, x, y);
    assert forall key :: key in Keys(a.fields) <==> key in ka;
    assert forall key :: key in Keys(b.fields) <==> key in kb;
  }

  lemma ObjectText(v: Json, x: Text)
    requires v.Obj?
    ensures Print(v) + x == [OPEN_OBJECT] + FieldsThen(v, SortedKeys(v.fields), x)
  {
    var keys := SortedKeys(v.fields);
    PrintFieldsThen(v, keys, x);
    Assoc([OPEN_OBJECT], PrintFields(v, keys) + [CLOSE_OBJECT], x);
    Assoc(PrintFields(v, keys), [CLOSE_OBJECT], x);
  }

  lemma {:induction false} FieldsDetermined(a: Json, b: Json, ka: seq<Text>, kb: seq<Text>, x: Text, y: Text)
    requires a.Obj? && b.Obj? && WellFormed(a) && WellFormed(b) && Delimited(x) && Delimited(y)
    requires forall k | 0 <= k < |ka| :: ka[k] in Keys(a.fields)
    requires forall k | 0 <= k < |kb| :: kb[k] in Keys(b.fields)
    requires FieldsThen(a, ka, x) == FieldsThen(b, kb, y)
    ensures ka == kb && x == y
    ensures forall k | 0 <= k < |ka| :: Same(Get(a.fields, ka[k]), Get(b.fields, ka[k]))
    decreases a, 0, |ka|, 2
  {
    FieldsStart(a, ka, x);
    FieldsStart(b, kb, y);
    if ka == [] {
      CancelPrefix([CLOSE_OBJECT], x, y);
    } else {
      FirstFieldDetermined(a, b, ka, kb, x, y);
      FieldsTail(a, b, ka, kb, x, y);
      assert ka == [ka[0]] + ka[1..] && kb == [kb[0]] + kb[1..];
    }
  }

  lemma {:induction false} FirstFieldDetermined(a: Json, b: Json, ka: seq<Text>, kb: seq<Text>, x: Text, y: Text)
    requires a.Obj? && b.Obj? && WellFormed(a) && WellFormed(b) && Delimited(x) && Delimited(y)
    requires forall k | 0 <= k < |ka| :: ka[k] in Keys(a.fields)
    requires forall k | 0 <= k < |kb| :: kb[k] in Keys(b.fields)
    requires ka != [] && kb != [] && FieldsThen(a, ka, x) == FieldsThen(b, kb, y)
    ensures ka[0] == kb[0] && Same(Get(a.fields, ka[0]), Get(b.fields, ka[0])) && FieldsRest(a, ka, x) == FieldsRest(b, kb, y)
    decreases a, 0, |ka|, 1
  {
    var va, vb := Get(a.fields, ka[0]), Get(b.fields, kb[0]);
    FieldSplits(ka[0], kb[0], Print(va), Print(vb), FieldsRest(a, ka, x), FieldsRest(b, kb, y));
    GetDecreases(a, ka[0]);
    GetWellFormed(a, ka[0]);
    GetWellFormed(b, kb[0]);
    TextDeterminesValue(va, vb, FieldsRest(a, ka, x), FieldsRest(b, kb, y));
  }

  lemma FieldsStart(v: Json, keys: seq<Text>, x: Text)
    requires v.Obj? && forall k | 0 <= k < |keys| :: keys[k] in Keys(v.fields)
    ensures FieldsThen(v, keys, x) != [] && (FieldsThen(v, keys, x)[0] == CLOSE_OBJECT <==> keys == [])
  {
  }

  /** The key of a field and the text from its value on are determined by the field's text. */
  lemma FieldSplits(k: Text, l: Text, u: Text, v: Text, p: Text, q: Text)
    requires FieldThen(Quoted(k), u, p) == FieldThen(Quoted(l), v, q)
    ensures k == l && u + p == v + q
  {
    CancelPrefix([QUOTE], Quoted(k) + ([COLON] + (u + p)), Quoted(l) + ([COLON] + (v + q)));
    QuotedUnique(k, l, [COLON] + (u + p), [COLON] + (v + q));
    CancelPrefix([COLON], u + p, v + q);
  }

  /** The step of FieldsDetermined after its first field. */
  lemma {:induction false} FieldsTail(a: Json, b: Json, ka: seq<Text>, kb: seq<Text>, x: Text, y: Text)
    requires a.Obj? && b.Obj? && WellFormed(a) && WellFormed(b) && Delimited(x) && Delimited(y)
    requires forall k | 0 <= k < |ka| :: ka[k] in Keys(a.fields)
    requires forall k | 0 <= k < |kb| :: kb[k] in Keys(b.fields)
    requires ka != [] && kb != [] && FieldsRest(a, ka, x) == FieldsRest(b, kb, y)
    ensures ka[1..] == kb[1..] && x == y
    ensures forall k | 1 <= k < |ka| :: Same(Get(a.fields, ka[k]), Get(b.fields, ka[k]))
    decreases a, 0, |ka|, 0
  {
    assert FieldsRest(a, ka, x)[0] == FieldsRest(b, kb, y)[0];
    if |ka| == 1 {
      CancelPrefix([CLOSE_OBJECT], x, y);
    } else {
      CancelPrefix([COMMA], FieldsThen(a, ka[1..], x), FieldsThen(b, kb[1..], y));
      FieldsDetermined(a, b, ka[1..], kb[1..], x, y);
      forall k | 1 <= k < |ka| ensures Same(Get(a.fields, ka[k]), Get(b.fields, ka[k])) {
        assert ka[1..][k - 1] == ka[k];
      }
    }
  }

  /** Canonical texts are equal exactly when the values are equal up to object key order. */
  lemma EqualTextsIffSameValues(a: Json, b: Json)
    requires WellFormed(a) && WellFormed(b)
    ensures Print(a) == Print(b) <==> Same(a, b)
  {
    if Same(a, b) {
      SameValuesPrintAlike(a, b);
    }
    if Print(a) == Print(b) {
      assert Print(a) + [] == Print(b) + [];
      TextDeterminesValue(a, b, [], []);
    }
  }
}
