/** JavaScript strings as sequences of UTF-16 code units, lone surrogates included. */
module Utf16 {
  type CodeUnit = c: int | 0 <= c < 0x10000
  type Text = seq<CodeUnit>

  predicate IsHigh(c: CodeUnit) {
    0xD800 <= c <= 0xDBFF
  }

  predicate IsLow(c: CodeUnit) {
    0xDC00 <= c <= 0xDFFF
  }

  /** Do the first two units form a surrogate pair? */
  predicate StartsWithPair(s: Text) {
    |s| >= 2 && IsHigh(s[0]) && IsLow(s[1])
  }
}
