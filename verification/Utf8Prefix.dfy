/** Byte lengths and byte-bounded prefixes of JavaScript strings (src/jsonl.ts). */
module Utf8Prefix {
  import opened Utf16

  /** The bytes UTF-8 spends on one code unit (section 3 of RFC 3629); a lone surrogate becomes U+FFFD. */
  function UnitBytes(c: CodeUnit): (n: nat)
    ensures 1 <= n <= 3
  {
    if c < 0x80 then 1 else if c < 0x800 then 2 else 3
  }

  /** `Buffer.byteLength(s)`. */
  function ByteLen(s: Text): nat {
    if s == [] then 0
    else if StartsWithPair(s) then 4 + ByteLen(s[2..])
    else UnitBytes(s[0]) + ByteLen(s[1..])
  }

  /** Does putting b after a leave every surrogate pair inside one of them? */
  predicate CleanJoin(a: Text, b: Text) {
    a == [] || b == [] || !IsHigh(a[|a| - 1]) || !IsLow(b[0])
  }

  /** Joining costs nothing, except that a low surrogate completing a pair makes the two one character. */
  lemma {:induction false} ByteLenOfJoin(a: Text, b: Text)
    ensures ByteLen(a + b) <= ByteLen(a) + ByteLen(b)
    ensures CleanJoin(a, b) ==> ByteLen(a + b) == ByteLen(a) + ByteLen(b)
    decreases |a|
  {
    if a == [] {
      assert a + b == b;
    } else if StartsWithPair(a) {
      assert (a + b)[2..] == a[2..] + b;
      ByteLenOfJoin(a[2..], b);
    } else if |a| == 1 && StartsWithPair(a + b) {
      assert (a + b)[2..] == b[1..];
      assert !StartsWithPair(b);
    } else {
      assert (a + b)[1..] == a[1..] + b;
      ByteLenOfJoin(a[1..], b);
    }
  }

  lemma {:induction false} UnitAdds(s: Text, c: CodeUnit)
    ensures ByteLen(s + [c]) >= ByteLen(s) + 1
    decreases |s|
  {
    if s == [] {
    } else if StartsWithPair(s) {
      assert (s + [c])[2..] == s[2..] + [c];
      UnitAdds(s[2..], c);
    } else if |s| == 1 && StartsWithPair(s + [c]) {
      assert (s + [c])[2..] == [];
    } else {
      assert (s + [c])[1..] == s[1..] + [c];
      UnitAdds(s[1..], c);
    }
  }

  /** Prefixes grow strictly in bytes. */
  lemma {:induction false} LongerIsLarger(s: Text, m: nat, n: nat)
    requires m < n <= |s|
    ensures ByteLen(s[..m]) < ByteLen(s[..n])
  {
    assert s[..n] == s[..n - 1] + [s[n - 1]];
    UnitAdds(s[..n - 1], s[n - 1]);
    if m < n - 1 {
      LongerIsLarger(s, m, n - 1);
    }
  }

  /** Does a cut after n units leave every surrogate pair whole? */
  predicate CleanCut(s: Text, n: nat)
    requires n <= |s|
  {
    CleanJoin(s[..n], s[n..])
  }

  /** The longest cut that fits the bytes and splits no pair. */
  ghost predicate LongestFit(s: Text, maxBytes: int, n: nat)
    requires n <= |s|
  {
    && (n == 0 || ByteLen(s[..n]) <= maxBytes) && CleanCut(s, n)
    && forall m: nat | n < m <= |s| && CleanCut(s, m) :: ByteLen(s[..m]) > maxBytes
  }

  lemma LongestFitIsUnique(s: Text, maxBytes: int, m: nat, n: nat)
    requires m <= |s| && n <= |s| && LongestFit(s, maxBytes, m) && LongestFit(s, maxBytes, n)
    ensures m == n
  {
  }

  method Utf8Prefix(value: Text, maxBytes: int) returns (r: Text)
    ensures |r| <= |value| && r == value[..|r|] && LongestFit(value, maxBytes, |r|)
    ensures ByteLen(r) <= if maxBytes < 0 then 0 else maxBytes
  {
    if maxBytes <= 0 {
      forall m: nat | 0 < m <= |value| ensures ByteLen(value[..m]) > 0 {
        LongerIsLarger(value, 0, m);
      }
      return [];
    }
    if ByteLen(value) <= maxBytes {
      assert value[..|value|] == value;
      return value;
    }
    var low, high := 0, |value|;
    assert value[..|value|] == value;
    while low < high
      invariant low <= high <= |value|
      invariant ByteLen(value[..low]) <= maxBytes
      invariant forall m: nat | high < m <= |value| :: ByteLen(value[..m]) > maxBytes
    {
      var midpoint := (low + high + 1) / 2;
      if ByteLen(value[..midpoint]) <= maxBytes {
        low := midpoint;
      } else {
        forall m: nat | midpoint < m <= |value| ensures ByteLen(value[..m]) > maxBytes {
          LongerIsLarger(value, midpoint, m);
        }
        high := midpoint - 1;
      }
    }
    if low > 0 && IsHigh(value[low - 1]) && low < |value| && IsLow(value[low]) {
      assert !CleanCut(value, low);
      LongerIsLarger(value, low - 1, low);
      low := low - 1;
    }
    r := value[..low];
  }

  // ---------------------------------------------------------------- the bounded accumulator

  /** The longest fitting prefix, character by character. */
  function Fit(s: Text, maxBytes: int): (r: Text)
    ensures r <= s
  {
    if s == [] then []
    else if StartsWithPair(s) then if maxBytes < 4 then [] else s[..2] + Fit(s[2..], maxBytes - 4)
    else if maxBytes < UnitBytes(s[0]) then [] else s[..1] + Fit(s[1..], maxBytes - UnitBytes(s[0]))
  }

  /** The first character of a non-empty text. */
  function First(s: Text): (k: nat)
    requires s != []
    ensures 1 <= k <= |s|
  {
    if StartsWithPair(s) then 2 else 1
  }

  lemma CutPastFirst(s: Text, n: nat)
    requires s != [] && First(s) <= n <= |s|
    ensures ByteLen(s[..n]) == ByteLen(s[..First(s)]) + ByteLen(s[First(s)..][..n - First(s)])
    ensures CleanCut(s, n) <==> CleanCut(s[First(s)..], n - First(s))
  {
    var k := First(s);
    assert s[..n] == s[..k] + s[k..][..n - k];
    assert s[..n][k..] == s[k..][..n - k];
    assert s[k..][n - k..] == s[n..];
  }

  lemma FirstCosts(s: Text)
    requires s != []
    ensures ByteLen(s[..First(s)]) == if StartsWithPair(s) then 4 else UnitBytes(s[0])
  {
    var c := s[..First(s)];
    assert c[First(s)..] == [] && c[0] == s[0];
    if StartsWithPair(s) {
      assert StartsWithPair(c);
    }
  }

  lemma {:induction false} FitIsLongest(s: Text, maxBytes: int)
    ensures LongestFit(s, maxBytes, |Fit(s, maxBytes)|)
    decreases |s|
  {
    if s != [] {
      var k := First(s);
      var cost := ByteLen(s[..k]);
      FirstCosts(s);
      var n := |Fit(s, maxBytes)|;
      if maxBytes >= cost {
        FitIsLongest(s[k..], maxBytes - cost);
        CutPastFirst(s, n);
      }
      forall m: nat | n < m <= |s| && CleanCut(s, m) ensures ByteLen(s[..m]) > maxBytes {
        CutPastFirst(s, m);
      }
    }
  }
}
