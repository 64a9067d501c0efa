/** The code-unit order of JavaScript strings, and sorting by it. */
module Ordering {
  /** The UTF-16 code units of well-formed text. */
  function Units(s: string): seq<int> {
    if s == [] then [] else UnitsOfChar(s[0]) + Units(s[1..])
  }

  /** One unit, or a surrogate pair that carries ten bits in each half. */
  function UnitsOfChar(c: char): (u: seq<int>)
    ensures 1 <= |u| <= 2 && (|u| == 1 <==> c as int < 0x10000)
    ensures |u| == 1 ==> u[0] == c as int
    ensures |u| == 2 ==>
      0xD800 <= u[0] <= 0xDBFF && 0xDC00 <= u[1] <= 0xDFFF && (u[0] - 0xD800) * 0x400 + (u[1] - 0xDC00) + 0x10000 == c as int
  {
    var v := c as int;
    if v < 0x10000 then [v] else [0xD800 + (v - 0x10000) / 0x400, 0xDC00 + (v - 0x10000) % 0x400]
  }

  predicate LexLess(a: seq<int>, b: seq<int>) {
    b != [] && (a == [] || a[0] < b[0] || (a[0] == b[0] && LexLess(a[1..], b[1..])))
  }

  lemma {:induction false} LexIrreflexive(a: seq<int>)
    ensures !LexLess(a, a)
  {
    if a != [] {
      LexIrreflexive(a[1..]);
    }
  }

  lemma {:induction false} LexTotal(a: seq<int>, b: seq<int>)
    ensures a == b || LexLess(a, b) || LexLess(b, a)
  {
    if a != [] && b != [] && a[0] == b[0] {
      LexTotal(a[1..], b[1..]);
      assert a == [a[0]] + a[1..] && b == [b[0]] + b[1..];
    }
  }

  lemma {:induction false} LexTransitive(a: seq<int>, b: seq<int>, c: seq<int>)
    requires LexLess(a, b) && LexLess(b, c)
    ensures LexLess(a, c)
  {
    if a != [] && a[0] == b[0] == c[0] {
      LexTransitive(a[1..], b[1..], c[1..]);
    }
  }

  /** One comes before the other exactly when it ends where they still agree, or has the smaller unit
      where they first differ. */
  lemma {:induction false} LexLessIff(a: seq<int>, b: seq<int>)
    ensures LexLess(a, b) <==> exists n: nat :: SmallerAt(a, b, n)
  {
    if a != [] && b != [] && a[0] == b[0] {
      LexLessIff(a[1..], b[1..]);
      assert a == [a[0]] + a[1..] && b == [b[0]] + b[1..];
      if LexLess(a, b) {
        var n: nat :| SmallerAt(a[1..], b[1..], n);
        assert a[..n + 1] == [a[0]] + a[1..][..n] && b[..n + 1] == [b[0]] + b[1..][..n];
        assert SmallerAt(a, b, n + 1);
      }
      forall n: nat | SmallerAt(a, b, n) ensures n > 0 && SmallerAt(a[1..], b[1..], n - 1) {
        assert n > 0;
        assert a[1..][..n - 1] == a[..n][1..] && b[1..][..n - 1] == b[..n][1..];
      }
    } else if LexLess(a, b) {
      assert SmallerAt(a, b, 0);
    } else {
      forall n: nat ensures !SmallerAt(a, b, n) {
        assert n > 0 && n <= |a| && n <= |b| ==> a[..n][0] == a[0] && b[..n][0] == b[0];
      }
    }
  }

  ghost predicate SmallerAt(a: seq<int>, b: seq<int>, n: nat) {
    n <= |a| && n < |b| && a[..n] == b[..n] && (n == |a| || a[n] < b[n])
  }

  lemma {:induction false} UnitsInjective(s: string, t: string)
    requires Units(s) == Units(t)
    ensures s == t
  {
    if s != [] && t != [] {
      UnitsHead(s);
      UnitsHead(t);
      var u, v := UnitsOfChar(s[0]), UnitsOfChar(t[0]);
      assert u[0] == Units(s)[0] == v[0];
      assert |u| == |v|;
      assert u == Units(s)[..|u|] == v;
      CharInjective(s[0], t[0]);
      assert Units(s[1..]) == Units(s)[|u|..] == Units(t[1..]);
      UnitsInjective(s[1..], t[1..]);
      assert s == [s[0]] + s[1..] && t == [t[0]] + t[1..];
    } else if s != [] {
      UnitsHead(s);
    } else if t != [] {
      UnitsHead(t);
    }
  }

  lemma UnitsHead(s: string)
    requires s != []
    ensures Units(s)[0] == UnitsOfChar(s[0])[0]
    ensures |UnitsOfChar(s[0])| == (if 0xD800 <= Units(s)[0] <= 0xDBFF then 2 else 1)
  {
  }

  lemma CharInjective(c: char, d: char)
    requires UnitsOfChar(c) == UnitsOfChar(d)
    ensures c == d
  {
    var x, y := c as int - 0x10000, d as int - 0x10000;
    if x >= 0 && y >= 0 {
      assert x == x / 0x400 * 0x400 + x % 0x400;
      assert y == y / 0x400 * 0x400 + y % 0x400;
    }
  }

  /** `a < b` on JavaScript strings. */
  predicate Before(a: string, b: string) {
    LexLess(Units(a), Units(b))
  }

  // ---------------------------------------------------------------- sorting by a key

  ghost predicate IncreasingBy<T(!new)>(s: seq<T>, key: T -> seq<int>) {
    forall i, j | 0 <= i < j < |s| :: LexLess(key(s[i]), key(s[j]))
  }

  function InsertBy<T(!new)>(x: T, s: seq<T>, key: T -> seq<int>): (r: seq<T>)
    ensures |r| == |s| + 1 && forall y :: y in r <==> y == x || y in s
  {
    if s == [] then [x]
    else if LexLess(key(s[0]), key(x)) then [s[0]] + InsertBy(x, s[1..], key)
    else [x] + s
  }

  /** The source's `sort`, by the code-unit order of a key. */
  function SortBy<T(!new)>(s: seq<T>, key: T -> seq<int>): (r: seq<T>)
    ensures |r| == |s| && forall y :: y in r <==> y in s
  {
    if s == [] then [] else InsertBy(s[0], SortBy(s[1..], key), key)
  }

  lemma {:induction false} InsertIncreasing<T(!new)>(x: T, s: seq<T>, key: T -> seq<int>)
    requires IncreasingBy(s, key) && forall y | y in s :: key(y) != key(x)
    ensures IncreasingBy(InsertBy(x, s, key), key)
  {
    if s != [] {
      LexTotal(key(s[0]), key(x));
      if LexLess(key(s[0]), key(x)) {
        InsertIncreasing(x, s[1..], key);
        var r := InsertBy(x, s[1..], key);
        forall k | 0 <= k < |r| ensures LexLess(key(s[0]), key(r[k])) {
          assert r[k] == x || r[k] in s[1..];
        }
      } else {
        forall k | 0 <= k < |s| ensures LexLess(key(x), key(s[k])) {
          if k > 0 {
            LexTransitive(key(x), key(s[0]), key(s[k]));
          }
        }
      }
    }
  }

  lemma {:induction false} SortIncreasing<T(!new)>(s: seq<T>, key: T -> seq<int>)
    requires forall i, j | 0 <= i < j < |s| :: key(s[i]) != key(s[j])
    ensures IncreasingBy(SortBy(s, key), key)
  {
    if s != [] {
      SortIncreasing(s[1..], key);
      forall y | y in SortBy(s[1..], key) ensures key(y) != key(s[0]) {
        var k :| 0 <= k < |s[1..]| && s[1..][k] == y;
        assert s[k + 1] == y;
      }
      InsertIncreasing(s[0], SortBy(s[1..], key), key);
    }
  }

  /** An increasing list is determined by its members: sorting forgets the original order. */
  lemma {:induction false} IncreasingIsUnique<T(!new)>(a: seq<T>, b: seq<T>, key: T -> seq<int>)
    requires IncreasingBy(a, key) && IncreasingBy(b, key) && forall y :: y in a <==> y in b
    ensures a == b
  {
    assert a == [] || a[0] in a;
    assert b == [] || b[0] in b;
    if a != [] {
      HeadsAgree(a, b, key);
      forall y ensures y in a[1..] <==> y in b[1..] {
        HeadNotInTail(a, key);
        HeadNotInTail(b, key);
        assert y in a <==> y == a[0] || y in a[1..];
        assert y in b <==> y == b[0] || y in b[1..];
      }
      IncreasingIsUnique(a[1..], b[1..], key);
      assert a == [a[0]] + a[1..] && b == [b[0]] + b[1..];
    }
  }

  lemma HeadNotInTail<T(!new)>(a: seq<T>, key: T -> seq<int>)
    requires a != [] && IncreasingBy(a, key)
    ensures a[0] !in a[1..]
  {
    LexIrreflexive(key(a[0]));
  }

  lemma HeadsAgree<T(!new)>(a: seq<T>, b: seq<T>, key: T -> seq<int>)
    requires a != [] && b != [] && IncreasingBy(a, key) && IncreasingBy(b, key) && forall y :: y in a <==> y in b
    ensures a[0] == b[0]
  {
    assert a[0] in b && b[0] in a;
    var i :| 0 <= i < |b| && b[i] == a[0];
    var j :| 0 <= j < |a| && a[j] == b[0];
    if i > 0 && j > 0 {
      LexTransitive(key(a[0]), key(b[0]), key(a[0]));
      LexIrreflexive(key(a[0]));
    }
  }

  // ---------------------------------------------------------------- sorting strings

  ghost predicate Increasing(s: seq<string>) {
    forall i, j | 0 <= i < j < |s| :: Before(s[i], s[j])
  }

  /** `sort()` with the default comparison. */
  function Sort(s: seq<string>): (r: seq<string>)
    ensures |r| == |s| && forall y :: y in r <==> y in s
  {
    SortBy(s, Units)
  }

  lemma SortedStrings(s: seq<string>)
    requires forall i, j | 0 <= i < j < |s| :: s[i] != s[j]
    ensures Increasing(Sort(s))
    ensures forall i, j | 0 <= i < j < |Sort(s)| :: Sort(s)[i] != Sort(s)[j]
  {
    forall i, j | 0 <= i < j < |s| ensures Units(s[i]) != Units(s[j]) {
      if Units(s[i]) == Units(s[j]) {
        UnitsInjective(s[i], s[j]);
      }
    }
    SortIncreasing(s, Units);
    var r := Sort(s);
    forall i, j | 0 <= i < j < |r| ensures Before(r[i], r[j]) && r[i] != r[j] {
      assert LexLess(Units(r[i]), Units(r[j]));
      LexIrreflexive(Units(r[i]));
    }
  }
}
