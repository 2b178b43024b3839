/** String helpers with JavaScript's meaning: `String(n)` for integers,
    `toLowerCase`/`toUpperCase` restricted to ASCII letters, `trim`, and the
    code-unit order that `<` and `Array.prototype.sort()` use on strings. */
module Text {
  import opened Common

  // ---------------------------------------------------------------------
  // Characters
  // ---------------------------------------------------------------------

  predicate IsUpper(c: char) { 'A' <= c <= 'Z' }
  predicate IsLower(c: char) { 'a' <= c <= 'z' }
  predicate IsDigit(c: char) { '0' <= c <= '9' }

  function LowerChar(c: char): char {
    if IsUpper(c) then (c as int + 32) as char else c
  }

  function UpperChar(c: char): char {
    if IsLower(c) then (c as int - 32) as char else c
  }

  /** `s.toLowerCase()` on ASCII letters; other characters are kept. */
  function ToLower(s: string): (r: string)
    ensures |r| == |s|
    ensures forall i :: 0 <= i < |s| ==> r[i] == LowerChar(s[i])
  {
    seq(|s|, i requires 0 <= i < |s| => LowerChar(s[i]))
  }

  lemma ToLowerAppend(a: string, b: string)
    ensures ToLower(a + b) == ToLower(a) + ToLower(b)
  {
  }

  /** Text without capital letters is its own lower-case form. */
  lemma ToLowerOfLower(s: string)
    requires forall i :: 0 <= i < |s| ==> !IsUpper(s[i])
    ensures ToLower(s) == s
  {
  }

  /** Lower-casing text with one capital letter in it. */
  lemma ToLowerOneCapital(a: string, c: char, b: string)
    requires forall i :: 0 <= i < |a| ==> !IsUpper(a[i])
    requires forall i :: 0 <= i < |b| ==> !IsUpper(b[i])
    ensures ToLower(a + [c] + b) == a + [LowerChar(c)] + b
  {
    ToLowerAppend(a + [c], b);
    ToLowerAppend(a, [c]);
    ToLowerOfLower(a);
    ToLowerOfLower(b);
  }

  /** The characters `String.prototype.trim` removes: the ECMAScript
      WhiteSpace and LineTerminator code points. */
  predicate IsJsSpace(c: char) {
    c == ' ' || c == '\t' || c == '\n' || c == '\r' || c == '\U{000B}' || c == '\U{000C}'
    || c == '\U{00A0}' || c == '\U{FEFF}' || c == '\U{1680}' || ('\U{2000}' <= c <= '\U{200A}')
    || c == '\U{2028}' || c == '\U{2029}' || c == '\U{202F}' || c == '\U{205F}' || c == '\U{3000}'
  }

  function TrimStart(s: string): (r: string)
    ensures |r| <= |s| && r == s[|s| - |r|..]
    ensures |r| > 0 ==> !IsJsSpace(r[0])
    ensures forall i :: 0 <= i < |s| - |r| ==> IsJsSpace(s[i])
  {
    if |s| > 0 && IsJsSpace(s[0]) then
      var r := TrimStart(s[1..]);
      assert s[1..][|s| - 1 - |r|..] == s[|s| - |r|..];
      assert forall i :: 1 <= i < |s| - |r| ==> s[i] == s[1..][i - 1];
      r
    else s
  }

  function TrimEnd(s: string): (r: string)
    ensures |r| <= |s| && r == s[..|r|]
    ensures |r| > 0 ==> !IsJsSpace(r[|r| - 1])
    ensures forall i :: |r| <= i < |s| ==> IsJsSpace(s[i])
  {
    if |s| > 0 && IsJsSpace(s[|s| - 1]) then
      var r := TrimEnd(s[..|s| - 1]);
      assert s[..|s| - 1][..|r|] == s[..|r|];
      assert forall i :: |r| <= i < |s| - 1 ==> s[i] == s[..|s| - 1][i];
      r
    else s
  }

  /** `s.trim()`. */
  function Trim(s: string): string {
    TrimEnd(TrimStart(s))
  }

  /** A string with no white space at either end is its own trim. */
  lemma TrimOfTrimmed(s: string)
    requires |s| > 0 ==> !IsJsSpace(s[0]) && !IsJsSpace(s[|s| - 1])
    ensures Trim(s) == s
  {
  }

  // ---------------------------------------------------------------------
  // Decimal rendering of integers (`String(n)` / template literals)
  // ---------------------------------------------------------------------

  function DigitChar(d: nat): char
    requires d < 10
  {
    ('0' as int + d) as char
  }

  function DigitValue(c: char): nat
    requires IsDigit(c)
  {
    c as int - '0' as int
  }

  predicate AllDigits(s: string) {
    forall i :: 0 <= i < |s| ==> IsDigit(s[i])
  }

  /** Decimal digits of `n`, most significant first, no leading zero. */
  function NatToString(n: nat): (r: string)
    ensures |r| >= 1 && AllDigits(r)
    ensures |r| == 1 <==> n < 10
    ensures r[0] == '0' ==> n == 0
    decreases n
  {
    if n < 10 then [DigitChar(n)]
    else NatToString(n / 10) + [DigitChar(n % 10)]
  }

  /** The number a string of decimal digits denotes. */
  function DigitsValue(s: string): nat
    requires AllDigits(s)
  {
    if |s| == 0 then 0
    else DigitsValue(s[..|s| - 1]) * 10 + DigitValue(s[|s| - 1])
  }

  /** Reading back the digits of `n` gives `n`. */
  lemma {:induction false} NatToStringRoundTrip(n: nat)
    ensures DigitsValue(NatToString(n)) == n
    decreases n
  {
    var s := NatToString(n);
    if n >= 10 {
      NatToStringRoundTrip(n / 10);
      assert s[..|s| - 1] == NatToString(n / 10);
    }
  }

  lemma NatToStringInjective(a: nat, b: nat)
    requires NatToString(a) == NatToString(b)
    ensures a == b
  {
    NatToStringRoundTrip(a);
    NatToStringRoundTrip(b);
  }

  /** `String(n)` for an integer `n`. */
  function IntToString(n: int): (r: string)
    ensures |r| >= 1
  {
    if n < 0 then "-" + NatToString(-n) else NatToString(n)
  }

  /** No rendered integer contains `c` unless it is a digit or the sign. */
  lemma IntToStringAvoids(n: int, c: char)
    requires !IsDigit(c) && c != '-'
    ensures c !in IntToString(n)
  {
    if n < 0 {
      assert IntToString(n) == "-" + NatToString(-n);
    }
  }

  /** A separator that occurs in neither head splits a string uniquely. */
  lemma {:induction false} SplitAtFirst(c: char, p: string, q: string, p2: string, q2: string)
    requires c !in p && c !in p2
    requires p + [c] + q == p2 + [c] + q2
    ensures p == p2 && q == q2
  {
    var w := p + [c] + q;
    if |p| == 0 {
      assert w == p2 + [c] + q2;
      assert w[0] == c;
      assert w[..|p2|] == p2;
      assert |p2| == 0;
      assert q == w[1..] == q2;
    } else {
      assert w[0] == p[0] && w[0] == p2[0];
      assert w[1..] == p[1..] + [c] + q;
      assert w[1..] == p2[1..] + [c] + q2;
      SplitAtFirst(c, p[1..], q, p2[1..], q2);
      assert p == [p[0]] + p[1..];
      assert p2 == [p2[0]] + p2[1..];
    }
  }

  /** Inverse of `IntToString`, used to state that rendering loses nothing. */
  function ParseInt(s: string): int
    requires |s| >= 1
    requires s[0] == '-' ==> AllDigits(s[1..])
    requires s[0] != '-' ==> AllDigits(s)
  {
    if s[0] == '-' then -(DigitsValue(s[1..]) as int) else DigitsValue(s)
  }

  lemma IntToStringRoundTrip(n: int)
    ensures var s := IntToString(n);
            (s[0] == '-' ==> AllDigits(s[1..])) && (s[0] != '-' ==> AllDigits(s))
            && ParseInt(s) == n
  {
    var s := IntToString(n);
    if n < 0 {
      assert s[1..] == NatToString(-n);
      NatToStringRoundTrip(-n);
    } else {
      NatToStringRoundTrip(n);
    }
  }

  /** Distinct integers render as distinct strings: grouping by the rendered
      year is grouping by the year. */
  lemma IntToStringInjective(a: int, b: int)
    ensures IntToString(a) == IntToString(b) <==> a == b
  {
    if IntToString(a) == IntToString(b) {
      IntToStringRoundTrip(a);
      IntToStringRoundTrip(b);
    }
  }

  // ---------------------------------------------------------------------
  // Code-unit order on strings
  // ---------------------------------------------------------------------

  /** `a < b` on JavaScript strings: a proper prefix comes first, otherwise
      the first differing character decides. */
  predicate LexLess(a: string, b: string) {
    if |a| == 0 then |b| > 0
    else if |b| == 0 then false
    else if a[0] == b[0] then LexLess(a[1..], b[1..])
    else a[0] < b[0]
  }

  lemma LexLessIrreflexive(a: string)
    ensures !LexLess(a, a)
  {
  }

  lemma {:induction false} LexLessTotal(a: string, b: string)
    requires a != b
    ensures LexLess(a, b) || LexLess(b, a)
  {
    if |a| > 0 && |b| > 0 && a[0] == b[0] {
      assert a[1..] != b[1..] by {
        assert a == [a[0]] + a[1..] && b == [b[0]] + b[1..];
      }
      LexLessTotal(a[1..], b[1..]);
    }
  }

  lemma {:induction false} LexLessAsymmetric(a: string, b: string)
    requires LexLess(a, b)
    ensures !LexLess(b, a)
  {
    if |a| > 0 && |b| > 0 && a[0] == b[0] {
      LexLessAsymmetric(a[1..], b[1..]);
    }
  }

  lemma {:induction false} LexLessTransitive(a: string, b: string, c: string)
    requires LexLess(a, b) && LexLess(b, c)
    ensures LexLess(a, c)
  {
    if |a| > 0 && |b| > 0 && |c| > 0 && a[0] == b[0] && b[0] == c[0] {
      LexLessTransitive(a[1..], b[1..], c[1..]);
    }
  }

  /** Comparing two equally long strings each followed by one character. */
  lemma {:induction false} LexLessSnoc(x: string, c: char, y: string, d: char)
    requires |x| == |y|
    ensures LexLess(x + [c], y + [d]) <==> LexLess(x, y) || (x == y && c < d)
  {
    if |x| > 0 {
      assert (x + [c])[1..] == x[1..] + [c];
      assert (y + [d])[1..] == y[1..] + [d];
      LexLessSnoc(x[1..], c, y[1..], d);
      if x[0] == y[0] {
        assert x == y <==> x[1..] == y[1..] by {
          assert x == [x[0]] + x[1..] && y == [y[0]] + y[1..];
        }
      }
    }
  }

  /** For non-negative numbers written with the same number of digits, the
      string order is the numeric order. */
  lemma {:induction false} LexOrderIsNumericForEqualWidth(a: nat, b: nat)
    requires |NatToString(a)| == |NatToString(b)|
    ensures LexLess(NatToString(a), NatToString(b)) <==> a < b
    decreases a
  {
    if a >= 10 {
      assert b >= 10;
      LexOrderIsNumericForEqualWidth(a / 10, b / 10);
      LexLessSnoc(NatToString(a / 10), DigitChar(a % 10), NatToString(b / 10), DigitChar(b % 10));
      if NatToString(a / 10) == NatToString(b / 10) {
        NatToStringInjective(a / 10, b / 10);
      }
    }
  }

  // ---------------------------------------------------------------------
  // Sorting distinct strings (`Array.prototype.sort()` with no comparator)
  // ---------------------------------------------------------------------

  predicate StrictlySorted(s: seq<string>) {
    forall i, j :: 0 <= i < j < |s| ==> LexLess(s[i], s[j])
  }

  function InsertString(s: seq<string>, x: string): (r: seq<string>)
    ensures multiset(r) == multiset(s) + multiset{x}
    ensures |r| == |s| + 1
  {
    if |s| == 0 then [x]
    else if LexLess(x, s[0]) then [x] + s
    else
      assert s == [s[0]] + s[1..];
      [s[0]] + InsertString(s[1..], x)
  }

  lemma {:induction false} InsertStringSorted(s: seq<string>, x: string)
    requires StrictlySorted(s) && x !in s
    ensures StrictlySorted(InsertString(s, x))
  {
    var r := InsertString(s, x);
    if |s| == 0 {
    } else if LexLess(x, s[0]) {
      forall i, j | 0 <= i < j < |r| ensures LexLess(r[i], r[j]) {
        if i == 0 && j > 1 { LexLessTransitive(x, s[0], s[j - 1]); }
      }
    } else {
      LexLessTotal(x, s[0]);
      InsertStringSorted(s[1..], x);
      var t := InsertString(s[1..], x);
      assert r == [s[0]] + t;
      forall k | 0 <= k < |t| ensures LexLess(s[0], t[k]) {
        assert t[k] in multiset(t);
        assert t[k] == x || t[k] in s[1..];
      }
    }
  }

  /** The strings of `s` in ascending code-unit order. */
  function SortStrings(s: seq<string>): (r: seq<string>)
    requires NoDuplicates(s)
    ensures multiset(r) == multiset(s)
    ensures StrictlySorted(r)
  {
    if |s| == 0 then []
    else
      var t := SortStrings(s[..|s| - 1]);
      assert s == s[..|s| - 1] + [s[|s| - 1]];
      assert s[|s| - 1] !in t by {
        assert s[|s| - 1] !in multiset(s[..|s| - 1]);
      }
      InsertStringSorted(t, s[|s| - 1]);
      InsertString(t, s[|s| - 1])
  }
}
