/** The small optional-value datatype used throughout the model. */
module Wrappers {
  datatype Option<+T> = None | Some(value: T)
}

/**
 * The JavaScript string and number built-ins the time picker relies on:
 * `Number.prototype.toString`, `String.prototype.padStart`, `trim`,
 * `split`, `toUpperCase`, `includes` and the `Number(...)` conversion.
 * Each is modelled for the inputs the picker gives it.
 */
module JsText {
  import opened Wrappers

  // ---------------------------------------------------------------------------
  // Characters
  // ---------------------------------------------------------------------------

  predicate IsDigit(c: char) { '0' <= c <= '9' }

  function DigitValue(c: char): (d: nat)
    requires IsDigit(c)
    ensures d < 10
  {
    (c as int - '0' as int) as nat
  }

  function DigitChar(d: nat): (c: char)
    requires d < 10
    ensures IsDigit(c) && DigitValue(c) == d
  {
    ('0' as int + d) as char
  }

  /** The ECMAScript WhiteSpace and LineTerminator characters (what `\s`, `trim` and `Number` skip). */
  predicate IsSpace(c: char) {
    c == '\t' || c == '\n' || c == '\U{000B}' || c == '\U{000C}' || c == '\r' || c == ' '
    || c == '\U{00A0}' || c == '\U{1680}' || ('\U{2000}' <= c <= '\U{200A}')
    || c == '\U{2028}' || c == '\U{2029}' || c == '\U{202F}' || c == '\U{205F}'
    || c == '\U{3000}' || c == '\U{FEFF}'
  }

  predicate AllDigits(s: string) { forall i :: 0 <= i < |s| ==> IsDigit(s[i]) }

  /** `Math.max` and `Math.min` on integers. */
  function Max(a: int, b: int): (r: int)
    ensures r >= a && r >= b && (r == a || r == b)
  {
    if a >= b then a else b
  }

  function Min(a: int, b: int): (r: int)
    ensures r <= a && r <= b && (r == a || r == b)
  {
    if a <= b then a else b
  }

  // ---------------------------------------------------------------------------
  // Decimal notation of integers
  // ---------------------------------------------------------------------------

  /** `n.toString()` for a non-negative integer. */
  function NatToString(n: nat): (s: string)
    ensures |s| >= 1 && AllDigits(s)
  {
    if n < 10 then [DigitChar(n)] else NatToString(n / 10) + [DigitChar(n % 10)]
  }

  /** `n.toString()` for any integer: a minus sign in front of the magnitude's digits. */
  function IntToString(n: int): (s: string)
    ensures |s| >= 1
    ensures n >= 0 ==> AllDigits(s)
    ensures n < 0 ==> |s| >= 2 && s[0] == '-' && AllDigits(s[1..])
  {
    if n < 0 then "-" + NatToString(-n) else NatToString(n)
  }

  /** The value of a string of decimal digits (leading zeros allowed, "" is 0). */
  function DigitsValue(s: string): nat
    requires AllDigits(s)
  {
    if s == [] then 0 else DigitsValue(s[..|s| - 1]) * 10 + DigitValue(s[|s| - 1])
  }

  lemma {:induction false} DigitsValueOfNatToString(n: nat)
    ensures DigitsValue(NatToString(n)) == n
  {
    var s := NatToString(n);
    if n >= 10 {
      DigitsValueOfNatToString(n / 10);
      assert s[..|s| - 1] == NatToString(n / 10);
    }
  }

  /** Leading zeros do not change the value of a digit string. */
  lemma {:induction false} DigitsValueLeadingZero(s: string)
    requires AllDigits(s)
    ensures AllDigits("0" + s) && DigitsValue("0" + s) == DigitsValue(s)
  {
    if s != [] {
      var z := "0" + s;
      assert z[..|z| - 1] == "0" + s[..|s| - 1];
      DigitsValueLeadingZero(s[..|s| - 1]);
    }
  }

  // ---------------------------------------------------------------------------
  // padStart, trim, toUpperCase
  // ---------------------------------------------------------------------------

  /**
   * `n.toString().padStart(2, "0")`, the two-character rendering of hours and
   * minutes: a one-character text gets a leading "0", longer texts are kept.
   */
  function Pad2(n: int): (r: string)
    ensures |r| >= 2
    ensures n >= 0 ==> AllDigits(r)
  {
    var s := IntToString(n);
    if |s| >= 2 then s else "0" + s
  }

  /** Numbers from 0 to 99 take exactly two characters, so the padding is the whole story. */
  lemma Pad2Width(n: int)
    requires 0 <= n < 100
    ensures |Pad2(n)| == 2
  {
    if n >= 10 {
      assert NatToString(n) == NatToString(n / 10) + [DigitChar(n % 10)];
    }
  }

  /** `s.trimStart()`: the leading whitespace, and only that, is removed. */
  function TrimStart(s: string): (r: string)
    ensures |r| <= |s| && r == s[|s| - |r|..]
    ensures r == [] || !IsSpace(r[0])
    ensures AllSpace(s[..|s| - |r|])
  {
    if s != [] && IsSpace(s[0]) then
      var r := TrimStart(s[1..]);
      assert s[..|s| - |r|] == [s[0]] + s[1..][..|s| - 1 - |r|];
      r
    else s
  }

  /** `s.trimEnd()`: the trailing whitespace, and only that, is removed. */
  function TrimEnd(s: string): (r: string)
    ensures |r| <= |s| && r == s[..|r|]
    ensures r == [] || !IsSpace(r[|r| - 1])
    ensures AllSpace(s[|r|..])
  {
    if s != [] && IsSpace(s[|s| - 1]) then
      var r := TrimEnd(s[..|s| - 1]);
      assert s[|r|..] == s[..|s| - 1][|r|..] + [s[|s| - 1]];
      r
    else s
  }

  /**
   * `s.trim()`: the result neither starts nor ends with whitespace, and
   * (`TrimRemovesOnlySpace`) it is a piece of `s` with only whitespace
   * before and after it.
   */
  function Trim(s: string): (r: string)
    ensures |r| <= |s|
    ensures r == [] || (!IsSpace(r[0]) && !IsSpace(r[|r| - 1]))
  {
    TrimEnd(TrimStart(s))
  }

  /** `trim` removes whitespace and nothing else: what it returns is a piece of `s` with only whitespace around it. */
  lemma TrimRemovesOnlySpace(s: string)
    ensures exists i :: TrimmedAt(s, Trim(s), i)
  {
    var u := TrimStart(s);
    var i := |s| - |u|;
    var r := TrimEnd(u);
    assert r == Trim(s);
    assert AllSpace(s[..i]);
    assert u == s[i..];
    assert r == s[i..i + |r|] by { assert r == u[..|r|]; }
    assert AllSpace(s[i + |r|..]) by {
      assert s[i + |r|..] == u[|r|..];
    }
    assert TrimmedAt(s, r, i);
  }

  /** `r` is `s[i..i + |r|]`, and everything of `s` outside that piece is whitespace. */
  predicate TrimmedAt(s: string, r: string, i: int) {
    0 <= i && i + |r| <= |s| && r == s[i..i + |r|] &&
    AllSpace(s[..i]) && AllSpace(s[i + |r|..])
  }

  /** Every character of `t` is whitespace. */
  predicate AllSpace(t: string) {
    forall k :: 0 <= k < |t| ==> IsSpace(t[k])
  }

  lemma TrimNoop(s: string)
    requires s == [] || (!IsSpace(s[0]) && !IsSpace(s[|s| - 1]))
    ensures Trim(s) == s
  {
  }

  /** `toUpperCase` on the ASCII letters; every other character is left as it is. */
  function UpperChar(c: char): char {
    if 'a' <= c <= 'z' then (c as int - 32) as char else c
  }

  function ToUpper(s: string): (r: string)
    ensures |r| == |s|
    ensures forall i :: 0 <= i < |s| ==> r[i] == UpperChar(s[i])
  {
    seq(|s|, i requires 0 <= i < |s| => UpperChar(s[i]))
  }

  lemma ToUpperNoop(s: string)
    requires forall i :: 0 <= i < |s| ==> !('a' <= s[i] <= 'z')
    ensures ToUpper(s) == s
  {
  }

  /** `s.includes(p)`: some window of `s` spells `p`. */
  predicate Contains(s: string, p: string)
    decreases |s|
  {
    |p| <= |s| && (s[..|p|] == p || Contains(s[1..], p))
  }

  lemma {:induction false} ContainsAt(s: string, p: string, i: nat)
    requires i + |p| <= |s| && s[i..i + |p|] == p
    ensures Contains(s, p)
    decreases i
  {
    if i > 0 {
      assert s[1..][i - 1..i - 1 + |p|] == s[i..i + |p|];
      ContainsAt(s[1..], p, i - 1);
    }
  }

  /** A string none of whose characters starts `p` does not contain `p`. */
  lemma {:induction false} NotContains(s: string, p: string)
    requires |p| >= 1
    requires forall i :: 0 <= i < |s| ==> s[i] != p[0]
    ensures !Contains(s, p)
    decreases |s|
  {
    if |p| <= |s| {
      assert s[..|p|][0] == s[0];
      NotContains(s[1..], p);
    }
  }

  // ---------------------------------------------------------------------------
  // split
  // ---------------------------------------------------------------------------

  /** `s.split(sep)` for a one-character separator: the pieces between separators, always at least one. */
  function Split(s: string, sep: char): (r: seq<string>)
    ensures |r| >= 1
    decreases |s|
  {
    if s == [] then [[]]
    else
      var rest := Split(s[1..], sep);
      if s[0] == sep then [[]] + rest else [[s[0]] + rest[0]] + rest[1..]
  }

  lemma {:induction false} SplitNoSeparator(s: string, sep: char)
    requires forall i :: 0 <= i < |s| ==> s[i] != sep
    ensures Split(s, sep) == [s]
    decreases |s|
  {
    if s != [] {
      SplitNoSeparator(s[1..], sep);
      assert [s[0]] + s[1..] == s;
    }
  }

  lemma {:induction false} SplitAtFirst(a: string, sep: char, b: string)
    requires forall i :: 0 <= i < |a| ==> a[i] != sep
    ensures Split(a + [sep] + b, sep) == [a] + Split(b, sep)
    decreases |a|
  {
    var s := a + [sep] + b;
    if a == [] {
      assert s[1..] == b;
    } else {
      assert s[1..] == a[1..] + [sep] + b;
      SplitAtFirst(a[1..], sep, b);
      assert [a[0]] + a[1..] == a;
    }
  }

  // ---------------------------------------------------------------------------
  // Arrays of numbers: indexOf, includes
  // ---------------------------------------------------------------------------

  /** `xs.indexOf(x)`: the first position holding `x`, or -1 when there is none. */
  function IndexOf(xs: seq<int>, x: int): (r: int)
    ensures -1 <= r < |xs|
    ensures r == -1 <==> x !in xs
    ensures r >= 0 ==> xs[r] == x && forall j :: 0 <= j < r ==> xs[j] != x
  {
    if xs == [] then -1
    else if xs[0] == x then 0
    else
      var k := IndexOf(xs[1..], x);
      if k == -1 then -1 else k + 1
  }

  /** No value occurs twice. */
  predicate Distinct(xs: seq<int>) {
    forall i, j :: 0 <= i < j < |xs| ==> xs[i] != xs[j]
  }

  /** In a list without repeats, looking up the value at position `i` finds `i`. */
  lemma IndexOfDistinct(xs: seq<int>, i: int)
    requires Distinct(xs) && 0 <= i < |xs|
    ensures IndexOf(xs, xs[i]) == i
  {
  }

  // ---------------------------------------------------------------------------
  // Number(...)
  // ---------------------------------------------------------------------------

  /**
   * `Number(s)` for a string: surrounding whitespace is ignored, the empty
   * string is 0, an optional sign followed by decimal digits is that integer,
   * and anything else is NaN (None).
   */
  function NumberOf(s: string): (r: Option<int>)
    ensures var t := Trim(s);
      r.Some? <==> AllDigits(t) || (|t| >= 2 && (t[0] == '-' || t[0] == '+') && AllDigits(t[1..]))
    ensures AllDigits(Trim(s)) ==> r == Some(DigitsValue(Trim(s)))
    ensures var t := Trim(s);
      |t| >= 2 && t[0] == '-' && AllDigits(t[1..]) ==> r == Some(-(DigitsValue(t[1..]) as int))
    ensures var t := Trim(s);
      |t| >= 2 && t[0] == '+' && AllDigits(t[1..]) ==> r == Some(DigitsValue(t[1..]))
  {
    NumeralValue(Trim(s))
  }

  /** The value of an already trimmed numeral: digits with at most one leading sign. */
  function NumeralValue(t: string): (r: Option<int>)
    ensures r.Some? <==> AllDigits(t) || (|t| >= 2 && (t[0] == '-' || t[0] == '+') && AllDigits(t[1..]))
    ensures |t| >= 2 && t[0] == '-' && AllDigits(t[1..]) ==> r == Some(-(DigitsValue(t[1..]) as int))
  {
    if AllDigits(t) then Some(DigitsValue(t))
    else if |t| >= 2 && t[0] == '-' && AllDigits(t[1..]) then Some(-(DigitsValue(t[1..]) as int))
    else if |t| >= 2 && t[0] == '+' && AllDigits(t[1..]) then Some(DigitsValue(t[1..]))
    else None
  }

  /** `Number(field)` where a missing field (`undefined`) is NaN. */
  function NumberOfField(parts: seq<string>, k: nat): (r: Option<int>)
    ensures k >= |parts| ==> r == None
  {
    if k < |parts| then NumberOf(parts[k]) else None
  }

  /** Every integer survives being written with `Pad2` and read back by `Number`. */
  lemma Pad2RoundTrip(n: int)
    ensures NumberOf(Pad2(n)) == Some(n)
  {
    if n < 0 {
      NegativeRoundTrip(n);
    } else if n < 10 {
      var p := Pad2(n);
      assert p == "0" + NatToString(n);
      DigitsValueOfNatToString(n);
      DigitsValueLeadingZero(NatToString(n));
      DigitsRoundTrip(p);
    } else {
      DigitsValueOfNatToString(n);
      DigitsRoundTrip(Pad2(n));
    }
  }

  lemma DigitsRoundTrip(p: string)
    requires |p| >= 1 && AllDigits(p)
    ensures NumberOf(p) == Some(DigitsValue(p))
  {
    assert !IsSpace(p[0]) && !IsSpace(p[|p| - 1]) by {
      assert IsDigit(p[0]) && IsDigit(p[|p| - 1]);
    }
    TrimNoop(p);
  }

  lemma NegativeRoundTrip(n: int)
    requires n < 0
    ensures NumberOf(IntToString(n)) == Some(n)
  {
    NegativeText(n);
    DigitsValueOfNatToString(-n);
    ReadNegative(NatToString(-n), -n);
  }

  /** A minus sign before digits worth `m` reads as `-m`. */
  lemma ReadNegative(d: string, m: nat)
    requires |d| >= 1 && AllDigits(d) && DigitsValue(d) == m
    ensures NumberOf("-" + d) == Some(-(m as int))
  {
    var t := "-" + d;
    assert t[1..] == d;
    SignedNumber(t, d[|d| - 1]);
  }

  lemma NegativeText(n: int)
    requires n < 0
    ensures IntToString(n) == "-" + NatToString(-n)
  {
  }

  /** A minus sign before digits, with nothing to trim, reads as the negated digits. */
  lemma SignedNumber(t: string, last: char)
    requires |t| >= 2 && t[0] == '-' && AllDigits(t[1..]) && t[|t| - 1] == last && IsDigit(last)
    ensures NumberOf(t) == Some(-(DigitsValue(t[1..]) as int))
  {
    assert !AllDigits(t) by { assert !IsDigit(t[0]); }
    assert NumeralValue(t) == Some(-(DigitsValue(t[1..]) as int));
    TrimNoop(t);
  }
}
