/** The few pieces of JavaScript's built-in string and number behaviour that the
    performance log relies on: `String.prototype.trim`, `toLowerCase`,
    `parseFloat(x) || 0` and `Math.round`, all stated over exact values. */
module Js {

  /** JavaScript's WhiteSpace and LineTerminator characters: the set that both
      `trim` and `parseFloat` skip. */
  predicate IsWhitespace(c: char) {
    c == '\t' || c == '\n' || c == '\U{000B}' || c == '\U{000C}' || c == '\r' || c == ' ' ||
    c == '\U{00A0}' || c == '\U{1680}' || ('\U{2000}' <= c <= '\U{200A}') ||
    c == '\U{2028}' || c == '\U{2029}' || c == '\U{202F}' || c == '\U{205F}' ||
    c == '\U{3000}' || c == '\U{FEFF}'
  }

  /** A string made of whitespace only (the empty string included). */
  predicate IsBlank(s: string) {
    forall i :: 0 <= i < |s| ==> IsWhitespace(s[i])
  }

  /** Drops the leading whitespace: the result is the longest suffix that does
      not start with whitespace, and what was dropped is blank. */
  function TrimStart(s: string): (r: string)
    ensures |r| <= |s| && r == s[|s| - |r|..]
    ensures r == [] || !IsWhitespace(r[0])
    ensures IsBlank(s[..|s| - |r|])
  {
    if |s| > 0 && IsWhitespace(s[0]) then
      var r := TrimStart(s[1..]);
      assert s[..|s| - |r|] == [s[0]] + s[1..][..|s| - 1 - |r|];
      r
    else s
  }

  /** Drops the trailing whitespace: the result is the longest prefix that does
      not end with whitespace, and what was dropped is blank. */
  function TrimEnd(s: string): (r: string)
    ensures |r| <= |s| && r == s[..|r|]
    ensures r == [] || !IsWhitespace(r[|r| - 1])
    ensures IsBlank(s[|r|..])
  {
    if |s| > 0 && IsWhitespace(s[|s| - 1]) then
      var r := TrimEnd(s[..|s| - 1]);
      assert s[|r|..] == s[..|s| - 1][|r|..] + [s[|s| - 1]];
      r
    else s
  }

  /** Trimming leaves nothing exactly when the string is blank. */
  lemma TrimEmptyIffBlank(s: string)
    ensures TrimEnd(TrimStart(s)) == "" <==> IsBlank(s)
  {
    var t := TrimStart(s);
    if TrimEnd(t) == "" {
      assert t[0..] == t;
      assert t == [];
      assert s[..|s|] == s;
    }
    if IsBlank(s) {
      assert IsBlank(s[|s| - |t|..]);
      assert t == [];
    }
  }

  /** `s.trim()`: what is left neither starts nor ends with whitespace, and it
      is empty exactly when `s` is blank, which is what `!fieldName.trim()`
      tests. */
  function Trim(s: string): (r: string)
    ensures |r| <= |s|
    ensures r == [] || (!IsWhitespace(r[0]) && !IsWhitespace(r[|r| - 1]))
    ensures r == "" <==> IsBlank(s)
  {
    TrimEmptyIffBlank(s);
    TrimEnd(TrimStart(s))
  }

  /** `toLowerCase` on one character; only the ASCII letters are mapped here. */
  function LowerChar(c: char): (d: char)
    ensures !('A' <= d <= 'Z')
  {
    if 'A' <= c <= 'Z' then (c as int + 32) as char else c
  }

  /** `s.toLowerCase()`, character by character. */
  function ToLower(s: string): (r: string)
    ensures |r| == |s|
    ensures forall i :: 0 <= i < |s| ==> r[i] == LowerChar(s[i])
  {
    if s == [] then [] else [LowerChar(s[0])] + ToLower(s[1..])
  }

  /** Lower-casing twice is lower-casing once. */
  lemma ToLowerIdempotent(s: string)
    ensures ToLower(ToLower(s)) == ToLower(s)
  {
    var once := ToLower(s);
    assert forall i :: 0 <= i < |once| ==> LowerChar(once[i]) == once[i];
  }

  predicate IsDigit(c: char) {
    '0' <= c <= '9'
  }

  /** The length of the run of decimal digits at the start of `s`. */
  function DigitRun(s: string): (n: nat)
    ensures n <= |s|
    ensures forall i :: 0 <= i < n ==> IsDigit(s[i])
    ensures n == |s| || !IsDigit(s[n])
  {
    if |s| > 0 && IsDigit(s[0]) then 1 + DigitRun(s[1..]) else 0
  }

  /** The value of a string of decimal digits, read most significant first. */
  function DigitsValue(ds: string): (v: nat)
    requires forall i :: 0 <= i < |ds| ==> IsDigit(ds[i])
  {
    if ds == [] then 0
    else
      var d := ds[|ds| - 1];
      assert IsDigit(d);
      DigitsValue(ds[..|ds| - 1]) * 10 + (d as int - '0' as int)
  }

  /** The value of the digits after a decimal point: `d1 d2 ...` reads as
      `0.d1d2...`, always at least 0 and below 1. */
  function FractionValue(ds: string): (r: real)
    requires forall i :: 0 <= i < |ds| ==> IsDigit(ds[i])
    ensures 0.0 <= r < 1.0
    ensures ds == "" ==> r == 0.0
  {
    if ds == [] then 0.0
    else
      assert IsDigit(ds[0]);
      ((ds[0] as int - '0' as int) as real + FractionValue(ds[1..])) / 10.0
  }

  /** The digits of the fraction part, when `s` starts with a decimal point. */
  function FractionDigits(s: string): (f: string)
    ensures forall i :: 0 <= i < |f| ==> IsDigit(f[i])
    ensures (forall i :: 0 <= i < |s| ==> !IsDigit(s[i])) ==> f == ""
  {
    if |s| > 0 && s[0] == '.' then s[1..][..DigitRun(s[1..])] else ""
  }

  /** `u` starts with a numeral `parseFloat` can read: a digit, or a decimal
      point followed by a digit. */
  predicate StartsNumeral(u: string) {
    |u| > 0 && (IsDigit(u[0]) || (u[0] == '.' && |u| > 1 && IsDigit(u[1])))
  }

  /** What follows an optional sign. */
  function Unsigned(t: string): (u: string)
    ensures |t| > 0 && (t[0] == '-' || t[0] == '+') ==> u == t[1..]
    ensures !(|t| > 0 && (t[0] == '-' || t[0] == '+')) ==> u == t
  {
    if |t| > 0 && (t[0] == '-' || t[0] == '+') then t[1..] else t
  }

  /** The value of an unsigned numeral at the start of `u`: digits, optionally
      followed by a decimal point and more digits; 0 when it has no digit, and
      in particular when `u` does not start with a numeral. */
  function UnsignedValue(u: string): (r: real)
    ensures r >= 0.0
    ensures (forall i :: 0 <= i < |u| ==> !IsDigit(u[i])) ==> r == 0.0
    ensures !StartsNumeral(u) ==> r == 0.0
  {
    var n := DigitRun(u);
    var f := FractionDigits(u[n..]);
    if n + |f| == 0 then 0.0
    else DigitsValue(u[..n]) as real + FractionValue(f)
  }

  /** `parseFloat(s) || 0`: the value of the longest decimal numeral that follows
      the leading whitespace (an optional sign, digits, an optional fraction).
      When no numeral follows the whitespace and the sign, `parseFloat` gives
      NaN and the result is 0; so is it for a string without a single digit. */
  function ParseNum(s: string): (r: real)
    ensures !StartsNumeral(Unsigned(TrimStart(s))) ==> r == 0.0
    ensures (forall i :: 0 <= i < |s| ==> !IsDigit(s[i])) ==> r == 0.0
  {
    var t := TrimStart(s);
    if |t| > 0 && t[0] == '-' then
      assert t[1..] == s[|s| - |t| + 1..];
      -UnsignedValue(t[1..])
    else if |t| > 0 && t[0] == '+' then
      assert t[1..] == s[|s| - |t| + 1..];
      UnsignedValue(t[1..])
    else UnsignedValue(t)
  }

  /** The decimal numeral of a natural number, as `String(n)` writes it. */
  function NatToDigits(n: nat): (ds: string)
    ensures |ds| > 0
    ensures forall i :: 0 <= i < |ds| ==> IsDigit(ds[i])
  {
    if n < 10 then [('0' as int + n) as char]
    else NatToDigits(n / 10) + [('0' as int + n % 10) as char]
  }

  lemma {:induction false} DigitsValueOfNat(n: nat)
    ensures DigitsValue(NatToDigits(n)) == n
  {
    var ds := NatToDigits(n);
    if n >= 10 {
      DigitsValueOfNat(n / 10);
      assert ds[..|ds| - 1] == NatToDigits(n / 10);
    }
  }

  lemma {:induction false} DigitRunOfDigits(ds: string)
    requires forall i :: 0 <= i < |ds| ==> IsDigit(ds[i])
    ensures DigitRun(ds) == |ds|
  {
    if ds != [] {
      DigitRunOfDigits(ds[1..]);
    }
  }

  /** A string of digits reads as the number it spells. */
  lemma UnsignedValueOfDigits(ds: string)
    requires |ds| > 0 && forall i :: 0 <= i < |ds| ==> IsDigit(ds[i])
    ensures UnsignedValue(ds) == DigitsValue(ds) as real
  {
    DigitRunOfDigits(ds);
    assert ds[|ds|..] == "";
    assert ds[..|ds|] == ds;
  }

  /** Reading back a written natural number gives that number. */
  lemma ParseNumOfNat(n: nat)
    ensures ParseNum(NatToDigits(n)) == n as real
  {
    var ds := NatToDigits(n);
    assert !IsWhitespace(ds[0]);
    assert TrimStart(ds) == ds;
    UnsignedValueOfDigits(ds);
    DigitsValueOfNat(n);
  }

  /** The digit run stops at the first character that is not a digit. */
  lemma {:induction false} DigitRunOfDigitsThen(ds: string, rest: string)
    requires forall i :: 0 <= i < |ds| ==> IsDigit(ds[i])
    requires rest == [] || !IsDigit(rest[0])
    ensures DigitRun(ds + rest) == |ds|
  {
    if ds != [] {
      assert (ds + rest)[1..] == ds[1..] + rest;
      DigitRunOfDigitsThen(ds[1..], rest);
    } else {
      assert ds + rest == rest;
    }
  }

  /** A numeral with a fraction, `ds.fs`, reads as its whole part plus the
      value of its fraction digits. */
  lemma UnsignedValueOfDecimal(ds: string, fs: string)
    requires forall i :: 0 <= i < |ds| ==> IsDigit(ds[i])
    requires forall i :: 0 <= i < |fs| ==> IsDigit(fs[i])
    ensures UnsignedValue(ds + "." + fs) == DigitsValue(ds) as real + FractionValue(fs)
  {
    var u := ds + "." + fs;
    assert u == ds + ("." + fs);
    DigitRunOfDigitsThen(ds, "." + fs);
    assert u[|ds|..] == "." + fs;
    assert u[..|ds|] == ds;
    assert ("." + fs)[1..] == fs;
    DigitRunOfDigits(fs);
    assert fs[..|fs|] == fs;
  }

  /** Reading back a written natural number with fraction digits gives the
      number plus the fraction. */
  lemma ParseNumOfDecimal(n: nat, fs: string)
    requires forall i :: 0 <= i < |fs| ==> IsDigit(fs[i])
    ensures ParseNum(NatToDigits(n) + "." + fs) == n as real + FractionValue(fs)
  {
    var ds := NatToDigits(n);
    var s := ds + "." + fs;
    assert s[0] == ds[0];
    assert TrimStart(s) == s;
    UnsignedValueOfDecimal(ds, fs);
    DigitsValueOfNat(n);
  }

  /** A leading minus sign negates the number read. */
  lemma ParseNumOfNegatedNat(n: nat)
    ensures ParseNum("-" + NatToDigits(n)) == -(n as real)
  {
    var ds := NatToDigits(n);
    var s := "-" + ds;
    assert TrimStart(s) == s;
    assert s[1..] == ds;
    UnsignedValueOfDigits(ds);
    DigitsValueOfNat(n);
  }

  /** `Math.round(x)`: the nearest integer, halves rounded up. */
  function Round(x: real): (r: int)
    ensures x - 0.5 < r as real <= x + 0.5
  {
    (x + 0.5).Floor
  }

  /** `Math.min(a, b)`. */
  function Min(a: real, b: real): (m: real)
    ensures m <= a && m <= b
    ensures m == a || m == b
  {
    if a <= b then a else b
  }

  /** `Math.max(a, b)`. */
  function Max(a: real, b: real): (m: real)
    ensures m >= a && m >= b
    ensures m == a || m == b
  {
    if a >= b then a else b
  }
}
