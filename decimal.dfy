/**
 * Python's base-10 conversions between int and str, as the editor uses them:
 * `str(i)` writes the gutter numerals and `int(text)` coerces what the user
 * types into an input prompt.
 */
module Decimal {
  import opened Outcomes

  predicate IsDigit(c: char) {
    '0' <= c <= '9'
  }

  predicate AllDigits(s: string) {
    forall i :: 0 <= i < |s| ==> IsDigit(s[i])
  }

  function DigitChar(d: nat): (c: char)
    requires d < 10
    ensures IsDigit(c) && c as int - '0' as int == d
  {
    (d + '0' as int) as char
  }

  function DigitValue(c: char): nat
    requires IsDigit(c)
  {
    c as int - '0' as int
  }

  /** `str(n)` for n >= 0: the decimal digits, most significant first, without a leading zero. */
  function NatToString(n: nat): (s: string)
    ensures |s| >= 1 && AllDigits(s)
    ensures (s[0] == '0') == (n == 0)
    decreases n
  {
    if n < 10 then [DigitChar(n)] else NatToString(n / 10) + [DigitChar(n % 10)]
  }

  /** `str(n)` for any int. */
  function IntToString(n: int): (s: string)
  {
    if n < 0 then "-" + NatToString(-n) else NatToString(n)
  }

  /** What `int()` accepts after the sign: digits, with single underscores allowed between two digits. */
  predicate ValidDigits(s: string) {
    && |s| > 0 && IsDigit(s[0]) && IsDigit(s[|s| - 1])
    && DigitsOrUnderscores(s)
    && forall i :: 0 <= i < |s| - 1 ==> IsDigit(s[i]) || IsDigit(s[i + 1])
  }

  predicate DigitsOrUnderscores(s: string) {
    forall i :: 0 <= i < |s| ==> IsDigit(s[i]) || s[i] == '_'
  }

  /** The value of a digit string; underscores are skipped. */
  function DigitsValue(s: string): nat
    requires DigitsOrUnderscores(s)
    decreases |s|
  {
    if |s| == 0 then 0
    else if s[|s| - 1] == '_' then DigitsValue(s[..|s| - 1])
    else 10 * DigitsValue(s[..|s| - 1]) + DigitValue(s[|s| - 1])
  }

  /**
   * The characters `int()` strips on both sides of its argument: below U+007F
   * only tab, line feed, vertical tab, form feed, carriage return and space
   * (the separators U+001C-U+001F are not stripped and make `int()` fail);
   * from U+007F on, the characters `str.isspace()` accepts.
   */
  predicate IsSpace(c: char) {
    var k := c as int;
    || 9 <= k <= 13 || k == 32
    || k == 0x85 || k == 0xA0 || k == 0x1680 || 0x2000 <= k <= 0x200A
    || k == 0x2028 || k == 0x2029 || k == 0x202F || k == 0x205F || k == 0x3000
  }

  function TrimStart(s: string): (t: string)
    ensures |t| <= |s| && t == s[|s| - |t|..]
    ensures |t| > 0 ==> !IsSpace(t[0])
    ensures forall i :: 0 <= i < |s| - |t| ==> IsSpace(s[i])
  {
    if |s| > 0 && IsSpace(s[0]) then TrimStart(s[1..]) else s
  }

  function TrimEnd(s: string): (t: string)
    ensures |t| <= |s| && t == s[..|t|]
    ensures |t| > 0 ==> !IsSpace(t[|t| - 1])
    ensures forall i :: |t| <= i < |s| ==> IsSpace(s[i])
  {
    if |s| > 0 && IsSpace(s[|s| - 1]) then TrimEnd(s[..|s| - 1]) else s
  }

  function Strip(s: string): string {
    TrimEnd(TrimStart(s))
  }

  /**
   * `int(s)` for a str `s` in base 10: `Some(v)` where Python returns `v`,
   * `None` where it raises ValueError.
   */
  function ParseInt(s: string): Option<int>
  {
    ParseSigned(Strip(s))
  }

  /** The signed digit string left once the whitespace is stripped. */
  function ParseSigned(t: string): Option<int>
  {
    if |t| > 0 && (t[0] == '+' || t[0] == '-') then
      var digits := t[1..];
      if ValidDigits(digits) then
        Some(if t[0] == '-' then -(DigitsValue(digits) as int) else DigitsValue(digits) as int)
      else None
    else if ValidDigits(t) then Some(DigitsValue(t))
    else None
  }

  /** Reading back the digits `str` writes gives the number. */
  lemma {:induction false} NatToStringValue(n: nat)
    ensures ValidDigits(NatToString(n)) && DigitsValue(NatToString(n)) == n
  {
    if n >= 10 {
      NatToStringValue(n / 10);
      var p := NatToString(n / 10);
      var s := NatToString(n);
      assert s == p + [DigitChar(n % 10)];
      assert s[..|s| - 1] == p;
    }
  }

  /** `int(str(n)) == n` for every int n. */
  lemma ParseIntOfString(n: int)
    ensures ParseInt(IntToString(n)) == Some(n)
  {
    if n < 0 {
      NatToStringValue(-n);
      ParseNegativeDigits(NatToString(-n), -n);
    } else {
      NatToStringValue(n);
      ParseDigits(NatToString(n), n);
    }
  }

  /** `int()` reads a valid digit string as its value v. */
  lemma ParseDigits(d: string, v: nat)
    requires ValidDigits(d) && DigitsValue(d) == v
    ensures ParseInt(d) == Some(v)
  {
    StripUnchanged(d);
  }

  /** `int()` reads a minus sign and a valid digit string of value v as -v. */
  lemma ParseNegativeDigits(d: string, v: nat)
    requires ValidDigits(d) && DigitsValue(d) == v
    ensures ParseInt("-" + d) == Some(-(v as int))
  {
    var s := "-" + d;
    assert s[1..] == d;
    assert s[|s| - 1] == d[|d| - 1];
    StripUnchanged(s);
  }

  lemma StripUnchanged(s: string)
    requires |s| > 0 && !IsSpace(s[0]) && !IsSpace(s[|s| - 1])
    ensures Strip(s) == s
  {
    assert TrimStart(s) == s;
  }

  /** `int()` accepts no text without a digit in it; in particular it rejects "". */
  lemma ParseIntNeedsDigit(s: string)
    requires ParseInt(s).Some?
    ensures exists i :: 0 <= i < |s| && IsDigit(s[i])
  {
    var u := TrimStart(s);
    var t := TrimEnd(u);
    var j := SignedDigitAt(t);
    var at := |s| - |u|;
    assert t[j] == u[j] == s[at + j];
  }

  /** Where a signed digit string has a digit: right after the sign, or first. */
  lemma SignedDigitAt(t: string) returns (j: nat)
    requires ParseSigned(t).Some?
    ensures j < |t| && IsDigit(t[j])
  {
    assert |t| > 0;
    if t[0] == '+' || t[0] == '-' {
      j := 1;
      assert t[1..][0] == t[1];
    } else {
      j := 0;
    }
  }

  lemma {:induction false} TrimStartSnoc(s: string, c: char)
    ensures TrimStart(s + [c]) == if TrimStart(s) == [] then TrimStart([c]) else TrimStart(s) + [c]
  {
    if s == [] {
      assert s + [c] == [c];
    } else if IsSpace(s[0]) {
      assert (s + [c])[1..] == s[1..] + [c];
      TrimStartSnoc(s[1..], c);
    }
  }

  /** `int()` ignores whitespace added before or after the text. */
  lemma ParseIntIgnoresSpace(s: string, c: char)
    requires IsSpace(c)
    ensures ParseInt([c] + s) == ParseInt(s)
    ensures ParseInt(s + [c]) == ParseInt(s)
  {
    assert ([c] + s)[1..] == s;
    StripSnoc(s, c);
  }

  lemma StripSnoc(s: string, c: char)
    requires IsSpace(c)
    ensures Strip(s + [c]) == Strip(s)
  {
    TrimStartSnoc(s, c);
    var u := TrimStart(s);
    if u != [] {
      assert (u + [c])[..|u + [c]| - 1] == u;
    }
  }
}
