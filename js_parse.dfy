/** The part of JavaScript's built-in `parseInt(string)` (no radix argument) that the
    rainfall lookup relies on: leading white space is skipped, an optional sign is read,
    a `0x`/`0X` prefix switches to radix 16, and the longest prefix of digits of the radix
    is converted.  No digits at all gives `NaN`, written `None` here. */
module JsParse {
  import opened Options

  /** JavaScript's StrWhiteSpaceChar: the WhiteSpace and LineTerminator code points. */
  predicate IsJsWhiteSpace(c: char)
  {
    c == '\t' || c == '\n' || c == '\U{B}' || c == '\U{C}' || c == '\r' || c == ' ' ||
    c == '\U{A0}' || c == '\U{1680}' || ('\U{2000}' <= c <= '\U{200A}') ||
    c == '\U{2028}' || c == '\U{2029}' || c == '\U{202F}' || c == '\U{205F}' ||
    c == '\U{3000}' || c == '\U{FEFF}'
  }

  /** The value of `c` as a digit in any radix up to 36, or 36 when `c` is no digit. */
  function DigitValue(c: char): (d: nat)
    ensures d <= 36
    ensures d < 10 <==> '0' <= c <= '9'
  {
    if '0' <= c <= '9' then (c - '0') as nat
    else if 'a' <= c <= 'z' then (c - 'a') as nat + 10
    else if 'A' <= c <= 'Z' then (c - 'A') as nat + 10
    else 36
  }

  predicate IsDigit(c: char, radix: nat)
  {
    DigitValue(c) < radix
  }

  /** `s` without its leading white space. */
  function TrimStart(s: string): (r: string)
    ensures |r| <= |s| && r == s[|s| - |r|..]
    ensures r == [] || !IsJsWhiteSpace(r[0])
  {
    if s != [] && IsJsWhiteSpace(s[0]) then TrimStart(s[1..]) else s
  }

  /** The longest prefix of `s` made of digits of `radix`. */
  function DigitPrefix(s: string, radix: nat): (r: string)
    ensures |r| <= |s| && r == s[..|r|]
    ensures |r| < |s| ==> !IsDigit(s[|r|], radix)
  {
    if s != [] && IsDigit(s[0], radix) then [s[0]] + DigitPrefix(s[1..], radix) else []
  }

  function Power(b: nat, n: nat): (p: nat)
    ensures b > 0 ==> p > 0
  {
    if n == 0 then 1 else b * Power(b, n - 1)
  }

  /** The number that the digit string `ds` denotes in `radix`, most significant digit first. */
  function DigitsValue(ds: string, radix: nat): nat
    requires radix == 10 || radix == 16
  {
    if ds == [] then 0
    else
      var v := DigitsValue(ds[..|ds| - 1], radix);
      var d := DigitValue(ds[|ds| - 1]);
      // the two radixes `parseInt` can choose without a radix argument, kept apart so
      // that the arithmetic stays linear
      if radix == 16 then v * 16 + d else v * 10 + d
  }

  predicate AllDigits(ds: string, radix: nat)
  {
    forall i :: 0 <= i < |ds| ==> IsDigit(ds[i], radix)
  }

  /** `n` digits of `radix` denote a number below `radix` to the power `n`. */
  lemma {:induction false} DigitsValueBound(ds: string, radix: nat)
    requires radix == 10 || radix == 16
    requires AllDigits(ds, radix)
    ensures DigitsValue(ds, radix) < Power(radix, |ds|)
  {
    if ds != [] {
      var init := ds[..|ds| - 1];
      assert AllDigits(init, radix) by {
        forall i | 0 <= i < |init| ensures IsDigit(init[i], radix) {
          assert init[i] == ds[i];
        }
      }
      DigitsValueBound(init, radix);
      assert IsDigit(ds[|ds| - 1], radix);
      ShiftBelow(DigitsValue(init, radix), DigitValue(ds[|ds| - 1]), radix, Power(radix, |ds| - 1));
    }
  }

  /** Appending a digit below `radix` to a number below `p` stays below `p * radix`. */
  lemma ShiftBelow(v: nat, d: nat, radix: nat, p: nat)
    requires v < p && d < radix
    ensures v * radix + d < radix * p
  {
    calc {
      v * radix + d;
    <  v * radix + radix;
    == (v + 1) * radix;
    <= { assert v + 1 <= p; } p * radix;
    }
  }

  predicate HasHexPrefix(s: string)
  {
    |s| >= 2 && s[0] == '0' && (s[1] == 'x' || s[1] == 'X')
  }

  /** `parseInt(s)`: `None` stands for `NaN`. Both signed zeros are the integer 0. */
  function ParseInt(s: string): (r: Option<int>)
    ensures TrimStart(s) == [] ==> r.None?
    ensures r.Some? && r.value < 0 ==> TrimStart(s)[0] == '-'
  {
    var t := TrimStart(s);
    var negative := t != [] && t[0] == '-';
    var u := if t != [] && (t[0] == '-' || t[0] == '+') then t[1..] else t;
    var radix := if HasHexPrefix(u) then 16 else 10;
    var ds := DigitPrefix(if HasHexPrefix(u) then u[2..] else u, radix);
    if ds == [] then None
    else if negative then Some(-(DigitsValue(ds, radix) as int))
    else Some(DigitsValue(ds, radix))
  }

  predicate AllDecimalDigits(s: string)
  {
    AllDigits(s, 10)
  }

  /** A non-empty string of decimal digits, such as a postal code "01067", parses to its
      decimal value, leading zeros included, and lies below 10 to the power of its length. */
  lemma ParseDecimalDigits(s: string)
    requires s != [] && AllDecimalDigits(s)
    ensures ParseInt(s) == Some(DigitsValue(s, 10))
    ensures 0 <= ParseInt(s).value < Power(10, |s|)
  {
    assert !IsJsWhiteSpace(s[0]);
    assert TrimStart(s) == s;
    assert s[0] != '-' && s[0] != '+';
    assert |s| >= 2 ==> s[1] != 'x' && s[1] != 'X';
    assert !HasHexPrefix(s);
    DecimalPrefixIsWhole(s);
    DigitsValueBound(s, 10);
  }

  lemma {:induction false} DecimalPrefixIsWhole(s: string)
    requires AllDecimalDigits(s)
    ensures DigitPrefix(s, 10) == s
  {
    if s != [] {
      DecimalPrefixIsWhole(s[1..]);
    }
  }

  /** A string with no digit after its white space and sign does not parse. */
  lemma NoLeadingDigitIsNaN(s: string)
    requires s != [] && !IsJsWhiteSpace(s[0]) && s[0] != '-' && s[0] != '+'
    requires !IsDigit(s[0], 10)
    ensures ParseInt(s) == None
  {
  }

  /** Five decimal digits (a well-formed postal code) parse to a value in [0, 99999]. */
  lemma FiveDigitCode(s: string)
    requires |s| == 5 && AllDecimalDigits(s)
    ensures ParseInt(s).Some? && 0 <= ParseInt(s).value <= 99999
  {
    ParseDecimalDigits(s);
    assert Power(10, 5) == 100000;
  }
}
