/** The number/string conversions the page controls rely on: `String(n)` of
    a page size, `Number(...)` of a select value and `parseInt(...)` of the
    text typed into the page box, following the ECMAScript definitions of
    `parseInt` (section 19.2.5 of ECMA-262) for a call without a radix. */
module Numbers {
  import opened Wrappers

  predicate IsDigit(c: char) {
    '0' <= c <= '9'
  }

  /** Value of a hexadecimal digit (either case), or -1 for any other
      character. */
  function HexDigitValue(c: char): (v: int)
    ensures -1 <= v < 16
    ensures IsDigit(c) ==> v == c as int - '0' as int
    ensures 0 <= v < 10 ==> IsDigit(c)
  {
    if '0' <= c <= '9' then c as int - '0' as int
    else if 'a' <= c <= 'f' then c as int - 'a' as int + 10
    else if 'A' <= c <= 'F' then c as int - 'A' as int + 10
    else -1
  }

  predicate IsDigitIn(c: char, radix: nat) {
    0 <= HexDigitValue(c) < radix
  }

  /** The digit character for 0..9. */
  function Digit(d: nat): (c: char)
    requires d < 10
    ensures IsDigit(c) && HexDigitValue(c) == d
  {
    ('0' as int + d) as char
  }

  /** `String(n)` for a non-negative integer: its decimal digits, without
      leading zeros. */
  function DecimalString(n: nat): (s: string)
    ensures |s| >= 1
    ensures forall k :: 0 <= k < |s| ==> IsDigit(s[k])
    ensures s[0] == '0' ==> s == "0"
    decreases n
  {
    if n < 10 then [Digit(n)] else DecimalString(n / 10) + [Digit(n % 10)]
  }

  /** The value of a run of digits in base `radix`, most significant first. */
  function RunValue(s: string, radix: nat): (v: nat)
    requires forall k :: 0 <= k < |s| ==> IsDigitIn(s[k], radix)
  {
    if s == [] then 0
    else
      var init := s[..|s| - 1];
      assert forall k :: 0 <= k < |init| ==> init[k] == s[k];
      var high := RunValue(init, radix);
      var low := HexDigitValue(s[|s| - 1]);
      assert low >= 0 by {
        assert IsDigitIn(s[|s| - 1], radix);
      }
      MulNonNegative(high, radix);
      high * radix + low
  }

  lemma MulNonNegative(a: nat, b: nat)
    ensures a * b >= 0
  {
  }

  /** Reading the decimal digits of `n` gives `n` back, so `Number(String(n))`
      is `n` for every option a select offers. */
  lemma {:induction false} RunValueOfDecimal(n: nat)
    ensures RunValue(DecimalString(n), 10) == n
    decreases n
  {
    if n >= 10 {
      var s := DecimalString(n);
      assert s[..|s| - 1] == DecimalString(n / 10);
      RunValueOfDecimal(n / 10);
    }
  }

  /** The ECMAScript white space and line terminators that `parseInt` skips. */
  predicate IsWhiteSpace(c: char) {
    c == '\t' || c == '\n' || c == '\U{000B}' || c == '\U{000C}' || c == '\r' || c == ' '
    || c == '\U{00A0}' || c == '\U{1680}' || ('\U{2000}' <= c <= '\U{200A}')
    || c == '\U{2028}' || c == '\U{2029}' || c == '\U{202F}' || c == '\U{205F}'
    || c == '\U{3000}' || c == '\U{FEFF}'
  }

  /** The string without its leading white space. */
  function TrimStart(s: string): (r: string)
    ensures |r| <= |s| && r == s[|s| - |r|..]
    ensures forall k :: 0 <= k < |s| - |r| ==> IsWhiteSpace(s[k])
    ensures r == [] || !IsWhiteSpace(r[0])
  {
    if s != [] && IsWhiteSpace(s[0]) then TrimStart(s[1..]) else s
  }

  /** The length of the longest prefix of `s` made of digits in base `radix`. */
  function RunLength(s: string, radix: nat): (n: nat)
    ensures n <= |s|
    ensures forall k :: 0 <= k < n ==> IsDigitIn(s[k], radix)
    ensures n < |s| ==> !IsDigitIn(s[n], radix)
  {
    if s != [] && IsDigitIn(s[0], radix) then 1 + RunLength(s[1..], radix) else 0
  }

  /** The digits after the sign: a `0x`/`0X` prefix switches to base 16,
      and the longest run of digits that follows is the value; no digits at
      all is `NaN` (`None`). A value needs a leading decimal digit. */
  function UnsignedPart(u: string): (r: Option<nat>)
    ensures r.Some? ==> |u| > 0 && IsDigit(u[0])
  {
    var hex := |u| >= 2 && u[0] == '0' && (u[1] == 'x' || u[1] == 'X');
    var radix := if hex then 16 else 10;
    var w := if hex then u[2..] else u;
    var n := RunLength(w, radix);
    if n == 0 then None else Some(RunValue(w[..n], radix))
  }

  /** The value read from text that starts after the white space: one
      optional sign, then the digits. A negative value needs a minus sign,
      and any value a digit right at the start or right after the sign. */
  function SignedPart(t: string): (r: Option<int>)
    ensures r.Some? && r.value < 0 ==> t != [] && t[0] == '-'
    ensures r.Some? ==> (t != [] && IsDigit(t[0])) ||
                        (|t| >= 2 && (t[0] == '-' || t[0] == '+') && IsDigit(t[1]))
  {
    var negative := t != [] && t[0] == '-';
    var u := if t != [] && (t[0] == '-' || t[0] == '+') then t[1..] else t;
    match UnsignedPart(u)
    case None => None
    case Some(v) => Some(if negative then 0 - v else v)
  }

  /** `s` starts with the decimal form of `n`, followed by nothing that
      could continue the number (another digit, or an `x` after a lone
      `0`). */
  predicate DecimalThenStop(s: string, n: nat) {
    var d := DecimalString(n);
    |d| <= |s| && s[..|d|] == d
    && (|d| == |s| || !IsDigit(s[|d|]))
    && (n == 0 && |d| < |s| ==> s[|d|] != 'x' && s[|d|] != 'X')
  }

  /** `parseInt(s)`: leading white space is skipped, then a signed number is
      read. Text without any digit is `NaN`, and the decimal form of `n`
      followed by anything that cannot continue it reads as `n`
      (`parseInt("12abc")` is 12). */
  function ParseInt(s: string): (r: Option<int>)
    ensures (forall k :: 0 <= k < |s| ==> !IsDigit(s[k])) ==> r.None?
    ensures forall n: nat :: DecimalThenStop(s, n) ==> r == Some(n)
  {
    assert (forall k :: 0 <= k < |s| ==> !IsDigit(s[k])) ==> SignedPart(TrimStart(s)).None? by {
      if forall k :: 0 <= k < |s| ==> !IsDigit(s[k]) {
        NoDigitIsNaN(s);
      }
    }
    assert forall n: nat :: DecimalThenStop(s, n) ==> SignedPart(TrimStart(s)) == Some(n) by {
      forall n: nat | DecimalThenStop(s, n)
        ensures SignedPart(TrimStart(s)) == Some(n)
      {
        DecimalThenStopParses(s, n);
      }
    }
    SignedPart(TrimStart(s))
  }

  /** Text without a digit reads as `NaN`. */
  lemma {:induction false} NoDigitIsNaN(s: string)
    requires forall k :: 0 <= k < |s| ==> !IsDigit(s[k])
    ensures SignedPart(TrimStart(s)).None?
  {
    if s != [] && IsWhiteSpace(s[0]) {
      var rest := s[1..];
      assert forall k :: 0 <= k < |rest| ==> rest[k] == s[k + 1];
      NoDigitIsNaN(rest);
    } else {
      NoDigitSigned(s);
    }
  }

  lemma NoDigitSigned(t: string)
    requires forall k :: 0 <= k < |t| ==> !IsDigit(t[k])
    ensures SignedPart(t).None?
  {
  }

  lemma DecimalThenStopParses(s: string, n: nat)
    requires DecimalThenStop(s, n)
    ensures SignedPart(TrimStart(s)) == Some(n)
  {
    var d := DecimalString(n);
    var rest := s[|d|..];
    assert s == d + rest;
    DecimalParses(n, rest);
  }

  /** The decimal form of `n`, followed by anything that cannot continue the
      number, is read back as `n`. */
  lemma DecimalParses(n: nat, rest: string)
    requires rest == [] || !IsDigit(rest[0])
    requires n == 0 ==> rest == [] || (rest[0] != 'x' && rest[0] != 'X')
    ensures SignedPart(TrimStart(DecimalString(n) + rest)) == Some(n)
  {
    var s := DecimalString(n) + rest;
    UnsignedOfDecimal(n, rest);
    assert s[0] == DecimalString(n)[0] && IsDigit(s[0]);
    assert s[0] != '-' && s[0] != '+' && !IsWhiteSpace(s[0]);
    assert SignedPart(s) == Some(n);
    assert TrimStart(s) == s;
  }

  /** Leading white space does not change what `parseInt` reads. */
  lemma {:induction false} ParseIntSkipsWhiteSpace(ws: string, s: string)
    requires forall k :: 0 <= k < |ws| ==> IsWhiteSpace(ws[k])
    ensures ParseInt(ws + s) == ParseInt(s)
  {
    TrimStartSkips(ws, s);
  }

  lemma {:induction false} TrimStartSkips(ws: string, s: string)
    requires forall k :: 0 <= k < |ws| ==> IsWhiteSpace(ws[k])
    ensures TrimStart(ws + s) == TrimStart(s)
  {
    if ws != [] {
      assert (ws + s)[1..] == ws[1..] + s;
      TrimStartSkips(ws[1..], s);
    } else {
      assert ws + s == s;
    }
  }

  lemma UnsignedOfDecimal(n: nat, rest: string)
    requires rest == [] || !IsDigit(rest[0])
    requires n == 0 ==> rest == [] || (rest[0] != 'x' && rest[0] != 'X')
    ensures UnsignedPart(DecimalString(n) + rest) == Some(n)
  {
    var d := DecimalString(n);
    var s := d + rest;
    assert !(|s| >= 2 && s[0] == '0' && (s[1] == 'x' || s[1] == 'X')) by {
      if |s| >= 2 && s[0] == '0' {
        assert d == "0";
        assert s[1] == rest[0];
      }
    }
    RunLengthOfDigits(d, rest);
    assert s[..|d|] == d;
    RunValueOfDecimal(n);
  }

  lemma {:induction false} RunLengthOfDigits(d: string, rest: string)
    requires forall k :: 0 <= k < |d| ==> IsDigit(d[k])
    requires rest == [] || !IsDigit(rest[0])
    ensures RunLength(d + rest, 10) == |d|
  {
    if d == [] {
      assert d + rest == rest;
    } else {
      assert (d + rest)[1..] == d[1..] + rest;
      RunLengthOfDigits(d[1..], rest);
    }
  }

  /** A leading minus sign negates: `parseInt("-3")` is -3. */
  lemma ParseIntOfNegative(n: nat)
    ensures ParseInt("-" + DecimalString(n)) == Some(-(n as int))
  {
    var s := "-" + DecimalString(n);
    SignedOfNegative(n);
    NoLeadingWhiteSpace(s);
  }

  lemma SignedOfNegative(n: nat)
    ensures SignedPart("-" + DecimalString(n)) == Some(-(n as int))
  {
    var d := DecimalString(n);
    var s := "-" + d;
    UnsignedOfDecimal(n, []);
    assert d + [] == d;
    assert s[1..] == d;
  }

  lemma NoLeadingWhiteSpace(s: string)
    requires s != [] && !IsWhiteSpace(s[0])
    ensures TrimStart(s) == s
  {
  }
}
