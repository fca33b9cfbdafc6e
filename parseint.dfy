/** The global `parseInt(string)` with no radix argument, as ECMA-262
    section 19.2.5 defines it: skip leading white space, read an optional
    sign, switch to radix 16 after a `0x`/`0X` prefix, read the longest run
    of digits and stop at the first character that is not one. */
module JsParseInt {
  import opened Wrappers

  /** A `parseInt` result: `NaN`, or a mathematical integer. The Number
      -0 (from `"-0"`) is folded into `Int(0)`: both are falsy and both
      compare equal to 0. */
  datatype ParsedInt = NaN | Int(value: int)

  /** StrWhiteSpaceChar of ECMA-262: the WhiteSpace code points (TAB, VT,
      FF, ZWNBSP and the Unicode space separators) and the LineTerminator
      code points (LF, CR, LS, PS). */
  predicate IsStrWhiteSpace(c: char) {
    var u := c as int;
    u == 0x09 || u == 0x0B || u == 0x0C || u == 0xFEFF
    || u == 0x20 || u == 0xA0 || u == 0x1680 || 0x2000 <= u <= 0x200A
    || u == 0x202F || u == 0x205F || u == 0x3000
    || u == 0x0A || u == 0x0D || u == 0x2028 || u == 0x2029
  }

  /** Removes the longest prefix of white space. */
  function TrimStart(s: string): (r: string)
    ensures |r| <= |s| && r == s[|s| - |r|..]
    ensures forall i :: 0 <= i < |s| - |r| ==> IsStrWhiteSpace(s[i])
    ensures r == [] || !IsStrWhiteSpace(r[0])
  {
    if s != [] && IsStrWhiteSpace(s[0]) then TrimStart(s[1..]) else s
  }

  /** The value of `c` as a digit in radix 36 (`0`-`9`, then `a`-`z` or
      `A`-`Z`), or 36 when `c` is no digit at all. */
  function DigitValue(c: char): (d: nat)
    ensures d <= 36
  {
    if '0' <= c <= '9' then c as int - '0' as int
    else if 'a' <= c <= 'z' then c as int - 'a' as int + 10
    else if 'A' <= c <= 'Z' then c as int - 'A' as int + 10
    else 36
  }

  /** The two radixes `parseInt` uses when no radix argument is given. */
  datatype Radix = Decimal | Hex {
    function Base(): nat {
      if Hex? then 16 else 10
    }

    /** `v` shifted one digit to the left. */
    function Shift(v: nat): nat {
      if Hex? then v * 16 else v * 10
    }
  }

  predicate IsDigit(c: char, radix: Radix) {
    DigitValue(c) < radix.Base()
  }

  /** The length of the longest prefix of `s` made of radix digits. */
  function DigitPrefixLength(s: string, radix: Radix): (n: nat)
    ensures n <= |s|
    ensures forall i :: 0 <= i < n ==> IsDigit(s[i], radix)
    ensures n == |s| || !IsDigit(s[n], radix)
  {
    if s == [] || !IsDigit(s[0], radix) then 0
    else 1 + DigitPrefixLength(s[1..], radix)
  }

  /** The integer a digit string denotes, most significant digit first. */
  function DigitsValue(z: string, radix: Radix): (v: nat)
    requires forall i :: 0 <= i < |z| ==> IsDigit(z[i], radix)
  {
    if z == [] then 0
    else radix.Shift(DigitsValue(z[..|z| - 1], radix)) + DigitValue(z[|z| - 1])
  }

  /** A digit is neither a sign nor white space. */
  lemma DigitIsNoSign(c: char, radix: Radix)
    requires IsDigit(c, radix)
    ensures c != '+' && c != '-' && !IsStrWhiteSpace(c)
  {
  }

  /** True when `u` starts with the hexadecimal prefix `0x` or `0X`. */
  predicate HasHexPrefix(u: string) {
    |u| >= 2 && u[0] == '0' && (u[1] == 'x' || u[1] == 'X')
  }

  /** The value of the longest run of radix digits at the start of `s`;
      `None` when `s` does not start with a digit. */
  function DigitRun(s: string, radix: Radix): (r: Option<nat>)
    ensures r.None? <==> s == [] || !IsDigit(s[0], radix)
  {
    var n := DigitPrefixLength(s, radix);
    if n == 0 then None else Some(DigitsValue(s[..n], radix))
  }

  /** The value of an unsigned numeral: hexadecimal after a `0x` or `0X`
      prefix, decimal otherwise. */
  function UnsignedValue(u: string): Option<nat> {
    if HasHexPrefix(u) then DigitRun(u[2..], Hex) else DigitRun(u, Decimal)
  }

  /** A numeral after white space: an optional `+` or `-`, then the
      unsigned part. */
  function SignedValue(s: string): ParsedInt {
    var negative := s != [] && s[0] == '-';
    var unsigned := if s != [] && (s[0] == '+' || s[0] == '-') then s[1..] else s;
    match UnsignedValue(unsigned)
    case None => NaN
    case Some(v) => Int(if negative then -(v as int) else v)
  }

  /** `parseInt(input)` with the radix argument absent. A negative result
      comes only from a `-` in front of the numeral, and a `-` there never
      gives a positive one. */
  function ParseInt(input: string): (r: ParsedInt)
    ensures r.Int? && r.value < 0 ==> TrimStart(input) != [] && TrimStart(input)[0] == '-'
    ensures r.Int? && TrimStart(input) != [] && TrimStart(input)[0] == '-' ==> r.value <= 0
  {
    SignedValue(TrimStart(input))
  }

  /** The decimal numeral of `n`, without leading zeros. */
  function DecimalString(n: nat): (r: string)
    ensures r != [] && forall i :: 0 <= i < |r| ==> IsDigit(r[i], Decimal)
    ensures DigitsValue(r, Decimal) == n
    ensures n > 0 ==> r[0] != '0'
  {
    var last := ['0' + (n % 10) as char];
    if n < 10 then last
    else
      var r := DecimalString(n / 10) + last;
      assert r[..|r| - 1] == DecimalString(n / 10);
      r
  }

  /** A leading run of white space is skipped entirely. */
  lemma {:induction false} TrimStartSkips(ws: string, s: string)
    requires forall i :: 0 <= i < |ws| ==> IsStrWhiteSpace(ws[i])
    requires s == [] || !IsStrWhiteSpace(s[0])
    ensures TrimStart(ws + s) == s
  {
    if ws != [] {
      assert (ws + s)[1..] == ws[1..] + s;
      TrimStartSkips(ws[1..], s);
    }
  }

  /** The digit run of `p + rest` is exactly `p` when `rest` does not start
      with a digit. */
  lemma {:induction false} DigitPrefixOfDigits(p: string, rest: string, radix: Radix)
    requires forall i :: 0 <= i < |p| ==> IsDigit(p[i], radix)
    requires rest == [] || !IsDigit(rest[0], radix)
    ensures DigitPrefixLength(p + rest, radix) == |p|
  {
    if p != [] {
      assert (p + rest)[1..] == p[1..] + rest;
      DigitPrefixOfDigits(p[1..], rest, radix);
    }
  }

  /** True when `d` is a non-empty run of decimal digits. */
  predicate IsDecimalRun(d: string) {
    d != [] && forall i :: 0 <= i < |d| ==> IsDigit(d[i], Decimal)
  }

  /** What may follow a decimal run `d` without extending it: nothing, or a
      character that is not a digit and, after a lone `0`, not an `x` or
      `X` that would make a hex prefix. */
  predicate EndsRun(d: string, rest: string) {
    rest == [] || (!IsDigit(rest[0], Decimal) && (d != "0" || (rest[0] != 'x' && rest[0] != 'X')))
  }

  /** Any run of decimal digits, leading zeros included, after white space
      and an optional sign and followed by anything that does not extend
      it, parses to the value of the run with that sign. */
  lemma ParseIntOfDecimal(ws: string, sign: string, d: string, n: nat, rest: string)
    requires forall i :: 0 <= i < |ws| ==> IsStrWhiteSpace(ws[i])
    requires sign == "" || sign == "+" || sign == "-"
    requires IsDecimalRun(d) && n == DigitsValue(d, Decimal)
    requires EndsRun(d, rest)
    ensures ParseInt(ws + (sign + (d + rest))) == Int(if sign == "-" then -(n as int) else n)
  {
    var tail := sign + (d + rest);
    SignedDecimal(sign, d, rest, n);
    TrimStartSkips(ws, tail);
  }

  lemma SignedDecimal(sign: string, d: string, rest: string, n: nat)
    requires sign == "" || sign == "+" || sign == "-"
    requires IsDecimalRun(d) && n == DigitsValue(d, Decimal)
    requires EndsRun(d, rest)
    ensures var tail := sign + (d + rest);
      tail != [] && !IsStrWhiteSpace(tail[0]) && SignedValue(tail) == Int(if sign == "-" then -(n as int) else n)
  {
    DigitIsNoSign(d[0], Decimal);
    var unsigned := d + rest;
    assert unsigned[0] == d[0];
    var tail := sign + unsigned;
    assert tail[0] == if sign == "" then d[0] else sign[0];
    UnsignedOfDecimal(d, rest, n);
    SignedValueOf(sign, unsigned, n);
  }

  /** An optional sign in front of an unsigned numeral negates its value
      exactly when it is `-`. */
  lemma SignedValueOf(sign: string, unsigned: string, v: nat)
    requires sign == "" || sign == "+" || sign == "-"
    requires unsigned != [] && unsigned[0] != '+' && unsigned[0] != '-'
    requires UnsignedValue(unsigned) == Some(v)
    ensures SignedValue(sign + unsigned) == Int(if sign == "-" then -(v as int) else v)
  {
    if sign == "" {
      assert sign + unsigned == unsigned;
    } else {
      assert (sign + unsigned)[1..] == unsigned;
    }
  }

  lemma UnsignedOfDecimal(d: string, rest: string, n: nat)
    requires IsDecimalRun(d) && n == DigitsValue(d, Decimal)
    requires EndsRun(d, rest)
    ensures UnsignedValue(d + rest) == Some(n)
  {
    var unsigned := d + rest;
    assert !HasHexPrefix(unsigned) by {
      if |d| >= 2 {
        assert unsigned[1] == d[1];
      } else if rest != [] {
        assert unsigned[0] == d[0];
        assert unsigned[1] == rest[0];
      }
    }
    DigitPrefixOfDigits(d, rest, Decimal);
    assert unsigned[..|d|] == d;
    assert DigitRun(unsigned, Decimal) == Some(DigitsValue(d, Decimal));
  }

  /** True when `p` is the hexadecimal prefix `0x` or `0X`. */
  predicate IsHexPrefix(p: string) {
    p == "0x" || p == "0X"
  }

  lemma UnsignedOfHex(p: string, h: string, n: nat, rest: string)
    requires IsHexPrefix(p)
    requires h != [] && (forall i :: 0 <= i < |h| ==> IsDigit(h[i], Hex)) && n == DigitsValue(h, Hex)
    requires rest == [] || !IsDigit(rest[0], Hex)
    ensures UnsignedValue(p + (h + rest)) == Some(n)
  {
    var u := p + (h + rest);
    assert HasHexPrefix(u);
    assert u[2..] == h + rest;
    DigitPrefixOfDigits(h, rest, Hex);
    assert (h + rest)[..|h|] == h;
  }

  /** After white space and an optional sign, `0x` or `0X` and a run of
      hexadecimal digits, followed by anything that does not extend the run,
      parse to the run's value in radix 16 with that sign. */
  lemma ParseIntOfHex(ws: string, sign: string, p: string, h: string, n: nat, rest: string)
    requires forall i :: 0 <= i < |ws| ==> IsStrWhiteSpace(ws[i])
    requires sign == "" || sign == "+" || sign == "-"
    requires IsHexPrefix(p)
    requires h != [] && (forall i :: 0 <= i < |h| ==> IsDigit(h[i], Hex)) && n == DigitsValue(h, Hex)
    requires rest == [] || !IsDigit(rest[0], Hex)
    ensures ParseInt(ws + (sign + (p + (h + rest)))) == Int(if sign == "-" then -(n as int) else n)
  {
    var u := p + (h + rest);
    UnsignedOfHex(p, h, n, rest);
    SignedNumeral(sign, u);
    SignedValueOf(sign, u, n);
    TrimStartSkips(ws, sign + u);
  }

  /** A sign in front of a string that starts with `0` starts with neither
      white space nor a second sign. */
  lemma SignedNumeral(sign: string, u: string)
    requires sign == "" || sign == "+" || sign == "-"
    requires u != [] && u[0] == '0'
    ensures var tail := sign + u;
      tail != [] && !IsStrWhiteSpace(tail[0])
      && (if tail[0] == '+' || tail[0] == '-' then tail[1..] == u else tail == u)
  {
    var tail := sign + u;
    if sign == "" {
      assert tail == u;
    } else {
      assert tail[0] == sign[0];
      assert tail[1..] == u;
    }
  }

  /** A hexadecimal prefix with no hexadecimal digit after it (`"0x"`,
      `"0xg"`) does not parse: the `0` is not read on its own. */
  lemma EmptyHexIsNaN(ws: string, sign: string, p: string, rest: string)
    requires forall i :: 0 <= i < |ws| ==> IsStrWhiteSpace(ws[i])
    requires sign == "" || sign == "+" || sign == "-"
    requires IsHexPrefix(p)
    requires rest == [] || !IsDigit(rest[0], Hex)
    ensures ParseInt(ws + (sign + (p + rest))) == NaN
  {
    var u := p + rest;
    assert UnsignedValue(u) == None by {
      assert HasHexPrefix(u) && u[2..] == rest;
    }
    SignedNumeral(sign, u);
    TrimStartSkips(ws, sign + u);
  }

  /** The unsigned part of `s` after white space: what follows one optional
      sign. */
  function UnsignedPart(s: string): (u: string)
    ensures |u| <= |s| && u == s[|s| - |u|..]
  {
    var t := TrimStart(s);
    if t != [] && (t[0] == '+' || t[0] == '-') then t[1..] else t
  }

  /** A string whose unsigned part is empty or starts with no decimal digit
      (`".5"`, `"-.5"`, `"+"`, `"x1"`) does not parse. */
  lemma NotNumeralIsNaN(s: string)
    requires UnsignedPart(s) == [] || !IsDigit(UnsignedPart(s)[0], Decimal)
    ensures ParseInt(s) == NaN
  {
    var u := UnsignedPart(s);
    if u != [] {
      assert !HasHexPrefix(u);
    }
  }

  predicate NoDecimalDigit(s: string) {
    forall i :: 0 <= i < |s| ==> !IsDigit(s[i], Decimal)
  }

  lemma NoDecimalDigitSuffix(s: string, k: nat)
    requires NoDecimalDigit(s) && k <= |s|
    ensures NoDecimalDigit(s[k..])
  {
    forall i | 0 <= i < |s| - k
      ensures !IsDigit(s[k..][i], Decimal)
    {
      assert s[k..][i] == s[k + i];
    }
  }

  /** Without a sign or hex prefix to skip, a string that starts with no
      digit has no unsigned value. */
  lemma UnsignedValueOfNoDigit(u: string)
    requires NoDecimalDigit(u)
    ensures UnsignedValue(u) == None
  {
    if u != [] {
      assert !IsDigit(u[0], Decimal);
      assert !HasHexPrefix(u);
    }
  }

  /** A string with no decimal digit in it does not parse. */
  lemma NoDigitIsNaN(s: string)
    requires NoDecimalDigit(s)
    ensures ParseInt(s) == NaN
  {
    var t := TrimStart(s);
    NoDecimalDigitSuffix(s, |s| - |t|);
    if t != [] && (t[0] == '+' || t[0] == '-') {
      NoDecimalDigitSuffix(t, 1);
      UnsignedValueOfNoDigit(t[1..]);
    } else {
      UnsignedValueOfNoDigit(t);
    }
  }

  /** A `0x` or `0X` prefix switches to hexadecimal: `"0x1F"` is 31. */
  lemma HexPrefixExample()
    ensures ParseInt("0x1F") == Int(31)
  {
    assert DigitRun("1F", Hex) == Some(31) by {
      assert "1F"[1..] == "F";
      assert DigitPrefixLength("1F", Hex) == 2;
      assert "1F"[..2] == "1F";
      assert "1F"[..1] == "1";
      assert "1"[..0] == "";
      assert DigitsValue("1", Hex) == 1;
      assert DigitValue('F') == 15;
      assert DigitsValue("1F", Hex) == 31;
    }
    assert UnsignedValue("0x1F") == Some(31) by {
      assert HasHexPrefix("0x1F");
      assert "0x1F"[2..] == "1F";
    }
    assert TrimStart("0x1F") == "0x1F" by {
      assert !IsStrWhiteSpace('0');
    }
  }
}
