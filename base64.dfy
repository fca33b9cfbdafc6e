/** The arithmetic of base64 (section 4 of RFC 4648): the 64-character
    alphabet and the packing of three 8-bit bytes into four 6-bit values. */
module Base64Digits {

  /** Every code point fits in one byte: the strings `btoa` accepts. */
  predicate IsLatin1(s: string) {
    forall i :: 0 <= i < |s| ==> s[i] as int < 256
  }

  /** The 64 characters of the base64 alphabet (RFC 4648, table 1). */
  predicate IsAlphabetChar(c: char) {
    'A' <= c <= 'Z' || 'a' <= c <= 'z' || '0' <= c <= '9' || c == '+' || c == '/'
  }

  predicate AllAlphabet(s: string) {
    forall i :: 0 <= i < |s| ==> IsAlphabetChar(s[i])
  }

  /** The value a base64 character stands for. */
  function SextetValue(c: char): (v: int)
    requires IsAlphabetChar(c)
    ensures 0 <= v < 64
  {
    if 'A' <= c <= 'Z' then c as int - 'A' as int
    else if 'a' <= c <= 'z' then c as int - 'a' as int + 26
    else if '0' <= c <= '9' then c as int - '0' as int + 52
    else if c == '+' then 62
    else 63
  }

  /** The base64 character for a 6-bit value; `SextetValue` undoes it. */
  function SextetChar(v: int): (c: char)
    requires 0 <= v < 64
    ensures IsAlphabetChar(c) && SextetValue(c) == v
  {
    if v < 26 then (v + 'A' as int) as char
    else if v < 52 then (v - 26 + 'a' as int) as char
    else if v < 62 then (v - 52 + '0' as int) as char
    else if v == 62 then '+'
    else '/'
  }

  // Three bytes b0 b1 b2 travel as four sextets:
  //   b0[7..2] | b0[1..0] b1[7..4] | b1[3..0] b2[7..6] | b2[5..0]

  function Sextet0(b0: int): (v: int)
    requires 0 <= b0 < 256
    ensures 0 <= v < 64
  { b0 / 4 }
  function Sextet1(b0: int, b1: int): (v: int)
    requires 0 <= b0 < 256 && 0 <= b1 < 256
    ensures 0 <= v < 64
  { b0 % 4 * 16 + b1 / 16 }
  function Sextet2(b1: int, b2: int): (v: int)
    requires 0 <= b1 < 256 && 0 <= b2 < 256
    ensures 0 <= v < 64
  { b1 % 16 * 4 + b2 / 64 }
  function Sextet3(b2: int): (v: int)
    requires 0 <= b2 < 256
    ensures 0 <= v < 64
  { b2 % 64 }

  function Byte0(v0: int, v1: int): (b: int)
    requires 0 <= v0 < 64 && 0 <= v1 < 64
    ensures 0 <= b < 256
  { v0 * 4 + v1 / 16 }
  function Byte1(v1: int, v2: int): (b: int)
    requires 0 <= v1 < 64 && 0 <= v2 < 64
    ensures 0 <= b < 256
  { v1 % 16 * 16 + v2 / 4 }
  function Byte2(v2: int, v3: int): (b: int)
    requires 0 <= v2 < 64 && 0 <= v3 < 64
    ensures 0 <= b < 256
  { v2 % 4 * 64 + v3 }

  /** Each byte comes back from the two sextets that hold its bits. */
  lemma ByteArithmetic(b0: int, b1: int, b2: int)
    requires 0 <= b0 < 256 && 0 <= b1 < 256 && 0 <= b2 < 256
    ensures Byte0(Sextet0(b0), Sextet1(b0, b1)) == b0
    ensures Byte1(Sextet1(b0, b1), Sextet2(b1, b2)) == b1
    ensures Byte2(Sextet2(b1, b2), Sextet3(b2)) == b2
  {
  }

  /** The four characters for three bytes. */
  function EncodeTriple(b0: int, b1: int, b2: int): (r: string)
    requires 0 <= b0 < 256 && 0 <= b1 < 256 && 0 <= b2 < 256
    ensures |r| == 4 && AllAlphabet(r)
  {
    [SextetChar(Sextet0(b0)), SextetChar(Sextet1(b0, b1)),
     SextetChar(Sextet2(b1, b2)), SextetChar(Sextet3(b2))]
  }

  /** The three bytes whose bits four characters carry. */
  function DecodeQuad(c0: char, c1: char, c2: char, c3: char): (r: string)
    requires IsAlphabetChar(c0) && IsAlphabetChar(c1) && IsAlphabetChar(c2) && IsAlphabetChar(c3)
    ensures |r| == 3 && IsLatin1(r)
  {
    var v0, v1, v2, v3 := SextetValue(c0), SextetValue(c1), SextetValue(c2), SextetValue(c3);
    [Byte0(v0, v1) as char, Byte1(v1, v2) as char, Byte2(v2, v3) as char]
  }

  /** The sextet values carried by the characters of an encoded group. */
  lemma EncodeTripleValues(b0: int, b1: int, b2: int)
    requires 0 <= b0 < 256 && 0 <= b1 < 256 && 0 <= b2 < 256
    ensures var e := EncodeTriple(b0, b1, b2);
      && SextetValue(e[0]) == Sextet0(b0) && SextetValue(e[1]) == Sextet1(b0, b1)
      && SextetValue(e[2]) == Sextet2(b1, b2) && SextetValue(e[3]) == Sextet3(b2)
  {
  }

  /** Decoding an encoded group gives back its bytes; the first byte needs
      only the first two characters, the second only the first three. */
  lemma TripleRoundTrip(b0: int, b1: int, b2: int)
    requires 0 <= b0 < 256 && 0 <= b1 < 256 && 0 <= b2 < 256
    ensures var e := EncodeTriple(b0, b1, b2);
      && DecodeQuad(e[0], e[1], e[2], e[3]) == [b0 as char, b1 as char, b2 as char]
      && DecodeQuad(e[0], e[1], 'A', 'A')[..1] == [b0 as char]
      && DecodeQuad(e[0], e[1], e[2], 'A')[..2] == [b0 as char, b1 as char]
  {
    EncodeTripleValues(b0, b1, b2);
    ByteArithmetic(b0, b1, b2);
  }

  /** A string is the characters of its own code points. */
  lemma CharsOfCodes(s: string)
    requires |s| >= 1
    ensures |s| == 1 ==> [(s[0] as int) as char] == s
    ensures |s| == 2 ==> [(s[0] as int) as char, (s[1] as int) as char] == s
    ensures |s| >= 3 ==> [(s[0] as int) as char, (s[1] as int) as char, (s[2] as int) as char] == s[..3]
  {
  }
}

/** The browser's `btoa` and `atob`: padded base64 as in section 4 of
    RFC 4648, with `atob` following the "forgiving-base64 decode" algorithm
    of the WHATWG Infra standard. Strings are sequences of code points; a
    code point above U+00FF makes `btoa` throw, and `atob` throws on input it
    cannot decode (both modelled as `None`). */
module Base64 {
  import opened Wrappers
  import opened Base64Digits

  /** Base64 without the trailing `=` padding: four characters per three
      bytes, then two characters for one leftover byte or three for two. */
  function EncodeGroups(s: string): (r: string)
    requires IsLatin1(s)
    ensures AllAlphabet(r) && (|r| == 0 <==> |s| == 0)
    decreases |s|
  {
    if |s| == 0 then ""
    else if |s| == 1 then EncodeTriple(s[0] as int, 0, 0)[..2]
    else if |s| == 2 then EncodeTriple(s[0] as int, s[1] as int, 0)[..3]
    else EncodeTriple(s[0] as int, s[1] as int, s[2] as int) + EncodeGroups(s[3..])
  }

  /** The `=` characters that bring the encoding to a multiple of four. */
  function Padding(leftover: nat): string
    requires leftover < 3
  {
    [[], "==", "="][leftover]
  }

  /** Padded base64 of a Latin-1 string. */
  function Encode(s: string): string
    requires IsLatin1(s)
  {
    EncodeGroups(s) + Padding(|s| % 3)
  }

  /** `btoa(s)`: throws (here `None`) when a code point is above U+00FF. */
  function Btoa(s: string): (r: Option<string>)
    ensures r.Some? <==> IsLatin1(s)
  {
    if IsLatin1(s) then Some(Encode(s)) else None
  }

  /** ASCII whitespace in the sense of the WHATWG Infra standard:
      TAB, LF, FF, CR and SPACE. */
  predicate IsAsciiWhitespace(c: char) {
    c == '\t' || c == '\n' || c as int == 0x0C || c == '\r' || c == ' '
  }

  function RemoveWhitespace(s: string): (r: string)
    ensures |r| <= |s|
    ensures forall i :: 0 <= i < |r| ==> !IsAsciiWhitespace(r[i])
  {
    if s == [] then []
    else if IsAsciiWhitespace(s[0]) then RemoveWhitespace(s[1..])
    else [s[0]] + RemoveWhitespace(s[1..])
  }

  /** When the length is a multiple of four, drop one or two trailing `=`. */
  function StripPadding(s: string): string {
    if |s| % 4 == 0 && |s| >= 2 && s[|s| - 2..] == "==" then s[..|s| - 2]
    else if |s| % 4 == 0 && |s| >= 1 && s[|s| - 1] == '=' then s[..|s| - 1]
    else s
  }

  /** Three bytes per four characters; a tail of two or three characters
      yields one or two bytes, and the bits beyond them are discarded. */
  function DecodeGroups(t: string): (r: string)
    requires AllAlphabet(t)
    ensures IsLatin1(r)
    decreases |t|
  {
    if |t| <= 1 then ""
    else if |t| == 2 then DecodeQuad(t[0], t[1], 'A', 'A')[..1]
    else if |t| == 3 then DecodeQuad(t[0], t[1], t[2], 'A')[..2]
    else DecodeQuad(t[0], t[1], t[2], t[3]) + DecodeGroups(t[4..])
  }

  /** `atob(s)`: throws (here `None`) when, after whitespace and padding are
      removed, the length leaves remainder 1 modulo 4 or a character is
      outside the alphabet. */
  function Atob(s: string): (r: Option<string>)
    ensures r.Some? ==> IsLatin1(r.value)
  {
    var t := StripPadding(RemoveWhitespace(s));
    if |t| % 4 == 1 || !AllAlphabet(t) then None
    else Some(DecodeGroups(t))
  }

  /** A full group in front adds four characters. */
  lemma EncodeGroupsStep(s: string)
    requires IsLatin1(s) && |s| > 2
    ensures EncodeGroups(s) == EncodeTriple(s[0] as int, s[1] as int, s[2] as int) + EncodeGroups(s[3..])
    ensures |EncodeGroups(s)| == 4 + |EncodeGroups(s[3..])|
  {
  }

  /** `q` full groups and a tail of `k` bytes take `4 * q` characters and
      two or three more. */
  lemma {:induction false} EncodeGroupsLength(s: string, q: nat, k: nat)
    requires IsLatin1(s) && k < 3 && |s| == 3 * q + k
    ensures |EncodeGroups(s)| == 4 * q + (if k == 0 then 0 else k + 1)
    decreases q
  {
    if q > 0 {
      EncodeGroupsStep(s);
      EncodeGroupsLength(s[3..], q - 1, k);
    }
  }

  lemma FourGroups(n: int, q: nat, c: nat)
    requires c < 4 && n == 4 * q + c
    ensures n % 4 == c
  {
  }

  /** Padded output is a whole number of four-character groups. */
  lemma EncodeLength(s: string)
    requires IsLatin1(s)
    ensures |Encode(s)| % 4 == 0
    ensures |EncodeGroups(s)| % 4 != 1
  {
    var q, k := |s| / 3, |s| % 3;
    var g := |EncodeGroups(s)|;
    EncodeGroupsLength(s, q, k);
    assert |Encode(s)| == g + |Padding(k)|;
    if k == 0 {
      FourGroups(g, q, 0);
    } else {
      assert |Padding(k)| == 3 - k;
      FourGroups(|Encode(s)|, q + 1, 0);
      FourGroups(g, q, k + 1);
    }
  }

  lemma EncodeGroupsShort(s: string)
    requires IsLatin1(s) && 1 <= |s| <= 2
    ensures var b1 := if |s| == 2 then s[1] as int else 0;
      EncodeGroups(s) == EncodeTriple(s[0] as int, b1, 0)[..|s| + 1]
  {
  }

  lemma DecodeGroupsShort(t: string)
    requires AllAlphabet(t) && 2 <= |t| <= 3
    ensures DecodeGroups(t) == if |t| == 2 then DecodeQuad(t[0], t[1], 'A', 'A')[..1]
                               else DecodeQuad(t[0], t[1], t[2], 'A')[..2]
  {
  }

  lemma DecodeGroupsStep(t: string)
    requires AllAlphabet(t) && |t| >= 4
    ensures AllAlphabet(t[4..])
    ensures DecodeGroups(t) == DecodeQuad(t[0], t[1], t[2], t[3]) + DecodeGroups(t[4..])
  {
    var r := t[4..];
    forall i | 0 <= i < |r| ensures IsAlphabetChar(r[i]) {
      assert r[i] == t[i + 4];
    }
  }

  /** A tail of one or two bytes decodes back. */
  lemma DecodeEncodeTail(s: string)
    requires IsLatin1(s) && 1 <= |s| <= 2
    ensures DecodeGroups(EncodeGroups(s)) == s
  {
    var b1 := if |s| == 2 then s[1] as int else 0;
    var e := EncodeTriple(s[0] as int, b1, 0)[..|s| + 1];
    EncodeGroupsShort(s);
    DecodeGroupsShort(e);
    TripleRoundTrip(s[0] as int, b1, 0);
    CharsOfCodes(s);
  }

  /** The first full group decodes to the first three bytes. */
  lemma DecodeEncodeHead(s: string)
    requires IsLatin1(s) && |s| > 2
    ensures DecodeGroups(EncodeGroups(s)) == s[..3] + DecodeGroups(EncodeGroups(s[3..]))
  {
    var g := EncodeTriple(s[0] as int, s[1] as int, s[2] as int);
    var rest := EncodeGroups(s[3..]);
    var e := g + rest;
    EncodeGroupsStep(s);
    DecodeGroupsStep(e);
    TripleRoundTrip(s[0] as int, s[1] as int, s[2] as int);
    CharsOfCodes(s);
    assert e[0] == g[0] && e[1] == g[1] && e[2] == g[2] && e[3] == g[3];
    assert e[4..] == rest;
  }

  lemma {:induction false} DecodeEncodeGroups(s: string)
    requires IsLatin1(s)
    ensures DecodeGroups(EncodeGroups(s)) == s
    decreases |s|
  {
    if 1 <= |s| <= 2 {
      DecodeEncodeTail(s);
    } else if |s| > 2 {
      DecodeEncodeHead(s);
      DecodeEncodeGroups(s[3..]);
      assert s == s[..3] + s[3..];
    }
  }

  lemma {:induction false} RemoveWhitespaceNoop(s: string)
    requires forall i :: 0 <= i < |s| ==> !IsAsciiWhitespace(s[i])
    ensures RemoveWhitespace(s) == s
  {
    if s != [] {
      RemoveWhitespaceNoop(s[1..]);
    }
  }

  lemma StripPaddingOfEncode(s: string)
    requires IsLatin1(s)
    ensures StripPadding(Encode(s)) == EncodeGroups(s)
  {
    var g := EncodeGroups(s);
    var e := Encode(s);
    EncodeLength(s);
    if |s| % 3 == 0 {
      assert e == g;
      if |g| > 0 {
        assert IsAlphabetChar(g[|g| - 1]);
        assert g[|g| - 2..][1] == g[|g| - 1];
      }
    } else if |s| % 3 == 1 {
      assert e[|e| - 2..] == "==";
      assert e[..|e| - 2] == g;
    } else {
      assert IsAlphabetChar(g[|g| - 1]);
      assert e[|e| - 2..][0] == g[|g| - 1];
      assert e[..|e| - 1] == g;
    }
  }

  /** `atob(btoa(s)) == s` for every string `btoa` accepts. */
  lemma RoundTrip(s: string)
    requires IsLatin1(s)
    ensures Btoa(s).Some? && Atob(Btoa(s).value) == Some(s)
  {
    var e := Encode(s);
    forall i | 0 <= i < |e| ensures !IsAsciiWhitespace(e[i]) {
      if i < |EncodeGroups(s)| {
        assert IsAlphabetChar(e[i]);
      } else {
        assert e[i] == '=';
      }
    }
    RemoveWhitespaceNoop(e);
    StripPaddingOfEncode(s);
    EncodeLength(s);
    DecodeEncodeGroups(s);
  }

  /** `atob` throws on any string holding a character that is neither in the
      alphabet, nor `=`, nor ASCII whitespace, such as the `-` of a key. */
  lemma ForeignCharacterFails(s: string, i: nat)
    requires i < |s|
    requires !IsAlphabetChar(s[i]) && s[i] != '=' && !IsAsciiWhitespace(s[i])
    ensures Atob(s) == None
  {
    ForeignCharacterSurvives(s, i);
    var w := RemoveWhitespace(s);
    var j :| 0 <= j < |w| && w[j] == s[i];
    var t := StripPadding(w);
    // only `=` characters are ever stripped, so the character survives
    assert j < |t|;
    assert t[j] == s[i];
  }

  lemma {:induction false} ForeignCharacterSurvives(s: string, i: nat)
    requires i < |s| && !IsAsciiWhitespace(s[i])
    ensures exists j :: 0 <= j < |RemoveWhitespace(s)| && RemoveWhitespace(s)[j] == s[i]
  {
    if i == 0 {
      assert RemoveWhitespace(s)[0] == s[0];
    } else {
      ForeignCharacterSurvives(s[1..], i - 1);
      var r := RemoveWhitespace(s[1..]);
      var j :| 0 <= j < |r| && r[j] == s[1..][i - 1];
      if IsAsciiWhitespace(s[0]) {
        assert RemoveWhitespace(s)[j] == s[i];
      } else {
        assert RemoveWhitespace(s)[j + 1] == s[i];
      }
    }
  }

  /** Decoding yields fewer characters than it reads, unless it reads none. */
  lemma {:induction false} DecodeGroupsShorter(t: string)
    requires AllAlphabet(t)
    ensures |DecodeGroups(t)| < |t| || t == []
    decreases |t|
  {
    if |t| >= 4 {
      DecodeGroupsStep(t);
      DecodeGroupsShorter(t[4..]);
    }
  }

  /** `atob` of a non-empty string is strictly shorter than it: no
      non-empty string decodes to itself. */
  lemma AtobShrinks(s: string)
    requires s != [] && Atob(s).Some?
    ensures |Atob(s).value| < |s|
  {
    var t := StripPadding(RemoveWhitespace(s));
    assert |t| <= |RemoveWhitespace(s)|;
    DecodeGroupsShorter(t);
  }
}
