/** Decimal and hexadecimal text, as the kernel writes it and the decoder reads it.
    A string is a sequence of bytes, each a char below 256. */
module Numerals {
  import opened Records

  const MAX_INT: int := 0x7FFF_FFFF_FFFF_FFFF

  // ---------- decimal ----------

  predicate IsDigit(c: char) { '0' <= c <= '9' }

  predicate AllDigits(s: string) { forall i :: 0 <= i < |s| ==> IsDigit(s[i]) }

  function Digit(c: char): nat
    requires IsDigit(c)
  {
    c as int - '0' as int
  }

  function DigitChar(d: nat): (c: char)
    requires d < 10
    ensures IsDigit(c) && Digit(c) == d
  {
    (d + '0' as int) as char
  }

  function Value(s: string): nat
    requires AllDigits(s)
  {
    if s == "" then 0 else 10 * Value(s[..|s| - 1]) + Digit(s[|s| - 1])
  }

  /** The decimal numeral of `n`. */
  function Itoa(n: nat): (s: string)
    ensures s != "" && AllDigits(s)
  {
    if n < 10 then [DigitChar(n)] else Itoa(n / 10) + [DigitChar(n % 10)]
  }

  lemma {:induction false} ItoaValue(n: nat)
    ensures Value(Itoa(n)) == n
  {
    if n >= 10 {
      ItoaValue(n / 10);
      assert Itoa(n)[..|Itoa(n)| - 1] == Itoa(n / 10);
    } else {
      assert Itoa(n)[..0] == "";
    }
  }

  /** An optional sign and digits, within the range of a 64-bit integer. */
  function Atoi(s: string): Option<int> {
    if s == "" then None
    else
      var signed := s[0] == '+' || s[0] == '-';
      var digits := if signed then s[1..] else s;
      if digits == "" || !AllDigits(digits) then None
      else
        var v := if s[0] == '-' then -(Value(digits) as int) else Value(digits);
        if -MAX_INT - 1 <= v <= MAX_INT then Some(v) else None
  }

  lemma AtoiOfItoa(n: nat)
    requires n <= MAX_INT
    ensures Atoi(Itoa(n)) == Some(n)
  {
    ItoaValue(n);
    assert IsDigit(Itoa(n)[0]);
  }

  lemma LeadingZero(s: string)
    requires AllDigits(s)
    ensures AllDigits("0" + s) && Value("0" + s) == Value(s)
  {
    if s == "" {
      assert ("0" + s)[..0] == "";
    } else {
      LeadingZero(s[..|s| - 1]);
      assert ("0" + s)[..|s|] == "0" + s[..|s| - 1];
    }
  }

  /** The text is an optional sign and digits, and this is its number. */
  predicate Numeral(sign: string, digits: string, v: int) {
    && (sign == "" || sign == "+" || sign == "-") && digits != "" && AllDigits(digits)
    && v == if sign == "-" then -(Value(digits) as int) else Value(digits)
  }

  lemma SignedIsRead(sign: string, digits: string, v: int)
    requires Numeral(sign, digits, v)
    ensures Atoi(sign + digits) == if -MAX_INT - 1 <= v <= MAX_INT then Some(v) else None
  {
    assert (sign + digits)[|sign|..] == digits;
    if sign == "" { assert IsDigit(digits[0]); }
  }

  /** The theorem: what reads as `v` is a numeral of it within 64 bits, and anything
      else reads as no number. */
  lemma AtoiIsExact(s: string, v: int)
    ensures Atoi(s) == Some(v) <==>
      && -0x8000_0000_0000_0000 <= v <= 0x7FFF_FFFF_FFFF_FFFF
      && exists sign, digits :: Numeral(sign, digits, v) && s == sign + digits
  {
    if Atoi(s) == Some(v) {
      var sign := if s[0] == '+' || s[0] == '-' then [s[0]] else "";
      assert Numeral(sign, s[|sign|..], v) && s == sign + s[|sign|..];
    } else if sign, digits :| Numeral(sign, digits, v) && s == sign + digits {
      SignedIsRead(sign, digits, v);
    }
  }

  // ---------- hexadecimal ----------

  function HexValue(c: char): (v: Option<nat>)
    ensures v.Some? ==> v.value < 16
  {
    if '0' <= c <= '9' then Some(c as int - '0' as int)
    else if 'a' <= c <= 'f' then Some(c as int - 'a' as int + 10)
    else if 'A' <= c <= 'F' then Some(c as int - 'A' as int + 10)
    else None
  }

  /** Pairs of hexadecimal digits of either case; anything else is malformed. */
  function HexDecode(s: string): Option<string> {
    if s == "" then Some("")
    else if |s| == 1 then None
    else
      var high, low, rest := HexValue(s[0]), HexValue(s[1]), HexDecode(s[2..]);
      if high.None? || low.None? || rest.None? then None
      else Some([(16 * high.value + low.value) as char] + rest.value)
  }

  predicate Bytes(s: string) { forall i :: 0 <= i < |s| ==> s[i] as int < 256 }

  function HexDigit(v: nat): (c: char)
    requires v < 16
    ensures HexValue(c) == Some(v)
  {
    if v < 10 then (v + '0' as int) as char else (v - 10 + 'A' as int) as char
  }

  function HexEncode(s: string): string
    requires Bytes(s)
  {
    if s == "" then "" else [HexDigit(s[0] as int / 16), HexDigit(s[0] as int % 16)] + HexEncode(s[1..])
  }

  lemma {:induction false} HexRoundTrip(s: string)
    requires Bytes(s)
    ensures HexDecode(HexEncode(s)) == Some(s)
    ensures |HexEncode(s)| == 2 * |s|
  {
    if s != "" {
      HexRoundTrip(s[1..]);
      var e, b := HexEncode(s), s[0] as int;
      assert e[2..] == HexEncode(s[1..]);
      assert HexValue(e[0]) == Some(b / 16) && HexValue(e[1]) == Some(b % 16);
      assert (16 * (b / 16) + b % 16) as char == s[0];
      assert [s[0]] + s[1..] == s;
    }
  }

  predicate IsHexDigit(c: char) {
    '0' <= c <= '9' || 'a' <= c <= 'f' || 'A' <= c <= 'F'
  }

  /** What decodes is an even number of hexadecimal digits, two for each character. */
  lemma {:induction false} HexTextDecodes(s: string)
    ensures HexDecode(s).Some? <==> |s| % 2 == 0 && forall i :: 0 <= i < |s| ==> IsHexDigit(s[i])
    ensures HexDecode(s).Some? ==> 2 * |HexDecode(s).value| == |s|
  {
    if |s| >= 2 {
      var rest := s[2..];
      HexTextDecodes(rest);
      assert forall i :: 2 <= i < |s| ==> s[i] == rest[i - 2];
      assert forall i :: 0 <= i < |rest| ==> rest[i] == s[i + 2];
    }
  }

  /** The lower-case form of a hexadecimal digit. */
  function Lower(c: char): char {
    if 'A' <= c <= 'F' then (c as int + 32) as char else c
  }

  lemma {:induction false} HexIgnoresCase(s: string, t: string)
    requires |s| == |t| && forall i :: 0 <= i < |s| ==> Lower(s[i]) == Lower(t[i])
    ensures HexDecode(s) == HexDecode(t)
  {
    if |s| >= 2 {
      HexIgnoresCase(s[2..], t[2..]);
      assert HexValue(s[0]) == HexValue(t[0]) && HexValue(s[1]) == HexValue(t[1]);
    }
  }

  /** The text is the hexadecimal form of the bytes, in either case. */
  predicate HexSpells(s: string, t: string) {
    && Bytes(t) && |s| == |HexEncode(t)|
    && forall i :: 0 <= i < |s| ==> Lower(s[i]) == Lower(HexEncode(t)[i])
  }

  lemma PairIsSpelled(s: string, t: string)
    requires |s| >= 2 && t != "" && HexSpells(s[2..], t[1..]) && HexValue(s[0]).Some? && HexValue(s[1]).Some?
    requires t[0] as int == 16 * HexValue(s[0]).value + HexValue(s[1]).value
    ensures HexSpells(s, t)
  {
    var rest, e := s[2..], HexEncode(t);
    assert Bytes(t) by { assert forall i :: 1 <= i < |t| ==> t[i] == t[1..][i - 1]; }
    assert e == [HexDigit(HexValue(s[0]).value), HexDigit(HexValue(s[1]).value)] + HexEncode(t[1..]);
    forall i | 0 <= i < |s| ensures Lower(s[i]) == Lower(e[i]) {
      if i >= 2 { assert s[i] == rest[i - 2] && e[i] == HexEncode(t[1..])[i - 2]; }
    }
  }

  /** The theorem: text decodes to exactly the bytes that it spells. */
  lemma {:induction false} HexIsExact(s: string, t: string)
    ensures HexDecode(s) == Some(t) <==> HexSpells(s, t)
  {
    if HexSpells(s, t) {
      HexIgnoresCase(s, HexEncode(t));
      HexRoundTrip(t);
    } else if HexDecode(s) == Some(t) && s != "" {
      HexIsExact(s[2..], t[1..]);
      PairIsSpelled(s, t);
    }
  }

  // ---------- UTF-8 ----------

  predicate Continuation(c: char) { 0x80 <= c as int <= 0xBF }

  /** Length of the well-formed UTF-8 sequence at the start of `s`, zero if there is none. */
  function Utf8Head(s: string): (n: nat)
    ensures n <= |s|
  {
    if s == "" then 0
    else
      var a := s[0] as int;
      if a < 0x80 then 1
      else if 0xC2 <= a <= 0xDF then (if |s| >= 2 && Continuation(s[1]) then 2 else 0)
      else if 0xE0 <= a <= 0xEF then
        if |s| >= 3 && Continuation(s[1]) && Continuation(s[2]) &&
           (a == 0xE0 ==> s[1] as int >= 0xA0) && (a == 0xED ==> s[1] as int <= 0x9F) then 3 else 0
      else if 0xF0 <= a <= 0xF4 then
        if |s| >= 4 && Continuation(s[1]) && Continuation(s[2]) && Continuation(s[3]) &&
           (a == 0xF0 ==> s[1] as int >= 0x90) && (a == 0xF4 ==> s[1] as int <= 0x8F) then 4 else 0
      else 0
  }

  predicate ValidUtf8(s: string)
    decreases |s|
  {
    s == "" || (Utf8Head(s) > 0 && ValidUtf8(s[Utf8Head(s)..]))
  }

  /** A Unicode scalar value: a code point that is no surrogate. */
  predicate Scalar(c: nat) { c < 0xD800 || 0xE000 <= c < 0x11_0000 }

  function Byte(b: nat): char
    requires b < 256
  {
    b as char
  }

  /** The UTF-8 form of one scalar, section 3 of RFC 3629. */
  function Utf8(c: nat): (s: string)
    requires Scalar(c)
    ensures s != ""
  {
    if c < 0x80 then [Byte(c)]
    else if c < 0x800 then [Byte(0xC0 + c / 64), Byte(0x80 + c % 64)]
    else if c < 0x1_0000 then [Byte(0xE0 + c / 4096), Byte(0x80 + c / 64 % 64), Byte(0x80 + c % 64)]
    else [Byte(0xF0 + c / 262144), Byte(0x80 + c / 4096 % 64), Byte(0x80 + c / 64 % 64), Byte(0x80 + c % 64)]
  }

  function Utf8Encode(cs: seq<nat>): string
    requires forall i :: 0 <= i < |cs| ==> Scalar(cs[i])
  {
    if cs == [] then "" else Utf8(cs[0]) + Utf8Encode(cs[1..])
  }

  lemma EncodedHead(c: nat, rest: string)
    requires Scalar(c)
    ensures Utf8Head(Utf8(c) + rest) == |Utf8(c)|
  {
    UnitIsHead(c);
    HeadIsLocal(Utf8(c), rest);
  }

  lemma UnitIsHead(c: nat)
    requires Scalar(c)
    ensures Utf8Head(Utf8(c)) == |Utf8(c)|
  {
    assert c / 4096 == c / 64 / 64 && c / 262144 == c / 4096 / 64;
  }

  lemma HeadIsLocal(s: string, rest: string)
    requires Utf8Head(s) == |s| > 0
    ensures Utf8Head(s + rest) == |s|
  {
  }

  /** Six more bits. */
  lemma Joined(high: nat, low: char) returns (c: nat)
    requires Continuation(low)
    ensures c / 64 == high && c % 64 == low as int - 0x80 && c == 64 * high + (low as int - 0x80)
  {
    c := 64 * high + (low as int - 0x80);
  }

  lemma ThreeBytes(s: string, high: nat, c: nat)
    requires Utf8Head(s) == 3 && c / 64 == high && high / 64 == s[0] as int - 0xE0
    requires high % 64 == s[1] as int - 0x80 && c % 64 == s[2] as int - 0x80
    ensures Scalar(c) && Utf8(c) == s[..3]
  {
    assert c / 4096 == high / 64;
    assert 0x800 <= c < 0x1_0000;
  }

  lemma FourBytes(s: string, top: nat, high: nat, c: nat)
    requires Utf8Head(s) == 4 && c / 64 == high && high / 64 == top && top / 64 == s[0] as int - 0xF0
    requires top % 64 == s[1] as int - 0x80 && high % 64 == s[2] as int - 0x80 && c % 64 == s[3] as int - 0x80
    ensures Scalar(c) && Utf8(c) == s[..4]
  {
    assert c / 4096 == top && c / 262144 == top / 64;
    assert 0x1_0000 <= c < 0x11_0000;
  }

  /** The scalar that a well-formed head encodes. */
  lemma DecodedHead(s: string) returns (c: nat)
    requires Utf8Head(s) > 0
    ensures Scalar(c) && Utf8(c) == s[..Utf8Head(s)]
  {
    var n, a := Utf8Head(s), s[0] as int;
    if n == 1 {
      c := a;
    } else if n == 2 {
      c := Joined(a - 0xC0, s[1]);
    } else if n == 3 {
      var high := Joined(a - 0xE0, s[1]);
      c := Joined(high, s[2]);
      ThreeBytes(s, high, c);
    } else {
      var top := Joined(a - 0xF0, s[1]);
      var high := Joined(top, s[2]);
      c := Joined(high, s[3]);
      FourBytes(s, top, high, c);
    }
  }

  lemma {:induction false} EncodedIsValid(cs: seq<nat>)
    requires forall i :: 0 <= i < |cs| ==> Scalar(cs[i])
    ensures ValidUtf8(Utf8Encode(cs))
  {
    if cs != [] {
      EncodedIsValid(cs[1..]);
      EncodedHead(cs[0], Utf8Encode(cs[1..]));
      assert Utf8Encode(cs)[|Utf8(cs[0])|..] == Utf8Encode(cs[1..]);
    }
  }

  lemma FirstScalar(s: string) returns (c: nat, tail: string)
    requires ValidUtf8(s) && s != ""
    ensures Scalar(c) && ValidUtf8(tail) && s == Utf8(c) + tail && |tail| < |s|
  {
    c := DecodedHead(s);
    tail := s[Utf8Head(s)..];
  }

  lemma OneMoreScalar(c: nat, cs: seq<nat>)
    requires Scalar(c) && forall i :: 0 <= i < |cs| ==> Scalar(cs[i])
    ensures var all := [c] + cs;
            (forall i :: 0 <= i < |all| ==> Scalar(all[i])) && Utf8Encode(all) == Utf8(c) + Utf8Encode(cs)
  {
    assert ([c] + cs)[1..] == cs;
  }

  lemma {:induction false} ValidDecodes(s: string) returns (cs: seq<nat>)
    requires ValidUtf8(s)
    ensures (forall i :: 0 <= i < |cs| ==> Scalar(cs[i])) && Utf8Encode(cs) == s
    decreases |s|
  {
    cs := [];
    if s != "" {
      var c, tail := FirstScalar(s);
      var rest := ValidDecodes(tail);
      cs := [c] + rest;
      OneMoreScalar(c, rest);
    }
  }

  /** The theorem: the check accepts exactly the encodings of scalar sequences. */
  lemma Utf8IsExact(s: string)
    ensures ValidUtf8(s) <==>
      exists cs: seq<nat> | forall i :: 0 <= i < |cs| ==> Scalar(cs[i]) :: Utf8Encode(cs) == s
  {
    if ValidUtf8(s) {
      var cs := ValidDecodes(s);
    }
    if cs: seq<nat> :| (forall i :: 0 <= i < |cs| ==> Scalar(cs[i])) && Utf8Encode(cs) == s {
      EncodedIsValid(cs);
    }
  }
}
