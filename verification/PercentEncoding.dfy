/** encodeURIComponent and decodeURIComponent: section 19.2.6 of ECMA-262, over UTF-8
    (section 3 of RFC 3629) and percent-encoding (section 2.1 of RFC 3986). */
module PercentEncoding {
  import opened JsText

  type Byte = b: nat | b < 256

  /** The code point of a character and back. */
  function Code(c: char): (n: nat)
    ensures n < 0x11_0000 && !(0xD800 <= n < 0xE000)
  {
    c as int
  }

  predicate IsScalar(n: nat) { n < 0x11_0000 && !(0xD800 <= n < 0xE000) }

  function CharOf(n: nat): char
    requires IsScalar(n)
  {
    n as char
  }

  function Utf8Char(c: char): (bs: seq<Byte>)
    ensures 1 <= |bs| <= 4
  {
    var n := Code(c);
    if n < 0x80 then [n]
    else if n < 0x800 then [0xC0 + n / 64, 0x80 + n % 64]
    else if n < 0x1_0000 then [0xE0 + n / 4096, 0x80 + n / 64 % 64, 0x80 + n % 64]
    else [0xF0 + n / 262144, 0x80 + n / 4096 % 64, 0x80 + n / 64 % 64, 0x80 + n % 64]
  }

  function Utf8(s: string): seq<Byte> {
    if s == "" then [] else Utf8Char(s[0]) + Utf8(s[1..])
  }

  lemma {:induction false} Utf8Append(a: string, b: string)
    ensures Utf8(a + b) == Utf8(a) + Utf8(b)
  {
    if a == "" {
      assert a + b == b;
    } else {
      assert (a + b)[1..] == a[1..] + b;
      Utf8Append(a[1..], b);
    }
  }

  // ---------- hexadecimal escapes ----------

  function HexDigit(d: nat): char
    requires d < 16
  {
    if d < 10 then '0' + d as char else 'A' + (d - 10) as char
  }

  function HexValue(c: char): (v: Option<nat>)
    ensures v.Some? ==> v.value < 16
  {
    if '0' <= c <= '9' then Some((c - '0') as nat)
    else if 'A' <= c <= 'F' then Some((c - 'A') as nat + 10)
    else if 'a' <= c <= 'f' then Some((c - 'a') as nat + 10)
    else None
  }

  lemma HexRoundTrip(d: nat)
    requires d < 16
    ensures HexValue(HexDigit(d)) == Some(d)
  {
  }

  function Escape(b: Byte): string { ['%', HexDigit(b / 16), HexDigit(b % 16)] }

  function EscapeAll(bs: seq<Byte>): string {
    if bs == [] then "" else Escape(bs[0]) + EscapeAll(bs[1..])
  }

  /** The byte escaped at position i. */
  function ReadEscape(s: string, i: nat): Option<Byte> {
    if i + 3 <= |s| && s[i] == '%' && HexValue(s[i + 1]).Some? && HexValue(s[i + 2]).Some? then
      Some(HexValue(s[i + 1]).value * 16 + HexValue(s[i + 2]).value)
    else None
  }

  // ---------- encoding ----------

  predicate Unreserved(c: char) {
    || 'a' <= c <= 'z' || 'A' <= c <= 'Z' || '0' <= c <= '9'
    || c in "-_.!~*'()"
  }

  function EncodeChar(c: char): (e: string)
    ensures e != ""
  {
    if Unreserved(c) then [c] else EscapeAll(Utf8Char(c))
  }

  function Encode(s: string): string {
    if s == "" then "" else EncodeChar(s[0]) + Encode(s[1..])
  }

  // ---------- decoding ----------

  /** The continuation bits of the byte escaped at position i, if it is one. */
  function Continuation(s: string, i: nat): (v: Option<nat>)
    ensures v.Some? ==> v.value < 64
  {
    match ReadEscape(s, i)
    case Some(b) => if 0x80 <= b < 0xC0 then Some(b - 0x80) else None
    case None => None
  }

  /** One decoded character and how many characters of s it took. */
  datatype Step = Step(c: char, used: nat)

  function Scalar(n: nat, least: nat, used: nat): Option<Step> {
    if least <= n && IsScalar(n) then Some(Step(CharOf(n), used)) else None
  }

  /** The character at the start of s; None where decodeURIComponent throws a URIError. */
  function DecodeStep(s: string): (r: Option<Step>)
    requires s != ""
    ensures r.Some? ==> 1 <= r.value.used <= |s|
  {
    if s[0] != '%' then Some(Step(s[0], 1))
    else
      match ReadEscape(s, 0)
      case None => None
      case Some(b) =>
        if b < 0x80 then Scalar(b, 0, 3)
        else if b < 0xC0 || b >= 0xF8 then None
        else
          match Continuation(s, 3)
          case None => None
          case Some(v1) =>
            if b < 0xE0 then Scalar((b - 0xC0) * 64 + v1, 0x80, 6)
            else
              match Continuation(s, 6)
              case None => None
              case Some(v2) =>
                if b < 0xF0 then Scalar((b - 0xE0) * 4096 + v1 * 64 + v2, 0x800, 9)
                else
                  match Continuation(s, 9)
                  case None => None
                  case Some(v3) => Scalar((b - 0xF0) * 262144 + v1 * 4096 + v2 * 64 + v3, 0x1_0000, 12)
  }

  function Decode(s: string): Option<string>
    decreases |s|
  {
    if s == "" then Some("")
    else
      match DecodeStep(s)
      case None => None
      case Some(step) =>
        match Decode(s[step.used..])
        case None => None
        case Some(rest) => Some([step.c] + rest)
  }

  // ---------- the round trip ----------

  lemma EscapeReads(s: string, i: nat, b: Byte)
    requires i + 3 <= |s| && s[i] == '%' && s[i + 1] == HexDigit(b / 16) && s[i + 2] == HexDigit(b % 16)
    ensures ReadEscape(s, i) == Some(b)
  {
    HexRoundTrip(b / 16);
    HexRoundTrip(b % 16);
  }

  lemma {:induction false} EscapeAllReads(bs: seq<Byte>, pre: string, rest: string, k: nat)
    requires k < |bs|
    ensures |EscapeAll(bs)| == 3 * |bs|
    ensures ReadEscape(pre + EscapeAll(bs) + rest, |pre| + 3 * k) == Some(bs[k])
    decreases |bs|
  {
    var s := pre + EscapeAll(bs) + rest;
    if |bs| > 1 {
      EscapeAllReads(bs[1..], pre + Escape(bs[0]), rest, if k == 0 then 0 else k - 1);
      assert pre + Escape(bs[0]) + EscapeAll(bs[1..]) + rest == s;
    } else {
      assert bs[1..] == [];
    }
    if k == 0 {
      assert s[|pre|..|pre| + 3] == Escape(bs[0]);
      assert s[|pre|] == Escape(bs[0])[0] && s[|pre| + 1] == Escape(bs[0])[1] && s[|pre| + 2] == Escape(bs[0])[2];
      EscapeReads(s, |pre|, bs[0]);
    }
  }

  lemma Digits3(n: nat)
    ensures n / 4096 * 4096 + n / 64 % 64 * 64 + n % 64 == n
  {
  }

  lemma Digits4(n: nat)
    ensures n / 262144 * 262144 + n / 4096 % 64 * 4096 + n / 64 % 64 * 64 + n % 64 == n
  {
    Digits3(n);
    assert n / 4096 / 64 == n / 262144;
  }

  lemma StepReads2(s: string, n: nat)
    requires s != "" && s[0] == '%' && 0x80 <= n < 0x800 && 6 <= |s|
    requires ReadEscape(s, 0) == Some(0xC0 + n / 64) && Continuation(s, 3) == Some(n % 64)
    ensures DecodeStep(s) == Some(Step(CharOf(n), 6))
  {
  }

  lemma StepReads3(s: string, n: nat)
    requires s != "" && s[0] == '%' && 0x800 <= n < 0x1_0000 && IsScalar(n) && 9 <= |s|
    requires ReadEscape(s, 0) == Some(0xE0 + n / 4096) && Continuation(s, 3) == Some(n / 64 % 64)
    requires Continuation(s, 6) == Some(n % 64)
    ensures DecodeStep(s) == Some(Step(CharOf(n), 9))
  {
    Digits3(n);
  }

  lemma StepReads4(s: string, n: nat)
    requires s != "" && s[0] == '%' && 0x1_0000 <= n && IsScalar(n) && 12 <= |s|
    requires ReadEscape(s, 0) == Some(0xF0 + n / 262144) && Continuation(s, 3) == Some(n / 4096 % 64)
    requires Continuation(s, 6) == Some(n / 64 % 64) && Continuation(s, 9) == Some(n % 64)
    ensures DecodeStep(s) == Some(Step(CharOf(n), 12))
  {
    Digits4(n);
  }

  /** The four lengths of a UTF-8 sequence, read back. */
  lemma StepReadsUtf8(s: string, c: char)
    requires s != "" && s[0] == '%' && 3 * |Utf8Char(c)| <= |s|
    requires forall k :: 0 <= k < |Utf8Char(c)| ==> ReadEscape(s, 3 * k) == Some(Utf8Char(c)[k])
    ensures DecodeStep(s) == Some(Step(c, 3 * |Utf8Char(c)|))
  {
    var n, bs := Code(c), Utf8Char(c);
    CharOfCode(c);
    assert ReadEscape(s, 3 * 0) == Some(bs[0]);
    if |bs| > 1 { assert ReadEscape(s, 3 * 1) == Some(bs[1]); }
    if |bs| > 2 { assert ReadEscape(s, 3 * 2) == Some(bs[2]); }
    if |bs| > 3 { assert ReadEscape(s, 3 * 3) == Some(bs[3]); }
    if n < 0x80 {
    } else if n < 0x800 {
      StepReads2(s, n);
    } else if n < 0x1_0000 {
      StepReads3(s, n);
    } else {
      StepReads4(s, n);
    }
  }

  lemma EscapedCharDecodes(c: char, rest: string)
    requires !Unreserved(c)
    ensures DecodeStep(EscapeAll(Utf8Char(c)) + rest) == Some(Step(c, 3 * |Utf8Char(c)|))
  {
    var bs := Utf8Char(c);
    var s := EscapeAll(bs) + rest;
    assert "" + EscapeAll(bs) + rest == s;
    forall k | 0 <= k < |bs| ensures ReadEscape(s, 3 * k) == Some(bs[k]) {
      EscapeAllReads(bs, "", rest, k);
    }
    EscapeAllReads(bs, "", rest, 0);
    assert ReadEscape(s, 3 * 0).Some?;
    StepReadsUtf8(s, c);
  }

  lemma CharOfCode(c: char)
    ensures CharOf(Code(c)) == c
  {
  }

  lemma EncodedCharDecodes(c: char, rest: string)
    ensures DecodeStep(EncodeChar(c) + rest) == Some(Step(c, |EncodeChar(c)|))
  {
    if !Unreserved(c) {
      EscapedCharDecodes(c, rest);
      EscapeAllReads(Utf8Char(c), "", rest, 0);
    }
  }

  /** Decoding an encoded name gives the name back, so distinct names have distinct codes. */
  lemma {:induction false} DecodeOfEncode(s: string)
    ensures Decode(Encode(s)) == Some(s)
  {
    if s != "" {
      var e, rest := EncodeChar(s[0]), Encode(s[1..]);
      EncodedCharDecodes(s[0], rest);
      DecodeOfEncode(s[1..]);
      assert (e + rest)[|e|..] == rest;
      assert [s[0]] + s[1..] == s;
    }
  }

  lemma EncodeIsInjective(a: string, b: string)
    requires Encode(a) == Encode(b)
    ensures a == b
  {
    DecodeOfEncode(a);
    DecodeOfEncode(b);
  }

  // ---------- what an encoded name cannot contain ----------

  predicate NameChar(c: char) { Unreserved(c) || c == '%' }

  lemma {:induction false} EscapesAreNameChars(bs: seq<Byte>)
    ensures forall i :: 0 <= i < |EscapeAll(bs)| ==> NameChar(EscapeAll(bs)[i])
  {
    if bs != [] { EscapesAreNameChars(bs[1..]); }
  }

  /** No slash in particular: a scoped project name cannot leave the evidence directory. */
  lemma {:induction false} EncodedIsNameChars(s: string)
    ensures forall i :: 0 <= i < |Encode(s)| ==> NameChar(Encode(s)[i])
  {
    if s != "" {
      EscapesAreNameChars(Utf8Char(s[0]));
      EncodedIsNameChars(s[1..]);
    }
  }

  // ---------- the bytes behind an encoded name ----------

  /** Letters, digits and nine marks stand for themselves. */
  predicate Plain(c: char) {
    'a' <= c <= 'z' || 'A' <= c <= 'Z' || '0' <= c <= '9' || c in ['-', '_', '.', '!', '~', '*', '\'', '(', ')']
  }

  lemma PlainIsUnreserved(c: char)
    ensures Plain(c) <==> Unreserved(c)
  {
    assert "-_.!~*'()" == ['-', '_', '.', '!', '~', '*', '\'', '(', ')'];
  }

  /** A name of plain characters is encoded as itself. */
  lemma {:induction false} PlainEncodesAsItself(s: string)
    requires forall i :: 0 <= i < |s| ==> Plain(s[i])
    ensures Encode(s) == s
  {
    if s != "" {
      PlainIsUnreserved(s[0]);
      PlainEncodesAsItself(s[1..]);
      assert s == [s[0]] + s[1..];
    }
  }

  /** Any other ASCII character becomes `%` and two upper-case hexadecimal digits. */
  lemma AsciiEscape(c: char)
    requires c as int < 128 && !Plain(c)
    ensures Encode([c]) == ['%', "0123456789ABCDEF"[c as int / 16], "0123456789ABCDEF"[c as int % 16]]
  {
    PlainIsUnreserved(c);
    HexDigitIs(c as int / 16);
    HexDigitIs(c as int % 16);
    OneByteEscape(c as int);
    EncodeOne(c);
  }

  lemma OneByteEscape(b: Byte)
    ensures EscapeAll([b]) == Escape(b)
  {
    assert [b][1..] == [] && Escape(b) + "" == Escape(b);
  }

  lemma EncodeOne(c: char)
    ensures Encode([c]) == EncodeChar(c)
  {
    assert [c][1..] == "" && EncodeChar(c) + "" == EncodeChar(c);
  }

  lemma HexDigitIs(d: nat)
    requires d < 16
    ensures HexDigit(d) == "0123456789ABCDEF"[d]
  {
  }

  predicate IsTail(b: Byte) { 0x80 <= b < 0xC0 }

  /** The bits behind the length mark of the lead and the marks of the tails. */
  function BitsOf(bs: seq<Byte>): int {
    if |bs| == 1 then bs[0]
    else if |bs| == 2 then (bs[0] as int - 0xC0) * 64 + (bs[1] as int - 0x80)
    else if |bs| == 3 then (bs[0] as int - 0xE0) * 4096 + (bs[1] as int - 0x80) * 64 + (bs[2] as int - 0x80)
    else if |bs| == 4 then
      (bs[0] as int - 0xF0) * 262144 + (bs[1] as int - 0x80) * 4096 + (bs[2] as int - 0x80) * 64 + (bs[3] as int - 0x80)
    else 0
  }

  /** The bytes of a character: the lead says how many follow, and the bits add up to its code. */
  lemma Utf8CharReads(c: char)
    ensures var bs, n := Utf8Char(c), c as int;
      && (n < 0x80 ==> |bs| == 1 && bs[0] == n)
      && (0x80 <= n < 0x800 ==> |bs| == 2 && 0xC2 <= bs[0] < 0xE0 && IsTail(bs[1]))
      && (0x800 <= n < 0x1_0000 ==> |bs| == 3 && 0xE0 <= bs[0] < 0xF0 && IsTail(bs[1]) && IsTail(bs[2]))
      && (0x1_0000 <= n ==> |bs| == 4 && 0xF0 <= bs[0] < 0xF5 && IsTail(bs[1]) && IsTail(bs[2]) && IsTail(bs[3]))
    ensures BitsOf(Utf8Char(c)) == c as int
  {
    Digits3(c as int);
    Digits4(c as int);
  }
}
