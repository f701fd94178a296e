/** Decoding bytes as UTF-8 the way Buffer.toString does: a byte sequence that is no character is
    replaced, longest valid beginning at a time, by U+FFFD. */
module Utf8Decoding {
  import opened JsText
  import opened PercentEncoding

  const REPLACEMENT := '\U{FFFD}'

  /** The byte at i, if it is a continuation byte in the given bounds: its six bits. */
  function Bits(buf: seq<Byte>, i: nat, lo: nat, hi: nat): (v: Option<nat>)
    requires 0x80 <= lo <= hi <= 0xBF
    ensures v.Some? ==> i < |buf| && buf[i] == 0x80 + v.value && lo <= buf[i] <= hi
  {
    if i < |buf| && lo <= buf[i] <= hi then Some(buf[i] - 0x80) else None
  }

  /** The bounds on the second byte leave no surrogate and nothing past the last plane. */
  function Found(n: nat, used: nat): Step
    requires IsScalar(n)
  {
    Step(CharOf(n), used)
  }

  function TwoBytes(buf: seq<Byte>): Step
    requires buf != [] && 0xC2 <= buf[0] < 0xE0
  {
    match Bits(buf, 1, 0x80, 0xBF)
    case None => Step(REPLACEMENT, 1)
    case Some(v1) => Found((buf[0] - 0xC0) * 64 + v1, 2)
  }

  function ThreeBytes(buf: seq<Byte>): Step
    requires buf != [] && 0xE0 <= buf[0] < 0xF0
  {
    match Bits(buf, 1, if buf[0] == 0xE0 then 0xA0 else 0x80, if buf[0] == 0xED then 0x9F else 0xBF)
    case None => Step(REPLACEMENT, 1)
    case Some(v1) =>
      match Bits(buf, 2, 0x80, 0xBF)
      case None => Step(REPLACEMENT, 2)
      case Some(v2) => Found((buf[0] - 0xE0) * 4096 + v1 * 64 + v2, 3)
  }

  function FourBytes(buf: seq<Byte>): Step
    requires buf != [] && 0xF0 <= buf[0] < 0xF5
  {
    match Bits(buf, 1, if buf[0] == 0xF0 then 0x90 else 0x80, if buf[0] == 0xF4 then 0x8F else 0xBF)
    case None => Step(REPLACEMENT, 1)
    case Some(v1) =>
      match Bits(buf, 2, 0x80, 0xBF)
      case None => Step(REPLACEMENT, 2)
      case Some(v2) =>
        match Bits(buf, 3, 0x80, 0xBF)
        case None => Step(REPLACEMENT, 3)
        case Some(v3) => Found((buf[0] - 0xF0) * 262144 + v1 * 4096 + v2 * 64 + v3, 4)
  }

  /** The next character and the bytes it takes. */
  function DecodeBytesStep(buf: seq<Byte>): (r: Step)
    requires buf != []
    ensures 1 <= r.used <= |buf| && r.used <= |Utf8Char(r.c)|
    ensures Code(r.c) == 0 <==> buf[0] == 0
  {
    if buf[0] < 0x80 then Step(CharOf(buf[0]), 1)
    else if 0xC2 <= buf[0] < 0xE0 then TwoBytes(buf)
    else if 0xE0 <= buf[0] < 0xF0 then ThreeBytes(buf)
    else if 0xF0 <= buf[0] < 0xF5 then FourBytes(buf)
    else Step(REPLACEMENT, 1)
  }

  function DecodeBytes(buf: seq<Byte>): string
    decreases |buf|
  {
    if buf == [] then ""
    else var step := DecodeBytesStep(buf); [step.c] + DecodeBytes(buf[step.used..])
  }

  // ---------- decoding what was encoded ----------

  lemma StepOfOne(buf: seq<Byte>, c: char)
    requires buf != [] && Utf8Char(c) == [buf[0]]
    ensures DecodeBytesStep(buf) == Step(c, 1)
  {
    CharOfCode(c);
  }

  lemma StepOfTwo(buf: seq<Byte>, c: char)
    requires |buf| >= 2 && |Utf8Char(c)| == 2 && buf[0] == Utf8Char(c)[0] && buf[1] == Utf8Char(c)[1]
    ensures DecodeBytesStep(buf) == Step(c, 2)
  {
    CharOfCode(c);
  }

  lemma StepOfThree(buf: seq<Byte>, c: char)
    requires |buf| >= 3 && |Utf8Char(c)| == 3
    requires buf[0] == Utf8Char(c)[0] && buf[1] == Utf8Char(c)[1] && buf[2] == Utf8Char(c)[2]
    ensures DecodeBytesStep(buf) == Step(c, 3)
  {
    Digits3(Code(c));
    CharOfCode(c);
  }

  lemma StepOfFour(buf: seq<Byte>, c: char)
    requires |buf| >= 4 && |Utf8Char(c)| == 4 && buf[0] == Utf8Char(c)[0] && buf[1] == Utf8Char(c)[1]
    requires buf[2] == Utf8Char(c)[2] && buf[3] == Utf8Char(c)[3]
    ensures DecodeBytesStep(buf) == Step(c, 4)
  {
    Digits4(Code(c));
    CharOfCode(c);
  }

  lemma StepOfChar(c: char, rest: seq<Byte>)
    ensures DecodeBytesStep(Utf8Char(c) + rest) == Step(c, |Utf8Char(c)|)
  {
    var buf, u := Utf8Char(c) + rest, Utf8Char(c);
    assert forall k :: 0 <= k < |u| ==> buf[k] == u[k];
    if |u| == 1 {
      StepOfOne(buf, c);
    } else if |u| == 2 {
      StepOfTwo(buf, c);
    } else if |u| == 3 {
      StepOfThree(buf, c);
    } else {
      StepOfFour(buf, c);
    }
  }

  lemma DecodeCons(c: char, buf: seq<Byte>, tail: seq<Byte>)
    requires buf == Utf8Char(c) + tail
    ensures DecodeBytes(buf) == [c] + DecodeBytes(tail)
  {
    StepOfChar(c, tail);
    assert buf[|Utf8Char(c)|..] == tail;
  }

  lemma BytesOfCons(t: string, rest: seq<Byte>)
    requires t != ""
    ensures Utf8(t) + rest == Utf8Char(t[0]) + (Utf8(t[1..]) + rest)
  {
  }

  lemma TextOfCons(t: string, rest: string)
    requires t != ""
    ensures [t[0]] + (t[1..] + rest) == t + rest
  {
  }

  /** Whole characters in front of anything decode to themselves. */
  lemma {:induction false} DecodeBehindText(t: string, rest: seq<Byte>)
    ensures DecodeBytes(Utf8(t) + rest) == t + DecodeBytes(rest)
  {
    if t == "" {
      assert Utf8(t) + rest == rest;
    } else {
      BytesOfCons(t, rest);
      DecodeCons(t[0], Utf8(t) + rest, Utf8(t[1..]) + rest);
      DecodeBehindText(t[1..], rest);
      TextOfCons(t, DecodeBytes(rest));
    }
  }

  lemma DecodeOfUtf8(t: string)
    ensures DecodeBytes(Utf8(t)) == t
  {
    DecodeBehindText(t, []);
    assert Utf8(t) + [] == Utf8(t) && t + DecodeBytes([]) == t;
  }

  lemma NoNulInside(c: char, k: nat)
    requires k < |Utf8Char(c)| && Utf8Char(c)[k] == 0
    ensures k == 0 && Code(c) == 0
  {
  }

  /** Decoding and encoding again moves no NUL byte towards the front, and makes none. */
  lemma {:induction false} NulWasThere(buf: seq<Byte>, i: nat) returns (j: nat)
    requires i < |Utf8(DecodeBytes(buf))| && Utf8(DecodeBytes(buf))[i] == 0
    ensures j <= i && j < |buf| && buf[j] == 0
    decreases |buf|
  {
    var step := DecodeBytesStep(buf);
    var u, rest := Utf8Char(step.c), DecodeBytes(buf[step.used..]);
    assert DecodeBytes(buf)[1..] == rest;
    assert Utf8(DecodeBytes(buf)) == u + Utf8(rest);
    if i < |u| {
      NoNulInside(step.c, i);
      j := 0;
    } else {
      j := NulWasThere(buf[step.used..], i - |u|);
      j := j + step.used;
    }
  }

  // ---------- what is replaced ----------

  /** These bytes begin a character. */
  ghost predicate Begins(bs: seq<Byte>) { exists c: char :: bs <= Utf8Char(c) }

  /** The bounds on a character's second byte. */
  lemma SecondByte(c: char)
    requires |Utf8Char(c)| >= 3
    ensures var u := Utf8Char(c);
      && (|u| == 3 ==> (u[0] == 0xE0 ==> u[1] >= 0xA0) && (u[0] == 0xED ==> u[1] <= 0x9F))
      && (|u| == 4 ==> (u[0] == 0xF0 ==> u[1] >= 0x90) && (u[0] == 0xF4 ==> u[1] <= 0x8F))
  {
  }

  lemma BeginsThree(b0: Byte, b1: Byte)
    requires 0xE0 <= b0 < 0xF0 && IsTail(b1)
    requires (b0 == 0xE0 ==> b1 >= 0xA0) && (b0 == 0xED ==> b1 <= 0x9F)
    ensures Begins([b0, b1])
  {
    var n := (b0 - 0xE0) * 4096 + (b1 - 0x80) * 64;
    assert Utf8Char(CharOf(n)) == [b0, b1, 0x80];
    assert [b0, b1] <= Utf8Char(CharOf(n));
  }

  lemma BeginsFour(b0: Byte, b1: Byte, b2: Byte)
    requires 0xF0 <= b0 < 0xF5 && IsTail(b1) && IsTail(b2)
    requires (b0 == 0xF0 ==> b1 >= 0x90) && (b0 == 0xF4 ==> b1 <= 0x8F)
    ensures Begins([b0, b1]) && Begins([b0, b1, b2])
  {
    var n := (b0 - 0xF0) * 262144 + (b1 - 0x80) * 4096 + (b2 - 0x80) * 64;
    FourDigits(b0 - 0xF0, b1 - 0x80, b2 - 0x80, 0);
    assert Utf8Char(CharOf(n)) == [b0, b1, b2, 0x80];
    assert [b0, b1] <= Utf8Char(CharOf(n)) && [b0, b1, b2] <= Utf8Char(CharOf(n));
  }

  /** Six bits at a time. */
  lemma FourDigits(a: nat, b: nat, c: nat, d: nat)
    requires a < 5 && b < 64 && c < 64 && d < 64
    ensures var n := a * 262144 + b * 4096 + c * 64 + d;
      n / 262144 == a && n / 4096 % 64 == b && n / 64 % 64 == c && n % 64 == d
  {
    var k := a * 4096 + b * 64 + c;
    var n := k * 64 + d;
    assert n / 64 == k && n % 64 == d;
    assert k / 64 == a * 64 + b && k % 64 == c && n / 4096 == k / 64;
    assert n / 262144 == k / 4096 == a;
  }

  lemma BeginsBytes(buf: seq<Byte>, n: nat, c: char)
    requires 1 <= n <= |buf| && buf[..n] <= Utf8Char(c)
    ensures n <= |Utf8Char(c)| && forall k :: 0 <= k < n ==> buf[k] == Utf8Char(c)[k]
  {
    forall k | 0 <= k < n ensures buf[k] == Utf8Char(c)[k] { assert buf[..n][k] == buf[k]; }
  }

  /** The decoder does not stop inside the beginning of a character. */
  lemma GoesOn(buf: seq<Byte>, c: char, n: nat)
    requires 2 <= n < |Utf8Char(c)| && n <= |buf| && forall k :: 0 <= k < n ==> buf[k] == Utf8Char(c)[k]
    ensures DecodeBytesStep(buf).used >= n
  {
    Utf8CharReads(c);
    SecondByte(c);
  }

  lemma WholeCharReads(buf: seq<Byte>, c: char, n: nat)
    requires 1 <= |Utf8Char(c)| <= n <= |buf| && forall k :: 0 <= k < |Utf8Char(c)| ==> buf[k] == Utf8Char(c)[k]
    ensures Utf8Char(c) <= buf
  {
    assert buf[..|Utf8Char(c)|] == Utf8Char(c);
  }

  lemma NothingLonger(buf: seq<Byte>, n: nat)
    requires buf != [] && DecodeBytesStep(buf).used < n <= |buf|
    requires forall c: char :: !(Utf8Char(c) <= buf)
    ensures !Begins(buf[..n])
  {
    if Begins(buf[..n]) {
      var c :| buf[..n] <= Utf8Char(c);
      BeginsBytes(buf, n, c);
      if n == |Utf8Char(c)| { WholeCharReads(buf, c, n); } else { GoesOn(buf, c, n); }
    }
  }

  /** The step read a whole character, or replaced the beginning of one. */
  ghost predicate ReadOrReplaced(buf: seq<Byte>, step: Step) {
    && 1 <= step.used <= |buf|
    && (|| buf[..step.used] == Utf8Char(step.c)
        || (step.c == '\U{FFFD}' && (step.used > 1 ==> Begins(buf[..step.used]))))
  }

  lemma TwoDigits(b0: nat, b1: nat)
    requires 0xC2 <= b0 < 0xE0 && 0x80 <= b1 < 0xC0
    ensures Utf8Char(CharOf((b0 - 0xC0) * 64 + (b1 - 0x80))) == [b0, b1]
  {
  }

  lemma TwoBytesRead(buf: seq<Byte>)
    requires buf != [] && 0xC2 <= buf[0] < 0xE0
    ensures ReadOrReplaced(buf, TwoBytes(buf))
  {
    if Bits(buf, 1, 0x80, 0xBF).Some? {
      TwoDigits(buf[0], buf[1]);
      assert buf[..2] == [buf[0], buf[1]];
    }
  }

  lemma ThreeBytesRead(buf: seq<Byte>)
    requires buf != [] && 0xE0 <= buf[0] < 0xF0
    ensures ReadOrReplaced(buf, ThreeBytes(buf))
  {
    var second := Bits(buf, 1, if buf[0] == 0xE0 then 0xA0 else 0x80, if buf[0] == 0xED then 0x9F else 0xBF);
    if second.Some? {
      BeginsThree(buf[0], buf[1]);
      assert buf[..2] == [buf[0], buf[1]];
      if Bits(buf, 2, 0x80, 0xBF).Some? {
        ThreeDigits(buf[0], buf[1], buf[2]);
        assert buf[..3] == [buf[0], buf[1], buf[2]];
      }
    }
  }

  lemma ThreeDigits(b0: nat, b1: nat, b2: nat)
    requires 0xE0 <= b0 < 0xF0 && 0x80 <= b1 < 0xC0 && 0x80 <= b2 < 0xC0
    requires (b0 == 0xE0 ==> b1 >= 0xA0) && (b0 == 0xED ==> b1 <= 0x9F)
    ensures var n := (b0 - 0xE0) * 4096 + (b1 - 0x80) * 64 + (b2 - 0x80);
            IsScalar(n) && Utf8Char(CharOf(n)) == [b0, b1, b2]
  {
    var n := (b0 - 0xE0) * 4096 + (b1 - 0x80) * 64 + (b2 - 0x80);
    assert n / 4096 == b0 - 0xE0 && n / 64 % 64 == b1 - 0x80 && n % 64 == b2 - 0x80;
  }

  lemma FirstTwo(buf: seq<Byte>)
    requires |buf| >= 2
    ensures buf[..2] == [buf[0], buf[1]]
    ensures |buf| >= 3 ==> buf[..3] == [buf[0], buf[1], buf[2]]
    ensures |buf| >= 4 ==> buf[..4] == [buf[0], buf[1], buf[2], buf[3]]
  {
  }

  predicate SecondFits(buf: seq<Byte>) {
    |buf| >= 2 && IsTail(buf[1]) && (buf[0] == 0xF0 ==> buf[1] >= 0x90) && (buf[0] == 0xF4 ==> buf[1] <= 0x8F)
  }

  lemma FourBytesRead(buf: seq<Byte>)
    requires buf != [] && 0xF0 <= buf[0] < 0xF5
    ensures ReadOrReplaced(buf, FourBytes(buf))
  {
    if SecondFits(buf) {
      BeginsFour(buf[0], buf[1], 0x80);
      FirstTwo(buf);
      if |buf| >= 3 && IsTail(buf[2]) { LastTwoRead(buf); }
    }
  }

  lemma LastTwoRead(buf: seq<Byte>)
    requires |buf| >= 3 && 0xF0 <= buf[0] < 0xF5 && SecondFits(buf) && IsTail(buf[2])
    ensures ReadOrReplaced(buf, FourBytes(buf))
  {
    BeginsFour(buf[0], buf[1], buf[2]);
    FirstTwo(buf);
    if |buf| >= 4 && IsTail(buf[3]) { FourBytesAreChar(buf[0], buf[1], buf[2], buf[3]); }
  }

  lemma FourBytesAreChar(b0: nat, b1: nat, b2: nat, b3: nat)
    requires 0xF0 <= b0 < 0xF5 && 0x80 <= b1 < 0xC0 && 0x80 <= b2 < 0xC0 && 0x80 <= b3 < 0xC0
    requires (b0 == 0xF0 ==> b1 >= 0x90) && (b0 == 0xF4 ==> b1 <= 0x8F)
    ensures var n := (b0 - 0xF0) * 262144 + (b1 - 0x80) * 4096 + (b2 - 0x80) * 64 + (b3 - 0x80);
            IsScalar(n) && Utf8Char(CharOf(n)) == [b0, b1, b2, b3]
  {
    FourDigits(b0 - 0xF0, b1 - 0x80, b2 - 0x80, b3 - 0x80);
  }

  lemma StepReads(buf: seq<Byte>)
    requires buf != []
    ensures ReadOrReplaced(buf, DecodeBytesStep(buf))
  {
    if buf[0] < 0x80 {
      assert Utf8Char(CharOf(buf[0])) == [buf[0]] && buf[..1] == [buf[0]];
    } else if 0xC2 <= buf[0] < 0xE0 {
      TwoBytesRead(buf);
    } else if 0xE0 <= buf[0] < 0xF0 {
      ThreeBytesRead(buf);
    } else if 0xF0 <= buf[0] < 0xF5 {
      FourBytesRead(buf);
    }
  }

  /** A character that is there is read. */
  lemma WholeCharIsRead(buf: seq<Byte>, c: char)
    requires buf != [] && Utf8Char(c) <= buf
    ensures DecodeBytesStep(buf) == Step(c, |Utf8Char(c)|)
  {
    var u := Utf8Char(c);
    assert buf == u + buf[|u|..];
    StepOfChar(c, buf[|u|..]);
  }

  /** Where none is, the longest beginning of one becomes a single U+FFFD, and a byte that begins
      none becomes one alone. */
  lemma BrokenCharIsReplaced(buf: seq<Byte>)
    requires buf != [] && forall c: char :: !(Utf8Char(c) <= buf)
    ensures var step := DecodeBytesStep(buf);
      && step.c == '\U{FFFD}' && (step.used > 1 ==> Begins(buf[..step.used]))
      && forall n :: step.used < n <= |buf| ==> !Begins(buf[..n])
  {
    var step := DecodeBytesStep(buf);
    StepReads(buf);
    assert !(Utf8Char(step.c) <= buf);
    forall n | step.used < n <= |buf| ensures !Begins(buf[..n]) { NothingLonger(buf, n); }
  }
}
