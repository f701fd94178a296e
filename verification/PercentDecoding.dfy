/** What decodeURIComponent accepts: exactly the escapings of the UTF-8 bytes of some text, whichever
    characters are escaped and in whichever case the digits are. */
module PercentDecoding {
  import opened JsText
  import opened PercentEncoding
  import opened Utf8Decoding

  /** The bytes a string stands for, escapes undone; None where an escape is broken. */
  function Unescaped(s: string): Option<seq<Byte>>
    decreases |s|
  {
    if s == "" then Some([])
    else if s[0] != '%' then Onto(Utf8Char(s[0]), Unescaped(s[1..]))
    else if ReadEscape(s, 0).Some? then Onto([ReadEscape(s, 0).value], Unescaped(s[3..]))
    else None
  }

  function Onto(bs: seq<Byte>, rest: Option<seq<Byte>>): Option<seq<Byte>> {
    match rest case None => None case Some(r) => Some(bs + r)
  }

  lemma OntoTwice(a: seq<Byte>, b: seq<Byte>, rest: Option<seq<Byte>>)
    ensures Onto(a, Onto(b, rest)) == Onto(a + b, rest)
  {
    if rest.Some? { assert a + (b + rest.value) == (a + b) + rest.value; }
  }

  lemma EscapeShifts(s: string, k: nat)
    requires 3 <= |s|
    ensures ReadEscape(s[3..], k) == ReadEscape(s, 3 + k)
  {
  }

  /** Escapes one after the other. */
  predicate Spelled(s: string, bs: seq<Byte>) { forall k :: 0 <= k < |bs| ==> ReadEscape(s, 3 * k) == Some(bs[k]) }

  lemma {:induction false} SpelledUnescapes(s: string, bs: seq<Byte>)
    requires Spelled(s, bs)
    ensures 3 * |bs| <= |s| && Unescaped(s) == Onto(bs, Unescaped(s[3 * |bs|..]))
    decreases |bs|
  {
    if bs == [] {
      assert s[0..] == s;
      if Unescaped(s).Some? { assert [] + Unescaped(s).value == Unescaped(s).value; }
    } else {
      assert ReadEscape(s, 3 * 0) == Some(bs[0]);
      var tail := s[3..];
      forall k | 0 <= k < |bs[1..]| ensures ReadEscape(tail, 3 * k) == Some(bs[1..][k]) {
        assert ReadEscape(s, 3 * (k + 1)) == Some(bs[k + 1]);
        EscapeShifts(s, 3 * k);
      }
      SpelledUnescapes(tail, bs[1..]);
      assert tail[3 * |bs[1..]|..] == s[3 * |bs|..];
      OntoTwice([bs[0]], bs[1..], Unescaped(s[3 * |bs|..]));
      assert [bs[0]] + bs[1..] == bs;
    }
  }

  // ---------- from the decoder to the bytes ----------

  /** A decoded escape spells its character. */
  ghost predicate SpellsStep(s: string, r: Option<Step>) {
    r.Some? ==> Spelled(s, Utf8Char(r.value.c)) && r.value.used == 3 * |Utf8Char(r.value.c)|
  }

  lemma SpelledBy(s: string, bs: seq<Byte>)
    requires |bs| <= 4
    requires |bs| >= 1 ==> ReadEscape(s, 0) == Some(bs[0])
    requires |bs| >= 2 ==> ReadEscape(s, 3) == Some(bs[1])
    requires |bs| >= 3 ==> ReadEscape(s, 6) == Some(bs[2])
    requires |bs| >= 4 ==> ReadEscape(s, 9) == Some(bs[3])
    ensures Spelled(s, bs)
  {
  }

  lemma ContinuationIs(s: string, i: nat)
    requires Continuation(s, i).Some?
    ensures var v := Continuation(s, i).value; ReadEscape(s, i) == Some(0x80 + v) && v < 64
  {
  }

  lemma StepSpells(s: string)
    requires s != "" && s[0] == '%'
    ensures SpellsStep(s, DecodeStep(s))
  {
    if DecodeStep(s).Some? {
      var b := ReadEscape(s, 0).value;
      if b < 0x80 {
        SpelledBy(s, [b]);
      } else {
        ContinuationIs(s, 3);
        var b1 := ReadEscape(s, 3).value;
        if b < 0xE0 {
          TwoDigits(b, b1);
          SpelledBy(s, [b, b1]);
        } else {
          LongStepSpells(s, b, b1);
        }
      }
    }
  }

  lemma LongStepSpells(s: string, b: Byte, b1: Byte)
    requires s != "" && s[0] == '%' && DecodeStep(s).Some? && ReadEscape(s, 0) == Some(b) && b >= 0xE0
    requires ReadEscape(s, 3) == Some(b1) && IsTail(b1)
    ensures SpellsStep(s, DecodeStep(s))
  {
    ContinuationIs(s, 6);
    var b2 := ReadEscape(s, 6).value;
    if b < 0xF0 {
      ThreeSpelled(s, b, b1, b2);
    } else {
      ContinuationIs(s, 9);
      FourSpelled(s, b, b1, b2, ReadEscape(s, 9).value);
    }
  }

  lemma ThreeSpelled(s: string, b: Byte, b1: Byte, b2: Byte)
    requires s != "" && s[0] == '%' && DecodeStep(s).Some? && ReadEscape(s, 0) == Some(b) && 0xE0 <= b < 0xF0
    requires ReadEscape(s, 3) == Some(b1) && IsTail(b1) && ReadEscape(s, 6) == Some(b2) && IsTail(b2)
    ensures SpellsStep(s, DecodeStep(s))
  {
    ThreeDigits(b, b1, b2);
    SpelledBy(s, [b, b1, b2]);
  }

  lemma FourSpelled(s: string, b: Byte, b1: Byte, b2: Byte, b3: Byte)
    requires s != "" && s[0] == '%' && DecodeStep(s).Some? && ReadEscape(s, 0) == Some(b) && b >= 0xF0
    requires ReadEscape(s, 3) == Some(b1) && IsTail(b1) && ReadEscape(s, 6) == Some(b2) && IsTail(b2)
    requires ReadEscape(s, 9) == Some(b3) && IsTail(b3)
    ensures SpellsStep(s, DecodeStep(s))
  {
    FourBytesAreChar(b, b1, b2, b3);
    SpelledBy(s, [b, b1, b2, b3]);
  }

  lemma Utf8Cons(c: char, t: string)
    ensures Utf8([c] + t) == Utf8Char(c) + Utf8(t)
  {
    assert ([c] + t)[1..] == t;
  }

  lemma {:induction false} DecodedBytes(s: string)
    requires Decode(s).Some?
    ensures Unescaped(s) == Some(Utf8(Decode(s).value))
    decreases |s|
  {
    if s != "" {
      var step := DecodeStep(s).value;
      var tail := s[step.used..];
      DecodedBytes(tail);
      Utf8Cons(step.c, Decode(tail).value);
      if s[0] == '%' {
        StepSpells(s);
        SpelledUnescapes(s, Utf8Char(step.c));
      }
    }
  }

  // ---------- from the bytes to the decoder ----------

  /** A byte string begins with at most one character. */
  lemma SameFirstChar(c: char, d: char, x: seq<Byte>, y: seq<Byte>)
    requires Utf8Char(c) + x == Utf8Char(d) + y
    ensures c == d && x == y
  {
    StepOfChar(c, x);
    StepOfChar(d, y);
    assert x == (Utf8Char(c) + x)[|Utf8Char(c)|..];
    assert y == (Utf8Char(d) + y)[|Utf8Char(d)|..];
  }

  lemma NoTailAlone(s: string, rest: seq<Byte>)
    requires s != "" && s[0] != '%' && Unescaped(s) == Some(rest)
    ensures rest != [] && !IsTail(rest[0])
  {
    Utf8CharReads(s[0]);
    assert rest[0] == Utf8Char(s[0])[0];
  }

  lemma {:induction false} BytesAreSpelled(s: string, bs: seq<Byte>, rest: seq<Byte>)
    requires Unescaped(s) == Some(bs + rest) && (bs != [] && !IsTail(bs[0]) ==> s != "" && s[0] == '%')
    requires forall k :: 1 <= k < |bs| ==> IsTail(bs[k])
    ensures Spelled(s, bs)
    decreases |bs|
  {
    if bs != [] {
      assert (bs + rest)[0] == bs[0];
      if s != "" && s[0] != '%' { NoTailAlone(s, bs + rest); }
      var tail := s[3..];
      assert (bs + rest)[1..] == bs[1..] + rest;
      assert Unescaped(tail) == Some(bs[1..] + rest);
      BytesAreSpelled(tail, bs[1..], rest);
      forall k | 0 <= k < |bs| ensures ReadEscape(s, 3 * k) == Some(bs[k]) {
        if k > 0 {
          assert ReadEscape(tail, 3 * (k - 1)) == Some(bs[1..][k - 1]);
          EscapeShifts(s, 3 * (k - 1));
        }
      }
    }
  }

  lemma CharTails(c: char)
    ensures !IsTail(Utf8Char(c)[0]) && forall k :: 1 <= k < |Utf8Char(c)| ==> IsTail(Utf8Char(c)[k])
  {
    Utf8CharReads(c);
  }

  lemma StepOfBytes(s: string, c: char, rest: seq<Byte>)
    requires s != "" && Unescaped(s) == Some(Utf8Char(c) + rest)
    ensures DecodeStep(s).Some? && DecodeStep(s).value.c == c
    ensures Unescaped(s[DecodeStep(s).value.used..]) == Some(rest)
  {
    var u := Utf8Char(c);
    if s[0] != '%' {
      SameFirstChar(s[0], c, Unescaped(s[1..]).value, rest);
    } else {
      CharTails(c);
      BytesAreSpelled(s, u, rest);
      SpelledUnescapes(s, u);
      StepReadsUtf8(s, c);
      var left := Unescaped(s[3 * |u|..]).value;
      assert (u + left)[|u|..] == left && (u + rest)[|u|..] == rest;
    }
  }

  lemma {:induction false} BytesDecode(s: string, t: string)
    requires Unescaped(s) == Some(Utf8(t))
    ensures Decode(s) == Some(t)
    decreases |s|
  {
    if t == "" {
      if s != "" { SomethingUnescaped(s); }
    } else {
      BytesOfCons(t, []);
      assert s != "" && Utf8(t) == Utf8Char(t[0]) + Utf8(t[1..]);
      StepOfBytes(s, t[0], Utf8(t[1..]));
      BytesDecode(s[DecodeStep(s).value.used..], t[1..]);
      assert [t[0]] + t[1..] == t;
    }
  }

  lemma SomethingUnescaped(s: string)
    requires s != "" && Unescaped(s).Some?
    ensures Unescaped(s).value != []
  {
  }

  /** A string decodes to a text exactly if the bytes it stands for are the text's. */
  lemma DecodeIff(s: string, t: string)
    ensures Decode(s) == Some(t) <==> Unescaped(s) == Some(Utf8(t))
  {
    if Decode(s) == Some(t) { DecodedBytes(s); }
    if Unescaped(s) == Some(Utf8(t)) { BytesDecode(s, t); }
  }
}
