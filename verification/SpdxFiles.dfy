/** The licence-header codemod on the files themselves: which path a file takes, the loops of
    `fix` and `fix-hash`, and what a second run does. A file is any sequence of bytes. */
module SpdxFiles {
  import opened JsText
  import opened PercentEncoding
  import opened SpdxHeader
  import opened Utf8Decoding

  function FixFile(st: Style, buf: seq<Byte>): Outcome {
    if IsBinary(buf) then FixBytes(st, buf) else FixText(st, DecodeBytes(buf))
  }

  /** `fixDirHash` leaves binary files alone. */
  function FixHashFile(st: Style, buf: seq<Byte>): Outcome {
    if IsBinary(buf) then Kept else FixText(st, DecodeBytes(buf))
  }

  function FixOf(st: Style): seq<Byte> -> Outcome { buf => FixFile(st, buf) }

  function HashFixOf(st: Style): seq<Byte> -> Outcome { buf => FixHashFile(st, buf) }

  /** What is on disk after the fix. */
  function Stored(fix: seq<Byte> -> Outcome, buf: seq<Byte>): seq<Byte> {
    match fix(buf) case Wrote(bytes) => bytes case _ => buf
  }

  ghost predicate AuditMisses(st: Style, buf: seq<Byte>) { !IsBinary(buf) && !HasHeader(st, DecodeBytes(buf)) }

  /** The byte path keeps a file that opens with the header line, puts the header line in the place
      of a stale one that opens it, and refuses every other file. */
  lemma FixBytesIs(st: Style, buf: seq<Byte>)
    ensures var head := Utf8(st.header + "\n");
      && (FixBytes(st, buf) == Kept <==> head <= buf)
      && (FixBytes(st, buf) == Refused <==>
            !(head <= buf) && forall k :: 0 <= k < |st.stale| ==> !(Utf8(st.stale[k] + "\n") <= buf))
      && (FixBytes(st, buf).Wrote? ==>
            exists k :: 0 <= k < |st.stale| && Utf8(st.stale[k] + "\n") <= buf
                        && FixBytes(st, buf).bytes == head + buf[|Utf8(st.stale[k] + "\n")|..])
  {
    if !(Utf8(st.header + "\n") <= buf) {
      var k := OpeningStale(st, buf, 0);
      if k.Some? { assert Utf8(st.stale[k.value] + "\n") <= buf; }
    }
  }

  // ---------- the directory loops ----------

  /** How many of the first n files are written. */
  function Changes(fix: seq<Byte> -> Outcome, bufs: seq<seq<Byte>>, n: nat): nat
    requires n <= |bufs|
  {
    if n == 0 then 0 else Changes(fix, bufs, n - 1) + if fix(bufs[n - 1]).Wrote? then 1 else 0
  }

  /** The binary branch of the loop: the stale headers are tried in turn until one is rewritten. */
  method FixBinary(st: Style, buf: seq<Byte>) returns (outcome: Outcome)
    ensures outcome == FixBytes(st, buf)
  {
    var headerBytes := Utf8(st.header + "\n");
    if headerBytes <= buf { return Kept; }
    var rewritten, k := false, 0;
    outcome := Refused;
    while k < |st.stale| && !rewritten
      invariant k <= |st.stale|
      invariant !rewritten ==> outcome == Refused && OpeningStale(st, buf, k) == OpeningStale(st, buf, 0)
      invariant rewritten ==> outcome == FixBytes(st, buf)
      decreases |st.stale| - k, !rewritten
    {
      var staleBytes := Utf8(st.stale[k] + "\n");
      if staleBytes <= buf {
        outcome := Wrote(headerBytes + buf[|staleBytes|..]);
        rewritten := true;
      } else {
        k := k + 1;
      }
    }
  }

  /** One turn of the loop over the files. */
  method FixOne(st: Style, buf: seq<Byte>) returns (outcome: Outcome)
    ensures outcome == FixOf(st)(buf)
  {
    var binary := ScanForNul(buf);
    if binary { outcome := FixBinary(st, buf); } else { outcome := FixText(st, DecodeBytes(buf)); }
  }

  /** The loop over the files read, in order, with `FixOf(st)` or `HashFixOf(st)` as the fix of
      one file; the first refusal ends the run. */
  method FixEach(fix: seq<Byte> -> Outcome, bufs: seq<seq<Byte>>)
      returns (stored: seq<seq<Byte>>, changed: nat, refused: bool)
    ensures |stored| <= |bufs|
    ensures forall k :: 0 <= k < |stored| ==> stored[k] == Stored(fix, bufs[k]) && fix(bufs[k]) != Refused
    ensures changed == Changes(fix, bufs, |stored|)
    ensures refused ==> |stored| < |bufs| && fix(bufs[|stored|]) == Refused
    ensures !refused ==> |stored| == |bufs|
  {
    stored, changed := [], 0;
    for i := 0 to |bufs|
      invariant |stored| == i && changed == Changes(fix, bufs, i)
      invariant forall k :: 0 <= k < i ==> stored[k] == Stored(fix, bufs[k]) && fix(bufs[k]) != Refused
    {
      var outcome := fix(bufs[i]);
      if outcome == Refused { return stored, changed, true; }
      if outcome.Wrote? {
        stored := stored + [outcome.bytes];
        changed := changed + 1;
      } else {
        stored := stored + [bufs[i]];
      }
    }
    refused := false;
  }

  // ---------- what a stored file holds ----------

  lemma DecodedNulWasThere(buf: seq<Byte>)
    requires IsBinary(Utf8(DecodeBytes(buf)))
    ensures IsBinary(buf)
  {
    var again := Utf8(DecodeBytes(buf));
    var i: nat :| i < |again| && NulAt(again, i);
    assert again[i] == 0;
    var j := NulWasThere(buf, i);
    assert NulAt(buf, j);
  }

  /** A file written on the text path decodes to the applied text and does not look binary. */
  lemma WrittenText(st: Style, buf: seq<Byte>)
    requires Proper(st) && !IsBinary(buf)
    ensures DecodeBytes(Utf8(Apply(st, DecodeBytes(buf)))) == Apply(st, DecodeBytes(buf))
    ensures !IsBinary(Utf8(Apply(st, DecodeBytes(buf))))
  {
    var text := DecodeBytes(buf);
    DecodeOfUtf8(Apply(st, text));
    if IsBinary(Utf8(Apply(st, text))) {
      ApplyKeepsTextual(st, text);
      DecodedNulWasThere(buf);
    }
  }

  /** A file rewritten on the byte path opens with the header and decodes to a headed text. */
  lemma WrittenBytes(st: Style, tail: seq<Byte>)
    requires Proper(st)
    ensures Utf8(st.header + "\n") <= Utf8(st.header + "\n") + tail
    ensures Apply(st, DecodeBytes(Utf8(st.header + "\n") + tail)) == DecodeBytes(Utf8(st.header + "\n") + tail)
  {
    DecodeBehindText(st.header + "\n", tail);
    ApplyToOpening(st, st.header, DecodeBytes(tail));
  }

  /** The text path: a stored file decodes to what `applyHeader` makes of the decoded file. */
  lemma StoredDecodesToApplied(st: Style, buf: seq<Byte>)
    requires Proper(st) && !IsBinary(buf)
    ensures !IsBinary(Stored(FixOf(st), buf))
    ensures DecodeBytes(Stored(FixOf(st), buf)) == Apply(st, DecodeBytes(buf))
  {
    WrittenText(st, buf);
  }

  /** A second run leaves every file alone that the first did not refuse, whatever its bytes. */
  lemma SecondFixKeeps(st: Style, buf: seq<Byte>)
    requires Proper(st) && FixFile(st, buf) != Refused
    ensures FixFile(st, Stored(FixOf(st), buf)) == Kept
  {
    if FixFile(st, buf) == Kept {
    } else if IsBinary(buf) {
      var k := OpeningStale(st, buf, 0).value;
      WrittenBytes(st, buf[|Utf8(st.stale[k] + "\n")|..]);
    } else {
      WrittenText(st, buf);
      ApplyIsIdempotent(st, DecodeBytes(buf));
    }
  }

  /** A kept or rewritten binary file that no longer looks binary has its header. */
  lemma FixedFilesPassAudit(st: Style, buf: seq<Byte>)
    requires Proper(st) && FixFile(st, buf) != Refused
    ensures !AuditMisses(st, Stored(FixOf(st), buf))
    ensures AuditMisses(st, buf) ==> FixFile(st, buf).Wrote?
  {
    var stored := Stored(FixOf(st), buf);
    SecondFixKeeps(st, buf);
    ApplyIsIdempotent(st, DecodeBytes(stored));
    ApplyIsIdempotent(st, DecodeBytes(buf));
  }

  /** Where the file is the encoding of a text, the stored bytes are the encoding of the applied
      text, whichever path wrote them. */
  lemma TextFilesAreApplied(st: Style, text: string)
    requires Proper(st) && FixFile(st, Utf8(text)) != Refused
    ensures Stored(FixOf(st), Utf8(text)) == Utf8(Apply(st, text))
  {
    BytePathAgrees(st, text);
    DecodeOfUtf8(text);
  }

  /** The bytes of some text. */
  ghost predicate IsUtf8(buf: seq<Byte>) { exists text :: Utf8(text) == buf }

  /** A text whose first line is no shebang and no header line of any licence. */
  predicate IsBare(st: Style, text: string) {
    !IsShebang(text) && text[..LineEnd(text)] != st.header && !IsStale(st, text[..LineEnd(text)])
  }

  /** Putting the header in front of a file leaves the file's own bytes as they were exactly where
      they are UTF-8; the text path writes the decoded text back. */
  lemma BytesSurviveIffUtf8(st: Style, buf: seq<Byte>)
    requires Proper(st) && !IsBinary(buf) && IsBare(st, DecodeBytes(buf))
    ensures FixFile(st, buf).Wrote?
    ensures FixFile(st, buf).bytes == Utf8(st.header + "\n") + buf <==> IsUtf8(buf)
  {
    var text, head := DecodeBytes(buf), st.header + "\n";
    FirstLine(text);
    ApplyIsIdempotent(st, text);
    Utf8Append(head, text);
    assert FixFile(st, buf).bytes[|Utf8(head)|..] == Utf8(text);
    if IsUtf8(buf) {
      var t :| Utf8(t) == buf;
      DecodeOfUtf8(t);
    }
  }

  lemma OneBadByte(buf: seq<Byte>)
    requires |buf| == 1 && buf[0] >= 0xF5
    ensures DecodeBytes(buf) == [REPLACEMENT] && !IsUtf8(buf) && !IsBinary(buf)
  {
    assert DecodeBytesStep(buf) == Step(REPLACEMENT, 1);
    assert buf[1..] == [];
    assert |Utf8([REPLACEMENT])| >= 3 by {
      assert Utf8([REPLACEMENT]) == Utf8Char(REPLACEMENT) + Utf8([REPLACEMENT][1..]);
    }
    if text :| Utf8(text) == buf { DecodeOfUtf8(text); }
  }

  lemma ReplacementIsBare(st: Style, text: string)
    requires Proper(st) && text == [REPLACEMENT]
    ensures IsBare(st, text)
  {
    assert text[..LineEnd(text)] == text;
    assert st.header != text by {
      if |st.header| == 1 { assert st.header[0] != REPLACEMENT; }
    }
    forall k | 0 <= k < |st.stale| ensures st.stale[k] != text {
      if |st.stale[k]| == 1 { assert st.stale[k][0] != REPLACEMENT; }
    }
  }

  /** A file of one byte that begins no character: the byte is not there afterwards. */
  lemma InvalidByteIsLost(buf: seq<Byte>)
    requires buf == [0xFF]
    ensures FixFile(SLASH_STYLE, buf).Wrote?
    ensures FixFile(SLASH_STYLE, buf).bytes != Utf8(SLASH_STYLE.header + "\n") + buf
  {
    BothStylesAreProper();
    OneBadByte(buf);
    ReplacementIsBare(SLASH_STYLE, [REPLACEMENT]);
    BytesSurviveIffUtf8(SLASH_STYLE, buf);
  }

  /** Running the fix twice leaves the tree as one run left it. */
  lemma SecondRunChangesNothing(st: Style, bufs: seq<seq<Byte>>, stored: seq<seq<Byte>>, n: nat)
    requires Proper(st) && |stored| == |bufs| && n <= |bufs|
    requires forall k :: 0 <= k < |bufs| ==> FixFile(st, bufs[k]) != Refused
    requires forall k :: 0 <= k < |bufs| ==> stored[k] == Stored(FixOf(st), bufs[k])
    ensures Changes(FixOf(st), stored, n) == 0
  {
    if n > 0 {
      SecondRunChangesNothing(st, bufs, stored, n - 1);
      SecondFixKeeps(st, bufs[n - 1]);
    }
  }

  /** The hash twin never refuses, writes exactly the files its audit reports, and a second run
      keeps them all. */
  lemma SecondHashFixKeeps(st: Style, buf: seq<Byte>)
    requires Proper(st)
    ensures FixHashFile(st, buf) == Kept <==> !AuditMisses(st, buf)
    ensures FixHashFile(st, buf) != Refused
    ensures !AuditMisses(st, Stored(HashFixOf(st), buf))
    ensures FixHashFile(st, Stored(HashFixOf(st), buf)) == Kept
  {
    var text := DecodeBytes(buf);
    ApplyIsIdempotent(st, text);
    if !IsBinary(buf) {
      WrittenText(st, buf);
      ApplyEstablishesHeader(st, text);
      ApplyIsIdempotent(st, Apply(st, text));
    }
  }
}
