/** The licence-header codemod: one header line in the first line of a source file, or in the
    second behind a shebang. */
module SpdxHeader {
  import opened JsText
  import opened PercentEncoding

  /** A comment style: its header line, and the header lines of earlier licences. */
  datatype Style = Style(header: string, stale: seq<string>)

  const TAG := "SPDX-License-Identifier: "
  const FSL := "FSL-1.1-ALv2"
  const APACHE := "Apache-2.0"

  const SLASH_STYLE := Style("// " + TAG + FSL, ["// " + TAG + APACHE])
  const HASH_STYLE := Style("# " + TAG + FSL, ["# " + TAG + APACHE])

  predicate IsShebang(s: string) { |s| >= 2 && s[0] == '#' && s[1] == '!' }

  predicate IsPrintable(s: string) { forall k :: 0 <= k < |s| ==> ' ' <= s[k] <= '~' }

  predicate IsHeaderLine(s: string) { IsPrintable(s) && !IsShebang(s) }

  /** What the proofs need of a style; both styles of the tool have it. */
  predicate Proper(st: Style) {
    && IsHeaderLine(st.header)
    && forall k :: 0 <= k < |st.stale| ==> IsHeaderLine(st.stale[k]) && |st.stale[k]| <= |st.header|
  }

  lemma TagsArePrintable()
    ensures IsPrintable(TAG) && IsPrintable(FSL) && IsPrintable(APACHE)
  {
  }

  lemma IsHeaderConcat(lead: string, licence: string)
    requires IsPrintable(lead) && IsPrintable(licence) && |lead| >= 2 && lead[1] != '!'
    ensures IsHeaderLine(lead + TAG + licence)
  {
    TagsArePrintable();
    assert (lead + TAG + licence)[1] == lead[1];
  }

  lemma BothStylesAreProper()
    ensures Proper(SLASH_STYLE) && Proper(HASH_STYLE)
  {
    TagsArePrintable();
    IsHeaderConcat("// ", FSL);
    IsHeaderConcat("// ", APACHE);
    IsHeaderConcat("# ", FSL);
    IsHeaderConcat("# ", APACHE);
  }

  predicate IsStale(st: Style, line: string) { exists k :: 0 <= k < |st.stale| && st.stale[k] == line }

  // ---------- the text path ----------

  predicate HasHeader(st: Style, text: string) { HasHeaderLine(st, Split(text, '\n')) }

  predicate HasHeaderLine(st: Style, lines: seq<string>)
    requires lines != []
  {
    if IsShebang(lines[0]) then |lines| > 1 && lines[1] == st.header else lines[0] == st.header
  }

  /** The first newline; the end of the text where there is none. */
  function LineEnd(text: string): (r: nat)
    ensures r <= |text| && '\n' !in text[..r] && (r < |text| ==> text[r] == '\n')
  {
    if text == "" || text[0] == '\n' then 0
    else
      var r := LineEnd(text[1..]);
      assert text[..r + 1] == [text[0]] + text[1..][..r];
      r + 1
  }

  /** The text without the stale header line it may begin with. */
  function DropStale(st: Style, text: string): string {
    var e := LineEnd(text);
    if IsStale(st, text[..e]) then (if e == |text| then "" else text[e + 1..]) else text
  }

  function Apply(st: Style, text: string): string {
    if HasHeader(st, text) then text
    else if IsShebang(text) then
      var nl := LineEnd(text);
      if nl == |text| then text + "\n" + st.header + "\n"
      else text[..nl] + "\n" + st.header + "\n" + DropStale(st, text[nl + 1..])
    else st.header + "\n" + DropStale(st, text)
  }

  // ---------- what it does to the lines ----------

  lemma CutAt(text: string, e: nat)
    requires e < |text| && text[e] == '\n'
    ensures text == text[..e] + "\n" + text[e + 1..]
  {
  }

  lemma LinesOf(text: string)
    ensures LineEnd(text) == |text| ==> Split(text, '\n') == [text]
    ensures LineEnd(text) < |text| ==>
              Split(text, '\n') == [text[..LineEnd(text)]] + Split(text[LineEnd(text) + 1..], '\n')
  {
    var e := LineEnd(text);
    if e == |text| {
      assert text[..e] == text;
      SplitOfPart(text, '\n');
    } else {
      CutAt(text, e);
      SplitOfCons(text[..e], '\n', text[e + 1..]);
    }
  }

  function DropStaleLine(st: Style, lines: seq<string>): seq<string>
    requires lines != []
  {
    if !IsStale(st, lines[0]) then lines else if |lines| == 1 then [""] else lines[1..]
  }

  lemma LinesOfDropStale(st: Style, text: string)
    ensures Split(DropStale(st, text), '\n') == DropStaleLine(st, Split(text, '\n'))
  {
    LinesOf(text);
    var e := LineEnd(text);
    if e == |text| { assert text[..e] == text; }
  }

  lemma FirstLine(text: string)
    ensures Split(text, '\n')[0] == text[..LineEnd(text)]
    ensures IsShebang(Split(text, '\n')[0]) <==> IsShebang(text)
  {
    LinesOf(text);
    var e := LineEnd(text);
    if e == |text| { assert text[..e] == text; }
    assert forall k :: 0 <= k < e ==> text[..e][k] == text[k];
  }

  function ApplyToLines(st: Style, lines: seq<string>): seq<string>
    requires lines != []
  {
    if HasHeaderLine(st, lines) then lines
    else if !IsShebang(lines[0]) then [st.header] + DropStaleLine(st, lines)
    else if |lines| == 1 then lines + [st.header, ""]
    else [lines[0], st.header] + DropStaleLine(st, lines[1..])
  }

  lemma HeaderHasNoNewline(st: Style)
    requires Proper(st)
    ensures '\n' !in st.header
  {
  }

  lemma LinesOfHeaded(st: Style, text: string)
    requires Proper(st)
    ensures Split(st.header + "\n" + DropStale(st, text), '\n') == [st.header] + DropStaleLine(st, Split(text, '\n'))
  {
    HeaderHasNoNewline(st);
    LinesOfDropStale(st, text);
    SplitOfCons(st.header, '\n', DropStale(st, text));
  }

  lemma SplitOfTwo(a: string, b: string, rest: string)
    requires '\n' !in a && '\n' !in b
    ensures Split(a + "\n" + b + "\n" + rest, '\n') == [a, b] + Split(rest, '\n')
  {
    var tail := b + "\n" + rest;
    SplitOfCons(b, '\n', rest);
    SplitOfCons(a, '\n', tail);
    LinesInTurn(a, "\n", b, rest);
    assert [a] + ([b] + Split(rest, '\n')) == [a, b] + Split(rest, '\n');
  }

  lemma LinesInTurn(a: string, nl: string, b: string, rest: string)
    ensures a + nl + b + nl + rest == a + nl + (b + nl + rest)
  {
  }

  lemma LinesOfApply(st: Style, text: string)
    requires Proper(st)
    ensures Split(Apply(st, text), '\n') == ApplyToLines(st, Split(text, '\n'))
  {
    FirstLine(text);
    LinesOf(text);
    var e := LineEnd(text);
    if HasHeader(st, text) {
    } else if !IsShebang(text) {
      LinesOfHeaded(st, text);
    } else if e == |text| {
      assert text[..e] == text;
      HeaderHasNoNewline(st);
      SplitOfTwo(text, st.header, "");
      assert text + "\n" + st.header + "\n" + "" == Apply(st, text);
    } else {
      HeaderHasNoNewline(st);
      SplitOfTwo(text[..e], st.header, DropStale(st, text[e + 1..]));
      LinesOfDropStale(st, text[e + 1..]);
      assert Split(text, '\n')[1..] == Split(text[e + 1..], '\n');
    }
  }

  /** The header stands where it belongs after one application. */
  lemma ApplyEstablishesHeader(st: Style, text: string)
    requires Proper(st)
    ensures HasHeader(st, Apply(st, text))
  {
    LinesOfApply(st, text);
  }

  /** Where it belongs: at the top, or right behind a first line that begins `#!` and is kept.  Only
      a text that has it there already is left as it is. */
  lemma HeaderStands(st: Style, text: string)
    requires Proper(st)
    ensures var lines, after := Split(text, '\n'), Split(Apply(st, text), '\n');
      if StartsWith(text, "#!") then
        |after| > 1 && after[0] == lines[0] && after[1] == st.header
        && (Apply(st, text) == text <==> |lines| > 1 && lines[1] == st.header)
      else after[0] == st.header && (Apply(st, text) == text <==> lines[0] == st.header)
  {
    assert IsShebang(text) <==> StartsWith(text, "#!");
    FirstLine(text);
    LinesOfApply(st, text);
    ApplyIsIdempotent(st, text);
  }

  /** The headers of the two comment styles, and the licence each replaces. */
  lemma StylesAre(st: Style, lead: string)
    requires (st == SLASH_STYLE && lead == "// ") || (st == HASH_STYLE && lead == "# ")
    ensures st.header == lead + "SPDX-License-Identifier: " + "FSL-1.1-ALv2"
    ensures st.stale == [lead + "SPDX-License-Identifier: " + "Apache-2.0"]
  {
  }

  lemma ApplyIsIdempotent(st: Style, text: string)
    requires Proper(st)
    ensures Apply(st, Apply(st, text)) == Apply(st, text)
    ensures Apply(st, text) == text <==> HasHeader(st, text)
  {
    ApplyEstablishesHeader(st, text);
  }

  /** The lines of a file besides the header line in its slot. */
  function Content(st: Style, lines: seq<string>): seq<string>
    requires lines != []
  {
    var slot := if IsShebang(lines[0]) then 1 else 0;
    lines[..slot]
    + if slot < |lines| && (lines[slot] == st.header || IsStale(st, lines[slot])) then lines[slot + 1..]
      else lines[slot..]
  }

  /** Nothing follows the header's slot, or nothing follows the stale line in it. */
  predicate EndsAtSlot(st: Style, lines: seq<string>)
    requires lines != []
  {
    var slot := if IsShebang(lines[0]) then 1 else 0;
    |lines| == slot || (|lines| == slot + 1 && IsStale(st, lines[slot]) && lines[slot] != st.header)
  }

  /** Everything but the header line is kept, shebang first; only a newline may be added at the
      end of a file that ends in the slot. */
  lemma ApplyKeepsContent(st: Style, text: string)
    requires Proper(st)
    ensures var before, after := Split(text, '\n'), Split(Apply(st, text), '\n');
            Content(st, after) == Content(st, before) + if EndsAtSlot(st, before) then [""] else []
  {
    LinesOfApply(st, text);
    var before := Split(text, '\n');
    if !HasHeaderLine(st, before) && IsShebang(before[0]) {
      KeptBehindShebang(st, before);
    } else if !HasHeaderLine(st, before) {
      KeptAtTop(st, before);
    } else {
      assert Content(st, before) + [] == Content(st, before);
    }
  }

  lemma KeptAtTop(st: Style, lines: seq<string>)
    requires Proper(st) && lines != [] && !HasHeaderLine(st, lines) && !IsShebang(lines[0])
    ensures Content(st, ApplyToLines(st, lines)) == Content(st, lines) + if EndsAtSlot(st, lines) then [""] else []
  {
    assert ApplyToLines(st, lines)[0] == st.header;
    assert ApplyToLines(st, lines)[1..] == DropStaleLine(st, lines);
  }

  lemma KeptBehindShebang(st: Style, lines: seq<string>)
    requires Proper(st) && lines != [] && !HasHeaderLine(st, lines) && IsShebang(lines[0])
    ensures Content(st, ApplyToLines(st, lines)) == Content(st, lines) + if EndsAtSlot(st, lines) then [""] else []
  {
    var after := ApplyToLines(st, lines);
    assert after[0] == lines[0] && after[1] == st.header;
    assert after[2..] == if |lines| == 1 then [""] else DropStaleLine(st, lines[1..]);
  }

  // ---------- the byte path ----------

  const NUL_WINDOW := 8192

  /** A NUL byte at position i, within the first 8 KiB. */
  predicate NulAt(buf: seq<Byte>, i: nat) { i < |buf| && i < NUL_WINDOW && buf[i] == 0 }

  predicate IsBinary(buf: seq<Byte>) { exists i :: 0 <= i < |buf| && NulAt(buf, i) }

  lemma BinaryIff(buf: seq<Byte>)
    ensures IsBinary(buf) <==> exists i :: 0 <= i < |buf| && i < 8192 && buf[i] == 0
  {
    if i :| 0 <= i < |buf| && i < 8192 && buf[i] == 0 { assert NulAt(buf, i); }
  }

  method ScanForNul(buf: seq<Byte>) returns (binary: bool)
    ensures binary == IsBinary(buf)
  {
    var n := if |buf| < NUL_WINDOW then |buf| else NUL_WINDOW;
    for i := 0 to n
      invariant forall k: nat :: k < i ==> !NulAt(buf, k)
    {
      if buf[i] == 0 {
        assert NulAt(buf, i);
        return true;
      }
    }
    return false;
  }

  datatype Outcome = Kept | Wrote(bytes: seq<Byte>) | Refused

  /** The first stale header line, from the k-th on, that opens the buffer. */
  function OpeningStale(st: Style, buf: seq<Byte>, k: nat): (r: Option<nat>)
    requires k <= |st.stale|
    ensures r.Some? ==> k <= r.value < |st.stale| && Utf8(st.stale[r.value] + "\n") <= buf
    ensures r.None? ==> forall j :: k <= j < |st.stale| ==> !(Utf8(st.stale[j] + "\n") <= buf)
    decreases |st.stale| - k
  {
    if k == |st.stale| then None
    else if Utf8(st.stale[k] + "\n") <= buf then Some(k)
    else OpeningStale(st, buf, k + 1)
  }

  /** What `fixDir` does to a file that looks binary. */
  function FixBytes(st: Style, buf: seq<Byte>): Outcome {
    var headerBytes := Utf8(st.header + "\n");
    if headerBytes <= buf then Kept
    else
      match OpeningStale(st, buf, 0)
      case Some(k) => Wrote(headerBytes + buf[|Utf8(st.stale[k] + "\n")|..])
      case None => Refused
  }

  /** What it does to any other file; texts are compared before writing. */
  function FixText(st: Style, text: string): Outcome {
    var after := Apply(st, text);
    if after == text then Kept else Wrote(Utf8(after))
  }

  predicate IsAscii(s: string) { forall k :: 0 <= k < |s| ==> 0 < Code(s[k]) < 0x80 }

  /** No proper part of a character's bytes is an ASCII byte, so prefixes agree. */
  lemma {:induction false} AsciiPrefix(p: string, t: string)
    requires IsAscii(p)
    ensures Utf8(p) <= Utf8(t) <==> p <= t
    ensures p <= t ==> Utf8(t)[|Utf8(p)|..] == Utf8(t[|p|..])
  {
    if p == "" {
    } else if t != "" {
      AsciiPrefix(p[1..], t[1..]);
      var a, b := Utf8(p[1..]), Utf8(t[1..]);
      assert Utf8(p) == [Code(p[0])] + a && Utf8(t) == Utf8Char(t[0]) + b;
      if p[0] == t[0] {
        assert Utf8(p)[1..] == a && Utf8(t)[1..] == b;
        assert p <= t <==> p[1..] <= t[1..];
        assert Utf8(p) <= Utf8(t) <==> a <= b;
      } else {
        assert Utf8(p)[0] != Utf8(t)[0];
      }
    }
  }

  lemma LineIsAscii(line: string)
    requires IsHeaderLine(line)
    ensures IsAscii(line + "\n") && IsAscii(line)
  {
    assert forall k :: 0 <= k < |line| ==> ' ' <= line[k] <= '~';
  }

  lemma {:induction false} LineEndIs(line: string, rest: string)
    requires '\n' !in line
    ensures LineEnd(line + "\n" + rest) == |line|
  {
    if line != "" {
      LineEndIs(line[1..], rest);
      assert (line + "\n" + rest)[1..] == line[1..] + "\n" + rest;
    }
  }

  lemma OpeningIsNoShebang(line: string, rest: string)
    requires IsHeaderLine(line)
    ensures !IsShebang(line + "\n" + rest)
  {
    var t := line + "\n" + rest;
    if |line| == 1 { assert t[1] == '\n'; } else if |line| == 0 { assert t[0] == '\n'; }
  }

  /** The text path on a text that opens with a header line of any kind. */
  lemma ApplyToOpening(st: Style, line: string, rest: string)
    requires Proper(st) && IsHeaderLine(line) && (line == st.header || IsStale(st, line))
    ensures Apply(st, line + "\n" + rest) == st.header + "\n" + rest
  {
    var text := line + "\n" + rest;
    LineEndIs(line, rest);
    OpeningIsNoShebang(line, rest);
    FirstLine(text);
    assert text[..|line|] == line && text[|line| + 1..] == rest;
  }

  ghost predicate Opens(st: Style, text: string) {
    st.header + "\n" <= text || exists k :: 0 <= k < |st.stale| && st.stale[k] + "\n" <= text
  }

  /** The byte path does what the text path does where the file opens with a current or a stale
      header line, and refuses every other file. */
  lemma BytePathAgrees(st: Style, text: string)
    requires Proper(st)
    ensures Opens(st, text) ==> FixBytes(st, Utf8(text)) == FixText(st, text)
    ensures !Opens(st, text) <==> FixBytes(st, Utf8(text)) == Refused
  {
    LineIsAscii(st.header);
    AsciiPrefix(st.header + "\n", text);
    forall k | 0 <= k < |st.stale|
      ensures Utf8(st.stale[k] + "\n") <= Utf8(text) <==> st.stale[k] + "\n" <= text
    {
      LineIsAscii(st.stale[k]);
      AsciiPrefix(st.stale[k] + "\n", text);
    }
    if st.header + "\n" <= text {
      OpensWith(st, text, st.header);
    } else if OpeningStale(st, Utf8(text), 0).Some? {
      var k := OpeningStale(st, Utf8(text), 0).value;
      StaleOpens(st, text, k);
    }
  }

  lemma OpensWith(st: Style, text: string, line: string)
    requires Proper(st) && IsHeaderLine(line) && (line == st.header || IsStale(st, line))
    requires line + "\n" <= text
    ensures Apply(st, text) == st.header + "\n" + text[|line| + 1..]
    ensures text == line + "\n" + text[|line| + 1..]
  {
    ApplyToOpening(st, line, text[|line| + 1..]);
    assert text == line + "\n" + text[|line| + 1..];
  }

  lemma StaleOpens(st: Style, text: string, k: nat)
    requires Proper(st) && k < |st.stale| && st.stale[k] + "\n" <= text && !(st.header + "\n" <= text)
    ensures var headerBytes, staleBytes := Utf8(st.header + "\n"), Utf8(st.stale[k] + "\n");
            staleBytes <= Utf8(text) && FixText(st, text) == Wrote(headerBytes + Utf8(text)[|staleBytes|..])
  {
    var stale := st.stale[k] + "\n";
    OpensWith(st, text, st.stale[k]);
    LineIsAscii(st.stale[k]);
    AsciiPrefix(stale, text);
    Utf8Append(st.header + "\n", text[|stale|..]);
    assert st.header + "\n" <= Apply(st, text);
  }

  // ---------- running the fix again ----------

  lemma {:induction false} AsciiBytes(s: string)
    requires IsAscii(s)
    ensures |Utf8(s)| == |s| && forall k :: 0 <= k < |s| ==> Utf8(s)[k] != 0
  {
    if s != "" { AsciiBytes(s[1..]); }
  }

  /** `after` is `text` with `cut` replaced by `put`. */
  predicate Replaces(text: string, after: string, pre: string, cut: string, put: string, rest: string) {
    && text == pre + cut + rest && after == pre + put + rest
    && IsAscii(cut) && IsAscii(put) && |cut| <= |put|
  }

  lemma ReplacesAtTop(cut: string, h: string, rest: string)
    requires IsAscii(cut) && IsAscii(h + "\n") && |cut| <= |h| + 1
    ensures Replaces(cut + rest, h + "\n" + rest, "", cut, h + "\n", rest)
  {
    assert "" + cut + rest == cut + rest;
    assert "" + (h + "\n") + rest == h + "\n" + rest;
  }

  lemma ReplacesAtEnd(a: string, h: string)
    requires IsAscii(h + "\n")
    ensures Replaces(a, a + "\n" + h + "\n", a, "", "\n" + (h + "\n"), "")
  {
    assert a + "" + "" == a;
    assert a + "\n" + h + "\n" == a + ("\n" + (h + "\n")) + "";
  }

  lemma ReplacesBehind(a: string, cut: string, h: string, rest: string)
    requires IsAscii(cut) && IsAscii(h + "\n") && |cut| <= |h| + 1
    ensures Replaces(a + "\n" + (cut + rest), a + "\n" + h + "\n" + rest, a + "\n", cut, h + "\n", rest)
  {
    assert a + "\n" + (cut + rest) == (a + "\n") + cut + rest;
    assert a + "\n" + h + "\n" + rest == (a + "\n") + (h + "\n") + rest;
  }

  lemma StaleCut(st: Style, text: string) returns (cut: string, rest: string)
    requires Proper(st)
    ensures text == cut + rest && DropStale(st, text) == rest && IsAscii(cut) && |cut| <= |st.header| + 1
  {
    var e := LineEnd(text);
    rest := DropStale(st, text);
    cut := text[..|text| - |rest|];
    if IsStale(st, text[..e]) {
      LineIsAscii(text[..e]);
      assert cut == if e == |text| then text[..e] else text[..e] + "\n";
    }
  }

  lemma NulMovesBack(pre: seq<Byte>, cut: seq<Byte>, put: seq<Byte>, rest: seq<Byte>, i: nat)
    requires |cut| <= |put| && forall k :: 0 <= k < |put| ==> put[k] != 0
    requires NulAt(pre + put + rest, i)
    ensures IsBinary(pre + cut + rest)
  {
    assert NulAt(pre + cut + rest, if i < |pre| then i else i - |put| + |cut|);
  }

  lemma ReplacedWasBinary(text: string, after: string, pre: string, cut: string, put: string, rest: string)
    requires Replaces(text, after, pre, cut, put, rest) && IsBinary(Utf8(after))
    ensures IsBinary(Utf8(text))
  {
    var i: nat :| NulAt(Utf8(after), i);
    Utf8OfThree(pre, put, rest);
    Utf8OfThree(pre, cut, rest);
    AsciiBytes(put);
    AsciiBytes(cut);
    NulMovesBack(Utf8(pre), Utf8(cut), Utf8(put), Utf8(rest), i);
  }

  /** Applying the header makes no file look binary. */
  lemma ApplyKeepsTextual(st: Style, text: string)
    requires Proper(st) && IsBinary(Utf8(Apply(st, text)))
    ensures IsBinary(Utf8(text))
  {
    var h, after := st.header, Apply(st, text);
    LineIsAscii(h);
    if after == text {
    } else if !IsShebang(text) {
      var cut, rest := StaleCut(st, text);
      ReplacesAtTop(cut, h, rest);
      ReplacedWasBinary(text, after, "", cut, h + "\n", rest);
    } else if LineEnd(text) == |text| {
      ReplacesAtEnd(text, h);
      ReplacedWasBinary(text, after, text, "", "\n" + (h + "\n"), "");
    } else {
      var e := LineEnd(text);
      BehindShebang(st, text[..e], text[e + 1..]);
      CutAt(text, e);
    }
  }

  lemma BehindShebang(st: Style, a: string, tail: string)
    requires Proper(st) && IsBinary(Utf8(a + "\n" + st.header + "\n" + DropStale(st, tail)))
    ensures IsBinary(Utf8(a + "\n" + tail))
  {
    var h := st.header;
    LineIsAscii(h);
    var cut, rest := StaleCut(st, tail);
    ReplacesBehind(a, cut, h, rest);
    ReplacedWasBinary(a + "\n" + (cut + rest), a + "\n" + h + "\n" + rest, a + "\n", cut, h + "\n", rest);
  }

  lemma Utf8OfThree(a: string, b: string, c: string)
    ensures Utf8(a + b + c) == Utf8(a) + Utf8(b) + Utf8(c)
  {
    Utf8Append(a + b, c);
    Utf8Append(a, b);
  }
}
