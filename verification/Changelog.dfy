/** The changelog tools: the lint that ties sections to the chart version, and the extractor that
    a release takes its notes from. */
module Changelog {
  import opened JsText

  const HEADER_PREFIX := "## ["

  // ---------- headers ----------

  /** The end of the run of digits from i. */
  function DigitEnd(s: string, i: nat): (e: nat)
    requires i <= |s|
    ensures i <= e <= |s| && (e < |s| ==> !IsDigit(s[e]))
    ensures forall p :: i <= p < e ==> IsDigit(s[p])
    decreases |s| - i
  {
    if i < |s| && IsDigit(s[i]) then DigitEnd(s, i + 1) else i
  }

  /** The end of `\d+\.` from i. */
  function PartEnd(s: string, i: nat): (e: Option<nat>)
    requires i <= |s|
    ensures e.Some? ==> i < e.value <= |s|
  {
    var d := DigitEnd(s, i);
    if i < d < |s| && s[d] == '.' then Some(d + 1) else None
  }

  /** The end of `\d+\.\d+\.\d+` from i. */
  function SemVerEnd(s: string, i: nat): (e: Option<nat>)
    requires i <= |s|
    ensures e.Some? ==> i < e.value <= |s|
  {
    match PartEnd(s, i)
    case None => None
    case Some(a) =>
      match PartEnd(s, a)
      case None => None
      case Some(b) => if DigitEnd(s, b) > b then Some(DigitEnd(s, b)) else None
  }

  /** The version of `^## \[(\d+\.\d+\.\d+)\]`. */
  function ReleasedVersion(line: string): (v: Option<string>)
    ensures v.Some? ==> IsHeaderOf(line, v.value) && IsVersion(v.value)
  {
    if !StartsWith(line, HEADER_PREFIX) then None
    else
      match SemVerEnd(line, 4)
      case None => None
      case Some(e) =>
        VersionHasNoBracket(line, 4);
        if e < |line| && line[e] == ']' then
          assert line[..e + 1] == HeaderOf(line[4..e]);
          Some(line[4..e])
        else None
  }

  function HeaderOf(version: string): string { HEADER_PREFIX + version + "]" }

  predicate IsHeaderOf(line: string, version: string) { StartsWith(line, HeaderOf(version)) }

  /** Only digits and dots. */
  predicate IsVersion(v: string) { forall p :: 0 <= p < |v| ==> IsDigit(v[p]) || v[p] == '.' }

  lemma VersionHasNoBracket(s: string, i: nat)
    requires i <= |s|
    ensures SemVerEnd(s, i).Some? ==> IsVersion(s[i..SemVerEnd(s, i).value])
  {
  }

  predicate NoBracket(s: string) { ']' !in s }

  /** 1.2.3 never matches 1.2.30: a line is the header of at most one version. */
  lemma HeaderNamesOneVersion(line: string, v: string, w: string)
    requires NoBracket(v) && NoBracket(w) && IsHeaderOf(line, v) && IsHeaderOf(line, w)
    ensures v == w
  {
    var a, b := HeaderOf(v), HeaderOf(w);
    assert a[4 + |v|] == ']' && b[4 + |w|] == ']';
    assert forall p :: 0 <= p < |v| ==> a[4 + p] == v[p];
    assert forall p :: 0 <= p < |w| ==> b[4 + p] == w[p];
    assert |v| == |w|;
    assert v == line[4..4 + |v|] && w == line[4..4 + |w|];
  }

  predicate IsSemVer(v: string) { SemVerEnd(v, 0) == Some(|v|) }

  /** s from i and t from k read the same for n characters. */
  predicate Window(s: string, i: nat, t: string, k: nat, n: nat) {
    i + n <= |s| && k + n <= |t| && s[i..i + n] == t[k..k + n]
  }

  lemma {:induction false} DigitEndIs(s: string, i: nat, e: nat)
    requires i <= e <= |s| && (e < |s| ==> !IsDigit(s[e])) && forall p :: i <= p < e ==> IsDigit(s[p])
    ensures DigitEnd(s, i) == e
    decreases e - i
  {
    if i < e { DigitEndIs(s, i + 1, e); }
  }

  lemma DigitsMove(s: string, i: nat, t: string, k: nat, n: nat, m: nat)
    requires Window(s, i, t, k, n) && m <= n && forall p :: i <= p < i + m ==> IsDigit(s[p])
    requires k + m < |t| ==> !IsDigit(t[k + m])
    ensures DigitEnd(t, k) == k + m
  {
    forall p | k <= p < k + m ensures IsDigit(t[p]) { SliceAt(s, i, t, k, n, p - k); }
    DigitEndIs(t, k, k + m);
  }

  lemma PartMoves(s: string, i: nat, t: string, k: nat, n: nat)
    requires Window(s, i, t, k, n) && PartEnd(s, i).Some? && PartEnd(s, i).value <= i + n
    ensures PartEnd(t, k) == Some(k + (PartEnd(s, i).value - i))
  {
    var m := DigitEnd(s, i) - i;
    SliceAt(s, i, t, k, n, m);
    DigitsMove(s, i, t, k, n, m);
  }

  predicate PartsAt(s: string, i: nat, a: nat, b: nat, e: nat) {
    i <= a <= b < e <= |s| && PartEnd(s, i) == Some(a) && PartEnd(s, a) == Some(b) && DigitEnd(s, b) == e
  }

  lemma EndIsParts(s: string, i: nat, a: nat, b: nat, e: nat)
    requires PartsAt(s, i, a, b, e)
    ensures SemVerEnd(s, i) == Some(e)
  {
  }

  lemma PartsOfEnd(s: string, i: nat, e: nat) returns (a: nat, b: nat)
    requires i <= |s| && SemVerEnd(s, i) == Some(e)
    ensures PartsAt(s, i, a, b, e)
  {
    a := PartEnd(s, i).value;
    b := PartEnd(s, a).value;
  }

  lemma PartsMove(s: string, i: nat, t: string, k: nat, n: nat, a: nat, b: nat, c: nat, d: nat)
    requires Window(s, i, t, k, n) && PartsAt(s, i, a, b, i + n) && c == k + (a - i) && d == k + (b - i)
    requires k + n < |t| ==> !IsDigit(t[k + n])
    ensures PartsAt(t, k, c, d, k + n)
  {
    PartMoves(s, i, t, k, n);
    SliceOfSlice(s, i, t, k, n, a - i);
    PartMoves(s, a, t, c, n - (a - i));
    SliceOfSlice(s, i, t, k, n, b - i);
    LastPartMoves(s, b, t, d, n - (b - i));
  }

  lemma LastPartMoves(s: string, b: nat, t: string, k: nat, n: nat)
    requires Window(s, b, t, k, n) && DigitEnd(s, b) == b + n && (k + n < |t| ==> !IsDigit(t[k + n]))
    ensures DigitEnd(t, k) == k + n
  {
    DigitsMove(s, b, t, k, n, n);
  }

  /** A version reads the same wherever it stands, as long as no digit follows it. */
  lemma SemVerMoves(s: string, i: nat, t: string, k: nat, n: nat)
    requires Window(s, i, t, k, n) && SemVerEnd(s, i) == Some(i + n)
    requires k + n < |t| ==> !IsDigit(t[k + n])
    ensures SemVerEnd(t, k) == Some(k + n)
  {
    var a, b := PartsOfEnd(s, i, i + n);
    var c, d := k + (a - i), k + (b - i);
    PartsMove(s, i, t, k, n, a, b, c, d);
    EndIsParts(t, k, c, d, k + n);
  }

  lemma HeaderSlices(line: string, v: string)
    requires IsHeaderOf(line, v)
    ensures |line| >= 5 + |v| && line[..4] == HEADER_PREFIX && line[4..4 + |v|] == v && line[4 + |v|] == ']'
  {
    var h := HeaderOf(v);
    assert line[..|h|] == h;
    assert h[..4] == HEADER_PREFIX && h[4..4 + |v|] == v && h[4 + |v|] == ']';
    assert line[..4] == line[..|h|][..4] && line[4..4 + |v|] == line[..|h|][4..4 + |v|];
  }

  lemma HeaderIsReleased(line: string, v: string)
    requires IsSemVer(v) && IsHeaderOf(line, v)
    ensures ReleasedVersion(line) == Some(v)
  {
    HeaderSlices(line, v);
    VersionMovesIn(line, v, 4);
    EndIsReleased(line, v, 4 + |v|);
  }

  lemma VersionMovesIn(line: string, v: string, at: nat)
    requires IsSemVer(v) && at + |v| < |line| && line[at..at + |v|] == v && line[at + |v|] == ']'
    ensures SemVerEnd(line, at) == Some(at + |v|)
  {
    assert v == v[0..0 + |v|];
    SemVerMoves(v, 0, line, at, |v|);
  }

  lemma EndIsReleased(line: string, v: string, e: nat)
    requires 4 <= e < |line| && SemVerEnd(line, 4) == Some(e) && StartsWith(line, HEADER_PREFIX)
    requires line[4..e] == v && line[e] == ']'
    ensures ReleasedVersion(line) == Some(v)
  {
  }

  lemma ReleasedIsHeader(line: string, v: string)
    requires ReleasedVersion(line) == Some(v)
    ensures IsSemVer(v) && IsHeaderOf(line, v)
  {
    HeaderSlices(line, v);
    assert v == v[0..0 + |v|];
    ReleasedEndsAt(line, v);
    SemVerMoves(line, 4, v, 0, |v|);
  }

  lemma ReleasedEndsAt(line: string, v: string)
    requires ReleasedVersion(line) == Some(v)
    ensures SemVerEnd(line, 4) == Some(4 + |v|)
  {
  }

  /** The released version of a line is the only SemVer it can be the header of. */
  lemma ReleasedIffHeader(line: string, v: string)
    ensures ReleasedVersion(line) == Some(v) <==> IsSemVer(v) && IsHeaderOf(line, v)
  {
    if IsSemVer(v) && IsHeaderOf(line, v) { HeaderIsReleased(line, v); }
    if ReleasedVersion(line) == Some(v) { ReleasedIsHeader(line, v); }
  }

  // ---------- the chart's version ----------

  const APP_VERSION := "appVersion:"

  predicate LineStart(text: string, p: nat) { p == 0 || (p <= |text| && IsLineTerminator(text[p - 1])) }

  /** `\s*$` from p: only white space up to the end of a line. */
  predicate BlankToLineEnd(text: string, p: nat)
    requires p <= |text|
  {
    var e := SkipSpace(text, p);
    e == |text| || exists q :: p <= q < e && IsLineTerminator(text[q])
  }

  function SkipQuote(text: string, p: nat): (q: nat)
    requires p <= |text|
    ensures p <= q <= |text|
  {
    if p < |text| && text[p] == '"' then p + 1 else p
  }

  /** The version at `from`, in or out of quotes, if a line ends behind it. */
  function ReadFrom(text: string, from: nat): Option<string>
    requires from <= |text|
  {
    match SemVerEnd(text, from)
    case None => None
    case Some(e) => if BlankToLineEnd(text, SkipQuote(text, e)) then Some(text[from..e]) else None
  }

  function VersionReader(text: string): nat -> Option<string> {
    (from: nat) => if from <= |text| then ReadFrom(text, from) else None
  }

  /** What `read` finds behind the marker, white space and a quote, on a line at p that opens with
      the marker. */
  function ReadBehind(read: nat -> Option<string>, text: string, p: nat, marker: string): Option<string> {
    if !LineStart(text, p) || !StartsAt(text, p, marker) then None
    else read(SkipQuote(text, SkipSpace(text, p + |marker|)))
  }

  /** The version of an `appVersion:` line at p. */
  function AppVersionAt(text: string, p: nat): Option<string> {
    ReadBehind(VersionReader(text), text, p, APP_VERSION)
  }

  /** The first success of `read` from p on. */
  function FirstAt(read: nat -> Option<string>, p: nat, n: nat): Option<string>
    requires p <= n
    decreases n - p
  {
    if read(p).Some? then read(p) else if p == n then None else FirstAt(read, p + 1, n)
  }

  function AppVersionReader(text: string): nat -> Option<string> { (p: nat) => AppVersionAt(text, p) }

  function ParseAppVersion(text: string): Option<string> { FirstAt(AppVersionReader(text), 0, |text|) }

  lemma {:induction false} FirstIs(read: nat -> Option<string>, p: nat, q: nat, n: nat)
    requires p <= q <= n && read(q).Some? && forall j: nat :: p <= j < q ==> read(j) == None
    ensures FirstAt(read, p, n) == read(q)
    decreases q - p
  {
    if p < q { FirstIs(read, p + 1, q, n); }
  }

  predicate IsQuote(s: string) { s == "" || s == "\"" }

  predicate IsPad(s: string) { forall k :: 0 <= k < |s| ==> IsSpace(s[k]) }

  lemma SemVerOpens(v: string)
    requires IsSemVer(v)
    ensures v != "" && IsDigit(v[0])
  {
  }

  /** White space and a quote, or no quote, in front of c characters that are neither. */
  lemma SkipsPadAndQuote(text: string, c: nat, pad: string, quote: string, d: nat, f: nat)
    requires StartsAt(text, c, pad) && d == c + |pad| && StartsAt(text, d, quote) && f == d + |quote|
    requires IsPad(pad) && IsQuote(quote) && f < |text| && !IsSpace(text[f]) && text[f] != '"'
    ensures SkipQuote(text, SkipSpace(text, c)) == f
  {
    forall p | c <= p < d ensures IsSpace(text[p]) { CharIn(text, c, pad, p - c); }
    if quote != "" { CharIn(text, d, quote, 0); }
    SkipSpaceAt(text, c, d);
  }

  lemma BlankTail(text: string, g: nat, quote: string, tail: string)
    requires StartsAt(text, g, quote) && StartsAt(text, g + |quote|, tail)
    requires IsQuote(quote) && IsPad(tail) && '\n' in tail
    ensures g < |text| && !IsDigit(text[g]) && BlankToLineEnd(text, SkipQuote(text, g))
  {
    var h := g + |quote|;
    CharIn(text, h, tail, 0);
    if quote != "" { CharIn(text, g, quote, 0); }
    forall p | h <= p < h + |tail| ensures IsSpace(text[p]) { CharIn(text, h, tail, p - h); }
    var k :| 0 <= k < |tail| && tail[k] == '\n';
    CharIn(text, h, tail, k);
    assert SkipSpace(text, h) > h + k && IsLineTerminator(text[h + k]);
  }

  /** An `appVersion:` line: the version with or without quotes, in white space. */
  function VersionLine(marker: string, pad: string, open: string, v: string, close: string, tail: string): string {
    marker + (pad + (open + (v + (close + tail))))
  }

  /** Where the pieces of such a line stand. */
  lemma LinePieces(text: string, q: nat, marker: string, pad: string, open: string, v: string, close: string, tail: string)
      returns (c: nat, d: nat, f: nat, g: nat, h: nat)
    requires StartsAt(text, q, VersionLine(marker, pad, open, v, close, tail))
    ensures StartsAt(text, q, marker) && c == q + |marker| && StartsAt(text, c, pad) && d == c + |pad|
    ensures StartsAt(text, d, open) && f == d + |open| && StartsAt(text, f, v) && g == f + |v|
    ensures StartsAt(text, g, close) && h == g + |close| && StartsAt(text, h, tail)
  {
    c := q + |marker|;
    d := c + |pad|;
    f := d + |open|;
    g := f + |v|;
    h := g + |close|;
    StartsInTurn(text, q, marker, pad + (open + (v + (close + tail))));
    StartsInTurn(text, c, pad, open + (v + (close + tail)));
    StartsInTurn(text, d, open, v + (close + tail));
    StartsInTurn(text, f, v, close + tail);
    StartsInTurn(text, g, close, tail);
  }

  lemma VersionEnds(text: string, f: nat, g: nat, v: string)
    requires IsSemVer(v) && StartsAt(text, f, v) && g == f + |v| && (g < |text| ==> !IsDigit(text[g]))
    ensures SemVerEnd(text, f) == Some(g)
  {
    assert v == v[0..0 + |v|];
    SemVerMoves(v, 0, text, f, |v|);
  }

  lemma FrontReads(text: string, c: nat, d: nat, f: nat, pad: string, quote: string, v: string)
    requires StartsAt(text, c, pad) && d == c + |pad| && StartsAt(text, d, quote) && f == d + |quote|
    requires IsPad(pad) && IsQuote(quote) && StartsAt(text, f, v) && IsSemVer(v)
    ensures c <= |text| && SkipQuote(text, SkipSpace(text, c)) == f
  {
    SemVerOpens(v);
    CharIn(text, f, v, 0);
    SkipsPadAndQuote(text, c, pad, quote, d, f);
  }

  lemma BackReads(text: string, f: nat, g: nat, v: string, quote: string, tail: string)
    requires StartsAt(text, f, v) && IsSemVer(v) && g == f + |v|
    requires StartsAt(text, g, quote) && StartsAt(text, g + |quote|, tail)
    requires IsQuote(quote) && IsPad(tail) && '\n' in tail
    ensures f <= g < |text| && SemVerEnd(text, f) == Some(g) && BlankToLineEnd(text, SkipQuote(text, g))
  {
    BlankTail(text, g, quote, tail);
    VersionEnds(text, f, g, v);
  }

  lemma VersionReads(text: string, f: nat, g: nat, v: string)
    requires f <= g <= |text| && SemVerEnd(text, f) == Some(g) && BlankToLineEnd(text, SkipQuote(text, g))
    requires StartsAt(text, f, v) && g == f + |v|
    ensures ReadFrom(text, f) == Some(v)
  {
  }

  lemma MarkerReads(read: nat -> Option<string>, text: string, q: nat, marker: string, c: nat, d: nat, f: nat,
                    pad: string, open: string, v: string)
    requires LineStart(text, q) && StartsAt(text, q, marker) && c == q + |marker|
    requires StartsAt(text, c, pad) && d == c + |pad| && StartsAt(text, d, open) && f == d + |open|
    requires StartsAt(text, f, v) && IsSemVer(v) && IsPad(pad) && IsQuote(open)
    ensures ReadBehind(read, text, q, marker) == read(f)
  {
    FrontReads(text, c, d, f, pad, open, v);
  }

  lemma PiecesRead(read: nat -> Option<string>, text: string, f: nat, g: nat, h: nat, v: string, close: string, tail: string)
    requires StartsAt(text, f, v) && g == f + |v| && StartsAt(text, g, close) && h == g + |close| && StartsAt(text, h, tail)
    requires IsSemVer(v) && IsQuote(close) && IsPad(tail) && '\n' in tail && read == VersionReader(text)
    ensures read(f) == Some(v)
  {
    BackReads(text, f, g, v, close, tail);
    VersionReads(text, f, g, v);
  }

  lemma VersionLineReads(read: nat -> Option<string>, text: string, q: nat, marker: string, pad: string, open: string,
                         v: string, close: string, tail: string)
    requires IsSemVer(v) && LineStart(text, q) && StartsAt(text, q, VersionLine(marker, pad, open, v, close, tail))
    requires IsPad(pad) && IsQuote(open) && IsQuote(close) && IsPad(tail) && '\n' in tail && read == VersionReader(text)
    ensures ReadBehind(read, text, q, marker) == Some(v)
  {
    var c, d, f, g, h := LinePieces(text, q, marker, pad, open, v, close, tail);
    MarkerReads(read, text, q, marker, c, d, f, pad, open, v);
    PiecesRead(read, text, f, g, h, v, close, tail);
  }

  /** The version on the first `appVersion:` line of a chart is read, quoted or not. */
  lemma AppVersionOfLine(text: string, q: nat, pad: string, open: string, v: string, close: string, tail: string)
    requires IsSemVer(v) && LineStart(text, q)
    requires StartsAt(text, q, VersionLine(APP_VERSION, pad, open, v, close, tail))
    requires IsPad(pad) && IsQuote(open) && IsQuote(close) && IsPad(tail) && '\n' in tail
    requires forall p :: 0 <= p < q && LineStart(text, p) ==> !StartsAt(text, p, APP_VERSION)
    ensures ParseAppVersion(text) == Some(v)
  {
    VersionLineReads(VersionReader(text), text, q, APP_VERSION, pad, open, v, close, tail);
    forall j: nat | j < q ensures AppVersionReader(text)(j) == None { assert AppVersionAt(text, j) == None; }
    FirstIs(AppVersionReader(text), 0, q, |text|);
  }

  // ---------- the extractor ----------

  predicate IsLinkAt(line: string, k: nat) {
    1 < k && k + 2 < |line| && line[0] == '[' && NoBracket(line[1..k])
    && line[k] == ']' && line[k + 1] == ':' && IsSpace(line[k + 2])
  }

  /** `^\[[^\]]+\]:\s` */
  predicate IsLink(line: string) { exists k :: 0 <= k < |line| && IsLinkAt(line, k) }

  predicate EndsSection(line: string) { StartsWith(line, HEADER_PREFIX) || IsLink(line) }

  /** The first line from i on that passes the test; the end where none does. */
  function FindLine(test: string -> bool, lines: seq<string>, i: nat): (k: nat)
    requires i <= |lines|
    ensures i <= k <= |lines| && (k < |lines| ==> test(lines[k]))
    ensures forall j :: i <= j < k ==> !test(lines[j])
    decreases |lines| - i
  {
    if i < |lines| && !test(lines[i]) then FindLine(test, lines, i + 1) else i
  }

  function HeaderTest(version: string): string -> bool { line => IsHeaderOf(line, version) }

  predicate IsVisible(line: string) { !Blank(line) }

  /** The end of the last line of body[i..j] that passes the test. */
  function LastLine(test: string -> bool, body: seq<string>, i: nat, j: nat): (k: nat)
    requires i <= j <= |body|
    ensures i <= k <= j && (i < k ==> test(body[k - 1]))
    ensures forall p :: k <= p < j ==> !test(body[p])
    decreases j
  {
    if i < j && !test(body[j - 1]) then LastLine(test, body, i, j - 1) else j
  }

  /** Without the lines at either end that fail the test. */
  function TrimLines(test: string -> bool, body: seq<string>): seq<string> {
    var i := FindLine(test, body, 0);
    body[i..LastLine(test, body, i, |body|)]
  }

  function SectionBody(lines: seq<string>, start: nat): seq<string>
    requires start <= |lines|
  {
    lines[start..FindLine(EndsSection, lines, start)]
  }

  function ExtractFrom(lines: seq<string>, version: string): Option<string> {
    var k := FindLine(HeaderTest(version), lines, 0);
    if k == |lines| then None else Some(Join(TrimLines(IsVisible, SectionBody(lines, k + 1)), '\n'))
  }

  method Find(test: string -> bool, lines: seq<string>, from: nat) returns (k: nat)
    requires from <= |lines|
    ensures k == FindLine(test, lines, from)
  {
    k := from;
    while k < |lines| && !test(lines[k])
      invariant from <= k <= |lines| && FindLine(test, lines, k) == FindLine(test, lines, from)
    {
      k := k + 1;
    }
  }

  method Trimmed(test: string -> bool, lines: seq<string>) returns (body: seq<string>)
    ensures body == TrimLines(test, lines)
  {
    body := lines;
    ghost var i := 0;
    while |body| > 0 && !test(body[0])
      invariant i <= |lines| && body == lines[i..]
      invariant FindLine(test, lines, i) == FindLine(test, lines, 0)
    {
      WithoutEnds(lines, i, |lines|, body);
      body := body[1..];
      i := i + 1;
    }
    body := TrimmedBack(test, lines, i, body);
  }

  lemma WithoutEnds(lines: seq<string>, i: nat, j: nat, body: seq<string>)
    requires i < j <= |lines| && body == lines[i..j]
    ensures body[..|body| - 1] == lines[i..j - 1] && body[1..] == lines[i + 1..j]
    ensures body[0] == lines[i] && body[|body| - 1] == lines[j - 1]
  {
  }

  method TrimmedBack(test: string -> bool, ghost lines: seq<string>, ghost i: nat, front: seq<string>)
      returns (body: seq<string>)
    requires i <= |lines| && front == lines[i..]
    ensures body == lines[i..LastLine(test, lines, i, |lines|)]
  {
    body := front;
    ghost var j := |lines|;
    while |body| > 0 && !test(body[|body| - 1])
      invariant i <= j <= |lines| && body == lines[i..j]
      invariant LastLine(test, lines, i, j) == LastLine(test, lines, i, |lines|)
    {
      WithoutEnds(lines, i, j, body);
      body := body[..|body| - 1];
      j := j - 1;
    }
  }

  method ExtractSection(text: string, version: string) returns (section: Option<string>)
    ensures section == ExtractFrom(Split(text, '\n'), version)
  {
    var lines := Split(text, '\n');
    var k := Find(HeaderTest(version), lines, 0);
    if k == |lines| { return None; }
    var start := k + 1;
    var end := Find(EndsSection, lines, start);
    var body := Trimmed(IsVisible, lines[start..end]);
    section := Some(Join(body, '\n'));
  }

  // ---------- the lint ----------

  /** What `read` finds in the first n lines. */
  function Collect(read: string -> Option<string>, lines: seq<string>, n: nat): seq<string>
    requires n <= |lines|
  {
    if n == 0 then []
    else
      match read(lines[n - 1])
      case None => Collect(read, lines, n - 1)
      case Some(v) => Collect(read, lines, n - 1) + [v]
  }

  /** Every released version in file order. */
  function Released(lines: seq<string>): seq<string> { Collect(ReleasedVersion, lines, |lines|) }

  method Collected(read: string -> Option<string>, lines: seq<string>) returns (found: seq<string>)
    ensures found == Collect(read, lines, |lines|)
  {
    found := [];
    for i := 0 to |lines|
      invariant found == Collect(read, lines, i)
    {
      var m := read(lines[i]);
      if m.Some? { found := found + [m.value]; }
    }
  }

  method ParseReleasedVersions(text: string) returns (versions: seq<string>)
    ensures versions == Released(Split(text, '\n'))
  {
    versions := Collected(ReleasedVersion, Split(text, '\n'));
  }

  lemma {:induction false} CollectIff(read: string -> Option<string>, lines: seq<string>, v: string, n: nat)
    requires n <= |lines|
    ensures v in Collect(read, lines, n) <==> exists i :: 0 <= i < n && read(lines[i]) == Some(v)
  {
    if n > 0 { CollectIff(read, lines, v, n - 1); }
  }

  /** For a SemVer tag, the extractor finds a section exactly when the lint lists the version. */
  lemma ExtractsIffReleased(lines: seq<string>, v: string)
    requires IsSemVer(v)
    ensures ExtractFrom(lines, v).Some? <==> v in Released(lines)
  {
    var k := FindLine(HeaderTest(v), lines, 0);
    CollectIff(ReleasedVersion, lines, v, |lines|);
    forall i | 0 <= i < |lines| ensures ReleasedVersion(lines[i]) == Some(v) <==> HeaderTest(v)(lines[i]) {
      ReleasedIffHeader(lines[i], v);
    }
    if k < |lines| { assert ReleasedVersion(lines[k]) == Some(v); }
  }

  // ---------- a changelog written section by section ----------

  /** A title in brackets, what follows it on the header line, and the lines below. */
  datatype Section = Section(title: string, rest: string, body: seq<string>)

  function HeaderLine(s: Section): string { HeaderOf(s.title) + s.rest }

  function Render(sections: seq<Section>): seq<string> {
    if sections == [] then []
    else [HeaderLine(sections[0])] + sections[0].body + Render(sections[1..])
  }

  predicate IsPlain(s: Section) {
    NoBracket(s.title) && forall k :: 0 <= k < |s.body| ==> !EndsSection(s.body[k])
  }

  lemma {:induction false} FindLineIs(test: string -> bool, lines: seq<string>, i: nat, k: nat)
    requires i <= k <= |lines| && (k < |lines| ==> test(lines[k])) && forall j :: i <= j < k ==> !test(lines[j])
    ensures FindLine(test, lines, i) == k
    decreases k - i
  {
    if i < k { FindLineIs(test, lines, i + 1, k); }
  }

  /** The lines that end a section. */
  predicate Closed(rest: seq<string>) { rest == [] || EndsSection(rest[0]) }

  /** Where the extractor finds its section and what it takes. */
  lemma ExtractAt(v: string, before: seq<string>, header: string, body: seq<string>, rest: seq<string>)
    requires forall j :: 0 <= j < |before| ==> !IsHeaderOf(before[j], v)
    requires IsHeaderOf(header, v) && Closed(rest)
    requires forall j :: 0 <= j < |body| ==> !EndsSection(body[j])
    ensures ExtractFrom(before + [header] + body + rest, v) == Some(Join(TrimLines(IsVisible, body), '\n'))
  {
    var lines := before + [header] + body + rest;
    var k := |before|;
    FindLineIs(HeaderTest(v), lines, 0, k);
    FindLineIs(EndsSection, lines, k + 1, k + 1 + |body|);
    assert lines[k + 1..k + 1 + |body|] == body;
  }

  lemma HeaderNames(s: Section, v: string)
    requires NoBracket(s.title) && NoBracket(v)
    ensures IsHeaderOf(HeaderLine(s), v) <==> s.title == v
    ensures EndsSection(HeaderLine(s))
  {
    assert IsHeaderOf(HeaderLine(s), s.title);
    if IsHeaderOf(HeaderLine(s), v) { HeaderNamesOneVersion(HeaderLine(s), s.title, v); }
    HeaderSlices(HeaderLine(s), s.title);
  }

  lemma HeaderEndsSection(line: string, v: string)
    requires IsHeaderOf(line, v)
    ensures EndsSection(line)
  {
    HeaderSlices(line, v);
  }

  lemma {:induction false} NoHeaderInRender(sections: seq<Section>, v: string)
    requires NoBracket(v)
    requires forall k :: 0 <= k < |sections| ==> IsPlain(sections[k]) && sections[k].title != v
    ensures forall j :: 0 <= j < |Render(sections)| ==> !IsHeaderOf(Render(sections)[j], v)
  {
    if sections != [] {
      var s := sections[0];
      NoHeaderInRender(sections[1..], v);
      HeaderNames(s, v);
      forall j | 0 <= j < |s.body| ensures !IsHeaderOf(s.body[j], v) {
        if IsHeaderOf(s.body[j], v) { HeaderEndsSection(s.body[j], v); }
      }
    }
  }

  lemma {:induction false} RenderAppend(a: seq<Section>, b: seq<Section>)
    ensures Render(a + b) == Render(a) + Render(b)
  {
    if a == [] {
      assert a + b == b;
    } else {
      assert (a + b)[1..] == a[1..] + b;
      RenderAppend(a[1..], b);
    }
  }

  /** The preamble holds no header, the footer begins with a link line. */
  predicate Frames(preamble: seq<string>, footer: seq<string>) {
    Closed(footer) && forall j :: 0 <= j < |preamble| ==> !EndsSection(preamble[j])
  }

  lemma NoHeaderBefore(preamble: seq<string>, sections: seq<Section>, v: string)
    requires NoBracket(v) && forall j :: 0 <= j < |preamble| ==> !EndsSection(preamble[j])
    requires forall k :: 0 <= k < |sections| ==> IsPlain(sections[k]) && sections[k].title != v
    ensures forall j :: 0 <= j < |preamble + Render(sections)| ==> !IsHeaderOf((preamble + Render(sections))[j], v)
  {
    NoHeaderInRender(sections, v);
    forall j | 0 <= j < |preamble| ensures !IsHeaderOf(preamble[j], v) {
      if IsHeaderOf(preamble[j], v) { HeaderEndsSection(preamble[j], v); }
    }
  }

  lemma RenderClosed(sections: seq<Section>, footer: seq<string>)
    requires Closed(footer) && forall k :: 0 <= k < |sections| ==> IsPlain(sections[k])
    ensures Closed(Render(sections) + footer)
  {
    if sections == [] {
      assert Render(sections) + footer == footer;
    } else {
      HeaderNames(sections[0], sections[0].title);
    }
  }

  lemma RenderSplits(sections: seq<Section>, k: nat)
    requires k < |sections|
    ensures Render(sections)
         == Render(sections[..k]) + ([HeaderLine(sections[k])] + sections[k].body + Render(sections[k + 1..]))
  {
    var a, b := sections[..k], sections[k..];
    assert sections == a + b && b[0] == sections[k] && b[1..] == sections[k + 1..];
    RenderAppend(a, b);
  }

  lemma RenderAround(preamble: seq<string>, sections: seq<Section>, footer: seq<string>, k: nat)
    requires k < |sections|
    ensures preamble + Render(sections) + footer
         == (preamble + Render(sections[..k])) + [HeaderLine(sections[k])] + sections[k].body
            + (Render(sections[k + 1..]) + footer)
  {
    RenderSplits(sections, k);
    Regroup(preamble, Render(sections[..k]), [HeaderLine(sections[k])], sections[k].body,
            Render(sections[k + 1..]), footer);
  }

  lemma Regroup(p: seq<string>, h: seq<string>, x: seq<string>, b: seq<string>, t: seq<string>, f: seq<string>)
    ensures p + (h + (x + b + t)) + f == (p + h) + x + b + (t + f)
  {
  }

  /** Extraction gives back the body of the first section with that title, without the blank lines
      at its ends. */
  lemma ExtractOfRender(preamble: seq<string>, sections: seq<Section>, footer: seq<string>, k: nat)
    requires k < |sections| && Frames(preamble, footer)
    requires forall j :: 0 <= j < |sections| ==> IsPlain(sections[j])
    requires forall j :: 0 <= j < k ==> sections[j].title != sections[k].title
    ensures ExtractFrom(preamble + Render(sections) + footer, sections[k].title)
         == Some(Join(TrimLines(IsVisible, sections[k].body), '\n'))
  {
    var s, v := sections[k], sections[k].title;
    NoHeaderBefore(preamble, sections[..k], v);
    RenderClosed(sections[k + 1..], footer);
    HeaderNames(s, v);
    RenderAround(preamble, sections, footer, k);
    ExtractAt(v, preamble + Render(sections[..k]), HeaderLine(s), s.body, Render(sections[k + 1..]) + footer);
  }

  /** And nothing where no section has the title. */
  lemma ExtractOfMissing(preamble: seq<string>, sections: seq<Section>, v: string)
    requires NoBracket(v) && Frames(preamble, [])
    requires forall j :: 0 <= j < |sections| ==> IsPlain(sections[j]) && sections[j].title != v
    ensures ExtractFrom(preamble + Render(sections), v) == None
  {
    var lines := preamble + Render(sections);
    NoHeaderBefore(preamble, sections, v);
    FindLineIs(HeaderTest(v), lines, 0, |lines|);
  }

  /** The same from the text of the file. */
  lemma ExtractOfText(preamble: seq<string>, sections: seq<Section>, footer: seq<string>, k: nat)
    requires k < |sections| && Frames(preamble, footer)
    requires forall j :: 0 <= j < |sections| ==> IsPlain(sections[j])
    requires forall j :: 0 <= j < k ==> sections[j].title != sections[k].title
    requires forall line :: line in preamble + Render(sections) + footer ==> '\n' !in line
    ensures ExtractFrom(Split(Join(preamble + Render(sections) + footer, '\n'), '\n'), sections[k].title)
         == Some(Join(TrimLines(IsVisible, sections[k].body), '\n'))
  {
    var lines := preamble + Render(sections) + footer;
    ExtractOfRender(preamble, sections, footer, k);
    assert lines != [] by { assert Render(sections) != []; }
    SplitOfJoin(lines, '\n');
  }

  // ---------- the lint ----------

  datatype Failure =
    | NoUnreleased | NoReleased | Malformed(line: string) | NoFooter(version: string)
    | NoAppVersion | Mismatch(top: string, appVersion: string)

  predicate IsUnreleased(line: string) { StartsWith(line, "## [Unreleased]") }

  predicate IsReleasedHeader(line: string) { ReleasedVersion(line).Some? }

  predicate DigitsAt(s: string, i: nat, n: nat) { i + n <= |s| && forall p :: i <= p < i + n ==> IsDigit(s[p]) }

  /** ` - \d{4}-\d{2}-\d{2}\s*$` from i */
  predicate DateAt(s: string, i: nat) {
    && i + 13 <= |s| && s[i] == ' ' && s[i + 1] == '-' && s[i + 2] == ' '
    && DigitsAt(s, i + 3, 4) && s[i + 7] == '-' && DigitsAt(s, i + 8, 2) && s[i + 10] == '-' && DigitsAt(s, i + 11, 2)
    && SkipSpace(s, i + 13) == |s|
  }

  predicate IsMalformed(line: string) {
    ReleasedVersion(line).Some? && !DateAt(line, 5 + |ReleasedVersion(line).value|)
  }

  /** The footer link of a version at p, as the multi-line expression sees it. */
  predicate FooterAt(text: string, version: string, p: nat) {
    var link := "[" + version + "]:";
    LineStart(text, p) && StartsAt(text, p, link) && p + |link| < |text| && IsSpace(text[p + |link|])
  }

  predicate HasFooter(text: string, version: string) { exists p :: 0 <= p < |text| && FooterAt(text, version, p) }

  /** The part of the text that passes the test, of the first n lines. */
  function Select(test: string -> bool, lines: seq<string>, n: nat): seq<string>
    requires n <= |lines|
  {
    if n == 0 then []
    else if test(lines[n - 1]) then Select(test, lines, n - 1) + [lines[n - 1]]
    else Select(test, lines, n - 1)
  }

  /** One failure for each of the first n that the test finds bad. */
  function Complaints(bad: string -> bool, mk: string -> Failure, xs: seq<string>, n: nat): seq<Failure>
    requires n <= |xs|
  {
    if n == 0 then []
    else if bad(xs[n - 1]) then Complaints(bad, mk, xs, n - 1) + [mk(xs[n - 1])]
    else Complaints(bad, mk, xs, n - 1)
  }

  function LacksFooter(text: string): string -> bool { v => !HasFooter(text, v) }

  function ParityFailures(released: seq<string>, appVersion: Option<string>): seq<Failure> {
    match appVersion
    case None => [NoAppVersion]
    case Some(v) => if |released| > 0 && released[0] != v then [Mismatch(released[0], v)] else []
  }

  function MalformedOf(line: string): Failure { Malformed(line) }

  function NoFooterOf(version: string): Failure { NoFooter(version) }

  /** The failures of the four checks in order. */
  function LintFailures(changelog: string, appVersion: Option<string>): seq<Failure> {
    var lines := Split(changelog, '\n');
    var headers := Select(IsReleasedHeader, lines, |lines|);
    var released := Released(lines);
    (if FindLine(IsUnreleased, lines, 0) < |lines| then [] else [NoUnreleased])
    + (if headers == [] then [NoReleased] else [])
    + Complaints(IsMalformed, MalformedOf, headers, |headers|)
    + Complaints(LacksFooter(changelog), NoFooterOf, released, |released|)
    + ParityFailures(released, appVersion)
  }

  method Selected(test: string -> bool, lines: seq<string>) returns (found: seq<string>)
    ensures found == Select(test, lines, |lines|)
  {
    found := [];
    for i := 0 to |lines|
      invariant found == Select(test, lines, i)
    {
      if test(lines[i]) { found := found + [lines[i]]; }
    }
  }

  method PushComplaints(failures: seq<Failure>, bad: string -> bool, mk: string -> Failure, xs: seq<string>)
      returns (grown: seq<Failure>)
    ensures grown == failures + Complaints(bad, mk, xs, |xs|)
  {
    grown := failures;
    for i := 0 to |xs|
      invariant grown == failures + Complaints(bad, mk, xs, i)
    {
      if bad(xs[i]) { grown := grown + [mk(xs[i])]; }
    }
  }

  /** `main`, from the two files' contents to the exit code. */
  method Lint(changelog: string, chart: string) returns (code: int, failures: seq<Failure>)
    ensures failures == LintFailures(changelog, ParseAppVersion(chart))
    ensures code == if failures == [] then 0 else 1
  {
    var lines := Split(changelog, '\n');
    var unreleased := Find(IsUnreleased, lines, 0);
    failures := if unreleased < |lines| then [] else [NoUnreleased];
    var headers := Selected(IsReleasedHeader, lines);
    failures := failures + (if headers == [] then [NoReleased] else []);
    failures := PushComplaints(failures, IsMalformed, MalformedOf, headers);
    var released := ParseReleasedVersions(changelog);
    failures := PushComplaints(failures, LacksFooter(changelog), NoFooterOf, released);
    failures := failures + ParityFailures(released, ParseAppVersion(chart));
    code := if |failures| > 0 then 1 else 0;
  }

  lemma {:induction false} NoHeadersNoVersions(lines: seq<string>, n: nat)
    requires n <= |lines|
    ensures |Select(IsReleasedHeader, lines, n)| == |Collect(ReleasedVersion, lines, n)|
  {
    if n > 0 { NoHeadersNoVersions(lines, n - 1); }
  }

  lemma {:induction false} NoComplaintsIffNoneBad(bad: string -> bool, mk: string -> Failure, xs: seq<string>, n: nat)
    requires n <= |xs|
    ensures Complaints(bad, mk, xs, n) == [] <==> forall i :: 0 <= i < n ==> !bad(xs[i])
  {
    if n > 0 { NoComplaintsIffNoneBad(bad, mk, xs, n - 1); }
  }

  predicate NoneBad(bad: string -> bool, xs: seq<string>) { forall i :: 0 <= i < |xs| ==> !bad(xs[i]) }

  predicate NoneBadOf(test: string -> bool, bad: string -> bool, lines: seq<string>, n: nat)
    requires n <= |lines|
  {
    forall i :: 0 <= i < n && test(lines[i]) ==> !bad(lines[i])
  }

  lemma NoneBadSnoc(bad: string -> bool, xs: seq<string>, x: string)
    ensures NoneBad(bad, xs + [x]) <==> NoneBad(bad, xs) && !bad(x)
  {
    assert (xs + [x])[|xs|] == x && forall i :: 0 <= i < |xs| ==> (xs + [x])[i] == xs[i];
  }

  lemma {:induction false} NoneSelectedBad(test: string -> bool, bad: string -> bool, lines: seq<string>, n: nat)
    requires n <= |lines|
    ensures NoneBad(bad, Select(test, lines, n)) <==> NoneBadOf(test, bad, lines, n)
  {
    if n > 0 {
      NoneSelectedBad(test, bad, lines, n - 1);
      NoneBadSnoc(bad, Select(test, lines, n - 1), lines[n - 1]);
    }
  }

  /** Every released header carries a date. */
  predicate HeadersDated(lines: seq<string>) {
    forall i :: 0 <= i < |lines| && IsReleasedHeader(lines[i]) ==> !IsMalformed(lines[i])
  }

  predicate VersionsLinked(changelog: string, versions: seq<string>) {
    forall k :: 0 <= k < |versions| ==> HasFooter(changelog, versions[k])
  }

  predicate HasUnreleased(lines: seq<string>) { exists i :: 0 <= i < |lines| && IsUnreleased(lines[i]) }

  lemma HeadersCheck(lines: seq<string>)
    ensures var headers := Select(IsReleasedHeader, lines, |lines|);
            && (headers == [] <==> Released(lines) == [])
            && (Complaints(IsMalformed, MalformedOf, headers, |headers|) == [] <==> HeadersDated(lines))
  {
    var headers := Select(IsReleasedHeader, lines, |lines|);
    NoHeadersNoVersions(lines, |lines|);
    NoComplaintsIffNoneBad(IsMalformed, MalformedOf, headers, |headers|);
    NoneSelectedBad(IsReleasedHeader, IsMalformed, lines, |lines|);
  }

  lemma FootersCheck(changelog: string, versions: seq<string>)
    ensures Complaints(LacksFooter(changelog), NoFooterOf, versions, |versions|) == []
            <==> VersionsLinked(changelog, versions)
  {
    NoComplaintsIffNoneBad(LacksFooter(changelog), NoFooterOf, versions, |versions|);
    forall k | 0 <= k < |versions| ensures LacksFooter(changelog)(versions[k]) <==> !HasFooter(changelog, versions[k]) {
    }
  }

  lemma UnreleasedCheck(lines: seq<string>)
    ensures FindLine(IsUnreleased, lines, 0) < |lines| <==> HasUnreleased(lines)
  {
  }

  lemma SumIsEmpty(a: seq<Failure>, b: seq<Failure>, c: seq<Failure>, d: seq<Failure>, e: seq<Failure>)
    ensures a + b + c + d + e == [] <==> a == [] && b == [] && c == [] && d == [] && e == []
  {
    assert |a + b + c + d + e| == |a| + |b| + |c| + |d| + |e|;
  }

  /** The lint passes exactly when there is an unreleased section and a release, every released
      header is dated, every released version is linked, and the newest one is the chart's. */
  lemma LintPassesIff(changelog: string, appVersion: Option<string>)
    ensures var lines := Split(changelog, '\n');
            LintFailures(changelog, appVersion) == [] <==>
              && HasUnreleased(lines) && Released(lines) != [] && HeadersDated(lines)
              && VersionsLinked(changelog, Released(lines)) && appVersion == Some(Released(lines)[0])
  {
    var lines := Split(changelog, '\n');
    var headers, released := Select(IsReleasedHeader, lines, |lines|), Released(lines);
    UnreleasedCheck(lines);
    HeadersCheck(lines);
    FootersCheck(changelog, released);
    SumIsEmpty(if FindLine(IsUnreleased, lines, 0) < |lines| then [] else [NoUnreleased],
               if headers == [] then [NoReleased] else [],
               Complaints(IsMalformed, MalformedOf, headers, |headers|),
               Complaints(LacksFooter(changelog), NoFooterOf, released, |released|),
               ParityFailures(released, appVersion));
  }

  /** When the lint passes, the extractor finds the section of the chart's version, which is the
      newest released one, and the section of every other released version. */
  lemma LintedMeansExtractable(changelog: string, appVersion: Option<string>)
    requires LintFailures(changelog, appVersion) == []
    ensures var lines := Split(changelog, '\n');
            && appVersion.Some? && Released(lines) != [] && appVersion.value == Released(lines)[0]
            && forall v :: v in Released(lines) ==> ExtractFrom(lines, v).Some? && HasFooter(changelog, v)
  {
    var lines := Split(changelog, '\n');
    var released := Released(lines);
    LintPassesIff(changelog, appVersion);
    forall v | v in released ensures ExtractFrom(lines, v).Some? && HasFooter(changelog, v) {
      CollectIff(ReleasedVersion, lines, v, |lines|);
      var i :| 0 <= i < |lines| && ReleasedVersion(lines[i]) == Some(v);
      ReleasedIffHeader(lines[i], v);
      ExtractsIffReleased(lines, v);
      var k :| 0 <= k < |released| && released[k] == v;
      assert HasFooter(changelog, released[k]);
    }
  }
}
