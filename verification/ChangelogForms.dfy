/** What the changelog tools accept, told by the shape of the lines and not by the scans that
    recognise it. */
module ChangelogForms {
  import opened JsText
  import opened Changelog

  predicate IsNumber(s: string) { s != "" && forall k :: 0 <= k < |s| ==> IsDigit(s[k]) }

  /** Three numbers with dots between them. */
  predicate Dotted(v: string, a: string, b: string, c: string) {
    v == a + ("." + (b + ("." + c))) && IsNumber(a) && IsNumber(b) && IsNumber(c)
  }

  /** A released header: `## [`, a version, `]` and anything. */
  predicate Titled(line: string, v: string, rest: string) { line == "## [" + (v + ("]" + rest)) }

  // ---------- versions ----------

  lemma NumberIsRead(s: string, i: nat, n: string)
    requires StartsAt(s, i, n) && IsNumber(n) && (i + |n| < |s| ==> !IsDigit(s[i + |n|]))
    ensures i <= |s| && DigitEnd(s, i) == i + |n|
  {
    forall p | i <= p < i + |n| ensures IsDigit(s[p]) { CharIn(s, i, n, p - i); }
    DigitEndIs(s, i, i + |n|);
  }

  lemma PartIsRead(s: string, i: nat, n: string)
    requires StartsAt(s, i, n) && IsNumber(n) && i + |n| < |s| && s[i + |n|] == '.'
    ensures PartEnd(s, i) == Some(i + |n| + 1)
  {
    NumberIsRead(s, i, n);
  }

  lemma DottedPlaces(v: string, a: string, b: string, c: string)
    requires Dotted(v, a, b, c)
    ensures StartsAt(v, 0, a) && |a| < |v| && v[|a|] == '.'
    ensures StartsAt(v, |a| + 1, b) && |a| + 1 + |b| < |v| && v[|a| + 1 + |b|] == '.'
    ensures StartsAt(v, |a| + 1 + |b| + 1, c) && |a| + 1 + |b| + 1 + |c| == |v|
  {
    assert v[0..0 + |v|] == v;
    StartsInTurn(v, 0, a, "." + (b + ("." + c)));
    StartsInTurn(v, |a|, ".", b + ("." + c));
    StartsInTurn(v, |a| + 1, b, "." + c);
    StartsInTurn(v, |a| + 1 + |b|, ".", c);
    CharIn(v, |a|, ".", 0);
    CharIn(v, |a| + 1 + |b|, ".", 0);
  }

  lemma DottedIsSemVer(v: string, a: string, b: string, c: string)
    requires Dotted(v, a, b, c)
    ensures IsSemVer(v)
  {
    DottedPlaces(v, a, b, c);
    PartIsRead(v, 0, a);
    PartIsRead(v, |a| + 1, b);
    NumberIsRead(v, |a| + 1 + |b| + 1, c);
  }

  lemma DigitsAreNumber(v: string, i: nat, j: nat)
    requires i < j <= |v| && forall p :: i <= p < j ==> IsDigit(v[p])
    ensures IsNumber(v[i..j])
  {
  }

  lemma PiecesJoin(v: string, p: nat, q: nat)
    requires 0 < p < q <= |v| && v[p - 1] == '.' && v[q - 1] == '.'
    ensures v == v[..p - 1] + ("." + (v[p..q - 1] + ("." + v[q..])))
  {
    assert v[p - 1..p] == "." && v[q - 1..q] == ".";
    assert v == v[..p - 1] + (v[p - 1..p] + (v[p..q - 1] + (v[q - 1..q] + v[q..])));
  }

  lemma SemVerIsDotted(v: string) returns (a: string, b: string, c: string)
    requires IsSemVer(v)
    ensures Dotted(v, a, b, c)
  {
    var p, q := PartsOfEnd(v, 0, |v|);
    PiecesJoin(v, p, q);
    DigitsAreNumber(v, 0, p - 1);
    DigitsAreNumber(v, p, q - 1);
    DigitsAreNumber(v, q, |v|);
    a, b, c := v[..p - 1], v[p..q - 1], v[q..];
  }

  /** A version is three numbers with dots between them. */
  lemma SemVerIff(v: string)
    ensures IsSemVer(v) <==> exists a, b, c :: Dotted(v, a, b, c)
  {
    if IsSemVer(v) { var a, b, c := SemVerIsDotted(v); }
    if a, b, c :| Dotted(v, a, b, c) { DottedIsSemVer(v, a, b, c); }
  }

  lemma HeaderIff(line: string, v: string)
    ensures IsHeaderOf(line, v) <==> exists rest :: Titled(line, v, rest)
  {
    var head := HeaderOf(v);
    assert head == "## [" + v + "]";
    if IsHeaderOf(line, v) {
      var rest := line[|head|..];
      assert line == head + rest && head + rest == "## [" + (v + ("]" + rest));
      assert Titled(line, v, rest);
    }
    if rest :| Titled(line, v, rest) { assert line == head + rest && line[..|head|] == head; }
  }

  // ---------- dates ----------

  predicate DigitsFrom(s: string, i: nat, n: nat) { i + n <= |s| && forall p :: i <= p < i + n ==> IsDigit(s[p]) }

  /** ` - 2026-01-31` and white space. */
  predicate Dated(rest: string) {
    && |rest| >= 13 && rest[..3] == " - " && DigitsFrom(rest, 3, 4) && rest[7] == '-' && DigitsFrom(rest, 8, 2)
    && rest[10] == '-' && DigitsFrom(rest, 11, 2) && AllSpace(rest[13..])
  }

  lemma DateMoves(line: string, i: nat, rest: string)
    requires i <= |line| && line[i..] == rest
    ensures DateAt(line, i) <==> Dated(rest)
  {
    if |rest| >= 13 {
      assert forall k :: 0 <= k < |rest| ==> line[i + k] == rest[k];
      assert rest[..3] == [rest[0], rest[1], rest[2]];
      assert forall p :: i <= p < |line| ==> line[p] == rest[p - i];
      assert DigitsAt(line, i + 3, 4) <==> DigitsFrom(rest, 3, 4);
      assert DigitsAt(line, i + 8, 2) <==> DigitsFrom(rest, 8, 2);
      assert DigitsAt(line, i + 11, 2) <==> DigitsFrom(rest, 11, 2);
      BlankEnd(line, i + 13);
      assert line[i + 13..] == rest[13..];
    }
  }

  lemma BlankEnd(line: string, i: nat)
    requires i <= |line|
    ensures SkipSpace(line, i) == |line| <==> AllSpace(line[i..])
  {
    if AllSpace(line[i..]) {
      forall p | i <= p < |line| ensures IsSpace(line[p]) { assert line[i..][p - i] == line[p]; }
      SkipSpaceAt(line, i, |line|);
    }
  }

  lemma BehindTitle(line: string, v: string, rest: string)
    requires Titled(line, v, rest)
    ensures 5 + |v| <= |line| && line[5 + |v|..] == rest
  {
  }

  /** A released header is malformed exactly if no date and nothing else follows the bracket. */
  lemma MalformedIff(line: string, v: string, rest: string)
    requires Titled(line, v, rest) && IsSemVer(v)
    ensures ReleasedVersion(line) == Some(v) && (IsMalformed(line) <==> !Dated(rest))
  {
    HeaderIff(line, v);
    ReleasedIffHeader(line, v);
    BehindTitle(line, v, rest);
    DateMoves(line, 5 + |v|, rest);
  }

  // ---------- links ----------

  /** `[name]:` and white space, then anything. */
  predicate LinkTo(s: string, name: string, c: char, rest: string) {
    s == "[" + (name + ("]:" + ([c] + rest))) && IsSpace(c)
  }

  lemma LinkHasForm(line: string, k: nat)
    requires k < |line| && IsLinkAt(line, k)
    ensures LinkTo(line, line[1..k], line[k + 2], line[k + 3..]) && line[1..k] != "" && ']' !in line[1..k]
  {
    assert line[..1] == "[" && line[k..k + 2] == "]:";
    assert line == line[..1] + (line[1..k] + (line[k..k + 2] + ([line[k + 2]] + line[k + 3..])));
  }

  lemma LinkOfForm(line: string, name: string, c: char, rest: string)
    requires LinkTo(line, name, c, rest) && name != "" && ']' !in name
    ensures 1 + |name| < |line| && IsLinkAt(line, 1 + |name|)
  {
    assert line[0..] == line;
    LinkPlaces(line, 0, name, c, rest);
    assert line[1..1 + |name|] == name;
  }

  lemma LinkIff(line: string)
    ensures IsLink(line) <==>
      exists name, c, rest :: LinkTo(line, name, c, rest) && name != "" && ']' !in name
  {
    if IsLink(line) {
      var k :| 0 <= k < |line| && IsLinkAt(line, k);
      LinkHasForm(line, k);
    }
    if name, c, rest :| LinkTo(line, name, c, rest) && name != "" && ']' !in name {
      LinkOfForm(line, name, c, rest);
    }
  }

  lemma LinkPlaces(s: string, i: nat, name: string, c: char, rest: string)
    requires i <= |s| && LinkTo(s[i..], name, c, rest)
    ensures var k := i + 1 + |name|;
      k + 2 < |s| && s[i] == '[' && s[i + 1..k] == name && s[k] == ']' && s[k + 1] == ':' && s[k + 2] == c
  {
    var t := s[i..];
    var tail := "]:" + ([c] + rest);
    assert t == "[" + (name + tail) && s[i] == t[0] == '[';
    assert t[1..] == name + tail && t[1..1 + |name|] == name;
    assert s[i + 1..i + 1 + |name|] == t[1..1 + |name|];
    assert t[1 + |name|..] == tail;
    assert s[i + 1 + |name|] == tail[0] && s[i + 2 + |name|] == tail[1] && s[i + 3 + |name|] == tail[2] == c;
  }

  /** The footer of a version: at the start of the text or of a line, its link. */
  predicate FooterBehind(text: string, front: string, v: string, c: char, rest: string) {
    && text == front + ("[" + (v + ("]:" + ([c] + rest)))) && IsSpace(c)
    && (front == "" || IsLineTerminator(front[|front| - 1]))
  }

  lemma FooterHasForm(text: string, v: string, p: nat)
    requires p < |text| && FooterAt(text, v, p)
    ensures var n := p + 3 + |v|; n < |text| && FooterBehind(text, text[..p], v, text[n], text[n + 1..])
  {
    var link := "[" + v + "]:";
    var n := p + |link|;
    assert text == text[..p] + (text[p..n] + ([text[n]] + text[n + 1..])) && text[p..n] == link;
    assert link + ([text[n]] + text[n + 1..]) == "[" + (v + ("]:" + ([text[n]] + text[n + 1..])));
  }

  lemma FooterOfForm(text: string, front: string, v: string, c: char, rest: string)
    requires FooterBehind(text, front, v, c, rest)
    ensures |front| < |text| && FooterAt(text, v, |front|)
  {
    var p := |front|;
    assert text[p..] == "[" + (v + ("]:" + ([c] + rest)));
    LinkPlaces(text, p, v, c, rest);
    LinkStarts(text, p, v);
  }

  lemma LinkStarts(text: string, p: nat, v: string)
    requires var k := p + 1 + |v|;
      k + 1 < |text| && text[p] == '[' && text[p + 1..k] == v && text[k] == ']' && text[k + 1] == ':'
    ensures StartsAt(text, p, "[" + v + "]:")
  {
    var k := p + 1 + |v|;
    assert text[p..k + 2] == [text[p]] + text[p + 1..k] + [text[k], text[k + 1]];
  }

  lemma FooterIff(text: string, v: string)
    ensures HasFooter(text, v) <==> exists front, c, rest :: FooterBehind(text, front, v, c, rest)
  {
    if HasFooter(text, v) {
      var p :| 0 <= p < |text| && FooterAt(text, v, p);
      FooterHasForm(text, v, p);
    }
    if front, c, rest :| FooterBehind(text, front, v, c, rest) { FooterOfForm(text, front, v, c, rest); }
  }

  /** A section ends at the next line that opens a bracketed title or is a link. */
  lemma EndsSectionIff(line: string)
    ensures EndsSection(line) <==>
      (|| "## [" <= line
       || exists name, c, rest :: LinkTo(line, name, c, rest) && name != "" && ']' !in name)
  {
    LinkIff(line);
  }

  // ---------- which section is extracted ----------

  ghost predicate TitledBy(line: string, v: string) { exists rest :: Titled(line, v, rest) }

  ghost predicate Ending(line: string) {
    "## [" <= line || exists name, c, rest :: LinkTo(line, name, c, rest) && name != "" && ']' !in name
  }

  /** Line k is the first header of the version, and its section reaches up to line e. */
  ghost predicate SectionAt(lines: seq<string>, v: string, k: nat, e: nat) {
    && k < e <= |lines| && TitledBy(lines[k], v) && (forall j :: 0 <= j < k ==> !TitledBy(lines[j], v))
    && (forall j :: k < j < e ==> !Ending(lines[j])) && (e < |lines| ==> Ending(lines[e]))
  }

  predicate AllBlank(lines: seq<string>) { forall j :: 0 <= j < |lines| ==> AllSpace(lines[j]) }

  /** The lines without the blank ones at either end. */
  predicate Framed(body: seq<string>, front: seq<string>, mid: seq<string>, back: seq<string>) {
    && body == front + mid + back && AllBlank(front) && AllBlank(back)
    && (mid != [] ==> !AllSpace(mid[0]) && !AllSpace(mid[|mid| - 1]))
  }

  lemma VisibleIff(line: string)
    ensures IsVisible(line) <==> !AllSpace(line)
  {
    var i := SkipSpace(line, 0);
    if i < |line| {
      assert !IsSpace(line[i]);
    }
  }

  lemma TrimmedIsMiddle(body: seq<string>, front: seq<string>, mid: seq<string>, back: seq<string>)
    requires Framed(body, front, mid, back)
    ensures TrimLines(IsVisible, body) == mid
  {
    forall j | 0 <= j < |body| ensures IsVisible(body[j]) <==> !AllSpace(body[j]) { VisibleIff(body[j]); }
    MiddleIsLeft(IsVisible, body, front, mid, back);
  }

  lemma MiddleIsLeft(test: string -> bool, body: seq<string>, front: seq<string>, mid: seq<string>, back: seq<string>)
    requires body == front + mid + back
    requires forall j :: 0 <= j < |front| ==> !test(front[j])
    requires forall j :: 0 <= j < |back| ==> !test(back[j])
    requires mid != [] ==> test(mid[0]) && test(mid[|mid| - 1])
    ensures TrimLines(test, body) == mid
  {
    var i, m := |front|, |front| + |mid|;
    forall j | 0 <= j < i ensures !test(body[j]) { assert body[j] == front[j]; }
    forall j | m <= j < |body| ensures !test(body[j]) { assert body[j] == back[j - m]; }
    if mid == [] {
      FindLineIs(test, body, 0, |body|);
    } else {
      assert body[i] == mid[0] && body[m - 1] == mid[|mid| - 1];
      FindLineIs(test, body, 0, i);
      LastLineIs(test, body, i, |body|, m);
      assert body[i..m] == mid;
    }
  }

  lemma {:induction false} LastLineIs(test: string -> bool, body: seq<string>, i: nat, j: nat, k: nat)
    requires i < k <= j <= |body| && test(body[k - 1]) && forall p :: k <= p < j ==> !test(body[p])
    ensures LastLine(test, body, i, j) == k
    decreases j
  {
    if k < j { LastLineIs(test, body, i, j - 1, k); }
  }

  /** The extractor answers with the lines of the first section of that title, blank ends cut off. */
  lemma ExtractIs(lines: seq<string>, v: string, k: nat, e: nat, front: seq<string>, mid: seq<string>, back: seq<string>)
    requires SectionAt(lines, v, k, e) && Framed(lines[k + 1..e], front, mid, back)
    ensures ExtractFrom(lines, v) == Some(Join(mid, '\n'))
  {
    forall j | 0 <= j <= k ensures IsHeaderOf(lines[j], v) <==> TitledBy(lines[j], v) { HeaderIff(lines[j], v); }
    forall j | k < j < |lines| ensures EndsSection(lines[j]) <==> Ending(lines[j]) { EndsSectionIff(lines[j]); }
    FindLineIs(HeaderTest(v), lines, 0, k);
    FindLineIs(EndsSection, lines, k + 1, e);
    TrimmedIsMiddle(lines[k + 1..e], front, mid, back);
  }

  lemma NothingExtracted(lines: seq<string>, v: string)
    ensures ExtractFrom(lines, v) == None <==> forall j :: 0 <= j < |lines| ==> !TitledBy(lines[j], v)
  {
    forall j | 0 <= j < |lines| ensures IsHeaderOf(lines[j], v) <==> TitledBy(lines[j], v) { HeaderIff(lines[j], v); }
    var k := FindLine(HeaderTest(v), lines, 0);
    if forall j :: 0 <= j < |lines| ==> !TitledBy(lines[j], v) { FindLineIs(HeaderTest(v), lines, 0, |lines|); }
    if k < |lines| { assert HeaderTest(v)(lines[k]); }
  }

  // ---------- what the lint lists and reports ----------

  ghost predicate IsVersionText(v: string) { exists a, b, c :: Dotted(v, a, b, c) }

  /** Line i is the released header of version v. */
  ghost predicate ReleasesAt(lines: seq<string>, i: nat, v: string) {
    i < |lines| && IsVersionText(v) && TitledBy(lines[i], v)
  }

  lemma ReleasedIffTitled(line: string, v: string)
    ensures ReleasedVersion(line) == Some(v) <==> IsVersionText(v) && TitledBy(line, v)
  {
    ReleasedIffHeader(line, v);
    SemVerIff(v);
    HeaderIff(line, v);
  }

  predicate Increasing(at: seq<nat>) { forall i, j :: 0 <= i < j < |at| ==> at[i] < at[j] }

  /** What is collected comes from these lines, in their order, and none is passed over. */
  lemma {:induction false} CollectedFrom(read: string -> Option<string>, lines: seq<string>, n: nat) returns (at: seq<nat>)
    requires n <= |lines|
    ensures |at| == |Collect(read, lines, n)| && Increasing(at)
    ensures forall k :: 0 <= k < |at| ==> at[k] < n && read(lines[at[k]]) == Some(Collect(read, lines, n)[k])
    ensures forall i :: 0 <= i < n && read(lines[i]).Some? ==> i in at
  {
    if n == 0 {
      at := [];
    } else {
      at := CollectedFrom(read, lines, n - 1);
      if read(lines[n - 1]).Some? {
        var longer := at + [n - 1];
        forall i | i in at ensures i in longer { var k :| 0 <= k < |at| && at[k] == i; assert longer[k] == i; }
        assert longer[|at|] == n - 1;
        at := longer;
      }
    }
  }

  /** The released versions are those of the released headers, in file order. */
  lemma ReleasedAre(lines: seq<string>) returns (at: seq<nat>)
    ensures |at| == |Released(lines)| && Increasing(at)
    ensures forall k :: 0 <= k < |at| ==> ReleasesAt(lines, at[k], Released(lines)[k])
    ensures forall i: nat, v :: ReleasesAt(lines, i, v) ==> i in at
  {
    at := CollectedFrom(ReleasedVersion, lines, |lines|);
    forall k | 0 <= k < |at| ensures ReleasesAt(lines, at[k], Released(lines)[k]) {
      ReleasedIffTitled(lines[at[k]], Released(lines)[k]);
    }
    forall i: nat, v | ReleasesAt(lines, i, v) ensures i in at { ReleasedIffTitled(lines[i], v); }
  }

  /** One of the lint's complaints. */
  ghost predicate Complained(changelog: string, appVersion: Option<string>, f: Failure) {
    var lines := Split(changelog, '\n');
    match f
    case NoUnreleased => forall i :: 0 <= i < |lines| ==> !("## [Unreleased]" <= lines[i])
    case NoReleased => Released(lines) == []
    case Malformed(line) => line in lines && exists v, rest :: Undated(line, v, rest)
    case NoFooter(v) => v in Released(lines) && !Linked(changelog, v)
    case NoAppVersion => appVersion == None
    case Mismatch(top, v) => appVersion == Some(v) && Released(lines) != [] && top == Released(lines)[0] && top != v
  }

  ghost predicate Undated(line: string, v: string, rest: string) {
    IsVersionText(v) && Titled(line, v, rest) && !Dated(rest)
  }

  ghost predicate Linked(changelog: string, v: string) {
    exists front, c, rest :: FooterBehind(changelog, front, v, c, rest)
  }

  lemma {:induction false} ComplaintsAre(bad: string -> bool, mk: string -> Failure, xs: seq<string>, n: nat, f: Failure)
    requires n <= |xs|
    ensures f in Complaints(bad, mk, xs, n) <==> exists k :: 0 <= k < n && bad(xs[k]) && f == mk(xs[k])
  {
    if n > 0 { ComplaintsAre(bad, mk, xs, n - 1, f); }
  }

  lemma {:induction false} SelectedAre(test: string -> bool, lines: seq<string>, n: nat, line: string)
    requires n <= |lines|
    ensures line in Select(test, lines, n) <==> test(line) && exists k :: 0 <= k < n && lines[k] == line
  {
    if n > 0 { SelectedAre(test, lines, n - 1, line); }
  }

  lemma UndatedIff(line: string)
    ensures IsReleasedHeader(line) && IsMalformed(line) <==> exists v, rest :: Undated(line, v, rest)
  {
    if IsReleasedHeader(line) {
      var v := ReleasedVersion(line).value;
      ReleasedIffTitled(line, v);
      var rest :| Titled(line, v, rest);
      SemVerIff(v);
      MalformedIff(line, v, rest);
      assert IsMalformed(line) ==> Undated(line, v, rest);
    }
    if v, rest :| Undated(line, v, rest) {
      SemVerIff(v);
      MalformedIff(line, v, rest);
    }
  }

  lemma MalformedAre(lines: seq<string>, f: Failure)
    ensures var headers := Select(IsReleasedHeader, lines, |lines|);
      f in Complaints(IsMalformed, MalformedOf, headers, |headers|) <==>
      f.Malformed? && f.line in lines && exists v, rest :: Undated(f.line, v, rest)
  {
    var headers := Select(IsReleasedHeader, lines, |lines|);
    ComplaintsAre(IsMalformed, MalformedOf, headers, |headers|, f);
    if f.Malformed? {
      SelectedAre(IsReleasedHeader, lines, |lines|, f.line);
      UndatedIff(f.line);
    }
    if k :| 0 <= k < |headers| && IsMalformed(headers[k]) && f == MalformedOf(headers[k]) {
      assert headers[k] in headers;
    }
  }

  lemma NoFootersAre(changelog: string, released: seq<string>, f: Failure)
    ensures f in Complaints(LacksFooter(changelog), NoFooterOf, released, |released|) <==>
      f.NoFooter? && f.version in released && !Linked(changelog, f.version)
  {
    ComplaintsAre(LacksFooter(changelog), NoFooterOf, released, |released|, f);
    if f.NoFooter? { FooterIff(changelog, f.version); }
  }

  lemma InFive(a: seq<Failure>, b: seq<Failure>, c: seq<Failure>, d: seq<Failure>, e: seq<Failure>, f: Failure)
    ensures f in a + b + c + d + e <==> f in a || f in b || f in c || f in d || f in e
  {
  }

  /** The lint reports exactly those. */
  lemma FailuresAre(changelog: string, appVersion: Option<string>, f: Failure)
    ensures f in LintFailures(changelog, appVersion) <==> Complained(changelog, appVersion, f)
  {
    var lines := Split(changelog, '\n');
    var headers, released := Select(IsReleasedHeader, lines, |lines|), Released(lines);
    HeadersCheck(lines);
    MalformedAre(lines, f);
    NoFootersAre(changelog, released, f);
    UnreleasedCheck(lines);
    InFive(if FindLine(IsUnreleased, lines, 0) < |lines| then [] else [NoUnreleased],
           if headers == [] then [NoReleased] else [],
           Complaints(IsMalformed, MalformedOf, headers, |headers|),
           Complaints(LacksFooter(changelog), NoFooterOf, released, |released|),
           ParityFailures(released, appVersion), f);
  }

  // ---------- the chart's version ----------

  /** White space up to the end of a line. */
  predicate BlankOn(rest: string) {
    AllSpace(rest) || exists n :: 0 <= n < |rest| && IsLineTerminator(rest[n]) && AllSpace(rest[..n])
  }

  /** From a line start q on: the marker, white space, perhaps a quote, a version, perhaps a quote,
      and white space up to the end of a line. */
  predicate VersionAt(text: string, q: nat, marker: string, pad: string, open: string, v: string, close: string,
                      rest: string) {
    && q <= |text| && text[q..] == marker + (pad + (open + (v + (close + rest))))
    && (q == 0 || IsLineTerminator(text[q - 1])) && AllSpace(pad) && IsQuote(open) && IsQuote(close) && BlankOn(rest)
  }

  lemma {:induction false} FirstFound(read: nat -> Option<string>, p: nat, n: nat) returns (q: nat)
    requires p <= n && FirstAt(read, p, n).Some?
    ensures p <= q <= n && read(q) == FirstAt(read, p, n)
    decreases n - p
  {
    if read(p).Some? { q := p; } else { q := FirstFound(read, p + 1, n); }
  }

  lemma SpacesBetween(text: string, i: nat, j: nat)
    requires i <= j <= |text| && forall p :: i <= p < j ==> IsSpace(text[p])
    ensures AllSpace(text[i..j])
  {
  }

  lemma BlankTailForm(text: string, g: nat)
    requires g <= |text| && BlankToLineEnd(text, g)
    ensures BlankOn(text[g..])
  {
    var rest, e := text[g..], SkipSpace(text, g);
    if e == |text| {
      SpacesBetween(text, g, e);
      assert text[g..e] == rest;
    } else {
      var p :| g <= p < e && IsLineTerminator(text[p]);
      SpacesBetween(text, g, p);
      assert rest[p - g] == text[p] && rest[..p - g] == text[g..p];
    }
  }

  lemma Cut(text: string, i: nat, j: nat)
    requires i <= j <= |text|
    ensures text[i..] == text[i..j] + text[j..]
  {
  }

  lemma VersionPlaces(text: string, q: nat, marker: string, c: nat, d: nat, f: nat, e: nat, g: nat)
    requires StartsAt(text, q, marker) && c == q + |marker| && c <= d <= f <= e <= g <= |text|
    ensures text[q..] == marker + (text[c..d] + (text[d..f] + (text[f..e] + (text[e..g] + text[g..]))))
  {
    Cut(text, q, c);
    Cut(text, c, d);
    Cut(text, d, f);
    Cut(text, f, e);
    Cut(text, e, g);
  }

  lemma QuoteBetween(text: string, d: nat)
    requires d <= |text|
    ensures IsQuote(text[d..SkipQuote(text, d)])
  {
    if d < |text| && text[d] == '"' { assert text[d..d + 1] == "\""; }
  }

  lemma ReadVersionIsDotted(text: string, f: nat, e: nat)
    requires f <= |text| && SemVerEnd(text, f) == Some(e)
    ensures IsSemVer(text[f..e])
  {
    var v := text[f..e];
    assert v[0..0 + |v|] == v;
    SemVerMoves(text, f, v, 0, |v|);
  }

  /** The places at which the reader of a marked line stands. */
  predicate ReadAt(text: string, q: nat, marker: string, c: nat, d: nat, f: nat, e: nat, g: nat) {
    && LineStart(text, q) && StartsAt(text, q, marker) && c == q + |marker| && c <= d <= f <= e <= g <= |text|
    && d == SkipSpace(text, c) && f == SkipQuote(text, d) && SemVerEnd(text, f) == Some(e) && g == SkipQuote(text, e)
    && BlankToLineEnd(text, g)
  }

  lemma ReaderStands(text: string, q: nat, marker: string) returns (c: nat, d: nat, f: nat, e: nat, g: nat)
    requires ReadBehind(VersionReader(text), text, q, marker).Some?
    ensures ReadAt(text, q, marker, c, d, f, e, g)
    ensures ReadBehind(VersionReader(text), text, q, marker) == Some(text[f..e])
  {
    c := q + |marker|;
    d := SkipSpace(text, c);
    f := SkipQuote(text, d);
    e := SemVerEnd(text, f).value;
    g := SkipQuote(text, e);
  }

  lemma PlacesHaveForm(text: string, q: nat, marker: string, c: nat, d: nat, f: nat, e: nat, g: nat)
    requires ReadAt(text, q, marker, c, d, f, e, g)
    ensures VersionAt(text, q, marker, text[c..d], text[d..f], text[f..e], text[e..g], text[g..])
  {
    VersionPlaces(text, q, marker, c, d, f, e, g);
    SpacesBetween(text, c, d);
    QuoteBetween(text, d);
    QuoteBetween(text, e);
    BlankTailForm(text, g);
  }

  /** What is read as the chart's version stands on a line of that form. */
  lemma AppVersionStands(text: string, v: string)
      returns (q: nat, pad: string, open: string, close: string, rest: string)
    requires ParseAppVersion(text) == Some(v)
    ensures VersionAt(text, q, "appVersion:", pad, open, v, close, rest) && IsVersionText(v)
  {
    q := FirstFound(AppVersionReader(text), 0, |text|);
    var c, d, f, e, g := ReaderStands(text, q, "appVersion:");
    PlacesHaveForm(text, q, "appVersion:", c, d, f, e, g);
    pad, open, close, rest := text[c..d], text[d..f], text[e..g], text[g..];
    ReadVersionIsDotted(text, f, e);
    SemVerIff(v);
  }
}
