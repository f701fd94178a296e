/** The codemod that puts a placeholder annotation above every call the lint reports as
    "missing", splicing each file from the bottom up. */
module CodemodSkipAnnotations {
  import opened JsText
  import opened LintSkipAnnotations
  import opened Splicing

  const PLACEHOLDER_BODY := "pre-260527-pj6" + " \U{2014} original reason" + " unknown," + " audit required"
  const PLACEHOLDER_LINE := "// " + (SKIP_REASON_TAG + (" " + PLACEHOLDER_BODY))

  predicate IsIndent(c: char) { c == ' ' || c == '\t' }

  function IndentEnd(line: string, i: nat): (r: nat)
    requires i <= |line|
    ensures i <= r <= |line|
    ensures forall p :: i <= p < r ==> IsIndent(line[p])
    ensures r < |line| ==> !IsIndent(line[r])
    decreases |line| - i
  {
    if i < |line| && IsIndent(line[i]) then IndentEnd(line, i + 1) else i
  }

  /** The run of leading blanks and tabs. */
  function IndentOf(line: string): string { line[..IndentEnd(line, 0)] }

  function Placeholder(line: string): string { IndentOf(line) + PLACEHOLDER_LINE }

  lemma IndentEndAt(line: string, k: nat)
    requires k <= |line| && (k < |line| ==> !IsIndent(line[k]))
    requires forall p :: 0 <= p < k ==> IsIndent(line[p])
    ensures IndentEnd(line, 0) == k
  {
  }

  /** A placeholder is indented like its call, so a second placeholder for the same line may
      take its indentation from the first. */
  lemma PlaceholderKeepsIndent(line: string)
    ensures IndentOf(Placeholder(line)) == IndentOf(line)
  {
    var k := |IndentOf(line)|;
    assert Placeholder(line)[k] == PLACEHOLDER_LINE[0] == '/';
    IndentEndAt(Placeholder(line), k);
    assert Placeholder(line)[..k] == IndentOf(line);
  }

  /** The placeholder repeats all leading blanks and tabs of its line, and nothing else of it. */
  lemma PlaceholderReads(pad: string, rest: string)
    requires forall k :: 0 <= k < |pad| ==> pad[k] == ' ' || pad[k] == '\t'
    requires rest == "" || (rest[0] != ' ' && rest[0] != '\t')
    ensures Placeholder(pad + rest) == pad + ("// SKIP-REASON: " +
              ("pre-260527-pj6" + " \U{2014} original reason" + " unknown," + " audit required"))
  {
    var line := pad + rest;
    IndentEndAt(line, |pad|);
    assert line[..|pad|] == pad;
    InOnePiece("// ", SKIP_REASON_TAG, " ", PLACEHOLDER_BODY);
    OpeningIs();
  }

  lemma OpeningIs()
    ensures "// " + SKIP_REASON_TAG + " " == "// SKIP-REASON: "
  {
  }

  lemma InOnePiece(a: string, b: string, c: string, rest: string)
    ensures a + (b + (c + rest)) == (a + b + c) + rest
  {
  }

  lemma TaggedLayout(open: string, tag: string, gap: string, body: string)
    requires |open| == 3 && open[2] == ' ' && tag != "" && !IsSpace(tag[0])
    requires |gap| == 1 && IsSpace(gap[0]) && Tight(body)
    ensures var t := open + (tag + (gap + body)); var j := 3 + |tag|;
      && SkipSpace(t, 2) == 3 && StartsAt(t, 3, tag) && t[..2] == open[..2]
      && SkipSpace(t, j) == j + 1 && t[j + 1..] == body
  {
    var rest := tag + (gap + body);
    var t, j := open + rest, 3 + |tag|;
    assert t[3] == rest[0] == tag[0] && t[3..j] == rest[..|tag|] == tag;
    SkipSpaceAt(t, 2, 3);
    assert t[j] == rest[|tag|] == gap[0];
    assert t[j + 1] == rest[|tag| + 1] == (gap + body)[1] == body[0];
    SkipSpaceAt(t, j, j + 1);
    assert t[j + 1..] == rest[|tag| + 1..] == (gap + body)[1..] == body;
  }

  lemma BodyFromLayout(t: string, k: nat)
    requires StartsAt(t, 0, "//") && StartsAt(t, 3, SKIP_REASON_TAG) && SkipSpace(t, 2) == 3
    requires k == 3 + |SKIP_REASON_TAG| + 1 && SkipSpace(t, k - 1) == k < |t|
    requires !HasLineTerminator(t[k..])
    ensures BodyOf(t) == Some(Trim(t[k..]))
  {
  }

  /** The tag and a visible body on one line is read back as that body. */
  lemma TaggedBodyIsRead(body: string)
    requires Tight(body) && !HasLineTerminator(body)
    ensures BodyOf("// " + (SKIP_REASON_TAG + (" " + body))) == Some(body)
  {
    var t, k := "// " + (SKIP_REASON_TAG + (" " + body)), 3 + |SKIP_REASON_TAG| + 1;
    TaggedLayout("// ", SKIP_REASON_TAG, " ", body);
    BodyFromLayout(t, k);
    TrimOfTight("", body);
    assert "" + body == body;
  }

  lemma PlaceholderIsTight()
    ensures Tight(PLACEHOLDER_BODY) && Tight(PLACEHOLDER_LINE)
  {
    assert PLACEHOLDER_BODY[0] == "pre-260527-pj6"[0];
    assert PLACEHOLDER_BODY[|PLACEHOLDER_BODY| - 1] == " audit required"[14];
    assert PLACEHOLDER_LINE[0] == "// "[0];
    assert PLACEHOLDER_LINE[|PLACEHOLDER_LINE| - 1] == PLACEHOLDER_BODY[|PLACEHOLDER_BODY| - 1];
  }

  lemma PlaceholderIsOneLine()
    ensures !HasLineTerminator(PLACEHOLDER_BODY) && |PLACEHOLDER_BODY| >= SKIP_MIN_REASON_LEN
  {
  }

  lemma PlaceholderIsGood(line: string)
    ensures MarkOf(Placeholder(line)) == Good
  {
    PlaceholderIsTight();
    PlaceholderIsOneLine();
    TaggedBodyIsRead(PLACEHOLDER_BODY);
    TrimOfTight(IndentOf(line), PLACEHOLDER_LINE);
  }

  // ---------- one call site before and after ----------

  predicate HasInsertion(ins: seq<nat>, x: nat) { Count(ins, x, x + 1) > 0 }

  /** Lines are inserted above calls the lint found "missing" only. */
  ghost predicate OnlyAboveMissing(ins: seq<nat>, mark: nat -> Mark) {
    forall x: nat :: HasInsertion(ins, x) ==> VerdictBy(mark, x).Missing?
  }

  /** Between an annotation and a call that sees it no call is missing, so no insertion can
      come between them. */
  lemma NothingComesBetween(ins: seq<nat>, mark: nat -> Mark, a: nat, s: nat)
    requires OnlyAboveMissing(ins, mark)
    requires InWindow(a, s) && mark(a) != Plain
    ensures Count(ins, a + 1, s + 1) == 0
  {
    if Count(ins, a + 1, s + 1) > 0 {
      CountPositive(ins, a + 1, s + 1);
      var k :| 0 <= k < |ins| && a + 1 <= ins[k] < s + 1;
      CountPositive(ins, ins[k], ins[k] + 1);
      assert HasInsertion(ins, ins[k]);
      assert InWindow(a, ins[k]);
    }
  }

  /** So the call still sees the annotation afterwards, at the same distance. */
  lemma AnnotationStaysInWindow(lines: seq<string>, ins: seq<nat>, tag: string -> string, mk: string -> Mark, a: nat, s: nat)
    requires OnlyAboveMissing(ins, MarksBy(mk, lines))
    requires s < |lines| && InWindow(a, s) && mk(lines[a]) != Plain
    ensures var after := MarksBy(mk, Weave(lines, ins, tag, ""));
            InWindow(NewIndex(ins, a), NewIndex(ins, s)) && after(NewIndex(ins, a)) == mk(lines[a])
  {
    NothingComesBetween(ins, MarksBy(mk, lines), a, s);
    NewIndexMoves(ins, a, s);
    KeptAt(lines, ins, tag, "", a);
    KeptAt(lines, ins, tag, "", s);
  }

  lemma MissingBecomesOk(lines: seq<string>, ins: seq<nat>, tag: string -> string, mk: string -> Mark, s: nat)
    requires forall l :: mk(tag(l)) == Good
    requires s < |lines| && HasInsertion(ins, s)
    ensures VerdictBy(MarksBy(mk, Weave(lines, ins, tag, "")), NewIndex(ins, s)).Ok?
  {
    TagIsAbove(lines, ins, tag, s, 1);
    var after := MarksBy(mk, Weave(lines, ins, tag, ""));
    assert InWindow(NewIndex(ins, s) - 1, NewIndex(ins, s)) && after(NewIndex(ins, s) - 1).Good?;
  }

  /** A place in the block of line s is in no other line's block. */
  lemma OneBlock(ins: seq<nat>, n: nat, j: nat, s: nat, q: nat)
    requires s < n && j <= n && NewIndex(ins, s) - Count(ins, s, s + 1) <= q <= NewIndex(ins, s)
    requires j < n ==> NewIndex(ins, j) - Count(ins, j, j + 1) <= q <= NewIndex(ins, j)
    requires j == n ==> NewIndex(ins, s) < q
    ensures j == s
  {
    if j < s {
      BlocksInOrder(ins, j, s);
    } else if s < j < n {
      BlocksInOrder(ins, s, j);
    }
  }

  lemma BlockInRange(lines: seq<string>, ins: seq<nat>, tag: string -> string, s: nat)
    requires s < |lines|
    ensures Count(ins, s, s + 1) <= NewIndex(ins, s) < |lines| + |ins|
  {
    KeptAt(lines, ins, tag, "", s);
    CountSplits(ins, 0, s, s + 1);
  }

  lemma TagAt(lines: seq<string>, ins: seq<nat>, tag: string -> string, w: seq<string>, s: nat, q: nat)
    requires s < |lines| && w == Weave(lines, ins, tag, "")
    requires NewIndex(ins, s) - Count(ins, s, s + 1) <= q < NewIndex(ins, s) && q < |w|
    ensures w[q] == tag(lines[s])
  {
    var j := Locate(lines, ins, tag, "", q);
    OneBlock(ins, |lines|, j, s, q);
  }

  /** The Count(ins, s, s + 1) lines right above line s are its tags. */
  lemma TagIsAbove(lines: seq<string>, ins: seq<nat>, tag: string -> string, s: nat, d: nat)
    requires s < |lines| && 1 <= d <= Count(ins, s, s + 1)
    ensures NewIndex(ins, s) < |lines| + |ins| && d <= NewIndex(ins, s)
    ensures Weave(lines, ins, tag, "")[NewIndex(ins, s) - d] == tag(lines[s])
  {
    BlockInRange(lines, ins, tag, s);
    TagAt(lines, ins, tag, Weave(lines, ins, tag, ""), s, NewIndex(ins, s) - d);
  }

  /** The nearest insertion strictly above s, when it is at most four lines up, brings its tag
      into the window of s. */
  lemma TagComesIntoWindow(lines: seq<string>, ins: seq<nat>, tag: string -> string, m: nat, s: nat)
    requires m < s < |lines| && s < m + SKIP_LOOKBACK_LINES
    requires HasInsertion(ins, m) && Count(ins, m + 1, s + 1) == 0
    ensures 1 <= NewIndex(ins, m) <= |lines| + |ins| && InWindow(NewIndex(ins, m) - 1, NewIndex(ins, s))
    ensures Weave(lines, ins, tag, "")[NewIndex(ins, m) - 1] == tag(lines[m])
  {
    TagIsAbove(lines, ins, tag, m, 1);
    NewIndexMoves(ins, m, s);
  }

  lemma NearestInsertion(ins: seq<nat>, m: nat, s: nat) returns (n: nat)
    requires m < s && HasInsertion(ins, m) && !HasInsertion(ins, s)
    ensures m <= n < s && HasInsertion(ins, n) && Count(ins, n + 1, s + 1) == 0
    decreases s - m
  {
    if Count(ins, m + 1, s + 1) == 0 {
      n := m;
    } else {
      CountPositive(ins, m + 1, s + 1);
      var k :| 0 <= k < |ins| && m + 1 <= ins[k] < s + 1;
      CountPositive(ins, ins[k], ins[k] + 1);
      n := NearestInsertion(ins, ins[k], s);
    }
  }

  /** Some missing call stands one to four lines above s. */
  ghost predicate MissingCloseAbove(ins: seq<nat>, s: nat) {
    exists m: nat :: m < s < m + SKIP_LOOKBACK_LINES && HasInsertion(ins, m)
  }

  /** A call whose own annotation is too short keeps it in its window.  It turns "ok" without
      its reason being touched exactly when a missing call stands one to four lines above. */
  lemma TooShortAfterwards(lines: seq<string>, ins: seq<nat>, tag: string -> string, mk: string -> Mark, s: nat)
    requires forall l :: mk(tag(l)) == Good
    requires OnlyAboveMissing(ins, MarksBy(mk, lines))
    requires s < |lines| && VerdictBy(MarksBy(mk, lines), s).TooShort?
    ensures var v := VerdictBy(MarksBy(mk, Weave(lines, ins, tag, "")), NewIndex(ins, s));
            v == if MissingCloseAbove(ins, s) then Ok else TooShort
  {
    var mark, after := MarksBy(mk, lines), MarksBy(mk, Weave(lines, ins, tag, ""));
    var a: nat :| a < s && InWindow(a, s) && mark(a).Short?;
    AnnotationStaysInWindow(lines, ins, tag, mk, a, s);
    assert !HasInsertion(ins, s);
    if MissingCloseAbove(ins, s) {
      var m: nat :| m < s < m + SKIP_LOOKBACK_LINES && HasInsertion(ins, m);
      var n := NearestInsertion(ins, m, s);
      TagComesIntoWindow(lines, ins, tag, n, s);
      assert after(NewIndex(ins, n) - 1).Good?;
    } else {
      forall q: nat | q < NewIndex(ins, s) && InWindow(q, NewIndex(ins, s)) ensures !after(q).Good? {
        NoGoodInWindow(lines, ins, tag, mk, q, s);
      }
    }
  }

  lemma NoGoodInWindow(lines: seq<string>, ins: seq<nat>, tag: string -> string, mk: string -> Mark, q: nat, s: nat)
    requires s < |lines| && VerdictBy(MarksBy(mk, lines), s).TooShort?
    requires !HasInsertion(ins, s) && !MissingCloseAbove(ins, s)
    requires InWindow(q, NewIndex(ins, s))
    ensures !MarksBy(mk, Weave(lines, ins, tag, ""))(q).Good?
  {
    KeptAt(lines, ins, tag, "", s);
    var j := Locate(lines, ins, tag, "", q);
    if j <= s {
      NewIndexMoves(ins, j, s);
      if q == NewIndex(ins, j) {
        if j < s { assert InWindow(j, s); assert !MarksBy(mk, lines)(j).Good?; }
      } else {
        assert HasInsertion(ins, j);
      }
    } else if j < |lines| {
      BlocksInOrder(ins, s, j);
    }
  }

  /** All three cases of one call. */
  lemma CallAfterCodemod(lines: seq<string>, ins: seq<nat>, tag: string -> string, mk: string -> Mark, s: nat)
    requires forall l :: mk(tag(l)) == Good
    requires OnlyAboveMissing(ins, MarksBy(mk, lines))
    requires s < |lines| && (VerdictBy(MarksBy(mk, lines), s).Missing? ==> HasInsertion(ins, s))
    ensures var v := VerdictBy(MarksBy(mk, lines), s);
            VerdictBy(MarksBy(mk, Weave(lines, ins, tag, "")), NewIndex(ins, s))
            == if v.TooShort? && !MissingCloseAbove(ins, s) then TooShort else Ok
  {
    var mark := MarksBy(mk, lines);
    match VerdictBy(mark, s) {
      case Missing => MissingBecomesOk(lines, ins, tag, mk, s);
      case TooShort => TooShortAfterwards(lines, ins, tag, mk, s);
      case Ok =>
        var a: nat :| a < s && InWindow(a, s) && mark(a).Good?;
        AnnotationStaysInWindow(lines, ins, tag, mk, a, s);
    }
  }

  // ---------- whole files ----------

  /** The insertions asked for: 0-based lines of the calls reported as "missing". */
  function MissingLines(violations: seq<Violation>): seq<nat> {
    if violations == [] then []
    else
      var v, tail := violations[0], MissingLines(violations[1..]);
      if v.reason.Missing? then [v.line - 1] + tail else tail
  }

  function MissingSites(verdict: nat -> Verdict, sites: seq<nat>): seq<nat> {
    if sites == [] then []
    else
      var tail := MissingSites(verdict, sites[1..]);
      if verdict(sites[0]).Missing? then [sites[0]] + tail else tail
  }

  lemma {:induction false} MissingLinesAreSites(verdict: nat -> Verdict, sites: seq<nat>)
    ensures MissingLines(ViolationsBy(verdict, sites)) == MissingSites(verdict, sites)
  {
    if sites != [] {
      var vs := ViolationsBy(verdict, sites[1..]);
      MissingLinesAreSites(verdict, sites[1..]);
      if !verdict(sites[0]).Ok? {
        assert ([Violation(sites[0] + 1, verdict(sites[0]))] + vs)[1..] == vs;
      }
    }
  }

  lemma {:induction false} MissingSitesFound(verdict: nat -> Verdict, sites: seq<nat>, x: nat)
    ensures HasInsertion(MissingSites(verdict, sites), x) <==> verdict(x).Missing? && x in sites
  {
    if sites != [] {
      var tail := MissingSites(verdict, sites[1..]);
      MissingSitesFound(verdict, sites[1..], x);
      assert sites == [sites[0]] + sites[1..];
      if verdict(sites[0]).Missing? { assert ([sites[0]] + tail)[1..] == tail; }
    }
  }

  lemma MissingLinesAreMissing(verdict: nat -> Verdict, sites: seq<nat>, x: nat)
    ensures HasInsertion(MissingLines(ViolationsBy(verdict, sites)), x) <==> verdict(x).Missing? && x in sites
  {
    MissingLinesAreSites(verdict, sites);
    MissingSitesFound(verdict, sites, x);
  }

  predicate Valid(file: SourceFile) {
    forall k :: 0 <= k < |file.sites| ==> file.sites[k] < |file.lines|
  }

  /** The file with a placeholder above each given line; every call moves with its line. */
  function Rewritten(file: SourceFile, ins: seq<nat>): SourceFile {
    SourceFile(Weave(file.lines, ins, Placeholder, ""),
               seq(|file.sites|, k requires 0 <= k < |file.sites| => NewIndex(ins, file.sites[k])))
  }

  function Codemod(file: SourceFile): SourceFile { Rewritten(file, MissingLines(Violations(file))) }

  /** What becomes of call k: "missing" turns "ok", "ok" stays "ok", and a too short reason
      stays too short unless a missing call stands one to four lines above it. */
  lemma EveryCallAfterCodemod(file: SourceFile, k: nat)
    requires Valid(file) && k < |file.sites|
    ensures var after, ins := Codemod(file), MissingLines(Violations(file));
      && after.sites[k] < |after.lines|
      && after.lines[after.sites[k]] == file.lines[file.sites[k]]
      && Check(after.lines, after.sites[k])
         == if Check(file.lines, file.sites[k]).TooShort? && !MissingCloseAbove(ins, file.sites[k]) then TooShort else Ok
  {
    var ins, s := MissingLines(Violations(file)), file.sites[k];
    var verdict := Verdicts(MarkOf, file.lines);
    forall x: nat ensures HasInsertion(ins, x) ==> verdict(x).Missing? {
      MissingLinesAreMissing(verdict, file.sites, x);
    }
    MissingLinesAreMissing(verdict, file.sites, s);
    KeptAt(file.lines, ins, Placeholder, "", s);
    PlaceholdersAreGood();
    assert OnlyAboveMissing(ins, MarksBy(MarkOf, file.lines)) by {
      forall x: nat | HasInsertion(ins, x) ensures VerdictBy(MarksBy(MarkOf, file.lines), x).Missing? {
        assert verdict(x).Missing?;
      }
    }
    CallAfterCodemod(file.lines, ins, Placeholder, MarkOf, s);
  }

  lemma PlaceholdersAreGood()
    ensures forall l :: MarkOf(Placeholder(l)) == Good
  {
    forall l ensures MarkOf(Placeholder(l)) == Good { PlaceholderIsGood(l); }
  }

  /** A second run finds nothing to insert and leaves the file as it is. */
  lemma SecondRunInsertsNothing(file: SourceFile)
    requires Valid(file)
    ensures MissingLines(Violations(Codemod(file))) == [] && Codemod(Codemod(file)) == Codemod(file)
  {
    var after := Codemod(file);
    var verdict := Verdicts(MarkOf, after.lines);
    var ins := MissingLines(Violations(after));
    forall x: nat ensures !HasInsertion(ins, x) {
      MissingLinesAreMissing(verdict, after.sites, x);
      forall k | 0 <= k < |after.sites| ensures !verdict(after.sites[k]).Missing? {
        EveryCallAfterCodemod(file, k);
      }
    }
    if ins != [] {
      FirstIsInserted(ins);
      assert false;
    }
    NoInsertionNoChange(after.lines);
    forall k | 0 <= k < |after.sites| ensures NewIndex([], after.sites[k]) == after.sites[k] {
    }
  }

  lemma FirstIsInserted(ins: seq<nat>)
    requires ins != []
    ensures HasInsertion(ins, ins[0])
  {
  }

  lemma NoInsertionNoChange(lines: seq<string>)
    ensures Weave(lines, [], Placeholder, "") == lines
  {
    WeaveAbove(lines, [], Placeholder, "", 0, |lines|);
    assert lines[0..|lines|] == lines;
  }

  // ---------- a reason that is too short, silenced ----------

  function ReasonLine(body: string): string { "// " + (SKIP_REASON_TAG + (" " + body)) }

  lemma CodeIsPlain(line: string)
    requires Tight(line) && line[0] != '/'
    ensures MarkOf(line) == Plain
  {
    TrimOfTight("", line);
    assert "" + line == line;
    NoComment(line, "//");
  }

  lemma NoComment(line: string, slashes: string)
    requires slashes == "//" && line != "" && line[0] != '/'
    ensures BodyOf(line) == None
  {
    assert |slashes| <= |line| ==> line[0..0 + |slashes|][0] == line[0];
  }

  lemma ShortReasonIsShort(body: string)
    requires Tight(body) && !HasLineTerminator(body) && Units(body) < SKIP_MIN_REASON_LEN
    ensures MarkOf(ReasonLine(body)) == Short
  {
    var line := ReasonLine(body);
    TaggedBodyIsRead(body);
    assert line[0] == "// "[0] && line[|line| - 1] == body[|body| - 1];
    TrimOfTight("", line);
    assert "" + line == line;
  }

  lemma {:induction false} PlainUnits(s: string)
    requires forall i :: 0 <= i < |s| ==> s[i] <= '\U{FFFF}'
    ensures Units(s) == |s|
  {
    if s != "" { PlainUnits(s[..|s| - 1]); }
  }

  lemma ExampleVerdicts(mk: string -> Mark, lines: seq<string>)
    requires |lines| == 3 && mk(lines[0]).Plain? && mk(lines[1]).Short?
    ensures VerdictBy(MarksBy(mk, lines), 0).Missing? && VerdictBy(MarksBy(mk, lines), 2).TooShort?
  {
    assert InWindow(1, 2) && MarksBy(mk, lines)(1).Short? && !MarksBy(mk, lines)(0).Good?;
  }

  lemma ExampleMarks(call: string, body: string)
    requires call == "it.skip()" && body == "short"
    ensures MarkOf(call) == Plain && MarkOf(ReasonLine(body)) == Short
  {
    CodeIsPlain(call);
    PlainUnits(body);
    ShortReasonIsShort(body);
  }

  /** A bare skip call two lines above lifts the verdict on a call whose reason is too short. */
  lemma TooShortSilenced(file: SourceFile, call: string, body: string)
    requires call == "it.skip()" && body == "short"
    requires file == SourceFile([call, ReasonLine(body), call], [0, 2])
    ensures Check(file.lines, file.sites[1]) == TooShort
    ensures Check(Codemod(file).lines, Codemod(file).sites[1]) == Ok
  {
    ExampleMarks(call, body);
    ExampleVerdicts(MarkOf, file.lines);
    SilencedByFirst(file);
  }

  lemma SilencedByFirst(file: SourceFile)
    requires |file.lines| == 3 && file.sites == [0, 2]
    requires Check(file.lines, 0).Missing?
    ensures Check(Codemod(file).lines, Codemod(file).sites[1]) == Ok
  {
    var ins := MissingLines(Violations(file));
    MissingLinesAreMissing(Verdicts(MarkOf, file.lines), file.sites, 0);
    assert file.sites[0] in file.sites && HasInsertion(ins, 0);
    assert MissingCloseAbove(ins, 2);
    EveryCallAfterCodemod(file, 1);
  }

  // ---------- the splicing loop ----------

  function InsertDescending(x: nat, s: seq<nat>): seq<nat> {
    if s == [] || x >= s[0] then [x] + s else [s[0]] + InsertDescending(x, s[1..])
  }

  /** group.sort by descending line. */
  function SortDescending(s: seq<nat>): seq<nat> {
    if s == [] then [] else InsertDescending(s[0], SortDescending(s[1..]))
  }

  predicate Descending(s: seq<nat>) { forall i, j :: 0 <= i < j < |s| ==> s[i] >= s[j] }

  lemma {:induction false} InsertDescendingIsSorted(x: nat, s: seq<nat>)
    requires Descending(s)
    ensures var r := InsertDescending(x, s);
            |r| == |s| + 1 && Descending(r) && (r[0] == x || (s != [] && r[0] == s[0] && x < s[0]))
  {
    if s != [] && x < s[0] { InsertDescendingIsSorted(x, s[1..]); }
  }

  lemma {:induction false} InsertDescendingCounts(x: nat, s: seq<nat>, lo: nat, hi: nat)
    ensures Count(InsertDescending(x, s), lo, hi) == Count(s, lo, hi) + if lo <= x < hi then 1 else 0
  {
    if s == [] || x >= s[0] {
      assert ([x] + s)[1..] == s;
    } else {
      InsertDescendingCounts(x, s[1..], lo, hi);
      assert ([s[0]] + InsertDescending(x, s[1..]))[1..] == InsertDescending(x, s[1..]);
    }
  }

  lemma {:induction false} SortDescendingIsSorted(s: seq<nat>)
    ensures |SortDescending(s)| == |s| && Descending(SortDescending(s))
  {
    if s != [] {
      SortDescendingIsSorted(s[1..]);
      InsertDescendingIsSorted(s[0], SortDescending(s[1..]));
    }
  }

  lemma {:induction false} SortDescendingCounts(s: seq<nat>, lo: nat, hi: nat)
    ensures Count(SortDescending(s), lo, hi) == Count(s, lo, hi)
  {
    if s != [] {
      SortDescendingCounts(s[1..], lo, hi);
      InsertDescendingCounts(s[0], SortDescending(s[1..]), lo, hi);
    }
  }

  /** Where the insertions go does not depend on the order they are listed in. */
  lemma {:induction false} WeaveOfSorted(lines: seq<string>, ins: seq<nat>, i: nat)
    requires i <= |lines|
    ensures WeaveFrom(lines, SortDescending(ins), Placeholder, "", i) == WeaveFrom(lines, ins, Placeholder, "", i)
    decreases |lines| - i
  {
    SortDescendingIsSorted(ins);
    SortDescendingCounts(ins, 0, i);
    SortDescendingCounts(ins, i, i + 1);
    if i < |lines| { WeaveOfSorted(lines, ins, i + 1); }
  }

  lemma PlaceholdersAreStable()
    ensures forall l :: Placeholder(Placeholder(l)) == Placeholder(l)
  {
    forall l ensures Placeholder(Placeholder(l)) == Placeholder(l) { PlaceholderKeepsIndent(l); }
  }

  /** Splicing from the bottom up makes all the insertions as if at once: see Weave, KeptAt
      and Locate for what then stands where. */
  method ApplyInsertions(source: seq<string>, ins: seq<nat>) returns (lines: seq<string>)
    ensures lines == Weave(source, ins, Placeholder, "")
  {
    var group := SortDescending(ins);
    SortDescendingIsSorted(ins);
    PlaceholdersAreStable();
    NoInsertionNoChange(source);
    lines := source;
    for k := 0 to |group|
      invariant lines == Weave(source, group[..k], Placeholder, "")
    {
      var idx := group[k];
      SpliceIsWeave(source, group[..k], Placeholder, "", idx);
      assert group[..k + 1] == group[..k] + [idx];
      var indent := IndentOf(LineAt(lines, idx, ""));
      lines := Splice(lines, idx, indent + PLACEHOLDER_LINE);
    }
    assert group[..|group|] == group;
    WeaveOfSorted(source, ins, 0);
  }

  /** The codemod on one file; a dry run computes the insertions and writes nothing. */
  method RunCodemod(file: SourceFile, apply: bool) returns (lines: seq<string>, insertions: seq<nat>)
    ensures insertions == MissingLines(Violations(file))
    ensures lines == if apply then Codemod(file).lines else file.lines
  {
    var violations := VisitForSkips(file);
    insertions := MissingLines(violations);
    lines := file.lines;
    NoInsertionNoChange(file.lines);
    if insertions != [] {
      var rewritten := ApplyInsertions(file.lines, insertions);
      if apply { lines := rewritten; }
    }
  }

  lemma WovenLineIsOneLine(lines: seq<string>, ins: seq<nat>, w: seq<string>, q: nat)
    requires w == Weave(lines, ins, Placeholder, "") && q < |w|
    requires forall i :: 0 <= i < |lines| ==> '\n' !in lines[i]
    ensures '\n' !in w[q]
  {
    var j := Locate(lines, ins, Placeholder, "", q);
    PlaceholderIsOneLine();
  }

  /** The lines written to disk are read back as the same lines. */
  lemma RewrittenTextSplitsBack(lines: seq<string>, ins: seq<nat>)
    requires lines != [] && forall i :: 0 <= i < |lines| ==> '\n' !in lines[i]
    ensures var w := Weave(lines, ins, Placeholder, ""); Split(Join(w, '\n'), '\n') == w
  {
    var w := Weave(lines, ins, Placeholder, "");
    forall q: nat | q < |w| ensures '\n' !in w[q] { WovenLineIsOneLine(lines, ins, w, q); }
    SplitOfJoin(w, '\n');
  }
}
