/** Which lines the skip-annotation lint takes for annotations: the form its regular expression
    describes, told without the scan that recognises it. */
module AnnotationForm {
  import opened JsText
  import opened LintSkipAnnotations

  /** t is `//`, white space, the tag, at least one white space, and a reason on one line. */
  predicate Splits(t: string, gap: string, sep: string, body: string) {
    && t == "//" + (gap + ("SKIP-REASON:" + (sep + body)))
    && AllSpace(gap) && AllSpace(sep) && sep != "" && body != "" && !HasLineTerminator(body)
  }

  // ---------- what trimming does ----------

  /** Trimming takes white space off both ends, and all of it. */
  lemma TrimSplits(s: string) returns (before: string, after: string)
    ensures s == before + Trim(s) + after && AllSpace(before) && AllSpace(after)
    ensures Trim(s) == "" || Tight(Trim(s))
  {
    var i := SkipSpace(s, 0);
    var j := DropSpace(s, i, |s|);
    before, after := s[..i], s[j..];
    assert s == s[..i] + s[i..j] + s[j..];
    TightBetween(s, i, j);
  }

  lemma TightBetween(s: string, i: nat, j: nat)
    requires i <= j <= |s| && (i < j ==> !IsSpace(s[i]) && !IsSpace(s[j - 1]))
    ensures s[i..j] == "" || Tight(s[i..j])
  {
  }

  lemma TrimOfTightAlone(s: string)
    requires Tight(s)
    ensures Trim(s) == s
  {
    TrimOfTight("", s);
    assert "" + s == s;
  }

  // ---------- from the form to the scan ----------

  /** Where the pieces stand in t. */
  predicate Placed(t: string, open: string, i: nat, tag: string, j: nat, k: nat) {
    && StartsAt(t, 0, open) && |open| <= i && SpaceBetween(t, |open|, i)
    && StartsAt(t, i, tag) && j == i + |tag| && j < k <= |t| && SpaceBetween(t, j, k)
  }

  predicate SpaceBetween(t: string, i: nat, j: nat) { j <= |t| && forall p :: i <= p < j ==> IsSpace(t[p]) }

  lemma SpacePlaced(t: string, i: nat, gap: string)
    requires StartsAt(t, i, gap) && AllSpace(gap)
    ensures SpaceBetween(t, i, i + |gap|)
  {
    forall p | i <= p < i + |gap| ensures IsSpace(t[p]) { CharIn(t, i, gap, p - i); }
  }

  lemma FormIsPlaced(t: string, open: string, gap: string, tag: string, sep: string, body: string)
      returns (i: nat, j: nat, b: nat)
    requires t == open + (gap + (tag + (sep + body))) && AllSpace(gap) && AllSpace(sep) && sep != ""
    ensures Placed(t, open, i, tag, j, b) && t[b..] == body
  {
    i := |open| + |gap|;
    j := i + |tag|;
    b := j + |sep|;
    assert t[0..0 + |t|] == t;
    StartsInTurn(t, 0, open, gap + (tag + (sep + body)));
    StartsInTurn(t, |open|, gap, tag + (sep + body));
    StartsInTurn(t, i, tag, sep + body);
    StartsInTurn(t, j, sep, body);
    SpacePlaced(t, |open|, gap);
    SpacePlaced(t, j, sep);
  }

  /** The scan finds the pieces, and reads from the first visible character of the reason on. */
  lemma PlacedIsRead(t: string, open: string, i: nat, tag: string, j: nat, b: nat, k: nat)
    requires Placed(t, open, i, tag, j, b) && tag != "" && !IsSpace(tag[0])
    requires b <= k < |t| && SpaceBetween(t, b, k) && !IsSpace(t[k]) && !HasLineTerminator(t[k..])
    ensures BodyBehind(t, open, tag) == Some(Trim(t[k..]))
  {
    CharIn(t, i, tag, 0);
    SkipSpaceAt(t, |open|, i);
    SpaceAsFar(t, j, b, k);
    SkipSpaceAt(t, j, k);
  }

  lemma SpaceAsFar(t: string, j: nat, b: nat, k: nat)
    requires j <= b <= k && SpaceBetween(t, j, b) && SpaceBetween(t, b, k)
    ensures SpaceBetween(t, j, k)
  {
  }

  lemma VisiblePart(t: string, b: nat) returns (k: nat)
    requires Tight(t) && b < |t|
    ensures b <= k < |t| && SpaceBetween(t, b, k) && !IsSpace(t[k])
    ensures Trim(t[k..]) == Trim(t[b..])
  {
    k := SkipSpace(t, b);
    var front, rest := t[b..k], t[k..];
    assert t[b..] == front + rest && Tight(rest);
    TrimOfTight(front, rest);
    TrimOfTightAlone(rest);
  }

  lemma SuffixHasNoLineEnd(t: string, b: nat, k: nat)
    requires b <= k <= |t| && !HasLineTerminator(t[b..])
    ensures !HasLineTerminator(t[k..])
  {
    assert t[k..] == t[b..][k - b..];
  }

  /** The scan reads the reason of a line of that form, trimmed. */
  lemma FormIsRead(t: string, open: string, gap: string, tag: string, sep: string, body: string)
    requires t == open + (gap + (tag + (sep + body))) && Tight(t) && tag != "" && !IsSpace(tag[0])
    requires AllSpace(gap) && AllSpace(sep) && sep != "" && body != "" && !HasLineTerminator(body)
    ensures BodyBehind(t, open, tag) == Some(Trim(body))
  {
    var i, j, b := FormIsPlaced(t, open, gap, tag, sep, body);
    var k := VisiblePart(t, b);
    SuffixHasNoLineEnd(t, b, k);
    PlacedIsRead(t, open, i, tag, j, b, k);
  }

  // ---------- from the scan to the form ----------

  lemma ReadIsPlaced(t: string, open: string, tag: string) returns (i: nat, j: nat, k: nat)
    requires BodyBehind(t, open, tag).Some?
    ensures Placed(t, open, i, tag, j, k) && k < |t| && !HasLineTerminator(t[k..])
  {
    i := SkipSpace(t, |open|);
    j := i + |tag|;
    k := SkipSpace(t, j);
  }

  lemma PlacedHasForm(t: string, open: string, i: nat, tag: string, j: nat, k: nat)
    requires Placed(t, open, i, tag, j, k)
    ensures t == open + (t[|open|..i] + (tag + (t[j..k] + t[k..])))
    ensures AllSpace(t[|open|..i]) && AllSpace(t[j..k])
  {
    assert t == t[0..0 + |open|] + (t[|open|..i] + (t[i..i + |tag|] + (t[j..k] + t[k..])));
  }

  lemma ReadHasForm(t: string, open: string, tag: string) returns (gap: string, sep: string, body: string)
    requires BodyBehind(t, open, tag).Some?
    ensures t == open + (gap + (tag + (sep + body))) && AllSpace(gap) && AllSpace(sep)
    ensures sep != "" && body != "" && !HasLineTerminator(body)
  {
    var i, j, k := ReadIsPlaced(t, open, tag);
    PlacedHasForm(t, open, i, tag, j, k);
    gap, sep, body := t[|open|..i], t[j..k], t[k..];
  }

  // ---------- which lines are annotations ----------

  lemma MarkOfForm(line: string, gap: string, sep: string, body: string)
    requires Splits(Trim(line), gap, sep, body)
    ensures MarkOf(line) == if Units(Trim(body)) >= 10 then Good else Short
  {
    var before, after := TrimSplits(line);
    FormIsRead(Trim(line), "//", gap, "SKIP-REASON:", sep, body);
  }

  lemma MarkedHasForm(line: string) returns (gap: string, sep: string, body: string)
    requires MarkOf(line) != Plain
    ensures Splits(Trim(line), gap, sep, body)
  {
    gap, sep, body := ReadHasForm(Trim(line), "//", SKIP_REASON_TAG);
  }

  /** A line counts exactly if it has the form once trimmed; it is a good annotation exactly if the
      reason, trimmed, is at least ten units long. */
  lemma AnnotationIff(line: string)
    ensures MarkOf(line) != Plain <==> exists gap, sep, body :: Splits(Trim(line), gap, sep, body)
    ensures MarkOf(line) == Good <==>
      exists gap, sep, body :: Splits(Trim(line), gap, sep, body) && Units(Trim(body)) >= 10
  {
    if MarkOf(line) != Plain {
      var gap, sep, body := MarkedHasForm(line);
      MarkOfForm(line, gap, sep, body);
    } else if gap, sep, body :| Splits(Trim(line), gap, sep, body) {
      MarkOfForm(line, gap, sep, body);
    }
    if gap, sep, body :| Splits(Trim(line), gap, sep, body) && Units(Trim(body)) >= 10 {
      MarkOfForm(line, gap, sep, body);
    }
  }

  /** In particular a comment that goes on with anything but the tag is none. */
  lemma OtherCommentIsPlain(line: string, gap: string, rest: string)
    requires Trim(line) == "//" + (gap + rest) && AllSpace(gap)
    requires rest != "" && !IsSpace(rest[0]) && !StartsWith(rest, "SKIP-REASON:")
    ensures MarkOf(line) == Plain
  {
    var t := Trim(line);
    var i := RestIsPlaced(t, "//", gap, rest);
    TagStartsRest(t, i, rest, "SKIP-REASON:");
  }

  lemma RestIsPlaced(t: string, open: string, gap: string, rest: string) returns (i: nat)
    requires t == open + (gap + rest) && AllSpace(gap) && rest != "" && !IsSpace(rest[0])
    ensures i <= |t| && t[i..] == rest && SkipSpace(t, |open|) == i
  {
    i := |open| + |gap|;
    assert t[0..0 + |t|] == t;
    StartsInTurn(t, 0, open, gap + rest);
    StartsInTurn(t, |open|, gap, rest);
    SpacePlaced(t, |open|, gap);
    CharIn(t, i, rest, 0);
    SkipSpaceAt(t, |open|, i);
  }

  lemma TagStartsRest(t: string, i: nat, rest: string, tag: string)
    requires i <= |t| && t[i..] == rest && !StartsWith(rest, tag)
    ensures !StartsAt(t, i, tag)
  {
    assert |tag| <= |rest| ==> t[i..i + |tag|] == rest[..|tag|];
  }

  /** Nor is a line that is no comment. */
  lemma NonCommentIsPlain(line: string)
    requires !StartsWith(Trim(line), "//")
    ensures MarkOf(line) == Plain
  {
    var t := Trim(line);
    assert t[0..] == t;
    TagStartsRest(t, 0, t, "//");
  }

  // ---------- what the lint reports ----------

  ghost predicate Annotated(line: string) { exists gap, sep, body :: Splits(Trim(line), gap, sep, body) }

  ghost predicate WellAnnotated(line: string) {
    exists gap, sep, body :: Splits(Trim(line), gap, sep, body) && Units(Trim(body)) >= 10
  }

  /** Line i is one of the five above line n. */
  predicate FiveAbove(i: nat, n: nat) { i < n <= i + 5 }

  lemma WindowIsFive(i: nat, n: nat)
    ensures InWindow(i, n) <==> FiveAbove(i, n)
  {
  }

  /** A call is in order iff one of the five lines above it is a good annotation; its reason is
      missing iff none of them is an annotation at all. */
  lemma VerdictIff(lines: seq<string>, n: nat)
    ensures Check(lines, n).Ok? <==> exists i: nat :: i < |lines| && FiveAbove(i, n) && WellAnnotated(lines[i])
    ensures Check(lines, n).Missing? <==> forall i: nat :: i < |lines| && FiveAbove(i, n) ==> !Annotated(lines[i])
  {
    forall i: nat | i < |lines|
      ensures MarkOf(lines[i]).Good? <==> WellAnnotated(lines[i])
      ensures MarkOf(lines[i]).Plain? <==> !Annotated(lines[i])
    {
      AnnotationIff(lines[i]);
    }
    VerdictByMarks(MarkOf, lines, n);
  }

  lemma VerdictByMarks(mk: string -> Mark, lines: seq<string>, n: nat)
    ensures VerdictBy(MarksBy(mk, lines), n).Ok? <==> exists i: nat :: i < |lines| && FiveAbove(i, n) && mk(lines[i]).Good?
    ensures VerdictBy(MarksBy(mk, lines), n).Missing? <==>
      forall i: nat :: i < |lines| && FiveAbove(i, n) ==> mk(lines[i]).Plain?
  {
    var mark := MarksBy(mk, lines);
    forall i: nat ensures InWindow(i, n) <==> FiveAbove(i, n) { WindowIsFive(i, n); }
    if i: nat :| i < |lines| && FiveAbove(i, n) && !mk(lines[i]).Plain? {
      assert InWindow(i, n) && mark(i) == mk(lines[i]);
    }
    if i: nat :| i < |lines| && FiveAbove(i, n) && mk(lines[i]).Good? {
      assert InWindow(i, n) && mark(i).Good?;
    }
  }

  /** The lint reports exactly the calls that are not in order, by their 1-based lines. */
  lemma {:induction false} ReportedIff(verdict: nat -> Verdict, sites: seq<nat>, v: Violation)
    ensures v in ViolationsBy(verdict, sites) <==>
      v.reason != Ok && v.line - 1 in sites && verdict(v.line - 1) == v.reason
  {
    if sites != [] {
      var tail := ViolationsBy(verdict, sites[1..]);
      ReportedIff(verdict, sites[1..], v);
      assert sites == [sites[0]] + sites[1..];
    }
  }

  lemma ReportIs(file: SourceFile, v: Violation)
    ensures v in Violations(file) <==> v.reason != Ok && v.line - 1 in file.sites && Check(file.lines, v.line - 1) == v.reason
  {
    ReportedIff(Verdicts(MarkOf, file.lines), file.sites, v);
  }

  lemma {:induction false} ReportedJoins(verdict: nat -> Verdict, a: seq<nat>, b: seq<nat>)
    ensures ViolationsBy(verdict, a + b) == ViolationsBy(verdict, a) + ViolationsBy(verdict, b)
    decreases |a|
  {
    if a == [] {
      assert a + b == b;
    } else {
      assert (a + b)[1..] == a[1..] + b;
      ReportedJoins(verdict, a[1..], b);
    }
  }

  /** Call by call, in the order of the calls: each gives one violation, or none where it is ok. */
  lemma ReportIsCallByCall(lines: seq<string>, a: seq<nat>, n: nat)
    ensures var said := if Check(lines, n) == Ok then [] else [Violation(n + 1, Check(lines, n))];
      Violations(SourceFile(lines, a + [n])) == Violations(SourceFile(lines, a)) + said
  {
    var verdict := Verdicts(MarkOf, lines);
    ReportedJoins(verdict, a, [n]);
    assert [n][1..] == [] && ViolationsBy(verdict, []) == [];
  }
}
