/** The verdicts of the phase-tag sweep on lines of a given form, under the tool's own table. */
module PhaseTagLines {
  import opened JsText
  import opened Regex
  import opened RegexReading
  import opened NeighbourSweep
  import opened PhaseTagSweep
  import opened PhaseTagRules

  // ---------- the verdict, told by the scans ----------

  predicate Holds(line: string, word: string) { exists p :: 0 <= p <= |line| && Stands(line, p, word) }

  predicate HoldsKeepWord(line: string) {
    || Holds(line, "because") || Holds(line, "to avoid") || Holds(line, "workaround") || Holds(line, "fixes")
    || Holds(line, "NEVER") || Holds(line, "MUST") || Holds(line, "prevent")
    || Holds(line, "PITFALLS \U{A7}") || Holds(line, "SUMMARY.md")
  }

  predicate HoldsDashBody(line: string) { exists p :: 0 <= p <= |line| && DashedAt(line, p) }

  lemma HoldsIff(line: string, word: string)
    ensures Includes(line, word) <==> Holds(line, word)
  {
    forall p | 0 <= p <= |line| ensures StartsWith(line[p..], word) <==> Stands(line, p, word) {
      StandsIff(line, p, word);
      assert p + |word| <= |line| ==> line[p..][..|word|] == line[p..p + |word|];
    }
  }

  predicate AnyHeld(words: seq<string>, line: string) { exists i :: 0 <= i < |words| && Holds(line, words[i]) }

  lemma AnyHeldCons(w: string, words: seq<string>, line: string)
    ensures AnyHeld([w] + words, line) <==> Holds(line, w) || AnyHeld(words, line)
  {
    var all := [w] + words;
    if Holds(line, w) { assert Holds(line, all[0]); }
    if i :| 0 <= i < |words| && Holds(line, words[i]) { assert Holds(line, all[i + 1]); }
    if i :| 0 <= i < |all| && Holds(line, all[i]) { assert i > 0 ==> all[i] == words[i - 1]; }
  }

  lemma AnyOfNine(a: string, b: string, c: string, d: string, e: string, f: string, g: string, h: string, i: string,
                  line: string)
    ensures AnyHeld([a, b, c, d, e, f, g, h, i], line) <==>
      (|| Holds(line, a) || Holds(line, b) || Holds(line, c) || Holds(line, d) || Holds(line, e)
       || Holds(line, f) || Holds(line, g) || Holds(line, h) || Holds(line, i))
  {
    assert [a, b, c, d, e, f, g, h, i] == [a] + ([b] + ([c] + ([d] + ([e] + ([f] + ([g] + ([h] + ([i] + []))))))));
    AnyHeldCons(a, [b] + ([c] + ([d] + ([e] + ([f] + ([g] + ([h] + ([i] + []))))))), line);
    AnyHeldCons(b, [c] + ([d] + ([e] + ([f] + ([g] + ([h] + ([i] + [])))))), line);
    AnyHeldCons(c, [d] + ([e] + ([f] + ([g] + ([h] + ([i] + []))))), line);
    AnyHeldCons(d, [e] + ([f] + ([g] + ([h] + ([i] + [])))), line);
    AnyHeldCons(e, [f] + ([g] + ([h] + ([i] + []))), line);
    AnyHeldCons(f, [g] + ([h] + ([i] + [])), line);
    AnyHeldCons(g, [h] + ([i] + []), line);
    AnyHeldCons(h, [i] + [], line);
    AnyHeldCons(i, [], line);
  }

  /** The keep rules protect exactly the lines that hold one of the nine phrases, or a decision
      with a dash and a body behind `//`. */
  lemma KeepIff(line: string)
    ensures KeepByContent(SWEEP_RULES, line) <==> HoldsKeepWord(line) || HoldsDashBody(line)
  {
    var words := SWEEP_RULES.keepWords;
    forall i | 0 <= i < |words| ensures Includes(line, words[i]) <==> Holds(line, words[i]) {
      HoldsIff(line, words[i]);
    }
    assert words == ["because", "to avoid", "workaround", "fixes", "NEVER", "MUST", "prevent", "PITFALLS \U{A7}", "SUMMARY.md"];
    AnyOfNine("because", "to avoid", "workaround", "fixes", "NEVER", "MUST", "prevent", "PITFALLS \U{A7}", "SUMMARY.md", line);
    DashBodyIff(line);
  }

  lemma CommentIff(line: string)
    ensures IsComment(line) <==> BehindSlashes(line).Some?
  {
    var i := SkipSpace(line, 0);
    SkipRunAt(Space, line, 0, i);
    TwoSlashes(line, i);
    assert |line[i..]| >= 2 ==> line[i..][0] == line[i] && line[i..][1] == line[i + 1];
  }

  predicate IsTag(line: string) {
    BehindSlashes(line).Some? &&
    var i := BehindSlashes(line).value; HeaderAt(line, i) || NoteAt(line, i) || DecisionAt(line, i)
  }

  predicate IsCloseOut(line: string) { BehindSlashes(line).Some? && CloseOutAt(line, BehindSlashes(line).value) }

  predicate CommentNear(l: Option<string>) { l.Some? && BehindSlashes(l.value).Some? }

  /** A line goes exactly if it is a close-out note, or a tag that holds nothing worth keeping and
      has no comment next to it. */
  lemma ClassifyIff(line: string, prev: Option<string>, next: Option<string>)
    ensures Classify(SWEEP_RULES, line, prev, next).Remove? <==>
      (|| IsCloseOut(line)
       || (IsTag(line) && !HoldsKeepWord(line) && !HoldsDashBody(line) && !CommentNear(prev) && !CommentNear(next)))
  {
    CloseOutIff(line);
    PhaseTagIff(line);
    KeepIff(line);
    CommentIff(line);
    if prev.Some? { CommentIff(prev.value); }
    if next.Some? { CommentIff(next.value); }
    VerdictOf(SWEEP_RULES, line, prev, next);
  }

  lemma VerdictOf(rules: Rules, line: string, prev: Option<string>, next: Option<string>)
    requires PhaseTag(rules, line) ==> IsComment(line)
    ensures Classify(rules, line, prev, next).Remove? <==>
      (|| CloseOut(rules, line)
       || (&& PhaseTag(rules, line) && !KeepByContent(rules, line)
           && !(prev.Some? && IsComment(prev.value)) && !(next.Some? && IsComment(next.value))))
  {
  }

  // ---------- walking along a line piece by piece ----------

  /** From position i on the line is exactly `rest`. */
  predicate Ends(s: string, i: nat, rest: string) { i <= |s| && s[i..] == rest }

  lemma Passes(s: string, i: nat, a: string, rest: string)
    requires Ends(s, i, a + rest)
    ensures Stands(s, i, a) && Ends(s, i + |a|, rest)
  {
    assert forall d :: 0 <= d < |a| ==> s[i + d] == s[i..][d] == a[d];
    assert s[i + |a|..] == s[i..][|a|..] == rest;
  }

  lemma CharOf(s: string, i: nat, w: string, d: nat)
    requires d < |w|
    ensures Stands(s, i, w) ==> s[i + d] == w[d]
  {
  }

  lemma HeadOf(s: string, i: nat, rest: string)
    requires Ends(s, i, rest)
    ensures i < |s| <==> rest != ""
    ensures rest != "" ==> s[i] == rest[0]
  {
  }

  predicate AllIn(cs: CharSet, run: string) { forall k :: 0 <= k < |run| ==> cs.Has(run[k]) }

  predicate StartsOutside(cs: CharSet, rest: string) { rest == "" || !cs.Has(rest[0]) }

  /** The longest stretch of such characters from position i on ends at j. */
  predicate Run(cs: CharSet, s: string, i: nat, j: nat) {
    i <= j <= |s| && (forall p :: i <= p < j ==> cs.Has(s[p])) && (j < |s| ==> !cs.Has(s[j]))
  }

  lemma RunEnds(cs: CharSet, s: string, i: nat, run: string, rest: string)
    requires Ends(s, i, run + rest) && AllIn(cs, run) && StartsOutside(cs, rest)
    ensures Run(cs, s, i, i + |run|) && Ends(s, i + |run|, rest)
  {
    Passes(s, i, run, rest);
    HeadOf(s, i + |run|, rest);
    forall p | i <= p < i + |run| ensures cs.Has(s[p]) { assert s[i + (p - i)] == run[p - i]; }
  }

  lemma RunIs(cs: CharSet, s: string, i: nat, j: nat)
    requires Run(cs, s, i, j)
    ensures SkipRun(cs, s, i) == j
  {
    SkipRunAt(cs, s, i, j);
  }

  lemma SlashesEnd(line: string, pad: string, rest: string)
    requires line == pad + ("//" + rest) && AllIn(Space, pad)
    ensures BehindSlashes(line) == Some(|pad| + 2) && Ends(line, |pad| + 2, rest)
  {
    assert line[0..] == line;
    WordEnds(line, 0, pad, "//", rest);
    RunIs(Space, line, 0, |pad|);
  }

  lemma WordEnds(s: string, i: nat, gap: string, word: string, rest: string)
    requires Ends(s, i, gap + (word + rest)) && AllIn(Space, gap) && word != "" && !IsSpace(word[0])
    ensures Run(Space, s, i, i + |gap|) && Stands(s, i + |gap|, word) && Ends(s, i + |gap| + |word|, rest)
  {
    RunEnds(Space, s, i, gap, word + rest);
    Passes(s, i + |gap|, word, rest);
  }

  lemma NumberIsNoSpace(num: string, rest: string)
    requires AllIn(Digit, num) && num != ""
    ensures StartsOutside(Space, num + rest)
  {
    assert IsDigit(num[0]) && (num + rest)[0] == num[0];
  }

  lemma NumberEnds(s: string, i: nat, ws: string, num: string, rest: string)
    requires Ends(s, i, ws + (num + rest))
    requires AllIn(Space, ws) && AllIn(Digit, num) && num != "" && StartsOutside(Digit, rest)
    ensures Run(Space, s, i, i + |ws|) && Run(Digit, s, i + |ws|, i + |ws| + |num|) && Ends(s, i + |ws| + |num|, rest)
  {
    NumberIsNoSpace(num, rest);
    RunEnds(Space, s, i, ws, num + rest);
    RunEnds(Digit, s, i + |ws|, num, rest);
  }

  lemma NumberedAt(s: string, i: nat, a: nat, word: string, b: nat, c: nat)
    requires Run(Space, s, i, a) && Stands(s, a, word) && Run(Space, s, a + |word|, b) && Run(Digit, s, b, c)
    requires a + |word| < b < c
    ensures Numbered(s, i, word) == Some(c)
  {
    RunIs(Space, s, i, a);
    RunIs(Space, s, a + |word|, b);
    RunIs(Digit, s, b, c);
  }

  lemma NumberedEnds(s: string, i: nat, gap: string, word: string, ws: string, num: string, rest: string) returns (m: nat)
    requires Ends(s, i, gap + (word + (ws + (num + rest)))) && word != "" && !IsSpace(word[0])
    requires AllIn(Space, gap) && AllIn(Space, ws) && ws != "" && AllIn(Digit, num) && num != "" && StartsOutside(Digit, rest)
    ensures Numbered(s, i, word) == Some(m) && Ends(s, m, rest)
  {
    var a := i + |gap|;
    var b := a + |word| + |ws|;
    m := b + |num|;
    WordEnds(s, i, gap, word, ws + (num + rest));
    NumberEnds(s, a + |word|, ws, num, rest);
    NumberedAt(s, i, a, word, b, m);
  }

  lemma DecisionOf(s: string, i: nat, a: nat, b: nat)
    requires Run(Space, s, i, a) && Stands(s, a, "D-") && Run(Digit, s, a + 2, b) && a + 2 < b
    ensures Decision(s, i) == Some(b)
  {
    RunIs(Space, s, i, a);
    RunIs(Digit, s, a + 2, b);
  }

  lemma DecisionEnds(s: string, i: nat, gap: string, num: string, rest: string) returns (m: nat)
    requires Ends(s, i, gap + ("D-" + (num + rest)))
    requires AllIn(Space, gap) && AllIn(Digit, num) && num != "" && StartsOutside(Digit, rest)
    ensures Decision(s, i) == Some(m) && Ends(s, m, rest)
  {
    var a := i + |gap|;
    m := a + 2 + |num|;
    WordEnds(s, i, gap, "D-", num + rest);
    RunEnds(Digit, s, a + 2, num, rest);
    DecisionOf(s, i, a, m);
  }

  lemma GroupEnds(s: string, i: nat, lead: string, num: string, rest: string)
    requires Ends(s, i, lead + (num + rest)) && AllIn(Digit, num) && num != "" && StartsOutside(Digit, rest)
    ensures SkipGroup(s, i, lead) == i + |lead| + |num| && Ends(s, i + |lead| + |num|, rest)
  {
    Passes(s, i, lead, num + rest);
    RunEnds(Digit, s, i + |lead|, num, rest);
    RunIs(Digit, s, i + |lead|, i + |lead| + |num|);
  }

  lemma NoGroup(s: string, i: nat, lead: string, rest: string)
    requires Ends(s, i, rest) && lead != "" && (rest == "" || rest[0] != lead[0])
    ensures SkipGroup(s, i, lead) == i
  {
    HeadOf(s, i, rest);
  }

  // ---------- lines no keep rule protects ----------

  /** Holds neither the character nor any of those every keep phrase has one of. */
  predicate Quiet(s: string, other: char) { forall k :: 0 <= k < |s| ==> QuietChar(s[k]) && s[k] != other }

  predicate QuietChar(c: char) { c !in "bvwfNMIS" }

  lemma QuietHolds(line: string, other: char, word: string, d: nat)
    requires Quiet(line, other) && d < |word| && !QuietChar(word[d])
    ensures !Holds(line, word)
  {
    forall p | 0 <= p <= |line| ensures !Stands(line, p, word) { CharOf(line, p, word, d); }
  }

  lemma QuietKeepsNothing(line: string, other: char)
    requires Quiet(line, other)
    ensures !HoldsKeepWord(line)
  {
    QuietHolds(line, other, "because", 0);
    QuietHolds(line, other, "to avoid", 4);
    QuietHolds(line, other, "workaround", 0);
    QuietHolds(line, other, "fixes", 0);
    QuietHolds(line, other, "NEVER", 0);
    QuietHolds(line, other, "MUST", 0);
    QuietHolds(line, other, "prevent", 3);
    QuietHolds(line, other, "PITFALLS \U{A7}", 1);
    QuietHolds(line, other, "SUMMARY.md", 0);
  }

  lemma NoDashBody(line: string, other: char)
    requires Quiet(line, other) && (other == 'D' || other == '\U{2014}')
    ensures !HoldsDashBody(line)
  {
    forall p | 0 <= p <= |line| ensures !DashedAt(line, p) {
      if DashedAt(line, p) { DashBodyChars(line, p + 2, other); }
    }
  }

  lemma DashBodyChars(line: string, i: nat, other: char)
    requires i <= |line| && DashBodyAt(line, i) && (other == 'D' || other == '\U{2014}')
    ensures !Quiet(line, other)
  {
    var a := SkipRun(Space, line, i);
    CharOf(line, a, "D-", 0);
    var b := SkipRun(Space, line, SkipDecisionTail(line, Decision(line, i).value));
    CharOf(line, b, "\U{2014}", 0);
  }

  lemma QuietCat(a: string, b: string, other: char)
    requires Quiet(a, other) && Quiet(b, other)
    ensures Quiet(a + b, other)
  {
  }

  lemma RunIsQuiet(cs: CharSet, run: string, other: char)
    requires AllIn(cs, run) && (cs == Space || cs == Digit) && (other == 'D' || other == '\U{2014}')
    ensures Quiet(run, other)
  {
    forall k | 0 <= k < |run| ensures QuietChar(run[k]) && run[k] != other { assert cs.Has(run[k]); }
  }

  predicate AllTitle(s: string) { forall k :: 0 <= k < |s| ==> TitleChar(s[k]) }

  lemma TitleIsQuiet(s: string)
    requires AllTitle(s)
    ensures Quiet(s, 'D')
  {
    forall k | 0 <= k < |s| ensures QuietChar(s[k]) && s[k] != 'D' { assert TitleChar(s[k]); }
  }

  // ---------- tags that go ----------

  /** No comment stands on the line before or behind. */
  predicate Alone(lines: seq<string>, i: nat)
    requires i < |lines|
  {
    (i > 0 ==> BehindSlashes(lines[i - 1]).None?) && (i + 1 < |lines| ==> BehindSlashes(lines[i + 1]).None?)
  }

  lemma LoneTagGoes(line: string, other: char, prev: Option<string>, next: Option<string>)
    requires IsTag(line) && Quiet(line, other) && (other == 'D' || other == '\U{2014}')
    requires !CommentNear(prev) && !CommentNear(next)
    ensures Classify(SWEEP_RULES, line, prev, next).Remove?
  {
    QuietKeepsNothing(line, other);
    NoDashBody(line, other);
    ClassifyIff(line, prev, next);
  }

  function Before(lines: seq<string>, i: nat): Option<string>
    requires i < |lines|
  {
    if i > 0 then Some(lines[i - 1]) else None
  }

  function Behind(lines: seq<string>, i: nat): Option<string>
    requires i < |lines|
  {
    if i + 1 < |lines| then Some(lines[i + 1]) else None
  }

  lemma RemovedIsReported(rules: Rules, text: string, i: nat)
    requires var lines := Split(text, '\n');
      i < |lines| && Classify(rules, lines[i], Before(lines, i), Behind(lines, i)).Remove?
    ensures Finding(i + 1, Split(text, '\n')[i]) in Audit(LineKind(rules), text)
  {
    AuditReportsRemovals(rules, text, Finding(i + 1, Split(text, '\n')[i]));
  }

  lemma LoneTagIsReported(text: string, i: nat, other: char)
    requires var lines := Split(text, '\n');
      i < |lines| && Alone(lines, i) && IsTag(lines[i]) && Quiet(lines[i], other)
    requires other == 'D' || other == '\U{2014}'
    ensures Finding(i + 1, Split(text, '\n')[i]) in Audit(LineKind(SWEEP_RULES), text)
  {
    var lines := Split(text, '\n');
    LoneTagGoes(lines[i], other, Before(lines, i), Behind(lines, i));
    RemovedIsReported(SWEEP_RULES, text, i);
  }

  /** `//`, `Phase`, a number, and the rest, with any white space between. */
  predicate PhaseLine(line: string, pad: string, gap: string, ws: string, num: string, rest: string) {
    && line == pad + ("//" + (gap + ("Phase" + (ws + (num + rest)))))
    && AllIn(Space, pad) && AllIn(Space, gap) && AllIn(Space, ws) && ws != "" && AllIn(Digit, num) && num != ""
  }

  lemma PhaseLineReads(line: string, pad: string, gap: string, ws: string, num: string, rest: string)
      returns (i: nat, m: nat)
    requires PhaseLine(line, pad, gap, ws, num, rest) && StartsOutside(Digit, rest)
    ensures BehindSlashes(line) == Some(i) && i <= |line| && Numbered(line, i, "Phase") == Some(m) && Ends(line, m, rest)
  {
    SlashesEnd(line, pad, gap + ("Phase" + (ws + (num + rest))));
    i := |pad| + 2;
    m := NumberedEnds(line, i, gap, "Phase", ws, num, rest);
  }

  lemma PhaseLineIsQuiet(line: string, pad: string, gap: string, ws: string, num: string, rest: string)
    requires PhaseLine(line, pad, gap, ws, num, rest) && Quiet(rest, 'D')
    ensures Quiet(line, 'D')
  {
    RunIsQuiet(Space, pad, 'D');
    RunIsQuiet(Space, gap, 'D');
    RunIsQuiet(Space, ws, 'D');
    RunIsQuiet(Digit, num, 'D');
    QuietCat(num, rest, 'D');
    QuietCat(ws, num + rest, 'D');
    QuietCat("Phase", ws + (num + rest), 'D');
    QuietCat(gap, "Phase" + (ws + (num + rest)), 'D');
    QuietCat("//", gap + ("Phase" + (ws + (num + rest))), 'D');
    QuietCat(pad, "//" + (gap + ("Phase" + (ws + (num + rest)))), 'D');
  }

  lemma TitleEnds(s: string, m: nat, title: string)
    requires Ends(s, m, title) && AllTitle(title)
    ensures HeaderTail(s, m)
  {
    NoGroup(s, m, ".", title);
    forall p | m <= p < |s| ensures TitleChar(s[p]) { assert s[p] == title[p - m]; }
  }

  lemma TitleTurns(title: string)
    requires AllTitle(title)
    ensures StartsOutside(Digit, title)
  {
    assert title != "" ==> TitleChar(title[0]);
  }

  /** A phase header alone on its line, however it is indented and numbered, is reported where no
      comment stands next to it. */
  lemma LonePhaseGoes(text: string, i: nat, pad: string, gap: string, ws: string, num: string, title: string)
    requires var lines := Split(text, '\n');
      i < |lines| && Alone(lines, i) && PhaseLine(lines[i], pad, gap, ws, num, title) && AllTitle(title)
    ensures Finding(i + 1, Split(text, '\n')[i]) in Audit(LineKind(SWEEP_RULES), text)
  {
    var line := Split(text, '\n')[i];
    TitleTurns(title);
    var k, m := PhaseLineReads(line, pad, gap, ws, num, title);
    TitleEnds(line, m, title);
    TitleIsQuiet(title);
    PhaseLineIsQuiet(line, pad, gap, ws, num, title);
    LoneTagIsReported(text, i, 'D');
  }

  /** A dash and the wording of an implementation note. */
  predicate NoteBody(body: string, sp2: string, sp3: string) {
    && body == "\U{2014}" + (sp2 + ("implementation note" + sp3))
    && AllIn(Space, sp2) && sp2 != "" && AllIn(Space, sp3)
  }

  /** So is an implementation note. */
  lemma LoneImplementationNoteGoes(text: string, i: nat, pad: string, gap: string, ws: string, num: string,
                                   sp1: string, body: string, sp2: string, sp3: string)
    requires AllIn(Space, sp1) && sp1 != "" && NoteBody(body, sp2, sp3)
    requires var lines := Split(text, '\n');
      i < |lines| && Alone(lines, i) && PhaseLine(lines[i], pad, gap, ws, num, sp1 + body)
    ensures Finding(i + 1, Split(text, '\n')[i]) in Audit(LineKind(SWEEP_RULES), text)
  {
    var line := Split(text, '\n')[i];
    SpaceTurns(sp1, body);
    var k, m := PhaseLineReads(line, pad, gap, ws, num, sp1 + body);
    NoteEnds(line, m, sp1, body, sp2, sp3);
    NoteIsQuiet(body, sp2, sp3);
    RunIsQuiet(Space, sp1, 'D');
    QuietCat(sp1, body, 'D');
    PhaseLineIsQuiet(line, pad, gap, ws, num, sp1 + body);
    LoneTagIsReported(text, i, 'D');
  }

  lemma SpaceTurns(sp: string, rest: string)
    requires AllIn(Space, sp) && sp != ""
    ensures StartsOutside(Digit, sp + rest)
  {
    assert IsSpace(sp[0]) && (sp + rest)[0] == sp[0];
  }

  lemma NoteEnds(s: string, m: nat, sp1: string, body: string, sp2: string, sp3: string)
    requires AllIn(Space, sp1) && sp1 != "" && NoteBody(body, sp2, sp3) && Ends(s, m, sp1 + body)
    ensures NoteTail(s, m, "implementation note")
  {
    var a := m + |sp1|;
    var b := a + 1 + |sp2|;
    WordEnds(s, m, sp1, "\U{2014}", sp2 + ("implementation note" + sp3));
    WordEnds(s, a + 1, sp2, "implementation note", sp3);
    SpaceEnds(s, b + 19, sp3);
    NoteAtPlaces(s, m, a, b, "implementation note");
  }

  lemma NoteAtPlaces(s: string, m: nat, a: nat, b: nat, wording: string)
    requires Run(Space, s, m, a) && Stands(s, a, "\U{2014}") && m < a
    requires Run(Space, s, a + 1, b) && Stands(s, b, wording) && a + 1 < b && OnlySpace(s, b + |wording|)
    ensures NoteTail(s, m, wording)
  {
    RunIs(Space, s, m, a);
    RunIs(Space, s, a + 1, b);
  }

  lemma SpaceEnds(s: string, i: nat, sp: string)
    requires Ends(s, i, sp) && AllIn(Space, sp)
    ensures OnlySpace(s, i)
  {
    forall p | i <= p < |s| ensures IsSpace(s[p]) { assert s[p] == sp[p - i]; }
  }

  lemma NoteIsQuiet(body: string, sp2: string, sp3: string)
    requires NoteBody(body, sp2, sp3)
    ensures Quiet(body, 'D')
  {
    RunIsQuiet(Space, sp2, 'D');
    RunIsQuiet(Space, sp3, 'D');
    QuietCat("implementation note", sp3, 'D');
    QuietCat(sp2, "implementation note" + sp3, 'D');
    QuietCat("\U{2014}", sp2 + ("implementation note" + sp3), 'D');
  }

  /** `//`, `D-`, a number, and the rest. */
  predicate DecisionLine(line: string, pad: string, gap: string, num: string, rest: string) {
    && line == pad + ("//" + (gap + ("D-" + (num + rest))))
    && AllIn(Space, pad) && AllIn(Space, gap) && AllIn(Digit, num) && num != ""
  }

  lemma DecisionLineReads(line: string, pad: string, gap: string, num: string, rest: string) returns (i: nat, m: nat)
    requires DecisionLine(line, pad, gap, num, rest) && StartsOutside(Digit, rest)
    ensures BehindSlashes(line) == Some(i) && i <= |line| && Decision(line, i) == Some(m) && Ends(line, m, rest)
  {
    SlashesEnd(line, pad, gap + ("D-" + (num + rest)));
    i := |pad| + 2;
    m := DecisionEnds(line, i, gap, num, rest);
  }

  lemma DecisionLineIsQuiet(line: string, pad: string, gap: string, num: string, rest: string)
    requires DecisionLine(line, pad, gap, num, rest) && Quiet(rest, '\U{2014}')
    ensures Quiet(line, '\U{2014}')
  {
    var dash := '\U{2014}';
    RunIsQuiet(Space, pad, dash);
    RunIsQuiet(Space, gap, dash);
    RunIsQuiet(Digit, num, dash);
    QuietCat(num, rest, dash);
    QuietCat("D-", num + rest, dash);
    QuietCat(gap, "D-" + (num + rest), dash);
    QuietCat("//", gap + ("D-" + (num + rest)), dash);
    QuietCat(pad, "//" + (gap + ("D-" + (num + rest))), dash);
  }

  /** What may follow a decision's first number: nothing, `.N`, or `.N-EXN`. */
  function TailText(second: string, third: string): string {
    if second == "" then "" else if third == "" then "." + second else "." + (second + ("-EX" + third))
  }

  lemma TailTurns(second: string, third: string, sp: string)
    requires AllIn(Space, sp)
    ensures StartsOutside(Digit, TailText(second, third) + sp)
  {
    var all := TailText(second, third) + sp;
    if second == "" {
      assert all == sp && (sp != "" ==> IsSpace(sp[0]));
    } else {
      assert all[0] == TailText(second, third)[0] == '.';
    }
  }

  lemma TailGroups(second: string, third: string, sp: string)
    requires second != ""
    ensures TailText(second, third) + sp ==
            if third == "" then "." + (second + sp) else "." + (second + ("-EX" + (third + sp)))
  {
    if third == "" {
      assert ("." + second) + sp == "." + (second + sp);
    } else {
      assert (second + ("-EX" + third)) + sp == second + (("-EX" + third) + sp);
      assert ("-EX" + third) + sp == "-EX" + (third + sp);
      assert ("." + (second + ("-EX" + third))) + sp == "." + ((second + ("-EX" + third)) + sp);
    }
  }

  lemma SpaceIsNoLead(sp: string, c: char)
    requires AllIn(Space, sp) && !IsSpace(c)
    ensures sp == "" || sp[0] != c
  {
    assert sp != "" ==> IsSpace(sp[0]);
  }

  lemma SpaceTurnsAlone(sp: string)
    requires AllIn(Space, sp)
    ensures StartsOutside(Digit, sp)
  {
    assert sp != "" ==> IsSpace(sp[0]);
  }

  lemma OneNumberEnds(s: string, m: nat, sp: string)
    requires Ends(s, m, sp) && AllIn(Space, sp)
    ensures OnlySpace(s, SkipDecisionTail(s, m))
  {
    SpaceIsNoLead(sp, '.');
    NoGroup(s, m, ".", sp);
    SpaceEnds(s, m, sp);
  }

  lemma TwoNumbersEnd(s: string, m: nat, second: string, sp: string)
    requires Ends(s, m, "." + (second + sp)) && AllIn(Digit, second) && second != "" && AllIn(Space, sp)
    ensures OnlySpace(s, SkipDecisionTail(s, m))
  {
    SpaceTurnsAlone(sp);
    GroupEnds(s, m, ".", second, sp);
    var b := m + 1 + |second|;
    SpaceIsNoLead(sp, '-');
    NoGroup(s, b, "-EX", sp);
    SpaceEnds(s, b, sp);
  }

  lemma ThreeNumbersEnd(s: string, m: nat, second: string, third: string, rest: string)
    requires Ends(s, m, "." + (second + ("-EX" + (third + rest)))) && StartsOutside(Digit, rest)
    requires AllIn(Digit, second) && second != "" && AllIn(Digit, third) && third != ""
    ensures var b := SkipGroup(s, m, "."); var c := SkipGroup(s, b, "-EX"); m < b < c && Ends(s, c, rest)
  {
    var extension := "-EX" + (third + rest);
    assert extension[0] == '-';
    GroupEnds(s, m, ".", second, extension);
    GroupEnds(s, m + 1 + |second|, "-EX", third, rest);
  }

  lemma TailEnds(s: string, m: nat, second: string, third: string, sp: string)
    requires Ends(s, m, TailText(second, third) + sp) && AllIn(Digit, second) && AllIn(Digit, third) && AllIn(Space, sp)
    ensures OnlySpace(s, SkipDecisionTail(s, m))
  {
    if second == "" {
      assert TailText(second, third) + sp == sp;
      OneNumberEnds(s, m, sp);
    } else {
      TailGroups(second, third, sp);
      if third == "" {
        TwoNumbersEnd(s, m, second, sp);
      } else {
        SpaceTurnsAlone(sp);
        ThreeNumbersEnd(s, m, second, third, sp);
        SpaceEnds(s, SkipDecisionTail(s, m), sp);
      }
    }
  }

  lemma TailIsQuiet(second: string, third: string)
    requires AllIn(Digit, second) && AllIn(Digit, third)
    ensures Quiet(TailText(second, third), '\U{2014}')
  {
    var dash := '\U{2014}';
    RunIsQuiet(Digit, second, dash);
    RunIsQuiet(Digit, third, dash);
    QuietCat("-EX", third, dash);
    QuietCat(second, "-EX" + third, dash);
    QuietCat(".", second + ("-EX" + third), dash);
    QuietCat(".", second, dash);
  }

  /** And a decision, `D-N`, `D-N.N` or `D-N.N-EXN`. */
  lemma LoneDecisionGoes(text: string, i: nat, pad: string, gap: string, num: string, second: string, third: string,
                         sp: string)
    requires AllIn(Digit, second) && AllIn(Digit, third) && AllIn(Space, sp)
    requires var lines := Split(text, '\n');
      i < |lines| && Alone(lines, i) && DecisionLine(lines[i], pad, gap, num, TailText(second, third) + sp)
    ensures Finding(i + 1, Split(text, '\n')[i]) in Audit(LineKind(SWEEP_RULES), text)
  {
    var line := Split(text, '\n')[i];
    DecisionIsTag(line, pad, gap, num, second, third, sp);
    LoneTagIsReported(text, i, '\U{2014}');
  }

  lemma DecisionIsTag(line: string, pad: string, gap: string, num: string, second: string, third: string, sp: string)
    requires DecisionLine(line, pad, gap, num, TailText(second, third) + sp)
    requires AllIn(Digit, second) && AllIn(Digit, third) && AllIn(Space, sp)
    ensures IsTag(line) && Quiet(line, '\U{2014}')
  {
    TailTurns(second, third, sp);
    var k, m := DecisionLineReads(line, pad, gap, num, TailText(second, third) + sp);
    TailEnds(line, m, second, third, sp);
    RunIsQuiet(Space, sp, '\U{2014}');
    TailIsQuiet(second, third);
    QuietCat(TailText(second, third), sp, '\U{2014}');
    DecisionLineIsQuiet(line, pad, gap, num, TailText(second, third) + sp);
  }

  // ---------- lines that go or stay whatever stands next to them ----------

  /** `D-N.N-EXN close-out:` and anything behind it. */
  predicate CloseOutLine(line: string, pad: string, gap: string, num: string, second: string, third: string, ws: string,
                         rest: string) {
    && DecisionLine(line, pad, gap, num, "." + (second + ("-EX" + (third + (ws + ("close-out:" + rest))))))
    && AllIn(Digit, second) && second != "" && AllIn(Digit, third) && third != "" && AllIn(Space, ws) && ws != ""
  }

  /** A close-out note always goes, also when it holds a keep phrase. */
  lemma CloseOutGoes(line: string, pad: string, gap: string, num: string, second: string, third: string, ws: string,
                     rest: string, prev: Option<string>, next: Option<string>)
    requires CloseOutLine(line, pad, gap, num, second, third, ws, rest)
    ensures Classify(SWEEP_RULES, line, prev, next).Remove?
  {
    CloseOutReads(line, pad, gap, num, second, third, ws, rest);
    ClassifyIff(line, prev, next);
  }

  lemma CloseOutReads(line: string, pad: string, gap: string, num: string, second: string, third: string, ws: string,
                      rest: string)
    requires CloseOutLine(line, pad, gap, num, second, third, ws, rest)
    ensures IsCloseOut(line)
  {
    var words := ws + ("close-out:" + rest);
    var k, m := DecisionLineReads(line, pad, gap, num, "." + (second + ("-EX" + (third + words))));
    SpaceTurns(ws, "close-out:" + rest);
    ThreeNumbersEnd(line, m, second, third, words);
    CloseOutWordsEnd(line, SkipGroup(line, SkipGroup(line, m, "."), "-EX"), ws, rest);
  }

  lemma CloseOutWordsEnd(s: string, c: nat, ws: string, rest: string)
    requires Ends(s, c, ws + ("close-out:" + rest)) && AllIn(Space, ws) && ws != ""
    ensures c < SkipRun(Space, s, c) && Stands(s, SkipRun(Space, s, c), "close-out:")
  {
    WordEnds(s, c, ws, "close-out:", rest);
    RunIs(Space, s, c, c + |ws|);
  }

  /** A line that holds one of the nine phrases stays, unless it is a close-out note. */
  lemma KeepPhraseStays(line: string, before: string, phrase: string, behind: string, prev: Option<string>,
                        next: Option<string>)
    requires line == before + (phrase + behind) && !IsCloseOut(line)
    requires phrase == "because" || phrase == "to avoid" || phrase == "workaround" || phrase == "fixes"
             || phrase == "NEVER" || phrase == "MUST" || phrase == "prevent"
             || phrase == "PITFALLS \U{A7}" || phrase == "SUMMARY.md"
    ensures Classify(SWEEP_RULES, line, prev, next).Keep?
  {
    assert line[0..] == line;
    Passes(line, 0, before, phrase + behind);
    Passes(line, |before|, phrase, behind);
    ClassifyIff(line, prev, next);
  }

  /** A phase number followed by text stays: the text begins behind white space with neither `/` nor
      `-`, holds more than colons and dashes, and is not the wording of an implementation note. */
  lemma PhaseWithTextStays(line: string, pad: string, gap: string, ws: string, num: string, sp: string, body: string,
                           k: nat, prev: Option<string>, next: Option<string>)
    requires PhaseLine(line, pad, gap, ws, num, sp + body) && AllIn(Space, sp) && sp != ""
    requires k < |body| && !TitleChar(body[k]) && !IsSpace(body[0]) && body[0] != '/' && body[0] != '-'
    requires forall sp2, sp3 :: !NoteBody(body, sp2, sp3)
    ensures Classify(SWEEP_RULES, line, prev, next).Keep?
  {
    TextIsNoTag(line, pad, gap, ws, num, sp, body, k);
    ClassifyIff(line, prev, next);
  }

  lemma TextIsNoTag(line: string, pad: string, gap: string, ws: string, num: string, sp: string, body: string, k: nat)
    requires PhaseLine(line, pad, gap, ws, num, sp + body) && AllIn(Space, sp) && sp != ""
    requires k < |body| && !TitleChar(body[k]) && !IsSpace(body[0]) && body[0] != '/' && body[0] != '-'
    requires forall sp2, sp3 :: !NoteBody(body, sp2, sp3)
    ensures !IsTag(line) && !IsCloseOut(line)
  {
    SpaceTurns(sp, body);
    var i, m := PhaseLineReads(line, pad, gap, ws, num, sp + body);
    TextIsNoTail(line, m, sp, body, k);
    NoTagAtPhase(line, i, m);
  }

  lemma NoTagAtPhase(line: string, i: nat, m: nat)
    requires BehindSlashes(line) == Some(i) && i <= |line| && Numbered(line, i, "Phase") == Some(m)
    requires !HeaderTail(line, m) && !NoteTail(line, m, "implementation note")
    ensures !IsTag(line) && !IsCloseOut(line)
  {
    NoDecisionAtPhase(line, i);
  }

  lemma TextIsNoTail(s: string, m: nat, sp: string, body: string, k: nat)
    requires Ends(s, m, sp + body) && AllIn(Space, sp) && sp != ""
    requires k < |body| && !TitleChar(body[k]) && !IsSpace(body[0]) && body[0] != '/' && body[0] != '-'
    requires forall sp2, sp3 :: !NoteBody(body, sp2, sp3)
    ensures !HeaderTail(s, m) && !NoteTail(s, m, "implementation note")
  {
    RunEnds(Space, s, m, sp, body);
    RunIs(Space, s, m, m + |sp|);
    TextIsNoHeader(s, m, sp, body, k);
    TextIsNoNote(s, m, body);
  }

  lemma TextIsNoNote(s: string, m: nat, body: string)
    requires m <= |s| && Ends(s, SkipRun(Space, s, m), body) && forall sp2, sp3 :: !NoteBody(body, sp2, sp3)
    ensures !NoteTail(s, m, "implementation note")
  {
    var a := SkipRun(Space, s, m);
    if NoteTail(s, m, "implementation note") { var sp2, sp3 := NoteReadsBack(s, a, body); }
  }

  lemma NoteReadsBack(s: string, a: nat, body: string) returns (sp2: string, sp3: string)
    requires Ends(s, a, body) && Stands(s, a, "\U{2014}") && NoteWording(s, a + 1, "implementation note")
    ensures NoteBody(body, sp2, sp3)
  {
    var b := SkipRun(Space, s, a + 1);
    sp2, sp3 := s[a + 1..b], s[b + 19..];
    StandsIff(s, a, "\U{2014}");
    StandsIff(s, b, "implementation note");
    assert body == s[a..a + 1] + (s[a + 1..b] + (s[b..b + 19] + s[b + 19..]));
  }

  lemma NoDecisionAtPhase(line: string, i: nat)
    requires i <= |line| && Numbered(line, i, "Phase").Some?
    ensures Decision(line, i).None?
  {
    var a := SkipRun(Space, line, i);
    CharOf(line, a, "Phase", 0);
    CharOf(line, a, "D-", 0);
  }

  lemma TextIsNoHeader(s: string, m: nat, sp: string, body: string, k: nat)
    requires Ends(s, m, sp + body) && AllIn(Space, sp) && sp != "" && SkipRun(Space, s, m) == m + |sp|
    requires k < |body| && !TitleChar(body[k]) && body[0] != '/' && body[0] != '-'
    ensures !HeaderTail(s, m)
  {
    var all := sp + body;
    assert IsSpace(sp[0]) && all[0] == sp[0];
    NoGroup(s, m, ".", all);
    assert s[m + |sp| + k] == all[|sp| + k] == body[k];
    assert s[m + |sp|] == all[|sp|] == body[0];
  }

  // ---------- a file on which one run is not enough ----------

  lemma NoteAboveTagIsOrphan(kind: Sorter<string>, note: string, tag: string)
    requires kind(note).Note? && kind(tag).Tag?
    ensures HasOrphan(kind, [note, tag])
  {
    var lines := [note, tag];
    assert [] + lines[..1] == [note] && lines[2..] == [] && Prune(kind, [note]) == [];
    assert OrphanAt(kind, [], lines, 1);
  }

  lemma TwoLines(a: string, b: string)
    requires '\n' !in a && '\n' !in b
    ensures Split(a + "\n" + b, '\n') == [a, b]
  {
    SplitOfCons(a, '\n', b);
    SplitOfPart(b, '\n');
  }

  lemma BareDecisionIsTag(tag: string, pad: string, gap: string, num: string, sp: string)
    requires DecisionLine(tag, pad, gap, num, sp) && AllIn(Space, sp)
    ensures IsTag(tag) && Quiet(tag, '\U{2014}') && !IsCloseOut(tag)
  {
    assert TailText("", "") + sp == sp;
    DecisionIsTag(tag, pad, gap, num, "", "", sp);
    BareDecisionIsNoCloseOut(tag, pad, gap, num, sp);
  }

  lemma BareDecisionIsNoCloseOut(tag: string, pad: string, gap: string, num: string, sp: string)
    requires DecisionLine(tag, pad, gap, num, sp) && AllIn(Space, sp)
    ensures !IsCloseOut(tag)
  {
    SpaceTurnsAlone(sp);
    var k, m := DecisionLineReads(tag, pad, gap, num, sp);
    SpaceIsNoLead(sp, '.');
    NoGroup(tag, m, ".", sp);
  }

  lemma NoteKind(note: string)
    requires IsCloseOut(note)
    ensures LineKind(SWEEP_RULES)(note).Note?
  {
    CloseOutIff(note);
  }

  lemma TagKind(tag: string)
    requires IsTag(tag) && Quiet(tag, '\U{2014}') && !IsCloseOut(tag)
    ensures LineKind(SWEEP_RULES)(tag).Tag?
  {
    CloseOutIff(tag);
    PhaseTagIff(tag);
    KeepIff(tag);
    QuietKeepsNothing(tag, '\U{2014}');
    NoDashBody(tag, '\U{2014}');
    FactsCohere(SWEEP_RULES, tag);
  }

  /** A bare decision under a close-out note: the first run takes the note, the second the decision. */
  lemma OneRunFallsShort(note: string, pad: string, gap: string, num: string, second: string, third: string, ws: string,
                         rest: string, tag: string, tagPad: string, tagGap: string, tagNum: string, tagEnd: string)
    requires CloseOutLine(note, pad, gap, num, second, third, ws, rest) && '\n' !in note
    requires DecisionLine(tag, tagPad, tagGap, tagNum, tagEnd) && AllIn(Space, tagEnd) && '\n' !in tag
    ensures var fix := t => Fix(LineKind(SWEEP_RULES), t);
            fix(fix(note + "\n" + tag)) != fix(note + "\n" + tag)
  {
    CloseOutReads(note, pad, gap, num, second, third, ws, rest);
    BareDecisionIsTag(tag, tagPad, tagGap, tagNum, tagEnd);
    NoteKind(note);
    TagKind(tag);
    TwoLines(note, tag);
    NoteAboveTagIsOrphan(LineKind(SWEEP_RULES), note, tag);
    OneRunOfFixIsEnough(SWEEP_RULES, note + "\n" + tag);
  }
}
