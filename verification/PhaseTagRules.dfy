/** Which lines the phase-tag rules apply to: the rules of the table read as one scan of the
    line, told without the expressions that recognise them. */
module PhaseTagRules {
  import opened JsText
  import opened Regex
  import opened RegexReading
  import opened PhaseTagSweep

  // ---------- the scans ----------

  /** Where what stands behind `//` begins, white space before it passed over. */
  function BehindSlashes(line: string): (k: Option<nat>)
    ensures k.Some? ==> k.value <= |line|
  {
    var i := SkipRun(Space, line, 0);
    if Stands(line, i, "//") then Some(i + 2) else None
  }

  /** Behind white space, a word, at least one white space and a number. */
  function Numbered(s: string, i: nat, word: string): (k: Option<nat>)
    requires i <= |s|
    ensures k.Some? ==> k.value <= |s|
  {
    var a := SkipRun(Space, s, i);
    if !Stands(s, a, word) then None
    else
      var b := SkipRun(Space, s, a + |word|);
      var c := SkipRun(Digit, s, b);
      if a + |word| < b < c then Some(c) else None
  }

  /** Behind the lead and a number, if they stand here. */
  function SkipGroup(s: string, i: nat, lead: string): (k: nat)
    requires i <= |s|
    ensures i <= k <= |s|
    ensures i < k && lead != "" ==> s[i] == lead[0]
  {
    if Stands(s, i, lead) && i + |lead| < SkipRun(Digit, s, i + |lead|) then SkipRun(Digit, s, i + |lead|) else i
  }

  function SkipDotted(s: string, i: nat): (k: nat)
    requires i <= |s|
    ensures i <= k <= |s|
    decreases |s| - i
  {
    if i < SkipGroup(s, i, ".") then SkipDotted(s, SkipGroup(s, i, ".")) else i
  }

  /** Nothing but white space, colons and dashes up to the end. */
  predicate OnlyTitle(s: string, i: nat)
    requires i <= |s|
  {
    forall p :: i <= p < |s| ==> TitleChar(s[p])
  }

  predicate TitleChar(c: char) { IsSpace(c) || c == ':' || c == '-' || c == '\U{2014}' }

  predicate OnlySpace(s: string, i: nat)
    requires i <= |s|
  {
    forall p :: i <= p < |s| ==> IsSpace(s[p])
  }

  /** "Plan", a number, perhaps a second one behind a hyphen, and nothing else. */
  predicate PlanNumber(s: string, i: nat)
    requires i <= |s|
  {
    Numbered(s, i, "Plan").Some? && OnlyTitle(s, SkipGroup(s, Numbered(s, i, "Plan").value, "-"))
  }

  /** A slash or hyphen and a plan's number. */
  predicate PlanTail(s: string, i: nat)
    requires i <= |s|
  {
    var a := SkipRun(Space, s, i);
    a < |s| && (s[a] == '/' || s[a] == '-') && PlanNumber(s, a + 1)
  }

  predicate HeaderTail(s: string, i: nat)
    requires i <= |s|
  {
    OnlyTitle(s, SkipDotted(s, i)) || PlanTail(s, SkipDotted(s, i))
  }

  predicate HeaderAt(s: string, i: nat)
    requires i <= |s|
  {
    Numbered(s, i, "Phase").Some? && HeaderTail(s, Numbered(s, i, "Phase").value)
  }

  /** A dash and the wording of a note, each behind at least one white space, and nothing else. */
  predicate NoteTail(s: string, i: nat, wording: string)
    requires i <= |s|
  {
    var a := SkipRun(Space, s, i);
    i < a && Stands(s, a, "\U{2014}") && NoteWording(s, a + 1, wording)
  }

  predicate NoteWording(s: string, i: nat, wording: string)
    requires i <= |s|
  {
    var b := SkipRun(Space, s, i);
    i < b && Stands(s, b, wording) && OnlySpace(s, b + |wording|)
  }

  predicate NoteAt(s: string, i: nat)
    requires i <= |s|
  {
    Numbered(s, i, "Phase").Some? && NoteTail(s, Numbered(s, i, "Phase").value, "implementation note")
  }

  /** Behind white space, `D-` and a number. */
  function Decision(s: string, i: nat): (k: Option<nat>)
    requires i <= |s|
    ensures k.Some? ==> k.value <= |s|
  {
    var a := SkipRun(Space, s, i);
    if Stands(s, a, "D-") && a + 2 < SkipRun(Digit, s, a + 2) then Some(SkipRun(Digit, s, a + 2)) else None
  }

  /** Behind the rest of a decision's number. */
  function SkipDecisionTail(s: string, i: nat): (k: nat)
    requires i <= |s|
    ensures i <= k <= |s|
  {
    var a := SkipGroup(s, i, ".");
    if a == i then i else SkipGroup(s, a, "-EX")
  }

  predicate DecisionAt(s: string, i: nat)
    requires i <= |s|
  {
    var a := Decision(s, i);
    a.Some? && OnlySpace(s, SkipDecisionTail(s, a.value))
  }

  predicate CloseOutAt(s: string, i: nat)
    requires i <= |s|
  {
    Decision(s, i).Some? && CloseOutTail(s, Decision(s, i).value)
  }

  /** Two more numbers, at least one white space and `close-out:`. */
  predicate CloseOutTail(s: string, i: nat)
    requires i <= |s|
  {
    var b := SkipGroup(s, i, ".");
    var c := SkipGroup(s, b, "-EX");
    var d := SkipRun(Space, s, c);
    i < b < c < d && Stands(s, d, "close-out:")
  }

  /** A decision, a dash and something visible on the same line. */
  predicate DashBodyAt(s: string, i: nat)
    requires i <= |s|
  {
    Decision(s, i).Some? && DashAt(s, SkipDecisionTail(s, Decision(s, i).value))
  }

  predicate DashAt(s: string, i: nat)
    requires i <= |s|
  {
    var b := SkipRun(Space, s, i);
    Stands(s, b, "\U{2014}") && BodyAt(s, SkipRun(Space, s, b + 1))
  }

  predicate BodyAt(s: string, i: nat)
    requires i <= |s|
  {
    i < |s| && forall p :: i <= p < |s| ==> !IsLineTerminator(s[p])
  }

  // ---------- the pieces the rules share ----------

  /** A literal behind white space. */
  lemma ReadGapLit(w: string, rest: Re, s: string, i: nat)
    requires i <= |s| && w != "" && !IsSpace(w[0])
    ensures Reads(Cat(SPACES, Cat(Lit(w), rest)), s, i) <==>
            var a := SkipRun(Space, s, i); Stands(s, a, w) && Reads(rest, s, a + |w|)
  {
    ShunsLit(w, rest, Space, s);
    ReadRun(Space, Cat(Lit(w), rest), s, i);
    ReadLit(w, rest, s, SkipRun(Space, s, i));
  }

  /** A literal behind at least one white space. */
  lemma ReadWordsLit(w: string, rest: Re, s: string, i: nat)
    requires i <= |s| && w != "" && !IsSpace(w[0])
    ensures Reads(Cat(WORDS, Cat(Lit(w), rest)), s, i) <==>
            var a := SkipRun(Space, s, i); i < a && Stands(s, a, w) && Reads(rest, s, a + |w|)
  {
    ShunsLit(w, rest, Space, s);
    ReadSome(Space, Cat(Lit(w), rest), s, i);
    ReadLit(w, rest, s, SkipRun(Space, s, i));
  }

  /** A number behind at least one white space. */
  lemma ReadWordsDigits(rest: Re, s: string, i: nat)
    requires i <= |s| && Shuns(rest, Digit, s)
    ensures Reads(Cat(WORDS, Cat(DIGITS, rest)), s, i) <==>
            var b := SkipRun(Space, s, i); var c := SkipRun(Digit, s, b); i < b < c && Reads(rest, s, c)
  {
    ShunsSome(Digit, rest, Space, s);
    ReadSome(Space, Cat(DIGITS, rest), s, i);
    ReadSome(Digit, rest, s, SkipRun(Space, s, i));
  }

  lemma ReadNumbered(word: string, rest: Re, s: string, i: nat)
    requires i <= |s| && word != "" && !IsSpace(word[0]) && Shuns(rest, Digit, s)
    ensures Reads(Cat(SPACES, Cat(Lit(word), Cat(WORDS, Cat(DIGITS, rest)))), s, i) <==>
            Numbered(s, i, word).Some? && Reads(rest, s, Numbered(s, i, word).value)
  {
    ReadGapLit(word, Cat(WORDS, Cat(DIGITS, rest)), s, i);
    var a := SkipRun(Space, s, i);
    if Stands(s, a, word) { ReadWordsDigits(rest, s, a + |word|); }
  }

  /** The lead and a number. */
  lemma ReadPair(lead: string, rest: Re, s: string, i: nat)
    requires i <= |s| && Shuns(rest, Digit, s)
    ensures Reads(Cat(Lit(lead), Cat(DIGITS, rest)), s, i) <==>
            i + |lead| < SkipGroup(s, i, lead) && Reads(rest, s, SkipGroup(s, i, lead))
  {
    ReadLit(lead, Cat(DIGITS, rest), s, i);
    if Stands(s, i, lead) { ReadSome(Digit, rest, s, i + |lead|); }
  }

  lemma ReadGroup(lead: string, rest: Re, s: string, i: nat)
    requires i <= |s| && lead != "" && Shuns(rest, One(lead[0]), s) && Shuns(rest, Digit, s)
    ensures Reads(Cat(Opt(Cat(Lit(lead), DIGITS)), rest), s, i) <==> Reads(rest, s, SkipGroup(s, i, lead))
  {
    ReadOpt(Cat(Lit(lead), DIGITS), rest, s, i);
    ReadCat(Lit(lead), DIGITS, rest, s, i);
    ReadPair(lead, rest, s, i);
    if i < SkipGroup(s, i, lead) { NoRead(rest, One(lead[0]), s, i); }
  }

  lemma ShunsPair(lead: string, rest: Re, cs: CharSet, s: string)
    requires lead != "" && !cs.Has(lead[0])
    ensures Shuns(Cat(Cat(Lit(lead), DIGITS), rest), cs, s)
  {
    ShunsLit(lead, Cat(DIGITS, rest), cs, s);
    forall k: nat | k < |s| ensures ShunsAt(Cat(Cat(Lit(lead), DIGITS), rest), cs, s, k) {
      assert ShunsAt(Cat(Lit(lead), Cat(DIGITS, rest)), cs, s, k);
      ReadCat(Lit(lead), DIGITS, rest, s, k);
    }
  }

  const DOT_GROUP := Cat(Lit("."), DIGITS)

  lemma {:induction false} ReadDotted(rest: Re, s: string, i: nat)
    requires i <= |s| && Shuns(rest, One('.'), s) && Shuns(rest, Digit, s)
    ensures Reads(Cat(DOTTED, rest), s, i) <==> Reads(rest, s, SkipDotted(s, i))
    decreases |s| - i
  {
    DotGroupIsSome(s, i);
    ReadStar(DOT_GROUP, rest, s, i);
    ShunsDotted(rest, Digit, s);
    ReadCat(Lit("."), DIGITS, Cat(DOTTED, rest), s, i);
    ReadPair(".", Cat(DOTTED, rest), s, i);
    if i < SkipGroup(s, i, ".") {
      NoRead(rest, One('.'), s, i);
      ReadDotted(rest, s, SkipGroup(s, i, "."));
    }
  }

  lemma DotGroupIsSome(s: string, i: nat)
    requires i <= |s|
    ensures !Spans(DOT_GROUP, s, i, i)
  {
    if Spans(DOT_GROUP, s, i, i) {
      var k := SplitCat(Lit("."), DIGITS, s, i, i);
      var m := SplitCat(Chr(One('.')), Lit(""), s, i, k);
    }
  }

  lemma ShunsDotted(rest: Re, cs: CharSet, s: string)
    requires Shuns(rest, cs, s) && !cs.Has('.')
    ensures Shuns(Cat(DOTTED, rest), cs, s)
  {
    ShunsPair(".", Cat(DOTTED, rest), cs, s);
    forall k: nat | k < |s| ensures ShunsAt(Cat(DOTTED, rest), cs, s, k) {
      assert ShunsAt(rest, cs, s, k) && ShunsAt(Cat(DOT_GROUP, Cat(DOTTED, rest)), cs, s, k);
      DotGroupIsSome(s, k);
      ReadStar(DOT_GROUP, rest, s, k);
    }
  }

  const LAST_SPACES := Cat(SPACES, Empty)
  const LAST_TITLE := Cat(TITLE_TAIL, Empty)

  lemma ReadLastRun(cs: CharSet, s: string, i: nat)
    requires i <= |s|
    ensures Reads(Cat(Star(Chr(cs)), Empty), s, i) <==> SkipRun(cs, s, i) == |s|
  {
    ShunsEmpty(cs, s);
    ReadRun(cs, Empty, s, i);
  }

  lemma ReadSpaceToEnd(s: string, i: nat)
    requires i <= |s|
    ensures Reads(LAST_SPACES, s, i) <==> OnlySpace(s, i)
  {
    ReadLastRun(Space, s, i);
    if OnlySpace(s, i) { SkipRunAt(Space, s, i, |s|); }
  }

  lemma ReadTitleToEnd(s: string, i: nat)
    requires i <= |s|
    ensures Reads(LAST_TITLE, s, i) <==> OnlyTitle(s, i)
  {
    ReadLastRun(SpaceOr(":-\U{2014}"), s, i);
    TitleChars();
    if OnlyTitle(s, i) { SkipRunAt(SpaceOr(":-\U{2014}"), s, i, |s|); }
  }

  lemma TitleChars()
    ensures forall c: char :: SpaceOr(":-\U{2014}").Has(c) <==> TitleChar(c)
  {
  }

  lemma ShunsLastRun(x: CharSet, cs: CharSet, s: string)
    requires Apart(x, cs)
    ensures Shuns(Cat(Star(Chr(x)), Empty), cs, s)
  {
    ShunsEmpty(cs, s);
    ShunsRun(x, Empty, cs, s);
  }

  // ---------- `Phase` headers ----------

  const SECOND_NUMBER := Cat(Opt(Cat(Lit("-"), DIGITS)), LAST_TITLE)
  const PLAN_NUMBER := Cat(SPACES, Cat(Lit("Plan"), Cat(WORDS, Cat(DIGITS, SECOND_NUMBER))))
  const PLAN_TAIL := Cat(SPACES, Cat(Chr(Among("/-")), PLAN_NUMBER))

  lemma PlanTailIs()
    ensures Chain(PLAN, LAST_TITLE) == PLAN_TAIL
  {
    var last := [Lit("Plan"), WORDS, DIGITS, Opt(Cat(Lit("-"), DIGITS))];
    assert PLAN == [SPACES, Chr(Among("/-")), SPACES] + last;
    ChainOfThree(SPACES, Chr(Among("/-")), SPACES, last, LAST_TITLE);
    assert last == [Lit("Plan"), WORDS, DIGITS] + [Opt(Cat(Lit("-"), DIGITS))];
    ChainOfThree(Lit("Plan"), WORDS, DIGITS, [Opt(Cat(Lit("-"), DIGITS))], LAST_TITLE);
    assert [Opt(Cat(Lit("-"), DIGITS))][1..] == [];
  }

  lemma ReadSecondNumber(s: string, i: nat)
    requires i <= |s|
    ensures Reads(SECOND_NUMBER, s, i) <==> OnlyTitle(s, SkipGroup(s, i, "-"))
  {
    ReadOpt(Cat(Lit("-"), DIGITS), LAST_TITLE, s, i);
    ReadCat(Lit("-"), DIGITS, LAST_TITLE, s, i);
    ShunsLastRun(SpaceOr(":-\U{2014}"), Digit, s);
    ReadPair("-", LAST_TITLE, s, i);
    var k := SkipGroup(s, i, "-");
    ReadTitleToEnd(s, i);
    ReadTitleToEnd(s, k);
    if i < k && OnlyTitle(s, i) { DigitIsNoTitle(s, i, "-"); }
  }

  lemma DigitIsNoTitle(s: string, i: nat, lead: string)
    requires i <= |s| && i < SkipGroup(s, i, lead)
    ensures !OnlyTitle(s, i)
  {
    var p := SkipGroup(s, i, lead) - 1;
    assert IsDigit(s[p]) && !TitleChar(s[p]);
  }

  lemma ReadPlanNumber(s: string, i: nat)
    requires i <= |s|
    ensures Reads(PLAN_NUMBER, s, i) <==> PlanNumber(s, i)
  {
    ShunsLastRun(SpaceOr(":-\U{2014}"), Digit, s);
    ShunsPair("-", LAST_TITLE, Digit, s);
    ShunsOpt(Cat(Lit("-"), DIGITS), LAST_TITLE, Digit, s);
    ReadNumbered("Plan", SECOND_NUMBER, s, i);
    var b := Numbered(s, i, "Plan");
    if b.Some? { ReadSecondNumber(s, b.value); }
  }

  /** A slash or hyphen behind white space. */
  lemma ReadSign(rest: Re, s: string, i: nat)
    requires i <= |s|
    ensures Reads(Cat(SPACES, Cat(Chr(Among("/-")), rest)), s, i) <==>
            var a := SkipRun(Space, s, i); a < |s| && (s[a] == '/' || s[a] == '-') && Reads(rest, s, a + 1)
  {
    ShunsChr(Among("/-"), rest, Space, s);
    ReadRun(Space, Cat(Chr(Among("/-")), rest), s, i);
    ReadChr(Among("/-"), rest, s, SkipRun(Space, s, i));
  }

  lemma ReadSigned(number: Re, s: string, i: nat)
    requires i <= |s|
    requires var k := SkipRun(Space, s, i) + 1; k <= |s| ==> (Reads(number, s, k) <==> PlanNumber(s, k))
    ensures Reads(Cat(SPACES, Cat(Chr(Among("/-")), number)), s, i) <==> PlanTail(s, i)
  {
    ReadSign(number, s, i);
  }

  lemma ReadPlan(s: string, i: nat)
    requires i <= |s|
    ensures Reads(PLAN_TAIL, s, i) <==> PlanTail(s, i)
  {
    var k := SkipRun(Space, s, i) + 1;
    if k <= |s| { ReadPlanNumber(s, k); }
    ReadSigned(PLAN_NUMBER, s, i);
  }

  const HEADER_END := Cat(Opt(All(PLAN)), LAST_TITLE)

  lemma ReadHeaderTail(s: string, i: nat)
    requires i <= |s|
    ensures Reads(Cat(DOTTED, HEADER_END), s, i) <==> HeaderTail(s, i)
  {
    ShunsHeaderEnd(One('.'), s);
    ShunsHeaderEnd(Digit, s);
    ReadDotted(HEADER_END, s, i);
    var d := SkipDotted(s, i);
    ReadOpt(All(PLAN), LAST_TITLE, s, d);
    ReadAll(PLAN, LAST_TITLE, s, d);
    PlanTailIs();
    ReadTitleToEnd(s, d);
    ReadPlan(s, d);
  }

  lemma ShunsHeaderEnd(cs: CharSet, s: string)
    requires Apart(SpaceOr(":-\U{2014}"), cs) && Apart(Space, cs) && Apart(Among("/-"), cs)
    ensures Shuns(HEADER_END, cs, s)
  {
    ShunsChr(Among("/-"), PLAN_NUMBER, cs, s);
    ShunsRun(Space, Cat(Chr(Among("/-")), PLAN_NUMBER), cs, s);
    PlanTailIs();
    ShunsAll(PLAN, LAST_TITLE, cs, s);
    ShunsLastRun(SpaceOr(":-\U{2014}"), cs, s);
    ShunsOpt(All(PLAN), LAST_TITLE, cs, s);
  }

  lemma ReadHeader(s: string, i: nat)
    requires i <= |s|
    ensures Reads(All(PHASE_HEADER), s, i) <==> HeaderAt(s, i)
  {
    HeaderIs();
    ShunsHeaderEnd(Digit, s);
    ShunsDotted(HEADER_END, Digit, s);
    ReadNumbered("Phase", Cat(DOTTED, HEADER_END), s, i);
    var a := Numbered(s, i, "Phase");
    if a.Some? { ReadHeaderTail(s, a.value); }
  }

  lemma HeaderIs()
    ensures All(PHASE_HEADER) == Cat(SPACES, Cat(Lit("Phase"), Cat(WORDS, Cat(DIGITS, Cat(DOTTED, HEADER_END)))))
  {
    var tail := [DOTTED, Opt(All(PLAN)), TITLE_TAIL];
    assert PHASE_HEADER == [SPACES, Lit("Phase"), WORDS, DIGITS] + tail;
    AllOfFour(SPACES, Lit("Phase"), WORDS, DIGITS, tail);
    assert tail == [DOTTED, Opt(All(PLAN))] + [TITLE_TAIL];
    AllOfTwo(DOTTED, Opt(All(PLAN)), [TITLE_TAIL]);
    AllOf(TITLE_TAIL, []);
    assert [TITLE_TAIL] + [] == [TITLE_TAIL];
  }

  // ---------- implementation notes ----------

  function NoteWords(wording: string): Re { Cat(WORDS, Cat(Lit(wording), LAST_SPACES)) }

  function NoteEnd(wording: string): Re { Cat(WORDS, Cat(Lit("\U{2014}"), NoteWords(wording))) }

  lemma ReadNoteWords(wording: string, s: string, i: nat)
    requires i <= |s| && wording != "" && !IsSpace(wording[0])
    ensures Reads(NoteWords(wording), s, i) <==> NoteWording(s, i, wording)
  {
    ReadWordsLit(wording, LAST_SPACES, s, i);
    var b := SkipRun(Space, s, i);
    if Stands(s, b, wording) { ReadSpaceToEnd(s, b + |wording|); }
  }

  lemma ReadNoteEnd(wording: string, s: string, i: nat)
    requires i <= |s| && wording != "" && !IsSpace(wording[0])
    ensures Reads(NoteEnd(wording), s, i) <==> NoteTail(s, i, wording)
  {
    ReadWordsLit("\U{2014}", NoteWords(wording), s, i);
    var a := SkipRun(Space, s, i);
    if Stands(s, a, "\U{2014}") { ReadNoteWords(wording, s, a + 1); }
  }

  lemma ReadNote(s: string, i: nat)
    requires i <= |s|
    ensures Reads(All(IMPLEMENTATION_NOTE), s, i) <==> NoteAt(s, i)
  {
    NoteIs();
    ShunsSome(Space, Cat(Lit("\U{2014}"), NoteWords("implementation note")), Digit, s);
    ReadNumbered("Phase", NoteEnd("implementation note"), s, i);
    var a := Numbered(s, i, "Phase");
    if a.Some? { ReadNoteEnd("implementation note", s, a.value); }
  }

  lemma NoteIs()
    ensures All(IMPLEMENTATION_NOTE) == Cat(SPACES, Cat(Lit("Phase"), Cat(WORDS, Cat(DIGITS, NoteEnd("implementation note")))))
  {
    var last := [SPACES];
    var tail := [WORDS, Lit("\U{2014}"), WORDS, Lit("implementation note")] + last;
    assert IMPLEMENTATION_NOTE == [SPACES, Lit("Phase"), WORDS, DIGITS] + tail;
    AllOfFour(SPACES, Lit("Phase"), WORDS, DIGITS, tail);
    AllOfFour(WORDS, Lit("\U{2014}"), WORDS, Lit("implementation note"), last);
    AllOf(SPACES, []);
    assert [SPACES] + [] == last;
  }

  // ---------- decisions ----------

  lemma ReadDecision(rest: Re, s: string, i: nat)
    requires i <= |s| && Shuns(rest, Digit, s)
    ensures Reads(Cat(SPACES, Cat(Lit("D-"), Cat(DIGITS, rest))), s, i) <==>
            Decision(s, i).Some? && Reads(rest, s, Decision(s, i).value)
  {
    ReadGapLit("D-", Cat(DIGITS, rest), s, i);
    var a := SkipRun(Space, s, i);
    if Stands(s, a, "D-") { ReadSome(Digit, rest, s, a + 2); }
  }

  const EXTENSION := Opt(Cat(Lit("-EX"), DIGITS))
  const DECIMALS := [Lit("."), DIGITS, EXTENSION]

  lemma DecimalsAre(rest: Re)
    ensures Chain(DECIMALS, rest) == Cat(Lit("."), Cat(DIGITS, Cat(EXTENSION, rest)))
  {
    assert DECIMALS == [Lit("."), DIGITS, EXTENSION] + [];
    ChainOfThree(Lit("."), DIGITS, EXTENSION, [], rest);
  }

  lemma ReadDecisionTail(rest: Re, s: string, i: nat)
    requires i <= |s| && Shuns(rest, One('.'), s) && Shuns(rest, One('-'), s) && Shuns(rest, Digit, s)
    ensures Reads(Cat(DECISION_TAIL, rest), s, i) <==> Reads(rest, s, SkipDecisionTail(s, i))
  {
    ReadOpt(All(DECIMALS), rest, s, i);
    ReadAll(DECIMALS, rest, s, i);
    DecimalsAre(rest);
    ReadDecimals(rest, s, i);
    if i < SkipGroup(s, i, ".") { NoRead(rest, One('.'), s, i); }
  }

  lemma ReadDecimals(rest: Re, s: string, i: nat)
    requires i <= |s| && Shuns(rest, One('-'), s) && Shuns(rest, Digit, s)
    ensures Reads(Cat(Lit("."), Cat(DIGITS, Cat(EXTENSION, rest))), s, i) <==>
            i < SkipGroup(s, i, ".") && Reads(rest, s, SkipGroup(s, SkipGroup(s, i, "."), "-EX"))
  {
    ShunsPair("-EX", rest, Digit, s);
    ShunsOpt(Cat(Lit("-EX"), DIGITS), rest, Digit, s);
    ReadPair(".", Cat(EXTENSION, rest), s, i);
    ReadGroup("-EX", rest, s, SkipGroup(s, i, "."));
  }

  lemma ShunsDecisionTail(rest: Re, s: string)
    requires Shuns(rest, Digit, s)
    ensures Shuns(Cat(DECISION_TAIL, rest), Digit, s)
  {
    DecimalsAre(rest);
    ShunsLit(".", Cat(DIGITS, Cat(EXTENSION, rest)), Digit, s);
    ShunsAll(DECIMALS, rest, Digit, s);
    ShunsOpt(All(DECIMALS), rest, Digit, s);
  }

  lemma ReadBareDecision(s: string, i: nat)
    requires i <= |s|
    ensures Reads(All(BARE_DECISION), s, i) <==> DecisionAt(s, i)
  {
    BareDecisionIs();
    ShunsLastRun(Space, Digit, s);
    ShunsLastRun(Space, One('.'), s);
    ShunsLastRun(Space, One('-'), s);
    ShunsDecisionTail(LAST_SPACES, s);
    ReadDecision(Cat(DECISION_TAIL, LAST_SPACES), s, i);
    var a := Decision(s, i);
    if a.Some? {
      ReadDecisionTail(LAST_SPACES, s, a.value);
      ReadSpaceToEnd(s, SkipDecisionTail(s, a.value));
    }
  }

  lemma BareDecisionIs()
    ensures All(BARE_DECISION) == Cat(SPACES, Cat(Lit("D-"), Cat(DIGITS, Cat(DECISION_TAIL, LAST_SPACES))))
  {
    assert BARE_DECISION == [SPACES, Lit("D-"), DIGITS, DECISION_TAIL] + [SPACES];
    AllOfFour(SPACES, Lit("D-"), DIGITS, DECISION_TAIL, [SPACES]);
    AllOf(SPACES, []);
    assert [SPACES] + [] == [SPACES];
  }

  // ---------- close-out notes ----------

  const ANYTHING_ELSE := Cat(ANYTHING, Empty)

  const CLOSE_OUT_WORDS := Cat(WORDS, Cat(Lit("close-out:"), ANYTHING_ELSE))
  const CLOSE_OUT_EXTENSION := Cat(Lit("-EX"), Cat(DIGITS, CLOSE_OUT_WORDS))
  const CLOSE_OUT_DOT := Cat(Lit("."), Cat(DIGITS, CLOSE_OUT_EXTENSION))

  lemma CloseOutIs()
    ensures All(CLOSE_OUT) == Cat(SPACES, Cat(Lit("D-"), Cat(DIGITS, CLOSE_OUT_DOT)))
  {
    var last := [Lit("close-out:"), ANYTHING];
    var middle := [DIGITS, Lit("-EX"), DIGITS, WORDS] + last;
    assert CLOSE_OUT == [SPACES, Lit("D-"), DIGITS, Lit(".")] + middle;
    AllOfFour(SPACES, Lit("D-"), DIGITS, Lit("."), middle);
    AllOfFour(DIGITS, Lit("-EX"), DIGITS, WORDS, last);
    AllOfTwo(Lit("close-out:"), ANYTHING, []);
    assert last + [] == last;
  }

  lemma ReadCloseOutWords(s: string, i: nat)
    requires i <= |s|
    ensures Reads(CLOSE_OUT_WORDS, s, i) <==>
            i < SkipRun(Space, s, i) && Stands(s, SkipRun(Space, s, i), "close-out:")
  {
    ReadWordsLit("close-out:", ANYTHING_ELSE, s, i);
    var a := SkipRun(Space, s, i);
    if Stands(s, a, "close-out:") { ReadAnythingElse(s, a + 10); }
  }

  lemma ReadAnythingElse(s: string, i: nat)
    requires i <= |s|
    ensures Reads(ANYTHING_ELSE, s, i)
  {
    AnythingReads(Empty, s, i, |s|);
  }

  lemma ReadCloseOut(s: string, i: nat)
    requires i <= |s|
    ensures Reads(All(CLOSE_OUT), s, i) <==> CloseOutAt(s, i)
  {
    CloseOutIs();
    ShunsLit(".", Cat(DIGITS, CLOSE_OUT_EXTENSION), Digit, s);
    ReadDecision(CLOSE_OUT_DOT, s, i);
    var a := Decision(s, i);
    if a.Some? { ReadCloseOutDot(s, a.value); }
  }

  lemma ReadCloseOutDot(s: string, i: nat)
    requires i <= |s|
    ensures Reads(CLOSE_OUT_DOT, s, i) <==> CloseOutTail(s, i)
  {
    ShunsLit("-EX", Cat(DIGITS, CLOSE_OUT_WORDS), Digit, s);
    ReadPair(".", CLOSE_OUT_EXTENSION, s, i);
    var b := SkipGroup(s, i, ".");
    ShunsSome(Space, Cat(Lit("close-out:"), ANYTHING_ELSE), Digit, s);
    ReadPair("-EX", CLOSE_OUT_WORDS, s, b);
    ReadCloseOutWords(s, SkipGroup(s, b, "-EX"));
  }

  // ---------- a dash and a body ----------

  const BODY := Cat(SPACES, Cat(Chr(DotNonSpace), Cat(Star(Chr(Dot)), Empty)))
  const DASH := Cat(SPACES, Cat(Lit("\U{2014}"), BODY))
  const DASHED_DECISION := Cat(SPACES, Cat(Lit("D-"), Cat(DIGITS, Cat(DECISION_TAIL, DASH))))

  lemma DashBodyIs()
    ensures All(DASH_BODY) == Cat(ANYTHING, Cat(Lit("//"), DASHED_DECISION))
  {
    var last := [SPACES, Chr(DotNonSpace), Star(Chr(Dot))];
    var dash := [SPACES, Lit("\U{2014}")] + last;
    var decision := [SPACES, Lit("D-"), DIGITS, DECISION_TAIL] + dash;
    assert DASH_BODY == [ANYTHING, Lit("//")] + decision;
    AllOfTwo(ANYTHING, Lit("//"), decision);
    AllOfFour(SPACES, Lit("D-"), DIGITS, DECISION_TAIL, dash);
    AllOfTwo(SPACES, Lit("\U{2014}"), last);
    assert last == [SPACES, Chr(DotNonSpace)] + [Star(Chr(Dot))] && [Star(Chr(Dot))] + [] == [Star(Chr(Dot))];
    AllOfTwo(SPACES, Chr(DotNonSpace), [Star(Chr(Dot))]);
    AllOf(Star(Chr(Dot)), []);
  }

  lemma ReadBody(s: string, i: nat)
    requires i <= |s|
    ensures Reads(BODY, s, i) <==> BodyAt(s, SkipRun(Space, s, i))
  {
    var rest := Cat(Star(Chr(Dot)), Empty);
    ShunsChr(DotNonSpace, rest, Space, s);
    ReadRun(Space, Cat(Chr(DotNonSpace), rest), s, i);
    var a := SkipRun(Space, s, i);
    ReadChr(DotNonSpace, rest, s, a);
    if a < |s| {
      ReadLastRun(Dot, s, a + 1);
      if BodyAt(s, a) { SkipRunAt(Dot, s, a + 1, |s|); }
    }
  }

  lemma ReadDash(s: string, i: nat)
    requires i <= |s|
    ensures Reads(DASH, s, i) <==> DashAt(s, i)
  {
    ReadGapLit("\U{2014}", BODY, s, i);
    var b := SkipRun(Space, s, i);
    if Stands(s, b, "\U{2014}") { ReadBody(s, b + 1); }
  }

  lemma ShunsDash(cs: CharSet, s: string)
    requires Apart(Space, cs) && !cs.Has('\U{2014}')
    ensures Shuns(DASH, cs, s)
  {
    ShunsLit("\U{2014}", BODY, cs, s);
    ShunsRun(Space, Cat(Lit("\U{2014}"), BODY), cs, s);
  }

  lemma ReadDashBody(s: string, i: nat)
    requires i <= |s|
    ensures Reads(DASHED_DECISION, s, i) <==> DashBodyAt(s, i)
  {
    ShunsDash(Digit, s);
    ShunsDash(One('.'), s);
    ShunsDash(One('-'), s);
    ShunsDecisionTail(DASH, s);
    ReadDecision(Cat(DECISION_TAIL, DASH), s, i);
    var a := Decision(s, i);
    if a.Some? {
      ReadDecisionTail(DASH, s, a.value);
      ReadDash(s, SkipDecisionTail(s, a.value));
    }
  }

  // ---------- which lines the rules apply to ----------

  lemma ReadSlashes(rest: Re, line: string)
    ensures Matches(CommentThen(rest), line) <==>
            BehindSlashes(line).Some? && Reads(rest, line, BehindSlashes(line).value)
  {
    var one := Cat(SLASH, rest);
    ShunsChr(One('/'), one, Space, line);
    ReadRun(Space, Cat(SLASH, one), line, 0);
    var i := SkipRun(Space, line, 0);
    ReadChr(One('/'), one, line, i);
    TwoSlashes(line, i);
    if i < |line| { ReadChr(One('/'), rest, line, i + 1); }
  }

  lemma TwoSlashes(line: string, i: nat)
    ensures Stands(line, i, "//") <==> i + 1 < |line| && line[i] == '/' && line[i + 1] == '/'
  {
    if Stands(line, i, "//") { assert line[i + 0] == "//"[0] && line[i + 1] == "//"[1]; }
  }

  /** A tag rule applies exactly to a comment that is a phase header, an implementation note or a
      bare decision and nothing else. */
  lemma PhaseTagIff(line: string)
    ensures PhaseTag(SWEEP_RULES, line) <==>
      (BehindSlashes(line).Some? &&
       var i := BehindSlashes(line).value; HeaderAt(line, i) || NoteAt(line, i) || DecisionAt(line, i))
  {
    ReadSlashes(All(IMPLEMENTATION_NOTE), line);
    ReadSlashes(All(PHASE_HEADER), line);
    ReadSlashes(All(BARE_DECISION), line);
    if BehindSlashes(line).Some? {
      var i := BehindSlashes(line).value;
      ReadNote(line, i);
      ReadHeader(line, i);
      ReadBareDecision(line, i);
    }
    AnyOfThree(SWEEP_RULES, line, All(IMPLEMENTATION_NOTE), All(PHASE_HEADER), All(BARE_DECISION));
  }

  lemma AnyOfThree(rules: Rules, line: string, a: Re, b: Re, c: Re)
    requires rules.tags == [a, b, c]
    ensures PhaseTag(rules, line) <==>
      Matches(CommentThen(a), line) || Matches(CommentThen(b), line) || Matches(CommentThen(c), line)
  {
    assert rules.tags[0] == a && rules.tags[1] == b && rules.tags[2] == c;
  }

  /** The close-out rule applies exactly to a comment that begins `D-N.N-EXN close-out:`. */
  lemma CloseOutIff(line: string)
    ensures CloseOut(SWEEP_RULES, line) <==> BehindSlashes(line).Some? && CloseOutAt(line, BehindSlashes(line).value)
  {
    ReadSlashes(All(CLOSE_OUT), line);
    if BehindSlashes(line).Some? { ReadCloseOut(line, BehindSlashes(line).value); }
  }

  /** `//` stands at p and a decision with a body behind it. */
  predicate DashedAt(line: string, p: nat) { Stands(line, p, "//") && DashBodyAt(line, p + 2) }

  lemma DashedReads(line: string, p: nat)
    requires p <= |line|
    ensures Reads(Cat(Lit("//"), DASHED_DECISION), line, p) <==> DashedAt(line, p)
  {
    ReadLit("//", DASHED_DECISION, line, p);
    if Stands(line, p, "//") { ReadDashBody(line, p + 2); }
  }

  lemma DashBodyIff(line: string)
    ensures Matches(All(DASH_BODY), line) <==> exists p :: 0 <= p <= |line| && DashedAt(line, p)
  {
    DashBodyIs();
    var rest := Cat(Lit("//"), DASHED_DECISION);
    if Reads(Cat(ANYTHING, rest), line, 0) {
      var p := ReadPastAnything(rest, line, 0);
      DashedReads(line, p);
    }
    if p :| 0 <= p <= |line| && DashedAt(line, p) {
      DashedReads(line, p);
      AnythingReads(rest, line, 0, p);
    }
  }
}
