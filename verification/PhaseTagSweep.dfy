/** The phase-tag sweep: a rewriting pass over `//` comments whose verdict on a line depends
    on the lines around it, although removing lines changes what is around. */
module PhaseTagSweep {
  import opened JsText
  import opened Regex
  import opened NeighbourSweep

  // ---------- the rules ----------

  /** The tool's tables: the patterns that remove a line all begin `^\s*\/\/`, so only what
      follows is listed. */
  datatype Rules = Rules(
    closeOut: Re,
    tags: seq<Re>,
    dashBody: Re,
    keepWords: seq<string>)

  // (?:\.\d+(?:-EX\d+)?)?
  const DECISION_TAIL := Opt(All([Lit("."), DIGITS, Opt(Cat(Lit("-EX"), DIGITS))]))

  // [:\s\-—]*
  const TITLE_TAIL := Star(Chr(SpaceOr(":-\U{2014}")))

  const WORDS := Plus(Chr(Space))

  const DOTTED := Star(Cat(Lit("."), DIGITS))

  const PLAN := [SPACES, Chr(Among("/-")), SPACES, Lit("Plan"), WORDS, DIGITS, Opt(Cat(Lit("-"), DIGITS))]

  const PHASE_HEADER := [SPACES, Lit("Phase"), WORDS, DIGITS, DOTTED, Opt(All(PLAN)), TITLE_TAIL]

  const BARE_DECISION := [SPACES, Lit("D-"), DIGITS, DECISION_TAIL, SPACES]

  const IMPLEMENTATION_NOTE := [
    SPACES, Lit("Phase"), WORDS, DIGITS, WORDS, Lit("\U{2014}"), WORDS, Lit("implementation note"), SPACES]

  const CLOSE_OUT := [
    SPACES, Lit("D-"), DIGITS, Lit("."), DIGITS, Lit("-EX"), DIGITS, WORDS, Lit("close-out:"), ANYTHING]

  // `// D-NN — body` anywhere on the line, the body not blank
  const DASH_BODY := [ANYTHING, Lit("//"), SPACES, Lit("D-"), DIGITS, DECISION_TAIL, SPACES, Lit("\U{2014}"),
                      SPACES, Chr(DotNonSpace), Star(Chr(Dot))]

  const KEEP_KEYWORDS := ["because", "to avoid", "workaround", "fixes", "NEVER", "MUST", "prevent"]
  const KEEP_MARKERS := ["PITFALLS \U{A7}", "SUMMARY.md"]

  const SWEEP_RULES := Rules(
    closeOut := All(CLOSE_OUT),
    tags := [All(IMPLEMENTATION_NOTE), All(PHASE_HEADER), All(BARE_DECISION)],
    dashBody := All(DASH_BODY),
    keepWords := KEEP_KEYWORDS + KEEP_MARKERS)

  predicate Includes(line: string, word: string) {
    exists i :: 0 <= i <= |line| && StartsWith(line[i..], word)
  }

  predicate IsComment(line: string) { StartsWith(TrimStart(line), "//") }

  predicate CloseOut(rules: Rules, line: string) { Matches(CommentThen(rules.closeOut), line) }

  predicate KeepByContent(rules: Rules, line: string) {
    || (exists i :: 0 <= i < |rules.keepWords| && Includes(line, rules.keepWords[i]))
    || Matches(rules.dashBody, line)
  }

  predicate PhaseTag(rules: Rules, line: string) {
    exists i :: 0 <= i < |rules.tags| && Matches(CommentThen(rules.tags[i]), line)
  }

  datatype Verdict = Remove | Keep

  /** What the rules look at in a line. */
  datatype Facts = Facts(closeOut: bool, keep: bool, comment: bool, phaseTag: bool)

  function FactsOf(rules: Rules, line: string): Facts {
    Facts(CloseOut(rules, line), KeepByContent(rules, line), IsComment(line), PhaseTag(rules, line))
  }

  /** The rules in the order classifyLine tries them. */
  function Decide(line: Facts, prev: Option<Facts>, next: Option<Facts>): Verdict {
    if line.closeOut then Remove
    else if line.keep then Keep
    else if line.comment && ((prev.Some? && prev.value.comment) || (next.Some? && next.value.comment)) then Keep
    else if line.phaseTag then Remove
    else Keep
  }

  function FactsAt(rules: Rules, line: Option<string>): Option<Facts> {
    if line.Some? then Some(FactsOf(rules, line.value)) else None
  }

  function Classify(rules: Rules, line: string, prev: Option<string>, next: Option<string>): Verdict {
    Decide(FactsOf(rules, line), FactsAt(rules, prev), FactsAt(rules, next))
  }

  /** What makes the passes tractable: every rule that removes a line demands a comment. */
  lemma OnlyCommentsAreRemoved(rules: Rules, line: string)
    ensures CloseOut(rules, line) || PhaseTag(rules, line) ==> IsComment(line)
  {
    if CloseOut(rules, line) {
      CommentThenIsComment(rules.closeOut, line);
    } else if PhaseTag(rules, line) {
      var i :| 0 <= i < |rules.tags| && Matches(CommentThen(rules.tags[i]), line);
      CommentThenIsComment(rules.tags[i], line);
    }
  }

  // ---------- the rules as a sorting into kinds ----------

  predicate Coherent(f: Facts) { f.closeOut || f.phaseTag ==> f.comment }

  function Sort(f: Facts): Kind {
    if f.closeOut then Note else if !f.comment then Code else if f.phaseTag && !f.keep then Tag else Prose
  }

  function ByFacts(facts: string -> Facts): (kind: Sorter<string>)
    ensures forall l :: kind(l) == Sort(facts(l))
  {
    l => Sort(facts(l))
  }

  function LineKind(rules: Rules): (kind: Sorter<string>)
    ensures forall l :: kind(l) == Sort(FactsOf(rules, l))
  {
    ByFacts(l => FactsOf(rules, l))
  }

  lemma FactsCohere(rules: Rules, line: string)
    ensures Coherent(FactsOf(rules, line))
  {
    OnlyCommentsAreRemoved(rules, line);
  }

  lemma DecideIsByKind(facts: string -> Facts, line: string, prev: Option<string>, next: Option<string>)
    requires Coherent(facts(line))
    requires prev.Some? ==> Coherent(facts(prev.value))
    requires next.Some? ==> Coherent(facts(next.value))
    ensures Decide(facts(line), if prev.Some? then Some(facts(prev.value)) else None,
                   if next.Some? then Some(facts(next.value)) else None).Remove?
            <==> Goes(ByFacts(facts), line, prev, next)
  {
  }

  /** classifyLine's ordered rules come to this: a close-out note always goes, a phase tag that
      no keep rule protects goes when no comment is next to it, everything else stays. */
  lemma ClassifyIsByKind(rules: Rules, line: string, prev: Option<string>, next: Option<string>)
    ensures Classify(rules, line, prev, next).Remove? <==> Goes(LineKind(rules), line, prev, next)
  {
    FactsCohere(rules, line);
    if prev.Some? { FactsCohere(rules, prev.value); }
    if next.Some? { FactsCohere(rules, next.value); }
    DecideIsByKind(l => FactsOf(rules, l), line, prev, next);
  }

  lemma NonCommentIsCode(rules: Rules, line: string)
    requires !IsComment(line)
    ensures LineKind(rules)(line) == Code
  {
    FactsCohere(rules, line);
  }

  // ---------- the two commands ----------

  function LineAbove(lines: seq<string>, i: nat): Option<string>
    requires i < |lines|
  {
    if i > 0 then Some(lines[i - 1]) else None
  }

  function LineBelow(lines: seq<string>, i: nat): Option<string>
    requires i < |lines|
  {
    if i + 1 < |lines| then Some(lines[i + 1]) else None
  }

  lemma RemovedAtIsGoes(kind: Sorter<string>, lines: seq<string>, i: nat)
    requires i < |lines|
    ensures RemovedAt(kind, [], lines, i) == Goes(kind, lines[i], LineAbove(lines, i), LineBelow(lines, i))
  {
    assert [] + lines[..i] == lines[..i];
  }

  lemma RemovedAtIsClassified(rules: Rules, lines: seq<string>, i: nat)
    requires i < |lines|
    ensures RemovedAt(LineKind(rules), [], lines, i) <==>
            Classify(rules, lines[i], LineAbove(lines, i), LineBelow(lines, i)).Remove?
  {
    RemovedAtIsGoes(LineKind(rules), lines, i);
    ClassifyIsByKind(rules, lines[i], LineAbove(lines, i), LineBelow(lines, i));
  }

  /** `audit` reports exactly the lines classifyLine removes, under their own numbers. */
  lemma AuditReportsRemovals(rules: Rules, text: string, f: Finding)
    ensures var lines := Split(text, '\n');
      f in Audit(LineKind(rules), text) <==>
      (1 <= f.lineNumber <= |lines|
       && var i := f.lineNumber - 1;
          f.lineText == lines[i] && Classify(rules, lines[i], LineAbove(lines, i), LineBelow(lines, i)).Remove?)
  {
    var lines := Split(text, '\n');
    FindingsAreTheRemovedLines(LineKind(rules), [], lines, f);
    if 1 <= f.lineNumber <= |lines| { RemovedAtIsClassified(rules, lines, f.lineNumber - 1); }
  }

  /** The header promises that one run of `fix` is enough.  Two always are. */
  lemma TwoRunsOfFixAreEnough(rules: Rules, text: string)
    ensures var twice := Fix(LineKind(rules), Fix(LineKind(rules), text));
            Audit(LineKind(rules), twice) == [] && Fix(LineKind(rules), twice) == twice
  {
    NonCommentIsCode(rules, "");
    TwoFixesAreClean(LineKind(rules), text);
  }

  /** One is enough exactly when no phase tag is left alone by the close-out notes around it. */
  lemma OneRunOfFixIsEnough(rules: Rules, text: string)
    ensures Fix(LineKind(rules), Fix(LineKind(rules), text)) == Fix(LineKind(rules), text) <==> !HasOrphan(LineKind(rules), Split(text, '\n'))
  {
    NonCommentIsCode(rules, "");
    OneFixIsEnoughIffNoOrphan(LineKind(rules), text);
  }
}
