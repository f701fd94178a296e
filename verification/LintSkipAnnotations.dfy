/** The skip-annotation lint: each skipped test call looks for a SKIP-REASON comment in the
    five lines above it. */
module LintSkipAnnotations {
  import opened JsText

  const SKIP_LOOKBACK_LINES: nat := 5
  const SKIP_MIN_REASON_LEN: nat := 10

  const SKIP_REASON_TAG := "SKIP-REASON:"

  datatype Verdict = Ok | Missing | TooShort

  /** What a line contributes to a window: no annotation, one too short, or a good one. */
  datatype Mark = Plain | Short | Good

  /** What stands behind `open`, white space, `tag` and at least one white space: a text without
      line ends, trimmed. */
  function BodyBehind(t: string, open: string, tag: string): Option<string> {
    if !StartsAt(t, 0, open) then None
    else
      var i := SkipSpace(t, |open|);
      if !StartsAt(t, i, tag) then None
      else
        var k := SkipSpace(t, i + |tag|);
        if k == i + |tag| || k == |t| || HasLineTerminator(t[k..]) then None else Some(Trim(t[k..]))
  }

  /** The captured body of `^\/\/\s*SKIP-REASON:\s+(.+)$`, trimmed, on a trimmed line. */
  function BodyOf(t: string): Option<string> { BodyBehind(t, "//", SKIP_REASON_TAG) }

  function ReasonBody(line: string): Option<string> { BodyOf(Trim(line)) }

  function MarkOf(line: string): Mark {
    match ReasonBody(line)
    case None => Plain
    case Some(body) => if Units(body) >= SKIP_MIN_REASON_LEN then Good else Short
  }

  /** What each line of a file contributes; there is no annotation past its end. */
  function MarksBy(mk: string -> Mark, lines: seq<string>): nat -> Mark {
    (i: nat) => if i < |lines| then mk(lines[i]) else Plain
  }

  predicate InWindow(i: nat, callLine: nat) {
    i < callLine <= i + SKIP_LOOKBACK_LINES
  }

  /** What the lint says about a call on 0-based line callLine, `mark` telling what
      each line contributes. */
  function VerdictBy(mark: nat -> Mark, callLine: nat): Verdict {
    if exists i: nat | i < callLine :: InWindow(i, callLine) && mark(i).Good? then Ok
    else if exists i: nat | i < callLine :: InWindow(i, callLine) && mark(i).Short? then TooShort
    else Missing
  }

  function Check(lines: seq<string>, callLine: nat): Verdict {
    VerdictBy(MarksBy(MarkOf, lines), callLine)
  }

  /** The window scan: stops at the first good annotation and remembers having seen a short one. */
  method CheckAnnotation(mark: nat -> Mark, callLine: nat) returns (v: Verdict)
    ensures v == VerdictBy(mark, callLine)
  {
    var sawMatch := false;
    var i: nat := if callLine > SKIP_LOOKBACK_LINES then callLine - SKIP_LOOKBACK_LINES else 0;
    while i < callLine
      invariant i <= callLine <= i + SKIP_LOOKBACK_LINES || i == callLine - SKIP_LOOKBACK_LINES
      invariant forall p: nat :: p < i && InWindow(p, callLine) ==> !mark(p).Good?
      invariant sawMatch <==> exists p: nat :: p < i && InWindow(p, callLine) && mark(p).Short?
    {
      if mark(i) != Plain {
        assert InWindow(i, callLine);
        sawMatch := true;
        if mark(i).Good? { return Ok; }
      }
      i := i + 1;
    }
    v := if sawMatch then TooShort else Missing;
  }

  /** A file as the lint sees it: its lines and the 0-based line of every skipped call. */
  datatype SourceFile = SourceFile(lines: seq<string>, sites: seq<nat>)

  /** Lines are reported counting from 1. */
  type LineNumber = n: nat | n >= 1 witness 1

  datatype Violation = Violation(line: LineNumber, reason: Verdict)

  function ViolationsBy(verdict: nat -> Verdict, sites: seq<nat>): seq<Violation> {
    if sites == [] then []
    else
      var v, tail := verdict(sites[0]), ViolationsBy(verdict, sites[1..]);
      if v.Ok? then tail else [Violation(sites[0] + 1, v)] + tail
  }

  function Verdicts(mk: string -> Mark, lines: seq<string>): nat -> Verdict {
    (n: nat) => VerdictBy(MarksBy(mk, lines), n)
  }

  function Violations(file: SourceFile): seq<Violation> {
    ViolationsBy(Verdicts(MarkOf, file.lines), file.sites)
  }

  /** The walk over the call sites of one file. */
  method VisitForSkips(file: SourceFile) returns (out: seq<Violation>)
    ensures out == Violations(file)
  {
    out := VisitSites(MarksBy(MarkOf, file.lines), Verdicts(MarkOf, file.lines), file.sites);
  }

  lemma ViolationsFrom(verdict: nat -> Verdict, sites: seq<nat>, k: nat)
    requires k < |sites|
    ensures ViolationsBy(verdict, sites[k..])
            == (if verdict(sites[k]).Ok? then [] else [Violation(sites[k] + 1, verdict(sites[k]))])
               + ViolationsBy(verdict, sites[k + 1..])
  {
    assert sites[k..][1..] == sites[k + 1..];
  }

  method VisitSites(mark: nat -> Mark, ghost verdict: nat -> Verdict, sites: seq<nat>) returns (out: seq<Violation>)
    requires forall n :: verdict(n) == VerdictBy(mark, n)
    ensures out == ViolationsBy(verdict, sites)
  {
    out := [];
    ghost var all := ViolationsBy(verdict, sites);
    for k := 0 to |sites|
      invariant all == out + ViolationsBy(verdict, sites[k..])
    {
      ViolationsFrom(verdict, sites, k);
      var reason := CheckAnnotation(mark, sites[k]);
      if reason != Ok {
        out := out + [Violation(sites[k] + 1, reason)];
      }
    }
  }
}
