/** The evidence a test run leaves: one fragment per project, folded from the run's cases. */
module TestEvidence {
  import opened JsText
  import opened LintSkipAnnotations

  const ERROR_MESSAGE_TRUNCATE_LIMIT: nat := 1000

  datatype CaseState = Passed | Failed | Skipped | Pending
  datatype Mode = Run | Only | Skip | Todo

  /** One test case; `line` is None where the runner gives no location, `message` is the first
      error's, if any. */
  datatype Case = Case(project: string, name: string, fullName: Option<string>, mode: Mode,
                       line: Option<nat>, state: CaseState, message: Option<string>)

  datatype TestModule = TestModule(file: string, lines: seq<string>, cases: seq<Case>)

  /** A case with its module. */
  datatype Item = Item(file: string, lines: seq<string>, test: Case)

  datatype FailureEntry = FailureEntry(file: string, name: string, message: string)

  datatype SkipEntry = SkipEntry(file: string, line: nat, name: string, todo: bool,
                                 reason: Option<string>, suiteLevel: bool)

  datatype Fragment = Fragment(
    project: string, sha: string, failed: bool, exitCode: nat,
    total: nat, pass: nat, fail: nat, skip: nat, todo: nat, unannotatedSkip: nat,
    failures: seq<FailureEntry>, skips: seq<SkipEntry>)

  function EmptyFragment(project: string, sha: string): Fragment {
    Fragment(project, sha, false, 0, 0, 0, 0, 0, 0, 0, [], [])
  }

  // ---------- the annotation scan of the reporter ----------

  /** The annotation body on each line of a file, if there is one. */
  function BodiesOf(lines: seq<string>): nat -> Option<string> {
    (i: nat) => if i < |lines| then ReasonBody(lines[i]) else None
  }

  predicate LongEnough(body: Option<string>) { body.Some? && Units(body.value) >= SKIP_MIN_REASON_LEN }

  /** The first good reason from line i up to the call. */
  function FirstReason(body: nat -> Option<string>, i: nat, callIdx: nat): Option<string>
    decreases callIdx - i
  {
    if i >= callIdx then None
    else if LongEnough(body(i)) then body(i)
    else FirstReason(body, i + 1, callIdx)
  }

  function WindowStart(callIdx: nat): nat {
    if callIdx > SKIP_LOOKBACK_LINES then callIdx - SKIP_LOOKBACK_LINES else 0
  }

  /** findSkipReason, on the 1-based line of a call. */
  function FindSkipReason(lines: seq<string>, oneBasedCallLine: nat): Option<string>
    requires oneBasedCallLine >= 1
  {
    var callIdx := oneBasedCallLine - 1;
    FirstReason(BodiesOf(lines), WindowStart(callIdx), callIdx)
  }

  lemma {:induction false} FirstReasonExists(body: nat -> Option<string>, i: nat, callIdx: nat)
    ensures FirstReason(body, i, callIdx).Some? <==> exists p: nat :: i <= p < callIdx && LongEnough(body(p))
    decreases callIdx - i
  {
    if i < callIdx { FirstReasonExists(body, i + 1, callIdx); }
  }

  lemma SameScan(body: nat -> Option<string>, mark: nat -> LintSkipAnnotations.Mark, callIdx: nat)
    requires forall p: nat :: mark(p).Good? <==> LongEnough(body(p))
    ensures FirstReason(body, WindowStart(callIdx), callIdx).Some? <==> VerdictBy(mark, callIdx).Ok?
  {
    FirstReasonExists(body, WindowStart(callIdx), callIdx);
    forall p: nat ensures p < callIdx && InWindow(p, callIdx) <==> WindowStart(callIdx) <= p < callIdx {
    }
  }

  lemma GoodMeansLongEnough(line: string)
    ensures MarkOf(line).Good? <==> LongEnough(ReasonBody(line))
  {
  }

  /** The reporter and the static lint, two scanners of the same window, agree on every call. */
  lemma ReporterAgreesWithLint(lines: seq<string>, oneBasedCallLine: nat)
    requires oneBasedCallLine >= 1
    ensures FindSkipReason(lines, oneBasedCallLine).Some? <==> Check(lines, oneBasedCallLine - 1).Ok?
  {
    var mark, body := MarksBy(MarkOf, lines), BodiesOf(lines);
    forall p: nat ensures mark(p).Good? <==> LongEnough(body(p)) {
      if p < |lines| { GoodMeansLongEnough(lines[p]); }
    }
    SameScan(body, mark, oneBasedCallLine - 1);
  }

  // ---------- folding cases into a fragment ----------

  function NameOf(c: Case): string { if c.fullName.Some? then c.fullName.value else c.name }

  function LineOf(c: Case): nat { if c.line.Some? then c.line.value else 0 }

  function Truncated(s: string): string { FirstUnits(s, ERROR_MESSAGE_TRUNCATE_LIMIT) }

  function ReasonFor(item: Item): Option<string> {
    var line := LineOf(item.test);
    if line > 0 then FindSkipReason(item.lines, line) else None
  }

  /** A skip the gate blocks on: a per-call skip without a good annotation. */
  predicate UnannotatedSkip(item: Item) {
    item.test.state.Skipped? && LineOf(item.test) > 0 && ReasonFor(item).None?
  }

  /** One case added to its project's fragment. */
  function AddCase(f: Fragment, item: Item): Fragment {
    var c, g := item.test, f.(total := f.total + 1);
    match c.state
    case Passed => g.(pass := g.pass + 1)
    case Failed =>
      var message := if c.message.Some? then c.message.value else "<no message>";
      g.(fail := g.fail + 1, failed := true, exitCode := 1,
         failures := g.failures + [FailureEntry(item.file, NameOf(c), Truncated(message))])
    case Skipped =>
      var entry := SkipEntry(item.file, LineOf(c), NameOf(c), c.mode.Todo?, ReasonFor(item), LineOf(c) == 0);
      g.(skip := if c.mode.Todo? then g.skip else g.skip + 1,
         todo := if c.mode.Todo? then g.todo + 1 else g.todo,
         unannotatedSkip := if UnannotatedSkip(item) then g.unannotatedSkip + 1 else g.unannotatedSkip,
         skips := g.skips + [entry])
    case Pending => g
  }

  /** The fragment of one project over a whole run. */
  function Tally(project: string, sha: string, items: seq<Item>): Fragment {
    if items == [] then EmptyFragment(project, sha)
    else
      var last, f := items[|items| - 1], Tally(project, sha, items[..|items| - 1]);
      if last.test.project == project then AddCase(f, last) else f
  }

  /** The projects of a run's cases, in order of first appearance. */
  function Projects(items: seq<Item>): seq<string> {
    if items == [] then []
    else
      var p, ps := items[|items| - 1].test.project, Projects(items[..|items| - 1]);
      if p in ps then ps else ps + [p]
  }

  /** Configured projects without a case are added, blank names excepted. */
  function WithConfigured(ps: seq<string>, configured: seq<string>): seq<string> {
    if configured == [] then ps
    else
      var name, qs := configured[|configured| - 1], WithConfigured(ps, configured[..|configured| - 1]);
      if name == "" || name in qs then qs else qs + [name]
  }

  function FragmentsFor(ps: seq<string>, sha: string, items: seq<Item>): (fs: seq<Fragment>)
    ensures |fs| == |ps|
    ensures forall i :: 0 <= i < |ps| ==> fs[i] == Tally(ps[i], sha, items)
  {
    seq(|ps|, i requires 0 <= i < |ps| => Tally(ps[i], sha, items))
  }

  // ---------- what a fragment says ----------

  function CountWhere(project: string, items: seq<Item>, p: Item -> bool): nat {
    if items == [] then 0
    else
      var last, n := items[|items| - 1], CountWhere(project, items[..|items| - 1], p);
      if last.test.project == project && p(last) then n + 1 else n
  }

  predicate AnyCase(item: Item) { true }
  predicate FailedCase(item: Item) { item.test.state.Failed? }
  predicate PendingCase(item: Item) { item.test.state.Pending? }
  predicate LintRefusedSkip(item: Item) {
    item.test.state.Skipped? && LineOf(item.test) > 0 && !Check(item.lines, LineOf(item.test) - 1).Ok?
  }

  /** The counters are consistent and the exit code is exactly "some case failed". */
  ghost predicate Consistent(f: Fragment, pending: nat) {
    && f.total == f.pass + f.fail + f.skip + f.todo + pending
    && |f.failures| == f.fail
    && |f.skips| == f.skip + f.todo
    && f.exitCode == (if f.fail > 0 then 1 else 0)
    && (f.failed <==> f.fail > 0)
  }

  lemma AddCaseKeepsConsistent(f: Fragment, item: Item, pending: nat)
    requires Consistent(f, pending)
    ensures Consistent(AddCase(f, item), if PendingCase(item) then pending + 1 else pending)
  {
  }

  lemma AddCaseCounts(f: Fragment, item: Item)
    ensures var g := AddCase(f, item);
      && g.project == f.project && g.sha == f.sha && g.total == f.total + 1
      && g.fail == (if FailedCase(item) then f.fail + 1 else f.fail)
      && g.unannotatedSkip == (if UnannotatedSkip(item) then f.unannotatedSkip + 1 else f.unannotatedSkip)
  {
  }

  lemma {:induction false} FragmentIsConsistent(project: string, sha: string, items: seq<Item>)
    ensures Consistent(Tally(project, sha, items), CountWhere(project, items, PendingCase))
  {
    if items != [] {
      var front, last := items[..|items| - 1], items[|items| - 1];
      FragmentIsConsistent(project, sha, front);
      AddCaseKeepsConsistent(Tally(project, sha, front), last, CountWhere(project, front, PendingCase));
    }
  }

  lemma {:induction false} FragmentCounts(project: string, sha: string, items: seq<Item>)
    ensures var f := Tally(project, sha, items);
      && f.project == project && f.sha == sha
      && f.total == CountWhere(project, items, AnyCase)
      && f.fail == CountWhere(project, items, FailedCase)
      && f.unannotatedSkip == CountWhere(project, items, UnannotatedSkip)
  {
    if items != [] {
      var front, last := items[..|items| - 1], items[|items| - 1];
      FragmentCounts(project, sha, front);
      AddCaseCounts(Tally(project, sha, front), last);
    }
  }

  predicate PassedCase(item: Item) { item.test.state.Passed? }
  predicate SkippedCase(item: Item) { item.test.state.Skipped? }
  predicate PlainSkip(item: Item) { item.test.state.Skipped? && !item.test.mode.Todo? }
  predicate TodoCase(item: Item) { item.test.state.Skipped? && item.test.mode.Todo? }

  /** Each outcome has its own counter. */
  lemma {:induction false} OutcomesAreCounted(project: string, sha: string, items: seq<Item>)
    ensures var f := Tally(project, sha, items);
      && f.pass == CountWhere(project, items, PassedCase)
      && f.skip == CountWhere(project, items, PlainSkip)
      && f.todo == CountWhere(project, items, TodoCase)
  {
    if items != [] { OutcomesAreCounted(project, sha, items[..|items| - 1]); }
  }

  /** The project's cases of one kind, in order. */
  function Select(project: string, items: seq<Item>, p: Item -> bool): seq<Item> {
    if items == [] then []
    else
      var last, sel := items[|items| - 1], Select(project, items[..|items| - 1], p);
      if last.test.project == project && p(last) then sel + [last] else sel
  }

  /** The case's own full name, or its short one. */
  predicate IsNameOf(c: Case, name: string) {
    (c.fullName.Some? ==> name == c.fullName.value) && (c.fullName.None? ==> name == c.name)
  }

  /** The longest beginning of `text` that fits into `limit` UTF-16 units. */
  predicate IsCut(text: string, limit: nat, cut: string) {
    && cut <= text && Units(cut) <= limit
    && (|cut| < |text| ==> Units(text[..|cut| + 1]) > limit)
  }

  predicate IsFailureOf(item: Item, entry: FailureEntry) {
    && entry.file == item.file && IsNameOf(item.test, entry.name)
    && IsCut(if item.test.message.Some? then item.test.message.value else "<no message>", 1000, entry.message)
  }

  /** b is the reason of the topmost good annotation in the five lines above the 1-based line. */
  predicate IsTopReason(lines: seq<string>, line: nat, p: nat, b: string) {
    && p < |lines| && p + 1 < line <= p + 6 && MarkOf(lines[p]).Good? && ReasonBody(lines[p]) == Some(b)
    && forall q :: 0 <= q < p && line <= q + 6 ==> !MarkOf(lines[q]).Good?
  }

  ghost predicate IsReasonOf(item: Item, reason: Option<string>) {
    var line := LineOf(item.test);
    match reason
    case Some(b) => line > 0 && exists p: nat :: IsTopReason(item.lines, line, p, b)
    case None => line == 0 || !Check(item.lines, line - 1).Ok?
  }

  ghost predicate IsSkipOf(item: Item, entry: SkipEntry) {
    && entry.file == item.file && IsNameOf(item.test, entry.name)
    && entry.todo == item.test.mode.Todo?
    && entry.line == (if item.test.line.Some? then item.test.line.value else 0)
    && entry.suiteLevel == (entry.line == 0)
    && IsReasonOf(item, entry.reason)
  }

  lemma {:induction false} FirstUnitsIsCut(text: string, n: nat, limit: nat)
    requires n <= |text| && (n < |text| ==> Units(text[..n + 1]) > limit)
    ensures IsCut(text, limit, FirstUnits(text[..n], limit))
    decreases n
  {
    var t := text[..n];
    if Units(t) > limit {
      assert t[..n - 1] == text[..n - 1] && text[..n - 1 + 1] == t;
      FirstUnitsIsCut(text, n - 1, limit);
    }
  }

  lemma {:induction false} FirstReasonAt(body: nat -> Option<string>, i: nat, callIdx: nat) returns (p: nat)
    requires FirstReason(body, i, callIdx).Some?
    ensures i <= p < callIdx && LongEnough(body(p)) && FirstReason(body, i, callIdx) == body(p)
    ensures forall q: nat :: i <= q < p ==> !LongEnough(body(q))
    decreases callIdx - i
  {
    p := i;
    if !LongEnough(body(i)) { p := FirstReasonAt(body, i + 1, callIdx); }
  }

  lemma TopReason(lines: seq<string>, line: nat) returns (p: nat)
    requires line > 0 && FindSkipReason(lines, line).Some?
    ensures IsTopReason(lines, line, p, FindSkipReason(lines, line).value)
  {
    var start := WindowStart(line - 1);
    p := FirstReasonAt(BodiesOf(lines), start, line - 1);
    GoodMeansLongEnough(lines[p]);
    forall q | 0 <= q < p && line <= q + 6 ensures !MarkOf(lines[q]).Good? {
      assert !LongEnough(BodiesOf(lines)(q));
      GoodMeansLongEnough(lines[q]);
    }
  }

  lemma ReasonIsTopmost(item: Item)
    ensures IsReasonOf(item, ReasonFor(item))
  {
    var line := LineOf(item.test);
    if line > 0 {
      ReporterAgreesWithLint(item.lines, line);
      if FindSkipReason(item.lines, line).Some? { var p := TopReason(item.lines, line); }
    }
  }

  /** The failures and the skips of a fragment are those of exactly the failed and the skipped cases,
      in order, each under its own file and name. */
  lemma {:induction false} EntriesAreTheCases(project: string, sha: string, items: seq<Item>)
    ensures var f := Tally(project, sha, items);
            var failed, skipped := Select(project, items, FailedCase), Select(project, items, SkippedCase);
      && |f.failures| == |failed| && (forall k :: 0 <= k < |failed| ==> IsFailureOf(failed[k], f.failures[k]))
      && |f.skips| == |skipped| && (forall k :: 0 <= k < |skipped| ==> IsSkipOf(skipped[k], f.skips[k]))
  {
    if items != [] {
      var front, last := items[..|items| - 1], items[|items| - 1];
      EntriesAreTheCases(project, sha, front);
      AddCaseEntry(Tally(project, sha, front), last);
    }
  }

  lemma AddCaseEntry(f: Fragment, item: Item)
    ensures var g := AddCase(f, item);
      && (if FailedCase(item)
          then |g.failures| == |f.failures| + 1 && g.failures[..|f.failures|] == f.failures && IsFailureOf(item, g.failures[|f.failures|])
          else g.failures == f.failures)
      && (if SkippedCase(item)
          then |g.skips| == |f.skips| + 1 && g.skips[..|f.skips|] == f.skips && IsSkipOf(item, g.skips[|f.skips|])
          else g.skips == f.skips)
  {
    var message := if item.test.message.Some? then item.test.message.value else "<no message>";
    assert message[..|message|] == message;
    FirstUnitsIsCut(message, |message|, ERROR_MESSAGE_TRUNCATE_LIMIT);
    ReasonIsTopmost(item);
  }

  /** A skip is counted as unannotated exactly when the static lint would refuse its call. */
  lemma {:induction false} UnannotatedMeansLintRefuses(project: string, items: seq<Item>)
    ensures CountWhere(project, items, UnannotatedSkip) == CountWhere(project, items, LintRefusedSkip)
  {
    if items != [] {
      UnannotatedMeansLintRefuses(project, items[..|items| - 1]);
      var last := items[|items| - 1];
      SameSkip(last);
    }
  }

  lemma SameSkip(item: Item)
    ensures UnannotatedSkip(item) == LintRefusedSkip(item)
  {
    if LineOf(item.test) > 0 { ReporterAgreesWithLint(item.lines, LineOf(item.test)); }
  }

  /** A project's fragment depends on its own cases only. */
  function Own(project: string, items: seq<Item>): seq<Item> {
    if items == [] then []
    else
      var last, own := items[|items| - 1], Own(project, items[..|items| - 1]);
      if last.test.project == project then own + [last] else own
  }

  lemma {:induction false} FragmentDependsOnOwnCases(project: string, sha: string, items: seq<Item>)
    ensures Tally(project, sha, items) == Tally(project, sha, Own(project, items))
  {
    if items != [] {
      var front, last := items[..|items| - 1], items[|items| - 1];
      FragmentDependsOnOwnCases(project, sha, front);
      if last.test.project == project {
        var own := Own(project, front);
        assert (own + [last])[..|own|] == own;
      }
    }
  }

  // ---------- the reporter's loops ----------

  function ModuleItems(m: TestModule, n: nat): seq<Item>
    requires n <= |m.cases|
  {
    seq(n, i requires 0 <= i < n => Item(m.file, m.lines, m.cases[i]))
  }

  /** All cases of a run, module by module. */
  function Items(modules: seq<TestModule>): seq<Item> {
    if modules == [] then []
    else
      var m := modules[|modules| - 1];
      Items(modules[..|modules| - 1]) + ModuleItems(m, |m.cases|)
  }

  function RunProjects(modules: seq<TestModule>, configured: seq<string>): seq<string> {
    WithConfigured(Projects(Items(modules)), configured)
  }

  function RunFragments(modules: seq<TestModule>, sha: string, configured: seq<string>): seq<Fragment> {
    FragmentsFor(RunProjects(modules, configured), sha, Items(modules))
  }

  /** The reporter's Map: its keys in insertion order, and the fragment under each. */
  ghost predicate Accumulates(order: seq<string>, byProject: map<string, Fragment>, sha: string, items: seq<Item>) {
    && byProject.Keys == (set p | p in order)
    && forall p :: p in byProject ==> byProject[p] == Tally(p, sha, items)
  }

  lemma {:induction false} AbsentProjectIsEmpty(p: string, sha: string, items: seq<Item>)
    requires p !in Projects(items)
    ensures Tally(p, sha, items) == EmptyFragment(p, sha)
  {
    if items != [] { AbsentProjectIsEmpty(p, sha, items[..|items| - 1]); }
  }

  lemma TallySnoc(p: string, sha: string, items: seq<Item>, item: Item)
    ensures Tally(p, sha, items + [item])
            == if item.test.project == p then AddCase(Tally(p, sha, items), item) else Tally(p, sha, items)
    ensures Projects(items + [item])
            == if item.test.project in Projects(items) then Projects(items) else Projects(items) + [item.test.project]
  {
    assert (items + [item])[..|items|] == items;
  }

  /** One case of the inner loop: its project's fragment is created on first sight. */
  method RecordCase(order: seq<string>, byProject: map<string, Fragment>, sha: string, item: Item, ghost items: seq<Item>)
    returns (order': seq<string>, byProject': map<string, Fragment>)
    requires order == Projects(items) && Accumulates(order, byProject, sha, items)
    ensures order' == Projects(items + [item]) && Accumulates(order', byProject', sha, items + [item])
  {
    order', byProject' := order, byProject;
    var project := item.test.project;
    if project !in byProject' {
      AbsentProjectIsEmpty(project, sha, items);
      byProject' := byProject'[project := EmptyFragment(project, sha)];
      order' := order' + [project];
    }
    byProject' := byProject'[project := AddCase(byProject'[project], item)];
    forall p ensures Tally(p, sha, items + [item])
        == if project == p then AddCase(Tally(p, sha, items), item) else Tally(p, sha, items)
    {
      TallySnoc(p, sha, items, item);
    }
    TallySnoc(project, sha, items, item);
  }

  /** The inner loop, over one module read once. */
  method RecordCases(order: seq<string>, byProject: map<string, Fragment>, sha: string, m: TestModule, ghost before: seq<Item>)
    returns (order': seq<string>, byProject': map<string, Fragment>)
    requires order == Projects(before) && Accumulates(order, byProject, sha, before)
    ensures order' == Projects(before + ModuleItems(m, |m.cases|))
    ensures Accumulates(order', byProject', sha, before + ModuleItems(m, |m.cases|))
  {
    order', byProject' := order, byProject;
    ghost var items := before;
    for j := 0 to |m.cases|
      invariant items == before + ModuleItems(m, j)
      invariant order' == Projects(items) && Accumulates(order', byProject', sha, items)
    {
      var item := Item(m.file, m.lines, m.cases[j]);
      order', byProject' := RecordCase(order', byProject', sha, item, items);
      items := items + [item];
    }
  }

  method RecordModules(modules: seq<TestModule>, sha: string)
    returns (order: seq<string>, byProject: map<string, Fragment>)
    ensures order == Projects(Items(modules)) && Accumulates(order, byProject, sha, Items(modules))
  {
    order, byProject := [], map[];
    ghost var items := [];
    for k := 0 to |modules|
      invariant items == Items(modules[..k])
      invariant order == Projects(items) && Accumulates(order, byProject, sha, items)
    {
      order, byProject := RecordCases(order, byProject, sha, modules[k], items);
      assert modules[..k + 1][..k] == modules[..k];
      items := items + ModuleItems(modules[k], |modules[k].cases|);
    }
    assert modules[..|modules|] == modules;
  }

  /** Empty fragments for configured projects that ran nothing; the root project's blank name
      is skipped. */
  method Backfill(order: seq<string>, byProject: map<string, Fragment>, sha: string, configured: seq<string>, ghost items: seq<Item>)
    returns (order': seq<string>, byProject': map<string, Fragment>)
    requires order == Projects(items) && Accumulates(order, byProject, sha, items)
    ensures order' == WithConfigured(Projects(items), configured) && Accumulates(order', byProject', sha, items)
  {
    order', byProject' := order, byProject;
    for k := 0 to |configured|
      invariant order' == WithConfigured(order, configured[..k])
      invariant order <= order'
      invariant Accumulates(order', byProject', sha, items)
    {
      var name := configured[k];
      assert configured[..k + 1][..k] == configured[..k];
      if name != "" && name !in byProject' {
        AbsentProjectIsEmpty(name, sha, items);
        byProject' := byProject'[name := EmptyFragment(name, sha)];
        order' := order' + [name];
      }
    }
    assert configured[..|configured|] == configured;
  }

  /** buildFragmentsForTest. */
  method BuildFragments(modules: seq<TestModule>, sha: string, configured: seq<string>) returns (fs: seq<Fragment>)
    ensures fs == RunFragments(modules, sha, configured)
  {
    ghost var items := Items(modules);
    var order, byProject := RecordModules(modules, sha);
    order, byProject := Backfill(order, byProject, sha, configured, items);
    fs := [];
    for k := 0 to |order|
      invariant |fs| == k && forall i :: 0 <= i < k ==> fs[i] == Tally(order[i], sha, items)
    {
      assert order[k] in byProject;
      fs := fs + [byProject[order[k]]];
    }
  }
}
