/** The evidence directory: a map from file names to contents, written fragment by fragment
    through a temporary file and a rename. */
module EvidenceStore {
  import opened JsText
  import opened PercentEncoding
  import opened TestEvidence

  /** A complete fragment, or the beginning of one. */
  datatype Content = Whole(fragment: Fragment) | Torn

  type Files = map<string, Content>

  predicate IsHex(c: char) { '0' <= c <= '9' || 'a' <= c <= 'f' }

  predicate IsSha40(s: string) { |s| == 40 && forall i :: 0 <= i < 40 ==> IsHex(s[i]) }

  function FragmentName(sha: string, project: string): string {
    sha + ("-" + (Encode(project) + ".json"))
  }

  predicate IsPid(pid: string) { pid != "" && forall i :: 0 <= i < |pid| ==> IsDigit(pid[i]) }

  function TmpName(final: string, pid: string): string { final + (".tmp." + pid) }

  // ---------- names ----------

  /** The reader's view of a directory entry: the project of a fragment of headSha. */
  function ProjectOfEntry(entry: string, headSha: string): Option<string> {
    var prefix := headSha + "-";
    if !StartsWith(entry, prefix) || !EndsWith(entry, ".json") then None
    else
      // slice() with its end before its start is empty
      var encoded := if |prefix| <= |entry| - 5 then entry[|prefix|..|entry| - 5] else "";
      match Decode(encoded)
      case Some(decoded) => Some(decoded)
      case None => Some(encoded)
  }

  lemma MiddlePart(sha: string, e: string)
    ensures var name := sha + ("-" + (e + ".json"));
      && StartsWith(name, sha + "-") && EndsWith(name, ".json")
      && |sha + "-"| <= |name| - 5 && name[|sha + "-"|..|name| - 5] == e
  {
    var name := sha + ("-" + (e + ".json"));
    assert name == (sha + "-") + (e + ".json");
    assert name[|name| - 5..] == ".json";
  }

  lemma EncodedPartIsRead(sha: string, e: string, project: string)
    requires Decode(e) == Some(project)
    ensures ProjectOfEntry(sha + ("-" + (e + ".json")), sha) == Some(project)
  {
    MiddlePart(sha, e);
  }

  lemma FragmentNameIsRead(sha: string, project: string)
    ensures ProjectOfEntry(FragmentName(sha, project), sha) == Some(project)
  {
    DecodeOfEncode(project);
    EncodedPartIsRead(sha, Encode(project), project);
  }

  /** A project with a plain name has a file with its commit and its name, and that file is its. */
  lemma PlainNameIsKept(sha: string, project: string)
    requires forall i :: 0 <= i < |project| ==> Plain(project[i])
    ensures FragmentName(sha, project) == sha + ("-" + (project + ".json"))
  {
    PlainEncodesAsItself(project);
  }

  /** A name that does not decode is taken as it stands. */
  lemma UndecodableNameIsRead(sha: string, e: string)
    requires Decode(e).None?
    ensures ProjectOfEntry(sha + ("-" + (e + ".json")), sha) == Some(e)
  {
    MiddlePart(sha, e);
  }

  lemma OtherShaIsNotRead(sha: string, other: string, project: string)
    requires |sha| == |other| && sha != other
    ensures ProjectOfEntry(FragmentName(other, project), sha).None?
  {
    assert FragmentName(other, project)[..|sha|] == other;
    assert (sha + "-")[..|sha|] == sha;
  }

  predicate IsJson(name: string) { EndsWith(name, ".json") }

  lemma JsonEndsInN(name: string)
    requires IsJson(name)
    ensures name[|name| - 1] == 'n'
  {
    assert name[|name| - 5..][4] == name[|name| - 1];
  }

  /** A temporary file ends in a digit, so neither reader takes it for a fragment. */
  lemma TmpIsNotJson(final: string, pid: string)
    requires IsPid(pid)
    ensures !IsJson(TmpName(final, pid))
  {
    var t := TmpName(final, pid);
    assert t[|t| - 1] == pid[|pid| - 1];
    if IsJson(t) { JsonEndsInN(t); }
  }

  lemma FragmentIsJson(sha: string, project: string)
    ensures IsJson(FragmentName(sha, project))
  {
    var name := FragmentName(sha, project);
    assert name[|name| - 5..] == ".json";
  }

  /** Distinct commits or projects never share a file. */
  lemma NamesAreDistinct(sha1: string, p1: string, sha2: string, p2: string)
    requires |sha1| == |sha2| && FragmentName(sha1, p1) == FragmentName(sha2, p2)
    ensures sha1 == sha2 && p1 == p2
  {
    assert FragmentName(sha1, p1)[..|sha1|] == sha1 && FragmentName(sha2, p2)[..|sha2|] == sha2;
    FragmentNameIsRead(sha1, p1);
    FragmentNameIsRead(sha2, p2);
  }

  // ---------- writing ----------

  /** How far the write of one fragment gets. */
  datatype Outcome =
    | Landed            // written and renamed
    | DiedBefore        // the process died before the temporary file
    | DiedTorn          // it died, or the write threw, with the temporary file incomplete
    | DiedUnrenamed     // it died with the temporary file complete
    | RenameRefused     // the rename threw and the temporary file was unlinked

  function OutcomeAt(outcomes: seq<Outcome>): Outcome { if outcomes == [] then Landed else outcomes[0] }

  function RestOf(outcomes: seq<Outcome>): seq<Outcome> { if outcomes == [] then [] else outcomes[1..] }

  function FinalName(f: Fragment): string { FragmentName(f.sha, f.project) }

  /** Creating the temporary file exclusively and everything after it succeed. */
  predicate Lands(files: Files, f: Fragment, pid: string, outcome: Outcome) {
    TmpName(FinalName(f), pid) !in files && outcome.Landed?
  }

  /** The directory after the write of one fragment, as far as it got. */
  function WriteOne(files: Files, f: Fragment, pid: string, outcome: Outcome): Files {
    var tmp := TmpName(FinalName(f), pid);
    if tmp in files then files
    else
      match outcome
      case Landed => files[FinalName(f) := Whole(f)]
      case DiedBefore => files
      case DiedTorn => files[tmp := Torn]
      case DiedUnrenamed => files[tmp := Whole(f)]
      case RenameRefused => files
  }

  /** A write touches its two names only.  Its temporary file is left behind, complete or not,
      exactly by a death between its creation and the rename; a name taken before stays as it was. */
  lemma WriteTouches(files: Files, f: Fragment, pid: string, outcome: Outcome, name: string)
    requires IsPid(pid)
    ensures var final := FragmentName(f.sha, f.project); var tmp := final + (".tmp." + pid);
      var after := Lookup(WriteOne(files, f, pid, outcome), name);
      if tmp in files then after == Lookup(files, name)
      else if name == tmp then
        after == (if outcome.DiedTorn? then Some(Torn) else if outcome.DiedUnrenamed? then Some(Whole(f)) else None)
      else if name == final && outcome.Landed? then after == Some(Whole(f))
      else after == Lookup(files, name)
  {
    FragmentIsJson(f.sha, f.project);
    TmpIsNotJson(FinalName(f), pid);
  }

  /** The directory after writeFragmentsAtomic, which stops at the first failure. */
  function WriteAll(files: Files, fs: seq<Fragment>, pid: string, outcomes: seq<Outcome>): Files
    decreases |fs|
  {
    if fs == [] then files
    else
      var files' := WriteOne(files, fs[0], pid, OutcomeAt(outcomes));
      if Lands(files, fs[0], pid, OutcomeAt(outcomes)) then WriteAll(files', fs[1..], pid, RestOf(outcomes))
      else files'
  }

  /** The fragments that reached their final name, a prefix of those to be written. */
  function Arrived(files: Files, fs: seq<Fragment>, pid: string, outcomes: seq<Outcome>): (landed: seq<Fragment>)
    ensures landed <= fs
    decreases |fs|
  {
    if fs == [] || !Lands(files, fs[0], pid, OutcomeAt(outcomes)) then []
    else [fs[0]] + Arrived(WriteOne(files, fs[0], pid, OutcomeAt(outcomes)), fs[1..], pid, RestOf(outcomes))
  }

  /** The write of the k-th fragment goes through by itself: nobody left its temporary file behind,
      and nothing stops it; writes beyond the list of outcomes are not stopped. */
  predicate GoesThrough(files: Files, fs: seq<Fragment>, pid: string, outcomes: seq<Outcome>, k: nat)
    requires k < |fs|
  {
    && (FragmentName(fs[k].sha, fs[k].project) + (".tmp." + pid)) !in files
    && (k < |outcomes| ==> outcomes[k].Landed?)
  }

  /** What lands under a final name takes no temporary one. */
  lemma GoesThroughStill(files: Files, fs: seq<Fragment>, pid: string, outcomes: seq<Outcome>, k: nat)
    requires IsPid(pid) && 0 < k < |fs| && Lands(files, fs[0], pid, OutcomeAt(outcomes))
    ensures GoesThrough(WriteOne(files, fs[0], pid, OutcomeAt(outcomes)), fs[1..], pid, RestOf(outcomes), k - 1)
            == GoesThrough(files, fs, pid, outcomes, k)
  {
    TmpIsNotJson(FinalName(fs[k]), pid);
    FragmentIsJson(fs[0].sha, fs[0].project);
  }

  /** The first n writes go through, and the one behind them, if there is one, does not. */
  predicate GoThroughUpTo(files: Files, fs: seq<Fragment>, pid: string, outcomes: seq<Outcome>, n: nat) {
    && n <= |fs| && (forall k :: 0 <= k < n ==> GoesThrough(files, fs, pid, outcomes, k))
    && (n < |fs| ==> !GoesThrough(files, fs, pid, outcomes, n))
  }

  lemma OneMoreGoesThrough(files: Files, fs: seq<Fragment>, pid: string, outcomes: seq<Outcome>, n: nat)
    requires IsPid(pid) && fs != [] && Lands(files, fs[0], pid, OutcomeAt(outcomes))
    requires GoThroughUpTo(WriteOne(files, fs[0], pid, OutcomeAt(outcomes)), fs[1..], pid, RestOf(outcomes), n)
    ensures GoThroughUpTo(files, fs, pid, outcomes, n + 1)
  {
    assert GoesThrough(files, fs, pid, outcomes, 0);
    forall k | 1 <= k < n + 1 ensures GoesThrough(files, fs, pid, outcomes, k) {
      GoesThroughStill(files, fs, pid, outcomes, k);
    }
    if n + 1 < |fs| { GoesThroughStill(files, fs, pid, outcomes, n + 1); }
  }

  /** The fragments that arrive are those in front of the first write that does not go through. */
  lemma {:induction false} ArrivedIs(files: Files, fs: seq<Fragment>, pid: string, outcomes: seq<Outcome>)
    requires IsPid(pid)
    ensures var n := |Arrived(files, fs, pid, outcomes)|;
      Arrived(files, fs, pid, outcomes) == fs[..n] && GoThroughUpTo(files, fs, pid, outcomes, n)
    decreases |fs|
  {
    if fs != [] && Lands(files, fs[0], pid, OutcomeAt(outcomes)) {
      var files', rest := WriteOne(files, fs[0], pid, OutcomeAt(outcomes)), RestOf(outcomes);
      ArrivedIs(files', fs[1..], pid, rest);
      OneMoreGoesThrough(files, fs, pid, outcomes, |Arrived(files', fs[1..], pid, rest)|);
    }
  }

  function Lookup(files: Files, name: string): Option<Content> {
    if name in files then Some(files[name]) else None
  }

  function FindFragment(fs: seq<Fragment>, name: string): Option<Fragment> {
    if fs == [] then None
    else if FinalName(fs[|fs| - 1]) == name then Some(fs[|fs| - 1])
    else FindFragment(fs[..|fs| - 1], name)
  }

  lemma {:induction false} FindFragmentCons(f: Fragment, fs: seq<Fragment>, name: string)
    ensures FindFragment([f] + fs, name)
            == if FindFragment(fs, name).Some? then FindFragment(fs, name)
               else if FinalName(f) == name then Some(f) else None
  {
    if fs != [] {
      assert ([f] + fs)[..|fs|] == [f] + fs[..|fs| - 1];
      FindFragmentCons(f, fs[..|fs| - 1], name);
    } else {
      assert ([f] + fs)[..0] == [];
    }
  }

  /** Whatever interrupts a write, every file a reader can see holds its old content or the
      complete new fragment; which of the two is told by Arrived. */
  lemma {:induction false} ReadersSeeOldOrNew(files: Files, fs: seq<Fragment>, pid: string, outcomes: seq<Outcome>, name: string)
    requires IsPid(pid) && IsJson(name)
    ensures Lookup(WriteAll(files, fs, pid, outcomes), name)
            == match FindFragment(Arrived(files, fs, pid, outcomes), name)
               case Some(f) => Some(Whole(f))
               case None => Lookup(files, name)
    decreases |fs|
  {
    if fs != [] {
      TmpIsNotJson(FinalName(fs[0]), pid);
      if Lands(files, fs[0], pid, OutcomeAt(outcomes)) {
        var files' := WriteOne(files, fs[0], pid, OutcomeAt(outcomes));
        ReadersSeeOldOrNew(files', fs[1..], pid, RestOf(outcomes), name);
        FindFragmentCons(fs[0], Arrived(files', fs[1..], pid, RestOf(outcomes)), name);
      }
    }
  }

  // ---------- what a whole run writes ----------

  /** One test run: how it was started, what it ran, and how far each write got. */
  datatype TestRun = TestRun(watch: bool, interrupted: bool, modules: seq<TestModule>, configured: seq<string>,
                             sha: Option<string>, pid: string, outcomes: seq<Outcome>)

  /** The runs that leave no evidence. */
  predicate Bails(run: TestRun) {
    || run.watch || run.interrupted
    || (run.modules == [] && run.configured == [])
    || run.sha.None? || !IsSha40(run.sha.value)
  }

  function ToWrite(run: TestRun): seq<Fragment> {
    if Bails(run) then [] else RunFragments(run.modules, run.sha.value, run.configured)
  }

  predicate Covers(run: TestRun, project: string) {
    !Bails(run) && project in RunProjects(run.modules, run.configured)
  }

  ghost predicate RunsCaseOf(modules: seq<TestModule>, project: string) {
    exists i, j :: 0 <= i < |modules| && 0 <= j < |modules[i].cases| && modules[i].cases[j].project == project
  }

  ghost predicate HasCaseOf(items: seq<Item>, project: string) {
    exists k :: 0 <= k < |items| && items[k].test.project == project
  }

  lemma HasCaseAppend(a: seq<Item>, b: seq<Item>, project: string)
    ensures HasCaseOf(a + b, project) <==> HasCaseOf(a, project) || HasCaseOf(b, project)
  {
    if k :| 0 <= k < |a| && a[k].test.project == project { assert (a + b)[k].test.project == project; }
    if k :| 0 <= k < |b| && b[k].test.project == project { assert (a + b)[|a| + k].test.project == project; }
    if k :| 0 <= k < |a + b| && (a + b)[k].test.project == project {
      assert if k < |a| then (a + b)[k] == a[k] else (a + b)[k] == b[k - |a|];
    }
  }

  lemma ModuleHasCase(m: TestModule, project: string)
    ensures HasCaseOf(ModuleItems(m, |m.cases|), project) <==>
            exists j :: 0 <= j < |m.cases| && m.cases[j].project == project
  {
    var items := ModuleItems(m, |m.cases|);
    forall j | 0 <= j < |m.cases| ensures items[j].test == m.cases[j] { }
    if j :| 0 <= j < |m.cases| && m.cases[j].project == project { assert items[j].test.project == project; }
  }

  lemma {:induction false} ItemsAreCases(modules: seq<TestModule>, project: string)
    ensures HasCaseOf(Items(modules), project) <==> RunsCaseOf(modules, project)
  {
    if modules != [] {
      var n := |modules| - 1;
      ItemsAreCases(modules[..n], project);
      HasCaseAppend(Items(modules[..n]), ModuleItems(modules[n], |modules[n].cases|), project);
      ModuleHasCase(modules[n], project);
      RunsCaseSnoc(modules, project);
    }
  }

  lemma RunsCaseSnoc(modules: seq<TestModule>, project: string)
    requires modules != []
    ensures var n := |modules| - 1;
      RunsCaseOf(modules, project) <==>
      (RunsCaseOf(modules[..n], project)
       || exists j :: 0 <= j < |modules[n].cases| && modules[n].cases[j].project == project)
  {
    var n := |modules| - 1;
    var front := modules[..n];
    if i, j :| 0 <= i < n && 0 <= j < |front[i].cases| && front[i].cases[j].project == project {
      assert modules[i].cases[j].project == project;
    }
    if i, j :| 0 <= i < n && 0 <= j < |modules[i].cases| && modules[i].cases[j].project == project {
      assert front[i].cases[j].project == project;
    }
  }

  lemma {:induction false} ProjectsAreOfItems(items: seq<Item>, project: string)
    ensures project in Projects(items) <==> HasCaseOf(items, project)
  {
    if items != [] {
      var n := |items| - 1;
      ProjectsAreOfItems(items[..n], project);
      HasCaseAppend(items[..n], [items[n]], project);
      assert items == items[..n] + [items[n]] && [items[n]][0] == items[n];
    }
  }

  lemma {:induction false} ConfiguredAreAdded(ps: seq<string>, configured: seq<string>, project: string)
    ensures project in WithConfigured(ps, configured) <==> project in ps || (project != "" && project in configured)
  {
    if configured != [] {
      var n := |configured| - 1;
      ConfiguredAreAdded(ps, configured[..n], project);
      assert configured == configured[..n] + [configured[n]];
    }
  }

  /** A run leaves evidence for a project iff it is no watch run and not interrupted, knows its commit
      by forty lower-case hexadecimal digits, and ran a case of the project or has it configured. */
  lemma CoversIff(run: TestRun, project: string)
    ensures Covers(run, project) <==>
      && !run.watch && !run.interrupted && run.sha.Some?
      && |run.sha.value| == 40 && (forall i :: 0 <= i < 40 ==> run.sha.value[i] in "0123456789abcdef")
      && (RunsCaseOf(run.modules, project) || (project != "" && project in run.configured))
  {
    ItemsAreCases(run.modules, project);
    ProjectsAreOfItems(Items(run.modules), project);
    ConfiguredAreAdded(Projects(Items(run.modules)), run.configured, project);
    if run.sha.Some? { Sha40Iff(run.sha.value); }
  }

  lemma Sha40Iff(sha: string)
    ensures IsSha40(sha) <==> |sha| == 40 && forall i :: 0 <= i < 40 ==> sha[i] in "0123456789abcdef"
  {
    forall c: char ensures IsHex(c) <==> c in "0123456789abcdef" { HexIff(c); }
  }

  lemma HexIff(c: char)
    ensures IsHex(c) <==> c in "0123456789abcdef"
  {
    if '0' <= c <= '9' { assert "0123456789abcdef"[c as int - '0' as int] == c; }
    if 'a' <= c <= 'f' { assert "0123456789abcdef"[10 + (c as int - 'a' as int)] == c; }
  }

  predicate Distinct(ps: seq<string>) { forall i, j :: 0 <= i < j < |ps| ==> ps[i] != ps[j] }

  lemma {:induction false} ProjectsAreDistinct(items: seq<Item>)
    ensures Distinct(Projects(items))
  {
    if items != [] { ProjectsAreDistinct(items[..|items| - 1]); }
  }

  lemma {:induction false} WithConfiguredIsDistinct(ps: seq<string>, configured: seq<string>)
    requires Distinct(ps)
    ensures Distinct(WithConfigured(ps, configured))
  {
    if configured != [] { WithConfiguredIsDistinct(ps, configured[..|configured| - 1]); }
  }

  lemma FindFragmentSnoc(fs: seq<Fragment>, f: Fragment, name: string)
    ensures FindFragment(fs + [f], name) == if FinalName(f) == name then Some(f) else FindFragment(fs, name)
  {
    assert (fs + [f])[..|fs|] == fs;
  }

  lemma FragmentsForSnoc(ps: seq<string>, p: string, sha: string, items: seq<Item>)
    ensures FragmentsFor(ps + [p], sha, items) == FragmentsFor(ps, sha, items) + [Tally(p, sha, items)]
  {
  }

  /** Among the fragments of a run, a file name finds its own project's fragment. */
  lemma {:induction false} FindInFragments(ps: seq<string>, sha: string, items: seq<Item>, sha': string, p: string)
    requires |sha| == |sha'| && Distinct(ps)
    ensures FindFragment(FragmentsFor(ps, sha, items), FragmentName(sha', p))
            == if sha == sha' && p in ps then Some(Tally(p, sha, items)) else None
  {
    if ps != [] {
      var front, last := ps[..|ps| - 1], ps[|ps| - 1];
      assert ps == front + [last];
      FindInFragments(front, sha, items, sha', p);
      FragmentsForSnoc(front, last, sha, items);
      FindFragmentSnoc(FragmentsFor(front, sha, items), Tally(last, sha, items), FragmentName(sha', p));
      FinalNameOfTally(last, sha, items);
      SameNameIff(sha, last, sha', p);
    }
  }

  lemma FinalNameOfTally(p: string, sha: string, items: seq<Item>)
    ensures FinalName(Tally(p, sha, items)) == FragmentName(sha, p)
  {
    FragmentCounts(p, sha, items);
  }

  lemma SameNameIff(sha1: string, p1: string, sha2: string, p2: string)
    requires |sha1| == |sha2|
    ensures FragmentName(sha1, p1) == FragmentName(sha2, p2) <==> sha1 == sha2 && p1 == p2
  {
    if FragmentName(sha1, p1) == FragmentName(sha2, p2) { NamesAreDistinct(sha1, p1, sha2, p2); }
  }

  lemma FindInRun(run: TestRun, sha: string, p: string)
    requires IsSha40(sha)
    ensures FindFragment(ToWrite(run), FragmentName(sha, p))
            == if Covers(run, p) && run.sha == Some(sha) then Some(Tally(p, sha, Items(run.modules))) else None
  {
    if !Bails(run) {
      ProjectsAreDistinct(Items(run.modules));
      WithConfiguredIsDistinct(Projects(Items(run.modules)), run.configured);
      FindInFragments(RunProjects(run.modules, run.configured), run.sha.value, Items(run.modules), sha, p);
    }
  }

  // ---------- histories of runs ----------

  function AfterRun(files: Files, run: TestRun): Files {
    WriteAll(files, ToWrite(run), run.pid, run.outcomes)
  }

  function AfterRuns(files: Files, runs: seq<TestRun>): Files {
    if runs == [] then files else AfterRun(AfterRuns(files, runs[..|runs| - 1]), runs[|runs| - 1])
  }

  function LandedIn(files: Files, run: TestRun): seq<Fragment> {
    Arrived(files, ToWrite(run), run.pid, run.outcomes)
  }

  /** Run j of the history landed this fragment under the name. */
  function LandedAt(runs: seq<TestRun>, j: nat, name: string): Option<Fragment>
    requires j < |runs|
  {
    FindFragment(LandedIn(AfterRuns(map[], runs[..j]), runs[j]), name)
  }

  /** The last of the first n places that is marked. */
  function LastTrue(marks: seq<bool>, n: nat): (k: Option<nat>)
    requires n <= |marks|
    ensures k.Some? ==> k.value < n && marks[k.value]
    ensures k.Some? ==> forall j :: k.value < j < n ==> !marks[j]
    ensures k.None? ==> forall j :: 0 <= j < n ==> !marks[j]
  {
    if n == 0 then None else if marks[n - 1] then Some(n - 1) else LastTrue(marks, n - 1)
  }

  /** Which runs of the history landed a fragment under the name. */
  function Landings(runs: seq<TestRun>, name: string): (marks: seq<bool>)
    ensures |marks| == |runs|
    ensures forall j :: 0 <= j < |runs| ==> marks[j] == LandedAt(runs, j, name).Some?
  {
    seq(|runs|, j requires 0 <= j < |runs| => LandedAt(runs, j, name).Some?)
  }

  /** The last of the first n runs to land a fragment under the name. */
  function LastLander(runs: seq<TestRun>, name: string, n: nat): Option<nat>
    requires n <= |runs|
  {
    LastTrue(Landings(runs, name), n)
  }

  predicate RealPids(runs: seq<TestRun>) { forall i :: 0 <= i < |runs| ==> IsPid(runs[i].pid) }

  lemma HistoryStep(runs: seq<TestRun>, name: string, n: nat)
    requires n < |runs| && IsPid(runs[n].pid) && IsJson(name)
    ensures Lookup(AfterRuns(map[], runs[..n + 1]), name)
            == match LandedAt(runs, n, name)
               case Some(f) => Some(Whole(f))
               case None => Lookup(AfterRuns(map[], runs[..n]), name)
  {
    assert runs[..n + 1][..n] == runs[..n];
    ReadersSeeOldOrNew(AfterRuns(map[], runs[..n]), ToWrite(runs[n]), runs[n].pid, runs[n].outcomes, name);
  }

  /** Over any history of runs, with writes cut short anywhere, a reader of a name finds what the
      last run to land a fragment there landed, and nothing if none did. */
  lemma {:induction false} StoredIsLastLanded(runs: seq<TestRun>, name: string, n: nat)
    requires RealPids(runs) && IsJson(name) && n <= |runs|
    ensures Lookup(AfterRuns(map[], runs[..n]), name)
            == match LastLander(runs, name, n)
               case Some(k) => Some(Whole(LandedAt(runs, k, name).value))
               case None => None
    decreases n
  {
    if n > 0 {
      StoredIsLastLanded(runs, name, n - 1);
      HistoryStep(runs, name, n - 1);
    }
  }

  lemma {:induction false} FindInPrefix(a: seq<Fragment>, b: seq<Fragment>, name: string)
    requires a <= b && FindFragment(a, name).Some?
    ensures FindFragment(b, name).Some?
    decreases |b|
  {
    if |a| < |b| && FinalName(b[|b| - 1]) != name { FindInPrefix(a, b[..|b| - 1], name); }
    if |a| == |b| { assert a == b; }
  }

  lemma {:induction false} FindIsMember(fs: seq<Fragment>, name: string) returns (i: nat)
    requires FindFragment(fs, name).Some?
    ensures i < |fs| && fs[i] == FindFragment(fs, name).value && FinalName(fs[i]) == name
  {
    if FinalName(fs[|fs| - 1]) == name { i := |fs| - 1; } else { i := FindIsMember(fs[..|fs| - 1], name); }
  }

  /** What a reader finds is the fold of that project's own cases in one run that covered it, the
      last one to land a fragment there: never a mixture of runs, never a stale one, and
      untouched by other projects. */
  lemma StoredIsOneRunsOwnCases(runs: seq<TestRun>, sha: string, p: string) returns (k: nat)
    requires RealPids(runs) && IsSha40(sha)
    requires FragmentName(sha, p) in AfterRuns(map[], runs)
    ensures k < |runs| && Covers(runs[k], p) && runs[k].sha == Some(sha)
    ensures AfterRuns(map[], runs)[FragmentName(sha, p)] == Whole(Tally(p, sha, Own(p, Items(runs[k].modules))))
    ensures LandedAt(runs, k, FragmentName(sha, p)).Some?
    ensures forall j :: k < j < |runs| ==> LandedAt(runs, j, FragmentName(sha, p)).None?
  {
    var name := FragmentName(sha, p);
    FragmentIsJson(sha, p);
    assert runs[..|runs|] == runs;
    StoredIsLastLanded(runs, name, |runs|);
    k := LastLander(runs, name, |runs|).value;
    LandedIsOwnFold(AfterRuns(map[], runs[..k]), runs[k], sha, p);
  }

  lemma LandedIsOwnFold(files: Files, run: TestRun, sha: string, p: string)
    requires IsSha40(sha) && FindFragment(LandedIn(files, run), FragmentName(sha, p)).Some?
    ensures Covers(run, p) && run.sha == Some(sha)
    ensures FindFragment(LandedIn(files, run), FragmentName(sha, p)).value == Tally(p, sha, Own(p, Items(run.modules)))
  {
    var name := FragmentName(sha, p);
    FindInPrefix(LandedIn(files, run), ToWrite(run), name);
    FindInRun(run, sha, p);
    var i := FindIsMember(LandedIn(files, run), name);
    SameNameSameFragment(run, sha, p, i);
    FragmentDependsOnOwnCases(p, sha, Items(run.modules));
  }

  /** Nothing is stored under a reader's name exactly when no run landed a fragment there. */
  lemma NothingStoredIffNoneLanded(runs: seq<TestRun>, name: string)
    requires RealPids(runs) && IsJson(name)
    ensures name !in AfterRuns(map[], runs) <==> forall j :: 0 <= j < |runs| ==> LandedAt(runs, j, name).None?
  {
    assert runs[..|runs|] == runs;
    StoredIsLastLanded(runs, name, |runs|);
  }

  lemma SameNameSameFragment(run: TestRun, sha: string, p: string, i: nat)
    requires IsSha40(sha) && i < |ToWrite(run)| && FinalName(ToWrite(run)[i]) == FragmentName(sha, p)
    ensures ToWrite(run)[i] == Tally(p, sha, Items(run.modules))
  {
    var q := RunProjects(run.modules, run.configured)[i];
    FragmentCounts(q, run.sha.value, Items(run.modules));
    NamesAreDistinct(run.sha.value, q, sha, p);
  }

  // ---------- runs that complete ----------

  predicate NoStaleTmp(files: Files, fs: seq<Fragment>, pid: string) {
    forall i :: 0 <= i < |fs| ==> TmpName(FinalName(fs[i]), pid) !in files
  }

  lemma {:induction false} UndisturbedWriteArrives(files: Files, fs: seq<Fragment>, pid: string)
    requires IsPid(pid) && NoStaleTmp(files, fs, pid) && (forall i :: 0 <= i < |fs| ==> IsJson(FinalName(fs[i])))
    ensures Arrived(files, fs, pid, []) == fs
    decreases |fs|
  {
    if fs != [] {
      var files' := files[FinalName(fs[0]) := Whole(fs[0])];
      forall i | 0 <= i < |fs[1..]| ensures TmpName(FinalName(fs[1..][i]), pid) !in files' {
        TmpIsNotJson(FinalName(fs[i + 1]), pid);
      }
      UndisturbedWriteArrives(files', fs[1..], pid);
    }
  }

  /** After an undisturbed run on a commit, each project it covers has exactly its fragment,
      and the other fragments are what they were. */
  lemma UndisturbedRunStores(files: Files, run: TestRun, sha: string, p: string)
    requires IsSha40(sha) && IsPid(run.pid) && run.outcomes == [] && NoStaleTmp(files, ToWrite(run), run.pid)
    ensures Lookup(AfterRun(files, run), FragmentName(sha, p))
            == if Covers(run, p) && run.sha == Some(sha) then Some(Whole(Tally(p, sha, Items(run.modules))))
               else Lookup(files, FragmentName(sha, p))
  {
    var fs := ToWrite(run);
    forall i | 0 <= i < |fs| ensures IsJson(FinalName(fs[i])) {
      FragmentIsJson(fs[i].sha, fs[i].project);
    }
    UndisturbedWriteArrives(files, fs, run.pid);
    FragmentIsJson(sha, p);
    ReadersSeeOldOrNew(files, fs, run.pid, [], FragmentName(sha, p));
    FindInRun(run, sha, p);
  }

  // ---------- histories of runs that complete ----------

  predicate Undisturbed(runs: seq<TestRun>) {
    RealPids(runs) && forall i :: 0 <= i < |runs| ==> runs[i].outcomes == []
  }

  /** Which runs are on the commit, cover the project and do not bail. */
  function Coverings(runs: seq<TestRun>, sha: string, p: string): (marks: seq<bool>)
    ensures |marks| == |runs|
    ensures forall j :: 0 <= j < |runs| ==> marks[j] == (Covers(runs[j], p) && runs[j].sha == Some(sha))
  {
    seq(|runs|, j requires 0 <= j < |runs| => Covers(runs[j], p) && runs[j].sha == Some(sha))
  }

  /** The last of them. */
  function LastCovering(runs: seq<TestRun>, sha: string, p: string): Option<nat> {
    LastTrue(Coverings(runs, sha, p), |runs|)
  }

  lemma {:induction false} LastTrueOfPrefix(marks: seq<bool>, front: seq<bool>, n: nat)
    requires n <= |front| <= |marks| && front == marks[..|front|]
    ensures LastTrue(marks, n) == LastTrue(front, n)
  {
    if n > 0 { LastTrueOfPrefix(marks, front, n - 1); }
  }

  lemma LastCoveringSnoc(runs: seq<TestRun>, n: nat, sha: string, p: string)
    requires |runs| == n + 1
    ensures LastCovering(runs, sha, p)
            == if Covers(runs[n], p) && runs[n].sha == Some(sha) then Some(n) else LastCovering(runs[..n], sha, p)
  {
    var marks, front := Coverings(runs, sha, p), Coverings(runs[..n], sha, p);
    assert front == marks[..n];
    LastTrueOfPrefix(marks, front, n);
  }

  ghost predicate OnlyJson(files: Files) { forall name :: name in files ==> IsJson(name) }

  lemma {:induction false} ArrivedLeavesOnlyJson(files: Files, fs: seq<Fragment>, pid: string)
    requires OnlyJson(files) && IsPid(pid)
    ensures OnlyJson(WriteAll(files, fs, pid, []))
    decreases |fs|
  {
    if fs != [] {
      TmpIsNotJson(FinalName(fs[0]), pid);
      FragmentIsJson(fs[0].sha, fs[0].project);
      ArrivedLeavesOnlyJson(files[FinalName(fs[0]) := Whole(fs[0])], fs[1..], pid);
    }
  }

  lemma {:induction false} HistoryLeavesOnlyJson(runs: seq<TestRun>)
    requires Undisturbed(runs)
    ensures OnlyJson(AfterRuns(map[], runs))
    decreases |runs|
  {
    if runs != [] {
      var n := |runs| - 1;
      HistoryLeavesOnlyJson(runs[..n]);
      ArrivedLeavesOnlyJson(AfterRuns(map[], runs[..n]), ToWrite(runs[n]), runs[n].pid);
    }
  }

  lemma NoTmpAmongJson(files: Files, fs: seq<Fragment>, pid: string)
    requires OnlyJson(files) && IsPid(pid)
    ensures NoStaleTmp(files, fs, pid)
  {
    forall i | 0 <= i < |fs| ensures TmpName(FinalName(fs[i]), pid) !in files { TmpIsNotJson(FinalName(fs[i]), pid); }
  }

  /** Over any history of undisturbed runs, what is stored for a commit and a project is the fold
      of the last run on that commit that covered the project and did not bail. */
  lemma {:induction false} StoredIsLastCoveringRun(runs: seq<TestRun>, sha: string, p: string)
    requires Undisturbed(runs) && IsSha40(sha)
    ensures Lookup(AfterRuns(map[], runs), FragmentName(sha, p))
            == match LastCovering(runs, sha, p)
               case Some(k) => Some(Whole(Tally(p, sha, Items(runs[k].modules))))
               case None => None
    decreases |runs|
  {
    if runs != [] {
      var n := |runs| - 1;
      var files := AfterRuns(map[], runs[..n]);
      HistoryLeavesOnlyJson(runs[..n]);
      NoTmpAmongJson(files, ToWrite(runs[n]), runs[n].pid);
      UndisturbedRunStores(files, runs[n], sha, p);
      StoredIsLastCoveringRun(runs[..n], sha, p);
      LastCoveringSnoc(runs, n, sha, p);
    }
  }

  // ---------- the directory and the reporter, updated in place ----------

  class EvidenceDir {
    var files: Files

    constructor ()
      ensures files == map[]
    {
      files := map[];
    }

    /** One turn of the loop; `ok` is false where it throws or dies. */
    method WriteFragment(f: Fragment, pid: string, outcome: Outcome) returns (ok: bool)
      modifies this
      ensures files == WriteOne(old(files), f, pid, outcome)
      ensures ok <==> Lands(old(files), f, pid, outcome)
    {
      var final := FinalName(f);
      var tmp := TmpName(final, pid);
      if tmp in files { return false; }          // created exclusively
      if outcome.DiedBefore? { return false; }
      files := files[tmp := Torn];
      if outcome.DiedTorn? { return false; }
      files := files[tmp := Whole(f)];
      if outcome.DiedUnrenamed? { return false; }
      var content := files[tmp];
      files := files - {tmp};
      assert files == old(files);
      if outcome.RenameRefused? { return false; }
      files := files[final := content];
      ok := true;
    }

    /** writeFragmentsAtomic. */
    method WriteFragments(fs: seq<Fragment>, pid: string, outcomes: seq<Outcome>)
      modifies this
      ensures files == WriteAll(old(files), fs, pid, outcomes)
    {
      var rest := outcomes;
      for k := 0 to |fs|
        invariant WriteAll(old(files), fs, pid, outcomes) == WriteAll(files, fs[k..], pid, rest)
      {
        assert fs[k..][1..] == fs[k + 1..];
        var ok := WriteFragment(fs[k], pid, OutcomeAt(rest));
        if !ok { return; }
        rest := RestOf(rest);
      }
    }
  }

  class Reporter {
    var watchMode: bool
    var configuredProjectNames: seq<string>

    constructor ()
      ensures !watchMode && configuredProjectNames == []
    {
      watchMode, configuredProjectNames := false, [];
    }

    /** Hook 1.  A project without a name counts as the blank name. */
    method OnInit(watch: bool, projects: Option<seq<Option<string>>>)
      modifies this
      ensures watchMode == watch
      ensures projects.None? ==> configuredProjectNames == old(configuredProjectNames)
      ensures projects.Some? ==> |configuredProjectNames| == |projects.value|
      ensures projects.Some? ==> forall i :: 0 <= i < |projects.value| ==>
        configuredProjectNames[i] == if projects.value[i].Some? then projects.value[i].value else ""
    {
      watchMode := watch;
      if projects.Some? {
        var ps := projects.value;
        configuredProjectNames :=
          seq(|ps|, i requires 0 <= i < |ps| => if ps[i].Some? then ps[i].value else "");
      }
    }

    /** Hook 2. */
    method OnTestRunEnd(dir: EvidenceDir, modules: seq<TestModule>, interrupted: bool, sha: Option<string>,
                        pid: string, outcomes: seq<Outcome>)
      modifies dir
      ensures dir.files == AfterRun(old(dir.files),
                TestRun(watchMode, interrupted, modules, configuredProjectNames, sha, pid, outcomes))
    {
      if watchMode { return; }
      if interrupted { return; }
      if modules == [] && configuredProjectNames == [] { return; }
      if sha.None? { return; }
      if !IsSha40(sha.value) { return; }
      var fragments := BuildFragments(modules, sha.value, configuredProjectNames);
      dir.WriteFragments(fragments, pid, outcomes);
    }
  }
}
