/** The pre-push gate: refuses a push whose tips lack passing evidence for every project of
    the manifest. */
module PrePushGate {
  import opened JsText
  import opened TestEvidence
  import opened EvidenceStore

  const NULL_SHA := seq(40, _ => '0')

  datatype PushLine = PushLine(localRef: string, localSha: string, remoteRef: string, remoteSha: string)

  // ---------- the pre-push protocol on stdin ----------

  /** The end of the word starting at i. */
  function WordEnd(s: string, i: nat): (r: nat)
    requires i <= |s|
    ensures i <= r <= |s|
    ensures forall p :: i <= p < r ==> !IsSpace(s[p])
    ensures r < |s| ==> IsSpace(s[r])
    decreases |s| - i
  {
    if i < |s| && !IsSpace(s[i]) then WordEnd(s, i + 1) else i
  }

  /** split(/\s+/) of a string that starts with a visible character. */
  function Words(s: string): seq<string>
    requires s != "" && !IsSpace(s[0])
    decreases |s|
  {
    var j := WordEnd(s, 0);
    if j == |s| then [s]
    else
      var k := SkipSpace(s, j);
      if k == |s| then [s[..j], ""] else [s[..j]] + Words(s[k..])
  }

  /** One raw line of stdin. */
  datatype Reading = Blank | Ref(line: PushLine) | Malformed(text: string)

  function ReadingOf(parts: seq<string>, t: string): Reading {
    if |parts| == 4 then Ref(PushLine(parts[0], parts[1], parts[2], parts[3])) else Malformed(t)
  }

  function ReadLine(raw: string): Reading {
    var t := Trim(raw);
    if t == "" then Blank else ReadingOf(Words(t), t)
  }

  datatype Parsed = Parsed(lines: seq<PushLine>, malformed: seq<string>)

  function Prepend(r: Reading, p: Parsed): Parsed {
    match r
    case Blank => p
    case Ref(line) => p.(lines := [line] + p.lines)
    case Malformed(text) => p.(malformed := [text] + p.malformed)
  }

  function Collect(read: string -> Reading, raw: seq<string>): Parsed {
    if raw == [] then Parsed([], []) else Prepend(read(raw[0]), Collect(read, raw[1..]))
  }

  function Parse(stdin: string): Parsed { Collect(ReadLine, Split(stdin, '\n')) }

  method CollectLines(read: string -> Reading, raw: seq<string>) returns (lines: seq<PushLine>, malformed: seq<string>)
    ensures Parsed(lines, malformed) == Collect(read, raw)
  {
    lines, malformed := [], [];
    for k := 0 to |raw|
      invariant Collect(read, raw).lines == lines + Collect(read, raw[k..]).lines
      invariant Collect(read, raw).malformed == malformed + Collect(read, raw[k..]).malformed
    {
      assert raw[k..][1..] == raw[k + 1..];
      match read(raw[k]) {
        case Blank =>
        case Ref(line) => lines := lines + [line];
        case Malformed(text) => malformed := malformed + [text];
      }
    }
  }

  method ParseStdin(stdin: string) returns (lines: seq<PushLine>, malformed: seq<string>)
    ensures Parsed(lines, malformed) == Parse(stdin)
  {
    lines, malformed := CollectLines(ReadLine, Split(stdin, '\n'));
  }

  // what git writes

  predicate IsWord(w: string) { w != "" && forall i :: 0 <= i < |w| ==> !IsSpace(w[i]) }

  predicate Fields(l: PushLine) {
    IsWord(l.localRef) && IsWord(l.localSha) && IsWord(l.remoteRef) && IsWord(l.remoteSha)
  }

  function Spaced(w: string, rest: string): string { w + (" " + rest) }

  function RenderLine(l: PushLine): string {
    Spaced(l.localRef, Spaced(l.localSha, Spaced(l.remoteRef, l.remoteSha)))
  }

  function Render(lines: seq<PushLine>): string {
    if lines == [] then "" else RenderLine(lines[0]) + ['\n'] + Render(lines[1..])
  }

  lemma WordEndAt(s: string, k: nat)
    requires k <= |s| && (k < |s| ==> IsSpace(s[k]))
    requires forall p :: 0 <= p < k ==> !IsSpace(s[p])
    ensures WordEnd(s, 0) == k
  {
  }

  lemma WordsOfWord(w: string)
    requires IsWord(w)
    ensures Words(w) == [w]
  {
    WordEndAt(w, |w|);
  }

  lemma WordsOfSpaced(w: string, rest: string)
    requires IsWord(w) && rest != "" && !IsSpace(rest[0])
    ensures Words(Spaced(w, rest)) == [w] + Words(rest)
  {
    var s := Spaced(w, rest);
    assert s[|w|] == ' ' && s[|w| + 1] == rest[0];
    WordEndAt(s, |w|);
    SkipSpaceAt(s, |w|, |w| + 1);
    assert s[..|w|] == w && s[|w| + 1..] == rest;
  }

  lemma SpacedIsTight(w: string, rest: string)
    requires IsWord(w) && Tight(rest)
    ensures Tight(Spaced(w, rest))
    ensures '\n' !in rest ==> '\n' !in Spaced(w, rest)
  {
    var s := Spaced(w, rest);
    assert s[|s| - 1] == rest[|rest| - 1] && s[0] == w[0];
  }

  ghost predicate SplitsAtSpaces(words: string -> seq<string>) {
    && (forall w :: IsWord(w) ==> words(w) == [w])
    && (forall w, rest :: IsWord(w) && Tight(rest) ==> words(Spaced(w, rest)) == [w] + words(rest))
  }

  lemma FourWords(words: string -> seq<string>, a: string, b: string, c: string, d: string)
    requires SplitsAtSpaces(words) && IsWord(a) && IsWord(b) && IsWord(c) && IsWord(d)
    ensures words(Spaced(a, Spaced(b, Spaced(c, d)))) == [a] + ([b] + ([c] + [d]))
    ensures Tight(Spaced(a, Spaced(b, Spaced(c, d))))
  {
    SpacedIsTight(c, d);
    SpacedIsTight(b, Spaced(c, d));
    SpacedIsTight(a, Spaced(b, Spaced(c, d)));
    assert words(d) == [d] && words(Spaced(c, d)) == [c] + words(d);
    assert words(Spaced(b, Spaced(c, d))) == [b] + words(Spaced(c, d));
  }

  /** Words of the strings it is used on. */
  function TightWords(s: string): seq<string> { if Tight(s) then Words(s) else [] }

  lemma TightWordsSplit()
    ensures SplitsAtSpaces(TightWords)
  {
    forall w | IsWord(w) ensures TightWords(w) == [w] { WordsOfWord(w); }
    forall w, rest | IsWord(w) && Tight(rest) ensures TightWords(Spaced(w, rest)) == [w] + TightWords(rest) {
      SpacedIsTight(w, rest);
      WordsOfSpaced(w, rest);
    }
  }

  lemma WordsOfLine(l: PushLine)
    requires Fields(l)
    ensures Tight(RenderLine(l))
    ensures Words(RenderLine(l)) == [l.localRef] + ([l.localSha] + ([l.remoteRef] + [l.remoteSha]))
  {
    TightWordsSplit();
    FourWords(TightWords, l.localRef, l.localSha, l.remoteRef, l.remoteSha);
  }

  lemma LineIsOneLine(l: PushLine)
    requires Fields(l)
    ensures '\n' !in RenderLine(l)
  {
  }

  lemma TightLineIsRead(t: string)
    requires Tight(t)
    ensures ReadLine(t) == ReadingOf(Words(t), t)
  {
    TrimOfTight("", t);
    assert "" + t == t;
  }

  lemma FourPartsAreARef(parts: seq<string>, l: PushLine, t: string)
    requires parts == [l.localRef] + ([l.localSha] + ([l.remoteRef] + [l.remoteSha]))
    ensures ReadingOf(parts, t) == Ref(l)
  {
  }

  lemma RenderedLineIsRead(l: PushLine)
    requires Fields(l)
    ensures ReadLine(RenderLine(l)) == Ref(l)
  {
    WordsOfLine(l);
    TightLineIsRead(RenderLine(l));
    FourPartsAreARef(Words(RenderLine(l)), l, RenderLine(l));
  }

  /** What git writes is read back, ref by ref. */
  lemma {:induction false} ParseOfRender(lines: seq<PushLine>)
    requires forall i :: 0 <= i < |lines| ==> Fields(lines[i])
    ensures Parse(Render(lines)) == Parsed(lines, [])
  {
    if lines == [] {
      assert Split("", '\n') == [""] && [""][1..] == [];
    } else {
      ParseOfRender(lines[1..]);
      RenderedLineIsRead(lines[0]);
      LineIsOneLine(lines[0]);
      var tail := Split(Render(lines[1..]), '\n');
      SplitOfCons(RenderLine(lines[0]), '\n', Render(lines[1..]));
      assert ([RenderLine(lines[0])] + tail)[1..] == tail;
      assert [lines[0]] + lines[1..] == lines;
    }
  }

  // what stops the gate

  /** Words with one blank between them are read back, however many there are. */
  lemma {:induction false} WordsOfJoined(words: string -> seq<string>, ws: seq<string>)
    requires SplitsAtSpaces(words) && ws != [] && forall i :: 0 <= i < |ws| ==> IsWord(ws[i])
    ensures Tight(Join(ws, ' ')) && words(Join(ws, ' ')) == ws
  {
    if |ws| == 1 {
      assert words(ws[0]) == [ws[0]];
    } else {
      WordsOfJoined(words, ws[1..]);
      OneMoreWord(words, ws[0], Join(ws[1..], ' '));
      assert Join(ws, ' ') == Spaced(ws[0], Join(ws[1..], ' ')) && ws == [ws[0]] + ws[1..];
    }
  }

  lemma OneMoreWord(words: string -> seq<string>, w: string, rest: string)
    requires SplitsAtSpaces(words) && IsWord(w) && Tight(rest)
    ensures Tight(Spaced(w, rest)) && words(Spaced(w, rest)) == [w] + words(rest)
  {
    SpacedIsTight(w, rest);
  }

  lemma JoinedIsRead(ws: seq<string>)
    requires ws != [] && |ws| != 4 && forall i :: 0 <= i < |ws| ==> IsWord(ws[i])
    ensures ReadLine(Join(ws, ' ')).Malformed?
  {
    TightWordsSplit();
    WordsOfJoined(TightWords, ws);
    TightLineIsRead(Join(ws, ' '));
  }

  lemma {:induction false} CollectKeepsMalformed(read: string -> Reading, raw: seq<string>, k: nat)
    requires k < |raw| && read(raw[k]).Malformed?
    ensures Collect(read, raw).malformed != []
  {
    if k > 0 { CollectKeepsMalformed(read, raw[1..], k - 1); }
  }

  // ---------- one commit ----------

  datatype Violation =
    | MissingProjects(sha: string, projects: seq<string>)
    | FragmentFailed(sha: string, project: string)
    | FragmentUnannotatedSkip(sha: string, project: string)
    | FragmentMalformed(sha: string, project: string)

  /** What one project's file contributes. */
  function FileViolations(files: Files, sha: string, project: string): seq<Violation> {
    match Lookup(files, FragmentName(sha, project))
    case None => []
    case Some(Torn) => [FragmentMalformed(sha, project)]
    case Some(Whole(f)) =>
      if f.exitCode != 0 || f.fail > 0 || f.failed then
        if f.unannotatedSkip > 0 then [FragmentFailed(sha, project), FragmentUnannotatedSkip(sha, project)]
        else [FragmentFailed(sha, project)]
      else if f.unannotatedSkip > 0 then [FragmentUnannotatedSkip(sha, project)]
      else []
  }

  predicate HasFile(files: Files, sha: string, project: string) { FragmentName(sha, project) in files }

  function Gather(of: string -> seq<Violation>, projects: seq<string>): seq<Violation> {
    if projects == [] then []
    else Gather(of, projects[..|projects| - 1]) + of(projects[|projects| - 1])
  }

  function Absent(has: string -> bool, projects: seq<string>): seq<string> {
    if projects == [] then []
    else
      var p, ps := projects[|projects| - 1], Absent(has, projects[..|projects| - 1]);
      if has(p) then ps else ps + [p]
  }

  function Missing(files: Files, sha: string, projects: seq<string>): seq<string> {
    Absent(p => HasFile(files, sha, p), projects)
  }

  function CommitViolations(files: Files, sha: string, projects: seq<string>): seq<Violation> {
    var vs, missing := Gather(p => FileViolations(files, sha, p), projects), Missing(files, sha, projects);
    if missing == [] then vs else vs + [MissingProjects(sha, missing)]
  }

  /** One turn of the loop over the manifest. */
  method ValidateProject(files: Files, sha: string, project: string) returns (violations: seq<Violation>, missing: bool)
    ensures violations == FileViolations(files, sha, project)
    ensures missing == !HasFile(files, sha, project)
    ensures FragmentMalformed(sha, project) in violations <==> !missing && files[FragmentName(sha, project)].Torn?
    ensures FragmentFailed(sha, project) in violations <==>
      !missing && var c := files[FragmentName(sha, project)];
      c.Whole? && (c.fragment.exitCode != 0 || c.fragment.fail > 0 || c.fragment.failed)
    ensures FragmentUnannotatedSkip(sha, project) in violations <==>
      !missing && var c := files[FragmentName(sha, project)]; c.Whole? && c.fragment.unannotatedSkip > 0
  {
    violations := [];
    var name := FragmentName(sha, project);
    if name !in files { return [], true; }
    missing := false;
    match files[name] {
      case Torn => violations := [FragmentMalformed(sha, project)];
      case Whole(f) =>
        if f.exitCode != 0 || f.fail > 0 || f.failed {
          violations := violations + [FragmentFailed(sha, project)];
        }
        if f.unannotatedSkip > 0 {
          violations := violations + [FragmentUnannotatedSkip(sha, project)];
        }
    }
  }

  method ValidateOneCommit(files: Files, sha: string, projects: seq<string>) returns (violations: seq<Violation>)
    ensures violations == CommitViolations(files, sha, projects)
  {
    ghost var of, has := p => FileViolations(files, sha, p), p => HasFile(files, sha, p);
    violations := [];
    var missing: seq<string> := [];
    for k := 0 to |projects|
      invariant violations == Gather(of, projects[..k]) && missing == Absent(has, projects[..k])
    {
      assert projects[..k + 1][..k] == projects[..k];
      var vs, absent := ValidateProject(files, sha, projects[k]);
      violations := violations + vs;
      if absent { missing := missing + [projects[k]]; }
    }
    assert projects[..|projects|] == projects;
    if missing != [] {
      violations := violations + [MissingProjects(sha, missing)];
    }
  }

  /** Passing evidence: a complete fragment without a failure or an unannotated skip. */
  predicate Passing(c: Option<Content>) {
    && c.Some? && c.value.Whole?
    && var f := c.value.fragment; f.exitCode == 0 && f.fail == 0 && !f.failed && f.unannotatedSkip == 0
  }

  ghost predicate TipPasses(files: Files, sha: string, projects: seq<string>) {
    forall i :: 0 <= i < |projects| ==> Passing(Lookup(files, FragmentName(sha, projects[i])))
  }

  lemma {:induction false} NothingGathered(of: string -> seq<Violation>, has: string -> bool, ps: seq<string>)
    ensures Gather(of, ps) == [] && Absent(has, ps) == [] <==>
            forall i :: 0 <= i < |ps| ==> of(ps[i]) == [] && has(ps[i])
  {
    if ps != [] { NothingGathered(of, has, ps[..|ps| - 1]); }
  }

  /** The projects named missing are those of the manifest without a file for the commit. */
  lemma {:induction false} MissingHaveNoFile(files: Files, sha: string, projects: seq<string>, p: string)
    ensures p in Missing(files, sha, projects) <==> p in projects && FragmentName(sha, p) !in files
  {
    AbsentAre(q => HasFile(files, sha, q), projects, p);
  }

  lemma {:induction false} AbsentAre(has: string -> bool, projects: seq<string>, p: string)
    ensures p in Absent(has, projects) <==> p in projects && !has(p)
  {
    if projects != [] {
      var n := |projects| - 1;
      AbsentAre(has, projects[..n], p);
      assert projects == projects[..n] + [projects[n]];
    }
  }

  lemma FilePassesIffSilent(files: Files, sha: string, p: string)
    ensures Passing(Lookup(files, FragmentName(sha, p)))
            <==> FileViolations(files, sha, p) == [] && HasFile(files, sha, p)
  {
  }

  lemma NoViolationsIffPassing(files: Files, sha: string, projects: seq<string>)
    ensures CommitViolations(files, sha, projects) == [] <==> TipPasses(files, sha, projects)
  {
    var of, has := p => FileViolations(files, sha, p), p => HasFile(files, sha, p);
    NothingGathered(of, has, projects);
    forall i | 0 <= i < |projects|
      ensures Passing(Lookup(files, FragmentName(sha, projects[i]))) <==> of(projects[i]) == [] && has(projects[i])
    {
      FilePassesIffSilent(files, sha, projects[i]);
    }
    assert CommitViolations(files, sha, projects) == [] <==> Gather(of, projects) == [] && Absent(has, projects) == [];
  }

  // ---------- the exit code ----------

  /** What `git rev-list <tip> --not --remotes` says of a tip. */
  datatype Probe = OnRemote | NewToRemotes | GitFailed

  /** The commits of one ref that need evidence: the tip or nothing; None where it throws. */
  function CommitsForRef(line: PushLine, probe: string -> Probe): Option<seq<string>> {
    if line.localSha == NULL_SHA then Some([])
    else if !IsSha40(line.localSha) then None
    else
      match probe(line.localSha)
      case GitFailed => None
      case OnRemote => Some([])
      case NewToRemotes => Some([line.localSha])
  }

  /** A ref that stops the push. */
  ghost predicate Refused(line: PushLine, files: Files, projects: seq<string>, probe: string -> Probe) {
    match CommitsForRef(line, probe)
    case None => true
    case Some(shas) => exists i :: 0 <= i < |shas| && !TipPasses(files, shas[i], projects)
  }

  /** The promised exit code: a CI runner is waved through, a missing manifest is an internal
      error, and otherwise the push goes through exactly when stdin is well formed and no
      ref in it is refused. */
  ghost function ExitCode(ci: bool, manifest: Option<seq<string>>, stdin: string, files: Files, probe: string -> Probe): nat {
    if ci then 0
    else if manifest.None? || manifest.value == [] then 2
    else
      var p := Parse(stdin);
      if p.malformed != [] then 1
      else if exists l :: l in p.lines && Refused(l, files, manifest.value, probe) then 1
      else 0
  }

  /** A line of any number of words but four stops the push, whatever else is on stdin. */
  lemma WrongWordCountStopsPush(stdin: string, k: nat, ws: seq<string>, projects: seq<string>, files: Files,
                                probe: string -> Probe)
    requires var raw := Split(stdin, '\n'); k < |raw| && raw[k] == Join(ws, ' ')
    requires ws != [] && |ws| != 4 && forall i :: 0 <= i < |ws| ==> IsWord(ws[i])
    requires projects != []
    ensures ExitCode(false, Some(projects), stdin, files, probe) == 1
  {
    JoinedIsRead(ws);
    CollectKeepsMalformed(ReadLine, Split(stdin, '\n'), k);
  }

  /** Git writes forty zeros for a ref that is deleted. */
  predicate AllZeros(sha: string) { |sha| == 40 && forall i :: 0 <= i < 40 ==> sha[i] == '0' }

  lemma NullShaIsZeros(sha: string)
    ensures sha == NULL_SHA <==> AllZeros(sha)
  {
  }

  lemma UnreadableTipIsRefused(line: PushLine, files: Files, projects: seq<string>, probe: string -> Probe)
    requires !AllZeros(line.localSha) && (!IsSha40(line.localSha) || probe(line.localSha).GitFailed?)
    ensures Refused(line, files, projects, probe)
  {
    NullShaIsZeros(line.localSha);
  }

  lemma RefusedRefStopsPush(p: Parsed, l: PushLine, projects: seq<string>, stdin: string, files: Files,
                            probe: string -> Probe)
    requires p == Parse(stdin) && l in p.lines && Refused(l, files, projects, probe) && projects != []
    ensures ExitCode(false, Some(projects), stdin, files, probe) == 1
  {
  }

  /** So does a ref whose tip is not a commit id or cannot be probed, unless the ref is deleted. */
  lemma UnreadableTipStopsPush(lines: seq<PushLine>, k: nat, projects: seq<string>, files: Files, probe: string -> Probe)
    requires k < |lines| && forall i :: 0 <= i < |lines| ==> Fields(lines[i])
    requires var sha := lines[k].localSha; !AllZeros(sha) && (!IsSha40(sha) || probe(sha).GitFailed?)
    requires projects != []
    ensures ExitCode(false, Some(projects), Render(lines), files, probe) == 1
  {
    ParseOfRender(lines);
    UnreadableTipIsRefused(lines[k], files, projects, probe);
    RefusedRefStopsPush(Parsed(lines, []), lines[k], projects, Render(lines), files, probe);
  }

  method RunMain(ci: bool, manifest: Option<seq<string>>, stdin: string, files: Files, probe: string -> Probe)
    returns (code: nat)
    ensures code == ExitCode(ci, manifest, stdin, files, probe)
    ensures ci ==> code == 0
    ensures code == 2 <==> !ci && (manifest.None? || manifest.value == [])
  {
    if ci { return 0; }
    if manifest.None? { return 2; }
    var projects := manifest.value;
    if projects == [] { return 2; }
    var lines, malformed := ParseStdin(stdin);
    assert Parse(stdin) == Parsed(lines, malformed);
    if malformed != [] { return 1; }
    if lines == [] { return 0; }
    code := DecideRefs(lines, projects, files, probe);
  }

  /** The loop over the refs: a malformed sha ends it at once, violations add up. */
  method DecideRefs(lines: seq<PushLine>, projects: seq<string>, files: Files, probe: string -> Probe) returns (code: nat)
    ensures code == if exists l :: l in lines && Refused(l, files, projects, probe) then 1 else 0
  {
    var allViolations: seq<Violation> := [];
    for k := 0 to |lines|
      invariant allViolations == [] <==> forall i :: 0 <= i < k ==> !Refused(lines[i], files, projects, probe)
    {
      var shas := CommitsForRef(lines[k], probe);
      if shas.None? {
        assert Refused(lines[k], files, projects, probe);
        return 1;
      }
      if shas.value != [] {
        assert shas.value == [lines[k].localSha];
        var violations := ValidateOneCommit(files, lines[k].localSha, projects);
        NoViolationsIffPassing(files, lines[k].localSha, projects);
        assert Refused(lines[k], files, projects, probe) <==> violations != [] by {
          assert shas.value[0] == lines[k].localSha;
        }
        allViolations := allViolations + violations;
      }
    }
    code := if allViolations == [] then 0 else 1;
  }

  /** The order in which git lists the refs does not matter. */
  lemma RefOrderDoesNotMatter(lines1: seq<PushLine>, lines2: seq<PushLine>, manifest: Option<seq<string>>, files: Files, probe: string -> Probe)
    requires multiset(lines1) == multiset(lines2)
    requires forall i :: 0 <= i < |lines1| ==> Fields(lines1[i])
    requires forall i :: 0 <= i < |lines2| ==> Fields(lines2[i])
    ensures ExitCode(false, manifest, Render(lines1), files, probe) == ExitCode(false, manifest, Render(lines2), files, probe)
  {
    ParseOfRender(lines1);
    ParseOfRender(lines2);
    forall l ensures l in lines1 <==> l in lines2 {
      assert l in multiset(lines1) <==> l in multiset(lines2);
    }
  }

  /** For a push of any number of refs with well-formed tips, 0 means that every tip new to the
      remotes has passing evidence for every project. */
  lemma PushAllowedIffEveryTipPasses(lines: seq<PushLine>, projects: seq<string>, files: Files, probe: string -> Probe)
    requires projects != []
    requires forall i :: 0 <= i < |lines| ==>
      Fields(lines[i]) && IsSha40(lines[i].localSha) && !probe(lines[i].localSha).GitFailed?
    ensures ExitCode(false, Some(projects), Render(lines), files, probe) == 0 <==>
      forall i :: 0 <= i < |lines| && lines[i].localSha != NULL_SHA && probe(lines[i].localSha).NewToRemotes?
        ==> TipPasses(files, lines[i].localSha, projects)
  {
    ParseOfRender(lines);
    forall i | 0 <= i < |lines|
      ensures Refused(lines[i], files, projects, probe) <==>
        (lines[i].localSha != NULL_SHA && probe(lines[i].localSha).NewToRemotes?
         && !TipPasses(files, lines[i].localSha, projects))
    {
      OneTip(lines[i], files, projects, probe);
    }
  }

  lemma OneTip(line: PushLine, files: Files, projects: seq<string>, probe: string -> Probe)
    requires IsSha40(line.localSha) && !probe(line.localSha).GitFailed?
    ensures Refused(line, files, projects, probe) <==>
      (line.localSha != NULL_SHA && probe(line.localSha).NewToRemotes? && !TipPasses(files, line.localSha, projects))
  {
    if line.localSha != NULL_SHA && probe(line.localSha).NewToRemotes? {
      assert CommitsForRef(line, probe) == Some([line.localSha]);
      assert [line.localSha][0] == line.localSha;
    }
  }

  // ---------- from the run to the gate ----------

  /** The cases of one project that the gate will not let through. */
  predicate Blocks(item: Item) { FailedCase(item) || UnannotatedSkip(item) }

  lemma {:induction false} NothingCountedIffNone(p: string, items: seq<Item>, q: Item -> bool)
    ensures CountWhere(p, items, q) == 0 <==>
            forall i :: 0 <= i < |items| && items[i].test.project == p ==> !q(items[i])
  {
    if items != [] { NothingCountedIffNone(p, items[..|items| - 1], q); }
  }

  ghost predicate NothingBlocks(p: string, items: seq<Item>) {
    forall j :: 0 <= j < |items| && items[j].test.project == p ==> !Blocks(items[j])
  }

  /** A run on a new tip that covers every manifest project and writes its fragments
      undisturbed lets that tip be pushed exactly when no manifest project had a failed case
      or a per-call skip without an annotation. */
  lemma RunDecidesPush(before: Files, run: TestRun, line: PushLine, projects: seq<string>, probe: string -> Probe)
    requires IsPid(run.pid) && run.outcomes == [] && NoStaleTmp(before, ToWrite(run), run.pid)
    requires Fields(line) && IsSha40(line.localSha) && line.localSha != NULL_SHA
    requires run.sha == Some(line.localSha) && probe(line.localSha).NewToRemotes?
    requires projects != [] && forall i :: 0 <= i < |projects| ==> Covers(run, projects[i])
    ensures ExitCode(false, Some(projects), Render([line]), AfterRun(before, run), probe) == 0 <==>
      forall i :: 0 <= i < |projects| ==> NothingBlocks(projects[i], Items(run.modules))
  {
    var files, items, sha := AfterRun(before, run), Items(run.modules), line.localSha;
    OneRefAllowedIffTipPasses(line, projects, files, probe);
    forall i | 0 <= i < |projects|
      ensures Passing(Lookup(files, FragmentName(sha, projects[i]))) <==> NothingBlocks(projects[i], items)
    {
      UndisturbedRunStores(before, run, sha, projects[i]);
      PassingMeansNothingBlocks(projects[i], sha, items);
    }
  }

  /** The last run on the commit that covered the project, and nothing in it blocks. */
  ghost predicate LastRunPasses(runs: seq<TestRun>, sha: string, p: string) {
    LastCovering(runs, sha, p).Some? && NothingBlocks(p, Items(runs[LastCovering(runs, sha, p).value].modules))
  }

  lemma StoredPassesIff(runs: seq<TestRun>, sha: string, p: string)
    requires Undisturbed(runs) && IsSha40(sha)
    ensures Passing(Lookup(AfterRuns(map[], runs), FragmentName(sha, p))) <==> LastRunPasses(runs, sha, p)
  {
    StoredIsLastCoveringRun(runs, sha, p);
    var k := LastCovering(runs, sha, p);
    if k.Some? { PassingMeansNothingBlocks(p, sha, Items(runs[k.value].modules)); }
  }

  /** Over any history of undisturbed runs, on whatever commits and projects, a new tip may be
      pushed exactly when every manifest project was covered on it and its last covering run had
      neither a failed case nor a per-call skip without an annotation. */
  lemma HistoryDecidesPush(runs: seq<TestRun>, line: PushLine, projects: seq<string>, probe: string -> Probe)
    requires Undisturbed(runs) && projects != []
    requires Fields(line) && IsSha40(line.localSha) && line.localSha != NULL_SHA
    requires probe(line.localSha).NewToRemotes?
    ensures ExitCode(false, Some(projects), Render([line]), AfterRuns(map[], runs), probe) == 0 <==>
      forall i :: 0 <= i < |projects| ==> LastRunPasses(runs, line.localSha, projects[i])
  {
    var files, sha := AfterRuns(map[], runs), line.localSha;
    OneRefAllowedIffTipPasses(line, projects, files, probe);
    forall i | 0 <= i < |projects|
      ensures Passing(Lookup(files, FragmentName(sha, projects[i]))) <==> LastRunPasses(runs, sha, projects[i])
    {
      StoredPassesIff(runs, sha, projects[i]);
    }
  }

  /** The last run to land the project's fragment for the commit, and nothing in it blocks. */
  ghost predicate LastLandedPasses(runs: seq<TestRun>, sha: string, p: string) {
    var k := LastLander(runs, FragmentName(sha, p), |runs|);
    k.Some? && NothingBlocks(p, Items(runs[k.value].modules))
  }

  lemma LandedPassesIff(runs: seq<TestRun>, sha: string, p: string)
    requires RealPids(runs) && IsSha40(sha)
    ensures Passing(Lookup(AfterRuns(map[], runs), FragmentName(sha, p))) <==> LastLandedPasses(runs, sha, p)
  {
    var name := FragmentName(sha, p);
    FragmentIsJson(sha, p);
    assert runs[..|runs|] == runs;
    StoredIsLastLanded(runs, name, |runs|);
    var k := LastLander(runs, name, |runs|);
    if k.Some? {
      var items := Items(runs[k.value].modules);
      LandedIsOwnFold(AfterRuns(map[], runs[..k.value]), runs[k.value], sha, p);
      FragmentDependsOnOwnCases(p, sha, items);
      PassingMeansNothingBlocks(p, sha, items);
    }
  }

  /** Over any history, with writes cut short anywhere, what decides about a project is the last
      run that landed its fragment for the tip, whatever came after it. */
  lemma AnyHistoryDecidesPush(runs: seq<TestRun>, line: PushLine, projects: seq<string>, probe: string -> Probe)
    requires RealPids(runs) && projects != []
    requires Fields(line) && IsSha40(line.localSha) && line.localSha != NULL_SHA
    requires probe(line.localSha).NewToRemotes?
    ensures ExitCode(false, Some(projects), Render([line]), AfterRuns(map[], runs), probe) == 0 <==>
      forall i :: 0 <= i < |projects| ==> LastLandedPasses(runs, line.localSha, projects[i])
  {
    var files, sha := AfterRuns(map[], runs), line.localSha;
    OneRefAllowedIffTipPasses(line, projects, files, probe);
    forall i | 0 <= i < |projects|
      ensures Passing(Lookup(files, FragmentName(sha, projects[i]))) <==> LastLandedPasses(runs, sha, projects[i])
    {
      LandedPassesIff(runs, sha, projects[i]);
    }
  }

  /** So a run that bails, however many of its cases failed, leaves the gate with the verdict of
      the runs before it. */
  lemma BailedRunChangesNothing(runs: seq<TestRun>, last: TestRun, ci: bool, manifest: Option<seq<string>>,
                                stdin: string, probe: string -> Probe)
    requires Bails(last)
    ensures ExitCode(ci, manifest, stdin, AfterRuns(map[], runs + [last]), probe)
            == ExitCode(ci, manifest, stdin, AfterRuns(map[], runs), probe)
  {
    assert (runs + [last])[..|runs|] == runs;
  }

  lemma OneRefAllowedIffTipPasses(line: PushLine, projects: seq<string>, files: Files, probe: string -> Probe)
    requires projects != [] && Fields(line) && IsSha40(line.localSha) && line.localSha != NULL_SHA
    requires probe(line.localSha).NewToRemotes?
    ensures ExitCode(false, Some(projects), Render([line]), files, probe) == 0 <==> TipPasses(files, line.localSha, projects)
  {
    PushAllowedIffEveryTipPasses([line], projects, files, probe);
    assert [line][0] == line;
  }

  lemma PassingMeansNothingBlocks(p: string, sha: string, items: seq<Item>)
    ensures Passing(Some(Whole(Tally(p, sha, items)))) <==> NothingBlocks(p, items)
  {
    FragmentIsConsistent(p, sha, items);
    FragmentCounts(p, sha, items);
    NothingCountedIffNone(p, items, FailedCase);
    NothingCountedIffNone(p, items, UnannotatedSkip);
  }
}
