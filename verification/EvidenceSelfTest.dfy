/** The self-test of the evidence pipeline: reads the directory listing back into project
    names and compares them with the manifest. */
module EvidenceSelfTest {
  import opened JsText
  import opened PercentEncoding
  import opened TestEvidence
  import opened EvidenceStore
  import opened PrePushGate

  function FoundFrom(entries: seq<string>, headSha: string): seq<string> {
    if entries == [] then []
    else
      var tail := FoundFrom(entries[1..], headSha);
      match ProjectOfEntry(entries[0], headSha)
      case Some(p) => [p] + tail
      case None => tail
  }

  method FindFragmentProjects(entries: seq<string>, headSha: string) returns (found: seq<string>)
    ensures found == FoundFrom(entries, headSha)
  {
    found := [];
    for k := 0 to |entries|
      invariant FoundFrom(entries, headSha) == found + FoundFrom(entries[k..], headSha)
    {
      assert entries[k..][1..] == entries[k + 1..];
      var p := ProjectOfEntry(entries[k], headSha);
      if p.Some? { found := found + [p.value]; }
    }
    assert entries[|entries|..] == [] && found + [] == found;
  }

  lemma {:induction false} FoundMeansEntry(entries: seq<string>, headSha: string, p: string)
    ensures p in FoundFrom(entries, headSha) <==>
            exists k :: 0 <= k < |entries| && ProjectOfEntry(entries[k], headSha) == Some(p)
  {
    if entries != [] {
      FoundMeansEntry(entries[1..], headSha, p);
      if k :| 0 <= k < |entries| && ProjectOfEntry(entries[k], headSha) == Some(p) {
        if k > 0 { assert entries[1..][k - 1] == entries[k]; }
      }
      if k :| 0 <= k < |entries[1..]| && ProjectOfEntry(entries[1..][k], headSha) == Some(p) {
        assert entries[k + 1] == entries[1..][k];
      }
    }
  }

  datatype SelfTestOutcome = SelfTestOutcome(exitCode: nat, missing: seq<string>, found: seq<string>)

  function Without(ps: seq<string>, found: seq<string>): seq<string> {
    if ps == [] then []
    else
      var tail := Without(ps[1..], found);
      if ps[0] in found then tail else [ps[0]] + tail
  }

  /** runSelfTest; `manifest` is None where it cannot be loaded. */
  method RunSelfTest(testAllExitCode: int, manifest: Option<seq<string>>, entries: seq<string>, headSha: string)
    returns (outcome: SelfTestOutcome)
    ensures outcome.exitCode == 0 <==>
      manifest.Some? && testAllExitCode == 0
      && forall i :: 0 <= i < |manifest.value| ==> manifest.value[i] in FoundFrom(entries, headSha)
    ensures outcome.exitCode == 2 <==> manifest.None?
    ensures outcome.exitCode <= 2
    ensures manifest.Some? ==> outcome.missing == Without(manifest.value, FoundFrom(entries, headSha))
    ensures manifest.Some? ==> outcome.found == FoundFrom(entries, headSha)
  {
    if manifest.None? { return SelfTestOutcome(2, [], []); }
    var projects := manifest.value;
    var found := FindFragmentProjects(entries, headSha);
    var missing := Without(projects, found);
    WithoutIsEmptyIffAllFound(projects, found);
    if missing != [] { return SelfTestOutcome(1, missing, found); }
    if testAllExitCode != 0 { return SelfTestOutcome(1, [], found); }
    outcome := SelfTestOutcome(0, [], found);
  }

  lemma {:induction false} WithoutAre(ps: seq<string>, found: seq<string>, p: string)
    ensures p in Without(ps, found) <==> p in ps && p !in found
  {
    if ps != [] {
      WithoutAre(ps[1..], found, p);
      assert ps == [ps[0]] + ps[1..];
    }
  }

  lemma {:induction false} WithoutIsEmptyIffAllFound(ps: seq<string>, found: seq<string>)
    ensures Without(ps, found) == [] <==> forall i :: 0 <= i < |ps| ==> ps[i] in found
  {
    if ps != [] {
      WithoutIsEmptyIffAllFound(ps[1..], found);
      if forall i :: 0 <= i < |ps| ==> ps[i] in found {
        assert ps[0] in found;
        forall i | 0 <= i < |ps[1..]| ensures ps[1..][i] in found { assert ps[1..][i] == ps[i + 1]; }
      }
      if ps[0] in found && forall i :: 0 <= i < |ps[1..]| ==> ps[1..][i] in found {
        forall i | 0 <= i < |ps| ensures ps[i] in found { if i > 0 { assert ps[i] == ps[1..][i - 1]; } }
      }
    }
  }

  // ---------- the listing and the gate agree ----------

  /** Every fragment file a history of runs leaves has the name the reporter gave it. */
  lemma {:induction false} FragmentFilesAreNamed(runs: seq<TestRun>, name: string) returns (sha: string, p: string)
    requires RealPids(runs) && IsJson(name) && name in AfterRuns(map[], runs)
    ensures IsSha40(sha) && name == FragmentName(sha, p)
  {
    var earlier, run := runs[..|runs| - 1], runs[|runs| - 1];
    var files := AfterRuns(map[], earlier);
    ReadersSeeOldOrNew(files, ToWrite(run), run.pid, run.outcomes, name);
    var landed := LandedIn(files, run);
    if FindFragment(landed, name).Some? {
      var i := FindIsMember(landed, name);
      var f := ToWrite(run)[i];
      FragmentCounts(RunProjects(run.modules, run.configured)[i], run.sha.value, Items(run.modules));
      sha, p := f.sha, f.project;
    } else {
      sha, p := FragmentFilesAreNamed(earlier, name);
    }
  }

  ghost predicate Lists(entries: seq<string>, files: Files) {
    forall name :: name in entries <==> name in files
  }

  /** Reading the directory back gives exactly the projects with a fragment for the commit:
      temporary files and the fragments of other commits are not taken for one. */
  lemma ListingReadsBackProjects(runs: seq<TestRun>, entries: seq<string>, sha: string, p: string)
    requires RealPids(runs) && IsSha40(sha) && Lists(entries, AfterRuns(map[], runs))
    ensures p in FoundFrom(entries, sha) <==> HasFile(AfterRuns(map[], runs), sha, p)
  {
    var files := AfterRuns(map[], runs);
    FoundMeansEntry(entries, sha, p);
    if k :| 0 <= k < |entries| && ProjectOfEntry(entries[k], sha) == Some(p) {
      var name := entries[k];
      assert name in entries;
      var sha', p' := FragmentFilesAreNamed(runs, name);
      if sha' != sha { OtherShaIsNotRead(sha, sha', p'); }
      FragmentNameIsRead(sha, p');
    }
    if HasFile(files, sha, p) {
      var name := FragmentName(sha, p);
      assert name in entries;
      var k :| 0 <= k < |entries| && entries[k] == name;
      FragmentNameIsRead(sha, p);
    }
  }

  /** A self-test that passes leaves the gate no missing project to report. */
  lemma SelfTestSparesMissingProjects(runs: seq<TestRun>, entries: seq<string>, sha: string, projects: seq<string>)
    requires RealPids(runs) && IsSha40(sha) && Lists(entries, AfterRuns(map[], runs))
    requires Without(projects, FoundFrom(entries, sha)) == []
    ensures Missing(AfterRuns(map[], runs), sha, projects) == []
  {
    WithoutIsEmptyIffAllFound(projects, FoundFrom(entries, sha));
    NothingMissing(runs, entries, sha, projects);
  }

  lemma {:induction false} NothingMissing(runs: seq<TestRun>, entries: seq<string>, sha: string, projects: seq<string>)
    requires RealPids(runs) && IsSha40(sha) && Lists(entries, AfterRuns(map[], runs))
    requires forall i :: 0 <= i < |projects| ==> projects[i] in FoundFrom(entries, sha)
    ensures Missing(AfterRuns(map[], runs), sha, projects) == []
  {
    if projects != [] {
      ListingReadsBackProjects(runs, entries, sha, projects[|projects| - 1]);
      NothingMissing(runs, entries, sha, projects[..|projects| - 1]);
    }
  }

  /** "%61" */
  predicate IsForeignCode(s: string) { |s| == 3 && s[0] == '%' && s[1] == '6' && s[2] == '1' }

  lemma ForeignCodeDecodes(s: string, a: string)
    requires IsForeignCode(s) && |a| == 1 && a[0] == 'a'
    ensures Decode(s) == Some(a) && Encode(a) == a
  {
    assert ReadEscape(s, 0) == Some(0x61);
    assert DecodeStep(s) == Some(Step('a', 3));
    var rest := s[3..];
    assert rest == "" && Decode(rest) == Some("");
    assert ['a'] + "" == a;
    assert EncodeChar(a[0]) == [a[0]] == a && a[1..] == "" && Encode(a[1..]) == "";
  }

  /** A file the reporter would not have named so is taken for a project's fragment, yet the gate
      looks for another name: reading back is exact only for what the reporter wrote. */
  lemma ForeignNameIsRead(sha: string, code: string, a: string)
    requires IsForeignCode(code) && a == ['a']
    ensures var name := sha + ("-" + (code + ".json"));
            ProjectOfEntry(name, sha) == Some(a) && name != FragmentName(sha, a)
  {
    ForeignCodeDecodes(code, a);
    EncodedPartIsRead(sha, code, a);
    assert |sha + ("-" + (code + ".json"))| != |FragmentName(sha, a)|;
  }
}
