/** The test-layout codemod: where a co-located test moves, and how its relative imports are
    rewritten so that they keep pointing at the same files. */
module MigrateTests {
  import opened JsText
  import opened PosixPath

  // ---------- import specifiers ----------

  /** One specifier of a file moving from oldDir to newDir. */
  function Rewrite(spec: string, oldDir: Dir, newDir: Dir): string {
    if !StartsWith(spec, ".") then spec
    else
      var next := Relative(newDir, Resolve(oldDir, spec));
      if StartsWith(next, ".") then next else "./" + next
  }

  lemma {:induction false} RelativeSegsAreSegs(from: Dir, to: Dir)
    requires Normal(to)
    ensures forall i :: 0 <= i < |RelativeSegs(from, to)| ==> '/' !in RelativeSegs(from, to)[i]
  {
  }

  lemma RelativeSplits(from: Dir, to: Dir)
    requires Normal(to)
    ensures var r := Relative(from, to);
      && (RelativeSegs(from, to) != [] ==> Split(r, '/') == RelativeSegs(from, to))
      && Split("./" + r, '/') == ["."] + (if RelativeSegs(from, to) == [] then [""] else RelativeSegs(from, to))
  {
    var segs, r := RelativeSegs(from, to), Relative(from, to);
    RelativeSegsAreSegs(from, to);
    if segs != [] { SplitOfJoin(segs, '/'); } else { assert Split("", '/') == [""]; }
    SplitOfCons(".", '/', r);
    assert "." + ['/'] + r == "./" + r;
  }

  /** The rewritten specifier, or "./" in front of it, leads from newDir to the target. */
  lemma RelativeResolves(newDir: Dir, target: Dir)
    requires Normal(newDir) && Normal(target)
    ensures Resolve(newDir, "./" + Relative(newDir, target)) == target
    ensures StartsWith(Relative(newDir, target), ".") ==> Resolve(newDir, Relative(newDir, target)) == target
  {
    var segs := RelativeSegs(newDir, target);
    RelativeSplits(newDir, target);
    RelativeArrives(newDir, target);
    var tail := if segs == [] then [""] else segs;
    WalkAppend(newDir, ["."], tail);
    assert ["."][..0] == [] && Walk(newDir, ["."]) == newDir;
    if segs == [] {
      assert [""][..0] == [] && Walk(newDir, [""]) == newDir;
    }
  }

  /** Meaning is preserved: from its new place a moved test imports what it imported before. */
  lemma RewritePreservesTarget(spec: string, oldDir: Dir, newDir: Dir)
    requires StartsWith(spec, ".") && Normal(oldDir) && Normal(newDir)
    ensures Resolve(newDir, Rewrite(spec, oldDir, newDir)) == Resolve(oldDir, spec)
    ensures StartsWith(Rewrite(spec, oldDir, newDir), ".")
  {
    ResolveIsNormal(oldDir, spec);
    RelativeResolves(newDir, Resolve(oldDir, spec));
  }

  /** Moving twice is moving once, to the letter. */
  lemma RewritesCompose(spec: string, a: Dir, b: Dir, c: Dir)
    requires Normal(a) && Normal(b) && Normal(c)
    ensures Rewrite(Rewrite(spec, a, b), b, c) == Rewrite(spec, a, c)
  {
    if StartsWith(spec, ".") { RewritePreservesTarget(spec, a, b); }
  }

  /** What Node takes for a relative specifier; anything else is a package name. */
  predicate IsRelativeSpec(spec: string) {
    spec == "." || spec == ".." || StartsWith(spec, "./") || StartsWith(spec, "../")
  }

  /** The target lies below dir and is reached through a hidden file or directory. */
  predicate HiddenBelow(dir: Dir, target: Dir) {
    |dir| < |target| && target[..|dir|] == dir && StartsWith(target[|dir|], ".")
  }

  /** The rewritten specifier is a relative one exactly when the target is not hidden right
      below the new directory: there the code takes the leading dot of ".name" for "./". */
  lemma RewrittenIsRelativeUnlessHidden(spec: string, oldDir: Dir, newDir: Dir)
    requires StartsWith(spec, ".") && Normal(oldDir) && Normal(newDir)
    ensures IsRelativeSpec(Rewrite(spec, oldDir, newDir)) <==> !HiddenBelow(newDir, Resolve(oldDir, spec))
  {
    var to := Resolve(oldDir, spec);
    ResolveIsNormal(oldDir, spec);
    var n, segs, r := Common(newDir, to), RelativeSegs(newDir, to), Relative(newDir, to);
    if n < |newDir| {
      assert segs[0] == "..";
      JoinStartsWithHead(segs);
      assert |newDir| < |to| ==> to[..|newDir|][n] == to[n];
      if |segs| > 1 { assert r[..3] == "../"; }
    } else if segs == [] {
    } else {
      assert segs[0] == to[n] && Plain(to[n]);
      JoinStartsWithHead(segs);
      assert newDir == newDir[..n];
      HeadDecides(segs, r);
    }
  }

  lemma ResolveOfSibling(dir: Dir, name: string)
    requires Plain(name)
    ensures Resolve(dir, "./" + name) == dir + [name]
  {
    SplitOfCons(".", '/', name);
    SplitOfPart(name, '/');
    assert "." + ['/'] + name == "./" + name;
    var segs := Split("./" + name, '/');
    assert segs == ["."] + [name] && segs[..1] == ["."] && segs[..1][..0] == [];
    assert Walk(dir, segs[..1]) == dir;
  }

  /** A test that stays in its directory loses the "./" of its import of a hidden file there. */
  lemma HiddenSiblingMisread()
    ensures !IsRelativeSpec(Rewrite("./.env", ["a"], ["a"]))
  {
    var name := ".env";
    assert name[0] == '.' && name[1] == 'e';
    ResolveOfSibling(["a"], name);
    assert "./" + name == "./.env";
    assert ["a"] + [name] == ["a", name] && (["a"] + [name])[..1] == ["a"];
    RewrittenIsRelativeUnlessHidden("./.env", ["a"], ["a"]);
  }

  lemma JoinStartsWithHead(segs: seq<string>)
    requires segs != []
    ensures segs[0] <= Join(segs, '/')
    ensures |segs| > 1 ==> segs[0] + ['/'] <= Join(segs, '/')
  {
  }

  lemma PrefixChars(r: string)
    ensures StartsWith(r, "./") ==> |r| >= 2 && r[1] == '/'
    ensures StartsWith(r, "../") ==> |r| >= 3 && r[1] == '.' && r[2] == '/'
  {
  }

  lemma HeadDecides(segs: seq<string>, r: string)
    requires segs != [] && Plain(segs[0]) && r == Join(segs, '/')
    ensures StartsWith(r, ".") <==> StartsWith(segs[0], ".")
    ensures StartsWith(r, ".") ==> !IsRelativeSpec(r)
  {
    var h := segs[0];
    JoinStartsWithHead(segs);
    PrefixChars(r);
    assert forall i :: 0 <= i < |h| ==> h[i] == r[i];
    assert |h| == 1 ==> h == [h[0]];
    assert |h| == 2 ==> h == [h[0], h[1]];
  }

  // ---------- the rewriting loop ----------

  /** The specifiers of a file's import and export declarations; an export without a
      specifier re-exports nothing. */
  class TestFile {
    var imports: seq<string>
    var exports: seq<Option<string>>

    constructor (imports: seq<string>, exports: seq<Option<string>>)
      ensures this.imports == imports && this.exports == exports
    {
      this.imports, this.exports := imports, exports;
    }

    method RewriteImports(oldDir: Dir, newDir: Dir)
      requires Normal(oldDir) && Normal(newDir)
      modifies this
      ensures |imports| == |old(imports)| && |exports| == |old(exports)|
      ensures forall i :: 0 <= i < |imports| ==> Points(old(imports[i]), oldDir, imports[i], newDir)
      ensures forall i :: 0 <= i < |exports| ==>
        (exports[i].None? <==> old(exports[i]).None?)
        && (exports[i].Some? ==> Points(old(exports[i]).value, oldDir, exports[i].value, newDir))
    {
      for k := 0 to |imports|
        invariant |imports| == |old(imports)| && exports == old(exports)
        invariant forall i :: 0 <= i < k ==> Points(old(imports[i]), oldDir, imports[i], newDir)
        invariant forall i :: k <= i < |imports| ==> imports[i] == old(imports[i])
      {
        var next := NextSpec(imports[k], oldDir, newDir);
        imports := imports[k := next];
      }
      for k := 0 to |exports|
        invariant |exports| == |old(exports)| && |imports| == |old(imports)|
        invariant forall i :: 0 <= i < |imports| ==> Points(old(imports[i]), oldDir, imports[i], newDir)
        invariant forall i :: 0 <= i < k ==>
          (exports[i].None? <==> old(exports[i]).None?)
          && (exports[i].Some? ==> Points(old(exports[i]).value, oldDir, exports[i].value, newDir))
        invariant forall i :: k <= i < |exports| ==> exports[i] == old(exports[i])
      {
        if exports[k].Some? {
          var next := NextSpec(exports[k].value, oldDir, newDir);
          exports := exports[k := Some(next)];
        }
      }
    }
  }

  /** The new specifier is the rewritten one, and means from newDir what the old one meant from
      oldDir; one that did not start with "." is the same text. */
  predicate Points(spec: string, oldDir: Dir, next: string, newDir: Dir) {
    && next == Rewrite(spec, oldDir, newDir)
    && if StartsWith(spec, ".") then StartsWith(next, ".") && Resolve(newDir, next) == Resolve(oldDir, spec)
       else next == spec
  }

  method NextSpec(spec: string, oldDir: Dir, newDir: Dir) returns (next: string)
    requires Normal(oldDir) && Normal(newDir)
    ensures Points(spec, oldDir, next, newDir)
  {
    if !StartsWith(spec, ".") { return spec; }
    var absTarget := Resolve(oldDir, spec);
    next := Relative(newDir, absTarget);
    if !StartsWith(next, ".") { next := "./" + next; }
    RewritePreservesTarget(spec, oldDir, newDir);
  }

  // ---------- where a test moves ----------

  const EXEMPT_PREFIXES := ["tools/load-test/", "tests/", "tools/test-probe/tests/"]

  predicate IsExempt(rel: string) {
    exists i :: 0 <= i < |EXEMPT_PREFIXES| &&
      (rel == EXEMPT_PREFIXES[i][..|EXEMPT_PREFIXES[i]| - 1] || StartsWith(rel, EXEMPT_PREFIXES[i]))
  }

  function StripDotSlash(path: string): string { if StartsWith(path, "./") then path[2..] else path }

  /** `^(apps|packages)\/([^/]+)\/src\/(.+)$` */
  predicate CoLocated(segs: seq<string>) {
    && |segs| >= 4 && (segs[0] == "apps" || segs[0] == "packages") && segs[1] != "" && segs[2] == "src"
    && Join(segs[3..], '/') != "" && !HasLineTerminator(Join(segs[3..], '/'))
  }

  function TargetSegs(segs: seq<string>): seq<string>
    requires |segs| >= 4
  {
    [segs[0], segs[1], "tests", "unit"] + segs[3..]
  }

  function ComputeTargetPath(srcPath: string): Option<string> {
    var rel := StripDotSlash(srcPath);
    var segs := Split(rel, '/');
    if !EndsWith(rel, ".test.ts") || IsExempt(rel) || !CoLocated(segs) then None
    else Some(Join(TargetSegs(segs), '/'))
  }

  lemma TargetSplits(srcPath: string)
    requires ComputeTargetPath(srcPath).Some?
    ensures Split(ComputeTargetPath(srcPath).value, '/') == TargetSegs(Split(StripDotSlash(srcPath), '/'))
    ensures !StartsWith(ComputeTargetPath(srcPath).value, "./")
  {
    var segs := Split(StripDotSlash(srcPath), '/');
    var ts := TargetSegs(segs);
    forall p | p in ts ensures '/' !in p {
      if p != "tests" && p != "unit" { assert p in segs; }
    }
    SplitOfJoin(ts, '/');
    JoinStartsWithHead(ts);
    assert Join(ts, '/')[0] == segs[0][0];
  }

  /** `<kind>/<ws>/src/<rest>`, the kind being apps or packages. */
  predicate SourceTest(rel: string, kind: string, ws: string, rest: string) {
    && rel == kind + ("/" + (ws + ("/src/" + rest)))
    && (kind == "apps" || kind == "packages") && ws != "" && '/' !in ws
    && EndsWith(rest, ".test.ts") && !HasLineTerminator(rest)
  }

  lemma FourPartsSplit(a: string, b: string, c: string, rest: string)
    requires '/' !in a && '/' !in b && '/' !in c
    ensures Split(a + ['/'] + (b + ['/'] + (c + ['/'] + rest)), '/') == [a] + ([b] + ([c] + Split(rest, '/')))
  {
    SplitOfCons(c, '/', rest);
    SplitOfCons(b, '/', c + ['/'] + rest);
    SplitOfCons(a, '/', b + ['/'] + (c + ['/'] + rest));
  }

  lemma FourPartsJoin(a: string, b: string, c: string, d: string, parts: seq<string>)
    requires parts != []
    ensures Join([a] + ([b] + ([c] + ([d] + parts))), '/')
         == a + ['/'] + (b + ['/'] + (c + ['/'] + (d + ['/'] + Join(parts, '/'))))
  {
    JoinCons(d, parts, '/');
    JoinCons(c, [d] + parts, '/');
    JoinCons(b, [c] + ([d] + parts), '/');
    JoinCons(a, [b] + ([c] + ([d] + parts)), '/');
  }

  lemma SourceIsParts(kind: string, ws: string, src: string, dir: string, rest: string)
    requires dir == "/" + src + "/"
    ensures kind + ("/" + (ws + (dir + rest))) == kind + ['/'] + (ws + ['/'] + (src + ['/'] + rest))
  {
    assert dir + rest == ['/'] + (src + ['/'] + rest);
  }

  lemma TargetIsParts(kind: string, ws: string, tests: string, unit: string, dir: string, rest: string)
    requires dir == "/" + tests + "/" + unit + "/"
    ensures kind + ("/" + (ws + (dir + rest))) == kind + ['/'] + (ws + ['/'] + (tests + ['/'] + (unit + ['/'] + rest)))
  {
    assert dir + rest == ['/'] + (tests + ['/'] + (unit + ['/'] + rest));
  }

  lemma SourceSegs(segs: seq<string>, kind: string, ws: string, rest: string)
    requires segs == [kind] + ([ws] + (["src"] + Split(rest, '/')))
    ensures |segs| >= 4 && segs[0] == kind && segs[1] == ws && segs[2] == "src" && segs[3..] == Split(rest, '/')
  {
  }

  /** Nothing under apps or packages is exempt. */
  lemma SourceIsNotExempt(rel: string)
    requires rel != "" && (rel[0] == 'a' || rel[0] == 'p')
    ensures !IsExempt(rel) && StripDotSlash(rel) == rel && StripDotSlash("./" + rel) == rel
  {
    assert ("./" + rel)[2..] == rel;
    forall i | 0 <= i < |EXEMPT_PREFIXES|
      ensures rel != EXEMPT_PREFIXES[i][..|EXEMPT_PREFIXES[i]| - 1] && !StartsWith(rel, EXEMPT_PREFIXES[i])
    {
      assert EXEMPT_PREFIXES[i][0] == 't' && |EXEMPT_PREFIXES[i]| > 1;
    }
  }

  lemma EndsBehind(a: string, rest: string, end: string)
    requires EndsWith(rest, end)
    ensures EndsWith(a + rest, end)
  {
  }

  lemma SourceIsCoLocated(rel: string, kind: string, ws: string, rest: string)
    requires SourceTest(rel, kind, ws, rest)
    ensures Split(rel, '/') == [kind] + ([ws] + (["src"] + Split(rest, '/'))) && CoLocated(Split(rel, '/'))
  {
    SourceIsParts(kind, ws, "src", "/src/", rest);
    FourPartsSplit(kind, ws, "src", rest);
    SourceSegs(Split(rel, '/'), kind, ws, rest);
    JoinOfSplit(rest, '/');
  }

  lemma SourceIsPlanned(rel: string, kind: string, ws: string, rest: string)
    requires SourceTest(rel, kind, ws, rest)
    ensures EndsWith(rel, ".test.ts") && !IsExempt(rel) && StripDotSlash(rel) == rel && StripDotSlash("./" + rel) == rel
  {
    var front := kind + ("/" + (ws + "/src/"));
    assert rel == front + rest && rel[0] == kind[0];
    SourceIsNotExempt(rel);
    EndsBehind(front, rest, ".test.ts");
  }

  lemma TargetOfSource(segs: seq<string>, kind: string, ws: string, rest: string)
    requires segs == [kind] + ([ws] + (["src"] + Split(rest, '/')))
    ensures |segs| >= 4 && Join(TargetSegs(segs), '/') == kind + ("/" + (ws + ("/tests/unit/" + rest)))
  {
    var parts := Split(rest, '/');
    SourceSegs(segs, kind, ws, rest);
    assert TargetSegs(segs) == [kind] + ([ws] + (["tests"] + (["unit"] + parts)));
    FourPartsJoin(kind, ws, "tests", "unit", parts);
    JoinOfSplit(rest, '/');
    TargetIsParts(kind, ws, "tests", "unit", "/tests/unit/", rest);
  }

  /** A test under `src` of an app or package goes to the same place under `tests/unit`. */
  lemma SourceTestMoves(rel: string, kind: string, ws: string, rest: string)
    requires SourceTest(rel, kind, ws, rest)
    ensures ComputeTargetPath(rel) == Some(kind + ("/" + (ws + ("/tests/unit/" + rest))))
    ensures ComputeTargetPath("./" + rel) == ComputeTargetPath(rel)
  {
    SourceIsPlanned(rel, kind, ws, rest);
    SourceIsCoLocated(rel, kind, ws, rest);
    TargetOfSource(Split(rel, '/'), kind, ws, rest);
  }

  /** And nothing else moves. */
  lemma OnlySourceTestsMove(path: string) returns (kind: string, ws: string, rest: string)
    requires ComputeTargetPath(path).Some?
    ensures SourceTest(StripDotSlash(path), kind, ws, rest)
  {
    var rel := StripDotSlash(path);
    var segs := Split(rel, '/');
    kind, ws, rest := segs[0], segs[1], Join(segs[3..], '/');
    assert segs == [kind] + ([ws] + (["src"] + segs[3..]));
    JoinOfSplit(rel, '/');
    ThreePartsJoin(kind, ws, "src", segs[3..]);
    SourceIsParts(kind, ws, "src", "/src/", rest);
    EndsInLastPart(kind + ("/" + (ws + "/src")), rest, rel, ".test.ts");
  }

  lemma ThreePartsJoin(a: string, b: string, c: string, parts: seq<string>)
    requires parts != []
    ensures Join([a] + ([b] + ([c] + parts)), '/') == a + ['/'] + (b + ['/'] + (c + ['/'] + Join(parts, '/')))
  {
    JoinCons(c, parts, '/');
    JoinCons(b, [c] + parts, '/');
    JoinCons(a, [b] + ([c] + parts), '/');
  }

  lemma EndsInLastPart(front: string, rest: string, path: string, end: string)
    requires path == front + ['/'] + rest && EndsWith(path, end) && '/' !in end
    ensures EndsWith(rest, end)
  {
    var d := |path| - |end|;
    forall p | d <= p < |path| ensures path[p] != '/' { assert path[p] == path[d..][p - d] == end[p - d]; }
    assert path[|front|] == '/';
    assert path[d..] == rest[|rest| - |end|..];
  }

  /** A migrated test is not planned to move again. */
  lemma TargetIsSettled(srcPath: string)
    requires ComputeTargetPath(srcPath).Some?
    ensures ComputeTargetPath(ComputeTargetPath(srcPath).value).None?
  {
    TargetSplits(srcPath);
  }

  /** Different tests move to different places. */
  lemma TargetsAreDistinct(p: string, q: string)
    requires ComputeTargetPath(p).Some? && ComputeTargetPath(p) == ComputeTargetPath(q)
    ensures StripDotSlash(p) == StripDotSlash(q)
  {
    TargetSplits(p);
    TargetSplits(q);
    var ps, qs := Split(StripDotSlash(p), '/'), Split(StripDotSlash(q), '/');
    assert TargetSegs(ps)[4..] == ps[3..] && TargetSegs(qs)[4..] == qs[3..];
    assert TargetSegs(ps)[0] == ps[0] && TargetSegs(ps)[1] == ps[1];
    assert ps == [ps[0], ps[1], ps[2]] + ps[3..] && qs == [qs[0], qs[1], qs[2]] + qs[3..];
    JoinOfSplit(StripDotSlash(p), '/');
    JoinOfSplit(StripDotSlash(q), '/');
  }

  function Moved(path: string): string {
    match ComputeTargetPath(path) case Some(t) => t case None => path
  }

  /** Re-planning the migrated tree finds nothing to move. */
  lemma MigrationIsIdempotent(path: string)
    ensures ComputeTargetPath(Moved(path)).None? && Moved(Moved(path)) == Moved(path)
  {
    if ComputeTargetPath(path).Some? { TargetIsSettled(path); }
  }

  /** Two files end up at one path only if one of them already stood where the other moves. */
  lemma FilesCollideOnlyWithTarget(p: string, q: string)
    requires p != q && !StartsWith(p, "./") && !StartsWith(q, "./")
    ensures Moved(p) == Moved(q) <==> ComputeTargetPath(p) == Some(q) || ComputeTargetPath(q) == Some(p)
  {
    if ComputeTargetPath(p).Some? { TargetIsSettled(p); }
    if ComputeTargetPath(q).Some? { TargetIsSettled(q); }
    if ComputeTargetPath(p).Some? && ComputeTargetPath(p) == ComputeTargetPath(q) { TargetsAreDistinct(p, q); }
  }

  datatype Move = Move(from: string, to: string)

  /** planMoves, before its final sort: one move per path that has a target. */
  method PlanMoves(paths: seq<string>) returns (moves: seq<Move>)
    ensures forall m :: m in moves <==> m.from in paths && ComputeTargetPath(m.from) == Some(m.to)
    ensures forall i, j :: 0 <= i < j < |moves| ==> moves[i].from != moves[j].from
  {
    moves := [];
    var seen: set<string> := {};
    for k := 0 to |paths|
      invariant forall p :: p in seen <==> p in paths[..k]
      invariant forall m :: m in moves <==> m.from in seen && ComputeTargetPath(m.from) == Some(m.to)
      invariant forall i, j :: 0 <= i < j < |moves| ==> moves[i].from != moves[j].from
    {
      var rel := paths[k];
      assert paths[..k + 1] == paths[..k] + [rel];
      if rel !in seen {
        seen := seen + {rel};
        var target := ComputeTargetPath(rel);
        if target.Some? {
          assert forall i :: 0 <= i < |moves| ==> moves[i] in moves;
          moves := moves + [Move(rel, target.value)];
        }
      }
    }
    assert paths[..|paths|] == paths;
  }
}
