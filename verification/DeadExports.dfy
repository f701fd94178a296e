/** The production-readiness linter's dead-export pass: sets of string keys stand in for a search
    through every import of every file. */
module DeadExports {
  import opened JsText

  /** One import edge of a file; `target` is what the specifier resolves to. */
  datatype Edge = Edge(specifier: string, line: nat, name: Option<string>, target: Option<string>)

  datatype Importer = Importer(file: string, isTest: bool, edges: seq<Edge>)

  /** An edge together with the file it is in. */
  datatype Use = Use(file: string, isTest: bool, edge: Edge)

  /** An exported name; `abs` is the absolute path of the file. */
  datatype Export = Export(file: string, abs: string, line: nat, name: string)

  datatype Rule = DeadExport | UnresolvedImport | RouteShape

  datatype Finding = Finding(file: string, line: nat, rule: Rule, binding: string)

  // ---------- the index ----------

  const SEPARATOR := "::"
  const WORKSPACE := "@openwhispr/"

  function Key(abs: string, name: string): string { abs + SEPARATOR + name }

  function UsesOf(imp: Importer): (uses: seq<Use>)
    ensures |uses| == |imp.edges|
  {
    seq(|imp.edges|, k requires 0 <= k < |imp.edges| => Use(imp.file, imp.isTest, imp.edges[k]))
  }

  function AllUses(importers: seq<Importer>): seq<Use> {
    if importers == [] then [] else AllUses(importers[..|importers| - 1]) + UsesOf(importers[|importers| - 1])
  }

  predicate Counts(u: Use) { !u.isTest && u.edge.target.Some? }

  predicate TakesAll(u: Use) { u.edge.name == None || u.edge.name == Some("*") }

  function LiveKeys(uses: seq<Use>): set<string> {
    if uses == [] then {}
    else
      var before, u := LiveKeys(uses[..|uses| - 1]), uses[|uses| - 1];
      if Counts(u) && !TakesAll(u) then before + {Key(u.edge.target.value, u.edge.name.value)} else before
  }

  function WildcardLive(uses: seq<Use>): set<string> {
    if uses == [] then {}
    else
      var before, u := WildcardLive(uses[..|uses| - 1]), uses[|uses| - 1];
      if Counts(u) && TakesAll(u) then before + {u.edge.target.value} else before
  }

  function Unresolved(uses: seq<Use>): seq<Finding> {
    if uses == [] then []
    else
      var before, u := Unresolved(uses[..|uses| - 1]), uses[|uses| - 1];
      if u.edge.target == None && StartsWith(u.edge.specifier, WORKSPACE)
      then before + [Finding(u.file, u.edge.line, UnresolvedImport, u.edge.specifier)]
      else before
  }

  lemma IndexStep(before: seq<Use>, u: Use)
    ensures LiveKeys(before + [u])
         == LiveKeys(before) + (if Counts(u) && !TakesAll(u) then {Key(u.edge.target.value, u.edge.name.value)} else {})
    ensures WildcardLive(before + [u])
         == WildcardLive(before) + (if Counts(u) && TakesAll(u) then {u.edge.target.value} else {})
    ensures Unresolved(before + [u])
         == Unresolved(before)
            + (if u.edge.target == None && StartsWith(u.edge.specifier, WORKSPACE)
               then [Finding(u.file, u.edge.line, UnresolvedImport, u.edge.specifier)] else [])
  {
    assert (before + [u])[..|before|] == before;
  }

  /** The sets and the list that the loop over the importers fills. */
  class ImportIndex {
    var liveImports: set<string>
    var wildcardLive: set<string>
    var unresolvedImports: seq<Finding>
    ghost var uses: seq<Use>

    ghost predicate Valid()
      reads this
    {
      liveImports == LiveKeys(uses) && wildcardLive == WildcardLive(uses) && unresolvedImports == Unresolved(uses)
    }

    constructor ()
      ensures Valid() && uses == []
    {
      liveImports, wildcardLive, unresolvedImports, uses := {}, {}, [], [];
    }

    /** The body of the inner loop. */
    method Add(imp: Importer, edge: Edge)
      requires Valid()
      modifies this
      ensures Valid() && uses == old(uses) + [Use(imp.file, imp.isTest, edge)]
    {
      IndexStep(uses, Use(imp.file, imp.isTest, edge));
      uses := uses + [Use(imp.file, imp.isTest, edge)];
      match edge.target
      case None =>
        if StartsWith(edge.specifier, WORKSPACE) {
          unresolvedImports := unresolvedImports + [Finding(imp.file, edge.line, UnresolvedImport, edge.specifier)];
        }
      case Some(target) =>
        if !imp.isTest {
          if edge.name == None || edge.name == Some("*") {
            wildcardLive := wildcardLive + {target};
          } else {
            liveImports := liveImports + {Key(target, edge.name.value)};
          }
        }
    }

    method AddEdges(imp: Importer)
      requires Valid()
      modifies this
      ensures Valid() && uses == old(uses) + UsesOf(imp)
    {
      for k := 0 to |imp.edges|
        invariant Valid() && uses == old(uses) + UsesOf(imp)[..k]
      {
        Add(imp, imp.edges[k]);
        assert UsesOf(imp)[..k + 1] == UsesOf(imp)[..k] + [UsesOf(imp)[k]];
      }
      assert UsesOf(imp)[..|imp.edges|] == UsesOf(imp);
    }

    method AddImporters(importers: seq<Importer>)
      requires Valid() && uses == []
      modifies this
      ensures Valid() && uses == AllUses(importers)
    {
      for i := 0 to |importers|
        invariant Valid() && uses == AllUses(importers[..i])
      {
        AddEdges(importers[i]);
        assert importers[..i + 1][..i] == importers[..i];
      }
      assert importers[..|importers|] == importers;
    }
  }

  // ---------- the search it replaces ----------

  /** A production import of the export's file that takes this name, or every name. */
  predicate Keeps(u: Use, rec: Export) {
    Counts(u) && u.edge.target.value == rec.abs && (TakesAll(u) || u.edge.name.value == rec.name)
  }

  predicate IsLive(uses: seq<Use>, rec: Export) { exists j :: 0 <= j < |uses| && Keeps(uses[j], rec) }

  predicate Indexed(uses: seq<Use>, rec: Export) {
    rec.abs in WildcardLive(uses) || Key(rec.abs, rec.name) in LiveKeys(uses)
  }

  lemma {:induction false} WildcardIff(uses: seq<Use>, abs: string)
    ensures abs in WildcardLive(uses) <==>
            exists j :: 0 <= j < |uses| && Counts(uses[j]) && TakesAll(uses[j]) && uses[j].edge.target.value == abs
    decreases |uses|
  {
    if uses != [] {
      var n := |uses| - 1;
      WildcardIff(uses[..n], abs);
      assert forall j :: 0 <= j < n ==> uses[..n][j] == uses[j];
    }
  }

  predicate Named(u: Use, key: string) {
    Counts(u) && !TakesAll(u) && Key(u.edge.target.value, u.edge.name.value) == key
  }

  lemma {:induction false} LiveKeyIff(uses: seq<Use>, key: string)
    ensures key in LiveKeys(uses) <==> exists j :: 0 <= j < |uses| && Named(uses[j], key)
    decreases |uses|
  {
    if uses != [] {
      var n := |uses| - 1;
      LiveKeyIff(uses[..n], key);
      assert forall j :: 0 <= j < n ==> uses[..n][j] == uses[j];
    }
  }

  predicate NoColon(s: string) { ':' !in s }

  lemma LongerNameHasColon(a: string, m: string, b: string, n: string)
    requires Key(a, m) == Key(b, n) && |m| < |n|
    ensures ':' in n
  {
    var at := |n| - |m| - 1;
    assert Key(a, m)[|a| + 1] == ':';
    assert Key(b, n)[|b| + 2 + at] == n[at];
    assert |Key(a, m)| == |a| + 2 + |m| && |Key(b, n)| == |b| + 2 + |n|;
  }

  /** Keys of different pairs differ when the names hold no colon. */
  lemma KeyIsInjective(a: string, m: string, b: string, n: string)
    requires NoColon(m) && NoColon(n) && Key(a, m) == Key(b, n)
    ensures a == b && m == n
  {
    if |m| < |n| { LongerNameHasColon(a, m, b, n); }
    if |n| < |m| { LongerNameHasColon(b, n, a, m); }
    assert |Key(a, m)| == |a| + 2 + |m| && |Key(b, n)| == |b| + 2 + |n|;
    assert Key(a, m)[..|a|] == a && Key(b, n)[..|b|] == b;
    assert Key(a, m)[|a| + 2..] == m && Key(b, n)[|b| + 2..] == n;
  }

  predicate PlainNames(uses: seq<Use>) {
    forall j :: 0 <= j < |uses| && uses[j].edge.name.Some? ==> NoColon(uses[j].edge.name.value)
  }

  /** An export that some production import takes is always found in the index. */
  lemma LiveIsIndexed(uses: seq<Use>, rec: Export)
    requires IsLive(uses, rec)
    ensures Indexed(uses, rec)
  {
    var j :| 0 <= j < |uses| && Keeps(uses[j], rec);
    WildcardIff(uses, rec.abs);
    LiveKeyIff(uses, Key(rec.abs, rec.name));
    assert TakesAll(uses[j]) || Named(uses[j], Key(rec.abs, rec.name));
  }

  /** And nothing else is, as long as names hold no colon. */
  lemma IndexAgreesWithSearch(uses: seq<Use>, rec: Export)
    requires PlainNames(uses) && NoColon(rec.name)
    ensures Indexed(uses, rec) <==> IsLive(uses, rec)
  {
    if Indexed(uses, rec) {
      WildcardIff(uses, rec.abs);
      LiveKeyIff(uses, Key(rec.abs, rec.name));
      if rec.abs in WildcardLive(uses) {
        var j :| 0 <= j < |uses| && Counts(uses[j]) && TakesAll(uses[j]) && uses[j].edge.target.value == rec.abs;
        assert Keeps(uses[j], rec);
      } else {
        var j :| 0 <= j < |uses| && Named(uses[j], Key(rec.abs, rec.name));
        KeyIsInjective(uses[j].edge.target.value, uses[j].edge.name.value, rec.abs, rec.name);
        assert Keeps(uses[j], rec);
      }
    }
    if IsLive(uses, rec) { LiveIsIndexed(uses, rec); }
  }

  /** The export's key splits at no other "::" into a path and a name of its own. */
  predicate SplitsOnce(rec: Export) {
    var key := Key(rec.abs, rec.name);
    forall p :: 0 <= p < |key| && p != |rec.abs| && StartsAt(key, p, SEPARATOR) ==> key[p + 2..] == "*"
  }

  function UseOf(target: string, name: string): Use { Use("", false, Edge("", 0, Some(name), Some(target))) }

  lemma OtherSplitMisleads(rec: Export, p: nat)
    requires p != |rec.abs| && StartsAt(Key(rec.abs, rec.name), p, SEPARATOR)
    requires Key(rec.abs, rec.name)[p + 2..] != "*"
    ensures var uses := [UseOf(Key(rec.abs, rec.name)[..p], Key(rec.abs, rec.name)[p + 2..])];
            Indexed(uses, rec) && !IsLive(uses, rec)
  {
    var key := Key(rec.abs, rec.name);
    var u := UseOf(key[..p], key[p + 2..]);
    assert key == key[..p] + key[p..p + 2] + key[p + 2..];
    LiveKeyIff([u], key);
    assert Named([u][0], key);
  }

  lemma OnlySplitAgrees(rec: Export, uses: seq<Use>)
    requires SplitsOnce(rec) && Indexed(uses, rec)
    ensures IsLive(uses, rec)
  {
    var key := Key(rec.abs, rec.name);
    WildcardIff(uses, rec.abs);
    LiveKeyIff(uses, key);
    if rec.abs in WildcardLive(uses) {
      var j :| 0 <= j < |uses| && Counts(uses[j]) && TakesAll(uses[j]) && uses[j].edge.target.value == rec.abs;
      assert Keeps(uses[j], rec);
    } else {
      var j :| 0 <= j < |uses| && Named(uses[j], key);
      var target, name := uses[j].edge.target.value, uses[j].edge.name.value;
      assert key[|target|..|target| + 2] == SEPARATOR && key[|target| + 2..] == name;
      assert StartsAt(key, |target|, SEPARATOR);
      assert key[..|rec.abs|] == rec.abs && key[..|target|] == target && key[|rec.abs| + 2..] == rec.name;
      assert Keeps(uses[j], rec);
    }
  }

  /** The index is right about an export whatever the imports are exactly when its key splits only
      where its path ends. */
  lemma AlwaysAgreesIffSplitsOnce(rec: Export)
    ensures (forall uses :: Indexed(uses, rec) <==> IsLive(uses, rec)) <==> SplitsOnce(rec)
  {
    if SplitsOnce(rec) {
      forall uses ensures Indexed(uses, rec) <==> IsLive(uses, rec) {
        if Indexed(uses, rec) { OnlySplitAgrees(rec, uses); }
        if IsLive(uses, rec) { LiveIsIndexed(uses, rec); }
      }
    } else {
      var key := Key(rec.abs, rec.name);
      var p :| 0 <= p < |key| && p != |rec.abs| && StartsAt(key, p, SEPARATOR) && key[p + 2..] != "*";
      OtherSplitMisleads(rec, p);
    }
  }

  lemma PlainExportSplitsOnce(rec: Export)
    requires NoColon(rec.abs) && NoColon(rec.name)
    ensures SplitsOnce(rec)
  {
    var key := Key(rec.abs, rec.name);
    assert forall i :: 0 <= i < |rec.abs| ==> key[i] == rec.abs[i];
    assert forall i :: |rec.abs| + 2 <= i < |key| ==> key[i] == rec.name[i - |rec.abs| - 2];
    forall p | 0 <= p < |key| && StartsAt(key, p, SEPARATOR) ensures p == |rec.abs| {
      assert key[p] == key[p..p + 2][0] == ':' && key[p + 1] == key[p..p + 2][1] == ':';
    }
  }

  // ---------- what the importers change ----------

  lemma WildcardGrows(a: seq<Use>, b: seq<Use>, c: seq<Use>, abs: string)
    requires abs in WildcardLive(a + c)
    ensures abs in WildcardLive(a + b + c)
  {
    WildcardIff(a + c, abs);
    WildcardIff(a + b + c, abs);
    var j :| 0 <= j < |a + c| && Counts((a + c)[j]) && TakesAll((a + c)[j]) && (a + c)[j].edge.target.value == abs;
    assert (a + b + c)[if j < |a| then j else j + |b|] == (a + c)[j];
  }

  lemma LiveKeysGrow(a: seq<Use>, b: seq<Use>, c: seq<Use>, key: string)
    requires key in LiveKeys(a + c)
    ensures key in LiveKeys(a + b + c)
  {
    LiveKeyIff(a + c, key);
    LiveKeyIff(a + b + c, key);
    var j :| 0 <= j < |a + c| && Named((a + c)[j], key);
    assert (a + b + c)[if j < |a| then j else j + |b|] == (a + c)[j];
  }

  /** More imports, wherever they are listed, take no export out of the index. */
  lemma MoreImportsKeepIndexed(a: seq<Use>, b: seq<Use>, c: seq<Use>, rec: Export)
    requires Indexed(a + c, rec)
    ensures Indexed(a + b + c, rec)
  {
    if rec.abs in WildcardLive(a + c) {
      WildcardGrows(a, b, c, rec.abs);
    } else {
      LiveKeysGrow(a, b, c, Key(rec.abs, rec.name));
    }
  }

  /** Test imports do not change the sets at all. */
  lemma {:induction false} TestImportsAddNothing(a: seq<Use>, b: seq<Use>)
    requires forall j :: 0 <= j < |b| ==> b[j].isTest
    ensures LiveKeys(a + b) == LiveKeys(a) && WildcardLive(a + b) == WildcardLive(a)
    decreases |b|
  {
    if b == [] {
      assert a + b == a;
    } else {
      var n := |b| - 1;
      TestImportsAddNothing(a, b[..n]);
      assert a + b == (a + b[..n]) + [b[n]];
      IndexStep(a + b[..n], b[n]);
    }
  }

  lemma {:induction false} SetsAfter(a: seq<Use>, b: seq<Use>, c: seq<Use>)
    requires LiveKeys(a) == LiveKeys(b) && WildcardLive(a) == WildcardLive(b)
    ensures LiveKeys(a + c) == LiveKeys(b + c) && WildcardLive(a + c) == WildcardLive(b + c)
    decreases |c|
  {
    if c == [] {
      assert a + c == a && b + c == b;
    } else {
      var n := |c| - 1;
      SetsAfter(a, b, c[..n]);
      assert a + c == (a + c[..n]) + [c[n]] && b + c == (b + c[..n]) + [c[n]];
      IndexStep(a + c[..n], c[n]);
      IndexStep(b + c[..n], c[n]);
    }
  }

  lemma AllUsesSnoc(importers: seq<Importer>, imp: Importer)
    ensures AllUses(importers + [imp]) == AllUses(importers) + UsesOf(imp)
  {
    assert (importers + [imp])[..|importers|] == importers;
  }

  lemma InThree(a: seq<Use>, b: seq<Use>, c: seq<Use>)
    ensures (a + b) + c == a + (b + c)
  {
  }

  lemma {:induction false} AllUsesAppend(a: seq<Importer>, b: seq<Importer>)
    ensures AllUses(a + b) == AllUses(a) + AllUses(b)
    decreases |b|
  {
    if b == [] {
      assert a + b == a;
    } else {
      var front, last := b[..|b| - 1], b[|b| - 1];
      assert b == front + [last] && a + b == (a + front) + [last];
      AllUsesAppend(a, front);
      AllUsesSnoc(a + front, last);
      AllUsesSnoc(front, last);
      InThree(AllUses(a), AllUses(front), UsesOf(last));
    }
  }

  lemma {:induction false} TestUses(importers: seq<Importer>)
    requires forall k :: 0 <= k < |importers| ==> importers[k].isTest
    ensures forall j :: 0 <= j < |AllUses(importers)| ==> AllUses(importers)[j].isTest
    decreases |importers|
  {
    if importers != [] { TestUses(importers[..|importers| - 1]); }
  }

  // ---------- the findings ----------

  function DeadFinding(rec: Export): Finding { Finding(rec.file, rec.line, DeadExport, rec.name) }

  /** The findings for the exports that are not live. */
  function DeadFindings(isLive: Export -> bool, exports: seq<Export>): seq<Finding> {
    if exports == [] then []
    else
      var before, rec := DeadFindings(isLive, exports[..|exports| - 1]), exports[|exports| - 1];
      if isLive(rec) then before else before + [DeadFinding(rec)]
  }

  function InIndex(uses: seq<Use>): Export -> bool { rec => Indexed(uses, rec) }

  function BySearch(uses: seq<Use>): Export -> bool { rec => IsLive(uses, rec) }

  /** The keys raise no doubt: names hold no colon, or the exports' keys split only once. */
  predicate Unambiguous(uses: seq<Use>, exports: seq<Export>) {
    || (PlainNames(uses) && forall k :: 0 <= k < |exports| ==> NoColon(exports[k].name))
    || (forall k :: 0 <= k < |exports| ==> SplitsOnce(exports[k]))
  }

  /** The same exports are reported as by the search. */
  lemma {:induction false} DeadFindingsAgree(uses: seq<Use>, exports: seq<Export>)
    requires Unambiguous(uses, exports)
    ensures DeadFindings(InIndex(uses), exports) == DeadFindings(BySearch(uses), exports)
    decreases |exports|
  {
    if exports != [] {
      var n := |exports| - 1;
      var rec := exports[n];
      DeadFindingsAgree(uses, exports[..n]);
      if SplitsOnce(rec) && Indexed(uses, rec) { OnlySplitAgrees(rec, uses); }
      if !SplitsOnce(rec) { IndexAgreesWithSearch(uses, rec); }
      if IsLive(uses, rec) { LiveIsIndexed(uses, rec); }
    }
  }

  // ---------- what the report says ----------

  /** A file that is no test imports the name, or all names, from the export's file. */
  predicate Imports(u: Use, rec: Export) {
    && !u.isTest && u.edge.target == Some(rec.abs)
    && (u.edge.name == None || u.edge.name == Some("*") || u.edge.name == Some(rec.name))
  }

  predicate Imported(uses: seq<Use>, rec: Export) { exists j :: 0 <= j < |uses| && Imports(uses[j], rec) }

  lemma LiveIffImported(uses: seq<Use>, rec: Export)
    ensures IsLive(uses, rec) <==> Imported(uses, rec)
  {
    forall j | 0 <= j < |uses| ensures Keeps(uses[j], rec) <==> Imports(uses[j], rec) {
    }
  }

  predicate DeadAt(live: Export -> bool, exports: seq<Export>, k: nat, f: Finding) {
    k < |exports| && !live(exports[k]) && f == Finding(exports[k].file, exports[k].line, DeadExport, exports[k].name)
  }

  lemma {:induction false} DeadFindingsAre(live: Export -> bool, exports: seq<Export>, f: Finding)
    ensures f in DeadFindings(live, exports) <==> exists k: nat :: DeadAt(live, exports, k, f)
    decreases |exports|
  {
    if exports != [] {
      var n := |exports| - 1;
      DeadFindingsAre(live, exports[..n], f);
      if k: nat :| DeadAt(live, exports[..n], k, f) { assert DeadAt(live, exports, k, f); }
      if k: nat :| DeadAt(live, exports, k, f) {
        if k < n { assert DeadAt(live, exports[..n], k, f); }
      }
      if f == DeadFinding(exports[n]) && !live(exports[n]) { assert DeadAt(live, exports, n, f); }
    }
  }

  predicate DeadIn(uses: seq<Use>, exports: seq<Export>, k: nat, f: Finding) {
    && k < |exports| && !Imported(uses, exports[k])
    && f == Finding(exports[k].file, exports[k].line, DeadExport, exports[k].name)
  }

  /** Where the keys raise no doubt, the report names exactly the exports nobody imports. */
  lemma ReportIff(uses: seq<Use>, exports: seq<Export>, f: Finding)
    requires Unambiguous(uses, exports)
    ensures f in DeadFindings(InIndex(uses), exports) <==> exists k: nat :: DeadIn(uses, exports, k, f)
  {
    DeadFindingsAgree(uses, exports);
    DeadFindingsAre(BySearch(uses), exports, f);
    forall k: nat ensures DeadAt(BySearch(uses), exports, k, f) <==> DeadIn(uses, exports, k, f) {
      if k < |exports| { LiveIffImported(uses, exports[k]); }
    }
  }

  /** An import of a workspace package that leads nowhere is reported, in tests as well. */
  predicate LeadsNowhere(uses: seq<Use>, j: nat, f: Finding) {
    && j < |uses| && uses[j].edge.target == None && StartsWith(uses[j].edge.specifier, "@openwhispr/")
    && f == Finding(uses[j].file, uses[j].edge.line, UnresolvedImport, uses[j].edge.specifier)
  }

  lemma {:induction false} UnresolvedAre(uses: seq<Use>, f: Finding)
    ensures f in Unresolved(uses) <==> exists j: nat :: LeadsNowhere(uses, j, f)
    decreases |uses|
  {
    if uses != [] {
      var n := |uses| - 1;
      UnresolvedAre(uses[..n], f);
      if j: nat :| LeadsNowhere(uses[..n], j, f) { assert LeadsNowhere(uses, j, f); }
      if j: nat :| LeadsNowhere(uses, j, f) {
        if j < n { assert LeadsNowhere(uses[..n], j, f); }
      }
      if f in Unresolved(uses) && f !in Unresolved(uses[..n]) { assert LeadsNowhere(uses, n, f); }
    }
  }

  predicate HasEdge(imp: Importer, u: Use) {
    exists k :: 0 <= k < |imp.edges| && u == Use(imp.file, imp.isTest, imp.edges[k])
  }

  lemma UsesOfAre(imp: Importer, u: Use)
    ensures u in UsesOf(imp) <==> HasEdge(imp, u)
  {
    var uses := UsesOf(imp);
    forall k | 0 <= k < |imp.edges| ensures uses[k] == Use(imp.file, imp.isTest, imp.edges[k]) { }
    if k :| 0 <= k < |imp.edges| && u == Use(imp.file, imp.isTest, imp.edges[k]) { assert uses[k] == u; }
  }

  lemma InAppended(a: seq<Use>, b: seq<Use>, u: Use)
    ensures u in a + b <==> u in a || u in b
  {
  }

  /** The uses are the edges of the importers. */
  lemma {:induction false} UsesAreEdges(importers: seq<Importer>, u: Use)
    ensures u in AllUses(importers) <==> exists i :: 0 <= i < |importers| && HasEdge(importers[i], u)
    decreases |importers|
  {
    if importers != [] {
      var n := |importers| - 1;
      UsesAreEdges(importers[..n], u);
      UsesOfAre(importers[n], u);
      InAppended(AllUses(importers[..n]), UsesOf(importers[n]), u);
      if i :| 0 <= i < |importers| && HasEdge(importers[i], u) {
        if i < n { assert HasEdge(importers[..n][i], u); }
      }
    }
  }

  /** Ordinary paths and names raise no doubt, whatever the imports hold. */
  lemma OrdinaryExportsAgree(uses: seq<Use>, exports: seq<Export>)
    requires forall k :: 0 <= k < |exports| ==> NoColon(exports[k].abs) && NoColon(exports[k].name)
    ensures DeadFindings(InIndex(uses), exports) == DeadFindings(BySearch(uses), exports)
  {
    forall k | 0 <= k < |exports| ensures SplitsOnce(exports[k]) { PlainExportSplitsOnce(exports[k]); }
    DeadFindingsAgree(uses, exports);
  }

  /** Both reports go use by use and export by export, in their order. */
  lemma {:induction false} ReportsJoin(live: Export -> bool, a: seq<Export>, b: seq<Export>, u: seq<Use>, w: seq<Use>)
    ensures DeadFindings(live, a + b) == DeadFindings(live, a) + DeadFindings(live, b)
    ensures Unresolved(u + w) == Unresolved(u) + Unresolved(w)
    decreases |b| + |w|
  {
    if b != [] {
      assert (a + b)[..|a + b| - 1] == a + b[..|b| - 1];
      ReportsJoin(live, a, b[..|b| - 1], u, w);
    } else if w != [] {
      assert a + b == a;
      assert (u + w)[..|u + w| - 1] == u + w[..|w| - 1];
      ReportsJoin(live, a, b, u, w[..|w| - 1]);
    } else {
      assert a + b == a && u + w == u;
    }
  }

  lemma {:induction false} DeadFindingsShrink(less: Export -> bool, more: Export -> bool, exports: seq<Export>)
    requires forall rec :: less(rec) ==> more(rec)
    ensures multiset(DeadFindings(more, exports)) <= multiset(DeadFindings(less, exports))
    decreases |exports|
  {
    if exports != [] { DeadFindingsShrink(less, more, exports[..|exports| - 1]); }
  }

  /** Adding importers, wherever they are listed, only takes findings off the report. */
  lemma MoreImportersShrinkReport(a: seq<Importer>, b: seq<Importer>, c: seq<Importer>, exports: seq<Export>)
    ensures multiset(DeadFindings(InIndex(AllUses(a + b + c)), exports))
         <= multiset(DeadFindings(InIndex(AllUses(a + c)), exports))
  {
    AllUsesAppend(a + b, c);
    AllUsesAppend(a, b);
    AllUsesAppend(a, c);
    forall rec | InIndex(AllUses(a + c))(rec) ensures InIndex(AllUses(a + b + c))(rec) {
      MoreImportsKeepIndexed(AllUses(a), AllUses(b), AllUses(c), rec);
    }
    DeadFindingsShrink(InIndex(AllUses(a + c)), InIndex(AllUses(a + b + c)), exports);
  }

  lemma {:induction false} SameVerdictsSameReport(p: Export -> bool, q: Export -> bool, exports: seq<Export>)
    requires forall rec :: p(rec) == q(rec)
    ensures DeadFindings(p, exports) == DeadFindings(q, exports)
    decreases |exports|
  {
    if exports != [] { SameVerdictsSameReport(p, q, exports[..|exports| - 1]); }
  }

  /** Adding test importers leaves the report of dead exports as it is. */
  lemma TestImportersChangeNothing(a: seq<Importer>, b: seq<Importer>, c: seq<Importer>, exports: seq<Export>)
    requires forall k :: 0 <= k < |b| ==> b[k].isTest
    ensures DeadFindings(InIndex(AllUses(a + b + c)), exports) == DeadFindings(InIndex(AllUses(a + c)), exports)
  {
    AllUsesAppend(a + b, c);
    AllUsesAppend(a, b);
    AllUsesAppend(a, c);
    TestUses(b);
    TestImportsAddNothing(AllUses(a), AllUses(b));
    SetsAfter(AllUses(a) + AllUses(b), AllUses(a), AllUses(c));
    SameVerdictsSameReport(InIndex(AllUses(a + b + c)), InIndex(AllUses(a + c)), exports);
  }

  /** A file whose name goes on after another's with "::" has exports that share their keys with
      names imported from that other file. */
  lemma LongerPathMisleads(rec: Export, imp: Importer, abs: string, more: string)
    requires rec.abs == abs + (SEPARATOR + more) && rec.name != ""
    requires !imp.isTest && |imp.edges| == 1 && imp.edges[0].target == Some(abs)
    requires imp.edges[0].name == Some(more + (SEPARATOR + rec.name))
    ensures Indexed(AllUses([imp]), rec) && !IsLive(AllUses([imp]), rec)
  {
    var u, name := Use(imp.file, false, imp.edges[0]), more + (SEPARATOR + rec.name);
    AllUsesOfOne(imp);
    SameKey(abs, more, rec.name);
    assert |name| > 1;
    assert Named([u][0], Key(rec.abs, rec.name));
    LiveKeyIff([u], Key(rec.abs, rec.name));
  }

  lemma AllUsesOfOne(imp: Importer)
    requires |imp.edges| == 1
    ensures AllUses([imp]) == [Use(imp.file, imp.isTest, imp.edges[0])]
  {
    assert [imp][..0] == [];
  }

  lemma SameKey(abs: string, more: string, name: string)
    ensures Key(abs + (SEPARATOR + more), name) == Key(abs, more + (SEPARATOR + name))
  {
  }

  lemma ReportOfOne(isLive: Export -> bool, rec: Export)
    ensures DeadFindings(isLive, [rec]) == if isLive(rec) then [] else [DeadFinding(rec)]
  {
    assert [rec][..0] == [];
  }

  /** Without the condition the index errs: next to a file apps/a.ts::b.ts, importing the odd but
      legal name "b.ts::c" from apps/a.ts keeps that file's dead export c off the report. */
  lemma ColonPathMisleads(rec: Export, imp: Importer, abs: string, more: string)
    requires abs == "/r/apps/a.ts" && more == "b.ts"
    requires rec == Export("apps/a.ts::b.ts", abs + (SEPARATOR + more), 1, "c")
    requires imp == Importer("apps/d.ts", false, [Edge("./a.js", 1, Some(more + (SEPARATOR + "c")), Some(abs))])
    ensures var uses := AllUses([imp]);
            DeadFindings(InIndex(uses), [rec]) == [] && DeadFindings(BySearch(uses), [rec]) == [DeadFinding(rec)]
  {
    var uses := AllUses([imp]);
    LongerPathMisleads(rec, imp, abs, more);
    ReportOfOne(InIndex(uses), rec);
    ReportOfOne(BySearch(uses), rec);
  }

  function Decimal(n: nat): (s: string)
    ensures s != "" && NoColon(s) && (n >= 10 ==> |s| > 1)
  {
    if n < 10 then [Digit(n)] else Decimal(n / 10) + [Digit(n % 10)]
  }

  function Digit(d: nat): char
    requires d < 10
  {
    '0' + d as char
  }

  function AllowKey(f: Finding): string { f.file + ":" + Decimal(f.line) }

  lemma {:induction false} DecimalIsInjective(m: nat, n: nat)
    requires Decimal(m) == Decimal(n)
    ensures m == n
  {
    var a, b := Decimal(m), Decimal(n);
    assert a[|a| - 1] == Digit(m % 10) && b[|b| - 1] == Digit(n % 10);
    if m >= 10 && n >= 10 {
      assert a[..|a| - 1] == Decimal(m / 10) && b[..|b| - 1] == Decimal(n / 10);
      DecimalIsInjective(m / 10, n / 10);
    }
  }

  /** An allowlist entry covers the findings of one line of one file. */
  lemma AllowKeyIsInjective(f: Finding, g: Finding)
    requires AllowKey(f) == AllowKey(g)
    ensures f.file == g.file && f.line == g.line
  {
    var k, l := AllowKey(f), AllowKey(g);
    var m, n := Decimal(f.line), Decimal(g.line);
    ColonSplit(f.file, m, g.file, n);
    DecimalIsInjective(f.line, g.line);
  }

  function ValueOf(s: string): int {
    if s == "" then 0 else 10 * ValueOf(s[..|s| - 1]) + (s[|s| - 1] as int - '0' as int)
  }

  /** A line number is written in decimal digits without a leading zero. */
  lemma {:induction false} DecimalReads(n: nat)
    ensures ValueOf(Decimal(n)) == n && (forall k :: 0 <= k < |Decimal(n)| ==> IsDigit(Decimal(n)[k]))
    ensures n > 0 ==> Decimal(n)[0] != '0'
  {
    var d := Decimal(n);
    if n >= 10 {
      DecimalReads(n / 10);
      assert d[..|d| - 1] == Decimal(n / 10);
    }
  }

  lemma ColonSplit(a: string, m: string, b: string, n: string)
    requires NoColon(m) && NoColon(n) && a + ":" + m == b + ":" + n
    ensures a == b && m == n
  {
    var k, l := a + ":" + m, b + ":" + n;
    assert k[|a|] == ':' && l[|b|] == ':';
    assert forall i :: |a| < i < |k| ==> k[i] == m[i - |a| - 1];
    assert forall i :: |b| < i < |l| ==> l[i] == n[i - |b| - 1];
    assert |a| == |b|;
    assert k[..|a|] == a && l[..|b|] == b && k[|a| + 1..] == m && l[|b| + 1..] == n;
  }

  /** The findings that are, or are not, on the allowlist. */
  function Listed(allowlist: set<string>, listed: bool, findings: seq<Finding>): seq<Finding> {
    if findings == [] then []
    else
      var before, f := Listed(allowlist, listed, findings[..|findings| - 1]), findings[|findings| - 1];
      if (AllowKey(f) in allowlist) == listed then before + [f] else before
  }

  /** The findings at, or not at, one of the places. */
  function AtPlaces(places: set<(string, nat)>, at: bool, findings: seq<Finding>): seq<Finding> {
    if findings == [] then []
    else
      var before, f := AtPlaces(places, at, findings[..|findings| - 1]), findings[|findings| - 1];
      if ((f.file, f.line) in places) == at then before + [f] else before
  }

  /** The allowlist that names these lines of these files. */
  function EntriesOf(places: set<(string, nat)>): set<string> { set p | p in places :: p.0 + ":" + Decimal(p.1) }

  /** Lines `file:number` in the allowlist take exactly the findings of those lines of those files
      off the violations. */
  lemma {:induction false} AllowlistCoversPlaces(places: set<(string, nat)>, listed: bool, findings: seq<Finding>)
    ensures Listed(EntriesOf(places), listed, findings) == AtPlaces(places, listed, findings)
    decreases |findings|
  {
    if findings != [] {
      var f := findings[|findings| - 1];
      AllowlistCoversPlaces(places, listed, findings[..|findings| - 1]);
      CoveredIff(places, f);
    }
  }

  lemma CoveredIff(places: set<(string, nat)>, f: Finding)
    ensures AllowKey(f) in EntriesOf(places) <==> (f.file, f.line) in places
  {
    forall p | p in places && p.0 + ":" + Decimal(p.1) == AllowKey(f) ensures p == (f.file, f.line) {
      ColonSplit(p.0, Decimal(p.1), f.file, Decimal(f.line));
      DecimalIsInjective(p.1, f.line);
    }
    if (f.file, f.line) in places {
      var p := (f.file, f.line);
      assert p.0 + ":" + Decimal(p.1) == AllowKey(f);
    }
  }

  /** Violations and allowlisted findings together are all findings, each once. */
  lemma {:induction false} ListsPartition(allowlist: set<string>, findings: seq<Finding>)
    ensures multiset(Listed(allowlist, false, findings)) + multiset(Listed(allowlist, true, findings))
         == multiset(findings)
    decreases |findings|
  {
    if findings != [] {
      var n := |findings| - 1;
      ListsPartition(allowlist, findings[..n]);
      assert findings == findings[..n] + [findings[n]];
    }
  }

  lemma {:induction false} ListedIffOnList(allowlist: set<string>, listed: bool, findings: seq<Finding>, k: nat)
    requires k < |Listed(allowlist, listed, findings)|
    ensures (AllowKey(Listed(allowlist, listed, findings)[k]) in allowlist) == listed
    decreases |findings|
  {
    var n := |findings| - 1;
    if k < |Listed(allowlist, listed, findings[..n])| { ListedIffOnList(allowlist, listed, findings[..n], k); }
  }

  /** The two lists of findings, in the order they are pushed. */
  class Bundle {
    const allowlist: set<string>
    var violations: seq<Finding>
    var allowlisted: seq<Finding>
    ghost var pushed: seq<Finding>

    ghost predicate Valid()
      reads this
    {
      violations == Listed(allowlist, false, pushed) && allowlisted == Listed(allowlist, true, pushed)
    }

    constructor (allowlist: set<string>)
      ensures Valid() && pushed == [] && this.allowlist == allowlist
    {
      this.allowlist := allowlist;
      violations, allowlisted, pushed := [], [], [];
    }

    method PushFinding(f: Finding)
      requires Valid()
      modifies this
      ensures Valid() && pushed == old(pushed) + [f]
    {
      ghost var before := pushed;
      pushed := pushed + [f];
      assert pushed[..|pushed| - 1] == before;
      if AllowKey(f) in allowlist { allowlisted := allowlisted + [f]; } else { violations := violations + [f]; }
    }

    method PushAll(findings: seq<Finding>)
      requires Valid()
      modifies this
      ensures Valid() && pushed == old(pushed) + findings
    {
      for k := 0 to |findings|
        invariant Valid() && pushed == old(pushed) + findings[..k]
      {
        PushFinding(findings[k]);
        assert findings[..k + 1] == findings[..k] + [findings[k]];
      }
      assert findings[..|findings|] == findings;
    }

    /** The loop over the exports. */
    method PushDeadExports(exports: seq<Export>, index: ImportIndex)
      requires Valid() && index.Valid()
      modifies this
      ensures Valid() && pushed == old(pushed) + DeadFindings(InIndex(index.uses), exports)
    {
      assert pushed + [] == pushed;
      for k := 0 to |exports|
        invariant Valid() && pushed == old(pushed) + DeadFindings(InIndex(index.uses), exports[..k])
      {
        var rec := exports[k];
        assert exports[..k + 1][..k] == exports[..k];
        if rec.abs !in index.wildcardLive && Key(rec.abs, rec.name) !in index.liveImports {
          PushFinding(DeadFinding(rec));
        }
      }
      assert exports[..|exports|] == exports;
    }
  }

  /** The dead-export pass of `findViolations`, after the route findings; unsorted. */
  method FindViolations(routes: seq<Finding>, exports: seq<Export>, importers: seq<Importer>, allowlist: set<string>)
      returns (violations: seq<Finding>, allowlisted: seq<Finding>)
    ensures var uses := AllUses(importers);
            var all := routes + DeadFindings(InIndex(uses), exports) + Unresolved(uses);
            && violations == Listed(allowlist, false, all)
            && allowlisted == Listed(allowlist, true, all)
            && multiset(violations) + multiset(allowlisted) == multiset(all)
  {
    var bundle := new Bundle(allowlist);
    bundle.PushAll(routes);
    var index := new ImportIndex();
    index.AddImporters(importers);
    assert [] + routes == routes;
    bundle.PushDeadExports(exports, index);
    bundle.PushAll(index.unresolvedImports);
    ListsPartition(allowlist, bundle.pushed);
    violations, allowlisted := bundle.violations, bundle.allowlisted;
  }
}
