/** One pass of a line filter that deletes close-out notes always and phase tags only where no
    comment stands next to them, for any way of sorting lines into the four kinds. */
module NeighbourSweep {
  import opened JsText

  datatype Kind =
    | Code     // not a comment
    | Note     // a close-out note: a comment, always deleted
    | Tag      // a phase tag: a comment, deleted when it stands alone
    | Prose    // any other comment

  type Sorter<!L> = L -> Kind

  function First<L>(lines: seq<L>): Option<L> { if lines == [] then None else Some(lines[0]) }

  function Last<L>(lines: seq<L>): Option<L> {
    if lines == [] then None else Some(lines[|lines| - 1])
  }

  predicate Comment<L>(kind: Sorter<L>, line: Option<L>) { line.Some? && kind(line.value) != Code }

  /** The verdict on a line, from its kind and its two neighbours. */
  predicate Goes<L>(kind: Sorter<L>, line: L, prev: Option<L>, next: Option<L>) {
    || kind(line).Note?
    || (kind(line).Tag? && !Comment(kind, prev) && !Comment(kind, next))
  }

  predicate Removed<L>(kind: Sorter<L>, before: seq<L>, line: L, after: seq<L>) {
    Goes(kind, line, Last(before), First(after))
  }

  /** The lines of `rest` a pass keeps, the lines of `before` standing in front of them. */
  function Sweep<L>(kind: Sorter<L>, before: seq<L>, rest: seq<L>): (kept: seq<L>)
    ensures |kept| <= |rest|
    decreases |rest|
  {
    if rest == [] then []
    else
      var tail := Sweep(kind, before + [rest[0]], rest[1..]);
      if Removed(kind, before, rest[0], rest[1..]) then tail else [rest[0]] + tail
  }

  lemma SweepCons<L>(kind: Sorter<L>, before: seq<L>, l: L, after: seq<L>)
    ensures Sweep(kind, before, [l] + after)
            == if Removed(kind, before, l, after) then Sweep(kind, before + [l], after)
               else [l] + Sweep(kind, before + [l], after)
  {
    assert ([l] + after)[1..] == after;
  }

  /** The lines that are not close-out notes. */
  function Prune<L>(kind: Sorter<L>, lines: seq<L>): seq<L> {
    if lines == [] then []
    else
      var l := lines[|lines| - 1];
      Prune(kind, lines[..|lines| - 1]) + if kind(l).Note? then [] else [l]
  }

  lemma {:induction false} PruneAppend<L>(kind: Sorter<L>, a: seq<L>, b: seq<L>)
    ensures Prune(kind, a + b) == Prune(kind, a) + Prune(kind, b)
    decreases |b|
  {
    if b == [] {
      assert a + b == a;
    } else {
      var b' := b[..|b| - 1];
      assert (a + b)[..|a + b| - 1] == a + b';
      PruneAppend(kind, a, b');
    }
  }

  lemma PruneSnoc<L>(kind: Sorter<L>, lines: seq<L>, l: L)
    ensures Prune(kind, lines + [l]) == if kind(l).Note? then Prune(kind, lines) else Prune(kind, lines) + [l]
  {
    assert (lines + [l])[..|lines|] == lines;
  }

  lemma PruneCons<L>(kind: Sorter<L>, lines: seq<L>)
    requires lines != []
    ensures Prune(kind, lines) == if kind(lines[0]).Note? then Prune(kind, lines[1..])
                                  else [lines[0]] + Prune(kind, lines[1..])
  {
    assert lines == [lines[0]] + lines[1..];
    PruneAppend(kind, [lines[0]], lines[1..]);
    assert [lines[0]] == [] + [lines[0]];
    PruneSnoc(kind, [], lines[0]);
  }

  // ---------- two passes are one pass over the pruned file ----------

  /** Right behind a comment a pass keeps the first line that is not a close-out note. */
  lemma {:induction false} KeptBehindComment<L>(kind: Sorter<L>, before: seq<L>, rest: seq<L>)
    requires Comment(kind, Last(before))
    ensures Comment(kind, First(Sweep(kind, before, rest))) == Comment(kind, First(Prune(kind, rest)))
    decreases |rest|
  {
    if rest != [] {
      PruneCons(kind, rest);
      if kind(rest[0]).Note? {
        KeptBehindComment(kind, before + [rest[0]], rest[1..]);
      }
    }
  }

  lemma LoneTagStaysAlone<L>(kind: Sorter<L>, before: seq<L>, l: L, after: seq<L>)
    requires kind(l).Tag? && Removed(kind, before, l, after)
    ensures Removed(kind, Prune(kind, before), l, Prune(kind, after))
  {
    if after != [] { PruneCons(kind, after); }
  }

  /** `kept` is what an earlier pass left of `before`.  Sweeping what that pass leaves of
      `rest` is sweeping `rest` without its close-out notes. */
  lemma {:induction false} SecondPassIsPruned<L>(kind: Sorter<L>, before: seq<L>, kept: seq<L>, rest: seq<L>)
    requires Comment(kind, Last(kept)) == Comment(kind, Last(Prune(kind, before))) || !Comment(kind, First(rest))
    ensures Sweep(kind, kept, Sweep(kind, before, rest)) == Sweep(kind, Prune(kind, before), Prune(kind, rest))
    decreases |rest|
  {
    if rest != [] {
      var l, after := rest[0], rest[1..];
      PruneCons(kind, rest);
      PruneSnoc(kind, before, l);
      if kind(l).Note? {
        SecondPassIsPruned(kind, before + [l], kept, after);
      } else {
        SweepCons(kind, Prune(kind, before), l, Prune(kind, after));
        if Removed(kind, before, l, after) {
          LoneTagStaysAlone(kind, before, l, after);
          SecondPassIsPruned(kind, before + [l], kept, after);
        } else {
          if kind(l) != Code { KeptBehindComment(kind, before + [l], after); }
          SecondPassIsPruned(kind, before + [l], kept + [l], after);
          SweepCons(kind, kept, l, Sweep(kind, before + [l], after));
        }
      }
    }
  }

  /** Without close-out notes one pass reaches a fixpoint. */
  predicate NoNotes<L>(kind: Sorter<L>, lines: seq<L>) {
    forall i :: 0 <= i < |lines| ==> !kind(lines[i]).Note?
  }

  lemma {:induction false} PruneIsIdentity<L>(kind: Sorter<L>, lines: seq<L>)
    requires NoNotes(kind, lines)
    ensures Prune(kind, lines) == lines
  {
    if lines != [] {
      var front := lines[..|lines| - 1];
      PruneIsIdentity(kind, front);
      assert lines == front + [lines[|lines| - 1]];
    }
  }

  lemma {:induction false} SweepDropsNotes<L>(kind: Sorter<L>, before: seq<L>, rest: seq<L>)
    ensures NoNotes(kind, Sweep(kind, before, rest))
    decreases |rest|
  {
    if rest != [] { SweepDropsNotes(kind, before + [rest[0]], rest[1..]); }
  }

  /** A third pass never changes anything. */
  lemma TwoPassesSuffice<L>(kind: Sorter<L>, lines: seq<L>)
    ensures var twice := Sweep(kind, [], Sweep(kind, [], lines)); Sweep(kind, [], twice) == twice
  {
    var once := Sweep(kind, [], lines);
    SecondPassIsPruned(kind, [], [], once);
    SweepDropsNotes(kind, [], lines);
    PruneIsIdentity(kind, once);
  }

  // ---------- when one pass is enough ----------

  /** Line i is a phase tag that some comment protects in the first pass, but only close-out
      notes separate it from code, or from the end of the file, on both sides. */
  predicate Orphan<L>(kind: Sorter<L>, before: seq<L>, line: L, after: seq<L>) {
    && kind(line).Tag?
    && (Comment(kind, Last(before)) || Comment(kind, First(after)))
    && !Comment(kind, Last(Prune(kind, before)))
    && !Comment(kind, First(Prune(kind, after)))
  }

  predicate OrphanAt<L>(kind: Sorter<L>, before: seq<L>, rest: seq<L>, i: nat)
    requires i < |rest|
  {
    Orphan(kind, before + rest[..i], rest[i], rest[i + 1..])
  }

  predicate HasOrphan<L>(kind: Sorter<L>, lines: seq<L>) {
    exists i :: 0 <= i < |lines| && OrphanAt(kind, [], lines, i)
  }

  function Orphans<L>(kind: Sorter<L>, before: seq<L>, rest: seq<L>): nat
    decreases |rest|
  {
    if rest == [] then 0
    else
      (if Orphan(kind, before, rest[0], rest[1..]) then 1 else 0) + Orphans(kind, before + [rest[0]], rest[1..])
  }

  /** The lines the first pass keeps, the orphans excepted. */
  function WithoutOrphans<L>(kind: Sorter<L>, before: seq<L>, rest: seq<L>): seq<L>
    decreases |rest|
  {
    if rest == [] then []
    else
      var tail := WithoutOrphans(kind, before + [rest[0]], rest[1..]);
      if Removed(kind, before, rest[0], rest[1..]) || Orphan(kind, before, rest[0], rest[1..]) then tail
      else [rest[0]] + tail
  }

  lemma {:induction false} PrunedPassDropsOrphans<L>(kind: Sorter<L>, before: seq<L>, rest: seq<L>)
    ensures Sweep(kind, Prune(kind, before), Prune(kind, rest)) == WithoutOrphans(kind, before, rest)
    decreases |rest|
  {
    if rest != [] {
      var l, after := rest[0], rest[1..];
      PruneCons(kind, rest);
      PruneSnoc(kind, before, l);
      PrunedPassDropsOrphans(kind, before + [l], after);
      if !kind(l).Note? {
        SweepCons(kind, Prune(kind, before), l, Prune(kind, after));
        if kind(l).Tag? && Removed(kind, before, l, after) { LoneTagStaysAlone(kind, before, l, after); }
      }
    }
  }

  lemma {:induction false} OrphansWereKept<L>(kind: Sorter<L>, before: seq<L>, rest: seq<L>)
    ensures |Sweep(kind, before, rest)| == |WithoutOrphans(kind, before, rest)| + Orphans(kind, before, rest)
    ensures Orphans(kind, before, rest) == 0 ==> Sweep(kind, before, rest) == WithoutOrphans(kind, before, rest)
    decreases |rest|
  {
    if rest != [] { OrphansWereKept(kind, before + [rest[0]], rest[1..]); }
  }

  /** The second pass deletes the orphans, each of which the first pass kept, and nothing else. */
  lemma SecondPassDeletesOrphans<L>(kind: Sorter<L>, lines: seq<L>)
    ensures var once := Sweep(kind, [], lines);
            && Sweep(kind, [], once) == WithoutOrphans(kind, [], lines)
            && |once| == |Sweep(kind, [], once)| + Orphans(kind, [], lines)
            && (Orphans(kind, [], lines) == 0 ==> Sweep(kind, [], once) == once)
  {
    SecondPassIsPruned(kind, [], [], lines);
    PrunedPassDropsOrphans(kind, [], lines);
    OrphansWereKept(kind, [], lines);
  }

  lemma OrphanAtShift<L>(kind: Sorter<L>, before: seq<L>, rest: seq<L>, i: nat)
    requires i + 1 < |rest|
    ensures OrphanAt(kind, before + [rest[0]], rest[1..], i) == OrphanAt(kind, before, rest, i + 1)
  {
    assert (before + [rest[0]]) + rest[1..][..i] == before + rest[..i + 1];
    assert rest[1..][i + 1..] == rest[i + 2..];
  }

  lemma {:induction false} OrphansCounted<L>(kind: Sorter<L>, before: seq<L>, rest: seq<L>)
    ensures Orphans(kind, before, rest) > 0 <==> exists i :: 0 <= i < |rest| && OrphanAt(kind, before, rest, i)
    decreases |rest|
  {
    if rest != [] {
      OrphansCounted(kind, before + [rest[0]], rest[1..]);
      assert before + rest[..0] == before;
      assert OrphanAt(kind, before, rest, 0) == Orphan(kind, before, rest[0], rest[1..]);
      forall i: nat | i < |rest[1..]|
        ensures OrphanAt(kind, before + [rest[0]], rest[1..], i) == OrphanAt(kind, before, rest, i + 1)
      {
        OrphanAtShift(kind, before, rest, i);
      }
      if i :| 0 < i < |rest| && OrphanAt(kind, before, rest, i) {
        assert OrphanAt(kind, before + [rest[0]], rest[1..], i - 1);
      }
    }
  }

  /** Running the pass twice is running it once exactly when there is no orphan. */
  lemma IdempotentIffNoOrphan<L>(kind: Sorter<L>, lines: seq<L>)
    ensures var once := Sweep(kind, [], lines);
            Sweep(kind, [], once) == once <==> !HasOrphan(kind, lines)
  {
    SecondPassDeletesOrphans(kind, lines);
    OrphansCounted(kind, [], lines);
  }

  // ---------- what a pass keeps ----------

  lemma {:induction false} KeptAreLines<L>(kind: Sorter<L>, before: seq<L>, rest: seq<L>)
    ensures forall l :: l in Sweep(kind, before, rest) ==> l in rest
    decreases |rest|
  {
    if rest != [] { KeptAreLines(kind, before + [rest[0]], rest[1..]); }
  }

  function CodeLines<L>(kind: Sorter<L>, lines: seq<L>): seq<L> {
    if lines == [] then []
    else (if kind(lines[0]).Code? then [lines[0]] else []) + CodeLines(kind, lines[1..])
  }

  /** No code line is lost, reordered or duplicated. */
  lemma {:induction false} SweepKeepsCode<L>(kind: Sorter<L>, before: seq<L>, rest: seq<L>)
    ensures CodeLines(kind, Sweep(kind, before, rest)) == CodeLines(kind, rest)
    decreases |rest|
  {
    if rest != [] {
      var tail := Sweep(kind, before + [rest[0]], rest[1..]);
      SweepKeepsCode(kind, before + [rest[0]], rest[1..]);
      assert ([rest[0]] + tail)[1..] == tail;
    }
  }

  // ---------- files ----------

  datatype Finding = Finding(lineNumber: nat, lineText: string)

  function Findings(kind: Sorter<string>, before: seq<string>, rest: seq<string>): seq<Finding>
    decreases |rest|
  {
    if rest == [] then []
    else
      var tail := Findings(kind, before + [rest[0]], rest[1..]);
      if Removed(kind, before, rest[0], rest[1..]) then [Finding(|before| + 1, rest[0])] + tail else tail
  }

  function Audit(kind: Sorter<string>, text: string): seq<Finding> {
    Findings(kind, [], Split(text, '\n'))
  }

  /** What `fix` leaves of a file: a file with nothing to remove is not written. */
  function Fix(kind: Sorter<string>, text: string): string {
    var lines := Split(text, '\n');
    var kept := Sweep(kind, [], lines);
    if |kept| == |lines| then text else Join(kept, '\n')
  }

  lemma {:induction false} FindingsCountRemovals(kind: Sorter<string>, before: seq<string>, rest: seq<string>)
    ensures |Findings(kind, before, rest)| + |Sweep(kind, before, rest)| == |rest|
    ensures Findings(kind, before, rest) == [] ==> Sweep(kind, before, rest) == rest
    decreases |rest|
  {
    if rest != [] { FindingsCountRemovals(kind, before + [rest[0]], rest[1..]); }
  }

  /** The lines of a file after `fix`.  A file that loses every line is left with one empty
      line, as an empty text has. */
  lemma LinesAfterFix(kind: Sorter<string>, text: string)
    ensures var kept := Sweep(kind, [], Split(text, '\n'));
            Split(Fix(kind, text), '\n') == if kept == [] then [""] else kept
  {
    var lines := Split(text, '\n');
    var kept := Sweep(kind, [], lines);
    FindingsCountRemovals(kind, [], lines);
    if |kept| != |lines| && kept != [] {
      KeptAreLines(kind, [], lines);
      SplitOfJoin(kept, '\n');
    }
  }

  lemma EmptyFileStays(kind: Sorter<string>)
    requires kind("") == Code
    ensures Sweep(kind, [], [""]) == [""] && Fix(kind, "") == "" && Audit(kind, "") == []
  {
    assert [""][1..] == [];
    assert Split("", '\n') == [""];
  }

  /** Two runs always reach a file on which the audit reports nothing and fix does nothing. */
  lemma TwoFixesAreClean(kind: Sorter<string>, text: string)
    requires kind("") == Code
    ensures var twice := Fix(kind, Fix(kind, text)); Audit(kind, twice) == [] && Fix(kind, twice) == twice
  {
    var lines, once, twice := Split(text, '\n'), Fix(kind, text), Fix(kind, Fix(kind, text));
    LinesAfterFix(kind, text);
    LinesAfterFix(kind, once);
    EmptyFileStays(kind);
    var k1 := Sweep(kind, [], lines);
    if k1 == [] {
      JoinOfSplit(once, '\n');
    } else {
      var k2 := Sweep(kind, [], k1);
      TwoPassesSuffice(kind, lines);
      if k2 == [] {
        JoinOfSplit(twice, '\n');
      } else {
        FindingsCountRemovals(kind, [], k2);
      }
    }
  }

  /** One run is enough exactly when the file has no orphan. */
  lemma OneFixIsEnoughIffNoOrphan(kind: Sorter<string>, text: string)
    requires kind("") == Code
    ensures Fix(kind, Fix(kind, text)) == Fix(kind, text) <==> !HasOrphan(kind, Split(text, '\n'))
  {
    var lines := Split(text, '\n');
    var k1 := Sweep(kind, [], lines);
    IdempotentIffNoOrphan(kind, lines);
    LinesAfterFix(kind, text);
    LinesAfterFix(kind, Fix(kind, text));
    EmptyFileStays(kind);
    if k1 == [] {
      JoinOfSplit(Fix(kind, text), '\n');
    } else {
      FindingsCountRemovals(kind, [], k1);
    }
  }

  /** A run removes as many lines as the audit reports and keeps every code line in place.  A
      file made of removable comments only is the exception: it is left with one empty line. */
  lemma FixRemovesFindingsAndKeepsCode(kind: Sorter<string>, text: string)
    ensures var lines, after := Split(text, '\n'), Split(Fix(kind, text), '\n');
      if |Audit(kind, text)| == |lines| then Fix(kind, text) == "" && CodeLines(kind, lines) == []
      else |after| == |lines| - |Audit(kind, text)| && CodeLines(kind, after) == CodeLines(kind, lines)
  {
    var lines := Split(text, '\n');
    LinesAfterFix(kind, text);
    FindingsCountRemovals(kind, [], lines);
    SweepKeepsCode(kind, [], lines);
  }

  /** The pass removes the line at place i of `rest`. */
  predicate RemovedAt<L>(kind: Sorter<L>, before: seq<L>, rest: seq<L>, i: nat)
    requires i < |rest|
  {
    Removed(kind, before + rest[..i], rest[i], rest[i + 1..])
  }

  lemma RemovedAtFront<L>(kind: Sorter<L>, before: seq<L>, rest: seq<L>)
    requires rest != []
    ensures RemovedAt(kind, before, rest, 0) == Removed(kind, before, rest[0], rest[1..])
  {
    assert before + rest[..0] == before;
  }

  lemma RemovedAtShift<L>(kind: Sorter<L>, before: seq<L>, rest: seq<L>, i: nat)
    requires 0 < i < |rest|
    ensures RemovedAt(kind, before + [rest[0]], rest[1..], i - 1) == RemovedAt(kind, before, rest, i)
  {
    assert (before + [rest[0]]) + rest[1..][..i - 1] == before + rest[..i];
    assert rest[1..][i..] == rest[i + 1..];
  }

  predicate ReportsRemoval(kind: Sorter<string>, before: seq<string>, rest: seq<string>, f: Finding) {
    && |before| < f.lineNumber <= |before| + |rest|
    && f.lineText == rest[f.lineNumber - |before| - 1]
    && RemovedAt(kind, before, rest, f.lineNumber - |before| - 1)
  }

  /** The findings are the lines the pass removes, each with its own number, from the top down. */
  lemma {:induction false} FindingsAreTheRemovedLines(kind: Sorter<string>, before: seq<string>, rest: seq<string>, f: Finding)
    ensures f in Findings(kind, before, rest) <==> ReportsRemoval(kind, before, rest, f)
    decreases |rest|
  {
    if rest != [] {
      var l, after := rest[0], rest[1..];
      FindingsAreTheRemovedLines(kind, before + [l], after, f);
      RemovedAtFront(kind, before, rest);
      var i := f.lineNumber - |before| - 1;
      if 0 < i < |rest| { RemovedAtShift(kind, before, rest, i); }
    }
  }

  lemma {:induction false} FindingsGoDown(kind: Sorter<string>, before: seq<string>, rest: seq<string>)
    ensures var found := Findings(kind, before, rest);
      forall j, k :: 0 <= j < k < |found| ==> found[j].lineNumber < found[k].lineNumber
    decreases |rest|
  {
    if rest != [] {
      var tail := Findings(kind, before + [rest[0]], rest[1..]);
      FindingsGoDown(kind, before + [rest[0]], rest[1..]);
      forall k | 0 <= k < |tail| ensures tail[k].lineNumber > |before| + 1 {
        FindingsAreTheRemovedLines(kind, before + [rest[0]], rest[1..], tail[k]);
      }
    }
  }

  predicate Rising(at: seq<nat>) { forall j, k :: 0 <= j < k < |at| ==> at[j] < at[k] }

  /** The places `at` are, in order, those of the lines the pass does not remove. */
  ghost predicate KeptPlaces<L>(kind: Sorter<L>, before: seq<L>, rest: seq<L>, at: seq<nat>) {
    Rising(at) && forall i: nat :: i in at <==> i < |rest| && !RemovedAt(kind, before, rest, i)
  }

  function OneDown(at: seq<nat>): (moved: seq<nat>)
    ensures |moved| == |at| && forall k :: 0 <= k < |at| ==> moved[k] == at[k] + 1
  {
    seq(|at|, k requires 0 <= k < |at| => at[k] + 1)
  }

  function PlacesFrom(first: bool, sub: seq<nat>): seq<nat> { if first then [0] + OneDown(sub) else OneDown(sub) }

  lemma PlaceMoves(first: bool, sub: seq<nat>, i: nat)
    ensures i in PlacesFrom(first, sub) <==> if i == 0 then first else i - 1 in sub
    ensures Rising(sub) ==> Rising(PlacesFrom(first, sub))
  {
    var moved := OneDown(sub);
    assert i in moved ==> i > 0 && i - 1 in sub;
    if i > 0 && i - 1 in sub {
      var k :| 0 <= k < |sub| && sub[k] == i - 1;
      assert moved[k] == i;
    }
  }

  lemma PlacesCons<L>(kind: Sorter<L>, before: seq<L>, rest: seq<L>, sub: seq<nat>)
    requires rest != [] && KeptPlaces(kind, before + [rest[0]], rest[1..], sub)
    ensures KeptPlaces(kind, before, rest, PlacesFrom(!Removed(kind, before, rest[0], rest[1..]), sub))
  {
    var first := !Removed(kind, before, rest[0], rest[1..]);
    PlaceMoves(first, sub, 0);
    RemovedAtFront(kind, before, rest);
    forall i: nat
      ensures i in PlacesFrom(first, sub) <==> i < |rest| && !RemovedAt(kind, before, rest, i)
    {
      PlaceMoves(first, sub, i);
      if 0 < i < |rest| { RemovedAtShift(kind, before, rest, i); }
    }
  }

  ghost predicate Picks<L>(kept: seq<L>, lines: seq<L>, at: seq<nat>) {
    |kept| == |at| && forall k :: 0 <= k < |at| ==> at[k] < |lines| && kept[k] == lines[at[k]]
  }

  function Places<L>(kind: Sorter<L>, before: seq<L>, rest: seq<L>): seq<nat>
    decreases |rest|
  {
    if rest == [] then []
    else PlacesFrom(!Removed(kind, before, rest[0], rest[1..]), Places(kind, before + [rest[0]], rest[1..]))
  }

  lemma {:induction false} PlacesAreKept<L>(kind: Sorter<L>, before: seq<L>, rest: seq<L>)
    ensures KeptPlaces(kind, before, rest, Places(kind, before, rest))
    decreases |rest|
  {
    if rest != [] {
      PlacesAreKept(kind, before + [rest[0]], rest[1..]);
      PlacesCons(kind, before, rest, Places(kind, before + [rest[0]], rest[1..]));
    }
  }

  lemma {:induction false} SweepPicksPlaces<L>(kind: Sorter<L>, before: seq<L>, rest: seq<L>)
    ensures Picks(Sweep(kind, before, rest), rest, Places(kind, before, rest))
    decreases |rest|
  {
    if rest != [] { SweepPicksPlaces(kind, before + [rest[0]], rest[1..]); }
  }

  /** What a pass leaves is every line it does not remove, each once and in its order. */
  lemma SweptAreTheOthers<L>(kind: Sorter<L>, lines: seq<L>) returns (at: seq<nat>)
    ensures KeptPlaces(kind, [], lines, at) && Picks(Sweep(kind, [], lines), lines, at)
  {
    at := Places(kind, [], lines);
    PlacesAreKept(kind, [], lines);
    SweepPicksPlaces(kind, [], lines);
  }

  // ---------- the two loops ----------

  /** The audit's loop over one file. */
  method AuditFile(kind: Sorter<string>, text: string) returns (found: seq<Finding>)
    ensures found == Audit(kind, text)
  {
    var lines := Split(text, '\n');
    found := [];
    var i := 0;
    while i < |lines|
      invariant 0 <= i <= |lines|
      invariant Audit(kind, text) == found + Findings(kind, lines[..i], lines[i..])
    {
      var prev := if i > 0 then Some(lines[i - 1]) else None;
      var next := if i + 1 < |lines| then Some(lines[i + 1]) else None;
      assert lines[..i + 1] == lines[..i] + [lines[i]];
      if Goes(kind, lines[i], prev, next) {
        found := found + [Finding(i + 1, lines[i])];
      }
      i := i + 1;
    }
  }

  /** What the line at i adds to the kept lines, as the loops read its neighbours. */
  lemma SweepAt<L>(kind: Sorter<L>, lines: seq<L>, i: nat, prev: Option<L>, next: Option<L>)
    requires i < |lines| && prev == (if i > 0 then Some(lines[i - 1]) else None)
    requires next == if i + 1 < |lines| then Some(lines[i + 1]) else None
    ensures Sweep(kind, lines[..i], lines[i..])
            == if Goes(kind, lines[i], prev, next) then Sweep(kind, lines[..i + 1], lines[i + 1..])
               else [lines[i]] + Sweep(kind, lines[..i + 1], lines[i + 1..])
  {
    SweepCons(kind, lines[..i], lines[i], lines[i + 1..]);
    assert lines[i..] == [lines[i]] + lines[i + 1..] && lines[..i + 1] == lines[..i] + [lines[i]];
  }

  /** The pass is done up to line i, and `keep` is what it has kept so far. */
  ghost predicate SweptTo<L>(kind: Sorter<L>, lines: seq<L>, i: nat, keep: seq<L>) {
    i <= |lines| && Sweep(kind, [], lines) == keep + Sweep(kind, lines[..i], lines[i..])
  }

  lemma SweptStart<L>(kind: Sorter<L>, lines: seq<L>)
    ensures SweptTo(kind, lines, 0, [])
  {
    assert lines[..0] == [] && lines[0..] == lines;
  }

  lemma SweptStep<L>(kind: Sorter<L>, lines: seq<L>, i: nat, keep: seq<L>, prev: Option<L>, next: Option<L>)
    requires i < |lines| && SweptTo(kind, lines, i, keep)
    requires prev == (if i > 0 then Some(lines[i - 1]) else None)
    requires next == if i + 1 < |lines| then Some(lines[i + 1]) else None
    ensures SweptTo(kind, lines, i + 1, if Goes(kind, lines[i], prev, next) then keep else keep + [lines[i]])
  {
    SweepAt(kind, lines, i, prev, next);
  }

  lemma SweptEnd<L>(kind: Sorter<L>, lines: seq<L>, keep: seq<L>)
    requires SweptTo(kind, lines, |lines|, keep)
    ensures Sweep(kind, [], lines) == keep
  {
    assert lines[|lines|..] == [];
  }

  /** The fixing loop over one file. */
  method FixFile(kind: Sorter<string>, text: string) returns (after: string, removed: nat)
    ensures after == Fix(kind, text)
    ensures removed == |Audit(kind, text)|
  {
    var lines := Split(text, '\n');
    var keep: seq<string> := [];
    SweptStart(kind, lines);
    removed := 0;
    var i := 0;
    while i < |lines|
      invariant 0 <= i <= |lines|
      invariant SweptTo(kind, lines, i, keep)
      invariant |keep| + removed == i
    {
      var prev := if i > 0 then Some(lines[i - 1]) else None;
      var next := if i + 1 < |lines| then Some(lines[i + 1]) else None;
      SweptStep(kind, lines, i, keep, prev, next);
      if Goes(kind, lines[i], prev, next) {
        removed := removed + 1;
      } else {
        keep := keep + [lines[i]];
      }
      i := i + 1;
    }
    SweptEnd(kind, lines, keep);
    FindingsCountRemovals(kind, [], lines);
    after := if removed == 0 then text else Join(keep, '\n');
  }
}
