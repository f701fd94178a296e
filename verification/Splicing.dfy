/** Inserting lines above given lines of a file: all at once, and one splice at a time from
    the bottom up.  `tag` makes the inserted line from the line it goes above. */
module Splicing {

  /** How many of the insertions are at lines lo, ..., hi - 1. */
  function Count(ins: seq<nat>, lo: nat, hi: nat): (c: nat)
    ensures c <= |ins|
  {
    if ins == [] then 0 else (if lo <= ins[0] < hi then 1 else 0) + Count(ins[1..], lo, hi)
  }

  lemma {:induction false} CountSplits(ins: seq<nat>, lo: nat, mid: nat, hi: nat)
    requires lo <= mid <= hi
    ensures Count(ins, lo, hi) == Count(ins, lo, mid) + Count(ins, mid, hi)
  {
    if ins != [] { CountSplits(ins[1..], lo, mid, hi); }
  }

  lemma {:induction false} CountSnoc(ins: seq<nat>, x: nat, lo: nat, hi: nat)
    ensures Count(ins + [x], lo, hi) == Count(ins, lo, hi) + if lo <= x < hi then 1 else 0
  {
    if ins == [] {
      assert ins + [x] == [x];
    } else {
      assert (ins + [x])[1..] == ins[1..] + [x];
      CountSnoc(ins[1..], x, lo, hi);
    }
  }

  lemma {:induction false} CountPositive(ins: seq<nat>, lo: nat, hi: nat)
    ensures Count(ins, lo, hi) > 0 <==> exists k :: 0 <= k < |ins| && lo <= ins[k] < hi
  {
    if ins != [] {
      CountPositive(ins[1..], lo, hi);
      if k :| 0 <= k < |ins| && lo <= ins[k] < hi {
        if k > 0 { assert ins[1..][k - 1] == ins[k]; }
      }
      if k :| 0 <= k < |ins[1..]| && lo <= ins[1..][k] < hi {
        assert ins[k + 1] == ins[1..][k];
      }
    }
  }

  lemma {:induction false} CountEmpty(ins: seq<nat>, x: nat)
    ensures Count(ins, x, x) == 0
  {
    if ins != [] { CountEmpty(ins[1..], x); }
  }

  function Copies<T>(n: nat, line: T): seq<T> { seq(n, _ => line) }

  /** A line below n copies of its tag. */
  function Block<T>(n: nat, tagged: T, line: T): (b: seq<T>)
    ensures |b| == n + 1
    ensures forall p :: 0 <= p <= n ==> b[p] == if p < n then tagged else line
  {
    Copies(n, tagged) + [line]
  }

  lemma BlockGrows<T>(n: nat, tagged: T, line: T, rest: seq<T>)
    ensures Block(n + 1, tagged, line) + rest == [tagged] + (Block(n, tagged, line) + rest)
  {
    assert Block(n + 1, tagged, line) == [tagged] + Block(n, tagged, line);
  }

  /** The file with every insertion made at once: copies of a line's tag directly above it,
      and insertions past the end at the end. */
  function WeaveFrom<T>(lines: seq<T>, ins: seq<nat>, tag: T -> T, blank: T, i: nat): (w: seq<T>)
    requires i <= |lines|
    ensures |w| == |lines| - i + |ins| - Count(ins, 0, i)
    decreases |lines| - i
  {
    CountSplits(ins, 0, i, i + 1);
    if i == |lines| then Copies(|ins| - Count(ins, 0, i), tag(blank))
    else Block(Count(ins, i, i + 1), tag(lines[i]), lines[i]) + WeaveFrom(lines, ins, tag, blank, i + 1)
  }

  function Weave<T>(lines: seq<T>, ins: seq<nat>, tag: T -> T, blank: T): (w: seq<T>)
    ensures |w| == |lines| + |ins|
  {
    CountEmpty(ins, 0);
    WeaveFrom(lines, ins, tag, blank, 0)
  }

  /** Where original line i ends up: below every insertion at or above it. */
  function NewIndex(ins: seq<nat>, i: nat): nat { i + Count(ins, 0, i + 1) }

  // ---------- what stands where in the woven file ----------

  lemma {:induction false} KeptFrom<T>(lines: seq<T>, ins: seq<nat>, tag: T -> T, blank: T, i: nat, j: nat)
    requires i <= j < |lines|
    ensures var q := j - i + Count(ins, i, j + 1);
            q < |WeaveFrom(lines, ins, tag, blank, i)| && WeaveFrom(lines, ins, tag, blank, i)[q] == lines[j]
    decreases j - i
  {
    var c := Count(ins, i, i + 1);
    CountSplits(ins, i, i + 1, j + 1);
    CountSplits(ins, 0, i, i + 1);
    if i < j {
      KeptFrom(lines, ins, tag, blank, i + 1, j);
      var rest := WeaveFrom(lines, ins, tag, blank, i + 1);
      var q, b := j - i + Count(ins, i, j + 1), Block(c, tag(lines[i]), lines[i]);
      assert WeaveFrom(lines, ins, tag, blank, i) == b + rest && (b + rest)[q] == rest[q - |b|];
    } else {
      CountEmpty(ins, j + 1);
    }
  }

  /** Every original line is found at its new place. */
  lemma KeptAt<T>(lines: seq<T>, ins: seq<nat>, tag: T -> T, blank: T, j: nat)
    requires j < |lines|
    ensures NewIndex(ins, j) < |lines| + |ins| && Weave(lines, ins, tag, blank)[NewIndex(ins, j)] == lines[j]
  {
    CountEmpty(ins, 0);
    KeptFrom(lines, ins, tag, blank, 0, j);
  }

  /** Original lines keep their order, and move apart by the insertions between them. */
  lemma NewIndexMoves(ins: seq<nat>, i: nat, j: nat)
    requires i <= j
    ensures NewIndex(ins, j) - NewIndex(ins, i) == j - i + Count(ins, i + 1, j + 1)
  {
    CountSplits(ins, 0, i + 1, j + 1);
  }

  /** The block of tags above a line lies below every line before it. */
  lemma BlocksInOrder(ins: seq<nat>, j: nat, s: nat)
    requires j < s
    ensures NewIndex(ins, j) + Count(ins, s, s + 1) < NewIndex(ins, s)
  {
    CountSplits(ins, 0, j + 1, s);
    CountSplits(ins, 0, s, s + 1);
  }

  /** The woven file without the tags: of each block only its last line is kept. */
  function UnweaveFrom<T>(w: seq<T>, ins: seq<nat>, i: nat, n: nat): seq<T>
    requires i <= n
    decreases n - i
  {
    var c := Count(ins, i, i + 1);
    if i == n || |w| <= c then [] else [w[c]] + UnweaveFrom(w[c + 1..], ins, i + 1, n)
  }

  /** Erasing the insertions gives the original file back. */
  lemma {:induction false} UnweaveOfWeave<T>(lines: seq<T>, ins: seq<nat>, tag: T -> T, blank: T, i: nat)
    requires i <= |lines|
    ensures UnweaveFrom(WeaveFrom(lines, ins, tag, blank, i), ins, i, |lines|) == lines[i..]
    decreases |lines| - i
  {
    if i < |lines| {
      var c, w, rest := Count(ins, i, i + 1), WeaveFrom(lines, ins, tag, blank, i), WeaveFrom(lines, ins, tag, blank, i + 1);
      UnweaveOfWeave(lines, ins, tag, blank, i + 1);
      var b := Block(c, tag(lines[i]), lines[i]);
      assert w == b + rest && |b| == c + 1;
      assert w[c] == b[c] == lines[i] && w[c + 1..] == rest;
      assert lines[i..] == [lines[i]] + lines[i + 1..];
    }
  }

  lemma {:induction false} LocateFrom<T>(lines: seq<T>, ins: seq<nat>, tag: T -> T, blank: T, i: nat, q: nat) returns (j: nat)
    requires i <= |lines| && q < |WeaveFrom(lines, ins, tag, blank, i)|
    ensures i <= j <= |lines|
    ensures var at := j - i + Count(ins, i, j); var w := WeaveFrom(lines, ins, tag, blank, i);
            && at <= q
            && (j < |lines| ==> q <= at + Count(ins, j, j + 1))
            && (j < |lines| ==> w[q] == if q == at + Count(ins, j, j + 1) then lines[j] else tag(lines[j]))
            && (j == |lines| ==> w[q] == tag(blank))
    decreases |lines| - i
  {
    CountEmpty(ins, i);
    CountSplits(ins, 0, i, i + 1);
    var c := Count(ins, i, i + 1);
    if i == |lines| || q <= c {
      j := i;
    } else {
      j := LocateFrom(lines, ins, tag, blank, i + 1, q - c - 1);
      CountSplits(ins, i, i + 1, j);
      assert WeaveFrom(lines, ins, tag, blank, i)[q] == WeaveFrom(lines, ins, tag, blank, i + 1)[q - c - 1];
    }
  }

  /** Every other line is a tag, standing in the block directly above the line it was made from,
      or past the last line. */
  lemma Locate<T>(lines: seq<T>, ins: seq<nat>, tag: T -> T, blank: T, q: nat) returns (j: nat)
    requires q < |lines| + |ins|
    ensures j <= |lines|
    ensures j < |lines| ==> NewIndex(ins, j) - Count(ins, j, j + 1) <= q <= NewIndex(ins, j)
    ensures j < |lines| ==>
      Weave(lines, ins, tag, blank)[q] == if q == NewIndex(ins, j) then lines[j] else tag(lines[j])
    ensures j == |lines| ==> Weave(lines, ins, tag, blank)[q] == tag(blank) && forall i: nat :: i < |lines| ==> NewIndex(ins, i) < q
  {
    CountEmpty(ins, 0);
    j := LocateFrom(lines, ins, tag, blank, 0, q);
    CountSplits(ins, 0, j, j + 1);
    if j == |lines| {
      forall i: nat | i < |lines| ensures NewIndex(ins, i) < q {
        CountSplits(ins, 0, i + 1, j);
      }
    }
  }

  // ---------- bottom-up splicing ----------

  predicate NoneBelow(ins: seq<nat>, lo: nat) {
    forall k :: 0 <= k < |ins| ==> lo <= ins[k]
  }

  lemma CountBelowIsZero(ins: seq<nat>, lo: nat, mid: nat, hi: nat)
    requires NoneBelow(ins, hi)
    ensures Count(ins, lo, mid) == if mid <= hi then 0 else Count(ins, lo, mid)
  {
    CountPositive(ins, lo, mid);
  }

  lemma WeaveUntagged<T>(lines: seq<T>, ins: seq<nat>, tag: T -> T, blank: T, i: nat)
    requires i < |lines| && Count(ins, i, i + 1) == 0
    ensures WeaveFrom(lines, ins, tag, blank, i) == [lines[i]] + WeaveFrom(lines, ins, tag, blank, i + 1)
  {
    assert Block(0, tag(lines[i]), lines[i]) == [lines[i]];
  }

  lemma ConsAppend<T>(x: T, a: seq<T>, b: seq<T>)
    ensures ([x] + a) + b == [x] + (a + b)
  {
  }

  /** Above its first insertion the file is unchanged. */
  lemma {:induction false} WeaveAbove<T>(lines: seq<T>, ins: seq<nat>, tag: T -> T, blank: T, i: nat, idx: nat)
    requires i <= idx <= |lines| && NoneBelow(ins, idx)
    ensures WeaveFrom(lines, ins, tag, blank, i) == lines[i..idx] + WeaveFrom(lines, ins, tag, blank, idx)
    decreases idx - i
  {
    if i < idx {
      CountBelowIsZero(ins, i, i + 1, idx);
      WeaveUntagged(lines, ins, tag, blank, i);
      WeaveAbove(lines, ins, tag, blank, i + 1, idx);
      assert lines[i..idx] == [lines[i]] + lines[i + 1..idx];
      ConsAppend(lines[i], lines[i + 1..idx], WeaveFrom(lines, ins, tag, blank, idx));
    } else {
      assert lines[i..idx] == [];
    }
  }

  /** Below an insertion the file does not depend on it. */
  /** From i on, only the counts of the insertions matter. */
  lemma SameCountsSameWeave<T>(lines: seq<T>, ins: seq<nat>, more: seq<nat>, tag: T -> T, blank: T, i: nat)
    requires i <= |lines| && Count(more, i, i + 1) == Count(ins, i, i + 1)
    requires |more| - Count(more, 0, i) == |ins| - Count(ins, 0, i)
    requires i < |lines| ==> WeaveFrom(lines, more, tag, blank, i + 1) == WeaveFrom(lines, ins, tag, blank, i + 1)
    ensures WeaveFrom(lines, more, tag, blank, i) == WeaveFrom(lines, ins, tag, blank, i)
  {
  }

  lemma {:induction false} WeaveBelow<T>(lines: seq<T>, ins: seq<nat>, x: nat, tag: T -> T, blank: T, i: nat)
    requires x < i <= |lines|
    ensures WeaveFrom(lines, ins + [x], tag, blank, i) == WeaveFrom(lines, ins, tag, blank, i)
    decreases |lines| - i
  {
    CountSnoc(ins, x, i, i + 1);
    CountSnoc(ins, x, 0, i);
    if i < |lines| { WeaveBelow(lines, ins, x, tag, blank, i + 1); }
    SameCountsSameWeave(lines, ins, ins + [x], tag, blank, i);
  }

  /** JavaScript's splice(idx, 0, line): an index past the end means the end. */
  function Splice<T>(cur: seq<T>, idx: nat, line: T): seq<T> {
    var at := if idx < |cur| then idx else |cur|;
    cur[..at] + [line] + cur[at..]
  }

  function LineAt<T>(cur: seq<T>, idx: nat, blank: T): T { if idx < |cur| then cur[idx] else blank }

  /** Splicing at or above every earlier insertion is adding it to the simultaneous ones. */
  lemma SpliceIsWeave<T>(lines: seq<T>, ins: seq<nat>, tag: T -> T, blank: T, idx: nat)
    requires NoneBelow(ins, idx) && (forall l :: tag(tag(l)) == tag(l))
    ensures var cur := Weave(lines, ins, tag, blank);
            Splice(cur, idx, tag(LineAt(cur, idx, blank))) == Weave(lines, ins + [idx], tag, blank)
  {
    CountEmpty(ins, 0);
    CountEmpty(ins + [idx], 0);
    if idx < |lines| {
      SpliceInside(lines, ins, tag, blank, idx);
    } else {
      SplicePastEnd(lines, ins, tag, blank, idx);
    }
  }

  lemma SpliceInside<T>(lines: seq<T>, ins: seq<nat>, tag: T -> T, blank: T, idx: nat)
    requires idx < |lines| && NoneBelow(ins, idx) && (forall l :: tag(tag(l)) == tag(l))
    ensures var cur := WeaveFrom(lines, ins, tag, blank, 0);
            Splice(cur, idx, tag(LineAt(cur, idx, blank))) == WeaveFrom(lines, ins + [idx], tag, blank, 0)
  {
    var rest := WeaveFrom(lines, ins, tag, blank, idx);
    WeaveAbove(lines, ins, tag, blank, 0, idx);
    WeaveAbove(lines, ins + [idx], tag, blank, 0, idx);
    OneMoreTag(lines, ins, tag, blank, idx);
    SpliceBetween(lines[0..idx], rest, tag(lines[idx]));
  }

  lemma SpliceBetween<T>(a: seq<T>, b: seq<T>, line: T)
    ensures Splice(a + b, |a|, line) == a + ([line] + b)
    ensures b != [] ==> LineAt(a + b, |a|, line) == b[0]
  {
    assert (a + b)[..|a|] == a && (a + b)[|a|..] == b;
  }

  lemma OneMoreTag<T>(lines: seq<T>, ins: seq<nat>, tag: T -> T, blank: T, idx: nat)
    requires idx < |lines| && (forall l :: tag(tag(l)) == tag(l))
    ensures WeaveFrom(lines, ins + [idx], tag, blank, idx) == [tag(lines[idx])] + WeaveFrom(lines, ins, tag, blank, idx)
    ensures WeaveFrom(lines, ins, tag, blank, idx) != []
    ensures tag(WeaveFrom(lines, ins, tag, blank, idx)[0]) == tag(lines[idx])
  {
    var c, t := Count(ins, idx, idx + 1), tag(lines[idx]);
    WeaveBelow(lines, ins, idx, tag, blank, idx + 1);
    CountSnoc(ins, idx, idx, idx + 1);
    CountSplits(ins, 0, idx, idx + 1);
    BlockGrows(c, t, lines[idx], WeaveFrom(lines, ins, tag, blank, idx + 1));
  }

  lemma SplicePastEnd<T>(lines: seq<T>, ins: seq<nat>, tag: T -> T, blank: T, idx: nat)
    requires |lines| <= idx && NoneBelow(ins, idx) && (forall l :: tag(tag(l)) == tag(l))
    ensures var cur := WeaveFrom(lines, ins, tag, blank, 0);
            Splice(cur, idx, tag(LineAt(cur, idx, blank))) == WeaveFrom(lines, ins + [idx], tag, blank, 0)
  {
    var n, t := |lines|, tag(blank);
    WeaveAbove(lines, ins, tag, blank, 0, n);
    WeaveAbove(lines, ins + [idx], tag, blank, 0, n);
    CountBelowIsZero(ins, 0, n, idx);
    CountBelowIsZero(ins + [idx], 0, n, idx);
    assert lines[0..n] == lines;
    SpliceIntoCopies(lines, |ins|, t, idx);
    assert tag(LineAt(lines + Copies(|ins|, t), idx, blank)) == t;
  }

  lemma SpliceIntoCopies<T>(lines: seq<T>, n: nat, t: T, idx: nat)
    requires |lines| <= idx
    ensures Splice(lines + Copies(n, t), idx, t) == lines + Copies(n + 1, t)
  {
  }
}
