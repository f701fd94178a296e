/** node:path/posix on absolute paths, as lists of segments. */
module PosixPath {
  import opened JsText

  type Dir = seq<string>

  /** A segment a normalised path can contain. */
  predicate Plain(seg: string) { seg != "" && seg != "." && seg != ".." && '/' !in seg }

  predicate Normal(dir: Dir) { forall i :: 0 <= i < |dir| ==> Plain(dir[i]) }

  /** One step of normalisation; ".." at the root stays there. */
  function Enter(dir: Dir, seg: string): Dir {
    if seg == "" || seg == "." then dir
    else if seg == ".." then if dir == [] then [] else dir[..|dir| - 1]
    else dir + [seg]
  }

  /** normalize(join(dir, ...)). */
  function Walk(dir: Dir, segs: seq<string>): Dir
    decreases |segs|
  {
    if segs == [] then dir else Enter(Walk(dir, segs[..|segs| - 1]), segs[|segs| - 1])
  }

  function Resolve(dir: Dir, spec: string): Dir { Walk(dir, Split(spec, '/')) }

  lemma {:induction false} WalkAppend(dir: Dir, a: seq<string>, b: seq<string>)
    ensures Walk(dir, a + b) == Walk(Walk(dir, a), b)
    decreases |b|
  {
    if b == [] {
      assert a + b == a;
    } else {
      assert (a + b)[..|a + b| - 1] == a + b[..|b| - 1];
      WalkAppend(dir, a, b[..|b| - 1]);
    }
  }

  lemma {:induction false} WalkStaysNormal(dir: Dir, segs: seq<string>)
    requires Normal(dir) && forall i :: 0 <= i < |segs| ==> '/' !in segs[i]
    ensures Normal(Walk(dir, segs))
    decreases |segs|
  {
    if segs != [] { WalkStaysNormal(dir, segs[..|segs| - 1]); }
  }

  lemma ResolveIsNormal(dir: Dir, spec: string)
    requires Normal(dir)
    ensures Normal(Resolve(dir, spec))
  {
    var segs := Split(spec, '/');
    forall i | 0 <= i < |segs| ensures '/' !in segs[i] {
      assert segs[i] in segs;
    }
    WalkStaysNormal(dir, segs);
  }

  lemma {:induction false} WalkCons(dir: Dir, seg: string, segs: seq<string>)
    ensures Walk(dir, [seg] + segs) == Walk(Enter(dir, seg), segs)
  {
    WalkAppend(dir, [seg], segs);
    assert [seg][..0] == [] && Walk(dir, [seg]) == Enter(dir, seg);
  }

  /** Where a path leads, segment by segment: a blank one and "." stay, ".." goes up unless at the
      root, and any other name goes down. */
  lemma ResolveStep(dir: Dir, seg: string, rest: string)
    requires '/' !in seg
    ensures Resolve(dir, seg + "/" + rest) == Resolve(Enter(dir, seg), rest) && Resolve(dir, seg) == Enter(dir, seg)
    ensures Enter(dir, seg) ==
      if seg == "" || seg == "." then dir
      else if seg != ".." then dir + [seg]
      else if dir == [] then [] else dir[..|dir| - 1]
  {
    SplitOfCons(seg, '/', rest);
    assert seg + ['/'] + rest == seg + "/" + rest;
    WalkCons(dir, seg, Split(rest, '/'));
    SplitOfPart(seg, '/');
    WalkCons(dir, seg, []);
    assert [seg] + [] == [seg];
  }

  // ---------- relative(from, to) ----------

  /** How many leading segments two paths share. */
  function Common(a: Dir, b: Dir): (n: nat)
    ensures n <= |a| && n <= |b| && a[..n] == b[..n]
    ensures n < |a| && n < |b| ==> a[n] != b[n]
    decreases |a|
  {
    if a != [] && b != [] && a[0] == b[0] then
      CommonStep(a, b, Common(a[1..], b[1..]));
      1 + Common(a[1..], b[1..])
    else 0
  }

  lemma CommonStep(a: Dir, b: Dir, n: nat)
    requires a != [] && b != [] && a[0] == b[0]
    requires n <= |a| - 1 && n <= |b| - 1 && a[1..][..n] == b[1..][..n]
    ensures a[..1 + n] == b[..1 + n]
  {
    assert a[..1 + n] == [a[0]] + a[1..][..n];
    assert b[..1 + n] == [b[0]] + b[1..][..n];
  }

  function Ups(n: nat): seq<string> { seq(n, _ => "..") }

  function RelativeSegs(from: Dir, to: Dir): seq<string> {
    var n := Common(from, to);
    Ups(|from| - n) + to[n..]
  }

  function Relative(from: Dir, to: Dir): string { Join(RelativeSegs(from, to), '/') }

  lemma {:induction false} WalkUp(dir: Dir, n: nat)
    requires n <= |dir|
    ensures Walk(dir, Ups(n)) == dir[..|dir| - n]
  {
    if n > 0 {
      assert Ups(n)[..n - 1] == Ups(n - 1);
      WalkUp(dir, n - 1);
    }
  }

  lemma {:induction false} WalkDown(dir: Dir, segs: Dir)
    requires Normal(segs)
    ensures Walk(dir, segs) == dir + segs
    decreases |segs|
  {
    if segs != [] {
      var front, last := segs[..|segs| - 1], segs[|segs| - 1];
      WalkDown(dir, front);
      assert Plain(last) && segs == front + [last];
      assert dir + segs == (dir + front) + [last];
    }
  }

  /** Walking the relative path from its start arrives at its end. */
  lemma RelativeArrives(from: Dir, to: Dir)
    requires Normal(to)
    ensures Walk(from, RelativeSegs(from, to)) == to
  {
    var n := Common(from, to);
    WalkAppend(from, Ups(|from| - n), to[n..]);
    WalkUp(from, |from| - n);
    WalkDown(from[..n], to[n..]);
    assert to[..n] + to[n..] == to;
  }

  lemma CommonIsMost(a: Dir, b: Dir, k: nat)
    requires k <= |a| && k <= |b| && a[..k] == b[..k]
    ensures k <= Common(a, b)
  {
    var n := Common(a, b);
    assert forall i :: 0 <= i < k ==> a[i] == a[..k][i] && b[i] == b[..k][i];
  }

  /** One more name: the relative path loses its last "..", or grows by the name. */
  lemma EnterDown(from: Dir, dir: Dir, seg: string)
    ensures var before, after := RelativeSegs(from, dir), RelativeSegs(from, dir + [seg]);
      |after| < |before| || after == before + [seg]
  {
    var n, m, to := Common(from, dir), Common(from, dir + [seg]), dir + [seg];
    assert to[..n] == dir[..n];
    CommonIsMost(from, to, n);
    if m == n {
      assert to[n..] == dir[n..] + [seg];
    }
  }

  /** One up: the relative path loses its last name, or grows by "..". */
  lemma EnterUp(from: Dir, dir: Dir)
    requires dir != []
    ensures var before, after := RelativeSegs(from, dir), RelativeSegs(from, dir[..|dir| - 1]);
      |after| < |before| || after == before + [".."]
  {
    var n, to := Common(from, dir), dir[..|dir| - 1];
    var m := Common(from, to);
    if n < |dir| {
      assert to[..n] == dir[..n];
      CommonIsMost(from, to, n);
    } else {
      assert to[..n - 1] == dir[..n - 1] && from[..n][..n - 1] == from[..n - 1];
      CommonIsMost(from, to, n - 1);
      assert RelativeSegs(from, dir) == Ups(|from| - n);
      assert Ups(|from| - n) + [".."] == Ups(|from| - n + 1);
    }
  }

  lemma EnterStep(from: Dir, dir: Dir, seg: string)
    ensures var before, after := RelativeSegs(from, dir), RelativeSegs(from, Enter(dir, seg));
      |after| <= |before| || after == before + [seg]
  {
    if seg != "" && seg != "." && seg != ".." {
      EnterDown(from, dir, seg);
    } else if seg == ".." && dir != [] {
      EnterUp(from, dir);
    }
  }

  lemma LongerByOne(best: seq<string>, front: seq<string>, last: string, after: seq<string>)
    requires |best| <= |front| && (|best| == |front| ==> front == best)
    requires |after| <= |best| || after == best + [last]
    ensures |after| <= |front + [last]| && (|after| == |front + [last]| ==> front + [last] == after)
  {
  }

  /** No other path is as short: whatever segments lead to the same place are more, or are these. */
  lemma {:induction false} RelativeIsShortest(from: Dir, segs: seq<string>)
    ensures var best := RelativeSegs(from, Walk(from, segs));
      |best| <= |segs| && (|best| == |segs| ==> segs == best)
    decreases |segs|
  {
    if segs == [] {
      CommonIsMost(from, from, |from|);
    } else {
      var front, last := segs[..|segs| - 1], segs[|segs| - 1];
      var dir := Walk(from, front);
      RelativeIsShortest(from, front);
      EnterStep(from, dir, last);
      LongerByOne(RelativeSegs(from, dir), front, last, RelativeSegs(from, Enter(dir, last)));
      assert segs == front + [last];
    }
  }
}
