/** Reading a line from left to right.  Where what follows a repetition cannot begin with a
    character of the repetition, only the longest stretch will do, so one scan decides whether
    an expression matches. */
module RegexReading {
  import opened JsText
  import opened Regex

  /** The expression matches the line from position i to its end. */
  predicate Reads(r: Re, s: string, i: nat)
    requires i <= |s|
  {
    Spans(r, s, i, |s|)
  }

  /** The end of the longest stretch of such characters from position i on. */
  function SkipRun(cs: CharSet, s: string, i: nat): (r: nat)
    requires i <= |s|
    ensures i <= r <= |s|
    ensures forall p :: i <= p < r ==> cs.Has(s[p])
    ensures r < |s| ==> !cs.Has(s[r])
    decreases |s| - i
  {
    if i < |s| && cs.Has(s[i]) then SkipRun(cs, s, i + 1) else i
  }

  lemma SkipRunAt(cs: CharSet, s: string, i: nat, k: nat)
    requires i <= k <= |s| && (k < |s| ==> !cs.Has(s[k]))
    requires forall p :: i <= p < k ==> cs.Has(s[p])
    ensures SkipRun(cs, s, i) == k
  {
  }

  lemma StandsIff(s: string, i: nat, w: string)
    ensures Stands(s, i, w) <==> StartsAt(s, i, w)
  {
    if Stands(s, i, w) { assert s[i..i + |w|] == w; }
    if StartsAt(s, i, w) {
      forall d | 0 <= d < |w| ensures s[i + d] == w[d] { CharIn(s, i, w, d); }
    }
  }

  // ---------- one step of reading ----------

  lemma CatToRight(a: Re, b: Re, c: Re, s: string, i: nat, j: nat)
    requires i <= j <= |s| && Spans(Cat(Cat(a, b), c), s, i, j)
    ensures Spans(Cat(a, Cat(b, c)), s, i, j)
  {
    var m := SplitCat(Cat(a, b), c, s, i, j);
    var k := SplitCat(a, b, s, i, m);
    PieceCat(b, c, s, k, m, j);
    PieceCat(a, Cat(b, c), s, i, k, j);
  }

  lemma CatToLeft(a: Re, b: Re, c: Re, s: string, i: nat, j: nat)
    requires i <= j <= |s| && Spans(Cat(a, Cat(b, c)), s, i, j)
    ensures Spans(Cat(Cat(a, b), c), s, i, j)
  {
    var k := SplitCat(a, Cat(b, c), s, i, j);
    var m := SplitCat(b, c, s, k, j);
    PieceCat(a, b, s, i, k, m);
    PieceCat(Cat(a, b), c, s, i, m, j);
  }

  lemma ReadCat(a: Re, b: Re, rest: Re, s: string, i: nat)
    requires i <= |s|
    ensures Reads(Cat(Cat(a, b), rest), s, i) <==> Reads(Cat(a, Cat(b, rest)), s, i)
  {
    if Reads(Cat(Cat(a, b), rest), s, i) { CatToRight(a, b, rest, s, i, |s|); }
    if Reads(Cat(a, Cat(b, rest)), s, i) { CatToLeft(a, b, rest, s, i, |s|); }
  }

  lemma ReadEmpty(rest: Re, s: string, i: nat)
    requires i <= |s|
    ensures Reads(Cat(Empty, rest), s, i) <==> Reads(rest, s, i)
  {
    if Reads(Cat(Empty, rest), s, i) { var k := SplitCat(Empty, rest, s, i, |s|); }
    if Reads(rest, s, i) { PieceCat(Empty, rest, s, i, i, |s|); }
  }

  /** The expressions of the list one after the other, then the rest. */
  function Chain(rs: seq<Re>, rest: Re): Re {
    if rs == [] then rest else Cat(rs[0], Chain(rs[1..], rest))
  }

  lemma {:induction false} ReadAll(rs: seq<Re>, rest: Re, s: string, i: nat)
    requires i <= |s|
    ensures Reads(Cat(All(rs), rest), s, i) <==> Reads(Chain(rs, rest), s, i)
    decreases |rs|
  {
    if rs == [] {
      ReadEmpty(rest, s, i);
    } else {
      ReadCat(rs[0], All(rs[1..]), rest, s, i);
      forall k: nat | i <= k <= |s|
        ensures Reads(Cat(All(rs[1..]), rest), s, k) <==> Reads(Chain(rs[1..], rest), s, k)
      {
        ReadAll(rs[1..], rest, s, k);
      }
      SameBehind(rs[0], Cat(All(rs[1..]), rest), Chain(rs[1..], rest), s, i);
    }
  }

  lemma ChainOf(r: Re, more: seq<Re>, rest: Re)
    ensures Chain([r] + more, rest) == Cat(r, Chain(more, rest))
  {
    assert ([r] + more)[1..] == more;
  }

  lemma ChainOfThree(a: Re, b: Re, c: Re, more: seq<Re>, rest: Re)
    ensures Chain([a, b, c] + more, rest) == Cat(a, Cat(b, Cat(c, Chain(more, rest))))
  {
    assert [a, b, c] + more == [a] + ([b] + ([c] + more));
    ChainOf(a, [b] + ([c] + more), rest);
    ChainOf(b, [c] + more, rest);
    ChainOf(c, more, rest);
  }

  /** Expressions that agree everywhere agree behind the same head. */
  lemma SameBehind(a: Re, x: Re, y: Re, s: string, i: nat)
    requires i <= |s| && forall k: nat :: i <= k <= |s| ==> (Reads(x, s, k) <==> Reads(y, s, k))
    ensures Reads(Cat(a, x), s, i) <==> Reads(Cat(a, y), s, i)
  {
    if Reads(Cat(a, x), s, i) {
      var k := SplitCat(a, x, s, i, |s|);
      assert Reads(x, s, k);
      PieceCat(a, y, s, i, k, |s|);
    }
    if Reads(Cat(a, y), s, i) {
      var k := SplitCat(a, y, s, i, |s|);
      assert Reads(y, s, k);
      PieceCat(a, x, s, i, k, |s|);
    }
  }

  lemma AllOf(r: Re, rest: seq<Re>)
    ensures All([r] + rest) == Cat(r, All(rest))
  {
    assert ([r] + rest)[1..] == rest;
  }

  lemma AllOfTwo(a: Re, b: Re, rest: seq<Re>)
    ensures All([a, b] + rest) == Cat(a, Cat(b, All(rest)))
  {
    assert [a, b] + rest == [a] + ([b] + rest);
    AllOf(a, [b] + rest);
    AllOf(b, rest);
  }

  lemma AllOfFour(a: Re, b: Re, c: Re, d: Re, rest: seq<Re>)
    ensures All([a, b, c, d] + rest) == Cat(a, Cat(b, Cat(c, Cat(d, All(rest)))))
  {
    assert [a, b, c, d] + rest == [a, b] + ([c, d] + rest);
    AllOfTwo(a, b, [c, d] + rest);
    AllOfTwo(c, d, rest);
  }

  lemma ReadChr(cs: CharSet, rest: Re, s: string, i: nat)
    requires i <= |s|
    ensures Reads(Cat(Chr(cs), rest), s, i) <==> i < |s| && cs.Has(s[i]) && Reads(rest, s, i + 1)
  {
    if Reads(Cat(Chr(cs), rest), s, i) { var k := SplitCat(Chr(cs), rest, s, i, |s|); }
    if i < |s| && cs.Has(s[i]) && Reads(rest, s, i + 1) { PieceCat(Chr(cs), rest, s, i, i + 1, |s|); }
  }

  lemma ReadLit(w: string, rest: Re, s: string, i: nat)
    requires i <= |s|
    ensures Reads(Cat(Lit(w), rest), s, i) <==> Stands(s, i, w) && Reads(rest, s, i + |w|)
  {
    if Reads(Cat(Lit(w), rest), s, i) { var k := SplitCat(Lit(w), rest, s, i, |s|); }
    if Stands(s, i, w) && Reads(rest, s, i + |w|) { PieceCat(Lit(w), rest, s, i, i + |w|, |s|); }
  }

  lemma ReadOpt(a: Re, rest: Re, s: string, i: nat)
    requires i <= |s|
    ensures Reads(Cat(Opt(a), rest), s, i) <==> Reads(rest, s, i) || Reads(Cat(a, rest), s, i)
  {
    if Reads(Cat(Opt(a), rest), s, i) {
      var k := SplitCat(Opt(a), rest, s, i, |s|);
      if k > i { PieceCat(a, rest, s, i, k, |s|); }
    }
    if Reads(rest, s, i) { PieceCat(Opt(a), rest, s, i, i, |s|); }
    if Reads(Cat(a, rest), s, i) {
      var k := SplitCat(a, rest, s, i, |s|);
      PieceCat(Opt(a), rest, s, i, k, |s|);
    }
  }

  /** One more turn of a repetition whose body is never empty. */
  lemma ReadStar(a: Re, rest: Re, s: string, i: nat)
    requires i <= |s| && !Spans(a, s, i, i)
    ensures Reads(Cat(Star(a), rest), s, i) <==> Reads(rest, s, i) || Reads(Cat(a, Cat(Star(a), rest)), s, i)
  {
    if Reads(Cat(Star(a), rest), s, i) {
      var m := SplitCat(Star(a), rest, s, i, |s|);
      if m > i {
        var k :| i < k <= m && Turns(Star(a), s, i, k, m);
        PieceCat(Star(a), rest, s, k, m, |s|);
        PieceCat(a, Cat(Star(a), rest), s, i, k, |s|);
      }
    }
    if Reads(rest, s, i) { PieceCat(Star(a), rest, s, i, i, |s|); }
    if Reads(Cat(a, Cat(Star(a), rest)), s, i) {
      var k := SplitCat(a, Cat(Star(a), rest), s, i, |s|);
      var m := SplitCat(Star(a), rest, s, k, |s|);
      assert Turns(Star(a), s, i, k, m);
      PieceCat(Star(a), rest, s, i, m, |s|);
    }
  }

  // ---------- repetitions are read to their end ----------

  /** The expression matches from no place in the line at which such a character stands. */
  ghost predicate Shuns(rest: Re, cs: CharSet, s: string) {
    forall k: nat :: k < |s| ==> ShunsAt(rest, cs, s, k)
  }

  predicate ShunsAt(rest: Re, cs: CharSet, s: string, k: nat)
    requires k < |s|
  {
    Reads(rest, s, k) ==> !cs.Has(s[k])
  }

  lemma NoRead(rest: Re, cs: CharSet, s: string, i: nat)
    requires Shuns(rest, cs, s) && i < |s| && cs.Has(s[i])
    ensures !Reads(rest, s, i)
  {
    assert ShunsAt(rest, cs, s, i);
  }

  lemma {:induction false} ReadRun(cs: CharSet, rest: Re, s: string, i: nat)
    requires i <= |s| && Shuns(rest, cs, s)
    ensures Reads(Cat(Star(Chr(cs)), rest), s, i) <==> Reads(rest, s, SkipRun(cs, s, i))
    decreases |s| - i
  {
    ReadStar(Chr(cs), rest, s, i);
    ReadChr(cs, Cat(Star(Chr(cs)), rest), s, i);
    if i < |s| && cs.Has(s[i]) {
      NoRead(rest, cs, s, i);
      ReadRun(cs, rest, s, i + 1);
    }
  }

  lemma ReadSome(cs: CharSet, rest: Re, s: string, i: nat)
    requires i <= |s| && Shuns(rest, cs, s)
    ensures Reads(Cat(Plus(Chr(cs)), rest), s, i) <==> i < SkipRun(cs, s, i) && Reads(rest, s, SkipRun(cs, s, i))
  {
    ReadCat(Chr(cs), Star(Chr(cs)), rest, s, i);
    ReadChr(cs, Cat(Star(Chr(cs)), rest), s, i);
    if i < |s| { ReadRun(cs, rest, s, i + 1); }
  }

  /** Behind anything at all, the rest matches from some place on. */
  lemma {:induction false} ReadPastAnything(rest: Re, s: string, i: nat) returns (p: nat)
    requires i <= |s| && Reads(Cat(ANYTHING, rest), s, i)
    ensures i <= p <= |s| && Reads(rest, s, p)
    decreases |s| - i
  {
    ReadStar(Chr(AnyChar), rest, s, i);
    ReadChr(AnyChar, Cat(ANYTHING, rest), s, i);
    if Reads(rest, s, i) { p := i; } else { p := ReadPastAnything(rest, s, i + 1); }
  }

  lemma {:induction false} AnythingReads(rest: Re, s: string, i: nat, p: nat)
    requires i <= p <= |s| && Reads(rest, s, p)
    ensures Reads(Cat(ANYTHING, rest), s, i)
    decreases |s| - i
  {
    ReadStar(Chr(AnyChar), rest, s, i);
    ReadChr(AnyChar, Cat(ANYTHING, rest), s, i);
    if i < p { AnythingReads(rest, s, i + 1, p); }
  }

  // ---------- what cannot begin with a character ----------

  lemma ShunsEmpty(cs: CharSet, s: string)
    ensures Shuns(Empty, cs, s)
  {
    forall k: nat | k < |s| ensures ShunsAt(Empty, cs, s, k) { }
  }

  lemma ShunsLit(w: string, rest: Re, cs: CharSet, s: string)
    requires w != "" && !cs.Has(w[0])
    ensures Shuns(Cat(Lit(w), rest), cs, s)
  {
    forall k: nat | k < |s| ensures ShunsAt(Cat(Lit(w), rest), cs, s, k) {
      ReadLit(w, rest, s, k);
      if Stands(s, k, w) { assert s[k + 0] == w[0]; }
    }
  }

  /** No character is in both. */
  ghost predicate Apart(x: CharSet, y: CharSet) { forall c: char :: x.Has(c) ==> !y.Has(c) }

  lemma ShunsChr(x: CharSet, rest: Re, cs: CharSet, s: string)
    requires Apart(x, cs)
    ensures Shuns(Cat(Chr(x), rest), cs, s)
  {
    forall k: nat | k < |s| ensures ShunsAt(Cat(Chr(x), rest), cs, s, k) { ReadChr(x, rest, s, k); }
  }

  lemma ShunsSome(x: CharSet, rest: Re, cs: CharSet, s: string)
    requires Apart(x, cs)
    ensures Shuns(Cat(Plus(Chr(x)), rest), cs, s)
  {
    forall k: nat | k < |s| ensures ShunsAt(Cat(Plus(Chr(x)), rest), cs, s, k) {
      ReadCat(Chr(x), Star(Chr(x)), rest, s, k);
      ReadChr(x, Cat(Star(Chr(x)), rest), s, k);
    }
  }

  lemma ShunsRun(x: CharSet, rest: Re, cs: CharSet, s: string)
    requires Apart(x, cs) && Shuns(rest, cs, s)
    ensures Shuns(Cat(Star(Chr(x)), rest), cs, s)
  {
    forall k: nat | k < |s| ensures ShunsAt(Cat(Star(Chr(x)), rest), cs, s, k) {
      assert ShunsAt(rest, cs, s, k);
      ReadStar(Chr(x), rest, s, k);
      ReadChr(x, Cat(Star(Chr(x)), rest), s, k);
    }
  }

  lemma ShunsOpt(a: Re, rest: Re, cs: CharSet, s: string)
    requires Shuns(Cat(a, rest), cs, s) && Shuns(rest, cs, s)
    ensures Shuns(Cat(Opt(a), rest), cs, s)
  {
    forall k: nat | k < |s| ensures ShunsAt(Cat(Opt(a), rest), cs, s, k) {
      assert ShunsAt(Cat(a, rest), cs, s, k) && ShunsAt(rest, cs, s, k);
      ReadOpt(a, rest, s, k);
    }
  }

  lemma ShunsAll(rs: seq<Re>, rest: Re, cs: CharSet, s: string)
    requires Shuns(Chain(rs, rest), cs, s)
    ensures Shuns(Cat(All(rs), rest), cs, s)
  {
    forall k: nat | k < |s| ensures ShunsAt(Cat(All(rs), rest), cs, s, k) {
      assert ShunsAt(Chain(rs, rest), cs, s, k);
      ReadAll(rs, rest, s, k);
    }
  }
}
