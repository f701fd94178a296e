/** Regular expressions as languages.  `test` of an anchored expression asks whether the line
    is in the language, so backtracking order plays no part. */
module Regex {
  import opened JsText

  datatype CharSet =
    | One(c: char)
    | Among(cs: string)
    | Space           // \s
    | SpaceOr(cs: string)
    | Digit           // \d
    | Dot             // .
    | DotNonSpace     // a character that is in `.` and not in \s
    | AnyChar         // [^]
  {
    predicate Has(x: char) {
      match this
      case One(c) => x == c
      case Among(cs) => x in cs
      case Space => IsSpace(x)
      case SpaceOr(cs) => IsSpace(x) || x in cs
      case Digit => IsDigit(x)
      case Dot => !IsLineTerminator(x)
      case DotNonSpace => !IsLineTerminator(x) && !IsSpace(x)
      case AnyChar => true
    }
  }

  datatype Re =
    | Empty
    | Chr(chars: CharSet)
    | Lit(word: string)
    | Cat(first: Re, second: Re)
    | Opt(body: Re)
    | Star(body: Re)

  /** The word stands at position i, character by character. */
  predicate Stands(s: string, i: nat, w: string) {
    i + |w| <= |s| && forall d :: 0 <= d < |w| ==> s[i + d] == w[d]
  }

  /** `r` matches exactly the characters of `s` from position i up to position j. */
  predicate Spans(r: Re, s: string, i: nat, j: nat)
    requires i <= j <= |s|
    decreases r, j - i, 1
  {
    match r
    case Empty => i == j
    case Chr(cs) => j == i + 1 && cs.Has(s[i])
    case Lit(w) => j == i + |w| && Stands(s, i, w)
    case Cat(_, _) => exists k :: i <= k <= j && Halves(r, s, i, k, j)
    case Opt(a) => i == j || Spans(a, s, i, j)
    case Star(_) => i == j || exists k :: i < k <= j && Turns(r, s, i, k, j)
  }

  /** The first part matches up to k, the second from there. */
  predicate Halves(r: Re, s: string, i: nat, k: nat, j: nat)
    requires r.Cat? && i <= k <= j <= |s|
    decreases r, j - i, 0
  {
    Spans(r.first, s, i, k) && Spans(r.second, s, k, j)
  }

  /** One turn of a repetition goes up to k, further ones from there. */
  predicate Turns(r: Re, s: string, i: nat, k: nat, j: nat)
    requires r.Star? && i < k <= j <= |s|
    decreases r, j - i, 0
  {
    Spans(r.body, s, i, k) && Spans(r, s, k, j)
  }

  predicate Matches(r: Re, s: string) { Spans(r, s, 0, |s|) }

  function Plus(r: Re): Re { Cat(r, Star(r)) }

  function All(rs: seq<Re>): Re {
    if rs == [] then Empty else Cat(rs[0], All(rs[1..]))
  }

  const SPACES := Star(Chr(Space))
  const DIGITS := Plus(Chr(Digit))
  const ANYTHING := Star(Chr(AnyChar))

  lemma {:induction false} SpacesAreSpace(s: string, i: nat, j: nat)
    requires i <= j <= |s| && Spans(SPACES, s, i, j)
    ensures forall p :: i <= p < j ==> IsSpace(s[p])
    decreases j - i
  {
    if i < j {
      var k :| i < k <= j && Turns(SPACES, s, i, k, j);
      assert Spans(Chr(Space), s, i, k) && Spans(SPACES, s, k, j);
      SpacesAreSpace(s, k, j);
    }
  }

  const SLASH := Chr(One('/'))

  /** `^\s*\/\/` followed by `tail`. */
  function CommentThen(tail: Re): Re { Cat(SPACES, Cat(SLASH, Cat(SLASH, tail))) }

  /** Such an expression matches only lines whose first visible characters are "//". */
  lemma CommentThenIsComment(tail: Re, s: string)
    requires Matches(CommentThen(tail), s)
    ensures StartsWith(TrimStart(s), "//")
  {
    var k := SplitCat(SPACES, Cat(SLASH, Cat(SLASH, tail)), s, 0, |s|);
    var k1 := SplitCat(SLASH, Cat(SLASH, tail), s, k, |s|);
    var k2 := SplitCat(SLASH, tail, s, k1, |s|);
    SpacesAreSpace(s, 0, k);
    OpensWithSlashes(s, k);
  }

  lemma OpensWithSlashes(s: string, k: nat)
    requires k + 2 <= |s| && s[k] == '/' && s[k + 1] == '/'
    requires forall p :: 0 <= p < k ==> IsSpace(s[p])
    ensures StartsWith(TrimStart(s), "//")
  {
    SkipSpaceAt(s, 0, k);
    assert s[k..][..2] == "//";
  }

  lemma SplitCat(a: Re, b: Re, s: string, i: nat, j: nat) returns (k: nat)
    requires i <= j <= |s| && Spans(Cat(a, b), s, i, j)
    ensures i <= k <= j && Spans(a, s, i, k) && Spans(b, s, k, j)
    ensures a.Chr? ==> k == i + 1 && a.chars.Has(s[i])
  {
    k :| i <= k <= j && Halves(Cat(a, b), s, i, k, j);
  }

  predicate Piece(r: Re, s: string, i: nat, j: nat) { i <= j <= |s| && Spans(r, s, i, j) }

  lemma PieceCat(a: Re, b: Re, s: string, i: nat, k: nat, j: nat)
    requires Piece(a, s, i, k) && Piece(b, s, k, j)
    ensures Piece(Cat(a, b), s, i, j)
  {
    assert Halves(Cat(a, b), s, i, k, j);
  }
}
