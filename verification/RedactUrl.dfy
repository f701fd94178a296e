/** The bearer-shape sweep of the URL redactor: ten global replacements run one after the
    other, each masking the secrets of one shape with "***". */
module RedactUrl {
  import opened JsText

  datatype CharClass = One(c: char) | Choice(cs: string) | TokenChar | Alnum | UpperDigit
  {
    predicate Has(x: char) {
      match this
      case One(c) => x == c
      case Choice(cs) => x in cs
      case TokenChar => IsAlnum(x) || x == '_' || x == '-'
      case Alnum => IsAlnum(x)
      case UpperDigit => 'A' <= x <= 'Z' || '0' <= x <= '9'
    }
  }

  predicate IsAlnum(x: char) { 'A' <= x <= 'Z' || 'a' <= x <= 'z' || '0' <= x <= '9' }

  const JWT_CAP: nat := 8192

  /** A fixed head and a greedy run of body characters, or the three-part JWT with its
      lookbehind. */
  datatype Shape = Token(head: seq<CharClass>, body: CharClass, min: nat, max: Option<nat>) | Jwt

  function Word(s: string): seq<CharClass> { seq(|s|, i requires 0 <= i < |s| => One(s[i])) }

  const BEARER_SHAPES: seq<Shape> := [
    Token(Word("sk-ant-"), TokenChar, 8, None),
    Token(Word("sk-"), TokenChar, 8, None),
    Token(Word("AIza"), TokenChar, 35, None),
    Token(Word("AKIA"), UpperDigit, 16, Some(16)),
    Token(Word("ASIA"), UpperDigit, 16, Some(16)),
    Token(Word("gh") + [Choice("pousr"), One('_')], Alnum, 36, Some(255)),
    Token(Word("tvly-"), Alnum, 16, Some(40)),
    Token(Word("AQVN"), TokenChar, 16, None),
    Token(Word("y0_"), TokenChar, 20, None),
    Jwt]

  // ---------- matching at a position ----------

  predicate HeadAt(head: seq<CharClass>, s: string, i: nat) {
    i + |head| <= |s| && forall k :: 0 <= k < |head| ==> head[k].Has(s[i + k])
  }

  /** The end of the run of `cls` characters from i. */
  function RunEnd(cls: CharClass, s: string, i: nat): (r: nat)
    requires i <= |s|
    ensures i <= r <= |s|
    ensures forall p :: i <= p < r ==> cls.Has(s[p])
    ensures r < |s| ==> !cls.Has(s[r])
    decreases |s| - i
  {
    if i < |s| && cls.Has(s[i]) then RunEnd(cls, s, i + 1) else i
  }

  function Capped(n: nat, max: Option<nat>): nat { if max.Some? && n > max.value then max.value else n }

  /** The end of `eyJ[A-Za-z0-9_-]{1,8192}\.` from i.  A segment is followed by a dot, which it
      cannot contain, so it is the whole run. */
  function JwtPart(s: string, i: nat): (end: Option<nat>)
    requires i <= |s|
    ensures end.Some? ==> i + 4 < end.value <= |s|
  {
    if !HeadAt(Word("eyJ"), s, i) then None
    else
      var r := RunEnd(TokenChar, s, i + 3);
      if 1 <= r - (i + 3) <= JWT_CAP && r < |s| && s[r] == '.' then Some(r + 1) else None
  }

  /** The JWT expression without its lookbehind. */
  function JwtEnd(s: string, i: nat): (end: Option<nat>)
    requires i <= |s|
    ensures end.Some? ==> i < end.value <= |s|
  {
    match JwtPart(s, i)
    case None => None
    case Some(a) =>
      match JwtPart(s, a)
      case None => None
      case Some(b) =>
        var r := RunEnd(TokenChar, s, b);
        if r == b then None else Some(b + Capped(r - b, Some(JWT_CAP)))
  }

  /** The length of the match at i; 0 where there is none. */
  function MatchLen(shape: Shape, s: string, i: nat): (n: nat)
  {
    if i > |s| then 0
    else
      match shape
      case Token(head, body, min, max) =>
        if !HeadAt(head, s, i) then 0
        else
          var run := RunEnd(body, s, i + |head|) - (i + |head|);
          if run < min then 0 else |head| + Capped(run, max)
      case Jwt =>
        if i > 0 && TokenChar.Has(s[i - 1]) then 0
        else match JwtEnd(s, i) case None => 0 case Some(end) => end - i
  }

  function MatchLens(shape: Shape, s: string): nat -> nat { i => MatchLen(shape, s, i) }

  // ---------- one global replacement ----------

  predicate Hit(len: nat -> nat, s: string, i: nat) { i < |s| && 0 < len(i) <= |s| - i }

  /** Left-to-right replacement, from i on, of the matches whose lengths `len` gives. */
  function Replace(len: nat -> nat, s: string, i: nat): string
    requires i <= |s|
    decreases |s| - i
  {
    if i == |s| then ""
    else if Hit(len, s, i) then "***" + Replace(len, s, i + len(i))
    else [s[i]] + Replace(len, s, i + 1)
  }

  function Mask(shape: Shape, s: string): string { Replace(MatchLens(shape, s), s, 0) }

  predicate HasMatch(shape: Shape, s: string) { exists i :: 0 <= i < |s| && Hit(MatchLens(shape, s), s, i) }

  /** The shapes of the list, masked in order. */
  function Sweep(shapes: seq<Shape>, s: string): string
    decreases |shapes|
  {
    if shapes == [] then s else Mask(shapes[|shapes| - 1], Sweep(shapes[..|shapes| - 1], s))
  }

  // ---------- where the output comes from ----------

  predicate Unmasked(out: string, j: nat, n: nat) {
    j + n <= |out| && forall t :: j <= t < j + n ==> out[t] != '*'
  }

  lemma ReplaceStarts(len: nat -> nat, s: string, i: nat)
    requires i < |s|
    ensures var out := Replace(len, s, i);
            if Hit(len, s, i) then |out| >= 3 && out[0] == '*' else out == [s[i]] + Replace(len, s, i + 1)
  {
  }

  lemma FrontGrows(out: string, c: char, rest: string, s: string, i: nat, n: nat)
    requires out == [c] + rest && i < |s| && s[i] == c && n <= |rest| && i + 1 + n <= |s| && rest[..n] == s[i + 1..i + 1 + n]
    ensures out[..n + 1] == s[i..i + n + 1]
  {
    assert out[..n + 1] == [c] + rest[..n];
    assert s[i..i + n + 1] == [c] + s[i + 1..i + 1 + n];
  }

  /** What stands at the start of the output and holds no star was copied. */
  lemma {:induction false} FrontIsCopied(len: nat -> nat, s: string, i: nat, n: nat)
    requires i <= |s| && Unmasked(Replace(len, s, i), 0, n)
    ensures i + n <= |s| && Replace(len, s, i)[..n] == s[i..i + n]
    ensures n > 0 ==> !Hit(len, s, i)
    decreases n
  {
    var out := Replace(len, s, i);
    if n > 0 {
      assert out[0] != '*';
      ReplaceStarts(len, s, i);
      var rest := Replace(len, s, i + 1);
      assert forall t :: 0 <= t < n - 1 ==> rest[t] == out[t + 1];
      FrontIsCopied(len, s, i + 1, n - 1);
      FrontGrows(out, s[i], rest, s, i, n - 1);
    }
  }

  /** Just before k stood the character that now stands before the stretch, or a match that
      ended there. */
  ghost predicate Before(len: nat -> nat, s: string, k: nat, c: char) {
    0 < k <= |s| && (s[k - 1] == c || exists m: nat :: m < k && Hit(len, s, m) && m + len(m) == k)
  }

  lemma Shifted(p: string, rest: string, j: nat, n: nat)
    requires |p| <= j && Unmasked(p + rest, j, n)
    ensures Unmasked(rest, j - |p|, n)
    ensures (p + rest)[j..j + n] == rest[j - |p|..j - |p| + n]
    ensures j > |p| ==> (p + rest)[j - 1] == rest[j - |p| - 1]
  {
    forall t | j - |p| <= t < j - |p| + n ensures rest[t] != '*' {
      assert (p + rest)[t + |p|] == rest[t];
    }
  }

  /** One step of the replacement: what it writes and where it goes on. */
  lemma StepOf(len: nat -> nat, s: string, i: nat) returns (p: string, next: nat)
    requires i < |s|
    ensures i < next <= |s| && 1 <= |p| <= 3 && Replace(len, s, i) == p + Replace(len, s, next)
    ensures Hit(len, s, i) ==> p == "***" && next == i + len(i)
    ensures !Hit(len, s, i) ==> p == [s[i]] && next == i + 1
  {
    p, next := if Hit(len, s, i) then "***" else [s[i]], if Hit(len, s, i) then i + len(i) else i + 1;
  }

  lemma StepEndsBefore(len: nat -> nat, s: string, i: nat, p: string, next: nat)
    requires i < |s| && next <= |s|
    requires Hit(len, s, i) ==> p == "***" && next == i + len(i)
    requires !Hit(len, s, i) ==> p == [s[i]] && next == i + 1
    ensures |p| > 0 && Before(len, s, next, p[|p| - 1])
  {
  }

  /** Every star-free stretch of the output was copied from a place where nothing matched. */
  lemma {:induction false} StretchIsCopied(len: nat -> nat, s: string, i: nat, j: nat, n: nat) returns (k: nat)
    requires i <= |s| && n > 0 && Unmasked(Replace(len, s, i), j, n)
    ensures i <= k && k + n <= |s| && Replace(len, s, i)[j..j + n] == s[k..k + n]
    ensures !Hit(len, s, k)
    ensures j == 0 ==> k == i
    ensures j > 0 ==> Before(len, s, k, Replace(len, s, i)[j - 1])
    decreases j
  {
    if j == 0 {
      k := i;
      FrontIsCopied(len, s, i, n);
    } else {
      var p, next := StepOf(len, s, i);
      assert (p + Replace(len, s, next))[j] != '*';
      Shifted(p, Replace(len, s, next), j, n);
      StepEndsBefore(len, s, i, p, next);
      k := StretchIsCopied(len, s, next, j - |p|, n);
    }
  }

  // ---------- token shapes ----------

  predicate StarFree(pat: seq<CharClass>) { forall k :: 0 <= k < |pat| ==> !pat[k].Has('*') }

  /** The shortest match of a token shape, class by class. */
  function Needs(shape: Shape): seq<CharClass>
    requires shape.Token?
  {
    shape.head + seq(shape.min, _ => shape.body)
  }

  predicate Maskable(shape: Shape) { shape.Token? && |shape.head| > 0 && StarFree(Needs(shape)) }

  lemma RunCovers(cls: CharClass, s: string, i: nat, n: nat)
    requires i <= |s|
    ensures RunEnd(cls, s, i) >= i + n <==> i + n <= |s| && forall p :: i <= p < i + n ==> cls.Has(s[p])
  {
  }

  lemma HitIsNeeds(shape: Shape, s: string, i: nat)
    requires shape.Token? && |shape.head| > 0
    ensures Hit(MatchLens(shape, s), s, i) <==> HeadAt(Needs(shape), s, i)
  {
    var b := i + |shape.head|;
    var needs := Needs(shape);
    if HeadAt(needs, s, i) {
      forall k | 0 <= k < |shape.head| ensures shape.head[k].Has(s[i + k]) { assert needs[k].Has(s[i + k]); }
      forall p | b <= p < b + shape.min ensures shape.body.Has(s[p]) { assert needs[p - i].Has(s[i + (p - i)]); }
    }
    if b <= |s| { RunCovers(shape.body, s, b, shape.min); }
  }

  lemma PatternIsCopied(len: nat -> nat, s: string, pat: seq<CharClass>, j: nat) returns (k: nat)
    requires |pat| > 0 && StarFree(pat) && HeadAt(pat, Replace(len, s, 0), j)
    ensures HeadAt(pat, s, k) && !Hit(len, s, k)
  {
    var out := Replace(len, s, 0);
    forall t | j <= t < j + |pat| ensures out[t] != '*' { assert pat[t - j].Has(out[j + (t - j)]); }
    k := StretchIsCopied(len, s, 0, j, |pat|);
    forall t | 0 <= t < |pat| ensures pat[t].Has(s[k + t]) {
      assert out[j..j + |pat|][t] == s[k..k + |pat|][t];
    }
  }

  ghost predicate Occurs(pat: seq<CharClass>, s: string) { exists i: nat :: HeadAt(pat, s, i) }

  lemma HasMatchIsOccurs(shape: Shape, s: string)
    requires Maskable(shape)
    ensures HasMatch(shape, s) <==> Occurs(Needs(shape), s)
  {
    if Occurs(Needs(shape), s) {
      var i: nat :| HeadAt(Needs(shape), s, i);
      HitIsNeeds(shape, s, i);
    }
    if HasMatch(shape, s) {
      var i :| 0 <= i < |s| && Hit(MatchLens(shape, s), s, i);
      HitIsNeeds(shape, s, i);
    }
  }

  /** A replacement brings together no text that a star-free pattern accepts. */
  lemma MaskCreatesNone(shape: Shape, pat: seq<CharClass>, s: string)
    requires |pat| > 0 && StarFree(pat) && Occurs(pat, Mask(shape, s))
    ensures Occurs(pat, s)
  {
    var j: nat :| HeadAt(pat, Mask(shape, s), j);
    var k := PatternIsCopied(MatchLens(shape, s), s, pat, j);
  }

  /** A replacement leaves no match of its own shape. */
  lemma MaskLeavesNone(shape: Shape, s: string)
    requires Maskable(shape)
    ensures !HasMatch(shape, Mask(shape, s))
  {
    HasMatchIsOccurs(shape, Mask(shape, s));
    if Occurs(Needs(shape), Mask(shape, s)) {
      var j: nat :| HeadAt(Needs(shape), Mask(shape, s), j);
      var k := PatternIsCopied(MatchLens(shape, s), s, Needs(shape), j);
      HitIsNeeds(shape, s, k);
      assert false;
    }
  }

  lemma {:induction false} SweepCreatesNone(shapes: seq<Shape>, pat: seq<CharClass>, s: string)
    requires |pat| > 0 && StarFree(pat) && Occurs(pat, Sweep(shapes, s))
    ensures Occurs(pat, s)
    decreases |shapes|
  {
    if shapes != [] {
      var n := |shapes| - 1;
      MaskCreatesNone(shapes[n], pat, Sweep(shapes[..n], s));
      SweepCreatesNone(shapes[..n], pat, s);
    }
  }

  /** Whatever shapes come before and after it, a token shape has no match left at the end. */
  lemma {:induction false} SweepLeavesNone(shapes: seq<Shape>, s: string, k: nat)
    requires k < |shapes| && Maskable(shapes[k])
    ensures !HasMatch(shapes[k], Sweep(shapes, s))
    decreases |shapes|
  {
    var n := |shapes| - 1;
    var before := Sweep(shapes[..n], s);
    if k == n {
      MaskLeavesNone(shapes[n], before);
    } else {
      SweepLeavesNone(shapes[..n], s, k);
      HasMatchIsOccurs(shapes[k], before);
      HasMatchIsOccurs(shapes[k], Mask(shapes[n], before));
      if HasMatch(shapes[k], Sweep(shapes, s)) {
        MaskCreatesNone(shapes[n], Needs(shapes[k]), before);
      }
    }
  }

  lemma BearerTokensAreMaskable(k: nat)
    requires k < 9
    ensures Maskable(BEARER_SHAPES[k])
  {
  }

  /** None of the nine shapes without a lookbehind matches anywhere in a swept string. */
  lemma SweptHasNoToken(s: string, k: nat)
    requires k < 9
    ensures !HasMatch(BEARER_SHAPES[k], Sweep(BEARER_SHAPES, s))
  {
    BearerTokensAreMaskable(k);
    SweepLeavesNone(BEARER_SHAPES, s, k);
  }

  // ---------- when nothing changes ----------

  /** Every match is longer than the "***" that replaces it. */
  ghost predicate Shrinks(len: nat -> nat, s: string) { forall i: nat :: Hit(len, s, i) ==> len(i) > 3 }

  lemma {:induction false} ReplaceShrinks(len: nat -> nat, s: string, i: nat)
    requires i <= |s| && Shrinks(len, s)
    ensures |Replace(len, s, i)| <= |s| - i
    ensures |Replace(len, s, i)| == |s| - i ==> forall k :: i <= k < |s| ==> !Hit(len, s, k)
    decreases |s| - i
  {
    if i < |s| { ReplaceShrinks(len, s, if Hit(len, s, i) then i + len(i) else i + 1); }
  }

  lemma {:induction false} ReplaceOfNone(len: nat -> nat, s: string, i: nat)
    requires i <= |s| && forall k :: i <= k < |s| ==> !Hit(len, s, k)
    ensures Replace(len, s, i) == s[i..]
    decreases |s| - i
  {
    if i < |s| { ReplaceOfNone(len, s, i + 1); }
  }

  predicate Long(shape: Shape) {
    shape.Token? ==> |shape.head| + Capped(shape.min, shape.max) > 3 && |shape.head| > 0
  }

  lemma LongShrinks(shape: Shape, s: string)
    requires Long(shape)
    ensures Shrinks(MatchLens(shape, s), s)
  {
  }

  lemma UnmatchedIsUnchanged(shape: Shape, s: string)
    requires Long(shape)
    ensures |Mask(shape, s)| <= |s|
    ensures |Mask(shape, s)| == |s| ==> Mask(shape, s) == s && !HasMatch(shape, s)
    ensures !HasMatch(shape, s) ==> Mask(shape, s) == s
  {
    LongShrinks(shape, s);
    ReplaceShrinks(MatchLens(shape, s), s, 0);
    if !HasMatch(shape, s) || |Mask(shape, s)| == |s| { ReplaceOfNone(MatchLens(shape, s), s, 0); }
  }

  predicate AllLong(shapes: seq<Shape>) { forall k :: 0 <= k < |shapes| ==> Long(shapes[k]) }

  predicate NoneMatches(shapes: seq<Shape>, s: string) {
    forall k :: 0 <= k < |shapes| ==> !HasMatch(shapes[k], s)
  }

  lemma NoneMatchesSnoc(shapes: seq<Shape>, s: string)
    requires shapes != []
    ensures NoneMatches(shapes, s) <==>
            NoneMatches(shapes[..|shapes| - 1], s) && !HasMatch(shapes[|shapes| - 1], s)
  {
    var init := shapes[..|shapes| - 1];
    if NoneMatches(init, s) && !HasMatch(shapes[|shapes| - 1], s) {
      forall k | 0 <= k < |shapes| ensures !HasMatch(shapes[k], s) {
        if k < |init| { assert shapes[k] == init[k]; }
      }
    }
  }

  lemma {:induction false} SweepShrinks(shapes: seq<Shape>, s: string)
    requires AllLong(shapes)
    ensures |Sweep(shapes, s)| <= |s|
    ensures |Sweep(shapes, s)| == |s| ==> Sweep(shapes, s) == s
    ensures |Sweep(shapes, s)| == |s| <==> NoneMatches(shapes, s)
    decreases |shapes|
  {
    if shapes != [] {
      var n := |shapes| - 1;
      SweepShrinks(shapes[..n], s);
      UnmatchedIsUnchanged(shapes[n], Sweep(shapes[..n], s));
      NoneMatchesSnoc(shapes, s);
    }
  }

  lemma BearerShapesAreLong()
    ensures AllLong(BEARER_SHAPES)
  {
  }

  /** The sweep changes a string exactly when one of its shapes matches in it. */
  lemma UnchangedIffNoMatch(s: string)
    ensures Sweep(BEARER_SHAPES, s) == s <==> NoneMatches(BEARER_SHAPES, s)
  {
    BearerShapesAreLong();
    SweepShrinks(BEARER_SHAPES, s);
  }

  /** The loop of `sweepBearerShapes`. */
  method SweepBearerShapes(input: string) returns (out: string)
    ensures out == Sweep(BEARER_SHAPES, input)
    ensures forall k :: 0 <= k < 9 ==> !HasMatch(BEARER_SHAPES[k], out)
    ensures out == input <==> NoneMatches(BEARER_SHAPES, input)
  {
    out := input;
    for i := 0 to |BEARER_SHAPES|
      invariant out == Sweep(BEARER_SHAPES[..i], input)
    {
      assert BEARER_SHAPES[..i + 1][..i] == BEARER_SHAPES[..i];
      out := Mask(BEARER_SHAPES[i], out);
    }
    assert BEARER_SHAPES[..|BEARER_SHAPES|] == BEARER_SHAPES;
    forall k | 0 <= k < 9 ensures !HasMatch(BEARER_SHAPES[k], out) { SweptHasNoToken(input, k); }
    UnchangedIffNoMatch(input);
  }
}
