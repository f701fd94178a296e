/** How far a match of the bearer-shape sweep reaches, and that nothing it covers is copied. */
module RedactRuns {
  import opened JsText
  import opened RedactUrl
  import opened RedactJwt

  predicate AllIn(cls: CharClass, s: string, i: nat, j: nat) { j <= |s| && forall p :: i <= p < j ==> cls.Has(s[p]) }

  /** The run of `cls` characters from i cannot go on behind j, or has reached the cap. */
  predicate StopsAt(cls: CharClass, s: string, i: nat, j: nat, max: Option<nat>) {
    j == |s| || (j < |s| && !cls.Has(s[j])) || max == Some(j - i)
  }

  /** A greedy run: all in the class, within the bounds, as long as it can be. */
  predicate GreedyRun(cls: CharClass, s: string, i: nat, j: nat, min: nat, max: Option<nat>) {
    && i <= j && AllIn(cls, s, i, j) && min <= j - i && (max.Some? ==> j - i <= max.value) && StopsAt(cls, s, i, j, max)
  }

  predicate Bounded(min: nat, max: Option<nat>) { max.Some? ==> min <= max.value }

  // ---------- how far a match reaches ----------

  /** A token match is the head and the greedy run behind it, and such a run is matched. */
  lemma HitIsGreedy(shape: Shape, s: string, i: nat, n: nat)
    requires shape.Token? && |shape.head| > 0 && Bounded(shape.min, shape.max)
    ensures Hit(MatchLens(shape, s), s, i) && MatchLens(shape, s)(i) == n <==>
      n >= |shape.head| && HeadAt(shape.head, s, i)
      && GreedyRun(shape.body, s, i + |shape.head|, i + n, shape.min, shape.max)
  {
    var b := i + |shape.head|;
    if HeadAt(shape.head, s, i) {
      var r := RunEnd(shape.body, s, b);
      if n >= |shape.head| && GreedyRun(shape.body, s, b, i + n, shape.min, shape.max) {
        OnlyGreedyRun(shape.body, s, b, i + n, shape.max);
      }
    }
  }

  lemma OnlyGreedyRun(cls: CharClass, s: string, i: nat, j: nat, max: Option<nat>)
    requires i <= j && AllIn(cls, s, i, j) && StopsAt(cls, s, i, j, max) && (max.Some? ==> j - i <= max.value)
    ensures j - i == Capped(RunEnd(cls, s, i) - i, max)
  {
    RunCovers(cls, s, i, j - i);
  }

  /** A JWT match: two segments that open with eyJ and end at a dot, a third as long as it can be,
      and no token character in front. */
  predicate IsJwtMatch(s: string, i: nat, a: nat, b: nat, e: nat) {
    && (i == 0 || (i <= |s| && !TokenChar.Has(s[i - 1])))
    && IsSegment(s, i, a) && IsSegment(s, a, b) && b <= e && GreedyRun(TokenChar, s, b, e, 1, Some(8192))
  }

  /** s[i..j] is eyJ, one to 8192 token characters, and a dot. */
  predicate IsSegment(s: string, i: nat, j: nat) {
    && i + 5 <= j <= |s| && s[i] == 'e' && s[i + 1] == 'y' && s[i + 2] == 'J'
    && AllIn(TokenChar, s, i + 3, j - 1) && j - 1 - (i + 3) <= 8192 && s[j - 1] == '.'
  }

  lemma SegmentIff(s: string, i: nat, j: nat)
    requires i <= |s|
    ensures JwtPart(s, i) == Some(j) <==> IsSegment(s, i, j)
  {
    if HeadAt(Word("eyJ"), s, i) {
      assert Word("eyJ")[0].Has(s[i + 0]) && Word("eyJ")[1].Has(s[i + 1]) && Word("eyJ")[2].Has(s[i + 2]);
    }
    if IsSegment(s, i, j) {
      forall k | 0 <= k < 3 ensures Word("eyJ")[k].Has(s[i + k]) {
      }
      RunEndIs(TokenChar, s, i + 3, j - 1);
    }
  }

  lemma JwtEndIsMatch(s: string, i: nat, e: nat) returns (a: nat, b: nat)
    requires i < |s| && JwtEnd(s, i) == Some(e) && (i == 0 || !TokenChar.Has(s[i - 1]))
    ensures IsJwtMatch(s, i, a, b, e)
  {
    a, b := PartsOfEnd(s, i);
    SegmentIff(s, i, a);
    SegmentIff(s, a, b);
  }

  lemma MatchIsJwtEnd(s: string, i: nat, a: nat, b: nat, e: nat)
    requires IsJwtMatch(s, i, a, b, e)
    ensures i < e <= |s| && JwtEnd(s, i) == Some(e) && (i == 0 || !TokenChar.Has(s[i - 1]))
  {
    SegmentIff(s, i, a);
    SegmentIff(s, a, b);
    OnlyGreedyRun(TokenChar, s, b, e, Some(8192));
  }

  /** A JWT match that ends at e is such a triple, and every such triple is matched. */
  lemma JwtHitIff(s: string, i: nat, e: nat)
    requires i < e
    ensures Hit(MatchLens(Jwt, s), s, i) && MatchLens(Jwt, s)(i) == e - i <==>
            exists a: nat, b: nat :: IsJwtMatch(s, i, a, b, e)
  {
    if i < |s| { JwtHit(s, i); }
    if Hit(MatchLens(Jwt, s), s, i) && MatchLens(Jwt, s)(i) == e - i {
      var a, b := JwtEndIsMatch(s, i, e);
    }
    if a: nat, b: nat :| IsJwtMatch(s, i, a, b, e) { MatchIsJwtEnd(s, i, a, b, e); }
  }

  // ---------- what a replacement copies ----------

  /** Where each character of the output comes from; None for a star of the mask. */
  function Origins(len: nat -> nat, s: string, i: nat): seq<Option<nat>>
    requires i <= |s|
    decreases |s| - i
  {
    if i == |s| then []
    else if Hit(len, s, i) then [None, None, None] + Origins(len, s, i + len(i))
    else [Some(i)] + Origins(len, s, i + 1)
  }

  /** The replacement, going on from i, comes to m. */
  predicate Reaches(len: nat -> nat, s: string, i: nat, m: nat)
    requires i <= |s|
    decreases |s| - i
  {
    i == m || (i < |s| && Reaches(len, s, if Hit(len, s, i) then i + len(i) else i + 1, m))
  }

  predicate Masks(len: nat -> nat, s: string, i: nat, m: nat, p: nat)
    requires i <= |s|
  {
    m <= p && Hit(len, s, m) && p < m + len(m) && Reaches(len, s, i, m)
  }

  /** A character of the output is a star or the character it was copied from. */
  lemma {:induction false} OriginsMatch(len: nat -> nat, s: string, i: nat, j: nat)
    requires i <= |s| && j < |Replace(len, s, i)|
    ensures |Origins(len, s, i)| == |Replace(len, s, i)|
    ensures match Origins(len, s, i)[j]
            case None => Replace(len, s, i)[j] == '*'
            case Some(p) => i <= p < |s| && Replace(len, s, i)[j] == s[p]
    decreases |s| - i
  {
    SameLength(len, s, i);
    if Hit(len, s, i) {
      if j >= 3 { OriginsMatch(len, s, i + len(i), j - 3); }
    } else if j > 0 {
      OriginsMatch(len, s, i + 1, j - 1);
    }
  }

  lemma {:induction false} SameLength(len: nat -> nat, s: string, i: nat)
    requires i <= |s|
    ensures |Origins(len, s, i)| == |Replace(len, s, i)|
    decreases |s| - i
  {
    if i < |s| { SameLength(len, s, if Hit(len, s, i) then i + len(i) else i + 1); }
  }

  lemma {:induction false} ReachesForward(len: nat -> nat, s: string, i: nat, m: nat)
    requires i <= |s| && Reaches(len, s, i, m)
    ensures i <= m <= |s|
    decreases |s| - i
  {
    if i != m { ReachesForward(len, s, if Hit(len, s, i) then i + len(i) else i + 1, m); }
  }

  /** Some match the replacement comes to covers p. */
  ghost predicate Covered(len: nat -> nat, s: string, i: nat, p: nat)
    requires i <= |s|
  {
    exists m: nat :: Masks(len, s, i, m, p)
  }

  lemma CoveredStep(len: nat -> nat, s: string, i: nat, next: nat, p: nat)
    requires i <= p < |s| && next == if Hit(len, s, i) then i + len(i) else i + 1
    ensures Covered(len, s, i, p) <==> (Hit(len, s, i) && p < next) || (next <= p && Covered(len, s, next, p))
  {
    if m: nat :| Masks(len, s, i, m, p) {
      if m != i {
        ReachesForward(len, s, next, m);
        assert Masks(len, s, next, m, p);
      }
    }
    if Hit(len, s, i) && p < next { assert Masks(len, s, i, i, p); }
    if next <= p && Covered(len, s, next, p) {
      var m: nat :| Masks(len, s, next, m, p);
      assert Masks(len, s, i, m, p);
    }
  }

  lemma OriginsStep(len: nat -> nat, s: string, i: nat, next: nat, p: nat)
    requires i <= p < |s| && next == if Hit(len, s, i) then i + len(i) else i + 1
    ensures Some(p) in Origins(len, s, i) <==> (!Hit(len, s, i) && p < next) || (next <= p && Some(p) in Origins(len, s, next))
  {
    var rest := Origins(len, s, next);
    if Hit(len, s, i) {
      assert Origins(len, s, i) == [None, None, None] + rest;
    } else {
      assert Origins(len, s, i) == [Some(i)] + rest;
    }
    if p < next { NoEarlierOrigin(len, s, next, p); }
  }

  /** A character is copied exactly if no match the replacement comes to covers it. */
  lemma {:induction false} CopiedIffUncovered(len: nat -> nat, s: string, i: nat, p: nat)
    requires i <= p < |s|
    ensures Some(p) in Origins(len, s, i) <==> !Covered(len, s, i, p)
    decreases |s| - i
  {
    var next := if Hit(len, s, i) then i + len(i) else i + 1;
    CoveredStep(len, s, i, next, p);
    OriginsStep(len, s, i, next, p);
    if next <= p { CopiedIffUncovered(len, s, next, p); }
  }

  lemma {:induction false} NoEarlierOrigin(len: nat -> nat, s: string, i: nat, p: nat)
    requires i <= |s| && p < i
    ensures Some(p) !in Origins(len, s, i)
    decreases |s| - i
  {
    if i < |s| { NoEarlierOrigin(len, s, if Hit(len, s, i) then i + len(i) else i + 1, p); }
  }

  // ---------- keys and the mask ----------

  /** The output of one replacement, character by character: a star, or copied from a place that no
      match covers. */
  lemma MaskIsOrigins(shape: Shape, s: string)
    ensures var len := MatchLens(shape, s); var out, from := Mask(shape, s), Origins(len, s, 0);
      && |from| == |out|
      && (forall j :: 0 <= j < |out| && from[j].None? ==> out[j] == '*')
      && (forall j :: 0 <= j < |out| && from[j].Some? ==> from[j].value < |s| && out[j] == s[from[j].value])
      && forall p: nat :: p < |s| ==> (Some(p) in from <==> !Covered(len, s, 0, p))
  {
    var len := MatchLens(shape, s);
    SameLength(len, s, 0);
    forall j | 0 <= j < |Mask(shape, s)|
      ensures match Origins(len, s, 0)[j]
              case None => Mask(shape, s)[j] == '*'
              case Some(p) => p < |s| && Mask(shape, s)[j] == s[p]
    {
      OriginsMatch(len, s, 0, j);
    }
    forall p: nat | p < |s| ensures Some(p) in Origins(len, s, 0) <==> !Covered(len, s, 0, p) {
      CopiedIffUncovered(len, s, 0, p);
    }
  }

  /** Where the replacement comes to a head with enough body behind it, it copies neither the head
      nor any character of the run behind it, up to the shape's maximum. */
  lemma WholeRunIsMasked(shape: Shape, s: string, i: nat, j: nat, p: nat)
    requires shape.Token? && |shape.head| > 0 && Bounded(shape.min, shape.max)
    requires HeadAt(shape.head, s, i) && GreedyRun(shape.body, s, i + |shape.head|, j, shape.min, shape.max)
    requires Reaches(MatchLens(shape, s), s, 0, i) && i <= p < j
    ensures Some(p) !in Origins(MatchLens(shape, s), s, 0)
  {
    var len := MatchLens(shape, s);
    HitIsGreedy(shape, s, i, j - i);
    assert Masks(len, s, 0, i, p);
    CopiedIffUncovered(len, s, 0, p);
  }

  /** A key on its own becomes three stars. */
  lemma KeyAloneIsMasked(shape: Shape, key: string)
    requires shape.Token? && |shape.head| > 0 && Bounded(shape.min, shape.max)
    requires HeadAt(shape.head, key, 0) && GreedyRun(shape.body, key, |shape.head|, |key|, shape.min, shape.max)
    ensures Mask(shape, key) == "***"
  {
    HitIsGreedy(shape, key, 0, |key|);
    assert Replace(MatchLens(shape, key), key, |key|) == "";
  }

  lemma BearerTokensAreBounded(k: nat)
    requires k < 9
    ensures BEARER_SHAPES[k].Token? && |BEARER_SHAPES[k].head| > 0 && Bounded(BEARER_SHAPES[k].min, BEARER_SHAPES[k].max)
  {
  }

  // ---------- the secrets the sweep is for ----------

  /** Somewhere `prefix` stands with n characters of the class behind it. */
  ghost predicate HoldsSecret(t: string, prefix: string, cls: CharClass, n: nat) {
    exists i: nat :: StartsAt(t, i, prefix) && i + |prefix| + n <= |t| && AllIn(cls, t, i + |prefix|, i + |prefix| + n)
  }

  lemma SecretIsMatch(t: string, prefix: string, cls: CharClass, n: nat, shape: Shape)
    requires shape.Token? && shape.body == cls && shape.min == n && prefix != "" && |shape.head| == |prefix|
    requires forall k :: 0 <= k < |prefix| ==> shape.head[k].Has(prefix[k])
    requires HoldsSecret(t, prefix, cls, n)
    ensures HasMatch(shape, t)
  {
    var i: nat :| StartsAt(t, i, prefix) && i + |prefix| + n <= |t| && AllIn(cls, t, i + |prefix|, i + |prefix| + n);
    forall k | 0 <= k < |Needs(shape)| ensures Needs(shape)[k].Has(t[i + k]) {
      if k < |prefix| { CharIn(t, i, prefix, k); }
    }
    HitIsNeeds(shape, t, i);
  }

  /** After the sweep the string holds no provider key, personal access token or access-key id. */
  lemma SecretsAreGone(s: string, kind: char)
    requires kind in "pousr"
    ensures var t := Sweep(BEARER_SHAPES, s);
      && !HoldsSecret(t, "sk-", TokenChar, 8) && !HoldsSecret(t, "sk-ant-", TokenChar, 8)
      && !HoldsSecret(t, "AIza", TokenChar, 35)
      && !HoldsSecret(t, "AKIA", UpperDigit, 16) && !HoldsSecret(t, "ASIA", UpperDigit, 16)
      && !HoldsSecret(t, "gh" + [kind] + "_", Alnum, 36) && !HoldsSecret(t, "tvly-", Alnum, 16)
      && !HoldsSecret(t, "AQVN", TokenChar, 16) && !HoldsSecret(t, "y0_", TokenChar, 20)
  {
    var t := Sweep(BEARER_SHAPES, s);
    SecretIsSwept(s, t, "sk-ant-", TokenChar, 8, 0);
    SecretIsSwept(s, t, "sk-", TokenChar, 8, 1);
    SecretIsSwept(s, t, "AIza", TokenChar, 35, 2);
    SecretIsSwept(s, t, "AKIA", UpperDigit, 16, 3);
    SecretIsSwept(s, t, "ASIA", UpperDigit, 16, 4);
    SecretIsSwept(s, t, "gh" + [kind] + "_", Alnum, 36, 5);
    SecretIsSwept(s, t, "tvly-", Alnum, 16, 6);
    SecretIsSwept(s, t, "AQVN", TokenChar, 16, 7);
    SecretIsSwept(s, t, "y0_", TokenChar, 20, 8);
  }

  lemma SecretIsSwept(s: string, t: string, prefix: string, cls: CharClass, n: nat, k: nat)
    requires t == Sweep(BEARER_SHAPES, s) && k < 9 && prefix != ""
    requires BEARER_SHAPES[k].Token? && BEARER_SHAPES[k].body == cls && BEARER_SHAPES[k].min == n
    requires |BEARER_SHAPES[k].head| == |prefix| && forall j :: 0 <= j < |prefix| ==> BEARER_SHAPES[k].head[j].Has(prefix[j])
    ensures !HoldsSecret(t, prefix, cls, n)
  {
    SweptHasNoToken(s, k);
    if HoldsSecret(t, prefix, cls, n) { SecretIsMatch(t, prefix, cls, n, BEARER_SHAPES[k]); }
  }
}
