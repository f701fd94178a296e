/** The JWT shape of the bearer sweep: what a replacement leaves of it. */
module RedactJwt {
  import opened JsText
  import opened RedactUrl

  // ---------- the JWT shape ----------

  /** A token run too long for a JWT segment. */
  function LongRun(): seq<CharClass> { seq(JWT_CAP + 1, _ => TokenChar) }

  lemma {:induction false} RunEndIs(cls: CharClass, s: string, i: nat, r: nat)
    requires i <= r < |s| && !cls.Has(s[r]) && forall p :: i <= p < r ==> cls.Has(s[p])
    ensures RunEnd(cls, s, i) == r
    decreases r - i
  {
    if i < r { RunEndIs(cls, s, i + 1, r); }
  }

  lemma RunEndOfSlice(cls: CharClass, s: string, i: nat, t: string, k: nat, n: nat)
    requires i + n <= |s| && k + n <= |t| && s[i..i + n] == t[k..k + n]
    requires RunEnd(cls, s, i) < i + n
    ensures RunEnd(cls, t, k) == k + (RunEnd(cls, s, i) - i)
  {
    var d := RunEnd(cls, s, i) - i;
    SliceAt(s, i, t, k, n, d);
    forall p | k <= p < k + d ensures cls.Has(t[p]) {
      SliceAt(s, i, t, k, n, p - k);
    }
    RunEndIs(cls, t, k, k + d);
  }

  lemma JwtPartOfSlice(s: string, i: nat, t: string, k: nat, n: nat)
    requires i + n <= |s| && k + n <= |t| && s[i..i + n] == t[k..k + n]
    requires JwtPart(s, i).Some? && JwtPart(s, i).value <= i + n
    ensures JwtPart(t, k) == Some(k + (JwtPart(s, i).value - i))
  {
    SliceOfSlice(s, i, t, k, n, 3);
    RunEndOfSlice(TokenChar, s, i + 3, t, k + 3, n - 3);
    var d := RunEnd(TokenChar, s, i + 3) - i;
    SliceAt(s, i, t, k, n, d);
    forall p | 0 <= p < 3 ensures Word("eyJ")[p].Has(t[k + p]) {
      assert Word("eyJ")[p].Has(s[i + p]);
      SliceAt(s, i, t, k, n, p);
    }
  }

  /** Two parts one after the other, and a token character behind them. */
  predicate PartsAt(s: string, i: nat, a: nat, b: nat) {
    i <= a <= b < |s| && JwtPart(s, i) == Some(a) && JwtPart(s, a) == Some(b) && TokenChar.Has(s[b])
  }

  lemma EndIsParts(s: string, i: nat, a: nat, b: nat)
    requires PartsAt(s, i, a, b)
    ensures JwtEnd(s, i) == Some(b + Capped(RunEnd(TokenChar, s, b) - b, Some(JWT_CAP)))
  {
  }

  lemma PartsOfEnd(s: string, i: nat) returns (a: nat, b: nat)
    requires i <= |s| && JwtEnd(s, i).Some?
    ensures PartsAt(s, i, a, b) && b < JwtEnd(s, i).value
  {
    a := JwtPart(s, i).value;
    b := JwtPart(s, a).value;
  }

  lemma PartsOfSlice(s: string, i: nat, t: string, k: nat, n: nat, a: nat, b: nat)
    requires i + n <= |s| && k + n <= |t| && s[i..i + n] == t[k..k + n]
    requires PartsAt(s, i, a, b) && b < i + n
    ensures PartsAt(t, k, k + (a - i), k + (b - i))
  {
    JwtPartOfSlice(s, i, t, k, n);
    SliceOfSlice(s, i, t, k, n, a - i);
    JwtPartOfSlice(s, a, t, k + (a - i), n - (a - i));
    SliceAt(s, i, t, k, n, b - i);
  }

  /** A copy of a JWT starts a JWT where it was copied from. */
  lemma JwtOfSlice(s: string, i: nat, t: string, k: nat, n: nat)
    requires i + n <= |s| && k + n <= |t| && s[i..i + n] == t[k..k + n]
    requires JwtEnd(s, i).Some? && JwtEnd(s, i).value == i + n
    ensures JwtEnd(t, k).Some?
  {
    var a, b := PartsOfEnd(s, i);
    PartsOfSlice(s, i, t, k, n, a, b);
    EndIsParts(t, k, k + (a - i), k + (b - i));
  }

  lemma JwtIsStarFree(s: string, i: nat)
    requires i <= |s| && JwtEnd(s, i).Some?
    ensures Unmasked(s, i, JwtEnd(s, i).value - i)
  {
    var a := JwtPart(s, i).value;
    var b := JwtPart(s, a).value;
    PartIsStarFree(s, i);
    PartIsStarFree(s, a);
  }

  lemma PartIsStarFree(s: string, i: nat)
    requires i <= |s| && JwtPart(s, i).Some?
    ensures Unmasked(s, i, JwtPart(s, i).value - i)
  {
    forall p | i <= p < i + 3 ensures s[p] != '*' { assert Word("eyJ")[p - i].Has(s[i + (p - i)]); }
  }

  /** A match that ends inside a token run was cut at the cap. */
  lemma CutMatchNeedsLongRun(s: string, m: nat)
    requires m < |s| && JwtEnd(s, m).Some? && JwtEnd(s, m).value < |s|
    requires TokenChar.Has(s[JwtEnd(s, m).value])
    ensures Occurs(LongRun(), s)
  {
    var b := JwtPart(s, JwtPart(s, m).value).value;
    var r := RunEnd(TokenChar, s, b);
    assert r - b > JWT_CAP;
    assert HeadAt(LongRun(), s, b);
  }

  lemma JwtStartsToken(s: string, k: nat)
    requires k <= |s| && JwtEnd(s, k).Some?
    ensures k < |s| && TokenChar.Has(s[k])
  {
    assert Word("eyJ")[0].Has(s[k + 0]);
  }

  lemma LeftoverWasCut(s: string, k: nat, c: char)
    requires 0 < k < |s| && TokenChar.Has(s[k - 1]) && TokenChar.Has(s[k]) && !TokenChar.Has(c)
    requires Before(MatchLens(Jwt, s), s, k, c)
    ensures Occurs(LongRun(), s)
  {
    var m: nat :| m < k && Hit(MatchLens(Jwt, s), s, m) && m + MatchLens(Jwt, s)(m) == k;
    CutMatchNeedsLongRun(s, m);
  }

  lemma JwtHit(s: string, i: nat)
    requires i < |s|
    ensures Hit(MatchLens(Jwt, s), s, i) <==> JwtEnd(s, i).Some? && !(i > 0 && TokenChar.Has(s[i - 1]))
  {
  }

  /** Where no token run is longer than a JWT segment can be, no JWT is left. */
  lemma MaskLeavesNoJwt(s: string)
    requires !Occurs(LongRun(), s)
    ensures !HasMatch(Jwt, Mask(Jwt, s))
  {
    var out := Mask(Jwt, s);
    if HasMatch(Jwt, out) {
      var j :| 0 <= j < |out| && Hit(MatchLens(Jwt, out), out, j);
      JwtHit(out, j);
      var n := JwtEnd(out, j).value - j;
      JwtIsStarFree(out, j);
      var k := StretchIsCopied(MatchLens(Jwt, s), s, 0, j, n);
      JwtOfSlice(out, j, s, k, n);
      JwtHit(s, k);
      JwtStartsToken(s, k);
      LeftoverWasCut(s, k, out[j - 1]);
      assert false;
    }
  }

  /** So nothing matches anywhere in the swept string, and sweeping it again changes nothing. */
  lemma SweptIsClean(s: string)
    requires !Occurs(LongRun(), s)
    ensures NoneMatches(BEARER_SHAPES, Sweep(BEARER_SHAPES, s))
    ensures Sweep(BEARER_SHAPES, Sweep(BEARER_SHAPES, s)) == Sweep(BEARER_SHAPES, s)
  {
    var tokens := BEARER_SHAPES[..9];
    if Occurs(LongRun(), Sweep(tokens, s)) { SweepCreatesNone(tokens, LongRun(), s); }
    MaskLeavesNoJwt(Sweep(tokens, s));
    forall k | 0 <= k < 9 ensures !HasMatch(BEARER_SHAPES[k], Sweep(BEARER_SHAPES, s)) { SweptHasNoToken(s, k); }
    UnchangedIffNoMatch(Sweep(BEARER_SHAPES, s));
  }

  // ---------- exactly when a JWT is left ----------

  /** Right behind a replaced match, at k, stand the parts of another JWT that no later match
      takes away: its lookbehind hid it, and the mask uncovers it. */
  predicate LeavesJwt(s: string, k: nat) {
    k <= |s| && JwtPart(s, k).Some? &&
    var a := JwtPart(s, k).value;
    JwtPart(s, a).Some? &&
    var b := JwtPart(s, a).value;
    PartsAt(s, k, a, b) && JwtEnd(s, a).None? && JwtEnd(s, b).None?
  }

  /** One of the matches that the left-to-right scan replaces from i on leaves one behind it. */
  predicate AnyLeft(len: nat -> nat, left: nat -> bool, s: string, i: nat)
    requires i <= |s|
    decreases |s| - i
  {
    if i == |s| then false
    else if Hit(len, s, i) then left(i + len(i)) || AnyLeft(len, left, s, i + len(i))
    else AnyLeft(len, left, s, i + 1)
  }

  function LeftIn(s: string): nat -> bool { (k: nat) => LeavesJwt(s, k) }

  predicate Uncovers(s: string) { AnyLeft(MatchLens(Jwt, s), LeftIn(s), s, 0) }

  lemma {:induction false} CopiedWhileNoHit(len: nat -> nat, s: string, k: nat, n: nat)
    requires k + n <= |s| && forall p: nat :: k <= p < k + n ==> !Hit(len, s, p)
    ensures n <= |Replace(len, s, k)| && Replace(len, s, k)[..n] == s[k..k + n]
    decreases n
  {
    if n > 0 {
      CopiedWhileNoHit(len, s, k + 1, n - 1);
      var rest := Replace(len, s, k + 1);
      assert Replace(len, s, k) == [s[k]] + rest;
      assert ([s[k]] + rest)[..n] == [s[k]] + rest[..n - 1];
      assert s[k..k + n] == [s[k]] + s[k + 1..k + 1 + (n - 1)];
    }
  }

  lemma {:induction false} FrontHasNoHit(len: nat -> nat, s: string, k: nat, n: nat, q: nat)
    requires k <= |s| && Unmasked(Replace(len, s, k), 0, n) && q < n
    ensures !Hit(len, s, k + q)
    decreases q
  {
    FrontIsCopied(len, s, k, n);
    if q > 0 {
      var rest := Replace(len, s, k + 1);
      assert Replace(len, s, k) == [s[k]] + rest;
      Shifted([s[k]], rest, 1, n - 1);
      FrontHasNoHit(len, s, k + 1, n - 1, q - 1);
    }
  }

  lemma PartChars(s: string, i: nat, a: nat)
    requires i <= |s| && JwtPart(s, i) == Some(a)
    ensures i + 4 < a <= |s| && s[a - 1] == '.' && forall p :: i <= p < a - 1 ==> TokenChar.Has(s[p])
  {
    forall p | i <= p < i + 3 ensures TokenChar.Has(s[p]) { assert Word("eyJ")[p - i].Has(s[i + (p - i)]); }
  }

  /** Inside two parts a match can start only where a part starts. */
  lemma NoHitInParts(s: string, k: nat, a: nat, b: nat, p: nat)
    requires 0 < k && PartsAt(s, k, a, b) && TokenChar.Has(s[k - 1])
    requires JwtEnd(s, a).None? && JwtEnd(s, b).None? && k <= p <= b
    ensures !Hit(MatchLens(Jwt, s), s, p)
  {
    PartChars(s, k, a);
    PartChars(s, a, b);
    JwtHit(s, p);
    if p == a - 1 || p == b - 1 { NoJwtAtDot(s, p); }
  }

  lemma NoJwtAtDot(s: string, p: nat)
    requires p < |s| && s[p] == '.'
    ensures JwtEnd(s, p).None?
  {
    assert !Word("eyJ")[0].Has(s[p + 0]);
  }

  lemma HitEndsInToken(s: string, i: nat)
    requires i < |s| && Hit(MatchLens(Jwt, s), s, i)
    ensures var k := i + MatchLens(Jwt, s)(i); i < k <= |s| && TokenChar.Has(s[k - 1])
  {
    JwtHit(s, i);
    var a, b := PartsOfEnd(s, i);
    EndIsParts(s, i, a, b);
  }

  lemma PartsAreCopied(len: nat -> nat, s: string, k: nat, a: nat, b: nat)
    requires PartsAt(s, k, a, b) && forall p: nat :: k <= p <= b ==> !Hit(len, s, p)
    ensures PartsAt(Replace(len, s, k), 0, a - k, b - k)
  {
    var n := b + 1 - k;
    var out := Replace(len, s, k);
    CopiedWhileNoHit(len, s, k, n);
    assert out[0..0 + n] == s[k..k + n];
    PartsOfSlice(s, k, out, 0, n, a, b);
  }

  lemma LeftIsCopied(s: string, k: nat, a: nat, b: nat)
    requires 0 < k && PartsAt(s, k, a, b) && TokenChar.Has(s[k - 1])
    requires JwtEnd(s, a).None? && JwtEnd(s, b).None?
    ensures JwtEnd(Replace(MatchLens(Jwt, s), s, k), 0).Some?
  {
    forall p: nat | k <= p <= b ensures !Hit(MatchLens(Jwt, s), s, p) { NoHitInParts(s, k, a, b, p); }
    PartsAreCopied(MatchLens(Jwt, s), s, k, a, b);
    EndIsParts(Replace(MatchLens(Jwt, s), s, k), 0, a - k, b - k);
  }

  lemma FrontParts(len: nat -> nat, s: string, k: nat, a: nat, b: nat)
    requires k <= |s| && PartsAt(Replace(len, s, k), 0, a, b)
    requires Unmasked(Replace(len, s, k), 0, b + 1)
    ensures PartsAt(s, k, k + a, k + b)
  {
    var out := Replace(len, s, k);
    FrontIsCopied(len, s, k, b + 1);
    assert out[0..0 + (b + 1)] == s[k..k + (b + 1)];
    PartsOfSlice(out, 0, s, k, b + 1, a, b);
  }

  lemma NoHitAfterDot(s: string, p: nat)
    requires 0 < p < |s| && s[p - 1] == '.' && !Hit(MatchLens(Jwt, s), s, p)
    ensures JwtEnd(s, p).None?
  {
    JwtHit(s, p);
  }

  lemma PartsWereCopied(len: nat -> nat, s: string, k: nat, a: nat, b: nat)
    requires k <= |s| && PartsAt(Replace(len, s, k), 0, a, b) && Unmasked(Replace(len, s, k), 0, b + 1)
    ensures PartsAt(s, k, k + a, k + b) && !Hit(len, s, k + a) && !Hit(len, s, k + b)
  {
    FrontParts(len, s, k, a, b);
    FrontHasNoHit(len, s, k, b + 1, a);
    FrontHasNoHit(len, s, k, b + 1, b);
  }

  lemma PartsLeft(s: string, k: nat, a: nat, b: nat)
    requires PartsAt(s, k, a, b) && !Hit(MatchLens(Jwt, s), s, a) && !Hit(MatchLens(Jwt, s), s, b)
    ensures LeavesJwt(s, k)
  {
    PartChars(s, k, a);
    PartChars(s, a, b);
    NoHitAfterDot(s, a);
    NoHitAfterDot(s, b);
  }

  lemma StarFreeParts(out: string) returns (a: nat, b: nat)
    requires JwtEnd(out, 0).Some?
    ensures PartsAt(out, 0, a, b) && Unmasked(out, 0, b + 1)
  {
    a, b := PartsOfEnd(out, 0);
    JwtIsStarFree(out, 0);
  }

  lemma CopiedParts(len: nat -> nat, s: string, k: nat) returns (a: nat, b: nat)
    requires k <= |s| && JwtEnd(Replace(len, s, k), 0).Some?
    ensures PartsAt(s, k, a, b) && !Hit(len, s, a) && !Hit(len, s, b)
  {
    var x, y := StarFreeParts(Replace(len, s, k));
    PartsWereCopied(len, s, k, x, y);
    a, b := k + x, k + y;
  }

  lemma CopiedWasLeft(s: string, k: nat)
    requires k <= |s| && JwtEnd(Replace(MatchLens(Jwt, s), s, k), 0).Some?
    ensures LeavesJwt(s, k)
  {
    var a, b := CopiedParts(MatchLens(Jwt, s), s, k);
    PartsLeft(s, k, a, b);
  }

  /** Behind a replaced match the output begins with a JWT exactly when the match leaves one. */
  lemma FrontLeft(s: string, k: nat)
    requires 0 < k <= |s| && TokenChar.Has(s[k - 1])
    ensures JwtEnd(Replace(MatchLens(Jwt, s), s, k), 0).Some? <==> LeavesJwt(s, k)
  {
    if LeavesJwt(s, k) {
      var a := JwtPart(s, k).value;
      LeftIsCopied(s, k, a, JwtPart(s, a).value);
    }
    if JwtEnd(Replace(MatchLens(Jwt, s), s, k), 0).Some? { CopiedWasLeft(s, k); }
  }

  lemma FrontStartsJwt(len: nat -> nat, s: string, k: nat)
    requires k <= |s| && JwtEnd(Replace(len, s, k), 0).Some?
    ensures JwtEnd(s, k).Some? && !Hit(len, s, k)
  {
    var out := Replace(len, s, k);
    var n := JwtEnd(out, 0).value;
    JwtIsStarFree(out, 0);
    FrontIsCopied(len, s, k, n);
    assert out[0..0 + n] == s[k..k + n];
    JwtOfSlice(out, 0, s, k, n);
  }

  /** Elsewhere the lookbehind hides it. */
  lemma FrontHidden(s: string, i: nat)
    requires i < |s| && JwtEnd(Replace(MatchLens(Jwt, s), s, i + 1), 0).Some?
    ensures TokenChar.Has(s[i])
  {
    FrontStartsJwt(MatchLens(Jwt, s), s, i + 1);
    JwtStartsToken(s, i + 1);
    JwtHit(s, i + 1);
  }

  /** A JWT that does not open the string. */
  predicate InnerAt(out: string, j: nat) {
    0 < j <= |out| && JwtEnd(out, j).Some? && !TokenChar.Has(out[j - 1])
  }

  predicate Inner(out: string) { exists j :: 0 < j <= |out| && InnerAt(out, j) }

  /** Equal suffixes hold the same JWTs. */
  lemma JwtOfSuffix(s: string, i: nat, t: string, k: nat)
    requires i <= |s| && k <= |t| && s[i..] == t[k..] && JwtEnd(s, i).Some?
    ensures JwtEnd(t, k).Some?
  {
    var n := JwtEnd(s, i).value - i;
    assert s[i..i + n] == s[i..][..n] == t[k..][..n] == t[k..k + n];
    JwtOfSlice(s, i, t, k, n);
  }

  lemma JwtEndShifts(p: string, rest: string, j: nat)
    requires j <= |rest|
    ensures JwtEnd(p + rest, |p| + j).Some? <==> JwtEnd(rest, j).Some?
  {
    var out, k := p + rest, |p| + j;
    assert out[k..] == rest[j..];
    if JwtEnd(out, k).Some? { JwtOfSuffix(out, k, rest, j); }
    if JwtEnd(rest, j).Some? { JwtOfSuffix(rest, j, out, k); }
  }

  lemma InnerShifts(p: string, rest: string, j: nat)
    requires 0 < j <= |rest|
    ensures InnerAt(p + rest, |p| + j) <==> InnerAt(rest, j)
  {
    JwtEndShifts(p, rest, j);
    assert (p + rest)[|p| + j - 1] == rest[j - 1];
  }

  lemma InnerOfRest(p: string, rest: string)
    requires Inner(rest)
    ensures Inner(p + rest)
  {
    var j :| 0 < j <= |rest| && InnerAt(rest, j);
    InnerShifts(p, rest, j);
    assert InnerAt(p + rest, |p| + j);
  }

  lemma InnerAtOne(c: char, rest: string)
    ensures InnerAt([c] + rest, 1) <==> JwtEnd(rest, 0).Some? && !TokenChar.Has(c)
  {
    JwtEndShifts([c], rest, 0);
  }

  lemma InnerBehindOne(c: char, rest: string, out: string, j: nat)
    requires out == [c] + rest && 1 < j <= |out| && InnerAt(out, j)
    ensures Inner(rest)
  {
    var k := j - 1;
    InnerShifts([c], rest, k);
    assert InnerAt(rest, k);
  }

  lemma InnerIsOneOrRest(c: char, rest: string)
    requires Inner([c] + rest) && !InnerAt([c] + rest, 1)
    ensures Inner(rest)
  {
    var out := [c] + rest;
    var j :| 0 < j <= |out| && InnerAt(out, j);
    InnerBehindOne(c, rest, out, j);
  }

  lemma InnerAfterChar(c: char, rest: string)
    ensures Inner([c] + rest) <==> (JwtEnd(rest, 0).Some? && !TokenChar.Has(c)) || Inner(rest)
  {
    InnerAtOne(c, rest);
    if Inner([c] + rest) && !InnerAt([c] + rest, 1) { InnerIsOneOrRest(c, rest); }
    if Inner(rest) { InnerOfRest([c], rest); }
  }

  lemma NoJwtAtStar(s: string, p: nat)
    requires p < |s| && s[p] == '*'
    ensures JwtEnd(s, p).None?
  {
    assert !Word("eyJ")[0].Has(s[p + 0]);
  }

  lemma InnerAfterMask(rest: string)
    ensures Inner("***" + rest) <==> JwtEnd(rest, 0).Some? || Inner(rest)
  {
    var c := '*';
    InnerAfterChar(c, rest);
    InnerAfterChar(c, [c] + rest);
    InnerAfterChar(c, [c] + ([c] + rest));
    assert JwtEnd([c] + rest, 0).None? by { NoJwtAtStar([c] + rest, 0); }
    assert JwtEnd([c] + ([c] + rest), 0).None? by { NoJwtAtStar([c] + ([c] + rest), 0); }
    assert [c] + ([c] + ([c] + rest)) == "***" + rest;
  }

  lemma InnerAtHit(s: string, i: nat, k: nat)
    requires i < |s| && Hit(MatchLens(Jwt, s), s, i) && k == i + MatchLens(Jwt, s)(i)
    ensures Inner(Replace(MatchLens(Jwt, s), s, i)) <==> LeavesJwt(s, k) || Inner(Replace(MatchLens(Jwt, s), s, k))
  {
    HitEndsInToken(s, i);
    FrontLeft(s, k);
    InnerAfterMask(Replace(MatchLens(Jwt, s), s, k));
  }

  lemma InnerAtCopy(s: string, i: nat)
    requires i < |s| && !Hit(MatchLens(Jwt, s), s, i)
    ensures Inner(Replace(MatchLens(Jwt, s), s, i)) <==> Inner(Replace(MatchLens(Jwt, s), s, i + 1))
  {
    var rest := Replace(MatchLens(Jwt, s), s, i + 1);
    InnerAfterChar(s[i], rest);
    if JwtEnd(rest, 0).Some? { FrontHidden(s, i); }
  }

  /** The output holds a JWT behind its start. */
  function HasInner(): string -> bool { out => Inner(out) }

  lemma HasInnerIs(holds: string -> bool, out: string)
    requires holds == HasInner()
    ensures holds(out) <==> Inner(out)
  {
  }

  /** A mask or a copied character at p makes `holds` true of the output just as `left` says. */
  predicate StepOk(holds: string -> bool, len: nat -> nat, left: nat -> bool, s: string, p: nat)
    requires p < |s|
  {
    holds(Replace(len, s, p)) <==>
      if Hit(len, s, p) then left(p + len(p)) || holds(Replace(len, s, p + len(p))) else holds(Replace(len, s, p + 1))
  }

  lemma StepAtHit(s: string, holds: string -> bool, len: nat -> nat, left: nat -> bool, p: nat, k: nat)
    requires len == MatchLens(Jwt, s) && left == LeftIn(s) && holds == HasInner()
    requires p < |s| && Hit(len, s, p) && k == p + len(p)
    ensures holds(Replace(len, s, p)) <==> left(k) || holds(Replace(len, s, k))
  {
    InnerAtHit(s, p, k);
    HasInnerIs(holds, Replace(len, s, p));
    HasInnerIs(holds, Replace(len, s, k));
  }

  lemma StepAtCopy(s: string, holds: string -> bool, len: nat -> nat, p: nat, k: nat)
    requires len == MatchLens(Jwt, s) && holds == HasInner() && p < |s| && !Hit(len, s, p) && k == p + 1
    ensures holds(Replace(len, s, p)) <==> holds(Replace(len, s, k))
  {
    InnerAtCopy(s, p);
    HasInnerIs(holds, Replace(len, s, p));
    HasInnerIs(holds, Replace(len, s, k));
  }

  lemma HitIsOk(holds: string -> bool, len: nat -> nat, left: nat -> bool, s: string, p: nat, k: nat)
    requires p < |s| && Hit(len, s, p) && k == p + len(p)
    requires holds(Replace(len, s, p)) <==> left(k) || holds(Replace(len, s, k))
    ensures StepOk(holds, len, left, s, p)
  {
  }

  lemma CopyIsOk(holds: string -> bool, len: nat -> nat, left: nat -> bool, s: string, p: nat, k: nat)
    requires p < |s| && !Hit(len, s, p) && k == p + 1
    requires holds(Replace(len, s, p)) <==> holds(Replace(len, s, k))
    ensures StepOk(holds, len, left, s, p)
  {
  }

  lemma InnerStepOk(s: string, holds: string -> bool, len: nat -> nat, left: nat -> bool, p: nat)
    requires p < |s| && len == MatchLens(Jwt, s) && left == LeftIn(s) && holds == HasInner()
    ensures StepOk(holds, len, left, s, p)
  {
    var k := if Hit(len, s, p) then p + len(p) else p + 1;
    if Hit(len, s, p) {
      StepAtHit(s, holds, len, left, p, k);
      HitIsOk(holds, len, left, s, p, k);
    } else {
      StepAtCopy(s, holds, len, p, k);
      CopyIsOk(holds, len, left, s, p, k);
    }
  }

  lemma {:induction false} HoldsIffAnyLeft(holds: string -> bool, len: nat -> nat, left: nat -> bool, s: string, i: nat)
    requires i <= |s| && !holds("") && forall p: nat :: p < |s| ==> StepOk(holds, len, left, s, p)
    ensures holds(Replace(len, s, i)) <==> AnyLeft(len, left, s, i)
    decreases |s| - i
  {
    if i < |s| {
      assert StepOk(holds, len, left, s, i);
      HoldsIffAnyLeft(holds, len, left, s, if Hit(len, s, i) then i + len(i) else i + 1);
    }
  }

  lemma InnerIffAnyLeft(s: string, holds: string -> bool, len: nat -> nat, left: nat -> bool, i: nat)
    requires i <= |s| && len == MatchLens(Jwt, s) && left == LeftIn(s) && holds == HasInner() && !holds("")
    ensures holds(Replace(len, s, i)) <==> AnyLeft(len, left, s, i)
  {
    forall p: nat | p < |s| ensures StepOk(holds, len, left, s, p) { InnerStepOk(s, holds, len, left, p); }
    HoldsIffAnyLeft(holds, len, left, s, i);
  }

  lemma NothingInEmpty()
    ensures !Inner("")
  {
  }

  lemma MatchOf(out: string, j: nat)
    requires j < |out|
    ensures Hit(MatchLens(Jwt, out), out, j) <==> if j == 0 then JwtEnd(out, 0).Some? else InnerAt(out, j)
  {
    JwtHit(out, j);
  }

  lemma MatchIsFrontOrInner(out: string)
    ensures HasMatch(Jwt, out) <==> JwtEnd(out, 0).Some? || Inner(out)
  {
    if HasMatch(Jwt, out) {
      var j :| 0 <= j < |out| && Hit(MatchLens(Jwt, out), out, j);
      MatchOf(out, j);
    }
    if JwtEnd(out, 0).Some? {
      JwtStartsToken(out, 0);
      MatchOf(out, 0);
    }
    if Inner(out) {
      var j :| 0 < j <= |out| && InnerAt(out, j);
      JwtStartsToken(out, j);
      MatchOf(out, j);
    }
  }

  /** The mask leaves a JWT exactly when some replaced match uncovers one. */
  lemma MaskLeavesJwtIff(s: string)
    ensures HasMatch(Jwt, Mask(Jwt, s)) <==> Uncovers(s)
  {
    var out := Mask(Jwt, s);
    MatchIsFrontOrInner(out);
    if JwtEnd(out, 0).Some? {
      FrontStartsJwt(MatchLens(Jwt, s), s, 0);
      JwtStartsToken(s, 0);
      JwtHit(s, 0);
    }
    NothingInEmpty();
    InnerIffAnyLeft(s, HasInner(), MatchLens(Jwt, s), LeftIn(s), 0);
  }

  /** What the JWT shape is given: the string after the nine token shapes. */
  function BeforeJwt(s: string): string { Sweep(BEARER_SHAPES[..9], s) }

  /** The swept string is clean, and sweeping it again changes nothing, exactly when no JWT match
      of the last replacement uncovers another JWT. */
  lemma SweptIsCleanIff(s: string)
    ensures HasMatch(Jwt, Sweep(BEARER_SHAPES, s)) <==> Uncovers(BeforeJwt(s))
    ensures NoneMatches(BEARER_SHAPES, Sweep(BEARER_SHAPES, s)) <==> !Uncovers(BeforeJwt(s))
    ensures Sweep(BEARER_SHAPES, Sweep(BEARER_SHAPES, s)) == Sweep(BEARER_SHAPES, s) <==> !Uncovers(BeforeJwt(s))
  {
    var out := Sweep(BEARER_SHAPES, s);
    assert out == Mask(BEARER_SHAPES[9], BeforeJwt(s));
    MaskLeavesJwtIff(BeforeJwt(s));
    forall k | 0 <= k < 9 ensures !HasMatch(BEARER_SHAPES[k], out) { SweptHasNoToken(s, k); }
    UnchangedIffNoMatch(out);
    assert BEARER_SHAPES[9] == Jwt;
  }

  // A JWT whose third segment is cut at the cap, right before another JWT.

  const JWT_EXAMPLE := "eyJa.eyJa.a"

  function CutExample(): string { "eyJa." + "eyJa." + seq(JWT_CAP, _ => 'x') + JWT_EXAMPLE }

  lemma SlicesOfConcat(p: string, q: string, xs: string, tail: string)
    ensures (p + q + xs + tail)[0..|p|] == p
    ensures (p + q + xs + tail)[|p|..|p| + |q|] == q
    ensures (p + q + xs + tail)[|p| + |q|..|p| + |q| + |xs|] == xs
    ensures (p + q + xs + tail)[|p| + |q| + |xs|..] == tail
  {
  }

  lemma JwtPartIs(s: string, i: nat)
    requires i + 5 <= |s| && s[i..i + 5] == "eyJa."
    ensures JwtPart(s, i) == Some(i + 5)
  {
    assert s[i..i + 5] == "eyJa."[0..5];
    forall d: nat | d < 5 ensures s[i + d] == "eyJa."[d] { SliceAt(s, i, "eyJa.", 0, 5, d); }
    assert s[i + 3] == 'a' && s[i + 4] == '.';
    RunEndIs(TokenChar, s, i + 3, i + 4);
    forall p | 0 <= p < 3 ensures Word("eyJ")[p].Has(s[i + p]) { assert s[i + p] == "eyJa."[p]; }
  }

  lemma JwtEndIs(s: string, i: nat, r: nat)
    requires i + 10 < r <= |s| && s[i..i + 5] == "eyJa." && s[i + 5..i + 10] == "eyJa."
    requires RunEnd(TokenChar, s, i + 10) == r
    ensures JwtEnd(s, i) == Some(i + 10 + Capped(r - (i + 10), Some(JWT_CAP)))
  {
    JwtPartIs(s, i);
    JwtPartIs(s, i + 5);
    EndIsParts(s, i, i + 5, i + 10);
  }

  lemma CutExampleEnd(s: string, b: nat)
    requires s == CutExample() && b == 10 + JWT_CAP
    ensures |s| == b + 11 && s[b..] == JWT_EXAMPLE && s[b - 1] == 'x'
    ensures JwtEnd(s, 0) == Some(b)
  {
    var xs: string := seq(JWT_CAP, _ => 'x');
    SlicesOfConcat("eyJa.", "eyJa.", xs, JWT_EXAMPLE);
    forall p | 10 <= p < b ensures s[p] == 'x' { assert s[10..b][p - 10] == xs[p - 10]; }
    forall p | b <= p < |s| ensures s[p] == JWT_EXAMPLE[p - b] { assert s[b..][p - b] == JWT_EXAMPLE[p - b]; }
    assert s[b + 4] == '.' && s[b + 3] == 'a' && s[b + 2] == 'J' && s[b + 1] == 'y' && s[b] == 'e';
    RunEndIs(TokenChar, s, 10, b + 4);
    JwtEndIs(s, 0, b + 4);
  }

  /** Without the condition a JWT can be left: the lookbehind hides it from the first sweep and
      the mask uncovers it. */
  lemma CutMatchUncoversJwt()
    ensures Mask(Jwt, CutExample()) == "***" + JWT_EXAMPLE
    ensures HasMatch(Jwt, "***" + JWT_EXAMPLE)
  {
    var s, b := CutExample(), 10 + JWT_CAP;
    CutExampleEnd(s, b);
    JwtHit(s, 0);
    forall p | b <= p < |s| ensures s[p] == JWT_EXAMPLE[p - b] { assert s[b..][p - b] == JWT_EXAMPLE[p - b]; }
    forall k | b <= k < |s| ensures !Hit(MatchLens(Jwt, s), s, k) { NoHitInTail(s, b, k); }
    ReplaceOfNone(MatchLens(Jwt, s), s, b);
    ExampleMatches();
  }

  lemma ExampleMatches()
    ensures HasMatch(Jwt, "***" + JWT_EXAMPLE)
  {
    var out := "***" + JWT_EXAMPLE;
    assert out[3..8] == "eyJa." && out[8..13] == "eyJa.";
    assert RunEnd(TokenChar, out, 13) == 14;
    JwtEndIs(out, 3, 14);
    JwtHit(out, 3);
  }

  lemma NoHitInTail(s: string, b: nat, k: nat)
    requires 0 < b <= k < |s| && |s| == b + 11 && s[b - 1] == 'x'
    requires forall p :: b <= p < |s| ==> s[p] == JWT_EXAMPLE[p - b]
    ensures !Hit(MatchLens(Jwt, s), s, k)
  {
    JwtHit(s, k);
    if k == b + 5 {
      assert s[k..k + 5] == "eyJa.";
      JwtPartIs(s, k);
      assert !Word("eyJ")[0].Has(s[b + 10]);
    } else if k == b + 4 || k == b + 10 {
      assert !Word("eyJ")[0].Has(s[k + 0]);
    } else {
      assert TokenChar.Has(s[k - 1]);
    }
  }

  /** Every character is one of those the example is made of. */
  predicate FromExample(s: string) { forall i :: 0 <= i < |s| ==> s[i] in "eyJa.x" }

  lemma FromExampleConcat(p: string, q: string)
    requires FromExample(p) && FromExample(q)
    ensures FromExample(p + q)
  {
  }

  lemma PiecesAreFromExample(xs: string)
    requires forall i :: 0 <= i < |xs| ==> xs[i] == 'x'
    ensures FromExample("eyJa.") && FromExample(JWT_EXAMPLE) && FromExample(xs)
  {
  }

  lemma CutExampleChars(s: string)
    requires s == CutExample()
    ensures FromExample(s)
  {
    var xs: string := seq(JWT_CAP, _ => 'x');
    PiecesAreFromExample(xs);
    FromExampleConcat("eyJa.", "eyJa.");
    FromExampleConcat("eyJa." + "eyJa.", xs);
    FromExampleConcat("eyJa." + "eyJa." + xs, JWT_EXAMPLE);
  }

  /** The place in the head of each token shape that no character of the example fits. */
  function Missing(k: nat): nat { if k == 8 then 1 else 0 }

  lemma HeadsAreForeign(k: nat)
    requires k < 9
    ensures BEARER_SHAPES[k].Token? && Missing(k) < |BEARER_SHAPES[k].head|
    ensures Foreign(BEARER_SHAPES[k].head[Missing(k)])
  {
  }

  predicate Foreign(cls: CharClass) { forall i :: 0 <= i < 6 ==> !cls.Has("eyJa.x"[i]) }

  lemma ForeignHasNone(cls: CharClass, c: char)
    requires Foreign(cls) && c in "eyJa.x"
    ensures !cls.Has(c)
  {
    var i :| 0 <= i < 6 && "eyJa.x"[i] == c;
  }

  lemma ForeignHeadNeverMatches(shape: Shape, m: nat, s: string)
    requires shape.Token? && m < |shape.head| && Foreign(shape.head[m]) && FromExample(s)
    ensures !HasMatch(shape, s)
  {
    if HasMatch(shape, s) {
      var i :| 0 <= i < |s| && Hit(MatchLens(shape, s), s, i);
      HitHasHead(shape, s, i);
      assert shape.head[m].Has(s[i + m]);
      ForeignHasNone(shape.head[m], s[i + m]);
    }
  }

  lemma NoTokenInExample(s: string, k: nat)
    requires k < 9 && FromExample(s)
    ensures !HasMatch(BEARER_SHAPES[k], s)
  {
    HeadsAreForeign(k);
    ForeignHeadNeverMatches(BEARER_SHAPES[k], Missing(k), s);
  }

  lemma HitHasHead(shape: Shape, s: string, i: nat)
    requires shape.Token? && Hit(MatchLens(shape, s), s, i)
    ensures HeadAt(shape.head, s, i)
  {
  }

  /** So the whole sweep, run on this string, leaves a JWT that a second sweep would mask. */
  lemma SweepUncoversJwt(s: string)
    requires s == CutExample()
    ensures Sweep(BEARER_SHAPES, s) == "***" + JWT_EXAMPLE
    ensures HasMatch(Jwt, Sweep(BEARER_SHAPES, s))
    ensures Sweep(BEARER_SHAPES, Sweep(BEARER_SHAPES, s)) != Sweep(BEARER_SHAPES, s)
  {
    var tokens := BEARER_SHAPES[..9];
    CutExampleChars(s);
    forall k | 0 <= k < 9 ensures !HasMatch(tokens[k], s) {
      NoTokenInExample(s, k);
      assert tokens[k] == BEARER_SHAPES[k];
    }
    BearerShapesAreLong();
    SweepShrinks(tokens, s);
    assert BEARER_SHAPES[9] == Jwt;
    CutMatchUncoversJwt();
    SweptIsCleanIff(s);
  }
}
