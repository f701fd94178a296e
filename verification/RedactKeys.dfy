/** Which strings the bearer-shape sweep changes, read off the vendors' prefixes. */
module RedactKeys {
  import opened JsText
  import opened RedactUrl
  import opened RedactJwt
  import opened RedactRuns

  /** The characters of a key's body: letters of one case or both, digits, and the two marks. */
  lemma ClassesAre(c: char)
    ensures UpperDigit.Has(c) <==> 65 <= c as int < 91 || c in "0123456789"
    ensures Alnum.Has(c) <==> UpperDigit.Has(c) || 97 <= c as int < 123
    ensures TokenChar.Has(c) <==> Alnum.Has(c) || c in "_-"
  {
    if '0' <= c <= '9' { assert "0123456789"[c as int - 48] == c; }
    assert "_-"[0] == '_' && "_-"[1] == '-';
  }

  /** The head of a shape stands for exactly one string. */
  ghost predicate Spells(head: seq<CharClass>, prefix: string) {
    |head| == |prefix| && prefix != "" && forall k, c :: 0 <= k < |head| ==> (head[k].Has(c) <==> c == prefix[k])
  }

  lemma HeadIsPrefix(head: seq<CharClass>, prefix: string, s: string, i: nat)
    requires Spells(head, prefix)
    ensures HeadAt(head, s, i) <==> StartsAt(s, i, prefix)
  {
    if StartsAt(s, i, prefix) {
      forall k | 0 <= k < |head| ensures head[k].Has(s[i + k]) { CharIn(s, i, prefix, k); }
    }
    if HeadAt(head, s, i) {
      forall k | 0 <= k < |prefix| ensures s[i + k] == prefix[k] { assert head[k].Has(s[i + k]); }
      assert s[i..i + |prefix|] == prefix;
    }
  }

  lemma WordSpells(prefix: string)
    requires prefix != ""
    ensures Spells(Word(prefix), prefix)
  {
  }

  /** A key of n characters at i: the prefix and as many characters of the class as there are, or
      as many as are taken at most. */
  ghost predicate KeyAt(s: string, i: nat, n: nat, prefix: string, cls: CharClass, min: nat, max: Option<nat>) {
    StartsAt(s, i, prefix) && n >= |prefix| && GreedyRun(cls, s, i + |prefix|, i + n, min, max)
  }

  ghost predicate MatchedAt(shape: Shape, s: string, i: nat, n: nat) {
    Hit(MatchLens(shape, s), s, i) && MatchLens(shape, s)(i) == n
  }

  lemma MatchIsKey(shape: Shape, s: string, i: nat, n: nat, prefix: string)
    requires shape.Token? && Bounded(shape.min, shape.max) && Spells(shape.head, prefix)
    ensures MatchedAt(shape, s, i, n) <==> KeyAt(s, i, n, prefix, shape.body, shape.min, shape.max)
  {
    HitIsGreedy(shape, s, i, n);
    HeadIsPrefix(shape.head, prefix, s, i);
  }

  /** The one shape whose head is not a fixed string. */
  const GITHUB := Token(Word("gh") + [Choice("pousr"), CharClass.One('_')], Alnum, 36, Some(255))

  function GithubPrefix(kind: char): string { ['g', 'h', kind, '_'] }

  ghost predicate GithubKeyAt(s: string, i: nat, n: nat) {
    exists kind :: kind in "pousr" && KeyAt(s, i, n, GithubPrefix(kind), Alnum, 36, Some(255))
  }

  lemma GithubHeadIff(s: string, i: nat, kind: char)
    requires kind in "pousr"
    ensures StartsAt(s, i, GithubPrefix(kind)) <==> HeadAt(GITHUB.head, s, i) && s[i + 2] == kind
  {
    var prefix := GithubPrefix(kind);
    assert |GITHUB.head| == 4 && GITHUB.head[0] == Word("gh")[0] && GITHUB.head[1] == Word("gh")[1];
    if StartsAt(s, i, prefix) {
      forall k | 0 <= k < 4 ensures GITHUB.head[k].Has(s[i + k]) && s[i + k] == prefix[k] { CharIn(s, i, prefix, k); }
    }
    if HeadAt(GITHUB.head, s, i) && s[i + 2] == kind {
      forall k | 0 <= k < 4 ensures s[i + k] == prefix[k] { assert GITHUB.head[k].Has(s[i + k]); }
      assert s[i..i + 4] == prefix;
    }
  }

  lemma GithubMatchIff(s: string, i: nat, n: nat)
    ensures MatchedAt(GITHUB, s, i, n) <==> GithubKeyAt(s, i, n)
  {
    HitIsGreedy(GITHUB, s, i, n);
    if MatchedAt(GITHUB, s, i, n) {
      assert GITHUB.head[2].Has(s[i + 2]);
      GithubHeadIff(s, i, s[i + 2]);
      assert KeyAt(s, i, n, GithubPrefix(s[i + 2]), Alnum, 36, Some(255));
    }
    if kind :| kind in "pousr" && KeyAt(s, i, n, GithubPrefix(kind), Alnum, 36, Some(255)) {
      GithubHeadIff(s, i, kind);
    }
  }

  /** The key each of the nine patterns is for: its vendor's prefix, and so many characters. */
  ghost predicate VendorKeyAt(k: nat, s: string, i: nat, n: nat) {
    match k
    case 0 => KeyAt(s, i, n, "sk-ant-", TokenChar, 8, None)
    case 1 => KeyAt(s, i, n, "sk-", TokenChar, 8, None)
    case 2 => KeyAt(s, i, n, "AIza", TokenChar, 35, None)
    case 3 => KeyAt(s, i, n, "AKIA", UpperDigit, 16, Some(16))
    case 4 => KeyAt(s, i, n, "ASIA", UpperDigit, 16, Some(16))
    case 5 => GithubKeyAt(s, i, n)
    case 6 => KeyAt(s, i, n, "tvly-", Alnum, 16, Some(40))
    case 7 => KeyAt(s, i, n, "AQVN", TokenChar, 16, None)
    case 8 => KeyAt(s, i, n, "y0_", TokenChar, 20, None)
    case _ => false
  }

  /** What a pattern takes at a place is that key, whole, and nothing else is taken. */
  lemma VendorKeysAreTaken(k: nat, s: string, i: nat, n: nat)
    requires k < 9
    ensures MatchedAt(BEARER_SHAPES[k], s, i, n) <==> VendorKeyAt(k, s, i, n)
  {
    match k
    case 0 => WordIsKey("sk-ant-", TokenChar, 8, None, s, i, n);
    case 1 => WordIsKey("sk-", TokenChar, 8, None, s, i, n);
    case 2 => WordIsKey("AIza", TokenChar, 35, None, s, i, n);
    case 3 => WordIsKey("AKIA", UpperDigit, 16, Some(16), s, i, n);
    case 4 => WordIsKey("ASIA", UpperDigit, 16, Some(16), s, i, n);
    case 5 => GithubMatchIff(s, i, n);
    case 6 => WordIsKey("tvly-", Alnum, 16, Some(40), s, i, n);
    case 7 => WordIsKey("AQVN", TokenChar, 16, None, s, i, n);
    case 8 => WordIsKey("y0_", TokenChar, 20, None, s, i, n);
  }

  lemma WordIsKey(prefix: string, cls: CharClass, min: nat, max: Option<nat>, s: string, i: nat, n: nat)
    requires prefix != "" && Bounded(min, max)
    ensures MatchedAt(Token(Word(prefix), cls, min, max), s, i, n) <==> KeyAt(s, i, n, prefix, cls, min, max)
  {
    WordSpells(prefix);
    MatchIsKey(Token(Word(prefix), cls, min, max), s, i, n, prefix);
  }

  // ---------- which strings are changed ----------

  /** Somewhere in the string a key of the vendor stands. */
  ghost predicate HoldsKey(k: nat, s: string) { exists i: nat, n: nat :: VendorKeyAt(k, s, i, n) }

  ghost predicate HoldsJwt(s: string) { exists i: nat, a: nat, b: nat, e: nat :: IsJwtMatch(s, i, a, b, e) }

  lemma MatchIffKey(k: nat, s: string)
    requires k < 9
    ensures HasMatch(BEARER_SHAPES[k], s) <==> HoldsKey(k, s)
  {
    var len := MatchLens(BEARER_SHAPES[k], s);
    if HasMatch(BEARER_SHAPES[k], s) {
      var i: nat :| i < |s| && Hit(len, s, i);
      VendorKeysAreTaken(k, s, i, len(i));
      assert VendorKeyAt(k, s, i, len(i));
    }
    if i: nat, n: nat :| VendorKeyAt(k, s, i, n) {
      VendorKeysAreTaken(k, s, i, n);
      assert i < |s| && Hit(len, s, i);
    }
  }

  lemma MatchIsJwt(s: string, i: nat)
    requires Hit(MatchLens(Jwt, s), s, i)
    ensures HoldsJwt(s)
  {
    var e := i + MatchLens(Jwt, s)(i);
    JwtHitIff(s, i, e);
    var a: nat, b: nat :| IsJwtMatch(s, i, a, b, e);
  }

  lemma JwtIsMatch(s: string, i: nat, a: nat, b: nat, e: nat)
    requires IsJwtMatch(s, i, a, b, e)
    ensures HasMatch(Jwt, s)
  {
    JwtHitIff(s, i, e);
  }

  lemma MatchIffJwt(s: string)
    ensures HasMatch(Jwt, s) <==> HoldsJwt(s)
  {
    if HasMatch(Jwt, s) {
      var i: nat :| i < |s| && Hit(MatchLens(Jwt, s), s, i);
      MatchIsJwt(s, i);
    }
    if i: nat, a: nat, b: nat, e: nat :| IsJwtMatch(s, i, a, b, e) { JwtIsMatch(s, i, a, b, e); }
  }

  /** The sweep changes a string iff it holds a key of one of the vendors, or a JWT. */
  lemma ChangedIffSecret(s: string)
    ensures Sweep(BEARER_SHAPES, s) != s <==> HoldsJwt(s) || exists k: nat :: k < 9 && HoldsKey(k, s)
  {
    UnchangedIffNoMatch(s);
    assert BEARER_SHAPES[9] == Jwt;
    MatchIffJwt(s);
    forall k: nat | k < 9 ensures HasMatch(BEARER_SHAPES[k], s) <==> HoldsKey(k, s) { MatchIffKey(k, s); }
    if Sweep(BEARER_SHAPES, s) != s {
      var k: nat :| k < 10 && HasMatch(BEARER_SHAPES[k], s);
    }
  }
}
