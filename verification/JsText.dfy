/** JavaScript string operations the tools rely on.  A string is a sequence of well-formed
    Unicode characters; where a tool measures a string in UTF-16 units, Units counts them. */
module JsText {

  datatype Option<+T> = None | Some(value: T)

  /** What `.` and the anchors `^`, `$` of a regular expression treat as a line end. */
  predicate IsLineTerminator(c: char) {
    c == '\n' || c == '\r' || c == '\U{2028}' || c == '\U{2029}'
  }

  predicate HasLineTerminator(s: string) {
    '\n' in s || '\r' in s || '\U{2028}' in s || '\U{2029}' in s
  }

  /** `\s`, and what trim removes. */
  predicate IsSpace(c: char) {
    || c == ' ' || ('\t' <= c <= '\r') || c == '\U{A0}' || c == '\U{1680}'
    || ('\U{2000}' <= c <= '\U{200A}') || c == '\U{2028}' || c == '\U{2029}'
    || c == '\U{202F}' || c == '\U{205F}' || c == '\U{3000}' || c == '\U{FEFF}'
  }

  predicate IsDigit(c: char) { '0' <= c <= '9' }

  /** The length of the string in UTF-16 units: two for a character beyond the first plane. */
  function Units(s: string): (n: nat)
    ensures n >= |s|
  {
    if s == "" then 0 else Units(s[..|s| - 1]) + CharUnits(s[|s| - 1])
  }

  function CharUnits(c: char): nat { if c <= '\U{FFFF}' then 1 else 2 }

  /** The characters that fit whole into n units. */
  function FirstUnits(s: string, n: nat): (r: string)
    ensures r <= s && Units(r) <= n
    ensures Units(s) <= n ==> r == s
    decreases |s|
  {
    if Units(s) <= n then s else FirstUnits(s[..|s| - 1], n)
  }

  predicate StartsWith(s: string, p: string) { p <= s }

  predicate StartsAt(s: string, i: nat, p: string) { i + |p| <= |s| && s[i..i + |p|] == p }

  predicate EndsWith(s: string, p: string) { |p| <= |s| && s[|s| - |p|..] == p }

  /** The first position from i on that holds no white space. */
  function SkipSpace(s: string, i: nat): (r: nat)
    requires i <= |s|
    ensures i <= r <= |s|
    ensures forall p :: i <= p < r ==> IsSpace(s[p])
    ensures r < |s| ==> !IsSpace(s[r])
    decreases |s| - i
  {
    if i < |s| && IsSpace(s[i]) then SkipSpace(s, i + 1) else i
  }

  /** The end of the last visible character of s[i..j]. */
  function DropSpace(s: string, i: nat, j: nat): (r: nat)
    requires i <= j <= |s|
    ensures i <= r <= j
    ensures forall p :: r <= p < j ==> IsSpace(s[p])
    ensures i < r ==> !IsSpace(s[r - 1])
    decreases j
  {
    if i < j && IsSpace(s[j - 1]) then DropSpace(s, i, j - 1) else j
  }

  function TrimStart(s: string): string { s[SkipSpace(s, 0)..] }

  function Trim(s: string): string {
    var i := SkipSpace(s, 0);
    s[i..DropSpace(s, i, |s|)]
  }

  lemma SkipSpaceAt(s: string, i: nat, k: nat)
    requires i <= k <= |s| && (k < |s| ==> !IsSpace(s[k]))
    requires forall p :: i <= p < k ==> IsSpace(s[p])
    ensures SkipSpace(s, i) == k
  {
  }

  /** Begins and ends with a visible character. */
  predicate Tight(s: string) { s != "" && !IsSpace(s[0]) && !IsSpace(s[|s| - 1]) }

  lemma TrimOfTight(pad: string, s: string)
    requires forall p :: 0 <= p < |pad| ==> IsSpace(pad[p])
    requires Tight(s)
    ensures Trim(pad + s) == s
  {
    var t := pad + s;
    assert t[|pad|] == s[0] && t[|t| - 1] == s[|s| - 1];
    SkipSpaceAt(t, 0, |pad|);
    assert DropSpace(t, |pad|, |t|) == |t|;
    assert t[|pad|..] == s;
  }

  predicate AllSpace(s: string) { forall k :: 0 <= k < |s| ==> IsSpace(s[k]) }

  predicate Blank(s: string) { Trim(s) == "" }

  lemma SliceAt(s: string, i: nat, t: string, k: nat, n: nat, d: nat)
    requires i + n <= |s| && k + n <= |t| && s[i..i + n] == t[k..k + n] && d < n
    ensures s[i + d] == t[k + d]
  {
    assert s[i..i + n][d] == s[i + d] && t[k..k + n][d] == t[k + d];
  }

  lemma SliceOfSlice(s: string, i: nat, t: string, k: nat, n: nat, d: nat)
    requires i + n <= |s| && k + n <= |t| && s[i..i + n] == t[k..k + n] && d <= n
    ensures s[i + d..i + n] == t[k + d..k + n]
  {
    assert s[i + d..i + n] == s[i..i + n][d..];
    assert t[k + d..k + n] == t[k..k + n][d..];
  }

  lemma StartsInTurn(s: string, i: nat, a: string, b: string)
    requires StartsAt(s, i, a + b)
    ensures StartsAt(s, i, a) && StartsAt(s, i + |a|, b)
  {
    assert s[i..i + |a|] == s[i..i + |a + b|][..|a|] == a;
    assert s[i + |a|..i + |a| + |b|] == s[i..i + |a + b|][|a|..] == b;
  }

  lemma CharIn(s: string, i: nat, a: string, k: nat)
    requires StartsAt(s, i, a) && k < |a|
    ensures s[i + k] == a[k]
  {
    assert s[i..i + |a|][k] == s[i + k];
  }

  // ---------- split and join ----------

  function Split(s: string, sep: char): (parts: seq<string>)
    ensures |parts| >= 1
    ensures forall p :: p in parts ==> sep !in p
  {
    if s == "" then [""]
    else
      var rest := Split(s[1..], sep);
      if s[0] == sep then [""] + rest else [[s[0]] + rest[0]] + rest[1..]
  }

  function Join(parts: seq<string>, sep: char): string {
    if parts == [] then "" else if |parts| == 1 then parts[0] else parts[0] + [sep] + Join(parts[1..], sep)
  }

  lemma JoinCons(p: string, rest: seq<string>, sep: char)
    requires rest != []
    ensures Join([p] + rest, sep) == p + [sep] + Join(rest, sep)
  {
    assert ([p] + rest)[1..] == rest;
  }

  lemma JoinHead(c: char, parts: seq<string>, sep: char)
    requires parts != []
    ensures Join([[c] + parts[0]] + parts[1..], sep) == [c] + Join(parts, sep)
  {
    if |parts| > 1 {
      JoinCons([c] + parts[0], parts[1..], sep);
      JoinCons(parts[0], parts[1..], sep);
      assert parts == [parts[0]] + parts[1..];
      assert ([c] + parts[0]) + [sep] + Join(parts[1..], sep) == [c] + (parts[0] + [sep] + Join(parts[1..], sep));
    }
  }

  lemma {:induction false} JoinOfSplit(s: string, sep: char)
    ensures Join(Split(s, sep), sep) == s
  {
    if s != "" {
      var rest := Split(s[1..], sep);
      JoinOfSplit(s[1..], sep);
      assert s == [s[0]] + s[1..];
      if s[0] == sep {
        JoinCons("", rest, sep);
        assert "" + [sep] + s[1..] == s;
      } else {
        JoinHead(s[0], rest, sep);
      }
    }
  }

  lemma {:induction false} SplitOfPart(p: string, sep: char)
    requires sep !in p
    ensures Split(p, sep) == [p]
  {
    if p != "" {
      SplitOfPart(p[1..], sep);
      assert [p[0]] + p[1..] == p;
    }
  }

  lemma {:induction false} SplitOfCons(p: string, sep: char, rest: string)
    requires sep !in p
    ensures Split(p + [sep] + rest, sep) == [p] + Split(rest, sep)
  {
    var s := p + [sep] + rest;
    if p == "" {
      assert s[1..] == rest;
    } else {
      assert s[1..] == p[1..] + [sep] + rest;
      SplitOfCons(p[1..], sep, rest);
      assert Split(s, sep)[0] == [p[0]] + p[1..] == p;
    }
  }

  lemma {:induction false} SplitOfJoin(parts: seq<string>, sep: char)
    requires parts != [] && forall p :: p in parts ==> sep !in p
    ensures Split(Join(parts, sep), sep) == parts
  {
    if |parts| == 1 {
      SplitOfPart(parts[0], sep);
    } else {
      SplitOfJoin(parts[1..], sep);
      SplitOfCons(parts[0], sep, Join(parts[1..], sep));
      assert parts == [parts[0]] + parts[1..];
    }
  }

  lemma {:induction false} JoinAppend(a: seq<string>, b: seq<string>, sep: char)
    requires a != [] && b != []
    ensures Join(a + b, sep) == Join(a, sep) + [sep] + Join(b, sep)
  {
    if |a| == 1 {
      assert (a + b)[1..] == b;
    } else {
      assert (a + b)[1..] == a[1..] + b;
      JoinAppend(a[1..], b, sep);
    }
  }
}
