/** The UI-spec linter's sections: the screens of a document and the subsections of a screen. */
module UiSpec {
  import opened JsText
  import opened DocumentOrder

  // ---------- screens ----------

  predicate IsH2(n: Node) { n.kind == Heading(2) }

  datatype Screen = Screen(heading: Node, body: seq<Node>)

  /** The next second-level heading from j on, or the end. */
  function SectionEnd(kids: seq<Node>, j: nat): (e: nat)
    requires j <= |kids|
    ensures j <= e <= |kids| && (e < |kids| ==> IsH2(kids[e]))
    ensures forall k :: j <= k < e ==> !IsH2(kids[k])
    decreases |kids| - j
  {
    if j < |kids| && !IsH2(kids[j]) then SectionEnd(kids, j + 1) else j
  }

  predicate IsScreen(titled: Node -> bool, n: Node) { IsH2(n) && titled(n) }

  /** The screens headed by one of the first n nodes. */
  function Screens(titled: Node -> bool, kids: seq<Node>, n: nat): seq<Screen>
    requires n <= |kids|
  {
    if n == 0 then []
    else
      var before := Screens(titled, kids, n - 1);
      if IsScreen(titled, kids[n - 1]) then before + [Screen(kids[n - 1], kids[n..SectionEnd(kids, n)])] else before
  }

  /** `titled` is the test of the heading's text. */
  method CollectScreenSections(kids: seq<Node>, titled: Node -> bool) returns (out: seq<Screen>)
    ensures out == Screens(titled, kids, |kids|)
  {
    out := [];
    for i := 0 to |kids|
      invariant out == Screens(titled, kids, i)
    {
      if IsScreen(titled, kids[i]) {
        var j, body := i + 1, [];
        while j < |kids| && !IsH2(kids[j])
          invariant i + 1 <= j <= |kids| && body == kids[i + 1..j]
          invariant SectionEnd(kids, j) == SectionEnd(kids, i + 1)
        {
          body := body + [kids[j]];
          j := j + 1;
        }
        out := out + [Screen(kids[i], body)];
      }
    }
  }

  /** A screen's body ends before the next screen's heading: no node belongs to two screens. */
  lemma ScreensAreDisjoint(kids: seq<Node>, titled: Node -> bool, i: nat, k: nat)
    requires i < k < |kids| && IsScreen(titled, kids[i]) && IsScreen(titled, kids[k])
    ensures SectionEnd(kids, i + 1) <= k
  {
  }

  /** The nodes behind i up to the next second-level heading, or to the end. */
  ghost predicate SectionOf(kids: seq<Node>, i: nat, e: nat) {
    && i < e <= |kids| && (forall k :: i < k < e ==> kids[k].kind != Heading(2))
    && (e < |kids| ==> kids[e].kind == Heading(2))
  }

  /** There is one screen for every second-level heading that passes the title test. */
  lemma {:induction false} ScreensAre(titled: Node -> bool, kids: seq<Node>, n: nat, s: Screen)
    requires n <= |kids|
    ensures s in Screens(titled, kids, n) <==>
      exists i: nat, e: nat :: i < n && kids[i].kind == Heading(2) && titled(kids[i])
                               && SectionOf(kids, i, e) && s == Screen(kids[i], kids[i + 1..e])
  {
    if n > 0 {
      ScreensAre(titled, kids, n - 1, s);
      var e := SectionEnd(kids, n);
      assert SectionOf(kids, n - 1, e);
      if i: nat, d: nat :| i < n && kids[i].kind == Heading(2) && titled(kids[i])
                           && SectionOf(kids, i, d) && s == Screen(kids[i], kids[i + 1..d]) {
        if i == n - 1 { assert d == e; }
      }
    }
  }

  // ---------- subsections ----------

  type Labels = seq<Option<string>>

  /** The marker label of every node of a body. */
  function LabelsOf(labelOf: Node -> Option<string>, body: seq<Node>): (labels: Labels)
    ensures |labels| == |body|
  {
    seq(|body|, k requires 0 <= k < |body| => labelOf(body[k]))
  }

  /** The first, and the last, of the first n nodes that is marked `name`. */
  function FirstMark(labels: Labels, name: string, n: nat): (k: Option<nat>)
    requires n <= |labels|
    ensures k.Some? ==> k.value < n
  {
    if n == 0 then None
    else if FirstMark(labels, name, n - 1).Some? then FirstMark(labels, name, n - 1)
    else if labels[n - 1] == Some(name) then Some(n - 1)
    else None
  }

  function LastMark(labels: Labels, name: string, n: nat): (k: Option<nat>)
    requires n <= |labels|
    ensures k.Some? ==> k.value < n
  {
    if n == 0 then None else if labels[n - 1] == Some(name) then Some(n - 1) else LastMark(labels, name, n - 1)
  }

  /** The next marker from j on, or n. */
  function SliceEnd(labels: Labels, j: nat, n: nat): (e: nat)
    requires j <= n <= |labels|
    ensures j <= e <= n && (e < n ==> labels[e].Some?)
    ensures forall k :: j <= k < e ==> labels[k].None?
    decreases n - j
  {
    if j < n && labels[j].None? then SliceEnd(labels, j + 1, n) else j
  }

  /** The lines of the first marker of each label. */
  predicate FoundUpTo(labels: Labels, body: seq<Node>, n: nat, found: map<string, nat>)
    requires n <= |labels| == |body|
  {
    && (forall name :: name in found ==> FirstMark(labels, name, n).Some?)
    && (forall k :: 0 <= k < n && labels[k].Some? ==> labels[k].value in found)
    && (forall name :: name in found ==>
          FirstMark(labels, name, n).Some? && found[name] == body[FirstMark(labels, name, n).value].line)
  }

  /** For each label, the nodes from its last marker to the next marker of any label. */
  function SliceOf(labels: Labels, body: seq<Node>, name: string, n: nat): Option<seq<Node>>
    requires n <= |labels| == |body|
  {
    match LastMark(labels, name, n)
    case None => None
    case Some(k) => Some(body[k..SliceEnd(labels, k + 1, n)])
  }

  predicate BodiesUpTo(labels: Labels, body: seq<Node>, n: nat, bodies: map<string, seq<Node>>)
    requires n <= |labels| == |body|
  {
    && (forall k :: 0 <= k < n && labels[k].Some? ==> labels[k].value in bodies)
    && (forall name :: name in bodies ==> SliceOf(labels, body, name, n) == Some(bodies[name]))
  }

  /** `labelOf` is the test for a subsection marker. */
  method CollectSubsections(body: seq<Node>, labelOf: Node -> Option<string>)
      returns (found: map<string, nat>, bodies: map<string, seq<Node>>)
    ensures FoundUpTo(LabelsOf(labelOf, body), body, |body|, found)
    ensures BodiesUpTo(LabelsOf(labelOf, body), body, |body|, bodies)
  {
    ghost var labels := LabelsOf(labelOf, body);
    found, bodies := map[], map[];
    var currentLabel: Option<string> := None;
    var currentBody: seq<Node> := [];
    ghost var start := 0;
    for i := 0 to |body|
      invariant FoundUpTo(labels, body, i, found)
      invariant Collecting(labels, body, i, bodies, currentLabel, currentBody, start)
    {
      FoundStep(labels, body, i, found);
      CollectStep(labels, body, i, bodies, currentLabel, currentBody, start);
      match labelOf(body[i])
      case Some(name) =>
        bodies := Flushed(bodies, currentLabel, currentBody);
        currentLabel, currentBody := Some(name), [body[i]];
        start := i;
        if name !in found { found := found[name := body[i].line]; }
      case None =>
        if currentLabel.Some? { currentBody := currentBody + [body[i]]; }
    }
    FlushCloses(labels, body, |body|, bodies, currentLabel, currentBody, start);
    bodies := Flushed(bodies, currentLabel, currentBody);
  }

  /** The local function `flush`. */
  function Flushed(bodies: map<string, seq<Node>>, currentLabel: Option<string>, currentBody: seq<Node>):
    map<string, seq<Node>>
  {
    match currentLabel case None => bodies case Some(name) => bodies[name := currentBody]
  }

  /** The slice being collected: it began at the last marker and reaches up to i. */
  predicate OpenSlice(labels: Labels, body: seq<Node>, start: nat, i: nat, name: string, slice: seq<Node>)
    requires |labels| == |body|
  {
    && start < i <= |body| && labels[start] == Some(name) && slice == body[start..i]
    && forall k :: start < k < i ==> labels[k].None?
  }

  predicate Collecting(labels: Labels, body: seq<Node>, i: nat, bodies: map<string, seq<Node>>,
                       currentLabel: Option<string>, currentBody: seq<Node>, start: nat)
    requires i <= |labels| == |body|
  {
    match currentLabel
    case None => bodies == map[] && forall k :: 0 <= k < i ==> labels[k].None?
    case Some(name) =>
      start < i && BodiesUpTo(labels, body, start, bodies) && OpenSlice(labels, body, start, i, name, currentBody)
  }

  lemma FlushCloses(labels: Labels, body: seq<Node>, i: nat, bodies: map<string, seq<Node>>,
                    currentLabel: Option<string>, currentBody: seq<Node>, start: nat)
    requires i <= |labels| == |body| && Collecting(labels, body, i, bodies, currentLabel, currentBody, start)
    ensures BodiesUpTo(labels, body, i, Flushed(bodies, currentLabel, currentBody))
  {
    if currentLabel.Some? { FlushSlice(labels, body, start, i, bodies, currentLabel.value, currentBody); }
  }

  lemma CollectStep(labels: Labels, body: seq<Node>, i: nat, bodies: map<string, seq<Node>>,
                    currentLabel: Option<string>, currentBody: seq<Node>, start: nat)
    requires i < |labels| == |body| && Collecting(labels, body, i, bodies, currentLabel, currentBody, start)
    ensures labels[i].Some? ==>
              Collecting(labels, body, i + 1, Flushed(bodies, currentLabel, currentBody), labels[i], [body[i]], i)
    ensures labels[i].None? ==>
              var grown := if currentLabel.Some? then currentBody + [body[i]] else currentBody;
              Collecting(labels, body, i + 1, bodies, currentLabel, grown, start)
  {
    if labels[i].Some? {
      FlushCloses(labels, body, i, bodies, currentLabel, currentBody, start);
      assert body[i..i + 1] == [body[i]];
    } else if currentLabel.Some? {
      assert body[start..i + 1] == body[start..i] + [body[i]];
    }
  }

  lemma FoundStep(labels: Labels, body: seq<Node>, i: nat, found: map<string, nat>)
    requires i < |labels| == |body| && FoundUpTo(labels, body, i, found)
    ensures labels[i].None? ==> FoundUpTo(labels, body, i + 1, found)
    ensures labels[i].Some? ==>
              var name := labels[i].value;
              FoundUpTo(labels, body, i + 1, if name in found then found else found[name := body[i].line])
  {
    if labels[i].Some? && labels[i].value !in found { UnmarkedIfAbsent(labels, labels[i].value, i, found.Keys); }
  }

  /** The line kept for a label is that of the first node marked with it. */
  lemma {:induction false} FirstMarkIsFirst(labels: Labels, name: string, n: nat)
    requires n <= |labels|
    ensures match FirstMark(labels, name, n)
            case Some(k) => labels[k] == Some(name) && forall j :: 0 <= j < k ==> labels[j] != Some(name)
            case None => forall j :: 0 <= j < n ==> labels[j] != Some(name)
  {
    if n > 0 { FirstMarkIsFirst(labels, name, n - 1); }
  }

  lemma {:induction false} UnmarkedIfAbsent(labels: Labels, name: string, n: nat, known: set<string>)
    requires n <= |labels| && name !in known
    requires forall k :: 0 <= k < n && labels[k].Some? ==> labels[k].value in known
    ensures FirstMark(labels, name, n) == None
  {
    if n > 0 { UnmarkedIfAbsent(labels, name, n - 1, known); }
  }

  lemma {:induction false} SliceEndStable(labels: Labels, j: nat, n: nat, m: nat)
    requires j <= n <= m <= |labels| && (n < m ==> labels[n].Some?)
    ensures SliceEnd(labels, j, n) == SliceEnd(labels, j, m)
    decreases n - j
  {
    if j < n && labels[j].None? { SliceEndStable(labels, j + 1, n, m); }
  }

  lemma {:induction false} LastMarkSkips(labels: Labels, name: string, n: nat, m: nat)
    requires n <= m <= |labels| && forall k :: n <= k < m ==> labels[k] != Some(name)
    ensures LastMark(labels, name, n) == LastMark(labels, name, m)
    decreases m
  {
    if n < m { LastMarkSkips(labels, name, n, m - 1); }
  }

  lemma SliceKept(labels: Labels, body: seq<Node>, start: nat, i: nat, other: string)
    requires start < i <= |labels| == |body| && labels[start].Some? && labels[start] != Some(other)
    requires forall k :: start < k < i ==> labels[k].None?
    ensures SliceOf(labels, body, other, i) == SliceOf(labels, body, other, start)
  {
    LastMarkSkips(labels, other, start, i);
    var k := LastMark(labels, other, start);
    if k.Some? { SliceEndStable(labels, k.value + 1, start, i); }
  }

  lemma SliceClosed(labels: Labels, body: seq<Node>, start: nat, i: nat, name: string)
    requires start < i <= |labels| == |body| && labels[start] == Some(name)
    requires forall k :: start < k < i ==> labels[k].None?
    ensures SliceOf(labels, body, name, i) == Some(body[start..i])
  {
    LastMarkSkips(labels, name, start + 1, i);
    assert SliceEnd(labels, start + 1, i) == i;
  }

  lemma EveryLabelHasBody(labels: Labels, start: nat, i: nat, name: string, known: set<string>)
    requires start < i <= |labels| && labels[start] == Some(name)
    requires forall k :: 0 <= k < start && labels[k].Some? ==> labels[k].value in known
    requires forall k :: start < k < i ==> labels[k].None?
    ensures forall k :: 0 <= k < i && labels[k].Some? ==> labels[k].value in known + {name}
  {
  }

  /** Closing the open slice at i. */
  lemma FlushSlice(labels: Labels, body: seq<Node>, start: nat, i: nat, bodies: map<string, seq<Node>>,
                   name: string, slice: seq<Node>)
    requires |labels| == |body| && OpenSlice(labels, body, start, i, name, slice)
    requires BodiesUpTo(labels, body, start, bodies)
    ensures BodiesUpTo(labels, body, i, bodies[name := slice])
  {
    var after := bodies[name := slice];
    EveryLabelHasBody(labels, start, i, name, bodies.Keys);
    assert after.Keys == bodies.Keys + {name};
    forall other | other in after ensures SliceOf(labels, body, other, i) == Some(after[other]) {
      if other == name { SliceClosed(labels, body, start, i, name); } else { SliceKept(labels, body, start, i, other); }
    }
  }

  // ---------- which nodes the bodies hold ----------

  /** Node p lies in the slice kept for some label. */
  ghost predicate Covered(labels: Labels, p: nat)
    requires p < |labels|
  {
    exists name :: InSlice(labels, name, p)
  }

  predicate InSlice(labels: Labels, name: string, p: nat)
    requires p < |labels|
  {
    var k := LastMark(labels, name, |labels|);
    k.Some? && k.value <= p < SliceEnd(labels, k.value + 1, |labels|)
  }

  lemma {:induction false} LastMarkIsMark(labels: Labels, name: string, n: nat, m: nat)
    requires n <= |labels|
    ensures LastMark(labels, name, n).Some? ==> labels[LastMark(labels, name, n).value] == Some(name)
    ensures m < n && labels[m] == Some(name) ==> LastMark(labels, name, n).Some? && m <= LastMark(labels, name, n).value
  {
    if n > 0 { LastMarkIsMark(labels, name, n - 1, m); }
  }

  /** The body kept for a label runs from its last marker, included, to the next marker of any
      label, or to the end. */
  lemma SliceRuns(labels: Labels, body: seq<Node>, name: string, k: nat, e: nat)
    requires |body| == |labels| && k < e <= |labels| && labels[k] == Some(name)
    requires forall m :: k < m < |labels| ==> labels[m] != Some(name)
    requires (forall m :: k < m < e ==> labels[m].None?) && (e < |labels| ==> labels[e].Some?)
    ensures SliceOf(labels, body, name, |labels|) == Some(body[k..e])
  {
    LastMarkIsMark(labels, name, |labels|, k);
    var last, d := LastMark(labels, name, |labels|).value, SliceEnd(labels, k + 1, |labels|);
    assert labels[last] == Some(name) && d == e;
  }

  /** No two kept slices overlap. */
  lemma SlicesAreDisjoint(labels: Labels, a: string, b: string, p: nat)
    requires p < |labels| && InSlice(labels, a, p) && InSlice(labels, b, p)
    ensures a == b
  {
    LastMarkIsMark(labels, a, |labels|, 0);
    LastMarkIsMark(labels, b, |labels|, 0);
    var j, k := LastMark(labels, a, |labels|).value, LastMark(labels, b, |labels|).value;
    assert !(j < k) && !(k < j);
  }

  /** The marker whose slice p belongs to. */
  function Owner(labels: Labels, p: nat): (k: Option<nat>)
    requires p < |labels|
    ensures k.Some? ==> k.value <= p && labels[k.value].Some? && forall m :: k.value < m <= p ==> labels[m].None?
    ensures k.None? ==> forall m :: 0 <= m <= p ==> labels[m].None?
  {
    if labels[p].Some? then Some(p) else if p == 0 then None else Owner(labels, p - 1)
  }

  /** A node is lost exactly when its own marker's label comes again further down. */
  lemma CoveredIffOwnerIsLast(labels: Labels, p: nat)
    requires p < |labels|
    ensures Covered(labels, p) <==>
            Owner(labels, p).Some? &&
            var k := Owner(labels, p).value;
            forall m :: k < m < |labels| ==> labels[m] != labels[k]
  {
    var owner := Owner(labels, p);
    if owner.Some? {
      var k := owner.value;
      var name := labels[k].value;
      LastMarkIsMark(labels, name, |labels|, k);
      if forall m :: k < m < |labels| ==> labels[m] != labels[k] {
        assert LastMark(labels, name, |labels|) == Some(k);
        assert InSlice(labels, name, p);
      }
    }
    if Covered(labels, p) {
      var name :| InSlice(labels, name, p);
      LastMarkIsMark(labels, name, |labels|, 0);
      var j := LastMark(labels, name, |labels|).value;
      assert owner.Some? && owner.value == j;
      forall m | j < m < |labels| ensures labels[m] != labels[j] { LastMarkIsMark(labels, name, |labels|, m); }
    }
  }

  predicate LabelsRepeat(labels: Labels) {
    exists j, k :: 0 <= j < k < |labels| && labels[j].Some? && labels[j] == labels[k]
  }

  /** The bodies hold everything from the first marker on exactly when no label repeats. */
  lemma NothingLostIffNoLabelRepeats(labels: Labels)
    ensures (forall p: nat :: p < |labels| && Owner(labels, p).Some? ==> Covered(labels, p)) <==> !LabelsRepeat(labels)
  {
    if LabelsRepeat(labels) {
      var j, k :| 0 <= j < k < |labels| && labels[j].Some? && labels[j] == labels[k];
      CoveredIffOwnerIsLast(labels, j);
      assert Owner(labels, j) == Some(j);
    } else {
      forall p: nat | p < |labels| && Owner(labels, p).Some? ensures Covered(labels, p) {
        CoveredIffOwnerIsLast(labels, p);
      }
    }
  }

  /** Two markers of one label: the first one's node is in no body. */
  lemma RepeatedLabelLoses(labels: Labels, body: seq<Node>, name: string, bodies: map<string, seq<Node>>)
    requires |body| == 2 && labels == [Some(name), Some(name)]
    requires BodiesUpTo(labels, body, 2, bodies)
    ensures bodies == map[name := body[1..]] && !Covered(labels, 0)
  {
    CoveredIffOwnerIsLast(labels, 0);
    assert Owner(labels, 0) == Some(0) && labels[1] == labels[0];
    assert labels[0].value in bodies;
    assert LastMark(labels, name, 2) == Some(1) && SliceEnd(labels, 2, 2) == 2;
    forall other | other in bodies ensures other == name {
      assert SliceOf(labels, body, other, 2).Some?;
      LastMarkIsMark(labels, other, 2, 0);
    }
    assert body[1..2] == body[1..] && SliceOf(labels, body, name, 2) == Some(body[1..2]);
    assert bodies.Keys == {name} && bodies[name] == body[1..];
  }
}
