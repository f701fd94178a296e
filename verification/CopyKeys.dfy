/** The UI-spec linter's copy-key rule: keys found in the copy-key subsections of all files must be
    unique. */
module CopyKeys {
  import opened JsText
  import opened DocumentOrder
  import opened UiSpec

  const COPY_KEYS := "Copy keys"

  predicate IsInlineCode(n: Node) { n.kind == InlineCode }

  /** A token of a copy-key subsection, and where it stands. */
  datatype Item = Item(file: string, line: nat, token: string)

  datatype Diagnostic =
    | DuplicateKey(file: string, line: nat, token: string, priorFile: string, priorLine: nat)
    | KeySchema(file: string, line: nat, token: string)

  /** The tests of a token: does it meet the key schema, does it look like a key at all. */
  datatype Tests = Tests(isKey: string -> bool, keyShaped: string -> bool)

  // ---------- what is reported ----------

  /** The first item that uses the token. */
  function FirstUse(items: seq<Item>, token: string): (k: Option<nat>)
    ensures k.Some? ==> k.value < |items| && items[k.value].token == token
    ensures forall j :: 0 <= j < (if k.Some? then k.value else |items|) ==> items[j].token != token
  {
    if items == [] then None
    else
      var before := items[..|items| - 1];
      if FirstUse(before, token).Some? then FirstUse(before, token)
      else if items[|items| - 1].token == token then Some(|items| - 1)
      else None
  }

  /** What an item draws after the items before it. */
  function DiagnosticFor(tests: Tests, before: seq<Item>, item: Item): seq<Diagnostic> {
    if tests.isKey(item.token) then
      match FirstUse(before, item.token)
      case Some(j) => [DuplicateKey(item.file, item.line, item.token, before[j].file, before[j].line)]
      case None => []
    else if tests.keyShaped(item.token) then [KeySchema(item.file, item.line, item.token)]
    else []
  }

  function Diagnostics(tests: Tests, items: seq<Item>): seq<Diagnostic> {
    if items == [] then []
    else
      var before := items[..|items| - 1];
      Diagnostics(tests, before) + DiagnosticFor(tests, before, items[|items| - 1])
  }

  predicate HasDuplicate(diags: seq<Diagnostic>) { exists i :: 0 <= i < |diags| && diags[i].DuplicateKey? }

  predicate KeysUnique(tests: Tests, items: seq<Item>) {
    forall j, k :: 0 <= j < k < |items| && tests.isKey(items[k].token) ==> items[j].token != items[k].token
  }

  lemma HasDuplicateAppend(a: seq<Diagnostic>, b: seq<Diagnostic>)
    ensures HasDuplicate(a + b) <==> HasDuplicate(a) || HasDuplicate(b)
  {
    if HasDuplicate(a) {
      var i :| 0 <= i < |a| && a[i].DuplicateKey?;
      assert (a + b)[i].DuplicateKey?;
    }
    if HasDuplicate(b) {
      var i :| 0 <= i < |b| && b[i].DuplicateKey?;
      assert (a + b)[|a| + i].DuplicateKey?;
    }
  }

  lemma LastIsDuplicate(tests: Tests, before: seq<Item>, item: Item)
    ensures HasDuplicate(DiagnosticFor(tests, before, item)) <==>
            tests.isKey(item.token) && exists j :: 0 <= j < |before| && before[j].token == item.token
  {
    if tests.isKey(item.token) && FirstUse(before, item.token).Some? {
      assert DiagnosticFor(tests, before, item)[0].DuplicateKey?;
    }
  }

  lemma KeysUniqueSnoc(tests: Tests, before: seq<Item>, item: Item)
    ensures KeysUnique(tests, before + [item]) <==>
            KeysUnique(tests, before)
            && (tests.isKey(item.token) ==> forall j :: 0 <= j < |before| ==> before[j].token != item.token)
  {
    var items := before + [item];
    if KeysUnique(tests, items) {
      forall j, k | 0 <= j < k < |before| && tests.isKey(before[k].token) ensures before[j].token != before[k].token {
        assert items[j].token != items[k].token;
      }
      forall j | 0 <= j < |before| && tests.isKey(item.token) ensures before[j].token != item.token {
        assert items[j].token != items[|before|].token;
      }
    }
  }

  /** Nothing is reported as a duplicate exactly when no key is used twice, across all files. */
  lemma {:induction false} NoDuplicateIffUnique(tests: Tests, items: seq<Item>)
    ensures !HasDuplicate(Diagnostics(tests, items)) <==> KeysUnique(tests, items)
    decreases |items|
  {
    if items != [] {
      var before, item := items[..|items| - 1], items[|items| - 1];
      NoDuplicateIffUnique(tests, before);
      HasDuplicateAppend(Diagnostics(tests, before), DiagnosticFor(tests, before, item));
      LastIsDuplicate(tests, before, item);
      KeysUniqueSnoc(tests, before, item);
      assert items == before + [item];
    }
  }

  /** Item k repeats the token of item j, the first to use it. */
  predicate Repeats(items: seq<Item>, j: nat, k: nat) {
    j < k < |items| && items[j].token == items[k].token && forall i :: 0 <= i < j ==> items[i].token != items[k].token
  }

  /** What is said of item k: that a key was used before, or that a token only looks like a key. */
  ghost predicate SaidOf(tests: Tests, items: seq<Item>, k: nat, d: Diagnostic) {
    && k < |items|
    && var item := items[k];
       || (&& tests.isKey(item.token)
           && exists j: nat :: Repeats(items, j, k)
                && d == DuplicateKey(item.file, item.line, item.token, items[j].file, items[j].line))
       || (!tests.isKey(item.token) && tests.keyShaped(item.token) && d == KeySchema(item.file, item.line, item.token))
  }

  lemma SaidOfLast(tests: Tests, items: seq<Item>, d: Diagnostic)
    requires items != []
    ensures var n := |items| - 1; d in DiagnosticFor(tests, items[..n], items[n]) <==> SaidOf(tests, items, n, d)
  {
    var n := |items| - 1;
    var first := FirstUse(items[..n], items[n].token);
    if first.Some? { assert Repeats(items, first.value, n); }
    forall j: nat | Repeats(items, j, n) ensures first == Some(j) { assert items[..n][j] == items[j]; }
  }

  lemma SaidOfPrefix(tests: Tests, items: seq<Item>, n: nat, k: nat, d: Diagnostic)
    requires k < n <= |items|
    ensures SaidOf(tests, items[..n], k, d) <==> SaidOf(tests, items, k, d)
  {
    forall j: nat ensures Repeats(items[..n], j, k) <==> Repeats(items, j, k) { }
  }

  /** The diagnostics are exactly those, each key repeated with the place of its first use. */
  lemma {:induction false} DiagnosticsAre(tests: Tests, items: seq<Item>, d: Diagnostic)
    ensures d in Diagnostics(tests, items) <==> exists k: nat :: SaidOf(tests, items, k, d)
    decreases |items|
  {
    if items != [] {
      var n := |items| - 1;
      DiagnosticsAre(tests, items[..n], d);
      SaidOfLast(tests, items, d);
      forall k: nat | k < n ensures SaidOf(tests, items[..n], k, d) <==> SaidOf(tests, items, k, d) {
        SaidOfPrefix(tests, items, n, k, d);
      }
    }
  }

  // ---------- the map that finds the first use ----------

  function KeysAfter(tests: Tests, items: seq<Item>): map<string, (string, nat)> {
    if items == [] then map[]
    else
      var keys, item := KeysAfter(tests, items[..|items| - 1]), items[|items| - 1];
      if tests.isKey(item.token) && item.token !in keys then keys[item.token := (item.file, item.line)] else keys
  }

  /** The map knows every key, with the place of its first use in any file. */
  lemma {:induction false} KeysAreFirstUses(tests: Tests, items: seq<Item>, token: string)
    ensures token in KeysAfter(tests, items) <==> tests.isKey(token) && FirstUse(items, token).Some?
    ensures token in KeysAfter(tests, items) ==>
              var first := items[FirstUse(items, token).value];
              KeysAfter(tests, items)[token] == (first.file, first.line)
    decreases |items|
  {
    if items != [] { KeysAreFirstUses(tests, items[..|items| - 1], token); }
  }

  // ---------- the rule over the files ----------

  function ItemsOf(file: string, nodes: seq<Node>): (items: seq<Item>)
    ensures |items| == |nodes|
  {
    seq(|nodes|, k requires 0 <= k < |nodes| => Item(file, nodes[k].line, Trim(nodes[k].value)))
  }

  function ScreenItems(labelOf: Node -> Option<string>, file: string, body: seq<Node>): seq<Item> {
    match SliceOf(LabelsOf(labelOf, body), body, COPY_KEYS, |body|)
    case None => []
    case Some(slice) => ItemsOf(file, Filter(IsInlineCode, Preorder(slice)))
  }

  /** What the first n screens hold, in the order they are walked. */
  function Gathered(of: seq<Node> -> seq<Item>, screens: seq<Screen>, n: nat): seq<Item>
    requires n <= |screens|
  {
    if n == 0 then [] else Gathered(of, screens, n - 1) + of(screens[n - 1].body)
  }

  function ItemsOfBody(labelOf: Node -> Option<string>, file: string): seq<Node> -> seq<Item> {
    body => ScreenItems(labelOf, file, body)
  }

  /** The tokens of the first n screens of a file. */
  function FileItems(labelOf: Node -> Option<string>, file: string, screens: seq<Screen>, n: nat): seq<Item>
    requires n <= |screens|
  {
    Gathered(ItemsOfBody(labelOf, file), screens, n)
  }

  /** An inline code of the copy-key subsection of a screen, at any depth. */
  ghost predicate CodeOf(labelOf: Node -> Option<string>, body: seq<Node>, node: Node) {
    && SliceOf(LabelsOf(labelOf, body), body, "Copy keys", |body|).Some?
    && node in Preorder(SliceOf(LabelsOf(labelOf, body), body, "Copy keys", |body|).value)
    && node.kind == InlineCode
  }

  lemma {:induction false} FilterIff(keep: Node -> bool, nodes: seq<Node>, n: Node)
    ensures n in Filter(keep, nodes) <==> n in nodes && keep(n)
  {
    if nodes != [] {
      FilterIff(keep, nodes[1..], n);
      assert nodes == [nodes[0]] + nodes[1..];
    }
  }

  ghost predicate DrawnFrom(labelOf: Node -> Option<string>, file: string, body: seq<Node>, item: Item) {
    exists node :: CodeOf(labelOf, body, node) && item == Item(file, node.line, Trim(node.value))
  }

  /** The tokens of a screen are the trimmed inline codes of its copy-key subsection. */
  lemma ScreenItemsAre(labelOf: Node -> Option<string>, file: string, body: seq<Node>, item: Item)
    ensures item in ScreenItems(labelOf, file, body) <==> DrawnFrom(labelOf, file, body, item)
  {
    var slice := SliceOf(LabelsOf(labelOf, body), body, "Copy keys", |body|);
    if slice.Some? {
      var nodes := Filter(IsInlineCode, Preorder(slice.value));
      forall node ensures node in nodes <==> CodeOf(labelOf, body, node) {
        FilterIff(IsInlineCode, Preorder(slice.value), node);
      }
      if node :| CodeOf(labelOf, body, node) && item == Item(file, node.line, Trim(node.value)) {
        var k :| 0 <= k < |nodes| && nodes[k] == node;
        assert ItemsOf(file, nodes)[k] == item;
      }
      if item in ScreenItems(labelOf, file, body) {
        var k :| 0 <= k < |nodes| && ItemsOf(file, nodes)[k] == item;
        assert CodeOf(labelOf, body, nodes[k]);
      }
    }
  }

  lemma InEither(a: seq<Item>, b: seq<Item>, item: Item)
    ensures item in a + b <==> item in a || item in b
  {
  }

  /** A file contributes the tokens of each of its screens. */
  lemma {:induction false} GatheredAre(of: seq<Node> -> seq<Item>, screens: seq<Screen>, n: nat, item: Item)
    requires n <= |screens|
    ensures item in Gathered(of, screens, n) <==> exists s: nat :: s < n && item in of(screens[s].body)
  {
    if n > 0 {
      GatheredAre(of, screens, n - 1, item);
      InEither(Gathered(of, screens, n - 1), of(screens[n - 1].body), item);
    }
  }

  lemma FileItemsStep(base: seq<Item>, labelOf: Node -> Option<string>, file: string, screens: seq<Screen>, n: nat)
    requires n < |screens|
    ensures base + FileItems(labelOf, file, screens, n + 1)
         == base + FileItems(labelOf, file, screens, n) + ScreenItems(labelOf, file, screens[n].body)
  {
  }

  method CopyItems(file: string, body: seq<Node>, labelOf: Node -> Option<string>) returns (items: seq<Item>)
    ensures items == ScreenItems(labelOf, file, body)
  {
    var found, bodies := CollectSubsections(body, labelOf);
    InBodiesIffSlice(LabelsOf(labelOf, body), body, COPY_KEYS, bodies);
    if COPY_KEYS in bodies {
      var nodes := Visit(bodies[COPY_KEYS], IsInlineCode);
      items := ItemsOf(file, nodes);
    } else {
      items := [];
    }
  }

  lemma InBodiesIffSlice(labels: Labels, body: seq<Node>, name: string, bodies: map<string, seq<Node>>)
    requires |labels| == |body| && BodiesUpTo(labels, body, |body|, bodies)
    ensures SliceOf(labels, body, name, |body|) == if name in bodies then Some(bodies[name]) else None
  {
    LastMarkIsMark(labels, name, |labels|, 0);
  }

  lemma OneMore(base: seq<Item>, items: seq<Item>, i: nat)
    requires i < |items|
    ensures base + items[..i] + [items[i]] == base + items[..i + 1]
  {
  }

  lemma AllTaken(items: seq<Item>)
    ensures items[..|items|] == items
  {
  }

  /** The key map shared by all files, and the diagnostics so far. */
  class KeyIndex {
    const tests: Tests
    var keys: map<string, (string, nat)>
    var diags: seq<Diagnostic>
    ghost var walked: seq<Item>

    ghost predicate Valid()
      reads this
    {
      keys == KeysAfter(tests, walked) && diags == Diagnostics(tests, walked)
    }

    constructor (tests: Tests)
      ensures Valid() && walked == [] && this.tests == tests
    {
      this.tests := tests;
      keys, diags, walked := map[], [], [];
    }

    /** The callback of `ruleCopyKeys`. */
    method Note(item: Item)
      requires Valid()
      modifies this
      ensures Valid() && walked == old(walked) + [item]
    {
      KeysAreFirstUses(tests, walked, item.token);
      if tests.isKey(item.token) {
        if item.token in keys {
          var prior := keys[item.token];
          diags := diags + [DuplicateKey(item.file, item.line, item.token, prior.0, prior.1)];
        } else {
          keys := keys[item.token := (item.file, item.line)];
        }
      } else if tests.keyShaped(item.token) {
        diags := diags + [KeySchema(item.file, item.line, item.token)];
      }
      ghost var before := walked;
      walked := walked + [item];
      assert walked[..|walked| - 1] == before;
    }

    method NoteAll(items: seq<Item>)
      requires Valid()
      modifies this
      ensures Valid() && walked == old(walked) + items
    {
      for i := 0 to |items|
        invariant Valid() && walked == old(walked) + items[..i]
      {
        OneMore(old(walked), items, i);
        Note(items[i]);
      }
      AllTaken(items);
    }

    method RuleCopyKeys(file: string, screens: seq<Screen>, labelOf: Node -> Option<string>)
      requires Valid()
      modifies this
      ensures Valid() && walked == old(walked) + FileItems(labelOf, file, screens, |screens|)
    {
      assert walked + [] == walked;
      for s := 0 to |screens|
        invariant Valid() && walked == old(walked) + FileItems(labelOf, file, screens, s)
      {
        var items := CopyItems(file, screens[s].body, labelOf);
        FileItemsStep(old(walked), labelOf, file, screens, s);
        NoteAll(items);
      }
    }
  }
}
