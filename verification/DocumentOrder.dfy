/** The UI-spec linter's work-list traversal of a document tree, and document order. */
module DocumentOrder {
  import opened JsText

  datatype Kind = Heading(depth: nat) | InlineCode | Code | Other
  datatype Node = Node(kind: Kind, line: nat, value: string, children: seq<Node>)

  // ---------- document order ----------

  function Size(nodes: seq<Node>): nat {
    if nodes == [] then 0 else 1 + Size(nodes[0].children) + Size(nodes[1..])
  }

  function Preorder(nodes: seq<Node>): seq<Node> {
    if nodes == [] then [] else [nodes[0]] + Preorder(nodes[0].children) + Preorder(nodes[1..])
  }

  function Filter(keep: Node -> bool, nodes: seq<Node>): seq<Node> {
    if nodes == [] then []
    else if keep(nodes[0]) then [nodes[0]] + Filter(keep, nodes[1..])
    else Filter(keep, nodes[1..])
  }

  lemma {:induction false} SizeAppend(a: seq<Node>, b: seq<Node>)
    ensures Size(a + b) == Size(a) + Size(b)
  {
    if a == [] {
      assert a + b == b;
    } else {
      assert (a + b)[1..] == a[1..] + b;
      SizeAppend(a[1..], b);
    }
  }

  lemma {:induction false} PreorderAppend(a: seq<Node>, b: seq<Node>)
    ensures Preorder(a + b) == Preorder(a) + Preorder(b)
  {
    if a == [] {
      assert a + b == b;
    } else {
      assert (a + b)[1..] == a[1..] + b;
      PreorderAppend(a[1..], b);
    }
  }

  lemma FilterCons(keep: Node -> bool, n: Node, rest: seq<Node>)
    ensures Filter(keep, [n] + rest) == (if keep(n) then [n] else []) + Filter(keep, rest)
  {
    assert ([n] + rest)[1..] == rest;
  }

  lemma PreorderCons(n: Node, rest: seq<Node>)
    ensures Preorder([n] + rest) == [n] + (Preorder(n.children) + Preorder(rest))
    ensures Size([n] + rest) == 1 + Size(n.children) + Size(rest)
  {
    assert ([n] + rest)[1..] == rest;
    assert [n] + (Preorder(n.children) + Preorder(rest)) == [n] + Preorder(n.children) + Preorder(rest);
  }

  /** Replacing the first node of the stack by its children shifts it out of the preorder. */
  lemma VisitStep(wanted: Node -> bool, node: Node, rest: seq<Node>)
    ensures Filter(wanted, Preorder([node] + rest))
         == (if wanted(node) then [node] else []) + Filter(wanted, Preorder(node.children + rest))
    ensures Size(node.children + rest) < Size([node] + rest)
  {
    SizeAppend(node.children, rest);
    PreorderAppend(node.children, rest);
    PreorderCons(node, rest);
    FilterCons(wanted, node, Preorder(node.children + rest));
  }

  /** The loop of `visit`: a stack whose front is replaced by its children. */
  method Visit(nodes: seq<Node>, wanted: Node -> bool) returns (seen: seq<Node>)
    ensures seen == Filter(wanted, Preorder(nodes))
  {
    var stack := nodes;
    seen := [];
    while stack != []
      invariant Filter(wanted, Preorder(nodes)) == seen + Filter(wanted, Preorder(stack))
      decreases Size(stack)
    {
      var node, rest := stack[0], stack[1..];
      assert stack == [node] + rest;
      VisitStep(wanted, node, rest);
      if wanted(node) { seen := seen + [node]; }
      stack := node.children + rest;
    }
  }

  /** A node's place in the tree: the index of its root, then of each child on the way down. */
  predicate ValidPath(nodes: seq<Node>, p: seq<nat>)
    decreases |p|
  {
    p != [] && p[0] < |nodes| && (|p| == 1 || ValidPath(nodes[p[0]].children, p[1..]))
  }

  function NodeAt(nodes: seq<Node>, p: seq<nat>): Node
    requires ValidPath(nodes, p)
    decreases |p|
  {
    if |p| == 1 then nodes[p[0]] else NodeAt(nodes[p[0]].children, p[1..])
  }

  /** p comes before q in the document: p is an ancestor, or branches off to the left. */
  predicate Precedes(p: seq<nat>, q: seq<nat>)
    decreases |p|
  {
    q != [] && (p == [] || p[0] < q[0] || (p[0] == q[0] && Precedes(p[1..], q[1..])))
  }

  function Next(p: seq<nat>): seq<nat>
    requires p != []
  {
    [p[0] + 1] + p[1..]
  }

  /** The place of the k-th node of the preorder. */
  function PathOf(nodes: seq<Node>, k: nat): (p: seq<nat>)
    requires k < Size(nodes)
    ensures p != []
    decreases Size(nodes)
  {
    var inside := Size(nodes[0].children);
    if k == 0 then [0]
    else if k - 1 < inside then [0] + PathOf(nodes[0].children, k - 1)
    else Next(PathOf(nodes[1..], k - 1 - inside))
  }

  lemma NextPath(nodes: seq<Node>, p: seq<nat>)
    requires nodes != [] && ValidPath(nodes[1..], p)
    ensures ValidPath(nodes, Next(p)) && NodeAt(nodes, Next(p)) == NodeAt(nodes[1..], p)
  {
    assert Next(p)[1..] == p[1..];
  }

  lemma {:induction false} PreorderSize(nodes: seq<Node>)
    ensures |Preorder(nodes)| == Size(nodes)
  {
    if nodes != [] {
      PreorderSize(nodes[0].children);
      PreorderSize(nodes[1..]);
    }
  }

  lemma FirstKid(nodes: seq<Node>, p: seq<nat>)
    requires nodes != [] && ValidPath(nodes[0].children, p)
    ensures ValidPath(nodes, [0] + p) && NodeAt(nodes, [0] + p) == NodeAt(nodes[0].children, p)
  {
    assert ([0] + p)[1..] == p;
  }

  /** Where the k-th node of the preorder is: the first root, below it, or behind it. */
  lemma PreorderAt(nodes: seq<Node>, k: nat)
    requires k < Size(nodes)
    ensures |Preorder(nodes)| == Size(nodes) && |Preorder(nodes[0].children)| == Size(nodes[0].children)
    ensures |Preorder(nodes[1..])| == Size(nodes[1..]) && Size(nodes) == 1 + Size(nodes[0].children) + Size(nodes[1..])
    ensures var inside := Size(nodes[0].children);
            Preorder(nodes)[k] == if k == 0 then nodes[0]
                                  else if k - 1 < inside then Preorder(nodes[0].children)[k - 1]
                                  else Preorder(nodes[1..])[k - 1 - inside]
  {
    PreorderSize(nodes);
    PreorderSize(nodes[0].children);
    PreorderSize(nodes[1..]);
  }

  /** The k-th node of the preorder is the one at that place. */
  lemma {:induction false} PathOfIsPlace(nodes: seq<Node>, k: nat)
    requires k < Size(nodes)
    ensures ValidPath(nodes, PathOf(nodes, k)) && |Preorder(nodes)| == Size(nodes)
    ensures NodeAt(nodes, PathOf(nodes, k)) == Preorder(nodes)[k]
    decreases Size(nodes)
  {
    PreorderAt(nodes, k);
    var kids, rest := nodes[0].children, nodes[1..];
    if k == 0 {
    } else if k - 1 < Size(kids) {
      PathOfIsPlace(kids, k - 1);
      FirstKid(nodes, PathOf(kids, k - 1));
    } else {
      PathOfIsPlace(rest, k - 1 - Size(kids));
      NextPath(nodes, PathOf(rest, k - 1 - Size(kids)));
    }
  }

  lemma NextKeepsOrder(p: seq<nat>, q: seq<nat>)
    requires p != [] && q != []
    ensures Precedes(Next(p), Next(q)) == Precedes(p, q)
  {
    assert Next(p)[1..] == p[1..] && Next(q)[1..] == q[1..];
  }

  /** The preorder goes through the places in document order. */
  lemma {:induction false} PreorderIsDocumentOrder(nodes: seq<Node>, j: nat, k: nat)
    requires j < k < Size(nodes)
    ensures Precedes(PathOf(nodes, j), PathOf(nodes, k))
    decreases Size(nodes)
  {
    var kids, rest := nodes[0].children, nodes[1..];
    var inside := Size(kids);
    if j == 0 {
      assert Precedes([], PathOf(nodes, k)[1..]) || PathOf(nodes, k)[0] > 0;
      StartsAtRoot(nodes, k);
    } else if k - 1 < inside {
      PreorderIsDocumentOrder(kids, j - 1, k - 1);
      assert ([0] + PathOf(kids, j - 1))[1..] == PathOf(kids, j - 1);
      assert ([0] + PathOf(kids, k - 1))[1..] == PathOf(kids, k - 1);
    } else if j - 1 < inside {
      assert PathOf(nodes, k)[0] > 0;
    } else {
      PreorderIsDocumentOrder(rest, j - 1 - inside, k - 1 - inside);
      NextKeepsOrder(PathOf(rest, j - 1 - inside), PathOf(rest, k - 1 - inside));
    }
  }

  lemma StartsAtRoot(nodes: seq<Node>, k: nat)
    requires 0 < k < Size(nodes)
    ensures Precedes([0], PathOf(nodes, k))
  {
    var inside := Size(nodes[0].children);
    if k - 1 < inside {
      var p := PathOf(nodes[0].children, k - 1);
      assert ([0] + p)[1..] == p && [0 as nat][1..] == [];
    }
  }

  /** And it leaves no place out. */
  lemma {:induction false} EveryPlaceIsVisited(nodes: seq<Node>, p: seq<nat>) returns (k: nat)
    requires ValidPath(nodes, p)
    ensures k < Size(nodes) && PathOf(nodes, k) == p
    decreases |p|, p[0]
  {
    var kids, rest := nodes[0].children, nodes[1..];
    if p[0] > 0 {
      var q := [p[0] - 1] + p[1..];
      assert q[1..] == p[1..] && Next(q) == p;
      k := EveryPlaceIsVisited(rest, q);
      k := k + 1 + Size(kids);
    } else if |p| == 1 {
      k := 0;
    } else {
      k := EveryPlaceIsVisited(kids, p[1..]);
      k := k + 1;
      assert p == [0] + p[1..];
    }
  }

  lemma {:induction false} FilterFirst(keep: Node -> bool, nodes: seq<Node>) returns (k: nat)
    requires Filter(keep, nodes) != []
    ensures k < |nodes| && keep(nodes[k]) && nodes[k] == Filter(keep, nodes)[0]
    ensures forall j :: 0 <= j < k ==> !keep(nodes[j])
  {
    if keep(nodes[0]) {
      k := 0;
    } else {
      k := FilterFirst(keep, nodes[1..]);
      k := k + 1;
    }
  }

  lemma {:induction false} FilterNone(keep: Node -> bool, nodes: seq<Node>, k: nat)
    requires Filter(keep, nodes) == [] && k < |nodes|
    ensures !keep(nodes[k])
  {
    if k > 0 { FilterNone(keep, nodes[1..], k - 1); }
  }

  /** The first node handed to the callback is the first of its kind in the document. */
  lemma FirstVisitedIsFirstInDocument(nodes: seq<Node>, wanted: Node -> bool) returns (p: seq<nat>)
    requires Filter(wanted, Preorder(nodes)) != []
    ensures ValidPath(nodes, p) && NodeAt(nodes, p) == Filter(wanted, Preorder(nodes))[0] && wanted(NodeAt(nodes, p))
    ensures forall q :: ValidPath(nodes, q) && wanted(NodeAt(nodes, q)) ==> q == p || Precedes(p, q)
  {
    PreorderSize(nodes);
    var k := FilterFirst(wanted, Preorder(nodes));
    p := PathOf(nodes, k);
    PathOfIsPlace(nodes, k);
    forall q | ValidPath(nodes, q) && wanted(NodeAt(nodes, q)) ensures q == p || Precedes(p, q) {
      var m := EveryPlaceIsVisited(nodes, q);
      PathOfIsPlace(nodes, m);
      if k < m { PreorderIsDocumentOrder(nodes, k, m); }
    }
  }

  /** Nothing is handed to the callback exactly when nothing is wanted. */
  lemma NothingVisitedIffNoneWanted(nodes: seq<Node>, wanted: Node -> bool)
    ensures Filter(wanted, Preorder(nodes)) == [] <==>
            forall q :: ValidPath(nodes, q) ==> !wanted(NodeAt(nodes, q))
  {
    PreorderSize(nodes);
    if Filter(wanted, Preorder(nodes)) != [] {
      var p := FirstVisitedIsFirstInDocument(nodes, wanted);
    } else {
      forall q | ValidPath(nodes, q) ensures !wanted(NodeAt(nodes, q)) {
        var m := EveryPlaceIsVisited(nodes, q);
        PathOfIsPlace(nodes, m);
        FilterNone(wanted, Preorder(nodes), m);
      }
    }
  }

  predicate IsCodeBlock(n: Node) { n.kind == Code }

  /** The first code block of a wireframe body. */
  method FirstCode(body: seq<Node>) returns (first: Option<Node>)
    ensures first.Some? <==> exists q :: ValidPath(body, q) && IsCodeBlock(NodeAt(body, q))
    ensures first.Some? ==>
              exists p :: ValidPath(body, p) && NodeAt(body, p) == first.value && IsCodeBlock(first.value)
                          && forall q :: ValidPath(body, q) && IsCodeBlock(NodeAt(body, q)) ==> q == p || Precedes(p, q)
  {
    var seen := Visit(body, IsCodeBlock);
    NothingVisitedIffNoneWanted(body, IsCodeBlock);
    if seen == [] {
      first := None;
    } else {
      first := Some(seen[0]);
      ghost var p := FirstVisitedIsFirstInDocument(body, IsCodeBlock);
      assert NodeAt(body, p) == first.value;
    }
  }
}
