/**
  Parent links and dotted names. The parser shares some leaf nodes, such as load contexts and
  operators, so only nodes with children are known to occur once.
*/
module ParentMap {
  import opened Wrappers
  import opened Sequences
  import opened Text
  import opened SyntaxTrees

  type Edge = (Node, Node)  // child, parent

  ghost function Edges(n: Node): set<Edge>
    decreases n, 0
  {
    (set c | c in n.children :: (c, n)) + ForestEdges(n.children)
  }

  ghost function ForestEdges(ns: seq<Node>): set<Edge>
    decreases ns, 1
  {
    if ns == [] then {} else Edges(ns[0]) + ForestEdges(ns[1..])
  }

  lemma {:induction false} ForestEdgesAppend(a: seq<Node>, b: seq<Node>)
    ensures ForestEdges(a + b) == ForestEdges(a) + ForestEdges(b)
  {
    if a == [] {
      assert a + b == b;
    } else {
      assert (a + b)[1..] == a[1..] + b;
      ForestEdgesAppend(a[1..], b);
    }
  }

  /** Nodes with children occur once, and the root is nobody's child. */
  ghost predicate Identified(tree: Node) {
    && (forall e, f :: e in Edges(tree) && f in Edges(tree) && e.0.id == f.0.id && e.0.children != [] ==> e == f)
    && (forall e :: e in Edges(tree) ==> e.0.id != tree.id)
  }

  /** Every edge is recorded under its child's id, and everything recorded is an edge. */
  ghost predicate Records(parents: map<nat, Node>, edges: set<Edge>) {
    && (forall e :: e in edges ==> e.0.id in parents)
    && (forall id :: id in parents ==> exists e :: e in edges && e.0.id == id && e.1 == parents[id])
  }

  lemma RecordsOne(parents: map<nat, Node>, edges: set<Edge>, child: Node, parent: Node)
    requires Records(parents, edges)
    ensures Records(parents[child.id := parent], edges + {(child, parent)})
  {
    var next, all := parents[child.id := parent], edges + {(child, parent)};
    forall id | id in next ensures exists e :: e in all && e.0.id == id && e.1 == next[id] {
      if id == child.id {
        assert (child, parent) in all;
      } else {
        var e :| e in edges && e.0.id == id && e.1 == parents[id];
        assert e in all;
      }
    }
  }

  // ----- the order of the walk -----

  function ChildrenOf(ns: seq<Node>): seq<Node> {
    if ns == [] then [] else ns[0].children + ChildrenOf(ns[1..])
  }

  lemma {:induction false} ChildrenAreSmaller(ns: seq<Node>)
    requires ns != []
    ensures ForestSize(ChildrenOf(ns)) < ForestSize(ns)
  {
    ForestSizeAppend(ns[0].children, ChildrenOf(ns[1..]));
    if |ns| > 1 {
      ChildrenAreSmaller(ns[1..]);
    }
  }

  /** Level by level: the given nodes, then their children, and so on. */
  ghost function LevelOrder(level: seq<Node>): seq<Node>
    decreases ForestSize(level)
  {
    if level == [] then []
    else
      ChildrenAreSmaller(level);
      level + LevelOrder(ChildrenOf(level))
  }

  ghost predicate HasChild(n: Node, id: nat) {
    exists c :: c in n.children && c.id == id
  }

  /** The last of the nodes that has a child with the id. */
  ghost function LastParent(visited: seq<Node>, id: nat): Option<Node> {
    if visited == [] then None
    else
      var n := |visited| - 1;
      if HasChild(visited[n], id) then Some(visited[n]) else LastParent(visited[..n], id)
  }

  ghost predicate LastParents(parents: map<nat, Node>, visited: seq<Node>) {
    forall id :: (if id in parents then Some(parents[id]) else None) == LastParent(visited, id)
  }

  /** What is still to be visited: the rest of a level, and then the levels below it. */
  ghost function Remaining(rest: seq<Node>, next: seq<Node>): seq<Node> {
    rest + LevelOrder(next + ChildrenOf(rest))
  }

  lemma VisitFirst(rest: seq<Node>, next: seq<Node>)
    requires rest != []
    ensures Remaining(rest, next) == [rest[0]] + Remaining(rest[1..], next + rest[0].children)
  {
    assert next + ChildrenOf(rest) == (next + rest[0].children) + ChildrenOf(rest[1..]);
    assert rest == [rest[0]] + rest[1..];
  }

  lemma LevelIsDone(next: seq<Node>)
    ensures Remaining([], next) == Remaining(next, [])
  {
    assert next + ChildrenOf([]) == next;
    assert [] + ChildrenOf(next) == ChildrenOf(next);
  }

  /** Over the tree level by level; of the parents that share a child, the one visited last is recorded. */
  method BuildParentMap(tree: Node) returns (parents: map<nat, Node>)
    ensures Records(parents, Edges(tree))
    ensures LastParents(parents, LevelOrder([tree]))
  {
    hide LevelOrder, LastParents;
    parents := map[];
    var todo := [tree];
    ghost var done: set<Edge> := {};
    ghost var visited, rest, next: seq<Node> := [], [], [tree];
    StartOfWalk(tree);
    while todo != []
      invariant done + ForestEdges(todo) == Edges(tree)
      invariant Records(parents, done)
      invariant todo == rest + next && visited + Remaining(rest, next) == LevelOrder([tree])
      invariant LastParents(parents, visited)
      decreases ForestSize(todo)
    {
      var parent := todo[0];
      if rest == [] {
        LevelIsDone(next);
        rest, next := next, [];
      }
      QueueStep(todo, rest, next, parent.children);
      VisitFirst(rest, next);
      AppendVisited(visited, parent, Remaining(rest[1..], next + parent.children));
      visited, rest, next := visited + [parent], rest[1..], next + parent.children;
      TodoStep(todo, done);
      todo := todo[1..] + parent.children;
      parents := RecordChildren(parents, parent, done, visited[..|visited| - 1]);
      done := done + ChildEdges(parent, parent.children);
    }
    NothingRemains();
    assert visited + [] == visited;
  }

  lemma StartOfWalk(tree: Node)
    ensures ForestEdges([tree]) == Edges(tree)
    ensures [] + Remaining([], [tree]) == LevelOrder([tree])
    ensures LastParents(map[], [])
  {
    assert [tree] + ChildrenOf([]) == [tree];
  }

  lemma NothingRemains()
    ensures Remaining([], []) == []
  {
  }

  lemma QueueStep(todo: seq<Node>, rest: seq<Node>, next: seq<Node>, children: seq<Node>)
    requires todo == rest + next && rest != []
    ensures todo[0] == rest[0] && todo[1..] + children == rest[1..] + (next + children)
  {
  }

  lemma AppendVisited(visited: seq<Node>, n: Node, remaining: seq<Node>)
    ensures visited + ([n] + remaining) == (visited + [n]) + remaining
  {
  }

  ghost function ChildEdges(parent: Node, children: seq<Node>): set<Edge> {
    set c | c in children :: (c, parent)
  }

  /** One turn of the walk moves the edges to the node's children from the queue to the done ones. */
  lemma {:induction false} TodoStep(todo: seq<Node>, done: set<Edge>)
    requires todo != []
    ensures done + ForestEdges(todo) ==
            (done + ChildEdges(todo[0], todo[0].children)) + ForestEdges(todo[1..] + todo[0].children)
    ensures ForestSize(todo[1..] + todo[0].children) < ForestSize(todo)
  {
    ForestEdgesAppend(todo[1..], todo[0].children);
    ForestSizeAppend(todo[1..], todo[0].children);
    assert ForestEdges(todo) ==
           ChildEdges(todo[0], todo[0].children) + ForestEdges(todo[0].children) + ForestEdges(todo[1..]);
  }

  method RecordChildren(before: map<nat, Node>, parent: Node, ghost done: set<Edge>, ghost visited: seq<Node>)
    returns (parents: map<nat, Node>)
    requires Records(before, done) && LastParents(before, visited)
    ensures Records(parents, done + ChildEdges(parent, parent.children))
    ensures LastParents(parents, visited + [parent])
  {
    hide Records, LastParents;
    parents := before;
    ghost var edges := done;
    assert done + ChildEdges(parent, parent.children[..0]) == done;
    for i := 0 to |parent.children|
      invariant Records(parents, edges)
      invariant edges == done + ChildEdges(parent, parent.children[..i])
      invariant forall id :: id in parents <==> id in before || exists c :: c in parent.children[..i] && c.id == id
      invariant forall id :: id in parents ==>
                  parents[id] == if exists c :: c in parent.children[..i] && c.id == id then parent else before[id]
    {
      var child := parent.children[i];
      RecordsOne(parents, edges, child, parent);
      parents := parents[child.id := parent];
      assert parent.children[..i + 1] == parent.children[..i] + [child];
      edges := edges + {(child, parent)};
    }
    assert parent.children[..|parent.children|] == parent.children;
    LastParentsSnoc(before, visited, parent, parents);
  }

  lemma LastParentsSnoc(before: map<nat, Node>, visited: seq<Node>, parent: Node, after: map<nat, Node>)
    requires LastParents(before, visited)
    requires forall id :: id in after <==> id in before || HasChild(parent, id)
    requires forall id :: id in after ==> after[id] == if HasChild(parent, id) then parent else before[id]
    ensures LastParents(after, visited + [parent])
  {
    assert (visited + [parent])[..|visited|] == visited;
  }

  /** The map gives a node with children exactly its parent in the tree. */
  lemma ParentIsExact(tree: Node, parents: map<nat, Node>, e: Edge)
    requires Identified(tree) && Records(parents, Edges(tree)) && e in Edges(tree) && e.0.children != []
    ensures e.0.id in parents && parents[e.0.id] == e.1
  {
    var f :| f in Edges(tree) && f.0.id == e.0.id && f.1 == parents[e.0.id];
  }

  /** It is exact for all nodes, shared leaves included, exactly when no id occurs below two parents. */
  lemma ParentsAreExactIff(tree: Node, parents: map<nat, Node>)
    requires Records(parents, Edges(tree))
    ensures (forall e :: e in Edges(tree) ==> parents[e.0.id] == e.1) <==>
            (forall e, f :: e in Edges(tree) && f in Edges(tree) && e.0.id == f.0.id ==> e.1 == f.1)
  {
    if forall e, f :: e in Edges(tree) && f in Edges(tree) && e.0.id == f.0.id ==> e.1 == f.1 {
      forall e | e in Edges(tree) ensures parents[e.0.id] == e.1 {
        var f :| f in Edges(tree) && f.0.id == e.0.id && f.1 == parents[e.0.id];
      }
    }
  }

  const SHARED_LEAF := Node(3, OtherKind, [])

  const SHARING_TREE :=
    Node(0, OtherKind, [Node(1, NameExpr("x"), [SHARED_LEAF]), Node(2, NameExpr("y"), [SHARED_LEAF])])

  /** Two names that share their load context: whatever is recorded, it is not exact for one of the two. */
  lemma SharedLeafHasOneParentOnly(parents: map<nat, Node>)
    requires Records(parents, Edges(SHARING_TREE))
    ensures Identified(SHARING_TREE)
    ensures exists e :: e in Edges(SHARING_TREE) && parents[e.0.id] != e.1
  {
    hide Edges, Records, SHARING_TREE, SHARED_LEAF;
    SharingEdges();
    ParentsAreExactIff(SHARING_TREE, parents);
  }

  lemma SharingEdges()
    ensures Identified(SHARING_TREE)
    ensures exists e, f :: e in Edges(SHARING_TREE) && f in Edges(SHARING_TREE) && e.0.id == f.0.id && e.1 != f.1
  {
    var tree, leaf := SHARING_TREE, SHARED_LEAF;
    var left, right := tree.children[0], tree.children[1];
    assert ForestEdges([leaf]) == Edges(leaf) + ForestEdges([]) == {};
    assert Edges(left) == {(leaf, left)} && Edges(right) == {(leaf, right)};
    assert tree.children[1..] == [right] && [right][1..] == [];
    assert ForestEdges(tree.children) == Edges(left) + (Edges(right) + {});
    assert Edges(tree) == {(left, tree), (right, tree), (leaf, left), (leaf, right)};
    hide Edges, ForestEdges;
    assert (leaf, left) in Edges(tree) && (leaf, right) in Edges(tree);
  }

  // ----- paths from the root -----

  /** A path of parent-child steps from the root of the tree down. */
  ghost predicate IsChain(tree: Node, chain: seq<Node>) {
    && chain != [] && chain[0] == tree
    && forall k :: 0 <= k < |chain| - 1 ==> (chain[k + 1], chain[k]) in Edges(tree)
  }

  lemma {:induction false} EdgesOfChild(tree: Node, c: Node)
    requires c in tree.children
    ensures Edges(c) <= Edges(tree)
  {
    EdgesInForest(tree.children, c);
  }

  lemma {:induction false} EdgesInForest(ns: seq<Node>, c: Node)
    requires c in ns
    ensures Edges(c) <= ForestEdges(ns)
  {
    if c != ns[0] {
      EdgesInForest(ns[1..], c);
    }
  }

  lemma {:induction false} EdgeOfForest(ns: seq<Node>, e: Edge) returns (c: Node)
    requires e in ForestEdges(ns)
    ensures c in ns && e in Edges(c)
  {
    if e in Edges(ns[0]) {
      c := ns[0];
    } else {
      c := EdgeOfForest(ns[1..], e);
    }
  }

  /** Every node below the root is reached by a path. */
  lemma {:induction false} ChainExists(tree: Node, e: Edge) returns (chain: seq<Node>)
    requires e in Edges(tree)
    ensures IsChain(tree, chain) && |chain| >= 2
    ensures chain[|chain| - 1] == e.0 && chain[|chain| - 2] == e.1
    decreases tree
  {
    if e.0 in tree.children && e.1 == tree {
      chain := [tree, e.0];
    } else {
      var c := EdgeOfForest(tree.children, e);
      EdgesOfChild(tree, c);
      var below := ChainExists(c, e);
      chain := [tree] + below;
      forall k | 0 <= k < |chain| - 1 ensures (chain[k + 1], chain[k]) in Edges(tree) {
        if k > 0 {
          assert (below[k], below[k - 1]) in Edges(c);
        }
      }
    }
  }

  lemma EdgeSizes(tree: Node, e: Edge)
    requires e in Edges(tree)
    ensures Size(e.0) < Size(e.1) <= Size(tree)
    ensures e.1.children != []
    decreases tree
  {
    if e.0 in tree.children && e.1 == tree {
      ChildIsSmaller(tree.children, e.0);
    } else {
      var c := EdgeOfForest(tree.children, e);
      EdgeSizes(c, e);
      ChildIsSmaller(tree.children, c);
    }
  }

  /** A node with children is reached by one path only. */
  lemma {:induction false} ChainUnique(tree: Node, a: seq<Node>, b: seq<Node>)
    requires Identified(tree) && IsChain(tree, a) && IsChain(tree, b)
    requires a[|a| - 1] == b[|b| - 1] && a[|a| - 1].children != []
    ensures a == b
    decreases |a|
  {
    var n, m := |a|, |b|;
    if n > 1 {
      assert (a[n - 1], a[n - 2]) in Edges(tree);
    }
    if m > 1 {
      assert (b[m - 1], b[m - 2]) in Edges(tree);
    }
    if n > 1 && m > 1 {
      EdgeSizes(tree, (a[n - 1], a[n - 2]));
      ChainUnique(tree, a[..n - 1], b[..m - 1]);
      assert a == a[..n - 1] + [a[n - 1]] && b == b[..m - 1] + [b[m - 1]];
    }
  }

  // ----- qualified_name -----

  predicate IsNamedScope(n: Node) {
    n.kind.ClassDef? || n.kind.FunctionDef? || n.kind.AsyncFunctionDef?
  }

  /** The names of the classes and functions on a path, outermost first. */
  function ScopeNames(chain: seq<Node>): seq<string> {
    if chain == [] then []
    else (if IsNamedScope(chain[0]) then [chain[0].kind.name] else []) + ScopeNames(chain[1..])
  }

  lemma ScopeNamesAt(chain: seq<Node>, k: nat)
    requires k < |chain|
    ensures Reversed(ScopeNames(chain[k..])) == Reversed(ScopeNames(chain[k + 1..])) +
            if IsNamedScope(chain[k]) then [chain[k].kind.name] else []
    ensures k == |chain| - 1 ==> ScopeNames(chain[k + 1..]) == []
  {
    assert chain[k..][1..] == chain[k + 1..];
  }

  /** Classes and functions of either kind give names, in that order; modules and lambdas do not. */
  lemma ScopeNamesExample(module_: Node, cls: Node, fun: Node, lambda: Node, inner: Node)
    requires module_.kind == OtherKind && cls.kind == ClassDef("A") && fun.kind == FunctionDef("f")
    requires lambda.kind == Lambda && inner.kind == AsyncFunctionDef("g")
    ensures Join(".", ScopeNames([module_, cls, fun, lambda, inner])) == "A.f.g"
  {
    var chain := [module_, cls, fun, lambda, inner];
    assert ScopeNames(chain[4..]) == ["g"] + ScopeNames(chain[4..][1..]);
    assert chain[4..][1..] == [] && chain[3..][1..] == chain[4..] && chain[2..][1..] == chain[3..];
    assert chain[1..][1..] == chain[2..];
    assert ScopeNames(chain) == ScopeNames(chain[1..]) == ["A"] + ScopeNames(chain[2..]);
    assert ScopeNames(chain[2..]) == ["f"] + ScopeNames(chain[3..]);
    assert ScopeNames(chain) == ["A", "f", "g"];
    assert ["A", "f", "g"][1..] == ["f", "g"] && ["f", "g"][1..] == ["g"];
  }

  function LookUp(parents: map<nat, Node>, n: Node): Option<Node> {
    if n.id in parents then Some(parents[n.id]) else None
  }

  lemma LookUpOnChain(tree: Node, parents: map<nat, Node>, chain: seq<Node>, k: nat)
    requires Identified(tree) && Records(parents, Edges(tree)) && IsChain(tree, chain) && k < |chain|
    requires chain[|chain| - 1].children != []
    ensures LookUp(parents, chain[k]) == if k == 0 then None else Some(chain[k - 1])
  {
    if k == 0 {
      forall id | id in parents ensures id != tree.id {
        var e :| e in Edges(tree) && e.0.id == id && e.1 == parents[id];
      }
    } else {
      var e := (chain[k], chain[k - 1]);
      assert e in Edges(tree);
      if k + 1 < |chain| {
        EdgeSizes(tree, (chain[k + 1], chain[k]));
      }
      ParentIsExact(tree, parents, e);
    }
  }

  /**
    Climbs the parent map to the root. For whatever path leads from the root to the function, the
    answer is the dotted names of the classes and functions on it, outermost first.
  */
  method QualifiedName(node: Node, parents: map<nat, Node>, ghost tree: Node, ghost chain: seq<Node>)
    returns (name: string)
    requires node.kind.FunctionDef? || node.kind.AsyncFunctionDef?
    requires node.children != []  // a function definition always has its arguments node
    requires Identified(tree) && Records(parents, Edges(tree))
    requires IsChain(tree, chain) && chain[|chain| - 1] == node
    ensures name == Join(".", ScopeNames(chain))
  {
    hide Records, Edges, Identified, ScopeNames, LookUp;
    var names := [node.kind.name];
    ghost var k := |chain| - 1;
    LookUpOnChain(tree, parents, chain, k);
    ScopeNamesAt(chain, k);
    var parent := LookUp(parents, node);
    while parent.Some?
      invariant 0 <= k < |chain|
      invariant parent == if k == 0 then None else Some(chain[k - 1])
      invariant names == Reversed(ScopeNames(chain[k..]))
      decreases k
    {
      LookUpOnChain(tree, parents, chain, k - 1);
      ScopeNamesAt(chain, k - 1);
      if IsNamedScope(parent.value) {
        names := names + [parent.value.kind.name];
      }
      parent := LookUp(parents, parent.value);
      k := k - 1;
    }
    assert chain[0..] == chain;
    ReversedTwice(ScopeNames(chain));
    return Join(".", Reversed(names));
  }
}
