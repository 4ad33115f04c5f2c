/**
  The walk over a function's own body: an explicit stack, popped and refilled with reversed children,
  which emits nested scopes but does not enter them.
*/
module ScopeWalk {
  import opened Wrappers
  import opened Sequences
  import opened SyntaxTrees

  predicate IsScope(n: Node) {
    n.kind.FunctionDef? || n.kind.AsyncFunctionDef? || n.kind.ClassDef? || n.kind.Lambda?
  }

  /** Recursive preorder that stops below nested scopes. */
  function Preorder(ns: seq<Node>): seq<Node> {
    if ns == [] then []
    else [ns[0]] + (if IsScope(ns[0]) then [] else Preorder(ns[0].children)) + Preorder(ns[1..])
  }

  lemma {:induction false} PreorderAppend(a: seq<Node>, b: seq<Node>)
    ensures Preorder(a + b) == Preorder(a) + Preorder(b)
  {
    if a == [] {
      assert a + b == b;
    } else {
      assert (a + b)[1..] == a[1..] + b;
      PreorderAppend(a[1..], b);
      var head := [a[0]] + if IsScope(a[0]) then [] else Preorder(a[0].children);
      AppendAssociates(head, Preorder(a[1..]), Preorder(b));
    }
  }

  lemma PreorderCons(n: Node, rest: seq<Node>)
    ensures IsScope(n) ==> Preorder([n] + rest) == [n] + Preorder(rest)
    ensures !IsScope(n) ==> Preorder([n] + rest) == [n] + (Preorder(n.children) + Preorder(rest))
  {
    hide IsScope;
    assert ([n] + rest)[1..] == rest;
    AppendAssociates([n], Preorder(n.children), Preorder(rest));
  }

  lemma ForestSizeOne(n: Node)
    ensures ForestSize([n]) == Size(n)
  {
  }

  /** One turn of the loop: the top of the stack is emitted and replaced by its children, if entered. */
  lemma WalkStep(stack: seq<Node>)
    requires stack != []
    ensures var top, rest := stack[|stack| - 1], stack[..|stack| - 1];
            var next := if IsScope(top) then rest else rest + Reversed(top.children);
            && Preorder(Reversed(stack)) == [top] + Preorder(Reversed(next))
            && ForestSize(next) < ForestSize(stack)
  {
    var top, rest := stack[|stack| - 1], stack[..|stack| - 1];
    ForestSizeOne(top);
    hide IsScope, Preorder, ForestSize;
    assert stack == rest + [top] && Reversed(stack) == [top] + Reversed(rest);
    PreorderCons(top, Reversed(rest));
    ForestSizeAppend(rest, [top]);
    if !IsScope(top) {
      var next := rest + Reversed(top.children);
      assert Reversed(next) == top.children + Reversed(rest);
      PreorderAppend(top.children, Reversed(rest));
      ForestSizeAppend(rest, Reversed(top.children));
      ForestSizeReversed(top.children);
    }
  }

  lemma {:induction false} ForestSizeReversed(ns: seq<Node>)
    ensures ForestSize(Reversed(ns)) == ForestSize(ns)
  {
    if ns != [] {
      assert Reversed(ns) == Reversed(ns[1..]) + [ns[0]];
      ForestSizeReversed(ns[1..]);
      ForestSizeAppend(Reversed(ns[1..]), [ns[0]]);
      assert ForestSize([ns[0]]) == Size(ns[0]);
    }
  }

  method WalkFunctionBody(body: seq<Node>) returns (emitted: seq<Node>)
    ensures emitted == Preorder(body)
  {
    emitted := [];
    var stack := Reversed(body);
    assert Reversed(stack) == body;
    while stack != []
      invariant emitted + Preorder(Reversed(stack)) == Preorder(body)
      decreases ForestSize(stack)
    {
      WalkStep(stack);
      var child := stack[|stack| - 1];
      ghost var before := emitted;
      stack := stack[..|stack| - 1];
      emitted := emitted + [child];
      if !IsScope(child) {
        stack := stack + Reversed(child.children);
      }
      AppendAssociates(before, [child], Preorder(Reversed(stack)));
    }
    assert Reversed(stack) == [];
  }

  // ----- the nodes of a function's own scope -----

  /** A path of child positions that passes through no nested scope. */
  ghost predicate OwnPath(ns: seq<Node>, path: seq<nat>) {
    path != [] && path[0] < |ns| &&
    (|path| == 1 || (!IsScope(ns[path[0]]) && OwnPath(ns[path[0]].children, path[1..])))
  }

  ghost function NodeAt(ns: seq<Node>, path: seq<nat>): Node
    requires OwnPath(ns, path)
  {
    if |path| == 1 then ns[path[0]] else NodeAt(ns[path[0]].children, path[1..])
  }

  ghost predicate InOwnScope(ns: seq<Node>, n: Node) {
    exists path :: OwnPath(ns, path) && NodeAt(ns, path) == n
  }

  lemma {:induction false} InOwnScopeCons(ns: seq<Node>, n: Node)
    requires ns != []
    ensures InOwnScope(ns, n) <==>
              n == ns[0] || (!IsScope(ns[0]) && InOwnScope(ns[0].children, n)) || InOwnScope(ns[1..], n)
  {
    if InOwnScope(ns, n) {
      var path :| OwnPath(ns, path) && NodeAt(ns, path) == n;
      if path[0] > 0 {
        var shifted := [path[0] - 1] + path[1..];
        assert shifted[1..] == path[1..] && ns[1..][shifted[0]] == ns[path[0]];
        assert OwnPath(ns[1..], shifted) && NodeAt(ns[1..], shifted) == n;
      } else if |path| > 1 {
        assert OwnPath(ns[0].children, path[1..]) && NodeAt(ns[0].children, path[1..]) == n;
      }
    }
    if n == ns[0] {
      assert OwnPath(ns, [0]) && NodeAt(ns, [0]) == n;
    }
    if !IsScope(ns[0]) && InOwnScope(ns[0].children, n) {
      var path :| OwnPath(ns[0].children, path) && NodeAt(ns[0].children, path) == n;
      assert ([0] + path)[1..] == path;
      assert OwnPath(ns, [0] + path) && NodeAt(ns, [0] + path) == n;
    }
    if InOwnScope(ns[1..], n) {
      var path :| OwnPath(ns[1..], path) && NodeAt(ns[1..], path) == n;
      var shifted := [path[0] + 1] + path[1..];
      assert shifted[1..] == path[1..] && ns[shifted[0]] == ns[1..][path[0]];
      assert OwnPath(ns, shifted) && NodeAt(ns, shifted) == n;
    }
  }

  /** The walk meets exactly the nodes of the function's own scope. */
  lemma {:induction false} PreorderIsOwnScope(ns: seq<Node>, n: Node)
    ensures n in Preorder(ns) <==> InOwnScope(ns, n)
  {
    if ns != [] {
      InOwnScopeCons(ns, n);
      PreorderIsOwnScope(ns[1..], n);
      var below := if IsScope(ns[0]) then [] else Preorder(ns[0].children);
      assert n in Preorder(ns) <==> n == ns[0] || n in below || n in Preorder(ns[1..]);
      if !IsScope(ns[0]) {
        PreorderIsOwnScope(ns[0].children, n);
      }
    }
  }

  // ----- _has_meaningful_return -----

  datatype Function = Function(returns_: Option<Node>, body: seq<Node>)

  predicate IsNoneConstant(n: Node) {
    n.kind == Constant(NoneConstant)
  }

  predicate IsNoneAnnotation(n: Node) {
    IsNoneConstant(n) || n.kind == NameExpr("None") || n.kind == Constant(StringConstant("None"))
  }

  /** `None` and the string "None" as annotations, by any of their three forms, and nothing else. */
  lemma NoneAnnotations(id: nat, name: string, s: string)
    ensures IsNoneAnnotation(Node(id, Constant(NoneConstant), []))
    ensures IsNoneAnnotation(Node(id, NameExpr(name), [])) <==> name == "None"
    ensures IsNoneAnnotation(Node(id, Constant(StringConstant(s)), [])) <==> s == "None"
    ensures !IsNoneAnnotation(Node(id, Constant(OtherConstant), [])) && !IsNoneAnnotation(Node(id, OtherKind, []))
  {
  }

  /** `return` and `return None` return no value, `return x` does; only functions, classes and lambdas are scopes. */
  lemma ReturnsAndScopes(id: nat, name: string, value: Node)
    ensures !ReturnsValue(Node(id, Return, [])) && !ReturnsValue(value.(kind := NameExpr(name)))
    ensures ReturnsValue(Node(id, Return, [value])) <==> value.kind != Constant(NoneConstant)
    ensures IsScope(Node(id, FunctionDef(name), [])) && IsScope(Node(id, AsyncFunctionDef(name), []))
    ensures IsScope(Node(id, ClassDef(name), [])) && IsScope(Node(id, Lambda, []))
    ensures !IsScope(Node(id, Return, [])) && !IsScope(Node(id, NameExpr(name), []))
    ensures !IsScope(Node(id, OtherKind, []))
  {
  }

  predicate ReturnsValue(n: Node) {
    n.kind.Return? && n.children != [] && !IsNoneConstant(n.children[0])
  }

  /**
    True exactly for an annotation other than None, or a `return` of something else than None in the
    function's own scope.
  */
  method HasMeaningfulReturn(f: Function) returns (r: bool)
    ensures r <==>
              || (f.returns_.Some? && !IsNoneAnnotation(f.returns_.value))
              || exists n :: InOwnScope(f.body, n) && ReturnsValue(n)
  {
    if f.returns_.Some? && !IsNoneAnnotation(f.returns_.value) {
      return true;
    }
    var emitted := WalkFunctionBody(f.body);
    for i := 0 to |emitted|
      invariant forall k :: 0 <= k < i ==> !ReturnsValue(emitted[k])
    {
      if ReturnsValue(emitted[i]) {
        PreorderIsOwnScope(f.body, emitted[i]);
        return true;
      }
    }
    forall n | InOwnScope(f.body, n) ensures !ReturnsValue(n) {
      PreorderIsOwnScope(f.body, n);
    }
    return false;
  }
}
