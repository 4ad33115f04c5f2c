/**
  Python syntax trees as the quality scripts see them. Nodes have an identity, since dictionaries of
  nodes are keyed by it.
*/
module SyntaxTrees {

  datatype ConstantValue = NoneConstant | StringConstant(s: string) | OtherConstant

  datatype Kind =
    | FunctionDef(name: string)
    | AsyncFunctionDef(name: string)
    | ClassDef(name: string)
    | Lambda
    | Return
    | NameExpr(id: string)
    | Constant(value: ConstantValue)
    | OtherKind

  /** `children` are the child nodes in field order; a `return` has its value as only child, if any. */
  datatype Node = Node(id: nat, kind: Kind, children: seq<Node>)

  function Size(n: Node): (r: nat)
    ensures r > 0
  {
    1 + ForestSize(n.children)
  }

  function ForestSize(ns: seq<Node>): nat {
    if ns == [] then 0 else Size(ns[0]) + ForestSize(ns[1..])
  }

  lemma {:induction false} ForestSizeAppend(a: seq<Node>, b: seq<Node>)
    ensures ForestSize(a + b) == ForestSize(a) + ForestSize(b)
  {
    if a == [] {
      assert a + b == b;
    } else {
      assert (a + b)[1..] == a[1..] + b;
      ForestSizeAppend(a[1..], b);
    }
  }

  lemma {:induction false} ChildIsSmaller(ns: seq<Node>, c: Node)
    requires c in ns
    ensures Size(c) <= ForestSize(ns)
  {
    if c != ns[0] {
      ChildIsSmaller(ns[1..], c);
    }
  }
}
