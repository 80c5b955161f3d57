/** Declaration nodes (`ASTNode`) and their dictionary form (`ASTNode.to_dict`). */
module DeclNodes {
  import opened Wrappers

  /** The `type` of a declaration node. */
  datatype Kind = Class | Function | AsyncFunction
  {
    /** The string stored in the node's `type` field. */
    function TypeName(): string
    {
      match this
      case Class => "class"
      case Function => "function"
      case AsyncFunction => "async_function"
    }
  }

  /** The fields of a declaration node that are fixed when the node is created. */
  datatype Header = Header(
    name: string,
    kind: Kind,
    line: int,
    endLine: int,
    colOffset: int,
    endColOffset: int,
    docstring: Option<string>,
    decorators: seq<string>,
    returnType: Option<string>,
    arguments: seq<string>,
    bases: seq<string>,
    filePath: string)

  /** An `ASTNode` held in the builder's arena: `parent` and `children` are arena
      indices, so the back-reference creates no cycle. `assignments` and `calls`
      grow while the node is the innermost open scope. */
  datatype AstNode = AstNode(
    header: Header,
    parent: Option<nat>,
    children: seq<nat>,
    assignments: seq<string>,
    calls: seq<string>)

  /** The result of `to_dict`: the same fields, children serialised recursively and
      no parent. */
  datatype NodeDict = NodeDict(
    header: Header,
    assignments: seq<string>,
    calls: seq<string>,
    children: seq<NodeDict>)

  /** Number of nodes in a serialised tree. */
  function Size(d: NodeDict): nat
  {
    1 + SizeAll(d.children)
  }

  /** Number of nodes in a serialised forest. */
  function SizeAll(ds: seq<NodeDict>): nat
  {
    if |ds| == 0 then 0 else Size(ds[0]) + SizeAll(ds[1..])
  }

  lemma {:induction false} SizeAllConcat(a: seq<NodeDict>, b: seq<NodeDict>)
    ensures SizeAll(a + b) == SizeAll(a) + SizeAll(b)
  {
    if |a| > 0 {
      assert (a + b)[0] == a[0];
      assert (a + b)[1..] == a[1..] + b;
      SizeAllConcat(a[1..], b);
    } else {
      assert a + b == b;
    }
  }

  /** Every subtree of a forest in pre-order: each node precedes its descendants,
      and siblings keep their order. */
  function Subtrees(ds: seq<NodeDict>): (r: seq<NodeDict>)
    ensures |r| == SizeAll(ds)
    ensures |ds| > 0 ==> |r| > 0 && r[0] == ds[0]
  {
    if |ds| == 0 then [] else [ds[0]] + Subtrees(ds[0].children) + Subtrees(ds[1..])
  }

  lemma {:induction false} SubtreesConcat(a: seq<NodeDict>, b: seq<NodeDict>)
    ensures Subtrees(a + b) == Subtrees(a) + Subtrees(b)
  {
    if |a| > 0 {
      assert (a + b)[0] == a[0];
      assert (a + b)[1..] == a[1..] + b;
      SubtreesConcat(a[1..], b);
    } else {
      assert a + b == b;
    }
  }

  /** The subtrees of a single tree: the tree, then its descendants. */
  lemma SubtreesOfOne(d: NodeDict)
    ensures Subtrees([d]) == [d] + Subtrees(d.children)
  {
    assert [d][1..] == [];
  }

  /** Arena shape needed to serialise: every child index lies after its parent and
      inside the arena. */
  ghost predicate WellFormed(arena: seq<AstNode>)
  {
    forall i, k :: 0 <= i < |arena| && 0 <= k < |arena[i].children| ==>
      i < arena[i].children[k] < |arena|
  }

  /** `to_dict` of the node at arena index `i`. */
  function ToDict(arena: seq<AstNode>, i: nat): (d: NodeDict)
    requires WellFormed(arena)
    requires i < |arena|
    ensures d.header == arena[i].header
    ensures d.calls == arena[i].calls && d.assignments == arena[i].assignments
    ensures |d.children| == |arena[i].children|
    ensures forall k :: 0 <= k < |d.children| ==> d.children[k] == ToDict(arena, arena[i].children[k])
    decreases |arena| - i
  {
    var a := arena[i];
    NodeDict(a.header, a.assignments, a.calls,
      seq(|a.children|, k requires 0 <= k < |a.children| => ToDict(arena, a.children[k])))
  }

  /** `[node.to_dict() for node in nodes]` over a whole arena. */
  function ToDictAll(arena: seq<AstNode>): (r: seq<NodeDict>)
    requires WellFormed(arena)
    ensures |r| == |arena|
    ensures forall i :: 0 <= i < |arena| ==> r[i] == ToDict(arena, i)
  {
    seq(|arena|, i requires 0 <= i < |arena| => ToDict(arena, i))
  }
}
