/** The scope-tracking declaration-tree builder (`ASTVisitor`). The visitor's mutable
    state is a `Visitor` value threaded through pure functions: the flat list of
    created nodes doubles as an arena, and the scope stack holds arena indices. */
module Builder {
  import opened Wrappers
  import opened PyAst
  import opened Names
  import opened DeclNodes

  /** `ASTVisitor` state: the file being analysed, every node created so far in
      creation order (`self.nodes`), and the open scopes, innermost last. */
  datatype Visitor = Visitor(filePath: string, nodes: seq<AstNode>, scopeStack: seq<nat>)
  {
    /** Every open scope is a node that exists, and every child link points
        forward inside the list. */
    ghost predicate Valid()
    {
      && (forall k :: 0 <= k < |scopeStack| ==> scopeStack[k] < |nodes|)
      && WellFormed(nodes)
    }

    /** The innermost open scope, if any. */
    function Top(): Option<nat>
    {
      if |scopeStack| == 0 then None else Some(scopeStack[|scopeStack| - 1])
    }
  }

  /** A fresh visitor for one file: no nodes, no open scope. */
  function Start(filePath: string): (v: Visitor)
    ensures v.Valid() && v.Top() == None
    ensures v.nodes == [] && v.filePath == filePath
  {
    Visitor(filePath, [], [])
  }

  /** Python's `x or d` for an optional integer: absent and zero both give `d`. */
  function OrElse(x: Option<int>, d: int): int
  {
    if x.Some? && x.value != 0 then x.value else d
  }

  /** The node `visit_ClassDef` or `_process_function` creates for a declaration.
      Only the declaration's own expressions are rendered; nothing in them is
      visited. */
  function DeclHeader(n: Node, filePath: string): (h: Header)
    requires n.IsScope()
    ensures h.name == n.name && h.filePath == filePath && h.docstring == n.docstring
    ensures h.line == n.pos.lineno && h.colOffset == n.pos.colOffset
    ensures h.kind == (if n.ClassDef? then Class else if n.FunctionDef? then Function else AsyncFunction)
    ensures n.pos.endLineno.Some? && n.pos.endLineno.value != 0 ==> h.endLine == n.pos.endLineno.value
    ensures n.pos.endLineno.None? || n.pos.endLineno.value == 0 ==> h.endLine == h.line
    ensures n.pos.endColOffset.Some? && n.pos.endColOffset.value != 0 ==> h.endColOffset == n.pos.endColOffset.value
    ensures n.pos.endColOffset.None? || n.pos.endColOffset.value == 0 ==> h.endColOffset == 0
    ensures h.decorators == GetNames(n.decoratorList)
    ensures n.ClassDef? ==> h.bases == GetNames(n.bases) && h.arguments == [] && h.returnType == None
    ensures !n.ClassDef? ==> h.bases == [] && h.arguments == GetArguments(n.signature)
    ensures !n.ClassDef? && n.returnAnnotation.None? ==> h.returnType == None
    ensures !n.ClassDef? && n.returnAnnotation.Some? ==> h.returnType == Some(GetName(n.returnAnnotation.value))
  {
    var line := n.pos.lineno;
    var endLine := OrElse(n.pos.endLineno, line);
    var endCol := OrElse(n.pos.endColOffset, 0);
    match n
    case ClassDef(name, bases, _, _, decorators, doc, pos) =>
      Header(name, Class, line, endLine, pos.colOffset, endCol, doc,
             GetNames(decorators), None, [], GetNames(bases), filePath)
    case FunctionDef(name, sig, _, decorators, ret, doc, pos) =>
      Header(name, Function, line, endLine, pos.colOffset, endCol, doc,
             GetNames(decorators), RenderReturn(ret), GetArguments(sig), [], filePath)
    case AsyncFunctionDef(name, sig, _, decorators, ret, doc, pos) =>
      Header(name, AsyncFunction, line, endLine, pos.colOffset, endCol, doc,
             GetNames(decorators), RenderReturn(ret), GetArguments(sig), [], filePath)
  }

  /** The return annotation rendered by `_get_name`, when there is one. */
  function RenderReturn(ret: Option<Node>): (r: Option<string>)
    ensures r.Some? <==> ret.Some?
  {
    match ret
    case Some(t) => Some(GetName(t))
    case None => None
  }

  /** `_add_node`: append the node to the flat list and, when a scope is open, make
      it the last child of the innermost scope. */
  function AddNode(v: Visitor, h: Header): (r: Visitor)
    requires v.Valid()
    ensures r.Valid()
    ensures r.filePath == v.filePath && r.scopeStack == v.scopeStack
    ensures |r.nodes| == |v.nodes| + 1
    ensures r.nodes[|v.nodes|] == AstNode(h, v.Top(), [], [], [])
    ensures forall i :: 0 <= i < |v.nodes| && Some(i) != v.Top() ==> r.nodes[i] == v.nodes[i]
    ensures v.Top().Some? ==>
      var p := v.Top().value;
      r.nodes[p] == v.nodes[p].(children := v.nodes[p].children + [|v.nodes|])
  {
    var created := AstNode(h, v.Top(), [], [], []);
    match v.Top()
    case None => v.(nodes := v.nodes + [created])
    case Some(p) =>
      var parent := v.nodes[p];
      v.(nodes := v.nodes[p := parent.(children := parent.children + [|v.nodes|])] + [created])
  }

  /** Create the node for a declaration and open its scope. */
  function OpenScope(n: Node, v: Visitor): (r: Visitor)
    requires n.IsScope() && v.Valid()
    ensures r.Valid() && r.filePath == v.filePath
    ensures r.scopeStack == v.scopeStack + [|v.nodes|]
    ensures |r.nodes| == |v.nodes| + 1
    ensures r.nodes[|v.nodes|] == AstNode(DeclHeader(n, v.filePath), v.Top(), [], [], [])
    ensures forall i :: 0 <= i < |v.nodes| && Some(i) != v.Top() ==> r.nodes[i] == v.nodes[i]
    ensures v.Top().Some? ==>
      var p := v.Top().value;
      r.nodes[p] == v.nodes[p].(children := v.nodes[p].children + [|v.nodes|])
  {
    var added := AddNode(v, DeclHeader(n, v.filePath));
    added.(scopeStack := added.scopeStack + [|v.nodes|])
  }

  /** `self.scope_stack.pop()` */
  function CloseScope(v: Visitor): (r: Visitor)
    requires v.Valid() && |v.scopeStack| > 0
    ensures r.Valid() && r.filePath == v.filePath && r.nodes == v.nodes
    ensures r.scopeStack == v.scopeStack[..|v.scopeStack| - 1]
  {
    v.(scopeStack := v.scopeStack[..|v.scopeStack| - 1])
  }

  /** `visit_Call`: the callee's name goes to the innermost scope only. */
  function RecordCall(v: Visitor, callee: string): (r: Visitor)
    requires v.Valid()
    ensures r.Valid() && r.filePath == v.filePath && r.scopeStack == v.scopeStack
    ensures |r.nodes| == |v.nodes|
    ensures forall i :: 0 <= i < |v.nodes| && Some(i) != v.Top() ==> r.nodes[i] == v.nodes[i]
    ensures v.Top().Some? ==>
      var t := v.Top().value;
      r.nodes[t] == v.nodes[t].(calls := v.nodes[t].calls + [callee])
  {
    match v.Top()
    case None => v
    case Some(t) => v.(nodes := v.nodes[t := v.nodes[t].(calls := v.nodes[t].calls + [callee])])
  }

  /** `visit_Assign`: one rendered target per target, to the innermost scope only. */
  function RecordAssigns(v: Visitor, targets: seq<string>): (r: Visitor)
    requires v.Valid()
    ensures r.Valid() && r.filePath == v.filePath && r.scopeStack == v.scopeStack
    ensures |r.nodes| == |v.nodes|
    ensures forall i :: 0 <= i < |v.nodes| && Some(i) != v.Top() ==> r.nodes[i] == v.nodes[i]
    ensures v.Top().Some? ==>
      var t := v.Top().value;
      r.nodes[t] == v.nodes[t].(assignments := v.nodes[t].assignments + targets)
  {
    match v.Top()
    case None => v
    case Some(t) => v.(nodes := v.nodes[t := v.nodes[t].(assignments := v.nodes[t].assignments + targets)])
  }

  /** `ASTVisitor.visit`: depth-first traversal. Declarations push a scope, visit
      only their body and pop it again; calls and assignments record into the
      innermost scope and then visit their children like `generic_visit`; every
      other node is walked through. The scope stack is left as it was found. */
  function Visit(n: Node, v: Visitor): (r: Visitor)
    requires v.Valid()
    ensures r.Valid()
    ensures r.filePath == v.filePath && r.scopeStack == v.scopeStack
    ensures |r.nodes| >= |v.nodes|
    decreases n
  {
    match n
    case ClassDef(_, _, _, body, _, _, _) => CloseScope(VisitAll(body, OpenScope(n, v)))
    case FunctionDef(_, _, body, _, _, _, _) => CloseScope(VisitAll(body, OpenScope(n, v)))
    case AsyncFunctionDef(_, _, body, _, _, _, _) => CloseScope(VisitAll(body, OpenScope(n, v)))
    case Call(func, args, keywords) =>
      VisitAll(keywords, VisitAll(args, Visit(func, RecordCall(v, GetName(func)))))
    case Assign(targets, value) =>
      Visit(value, VisitAll(targets, RecordAssigns(v, GetNames(targets))))
    case Attribute(value, _) => Visit(value, v)
    case Module(body) => VisitAll(body, v)
    case Other(_, children) => VisitAll(children, v)
    case Name(_) => v
    case Str(_) => v
    case Num(_) => v
  }

  /** Visit a list of nodes in order. */
  function VisitAll(ns: seq<Node>, v: Visitor): (r: Visitor)
    requires v.Valid()
    ensures r.Valid()
    ensures r.filePath == v.filePath && r.scopeStack == v.scopeStack
    ensures |r.nodes| >= |v.nodes|
    decreases ns
  {
    if |ns| == 0 then v else VisitAll(ns[1..], Visit(ns[0], v))
  }

  /** `ASTVisitor(file_path).visit(tree)`, returning `visitor.nodes`. */
  function Build(filePath: string, tree: Node): (nodes: seq<AstNode>)
    ensures WellFormed(nodes)
  {
    Visit(tree, Start(filePath)).nodes
  }
}
