/** A stack-free description of what the declaration-tree builder records: for a
    piece of syntax, the calls and assignments that land in the scope enclosing it,
    and the declaration trees it contributes to that scope. */
module Scopes {
  import opened PyAst
  import opened Names
  import opened DeclNodes
  import Builder

  /** What a piece of syntax contributes to the scope around it. */
  datatype Summary = Summary(calls: seq<string>, assignments: seq<string>, decls: seq<NodeDict>)
  {
    /** The contribution of this piece followed by `next`. */
    function Then(next: Summary): Summary
    {
      Summary(calls + next.calls, assignments + next.assignments, decls + next.decls)
    }
  }

  const Empty := Summary([], [], [])

  /** A declaration contributes only itself: what its body contains belongs to it. */
  function Scoped(h: Header, inner: Summary): Summary
  {
    Summary([], [], [NodeDict(h, inner.assignments, inner.calls, inner.decls)])
  }

  /** The contribution of `n` to its enclosing scope. Calls inside a declaration's
      decorators, bases, defaults or annotations are in no list: only the body is
      looked at. A lambda is `Other`, so its calls belong to the enclosing scope. */
  function Scan(n: Node, filePath: string): Summary
    decreases n
  {
    match n
    case ClassDef(_, _, _, body, _, _, _) => Scoped(Builder.DeclHeader(n, filePath), ScanAll(body, filePath))
    case FunctionDef(_, _, body, _, _, _, _) => Scoped(Builder.DeclHeader(n, filePath), ScanAll(body, filePath))
    case AsyncFunctionDef(_, _, body, _, _, _, _) => Scoped(Builder.DeclHeader(n, filePath), ScanAll(body, filePath))
    case Call(func, args, keywords) =>
      Summary([GetName(func)], [], [])
        .Then(Scan(func, filePath)).Then(ScanAll(args, filePath)).Then(ScanAll(keywords, filePath))
    case Assign(targets, value) =>
      Summary([], GetNames(targets), []).Then(ScanAll(targets, filePath)).Then(Scan(value, filePath))
    case Attribute(value, _) => Scan(value, filePath)
    case Module(body) => ScanAll(body, filePath)
    case Other(_, children) => ScanAll(children, filePath)
    case Name(_) => Empty
    case Str(_) => Empty
    case Num(_) => Empty
  }

  function ScanAll(ns: seq<Node>, filePath: string): Summary
    decreases ns
  {
    if |ns| == 0 then Empty else Scan(ns[0], filePath).Then(ScanAll(ns[1..], filePath))
  }
}
