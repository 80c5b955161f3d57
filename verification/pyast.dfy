/** The slice of Python's abstract syntax tree that the declaration-tree builder
    distinguishes. Every other node class is `Other`, which keeps its child nodes
    in the order `generic_visit` walks them. */
module PyAst {
  import opened Wrappers

  /** Position of a declaration as the parser reports it. Python 3.8+ fills the end
      position; older trees leave it unset. */
  datatype Pos = Pos(lineno: int, endLineno: Option<int>, colOffset: int, endColOffset: Option<int>)

  /** One parameter: its name and optional annotation expression. */
  datatype Arg = Arg(arg: string, annotation: Option<Node>)

  /** `ast.arguments`: the parameter list of a function. Defaults are expressions the
      builder never looks at. */
  datatype Arguments = Arguments(
    posonlyargs: seq<Arg>,
    args: seq<Arg>,
    vararg: Option<Arg>,
    kwonlyargs: seq<Arg>,
    kwDefaults: seq<Node>,
    kwarg: Option<Arg>,
    defaults: seq<Node>)

  /** The value of a numeric literal. `str()` of a float or complex number is
      Python's shortest round-tripping repr, which the model takes as given text. */
  datatype Number =
    | IntLit(k: int)
    | FloatLit(repr: string)
    | ComplexLit(repr: string)

  /** A syntax tree node. `docstring` is what `ast.get_docstring` yields for the
      declaration. `signature` is the `args` field of a function definition. */
  datatype Node =
    | Module(body: seq<Node>)
    | ClassDef(name: string, bases: seq<Node>, keywords: seq<Node>, body: seq<Node>,
               decoratorList: seq<Node>, docstring: Option<string>, pos: Pos)
    | FunctionDef(name: string, signature: Arguments, body: seq<Node>, decoratorList: seq<Node>,
                  returnAnnotation: Option<Node>, docstring: Option<string>, pos: Pos)
    | AsyncFunctionDef(name: string, signature: Arguments, body: seq<Node>, decoratorList: seq<Node>,
                       returnAnnotation: Option<Node>, docstring: Option<string>, pos: Pos)
    | Call(func: Node, args: seq<Node>, keywords: seq<Node>)
    | Assign(targets: seq<Node>, value: Node)
    | Name(id: string)
    | Attribute(value: Node, attr: string)
    | Str(s: string)
    | Num(n: Number)
    | Other(kind: string, children: seq<Node>)
  {
    /** The node classes for which the builder opens a scope. */
    predicate IsScope()
    {
      ClassDef? || FunctionDef? || AsyncFunctionDef?
    }

    /** The Python class name of the node, as used by its default `str`. */
    function ClassName(): string
    {
      match this
      case Module(_) => "Module"
      case ClassDef(_, _, _, _, _, _, _) => "ClassDef"
      case FunctionDef(_, _, _, _, _, _, _) => "FunctionDef"
      case AsyncFunctionDef(_, _, _, _, _, _, _) => "AsyncFunctionDef"
      case Call(_, _, _) => "Call"
      case Assign(_, _) => "Assign"
      case Name(_) => "Name"
      case Attribute(_, _) => "Attribute"
      case Str(_) => "Str"
      case Num(_) => "Num"
      case Other(k, _) => k
    }
  }
}
