/** Rendering of expressions and parameter lists to strings
    (`ASTVisitor._get_name` and `ASTVisitor._get_arguments`). */
module Names {
  import opened Wrappers
  import opened Strings
  import opened PyAst

  /** The default `str(node)` of an AST object, without the memory address CPython
      appends to it. */
  function Fallback(n: Node): string
  {
    "<ast." + n.ClassName() + " object>"
  }

  /** `_get_name`: a closed dispatch over the expression shapes the builder knows,
      as on Python 3.8 to 3.13, where `ast.Str` and `ast.Num` match string and
      numeric constants. */
  function GetName(n: Node): string
  {
    match n
    case Name(id) => id
    case Attribute(value, attr) => GetName(value) + "." + attr
    case Str(s) => s
    case Num(IntLit(k)) => IntToString(k)
    case Num(FloatLit(t)) => t
    case Num(ComplexLit(t)) => t
    case Call(func, _, _) => GetName(func)
    case _ => Fallback(n)
  }

  /** `[_get_name(e) for e in es]` */
  function GetNames(es: seq<Node>): (r: seq<string>)
    ensures |r| == |es|
    ensures forall i :: 0 <= i < |es| ==> r[i] == GetName(es[i])
  {
    if |es| == 0 then [] else [GetName(es[0])] + GetNames(es[1..])
  }

  /** The attribute chain `parts[0].parts[1]...` as the parser builds it: a `Name`
      wrapped in one `Attribute` per further part. */
  function Dotted(parts: seq<string>): Node
    requires |parts| > 0
  {
    if |parts| == 1 then Name(parts[0])
    else Attribute(Dotted(parts[..|parts| - 1]), parts[|parts| - 1])
  }

  /** A dotted reference renders as its parts joined by dots. */
  lemma {:induction false} GetNameDotted(parts: seq<string>)
    requires |parts| > 0
    ensures GetName(Dotted(parts)) == Join(parts, ".")
  {
    if |parts| > 1 {
      var init := parts[..|parts| - 1];
      GetNameDotted(init);
      JoinSnoc(init, parts[|parts| - 1], ".");
      assert init + [parts[|parts| - 1]] == parts;
    }
  }

  /** The rendering of a dotted reference can be split back into its parts, so two
      different dotted references never render alike. */
  lemma GetNameDottedSplits(parts: seq<string>)
    requires |parts| > 0
    requires forall i :: 0 <= i < |parts| ==> '.' !in parts[i]
    ensures Split(GetName(Dotted(parts)), '.') == parts
  {
    GetNameDotted(parts);
    SplitJoin(parts, '.');
  }

  /** A call renders as its callee, however deeply calls are nested: `f()()` is `f`. */
  lemma {:induction false} GetNameSeesThroughCalls(n: Node)
    requires n.Call?
    ensures GetName(n) == GetName(Callee(n))
    decreases n
  {
    if n.func.Call? {
      GetNameSeesThroughCalls(n.func);
    }
  }

  /** The innermost non-call expression of a chain of calls. */
  function Callee(n: Node): (c: Node)
    ensures !c.Call?
  {
    if n.Call? then Callee(n.func) else n
  }

  /** One parameter as `name` or `name: T`. */
  function RenderArg(a: Arg): string
  {
    match a.annotation
    case Some(t) => a.arg + ": " + GetName(t)
    case None => a.arg
  }

  function RenderArgs(xs: seq<Arg>): (r: seq<string>)
    ensures |r| == |xs|
    ensures forall i :: 0 <= i < |xs| ==> r[i] == RenderArg(xs[i])
  {
    if |xs| == 0 then [] else [RenderArg(xs[0])] + RenderArgs(xs[1..])
  }

  /** `*name` for a present variadic parameter, nothing otherwise. */
  function Starred(prefix: string, a: Option<Arg>): (r: seq<string>)
  {
    match a
    case Some(x) => [prefix + x.arg]
    case None => []
  }

  function OptCount(a: Option<Arg>): nat
  {
    if a.Some? then 1 else 0
  }

  /** `_get_arguments`: one entry per parameter in the fixed order positional-only,
      positional, `*vararg`, keyword-only, `**kwarg`. Annotations of the variadic
      parameters are not rendered. */
  function GetArguments(a: Arguments): (r: seq<string>)
    ensures |r| == |a.posonlyargs| + |a.args| + OptCount(a.vararg) + |a.kwonlyargs| + OptCount(a.kwarg)
  {
    RenderArgs(a.posonlyargs + a.args) + Starred("*", a.vararg)
      + RenderArgs(a.kwonlyargs) + Starred("**", a.kwarg)
  }

  /** Every parameter is rendered once, in the order positional-only, positional,
      `*vararg`, keyword-only, `**kwarg`. */
  lemma GetArgumentsOrder(a: Arguments)
    ensures var r := GetArguments(a);
      var p := |a.posonlyargs| + |a.args|;
      var v := OptCount(a.vararg);
      var k := |a.kwonlyargs|;
      && |r| == p + v + k + OptCount(a.kwarg)
      && (forall i :: 0 <= i < |a.posonlyargs| ==> r[i] == RenderArg(a.posonlyargs[i]))
      && (forall i :: 0 <= i < |a.args| ==> r[|a.posonlyargs| + i] == RenderArg(a.args[i]))
      && (a.vararg.Some? ==> r[p] == "*" + a.vararg.value.arg)
      && (forall i :: 0 <= i < k ==> r[p + v + i] == RenderArg(a.kwonlyargs[i]))
      && (a.kwarg.Some? ==> r[p + v + k] == "**" + a.kwarg.value.arg)
  {
    GetArgumentsPositional(a);
    GetArgumentsStarred(a);
  }

  lemma GetArgumentsPositional(a: Arguments)
    ensures forall i :: 0 <= i < |a.posonlyargs| ==> GetArguments(a)[i] == RenderArg(a.posonlyargs[i])
    ensures forall i :: 0 <= i < |a.args| ==> GetArguments(a)[|a.posonlyargs| + i] == RenderArg(a.args[i])
  {
    var r := GetArguments(a);
    var positional := a.posonlyargs + a.args;
    var pa := RenderArgs(positional);
    var va := Starred("*", a.vararg);
    var ka := RenderArgs(a.kwonlyargs);
    assert r == ((pa + va) + ka) + Starred("**", a.kwarg);
    assert |pa| == |positional|;
    forall i | 0 <= i < |a.posonlyargs|
      ensures r[i] == RenderArg(a.posonlyargs[i])
    {
      assert r[i] == pa[i];
      assert positional[i] == a.posonlyargs[i];
    }
    forall i | 0 <= i < |a.args|
      ensures r[|a.posonlyargs| + i] == RenderArg(a.args[i])
    {
      assert r[|a.posonlyargs| + i] == pa[|a.posonlyargs| + i];
      assert positional[|a.posonlyargs| + i] == a.args[i];
    }
  }

  lemma GetArgumentsStarred(a: Arguments)
    ensures var r := GetArguments(a);
      var p := |a.posonlyargs| + |a.args|;
      var v := OptCount(a.vararg);
      var k := |a.kwonlyargs|;
      && (a.vararg.Some? ==> r[p] == "*" + a.vararg.value.arg)
      && (forall i :: 0 <= i < k ==> r[p + v + i] == RenderArg(a.kwonlyargs[i]))
      && (a.kwarg.Some? ==> r[p + v + k] == "**" + a.kwarg.value.arg)
  {
    GetArgumentsParts(a);
    var pa := RenderArgs(a.posonlyargs + a.args);
    var ka := RenderArgs(a.kwonlyargs);
    PartsAt(GetArguments(a), pa, Starred("*", a.vararg), ka, Starred("**", a.kwarg));
  }

  /** The four parts of the rendered parameter list and their lengths. */
  lemma GetArgumentsParts(a: Arguments)
    ensures GetArguments(a) == ((RenderArgs(a.posonlyargs + a.args) + Starred("*", a.vararg))
                                + RenderArgs(a.kwonlyargs)) + Starred("**", a.kwarg)
    ensures |RenderArgs(a.posonlyargs + a.args)| == |a.posonlyargs| + |a.args|
    ensures |Starred("*", a.vararg)| == OptCount(a.vararg)
    ensures a.vararg.Some? ==> Starred("*", a.vararg)[0] == "*" + a.vararg.value.arg
    ensures a.kwarg.Some? ==> Starred("**", a.kwarg)[0] == "**" + a.kwarg.value.arg
  {
  }

  /** Where each part of `pa + va + ka + kw` lands. */
  lemma PartsAt<T>(r: seq<T>, pa: seq<T>, va: seq<T>, ka: seq<T>, kw: seq<T>)
    requires r == ((pa + va) + ka) + kw
    ensures |va| > 0 ==> r[|pa|] == va[0]
    ensures forall i :: 0 <= i < |ka| ==> r[|pa| + |va| + i] == ka[i]
    ensures |kw| > 0 ==> r[|pa| + |va| + |ka|] == kw[0]
  {
    forall i | 0 <= i < |ka|
      ensures r[|pa| + |va| + i] == ka[i]
    {
      assert r[|pa| + |va| + i] == ((pa + va) + ka)[|pa| + |va| + i];
    }
  }
}
