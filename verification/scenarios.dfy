/** Concrete trees and what the builder makes of them. */
module Scenarios {
  import opened Wrappers
  import opened PyAst
  import opened Names
  import opened DeclNodes
  import opened Builder
  import opened Scopes
  import opened Analysis
  import opened AnalysisProofs
  import opened Strings
  import opened Content

  lemma ScanOne(n: Node, file: string)
    ensures ScanAll([n], file) == Scan(n, file)
  {
    assert [n][1..] == [];
  }

  /** A module with one top-level declaration `d` is analysed to `d`, then the
      rest of its subtree. */
  lemma AnalyzeOne(tree: Node, d: NodeDict)
    requires Scan(tree, "<string>").decls == [d]
    ensures AnalyzeString(Some(tree)).nodes == [d] + Subtrees(d.children)
  {
    AnalyzeStringMatchesScan(tree);
    SubtreesOfOne(d);
  }

  /** A leaf declaration is its own only subtree. */
  lemma SubtreesOfLeaf(d: NodeDict)
    requires d.children == []
    ensures Subtrees([d]) == [d]
  {
    SubtreesOfOne(d);
  }

  function NoArgs(): Arguments
  {
    Arguments([], [], None, [], [], None, [])
  }

  function At(line: int): Pos
  {
    Pos(line, Some(line), 0, Some(10))
  }

  /** def bar(self, x: int) -> bool:
        return self.baz(x) */
  function BarDef(): Node
  {
    FunctionDef("bar",
      Arguments([], [Arg("self", None), Arg("x", Some(Name("int")))], None, [], [], None, []),
      [Other("Return", [Call(Attribute(Name("self"), "baz"), [Name("x")], [])])],
      [], Some(Name("bool")), None, At(2))
  }

  /** class Foo(Base):
        <bar> */
  function FooModule(): Node
  {
    Module([ClassDef("Foo", [Name("Base")], [], [BarDef()], [], None, At(1))])
  }

  function BarDict(): NodeDict
  {
    NodeDict(DeclHeader(BarDef(), "<string>"), [], ["self.baz"], [])
  }

  function FooDict(): NodeDict
  {
    NodeDict(DeclHeader(FooModule().body[0], "<string>"), [], [], [BarDict()])
  }

  /** The body of `bar` calls `self.baz` and declares nothing. */
  lemma BarBodyScan()
    ensures ScanAll(BarDef().body, "<string>") == Summary(["self.baz"], [], [])
  {
    var file := "<string>";
    var callee := Attribute(Name("self"), "baz");
    var call := Call(callee, [Name("x")], []);
    assert GetName(callee) == "self.baz";
    assert Scan(callee, file) == Empty;
    assert ScanAll([Name("x")], file) == Empty;
    assert Scan(call, file) == Summary(["self.baz"], [], []);
    var ret := Other("Return", [call]);
    ScanOne(call, file);
    ScanOne(ret, file);
    assert BarDef().body == [ret];
  }

  lemma BarScan()
    ensures Scan(BarDef(), "<string>") == Summary([], [], [BarDict()])
  {
    BarBodyScan();
  }

  lemma FooScan(tree: Node)
    requires tree == FooModule()
    ensures Scan(tree, "<string>").decls == [FooDict()]
  {
    var file := "<string>";
    var bar := BarDef();
    var cls := tree.body[0];
    assert ScanAll(cls.body, file) == Summary([], [], [BarDict()]) by {
      BarScan();
      ScanOne(bar, file);
      assert cls.body == [bar];
    }
    assert Scan(cls, file) == Summary([], [], [FooDict()]);
    ScanOne(cls, file);
  }

  lemma FooBarHeaders()
    ensures FooDict().header.name == "Foo" && FooDict().header.kind == Class
    ensures FooDict().header.bases == ["Base"]
    ensures BarDict().header.name == "bar" && BarDict().header.kind == Function
    ensures BarDict().header.arguments == ["self", "x: int"]
    ensures BarDict().header.returnType == Some("bool")
  {
    FooHeader();
    BarHeader();
  }

  lemma FooHeader()
    ensures FooDict().header.name == "Foo" && FooDict().header.kind == Class
    ensures FooDict().header.bases == ["Base"]
  {
    assert GetName(Name("Base")) == "Base";
    assert GetNames([Name("Base")]) == ["Base"];
  }

  lemma BarHeader()
    ensures BarDict().header.name == "bar" && BarDict().header.kind == Function
    ensures BarDict().header.arguments == ["self", "x: int"]
    ensures BarDict().header.returnType == Some("bool")
  {
    assert RenderArg(Arg("self", None)) == "self";
    assert RenderArg(Arg("x", Some(Name("int")))) == "x: int";
    assert RenderArgs([Arg("self", None), Arg("x", Some(Name("int")))]) == ["self", "x: int"];
  }

  lemma FooBarExample(tree: Node)
    requires tree == FooModule()
    ensures var nodes := AnalyzeString(Some(tree)).nodes;
      && |nodes| == 2
      && nodes[0].header.name == "Foo" && nodes[0].header.kind == Class
      && nodes[0].header.bases == ["Base"]
      && nodes[0].children == [nodes[1]]
      && nodes[1].header.name == "bar" && nodes[1].header.kind == Function
      && nodes[1].header.arguments == ["self", "x: int"]
      && nodes[1].header.returnType == Some("bool")
      && nodes[1].calls == ["self.baz"]
      && nodes[0].calls == []
  {
    FooBarAnalyzed(tree);
    FooBarNodes(AnalyzeString(Some(tree)).nodes);
  }

  lemma FooBarAnalyzed(tree: Node)
    requires tree == FooModule()
    ensures AnalyzeString(Some(tree)).nodes == [FooDict(), BarDict()]
  {
    FooScan(tree);
    AnalyzeOne(tree, FooDict());
    SubtreesOfLeaf(BarDict());
  }

  lemma FooBarNodes(nodes: seq<NodeDict>)
    requires nodes == [FooDict(), BarDict()]
    ensures && |nodes| == 2
      && nodes[0].header.name == "Foo" && nodes[0].header.kind == Class
      && nodes[0].header.bases == ["Base"]
      && nodes[0].children == [nodes[1]]
      && nodes[1].header.name == "bar" && nodes[1].header.kind == Function
      && nodes[1].header.arguments == ["self", "x: int"]
      && nodes[1].header.returnType == Some("bool")
      && nodes[1].calls == ["self.baz"]
      && nodes[0].calls == []
  {
    FooBarHeaders();
  }

  lemma BarFields()
    ensures Fields(BarDict()) == [None, Some(Many(["self", "x: int"])), Some(Single("bool")), None, Some(Many(["self.baz"])), None]
  {
    FooBarHeaders();
    assert BarDict().header.docstring == None;
    assert BarDict().header.bases == [];
  }

  lemma BarParts()
    ensures ContentParts(BarDict()) == [1, 2, 4]
  {
    BarFields();
    var t := Truthiness(Fields(BarDict()));
    assert t == [false, true, true, false, true, false];
    assert t[1..][1..][1..][1..][1..][1..] == [];
    assert Positions(t[1..][1..][1..][1..][1..], 5) == [];
    assert Positions(t[1..][1..][1..][1..], 4) == [4];
    assert Positions(t[1..][1..][1..], 3) == [4];
    assert Positions(t[1..][1..], 2) == [2, 4];
    assert Positions(t[1..], 1) == [1, 2, 4];
  }

  lemma BarRendered()
    ensures RenderAll(BarDict(), [1, 2, 4]) ==
      ["Parameters" + ": " + ("self" + ", " + "x: int"), "Returns" + ": " + "bool", "Calls" + ": " + "self.baz"]
  {
    var d := BarDict();
    BarFields();
    RenderBarParameters();
    RenderBarReturns();
    RenderBarCalls();
    assert [1, 2, 4][1..] == [2, 4] && [2, 4][1..] == [4];
    assert RenderAll(d, [1, 2, 4]) == [Render(d, 1), Render(d, 2), Render(d, 4)];
  }

  lemma RenderBarParameters()
    ensures Fields(BarDict())[1].Some? && Render(BarDict(), 1) == "Parameters" + ": " + ("self" + ", " + "x: int")
  {
    assert Fields(BarDict())[1] == Some(Many(["self", "x: int"])) by {
      BarFields();
    }
    assert ["self", "x: int"][1..] == ["x: int"];
    assert Labels[1] == "Parameters";
  }

  lemma RenderBarReturns()
    ensures Fields(BarDict())[2].Some? && Render(BarDict(), 2) == "Returns" + ": " + "bool"
  {
    assert Fields(BarDict())[2] == Some(Single("bool")) by {
      BarFields();
    }
    assert Labels[2] == "Returns";
  }

  lemma RenderBarCalls()
    ensures Fields(BarDict())[4].Some? && Render(BarDict(), 4) == "Calls" + ": " + "self.baz"
  {
    assert Fields(BarDict())[4] == Some(Many(["self.baz"])) by {
      BarFields();
    }
    assert Labels[4] == "Calls";
  }

  /** The method `bar` is embedded by its parameters, return type and calls, in
      that order; its missing docstring and its empty bases and assignments leave
      no part. */
  lemma BarContent(d: NodeDict)
    requires d == BarDict()
    ensures ExtractContent(d) ==
      ("Parameters" + ": " + ("self" + ", " + "x: int")) + " | " + ("Returns" + ": " + "bool") + " | " + ("Calls" + ": " + "self.baz")
  {
    BarParts();
    BarRendered();
    assert ExtractContent(d) == Join(RenderAll(d, [1, 2, 4]), " | ");
    JoinThree("Parameters" + ": " + ("self" + ", " + "x: int"), "Returns" + ": " + "bool", "Calls" + ": " + "self.baz", " | ");
  }

  lemma JoinThree(a: string, b: string, c: string, sep: string)
    ensures Join([a, b, c], sep) == a + sep + b + sep + c
  {
    assert [a, b, c][1..] == [b, c];
    assert [b, c][1..] == [c];
    assert Join([b, c], sep) == b + sep + c;
    assert Join([a, b, c], sep) == a + sep + (b + sep + c);
  }

  /** def f():
        f1(g(x)) */
  function NestedDef(): Node
  {
    FunctionDef("f", NoArgs(),
      [Other("Expr", [Call(Name("f1"), [Call(Name("g"), [Name("x")], [])], [])])],
      [], None, None, At(1))
  }

  function NestedDict(): NodeDict
  {
    NodeDict(DeclHeader(NestedDef(), "<string>"), [], ["f1", "g"], [])
  }

  lemma NestedCallScan()
    ensures Scan(Call(Name("f1"), [Call(Name("g"), [Name("x")], [])], []), "<string>") == Summary(["f1", "g"], [], [])
  {
    var file := "<string>";
    var inner := Call(Name("g"), [Name("x")], []);
    assert ScanAll([Name("x")], file) == Empty;
    assert Scan(inner, file) == Summary(["g"], [], []);
    ScanOne(inner, file);
  }

  lemma NestedScan(tree: Node)
    requires tree == Module([NestedDef()])
    ensures Scan(tree, "<string>").decls == [NestedDict()]
  {
    var file := "<string>";
    var outer := Call(Name("f1"), [Call(Name("g"), [Name("x")], [])], []);
    NestedCallScan();
    var stmt := Other("Expr", [outer]);
    ScanOne(outer, file);
    ScanOne(stmt, file);
    var f := NestedDef();
    assert f.body == [stmt];
    assert Scan(f, file) == Summary([], [], [NestedDict()]);
    ScanOne(f, file);
  }

  /** The outer callee is recorded before the callees in its arguments. */
  lemma NestedCallsInOrder(tree: Node)
    requires tree == Module([NestedDef()])
    ensures var nodes := AnalyzeString(Some(tree)).nodes;
      |nodes| == 1 && nodes[0].header.name == "f" && nodes[0].calls == ["f1", "g"]
  {
    assert AnalyzeString(Some(tree)).nodes == [NestedDict()] by {
      NestedScan(tree);
      AnalyzeOne(tree, NestedDict());
    }
  }

  /** def g():
        h() */
  function InnerDef(): Node
  {
    FunctionDef("g", NoArgs(), [Other("Expr", [Call(Name("h"), [], [])])], [], None, None, At(2))
  }

  /** def f():
        <g>
        k() */
  function OuterDef(): Node
  {
    FunctionDef("f", NoArgs(), [InnerDef(), Other("Expr", [Call(Name("k"), [], [])])], [], None, None, At(1))
  }

  function InnerDict(): NodeDict
  {
    NodeDict(DeclHeader(InnerDef(), "<string>"), [], ["h"], [])
  }

  function OuterDict(): NodeDict
  {
    NodeDict(DeclHeader(OuterDef(), "<string>"), [], ["k"], [InnerDict()])
  }

  /** A call statement contributes its callee and nothing else. */
  lemma CallStatementScan(name: string)
    ensures ScanAll([Other("Expr", [Call(Name(name), [], [])])], "<string>") == Summary([name], [], [])
  {
    var file := "<string>";
    var call := Call(Name(name), [], []);
    assert Scan(call, file) == Summary([name], [], []);
    ScanOne(call, file);
    ScanOne(Other("Expr", [call]), file);
  }

  lemma InnerScan()
    ensures Scan(InnerDef(), "<string>") == Summary([], [], [InnerDict()])
  {
    CallStatementScan("h");
  }

  lemma OuterBodyScan()
    ensures ScanAll(OuterDef().body, "<string>") == Summary(["k"], [], [InnerDict()])
  {
    var file := "<string>";
    var body := OuterDef().body;
    assert body[1..] == [Other("Expr", [Call(Name("k"), [], [])])];
    assert ScanAll(body[1..], file) == Summary(["k"], [], []) by {
      CallStatementScan("k");
    }
    InnerScan();
    assert ScanAll(body, file) == Summary([], [], [InnerDict()]).Then(Summary(["k"], [], []));
  }

  lemma OuterScan(tree: Node)
    requires tree == Module([OuterDef()])
    ensures Scan(tree, "<string>").decls == [OuterDict()]
  {
    var file := "<string>";
    assert Scan(OuterDef(), file) == Summary([], [], [OuterDict()]) by {
      OuterBodyScan();
    }
    ScanOne(OuterDef(), file);
  }

  /** A call inside `g`, nested in `f`, belongs to `g` and never to `f`; the call
      after `g` belongs to `f` again. */
  lemma InnerFunctionOwnsItsCalls(tree: Node)
    requires tree == Module([OuterDef()])
    ensures var nodes := AnalyzeString(Some(tree)).nodes;
      && |nodes| == 2
      && nodes[0].header.name == "f" && nodes[0].calls == ["k"] && nodes[0].children == [nodes[1]]
      && nodes[1].header.name == "g" && nodes[1].calls == ["h"]
  {
    var nodes := AnalyzeString(Some(tree)).nodes;
    assert nodes == [OuterDict(), InnerDict()] by {
      OuterScan(tree);
      AnalyzeOne(tree, OuterDict());
      SubtreesOfLeaf(InnerDict());
    }
    OuterInnerNodes(nodes);
  }

  lemma OuterInnerNodes(nodes: seq<NodeDict>)
    requires nodes == [OuterDict(), InnerDict()]
    ensures && |nodes| == 2
      && nodes[0].header.name == "f" && nodes[0].calls == ["k"] && nodes[0].children == [nodes[1]]
      && nodes[1].header.name == "g" && nodes[1].calls == ["h"]
  {
  }

  /** @register(make())
      def f(cb=default()):
        handler = lambda: run() */
  function DecoratedDef(): Node
  {
    var sig := Arguments([], [Arg("cb", None)], None, [], [], None, [Call(Name("default"), [], [])]);
    var lam := Other("Lambda", [Call(Name("run"), [], [])]);
    FunctionDef("f", sig, [Assign([Name("handler")], lam)],
      [Call(Name("register"), [Call(Name("make"), [], [])], [])], None, None, At(2))
  }

  function DecoratedDict(): NodeDict
  {
    NodeDict(DeclHeader(DecoratedDef(), "<string>"), ["handler"], ["run"], [])
  }

  /** `handler = lambda: run()` assigns `handler` and calls `run`. */
  lemma HandlerScan()
    ensures ScanAll(DecoratedDef().body, "<string>") == Summary(["run"], ["handler"], [])
  {
    var file := "<string>";
    var run := Call(Name("run"), [], []);
    assert Scan(run, file) == Summary(["run"], [], []);
    ScanOne(run, file);
    var lam := Other("Lambda", [run]);
    var assign := Assign([Name("handler")], lam);
    assert Scan(lam, file) == Summary(["run"], [], []);
    assert GetNames([Name("handler")]) == ["handler"];
    assert ScanAll([Name("handler")], file) == Empty;
    assert Scan(assign, file) == Summary(["run"], ["handler"], []);
    ScanOne(assign, file);
    assert DecoratedDef().body == [assign];
  }

  lemma DecoratedScan(tree: Node)
    requires tree == Module([DecoratedDef()])
    ensures Scan(tree, "<string>").decls == [DecoratedDict()]
  {
    var f := DecoratedDef();
    assert Scan(f, "<string>") == Summary([], [], [DecoratedDict()]) by {
      HandlerScan();
    }
    ScanOne(f, "<string>");
  }

  lemma DecoratedHeader()
    ensures DecoratedDict().header.decorators == ["register"]
    ensures DecoratedDict().header.arguments == ["cb"]
  {
    assert GetName(Call(Name("register"), [Call(Name("make"), [], [])], [])) == "register";
    assert RenderArg(Arg("cb", None)) == "cb";
    assert RenderArgs([Arg("cb", None)]) == ["cb"];
  }

  /** Calls in decorators and defaults are never recorded (the decorator is only
      rendered by name); a call inside a lambda belongs to the enclosing function. */
  lemma DecoratorsAndDefaultsNotVisited(tree: Node)
    requires tree == Module([DecoratedDef()])
    ensures var nodes := AnalyzeString(Some(tree)).nodes;
      && |nodes| == 1
      && nodes[0].header.decorators == ["register"]
      && nodes[0].header.arguments == ["cb"]
      && nodes[0].assignments == ["handler"]
      && nodes[0].calls == ["run"]
  {
    assert AnalyzeString(Some(tree)).nodes == [DecoratedDict()] by {
      DecoratedScan(tree);
      AnalyzeOne(tree, DecoratedDict());
    }
    DecoratedHeader();
  }

  /** A declaration without an end position ends on its first line at column 0. */
  lemma MissingEndPositionDefaults(t: Node)
    requires t == ClassDef("C", [], [], [], [], None, Pos(7, None, 4, None))
    ensures var nodes := AnalyzeString(Some(Module([t]))).nodes;
      |nodes| == 1 && nodes[0].header.endLine == 7 && nodes[0].header.endColOffset == 0
  {
    var file := "<string>";
    var d := NodeDict(DeclHeader(t, file), [], [], []);
    assert Scan(t, file) == Summary([], [], [d]);
    ScanOne(t, file);
    AnalyzeOne(Module([t]), d);
  }
}
