/** What the builder promises, stated on whole files. */
module AnalysisProofs {
  import opened Wrappers
  import opened Seqs
  import opened PyAst
  import opened Names
  import opened DeclNodes
  import opened Builder
  import opened Scopes
  import opened BuilderProofs
  import opened Analysis

  /** Visiting a whole tree from a fresh visitor leaves the scope stack empty, and
      the created nodes, serialised in creation order, are the subtrees of the
      forest `Scan` describes in pre-order; the parentless nodes serialise to that
      forest itself. */
  lemma BuildMatchesScan(filePath: string, tree: Node)
    ensures var v := Visit(tree, Start(filePath));
      var forest := Scan(tree, filePath).decls;
      && v.scopeStack == []
      && |v.nodes| == SizeAll(forest)
      && ToDictAll(v.nodes) == Subtrees(forest)
      && Parentless(v.nodes, 0, |v.nodes|) == RootIndices(forest, 0)
      && (forall k :: 0 <= k < |forest| ==>
            RootIndices(forest, 0)[k] < |v.nodes| && ToDict(v.nodes, RootIndices(forest, 0)[k]) == forest[k])
  {
    var v0 := Start(filePath);
    var v := Visit(tree, v0);
    var forest := Scan(tree, filePath).decls;
    assert Encodes(v.nodes, 0, forest, None) && |v.nodes| == SizeAll(forest) && v.scopeStack == [] by {
      VisitEffect(tree, v0);
    }
    FlatListIsPreorder(v.nodes, forest);
    FlatListParentless(v.nodes, forest);
    FlatListRoots(v.nodes, forest);
  }

  /** The declarations without a parent are exactly the forest's roots. */
  lemma FlatListParentless(arena: seq<AstNode>, forest: seq<NodeDict>)
    requires Encodes(arena, 0, forest, None) && |arena| == SizeAll(forest)
    ensures Parentless(arena, 0, |arena|) == RootIndices(forest, 0)
  {
    EncodesParentless(arena, 0, forest);
    assert 0 + SizeAll(forest) == |arena|;
  }

  /** Each root converts back to its tree. */
  lemma FlatListRoots(arena: seq<AstNode>, forest: seq<NodeDict>)
    requires WellFormed(arena) && Encodes(arena, 0, forest, None)
    ensures forall k :: 0 <= k < |forest| ==>
      RootIndices(forest, 0)[k] < |arena| && ToDict(arena, RootIndices(forest, 0)[k]) == forest[k]
  {
    EncodesRoots(arena, 0, forest, None);
  }

  lemma FlatListIsPreorder(arena: seq<AstNode>, forest: seq<NodeDict>)
    requires WellFormed(arena) && Encodes(arena, 0, forest, None) && |arena| == SizeAll(forest)
    ensures ToDictAll(arena) == Subtrees(forest)
  {
    EncodesPreorder(arena, 0, forest, None);
    var l := ToDictAll(arena);
    var r := Subtrees(forest);
    assert |l| == |r|;
    assert LaidOut(l, 0, forest);
    forall j | 0 <= j < |l|
      ensures l[j] == r[j]
    {
      assert l[0 + j] == r[j];
    }
  }

  /** `analyze_string` on a parsed tree lists the subtrees of the declaration
      forest `Scan` describes, in pre-order. */
  lemma AnalyzeStringMatchesScan(tree: Node)
    ensures AnalyzeString(Some(tree)).files == ["<string>"]
    ensures AnalyzeString(Some(tree)).nodes == Subtrees(Scan(tree, "<string>").decls)
  {
    BuildMatchesScan("<string>", tree);
  }

  /** Visiting any node attributes calls and assignments to the innermost open
      scope only: every other existing node is unchanged, and the innermost scope
      gains exactly the calls, assignments and child declarations `Scan` assigns
      to the enclosing scope, in order, the new children being the nodes created
      for the top-level declarations of `n`. */
  lemma VisitAttributesToInnermost(n: Node, v: Visitor)
    requires v.Valid()
    ensures var w := Visit(n, v);
      var s := Scan(n, v.filePath);
      && w.scopeStack == v.scopeStack
      && |w.nodes| == |v.nodes| + SizeAll(s.decls)
      && (forall i :: 0 <= i < |v.nodes| && Some(i) != v.Top() ==> w.nodes[i] == v.nodes[i])
      && (v.Top().Some? ==>
            var t := v.Top().value;
            && w.nodes[t].header == v.nodes[t].header
            && w.nodes[t].parent == v.nodes[t].parent
            && w.nodes[t].calls == v.nodes[t].calls + s.calls
            && w.nodes[t].assignments == v.nodes[t].assignments + s.assignments
            && w.nodes[t].children == v.nodes[t].children + RootIndices(s.decls, |v.nodes|))
  {
    VisitEffect(n, v);
  }

  /** Visiting `n` appends the calls `n` contributes to the innermost open scope. */
  lemma InnermostCalls(n: Node, v: Visitor)
    requires v.Valid() && v.Top().Some?
    ensures Visit(n, v).nodes[v.Top().value].calls == v.nodes[v.Top().value].calls + Scan(n, v.filePath).calls
  {
    VisitEffect(n, v);
  }

  /** Visiting `n` appends the assignments `n` contributes to the innermost open
      scope. */
  lemma InnermostAssignments(n: Node, v: Visitor)
    requires v.Valid() && v.Top().Some?
    ensures Visit(n, v).nodes[v.Top().value].assignments ==
      v.nodes[v.Top().value].assignments + Scan(n, v.filePath).assignments
  {
    VisitEffect(n, v);
  }

  /** A call records its callee first, then whatever its callee expression,
      arguments and keyword values record, in that order. */
  lemma CallRecordsCalleeFirst(func: Node, args: seq<Node>, keywords: seq<Node>, v: Visitor)
    requires v.Valid() && v.Top().Some?
    ensures var w := Visit(Call(func, args, keywords), v);
      var t := v.Top().value;
      && |w.nodes[t].calls| > |v.nodes[t].calls|
      && w.nodes[t].calls[|v.nodes[t].calls|] == GetName(func)
  {
    var n := Call(func, args, keywords);
    var t := v.Top().value;
    var s := Scan(n, v.filePath);
    InnermostCalls(n, v);
    assert s.calls[0] == GetName(func);
  }

  /** An assignment extends the innermost scope's assignments by its rendered
      targets, then by what its targets and value contain. */
  lemma AssignExtends(targets: seq<Node>, value: Node, v: Visitor)
    requires v.Valid() && v.Top().Some?
    ensures Visit(Assign(targets, value), v).nodes[v.Top().value].assignments ==
      v.nodes[v.Top().value].assignments + GetNames(targets) +
      (ScanAll(targets, v.filePath).assignments + Scan(value, v.filePath).assignments)
  {
    var rest := ScanAll(targets, v.filePath).assignments + Scan(value, v.filePath).assignments;
    InnermostAssignments(Assign(targets, value), v);
    AssignContributes(targets, value, v.filePath);
    Regroup(v.nodes[v.Top().value].assignments, GetNames(targets), rest);
  }

  /** An assignment contributes its rendered targets, then what its targets and
      value contain. */
  lemma AssignContributes(targets: seq<Node>, value: Node, file: string)
    ensures Scan(Assign(targets, value), file).assignments ==
      GetNames(targets) + (ScanAll(targets, file).assignments + Scan(value, file).assignments)
  {
    Regroup(GetNames(targets), ScanAll(targets, file).assignments, Scan(value, file).assignments);
  }

  /** An assignment records one rendered target per target, in target order,
      before anything its targets or value contain. */
  lemma AssignRecordsTargets(targets: seq<Node>, value: Node, v: Visitor)
    requires v.Valid() && v.Top().Some?
    ensures var w := Visit(Assign(targets, value), v);
      var t := v.Top().value;
      var before := |v.nodes[t].assignments|;
      && |w.nodes[t].assignments| >= before + |targets|
      && (forall i :: 0 <= i < |targets| ==> w.nodes[t].assignments[before + i] == GetName(targets[i]))
  {
    var t := v.Top().value;
    AssignExtends(targets, value, v);
    NamesAt(Visit(Assign(targets, value), v).nodes[t].assignments, v.nodes[t].assignments, targets,
            ScanAll(targets, v.filePath).assignments + Scan(value, v.filePath).assignments);
  }

  /** In `a + GetNames(targets) + rest`, the rendered targets start right after `a`. */
  lemma NamesAt(after: seq<string>, a: seq<string>, targets: seq<Node>, rest: seq<string>)
    requires after == a + GetNames(targets) + rest
    ensures |after| >= |a| + |targets|
    ensures forall i :: 0 <= i < |targets| ==> after[|a| + i] == GetName(targets[i])
  {
    var mine := GetNames(targets);
    forall i | 0 <= i < |targets|
      ensures after[|a| + i] == GetName(targets[i])
    {
      assert after[|a| + i] == mine[i];
    }
  }

  /** With no scope open nothing existing changes: top-level calls and
      assignments are not recorded anywhere. */
  lemma NoScopeRecordsNothing(n: Node, v: Visitor)
    requires v.Valid() && v.Top().None?
    ensures var w := Visit(n, v);
      forall i :: 0 <= i < |v.nodes| ==> w.nodes[i] == v.nodes[i]
  {
    VisitEffect(n, v);
  }

  /** Every file contributes the serialised subtrees of its declarations in
      pre-order, files in discovery order; a file that failed contributes nothing. */
  lemma {:induction false} AnalyzeCollectsEveryFile(files: seq<SourceFile>)
    ensures Analyze(files).nodes == ScanFiles(files)
    ensures |Analyze(files).files| == |files|
    ensures forall i :: 0 <= i < |files| ==> Analyze(files).files[i] == files[i].path
  {
    if |files| > 0 {
      AnalyzeCollectsEveryFile(files[1..]);
      FileDictsMatchScan(files[0]);
    }
  }

  /** The reference for `analyze`: the pre-order subtrees of each parsed file. */
  function ScanFiles(files: seq<SourceFile>): seq<NodeDict>
  {
    if |files| == 0 then []
    else
      var here := match files[0].tree
        case Some(t) => Subtrees(Scan(t, files[0].path).decls)
        case None => [];
      here + ScanFiles(files[1..])
  }

  lemma FileDictsMatchScan(f: SourceFile)
    ensures f.tree.Some? ==> FileDicts(f) == Subtrees(Scan(f.tree.value, f.path).decls)
    ensures f.tree.Some? ==> FileRootDicts(f) == Scan(f.tree.value, f.path).decls
  {
    if f.tree.Some? {
      BuildMatchesScan(f.path, f.tree.value);
    }
  }
}
