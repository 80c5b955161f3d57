/** The builder realises the stack-free description: visiting a node appends, in
    pre-order, exactly the declaration trees `Scan` describes, changes no existing
    node except the innermost open scope, and extends that one with exactly the
    calls, assignments and children `Scan` attributes to it. */
module BuilderProofs {
  import opened Wrappers
  import opened Seqs
  import opened PyAst
  import opened Names
  import opened DeclNodes
  import opened Builder
  import opened Scopes

  /** Arena indices of the roots of a forest laid out in pre-order from `start`. */
  function RootIndices(ds: seq<NodeDict>, start: nat): (r: seq<nat>)
    ensures |r| == |ds|
  {
    if |ds| == 0 then [] else [start] + RootIndices(ds[1..], start + Size(ds[0]))
  }

  lemma {:induction false} RootIndicesBounds(ds: seq<NodeDict>, start: nat)
    ensures |ds| > 0 ==> RootIndices(ds, start)[0] == start
    ensures forall k :: 0 <= k < |ds| ==>
      start <= RootIndices(ds, start)[k] < start + SizeAll(ds)
    ensures forall j, k :: 0 <= j < k < |ds| ==>
      RootIndices(ds, start)[j] < RootIndices(ds, start)[k]
  {
    if |ds| > 0 {
      RootIndicesBounds(ds[1..], start + Size(ds[0]));
    }
  }

  lemma {:induction false} RootIndicesConcat(a: seq<NodeDict>, b: seq<NodeDict>, start: nat)
    ensures RootIndices(a + b, start) == RootIndices(a, start) + RootIndices(b, start + SizeAll(a))
  {
    if |a| == 0 {
      assert a + b == b;
    } else {
      assert (a + b)[0] == a[0];
      assert (a + b)[1..] == a[1..] + b;
      RootIndicesConcat(a[1..], b, start + Size(a[0]));
    }
  }

  lemma SizeAllCons(ds: seq<NodeDict>)
    requires |ds| > 0
    ensures SizeAll(ds) == 1 + SizeAll(ds[0].children) + SizeAll(ds[1..])
  {
  }

  /** The arena segment starting at `start` lays out the forest `ds` in pre-order:
      each tree's root comes first, with its fields, its children's indices and
      `parent` as its parent, followed by its descendants, then the next tree. */
  ghost predicate Encodes(arena: seq<AstNode>, start: nat, ds: seq<NodeDict>, parent: Option<nat>)
    decreases SizeAll(ds)
  {
    && start + SizeAll(ds) <= |arena|
    && (|ds| > 0 ==>
          var d := ds[0];
          SizeAllCons(ds);
          && arena[start] == AstNode(d.header, parent, RootIndices(d.children, start + 1), d.assignments, d.calls)
          && Encodes(arena, start + 1, d.children, Some(start))
          && Encodes(arena, start + Size(d), ds[1..], parent))
  }

  lemma {:induction false} EncodesConcat(arena: seq<AstNode>, start: nat, a: seq<NodeDict>, b: seq<NodeDict>, parent: Option<nat>)
    ensures Encodes(arena, start, a + b, parent) <==>
      Encodes(arena, start, a, parent) && Encodes(arena, start + SizeAll(a), b, parent)
    decreases |a|
  {
    SizeAllConcat(a, b);
    if |a| == 0 {
      assert a + b == b;
    } else {
      assert (a + b)[0] == a[0];
      assert (a + b)[1..] == a[1..] + b;
      EncodesConcat(arena, start + Size(a[0]), a[1..], b, parent);
      SizeAllConcat(a[1..], b);
    }
  }

  /** A layout survives any change outside its segment. */
  lemma {:induction false} EncodesFrame(arena: seq<AstNode>, arena': seq<AstNode>, start: nat, ds: seq<NodeDict>, parent: Option<nat>)
    requires Encodes(arena, start, ds, parent)
    requires start + SizeAll(ds) <= |arena'|
    requires forall i :: start <= i < start + SizeAll(ds) ==> arena'[i] == arena[i]
    ensures Encodes(arena', start, ds, parent)
    decreases SizeAll(ds)
  {
    if |ds| > 0 {
      EncodesFrame(arena, arena', start + 1, ds[0].children, Some(start));
      EncodesFrame(arena, arena', start + Size(ds[0]), ds[1..], parent);
    }
  }

  /** A node after the calls, assignments and child declarations of `s` have been
      attributed to it; the children start at arena index `start`. */
  function Extended(a: AstNode, s: Summary, start: nat): AstNode
  {
    a.(children := a.children + RootIndices(s.decls, start),
       assignments := a.assignments + s.assignments,
       calls := a.calls + s.calls)
  }

  /** `w` is what visiting syntax with contribution `s` makes of `v`: the stack is
      unchanged, the new nodes lay out `s.decls` in pre-order under the innermost
      scope, that scope is extended by `s`, and no other node changes. */
  ghost predicate Effect(v: Visitor, w: Visitor, s: Summary)
  {
    && v.Valid()
    && w.filePath == v.filePath
    && w.scopeStack == v.scopeStack
    && |w.nodes| == |v.nodes| + SizeAll(s.decls)
    && (forall i :: 0 <= i < |v.nodes| && Some(i) != v.Top() ==> w.nodes[i] == v.nodes[i])
    && (v.Top().Some? ==>
          v.Top().value < |v.nodes| &&
          w.nodes[v.Top().value] == Extended(v.nodes[v.Top().value], s, |v.nodes|))
    && Encodes(w.nodes, |v.nodes|, s.decls, v.Top())
  }

  lemma EffectNothing(v: Visitor)
    requires v.Valid()
    ensures Effect(v, v, Empty)
  {
  }

  /** Effects compose in visiting order. */
  lemma {:induction false} EffectThen(u: Visitor, v: Visitor, w: Visitor, s1: Summary, s2: Summary)
    requires Effect(u, v, s1) && Effect(v, w, s2)
    ensures Effect(u, w, s1.Then(s2))
  {
    SizeAllConcat(s1.decls, s2.decls);
    EffectThenTop(u, v, w, s1, s2);
    EffectThenFrame(u, v, w, s1, s2);
    EffectThenLayout(u, v, w, s1, s2);
  }

  lemma EffectThenTop(u: Visitor, v: Visitor, w: Visitor, s1: Summary, s2: Summary)
    requires Effect(u, v, s1) && Effect(v, w, s2)
    ensures u.Top().Some? ==>
      w.nodes[u.Top().value] == Extended(u.nodes[u.Top().value], s1.Then(s2), |u.nodes|)
  {
    if u.Top().Some? {
      var t := u.Top().value;
      var a := u.nodes[t];
      assert v.nodes[t] == Extended(a, s1, |u.nodes|);
      assert w.nodes[t] == Extended(v.nodes[t], s2, |v.nodes|);
      ExtendedThen(a, s1, s2, |u.nodes|);
    }
  }

  /** Extending a node by two contributions in turn extends it by their sum. */
  lemma ExtendedThen(a: AstNode, s1: Summary, s2: Summary, start: nat)
    ensures Extended(Extended(a, s1, start), s2, start + SizeAll(s1.decls)) == Extended(a, s1.Then(s2), start)
  {
    RootIndicesConcat(s1.decls, s2.decls, start);
    Regroup(a.children, RootIndices(s1.decls, start), RootIndices(s2.decls, start + SizeAll(s1.decls)));
    Regroup(a.assignments, s1.assignments, s2.assignments);
    Regroup(a.calls, s1.calls, s2.calls);
  }

  lemma EffectThenFrame(u: Visitor, v: Visitor, w: Visitor, s1: Summary, s2: Summary)
    requires Effect(u, v, s1) && Effect(v, w, s2)
    ensures forall i :: 0 <= i < |u.nodes| && Some(i) != u.Top() ==> w.nodes[i] == u.nodes[i]
  {
  }

  lemma EffectThenLayout(u: Visitor, v: Visitor, w: Visitor, s1: Summary, s2: Summary)
    requires Effect(u, v, s1) && Effect(v, w, s2)
    ensures Encodes(w.nodes, |u.nodes|, s1.decls + s2.decls, u.Top())
  {
    var U := |u.nodes|;
    var V := |v.nodes|;
    forall i | U <= i < V
      ensures w.nodes[i] == v.nodes[i]
    {
      assert Some(i) != v.Top();
    }
    EncodesFrame(v.nodes, w.nodes, U, s1.decls, u.Top());
    EncodesConcat(w.nodes, U, s1.decls, s2.decls, u.Top());
  }

  lemma RecordCallEffect(v: Visitor, callee: string)
    requires v.Valid()
    ensures Effect(v, RecordCall(v, callee), Summary([callee], [], []))
  {
  }

  lemma RecordAssignsEffect(v: Visitor, targets: seq<string>)
    requires v.Valid()
    ensures Effect(v, RecordAssigns(v, targets), Summary([], targets, []))
  {
  }

  /** A declaration adds one node, whose lists are exactly what its body
      contributed, as the last child of the scope around it. */
  lemma {:induction false} ScopeEffect(n: Node, v: Visitor)
    requires n.IsScope() && v.Valid()
    requires Effect(OpenScope(n, v), VisitAll(n.body, OpenScope(n, v)), ScanAll(n.body, v.filePath))
    ensures Effect(v, CloseScope(VisitAll(n.body, OpenScope(n, v))),
                   Scoped(DeclHeader(n, v.filePath), ScanAll(n.body, v.filePath)))
  {
    var o := OpenScope(n, v);
    var w := VisitAll(n.body, o);
    var c := CloseScope(w);
    var h := DeclHeader(n, v.filePath);
    var inner := ScanAll(n.body, v.filePath);
    assert Opened(v, o, h);
    assert c.nodes == w.nodes && c.scopeStack == v.scopeStack;
    OpenedFrame(v, o, w, h, inner);
    OpenedTop(v, o, w, h, inner);
    OpenedLayout(v, o, w, h, inner);
  }

  /** `o` is `v` after `OpenScope` created a node with header `h`. */
  ghost predicate Opened(v: Visitor, o: Visitor, h: Header)
  {
    && v.Valid()
    && o.filePath == v.filePath
    && o.scopeStack == v.scopeStack + [|v.nodes|]
    && |o.nodes| == |v.nodes| + 1
    && o.nodes[|v.nodes|] == AstNode(h, v.Top(), [], [], [])
    && (forall i :: 0 <= i < |v.nodes| && Some(i) != v.Top() ==> o.nodes[i] == v.nodes[i])
    && (v.Top().Some? ==>
          v.Top().value < |v.nodes| &&
          o.nodes[v.Top().value] == v.nodes[v.Top().value].(children := v.nodes[v.Top().value].children + [|v.nodes|]))
  }

  lemma OpenedFrame(v: Visitor, o: Visitor, w: Visitor, h: Header, inner: Summary)
    requires Opened(v, o, h) && Effect(o, w, inner)
    ensures |w.nodes| == |v.nodes| + SizeAll(Scoped(h, inner).decls)
    ensures forall i :: 0 <= i < |v.nodes| && Some(i) != v.Top() ==> w.nodes[i] == v.nodes[i]
  {
    var d := Scoped(h, inner).decls[0];
    assert SizeAll([d]) == Size(d);
    assert o.Top() == Some(|v.nodes|);
  }

  lemma OpenedTop(v: Visitor, o: Visitor, w: Visitor, h: Header, inner: Summary)
    requires Opened(v, o, h) && Effect(o, w, inner)
    ensures v.Top().Some? ==>
      w.nodes[v.Top().value] == Extended(v.nodes[v.Top().value], Scoped(h, inner), |v.nodes|)
  {
    assert o.Top() == Some(|v.nodes|);
    assert RootIndices(Scoped(h, inner).decls, |v.nodes|) == [|v.nodes|];
  }

  lemma OpenedLayout(v: Visitor, o: Visitor, w: Visitor, h: Header, inner: Summary)
    requires Opened(v, o, h) && Effect(o, w, inner)
    ensures Encodes(w.nodes, |v.nodes|, Scoped(h, inner).decls, v.Top())
  {
    var N := |v.nodes|;
    var d := Scoped(h, inner).decls[0];
    assert o.Top() == Some(N);
    assert w.nodes[N] == AstNode(d.header, v.Top(), RootIndices(d.children, N + 1), d.assignments, d.calls);
    EncodesOne(w.nodes, N, d, v.Top());
  }

  /** A single tree is laid out when its root is, followed by its children. */
  lemma EncodesOne(arena: seq<AstNode>, start: nat, d: NodeDict, parent: Option<nat>)
    requires start < |arena|
    requires arena[start] == AstNode(d.header, parent, RootIndices(d.children, start + 1), d.assignments, d.calls)
    requires Encodes(arena, start + 1, d.children, Some(start))
    ensures Encodes(arena, start, [d], parent)
  {
    var ds := [d];
    assert ds[0] == d && ds[1..] == [];
    assert SizeAll(ds) == Size(d);
    assert Encodes(arena, start + Size(d), [], parent);
  }

  /** Visiting `n` has exactly the effect `Scan(n)` describes. */
  lemma {:induction false} VisitEffect(n: Node, v: Visitor)
    requires v.Valid()
    ensures Effect(v, Visit(n, v), Scan(n, v.filePath))
    decreases n, 1
  {
    match n
    case ClassDef(_, _, _, _, _, _, _) =>
      DeclEffect(n, v);
    case FunctionDef(_, _, _, _, _, _, _) =>
      DeclEffect(n, v);
    case AsyncFunctionDef(_, _, _, _, _, _, _) =>
      DeclEffect(n, v);
    case Call(_, _, _) =>
      CallEffect(n, v);
    case Assign(_, _) =>
      AssignEffect(n, v);
    case Attribute(value, _) =>
      VisitEffect(value, v);
    case Module(body) =>
      VisitAllEffect(body, v);
    case Other(_, children) =>
      VisitAllEffect(children, v);
    case Name(_) =>
      EffectNothing(v);
    case Str(_) =>
      EffectNothing(v);
    case Num(_) =>
      EffectNothing(v);
  }

  /** A class or function declaration opens a scope, visits its body in it and
      closes it again. */
  lemma {:induction false} DeclEffect(n: Node, v: Visitor)
    requires n.IsScope() && v.Valid()
    ensures Effect(v, Visit(n, v), Scan(n, v.filePath))
    decreases n, 0
  {
    var o := OpenScope(n, v);
    assert Visit(n, v) == CloseScope(VisitAll(n.body, o));
    assert Scan(n, v.filePath) == Scoped(DeclHeader(n, v.filePath), ScanAll(n.body, v.filePath));
    VisitAllEffect(n.body, o);
    ScopeEffect(n, v);
  }

  /** A call records its callee, then what its function, arguments and keyword
      arguments contribute, in that order. */
  lemma {:induction false} CallEffect(n: Node, v: Visitor)
    requires n.Call? && v.Valid()
    ensures Effect(v, Visit(n, v), Scan(n, v.filePath))
    decreases n, 0
  {
    var file := v.filePath;
    var s0 := Summary([GetName(n.func)], [], []);
    var s1 := s0.Then(Scan(n.func, file));
    var s2 := s1.Then(ScanAll(n.args, file));
    var v1 := RecordCall(v, GetName(n.func));
    var v2 := Visit(n.func, v1);
    var v3 := VisitAll(n.args, v2);
    var v4 := VisitAll(n.keywords, v3);
    assert Effect(v, v2, s1) by {
      RecordCallEffect(v, GetName(n.func));
      VisitEffect(n.func, v1);
      EffectThen(v, v1, v2, s0, Scan(n.func, file));
    }
    assert Effect(v, v3, s2) by {
      VisitAllEffect(n.args, v2);
      EffectThen(v, v2, v3, s1, ScanAll(n.args, file));
    }
    assert Effect(v, v4, s2.Then(ScanAll(n.keywords, file))) by {
      VisitAllEffect(n.keywords, v3);
      EffectThen(v, v3, v4, s2, ScanAll(n.keywords, file));
    }
    assert Visit(n, v) == v4;
    assert Scan(n, file) == s2.Then(ScanAll(n.keywords, file));
  }

  /** An assignment records its target names, then what its targets and its value
      contribute, in that order. */
  lemma {:induction false} AssignEffect(n: Node, v: Visitor)
    requires n.Assign? && v.Valid()
    ensures Effect(v, Visit(n, v), Scan(n, v.filePath))
    decreases n, 0
  {
    var file := v.filePath;
    var s0 := Summary([], GetNames(n.targets), []);
    var s1 := s0.Then(ScanAll(n.targets, file));
    var v1 := RecordAssigns(v, GetNames(n.targets));
    var v2 := VisitAll(n.targets, v1);
    var v3 := Visit(n.value, v2);
    assert Effect(v, v2, s1) by {
      RecordAssignsEffect(v, GetNames(n.targets));
      VisitAllEffect(n.targets, v1);
      EffectThen(v, v1, v2, s0, ScanAll(n.targets, file));
    }
    assert Effect(v, v3, s1.Then(Scan(n.value, file))) by {
      VisitEffect(n.value, v2);
      EffectThen(v, v2, v3, s1, Scan(n.value, file));
    }
    assert Visit(n, v) == v3;
    assert Scan(n, file) == s1.Then(Scan(n.value, file));
  }

  lemma {:induction false} VisitAllEffect(ns: seq<Node>, v: Visitor)
    requires v.Valid()
    ensures Effect(v, VisitAll(ns, v), ScanAll(ns, v.filePath))
    decreases ns
  {
    if |ns| == 0 {
      EffectNothing(v);
    } else {
      var v1 := Visit(ns[0], v);
      VisitEffect(ns[0], v);
      VisitAllEffect(ns[1..], v1);
      EffectThen(v, v1, VisitAll(ns[1..], v1), Scan(ns[0], v.filePath), ScanAll(ns[1..], v.filePath));
    }
  }

  /** Inside a laid-out segment every child link points forward and stays in the
      segment. */
  lemma {:induction false} EncodesChildrenBounded(arena: seq<AstNode>, start: nat, ds: seq<NodeDict>, parent: Option<nat>)
    requires Encodes(arena, start, ds, parent)
    ensures forall i, k :: start <= i < start + SizeAll(ds) && 0 <= k < |arena[i].children| ==>
      i < arena[i].children[k] < start + SizeAll(ds)
    decreases SizeAll(ds)
  {
    if |ds| > 0 {
      var d := ds[0];
      SizeAllCons(ds);
      RootIndicesBounds(d.children, start + 1);
      EncodesChildrenBounded(arena, start + 1, d.children, Some(start));
      EncodesChildrenBounded(arena, start + Size(d), ds[1..], parent);
    }
  }

  /** Serialising the roots of a laid-out segment gives back the forest. */
  lemma {:induction false} EncodesRoots(arena: seq<AstNode>, start: nat, ds: seq<NodeDict>, parent: Option<nat>)
    requires WellFormed(arena) && Encodes(arena, start, ds, parent)
    ensures forall k :: 0 <= k < |ds| ==>
      RootIndices(ds, start)[k] < |arena| && ToDict(arena, RootIndices(ds, start)[k]) == ds[k]
    decreases SizeAll(ds)
  {
    if |ds| > 0 {
      var d := ds[0];
      SizeAllCons(ds);
      RootIndicesBounds(ds, start);
      assert ToDict(arena, start) == d by {
        EncodesRoots(arena, start + 1, d.children, Some(start));
        var t := ToDict(arena, start);
        assert t.children == d.children;
      }
      assert forall k :: 1 <= k < |ds| ==>
          RootIndices(ds, start)[k] < |arena| && ToDict(arena, RootIndices(ds, start)[k]) == ds[k] by {
        EncodesRoots(arena, start + Size(d), ds[1..], parent);
        RootsOfTail(arena, start, ds);
      }
    }
  }

  /** The roots after the first are those of the remaining trees. */
  lemma RootsOfTail(arena: seq<AstNode>, start: nat, ds: seq<NodeDict>)
    requires WellFormed(arena) && |ds| > 0
    requires forall k :: 0 <= k < |ds| - 1 ==>
      RootIndices(ds[1..], start + Size(ds[0]))[k] < |arena| &&
      ToDict(arena, RootIndices(ds[1..], start + Size(ds[0]))[k]) == ds[1..][k]
    ensures forall k :: 1 <= k < |ds| ==>
      RootIndices(ds, start)[k] < |arena| && ToDict(arena, RootIndices(ds, start)[k]) == ds[k]
  {
    var tail := RootIndices(ds[1..], start + Size(ds[0]));
    assert RootIndices(ds, start) == [start] + tail;
    forall k | 1 <= k < |ds|
      ensures RootIndices(ds, start)[k] < |arena| && ToDict(arena, RootIndices(ds, start)[k]) == ds[k]
    {
      assert RootIndices(ds, start)[k] == tail[k - 1];
      assert ds[k] == ds[1..][k - 1];
    }
  }

  /** Serialising every node of a laid-out segment, in arena order, gives every
      subtree of the forest in pre-order. */
  /** `img` lists the subtrees of the forest `ds` in pre-order from index `at`. */
  ghost predicate LaidOut(img: seq<NodeDict>, at: nat, ds: seq<NodeDict>)
  {
    && at + SizeAll(ds) <= |img|
    && forall j :: 0 <= j < SizeAll(ds) ==> img[at + j] == Subtrees(ds)[j]
  }

  lemma {:induction false} EncodesPreorder(arena: seq<AstNode>, start: nat, ds: seq<NodeDict>, parent: Option<nat>)
    requires WellFormed(arena) && Encodes(arena, start, ds, parent)
    ensures LaidOut(ToDictAll(arena), start, ds)
    decreases SizeAll(ds)
  {
    if |ds| > 0 {
      var d := ds[0];
      var img := ToDictAll(arena);
      assert img[start] == d by {
        SizeAllCons(ds);
        EncodesRoots(arena, start, ds, parent);
        RootIndicesBounds(ds, start);
      }
      SizeAllCons(ds);
      EncodesPreorder(arena, start + 1, d.children, Some(start));
      EncodesPreorder(arena, start + Size(d), ds[1..], parent);
      Splice(img, start, ds);
    }
  }

  /** The pre-order list of a forest is its first tree's root, then the pre-order
      list of that root's children, then that of the remaining trees. */
  lemma Splice(img: seq<NodeDict>, start: nat, ds: seq<NodeDict>)
    requires |ds| > 0 && start < |img| && img[start] == ds[0]
    requires LaidOut(img, start + 1, ds[0].children)
    requires LaidOut(img, start + Size(ds[0]), ds[1..])
    ensures LaidOut(img, start, ds)
  {
    var d, rest := ds[0], ds[1..];
    SizeAllCons(ds);
    var sub := Subtrees(ds);
    assert sub == [d] + Subtrees(d.children) + Subtrees(rest);
    forall j | 0 <= j < SizeAll(ds)
      ensures img[start + j] == sub[j]
    {
      if j == 0 {
      } else if j < Size(d) {
        var k := j - 1;
        assert img[start + 1 + k] == Subtrees(d.children)[k];
        assert sub[j] == Subtrees(d.children)[k];
      } else {
        var k := j - Size(d);
        assert img[start + Size(d) + k] == Subtrees(rest)[k];
        assert sub[j] == Subtrees(rest)[k];
      }
    }
  }

  /** Every node of a segment laid out under parent `q` has a parent. */
  lemma {:induction false} EncodesUnderParent(arena: seq<AstNode>, start: nat, ds: seq<NodeDict>, q: nat)
    requires Encodes(arena, start, ds, Some(q))
    ensures forall i :: start <= i < start + SizeAll(ds) ==> arena[i].parent.Some?
    decreases SizeAll(ds)
  {
    if |ds| > 0 {
      SizeAllCons(ds);
      EncodesUnderParent(arena, start + 1, ds[0].children, start);
      EncodesUnderParent(arena, start + Size(ds[0]), ds[1..], q);
    }
  }

  /** The indices in `[lo, hi)` of nodes without a parent, in order. */
  function Parentless(arena: seq<AstNode>, lo: nat, hi: nat): (r: seq<nat>)
    requires lo <= hi <= |arena|
    ensures forall k :: 0 <= k < |r| ==> lo <= r[k] < hi && arena[r[k]].parent.None?
    decreases hi - lo
  {
    if lo == hi then []
    else (if arena[lo].parent.None? then [lo] else []) + Parentless(arena, lo + 1, hi)
  }

  lemma {:induction false} ParentlessSplit(arena: seq<AstNode>, lo: nat, mid: nat, hi: nat)
    requires lo <= mid <= hi <= |arena|
    ensures Parentless(arena, lo, hi) == Parentless(arena, lo, mid) + Parentless(arena, mid, hi)
    decreases mid - lo
  {
    if lo < mid {
      ParentlessSplit(arena, lo + 1, mid, hi);
    }
  }

  lemma {:induction false} ParentlessNone(arena: seq<AstNode>, lo: nat, hi: nat)
    requires lo <= hi <= |arena|
    requires forall i :: lo <= i < hi ==> arena[i].parent.Some?
    ensures Parentless(arena, lo, hi) == []
    decreases hi - lo
  {
    if lo < hi {
      ParentlessNone(arena, lo + 1, hi);
    }
  }

  /** In a segment laid out at the top level, the nodes without a parent are
      exactly the roots of the forest. */
  lemma {:induction false} EncodesParentless(arena: seq<AstNode>, start: nat, ds: seq<NodeDict>)
    requires Encodes(arena, start, ds, None)
    ensures Parentless(arena, start, start + SizeAll(ds)) == RootIndices(ds, start)
    decreases SizeAll(ds)
  {
    if |ds| > 0 {
      var d := ds[0];
      SizeAllCons(ds);
      var mid := start + Size(d);
      var end := start + SizeAll(ds);
      assert end == mid + SizeAll(ds[1..]) <= |arena|;
      assert arena[start].parent == None;
      assert Encodes(arena, start + 1, d.children, Some(start));
      assert Encodes(arena, mid, ds[1..], None);
      EncodesUnderParent(arena, start + 1, d.children, start);
      assert start + 1 + SizeAll(d.children) == mid;
      EncodesParentless(arena, mid, ds[1..]);
      ParentlessFirstTree(arena, start, mid, end);
      assert RootIndices(ds, start) == [start] + RootIndices(ds[1..], mid);
    }
  }

  lemma ParentlessFirstTree(arena: seq<AstNode>, start: nat, mid: nat, end: nat)
    requires start < mid <= end <= |arena|
    requires arena[start].parent.None?
    requires forall i :: start + 1 <= i < mid ==> arena[i].parent.Some?
    ensures Parentless(arena, start, end) == [start] + Parentless(arena, mid, end)
  {
    var later := Parentless(arena, mid, end);
    assert Parentless(arena, start, end) == [start] + Parentless(arena, start + 1, end);
    assert Parentless(arena, start + 1, end) == later by {
      ParentlessSplit(arena, start + 1, mid, end);
      ParentlessNone(arena, start + 1, mid);
      assert [] + later == later;
    }
  }
}
