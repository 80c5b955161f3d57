/** `EmbeddingManager`: the list of code items, filled from analysis results,
    embedded in one batch, saved to and loaded from a cache, and searched by
    similarity. The embeddings service is a parameter `embed` (the vectors for a
    batch of texts, or the message of the exception it raised); the cache file is
    a value; the square root used by the norms is a parameter `sqrt`. */
module SemanticIndex {
  import opened Wrappers
  import opened Seqs
  import opened DeclNodes
  import opened Content
  import opened Similarity
  import opened Ranking

  /** `CodeItem`: `kind` is the item's `type`. */
  datatype CodeItem = CodeItem(name: string, kind: string, filePath: string, content: string, embedding: Option<Vector>)

  /** The embeddings service (`client.embeddings.create`). */
  type Embedder = seq<string> -> Result<seq<Vector>>

  /** `add_item` */
  function AddItem(items: seq<CodeItem>, item: CodeItem): (r: seq<CodeItem>)
    ensures |r| == |items| + 1 && r[|items|] == item
    ensures forall i :: 0 <= i < |items| ==> r[i] == items[i]
  {
    items + [item]
  }

  /** The item `process_node` adds for a declaration, not yet embedded. */
  function ItemOf(d: NodeDict): CodeItem
  {
    CodeItem(d.header.name, d.header.kind.TypeName(), d.header.filePath, ExtractContent(d), None)
  }

  function ItemsOf(ds: seq<NodeDict>): (r: seq<CodeItem>)
    ensures |r| == |ds|
    ensures forall i :: 0 <= i < |ds| ==> r[i] == ItemOf(ds[i])
  {
    if |ds| == 0 then [] else [ItemOf(ds[0])] + ItemsOf(ds[1..])
  }

  lemma {:induction false} ItemsOfConcat(a: seq<NodeDict>, b: seq<NodeDict>)
    ensures ItemsOf(a + b) == ItemsOf(a) + ItemsOf(b)
  {
    var r := ItemsOf(a + b);
    var s := ItemsOf(a) + ItemsOf(b);
    forall i | 0 <= i < |r|
      ensures r[i] == s[i]
    {
      if i < |a| {
        assert (a + b)[i] == a[i];
      } else {
        assert (a + b)[i] == b[i - |a|];
      }
    }
  }

  /** `process_node`: the node's item, then its children's, recursively. */
  function ProcessNode(items: seq<CodeItem>, d: NodeDict): seq<CodeItem>
    decreases d
  {
    ProcessNodes(AddItem(items, ItemOf(d)), d.children)
  }

  /** The loop of `process_analysis_results` over `nodes`. */
  function ProcessNodes(items: seq<CodeItem>, ds: seq<NodeDict>): seq<CodeItem>
    decreases ds
  {
    if |ds| == 0 then items else ProcessNodes(ProcessNode(items, ds[0]), ds[1..])
  }

  /** `process_analysis_results(nodes)` on a manager holding `items`. */
  function ProcessAnalysisResults(items: seq<CodeItem>, nodes: seq<NodeDict>): seq<CodeItem>
  {
    ProcessNodes(items, nodes)
  }

  lemma {:induction false} ProcessNodeAppends(items: seq<CodeItem>, d: NodeDict)
    ensures ProcessNode(items, d) == items + ItemsOf(Subtrees([d]))
    decreases d
  {
    var below := ItemsOf(Subtrees(d.children));
    assert ProcessNode(items, d) == (items + [ItemOf(d)]) + below by {
      assert AddItem(items, ItemOf(d)) == items + [ItemOf(d)];
      ProcessNodesAppends(items + [ItemOf(d)], d.children);
    }
    assert ItemsOf(Subtrees([d])) == [ItemOf(d)] + below by {
      SubtreesOfOne(d);
      ItemsOfConcat([d], Subtrees(d.children));
    }
    Regroup(items, [ItemOf(d)], below);
  }

  lemma {:induction false} ProcessNodesAppends(items: seq<CodeItem>, ds: seq<NodeDict>)
    ensures ProcessNodes(items, ds) == items + ItemsOf(Subtrees(ds))
    decreases ds
  {
    if |ds| > 0 {
      var first := ItemsOf(Subtrees([ds[0]]));
      var rest := ItemsOf(Subtrees(ds[1..]));
      var mid := ProcessNode(items, ds[0]);
      assert mid == items + first by {
        ProcessNodeAppends(items, ds[0]);
      }
      assert ProcessNodes(items, ds) == mid + rest by {
        ProcessNodesAppends(mid, ds[1..]);
      }
      assert ItemsOf(Subtrees(ds)) == first + rest by {
        assert ds == [ds[0]] + ds[1..];
        SubtreesConcat([ds[0]], ds[1..]);
        ItemsOfConcat(Subtrees([ds[0]]), Subtrees(ds[1..]));
      }
      Regroup(items, first, rest);
    }
  }

  /** Processing keeps the items already held and appends one un-embedded item
      per node of the given trees, parents before children, in pre-order. */
  lemma ProcessAppendsPreorder(items: seq<CodeItem>, nodes: seq<NodeDict>)
    ensures var r := ProcessAnalysisResults(items, nodes);
      && |r| == |items| + SizeAll(nodes)
      && r[..|items|] == items
      && r[|items|..] == ItemsOf(Subtrees(nodes))
      && forall i :: |items| <= i < |r| ==> r[i].embedding.None?
  {
    ProcessNodesAppends(items, nodes);
  }

  /** The items without an embedding, in order (`items_to_embed`). */
  function Pending(items: seq<CodeItem>): (r: seq<CodeItem>)
    ensures |r| <= |items|
    ensures forall i :: 0 <= i < |r| ==> r[i].embedding.None? && r[i] in items
    ensures forall x :: x in r <==> x in items && x.embedding.None?
  {
    if |items| == 0 then []
    else (if items[0].embedding.None? then [items[0]] else []) + Pending(items[1..])
  }

  lemma {:induction false} PendingConcat(a: seq<CodeItem>, b: seq<CodeItem>)
    ensures Pending(a + b) == Pending(a) + Pending(b)
  {
    if |a| == 0 {
      assert a + b == b;
    } else {
      var h := if a[0].embedding.None? then [a[0]] else [];
      assert Pending(a + b) == h + Pending(a[1..] + b) by {
        assert (a + b)[0] == a[0];
        assert (a + b)[1..] == a[1..] + b;
      }
      PendingConcat(a[1..], b);
      Regroup(h, Pending(a[1..]), Pending(b));
    }
  }

  /** Nothing is pending exactly when every item has a vector. */
  lemma {:induction false} PendingEmpty(items: seq<CodeItem>)
    ensures Pending(items) == [] <==> forall i :: 0 <= i < |items| ==> items[i].embedding.Some?
  {
    if |items| > 0 {
      PendingEmpty(items[1..]);
      assert forall i :: 1 <= i < |items| ==> items[i] == items[1..][i - 1];
    }
  }

  /** The text an item is embedded by. */
  function ItemText(item: CodeItem): string
  {
    item.name + ": " + item.content
  }

  function Texts(items: seq<CodeItem>): (r: seq<string>)
    ensures |r| == |items|
    ensures forall i :: 0 <= i < |items| ==> r[i] == ItemText(items[i])
  {
    if |items| == 0 then [] else [ItemText(items[0])] + Texts(items[1..])
  }

  /** The batch sent to the service: one text per pending item, in order. */
  function BatchInput(items: seq<CodeItem>): seq<string>
  {
    Texts(Pending(items))
  }

  /** Two items that differ at most in their embedding. */
  predicate SameItem(a: CodeItem, b: CodeItem)
  {
    a.name == b.name && a.kind == b.kind && a.filePath == b.filePath && a.content == b.content
  }

  /** The items with their vectors dropped: what the list holds apart from the
      embeddings. */
  function Unembedded(items: seq<CodeItem>): (r: seq<CodeItem>)
    ensures |r| == |items|
    ensures forall i :: 0 <= i < |items| ==> r[i] == items[i].(embedding := None)
  {
    seq(|items|, i requires 0 <= i < |items| => items[i].(embedding := None))
  }

  lemma UnembeddedConcat(a: seq<CodeItem>, b: seq<CodeItem>)
    ensures Unembedded(a + b) == Unembedded(a) + Unembedded(b)
  {
    var l := Unembedded(a + b);
    var r := Unembedded(a) + Unembedded(b);
    forall i | 0 <= i < |l|
      ensures l[i] == r[i]
    {
      if i < |a| {
        assert (a + b)[i] == a[i];
      } else {
        assert (a + b)[i] == b[i - |a|];
      }
    }
  }

  /** Lists that differ at most in their vectors. */
  lemma SameItems(a: seq<CodeItem>, b: seq<CodeItem>)
    requires |a| == |b| && forall i :: 0 <= i < |a| ==> SameItem(a[i], b[i])
    ensures Unembedded(a) == Unembedded(b)
  {
    var l := Unembedded(a);
    var r := Unembedded(b);
    forall i | 0 <= i < |a|
      ensures l[i] == r[i]
    {
    }
  }

  /** A list without vectors is its own unembedded form. */
  lemma UnembeddedNew(items: seq<CodeItem>)
    requires forall i :: 0 <= i < |items| ==> items[i].embedding.None?
    ensures Unembedded(items) == items
  {
    var r := Unembedded(items);
    forall i | 0 <= i < |items|
      ensures r[i] == items[i]
    {
    }
  }

  /** The `zip(items_to_embed, response.data)` loop: the `k`-th pending item gets
      the `k`-th vector; pending items beyond the last vector stay pending. */
  function Attach(items: seq<CodeItem>, vecs: seq<Vector>): (r: seq<CodeItem>)
    ensures |r| == |items|
  {
    if |items| == 0 then []
    else if items[0].embedding.None? && |vecs| > 0 then
      [items[0].(embedding := Some(vecs[0]))] + Attach(items[1..], vecs[1..])
    else [items[0]] + Attach(items[1..], vecs)
  }

  /** Attaching vectors changes only vectors, and never one an item already had. */
  lemma {:induction false} AttachKeeps(items: seq<CodeItem>, vecs: seq<Vector>)
    ensures forall i :: 0 <= i < |items| ==> SameItem(Attach(items, vecs)[i], items[i])
    ensures forall i :: 0 <= i < |items| && items[i].embedding.Some? ==> Attach(items, vecs)[i] == items[i]
  {
    forall i | 0 <= i < |items|
      ensures SameItem(Attach(items, vecs)[i], items[i])
      ensures items[i].embedding.Some? ==> Attach(items, vecs)[i] == items[i]
    {
      AttachAt(items, vecs, i);
    }
  }

  /** The pending item at position `i` receives the vector whose index is the
      number of pending items before it, when the response has that many. */
  /** What `zip` gives an item whose turn among the pending items is `k`: the k-th
      vector, when it is pending and the response has one. */
  function Zipped(y: CodeItem, k: nat, vecs: seq<Vector>): CodeItem
  {
    if y.embedding.None? && k < |vecs| then y.(embedding := Some(vecs[k])) else y
  }

  lemma {:induction false} AttachAt(items: seq<CodeItem>, vecs: seq<Vector>, i: nat)
    requires i < |items|
    ensures Attach(items, vecs)[i] == Zipped(items[i], |Pending(items[..i])|, vecs)
  {
    if i == 0 {
      assert items[..0] == [];
    } else {
      var r := Attach(items, vecs);
      var rest := items[1..];
      var y := items[i];
      assert y == rest[i - 1];
      var k0 := |Pending(rest[..i - 1])|;
      var k := |Pending(items[..i])|;
      var used := items[0].embedding.None? && |vecs| > 0;
      var vs := if used then vecs[1..] else vecs;
      assert k == k0 + (if items[0].embedding.None? then 1 else 0) by {
        PendingPrefixCons(items, i);
      }
      assert r[i] == Attach(rest, vs)[i - 1] by {
        AttachTail(items, vecs);
        assert r[i] == r[1..][i - 1];
      }
      AttachAt(rest, vs, i - 1);
      assert Zipped(y, k0, vs) == Zipped(y, k, vecs);
    }
  }

  lemma AttachTail(items: seq<CodeItem>, vecs: seq<Vector>)
    requires |items| > 0
    ensures Attach(items, vecs)[1..] ==
      Attach(items[1..], if items[0].embedding.None? && |vecs| > 0 then vecs[1..] else vecs)
  {
  }

  lemma PendingPrefixCons(items: seq<CodeItem>, i: nat)
    requires 0 < i <= |items|
    ensures |Pending(items[..i])| == |Pending(items[1..][..i - 1])| + (if items[0].embedding.None? then 1 else 0)
  {
    assert items[..i] == [items[0]] + items[1..][..i - 1];
    PendingConcat([items[0]], items[1..][..i - 1]);
    assert [items[0]][1..] == [];
  }

  /** Only the pending items the response had no vector for stay pending. */
  lemma {:induction false} AttachLeavesPending(items: seq<CodeItem>, vecs: seq<Vector>)
    ensures |Pending(Attach(items, vecs))| ==
      if |vecs| >= |Pending(items)| then 0 else |Pending(items)| - |vecs|
  {
    if |items| > 0 {
      var r := Attach(items, vecs);
      if items[0].embedding.None? && |vecs| > 0 {
        AttachLeavesPending(items[1..], vecs[1..]);
        assert r[1..] == Attach(items[1..], vecs[1..]);
      } else {
        AttachLeavesPending(items[1..], vecs);
        assert r[1..] == Attach(items[1..], vecs);
      }
    }
  }

  /** What one `generate_embeddings` call did: the items afterwards, the batch
      sent (if any), the list written to the cache (if the write succeeded) and
      the message of the exception raised (if any). */
  datatype EmbedRun = EmbedRun(items: seq<CodeItem>, request: Option<seq<string>>, saved: Option<seq<CodeItem>>, error: Option<string>)

  const EmbedFailure := "Failed to generate embeddings: "

  /** `generate_embeddings`. `saveError` is the message `_save_cache` raises, if
      writing the cache fails. The items are updated before the cache is written,
      so they keep their new vectors when the write fails. */
  function GenerateEmbeddings(items: seq<CodeItem>, embed: Embedder, saveError: Option<string>): (run: EmbedRun)
    ensures run.request.Some? <==> |Pending(items)| > 0
    ensures run.request.None? ==> run == EmbedRun(items, None, None, None)
    ensures run.request.Some? ==> run.request.value == BatchInput(items)
    ensures |run.items| == |items|
    ensures forall i :: 0 <= i < |items| ==> SameItem(run.items[i], items[i])
    ensures forall i :: 0 <= i < |items| && items[i].embedding.Some? ==> run.items[i] == items[i]
    ensures run.request.Some? && embed(run.request.value).Err? ==>
      run.items == items && run.saved.None? && run.error == Some(EmbedFailure + embed(run.request.value).message)
    ensures run.request.Some? && embed(run.request.value).Ok? ==>
      && run.items == Attach(items, embed(run.request.value).value)
      && (run.error.None? <==> saveError.None?)
      && (run.error.None? ==> run.saved == Some(run.items))
      && (run.error.Some? ==> run.error.value == EmbedFailure + saveError.value)
  {
    if |items| == 0 then EmbedRun(items, None, None, None)
    else
      var pending := Pending(items);
      if |pending| == 0 then EmbedRun(items, None, None, None)
      else
        var input := BatchInput(items);
        match embed(input)
        case Err(e) => EmbedRun(items, Some(input), None, Some(EmbedFailure + e))
        case Ok(vecs) =>
          AttachKeeps(items, vecs);
          var updated := Attach(items, vecs);
          match saveError
          case None => EmbedRun(updated, Some(input), Some(updated), None)
          case Some(e) => EmbedRun(updated, Some(input), None, Some(EmbedFailure + e))
  }

  /** Embedding changes only vectors. */
  lemma GenerateKeepsItems(items: seq<CodeItem>, embed: Embedder, saveError: Option<string>)
    ensures Unembedded(GenerateEmbeddings(items, embed, saveError).items) == Unembedded(items)
  {
    SameItems(GenerateEmbeddings(items, embed, saveError).items, items);
  }

  /** A response with a vector for every text leaves nothing pending, so calling
      `generate_embeddings` again sends no request and changes nothing. */
  lemma GenerateTwice(items: seq<CodeItem>, embed: Embedder, saveError: Option<string>,
                      embed2: Embedder, saveError2: Option<string>)
    requires var run := GenerateEmbeddings(items, embed, saveError);
      run.request.Some? ==> embed(run.request.value).Ok? && |embed(run.request.value).value| >= |run.request.value|
    ensures var run := GenerateEmbeddings(items, embed, saveError);
      && Pending(run.items) == []
      && GenerateEmbeddings(run.items, embed2, saveError2) == EmbedRun(run.items, None, None, None)
  {
    var run := GenerateEmbeddings(items, embed, saveError);
    if run.request.Some? {
      AttachLeavesPending(items, embed(run.request.value).value);
    }
  }

  /** The cache file as `_load_cache` finds it. */
  datatype CacheFile = Missing | Stored(items: seq<CodeItem>) | Unreadable

  /** The items a new manager starts with: `[]`, replaced by the cached list when
      the file exists and unpickles, and `[]` again when reading it raises. */
  function LoadCache(f: CacheFile): (items: seq<CodeItem>)
    ensures f.Stored? ==> items == f.items
    ensures !f.Stored? ==> items == []
  {
    match f
    case Missing => []
    case Stored(items) => items
    case Unreadable => []
  }

  /** A manager created after a run that wrote the cache starts with exactly the
      items that run left, vectors included. */
  lemma CacheRoundTrip(items: seq<CodeItem>, embed: Embedder, saveError: Option<string>)
    ensures var run := GenerateEmbeddings(items, embed, saveError);
      run.saved.Some? ==> LoadCache(Stored(run.saved.value)) == run.items && run.error.None?
  {
  }

  /** The message of the `IndexError` raised by `response.data[k]` past the end. */
  const IndexError := "list index out of range"

  /** The loop of `find_similar` over the items: items without a vector are
      skipped; the first vector of another length than the query's raises; the
      others are kept, with their score, when the score reaches the threshold. */
  function Candidates(items: seq<CodeItem>, q: Vector, threshold: real, sqrt: real -> real): (r: Result<seq<Scored<CodeItem>>>)
    ensures r.Ok? ==> forall i :: 0 <= i < |r.value| ==>
      && r.value[i].item in items
      && r.value[i].item.embedding.Some?
      && Cosine(q, r.value[i].item.embedding.value, sqrt) == Ok(Real(r.value[i].score))
      && r.value[i].score >= threshold
    ensures r.Err? ==> exists i :: 0 <= i < |items| && items[i].embedding.Some? && |items[i].embedding.value| != |q|
  {
    if |items| == 0 then Ok([])
    else if items[0].embedding.None? then Candidates(items[1..], q, threshold, sqrt)
    else
      match Cosine(q, items[0].embedding.value, sqrt)
      case Err(e) => Err(e)
      case Ok(s) =>
        match Candidates(items[1..], q, threshold, sqrt)
        case Err(e) => Err(e)
        case Ok(rest) =>
          Ok((if AtLeast(s, threshold) then [Scored(items[0], s.value)] else []) + rest)
  }

  /** The loop raises only for a vector of the wrong length: when every vector
      has the query's length, it completes. */
  lemma {:induction false} CandidatesOk(items: seq<CodeItem>, q: Vector, threshold: real, sqrt: real -> real)
    requires forall i :: 0 <= i < |items| && items[i].embedding.Some? ==> |items[i].embedding.value| == |q|
    ensures Candidates(items, q, threshold, sqrt).Ok?
  {
    if |items| > 0 {
      CandidatesOk(items[1..], q, threshold, sqrt);
    }
  }

  /** Every embedded item whose score reaches the threshold is kept. */
  lemma {:induction false} CandidatesComplete(items: seq<CodeItem>, q: Vector, threshold: real, sqrt: real -> real, k: nat, x: real)
    requires Candidates(items, q, threshold, sqrt).Ok?
    requires k < |items| && items[k].embedding.Some?
    requires Cosine(q, items[k].embedding.value, sqrt) == Ok(Real(x)) && x >= threshold
    ensures Scored(items[k], x) in Candidates(items, q, threshold, sqrt).value
  {
    if items[0].embedding.None? {
      CandidatesComplete(items[1..], q, threshold, sqrt, k - 1, x);
    } else if k > 0 {
      CandidatesComplete(items[1..], q, threshold, sqrt, k - 1, x);
    }
  }

  const SearchFailure := "Failed to find similar items: "

  /** `find_similar(query, limit, threshold)`: the query is embedded alone; the
      kept items are sorted by descending score, ties in item order, and cut by
      `[:limit]`. Every exception is re-raised with the `SearchFailure` prefix. */
  function FindSimilar(items: seq<CodeItem>, query: string, limit: int, threshold: real,
                       embed: Embedder, sqrt: real -> real): (r: Result<seq<Scored<CodeItem>>>)
    ensures r.Ok? ==> embed([query]).Ok? && |embed([query]).value| > 0
    ensures r.Ok? ==> Descending(r.value)
    ensures r.Ok? && limit >= 0 ==> |r.value| <= limit
    ensures r.Ok? ==> forall i :: 0 <= i < |r.value| ==>
      && r.value[i].item in items
      && r.value[i].item.embedding.Some?
      && Cosine(embed([query]).value[0], r.value[i].item.embedding.value, sqrt) == Ok(Real(r.value[i].score))
      && r.value[i].score >= threshold
    ensures embed([query]).Err? ==> r == Err(SearchFailure + embed([query]).message)
    ensures embed([query]) == Ok([]) ==> r == Err(SearchFailure + IndexError)
  {
    match embed([query])
    case Err(e) => Err(SearchFailure + e)
    case Ok(vs) =>
      if |vs| == 0 then Err(SearchFailure + IndexError)
      else
        match Candidates(items, vs[0], threshold, sqrt)
        case Err(e) => Err(SearchFailure + e)
        case Ok(c) =>
          var top := Top(c, limit);
          assert forall i :: 0 <= i < |top| ==> top[i] in top;
          Ok(top)
  }

  /** The query vector, for a service that answered the query request. */
  function QueryVector(query: string, embed: Embedder): Vector
    requires embed([query]).Ok? && |embed([query]).value| > 0
  {
    embed([query]).value[0]
  }

  /** Top-k: an embedded item that reaches the threshold is returned, or else the
      result is full and every returned score is at least its own. */
  lemma FindSimilarTopK(items: seq<CodeItem>, query: string, limit: int, threshold: real,
                        embed: Embedder, sqrt: real -> real, k: nat, x: real)
    requires FindSimilar(items, query, limit, threshold, embed, sqrt).Ok? && limit >= 0
    requires k < |items| && items[k].embedding.Some?
    requires Cosine(QueryVector(query, embed), items[k].embedding.value, sqrt) == Ok(Real(x)) && x >= threshold
    ensures var r := FindSimilar(items, query, limit, threshold, embed, sqrt).value;
      || Scored(items[k], x) in r
      || (|r| == limit && forall i :: 0 <= i < |r| ==> r[i].score >= x)
  {
    var q := QueryVector(query, embed);
    var c := Candidates(items, q, threshold, sqrt);
    CandidatesComplete(items, q, threshold, sqrt, k, x);
    var sorted := SortByScore(c.value);
    SortPermutes(c.value);
    SortDescending(c.value);
    assert Scored(items[k], x) in multiset(sorted);
    var j :| 0 <= j < |sorted| && sorted[j] == Scored(items[k], x);
    var r := FindSimilar(items, query, limit, threshold, embed, sqrt).value;
    assert r == Top(c.value, limit) == Slice(sorted, limit);
    if j < |r| {
      assert r[j] == sorted[j];
    } else {
      assert forall i :: 0 <= i < |r| ==> r[i] == sorted[i];
    }
  }

  /** Results with equal scores come out in the order of the items: for every
      score, the returned results with it are a prefix of the kept items with it. */
  lemma FindSimilarTiesInItemOrder(items: seq<CodeItem>, query: string, limit: int, threshold: real,
                                   embed: Embedder, sqrt: real -> real, v: real)
    requires FindSimilar(items, query, limit, threshold, embed, sqrt).Ok?
    ensures var c := Candidates(items, QueryVector(query, embed), threshold, sqrt);
      var tied := WithScore(FindSimilar(items, query, limit, threshold, embed, sqrt).value, v);
      c.Ok? && tied <= WithScore(c.value, v)
  {
    var c := Candidates(items, QueryVector(query, embed), threshold, sqrt);
    var sorted := SortByScore(c.value);
    var r := FindSimilar(items, query, limit, threshold, embed, sqrt).value;
    assert r == Slice(sorted, limit) == Top(c.value, limit);
    assert sorted == r + sorted[|r|..];
    WithScoreConcat(r, sorted[|r|..], v);
    SortStable(c.value, v);
  }

  /** Three embedded items scoring 0.80, 0.95 and 0.92 against the query, searched
      with limit 2 and threshold 0.9: the two best, best first. */
  lemma FindSimilarExample(items: seq<CodeItem>, query: string, embed: Embedder, sqrt: real -> real, q: Vector)
    requires embed([query]) == Ok([q])
    requires |items| == 3 && forall i :: 0 <= i < 3 ==> items[i].embedding.Some?
    requires Cosine(q, items[0].embedding.value, sqrt) == Ok(Real(0.80))
    requires Cosine(q, items[1].embedding.value, sqrt) == Ok(Real(0.95))
    requires Cosine(q, items[2].embedding.value, sqrt) == Ok(Real(0.92))
    ensures FindSimilar(items, query, 2, 0.9, embed, sqrt) == Ok([Scored(items[1], 0.95), Scored(items[2], 0.92)])
  {
    var b := Scored(items[1], 0.95);
    var c := Scored(items[2], 0.92);
    var t1 := items[1..];
    var t2 := t1[1..];
    assert t1[0] == items[1] && t2[0] == items[2] && t2[1..] == [];
    assert Candidates(t2[1..], q, 0.9, sqrt) == Ok([]);
    assert AtLeast(Real(0.92), 0.9) && AtLeast(Real(0.95), 0.9) && !AtLeast(Real(0.80), 0.9);
    assert Cosine(q, t2[0].embedding.value, sqrt) == Ok(Real(0.92));
    assert [c] + [] == [c];
    assert Candidates(t2, q, 0.9, sqrt) == Ok([c]);
    assert Cosine(q, t1[0].embedding.value, sqrt) == Ok(Real(0.95));
    assert [b] + [c] == [b, c];
    assert Candidates(t1, q, 0.9, sqrt) == Ok([b, c]);
    assert [] + [b, c] == [b, c];
    assert Candidates(items, q, 0.9, sqrt) == Ok([b, c]);
    assert [b, c][1..] == [c];
    assert SortByScore([c]) == [c];
    assert SortByScore([b, c]) == [b, c];
  }

  /** A service with a vector for any text, embedding each text on its own:
      the answer to a batch is the vectors of its texts, in order. */
  ghost predicate Pointwise(embed: Embedder, f: string -> Vector)
  {
    forall xs :: embed(xs) == Ok(seq(|xs|, i requires 0 <= i < |xs| => f(xs[i])))
  }

  lemma PointwiseOne(embed: Embedder, f: string -> Vector, a: string)
    requires Pointwise(embed, f)
    ensures embed([a]) == Ok([f(a)])
  {
    var vs := seq(1, i requires 0 <= i < 1 => f([a][i]));
    assert embed([a]) == Ok(vs);
    assert vs == [f(a)];
  }

  lemma PointwiseTwo(embed: Embedder, f: string -> Vector, a: string, b: string)
    requires Pointwise(embed, f)
    ensures embed([a, b]) == Ok([f(a), f(b)])
  {
    var xs := [a, b];
    var vs := seq(2, i requires 0 <= i < 2 => f(xs[i]));
    assert embed(xs) == Ok(vs);
    assert vs[0] == f(a) && vs[1] == f(b);
    assert vs == [f(a), f(b)];
  }

  const SimilarityFailure := "Failed to calculate similarity: "

  /** `calculate_similarity(query, content)`: both texts are embedded in one
      request. */
  function CalculateSimilarity(query: string, content: string, embed: Embedder, sqrt: real -> real): (r: Result<Score>)
    ensures embed([query, content]).Err? ==> r == Err(SimilarityFailure + embed([query, content]).message)
    ensures embed([query, content]).Ok? && |embed([query, content]).value| < 2 ==> r == Err(SimilarityFailure + IndexError)
    ensures embed([query, content]).Ok? && |embed([query, content]).value| >= 2 ==>
      var vs := embed([query, content]).value;
      && (r.Ok? <==> |vs[0]| == |vs[1]|)
      && (r.Ok? ==> Cosine(vs[0], vs[1], sqrt) == r)
      && (r.Err? ==> r.message == SimilarityFailure + ShapeError(|vs[0]|, |vs[1]|))
  {
    match embed([query, content])
    case Err(e) => Err(SimilarityFailure + e)
    case Ok(vs) =>
      if |vs| < 2 then Err(SimilarityFailure + IndexError)
      else
        match Cosine(vs[0], vs[1], sqrt)
        case Err(e) => Err(SimilarityFailure + e)
        case Ok(s) => Ok(s)
  }

  /** With a pointwise service, the similarity of two texts whose vectors have the
      same length does not depend on their order. */
  lemma CalculateSimilaritySymmetric(a: string, b: string, embed: Embedder, f: string -> Vector, sqrt: real -> real)
    requires Pointwise(embed, f)
    requires |f(a)| == |f(b)|
    ensures CalculateSimilarity(a, b, embed, sqrt) == CalculateSimilarity(b, a, embed, sqrt)
  {
    PointwiseTwo(embed, f, a, b);
    PointwiseTwo(embed, f, b, a);
    CosineSymmetric(f(a), f(b), sqrt);
  }

  /** With a pointwise service, a text whose vector has a positive norm is
      perfectly similar to itself. */
  lemma CalculateSimilaritySelf(a: string, embed: Embedder, f: string -> Vector, sqrt: real -> real)
    requires Pointwise(embed, f) && IsSqrt(sqrt)
    requires Dot(f(a), f(a)) > 0.0
    ensures CalculateSimilarity(a, a, embed, sqrt) == Ok(Real(1.0))
  {
    PointwiseTwo(embed, f, a, a);
    CosineSelf(f(a), sqrt);
  }

  /** With a pointwise service, the score `find_similar` reports for an item whose
      vector came from the same service is what `calculate_similarity` gives for
      the query and the item's text. */
  lemma SearchScoreIsSimilarity(items: seq<CodeItem>, query: string, limit: int, threshold: real,
                                embed: Embedder, f: string -> Vector, sqrt: real -> real, i: nat)
    requires Pointwise(embed, f)
    requires FindSimilar(items, query, limit, threshold, embed, sqrt).Ok?
    requires i < |FindSimilar(items, query, limit, threshold, embed, sqrt).value|
    requires var it := FindSimilar(items, query, limit, threshold, embed, sqrt).value[i].item;
      it.embedding == Some(f(ItemText(it)))
    ensures var hit := FindSimilar(items, query, limit, threshold, embed, sqrt).value[i];
      CalculateSimilarity(query, ItemText(hit.item), embed, sqrt) == Ok(Real(hit.score))
  {
    var hit := FindSimilar(items, query, limit, threshold, embed, sqrt).value[i];
    PointwiseOne(embed, f, query);
    PointwiseTwo(embed, f, query, ItemText(hit.item));
  }
}
