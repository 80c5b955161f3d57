/** The `start` command's indexing: analyse the files, hand the node list to a
    new `EmbeddingManager` (which begins with the cached items) and embed what is
    pending. Two defects of that composition are modelled as written and next to
    a corrected version: nested declarations are indexed more than once, and each
    run appends another copy of every item to the cached ones. */
module Pipeline {
  import opened Wrappers
  import opened DeclNodes
  import opened Analysis
  import opened AnalysisProofs
  import opened SemanticIndex
  import opened Scopes
  import Scenarios

  /** Every file's top-level declarations, expanded into their subtrees, are all
      the nodes `analyze` returns. */
  lemma {:induction false} RootsCoverAll(files: seq<SourceFile>)
    ensures Subtrees(AllFileRootDicts(files)) == AllFileDicts(files)
  {
    if |files| > 0 {
      RootsCoverAll(files[1..]);
      FileDictsMatchScan(files[0]);
      SubtreesConcat(FileRootDicts(files[0]), AllFileRootDicts(files[1..]));
    }
  }

  // ----- Declarations indexed once per enclosing declaration -----

  /** The items `start` builds on an empty cache, as written: `analyze` lists
      every declaration, each serialised with its children, and
      `process_analysis_results` recurses into those children again. */
  function IndexAsWritten(files: seq<SourceFile>): seq<CodeItem>
  {
    ProcessAnalysisResults([], Analyze(files).nodes)
  }

  /** As written, the index holds an item for every node of every subtree of
      every listed node: a declaration at depth `d` appears `d + 1` times. */
  lemma IndexAsWrittenRepeats(files: seq<SourceFile>)
    ensures IndexAsWritten(files) == ItemsOf(Subtrees(Analyze(files).nodes))
    ensures |IndexAsWritten(files)| == SizeAll(Analyze(files).nodes)
  {
    ProcessAppendsPreorder([], Analyze(files).nodes);
  }

  lemma OneFileNodes(f: SourceFile)
    requires f.tree.Some?
    ensures Analyze([f]).nodes == Subtrees(Scan(f.tree.value, f.path).decls)
  {
    AnalyzeCollectsEveryFile([f]);
    assert [f][1..] == [];
  }

  /** A file holding one declaration `outer` with one leaf declaration `inner`
      inside is analysed to those two nodes. */
  lemma OneNestedPair(tree: PyAst.Node, outer: NodeDict, inner: NodeDict)
    requires Scan(tree, "<string>").decls == [outer]
    requires outer.children == [inner] && inner.children == []
    ensures Analyze([SourceFile("<string>", Some(tree))]).nodes == [outer, inner]
  {
    assert Subtrees([outer]) == [outer, inner] by {
      SubtreesOfOne(outer);
      SubtreesOfOne(inner);
    }
    OneFileNodes(SourceFile("<string>", Some(tree)));
  }

  lemma FooAnalyzed(tree: PyAst.Node)
    requires tree == Scenarios.FooModule()
    ensures Analyze([SourceFile("<string>", Some(tree))]).nodes == [Scenarios.FooDict(), Scenarios.BarDict()]
  {
    Scenarios.FooScan(tree);
    OneNestedPair(tree, Scenarios.FooDict(), Scenarios.BarDict());
  }

  /** `class Foo` with one method `bar`: two declarations, three items, the
      method twice. */
  lemma MethodIndexedTwice(tree: PyAst.Node)
    requires tree == Scenarios.FooModule()
    ensures var items := IndexAsWritten([SourceFile("<string>", Some(tree))]);
      && |Analyze([SourceFile("<string>", Some(tree))]).nodes| == 2
      && |items| == 3
      && items[0].name == "Foo" && items[1].name == "bar"
      && items[2] == items[1]
  {
    var files := [SourceFile("<string>", Some(tree))];
    FooAnalyzed(tree);
    NestedPairIndexed(files, Scenarios.FooDict(), Scenarios.BarDict());
    Scenarios.FooBarHeaders();
  }

  /** A file whose analysis lists a declaration and its one nested declaration
      yields three items, the nested one twice. */
  lemma NestedPairIndexed(files: seq<SourceFile>, outer: NodeDict, inner: NodeDict)
    requires Analyze(files).nodes == [outer, inner]
    requires outer.children == [inner] && inner.children == []
    ensures IndexAsWritten(files) == [ItemOf(outer), ItemOf(inner), ItemOf(inner)]
  {
    IndexAsWrittenRepeats(files);
    PairItems(outer, inner);
  }

  /** The subtrees of a declaration with one leaf inside, followed by that leaf,
      yield three items, the leaf's twice. */
  lemma PairItems(outer: NodeDict, inner: NodeDict)
    requires outer.children == [inner] && inner.children == []
    ensures ItemsOf(Subtrees([outer, inner])) == [ItemOf(outer), ItemOf(inner), ItemOf(inner)]
  {
    assert Subtrees([outer, inner]) == [outer, inner, inner] by {
      SubtreesConcat([outer], [inner]);
      assert [outer] + [inner] == [outer, inner];
      SubtreesOfOne(outer);
      SubtreesOfOne(inner);
    }
    var l := ItemsOf([outer, inner, inner]);
    assert l[0] == ItemOf(outer) && l[1] == ItemOf(inner) && l[2] == ItemOf(inner);
  }

  /** The items built from the top-level declarations only, which the recursion
      of `process_analysis_results` expands to every declaration once. */
  function Index(files: seq<SourceFile>): seq<CodeItem>
  {
    ProcessAnalysisResults([], AnalyzeRoots(files).nodes)
  }

  /** One item per node `analyze` returns, in the same order. */
  lemma IndexOncePerDeclaration(files: seq<SourceFile>)
    ensures Index(files) == ItemsOf(Analyze(files).nodes)
    ensures |Index(files)| == |Analyze(files).nodes|
  {
    ProcessAppendsPreorder([], AnalyzeRoots(files).nodes);
    RootsCoverAll(files);
  }

  // ----- Every run appends to the cached items -----

  /** The indexing half of `start`, on the node list `analyze` returned: a new
      manager begins with the cached items and appends the processed nodes. */
  function StartOn(cache: CacheFile, nodes: seq<NodeDict>, embed: Embedder, saveError: Option<string>): EmbedRun
  {
    GenerateEmbeddings(ProcessAnalysisResults(LoadCache(cache), nodes), embed, saveError)
  }

  /** `start` as written. */
  function StartAsWritten(cache: CacheFile, files: seq<SourceFile>, embed: Embedder, saveError: Option<string>): EmbedRun
  {
    StartOn(cache, Analyze(files).nodes, embed, saveError)
  }

  /** The cached items with a vector keep it and their place. */
  lemma CachedVectorsKept(cached: seq<CodeItem>, nodes: seq<NodeDict>, embed: Embedder, saveError: Option<string>)
    ensures var items := StartOn(Stored(cached), nodes, embed, saveError).items;
      forall i :: 0 <= i < |cached| && cached[i].embedding.Some? ==> i < |items| && items[i] == cached[i]
  {
    var input := ProcessAnalysisResults(cached, nodes);
    ProcessAppendsPreorder(cached, nodes);
    assert forall i :: 0 <= i < |cached| ==> input[i] == input[..|cached|][i];
  }

  /** A run after `cached` holds the cached items followed by one item per node
      of the subtrees of `nodes`. */
  lemma AppendedAfterCache(cached: seq<CodeItem>, nodes: seq<NodeDict>, embed: Embedder, saveError: Option<string>)
    ensures Unembedded(StartOn(Stored(cached), nodes, embed, saveError).items) == Unembedded(cached) + ItemsOf(Subtrees(nodes))
  {
    var p := ItemsOf(Subtrees(nodes));
    var input := ProcessAnalysisResults(cached, nodes);
    assert input == cached + p by {
      ProcessAppendsPreorder(cached, nodes);
      assert input == input[..|cached|] + input[|cached|..];
    }
    assert Unembedded(input) == Unembedded(cached) + p by {
      UnembeddedConcat(cached, p);
      UnembeddedNew(p);
    }
    assert StartOn(Stored(cached), nodes, embed, saveError) == GenerateEmbeddings(input, embed, saveError);
    GenerateKeepsItems(input, embed, saveError);
  }

  /** Running the indexing twice on the same nodes doubles the index: the second
      run keeps every item of the first, vectors included, and appends the same
      items again. */
  lemma RestartOnDuplicates(nodes: seq<NodeDict>, embed: Embedder, saveError: Option<string>,
                            embed2: Embedder, saveError2: Option<string>)
    ensures var first := StartOn(Missing, nodes, embed, saveError).items;
      var second := StartOn(Stored(first), nodes, embed2, saveError2).items;
      && Unembedded(first) == ItemsOf(Subtrees(nodes))
      && Unembedded(second) == Unembedded(first) + Unembedded(first)
      && (forall i :: 0 <= i < |first| && first[i].embedding.Some? ==> i < |second| && second[i] == first[i])
  {
    AppendedAfterCache([], nodes, embed, saveError);
    assert Unembedded([]) == [];
    assert StartOn(Missing, nodes, embed, saveError) == StartOn(Stored([]), nodes, embed, saveError);
    var first := StartOn(Missing, nodes, embed, saveError).items;
    AppendedAfterCache(first, nodes, embed2, saveError2);
    CachedVectorsKept(first, nodes, embed2, saveError2);
  }

  /** Running `start` twice on unchanged files doubles the cached index. */
  lemma RestartDuplicatesIndex(files: seq<SourceFile>, embed: Embedder, embed2: Embedder)
    ensures var first := StartAsWritten(Missing, files, embed, None).items;
      var second := StartAsWritten(Stored(first), files, embed2, None).items;
      && Unembedded(first) == IndexAsWritten(files)
      && Unembedded(second) == IndexAsWritten(files) + IndexAsWritten(files)
  {
    RestartOnDuplicates(Analyze(files).nodes, embed, None, embed2, None);
    IndexAsWrittenRepeats(files);
  }

  /** The cached vector of the first cached item that differs from `item` at most
      in its vector, if there is one. */
  function Reuse(cached: seq<CodeItem>, item: CodeItem): (r: CodeItem)
    ensures SameItem(r, item)
    ensures r.embedding.Some? ==> item.embedding.Some? || exists j :: 0 <= j < |cached| && SameItem(cached[j], item) && cached[j].embedding == r.embedding
  {
    if |cached| == 0 then item
    else if SameItem(cached[0], item) && cached[0].embedding.Some? then item.(embedding := cached[0].embedding)
    else Reuse(cached[1..], item)
  }

  /** A cached item with a vector is found. */
  lemma {:induction false} ReuseFinds(cached: seq<CodeItem>, item: CodeItem, j: nat)
    requires j < |cached| && SameItem(cached[j], item) && cached[j].embedding.Some?
    ensures Reuse(cached, item).embedding.Some?
  {
    if j > 0 && !(SameItem(cached[0], item) && cached[0].embedding.Some?) {
      ReuseFinds(cached[1..], item, j - 1);
    }
  }

  function Refresh(cached: seq<CodeItem>, current: seq<CodeItem>): (r: seq<CodeItem>)
    ensures |r| == |current|
    ensures forall i :: 0 <= i < |current| ==> SameItem(r[i], current[i])
  {
    seq(|current|, i requires 0 <= i < |current| => Reuse(cached, current[i]))
  }

  /** `start` with the index rebuilt from the analysis, one item per declaration,
      taking each unchanged item's vector from the cache. */
  function Start(cache: CacheFile, files: seq<SourceFile>, embed: Embedder, saveError: Option<string>): EmbedRun
  {
    GenerateEmbeddings(Refresh(LoadCache(cache), Index(files)), embed, saveError)
  }

  /** Whatever the cache holds, the index after `start` has one item per
      declaration of the files, in the order `analyze` lists them. */
  lemma StartIndexesEachDeclarationOnce(cache: CacheFile, files: seq<SourceFile>, embed: Embedder, saveError: Option<string>)
    ensures Unembedded(Start(cache, files, embed, saveError).items) == ItemsOf(Analyze(files).nodes)
  {
    IndexOncePerDeclaration(files);
    var current := Index(files);
    UnembeddedNew(current);
    var input := Refresh(LoadCache(cache), current);
    SameItems(input, current);
    GenerateKeepsItems(input, embed, saveError);
  }

  /** A second `start` on unchanged files, after a first whose response covered
      every item and whose cache was written, embeds nothing and keeps the index:
      every item has a vector, and only vectors can differ. */
  lemma RestartReusesCache(files: seq<SourceFile>, cache: CacheFile, embed: Embedder, saveError: Option<string>,
                           embed2: Embedder, saveError2: Option<string>)
    requires var run := Start(cache, files, embed, saveError);
      && run.saved.Some?
      && (run.request.Some? ==> |embed(run.request.value).value| >= |run.request.value|)
    ensures var first := Start(cache, files, embed, saveError).items;
      var second := Start(Stored(first), files, embed2, saveError2);
      && second.request.None?
      && Unembedded(second.items) == Unembedded(first)
      && forall i :: 0 <= i < |second.items| ==> second.items[i].embedding.Some?
  {
    var run := Start(cache, files, embed, saveError);
    var first := run.items;
    var current := Index(files);
    var input := Refresh(LoadCache(cache), current);
    GenerateTwice(input, embed, saveError, embed2, saveError2);
    PendingEmpty(first);
    var again := Refresh(first, current);
    forall i | 0 <= i < |current|
      ensures again[i].embedding.Some?
    {
      ReuseFinds(first, current[i], i);
    }
    PendingEmpty(again);
    SameItems(again, current);
    SameItems(input, current);
    GenerateKeepsItems(input, embed, saveError);
  }
}
