/** Driving the builder over files (`ASTAnalyzer.analyze`, `_analyze_file` and
    `analyze_string`). Reading and parsing a file are outside the model: a source
    file arrives as its syntax tree, or as nothing when reading or parsing raised. */
module Analysis {
  import opened Wrappers
  import opened PyAst
  import opened DeclNodes
  import opened Builder
  import BuilderProofs

  /** One discovered file: its path and, unless reading or parsing failed, its tree. */
  datatype SourceFile = SourceFile(path: string, tree: Option<Node>)

  /** The dictionary `analyze` returns: `files` and `nodes`. */
  datatype AnalysisResult = AnalysisResult(files: seq<string>, nodes: seq<NodeDict>)

  /** What `_analyze_file` adds to `ast_nodes`, already serialised with `to_dict`:
      every node the visitor created, or nothing when the file failed. */
  function FileDicts(f: SourceFile): seq<NodeDict>
  {
    match f.tree
    case Some(t) => ToDictAll(Build(f.path, t))
    case None => []
  }

  function AllFileDicts(files: seq<SourceFile>): seq<NodeDict>
  {
    if |files| == 0 then [] else FileDicts(files[0]) + AllFileDicts(files[1..])
  }

  function Paths(files: seq<SourceFile>): (r: seq<string>)
    ensures |r| == |files|
    ensures forall i :: 0 <= i < |files| ==> r[i] == files[i].path
  {
    if |files| == 0 then [] else [files[0].path] + Paths(files[1..])
  }

  /** `ASTAnalyzer.analyze` over the discovered files, in discovery order. A file
      that fails is still listed under `files` but contributes no node. */
  function Analyze(files: seq<SourceFile>): (r: AnalysisResult)
    ensures |r.files| == |files|
    ensures forall i :: 0 <= i < |files| ==> r.files[i] == files[i].path
    ensures |files| == 0 ==> r.nodes == []
  {
    if |files| == 0 then AnalysisResult([], [])
    else AnalysisResult(Paths(files), AllFileDicts(files))
  }

  /** `ASTAnalyzer.analyze_string`: `tree` is absent when `ast.parse` raised. */
  function AnalyzeString(tree: Option<Node>): (r: AnalysisResult)
    ensures tree.None? ==> r.files == [] && r.nodes == []
    ensures tree.Some? ==> r.files == ["<string>"] && |r.nodes| == |Build("<string>", tree.value)|
  {
    match tree
    case Some(t) => AnalysisResult(["<string>"], ToDictAll(Build("<string>", t)))
    case None => AnalysisResult([], [])
  }

  /** Serialised top-level declarations of a file only: the nodes created while no
      scope was open. */
  function FileRootDicts(f: SourceFile): seq<NodeDict>
  {
    match f.tree
    case Some(t) =>
      var arena := Build(f.path, t);
      var roots := BuilderProofs.Parentless(arena, 0, |arena|);
      seq(|roots|, k requires 0 <= k < |roots| => ToDict(arena, roots[k]))
    case None => []
  }

  function AllFileRootDicts(files: seq<SourceFile>): seq<NodeDict>
  {
    if |files| == 0 then [] else FileRootDicts(files[0]) + AllFileRootDicts(files[1..])
  }

  /** `analyze` returning only each file's top-level declarations, so that every
      declaration appears once, inside its parent's `children`. */
  function AnalyzeRoots(files: seq<SourceFile>): AnalysisResult
  {
    if |files| == 0 then AnalysisResult([], [])
    else AnalysisResult(Paths(files), AllFileRootDicts(files))
  }
}
