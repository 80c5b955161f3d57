# jo: declaration trees and the semantic index, in Dafny

This project models the two pure pieces of the `git_analyzer` package and proves
properties about them.

- **The declaration-tree builder** (`ASTVisitor` and `ASTNode` in `git_analyzer/analyzer.py`).
  - It walks a Python syntax tree depth-first with an explicit scope stack.
  - It creates one node per class, function or async function.
  - It attaches each node to the innermost open scope, or makes it a root when no scope is open.
  - It records every call and assignment against the innermost scope only.
  - It serialises nodes with `to_dict`.
- **The semantic index** (`CodeItem` and `EmbeddingManager` in `git_analyzer/embeddings.py`).
  - It turns serialised declarations into code items with a textual digest.
  - It embeds the items that have no vector in one batch.
  - It loads the item list from a cache.
  - It answers similarity queries: filter by threshold, stable sort by descending score, cut to `limit`.

How the model is built:
- The builder's mutable visitor is a `Visitor` value threaded through pure functions (`Builder.Visit`).
  - The flat node list doubles as an arena.
  - Parent and child links are arena indices, so the serialised tree has no cycle.
- A stack-free reference (`Scopes.Scan`) says what every piece of syntax contributes to the scope around it.
  - The central theorem, `BuilderProofs.VisitEffect`, shows the visitor has exactly that effect.
- The embeddings service, the cache file and the square root used by the norms are inputs:
  - `embed` maps a batch of texts to vectors, or to the message of the exception it raised.
  - `CacheFile` is missing, stored or unreadable.
  - `sqrt` is a parameter.
- Floats are reals. A norm product of zero yields NaN, as numpy's `0.0 / 0.0` does, and NaN passes no threshold.
- Module `Pipeline` composes `analyze` with the index the way the `start` command of `git_analyzer/cli.py` does. The findings below come from it.

Files:
- `wrappers.dfy`, `strings.dfy`: `Option`/`Result`, and Python's `join`, `split` and `str(int)`.
- `pyast.dfy`, `names.dfy`: syntax trees, `_get_name`, `_get_arguments`.
- `declnodes.dfy`: `ASTNode`, `to_dict`.
- `builder.dfy`, `scopes.dfy`, `builderproofs.dfy`: the visitor, its reference, and the proof that they agree.
- `analysis.dfy`, `analysisproofs.dfy`: `analyze` and `analyze_string`.
- `scenarios.dfy`: concrete trees.
- `content.dfy`, `similarity.dfy`, `ranking.dfy`, `index.dfy`: the digest, the cosine, the ordering, and `EmbeddingManager`.
- `pipeline.dfy`: the `start` command.

## Model

| member | source | states |
|---|---|---|
| DeclNodes.ToDict | git_analyzer/analyzer.py:31-49 | the dictionary of a node carries its header, calls and assignments unchanged, and one serialised child per child, in order; there is no parent field |
| DeclNodes.ToDictAll | git_analyzer/analyzer.py:229-232 | one dictionary per created node, in creation order |
| Builder.Start | git_analyzer/analyzer.py:53-58 | a new visitor for a file has that file path, no node and no open scope |
| Builder.DeclHeader | git_analyzer/analyzer.py:60-136 | a declaration's node takes its name, file, docstring and start position, and the kind class, function or async function by its syntax class; an end line or column that is absent or 0 becomes the start line or column 0, any other is kept; decorators are rendered by `_get_name`, one per decorator; a class records its rendered bases and no arguments or return type; a function records no bases, its `_get_arguments` rendering and its rendered return annotation when it has one |
| Builder.AddNode | git_analyzer/analyzer.py:149-155 | the new node is appended exactly once, with the innermost scope as its parent; that scope gains it as its last child; no other node changes |
| Builder.OpenScope | git_analyzer/analyzer.py:78-82 | creating a declaration appends exactly one node, built from its header with the innermost scope as parent and no children, calls or assignments; that scope gains it as its last child, every other node is unchanged, and the new node is pushed as the innermost scope |
| Builder.CloseScope | git_analyzer/analyzer.py:88-89 | leaving a declaration pops exactly one scope and changes no node |
| Builder.RecordCall | git_analyzer/analyzer.py:99-103 | with a scope open, the callee's name is appended to the innermost scope's calls and no other node changes; with none, nothing changes |
| Builder.RecordAssigns | git_analyzer/analyzer.py:106-111 | with a scope open, the targets' names are appended to the innermost scope's assignments in order and no other node changes; with none, nothing changes |
| Builder.Visit | git_analyzer/analyzer.py:84-89 | visiting any syntax leaves the scope stack as it found it and never removes a node |
| BuilderProofs.ScopeEffect | git_analyzer/analyzer.py:114-147 | a declaration contributes one node to the scope around it, whose calls, assignments and children are exactly what its body contributes |
| BuilderProofs.VisitEffect | git_analyzer/analyzer.py:60-112 | visiting any syntax has exactly the effect the stack-free reference describes: new nodes laid out in pre-order under the innermost scope, that scope extended by the recorded calls, assignments and children, every other node unchanged |
| BuilderProofs.DeclEffect | git_analyzer/analyzer.py:60-147 | a class, function or async function definition has the reference effect: its node and then its body's nodes are appended in pre-order, and the innermost scope, if any, gains it as its last child |
| BuilderProofs.CallEffect | git_analyzer/analyzer.py:99-104 | a call has the reference effect: the callee's rendered name is appended to the innermost scope's calls, then whatever its children record |
| BuilderProofs.AssignEffect | git_analyzer/analyzer.py:106-112 | an assignment has the reference effect: the targets' rendered names are appended to the innermost scope's assignments, then whatever its children record |
| AnalysisProofs.BuildMatchesScan | git_analyzer/analyzer.py:260-267 | after visiting a whole module the scope stack is empty again; the flat list serialises to the pre-order subtrees of the declaration forest, and its parentless nodes to the forest itself |
| AnalysisProofs.FlatListIsPreorder | git_analyzer/analyzer.py:155 | an arena that encodes a declaration forest from index 0 serialises, node by node, to the forest's subtrees in pre-order: each declaration before its descendants, siblings in body order |
| AnalysisProofs.FlatListParentless | git_analyzer/analyzer.py:149-155 | in an arena that encodes a declaration forest, the nodes without a parent are exactly the roots of the forest's trees, in order |
| AnalysisProofs.FlatListRoots | git_analyzer/analyzer.py:31-49 | each of those parentless nodes serialises to its declaration tree, children and descendants included |
| AnalysisProofs.VisitAttributesToInnermost | git_analyzer/analyzer.py:99-112 | calls and assignments go to the innermost open scope only, in order, and no ancestor or other node changes |
| AnalysisProofs.InnermostCalls | git_analyzer/analyzer.py:99-104 | visiting any syntax extends the innermost scope's calls by exactly the calls the reference records, keeping the earlier ones in front |
| AnalysisProofs.InnermostAssignments | git_analyzer/analyzer.py:106-112 | visiting any syntax extends the innermost scope's assignments by exactly the assignments the reference records, keeping the earlier ones in front |
| AnalysisProofs.CallRecordsCalleeFirst | git_analyzer/analyzer.py:99-104 | the first name a call adds to the innermost scope is `_get_name` of its callee; names from its arguments come after it |
| AnalysisProofs.AssignRecordsTargets | git_analyzer/analyzer.py:106-112 | an assignment records one rendered name per target, in target order |
| AnalysisProofs.NoScopeRecordsNothing | git_analyzer/analyzer.py:101-108 | with no scope open, calls and assignments are recorded nowhere |
| AnalysisProofs.AnalyzeStringMatchesScan | git_analyzer/analyzer.py:234-243 | `analyze_string` lists `<string>` and the pre-order subtrees of the declarations |
| AnalysisProofs.AnalyzeCollectsEveryFile | git_analyzer/analyzer.py:205-232 | `analyze` lists every file's path, in discovery order, and concatenates the files' pre-order subtrees in discovery order; a file that fails contributes no node |
| AnalysisProofs.FileDictsMatchScan | git_analyzer/analyzer.py:260-267 | one parsed file contributes the pre-order subtrees of its declarations, and its parentless nodes are its top-level declarations |
| Analysis.Analyze | git_analyzer/analyzer.py:205-232 | `files` lists every discovered file's path, in order; no file gives no node; the nodes are stated by `AnalysisProofs.AnalyzeCollectsEveryFile` |
| Analysis.AnalyzeString | git_analyzer/analyzer.py:234-246 | code that fails to parse gives no file and no node; parsed code is listed as `<string>` with one dictionary per created node, which `AnalysisProofs.AnalyzeStringMatchesScan` characterises |
| Names.GetNames | git_analyzer/analyzer.py:70 | one rendered name per expression, in order |
| Names.GetName | git_analyzer/analyzer.py:185-197 | `_get_name` as a closed dispatch; no contract of its own, its behaviour is stated by `Names.GetNameDotted`, `Names.GetNameDottedSplits`, `Names.GetNameSeesThroughCalls` and `Strings.IntToStringRoundTrip` |
| Names.GetNameDotted | git_analyzer/analyzer.py:189-190 | an attribute chain `a.b.c` renders as its parts joined by dots |
| Names.GetNameDottedSplits | git_analyzer/analyzer.py:187-190 | splitting a rendered attribute chain at the dots gives back its parts, so different chains render differently |
| Names.GetNameSeesThroughCalls | git_analyzer/analyzer.py:195-196 | a call renders as its innermost non-call callee, however deeply calls nest |
| Names.RenderArgs | git_analyzer/analyzer.py:162-166 | one entry per parameter, `name` or `name: T` |
| Names.GetArguments | git_analyzer/analyzer.py:157-183 | one entry per parameter, counting `*vararg` and `**kwarg` when present; the order of the entries is stated by `Names.GetArgumentsOrder` |
| Names.GetArgumentsOrder | git_analyzer/analyzer.py:157-183 | positional-only, then positional, `*vararg`, keyword-only, `**kwarg`; one entry per parameter |
| Strings.IntToStringRoundTrip | git_analyzer/analyzer.py:193-194 | `str(n)` of an integer literal parses back to `n` |
| Scenarios.FooBarExample | git_analyzer/analyzer.py:60-147 | a class with one method gives two nodes, the method as the class's child; bases, parameters, return type and the method's call are rendered |
| Scenarios.NestedCallsInOrder | git_analyzer/analyzer.py:99-104 | `f1(g(x))` records `f1` before `g` |
| Scenarios.InnerFunctionOwnsItsCalls | git_analyzer/analyzer.py:138-147 | a call inside a nested function belongs to that function only; after it, calls belong to the outer function again |
| Scenarios.DecoratorsAndDefaultsNotVisited | git_analyzer/analyzer.py:132-144 | calls in decorators and defaults are never recorded; a call in a lambda belongs to the enclosing function |
| Scenarios.MissingEndPositionDefaults | git_analyzer/analyzer.py:66-68 | a node without an end position ends on its first line at column 0 |
| Scenarios.BarContent | git_analyzer/embeddings.py:61-93 | a method with parameters, a return type and one call is embedded by exactly those three parts, in that order |
| Content.ContentParts | git_analyzer/embeddings.py:63-91 | the parts of the digest are exactly the truthy fields, each once, in the fixed order Description, Parameters, Returns, Inherits from, Calls, Assigns |
| Content.ContentEmptyIff | git_analyzer/embeddings.py:61-93 | the digest is empty if and only if no field is truthy |
| Content.SinglePart | git_analyzer/embeddings.py:65-93 | with one truthy field, the digest is that field's label and value alone; lists are shown joined by `", "` |
| Content.ExtractContent | git_analyzer/embeddings.py:61-93 | the digest of a node; no contract of its own, its parts and their order are stated by `Content.ContentParts`, `Content.ContentEmptyIff` and `Content.SinglePart` |
| SemanticIndex.AddItem | git_analyzer/embeddings.py:38-40 | the list grows by one, the new item is last and earlier items are unchanged |
| SemanticIndex.ProcessAnalysisResults | git_analyzer/embeddings.py:42-59 | no contract of its own; `SemanticIndex.ProcessNodesAppends` and `SemanticIndex.ProcessAppendsPreorder` state that it appends one vector-less item per node of every tree, in pre-order |
| SemanticIndex.ProcessNodesAppends | git_analyzer/embeddings.py:44-59 | processing appends one item per node of every given tree, in pre-order |
| SemanticIndex.ProcessAppendsPreorder | git_analyzer/embeddings.py:42-59 | existing items are kept; the number appended is the total tree size; every new item has no vector |
| SemanticIndex.Pending | git_analyzer/embeddings.py:101 | an item is pending exactly when it is in the list and has no vector |
| SemanticIndex.PendingEmpty | git_analyzer/embeddings.py:101-103 | nothing is pending exactly when every item has a vector |
| SemanticIndex.Texts | git_analyzer/embeddings.py:108 | one `"<name>: <content>"` text per item, in order |
| SemanticIndex.AttachKeeps | git_analyzer/embeddings.py:112-113 | attaching vectors changes only vectors, and never the vector of an item that had one |
| SemanticIndex.Attach | git_analyzer/embeddings.py:111-113 | zipping vectors into the pending items keeps the number of items; which item gets which vector is stated by `SemanticIndex.AttachAt` |
| SemanticIndex.AttachAt | git_analyzer/embeddings.py:112-113 | the k-th pending item gets the k-th vector, and keeps none when the response is shorter |
| SemanticIndex.AttachLeavesPending | git_analyzer/embeddings.py:112-113 | after attaching, the number of pending items is the shortfall of the response |
| SemanticIndex.GenerateEmbeddings | git_analyzer/embeddings.py:95-119 | no request when nothing is pending; otherwise one request with the pending texts; a failed request changes no item, saves nothing and raises with the prefix; otherwise vectors are zipped back in order and the updated list is saved, or the save error is raised |
| SemanticIndex.GenerateKeepsItems | git_analyzer/embeddings.py:111-113 | embedding changes only vectors |
| SemanticIndex.GenerateTwice | git_analyzer/embeddings.py:97-103 | after a response that covers every pending item, a second call sends no request and changes nothing |
| SemanticIndex.LoadCache | git_analyzer/embeddings.py:177-185 | a stored list is loaded as is; a missing or unreadable file gives the empty list |
| SemanticIndex.CacheRoundTrip | git_analyzer/embeddings.py:171-185 | a manager created after a run that wrote the cache starts with exactly that run's items |
| SemanticIndex.Candidates | git_analyzer/embeddings.py:132-139 | each kept pair is an embedded item with its cosine score, which reaches the threshold; the loop raises only for a vector whose length differs from the query's |
| SemanticIndex.CandidatesOk | git_analyzer/embeddings.py:136 | when every vector has the query's length, the loop completes |
| SemanticIndex.CandidatesComplete | git_analyzer/embeddings.py:132-139 | every embedded item whose score reaches the threshold is kept |
| SemanticIndex.FindSimilar | git_analyzer/embeddings.py:121-146 | results are descending, at most `limit` of them, each an embedded item whose score is its cosine with the query and reaches the threshold; service failures and an empty response raise with the prefix |
| SemanticIndex.FindSimilarTopK | git_analyzer/embeddings.py:141-142 | an embedded item that reaches the threshold is returned, unless `limit` results all score at least as much |
| SemanticIndex.FindSimilarTiesInItemOrder | git_analyzer/embeddings.py:141 | results with equal scores come out in item order |
| SemanticIndex.FindSimilarExample | git_analyzer/embeddings.py:121-143 | scores 0.80, 0.95 and 0.92 with limit 2 and threshold 0.9 give the 0.95 and 0.92 items, in that order |
| SemanticIndex.CalculateSimilarity | git_analyzer/embeddings.py:152-169 | one request for `[query, content]`; the result is the cosine of the first two vectors; a short response or a service error raises with the prefix |
| SemanticIndex.CalculateSimilaritySymmetric | git_analyzer/embeddings.py:152-166 | with a service that embeds each text on its own, swapping the two texts gives the same result |
| SemanticIndex.CalculateSimilaritySelf | git_analyzer/embeddings.py:152-166 | with such a service, a text with a non-zero vector has similarity 1 with itself |
| SemanticIndex.SearchScoreIsSimilarity | git_analyzer/embeddings.py:133-137 | with such a service, the score `find_similar` reports for an item is `calculate_similarity` of the query and the item's text |
| Similarity.Cosine | git_analyzer/embeddings.py:148-150 | the cosine raises numpy's shape error, with both lengths in the message, exactly when the vectors differ in length |
| Similarity.CosineSymmetric | git_analyzer/embeddings.py:148-150 | the cosine does not depend on argument order |
| Similarity.CosineSelf | git_analyzer/embeddings.py:148-150 | a vector with non-zero norm has cosine 1 with itself |
| Similarity.CosineZero | git_analyzer/embeddings.py:148-150 | a zero vector gives NaN against any vector of its length, either way round |
| Ranking.SortPermutes | git_analyzer/embeddings.py:141 | sorting only reorders the results |
| Ranking.SortByScore | git_analyzer/embeddings.py:141 | the stable reverse sort by score keeps the number of results; `Ranking.SortPermutes`, `Ranking.SortDescending` and `Ranking.SortStable` characterise it |
| Ranking.SortDescending | git_analyzer/embeddings.py:141 | sorted scores never increase |
| Ranking.SortStable | git_analyzer/embeddings.py:141 | for every score, the results with that score keep their order |
| Ranking.Slice | git_analyzer/embeddings.py:142 | `[:limit]` is a prefix, of length `limit` capped at the length, counted from the end when `limit` is negative |
| Ranking.Top | git_analyzer/embeddings.py:141-142 | the sorted, cut list is descending, has at most `limit` results and holds only given results |
| Pipeline.RootsCoverAll | git_analyzer/analyzer.py:229-232 | expanding each file's top-level declarations into their subtrees gives the whole node list `analyze` returns |
| Pipeline.IndexAsWrittenRepeats | git_analyzer/cli.py:40-41 | as written, the index holds one item per node of every subtree of every listed node |
| Pipeline.NestedPairIndexed | git_analyzer/cli.py:40-41 | a declaration with one nested declaration yields three items, the nested one twice |
| Pipeline.MethodIndexedTwice | git_analyzer/cli.py:40-41 | class `Foo` with method `bar` yields the items Foo, bar, bar |
| Pipeline.IndexOncePerDeclaration | git_analyzer/embeddings.py:42-59 | built from the top-level declarations, the index holds one item per node of `analyze`, in its order |
| Pipeline.CachedVectorsKept | git_analyzer/embeddings.py:36-59 | the cached items keep their place and their vectors when a run appends to them |
| Pipeline.AppendedAfterCache | git_analyzer/embeddings.py:36-59 | a run after a cache holds the cached items followed by one item per processed node |
| Pipeline.RestartOnDuplicates | git_analyzer/cli.py:40-42 | a second run on the same nodes keeps every item of the first, vectors included, and appends the same items again |
| Pipeline.RestartDuplicatesIndex | git_analyzer/cli.py:40-42 | two `start` runs on unchanged files leave twice the index of one |
| Pipeline.Reuse | git_analyzer/cli.py:40-42 | corrected `start`, which the code does not do: an item keeps everything but its vector, which, if it gains one, comes from a cached item differing from it at most in its vector |
| Pipeline.ReuseFinds | git_analyzer/cli.py:40-42 | corrected `start`: an item with such a cached twin gets a vector |
| Pipeline.StartIndexesEachDeclarationOnce | git_analyzer/cli.py:40-42 | whatever the cache holds, the corrected run holds one item per node of `analyze`, in its order |
| Pipeline.RestartReusesCache | git_analyzer/cli.py:40-42 | after a corrected run that embedded everything and wrote the cache, a second run on unchanged files sends no request and keeps the items |

## Left out

- File discovery (`_get_python_files`, the directory walk) is not modelled: `analyze` takes the discovered files as a sequence.
- Reading and parsing a file are inputs: a `SourceFile` carries its syntax tree, or nothing when reading or `ast.parse` raised.
- `ast.get_docstring` is an input: the docstring is a field of the declaration's syntax node.
- Progress bars and the printing of per-file errors are not modelled. A failed file is still listed under `files` and contributes no node.
- The Python syntax tree is reduced to the shapes the visitor tells apart. Every other node is `Other` with its children. Keyword arguments are their value expressions.
- `hasattr(node, 'decorator_list')` holds for every declaration node, so decorators are always rendered.
- `current_class` and `current_function` are not modelled: they are written but never read.
- The `str(node)` fallback of `_get_name` omits the memory address CPython prints. It uses the module prefix `ast.` of Python 3.9 to 3.13; on Python 3.8, which the package also supports, the prefix is `_ast.`.
- The model follows Python 3.8 to 3.13, where `ast.Str` and `ast.Num` still exist as aliases that match string and numeric constants. Python 3.14 removes them, so there `_get_name` raises `AttributeError` for every expression that is not a `Name` or `Attribute` (a subscript target, a `List[int]` annotation, a `f()()` callee), and a file containing one contributes no node. That behaviour is not modelled.
- Numeric literals: the text `str()` gives for a float or complex literal is an input carried by the literal, because Python's shortest-repr float formatting is not modelled; only integer literals are rendered by the model itself.
- `EmbeddingManager.__init__` (the API key check and cache directory creation) is not modelled. A manager starts from `LoadCache`.
- `_save_cache`: the pickle write is either a success or the message it raised; the file left behind by a failed write is not modelled.
- The OpenAI client and the model name are not modelled: the service is the `embed` parameter.
- Floating point is not modelled: vectors are sequences of reals, and rounding is not modelled.
- Similarity.Cosine: the bound that a cosine lies between -1 and 1 is not proved, because it needs nonlinear real arithmetic.
- Similarity.CosineSelf: requires that `sqrt` is a square root and that the squared norm is positive. numpy's `norm` meets the first; a zero vector gives NaN instead (`CosineZero`).
- SemanticIndex.CalculateSimilaritySymmetric: holds only for a service that embeds each text on its own. The real service may answer a batch differently.
- Pipeline.Reuse: the corrected `start` reuses the vector of the first cached item with the same name, kind, file and content. Which vector is reused for duplicate declarations is a design choice.
- Pipeline.RestartReusesCache: states that the items are kept up to their vectors, not that every vector is the first run's. With two identical declarations, the first one's vector is reused for both.
- The rest of `git_analyzer/cli.py` is not part of this model, and neither are `ts_analyzer.py`, `cache_manager.py` and `demo.py`. They are command-line output, subprocesses, database and generated samples.
- There is no `module` declaration kind: the code creates nodes only for classes, functions and async functions.
- A zero-norm vector is not an error: the code has no guard, and numpy's `0.0 / 0.0` gives NaN. NaN fails every `>=` threshold, so the item is dropped from `find_similar`. `calculate_similarity` returns NaN.

## Findings

| source | as written | input that shows it | evidently intended | confidence | as-written member | corrected member |
|---|---|---|---|---|---|---|
| git_analyzer/cli.py:41 | `start` passes every node of `analyze` (analyzer.py:231). Each node already holds its serialised children. `process_analysis_results` then recurses into those children again (embeddings.py:53-55). | a file holding `class Foo(Base)` with one method `bar` indexes Foo, bar, bar | one item per declaration | high; not executed | Pipeline.MethodIndexedTwice | Pipeline.IndexOncePerDeclaration |
| git_analyzer/cli.py:40-42 | Each run creates a manager, which loads the cached items (embeddings.py:36). The run then appends a fresh item for every declaration and saves the whole list. | running `start` twice on unchanged files caches every item twice; the second copies lack vectors and are embedded again | the index reflects the current analysis once; reusing cached vectors for unchanged items is a proposed repair, since appending without deduplication may be deliberate | medium; not executed | Pipeline.RestartDuplicatesIndex | Pipeline.RestartReusesCache |
