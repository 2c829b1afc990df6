# OmniCode-MCP: verified models of its state machines

OmniCode-MCP indexes a code base, searches it, edits it and remembers what was done. Under the
server glue it keeps a number of data structures that have to stay consistent over long runs.
This project models those in Dafny and proves what they promise, over every input and every run.

| file | what it models |
|---|---|
| `Sequences.dfy` | Python's list idioms: filtering, stable sorting, distinctness |
| `Reachability.dfy` | the depth-bounded search behind `ancestors_of` and `descendants_of` |
| `CodeGraph.dfy` | the edge list with its three indexes, and the compaction of `remove_file` |
| `GraphBuilder.dfy` | building graphs and updating them file by file |
| `TreeWalk.dfy` | the stack-driven syntax tree traversal |
| `VectorStore.dfy` | FAISS and SQLite holding the same facts |
| `SemanticIndex.dfy` | path spellings, upserts, deletions and bulk upserts over that store |
| `HybridSearch.dfy` | reciprocal rank fusion |
| `TextLines.dfy` | `splitlines`, `join`, `strip` |
| `SnippetSplice.dfy` | cutting a window of lines out of a file and splicing it back |
| `PatchBlocks.dfy` | reading SEARCH/REPLACE blocks, with the three regular expressions |
| `PatchApply.dfy` | applying blocks, exactly or tolerantly, and undoing them |
| `QuoteScanners.dfy` | the quote and escape automaton behind comment stripping and brace matching |
| `ContextPruner.dfy` | fitting context items into a token budget |
| `MemoryDedup.dfy` | memory deduplication on write and in batch |
| `SyncBatches.dfy` | packing files into sync batches |
| `FailoverRouter.dfy` | provider chains, failover, races and call statistics |
| `LogStream.dfy` | the log handler's queue and ring, and the fan-out to subscribers |

Components that update their fields are classes whose methods are proved against functions of
the old state; loops carry the invariants that tie them to those functions. What a program
outside the repository computes (parsers, embeddings, tokenizers, providers) is a parameter.

## Where the code falls short of a natural reading

Each of these is a theorem below, with the exact condition under which the property holds and an
input for which it does not; the last item is what two contracts say.

- Splicing an extracted snippet back over its window is the identity, for any text, exactly when
  the window's lines end in plain newlines and its last line is not empty
  (`SpliceBackIsIdentity`; `EmptyLineLost`, `ReturnLost`). Undoing a replacement also needs that no
  newline, its own or the next one, completes a return before the window, and at the end of the file that the final
  newline stays as it was, both of which can be told before the splice (`SpliceUndoExactly`;
  `ReturnMeetsNewline`, `UndoAddsNewline`).
- Blocks survive being written in the documented patch format exactly when each text is empty or
  starts with a solid line, does not end in a newline, and holds no marker that ends it
  (`ParseRendered`; `FinalNewlineLost`). Markers of the other kinds do no harm.
- A swapped block takes an exact patch back exactly when the replacement is not empty and stands
  nowhere earlier in the rewritten text (`SwapRestoresExactly`; `SwapMissesEarlierPlace`,
  `DeletionNotSwapped`).
- Stripping comments twice equals stripping them once exactly when the last line of the input
  that leaves anything is not empty, or is the only such line; on lists of lines it always does
  (`StrippedTwice`, `ShrinkAllTwice`; `StrippingTakesNewlines`).
- `add` and `add_many` keep FAISS and SQLite in agreement exactly when no chunk id is stored or
  repeated (`AddAgreesExactlyWhenNew`, `AddManyAgreesExactlyWhenNew`; `AddedTwice`), and the
  self-heal at startup exactly when every row has a stored embedding of the configured size
  (`Reopen`; `LostAtAnotherSize`).
- What is kept of a context stays within the budget exactly when each truncated item costs at most
  the tokens left for it (`BudgetHoldsExactlyWhen`). With a subadditive tokenizer and a marker of
  at most 4 tokens that is always so (`ShortMarkerHolds`); with an additive one and a longer
  marker, exactly when nothing is truncated (`AdditiveBudget`; `OverBudget` keeps 70 tokens of
  64).
- Incremental indexing gives the edges of a fresh build exactly when the build takes up every
  current file with an edge once, and no other file with an edge (`IncrementalEqualsBuild`; not so
  for a file past `max_files`, in a folder the walk skips, or named twice: `BuildsThatDiffer`). Its
  answers are those of the build exactly when the files that only one of them has link nothing new
  (`AnswersEqualBuild`; `AnswersThatDiffer`).
- A provider that answers with no response object is handed on as the answer, but its call counts
  as a failure: it counts as a success exactly when it brings a response (`AnswerCounts`;
  `EmptyAnswerIsAFailure`). The one provider implementation always builds a response or raises, so
  this concerns further implementations.
- A depth bound below 1 acts as 1 (`Bfs`); `recent(0)` returns the whole ring, and a negative limit
  all but the oldest (`Recent`).

## Model

| member | source | states |
|---|---|---|
| Reachability.Bfs | omnicode/ast_engine/inheritance.py:110-129 | terminates on every finite graph, cycles included, and returns exactly the nodes some walk of 1 to `max_depth` steps leads to, each once, sorted |
| Reachability.PopFresh | omnicode/ast_engine/inheritance.py:118-128 | one pop of an unseen node keeps the search invariant: queued depths are non-decreasing and span one level, so the pop is at the node's shortest depth |
| Reachability.WalkIsPopped | omnicode/ast_engine/inheritance.py:118-129 | when the queue is empty, the end of every walk within the bound has been popped no later than at the walk's length |
| Reachability.ReverseWithin | omnicode/ast_engine/inheritance.py:104-108 | over transposed indexes every bounded walk has a mirror image |
| CodeGraph.EdgeGraph.AddEdge | omnicode/ast_engine/inheritance.py:87-94 | appends one edge; both adjacency indexes and the file index stay the projections of the edge list |
| CodeGraph.EdgeGraph.RemoveFile | omnicode/ast_engine/inheritance.py:147-176 | keeps exactly the other files' edges in their old order, renumbers the file index to their new positions, rebuilds both adjacency indexes, and counts what it removed |
| CodeGraph.Renumber | omnicode/ast_engine/graph.py:123-138 | after compaction the file index again holds exactly the positions of each file's edges |
| CodeGraph.Compact | omnicode/ast_engine/graph.py:107-122 | the kept edges are the unmasked ones in order, and the renumbering maps each kept position to its new one |
| CodeGraph.EdgeGraph.TargetsOf | omnicode/ast_engine/graph.py:68-70 | the sorted duplicate-free list of the targets of a symbol's edges |
| CodeGraph.EdgeGraph.SourcesOf | omnicode/ast_engine/graph.py:64-66 | the sorted duplicate-free list of the sources of the edges into a symbol |
| CodeGraph.EdgeGraph.AncestorsOf | omnicode/ast_engine/inheritance.py:104-105 | exactly the symbols within the bound along base edges |
| CodeGraph.EdgeGraph.DescendantsOf | omnicode/ast_engine/inheritance.py:107-108 | exactly the symbols within the bound along subclass edges |
| CodeGraph.IndexesTranspose | omnicode/ast_engine/inheritance.py:87-94 | two indexes that project the same edge list are transposes of each other |
| CodeGraph.AncestorsMirrorDescendants | omnicode/ast_engine/inheritance.py:104-129 | in every valid graph and at every bound, `b` is an ancestor of `a` exactly when `a` is a descendant of `b` |
| GraphBuilder.Builder.AddFromContent | omnicode/ast_engine/inheritance.py:575-600 | appends one edge for each tuple the extractor finds, with its ends, kind and line, in the order of extraction, for any language and any path or none; the inheritance builder leaves out the tuples with an empty end and no others, and nothing is added when the extractor raises |
| GraphBuilder.Builder.EdgesExtracted | omnicode/ast_engine/inheritance.py:587-600 | the edges of a text are those of the tuples at certain places, in order: every place for calls, and for inheritance exactly those where both ends are named |
| GraphBuilder.Builder.EveryTupleAnEdge | omnicode/ast_engine/inheritance.py:587-600 | without empty ends, and for calls always, the edges are the tuples one by one |
| GraphBuilder.OneBase | omnicode/ast_engine/inheritance.py:587-600 | a tuple with a base becomes an edge of the inheritance graph, one without does not |
| GraphBuilder.Builder.BuildForContent | omnicode/ast_engine/graph.py:206-214 | a graph of exactly the edges of one text |
| GraphBuilder.Builder.UpdateFile | omnicode/ast_engine/inheritance.py:538-558 | replaces the file's edges by what it holds now and reports both counts; a missing, unreadable or unknown file only loses its edges |
| GraphBuilder.Builder.BuildForPaths | omnicode/ast_engine/graph.py:221-256 | the edges of the first `max_files` files, in the order in which files named and folders walked, without skipped names and unknown suffixes, reach them |
| GraphBuilder.Builder.WalkFinds | omnicode/ast_engine/graph.py:237-248 | a walk lists exactly the wanted files at the end of a trail of folders none of which has a skipped name or one that starts with a dot |
| GraphBuilder.Builder.ReachedExactly | omnicode/ast_engine/graph.py:230-251 | a build reaches exactly the existing files it is given by name and those the walks of its folders list |
| GraphBuilder.Builder.NothingDropped | omnicode/ast_engine/graph.py:221-256 | a build takes up the first `max_files` of the files it reaches, all of them if and only if `max_files` allows for that |
| GraphBuilder.Builder.Replay | omnicode/ast_engine/graph.py:258-281 | updates of any graph, each right after its edit, end in the edge list the run's specification gives |
| GraphBuilder.Builder.BuildAndReplay | omnicode/ast_engine/graph.py:221-281 | in a graph that is built and then kept up to date, each updated file has the edges of its last update and each other file those it was built with; where no file was built twice, it is as if every file built had been updated first |
| GraphBuilder.Builder.IncrementalEqualsRebuild | omnicode/ast_engine/graph.py:258-281 | after any sequence of edits, additions and deletions, each followed by an update, the edge multiset is that of all current files, as a build without a limit would give it |
| GraphBuilder.Builder.IncrementalEqualsBuild | omnicode/ast_engine/graph.py:221-281 | it is that of the graph a build returns, reading the disk as the last updates saw it, if and only if the build takes up every current file with an edge exactly once and no other file with an edge |
| GraphBuilder.BuildsThatDiffer | omnicode/ast_engine/graph.py:221-281 | a file in a skipped folder, a file named twice, and a file past the limit, for which the two differ |
| GraphBuilder.Builder.CurrentIsListed | omnicode/ast_engine/graph.py:258-281 | every run of updates leaves a list of current files behind |
| GraphBuilder.AnswersEqualBuild | omnicode/ast_engine/inheritance.py:500-558 | both adjacency indexes, and with them every answer, are those of the graph a build returns if and only if the current files it leaves out, and the files it takes up that are not current, link nothing that is not linked already |
| GraphBuilder.AnswersThatDiffer | omnicode/ast_engine/graph.py:221-281 | the skipped folder and the limit change answers, naming a file twice changes none |
| GraphBuilder.Builder.BuildIsARun | omnicode/ast_engine/inheritance.py:500-536 | a build over distinct files is itself a run of updates |
| TreeWalk.Walk | omnicode/ast_engine/inheritance.py:225-232 | the stack loop yields the tree in preorder |
| TreeWalk.WalkIsComplete | omnicode/ast_engine/inheritance.py:225-232 | the traversal yields every descendant and nothing else, as many nodes as there are |
| VectorStore.Store.NextFaissId | omnicode/search/vector_store.py:199-204 | one more than the largest id, 1 for an empty table |
| VectorStore.Store.Add | omnicode/search/vector_store.py:206-232 | the exact new FAISS list and table for any chunk id; with a new id the stores still agree |
| VectorStore.AddAgreesExactlyWhenNew | omnicode/search/vector_store.py:206-232 | `add` keeps the stores in agreement if and only if no stored row has the chunk's id |
| VectorStore.StoredOnceMore | omnicode/search/vector_store.py:206-232 | adding a row that is stored once more never keeps the stores in agreement |
| VectorStore.AddedTwice | omnicode/search/vector_store.py:206-232 | a chunk that is added twice leaves two vectors beside one row |
| VectorStore.AddManyAgreesExactlyWhenNew | omnicode/search/vector_store.py:234-271 | a batch keeps the stores in agreement if and only if none of its chunk ids is stored or repeats |
| VectorStore.AddManyAgrees | omnicode/search/vector_store.py:234-271 | consecutive ids for new chunks keep the stores in agreement |
| VectorStore.Store.AddMany | omnicode/search/vector_store.py:234-271 | the exact new FAISS list and table of a batch; with new ids the stores still agree and nothing else changes |
| VectorStore.Store.DeleteByFile | omnicode/search/vector_store.py:273-298 | drops exactly the file's rows from both stores and counts them |
| VectorStore.Store.DeleteByFiles | omnicode/search/vector_store.py:300-325 | drops exactly the rows of these files from both stores and counts them |
| VectorStore.DropAgrees | omnicode/search/vector_store.py:300-325 | removing the same ids from both stores keeps them in agreement |
| VectorStore.Store.ResetIndex | omnicode/search/vector_store.py:112-130 | a store in any state becomes empty, of the new size; a size below 1 is refused and changes nothing |
| VectorStore.Store.RebuildWhenEmpty | omnicode/search/vector_store.py:163-197 | an index without vectors gets exactly the stored embeddings of the configured size, whichever rows have one, or startup fails because the index is of another size |
| VectorStore.RebuiltAgrees | omnicode/search/vector_store.py:163-197 | a rebuilt index agrees with the table if and only if every row has a stored embedding of that size |
| VectorStore.Store.Reopen | omnicode/search/vector_store.py:132-197 | whatever was on disk, startup fails if and only if an empty index of another size would have to take a stored embedding; otherwise the stores agree afterwards if and only if the index file agreed with the table or, when it held no vector, every row has a stored embedding of the configured size |
| VectorStore.LostAtAnotherSize | omnicode/search/vector_store.py:132-197 | a store whose index file is lost and whose size has changed: no search finds its row any more |
| VectorStore.DotSnoc | omnicode/search/vector_store.py:327-345 | the score of two vectors of one size is their inner product: one more component each adds the product of the two |
| VectorStore.FlatSearch | omnicode/search/vector_store.py:327-345 | an exact search returns the `k` positions of highest inner product, best first |
| VectorStore.Store.Search | omnicode/search/vector_store.py:327-380 | an index without vectors finds nothing; in every valid state the hits are distinct chunks that pass the metadata filter, with their scores in non-increasing order, and no omitted chunk that passes scores above one; without a filter `min(top_k, rows)` of them, with one all that pass whenever fewer than `top_k` are returned out of at most `5*top_k` rows |
| SemanticIndex.NormPath | omnicode/search/engine.py:18-32 | the canonical spelling of a path |
| SemanticIndex.CanonicalFixedPoints | omnicode/search/engine.py:18-32 | canonical paths are exactly the fixed points, and the legacy spelling of one maps back to it |
| SemanticIndex.LeadingDotSlash | omnicode/search/engine.py:18-32 | a leading `./` changes no canonical path |
| SemanticIndex.IndexedFileHashes | omnicode/search/engine.py:729-760 | a file gets a hash exactly when all its selected rows carry that one, in whatever order the rows come |
| SemanticIndex.HashesOfFiles | omnicode/search/engine.py:729-760 | over rows that hold a map of files, that is the hash the file was last written with, if it has chunks and the workspace matches |
| SemanticIndex.Engine.FileHashes | omnicode/search/engine.py:729-760 | in every valid state the hashes reported are those of each path's latest written upsert |
| SemanticIndex.DedupeLegacyRows | omnicode/search/engine.py:463-504 | drops exactly the rows with a backslash in the path from both stores, counts them and keeps the stores in agreement |
| SemanticIndex.Engine.Prepare | omnicode/search/engine.py:297-333 | says exactly when a backend may write; resetting loses no row unless it is forced, and then all of them |
| SemanticIndex.Engine.Rebuild | omnicode/search/engine.py:297-333 | a forced preparation empties the index and takes the backend's size, or changes nothing when there is no backend |
| SemanticIndex.Engine.UpsertContent | omnicode/search/engine.py:523-607 | the stores agree afterwards and hold, for the canonical path, exactly the chunks of the new content, each with the normalized encoding of its own text, or none when the backend cannot write |
| SemanticIndex.Engine.UpsertContents | omnicode/search/engine.py:609-727 | for distinct paths all of them are replaced together, each chunk with the normalized encoding of its own text, or nothing changes |
| SemanticIndex.Engine.DeleteFileIndex | omnicode/search/engine.py:762-777 | forgets exactly the canonical path under both spellings, and says whether it was there |
| SemanticIndex.Engine.Run | omnicode/search/engine.py:523-777 | after any run the stores agree, the rows are exactly those of a map from canonical path to chunks, each with the vector that the encoder of its last write gives its text, and that map and every outcome follow from the calls: a write replaces what its path held, a failed upsert empties the path, a failed bulk upsert changes nothing, a forced preparation empties the index, and a restart changes neither as long as the index can be healed |
| SemanticIndex.Engine.Restart | omnicode/search/vector_store.py:132-197 | after a restart the index is right if and only if its file is there, the configured size is the one held, or nothing is held |
| HybridSearch.Rrf | omnicode/search/hybrid_search.py:23-54 | each id once, with its first item and the exact sum of `1/(k+rank+1)` over its occurrences, in non-increasing order, ties in the order of first appearance |
| HybridSearch.ScoreAt | omnicode/search/hybrid_search.py:23-54 | a list gives the item at a rank counted from 0 exactly `1/(k+rank+1)` |
| HybridSearch.BothBeatsOne | omnicode/search/hybrid_search.py:23-54 | an item both lists rank at most `k+1` scores at least as high as any item in only one list |
| HybridSearch.RankBoundIsTight | omnicode/search/hybrid_search.py:23-54 | for two lists, an item at rank `k+2` of both scores below the head of one |
| TextLines.SplitAppend | omnicode/pipelines/edit.py:1439-1447 | text after a line boundary does not change how the text before it splits, unless it completes a return to `\r\n` |
| TextLines.SplitFlatten | omnicode/pipelines/edit.py:1439-1447 | lines joined back split into themselves |
| TextLines.LinesOfText | omnicode/pipelines/edit.py:1439-1447 | the lines of any text are not empty, hold a boundary at their end at most, and all but the last one do |
| TextLines.StripsExactly | omnicode/pipelines/edit.py:1541-1544 | stripping a text takes the whitespace at both ends away and nothing else |
| SnippetSplice.WindowHoldsSymbol | omnicode/pipelines/edit.py:1410-1416 | the padded window of any reported symbol lies in the file and holds what the file has of it; it is empty exactly when the file is, or ends before the padding of a symbol reported past its end |
| SnippetSplice.WindowIsPadded | omnicode/pipelines/edit.py:1410-1416 | a line of the file is in the window if and only if it is in the symbol or at most three lines away from it |
| SnippetSplice.SplitJoin | omnicode/pipelines/edit.py:1410-1416 | joining a window's lines and splitting again loses only the last line's newline, or that line when it is empty |
| SnippetSplice.SpliceBackIsIdentity | omnicode/pipelines/edit.py:1427-1447 | in any text, splicing the extracted snippet back changes nothing if and only if the window's lines end in plain newlines and the last one is not empty, with or without a final newline |
| SnippetSplice.SpliceBackOfNewlines | omnicode/pipelines/edit.py:1427-1447 | where the newline is the only boundary, if and only if the window's last line is not empty |
| SnippetSplice.ReturnLost | omnicode/pipelines/edit.py:1410-1447 | a window that ends in a return and a newline loses the return |
| SnippetSplice.EmptyLineLost | omnicode/pipelines/edit.py:1410-1447 | a window that ends in an empty line loses it |
| SnippetSplice.SpliceKeepsText | omnicode/pipelines/edit.py:1427-1447 | in any text, and for any snippet, all text before and after the window stays |
| SnippetSplice.SpliceFrame | omnicode/pipelines/edit.py:1427-1447 | in any text, the lines before and after the window stay lines of their own, in place, if and only if no newline completes a return before the window |
| SnippetSplice.SpliceUndo | omnicode/pipelines/edit.py:1427-1447 | in any text, splicing the old snippet over what a replacement left restores the file if and only if that holds, the window's lines end in plain newlines, its last line is not empty and, at the end of the file, the final newline is as before |
| SnippetSplice.SpliceUndoExactly | omnicode/pipelines/edit.py:1427-1447 | the same, for any replacement, an empty one included, with a condition read off before the splice |
| SnippetSplice.UndoAddsNewline | omnicode/pipelines/edit.py:1441-1446 | a file of one line without a newline for which the undo adds one |
| SnippetSplice.ReturnMeetsNewline | omnicode/pipelines/edit.py:1427-1447 | a replacement that starts with a newline, after a return, which no undo takes back |
| PatchBlocks.SearchMatches | omnicode/pipelines/edit.py:1475-1495 | what a search returns is a match at the start of a line, of the reported size |
| PatchBlocks.SearchIsFirst | omnicode/pipelines/edit.py:1475-1495 | a search goes past no match |
| PatchBlocks.MatchExactly | omnicode/pipelines/edit.py:1475-1477 | each of the three patterns matches exactly three or more of its glyphs, its word with any whitespace around it, and the end of a line, as far as that can reach |
| PatchBlocks.ReadingExactly | omnicode/pipelines/edit.py:1481-1498 | reading stops where no BEGIN marker follows, and reports a missing divider or a missing end exactly where no line matches it |
| PatchBlocks.MatchBefore | omnicode/pipelines/edit.py:1475-1477 | a marker in a text is recognised the same whether the text ends there or the next marker line follows |
| PatchBlocks.TextBack | omnicode/pipelines/edit.py:1485-1507 | between two markers a text is read back if and only if it is clean |
| PatchBlocks.ReadBlock | omnicode/pipelines/edit.py:1481-1501 | a block that is read moves the cursor strictly forward, within the blob |
| PatchBlocks.ParseRendered | omnicode/pipelines/edit.py:1460-1501 | blocks written in the documented format are read back, in order and with no error, if and only if each of them is clean |
| PatchBlocks.FinalNewlineLost | omnicode/pipelines/edit.py:1503-1507 | no block whose search text ends in a newline is read back |
| PatchApply.FuzzyApply | omnicode/pipelines/edit.py:1532-1557 | splices the replacement over the first window of lines that matches once stripped |
| PatchApply.FuzzyFindsExactly | omnicode/pipelines/edit.py:1540-1557 | for a search that is not empty a place is found if and only if some contiguous lines are the same as its own once both are stripped |
| PatchApply.ExactFrame | omnicode/pipelines/edit.py:1511-1515 | an exact match replaces the first occurrence and leaves all text before and after it |
| PatchApply.FuzzyFrame | omnicode/pipelines/edit.py:1517-1522 | a tolerant match replaces the first lines that are alike by the replacement itself, with a newline after it exactly when other lines follow and it ends in none, and leaves the lines before and after |
| PatchApply.AppliedExactly | omnicode/pipelines/edit.py:1508-1528 | a block is applied if and only if its search text is not empty and either stands in the text or has its lines there once stripped |
| PatchApply.ApplyPatches | omnicode/pipelines/edit.py:1449-1530 | the loop applies the parsed blocks in order and collects one error for each that fails and for a malformed tail |
| PatchApply.AppliedOrReported | omnicode/pipelines/edit.py:1481-1530 | for any blob, applied blocks and errors add up to the well-formed blocks, plus one for a malformed tail, and where none is applied the text stays as it is |
| PatchApply.SwapRestores | omnicode/pipelines/edit.py:1511-1515 | the swapped block restores the text when the replacement is not empty and stands nowhere earlier in the rewritten text |
| PatchApply.SwapRestoresExactly | omnicode/pipelines/edit.py:1508-1515 | for every exact match, the swapped block restores the text if and only if that holds |
| PatchApply.DeletionNotSwapped | omnicode/pipelines/edit.py:1508-1515 | the swapped block of a deletion is refused |
| PatchApply.OnceIsReversible | omnicode/pipelines/edit.py:1511-1515 | a replacement that stands exactly once in the result meets that condition |
| PatchApply.SwapMissesEarlierPlace | omnicode/pipelines/edit.py:1511-1515 | a text, and a block on it, that the swapped block does not take back |
| PatchApply.UndoRestores | omnicode/pipelines/edit.py:1481-1530 | reversible blocks are all applied, and swapped and in reverse order they restore the text |
| PatchApply.UndoPatch | omnicode/pipelines/edit.py:1449-1530 | the same through two patch files that are written, read and applied |
| QuoteScanners.FindCommentIndex | omnicode/llm/token_manager.py:187-212 | the least position of a marker outside literals and not escaped, or -1 when there is none |
| QuoteScanners.LiteralIsPassed | omnicode/llm/token_manager.py:187-212 | from a quote of code to the next one of its kind, without a backslash between, there is no code, and code goes on behind it |
| QuoteScanners.EscapeIsPassed | omnicode/llm/token_manager.py:187-212 | a backslash and the character after it are no code and change nothing |
| QuoteScanners.FindMatchingBrace | omnicode/llm/token_manager.py:317-347 | the least position where the depth of the braces of code is back to 0, or -1 when it never is |
| QuoteScanners.DepthCounts | omnicode/llm/token_manager.py:317-347 | the depth at any place is the number of opening braces of code before it less that of the closing ones |
| QuoteScanners.OpenUntilClosed | omnicode/llm/token_manager.py:317-347 | from an opening brace up to the one that is found the depth stays positive |
| QuoteScanners.StatePrefix | omnicode/llm/token_manager.py:187-212 | the automaton's state depends only on what it has read |
| QuoteScanners.StripComments | omnicode/llm/token_manager.py:163-185 | line by line and in order: a line without a comment, or with one to preserve, comes out as it is, any other as what stands before its first marker, without the whitespace at the end, or not at all when that is empty; no line that comes out has a comment that is not to be preserved |
| QuoteScanners.ShrinkMeaning | omnicode/llm/token_manager.py:163-185 | the same for one line |
| QuoteScanners.CommentGoes | omnicode/llm/token_manager.py:163-185 | a line of code and a comment comes out as the code |
| QuoteScanners.LiteralStays | omnicode/llm/token_manager.py:163-185 | a marker in a literal starts no comment |
| QuoteScanners.ShrunkStays | omnicode/llm/token_manager.py:163-185 | a stripped line is left alone by a second pass |
| QuoteScanners.ShrinkAllTwice | omnicode/llm/token_manager.py:163-185 | on lists of lines stripping is idempotent |
| QuoteScanners.StrippedTwice | omnicode/llm/token_manager.py:163-185 | on texts stripping again changes nothing if and only if the last line that leaves anything is not empty, or is the only one |
| QuoteScanners.StrippedEnds | omnicode/llm/token_manager.py:163-185 | which is so exactly when the stripped text does not end in a newline |
| QuoteScanners.StrippingTakesNewlines | omnicode/llm/token_manager.py:163-185 | a text of a line and an empty one that loses a newline with each pass |
| ContextPruner.Prune | omnicode/llm/token_manager.py:431-505 | decides by falling priority, items of the same priority in input order, rewrites items in place, returns the kept ones in input order, and budget, the usable window less what is reserved, is tokens out plus tokens remaining |
| ContextPruner.MildestStage | omnicode/llm/token_manager.py:449-498 | an item takes the first of whole, stripped and folded text that fits; when none does it is truncated, or dropped below 64 remaining tokens |
| ContextPruner.TruncatedKeepsEnds | omnicode/llm/token_manager.py:507-519 | a truncation keeps a prefix and a suffix of the tokens that do not overlap, 4 short of the target, around the marker |
| ContextPruner.TruncatedOtherwise | omnicode/llm/token_manager.py:507-519 | a text of at most the target in tokens is left as it is, and without a tokenizer the first four characters for each token of the target are kept |
| ContextPruner.TokensConserved | omnicode/llm/token_manager.py:437-498 | at every item of the report, tokens spent and tokens left add up to the budget |
| ContextPruner.TruncatedCost | omnicode/llm/token_manager.py:507-519 | with a subadditive tokenizer a truncation costs at most its target plus the overshoot |
| ContextPruner.BudgetHolds | omnicode/llm/token_manager.py:437-519 | with a subadditive tokenizer what is kept costs at most `budget + max(0, M-4)`, `M` being the cost of the truncation marker |
| ContextPruner.BudgetHoldsExactlyWhen | omnicode/llm/token_manager.py:437-498 | whatever the tokenizer, what is kept costs at most the budget if and only if each truncated item costs at most what is left for it |
| ContextPruner.ShortMarkerHolds | omnicode/llm/token_manager.py:507-519 | with a subadditive tokenizer and a marker of at most 4 tokens the budget is never exceeded |
| ContextPruner.AdditiveBudget | omnicode/llm/token_manager.py:437-519 | with an additive tokenizer it is exceeded if and only if the marker costs more than 4 tokens and some item is truncated |
| ContextPruner.OverBudget | omnicode/llm/token_manager.py:488-519 | with an additive tokenizer, an item of 100 tokens that is kept at 70 against a budget of 64 |
| ContextPruner.BudgetHoldsExactly | omnicode/llm/token_manager.py:437-498 | if nothing is truncated the budget is never exceeded, whatever the tokenizer |
| ContextPruner.NoInversion | omnicode/llm/token_manager.py:439-498 | after a drop nothing is truncated and everything kept later costs less than 64 tokens in total |
| MemoryDedup.MergeLists | memory_system/memory_manager.py:415-425 | the elements of both lists without repetition, in the order of their first places |
| MemoryDedup.Memories.StoreMemory | memory_system/memory_manager.py:313-411 | bumps the oldest active row of the fingerprint, or adds one |
| MemoryDedup.OnlineHolds | memory_system/memory_manager.py:313-411 | after any requests there is one row for each key, in the order in which the keys first came, with the content of the first request of its key, the highest importance any of them has, their number as access count, and all their tags and files in first-seen order |
| MemoryDedup.CollapseGroup | memory_system/memory_manager.py:451-500 | one duplicate group collapses into its oldest row, the others are archived and counted |
| MemoryDedup.Memories.DedupeExisting | memory_system/memory_manager.py:427-506 | every duplicate group is collapsed, with the number of groups and of archived rows |
| MemoryDedup.BatchRow | memory_system/memory_manager.py:427-500 | row by row: an active row with an earlier one of its fingerprint is archived, the oldest of several takes the highest importance of them and all their tags and files, and every other row stays as it is |
| MemoryDedup.OnlineEqualsBatch | memory_system/memory_manager.py:313-500 | for every request sequence on a fresh store, storing one by one gives the active rows that inserting all and deduplicating once gives |
| MemoryDedup.BatchLeavesOnePerKey | memory_system/memory_manager.py:427-500 | the batch pass leaves one active row per fingerprint |
| MemoryDedup.BatchConservesAccess | memory_system/memory_manager.py:451-500 | the batch pass conserves the sum of the active access counts, a count of 0 reading as 1 |
| MemoryDedup.TotalExactly | memory_system/memory_manager.py:467-472 | the access counts add up to their plain sum and one for each count of 0 |
| MemoryDedup.BatchConservesSum | memory_system/memory_manager.py:451-500 | where no count is 0 the plain sum is conserved, and no count becomes 0 |
| MemoryDedup.StoredAccessed | memory_system/memory_manager.py:313-411 | storing memories leaves no count of 0 |
| MemoryDedup.BatchIsIdempotent | memory_system/memory_manager.py:427-500 | a second batch pass changes nothing |
| SyncBatches.AgentClient.PushBatch | omnicode_adapters/agent/client.py:527-581 | the batches concatenate to the accepted files in order, each within the file limit and within the byte limit or a single file, and closed exactly when it is full, the next file has no room or its last file fills it; in at most as many batches as the next-fit bound allows, every result merged |
| SyncBatches.OnePacking | omnicode_adapters/agent/client.py:543-581 | the limits and the rule for closing a batch leave exactly one way to pack any files |
| SyncBatches.SettledNext | omnicode_adapters/agent/client.py:565-579 | one round of the packing loop keeps that rule |
| SyncBatches.AgentClient.NextFitBound | omnicode_adapters/agent/client.py:543-581 | `(k-1)*F*B <= n*B + 2*T*F` for the closed batches |
| SyncBatches.PayAll | omnicode_adapters/agent/client.py:555-575 | each closed batch pays for itself by its count, or by its bytes and those of the file that found no room |
| SyncBatches.AgentClient.CloseBatch | omnicode_adapters/agent/client.py:543-575 | closing a batch for want of room keeps the packing invariant |
| SyncBatches.MergedMeaning | omnicode_adapters/agent/client.py:369-443 | after any number of requests the caller is told the files the remote took, the errors of the requests that failed, in order, and the revision the client goes on from |
| SyncBatches.IndexedMeaning | omnicode_adapters/agent/client.py:369-443 | the index revision reported is the one named by the last reply that succeeded, or the revision gone on from when it named none |
| SyncBatches.MergeEmpty | omnicode_adapters/agent/client.py:82-100 | merging an empty result, on either side, changes nothing |
| SyncBatches.MergeAssociates | omnicode_adapters/agent/client.py:82-100 | results may be merged in any grouping |
| SyncBatches.RevisionsRise | omnicode_adapters/agent/client.py:369-443 | against a remote whose revisions grow, the client's rise with every success and stay put otherwise, so a request after a failure carries the revision of the failed one |
| FailoverRouter.StatsCount | omnicode/llm/router.py:957-1008 | over any calls the total is successes plus failures, and the run of failures is the trailing one |
| FailoverRouter.StatsSums | omnicode/llm/router.py:957-1008 | latency is the sum of all durations, tokens and cost those of the responses |
| FailoverRouter.LastErrorKept | omnicode/llm/router.py:957-1008 | the error kept is that of the last failure |
| FailoverRouter.HealthyExactly | omnicode/llm/router.py:95-98 | a provider is healthy if and only if it has fewer than three calls or one of its last three succeeded |
| FailoverRouter.Router.Record | omnicode/llm/router.py:957-1008 | logs one call; every provider's aggregates stay those of its calls, and the recent calls stay the latest ones, newest first |
| FailoverRouter.Router.Reload | omnicode/llm/router.py:455-495 | the chains are the usable providers by group, the default when there are none, and no aggregate is lost |
| FailoverRouter.ChainsCover | omnicode/llm/router.py:462-478 | every usable provider is in one of the two chains |
| FailoverRouter.ChainExactly | omnicode/llm/router.py:462-478 | a chain holds exactly the usable providers whose group, in any case and balanced when there is none, is not that of the other chain |
| FailoverRouter.ChainInOrder | omnicode/llm/router.py:462-478 | a chain lists them in the order of the registry |
| FailoverRouter.Router.GetProviderChain | omnicode/llm/router.py:703-744 | a duplicate-free list, healthy providers first, each class in preference order, and unless the strategy comes down to FASTEST a permutation of all live providers |
| FailoverRouter.SelectionLeads | omnicode/llm/router.py:708-716 | a live and healthy provider selected for the request's role is called first |
| FailoverRouter.DefaultLeads | omnicode/llm/router.py:708-721 | without such a selection the live and healthy default selection is called first |
| FailoverRouter.CheapFirst | omnicode/llm/router.py:724-733 | for cost, of two providers alike in health and not selected, one of the cost chain is called before one outside it |
| FailoverRouter.GoodFirst | omnicode/llm/router.py:724-733 | for quality, and where no strategy is given, one of the quality chain is |
| FailoverRouter.FastIsCheap | omnicode/llm/router.py:724-733 | for speed only the cost chain and what was selected are called |
| FailoverRouter.TaskStrategies | omnicode/llm/router.py:124-133 | what each task asks for when the strategy is left to the task |
| FailoverRouter.RolesOfTasks | omnicode/llm/router.py:677-701 | the role of a request is its task, stripped and in lower case, if that is a role, else that of its strategy |
| FailoverRouter.HealthyFirstParts | omnicode/llm/router.py:743-744 | the final sort is the stable partition into healthy and unhealthy providers |
| FailoverRouter.Router.Complete | omnicode/llm/router.py:747-835 | the first answer along the chain, after exactly one failure record for each earlier provider, or the last error when none answers, whatever other requests record in between |
| FailoverRouter.AnswerCounts | omnicode/llm/router.py:779-820 | the call a request answers with counts as a success if and only if it brought a response |
| FailoverRouter.EmptyAnswerIsAFailure | omnicode/llm/router.py:779-820 | a request that any chain's first provider answers with nothing, and whose call counts as a failure |
| FailoverRouter.Router.RunBestOfN | omnicode/llm/router.py:838-932 | the first `n` providers each get one record, in whatever order they finish and whatever others record in between; the selected answer wins, and without one the errors are listed in chain order |
| FailoverRouter.DefaultBestOfSelector | omnicode/llm/router.py:935-954 | the first of the longest stripped answers |
| FailoverRouter.StrippedLengthIs | omnicode/llm/router.py:944-953 | the length counted is that of the answer without the whitespace around it |
| FailoverRouter.AnswersInOrder | omnicode/llm/router.py:905-917 | the answers are exactly the responses of the providers whose calls brought one, in chain order |
| FailoverRouter.ErrorsInOrder | omnicode/llm/router.py:905-925 | the errors are exactly those that were raised, in chain order |
| FailoverRouter.AnswersExactly | omnicode/llm/router.py:905-917 | a race has an answer to choose if and only if one of its calls brought a response |
| LogStream.StreamLogHandler.Emit | core/log_stream.py:52-70 | the queue stays a contiguous suffix of all emissions within its bound, the ring exactly the last 200, and a drop happens only when the queue is full |
| LogStream.StreamLogHandler.Recent | core/log_stream.py:72-74 | the last emissions up to the limit, the whole ring for a limit of 0, all but the oldest for a negative one |
| LogStream.LogBroker.PumpTake | core/log_stream.py:111-121 | takes the oldest queued record in flight |
| LogStream.LogBroker.Broadcast | core/log_stream.py:123-137 | every subscriber's queue gets the record, a full one losing its oldest |
| LogStream.LogBroker.Subscribe | core/log_stream.py:139-145 | a new empty queue that will see what is broadcast from now on |
| LogStream.LogBroker.InOrder | core/log_stream.py:111-149 | what a subscriber received and has queued are emissions in order and without duplicates, and with what it lost they are all the broadcasts since it joined |
| LogStream.LogBroker.NothingElseLost | core/log_stream.py:52-137 | every emission is broadcast, in flight, queued or dropped from the full queue |
| LogStream.NothingLost | core/log_stream.py:123-137 | a subscriber that lost nothing has received every broadcast since it joined |
| LogStream.PutFeed | core/log_stream.py:128-137 | one delivery to a subscriber keeps its queue a suffix of the broadcasts and its losses counted |
| LogStream.FanOut | core/log_stream.py:123-137 | the loop over the subscribers keeps every one of them right |
| LogStream.Run | core/log_stream.py:52-149 | every interleaving of the steps keeps the invariant, and what was emitted are the records of the run, in order |
| LogStream.Perform | core/log_stream.py:52-149 | each step does its own work when it can be taken, and nothing else happens |

## Left out

- The servers, tools and schemas around these components, and settings and prompts: input, output and glue.
- Tree-sitter, grammars, embeddings, FAISS and SQLite internals, git, LiteLLM and tokenizers are abstract functions or exact containers; floating point is modelled by real numbers.
- GraphBuilder.Builder.BuildForPaths: takes the tree of each path as it stands during the call; joining names, links and unreadable folders are not modelled.
- GraphBuilder.Builder.IncrementalEqualsBuild: is about a build right after the last update, which finds each path as that update did.
- GraphBuilder.Builder.IncrementalEqualsRebuild: `files` lists each current file under the spelling of its last update; edge order between files may differ, as the code appends.
- VectorStore.Store.Search: is for `top_k` of at least 1 and queries of the index's size, as FAISS wants them, and the metadata filter is an abstract predicate on rows.
- VectorStore.Store.Reopen: a FAISS file is read whole or not at all.
- SemanticIndex.Engine.Prepare: how the index status comes to be stale, invalid or without metadata is not modelled, only what follows from it.
- SemanticIndex.Engine.UpsertContents: requires distinct canonical paths per call and chunk ids that determine their path; without them ids repeat, and the stores need not agree. Crash points between the SQLite commit and the FAISS write are not modelled, and neither are locks.
- PatchApply.ApplyPatches: errors carry the first lines of the search text, not the rendered and clipped message.
- QuoteScanners.StripComments: block comments of C-like languages, HTML comments and the Python docstring pass are left out; so is function folding over nested matches.
- ContextPruner.Prune: assumes distinct item objects; a tokenizer that raises while truncating is not modelled.
- MemoryDedup.OnlineEqualsBatch: fingerprints are abstract keys, row ids and timestamps are left out, and so is `update_memory`, which can leave a stale fingerprint.
- SyncBatches.AgentClient.PushBatch: the retried earlier work enters as its result; manifests, elapsed times and the first-sync counters of a result are left out, and nothing is claimed about changes the failed retries leave unsent.
- FailoverRouter.Router.Complete: providers and selections do not change during a request; timestamps, model names and rounding in call records are left out, and task names are lowered as ASCII.
- LogStream.StreamLogHandler.Emit: is one atomic step; emissions that race between the ring and the queue, and between a full queue and its refill, are not modelled. One pump runs and is never cancelled.
- Scoring heuristics for memories, git risk and prose detection: they have no crisp specification.
