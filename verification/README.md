# Verified models of the query engine

Dafny models of those parts of the query engine in which a chunked, lazy, buffered or cached implementation has to
agree with a simple specification. `dafny verify dfyconfig.toml` checks all of them.

| modules | what they model |
|---|---|
| `Tables` | ids (UNDEF is the least one), rows, column-based tables, sequences cut into blocks |
| `CartesianArithmetic`, `CartesianProduct`, `CartesianProductJoin`, `CartesianPushdown` | the Cartesian product join: mixed-radix row numbers, chunks, a lazy last child, and the pushing of limits into the children |
| `Bitset`, `SubgraphTheory`, `CountConnectedSubgraphs` | counting connected subgraphs up to a budget, with words of 64 bits |
| `JoinedRows`, `AddCombinedRowToTable` | the buffered writer of join results, and the merged vocabulary that has to cover them |
| `RowIndices` | OFFSET, LIMIT and the export limit on a result in blocks |
| `ExistsJoin` | the block-wise merge for EXISTS with undefined values |
| `Distinct` | removing adjacent duplicates: in place, out of place, across blocks |
| `Shift` | `shift_left` and `shift_right`, by moves and by cyclic swaps |
| `ConstructTypes`, `ConstructTemplatePreprocessor`, `ConstructBatchEvaluator`, `ConstructTripleGenerator`, `BlankNodeLabels`, `BlankNodeRows` | the CONSTRUCT pipeline and its numbering of blank nodes |
| `RdfTerms` | terms as JSON bindings, and back |
| `Describe` | DESCRIBE with its closure over blank nodes |
| `UpdateTemplates`, `QuadLists`, `ExecuteUpdate` | the quads of an update, and their application |
| `Datasets`, `GraphPatterns`, `PatternFrames` | FROM and GRAPH clauses, a meaning for graph patterns over quads as the planner arranges them, and where variables occur |
| `GroupedAnswers` | what GROUP BY and COUNT(DISTINCT ..) ask for |
| `MaterializedViews`, `ViewReplacements` | which triples the planner can replace by the scan of a materialized view, and what becomes of their additional columns |
| `PatternTrickMeaning`, `CheckUsePatternTrick`, `CountingMaps`, `CountAvailablePredicates`, `PatternTrick`, `PatternTrickQuery`, `PatternTrickExamples` | the pattern trick: the rewriting of the query, the counting in parallel chunks, the whole answer, and where it goes wrong |

## Where the code differs from what one may expect

- A self-loop makes the counter of connected subgraphs count sets twice (`SubgraphTheory.SelfLoopExample`). The
  header says that nested calls count sets containing `nodes` but none of the ignored nodes; in nested calls the nodes
  are themselves ignored, so what is proved is about the nodes that are added.
- A first view that starts at row `o > 0` shifts its blank-node ids into those of the next table
  (`BlankNodeLabels.CollisionExample`); `BlankNodeRows.SelectedRowIdsDistinctIff` says in terms of
  blocks, OFFSET and LIMIT exactly when this happens.
- DESCRIBE returns the triples of a described blank node twice when the described resources lead back to it
  (`Describe.RepeatedExample`), exactly as `Describe.RepeatedIff` says. The join matches an undefined id with
  everything, so describing one describes every triple.
- When the limit is exhausted by a block that is only counted, one more non-empty block is pulled (`RowIndices`).
- `shift_right` returns `last` for `n == 0`, where the standard has `first`. The model returns `last`, too.
- The pattern trick overlooks the variables of GRAPH clauses (`PatternTrickExamples.GraphVariableExample`), adds the
  pattern column to triples whose scans have no such column, like those of `ql:has-predicate`
  (`PatternTrickExamples.HasPredicateExample`), or which the planner replaces, together with others, by the scan of a
  materialized view, which drops the column (`PatternTrickExamples.MaterializedViewExample`), ignores the dataset
  clauses (`PatternTrickExamples.FromExample`), and is applied to CONSTRUCT and ASK queries, whose SELECT clause it then
  looks up (`PatternTrickExamples.ConstructExample`). The conditions under which it is right are exact:
  `CheckUsePatternTrick.SuitableIsIsolatedIff` for GRAPH clauses, `PatternTrickQuery.PredicateHasColumnIff` for the
  column, over every plan that the planner may choose, `PatternTrick.SamePairsIff` (without a COUNT,
  `GroupedAnswers.SameKeysIff`) for dataset clauses, and all of them in `PatternTrickQuery.AnswerByPatternTrick`.
- The special case for all entities in `CountAvailablePredicates.cpp:113-140` is never taken as it is written: it compares a predicate that
  holds an IRI with a string, and these are different alternatives of a `TripleComponent`. The whole query is therefore
  modelled by the general case.
- The text of a typed literal comes back only if its datatype has no quote in it (`RdfTerms.RoundTripIff`, `RdfTerms.QuoteInDatatypeExample`).

## Model

| member | source | states |
|---|---|---|
| CartesianProductJoin.WriteResultColumn | src/engine/CartesianProductJoin.cpp:109-144 | cell `n` of the target is the input cell at `((offset + n) / groupSize) mod inputSize`; the nested loops terminate for every offset and target size |
| CartesianProductJoin.WriteAllColumns | src/engine/CartesianProductJoin.cpp:203-255 | the rows are exactly the slice of the full product given by offset and limit, also when the last table is one block of a longer one and the offset counts from its first row |
| CartesianProductJoin.TotalResultSize | src/engine/CartesianProductJoin.cpp:212-220 | the size computed with the division by the last table is that of the product plus the rows skipped with earlier blocks |
| CartesianProductJoin.ProduceTablesLazily | src/engine/CartesianProductJoin.cpp:326-364 | the tables yielded are non-empty, hold at most `chunkSize` rows, and concatenate to the slice of the product |
| CartesianProductJoin.CreateLazyConsumer | src/engine/CartesianProductJoin.cpp:367-421 | for every cutting of the lazy last table into blocks, empty ones included, the tables yielded concatenate to the `[offset, offset + limit)` slice of the full product; the check `offset >= lastTableOffset` never fails |
| CartesianProduct.ProductPicks | src/engine/CartesianProductJoin.cpp:203-255 | row `n` of the product combines the rows at the mixed-radix digits of `n`, first table fastest, and `n` is the position of these digits |
| CartesianProduct.EveryCombinationOnce | src/engine/CartesianProductJoin.cpp:203-255 | every choice of one row per table occurs at exactly one position of the product |
| CartesianProduct.ProductLastAppend | src/engine/CartesianProductJoin.cpp:384-421 | appending a block to the last table appends its product with the other tables: the reason why blocks can be processed one by one |
| CartesianPushdown.RunningLimit | src/engine/CartesianProductJoin.cpp:311-318 | the limit divided by the size of a child, plus one, still suffices for the rows needed |
| CartesianPushdown.CalculateSubResults | src/engine/CartesianProductJoin.cpp:260-323 | with limited, unlimited, lazy, neutral and empty children in any order, the product of the sub-results agrees with that of the unrestricted children on the rows that offset and limit select |
| CartesianPushdown.ComputeResult | src/engine/CartesianProductJoin.cpp:147-182 | end to end: the result is the slice of the product of the unrestricted children, materialized or lazy; without a limit it is the whole product behind the offset, if that many rows fit into 64 bits |
| CountConnectedSubgraphs.CountSubgraphs | src/engine/CountConnectedSubgraphs.cpp:14-33 | for undirected graphs without self-loops of at most 64 nodes, the result is `min(N, budget + 1)`, where `N` is the number of non-empty node sets that are connected by paths |
| CountConnectedSubgraphs.CountSubgraphsRecursively | src/engine/CountConnectedSubgraphs.cpp:91-117 | adds the number of sets by which `nodes` can be extended edge by edge without `ignored`, cut off one above the budget; terminates because the ignored set grows |
| CountConnectedSubgraphs.ComputeNeighbors | src/engine/CountConnectedSubgraphs.cpp:39-50 | the bits are the nodes adjacent to `nodes` that are not ignored |
| CountConnectedSubgraphs.BitsetToVector | src/engine/CountConnectedSubgraphs.cpp:70-78 | the vector lists exactly the set bits in increasing order |
| CountConnectedSubgraphs.SubsetIndexToBitmap | src/engine/CountConnectedSubgraphs.cpp:55-66 | the bitmap has exactly the nodes selected by the bits of the index |
| CountConnectedSubgraphs.SelectedDiffers | src/engine/CountConnectedSubgraphs.cpp:105-112 | different indices select different subsets |
| CountConnectedSubgraphs.SelectedReaches | src/engine/CountConnectedSubgraphs.cpp:105-112 | every subset of the neighbors has an index below `1 << size` |
| CountConnectedSubgraphs.NestedCall | src/engine/CountConnectedSubgraphs.cpp:103-114 | a nested call excludes strictly more nodes and leaves fewer than 64 neighbors, so the shift is defined and the recursion ends |
| SubgraphTheory.ConnectedIffGrows | src/engine/CountConnectedSubgraphs.cpp:14-33 | a set is connected by paths exactly if it can be grown from its smallest node one edge at a time |
| SubgraphTheory.SplitExtension | src/engine/CountConnectedSubgraphs.cpp:105-115 | every extension consists of a first step, its neighbors among the new nodes, and an extension of the enlarged set |
| SubgraphTheory.JoinExtension | src/engine/CountConnectedSubgraphs.cpp:105-115 | conversely, a choice of neighbors and an extension of the enlarged set make up one extension with that first step |
| SubgraphTheory.PieceSize | src/engine/CountConnectedSubgraphs.cpp:105-115 | the extensions with a given first step are one more than the extensions the nested call counts |
| SubgraphTheory.CountsConnectedSetsIffLoopFree | src/engine/CountConnectedSubgraphs.cpp:35-50 | on undirected graphs, the counter is right for all budgets exactly if there is no self-loop |
| SubgraphTheory.CountsConnectedSetsIff | src/engine/CountConnectedSubgraphs.cpp:14-50 | for one budget, it is right exactly if there is no self-loop or the budget is exceeded anyway |
| SubgraphTheory.SelfLoopExample | src/engine/CountConnectedSubgraphs.cpp:35-50 | one node with a self-loop is counted twice |
| AddCombinedRowToTable.AddCombinedRowToIdTable.AddRow | src/engine/AddCombinedRowToTable.h:139-147 | one more row is requested, whose cells are the join values and payload cells of the two input rows; whatever is flushed, the rows delivered, written and buffered remain exactly the rows requested, in order, and the vocabulary keeps covering them |
| AddCombinedRowToTable.AddCombinedRowToIdTable.AddRows | src/engine/AddCombinedRowToTable.h:161-181 | requests the rows of all pairs, the second index fastest; without columns the chunked counting loop terminates with the right number of rows |
| AddCombinedRowToTable.AddCombinedRowToIdTable.AddOptionalRow | src/engine/AddCombinedRowToTable.h:244-252 | requests the cells of the left row, extended by UNDEF |
| AddCombinedRowToTable.AddCombinedRowToIdTable.SetInput | src/engine/AddCombinedRowToTable.h:191-222 | everything buffered for the old inputs is written before they are replaced; the words of both new inputs, and no others, belong to the rows that follow, and are merged |
| AddCombinedRowToTable.AddCombinedRowToIdTable.SetOnlyLeftInputForOptionalJoin | src/engine/AddCombinedRowToTable.h:227-239 | as above, with an empty right input whose width fits the result |
| AddCombinedRowToTable.AddCombinedRowToIdTable.FlushBeforeInputChange | src/engine/AddCombinedRowToTable.h:191-206 | nothing is left in the buffers, and the vocabulary is dropped only when no row needs it |
| AddCombinedRowToTable.AddCombinedRowToIdTable.InvokeCallback | src/engine/AddCombinedRowToTable.h:406-409 | the callback may take table and vocabulary or leave both; the invariant holds either way |
| AddCombinedRowToTable.AddCombinedRowToIdTable.Flush | src/engine/AddCombinedRowToTable.h:283-435 | empties the buffers and keeps the invariant, whether or not the callback empties table and vocabulary |
| AddCombinedRowToTable.AddCombinedRowToIdTable.NumUndefinedPerColumn | src/engine/AddCombinedRowToTable.h:132-135 | the counters are the numbers of UNDEF values in all rows requested so far |
| AddCombinedRowToTable.AddCombinedRowToIdTable.ToIdTableVocabPair | src/engine/AddCombinedRowToTable.h:265-269 | over every run: the blocks taken by the callback followed by the final table are the rows requested, in order, and each vocabulary handed out covers the inputs of the rows handed out with it |
| AddCombinedRowToTable.WriteRows | src/engine/AddCombinedRowToTable.h:318-405 | writing column by column from the two index buffers yields the joined rows, cell by cell: in a join column the left value if it is defined and otherwise the right one, then the payload of both, UNDEF where there is no counterpart |
| JoinedRows.CombineIff | src/engine/AddCombinedRowToTable.h:300-405 | a request stands for exactly one row, given by the cells of the inputs: the left join value if it is defined and otherwise the right one, left payload, right payload or UNDEF |
| JoinedRows.BuffersPartition | src/engine/AddCombinedRowToTable.h:52-74 | the target indices of the two buffers partition `0 .. nextIndex - 1`, and lead back to the requests |
| RowIndices.TableToState.Next | src/engine/ExportQueryExecutionTrees.cpp:181-224 | the new offset, limits, size and state after one block |
| RowIndices.WindowGrows | src/engine/ExportQueryExecutionTrees.cpp:185-223 | the window over the rows seen grows by exactly the range the state exports |
| RowIndices.GetRowIndices | src/engine/ExportQueryExecutionTrees.cpp:121-261 | the ranges concatenate to the rows behind the offset, as far as LIMIT and export limit go, where a missing limit is none; the reported size is `multiplicator` times the rows behind the offset within LIMIT; only the blocks needed are pulled (up to the one that exhausts the limit and, if it exports nothing, through the next non-empty one), and the ranges lie in increasing blocks, each where the state machine puts it |
| RowIndices.ExhaustsOnce | src/engine/ExportQueryExecutionTrees.cpp:226-249 | at most one block exhausts the limit, so the rule for pulling names one block |
| ExistsJoin.LazyExistsJoinImpl.FetchNextRightBlock | src/engine/ExistsJoin.cpp:459-463 | the next right block that is not empty, if there is one; the empty ones are skipped |
| ExistsJoin.LazyExistsJoinImpl.IncrementToNextRow | src/engine/ExistsJoin.cpp:467-479 | the cursor moves forward by exactly one row; the state becomes No exactly when the right side is exhausted |
| ExistsJoin.LazyExistsJoinImpl.HasMatch | src/engine/ExistsJoin.cpp:483-506 | true exactly if some row of the whole right side equals the id, or the id is UNDEF and there is a right row; the cursor never moves back |
| ExistsJoin.LazyExistsJoinImpl.Get | src/engine/ExistsJoin.cpp:510-544 | each left block is answered rightly for the whole right side, also after fast-forwarding; the invariant makes the states Yes and No sound for all later blocks |
| ExistsJoin.ComputeExists | src/engine/ExistsJoin.cpp:389-545 | for any blocks on both sides, sorted as a whole: row by row, whether some right row matches |
| Distinct.DistinctInPlace | src/engine/Distinct.cpp:127-177 | the in-place compaction leaves the rows kept, given the last row of the previous block: a row is kept exactly if it is the first one, or differs from the row before it in some column of `keep` |
| Distinct.LazyDistinct | src/engine/Distinct.cpp:47-88 | for every cutting into blocks, the yielded blocks concatenate to the rows kept of the whole input: a row is kept exactly if it is the first one, or differs from the row before it in some column of `keep`; no block is empty |
| Distinct.LazyDistinctOnce | src/engine/Distinct.cpp:47-88 | the aggregated table has the same rows |
| Distinct.OutOfPlaceDistinct | src/engine/Distinct.cpp:181-218 | for every chunk size, the output consists of the same rows; both loops terminate |
| Distinct.UniqueCopy | src/engine/Distinct.cpp:191-198 | copying a chunk, each row compared with the one copied last, yields the first rows of its runs |
| Distinct.SkipRun | src/engine/Distinct.cpp:200-213 | skips exactly the rest of the run, chunk by chunk |
| Distinct.KeepsKeys | src/engine/Distinct.cpp:127-218 | every key of the input is kept, every row kept is one of the input |
| Distinct.KeepsKeysOnce | src/engine/Distinct.cpp:127-218 | where equal keys are adjacent, each is kept once |
| Distinct.MatchesRowIff | src/engine/Distinct.cpp:120-124 | rows match exactly if they are equal in every column of `keep` |
| Distinct.KeepsColumns | src/engine/Distinct.cpp:127-218 | every row of the input equals one that is kept, in the columns of `keep` |
| Distinct.KeepsColumnsOnce | src/engine/Distinct.cpp:127-218 | where equal rows are adjacent, the rows kept all differ in some column of `keep` |
| Shift.Move | src/backports/shift.h:44 | moving elements towards the beginning, one by one, also when the ranges overlap |
| Shift.MoveBackward | src/backports/shift.h:66-67 | moving elements towards the end, last one first, also when the ranges overlap |
| Shift.ShiftLeft | src/backports/shift.h:31-45 | element `n + i` moves to `i`, or nothing changes |
| Shift.ShiftRightBackward | src/backports/shift.h:63-67 | element `i` moves to `n + i`, and the position returned is `n` |
| Shift.ShiftRightForward | src/backports/shift.h:68-95 | the branch with cyclic swaps terminates and moves the same elements to the same positions as the other branch, with the same result |
| Shift.SwapStep | src/backports/shift.h:81-94 | a swap keeps the invariant: the first `n` cells are a rotation of the `n` elements before the head |
| ConstructTemplatePreprocessor.Preprocess | src/engine/ConstructTemplatePreprocessor.cpp:94-121 | the preprocessed triples are those of the templates that can ever yield a triple, in order, and the columns collected are exactly those they use, without duplicates |
| ConstructTemplatePreprocessor.PreprocessTriple | src/engine/ConstructTemplatePreprocessor.cpp:79-91 | nothing exactly if one of the terms can never have a value |
| ConstructBatchEvaluator.EvaluateVariableByColumn | src/engine/ConstructBatchEvaluator.cpp:46-99 | whatever the cache holds and evicts, each row gets the entry the cache had for its id, or else the term that the id is resolved to; the ids looked up are strictly increasing misses; new entries are what the ids are resolved to |
| ConstructBatchEvaluator.LookUp | src/engine/ConstructBatchEvaluator.cpp:64-81 | each row is filled rightly or scheduled for a miss |
| ConstructBatchEvaluator.EvaluateBatch | src/engine/ConstructBatchEvaluator.cpp:17-33 | with a cache that is correct for the terms known across tables, all columns of the batch get the terms of their own table, and the cache stays correct |
| ConstructTripleGenerator.InstantiatesRow | src/engine/ConstructTripleInstantiator.cpp:22-67 | for one row, the preprocessed templates yield what the templates mean, and every variable looked up is there |
| ConstructTripleGenerator.InstantiateBatch | src/engine/ConstructTripleInstantiator.cpp:44-67 | the double loop yields the triples row by row, template by template |
| ConstructTripleGenerator.InstantiatesRows | src/engine/ConstructTripleGenerator.cpp:32-53 | a batch that starts at row `b` of a table yields the triples of its rows with their own row ids |
| ConstructTripleGenerator.ComputeBatch | src/engine/ConstructTripleGenerator.cpp:32-53 | evaluating and instantiating a batch equals the row-by-row meaning of the templates |
| ConstructTypes.TermForIff | src/engine/ConstructTripleInstantiator.cpp:22-42 | what stands for a term at a position: an IRI for itself, a literal for itself as object only, a variable for the value of its column, and a blank node for `_:u` or `_:g`, the decimal number of the row, and its label |
| ConstructTypes.TripleForIff | src/engine/ConstructTripleInstantiator.cpp:56-65 | a triple comes out of a template exactly if its subject, predicate and object stand for the first, second and third term |
| ConstructTripleGenerator.NaiveTriplesIff | src/engine/ConstructTripleInstantiator.cpp:44-67 | the triples of the naive instantiation are exactly those that come out of some template for some row in a view, with the number of that row |
| ConstructTripleGenerator.EvaluateTables | src/engine/ConstructTripleGenerator.cpp:56-89 | with a resolver of its own for each table and one cache for all, for every batch size and eviction: as long as no two tables resolve differently an id that the template uses from the views of both, the pipeline equals naive row-by-row instantiation, and yields a triple exactly if its terms stand for those of a template in some row of a view |
| BlankNodeLabels.RowIdsDistinctIff | src/engine/ConstructTripleGenerator.cpp:67-83 | rows have ids of their own exactly if there is one view, the first view starts at row 0, or it starts behind all rows viewed |
| BlankNodeRows.ViewsAreOffset | src/engine/ExportQueryExecutionTrees.cpp:181-249 | no range that is exported is empty, and all but the first start at row 0 |
| BlankNodeRows.SelectedRowIdsDistinctIff | src/engine/ConstructTripleGenerator.cpp:67-83 | in terms of blocks, OFFSET and LIMIT: the selected rows have ids of their own exactly if the offset lies at the beginning of a block, or they end in the block in which they begin, or there are at most as many of them as rows of this block have been skipped |
| BlankNodeLabels.CollisionExample | src/engine/ConstructTripleGenerator.cpp:70-80 | a first view that starts at row 1 shares an id with the next table |
| BlankNodeLabels.BlankNodeTextInjective | src/engine/ConstructTripleInstantiator.cpp:33-36 | the text of a blank node determines kind, row id and label |
| BlankNodeLabels.BlankNodesDistinct | src/engine/ConstructTripleGenerator.cpp:47-83 | where row ids are distinct, blank nodes are equal only for the same row, label and kind |
| RdfTerms.RoundTripIff | src/engine/ExportQueryExecutionTrees.cpp:364-413 | a string survives conversion to a binding and back exactly if it is a well-formed term whose closing quote is its last quote |
| RdfTerms.NoBindingIff | src/engine/ExportQueryExecutionTrees.cpp:390-413 | exactly these strings have no binding: a single quote, behind which the code reads, and those with a broken datatype, which violate a check |
| RdfTerms.QuoteInDatatypeExample | src/engine/ExportQueryExecutionTrees.cpp:390-413 | `"x"^^<a"b>` comes back as an untyped literal |
| RdfTerms.RoundTrip | src/cli-utils/RdfOutputUtils.cpp:247-266 | for every well-formed IRI, blank node and plain, language-tagged or typed literal: the kind, value, datatype and language of its binding; and it comes back unchanged |
| RdfTerms.EncodedValue | src/engine/ExportQueryExecutionTrees.cpp:367-372 | the binding of an encoded value, which comes back as a literal with its datatype |
| Describe.DescribeRun.GetNewBlankNodes | src/engine/Describe.cpp:102-122 | the blank nodes of the input not seen before, each once; they are added to the ones seen |
| Describe.DescribeRun.GetIdsToDescribe | src/engine/Describe.cpp:204-233 | the fixed resources and the values of the variables, each once |
| Describe.DescribeRun.RecursivelyAddBlankNodes | src/engine/Describe.cpp:125-149 | ends also on cyclic graphs with a set of blank nodes that leads only into itself; each of them is expanded exactly once |
| Describe.DescribeRun.ComputeResult | src/engine/Describe.cpp:236-257 | the result triples are those of the ids reached from the described ones over blank nodes; each is there once per matching described id and once more per matching blank node reached |
| Describe.ClosureUnique | src/engine/Describe.cpp:125-149 | the ids reached in one or more steps are the only set of reached ids that the seeds and the set itself lead into |
| Describe.ReachedIsLeast | src/engine/Describe.cpp:125-149 | reaching is the least closed set with the seeds |
| Describe.RepeatedIff | src/engine/Describe.cpp:246-254 | a triple is in the result twice exactly if its subject is both described and a blank node reached again |
| Describe.RepeatedExample | src/engine/Describe.cpp:246-254 | a described blank node with a triple that leads back to it: the triple is in the result twice |
| Describe.AfterRound | src/engine/Describe.cpp:138-146 | expanding the pending blank nodes makes their new blank objects the pending ones |
| UpdateTemplates.TransformTriplesTemplate | src/engine/ExecuteUpdate.cpp:49-180 | fails exactly if a variable of a subject, predicate, object or graph has no column; otherwise every lookup succeeds and each template keeps its meaning in every row |
| UpdateTemplates.TripleMeaning | src/engine/ExecuteUpdate.cpp:122-195 | resolving a transformed triple gives the quad that the template stands for |
| UpdateTemplates.TemplateQuadIff | src/engine/ExecuteUpdate.cpp:139-215 | a quad is the instance of a template in a row exactly if each component is the value of the variable, the encoded id, or else the id looked up, and the graph that of the IRI, the variable or the default graph |
| QuadLists.SortAndRemoveDuplicates | src/engine/ExecuteUpdate.cpp:284-289 | strictly sorted, with the same quads |
| QuadLists.SetMinus | src/engine/ExecuteUpdate.cpp:292-298 | on sorted lists, the merge keeps each quad as often as it occurs more often in the first list; the result is sorted |
| QuadLists.SetMinusIsSetDifference | src/engine/ExecuteUpdate.cpp:292-298 | on strictly sorted lists this is the set difference |
| QuadLists.StrictlySortedUnique | src/engine/ExecuteUpdate.cpp:284-289 | a set of quads has one strictly sorted list, so the order of the rows leaves no trace |
| QuadLists.LessIff | src/global/IdTriple.h:63-71 | the order is total and decided by the first of subject, predicate, object and graph that differ |
| ExecuteUpdate.ComputeAndAddQuadsForResultRow | src/engine/ExecuteUpdate.cpp:199-215 | adds exactly the fully bound instances of the templates in the row |
| ExecuteUpdate.Interpolate | src/engine/ExecuteUpdate.cpp:253-264 | over all ranges of rows, both lists hold exactly the instances |
| ExecuteUpdate.ComputeGraphUpdateQuads | src/engine/ExecuteUpdate.cpp:218-281 | both lists are strictly sorted; insertions are exactly the instances over the selected rows, deletions are theirs without the insertions; the counts are those before common quads are dropped |
| ExecuteUpdate.Execute | src/engine/ExecuteUpdate.cpp:12-42 | any quads `G` become `(G \\ D) ∪ I`, where `I` and `D` have exactly the instances of the templates in the rows selected, component by component |
| Datasets.ActiveGraphsIff | src/parser/DatasetClauses.cpp:44-83 | the graphs that a triple sees inside GRAPH clauses nested in any way: the default graph, the named graphs, the one graph of an IRI that the query may use, or none inside such a clause |
| PatternFrames.OccurrenceIsSeen | src/engine/CheckUsePatternTrick.cpp:13-84 | a variable that occurs in an operation is reported by the check or is the variable of a GRAPH clause |
| PatternFrames.SeenOccurs | src/engine/CheckUsePatternTrick.cpp:13-84 | conversely, a variable that the check reports occurs in the operation, unless this contains one of the services that are taken to contain every variable |
| PatternFrames.RunFrame | src/engine/QueryPlanner.cpp:3048-3149 | operations in which some variables do not occur, not even as variables of GRAPH clauses, have the same solutions whatever these are bound to |
| PatternFrames.RunAvoids | src/engine/QueryPlanner.cpp:3048-3149 | nor do they bind these variables |
| PatternTrickMeaning.SolutionIff | src/engine/CheckUsePatternTrick.cpp:137-162 | the solutions of a pattern are those of the rest, with the variables of one of its triples added |
| PatternTrickMeaning.OwnColumn | src/engine/CheckUsePatternTrick.cpp:98-120 | an additional scan column for a triple that becomes an ordinary scan adds the pattern of the subject to its solutions |
| PatternTrickMeaning.NoColumn | src/engine/QueryPlanner.cpp:862-890 | for any other triple the column adds nothing, and binds no variable |
| PatternTrickMeaning.OwnTriple | src/engine/CheckUsePatternTrick.cpp:137-162 | a triple with variables of its own adds its own bindings to the solutions of the other triples |
| CheckUsePatternTrick.SuitableIff | src/engine/CheckUsePatternTrick.cpp:207-289 | a triple is suitable exactly if it is `?s ql:has-predicate ?p` or `?s ?p ?o` with different variables, `?p` and `?o` are not reported elsewhere, the query groups by `?p`, and it counts nothing or the distinct `?s` |
| CheckUsePatternTrick.OccursElsewhereIff | src/engine/CheckUsePatternTrick.cpp:13-84 | the check finds a variable outside a triple, or it is that of a GRAPH clause, exactly if it occurs in the query without the triple, or some service is taken to contain every variable |
| CheckUsePatternTrick.PatternAvailableIff | src/engine/CheckUsePatternTrick.cpp:98-132 | the pattern is available exactly if the first triple with one IRI as predicate and the variable as subject, else as object, if there is any, has a predicate without a meaning of its own and nothing in it is internal to the engine |
| CheckUsePatternTrick.SimplePredicateIff | src/parser/SparqlTriple.h:111-120 | rewriting triples and finding views look at the same predicates: those that are one IRI |
| CheckUsePatternTrick.SuitableIsIsolatedIff | src/engine/CheckUsePatternTrick.cpp:207-289 | a suitable triple shares only its subject with the rest of the query exactly if none of its other variables is the variable of a GRAPH clause |
| CheckUsePatternTrick.RewriteTriplesForPatternTrick | src/engine/CheckUsePatternTrick.cpp:93-132 | the first triple with the variable as subject, else as object, gets the additional column; else a triple of its own is added |
| CheckUsePatternTrick.RewrittenTriplesMeaning | src/engine/CheckUsePatternTrick.cpp:93-132 | scanned as they are, the rewritten triples have the solutions of the others with the pattern of the subject added, if the chosen triple becomes an ordinary scan or a triple of its own is added |
| CheckUsePatternTrick.MayPlanRewrittenIff | src/engine/QueryPlanner.cpp:2606-2642 | the planner plans the rewritten query as it is, or, possible exactly if a materialized view covers the chosen triple, one from which a triple has only been erased: the scan of a view has no additional columns |
| MaterializedViews.CoveredAloneIff | src/engine/MaterializedViewsQueryAnalysis.cpp:28-75 | in a query of triples only, a triple is covered exactly if a chain or a star of a view consists of it and other triples of the query |
| MaterializedViews.ReplacesTogether | src/engine/MaterializedViewsQueryAnalysis.cpp:128-213 | a view replaces only several triples together |
| ViewReplacements.MakeJoinReplacementIndexScans | src/engine/MaterializedViewsQueryAnalysis.cpp:28-75 | the two passes over the triples find scans that cover exactly the triples that some view can replace |
| ViewReplacements.CollectCandidates | src/engine/MaterializedViewsQueryAnalysis.cpp:37-66 | the two maps have exactly the triples that can be the left side, or the right side, of a chain, by the variable where they meet |
| ViewReplacements.MakeScansFromChains | src/engine/MaterializedViewsQueryAnalysis.cpp:78-125 | the scans for chains replace exactly the pairs of triples that are the chain of some view |
| ViewReplacements.MakeScansForSubject | src/engine/MaterializedViewsQueryAnalysis.cpp:128-213 | the scans for stars replace exactly the triples that are an arm of a view of which all arms are there; an object or predicate counts for its first triple only |
| CheckUsePatternTrick.BindsPredicateIff | src/engine/CheckUsePatternTrick.cpp:98-132 | every plan of the rewritten triples binds the predicate variable exactly if the chosen triple, if any, becomes an ordinary scan and no materialized view covers it; a plan that does not is that of the query from which a triple has only been erased |
| CheckUsePatternTrick.HasPatternHolds | src/engine/CheckUsePatternTrick.cpp:126-131 | a triple of its own finds the stored patterns, and only if their graph is active |
| CheckUsePatternTrick.ParsedQuery.FindPatternTrickTuple | src/engine/CheckUsePatternTrick.cpp:142-162 | the first suitable triple of the basic graph pattern is erased and replaced; without one, nothing changes |
| CheckUsePatternTrick.ParsedQuery.CheckUsePatternTrick | src/engine/CheckUsePatternTrick.cpp:165-204 | finds the first suitable triple in reading order, or leaves the query unchanged because there is none |
| CountingMaps.MergeableHashMap.Merge | src/engine/CountAvailablePredicates.cpp:207-216 | adds up the counts of both maps |
| CountingMaps.CountsSum | src/engine/CountAvailablePredicates.cpp:207-216 | maps that count disjoint items merge to one that counts all of them |
| CountAvailablePredicates.CountPatterns | src/engine/CountAvailablePredicates.cpp:241-260 | for every cutting of the loop into chunks and every order of merging, the number of runs of equal subjects per pattern |
| CountAvailablePredicates.TranslatePatterns | src/engine/CountAvailablePredicates.cpp:267-311 | likewise the number of rows counted per predicate; illegal patterns are reported, and subjects without pattern skipped |
| CountAvailablePredicates.RunsAreSubjects | src/engine/CountAvailablePredicates.cpp:244-250 | in a sorted column, counting runs is counting distinct subjects |
| CountAvailablePredicates.ComputePatternTrick | src/engine/CountAvailablePredicates.cpp:220-319 | each predicate with its number of distinct subjects, however the loops are chunked; fails exactly if a pattern does not exist |
| CountAvailablePredicates.ComputePatternTrickAllEntities | src/engine/CountAvailablePredicates.cpp:159-196 | the same for a scan of all subjects, in blocks |
| PatternTrick.OriginalPairs | src/engine/CheckUsePatternTrick.cpp:207-289 | for an isolated triple: subject and predicate occur together in the original query exactly if the rest has the subject and the triple gives it the predicate |
| PatternTrick.RewrittenPairs | src/engine/CheckUsePatternTrick.cpp:93-162 | for an isolated triple, if the pattern is available: the rewritten query, planned as it is, pairs the same subjects with their patterns |
| PatternTrick.SamePairsIff | src/engine/CheckUsePatternTrick.cpp:93-289 | the rewriting preserves which subjects and predicates belong together exactly if the active graphs agree with the patterns, which list the predicates of all graphs |
| PatternTrick.PairsNested | src/engine/CheckUsePatternTrick.cpp:93-289 | the trick errs in one direction only: it finds too much, or, with a triple of its own whose graph is not active, nothing |
| GroupedAnswers.AnswersQueryIff | src/engine/CheckUsePatternTrick.cpp:207-289 | what a query asks for that groups by the predicate: one row for each predicate, with a COUNT that of the distinct subjects |
| GroupedAnswers.SameKeysIff | src/engine/CheckUsePatternTrick.cpp:93-289 | the rewriting preserves which predicates there are exactly if each predicate of a subject is that of some subject in an active graph: the condition if nothing is counted |
| PatternTrickQuery.PredicateHasColumnIff | src/engine/CountAvailablePredicates.cpp:146-147 | whatever the planner chooses, the result has a column for the predicate variable: this holds exactly if the pattern is available and no materialized view covers the triple that delivers it |
| PatternTrickQuery.PlanHasColumnIff | src/engine/CountAvailablePredicates.cpp:146-147 | for one plan: the column is there exactly if the pattern is available and the plan is that of the query as it is; the column of the subject always is |
| PatternTrickQuery.ColumnsAreCountable | src/engine/CountAvailablePredicates.cpp:241-255 | the columns of the rewritten query have one pattern per subject, and only patterns that exist |
| PatternTrickQuery.PatternTrickIsRight | src/engine/CountAvailablePredicates.cpp:220-319 | for a suitable triple of which no variable but the subject is that of a GRAPH clause, a pattern that is available, and no materialized view that covers the triple delivering it: counting the patterns in the result of any plan gives a row for each value of the GROUP BY variable over the solutions of the original query, with the number of distinct values of the counted variable, exactly if the active graphs agree with the patterns |
| PatternTrickQuery.AgreesWithoutFrom | src/engine/CheckUsePatternTrick.cpp:93-289 | without FROM clauses the active graphs agree with the patterns |
| PatternTrickQuery.ComputeResult | src/engine/CountAvailablePredicates.cpp:103-156 | for the result of any plan: an exception exactly if the pattern is not available or the plan has lost its column, and otherwise what the query asks for, exactly if the active graphs agree |
| PatternTrickQuery.AnswerByPatternTrick | src/engine/QueryPlanner.cpp:147-181 | from the query to its groups, for every plan that the planner may choose: detection, rewriting, lookup of the columns and counting in chunks; not applicable exactly if there is no suitable triple; otherwise an exception, or the rows that GROUP BY and COUNT of the query ask for, each under exactly the conditions above; always an exception if the trick is applied to a query without SELECT clause |
| PatternTrickQuery.NeverFailsIff | src/engine/QueryPlanner.cpp:147-181 | for a SELECT query, no plan that the planner may choose leads to an exception exactly if the pattern is available and no materialized view covers the triple that delivers it |
| PatternTrickQuery.AnswerWithoutFrom | src/engine/QueryPlanner.cpp:147-181 | without FROM clauses, whatever the plan: an answer that is no exception is what GROUP BY and COUNT of the query ask for; it is none if the pattern is available and no view covers the triple that delivers it, and an exception if the pattern is not available |
| PatternTrickExamples.GraphVariableExample | src/engine/CheckUsePatternTrick.cpp:41-44 | `{ ?s ?p ?o . GRAPH ?p { ?x ?y ?z } }` is found suitable; it has a group, and the rewritten query has no solution |
| PatternTrickExamples.HasPredicateExample | src/engine/CheckUsePatternTrick.cpp:105-114 | `{ ?s ql:has-predicate <q> . ?s ?p ?o }` is rewritten to a query whose result has no column for the predicate variable |
| PatternTrickExamples.MaterializedViewExample | src/engine/MaterializedViewsQueryAnalysis.cpp:28-213 | `{ ?s <p> ?x . ?s <q> ?y . ?s ?p ?o }` with the star of `<p>` and `<q>` as a view, and `{ ?s <p> ?x . ?x <q> ?y . ?s ?p ?o }` with their chain: the query has a group, the pattern is available, and the planner may choose a plan whose result has no column for the predicate variable |
| PatternTrickExamples.BindExample | src/engine/QueryPlanner.cpp:3178-3192 | triples on different sides of a BIND are not replaced together |
| PatternTrickExamples.ConstructExample | src/engine/QueryPlanner.cpp:176-178 | `{ ?s ?p ?o } GROUP BY ?p` is found suitable whatever the kind of the query: a SELECT query gets groups whatever the plan, a CONSTRUCT query an exception |
| PatternTrickExamples.FromExample | src/engine/CheckUsePatternTrick.cpp:207-289 | with FROM, a subject is counted for a predicate that it has only in other graphs |

## Left out

- Cancellation, memory limits, allocators, logging, runtime information and cost estimates: no effect on the results.
- Counters of type `size_t` are natural numbers, except for the limits and offsets in `RowIndices` and the words in `Bitset`.
- CartesianProductJoin.CreateLazyConsumer: the chunk size is positive; with a chunk size of 0 the code yields nothing for a block and then fails its own check.
- CartesianPushdown.CalculateSubResults: a child that is known to be empty is taken to be empty; the vocabularies of the children and the check against computing twice are not modelled.
- AddCombinedRowToTable.AddCombinedRowToIdTable.ToIdTableVocabPair: the callback takes table and vocabulary together, or neither. A vocabulary is the set of words it holds.
- AddCombinedRowToTable.AddCombinedRowToIdTable.SetInput: the constructor that takes two inputs at once is the other constructor followed by this method, with inputs that have no vocabulary.
- RowIndices.GetRowIndices: the lazy views are one loop over the blocks, which counts the blocks it pulls.
- ExistsJoin.ComputeExists: only the join column of the inputs is modelled; the variant for materialized inputs and nested-loop joins is not.
- ConstructBatchEvaluator.EvaluateVariableByColumn: the order in which the cache evicts entries is arbitrary, instead of least recently used first.
- ConstructTripleGenerator.EvaluateTables: why tables satisfy `Consistent` is not modelled: an id of a local vocabulary is the address of its word, and such ids are compared and hashed by the word (`src/global/IndexTypes.h:16`, `src/index/LocalVocab.cpp:74-77`, `src/global/ValueId.h:180-214` and `407-421`), so two tables whose vocabularies are alive cannot resolve one id differently. Formatting and escaping of triples is not modelled either.
- Describe.DescribeRun.JoinWithFullIndex: the join is modelled by the triples it returns, without their order.
- UpdateTemplates.TransformTriplesTemplate: vocabulary lookups are a function of the term; the order of the lookups, which only matters for the speed, is left out.
- QuadLists.Sort: an insertion sort stands for the sort of the standard library.
- ExecuteUpdate.Execute: the index with its changes is a set of quads.
- CheckUsePatternTrick.ParsedQuery.CheckUsePatternTrick: the triple to ignore is given by its position instead of its address. IRIs are told apart by constructors instead of their text. The WITH clause of updates is not modelled.
- GraphPatterns.IsSolution: a filter or an expression of BIND is a function of the variables it says it contains; a subquery, VALUES, SERVICE, property path, text or spatial search is the set of its solutions.
- ViewReplacements.MakeJoinReplacementIndexScans: the views are given by the chains and stars found in their queries, where a star has at least two arms; the scans are given by the triples they cover.
- MaterializedViews.MayPlan: it is taken for granted that a view holds what the triples it replaces match in the active graphs, and that planning does not fail. Which replacements are taken depends on cost estimates; the model allows each of them.
- PatternTrickQuery.AnswerByPatternTrick: the plan is taken to return its solutions, sorted by subject. Two cases of a subquery inside a GRAPH clause with a variable are not modelled: such a subquery is planned without the variable unless it selects it (`src/engine/QueryPlanner.cpp:3391-3406`), and with GROUP BY it can only select it as the variable it groups by or as the name of the count (`src/parser/ParsedQuery.cpp:168-200`). HAVING, ORDER BY and the like, which apply to the groups, are not modelled. The patterns are those of an index without updates.
- The formats CSV, TSV and XML, the command line, the server and the graph store protocol: input and output.
