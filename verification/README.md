# Verified models of the workflow engine and its neighbours

This project models the parts of the backend in which most of the state and
branching is, and proves what they keep. `dafny verify dfyconfig.toml` checks
everything.

**Workflow engine.** `GraphValidation` is the validator with its coloured
depth-first search, proved exact against a declarative reading of a well-formed
graph. `WorkflowWalk` says what executing a graph in declaration order means;
`WorkflowRunner` is the recursive runner with its mutable context, proved to do
just that. `WorkflowMachine` is the same runner between its awaits: a tree of
suspended walks, any of which may take the next step, so that a schedule is a
sequence of picks. `ProcessMeaning` gives every suspended run a meaning,
`BranchFootprints` says what each branch may read and write, `Interference` that
an execution depends on nothing else, and `Confluence` that the schedule does
not matter when branches are independent. `HandlerKeys` reads independence off the
graph and the variables that the code's handlers use, and `DeclarationOrder` shows
that the walk in declaration order is one of the schedules, whatever branches share.
`WalkPaths` and `PathCount` count rows by paths, in declaration order and in every
interleaving; `WalkFacts` describes sequential runs. `RunLifecycle` adds the run
row, the final writes and cancel requests, and `DeclaredRuns` says how every run of
independent branches ends and that the runner's own run is one of the histories.
`WorkflowStore`, `ValidatedGraphs` and `StoredRuns` show what the service guarantees
about every run it can ever start. `GraphPaths` are the ways a run can go;
`ReachableForks` says from which nodes a run can come to a fork, `NoForksAhead` and
`ForksAhead` what follows where it cannot and where it can, with schedules from
`Flows`, and `FailureHalts` on which graphs a failure halts a run. `ValidationGaps`
holds a concrete graph on which comments in the code promise more than the code does.

**Streaming.** `EventLines` is the line buffer over arbitrary reads;
`AnthropicStream`, `GeminiStream` and `OpenAiStream` are the three folds of
events into text and tool calls, and `AnthropicBlocks` says when fragments of
tool arguments survive.

**Chunking and ingestion.** `TextCleaning`, `TextTidiness`, `TextSplitting` and
`TextChunker` are the recursive chunker; `Embedding` and `Ingestion` turn
documents into indexed rows. `CsvExtractor` is the CSV line scanner with an
inverse printer.

**Agents and quotas.** `AgentLoop` and `AgentTrace` are the tool-calling loop;
`AgentLifecycle` is the version and deployment state machine; `Quota` is the
cache in front of the usage records, with its calls whole and with their steps
interleaved.

Node handlers, edge conditions, models, tools, the tokenizer, embeddings, JSON
and the ids and clocks of the database are parameters: the theorems hold for all
of them. Exceptions are results. A comment and the code disagree in these places,
and the code is followed: the validator accepts cycles and duplicate edge ids
outside its checks (graph.validation.ts:14-16); a failing branch does not halt
its siblings (graph.types.ts:79); ingestion is not a no-op on FAILED documents
(knowledge.service.ts:287-290); deploying does copy the fields of the version
(agents.service.ts:219-223).

## Model

| member | source | states |
|---|---|---|
| GraphValidation.ValidateGraph | backend/src/modules/workflows/engine/graph.validation.ts:18-70 | answers ok exactly for well-formed graphs (ids and types present, node ids unique, one TRIGGER, edges with ids and existing distinct ends, no cycle reachable from the TRIGGER, an END reachable); every report has its cause in the graph, every cause but a cycle is reported under its own name, and some cycle is reported exactly when one is reachable |
| GraphValidation.SearchFrom | backend/src/modules/workflows/engine/graph.validation.ts:51-66 | the coloured search blackens exactly the ids reachable from the TRIGGER, reports only nodes that really lie on a cycle, and reports one exactly when there is one |
| GraphValidation.Search | backend/src/modules/workflows/engine/graph.validation.ts:55-64 | one call of the search keeps the colouring invariant: gray is the path from the root, black ids are finished before everything that points to them |
| GraphValidation.CheckNodes | backend/src/modules/workflows/engine/graph.validation.ts:24-30 | the node reports are exactly the missing ids, the duplicate ids and the missing types, and the set of ids is that of the nodes that have one |
| GraphValidation.CheckEdges | backend/src/modules/workflows/engine/graph.validation.ts:36-41 | the edge reports are exactly the missing ids, the unknown ends and the self-loops |
| GraphValidation.OrderedIsAcyclic | backend/src/modules/workflows/engine/graph.validation.ts:55-64 | an order of ids in which every edge leads to an earlier id rules out cycles below any listed id; the order is the one in which the search blackens |
| WorkflowGraphs.AcyclicIsLayered | backend/src/modules/workflows/engine/graph.validation.ts:55-65 | where the search finds no cycle, the number of reachable ids drops along every edge, which is the measure that makes the runner terminate |
| ValidationGaps.IslandIsAccepted | backend/src/modules/workflows/engine/graph.validation.ts:14-16 | the description promises a DAG and unique edge ids; this concrete graph has neither and is accepted, and a failure does not halt its runs |
| ValidationGaps.EdgeIdsDoNotMatter | backend/src/modules/workflows/engine/graph.validation.ts:36-37 | acceptance does not depend on the ids of the edges, as long as every edge has one: whether they are unique makes no difference |
| ValidationGaps.AcceptedIsDagIff | backend/src/modules/workflows/engine/graph.validation.ts:43-67 | an accepted graph is a DAG, as described, if and only if the search would find no cycle from any node that it does not reach from the TRIGGER |
| WorkflowRunner.Runner.Walk | backend/src/modules/workflows/engine/workflow-runner.ts:109-165 | the recursive runner with its mutable step, vars, log and run row does exactly what the meaning of a walk says, including the exception it throws; it terminates because ranks drop along edges |
| WorkflowRunner.Runner.Follow | backend/src/modules/workflows/engine/workflow-runner.ts:146-164 | the loop over the matching edges, all chosen before the first is followed: a failure stops a sequence, while in a fork the other branches still run |
| WorkflowRunner.Runner.Run | backend/src/modules/workflows/engine/workflow-runner.ts:74-107 | a run without snapshot, without TRIGGER, completed or failed: status, context, current node and completion of the row and the log afterwards, in terms of the walk from the TRIGGER; a failed row holds the first 1000 characters of the error |
| WorkflowWalk.NextAreBelow | backend/src/modules/workflows/engine/workflow-runner.ts:146-160 | every node visited next is a node of the graph, is the target of an edge out of the current one and has a smaller rank |
| WorkflowWalk.SuccessorsAreTargets | backend/src/modules/workflows/engine/workflow-runner.ts:151-163 | the nodes that edges lead to are their targets in the order of the edges; only targets that do not exist are passed over |
| WalkFacts.WalkIsReplay | backend/src/modules/workflows/engine/workflow-runner.ts:109-165 | every walk is a linear replay of the nodes it visits: the final vars are the Object.assign fold of setVars in log order, the step counter is the number of visits, and each row records the answer of the handler to exactly the vars merged before it |
| WalkFacts.SequentialRows | backend/src/modules/workflows/engine/workflow-runner.ts:121-143 | when no PARALLEL node that the walk can visit ever has two matching edges, a completed run has one completed row per step; a run failed by a handler has exactly one failed row, the last one; the only other failure is a node type without handler, which writes no row |
| WalkFacts.FailuresHaveReasons | backend/src/modules/workflows/engine/workflow-runner.ts:109-142 | forks or not: without a failure all rows are COMPLETED, and a failure carries the message of a failed row, the name of its node where the handler gave none, or the node type that has no handler |
| WalkPaths.PathsFromListsPaths | backend/src/modules/workflows/engine/workflow-runner.ts:144-164 | the depth-first list of paths contains exactly the edge paths from a node that leave no END, each once |
| WalkPaths.RowsArePaths | backend/src/modules/workflows/engine/workflow-runner.ts:144-164 | when the handlers and conditions of the nodes and edges that a run can visit hold nothing up, row k is written for the end of the k-th path: a node below a diamond runs once per path, there is no join |
| PathCount.EveryScheduleLogsPaths | backend/src/modules/workflows/engine/workflow-runner.ts:144-164 | for sequential and PARALLEL fan-out and every interleaving: such a run resolves and logs each node once for every path from the TRIGGER to it |
| WorkflowMachine.SchedulesAreFinite | backend/src/modules/workflows/engine/workflow-runner.ts:109-165 | every schedule of the suspended branches is finite, for all handlers, conditions and interleavings |
| WorkflowMachine.UnsettledCanStep | backend/src/modules/workflows/engine/workflow-runner.ts:150-164 | a run that has neither resolved nor rejected can always take a step |
| ProcessMeaning.StillIsDone | backend/src/modules/workflows/engine/workflow-runner.ts:150-164 | a run in which no branch can take a step has nothing left to do; it has resolved or it has rejected |
| BranchFootprints.StepStaysInside | backend/src/modules/workflows/engine/workflow-runner.ts:121-164 | when the handlers and conditions of the nodes of the graph keep to the keys declared for them, so does every step of every branch, and parallel branches stay separated |
| Interference.EvalFrame | backend/src/modules/workflows/engine/workflow-runner.ts:109-165 | two contexts that agree on what a run may read give it the same visits, writes, rows and failure |
| Interference.EvalWrites | backend/src/modules/workflows/engine/workflow-runner.ts:122 | a run writes only keys declared for it |
| Confluence.StepPreserves | backend/src/modules/workflows/engine/workflow-runner.ts:109-165 | whichever independent branch takes the next step, what the run amounts to when finished in declaration order stays the same |
| Confluence.EveryScheduleAgrees | backend/src/modules/workflows/engine/workflow-runner.ts:150-164 | confluence: when edges of a PARALLEL node that match together lead to independent branches, every schedule carried to its end gives the same vars, the same multiset of log rows, the same step count and the same verdict as running the branches in declaration order |
| HandlerKeys.ApartBranchesAgree | backend/src/modules/workflows/engine/workflow-runner.ts:150-156 | confluence read off the graph: it is enough that nodes reached by different edges of a PARALLEL node share no variable that one of them writes |
| HandlerKeys.StoringUsesOnly | backend/src/modules/workflows/engine/handlers/action.handler.ts:43-45 | handlers that store their results under the names that the code uses, from `outputAs` or fixed for the node type, and conditions that ask for a variable, use only keys computed from the graph |
| HandlerKeys.DiamondIsCovered | backend/src/modules/workflows/engine/handlers/action.handler.ts:43-45 | a graph that forks into two ACTION nodes with different `outputAs`, under such handlers, meets the conditions of confluence |
| RunLifecycle.CompletedIsFinal | backend/src/modules/workflows/engine/workflow-runner.ts:100-106 | COMPLETED is absorbing: no event of runner or cancel requests changes the row, the vars or the log any more |
| RunLifecycle.FailedIsFinal | backend/src/modules/workflows/engine/workflow-runner.ts:103-106 | FAILED is absorbing as a status, with its error, under atomic cancel requests, even while other branches go on |
| RunLifecycle.FailedRowsNameTheirError | backend/src/modules/workflows/engine/workflow-runner.ts:174-179 | in every history a FAILED row holds the first 1000 characters of the error of a branch that has rejected, or says that there is no TRIGGER |
| RunLifecycle.TerminalRowsAreStamped | backend/src/modules/workflows/engine/workflow-runner.ts:167-179 | in every history every terminal row has completedAt |
| RunLifecycle.OneVerdict | backend/src/modules/workflows/engine/workflow-runner.ts:95-106 | the runner writes at most one terminal status, and has done so exactly when it is settled |
| RunLifecycle.CancelledStays | backend/src/modules/workflows/workflows.service.ts:174-184 | CANCELLED is left only by the own status writes of the runner |
| RunLifecycle.VerdictFallsToLateCancel | backend/src/modules/workflows/workflows.service.ts:174-184 | when the read and the write of a cancel request come apart, the verdict of the runner is overwritten if and only if a request that had read the row before writes after it |
| RunLifecycle.LateCancelOverwrites | backend/src/modules/workflows/workflows.service.ts:174-184 | and this does happen: a request that reads the row before either verdict and writes after it leaves CANCELLED |
| RunLifecycle.CancelNeverSticks | backend/src/modules/workflows/workflows.service.ts:174-184 | with atomic cancel requests at any moments, every finished run is COMPLETED when all its branches resolved and FAILED otherwise, never CANCELLED |
| DeclaredRuns.EveryRunEndsAsDeclared | backend/src/modules/workflows/engine/workflow-runner.ts:74-107 | with independent branches the final status, context, step count and rows depend neither on the schedule nor on cancel requests, and a failed row names the error of one of the branches |
| DeclaredRuns.RunnerIsAHistory | backend/src/modules/workflows/engine/workflow-runner.ts:74-165 | on every graph without a reachable cycle, whatever branches share: the run row, vars, step count and log that the recursive runner leaves are, to the last field, where some history of the interleaved machine ends |
| RunLifecycle.EveryRunEnds | backend/src/modules/workflows/engine/workflow-runner.ts:74-107 | the runner takes a bounded number of steps whatever the handlers, conditions, interleavings and cancel requests |
| FailureHalts.FailureHaltsIffNoFork | backend/src/modules/workflows/engine/graph.types.ts:79 | the promise that ok=false halts the run, exactly: on a validated graph no row is written after FAILED, for all handlers, conditions and histories, if and only if no run can come to a fork. A run can come to one at a PARALLEL node with two or more outgoing edges, one of them to a node type with a handler, or below an edge if it can get past the targets of the earlier edges that match whenever that edge does; it can get past a node if the node and all that unconditional edges lead to from it have handlers |
| FailureHalts.HandledGraphMayFork | backend/src/modules/workflows/engine/graph.types.ts:79 | where all node types have handlers, a run can come to a fork if and only if an END-free path from the TRIGGER reaches a PARALLEL node with two or more outgoing edges |
| ForksAhead.ReachFork | backend/src/modules/workflows/engine/workflow-runner.ts:144-156 | from any point from which a run can come to a fork there are answers of the conditions and a schedule that lead to it, for every handler that gives these answers |
| NoForksAhead.StepKeepsCalm | backend/src/modules/workflows/engine/workflow-runner.ts:144-156 | a run that cannot come to a fork stays so with every step, whatever handlers and conditions answer |
| FailureHalts.SequentialFailureHalts | backend/src/modules/workflows/engine/graph.types.ts:79 | where no two edges of a PARALLEL node that the run can visit ever match at a time, no node is executed and no row is written from FAILED on |
| FailureHalts.ForkGoesOn | backend/src/modules/workflows/engine/workflow-runner.ts:150-156 | where a fork can be reached: a run in which the handlers succeed up to the fork and one branch after it does, and a row of that branch after FAILED; all branches have started before the failure |
| WorkflowStore.Service.Create | backend/src/modules/workflows/workflows.service.ts:43-66 | stores a DRAFT of version 1 exactly when the submitted or assembled definition is well-formed, and reports flaws otherwise |
| WorkflowStore.Service.Update | backend/src/modules/workflows/workflows.service.ts:68-92 | rejects an invalid definition without changing anything; otherwise applies the edit and raises the version exactly when a definition was given |
| WorkflowStore.Service.Activate | backend/src/modules/workflows/workflows.service.ts:94-110 | not found, archived, invalid or ACTIVE, as the stored row says |
| WorkflowStore.VersionDeterminesSnapshot | backend/src/modules/workflows/workflows.service.ts:132-145 | in every history all stored definitions and run snapshots are well-formed, and two runs of one workflow at one version have the same snapshot |
| WorkflowStore.VersionIsOnePlusEdits | backend/src/modules/workflows/workflows.service.ts:75-86 | in every history the version of a workflow is 1 plus the number of accepted edits of its definition |
| WorkflowStore.ActivateNeverFindsInvalidGraph | backend/src/modules/workflows/workflows.service.ts:99-100 | the INVALID_GRAPH branch of activate is unreachable |
| WorkflowStore.DeletedIsFrozen | backend/src/modules/workflows/workflows.service.ts:30-41 | once deletedAt is set no request changes the workflow or starts a run of it |
| WorkflowStore.ArchivedCanRunAgainIffNotDeleted | backend/src/modules/workflows/workflows.service.ts:84 | a workflow that update set to ARCHIVED is refused by activate but can run again; only deletedAt makes ARCHIVED final |
| ValidatedGraphs.ValidatedGraphRuns | backend/src/modules/workflows/engine/workflow-runner.ts:85-93 | on a validated graph the runner finds the TRIGGER, getNode never misses, and what the run can visit is acyclic |
| StoredRuns.EveryStoredRunEnds | backend/src/modules/workflows/engine/workflow-runner.ts:74-107 | whatever requests came before, every run that the service stored finds its TRIGGER and ends in a bounded number of steps |
| StoredRuns.ValidatedGraphLogsPaths | backend/src/modules/workflows/engine/workflow-runner.ts:144-164 | path counting for every validated graph in which the node types that the TRIGGER reaches have handlers |
| EventLines.ReadAppends | backend/src/modules/ai/providers/anthropic.provider.ts:120-122 | one read: the closed lines so far and the rest of the line depend only on the text so far, wherever it was cut |
| EventLines.SplitIsExact | backend/src/modules/ai/providers/anthropic.provider.ts:121 | the pieces of a split contain no separator and join to the text |
| EventLines.OneMoreRead | backend/src/modules/ai/providers/anthropic.provider.ts:117-123 | after any number of reads the events are those of the closed lines of the whole text |
| EventLines.PrintedReadsBack | backend/src/modules/ai/providers/anthropic.provider.ts:123-128 | events printed as data lines and read back are the same events |
| EventLines.PayloadIff | backend/src/modules/ai/providers/anthropic.provider.ts:123-126 | a line has a payload if and only if it begins with data: and between white space something other than the end marker follows |
| AnthropicStream.ChatStream | backend/src/modules/ai/providers/anthropic.provider.ts:106-176 | however the text is cut into reads, the answer and the emitted chunks are those of folding the events on the closed lines of the whole text; an unfinished last line is dropped |
| AnthropicBlocks.TextIsEmitted | backend/src/modules/ai/providers/anthropic.provider.ts:139-142 | the content is the concatenation of the emitted texts |
| AnthropicBlocks.ArgumentsAreEmittedIffNotTorn | backend/src/modules/ai/providers/anthropic.provider.ts:143-153 | for every stream, bracketed or not: the arguments of a call are the fragments emitted for its index if and only if no stop falls between two of its fragments; otherwise earlier fragments are lost |
| AnthropicBlocks.BlocksAreEmitted | backend/src/modules/ai/providers/anthropic.provider.ts:133-153 | in bracketed streams, with any other events in between, the arguments of the n-th tool block are also what was emitted for index n |
| AnthropicBlocks.NoiseIsIgnored | backend/src/modules/ai/providers/anthropic.provider.ts:129-160 | events that the switch does not name change nothing, wherever they come |
| AnthropicBlocks.MessageComesThrough | backend/src/modules/ai/providers/anthropic.provider.ts:127-160 | a message of text and tool blocks, with any other events in between, comes through with its text, its calls in order with all their fragments, and its token counts |
| AnthropicBlocks.CountsAreTheLast | backend/src/modules/ai/providers/anthropic.provider.ts:127-174 | for every stream the token counts are those last reported, the total is their sum, and the last chunk closes with them and the last reason to stop |
| AnthropicBlocks.StreamedEventsComeThrough | backend/src/modules/ai/providers/anthropic.provider.ts:106-176 | any events printed as data lines, cut into reads anywhere, give the answer and the chunks of the events themselves |
| GeminiStream.ChatStream | backend/src/modules/ai/providers/gemini.provider.ts:74-133 | the second read loop: answer and chunks are the fold of the events on the closed lines of the whole text |
| GeminiStream.AbsorbEvent | backend/src/modules/ai/providers/gemini.provider.ts:94-122 | one event: the parts up to the first that throws, and the counts and finish reason only if none does |
| GeminiStream.AnswerIsEmitted | backend/src/modules/ai/providers/gemini.provider.ts:97-112 | the content is the emitted text, and the emitted call chunks are exactly the calls, each once, in order, with index, id, name and arguments |
| GeminiStream.AnswerIsComplete | backend/src/modules/ai/providers/gemini.provider.ts:94-131 | for every stream the content is the text of all parts before a broken one, the calls are theirs with numbered ids, and counts and finish reason are the last ones reported by an event that did not throw |
| GeminiStream.StreamedEventsComeThrough | backend/src/modules/ai/providers/gemini.provider.ts:74-133 | events printed as data lines, cut anywhere, give the answer of the events themselves |
| OpenAiStream.ChatStream | backend/src/modules/ai/providers/openai.provider.ts:95-137 | for every interleaving of fragments the call at an index has the last id, the concatenated names and the concatenated arguments of its fragments; listeners saw each fragment once, in order, with its index, id, name and arguments |
| OpenAiStream.FragmentKeepsHolds | backend/src/modules/ai/providers/openai.provider.ts:108-117 | one fragment extends exactly the call of its index; assigning beyond the end leaves holes |
| OpenAiStream.CallsAreTouchedIndices | backend/src/modules/ai/providers/openai.provider.ts:136 | the result lists exactly the touched indices, in increasing order, each once |
| TextCleaning.CleaningKeepsText | backend/src/modules/knowledge/chunker/text-chunker.ts:48-55 | cleaning removes and adds only white space |
| TextTidiness.CleanTextIsTidy | backend/src/modules/knowledge/chunker/text-chunker.ts:48-55 | a cleaned text has no blank before a newline, no two blanks and no three newlines in a row |
| TextTidiness.TidyTextIsUnchanged | backend/src/modules/knowledge/chunker/text-chunker.ts:48-55 | a text that is tidy already, trimmed and without CR LF is not changed |
| TextSplitting.RecursiveSplit | backend/src/modules/knowledge/chunker/text-chunker.ts:57-80 | the recursive split with its loop computes the recursively defined pieces |
| TextSplitting.PiecesKeepText | backend/src/modules/knowledge/chunker/text-chunker.ts:57-80 | the characters that are neither white space nor one of . ! ? ; , survive recursive splitting in order, with none added |
| TextSplitting.PiecesAreNotBlank | backend/src/modules/knowledge/chunker/text-chunker.ts:79 | no piece is blank |
| TextSplitting.PiecesAreSmall | backend/src/modules/knowledge/chunker/text-chunker.ts:57-80 | but for separators at its end every piece has at most 800 tokens or is a single character |
| TextSplitting.SmallPartsStayWhole | backend/src/modules/knowledge/chunker/text-chunker.ts:57-80 | when the first separator cuts the text into parts of at most 800 tokens, none of them blank, the pieces are these parts with their separators |
| TextChunker.HardSplit | backend/src/modules/knowledge/chunker/text-chunker.ts:117-125 | the loop cuts the text into consecutive slices |
| TextChunker.SlicesCoverText | backend/src/modules/knowledge/chunker/text-chunker.ts:117-125 | slices concatenate to the text, have from 1 to n characters, and there are ceil(length / n) of them |
| TextChunker.MergePieces | backend/src/modules/knowledge/chunker/text-chunker.ts:82-115 | the greedy loop with its buffer produces the texts of chunks that are split into what they carry over and what they add; ChunksPartitionPieces says what they are |
| TextChunker.ChunksPartitionPieces | backend/src/modules/knowledge/chunker/text-chunker.ts:82-115 | the pieces fall into consecutive groups, each making up one chunk or a single oversized piece cut into its slices; a group takes in pieces as long as they fit, and carries over the last chunkOverlap tokens of the chunk before, or nothing if it comes first or after a cut piece |
| TextChunker.ChunksAreBounded | backend/src/modules/knowledge/chunker/text-chunker.ts:82-125 | every chunk has at most chunkSize + chunkOverlap tokens, unless it carries nothing and is a slice, of at most 4 * chunkSize characters, of a piece that has more than chunkSize tokens by itself |
| TextChunker.PieceKeepsBound | backend/src/modules/knowledge/chunker/text-chunker.ts:87-112 | bufferTokens never falls below the tokens of the buffer |
| TextChunker.Split | backend/src/modules/knowledge/chunker/text-chunker.ts:28-39 | no chunks for a text of white space, an error exactly for a bad chunkSize or chunkOverlap, and otherwise the chunks of the merged pieces, trimmed, without empty ones |
| TextChunker.ChunksKeepText | backend/src/modules/knowledge/chunker/text-chunker.ts:28-39 | for every overlap, what the chunks add is the kept text |
| TextChunker.SplitWithoutOverlapKeepsText | backend/src/modules/knowledge/chunker/text-chunker.ts:28-39 | with chunkOverlap 0 every answer keeps the filtered text, and only a chunkSize that is not positive is rejected |
| Embedding.EmbedMany | backend/src/modules/ai/providers/openai.provider.ts:152-166 | batches of 100: the result is the vector of each text in order, and there is one exactly when every request succeeds |
| Ingestion.KnowledgeService.IngestDocument | backend/src/modules/knowledge/knowledge.service.ts:292-354 | skips by status, fails without text, and otherwise inserts the planned rows one by one up to the first failing batch, failing insert or crash |
| Ingestion.KnowledgeService.EmbedAndInsert | backend/src/modules/knowledge/knowledge.service.ts:317-325 | the nested batch loops insert row i with piece i and the vector of piece i |
| Ingestion.IngestionEnds | backend/src/modules/knowledge/knowledge.service.ts:302-353 | an ingestion that is not skipped ends COMPLETED if and only if the text could be chunked and every embedding request and every insert succeeds, and FAILED otherwise; it is left PROCESSING only if the process dies on the way |
| Ingestion.LiveDocumentsAreExact | backend/src/modules/knowledge/knowledge.service.ts:231-354 | in every history in which FAILED documents are retried by reindexing only: a live COMPLETED document has rows 0..n-1, row i with piece i and its vector, one per piece; any other status leaves an initial part of that list |
| Ingestion.RepeatedIngestIsSkipped | backend/src/modules/knowledge/knowledge.service.ts:295-299 | ingesting again while COMPLETED or PROCESSING changes nothing |
| Ingestion.CompletedIsExactIffNoRowsBefore | backend/src/modules/knowledge/knowledge.service.ts:287-299 | the entry point is described as a no-op unless PENDING, but it also runs on FAILED: a completed ingestion is exact if and only if the document had no rows before |
| Ingestion.DirectRetryKeepsOldRows | backend/src/modules/knowledge/knowledge.service.ts:287-299 | such a document exists: a first attempt that fails at the second insert and a direct second one give a COMPLETED document with a row too many |
| Ingestion.ReindexRepairs | backend/src/modules/knowledge/knowledge.service.ts:231-248 | reindexing gives exact rows whatever rows there were, and the status by the same rule |
| Ingestion.DeletedDocumentGetsRowsIffNotDone | backend/src/modules/knowledge/knowledge.service.ts:292-299 | an ingestion that comes after the deletion gives the deleted document rows exactly when it was still PENDING or FAILED and the attempt inserts some |
| CsvExtractor.Parse | backend/src/modules/knowledge/extractors/extractors.ts:101-118 | the scanner loop with look-ahead computes the trimmed fields of the line |
| CsvExtractor.PrintedScansBack | backend/src/modules/knowledge/extractors/extractors.ts:101-116 | scanning a line whose fields were quoted as section 2 of RFC 4180 asks gives the fields back, for any choice of extra quoting |
| CsvExtractor.LineRoundTrip | backend/src/modules/knowledge/extractors/extractors.ts:101-118 | reading such a line back gives the fields, each trimmed |
| CsvExtractor.FieldsOfEveryLine | backend/src/modules/knowledge/extractors/extractors.ts:101-116 | for every line: a comma ends a field exactly if an even number of quotes comes before it, the fields keep every other character but quotes, and a quote only where there are two |
| CsvExtractor.LinesAreExact | backend/src/modules/knowledge/extractors/extractors.ts:98 | every text is its lines with their line ends, the last line included, and no line has a newline |
| CsvExtractor.TableRoundTrip | backend/src/modules/knowledge/extractors/extractors.ts:98-121 | the same for a whole file with either kind of line end, and with or without one after the last row |
| CsvExtractor.Extract | backend/src/modules/knowledge/extractors/extractors.ts:95-132 | the text has one line for the headers and one for each row, which shows every header with the cell of its index; headers and row count are those of the table |
| AgentLoop.RunLoop | backend/src/modules/agents/agent-runtime.service.ts:165-267 | the loop with its accumulators: transcript, event trace, call records, totals, final content and error are all those of one sequence of turns |
| AgentLoop.ExecuteCalls | backend/src/modules/agents/agent-runtime.service.ts:212-264 | one tool message, one record and one call/result pair of events per tool call, in order |
| AgentTrace.RunsAreBounded | backend/src/modules/agents/agent-runtime.service.ts:174-210 | at most ten model calls; a run ends with an answer without tool calls, with a failure, or because all ten answers asked for tools |
| AgentTrace.TurnsArePaired | backend/src/modules/agents/agent-runtime.service.ts:212-263 | after the user message the transcript is a sequence of assistant turns, each followed by one tool message per call with the same ids and order |
| AgentTrace.RunsAreWellFormed | backend/src/modules/agents/agent-runtime.service.ts:165-267 | every event trace is start, then deltas and matched call/result pairs, at most one error, done |
| AgentTrace.RecordsMatchTrace | backend/src/modules/agents/agent-runtime.service.ts:216-239 | the tool calls of the result are, one by one, those of the emitted results |
| AgentTrace.RecordsMatchCalls | backend/src/modules/agents/agent-runtime.service.ts:216-224 | each call of a run has one record, in order, with its id, name and arguments |
| AgentTrace.TranscriptMatchesTrace | backend/src/modules/agents/agent-runtime.service.ts:241-263 | the k-th tool message belongs to the k-th emitted result: it carries its output when ok, its error when not, and only the reason and the task when it waits for approval |
| AgentTrace.TurnsAreDrawn | backend/src/modules/agents/agent-runtime.service.ts:174-216 | the n-th answer of a run is the answer of the model to the transcript so far, its results are those of the tools, numbered through the run, and a failure is the answer to the last call |
| AgentTrace.AllTextIsStreamed | backend/src/modules/agents/agent-runtime.service.ts:187-191 | the message deltas are all the text that the model streamed, also before a failure |
| AgentLifecycle.AgentsService.Rollback | backend/src/modules/agents/agents.service.ts:276-299 | the three writes of a rollback, step by step |
| AgentLifecycle.EveryStoreIsHealthy | backend/src/modules/agents/agents.service.ts:103-345 | in every history from the empty store version numbers are exactly 1..n, ACTIVE implies a pinned version of the own agent, deletedAt is set iff ARCHIVED, and ARCHIVED implies no pin |
| AgentLifecycle.VersionsAreImmutable | backend/src/modules/agents/agents.service.ts:619-636 | no operation changes or removes an existing version |
| AgentLifecycle.RollbackCopiesTarget | backend/src/modules/agents/agents.service.ts:276-299 | a rollback adds version n+1 with the configuration of the target and leaves the others alone; it deploys it, with each field from the target or else as before, exactly when the target has system instructions, and otherwise fails after adding the version |
| AgentLifecycle.UndeployClearsPin | backend/src/modules/agents/agents.service.ts:265-273 | after an undeployment nothing is pinned: until the next deployment the agent is never ACTIVE and resuming it is refused |
| AgentLifecycle.DeployLeavesFieldsIffTheyAgree | backend/src/modules/agents/agents.service.ts:219-223 | deploying is described as leaving the main fields alone; a deployment that succeeds does so if and only if they agree with the version already |
| AgentLifecycle.UpdateKeepsPinIffSameValues | backend/src/modules/agents/agents.service.ts:154-173 | the pinned configuration is described as immutable; after an update of a deployed agent its fields agree with the pinned version if and only if every changed field that the version has gets the value of the version |
| AgentLifecycle.RunsUseDeployedVersion | backend/src/modules/agents/agents.service.ts:219-263 | from a deployment on, through all requests that deploy nothing else and respect the pinned fields, the fields of the agent are those of the deployed version |
| Quota.Quotas.GetStatus | backend/src/modules/quota/quota.service.ts:36-61 | the cached status, or the sum of the month with the limit, which is then cached |
| Quota.Quotas.Enforce | backend/src/modules/quota/quota.service.ts:67-80 | with an exact cache a call is allowed if and only if the tokens of the month plus the estimate are within the limit |
| Quota.Quotas.Record | backend/src/modules/quota/usage.service.ts:33-62 | appends, then invalidates; an exact cache stays exact if and only if the entry of the booked month goes or nothing was added |
| Quota.RefusalsAreNeverSpurious | backend/src/modules/quota/quota.service.ts:36-80 | for every interleaving of the steps, a returned status is that of the month at an earlier moment and never above the current sum, so a refusal is right |
| Quota.EntryIsCurrentIff | backend/src/modules/quota/quota.service.ts:44-59 | for every interleaving: an entry of the cache is the current sum of its month if and only if no tokens were booked on the month after the query whose reader filled it in |
| Quota.LateFillAllowsTooMuch | backend/src/modules/quota/usage.service.ts:56-57 | a concrete interleaving: after a recording has finished, its invalidation included, the cache answers as if it had not happened and allows what the limit forbids |
| Quota.CallsKeepCacheExact | backend/src/modules/quota/usage.service.ts:33-62 | calls that are not interleaved, with deletes that succeed, keep the cache equal to the sums |
| Quota.AllowedIffWithinLimit | backend/src/modules/quota/quota.service.ts:67-80 | after any such calls the next check allows exactly what fits the limit |

## Left out

- Missing ids and node types are empty strings, as the validator treats both alike; node positions, labels and agent ids are not modelled.
- The texts of the validator's messages: a report is a constructor with the id or the edge it names, and a missing type on a node without id is reported for the empty id.
- Edge conditions are predicates on vars: the jsonpath and expression evaluators, and exceptions they throw, are not modelled.
- A handler reads vars once, when it starts; handlers that read them again after an await, or write to them directly, are not modelled.
- When several branches of a fork fail, which of their errors the run row gets is left open.
- Log durations, row ids and timestamps; `completedAt`, `deletedAt` and `processedAt` are modelled as set or not.
- Failures of the database, the cache server, the file store or the audit log in the middle of an operation, except in ingestion and in usage recording, where the code handles them.
- The node and edge tables that mirror a definition (workflows.service.ts:188-219), where a repeated edge id would break a primary key, and list, get and search requests.
- AnthropicStream.ChatStream: request building, HTTP errors, UTF-8 decoding of the bytes and exceptions thrown by the listener are not modelled; a payload is parsed to an event or ignored. The fragment of the event-stream format that the code reads is modelled, not the whole format.
- Estimated costs are left out of streamed usage and are exact amounts in the agent loop; floating-point rounding is not modelled.
- TextChunker.ChunksAreBounded: assumes a subadditive token counter and suffixes of at most the requested number of tokens; the bound is on chunks before trimming. The text of an overlap is opaque, and an encoder that throws while the overlap is taken is not modelled.
- TextSplitting.RecursiveSplit: adding a separator when nothing has been gathered yet has no effect on the list, as in the code, where it sets a property that is not an element.
- Ingestion.KnowledgeService.IngestDocument: two ingestions of one document at the same time, and embeddings that are fewer than the texts, are not modelled.
- Strings are sequences of characters, not UTF-16 units.
- AgentLoop.RunLoop: the checks before the loop, retrieval, persistence of messages, usage recording after it, and tools that throw (a run that never returns) are not modelled; arguments of call records stay JSON text.
- AgentLifecycle.AgentsService.Create: slugs, templates, tools and knowledge links of agents, and hard deletion, are not modelled.
- Quota.Quotas.GetStatus: the plan does not change, and hard deletion of agents, which removes usage records, is not modelled.
- Concurrent requests to the workflow and agent services: each request is one step, except cancel requests, which are also split into their read and their write.
- Authentication, permissions, memory, analytics, the frontend and deployment: they hold no state of this kind.
