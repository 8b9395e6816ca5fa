# FedX core, modelled and proved in Dafny

FedX is a federated SPARQL engine. It takes one query and answers it from
several RDF sources (endpoints). It decides which source gets which statement,
rewrites the query plan so that filters and bindings travel with the
statements, sends the left side of a join to the right side in blocks, and
merges what the sources return. It also keeps a registry of the federation
members and repairs broken connections.

This project models the sequential core of that engine and proves what the
code promises about it. There is one Dafny module per source class, and
helper modules for shared data:

- `Util`, `Rdf`, `Algebra`, `QueryTree`, `Evaluation` hold the shared data.
  - `Util` has optional values, results, and the parts of `java.lang.String` the code relies on (`replace`, joining, decimal rendering, 32-bit hash arithmetic).
  - `Rdf` has RDF values, query variables and binding sets.
  - `Algebra` and `QueryTree` hold the query algebra: value expressions, FedX filters and the tuple-expression tree.
  - `Evaluation` describes an iteration by how it was built, since the remote answers are outside the model.
- `StatementPatterns`, `ExclusiveGroups` and `PrintNodes` model the plan nodes: statements with their free variables, filters and bound filters; groups of exclusive statements; and the two printing helper nodes.
- `FilterOptimizers`, `VariableScopeOptimizers` and `GenericInfoOptimizers` model the optimizer passes: filter pushdown, local-variable scoping, and info collection with join flattening.
- `BoundJoins` models how a bound join splits its left bindings into blocks.
- `FederationEvalStrategies` and `StatementEvaluation` model how the evaluation strategy dispatches plan nodes, evaluates conjunctive filters, and asks statement sources.
- `ParallelExecutors` models the result queue of a parallel join or union.
- `QueryInfos`, `Endpoints`, `EndpointManagers` and `ExceptionUtils` model the per-query record, the endpoint lifecycle, the endpoint registry with its connection repair, and error tracing.
- `EndpointFactories` and `RemoteRepositoryInfos` model how endpoint ids, names and locations are derived.

Objects whose fields the source updates in place are Dafny classes, and their
methods are proved against specification functions. This covers statements,
exclusive groups, optimizers, the bound join, the executor, the query record,
endpoints, the registry and the repository description. Pure decisions are
functions with lemmas about them.

Remote calls, threads and the clock are parameters of the model. This covers
whether a source has statements, what connecting to a repository raises, the
time now, and the time left before a timeout.

The code is followed where it disagrees with its own doc comments. Two doc
comments show `http://dbpedia.org/` giving an id ending in `dbpedia.org`:
src/com/fluidops/fedx/util/EndpointFactory.java:276-278 and
src/com/fluidops/fedx/provider/RemoteRepositoryGraphRepositoryInformation.java:42.
The code replaces the trailing `/` by `_`, so the model gives
`sparql_dbpedia.org_` and `remote_dbpedia.org_` (`DbpediaTrailingSlash`,
`DbpediaRemoteId`).

## Model

| member | source | states |
|---|---|---|
| Algebra.FindVars | src/com/fluidops/fedx/optimizer/FilterOptimizer.java:212-230 | exactly the names of the expression's variables that carry no value |
| Algebra.FindVarsAll | src/com/fluidops/fedx/optimizer/FilterOptimizer.java:224-229 | the same over a list of argument expressions |
| Rdf.AnyUnboundSpec | src/com/fluidops/fedx/algebra/FedXStatementPattern.java:114-120 | the loop answers true exactly when some listed variable has no binding |
| Endpoints.StringHash | src/com/fluidops/fedx/structures/Endpoint.java:326 | the id's hash code is a 32-bit int |
| Endpoints.AnySupports | src/com/fluidops/fedx/structures/Endpoint.java:88-95 | true exactly when some type among those given lists the format (the loop over `values()`) |
| Endpoints.IsSupportedFormatSpec | src/com/fluidops/fedx/structures/Endpoint.java:77-95 | a format is supported iff it is not null and some endpoint type's format names contain it |
| Endpoints.SparqlFormatOnlyForSparqlEndpoints | src/com/fluidops/fedx/structures/Endpoint.java:58-79 | "api/sparql" is supported by the SPARQL endpoint type and by no other, and is a supported format |
| Endpoints.Endpoint.constructor | src/com/fluidops/fedx/structures/Endpoint.java:123-130 | id, name, location, type and classification as given; no repository, no connection, not initialized |
| Endpoints.Endpoint.SetRepo | src/com/fluidops/fedx/structures/Endpoint.java:168-170 | the repository is the one given, nothing else changes |
| Endpoints.Endpoint.GetConn | src/com/fluidops/fedx/structures/Endpoint.java:211-215 | the connection iff initialized, otherwise the "not initialized" FedXRuntimeException |
| Endpoints.Endpoint.Initialize | src/com/fluidops/fedx/structures/Endpoint.java:269-277 | refused without a repository; no change when already initialized; otherwise triple source set and, unless connecting fails, a fresh connection and initialized |
| Endpoints.Endpoint.RepairConnection | src/com/fluidops/fedx/structures/Endpoint.java:288-304 | refused before initialization; a null repository or a failing connect leaves the old connection; otherwise a fresh connection is stored and returned |
| Endpoints.Endpoint.ShutDown | src/com/fluidops/fedx/structures/Endpoint.java:311-320 | a RepositoryException without a repository; nothing when not initialized; otherwise connection dropped, repository shut down, not initialized, validity kept |
| Endpoints.EqualsHash | src/com/fluidops/fedx/structures/Endpoint.java:322-351 | equal endpoints have equal hash codes, for any hash of the type constants |
| Endpoints.EqualsIgnoresNameAndLocation | src/com/fluidops/fedx/structures/Endpoint.java:331-351 | endpoints agreeing on id and type are equal both ways, whatever their names, locations and states |
| Endpoints.LifecycleRoundTrip | src/com/fluidops/fedx/structures/Endpoint.java:269-320 | initialize is idempotent, and after shutDown the endpoint can be initialized again |
| QueryInfos.QueryIdCounter.constructor | src/com/fluidops/fedx/structures/QueryInfo.java:43 | the id counter starts at 1 |
| QueryInfos.QueryIdCounter.GetAndIncrement | src/com/fluidops/fedx/structures/QueryInfo.java:55 | returns the counter's old value and advances it by one |
| QueryInfos.ParallelTask.Cancel | src/com/fluidops/fedx/structures/QueryInfo.java:110-112 | the task is cancelled |
| QueryInfos.QueryInfo.constructor | src/com/fluidops/fedx/structures/QueryInfo.java:53-59 | the id is the counter's next value, the counter advances, query and type as given, not aborted, no tasks |
| QueryInfos.QueryInfo.RegisterScheduledTask | src/com/fluidops/fedx/structures/QueryInfo.java:84-89 | once aborted, the QueryEvaluationException and no change; otherwise the task is added to the tracked set |
| QueryInfos.QueryInfo.Abort | src/com/fluidops/fedx/structures/QueryInfo.java:96-103 | aborted afterwards; the first call cancels every tracked task and empties the set; a later call changes no task |
| QueryInfos.QueryInfo.AbortScheduledTasks | src/com/fluidops/fedx/structures/QueryInfo.java:108-115 | every task tracked before is cancelled, and the set is empty |
| QueryInfos.QueryInfo.HashCode | src/com/fluidops/fedx/structures/QueryInfo.java:118-124 | a 32-bit int |
| QueryInfos.EqualsHash | src/com/fluidops/fedx/structures/QueryInfo.java:117-139 | equal queries have equal hash codes |
| QueryInfos.TwoQueriesDiffer | src/com/fluidops/fedx/structures/QueryInfo.java:43-59 | two queries built one after the other get increasing ids and are not equal |
| Evaluation.BooleanLiteral | src/com/fluidops/fedx/evaluation/FederationEvalStrategy.java:379 | the TRUE literal exactly for true, FALSE exactly for false |
| FederationEvalStrategies.Dispatch | src/com/fluidops/fedx/evaluation/FederationEvalStrategy.java:125-159 | a node evaluates itself iff it is a statement tuple expression; the exclusive-group branch is never taken; the empty route iff an EmptyResult |
| FederationEvalStrategies.FirstStop | src/com/fluidops/fedx/evaluation/FederationEvalStrategy.java:383-402 | the position of the first conjunct that is false or fails uncaught, no earlier one stops |
| FederationEvalStrategies.EvaluateFilter | src/com/fluidops/fedx/evaluation/FederationEvalStrategy.java:376-380 | fails iff the condition fails; otherwise TRUE iff its effective boolean value is true |
| FederationEvalStrategies.EvaluateConjunctive | src/com/fluidops/fedx/evaluation/FederationEvalStrategy.java:383-403 | the loop's result is the SPARQL `&&` value of the conjuncts, having evaluated exactly the conjuncts up to the first stop |
| FederationEvalStrategies.LastErrorNone | src/com/fluidops/fedx/evaluation/FederationEvalStrategy.java:388-400 | no error is remembered iff every conjunct succeeded |
| FederationEvalStrategies.LastErrorIsLast | src/com/fluidops/fedx/evaluation/FederationEvalStrategy.java:388-400 | the remembered error is that of a failing conjunct with only successes after it |
| FederationEvalStrategies.ConjunctionTrue | src/com/fluidops/fedx/evaluation/FederationEvalStrategy.java:383-402 | the conjunction is TRUE iff every conjunct is true (section 17.2 of the SPARQL 1.1 Query Language recommendation) |
| FederationEvalStrategies.ConjunctionFalse | src/com/fluidops/fedx/evaluation/FederationEvalStrategy.java:389-393 | one false conjunct makes the conjunction FALSE whatever caught errors occur elsewhere |
| FederationEvalStrategies.ConjunctionError | src/com/fluidops/fedx/evaluation/FederationEvalStrategy.java:394-400 | with no false conjunct and some caught error, the conjunction fails with the last such error |
| FederationEvalStrategies.SingleConjunct | src/com/fluidops/fedx/evaluation/FederationEvalStrategy.java:376-402 | a conjunction of one condition evaluates like that condition alone |
| FederationEvalStrategies.GetStatements | src/com/fluidops/fedx/evaluation/FederationEvalStrategy.java:185-232 | a fully bound statement answers from the cache check; otherwise no source gives an empty result, one source its own statements, several a union with one task per source in order |
| FederationEvalStrategies.LeftDeepJoinShape | src/com/fluidops/fedx/evaluation/FederationEvalStrategy.java:257-268 | the n-ary join is a left-deep stack: the first argument at the bottom, then arguments 1..n-1 joined in order |
| FederationEvalStrategies.EvaluateNJoin | src/com/fluidops/fedx/evaluation/FederationEvalStrategy.java:257-269 | no argument fails on index 0; otherwise the left fold of the arguments with their join variables |
| FederationEvalStrategies.EvaluateNaryUnion | src/com/fluidops/fedx/evaluation/FederationEvalStrategy.java:271-284 | a worker union with exactly one task per argument, in argument order |
| FederationEvalStrategies.Evaluate | src/com/fluidops/fedx/evaluation/FederationEvalStrategy.java:125-160 | the route Dispatch picks: empty result, n-ary join fold, union of one task per argument, or the node's own evaluation |
| FederationEvalStrategies.EvaluateAtStatementSources | src/com/fluidops/fedx/evaluation/FederationEvalStrategy.java:407-479 | an unsupported query type raises; one source runs the query there (a missing endpoint or a failure wrapped in QueryEvaluationException); otherwise one union task per source |
| StatementEvaluation.FirstWithStatements | src/com/fluidops/fedx/algebra/StatementSourcePattern.java:134-139 | the first source whose triple source has statements, none before it has any |
| StatementEvaluation.HandleCheck | src/com/fluidops/fedx/algebra/StatementSourcePattern.java:129-142 | the input bindings as the only row iff some source has statements, probing sources in order and stopping at the first hit |
| StatementEvaluation.FirstPrepared | src/com/fluidops/fedx/algebra/StatementSourcePattern.java:74-91 | the first source whose triple source uses prepared queries, none before it does |
| StatementEvaluation.EvaluateSourcePattern | src/com/fluidops/fedx/algebra/StatementSourcePattern.java:65-126 | the query string is built at most once, on the first prepared source; all variables bound there turns the evaluation into the check, wrapped with the bound filters unless empty; otherwise one task per source in order, wrapped when there are bound filters |
| StatementEvaluation.EvaluateExclusive | src/com/fluidops/fedx/algebra/ExclusiveStatement.java:57-114 | empty exactly for an all-bound statement the owner does not have; bound filters are inserted into every non-empty result and only then |
| StatementEvaluation.ExclusiveCheckAgrees | src/com/fluidops/fedx/algebra/ExclusiveStatement.java:80-92 | the all-bound path of an exclusive statement answers what the check over its single owner answers |
| ParallelExecutors.CheckTimeout | src/com/fluidops/fedx/evaluation/concurrent/ParallelExecutorBase.java:156-161 | fails iff no time is left, with the timeout QueryInterruptedException |
| ParallelExecutors.ParallelExecutor.constructor | src/com/fluidops/fedx/evaluation/concurrent/ParallelExecutorBase.java:60-69 | an empty queue, nothing tossed, no current iteration, not closed or finished |
| ParallelExecutors.ParallelExecutor.AddResult | src/com/fluidops/fedx/evaluation/concurrent/ParallelExecutorBase.java:102-113 | an empty iteration is dropped; any other is queued, so its rows follow the pending rows |
| ParallelExecutors.ParallelExecutor.Toss | src/com/fluidops/fedx/evaluation/concurrent/ParallelExecutorBase.java:120-126 | the exception is appended to the tossed ones |
| ParallelExecutors.ParallelExecutor.GetNextElement | src/com/fluidops/fedx/evaluation/concurrent/ParallelExecutorBase.java:128-148 | the next row of the current iteration first; otherwise the first tossed exception is raised at the next read of the queue, before any queued iteration; with nothing tossed, the next pending row in order, or the end of the stream |
| ParallelExecutors.ParallelExecutor.Run | src/com/fluidops/fedx/evaluation/concurrent/ParallelExecutorBase.java:71-91 | finished and queue done whatever happens; an execution failure, or else a timeout, is tossed |
| ParallelExecutors.ParallelExecutor.HandleClose | src/com/fluidops/fedx/evaluation/concurrent/ParallelExecutorBase.java:163-176 | the current iteration is closed and cleared even when closing the queue fails; closed only when it does not |
| ParallelExecutors.DrainInOrder | src/com/fluidops/fedx/evaluation/concurrent/ParallelExecutorBase.java:102-148 | reading to the end delivers the rows of the non-empty results, one result after the other, in the order they were added |
| ParallelExecutors.FlattenNonEmptyRowsAppend | src/com/fluidops/fedx/evaluation/concurrent/ParallelExecutorBase.java:102-113 | adding a result appends exactly its rows to what will be delivered, nothing for an empty iteration |
| StatementPatterns.UnboundNamesAfterBind | src/com/fluidops/fedx/algebra/FedXStatementPattern.java:156-167 | binding a name in all three positions removes exactly that name, every occurrence, from the unbound names |
| StatementPatterns.RemoveAllCounts | src/com/fluidops/fedx/algebra/FedXStatementPattern.java:156-167 | removing every occurrence of the bound name keeps every other name as often as before, and changes nothing when the name is absent |
| StatementPatterns.RemoveAllKeepsOrder | src/com/fluidops/fedx/algebra/FedXStatementPattern.java:156-167 | removing every occurrence of the bound name keeps the other names in their order: each sits between the filtered prefix and the filtered suffix |
| StatementPatterns.ListRemove | src/com/fluidops/fedx/algebra/FedXStatementPattern.java:167 | `List.remove(Object)`: the first occurrence is removed and the other entries keep their order (one fewer, the same multiset minus one); the list is unchanged when the name is absent |
| StatementPatterns.AddConjunct | src/com/fluidops/fedx/algebra/FedXStatementPattern.java:143-154 | fails with a RuntimeException only for an unexpected filter kind; otherwise the new condition becomes the last conjunct |
| StatementPatterns.LexLeTotal | src/com/fluidops/fedx/algebra/FedXStatementPattern.java:174-183 | the id order used for sorting sources is total |
| StatementPatterns.LexLeTransitive | src/com/fluidops/fedx/algebra/FedXStatementPattern.java:174-183 | the id order used for sorting sources is transitive |
| StatementPatterns.InsertById | src/com/fluidops/fedx/algebra/FedXStatementPattern.java:174-183 | inserting a source into the sorted copy adds exactly that source |
| StatementPatterns.InsertByIdSorted | src/com/fluidops/fedx/algebra/FedXStatementPattern.java:174-183 | inserting into a list sorted by id keeps it sorted |
| StatementPatterns.SortById | src/com/fluidops/fedx/algebra/FedXStatementPattern.java:174-183 | the copy is sorted by id and a permutation of the sources |
| StatementPatterns.SourceChildren | src/com/fluidops/fedx/algebra/FedXStatementPattern.java:62-63 | one child per source, in the order given |
| StatementPatterns.FedXStatementPattern.SourcePattern | src/com/fluidops/fedx/algebra/FedXStatementPattern.java:49-82 | positions as given, the free variables are the unbound positions' names in subject, predicate, object order; no sources, local variables or filter |
| StatementPatterns.FedXStatementPattern.Exclusive | src/com/fluidops/fedx/algebra/ExclusiveStatement.java:48-51 | as a plain pattern, with the owner as the only source |
| StatementPatterns.FedXStatementPattern.Owner | src/com/fluidops/fedx/algebra/ExclusiveStatement.java:53-55 | the single source of an exclusive statement |
| StatementPatterns.FedXStatementPattern.FreeVarCount | src/com/fluidops/fedx/algebra/FedXStatementPattern.java:84-87 | at most three, and zero iff every position is bound |
| StatementPatterns.FedXStatementPattern.AddStatementSource | src/com/fluidops/fedx/algebra/StatementSourcePattern.java:61-63 | the source is appended, the invariant kept |
| StatementPatterns.FedXStatementPattern.AddLocalVar | src/com/fluidops/fedx/algebra/FedXStatementPattern.java:99-102 | the name is appended to the local variables |
| StatementPatterns.FedXStatementPattern.AddFilterExpr | src/com/fluidops/fedx/algebra/FedXStatementPattern.java:142-154 | the condition becomes the last conjunct of the filter, which is set afterwards |
| StatementPatterns.FedXStatementPattern.AddBoundFilter | src/com/fluidops/fedx/algebra/FedXStatementPattern.java:156-172 | every position with that name gets the value, and the name leaves the free variables (corrected: every occurrence) |
| StatementPatterns.FedXStatementPattern.SortedSources | src/com/fluidops/fedx/algebra/FedXStatementPattern.java:174-183 | the visiting order is sorted by id and a permutation of the sources |
| StatementPatterns.FedXStatementPattern.Children | src/com/fluidops/fedx/algebra/FedXStatementPattern.java:56-67 | subject, predicate and object first, then the context if any, the local-variables node only when there are local variables, then one child per source in ascending id order (the sorted copy), and the filter last when present |
| StatementPatterns.ChildList | src/com/fluidops/fedx/algebra/FedXStatementPattern.java:56-67 | each child at the position `visitChildren` visits it: the three positions, the context, the local-variables node, the sources in the given order, the filter last; nothing else |
| StatementPatterns.AddBoundFilterAsWrittenKeepsFreeVar | src/com/fluidops/fedx/algebra/FedXStatementPattern.java:156-167 | for `?x <p> ?x` bound by `x`, removing one occurrence leaves `x` free although no position is unbound |
| StatementPatterns.HasFreeVarsForPositions | src/com/fluidops/fedx/algebra/FedXStatementPattern.java:114-120 | free variables for a binding set iff some unbound position's name is not bound by it |
| ExclusiveGroups.AddAllDistinct | src/com/fluidops/fedx/algebra/ExclusiveGroup.java:74-84 | adding to a hash set: the result holds each element once and exactly the old and the added elements |
| ExclusiveGroups.GroupFilter | src/com/fluidops/fedx/algebra/ExclusiveGroup.java:90-94 | no filter iff no conjunct was collected; otherwise a filter whose conjuncts are exactly the collected ones (a single one on its own) |
| ExclusiveGroups.ExclusiveGroup.Allocate | src/com/fluidops/fedx/algebra/ExclusiveGroup.java:51-57 | the owned statements and the owner as given, no free variables and no filter yet |
| ExclusiveGroups.ExclusiveGroup.Init | src/com/fluidops/fedx/algebra/ExclusiveGroup.java:73-95 | fails with a RuntimeException iff an owned statement has an unsupported filter; otherwise the free variables are the union of the owned ones, and the filter's conjuncts are every owned conjunct, each once |
| ExclusiveGroups.ExclusiveGroup.FreeVarList | src/com/fluidops/fedx/algebra/ExclusiveGroup.java:150-153 | a list holding each free variable exactly once |
| ExclusiveGroups.ExclusiveGroup.StatementSources | src/com/fluidops/fedx/algebra/ExclusiveGroup.java:160-163 | the owner and nothing else |
| ExclusiveGroups.ExclusiveGroup.AddFilterExpr | src/com/fluidops/fedx/algebra/ExclusiveGroup.java:187-195 | always refused with UnsupportedOperationException |
| ExclusiveGroups.ExclusiveGroup.AddBoundFilter | src/com/fluidops/fedx/algebra/ExclusiveGroup.java:207-214 | always refused with UnsupportedOperationException |
| ExclusiveGroups.ExclusiveGroup.Clone | src/com/fluidops/fedx/algebra/ExclusiveGroup.java:123-126 | always refused with a RuntimeException |
| ExclusiveGroups.NewExclusiveGroup | src/com/fluidops/fedx/algebra/ExclusiveGroup.java:60-68 | fails iff an owned filter is unsupported (a RuntimeException) or no endpoint manager is initialized (the FedXRuntimeException); otherwise a new group whose free variables and conjuncts are the unions of the owned statements', whose owned endpoint is the manager's endpoint for the owner's id, or null for an unknown id |
| ExclusiveGroups.SingleStatementGroup | src/com/fluidops/fedx/algebra/ExclusiveGroup.java:73-95 | a group of one statement has exactly that statement's free variables and conjuncts |
| BoundJoins.TaskKindForSpec | src/com/fluidops/fedx/evaluation/join/ControlledWorkerBoundJoin.java:85-99 | bound joins exactly for statements with a free variable under the first binding, check joins for fully bound statements, service and group joins for those kinds; any other kind raises a RuntimeException |
| BoundJoins.VectoredKindDefined | src/com/fluidops/fedx/evaluation/join/ControlledWorkerBoundJoin.java:157-164 | a right argument that passes the vectored-evaluation test always gets a task creator |
| BoundJoins.BlocksPartition | src/com/fluidops/fedx/evaluation/join/ControlledWorkerBoundJoin.java:104-136 | the blocks concatenate back to the remaining bindings, and each is non-empty, at most 3 while at most 10 bindings were consumed, at most the configured size afterwards, full unless last |
| BoundJoins.BlocksUnique | src/com/fluidops/fedx/evaluation/join/ControlledWorkerBoundJoin.java:104-136 | any blocks that concatenate to the bindings and follow the size rule are the ones the loop cuts |
| BoundJoins.BlocksStep | src/com/fluidops/fedx/evaluation/join/ControlledWorkerBoundJoin.java:119-132 | each round cuts the block of the size in force from the front |
| BoundJoins.BlockTasks | src/com/fluidops/fedx/evaluation/join/ControlledWorkerBoundJoin.java:134-135 | one task per block, of the creator's kind, in order |
| BoundJoins.ScheduleCoversLeft | src/com/fluidops/fedx/evaluation/join/ControlledWorkerBoundJoin.java:81-136 | the first task carries the first binding alone, then one task per block, and together they cover the left bindings in order |
| BoundJoins.ControlledWorkerBoundJoin.constructor | src/com/fluidops/fedx/evaluation/join/ControlledWorkerBoundJoin.java:59-64 | right argument and left bindings as given, open, nothing scheduled |
| BoundJoins.ControlledWorkerBoundJoin.NextBlock | src/com/fluidops/fedx/evaluation/join/ControlledWorkerBoundJoin.java:126-130 | takes the next up to n left bindings, in order |
| BoundJoins.ControlledWorkerBoundJoin.ScheduleFirst | src/com/fluidops/fedx/evaluation/join/ControlledWorkerBoundJoin.java:81-102 | a closed cursor or no binding schedules nothing; otherwise the first binding alone, with the task kind it selects, registered with the phaser |
| BoundJoins.ControlledWorkerBoundJoin.ScheduleBlocks | src/com/fluidops/fedx/evaluation/join/ControlledWorkerBoundJoin.java:104-136 | while open, schedules one task per block of the partition of the remaining bindings, each registered |
| BoundJoins.ControlledWorkerBoundJoin.HandleBindings | src/com/fluidops/fedx/evaluation/join/ControlledWorkerBoundJoin.java:67-145 | falls back for other right arguments; otherwise schedules the first binding alone and the rest in blocks of the rule, registers every task and informs the scheduler |
| FilterOptimizers.ConjunctiveExpressions | src/com/fluidops/fedx/optimizer/FilterOptimizer.java:180-187 | at least one conjunct, none of them an And, and a non-And condition is its own single conjunct |
| FilterOptimizers.AndChainRoundTrip | src/com/fluidops/fedx/optimizer/FilterOptimizer.java:133-148 | splitting the rebuilt right-nested And chain gives back the remaining conjuncts in order |
| FilterOptimizers.SelectedFrom | src/com/fluidops/fedx/optimizer/FilterOptimizer.java:96-123 | the remaining conjuncts are taken from the original ones; none is invented |
| FilterOptimizers.Rebuild | src/com/fluidops/fedx/optimizer/FilterOptimizer.java:125-148 | no remaining conjunct removes the filter; one becomes the condition on its own; several become a condition whose conjuncts are exactly those, in order |
| FilterOptimizers.IsCompatibleExprSpec | src/com/fluidops/fedx/optimizer/FilterOptimizer.java:197-208 | a conjunct can be pushed iff, under all its leading negations, it is neither a conjunction nor a disjunction |
| FilterOptimizers.EqualityBindingSpec | src/com/fluidops/fedx/optimizer/FilterOptimizer.java:315-353 | an equality yields a binding iff exactly one side is a variable and the other a resource constant; the binding names that variable and that resource |
| FilterOptimizers.DecideSpec | src/com/fluidops/fedx/optimizer/FilterOptimizer.java:272-311 | no shared variable: irrelevant; an equality with a resource constant: bind; all variables free in the tuple: push the filter; otherwise keep it for post-filtering |
| FilterOptimizers.IntersectionCount | src/com/fluidops/fedx/optimizer/FilterOptimizer.java:286-304 | a zero count means no shared variable, a full count means every variable of the conjunct is free in the tuple |
| FilterOptimizers.CountIntersected | src/com/fluidops/fedx/optimizer/FilterOptimizer.java:286-290 | the counting loop yields the size of the overlap of the conjunct's variables and the tuple's free variables |
| FilterOptimizers.Apply | src/com/fluidops/fedx/optimizer/FilterOptimizer.java:296-310 | binding removes the variable from the free ones and leaves the filter; pushing appends the conjunct and leaves the free variables; the other decisions change nothing |
| FilterOptimizers.FreeSets | src/com/fluidops/fedx/optimizer/FilterOptimizer.java:287-288 | one free-variable set per reached tuple |
| FilterOptimizers.GroupRefusesSpec | src/com/fluidops/fedx/optimizer/FilterOptimizer.java:253-311 | the visit throws iff some reached exclusive group would have to bind or take the conjunct |
| FilterOptimizers.NoneKeepsSpec | src/com/fluidops/fedx/optimizer/FilterOptimizer.java:307-310 | the conjunct stays removable iff no reached tuple keeps it for post-filtering |
| FilterOptimizers.AnyHandlesSpec | src/com/fluidops/fedx/optimizer/FilterOptimizer.java:296-305 | some reached tuple takes the conjunct over iff one of them binds it or has it pushed |
| FilterOptimizers.BindingsFromSpec | src/com/fluidops/fedx/optimizer/FilterOptimizer.java:337-347 | a binding is recorded iff some reached tuple binds exactly it |
| FilterOptimizers.TakeFromSpec | src/com/fluidops/fedx/optimizer/FilterOptimizer.java:253-311 | over a whole visit, the removable flag survives iff no tuple keeps the conjunct, the taken-over flag is set iff some tuple takes it, and the recorded bindings grow by those of the binding tuples |
| FilterOptimizers.UnmatchedFilterDroppedAsWritten | src/com/fluidops/fedx/optimizer/FilterOptimizer.java:114-115 | as written, FILTER(?z = <x>) over a statement without ?z is dropped though no tuple took it over; the corrected rule keeps it |
| FilterOptimizers.StmtsFromMember | src/com/fluidops/fedx/optimizer/FilterOptimizer.java:253-257 | a statement is visited from the i-th tuple on iff it is one of those tuples |
| FilterOptimizers.ValidFromAll | src/com/fluidops/fedx/optimizer/FilterOptimizer.java:253-257 | the statements from the i-th tuple on are all well formed iff each one is |
| FilterOptimizers.UnvisitedAll | src/com/fluidops/fedx/optimizer/FilterOptimizer.java:253-257 | before a visit, each statement's state and free variables are the recorded ones |
| FilterOptimizers.VisitedAll | src/com/fluidops/fedx/optimizer/FilterOptimizer.java:253-257 | after a visit, each statement is in the state its own decision leads to |
| FilterOptimizers.ConcatTuples | src/com/fluidops/fedx/optimizer/FilterOptimizer.java:111 | the tuples reached under two subtrees split into those of each: statement sets, well-formedness and distinctness carry over |
| FilterOptimizers.FilterOptimizer.constructor | src/com/fluidops/fedx/optimizer/FilterOptimizer.java:63 | no inserted bindings yet |
| FilterOptimizers.FilterOptimizer.MeetFilter | src/com/fluidops/fedx/optimizer/FilterOptimizer.java:72-150 | a filter over an empty result is replaced by its argument and nothing else changes; otherwise it throws iff some pushable conjunct reaches a group that would have to take it over; on success conjunct i stays iff `KeptAt` says so, under the corrected removal rule of "## Findings" row 2 (so every unpushable conjunct stays, and every conjunct stays when no tuple is reached); the result is the rebuilt filter over the kept conjuncts in order, and the inserted bindings and the reached statements are those `MeetLoop` gives |
| FilterOptimizers.FilterOptimizer.RemainingConjuncts | src/com/fluidops/fedx/optimizer/FilterOptimizer.java:96-123 | the loop over the conjuncts: it fails iff some conjunct is refused by a group; otherwise the result is the selection of the conjuncts for which `KeptAt` holds (the corrected rule of "## Findings" row 2), in order, the inserted bindings grow by `MeetLoop`'s bindings, and each reached statement ends in the state `MeetLoop` gives |
| FilterOptimizers.MeetLoopInserted | src/com/fluidops/fedx/optimizer/FilterOptimizer.java:98-121 | a binding is inserted by the loop iff it was there before or some pushable conjunct records it at the tuples as the earlier conjuncts left them |
| FilterOptimizers.MeetLoopFreesShrink | src/com/fluidops/fedx/optimizer/FilterOptimizer.java:98-121 | the loop only removes free variables: a statement's free variables stay those of its state and never grow, and a group's do not change |
| FilterOptimizers.KeptWithoutTuples | src/com/fluidops/fedx/optimizer/FilterOptimizer.java:98-121 | with no reached tuple, every conjunct stays (corrected rule) |
| FilterOptimizers.FilterOptimizer.ConjunctKept | src/com/fluidops/fedx/optimizer/FilterOptimizer.java:105-121 | an unpushable conjunct is kept and changes nothing; a pushable one throws iff a group refuses it, and otherwise is dropped iff some tuple took it over and none keeps it (the corrected rule of "## Findings" row 2), records the bindings of the binding tuples, and leaves the tuples in the state `LoopStep` gives |
| FilterOptimizers.FilterOptimizer.Optimize | src/com/fluidops/fedx/optimizer/FilterOptimizer.java:66-169 | nothing under SERVICE is touched; a filter over an empty result becomes its argument; a projection becomes a projection with bindings iff some value was inserted, and carries exactly the inserted bindings |
| FilterOptimizers.FilterOptimizer.OptimizePair | src/com/fluidops/fedx/optimizer/FilterOptimizer.java:66-68 | both children are visited, left first, keeping every reached statement well formed |
| FilterOptimizers.FilterOptimizer.OptimizeAll | src/com/fluidops/fedx/optimizer/FilterOptimizer.java:66-68 | each child is visited, left to right, and the result has one tree per child |
| FilterOptimizers.FilterExprInsertVisitor.constructor | src/com/fluidops/fedx/optimizer/FilterOptimizer.java:237-238 | the removable flag starts false |
| FilterOptimizers.FilterExprInsertVisitor.Initialize | src/com/fluidops/fedx/optimizer/FilterOptimizer.java:242-245 | the conjunct is set and the removable flag raised |
| FilterOptimizers.FilterExprInsertVisitor.HandleStatement | src/com/fluidops/fedx/optimizer/FilterOptimizer.java:272-353 | the statement and the flags move as the decision for its free variables says |
| FilterOptimizers.FilterExprInsertVisitor.HandleGroup | src/com/fluidops/fedx/optimizer/FilterOptimizer.java:272-353 | a group throws UnsupportedOperationException iff the decision is to bind or push; otherwise the flags move as the decision says |
| FilterOptimizers.FilterExprInsertVisitor.VisitTuples | src/com/fluidops/fedx/optimizer/FilterOptimizer.java:253-269 | the visit throws iff a group refuses; otherwise the removable flag, the taken-over flag, the inserted bindings and every statement end as the per-tuple decisions say |
| FilterOptimizers.FilterExprInsertVisitor.VisitFrom | src/com/fluidops/fedx/optimizer/FilterOptimizer.java:253-269 | the same, for the tuples from the i-th on |
| FilterOptimizers.FilterExprInsertVisitor.VisitStatement | src/com/fluidops/fedx/optimizer/FilterOptimizer.java:255-257 | the same, when the i-th tuple is a statement |
| FilterOptimizers.FilterExprInsertVisitor.VisitGroup | src/com/fluidops/fedx/optimizer/FilterOptimizer.java:255-257 | the same, when the i-th tuple is an exclusive group |
| GenericInfoOptimizers.JoinArgs | src/com/fluidops/fedx/optimizer/GenericInfoOptimizer.java:125 | the flattened arguments of nested joins hold no join |
| GenericInfoOptimizers.JoinArgsSize | src/com/fluidops/fedx/optimizer/GenericInfoOptimizer.java:125 | flattening loses only the join nodes, so the arguments are no larger than the join |
| GenericInfoOptimizers.RewriteFlattens | src/com/fluidops/fedx/optimizer/GenericInfoOptimizer.java:115-129 | after the pass no binary join is left on the paths the visit walks |
| GenericInfoOptimizers.RewriteAll | src/com/fluidops/fedx/optimizer/GenericInfoOptimizer.java:126 | one rewritten child per child |
| GenericInfoOptimizers.VisitedJoinArgs | src/com/fluidops/fedx/optimizer/GenericInfoOptimizer.java:125-126 | visiting the flattened arguments meets exactly the nodes visiting the join would meet |
| GenericInfoOptimizers.StepFields | src/com/fluidops/fedx/optimizer/GenericInfoOptimizer.java:98-149 | meeting a node adds it to the statements iff it is a statement pattern, sets the flag of its kind, marks a projection, and takes a slice's limit only while no projection has been met |
| GenericInfoOptimizers.RunAppend | src/com/fluidops/fedx/optimizer/GenericInfoOptimizer.java:84-95 | a visit of two node lists in a row records what the two visits record one after the other |
| GenericInfoOptimizers.RunStatements | src/com/fluidops/fedx/optimizer/GenericInfoOptimizer.java:131-134 | the statement list grows by exactly the statement patterns met, in visit order |
| GenericInfoOptimizers.RunFlags | src/com/fluidops/fedx/optimizer/GenericInfoOptimizer.java:98-113 | each flag ends up set iff it was already set or a node of its kind was met |
| GenericInfoOptimizers.RunLimitAfterProjection | src/com/fluidops/fedx/optimizer/GenericInfoOptimizer.java:142-149 | once a projection has been met the limit does not change |
| GenericInfoOptimizers.RunLimitSource | src/com/fluidops/fedx/optimizer/GenericInfoOptimizer.java:142-149 | the limit is the old one or the limit of a slice met before any projection |
| GenericInfoOptimizers.GenericInfoOptimizer.constructor | src/com/fluidops/fedx/optimizer/GenericInfoOptimizer.java:48-62 | no flag set, limit -1, no statement |
| GenericInfoOptimizers.GenericInfoOptimizer.Optimize | src/com/fluidops/fedx/optimizer/GenericInfoOptimizer.java:84-149 | the tree comes back with its joins flattened, and the recorded information is that of meeting every visited node in order |
| GenericInfoOptimizers.GenericInfoOptimizer.OptimizeUnary | src/com/fluidops/fedx/optimizer/GenericInfoOptimizer.java:104-149 | the same, for a filter, projection or slice |
| GenericInfoOptimizers.GenericInfoOptimizer.OptimizeBinary | src/com/fluidops/fedx/optimizer/GenericInfoOptimizer.java:98-102 | the same, for a union or left join |
| GenericInfoOptimizers.GenericInfoOptimizer.OptimizeNary | src/com/fluidops/fedx/optimizer/GenericInfoOptimizer.java:115-129 | the same, for an n-ary join or union |
| GenericInfoOptimizers.GenericInfoOptimizer.OptimizeAll | src/com/fluidops/fedx/optimizer/GenericInfoOptimizer.java:126 | the children rewritten one by one and the information of visiting them left to right |
| VariableScopeOptimizers.GlobalsAfterSpec | src/com/fluidops/fedx/optimizer/VariableScopeOptimizer.java:77-86 | the traversal only adds to the global set, and adds exactly the names it meets |
| VariableScopeOptimizers.GlobalsAfterAllSpec | src/com/fluidops/fedx/optimizer/VariableScopeOptimizer.java:77-86 | the same over a list of children |
| VariableScopeOptimizers.ProjectedNamesGlobal | src/com/fluidops/fedx/optimizer/VariableScopeOptimizer.java:77-86 | after a projection every projected name is global, after a filter every variable of its condition |
| VariableScopeOptimizers.NonGlobalSpec | src/com/fluidops/fedx/optimizer/VariableScopeOptimizer.java:104-106 | exactly the non-global free variables are registered as local, each as often as it is listed |
| VariableScopeOptimizers.IndicesSpec | src/com/fluidops/fedx/optimizer/VariableScopeOptimizer.java:124-133 | the map's list for a variable has one entry per occurrence in the arguments, each naming an argument that lists it |
| VariableScopeOptimizers.SingleArgument | src/com/fluidops/fedx/optimizer/VariableScopeOptimizer.java:137-141 | the test on a one-element list picks argument i iff the variable occurs in it and nowhere else |
| VariableScopeOptimizers.RegisterStep | src/com/fluidops/fedx/optimizer/VariableScopeOptimizer.java:137-142 | handling one map entry keeps each argument's registrations distinct and equal to the single-argument variables handled so far |
| VariableScopeOptimizers.OnlyArgument | src/com/fluidops/fedx/optimizer/VariableScopeOptimizer.java:137-141 | a variable that occurs once belongs to one statement object only |
| VariableScopeOptimizers.RegisteredAreLocal | src/com/fluidops/fedx/optimizer/VariableScopeOptimizer.java:137-142 | the entries registered on argument i are exactly its non-global variables that occur in no other argument |
| VariableScopeOptimizers.AddNamesSpec | src/com/fluidops/fedx/optimizer/VariableScopeOptimizer.java:124-133 | reading one argument's list extends the map by its non-global names, one entry per occurrence |
| VariableScopeOptimizers.CollectListsSpec | src/com/fluidops/fedx/optimizer/VariableScopeOptimizer.java:112-134 | reading the lists of the arguments in order yields the variable-to-arguments map |
| VariableScopeOptimizers.SingleEntries | src/com/fluidops/fedx/optimizer/VariableScopeOptimizer.java:137-141 | every one-element entry names an argument listing that variable, which occurs there only |
| VariableScopeOptimizers.RegisterDone | src/com/fluidops/fedx/optimizer/VariableScopeOptimizer.java:137-142 | once every entry is handled each statement holds its old local variables followed by its registrations |
| VariableScopeOptimizers.VariableScopeOptimizer.constructor | src/com/fluidops/fedx/optimizer/VariableScopeOptimizer.java:56 | no global variable yet |
| VariableScopeOptimizers.VariableScopeOptimizer.MeetTupleExpression | src/com/fluidops/fedx/optimizer/VariableScopeOptimizer.java:100-107 | a top-level statement gets its non-global free variables appended as local, in order |
| VariableScopeOptimizers.VariableScopeOptimizer.CollectArgs | src/com/fluidops/fedx/optimizer/VariableScopeOptimizer.java:112-134 | fails iff some argument is not a statement tuple; otherwise the map from each non-global variable to the arguments listing it |
| VariableScopeOptimizers.VariableScopeOptimizer.FreeVarsOf | src/com/fluidops/fedx/optimizer/VariableScopeOptimizer.java:124 | the free variables of a statement or group, each as often as it is listed |
| VariableScopeOptimizers.VariableScopeOptimizer.AddArgument | src/com/fluidops/fedx/optimizer/VariableScopeOptimizer.java:124-133 | one argument's non-global names are added to the map |
| VariableScopeOptimizers.VariableScopeOptimizer.MeetNJoin | src/com/fluidops/fedx/optimizer/VariableScopeOptimizer.java:109-143 | a join with an argument that is not a statement tuple changes nothing; otherwise each statement keeps its old local variables and gains, without repeats, exactly its non-global variables that no other argument lists |
| VariableScopeOptimizers.VariableScopeOptimizer.Register | src/com/fluidops/fedx/optimizer/VariableScopeOptimizer.java:137-142 | every statement argument gains exactly the single-argument variables that name it |
| VariableScopeOptimizers.VariableScopeOptimizer.AddToArgument | src/com/fluidops/fedx/optimizer/VariableScopeOptimizer.java:140-141 | the one named statement gains the variable, no other statement changes |
| VariableScopeOptimizers.VariableScopeOptimizer.Visit | src/com/fluidops/fedx/optimizer/VariableScopeOptimizer.java:66-97 | the global set becomes the old set plus the names the traversal meets |
| VariableScopeOptimizers.VariableScopeOptimizer.VisitAll | src/com/fluidops/fedx/optimizer/VariableScopeOptimizer.java:66-97 | the same over a list of children |
| EndpointManagers.PutAllLookup | src/com/fluidops/fedx/EndpointManager.java:115-131 | after adding a list of endpoints an id is registered iff it was or some added endpoint has it, and it maps to the last endpoint added with it |
| EndpointManagers.PutAllKeyed | src/com/fluidops/fedx/EndpointManager.java:128-131 | adding endpoints keeps every id mapped to an endpoint with that id |
| EndpointManagers.EndpointManager.constructor | src/com/fluidops/fedx/EndpointManager.java:87-99 | no endpoint, no connection, not in repair, never repaired |
| EndpointManagers.EndpointManager.Init | src/com/fluidops/fedx/EndpointManager.java:115-119 | every endpoint initialized: all are added in list order; otherwise the first uninitialized one stops the adding with its error |
| EndpointManagers.EndpointManager.AddEndpoint | src/com/fluidops/fedx/EndpointManager.java:128-131 | the id is mapped to the endpoint, replacing an earlier entry; its connection too when it is initialized, otherwise getConn's error is raised after the id was mapped |
| EndpointManagers.EndpointManager.RemoveEndpoint | src/com/fluidops/fedx/EndpointManager.java:199-204 | an unknown id raises NoSuchElementException and changes nothing; otherwise the id is unmapped and then the endpoint's connection, or getConn's error is raised |
| EndpointManagers.EndpointManager.GetEndpoint | src/com/fluidops/fedx/EndpointManager.java:221-223 | the endpoint registered under the id, none iff the id is unknown |
| EndpointManagers.EndpointManager.GetEndpointByConn | src/com/fluidops/fedx/EndpointManager.java:225-227 | the endpoint registered for the connection, none iff the connection is unknown |
| EndpointManagers.EndpointManager.GetEndpointByUrl | src/com/fluidops/fedx/EndpointManager.java:236-242 | a registered endpoint at that location, none iff there is no such endpoint |
| EndpointManagers.EndpointManager.GetEndpointByName | src/com/fluidops/fedx/EndpointManager.java:244-250 | a registered endpoint with that name, none iff there is no such endpoint |
| EndpointManagers.EndpointManager.GetEndpoints | src/com/fluidops/fedx/EndpointManager.java:260-270 | succeeds iff every id is registered, giving exactly the registered endpoint of each id once; otherwise NoSuchElementException names an unregistered id |
| EndpointManagers.EndpointManager.RepairConnection | src/com/fluidops/fedx/EndpointManager.java:142-157 | an unknown connection gives null and changes nothing; otherwise the old entry is removed and, on success, the endpoint's fresh connection mapped to it; a failed repair raises the prefixed RepositoryException |
| EndpointManagers.EndpointManager.RepairAllConnections | src/com/fluidops/fedx/EndpointManager.java:160-185 | within 3000 ms of the last repair nothing happens; otherwise it succeeds iff every endpoint can be repaired, then each registered endpoint has a fresh connection mapped to it and the repair time is recorded; on failure the error is that of some registered endpoint that cannot be repaired, with the RepositoryException prefix; the in-repair flag ends cleared |
| EndpointManagers.EndpointManager.RepairEach | src/com/fluidops/fedx/EndpointManager.java:173-177 | the loop succeeds iff every endpoint can be repaired, and then each has a fresh connection mapped to it; otherwise it fails with the repair error of an endpoint that cannot be repaired |
| EndpointManagers.EndpointManager.RepairEndpoint | src/com/fluidops/fedx/EndpointManager.java:174-176 | one endpoint's repair succeeds iff it is initialized, has a repository and can connect; the new connection is fresh and remapped; a failure raises `EndpointRepairFailure` |
| EndpointManagers.EndpointRepairFailure | src/com/fluidops/fedx/EndpointManager.java:173-180 | the error of one endpoint's repair: not initialized, the null reference without a repository, or the connect error with the prefix when it is a RepositoryException |
| EndpointManagers.MapRepaired | src/com/fluidops/fedx/EndpointManager.java:174-176 | unmapping an endpoint's old connection and mapping its new one keeps the already repaired ones mapped |
| EndpointManagers.RepairError | src/com/fluidops/fedx/EndpointManager.java:154-155 | a RepositoryException gets the prefixed message, any other error passes unchanged |
| EndpointManagers.EndpointManagerRegistry.constructor | src/com/fluidops/fedx/EndpointManager.java:55 | no instance yet |
| EndpointManagers.EndpointManagerRegistry.GetEndpointManager | src/com/fluidops/fedx/EndpointManager.java:61-65 | the instance iff one exists, otherwise FedXRuntimeException "not yet initialized" |
| EndpointManagers.EndpointManagerRegistry.Initialize | src/com/fluidops/fedx/EndpointManager.java:70-83 | refused with FedXRuntimeException when an instance exists; otherwise the instance is a new manager holding the given endpoints |
| EndpointManagers.EndpointManagerRegistry.ShutDown | src/com/fluidops/fedx/EndpointManager.java:274-276 | the instance is forgotten |
| EndpointManagers.InitializeAfterShutDown | src/com/fluidops/fedx/EndpointManager.java:70-83 | a second initialize is refused until shutDown, after which it succeeds with an empty manager |
| ExceptionUtils.LastIndexOf | src/com/fluidops/fedx/exception/ExceptionUtil.java:51 | the last occurrence of a delimiter at or below a bound, or -1 when there is none |
| ExceptionUtils.TitleSpanSpec | src/com/fluidops/fedx/exception/ExceptionUtil.java:51 | the error-page pattern matches iff some <title> is followed by a </title>, and its group lies between the rightmost such delimiters, as the greedy .* places them |
| ExceptionUtils.NoTitleNoHttpError | src/com/fluidops/fedx/exception/ExceptionUtil.java:84-93 | a message without <title> is never taken for an HTTP error page |
| ExceptionUtils.ServiceUnavailableTitle | src/com/fluidops/fedx/exception/ExceptionUtil.java:87-90 | the page "<title>503</title>" has the title "503" |
| ExceptionUtils.SourceId | src/com/fluidops/fedx/exception/ExceptionUtil.java:73-82 | the id of the connection's endpoint, or "unknown" when no endpoint has the connection |
| ExceptionUtils.TraceExceptionSource | src/com/fluidops/fedx/exception/ExceptionUtil.java:71-99 | refused before the endpoint manager is initialized; otherwise a QueryEvaluationException with the traced message and the original cause |
| ExceptionUtils.TracedMessageKeepsPlainMessage | src/com/fluidops/fedx/exception/ExceptionUtil.java:96 | a message that is no error page is kept verbatim between the endpoint id and the additional information |
| ExceptionUtils.TracedMessageOfErrorPage | src/com/fluidops/fedx/exception/ExceptionUtil.java:87-96 | an error page is reduced to "HTTP Error: " and its title |
| ExceptionUtils.TracedMessageOfNull | src/com/fluidops/fedx/exception/ExceptionUtil.java:85-86 | a null message is shown as "n/a" |
| ExceptionUtils.ChangeExceptionMessage | src/com/fluidops/fedx/exception/ExceptionUtil.java:171-197 | same class and cause; unchanged when the class has no (message, cause) constructor, otherwise a message is set |
| ExceptionUtils.ChangedMessageRoundTrip | src/com/fluidops/fedx/exception/ExceptionUtil.java:189 | the changed message is the prefix, a dot, then the original message, which can be read back |
| ExceptionUtils.FirstSocketCauseSpec | src/com/fluidops/fedx/exception/ExceptionUtil.java:128-141 | the walk down the causes finds the earliest SocketException of the chain, and none iff the chain holds none |
| ExceptionUtils.TopLevelSocketExceptionIgnored | src/com/fluidops/fedx/exception/ExceptionUtil.java:128 | a SocketException passed in itself, not as a cause, does not trigger a repair |
| ExceptionUtils.RepairFailure | src/com/fluidops/fedx/exception/ExceptionUtil.java:135-137 | a failed repair is rethrown as a FedXRuntimeException with the same message and the error as cause; other errors pass |
| ExceptionUtils.RepairConnection | src/com/fluidops/fedx/exception/ExceptionUtil.java:126-142 | no socket cause: nothing happens; otherwise always an error: not initialized, or after a successful repair the FedXQueryException naming the endpoint, or, when the repair fails, `RepairFailure` of the repair error of some registered endpoint that cannot be repaired |
| ExceptionUtils.RepairAtSocketCause | src/com/fluidops/fedx/exception/ExceptionUtil.java:131-138 | the not-initialized error without a manager; the FedXQueryException naming the repaired endpoint when the repair succeeds; otherwise `RepairFailure` of the repair error of some registered endpoint that cannot be repaired |
| ExceptionUtils.FailedRepairIsRuntimeException | src/com/fluidops/fedx/exception/ExceptionUtil.java:135-137 | a RepositoryException of a failed connect reaches the caller as a FedXRuntimeException whose message carries the repair prefix |
| ExceptionUtils.TraceExceptionSourceAndRepair | src/com/fluidops/fedx/exception/ExceptionUtil.java:109-112 | without a socket cause the result is the traced exception; with one, the repair's error instead: the not-initialized error, the FedXQueryException naming the endpoint after a successful repair, or RepairFailure of an unrepairable endpoint's error |
| EndpointFactories.GetIdSpec | src/com/fluidops/fedx/util/EndpointFactory.java:286-290 | an id is the type, "_", then no "/" at all |
| EndpointFactories.GetIdOfHttpUrl | src/com/fluidops/fedx/util/EndpointFactory.java:286-290 | for "http://" + rest with no further "http://", the id is the type, "_" and rest with every "/" replaced by "_" |
| EndpointFactories.GetIdOfPlainName | src/com/fluidops/fedx/endpoint/EndpointFactory.java:321-325 | for "http://" + a name with neither "/" nor "http://", the id is the type, "_" and the name |
| EndpointFactories.GetIdOfHostAndPath | src/com/fluidops/fedx/util/EndpointFactory.java:286-290 | the id of "http://" + host + "/" + path is the type, host and path joined by "_" |
| EndpointFactories.DbpediaSparqlId | src/com/fluidops/fedx/util/EndpointFactory.java:82 | "http://dbpedia.org/sparql" gets the id "sparql_dbpedia.org_sparql" |
| EndpointFactories.DbpediaTrailingSlash | src/com/fluidops/fedx/util/EndpointFactory.java:286-290 | "http://dbpedia.org/" gets the id "sparql_dbpedia.org_": the trailing slash becomes a trailing "_" |
| EndpointFactories.SparqlInformation | src/com/fluidops/fedx/util/EndpointFactory.java:79-84 | the given name and location, the SPARQL endpoint type, and an id "sparql_" with no "/" after it |
| EndpointFactories.SparqlEndpointNameSpec | src/com/fluidops/fedx/util/EndpointFactory.java:98-107 | a host other than localhost is named "http://" + host; for localhost the port can be read back from the name |
| EndpointFactories.LocalhostWithoutPort | src/com/fluidops/fedx/util/EndpointFactory.java:100-102 | a localhost URL without a port is named "http://localhost_-1" |
| EndpointFactories.LoadSparqlEndpoint | src/com/fluidops/fedx/util/EndpointFactory.java:98-107 | a malformed URL raises FedXException "Malformed URL: " + the endpoint; otherwise the information named after the host |
| EndpointFactories.LoadSparqlEndpointName | src/com/fluidops/fedx/endpoint/EndpointFactory.java:102-111 | the same refusal, and the same name passed on, in the newer factory |
| EndpointFactories.DbpediaSparqlEndpoint | src/com/fluidops/fedx/util/EndpointFactory.java:98-107 | the DBpedia SPARQL endpoint is named "http://dbpedia.org" and gets the id "sparql_dbpedia.org_sparql" |
| EndpointFactories.LoadEndpoint | src/com/fluidops/fedx/util/EndpointFactory.java:126-138 | the given id, the name "http://" + id, the data directory as location or "http://unknown" when it cannot be read, the type Other |
| EndpointFactories.NativeLocation | src/com/fluidops/fedx/util/EndpointFactory.java:169-171 | the base directory, "/" and the relative location |
| EndpointFactories.SelectProvider | src/com/fluidops/fedx/util/EndpointFactory.java:232-271 | a provider only for its own literal, never the resolvable one; an unknown type raises the refusal for its kind |
| EndpointFactories.SelectProviderWithResolvable | src/com/fluidops/fedx/endpoint/EndpointFactory.java:262-306 | a provider only for its own literal; an unknown type raises the refusal for its kind |
| EndpointFactories.SelectProviderRoundTrip | src/com/fluidops/fedx/endpoint/EndpointFactory.java:262-306 | each provider's literal selects that provider, in each factory that has it; an IRI selects none |
| EndpointFactories.DispatchesAgree | src/com/fluidops/fedx/util/EndpointFactory.java:232-271 | the two dispatches agree on every type but "ResolvableRepository", which the older one refuses as unsupported |
| RemoteRepositoryInfos.FirstObjectSpec | src/com/fluidops/fedx/provider/RemoteRepositoryGraphRepositoryInformation.java:67-69 | the lookup finds nothing iff no triple has the node as subject and the predicate, and otherwise the object of the first such triple |
| RemoteRepositoryInfos.RemoteRepositoryInformation.Direct | src/com/fluidops/fedx/provider/RemoteRepositoryGraphRepositoryInformation.java:55-59 | id "remote_" + name, name "http://" + name, location server + "/" + name, and the server and name stored verbatim |
| RemoteRepositoryInfos.RemoteRepositoryInformation.OfType | src/com/fluidops/fedx/provider/RemoteRepositoryGraphRepositoryInformation.java:50-51 | the remote repository type and no settings yet |
| RemoteRepositoryInfos.RemoteRepositoryInformation.SetProperty | src/com/fluidops/fedx/provider/RemoteRepositoryGraphRepositoryInformation.java:57-58 | one setting replaced, the others kept |
| RemoteRepositoryInfos.RemoteRepositoryInformation.Initialize | src/com/fluidops/fedx/provider/RemoteRepositoryGraphRepositoryInformation.java:61-82 | the name is set first; a missing server triple raises NoSuchElementException with only the name set; then location and server are the server object; a missing name triple raises with that partial state; otherwise the repository name and the id derived from the node are set |
| RemoteRepositoryInfos.FromGraph | src/com/fluidops/fedx/provider/RemoteRepositoryGraphRepositoryInformation.java:50-53 | fails with NoSuchElementException iff a triple is missing; otherwise exactly the five settings read from the graph |
| RemoteRepositoryInfos.GraphIdSpec | src/com/fluidops/fedx/provider/RemoteRepositoryGraphRepositoryInformation.java:78-81 | the id from the graph is "remote_" followed by no "/" at all |
| RemoteRepositoryInfos.GraphIdMatchesDirectId | src/com/fluidops/fedx/provider/RemoteRepositoryGraphRepositoryInformation.java:78-81 | a node "http://" + name, for a name with neither "/" nor "http://", gets the id the direct constructor gives that name |
| RemoteRepositoryInfos.DbpediaRemoteId | src/com/fluidops/fedx/provider/RemoteRepositoryGraphRepositoryInformation.java:79-80 | the node "http://dbpedia.org/" gets the id "remote_dbpedia.org_", with a trailing "_" |
| RemoteRepositoryInfos.GraphLocationIsServer | src/com/fluidops/fedx/provider/RemoteRepositoryGraphRepositoryInformation.java:67-71 | with both triples present the five settings are set, the location and the server setting are the same server, and the name is the node |
| PrintNodes.BindingTexts | src/com/fluidops/fedx/algebra/AdditionalBindingsNode.java:54 | one "name=value" text per binding, in order |
| PrintNodes.LastComma | src/com/fluidops/fedx/algebra/LocalVarsNode.java:56-57 | the position of the last ',' of a text, or -1 |
| PrintNodes.UnjoinJoin | src/com/fluidops/fedx/algebra/LocalVarsNode.java:54-58 | splitting at the separators gives back the parts joined, when there is at least one part and none holds a ',' |
| PrintNodes.SignatureRoundTrip | src/com/fluidops/fedx/algebra/LocalVarsNode.java:52-60 | a printed signature reads back into exactly the printed parts |
| PrintNodes.EmptyListPrintsLikeEmptyName | src/com/fluidops/fedx/algebra/LocalVarsNode.java:52-60 | no part and a single empty part print alike as the head followed by ")" |
| PrintNodes.SignatureSeparatorCount | src/com/fluidops/fedx/algebra/LocalVarsNode.java:54-58 | a signature of n comma-free parts holds n - 1 commas, none for no part |
| PrintNodes.FirstEquals | src/com/fluidops/fedx/algebra/AdditionalBindingsNode.java:54 | the position of the first '=' of a text, or its length |
| PrintNodes.SplitBindingText | src/com/fluidops/fedx/algebra/AdditionalBindingsNode.java:54 | a binding's text splits at the first '=' back into its name and its value string, when the name holds no '=' |
| PrintNodes.BindingsRoundTrip | src/com/fluidops/fedx/algebra/AdditionalBindingsNode.java:49-60 | the bindings signature reads back into one text per binding, each splitting into that binding's name and value string |
| PrintNodes.Visitor.constructor | src/com/fluidops/fedx/algebra/LocalVarsNode.java:45-46 | no node met yet |
| PrintNodes.Visitor.MeetOther | src/com/fluidops/fedx/algebra/LocalVarsNode.java:45-46 | the node is met after the ones met before |
| PrintNodes.LocalVarsNode.constructor | src/com/fluidops/fedx/algebra/LocalVarsNode.java:39-42 | the node holds the given names |
| PrintNodes.LocalVarsNode.Visit | src/com/fluidops/fedx/algebra/LocalVarsNode.java:44-47 | the visitor meets this node as an other node, after what it met before |
| PrintNodes.LocalVarsNode.GetSignature | src/com/fluidops/fedx/algebra/LocalVarsNode.java:49-61 | the loop prints "LocalVars (", the names joined with ", ", and ")" |
| PrintNodes.LocalVarsNode.VisitOf | src/com/fluidops/fedx/algebra/LocalVarsNode.java:63-65 | the visitor meets exactly one more node, a new one holding the given names |
| PrintNodes.AdditionalBindingsNode.constructor | src/com/fluidops/fedx/algebra/AdditionalBindingsNode.java:38-41 | the node holds the given bindings |
| PrintNodes.AdditionalBindingsNode.Visit | src/com/fluidops/fedx/algebra/AdditionalBindingsNode.java:43-46 | the visitor meets this node as an other node, after what it met before |
| PrintNodes.AdditionalBindingsNode.GetSignature | src/com/fluidops/fedx/algebra/AdditionalBindingsNode.java:48-60 | the loop prints "Additional Bindings (", the name=value texts joined with ", ", and ")" |
| PrintNodes.AdditionalBindingsNode.VisitOf | src/com/fluidops/fedx/algebra/AdditionalBindingsNode.java:62-64 | the visitor meets exactly one more node, a new one holding the given bindings |
| PrintNodes.LocalVarsSeparatorCount | src/com/fluidops/fedx/algebra/LocalVarsNode.java:54-58 | the local-variables signature of n comma-free names holds n - 1 commas |
| PrintNodes.BindingsSeparatorCount | src/com/fluidops/fedx/algebra/AdditionalBindingsNode.java:53-57 | the bindings signature of n comma-free bindings holds n - 1 commas |

## Left out

- BoundJoins.ControlledWorkerBoundJoin.HandleBindings: requires a positive configured block size, which excludes two behaviours of the source once more than 10 bindings have been sent. With a block size of 0 it loops for ever, scheduling empty blocks. With a negative block size `new ArrayList<BindingSet>(nBindings)` throws an IllegalArgumentException.
- BoundJoins.ControlledWorkerBoundJoin.HandleBindings: a right argument that cannot be evaluated in blocks goes to the tuple-at-a-time parent join. The model only reports that fallback, because the parent class is not part of this model.
- VariableScopeOptimizers.VariableScopeOptimizer.Visit: states the global variables after the traversal, but not the local variables registered on the statements it reaches. `MeetTupleExpression` and `MeetNJoin` state those for each node they handle.
- Endpoints.EqualsHash: the hash code of the endpoint type enum is identity-based in Java. It is a parameter of the hash, so the lemma holds for any such hash.
- ExceptionUtils.ChangeExceptionMessage: whether the exception class has a (message, cause) constructor is decided by reflection in the source. Here it is a boolean input, and the failure paths of the reflective call are the `false` case.
- ExceptionUtils.RepairConnection, ExceptionUtils.FirstSocketCauseSpec, ExceptionUtils.TopLevelSocketExceptionIgnored, EndpointManagers.RepairError, EndpointManagers.EndpointRepairFailure: an exception is recognised by its exact class. The model has no class hierarchy for exceptions. The source tests causes with `instanceof`, so it also accepts subclasses of `SocketException` such as `ConnectException`. Its `catch (RepositoryException r)` at EndpointManager.java:179 and ExceptionUtil.java:139 also catches subclasses of `RepositoryException`.
- StatementEvaluation.FirstWithStatements, StatementEvaluation.HandleCheck, StatementEvaluation.FirstPrepared, StatementEvaluation.EvaluateSourcePattern and their helpers require `Known`: every statement source names an endpoint with a triple source. Source selection only assigns registered endpoints. For an unknown id, the source dereferences null (StatementSourcePattern.java lines 75-76 and 134-135), and the model does not cover that NullPointerException.
- ParallelExecutors.ParallelExecutor.GetNextElement: the library `QueueCursor` that `FedXQueueCursor` extends is not part of this model. The model takes its `hasNext()` to raise the first tossed exception before taking the next queued iteration, and its `checkException()` to drop the exception it raises. The cursor closing itself on an error, and `FedXQueueCursor.convert` wrapping an exception that is not a QueryEvaluationException, are not modelled.
- Threads, the scheduler, the phaser, the blocking of the result queue and the `synchronized` sections are left out. The model is sequential: a queue holds what has been added, and a worker task is a value handed to the scheduler.
- The remote answers are inputs, because they come from the network. This covers triple sources (`hasStatements`, `getStatements`), the query-string builder, the cache, the effective boolean value of a filter, and connecting to a repository.
- The clock (`System.currentTimeMillis`, the remaining query time) is given as a parameter.
- `OptimizerUtil.flattenJoin` is not part of this model. `GenericInfoOptimizers.JoinArgs` states what the pass relies on it for: the arguments of directly nested joins, left to right.
- `RepositoryInformation.java` is not part of this model. Its four-argument constructor is taken to set the id, name and location properties, and `setProperty` to replace one property.
- `replaceWith` on a query node is modelled by returning the new tree. Aliasing between parent and child nodes is not captured.
- HashMap and HashSet iteration order is unspecified in the source. Loops over registered endpoints, or over the map entries of `meetNJoin`, pick the next element arbitrarily, and the contracts hold for every order.
- `loadFederationMembers` is left out, because it reads and parses a configuration file.
- The other repository descriptions are left out: `SPARQLRepositoryInformation`, `NativeRepositoryInformation`, `NativeGraphRepositoryInformation` and `ResolvableRepositoryInformation`. They are not part of this model.
- The `File.getName` id of `loadNativeEndpoint(name, location)` depends on platform path rules and is left out. Only the location passed on by the base-directory variant is modelled (`NativeLocation`).
- The providers that build repositories and HTTP clients are left out, as are the `Endpoint` setters and the closing of connections and iterators.
- The second `QueryInfo` constructor (for `getStatements`) only fills in a query string and is left out.
- Logging is left out everywhere.
- `AtomicInteger` wrap-around of the query id counter is not modelled. Ids are unbounded integers.
- The visitor is modelled as a recorder of the "other" nodes it meets. The RDF4J visitor's default traversal is not modelled.
- `ExclusiveGroup.addLocalVar` is not part of this model. A registration on a group argument of a join changes no statement (`VariableScopeOptimizers.OtherArgument`).
- In `repairAllConnections`, a repair within 3000 ms of the last one returns without repairing. `repairConnection` still aborts the query with the message that all connections have been repaired. The model keeps this behaviour as written.

## Findings

| source | as written | input that shows it | evidently intended | confidence | as-written member | corrected member |
|---|---|---|---|---|---|---|
| src/com/fluidops/fedx/algebra/FedXStatementPattern.java:167 | `addBoundFilter` removes only the first occurrence of the bound name from `freeVars` | `?x <p> ?x` with `FILTER(?x = <a>)`: `freeVars` keeps `x` though no position is unbound, so `hasFreeVarsFor` reports a free variable | every occurrence is removed, so `freeVars` stays the names of the unbound positions | medium; not executed | StatementPatterns.AddBoundFilterAsWrittenKeepsFreeVar | StatementPatterns.FedXStatementPattern.AddBoundFilter |
| src/com/fluidops/fedx/optimizer/FilterOptimizer.java:114-115 | a conjunct is dropped when no filter tuple needs it for post-filtering, even when no tuple took it over | `SELECT * WHERE { ?s ?p ?o FILTER(?z = <x>) }`: the filter is removed and every triple returned, though `?z` is unbound and the comparison admits no row | drop a conjunct only when some tuple bound it or took it over | medium; not executed | FilterOptimizers.UnmatchedFilterDroppedAsWritten | FilterOptimizers.FilterOptimizer.ConjunctKept |
