# anyduct execution semantics, modelled and proved in Dafny

anyduct is an ETL engine: pipelines are graphs or lists of tasks that move records between
connectors, and a set of static analyses promises things about them before they run. This project
models the engine's execution semantics and proves what its parts promise each other.

Records are ordered dictionaries from column names to cells; a cell holds a value and, as a
bookkeeping device, the set of source columns it came from. `Erasure` proves that this device
never influences a run.

| part | modules |
|---|---|
| Graph engine: nodes, joins, aggregates, order independence | `Engine`, `Join`, `Aggregation`, `Grouping`, `Transforms`, `RowLaws`, `Kahn`, `Digraphs` |
| Static column lineage against the engine | `Lineage`, `Erasure` |
| Task scheduler: order, trigger rules, branches, mapping, XCom | `TaskOrder`, `Dag`, `DagLaws`, `DagSolution`, `RefOrder`, `Mapped`, `MappedMemory` |
| Linear runner, fan-out, lowering to a graph | `Linear`, `DeadLetters`, `FanOut`, `Lowering` |
| Fast data paths against the record path | `DataPaths`, `Pushdown`, `FastPaths`, `GraphPaths`, `Arrow`, `ArrowPath`, `Sqlite` |
| Stream loop | `Stream`, `Sqs` |
| Backfill windows, templates, reachability, lint | `Backfill`, `Templating`, `Staging`, `Reachability`, `Assets`, `Lint`, `MapLint` |

Loops and objects of the source are methods and classes here, each proved equal to a function of
its inputs or its old state; the theorems are about those functions. User code (predicates, casts,
callables, SQL) is a parameter: a total function that may report failure.

`dafny verify dfyconfig.toml` checks everything.

## Where a promise is not kept as stated

Each of these has its exact condition as a theorem, and the code is modelled as it is.

- A rename onto one name lets the last column win, and static lineage forgets the others: `Transforms.RenameSoundIff`.
- The graph tests each edge's predicate on its own, the linear runner routes to the first match: `Lowering.LoweringPreservesIff`.
- `dedupe` remembers across the passes a fan-out makes, so sinks after the first get nothing: `FanOut.LaterPass`.
- The stream's `finally` block commits past a record whose transform or publish raised: `Stream.ConfigSafeIff` by configuration, `Stream.SessionSafeIff` by session.
- Pushdown inserts by position, and counts rows written as rows read: `Pushdown.PushdownAgreesIff`, `FastPaths.PushedTaskAgreesIff`.
- Were a reader to yield only empty batches, the Arrow path would empty a table on overwrite, where the record path leaves it alone, and refuse names the table lacks: `ArrowPath.ReaderStreamAgreesIff`. `Arrow.ReadArrow` shows that readers that fetch in chunks never do; only the Postgres reader, whose CSV parser is not part of this model, could.
- A `pre_sql` on the sink node of a graph chain is skipped by pushdown and makes the Arrow path raise: `GraphPaths.PushedChainAgreesIff`, `GraphPaths.ArrowedChainAgreesIff`.
- A write to SQLite rolls back only on driver errors; what a raising record iterator leaves in the open transaction is committed by the next write: `Sqlite.ResidueIff`, `Sqlite.CommitResidue`.
- Upsert is idempotent only for records that give every key: `Sqlite.WriteTwiceIff`.
- Rendering in two passes differs from rendering once when the first leaves a bare reference that is not text, when an inserted value names an active namespace, and when a reference is resolved by neither pass, as `map.k` in a task that is not mapped: `Staging.TwoStagesIff`, `Staging.StrayDiffers`.
- An aggregate without grouping columns over no records gives no record, although its documentation promises a single one: `Aggregation.AggregateSize`.
- The order of a task run matters when XCom is read from a task the reader is not ordered with: `RefOrder.OrderMattersIff`. Lint does not see such a read in an expand list: `Lint.CleanButStale`.
- Lint says of an undeclared `map` key that the token is not substituted; the rendering fails on it: `MapLint.WarnedIffUnresolved`.
- The instances of a mapped task, documented as independent, share the memory of a `dedupe`: `MappedMemory.LaterInstance`.

## Model

| member | source | states |
|---|---|---|
| `Lineage.LineageSound` | etl_plugins/runtime/column_lineage.py:317-413 | after every completed graph run, at every node with a static mapping each output record has only mapped columns and each cell only source columns from that column's upstream set, for any graph, any topological order and any user code the mapping is right about |
| `Lineage.SinkEdgesSound` | etl_plugins/runtime/column_lineage.py:302-356 | for a record actually written to a sink, either the sink is reported opaque or an emitted edge names the column and covers every source column its cell came from |
| `Lineage.ProcessGraph` | etl_plugins/runtime/column_lineage.py:317-356 | the emitted edges are exactly those of the traceable sinks, the opaque assets exactly those of sinks without a mapping, and every node's mapping satisfies its local equation |
| `Lineage.MapNodes` | etl_plugins/runtime/column_lineage.py:317-378 | the walk in dependency order gives every node of an acyclic graph the mapping its kind derives from its parents, or none when a parent is opaque |
| `Transforms.TransformSound` | etl_plugins/runtime/column_lineage.py:156-213 | what a transform emits stays inside its static mapping whenever its input did, provided a rename does not drop upstream columns and user-declared mappings are right |
| `Transforms.RenameSoundIff` | etl_plugins/runtime/column_lineage.py:156-213 | exact condition for a static rename: it covers the renamed record of every record the input mapping covers if and only if, wherever two mapped columns meet under one name, the last one's upstream set contains the others' |
| `Transforms.InjectiveIsSafe` | etl_plugins/runtime/transforms.py:84-87 | a rename that is injective on the live columns meets that condition |
| `Erasure.TagsNeverSteer` | etl_plugins/core/pipeline.py:737-818 | provenance is only observed: runs over sources that differ in provenance alone give the same records, counters and errors |
| `Engine.OrderIrrelevant` | etl_plugins/core/pipeline.py:1601-1623 | any two topological orders of a graph succeed or fail alike, with the same output at every node and the same counters |
| `Engine.RunSolves` | etl_plugins/core/pipeline.py:1608-1623 | a completed run leaves at each node exactly what that node computes from the recorded outputs of its upstream nodes |
| `Engine.SolutionDrives` | etl_plugins/core/pipeline.py:1608-1623 | conversely, node outputs that satisfy the local equations are what any run along the edges produces, and its counters are the sums over the nodes |
| `Engine.RunGraph` | etl_plugins/core/pipeline.py:1601-1623 | dangling edges and cycles are refused; otherwise an order exists, no output is read before it is set, and the result is the result along every topological order |
| `Engine.ExecuteGraphNode` | etl_plugins/core/pipeline.py:737-818 | one node: source, operator, transform, join, aggregate and sink with their arity errors, equal to the node semantics the run theorems are about |
| `Engine.CollectInputs` | etl_plugins/core/pipeline.py:1610-1612 | one filtered record list per incoming edge, in edge order; the first failing predicate fails the node |
| `Engine.ApplyEdgePredicate` | etl_plugins/core/pipeline.py:702-725 | keeps the records whose predicate holds, in order, and fails when a predicate raises |
| `Engine.InputsLocal` | etl_plugins/core/pipeline.py:1610-1612 | a node's inputs depend on the outputs of its upstream nodes only |
| `Kahn.CheckGraph` | etl_plugins/config/models.py:420-476 | five outcomes, each with its exact condition: duplicate ids, unknown endpoints, a degree rule broken, a cycle, acceptance |
| `Kahn.Drain` | etl_plugins/config/models.py:463-475 | the last-in-first-out pass visits every node if and only if the graph has no cycle |
| `Kahn.ToposortNodes` | etl_plugins/core/pipeline.py:578-596 | returns a permutation of the nodes with all edges pointing forward, and fails if and only if the edges contain a cycle |
| `Kahn.Tally` | etl_plugins/config/models.py:434-440 | in-degree counters and adjacency lists describe the edge list; an unknown endpoint is noticed |
| `Digraphs.KahnRound` | etl_plugins/core/pipeline.py:587-593 | taking any ready node and releasing its targets preserves the counting invariant, whichever node the queue discipline picks |
| `Digraphs.KahnEnd` | etl_plugins/core/pipeline.py:594-596 | when nothing is ready, all nodes are out if and only if the graph is acyclic |
| `Digraphs.StalledIsCyclic` | etl_plugins/config/models.py:463-475 | a nonempty set of nodes that wait for one another contains a closed walk |
| `Digraphs.TopologicalAcyclic` | etl_plugins/runtime/graph.py:87-111 | a topological order of the whole graph rules every cycle out |
| `Join.JoinIsRelational` | etl_plugins/core/pipeline.py:599-640 | the hash join is, as a multiset, all key-equal pairs with right columns winning plus the unmatched left rows (left, outer) and unmatched right rows (right, outer) |
| `Join.JoinSize` | etl_plugins/core/pipeline.py:599-640 | its size is the sum over keys of left count times right count, plus the unmatched rows it keeps |
| `Join.FoldJoinSucceedsIff` | etl_plugins/core/pipeline.py:643-648 | an n-way join succeeds if and only if there are key columns and every row of every input carries them, and then so does every row of the result |
| `Join.JoinRecords` | etl_plugins/core/pipeline.py:599-640 | the index-and-probe loops compute the join the relational theorem is about, in the code's output order |
| `Join.ProbeIndex` | etl_plugins/core/pipeline.py:619-635 | the probe loop fails exactly on a missing key and remembers exactly the keys that found partners |
| `Join.CollectUnmatched` | etl_plugins/core/pipeline.py:636-639 | the right groups nobody matched, group by group in index order |
| `Join.HashJoin` | etl_plugins/core/pipeline.py:643-648 | the left fold over the inputs |
| `Join.JoinOrigin` | etl_plugins/core/pipeline.py:599-640 | every output row is a left row, a right row, or one of each merged with right columns winning |
| `Grouping.BuildIndex` | etl_plugins/core/pipeline.py:675-685 | the dictionary loop fails on the first record without a key column; otherwise each key maps to exactly its records in order, keys in order of first appearance |
| `Grouping.GroupsPartition` | etl_plugins/core/pipeline.py:675-685 | the groups partition the records |
| `Aggregation.Aggregate` | etl_plugins/core/pipeline.py:669-699 | the grouping and aggregation loops compute the aggregate the laws below are about |
| `Aggregation.SummariseGroup` | etl_plugins/core/pipeline.py:687-698 | the loop over the aggregations of one group, failing on the first that fails |
| `Aggregation.AggregateColumns` | etl_plugins/core/pipeline.py:687-698 | output number i holds under each aggregation's name that aggregation of exactly the rows of group i |
| `Aggregation.AggregateKeys` | etl_plugins/core/pipeline.py:687-690 | under a grouping column no aggregation overwrites, it holds the value every row of its group holds |
| `Aggregation.AggregateSize` | etl_plugins/core/pipeline.py:687-699 | no input gives no output record, even without grouping columns; without grouping there is one record; group sizes add up to the input size |
| `Aggregation.SumsConserved` | etl_plugins/core/pipeline.py:651-699 | group sums of a numeric column add up to its sum over all records |
| `Aggregation.SumIsRealSum` | etl_plugins/core/pipeline.py:651-666 | `sum` ignores nulls, is the real sum of the rest, and is null when nothing is left |
| `Aggregation.LeastIsLeast` | etl_plugins/core/pipeline.py:651-666 | `min` is one of the values and none is below it, for numbers and for text |
| `Aggregation.GreatestIsGreatest` | etl_plugins/core/pipeline.py:651-666 | `max` is one of the values and none is above it |
| `Transforms.ExecuteTransform` | etl_plugins/core/pipeline.py:777-790 | the record loop of a transform node, from a fresh memory, failing on the first record that raises |
| `RowLaws.DedupeKeepsFirst` | etl_plugins/runtime/transforms.py:224-239 | dedupe keeps exactly the first record of every key, in order of first appearance, and remembers exactly the keys it met |
| `RowLaws.DedupeTwiceIsOnce` | etl_plugins/runtime/transforms.py:224-239 | deduplicating a deduplicated stream changes nothing |
| `RowLaws.FilterSelects` | etl_plugins/runtime/transforms.py:135-165 | filter and assert succeed if and only if no record raises, and then keep exactly the passing records in order |
| `Erasure.JoinStrip` | etl_plugins/core/pipeline.py:599-640 | a join of records without provenance is the join without provenance |
| `Erasure.AggregateStrip` | etl_plugins/core/pipeline.py:669-699 | the same for aggregates |
| `TaskOrder.OrderedTasks` | etl_plugins/core/pipeline.py:869-921 | without dependencies the list is unchanged; with them, bad names and dangling references are refused, and given proper names and known dependencies it fails if and only if they are cyclic; the result is the topological order that always takes the first available task |
| `TaskOrder.OrderIsLeast` | etl_plugins/core/pipeline.py:869-921 | that order is lexicographically least by original position among all topological orders |
| `TaskOrder.ConsistentListUnchanged` | etl_plugins/core/pipeline.py:869-921 | a list whose dependencies all point backwards is returned as it is |
| `TaskOrder.StableKahn` | etl_plugins/core/pipeline.py:894-921 | the pass with the sorted ready list fails exactly on cycles and always takes the first available task |
| `TaskOrder.CheckNames` | etl_plugins/core/pipeline.py:881-892 | refuses exactly blank and repeated names |
| `TaskOrder.CheckReferences` | etl_plugins/core/pipeline.py:894-903 | refuses dangling and self references: what passes has neither |
| `DagSolution.SolutionUnique` | etl_plugins/core/pipeline.py:1449-1525 | the final state of a run is the only solution of the local equations: dropped by a successful branch, else decided by the trigger rule, else by the task itself |
| `DagSolution.RunSolves` | etl_plugins/core/pipeline.py:1449-1525 | the final state solves those equations, states, XCom entries, records and attempts included |
| `DagSolution.OrderIrrelevant` | etl_plugins/core/pipeline.py:1449-1525 | all run orders of the same tasks end with the same states, XCom, records and totals, when in both orders every task references itself, tasks before it, tasks that depend on it, or unknown names |
| `DagSolution.ComparableIsOrdered` | etl_plugins/core/pipeline.py:1449-1525 | references between tasks ordered by the dependencies, in either direction, meet that condition in every run order |
| `DagSolution.OutcomeLocal` | etl_plugins/core/pipeline.py:1449-1525 | how a task ends depends only on what it and its ancestors do |
| `RefOrder.OrderMattersIff` | etl_plugins/core/pipeline.py:1449-1525 | the exact condition for any references between tasks without branches, mapping or special rules: all run orders end alike for every behaviour of the tasks if and only if no task depends on and reads only tasks that succeed in every order, none of them itself or behind it, with one it reads not before it |
| `RefOrder.OneReferenceIff` | etl_plugins/core/pipeline.py:1449-1525 | with a single reference: if and only if the name read is the reader's own, unknown, or before or behind it |
| `RefOrder.SuccessIsSure` | etl_plugins/core/pipeline.py:1449-1525 | where no task is so torn, a task succeeds only if all it depends on and reads, and theirs in turn, lies upstream |
| `RefOrder.StaleReference` | etl_plugins/core/pipeline.py:1155-1217 | the smallest DAG that fails it: y reads what x publishes without depending on it, z depends on x; the two orders end differently |
| `DagSolution.ExecuteLocal` | etl_plugins/core/pipeline.py:1219-1338 | a task's execution depends on the XCom entries it references and on its own body only |
| `DagLaws.RanIffRuleHolds` | etl_plugins/core/pipeline.py:1527-1553 | once all has ended, a task was run if and only if its rule holds of its dependencies' states and no branch dropped it; `upstream_failed` appears exactly under all_success and none_failed after a failure |
| `DagLaws.EndsAs` | etl_plugins/core/pipeline.py:1481-1520 | every task ends skipped when dropped, else as its trigger rule decides, else by what it did |
| `DagLaws.RunsIff` | etl_plugins/core/pipeline.py:1527-1553 | with all_success everywhere a task runs if and only if all its ancestors succeeded and no branch dropped it |
| `DagLaws.UpstreamFailedExplained` | etl_plugins/core/pipeline.py:1527-1553 | under any mix of rules an upstream_failed task has a failed ancestor |
| `DagLaws.RaisesIffFailed` | etl_plugins/core/pipeline.py:1514-1524 | the run raises if and only if some task failed |
| `DagLaws.CountsConserved` | etl_plugins/core/pipeline.py:1493-1520 | at every point of the run the per-task records add up to the run totals, failed mapped tasks included |
| `DagLaws.MappedInstances` | etl_plugins/core/pipeline.py:1362-1447 | a mapped task that was run recorded one instance per combination of its lists, in product order, each with its own map values, counts and success behind the instances before it, however many failed; the task's records are their sums and it succeeds if and only if all did |
| `MappedMemory.InstancesAreOneRun` | etl_plugins/core/pipeline.py:1393-1440 | instances share their row transforms, so together they write exactly as many records as one run over all their records in order |
| `MappedMemory.LaterInstance` | etl_plugins/runtime/transforms.py:224-239 | when all instances read the same records, each repeats the first, or only the first writes once a dedupe is among the transforms |
| `DagLaws.InstancesAre` | etl_plugins/core/pipeline.py:1393-1440 | what the instance loop records and totals, for any list of combinations, each instance free to depend on those before it |
| `DagLaws.FirstRuleWins` | etl_plugins/core/pipeline.py:1556-1569 | the first branch rule that applies decides; none applying selects nothing; a rule raising before that fails the task |
| `DagLaws.DeselectedLater` | etl_plugins/core/pipeline.py:1474-1513 | a branch only drops tasks that come later in the run |
| `DagLaws.AncestorBefore` | etl_plugins/core/pipeline.py:869-921 | ancestors stand earlier in every run order |
| `DagLaws.TopologicalIsRunOrder` | etl_plugins/core/pipeline.py:869-921 | what the ordering pass returns is such an order |
| `Dag.DagRun.RunDag` | etl_plugins/core/pipeline.py:1449-1525 | the loop over the tasks, continuing after failures: the object's state equals the folded state the laws are about, and it raises exactly when an error was recorded |
| `Dag.DagRun.RunTask` | etl_plugins/core/pipeline.py:1481-1520 | one task's turn: deselection, trigger rule, execution, branch selection, bookkeeping |
| `Dag.DagRun.ExecuteTask` | etl_plugins/core/pipeline.py:1219-1338 | counters, XCom entry and records after one task, for success and failure, mapped or not |
| `Dag.DagRun.ExecuteMappedTask` | etl_plugins/core/pipeline.py:1362-1447 | every instance is attempted and recorded, successful ones are counted even when others fail; the entry is published either way |
| `Dag.BranchSelect` | etl_plugins/core/pipeline.py:1556-1569 | the rule loop, which the first-rule law describes |
| `Mapped.CrossProduct` | etl_plugins/core/pipeline.py:1340-1360 | the combinations of the expand lists |
| `Mapped.ProductSize` | etl_plugins/core/pipeline.py:1340-1360 | there are as many as the product of the list lengths |
| `Mapped.ProductCovers` | etl_plugins/core/pipeline.py:1340-1360 | each combination occurs exactly as often as it can be picked, so once for lists without repeats |
| `Linear.StagesAreStaged` | etl_plugins/core/pipeline.py:2037-2071 | without a dead-letter queue the fused, lazily chained stages give what running the transforms one after another over the whole stream gives, memories included |
| `Linear.StageIsStaged` | etl_plugins/core/pipeline.py:2054-2071 | the same for one row stage: a loop fusion law that holds with stateful dedupe |
| `Linear.ChainSplit` | etl_plugins/core/pipeline.py:2054-2071 | its step: pushing each record through one more transform equals finishing the earlier ones first |
| `DeadLetters.QueuedStagesAreApart` | etl_plugins/core/pipeline.py:2037-2071 | with a dead-letter queue the fused stages still give the stream and memories of their transforms run one after another, and the same dead letters up to order; only a dataset transform can fail |
| `DeadLetters.QueuedStageIsApart` | etl_plugins/core/pipeline.py:2054-2071 | the same for one row stage, which never fails |
| `DeadLetters.LaterQueuedPass` | etl_plugins/core/pipeline.py:2054-2071 | a later pass with a queue repeats the first, or is empty once a dedupe is among the transforms |
| `DeadLetters.ForgetfulPass` | etl_plugins/core/pipeline.py:2037-2071 | without a dedupe every pass gives the same stream, dataset transforms and queue included |
| `Linear.ApplyRowStage` | etl_plugins/core/pipeline.py:2054-2071 | the record loop: a raise either fails the stage or, with a dead-letter queue, sets the original record aside and goes on |
| `Linear.TransformRecord` | etl_plugins/core/pipeline.py:2056-2071 | the transform loop over one record stops at the first drop or raise, with memories updated up to there |
| `FanOut.WrittenConserved` | etl_plugins/core/pipeline.py:2119-2184 | the `written` counter is the number of matched records plus the unmatched ones times the number of default sinks |
| `FanOut.RoutingConserves` | etl_plugins/core/pipeline.py:2135-2159 | the routes of all sinks together hand out exactly that many records |
| `FanOut.DeliveredRoutes` | etl_plugins/core/pipeline.py:2174-2184 | every sink is handed its route through its own pass over the source: the first pass for sink 0, for later sinks the same stream or, once a dedupe is in the chain, nothing; dataset transforms and dead-letter queue included |
| `FanOut.LaterPass` | etl_plugins/runtime/transforms.py:224-239 | a later pass over the source repeats the first if no transform remembers records, and produces nothing at all otherwise |
| `FanOut.AcceptIff` | etl_plugins/core/pipeline.py:2135-2159 | a sink takes a record if and only if it is the first conditional sink whose predicate holds, or it is a default sink and none holds |
| `FanOut.MatchIsFirst` | etl_plugins/core/pipeline.py:2135-2150 | the match is the lowest index whose predicate holds |
| `FanOut.RunTask` | etl_plugins/core/pipeline.py:1915-2190 | no sink and an unreadable source are errors; otherwise one pass per sink, records counted on the first pass only |
| `FanOut.WriteSink` | etl_plugins/core/pipeline.py:2174-2184 | one sink's turn: pass, route, write; any failure ends the task |
| `FanOut.ReadAndTransform` | etl_plugins/core/pipeline.py:2097-2117 | the loop over the stages is the composed stream |
| `FanOut.RouteStream` | etl_plugins/core/pipeline.py:2106-2117 | filtering a stream by acceptance keeps order and fails when a predicate raises |
| `FanOut.MatchSink` | etl_plugins/core/pipeline.py:2135-2150 | the first-match loop |
| `Lowering.LoweringPreservesIff` | etl_plugins/runtime/graph.py:31-72 | the lowered graph hands every sink exactly the record sequence the linear runner hands it if and only if routing is exclusive on the transformed records (no two conditional sinks want one record, no default sink stands beside one that does); with a dedupe among row transforms, if and only if no sink behind the first would be handed anything |
| `Lowering.LoweredAccepted` | etl_plugins/runtime/graph.py:31-72 | a lowered graph passes every condition of the graph check |
| `Lowering.LoweredRun` | etl_plugins/runtime/graph.py:31-72 | any run of it hands sink i the edge-filtered end of the transform chain |
| `Lowering.ToGraph` | etl_plugins/runtime/graph.py:31-72 | the tail-moving loops build source, transform spine and fan of sinks |
| `Lowering.RouteVersusEdge` | etl_plugins/core/pipeline.py:2135-2159 | a sink's route is never longer than its edge's output, and they agree if and only if every passing record is also accepted |
| `Pushdown.PushdownAgreesIff` | etl_plugins/core/pipeline.py:2192-2259 | the statement leaves, for every table content and every result with rows, what the record path leaves, refusals included, if and only if the query names the table's columns in order, or the column counts differ and the query names a column the table lacks |
| `Pushdown.EmptyResultIff` | etl_plugins/core/pipeline.py:2192-2259 | on a result without rows the two agree if and only if the column counts do |
| `Pushdown.PushPathAgreesIff` | etl_plugins/core/pipeline.py:2237-2259 | with the table's columns in order, table and counts agree if and only if the driver reports the number of rows, or any number not above zero when there are none |
| `FastPaths.TrySqlPushdown` | etl_plugins/core/pipeline.py:2192-2259 | the statement is built if and only if the task is one append of one SELECT into one plain table of the source's own database with nothing in between |
| `FastPaths.PushedTaskAgreesIff` | etl_plugins/core/pipeline.py:2192-2259 | a pushed task leaves its record path's table; its counts agree if and only if the driver counts the rows and a pushed-down transform gives as many records as it was given, since rows written are reported as rows read |
| `FastPaths.TrivialChain` | etl_plugins/core/pipeline.py:1626-1658 | a graph is taken for a chain only when it is one, and every chain with one node of each kind is recognised |
| `FastPaths.ChainRuns` | etl_plugins/core/pipeline.py:1601-1623 | the materialised run of a chain reads its source, applies its transform and writes its sink, errors and counts included |
| `FastPaths.ChainIsBareTask` | etl_plugins/core/pipeline.py:1601-1623 | the materialised run of a chain without a transform is the record path of the bare linear task: same error, records and counts |
| `GraphPaths.TryGraphFastPaths` | etl_plugins/core/pipeline.py:1660-1723 | the guards, pushdown before Arrow, and Arrow only without a transform: which path every graph takes |
| `GraphPaths.PushedChainAgreesIff` | etl_plugins/core/pipeline.py:1660-1723 | with the table's columns in order, a pushed chain, with or without its SQL node, leaves the table and counts of its materialised run if and only if the sink node's `pre_sql` leaves that table as it is, the driver counts the rows and the SQL node keeps their number |
| `GraphPaths.ChainPushdownAgreesIff` | etl_plugins/core/pipeline.py:1660-1723 | for every table content and result with rows the two store the same if and only if the columns are the table's in order and `pre_sql` changes no table, or both refuse |
| `GraphPaths.ArrowedChainAgreesIff` | etl_plugins/core/pipeline.py:1660-1723 | a chain copied as Arrow batches leaves the table and counts of its materialised run if and only if its sink node has no `pre_sql` entry, not even a null one, and the batch stream condition holds |
| `GraphPaths.PreSqlDropped` | etl_plugins/runtime/builder.py:334-356 | the failing chain: `DELETE FROM t` on the sink node is skipped by pushdown and executed by the materialised run, and keeps the linear task of the same sink from being pushed |
| `GraphPaths.TwinsPart` | etl_plugins/runtime/builder.py:233-356 | for every sink: `pre_sql` decides over the pushdown of the linear task and never over that of the chain |
| `ArrowPath.ReaderStreamAgreesIff` | etl_plugins/core/pipeline.py:2261-2311 | on batches that share one list of names, as the readers make them, piping reader into writer leaves the record path's table and counts if and only if there is a row, or no batch at all, or the table has the names and nothing is there for an overwrite to delete |
| `ArrowPath.ArrowPathAgreesIff` | etl_plugins/core/pipeline.py:2261-2311 | on any batches whose first has rows: the two agree, refusals included, unless a later batch lacks a name of the first while the table has them all; then only the Arrow path refuses |
| `ArrowPath.WriteArrow` | etl_plugins/connectors/rdbms/mysql.py:391-455 | succeeds if and only if the table has the first batch's names and no batch lacks one; then all rows are stored under those names, whatever order a batch lists them in, and counted |
| `ArrowPath.RunArrow` | etl_plugins/core/pipeline.py:2261-2311 | the counts of the path: batch rows read, writer's count written |
| `Arrow.ReadArrow` | etl_plugins/connectors/rdbms/mysql.py:321-389 | every batch has the query's names and between one and `chunk_size` rows, and together they are the result rows in order |
| `Arrow.RoundTripIff` | etl_plugins/core/arrow.py:100-130 | packing and unpacking returns the records if and only if each chunk has columns, the same in the same order throughout |
| `Arrow.RecordsToBatches` | etl_plugins/core/arrow.py:100-123 | non-positive sizes are refused; otherwise one batch per run of that many records, the rest last |
| `Arrow.BatchesToRecords` | etl_plugins/core/arrow.py:126-130 | the nested loop gives all rows of all batches in order |
| `Arrow.TransposedBack` | etl_plugins/core/arrow.py:100-130 | row i rebuilt from the columns is record i under the first record's columns, nulls where it had none |
| `DataPaths.BareTaskDelivers` | etl_plugins/core/pipeline.py:2097-2184 | a task without transforms and with one default sink hands that sink the source's records unchanged |
| `DataPaths.RecordPathIs` | etl_plugins/core/pipeline.py:2097-2184 | so its record path stores the records as they are and reports them all read and written |
| `Sqlite.LastRecordWins` | etl_plugins/connectors/rdbms/sqlite.py:391-426 | after an upsert the row under a key is the last record with that key laid over the old row; other keys keep theirs |
| `Sqlite.UpsertUnique` | etl_plugins/connectors/rdbms/sqlite.py:391-426 | upserts keep keys unique |
| `Sqlite.WriteTwiceIff` | etl_plugins/connectors/rdbms/sqlite.py:308-426 | a second identical upsert write changes nothing if and only if every record gives every key column a value and the first record names them all |
| `Sqlite.UpsertIdempotentIff` | etl_plugins/connectors/rdbms/sqlite.py:391-426 | the same on table rows |
| `Sqlite.SqliteSink.Write` | etl_plugins/connectors/rdbms/sqlite.py:308-363 | no failure touches what is committed; a driver failure rolls the open transaction back; an error of the record iterator leaves in it exactly what was executed before; success commits the mode's function of table and records, for every batch size, and counts the records; overwrite without records changes nothing |
| `Sqlite.ResidueIff` | etl_plugins/connectors/rdbms/sqlite.py:334-361 | an error of the iterator leaves every table as it was if and only if nothing had been executed: no record at all, or no overwrite and fewer than a batch |
| `Sqlite.CommitResidue` | etl_plugins/connectors/rdbms/sqlite.py:334-361 | the next write on the connection commits what such an error left behind |
| `Sqlite.RetryStoresTwice` | etl_plugins/connectors/rdbms/sqlite.py:334-361 | a repeated append then stores the batches sent before the error twice |
| `Sqlite.NothingSentIff` | etl_plugins/connectors/rdbms/sqlite.py:365-390 | nothing was sent exactly while a single record or less than one batch was read |
| `Sqlite.SqliteSink.SendBatches` | etl_plugins/connectors/rdbms/sqlite.py:365-426 | buffered sending loses, repeats and reorders nothing, for every batch size |
| `Sqlite.AppliedConcat` | etl_plugins/connectors/rdbms/sqlite.py:365-426 | sending in two parts is sending at once |
| `Backfill.BackfillExactlyOnce` | etl_plugins/core/pipeline.py:2008-2035 | on an ordered source, running the windows (b_i, b_i+1] one after another reads what one run over the whole range reads |
| `Backfill.SuggestionCovers` | services/anyduct-web/lib/backfill-suggest.ts:20-39 | with suggested boundaries the windows together read every record from minimum to maximum exactly once |
| `Backfill.SuggestBoundaries` | services/anyduct-web/lib/backfill-suggest.ts:20-39 | strictly increasing from min-1 to max, every interior cut present and within half a unit of the exact split, nothing else; refused exactly outside 1..64 windows or for an empty range |
| `Backfill.DedupeIncreasing` | services/anyduct-web/lib/backfill-suggest.ts:69-75 | keeps exactly the points above all points before them, and refuses exactly when nothing rises above the first |
| `Backfill.BoundariesFromQuantiles` | services/anyduct-web/lib/backfill-suggest.ts:100-112 | starts below the minimum, then exactly the quantiles above everything before them |
| `Backfill.CursorStream` | etl_plugins/core/pipeline.py:2008-2035 | the cursored read, stopping at the first record beyond the window, reads exactly the window's records, counts them and reports their greatest cursor |
| `Backfill.WindowSplits` | etl_plugins/connectors/rdbms/sqlite.py:250-306 | a window of an ordered source splits into two adjacent half-open ones |
| `Stream.AtLeastOnce` | etl_plugins/core/pipeline.py:2503-2565 | over any number of processes of the loop, each with its own configuration and deliveries and each cut at any effect or run to its end: unless one overcommits, every position before the committed one was dropped, dead-lettered, or published and flushed |
| `Stream.ConfigSafeIff` | etl_plugins/core/pipeline.py:2503-2565 | every session of a configuration is safe, whatever is delivered and however it ends, if and only if nothing is committed after flushes or at most one publish is ever pending |
| `Stream.SessionSafeIff` | etl_plugins/core/pipeline.py:2503-2565 | the condition per session, read off configuration and deliveries: no delivery raises out of the loop over pending publishes that the `finally` block then flushes and commits with it |
| `Stream.CutSafeIff` | etl_plugins/core/pipeline.py:2503-2565 | a crash before the last effect keeps the guarantee; only a session run to its end can lose it, and exactly under that condition |
| `Stream.ArunStreamTask` | etl_plugins/core/pipeline.py:2503-2565 | the loop and its `finally` block are the session function the laws are about |
| `Stream.LoopSafe` | etl_plugins/core/pipeline.py:2524-2559 | every point of the loop is safe; pending publishes stay below the limit at every loop head; the log matches the deliveries and each flush is followed by its commit; counters agree with the log; all deliveries but one in hand are dealt with |
| `Stream.DealWith` | etl_plugins/core/pipeline.py:2525-2546 | transforming and publishing one delivery: dropped, dead-lettered, published, or raised, as the delivery decides |
| `Stream.TurnKeeps` | etl_plugins/core/pipeline.py:2525-2559 | one delivery keeps the loop's invariant, including after a raise |
| `Stream.FlushBeforeAck` | etl_plugins/core/pipeline.py:2515-2522 | a flush and commit on deliveries all dealt with is safe; a flush that works leaves nothing unflushed and everything handled, and only then, only under after_sink_flush and only up to the deliveries made does the acknowledged position move |
| `Stream.SafePrefix` | etl_plugins/core/pipeline.py:2503-2565 | a crash at any point keeps the guarantee |
| `Stream.OvercommitLoses` | etl_plugins/core/pipeline.py:2560-2563 | the losing deliveries, for every configuration that commits after flushes and may hold two publishes: one record published, the next publish raises, the `finally` block acknowledges both |
| `Stream.TailSafe` | etl_plugins/core/pipeline.py:2560-2563 | the `finally` block is safe if and only if it does not acknowledge past what was dealt with |
| `Sqs.SqsSource.Commit` | etl_plugins/connectors/stream/sqs.py:164-179 | every remembered receipt is deleted once and in order, in calls within the cap of ten; a failed call keeps all receipts |
| `Sqs.SqsSource.DeleteQueue` | etl_plugins/connectors/stream/sqs.py:168-178 | one queue in chunks: what was deleted is a prefix of its receipts |
| `Sqs.SqsSource.Remember` | etl_plugins/connectors/stream/sqs.py:146-162 | one receipt more is pending, no other is touched |
| `Staging.TwoStagesIff` | etl_plugins/core/templating.py:208-228 | rendering a configuration at load time and again per task equals one rendering with both contexts if and only if every string lasts (no reference to a namespace neither pass resolves, no collapse onto a bare reference that is not text, inserted values untouched by the second pass), or both ways fail |
| `Staging.StringTwiceIff` | etl_plugins/core/templating.py:189-205 | the exact condition for one string: a reference is undefined, so that both fail, or the string lasts |
| `Staging.TaskRenderIs` | etl_plugins/core/pipeline.py:1166-1217 | the per-task pass, which defers every namespace it finds but the active ones and skips tasks that name none, resolves exactly the references into its context |
| `Staging.StrayDiffers` | etl_plugins/core/pipeline.py:1189-1202 | the failing input: a task that is not mapped and names `map.k` keeps the text in two passes, while one rendering fails |
| `Staging.PiecesTwice` | etl_plugins/core/templating.py:189-205 | reference by reference, two passes are one pass over both contexts unless a reference is stray; which references make either fail |
| `Staging.ReferenceAsValue` | etl_plugins/core/templating.py:208-228 | a value that is itself a reference is left as text by one rendering, and resolved by the second pass only when its namespace is active |
| `Staging.InertSettles` | etl_plugins/core/templating.py:208-228 | a value that names no active namespace is never touched again |
| `Staging.ResolveMerged` | etl_plugins/core/templating.py:171-186 | with both contexts a reference resolves as in the pass it belongs to, and fails if it is missing there or stray |
| `Templating.RenderLocal` | etl_plugins/core/templating.py:126-143 | what a pass does depends only on which of the namespaces a value names it defers |
| `Templating.RenderUntouched` | etl_plugins/core/templating.py:208-228 | a pass that defers every namespace a value names leaves the value as it is |
| `Templating.ScanGenuine` | etl_plugins/core/templating.py:189-205 | cutting a string into references and literals loses nothing |
| `Templating.ScanPrint` | etl_plugins/core/templating.py:189-205 | text put together from references and brace-free literals is cut back into them |
| `Templating.ResolvePath` | etl_plugins/core/templating.py:171-186 | the walk through nested mappings, undefined at the first missing key |
| `Templating.PlainRender` | etl_plugins/core/templating.py:208-228 | values without braces render to themselves |
| `Reachability.Reachable` | etl_plugins/core/asset.py:204-214 | the worklist ends on every graph, cyclic ones included, with exactly the nodes at least one edge away |
| `Assets.AssetGraph.AncestorsMirrorDescendants` | etl_plugins/core/asset.py:196-214 | a is an ancestor of b if and only if b is a descendant of a |
| `Assets.AssetGraph.AddEdge` | etl_plugins/core/asset.py:172-176 | both maps stay mirror images and exactly one edge is added |
| `Assets.AssetGraph.AddLineage` | etl_plugins/core/asset.py:178-183 | exactly the record's edges and assets are added |
| `Assets.AssetGraph.AddAsset` | etl_plugins/core/asset.py:167-170 | an asset is known afterwards and no edge changes |
| `Assets.AssetGraph.Ancestors` | etl_plugins/core/asset.py:196-198 | exactly the transitive upstream assets |
| `Assets.AssetGraph.Descendants` | etl_plugins/core/asset.py:200-202 | exactly the transitive downstream assets |
| `Reachability.ConverseLeads` | etl_plugins/core/asset.py:196-214 | paths in mirrored maps are each other's reversal |
| `Lint.TransitiveUpstream` | etl_plugins/runtime/lint.py:639-656 | for every task exactly its ancestors, a task on a cycle not listed for itself |
| `Lint.LintXcomRefs` | etl_plugins/runtime/lint.py:555-636 | the `xcom` half: the warnings are exactly the deserved ones, so none if and only if every reference names the task itself or an ancestor |
| `Lint.CleanRefsResolve` | etl_plugins/runtime/lint.py:555-636 | with all_success everywhere and a clean report, whenever a task runs the entry of every other task it references is already there |
| `Lint.ExpandsReadyIff` | etl_plugins/core/pipeline.py:1340-1360 | what expand lists read stands before its reader in every run order if and only if it lies upstream |
| `Lint.CleanButStale` | etl_plugins/runtime/lint.py:539-553 | the rule never looks at expand lists: a DAG with a clean report that maps over the entry of a task it does not depend on, and in some order reads it too early |
| `MapLint.LintMapRefs` | etl_plugins/runtime/lint.py:571-609 | the `map` half of the rule: exactly the deserved warnings, so none if and only if every key is declared |
| `MapLint.WarnedIffUnresolved` | etl_plugins/runtime/lint.py:571-609 | a `map.<key>` text draws a warning if and only if no instance gets a value for it: without `expand` it stays as it is, with an unknown key the rendering fails, otherwise it is the key's map value |
| `MapLint.WarnedNeverResolves` | etl_plugins/runtime/lint.py:571-609 | longer paths that draw a warning resolve in no instance |
| `MapLint.BareMapWarned` | etl_plugins/runtime/lint.py:571-609 | the bare reference `map` draws a warning although every instance resolves it |
| `Lint.LeadsIsAncestor` | etl_plugins/runtime/lint.py:639-656 | reachability in the lint's adjacency is the scheduler's ancestor relation |

## Left out

- Connectors and drivers, connection lifecycle, SQL text and quoting, DDL and auto-created tables: I/O and foreign libraries. A source is a record sequence, a sink a function or an abstract table, a queue a list of receipts.
- User code: predicates, casts, callables and SQL bodies are total functions that may report failure. For dataset transforms the static inference (sqlglot) is trusted where `Lineage.LineageSound` says `GraphReliable`, and so are user-declared column mappings.
- Values are null, exact numbers or text. Float rounding, dates, and comparisons across other types are not modelled.
- Record metadata and schema versions; the order of references inside a lineage tuple (upstream columns are sets).
- Retries, timeouts, hooks, metrics, logging, wall-clock time; one run of a task or mapped instance stands for all its retries, so `task_attempts` is not modelled.
- Sources that change during a run: every pass over a source sees the same records.
- YAML loading, pydantic field parsing, `has_template` and `template_paths`: plumbing or plain traversal. References reach the scheduler model as a set per task.
- String, date and float branches of the backfill suggestions.
- Writes to the dead-letter sink itself, which are best effort.
- SQL text beyond the composed statement: quoting, dialects, and queries whose result repeats a column name.
- Backfill.BoundariesFromQuantiles: integers only; the source compares whatever the query returns.
- Lowering.LoweringPreservesIff: runs on which neither side raises; with several sinks, chains that mix a dedupe with dataset transforms are left out as in `FanOut.DeliveredRoutes`.
- FanOut.WrittenConserved: sinks that report the records they were handed.
- FanOut.DeliveredRoutes: with several sinks, chains that mix a dedupe with dataset transforms, where later passes depend on what the dataset transform makes of an emptied stream.
- Linear.StagesAreStaged: without a dead-letter queue; `DeadLetters.QueuedStagesAreApart` is the law with one.
- RefOrder.OrderMattersIff: tasks without branches, mapping or special rules; `DagSolution.OrderIrrelevant` is one direction for all others.
- MappedMemory.InstancesAreOneRun: row transforms with a dead-letter queue, one default sink.
- Lint.LintXcomRefs: the `xcom` half of the rule, on named tasks without repeats; `MapLint.LintMapRefs` is the other half.
- ArrowPath.ArrowPathAgreesIff: streams whose first batch has rows; `ArrowPath.ReaderStreamAgreesIff` covers empty ones with shared names.
- ArrowPath.WriteArrow: append and overwrite, as the path allows; what a refused write leaves in an open transaction, and column types, which the reader fixes by chunk, are not modelled.
- Arrow.ReadArrow: chunk sizes above zero; a non-positive fetch size is the driver's business.
- Arrow.RoundTripIff: `from_pylist` names columns by the first record, and without columns a batch has no rows.
- Sqlite.SqliteSink.Write: the table's own constraints other than the key index, and type affinity. Null keys never conflict, as in SQL.
- Staging.TwoStagesIff: spaces in references are the ASCII ones; `str` of a value is a function that is the identity on text; values spliced into a longer string hold no braces.
