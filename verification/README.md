# Verified model of a playlist synchroniser

The modelled program copies playlists from one music platform to others. It finds each source track on a
target library with user-written *match rules*, runs the copying as scheduled background work, and keeps a
history of what each run found. This project models its decision-making parts in Dafny and proves what they
promise. `dafny verify dfyconfig.toml` checks everything.

## What is modelled

**Match rules: a graph compiler and interpreter** (`Graphs` to `Engine`). A rule is a directed graph of typed
nodes. `Validator` accepts or rejects it: a depth-first cycle search (`CycleSearch`) and two breadth-first
closures (`Reachability`). `Layout` draws it in columns with a label-correcting worklist (`Worklist`, `Grid`),
`Parser` turns it into a canvas and back, and `Executor` runs the canvas in the order of a first-in first-out
topological sort (`KahnOrder`), pushing values along edges. Four graph algorithms must agree on one graph, and
the main results say that they do:

- the cycle search reports a cycle exactly when the sort comes out short, and the nodes left out are exactly
  those on or behind a cycle;
- the worklist ends exactly when its input has no cycle reachable from a parentless node (and has a parentless
  node, or is empty), with every node in the column of its longest walk from a parentless node;
- the execution order never goes back to an earlier column, although sort and drawing share no code;
- the outputs of a run are the one solution of the rule's dataflow equations, whatever topological order is
  used, and the results are the first emission of each key.

**The per-schedule dispatch lock** (`DispatchStore`, `DispatchLock`, `DispatchSafety`). Dispatches, parent
tasks, children, retries, key expiry and outages are steps over one lock key and one counter key, interleaved
freely. `DispatchStore.Valkey` holds the two keys as the server scripts see them, the counter as the text
`token:n`.

**Match strategies** (`Similarity`, `Selection`, `Candidates`, `Strategies`, `StrategyChain`,
`StrategyRunner`). Scores are exact reals. Composite strategies may be nested to any depth.

**Triggering, persistence and history** (`Trigger`, `TriggerProtocol`, `TriggerSafety`, `SourceTracks`,
`TrackStore`, `RunLifecycle`, `RunTable`, `Aggregates`, `RunDiff`).

Algorithms that loop are methods with loops, proved equal to a specification function or predicate; objects
that change are classes. The properties are proved about those specifications.

## What the proofs turned up

These follow the code, which in places does not do what its comments or log messages say.

- On a cyclic graph the executor logs that it runs the nodes "in arbitrary order"
  (src/app/core/services/matcher.py:110). In fact nodes on or behind a cycle are never run
  (`KahnOrder.OmittedIffBehindCycle`).
- The layout calls its worklist a breadth-first search (src/app/match_rules/layout.py:5). It computes longest
  walks, and it does not end at all on some cyclic inputs (`Worklist.DryIffHalts`, `Worklist.LoopsForever`).
  Accepted rules are never among them (`AcceptedRules.AcceptedSettles`).
- A parent that fails in the middle of spawning is retried and spawns all its children again, while the counter
  still counts one set. A live run then loses its lock, and a second one can start, in exactly three ways
  (`DispatchSafety.LocksHeldIff`): a child completes the count although more children were spawned than counted
  (`DispatchSafety.PartialSpawnBreaksExclusion`) or the parent will spawn again
  (`DispatchSafety.WaitingParentBreaksExclusion`); a retried parent fails before it spawns again and gives the
  lock back under its first children (`DispatchSafety.ReleasingParentBreaksExclusion`); a parent is retried after
  its children have freed the lock (`DispatchSafety.LateRetryBreaksExclusion`).
- The flag that says that children exist is set before the first one is queued (src/app/worker/tasks.py:210). A
  last attempt that fails on its first child releases nothing, and the lock stays until it expires, with no
  outage anywhere (`DispatchSafety.ChildlessParentLeavesLock`). `DispatchSafety.LeftBehindIff` says exactly when
  the lock of a run that is through is left behind.
- Acquiring takes two separate writes. When an old lock has expired, its counter still stands, and the next
  dispatch is caught between its two writes, the last child of the old run takes the new run's lock away
  (`DispatchSafety.TwoStepAcquireBreaksIsolation`). When the second write fails, the new run deletes the old
  run's counter as it gives its own lock back (`DispatchSafety.FailedCounterBreaksIsolation`).
  `DispatchStore.PostrunIsolatedIff` says that there is no third way.
- A trigger request that dies between its commit and its enqueue, or before its clean-up, leaves a row that uses
  up the key for good (`TriggerSafety.DropAbandons`, `TriggerSafety.SpentForever`), and nothing else does
  (`TriggerSafety.AbandonedIffDropped`). A broker acknowledgement that gets lost lets one key run twice
  (`TriggerSafety.LostAcknowledgementRunsTwice`).
- Finishing marks the newest run of a target, whatever execution it belongs to. When two executions overlap, the
  older run is never completed or counted (`RunLifecycle.OverlapOvertakes`, `RunLifecycle.OvertakenStays`).
- With an empty list of strategies the three composite modes disagree (`StrategyChain.WithoutStrategies`), and
  two candidates that differ under one id break the order of strictness (`StrategyChain.SharedIdBreaksChain`).
- The canvas round trip turns an empty description into an absent one (`Parser.RoundTrip`).

## Assumptions

- Node handlers, search and the target libraries are pure functions of configuration, track and inputs, and may
  fail. The four match handlers get only the inputs they read in the source.
- Dispatch tokens are never reused. Expiry of either key is a step that may happen at any time; theorems that
  need it not to happen say so.
- Text normalisation, lower-casing and splitting into words are parameters.
- A task is retried at most three times, as the source configures it, so it ends at most four times. This is built
  into the steps of the dispatch model.
- A database transaction is one step, except in the trigger protocol, where lookup, insert, commit, enqueue and
  clean-up are separate steps and an insert waits for an uncommitted row with the same key.
- A sync's `playlists` entry in `RunLifecycle` is the list of stored tracks by position, which `SourceTracks`
  proves to be the last non-empty playlist saved.

## Model

| member | source | states |
|---|---|---|
| `KahnOrder.OrderSorts` | src/app/core/services/matcher.py:91-107 | The sort visits known nodes once, each after all its parents, misses no node whose parents are all visited, and takes nodes in the order in which they became ready |
| `KahnOrder.OutgoingTable` | src/app/core/services/matcher.py:81-87 | Each node lists the targets of its edges, in edge order |
| `KahnOrder.InDegreeTable` | src/app/core/services/matcher.py:92-95 | Each node counts its incoming edges |
| `KahnOrder.VisitChildren` | src/app/core/services/matcher.py:102-107 | Counting down the children of a visited node queues exactly those that become ready, once, at the child's last edge |
| `KahnOrder.TopologicalSort` | src/app/core/services/matcher.py:91-107 | The queue loop computes the order of the specification |
| `KahnOrder.OmittedIffBehindCycle` | src/app/core/services/matcher.py:99-110 | A node is left out of the sort if and only if some cycle reaches it |
| `KahnOrder.ShortIffCyclic` | src/app/core/services/matcher.py:109-110 | The sort is shorter than the node list if and only if the graph has a cycle |
| `CycleSearch.CycleDetector.HasCycle` | src/app/match_rules/validator.py:133-143 | The recursive search never misses a back edge into the current path and never reports one falsely |
| `CycleSearch.CycleDetector.Finish` | src/app/match_rules/validator.py:142-143 | A node leaves the path only when all its children are finished |
| `CycleSearch.DetectCycle` | src/app/match_rules/validator.py:129-150 | A cycle is reported if and only if the graph has one |
| `CycleSearch.FinishedIsAcyclic` | src/app/match_rules/validator.py:133-143 | A graph in which every node finished after its children has no cycle |
| `CycleSearch.SearchAgreesWithSort` | src/app/match_rules/validator.py:129-150 | Cycle search and topological sort agree: there is a cycle exactly when the sort is short, and it omits exactly the nodes behind a cycle |
| `Reachability.Closure` | src/app/match_rules/validator.py:152-173 | The queue loop collects exactly the nodes reachable from its starting nodes |
| `Reachability.ReversedReaches` | src/app/match_rules/validator.py:122-127 | Following the parent table backwards is reachability in the other direction |
| `Rules.LoadedIsWellFormed` | src/app/match_rules/schema.py:78-107 | A rule that passes the schema has distinct node ids and edges between known nodes |
| `Rules.LoadsIff` | src/app/match_rules/schema.py:60-107 | A rule file loads if and only if its node ids differ and every field fits the schema; what is loaded holds its nodes and edges in order, with "out" and "in" for absent handles |
| `Validator.FindRepeats` | src/app/match_rules/validator.py:97-102 | Lists every key that occurred before, in order |
| `Validator.RepeatsPicked` | src/app/match_rules/validator.py:97-102 | Exactly the keys that an equal key precedes are listed, in order |
| `Validator.NoRepeatsIffDistinct` | src/app/match_rules/validator.py:97-102 | No repeats are listed if and only if all keys differ |
| `Validator.FindOfType` | src/app/match_rules/validator.py:110-111 | Lists the nodes of a type in definition order |
| `Validator.OfTypePicked` | src/app/match_rules/validator.py:110-111 | Exactly the nodes of the type are listed, in definition order |
| `Validator.BuildAdjacency` | src/app/match_rules/validator.py:122-127 | Child and parent tables hold each edge once, in opposite directions |
| `Validator.FindOrphans` | src/app/match_rules/validator.py:175 | Lists the nodes not reachable from a source or not reaching an output |
| `Validator.OrphansPicked` | src/app/match_rules/validator.py:175 | Exactly the nodes not between a source and an output are listed, in definition order |
| `Validator.CheckEnds` | src/app/match_rules/validator.py:109-119 | No complaint if and only if there is one source and some output; otherwise each complaint that is due, sources first, and no other |
| `Validator.CheckGraph` | src/app/match_rules/validator.py:107-183 | Collects the findings in order: ends, cycle, orphans |
| `Validator.CheckRepeats` | src/app/match_rules/validator.py:97-105 | Repeated edges are reported alone, before any graph check |
| `Validator.NoFindingsIffAcceptable` | src/app/match_rules/validator.py:107-185 | Nothing is found if and only if there is one source, an output, no cycle, and every node lies between the source and an output |
| `Validator.FindingsReported` | src/app/match_rules/validator.py:107-183 | Each problem of a rule is reported if and only if it is there, once, sources before outputs before cycles before orphans |
| `Validator.ValidateRule` | src/app/match_rules/validator.py:66-185 | A rule is accepted if and only if it loads and is acceptable, and every rejection carries the errors of the first stage that failed |
| `Columns.ColumnStep` | src/app/match_rules/layout.py:79-87 | An edge leads at least one column to the right |
| `Columns.ColumnParent` | src/app/match_rules/layout.py:79-87 | A node outside the first column has a parent exactly one column to the left |
| `Columns.ColumnsFilled` | src/app/match_rules/layout.py:94-98 | Every column up to a node's own holds some node |
| `Columns.AcyclicSettles` | src/app/match_rules/layout.py:79-87 | In an acyclic graph the walks from parentless nodes to a node have a longest one |
| `Worklist.LoopsForever` | src/app/match_rules/layout.py:79-87 | Whenever a cycle is reachable from a queued node the worklist never empties |
| `Worklist.DryIffHalts` | src/app/match_rules/layout.py:63-87 | The worklist empties if and only if no cycle is reachable from a parentless node and there is such a node (or no node at all) |
| `Worklist.VisitDecreases` | src/app/match_rules/layout.py:79-87 | Each visit lowers the remaining layer headroom, or keeps it and shortens the queue |
| `Worklist.DryAfter` | src/app/match_rules/layout.py:79-92 | When the worklist is empty every node is labelled with its longest walk, and unlabelled nodes belong to layer 0 |
| `Grid.GroupByLayer` | src/app/match_rules/layout.py:94-98 | Each layer lists its nodes in definition order |
| `Grid.Place` | src/app/match_rules/layout.py:100-113 | Each node stands in the column of its layer; the first of a column at the top margin, each later one exactly one row below the one of its column defined last before it |
| `Grid.NoOverlap` | src/app/match_rules/layout.py:104-111 | Two nodes never share a position |
| `Grid.GridStacked` | src/app/match_rules/layout.py:104-111 | Nothing stands above the top margin, and every column is filled downwards in definition order, without gaps |
| `Grid.GridUnique` | src/app/match_rules/layout.py:100-113 | Layers and definition order determine every position |
| `Layout.Adjacency` | src/app/match_rules/layout.py:53-61 | Edges with an unknown end are dropped from both tables |
| `Layout.SeedWork` | src/app/match_rules/layout.py:63-77 | The worklist starts from the parentless nodes, or from all nodes if there are none |
| `Layout.VisitHead` | src/app/match_rules/layout.py:80-87 | A child is raised and queued exactly when its label is missing or too low |
| `Layout.AssignLayers` | src/app/match_rules/layout.py:79-87 | The loop ends, with every label a longest walk |
| `Layout.FillMissing` | src/app/match_rules/layout.py:89-92 | Nodes without a label get layer 0 |
| `Layout.AutoLayout` | src/app/match_rules/layout.py:29-113 | On every input on which it ends the drawing puts each node in the column of its longest walk, and fills columns downwards from the top margin in definition order |
| `Layout.DrawnInColumn` | src/app/match_rules/layout.py:79-111 | The horizontal position of a node is its longest walk from a parentless node |
| `Layout.NodesDoNotOverlap` | src/app/match_rules/layout.py:104-113 | Two nodes never share a position in a drawing |
| `Layout.ArcsGoRight` | src/app/match_rules/layout.py:79-113 | In an acyclic graph every edge goes at least one column to the right |
| `Layout.NoEmptyColumn` | src/app/match_rules/layout.py:100-113 | Between the first column and any used one there is no empty column |
| `ExecutionOrder.FifoAscends` | src/app/core/services/matcher.py:97-107 | For any layering in which a node lies just past its deepest parent, a first-in first-out order never descends |
| `ExecutionOrder.OrderFollowsColumns` | src/app/core/services/matcher.py:91-107 | Nodes run in non-decreasing drawn column |
| `ExecutionOrder.OrderVisitsAll` | src/app/core/services/matcher.py:97-107 | On an acyclic graph every node runs, once |
| `AcceptedRules.SourceIsOnlyRoot` | src/app/match_rules/validator.py:113-117 | In an accepted rule the source is the only parentless node |
| `AcceptedRules.ChildlessIsOutput` | src/app/match_rules/validator.py:164-175 | In an accepted rule every childless node is an output |
| `AcceptedRules.AcceptedSettles` | src/app/match_rules/layout.py:79-87 | Drawing an accepted rule always ends |
| `AcceptedRules.SourceRunsFirst` | src/app/core/services/matcher.py:97-107 | In an accepted rule the source runs first |
| `AcceptedRules.SourceAloneInFirstColumn` | src/app/match_rules/layout.py:63-71 | In an accepted rule the source, and nothing else, stands in the first column |
| `AcceptedRules.RunsColumnByColumn` | src/app/core/services/matcher.py:91-107 | An accepted rule runs completely, column by column |
| `Parser.RuleToCanvas` | src/app/match_rules/parser.py:20-57 | The canvas carries every node, at its place in the drawing, and every edge with both handles, in order |
| `Parser.CanvasToRule` | src/app/match_rules/parser.py:60-104 | The file has one entry per node key, that of the last node with the key at the place of the first, and one per edge; positions, default handles, empty configurations and an empty name or description are dropped |
| `Parser.RoundTrip` | src/app/match_rules/parser.py:20-104 | A written canvas of an accepted rule reads back as the same rule, an empty description becoming absent |
| `Parser.NormalisedAccepted` | src/app/match_rules/parser.py:20-104 | The rule read back is accepted and has the same graph, hence the same drawing |
| `Dataflow.ReferenceIsIgnored` | src/app/core/nodes/matching.py:35-158 | No match handler looks at the reference input |
| `Dataflow.MatchersRead` | src/app/core/nodes/matching.py:35-158 | Which input each match node chooses from: the candidates handle, and for two of the types the in handle after it |
| `Dataflow.OutputPasses` | src/app/core/nodes/matching.py:168-169 | An output node passes on what arrives at its in handle |
| `Dataflow.EquationMeans` | src/app/core/services/matcher.py:136-159 | The equation of a node, read off the edges: a handle has an input if and only if an edge enters it, the last such edge brings the output under its source handle (or nothing), and the outputs are the handler's answer to these inputs |
| `Dataflow.RunSolves` | src/app/core/services/matcher.py:128-159 | A run in any topological order solves the dataflow equations |
| `Dataflow.SolutionEqualsRun` | src/app/core/services/matcher.py:128-159 | Every solution of the equations is what the run computes |
| `Dataflow.OrderIsIrrelevant` | src/app/core/services/matcher.py:128-159 | All topological orders give the same outputs, or all fail |
| `Emission.SameKeys` | src/app/core/services/matcher.py:117-126 | Dropping repeated emissions loses no key |
| `Emission.ResultsNoKeyTwice` | src/app/core/services/matcher.py:117-126 | No two results have the same key |
| `Emission.EmittedByEmitters` | src/app/core/services/matcher.py:172-180 | Every emission comes from a node of an emitting type |
| `Emission.KeysFromNodes` | src/app/core/services/matcher.py:172-180 | The result keys are exactly the keys of the emitting nodes' outputs |
| `Emission.KeyPriority` | src/app/core/services/matcher.py:121-122 | A result is known by its item id, failing that by its id, and failing that by all it holds |
| `Emission.EmissionIs` | src/app/core/services/matcher.py:172-180 | A node emits if and only if it is a match or output node that holds a dict under out |
| `Emission.ResultsAreFirsts` | src/app/core/services/matcher.py:117-126 | The results are exactly the emitted dicts whose key no earlier node emitted, in the order of the nodes |
| `Emission.Emit` | src/app/core/services/matcher.py:117-126 | An emission is kept if and only if it is a dictionary with an unseen key |
| `Executor.IncomingTable` | src/app/core/services/matcher.py:81-89 | Each node lists its incoming edges in edge order |
| `Executor.FindReference` | src/app/core/services/matcher.py:143-153 | The reference comes from the nearest earlier node with a titled output |
| `Executor.AssembleInputs` | src/app/core/services/matcher.py:136-141 | A handle has an input if and only if some edge ends there, and the last such edge brings the output that stands under its source handle, or nothing |
| `Executor.RunNode` | src/app/core/services/matcher.py:129-159 | With or without a reference input, a node computes the same output |
| `Executor.Advance` | src/app/core/services/matcher.py:128-180 | Running one node adds its output and its emission |
| `Executor.ExecuteCanvas` | src/app/core/services/matcher.py:69-185 | The matches are the first emissions with their keys, in execution order, under outputs that solve the dataflow equations |
| `Engine.MatchesIffSolvable` | src/app/core/services/matcher.py:191-197 | A rule yields matches if and only if its equations have a solution |
| `Engine.SolutionUnique` | src/app/core/services/matcher.py:128-159 | The equations of an accepted rule have at most one solution |
| `Engine.KeysOfSolution` | src/app/core/services/matcher.py:115-180 | The keys of a rule's results can be read off the solution alone, without an order |
| `Engine.AnyOrderWillDo` | src/app/core/services/matcher.py:91-159 | Running an accepted rule in any other topological order fails in the same cases and yields the same keys |
| `Engine.RunAccepted` | src/app/core/services/matcher.py:191-197 | Drawing and executing an accepted rule yields the matches of its solution |
| `Engine.TagAllTags` | src/app/core/services/matcher.py:223-226 | Every match carries its rule's id, name and priority under their own names, and otherwise its own fields |
| `Engine.RunRule` | src/app/core/services/matcher.py:219-229 | A rule that is rejected, or whose equations have no solution, contributes nothing; any other contributes what its solution emits, tagged |
| `Engine.Run` | src/app/core/services/matcher.py:210-230 | The contributions of the rules stand one after the other, in rule order, and nothing else |
| `Engine.FirstMatch` | src/app/core/services/matcher.py:218-230 | The first match comes from the first rule that yields any |
| `DispatchStore.CounterRoundTrip` | src/app/services/scheduler.py:69 | The counter text reads back as the same token and number, whatever the token contains |
| `DispatchStore.Valkey.TryAcquire` | src/app/services/scheduler.py:84-120 | Only a taken lock refuses; otherwise the token is handed out, with whatever an outage let through stored |
| `DispatchStore.Valkey.ReleaseScript` | src/app/services/scheduler.py:50-57 | Both keys go if and only if the lock holds the token |
| `DispatchStore.Valkey.ChildFinishedScript` | src/app/services/scheduler.py:64-81 | The counter counts down for its own token only, and the last child deletes both keys |
| `DispatchStore.Valkey.OnPostrun` | src/app/worker/tasks.py:309-336 | Without a token, and on a retry, neither key is touched; a child counts down; a parent that spawned nothing releases; any other parent touches nothing |
| `DispatchStore.PostrunIsolatedIff` | src/app/services/scheduler.py:50-81 | The end of a task touches keys of other runs in exactly two cases: a last child that owns the counter under a foreign lock, and a release by the owner of the lock beside a foreign counter |
| `DispatchLock.StepInv` | src/app/worker/tasks.py:210-336 | Every step without expiry keeps lock, counter and run phases consistent |
| `DispatchSafety.LiveRunHoldsLock` | src/app/services/scheduler.py:84-120 | A live run whose token was stored holds the lock |
| `DispatchSafety.CounterCountsOutstanding` | src/app/services/scheduler.py:64-81 | The counter of the lock's owner is the number of its unfinished children, as long as every end was recorded |
| `DispatchSafety.Safety` | src/app/services/scheduler.py:50-120 | Over every orderly run: the counter's token is the lock's, at most one stored run is live, and the counter counts its unfinished children |
| `DispatchSafety.FreeIffRecordedOrReleased` | src/app/worker/tasks.py:309-336 | In orderly runs a stored run no longer holds the lock if and only if its parent released it or all its children are recorded as finished |
| `DispatchSafety.OnlyOwnEndsFree` | src/app/worker/tasks.py:309-336 | Only the end of a run's own parent or child frees its lock |
| `DispatchSafety.FreedByTheLast` | src/app/worker/tasks.py:309-336 | The step that frees the lock is the end of the last child, or of a parent without children, and never comes earlier |
| `DispatchSafety.FreesIff` | src/app/worker/tasks.py:309-336 | In orderly runs the end of a task frees the lock if and only if it is recorded, and it is a child completing the count or a parent that has not started to spawn |
| `DispatchSafety.LeftBehindIff` | src/app/worker/tasks.py:210-336 | In orderly runs a run that is through leaves its lock behind if and only if its parent released nothing and fewer children were recorded than counted |
| `DispatchSafety.ChildlessParentLeavesLock` | src/app/worker/tasks.py:210-336 | An orderly history without outage in which a parent without children keeps the lock after its end |
| `DispatchSafety.LiveWhenFreed` | src/app/worker/tasks.py:210-225 | The child that frees the lock leaves its run live if and only if the parent will spawn again or more children were spawned than counted |
| `DispatchSafety.StepKeepsLocksIff` | src/app/worker/tasks.py:210-336 | A step without expiry leaves a live stored run without the lock in exactly three ways |
| `DispatchSafety.LocksHeldIff` | src/app/worker/tasks.py:210-336 | Over every history without expiry live stored runs hold the lock at all times if and only if none of those steps occurs |
| `DispatchSafety.PartialSpawnBreaksExclusion` | src/app/worker/tasks.py:210-225 | A history in which a retry after a partial spawn lets two stored runs be live at once |
| `DispatchSafety.WaitingParentBreaksExclusion` | src/app/worker/tasks.py:210-225 | A history in which two stored runs are live while no child too many was spawned |
| `DispatchSafety.ReleasingParentBreaksExclusion` | src/app/worker/tasks.py:269-336 | A history in which a retried parent gives the lock back under a running child |
| `DispatchSafety.LateRetryBreaksExclusion` | src/app/worker/tasks.py:210-306 | A history in which a parent is retried after its children have freed the lock |
| `DispatchSafety.Isolation` | src/app/services/scheduler.py:50-81 | With expiry at any time and acquisition as one step, no end or retry of a run changes keys held by another run, and a superseded or never-stored run changes nothing |
| `DispatchSafety.TokenlessChangesNothing` | src/app/worker/tasks.py:326-330 | After any history, expiry included, the end of a task that carries no token changes nothing |
| `DispatchSafety.TwoStepAcquireBreaksIsolation` | src/app/services/scheduler.py:102-114 | A history in which the old lock has expired and the last child of the old run takes away the lock of a dispatch caught between its two writes |
| `DispatchSafety.FailedCounterBreaksIsolation` | src/app/services/scheduler.py:50-57 | A history in which a dispatch whose second write failed deletes another run's counter |
| `Similarity.TitleScoreLaws` | src/app/core/matching/legacy.py:76-105 | The title score is symmetric and lies in [0, 1] |
| `Similarity.TitleScoreIsOne` | src/app/core/matching/legacy.py:76-105 | Exactly which pairs of titles score 1 |
| `Similarity.TitleScoreIsZero` | src/app/core/matching/legacy.py:76-105 | Exactly which pairs of titles score 0 |
| `Similarity.TitleScoreLevels` | src/app/core/matching/legacy.py:88-105 | A title inside the other scores 0.9; otherwise the share of common tokens is a lower bound, and exact unless one token set contains the other |
| `Similarity.TitleScoreBoost` | src/app/core/matching/legacy.py:102-103 | When one token set contains the other, the share of common tokens is raised by the stated formula |
| `Similarity.ArtistScoreLaws` | src/app/core/matching/legacy.py:108-145 | The artist score is symmetric and lies in [0, 1] |
| `Similarity.ArtistScoreIsOne` | src/app/core/matching/legacy.py:108-145 | Exactly which pairs of artists score 1 |
| `Similarity.ArtistScoreIsZero` | src/app/core/matching/legacy.py:108-145 | Exactly which pairs of artists score 0 |
| `Similarity.ArtistScoreLevels` | src/app/core/matching/legacy.py:117-145 | Where the artist score is 0.5 and 0.3, and that otherwise it is the shared tokens over the larger set |
| `Similarity.AlbumScoreLaws` | src/app/core/matching/strategies.py:119-134 | All three album comparisons are symmetric and lie in [0, 1] |
| `Similarity.AlbumScoreLevels` | src/app/core/matching/strategies.py:119-134 | Exactly which albums score 1, 0.9 and 0 under each comparison |
| `Similarity.JaccardLaws` | src/app/core/matching/legacy.py:98-100 | Token overlap is 1 exactly for equal non-empty sets and 0 exactly for disjoint ones |
| `Similarity.TokensAre` | src/app/core/matching/legacy.py:95-97 | The tokens of a text are its words without punctuation, never empty |
| `Selection.ChosenIffGoodEnough` | src/app/core/matching/legacy.py:175-202 | A candidate is chosen if and only if some score is positive and at least the threshold |
| `Selection.BestWins` | src/app/core/matching/legacy.py:175-202 | The chosen candidate is the earliest of maximal score |
| `Selection.WinnerAlone` | src/app/core/matching/strategies.py:143-158 | A winner wins again when it stands alone |
| `Candidates.ThroughDict` | src/app/core/matching/candidate.py:27-63 | A candidate passed through a dictionary keeps its matching fields and is lost only without an item id |
| `Candidates.ItemIdFirst` | src/app/core/matching/candidate.py:41-43 | The item id is read under item_id, and under id only when that is missing or empty |
| `StrategyRunner.BestMatch` | src/app/core/matching/legacy.py:148-202 | The loop returns the earliest titled candidate that maximises title weight times title score plus artist weight times artist score (the title score alone when no artist is asked for), if that is positive and reaches the threshold |
| `StrategyRunner.ScoreFollowsWeights` | src/app/core/matching/legacy.py:183-189 | All the weight on titles gives the title score, all of it on artists the artist score, and shares of 1 a score between the two |
| `StrategyRunner.TitlesAloneDecide` | src/app/core/matching/legacy.py:183-195 | With all the weight on titles the artist asked for plays no part in the choice |
| `StrategyRunner.MatchMbid` | src/app/core/matching/strategies.py:49-61 | The scan returns the first candidate whose recording, artist or album identifier, as the strategy says, is the track's own non-empty one |
| `StrategyRunner.MatchFuzzy` | src/app/core/matching/strategies.py:76-94 | Fuzzy matching is the best combined score for the track's own title and artist, passed through a dictionary |
| `StrategyRunner.MatchAlbum` | src/app/core/matching/strategies.py:107-158 | Album matching is the earliest best album score under the chosen comparison, among candidates with an album |
| `StrategyRunner.RunComposite` | src/app/core/matching/strategies.py:172-212 | Composite matching, nested to any depth: in OR the first part that picks anything decides, and the two AND modes go as stated below |
| `StrategyRunner.RunSequence` | src/app/core/matching/strategies.py:199-206 | The first part chooses from all candidates, every later one from the pick before it alone, and the first part that picks nothing ends the chain |
| `StrategyRunner.RunIntersection` | src/app/core/matching/strategies.py:179-197 | The first candidate that has the item id of every part's pick; nothing when some part picks nothing; an error without parts |
| `StrategyChain.RawIgnored` | src/app/core/matching/strategies.py:49-212 | No strategy depends on raw data |
| `StrategyChain.PickHeld` | src/app/core/matching/strategies.py:49-212 | Every pick is one of the candidates given |
| `StrategyChain.NeverFails` | src/app/core/matching/strategies.py:188-190 | Only an intersection of no strategies fails |
| `StrategyChain.Repick` | src/app/core/matching/strategies.py:49-212 | A strategy that picks x from candidates whose twins agree picks x again from x alone |
| `StrategyChain.IntersectionImpliesSequential` | src/app/core/matching/strategies.py:178-206 | What intersection returns sequential AND returns, for candidates that differ only in raw data when they share an id |
| `StrategyChain.SequentialImpliesAny` | src/app/core/matching/strategies.py:199-212 | What sequential AND returns OR returns, for a non-empty list of strategies |
| `StrategyChain.WithoutStrategies` | src/app/core/matching/strategies.py:178-212 | What the three modes do with no strategies |
| `StrategyChain.SharedIdBreaksChain` | src/app/core/matching/strategies.py:178-206 | Candidates that differ under one id, for which intersection returns a match and sequential AND none |
| `Trigger.SyncTable.TriggerSync` | src/app/api/syncs/trigger.py:123-295 | One request alone: which answer it gets, which one row takes the key and with which fields, and that a refused and cleaned-up request leaves the table as it was |
| `TriggerProtocol.TableInvStep` | src/app/models.py:122-135 | Every step keeps at most one row per key, one owner per row, and the memory of committed rows |
| `TriggerProtocol.TasksQueuedStep` | src/app/api/syncs/trigger.py:274-295 | As long as its acknowledgements arrive, each queued task of a key belongs to one request that was told so |
| `TriggerSafety.OneRowPerKey` | src/app/models.py:122-135 | Over every interleaving at most one row carries a key |
| `TriggerSafety.OneTaskPerKey` | src/app/api/syncs/trigger.py:217-295 | Over every interleaving a key whose acknowledgements arrive gets at most one task, and its row exists |
| `TriggerSafety.OneQueuedRequestPerKey` | src/app/api/syncs/trigger.py:217-295 | Whatever is lost, at most one request per key is ever told that its sync was queued, and its row exists |
| `TriggerSafety.LostAcknowledgementRunsTwice` | src/app/api/syncs/trigger.py:275-295 | From any reachable state, one lost acknowledgement lets a key be queued twice |
| `TriggerSafety.ExistingWasCommitted` | src/app/api/syncs/trigger.py:152-181 | Every "already exists" answer names a row that was committed with the request's key |
| `TriggerProtocol.CommittedKeyIsNamed` | src/app/api/syncs/trigger.py:152-237 | A request whose key has a committed row is told that row by its first lookup, or by the second after the index has refused its insert, and changes nothing else |
| `TriggerSafety.ConflictAnswerNeedsDiscard` | src/app/api/syncs/trigger.py:226-237 | The 409 answer is given only if some request discarded its row |
| `TriggerSafety.SpentForever` | src/app/api/syncs/trigger.py:152-181 | A committed row nobody will enqueue or discard blocks its key for the rest of the run |
| `TriggerSafety.AbandonedNeverRan` | src/app/api/syncs/trigger.py:262-290 | A key whose row has lost its owner never ran, unless an acknowledgement for it was lost |
| `TriggerSafety.DropAbandons` | src/app/api/syncs/trigger.py:262-290 | A request that dies between commit and enqueue, or before its clean-up, leaves its row without an owner |
| `TriggerSafety.AbandonedIffDropped` | src/app/api/syncs/trigger.py:217-295 | A committed row is left without an owner if and only if some request died in one of those two places |
| `SourceTracks.SaveMirrors` | src/app/worker/phases.py:191-241 | After a save of at least one row the sync holds exactly the rows, one per position |
| `SourceTracks.SaveKeeps` | src/app/worker/phases.py:191-241 | A save keeps the ids of remaining positions, touches no other sync, and forgets exactly the given targets' matches and those of deleted tracks |
| `SourceTracks.SavingAgain` | src/app/worker/phases.py:191-241 | Saving the same playlist again changes nothing |
| `SourceTracks.LastSaveWins` | src/app/worker/phases.py:191-241 | Over any sequence of saves a sync mirrors its last non-empty playlist |
| `TrackStore.Database.SaveSourceTracks` | src/app/worker/phases.py:146-243 | The update, insert and delete loops compute the save of the specification |
| `TrackStore.Database.UpsertRows` | src/app/worker/phases.py:197-226 | Row by row, a stored position is rewritten under its id and a new one gets the next id |
| `TrackStore.Database.MatchPhase` | src/app/worker/phases.py:255-362 | For every item one track that carries it is tried, and the target gets exactly what was picked for those tracks; the count is that of the items so matched, at least all whose every track has something to pick and at most all of which some track has |
| `TrackStore.Database.FetchAndMatch` | src/app/worker/phases.py:73-284 | After fetch and match the target has matches only of this playlist, as picked: one for every track with something to pick whose item occurs once, and one for some track of every repeated item whose rows all have something; every row with an item id is counted once |
| `RunLifecycle.OneLiveRun` | src/app/worker/pipeline.py:141-178 | An execution has at most one run per target that is neither completed nor failed |
| `RunLifecycle.RecordedOnce` | src/app/worker/pipeline.py:180-215 | Each run's track batch is recorded once, when the run is created, equal to the playlist of that moment |
| `RunLifecycle.PlaylistIsLastSaved` | src/app/worker/pipeline.py:180-215 | The playlist recorded from is the last non-empty one saved for the sync |
| `RunLifecycle.OvertakenStays` | src/app/worker/phases.py:420-432 | A live run with a newer run beside it is never completed or failed except by its own execution's connection failure |
| `RunLifecycle.OverlapOvertakes` | src/app/worker/tasks.py:452-467 | An execution that starts while another of the same target is live overtakes it |
| `RunLifecycle.FinishMarksIffNewest` | src/app/worker/phases.py:420-432 | Finishing is sure to mark a run if and only if every other run of its target is older |
| `RunTable.Runs.EnsureSyncRun` | src/app/worker/pipeline.py:126-217 | Reuses the live run of the execution, or adds one with the playlist of the moment as its one batch, and says which |
| `RunTable.Runs.FindNewest` | src/app/worker/phases.py:422-428 | Finds a run of the target that no other was created after |
| `RunTable.Runs.FinalizeCounts` | src/app/worker/phases.py:420-432 | Completes the newest run of the target with its matched and failed counts, and touches no other run |
| `RunTable.Runs.FailNewestRun` | src/app/worker/tasks.py:452-467 | Fails the newest run of the target, and touches no other run |
| `RunTable.Runs.RecordFailedRun` | src/app/worker/tasks.py:52-84 | Fails the execution's live run, or adds a failed one; no live run remains, and no other run is touched |
| `Aggregates.LatestByTarget` | src/app/worker/phases.py:504-509 | Finds, per target, the run latest by creation time and then id |
| `Aggregates.UpdateStats` | src/app/worker/phases.py:504-512 | Matched and failed totals are the sums, over the targets, of the matched and the failed counts of each target's latest run |
| `Aggregates.LatestIgnoresOrder` | src/app/worker/phases.py:504-509 | The latest runs do not depend on the order of the runs |
| `Aggregates.TotalsIgnoreOrder` | src/app/worker/phases.py:504-512 | Every permutation of the runs gives the same totals |
| `Aggregates.NewestRunPerTarget` | src/app/api/syncs/helpers.py:158-170 | Keeps the run of greatest id per target, in list order |
| `Aggregates.SelectExecution` | src/app/api/syncs/helpers.py:173-187 | Nothing for an unknown id, the run alone without an execution id, otherwise exactly the final attempts of its execution, in list order |
| `Aggregates.ShownForExecution` | src/app/api/syncs/helpers.py:173-187 | A run is shown if and only if it belongs to the execution and no run of the same target in it has a greater id |
| `Aggregates.ShownOncePerTarget` | src/app/api/syncs/helpers.py:158-187 | Every target of the execution is shown exactly once, in list order |
| `RunDiff.GetSyncDiff` | src/app/api/syncs/history.py:203-227 | The two loops compute the difference of the specification |
| `RunDiff.ReportedOnce` | src/app/api/syncs/history.py:206-227 | Each key of either run is reported exactly once, under the heading its presence and matching call for |
| `RunDiff.ReportedTrack` | src/app/api/syncs/history.py:210-227 | A reported track is the later run's if it has the key, otherwise the earlier run's |
| `RunDiff.ReportedInOrder` | src/app/api/syncs/history.py:206-227 | Each heading lists the later run's keys in that run's order, and after them, among the removed, the keys that only the earlier run has, in its order |
| `RunDiff.LastTrackCounts` | src/app/api/syncs/history.py:203-204 | Of several tracks with one key the last counts |
| `RunDiff.SwapSwaps` | src/app/api/syncs/history.py:210-227 | Swapping the runs swaps added and removed keys and keeps the unchanged ones |
| `RunDiff.SelfDiff` | src/app/api/syncs/history.py:210-227 | A run compared with itself adds and removes nothing |

## Left out

- YAML text, its parser and the coercions of the schema library: a rule is read as a value. The duplicate node
  ids the YAML loader rejects are a load error here.
- Edge ids of the form `e_<from>_<to>` can collide; nothing is claimed about them.
- Canvases that carry `data` sub-objects or alternate edge keys: only the shape the program itself produces.
- Trace mode and breakpoint logging of the executor; the aliasing of one match dictionary by several results,
  so that tagging one tags the other; Python's recursion limit.
- `Executor.FindReference`: which of several titled outputs of one node is taken is left open, because the
  match handlers never read it.
- `TrackStore.Database.MatchPhase`: which of several tracks with the same source item is tried is left open, as
  in the query, so for repeated items the count is claimed between two bounds; it is exact when no item repeats.
- `DispatchSafety.Safety`: claimed without key expiry and without a parent retry after a partial spawn;
  `DispatchSafety.LocksHeldIff` has the exact condition when parents are retried anywhere.
- `Trigger.SyncTable.TriggerSync`: the checks of source, playlist address and target that come before the table is
  touched are not modelled; `KeyTaken` is the general server error the request ends with.
- `RunTable.Runs.FindNewest`: among several newest runs with one creation time any may be returned.
- Dead workers and redelivered tasks: they are left to the expiry of the keys. Of tasks without a dispatch token
  only their ends are modelled.
- Scheduled triggering under concurrency: it reads and then writes without a constraint, so only a single
  request is modelled (`Trigger.SyncTable.TriggerSync`).
- Deletion of syncs and of runs by users, and the records for syncs that are missing when a worker starts.
- The music platforms, media servers, search nodes and the text normaliser's character tables.
- Building strategies from node configuration: nodes build flat lists only, and return nothing for an empty one.
- Authentication, sessions, settings, encryption, live notifications, rule editing, retry delays and the web
  front end.
- Duplicates of the modelled logic in `src/app/api/syncs.py` and `sync_repository.py`.
