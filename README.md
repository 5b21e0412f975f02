# Topological task sort — a verified Dafny model

sort.py reads pairs of tasks `(A, B)`, each meaning "A must be done before B",
and prints every task in an order that respects all the pairs. It does this in
two steps:

- `create_graph` builds an insertion-ordered dictionary. For every task it
  holds a dependency count (the number of pairs leading into the task) and
  the list of its dependents (one entry per pair leading out of it).
- `sort_tasks` sweeps the dictionary repeatedly:
  - Each sweep emits, in key order, the tasks whose count is 0.
  - An emitted task has its count set to `None` (retired), so later sweeps
    skip it.
  - The emitted tasks' dependents are collected in a list, and after the
    sweep each listed task has its count lowered once per listing.
  - The sweeps stop when no task with a positive count remains.
  - `Catch22` is raised when such tasks remain but the sweep collected no
    dependents.

The model has four modules:

- `Seqs` (seqs.dfy): duplicate-free sequences, first occurrences, and
  order-preserving deduplication, which is the order a Python dict keeps its
  keys in.
- `TaskGraph` (graph.dfy): `create_graph`. The dictionary is a `Graph`: a
  sequence of keys in insertion order next to a `map` from task to `Node`.
  The count is an `Option<nat>`, where `None` is a retired task. `CreateGraph`
  is a method with the source's loop, proved against pure descriptions:
  - `Keys`: the tasks by first appearance;
  - `InDegree`: the number of pairs leading into a task;
  - `Dependents`: the dependents of a task, in input order.
- `TopoSort` (sort.dfy): `sort_tasks`.
  - `Sweep` is the inner `for` loop over the keys.
  - `Lower` is the loop over `tasks_to_process`.
  - `Pass` is one iteration of the `while` loop.
  - `SweepAll` is the `while` loop itself.
  - `SortTasks` builds the graph and runs the sweeps. It returns
    `Sorted(order)` or `Catch22`.
  - The meaning of the sweeps is given by an independent reference:
    - `ReadyBy(pairs, k, t)`: `k > 0` and every predecessor of `t` is ready
      within `k - 1` sweeps.
    - `Batch`: the tasks first ready in sweep `k`, in key order.
    - `Schedule`: the batches of as many sweeps as there are tasks, one
      after another.
  - The state the sweeps maintain is `RoundState`. After `k` sweeps:
    - exactly the tasks ready within `k` sweeps are retired;
    - every other task's count is the number of pairs leading into it from
      tasks not yet retired.
  - `Cyclic(pairs)` says that some nonempty set of tasks has every member
    preceded by a member. `CyclicIffNoOrder` proves that an order respecting
    the pairs exists exactly when they are not cyclic.
- `Scenarios` (scenarios.dfy): worked inputs over arbitrary distinct tasks:
  - a chain;
  - a diamond;
  - a repeated pair;
  - no pairs;
  - a two-task cycle;
  - a self-loop.

The main results:

- `SortTasks` returns `Catch22` exactly when the pairs are cyclic.
- Otherwise it returns `Schedule(pairs)`.
- `ScheduleCorrect`: `Schedule(pairs)` is a topological order (every task
  once, every predecessor before its dependents) exactly when the pairs are
  not cyclic.

### Repeated pairs and self-loops

- **Repeated pairs are not a cycle.** For `[("a","b"), ("a","b")]`:
  - `a` gets the dependents `[b, b]` (sort.py:38), and `b` gets the count 2
    (sort.py:42);
  - the first sweep emits `a` and collects `b` twice (sort.py:78);
  - lowering once per listing takes `b`'s count to 0 (sort.py:83-84), and the
    next sweep emits `b`.

  The result is `a b`, as `Scenarios.RepeatedSchedule` and
  `Scenarios.SortRepeated` prove.
- **A self-loop is a cycle.** `("x","x")` gives `x` the count 1 and `x` as
  its own dependent. No sweep finds a count of 0, nothing is collected, and
  the sort ends in `Catch22` (sort.py:81-82; `Scenarios.SortSelfLoop`).

## Model

| member | source | states |
|---|---|---|
| Seqs.Dedup | sort.py:33-43 | the deduplicated sequence has no repeats and holds exactly the elements of its input |
| Seqs.DedupInFirstOccurrenceOrder | sort.py:33-43 | the deduplicated elements appear in the order of their first occurrence in the input |
| TaskGraph.Tokens | sort.py:34-40 | the tokens the loop reads, two per pair, predecessor first |
| TaskGraph.TokensAt | sort.py:35-40 | pair i contributes its predecessor, then its dependent, at positions 2i and 2i+1 |
| TaskGraph.Keys | sort.py:33-42 | the dictionary's keys in insertion order: each pair adds its predecessor, then its dependent, when not already a key |
| TaskGraph.KeysDedup | sort.py:33-43 | the dictionary's keys are the tokens deduplicated in order of first insertion |
| TaskGraph.KeysNoDup | sort.py:33-43 | no task is a key twice |
| TaskGraph.KeysMentions | sort.py:35-40 | a task is a key if and only if some pair mentions it, on either side |
| TaskGraph.PairInKeys | sort.py:35-40 | both tasks of every pair become keys |
| TaskGraph.InDegree | sort.py:40-42 | the count of a task never exceeds the number of pairs |
| TaskGraph.InDegreeZero | sort.py:39-42 | a task's count is 0 if and only if no pair has it as the dependent |
| TaskGraph.PredsIn | sort.py:42 | the pairs into t from a set are at most all the pairs into t |
| TaskGraph.PredsInAll | sort.py:42 | all pairs into t come from s if and only if every predecessor of t lies in s |
| TaskGraph.MissingPredecessor | sort.py:42 | a count not yet exhausted by s names a pair into t whose predecessor lies outside s |
| TaskGraph.PredsInEmpty | sort.py:42 | no pair comes from the empty set |
| TaskGraph.PredsInUnion | sort.py:42 | pairs from two disjoint sets add up |
| TaskGraph.PredsInSingleton | sort.py:42 | the pairs into t from {r} are the copies of the pair (r, t) |
| TaskGraph.Dependents | sort.py:36-38 | a task has no more dependents than there are pairs |
| TaskGraph.DependentsCount | sort.py:36-38 | x is listed among t's dependents once per copy of the pair (t, x) |
| TaskGraph.DependentsMembers | sort.py:36-38 | x is listed among t's dependents if and only if (t, x) is a pair |
| TaskGraph.PredecessorOf | sort.py:36-42 | every pair's predecessor is listed among its dependent's predecessors |
| TaskGraph.PredecessorPair | sort.py:36-42 | every listed predecessor comes from a pair into the task |
| TaskGraph.KeysStep | sort.py:35-40 | one more pair inserts its predecessor, then its dependent, each when new |
| TaskGraph.NodeStep | sort.py:35-42 | one more pair adds 1 to its dependent's count and appends its dependent to its predecessor's list |
| TaskGraph.NodesStep | sort.py:34-42 | a dictionary agreeing with the first i pairs, updated by pair i, agrees with the first i+1 pairs |
| TaskGraph.PredecessorUpdate | sort.py:35-38 | the predecessor branch appends the dependent to the predecessor's list and changes no count |
| TaskGraph.DependentUpdate | sort.py:39-42 | the dependent branch adds 1 to the dependent's count and changes no list |
| TaskGraph.CreateGraph | sort.py:17-43 | the keys are the tasks by first appearance; each task's node holds the count of pairs into it and its dependents in input order |
| TopoSort.Batch | sort.py:71-77 | a sweep emits only keys |
| TopoSort.Collect | sort.py:78 | the list tasks_to_process: the dependent lists of the emitted tasks, concatenated in emission order |
| TopoSort.ReadyByMonotone | sort.py:73-77 | a task emitted within a sweeps is emitted within any later number of sweeps |
| TopoSort.ReadyStep | sort.py:75-84 | a task is ready in the next sweep exactly when all pairs into it come from retired tasks |
| TopoSort.EntangledNeverReady | sort.py:63-64 | a task in a set where every member has a predecessor in the set is never emitted |
| TopoSort.BatchMembers | sort.py:75-77 | a sweep emits exactly the keys that become ready in it |
| TopoSort.BatchInKeyOrder | sort.py:71-76 | within a sweep, tasks are emitted in the dictionary's key order |
| TopoSort.BatchNoDup | sort.py:76-77 | a sweep emits no task twice |
| TopoSort.BatchEmpty | sort.py:73-74 | once every key is retired, a sweep emits nothing |
| TopoSort.RoundsMembers | sort.py:68-84 | the first n sweeps emit exactly the keys ready within n sweeps |
| TopoSort.RoundsBatchDisjoint | sort.py:73-77 | a sweep never emits a task emitted earlier |
| TopoSort.RoundsNoDup | sort.py:76-77 | no task is ever emitted twice |
| TopoSort.RoundsRespect | sort.py:48-49 | the predecessor of every pair is emitted before its dependent |
| TopoSort.RoundsStable | sort.py:73-74 | once every key is retired, further sweeps add nothing |
| TopoSort.StuckIsCyclic | sort.py:81-82 | a sweep that retires nothing new while tasks remain means the pairs are cyclic |
| TopoSort.StuckSetEntangled | sort.py:81-82 | the tasks left in that case form a set in which every member has a predecessor |
| TopoSort.ReadySetMonotone | sort.py:73-77 | retired tasks stay retired |
| TopoSort.ReadySetGrows | sort.py:68-84 | for acyclic pairs, each sweep retires at least one more task until all are retired |
| TopoSort.AcyclicSettles | sort.py:68-84 | for acyclic pairs, every task is emitted within as many sweeps as there are tasks |
| TopoSort.NoEntangledPrefix | sort.py:63-64 | a topological order cannot contain a task of a set in which every member has a predecessor |
| TopoSort.TopologicalOrderExcludesCycle | sort.py:63-64 | pairs that admit a topological order are not cyclic |
| TopoSort.ScheduleCorrect | sort.py:48-64 | the reference order is a topological order exactly when the pairs are not cyclic |
| TopoSort.CyclicIffNoOrder | sort.py:48-64 | an order listing every task once with each predecessor before its dependent exists if and only if the pairs are not cyclic |
| TopoSort.PairPrecedence | sort.py:75-84 | a pair's dependent is ready within k + 1 sweeps only if its predecessor is ready within k, so it is emitted in a strictly later sweep |
| TopoSort.CycleIsCyclic | sort.py:63-64 | a closed walk along the pairs makes them cyclic |
| TopoSort.ElementsSnoc | sort.py:78 | the tasks of a sequence are those of its front and its last element, which the front lacks when nothing repeats |
| TopoSort.CollectCount | sort.py:78-84 | a task is lowered once per pair into it from the tasks emitted in the sweep |
| TopoSort.CollectMembers | sort.py:78 | a task is collected if and only if some pair leads into it from an emitted task |
| TopoSort.CollectedFrom | sort.py:78 | the dependent of a pair whose predecessor is emitted is collected |
| TopoSort.RoundState | sort.py:68-84 | after k sweeps: keys and dependents as built, a task retired exactly when it is ready within k sweeps, every other count equal to the pairs into the task from unretired tasks |
| TopoSort.Blocked | sort.py:79-80 | a node that is not retired and has a positive count |
| TopoSort.InitialRoundState | sort.py:66-67 | the freshly built graph is the state before any sweep |
| TopoSort.SweepDecision | sort.py:73-80 | a key is skipped, emitted, or marks tasks as remaining exactly when it is ready before, ready in, or not ready in this sweep |
| TopoSort.BlockedPredecessor | sort.py:79-82 | a remaining task that is not collected has a predecessor that also remains |
| TopoSort.BlockedUnlessEmitted | sort.py:75-80 | an unretired key remains exactly when this sweep does not emit it |
| TopoSort.BlockedIsCyclic | sort.py:81-82 | when nothing is collected but tasks remain, the pairs are cyclic |
| TopoSort.RetiredAfterSweep | sort.py:77 | a task is retired after sweep k exactly when it was retired before or is emitted in it |
| TopoSort.RetiredAfterSweepSet | sort.py:77 | the retired set after a sweep is the one before plus the tasks emitted |
| TopoSort.CollectedUnretired | sort.py:78-84 | every collected task is a key that is still unretired after the sweep |
| TopoSort.SweptCount | sort.py:77-84 | a task that is still counted keeps its count equal to its pairs from unretired tasks, including the lowering still to come |
| TopoSort.SweptRetired | sort.py:73-77 | after the sweep, a task is retired exactly when it is ready within k+1 sweeps |
| TopoSort.AllReady | sort.py:68-84 | once every key is retired, the pairs are not cyclic and the output so far is the reference order |
| TopoSort.SweepReady | sort.py:75 | in the state after k sweeps, the keys with count 0 are exactly those emitted in sweep k |
| TopoSort.SweepMeaning | sort.py:71-78 | the tasks a sweep emits are that sweep's batch, and the list it gathers is their collected dependents |
| TopoSort.FilterBatch | sort.py:71-77 | the keys picked by a sweep are the batch of that sweep |
| TopoSort.Gather | sort.py:78 | the dependent lists stored in the dictionary for the emitted tasks, concatenated in emission order |
| TopoSort.GatherCollect | sort.py:78 | gathering the stored dependent lists gives the collected dependents |
| TopoSort.Swept | sort.py:73-77 | a node as the scan leaves it: a count of 0 becomes None, any other node is unchanged |
| TopoSort.SweptThrough | sort.py:71-77 | the dictionary after the scan has visited the keys ks in order, retiring each visited key whose count is 0 |
| TopoSort.SweptThroughAt | sort.py:71-77 | the sweep keeps every task and retires exactly the keys with count 0 |
| TopoSort.Sweep | sort.py:69-80 | emits the keys with count 0 in key order, gathers their dependents, retires them, and reports whether a positive count remains |
| TopoSort.LowerBy | sort.py:83-84 | a node whose count has been lowered d times: the count drops by d, a retired node and the dependents stay as they are |
| TopoSort.Decrement | sort.py:84 | one decrement of a positive count, leaving the dependents as they are |
| TopoSort.LowerStep | sort.py:83-84 | each decrement applies to a counted task with positive count |
| TopoSort.Lower | sort.py:83-84 | every task's count drops by the number of times it is listed; nothing else changes |
| TopoSort.LoweringAllowed | sort.py:83-84 | every listed task is counted and its count covers its listings, so no decrement meets None or goes below 0 |
| TopoSort.LoweredNode | sort.py:83-84 | after lowering, a task is retired exactly when ready within k+1 sweeps, and its count is its pairs from unretired tasks |
| TopoSort.AfterLowering | sort.py:69-84 | sweeping and lowering take the state after k sweeps to the state after k+1 |
| TopoSort.RoundStateIntro | sort.py:69-84 | the state after k sweeps, assembled from its parts |
| TopoSort.UnretiredShrinks | sort.py:68 | the unretired tasks never grow, and a sweep that emits something removes at least one of them, so their number drops |
| TopoSort.FinalSweep | sort.py:68-80 | a sweep that finds no positive count leaves every key ready |
| TopoSort.SweepOutcome | sort.py:69-84 | one sweep emits its batch, collects its dependents, raises Catch22 only on cyclic pairs, and shrinks the unretired tasks |
| TopoSort.Pass | sort.py:69-84 | one round emits batch k; it stops only on cyclic pairs; otherwise it reaches the state after k+1 sweeps |
| TopoSort.SweepAll | sort.py:67-84 | the rounds end in Catch22 exactly on cyclic pairs, and otherwise emit the reference order |
| TopoSort.SortTasks | sort.py:47-84 | Catch22 exactly when the pairs are cyclic; otherwise the reference order, which is a topological order |
| Scenarios.ThreeSweeps | sort.py:68-84 | if every key is ready within three sweeps, the output is the three batches in turn |
| Scenarios.ChainKeys | sort.py:33-43 | a -> b -> c gives the keys a, b, c |
| Scenarios.ChainReadiness | sort.py:68-84 | in a chain a is ready in sweep 1, b in sweep 2, c in sweep 3 |
| Scenarios.ChainBatches | sort.py:71-77 | the three sweeps of a chain emit a, then b, then c |
| Scenarios.ChainSettled | sort.py:68-84 | every task of a chain is ready within three sweeps |
| Scenarios.ChainSchedule | sort.py:47-84 | a chain is not cyclic and its reference order is a, b, c |
| Scenarios.SortChain | sort.py:47-84 | sorting a -> b, b -> c returns a, b, c |
| Scenarios.DiamondKeys | sort.py:33-43 | the diamond gives the keys a, b, c, d |
| Scenarios.DiamondPredecessors | sort.py:36-42 | in the diamond, b and c follow a and d follows b and c |
| Scenarios.DiamondReadiness | sort.py:68-84 | in the diamond a is ready in sweep 1, b and c in sweep 2, d in sweep 3 |
| Scenarios.DiamondBatches | sort.py:71-77 | the diamond's sweeps emit a, then b and c, then d |
| Scenarios.DiamondSettled | sort.py:68-84 | every task of the diamond is ready within three sweeps |
| Scenarios.DiamondSchedule | sort.py:47-84 | the diamond is not cyclic and its reference order is a, b, c, d |
| Scenarios.SortDiamond | sort.py:47-84 | sorting a -> b, a -> c, b -> d, c -> d returns a, b, c, d |
| Scenarios.RepeatedKeys | sort.py:33-43 | a repeated pair gives the keys a, b |
| Scenarios.RepeatedReadiness | sort.py:68-84 | with a repeated pair, a is ready in sweep 1 and b in sweep 2 |
| Scenarios.RepeatedSchedule | sort.py:47-84 | a repeated pair is not cyclic and its reference order is a, b |
| Scenarios.SortRepeated | sort.py:47-84 | sorting a -> b given twice returns a, b |
| Scenarios.SortEmpty | sort.py:47-84 | sorting no pairs returns an empty order |
| Scenarios.SortTwoCycle | sort.py:81-82 | sorting a -> b, b -> a ends in Catch22 |
| Scenarios.SortSelfLoop | sort.py:81-82 | sorting x -> x ends in Catch22 |

## Left out

- `parse_input` (sort.py:3-15) and the driver (sort.py:87-88): reading the
  pairs from standard input, dropping the first line, and printing the result
  are I/O. The model takes the pairs as its input.
- Lines with other than two tokens: `line.split()` can give a line of one
  token, which sort.py would reject when it indexes `task_pair[1]`, or of
  three or more, whose extra tokens it ignores. The model's `Pair` always has
  exactly two tasks.
- Task names are Python strings in the source. The model works over any type
  with equality.
- The `Catch22` exception class (sort.py:45) is the `Catch22` constructor of
  `Outcome`.
- `SortTasks`: `sort_tasks` is a generator. When it raises `Catch22` in sweep
  k (counting from 0), it has already yielded the tasks of the earlier sweeps
  and the failing sweep's own batch, since sort.py:76 yields before the check
  at sort.py:81-82. That prefix is `Rounds(pairs, Keys(pairs), k + 1)`, which
  is `SweepAll`'s local `order` at `return Catch22`. The model returns
  `Catch22` without it.
- Decrementing a `None` count (sort.py:84) would be a Python `TypeError`.
  `LoweringAllowed` proves this never happens, so the failure is not
  modelled.
- `Sweep` returns the new dictionary instead of updating the one being
  iterated. The source only changes the values of existing keys during
  iteration, so the key order is the same either way.
