# A verified model of libmodule

libmodule is a C library of actors. Modules receive events from a context's loop, talk to each other
through topics, and follow each other's state; underneath lie a hash map, a binary search tree, a
queue and a thread pool. This project models these parts in Dafny and proves what they keep.

`dafny verify dfyconfig.toml` checks everything.

## How the files follow the library

| files | part of the library |
|---|---|
| `Cyclic`, `Probing`, `BackwardShift`, `HashMap`, `MapIteration`, `MapRun` | `Lib/structs/map.c` |
| `BstOrder`, `BstShape`, `Bst`, `BstWalk` | `Lib/structs/bst.c` |
| `Queue` | `Lib/structs/queue.c` |
| `Counting`, `ThreadPool`, `ThreadPoolSafety`, `ThreadPoolCalls` | `Lib/thpool/thpool.c` |
| `Lifecycle`, `LifecycleCalls`, `Bind` | `Lib/core/mod.c`, and the loop condition of `Lib/core/ctx.c` |
| `Delivery` | `push_evt` of `Lib/core/ctx.c`, the token bucket of `Lib/core/mod.h` and `mod.c`, batching in `Lib/core/evts.c` |
| `Stash` | stashing in `Lib/core/evts.c` |
| `PubSub` | `Lib/core/ps.c` |
| `States`, `Options`, `Collections` | shared by the above |

The map, the tree and the queue are classes over an array or over linked nodes, updated in place by
methods with the source's loops, and each method is tied to a mathematical map, a sorted sequence or a
sequence. A map's table is also a value, a sequence of slots, about which the lemmas on probing and on
deletion speak. A tree carries its own shape as a value: every node knows the stretch of the in-order
sequence that its subtree covers, so that links, parents, order and length are all local facts.

The thread pool and the module lifecycle are state machines, because their difficulty is
interleaving: of threads in the one, and in the other of runtime calls with the hooks that they call and
that call the runtime again. A run is a sequence of steps, and the theorems are about all runs. `ThreadPoolCalls`
and `LifecycleCalls` say besides what each call comes to when nothing comes between its steps.

## What was found on the way

The model does what the code does, including where that is less than one would expect. Each of these is
stated exactly, with the condition under which the code does meet the expectation.

- **Removal from the hash map can lose another key.** `clear_elem` scans half a table and no more.
  `CrowdedRemovalLosesKey` is a table of the default size, one entry more than half full, in which
  removing key 0 makes key 128 unreachable; `RemovalLosesKey` builds it by 129 puts into a new map. `RemovalExactIff` gives the exact condition, which a caller
  can evaluate on the table before the removal: a free slot within half a table after the removed one,
  or else no entry that the cut-off scan leaves stranded and no entry that its last bit test misreads. A
  map that is at most half full always meets it (`HalfFullIsSafe`). `HashMap.Map.Remove` says what becomes
  of the map in either case.
- **Removing a tree node with two children destroys its successor's data** while that data stays in the
  tree, because the swap comes before the destructor call. `Bst.Tree.Remove` says of every removal what
  is destroyed, and `RemovalDestroysSuccessor` is a tree where it is not what was removed.
- **Removing a queue's last element through an iterator while others remain loses the tail**, and what is
  enqueued next is counted but not linked in (`Queue.Itr.Remove`, `Queue.Queue.Enqueue`; `LostTail` does
  it with two elements).
- **`m_mod_unstash` takes up one event less than it is asked for**, unless less is stashed than asked for
  (`Stash.Stasher.Unstash`).
- **The counter of running modules drifts** when `on_eval` starts its own module and then agrees that
  it be started, provided that the poll plugin takes the sources a second time (of whose results only the
  last counts), or when `on_stop` starts its module while that is being deregistered. The counter
  is off by exactly the number of such steps (`CounterRun`), and the loop then goes on with nothing
  running (`EvalHookStartsItself`, `StopHookStartsItself`: two runs from an empty context).
- **A persistent module can lose its name while the loop runs**: when another module of that name is already
  being deregistered, and its `on_stop`, after the persistent one has been registered, deregisters its own a
  second time, since a module is removed by its name (`PersistentLosesName`). `PersistentStep` shows that this
  is the only way, and without it a persistent module stays registered through every run (`PersistentStays`).
- **Pausing and resuming a module restores all states** only under a condition on the modules reached,
  which `RestoredIff` states: enough tokens, and no module bound to a reached one that was paused already.
  In `ResumesMore` one such module is left running.
- **An event of low priority can be delivered alone**, although `docs/concepts/mod.md` says never: any
  internal tick does it once the batch size is reached (`LowWaitsUnlessTick`, `TokenTickDeliversLow`).
- **A poison pill is never delivered**, although `docs/concepts/mod.md` offers it for stopping a module
  gently: it is sent under a topic and directly, and a message under a topic needs a subscription
  (`PubSub.Context.PoisonPill`).
- **A token bucket with burst 0 locks its module out, and so does one with burst 1 whose timer could not be
  registered.** These are all the cases: with any other burst an action can be accepted (`BurstDecides`).
- **An `add` that races with a wait-all shutdown can strand its task** (`LateAddIsStranded`). In a pool that
  is not lazy the tasks left when the joins have returned are exactly those that were queued when no
  worker was left (`OnlyStrandedIsLeft`); without late adds there are none (`WaitAllDrains`).

## Model

| member | source | states |
|---|---|---|
| `Cyclic.IndexLEMeaning` | Lib/structs/map.c:22-23 | the bit test on a difference that wraps around in `size_t` means: the second slot is cyclically at or before the first, at most half a table back |
| `Cyclic.LoadFactorStep` | Lib/structs/map.c:84-89 | `n + n/3` is below the table size if and only if one more entry keeps the load at or below 3/4 |
| `Probing.ProbeSound` | Lib/structs/map.c:63-82 | a probe ends with the key, with the first free slot on its path, or, when half the table is full, with nothing |
| `Probing.LookupAgrees` | Lib/structs/map.c:63-82 | on a well-formed table the probe answers for every key as the mathematical map does |
| `Probing.InsertKeeps` | Lib/structs/map.c:198-204 | writing where the probe found a free slot keeps all probe chains and adds exactly that key |
| `Probing.UpdateKeeps` | Lib/structs/map.c:188-204 | overwriting a value keeps all probe chains and changes exactly that key |
| `Probing.Pigeonhole` | Lib/structs/map.c:16-17 | fewer entries than slots in a cyclic window leave one of its slots free |
| `Probing.ProbeNotExhausted` | Lib/structs/map.c:134-147 | with fewer entries than the probe limit every key finds a slot, so that the copy into a doubled table never reverts |
| `BackwardShift.ClearedConserves` | Lib/structs/map.c:212-247 | whatever the table holds, deletion by backward shift only moves entries and takes away the one it was pointed at |
| `BackwardShift.ClearedContents` | Lib/structs/map.c:212-247 | without duplicate keys, the map that the table stands for loses that key and no other |
| `BackwardShift.RemovalExact` | Lib/structs/map.c:212-247 | a safe removal leaves every remaining key an unbroken probe chain within the probe limit |
| `BackwardShift.RemovalExactIff` | Lib/structs/map.c:212-247 | lookups answer correctly for all keys after a removal if and only if the removal is safe |
| `BackwardShift.RemovalLoses` | Lib/structs/map.c:228-244 | after an unsafe removal some other stored key is no longer found |
| `BackwardShift.WellFormedIffSafe` | Lib/structs/map.c:212-247 | the table is well-formed after a removal if and only if the removal is safe |
| `BackwardShift.HalfFullIsSafe` | Lib/structs/map.c:228-244 | every removal from a table that is at most half full is safe |
| `BackwardShift.CrowdedRemovalLosesKey` | Lib/structs/map.c:228-244 | a concrete table of 256 slots and 129 keys where removing key 0 loses key 128 |
| `HashMap.Map.constructor` | Lib/structs/map.c:254-270 | a new map is empty and has 256 slots |
| `HashMap.Map.EntryFind` | Lib/structs/map.c:63-82 | the probing loop finds what the probe specification says, with and without the wish for a free slot |
| `HashMap.Map.Rehash` | Lib/structs/map.c:123-156 | doubling keeps the mathematical map and fails only for want of memory, leaving the map as it was |
| `HashMap.Map.CopyAll` | Lib/structs/map.c:134-147 | the copy loop transfers every entry once |
| `HashMap.Map.CrowdedIsHalfFull` | Lib/structs/map.c:163-181 | a table that has to grow is at least half full |
| `HashMap.Map.CrowdedIff` | Lib/structs/map.c:163-181 | a table has to grow if and only if one more entry would take the load above 3/4, or the probe for the key runs out |
| `HashMap.Map.SlotFor` | Lib/structs/map.c:163-186 | at most one rehash yields the slot for the key; nothing else changes |
| `HashMap.Map.Put` | Lib/structs/map.c:158-205 | put fails exactly when the table has to grow and cannot be allocated, or on a forbidden update, and then changes nothing; else the mathematical map is updated, in place and in the slot that the probe gives unless the table has to grow, the replaced value is destroyed, and the load stays at or below 3/4 |
| `HashMap.Map.Get` | Lib/structs/map.c:355-365 | get answers as the probe does on any table, and on a valid map as the mathematical map |
| `HashMap.Map.Len` | Lib/structs/map.c:37-43 | `length` is the number of keys |
| `HashMap.Map.ClearElem` | Lib/structs/map.c:212-247 | the loop, which leaves a stale copy of each moved entry behind until later, computes the backward shift |
| `HashMap.Map.Remove` | Lib/structs/map.c:412-422 | a removal takes away one key and no other entry, and destroys its value once; every remaining key is still found if and only if the removal was safe; the error cases change nothing |
| `HashMap.KeysCounted` | Lib/structs/map.c:198-201 | there are as many keys as occupied slots |
| `MapRun.Run` | Lib/structs/map.c:343-422 | over any run from an empty map all answers are those of a mathematical map, which the resulting valid map stands for, up to the first unsafe removal, which needs a table more than half full and so more than 128 keys; a put lacks memory only when the allocation fails on a map of 128 keys or more, or on a map of 2^58 keys or more |
| `MapRun.SafeToRemove` | Lib/structs/map.c:228-244 | the condition for a safe removal can be decided before the call, and fails only on a map that is more than half full |
| `MapRun.CrowdedMap` | Lib/structs/map.c:158-205 | 129 puts into a new map give the crowded table |
| `MapRun.RemovalLosesKey` | Lib/structs/map.c:228-244 | in that map key 128 is found, key 0 is removed, and then key 128 is not found any more |
| `MapIteration.ShiftStaysAhead` | Lib/structs/map.c:230-246 | entries at or after a removed slot stay at or after it, so that an iterator standing there still meets them |
| `MapIteration.ShiftKeepsPrefixFree` | Lib/structs/map.c:230-246 | when nothing lies before the removed slot, nothing is moved there |
| `MapIteration.ClearedValues` | Lib/structs/map.c:212-247 | the multiset of stored values loses exactly the removed one |
| `MapIteration.MapItr.Next` | Lib/structs/map.c:283-310 | goes to the next occupied slot, from the current slot again after a removal |
| `MapIteration.MapItr.Remove` | Lib/structs/map.c:312-318 | clears the current slot by backward shift, once |
| `MapIteration.Clear` | Lib/structs/map.c:425-432 | from any table contents the map ends up empty and the destructor gets every stored value once |
| `MapIteration.Sweep` | Lib/structs/map.c:272-318 | iterating with removals visits every original entry and no other, removes exactly the entries picked, in the order of the visits, destroys exactly their values in that order, takes exactly their keys from the map, keeps a map valid that was at most half full, and without removals visits each entry once in slot order |
| `MapIteration.Iterate` | Lib/structs/map.c:379-407 | the callback form: it goes on exactly while the callback answers 0, removes exactly what the callback picks and destroys exactly its values, visits every original entry unless stopped, and never ends with -EACCES when only current entries are removed |
| `MapIteration.PickedIff` | Lib/structs/map.c:312-318 | what is removed are the entries for which the decision at one of their visits was to remove them |
| `BstOrder.SplitsAt` | Lib/structs/bst.c:132-150 | turning left or right at an element keeps the sought element's place within the rest |
| `BstOrder.EqualIsUnique` | Lib/structs/bst.c:193-203 | at most one stored element compares equal |
| `BstShape.LeafKeepsShape` | Lib/structs/bst.c:37-45 | hanging a leaf on an empty slot keeps links, parents, places and root consistent |
| `BstShape.UnlinkKeepsShape` | Lib/structs/bst.c:57-73 | linking around a node with at most one child keeps them consistent |
| `Bst.Tree.BstFind` | Lib/structs/bst.c:132-150 | the slot of the equal element, or the empty slot where the element belongs |
| `Bst.Tree.Find` | Lib/structs/bst.c:216-225 | finds a stored equal element if and only if there is one |
| `Bst.Tree.FindMin` | Lib/structs/bst.c:47-52 | the leftmost node below a slot is the first of its stretch |
| `Bst.Tree.BstNext` | Lib/structs/bst.c:153-180 | descending or climbing parents leads to the in-order successor, or to the end |
| `Bst.Tree.Hang` | Lib/structs/bst.c:37-45 | a leaf on an empty slot inserts its element at the slot's place |
| `Bst.Tree.Insert` | Lib/structs/bst.c:193-203 | inserts one element into the sorted sequence, or refuses an equal one and changes nothing |
| `Bst.Tree.Unlink` | Lib/structs/bst.c:55-73 | takes one node out of the sequence and destroys its data |
| `Bst.Tree.RemoveNode` | Lib/structs/bst.c:54-84 | the element in the slot goes, and no other; with two children the successor's node is freed and the destructor gets the data that stays |
| `Bst.Tree.Remove` | Lib/structs/bst.c:205-214 | takes away the equal element, which then has no equal left, or reports that there is none and changes nothing; says which data is destroyed |
| `Bst.RemovalDestroysSuccessor` | Lib/structs/bst.c:75-81 | in the tree with 2 above 1 and 3, removing 2 destroys 3, which stays in the tree |
| `Bst.Tree.CoveredSplit` | Lib/structs/bst.c:118-130 | a subtree covers its left subtree, its own element and its right subtree, in that order |
| `BstWalk.Itr.constructor` | Lib/structs/bst.c:253-262 | an iterator starts at the smallest element |
| `BstWalk.Itr.Next` | Lib/structs/bst.c:264-291 | goes on from the current element, from the predecessor of a removed one, from the new minimum, or ends |
| `BstWalk.Itr.Remove` | Lib/structs/bst.c:293-319 | removes exactly the current element, found again from its parent, and destroys the same data that `m_bst_remove` would |
| `BstWalk.KeptSorted` | Lib/structs/bst.c:293-319 | removals during iteration keep the order |
| `BstWalk.KeptIff` | Lib/structs/bst.c:293-319 | an element stays if and only if its removal was not asked for at its visit |
| `BstWalk.Sweep` | Lib/structs/bst.c:253-319 | iterating while removing any of the current elements visits every element once in order, leaves exactly those not removed, and calls the destructor once for each removal |
| `BstWalk.Clear` | Lib/structs/bst.c:328-336 | empties the tree and destroys every element once, in order |
| `BstWalk.WalkConcat` | Lib/structs/bst.c:90-130 | walking a concatenation is walking its parts, unless the first part stops |
| `BstWalk.WalkSeesPrefix` | Lib/structs/bst.c:90-130 | a traversal that the callback stops has seen exactly a prefix, up to that call |
| `BstWalk.TraverseInorder` | Lib/structs/bst.c:118-130 | the recursion walks the subtree's elements in order |
| `BstWalk.TraversePreorder` | Lib/structs/bst.c:90-102 | the recursion walks the pre-order |
| `BstWalk.TraversePostorder` | Lib/structs/bst.c:104-116 | the recursion walks the post-order |
| `BstWalk.OrdersArePermutations` | Lib/structs/bst.c:90-130 | the three orders hold the same elements |
| `BstWalk.OrderSplits` | Lib/structs/bst.c:90-130 | the orders of a subtree: its own element before, after or between those of its left and of its right subtree |
| `BstWalk.Traverse` | Lib/structs/bst.c:231-251 | for each of the three orders, the callback sees the elements in that order, all of them or up to the first that it does not answer with 0; pre-order starts with the root's data and post-order ends with it; a negative answer is returned, a positive one gives 0 |
| `Queue.Queue.Enqueue` | Lib/structs/queue.c:115-131 | appends an element; on a queue that lost its tail the element is counted but not linked in |
| `Queue.Queue.Dequeue` | Lib/structs/queue.c:133-146 | takes the first element |
| `Queue.Queue.Peek` | Lib/structs/queue.c:148-152 | shows the first element |
| `Queue.Queue.Clear` | Lib/structs/queue.c:165-172 | every element is destroyed, first to last |
| `Queue.Itr.Next` | Lib/structs/queue.c:45-59 | follows the next link, or the same one again after a removal |
| `Queue.Itr.Remove` | Lib/structs/queue.c:61-79 | removes exactly the current element; the queue stays well-formed if and only if it was not the last of several |
| `Queue.LostTail` | Lib/structs/queue.c:61-131 | of 1 and 2 the iterator removes 2, and a 3 that is enqueued then is counted but not in the queue |
| `ThreadPoolSafety.InvStep` | Lib/thpool/thpool.c:54-117 | every step of every thread keeps mutual exclusion, task conservation, the running count, attendance, size limits, shutdown order, the order of the queue, and the count of stranded tasks |
| `ThreadPoolSafety.TakeStep` | Lib/thpool/thpool.c:65-77 | a worker that dequeues finds a task there, and takes the first |
| `ThreadPoolSafety.InvInit` | Lib/thpool/thpool.c:144-192 | a new pool meets the invariant, and has no thread when it is lazy, or else all of them |
| `ThreadPoolSafety.InvRun` | Lib/thpool/thpool.c:54-269 | the invariant holds after every run of every interleaving |
| `ThreadPoolSafety.EachTaskHasOneFate` | Lib/thpool/thpool.c:54-269 | each accepted task is queued, held by one worker, completed once or cleared once, and only one of these; `running_tasks` is at most the number of workers, which is at most the maximum, and no task is queued without a worker |
| `ThreadPoolSafety.NoLostWakeup` | Lib/thpool/thpool.c:57-77 | before shutdown, with the lock free and tasks queued, some worker is not asleep, and if any sleeps, as many are on their way as tasks are queued |
| `ThreadPoolSafety.WaitCurrentStartsNothing` | Lib/thpool/thpool.c:69-77 | under wait-current no task is taken once shutdown is set |
| `ThreadPoolSafety.WaitAllDrains` | Lib/thpool/thpool.c:93-117 | when the joins of a wait-all shutdown have returned, and no add took the lock after shutdown was set, the queue is empty and every task was completed or cleared once |
| `ThreadPoolSafety.OnlyStrandedIsLeft` | Lib/thpool/thpool.c:93-117 | with or without late adds, what a wait-all shutdown of a pool that is not lazy leaves queued is as many tasks as were queued, since the last clear, when every worker had left; all others were completed or cleared once |
| `ThreadPoolSafety.LateAddIsStranded` | Lib/thpool/thpool.c:194-231 | a run from a new pool in which an add that locks late leaves its task queued when all joins have returned |
| `ThreadPoolSafety.StartsInOrder` | Lib/thpool/thpool.c:65-84 | tasks start in the order in which they were accepted |
| `ThreadPoolSafety.StepCounts` | Lib/thpool/thpool.c:54-117 | after the shutdown announcement every step of every thread lowers one finite budget |
| `ThreadPoolSafety.ShutdownIsBounded` | Lib/thpool/thpool.c:93-117 | so every run from there is at most that long |
| `ThreadPoolSafety.ShutdownGoesOn` | Lib/thpool/thpool.c:93-117 | and until the joins have returned some thread can go on without a spurious wakeup |
| `ThreadPoolSafety.ShutdownCompletes` | Lib/thpool/thpool.c:93-117 | from every state that meets the invariant the joins can be brought to return within the budget |
| `ThreadPoolSafety.ReachableWakes` | Lib/thpool/thpool.c:57-77 | no wakeup is lost in any run from a new pool |
| `ThreadPoolSafety.ReachableDrains` | Lib/thpool/thpool.c:93-117 | what a wait-all shutdown leaves behind, in any run from a new pool |
| `ThreadPoolSafety.ReachableShutsDown` | Lib/thpool/thpool.c:93-117 | in any run from a new pool, what follows the shutdown announcement is bounded, and can be completed |
| `ThreadPoolCalls.FreeDecides` | Lib/thpool/thpool.c:277-307 | in every run with a call of `m_thpool_free`, the shutdown, once announced, is the one that its argument asks for |
| `ThreadPoolCalls.FreeCurrentStartsNothing` | Lib/thpool/thpool.c:271-286 | in every run from a new pool, after a free that does not wait for all has announced itself, no worker takes a task |
| `ThreadPoolCalls.FreeAllDrains` | Lib/thpool/thpool.c:271-286 | in every run from a new pool, when the joins of a free that waits for all have returned and no add came late, nothing is left and every accepted task was completed or cleared |
| `ThreadPoolCalls.RunningCounts` | Lib/thpool/thpool.c:82-87 | in every run from a new pool `running_tasks` is the number of workers between its increment and its decrement |
| `ThreadPoolCalls.WorkerTurn` | Lib/thpool/thpool.c:54-87 | a worker that finds a task takes the first, completes it and is ready again; nothing else changes |
| `ThreadPoolCalls.WorkerSleeps` | Lib/thpool/thpool.c:57-67 | a worker that finds none sleeps and gives the lock back; a spurious wakeup has no effect |
| `ThreadPoolCalls.WorkerEnds` | Lib/thpool/thpool.c:69-91 | after shutdown a worker exits, at once or when the queue is empty |
| `ThreadPoolCalls.AddCall` | Lib/thpool/thpool.c:194-231 | an add queues its task last, wakes one sleeping worker if there is any, and starts a thread exactly when the pool is lazy, has fewer than it may and all that it has are running a task |
| `ThreadPoolCalls.ClearCall` | Lib/thpool/thpool.c:252-269 | a clear drops what is queued and changes nothing else |
| `ThreadPoolCalls.FreeCall` | Lib/thpool/thpool.c:93-117 | a free announces the shutdown asked for, wakes every worker and has all threads to join, in either order of broadcast and unlock |
| `Lifecycle.ValidStep` | Lib/core/mod.c:295-310 | a registered module is found under its own name and is neither a zombie nor being deregistered |
| `Lifecycle.CounterStep` | Lib/core/mod.c:212-336 | a step changes the difference between `running_modules` and the number of running modules by its drift only |
| `Lifecycle.CounterRun` | Lib/core/mod.c:168-336 | after any run that difference is the number of drifting steps |
| `Lifecycle.LoopCondition` | Lib/core/ctx.c:319-331 | the counter is exact if and only if nothing drifted; the loop goes on exactly while no quit was requested and a module is running or something drifted |
| `Lifecycle.ZombieForever` | Lib/core/mod.c:130-164 | a zombie stays a zombie, also through hooks of its own that are still in progress |
| `Lifecycle.RestrainedNeverDrifts` | Lib/core/mod.c:168-210 | when no on_eval hook, and no on_stop hook of a deregistration, starts its own module, nothing drifts |
| `Lifecycle.RestrainedLoop` | Lib/core/ctx.c:319-331 | the counter is then exact, and the loop goes on exactly while a module is running and no quit was requested |
| `Lifecycle.EvalHookStartsItself` | Lib/core/mod.c:200-208 | a run from an empty context in which the loop's evaluation counts a module twice, so that the loop goes on with nothing running |
| `Lifecycle.StopHookStartsItself` | Lib/core/mod.c:313-314 | a run from an empty context in which a zombie remains counted, so that the loop goes on with nothing running |
| `Lifecycle.Replacement` | Lib/core/mod.c:443-453 | registering over a replaceable module turns the old one into an uncounted zombie and puts the new one, idle, in its place |
| `LifecycleCalls.StartHookReturns` | Lib/core/mod.c:233-256 | when on_start answers false its module is stopped at once, whatever the hook has made of it, unless it was deregistered; when it answers true nothing more happens |
| `LifecycleCalls.StartHookDecides` | Lib/core/mod.c:212-256 | a start leaves the module running and counted when its hook answers true, and stopped with the counter as before when it answers false; a refusal by the poll plugin changes nothing |
| `LifecycleCalls.EvaluationDecides` | Lib/core/mod.c:200-208 | an evaluation starts an idle module if and only if on_eval answers true and the poll plugin takes it |
| `LifecycleCalls.PauseAndResume` | Lib/core/mod.c:656-672 | a resume undoes a pause; neither calls a hook, and a refusal changes nothing |
| `LifecycleCalls.StopCompletes` | Lib/core/mod.c:258-293 | a stopped module is not counted any more; nothing else changes |
| `LifecycleCalls.DeregistrationCompletes` | Lib/core/mod.c:295-335 | a deregistration frees the name and leaves an uncounted zombie, except for a persistent module while the context loops, and for a name that is gone, where nothing changes |
| `LifecycleCalls.DeregistrationEnds` | Lib/core/mod.c:313-314 | however on_stop has used the module that is deregistered, it ends as a zombie |
| `LifecycleCalls.Registration` | Lib/core/mod.c:443-453 | a free name gets an idle module; a taken one is refused if and only if its module may not be replaced, or is persistent while the context loops |
| `LifecycleCalls.StateChanges` | Lib/core/mod.c:168-336 | which step can change a module to which state, and from which: none back to idle, none from zombie, a pause from running only, and so on |
| `LifecycleCalls.NeverEvaluatedAgain` | Lib/core/mod.c:200-208 | in every run a module that is no longer idle is not evaluated |
| `LifecycleCalls.QuitEndsLoop` | Lib/core/ctx.c:439-444 | after a quit the loop does not go on, in any run until it is started again, and can be left |
| `LifecycleCalls.LoopStops` | Lib/core/ctx.c:319-331 | the loop is left if and only if a quit was requested or no module is counted |
| `LifecycleCalls.PersistentStep` | Lib/core/mod.c:295-310 | while the context loops a persistent module loses its name if and only if another one of that name, itself not persistent, is deregistered |
| `LifecycleCalls.PersistentStays` | Lib/core/mod.c:295-310 | in every run without that, until the loop ends, a persistent module stays registered and does not become a zombie |
| `LifecycleCalls.PersistentLosesName` | Lib/core/mod.c:308-310 | a run from an empty context in which that happens |
| `Bind.Pause` | Lib/core/mod.c:656-663 | exactly the modules reached over running ones are paused, each for one token; no other state changes; a module that only the poll plugin refuses loses one token for each call while it has any; the counter follows; the search ends on cyclic graphs |
| `Bind.PauseBound` | Lib/core/mod.c:639-645 | the loop over the bound modules spreads the call to all that can be reached |
| `Bind.Resume` | Lib/core/mod.c:665-672 | the same over paused modules |
| `Bind.ReachedBefore` | Lib/core/mod.c:639-645 | what is reached from a bound module while the search is part of the way is reached from its start |
| `Bind.PartialCall` | Lib/core/mod.c:639-645 | calling one more bound module extends the part that is done, without overlap |
| `Bind.PartialEnd` | Lib/core/mod.c:639-645 | when all bound modules have been called, all that can be reached has changed |
| `Bind.RestoredIff` | Lib/core/mod.c:656-672 | pausing and then resuming restores every state if and only if the pause was restorable |
| `Bind.PauseThenResume` | Lib/core/mod.c:656-672 | the two calls in a row, with the counter restored as well |
| `Bind.ResumesMore` | Lib/core/mod.c:656-672 | with a paused module bound to a running one, the two calls on the latter leave both running |
| `Delivery.Mailbox.PushEvt` | Lib/core/ctx.c:139-208 | what each kind of event does: high and batch-timer events deliver the queue, low ones only queue, others deliver it when the batch size is reached; a tick of the bucket's timer refills one token while there is room |
| `Delivery.Mailbox.ConsumeToken` | Lib/core/mod.h:22-25 | an action is refused exactly without a token, and costs one otherwise |
| `Delivery.Mailbox.ChangeBatchSize` | Lib/core/evts.c:92-98 | sets the batch size for one token |
| `Delivery.Mailbox.ChangeBatchTimeout` | Lib/core/evts.c:100-120 | sets the timeout for one token for an old timer and one for a new one, as far as there are any, and turns a batch size of 0 into 2^64 - 1 |
| `Delivery.Mailbox.ChangeTokenBucket` | Lib/core/mod.c:550-577 | refills the bucket, pays for the new timer from it, and sets the longest period that gives at least `rate` ticks a second; rate 0 disables; a rate above 10^9 is refused |
| `Delivery.Mailbox.Reset` | Lib/core/mod.c:109-128 | forgets queued events, batching and the bucket |
| `Delivery.DeliveryConserves` | Lib/core/ctx.c:139-208 | between resets, the received batches followed by the queue are the events that are not internal, in order of arrival |
| `Delivery.WhatStaysQueued` | Lib/core/ctx.c:176-207 | nothing stays queued after a high event or a batch tick; less than a batch after any other but a low one, which is only queued |
| `Delivery.BatchesEndNotLow` | Lib/core/ctx.c:176-189 | without internal ticks every batch ends in an event that is not low |
| `Delivery.LowWaitsUnlessTick` | Lib/core/ctx.c:181-207 | a batch ends in a low event exactly when an internal event makes a queue due that ends in one |
| `Delivery.TokenTickDeliversLow` | Lib/core/ctx.c:159-164 | a refill tick delivers a lone low event |
| `Delivery.BatchesAreFull` | Lib/core/ctx.c:196-207 | with normal events, and internal ticks other than of the batch timer, every batch has exactly the size in force |
| `Delivery.BatchSizeAsAsked` | Lib/core/evts.c:92-98 | after `m_mod_set_batch_size(len)`, with normal events, every batch has `len` events, or one for 0 |
| `Delivery.TimeoutAloneBatches` | Lib/core/evts.c:100-120 | with a timeout and no size, normal and low events wait for the batch timer, which delivers them all in one batch |
| `Delivery.ResetForgets` | Lib/core/mod.c:109-128 | after a reset, what is received or queued has arrived after it |
| `Delivery.BucketBalances` | Lib/core/mod.c:550-577 | in every run tokens stay within the burst, and spent tokens are burst plus effective refills minus tokens left |
| `Delivery.RateIsLimited` | Lib/core/ctx.c:159-164 | since a configuration no more actions are accepted than burst plus ticks, and one is refused exactly when burst and effective refills are used up |
| `Delivery.Unlimited` | Lib/core/mod.c:557-564 | after a reset, or with rate 0, no action is refused after fewer than 2^63 calls |
| `Delivery.BurstDecides` | Lib/core/mod.c:570-576 | after a configuration an action can be accepted again if and only if the burst is not 0, or, when the timer could not be registered, is more than 1 |
| `Stash.Stasher.Stash` | Lib/core/evts.c:47-61 | stashes at the end and takes a reference, or refuses, and for a high event only after the token is spent |
| `Stash.Stasher.TakeUp` | Lib/core/evts.c:71-84 | the first events move in order, with as many references as before and none freed on the way |
| `Stash.Stasher.CallBack` | Lib/core/ps.c:196-226 | one call of the callback, and the references of the queue are dropped |
| `Stash.Stasher.Unstash` | Lib/core/evts.c:63-90 | a prefix of the stash is received in order and the rest stays: all of it when less was stashed than asked for, or else one event less than asked for |
| `PubSub.Mod.FetchSub` | Lib/core/ps.c:32-53 | finds a subscription if and only if one matches: the one to that very topic, or else the first whose expression matches |
| `PubSub.Mod.TellIf` | Lib/core/ps.c:64-82 | writes one message to a running or paused module, unless a topic lacks a subscription |
| `PubSub.Context.TellSubscribers` | Lib/core/ps.c:105-117 | every running or paused module with a matching subscription gets one message with the right tag, and no other module any |
| `PubSub.Context.Broadcast` | Lib/core/ps.c:122-125 | without a topic every running or paused module gets one message |
| `PubSub.Context.TellPubSubMsg` | Lib/core/ps.c:119-131 | a direct message reaches its recipient alone, and does exactly when the recipient is running or paused and there is no topic |
| `PubSub.Context.Tell` | Lib/core/ps.c:287-295 | a direct message and its guards |
| `PubSub.Context.Publish` | Lib/core/ps.c:297-303 | a publication reaches, once each, the running and paused modules that have subscribed to its topic or to a matching expression, or all of them without a topic; it is refused exactly to a zombie, to one denied publishing, on a topic that starts with `LIBMODULE_`, or without a token |
| `PubSub.Context.PoisonPill` | Lib/core/ps.c:305-314 | succeeds, costs a token, and writes nothing to anybody |

## Left out

- Poll plugins, timers, signals, file descriptors, clocks, pipes as system objects, the FUSE layer, `dlopen`, logging and dumps: outside calls. Whether a poll call or a timer registration succeeds is a parameter; the pipe is a sequence.
- Allocation failures other than that of the map's doubled table, and arguments that are NULL.
- String hashing and regular expressions: any function from keys to numbers, and any relation between expressions and topics.
- Key duplication and freeing in the map; callbacks of `m_map_iterate` that put, or remove another entry than the current one.
- The comparators in `Lib/core/src.c`, which narrow 64-bit and floating differences to `int` and are not total orders: the tree takes any total order.
- Lists and stacks, which would add only easy members.
- The integer width of counters: `length`, `len` and `running_modules` are unbounded. The table size and the bit test are those of a 64-bit `size_t`, and tokens and batch sizes have their 64-bit maxima.
- Thread pool: detached threads, threads that cannot be created, mutex errors, `m_thpool_length`, and freeing twice or concurrently. Tasks end.
- Lifecycle: modelled on values, because a hook in the middle of a call may make any other call; not captured are the order in which several modules are evaluated, and calls that are refused for want of a token, which change no state. The context is persistent, so that it is not destroyed with its last module. Thresholds, system messages and plugins' symbols do not matter to it. Modules are evaluated while the context is looping; that a hook ends the loop by calling `m_ctx_dispatch` in the middle of such an evaluation is not part of this model.
- Bind.Pause: in one call a module's poll calls all succeed or all fail. The same holds for `Bind.Resume`.
- Bind: `m_mod_start` and `m_mod_stop` also call the same on bound modules, in the one case with hooks in between and in the other after the list was cleared; `Lifecycle` has their calls as steps.
- Delivery: what the callback does is further actions of the run. In `Delivery.BurstDecides`, ticks of an earlier timer that could not be removed for want of a token are not counted on. The `rate` field, truncated to 16 bits in the source, is not read by anything. Flushing of unread messages when a loop or a module stops.
- Stash: the running state and the tokens are fields that other calls change; the callback's own effects are left out.
- PubSub: `m_mod_ps_subscribe` and `m_mod_ps_unsubscribe`; messages to other contexts; reading from the pipe, and full pipes.
- Cyclic.LoadFactorStep: arithmetic only; that the load factor holds in every reachable map is in the `Valid` of `HashMap.Map`, which all operations keep.
