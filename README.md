# Master/slave scheduling core, task-status filters and an overlay map, in Dafny

This project models three pieces of a grid scheduling code base and proves
properties of them.

- **The master of the master/slave API** (`AOMaster`, file `ao_master.dfy`, module `Master`).
  This is the single active object that does the following:
  - receives task ids from the client (`solve`);
  - hands them to workers ("slaves") that ask for work (`getTask`);
  - collects the results they send back (`sendResultAndGetTask`);
  - puts back the task of a worker reported dead (`isDead`);
  - answers the client's blocking calls for one, all or k results (`waitOneResult`, `waitAllResults`, `waitKResults`).

  The runtime serves one request at a time, so the master is a class whose methods update its fields in sequence. Calls the master makes to other objects are appended to a ghost trace of `Effect`s. These are the wake-up multicast to sleeping workers, the pinger, the task repository and the slave manager. `RunIteration` is one turn of `runActivity`'s loop over a queue of tagged requests. The oldest wait call is parked in the single wait slot, or refused if the slot is taken. Then the worker calls are served, then every other call that is not a wait. Last, the parked wait is served if enough results are there.

  Two helper classes are modelled by the behaviour the master relies on:
  - the insertion-ordered duplicate-free queue (`HashSetQueue`, module `SetQueues`), as a duplicate-free sequence;
  - the result queue in completion order (`ResultQueue`, module `ResultQueues`), as the set of expected ids plus the received results in arrival order.
- **Task statuses** (`TaskStatus`, file `task_status.dfy`, module `TaskStatuses`). The fourteen statuses and their fixed groups are modelled as a datatype and sets. The following are pure functions:
  - `allExceptThese`;
  - the case-insensitive expansion of aggregated labels into statuses, and its reverse (`wrapIntoAggregatedStatuses`);
  - `taskStatuses`;
  - the two `;`-joined filter strings.

  Lower-casing, joining and splitting live in module `Text`.
- **The overlay map** (`HierarchicalMap`, file `hierarchical_map.dfy`, module `HierarchicalMaps`). It is a class with a `child` and a `parent` map. Writes go to the child. Reads fall through to the parent when the child has no non-null value. `remove`, `clear`, `keySet` and `entrySet` are always refused.

The master keeps this invariant, `Consistent`. Pending and launched ids are each held once, never both. While the master runs, the ids the result queue still expects are exactly the pending and launched ones: `Partitioned` gives one inclusion and `Accounted` gives the other. Every handler preserves it, and `solve` does so for ids that are neither pending nor launched. `Valid` also holds the registration invariant: the group of all registered workers is duplicate-free and holds exactly the workers registered under a name.

A whole turn keeps `Consistent` when every solve call in the queue submits fresh ids (`FreshSubmissions`). Fresh ids are ones the result queue does not already expect and no earlier solve call submitted.

## Model

AOMaster.java stands for `src/Extra/org/objectweb/proactive/extra/masterslave/core/AOMaster.java` in the member names below; the source cells give the full path.

| member | source | states |
|---|---|---|
| Master.AOMaster.constructor | src/Extra/org/objectweb/proactive/extra/masterslave/core/AOMaster.java:220-243 | The state initActivity sets up: not terminated, empty task queues, an empty completion-order result queue, no workers, no name or assignment entries, and an empty wait slot. That state is consistent. |
| Master.AOMaster.RecordSlave | src/Extra/org/objectweb/proactive/extra/masterslave/core/AOMaster.java:312-321 | The worker is registered under its name in both name maps and in the group of all registered workers. The pinger is asked to watch it. The result is true. |
| Master.AOMaster.GetTask | src/Extra/org/objectweb/proactive/extra/masterslave/core/AOMaster.java:187-215 | An unknown name is registered first; a known name is not registered again. Then the dispatch runs (see AssignTask). Both the name maps and the dispatch are stated exactly through `HandedOut`. Consistency is preserved. |
| Master.AOMaster.AssignTask | src/Extra/org/objectweb/proactive/extra/masterslave/core/AOMaster.java:193-214 | With nothing pending: the null task, the assignment becomes "none", the worker joins the sleepers, and pending and launched are unchanged. Otherwise: exactly the oldest pending id leaves pending, and the others keep their order. That id joins launched and becomes the worker's assignment. The worker leaves the sleepers, and the repository fetch and save are traced. Consistency is preserved. |
| Master.AOMaster.SendResultAndGetTask | src/Extra/org/objectweb/proactive/extra/masterslave/core/AOMaster.java:360-378 | A result whose id is launched leaves launched and joins the result queue, and the repository removal is traced. A stale or repeated result leaves the result queue and launched unchanged (see AcceptResult). In both cases getTask's dispatch then runs for the handle the name maps to (null if none). Consistency is preserved. |
| Master.AOMaster.IsDead | src/Extra/org/objectweb/proactive/extra/masterslave/core/AOMaster.java:265-300 | A worker not in the group of all registered workers changes nothing, so a second report is a no-op. Otherwise the worker leaves the group, the sleepers and both name maps. If its assignment is still launched, that id moves to the back of pending, with a wake-up exactly when pending was empty and sleepers remain. Afterwards the worker is never in the group. Consistency is preserved. |
| Master.AOMaster.Forget | src/Extra/org/objectweb/proactive/extra/masterslave/core/AOMaster.java:272-278 | The removal half of isDead, stated field by field. |
| Master.AOMaster.Requeue | src/Extra/org/objectweb/proactive/extra/masterslave/core/AOMaster.java:280-297 | The requeue half of isDead: the id leaves launched and is added to pending. The sleepers are woken exactly when pending was empty and some worker sleeps. Consistency is preserved. |
| Master.AOMaster.SolveOne | src/Extra/org/objectweb/proactive/extra/masterslave/core/AOMaster.java:444-460 | The new state is `Submit` of the old one. The id becomes expected by the result queue and is added at the end of pending. The sleepers are woken iff pending was empty and some worker sleeps. For an id that is not launched, consistency is preserved. |
| Master.AOMaster.Solve | src/Extra/org/objectweb/proactive/extra/masterslave/core/AOMaster.java:431-437 | The ids are submitted in list order: pending is `AddAll` of the old pending, every id is expected, and no result is delivered. There is at most one wake-up, only when nothing was pending. Consistency is preserved when no id is currently launched. |
| Master.AOMaster.TerminateIntern | src/Extra/org/objectweb/proactive/extra/masterslave/core/AOMaster.java:474-506 | The master is terminated with pending, launched, assignments, both name maps and the group of all registered workers all empty, and the result is true. The workers are unwatched in group order, freed as one list, then the pinger and the slave manager are shut down, in that order. |
| Master.AOMaster.DrainGroup | src/Extra/org/objectweb/proactive/extra/masterslave/core/AOMaster.java:493-498 | The drain loop: it returns the old group in order, leaves the group empty, and traces one unwatch per worker. |
| Master.AOMaster.WaitOneResult | src/Extra/org/objectweb/proactive/extra/masterslave/core/AOMaster.java:547-560 | It is `Answer` for waitOne: AlreadyWaiting if a wait is parked, otherwise the oldest available result. |
| Master.AOMaster.WaitAllResults | src/Extra/org/objectweb/proactive/extra/masterslave/core/AOMaster.java:511-521 | It is `Answer` for waitAll: AlreadyWaiting if a wait is parked, otherwise every available result. |
| Master.AOMaster.WaitKResults | src/Extra/org/objectweb/proactive/extra/masterslave/core/AOMaster.java:526-542 | It is `Answer` for waitK: AlreadyWaiting if a wait is parked. Otherwise "too big" when k exceeds expected plus available, else "wrong value" when k ≤ 0, else the k oldest results. |
| Master.Answer | src/Extra/org/objectweb/proactive/extra/masterslave/core/AOMaster.java:511-560 | AlreadyWaiting exactly when the slot is taken, and every error leaves the queue unchanged. A success delivers a non-empty prefix of the available results, and expected ids are untouched. waitOne delivers the oldest result, and waitAll leaves nothing available or expected. For waitK, it fails iff k is invalid, reports "too big" iff k > expected + available, and otherwise delivers exactly k results. |
| Master.AOMaster.ServeWait | src/Extra/org/objectweb/proactive/extra/masterslave/core/AOMaster.java:511-560 | Serving a wait call is `Answer` of that call on the current slot and queue. |
| Master.AOMaster.ServePending | src/Extra/org/objectweb/proactive/extra/masterslave/core/AOMaster.java:406-411 | The slot is emptied, then the parked call is answered as if no other wait were parked. |
| Master.AOMaster.MaybeServePending | src/Extra/org/objectweb/proactive/extra/masterslave/core/AOMaster.java:383-401 | A parked wait is served iff it is servable: waitOne with one result available, waitAll with all results in, waitK with k invalid or at least k available. Serving clears the slot. Afterwards no servable wait is left parked. |
| Master.ServableStaysServable | src/Extra/org/objectweb/proactive/extra/masterslave/core/AOMaster.java:383-401 | Accepting the result of an expected task never makes a servable wait unservable. |
| Master.WaitKServedByKthResult | src/Extra/org/objectweb/proactive/extra/masterslave/core/AOMaster.java:391-398 | A valid waitK(k) with k−1 results available is not servable. It becomes servable with the next accepted result and then delivers exactly those k results in arrival order. |
| Master.AOMaster.TakeOldestWait | src/Extra/org/objectweb/proactive/extra/masterslave/core/AOMaster.java:330-340 | The oldest queued wait is removed from the queue. It is parked when the slot is free. When the slot is taken, it is answered at once with AlreadyWaiting and the parked one stays. |
| Master.AOMaster.AcceptResult | src/Extra/org/objectweb/proactive/extra/masterslave/core/AOMaster.java:362-370 | The first half of sendResultAndGetTask. A result whose id is launched leaves launched, joins the result queue and is traced. Any other result changes nothing. Consistency is preserved. |
| Master.AOMaster.ServeStep | src/Extra/org/objectweb/proactive/extra/masterslave/core/AOMaster.java:342-348 | One step of serveAll: the next call is served if the filter accepts it and kept queued otherwise. The kept calls are `Reject` of the prefix seen and the replies answer `Select` of it. Consistency and fresh submissions carry over to the calls still queued. |
| Master.AOMaster.ServeAll | src/Extra/org/objectweb/proactive/extra/masterslave/core/AOMaster.java:342-348 | The calls left are exactly `Reject(q, f)`: the refused calls, in queue order. There is one reply per accepted call, in order, and a reply is a dispatch exactly for getTask and sendResultAndGetTask. If the master was consistent and the queue's solve calls submit fresh ids, the master is still consistent and the calls left still submit fresh ids. |
| Master.AOMaster.Serve | src/Extra/org/objectweb/proactive/extra/masterslave/core/AOMaster.java:342-348 | One non-wait call runs its handler. Consistency is preserved when a solve brings no launched id. Exactly getTask and sendResultAndGetTask answer with a dispatch. Only a solve call adds expected ids, and only its own. |
| Master.AOMaster.ServeQueued | src/Extra/org/objectweb/proactive/extra/masterslave/core/AOMaster.java:342-348 | The four serving passes in order: getTask, sendResultAndGetTask, isDead, then everything but waits. What is left is exactly `Waits(queue)`: the queue's waits, in order. Consistency and fresh submissions carry over as in ServeAll. |
| Master.AOMaster.RunIteration | src/Extra/org/objectweb/proactive/extra/masterslave/core/AOMaster.java:328-351 | After one turn, the calls left queued are exactly the waits after the oldest one, in order, and none is left if the queue held no wait. No servable wait is parked. The oldest wait is parked if the slot was free, and a second wait is refused with AlreadyWaiting. If the master was consistent and the queue's solve calls submit fresh ids, both still hold for what is left. |
| Master.AOMaster.RunActivity | src/Extra/org/objectweb/proactive/extra/masterslave/core/AOMaster.java:326-355 | Turns run while the master is not terminated. Stopping before the arrivals are used up means the master terminated, and a terminated master runs no turn. Only waits stay queued between turns. If the master starts consistent and every solve call of the run submits fresh ids, it is consistent at the end. |
| Master.AOMaster.CountAvailableResults | src/Extra/org/objectweb/proactive/extra/masterslave/core/AOMaster.java:172-174 | The count is positive exactly when a waitOne would be served now. When it is positive, a waitK for that count is servable and delivers every available result. |
| Master.AOMaster.IsEmpty | src/Extra/org/objectweb/proactive/extra/masterslave/core/AOMaster.java:305-307 | True iff nothing is expected and nothing is left to collect. For a running, consistent master that is: no task pending, none launched and no result uncollected. |
| Master.AOMaster.SlavepoolSize | src/Extra/org/objectweb/proactive/extra/masterslave/core/AOMaster.java:424-426 | The number of workers registered under a name; zero exactly when the group of all registered workers is empty. |
| Master.FirstWait | src/Extra/org/objectweb/proactive/extra/masterslave/core/AOMaster.java:566-586 | The position of the oldest wait call, with no wait before it, or none when the queue holds no wait. |
| Master.Select | src/Extra/org/objectweb/proactive/extra/masterslave/core/AOMaster.java:342-348 | The calls a serving pass serves are exactly the queued calls its filter accepts. |
| Master.Reject | src/Extra/org/objectweb/proactive/extra/masterslave/core/AOMaster.java:592-612 | What a serving pass leaves is exactly the queued calls the filter refuses: only those, and all of them. |
| Master.SelectRejectSplit | src/Extra/org/objectweb/proactive/extra/masterslave/core/AOMaster.java:342-348 | Every queued call is either served or left, so the served and the left calls add up to the queue. |
| Master.RejectAppend | src/Extra/org/objectweb/proactive/extra/masterslave/core/AOMaster.java:342-348 | A pass over two queues in a row leaves the first one's leftovers and then the second one's. So the leftovers keep queue order. |
| Master.RejectAbsorbed | src/Extra/org/objectweb/proactive/extra/masterslave/core/AOMaster.java:342-348 | A later pass whose filter accepts every call an earlier one accepted leaves the same queue as the later pass alone. So the four passes of a turn leave exactly the waits. |
| Master.Waits | src/Extra/org/objectweb/proactive/extra/masterslave/core/AOMaster.java:594-600 | Exactly the wait calls of the queue. |
| Master.NoWaits | src/Extra/org/objectweb/proactive/extra/masterslave/core/AOMaster.java:594-600 | A queue without wait calls has no waits left. |
| Master.WithoutOldestWait | src/Extra/org/objectweb/proactive/extra/masterslave/core/AOMaster.java:330-340 | Taking the oldest wait out shortens the queue by one exactly when it holds a wait, and adds nothing. |
| Master.PastOldestWait | src/Extra/org/objectweb/proactive/extra/masterslave/core/AOMaster.java:330-340 | Once the oldest wait is taken out, the waits left are exactly those after it. |
| Master.FreshAt | src/Extra/org/objectweb/proactive/extra/masterslave/core/AOMaster.java:431-460 | In a queue whose solve calls submit fresh ids, no call submits an id that is already expected. |
| Master.FreshDrop | src/Extra/org/objectweb/proactive/extra/masterslave/core/AOMaster.java:431-460 | Serving one call of such a queue keeps the other calls fresh, provided the expected ids grew only by that call's own ids. |
| Master.DispatchKeepsPartition | src/Extra/org/objectweb/proactive/extra/masterslave/core/AOMaster.java:198-208 | Moving the oldest pending id to launched keeps pending and launched duplicate-free, disjoint and expected. Every expected id is still pending or launched. |
| Master.CompletionKeepsPartition | src/Extra/org/objectweb/proactive/extra/masterslave/core/AOMaster.java:362-370 | Accepting a launched id's result removes it from launched and from the expected ids. Both halves of the invariant still hold. |
| Master.RequeueKeepsPartition | src/Extra/org/objectweb/proactive/extra/masterslave/core/AOMaster.java:280-297 | Moving a launched id back to pending keeps both halves of the invariant. |
| Master.SubmissionKeepsPartition | src/Extra/org/objectweb/proactive/extra/masterslave/core/AOMaster.java:444-460 | Submitting an id that is not launched keeps both halves of the invariant: the new id is pending and expected. |
| Master.SubmissionsKeepPartition | src/Extra/org/objectweb/proactive/extra/masterslave/core/AOMaster.java:431-437 | Submitting a list of ids, none of them launched, keeps both halves of the invariant. |
| Master.AOMaster.SolveEach | src/Extra/org/objectweb/proactive/extra/masterslave/core/AOMaster.java:431-437 | The loop over the list: the new state is `SubmitAll` of the old one, id by id in list order, and pending stays duplicate-free. |
| Master.SubmitAllPending | src/Extra/org/objectweb/proactive/extra/masterslave/core/AOMaster.java:431-460 | After solve(List), pending is the old pending followed by the new ids, in list order and without repeats. |
| Master.SubmitAllQueue | src/Extra/org/objectweb/proactive/extra/masterslave/core/AOMaster.java:431-460 | After solve(List), every listed id is expected and the available results are untouched. |
| Master.SubmitAllTrace | src/Extra/org/objectweb/proactive/extra/masterslave/core/AOMaster.java:431-460 | solve(List) wakes the sleepers at most once: iff the list is non-empty, nothing was pending and some worker sleeps. |
| SetQueues.ElemsCard | src/Extra/org/objectweb/proactive/extra/masterslave/core/AOMaster.java:424-426 | A duplicate-free queue has as many elements as its set of elements, so the size of the group of all registered workers counts the registered workers. |
| SetQueues.Add | src/Extra/org/objectweb/proactive/extra/masterslave/core/AOMaster.java:444-460 | HashSetQueue.add: the element is appended when absent, and nothing changes when present. The queue stays duplicate-free, and its elements gain exactly x. |
| SetQueues.Remove | src/Extra/org/objectweb/proactive/extra/masterslave/core/AOMaster.java:363-367 | HashSetQueue.remove: exactly x leaves, the queue stays duplicate-free and is one shorter if x was there, and an absent x changes nothing. |
| SetQueues.RemoveHead | src/Extra/org/objectweb/proactive/extra/masterslave/core/AOMaster.java:202-205 | Removing the oldest element through the iterator is dropping the head. |
| SetQueues.AddAll | src/Extra/org/objectweb/proactive/extra/masterslave/core/AOMaster.java:431-437 | Adding a list keeps the old queue as a prefix, stays duplicate-free, and holds exactly the old and the new elements. |
| ResultQueues.AddPendingTask | src/Extra/org/objectweb/proactive/extra/masterslave/core/AOMaster.java:445 | The id is expected from now on, and the available results are untouched. |
| ResultQueues.AddCompletedTask | src/Extra/org/objectweb/proactive/extra/masterslave/core/AOMaster.java:369 | The id is no longer expected, and its result is appended to the available results (completion order). |
| ResultQueues.GetNext | src/Extra/org/objectweb/proactive/extra/masterslave/core/AOMaster.java:553 | The oldest available result is handed out, and the rest stay in order. |
| ResultQueues.GetNextK | src/Extra/org/objectweb/proactive/extra/masterslave/core/AOMaster.java:541 | The k oldest available results are handed out, in order. |
| ResultQueues.GetAll | src/Extra/org/objectweb/proactive/extra/masterslave/core/AOMaster.java:520 | All available results are handed out, and none remain. |
| ResultQueues.AddAllCompletedAppends | src/Extra/org/objectweb/proactive/extra/masterslave/core/AOMaster.java:227 | Results accepted one after another are appended in acceptance order. |
| ResultQueues.DeliveredInCompletionOrder | src/Extra/org/objectweb/proactive/extra/masterslave/core/AOMaster.java:526-542 | After the queue is drained, waiting for as many results as were then accepted yields exactly those, in acceptance order. |
| ResultQueues.CompletionKeepsTotal | src/Extra/org/objectweb/proactive/extra/masterslave/core/AOMaster.java:363-369 | Accepting an expected result keeps expected + available constant, so a waitK bound keeps its validity. |
| TaskStatuses.AliveIffNotFinished | scheduler/scheduler-api/src/main/java/org/ow2/proactive/scheduler/common/task/TaskStatus.java:154-156 | A task is alive exactly when its status is not in FINISHED_TASKS. |
| TaskStatuses.GroupsCoverAllStatuses | scheduler/scheduler-api/src/main/java/org/ow2/proactive/scheduler/common/task/TaskStatus.java:115-137 | Every status is pending, running or finished, and those three groups are disjoint. The error group lies within running ∪ finished and meets finished in exactly FAILED and FAULTY. |
| TaskStatuses.DeclarationOrder | scheduler/scheduler-api/src/main/java/org/ow2/proactive/scheduler/common/task/TaskStatus.java:55-113 | values() lists the statuses in strictly increasing ordinal. |
| TaskStatuses.AllStatusesComplete | scheduler/scheduler-api/src/main/java/org/ow2/proactive/scheduler/common/task/TaskStatus.java:55-113 | values() lists every status. |
| TaskStatuses.Keep | scheduler/scheduler-api/src/main/java/org/ow2/proactive/scheduler/common/task/TaskStatus.java:168-170 | The filter keeps exactly the statuses of the input that are not avoided. |
| TaskStatuses.KeepSorted | scheduler/scheduler-api/src/main/java/org/ow2/proactive/scheduler/common/task/TaskStatus.java:168-170 | Filtering keeps declaration order. |
| TaskStatuses.AllExceptThese | scheduler/scheduler-api/src/main/java/org/ow2/proactive/scheduler/common/task/TaskStatus.java:166-171 | Every status except exactly those given, each once, in declaration order. |
| TaskStatuses.ExpandLabelTable | scheduler/scheduler-api/src/main/java/org/ow2/proactive/scheduler/common/task/TaskStatus.java:175-192 | Exactly the nine known labels, in any case, stand for some status. Any other label contributes nothing. A label means the same as its lower-cased form. |
| TaskStatuses.ExpandAggregatedLabels | scheduler/scheduler-api/src/main/java/org/ow2/proactive/scheduler/common/task/TaskStatus.java:175-187 | "Submitted" gives {SUBMITTED}, "Pending" gives {PENDING}, "Running" gives RUNNING_TASKS, and "Finished" gives FINISHED_TASKS. |
| TaskStatuses.ExpandMembers | scheduler/scheduler-api/src/main/java/org/ow2/proactive/scheduler/common/task/TaskStatus.java:173-194 | A status is in the expansion iff some label stands for it, so the expansion is the union over the labels. |
| TaskStatuses.ExpandAppend | scheduler/scheduler-api/src/main/java/org/ow2/proactive/scheduler/common/task/TaskStatus.java:173-194 | Expanding a concatenation is the union of the expansions. |
| TaskStatuses.ExpandIgnoresCase | scheduler/scheduler-api/src/main/java/org/ow2/proactive/scheduler/common/task/TaskStatus.java:175 | Lower-casing every label first does not change the expansion. |
| TaskStatuses.LabelIsAggregate | scheduler/scheduler-api/src/main/java/org/ow2/proactive/scheduler/common/task/TaskStatus.java:198-210 | Every status wraps to one of "Submitted", "Pending", "Running", "Finished", so the "error" and "" branches are unreachable. |
| TaskStatuses.FailedAndFaultyWrapToFinished | scheduler/scheduler-api/src/main/java/org/ow2/proactive/scheduler/common/task/TaskStatus.java:196-212 | FAILED and FAULTY, in both the error and finished groups, wrap to "Finished". |
| TaskStatuses.DistinctFrom | scheduler/scheduler-api/src/main/java/org/ow2/proactive/scheduler/common/task/TaskStatus.java:211 | distinct(): no repeats, and exactly the input's elements not already seen. |
| TaskStatuses.Wrap | scheduler/scheduler-api/src/main/java/org/ow2/proactive/scheduler/common/task/TaskStatus.java:196-212 | No duplicates, exactly the labels of the given statuses, all among the four aggregated labels, so at most four. |
| TaskStatuses.InOwnLabel | scheduler/scheduler-api/src/main/java/org/ow2/proactive/scheduler/common/task/TaskStatus.java:175-210 | Every status is among the statuses its own label expands to. |
| TaskStatuses.ExpandWrapContains | scheduler/scheduler-api/src/main/java/org/ow2/proactive/scheduler/common/task/TaskStatus.java:173-211 | S ⊆ expand(wrap(S)). |
| TaskStatuses.StatusesFor | scheduler/scheduler-api/src/main/java/org/ow2/proactive/scheduler/common/task/TaskStatus.java:222-239 | It is PENDING_TASKS if pending, ∪ RUNNING_TASKS if running, ∪ FINISHED_TASKS if finished, and empty when all three are false. |
| TaskStatuses.NameHasNoSeparator | scheduler/scheduler-api/src/main/java/org/ow2/proactive/scheduler/common/task/TaskStatus.java:55-113 | No display name contains ';'. |
| TaskStatuses.StatusesToStringSplits | scheduler/scheduler-api/src/main/java/org/ow2/proactive/scheduler/common/task/TaskStatus.java:214-220 | statusesToString is the ';'-join of wrap: splitting it at ';' gives wrap back. |
| TaskStatuses.StatusFilterStringSplits | scheduler/scheduler-api/src/main/java/org/ow2/proactive/scheduler/common/task/TaskStatus.java:241-243 | statusFilterString is the ';'-join of the display names: splitting it gives them back, in order. |
| TaskStatuses.EmptyStatusStrings | scheduler/scheduler-api/src/main/java/org/ow2/proactive/scheduler/common/task/TaskStatus.java:214-243 | With no status, both strings are empty. |
| Text.LowerChar | scheduler/scheduler-api/src/main/java/org/ow2/proactive/scheduler/common/task/TaskStatus.java:175 | An upper-case ASCII letter becomes the same letter in lower case (its code plus 32), and any other character is kept. |
| Text.ToLowerIdempotent | scheduler/scheduler-api/src/main/java/org/ow2/proactive/scheduler/common/task/TaskStatus.java:175 | Lower-casing twice is lower-casing once. |
| Text.SplitJoin | scheduler/scheduler-api/src/main/java/org/ow2/proactive/scheduler/common/task/TaskStatus.java:214-216 | Joining pieces without the separator can be undone by splitting. |
| HierarchicalMaps.HierarchicalMap.constructor | rest/rest-cli/src/main/java/org/ow2/proactive_grid_cloud_portal/cli/utils/HierarchicalMap.java:42-44 | Empty child over the given parent. |
| HierarchicalMaps.HierarchicalMap.Empty | rest/rest-cli/src/main/java/org/ow2/proactive_grid_cloud_portal/cli/utils/HierarchicalMap.java:46-48 | Both layers are empty, so the size is zero and the map is empty. |
| HierarchicalMaps.HierarchicalMap.Size | rest/rest-cli/src/main/java/org/ow2/proactive_grid_cloud_portal/cli/utils/HierarchicalMap.java:51-53 | Child size plus parent size, that is, distinct keys plus keys present in both (which count twice). |
| HierarchicalMaps.HierarchicalMap.IsEmpty | rest/rest-cli/src/main/java/org/ow2/proactive_grid_cloud_portal/cli/utils/HierarchicalMap.java:56-58 | Empty iff the size is zero, iff neither layer has a key. |
| HierarchicalMaps.HierarchicalMap.ContainsKey | rest/rest-cli/src/main/java/org/ow2/proactive_grid_cloud_portal/cli/utils/HierarchicalMap.java:61-63 | A key is contained iff either layer has it, possibly mapped to null. A map containing a key is not empty. |
| HierarchicalMaps.HierarchicalMap.ContainsValue | rest/rest-cli/src/main/java/org/ow2/proactive_grid_cloud_portal/cli/utils/HierarchicalMap.java:66-68 | A value held by either layer means the map is not empty. |
| HierarchicalMaps.HierarchicalMap.Get | rest/rest-cli/src/main/java/org/ow2/proactive_grid_cloud_portal/cli/utils/HierarchicalMap.java:71-73 | A non-null child value shadows the parent. Otherwise, including when the child maps the key to null, the parent's value is read, and a key in neither layer reads null. A non-null result means the key is contained. |
| HierarchicalMaps.HierarchicalMap.Put | rest/rest-cli/src/main/java/org/ow2/proactive_grid_cloud_portal/cli/utils/HierarchicalMap.java:76-78 | Only the child changes, and the previous child value is returned. Afterwards the key is contained and reads back a non-null value. Every other key reads as before. |
| HierarchicalMaps.HierarchicalMap.PutAll | rest/rest-cli/src/main/java/org/ow2/proactive_grid_cloud_portal/cli/utils/HierarchicalMap.java:86-88 | Only the child changes. Every non-null value of m reads back, and keys outside m read as before. |
| HierarchicalMaps.HierarchicalMap.Remove | rest/rest-cli/src/main/java/org/ow2/proactive_grid_cloud_portal/cli/utils/HierarchicalMap.java:81-83 | Always UnsupportedOperation, with no frame: nothing changes. |
| HierarchicalMaps.HierarchicalMap.Clear | rest/rest-cli/src/main/java/org/ow2/proactive_grid_cloud_portal/cli/utils/HierarchicalMap.java:91-93 | Always UnsupportedOperation, and nothing changes. |
| HierarchicalMaps.HierarchicalMap.KeySet | rest/rest-cli/src/main/java/org/ow2/proactive_grid_cloud_portal/cli/utils/HierarchicalMap.java:96-98 | Always UnsupportedOperation. |
| HierarchicalMaps.HierarchicalMap.EntrySet | rest/rest-cli/src/main/java/org/ow2/proactive_grid_cloud_portal/cli/utils/HierarchicalMap.java:114-116 | Always UnsupportedOperation. |
| HierarchicalMaps.HierarchicalMap.Values | rest/rest-cli/src/main/java/org/ow2/proactive_grid_cloud_portal/cli/utils/HierarchicalMap.java:101-111 | As many values as size(): first one per child key, then one per parent key. Each layer's keys are visited exactly once, and each value is what that layer maps the key to, so a value held under several keys appears that many times. |
| HierarchicalMaps.ValuesOf | rest/rest-cli/src/main/java/org/ow2/proactive_grid_cloud_portal/cli/utils/HierarchicalMap.java:102-108 | One value per key of the layer. Every key is visited exactly once, and the i-th value is the layer's value for the i-th key visited. |
| HierarchicalMaps.UnionCard | rest/rest-cli/src/main/java/org/ow2/proactive_grid_cloud_portal/cli/utils/HierarchicalMap.java:51-53 | Inclusion-exclusion, used to count keys present in both layers twice. |

Some definitions have no contract of their own and are stated by the lemmas about them:
- `TaskStatuses.Name`, by NameHasNoSeparator and StatusFilterStringSplits;
- `TaskStatuses.IsTaskAlive`, by AliveIffNotFinished;
- `TaskStatuses.Expand`, by ExpandLabelTable, ExpandMembers, ExpandAppend, ExpandIgnoresCase and ExpandAggregatedLabels;
- `TaskStatuses.Label`, by LabelIsAggregate, FailedAndFaultyWrapToFinished and InOwnLabel;
- `TaskStatuses.StatusesToString`, by StatusesToStringSplits and EmptyStatusStrings;
- `TaskStatuses.StatusFilterString`, by StatusFilterStringSplits and EmptyStatusStrings;
- `HierarchicalMaps.Lookup`, the body of get, by the Get row.

## Left out

- I/O and collaborators. The following are traced in the ghost `effects` sequence, not modelled:
  - the task repository's contents and futures (`getFutureValue`, `waitFor`);
  - the pinger, the slave manager and the group multicast;
  - the task object handed to a worker (a `Dispatch` carries only its id).
- Logging, the NFE listener, `addResources`, `terminate`'s asynchronous wrapper and `body.terminate()` are not modelled. They do not change the state modelled here.
- The ProActive request queue and `Service`. A turn's requests are a given sequence. Calls arriving during a turn, and the blocking `waitForRequest`, are not modelled. `RunActivity` takes the arrivals per turn as a parameter.
- Master.AOMaster.RunIteration: the reply sequence is stated only in its first element (the refused second wait), not in full.
- Master.AOMaster.RunActivity: consistency across a run is proved only when every solve call submits fresh ids. A repeated id is put back into pending by the source's solve even while launched. The model does not state what the master then holds.
- The sleeping group may hold a worker that is not registered under a name. A second handle calling getTask under a name already bound to another worker is not registered, yet it joins the sleepers. `Valid` therefore does not require the sleepers to be registered.
- Master.AOMaster.Serve: does not restate each handler's contract; its callers rely only on `Valid`, consistency and the reply kind.
- `setResultReceptionOrder` and the result queue's other ordering mode (submission order). ResultQueue is not part of this model. Only the completion order the master is created with is modelled, along with the operations the master calls.
- HashSetQueue is not part of this model. It is the duplicate-free insertion-ordered sequence the master's calls need.
- The worker groups. The group of all registered workers is a duplicate-free sequence, so its order is kept for the drain in `terminateIntern`. The sleeping group is a set. The Group class is not part of this model.
- `NULL_TASK_ID` is the `Idle` activity. An assignment is compared by value, and a worker with no assignment entry reads as `Idle`.
- A wait parked when the master terminates is left in the slot, as in the source. Nothing answers it.
- Java hash iteration order. A set of statuses is given as the sequence its stream visits, and `Values` uses an unspecified key order per layer.
- `String.toLowerCase` is modelled for ASCII letters only.
- The overlay map's parent is a value snapshot taken at construction. Aliasing with a caller's map, and a null parent (which would make reads throw), are not modelled.
