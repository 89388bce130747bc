/** The master of the master/slave API: the single active object that receives
    task ids from the client, hands them to workers ("slaves") that ask for
    work, collects their results, requeues the task of a worker reported dead,
    and answers the client's blocking waits for results.

    The runtime serves one request at a time, so every handler below is a
    sequential update of the master's fields. Calls the master makes to the
    outside (the wake-up multicast, the pinger, the task repository, the slave
    manager) are recorded in the ghost trace `effects`. */
module Master {
  import opened Wrappers
  import opened SetQueues
  import opened ResultQueues

  type SlaveName = string

  /** A remote worker handle; NullSlave is the null reference. */
  datatype Slave = NullSlave | SlaveRef(id: nat)

  /** A slavesActivity entry: NULL_TASK_ID, or the task last handed to the worker.
      A worker with no entry reads as Idle. */
  datatype Activity = Idle | Working(id: TaskId)

  /** What getTask answers: the null task ("sleep a while") or a task to run. */
  datatype Dispatch = NullTask | TaskToRun(id: TaskId)

  /** Calls made to collaborators, in the order they are made. */
  datatype Effect =
    | Wakeup                              // sleepingGroupStub.wakeup()
    | Watch(watched: Slave)               // pinger.addSlaveToWatch
    | Unwatch(unwatched: Slave)           // pinger.removeSlaveToWatch
    | FetchTask(fetched: TaskId)          // repository.getTask
    | SaveTask(saved: TaskId)             // repository.saveTask
    | RemoveTask(removed: TaskId)         // repository.removeTask
    | FreeSlaves(freed: seq<Slave>)       // smanager.freeSlaves
    | TerminatePinger
    | TerminateManager(freeResources: bool)

  /** The three blocking calls of the client. */
  datatype WaitRequest = WaitOne | WaitAll | WaitK(k: int)

  /** IllegalStateException ("already waiting") and IllegalArgumentException
      ("k is too big", "wrong value"). */
  datatype WaitError = AlreadyWaiting | TooBig(tooBig: int) | WrongValue(wrong: int)

  /** waitOneResult answers one result, the two others a list. */
  datatype WaitReply = One(result: TaskResult) | Many(results: seq<TaskResult>)

  function Delivered(reply: WaitReply): seq<TaskResult>
  {
    match reply
    case One(r) => [r]
    case Many(rs) => rs
  }

  /** waitKResults refuses k: more than can ever arrive, or not positive. */
  predicate KIsInvalid(q: ResultQueue, k: int)
  {
    CountPendingResults(q) + CountAvailableResults(q) < k || k <= 0
  }

  /** The condition under which maybeServePending serves a parked wait. */
  predicate Servable(q: ResultQueue, w: WaitRequest)
  {
    match w
    case WaitOne => IsOneResultAvailable(q)
    case WaitAll => AreAllResultsAvailable(q)
    case WaitK(k) => KIsInvalid(q, k) || CountAvailableResults(q) >= k
  }

  /** What serving the wait w does to the result queue q, and what it answers;
      slotTaken says whether another wait is parked at that moment. */
  function Answer(q: ResultQueue, w: WaitRequest, slotTaken: bool): (r: (Result<WaitReply, WaitError>, ResultQueue))
    requires !slotTaken ==> Servable(q, w)
    ensures r.0 == Failure(AlreadyWaiting) <==> slotTaken
    ensures r.0.Failure? ==> r.1 == q
    ensures r.1.outstanding == q.outstanding
    ensures r.0.Success? ==> Delivered(r.0.value) != [] && Delivered(r.0.value) + r.1.available == q.available
    ensures !slotTaken && w.WaitOne? ==> r.0 == Success(One(q.available[0]))
    ensures !slotTaken && w.WaitAll? ==> r.0.Success? && r.1.available == [] && r.1.outstanding == {}
    ensures !slotTaken && w.WaitK? ==> (r.0.Failure? <==> KIsInvalid(q, w.k))
    ensures !slotTaken && w.WaitK? ==>
      (r.0 == Failure(TooBig(w.k)) <==> CountPendingResults(q) + CountAvailableResults(q) < w.k)
    ensures !slotTaken && w.WaitK? && r.0.Success? ==> |Delivered(r.0.value)| == w.k
  {
    if slotTaken then (Failure(AlreadyWaiting), q)
    else match w
      case WaitOne =>
        var (x, rest) := GetNext(q);
        (Success(One(x)), rest)
      case WaitAll =>
        var (xs, rest) := GetAll(q);
        (Success(Many(xs)), rest)
      case WaitK(k) =>
        if CountPendingResults(q) + CountAvailableResults(q) < k then (Failure(TooBig(k)), q)
        else if k <= 0 then (Failure(WrongValue(k)), q)
        else
          var (xs, rest) := GetNextK(q, k);
          (Success(Many(xs)), rest)
  }

  /** Accepting a result never makes a servable wait unservable: a parked wait
      that could be answered still can be after more results arrive. */
  lemma ServableStaysServable(q: ResultQueue, w: WaitRequest, res: TaskResult)
    requires Servable(q, w) && res.id in q.outstanding
    ensures Servable(AddCompletedTask(q, res), w)
  {
    CompletionKeepsTotal(q, res);
  }

  /** A parked waitK(k) with k - 1 results available is answered by the next
      accepted result, with exactly those k results in arrival order. */
  lemma WaitKServedByKthResult(q: ResultQueue, k: int, res: TaskResult)
    requires !KIsInvalid(q, k) && CountAvailableResults(q) == k - 1
    requires res.id in q.outstanding
    ensures !Servable(q, WaitK(k))
    ensures Servable(AddCompletedTask(q, res), WaitK(k))
    ensures Answer(AddCompletedTask(q, res), WaitK(k), false).0 == Success(Many(q.available + [res]))
  {
    CompletionKeepsTotal(q, res);
    var q' := AddCompletedTask(q, res);
    assert q'.available[..k] == q.available + [res];
  }

  /** The calls in the master's request queue. */
  datatype Request =
    | SolveCall(ids: seq<TaskId>)
    | GetTaskCall(slave: Slave, name: SlaveName)
    | SendResultCall(result: TaskResult, originator: SlaveName)
    | IsDeadCall(dead: Slave)
    | WaitCall(w: WaitRequest)
    | TerminateCall(freeResources: bool)
    | CountAvailableCall
    | IsEmptyCall
    | PoolSizeCall

  datatype Reply =
    | Dispatched(task: Dispatch)
    | Answered(answer: Result<WaitReply, WaitError>)
    | Count(n: nat)
    | Flag(b: bool)
    | Done

  /** The request filters runActivity serves by: one method name each for the
      three worker calls, then everything that is not a wait. */
  datatype Filter = GetTaskFilter | SendResultFilter | IsDeadFilter | NotWaitFilter

  predicate Accepts(f: Filter, req: Request)
  {
    match f
    case GetTaskFilter => req.GetTaskCall?
    case SendResultFilter => req.SendResultCall?
    case IsDeadFilter => req.IsDeadCall?
    case NotWaitFilter => !req.WaitCall?
  }

  /** The requests of q the filter accepts, oldest first. */
  function Select(q: seq<Request>, f: Filter): (r: seq<Request>)
    ensures forall x :: x in r ==> x in q && Accepts(f, x)
    ensures forall x :: x in q && Accepts(f, x) ==> x in r
  {
    if q == [] then []
    else Select(q[..|q| - 1], f) + (if Accepts(f, q[|q| - 1]) then [q[|q| - 1]] else [])
  }

  /** Select and Reject over a prefix one call longer. */
  lemma FilterStep(q: seq<Request>, i: nat, f: Filter)
    requires i < |q|
    ensures Select(q[..i + 1], f) == Select(q[..i], f) + (if Accepts(f, q[i]) then [q[i]] else [])
    ensures Reject(q[..i + 1], f) == Reject(q[..i], f) + (if Accepts(f, q[i]) then [] else [q[i]])
  {
    assert q[..i + 1][..i] == q[..i];
    assert q[..i + 1][i] == q[i];
  }

  /** replies answer calls one for one, a dispatch exactly for the worker
      calls getTask and sendResultAndGetTask. */
  predicate Answers(replies: seq<Reply>, calls: seq<Request>)
  {
    && |replies| == |calls|
    && forall j :: 0 <= j < |replies| ==>
         (replies[j].Dispatched? <==> calls[j].GetTaskCall? || calls[j].SendResultCall?)
  }

  lemma AnswersAppend(replies: seq<Reply>, calls: seq<Request>, reply: Reply, call: Request)
    requires Answers(replies, calls)
    requires reply.Dispatched? <==> call.GetTaskCall? || call.SendResultCall?
    ensures Answers(replies + [reply], calls + [call])
  {
  }

  /** The requests of q the filter leaves in the queue, oldest first. */
  function Reject(q: seq<Request>, f: Filter): (r: seq<Request>)
    ensures forall x :: x in r ==> x in q && !Accepts(f, x)
    ensures forall x :: x in q && !Accepts(f, x) ==> x in r
  {
    if q == [] then []
    else
      var init := q[..|q| - 1];
      assert q == init + [q[|q| - 1]];
      Reject(init, f) + (if Accepts(f, q[|q| - 1]) then [] else [q[|q| - 1]])
  }

  /** A pass loses no call: every call of q is either served or left. */
  lemma {:induction false} SelectRejectSplit(q: seq<Request>, f: Filter)
    ensures |Select(q, f)| + |Reject(q, f)| == |q|
  {
    if q != [] {
      SelectRejectSplit(q[..|q| - 1], f);
    }
  }

  /** Filtering is stable: the requests left from a + b are those left from a,
      then those left from b. */
  lemma {:induction false} RejectAppend(a: seq<Request>, b: seq<Request>, f: Filter)
    ensures Reject(a + b, f) == Reject(a, f) + Reject(b, f)
  {
    if b == [] {
      assert a + b == a;
    } else {
      var init, last := b[..|b| - 1], b[|b| - 1];
      var tail := if Accepts(f, last) then [] else [last];
      assert (a + b)[..|a + b| - 1] == a + init && (a + b)[|a + b| - 1] == last;
      assert Reject(b, f) == Reject(init, f) + tail;
      calc {
        Reject(a + b, f);
        Reject(a + init, f) + tail;
        { RejectAppend(a, init, f); }
        (Reject(a, f) + Reject(init, f)) + tail;
        Reject(a, f) + (Reject(init, f) + tail);
      }
    }
  }

  /** A pass whose filter accepts only calls a later pass would accept too
      leaves that later pass nothing more to do. */
  lemma {:induction false} RejectAbsorbed(q: seq<Request>, f: Filter, g: Filter)
    requires forall x :: Accepts(f, x) ==> Accepts(g, x)
    ensures Reject(Reject(q, f), g) == Reject(q, g)
  {
    if q != [] {
      var init := q[..|q| - 1];
      var last := q[|q| - 1];
      RejectAbsorbed(init, f, g);
      var tail := if Accepts(f, last) then [] else [last];
      RejectAppend(Reject(init, f), tail, g);
      if !Accepts(f, last) {
        assert Reject(tail, g) == Reject([], g) + (if Accepts(g, last) then [] else [last]);
      }
    }
  }

  /** The wait calls of q, oldest first. */
  function Waits(q: seq<Request>): (r: seq<Request>)
    ensures forall x :: x in r <==> x in q && x.WaitCall?
  {
    Reject(q, NotWaitFilter)
  }

  /** A queue holding no wait call has no waits left. */
  lemma {:induction false} NoWaits(q: seq<Request>)
    requires forall j :: 0 <= j < |q| ==> !q[j].WaitCall?
    ensures Waits(q) == []
  {
    if q != [] {
      NoWaits(q[..|q| - 1]);
    }
  }

  /** Position of the oldest wait call in q, if any (Service.getOldest with FindWaitFilter). */
  function FirstWait(q: seq<Request>): (r: Option<nat>)
    ensures r.Some? ==> r.value < |q| && q[r.value].WaitCall?
    ensures r.Some? ==> forall j :: 0 <= j < r.value ==> !q[j].WaitCall?
    ensures r.None? ==> forall j :: 0 <= j < |q| ==> !q[j].WaitCall?
  {
    if q == [] then None
    else if q[0].WaitCall? then Some(0)
    else
      var r := FirstWait(q[1..]);
      if r.Some? then Some(r.value + 1) else None
  }

  /** The queue left once the oldest wait of q, if any, is taken out. */
  function WithoutOldestWait(q: seq<Request>): (r: seq<Request>)
    ensures |r| == (if FirstWait(q).Some? then |q| - 1 else |q|)
    ensures forall x :: x in r ==> x in q
  {
    var first := FirstWait(q);
    if first.Some? then q[..first.value] + q[first.value + 1..] else q
  }

  /** Taking the oldest wait out of a queue leaves as waits exactly the ones
      queued after it. */
  lemma PastOldestWait(q: seq<Request>)
    ensures Waits(WithoutOldestWait(q)) == (if FirstWait(q).Some? then Waits(q[FirstWait(q).value + 1..]) else [])
  {
    var first := FirstWait(q);
    if first.Some? {
      WaitsPastFirst(q, first.value);
    } else {
      NoWaits(q);
    }
  }

  /** Taking the oldest wait out of a queue leaves as waits exactly the ones
      queued after it. */
  lemma WaitsPastFirst(q: seq<Request>, i: nat)
    requires i < |q| && forall j :: 0 <= j < i ==> !q[j].WaitCall?
    ensures Waits(q[..i] + q[i + 1..]) == Waits(q[i + 1..])
  {
    NoWaits(q[..i]);
    RejectAppend(q[..i], q[i + 1..], NotWaitFilter);
  }

  /** The bookkeeping of task ids: pending and launched ids are each held once,
      never both, and every one of them is still expected by the result queue. */
  ghost predicate Partitioned(pending: seq<TaskId>, launched: seq<TaskId>, expected: set<TaskId>)
  {
    && NoDup(pending) && NoDup(launched)
    && Elems(pending) !! Elems(launched)
    && Elems(pending) + Elems(launched) <= expected
  }

  /** No expected id is lost: every one is pending or launched. */
  ghost predicate Accounted(pending: seq<TaskId>, launched: seq<TaskId>, expected: set<TaskId>)
  {
    expected <= Elems(pending) + Elems(launched)
  }

  /** getTask moves the oldest pending id to the launched ids. */
  lemma DispatchKeepsPartition(pending: seq<TaskId>, launched: seq<TaskId>, expected: set<TaskId>)
    requires Partitioned(pending, launched, expected) && pending != []
    ensures Partitioned(pending[1..], Add(launched, pending[0]), expected)
    ensures Accounted(pending, launched, expected) ==> Accounted(pending[1..], Add(launched, pending[0]), expected)
  {
    ElemsCons(pending);
  }

  /** sendResultAndGetTask drops an accepted id from the launched ids and from
      the expected ones. */
  lemma CompletionKeepsPartition(pending: seq<TaskId>, launched: seq<TaskId>, expected: set<TaskId>, id: TaskId)
    requires Partitioned(pending, launched, expected) && id in launched
    ensures Partitioned(pending, Remove(launched, id), expected - {id})
    ensures Accounted(pending, launched, expected) ==> Accounted(pending, Remove(launched, id), expected - {id})
  {
    assert id in Elems(launched);
  }

  /** isDead moves the id a dead worker held from the launched ids back to the
      pending ones. */
  lemma RequeueKeepsPartition(pending: seq<TaskId>, launched: seq<TaskId>, expected: set<TaskId>, id: TaskId)
    requires Partitioned(pending, launched, expected) && id in launched
    ensures Partitioned(Add(pending, id), Remove(launched, id), expected)
    ensures Accounted(pending, launched, expected) ==> Accounted(Add(pending, id), Remove(launched, id), expected)
  {
    assert id in Elems(launched);
  }

  /** solve adds a new id, expected from now on, to the pending ids. */
  lemma SubmissionKeepsPartition(pending: seq<TaskId>, launched: seq<TaskId>, expected: set<TaskId>, id: TaskId)
    requires Partitioned(pending, launched, expected) && id !in launched
    ensures Partitioned(Add(pending, id), launched, expected + {id})
    ensures Accounted(pending, launched, expected) ==> Accounted(Add(pending, id), launched, expected + {id})
  {
  }

  /** solve(List) adds ids not launched, expected from now on, to the pending ids. */
  lemma SubmissionsKeepPartition(pending: seq<TaskId>, launched: seq<TaskId>, expected: set<TaskId>, ids: seq<TaskId>)
    requires Partitioned(pending, launched, expected) && Elems(ids) !! Elems(launched)
    ensures Partitioned(AddAll(pending, ids), launched, expected + Elems(ids))
    ensures Accounted(pending, launched, expected) ==> Accounted(AddAll(pending, ids), launched, expected + Elems(ids))
  {
    var r := AddAll(pending, ids);
    assert Elems(r) == Elems(pending) + Elems(ids);
  }

  /** The wake-up multicast, sent when cond holds. */
  function WakeIf(cond: bool): seq<Effect>
  {
    if cond then [Wakeup] else []
  }

  /** The part of the master's state solve changes. */
  datatype Submission = Submission(queue: ResultQueue, pending: seq<TaskId>, trace: seq<Effect>)

  /** solve(Long) on s; sleepers says whether some worker sleeps. */
  function Submit(s: Submission, id: TaskId, sleepers: bool): Submission
  {
    Submission(AddPendingTask(s.queue, id), Add(s.pending, id), s.trace + WakeIf(s.pending == [] && sleepers))
  }

  /** solve(Long) on each of ids in turn. */
  function SubmitAll(s: Submission, ids: seq<TaskId>, sleepers: bool): Submission
  {
    if ids == [] then s
    else Submit(SubmitAll(s, ids[..|ids| - 1], sleepers), ids[|ids| - 1], sleepers)
  }

  /** Submitting a list: the new ids join the pending ones in list order. */
  lemma {:induction false} SubmitAllPending(s: Submission, ids: seq<TaskId>, sleepers: bool)
    ensures SubmitAll(s, ids, sleepers).pending == AddAll(s.pending, ids)
  {
    if ids != [] {
      SubmitAllPending(s, ids[..|ids| - 1], sleepers);
    }
  }

  /** Submitting a list: every id of it is expected from now on, and no result
      is delivered or dropped. */
  lemma {:induction false} SubmitAllQueue(s: Submission, ids: seq<TaskId>, sleepers: bool)
    ensures SubmitAll(s, ids, sleepers).queue.outstanding == s.queue.outstanding + Elems(ids)
    ensures SubmitAll(s, ids, sleepers).queue.available == s.queue.available
  {
    if ids != [] {
      var init := ids[..|ids| - 1];
      SubmitAllQueue(s, init, sleepers);
      assert Elems(ids) == Elems(init) + {ids[|ids| - 1]} by {
        assert ids == init + [ids[|ids| - 1]];
      }
    }
  }

  /** Submitting a list wakes the sleepers at most once: when it is not empty,
      nothing was pending before, and some worker sleeps. */
  lemma {:induction false} SubmitAllTrace(s: Submission, ids: seq<TaskId>, sleepers: bool)
    ensures SubmitAll(s, ids, sleepers).trace == s.trace + WakeIf(s.pending == [] && ids != [] && sleepers)
  {
    if ids == [] {
      assert s.trace + [] == s.trace;
    } else {
      var init := ids[..|ids| - 1];
      SubmitAllTrace(s, init, sleepers);
      var prev := SubmitAll(s, init, sleepers);
      if init != [] {
        SubmitAllPending(s, init, sleepers);
        assert init[0] in Elems(init);
        assert prev.pending != [];
        assert prev.trace + [] == prev.trace;
      }
    }
  }

  /** The ids a call submits: those of a solve call, none for any other. */
  function SubmittedBy(req: Request): set<TaskId>
  {
    if req.SolveCall? then Elems(req.ids) else {}
  }

  /** Every solve call of q submits fresh ids: none already known, and none
      submitted by an earlier call of q. */
  ghost predicate FreshSubmissions(q: seq<Request>, known: set<TaskId>)
    decreases |q|
  {
    q == [] || (SubmittedBy(q[0]) !! known && FreshSubmissions(q[1..], known + SubmittedBy(q[0])))
  }

  /** A queue fresh against what is known is fresh against less. */
  lemma {:induction false} FreshShrink(q: seq<Request>, known: set<TaskId>, known': set<TaskId>)
    requires FreshSubmissions(q, known) && known' <= known
    ensures FreshSubmissions(q, known')
    decreases |q|
  {
    if q != [] {
      FreshShrink(q[1..], known + SubmittedBy(q[0]), known' + SubmittedBy(q[0]));
    }
  }

  /** No call of a fresh queue submits a known id. */
  lemma {:induction false} FreshAt(q: seq<Request>, i: nat, known: set<TaskId>)
    requires i < |q| && FreshSubmissions(q, known)
    ensures SubmittedBy(q[i]) !! known
    decreases i
  {
    if i > 0 {
      FreshAt(q[1..], i - 1, known + SubmittedBy(q[0]));
    }
  }

  /** Serving one call x of a queue whose submissions are fresh leaves the
      other calls fresh, as long as what is known afterwards grew at most by
      the ids x submitted. */
  lemma {:induction false} FreshDrop(front: seq<Request>, x: Request, back: seq<Request>, known: set<TaskId>, known': set<TaskId>)
    requires FreshSubmissions(front + [x] + back, known)
    requires known' <= known + SubmittedBy(x)
    ensures FreshSubmissions(front + back, known')
    decreases |front|
  {
    var s := front + [x] + back;
    if front == [] {
      assert s[1..] == back && front + back == back;
      FreshShrink(back, known + SubmittedBy(x), known');
    } else {
      var y := front[0];
      assert s[0] == y && s[1..] == front[1..] + [x] + back;
      FreshAt(s[1..], |front| - 1, known + SubmittedBy(y));
      assert s[1..][|front| - 1] == x;
      FreshDrop(front[1..], x, back, known + SubmittedBy(y), known' + SubmittedBy(y));
      assert (front + back)[0] == y && (front + back)[1..] == front[1..] + back;
    }
  }

  /** The call about to be served from a fresh queue submits no known id. */
  lemma FreshNext(rest: seq<Request>, q: seq<Request>, i: nat, later: seq<Request>, known: set<TaskId>)
    requires i < |q| && FreshSubmissions(rest + q[i..] + later, known)
    ensures SubmittedBy(q[i]) !! known
  {
    FreshAt(rest + q[i..] + later, |rest|, known);
    assert (rest + q[i..] + later)[|rest|] == q[i];
  }

  /** Serving the call at position i of q keeps the queue fresh. */
  lemma FreshServed(rest: seq<Request>, q: seq<Request>, i: nat, later: seq<Request>, known: set<TaskId>, known': set<TaskId>)
    requires i < |q| && FreshSubmissions(rest + q[i..] + later, known)
    requires known' <= known + SubmittedBy(q[i])
    ensures FreshSubmissions(rest + q[i + 1..] + later, known')
  {
    assert rest + q[i..] + later == rest + [q[i]] + (q[i + 1..] + later);
    FreshDrop(rest, q[i], q[i + 1..] + later, known, known');
    assert rest + (q[i + 1..] + later) == rest + q[i + 1..] + later;
  }

  /** Moving the call at position i of q to the end of rest leaves the queue
      as it was. */
  lemma KeptStep(rest: seq<Request>, q: seq<Request>, i: nat, later: seq<Request>)
    requires i < |q|
    ensures rest + q[i..] + later == rest + [q[i]] + q[i + 1..] + later
  {
    assert q[i..] == [q[i]] + q[i + 1..];
  }

  /** The queue a pass over q starts from, and the one it ends with. */
  lemma WholeQueue(q: seq<Request>, later: seq<Request>, rest: seq<Request>)
    ensures q[..|q|] == q && [] + q[0..] + later == q + later
    ensures rest + q[|q|..] + later == rest + later
  {
  }

  /** Taking the call at position i out of q keeps the queue fresh. */
  lemma FreshTaken(q: seq<Request>, i: nat, later: seq<Request>, known: set<TaskId>)
    requires i < |q| && FreshSubmissions(q + later, known)
    ensures FreshSubmissions(q[..i] + q[i + 1..] + later, known)
  {
    assert q[..i] + q[i..] == q;
    FreshServed(q[..i], q, i, later, known, known);
  }

  /** Taking the oldest wait out of a fresh queue leaves it fresh. */
  lemma FreshWithoutOldestWait(q: seq<Request>, later: seq<Request>, known: set<TaskId>)
    requires FreshSubmissions(q + later, known)
    ensures FreshSubmissions(WithoutOldestWait(q) + later, known)
  {
    var first := FirstWait(q);
    if first.Some? {
      FreshTaken(q, first.value, later, known);
    }
  }

  /** The calls of a run, turn after turn. */
  function Concat(arrivals: seq<seq<Request>>): seq<Request>
  {
    if arrivals == [] then [] else arrivals[0] + Concat(arrivals[1..])
  }

  /** The unwatch calls terminateIntern makes, one per worker, in group order. */
  ghost function Unwatched(slaves: seq<Slave>): seq<Effect>
  {
    if slaves == [] then []
    else Unwatched(slaves[..|slaves| - 1]) + [Unwatch(slaves[|slaves| - 1])]
  }

  class AOMaster {
    var terminated: bool
    /** Tasks waiting for a worker, oldest first. */
    var pendingTasks: seq<TaskId>
    /** Tasks handed out and not yet answered. */
    var launchedTasks: seq<TaskId>
    var resultQueue: ResultQueue
    /** Every registered worker (slaveGroup), in registration order. */
    var slaveGroup: seq<Slave>
    /** Workers told there was nothing to do (sleepingGroup). */
    var sleepingGroup: set<Slave>
    var slavesByName: map<SlaveName, Slave>
    var slavesByNameRev: map<Slave, SlaveName>
    var slavesActivity: map<SlaveName, Activity>
    /** The one parked wait call (pendingRequest). */
    var pendingRequest: Option<WaitRequest>
    ghost var effects: seq<Effect>

    /** The queues never hold an element twice, and the group holds exactly
        the workers registered under a name. */
    ghost predicate Valid()
      reads this
    {
      && NoDup(pendingTasks) && NoDup(launchedTasks) && NoDup(slaveGroup)
      && Elems(slaveGroup) == slavesByNameRev.Keys
    }

    /** While the master runs, the ids the result queue expects are exactly
        the pending and the launched ones, each held once: a submitted task is
        pending, launched or completed, never two of these and never none. */
    ghost predicate Consistent()
      reads this
    {
      && Valid() && Partitioned(pendingTasks, launchedTasks, resultQueue.outstanding)
      && (!terminated ==> Accounted(pendingTasks, launchedTasks, resultQueue.outstanding))
    }

    /** The task last handed to a worker, found through its name. */
    function AssignmentOf(slave: Slave): Activity
      reads this
    {
      if slave in slavesByNameRev && slavesByNameRev[slave] in slavesActivity
      then slavesActivity[slavesByNameRev[slave]]
      else Idle
    }

    /** The master as initActivity leaves it: everything empty, not terminated. */
    constructor ()
      ensures Consistent()
      ensures !terminated && pendingTasks == [] && launchedTasks == [] && resultQueue == EmptyQueue
      ensures slaveGroup == [] && sleepingGroup == {} && slavesActivity == map[]
      ensures slavesByName == map[] && slavesByNameRev == map[]
      ensures pendingRequest == None && effects == []
    {
      terminated := false;
      pendingTasks := [];
      launchedTasks := [];
      resultQueue := EmptyQueue;
      slaveGroup := [];
      sleepingGroup := {};
      slavesByName := map[];
      slavesByNameRev := map[];
      slavesActivity := map[];
      pendingRequest := None;
      effects := [];
    }

    /** recordSlave: registers the worker under its name in both name maps and
        in the group, and asks the pinger to watch it. */
    method RecordSlave(slave: Slave, name: SlaveName) returns (ok: bool)
      requires Valid()
      modifies this`slavesByName, this`slavesByNameRev, this`slaveGroup, this`effects
      ensures Valid() && ok
      ensures slavesByName == old(slavesByName)[name := slave]
      ensures slavesByNameRev == old(slavesByNameRev)[slave := name]
      ensures slaveGroup == Add(old(slaveGroup), slave) && slave in slaveGroup
      ensures effects == old(effects) + [Watch(slave)]
    {
      slavesByName := slavesByName[name := slave];
      slavesByNameRev := slavesByNameRev[slave := name];
      slaveGroup := Add(slaveGroup, slave);
      effects := effects + [Watch(slave)];
      ok := true;
    }

    /** The second half of getTask, from the state in which it starts:
        launchedBefore and effectsBefore are launchedTasks and effects at that
        point; the other fields it reads are those of the pre-state. */
    twostate predicate HandedOut(slave: Slave, name: SlaveName, t: Dispatch,
                                 launchedBefore: seq<TaskId>, effectsBefore: seq<Effect>)
      reads this
    {
      && t == (if old(pendingTasks) == [] then NullTask else TaskToRun(old(pendingTasks)[0]))
      && pendingTasks == (if old(pendingTasks) == [] then [] else old(pendingTasks)[1..])
      && launchedTasks == (if t.TaskToRun? then Add(launchedBefore, t.id) else launchedBefore)
      && slavesActivity == old(slavesActivity)[name := if t.TaskToRun? then Working(t.id) else Idle]
      && sleepingGroup == (if t.TaskToRun? then old(sleepingGroup) - {slave} else old(sleepingGroup) + {slave})
      && (if name in old(slavesByName)
          then slavesByName == old(slavesByName) && slavesByNameRev == old(slavesByNameRev)
               && slaveGroup == old(slaveGroup)
          else slavesByName == old(slavesByName)[name := slave]
               && slavesByNameRev == old(slavesByNameRev)[slave := name]
               && slaveGroup == Add(old(slaveGroup), slave))
      && effects == effectsBefore + (if name in old(slavesByName) then [] else [Watch(slave)])
                    + (if t.TaskToRun? then [FetchTask(t.id), SaveTask(t.id)] else [])
    }

    /** getTask: registers an unknown worker, then either tells it to sleep
        (no task pending) or moves the oldest pending task to the launched
        tasks and hands it over. */
    method GetTask(slave: Slave, name: SlaveName) returns (t: Dispatch)
      requires Valid()
      modifies this`slavesByName, this`slavesByNameRev, this`slaveGroup, this`effects
      modifies this`slavesActivity, this`sleepingGroup, this`pendingTasks, this`launchedTasks
      ensures Valid()
      ensures HandedOut(slave, name, t, old(launchedTasks), old(effects))
      ensures old(Consistent()) ==> Consistent()
    {
      if name !in slavesByName {
        var recorded := RecordSlave(slave, name);
      }
      t := AssignTask(slave, name);
    }

    /** The part of getTask after registration: the null task when nothing is
        pending, otherwise the oldest pending task, now launched. */
    method AssignTask(slave: Slave, name: SlaveName) returns (t: Dispatch)
      requires Valid()
      modifies this`slavesActivity, this`sleepingGroup, this`pendingTasks, this`launchedTasks, this`effects
      ensures Valid()
      ensures t == (if old(pendingTasks) == [] then NullTask else TaskToRun(old(pendingTasks)[0]))
      ensures pendingTasks == (if old(pendingTasks) == [] then [] else old(pendingTasks)[1..])
      ensures launchedTasks == (if t.TaskToRun? then Add(old(launchedTasks), t.id) else old(launchedTasks))
      ensures slavesActivity == old(slavesActivity)[name := if t.TaskToRun? then Working(t.id) else Idle]
      ensures sleepingGroup == (if t.TaskToRun? then old(sleepingGroup) - {slave} else old(sleepingGroup) + {slave})
      ensures effects == old(effects) + (if t.TaskToRun? then [FetchTask(t.id), SaveTask(t.id)] else [])
      ensures old(Consistent()) ==> Consistent()
    {
      if pendingTasks == [] {
        slavesActivity := slavesActivity[name := Idle];
        sleepingGroup := sleepingGroup + {slave};
        t := NullTask;
      } else {
        if slave in sleepingGroup {
          sleepingGroup := sleepingGroup - {slave};
        }
        var id := pendingTasks[0];
        if Consistent() {
          DispatchKeepsPartition(pendingTasks, launchedTasks, resultQueue.outstanding);
        }
        pendingTasks := pendingTasks[1..];
        launchedTasks := Add(launchedTasks, id);
        slavesActivity := slavesActivity[name := Working(id)];
        effects := effects + [FetchTask(id), SaveTask(id)];
        t := TaskToRun(id);
      }
    }

    /** sendResultAndGetTask: accepts the result if its task is still launched
        (moving it to the result queue), discards it otherwise, and in both
        cases runs getTask for the same worker, looked up by name. */
    method SendResultAndGetTask(result: TaskResult, name: SlaveName) returns (t: Dispatch)
      requires Valid()
      modifies this`slavesByName, this`slavesByNameRev, this`slaveGroup, this`effects
      modifies this`slavesActivity, this`sleepingGroup, this`pendingTasks, this`launchedTasks
      modifies this`resultQueue
      ensures Valid()
      ensures var accepted := result.id in old(launchedTasks);
        && resultQueue == (if accepted then AddCompletedTask(old(resultQueue), result) else old(resultQueue))
        && HandedOut(if name in old(slavesByName) then old(slavesByName)[name] else NullSlave, name, t,
                     if accepted then Remove(old(launchedTasks), result.id) else old(launchedTasks),
                     old(effects) + if accepted then [RemoveTask(result.id)] else [])
      ensures old(Consistent()) ==> Consistent()
    {
      AcceptResult(result);
      var slave := if name in slavesByName then slavesByName[name] else NullSlave;
      t := GetTask(slave, name);
    }

    /** The first half of sendResultAndGetTask: a result whose task is still
        launched is moved to the result queue; any other is discarded. */
    method AcceptResult(result: TaskResult)
      requires Valid()
      modifies this`launchedTasks, this`resultQueue, this`effects
      ensures Valid()
      ensures var accepted := result.id in old(launchedTasks);
        && resultQueue == (if accepted then AddCompletedTask(old(resultQueue), result) else old(resultQueue))
        && launchedTasks == (if accepted then Remove(old(launchedTasks), result.id) else old(launchedTasks))
        && effects == old(effects) + (if accepted then [RemoveTask(result.id)] else [])
      ensures old(Consistent()) ==> Consistent()
    {
      var id := result.id;
      if id in launchedTasks {
        if Consistent() {
          CompletionKeepsPartition(pendingTasks, launchedTasks, resultQueue.outstanding, id);
        }
        launchedTasks := Remove(launchedTasks, id);
        resultQueue := AddCompletedTask(resultQueue, result);
        effects := effects + [RemoveTask(id)];
      }
    }

    /** isDead: forgets a worker still in the group and puts its launched task
        back at the end of the pending tasks, waking the sleepers if nothing
        was pending; for a worker no longer in the group it does nothing. */
    method IsDead(slave: Slave)
      requires Valid()
      modifies this`slaveGroup, this`sleepingGroup, this`slavesByName, this`slavesByNameRev
      modifies this`launchedTasks, this`pendingTasks, this`effects
      ensures Valid()
      ensures slave !in slaveGroup
      ensures slave !in old(slaveGroup) ==>
        && slaveGroup == old(slaveGroup) && sleepingGroup == old(sleepingGroup)
        && slavesByName == old(slavesByName) && slavesByNameRev == old(slavesByNameRev)
      ensures slave in old(slaveGroup) ==>
        && slaveGroup == Remove(old(slaveGroup), slave)
        && sleepingGroup == old(sleepingGroup) - {slave}
        && slavesByNameRev == old(slavesByNameRev) - {slave}
        && slavesByName == (if slave in old(slavesByNameRev)
                            then old(slavesByName) - {old(slavesByNameRev)[slave]}
                            else old(slavesByName))
      ensures var a := old(AssignmentOf(slave));
        if slave in old(slaveGroup) && a.Working? && a.id in old(launchedTasks) then
          && launchedTasks == Remove(old(launchedTasks), a.id)
          && pendingTasks == Add(old(pendingTasks), a.id)
          && effects == old(effects) + WakeIf(old(pendingTasks) == [] && old(sleepingGroup) - {slave} != {})
        else
          launchedTasks == old(launchedTasks) && pendingTasks == old(pendingTasks) && effects == old(effects)
      ensures old(Consistent()) ==> Consistent()
    {
      var name: Option<SlaveName> := if slave in slavesByNameRev then Some(slavesByNameRev[slave]) else None;
      if slave in slaveGroup {
        Forget(slave, name);
        var activity := if name.Some? && name.value in slavesActivity then slavesActivity[name.value] else Idle;
        if activity.Working? && activity.id in launchedTasks {
          Requeue(activity.id);
        }
      }
    }

    /** The first half of isDead: the worker leaves the group, the sleepers and
        both name maps. */
    method Forget(slave: Slave, name: Option<SlaveName>)
      requires Valid()
      modifies this`slaveGroup, this`sleepingGroup, this`slavesByName, this`slavesByNameRev
      ensures Valid()
      ensures slaveGroup == Remove(old(slaveGroup), slave)
      ensures sleepingGroup == old(sleepingGroup) - {slave}
      ensures slavesByNameRev == old(slavesByNameRev) - {slave}
      ensures slavesByName == if name.Some? then old(slavesByName) - {name.value} else old(slavesByName)
    {
      slaveGroup := Remove(slaveGroup, slave);
      if slave in sleepingGroup {
        sleepingGroup := sleepingGroup - {slave};
      }
      slavesByNameRev := slavesByNameRev - {slave};
      if name.Some? {
        slavesByName := slavesByName - {name.value};
      }
    }

    /** The second half of isDead: a launched id goes back to the end of the
        pending ids, and the sleepers are woken if none was pending. */
    method Requeue(id: TaskId)
      requires Valid() && id in launchedTasks
      modifies this`launchedTasks, this`pendingTasks, this`effects
      ensures Valid()
      ensures launchedTasks == Remove(old(launchedTasks), id)
      ensures pendingTasks == Add(old(pendingTasks), id)
      ensures effects == old(effects) + WakeIf(old(pendingTasks) == [] && sleepingGroup != {})
      ensures old(Consistent()) ==> Consistent()
    {
      if Consistent() {
        RequeueKeepsPartition(pendingTasks, launchedTasks, resultQueue.outstanding, id);
      }
      launchedTasks := Remove(launchedTasks, id);
      if pendingTasks == [] {
        if |sleepingGroup| > 0 {
          effects := effects + [Wakeup];
        }
        pendingTasks := Add(pendingTasks, id);
      } else {
        pendingTasks := Add(pendingTasks, id);
      }
    }

    /** solve(Long): the id is expected by the result queue and joins the end of
        the pending tasks; the sleepers are woken if nothing was pending. */
    method SolveOne(id: TaskId)
      requires NoDup(pendingTasks)
      modifies this`resultQueue, this`pendingTasks, this`effects
      ensures NoDup(pendingTasks)
      ensures Submission(resultQueue, pendingTasks, effects)
           == Submit(Submission(old(resultQueue), old(pendingTasks), old(effects)), id, sleepingGroup != {})
      ensures old(Consistent()) && id !in launchedTasks ==> Consistent()
    {
      if Consistent() && id !in launchedTasks {
        SubmissionKeepsPartition(pendingTasks, launchedTasks, resultQueue.outstanding, id);
      }
      resultQueue := AddPendingTask(resultQueue, id);
      if pendingTasks == [] {
        pendingTasks := Add(pendingTasks, id);
        if |sleepingGroup| > 0 {
          effects := effects + [Wakeup];
        }
      } else {
        pendingTasks := Add(pendingTasks, id);
      }
    }

    /** solve(List): solve(Long) for each id, in list order. At most one
        wake-up is sent: only the first id can find the pending tasks empty. */
    method Solve(ids: seq<TaskId>)
      requires Valid()
      modifies this`resultQueue, this`pendingTasks, this`effects
      ensures Valid()
      ensures pendingTasks == AddAll(old(pendingTasks), ids)
      ensures resultQueue.outstanding == old(resultQueue.outstanding) + Elems(ids)
      ensures resultQueue.available == old(resultQueue.available)
      ensures effects == old(effects) + WakeIf(old(pendingTasks) == [] && ids != [] && sleepingGroup != {})
      ensures old(Consistent()) && Elems(ids) !! Elems(launchedTasks) ==> Consistent()
    {
      ghost var start := Submission(resultQueue, pendingTasks, effects);
      SolveEach(ids);
      SubmitAllPending(start, ids, sleepingGroup != {});
      SubmitAllQueue(start, ids, sleepingGroup != {});
      SubmitAllTrace(start, ids, sleepingGroup != {});
      if old(Consistent()) && Elems(ids) !! Elems(launchedTasks) {
        SubmissionsKeepPartition(old(pendingTasks), launchedTasks, old(resultQueue.outstanding), ids);
      }
    }

    /** The loop of solve(List): solve(Long) on each id, in list order. */
    method SolveEach(ids: seq<TaskId>)
      requires NoDup(pendingTasks)
      modifies this`resultQueue, this`pendingTasks, this`effects
      ensures NoDup(pendingTasks)
      ensures Submission(resultQueue, pendingTasks, effects)
           == SubmitAll(Submission(old(resultQueue), old(pendingTasks), old(effects)), ids, sleepingGroup != {})
    {
      for i := 0 to |ids|
        invariant NoDup(pendingTasks)
        invariant Submission(resultQueue, pendingTasks, effects)
               == SubmitAll(Submission(old(resultQueue), old(pendingTasks), old(effects)), ids[..i], sleepingGroup != {})
      {
        assert ids[..i + 1][..i] == ids[..i];
        SolveOne(ids[i]);
      }
      assert ids[..|ids|] == ids;
    }

    /** terminateIntern: marks the master terminated, empties the task queues
        and the worker maps, hands every worker back to the slave manager
        (draining the group front to back) and shuts the collaborators down.
        The sleeping group and the result queue are left as they are. */
    method TerminateIntern(freeResources: bool) returns (ok: bool)
      requires Valid()
      modifies this`terminated, this`pendingTasks, this`launchedTasks, this`slavesActivity
      modifies this`slavesByName, this`slavesByNameRev, this`slaveGroup, this`effects
      ensures Consistent()
      ensures ok && terminated
      ensures pendingTasks == [] && launchedTasks == [] && slaveGroup == []
      ensures slavesActivity == map[] && slavesByName == map[] && slavesByNameRev == map[]
      ensures effects == old(effects) + Unwatched(old(slaveGroup))
                         + [FreeSlaves(old(slaveGroup)), TerminatePinger, TerminateManager(freeResources)]
    {
      terminated := true;
      pendingTasks := [];
      launchedTasks := [];
      slavesActivity := map[];
      slavesByName := map[];
      slavesByNameRev := map[];
      var slavesToFree := DrainGroup();
      effects := effects + [FreeSlaves(slavesToFree), TerminatePinger, TerminateManager(freeResources)];
      ok := true;
    }

    /** The loop of terminateIntern: takes the workers out of the group front
        to back, unwatching each, and returns them in that order. */
    method DrainGroup() returns (slavesToFree: seq<Slave>)
      modifies this`slaveGroup, this`effects
      ensures slavesToFree == old(slaveGroup) && slaveGroup == []
      ensures effects == old(effects) + Unwatched(old(slaveGroup))
    {
      slavesToFree := [];
      while |slaveGroup| > 0
        invariant slavesToFree + slaveGroup == old(slaveGroup)
        invariant effects == old(effects) + Unwatched(slavesToFree)
        decreases |slaveGroup|
      {
        var slaveToRemove := slaveGroup[0];
        slaveGroup := slaveGroup[1..];
        effects := effects + [Unwatch(slaveToRemove)];
        assert (slavesToFree + [slaveToRemove])[..|slavesToFree|] == slavesToFree;
        slavesToFree := slavesToFree + [slaveToRemove];
      }
    }

    /** waitOneResult, run with the slot in its current state. */
    method WaitOneResult() returns (r: Result<WaitReply, WaitError>)
      requires pendingRequest.None? ==> Servable(resultQueue, WaitOne)
      modifies this`resultQueue
      ensures (r, resultQueue) == Answer(old(resultQueue), WaitOne, pendingRequest.Some?)
    {
      if pendingRequest.Some? {
        r := Failure(AlreadyWaiting);
        return;
      }
      var (x, rest) := GetNext(resultQueue);
      resultQueue := rest;
      r := Success(One(x));
    }

    /** waitAllResults, run with the slot in its current state. */
    method WaitAllResults() returns (r: Result<WaitReply, WaitError>)
      requires pendingRequest.None? ==> Servable(resultQueue, WaitAll)
      modifies this`resultQueue
      ensures (r, resultQueue) == Answer(old(resultQueue), WaitAll, pendingRequest.Some?)
    {
      if pendingRequest.Some? {
        r := Failure(AlreadyWaiting);
        return;
      }
      var (xs, rest) := GetAll(resultQueue);
      resultQueue := rest;
      r := Success(Many(xs));
    }

    /** waitKResults, run with the slot in its current state. */
    method WaitKResults(k: int) returns (r: Result<WaitReply, WaitError>)
      requires pendingRequest.None? ==> Servable(resultQueue, WaitK(k))
      modifies this`resultQueue
      ensures (r, resultQueue) == Answer(old(resultQueue), WaitK(k), pendingRequest.Some?)
    {
      if pendingRequest.Some? {
        r := Failure(AlreadyWaiting);
        return;
      }
      if CountPendingResults(resultQueue) + ResultQueues.CountAvailableResults(resultQueue) < k {
        r := Failure(TooBig(k));
      } else if k <= 0 {
        r := Failure(WrongValue(k));
      } else {
        var (xs, rest) := GetNextK(resultQueue, k);
        resultQueue := rest;
        r := Success(Many(xs));
      }
    }

    /** Body.serve on a wait call: runs the matching wait method. */
    method ServeWait(w: WaitRequest) returns (r: Result<WaitReply, WaitError>)
      requires pendingRequest.None? ==> Servable(resultQueue, w)
      modifies this`resultQueue
      ensures (r, resultQueue) == Answer(old(resultQueue), w, pendingRequest.Some?)
    {
      match w
      case WaitOne => r := WaitOneResult();
      case WaitAll => r := WaitAllResults();
      case WaitK(k) => r := WaitKResults(k);
    }

    /** servePending: empties the slot, then serves the call that was in it. */
    method ServePending() returns (r: Result<WaitReply, WaitError>)
      requires pendingRequest.Some? && Servable(resultQueue, pendingRequest.value)
      modifies this`pendingRequest, this`resultQueue
      ensures pendingRequest == None
      ensures (r, resultQueue) == Answer(old(resultQueue), old(pendingRequest).value, false)
    {
      var req := pendingRequest.value;
      pendingRequest := None;
      r := ServeWait(req);
    }

    /** maybeServePending: serves the parked wait exactly when it can be
        answered, so afterwards no answerable wait is left parked. */
    method MaybeServePending() returns (served: Option<Result<WaitReply, WaitError>>)
      modifies this`pendingRequest, this`resultQueue
      ensures old(pendingRequest) == None ==> served == None
      ensures old(pendingRequest).Some? ==> (served.Some? <==> Servable(old(resultQueue), old(pendingRequest).value))
      ensures served == None ==> pendingRequest == old(pendingRequest) && resultQueue == old(resultQueue)
      ensures served.Some? ==>
        && pendingRequest == None
        && (served.value, resultQueue) == Answer(old(resultQueue), old(pendingRequest).value, false)
      ensures pendingRequest.Some? ==> !Servable(resultQueue, pendingRequest.value)
      ensures resultQueue.outstanding == old(resultQueue.outstanding)
      ensures old(Consistent()) ==> Consistent()
    {
      served := None;
      if pendingRequest.Some? {
        var w := pendingRequest.value;
        if w.WaitOne? && IsOneResultAvailable(resultQueue) {
          var r := ServePending();
          served := Some(r);
        } else if w.WaitAll? && AreAllResultsAvailable(resultQueue) {
          var r := ServePending();
          served := Some(r);
        } else if w.WaitK? {
          var k := w.k;
          if CountPendingResults(resultQueue) + ResultQueues.CountAvailableResults(resultQueue) < k || k <= 0 {
            var r := ServePending();
            served := Some(r);
          } else if ResultQueues.CountAvailableResults(resultQueue) >= k {
            var r := ServePending();
            served := Some(r);
          }
        }
      }
    }

    /** countAvailableResults: results the client can collect right now; a
        waitOneResult would be answered at once exactly when there is one, and
        a waitKResults for that many would get exactly these. */
    method CountAvailableResults() returns (n: nat)
      ensures n == |resultQueue.available|
      ensures n > 0 <==> Servable(resultQueue, WaitOne)
      ensures n > 0 ==>
        && Servable(resultQueue, WaitK(n))
        && Answer(resultQueue, WaitK(n), false).0 == Success(Many(resultQueue.available))
    {
      n := ResultQueues.CountAvailableResults(resultQueue);
      assert resultQueue.available[..n] == resultQueue.available;
    }

    /** isEmpty: nothing is expected and nothing is left to collect; while the
        master runs and is consistent, that is no task pending, none launched
        and no result uncollected. */
    method IsEmpty() returns (b: bool)
      ensures b <==> resultQueue.outstanding == {} && resultQueue.available == []
      ensures Consistent() && !terminated ==>
        (b <==> pendingTasks == [] && launchedTasks == [] && resultQueue.available == [])
    {
      b := ResultQueues.IsEmpty(resultQueue);
      if Consistent() && !terminated {
        if pendingTasks != [] {
          assert pendingTasks[0] in Elems(pendingTasks);
        }
        if launchedTasks != [] {
          assert launchedTasks[0] in Elems(launchedTasks);
        }
      }
    }

    /** slavepoolSize: the number of workers registered under a name. */
    method SlavepoolSize() returns (n: nat)
      requires Valid()
      ensures n == |slavesByNameRev.Keys|
      ensures n == 0 <==> slaveGroup == []
    {
      n := |slaveGroup|;
      ElemsCard(slaveGroup);
    }

    /** Serves one call that is not a wait. Only a solve call adds expected ids. */
    method Serve(req: Request) returns (reply: Reply)
      requires Valid() && !req.WaitCall?
      modifies this`terminated, this`pendingTasks, this`launchedTasks, this`resultQueue
      modifies this`slaveGroup, this`sleepingGroup, this`slavesByName, this`slavesByNameRev
      modifies this`slavesActivity, this`effects
      ensures Valid()
      ensures old(Consistent()) && (req.SolveCall? ==> Elems(req.ids) !! Elems(old(launchedTasks))) ==> Consistent()
      ensures resultQueue.outstanding <= old(resultQueue.outstanding) + SubmittedBy(req)
      ensures req.GetTaskCall? || req.SendResultCall? <==> reply.Dispatched?
    {
      match req
      case SolveCall(ids) =>
        Solve(ids);
        reply := Done;
      case GetTaskCall(slave, name) =>
        var t := GetTask(slave, name);
        reply := Dispatched(t);
      case SendResultCall(result, name) =>
        var t := SendResultAndGetTask(result, name);
        reply := Dispatched(t);
      case IsDeadCall(slave) =>
        IsDead(slave);
        reply := Done;
      case TerminateCall(freeResources) =>
        var ok := TerminateIntern(freeResources);
        reply := Done;
      case CountAvailableCall =>
        var n := CountAvailableResults();
        reply := Count(n);
      case IsEmptyCall =>
        var b := IsEmpty();
        reply := Flag(b);
      case PoolSizeCall =>
        var n := SlavepoolSize();
        reply := Count(n);
    }

    /** One step of serveAll: q[i] is served when the filter accepts it and
        kept queued otherwise. The calls still queued are rest + q[i..] + later
        before and rest' + q[i + 1..] + later after; when the master was
        consistent and they submitted fresh ids, both stay so. */
    method ServeStep(q: seq<Request>, f: Filter, i: nat, ghost later: seq<Request>, rest: seq<Request>, replies: seq<Reply>)
      returns (rest': seq<Request>, replies': seq<Reply>)
      requires Valid() && i < |q|
      requires rest == Reject(q[..i], f) && Answers(replies, Select(q[..i], f))
      modifies this`terminated, this`pendingTasks, this`launchedTasks, this`resultQueue
      modifies this`slaveGroup, this`sleepingGroup, this`slavesByName, this`slavesByNameRev
      modifies this`slavesActivity, this`effects
      ensures Valid()
      ensures rest' == Reject(q[..i + 1], f) && Answers(replies', Select(q[..i + 1], f))
      ensures old(Consistent()) && FreshSubmissions(rest + q[i..] + later, old(resultQueue.outstanding)) ==>
        Consistent() && FreshSubmissions(rest' + q[i + 1..] + later, resultQueue.outstanding)
    {
      FilterStep(q, i, f);
      if Accepts(f, q[i]) {
        ghost var known := resultQueue.outstanding;
        ghost var clean := Consistent() && FreshSubmissions(rest + q[i..] + later, known);
        if clean {
          FreshNext(rest, q, i, later, known);
        }
        var reply := Serve(q[i]);
        if clean {
          FreshServed(rest, q, i, later, known, resultQueue.outstanding);
        }
        AnswersAppend(replies, Select(q[..i], f), reply, q[i]);
        rest', replies' := rest, replies + [reply];
      } else {
        KeptStep(rest, q, i, later);
        rest', replies' := rest + [q[i]], replies;
      }
    }

    /** Service.serveAll(filter): serves, oldest first, every call of q the
        filter accepts (one reply each, a dispatch exactly for the worker
        calls) and leaves the others queued in their order. later are the
        calls queued behind q; when every solve call submits fresh ids, the
        master stays consistent and the calls left still submit fresh ids. */
    method ServeAll(q: seq<Request>, f: Filter, ghost later: seq<Request>) returns (rest: seq<Request>, replies: seq<Reply>)
      requires Valid()
      modifies this`terminated, this`pendingTasks, this`launchedTasks, this`resultQueue
      modifies this`slaveGroup, this`sleepingGroup, this`slavesByName, this`slavesByNameRev
      modifies this`slavesActivity, this`effects
      ensures Valid()
      ensures rest == Reject(q, f)
      ensures Answers(replies, Select(q, f))
      ensures old(Consistent()) && FreshSubmissions(q + later, old(resultQueue.outstanding)) ==>
        Consistent() && FreshSubmissions(rest + later, resultQueue.outstanding)
    {
      ghost var clean := Consistent() && FreshSubmissions(q + later, resultQueue.outstanding);
      rest, replies := [], [];
      WholeQueue(q, later, []);
      var i := 0;
      while i < |q|
        invariant i <= |q| && Valid()
        invariant rest == Reject(q[..i], f)
        invariant Answers(replies, Select(q[..i], f))
        invariant clean ==> Consistent() && FreshSubmissions(rest + q[i..] + later, resultQueue.outstanding)
      {
        rest, replies := ServeStep(q, f, i, later, rest, replies);
        i := i + 1;
      }
      WholeQueue(q, later, rest);
    }

    /** One turn of runActivity's loop over the calls queued so far: the oldest
        wait is parked if the slot is free and answered with an error if not;
        then the getTask, sendResultAndGetTask and isDead calls are served, then
        every other call that is not a wait; last, the parked wait is served if
        it can be. What is returned as rest are exactly the waits queued after
        the oldest one, in order. later are the calls queued behind q. */
    method RunIteration(q: seq<Request>, ghost later: seq<Request>) returns (rest: seq<Request>, replies: seq<Reply>)
      requires Valid()
      modifies this
      ensures Valid()
      ensures rest == (if FirstWait(q).Some? then Waits(q[FirstWait(q).value + 1..]) else [])
      ensures forall x :: x in rest ==> x.WaitCall? && x in q
      ensures pendingRequest.Some? ==> !Servable(resultQueue, pendingRequest.value)
      ensures var first := FirstWait(q);
        first.Some? && old(pendingRequest) == None ==>
          pendingRequest == None || pendingRequest == Some(q[first.value].w)
      ensures var first := FirstWait(q);
        first.Some? && old(pendingRequest).Some? ==>
          replies != [] && replies[0] == Answered(Failure(AlreadyWaiting))
      ensures FirstWait(q) == None ==> pendingRequest == None || pendingRequest == old(pendingRequest)
      ensures old(Consistent()) && FreshSubmissions(q + later, old(resultQueue.outstanding)) ==>
        Consistent() && FreshSubmissions(rest + later, resultQueue.outstanding)
    {
      ghost var clean := Consistent() && FreshSubmissions(q + later, resultQueue.outstanding);
      var queue, r0 := TakeOldestWait(q);
      PastOldestWait(q);
      if clean {
        FreshWithoutOldestWait(q, later, resultQueue.outstanding);
      }
      var waits, r1 := ServeQueued(queue, later);
      replies := r0 + r1;
      var served := MaybeServePending();
      if served.Some? {
        replies := replies + [Answered(served.value)];
      }
      rest := waits;
    }

    /** The first step of a turn: the oldest queued wait, if there is one, is
        taken out of the queue and parked when the slot is free, and served at
        once (failing with AlreadyWaiting) when it is not. */
    method TakeOldestWait(q: seq<Request>) returns (queue: seq<Request>, replies: seq<Reply>)
      modifies this`pendingRequest, this`resultQueue
      ensures queue == WithoutOldestWait(q)
      ensures resultQueue == old(resultQueue)
      ensures old(Consistent()) ==> Consistent()
      ensures var first := FirstWait(q);
        && (first.Some? && old(pendingRequest) == None ==>
              pendingRequest == Some(q[first.value].w) && replies == [])
        && (first.Some? && old(pendingRequest).Some? ==>
              pendingRequest == old(pendingRequest) && replies == [Answered(Failure(AlreadyWaiting))])
        && (first.None? ==> pendingRequest == old(pendingRequest) && replies == [])
    {
      queue := q;
      replies := [];
      var first := FirstWait(q);
      if first.Some? {
        var i := first.value;
        var w := q[i].w;
        queue := q[..i] + q[i + 1..];
        if pendingRequest == None {
          pendingRequest := Some(w);
        } else {
          var answer := ServeWait(w);
          replies := [Answered(answer)];
        }
      }
    }

    /** The serving passes of a turn: every getTask call, then every
        sendResultAndGetTask call, then every isDead call, then every other
        call that is not a wait; what is left are exactly the waits, in order. */
    method ServeQueued(queue: seq<Request>, ghost later: seq<Request>) returns (waits: seq<Request>, replies: seq<Reply>)
      requires Valid()
      modifies this`terminated, this`pendingTasks, this`launchedTasks, this`resultQueue
      modifies this`slaveGroup, this`sleepingGroup, this`slavesByName, this`slavesByNameRev
      modifies this`slavesActivity, this`effects
      ensures Valid()
      ensures waits == Waits(queue)
      ensures old(Consistent()) && FreshSubmissions(queue + later, old(resultQueue.outstanding)) ==>
        Consistent() && FreshSubmissions(waits + later, resultQueue.outstanding)
    {
      var afterGetTask, r1 := ServeAll(queue, GetTaskFilter, later);
      var afterResults, r2 := ServeAll(afterGetTask, SendResultFilter, later);
      var afterDead, r3 := ServeAll(afterResults, IsDeadFilter, later);
      var r4;
      waits, r4 := ServeAll(afterDead, NotWaitFilter, later);
      replies := r1 + r2 + r3 + r4;
      RejectAbsorbed(afterResults, IsDeadFilter, NotWaitFilter);
      RejectAbsorbed(afterGetTask, SendResultFilter, NotWaitFilter);
      RejectAbsorbed(queue, GetTaskFilter, NotWaitFilter);
    }

    /** runActivity: turns of the loop while the master is not terminated.
        arrivals[i] are the calls that arrive before turn i; waits not yet
        taken stay queued ahead of them and are returned as waiting. When
        every solve call of the run submits fresh ids, the master stays
        consistent throughout. */
    method RunActivity(arrivals: seq<seq<Request>>) returns (turns: nat, waiting: seq<Request>)
      requires Valid()
      modifies this
      ensures Valid()
      ensures turns <= |arrivals|
      ensures turns < |arrivals| ==> terminated
      ensures old(terminated) ==> turns == 0
      ensures forall x :: x in waiting ==> x.WaitCall?
      ensures old(Consistent()) && FreshSubmissions(Concat(arrivals), old(resultQueue.outstanding)) ==> Consistent()
    {
      ghost var clean := Consistent() && FreshSubmissions(Concat(arrivals), resultQueue.outstanding);
      waiting := [];
      turns := 0;
      assert waiting + Concat(arrivals[turns..]) == Concat(arrivals) by {
        assert arrivals[0..] == arrivals;
      }
      while !terminated && turns < |arrivals|
        invariant Valid() && turns <= |arrivals|
        invariant turns == 0 ==> terminated == old(terminated)
        invariant old(terminated) ==> turns == 0
        invariant forall x :: x in waiting ==> x.WaitCall?
        invariant clean ==> Consistent() && FreshSubmissions(waiting + Concat(arrivals[turns..]), resultQueue.outstanding)
        decreases |arrivals| - turns
      {
        ghost var later := Concat(arrivals[turns + 1..]);
        assert arrivals[turns..][1..] == arrivals[turns + 1..];
        assert waiting + Concat(arrivals[turns..]) == waiting + arrivals[turns] + later;
        var rest, replies := RunIteration(waiting + arrivals[turns], later);
        waiting := rest;
        turns := turns + 1;
      }
    }
  }
}
