/** The master's result queue, in completion-order mode (the mode the master is
    created with). The class itself is not part of this model; its value here is
    what the master relies on: the ids still expected and the results received
    but not yet handed to the client, in the order they arrived. */
module ResultQueues {

  /** Task ids are Java longs; no arithmetic is done on them. */
  type TaskId = int

  /** A result sent back by a worker for one task; the payload is opaque text. */
  datatype TaskResult = TaskResult(id: TaskId, output: string)

  datatype ResultQueue = ResultQueue(outstanding: set<TaskId>, available: seq<TaskResult>)

  /** A freshly created queue. */
  const EmptyQueue: ResultQueue := ResultQueue({}, [])

  /** addPendingTask: the id is now expected; delivered results are untouched. */
  function AddPendingTask(q: ResultQueue, id: TaskId): (r: ResultQueue)
    ensures r.outstanding == q.outstanding + {id}
    ensures r.available == q.available
  {
    q.(outstanding := q.outstanding + {id})
  }

  /** addCompletedTask: the id is no longer expected and its result joins the
      end of the available results (completion order). */
  function AddCompletedTask(q: ResultQueue, res: TaskResult): (r: ResultQueue)
    ensures res.id !in r.outstanding && r.outstanding + {res.id} == q.outstanding + {res.id}
    ensures r.available == q.available + [res] && r.available[|q.available|] == res
  {
    ResultQueue(q.outstanding - {res.id}, q.available + [res])
  }

  function CountPendingResults(q: ResultQueue): nat
  {
    |q.outstanding|
  }

  function CountAvailableResults(q: ResultQueue): nat
  {
    |q.available|
  }

  predicate IsOneResultAvailable(q: ResultQueue)
  {
    q.available != []
  }

  /** Every expected result has arrived and there is at least one to deliver. */
  predicate AreAllResultsAvailable(q: ResultQueue)
  {
    q.outstanding == {} && q.available != []
  }

  predicate IsEmpty(q: ResultQueue)
  {
    q.outstanding == {} && q.available == []
  }

  /** getNext: hands out the oldest available result. */
  function GetNext(q: ResultQueue): (r: (TaskResult, ResultQueue))
    requires IsOneResultAvailable(q)
    ensures [r.0] + r.1.available == q.available
    ensures r.1.outstanding == q.outstanding
  {
    (q.available[0], q.(available := q.available[1..]))
  }

  /** getNextK: hands out the k oldest available results, oldest first. */
  function GetNextK(q: ResultQueue, k: nat): (r: (seq<TaskResult>, ResultQueue))
    requires k <= CountAvailableResults(q)
    ensures |r.0| == k && r.0 + r.1.available == q.available
    ensures r.1.outstanding == q.outstanding
  {
    (q.available[..k], q.(available := q.available[k..]))
  }

  /** getAll: hands out every available result and leaves none behind. */
  function GetAll(q: ResultQueue): (r: (seq<TaskResult>, ResultQueue))
    ensures r.0 == q.available && r.1.available == []
    ensures r.1.outstanding == q.outstanding
  {
    (q.available, q.(available := []))
  }

  /** Results accepted one after the other, in this order. */
  function AddAllCompleted(q: ResultQueue, rs: seq<TaskResult>): ResultQueue
    decreases |rs|
  {
    if rs == [] then q else AddAllCompleted(AddCompletedTask(q, rs[0]), rs[1..])
  }

  /** Completion order: results are appended in the order they were accepted. */
  lemma {:induction false} AddAllCompletedAppends(q: ResultQueue, rs: seq<TaskResult>)
    ensures AddAllCompleted(q, rs).available == q.available + rs
    decreases |rs|
  {
    if rs != [] {
      AddAllCompletedAppends(AddCompletedTask(q, rs[0]), rs[1..]);
      assert [rs[0]] + rs[1..] == rs;
    }
  }

  /** A client that has drained the queue and then waits for as many results as
      were accepted since receives exactly those, in acceptance order, whatever
      the order in which the tasks were submitted. */
  lemma DeliveredInCompletionOrder(q: ResultQueue, rs: seq<TaskResult>)
    requires q.available == []
    ensures |rs| <= CountAvailableResults(AddAllCompleted(q, rs))
    ensures GetNextK(AddAllCompleted(q, rs), |rs|).0 == rs
  {
    AddAllCompletedAppends(q, rs);
  }

  /** Accepting the result of an expected task leaves the number of results the
      client can still ask for (expected plus available) unchanged, so a waitK
      bound that was valid stays valid. */
  lemma CompletionKeepsTotal(q: ResultQueue, res: TaskResult)
    requires res.id in q.outstanding
    ensures CountPendingResults(AddCompletedTask(q, res)) + CountAvailableResults(AddCompletedTask(q, res))
         == CountPendingResults(q) + CountAvailableResults(q)
  {
    assert q.outstanding == (q.outstanding - {res.id}) + {res.id};
  }
}
