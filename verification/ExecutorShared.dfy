/** The state that the threads of an executor share (util/executor/executor.c) and
    the effect of each critical section on it.  Tasks are named by the order in
    which they were pushed on the pending queue. */
module ExecutorShared {

  const ECANCELED := 125

  datatype Shared = Shared(
    pending: seq<nat>,    // executor->pending, front first
    active: seq<nat>,     // executor->active
    cancelled: set<nat>,  // tasks whose `cancelled` flag is set
    destroyed: bool)

  function IndexOf(q: seq<nat>, t: nat): (k: nat)
    ensures k <= |q|
    ensures k < |q| <==> t in q
    ensures k < |q| ==> q[k] == t && t !in q[..k]
  {
    if q == [] || q[0] == t then 0 else 1 + IndexOf(q[1..], t)
  }

  function PushPending(sh: Shared, t: nat): Shared {
    sh.(pending := sh.pending + [t])
  }

  function TakePending(sh: Shared): Shared
    requires sh.pending != []
  {
    sh.(pending := sh.pending[1..])
  }

  function PushActive(sh: Shared, t: nat): Shared {
    sh.(active := sh.active + [t])
  }

  function RemoveActive(sh: Shared, t: nat): Shared
    requires t in sh.active
  {
    var k := IndexOf(sh.active, t);
    sh.(active := sh.active[..k] + sh.active[k + 1..])
  }

  function ClearPending(sh: Shared): Shared {
    sh.(pending := [])
  }

  /** queue_cancel_task: flag the task if it is found in the given queue. */
  function CancelIn(sh: Shared, queue: seq<nat>, t: nat): Shared {
    if t in queue then sh.(cancelled := sh.cancelled + {t}) else sh
  }
}
