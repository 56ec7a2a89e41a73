/** The executor's two queues on the heap (util/executor/executor.c).

    Each method is the body of one critical section and is proved to have exactly the
    effect on the shared state that the transition system gives to that step. */
module ExecutorQueues {
  import opened LinkedLists
  import opened ExecutorShared

  datatype Task = Task(id: nat, cancelled: bool)

  /** executor_queue_t: a list head guarded by a lock. */
  class Queue {
    var head: Node?<Task>
    ghost var nodes: seq<Node<Task>>

    ghost predicate Valid()
      reads this, nodes
    {
      && Linked(head, nodes)
      && forall i, j :: 0 <= i < j < |nodes| ==> nodes[i].data.id != nodes[j].data.id
    }

    /** The queued tasks, front first. */
    ghost function Ids(): (ids: seq<nat>)
      reads this, nodes
      ensures |ids| == |nodes|
      ensures forall i :: 0 <= i < |ids| ==> ids[i] == nodes[i].data.id
    {
      seq(|nodes|, i requires 0 <= i < |nodes| reads this, nodes => nodes[i].data.id)
    }

    constructor ()
      ensures Valid() && nodes == []
    {
      head := null;
      nodes := [];
    }

    /** queue_push */
    method Push(task: Node<Task>)
      requires Valid() && task.prev == null && task.next == null && task.data.id !in Ids()
      modifies this, nodes, task
      ensures Valid() && nodes == old(nodes) + [task]
      ensures Ids() == old(Ids()) + [task.data.id]
      ensures forall n :: n in nodes ==> n.data == old(n.data)
    {
      assert forall i :: 0 <= i < |nodes| ==> Ids()[i] == nodes[i].data.id;
      head := Append(head, task, nodes);
      nodes := nodes + [task];
    }

    /** queue_poll behind its waiting loop: unlink the front task. */
    method Poll() returns (task: Node<Task>)
      requires Valid() && head != null
      modifies this, nodes
      ensures Valid() && nodes == old(nodes)[1..] && task == old(nodes)[0]
      ensures Ids() == old(Ids())[1..] && task.data.id == old(Ids())[0]
      ensures task.prev == null && task.next == null && task.data == old(task.data)
      ensures task !in nodes && task.data.id !in Ids()
      ensures forall n :: n in nodes ==> n in old(nodes) && n.data == old(n.data)
    {
      hide Linked;
      ghost var was := nodes;
      task := head;
      FrontIs();
      head := TakeFirst(head, nodes);
      nodes := nodes[1..];
      assert forall i :: 0 <= i < |nodes| ==> nodes[i] == was[i + 1];
    }

    lemma FrontIs()
      requires Valid()
      ensures head != null <==> nodes != []
      ensures head != null ==> head == nodes[0] && head !in nodes[1..] && forall n :: n in nodes[1..] ==> n in nodes
    {
    }

    /** queue_remove */
    method RemoveTask(task: Node<Task>)
      requires Valid() && task in nodes
      modifies this, nodes
      ensures Valid()
      ensures var k := IndexOf(old(Ids()), old(task.data.id));
        && nodes == old(nodes)[..k] + old(nodes)[k + 1..]
        && Ids() == old(Ids())[..k] + old(Ids())[k + 1..]
      ensures forall n :: n in old(nodes) ==> n.data == old(n.data)
      ensures forall n :: n in nodes ==> n in old(nodes)
    {
      ghost var k := PlaceOf(task);
      ghost var was, ids := nodes, Ids();
      head := Remove(head, task, nodes, k);
      nodes := Without(nodes, k);
      WithoutSubset(was, k);
      RemainingIds(was, ids, k);
    }

    lemma RemainingIds(was: seq<Node<Task>>, ids: seq<nat>, k: nat)
      requires k < |was| == |ids| && nodes == Without(was, k)
      requires forall i :: 0 <= i < |was| ==> was[i].data.id == ids[i]
      requires forall i, j :: 0 <= i < j < |ids| ==> ids[i] != ids[j]
      ensures Ids() == ids[..k] + ids[k + 1..]
      ensures forall i, j :: 0 <= i < j < |nodes| ==> nodes[i].data.id != nodes[j].data.id
    {
    }

    static lemma WithoutSubset<X>(s: seq<X>, k: nat)
      requires k < |s|
      ensures forall x :: x in Without(s, k) ==> x in s
    {
    }

    /** Every queued task's flag is what `flags` says. */
    ghost predicate Flagged(flags: set<nat>)
      reads this, nodes
    {
      forall n :: n in nodes ==> (n.data.cancelled <==> n.data.id in flags)
    }

    lemma NoSuchTask(id: nat)
      requires forall i :: 0 <= i < |nodes| ==> nodes[i].data.id != id
      ensures id !in Ids()
    {
    }

    lemma PlaceOf(task: Node<Task>) returns (k: nat)
      requires Valid() && task in nodes
      ensures k == IndexOf(Ids(), task.data.id) && k < |nodes| && nodes[k] == task
    {
      k := IndexOf(Ids(), task.data.id);
      var i :| 0 <= i < |nodes| && nodes[i] == task;
      assert Ids()[i] == task.data.id;
    }

    /** queue_clear: the tasks handed to queue_destroy_task, in order. */
    method Clear() returns (destroyed: seq<nat>)
      requires Valid()
      modifies this
      ensures Valid() && nodes == []
      ensures destroyed == old(Ids())
    {
      var freed := FreeAll(head, nodes);
      destroyed := seq(|freed|, i requires 0 <= i < |freed| => freed[i].id);
      head := null;
      nodes := [];
    }

    /** queue_cancel_task: task_comparator compares identities. */
    method CancelTask(id: nat, ghost flags: set<nat>) returns (found: bool)
      requires Valid() && Flagged(flags)
      modifies nodes
      ensures Valid() && nodes == old(nodes) && Ids() == old(Ids())
      ensures found <==> id in Ids()
      ensures Flagged(if found then flags + {id} else flags)
      ensures forall n :: n in nodes ==>
        n.data == if n.data.id == id then old(n.data).(cancelled := true) else old(n.data)
    {
      var task, k := FindBy(head, (t: Task) => if t.id == id then 0 else 1, nodes);
      if task == null {
        NoSuchTask(id);
        return false;
      }
      assert Ids()[k] == id;
      task.data := task.data.(cancelled := true);
      return true;
    }

    /** queue_is_task_cancelled: -1 if the task is not here. */
    method IsTaskCancelled(id: nat) returns (result: int)
      requires Valid()
      ensures result == -1 <==> id !in Ids()
      ensures forall n :: n in nodes && n.data.id == id ==> result == if n.data.cancelled then 1 else 0
    {
      var task, k := FindBy(head, (t: Task) => if t.id == id then 0 else 1, nodes);
      if task == null {
        NoSuchTask(id);
        return -1;
      }
      assert Ids()[k] == id;
      return if task.data.cancelled then 1 else 0;
    }
  }

  class Executor {
    const pending: Queue
    const active: Queue
    var destroyed: bool
    ghost var cancelled: set<nat> // tasks whose flag has been set so far

    ghost predicate Valid()
      reads this, pending, active, pending.nodes, active.nodes
    {
      && pending != active && pending.Valid() && active.Valid()
      && (forall m, n :: m in pending.nodes && n in active.nodes ==> m != n && m.data.id != n.data.id)
      && pending.Flagged(cancelled) && active.Flagged(cancelled)
    }

    /** What the threads share, as the transition system sees it. */
    ghost function View(): Shared
      reads this, pending, active, pending.nodes, active.nodes
    {
      Shared(pending.Ids(), active.Ids(), cancelled, destroyed)
    }

    /** A task that is in neither queue and is unlinked, as between queue_poll and queue_push. */
    ghost predicate Loose(task: Node<Task>)
      reads this, pending, active, pending.nodes, active.nodes, task
    {
      && task.prev == null && task.next == null
      && task !in pending.nodes && task !in active.nodes
      && task.data.id !in pending.Ids() && task.data.id !in active.Ids()
      && (task.data.cancelled <==> task.data.id in cancelled)
    }

    constructor ()
      ensures Valid() && View() == Shared([], [], {}, false)
      ensures fresh(pending) && fresh(active)
    {
      pending := new Queue();
      active := new Queue();
      destroyed := false;
      cancelled := {};
    }

    /** executor_submit, behind its check of the flag. */
    method SubmitPush(id: nat) returns (task: Node<Task>)
      requires Valid() && id !in pending.Ids() && id !in active.Ids() && id !in cancelled
      modifies pending, pending.nodes
      ensures Valid() && fresh(task) && View() == PushPending(old(View()), id)
    {
      hide Linked;
      task := new Node(Task(id, false));
      pending.Push(task);
    }

    /** queue_poll */
    method PollPending() returns (task: Node<Task>)
      requires Valid() && View().pending != []
      modifies pending, pending.nodes
      ensures Valid() && View() == TakePending(old(View()))
      ensures Loose(task) && task.data.id == old(View()).pending[0]
    {
      hide Linked;
      assert pending.head != null by {
        pending.FrontIs();
      }
      task := pending.Poll();
      assert task in old(pending.nodes);
    }

    method Activate(task: Node<Task>)
      requires Valid() && Loose(task)
      modifies active, active.nodes, task
      ensures Valid() && View() == ExecutorShared.PushActive(old(View()), task.data.id)
      ensures task in active.nodes && task.data == old(task.data)
    {
      hide Linked;
      active.Push(task);
    }

    method Deactivate(task: Node<Task>)
      requires Valid() && task in active.nodes
      modifies active, active.nodes
      ensures task.data.id in old(View()).active
      ensures Valid() && View() == ExecutorShared.RemoveActive(old(View()), task.data.id)
    {
      ghost var k := active.PlaceOf(task);
      active.RemoveTask(task);
    }

    /** queue_clear on the pending queue; every task found there is finalized with ECANCELED, in order. */
    method ClearPendingQueue() returns (finalized: seq<nat>)
      requires Valid()
      modifies pending
      ensures Valid() && View() == ExecutorShared.ClearPending(old(View()))
      ensures finalized == old(View()).pending
    {
      finalized := pending.Clear();
    }

    /** The two halves of executor_cancel. */
    method CancelActive(id: nat) returns (found: bool)
      requires Valid()
      modifies `cancelled, active.nodes
      ensures Valid() && found == (id in View().active)
      ensures View() == CancelIn(old(View()), old(View()).active, id)
    {
      hide Linked;
      ghost var k := IndexOf(active.Ids(), id);
      found := active.CancelTask(id, cancelled);
      if found {
        cancelled := cancelled + {id};
        assert active.nodes[k].data.id == id;
      }
    }

    method CancelPending(id: nat) returns (found: bool)
      requires Valid()
      modifies `cancelled, pending.nodes
      ensures Valid() && found == (id in View().pending)
      ensures View() == CancelIn(old(View()), old(View()).pending, id)
    {
      hide Linked;
      ghost var k := IndexOf(pending.Ids(), id);
      found := pending.CancelTask(id, cancelled);
      if found {
        cancelled := cancelled + {id};
        assert pending.nodes[k].data.id == id;
      }
    }

    /** The part of executor_destroy that is guarded by the executor's own lock. */
    method SetDestroyed()
      requires Valid() && !destroyed
      modifies `destroyed
      ensures Valid() && View() == old(View()).(destroyed := true)
    {
      destroyed := true;
    }

    /** executor_active_tasks_count */
    method ActiveTasksCount() returns (len: nat)
      requires Valid()
      ensures len == if destroyed then 0 else |View().active|
    {
      if destroyed {
        return 0;
      }
      len := Len(active.head, active.nodes);
    }
  }
}
