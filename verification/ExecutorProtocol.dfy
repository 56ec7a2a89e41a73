/** The executor as a transition system (util/executor/executor.c).

    N worker threads run `thread_worker`; any number of client threads call
    `executor_submit` and `executor_cancel`; one thread calls `executor_destroy`.
    Every critical section, and every check made outside one, is one step; an
    arbitrary scheduler picks the next step.  `queue_poll` is split where it reads
    the `destroyed` flag and where it goes to sleep, because the flag is guarded
    by another lock than the queue.  Callbacks may submit further tasks. */
module ExecutorProtocol {
  import opened ExecutorShared

  datatype Option<T> = None | Some(value: T)

  /** Where a callback stands in a call of executor_submit that it makes. */
  datatype Sub = Idle | Admitted | ToSignal

  /** Program counter of a worker (thread_worker, queue_poll). */
  datatype Pc =
    | Polling                       // about to lock the pending queue
    | HoldEmpty                     // holds the lock, saw an empty queue, about to read `destroyed`
    | HoldWait                      // holds the lock, about to wait on the condition
    | Asleep                        // waits on the condition, lock released
    | Polled(task: nat)             // took the task, about to read `destroyed`
    | Abandoning(task: nat)         // saw `destroyed`, about to finalize with ECANCELED and leave the loop
    | Pushing(task: nat)            // about to push the task on the active queue
    | Ready(task: nat)              // task is active, about to read its `cancelled` flag
    | InAction(task: nat, sub: Sub) // inside the action
    | Acted(task: nat, result: int) // about to read `destroyed` again
    | ToFinalize(task: nat, result: int)
    | InFinalizer(task: nat, sub: Sub)
    | Removing(task: nat)           // about to remove the task from the active queue
    | Clearing                      // left the loop, about to clear the pending queue
    | Exited

  /** Program counter of a client thread. */
  datatype ClientPc =
    | Outside
    | SubmitAdmitted          // saw the executor alive, about to push a new task
    | SubmitToSignal          // pushed, about to signal
    | CancelActive(task: nat) // saw the executor alive, about to search the active queue
    | CancelPending(task: nat)

  datatype DestroyPc = NotCalled | FlagSet | Joining | Joined

  /** What happens to tasks, in the order in which it happens. */
  datatype Event =
    | Started(worker: nat, task: nat)
    | Returned(task: nat, result: int)
    | Finalized(task: nat, result: int)

  /** `next`, `taken`, `holder`, `log` and `quiet` are auxiliary: no guard reads them. */
  datatype State = State(
    shared: Shared,
    workers: seq<Pc>,
    clients: seq<ClientPc>,
    destroyer: DestroyPc,
    next: nat,             // number of tasks pushed so far; the next one gets this name
    taken: seq<nat>,       // tasks in the order in which they left the pending queue
    holder: map<nat, nat>, // the worker holding a task that left the queue and is not destroyed yet
    log: seq<Event>,
    quiet: bool)           // no client was between its check and its push when destroy set the flag

  datatype Label =
    // queue_poll
    | Take(w: nat) | FindEmpty(w: nat) | SeeDestroyed(w: nat) | KeepWaiting(w: nat) | FallAsleep(w: nat) | WakeUp(w: nat)
    // thread_worker
    | CheckBefore(w: nat) | Abandon(w: nat) | Activate(w: nat) | Begin(w: nat) | ActionReturns(w: nat, r: int)
    | CheckAfter(w: nat) | Finalize(w: nat) | FinalizerReturns(w: nat) | Deactivate(w: nat) | Clear(w: nat)
    // executor_submit called by the action or finalizer that worker w is running
    | InnerCheck(w: nat) | InnerPush(w: nat) | InnerSignal(w: nat, v: nat)
    // executor_submit and executor_cancel called by client c
    | SubmitCheck(c: nat) | SubmitPush(c: nat) | SubmitSignal(c: nat, v: nat)
    | CancelCheck(c: nat, t: nat) | TryActive(c: nat) | TryPending(c: nat)
    // executor_destroy
    | SetDestroyed | Broadcast | Join

  predicate Holding(pc: Pc) { pc.HoldEmpty? || pc.HoldWait? }

  /** The lock of the pending queue is free between steps unless a worker holds it inside queue_poll. */
  predicate LockFree(s: State) {
    forall w :: 0 <= w < |s.workers| ==> !Holding(s.workers[w])
  }

  predicate HasTask(pc: Pc) {
    pc.Polled? || pc.Abandoning? || pc.Pushing? || InActive(pc)
  }

  /** Between queue_push and queue_remove on the active queue. */
  predicate InActive(pc: Pc) {
    pc.Ready? || pc.InAction? || pc.Acted? || pc.ToFinalize? || pc.InFinalizer? || pc.Removing?
  }

  predicate InCallback(pc: Pc) { pc.InAction? || pc.InFinalizer? }

  function WithPc(s: State, w: nat, pc: Pc): State
    requires w < |s.workers|
  {
    s.(workers := s.workers[w := pc])
  }

  function WithSub(s: State, w: nat, sub: Sub): State
    requires w < |s.workers| && InCallback(s.workers[w])
  {
    var pc := s.workers[w];
    WithPc(s, w, if pc.InAction? then InAction(pc.task, sub) else InFinalizer(pc.task, sub))
  }

  function WithClient(s: State, c: nat, pc: ClientPc): State
    requires c < |s.clients|
  {
    s.(clients := s.clients[c := pc])
  }

  function Push(s: State): State {
    s.(shared := PushPending(s.shared, s.next), next := s.next + 1)
  }

  predicate SomeoneAsleep(s: State) {
    exists w :: 0 <= w < |s.workers| && s.workers[w].Asleep?
  }

  /** SDL_CondSignal wakes one sleeper, if there is one; v is the one it picks. */
  predicate SignalPicks(s: State, v: nat) {
    if v < |s.workers| then s.workers[v].Asleep? else !SomeoneAsleep(s)
  }

  function Signal(s: State, v: nat): State {
    if v < |s.workers| then WithPc(s, v, Polling) else s
  }

  function WakeAll(ws: seq<Pc>): (r: seq<Pc>)
    ensures |r| == |ws|
    ensures forall i :: 0 <= i < |ws| ==> r[i] == if ws[i].Asleep? then Polling else ws[i]
  {
    seq(|ws|, i requires 0 <= i < |ws| => if ws[i].Asleep? then Polling else ws[i])
  }

  /** tasks_free(queue->head, queue_destroy_task): finalize every task still queued. */
  function CancelAll(ts: seq<nat>): (es: seq<Event>)
    ensures |es| == |ts|
    ensures forall i :: 0 <= i < |ts| ==> es[i] == Finalized(ts[i], ECANCELED)
  {
    seq(|ts|, i requires 0 <= i < |ts| => Finalized(ts[i], ECANCELED))
  }

  function ClearAll(s: State): State {
    s.(shared := ClearPending(s.shared), taken := s.taken + s.shared.pending,
       log := s.log + CancelAll(s.shared.pending))
  }

  function Init(threads: nat, clients: nat): State
    requires threads > 0
  {
    State(Shared([], [], {}, false), seq(threads, _ => Polling), seq(clients, _ => Outside), NotCalled,
          0, [], map[], [], true)
  }

  /** queue_poll: one step of worker w. */
  function PollNext(s: State, l: Label, w: nat): Option<State>
    requires w < |s.workers|
  {
    var pc := s.workers[w];
    match l
    case Take(_) =>
      if pc.Polling? && LockFree(s) && s.shared.pending != [] then
        var t := s.shared.pending[0];
        Some(WithPc(s, w, Polled(t)).(shared := TakePending(s.shared), taken := s.taken + [t], holder := s.holder[t := w]))
      else None
    case FindEmpty(_) =>
      if pc.Polling? && LockFree(s) && s.shared.pending == [] then Some(WithPc(s, w, HoldEmpty)) else None
    case SeeDestroyed(_) =>
      if pc.HoldEmpty? && s.shared.destroyed then Some(WithPc(s, w, Clearing)) else None
    case KeepWaiting(_) =>
      if pc.HoldEmpty? && !s.shared.destroyed then Some(WithPc(s, w, HoldWait)) else None
    case FallAsleep(_) =>
      if pc.HoldWait? then Some(WithPc(s, w, Asleep)) else None
    case WakeUp(_) =>
      // SDL_CondWait may return without a signal
      if pc.Asleep? then Some(WithPc(s, w, Polling)) else None
    case _ => None
  }

  /** The rest of thread_worker, and queue_clear: one step of worker w. */
  function RunNext(s: State, l: Label, w: nat): Option<State>
    requires w < |s.workers|
  {
    var pc := s.workers[w];
    match l
    case CheckBefore(_) =>
      if pc.Polled? then
        Some(WithPc(s, w, if s.shared.destroyed then Abandoning(pc.task) else Pushing(pc.task)))
      else None
    case Abandon(_) =>
      if pc.Abandoning? then
        Some(WithPc(s, w, Clearing).(log := s.log + [Finalized(pc.task, ECANCELED)], holder := s.holder - {pc.task}))
      else None
    case Activate(_) =>
      if pc.Pushing? then Some(WithPc(s, w, Ready(pc.task)).(shared := PushActive(s.shared, pc.task))) else None
    case Begin(_) =>
      if pc.Ready? then
        if pc.task in s.shared.cancelled then Some(WithPc(s, w, Acted(pc.task, ECANCELED)))
        else Some(WithPc(s, w, InAction(pc.task, Idle)).(log := s.log + [Started(w, pc.task)]))
      else None
    case ActionReturns(_, r) =>
      if pc.InAction? && pc.sub.Idle? then
        Some(WithPc(s, w, Acted(pc.task, r)).(log := s.log + [Returned(pc.task, r)]))
      else None
    case CheckAfter(_) =>
      if pc.Acted? then
        Some(WithPc(s, w, ToFinalize(pc.task, if s.shared.destroyed then ECANCELED else pc.result)))
      else None
    case Finalize(_) =>
      if pc.ToFinalize? then
        Some(WithPc(s, w, InFinalizer(pc.task, Idle)).(log := s.log + [Finalized(pc.task, pc.result)]))
      else None
    case FinalizerReturns(_) =>
      if pc.InFinalizer? && pc.sub.Idle? then Some(WithPc(s, w, Removing(pc.task))) else None
    case Deactivate(_) =>
      if pc.Removing? && pc.task in s.shared.active then
        Some(WithPc(s, w, Polling).(shared := RemoveActive(s.shared, pc.task), holder := s.holder - {pc.task}))
      else None
    case Clear(_) =>
      if pc.Clearing? && LockFree(s) then Some(ClearAll(WithPc(s, w, Exited))) else None
    case _ => None
  }

  /** executor_submit called by the callback that worker w is running. */
  function InnerNext(s: State, l: Label, w: nat): Option<State>
    requires w < |s.workers|
  {
    var pc := s.workers[w];
    match l
    case InnerCheck(_) =>
      if InCallback(pc) && pc.sub.Idle? && !s.shared.destroyed then Some(WithSub(s, w, Admitted)) else None
    case InnerPush(_) =>
      if InCallback(pc) && pc.sub.Admitted? && LockFree(s) then Some(Push(WithSub(s, w, ToSignal))) else None
    case InnerSignal(_, v) =>
      if InCallback(pc) && pc.sub.ToSignal? && SignalPicks(s, v) then Some(Signal(WithSub(s, w, Idle), v)) else None
    case _ => None
  }

  /** One step of client c. */
  function ClientNext(s: State, l: Label, c: nat): Option<State>
    requires c < |s.clients|
  {
    var pc := s.clients[c];
    match l
    case SubmitCheck(_) =>
      if pc.Outside? && !s.shared.destroyed then Some(WithClient(s, c, SubmitAdmitted)) else None
    case SubmitPush(_) =>
      if pc.SubmitAdmitted? && LockFree(s) then Some(Push(WithClient(s, c, SubmitToSignal))) else None
    case SubmitSignal(_, v) =>
      if pc.SubmitToSignal? && SignalPicks(s, v) then Some(Signal(WithClient(s, c, Outside), v)) else None
    case CancelCheck(_, t) =>
      if pc.Outside? && !s.shared.destroyed then Some(WithClient(s, c, CancelActive(t))) else None
    case TryActive(_) =>
      if pc.CancelActive? then
        var found := pc.task in s.shared.active;
        Some(WithClient(s, c, if found then Outside else CancelPending(pc.task))
             .(shared := CancelIn(s.shared, s.shared.active, pc.task)))
      else None
    case TryPending(_) =>
      if pc.CancelPending? && LockFree(s) then
        Some(WithClient(s, c, Outside).(shared := CancelIn(s.shared, s.shared.pending, pc.task)))
      else None
    case _ => None
  }

  function DestroyNext(s: State, l: Label): Option<State> {
    match l
    case SetDestroyed =>
      if s.destroyer.NotCalled? then
        Some(s.(shared := s.shared.(destroyed := true), destroyer := FlagSet,
                quiet := forall c :: 0 <= c < |s.clients| ==> !s.clients[c].SubmitAdmitted?))
      else None
    case Broadcast =>
      // SDL_CondBroadcast does not take the queue's lock
      if s.destroyer.FlagSet? then Some(s.(workers := WakeAll(s.workers), destroyer := Joining)) else None
    case Join =>
      if s.destroyer.Joining? && AllExited(s) then Some(s.(destroyer := Joined)) else None
    case _ => None
  }

  predicate AllExited(s: State) {
    forall w :: 0 <= w < |s.workers| ==> s.workers[w].Exited?
  }

  predicate IsPoll(l: Label) {
    l.Take? || l.FindEmpty? || l.SeeDestroyed? || l.KeepWaiting? || l.FallAsleep? || l.WakeUp?
  }

  predicate IsInner(l: Label) { l.InnerCheck? || l.InnerPush? || l.InnerSignal? }

  predicate IsClient(l: Label) {
    l.SubmitCheck? || l.SubmitPush? || l.SubmitSignal? || l.CancelCheck? || l.TryActive? || l.TryPending?
  }

  predicate IsDestroy(l: Label) { l.SetDestroyed? || l.Broadcast? || l.Join? }

  function Next(s: State, l: Label): Option<State> {
    if IsDestroy(l) then DestroyNext(s, l)
    else if IsClient(l) then if l.c < |s.clients| then ClientNext(s, l, l.c) else None
    else if l.w >= |s.workers| then None
    else if IsPoll(l) then PollNext(s, l, l.w)
    else if IsInner(l) then InnerNext(s, l, l.w)
    else RunNext(s, l, l.w)
  }

  /** s' is reached from s by the steps ls. */
  predicate Steps(s: State, ls: seq<Label>, s': State)
    decreases |ls|
  {
    if ls == [] then s' == s
    else Next(s, ls[0]).Some? && Steps(Next(s, ls[0]).value, ls[1..], s')
  }
}
