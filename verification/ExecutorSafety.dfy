/** What every step of the executor keeps.  The invariants are stated over the parts
    of the state they depend on; `Inv` is their conjunction. */
module ExecutorSafety {
  import opened ExecutorShared
  import opened ExecutorProtocol

  // ---------- the pending queue ----------

  /** n, n + 1, ..., n + m - 1 */
  function Range(n: nat, m: nat): (r: seq<nat>)
    ensures |r| == m
    ensures forall i :: 0 <= i < m ==> r[i] == n + i
  {
    seq(m, i => n + i)
  }

  /** First in, first out: tasks leave the pending queue in the order in which they were pushed. */
  predicate FifoInv(s: State) {
    s.taken + s.shared.pending == Range(0, s.next)
  }

  /** The task at the front of the pending queue is the one after all taken ones. */
  lemma NextTask(s: State)
    requires FifoInv(s) && s.shared.pending != []
    ensures s.shared.pending[0] == |s.taken|
  {
    assert (s.taken + s.shared.pending)[|s.taken|] == s.shared.pending[0];
  }

  /** The queue, the tasks taken from it and the number of tasks, before and after a step. */
  predicate Fifo(taken: seq<nat>, pending: seq<nat>, next: nat, taken': seq<nat>, pending': seq<nat>, next': nat) {
    || (taken' == taken && pending' == pending && next' == next)
    || (pending != [] && taken' == taken + [pending[0]] && pending' == pending[1..] && next' == next)
    || (taken' == taken && pending' == pending + [next] && next' == next + 1)
    || (taken' == taken + pending && pending' == [] && next' == next)
  }

  lemma FifoWorker(s: State, l: Label, w: nat)
    requires w < |s.workers| && (PollNext(s, l, w).Some? || RunNext(s, l, w).Some?)
    ensures var s' := if PollNext(s, l, w).Some? then PollNext(s, l, w).value else RunNext(s, l, w).value;
      Fifo(s.taken, s.shared.pending, s.next, s'.taken, s'.shared.pending, s'.next)
  {
  }

  lemma FifoSide(s: State, l: Label)
    requires Next(s, l).Some? && (IsInner(l) || IsClient(l) || IsDestroy(l))
    ensures var s' := Next(s, l).value;
      Fifo(s.taken, s.shared.pending, s.next, s'.taken, s'.shared.pending, s'.next)
  {
  }

  lemma FifoRange(taken: seq<nat>, pending: seq<nat>, next: nat, taken': seq<nat>, pending': seq<nat>, next': nat)
    requires Fifo(taken, pending, next, taken', pending', next') && taken + pending == Range(0, next)
    ensures taken' + pending' == Range(0, next') && taken <= taken'
  {
    assert Range(0, next + 1) == Range(0, next) + [next];
    if pending != [] {
      assert taken + [pending[0]] + pending[1..] == taken + pending;
    }
    assert taken + (pending + [next]) == taken + pending + [next];
    assert taken + pending + [] == taken + pending;
  }

  lemma FifoStep(s: State, l: Label)
    requires FifoInv(s) && Next(s, l).Some?
    ensures FifoInv(Next(s, l).value)
    ensures s.taken <= Next(s, l).value.taken
  {
    hide PollNext, RunNext, InnerNext, ClientNext, DestroyNext, Fifo;
    var s' := Next(s, l).value;
    if IsInner(l) || IsClient(l) || IsDestroy(l) {
      FifoSide(s, l);
    } else {
      NotBoth(s, l, l.w);
      FifoWorker(s, l, l.w);
    }
    FifoRange(s.taken, s.shared.pending, s.next, s'.taken, s'.shared.pending, s'.next);
  }

  /** A label is a step of queue_poll or of the rest of thread_worker, not of both. */
  lemma NotBoth(s: State, l: Label, w: nat)
    requires w < |s.workers|
    ensures IsPoll(l) ==> RunNext(s, l, w).None?
    ensures !IsPoll(l) ==> PollNext(s, l, w).None?
  {
  }

  /** Whoever keeps the pending lock across steps found the queue empty, and is alone. */
  predicate LockInv(ws: seq<Pc>, pending: seq<nat>) {
    && (forall w :: 0 <= w < |ws| && Holding(ws[w]) ==> pending == [])
    && (forall v, w :: 0 <= v < w < |ws| ==> !(Holding(ws[v]) && Holding(ws[w])))
  }

  lemma LockPoll(s: State, l: Label, w: nat)
    requires LockInv(s.workers, s.shared.pending) && w < |s.workers| && PollNext(s, l, w).Some?
    ensures var s' := PollNext(s, l, w).value; LockInv(s'.workers, s'.shared.pending)
  {
  }

  lemma LockRun(s: State, l: Label, w: nat)
    requires LockInv(s.workers, s.shared.pending) && w < |s.workers| && RunNext(s, l, w).Some?
    ensures var s' := RunNext(s, l, w).value; LockInv(s'.workers, s'.shared.pending)
  {
  }

  lemma LockInner(s: State, l: Label, w: nat)
    requires LockInv(s.workers, s.shared.pending) && w < |s.workers| && InnerNext(s, l, w).Some?
    ensures var s' := InnerNext(s, l, w).value; LockInv(s'.workers, s'.shared.pending)
  {
  }

  lemma LockClient(s: State, l: Label, c: nat)
    requires LockInv(s.workers, s.shared.pending) && c < |s.clients| && ClientNext(s, l, c).Some?
    ensures var s' := ClientNext(s, l, c).value; LockInv(s'.workers, s'.shared.pending)
  {
  }

  // ---------- who holds which task ----------

  /** `holder` names the one worker that holds a task; held tasks are among the first n. */
  predicate HolderInv(ws: seq<Pc>, holder: map<nat, nat>, n: nat) {
    && (forall w :: 0 <= w < |ws| && HasTask(ws[w]) ==> ws[w].task in holder && holder[ws[w].task] == w)
    && (forall t :: t in holder ==> t < n && holder[t] < |ws| && HasTask(ws[holder[t]]) && ws[holder[t]].task == t)
  }

  /** pc' holds the same task as pc, or neither holds one. */
  predicate SameTask(pc: Pc, pc': Pc) {
    HasTask(pc) == HasTask(pc') && (HasTask(pc) ==> pc.task == pc'.task)
  }

  lemma HolderKeep(ws: seq<Pc>, holder: map<nat, nat>, n: nat, w: nat, pc: Pc)
    requires HolderInv(ws, holder, n) && w < |ws| && SameTask(ws[w], pc)
    ensures HolderInv(ws[w := pc], holder, n)
  {
  }

  lemma HolderTake(ws: seq<Pc>, holder: map<nat, nat>, n: nat, w: nat)
    requires HolderInv(ws, holder, n) && w < |ws| && !HasTask(ws[w])
    ensures HolderInv(ws[w := Polled(n)], holder[n := w], n + 1)
  {
  }

  lemma HolderDrop(ws: seq<Pc>, holder: map<nat, nat>, n: nat, w: nat, pc: Pc)
    requires HolderInv(ws, holder, n) && w < |ws| && HasTask(ws[w]) && !HasTask(pc)
    ensures HolderInv(ws[w := pc], holder - {ws[w].task}, n)
  {
  }

  lemma HolderPoll(s: State, l: Label, w: nat)
    requires FifoInv(s) && HolderInv(s.workers, s.holder, |s.taken|) && w < |s.workers| && PollNext(s, l, w).Some?
    ensures var s' := PollNext(s, l, w).value; HolderInv(s'.workers, s'.holder, |s'.taken|)
  {
    var s' := PollNext(s, l, w).value;
    if l.Take? {
      NextTask(s);
      HolderTake(s.workers, s.holder, |s.taken|, w);
    } else {
      HolderKeep(s.workers, s.holder, |s.taken|, w, s'.workers[w]);
    }
  }

  lemma HolderRun(s: State, l: Label, w: nat)
    requires HolderInv(s.workers, s.holder, |s.taken|) && w < |s.workers| && RunNext(s, l, w).Some?
    ensures var s' := RunNext(s, l, w).value; HolderInv(s'.workers, s'.holder, |s'.taken|)
  {
    var s' := RunNext(s, l, w).value;
    if l.Abandon? || l.Deactivate? {
      HolderDrop(s.workers, s.holder, |s.taken|, w, s'.workers[w]);
    } else {
      HolderKeep(s.workers, s.holder, |s.taken|, w, s'.workers[w]);
    }
  }

  // ---------- the active queue ----------

  /** The active queue holds exactly the tasks of the workers between push and remove, once each. */
  predicate ActiveInv(ws: seq<Pc>, holder: map<nat, nat>, active: seq<nat>) {
    && (forall i, j :: 0 <= i < j < |active| ==> active[i] != active[j])
    && (forall w :: 0 <= w < |ws| && InActive(ws[w]) ==> ws[w].task in active)
    && (forall t :: t in active ==> t in holder && holder[t] < |ws| && InActive(ws[holder[t]]) && ws[holder[t]].task == t)
  }

  lemma ActiveKeep(ws: seq<Pc>, holder: map<nat, nat>, active: seq<nat>, w: nat, pc: Pc)
    requires ActiveInv(ws, holder, active) && w < |ws|
    requires InActive(ws[w]) == InActive(pc) && SameTask(ws[w], pc)
    ensures ActiveInv(ws[w := pc], holder, active)
  {
  }

  lemma ActiveTake(ws: seq<Pc>, holder: map<nat, nat>, active: seq<nat>, w: nat, t: nat)
    requires ActiveInv(ws, holder, active) && w < |ws| && !HasTask(ws[w]) && t !in holder
    ensures ActiveInv(ws[w := Polled(t)], holder[t := w], active)
  {
  }

  lemma ActivePush(ws: seq<Pc>, holder: map<nat, nat>, active: seq<nat>, w: nat, n: nat)
    requires HolderInv(ws, holder, n) && ActiveInv(ws, holder, active) && w < |ws| && ws[w].Pushing?
    ensures ActiveInv(ws[w := Ready(ws[w].task)], holder, active + [ws[w].task])
  {
    assert ws[w].task !in active;
  }

  lemma ActiveRemove(ws: seq<Pc>, holder: map<nat, nat>, sh: Shared, w: nat, n: nat)
    requires HolderInv(ws, holder, n) && ActiveInv(ws, holder, sh.active) && w < |ws| && InActive(ws[w])
    ensures ActiveInv(ws[w := Polling], holder - {ws[w].task}, RemoveActive(sh, ws[w].task).active)
    ensures |RemoveActive(sh, ws[w].task).active| == |sh.active| - 1
  {
    var t := ws[w].task;
    var k := IndexOf(sh.active, t);
    var q := RemoveActive(sh, t).active;
    assert forall i :: 0 <= i < |q| ==> q[i] == sh.active[if i < k then i else i + 1];
    assert t !in q;
    forall u | u in sh.active && u != t
      ensures u in q
    {
      var i := IndexOf(sh.active, u);
      assert q[if i < k then i else i - 1] == u;
    }
  }

  lemma ActiveAbandon(ws: seq<Pc>, holder: map<nat, nat>, active: seq<nat>, w: nat, n: nat)
    requires HolderInv(ws, holder, n) && ActiveInv(ws, holder, active) && w < |ws| && ws[w].Abandoning?
    ensures ActiveInv(ws[w := Clearing], holder - {ws[w].task}, active)
  {
  }

  lemma ActivePoll(s: State, l: Label, w: nat)
    requires FifoInv(s) && HolderInv(s.workers, s.holder, |s.taken|)
    requires ActiveInv(s.workers, s.holder, s.shared.active) && w < |s.workers| && PollNext(s, l, w).Some?
    ensures var s' := PollNext(s, l, w).value; ActiveInv(s'.workers, s'.holder, s'.shared.active)
  {
    var s' := PollNext(s, l, w).value;
    if l.Take? {
      NextTask(s);
      ActiveTake(s.workers, s.holder, s.shared.active, w, |s.taken|);
    } else {
      ActiveKeep(s.workers, s.holder, s.shared.active, w, s'.workers[w]);
    }
  }

  lemma ActiveRun(s: State, l: Label, w: nat)
    requires HolderInv(s.workers, s.holder, |s.taken|)
    requires ActiveInv(s.workers, s.holder, s.shared.active) && w < |s.workers| && RunNext(s, l, w).Some?
    ensures var s' := RunNext(s, l, w).value; ActiveInv(s'.workers, s'.holder, s'.shared.active)
  {
    var s' := RunNext(s, l, w).value;
    if l.Abandon? {
      ActiveAbandon(s.workers, s.holder, s.shared.active, w, |s.taken|);
    } else if l.Deactivate? {
      ActiveRemove(s.workers, s.holder, s.shared, w, |s.taken|);
    } else if l.Activate? {
      ActivePush(s.workers, s.holder, s.shared.active, w, |s.taken|);
    } else {
      ActiveKeep(s.workers, s.holder, s.shared.active, w, s'.workers[w]);
    }
  }

  // ---------- steps that do not move a task ----------

  /** The worker is as far with its task as before; only a callback's own submit, or sleeping, may differ. */
  predicate SamePhase(pc: Pc, pc': Pc) {
    || pc' == pc
    || (pc.Asleep? && pc'.Polling?)
    || (pc.InAction? && pc'.InAction? && pc.task == pc'.task)
    || (pc.InFinalizer? && pc'.InFinalizer? && pc.task == pc'.task)
  }

  predicate SamePhases(ws: seq<Pc>, ws': seq<Pc>) {
    |ws| == |ws'| && forall w :: 0 <= w < |ws| ==> SamePhase(ws[w], ws'[w])
  }

  /** Submits, cancels, signals and executor_destroy leave every task where it is. */
  lemma SideStep(s: State, l: Label)
    requires Next(s, l).Some? && (IsInner(l) || IsClient(l) || IsDestroy(l))
    ensures var s' := Next(s, l).value;
      && SamePhases(s.workers, s'.workers)
      && s'.holder == s.holder && s'.taken == s.taken && s'.log == s.log && s'.shared.active == s.shared.active
  {
  }

  lemma SideLock(s: State, l: Label)
    requires LockInv(s.workers, s.shared.pending) && Next(s, l).Some? && (IsInner(l) || IsClient(l) || IsDestroy(l))
    ensures var s' := Next(s, l).value; LockInv(s'.workers, s'.shared.pending)
  {
    if IsInner(l) {
      LockInner(s, l, l.w);
    } else if IsClient(l) {
      LockClient(s, l, l.c);
    }
  }

  lemma SideHolder(ws: seq<Pc>, ws': seq<Pc>, holder: map<nat, nat>, n: nat)
    requires HolderInv(ws, holder, n) && SamePhases(ws, ws')
    ensures HolderInv(ws', holder, n)
  {
  }

  lemma SideActive(ws: seq<Pc>, ws': seq<Pc>, holder: map<nat, nat>, active: seq<nat>)
    requires ActiveInv(ws, holder, active) && SamePhases(ws, ws')
    ensures ActiveInv(ws', holder, active)
  {
  }

  // ---------- the history of a task ----------

  /** The events of the log that are about task t. */
  function History(log: seq<Event>, t: nat): (h: seq<Event>)
    ensures forall i :: 0 <= i < |h| ==> h[i].task == t
  {
    if log == [] then []
    else (if log[0].task == t then [log[0]] else []) + History(log[1..], t)
  }

  lemma {:induction false} HistoryConcat(a: seq<Event>, b: seq<Event>, t: nat)
    ensures History(a + b, t) == History(a, t) + History(b, t)
  {
    if a == [] {
      assert a + b == b;
    } else {
      assert (a + b)[1..] == a[1..] + b;
      HistoryConcat(a[1..], b, t);
    }
  }

  lemma HistoryAbout(ext: seq<Event>, t: nat, u: nat)
    requires forall i :: 0 <= i < |ext| ==> ext[i].task == t
    ensures History(ext, u) == if u == t then ext else []
  {
    if ext != [] {
      HistoryAbout(ext[1..], t, u);
    }
  }

  /** The action ran: it was started, it returned. */
  predicate Ran(h: seq<Event>) {
    |h| == 2 && h[0].Started? && h[1].Returned?
  }

  /** All that may ever happen to a task: it is finalized with ECANCELED without having run,
      or it is started, returns, and is finalized with its result or with ECANCELED. */
  predicate Complete(h: seq<Event>, t: nat) {
    || h == [Finalized(t, ECANCELED)]
    || (|h| == 3 && Ran(h[..2]) && h[2].Finalized? && (h[2].result == h[1].result || h[2].result == ECANCELED))
  }

  /** How far the history of the task held by a worker has come. */
  predicate PhaseOk(pc: Pc, h: seq<Event>, t: nat) {
    match pc
    case Polled(_) => h == []
    case Abandoning(_) => h == []
    case Pushing(_) => h == []
    case Ready(_) => h == []
    case InAction(_, _) => |h| == 1 && h[0].Started?
    case Acted(_, r) => (h == [] && r == ECANCELED) || (Ran(h) && r == h[1].result)
    case ToFinalize(_, r) => (h == [] && r == ECANCELED) || (Ran(h) && (r == h[1].result || r == ECANCELED))
    case InFinalizer(_, _) => Complete(h, t)
    case Removing(_) => Complete(h, t)
    case _ => false
  }

  predicate TaskOk(ws: seq<Pc>, holder: map<nat, nat>, n: nat, h: seq<Event>, t: nat) {
    if t in holder then holder[t] < |ws| && PhaseOk(ws[holder[t]], h, t)
    else if t < n then Complete(h, t)
    else h == []
  }

  /** Every task: still queued and untouched, held with a fitting history, or finished with a complete one. */
  ghost predicate HistInv(ws: seq<Pc>, holder: map<nat, nat>, n: nat, log: seq<Event>) {
    forall t: nat :: TaskOk(ws, holder, n, History(log, t), t)
  }

  lemma SideHist(ws: seq<Pc>, ws': seq<Pc>, holder: map<nat, nat>, n: nat, log: seq<Event>)
    requires HistInv(ws, holder, n, log) && SamePhases(ws, ws')
    ensures HistInv(ws', holder, n, log)
  {
    forall t: nat
      ensures TaskOk(ws', holder, n, History(log, t), t)
    {
      assert TaskOk(ws, holder, n, History(log, t), t);
      if t in holder {
        assert SamePhase(ws[holder[t]], ws'[holder[t]]);
      }
    }
  }

  lemma HistTake(ws: seq<Pc>, holder: map<nat, nat>, n: nat, log: seq<Event>, w: nat)
    requires HolderInv(ws, holder, n) && HistInv(ws, holder, n, log) && w < |ws| && !HasTask(ws[w])
    ensures HistInv(ws[w := Polled(n)], holder[n := w], n + 1, log)
  {
    forall t: nat
      ensures TaskOk(ws[w := Polled(n)], holder[n := w], n + 1, History(log, t), t)
    {
      assert TaskOk(ws, holder, n, History(log, t), t);
    }
  }

  lemma HistIdle(ws: seq<Pc>, holder: map<nat, nat>, n: nat, log: seq<Event>, w: nat, pc: Pc)
    requires HolderInv(ws, holder, n) && HistInv(ws, holder, n, log) && w < |ws| && !HasTask(ws[w]) && !HasTask(pc)
    ensures HistInv(ws[w := pc], holder, n, log)
  {
    forall t: nat
      ensures TaskOk(ws[w := pc], holder, n, History(log, t), t)
    {
      assert TaskOk(ws, holder, n, History(log, t), t);
    }
  }

  /** A worker goes on with its task and logs ext, all about that task. */
  lemma HistMove(ws: seq<Pc>, holder: map<nat, nat>, n: nat, log: seq<Event>, w: nat, pc: Pc, ext: seq<Event>)
    requires HolderInv(ws, holder, n) && HistInv(ws, holder, n, log) && w < |ws|
    requires HasTask(ws[w]) && SameTask(ws[w], pc)
    requires forall i :: 0 <= i < |ext| ==> ext[i].task == ws[w].task
    requires PhaseOk(pc, History(log, ws[w].task) + ext, ws[w].task)
    ensures HistInv(ws[w := pc], holder, n, log + ext)
  {
    forall t: nat
      ensures TaskOk(ws[w := pc], holder, n, History(log + ext, t), t)
    {
      assert TaskOk(ws, holder, n, History(log, t), t);
      HistoryConcat(log, ext, t);
      HistoryAbout(ext, ws[w].task, t);
    }
  }

  /** A worker is done with its task and lets go of it. */
  lemma HistLeave(ws: seq<Pc>, holder: map<nat, nat>, n: nat, log: seq<Event>, w: nat, pc: Pc, ext: seq<Event>)
    requires HolderInv(ws, holder, n) && HistInv(ws, holder, n, log) && w < |ws|
    requires HasTask(ws[w]) && !HasTask(pc)
    requires forall i :: 0 <= i < |ext| ==> ext[i].task == ws[w].task
    requires Complete(History(log, ws[w].task) + ext, ws[w].task)
    ensures HistInv(ws[w := pc], holder - {ws[w].task}, n, log + ext)
  {
    forall t: nat
      ensures TaskOk(ws[w := pc], holder - {ws[w].task}, n, History(log + ext, t), t)
    {
      assert TaskOk(ws, holder, n, History(log, t), t);
      HistoryConcat(log, ext, t);
      HistoryAbout(ext, ws[w].task, t);
    }
  }

  /** Clearing the queue finalizes each queued task once. */
  lemma {:induction false} HistoryCancelAll(n: nat, m: nat, t: nat)
    ensures History(CancelAll(Range(n, m)), t) == if n <= t < n + m then [Finalized(t, ECANCELED)] else []
    decreases m
  {
    if m > 0 {
      assert CancelAll(Range(n, m)) == [Finalized(n, ECANCELED)] + CancelAll(Range(n + 1, m - 1));
      HistoryCancelAll(n + 1, m - 1, t);
    }
  }

  lemma HistClear(ws: seq<Pc>, holder: map<nat, nat>, n: nat, log: seq<Event>, m: nat)
    requires HolderInv(ws, holder, n) && HistInv(ws, holder, n, log)
    ensures HistInv(ws, holder, n + m, log + CancelAll(Range(n, m)))
  {
    forall t: nat
      ensures TaskOk(ws, holder, n + m, History(log + CancelAll(Range(n, m)), t), t)
    {
      assert TaskOk(ws, holder, n, History(log, t), t);
      HistoryConcat(log, CancelAll(Range(n, m)), t);
      HistoryCancelAll(n, m, t);
    }
  }

  lemma PendingRange(s: State)
    requires FifoInv(s)
    ensures s.shared.pending == Range(|s.taken|, |s.shared.pending|)
    ensures s.next == |s.taken| + |s.shared.pending|
  {
    forall i | 0 <= i < |s.shared.pending|
      ensures s.shared.pending[i] == |s.taken| + i
    {
      assert (s.taken + s.shared.pending)[|s.taken| + i] == s.shared.pending[i];
    }
  }

  lemma HistPoll(s: State, l: Label, w: nat)
    requires FifoInv(s) && HolderInv(s.workers, s.holder, |s.taken|)
    requires HistInv(s.workers, s.holder, |s.taken|, s.log) && w < |s.workers| && PollNext(s, l, w).Some?
    ensures var s' := PollNext(s, l, w).value; HistInv(s'.workers, s'.holder, |s'.taken|, s'.log)
  {
    var s' := PollNext(s, l, w).value;
    if l.Take? {
      NextTask(s);
      HistTake(s.workers, s.holder, |s.taken|, s.log, w);
    } else {
      HistIdle(s.workers, s.holder, |s.taken|, s.log, w, s'.workers[w]);
    }
  }

  /** What a step of thread_worker adds to the log. */
  function Logged(s: State, l: Label, w: nat): (ext: seq<Event>)
    requires w < |s.workers| && RunNext(s, l, w).Some?
    ensures RunNext(s, l, w).value.log == s.log + ext
  {
    var pc := s.workers[w];
    match l
    case Abandon(_) => [Finalized(pc.task, ECANCELED)]
    case Begin(_) => if pc.task in s.shared.cancelled then [] else [Started(w, pc.task)]
    case ActionReturns(_, r) => [Returned(pc.task, r)]
    case Finalize(_) => [Finalized(pc.task, pc.result)]
    case Clear(_) => CancelAll(s.shared.pending)
    case _ => []
  }

  lemma HistRun(s: State, l: Label, w: nat)
    requires FifoInv(s) && HolderInv(s.workers, s.holder, |s.taken|)
    requires HistInv(s.workers, s.holder, |s.taken|, s.log) && w < |s.workers| && RunNext(s, l, w).Some?
    ensures var s' := RunNext(s, l, w).value; HistInv(s'.workers, s'.holder, |s'.taken|, s'.log)
  {
    if l.Clear? {
      HistClearStep(s, l, w);
    } else {
      HistTaskStep(s, l, w);
    }
  }

  lemma HistClearStep(s: State, l: Label, w: nat)
    requires FifoInv(s) && HolderInv(s.workers, s.holder, |s.taken|)
    requires HistInv(s.workers, s.holder, |s.taken|, s.log) && w < |s.workers| && RunNext(s, l, w).Some? && l.Clear?
    ensures var s' := RunNext(s, l, w).value; HistInv(s'.workers, s'.holder, |s'.taken|, s'.log)
  {
    hide HistInv, HolderInv;
    HolderKeep(s.workers, s.holder, |s.taken|, w, Exited);
    HistIdle(s.workers, s.holder, |s.taken|, s.log, w, Exited);
    PendingRange(s);
    HistClear(s.workers[w := Exited], s.holder, |s.taken|, s.log, |s.shared.pending|);
  }

  lemma HistTaskStep(s: State, l: Label, w: nat)
    requires HolderInv(s.workers, s.holder, |s.taken|)
    requires HistInv(s.workers, s.holder, |s.taken|, s.log) && w < |s.workers| && RunNext(s, l, w).Some? && !l.Clear?
    ensures var s' := RunNext(s, l, w).value; HistInv(s'.workers, s'.holder, |s'.taken|, s'.log)
  {
    var pc, pc', ext := s.workers[w], RunNext(s, l, w).value.workers[w], Logged(s, l, w);
    assert TaskOk(s.workers, s.holder, |s.taken|, History(s.log, pc.task), pc.task);
    hide HistInv;
    if l.Abandon? || l.Deactivate? {
      HistLeave(s.workers, s.holder, |s.taken|, s.log, w, pc', ext);
    } else {
      RunPhase(s, l, w, History(s.log, pc.task));
      HistMove(s.workers, s.holder, |s.taken|, s.log, w, pc', ext);
    }
  }

  /** Each step of thread_worker that keeps its task extends the task's history as the next phase wants it. */
  lemma RunPhase(s: State, l: Label, w: nat, h: seq<Event>)
    requires w < |s.workers| && RunNext(s, l, w).Some? && !l.Clear? && !l.Abandon? && !l.Deactivate?
    requires PhaseOk(s.workers[w], h, s.workers[w].task)
    ensures PhaseOk(RunNext(s, l, w).value.workers[w], h + Logged(s, l, w), s.workers[w].task)
  {
    var ext := Logged(s, l, w);
    if ext == [] {
      assert h + ext == h;
    } else if |h| == 2 {
      assert (h + ext)[..2] == h;
    }
  }
}
