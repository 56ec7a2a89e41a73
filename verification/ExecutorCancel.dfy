/** What executor_cancel does to a task: it looks for it in the active queue, then in the pending queue, under different
    locks (util/executor/executor.c). */
module ExecutorCancel {
  import opened ExecutorShared
  import opened ExecutorProtocol
  import opened ExecutorSafety
  import opened ExecutorInvariant
  import opened ExecutorTheorems

  /** The action of task t has been invoked. */
  predicate HasStarted(log: seq<Event>, t: nat) {
    exists i :: 0 <= i < |log| && log[i].Started? && log[i].task == t
  }

  lemma StartedInHistory(log: seq<Event>, t: nat)
    ensures HasStarted(log, t) <==> HasStarted(History(log, t), t)
  {
    if HasStarted(log, t) {
      var i :| 0 <= i < |log| && log[i].Started? && log[i].task == t;
      HistoryRank(log, i);
    } else {
      NoneInHistory(log, t);
    }
  }

  lemma {:induction false} NoneInHistory(log: seq<Event>, t: nat)
    requires !HasStarted(log, t)
    ensures !HasStarted(History(log, t), t)
  {
    if log != [] {
      assert !(log[0].Started? && log[0].task == t);
      assert forall i :: 0 <= i < |log[1..]| ==> log[1..][i] == log[i + 1];
      NoneInHistory(log[1..], t);
    }
  }

  // ---------- logs and clients over a run ----------

  lemma LogStep(s: State, l: Label)
    requires Next(s, l).Some?
    ensures s.log <= Next(s, l).value.log
  {
    if IsInner(l) || IsClient(l) || IsDestroy(l) {
      SideStep(s, l);
    } else if !IsPoll(l) {
      var _ := Logged(s, l, l.w);
    }
  }

  lemma {:induction false} LogGrows(s: State, ls: seq<Label>, s': State)
    requires Steps(s, ls, s')
    ensures s.log <= s'.log
    decreases |ls|
  {
    if ls != [] {
      LogStep(s, ls[0]);
      LogGrows(Next(s, ls[0]).value, ls[1..], s');
    }
  }

  lemma HistoryGrows(s: State, ls: seq<Label>, s': State, t: nat)
    requires Steps(s, ls, s')
    ensures History(s.log, t) <= History(s'.log, t)
  {
    LogGrows(s, ls, s');
    assert s'.log == s.log + s'.log[|s.log|..];
    HistoryConcat(s.log, s'.log[|s.log|..], t);
  }

  /** Only client c moves client c. */
  lemma ClientStays(s: State, l: Label, c: nat)
    requires Next(s, l).Some? && c < |s.clients| && !(IsClient(l) && l.c == c)
    ensures |Next(s, l).value.clients| == |s.clients| && Next(s, l).value.clients[c] == s.clients[c]
  {
  }

  predicate Elsewhere(ls: seq<Label>, c: nat) {
    forall i :: 0 <= i < |ls| ==> !(IsClient(ls[i]) && ls[i].c == c)
  }

  lemma {:induction false} ClientWaits(s: State, ls: seq<Label>, s': State, c: nat)
    requires Steps(s, ls, s') && c < |s.clients| && Elsewhere(ls, c)
    ensures |s'.clients| == |s.clients| && s'.clients[c] == s.clients[c]
    decreases |ls|
  {
    hide Next;
    if ls != [] {
      ClientStays(s, ls[0], c);
      ClientWaits(Next(s, ls[0]).value, ls[1..], s', c);
    }
  }

  // ---------- a task that is found ----------

  /** With step l a call of executor_cancel finds its task t, in the one queue or the other. */
  predicate Finds(s: State, l: Label, t: nat) {
    && Next(s, l).Some? && (l.TryActive? || l.TryPending?) && s.clients[l.c].task == t
    && t in (if l.TryActive? then s.shared.active else s.shared.pending)
  }

  lemma FindingDooms(s: State, l: Label, t: nat)
    requires Inv(s) && Finds(s, l, t) && !HasStarted(s.log, t)
    ensures Doomed(Next(s, l).value, t)
  {
    hide History;
    assert TaskOk(s.workers, s.holder, |s.taken|, History(s.log, t), t);
    StartedInHistory(s.log, t);
    NotStarted(s, History(s.log, t), t);
  }

  /** A legal history without a start is empty or the task's cancellation. */
  lemma NotStarted(s: State, h: seq<Event>, t: nat)
    requires TaskOk(s.workers, s.holder, |s.taken|, h, t) && !HasStarted(h, t)
    requires forall i :: 0 <= i < |h| ==> h[i].task == t
    ensures h == [] || h == [Finalized(t, ECANCELED)]
  {
    assert |h| > 0 ==> !h[0].Started?;
  }

  /** When executor_cancel finds the task, in whatever state, its action is invoked, in any continuation, exactly if it had
      been before; and if not, nothing happens to the task any more but that it is finalized with ECANCELED. */
  lemma FoundStopsExactly(threads: nat, clients: nat, s: State, l: Label, t: nat, ls: seq<Label>, s': State)
    requires Reachable(threads, clients, s) && Finds(s, l, t) && Steps(Next(s, l).value, ls, s')
    ensures HasStarted(s'.log, t) <==> HasStarted(s.log, t)
    ensures !HasStarted(s.log, t) ==>
      forall i :: 0 <= i < |s'.log| && s'.log[i].task == t ==> s'.log[i] == Finalized(t, ECANCELED)
  {
    var s1 := Next(s, l).value;
    Safety(threads, clients, s);
    LogStep(s, l);
    LogGrows(s1, ls, s');
    if HasStarted(s.log, t) {
      var i :| 0 <= i < |s.log| && s.log[i].Started? && s.log[i].task == t;
      assert s'.log[i] == s.log[i];
    } else {
      FindingDooms(s, l, t);
      InvStep(s, l);
      DoomedSteps(s1, ls, s', t);
      hide Next, Doomed;
      forall i | 0 <= i < |s'.log| && s'.log[i].task == t
        ensures s'.log[i] == Finalized(t, ECANCELED)
      {
        DoomedEvent(s', t, i);
      }
    }
  }

  lemma DoomedEvent(s: State, t: nat, i: nat)
    requires Doomed(s, t) && i < |s.log| && s.log[i].task == t
    ensures s.log[i] == Finalized(t, ECANCELED)
  {
    HistoryRank(s.log, i);
  }

  // ---------- a task that is missed ----------

  /** The worker has taken task t from the queue and not finalized it. */
  predicate Underway(pc: Pc, t: nat) {
    HasTask(pc) && pc.task == t && !pc.InFinalizer? && !pc.Removing?
  }

  /** The worker has taken task t from the pending queue and not put it on the active queue. */
  predicate Between(pc: Pc, t: nat) {
    (pc.Polled? || pc.Abandoning? || pc.Pushing?) && pc.task == t
  }

  /** A pushed task is queued, or with one worker, or finalized. */
  lemma WhereTaskIs(s: State, t: nat)
    requires Inv(s) && t < s.next
    ensures t in s.shared.pending <==> |s.taken| <= t
    ensures t !in s.shared.pending && !Complete(History(s.log, t), t) <==>
            exists w :: 0 <= w < |s.workers| && Underway(s.workers[w], t)
  {
    hide History;
    PendingRange(s);
    if t >= |s.taken| {
      assert s.shared.pending[t - |s.taken|] == t;
    }
    assert TaskOk(s.workers, s.holder, |s.taken|, History(s.log, t), t);
    if w :| 0 <= w < |s.workers| && Underway(s.workers[w], t) {
      assert s.holder[t] == w;
      NotComplete(s.workers[w], History(s.log, t), t);
    } else if t in s.holder {
      assert !Underway(s.workers[s.holder[t]], t);
    }
  }

  lemma NotComplete(pc: Pc, h: seq<Event>, t: nat)
    requires Underway(pc, t) && PhaseOk(pc, h, t)
    ensures !Complete(h, t)
  {
  }

  lemma CompleteStays(threads: nat, clients: nat, s: State, ls: seq<Label>, s': State, t: nat)
    requires Reachable(threads, clients, s) && Steps(s, ls, s') && Complete(History(s.log, t), t)
    ensures Complete(History(s'.log, t), t)
  {
    HistoryGrows(s, ls, s', t);
    Safety(threads, clients, s);
    InvSteps(s, ls, s');
    assert TaskOk(s'.workers, s'.holder, |s'.taken|, History(s'.log, t), t);
    NoMore(s', History(s.log, t), History(s'.log, t), t);
  }

  lemma NoMore(s: State, h: seq<Event>, h': seq<Event>, t: nat)
    requires Complete(h, t) && h <= h' && TaskOk(s.workers, s.holder, |s.taken|, h', t)
    ensures Complete(h', t)
  {
    assert h'[0] == h[0];
  }

  /** A call of executor_cancel that has not found task t in the active queue and comes to search the pending queue misses
      it, although it has not been finalized, exactly if a worker has taken it by then; and this worker had not put it on the
      active queue when that was searched. */
  lemma MissesExactly(threads: nat, clients: nat, s: State, c: nat, ls: seq<Label>, s': State)
    requires Reachable(threads, clients, s) && Next(s, TryActive(c)).Some?
    requires s.clients[c].task < s.next && s.clients[c].task !in s.shared.active
    requires Steps(Next(s, TryActive(c)).value, ls, s') && Elsewhere(ls, c) && Next(s', TryPending(c)).Some?
    ensures var t := s.clients[c].task;
      && s'.clients[c].task == t
      && (t !in s'.shared.pending && !Complete(History(s'.log, t), t) <==>
          exists w :: 0 <= w < |s'.workers| && Underway(s'.workers[w], t))
      && (t !in s'.shared.pending && !Complete(History(s'.log, t), t) ==>
          t in s.shared.pending || exists w :: 0 <= w < |s.workers| && Between(s.workers[w], t))
  {
    var t := s.clients[c].task;
    var s1 := Next(s, TryActive(c)).value;
    Safety(threads, clients, s);
    ClientWaits(s1, ls, s', c);
    assert s1.next == s.next && s1.log == s.log;
    InvStep(s, TryActive(c));
    InvSteps(s1, ls, s');
    NextGrows(s1, ls, s');
    WhereTaskIs(s', t);
    WhereTaskIs(s, t);
    if t !in s'.shared.pending && !Complete(History(s'.log, t), t) {
      if Complete(History(s.log, t), t) {
        var _ := Extend(threads, clients, s, TryActive(c));
        CompleteStays(threads, clients, s1, ls, s', t);
      } else if t !in s.shared.pending {
        var w :| 0 <= w < |s.workers| && Underway(s.workers[w], t);
        assert Between(s.workers[w], t);
      }
    }
  }

  lemma {:induction false} NextGrows(s: State, ls: seq<Label>, s': State)
    requires Inv(s) && Steps(s, ls, s')
    ensures s.next <= s'.next
    decreases |ls|
  {
    hide Next;
    if ls != [] {
      InvStep(s, ls[0]);
      NextStep(s, ls[0]);
      NextGrows(Next(s, ls[0]).value, ls[1..], s');
    }
  }

  // ---------- whether a missed task still runs ----------

  /** In some continuation the action of task t is invoked. */
  ghost predicate MayStart(s: State, t: nat) {
    exists ls, s' :: Steps(s, ls, s') && HasStarted(s'.log, t)
  }

  /** A worker with task t is on its way to the action. */
  predicate OnItsWay(pc: Pc, t: nat, destroyed: bool) {
    ((pc.Polled? && !destroyed) || pc.Pushing? || pc.Ready?) && pc.task == t
  }

  predicate StillToStart(s: State, t: nat) {
    t !in s.shared.cancelled && exists w :: 0 <= w < |s.workers| && OnItsWay(s.workers[w], t, s.shared.destroyed)
  }

  /** Task t has been taken, has not been started, and will not be. */
  predicate Past(s: State, t: nat) {
    t < |s.taken| && !HasStarted(History(s.log, t), t) && !StillToStart(s, t)
  }

  lemma PastSide(s: State, l: Label, t: nat)
    requires Next(s, l).Some? && (IsInner(l) || IsClient(l) || IsDestroy(l)) && Past(s, t)
    ensures Past(Next(s, l).value, t)
  {
    var s' := Next(s, l).value;
    SideStep(s, l);
    SideFlags(s, l);
    hide Next, History, HasStarted;
    forall w | 0 <= w < |s.workers| && OnItsWay(s'.workers[w], t, s'.shared.destroyed)
      ensures OnItsWay(s.workers[w], t, s.shared.destroyed)
    {
      assert SamePhase(s.workers[w], s'.workers[w]);
    }
  }

  lemma SideFlags(s: State, l: Label)
    requires Next(s, l).Some? && (IsInner(l) || IsClient(l) || IsDestroy(l))
    ensures s.shared.cancelled <= Next(s, l).value.shared.cancelled
    ensures s.shared.destroyed ==> Next(s, l).value.shared.destroyed
  {
  }

  lemma PastPoll(s: State, l: Label, w: nat, t: nat)
    requires FifoInv(s) && w < |s.workers| && PollNext(s, l, w).Some? && Past(s, t)
    ensures Past(PollNext(s, l, w).value, t)
  {
    hide History, HasStarted;
    if l.Take? {
      NextTask(s);
    }
    var s' := PollNext(s, l, w).value;
    forall v | 0 <= v < |s.workers| && OnItsWay(s'.workers[v], t, s'.shared.destroyed)
      ensures OnItsWay(s.workers[v], t, s.shared.destroyed)
    {
    }
  }

  lemma PastRun(s: State, l: Label, w: nat, t: nat)
    requires FifoInv(s) && w < |s.workers| && RunNext(s, l, w).Some? && Past(s, t)
    ensures Past(RunNext(s, l, w).value, t)
  {
    var s' := RunNext(s, l, w).value;
    HistoryRun(s, l, w, t);
    StartsOnItsWay(s, l, w, t);
    NoStart(History(s.log, t), NewEvents(s, l, w, t), t);
    RunKeepsWay(s, l, w, t);
  }

  /** Only a worker on its way to the action of an unflagged task logs that it starts it. */
  lemma StartsOnItsWay(s: State, l: Label, w: nat, t: nat)
    requires w < |s.workers| && RunNext(s, l, w).Some? && !StillToStart(s, t)
    ensures !HasStarted(NewEvents(s, l, w, t), t)
  {
    var ext := NewEvents(s, l, w, t);
    if l.Begin? && t == s.workers[w].task {
      assert OnItsWay(s.workers[w], t, s.shared.destroyed);
    }
    assert |ext| <= 1;
  }

  lemma NoStart(h: seq<Event>, ext: seq<Event>, t: nat)
    requires !HasStarted(h, t) && !HasStarted(ext, t)
    ensures !HasStarted(h + ext, t)
  {
  }

  lemma RunKeepsWay(s: State, l: Label, w: nat, t: nat)
    requires w < |s.workers| && RunNext(s, l, w).Some? && !StillToStart(s, t)
    ensures !StillToStart(RunNext(s, l, w).value, t) && |s.taken| <= |RunNext(s, l, w).value.taken|
  {
    var s' := RunNext(s, l, w).value;
    assert s'.shared.cancelled == s.shared.cancelled && s'.shared.destroyed == s.shared.destroyed;
    forall v | 0 <= v < |s.workers| && OnItsWay(s'.workers[v], t, s'.shared.destroyed)
      ensures OnItsWay(s.workers[v], t, s.shared.destroyed)
    {
    }
  }

  lemma {:induction false} PastSteps(s: State, ls: seq<Label>, s': State, t: nat)
    requires Inv(s) && Steps(s, ls, s') && Past(s, t)
    ensures Past(s', t)
    decreases |ls|
  {
    if ls != [] {
      InvStep(s, ls[0]);
      PastStep(s, ls[0], t);
      PastSteps(Next(s, ls[0]).value, ls[1..], s', t);
    }
  }

  lemma PastStep(s: State, l: Label, t: nat)
    requires Inv(s) && Next(s, l).Some? && Past(s, t)
    ensures Past(Next(s, l).value, t)
  {
    hide PollNext, RunNext, InnerNext, ClientNext, DestroyNext, Past;
    if IsInner(l) || IsClient(l) || IsDestroy(l) {
      PastSide(s, l, t);
    } else if IsPoll(l) {
      PastPoll(s, l, l.w, t);
    } else {
      PastRun(s, l, l.w, t);
    }
  }

  lemma OneStep(s: State, l: Label, t: nat)
    requires Next(s, l).Some? && MayStart(Next(s, l).value, t)
    ensures MayStart(s, t)
  {
    var ls, s' :| Steps(Next(s, l).value, ls, s') && HasStarted(s'.log, t);
    assert ([l] + ls)[1..] == ls;
    assert Steps(s, [l] + ls, s');
  }

  lemma ReadyStarts(s: State, w: nat, t: nat)
    requires w < |s.workers| && s.workers[w] == Ready(t) && t !in s.shared.cancelled
    ensures MayStart(s, t)
  {
    var s' := Next(s, Begin(w)).value;
    assert s'.log[|s.log|] == Started(w, t);
    assert Steps(s', [], s');
    OneStep(s, Begin(w), t);
  }

  lemma PushingStarts(s: State, w: nat, t: nat)
    requires w < |s.workers| && s.workers[w] == Pushing(t) && t !in s.shared.cancelled
    ensures MayStart(s, t)
  {
    ReadyStarts(Next(s, Activate(w)).value, w, t);
    OneStep(s, Activate(w), t);
  }

  lemma PolledStarts(s: State, w: nat, t: nat)
    requires w < |s.workers| && s.workers[w] == Polled(t) && t !in s.shared.cancelled && !s.shared.destroyed
    ensures MayStart(s, t)
  {
    PushingStarts(Next(s, CheckBefore(w)).value, w, t);
    OneStep(s, CheckBefore(w), t);
  }

  /** The action of a task that is not queued any more, and has not been invoked, can still be invoked exactly if its flag
      is not set and a worker is on its way to it: before its first check of `destroyed` while that is not set, or between
      that check and the check of the flag. */
  lemma MissedStartsExactly(threads: nat, clients: nat, s: State, t: nat)
    requires Reachable(threads, clients, s) && t < s.next && t !in s.shared.pending && !HasStarted(s.log, t)
    ensures MayStart(s, t) <==> StillToStart(s, t)
  {
    Safety(threads, clients, s);
    WhereTaskIs(s, t);
    StartedInHistory(s.log, t);
    hide Next, Inv;
    if StillToStart(s, t) {
      var w :| 0 <= w < |s.workers| && OnItsWay(s.workers[w], t, s.shared.destroyed);
      if s.workers[w].Ready? {
        ReadyStarts(s, w, t);
      } else if s.workers[w].Pushing? {
        PushingStarts(s, w, t);
      } else {
        PolledStarts(s, w, t);
      }
    } else {
      forall ls, s' | Steps(s, ls, s')
        ensures !HasStarted(s'.log, t)
      {
        PastSteps(s, ls, s', t);
        StartedInHistory(s'.log, t);
      }
    }
  }

  // ---------- a run in which a task is missed ----------

  /** One worker, one client, one task that is not active, and nothing logged. */
  predicate Alone(s: State, pc: Pc, client: ClientPc, pending: seq<nat>, next: nat) {
    && s.workers == [pc] && s.clients == [client] && s.shared == Shared(pending, [], {}, false)
    && s.next == next && s.log == []
  }

  lemma Go(s: State, l: Label, pc: Pc, client: ClientPc, pending: seq<nat>, next: nat) returns (s': State)
    requires Reachable(1, 1, s) && Next(s, l).Some? && Alone(Next(s, l).value, pc, client, pending, next)
    ensures s' == Next(s, l).value && Reachable(1, 1, s') && Alone(s', pc, client, pending, next)
  {
    hide Reachable;
    s' := Extend(1, 1, s, l);
  }

  lemma TaskSubmitted() returns (s: State)
    ensures Reachable(1, 1, s) && Alone(s, Polling, SubmitToSignal, [0], 1)
  {
    Start(1, 1);
    s := Go(Init(1, 1), SubmitCheck(0), Polling, SubmitAdmitted, [], 0);
    s := Go(s, SubmitPush(0), Polling, SubmitToSignal, [0], 1);
  }

  lemma TaskTaken() returns (s: State)
    ensures Reachable(1, 1, s) && Alone(s, Polled(0), Outside, [], 1)
  {
    s := TaskSubmitted();
    s := Go(s, SubmitSignal(0, 1), Polling, Outside, [0], 1);
    s := Go(s, Take(0), Polled(0), Outside, [], 1);
  }

  lemma CancelBegun() returns (s: State)
    ensures Reachable(1, 1, s) && Alone(s, Pushing(0), CancelActive(0), [], 1)
  {
    s := TaskTaken();
    s := Go(s, CheckBefore(0), Pushing(0), Outside, [], 1);
    s := Go(s, CancelCheck(0, 0), Pushing(0), CancelActive(0), [], 1);
  }

  /** executor_cancel looks in both queues and finds nothing while the worker carries the task from the one to the other:
      afterwards the action can still be invoked. */
  lemma CancelSlipsThrough() returns (s: State, s1: State, s': State)
    ensures Reachable(1, 1, s) && !HasStarted(s.log, 0)
    ensures Next(s, TryActive(0)) == Some(s1) && Next(s1, TryPending(0)) == Some(s')
    ensures s'.clients == [Outside] && 0 !in s'.shared.cancelled && MayStart(s', 0)
  {
    s := CancelBegun();
    s1 := Go(s, TryActive(0), Pushing(0), CancelPending(0), [], 1);
    s' := Go(s1, TryPending(0), Pushing(0), Outside, [], 1);
    PushingStarts(s', 0, 0);
  }
}
