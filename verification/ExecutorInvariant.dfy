/** Counting and liveness invariants of the executor, and the proof that every step keeps them all. */
module ExecutorInvariant {
  import opened ExecutorShared
  import opened ExecutorProtocol
  import opened ExecutorSafety

  // ---------- counting workers and clients ----------

  function Count<P>(ps: seq<P>, f: P -> bool): (n: nat)
    ensures n <= |ps|
  {
    if ps == [] then 0 else (if f(ps[0]) then 1 else 0) + Count(ps[1..], f)
  }

  lemma {:induction false} CountUpdate<P>(ps: seq<P>, f: P -> bool, i: nat, p: P)
    requires i < |ps|
    ensures Count(ps[i := p], f) == Count(ps, f) - (if f(ps[i]) then 1 else 0) + (if f(p) then 1 else 0)
  {
    if i == 0 {
      assert ps[0 := p][1..] == ps[1..];
    } else {
      assert ps[i := p][1..] == ps[1..][i - 1 := p];
      CountUpdate(ps[1..], f, i - 1, p);
    }
  }

  lemma {:induction false} CountSame<P>(ps: seq<P>, qs: seq<P>, f: P -> bool)
    requires |ps| == |qs| && forall i :: 0 <= i < |ps| ==> f(ps[i]) == f(qs[i])
    ensures Count(ps, f) == Count(qs, f)
  {
    if ps != [] {
      CountSame(ps[1..], qs[1..], f);
    }
  }

  // ---------- how many tasks are active ----------

  predicate ActiveCountInv(s: State) {
    |s.shared.active| == Count(s.workers, InActive)
  }

  lemma ActiveCountSide(s: State, l: Label)
    requires ActiveCountInv(s) && Next(s, l).Some? && (IsInner(l) || IsClient(l) || IsDestroy(l))
    ensures ActiveCountInv(Next(s, l).value)
  {
    SideStep(s, l);
    CountSame(s.workers, Next(s, l).value.workers, InActive);
  }

  /** How a step of thread_worker changes the active queue and the worker's part in it. */
  lemma ActiveDelta(s: State, l: Label, w: nat)
    requires w < |s.workers| && RunNext(s, l, w).Some?
    ensures var s' := RunNext(s, l, w).value;
      var pc, pc' := s.workers[w], s'.workers[w];
      && |s'.workers| == |s.workers| && s'.workers == s.workers[w := pc']
      && |s'.shared.active| - |s.shared.active| == (if InActive(pc') then 1 else 0) - (if InActive(pc) then 1 else 0)
  {
  }

  lemma ActiveCountRun(s: State, l: Label, w: nat)
    requires ActiveCountInv(s) && w < |s.workers| && RunNext(s, l, w).Some?
    ensures ActiveCountInv(RunNext(s, l, w).value)
  {
    hide RunNext;
    ActiveDelta(s, l, w);
    CountUpdate(s.workers, InActive, w, RunNext(s, l, w).value.workers[w]);
  }

  lemma ActiveCountPoll(s: State, l: Label, w: nat)
    requires ActiveCountInv(s) && w < |s.workers| && PollNext(s, l, w).Some?
    ensures ActiveCountInv(PollNext(s, l, w).value)
  {
    CountUpdate(s.workers, InActive, w, PollNext(s, l, w).value.workers[w]);
  }

  // ---------- no lost wake-up ----------

  /** About to look at the queue, or about to signal someone who will. */
  predicate Credit(pc: Pc) {
    pc.Polling? || (InCallback(pc) && pc.sub.ToSignal?)
  }

  predicate ClientCredit(pc: ClientPc) { pc.SubmitToSignal? }

  /** While a worker sleeps, every queued task is matched by a worker that is awake and on its way
      to the queue, or by a push that has still to signal. */
  predicate WakeInv(s: State) {
    SomeoneAsleep(s) ==> |s.shared.pending| <= Count(s.workers, Credit) + Count(s.clients, ClientCredit)
  }

  lemma WakePoll(s: State, l: Label, w: nat)
    requires WakeInv(s) && LockInv(s.workers, s.shared.pending) && w < |s.workers| && PollNext(s, l, w).Some?
    ensures WakeInv(PollNext(s, l, w).value)
  {
    var s' := PollNext(s, l, w).value;
    CountUpdate(s.workers, Credit, w, s'.workers[w]);
    if !l.FallAsleep? {
      AsleepBefore(s, s', w);
    }
  }

  /** If the only worker that moved is awake now, a sleeper of s' slept in s. */
  lemma AsleepBefore(s: State, s': State, w: nat)
    requires w < |s.workers| == |s'.workers| && s'.workers == s.workers[w := s'.workers[w]]
    requires !s'.workers[w].Asleep?
    ensures SomeoneAsleep(s') ==> SomeoneAsleep(s)
  {
    if SomeoneAsleep(s') {
      var v :| 0 <= v < |s'.workers| && s'.workers[v].Asleep?;
      assert s.workers[v].Asleep?;
    }
  }

  lemma WakeRun(s: State, l: Label, w: nat)
    requires WakeInv(s) && w < |s.workers| && RunNext(s, l, w).Some?
    ensures WakeInv(RunNext(s, l, w).value)
  {
    var s' := RunNext(s, l, w).value;
    CountUpdate(s.workers, Credit, w, s'.workers[w]);
    AsleepBefore(s, s', w);
  }

  lemma WakeInner(s: State, l: Label, w: nat)
    requires WakeInv(s) && w < |s.workers| && InnerNext(s, l, w).Some? && !l.InnerSignal?
    ensures WakeInv(InnerNext(s, l, w).value)
  {
    var s' := InnerNext(s, l, w).value;
    CountUpdate(s.workers, Credit, w, s'.workers[w]);
    AsleepBefore(s, s', w);
  }

  /** A signal gives its credit to the sleeper it wakes; with no sleeper nothing is owed. */
  lemma WakeInnerSignal(s: State, l: Label, w: nat)
    requires WakeInv(s) && w < |s.workers| && InnerNext(s, l, w).Some? && l.InnerSignal?
    ensures WakeInv(InnerNext(s, l, w).value)
  {
    var mid := WithSub(s, w, Idle);
    CountUpdate(s.workers, Credit, w, mid.workers[w]);
    AsleepBefore(s, mid, w);
    if l.v < |s.workers| {
      CountUpdate(mid.workers, Credit, l.v, Polling);
      AsleepBefore(mid, Signal(mid, l.v), l.v);
    }
  }

  lemma WakeClient(s: State, l: Label, c: nat)
    requires WakeInv(s) && c < |s.clients| && ClientNext(s, l, c).Some?
    ensures WakeInv(ClientNext(s, l, c).value)
  {
    var s' := ClientNext(s, l, c).value;
    CountUpdate(s.clients, ClientCredit, c, s'.clients[c]);
    if l.SubmitSignal? && l.v < |s.workers| {
      CountUpdate(s.workers, Credit, l.v, Polling);
    }
  }

  // ---------- destroy ----------

  /** Workers leave only after the flag is set; if no client was caught between check and push then,
      none is from then on. */
  predicate AliveInv(s: State) {
    && s.workers != []
    && (s.destroyer.NotCalled? <==> !s.shared.destroyed)
    && (!s.shared.destroyed ==> s.quiet)
    && (!s.shared.destroyed ==> forall w :: 0 <= w < |s.workers| ==>
          !s.workers[w].Abandoning? && !s.workers[w].Clearing? && !s.workers[w].Exited?)
    && (s.shared.destroyed && s.quiet ==> forall c :: 0 <= c < |s.clients| ==> !s.clients[c].SubmitAdmitted?)
  }

  lemma AliveSide(s: State, l: Label)
    requires AliveInv(s) && Next(s, l).Some? && (IsInner(l) || IsClient(l) || IsDestroy(l))
    ensures AliveInv(Next(s, l).value)
  {
    var s' := Next(s, l).value;
    SideStep(s, l);
    forall w | 0 <= w < |s.workers|
      ensures SamePhase(s.workers[w], s'.workers[w])
    {
    }
  }

  lemma AlivePoll(s: State, l: Label, w: nat)
    requires AliveInv(s) && w < |s.workers| && PollNext(s, l, w).Some?
    ensures AliveInv(PollNext(s, l, w).value)
  {
  }

  lemma AliveRun(s: State, l: Label, w: nat)
    requires AliveInv(s) && w < |s.workers| && RunNext(s, l, w).Some?
    ensures AliveInv(RunNext(s, l, w).value)
  {
  }

  // ---------- the invariant ----------

  ghost predicate Inv(s: State) {
    && FifoInv(s)
    && LockInv(s.workers, s.shared.pending)
    && HolderInv(s.workers, s.holder, |s.taken|)
    && ActiveInv(s.workers, s.holder, s.shared.active)
    && ActiveCountInv(s)
    && HistInv(s.workers, s.holder, |s.taken|, s.log)
    && WakeInv(s)
    && AliveInv(s)
  }

  lemma InvInit(threads: nat, clients: nat)
    requires threads > 0
    ensures Inv(Init(threads, clients))
  {
    CountNone(Init(threads, clients).workers, InActive);
  }

  lemma CountNone<P>(ps: seq<P>, f: P -> bool)
    requires forall i :: 0 <= i < |ps| ==> !f(ps[i])
    ensures Count(ps, f) == 0
  {
  }

  lemma SideInv(s: State, l: Label)
    requires Inv(s) && Next(s, l).Some? && (IsInner(l) || IsClient(l) || IsDestroy(l))
    ensures Inv(Next(s, l).value)
  {
    var s' := Next(s, l).value;
    SideStep(s, l);
    FifoStep(s, l);
    SideLock(s, l);
    SideHolder(s.workers, s'.workers, s.holder, |s.taken|);
    SideActive(s.workers, s'.workers, s.holder, s.shared.active);
    ActiveCountSide(s, l);
    SideHist(s.workers, s'.workers, s.holder, |s.taken|, s.log);
    AliveSide(s, l);
    if IsClient(l) {
      WakeClient(s, l, l.c);
    } else if l.InnerSignal? {
      WakeInnerSignal(s, l, l.w);
    } else if IsInner(l) {
      WakeInner(s, l, l.w);
    }
  }

  lemma WorkerInv(s: State, l: Label)
    requires Inv(s) && Next(s, l).Some? && !(IsInner(l) || IsClient(l) || IsDestroy(l))
    ensures Inv(Next(s, l).value)
  {
    FifoStep(s, l);
    if IsPoll(l) {
      LockPoll(s, l, l.w);
      HolderPoll(s, l, l.w);
      ActivePoll(s, l, l.w);
      ActiveCountPoll(s, l, l.w);
      HistPoll(s, l, l.w);
      WakePoll(s, l, l.w);
      AlivePoll(s, l, l.w);
    } else {
      LockRun(s, l, l.w);
      HolderRun(s, l, l.w);
      ActiveRun(s, l, l.w);
      ActiveCountRun(s, l, l.w);
      HistRun(s, l, l.w);
      WakeRun(s, l, l.w);
      AliveRun(s, l, l.w);
    }
  }

  /** Every step keeps the invariant. */
  lemma InvStep(s: State, l: Label)
    requires Inv(s) && Next(s, l).Some?
    ensures Inv(Next(s, l).value)
  {
    if IsInner(l) || IsClient(l) || IsDestroy(l) {
      SideInv(s, l);
    } else {
      WorkerInv(s, l);
    }
  }

  lemma {:induction false} InvSteps(s: State, ls: seq<Label>, s': State)
    requires Inv(s) && Steps(s, ls, s')
    ensures Inv(s')
    decreases |ls|
  {
    if ls != [] {
      InvStep(s, ls[0]);
      InvSteps(Next(s, ls[0]).value, ls[1..], s');
    }
  }
}
