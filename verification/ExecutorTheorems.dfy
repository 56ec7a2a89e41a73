/** What every run of the executor guarantees to its users, and where it does not. */
module ExecutorTheorems {
  import opened ExecutorShared
  import opened ExecutorProtocol
  import opened ExecutorSafety
  import opened ExecutorInvariant

  /** s is reached by some run of `threads` workers and `clients` client threads. */
  ghost predicate Reachable(threads: nat, clients: nat, s: State) {
    threads > 0 && exists ls :: Steps(Init(threads, clients), ls, s)
  }

  lemma Safety(threads: nat, clients: nat, s: State)
    requires Reachable(threads, clients, s)
    ensures Inv(s) && |s.workers| == threads
  {
    var ls :| Steps(Init(threads, clients), ls, s);
    InvInit(threads, clients);
    InvSteps(Init(threads, clients), ls, s);
    SameThreads(Init(threads, clients), ls, s);
  }

  lemma {:induction false} SameThreads(s: State, ls: seq<Label>, s': State)
    requires Steps(s, ls, s')
    ensures |s'.workers| == |s.workers|
    decreases |ls|
  {
    if ls != [] {
      SameThreadsStep(s, ls[0]);
      SameThreads(Next(s, ls[0]).value, ls[1..], s');
    }
  }

  lemma SameThreadsStep(s: State, l: Label)
    requires Next(s, l).Some?
    ensures |Next(s, l).value.workers| == |s.workers|
  {
    hide PollNext, RunNext;
    if IsInner(l) || IsClient(l) || IsDestroy(l) {
      SideStep(s, l);
    } else {
      NotBoth(s, l, l.w);
      SameThreadsWorker(s, l, l.w);
    }
  }

  lemma SameThreadsWorker(s: State, l: Label, w: nat)
    requires w < |s.workers|
    ensures PollNext(s, l, w).Some? ==> |PollNext(s, l, w).value.workers| == |s.workers|
    ensures RunNext(s, l, w).Some? ==> |RunNext(s, l, w).value.workers| == |s.workers|
  {
  }

  // ---------- every task is run and finalized at most once ----------

  /** A prefix of one of the two histories a task may have. */
  predicate LegalSoFar(h: seq<Event>, t: nat) {
    h == [] || (|h| == 1 && h[0].Started?) || Ran(h) || Complete(h, t)
  }

  lemma HistoriesLegal(threads: nat, clients: nat, s: State, t: nat)
    requires Reachable(threads, clients, s)
    ensures LegalSoFar(History(s.log, t), t)
  {
    Safety(threads, clients, s);
    assert TaskOk(s.workers, s.holder, |s.taken|, History(s.log, t), t);
  }

  /** The i-th event of the log is found in its task's history behind all earlier ones. */
  lemma HistoryRank(log: seq<Event>, i: nat)
    requires i < |log|
    ensures var t := log[i].task; var r := |History(log[..i], t)|;
      r < |History(log, t)| && History(log, t)[r] == log[i] && |History(log[..i + 1], t)| == r + 1
  {
    var t := log[i].task;
    assert log == log[..i] + log[i..] && log[..i + 1] == log[..i] + [log[i]];
    HistoryConcat(log[..i], log[i..], t);
    HistoryConcat(log[..i], [log[i]], t);
    assert [log[i]][1..] == [];
  }

  lemma HistoryRankOrder(log: seq<Event>, i: nat, j: nat)
    requires i < j < |log| && log[i].task == log[j].task
    ensures |History(log[..i], log[i].task)| < |History(log[..j], log[i].task)|
  {
    HistoryRank(log, i);
    assert log[..j] == log[..i + 1] + log[i + 1..j];
    HistoryConcat(log[..i + 1], log[i + 1..j], log[i].task);
  }

  /** In every interleaving: an action is started at most once, a finalizer is called at most once,
      and nothing happens to a task after it has been finalized. */
  lemma AtMostOnce(threads: nat, clients: nat, s: State, i: nat, j: nat)
    requires Reachable(threads, clients, s)
    requires i < j < |s.log| && s.log[i].task == s.log[j].task
    ensures !(s.log[i].Started? && s.log[j].Started?)
    ensures !s.log[i].Finalized?
  {
    HistoriesLegal(threads, clients, s, s.log[i].task);
    HistoryRank(s.log, i);
    HistoryRank(s.log, j);
    HistoryRankOrder(s.log, i, j);
  }

  // ---------- executor_destroy ----------

  /** A task is pushed, under the next free name. */
  predicate IsPush(l: Label) {
    l.InnerPush? || l.SubmitPush?
  }

  /** In the run ls from s, task t is pushed when all workers have left. */
  predicate PushedLate(s: State, ls: seq<Label>, t: nat)
    decreases |ls|
  {
    ls != [] && Next(s, ls[0]).Some?
    && ((IsPush(ls[0]) && s.next == t && AllExited(s)) || PushedLate(Next(s, ls[0]).value, ls[1..], t))
  }

  lemma StrandSide(s: State, l: Label, t: nat)
    requires Next(s, l).Some? && (IsInner(l) || IsClient(l) || IsDestroy(l)) && t < s.next
    ensures var s' := Next(s, l).value;
      && (AllExited(s') <==> AllExited(s)) && (t in s'.shared.pending <==> t in s.shared.pending) && t < s'.next
  {
    var s' := Next(s, l).value;
    SideStep(s, l);
    hide Next;
    assert forall w :: 0 <= w < |s.workers| ==> SamePhase(s.workers[w], s'.workers[w]);
  }

  lemma StrandWorker(s: State, l: Label, w: nat, t: nat)
    requires w < |s.workers| && (PollNext(s, l, w).Some? || RunNext(s, l, w).Some?) && t < s.next
    ensures var s' := if PollNext(s, l, w).Some? then PollNext(s, l, w).value else RunNext(s, l, w).value;
      && !AllExited(s) && !(AllExited(s') && t in s'.shared.pending) && t < s'.next
  {
    var s' := if PollNext(s, l, w).Some? then PollNext(s, l, w).value else RunNext(s, l, w).value;
    assert !s.workers[w].Exited? && (s'.workers[w].Exited? ==> s'.shared.pending == []);
  }

  lemma StrandStep(s: State, l: Label, t: nat)
    requires Next(s, l).Some? && t < s.next
    ensures var s' := Next(s, l).value;
      && (AllExited(s') && t in s'.shared.pending <==> AllExited(s) && t in s.shared.pending) && t < s'.next
  {
    hide PollNext, RunNext, InnerNext, ClientNext, DestroyNext, AllExited;
    if IsInner(l) || IsClient(l) || IsDestroy(l) {
      StrandSide(s, l, t);
    } else {
      NotBoth(s, l, l.w);
      StrandWorker(s, l, l.w, t);
    }
  }

  /** When all workers have left, a task pushed before some moment is in the queue exactly if at that moment
      they had all left already and it was there. */
  lemma {:induction false} StrandedSince(s: State, ls: seq<Label>, s': State, t: nat)
    requires Inv(s) && Steps(s, ls, s') && t < s.next && AllExited(s')
    ensures t in s'.shared.pending <==> AllExited(s) && t in s.shared.pending
    decreases |ls|
  {
    if ls != [] {
      InvStep(s, ls[0]);
      StrandStep(s, ls[0], t);
      StrandedSince(Next(s, ls[0]).value, ls[1..], s', t);
    }
  }

  lemma PushStep(s: State, l: Label)
    requires AliveInv(s) && Next(s, l).Some? && IsPush(l)
    ensures var s' := Next(s, l).value;
      && s'.next == s.next + 1 && s.next in s'.shared.pending
      && (AllExited(s') <==> AllExited(s)) && (AllExited(s) ==> !s.quiet)
  {
    var s' := Next(s, l).value;
    assert s'.shared.pending[|s.shared.pending|] == s.next;
    if l.InnerPush? {
      assert !s.workers[l.w].Exited? && !s'.workers[l.w].Exited?;
    } else if AllExited(s) {
      assert s.workers[0].Exited? && s.clients[l.c].SubmitAdmitted?;
    }
  }

  lemma NoPushStep(s: State, l: Label)
    requires Next(s, l).Some? && !IsPush(l)
    ensures Next(s, l).value.next == s.next
  {
  }

  lemma QuietStep(s: State, l: Label)
    requires AliveInv(s) && Next(s, l).Some? && s.shared.destroyed
    ensures Next(s, l).value.shared.destroyed && Next(s, l).value.quiet == s.quiet
  {
  }

  lemma NextStep(s: State, l: Label)
    requires AliveInv(s) && Next(s, l).Some?
    ensures Next(s, l).value.next == if IsPush(l) then s.next + 1 else s.next
  {
    hide Next, AliveInv;
    if IsPush(l) {
      PushStep(s, l);
    } else {
      NoPushStep(s, l);
    }
  }

  lemma {:induction false} NeverPushedAgain(s: State, ls: seq<Label>, s': State, t: nat)
    requires Inv(s) && Steps(s, ls, s') && t < s.next
    ensures !PushedLate(s, ls, t)
    decreases |ls|
  {
    hide Next;
    if ls != [] {
      InvStep(s, ls[0]);
      NextStep(s, ls[0]);
      NeverPushedAgain(Next(s, ls[0]).value, ls[1..], s', t);
    }
  }

  /** Stranded in the end are exactly the tasks that are pushed when all workers have left. */
  lemma {:induction false} StrandedExactly(s: State, ls: seq<Label>, s': State, t: nat)
    requires Inv(s) && Steps(s, ls, s') && s.next <= t < s'.next && AllExited(s')
    ensures t in s'.shared.pending <==> PushedLate(s, ls, t)
    decreases |ls|
  {
    hide Next;
    if ls != [] {
      var s1 := Next(s, ls[0]).value;
      InvStep(s, ls[0]);
      NextStep(s, ls[0]);
      if IsPush(ls[0]) && s.next == t {
        PushStep(s, ls[0]);
        StrandedSince(s1, ls[1..], s', t);
        NeverPushedAgain(s1, ls[1..], s', t);
      } else {
        StrandedExactly(s1, ls[1..], s', t);
      }
    }
  }

  lemma {:induction false} QuietKept(s: State, ls: seq<Label>, s': State)
    requires Inv(s) && Steps(s, ls, s') && s.shared.destroyed
    ensures s'.quiet == s.quiet
    decreases |ls|
  {
    hide Next;
    if ls != [] {
      InvStep(s, ls[0]);
      QuietStep(s, ls[0]);
      QuietKept(Next(s, ls[0]).value, ls[1..], s');
    }
  }

  lemma {:induction false} LateNotQuiet(s: State, ls: seq<Label>, s': State, t: nat)
    requires Inv(s) && Steps(s, ls, s') && PushedLate(s, ls, t)
    ensures !s'.quiet
    decreases |ls|
  {
    hide Next;
    InvStep(s, ls[0]);
    if IsPush(ls[0]) && s.next == t && AllExited(s) {
      PushStep(s, ls[0]);
      assert s.workers[0].Exited?;
      QuietKept(s, ls, s');
    } else {
      LateNotQuiet(Next(s, ls[0]).value, ls[1..], s', t);
    }
  }

  /** Once all workers have left, a pushed task has been finalized (once, after its action if that ran) exactly if it
      was not pushed after the last of them left; otherwise nothing has happened to it.  Such a push is made by a client,
      never by a callback, and only if a client was between its check and its push when the flag was set. */
  lemma FinalizedExactly(threads: nat, clients: nat, ls: seq<Label>, s: State, t: nat)
    requires threads > 0 && Steps(Init(threads, clients), ls, s) && AllExited(s) && t < s.next
    ensures Complete(History(s.log, t), t) <==> !PushedLate(Init(threads, clients), ls, t)
    ensures PushedLate(Init(threads, clients), ls, t) ==> History(s.log, t) == [] && t in s.shared.pending && !s.quiet
  {
    var s0 := Init(threads, clients);
    InvInit(threads, clients);
    InvSteps(s0, ls, s);
    StrandedExactly(s0, ls, s, t);
    PendingRange(s);
    assert TaskOk(s.workers, s.holder, |s.taken|, History(s.log, t), t);
    if t >= |s.taken| {
      assert s.shared.pending[t - |s.taken|] == t;
    }
    if PushedLate(s0, ls, t) {
      LateNotQuiet(s0, ls, s, t);
    }
  }

  /** So, once all workers have left, the tasks not finalized are those on the pending queue, no task is active, and if
      no client was between its check and its push when the flag was set, every task has been finalized. */
  lemma AllFinalizedAtExit(threads: nat, clients: nat, s: State)
    requires Reachable(threads, clients, s) && AllExited(s)
    ensures forall t :: 0 <= t < s.next ==> (Complete(History(s.log, t), t) <==> t !in s.shared.pending)
    ensures s.shared.active == []
    ensures s.quiet ==> s.shared.pending == [] && forall t :: 0 <= t < s.next ==> Complete(History(s.log, t), t)
  {
    var ls :| Steps(Init(threads, clients), ls, s);
    Safety(threads, clients, s);
    PendingRange(s);
    CountNone(s.workers, InActive);
    forall t | 0 <= t < s.next
      ensures Complete(History(s.log, t), t) <==> t !in s.shared.pending
      ensures s.quiet ==> t !in s.shared.pending
    {
      FinalizedExactly(threads, clients, ls, s, t);
    }
    assert s.shared.pending != [] ==> s.shared.pending[0] in s.shared.pending;
  }

  lemma {:induction false} StepsConcat(s: State, ls: seq<Label>, mid: State, ks: seq<Label>, s': State)
    requires Steps(s, ls, mid) && Steps(mid, ks, s')
    ensures Steps(s, ls + ks, s')
    decreases |ls|
  {
    if ls == [] {
      assert ls + ks == ks;
    } else {
      assert (ls + ks)[1..] == ls[1..] + ks;
      StepsConcat(Next(s, ls[0]).value, ls[1..], mid, ks, s');
    }
  }

  /** One more step of a run. */
  lemma Extend(threads: nat, clients: nat, s: State, l: Label) returns (s': State)
    requires Reachable(threads, clients, s) && Next(s, l).Some?
    ensures s' == Next(s, l).value && Reachable(threads, clients, s')
  {
    s' := Next(s, l).value;
    var ls :| Steps(Init(threads, clients), ls, s);
    assert Steps(s', [l][1..], s');
    assert Steps(s, [l], s');
    StepsConcat(Init(threads, clients), ls, s, [l], s');
  }

  /** One worker, at most one client, nothing logged. */
  predicate At(s: State, pc: Pc, client: ClientPc, d: DestroyPc, pending: seq<nat>, quiet: bool) {
    && |s.workers| == 1 && s.workers[0] == pc
    && |s.clients| <= 1 && (s.clients != [] ==> s.clients[0] == client)
    && s.destroyer == d && s.shared.destroyed == !d.NotCalled? && s.shared.pending == pending
    && s.next == |pending| && s.quiet == quiet && s.log == []
  }

  lemma Move(threads: nat, clients: nat, s: State, l: Label,
             pc: Pc, client: ClientPc, d: DestroyPc, pending: seq<nat>, quiet: bool) returns (s': State)
    requires Reachable(threads, clients, s) && Next(s, l).Some?
    requires At(Next(s, l).value, pc, client, d, pending, quiet)
    ensures Reachable(threads, clients, s') && At(s', pc, client, d, pending, quiet)
    ensures |s'.workers| == |s.workers| && |s'.clients| == |s.clients|
  {
    hide Reachable;
    s' := Extend(threads, clients, s, l);
    SameThreadsStep(s, l);
  }

  lemma Start(threads: nat, clients: nat)
    requires threads > 0
    ensures Reachable(threads, clients, Init(threads, clients))
  {
    assert Steps(Init(threads, clients), [], Init(threads, clients));
  }

  lemma ClientAdmitted() returns (s: State)
    ensures Reachable(1, 1, s) && |s.clients| == 1 && At(s, Polling, SubmitAdmitted, NotCalled, [], true)
  {
    Start(1, 1);
    s := Init(1, 1);
    s := Move(1, 1, s, SubmitCheck(0), Polling, SubmitAdmitted, NotCalled, [], true);
  }

  lemma WorkerFindsNothing() returns (s: State)
    ensures Reachable(1, 1, s) && |s.clients| == 1 && At(s, HoldEmpty, SubmitAdmitted, NotCalled, [], true)
  {
    s := ClientAdmitted();
    s := Move(1, 1, s, FindEmpty(0), HoldEmpty, SubmitAdmitted, NotCalled, [], true);
  }

  lemma DestroyCalled() returns (s: State)
    ensures Reachable(1, 1, s) && |s.clients| == 1 && At(s, HoldEmpty, SubmitAdmitted, FlagSet, [], false)
  {
    s := WorkerFindsNothing();
    assert s.clients[0].SubmitAdmitted?;
    s := Move(1, 1, s, SetDestroyed, HoldEmpty, SubmitAdmitted, FlagSet, [], false);
  }

  lemma WorkerGivesUp() returns (s: State)
    ensures Reachable(1, 1, s) && |s.clients| == 1 && At(s, Clearing, SubmitAdmitted, FlagSet, [], false)
  {
    s := DestroyCalled();
    s := Move(1, 1, s, SeeDestroyed(0), Clearing, SubmitAdmitted, FlagSet, [], false);
  }

  lemma WorkerLeft() returns (s: State)
    ensures Reachable(1, 1, s) && |s.clients| == 1 && At(s, Exited, SubmitAdmitted, FlagSet, [], false)
  {
    s := WorkerGivesUp();
    s := Move(1, 1, s, Clear(0), Exited, SubmitAdmitted, FlagSet, [], false);
  }

  lemma ClientPushed() returns (s: State)
    ensures Reachable(1, 1, s) && |s.clients| == 1 && At(s, Exited, SubmitToSignal, FlagSet, [0], false)
  {
    s := WorkerLeft();
    s := Move(1, 1, s, SubmitPush(0), Exited, SubmitToSignal, FlagSet, [0], false);
  }

  lemma DestroyBroadcast() returns (s: State)
    ensures Reachable(1, 1, s) && |s.clients| == 1 && At(s, Exited, SubmitToSignal, Joining, [0], false)
  {
    s := ClientPushed();
    s := Move(1, 1, s, Broadcast, Exited, SubmitToSignal, Joining, [0], false);
  }

  /** The promise that every submitted task is finalized fails without that condition: a client passes
      the check, the executor is destroyed, the only worker leaves, and then the client pushes. */
  lemma OverlappingSubmitStrands() returns (s: State)
    ensures Reachable(1, 1, s) && AllExited(s) && !s.quiet
    ensures s.destroyer.Joined? && s.next == 1 && s.shared.pending == [0] && History(s.log, 0) == []
  {
    hide Reachable;
    s := DestroyBroadcast();
    s := Move(1, 1, s, Join, Exited, SubmitToSignal, Joined, [0], false);
  }

  lemma LoneWorkerFindsNothing() returns (s: State)
    ensures Reachable(1, 0, s) && |s.clients| == 0 && At(s, HoldEmpty, Outside, NotCalled, [], true)
  {
    Start(1, 0);
    s := Init(1, 0);
    s := Move(1, 0, s, FindEmpty(0), HoldEmpty, Outside, NotCalled, [], true);
  }

  lemma WorkerAboutToWait() returns (s: State)
    ensures Reachable(1, 0, s) && |s.clients| == 0 && At(s, HoldWait, Outside, NotCalled, [], true)
  {
    s := LoneWorkerFindsNothing();
    s := Move(1, 0, s, KeepWaiting(0), HoldWait, Outside, NotCalled, [], true);
  }

  lemma FlagSetBehindCheck() returns (s: State)
    ensures Reachable(1, 0, s) && |s.clients| == 0 && At(s, HoldWait, Outside, FlagSet, [], true)
  {
    s := WorkerAboutToWait();
    s := Move(1, 0, s, SetDestroyed, HoldWait, Outside, FlagSet, [], true);
  }

  lemma BroadcastBeforeWait() returns (s: State)
    ensures Reachable(1, 0, s) && |s.clients| == 0 && At(s, HoldWait, Outside, Joining, [], true)
  {
    s := FlagSetBehindCheck();
    s := Move(1, 0, s, Broadcast, HoldWait, Outside, Joining, [], true);
  }

  /** executor_destroy may wait for ever: the worker read the flag before it was set and goes to sleep
      after the broadcast.  Only a spurious wake-up can end this. */
  lemma BroadcastMissesWorker() returns (s: State)
    ensures Reachable(1, 0, s) && s.destroyer.Joining? && |s.workers| == 1 && s.workers[0] == Asleep
    ensures forall l :: Next(s, l).Some? ==> l == WakeUp(0)
  {
    s := BroadcastBeforeWait();
    s := Move(1, 0, s, FallAsleep(0), Asleep, Outside, Joining, [], true);
    forall l | Next(s, l).Some?
      ensures l == WakeUp(0)
    {
      OnlyWakeUp(s, l);
    }
  }

  lemma OnlyWakeUp(s: State, l: Label)
    requires |s.workers| == 1 && s.workers[0].Asleep? && s.clients == [] && s.destroyer.Joining?
    requires Next(s, l).Some?
    ensures l == WakeUp(0)
  {
  }

  /** After the broadcast only a worker that stands between reading the flag and the wait can fall asleep. */
  lemma {:induction false} SleepersAfterBroadcast(s: State, ls: seq<Label>, s': State, w: nat)
    requires s.shared.destroyed && (s.destroyer.Joining? || s.destroyer.Joined?)
    requires Steps(s, ls, s') && w < |s.workers| == |s'.workers|
    requires !s.workers[w].Asleep? && !s.workers[w].HoldWait?
    ensures !s'.workers[w].Asleep?
    decreases |ls|
  {
    hide Next;
    if ls != [] {
      SameThreadsStep(s, ls[0]);
      NoNewWaiter(s, ls[0], w);
      SleepersAfterBroadcast(Next(s, ls[0]).value, ls[1..], s', w);
    }
  }

  /** After the broadcast, with worker v neither asleep nor about to wait. */
  predicate UpAfterBroadcast(s: State, v: nat) {
    && s.shared.destroyed && (s.destroyer.Joining? || s.destroyer.Joined?)
    && v < |s.workers| && !s.workers[v].Asleep? && !s.workers[v].HoldWait?
  }

  lemma UpPoll(s: State, l: Label, w: nat, v: nat)
    requires UpAfterBroadcast(s, v) && w < |s.workers| && PollNext(s, l, w).Some?
    ensures UpAfterBroadcast(PollNext(s, l, w).value, v)
  {
  }

  lemma UpRun(s: State, l: Label, w: nat, v: nat)
    requires UpAfterBroadcast(s, v) && w < |s.workers| && RunNext(s, l, w).Some?
    ensures UpAfterBroadcast(RunNext(s, l, w).value, v)
  {
  }

  lemma UpSide(s: State, l: Label, v: nat)
    requires UpAfterBroadcast(s, v) && Next(s, l).Some? && (IsInner(l) || IsClient(l) || IsDestroy(l))
    ensures UpAfterBroadcast(Next(s, l).value, v)
  {
  }

  lemma NoNewWaiter(s: State, l: Label, v: nat)
    requires UpAfterBroadcast(s, v) && Next(s, l).Some?
    ensures UpAfterBroadcast(Next(s, l).value, v)
  {
    hide PollNext, RunNext, InnerNext, ClientNext, DestroyNext, UpAfterBroadcast;
    if IsInner(l) || IsClient(l) || IsDestroy(l) {
      UpSide(s, l, v);
    } else if IsPoll(l) {
      UpPoll(s, l, l.w, v);
    } else {
      UpRun(s, l, l.w, v);
    }
  }

  /** The step changes where worker w stands. */
  predicate Moves(s: State, l: Label, w: nat) {
    Next(s, l).Some? && w < |s.workers| && w < |Next(s, l).value.workers| && Next(s, l).value.workers[w] != s.workers[w]
  }

  /** That worker can do nothing else, and there is at most one. */
  lemma WaiterMustSleep(threads: nat, clients: nat, s: State, w: nat)
    requires Reachable(threads, clients, s) && w < |s.workers| && s.workers[w].HoldWait?
    ensures forall l :: Moves(s, l, w) <==> l == FallAsleep(w)
    ensures forall v :: 0 <= v < |s.workers| && s.workers[v].HoldWait? ==> v == w
  {
    hide Moves;
    Safety(threads, clients, s);
    forall l
      ensures Moves(s, l, w) <==> l == FallAsleep(w)
    {
      OnlyFallsAsleep(s, l, w);
    }
    OneWaiter(s, w);
  }

  lemma OneWaiter(s: State, w: nat)
    requires LockInv(s.workers, s.shared.pending) && w < |s.workers| && s.workers[w].HoldWait?
    ensures forall v :: 0 <= v < |s.workers| && s.workers[v].HoldWait? ==> v == w
  {
    forall v | 0 <= v < |s.workers| && s.workers[v].HoldWait?
      ensures v == w
    {
      assert Holding(s.workers[v]) && Holding(s.workers[w]);
    }
  }

  lemma OnlyFallsAsleep(s: State, l: Label, w: nat)
    requires w < |s.workers| && s.workers[w].HoldWait?
    ensures Moves(s, l, w) <==> l == FallAsleep(w)
  {
    hide PollNext, RunNext, InnerNext, ClientNext, DestroyNext;
    if Next(s, l).Some? {
      if IsInner(l) || IsClient(l) || IsDestroy(l) {
        SideStep(s, l);
        hide Next;
        assert SamePhase(s.workers[w], Next(s, l).value.workers[w]);
      } else {
        NotBoth(s, l, l.w);
        WaiterStep(s, l, l.w, w);
      }
    } else {
      CanFallAsleep(s, w);
    }
  }

  lemma CanFallAsleep(s: State, w: nat)
    requires w < |s.workers| && s.workers[w].HoldWait?
    ensures Next(s, FallAsleep(w)).Some?
  {
  }

  lemma WaiterStep(s: State, l: Label, v: nat, w: nat)
    requires v < |s.workers| && w < |s.workers| && s.workers[w].HoldWait?
    requires PollNext(s, l, v).Some? || RunNext(s, l, v).Some?
    ensures var s' := if PollNext(s, l, v).Some? then PollNext(s, l, v).value else RunNext(s, l, v).value;
      |s'.workers| == |s.workers| && (s'.workers[w] != s.workers[w] <==> l.FallAsleep? && v == w)
  {
  }

  /** After the broadcast a sleeper wakes only spuriously, or when a late push signals it. */
  lemma SleeperWakes(s: State, l: Label, w: nat)
    requires (s.destroyer.Joining? || s.destroyer.Joined?) && w < |s.workers| && s.workers[w].Asleep?
    requires Next(s, l).Some? && !Next(s, l).value.workers[w].Asleep?
    ensures l == WakeUp(w) || ((l.InnerSignal? || l.SubmitSignal?) && l.v == w)
  {
  }

  /** Some run from s ends with worker w asleep. */
  ghost predicate MaySleep(s: State, w: nat) {
    exists ls, s' :: Steps(s, ls, s') && w < |s'.workers| && s'.workers[w].Asleep?
  }

  lemma WaiterSleeps(s: State, w: nat)
    requires w < |s.workers| && s.workers[w].HoldWait?
    ensures MaySleep(s, w)
  {
    var s' := Next(s, FallAsleep(w)).value;
    assert Steps(s', [FallAsleep(w)][1..], s');
    assert Steps(s, [FallAsleep(w)], s') && s'.workers[w].Asleep?;
  }

  lemma BroadcastStep(s: State, w: nat)
    requires Next(s, Broadcast).Some? && w < |s.workers|
    ensures var s' := Next(s, Broadcast).value;
      && s'.destroyer.Joining? && s'.shared == s.shared && |s'.workers| == |s.workers|
      && !s'.workers[w].Asleep? && (s'.workers[w].HoldWait? <==> s.workers[w].HoldWait?)
  {
  }

  /** So executor_destroy can be left waiting for a sleeping worker exactly if that worker stands between reading the
      flag and the wait when the broadcast comes. */
  lemma MissedExactly(threads: nat, clients: nat, s: State, w: nat)
    requires Reachable(threads, clients, s) && Next(s, Broadcast).Some? && w < |s.workers|
    ensures MaySleep(Next(s, Broadcast).value, w) <==> s.workers[w].HoldWait?
  {
    var s1 := Next(s, Broadcast).value;
    BroadcastStep(s, w);
    Safety(threads, clients, s);
    Flagged(s);
    hide Next;
    if s.workers[w].HoldWait? {
      WaiterSleeps(s1, w);
    } else {
      forall ls, s' | Steps(s1, ls, s') && w < |s'.workers|
        ensures !s'.workers[w].Asleep?
      {
        SameThreads(s1, ls, s');
        SleepersAfterBroadcast(s1, ls, s', w);
      }
    }
  }

  lemma Flagged(s: State)
    requires AliveInv(s) && Next(s, Broadcast).Some?
    ensures s.shared.destroyed
  {
  }

  // ---------- cancellation ----------

  /** The flag is set, and the action has not been started and will not be. */
  predicate Doomed(s: State, t: nat) {
    t in s.shared.cancelled && (History(s.log, t) == [] || History(s.log, t) == [Finalized(t, ECANCELED)])
  }

  /** What a step of a worker adds to the history of task t. */
  function NewEvents(s: State, l: Label, w: nat, t: nat): seq<Event>
    requires w < |s.workers| && RunNext(s, l, w).Some?
  {
    if l.Clear? then if |s.taken| <= t < s.next then [Finalized(t, ECANCELED)] else []
    else if t == s.workers[w].task then Logged(s, l, w) else []
  }

  lemma HistoryRun(s: State, l: Label, w: nat, t: nat)
    requires FifoInv(s) && w < |s.workers| && RunNext(s, l, w).Some?
    ensures History(RunNext(s, l, w).value.log, t) == History(s.log, t) + NewEvents(s, l, w, t)
  {
    HistoryConcat(s.log, Logged(s, l, w), t);
    if l.Clear? {
      PendingRange(s);
      HistoryCancelAll(|s.taken|, |s.shared.pending|, t);
    } else {
      HistoryAbout(Logged(s, l, w), s.workers[w].task, t);
    }
  }

  lemma DoomedRun(s: State, l: Label, w: nat, t: nat)
    requires FifoInv(s) && HolderInv(s.workers, s.holder, |s.taken|) && w < |s.workers| && RunNext(s, l, w).Some?
    requires TaskOk(s.workers, s.holder, |s.taken|, History(s.log, t), t) && Doomed(s, t)
    ensures Doomed(RunNext(s, l, w).value, t)
  {
    HistoryRun(s, l, w, t);
    PendingRange(s);
  }

  lemma DoomedSide(s: State, l: Label, t: nat)
    requires Next(s, l).Some? && (IsInner(l) || IsClient(l) || IsDestroy(l)) && Doomed(s, t)
    ensures Doomed(Next(s, l).value, t)
  {
    SideStep(s, l);
  }

  lemma DoomedStep(s: State, l: Label, t: nat)
    requires Inv(s) && Next(s, l).Some? && Doomed(s, t)
    ensures Doomed(Next(s, l).value, t)
  {
    if IsInner(l) || IsClient(l) || IsDestroy(l) {
      DoomedSide(s, l, t);
    } else if !IsPoll(l) {
      assert TaskOk(s.workers, s.holder, |s.taken|, History(s.log, t), t);
      DoomedRun(s, l, l.w, t);
    }
  }

  lemma {:induction false} DoomedSteps(s: State, ls: seq<Label>, s': State, t: nat)
    requires Inv(s) && Steps(s, ls, s') && Doomed(s, t)
    ensures Doomed(s', t)
    decreases |ls|
  {
    if ls != [] {
      InvStep(s, ls[0]);
      DoomedStep(s, ls[0], t);
      DoomedSteps(Next(s, ls[0]).value, ls[1..], s', t);
    }
  }

  /** A task whose flag executor_cancel sets while it is queued never runs, whatever happens next,
      and if it has been finalized, then with ECANCELED. */
  lemma CancelledWhilePending(threads: nat, clients: nat, s: State, c: nat, ls: seq<Label>, s': State)
    requires Reachable(threads, clients, s) && Next(s, TryPending(c)).Some?
    requires s.clients[c].task in s.shared.pending
    requires Steps(Next(s, TryPending(c)).value, ls, s')
    ensures forall i :: 0 <= i < |s'.log| && s'.log[i].task == s.clients[c].task ==>
              s'.log[i] == Finalized(s.clients[c].task, ECANCELED)
  {
    var t := s.clients[c].task;
    var s1 := Next(s, TryPending(c)).value;
    Safety(threads, clients, s);
    PendingRange(s);
    assert TaskOk(s.workers, s.holder, |s.taken|, History(s.log, t), t);
    InvStep(s, TryPending(c));
    DoomedSteps(s1, ls, s', t);
    forall i | 0 <= i < |s'.log| && s'.log[i].task == t
      ensures s'.log[i] == Finalized(t, ECANCELED)
    {
      HistoryRank(s'.log, i);
    }
  }

  // ---------- after destroy has begun ----------

  /** Actions started by worker w. */
  function Starts(log: seq<Event>, w: nat): (n: nat)
    ensures n <= |log|
  {
    Count(log, (e: Event) => e.Started? && e.worker == w)
  }

  lemma {:induction false} CountConcat<P>(a: seq<P>, b: seq<P>, f: P -> bool)
    ensures Count(a + b, f) == Count(a, f) + Count(b, f)
  {
    if a == [] {
      assert a + b == b;
    } else {
      assert (a + b)[1..] == a[1..] + b;
      CountConcat(a[1..], b, f);
    }
  }

  /** Past the first check of the flag, before the action. */
  function StillStarts(s: State, w: nat): (n: nat) {
    if w < |s.workers| && (s.workers[w].Pushing? || s.workers[w].Ready?) then 1 else 0
  }

  lemma StartsSide(s: State, l: Label, w: nat)
    requires Next(s, l).Some? && (IsInner(l) || IsClient(l) || IsDestroy(l))
    ensures var s' := Next(s, l).value; s'.log == s.log && StillStarts(s', w) == StillStarts(s, w)
  {
    SideStep(s, l);
    hide Next;
    if w < |s.workers| {
      assert SamePhase(s.workers[w], Next(s, l).value.workers[w]);
    }
  }

  lemma StartsPoll(s: State, l: Label, v: nat, w: nat)
    requires v < |s.workers| && PollNext(s, l, v).Some?
    ensures var s' := PollNext(s, l, v).value; s'.log == s.log && StillStarts(s', w) == StillStarts(s, w)
  {
  }

  /** What a step of thread_worker logs, and whether the worker still starts an action. */
  lemma StartsRun(s: State, l: Label, v: nat, w: nat)
    requires s.shared.destroyed && v < |s.workers| && RunNext(s, l, v).Some?
    ensures var s' := RunNext(s, l, v).value;
      Starts(Logged(s, l, v), w) + StillStarts(s', w) <= StillStarts(s, w)
  {
    hide RunNext, Starts, StillStarts;
    if l.Clear? {
      StartsClear(s, l, v, w);
    } else {
      StartsOwn(s, l, v, w);
    }
  }

  lemma StartsClear(s: State, l: Label, v: nat, w: nat)
    requires v < |s.workers| && RunNext(s, l, v).Some? && l.Clear?
    ensures var s' := RunNext(s, l, v).value;
      Starts(Logged(s, l, v), w) + StillStarts(s', w) <= StillStarts(s, w)
  {
    CountNone(Logged(s, l, v), (e: Event) => e.Started? && e.worker == w);
  }

  lemma StartsOwn(s: State, l: Label, v: nat, w: nat)
    requires s.shared.destroyed && v < |s.workers| && RunNext(s, l, v).Some? && !l.Clear?
    ensures var s' := RunNext(s, l, v).value;
      Starts(Logged(s, l, v), w) + StillStarts(s', w) <= StillStarts(s, w)
  {
    assert |Logged(s, l, v)| <= 1;
  }

  lemma DestroyedStays(s: State, l: Label)
    requires s.shared.destroyed && Next(s, l).Some?
    ensures Next(s, l).value.shared.destroyed
  {
  }

  lemma StartsStep(s: State, l: Label, w: nat)
    requires s.shared.destroyed && Next(s, l).Some?
    ensures var s' := Next(s, l).value;
      s'.shared.destroyed && Starts(s'.log, w) + StillStarts(s', w) <= Starts(s.log, w) + StillStarts(s, w)
  {
    hide PollNext, RunNext, InnerNext, ClientNext, DestroyNext, StillStarts, Logged;
    DestroyedStays(s, l);
    if IsInner(l) || IsClient(l) || IsDestroy(l) {
      StartsSide(s, l, w);
    } else if IsPoll(l) {
      StartsPoll(s, l, l.w, w);
    } else {
      StartsRun(s, l, l.w, w);
      CountConcat(s.log, Logged(s, l, l.w), (e: Event) => e.Started? && e.worker == w);
    }
  }

  /** From the moment the flag is set, each worker starts at most one more action. */
  lemma {:induction false} AtMostOneMoreAction(s: State, ls: seq<Label>, s': State, w: nat)
    requires s.shared.destroyed && Steps(s, ls, s')
    ensures Starts(s'.log, w) + StillStarts(s', w) <= Starts(s.log, w) + StillStarts(s, w) <= Starts(s.log, w) + 1
    decreases |ls|
  {
    if ls != [] {
      StartsStep(s, ls[0], w);
      AtMostOneMoreAction(Next(s, ls[0]).value, ls[1..], s', w);
    }
  }

  /** No executor_submit, from a client or a callback, is between its check of `destroyed` and its push. */
  predicate NothingAdmitted(s: State) {
    && (forall c :: 0 <= c < |s.clients| ==> !s.clients[c].SubmitAdmitted?)
    && (forall w :: 0 <= w < |s.workers| && InCallback(s.workers[w]) ==> !s.workers[w].sub.Admitted?)
  }

  /** No executor_cancel is between its check of `destroyed` and its end. */
  predicate NothingSearched(s: State) {
    forall c :: 0 <= c < |s.clients| ==> s.clients[c].Outside? || s.clients[c].SubmitAdmitted? || s.clients[c].SubmitToSignal?
  }

  lemma AdmissionSide(s: State, l: Label)
    requires s.shared.destroyed && Next(s, l).Some? && (IsInner(l) || IsClient(l) || IsDestroy(l))
    ensures NothingAdmitted(s) ==> NothingAdmitted(Next(s, l).value) && Next(s, l).value.next == s.next
    ensures NothingSearched(s) ==> NothingSearched(Next(s, l).value) && Next(s, l).value.shared.cancelled == s.shared.cancelled
  {
  }

  lemma AdmissionWorker(s: State, l: Label, w: nat)
    requires w < |s.workers| && (PollNext(s, l, w).Some? || RunNext(s, l, w).Some?)
    ensures var s' := if PollNext(s, l, w).Some? then PollNext(s, l, w).value else RunNext(s, l, w).value;
      && s'.next == s.next && s'.shared.cancelled == s.shared.cancelled && s'.clients == s.clients
      && (NothingAdmitted(s) ==> NothingAdmitted(s')) && (NothingSearched(s) ==> NothingSearched(s'))
  {
  }

  lemma AdmissionStep(s: State, l: Label)
    requires s.shared.destroyed && Next(s, l).Some?
    ensures Next(s, l).value.shared.destroyed
    ensures NothingAdmitted(s) ==> NothingAdmitted(Next(s, l).value) && Next(s, l).value.next == s.next
    ensures NothingSearched(s) ==> NothingSearched(Next(s, l).value) && Next(s, l).value.shared.cancelled == s.shared.cancelled
  {
    hide PollNext, RunNext, InnerNext, ClientNext, DestroyNext, NothingAdmitted, NothingSearched;
    DestroyedStays(s, l);
    if IsInner(l) || IsClient(l) || IsDestroy(l) {
      AdmissionSide(s, l);
    } else {
      NotBoth(s, l, l.w);
      AdmissionWorker(s, l, l.w);
    }
  }

  /** From the moment the flag is set, only an executor_submit that has passed its check adds a task, and only an
      executor_cancel that has passed its check flags one. */
  lemma {:induction false} NothingNewAfterDestroy(s: State, ls: seq<Label>, s': State)
    requires s.shared.destroyed && Steps(s, ls, s')
    ensures NothingAdmitted(s) ==> s'.next == s.next
    ensures NothingSearched(s) ==> s'.shared.cancelled == s.shared.cancelled
    decreases |ls|
  {
    hide Next, NothingAdmitted, NothingSearched;
    if ls != [] {
      AdmissionStep(s, ls[0]);
      NothingNewAfterDestroy(Next(s, ls[0]).value, ls[1..], s');
    }
  }

  lemma JoinStep(s: State, l: Label)
    requires (s.destroyer.Joined? ==> AllExited(s)) && Next(s, l).Some?
    ensures Next(s, l).value.destroyer.Joined? ==> AllExited(Next(s, l).value)
  {
    hide PollNext, RunNext, InnerNext, ClientNext;
    var s' := Next(s, l).value;
    if IsInner(l) || IsClient(l) || IsDestroy(l) {
      SideStep(s, l);
      JoinSide(s, l);
      hide Next;
      assert forall w :: 0 <= w < |s.workers| ==> SamePhase(s.workers[w], s'.workers[w]);
    } else {
      NotBoth(s, l, l.w);
      JoinWorker(s, l, l.w);
    }
  }

  lemma JoinSide(s: State, l: Label)
    requires Next(s, l).Some? && (IsInner(l) || IsClient(l) || IsDestroy(l))
    ensures Next(s, l).value.destroyer.Joined? ==> s.destroyer.Joined? || AllExited(s)
  {
  }

  /** A worker that takes a step has not left. */
  lemma JoinWorker(s: State, l: Label, w: nat)
    requires w < |s.workers| && (PollNext(s, l, w).Some? || RunNext(s, l, w).Some?)
    ensures var s' := if PollNext(s, l, w).Some? then PollNext(s, l, w).value else RunNext(s, l, w).value;
      !AllExited(s) && s'.destroyer == s.destroyer
  {
    assert !s.workers[w].Exited?;
  }

  lemma {:induction false} JoinSteps(s: State, ls: seq<Label>, s': State)
    requires (s.destroyer.Joined? ==> AllExited(s)) && Steps(s, ls, s')
    ensures s'.destroyer.Joined? ==> AllExited(s')
    decreases |ls|
  {
    hide Next, AllExited;
    if ls != [] {
      JoinStep(s, ls[0]);
      JoinSteps(Next(s, ls[0]).value, ls[1..], s');
    }
  }

  /** executor_destroy returns only when all workers have left. */
  lemma JoinedMeans(threads: nat, clients: nat, s: State)
    requires Reachable(threads, clients, s) && s.destroyer.Joined?
    ensures AllExited(s)
  {
    var ls :| Steps(Init(threads, clients), ls, s);
    JoinSteps(Init(threads, clients), ls, s);
  }

  /** The flag is set and the task has not passed the check behind its action; or it has since then. */
  predicate Late(s: State, t: nat) {
    && s.shared.destroyed
    && var h := History(s.log, t);
      if h != [] && h[|h| - 1].Finalized? then h[|h| - 1].result == ECANCELED
      else t in s.holder && s.holder[t] < |s.workers| && s.workers[s.holder[t]].ToFinalize? ==>
        s.workers[s.holder[t]].result == ECANCELED
  }

  lemma LateClear(s: State, w: nat, t: nat)
    requires FifoInv(s) && HolderInv(s.workers, s.holder, |s.taken|) && w < |s.workers| && RunNext(s, Clear(w), w).Some?
    requires TaskOk(s.workers, s.holder, |s.taken|, History(s.log, t), t) && Late(s, t)
    ensures Late(RunNext(s, Clear(w), w).value, t)
  {
    HistoryRun(s, Clear(w), w, t);
    PendingRange(s);
  }

  lemma LateOther(s: State, l: Label, w: nat, t: nat)
    requires HolderInv(s.workers, s.holder, |s.taken|) && w < |s.workers| && RunNext(s, l, w).Some?
    requires Late(s, t) && !l.Clear? && t != s.workers[w].task
    requires History(RunNext(s, l, w).value.log, t) == History(s.log, t)
    ensures Late(RunNext(s, l, w).value, t)
  {
    hide History;
  }

  lemma LateOwn(s: State, l: Label, w: nat, t: nat)
    requires HolderInv(s.workers, s.holder, |s.taken|) && w < |s.workers| && RunNext(s, l, w).Some?
    requires TaskOk(s.workers, s.holder, |s.taken|, History(s.log, t), t) && Late(s, t) && !l.Clear?
    requires t == s.workers[w].task
    requires History(RunNext(s, l, w).value.log, t) == History(s.log, t) + Logged(s, l, w)
    ensures Late(RunNext(s, l, w).value, t)
  {
    hide History;
  }

  lemma LateRun(s: State, l: Label, w: nat, t: nat)
    requires FifoInv(s) && HolderInv(s.workers, s.holder, |s.taken|) && w < |s.workers| && RunNext(s, l, w).Some?
    requires TaskOk(s.workers, s.holder, |s.taken|, History(s.log, t), t) && Late(s, t) && !l.Clear?
    ensures Late(RunNext(s, l, w).value, t)
  {
    hide TaskOk, Late, HolderInv;
    HistoryRun(s, l, w, t);
    if t == s.workers[w].task {
      LateOwn(s, l, w, t);
    } else {
      assert History(s.log, t) + [] == History(s.log, t);
      LateOther(s, l, w, t);
    }
  }

  lemma LatePoll(s: State, l: Label, w: nat, t: nat)
    requires HolderInv(s.workers, s.holder, |s.taken|) && w < |s.workers| && PollNext(s, l, w).Some? && Late(s, t)
    ensures Late(PollNext(s, l, w).value, t)
  {
  }

  lemma LateSide(s: State, l: Label, t: nat)
    requires Next(s, l).Some? && (IsInner(l) || IsClient(l) || IsDestroy(l)) && Late(s, t)
    ensures Late(Next(s, l).value, t)
  {
    SideStep(s, l);
    if t in s.holder && s.holder[t] < |s.workers| {
      assert SamePhase(s.workers[s.holder[t]], Next(s, l).value.workers[s.holder[t]]);
    }
  }

  lemma LateStep(s: State, l: Label, t: nat)
    requires Inv(s) && Next(s, l).Some? && Late(s, t)
    ensures Late(Next(s, l).value, t)
  {
    assert TaskOk(s.workers, s.holder, |s.taken|, History(s.log, t), t);
    if IsInner(l) || IsClient(l) || IsDestroy(l) {
      LateSide(s, l, t);
    } else if IsPoll(l) {
      LatePoll(s, l, l.w, t);
    } else if l.Clear? {
      LateClear(s, l.w, t);
    } else {
      LateRun(s, l, l.w, t);
    }
  }

  /** If the flag is set before a task's post-action check, the task is finalized with ECANCELED, if at all. */
  lemma {:induction false} LateTasksCancelled(s: State, ls: seq<Label>, s': State, t: nat, i: nat)
    requires Inv(s) && Late(s, t) && Steps(s, ls, s')
    requires i < |s'.log| && s'.log[i].Finalized? && s'.log[i].task == t
    ensures s'.log[i].result == ECANCELED
    decreases |ls|
  {
    if ls == [] {
      HistoryRank(s'.log, i);
      assert TaskOk(s.workers, s.holder, |s.taken|, History(s.log, t), t);
    } else {
      InvStep(s, ls[0]);
      LateStep(s, ls[0], t);
      LateTasksCancelled(Next(s, ls[0]).value, ls[1..], s', t, i);
    }
  }

  // ---------- queues ----------

  /** Tasks leave the pending queue in the order in which they were pushed, and none is lost or doubled. */
  lemma FirstInFirstOut(threads: nat, clients: nat, s: State)
    requires Reachable(threads, clients, s)
    ensures s.taken == Range(0, |s.taken|)
    ensures |s.taken| <= s.next && s.shared.pending == Range(|s.taken|, s.next - |s.taken|)
  {
    Safety(threads, clients, s);
    PendingRange(s);
    assert s.taken == (s.taken + s.shared.pending)[..|s.taken|];
  }

  /** The active queue holds exactly the tasks of the workers between push and remove, each once;
      so it is never longer than the number of threads, and shares no task with the pending queue. */
  lemma ActiveQueue(threads: nat, clients: nat, s: State)
    requires Reachable(threads, clients, s)
    ensures |s.shared.active| <= threads == |s.workers|
    ensures forall i, j :: 0 <= i < j < |s.shared.active| ==> s.shared.active[i] != s.shared.active[j]
    ensures forall t :: t in s.shared.active <==> exists w :: 0 <= w < threads && InActive(s.workers[w]) && s.workers[w].task == t
    ensures forall t :: t in s.shared.active ==> t !in s.shared.pending
  {
    Safety(threads, clients, s);
    PendingRange(s);
    forall t | t in s.shared.active
      ensures exists w :: 0 <= w < threads && InActive(s.workers[w]) && s.workers[w].task == t
    {
      assert InActive(s.workers[s.holder[t]]);
    }
  }

  /** A worker that wants to remove its task from the active queue finds it there. */
  lemma RemoveFinds(threads: nat, clients: nat, s: State, w: nat)
    requires Reachable(threads, clients, s) && w < threads
    requires |s.workers| == threads && s.workers[w].Removing?
    ensures Next(s, Deactivate(w)).Some?
  {
    Safety(threads, clients, s);
  }

  /** No lost wake-up: if a worker sleeps while tasks are queued, then for every queued task there is a worker
      awake and about to look at the queue, or a push that has still to signal. */
  lemma NoLostWakeup(threads: nat, clients: nat, s: State)
    requires Reachable(threads, clients, s) && SomeoneAsleep(s)
    ensures |s.shared.pending| <= Count(s.workers, Credit) + Count(s.clients, ClientCredit)
    ensures s.shared.pending != [] ==>
      || (exists w :: 0 <= w < |s.workers| && Credit(s.workers[w]))
      || (exists c :: 0 <= c < |s.clients| && ClientCredit(s.clients[c]))
  {
    Safety(threads, clients, s);
    if forall w :: 0 <= w < |s.workers| ==> !Credit(s.workers[w]) {
      CountNone(s.workers, Credit);
    }
    if forall c :: 0 <= c < |s.clients| ==> !ClientCredit(s.clients[c]) {
      CountNone(s.clients, ClientCredit);
    }
  }
}
