/** Which result the finalizer of a task receives (util/executor/executor.c). */
module ExecutorResults {
  import opened ExecutorShared
  import opened ExecutorProtocol
  import opened ExecutorSafety
  import opened ExecutorInvariant
  import opened ExecutorTheorems
  import opened ExecutorCancel

  /** With step l a worker goes on from the end of the action of task t. */
  predicate GoesOn(s: State, l: Label, t: nat) {
    Next(s, l).Some? && exists w :: 0 <= w < |s.workers| && WentOn(s, Next(s, l).value, w, t)
  }

  predicate WentOn(s: State, s': State, w: nat, t: nat) {
    w < |s.workers| && w < |s'.workers| && s.workers[w].Acted? && s.workers[w].task == t && !s'.workers[w].Acted?
  }

  /** In the run ls from s, `destroyed` is set when a worker goes on from the end of the action of task t. */
  predicate WentOnLate(s: State, ls: seq<Label>, t: nat)
    decreases |ls|
  {
    ls != [] && Next(s, ls[0]).Some?
    && ((GoesOn(s, ls[0], t) && s.shared.destroyed) || WentOnLate(Next(s, ls[0]).value, ls[1..], t))
  }

  /** Task t, with k events behind it, is to be finalized with x, or has been. */
  predicate Decided(s: State, t: nat, x: int, k: nat) {
    var h := History(s.log, t);
    || (|h| == k && t in s.holder && s.holder[t] < |s.workers| && s.workers[s.holder[t]] == ToFinalize(t, x))
    || (|h| == k + 1 && h[k] == Finalized(t, x))
  }

  /** Nothing has been decided about the result of task t. */
  predicate Undecided(s: State, t: nat) {
    var h := History(s.log, t);
    && |h| <= 2 && (|h| == 1 ==> !h[0].Finalized?)
    && !(t in s.holder && s.holder[t] < |s.workers| && s.workers[s.holder[t]].ToFinalize?)
  }

  // ---------- what has been decided stays ----------

  lemma DecidedSide(s: State, l: Label, t: nat, x: int, k: nat)
    requires Next(s, l).Some? && (IsInner(l) || IsClient(l) || IsDestroy(l)) && Decided(s, t, x, k)
    ensures Decided(Next(s, l).value, t, x, k)
  {
    SideStep(s, l);
    hide Next, History;
    if t in s.holder && s.holder[t] < |s.workers| {
      assert SamePhase(s.workers[s.holder[t]], Next(s, l).value.workers[s.holder[t]]);
    }
  }

  lemma DecidedPoll(s: State, l: Label, w: nat, t: nat, x: int, k: nat)
    requires FifoInv(s) && HolderInv(s.workers, s.holder, |s.taken|) && w < |s.workers| && PollNext(s, l, w).Some?
    requires Decided(s, t, x, k)
    ensures Decided(PollNext(s, l, w).value, t, x, k)
  {
    hide History;
    if l.Take? {
      NextTask(s);
    }
  }

  lemma DecidedRun(s: State, l: Label, w: nat, t: nat, x: int, k: nat)
    requires FifoInv(s) && HolderInv(s.workers, s.holder, |s.taken|) && w < |s.workers| && RunNext(s, l, w).Some?
    requires t in s.holder && s.workers[s.holder[t]] == ToFinalize(t, x) && |History(s.log, t)| == k
    ensures Decided(RunNext(s, l, w).value, t, x, k)
  {
    HistoryRun(s, l, w, t);
    hide History;
    assert History(s.log, t) + [] == History(s.log, t);
    if w != s.holder[t] && HasTask(s.workers[w]) {
      assert s.workers[w].task != t;
    }
  }

  /** After its finalizer nothing happens to a task. */
  lemma FinishedStays(s: State, l: Label, t: nat, x: int, k: nat)
    requires Inv(s) && Next(s, l).Some? && Inv(Next(s, l).value)
    requires |History(s.log, t)| == k + 1 && History(s.log, t)[k] == Finalized(t, x)
    ensures History(Next(s, l).value.log, t) == History(s.log, t)
  {
    var s' := Next(s, l).value;
    hide Next, History;
    assert Steps(s', [l][1..], s');
    assert Steps(s, [l], s');
    HistoryGrows(s, [l], s', t);
    var h, h' := History(s.log, t), History(s'.log, t);
    assert TaskOk(s.workers, s.holder, |s.taken|, h, t) && TaskOk(s'.workers, s'.holder, |s'.taken|, h', t);
    FinishedMeans(s, h, t, k);
    NoMore(s', h, h', t);
    assert h'[0] == h[0];
  }

  lemma FinishedMeans(s: State, h: seq<Event>, t: nat, k: nat)
    requires TaskOk(s.workers, s.holder, |s.taken|, h, t) && |h| == k + 1 && h[k].Finalized?
    ensures Complete(h, t)
  {
  }

  lemma DecidedStep(s: State, l: Label, t: nat, x: int, k: nat)
    requires Inv(s) && Next(s, l).Some? && Inv(Next(s, l).value) && Decided(s, t, x, k)
    ensures Decided(Next(s, l).value, t, x, k)
  {
    hide History;
    var h := History(s.log, t);
    if |h| == k + 1 && h[k] == Finalized(t, x) {
      FinishedStays(s, l, t, x, k);
    } else if IsInner(l) || IsClient(l) || IsDestroy(l) {
      DecidedSide(s, l, t, x, k);
    } else if IsPoll(l) {
      DecidedPoll(s, l, l.w, t, x, k);
    } else {
      DecidedRun(s, l, l.w, t, x, k);
    }
  }

  lemma DecidedAlready(s: State, l: Label, t: nat, x: int, k: nat)
    requires Inv(s) && Decided(s, t, x, k)
    ensures !GoesOn(s, l, t)
  {
    hide Next, History;
    var h := History(s.log, t);
    assert TaskOk(s.workers, s.holder, |s.taken|, h, t);
    if |h| == k + 1 && h[k] == Finalized(t, x) {
      FinishedMeans(s, h, t, k);
    }
  }

  lemma {:induction false} DecidedSteps(s: State, ls: seq<Label>, s': State, t: nat, x: int, k: nat)
    requires Inv(s) && Steps(s, ls, s') && Decided(s, t, x, k)
    ensures Decided(s', t, x, k) && !WentOnLate(s, ls, t)
    decreases |ls|
  {
    hide Next, Decided, GoesOn;
    if ls != [] {
      InvStep(s, ls[0]);
      DecidedStep(s, ls[0], t, x, k);
      DecidedAlready(s, ls[0], t, x, k);
      DecidedSteps(Next(s, ls[0]).value, ls[1..], s', t, x, k);
    }
  }

  // ---------- until it is decided ----------

  lemma UndecidedSide(s: State, l: Label, t: nat)
    requires Next(s, l).Some? && (IsInner(l) || IsClient(l) || IsDestroy(l)) && Undecided(s, t)
    ensures Undecided(Next(s, l).value, t) && !GoesOn(s, l, t)
  {
    SideStep(s, l);
    hide Next, History;
    var s' := Next(s, l).value;
    assert forall w :: 0 <= w < |s.workers| ==> SamePhase(s.workers[w], s'.workers[w]);
  }

  lemma UndecidedPoll(s: State, l: Label, w: nat, t: nat)
    requires w < |s.workers| && PollNext(s, l, w).Some? && Undecided(s, t)
    ensures var s' := PollNext(s, l, w).value; Undecided(s', t) && forall v :: 0 <= v < |s.workers| ==> !WentOn(s, s', v, t)
  {
    hide History;
  }

  /** From s to s' the result r of the action of task t, or its cancellation before that, decides what is to be passed on. */
  predicate DecidesWith(s: State, s': State, t: nat, r: int) {
    var h := History(s.log, t);
    && Decided(s', t, if s.shared.destroyed then ECANCELED else r, |h|)
    && ((h == [] && r == ECANCELED) || (|h| == 2 && h[1] == Returned(t, r)))
  }

  /** The worker of task t goes on from its action: what the finalizer will receive is decided. */
  lemma Deciding(s: State, l: Label, w: nat, t: nat)
    requires FifoInv(s) && HolderInv(s.workers, s.holder, |s.taken|) && w < |s.workers| && RunNext(s, l, w).Some?
    requires TaskOk(s.workers, s.holder, |s.taken|, History(s.log, t), t) && WentOn(s, RunNext(s, l, w).value, w, t)
    ensures DecidesWith(s, RunNext(s, l, w).value, t, s.workers[w].result)
  {
    HistoryRun(s, l, w, t);
    hide History;
    assert History(s.log, t) + [] == History(s.log, t);
  }

  lemma UndecidedOwn(s: State, l: Label, w: nat, t: nat)
    requires HolderInv(s.workers, s.holder, |s.taken|) && w < |s.workers| && RunNext(s, l, w).Some? && !l.Clear?
    requires TaskOk(s.workers, s.holder, |s.taken|, History(s.log, t), t) && Undecided(s, t) && t == s.workers[w].task
    requires History(RunNext(s, l, w).value.log, t) == History(s.log, t) + Logged(s, l, w)
    requires !WentOn(s, RunNext(s, l, w).value, w, t)
    ensures var s' := RunNext(s, l, w).value; Undecided(s', t) || Decided(s', t, ECANCELED, 0)
  {
    hide History;
  }

  lemma UndecidedOther(s: State, l: Label, w: nat, t: nat)
    requires HolderInv(s.workers, s.holder, |s.taken|) && w < |s.workers| && RunNext(s, l, w).Some? && !l.Clear?
    requires Undecided(s, t) && t != s.workers[w].task && History(RunNext(s, l, w).value.log, t) == History(s.log, t)
    ensures Undecided(RunNext(s, l, w).value, t)
  {
    hide History;
  }

  lemma UndecidedClear(s: State, w: nat, t: nat)
    requires FifoInv(s) && HolderInv(s.workers, s.holder, |s.taken|) && w < |s.workers| && RunNext(s, Clear(w), w).Some?
    requires TaskOk(s.workers, s.holder, |s.taken|, History(s.log, t), t) && Undecided(s, t)
    ensures var s' := RunNext(s, Clear(w), w).value; Undecided(s', t) || Decided(s', t, ECANCELED, 0)
  {
    HistoryRun(s, Clear(w), w, t);
    hide History;
    assert History(s.log, t) + [] == History(s.log, t);
  }

  lemma UndecidedRun(s: State, l: Label, w: nat, t: nat)
    requires FifoInv(s) && HolderInv(s.workers, s.holder, |s.taken|) && w < |s.workers| && RunNext(s, l, w).Some?
    requires TaskOk(s.workers, s.holder, |s.taken|, History(s.log, t), t) && Undecided(s, t)
    requires !WentOn(s, RunNext(s, l, w).value, w, t)
    ensures var s' := RunNext(s, l, w).value; Undecided(s', t) || Decided(s', t, ECANCELED, 0)
  {
    hide History, TaskOk, Undecided, Decided, WentOn, HolderInv;
    HistoryRun(s, l, w, t);
    if l.Clear? {
      UndecidedClear(s, w, t);
    } else if t == s.workers[w].task {
      UndecidedOwn(s, l, w, t);
    } else {
      assert History(s.log, t) + [] == History(s.log, t);
      UndecidedOther(s, l, w, t);
    }
  }

  lemma OnlyOneGoesOn(s: State, l: Label, w: nat, t: nat)
    requires w < |s.workers| && RunNext(s, l, w).Some?
    ensures var s' := RunNext(s, l, w).value; forall v :: 0 <= v < |s.workers| && WentOn(s, s', v, t) ==> v == w
  {
  }

  /** One step from a state in which the result of task t has not been decided. */
  lemma UndecidedStep(s: State, l: Label, t: nat)
    requires Inv(s) && Next(s, l).Some? && Undecided(s, t)
    ensures !GoesOn(s, l, t) ==> Undecided(Next(s, l).value, t) || Decided(Next(s, l).value, t, ECANCELED, 0)
    ensures GoesOn(s, l, t) ==> exists r: int :: DecidesWith(s, Next(s, l).value, t, r)
  {
    hide History, Undecided, Decided, WentOn, DecidesWith;
    assert TaskOk(s.workers, s.holder, |s.taken|, History(s.log, t), t);
    if IsInner(l) || IsClient(l) || IsDestroy(l) {
      UndecidedSide(s, l, t);
    } else if IsPoll(l) {
      UndecidedPoll(s, l, l.w, t);
    } else {
      OnlyOneGoesOn(s, l, l.w, t);
      if WentOn(s, RunNext(s, l, l.w).value, l.w, t) {
        Deciding(s, l, l.w, t);
      } else {
        UndecidedRun(s, l, l.w, t);
      }
    }
  }

  /** From a state in which it has not been decided yet on. */
  lemma {:induction false} ResultSince(s: State, ls: seq<Label>, s': State, t: nat)
    requires Inv(s) && Steps(s, ls, s') && Undecided(s, t) && |History(s'.log, t)| == 3
    ensures var h := History(s'.log, t);
      h[1].Returned? && h[2] == Finalized(t, if WentOnLate(s, ls, t) then ECANCELED else h[1].result)
    decreases |ls|
  {
    hide Next, GoesOn, History;
    if ls != [] {
      var s1 := Next(s, ls[0]).value;
      InvStep(s, ls[0]);
      UndecidedStep(s, ls[0], t);
      HistoryGrows(s, ls, s', t);
      if GoesOn(s, ls[0], t) {
        var h := History(s.log, t);
        var r: int :| DecidesWith(s, s1, t, r);
        DecidedSteps(s1, ls[1..], s', t, if s.shared.destroyed then ECANCELED else r, |h|);
      } else if Undecided(s1, t) {
        ResultSince(s1, ls[1..], s', t);
      } else {
        DecidedSteps(s1, ls[1..], s', t, ECANCELED, 0);
      }
    }
  }

  /** The finalizer of a task that has run receives the result of its action, except if `destroyed` was set when the worker
      went on from the action: then it receives ECANCELED.  So the two results differ exactly in that case, unless the
      action itself returned ECANCELED. */
  lemma ResultExactly(threads: nat, clients: nat, ls: seq<Label>, s: State, t: nat)
    requires threads > 0 && Steps(Init(threads, clients), ls, s) && |History(s.log, t)| == 3
    ensures
      var h, late := History(s.log, t), WentOnLate(Init(threads, clients), ls, t);
      && h[0].Started? && h[1].Returned? && h[2].Finalized? && h[2].result == (if late then ECANCELED else h[1].result)
      && (h[1].result != ECANCELED ==> (h[2].result != h[1].result <==> late))
  {
    InvInit(threads, clients);
    ResultSince(Init(threads, clients), ls, s, t);
    InvSteps(Init(threads, clients), ls, s);
    assert TaskOk(s.workers, s.holder, |s.taken|, History(s.log, t), t);
  }

  lemma {:induction false} LateDestroyed(s: State, ls: seq<Label>, s': State, t: nat)
    requires Steps(s, ls, s') && (WentOnLate(s, ls, t) || s.shared.destroyed)
    ensures s'.shared.destroyed
    decreases |ls|
  {
    hide Next, GoesOn;
    if ls != [] {
      if s.shared.destroyed {
        DestroyedStays(s, ls[0]);
      }
      LateDestroyed(Next(s, ls[0]).value, ls[1..], s', t);
    }
  }

  /** As long as executor_destroy has not been called, every finalizer receives the result of its action. */
  lemma ResultsArrive(threads: nat, clients: nat, s: State, t: nat)
    requires Reachable(threads, clients, s) && !s.shared.destroyed && |History(s.log, t)| == 3
    ensures var h := History(s.log, t); h[1].Returned? && h[2] == Finalized(t, h[1].result)
  {
    var ls :| Steps(Init(threads, clients), ls, s);
    ResultExactly(threads, clients, ls, s, t);
    if WentOnLate(Init(threads, clients), ls, t) {
      LateDestroyed(Init(threads, clients), ls, s, t);
    }
  }
}
