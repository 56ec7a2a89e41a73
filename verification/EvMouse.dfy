/** Interrupting the listening thread (device/evmouse/evmouse.c), as a transition system: each step is one
    section under the lock, or what the listener does between two of them. */
module EvMouse {

  /** Where the listening thread is: outside evmouse_listen, at the guard of its loop, in the body, or behind the loop. */
  datatype Pc = Outside | Guard | Body | Behind

  datatype State = State(listening: bool, interrupted: bool, pc: Pc)

  datatype Step = Listen | Test | Dispatch | Leave | Interrupt

  const INIT := State(false, false, Outside)

  /** The step can be taken: an interrupt at any time, the listener's steps in their order. */
  predicate Enabled(s: State, t: Step) {
    match t
    case Interrupt => true
    case Listen => s.pc == Outside
    case Test => s.pc == Guard
    case Dispatch => s.pc == Body
    case Leave => s.pc == Behind
  }

  function Next(s: State, t: Step): State {
    match t
    // evmouse_interrupt
    case Interrupt => s.(interrupted := true, listening := false)
    // evmouse_listen up to the loop
    case Listen =>
      if s.listening then s
      else if s.interrupted then s.(interrupted := false)
      else s.(listening := true, pc := Guard)
    // evmouse_is_interrupted
    case Test => s.(pc := if s.listening then Body else Behind)
    case Dispatch => s.(pc := Guard)
    // evmouse_listen behind the loop
    case Leave => s.(interrupted := false, pc := Outside)
  }

  /** The state after some steps, if they can be taken one after the other. */
  ghost predicate Leads(s: State, steps: seq<Step>, t: State)
    decreases |steps|
  {
    if steps == [] then s == t else Enabled(s, steps[0]) && Leads(Next(s, steps[0]), steps[1..], t)
  }

  ghost predicate Reachable(s: State) {
    exists steps :: Leads(INIT, steps, s)
  }

  /** Outside evmouse_listen nobody is listening; inside, nobody has interrupted as long as somebody is listening, and
      once nobody is, there was an interrupt. */
  predicate Inv(s: State) {
    && (s.pc == Outside ==> !s.listening)
    && (s.pc == Behind ==> !s.listening)
    && (s.pc != Outside ==> s.interrupted == !s.listening)
  }

  lemma {:induction false} InvKept(s: State, steps: seq<Step>, t: State)
    requires Inv(s) && Leads(s, steps, t)
    ensures Inv(t)
    decreases |steps|
  {
    if steps != [] {
      InvKept(Next(s, steps[0]), steps[1..], t);
    }
  }

  lemma ReachableInv(s: State)
    requires Reachable(s)
    ensures Inv(s)
  {
    var steps :| Leads(INIT, steps, s);
    InvKept(INIT, steps, s);
  }

  /** Only interrupts among the steps. */
  predicate OnlyInterrupts(steps: seq<Step>) {
    forall i :: 0 <= i < |steps| ==> steps[i] == Interrupt
  }

  predicate NoInterrupt(steps: seq<Step>) {
    forall i :: 0 <= i < |steps| ==> steps[i] != Interrupt
  }

  lemma {:induction false} InterruptsKeep(s: State, steps: seq<Step>, t: State)
    requires OnlyInterrupts(steps) && Leads(s, steps, t)
    ensures t.pc == s.pc && (s.interrupted && !s.listening ==> t.interrupted && !t.listening)
    decreases |steps|
  {
    if steps != [] {
      InterruptsKeep(Next(s, steps[0]), steps[1..], t);
    }
  }

  /** An interrupt taken while no listen call is running, and any more that follow, make the next listen call return at
      once; the one after it, if nobody interrupts again, enters the loop. */
  lemma IdleInterruptStopsNextListen(s: State, more: seq<Step>, t: State)
    requires Reachable(s) && s.pc == Outside
    requires OnlyInterrupts(more) && Leads(Next(s, Interrupt), more, t)
    ensures Enabled(t, Listen) && Next(t, Listen).pc == Outside
    ensures Next(Next(t, Listen), Listen).pc == Guard && Next(Next(t, Listen), Listen).listening
  {
    ReachableInv(s);
    InterruptsKeep(Next(s, Interrupt), more, t);
  }

  /** The listener is still in the call it was in. */
  ghost predicate StaysInside(s: State, steps: seq<Step>)
    decreases |steps|
  {
    s.pc != Outside && (steps != [] ==> StaysInside(Next(s, steps[0]), steps[1..]))
  }

  /** After an interrupt taken during a listen call, every later test of the loop guard fails until that call returns. */
  lemma {:induction false} InterruptStopsLoop(s: State, steps: seq<Step>, t: State)
    requires s.pc != Outside && !s.listening
    requires Leads(s, steps, t) && StaysInside(s, steps)
    ensures !t.listening && Next(t, Test).pc == Behind
    decreases |steps|
  {
    if steps != [] {
      InterruptStopsLoop(Next(s, steps[0]), steps[1..], t);
    }
  }

  function OwnSteps(steps: seq<Step>): nat {
    if steps == [] then 0 else (if steps[0] == Interrupt then 0 else 1) + OwnSteps(steps[1..])
  }

  /** How many steps of its own an interrupted call still takes. */
  function StepsLeft(pc: Pc): nat {
    match pc
    case Outside => 0
    case Behind => 1
    case Guard => 2
    case Body => 3
  }

  /** So the call returns after at most three more steps of the listener: the rest of the body, the test, the end. */
  lemma {:induction false} InterruptedCallReturns(s: State, steps: seq<Step>, t: State)
    requires s.pc != Outside && !s.listening
    requires Leads(s, steps, t) && StaysInside(s, steps)
    ensures OwnSteps(steps) < StepsLeft(s.pc)
    decreases |steps|
  {
    if steps != [] {
      InterruptedCallReturns(Next(s, steps[0]), steps[1..], t);
    }
  }

  /** Without an interrupt a call that has entered the loop stays in it. */
  lemma {:induction false} OnlyInterruptsStop(s: State, steps: seq<Step>, t: State)
    requires (s.pc == Guard || s.pc == Body) && s.listening
    requires NoInterrupt(steps) && Leads(s, steps, t)
    ensures (t.pc == Guard || t.pc == Body) && t.listening
    decreases |steps|
  {
    if steps != [] {
      OnlyInterruptsStop(Next(s, steps[0]), steps[1..], t);
    }
  }

  /** An interrupt is answered by one call only: after the call that it stops, the next one enters the loop. */
  lemma InterruptConsumed(s: State)
    requires Reachable(s) && s.pc == Behind
    ensures Next(s, Leave).pc == Outside && Next(Next(s, Leave), Listen).pc == Guard
  {
    ReachableInv(s);
  }
}
