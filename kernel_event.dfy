/** The kernel's Event synchronisation object and the timing queue that carries its
    deferred signals.

    An event is a `signaled` flag with a reset type. A thread may pass a wait point on the
    event only when `ShouldWait()` is false; passing it calls `Acquire`, which consumes the
    signal unless the event is Sticky. `Signal(0)` sets the flag and wakes every waiter at
    once; `Signal(d)` with `d > 0` only queues a token that the timing scheduler fires later.

    The pure part (`EventState`, `Step`, `Run`) is the specification the `Event` methods are
    proved against; the lemmas below state the reset-type guarantees over whole traces. */
module Kernel {
  import opened Results

  datatype ResetType = OneShot | Sticky | Pulse

  /** What can be observed of an event: its flag, its reset type, and how many times it has
      woken all of its waiting threads. */
  datatype EventState = EventState(signaled: bool, resetType: ResetType, wakeups: nat) {
    /** The wait predicate: a thread must block while this holds. */
    predicate ShouldWait() {
      !signaled
    }
  }

  /** The operations that change an event: `FireOp` is the scheduler delivering a token
      that an earlier `SignalOp(d)` with `d > 0` queued for this event. */
  datatype Op = AcquireOp | SignalOp(delay: nat) | ClearOp | FireOp

  /** The effect of an immediate signal: set the flag and wake all waiting threads. */
  function Delivered(s: EventState): EventState {
    s.(signaled := true, wakeups := s.wakeups + 1)
  }

  /** One operation on an event. `None` is the failed assertion of an `Acquire` on an event
      that should still be waited on: the emulation aborts, so there is no next state. */
  function Step(s: EventState, op: Op): (r: Option<EventState>)
    ensures r.None? <==> op.AcquireOp? && s.ShouldWait()
    ensures r.Some? ==> r.value.resetType == s.resetType && r.value.wakeups >= s.wakeups
  {
    match op
    case AcquireOp =>
      if s.ShouldWait() then None
      else if s.resetType != Sticky then Some(s.(signaled := false))
      else Some(s)
    case SignalOp(delay) =>
      if delay == 0 then Some(Delivered(s)) else Some(s)
    case ClearOp => Some(s.(signaled := false))
    case FireOp => Some(Delivered(s))
  }

  /** A sequence of operations, stopping at the first failed assertion. */
  function Run(s: EventState, ops: seq<Op>): Option<EventState>
    decreases |ops|
  {
    if ops == [] then Some(s)
    else match Step(s, ops[0])
      case None => None
      case Some(t) => Run(t, ops[1..])
  }

  /** How many operations in `ops` signal the event: immediate signals and fired tokens. */
  function Deliveries(ops: seq<Op>): nat {
    if ops == [] then 0
    else (if ops[0] == SignalOp(0) || ops[0].FireOp? then 1 else 0) + Deliveries(ops[1..])
  }

  /** How many operations in `ops` acquire the event. */
  function Acquires(ops: seq<Op>): nat {
    if ops == [] then 0
    else (if ops[0].AcquireOp? then 1 else 0) + Acquires(ops[1..])
  }

  /** A Sticky event, once signalled, stays signalled through any number of acquisitions,
      immediate or deferred signals and fired tokens: only `Clear` resets it. */
  lemma {:induction false} StickyStaysSignaledUntilClear(s: EventState, ops: seq<Op>)
    requires s.resetType == Sticky && !s.ShouldWait()
    requires forall i :: 0 <= i < |ops| ==> ops[i] != ClearOp
    ensures Run(s, ops).Some? && !Run(s, ops).value.ShouldWait()
    decreases |ops|
  {
    if ops != [] {
      var t := Step(s, ops[0]).value;
      assert t.resetType == Sticky && !t.ShouldWait();
      StickyStaysSignaledUntilClear(t, ops[1..]);
    }
  }

  /** On a OneShot or Pulse event every acquisition consumes one signal: over any trace that
      does not abort, the acquisitions plus a signal still pending at the end never outnumber
      the signals delivered plus one already pending at the start. Of several waiters made
      ready by one signal, at most one can keep it. */
  lemma {:induction false} NonStickyAcquireConsumesSignal(s: EventState, ops: seq<Op>)
    requires s.resetType != Sticky
    requires Run(s, ops).Some?
    ensures Acquires(ops) + (if Run(s, ops).value.signaled then 1 else 0)
            <= Deliveries(ops) + (if s.signaled then 1 else 0)
    decreases |ops|
  {
    if ops != [] {
      var t := Step(s, ops[0]).value;
      NonStickyAcquireConsumesSignal(t, ops[1..]);
    }
  }

  /** Every delivered signal wakes the waiters exactly once, and nothing else wakes them:
      not `Clear`, not `Acquire`, not a signal that is still queued. */
  lemma {:induction false} WakeupsCountDeliveries(s: EventState, ops: seq<Op>)
    requires Run(s, ops).Some?
    ensures Run(s, ops).value.wakeups == s.wakeups + Deliveries(ops)
    decreases |ops|
  {
    if ops != [] {
      WakeupsCountDeliveries(Step(s, ops[0]).value, ops[1..]);
    }
  }

  /** A deferred signal leaves the event as it was; firing its token has the effect of an
      immediate signal. */
  lemma DeferredSignalTakesEffectOnFire(s: EventState, delay: nat)
    requires delay > 0
    ensures Step(s, SignalOp(delay)) == Some(s)
    ensures Run(s, [SignalOp(delay), FireOp]) == Run(s, [SignalOp(0)])
    ensures !Run(s, [SignalOp(delay), FireOp]).value.ShouldWait()
  {
    assert [SignalOp(delay), FireOp][1..] == [FireOp];
    assert [FireOp][1..] == [] && [SignalOp(0)][1..] == [];
  }

  /** After one signal, a OneShot or Pulse event admits exactly one acquisition: the second
      would fail the assertion. */
  lemma NonStickySignalAdmitsOneAcquire(s: EventState)
    requires s.resetType != Sticky
    ensures Run(s, [SignalOp(0), AcquireOp]).Some?
    ensures Run(s, [SignalOp(0), AcquireOp]).value.ShouldWait()
    ensures Run(s, [SignalOp(0), AcquireOp, AcquireOp]).None?
  {
  }

  /** `Clear` always leaves the event in the state where threads must wait, and wakes no one. */
  lemma ClearForcesWait(s: EventState)
    ensures Run(s, [ClearOp]) == Some(s.(signaled := false))
    ensures Run(s, [ClearOp]).value.ShouldWait()
  {
  }

  /** A kernel event object, shared by every holder of a handle to it. */
  class Event {
    var signaled: bool
    var resetType: ResetType
    var name: string
    /** How many times `WakeupAllWaitingThreads` has run on this event. */
    var wakeups: nat

    function State(): EventState
      reads this
    {
      EventState(signaled, resetType, wakeups)
    }

    constructor Create(resetType: ResetType, name: string)
      ensures State() == EventState(false, resetType, 0) && this.name == name
      ensures State().ShouldWait()
    {
      signaled := false;
      this.resetType := resetType;
      this.name := name;
      wakeups := 0;
    }

    method ShouldWait() returns (r: bool)
      ensures r == State().ShouldWait()
    {
      r := !signaled;
    }

    method Acquire()
      requires !State().ShouldWait()
      modifies this`signaled
      ensures Step(old(State()), AcquireOp) == Some(State())
      ensures signaled == (resetType == Sticky)
    {
      if resetType != Sticky {
        signaled := false;
      }
    }

    method Signal(delay: nat, timing: CoreTiming)
      modifies this`signaled, this`wakeups, timing`queue
      ensures Step(old(State()), SignalOp(delay)) == Some(State())
      ensures delay == 0 ==> timing.queue == old(timing.queue)
      ensures delay > 0 ==> timing.queue == old(timing.queue) + [Token(timing.usToCycles(delay), this)]
    {
      if delay == 0 {
        signaled := true;
        WakeupAllWaitingThreads();
      } else {
        timing.ScheduleEvent(timing.usToCycles(delay), this);
      }
    }

    method Clear()
      modifies this`signaled
      ensures Step(old(State()), ClearOp) == Some(State())
    {
      signaled := false;
    }

    /** Waking the waiting threads is recorded, not performed: thread scheduling is not
        part of this model. */
    method WakeupAllWaitingThreads()
      modifies this`wakeups
      ensures wakeups == old(wakeups) + 1
    {
      wakeups := wakeups + 1;
    }
  }

  /** The callback a fired token runs: signal the event now, unless the token names none. */
  method EventCallback(event: Event?)
    modifies event
    ensures event != null ==> Step(old(event.State()), FireOp) == Some(event.State())
    ensures event != null ==> event.name == old(event.name)
  {
    if event != null {
      event.signaled := true;
      event.WakeupAllWaitingThreads();
    }
  }

  /** A pending deferred signal: when it is due, in emulated cycles, and which event it
      signals (a null reference is ignored when it fires). */
  datatype Token = Token(cycles: nat, event: Event?)

  /** The timing scheduler, reduced to its queue of pending tokens. Which pending token is
      due first is the scheduler's business, so `Fire` may drain any of them. */
  class CoreTiming {
    var queue: seq<Token>
    /** The microseconds-to-cycles conversion of the emulated clock. */
    const usToCycles: nat -> nat

    constructor (usToCycles: nat -> nat)
      ensures queue == [] && this.usToCycles == usToCycles
    {
      queue := [];
      this.usToCycles := usToCycles;
    }

    method ScheduleEvent(cycles: nat, event: Event?)
      modifies this`queue
      ensures queue == old(queue) + [Token(cycles, event)]
    {
      queue := queue + [Token(cycles, event)];
    }

    /** Deliver pending token `i`: it leaves the queue and its callback runs once. */
    method Fire(i: nat)
      requires i < |queue|
      modifies this`queue, queue[i].event
      ensures queue == old(queue[..i] + queue[i + 1..])
      ensures old(queue[i].event) != null ==>
                Step(old(queue[i].event.State()), FireOp) == Some(old(queue[i].event).State())
      ensures old(queue[i].event) != null ==> old(queue[i].event).name == old(queue[i].event.name)
    {
      var token := queue[i];
      queue := queue[..i] + queue[i + 1..];
      EventCallback(token.event);
    }
  }
}
