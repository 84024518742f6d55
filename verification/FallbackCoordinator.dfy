/**
 The fallback coordinator as an interleaving machine.

 The shared object holds a cancellation token, a counter of pending tasks and a notifier that
 stores at most one permit. Every atomic access of the source is one step, so a schedule is a
 sequence of steps chosen freely among the handlers, the trigger caller and any other component
 that cancels the token. Atomics are sequentially consistent and the counter is unbounded.
 */
module FallbackCoordinator {
  import opened Runs

  /** Where a registered handler stands in `done`. */
  datatype HandlerPc =
    | Active                  // registered, `done` not called yet
    | Marked                  // `done` flag stored
    | Decremented(prev: int)  // counter decremented, old value `prev` in hand
    | MustNotify              // saw the token cancelled and `prev == 1`
    | Finished

  /** Where the single caller of `trigger_fallback_and_wait` stands. */
  datatype TriggerPc = Idle | Loading | Waiting | Returned

  /** `dropped` and `late` are history: the counter has gone back to zero; someone registered after that. */
  datatype State = State(
    cancelled: bool,
    pending: int,
    permit: bool,
    handlers: seq<HandlerPc>,
    trigger: TriggerPc,
    dropped: bool,
    late: bool)

  datatype Step =
    | Register
    | MarkDone(h: nat)
    | FetchSub(h: nat)
    | CheckCancelled(h: nat)
    | NotifyOne(h: nat)
    | OtherCancel
    | TriggerCancel
    | TriggerLoad
    | TriggerWake

  const INIT := State(false, 0, false, [], Idle, false, false)

  predicate Enabled(s: State, step: Step) {
    match step
    case Register => true
    case MarkDone(h) => h < |s.handlers| && s.handlers[h].Active?
    case FetchSub(h) => h < |s.handlers| && s.handlers[h].Marked?
    case CheckCancelled(h) => h < |s.handlers| && s.handlers[h].Decremented?
    case NotifyOne(h) => h < |s.handlers| && s.handlers[h].MustNotify?
    case OtherCancel => !s.cancelled
    case TriggerCancel => s.trigger.Idle?
    case TriggerLoad => s.trigger.Loading?
    case TriggerWake => s.trigger.Waiting? && s.permit
  }

  function Apply(s: State, step: Step): State
    requires Enabled(s, step)
  {
    match step
    case Register =>
      s.(pending := s.pending + 1, handlers := s.handlers + [Active], late := s.late || s.dropped)
    case MarkDone(h) =>
      s.(handlers := s.handlers[h := Marked])
    case FetchSub(h) =>
      s.(pending := s.pending - 1,
         handlers := s.handlers[h := Decremented(s.pending)],
         dropped := s.dropped || s.pending == 1)
    case CheckCancelled(h) =>
      s.(handlers := s.handlers[h := if s.cancelled && s.handlers[h].prev == 1 then MustNotify else Finished])
    case NotifyOne(h) =>
      s.(permit := true, handlers := s.handlers[h := Finished])
    case OtherCancel =>
      s.(cancelled := true)
    case TriggerCancel =>
      s.(cancelled := true, trigger := Loading)
    case TriggerLoad =>
      s.(trigger := if s.pending == 0 then Returned else Waiting)
    case TriggerWake =>
      s.(permit := false, trigger := Returned)
  }

  /** The state a schedule leads to, or `Stuck` when it takes a step that is not enabled. */
  function Run(steps: seq<Step>): Outcome<State> {
    if steps == [] then At(INIT)
    else
      var before := Run(steps[..|steps| - 1]);
      var last := steps[|steps| - 1];
      if before.At? && Enabled(before.s, last) then At(Apply(before.s, last)) else Stuck
  }

  predicate StillPending(pc: HandlerPc) {
    pc.Active? || pc.Marked?
  }

  function PendingCount(handlers: seq<HandlerPc>): nat {
    if handlers == [] then 0
    else PendingCount(handlers[..|handlers| - 1]) + if StillPending(handlers[|handlers| - 1]) then 1 else 0
  }

  lemma {:induction false} PendingCountUpdate(handlers: seq<HandlerPc>, h: nat, pc: HandlerPc)
    requires h < |handlers|
    ensures PendingCount(handlers[h := pc])
         == PendingCount(handlers) - (if StillPending(handlers[h]) then 1 else 0) + (if StillPending(pc) then 1 else 0)
  {
    var n := |handlers| - 1;
    if h == n {
      assert handlers[h := pc][..n] == handlers[..n];
    } else {
      PendingCountUpdate(handlers[..n], h, pc);
      assert handlers[h := pc][..n] == handlers[..n][h := pc];
    }
  }

  lemma {:induction false} PendingCountZero(handlers: seq<HandlerPc>)
    ensures PendingCount(handlers) == 0 <==> forall h :: 0 <= h < |handlers| ==> !StillPending(handlers[h])
  {
    if handlers != [] {
      var init := handlers[..|handlers| - 1];
      PendingCountZero(init);
      assert forall h :: 0 <= h < |init| ==> handlers[h] == init[h];
    }
  }

  /** Some handler that took the counter to zero has still to reach its `notify_one`. */
  ghost predicate WakeInFlight(s: State) {
    exists h :: 0 <= h < |s.handlers| && (s.handlers[h] == Decremented(1) || s.handlers[h].MustNotify?)
  }

  /** Only a handler that took the counter to zero has to notify. */
  predicate PcOk(pc: HandlerPc, dropped: bool) {
    match pc
    case Decremented(prev) => prev >= 1 && (prev == 1 ==> dropped)
    case MustNotify => dropped
    case _ => true
  }

  ghost predicate AllOk(handlers: seq<HandlerPc>, dropped: bool) {
    forall h :: 0 <= h < |handlers| ==> PcOk(handlers[h], dropped)
  }

  ghost predicate Base(s: State) {
    && s.pending == PendingCount(s.handlers)
    && (s.trigger != Idle ==> s.cancelled)
    && AllOk(s.handlers, s.dropped)
    && (s.permit ==> s.dropped)
    && (s.dropped && !s.late ==> s.pending == 0)
  }

  ghost predicate Inv(s: State) {
    && Base(s)
    && (s.trigger.Waiting? && s.pending == 0 ==> s.permit || WakeInFlight(s))
  }

  lemma StepKeepsCount(s: State, step: Step)
    requires s.pending == PendingCount(s.handlers) && Enabled(s, step)
    ensures Apply(s, step).pending == PendingCount(Apply(s, step).handlers)
  {
    match step
    case Register =>
      assert (s.handlers + [Active])[..|s.handlers|] == s.handlers;
    case MarkDone(h) => PendingCountUpdate(s.handlers, h, Marked);
    case FetchSub(h) => PendingCountUpdate(s.handlers, h, Decremented(s.pending));
    case CheckCancelled(h) => PendingCountUpdate(s.handlers, h, Apply(s, step).handlers[h]);
    case NotifyOne(h) => PendingCountUpdate(s.handlers, h, Finished);
    case _ =>
  }

  lemma StepKeepsBase(s: State, step: Step)
    requires Base(s) && Enabled(s, step)
    ensures Base(Apply(s, step))
  {
    StepKeepsCount(s, step);
    PendingCountZero(s.handlers);
    StepKeepsOk(s, step);
  }

  lemma StepKeepsOk(s: State, step: Step)
    requires AllOk(s.handlers, s.dropped) && s.pending == PendingCount(s.handlers) && Enabled(s, step)
    ensures AllOk(Apply(s, step).handlers, Apply(s, step).dropped)
  {
    PendingCountZero(s.handlers);
    var t := Apply(s, step);
    forall h | 0 <= h < |t.handlers| ensures PcOk(t.handlers[h], t.dropped) {
      if h < |s.handlers| {
        assert PcOk(s.handlers[h], s.dropped);
      }
    }
  }

  lemma StepKeepsInv(s: State, step: Step)
    requires Inv(s) && Enabled(s, step)
    ensures Inv(Apply(s, step))
  {
    StepKeepsBase(s, step);
    var t := Apply(s, step);
    if t.trigger.Waiting? && t.pending == 0 && !t.permit {
      if step.FetchSub? {
        assert t.handlers[step.h] == Decremented(1);
      } else if step.CheckCancelled? || step.MarkDone? {
        var h :| 0 <= h < |s.handlers| && (s.handlers[h] == Decremented(1) || s.handlers[h].MustNotify?);
        assert t.handlers[h] == Decremented(1) || t.handlers[h].MustNotify?;
      }
    }
  }

  lemma {:induction false} RunKeepsInv(steps: seq<Step>)
    requires Run(steps).At?
    ensures Inv(Run(steps).s)
  {
    if steps != [] {
      var prefix := steps[..|steps| - 1];
      RunKeepsInv(prefix);
      StepKeepsInv(Run(prefix).s, steps[|steps| - 1]);
    }
  }

  /** In every interleaving the counter is registered minus decremented handlers, and no decrement underflows. */
  lemma CounterIsExact(steps: seq<Step>)
    requires Run(steps).At?
    ensures Run(steps).s.pending == PendingCount(Run(steps).s.handlers) >= 0
    ensures forall h :: Enabled(Run(steps).s, FetchSub(h)) ==> Run(steps).s.pending >= 1
  {
    RunKeepsInv(steps);
    PendingCountZero(Run(steps).s.handlers);
  }

  function Decrements(steps: seq<Step>, h: nat): nat {
    if steps == [] then 0
    else Decrements(steps[..|steps| - 1], h) + if steps[|steps| - 1] == FetchSub(h) then 1 else 0
  }

  /** Whatever the schedule, a handler decrements at most once, and exactly once when it is past `fetch_sub`. */
  lemma {:induction false} DecrementsOnce(steps: seq<Step>, h: nat)
    requires Run(steps).At?
    ensures h < |Run(steps).s.handlers| ==>
              Decrements(steps, h) == if StillPending(Run(steps).s.handlers[h]) then 0 else 1
    ensures h >= |Run(steps).s.handlers| ==> Decrements(steps, h) == 0
  {
    if steps != [] {
      var prefix, step := steps[..|steps| - 1], steps[|steps| - 1];
      DecrementsOnce(prefix, h);
      OneStepDecrements(Run(prefix).s, step, h);
    }
  }

  lemma OneStepDecrements(s: State, step: Step, h: nat)
    requires Enabled(s, step)
    ensures var t := Apply(s, step);
            && |s.handlers| <= |t.handlers|
            && (h < |s.handlers| && StillPending(s.handlers[h]) ==>
                  (StillPending(t.handlers[h]) <==> step != FetchSub(h)))
            && (h < |s.handlers| && !StillPending(s.handlers[h]) ==>
                  !StillPending(t.handlers[h]) && step != FetchSub(h))
            && (|s.handlers| <= h < |t.handlers| ==> StillPending(t.handlers[h]))
            && (h >= |s.handlers| ==> step != FetchSub(h))
  {
  }

  /** The step at which `trigger_fallback_and_wait` returns. */
  ghost predicate ReturnsAt(steps: seq<Step>, step: Step) {
    && Run(steps).At?
    && Enabled(Run(steps).s, step)
    && !Run(steps).s.trigger.Returned?
    && Apply(Run(steps).s, step).trigger.Returned?
  }

  /** When a schedule ends with a zero counter, every handler registered so far has decremented exactly once. */
  lemma ZeroMeansAllDecremented(steps: seq<Step>)
    requires Run(steps).At? && Run(steps).s.pending == 0
    ensures forall h :: 0 <= h < |Run(steps).s.handlers| ==> Decrements(steps, h) == 1
  {
    RunKeepsInv(steps);
    var s := Run(steps).s;
    PendingCountZero(s.handlers);
    forall h | 0 <= h < |s.handlers| ensures Decrements(steps, h) == 1 {
      DecrementsOnce(steps, h);
    }
  }

  /** A return taken on the fast path (counter loaded as zero) is safe whatever was registered when. */
  lemma FastReturnIsSafe(steps: seq<Step>)
    requires ReturnsAt(steps, TriggerLoad)
    ensures forall h :: 0 <= h < |Run(steps).s.handlers| ==> Decrements(steps, h) == 1
  {
    ZeroMeansAllDecremented(steps);
  }

  // ---------------------------------------------------------------- registrations and safety

  /** A wakeup is stored or on its way. */
  ghost predicate Hazard(s: State) {
    s.permit || WakeInFlight(s)
  }

  /** Nobody registers while a wakeup is stored or on its way. */
  ghost predicate Calm(steps: seq<Step>) {
    forall k :: 0 <= k < |steps| && steps[k] == Register ==> Run(steps[..k]).At? && !Hazard(Run(steps[..k]).s)
  }

  /** A wakeup only exists while the counter is zero. */
  ghost predicate Quiet(s: State) {
    Hazard(s) ==> s.pending == 0
  }

  lemma StepKeepsQuiet(s: State, step: Step)
    requires Base(s) && Quiet(s) && Enabled(s, step) && (step == Register ==> !Hazard(s))
    ensures Quiet(Apply(s, step))
  {
    var t := Apply(s, step);
    PendingCountZero(s.handlers);
    if Hazard(t) && !t.permit {
      var h :| 0 <= h < |t.handlers| && (t.handlers[h] == Decremented(1) || t.handlers[h].MustNotify?);
      if !(step.FetchSub? && step.h == h) {
        assert h < |s.handlers| && (s.handlers[h] == Decremented(1) || s.handlers[h].MustNotify?);
      }
    }
  }

  lemma StepKeepsBoth(s: State, step: Step)
    requires Inv(s) && Enabled(s, step)
    ensures Inv(Apply(s, step))
    ensures Quiet(s) && (step == Register ==> !Hazard(s)) ==> Quiet(Apply(s, step))
  {
    StepKeepsInv(s, step);
    if Quiet(s) && (step == Register ==> !Hazard(s)) {
      StepKeepsQuiet(s, step);
    }
  }

  lemma CalmPrefix(steps: seq<Step>, n: nat)
    requires Calm(steps) && n <= |steps|
    ensures Calm(steps[..n])
  {
    forall k | 0 <= k < n && steps[..n][k] == Register
      ensures Run(steps[..n][..k]).At? && !Hazard(Run(steps[..n][..k]).s)
    {
      assert steps[..n][..k] == steps[..k];
    }
  }

  lemma {:induction false} CalmMeansQuiet(steps: seq<Step>)
    requires Run(steps).At? && Calm(steps)
    ensures Quiet(Run(steps).s)
  {
    if steps != [] {
      var n := |steps| - 1;
      CalmPrefix(steps, n);
      CalmMeansQuiet(steps[..n]);
      RunKeepsInv(steps[..n]);
      StepKeepsQuiet(Run(steps[..n]).s, steps[n]);
    }
  }

  /** A return from a quiet state finds every handler registered so far decremented exactly once. */
  lemma QuietReturnIsSafe(steps: seq<Step>, step: Step)
    requires ReturnsAt(steps, step) && Quiet(Run(steps).s)
    ensures Run(steps).s.pending == 0
    ensures forall h :: 0 <= h < |Run(steps).s.handlers| ==> Decrements(steps, h) == 1
  {
    ZeroMeansAllDecremented(steps);
  }

  /**
   Safety: when the trigger returns and nobody registered while a wakeup was stored or on its way, every
   handler registered so far has decremented exactly once. Other components may have cancelled first.
   */
  lemma CalmReturnIsSafe(steps: seq<Step>, step: Step)
    requires ReturnsAt(steps, step) && Calm(steps)
    ensures Run(steps).s.pending == 0
    ensures forall h :: 0 <= h < |Run(steps).s.handlers| ==> Decrements(steps, h) == 1
  {
    CalmMeansQuiet(steps);
    QuietReturnIsSafe(steps, step);
  }

  lemma RunSnoc(steps: seq<Step>, step: Step)
    requires Run(steps).At? && Enabled(Run(steps).s, step)
    ensures Run(steps + [step]) == At(Apply(Run(steps).s, step))
  {
    assert (steps + [step])[..|steps|] == steps;
  }

  /** The last step of a longer schedule. */
  lemma RunInit(prefix: seq<Step>, more: seq<Step>)
    requires more != [] && Run(prefix + more).At?
    ensures var init, step := prefix + more[..|more| - 1], more[|more| - 1];
            && prefix + more == init + [step]
            && Run(init).At? && Enabled(Run(init).s, step)
            && Run(prefix + more) == At(Apply(Run(init).s, step))
  {
    var all, init := prefix + more, prefix + more[..|more| - 1];
    assert all[..|all| - 1] == init && all[|all| - 1] == more[|more| - 1];
  }

  lemma CalmSnoc(steps: seq<Step>, step: Step)
    requires Calm(steps) && Run(steps).At? && (step == Register ==> !Hazard(Run(steps).s))
    ensures Calm(steps + [step])
  {
    var all := steps + [step];
    forall k | 0 <= k < |all| && all[k] == Register ensures Run(all[..k]).At? && !Hazard(Run(all[..k]).s) {
      assert all[..k] == steps[..k];
      assert steps[..|steps|] == steps;
    }
  }

  /** Nobody registers or calls `done` with this step. */
  predicate Inner(step: Step) {
    !step.Register? && !step.MarkDone?
  }

  /** A wakeup exists before the trigger has returned, and handler `n` stands before its decrement at `pc`. */
  ghost predicate Endangered(s: State, n: nat, pc: HandlerPc) {
    Hazard(s) && !s.trigger.Returned? && StillPending(pc) && n < |s.handlers| && s.handlers[n] == pc
  }

  ghost predicate NotifierReady(s: State) {
    exists h :: 0 <= h < |s.handlers| && s.handlers[h].MustNotify?
  }

  /** How many steps the trigger and a notifying handler need until the wait can end. */
  ghost function WakeDistance(s: State): nat {
    (if s.trigger.Idle? then 2 else if s.trigger.Loading? then 1 else 0)
    + (if s.permit then 0 else if NotifierReady(s) then 1 else 2)
  }

  /** The step that brings a trigger closer to waking up while a wakeup exists. */
  lemma NextTowardsWake(s: State, n: nat, pc: HandlerPc) returns (step: Step)
    requires Inv(s) && Endangered(s, n, pc) && !(s.trigger.Waiting? && s.permit)
    ensures Enabled(s, step) && Inner(step)
    ensures Endangered(Apply(s, step), n, pc) && WakeDistance(Apply(s, step)) < WakeDistance(s)
  {
    PendingCountZero(s.handlers);
    if s.trigger.Idle? || s.trigger.Loading? {
      step := if s.trigger.Idle? then TriggerCancel else TriggerLoad;
      assert Apply(s, step).handlers == s.handlers;
    } else if NotifierReady(s) {
      var h :| 0 <= h < |s.handlers| && s.handlers[h].MustNotify?;
      step := NotifyOne(h);
    } else {
      var h :| 0 <= h < |s.handlers| && s.handlers[h] == Decremented(1);
      step := CheckCancelled(h);
      assert Apply(s, step).handlers[h].MustNotify?;
    }
  }

  lemma StepTowardsWake(steps: seq<Step>, n: nat, pc: HandlerPc) returns (step: Step)
    requires Run(steps).At? && Endangered(Run(steps).s, n, pc)
    requires !(Run(steps).s.trigger.Waiting? && Run(steps).s.permit)
    ensures Inner(step) && Run(steps + [step]).At? && Endangered(Run(steps + [step]).s, n, pc)
    ensures WakeDistance(Run(steps + [step]).s) < WakeDistance(Run(steps).s)
  {
    RunKeepsInv(steps);
    step := NextTowardsWake(Run(steps).s, n, pc);
    RunSnoc(steps, step);
  }

  /** From such a state a schedule leads to the point where the wakeup is about to end the wait. */
  lemma {:induction false} WakesOver(steps: seq<Step>, n: nat, pc: HandlerPc, distance: nat)
    returns (all: seq<Step>, more: seq<Step>)
    requires Run(steps).At? && Endangered(Run(steps).s, n, pc) && WakeDistance(Run(steps).s) <= distance
    ensures Run(all).At? && Endangered(Run(all).s, n, pc) && Run(all).s.trigger.Waiting? && Run(all).s.permit
    ensures all == steps + more && AllInner(more)
    decreases distance
  {
    if Run(steps).s.trigger.Waiting? && Run(steps).s.permit {
      all, more := steps, [];
    } else {
      var step := StepTowardsWake(steps, n, pc);
      var rest;
      all, rest := WakesOver(steps + [step], n, pc, distance - 1);
      more := Before(steps, step, rest);
    }
  }

  predicate AllInner(steps: seq<Step>) {
    forall i :: 0 <= i < |steps| ==> Inner(steps[i])
  }

  lemma Before(steps: seq<Step>, step: Step, rest: seq<Step>) returns (more: seq<Step>)
    requires Inner(step) && AllInner(rest)
    ensures AllInner(more) && steps + [step] + rest == steps + more
  {
    more := [step] + rest;
  }

  /**
   The condition is needed at every registration: whoever registers while a wakeup is stored or on its
   way, in any reachable state before the return, can still be active when the trigger returns.
   */
  lemma RegisteringUnderHazard(prefix: seq<Step>) returns (more: seq<Step>)
    requires Run(prefix).At? && Hazard(Run(prefix).s) && !Run(prefix).s.trigger.Returned?
    ensures AllInner(more) && ReturnsAt(prefix + [Register] + more, TriggerWake)
    ensures var n, s := |Run(prefix).s.handlers|, Run(prefix + [Register] + more).s;
            n < |s.handlers| && s.handlers[n].Active?
  {
    var registered := prefix + [Register];
    RunSnoc(prefix, Register);
    StillEndangered(Run(prefix).s);
    var all;
    all, more := WakesOver(registered, |Run(prefix).s.handlers|, Active, 4);
  }

  lemma StillEndangered(s: State)
    requires Hazard(s) && !s.trigger.Returned?
    ensures Endangered(Apply(s, Register), |s.handlers|, Active)
  {
    var t := Apply(s, Register);
    if !s.permit {
      var h :| 0 <= h < |s.handlers| && (s.handlers[h] == Decremented(1) || s.handlers[h].MustNotify?);
      assert t.handlers[h] == s.handlers[h];
    }
  }

  /** The trigger returns while handler `n` has not decremented. */
  ghost predicate ReturnsOver(steps: seq<Step>, n: nat) {
    exists step ::
      ReturnsAt(steps, step) && n < |Run(steps).s.handlers| && StillPending(Run(steps).s.handlers[n])
  }

  lemma {:induction false} QuietExtends(steps: seq<Step>, more: seq<Step>)
    requires Run(steps).At? && Quiet(Run(steps).s) && Register !in more && Run(steps + more).At?
    ensures Quiet(Run(steps + more).s)
    decreases |more|
  {
    if more == [] {
      assert steps + more == steps;
    } else {
      var n := |more| - 1;
      RunInit(steps, more);
      QuietExtends(steps, more[..n]);
      RunKeepsInv(steps + more[..n]);
      StepKeepsQuiet(Run(steps + more[..n]).s, more[n]);
    }
  }

  lemma QuietStaysSafe(steps: seq<Step>, more: seq<Step>, n: nat)
    requires Run(steps).At? && Quiet(Run(steps).s) && Register !in more
    ensures !ReturnsOver(steps + more, n)
  {
    var all := steps + more;
    if ReturnsOver(all, n) {
      var step :| ReturnsAt(all, step) && n < |Run(all).s.handlers| && StillPending(Run(all).s.handlers[n]);
      QuietExtends(steps, more);
      QuietReturnIsSafe(all, step);
      DecrementsOnce(all, n);
      assert false;
    }
  }

  /**
   Exactly, for every reachable state before the return: without further registrations the trigger can
   return over some handler if and only if a wakeup exists while the counter is not zero.
   */
  lemma ReturnIsSafeExactly(steps: seq<Step>)
    requires Run(steps).At? && !Run(steps).s.trigger.Returned?
    ensures !Quiet(Run(steps).s) <==> exists more, n :: Register !in more && ReturnsOver(steps + more, n)
  {
    var s := Run(steps).s;
    if Quiet(s) {
      forall more, n: nat | Register !in more ensures !ReturnsOver(steps + more, n) {
        QuietStaysSafe(steps, more, n);
      }
    } else {
      RunKeepsInv(steps);
      PendingCountZero(s.handlers);
      var n: nat :| n < |s.handlers| && StillPending(s.handlers[n]);
      var all, more := WakesOver(steps, n, s.handlers[n], 4);
      assert ReturnsAt(steps + more, TriggerWake);
      assert Register !in more && ReturnsOver(steps + more, n);
    }
  }

  /**
   Exactly, for every registration before the return and whatever happened before: it is unsafe for the
   new handler if and only if a wakeup is stored or on its way at that moment.
   */
  lemma RegistrationIsSafeExactly(prefix: seq<Step>)
    requires Run(prefix).At? && !Run(prefix).s.trigger.Returned?
    ensures Hazard(Run(prefix).s)
       <==> exists more :: Register !in more && ReturnsOver(prefix + [Register] + more, |Run(prefix).s.handlers|)
  {
    var s, n := Run(prefix).s, |Run(prefix).s.handlers|;
    if Hazard(s) {
      var more := RegisteringUnderHazard(prefix);
      assert ReturnsOver(prefix + [Register] + more, n);
    } else {
      RunKeepsInv(prefix);
      StepKeepsQuiet(s, Register);
      RunSnoc(prefix, Register);
      forall more | Register !in more ensures !ReturnsOver(prefix + [Register] + more, n) {
        QuietStaysSafe(prefix + [Register], more, n);
      }
    }
  }

  lemma LateStep(s: State, step: Step)
    requires Enabled(s, step) && !Apply(s, step).late
    ensures !s.late && (step == Register ==> !s.dropped)
  {
  }

  lemma HazardMeansDropped(s: State)
    requires Base(s)
    ensures Hazard(s) ==> s.dropped
  {
  }

  /** No registration after the counter went back to zero is a simple way of being calm. */
  lemma {:induction false} NotLateIsCalm(steps: seq<Step>)
    requires Run(steps).At? && !Run(steps).s.late
    ensures Calm(steps)
  {
    if steps != [] {
      var n := |steps| - 1;
      var prefix := steps[..n];
      LateStep(Run(prefix).s, steps[n]);
      NotLateIsCalm(prefix);
      RunKeepsInv(prefix);
      HazardMeansDropped(Run(prefix).s);
      CalmSnoc(prefix, steps[n]);
      assert prefix + [steps[n]] == steps;
    }
  }

  /** In particular a return is safe when nobody registered after the counter had gone back to zero. */
  lemma ReturnIsSafe(steps: seq<Step>, step: Step)
    requires ReturnsAt(steps, step)
    requires !Run(steps).s.late
    ensures Run(steps).s.pending == 0
    ensures forall h :: 0 <= h < |Run(steps).s.handlers| ==> Decrements(steps, h) == 1
  {
    NotLateIsCalm(steps);
    CalmReturnIsSafe(steps, step);
  }

  /**
   A late registration can be unsafe: the first handler has decremented and not yet looked at the token
   when the second one registers, and its wakeup lets the trigger return over the second.
   */
  lemma LateRegistrationIsUnsafe() returns (more: seq<Step>)
    ensures var steps := [Register, MarkDone(0), FetchSub(0), Register] + more;
            && ReturnsAt(steps, TriggerWake) && Run(steps).s.late
            && |Run(steps).s.handlers| > 1 && Run(steps).s.handlers[1].Active?
  {
    var steps: seq<Step> := [];
    RunSnoc(steps, Register);
    RunSnoc(steps + [Register], MarkDone(0));
    RunSnoc(steps + [Register] + [MarkDone(0)], FetchSub(0));
    var prefix := steps + [Register] + [MarkDone(0)] + [FetchSub(0)];
    assert prefix == [Register, MarkDone(0), FetchSub(0)];
    assert Run(prefix).s.handlers[0] == Decremented(1);
    more := RegisteringUnderHazard(prefix);
    RunSnoc(prefix, Register);
    LateStays(prefix + [Register], more);
    assert prefix + [Register] + more == [Register, MarkDone(0), FetchSub(0), Register] + more;
  }

  lemma {:induction false} LateStays(steps: seq<Step>, more: seq<Step>)
    requires Run(steps).At? && Run(steps).s.late && Run(steps + more).At?
    ensures Run(steps + more).s.late
    decreases |more|
  {
    if more == [] {
      assert steps + more == steps;
    } else {
      RunInit(steps, more);
      LateStays(steps, more[..|more| - 1]);
    }
  }

  // ---------------------------------------------------------------- when a permit is stored

  predicate Cancels(step: Step) {
    step == OtherCancel || step == TriggerCancel
  }

  ghost predicate Uncancelled(steps: seq<Step>) {
    forall k :: 0 <= k < |steps| ==> !Cancels(steps[k])
  }

  lemma UncancelledSnoc(init: seq<Step>, last: Step)
    ensures Uncancelled(init + [last]) <==> Uncancelled(init) && !Cancels(last)
  {
    var steps := init + [last];
    assert steps[|init|] == last;
    assert forall k :: 0 <= k < |init| ==> steps[k] == init[k];
  }

  lemma StepCancels(s: State, step: Step)
    requires Enabled(s, step)
    ensures Apply(s, step).cancelled == (s.cancelled || Cancels(step))
  {
  }

  /** The token is cancelled exactly when somebody has cancelled it. */
  lemma {:induction false} CancelledExactly(steps: seq<Step>)
    requires Run(steps).At?
    ensures Run(steps).s.cancelled <==> !Uncancelled(steps)
  {
    if steps != [] {
      var init, last := steps[..|steps| - 1], steps[|steps| - 1];
      CancelledExactly(init);
      StepCancels(Run(init).s, last);
      UncancelledSnoc(init, last);
      assert steps == init + [last];
    }
  }

  /** Nobody notifies, and nothing is stored, unless the token is cancelled. */
  ghost predicate Silent(s: State) {
    s.permit || NotifierReady(s) ==> s.cancelled
  }

  lemma StepKeepsSilent(s: State, step: Step)
    requires Silent(s) && Enabled(s, step)
    ensures Silent(Apply(s, step))
  {
    var t := Apply(s, step);
    if NotifierReady(t) && !NotifierReady(s) {
      var h :| 0 <= h < |t.handlers| && t.handlers[h].MustNotify?;
      assert step == CheckCancelled(h);
    }
  }

  lemma {:induction false} RunKeepsSilent(steps: seq<Step>)
    requires Run(steps).At?
    ensures Silent(Run(steps).s)
  {
    if steps != [] {
      RunKeepsSilent(steps[..|steps| - 1]);
      StepKeepsSilent(Run(steps[..|steps| - 1]).s, steps[|steps| - 1]);
    }
  }

  /** Before any cancellation no permit is stored and nobody is about to store one. */
  lemma NoPermitBeforeCancel(steps: seq<Step>)
    requires Run(steps).At? && Uncancelled(steps)
    ensures !Run(steps).s.permit && forall h :: !Enabled(Run(steps).s, NotifyOne(h))
  {
    RunKeepsSilent(steps);
    CancelledExactly(steps);
  }

  lemma {:induction false} NobodyNotifiedBeforeCancel(steps: seq<Step>, h: nat)
    requires Run(steps).At? && Uncancelled(steps)
    ensures NotifyOne(h) !in steps
  {
    if steps != [] {
      var n := |steps| - 1;
      assert Uncancelled(steps[..n]);
      NobodyNotifiedBeforeCancel(steps[..n], h);
      NoPermitBeforeCancel(steps[..n]);
      assert steps == steps[..n] + [steps[n]];
    }
  }

  /** A handler that looked at the token before every cancellation never stores a permit. */
  lemma {:induction false} EarlyCheckIsSilent(steps: seq<Step>, k: nat, h: nat)
    requires Run(steps).At? && k < |steps| && steps[k] == CheckCancelled(h) && Uncancelled(steps[..k])
    ensures NotifyOne(h) !in steps
    ensures h < |Run(steps).s.handlers| && Run(steps).s.handlers[h].Finished?
    decreases |steps|
  {
    var n := |steps| - 1;
    var init := steps[..n];
    assert steps == init + [steps[n]];
    if k == n {
      NobodyNotifiedBeforeCancel(init, h);
      CancelledExactly(init);
    } else {
      assert init[..k] == steps[..k];
      EarlyCheckIsSilent(init, k, h);
      StaysFinished(Run(init).s, steps[n], h);
    }
  }

  lemma StaysFinished(s: State, step: Step, h: nat)
    requires Enabled(s, step) && h < |s.handlers| && s.handlers[h].Finished?
    ensures h < |Apply(s, step).handlers| && Apply(s, step).handlers[h].Finished? && step != NotifyOne(h)
  {
  }

  /** So before any cancellation a registration is safe when nobody stands between its decrement and its check. */
  lemma EarlyRegistrationIsSafe(prefix: seq<Step>, more: seq<Step>)
    requires Run(prefix).At? && Uncancelled(prefix) && Decremented(1) !in Run(prefix).s.handlers && Register !in more
    ensures !ReturnsOver(prefix + [Register] + more, |Run(prefix).s.handlers|)
  {
    var s := Run(prefix).s;
    RunKeepsInv(prefix);
    RunKeepsSilent(prefix);
    CancelledExactly(prefix);
    assert forall h :: 0 <= h < |s.handlers| ==> s.handlers[h] in s.handlers;
    assert !Hazard(s);
    RegistrationIsSafeExactly(prefix);
  }

  lemma {:induction false} NoDecrement(steps: seq<Step>, h: nat)
    requires Decrements(steps, h) == 0
    ensures FetchSub(h) !in steps
  {
    if steps != [] {
      NoDecrement(steps[..|steps| - 1], h);
      assert steps == steps[..|steps| - 1] + [steps[|steps| - 1]];
    }
  }

  /** `j` is the place of the only `fetch_sub` of handler `h`, and it left `after` in the counter. */
  ghost predicate DecrementsAt(steps: seq<Step>, h: nat, j: nat, after: int) {
    && j < |steps| && steps[j] == FetchSub(h) && (forall k :: 0 <= k < |steps| && steps[k] == FetchSub(h) ==> k == j)
    && Run(steps[..j + 1]).At? && Run(steps[..j + 1]).s.pending == after
  }

  lemma DecrementsAtSnoc(init: seq<Step>, last: Step, h: nat, j: nat, after: int)
    requires DecrementsAt(init, h, j, after) && last != FetchSub(h)
    ensures DecrementsAt(init + [last], h, j, after)
  {
    var steps := init + [last];
    assert steps[..j + 1] == init[..j + 1];
    assert forall k :: 0 <= k < |init| ==> steps[k] == init[k];
  }

  lemma DecrementsLast(init: seq<Step>, h: nat)
    requires Run(init + [FetchSub(h)]).At? && FetchSub(h) !in init
    ensures DecrementsAt(init + [FetchSub(h)], h, |init|, Run(init + [FetchSub(h)]).s.pending)
  {
    var steps := init + [FetchSub(h)];
    assert steps[..|init| + 1] == steps;
    assert forall k :: 0 <= k < |init| ==> steps[k] == init[k];
  }

  /** What a handler holds in its hands comes from its own decrement. */
  lemma StepDecremented(s: State, step: Step, h: nat)
    requires Enabled(s, step) && h < |Apply(s, step).handlers| && Apply(s, step).handlers[h].Decremented?
    ensures if step == FetchSub(h)
            then h < |s.handlers| && StillPending(s.handlers[h])
                 && Apply(s, step).handlers[h].prev - 1 == Apply(s, step).pending
            else h < |s.handlers| && s.handlers[h] == Apply(s, step).handlers[h]
  {
  }

  lemma {:induction false} DecrementOf(steps: seq<Step>, h: nat) returns (j: nat)
    requires Run(steps).At? && h < |Run(steps).s.handlers| && Run(steps).s.handlers[h].Decremented?
    ensures DecrementsAt(steps, h, j, Run(steps).s.handlers[h].prev - 1)
  {
    var init, last := steps[..|steps| - 1], steps[|steps| - 1];
    StepDecremented(Run(init).s, last, h);
    assert steps == init + [last];
    if last == FetchSub(h) {
      j := |init|;
      DecrementsOnce(init, h);
      NoDecrement(init, h);
      DecrementsLast(init, h);
    } else {
      j := DecrementOf(init, h);
      DecrementsAtSnoc(init, last, h, j, Run(steps).s.handlers[h].prev - 1);
    }
  }

  /** The decrement of `h` brought the counter to zero. */
  ghost predicate TookToZero(steps: seq<Step>, h: nat) {
    exists j :: DecrementsAt(steps, h, j, 0)
  }

  /**
   A handler goes on to notify exactly when somebody had cancelled before its check and its own decrement
   brought the counter to zero.
   */
  lemma NotifiesExactly(steps: seq<Step>, h: nat)
    requires Run(steps).At? && Enabled(Run(steps).s, CheckCancelled(h))
    ensures Apply(Run(steps).s, CheckCancelled(h)).handlers[h].MustNotify?
       <==> !Uncancelled(steps) && TookToZero(steps, h)
  {
    CancelledExactly(steps);
    var j := DecrementOf(steps, h);
  }

  /** A permit is stored exactly when a notification has come since the last wakeup. */
  ghost predicate Notified(steps: seq<Step>) {
    exists k :: NotifiedAt(steps, k)
  }

  ghost predicate NotifiedAt(steps: seq<Step>, k: nat) {
    k < |steps| && steps[k].NotifyOne? && TriggerWake !in steps[k + 1..]
  }

  lemma NotifiedAtSnoc(init: seq<Step>, last: Step, k: nat)
    requires k < |init|
    ensures NotifiedAt(init + [last], k) <==> last != TriggerWake && NotifiedAt(init, k)
  {
    assert (init + [last])[k + 1..] == init[k + 1..] + [last];
  }

  lemma NotifiedSnoc(init: seq<Step>, last: Step)
    ensures Notified(init + [last]) <==> last.NotifyOne? || (last != TriggerWake && Notified(init))
  {
    var steps := init + [last];
    var n := |init|;
    assert NotifiedAt(steps, n) <==> last.NotifyOne?;
    forall k: nat | k < n ensures NotifiedAt(steps, k) <==> last != TriggerWake && NotifiedAt(init, k) {
      NotifiedAtSnoc(init, last, k);
    }
  }

  lemma StepPermit(s: State, step: Step)
    requires Enabled(s, step)
    ensures Apply(s, step).permit == (step.NotifyOne? || (s.permit && step != TriggerWake))
  {
  }

  lemma {:induction false} PermitExactly(steps: seq<Step>)
    requires Run(steps).At?
    ensures Run(steps).s.permit <==> Notified(steps)
  {
    if steps != [] {
      var init, last := steps[..|steps| - 1], steps[|steps| - 1];
      PermitExactly(init);
      StepPermit(Run(init).s, last);
      NotifiedSnoc(init, last);
      assert steps == init + [last];
    }
  }

  /**
   No lost wakeup, with no assumption about registration: a blocked trigger facing a zero counter has
   a stored permit, or the handler that took the counter to zero is on its way to `notify_one`.
   */
  lemma NoLostWakeup(steps: seq<Step>)
    requires Run(steps).At? && Run(steps).s.trigger.Waiting? && Run(steps).s.pending == 0
    ensures Run(steps).s.permit || WakeInFlight(Run(steps).s)
  {
    RunKeepsInv(steps);
  }

  // ---------------------------------------------------------------- progress

  function PcRank(pc: HandlerPc): nat {
    match pc
    case Active => 4
    case Marked => 3
    case Decremented(_) => 2
    case MustNotify => 1
    case Finished => 0
  }

  function HandlersRank(handlers: seq<HandlerPc>): nat {
    if handlers == [] then 0 else HandlersRank(handlers[..|handlers| - 1]) + PcRank(handlers[|handlers| - 1])
  }

  /** How many steps other than registrations can still be taken. */
  function Rank(s: State): nat {
    HandlersRank(s.handlers)
    + (match s.trigger case Idle => 3 case Loading => 2 case Waiting => 1 case Returned => 0)
    + (if s.cancelled then 0 else 1)
  }

  lemma {:induction false} HandlersRankUpdate(handlers: seq<HandlerPc>, h: nat, pc: HandlerPc)
    requires h < |handlers|
    ensures HandlersRank(handlers[h := pc]) == HandlersRank(handlers) - PcRank(handlers[h]) + PcRank(pc)
  {
    var n := |handlers| - 1;
    if h == n {
      assert handlers[h := pc][..n] == handlers[..n];
    } else {
      HandlersRankUpdate(handlers[..n], h, pc);
      assert handlers[h := pc][..n] == handlers[..n][h := pc];
    }
  }

  lemma StepLowersRank(s: State, step: Step)
    requires Enabled(s, step) && !step.Register?
    ensures Rank(Apply(s, step)) < Rank(s)
  {
    if step.MarkDone? || step.FetchSub? || step.CheckCancelled? || step.NotifyOne? {
      HandlersRankUpdate(s.handlers, step.h, Apply(s, step).handlers[step.h]);
    }
  }

  /** Once registrations stop, no schedule goes on for more than `Rank` steps. */
  lemma {:induction false} SchedulesEnd(prefix: seq<Step>, steps: seq<Step>)
    requires Run(prefix).At? && Run(prefix + steps).At? && Register !in steps
    ensures |steps| + Rank(Run(prefix + steps).s) <= Rank(Run(prefix).s)
    decreases |steps|
  {
    if steps == [] {
      assert prefix + steps == prefix;
    } else {
      var n := |steps| - 1;
      RunInit(prefix, steps);
      SchedulesEnd(prefix, steps[..n]);
      StepLowersRank(Run(prefix + steps[..n]).s, steps[n]);
    }
  }

  /**
   No deadlock: in a reachable state where nothing but a registration can happen, the trigger has
   returned. With `SchedulesEnd`, every maximal schedule brings the trigger home.
   */
  lemma StuckMeansReturned(steps: seq<Step>)
    requires Run(steps).At?
    requires forall step: Step :: !step.Register? ==> !Enabled(Run(steps).s, step)
    ensures Run(steps).s.trigger.Returned?
  {
    RunKeepsInv(steps);
    var s := Run(steps).s;
    assert !Enabled(s, TriggerCancel) && !Enabled(s, TriggerLoad) && !Enabled(s, TriggerWake);
    forall h | 0 <= h < |s.handlers| ensures s.handlers[h].Finished? {
      assert !Enabled(s, MarkDone(h)) && !Enabled(s, FetchSub(h));
      assert !Enabled(s, CheckCancelled(h)) && !Enabled(s, NotifyOne(h));
    }
    PendingCountZero(s.handlers);
  }

  // ---------------------------------------------------------------- the shared object

  /** The access that a handler makes next inside `done`. */
  function DoneStep(pc: HandlerPc, h: nat): Step
    requires !pc.Finished?
  {
    match pc
    case Active => MarkDone(h)
    case Marked => FetchSub(h)
    case Decremented(_) => CheckCancelled(h)
    case MustNotify => NotifyOne(h)
  }

  /** The coordinator, its handlers and its trigger caller; each method is one atomic access. */
  class Coordinator {
    var signal: bool
    var pendingTasks: int
    var permit: bool
    var handlers: seq<HandlerPc>
    var trigger: TriggerPc
    ghost var dropped: bool
    ghost var late: bool

    ghost function View(): State
      reads this
    {
      State(signal, pendingTasks, permit, handlers, trigger, dropped, late)
    }

    constructor ()
      ensures View() == INIT && Inv(View())
    {
      signal, pendingTasks, permit, handlers, trigger := false, 0, false, [], Idle;
      dropped, late := false, false;
    }

    method RegisterHandler() returns (h: nat)
      requires Inv(View())
      modifies this
      ensures View() == Apply(old(View()), Register) && Inv(View())
      ensures h == old(|handlers|) && h < |handlers| && handlers[h].Active?
      ensures old(Quiet(View()) && !Hazard(View())) ==> Quiet(View())
    {
      ghost var before := View();
      late := late || dropped;
      pendingTasks := pendingTasks + 1;
      h := |handlers|;
      handlers := handlers + [Active];
      StepKeepsBoth(before, Register);
    }

    /** One step of `done` for handler `h`: the four accesses of the source, in order. */
    method AdvanceDone(h: nat) returns (ghost step: Step)
      requires Inv(View()) && h < |handlers| && !handlers[h].Finished?
      modifies this
      ensures old(Enabled(View(), step)) && View() == Apply(old(View()), step) && Inv(View())
      ensures step == DoneStep(old(handlers)[h], h)
      ensures PcRank(handlers[h]) < PcRank(old(handlers)[h])
      ensures old(Quiet(View())) ==> Quiet(View())
    {
      ghost var before := View();
      step := DoneStep(handlers[h], h);
      match handlers[h] {
      case Active =>
        handlers := handlers[h := Marked];
      case Marked =>
        var prev := pendingTasks;
        dropped := dropped || prev == 1;
        pendingTasks := pendingTasks - 1;
        handlers := handlers[h := Decremented(prev)];
      case Decremented(prev) =>
        handlers := handlers[h := if signal && prev == 1 then MustNotify else Finished];
      case MustNotify =>
        permit := true;
        handlers := handlers[h := Finished];
      }
      StepKeepsBoth(before, step);
    }

    /** Cancelling a token that is already cancelled changes nothing. */
    method CancelByOther()
      requires Inv(View())
      modifies this
      ensures View() == (if old(signal) then old(View()) else Apply(old(View()), OtherCancel)) && Inv(View())
      ensures old(Quiet(View())) ==> Quiet(View())
    {
      if !signal {
        StepKeepsBoth(View(), OtherCancel);
        signal := true;
      }
    }

    /** One step of `trigger_fallback_and_wait`; a waiting caller only moves when a permit is stored. */
    method AdvanceTrigger() returns (ghost step: Step)
      requires Inv(View()) && !trigger.Returned? && (trigger.Waiting? ==> permit)
      modifies this
      ensures old(Enabled(View(), step)) && View() == Apply(old(View()), step) && Inv(View())
      ensures step in {TriggerCancel, TriggerLoad, TriggerWake}
      ensures old(Quiet(View())) ==> Quiet(View()) && (trigger.Returned? ==> pendingTasks == 0)
    {
      ghost var before := View();
      match trigger {
      case Idle =>
        step := TriggerCancel;
        signal := true;
        trigger := Loading;
      case Loading =>
        step := TriggerLoad;
        trigger := if pendingTasks == 0 then Returned else Waiting;
      case Waiting =>
        step := TriggerWake;
        permit := false;
        trigger := Returned;
      }
      StepKeepsBoth(before, step);
    }
  }
}
