/**
 The operator-simulated outage window of CsipClient (src/py20305/client/csip_client.py):
 simulate, clear and expiry run as separate tasks under one lifecycle lock. A step is a
 stretch of one task between two awaits; a run is any sequence of steps.
 */
module SimulationWindow {
  import opened Wrappers

  /** Where an expiry task is. `Cancelled` has been asked to stop and can only stop. */
  datatype Phase = Sleeping | Waiting | Cancelled | Clearing | Done

  datatype Timer = Timer(generation: nat, phase: Phase) {
    predicate Live() { phase.Sleeping? || phase.Waiting? }
  }

  /** The task that holds the lifecycle lock. */
  datatype Holder =
    | Free
    | Suspending           // simulate, waiting for notification handlers
    | Draining             // simulate, gate armed, waiting for requests
    | Clear                // operator clear, recovering
    | Expiry(timer: nat)   // an expiry task, recovering

  datatype Status = Inactive | Active | Recovering | Recovered | RecoveryFailed

  /** One closing of the gate: the generation of the timer that did it, if one did, and of the window it closed. */
  datatype Disarm = Disarm(timer: Option<nat>, window: nat)

  /**
   `window` is the generation that armed the gate and `disarms` the closings so far; both are
   history the source does not keep.
   */
  datatype State = State(
    generation: nat, active: bool, status: Status, suspended: bool,
    expiry: Option<nat>, timers: seq<Timer>, holder: Holder,
    window: nat, disarms: seq<Disarm>)

  const START := State(0, false, Inactive, false, None, [], Free, 0, [])

  datatype Action =
    | SimulateLocks | SimulateArms | SimulateOpens | SimulateFails
    | ClearLocks | ClearEnds(outcome: Option<bool>)
    | TimerWakes(i: nat) | TimerStops(i: nat) | TimerLocks(i: nat) | TimerEnds(i: nat, outcome: Option<bool>)

  function Disarmed(s: State, closer: Option<nat>): State {
    s.(active := false, status := Recovering, suspended := false,
       disarms := if s.active then s.disarms + [Disarm(closer, s.window)] else s.disarms)
  }

  /** Stops the expiry timer unless the caller is that timer (`me`). */
  function CancelExpiry(s: State, me: Option<nat>): State {
    if s.expiry.None? || s.expiry == me then s
    else
      var h := s.expiry.value;
      s.(expiry := None,
         timers := if h < |s.timers| && s.timers[h].Live()
                   then s.timers[h := s.timers[h].(phase := Cancelled)] else s.timers)
  }

  function SetPhase(s: State, i: nat, phase: Phase): State
    requires i < |s.timers|
  {
    s.(timers := s.timers[i := s.timers[i].(phase := phase)])
  }

  /** How a clear ends: None when its own task is cancelled, else whether recovery completed. */
  function Settled(s: State, outcome: Option<bool>): State {
    s.(holder := Free,
       status := match outcome case None => s.status case Some(ok) => if ok then Recovered else RecoveryFailed)
  }

  predicate Enabled(s: State, a: Action) {
    match a
    case SimulateLocks => s.holder.Free?
    case SimulateArms => s.holder.Suspending?
    case SimulateOpens => s.holder.Draining?
    case SimulateFails => s.holder.Suspending? || s.holder.Draining?
    case ClearLocks => s.holder.Free?
    case ClearEnds(_) => s.holder.Clear?
    case TimerWakes(i) => i < |s.timers| && s.timers[i].phase.Sleeping?
    case TimerStops(i) => i < |s.timers| && s.timers[i].phase.Cancelled?
    case TimerLocks(i) => s.holder.Free? && i < |s.timers| && s.timers[i].phase.Waiting?
    case TimerEnds(i, _) => s.holder == Expiry(i) && i < |s.timers|
  }

  function Next(s: State, a: Action): State
    requires Enabled(s, a)
  {
    match a
    case SimulateLocks =>
      CancelExpiry(s.(generation := s.generation + 1), None).(holder := Suspending, suspended := true)
    case SimulateArms => s.(active := true, status := Active, window := s.generation, holder := Draining)
    case SimulateOpens =>
      s.(timers := s.timers + [Timer(s.generation, Sleeping)], expiry := Some(|s.timers|), holder := Free)
    case SimulateFails => s.(active := false, status := Inactive, suspended := false, holder := Free)
    case ClearLocks => Disarmed(CancelExpiry(s, None), None).(holder := Clear)
    case ClearEnds(outcome) => Settled(s, outcome)
    case TimerWakes(i) => SetPhase(s, i, Waiting)
    case TimerStops(i) => SetPhase(s, i, Done)
    case TimerLocks(i) =>
      if s.timers[i].generation != s.generation || !s.active then SetPhase(s, i, Done)
      else Disarmed(CancelExpiry(SetPhase(s, i, Clearing), Some(i)), Some(s.timers[i].generation)).(holder := Expiry(i))
    case TimerEnds(i, outcome) => SetPhase(Settled(s, outcome), i, Done)
  }

  /** A step that cannot be taken leaves the state as it is, so every action sequence is a run. */
  function Step(s: State, a: Action): State {
    if Enabled(s, a) then Next(s, a) else s
  }

  function Run(s: State, actions: seq<Action>): State
    decreases |actions|
  {
    if actions == [] then s else Step(Run(s, actions[..|actions| - 1]), actions[|actions| - 1])
  }

  // ---------------------------------------------------------------------------
  // Invariant

  ghost predicate Inv(s: State) {
    // the one timer that may still act is the one the handle names, and it is current
    && (forall i :: 0 <= i < |s.timers| && s.timers[i].Live() ==>
          s.expiry == Some(i) && s.holder.Free? && s.active && s.timers[i].generation == s.generation)
    && (forall i :: 0 <= i < |s.timers| && s.timers[i].phase.Clearing? ==> s.holder == Expiry(i))
    && (s.expiry.Some? ==> s.expiry.value < |s.timers|)
    && (s.holder.Free? && s.active ==> s.expiry.Some? && s.timers[s.expiry.value].Live() && s.window == s.generation)
    && (s.holder.Draining? ==> s.active && s.window == s.generation)
    && (s.holder.Clear? || s.holder.Expiry? ==> !s.active)
    && (s.holder.Expiry? ==> s.holder.timer < |s.timers|)
    && (s.active <==> s.status.Active?)
    && (s.suspended <==> s.active || s.holder.Suspending? || s.holder.Draining?)
    && (forall d :: d in s.disarms ==> d.timer.Some? ==> d.timer.value == d.window)
  }

  lemma StepKeepsInv(s: State, a: Action)
    requires Inv(s)
    ensures Inv(Step(s, a))
  {
    if Enabled(s, a) {
      match a
      case SimulateLocks => CancelExpiryClears(s.(generation := s.generation + 1), s);
      case ClearLocks => CancelExpiryClears(s, s);
      case TimerLocks(i) =>
        assert s.timers[i].Live();
      case _ =>
    }
  }

  /** Cancelling the handle from outside leaves no live timer. */
  lemma CancelExpiryClears(s: State, before: State)
    requires Inv(before) && s.timers == before.timers && s.expiry == before.expiry
    ensures var c := CancelExpiry(s, None);
            && c.expiry.None?
            && |c.timers| == |s.timers|
            && (forall i :: 0 <= i < |c.timers| ==> !c.timers[i].Live())
            && (forall i :: 0 <= i < |c.timers| ==> (c.timers[i].phase.Clearing? <==> s.timers[i].phase.Clearing?))
  {
  }

  lemma {:induction false} RunKeepsInv(actions: seq<Action>)
    ensures Inv(Run(START, actions))
  {
    if actions != [] {
      RunKeepsInv(actions[..|actions| - 1]);
      StepKeepsInv(Run(START, actions[..|actions| - 1]), actions[|actions| - 1]);
    }
  }

  /**
   Window safety over every interleaving: whenever the gate is closed to traffic and nobody holds
   the lock, exactly one expiry timer can still act, it is the one the client keeps, and it
   carries the current generation; inbound notifications are held back exactly as long as the
   outbound gate; and no timer ever closed a window other than its own.
   */
  lemma WindowIsSafe(actions: seq<Action>)
    ensures var s := Run(START, actions);
            && (s.holder.Free? && s.active ==>
                  exists h :: 0 <= h < |s.timers| && s.expiry == Some(h) && s.timers[h].Live()
                              && s.timers[h].generation == s.generation == s.window
                              && forall i :: 0 <= i < |s.timers| && s.timers[i].Live() ==> i == h)
            && (s.holder.Free? ==> (s.suspended <==> s.active))
            && (s.active <==> s.status.Active?)
            && forall d :: d in s.disarms && d.timer.Some? ==> d.timer.value == d.window
  {
    RunKeepsInv(actions);
  }

  /**
   A timer that gets the lock is always the current one and its window is open, so neither of its
   two early returns is ever taken by a timer that was not cancelled first.
   */
  lemma WakingTimerIsCurrent(actions: seq<Action>, i: nat)
    requires Enabled(Run(START, actions), TimerLocks(i))
    ensures var s := Run(START, actions);
            s.active && s.timers[i].generation == s.generation && s.expiry == Some(i)
  {
    RunKeepsInv(actions);
    assert Run(START, actions).timers[i].Live();
  }

  /** A window left open with the lock free always closes by itself: its timer wakes, locks and disarms. */
  lemma OpenWindowCloses(actions: seq<Action>) returns (h: nat)
    requires var s := Run(START, actions); s.holder.Free? && s.active
    ensures Run(START, actions).expiry == Some(h)
    ensures !Run(START, actions + [TimerWakes(h)] + [TimerLocks(h)]).active
  {
    RunKeepsInv(actions);
    var s := Run(START, actions);
    h := s.expiry.value;
    RunExtends(actions, TimerWakes(h));
    RunExtends(actions + [TimerWakes(h)], TimerLocks(h));
    RunKeepsInv(actions + [TimerWakes(h)]);
  }

  // ---- the generation and the reported phase -------------------------------------------

  /** How many simulate calls of the run got the lock. */
  function Simulations(actions: seq<Action>): nat
    decreases |actions|
  {
    if actions == [] then 0
    else
      var before := actions[..|actions| - 1];
      Simulations(before) + (if actions[|actions| - 1].SimulateLocks? && Run(START, before).holder.Free? then 1 else 0)
  }

  /**
   Timers carry ever larger generations, none beyond the current one, which a simulate call in
   progress has to itself.
   */
  ghost predicate Numbered(s: State) {
    && (forall i, j :: 0 <= i < j < |s.timers| ==> s.timers[i].generation < s.timers[j].generation)
    && (forall i :: 0 <= i < |s.timers| ==> s.timers[i].generation <= s.generation)
    && (s.holder.Suspending? || s.holder.Draining? ==>
          forall i :: 0 <= i < |s.timers| ==> s.timers[i].generation < s.generation)
  }

  predicate SameGenerations(a: seq<Timer>, b: seq<Timer>) {
    |a| == |b| && forall i :: 0 <= i < |a| ==> a[i].generation == b[i].generation
  }

  /** Only the end of a simulate call adds a timer, and no step renumbers one. */
  lemma TimersKeepNumbers(s: State, a: Action)
    ensures !(a.SimulateOpens? && Enabled(s, a)) ==> SameGenerations(Step(s, a).timers, s.timers)
    ensures Step(s, a).generation == s.generation + if a.SimulateLocks? && s.holder.Free? then 1 else 0
    ensures var h := Step(s, a).holder;
            h.Suspending? || h.Draining? ==> h == s.holder || a.SimulateLocks? || s.holder.Suspending?
  {
  }

  lemma NumberedStep(s: State, a: Action)
    requires Numbered(s)
    ensures Numbered(Step(s, a))
  {
    TimersKeepNumbers(s, a);
  }

  /** A generation per window: the current one is the number of simulate calls so far, and no two timers share one. */
  lemma {:induction false} GenerationPerWindow(actions: seq<Action>)
    ensures var s := Run(START, actions);
            s.generation == Simulations(actions) && Numbered(s)
    decreases |actions|
  {
    if actions != [] {
      GenerationPerWindow(actions[..|actions| - 1]);
      NumberedStep(Run(START, actions[..|actions| - 1]), actions[|actions| - 1]);
      TimersKeepNumbers(Run(START, actions[..|actions| - 1]), actions[|actions| - 1]);
    }
  }

  /** The phase that the last step to report one reported. */
  function Reported(actions: seq<Action>): Status
    decreases |actions|
  {
    if actions == [] then Inactive
    else
      var before, a := actions[..|actions| - 1], actions[|actions| - 1];
      if !Enabled(Run(START, before), a) then Reported(before)
      else match a
           case SimulateArms => Active
           case SimulateFails => Inactive
           case ClearLocks => Recovering
           case TimerLocks(_) => Recovering
           case ClearEnds(Some(completed)) => if completed then Recovered else RecoveryFailed
           case TimerEnds(_, Some(completed)) => if completed then Recovered else RecoveryFailed
           case _ => Reported(before)
  }

  /**
   The phase reported, in every run: active from arming, recovering from the clear or the expiry,
   recovered exactly if that recovery completed and failed if it did not, inactive before the
   first window and after a rollback.
   */
  lemma {:induction false} PhaseIsReported(actions: seq<Action>)
    ensures Run(START, actions).status == Reported(actions)
    decreases |actions|
  {
    if actions != [] {
      var before, a := actions[..|actions| - 1], actions[|actions| - 1];
      PhaseIsReported(before);
      RunKeepsInv(before);
      if a.TimerLocks? && Enabled(Run(START, before), a) {
        WakingTimerIsCurrent(before, a.i);
      }
    }
  }

  lemma RunExtends(actions: seq<Action>, a: Action)
    ensures Run(START, actions + [a]) == Step(Run(START, actions), a)
  {
    assert (actions + [a])[..|actions|] == actions;
  }

  // ---------------------------------------------------------------------------
  // The client's own fields and operations

  class WindowControl {
    var generation: nat
    var active: bool
    var status: Status
    var suspended: bool
    var expiry: Option<nat>
    var timers: seq<Timer>
    var holder: Holder
    ghost var window: nat
    ghost var disarms: seq<Disarm>

    ghost function View(): State
      reads this
    {
      State(generation, active, status, suspended, expiry, timers, holder, window, disarms)
    }

    constructor ()
      ensures View() == START
    {
      generation, active, status, suspended := 0, false, Inactive, false;
      expiry, timers, holder, window, disarms := None, [], Free, 0, [];
    }

    method CancelExpiryTimer(me: Option<nat>)
      modifies this`expiry, this`timers
      ensures View() == CancelExpiry(old(View()), me)
    {
      if expiry.None? || expiry == me {
        return;
      }
      var h := expiry.value;
      if h < |timers| && timers[h].Live() {
        timers := timers[h := timers[h].(phase := Cancelled)];
      }
      expiry := None;
    }

    /** simulate_comm_loss from taking the lock to the wait for notification handlers. */
    method BeginSimulation()
      requires Enabled(View(), SimulateLocks)
      modifies this
      ensures View() == Next(old(View()), SimulateLocks)
      ensures generation == old(generation) + 1 && expiry.None? && suspended && active == old(active)
    {
      holder := Suspending;
      generation := generation + 1;
      CancelExpiryTimer(None);
      suspended := true;
    }

    method ArmGate()
      requires Enabled(View(), SimulateArms)
      modifies this
      ensures View() == Next(old(View()), SimulateArms)
    {
      active, status, window, holder := true, Active, generation, Draining;
    }

    method OpenWindow()
      requires Enabled(View(), SimulateOpens)
      modifies this
      ensures View() == Next(old(View()), SimulateOpens)
      ensures timers == old(timers) + [Timer(generation, Sleeping)] && expiry == Some(|old(timers)|) && holder.Free?
    {
      timers := timers + [Timer(generation, Sleeping)];
      expiry := Some(|timers| - 1);
      holder := Free;
    }

    /** The rollback on any failure or cancellation of a simulate call that holds the lock. */
    method RollBack()
      requires Enabled(View(), SimulateFails)
      modifies this
      ensures View() == Next(old(View()), SimulateFails)
      ensures !active && status.Inactive? && !suspended && holder.Free?
    {
      active, status, suspended, holder := false, Inactive, false, Free;
    }

    method DisarmGate(closer: Option<nat>)
      modifies this`active, this`status, this`suspended, this`disarms
      ensures View() == Disarmed(old(View()), closer)
    {
      disarms := if active then disarms + [Disarm(closer, window)] else disarms;
      active, status, suspended := false, Recovering, false;
    }

    method BeginClear()
      requires Enabled(View(), ClearLocks)
      modifies this
      ensures View() == Next(old(View()), ClearLocks)
      ensures !active && status.Recovering? && !suspended && expiry.None?
    {
      holder := Clear;
      CancelExpiryTimer(None);
      DisarmGate(None);
    }

    /** The expiry task once it has the lock. */
    method BeginExpiry(i: nat)
      requires Enabled(View(), TimerLocks(i))
      modifies this
      ensures View() == Next(old(View()), TimerLocks(i))
    {
      var mine := timers[i].generation;
      if mine != generation || !active {
        timers := timers[i := timers[i].(phase := Done)];
        return;
      }
      timers := timers[i := timers[i].(phase := Clearing)];
      holder := Expiry(i);
      CancelExpiryTimer(Some(i));
      DisarmGate(Some(mine));
    }

    /** The end of a clear, by the operator or by the timer that holds the lock. */
    method EndClear(outcome: Option<bool>)
      requires holder.Clear? || (holder.Expiry? && holder.timer < |timers|)
      modifies this
      ensures old(holder).Clear? ==> View() == Next(old(View()), ClearEnds(outcome))
      ensures old(holder).Expiry? ==> View() == Next(old(View()), TimerEnds(old(holder).timer, outcome))
      ensures holder.Free? && active == old(active)
      ensures status == match outcome case None => old(status) case Some(ok) => if ok then Recovered else RecoveryFailed
    {
      if outcome.Some? {
        status := if outcome.value then Recovered else RecoveryFailed;
      }
      if holder.Expiry? {
        timers := timers[holder.timer := timers[holder.timer].(phase := Done)];
      }
      holder := Free;
    }
  }
}
