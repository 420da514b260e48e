/**
 The outage window and the request gate together (src/py20305/client/csip_client.py with
 src/py20305/client/http.py and src/py20305/client/comm_loss_simulation.py): the steps of
 simulate, clear and expiry arm, drain and disarm the gate that requests pass through.
 */
module IsolatedWindow {
  import Gate = RequestGate
  import Window = SimulationWindow
  import opened Wrappers

  datatype State = State(window: Window.State, gate: Gate.State)

  const START := State(Window.START, Gate.START)

  /** `Opens(drained)` is the end of a simulate call whose drain completed or timed out. */
  datatype Action =
    | Simulates | Arms | Opens(drained: bool) | Fails
    | Clears | ClearEnds(outcome: Option<bool>)
    | TimerWakes(i: nat) | TimerStops(i: nat) | TimerLocks(i: nat) | TimerEnds(i: nat, outcome: Option<bool>)
    | Enters | Finishes(i: nat, contact: Option<int>) | Resets

  function WindowAction(a: Action): Option<Window.Action> {
    match a
    case Simulates => Some(Window.SimulateLocks)
    case Arms => Some(Window.SimulateArms)
    case Opens(_) => Some(Window.SimulateOpens)
    case Fails => Some(Window.SimulateFails)
    case Clears => Some(Window.ClearLocks)
    case ClearEnds(outcome) => Some(Window.ClearEnds(outcome))
    case TimerWakes(i) => Some(Window.TimerWakes(i))
    case TimerStops(i) => Some(Window.TimerStops(i))
    case TimerLocks(i) => Some(Window.TimerLocks(i))
    case TimerEnds(i, outcome) => Some(Window.TimerEnds(i, outcome))
    case _ => None
  }

  /** The timer that takes the lock goes on to clear the window. */
  predicate Expires(w: Window.State, i: nat) {
    i < |w.timers| && w.timers[i].generation == w.generation && w.active
  }

  function GateAction(s: State, a: Action): Option<Gate.Action> {
    match a
    case Arms => Some(Gate.Arm)
    case Opens(drained) => Some(if drained then Gate.DrainReturns else Gate.DrainTimesOut)
    case Fails => Some(Gate.Abort)
    case Clears => Some(Gate.Disarm)
    case TimerLocks(i) => if Expires(s.window, i) then Some(Gate.Disarm) else None
    case Enters => Some(Gate.Enter)
    case Finishes(i, contact) => Some(Gate.Finish(i, contact))
    case Resets => Some(Gate.Reset)
    case _ => None
  }

  predicate Enabled(s: State, a: Action) {
    && (WindowAction(a).Some? ==> Window.Enabled(s.window, WindowAction(a).value))
    && (GateAction(s, a).Some? ==> Gate.Enabled(s.gate, GateAction(s, a).value))
  }

  function Next(s: State, a: Action): State
    requires Enabled(s, a)
  {
    State(if WindowAction(a).Some? then Window.Next(s.window, WindowAction(a).value) else s.window,
          if GateAction(s, a).Some? then Gate.Next(s.gate, GateAction(s, a).value) else s.gate)
  }

  function Step(s: State, a: Action): State {
    if Enabled(s, a) then Next(s, a) else s
  }

  function Run(s: State, actions: seq<Action>): State
    decreases |actions|
  {
    if actions == [] then s else Step(Run(s, actions[..|actions| - 1]), actions[|actions| - 1])
  }

  /**
   Both halves are sound, agree on whether the gate is closed, and the drain runs just while
   simulate waits for it.
   */
  ghost predicate Inv(s: State) {
    && Window.Inv(s.window) && Gate.Inv(s.gate)
    && s.gate.active == s.window.active
    && (s.gate.drain.Quiet? <==> !s.window.holder.Draining?)
  }

  lemma StepKeepsInv(s: State, a: Action)
    requires Inv(s)
    ensures Inv(Step(s, a))
  {
    if Enabled(s, a) {
      if WindowAction(a).Some? { Window.StepKeepsInv(s.window, WindowAction(a).value); }
      if GateAction(s, a).Some? { Gate.StepKeepsInv(s.gate, GateAction(s, a).value); }
      Agree(s, a);
    }
  }

  lemma Agree(s: State, a: Action)
    requires Inv(s) && Enabled(s, a)
    ensures var s' := Next(s, a);
            s'.gate.active == s'.window.active && (s'.gate.drain.Quiet? <==> !s'.window.holder.Draining?)
  {
  }

  lemma {:induction false} RunKeepsInv(s: State, actions: seq<Action>)
    requires Inv(s)
    ensures Inv(Run(s, actions))
    decreases |actions|
  {
    if actions != [] {
      RunKeepsInv(s, actions[..|actions| - 1]);
      StepKeepsInv(Run(s, actions[..|actions| - 1]), actions[|actions| - 1]);
    }
  }

  /**
   The gate never stands in the way of the window: in every run a window step that may be taken
   finds the gate ready for it, apart from a drain that has not completed.
   */
  lemma GateIsReady(actions: seq<Action>, a: Action)
    requires WindowAction(a).Some? && Window.Enabled(Run(START, actions).window, WindowAction(a).value)
    ensures Enabled(Run(START, actions), a) || (a == Opens(true) && Run(START, actions).gate.drain.Waiting?)
  {
    RunKeepsInv(START, actions);
  }

  /** The step opens the gate again. */
  predicate Closes(s: State, a: Action) { s.window.active && !Step(s, a).window.active }

  /** The timer is the one the client keeps and belongs to the window that is open. */
  predicate OwnTimer(w: Window.State, i: nat) {
    w.expiry == Some(i) && i < |w.timers| && w.timers[i].generation == w.window
  }

  lemma ClosingStep(s: State, a: Action)
    requires Inv(s) && Closes(s, a)
    ensures a.Clears? || a.Fails? || (a.TimerLocks? && OwnTimer(s.window, a.i))
  {
    if a.TimerLocks? {
      assert s.window.timers[a.i].Live();
    }
  }

  lemma ClosingOutcome(s: State, a: Action)
    requires Closes(s, a)
    ensures var w := Step(s, a).window;
            if a.Fails? then w.status.Inactive? && w.holder.Free? else w.status.Recovering? && !w.holder.Free?
  {
  }

  /**
   Who can end a window, in any reachable state: an operator's clear, the window's own timer, or
   a later simulate call that fails. Only the last one drives no recovery.
   */
  lemma WhoCloses(actions: seq<Action>, a: Action)
    requires Closes(Run(START, actions), a)
    ensures var s, w := Run(START, actions), Step(Run(START, actions), a).window;
            && (a.Clears? || a.Fails? || (a.TimerLocks? && OwnTimer(s.window, a.i)))
            && (if a.Fails? then w.status.Inactive? && w.holder.Free? else w.status.Recovering? && !w.holder.Free?)
  {
    RunKeepsInv(START, actions);
    ClosingStep(Run(START, actions), a);
    ClosingOutcome(Run(START, actions), a);
  }

  ghost predicate Isolated(s: State) { Inv(s) && s.window.active && Gate.Open(s.gate.requests) == 0 }

  lemma IsolatedStep(s: State, a: Action)
    requires Isolated(s) && !Closes(s, a)
    ensures Isolated(Step(s, a))
    ensures Step(s, a).gate.lastContact == if a.Resets? then None else s.gate.lastContact
  {
    StepKeepsInv(s, a);
    if Enabled(s, a) && GateAction(s, a).Some? {
      var g := GateAction(s, a).value;
      var one := [g];
      assert one[..0] == [] && Gate.Run(s.gate, one) == Gate.Step(s.gate, g);
      if !Gate.Reopens(g) {
        Gate.StaysIsolated(s.gate, one);
      }
    }
  }

  /** No step of the run closes the window. */
  ghost predicate NeverCloses(s: State, actions: seq<Action>) {
    forall k: nat :: k < |actions| ==> !Closes(Run(s, actions[..k]), actions[k])
  }

  lemma NeverClosesBefore(s: State, actions: seq<Action>)
    requires actions != [] && NeverCloses(s, actions)
    ensures NeverCloses(s, actions[..|actions| - 1])
    ensures !Closes(Run(s, actions[..|actions| - 1]), actions[|actions| - 1])
  {
    var n := |actions| - 1;
    forall k: nat | k < n ensures !Closes(Run(s, actions[..n][..k]), actions[..n][k]) {
      assert actions[..n][..k] == actions[..k] && actions[..n][k] == actions[k];
    }
  }

  lemma {:induction false} StaysIsolated(s: State, actions: seq<Action>)
    requires Isolated(s) && NeverCloses(s, actions)
    ensures Isolated(Run(s, actions))
    ensures Run(s, actions).gate.lastContact == if Resets in actions then None else s.gate.lastContact
    decreases |actions|
  {
    if actions != [] {
      assert actions == actions[..|actions| - 1] + [actions[|actions| - 1]];
      NeverClosesBefore(s, actions);
      StaysIsolated(s, actions[..|actions| - 1]);
      IsolatedStep(Run(s, actions[..|actions| - 1]), actions[|actions| - 1]);
    }
  }

  /**
   What a simulated outage promises: in every interleaving of simulate, clear, expiry and requests,
   once a window has opened with a complete drain, no request talks to the server and the last
   contact stays where it is, unless a reset forgets it, until a step closes the window, which
   `WhoCloses` names.
   */
  lemma CleanWindowIsSilent(before: seq<Action>, after: seq<Action>)
    requires Enabled(Run(START, before), Opens(true))
    ensures var s := Step(Run(START, before), Opens(true));
            && s.window.active && s.window.holder.Free?
            && (NeverCloses(s, after) ==>
                  var s' := Run(s, after);
                  && s'.window.active
                  && s'.gate.lastContact == (if Resets in after then None else s.gate.lastContact)
                  && forall i :: 0 <= i < |s'.gate.requests| ==> !s'.gate.requests[i].Counted?)
  {
    RunKeepsInv(START, before);
    var s := Step(Run(START, before), Opens(true));
    StepKeepsInv(Run(START, before), Opens(true));
    assert Isolated(s);
    if NeverCloses(s, after) {
      StaysIsolated(s, after);
      var s' := Run(s, after);
      forall i | 0 <= i < |s'.gate.requests| ensures !s'.gate.requests[i].Counted? {
        Gate.NoneOpen(s'.gate.requests, i);
      }
    }
  }

  lemma RunExtends(actions: seq<Action>, a: Action)
    ensures Run(START, actions + [a]) == Step(Run(START, actions), a)
  {
    assert (actions + [a])[..|actions|] == actions;
  }

  /** A request under way when a simulate call has armed the gate. */
  lemma ArmedOverARequest() returns (actions: seq<Action>)
    ensures var s := Run(START, actions);
            && s.window.holder.Draining? && s.window.active && s.gate.drain.Waiting?
            && s.gate.requests == [Gate.Counted]
  {
    var a1 := [Enters];
    var a2 := a1 + [Simulates];
    actions := a2 + [Arms];
    RunExtends([], Enters);
    RunExtends(a1, Simulates);
    RunExtends(a2, Arms);
    assert [] + a1 == a1;
    var s1 := Run(START, a1);
    assert s1.window == Window.START && s1.gate == Gate.Next(Gate.START, Gate.Enter);
    assert Run(START, a2).gate == s1.gate && Run(START, a2).window.holder.Suspending?;
  }

  /** A clean drain is needed: a request under way when a drain times out makes contact in the open window. */
  lemma TimedOutWindowLeaks() returns (actions: seq<Action>)
    ensures var s := Run(START, actions);
            s.window.active && s.window.holder.Free? && s.gate.lastContact == Some(7)
  {
    var a3 := ArmedOverARequest();
    var a4 := a3 + [Opens(false)];
    actions := a4 + [Finishes(0, Some(7))];
    RunExtends(a3, Opens(false));
    RunExtends(a4, Finishes(0, Some(7)));
    assert Run(START, a4).gate.requests == [Gate.Counted];
  }
}
