/**
 The transport gate and its request count (`CommLossSimulation` and `_GatedRequestContext`,
 src/py20305/client/comm_loss_simulation.py) with the arming that waits for requests to finish
 (`Sep2Client.arm_comm_loss_simulation`, src/py20305/client/http.py). Many requests run at
 once; a step is a stretch between two awaits. Arming, disarming and aborting are serialized
 by the lifecycle lock of CsipClient.
 */
module RequestGate {
  import opened Wrappers

  /** A request context: talking to the server and counted, finished, or turned away by the gate. */
  datatype Request = Counted | Released | Refused

  /** The drain wait of an arming call in progress. */
  datatype Drain = Quiet | Waiting | Woken

  datatype State = State(
    active: bool, inFlight: int, idle: bool, requests: seq<Request>,
    drain: Drain, drained: bool, lastContact: Option<int>)

  const START := State(false, 0, true, [], Quiet, false, None)

  datatype Action =
    | Enter                             // a request reaches __aenter__
    | Finish(i: nat, contact: Option<int>)  // a counted request is released, recording contact if the server answered
    | Arm | DrainReturns | DrainTimesOut | Disarm | Abort
    | Reset                             // the session is reset and the last contact forgotten

  predicate Enabled(s: State, a: Action) {
    match a
    case Enter => true
    case Finish(i, _) => i < |s.requests| && s.requests[i].Counted?
    case Arm => s.drain.Quiet?
    case DrainReturns => s.drain.Woken?
    case DrainTimesOut => !s.drain.Quiet?
    case Disarm => s.drain.Quiet?
    case Abort => true
    case Reset => true
  }

  /** note_request_finished, which never lets the count go below zero. */
  function Release(s: State): State {
    var n := s.inFlight - 1;
    if n <= 0 then s.(inFlight := 0, idle := true, drain := if s.drain.Waiting? then Woken else s.drain)
    else s.(inFlight := n)
  }

  function Next(s: State, a: Action): State
    requires Enabled(s, a)
  {
    match a
    case Enter =>
      if s.active then s.(requests := s.requests + [Refused])
      else s.(requests := s.requests + [Counted], inFlight := s.inFlight + 1, idle := false)
    case Finish(i, contact) =>
      var last := if contact.Some? then contact else s.lastContact;
      Release(s.(requests := s.requests[i := Released], lastContact := last))
    case Arm => s.(active := true, drained := false, drain := if s.idle then Woken else Waiting)
    case DrainReturns => s.(drain := Quiet, drained := true)
    case DrainTimesOut => s.(drain := Quiet, drained := false)
    case Disarm => s.(active := false, drained := false)
    case Abort => s.(active := false, drained := false, drain := Quiet)
    case Reset => s.(lastContact := None)
  }

  function Step(s: State, a: Action): State {
    if Enabled(s, a) then Next(s, a) else s
  }

  function Run(s: State, actions: seq<Action>): State
    decreases |actions|
  {
    if actions == [] then s else Step(Run(s, actions[..|actions| - 1]), actions[|actions| - 1])
  }

  function Open(requests: seq<Request>): nat {
    if requests == [] then 0
    else Open(requests[..|requests| - 1]) + (if requests[|requests| - 1].Counted? then 1 else 0)
  }

  lemma {:induction false} OpenAfterRelease(requests: seq<Request>, i: nat)
    requires i < |requests| && requests[i].Counted?
    ensures Open(requests) > 0 && Open(requests[i := Released]) == Open(requests) - 1
  {
    var n := |requests| - 1;
    if i == n {
      assert requests[i := Released][..n] == requests[..n];
    } else {
      OpenAfterRelease(requests[..n], i);
      assert requests[i := Released][..n] == requests[..n][i := Released];
    }
  }

  lemma {:induction false} NoneOpen(requests: seq<Request>, i: nat)
    requires Open(requests) == 0 && i < |requests|
    ensures !requests[i].Counted?
  {
    if i < |requests| - 1 { NoneOpen(requests[..|requests| - 1], i); }
  }

  ghost predicate Inv(s: State) {
    && s.inFlight == Open(s.requests)
    && (s.idle <==> s.inFlight == 0)
    && (s.drain.Waiting? ==> s.active && !s.idle)
    && (s.drain.Woken? ==> s.active && s.idle)
    && (s.drained ==> s.active && s.idle && s.drain.Quiet?)
  }

  lemma StepKeepsInv(s: State, a: Action)
    requires Inv(s)
    ensures Inv(Step(s, a))
  {
    if a.Finish? && Enabled(s, a) {
      OpenAfterRelease(s.requests, a.i);
    } else if a.Enter? {
      var r := if s.active then Refused else Counted;
      assert (s.requests + [r])[..|s.requests|] == s.requests;
    }
  }

  lemma {:induction false} RunKeepsInv(s: State, actions: seq<Action>)
    requires Inv(s)
    ensures Inv(Run(s, actions))
    decreases |actions|
  {
    if actions != [] {
      RunKeepsInv(s, actions[..|actions| - 1]);
      StepKeepsInv(Run(s, actions[..|actions| - 1]), actions[|actions| - 1]);
    }
  }

  /** The count is exact in every run: the clamp at zero is never needed, and idle is set exactly at zero. */
  lemma CountIsExact(actions: seq<Action>)
    ensures var s := Run(START, actions);
            s.inFlight == Open(s.requests) && (s.idle <==> Open(s.requests) == 0)
  {
    RunKeepsInv(START, actions);
  }

  // ---- what a run did, read off its steps ------------------------------------------------

  /** The last of arming, disarming and aborting was an arming. */
  function Shut(actions: seq<Action>): bool
    decreases |actions|
  {
    actions != [] &&
    var before, a := actions[..|actions| - 1], actions[|actions| - 1];
    if a.Arm? && Enabled(Run(START, before), a) then true
    else if (a.Disarm? || a.Abort?) && Enabled(Run(START, before), a) then false
    else Shut(before)
  }

  /** For each request that came to the gate, whether it found it shut. */
  function TurnedAway(actions: seq<Action>): seq<bool>
    decreases |actions|
  {
    if actions == [] then []
    else
      var before := actions[..|actions| - 1];
      TurnedAway(before) + (if actions[|actions| - 1].Enter? then [Shut(before)] else [])
  }

  /** The time of the last contact made, unless a reset has forgotten it. */
  function ContactMade(actions: seq<Action>): Option<int>
    decreases |actions|
  {
    if actions == [] then None
    else
      var before, a := actions[..|actions| - 1], actions[|actions| - 1];
      if a.Reset? then None
      else if a.Finish? && Enabled(Run(START, before), a) && a.contact.Some? then a.contact
      else ContactMade(before)
  }

  lemma StepTells(s: State, a: Action)
    ensures var s' := Step(s, a);
            && s'.active == (if !Enabled(s, a) then s.active else if a.Arm? then true
                             else if a.Disarm? || a.Abort? then false else s.active)
            && s'.lastContact == (if a.Reset? then None
                                  else if a.Finish? && Enabled(s, a) && a.contact.Some? then a.contact
                                  else s.lastContact)
            && |s'.requests| == |s.requests| + (if a.Enter? then 1 else 0)
            && (a.Enter? ==> s'.requests[|s.requests|].Refused? == s.active)
            && forall k :: 0 <= k < |s.requests| ==> s'.requests[k].Refused? == s.requests[k].Refused?
  {
  }

  /**
   The run read off its steps: the gate is shut exactly from an arming to the next disarm or abort;
   a request is refused exactly if it finds the gate shut; and the last contact is the last one
   a request made.
   */
  lemma {:induction false} RunTells(actions: seq<Action>)
    ensures var s := Run(START, actions);
            && s.active == Shut(actions) && s.lastContact == ContactMade(actions)
            && |s.requests| == |TurnedAway(actions)|
            && forall k :: 0 <= k < |s.requests| ==> s.requests[k].Refused? == TurnedAway(actions)[k]
    decreases |actions|
  {
    if actions != [] {
      RunTells(actions[..|actions| - 1]);
      StepTells(Run(START, actions[..|actions| - 1]), actions[|actions| - 1]);
    }
  }

  predicate Reopens(a: Action) { a.Disarm? || a.Abort? }

  /** With the gate closed and nothing in flight, no step but a reopening lets a request through. */
  lemma {:induction false} StaysIsolated(s: State, actions: seq<Action>)
    requires Inv(s) && s.active && Open(s.requests) == 0
    requires forall a :: a in actions ==> !Reopens(a)
    ensures var s' := Run(s, actions);
            && s'.active && Open(s'.requests) == 0
            && s'.lastContact == if Reset in actions then None else s.lastContact
    decreases |actions|
  {
    if actions != [] {
      var n := |actions| - 1;
      StaysIsolated(s, actions[..n]);
      RunKeepsInv(s, actions[..n]);
      var mid, a := Run(s, actions[..n]), actions[n];
      assert a in actions && actions == actions[..n] + [a];
      if a.Finish? && Enabled(mid, a) {
        NoneOpen(mid.requests, a.i);
      } else if a.Enter? {
        assert (mid.requests + [Refused])[..|mid.requests|] == mid.requests;
      }
    }
  }

  /**
   Drain isolation: whenever an arming call returns "drained", then through every continuation
   until the next disarm or abort no request is talking to the server, so the time of the last
   contact cannot move, except that a reset forgets it.
   */
  lemma DrainedMeansIsolated(before: seq<Action>, after: seq<Action>)
    requires Enabled(Run(START, before), DrainReturns)
    requires forall a :: a in after ==> !Reopens(a)
    ensures var s := Step(Run(START, before), DrainReturns);
            var s' := Run(s, after);
            && s.drained && s'.active && s'.lastContact == (if Reset in after then None else s.lastContact)
            && forall i :: 0 <= i < |s'.requests| ==> !s'.requests[i].Counted?
  {
    RunKeepsInv(START, before);
    var s := Step(Run(START, before), DrainReturns);
    StepKeepsInv(Run(START, before), DrainReturns);
    StaysIsolated(s, after);
    var s' := Run(s, after);
    forall i | 0 <= i < |s'.requests| ensures !s'.requests[i].Counted? {
      NoneOpen(s'.requests, i);
    }
  }

  /**
   Without a completed drain there is no such promise: a request counted before the gate closed
   still makes contact.
   */
  lemma TimedOutDrainLeaks()
    ensures var actions := [Enter, Arm, DrainTimesOut, Finish(0, Some(7))];
            Run(START, actions).active && Run(START, actions).lastContact == Some(7)
  {
    var s1 := Step(START, Enter);
    var s2 := Step(s1, Arm);
    var s3 := Step(s2, DrainTimesOut);
    assert Run(START, [Enter]) == s1 by { assert [Enter][..0] == []; }
    assert Run(START, [Enter, Arm]) == s2 by { assert [Enter, Arm][..1] == [Enter]; }
    assert Run(START, [Enter, Arm, DrainTimesOut]) == s3 by { assert [Enter, Arm, DrainTimesOut][..2] == [Enter, Arm]; }
    var last := [Enter, Arm, DrainTimesOut, Finish(0, Some(7))];
    assert last[..3] == [Enter, Arm, DrainTimesOut];
  }

  // ---------------------------------------------------------------------------
  // The objects of the source

  /**
   The gate. `waiter` is the arming call's wait for idle; the ghost fields are history kept
   elsewhere or not at all.
   */
  class CommLossSimulation {
    var active: bool
    var inFlight: int
    var idle: bool
    var waiter: Drain
    ghost var requests: seq<Request>
    ghost var drained: bool
    ghost var lastContact: Option<int>

    ghost function View(): State
      reads this
    {
      State(active, inFlight, idle, requests, waiter, drained, lastContact)
    }

    constructor ()
      ensures View() == START && Inv(View())
    {
      active, inFlight, idle, waiter := false, 0, true, Quiet;
      requests, drained, lastContact := [], false, None;
    }

    /** A request that found the gate open starts to be counted: the count stays exact. */
    method NoteRequestStarted()
      requires !active && Inv(View())
      modifies this
      ensures View() == Next(old(View()), Enter) && Inv(View())
    {
      StepKeepsInv(View(), Enter);
      inFlight := inFlight + 1;
      idle := false;
      requests := requests + [Counted];
    }

    /** Counted request i is released, with the contact it made if the server answered. */
    method NoteRequestFinished(ghost i: nat, ghost contact: Option<int>)
      requires Enabled(View(), Finish(i, contact)) && Inv(View())
      modifies this
      ensures View() == Next(old(View()), Finish(i, contact)) && Inv(View())
    {
      StepKeepsInv(View(), Finish(i, contact));
      requests := requests[i := Released];
      lastContact := if contact.Some? then contact else lastContact;
      inFlight := inFlight - 1;
      if inFlight <= 0 {
        inFlight := 0;
        idle := true;
        if waiter.Waiting? { waiter := Woken; }
      }
    }

    /** Closes the gate before waiting, so that nothing new gets out while draining. */
    method BeginArm()
      requires Enabled(View(), Arm) && Inv(View())
      modifies this
      ensures View() == Next(old(View()), Arm) && Inv(View())
    {
      StepKeepsInv(View(), Arm);
      active := true;
      waiter := if idle then Woken else Waiting;
      drained := false;
    }

    /** The end of the wait: True only when idle was reached, and then nothing is in flight behind the closed gate. */
    method EndDrain(timedOut: bool) returns (complete: bool)
      requires !waiter.Quiet? && (timedOut || waiter.Woken?) && Inv(View())
      modifies this
      ensures View() == Next(old(View()), if timedOut then DrainTimesOut else DrainReturns) && Inv(View())
      ensures complete == !timedOut
      ensures complete ==> active && Open(requests) == 0
    {
      StepKeepsInv(View(), if timedOut then DrainTimesOut else DrainReturns);
      complete := !timedOut;
      waiter := Quiet;
      drained := complete;
    }

    method Disarm()
      requires Enabled(View(), Action.Disarm) && Inv(View())
      modifies this
      ensures View() == Next(old(View()), Action.Disarm) && Inv(View())
    {
      StepKeepsInv(View(), Action.Disarm);
      active, drained := false, false;
    }

    /** Undoes an activation that failed part way, ending its wait with it. */
    method Abort()
      requires Inv(View())
      modifies this
      ensures View() == Next(old(View()), Action.Abort) && Inv(View())
    {
      StepKeepsInv(View(), Action.Abort);
      active, drained, waiter := false, false, Quiet;
    }
  }

  /** One `async with session.get(...)`; `id` is its place among the requests. */
  class GatedRequest {
    const simulation: CommLossSimulation
    var counted: bool
    ghost var id: nat

    /** A request still to be released is one of the counted ones. */
    ghost predicate Valid()
      reads this, simulation
    {
      Inv(simulation.View())
      && (counted ==> id < |simulation.requests| && simulation.requests[id].Counted?)
    }

    constructor (simulation: CommLossSimulation)
      requires Inv(simulation.View())
      ensures this.simulation == simulation && !counted && Valid()
    {
      this.simulation := simulation;
      counted := false;
    }

    /** Fails at once behind an armed gate, else counts the request. */
    method BeginEnter() returns (refused: bool)
      requires Valid() && !counted
      modifies this, simulation
      ensures Valid() && simulation.View() == Next(old(simulation.View()), Enter)
      ensures refused == old(simulation.active) && counted == !refused
    {
      refused := simulation.active;
      id := |simulation.requests|;
      if !refused {
        simulation.NoteRequestStarted();
        counted := true;
      } else {
        StepKeepsInv(simulation.View(), Enter);
        simulation.requests := simulation.requests + [Refused];
      }
    }

    /** Releases at most once, however the request ended. */
    method ReleaseOnce(ghost contact: Option<int>)
      requires Valid()
      modifies this, simulation
      ensures Valid() && !counted
      ensures old(counted) ==> simulation.View() == Next(old(simulation.View()), Finish(old(id), contact))
      ensures !old(counted) ==> simulation.View() == old(simulation.View())
    {
      if counted {
        counted := false;
        simulation.NoteRequestFinished(id, contact);
      }
    }
  }
}
