/**
 The bounded queue of `QueuedObserver` (src/py20305/observers.py) with its callers, its one
 closer and its worker thread as separate processes. A call is one step: it checks and puts
 under the lock. Every other step is one access to the shared queue, flag or counter. Records
 are named by numbers.
 */
module QueuedObserver {

  datatype Entry = Record(r: nat) | Stop

  /** The worker thread, by what it does next. */
  datatype Worker =
    | Checks                 // test the abandon flag
    | Gets                   // take the next entry, blocking
    | Delivers(r: nat)       // a record in hand
    | Discards               // after abandonment: take an entry if there is one
    | Counts(r: nat)         // a discarded record not yet counted
    | Ended

  datatype Closer = Open | PuttingStop | Joining | Returned

  /** History: the records offered, put on the queue, given to the target and thrown away, and how many were refused. */
  datatype Log = Log(offered: seq<nat>, accepted: seq<nat>, handed: seq<nat>, discarded: seq<nat>, refused: nat)

  /** `stopQueued` is history too: whether the stop marker was ever put on the queue. */
  datatype State = State(
    maxsize: nat, closed: bool, abandon: bool, dropped: nat, failures: nat, queue: seq<Entry>,
    worker: Worker, closer: Closer, stopQueued: bool, log: Log)

  function Start(maxsize: nat): State {
    State(maxsize, false, false, 0, 0, [], Checks, Open, false, Log([], [], [], [], 0))
  }

  datatype Action =
    | Offer(r: nat)
    | CloseBegins | StopFits | StopGivesUp | StopNotNeeded | JoinReturns | JoinTimesOut
    | WorkerChecks | WorkerGets | WorkerDelivers(ok: bool) | WorkerDiscards | WorkerCounts

  predicate Enabled(s: State, a: Action) {
    match a
    case Offer(_) => true
    case CloseBegins => s.closer.Open?
    case StopFits => s.closer.PuttingStop? && |s.queue| < s.maxsize
    case StopGivesUp => s.closer.PuttingStop?
    case StopNotNeeded => s.closer.PuttingStop? && s.worker.Ended?
    case JoinReturns => s.closer.Joining? && s.worker.Ended?
    case JoinTimesOut => s.closer.Joining? && !s.worker.Ended?
    case WorkerChecks => s.worker.Checks?
    case WorkerGets => s.worker.Gets? && s.queue != []
    case WorkerDelivers(_) => s.worker.Delivers?
    case WorkerDiscards => s.worker.Discards?
    case WorkerCounts => s.worker.Counts?
  }

  function Next(s: State, a: Action): State
    requires Enabled(s, a)
  {
    match a
    case Offer(r) =>
      if s.closed || |s.queue| >= s.maxsize
      then s.(dropped := s.dropped + 1, log := s.log.(offered := s.log.offered + [r], refused := s.log.refused + 1))
      else s.(queue := s.queue + [Record(r)],
              log := s.log.(offered := s.log.offered + [r], accepted := s.log.accepted + [r]))
    case CloseBegins => s.(closed := true, closer := PuttingStop)
    case StopFits => s.(queue := s.queue + [Stop], closer := Joining, stopQueued := true)
    case StopGivesUp => s.(abandon := true, closer := Returned)
    case StopNotNeeded => s.(closer := Joining)
    case JoinReturns => s.(closer := Returned)
    case JoinTimesOut => s.(abandon := true, closer := Returned)
    case WorkerChecks => s.(worker := if s.abandon then Discards else Gets)
    case WorkerGets =>
      s.(queue := s.queue[1..], worker := match s.queue[0] case Stop => Ended case Record(r) => Delivers(r))
    case WorkerDelivers(ok) =>
      s.(log := s.log.(handed := s.log.handed + [s.worker.r]), worker := Checks,
         failures := s.failures + (if ok then 0 else 1))
    case WorkerDiscards =>
      if s.queue == [] then s.(worker := Ended)
      else s.(queue := s.queue[1..], worker := match s.queue[0] case Stop => Discards case Record(r) => Counts(r))
    case WorkerCounts =>
      s.(dropped := s.dropped + 1, log := s.log.(discarded := s.log.discarded + [s.worker.r]), worker := Discards)
  }

  function Step(s: State, a: Action): State {
    if Enabled(s, a) then Next(s, a) else s
  }

  function Run(s: State, actions: seq<Action>): State
    decreases |actions|
  {
    if actions == [] then s else Step(Run(s, actions[..|actions| - 1]), actions[|actions| - 1])
  }

  // ---------------------------------------------------------------------------

  function Records(queue: seq<Entry>): seq<nat> {
    if queue == [] then []
    else (match queue[0] case Record(r) => [r] case Stop => []) + Records(queue[1..])
  }

  lemma {:induction false} RecordsConcat(a: seq<Entry>, b: seq<Entry>)
    ensures Records(a + b) == Records(a) + Records(b)
  {
    if a == [] {
      assert a + b == b;
    } else {
      var first := match a[0] case Record(r) => [r] case Stop => [];
      assert (a + b)[0] == a[0] && (a + b)[1..] == a[1..] + b;
      RecordsConcat(a[1..], b);
      assert Records(a + b) == first + (Records(a[1..]) + Records(b));
      assert Records(a) == first + Records(a[1..]);
    }
  }

  /** The record the worker holds, if any: on its way to the target, or thrown away but not yet counted. */
  function InHand(w: Worker): seq<nat> { if w.Delivers? then [w.r] else [] }
  function Uncounted(w: Worker): seq<nat> { if w.Counts? then [w.r] else [] }

  /** What was taken off the queue and not handed over. */
  function Between(s: State): seq<nat> {
    match s.worker
    case Delivers(r) => [r]
    case Counts(r) => s.log.discarded + [r]
    case _ => s.log.discarded
  }

  ghost predicate Ledger(s: State) {
    && s.log.accepted == s.log.handed + Between(s) + Records(s.queue)
    && |s.log.offered| == |s.log.accepted| + s.log.refused
    && s.dropped == s.log.refused + |s.log.discarded|
    && s.failures <= |s.log.handed|
  }

  /** The worker is past the point where it hands records over. */
  predicate Abandoning(w: Worker) { w.Discards? || w.Counts? || w.Ended? }

  ghost predicate Control(s: State) {
    && s.maxsize >= 1 && |s.queue| <= s.maxsize
    && (s.log.discarded != [] ==> s.abandon && Abandoning(s.worker))
    && (s.worker.Discards? || s.worker.Counts? ==> s.abandon)
    && (s.closed <==> !s.closer.Open?)
    && (s.abandon ==> s.closer.Returned?)
    && (s.stopQueued ==> s.closer.Joining? || s.closer.Returned?)
    // a closer that is done has left the worker a sign to stop
    && (s.closer.Joining? ==> s.stopQueued)
    && (s.closer.Returned? ==> s.abandon || s.stopQueued)
    // the stop marker, once queued, is last
    && (forall i :: 0 <= i < |s.queue| && s.queue[i].Stop? ==> i == |s.queue| - 1 && s.stopQueued)
    && (s.stopQueued && !Abandoning(s.worker) ==> s.queue != [] && s.queue[|s.queue| - 1].Stop?)
    && (s.worker.Ended? ==> s.queue == [] && (s.closer.Joining? || s.closer.Returned?))
  }

  ghost predicate Inv(s: State) { Ledger(s) && Control(s) }

  lemma StepKeepsControl(s: State, a: Action)
    requires Control(s)
    ensures Control(Step(s, a))
  {
    if a.WorkerGets? && Enabled(s, a) && s.queue[0].Stop? {
      assert s.queue[1..] == [];
    }
  }

  lemma OfferKeepsLedger(s: State, r: nat)
    requires Ledger(s)
    ensures Ledger(Next(s, Offer(r)))
  {
    if !s.closed && |s.queue| < s.maxsize {
      var base := s.log.handed + Between(s);
      RecordsConcat(s.queue, [Record(r)]);
      assert Records([Record(r)]) == [r];
      assert base + Records(s.queue) + [r] == base + (Records(s.queue) + [r]);
    }
  }

  lemma Regroup(a: seq<nat>, b: seq<nat>, c: seq<nat>)
    ensures a + b + c == a + (b + c)
  {
  }

  /** A step that only moves records from the queue to the worker keeps the ledger. */
  lemma MoveKeepsLedger(s: State, s': State)
    requires Ledger(s) && s'.log == s.log && s'.dropped == s.dropped && s'.failures == s.failures
    requires Between(s) + Records(s.queue) == Between(s') + Records(s'.queue)
    ensures Ledger(s')
  {
    Regroup(s.log.handed, Between(s), Records(s.queue));
    Regroup(s.log.handed, Between(s'), Records(s'.queue));
  }

  lemma TakeKeepsLedger(s: State)
    requires Ledger(s) && s.log.discarded == [] && Enabled(s, WorkerGets)
    ensures Ledger(Next(s, WorkerGets))
  {
    var s' := Next(s, WorkerGets);
    assert Between(s) == [];
    assert Records(s.queue) == Between(s') + Records(s'.queue);
    MoveKeepsLedger(s, s');
  }

  lemma DiscardKeepsLedger(s: State)
    requires Ledger(s) && Enabled(s, WorkerDiscards) && s.queue != []
    ensures Ledger(Next(s, WorkerDiscards))
  {
    var s', rest := Next(s, WorkerDiscards), Records(s.queue[1..]);
    if s.queue[0].Record? {
      Regroup(s.log.discarded, [s.queue[0].r], rest);
    } else {
      assert Records(s.queue) == rest;
    }
    MoveKeepsLedger(s, s');
  }

  lemma StopKeepsLedger(s: State)
    requires Ledger(s) && Enabled(s, StopFits)
    ensures Ledger(Next(s, StopFits))
  {
    RecordsConcat(s.queue, [Stop]);
    assert Records([Stop]) == [];
  }

  lemma DeliverKeepsLedger(s: State, ok: bool)
    requires Ledger(s) && s.log.discarded == [] && Enabled(s, WorkerDelivers(ok))
    ensures Ledger(Next(s, WorkerDelivers(ok)))
  {
    var s' := Next(s, WorkerDelivers(ok));
    assert s'.log.handed == s.log.handed + Between(s) && Between(s') == [];
  }

  lemma StepKeepsLedger(s: State, a: Action)
    requires Ledger(s) && Control(s)
    ensures Ledger(Step(s, a))
  {
    if Enabled(s, a) {
      match a
      case Offer(r) => OfferKeepsLedger(s, r);
      case StopFits => StopKeepsLedger(s);
      case WorkerGets => TakeKeepsLedger(s);
      case WorkerDelivers(ok) => DeliverKeepsLedger(s, ok);
      case WorkerDiscards => if s.queue != [] { DiscardKeepsLedger(s); }
      case _ =>
    }
  }

  lemma StepKeepsInv(s: State, a: Action)
    requires Inv(s)
    ensures Inv(Step(s, a))
  {
    StepKeepsControl(s, a);
    StepKeepsLedger(s, a);
  }

  lemma {:induction false} RunKeepsInv(s: State, actions: seq<Action>)
    requires Inv(s)
    ensures Inv(Run(s, actions))
    decreases |actions|
  {
    if actions != [] {
      RunKeepsInv(s, actions[..|actions| - 1]);
      StepKeepsInv(Run(s, actions[..|actions| - 1]), actions[|actions| - 1]);
    }
  }

  /** The records the callers of a run offer, in order. */
  function Offers(actions: seq<Action>): seq<nat> {
    if actions == [] then []
    else
      var last := actions[|actions| - 1];
      Offers(actions[..|actions| - 1]) + (if last.Offer? then [last.r] else [])
  }

  lemma {:induction false} OfferedIsOffers(s: State, actions: seq<Action>)
    ensures Run(s, actions).log.offered == s.log.offered + Offers(actions)
    decreases |actions|
  {
    if actions != [] {
      OfferedIsOffers(s, actions[..|actions| - 1]);
      OfferedStep(Run(s, actions[..|actions| - 1]), actions[|actions| - 1]);
    }
  }

  lemma OfferedStep(s: State, a: Action)
    ensures Step(s, a).log.offered == s.log.offered + if a.Offer? then [a.r] else []
  {
  }

  /**
   Conservation and order under every interleaving: each record the callers offered is handed
   over, in hand, queued or dropped, or about to be counted as dropped; what was handed over is
   a prefix of what was accepted, in that order; and the queue never exceeds its size.
   */
  lemma RecordsAreConserved(maxsize: nat, actions: seq<Action>)
    requires maxsize >= 1
    ensures var s := Run(Start(maxsize), actions);
            && s.log.offered == Offers(actions)
            && |Offers(actions)|
               == |s.log.handed| + |InHand(s.worker)| + |Records(s.queue)| + s.dropped + |Uncounted(s.worker)|
            && s.log.handed <= s.log.accepted
            && |s.queue| <= s.maxsize == maxsize
            && s.failures <= |s.log.handed|
  {
    RunKeepsInv(Start(maxsize), actions);
    MaxsizeIsFixed(Start(maxsize), actions);
    OfferedIsOffers(Start(maxsize), actions);
    Balance(Run(Start(maxsize), actions));
  }

  lemma Balance(s: State)
    requires Inv(s)
    ensures |s.log.offered|
        == |s.log.handed| + |InHand(s.worker)| + |Records(s.queue)| + s.dropped + |Uncounted(s.worker)|
    ensures s.log.handed <= s.log.accepted
  {
    var rest := Between(s) + Records(s.queue);
    assert s.log.accepted == s.log.handed + rest;
    assert |Between(s)| == |InHand(s.worker)| + |s.log.discarded| + |Uncounted(s.worker)|;
  }

  lemma {:induction false} MaxsizeIsFixed(s: State, actions: seq<Action>)
    ensures Run(s, actions).maxsize == s.maxsize
    decreases |actions|
  {
    if actions != [] {
      MaxsizeIsFixed(s, actions[..|actions| - 1]);
      StepKeepsMaxsize(Run(s, actions[..|actions| - 1]), actions[|actions| - 1]);
    }
  }

  lemma StepKeepsMaxsize(s: State, a: Action)
    ensures Step(s, a).maxsize == s.maxsize
  {
  }

  /**
   The records that are to be accepted: those offered before any close, at a moment when the queue
   held fewer entries than it may.
   */
  function Welcome(maxsize: nat, actions: seq<Action>): seq<nat>
    decreases |actions|
  {
    if actions == [] then []
    else
      var before, last := actions[..|actions| - 1], actions[|actions| - 1];
      Welcome(maxsize, before)
      + (if last.Offer? && CloseBegins !in before && |Run(Start(maxsize), before).queue| < maxsize
         then [last.r] else [])
  }

  lemma {:induction false} ClosedIffCloseBegan(maxsize: nat, actions: seq<Action>)
    ensures Run(Start(maxsize), actions).closed <==> CloseBegins in actions
    ensures Run(Start(maxsize), actions).closer.Open? <==> CloseBegins !in actions
    decreases |actions|
  {
    if actions != [] {
      var n := |actions| - 1;
      ClosedIffCloseBegan(maxsize, actions[..n]);
      assert actions == actions[..n] + [actions[n]];
      ClosedStep(Run(Start(maxsize), actions[..n]), actions[n]);
    }
  }

  lemma ClosedStep(s: State, a: Action)
    requires s.closed <==> !s.closer.Open?
    ensures var s' := Step(s, a);
            (s'.closed <==> s.closed || a.CloseBegins?) && (s'.closer.Open? <==> s.closer.Open? && !a.CloseBegins?)
  {
  }

  lemma AcceptStep(s: State, a: Action)
    ensures var s' := Step(s, a);
            var taken := a.Offer? && !s.closed && |s.queue| < s.maxsize;
            && s'.log.accepted == s.log.accepted + (if taken then [a.r] else [])
            && s'.log.refused == s.log.refused + (if a.Offer? && !taken then 1 else 0)
            && (taken ==> s'.queue == s.queue + [Record(a.r)] && s'.dropped == s.dropped)
            && (a.Offer? && !taken ==> s'.queue == s.queue && s'.dropped == s.dropped + 1)
  {
  }

  /**
   Who is accepted: in every run the accepted records are exactly, and in order, those offered
   before any close at a moment when the queue had room, and every other call is refused.
   */
  lemma {:induction false} AcceptedAreTheWelcome(maxsize: nat, actions: seq<Action>)
    ensures var s := Run(Start(maxsize), actions);
            && s.log.accepted == Welcome(maxsize, actions)
            && s.log.refused == |Offers(actions)| - |Welcome(maxsize, actions)|
    decreases |actions|
  {
    if actions != [] {
      var n := |actions| - 1;
      var s := Run(Start(maxsize), actions[..n]);
      AcceptedAreTheWelcome(maxsize, actions[..n]);
      ClosedIffCloseBegan(maxsize, actions[..n]);
      MaxsizeIsFixed(Start(maxsize), actions[..n]);
      AcceptStep(s, actions[n]);
    }
  }

  /** What the queue holds is what was accepted and not yet taken, oldest first, and at most one stop marker, last. */
  lemma QueueIsWhatIsLeft(maxsize: nat, actions: seq<Action>)
    requires maxsize >= 1
    ensures var s := Run(Start(maxsize), actions);
            var taken := |s.log.handed| + |InHand(s.worker)| + |s.log.discarded| + |Uncounted(s.worker)|;
            && taken <= |s.log.accepted| && Records(s.queue) == s.log.accepted[taken..]
            && |s.queue| - |Records(s.queue)| == if s.queue != [] && s.queue[|s.queue| - 1].Stop? then 1 else 0
  {
    RunKeepsInv(Start(maxsize), actions);
    var s := Run(Start(maxsize), actions);
    Regroup(s.log.handed, Between(s), Records(s.queue));
    Balance(s);
    var front := s.log.handed + Between(s);
    assert s.log.accepted == front + Records(s.queue) && s.log.accepted[|front|..] == Records(s.queue);
    OnlyLastStops(s.queue);
  }

  lemma {:induction false} OnlyLastStops(queue: seq<Entry>)
    requires forall i :: 0 <= i < |queue| && queue[i].Stop? ==> i == |queue| - 1
    ensures |queue| - |Records(queue)| == if queue != [] && queue[|queue| - 1].Stop? then 1 else 0
  {
    if queue != [] {
      var rest := queue[1..];
      assert forall i :: 0 <= i < |rest| ==> rest[i] == queue[i + 1];
      OnlyLastStops(rest);
    }
  }

  // ---- failures and abandonment --------------------------------------------------------

  /** How many deliveries of the run failed. */
  function Failed(maxsize: nat, actions: seq<Action>): nat
    decreases |actions|
  {
    if actions == [] then 0
    else
      var before, last := actions[..|actions| - 1], actions[|actions| - 1];
      Failed(maxsize, before)
      + (if last == WorkerDelivers(false) && Run(Start(maxsize), before).worker.Delivers? then 1 else 0)
  }

  lemma FailureStep(s: State, a: Action)
    ensures Step(s, a).failures == s.failures + if a == WorkerDelivers(false) && s.worker.Delivers? then 1 else 0
  {
  }

  /** Every exception of the target is counted, once. */
  lemma {:induction false} FailuresAreCounted(maxsize: nat, actions: seq<Action>)
    ensures Run(Start(maxsize), actions).failures == Failed(maxsize, actions)
    decreases |actions|
  {
    if actions != [] {
      FailuresAreCounted(maxsize, actions[..|actions| - 1]);
      FailureStep(Run(Start(maxsize), actions[..|actions| - 1]), actions[|actions| - 1]);
    }
  }

  /** How many records the worker may still hand over after it was told to give up. */
  function StillToHand(w: Worker): nat { if w.Gets? || w.Delivers? then 1 else 0 }

  lemma AbandonedStep(s: State, a: Action)
    requires s.abandon
    ensures var s' := Step(s, a);
            s'.abandon && |s'.log.handed| + StillToHand(s'.worker) <= |s.log.handed| + StillToHand(s.worker)
  {
  }

  lemma {:induction false} AbandonedRun(s: State, actions: seq<Action>)
    requires s.abandon
    ensures var s' := Run(s, actions);
            s'.abandon && |s'.log.handed| + StillToHand(s'.worker) <= |s.log.handed| + StillToHand(s.worker)
    decreases |actions|
  {
    if actions != [] {
      AbandonedRun(s, actions[..|actions| - 1]);
      AbandonedStep(Run(s, actions[..|actions| - 1]), actions[|actions| - 1]);
    }
  }

  /**
   After close gave up, whatever happens next, the target is given at most one more record: the one
   the worker has in hand or was about to take.
   */
  lemma GivingUpStopsDelivery(maxsize: nat, before: seq<Action>, a: Action, after: seq<Action>)
    requires GivesUp(a) && Enabled(Run(Start(maxsize), before), a)
    ensures var s := Run(Start(maxsize), before);
            |Run(Step(s, a), after).log.handed| <= |s.log.handed| + StillToHand(s.worker)
  {
    AbandonedRun(Step(Run(Start(maxsize), before), a), after);
  }

  predicate GivesUp(a: Action) { a.StopGivesUp? || a.JoinTimesOut? }

  predicate Patient(s: State) { !s.abandon && (s.closer.Returned? ==> s.worker.Ended?) }

  lemma PatientStep(s: State, a: Action)
    requires Patient(s) && !GivesUp(a)
    ensures Patient(Step(s, a))
  {
  }

  lemma {:induction false} PatientRun(s: State, actions: seq<Action>)
    requires Patient(s) && forall a :: a in actions ==> !GivesUp(a)
    ensures Patient(Run(s, actions))
    decreases |actions|
  {
    if actions != [] {
      var n := |actions| - 1;
      PatientRun(s, actions[..n]);
      PatientStep(Run(s, actions[..n]), actions[n]);
    }
  }

  /**
   What close is for: in every run in which it never gives up waiting, once it has returned the
   target was given exactly the accepted records, in order, and only refused ones were dropped.
   */
  lemma PatientCloseDeliversAll(maxsize: nat, actions: seq<Action>)
    requires maxsize >= 1 && forall a :: a in actions ==> !GivesUp(a)
    requires Run(Start(maxsize), actions).closer.Returned?
    ensures var s := Run(Start(maxsize), actions);
            s.worker.Ended? && s.log.handed == s.log.accepted && s.dropped == s.log.refused
  {
    PatientRun(Start(maxsize), actions);
    RunKeepsInv(Start(maxsize), actions);
    var s := Run(Start(maxsize), actions);
    assert Between(s) == [] && Records(s.queue) == [];
  }

  /** Once the worker has ended, every record ever offered was handed over or counted as dropped. */
  lemma NothingIsLostAtTheEnd(maxsize: nat, actions: seq<Action>)
    requires maxsize >= 1 && Run(Start(maxsize), actions).worker.Ended?
    ensures var s := Run(Start(maxsize), actions);
            |Offers(actions)| == |s.log.handed| + s.dropped && s.queue == []
  {
    RunKeepsInv(Start(maxsize), actions);
    OfferedIsOffers(Start(maxsize), actions);
  }

  // ---------------------------------------------------------------------------
  // Whether the worker stops after close

  /** The worker's next move; a delivery is taken to succeed. */
  function WorkerMove(w: Worker): Action {
    match w
    case Checks => WorkerChecks
    case Gets => WorkerGets
    case Delivers(_) => WorkerDelivers(true)
    case Discards => WorkerDiscards
    case Counts(_) => WorkerCounts
    case Ended => WorkerDiscards
  }

  /** The state after n moves of the worker alone. */
  function Alone(s: State, n: nat): State
    decreases n
  {
    if n == 0 then s else Alone(Step(s, WorkerMove(s.worker)), n - 1)
  }

  lemma {:induction false} AloneLast(s: State, n: nat)
    ensures Alone(s, n + 1) == Step(Alone(s, n), WorkerMove(Alone(s, n).worker))
    decreases n
  {
    if n > 0 { AloneLast(Step(s, WorkerMove(s.worker)), n - 1); }
  }

  /** The closer has left its sign: it waits for the worker, or is done. */
  predicate Told(s: State) { s.closer.Joining? || s.closer.Returned? }

  /** The worker waits for an entry that will never come. */
  predicate Stranded(s: State) { Told(s) && s.worker.Gets? && s.queue == [] }

  /** How many moves the worker has left after it was told to stop. */
  function Left(s: State): nat {
    4 * |s.queue| + match s.worker
                    case Checks => 2 case Gets => 1 case Delivers(_) => 4
                    case Discards => 1 case Counts(_) => 2 case Ended => 0
  }

  lemma AloneStep(s: State)
    requires Control(s) && Told(s) && !Stranded(s) && !s.worker.Ended?
    ensures var s' := Step(s, WorkerMove(s.worker));
            && Control(s') && Told(s') && !Stranded(s')
            && Left(s') < Left(s)
  {
    StepKeepsControl(s, WorkerMove(s.worker));
  }

  lemma {:induction false} AloneEnds(s: State) returns (n: nat)
    requires Control(s) && Told(s) && !Stranded(s)
    ensures Alone(s, n).worker.Ended?
    decreases Left(s)
  {
    if s.worker.Ended? {
      n := 0;
    } else {
      AloneStep(s);
      var next := Step(s, WorkerMove(s.worker));
      var m := AloneEnds(next);
      n := m + 1;
      assert Alone(s, n) == Alone(next, m);
    }
  }

  lemma {:induction false} StrandedStays(s: State, n: nat)
    requires Stranded(s)
    ensures Alone(s, n) == s
  {
    if n > 0 { StrandedStays(s, n - 1); }
  }

  /**
   Once close waits for the worker or has returned, the worker ends by itself if and only if it
   is not stranded; and it can be stranded only when close gave up before the stop marker was
   queued, never while close still waits.
   */
  lemma WorkerEndsIffNotStranded(maxsize: nat, actions: seq<Action>)
    requires maxsize >= 1 && Told(Run(Start(maxsize), actions))
    ensures var s := Run(Start(maxsize), actions);
            && ((exists n: nat :: Alone(s, n).worker.Ended?) <==> !Stranded(s))
            && (Stranded(s) ==> s.closer.Returned? && !s.stopQueued)
  {
    RunKeepsInv(Start(maxsize), actions);
    var s := Run(Start(maxsize), actions);
    if Stranded(s) {
      forall n: nat ensures !Alone(s, n).worker.Ended? { StrandedStays(s, n); }
    } else {
      var n := AloneEnds(s);
    }
  }

  /** The one step that strands the worker: close gives up while the worker waits at an empty queue. */
  lemma StrandedByGivingUp(maxsize: nat, actions: seq<Action>, a: Action)
    requires maxsize >= 1 && !Stranded(Run(Start(maxsize), actions))
    ensures var s := Run(Start(maxsize), actions);
            Stranded(Step(s, a)) <==> a.StopGivesUp? && s.closer.PuttingStop? && s.worker.Gets? && s.queue == []
  {
    RunKeepsInv(Start(maxsize), actions);
  }

  /**
   The documented promise that the thread stops is not always met: a close that gives up at once,
   such as one with no time to wait, strands a worker that was waiting for its first record.
   */
  lemma CloseCanStrandWorker()
    ensures Stranded(Run(Start(1), [WorkerChecks, CloseBegins, StopGivesUp]))
  {
    var a1 := [WorkerChecks];
    var a2 := [WorkerChecks, CloseBegins];
    var a3 := [WorkerChecks, CloseBegins, StopGivesUp];
    assert a1[..0] == [] && a2[..1] == a1 && a3[..2] == a2;
    assert Run(Start(1), a1) == Start(1).(worker := Gets);
  }

  // ---------------------------------------------------------------------------
  // The object of the source

  class Observer {
    const maxsize: nat
    var closed: bool
    var abandon: bool
    var dropped: nat
    var failures: nat
    var queue: seq<Entry>
    var worker: Worker
    var closer: Closer
    ghost var offered: seq<nat>
    ghost var accepted: seq<nat>
    ghost var handed: seq<nat>
    ghost var discarded: seq<nat>
    ghost var refused: nat
    ghost var stopQueued: bool

    ghost function View(): State
      reads this
    {
      State(maxsize, closed, abandon, dropped, failures, queue, worker, closer, stopQueued,
            Log(offered, accepted, handed, discarded, refused))
    }

    constructor (maxsize: nat)
      requires maxsize >= 1
      ensures View() == Start(maxsize) && Inv(View())
    {
      this.maxsize := maxsize;
      closed, abandon, dropped, failures, queue, worker, closer := false, false, 0, 0, [], Checks, Closer.Open;
      offered, accepted, handed, discarded, refused, stopQueued := [], [], [], [], 0, false;
    }

    /** Queues the record, or drops and counts it when the queue is full or closed. */
    method Call(r: nat)
      modifies this
      ensures View() == Next(old(View()), Offer(r))
      ensures !old(closed) && |old(queue)| < maxsize ==> queue == old(queue) + [Record(r)] && dropped == old(dropped)
      ensures old(closed) || |old(queue)| >= maxsize ==> queue == old(queue) && dropped == old(dropped) + 1
    {
      offered := offered + [r];
      if closed {
        dropped := dropped + 1;
        refused := refused + 1;
        return;
      }
      if |queue| < maxsize {
        queue := queue + [Record(r)];
        accepted := accepted + [r];
      } else {
        dropped := dropped + 1;
        refused := refused + 1;
      }
    }

    /** The locked part of close; a second close changes nothing. */
    method BeginClose()
      requires Inv(View())
      modifies this
      ensures View() == Step(old(View()), CloseBegins)
    {
      if closed {
        return;
      }
      closed := true;
      closer := PuttingStop;
    }

    /** One attempt of _put_stop: `waited` says that the deadline has passed. */
    method TryStop(waited: bool) returns (again: bool)
      requires closer.PuttingStop?
      modifies this
      ensures View() == if old(worker).Ended? then Next(old(View()), StopNotNeeded)
                        else if waited then Next(old(View()), StopGivesUp)
                        else Step(old(View()), StopFits)
      ensures again <==> closer.PuttingStop?
    {
      again := false;
      if worker.Ended? {
        closer := Joining;
      } else if waited {
        abandon, closer := true, Returned;
      } else if |queue| < maxsize {
        queue, closer, stopQueued := queue + [Stop], Joining, true;
      } else {
        again := true;
      }
    }

    /** The end of the wait for the thread: one that is still alive is told to give up. */
    method EndJoin()
      requires closer.Joining?
      modifies this
      ensures View() == Next(old(View()), if old(worker).Ended? then JoinReturns else JoinTimesOut)
      ensures closer.Returned? && abandon == (old(abandon) || !old(worker).Ended?) && queue == old(queue)
    {
      if !worker.Ended? {
        abandon := true;
      }
      closer := Returned;
    }

    /** The test at the head of the worker's loop. */
    method CheckAbandon()
      requires worker.Checks?
      modifies this`worker
      ensures View() == Next(old(View()), WorkerChecks)
      ensures worker == if abandon then Discards else Gets
    {
      worker := if abandon then Discards else Gets;
    }

    /** One round of the worker's loop body after the blocking get. */
    method Take()
      requires Enabled(View(), WorkerGets)
      modifies this
      ensures View() == Next(old(View()), WorkerGets)
    {
      var entry := queue[0];
      queue := queue[1..];
      worker := if entry.Stop? then Ended else Delivers(entry.r);
    }

    /** The guarded delivery: a failure of the target is counted and goes no further. */
    method Deliver(ok: bool)
      requires Enabled(View(), WorkerDelivers(ok))
      modifies this
      ensures View() == Next(old(View()), WorkerDelivers(ok))
      ensures handed == old(handed) + [old(worker).r] && failures == old(failures) + (if ok then 0 else 1)
    {
      handed := handed + [worker.r];
      if !ok {
        failures := failures + 1;
      }
      worker := Checks;
    }

    /** get_nowait after abandonment: an empty queue ends the worker, a record has to be counted. */
    method TakeDiscarded()
      requires worker.Discards?
      modifies this`queue, this`worker
      ensures View() == Next(old(View()), WorkerDiscards)
    {
      if queue == [] {
        worker := Ended;
      } else {
        var entry := queue[0];
        queue := queue[1..];
        worker := if entry.Stop? then Discards else Counts(entry.r);
      }
    }

    method CountDropped()
      requires worker.Counts?
      modifies this`dropped, this`discarded, this`worker
      ensures View() == Next(old(View()), WorkerCounts)
    {
      dropped := dropped + 1;
      discarded := discarded + [worker.r];
      worker := Discards;
    }

    /** One round of the discarding loop: the next entry is taken, and counted if it is a record. */
    method DiscardOne(ghost start: State, ghost before: nat) returns (ghost moves: nat)
      requires Ledger(View()) && worker.Discards? && View() == Alone(start, before)
      modifies this`queue, this`dropped, this`discarded, this`worker
      ensures Ledger(View()) && View() == Alone(start, moves)
      ensures if old(queue) == [] then worker.Ended? && queue == [] else worker.Discards? && queue == old(queue)[1..]
    {
      StepMovesOn(View());
      AloneLast(start, before);
      TakeDiscarded();
      moves := before + 1;
      if worker.Counts? {
        StepMovesOn(View());
        AloneLast(start, moves);
        CountDropped();
        moves := moves + 1;
      }
    }

    /**
     The loop that empties the queue after abandonment. By then nobody else adds or takes, so it
     is the worker's own moves to the end: every queued record is counted, none is left, and the
     books balance.
     */
    method DiscardQueued() returns (ghost moves: nat)
      requires Ledger(View()) && worker.Discards?
      modifies this`queue, this`dropped, this`discarded, this`worker
      ensures View() == Alone(old(View()), moves) && worker.Ended? && queue == []
      ensures discarded == old(discarded) + Records(old(queue))
      ensures dropped == old(dropped) + |Records(old(queue))|
      ensures |offered| == |handed| + dropped
    {
      ghost var start := View();
      moves := 0;
      while !worker.Ended?
        invariant Ledger(View()) && View() == Alone(start, moves)
        invariant worker.Discards? || (worker.Ended? && queue == [])
        decreases !worker.Ended?, |queue|
      {
        moves := DiscardOne(start, moves);
      }
      BooksAtTheEnd(start, View());
    }
  }

  /** A move of a discarding worker keeps the ledger. */
  lemma StepMovesOn(s: State)
    requires Ledger(s) && (s.worker.Discards? || s.worker.Counts?)
    ensures Enabled(s, WorkerMove(s.worker)) && Ledger(Next(s, WorkerMove(s.worker)))
  {
    if s.worker.Discards? && s.queue != [] { DiscardKeepsLedger(s); }
  }

  /** What discarding came to, read off the ledgers before and after. */
  lemma BooksAtTheEnd(s: State, s': State)
    requires Ledger(s) && s.worker.Discards? && Ledger(s') && s'.worker.Ended? && s'.queue == []
    requires s'.log == s.log.(discarded := s'.log.discarded)
    ensures s'.log.discarded == s.log.discarded + Records(s.queue)
    ensures s'.dropped == s.dropped + |Records(s.queue)|
    ensures |s'.log.offered| == |s'.log.handed| + s'.dropped
  {
    var all, h := s.log.accepted, s.log.handed;
    Regroup(h, s.log.discarded, Records(s.queue));
    assert all == h + s'.log.discarded + [] == h + s'.log.discarded;
    assert all[|h|..] == s'.log.discarded;
    assert all[|h|..] == s.log.discarded + Records(s.queue);
  }
}
