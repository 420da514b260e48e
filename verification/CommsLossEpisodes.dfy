/**
 Loss-of-communications mode (src/py20305/client/csip_client.py, `_comms_loss_probe`,
 `_enter_comms_loss`, `_recover_from_comms_loss`, `recover_from_comms_loss_now`;
 src/py20305/events/comms_loss.py) with the key lock and the scheduler it belongs to. A
 rediscovery stops the poll tasks, puts a new scheduler with locks of its own in place and
 re-arms the polls, so that a probe and a recovery may overlap. A step is a stretch between
 two awaits, and clocks are arbitrary.
 */
module CommsLossEpisodes {
  import opened Episodes
  import opened Wrappers

  /** A recovery before its rediscovery, in the passes, and after them. */
  datatype Stage = Checking | Passing | Settling

  /** What is done under a "comms_loss" lock; an attempt is `manual` unless a poll task makes it. */
  datatype Work = Entry | Attempt(manual: bool, stage: Stage)

  /** Work in progress, with the number of the scheduler whose lock it holds. */
  datatype Job = Done | Job(lock: nat, work: Work)

  /**
   `scheduler` numbers the schedulers, `armed` says whether the current one's poll tasks run,
   `passing` that the rediscovery lock is taken. `emitted` is the audit trail; `tried` is
   history: whether an attempt began since the mode was last entered.
   */
  datatype State = State(
    active: bool, tried: bool, resumeAfter: Option<int>, lastContact: Option<int>, emitted: seq<Transition>,
    scheduler: nat, armed: bool, passing: bool, jobs: seq<Job>)

  const START := State(false, false, None, None, [], 0, true, false, [])

  /**
   `RecoverNow(lock, lifecycle)` is a manual recovery that gets the lock of the scheduler it
   found; with `lifecycle` it runs under the simulation's lifecycle lock, as the client's own
   call does. `OtherStarts` and `OtherEnds` are rediscoveries for other reasons, made by a poll
   task or not.
   */
  datatype Action =
    | Probe(serverNow: real, localNow: real)
    | RecoverNow(lock: nat, lifecycle: bool)
    | EntryEnds(i: nat)
    | Rediscovers(i: nat)
    | PassesEnd(i: nat, rediscovered: bool)
    | Stops(i: nat)
    | Clears(i: nat, serverNow: real)
    | OtherStarts(poll: bool)
    | OtherEnds(rearmed: bool)
    | OptOut(end: int)
    | Contact(at: int)
    | ForgetContact

  /** Python's int() of a float: toward zero. */
  function Trunc(x: real): int { if x >= 0.0 then x.Floor else -((-x).Floor) }

  /** The boundary once its time has passed is dropped, else kept. */
  function Expired(resumeAfter: Option<int>, serverNow: real): Option<int> {
    if resumeAfter.Some? && Trunc(serverNow) > resumeAfter.value then None else resumeAfter
  }

  predicate IsAttempt(j: Job) { j.Job? && j.work.Attempt? }
  predicate IsManual(j: Job) { IsAttempt(j) && j.work.manual }
  predicate IsProbe(j: Job) { j.Job? && (j.work.Entry? || !j.work.manual) }
  predicate At(j: Job, stage: Stage) { IsAttempt(j) && j.work.stage == stage }

  predicate LockFree(jobs: seq<Job>, lock: nat) {
    forall i :: 0 <= i < |jobs| && jobs[i].Job? ==> jobs[i].lock != lock
  }

  predicate AnyManual(jobs: seq<Job>) { exists i :: 0 <= i < |jobs| && IsManual(jobs[i]) }
  predicate AnyPassing(jobs: seq<Job>) { exists i :: 0 <= i < |jobs| && At(jobs[i], Passing) }

  /** Stopping the poll tasks ends whatever they were doing. */
  function WithoutProbes(jobs: seq<Job>): seq<Job> {
    seq(|jobs|, i requires 0 <= i < |jobs| => if IsProbe(jobs[i]) then Done else jobs[i])
  }

  predicate Enabled(s: State, a: Action) {
    match a
    case Probe(_, _) => s.armed && LockFree(s.jobs, s.scheduler)
    case RecoverNow(lock, lifecycle) =>
      lock <= s.scheduler && LockFree(s.jobs, lock) && (lifecycle ==> !AnyManual(s.jobs))
    case EntryEnds(i) => i < |s.jobs| && s.jobs[i].Job? && s.jobs[i].work.Entry?
    case Rediscovers(i) => i < |s.jobs| && At(s.jobs[i], Checking)
    case PassesEnd(i, _) => i < |s.jobs| && At(s.jobs[i], Passing)
    case Stops(i) => i < |s.jobs| && IsAttempt(s.jobs[i])
    case Clears(i, _) => i < |s.jobs| && At(s.jobs[i], Settling)
    case OtherStarts(poll) => !s.passing && (poll ==> s.armed)
    case OtherEnds(_) => s.passing && !AnyPassing(s.jobs)
    case _ => true
  }

  function Enter(s: State): State {
    s.(active := true, tried := false, emitted := s.emitted + [Entered], jobs := s.jobs + [Job(s.scheduler, Entry)])
  }

  function BeginAttempt(s: State, lock: nat, manual: bool): State {
    s.(tried := true, emitted := s.emitted + [Recovering], jobs := s.jobs + [Job(lock, Attempt(manual, Checking))])
  }

  /** cancel_all as a poll task calls it: the caller is among the tasks cancelled, and nothing comes after. */
  function StopPolls(s: State): State { s.(armed := false, jobs := WithoutProbes(s.jobs)) }

  /** cancel_all as any other task calls it: a new scheduler follows, and the passes go on. */
  function ReplaceScheduler(s: State): State { StopPolls(s).(scheduler := s.scheduler + 1, passing := true) }

  function SetJob(s: State, i: nat, j: Job): State
    requires i < |s.jobs|
  {
    s.(jobs := s.jobs[i := j])
  }

  function AtStage(j: Job, stage: Stage): Job
    requires IsAttempt(j)
  {
    j.(work := j.work.(stage := stage))
  }

  function Next(threshold: int, s: State, a: Action): State
    requires Enabled(s, a)
  {
    match a
    case Probe(serverNow, localNow) =>
      var p := if s.active then s else s.(resumeAfter := Expired(s.resumeAfter, serverNow));
      if p.lastContact.None? then p
      else
        var elapsed := Trunc(localNow - p.lastContact.value as real);
        if !p.active then
          if elapsed >= threshold then Enter(p) else p
        else if elapsed < threshold then BeginAttempt(p, p.scheduler, false) else p
    case RecoverNow(lock, _) => if s.active then BeginAttempt(s, lock, true) else s
    case EntryEnds(i) => SetJob(s, i, Done)
    case Rediscovers(i) =>
      if s.passing then SetJob(s, i, Done)
      else if IsManual(s.jobs[i]) then ReplaceScheduler(SetJob(s, i, AtStage(s.jobs[i], Passing)))
      else StopPolls(s)
    case PassesEnd(i, rediscovered) =>
      SetJob(s, i, if rediscovered then AtStage(s.jobs[i], Settling) else Done).(passing := false, armed := true)
    case Stops(i) => SetJob(s, i, Done).(passing := s.passing && !At(s.jobs[i], Passing))
    case Clears(i, serverNow) =>
      SetJob(s, i, Done).(active := false, resumeAfter := Expired(s.resumeAfter, serverNow),
                          emitted := s.emitted + [Cleared])
    case OtherStarts(poll) => if poll then StopPolls(s) else ReplaceScheduler(s)
    case OtherEnds(rearmed) => s.(passing := false, armed := rearmed)
    case OptOut(end) =>
      var boundary := if s.resumeAfter.Some? then s.resumeAfter.value else 0;
      s.(resumeAfter := Some(if end > boundary then end else boundary))
    case Contact(at) => s.(lastContact := Some(at))
    case ForgetContact => s.(lastContact := None)
  }

  function Step(threshold: int, s: State, a: Action): State {
    if Enabled(s, a) then Next(threshold, s, a) else s
  }

  function Run(threshold: int, s: State, actions: seq<Action>): State
    decreases |actions|
  {
    if actions == [] then s else Step(threshold, Run(threshold, s, actions[..|actions| - 1]), actions[|actions| - 1])
  }

  // ---------------------------------------------------------------------------
  // When the trail stays on the pattern

  /** While on the pattern, the mode and its history say where the trail stands. */
  ghost predicate Consistent(s: State) {
    var p := Scan(s.emitted);
    !p.Off? ==> (s.active <==> !p.Outside?) && (s.active ==> (s.tried <==> p.Attempted?))
  }

  /** A recovery completes when the mode is no longer active, or was entered anew with no attempt since. */
  predicate StaleClear(s: State, a: Action) { a.Clears? && Enabled(s, a) && !(s.active && s.tried) }

  lemma PatternStep(threshold: int, s: State, a: Action)
    requires Consistent(s)
    ensures var s' := Step(threshold, s, a);
            Consistent(s') && (Scan(s'.emitted).Off? <==> Scan(s.emitted).Off? || StaleClear(s, a))
  {
    if a.Probe? {
      PatternProbe(threshold, s, a);
    } else if a.RecoverNow? {
      Extended(s.emitted, Recovering);
    } else if a.Clears? {
      Extended(s.emitted, Cleared);
    } else {
      QuietStep(threshold, s, a);
    }
  }

  lemma PatternProbe(threshold: int, s: State, a: Action)
    requires Consistent(s) && a.Probe?
    ensures var s' := Step(threshold, s, a);
            Consistent(s') && (Scan(s'.emitted).Off? <==> Scan(s.emitted).Off?)
  {
    Extended(s.emitted, Entered);
    Extended(s.emitted, Recovering);
  }

  lemma EnterKeepsPattern(s: State)
    requires Consistent(s) && !s.active
    ensures Consistent(Enter(s)) && (EpisodePrefix(s.emitted) ==> EpisodePrefix(Enter(s).emitted))
  {
    Extended(s.emitted, Entered);
    PrefixIffOnPattern(s.emitted);
    PrefixIffOnPattern(s.emitted + [Entered]);
  }

  lemma AttemptKeepsPattern(s: State, lock: nat, manual: bool)
    requires Consistent(s) && s.active
    ensures var s' := BeginAttempt(s, lock, manual);
            Consistent(s') && (EpisodePrefix(s.emitted) ==> EpisodePrefix(s'.emitted))
  {
    Extended(s.emitted, Recovering);
    PrefixIffOnPattern(s.emitted);
    PrefixIffOnPattern(s.emitted + [Recovering]);
  }

  lemma ClearKeepsPattern(threshold: int, s: State, a: Action)
    requires Consistent(s) && a.Clears? && Enabled(s, a)
    ensures var s' := Next(threshold, s, a);
            Consistent(s') && (EpisodePrefix(s'.emitted) <==> EpisodePrefix(s.emitted) && !StaleClear(s, a))
  {
    PatternStep(threshold, s, a);
    PrefixIffOnPattern(s.emitted);
    PrefixIffOnPattern(s.emitted + [Cleared]);
  }

  /** No other step touches the mode or the trail. */
  lemma QuietStep(threshold: int, s: State, a: Action)
    requires !a.Probe? && !a.RecoverNow? && !a.Clears?
    ensures var s' := Step(threshold, s, a);
            s'.active == s.active && s'.tried == s.tried && s'.emitted == s.emitted
  {
  }

  /** Some step of the run is a stale clearing. */
  ghost predicate ClearsStale(threshold: int, actions: seq<Action>)
    decreases |actions|
  {
    actions != [] &&
    var before := actions[..|actions| - 1];
    ClearsStale(threshold, before) || StaleClear(Run(threshold, START, before), actions[|actions| - 1])
  }

  lemma {:induction false} RunOnPattern(threshold: int, actions: seq<Action>)
    ensures Consistent(Run(threshold, START, actions))
    ensures Scan(Run(threshold, START, actions).emitted).Off? <==> ClearsStale(threshold, actions)
    decreases |actions|
  {
    if actions != [] {
      var n := |actions| - 1;
      RunOnPattern(threshold, actions[..n]);
      PatternStep(threshold, Run(threshold, START, actions[..n]), actions[n]);
    }
  }

  /**
   In every run, however probes, manual recoveries and rediscoveries overlap, the emitted
   transitions are a prefix of episodes (entered, one or more attempts, cleared) if and only if
   no recovery completes after the mode was already cleared, with no attempt begun since the
   mode was entered again.
   */
  lemma PatternIffNoStaleClear(threshold: int, actions: seq<Action>)
    ensures EpisodePrefix(Run(threshold, START, actions).emitted) <==> !ClearsStale(threshold, actions)
  {
    RunOnPattern(threshold, actions);
    PrefixIffOnPattern(Run(threshold, START, actions).emitted);
  }

  // ---- recoveries under the lifecycle lock -------------------------------------------

  /** A recovery begun by the probe never gets past its rediscovery. */
  ghost predicate ProbesCheck(jobs: seq<Job>) {
    forall i :: 0 <= i < |jobs| && IsAttempt(jobs[i]) && !jobs[i].work.manual ==> jobs[i].work.stage.Checking?
  }

  /** What a step may make of a job: nothing new, ended, a manual attempt carried on, or one begun at the end. */
  ghost predicate JobMoves(s: State, a: Action, i: nat, j: Job) {
    || j.Done?
    || (i < |s.jobs| && (j == s.jobs[i] || (IsManual(s.jobs[i]) && IsManual(j))))
    || (i == |s.jobs| && j == Job(s.scheduler, Entry))
    || (i == |s.jobs| && At(j, Checking) && s.active && (IsManual(j) ==> a.RecoverNow?))
  }

  lemma JobStep(threshold: int, s: State, a: Action, i: nat)
    requires ProbesCheck(s.jobs) && i < |Step(threshold, s, a).jobs|
    ensures JobMoves(s, a, i, Step(threshold, s, a).jobs[i])
  {
    if a.Rediscovers? || a.OtherStarts? {
      JobStopStep(threshold, s, a, i);
    }
  }

  lemma JobStopStep(threshold: int, s: State, a: Action, i: nat)
    requires (a.Rediscovers? || a.OtherStarts?) && i < |Step(threshold, s, a).jobs|
    ensures JobMoves(s, a, i, Step(threshold, s, a).jobs[i])
  {
  }

  lemma ProbesCheckStep(threshold: int, s: State, a: Action)
    requires ProbesCheck(s.jobs)
    ensures ProbesCheck(Step(threshold, s, a).jobs)
  {
    var jobs := Step(threshold, s, a).jobs;
    forall i | 0 <= i < |jobs| && IsAttempt(jobs[i]) && !jobs[i].work.manual ensures jobs[i].work.stage.Checking? {
      JobStep(threshold, s, a, i);
    }
  }

  lemma {:induction false} ProbesCheckRun(threshold: int, actions: seq<Action>)
    ensures ProbesCheck(Run(threshold, START, actions).jobs)
    decreases |actions|
  {
    if actions != [] {
      ProbesCheckRun(threshold, actions[..|actions| - 1]);
      ProbesCheckStep(threshold, Run(threshold, START, actions[..|actions| - 1]), actions[|actions| - 1]);
    }
  }

  /** At most one manual recovery is under way, in an episode that has seen its attempt. */
  ghost predicate Serial(s: State) {
    && (forall i, j :: 0 <= i < j < |s.jobs| ==> !(IsManual(s.jobs[i]) && IsManual(s.jobs[j])))
    && (AnyManual(s.jobs) ==> s.active && s.tried)
  }

  predicate UnderLifecycle(a: Action) { a.RecoverNow? ==> a.lifecycle }

  lemma SerialStep(threshold: int, s: State, a: Action)
    requires Serial(s) && ProbesCheck(s.jobs) && UnderLifecycle(a)
    ensures Serial(Step(threshold, s, a)) && !StaleClear(s, a)
  {
    var s' := Step(threshold, s, a);
    assert forall i :: 0 <= i < |s.jobs| && i < |s'.jobs| && IsManual(s'.jobs[i]) ==> IsManual(s.jobs[i]);
    if a.Clears? && Enabled(s, a) {
      assert IsManual(s.jobs[a.i]);
    }
  }

  lemma {:induction false} SerialRun(threshold: int, actions: seq<Action>)
    requires forall a :: a in actions ==> UnderLifecycle(a)
    ensures Serial(Run(threshold, START, actions)) && !ClearsStale(threshold, actions)
    decreases |actions|
  {
    if actions != [] {
      var n := |actions| - 1;
      SerialRun(threshold, actions[..n]);
      ProbesCheckRun(threshold, actions[..n]);
      assert actions[n] in actions;
      SerialStep(threshold, Run(threshold, START, actions[..n]), actions[n]);
    }
  }

  /**
   The client's own manual recoveries run under the lifecycle lock, one at a time. That alone, and
   not the key lock, which a new scheduler does not inherit, keeps the trail on the pattern;
   the mode is then active exactly between an entry and the next clearing.
   */
  lemma EpisodesAreWellFormed(threshold: int, actions: seq<Action>)
    requires forall a :: a in actions ==> UnderLifecycle(a)
    ensures var s := Run(threshold, START, actions);
            EpisodePrefix(s.emitted) && (s.active <==> s.emitted != [] && !s.emitted[|s.emitted| - 1].Cleared?)
  {
    SerialRun(threshold, actions);
    RunOnPattern(threshold, actions);
    OnPatternIsPrefix(Run(threshold, START, actions).emitted);
  }

  lemma RunExtends(threshold: int, actions: seq<Action>, a: Action)
    ensures Run(threshold, START, actions + [a]) == Step(threshold, Run(threshold, START, actions), a)
  {
    assert (actions + [a])[..|actions|] == actions;
  }

  /** The mode entered. */
  lemma FirstEntry() returns (actions: seq<Action>)
    ensures Run(1, START, actions) == State(true, false, None, Some(0), [Entered], 0, true, false, [Done])
  {
    var a1 := [Contact(0)];
    var a2 := a1 + [Probe(0.0, 9.0)];
    actions := a2 + [EntryEnds(0)];
    RunExtends(1, [], Contact(0));
    RunExtends(1, a1, Probe(0.0, 9.0));
    RunExtends(1, a2, EntryEnds(0));
    assert [] + a1 == a1;
    assert Run(1, START, a1) == START.(lastContact := Some(0));
    assert Run(1, START, a2) == Enter(START.(lastContact := Some(0)));
  }

  /** A manual recovery past its rediscovery: the polls run again under a fresh lock. */
  lemma FirstRecovery() returns (actions: seq<Action>)
    ensures Run(1, START, actions)
         == State(true, true, None, Some(0), [Entered, Recovering], 1, true, false,
                  [Done, Job(0, Attempt(true, Settling))])
  {
    var a3 := FirstEntry();
    var a4 := a3 + [RecoverNow(0, false)];
    var a5 := a4 + [Rediscovers(1)];
    actions := a5 + [PassesEnd(1, true)];
    RunExtends(1, a3, RecoverNow(0, false));
    RunExtends(1, a4, Rediscovers(1));
    RunExtends(1, a5, PassesEnd(1, true));
    assert Run(1, START, a4).jobs == [Done, Job(0, Attempt(true, Checking))];
    assert Run(1, START, a5).jobs == [Done, Job(0, Attempt(true, Passing))];
  }

  /**
   The public recovery called twice without the lifecycle lock: the second call finds a free lock
   while the first still waits for its listener, both complete, and the mode is cleared twice.
   */
  lemma OverlappingRecoveriesClearTwice() returns (actions: seq<Action>)
    ensures Run(1, START, actions).emitted == [Entered, Recovering, Recovering, Cleared, Cleared]
    ensures !EpisodePrefix(Run(1, START, actions).emitted)
  {
    var a0 := FirstRecovery();
    var a1 := a0 + [RecoverNow(1, false)];
    var a2 := a1 + [Rediscovers(2)];
    var a3 := a2 + [PassesEnd(2, true)];
    var a4 := a3 + [Clears(1, 0.0)];
    actions := a4 + [Clears(2, 0.0)];
    RunExtends(1, a0, RecoverNow(1, false));
    RunExtends(1, a1, Rediscovers(2));
    RunExtends(1, a2, PassesEnd(2, true));
    RunExtends(1, a3, Clears(1, 0.0));
    RunExtends(1, a4, Clears(2, 0.0));
    var first, second := Job(0, Attempt(true, Settling)), Job(1, Attempt(true, Checking));
    assert Run(1, START, a1).jobs == [Done, first, second];
    assert Run(1, START, a2).jobs == [Done, first, AtStage(second, Passing)];
    assert Run(1, START, a3).jobs == [Done, first, AtStage(second, Settling)];
    assert Run(1, START, a4).jobs == [Done, Done, AtStage(second, Settling)];
    assert StaleClear(Run(1, START, a4), Clears(2, 0.0));
    assert actions[..|actions| - 1] == a4;
    PatternIffNoStaleClear(1, actions);
  }

  // ---------------------------------------------------------------------------
  // The edges of the mode

  /**
   In every run the mode ends only when a manual recovery whose rediscovery completed ends, never
   by a recovery the scheduled probe began, and begins only in a probe after long silence.
   */
  lemma ModeEdges(threshold: int, actions: seq<Action>, a: Action)
    ensures var s := Run(threshold, START, actions);
            var s' := Step(threshold, s, a);
            && (s.active && !s'.active ==> a.Clears? && Enabled(s, a) && IsManual(s.jobs[a.i])
                                           && s'.emitted == s.emitted + [Cleared])
            && (!s.active && s'.active ==> a.Probe? && s.lastContact.Some?
                                           && Trunc(a.localNow - s.lastContact.value as real) >= threshold
                                           && s'.emitted == s.emitted + [Entered])
            && (s'.emitted != s.emitted ==>
                  a.Probe? || a.RecoverNow? || (a.Clears? && Enabled(s, a) && IsManual(s.jobs[a.i])))
  {
    ProbesCheckRun(threshold, actions);
  }

  predicate NothingManual(s: State) { !s.armed && !AnyManual(s.jobs) }

  lemma StuckStep(threshold: int, s: State, a: Action)
    requires NothingManual(s) && !a.RecoverNow? && !a.OtherEnds? && ProbesCheck(s.jobs)
    ensures var s' := Step(threshold, s, a);
            NothingManual(s') && s'.active == s.active && s'.emitted == s.emitted
  {
    var s' := Step(threshold, s, a);
    assert forall i :: 0 <= i < |s.jobs| && i < |s'.jobs| && IsManual(s'.jobs[i]) ==> IsManual(s.jobs[i]);
  }

  lemma {:induction false} StaysStuck(threshold: int, s: State, actions: seq<Action>)
    requires NothingManual(s) && ProbesCheck(s.jobs)
    requires forall a :: a in actions ==> !a.RecoverNow? && !a.OtherEnds?
    ensures var s' := Run(threshold, s, actions);
            NothingManual(s') && ProbesCheck(s'.jobs) && s'.active == s.active && s'.emitted == s.emitted
    decreases |actions|
  {
    if actions != [] {
      var n := |actions| - 1;
      StaysStuck(threshold, s, actions[..n]);
      assert actions[n] in actions;
      StuckStep(threshold, Run(threshold, s, actions[..n]), actions[n]);
      ProbesCheckStep(threshold, Run(threshold, s, actions[..n]), actions[n]);
    }
  }

  /**
   A recovery begun by the scheduled probe runs in a poll task, and its rediscovery, unless it
   coalesces into another, cancels that very task: the polls stop, the probe with them, and
   with no manual recovery under way the client stays in the mode until somebody recovers by
   hand or a rediscovery from elsewhere ends.
   */
  lemma ProbeRecoveryStrands(threshold: int, before: seq<Action>, i: nat, after: seq<Action>)
    requires var s := Run(threshold, START, before);
             i < |s.jobs| && At(s.jobs[i], Checking) && IsProbe(s.jobs[i]) && !s.passing && !AnyManual(s.jobs)
    requires forall a :: a in after ==> !a.RecoverNow? && !a.OtherEnds?
    ensures var s := Run(threshold, START, before);
            var s' := Run(threshold, Step(threshold, s, Rediscovers(i)), after);
            !s'.armed && s'.active == s.active && s'.emitted == s.emitted
  {
    ProbesCheckRun(threshold, before);
    var s := Run(threshold, START, before);
    ProbesCheckStep(threshold, s, Rediscovers(i));
    StaysStuck(threshold, Step(threshold, s, Rediscovers(i)), after);
  }

  /** It happens: the mode entered, contact made again, and the probe's recovery ends with no poll task left. */
  lemma ScheduledRecoveryStopsPolls() returns (actions: seq<Action>)
    ensures Run(1, START, actions)
         == State(true, true, None, Some(9), [Entered, Recovering], 0, false, false, [Done, Done])
  {
    var a0 := FirstEntry();
    var a1 := a0 + [Contact(9)];
    var a2 := a1 + [Probe(0.0, 9.0)];
    actions := a2 + [Rediscovers(1)];
    RunExtends(1, a0, Contact(9));
    RunExtends(1, a1, Probe(0.0, 9.0));
    RunExtends(1, a2, Rediscovers(1));
    assert Run(1, START, a2).jobs == [Done, Job(0, Attempt(false, Checking))];
  }

  // ---------------------------------------------------------------------------
  // The resume boundary

  /** The action carries a server time past b. */
  predicate TellsTimePast(a: Action, b: int) {
    || (a.Probe? && Trunc(a.serverNow) > b)
    || (a.Clears? && Trunc(a.serverNow) > b)
  }

  predicate AtLeast(resumeAfter: Option<int>, b: int) { resumeAfter.Some? && resumeAfter.value >= b }

  /**
   A step gives a boundary up only with the mode inactive and the server's time past it; else it
   can only rise.
   */
  lemma BoundaryStep(threshold: int, s: State, a: Action, b: int)
    requires AtLeast(s.resumeAfter, b)
    ensures var s' := Step(threshold, s, a);
            || AtLeast(s'.resumeAfter, b)
            || (s'.resumeAfter.None? && TellsTimePast(a, b) && (!s'.active || (a.Probe? && !s.active)))
  {
  }

  /**
   Over a whole run: a resume boundary that was once at b or later stays there unless some step of
   the run saw server time past b, and until then no opted-out window is forgotten.
   */
  lemma {:induction false} BoundaryIsKept(threshold: int, s: State, actions: seq<Action>, b: int)
    requires AtLeast(s.resumeAfter, b)
    requires forall a :: a in actions ==> !TellsTimePast(a, b)
    ensures AtLeast(Run(threshold, s, actions).resumeAfter, b)
    decreases |actions|
  {
    if actions != [] {
      var n := |actions| - 1;
      BoundaryIsKept(threshold, s, actions[..n], b);
      assert actions[n] in actions;
      BoundaryStep(threshold, Run(threshold, s, actions[..n]), actions[n], b);
    }
  }

  /** Truncation is toward zero: the whole part, with the sign of the number. */
  lemma TruncIsTowardZero(x: real)
    ensures x >= 0.0 ==> Trunc(x) as real <= x < Trunc(x) as real + 1.0
    ensures x <= 0.0 ==> Trunc(x) as real - 1.0 < x <= Trunc(x) as real
  {
    var f, g := x.Floor, (-x).Floor;
    assert f as real <= x < f as real + 1.0 && g as real <= -x < g as real + 1.0;
  }

  /** The step looks at the boundary, and with this server time: an inactive probe, or the end of a recovery. */
  predicate Judges(s: State, a: Action) {
    Enabled(s, a) && ((a.Probe? && !s.active) || a.Clears?)
  }

  /** A step that judges the boundary drops it exactly when int(server now) is past it, and no other step drops it. */
  lemma BoundaryIsJudged(threshold: int, s: State, a: Action)
    ensures var s' := Step(threshold, s, a);
            && (Judges(s, a) ==>
                  s'.resumeAfter == if s.resumeAfter.Some? && Trunc(a.serverNow) > s.resumeAfter.value then None
                                    else s.resumeAfter)
            && (!Judges(s, a) && !a.OptOut? ==> s'.resumeAfter == s.resumeAfter)
            && (a.OptOut? ==> s'.resumeAfter == Greatest(s.resumeAfter, a.end))
  {
  }

  /** The later of a boundary and a new end; no boundary counts as 0. */
  function Greatest(boundary: Option<int>, end: int): Option<int> {
    var b := if boundary.None? then 0 else boundary.value;
    Some(if end > b then end else b)
  }

  /** The ends opted out since the boundary was last dropped. */
  ghost function EndsPending(threshold: int, actions: seq<Action>): seq<int>
    decreases |actions|
  {
    if actions == [] then []
    else
      var before, last := actions[..|actions| - 1], actions[|actions| - 1];
      var s, ends := Run(threshold, START, before), EndsPending(threshold, before);
      if last.OptOut? then ends + [last.end]
      else if Judges(s, last) && ends != [] && Trunc(last.serverNow) > Latest(ends) then []
      else ends
  }

  function Latest(ends: seq<int>): int {
    if ends == [] then 0
    else
      var before := Latest(ends[..|ends| - 1]);
      if ends[|ends| - 1] > before then ends[|ends| - 1] else before
  }

  lemma {:induction false} LatestIs(ends: seq<int>)
    ensures Latest(ends) >= 0 && (forall e :: e in ends ==> e <= Latest(ends))
    ensures Latest(ends) == 0 || Latest(ends) in ends
  {
    if ends != [] {
      var n := |ends| - 1;
      LatestIs(ends[..n]);
      assert ends == ends[..n] + [ends[n]];
    }
  }

  /**
   The boundary of every run: there is one exactly when ends were opted out since it was last
   dropped, and it is the latest of those ends. It is dropped exactly when a probe in the
   inactive mode, or the end of a recovery, sees int(server now) past it.
   */
  lemma {:induction false} BoundaryIsLatestPending(threshold: int, actions: seq<Action>)
    ensures var ends := EndsPending(threshold, actions);
            Run(threshold, START, actions).resumeAfter == if ends == [] then None else Some(Latest(ends))
    decreases |actions|
  {
    if actions != [] {
      var n := |actions| - 1;
      var ends := EndsPending(threshold, actions[..n]);
      BoundaryIsLatestPending(threshold, actions[..n]);
      BoundaryIsJudged(threshold, Run(threshold, START, actions[..n]), actions[n]);
      if actions[n].OptOut? {
        assert (ends + [actions[n].end])[..|ends|] == ends;
      }
    }
  }

  // ---- what a probe decides --------------------------------------------------------------

  /** The last contact of a run since it was last forgotten. */
  function LastContactOf(actions: seq<Action>): Option<int> {
    if actions == [] then None
    else match actions[|actions| - 1]
         case Contact(at) => Some(at)
         case ForgetContact => None
         case _ => LastContactOf(actions[..|actions| - 1])
  }

  lemma ContactStep(threshold: int, s: State, a: Action)
    ensures Step(threshold, s, a).lastContact
         == if a.Contact? then Some(a.at) else if a.ForgetContact? then None else s.lastContact
  {
  }

  lemma {:induction false} LastContactIs(threshold: int, actions: seq<Action>)
    ensures Run(threshold, START, actions).lastContact == LastContactOf(actions)
    decreases |actions|
  {
    if actions != [] {
      LastContactIs(threshold, actions[..|actions| - 1]);
      ContactStep(threshold, Run(threshold, START, actions[..|actions| - 1]), actions[|actions| - 1]);
    }
  }

  /**
   What a probe that gets its turn decides, in every run, from the last contact alone: without one
   nothing; after silence of the threshold or more the mode is entered unless it is active;
   with fresher contact a recovery begins if it is.
   */
  lemma ProbeDecides(threshold: int, actions: seq<Action>, serverNow: real, localNow: real)
    requires Enabled(Run(threshold, START, actions), Probe(serverNow, localNow))
    ensures var s := Run(threshold, START, actions);
            var s' := Step(threshold, s, Probe(serverNow, localNow));
            var contact := LastContactOf(actions);
            if contact.None? then s'.active == s.active && s'.emitted == s.emitted && s'.jobs == s.jobs
            else
              var silent := Trunc(localNow - contact.value as real) >= threshold;
              && s'.active == (s.active || silent)
              && s'.emitted == s.emitted + (if !s.active && silent then [Entered]
                                            else if s.active && !silent then [Recovering] else [])
              && |s'.jobs| == |s.jobs| + (if s.active == silent then 0 else 1)
  {
    LastContactIs(threshold, actions);
  }

  /** A manual recovery that gets its lock begins exactly in an active mode. */
  lemma ManualDecides(threshold: int, s: State, lock: nat, lifecycle: bool)
    requires Enabled(s, RecoverNow(lock, lifecycle))
    ensures var s' := Step(threshold, s, RecoverNow(lock, lifecycle));
            s'.emitted == s.emitted + (if s.active then [Recovering] else []) && s'.active == s.active
  {
  }

  // ---------------------------------------------------------------------------
  // The client's own fields and operations

  class Detector {
    const threshold: int
    var active: bool
    var resumeAfter: Option<int>
    var lastContact: Option<int>
    var emitted: seq<Transition>
    var scheduler: nat
    var armed: bool
    var passing: bool
    var jobs: seq<Job>
    ghost var tried: bool

    ghost function View(): State
      reads this
    {
      State(active, tried, resumeAfter, lastContact, emitted, scheduler, armed, passing, jobs)
    }

    constructor (threshold: int)
      ensures this.threshold == threshold && View() == START && Consistent(View()) && Serial(View())
    {
      this.threshold := threshold;
      active, tried, resumeAfter, lastContact, emitted := false, false, None, None, [];
      scheduler, armed, passing, jobs := 0, true, false, [];
    }

    method CommsLossProbe(serverNow: real, localNow: real)
      requires Enabled(View(), Probe(serverNow, localNow)) && Consistent(View())
      modifies this
      ensures View() == Next(threshold, old(View()), Probe(serverNow, localNow)) && Consistent(View())
      ensures resumeAfter == if !old(active) && old(resumeAfter).Some? && Trunc(serverNow) > old(resumeAfter).value
                             then None else old(resumeAfter)
    {
      PatternStep(threshold, View(), Probe(serverNow, localNow));
      if !active && resumeAfter.Some? && Trunc(serverNow) > resumeAfter.value {
        resumeAfter := None;
      }
      if lastContact.None? {
        return;
      }
      var elapsed := Trunc(localNow - lastContact.value as real);
      if !active {
        if elapsed >= threshold {
          EnterCommsLoss();
        }
      } else if elapsed < threshold {
        Attempt(scheduler, false);
      }
    }

    /** Entering twice enters once, and the trail does not leave the pattern by it. */
    method EnterCommsLoss()
      requires Consistent(View())
      modifies this
      ensures Consistent(View()) && active
      ensures EpisodePrefix(old(emitted)) ==> EpisodePrefix(emitted)
      ensures View() == if old(active) then old(View()) else Enter(old(View()))
    {
      if active {
        return;
      }
      EnterKeepsPattern(View());
      active, tried := true, false;
      emitted := emitted + [Entered];
      jobs := jobs + [Job(scheduler, Entry)];
    }

    /** An attempt is recorded before it is made, in an active mode only, and keeps the trail on the pattern. */
    method Attempt(lock: nat, manual: bool)
      requires active && Consistent(View())
      modifies this
      ensures View() == BeginAttempt(old(View()), lock, manual) && Consistent(View())
      ensures EpisodePrefix(old(emitted)) ==> EpisodePrefix(emitted)
    {
      AttemptKeepsPattern(View(), lock, manual);
      tried := true;
      emitted := emitted + [Recovering];
      jobs := jobs + [Job(lock, Work.Attempt(manual, Checking))];
    }

    /** recover_from_comms_loss_now once it has the lock: the mode is checked inside it. */
    method RecoverFromCommsLossNow(lock: nat, ghost lifecycle: bool)
      requires Enabled(View(), RecoverNow(lock, lifecycle)) && Consistent(View())
      modifies this
      ensures View() == Next(threshold, old(View()), RecoverNow(lock, lifecycle)) && Consistent(View())
    {
      if active {
        Attempt(lock, true);
      }
    }

    /** cancel_all: every poll task is cancelled, whoever calls. */
    method CancelPolls()
      modifies this`armed, this`jobs
      ensures View() == StopPolls(old(View()))
      ensures !armed && |jobs| == |old(jobs)|
      ensures forall i :: 0 <= i < |jobs| ==> jobs[i] == if IsProbe(old(jobs)[i]) then Done else old(jobs)[i]
    {
      armed := false;
      jobs := WithoutProbes(jobs);
    }

    /** The recovery reaches trigger_rediscovery; a poll task does not come back from cancel_all. */
    method BeginRediscovery(i: nat)
      requires Enabled(View(), Rediscovers(i))
      modifies this
      ensures View() == Next(threshold, old(View()), Rediscovers(i))
      ensures old(passing) ==> armed == old(armed) && scheduler == old(scheduler) && jobs == old(jobs)[i := Done]
      ensures !old(passing) ==> !armed && passing == IsManual(old(jobs)[i])
      ensures !old(passing) ==> scheduler == old(scheduler) + (if IsManual(old(jobs)[i]) then 1 else 0)
    {
      if passing {
        jobs := jobs[i := Done];
        return;
      }
      var manual := IsManual(jobs[i]);
      if manual {
        passing := true;
        jobs := jobs[i := AtStage(jobs[i], Passing)];
      }
      CancelPolls();
      if manual {
        scheduler := scheduler + 1;
      }
    }

    /** The passes are over, well or not; either way the polls are armed. */
    method EndPasses(i: nat, rediscovered: bool)
      requires Enabled(View(), PassesEnd(i, rediscovered))
      modifies this
      ensures View() == Next(threshold, old(View()), PassesEnd(i, rediscovered))
      ensures armed && !passing && (rediscovered <==> IsAttempt(jobs[i]))
    {
      passing, armed := false, true;
      jobs := jobs[i := if rediscovered then AtStage(jobs[i], Settling) else Done];
    }

    /** The rest of a recovery whose rediscovery completed. The mode is not looked at again. */
    method EndRecovery(i: nat, serverNow: real)
      requires Enabled(View(), Clears(i, serverNow)) && Consistent(View())
      modifies this
      ensures View() == Next(threshold, old(View()), Clears(i, serverNow)) && Consistent(View()) && !active
      ensures resumeAfter == if old(resumeAfter).Some? && Trunc(serverNow) > old(resumeAfter).value
                             then None else old(resumeAfter)
      ensures emitted == old(emitted) + [Cleared]
      ensures EpisodePrefix(emitted) <==> EpisodePrefix(old(emitted)) && !StaleClear(old(View()), Clears(i, serverNow))
    {
      ClearKeepsPattern(threshold, View(), Clears(i, serverNow));
      active := false;
      if resumeAfter.Some? && Trunc(serverNow) > resumeAfter.value {
        resumeAfter := None;
      }
      emitted := emitted + [Cleared];
      jobs := jobs[i := Done];
    }
  }
}
