/**
 The server timebase (src/py20305/client/timebase.py): per-scope Time observations (section
 9.2.3 of IEEE 2030.5) that yield to the global one once they are stale. Time is real-valued;
 the monotonic clock never goes back, the wall clock may be stepped at will.
 */
module Timebase {
  import opened Wrappers

  const STALE_FLOOR := 3600.0
  const STALE_POLL_MULTIPLE := 3

  datatype Clock = Clock(wall: real, mono: real)

  datatype Observation = Observation(
    offset: real, receiptEpoch: real, quality: int, href: string, receiptMonotonic: Option<real>)

  function NotNegative(x: real): real { if x < 0.0 then 0.0 else x }

  function Age(clock: Clock, o: Observation): real {
    if o.receiptMonotonic.Some? then NotNegative(clock.mono - o.receiptMonotonic.value)
    else NotNegative(clock.wall - o.receiptEpoch)
  }

  predicate IsNewer(a: Observation, b: Observation) {
    if a.receiptMonotonic.Some? && b.receiptMonotonic.Some? then a.receiptMonotonic.value > b.receiptMonotonic.value
    else a.receiptEpoch > b.receiptEpoch
  }

  /** `reports` is the sequence of stale-fallback warnings issued so far, by scope. */
  datatype State = State(
    staleOverride: Option<real>, staleDerived: real, global: Option<Observation>,
    perFsa: map<string, Observation>, reported: set<string>, clock: Clock, reports: seq<string>)
  {
    function Threshold(): real { if staleOverride.Some? then staleOverride.value else staleDerived }

    predicate Yields(o: Observation) {
      global.Some? && Age(clock, o) > Threshold() && IsNewer(global.value, o)
    }

    /** The scope has an observation of its own that has aged out in favor of the global one. */
    predicate YieldsToGlobal(fsa: string) { fsa in perFsa && Yields(perFsa[fsa]) }

    /** The observation a scope reads. */
    function Resolved(fsa: Option<string>): Option<Observation> {
      if fsa.None? || fsa.value !in perFsa || YieldsToGlobal(fsa.value) then global
      else Some(perFsa[fsa.value])
    }

    /** The stale flag the snapshot reports for each scope. */
    function StaleFlags(): map<string, bool> { map f | f in perFsa :: Yields(perFsa[f]) }
  }

  function Start(staleOverride: Option<real>, clock: Clock): State {
    State(staleOverride, STALE_FLOOR, None, map[], {}, clock, [])
  }

  datatype Action =
    | Tick(wall: real, elapsed: real)
    | Observe(fsa: Option<string>, serverTime: int, quality: int, href: string)
    | Forget(gone: string)
    | NotePollRate(rate: Option<int>)
    | Read(scope: Option<string>)

  function Observed(clock: Clock, serverTime: int, quality: int, href: string): Observation {
    Observation(serverTime as real - clock.wall, clock.wall, quality, href, Some(clock.mono))
  }

  function Step(s: State, a: Action): State {
    match a
    case Tick(wall, elapsed) => s.(clock := Clock(wall, s.clock.mono + NotNegative(elapsed)))
    case Observe(None, t, q, h) => s.(global := Some(Observed(s.clock, t, q, h)))
    case Observe(Some(f), t, q, h) =>
      s.(perFsa := s.perFsa[f := Observed(s.clock, t, q, h)], reported := s.reported - {f})
    case Forget(f) => s.(perFsa := s.perFsa - {f}, reported := s.reported - {f})
    case NotePollRate(rate) =>
      if rate.Some? && rate.value > 0 then
        var polls := (STALE_POLL_MULTIPLE * rate.value) as real;
        s.(staleDerived := if polls > STALE_FLOOR then polls else STALE_FLOOR)
      else s
    case Read(f) =>
      if f.Some? && s.YieldsToGlobal(f.value) && f.value !in s.reported
      then s.(reported := s.reported + {f.value}, reports := s.reports + [f.value])
      else s
  }

  function Run(s: State, actions: seq<Action>): State
    decreases |actions|
  {
    if actions == [] then s else Step(Run(s, actions[..|actions| - 1]), actions[|actions| - 1])
  }

  // ---------------------------------------------------------------------------

  predicate Stamped(o: Observation, clock: Clock) { o.receiptMonotonic.Some? && o.receiptMonotonic.value <= clock.mono }

  /** Observations made by the timebase carry a monotonic stamp that is not in the future. */
  ghost predicate Inv(s: State) {
    && (s.global.Some? ==> Stamped(s.global.value, s.clock))
    && (forall f :: f in s.perFsa ==> Stamped(s.perFsa[f], s.clock))
    && s.staleDerived >= STALE_FLOOR
  }

  lemma {:induction false} RunKeepsInv(s: State, actions: seq<Action>)
    requires Inv(s)
    ensures Inv(Run(s, actions))
    decreases |actions|
  {
    if actions != [] { RunKeepsInv(s, actions[..|actions| - 1]); }
  }

  /** The action renews or removes scope f. */
  predicate Renews(a: Action, f: string) {
    (a.Observe? && a.fsa == Some(f)) || (a.Forget? && a.gone == f)
  }

  /** The last positive poll rate a run was told. */
  function LastRate(actions: seq<Action>): Option<int> {
    if actions == [] then None
    else match actions[|actions| - 1]
         case NotePollRate(Some(rate)) => if rate > 0 then Some(rate) else LastRate(actions[..|actions| - 1])
         case _ => LastRate(actions[..|actions| - 1])
  }

  /** The staleness threshold of a poll rate: three polls, but never less than an hour. */
  function RateThreshold(rate: Option<int>): real {
    if rate.Some? && (3 * rate.value) as real > 3600.0 then (3 * rate.value) as real else 3600.0
  }

  /**
   After every run from the start the threshold is the operator's value if there is one, and
   otherwise max(3600, 3 x the last positive poll rate), whatever came before or between.
   */
  lemma {:induction false} ThresholdFollowsLastRate(staleOverride: Option<real>, clock: Clock, actions: seq<Action>)
    ensures var s := Run(Start(staleOverride, clock), actions);
            && s.staleOverride == staleOverride && s.staleDerived == RateThreshold(LastRate(actions))
            && s.Threshold() == if staleOverride.Some? then staleOverride.value else RateThreshold(LastRate(actions))
    decreases |actions|
  {
    if actions != [] {
      ThresholdFollowsLastRate(staleOverride, clock, actions[..|actions| - 1]);
    }
  }

  /** In every run age is elapsed monotonic time, and a scope no older than the threshold reads its own observation. */
  lemma FreshScopeReadsItself(s: State, actions: seq<Action>, f: string)
    requires Inv(s) && f in Run(s, actions).perFsa
    ensures var s' := Run(s, actions);
            var o := s'.perFsa[f];
            && o.receiptMonotonic.Some? && Age(s'.clock, o) == s'.clock.mono - o.receiptMonotonic.value
            && (Age(s'.clock, o) <= s'.Threshold() ==> s'.Resolved(Some(f)) == Some(o))
  {
    RunKeepsInv(s, actions);
  }

  /** The scope has an observation of its own and the global one is newer. */
  predicate Outdated(s: State, f: string) {
    f in s.perFsa && s.global.Some? && IsNewer(s.global.value, s.perFsa[f])
  }

  lemma OutdatedStep(s: State, a: Action, f: string)
    requires Inv(s) && Outdated(s, f) && !Renews(a, f)
    ensures var s' := Step(s, a);
            Outdated(s', f) && s'.perFsa[f] == s.perFsa[f] && s'.clock.mono >= s.clock.mono
  {
  }

  lemma {:induction false} OutdatedLasts(s: State, actions: seq<Action>, f: string)
    requires Inv(s) && Outdated(s, f) && forall a :: a in actions ==> !Renews(a, f)
    ensures var s' := Run(s, actions);
            Outdated(s', f) && s'.perFsa[f] == s.perFsa[f] && s'.clock.mono >= s.clock.mono
    decreases |actions|
  {
    if actions != [] {
      var n := |actions| - 1;
      OutdatedLasts(s, actions[..n], f);
      RunKeepsInv(s, actions[..n]);
      assert actions[n] in actions;
      OutdatedStep(Run(s, actions[..n]), actions[n], f);
    }
  }

  /** The poll rate would lift the threshold above what it is in s. */
  predicate Raises(s: State, a: Action) {
    && a.NotePollRate? && a.rate.Some? && a.rate.value > 0
    && s.staleOverride.None? && (STALE_POLL_MULTIPLE * a.rate.value) as real > s.staleDerived
  }

  lemma {:induction false} ThresholdNotRaised(s: State, actions: seq<Action>)
    requires Inv(s) && forall a :: a in actions ==> !Raises(s, a)
    ensures Run(s, actions).Threshold() <= s.Threshold()
    ensures Run(s, actions).staleOverride == s.staleOverride
    decreases |actions|
  {
    if actions != [] {
      var n := |actions| - 1;
      ThresholdNotRaised(s, actions[..n]);
      assert actions[n] in actions;
    }
  }

  /**
   A scope that yields to the global one keeps yielding until it is observed again or forgotten,
   exactly as long as its age exceeds the threshold then in force; and only a poll rate that
   lifts the threshold can undo that.
   */
  lemma YieldingLasts(s: State, actions: seq<Action>, f: string)
    requires Inv(s) && s.YieldsToGlobal(f) && forall a :: a in actions ==> !Renews(a, f)
    ensures var s' := Run(s, actions);
            && f in s'.perFsa && (s'.YieldsToGlobal(f) <==> Age(s'.clock, s'.perFsa[f]) > s'.Threshold())
            && ((forall a :: a in actions ==> !Raises(s, a))
                ==> s'.YieldsToGlobal(f) && s'.Resolved(Some(f)) == s'.global)
  {
    OutdatedLasts(s, actions, f);
    if forall a :: a in actions ==> !Raises(s, a) {
      ThresholdNotRaised(s, actions);
    }
  }

  function Count(reports: seq<string>, f: string): nat {
    if reports == [] then 0 else Count(reports[..|reports| - 1], f) + (if reports[|reports| - 1] == f then 1 else 0)
  }

  lemma Counted(reports: seq<string>, f: string, x: string)
    ensures Count(reports + [x], f) == Count(reports, f) + (if x == f then 1 else 0)
  {
    assert (reports + [x])[..|reports|] == reports;
  }

  /** Some read of the run found the scope yielding. */
  ghost predicate FellBack(s: State, actions: seq<Action>, f: string)
    decreases |actions|
  {
    actions != [] &&
    (|| FellBack(s, actions[..|actions| - 1], f)
     || (actions[|actions| - 1] == Read(Some(f)) && Run(s, actions[..|actions| - 1]).YieldsToGlobal(f)))
  }

  /** Read k of the run was of the scope and found it yielding. */
  ghost predicate FellBackAt(s: State, actions: seq<Action>, f: string, k: nat) {
    k < |actions| && actions[k] == Read(Some(f)) && Run(s, actions[..k]).YieldsToGlobal(f)
  }

  lemma FellBackAtLast(s: State, actions: seq<Action>, a: Action, f: string, k: nat)
    ensures k < |actions| ==> (FellBackAt(s, actions + [a], f, k) <==> FellBackAt(s, actions, f, k))
    ensures FellBackAt(s, actions + [a], f, |actions|) <==> a == Read(Some(f)) && Run(s, actions).YieldsToGlobal(f)
  {
    var all := actions + [a];
    assert all[..|actions|] == actions;
    if k < |actions| { assert all[..k] == actions[..k] && all[k] == actions[k]; }
  }

  lemma {:induction false} FellBackMeansARead(s: State, actions: seq<Action>, f: string)
    ensures FellBack(s, actions, f) <==> exists k: nat :: FellBackAt(s, actions, f, k)
    decreases |actions|
  {
    if actions != [] {
      var before, a := actions[..|actions| - 1], actions[|actions| - 1];
      assert actions == before + [a];
      FellBackMeansARead(s, before, f);
      if FellBack(s, before, f) {
        var k: nat :| FellBackAt(s, before, f, k);
        FellBackAtLast(s, before, a, f, k);
        assert FellBackAt(s, actions, f, k);
      }
      if k: nat :| FellBackAt(s, actions, f, k) {
        FellBackAtLast(s, before, a, f, k);
      }
      FellBackAtLast(s, before, a, f, 0);
    }
  }

  lemma ReportedStep(s: State, a: Action, f: string)
    requires !Renews(a, f)
    ensures var s', warns := Step(s, a), a == Read(Some(f)) && s.YieldsToGlobal(f);
            && (f in s'.reported <==> f in s.reported || warns)
            && Count(s'.reports, f) == Count(s.reports, f) + if warns && f !in s.reported then 1 else 0
  {
    if a.Read? && a.scope.Some? {
      Counted(s.reports, f, a.scope.value);
    }
  }

  /**
   Between two renewals of a scope there is one stale warning for it if some read found it
   yielding and none stood before, and otherwise there is none, whatever else happens.
   */
  lemma {:induction false} OneReportPerEpisode(s: State, actions: seq<Action>, f: string)
    requires forall a :: a in actions ==> !Renews(a, f)
    ensures var s' := Run(s, actions);
            && (f in s'.reported <==> f in s.reported || FellBack(s, actions, f))
            && Count(s'.reports, f)
               == Count(s.reports, f) + if f !in s.reported && FellBack(s, actions, f) then 1 else 0
    decreases |actions|
  {
    if actions != [] {
      var n := |actions| - 1;
      OneReportPerEpisode(s, actions[..n], f);
      assert actions[n] in actions;
      ReportedStep(Run(s, actions[..n]), actions[n], f);
    }
  }

  /** What the snapshot says of a scope is what resolution does with it. */
  lemma SnapshotAgrees(s: State, f: string)
    requires f in s.perFsa
    ensures s.Resolved(Some(f)) == if s.StaleFlags()[f] then s.global else Some(s.perFsa[f])
    ensures s.StaleFlags()[f] <==> s.YieldsToGlobal(f)
  {
  }

  // ---------------------------------------------------------------------------
  // What a read gives, from the events alone

  /** A Time resource as it was received: what the server said, and when by the local clocks. */
  datatype Receipt = Receipt(serverTime: int, quality: int, href: string, at: Clock)

  function ClockAfter(clock: Clock, actions: seq<Action>): Clock {
    if actions == [] then clock
    else
      var before := ClockAfter(clock, actions[..|actions| - 1]);
      match actions[|actions| - 1]
      case Tick(wall, elapsed) => Clock(wall, if elapsed > 0.0 then before.mono + elapsed else before.mono)
      case _ => before
  }

  /** The last Time received for a scope (None is the global one) since it was last forgotten. */
  function LastReceipt(clock: Clock, actions: seq<Action>, scope: Option<string>): Option<Receipt> {
    if actions == [] then None
    else
      var before, last := actions[..|actions| - 1], actions[|actions| - 1];
      if last.Observe? && last.fsa == scope
      then Some(Receipt(last.serverTime, last.quality, last.href, ClockAfter(clock, before)))
      else if last.Forget? && Some(last.gone) == scope then None
      else LastReceipt(clock, before, scope)
  }

  predicate Matches(o: Option<Observation>, r: Option<Receipt>) {
    && (o.Some? <==> r.Some?)
    && (o.Some? ==> o.value == Observation(r.value.serverTime as real - r.value.at.wall, r.value.at.wall,
                                           r.value.quality, r.value.href, Some(r.value.at.mono)))
  }

  /** The observation the scope holds of its own. */
  function Held(s: State, scope: Option<string>): Option<Observation> {
    if scope.None? then s.global else if scope.value in s.perFsa then Some(s.perFsa[scope.value]) else None
  }

  lemma {:induction false} HeldIsLastReceipt(o: Option<real>, clock: Clock, actions: seq<Action>, scope: Option<string>)
    ensures var s := Run(Start(o, clock), actions);
            s.clock == ClockAfter(clock, actions) && Matches(Held(s, scope), LastReceipt(clock, actions, scope))
    decreases |actions|
  {
    if actions != [] {
      HeldIsLastReceipt(o, clock, actions[..|actions| - 1], scope);
    }
  }

  /**
   The one of two receipts that is read: the scope's own, unless there is none, or it is older than
   the threshold and the global one was received after it.
   */
  function Chosen(own: Option<Receipt>, global: Option<Receipt>, now: Clock, threshold: real): Option<Receipt> {
    if own.None? then global
    else if global.Some? && Outlived(own.value, global.value, now, threshold) then global
    else own
  }

  /** The first receipt is older than the threshold, and the second came after it. */
  predicate Outlived(own: Receipt, global: Receipt, now: Clock, threshold: real) {
    now.mono - own.at.mono > threshold && global.at.mono > own.at.mono
  }

  /** What a read of the scope goes by, after a run from the start. */
  function ReadsBy(o: Option<real>, clock: Clock, actions: seq<Action>, fsa: Option<string>): Option<Receipt> {
    Chosen(if fsa.Some? then LastReceipt(clock, actions, fsa) else None, LastReceipt(clock, actions, None),
           ClockAfter(clock, actions), if o.Some? then o.value else RateThreshold(LastRate(actions)))
  }

  /**
   Which observation is read, in every run: an unscoped read and a read of a scope that has received
   no Time since it was forgotten go by the last global receipt; any other scope by its own,
   unless that is older than the threshold and the global one newer.
   */
  lemma ReadGoesBy(o: Option<real>, clock: Clock, actions: seq<Action>, fsa: Option<string>)
    ensures Matches(Run(Start(o, clock), actions).Resolved(fsa), ReadsBy(o, clock, actions, fsa))
  {
    RunKeepsInv(Start(o, clock), actions);
    ThresholdFollowsLastRate(o, clock, actions);
    HeldIsLastReceipt(o, clock, actions, None);
    HeldIsLastReceipt(o, clock, actions, fsa);
  }

  /** The snapshot calls a scope stale exactly when its own receipt has been outlived by the global one. */
  lemma StaleExactly(o: Option<real>, clock: Clock, actions: seq<Action>, f: string)
    ensures var s := Run(Start(o, clock), actions);
            var own, global := LastReceipt(clock, actions, Some(f)), LastReceipt(clock, actions, None);
            var now := ClockAfter(clock, actions);
            && (f in s.StaleFlags() <==> own.Some?)
            && (own.Some? ==>
                  (s.StaleFlags()[f] <==> global.Some? && Outlived(own.value, global.value, now, s.Threshold())))
  {
    RunKeepsInv(Start(o, clock), actions);
    HeldIsLastReceipt(o, clock, actions, None);
    HeldIsLastReceipt(o, clock, actions, Some(f));
  }

  /** Server-adjusted time as the timebase computes it. */
  function TimeRead(s: State, enabled: bool, fsa: Option<string>): real {
    s.clock.wall + (if !enabled || s.Resolved(fsa).None? then 0.0 else s.Resolved(fsa).value.offset)
  }

  /** The time read is the server's time at the receipt gone by plus the local time since; local time without one. */
  lemma TimeReadIsServerTime(o: Option<real>, clock: Clock, actions: seq<Action>, enabled: bool, fsa: Option<string>)
    ensures var now, read := ClockAfter(clock, actions), ReadsBy(o, clock, actions, fsa);
            TimeRead(Run(Start(o, clock), actions), enabled, fsa)
            == if !enabled || read.None? then now.wall
               else read.value.serverTime as real + (now.wall - read.value.at.wall)
  {
    ReadGoesBy(o, clock, actions, fsa);
    HeldIsLastReceipt(o, clock, actions, None);
  }

  // ---------------------------------------------------------------------------
  // Independence of the wall clock

  /** Two observations taken at the same monotonic instant. */
  predicate SameInstant(a: Observation, b: Observation) {
    a.receiptMonotonic.Some? && a.receiptMonotonic == b.receiptMonotonic
  }

  /** The states differ in nothing but wall-clock readings and the offsets derived from them. */
  ghost predicate SameButWall(s: State, t: State) {
    && s.staleOverride == t.staleOverride && s.staleDerived == t.staleDerived
    && s.global.Some? == t.global.Some? && (s.global.Some? ==> SameInstant(s.global.value, t.global.value))
    && s.perFsa.Keys == t.perFsa.Keys && (forall f :: f in s.perFsa ==> SameInstant(s.perFsa[f], t.perFsa[f]))
    && s.reported == t.reported && s.reports == t.reports && s.clock.mono == t.clock.mono
  }

  /** The same action under another wall clock. */
  predicate SameButWallAction(a: Action, b: Action) {
    match (a, b)
    case (Tick(_, x), Tick(_, y)) => x == y
    case (Observe(f, _, _, _), Observe(g, _, _, _)) => f == g
    case _ => a == b
  }

  lemma WallStep(s: State, t: State, a: Action, b: Action)
    requires SameButWall(s, t) && SameButWallAction(a, b)
    ensures SameButWall(Step(s, a), Step(t, b))
  {
    if a.Read? && a.scope.Some? && a.scope.value in s.perFsa {
      assert SameInstant(s.perFsa[a.scope.value], t.perFsa[a.scope.value]);
      assert s.YieldsToGlobal(a.scope.value) == t.YieldsToGlobal(a.scope.value);
    }
  }

  /**
   Stepping the wall clock never changes which scope is read or which warnings are issued: two
   runs with the same events and the same monotonic time, under any two wall clocks, agree.
   */
  lemma {:induction false} WallClockIsIrrelevant(s: State, t: State, one: seq<Action>, two: seq<Action>, f: string)
    requires SameButWall(s, t) && |one| == |two| && forall i :: 0 <= i < |one| ==> SameButWallAction(one[i], two[i])
    ensures SameButWall(Run(s, one), Run(t, two))
    ensures Run(s, one).YieldsToGlobal(f) == Run(t, two).YieldsToGlobal(f)
    decreases |one|
  {
    if one != [] {
      var n := |one| - 1;
      WallClockIsIrrelevant(s, t, one[..n], two[..n], f);
      WallStep(Run(s, one[..n]), Run(t, two[..n]), one[n], two[n]);
    }
    var s', t' := Run(s, one), Run(t, two);
    if f in s'.perFsa {
      assert SameInstant(s'.perFsa[f], t'.perFsa[f]);
    }
  }

  // ---------------------------------------------------------------------------
  // The object of the source

  class ServerTimebase {
    const enabled: bool
    const staleOverride: Option<real>
    var staleDerived: real
    var global: Option<Observation>
    var perFsa: map<string, Observation>
    var reported: set<string>
    ghost var reports: seq<string>

    ghost function View(clock: Clock): State
      reads this
    {
      State(staleOverride, staleDerived, global, perFsa, reported, clock, reports)
    }

    constructor (enabled: bool, staleOverride: Option<real>, ghost clock: Clock)
      ensures View(clock) == Start(staleOverride, clock) && this.enabled == enabled
    {
      this.enabled, this.staleOverride := enabled, staleOverride;
      staleDerived, global, perFsa, reported, reports := STALE_FLOOR, None, map[], {}, [];
    }

    method Record(serverTime: int, fsa: Option<string>, quality: int, href: string, clock: Clock) returns (offset: real)
      modifies this
      ensures offset == serverTime as real - clock.wall
      ensures View(clock) == Step(old(View(clock)), Observe(fsa, serverTime, quality, href))
    {
      var o := Observed(clock, serverTime, quality, href);
      if fsa.None? {
        global := Some(o);
      } else {
        perFsa := perFsa[fsa.value := o];
        reported := reported - {fsa.value};
      }
      offset := o.offset;
    }

    method ForgetFsa(fsa: string, ghost clock: Clock)
      modifies this
      ensures View(clock) == Step(old(View(clock)), Forget(fsa))
    {
      perFsa := perFsa - {fsa};
      reported := reported - {fsa};
    }

    method NoteTimePollRate(rate: Option<int>, ghost clock: Clock)
      modifies this
      ensures View(clock) == Step(old(View(clock)), NotePollRate(rate))
    {
      if rate.Some? && rate.value > 0 {
        var polls := (STALE_POLL_MULTIPLE * rate.value) as real;
        staleDerived := if polls > STALE_FLOOR then polls else STALE_FLOOR;
      }
    }

    predicate Yields(o: Observation, clock: Clock)
      reads this
      ensures Yields(o, clock) == View(clock).Yields(o)
    {
      var threshold := if staleOverride.Some? then staleOverride.value else staleDerived;
      global.Some? && Age(clock, o) > threshold && IsNewer(global.value, o)
    }

    method Resolve(fsa: Option<string>, clock: Clock) returns (o: Option<Observation>)
      modifies this
      ensures o == old(View(clock)).Resolved(fsa)
      ensures View(clock) == Step(old(View(clock)), Read(fsa))
    {
      if fsa.None? || fsa.value !in perFsa {
        return global;
      }
      var scoped := perFsa[fsa.value];
      if !Yields(scoped, clock) {
        return Some(scoped);
      }
      if fsa.value !in reported {
        reported := reported + {fsa.value};
        reports := reports + [fsa.value];
      }
      return global;
    }

    /** Server-adjusted time; the local clock when disabled or when nothing was ever observed. */
    method Now(fsa: Option<string>, clock: Clock) returns (now: real)
      modifies this
      ensures now == TimeRead(old(View(clock)), enabled, fsa)
      ensures View(clock) == if enabled then Step(old(View(clock)), Read(fsa)) else old(View(clock))
    {
      if !enabled {
        return clock.wall;
      }
      var o := Resolve(fsa, clock);
      now := clock.wall + (if o.Some? then o.value.offset else 0.0);
    }
  }
}
