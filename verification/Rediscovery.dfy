/**
 `CsipClient.trigger_rediscovery` (src/py20305/client/csip_client.py): one call runs passes
 under a lock, and calls that arrive meanwhile only set a pending flag. Each wait inside a
 pass lets any number of such calls in, and each of the two stages of a pass may fail; both
 are given by an arbitrary script. What happens is recorded as a trace of events. The first
 stage of a pass cancels every poll task, so a call that one of them makes ends there.
 */
module Rediscovery {

  /** How many calls arrive during each wait of a pass, and which stages succeed. */
  datatype Pass = Pass(
    whileStopping: nat, whileDiscovering: nat, discovered: bool, whileRefreshing: nat, refreshed: bool)
  {
    predicate Succeeds() { discovered && refreshed }

    /** The calls that arrive in all; a pass whose discovery fails never comes to the refresh. */
    function Arrivals(): nat {
      whileStopping + whileDiscovering + (if discovered then whileRefreshing else 0)
    }

    /** Another pass is wanted after this one. */
    predicate Repeats() { Succeeds() && Arrivals() > 0 }
  }

  datatype Event =
    | PassStarts
    | Request          // a call coalesced into the running one
    | PollsStopped
    | StateCleared
    | StateReady
    | PollsArmed
    | PassCompletes
    | PassFails
    | CapReached

  const MAX_PASSES := 5

  /** What would happen in each of the passes a call may come to make. */
  type Script = s: seq<Pass> | |s| == MAX_PASSES witness seq(MAX_PASSES, _ => Pass(0, 0, true, 0, true))

  // ---------------------------------------------------------------------------
  // Traces

  function Requests(n: nat): seq<Event> {
    if n == 0 then [] else Requests(n - 1) + [Request]
  }

  /** The poll tasks are stopped. A call made by one of them ends here, cancelled while it waits for them. */
  function CutTrace(p: Pass): seq<Event> { [PassStarts, PollsStopped] + Requests(p.whileStopping) }

  /** The state is cleared and rebuilt. */
  function DiscoverTrace(p: Pass): seq<Event> { [StateCleared] + Requests(p.whileDiscovering) + [StateReady] }

  /** The rest of a pass, on the successful path or in the handler of a failure. */
  function RefreshTrace(p: Pass): seq<Event> {
    (if p.discovered then Requests(p.whileRefreshing) else [])
    + [PollsArmed, if p.Succeeds() then PassCompletes else PassFails]
  }

  function PassTrace(p: Pass): seq<Event> { CutTrace(p) + DiscoverTrace(p) + RefreshTrace(p) }

  /** The first n passes. */
  function PassTraces(script: Script, n: nat): seq<Event>
    requires n <= |script|
  {
    if n == 0 then [] else PassTraces(script, n - 1) + PassTrace(script[n - 1])
  }

  ghost predicate AllRepeat(script: Script, n: nat)
    requires n <= |script|
  {
    forall k: nat :: k < n ==> script[k].Repeats()
  }

  /**
   A call makes n passes: it goes on exactly while the last pass succeeded and calls arrived
   during it, up to the cap.
   */
  ghost predicate Makes(script: Script, n: nat) {
    && 1 <= n <= MAX_PASSES
    && AllRepeat(script, n - 1)
    && (n < MAX_PASSES ==> !script[n - 1].Repeats())
  }

  /** What happens during a call that makes n passes. */
  function Trace(script: Script, n: nat): seq<Event>
    requires 0 < n <= |script|
  {
    PassTraces(script, n) + (if script[n - 1].Repeats() then [CapReached] else [])
  }

  /** What happens during a call, made by a poll task or not. */
  function CallTrace(byPoll: bool, script: Script, n: nat): seq<Event>
    requires 0 < n <= |script|
  {
    if byPoll then CutTrace(script[0]) else Trace(script, n)
  }

  /** The calls that arrive during the first n passes. */
  function ArrivalsIn(script: Script, n: nat): nat
    requires n <= |script|
  {
    if n == 0 then 0 else ArrivalsIn(script, n - 1) + script[n - 1].Arrivals()
  }

  // ---------------------------------------------------------------------------
  // How often an event occurs

  function Count(t: seq<Event>, e: Event): nat {
    if t == [] then 0 else Count(t[..|t| - 1], e) + (if t[|t| - 1] == e then 1 else 0)
  }

  lemma {:induction false} CountConcat(a: seq<Event>, b: seq<Event>, e: Event)
    ensures Count(a + b, e) == Count(a, e) + Count(b, e)
    decreases |b|
  {
    if b == [] {
      assert a + b == a;
    } else {
      assert (a + b)[..|a + b| - 1] == a + b[..|b| - 1];
      CountConcat(a, b[..|b| - 1], e);
    }
  }

  lemma {:induction false} CountRequests(n: nat, e: Event)
    ensures Count(Requests(n), e) == if e.Request? then n else 0
  {
    if n > 0 { CountRequests(n - 1, e); }
  }

  lemma CountTwo(x: Event, y: Event, e: Event)
    ensures Count([x, y], e) == (if x == e then 1 else 0) + (if y == e then 1 else 0)
    ensures Count([x], e) == if x == e then 1 else 0
  {
    var one, two := [x], [x, y];
    assert one[..0] == [] && two[..1] == one;
    assert Count(two, e) == Count(two[..1], e) + (if y == e then 1 else 0);
  }

  lemma CountCut(p: Pass, e: Event)
    ensures Count(CutTrace(p), e) ==
            match e case Request => p.whileStopping case PassStarts => 1 case PollsStopped => 1 case _ => 0
  {
    CountConcat([PassStarts, PollsStopped], Requests(p.whileStopping), e);
    CountTwo(PassStarts, PollsStopped, e);
    CountRequests(p.whileStopping, e);
  }

  lemma CountDiscover(p: Pass, e: Event)
    ensures Count(DiscoverTrace(p), e) ==
            match e case Request => p.whileDiscovering case StateCleared => 1 case StateReady => 1 case _ => 0
  {
    var asked := Requests(p.whileDiscovering);
    CountConcat([StateCleared] + asked, [StateReady], e);
    CountConcat([StateCleared], asked, e);
    CountRequests(p.whileDiscovering, e);
    CountTwo(StateCleared, StateCleared, e);
    CountTwo(StateReady, StateReady, e);
  }

  lemma CountRefresh(p: Pass, e: Event)
    ensures Count(RefreshTrace(p), e) ==
            match e
            case Request => if p.discovered then p.whileRefreshing else 0
            case PollsArmed => 1
            case PassCompletes => if p.Succeeds() then 1 else 0
            case PassFails => if p.Succeeds() then 0 else 1
            case _ => 0
  {
    var asked := if p.discovered then Requests(p.whileRefreshing) else [];
    var end := if p.Succeeds() then PassCompletes else PassFails;
    CountConcat(asked, [PollsArmed, end], e);
    CountRequests(p.whileRefreshing, e);
    CountTwo(PollsArmed, end, e);
  }

  /** How often an event occurs in a pass. */
  function PassCount(p: Pass, e: Event): nat {
    match e
    case Request => p.Arrivals()
    case PassCompletes => if p.Succeeds() then 1 else 0
    case PassFails => if p.Succeeds() then 0 else 1
    case CapReached => 0
    case _ => 1
  }

  /** A pass holds each call that arrived during it, starts and arms once, and completes or fails once. */
  lemma CountPass(p: Pass, e: Event)
    ensures Count(PassTrace(p), e) == PassCount(p, e)
  {
    CountConcat(CutTrace(p) + DiscoverTrace(p), RefreshTrace(p), e);
    CountConcat(CutTrace(p), DiscoverTrace(p), e);
    CountCut(p, e);
    CountDiscover(p, e);
    CountRefresh(p, e);
  }

  /** How many of the first n passes fail. */
  function Failures(script: Script, n: nat): nat
    requires n <= |script|
  {
    if n == 0 then 0 else Failures(script, n - 1) + (if script[n - 1].Succeeds() then 0 else 1)
  }

  function PassCounts(script: Script, n: nat, e: Event): nat
    requires n <= |script|
  {
    if n == 0 then 0 else PassCounts(script, n - 1, e) + PassCount(script[n - 1], e)
  }

  lemma {:induction false} PassCountsAre(script: Script, n: nat, e: Event)
    requires n <= |script|
    ensures Failures(script, n) <= n
    ensures PassCounts(script, n, e) ==
            match e
            case Request => ArrivalsIn(script, n)
            case PassCompletes => n - Failures(script, n)
            case PassFails => Failures(script, n)
            case CapReached => 0
            case _ => n
    decreases n
  {
    if n > 0 { PassCountsAre(script, n - 1, e); }
  }

  lemma {:induction false} CountPasses(script: Script, n: nat, e: Event)
    requires n <= |script|
    ensures Count(PassTraces(script, n), e) == PassCounts(script, n, e)
    decreases n
  {
    if n > 0 {
      CountPasses(script, n - 1, e);
      CountConcat(PassTraces(script, n - 1), PassTrace(script[n - 1]), e);
      CountPass(script[n - 1], e);
    }
  }

  lemma {:induction false} NoFailures(script: Script, n: nat)
    requires n <= |script| && forall k: nat :: k < n ==> script[k].Succeeds()
    ensures Failures(script, n) == 0
    decreases n
  {
    if n > 0 { NoFailures(script, n - 1); }
  }

  lemma FailuresOfCall(script: Script, n: nat)
    requires Makes(script, n)
    ensures Failures(script, n) == if script[n - 1].Succeeds() then 0 else 1
  {
    NoFailures(script, n - 1);
  }

  /** How often an event occurs during a call of n passes. */
  lemma CountCall(script: Script, n: nat, e: Event)
    requires 0 < n <= |script|
    ensures Failures(script, n) <= n
    ensures Count(Trace(script, n), e) ==
            match e
            case Request => ArrivalsIn(script, n)
            case PassCompletes => n - Failures(script, n)
            case PassFails => Failures(script, n)
            case CapReached => if script[n - 1].Repeats() then 1 else 0
            case _ => n
  {
    CountPasses(script, n, e);
    PassCountsAre(script, n, e);
    CountEnd(PassTraces(script, n), script[n - 1].Repeats(), e);
  }

  lemma CountEnd(t: seq<Event>, capped: bool, e: Event)
    ensures var end := if capped then [CapReached] else [];
            Count(t + end, e) == Count(t, e) + if capped && e.CapReached? then 1 else 0
  {
    CountConcat(t, [CapReached], e);
    CountTwo(CapReached, CapReached, e);
    assert t + [] == t;
  }

  /** Another pass is wanted: both stages succeeded, and a call arrived during one of the three waits. */
  predicate Wanted(p: Pass) {
    p.discovered && p.refreshed && (p.whileStopping > 0 || p.whileDiscovering > 0 || p.whileRefreshing > 0)
  }

  /**
   The books of one call: between one and five passes, the polls armed and the state made ready
   once in each, whether it succeeds or fails; every pass but the last completes; every call
   that arrives is in the trace; another pass runs exactly while one is wanted, and the cap is
   noted exactly when five passes were not enough.
   */
  lemma CallIsAccountedFor(script: Script, n: nat)
    requires Makes(script, n)
    ensures var t := Trace(script, n);
            && Count(t, PassStarts) == Count(t, PollsArmed) == Count(t, StateReady) == n
            && 1 <= n <= 5
            && Count(t, Request) == ArrivalsIn(script, n)
            && Count(t, PassCompletes) + Count(t, PassFails) == n
            && Count(t, PassFails) == (if script[n - 1].Succeeds() then 0 else 1)
            && (forall k :: 0 <= k < n - 1 ==> Wanted(script[k])) && (n < 5 ==> !Wanted(script[n - 1]))
            && Count(t, CapReached) == (if n == 5 && Wanted(script[n - 1]) then 1 else 0)
  {
    FailuresOfCall(script, n);
    CountCall(script, n, PassStarts);
    CountCall(script, n, PollsArmed);
    CountCall(script, n, StateReady);
    CountCall(script, n, Request);
    CountCall(script, n, PassCompletes);
    CountCall(script, n, PassFails);
    CountCall(script, n, CapReached);
  }

  // ---------------------------------------------------------------------------
  // Requests are answered

  /** What makes good for an earlier request: a new pass, or one of the two excuses. */
  predicate Answers(e: Event) { e.PassStarts? || e.PassFails? || e.CapReached? }

  /** Whether a request is unanswered after t, when `owed` says so before it. */
  predicate Owed(owed: bool, t: seq<Event>) {
    if t == [] then owed
    else t[|t| - 1].Request? || (!Answers(t[|t| - 1]) && Owed(owed, t[..|t| - 1]))
  }

  lemma {:induction false} OwedConcat(owed: bool, a: seq<Event>, b: seq<Event>)
    ensures Owed(owed, a + b) == Owed(Owed(owed, a), b)
    decreases |b|
  {
    if b == [] {
      assert a + b == a;
    } else {
      assert (a + b)[..|a + b| - 1] == a + b[..|b| - 1];
      OwedConcat(owed, a, b[..|b| - 1]);
    }
  }

  lemma {:induction false} OwedRequests(owed: bool, n: nat)
    ensures Owed(owed, Requests(n)) <==> owed || n > 0
  {
    if n > 0 { OwedRequests(owed, n - 1); }
  }

  lemma OwedTwo(owed: bool, x: Event, y: Event)
    ensures Owed(owed, [x]) == (x.Request? || (!Answers(x) && owed))
    ensures Owed(owed, [x, y]) == (y.Request? || (!Answers(y) && Owed(owed, [x])))
  {
    assert [x, y][..1] == [x] && [x][..0] == [];
  }

  lemma OwedCut(owed: bool, p: Pass)
    ensures Owed(owed, CutTrace(p)) <==> p.whileStopping > 0
  {
    OwedConcat(owed, [PassStarts, PollsStopped], Requests(p.whileStopping));
    OwedTwo(owed, PassStarts, PollsStopped);
    OwedRequests(false, p.whileStopping);
  }

  lemma OwedDiscover(owed: bool, p: Pass)
    ensures Owed(owed, DiscoverTrace(p)) <==> owed || p.whileDiscovering > 0
  {
    var asked := Requests(p.whileDiscovering);
    OwedConcat(owed, [StateCleared] + asked, [StateReady]);
    OwedConcat(owed, [StateCleared], asked);
    OwedTwo(owed, StateCleared, StateCleared);
    OwedRequests(owed, p.whileDiscovering);
    OwedTwo(Owed(owed, [StateCleared] + asked), StateReady, StateReady);
  }

  lemma OwedRefresh(owed: bool, p: Pass)
    ensures Owed(owed, RefreshTrace(p)) <==> p.Succeeds() && (owed || p.whileRefreshing > 0)
  {
    var asked := if p.discovered then Requests(p.whileRefreshing) else [];
    var end := if p.Succeeds() then PassCompletes else PassFails;
    OwedConcat(owed, asked, [PollsArmed, end]);
    OwedRequests(owed, p.whileRefreshing);
    OwedTwo(Owed(owed, asked), PollsArmed, end);
  }

  /** After a pass something is owed exactly when another pass is wanted. */
  lemma OwedPass(owed: bool, p: Pass)
    ensures Owed(owed, PassTrace(p)) <==> p.Repeats()
  {
    var cut, discover := CutTrace(p), DiscoverTrace(p);
    OwedConcat(owed, cut + discover, RefreshTrace(p));
    OwedConcat(owed, cut, discover);
    OwedCut(owed, p);
    OwedDiscover(Owed(owed, cut), p);
    OwedRefresh(Owed(owed, cut + discover), p);
  }

  lemma {:induction false} NothingOwedMeansAnswered(t: seq<Event>)
    requires !Owed(false, t)
    ensures forall i :: 0 <= i < |t| && t[i].Request? ==> exists j :: i < j < |t| && Answers(t[j])
  {
    if t != [] {
      var n := |t| - 1;
      if !Answers(t[n]) {
        NothingOwedMeansAnswered(t[..n]);
        forall i | 0 <= i < |t| && t[i].Request? ensures exists j :: i < j < |t| && Answers(t[j]) {
          var j :| i < j < n && Answers(t[..n][j]);
          assert t[j] == t[..n][j];
        }
      } else {
        forall i | 0 <= i < |t| && t[i].Request? ensures exists j :: i < j < |t| && Answers(t[j]) {
          assert i < n && Answers(t[n]);
        }
      }
    }
  }

  /** And an unanswered request is what being owed means. */
  lemma {:induction false} OwedMeansUnanswered(t: seq<Event>)
    requires Owed(false, t)
    ensures exists i :: 0 <= i < |t| && t[i].Request? && forall j :: i < j < |t| ==> !Answers(t[j])
  {
    var n := |t| - 1;
    if !t[n].Request? {
      OwedMeansUnanswered(t[..n]);
      var i :| 0 <= i < n && t[..n][i].Request? && forall j :: i < j < n ==> !Answers(t[..n][j]);
      assert t[i].Request?;
      forall j | i < j < |t| ensures !Answers(t[j]) {
        if j < n { assert t[j] == t[..n][j]; }
      }
    }
  }

  /** Every request of the trace is followed by a pass that starts after it, a failed pass or the cap. */
  ghost predicate AllAnswered(t: seq<Event>) {
    forall i :: 0 <= i < |t| && t[i].Request? ==> exists j :: i < j < |t| && Answers(t[j])
  }

  lemma AnsweredIffNothingOwed(t: seq<Event>)
    ensures AllAnswered(t) <==> !Owed(false, t)
  {
    if Owed(false, t) {
      OwedMeansUnanswered(t);
    } else {
      NothingOwedMeansAnswered(t);
    }
  }

  /** A whole call leaves nothing owed, not even a request from before it. */
  lemma NothingOwedAtTheEnd(owed: bool, script: Script, n: nat)
    requires Makes(script, n)
    ensures !Owed(owed, Trace(script, n))
  {
    var before, last := PassTraces(script, n - 1), PassTrace(script[n - 1]);
    OwedConcat(owed, before, last);
    OwedPass(Owed(owed, before), script[n - 1]);
    if script[n - 1].Repeats() {
      OwedConcat(owed, before + last, [CapReached]);
      OwedTwo(true, CapReached, CapReached);
    } else {
      assert before + last + [] == before + last;
    }
  }

  /**
   When a rediscovery request is lost, exactly: the trace holds every call that arrives, and each is
   followed by a pass that starts after it, by a failed pass or by the cap, if and only if the
   running call is not made by a poll task or nothing arrived before it was cancelled.
   */
  lemma NoRequestIsLost(byPoll: bool, script: Script, n: nat)
    requires 0 < n <= |script| && (byPoll || Makes(script, n))
    ensures var t := CallTrace(byPoll, script, n);
            && Count(t, Request) == (if byPoll then script[0].whileStopping else ArrivalsIn(script, n))
            && (AllAnswered(t) <==> !byPoll || script[0].whileStopping == 0)
  {
    var t := CallTrace(byPoll, script, n);
    AnsweredIffNothingOwed(t);
    if byPoll {
      CountCut(script[0], Request);
      OwedCut(false, script[0]);
    } else {
      CountCall(script, n, Request);
      NothingOwedAtTheEnd(false, script, n);
    }
  }

  /** The polls are armed again, once per pass, if and only if the call is not made by a poll task. */
  lemma PollsComeBack(byPoll: bool, script: Script, n: nat)
    requires 0 < n <= |script| && (byPoll || Makes(script, n))
    ensures Count(CallTrace(byPoll, script, n), PollsArmed) == if byPoll then 0 else n
    ensures Count(CallTrace(byPoll, script, n), StateCleared) == if byPoll then 0 else n
  {
    CountCut(script[0], PollsArmed);
    CountCut(script[0], StateCleared);
    CountCall(script, n, PollsArmed);
    CountCall(script, n, StateCleared);
  }

  /** A later call that no poll task makes answers what a cut one left owing. */
  lemma LaterCallMakesGood(lost: Pass, script: Script, n: nat)
    requires Makes(script, n)
    ensures AllAnswered(CutTrace(lost) + Trace(script, n))
  {
    var cut, t := CutTrace(lost), Trace(script, n);
    OwedConcat(false, cut, t);
    NothingOwedAtTheEnd(Owed(false, cut), script, n);
    AnsweredIffNothingOwed(cut + t);
  }

  // ---------------------------------------------------------------------------
  // The order of things

  /** The polls and the state as the events leave them, and whether every event came in its place. */
  datatype Watch = Watch(armed: bool, ready: bool, proper: bool)

  /** The state is cleared only with the polls stopped, and the polls are armed only with the state ready. */
  function See(w: Watch, e: Event): Watch {
    match e
    case PassStarts => w.(proper := w.proper && w.ready)
    case PollsStopped => w.(armed := false)
    case StateCleared => w.(ready := false, proper := w.proper && !w.armed)
    case StateReady => w.(ready := true, proper := w.proper && !w.ready)
    case PollsArmed => w.(armed := true, proper := w.proper && w.ready && !w.armed)
    case PassCompletes => w.(proper := w.proper && w.ready && w.armed)
    case PassFails => w.(proper := w.proper && w.ready && w.armed)
    case _ => w
  }

  function SeeAll(w: Watch, t: seq<Event>): Watch {
    if t == [] then w else See(SeeAll(w, t[..|t| - 1]), t[|t| - 1])
  }

  lemma {:induction false} SeeConcat(w: Watch, a: seq<Event>, b: seq<Event>)
    ensures SeeAll(w, a + b) == SeeAll(SeeAll(w, a), b)
    decreases |b|
  {
    if b == [] {
      assert a + b == a;
    } else {
      assert (a + b)[..|a + b| - 1] == a + b[..|b| - 1];
      SeeConcat(w, a, b[..|b| - 1]);
    }
  }

  lemma {:induction false} SeeRequests(w: Watch, n: nat)
    ensures SeeAll(w, Requests(n)) == w
  {
    if n > 0 { SeeRequests(w, n - 1); }
  }

  lemma SeeTwo(w: Watch, x: Event, y: Event)
    ensures SeeAll(w, [x]) == See(w, x) && SeeAll(w, [x, y]) == See(See(w, x), y)
  {
    var one, two := [x], [x, y];
    assert one[..0] == [] && two[..1] == one;
    assert SeeAll(w, two[..1]) == See(w, x);
  }

  lemma SeeCut(w: Watch, p: Pass)
    requires w.ready && w.proper
    ensures SeeAll(w, CutTrace(p)) == Watch(false, true, true)
  {
    SeeConcat(w, [PassStarts, PollsStopped], Requests(p.whileStopping));
    SeeTwo(w, PassStarts, PollsStopped);
    SeeRequests(Watch(false, true, true), p.whileStopping);
  }

  lemma SeeDiscover(p: Pass)
    ensures SeeAll(Watch(false, true, true), DiscoverTrace(p)) == Watch(false, true, true)
  {
    var w, asked := Watch(false, true, true), Requests(p.whileDiscovering);
    SeeConcat(w, [StateCleared] + asked, [StateReady]);
    SeeConcat(w, [StateCleared], asked);
    SeeTwo(w, StateCleared, StateCleared);
    SeeRequests(Watch(false, false, true), p.whileDiscovering);
    SeeTwo(Watch(false, false, true), StateReady, StateReady);
  }

  lemma SeeRefresh(p: Pass)
    ensures SeeAll(Watch(false, true, true), RefreshTrace(p)) == Watch(true, true, true)
  {
    var w := Watch(false, true, true);
    var asked := if p.discovered then Requests(p.whileRefreshing) else [];
    var end := if p.Succeeds() then PassCompletes else PassFails;
    SeeConcat(w, asked, [PollsArmed, end]);
    SeeRequests(w, p.whileRefreshing);
    SeeTwo(w, PollsArmed, end);
  }

  lemma SeePass(w: Watch, p: Pass)
    requires w.ready && w.proper
    ensures SeeAll(w, PassTrace(p)) == Watch(true, true, true)
  {
    SeeConcat(w, CutTrace(p) + DiscoverTrace(p), RefreshTrace(p));
    SeeConcat(w, CutTrace(p), DiscoverTrace(p));
    SeeCut(w, p);
    SeeDiscover(p);
    SeeRefresh(p);
  }

  lemma {:induction false} SeePasses(w: Watch, script: Script, n: nat)
    requires w.ready && w.proper && n <= |script|
    ensures n > 0 ==> SeeAll(w, PassTraces(script, n)) == Watch(true, true, true)
    ensures n == 0 ==> SeeAll(w, PassTraces(script, n)) == w
    decreases n
  {
    if n > 0 {
      SeePasses(w, script, n - 1);
      SeeConcat(w, PassTraces(script, n - 1), PassTrace(script[n - 1]));
      SeePass(SeeAll(w, PassTraces(script, n - 1)), script[n - 1]);
    }
  }

  /**
   The order within a call: the state is cleared only with the polls stopped, the polls are armed
   only with the state ready again, and at the end the polls run if and only if no poll task
   made the call.
   */
  lemma CallIsOrderly(byPoll: bool, armed: bool, script: Script, n: nat)
    requires 0 < n <= |script| && (byPoll || Makes(script, n))
    ensures SeeAll(Watch(armed, true, true), CallTrace(byPoll, script, n)) == Watch(!byPoll, true, true)
  {
    var w := Watch(armed, true, true);
    if byPoll {
      SeeCut(w, script[0]);
    } else {
      SeePasses(w, script, n);
      var t := PassTraces(script, n);
      SeeConcat(w, t, [CapReached]);
      SeeTwo(Watch(true, true, true), CapReached, CapReached);
      assert t + [] == t;
    }
  }

  // ---------------------------------------------------------------------------
  // The client's own fields and operations

  class Client {
    var locked: bool
    var pending: bool
    var stateReady: bool
    var pollsArmed: bool

    constructor ()
      ensures !locked && !pending && stateReady && pollsArmed
    {
      locked, pending, stateReady, pollsArmed := false, false, true, true;
    }

    /** The calls that find the lock taken during one wait: each sets the flag and answers False. */
    method Arrive(n: nat, before: seq<Event>) returns (t: seq<Event>)
      requires locked
      modifies this`pending
      ensures t == before + Requests(n) && pending == (old(pending) || n > 0)
    {
      t := before;
      for k := 0 to n
        invariant t == before + Requests(k) && pending == (old(pending) || k > 0)
      {
        pending := true;
        t := t + [Request];
      }
    }

    /** cancel_all: every poll task is cancelled; the caller too (`cut`) when it is one of them. */
    method CancelPolls(byPoll: bool, pass: Pass, before: seq<Event>) returns (cut: bool, t: seq<Event>)
      requires locked
      modifies this`pending, this`pollsArmed
      ensures t == before + CutTrace(pass) && cut == byPoll
      ensures !pollsArmed && pending == (pass.whileStopping > 0)
    {
      pending := false;
      pollsArmed := false;
      t := before + [PassStarts, PollsStopped];
      t := Arrive(pass.whileStopping, t);
      cut := byPoll;
    }

    /** The state is cleared and rebuilt; however that goes, it is ready afterwards. */
    method Discover(pass: Pass, before: seq<Event>) returns (t: seq<Event>)
      requires locked
      modifies this`pending, this`stateReady
      ensures t == before + DiscoverTrace(pass)
      ensures stateReady && pending == (old(pending) || pass.whileDiscovering > 0)
    {
      stateReady := false;
      t := before + [StateCleared];
      t := Arrive(pass.whileDiscovering, t);
      stateReady := true;
      t := t + [StateReady];
    }

    /** The rest of a pass: the polls are armed on the successful path and in the handler of a failure. */
    method Refresh(pass: Pass, before: seq<Event>) returns (ok: bool, t: seq<Event>)
      requires locked
      modifies this`pending, this`pollsArmed
      ensures t == before + RefreshTrace(pass) && ok == pass.Succeeds() && pollsArmed
      ensures pending == (old(pending) || (pass.discovered && pass.whileRefreshing > 0))
    {
      t, ok := before, pass.discovered;
      if ok {
        t := Arrive(pass.whileRefreshing, t);
        ok := pass.refreshed;
        if ok {
          pollsArmed := true;
          t := t + [PollsArmed, PassCompletes];
          return;
        }
      }
      pollsArmed := true;
      t := t + [PollsArmed, PassFails];
    }

    /**
     One pass. However it ends the state is ready and the polls run, and the flag says whether a
     call arrived during the pass. Only a poll task, cut off in the first stage, leaves the polls
     stopped.
     */
    method RunPass(byPoll: bool, pass: Pass, before: seq<Event>) returns (cut: bool, ok: bool, t: seq<Event>)
      requires locked
      modifies this`pending, this`stateReady, this`pollsArmed
      ensures cut == byPoll
      ensures cut ==> t == before + CutTrace(pass) && !ok && stateReady == old(stateReady)
      ensures cut ==> !pollsArmed && pending == (pass.whileStopping > 0)
      ensures !cut ==> t == before + PassTrace(pass) && ok == pass.Succeeds()
      ensures !cut ==> stateReady && pollsArmed && pending == (pass.Arrivals() > 0)
    {
      cut, t := CancelPolls(byPoll, pass, before);
      if cut {
        return cut, false, t;
      }
      t := Discover(pass, t);
      ok, t := Refresh(pass, t);
    }

    /** The pass after k complete ones. */
    method RunNext(byPoll: bool, script: Script, k: nat, before: seq<Event>)
      returns (cut: bool, ok: bool, t: seq<Event>)
      requires locked && k < |script| && before == PassTraces(script, k)
      modifies this`pending, this`stateReady, this`pollsArmed
      ensures cut == byPoll
      ensures cut ==> (k == 0 ==> t == CutTrace(script[0])) && !ok && stateReady == old(stateReady)
      ensures cut ==> !pollsArmed && pending == (script[k].whileStopping > 0)
      ensures !cut ==> t == PassTraces(script, k + 1) && ok == script[k].Succeeds()
      ensures !cut ==> stateReady && pollsArmed && pending == (script[k].Arrivals() > 0)
      ensures !cut ==> (ok && pending <==> script[k].Repeats())
      ensures !cut && ok && pending && AllRepeat(script, k) ==> AllRepeat(script, k + 1)
    {
      cut, ok, t := RunPass(byPoll, script[k], before);
    }

    /** The loop over passes. */
    method RunPasses(byPoll: bool, script: Script) returns (cut: bool, ok: bool, passes: nat, t: seq<Event>)
      requires locked
      modifies this`pending, this`stateReady, this`pollsArmed
      ensures cut == byPoll
      ensures cut ==> t == CutTrace(script[0]) && !ok && stateReady == old(stateReady)
      ensures cut ==> !pollsArmed && pending == (script[0].whileStopping > 0)
      ensures !cut ==> Makes(script, passes) && t == Trace(script, passes)
      ensures !cut ==> ok == script[passes - 1].Succeeds() && stateReady && pollsArmed
      ensures !cut ==> (pending <==> !ok && script[passes - 1].Arrivals() > 0)
    {
      passes := 0;
      t := PassTraces(script, passes);
      while true
        invariant 0 <= passes < MAX_PASSES && t == PassTraces(script, passes)
        invariant AllRepeat(script, passes)
        invariant byPoll ==> passes == 0
        invariant byPoll ==> stateReady == old(stateReady)
        decreases MAX_PASSES - passes
      {
        cut, ok, t := RunNext(byPoll, script, passes, t);
        passes := passes + 1;
        if cut || !ok {
          break;
        }
        if !pending {
          break;
        }
        if passes >= MAX_PASSES {
          pending := false;
          t := t + [CapReached];
          break;
        }
      }
    }

    /**
     A call that finds the lock free. The trace is the one the results above are about. Unless a
     poll task calls, the answer is True exactly when no pass failed, and the state is ready and
     the polls are armed at the end; a poll task is cancelled instead and leaves the polls
     stopped. The lock is free either way.
     */
    method TriggerRediscovery(byPoll: bool, script: Script)
      returns (cancelled: bool, ok: bool, passes: nat, t: seq<Event>)
      requires !locked
      modifies this
      ensures !locked && cancelled == byPoll && (pollsArmed <==> !byPoll)
      ensures stateReady == (!byPoll || old(stateReady))
      ensures AllAnswered(t) <==> !byPoll || script[0].whileStopping == 0
      ensures byPoll ==> t == CutTrace(script[0]) && !ok && pending == (script[0].whileStopping > 0)
      ensures !byPoll ==> Makes(script, passes) && t == Trace(script, passes)
      ensures !byPoll ==> Count(t, Request) == ArrivalsIn(script, passes) && (ok <==> Count(t, PassFails) == 0)
      ensures !byPoll ==> (pending <==> !ok && script[passes - 1].Arrivals() > 0)
    {
      locked := true;
      cancelled, ok, passes, t := RunPasses(byPoll, script);
      locked := false;
      if cancelled {
        OwedCut(false, script[0]);
        AnsweredIffNothingOwed(t);
      } else {
        CallIsAccountedFor(script, passes);
        NoRequestIsLost(false, script, passes);
      }
    }

    /** What a caller sees: a coalesced request answered False at once, a fresh run, or its own cancellation. */
    method Call(byPoll: bool, script: Script) returns (cancelled: bool, ok: bool, passes: nat, t: seq<Event>)
      modifies this
      ensures old(locked) ==> !cancelled && !ok && pending && passes == 0 && t == [Request]
      ensures old(locked) ==> locked && stateReady == old(stateReady) && pollsArmed == old(pollsArmed)
      ensures !old(locked) ==> !locked && cancelled == byPoll && (pollsArmed <==> !byPoll)
      ensures !old(locked) ==> stateReady == (!byPoll || old(stateReady))
      ensures !old(locked) && !byPoll ==> Makes(script, passes) && t == Trace(script, passes)
      ensures !old(locked) && byPoll ==> t == CutTrace(script[0])
    {
      if locked {
        t := Arrive(1, []);
        assert Requests(1) == Requests(0) + [Request];
        return false, false, 0, t;
      }
      cancelled, ok, passes, t := TriggerRediscovery(byPoll, script);
    }
  }
}
