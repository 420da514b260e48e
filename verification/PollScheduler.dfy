/**
 The poll loop of one key of `PollScheduler` (src/py20305/client/polling.py) with exact
 timers. A subscription suppresses the regular poll (section 8.9.3.4 rule r of IEEE 2030.5);
 a heartbeat still fires as a backstop (rule g), at the cadence section 10.2.2.3 rule a sets
 for clients that do not subscribe.
 */
module PollScheduler {
  import opened Wrappers

  const HEARTBEAT_CEILING := 900.0

  datatype Config = Config(heartbeatEnabled: bool, heartbeatSeconds: Option<real>) {
    /** Construction refuses a backstop that is not positive. */
    predicate Valid() { heartbeatSeconds.Some? ==> heartbeatSeconds.value > 0.0 }

    /** The least age at which a suppressed key is polled: never faster than its own interval. */
    function Threshold(interval: nat): real {
      var backstop := if heartbeatSeconds.None? then HEARTBEAT_CEILING else heartbeatSeconds.value;
      if backstop > interval as real then backstop else interval as real
    }

    predicate HeartbeatDue(now: real, lastRun: real, interval: nat) {
      heartbeatEnabled && now - lastRun >= Threshold(interval)
    }
  }

  /**
   What one round of the loop meets: the interval it reads, whether the key is suppressed and
   its lock taken, how long the callback runs, the interval the wait reads (a callback may have
   changed it), and when during the wait a run outside the schedule last began, if one did.
   */
  datatype Round = Round(
    interval: nat, suppressed: bool, locked: bool, duration: real, wait: nat, exclusive: Option<real>)
  {
    predicate Valid() {
      duration >= 0.0 && (exclusive.Some? ==> 0.0 <= exclusive.value <= wait as real)
    }
  }

  /** One round as it happened: its time, the last run the loop knew of, and whether it ran the callback. */
  datatype Entry = Entry(at: real, lastRun: real, ran: bool)

  predicate Runs(c: Config, r: Round, at: real, lastRun: real) {
    (!r.suppressed || c.HeartbeatDue(at, lastRun, r.interval)) && !r.locked
  }

  /** When the wait of a round begins. */
  function WaitsFrom(r: Round, e: Entry): real { e.at + (if e.ran then r.duration else 0.0) }

  function NextLastRun(r: Round, e: Entry): real {
    if r.exclusive.Some? then WaitsFrom(r, e) + r.exclusive.value else if e.ran then e.at else e.lastRun
  }

  /** The log is what the loop does in these rounds when scheduled at `start`. */
  ghost predicate Follows(c: Config, start: real, rounds: seq<Round>, log: seq<Entry>) {
    && |log| == |rounds|
    && (log != [] ==> log[0].at == start && log[0].lastRun == start)
    && (forall k :: 0 <= k < |log| ==> (log[k].ran <==> Runs(c, rounds[k], log[k].at, log[k].lastRun)))
    && (forall k :: 1 <= k < |log| ==> Chained(rounds[k - 1], log[k - 1], log[k]))
  }

  ghost predicate Chained(r: Round, e: Entry, next: Entry) {
    next.at == WaitsFrom(r, e) + r.wait as real && next.lastRun == NextLastRun(r, e)
  }

  /** The loop of the source. */
  method PollLoop(c: Config, start: real, rounds: seq<Round>) returns (log: seq<Entry>)
    ensures Follows(c, start, rounds, log)
  {
    log := [];
    var now, lastRun := start, start;
    for k := 0 to |rounds|
      invariant Follows(c, start, rounds[..k], log)
      invariant k == 0 ==> now == start && lastRun == start
      invariant k > 0 ==> Chained(rounds[k - 1], log[k - 1], Entry(now, lastRun, false))
    {
      var r := rounds[k];
      var began := now;
      var known := lastRun;
      var ran := false;
      var heartbeat := r.suppressed && c.HeartbeatDue(now, lastRun, r.interval);
      if r.suppressed && !heartbeat {
      } else if r.locked {
      } else {
        ran := true;
        lastRun := now;
        now := now + r.duration;
      }
      if r.exclusive.Some? {
        lastRun := now + r.exclusive.value;
      }
      now := now + r.wait as real;
      log := log + [Entry(began, known, ran)];
    }
  }

  // ---------------------------------------------------------------------------

  ghost predicate AllValid(rounds: seq<Round>) { forall k :: 0 <= k < |rounds| ==> rounds[k].Valid() }

  lemma {:induction false} TimeMovesOn(c: Config, start: real, rounds: seq<Round>, log: seq<Entry>, i: nat, j: nat)
    requires Follows(c, start, rounds, log) && AllValid(rounds) && i < j < |log|
    ensures log[j].at >= WaitsFrom(rounds[i], log[i]) + rounds[i].wait as real
    decreases j
  {
    if j > i + 1 {
      TimeMovesOn(c, start, rounds, log, i, j - 1);
    }
    assert Chained(rounds[j - 1], log[j - 1], log[j]);
  }

  /** Callbacks the loop starts are at least the interval apart that was in force when the earlier one's wait began. */
  lemma CallbacksAreSpaced(c: Config, start: real, rounds: seq<Round>, log: seq<Entry>, i: nat, j: nat)
    requires Follows(c, start, rounds, log) && AllValid(rounds) && i < j < |log|
    requires log[i].ran && log[j].ran
    ensures log[j].at - log[i].at >= rounds[i].wait as real + rounds[i].duration
  {
    TimeMovesOn(c, start, rounds, log, i, j);
  }

  /** The last run the loop knows of is never before a run it made, nor before the scheduling. */
  lemma {:induction false} LastRunIsCurrent(c: Config, start: real, rounds: seq<Round>, log: seq<Entry>, i: nat, j: nat)
    requires Follows(c, start, rounds, log) && AllValid(rounds) && i < j < |log|
    ensures log[i].ran ==> log[j].lastRun >= log[i].at
    ensures log[j].lastRun >= log[i].lastRun || log[j].lastRun >= log[i].at
    ensures log[j].lastRun >= start && log[j].at >= start
    decreases j
  {
    assert Chained(rounds[j - 1], log[j - 1], log[j]);
    if j > i + 1 {
      LastRunIsCurrent(c, start, rounds, log, i, j - 1);
      TimeMovesOn(c, start, rounds, log, i, j - 1);
    } else if i > 0 {
      LastRunIsCurrent(c, start, rounds, log, 0, i);
    }
  }

  /**
   A suppressed key is polled at least T = max(backstop, interval) after every earlier run,
   scheduled or not, and after the scheduling itself.
   */
  lemma HeartbeatsAreSpaced(c: Config, start: real, rounds: seq<Round>, log: seq<Entry>, i: nat, j: nat)
    requires Follows(c, start, rounds, log) && AllValid(rounds) && i < j < |log|
    requires log[j].ran && rounds[j].suppressed
    ensures log[j].at - start >= c.Threshold(rounds[j].interval)
    ensures log[i].ran ==> log[j].at - log[i].at >= c.Threshold(rounds[j].interval)
    ensures rounds[i].exclusive.Some? ==>
              log[j].at - (WaitsFrom(rounds[i], log[i]) + rounds[i].exclusive.value) >= c.Threshold(rounds[j].interval)
  {
    LastRunIsCurrent(c, start, rounds, log, i, j);
    if rounds[i].exclusive.Some? {
      assert Chained(rounds[i], log[i], log[i + 1]);
      if i + 1 < j {
        LastRunIsCurrent(c, start, rounds, log, i + 1, j);
      }
    }
  }

  /**
   When the callback runs, with the numbers written out: never while the lock is taken; else always
   when the key is not suppressed; and when it is, exactly if heartbeats are on and the last run
   is at least the interval ago and at least 900 seconds, or the backstop configured instead.
   */
  lemma RunsExactlyWhen(c: Config, start: real, rounds: seq<Round>, log: seq<Entry>, k: nat)
    requires Follows(c, start, rounds, log) && k < |log|
    ensures var r, age := rounds[k], log[k].at - log[k].lastRun;
            log[k].ran <==>
            && !r.locked
            && (|| !r.suppressed
                || (&& c.heartbeatEnabled && age >= r.interval as real
                    && age >= (match c.heartbeatSeconds case None => 900.0 case Some(backstop) => backstop)))
  {
    assert log[k].ran <==> Runs(c, rounds[k], log[k].at, log[k].lastRun);
  }

  /**
   The clock of the loop: a round begins one wait after the last one, and its callback if it ran,
   was over; the last run it knows of is the latest of the scheduling, the callbacks it started
   and the runs outside the schedule.
   */
  lemma RoundsFollow(c: Config, start: real, rounds: seq<Round>, log: seq<Entry>, k: nat)
    requires Follows(c, start, rounds, log) && k + 1 < |log|
    ensures log[0].at == start && log[0].lastRun == start
    ensures var done := log[k].at + (if log[k].ran then rounds[k].duration else 0.0);
            && log[k + 1].at == done + rounds[k].wait as real
            && log[k + 1].lastRun == if rounds[k].exclusive.Some? then done + rounds[k].exclusive.value
                                     else if log[k].ran then log[k].at else log[k].lastRun
  {
    assert Chained(rounds[k], log[k], log[k + 1]);
  }

  /** With the heartbeat off, a suppressed key is never polled. */
  lemma NoHeartbeatNoPoll(c: Config, start: real, rounds: seq<Round>, log: seq<Entry>, k: nat)
    requires Follows(c, start, rounds, log) && k < |log| && rounds[k].suppressed && !c.heartbeatEnabled
    ensures !log[k].ran
  {
    assert log[k].ran <==> Runs(c, rounds[k], log[k].at, log[k].lastRun);
  }

  /**
   From round i + 1 to round j the key stays suppressed at a fixed interval, its lock is free and
   nothing else runs it.
   */
  ghost predicate Quiet(c: Config, rounds: seq<Round>, i: nat, j: nat, interval: nat)
    requires i < j < |rounds|
  {
    && c.heartbeatEnabled
    && (forall k :: i < k <= j ==> rounds[k].suppressed && !rounds[k].locked && rounds[k].interval == interval)
    && (forall k :: i <= k < j ==> rounds[k].wait == interval && rounds[k].exclusive.None?)
    && rounds[i].duration < c.Threshold(interval)
  }

  /** While no heartbeat fires after run i, the age stays below T. */
  lemma {:induction false} AgeStaysLow(c: Config, start: real, rounds: seq<Round>, log: seq<Entry>, i: nat, k: nat,
      interval: nat)
    requires Follows(c, start, rounds, log) && AllValid(rounds) && i < k < |log|
    requires log[i].ran && Quiet(c, rounds, i, k, interval)
    requires forall m :: i < m <= k ==> !log[m].ran
    ensures log[k].lastRun == log[i].at && log[k].at - log[i].at < c.Threshold(interval)
    decreases k
  {
    assert Chained(rounds[k - 1], log[k - 1], log[k]);
    if k > i + 1 {
      AgeStaysLow(c, start, rounds, log, i, k - 1, interval);
    }
    assert !Runs(c, rounds[k], log[k].at, log[k].lastRun);
  }

  /**
   The other side of the cadence: a suppressed key that nothing disturbs is polled again less
   than T + interval after its last poll, provided the callback is shorter than T.
   */
  lemma HeartbeatIsNotLate(c: Config, start: real, rounds: seq<Round>, log: seq<Entry>, i: nat, j: nat, interval: nat)
    requires Follows(c, start, rounds, log) && AllValid(rounds) && i < j < |log|
    requires log[i].ran && Quiet(c, rounds, i, j, interval)
    requires forall m :: i < m < j ==> !log[m].ran
    ensures log[j].at - log[i].at < c.Threshold(interval) + interval as real
    ensures !log[j].ran ==> log[j].at - log[i].at < c.Threshold(interval)
  {
    assert Chained(rounds[j - 1], log[j - 1], log[j]);
    if j > i + 1 {
      AgeStaysLow(c, start, rounds, log, i, j - 1, interval);
    }
    if !log[j].ran {
      AgeStaysLow(c, start, rounds, log, i, j, interval);
    }
  }
}
