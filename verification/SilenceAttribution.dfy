/**
 Connectivity health and the attribution of silence: `Sep2Client._record_contact`
 (src/py20305/client/http.py) and `is_simulated_failure`
 (src/py20305/client/comm_loss_simulation.py).
 */
module SilenceAttribution {
  import opened Chains
  import opened Wrappers

  /** An exception: whether the gate raised it, and the exceptions it was raised from. */
  datatype Error = Error(simulated: bool, cause: Option<nat>, context: Option<nat>)

  /** The exceptions alive at one moment, by identity. Links may form a circle. */
  datatype Errors = Errors(all: map<nat, Error>) {
    /** The link the attribution follows: the explicit cause, or else the context. */
    function Links(): map<nat, nat> {
      map e | e in all && (all[e].cause.Some? || all[e].context.Some?)
        :: if all[e].cause.Some? then all[e].cause.value else all[e].context.value
    }

    function Simulated(): set<nat> { set e | e in all && all[e].simulated }

    predicate IsSimulated(error: Option<nat>) {
      Find(all.Keys, Links(), Simulated(), error, {}).Some?
    }
  }

  /**
   An error is attributed to the simulation exactly when some link of its chain, however far, leads
   to an injected one.
   */
  lemma SimulatedIffReached(errors: Errors, error: Option<nat>)
    ensures errors.IsSimulated(error) <==>
            exists n: nat :: Nth(errors.all.Keys, errors.Links(), error, n).Some?
                             && Nth(errors.all.Keys, errors.Links(), error, n).value in errors.Simulated()
  {
    var nodes, links, injected := errors.all.Keys, errors.Links(), errors.Simulated();
    if errors.IsSimulated(error) {
      var n := FindSomeIsFirstHit(nodes, links, injected, error, {});
      assert Nth(nodes, links, error, n).Some? && Nth(nodes, links, error, n).value in injected;
    } else {
      FindNoneIsNoHit(nodes, links, injected, error, {});
      assert NoHit(nodes, links, injected, error);
    }
  }

  /** Exceptions, each raised from the next: its explicit cause, or without one its context. */
  ghost predicate CausePath(errors: Errors, path: seq<nat>) {
    && path != []
    && (forall i :: 0 <= i < |path| ==> path[i] in errors.all)
    && (forall i :: 0 <= i < |path| - 1 ==> RaisedFrom(errors.all[path[i]], path[i + 1]))
  }

  predicate RaisedFrom(e: Error, source: nat) {
    e.cause == Some(source) || (e.cause.None? && e.context == Some(source))
  }

  /** Some path of causes from the error leads to one the gate raised. */
  ghost predicate LeadsToInjected(errors: Errors, error: Option<nat>) {
    error.Some? &&
    exists path :: CausePath(errors, path) && path[0] == error.value && errors.all[path[|path| - 1]].simulated
  }

  lemma CausePathsAre(errors: Errors, path: seq<nat>)
    ensures CausePath(errors, path) <==> Path(errors.all.Keys, errors.Links(), path)
  {
    if CausePath(errors, path) {
      forall i | 0 <= i < |path| - 1 ensures path[i] in errors.Links() && errors.Links()[path[i]] == path[i + 1] {
        assert RaisedFrom(errors.all[path[i]], path[i + 1]);
      }
    }
    if Path(errors.all.Keys, errors.Links(), path) {
      forall i | 0 <= i < |path| ensures path[i] in errors.all { assert path[i] in errors.all.Keys; }
    }
  }

  /** An error is attributed to the simulation exactly when some path of causes leads to an injected one. */
  lemma SimulatedIffLeads(errors: Errors, error: Option<nat>)
    ensures errors.IsSimulated(error) <==> LeadsToInjected(errors, error)
  {
    SimulatedIffReached(errors, error);
    if errors.IsSimulated(error) {
      var n: nat :| Nth(errors.all.Keys, errors.Links(), error, n).Some?
                    && Nth(errors.all.Keys, errors.Links(), error, n).value in errors.Simulated();
      var path := NthHasPath(errors.all.Keys, errors.Links(), error.value, n);
      CausePathsAre(errors, path);
      assert errors.all[path[|path| - 1]].simulated;
    }
    if LeadsToInjected(errors, error) {
      var path :| CausePath(errors, path) && path[0] == error.value && errors.all[path[|path| - 1]].simulated;
      CausePathsAre(errors, path);
      PathIsNth(errors.all.Keys, errors.Links(), path, |path| - 1);
      assert path[|path| - 1] in errors.Simulated();
    }
  }

  /** The search loop of the source. */
  method IsSimulatedFailure(errors: Errors, error: Option<nat>) returns (simulated: bool)
    ensures simulated == errors.IsSimulated(error)
    ensures simulated <==> LeadsToInjected(errors, error)
  {
    SimulatedIffLeads(errors, error);
    var seen: set<nat> := {};
    var current := error;
    while current.Some? && current.value in errors.all && current.value !in seen
      invariant Find(errors.all.Keys, errors.Links(), errors.Simulated(), current, seen).Some?
          == errors.IsSimulated(error)
      decreases errors.all.Keys - seen
    {
      var e := errors.all[current.value];
      if e.simulated {
        return true;
      }
      seen := seen + {current.value};
      current := if e.cause.Some? then e.cause else e.context;
    }
    simulated := false;
  }

  // ---------------------------------------------------------------------------

  /** The outcome of a request: the server answered, or it failed, for real or by injection; or the session is reset. */
  datatype Outcome = Contact(at: int) | Failure(injected: bool) | Reset

  /** The failures since the last contact. */
  function Silence(history: seq<Outcome>): seq<bool> {
    if history == [] then []
    else
      var before := Silence(history[..|history| - 1]);
      match history[|history| - 1]
      case Contact(_) => []
      case Failure(injected) => before + [injected]
      case Reset => before
  }

  /** How many requests failed since the last contact or reset. */
  function Failures(history: seq<Outcome>): nat {
    if history == [] || !history[|history| - 1].Failure? then 0 else Failures(history[..|history| - 1]) + 1
  }

  /** The last contact, forgotten by a reset. */
  function LastContact(history: seq<Outcome>): Option<int> {
    if history == [] then None
    else match history[|history| - 1]
         case Contact(at) => Some(at)
         case Failure(_) => LastContact(history[..|history| - 1])
         case Reset => None
  }

  /** The flag as one update per outcome, the way the recording keeps it. */
  function Update(flag: Option<bool>, outcome: Outcome): Option<bool> {
    match outcome
    case Contact(_) => None
    case Failure(injected) => if flag.None? then Some(injected) else if !injected then Some(false) else flag
    case Reset => flag
  }

  function Flag(history: seq<Outcome>): Option<bool> {
    if history == [] then None else Update(Flag(history[..|history| - 1]), history[|history| - 1])
  }

  /** Attribution equals its history, for every history. */
  lemma {:induction false} FlagIsHistory(history: seq<Outcome>)
    ensures Flag(history).None? <==> Silence(history) == []
    ensures Flag(history).Some?
        ==> (Flag(history).value <==> forall i :: 0 <= i < |Silence(history)| ==> Silence(history)[i])
  {
    if history != [] {
      var before, last := history[..|history| - 1], history[|history| - 1];
      FlagIsHistory(before);
      if last.Failure? {
        var s := Silence(before);
        assert forall i :: 0 <= i < |s| ==> Silence(history)[i] == s[i];
        assert Silence(history)[|s|] == last.injected;
      }
    }
  }

  /** Outcome i is a failure with no contact after it. */
  ghost predicate Unanswered(history: seq<Outcome>, i: nat) {
    i < |history| && history[i].Failure? && forall j :: i < j < |history| ==> !history[j].Contact?
  }

  /**
   The flag, outcome by outcome: None exactly when no failure is without a later contact, and
   otherwise True exactly when every such failure was injected. Resets do not matter.
   */
  lemma {:induction false} FlagTells(history: seq<Outcome>)
    ensures Flag(history).None? <==> forall i: nat :: !Unanswered(history, i)
    ensures Flag(history).Some? ==>
              (Flag(history).value <==> forall i: nat :: Unanswered(history, i) ==> history[i].injected)
  {
    if history != [] {
      var n := |history| - 1;
      var before, last := history[..n], history[n];
      FlagTells(before);
      forall i: nat | i < n ensures Unanswered(history, i) <==> Unanswered(before, i) && !last.Contact? {
        assert history[i] == before[i];
        if Unanswered(before, i) && !last.Contact? {
          forall j | i < j < |history| ensures !history[j].Contact? { if j < n { assert history[j] == before[j]; } }
        }
        if Unanswered(history, i) {
          forall j | i < j < |before| ensures !before[j].Contact? { assert history[j] == before[j]; }
          assert !history[n].Contact?;
        }
      }
      assert Unanswered(history, n) <==> last.Failure?;
      if i: nat :| Unanswered(before, i) { assert Unanswered(history, i) <==> !last.Contact?; }
    }
  }

  /**
   The flag outlives a reset: it may report a silence when the failure count is zero, and that
   happens exactly when failures lie before a reset with nothing since.
   */
  lemma {:induction false} ResetKeepsTheFlag(history: seq<Outcome>)
    ensures Failures(history) <= |Silence(history)|
    ensures Flag(history).Some? && Failures(history) == 0 <==>
            Silence(history) != [] && history[|history| - 1].Reset?
  {
    FlagIsHistory(history);
    if history != [] {
      ResetKeepsTheFlag(history[..|history| - 1]);
    }
  }

  /** One more outcome, as each reading of the history takes it. */
  lemma OneMore(history: seq<Outcome>, o: Outcome)
    ensures Flag(history + [o]) == Update(Flag(history), o)
    ensures Silence(history + [o]) ==
            if o.Contact? then [] else if o.Failure? then Silence(history) + [o.injected] else Silence(history)
    ensures Failures(history + [o]) == if o.Failure? then Failures(history) + 1 else 0
    ensures LastContact(history + [o]) ==
            if o.Contact? then Some(o.at) else if o.Failure? then LastContact(history) else None
  {
    assert (history + [o])[..|history|] == history;
  }

  class Connectivity {
    var lastContactEpoch: Option<int>
    var serverAlive: bool
    var consecutiveFailures: nat
    var silenceSimulated: Option<bool>
    ghost var history: seq<Outcome>

    /** Every field says what the history of outcomes says. */
    ghost predicate Valid()
      reads this
    {
      && silenceSimulated == Flag(history)
      && consecutiveFailures == Failures(history)
      && lastContactEpoch == LastContact(history)
      && (serverAlive <==> history != [] && history[|history| - 1].Contact?)
    }

    constructor ()
      ensures Valid() && history == []
    {
      lastContactEpoch, serverAlive, consecutiveFailures, silenceSimulated, history := None, false, 0, None, [];
    }

    /**
     After any run of recordings the flag is None exactly when nothing failed since the last
     contact, and True exactly when every failure since then was injected.
     */
    method RecordContact(reachable: bool, errors: Errors, error: Option<nat>, now: int)
      requires Valid()
      modifies this
      ensures Valid()
      ensures history == old(history) + [if reachable then Contact(now) else Failure(errors.IsSimulated(error))]
      ensures silenceSimulated.None? <==> forall i: nat :: !Unanswered(history, i)
      ensures silenceSimulated.Some? ==>
                (silenceSimulated.value <==> forall i: nat :: Unanswered(history, i) ==> history[i].injected)
      ensures reachable ==> lastContactEpoch == Some(now) && consecutiveFailures == 0 && serverAlive
      ensures !reachable ==> lastContactEpoch == old(lastContactEpoch) && !serverAlive
      ensures !reachable ==> consecutiveFailures == old(consecutiveFailures) + 1
    {
      ghost var o := if reachable then Contact(now) else Failure(errors.IsSimulated(error));
      OneMore(history, o);
      FlagTells(history + [o]);
      if !reachable {
        var injected := IsSimulatedFailure(errors, error);
        if silenceSimulated.None? {
          silenceSimulated := Some(injected);
        } else if !injected {
          silenceSimulated := Some(false);
        }
        serverAlive := false;
        consecutiveFailures := consecutiveFailures + 1;
      } else {
        lastContactEpoch := Some(now);
        consecutiveFailures := 0;
        serverAlive := true;
        silenceSimulated := None;
      }
      history := history + [o];
    }

    /** reset_session: contact and count are forgotten, the attribution of the silence is not. */
    method ResetSession()
      requires Valid()
      modifies this
      ensures Valid() && history == old(history) + [Reset]
      ensures lastContactEpoch.None? && consecutiveFailures == 0 && silenceSimulated == old(silenceSimulated)
    {
      OneMore(history, Reset);
      serverAlive, lastContactEpoch, consecutiveFailures := false, None, 0;
      history := history + [Reset];
    }
  }
}
