/**
 The trail of loss-of-communications transitions the client records
 (src/py20305/client/csip_client.py, the `_audit.comms_loss` calls) and the pattern it is meant
 to follow: entered, one or more attempts to recover, cleared, again and again.
 */
module Episodes {

  datatype Transition = Entered | Recovering | Cleared

  function Repeat(n: nat): seq<Transition> { if n == 0 then [] else Repeat(n - 1) + [Recovering] }

  /** One whole episode: entered, n attempts to recover, cleared. */
  function Episode(n: nat): seq<Transition> { [Entered] + Repeat(n) + [Cleared] }

  function Episodes(attempts: seq<nat>): seq<Transition> {
    if attempts == [] then [] else Episodes(attempts[..|attempts| - 1]) + Episode(attempts[|attempts| - 1])
  }

  /** t is a prefix of some sequence of episodes, each with at least one attempt. */
  ghost predicate EpisodePrefix(t: seq<Transition>) {
    exists attempts: seq<nat> :: (forall n :: n in attempts ==> n >= 1) && t <= Episodes(attempts)
  }

  /** Where a trail stands: outside an episode, just entered, after an attempt, or off the pattern. */
  datatype Place = Outside | JustEntered | Attempted | Off

  function Advance(p: Place, t: Transition): Place {
    match (p, t)
    case (Outside, Entered) => JustEntered
    case (JustEntered, Recovering) => Attempted
    case (Attempted, Recovering) => Attempted
    case (Attempted, Cleared) => Outside
    case _ => Off
  }

  function ScanFrom(p: Place, t: seq<Transition>): Place {
    if t == [] then p else Advance(ScanFrom(p, t[..|t| - 1]), t[|t| - 1])
  }

  function Scan(t: seq<Transition>): Place { ScanFrom(Outside, t) }

  lemma {:induction false} ScanConcat(p: Place, a: seq<Transition>, b: seq<Transition>)
    ensures ScanFrom(p, a + b) == ScanFrom(ScanFrom(p, a), b)
    decreases |b|
  {
    if b == [] {
      assert a + b == a;
    } else {
      assert (a + b)[..|a + b| - 1] == a + b[..|b| - 1];
      ScanConcat(p, a, b[..|b| - 1]);
    }
  }

  lemma {:induction false} OffStaysOff(t: seq<Transition>)
    ensures ScanFrom(Off, t).Off?
  {
    if t != [] { OffStaysOff(t[..|t| - 1]); }
  }

  lemma Extended(t: seq<Transition>, x: Transition)
    ensures Scan(t + [x]) == Advance(Scan(t), x)
  {
    assert (t + [x])[..|t|] == t;
  }

  /** Whole episodes, and an open one with k attempts unless the trail stands outside. */
  ghost predicate SplitsInto(t: seq<Transition>, attempts: seq<nat>, k: nat) {
    && (forall n :: n in attempts ==> n >= 1)
    && match Scan(t)
       case Outside => t == Episodes(attempts)
       case JustEntered => k == 0 && t == Episodes(attempts) + [Entered]
       case Attempted => k >= 1 && t == Episodes(attempts) + ([Entered] + Repeat(k))
       case Off => false
  }

  lemma EpisodesLast(attempts: seq<nat>, k: nat)
    ensures Episodes(attempts + [k]) == Episodes(attempts) + Episode(k)
  {
    assert (attempts + [k])[..|attempts|] == attempts;
  }

  lemma {:induction false} Split(t: seq<Transition>) returns (attempts: seq<nat>, k: nat)
    requires !Scan(t).Off?
    ensures SplitsInto(t, attempts, k)
  {
    if t == [] {
      attempts, k := [], 0;
    } else {
      var n := |t| - 1;
      attempts, k := Split(t[..n]);
      assert t == t[..n] + [t[n]];
      attempts, k := SplitMore(t[..n], attempts, k, t[n]);
    }
  }

  lemma SplitMore(t: seq<Transition>, attempts: seq<nat>, k: nat, x: Transition)
    returns (attempts': seq<nat>, k': nat)
    requires SplitsInto(t, attempts, k) && !Scan(t + [x]).Off?
    ensures SplitsInto(t + [x], attempts', k')
  {
    Extended(t, x);
    attempts', k' := attempts, k;
    match x
    case Entered => k' := 0;
    case Recovering =>
      assert [Entered] + Repeat(k) + [Recovering] == [Entered] + Repeat(k + 1);
      assert k == 0 ==> Repeat(0) == [] && t == Episodes(attempts) + ([Entered] + Repeat(0));
      k' := k + 1;
    case Cleared =>
      EpisodesLast(attempts, k);
      attempts' := attempts + [k];
  }

  lemma OnPatternIsPrefix(t: seq<Transition>)
    requires !Scan(t).Off?
    ensures EpisodePrefix(t)
  {
    var attempts, k := Split(t);
    if Scan(t).Outside? {
      assert t <= Episodes(attempts);
    } else {
      var m := if k == 0 then 1 else k;
      EpisodesLast(attempts, m);
      assert t <= Episodes(attempts) + Episode(m);
      assert t <= Episodes(attempts + [m]);
    }
  }

  lemma {:induction false} ScanRepeat(n: nat)
    ensures ScanFrom(JustEntered, Repeat(n)) == if n == 0 then JustEntered else Attempted
  {
    if n > 0 { ScanRepeat(n - 1); }
  }

  lemma ScanOne(p: Place, x: Transition)
    ensures ScanFrom(p, [x]) == Advance(p, x)
  {
    assert [x][..0] == [];
  }

  lemma ScanEpisode(n: nat)
    requires n >= 1
    ensures Scan(Episode(n)).Outside?
  {
    ScanConcat(Outside, [Entered] + Repeat(n), [Cleared]);
    ScanConcat(Outside, [Entered], Repeat(n));
    ScanOne(Outside, Entered);
    ScanRepeat(n);
    ScanOne(Attempted, Cleared);
  }

  lemma {:induction false} ScanEpisodes(attempts: seq<nat>)
    requires forall n :: n in attempts ==> n >= 1
    ensures Scan(Episodes(attempts)).Outside?
  {
    if attempts != [] {
      var n := |attempts| - 1;
      assert attempts[n] in attempts && forall k :: k in attempts[..n] ==> k in attempts;
      ScanEpisodes(attempts[..n]);
      ScanConcat(Outside, Episodes(attempts[..n]), Episode(attempts[n]));
      ScanEpisode(attempts[n]);
    }
  }

  /** A trail is a prefix of whole episodes if and only if the scan accepts it. */
  lemma PrefixIffOnPattern(t: seq<Transition>)
    ensures EpisodePrefix(t) <==> !Scan(t).Off?
  {
    if !Scan(t).Off? {
      OnPatternIsPrefix(t);
    } else if EpisodePrefix(t) {
      var attempts: seq<nat> :| (forall n :: n in attempts ==> n >= 1) && t <= Episodes(attempts);
      var rest := Episodes(attempts)[|t|..];
      assert Episodes(attempts) == t + rest;
      ScanEpisodes(attempts);
      ScanConcat(Outside, t, rest);
      OffStaysOff(rest);
    }
  }
}
