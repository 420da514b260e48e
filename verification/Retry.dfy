/**
 `with_retry` (src/py20305/client/retry.py): retrying an operation under two separate budgets
 with exponential backoff. What each try of the operation does is an arbitrary sequence.
 */
module Retry {
  import opened Wrappers

  datatype Policy = Policy(maxTransient: int, maxTls: int, baseDelay: real, backoffFactor: real)

  /** The outcome of one try, by the handler that takes it. */
  datatype Attempt =
    | Success(value: int)
    | TlsError
    | RateLimited(retryAfter: Option<nat>)
    | Redirected
    | Unreachable
    | Other

  datatype Result = Returned(value: int) | TlsFailure | ConnectionFailure | Rethrown(last: Attempt)

  predicate IsTransient(a: Attempt) { a.RateLimited? || a.Redirected? || a.Unreachable? }

  predicate Final(a: Attempt) { a.Success? || a.Other? }

  type Script = nat -> Attempt

  /** What try n does. */
  function Try(script: Script, n: nat): Attempt { script(n) }

  function CountTls(script: Script, n: nat): nat {
    if n == 0 then 0 else CountTls(script, n - 1) + (if Try(script, n - 1).TlsError? then 1 else 0)
  }

  function CountTransient(script: Script, n: nat): nat {
    if n == 0 then 0 else CountTransient(script, n - 1) + (if IsTransient(Try(script, n - 1)) then 1 else 0)
  }

  /** Try n (counting from 0) is the last: it is final, or it uses up the budget of its kind. */
  predicate Stops(p: Policy, script: Script, n: nat) {
    match Try(script, n)
    case Success(_) => true
    case Other => true
    case TlsError => CountTls(script, n + 1) >= p.maxTls
    case RateLimited(_) => CountTransient(script, n + 1) >= p.maxTransient
    case Redirected => CountTransient(script, n + 1) >= p.maxTransient
    case Unreachable => CountTransient(script, n + 1) >= p.maxTransient
  }

  function Power(b: real, e: nat): real { if e == 0 then 1.0 else b * Power(b, e - 1) }

  /** The delay before retry number k of a kind. */
  function Backoff(p: Policy, k: nat): real { p.baseDelay * Power(p.backoffFactor, k) }

  /** The sum of the first n backoff delays. */
  function Geometric(p: Policy, n: nat): real {
    if n == 0 then 0.0 else Geometric(p, n - 1) + Backoff(p, n - 1)
  }

  function AtLeastOne(n: int): nat { if n < 1 then 1 else n }

  /** None of the first n tries asks for a delay of its own. */
  predicate NoRetryAfter(script: Script, n: nat) {
    n == 0 || (NoRetryAfter(script, n - 1) && RetryAfter(Try(script, n - 1)) == 0)
  }

  /** The delay a rate limit asks for; 0 counts as none. */
  function RetryAfter(a: Attempt): nat { if a.RateLimited? && a.retryAfter.Some? then a.retryAfter.value else 0 }

  /** The sleep after try n: what a rate limit asks for, else the backoff of its kind. */
  function Delay(p: Policy, script: Script, n: nat): real {
    match Try(script, n)
    case TlsError => Backoff(p, CountTls(script, n))
    case RateLimited(Some(seconds)) => if seconds > 0 then seconds as real else Backoff(p, CountTransient(script, n))
    case _ => Backoff(p, CountTransient(script, n))
  }

  /** The first delay of a kind is the base delay, and each one after it is larger by the factor. */
  lemma BackoffGrowsByFactor(p: Policy, k: nat)
    ensures Backoff(p, 0) == p.baseDelay && Backoff(p, k + 1) == p.backoffFactor * Backoff(p, k)
  {
    assert Power(p.backoffFactor, k + 1) == p.backoffFactor * Power(p.backoffFactor, k);
    Commute(p.baseDelay, p.backoffFactor, Power(p.backoffFactor, k));
  }

  /** A positive Retry-After is slept in full; any other retried try is followed by the next backoff of its kind. */
  lemma DelayIs(p: Policy, script: Script, n: nat)
    ensures match Try(script, n)
            case RateLimited(after) =>
              Delay(p, script, n) == if after.Some? && after.value >= 1 then after.value as real
                                     else Backoff(p, CountTransient(script, n))
            case TlsError => Delay(p, script, n) == Backoff(p, CountTls(script, n))
            case _ => Delay(p, script, n) == Backoff(p, CountTransient(script, n))
  {
  }

  lemma Commute(a: real, b: real, c: real)
    ensures a * (b * c) == b * (a * c)
  {
  }

  /** The sleeps after the first n tries together. */
  function Sleeps(p: Policy, script: Script, n: nat): real {
    if n == 0 then 0.0 else Sleeps(p, script, n - 1) + Delay(p, script, n - 1)
  }

  lemma DelayIsBackoff(p: Policy, script: Script, n: nat)
    requires RetryAfter(Try(script, n)) == 0
    ensures Delay(p, script, n) ==
            Backoff(p, if Try(script, n).TlsError? then CountTls(script, n) else CountTransient(script, n))
  {
  }

  lemma {:induction false} SleepsWithoutRetryAfter(p: Policy, script: Script, n: nat)
    requires NoRetryAfter(script, n) && forall k: nat :: k < n ==> !Final(Try(script, k))
    ensures Sleeps(p, script, n) == Geometric(p, CountTls(script, n)) + Geometric(p, CountTransient(script, n))
    decreases n
  {
    if n > 0 {
      SleepsWithoutRetryAfter(p, script, n - 1);
      assert !Final(Try(script, n - 1));
      DelayIsBackoff(p, script, n - 1);
    }
  }

  function Verdict(a: Attempt): Result {
    match a
    case Success(v) => Returned(v)
    case TlsError => TlsFailure
    case Unreachable => ConnectionFailure
    case _ => Rethrown(a)
  }

  lemma FinalStops(p: Policy, script: Script, n: nat)
    requires !Stops(p, script, n)
    ensures !Final(Try(script, n))
  {
  }

  /**
   Retry is bounded: it makes tries up to the first one that is final or uses up its budget, and
   no more than maxTransient + maxTls - 1 of them, a limit below 1 counting as 1. A success is
   answered with its own value, spent budgets with the failure of their kind, anything else is
   raised as it came. The sleep is exactly what the retried tries call for; without a
   Retry-After value that is the backoff delays of the two kinds, each a partial geometric
   series.
   */
  method WithRetry(p: Policy, script: Script) returns (r: Result, tries: nat, slept: real)
    ensures 1 <= tries <= AtLeastOne(p.maxTransient) + AtLeastOne(p.maxTls) - 1
    ensures Stops(p, script, tries - 1) && forall k: nat :: k < tries - 1 ==> !Stops(p, script, k)
    ensures match Try(script, tries - 1)
            case Success(v) => r == Returned(v)
            case TlsError => r == TlsFailure
            case Unreachable => r == ConnectionFailure
            case RateLimited(after) => r == Rethrown(RateLimited(after))
            case Redirected => r == Rethrown(Redirected)
            case Other => r == Rethrown(Other)
    ensures slept == Sleeps(p, script, tries - 1)
    ensures NoRetryAfter(script, tries - 1) ==>
              slept == Geometric(p, CountTls(script, tries - 1)) + Geometric(p, CountTransient(script, tries - 1))
    ensures NoRetryAfter(script, tries - 1) && p.baseDelay >= 0.0 && p.backoffFactor >= 0.0 ==>
              slept <= Geometric(p, AtLeastOne(p.maxTls) - 1) + Geometric(p, AtLeastOne(p.maxTransient) - 1)
  {
    r, tries, slept := RetryLoop(p, script);
    var n := tries - 1;
    forall k: nat | k < n ensures !Final(Try(script, k)) { FinalStops(p, script, k); }
    if NoRetryAfter(script, n) {
      SleepsWithoutRetryAfter(p, script, n);
      if p.baseDelay >= 0.0 && p.backoffFactor >= 0.0 {
        SleepIsBounded(p, CountTls(script, n), CountTransient(script, n));
      }
    }
  }

  /** The loop with its two counters. */
  method RetryLoop(p: Policy, script: Script) returns (r: Result, tries: nat, slept: real)
    ensures 1 <= tries <= AtLeastOne(p.maxTransient) + AtLeastOne(p.maxTls) - 1
    ensures CountTls(script, tries - 1) <= AtLeastOne(p.maxTls) - 1
    ensures CountTransient(script, tries - 1) <= AtLeastOne(p.maxTransient) - 1
    ensures Stops(p, script, tries - 1) && forall k: nat :: k < tries - 1 ==> !Stops(p, script, k)
    ensures r == Verdict(Try(script, tries - 1)) && slept == Sleeps(p, script, tries - 1)
  {
    var transient, tls := 0, 0;
    tries, slept := 0, 0.0;
    while true
      invariant tls == CountTls(script, tries) <= AtLeastOne(p.maxTls) - 1
      invariant transient == CountTransient(script, tries) <= AtLeastOne(p.maxTransient) - 1
      invariant tries == tls + transient
      invariant forall k: nat :: k < tries ==> !Stops(p, script, k)
      invariant slept == Sleeps(p, script, tries)
      decreases AtLeastOne(p.maxTls) - tls + AtLeastOne(p.maxTransient) - transient
    {
      var attempt := Try(script, tries);
      tries := tries + 1;
      var delay := 0.0;
      if Final(attempt) {
        return Verdict(attempt), tries, slept;
      } else if attempt.TlsError? {
        tls := tls + 1;
        if tls >= p.maxTls {
          return TlsFailure, tries, slept;
        }
        delay := Backoff(p, tls - 1);
      } else {
        transient := transient + 1;
        if transient >= p.maxTransient {
          return Verdict(attempt), tries, slept;
        }
        delay := if RetryAfter(attempt) != 0 then RetryAfter(attempt) as real else Backoff(p, transient - 1);
      }
      slept := slept + delay;
    }
  }

  // ---- the two series ------------------------------------------------------------

  lemma {:induction false} PowerNotNegative(b: real, e: nat)
    requires b >= 0.0
    ensures Power(b, e) >= 0.0
  {
    if e > 0 { PowerNotNegative(b, e - 1); }
  }

  lemma {:induction false} GeometricGrows(p: Policy, m: nat, n: nat)
    requires p.baseDelay >= 0.0 && p.backoffFactor >= 0.0 && m <= n
    ensures Geometric(p, m) <= Geometric(p, n)
    decreases n
  {
    if m < n {
      GeometricGrows(p, m, n - 1);
      PowerNotNegative(p.backoffFactor, n - 1);
    }
  }

  /** The closed form of a series, multiplied out so that a factor of 1 is covered. */
  lemma {:induction false} GeometricClosedForm(p: Policy, n: nat)
    ensures (p.backoffFactor - 1.0) * Geometric(p, n) == p.baseDelay * (Power(p.backoffFactor, n) - 1.0)
  {
    if n > 0 {
      GeometricClosedForm(p, n - 1);
      var f, g, q := p.backoffFactor, Geometric(p, n - 1), Power(p.backoffFactor, n - 1);
      assert (f - 1.0) * (g + p.baseDelay * q) == (f - 1.0) * g + p.baseDelay * (f * q - q);
    }
  }

  /** Delays within the two budgets add up to at most the two full series. */
  lemma SleepIsBounded(p: Policy, tls: nat, transient: nat)
    requires p.baseDelay >= 0.0 && p.backoffFactor >= 0.0
    requires tls <= AtLeastOne(p.maxTls) - 1 && transient <= AtLeastOne(p.maxTransient) - 1
    ensures Geometric(p, tls) + Geometric(p, transient)
         <= Geometric(p, AtLeastOne(p.maxTls) - 1) + Geometric(p, AtLeastOne(p.maxTransient) - 1)
  {
    GeometricGrows(p, tls, AtLeastOne(p.maxTls) - 1);
    GeometricGrows(p, transient, AtLeastOne(p.maxTransient) - 1);
  }
}
