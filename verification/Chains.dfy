/**
 Walks along a chain of links that may run in a circle. Two parts of the client walk such a
 chain and stop at a node they have seen: the base types of a schema type, and the causes of
 an exception. Here the guarded walk is compared with the plain idea behind it: follow the
 links any number of times and take the first node that matches.
 */
module Chains {
  import opened Wrappers

  function Link<K>(next: map<K, K>, c: K): Option<K> {
    if c in next then Some(next[c]) else None
  }

  /** The node reached after following n links from x, while every node passed is in `nodes`. */
  function Nth<K>(nodes: set<K>, next: map<K, K>, x: Option<K>, n: nat): Option<K>
    decreases n
  {
    if x.None? || x.value !in nodes then None
    else if n == 0 then x
    else Nth(nodes, next, Link(next, x.value), n - 1)
  }

  /** The guarded walk: the first node from x that is in `hit`, giving up at a node already seen. */
  function Find<K>(nodes: set<K>, next: map<K, K>, hit: set<K>, x: Option<K>, seen: set<K>): Option<K>
    decreases nodes - seen
  {
    if x.None? || x.value !in nodes || x.value in seen then None
    else if x.value in hit then x
    else Find(nodes, next, hit, Link(next, x.value), seen + {x.value})
  }

  /** d is the first match on the unguarded chain from x, n links away. */
  ghost predicate FirstHit<K>(nodes: set<K>, next: map<K, K>, hit: set<K>, x: Option<K>, n: nat, d: K) {
    && Nth(nodes, next, x, n) == Some(d)
    && d in hit
    && forall m: nat :: m < n && Nth(nodes, next, x, m).Some? ==> Nth(nodes, next, x, m).value !in hit
  }

  ghost predicate NoHit<K>(nodes: set<K>, next: map<K, K>, hit: set<K>, x: Option<K>) {
    forall n: nat :: Nth(nodes, next, x, n).Some? ==> Nth(nodes, next, x, n).value !in hit
  }

  /** Every link out of `seen` leads back into it or to the node the walk stands on. */
  ghost predicate Closed<K>(nodes: set<K>, next: map<K, K>, seen: set<K>, x: Option<K>) {
    forall c :: c in seen ==> Link(next, c) == x || (c in next && next[c] in seen) || c !in next
  }

  /** A walk that starts in a set closed under the links never leaves it. */
  lemma {:induction false} StaysInside<K>(nodes: set<K>, next: map<K, K>, seen: set<K>, x: K, n: nat)
    requires x in seen && forall c :: c in seen && c in next ==> next[c] in seen
    ensures Nth(nodes, next, Some(x), n).Some? ==> Nth(nodes, next, Some(x), n).value in seen
    decreases n
  {
    if n > 0 && x in nodes && x in next {
      StaysInside(nodes, next, seen, next[x], n - 1);
    }
  }

  /** Giving up at a seen node loses nothing, because nothing new lies beyond it. */
  lemma {:induction false} FindNoneIsNoHit<K>(nodes: set<K>, next: map<K, K>, hit: set<K>, x: Option<K>, seen: set<K>)
    requires Closed(nodes, next, seen, x) && seen !! hit
    requires Find(nodes, next, hit, x, seen).None?
    ensures NoHit(nodes, next, hit, x)
    decreases nodes - seen
  {
    if x.None? || x.value !in nodes {
    } else if x.value in seen {
      forall n: nat | Nth(nodes, next, x, n).Some? ensures Nth(nodes, next, x, n).value !in hit {
        StaysInside(nodes, next, seen, x.value, n);
      }
    } else {
      var rest := Link(next, x.value);
      FindNoneIsNoHit(nodes, next, hit, rest, seen + {x.value});
      forall n: nat | Nth(nodes, next, x, n).Some? ensures Nth(nodes, next, x, n).value !in hit {
        if n > 0 {
          assert Nth(nodes, next, x, n) == Nth(nodes, next, rest, n - 1);
        }
      }
    }
  }

  lemma {:induction false} FindSomeIsFirstHit<K>(nodes: set<K>, next: map<K, K>, hit: set<K>, x: Option<K>,
      seen: set<K>)
    returns (n: nat)
    requires Find(nodes, next, hit, x, seen).Some?
    ensures FirstHit(nodes, next, hit, x, n, Find(nodes, next, hit, x, seen).value)
    decreases nodes - seen
  {
    if x.value in hit {
      n := 0;
    } else {
      var rest := Link(next, x.value);
      var k := FindSomeIsFirstHit(nodes, next, hit, rest, seen + {x.value});
      n := k + 1;
      forall m: nat | m < n && Nth(nodes, next, x, m).Some? ensures Nth(nodes, next, x, m).value !in hit {
        if m > 0 {
          assert Nth(nodes, next, x, m) == Nth(nodes, next, rest, m - 1);
        }
      }
    }
  }

  lemma FirstHitUnique<K>(nodes: set<K>, next: map<K, K>, hit: set<K>, x: Option<K>, n: nat, d: K, n': nat, d': K)
    requires FirstHit(nodes, next, hit, x, n, d) && FirstHit(nodes, next, hit, x, n', d')
    ensures n == n' && d == d'
  {
    assert Nth(nodes, next, x, n) == Some(d) && Nth(nodes, next, x, n') == Some(d');
  }

  /**
   The guarded walk from a fresh start agrees with the unguarded chain, circular or not: it
   answers d exactly when d is the first match, and nothing exactly when there is no match.
   */
  lemma FindAgreesWithChain<K>(nodes: set<K>, next: map<K, K>, hit: set<K>, x: Option<K>)
    ensures Find(nodes, next, hit, x, {}).None? <==> NoHit(nodes, next, hit, x)
    ensures forall d ::
              Find(nodes, next, hit, x, {}) == Some(d) <==> exists n: nat :: FirstHit(nodes, next, hit, x, n, d)
  {
    var f := Find(nodes, next, hit, x, {});
    if f.None? {
      FindNoneIsNoHit(nodes, next, hit, x, {});
    } else {
      var n := FindSomeIsFirstHit(nodes, next, hit, x, {});
      forall n': nat, d | FirstHit(nodes, next, hit, x, n', d) ensures d == f.value {
        FirstHitUnique(nodes, next, hit, x, n, f.value, n', d);
      }
    }
  }

  /** A walk may start one link further on when the first node does not match. */
  lemma FindSkipsMiss<K>(nodes: set<K>, next: map<K, K>, hit: set<K>, x: K)
    requires x in nodes && x !in hit
    ensures Find(nodes, next, hit, Some(x), {}) == Find(nodes, next, hit, Link(next, x), {})
  {
    var rest := Link(next, x);
    FindAgreesWithChain(nodes, next, hit, Some(x));
    FindAgreesWithChain(nodes, next, hit, rest);
    forall n: nat ensures Nth(nodes, next, Some(x), n + 1) == Nth(nodes, next, rest, n) {}
    if Find(nodes, next, hit, rest, {}).None? {
      forall n: nat | Nth(nodes, next, Some(x), n).Some? ensures Nth(nodes, next, Some(x), n).value !in hit {
        if n > 0 {
          assert Nth(nodes, next, Some(x), n) == Nth(nodes, next, rest, n - 1);
        }
      }
    } else {
      var d := Find(nodes, next, hit, rest, {}).value;
      var n: nat :| FirstHit(nodes, next, hit, rest, n, d);
      forall m: nat | m < n + 1 && Nth(nodes, next, Some(x), m).Some?
        ensures Nth(nodes, next, Some(x), m).value !in hit
      {
        if m > 0 {
          assert Nth(nodes, next, Some(x), m) == Nth(nodes, next, rest, m - 1);
        }
      }
      assert FirstHit(nodes, next, hit, Some(x), n + 1, d);
    }
  }

  // ---------------------------------------------------------------------------
  // Paths written out

  /** A walk written out: nodes, each linked to the next. A node may occur more than once. */
  ghost predicate Path<K>(nodes: set<K>, next: map<K, K>, path: seq<K>) {
    && path != []
    && (forall i :: 0 <= i < |path| ==> path[i] in nodes)
    && (forall i :: 0 <= i < |path| - 1 ==> path[i] in next && next[path[i]] == path[i + 1])
  }

  lemma {:induction false} PathIsNth<K>(nodes: set<K>, next: map<K, K>, path: seq<K>, i: nat)
    requires Path(nodes, next, path) && i < |path|
    ensures Nth(nodes, next, Some(path[0]), i) == Some(path[i])
    decreases i
  {
    if i > 0 {
      var rest := path[1..];
      forall k | 0 <= k < |rest| - 1 ensures rest[k] in next && next[rest[k]] == rest[k + 1] {
        assert rest[k] == path[k + 1];
      }
      PathIsNth(nodes, next, rest, i - 1);
    }
  }

  lemma {:induction false} NthHasPath<K>(nodes: set<K>, next: map<K, K>, x: K, n: nat) returns (path: seq<K>)
    requires Nth(nodes, next, Some(x), n).Some?
    ensures Path(nodes, next, path) && |path| == n + 1 && path[0] == x
    ensures Nth(nodes, next, Some(x), n) == Some(path[n])
    decreases n
  {
    if n == 0 {
      path := [x];
    } else {
      var rest := NthHasPath(nodes, next, next[x], n - 1);
      path := [x] + rest;
    }
  }

  /** d is where some path from x first meets a match. */
  ghost predicate FirstOnPath<K(!new)>(nodes: set<K>, next: map<K, K>, hit: set<K>, x: K, d: K) {
    exists path: seq<K> ::
      && Path(nodes, next, path) && path[0] == x && path[|path| - 1] == d && d in hit
      && forall i :: 0 <= i < |path| - 1 ==> path[i] !in hit
  }

  /** The guarded walk answers d exactly when some path, written out, first meets a match at d. */
  lemma FindIsFirstOnPath<K(!new)>(nodes: set<K>, next: map<K, K>, hit: set<K>, x: K, d: K)
    ensures Find(nodes, next, hit, Some(x), {}) == Some(d) <==> FirstOnPath(nodes, next, hit, x, d)
  {
    FindAgreesWithChain(nodes, next, hit, Some(x));
    if Find(nodes, next, hit, Some(x), {}) == Some(d) {
      var n: nat :| FirstHit(nodes, next, hit, Some(x), n, d);
      var path := NthHasPath(nodes, next, x, n);
      forall i | 0 <= i < |path| - 1 ensures path[i] !in hit {
        PathIsNth(nodes, next, path, i);
      }
      assert FirstOnPath(nodes, next, hit, x, d);
    }
    if FirstOnPath(nodes, next, hit, x, d) {
      var path: seq<K> :|
        && Path(nodes, next, path) && path[0] == x && path[|path| - 1] == d && d in hit
        && forall i :: 0 <= i < |path| - 1 ==> path[i] !in hit;
      var n := |path| - 1;
      forall m: nat | m <= n ensures Nth(nodes, next, Some(x), m) == Some(path[m]) {
        PathIsNth(nodes, next, path, m);
      }
      assert FirstHit(nodes, next, hit, Some(x), n, d);
    }
  }
}
