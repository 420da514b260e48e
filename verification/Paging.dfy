/**
 `Sep2Client.get_list` (src/py20305/client/http.py): reading a list resource page by page.
 Items are named by numbers. The server may serve pages of any size up to the limit and may
 fail at any request.
 */
module Paging {

  const LIMIT := 50

  /** The reply to one page request: a page with its `all` and `results`, or an error status. */
  datatype Reply = Page(items: seq<nat>, all: nat, results: nat) | Error(status: int)

  datatype Result = Ok(pages: seq<seq<nat>>) | Raised(status: int)

  function Concat(pages: seq<seq<nat>>): seq<nat> {
    if pages == [] then [] else Concat(pages[..|pages| - 1]) + pages[|pages| - 1]
  }

  predicate Absent(r: Reply) { r.Error? && (r.status == 404 || r.status == 204) }

  /** The items are those of the list from `start` on. */
  predicate Holds(list: seq<nat>, start: nat, items: seq<nat>) {
    start + |items| <= |list| && forall i :: 0 <= i < |items| ==> items[i] == list[start + i]
  }

  /**
   The page holds the next items of the list, at least one while there are any, and says how many
   there are in all.
   */
  predicate Truthful(list: seq<nat>, start: nat, r: Reply) {
    r.Page? ==>
      && r.results == |r.items| <= LIMIT
      && r.all == |list|
      && Holds(list, start, r.items)
      && (start < |list| ==> |r.items| >= 1)
  }

  lemma NextPage(list: seq<nat>, pages: seq<seq<nat>>, items: seq<nat>)
    requires Holds(list, 0, Concat(pages)) && Holds(list, |Concat(pages)|, items)
    ensures Concat(pages + [items]) == Concat(pages) + items && Holds(list, 0, Concat(pages + [items]))
  {
    assert (pages + [items])[..|pages|] == pages;
  }

  /** The reply to the n-th request, which asks from `start` on. */
  type Server = (nat, nat) -> Reply

  function Ask(server: Server, n: nat, start: nat): Reply { server(n, start) }

  ghost predicate AlwaysTruthful(list: seq<nat>, server: Server) {
    forall n: nat, k: nat {:trigger Truthful(list, k, Ask(server, n, k))} ::
      k <= |list| ==> Truthful(list, k, Ask(server, n, k))
  }

  ghost predicate NeverFails(server: Server) { forall n: nat, k: nat :: Ask(server, n, k).Page? }

  /** What a page adds to those read so far. */
  lemma Replies(list: seq<nat>, server: Server, n: nat, pages: seq<seq<nat>>)
    requires AlwaysTruthful(list, server) && Holds(list, 0, Concat(pages))
    ensures var start := |Concat(pages)|;
            var reply := Ask(server, n, start);
            reply.Page? ==>
              && reply.all == |list| && start + reply.results <= |list| && (start < |list| ==> reply.results >= 1)
              && |Concat(pages + [reply.items])| == start + reply.results
              && Holds(list, 0, Concat(pages + [reply.items]))
  {
    var start := |Concat(pages)|;
    var reply := Ask(server, n, start);
    assert Truthful(list, start, reply);
    if reply.Page? { NextPage(list, pages, reply.items); }
  }

  lemma AllRead(list: seq<nat>, items: seq<nat>)
    requires Holds(list, 0, items) && |items| == |list|
    ensures items == list
  {
  }

  /** The pages read so far are the first `start` items of the list. */
  ghost predicate SoFar(list: seq<nat>, pages: seq<seq<nat>>, start: nat) {
    start == |Concat(pages)| && Holds(list, 0, Concat(pages))
  }

  lemma OnePage(list: seq<nat>, server: Server, n: nat, pages: seq<seq<nat>>, start: nat)
    requires AlwaysTruthful(list, server) && SoFar(list, pages, start)
    ensures start <= |list| && (start == |list| ==> Concat(pages) == list)
    ensures var reply := Ask(server, n, start);
            reply.Page? ==>
              && reply.all == |list| && (start < |list| ==> reply.results >= 1) && start + reply.results <= |list|
              && SoFar(list, pages + [reply.items], start + reply.results)
              && (start + reply.results == |list| ==> Concat(pages + [reply.items]) == list)
  {
    Replies(list, server, n, pages);
    var reply := Ask(server, n, start);
    if start == |list| { AllRead(list, Concat(pages)); }
    if reply.Page? && start + reply.results == |list| { AllRead(list, Concat(pages + [reply.items])); }
  }

  /**
   Paging is complete: against a truthful server it ends, and it either returns pages that
   concatenate to the whole list, once each and in order, or reports an absent list as empty
   when the very first request says so, or raises the status of the request that failed. A 404
   or 204 between pages is raised, never taken for the end of the list.
   */
  method GetList(ghost list: seq<nat>, server: Server) returns (r: Result, requests: nat, start: nat)
    requires AlwaysTruthful(list, server)
    ensures requests == 1 || 1 < requests <= |list|
    ensures Absent(Ask(server, 0, 0)) ==> r == Ok([])
    ensures r.Ok? && !Absent(Ask(server, 0, 0)) ==> Concat(r.pages) == list && |r.pages| == requests
    ensures r.Raised? ==> start <= |list| && Ask(server, requests - 1, start) == Error(r.status)
    ensures r.Raised? ==> (start == 0 <==> requests == 1)
    ensures r.Raised? && requests == 1 ==> r.status != 404 && r.status != 204
    ensures NeverFails(server) ==> r.Ok?
  {
    var pages: seq<seq<nat>> := [];
    start, requests := 0, 0;
    while true
      invariant requests == |pages| <= start && SoFar(list, pages, start)
      invariant requests > 0 ==> start > 0 && start < |list| && !Absent(Ask(server, 0, 0))
      decreases |list| - start
    {
      var reply := Ask(server, requests, start);
      OnePage(list, server, requests, pages, start);
      requests := requests + 1;
      if reply.Error? {
        if reply.status == 204 {
          return if start == 0 then Ok([]) else Raised(204), requests, start;
        }
        return if reply.status == 404 && start == 0 then Ok([]) else Raised(reply.status), requests, start;
      }
      pages := pages + [reply.items];
      start := start + reply.results;
      if start >= reply.all || reply.results == 0 {
        return Ok(pages), requests, start;
      }
    }
  }
}
