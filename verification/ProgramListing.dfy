/**
 What the program lists of a server say (src/py20305/client/discovery.py, the loops of
 `refresh_der_programs` over devices, assignments, pages and entries).
 */
module ProgramListing {
  import opened Wrappers

  datatype Program = Program(href: string, primacy: int)

  /**
   How fetching the program list of an assignment ends: there is no link to follow, the first
   request is answered 404 or 204, the list is read, or it stops answering between pages.
   */
  datatype Fetch = NoLink | Absent | Pages(pages: seq<seq<Program>>) | PagingFault {
    /** The pages get_list returns: none for a list that is absent from the start. */
    function Returned(): seq<seq<Program>> { if Pages? then pages else [] }
  }

  datatype Fsa = Fsa(href: Option<string>, fetch: Fetch)

  datatype Device = Device(href: string, fsas: seq<Fsa>)

  /** One program entry met during the refresh. */
  datatype Visit = Visit(program: string, primacy: int, device: string, fsa: Option<string>)

  function PageVisits(device: string, fsa: Option<string>, page: seq<Program>): seq<Visit> {
    if page == [] then []
    else PageVisits(device, fsa, page[..|page| - 1])
         + (var x := page[|page| - 1]; if x.href == "" then [] else [Visit(x.href, x.primacy, device, fsa)])
  }

  function PagesVisits(device: string, fsa: Option<string>, pages: seq<seq<Program>>): seq<Visit> {
    if pages == [] then []
    else PagesVisits(device, fsa, pages[..|pages| - 1]) + PageVisits(device, fsa, pages[|pages| - 1])
  }

  function OneFsaVisits(device: string, f: Fsa): seq<Visit> {
    PagesVisits(device, f.href, f.fetch.Returned())
  }

  function FsaVisits(device: string, fsas: seq<Fsa>): seq<Visit> {
    if fsas == [] then []
    else FsaVisits(device, fsas[..|fsas| - 1])
         + OneFsaVisits(device, fsas[|fsas| - 1])
  }

  /** Every program entry the server lists, in the order the refresh meets them. */
  function Visits(devices: seq<Device>): seq<Visit> {
    if devices == [] then []
    else Visits(devices[..|devices| - 1]) + FsaVisits(devices[|devices| - 1].href, devices[|devices| - 1].fsas)
  }

  function FaultedFsas(fsas: seq<Fsa>): set<Option<string>> {
    if fsas == [] then {}
    else FaultedFsas(fsas[..|fsas| - 1]) + (if fsas[|fsas| - 1].fetch.PagingFault? then {fsas[|fsas| - 1].href} else {})
  }

  /** The assignments whose program list stopped answering between pages. */
  function Faulted(devices: seq<Device>): set<Option<string>> {
    if devices == [] then {} else Faulted(devices[..|devices| - 1]) + FaultedFsas(devices[|devices| - 1].fsas)
  }

  /** The programs met. */
  function Seen(visits: seq<Visit>): set<string> {
    if visits == [] then {} else Seen(visits[..|visits| - 1]) + {visits[|visits| - 1].program}
  }

  /** The server lists the program for the device. */
  ghost predicate Listed(visits: seq<Visit>, program: string, device: string) {
    exists v :: v in visits && v.program == program && v.device == device
  }

  lemma ListedLast(visits: seq<Visit>, v: Visit, p: string, d: string)
    ensures Listed(visits + [v], p, d) <==> Listed(visits, p, d) || (p == v.program && d == v.device)
  {
    if Listed(visits, p, d) {
      var x :| x in visits && x.program == p && x.device == d;
      assert x in visits + [v];
    } else if p == v.program && d == v.device {
      assert v in visits + [v];
    }
  }

  /** The primacy the last listing of a program gives. */
  function LastPrimacy(visits: seq<Visit>, program: string): Option<int> {
    if visits == [] then None
    else if visits[|visits| - 1].program == program then Some(visits[|visits| - 1].primacy)
    else LastPrimacy(visits[..|visits| - 1], program)
  }

  /** Some assignment with this href stopped answering between pages. */
  ghost predicate FaultsAt(devices: seq<Device>, href: Option<string>) {
    exists d, f :: d in devices && f in d.fsas && f.href == href && f.fetch.PagingFault?
  }

  lemma {:induction false} FaultedFsasIff(fsas: seq<Fsa>, href: Option<string>)
    ensures href in FaultedFsas(fsas) <==> exists f :: f in fsas && f.href == href && f.fetch.PagingFault?
  {
    if fsas != [] {
      var n := |fsas| - 1;
      FaultedFsasIff(fsas[..n], href);
      assert fsas == fsas[..n] + [fsas[n]];
    }
  }

  lemma {:induction false} FaultedIff(devices: seq<Device>, href: Option<string>)
    ensures href in Faulted(devices) <==> FaultsAt(devices, href)
  {
    if devices != [] {
      var n := |devices| - 1;
      FaultedIff(devices[..n], href);
      FaultedFsasIff(devices[n].fsas, href);
      assert devices == devices[..n] + [devices[n]];
      if FaultsAt(devices[..n], href) {
        var d, f :| d in devices[..n] && f in d.fsas && f.href == href && f.fetch.PagingFault?;
        assert d in devices;
      }
      if f :| f in devices[n].fsas && f.href == href && f.fetch.PagingFault? {
        assert devices[n] in devices;
      }
    }
  }

  lemma {:induction false} SeenConcat(a: seq<Visit>, b: seq<Visit>)
    ensures Seen(a + b) == Seen(a) + Seen(b)
    decreases |b|
  {
    if b == [] {
      assert a + b == a;
    } else {
      assert (a + b)[..|a + b| - 1] == a + b[..|b| - 1];
      SeenConcat(a, b[..|b| - 1]);
    }
  }

  // ---------------------------------------------------------------------------
  // What is listed, from the pages alone

  /** The page has an entry for the program. An entry without a href is for no program. */
  predicate PageHas(page: seq<Program>, p: string) {
    p != "" && exists l :: 0 <= l < |page| && page[l].href == p
  }

  predicate PagesHave(pages: seq<seq<Program>>, p: string) {
    exists k :: 0 <= k < |pages| && PageHas(pages[k], p)
  }

  /** The list of the assignment was read and has the program on one of its pages. */
  predicate FsaHas(f: Fsa, p: string) { f.fetch.Pages? && PagesHave(f.fetch.pages, p) }

  predicate FsasHave(fsas: seq<Fsa>, p: string) { exists j :: 0 <= j < |fsas| && FsaHas(fsas[j], p) }

  /** Some assignment of some device lists the program. */
  predicate Offered(devices: seq<Device>, p: string) {
    exists i :: 0 <= i < |devices| && FsasHave(devices[i].fsas, p)
  }

  /** Some assignment of the device lists the program. */
  predicate OfferedTo(devices: seq<Device>, p: string, d: string) {
    exists i :: 0 <= i < |devices| && devices[i].href == d && FsasHave(devices[i].fsas, p)
  }

  // The primacy of the last entry in reading order: the last device that lists the program, there
  // the last assignment, there the last page, there the last entry.

  predicate PageSays(page: seq<Program>, p: string, q: int) {
    p != "" &&
    exists l :: 0 <= l < |page| && page[l] == Program(p, q) && forall m :: l < m < |page| ==> page[m].href != p
  }

  predicate PagesSay(pages: seq<seq<Program>>, p: string, q: int) {
    exists k :: 0 <= k < |pages| && PageSays(pages[k], p, q) && forall m :: k < m < |pages| ==> !PageHas(pages[m], p)
  }

  predicate FsaSays(f: Fsa, p: string, q: int) { f.fetch.Pages? && PagesSay(f.fetch.pages, p, q) }

  predicate FsasSay(fsas: seq<Fsa>, p: string, q: int) {
    exists j :: 0 <= j < |fsas| && FsaSays(fsas[j], p, q) && forall m :: j < m < |fsas| ==> !FsaHas(fsas[m], p)
  }

  predicate LastSaid(devices: seq<Device>, p: string, q: int) {
    exists i :: 0 <= i < |devices| && FsasSay(devices[i].fsas, p, q)
                && forall m :: i < m < |devices| ==> !FsasHave(devices[m].fsas, p)
  }

  // The assignment of the first entry in reading order.

  predicate FsasFirst(fsas: seq<Fsa>, p: string, href: Option<string>) {
    exists j :: 0 <= j < |fsas| && FsaHas(fsas[j], p) && fsas[j].href == href
                && forall m :: 0 <= m < j ==> !FsaHas(fsas[m], p)
  }

  predicate FirstOffered(devices: seq<Device>, p: string, href: Option<string>) {
    exists i :: 0 <= i < |devices| && FsasFirst(devices[i].fsas, p, href)
                && forall m :: 0 <= m < i ==> !FsasHave(devices[m].fsas, p)
  }

  // ---------------------------------------------------------------------------
  // The visits say the same

  /** The assignment of the first visit to a program. */
  function FirstOrigin(visits: seq<Visit>, p: string): Option<Option<string>> {
    if visits == [] then None
    else
      var before, last := FirstOrigin(visits[..|visits| - 1], p), visits[|visits| - 1];
      if before.Some? then before else if last.program == p then Some(last.fsa) else None
  }

  /** All the visits are to this device. */
  predicate AllTo(visits: seq<Visit>, device: string) { forall v :: v in visits ==> v.device == device }

  lemma {:induction false} ReadConcat(a: seq<Visit>, b: seq<Visit>, p: string)
    ensures LastPrimacy(a + b, p) == if LastPrimacy(b, p).Some? then LastPrimacy(b, p) else LastPrimacy(a, p)
    ensures FirstOrigin(a + b, p) == if FirstOrigin(a, p).Some? then FirstOrigin(a, p) else FirstOrigin(b, p)
    decreases |b|
  {
    if b == [] {
      assert a + b == a;
    } else {
      assert (a + b)[..|a + b| - 1] == a + b[..|b| - 1];
      ReadConcat(a, b[..|b| - 1], p);
    }
  }

  lemma {:induction false} SeenIffRead(visits: seq<Visit>, p: string)
    ensures p in Seen(visits) <==> LastPrimacy(visits, p).Some?
    ensures p in Seen(visits) <==> FirstOrigin(visits, p).Some?
    ensures p in Seen(visits) <==> exists v :: v in visits && v.program == p
  {
    if visits != [] {
      var n := |visits| - 1;
      SeenIffRead(visits[..n], p);
      assert visits == visits[..n] + [visits[n]];
    }
  }

  lemma OneVisit(v: Visit, p: string)
    ensures LastPrimacy([v], p) == (if v.program == p then Some(v.primacy) else None)
    ensures FirstOrigin([v], p) == (if v.program == p then Some(v.fsa) else None)
  {
    assert [v][..0] == [];
  }

  /** The visits of one assignment's page: what the page has and says, from that assignment. */
  ghost predicate ReadsAs(visits: seq<Visit>, p: string, has: bool, device: string) {
    AllTo(visits, device) && (LastPrimacy(visits, p).Some? <==> has)
  }

  lemma ReadsAsConcat(a: seq<Visit>, b: seq<Visit>, p: string, hasA: bool, hasB: bool, device: string)
    requires ReadsAs(a, p, hasA, device) && ReadsAs(b, p, hasB, device)
    ensures ReadsAs(a + b, p, hasA || hasB, device)
    ensures LastPrimacy(a + b, p) == if hasB then LastPrimacy(b, p) else LastPrimacy(a, p)
  {
    ReadConcat(a, b, p);
  }

  lemma PageSaysLast(page: seq<Program>, x: Program, p: string, q: int)
    ensures PageHas(page + [x], p) <==> PageHas(page, p) || (p != "" && x.href == p)
    ensures PageSays(page + [x], p, q) <==> if x.href == p then p != "" && x.primacy == q else PageSays(page, p, q)
  {
    var all, n := page + [x], |page|;
    assert all[n] == x && forall l :: 0 <= l < n ==> all[l] == page[l];
    if PageHas(page, p) {
      var l :| 0 <= l < n && page[l].href == p;
      assert all[l].href == p;
    }
    if PageSays(page, p, q) && x.href != p {
      var l :| 0 <= l < n && page[l] == Program(p, q) && forall m :: l < m < n ==> page[m].href != p;
      assert all[l] == Program(p, q);
    }
  }

  lemma {:induction false} PageReads(device: string, fsa: Option<string>, page: seq<Program>, p: string, q: int)
    ensures var vs := PageVisits(device, fsa, page);
            && ReadsAs(vs, p, PageHas(page, p), device)
            && (LastPrimacy(vs, p) == Some(q) <==> PageSays(page, p, q))
            && (FirstOrigin(vs, p).Some? ==> FirstOrigin(vs, p) == Some(fsa))
  {
    if page != [] {
      var n := |page| - 1;
      var x := page[n];
      PageReads(device, fsa, page[..n], p, q);
      PageSaysLast(page[..n], x, p, q);
      assert page == page[..n] + [x];
      if x.href != "" {
        var v := Visit(x.href, x.primacy, device, fsa);
        ReadConcat(PageVisits(device, fsa, page[..n]), [v], p);
        OneVisit(v, p);
      } else {
        assert PageVisits(device, fsa, page) == PageVisits(device, fsa, page[..n]);
      }
    }
  }

  lemma SaysMeansHas(pages: seq<seq<Program>>, p: string, q: int)
    ensures forall k :: 0 <= k < |pages| && PageSays(pages[k], p, q) ==> PageHas(pages[k], p)
    ensures PagesSay(pages, p, q) ==> PagesHave(pages, p)
  {
  }

  lemma PagesSayLast(pages: seq<seq<Program>>, x: seq<Program>, p: string, q: int)
    ensures PagesHave(pages + [x], p) <==> PagesHave(pages, p) || PageHas(x, p)
    ensures PagesSay(pages + [x], p, q) <==> if PageHas(x, p) then PageSays(x, p, q) else PagesSay(pages, p, q)
  {
    var all, n := pages + [x], |pages|;
    SaysMeansHas(all, p, q);
    assert all[n] == x && forall k :: 0 <= k < n ==> all[k] == pages[k];
    if PagesHave(pages, p) {
      var k :| 0 <= k < n && PageHas(pages[k], p);
      assert PageHas(all[k], p);
    }
    if PagesSay(pages, p, q) && !PageHas(x, p) {
      var k :| 0 <= k < n && PageSays(pages[k], p, q) && forall m :: k < m < n ==> !PageHas(pages[m], p);
      assert PageSays(all[k], p, q);
    }
  }

  lemma {:induction false} PagesRead(device: string, fsa: Option<string>, pages: seq<seq<Program>>, p: string, q: int)
    ensures var vs := PagesVisits(device, fsa, pages);
            && ReadsAs(vs, p, PagesHave(pages, p), device)
            && (LastPrimacy(vs, p) == Some(q) <==> PagesSay(pages, p, q))
            && (FirstOrigin(vs, p).Some? ==> FirstOrigin(vs, p) == Some(fsa))
  {
    if pages != [] {
      var n := |pages| - 1;
      PagesRead(device, fsa, pages[..n], p, q);
      PageReads(device, fsa, pages[n], p, q);
      PagesSayLast(pages[..n], pages[n], p, q);
      assert pages == pages[..n] + [pages[n]];
      ReadConcat(PagesVisits(device, fsa, pages[..n]), PageVisits(device, fsa, pages[n]), p);
    }
  }

  lemma FsaReads(device: string, f: Fsa, p: string, q: int)
    ensures var vs := OneFsaVisits(device, f);
            && ReadsAs(vs, p, FsaHas(f, p), device)
            && (LastPrimacy(vs, p) == Some(q) <==> FsaSays(f, p, q))
            && (FirstOrigin(vs, p).Some? ==> FirstOrigin(vs, p) == Some(f.href))
  {
    PagesRead(device, f.href, f.fetch.Returned(), p, q);
  }

  lemma FsasSayLast(fsas: seq<Fsa>, x: Fsa, p: string, q: int)
    ensures FsasHave(fsas + [x], p) <==> FsasHave(fsas, p) || FsaHas(x, p)
    ensures FsasSay(fsas + [x], p, q) <==> if FsaHas(x, p) then FsaSays(x, p, q) else FsasSay(fsas, p, q)
  {
    var all, n := fsas + [x], |fsas|;
    assert all[n] == x && forall k :: 0 <= k < n ==> all[k] == fsas[k];
    forall f: Fsa ensures FsaSays(f, p, q) ==> FsaHas(f, p) { if f.fetch.Pages? { SaysMeansHas(f.fetch.pages, p, q); } }
    if FsasHave(fsas, p) {
      var k :| 0 <= k < n && FsaHas(fsas[k], p);
      assert FsaHas(all[k], p);
    }
    if FsasSay(fsas, p, q) && !FsaHas(x, p) {
      var k :| 0 <= k < n && FsaSays(fsas[k], p, q) && forall m :: k < m < n ==> !FsaHas(fsas[m], p);
      assert FsaSays(all[k], p, q);
    }
  }

  lemma FsasFirstLast(fsas: seq<Fsa>, x: Fsa, p: string, href: Option<string>)
    ensures FsasFirst(fsas + [x], p, href) <==>
            FsasFirst(fsas, p, href) || (!FsasHave(fsas, p) && FsaHas(x, p) && x.href == href)
  {
    var all, n := fsas + [x], |fsas|;
    assert all[n] == x && forall k :: 0 <= k < n ==> all[k] == fsas[k];
    if FsasFirst(fsas, p, href) {
      var k :| 0 <= k < n && FsaHas(fsas[k], p) && fsas[k].href == href
               && forall m :: 0 <= m < k ==> !FsaHas(fsas[m], p);
      assert FsaHas(all[k], p) && all[k].href == href;
    }
    if !FsasHave(fsas, p) && FsaHas(x, p) && x.href == href {
      assert FsaHas(all[n], p) && forall m :: 0 <= m < n ==> !FsaHas(all[m], p);
    }
  }

  lemma {:induction false} FsasRead(device: string, fsas: seq<Fsa>, p: string, q: int)
    ensures ReadsAs(FsaVisits(device, fsas), p, FsasHave(fsas, p), device)
    ensures LastPrimacy(FsaVisits(device, fsas), p) == Some(q) <==> FsasSay(fsas, p, q)
  {
    if fsas != [] {
      var before, x := fsas[..|fsas| - 1], fsas[|fsas| - 1];
      assert fsas == before + [x];
      FsasRead(device, before, p, q);
      FsasReadOneMore(device, before, x, p, q);
    }
  }

  lemma {:induction false} FsasReadOneMore(device: string, fsas: seq<Fsa>, x: Fsa, p: string, q: int)
    requires ReadsAs(FsaVisits(device, fsas), p, FsasHave(fsas, p), device)
    requires LastPrimacy(FsaVisits(device, fsas), p) == Some(q) <==> FsasSay(fsas, p, q)
    ensures ReadsAs(FsaVisits(device, fsas + [x]), p, FsasHave(fsas + [x], p), device)
    ensures LastPrimacy(FsaVisits(device, fsas + [x]), p) == Some(q) <==> FsasSay(fsas + [x], p, q)
  {
    var a, b := FsaVisits(device, fsas), OneFsaVisits(device, x);
    assert (fsas + [x])[..|fsas|] == fsas;
    assert FsaVisits(device, fsas + [x]) == a + b;
    FsaReads(device, x, p, q);
    FsasSayLast(fsas, x, p, q);
    ReadsAsConcat(a, b, p, FsasHave(fsas, p), FsaHas(x, p), device);
  }

  ghost predicate FirstReadAs(visits: seq<Visit>, fsas: seq<Fsa>, p: string, href: Option<string>) {
    var first := FirstOrigin(visits, p);
    (first.Some? <==> FsasHave(fsas, p)) && (first == Some(href) <==> FsasFirst(fsas, p, href))
  }

  lemma {:induction false} FsasReadFirst(device: string, fsas: seq<Fsa>, p: string, href: Option<string>)
    ensures FirstReadAs(FsaVisits(device, fsas), fsas, p, href)
  {
    if fsas != [] {
      var before, x := fsas[..|fsas| - 1], fsas[|fsas| - 1];
      assert fsas == before + [x];
      FsasReadFirst(device, before, p, href);
      FsasReadFirstOneMore(device, before, x, p, href);
    }
  }

  lemma {:induction false} FsasReadFirstOneMore(device: string, fsas: seq<Fsa>, x: Fsa, p: string, href: Option<string>)
    requires FirstReadAs(FsaVisits(device, fsas), fsas, p, href)
    ensures FirstReadAs(FsaVisits(device, fsas + [x]), fsas + [x], p, href)
  {
    var a, b := FsaVisits(device, fsas), OneFsaVisits(device, x);
    assert (fsas + [x])[..|fsas|] == fsas;
    assert FsaVisits(device, fsas + [x]) == a + b;
    OneFsaFirst(device, x, p);
    FsasSayLast(fsas, x, p, 0);
    FsasFirstLast(fsas, x, p, href);
    ReadConcat(a, b, p);
  }

  lemma OneFsaFirst(device: string, f: Fsa, p: string)
    ensures FirstOrigin(OneFsaVisits(device, f), p) == if FsaHas(f, p) then Some(f.href) else None
  {
    FsaReads(device, f, p, 0);
    SeenIffRead(OneFsaVisits(device, f), p);
  }

  lemma OfferedLast(devices: seq<Device>, x: Device, p: string, d: string)
    ensures Offered(devices + [x], p) <==> Offered(devices, p) || FsasHave(x.fsas, p)
    ensures OfferedTo(devices + [x], p, d) <==> OfferedTo(devices, p, d) || (x.href == d && FsasHave(x.fsas, p))
  {
    var all, n := devices + [x], |devices|;
    assert all[n] == x && forall k :: 0 <= k < n ==> all[k] == devices[k];
    if Offered(devices, p) {
      var k :| 0 <= k < n && FsasHave(devices[k].fsas, p);
      assert FsasHave(all[k].fsas, p);
    }
    if OfferedTo(devices, p, d) {
      var k :| 0 <= k < n && devices[k].href == d && FsasHave(devices[k].fsas, p);
      assert all[k].href == d && FsasHave(all[k].fsas, p);
    }
  }

  lemma {:induction false} FsasSayMeansHave(fsas: seq<Fsa>, p: string, q: int, href: Option<string>)
    ensures FsasSay(fsas, p, q) ==> FsasHave(fsas, p)
    ensures FsasFirst(fsas, p, href) ==> FsasHave(fsas, p)
  {
    FsasRead("", fsas, p, q);
    FsasReadFirst("", fsas, p, href);
  }

  lemma LastSaidLast(devices: seq<Device>, x: Device, p: string, q: int)
    ensures LastSaid(devices + [x], p, q) <==>
            if FsasHave(x.fsas, p) then FsasSay(x.fsas, p, q) else LastSaid(devices, p, q)
  {
    var all, n := devices + [x], |devices|;
    assert all[n] == x && forall k :: 0 <= k < n ==> all[k] == devices[k];
    FsasSayMeansHave(x.fsas, p, q, None);
    if LastSaid(all, p, q) {
      var k :| 0 <= k <= n && FsasSay(all[k].fsas, p, q) && forall m :: k < m <= n ==> !FsasHave(all[m].fsas, p);
      if k < n { assert !FsasHave(all[n].fsas, p) && FsasSay(devices[k].fsas, p, q); }
    }
    if FsasSay(x.fsas, p, q) {
      assert FsasSay(all[n].fsas, p, q);
    }
    if LastSaid(devices, p, q) && !FsasHave(x.fsas, p) {
      var k :| 0 <= k < n && FsasSay(devices[k].fsas, p, q) && forall m :: k < m < n ==> !FsasHave(devices[m].fsas, p);
      assert FsasSay(all[k].fsas, p, q);
    }
  }

  lemma FirstOfferedLast(devices: seq<Device>, x: Device, p: string, href: Option<string>)
    ensures FirstOffered(devices + [x], p, href) <==>
            FirstOffered(devices, p, href) || (!Offered(devices, p) && FsasFirst(x.fsas, p, href))
  {
    var all, n := devices + [x], |devices|;
    assert all[n] == x && forall k :: 0 <= k < n ==> all[k] == devices[k];
    if FirstOffered(all, p, href) {
      var k :| 0 <= k <= n && FsasFirst(all[k].fsas, p, href) && forall m :: 0 <= m < k ==> !FsasHave(all[m].fsas, p);
      if k < n {
        assert FsasFirst(devices[k].fsas, p, href);
      } else {
        assert forall m :: 0 <= m < n ==> !FsasHave(devices[m].fsas, p);
      }
    }
    if FirstOffered(devices, p, href) {
      var k :| 0 <= k < n && FsasFirst(devices[k].fsas, p, href)
               && forall m :: 0 <= m < k ==> !FsasHave(devices[m].fsas, p);
      assert FsasFirst(all[k].fsas, p, href);
    }
    if !Offered(devices, p) && FsasFirst(x.fsas, p, href) {
      assert FsasFirst(all[n].fsas, p, href) && forall m :: 0 <= m < n ==> !FsasHave(all[m].fsas, p);
    }
  }

  lemma ListedConcat(a: seq<Visit>, b: seq<Visit>, p: string, d: string)
    ensures Listed(a + b, p, d) <==> Listed(a, p, d) || Listed(b, p, d)
  {
    if Listed(a, p, d) {
      var v :| v in a && v.program == p && v.device == d;
      assert v in a + b;
    }
    if Listed(b, p, d) {
      var v :| v in b && v.program == p && v.device == d;
      assert v in a + b;
    }
  }

  /**
   What the refresh meets is what the pages list, and nothing else: a program is met exactly when an
   assignment of some device has it on one of its pages, for exactly those devices; the primacy
   met last is that of the last entry in reading order; and the assignment met first is that of
   the first.
   */
  lemma {:induction false} VisitsAreTheListing(devices: seq<Device>, p: string, d: string, q: int, href: Option<string>)
    ensures var vs := Visits(devices);
            && (p in Seen(vs) <==> Offered(devices, p))
            && (Listed(vs, p, d) <==> OfferedTo(devices, p, d))
            && (LastPrimacy(vs, p) == Some(q) <==> LastSaid(devices, p, q))
            && (FirstOrigin(vs, p) == Some(href) <==> FirstOffered(devices, p, href))
  {
    if devices != [] {
      var n := |devices| - 1;
      var x := devices[n];
      var a, b := Visits(devices[..n]), FsaVisits(x.href, x.fsas);
      VisitsAreTheListing(devices[..n], p, d, q, href);
      FsasRead(x.href, x.fsas, p, q);
      FsasReadFirst(x.href, x.fsas, p, href);
      OfferedLast(devices[..n], x, p, d);
      LastSaidLast(devices[..n], x, p, q);
      FirstOfferedLast(devices[..n], x, p, href);
      assert devices == devices[..n] + [x];
      ReadConcat(a, b, p);
      ListedConcat(a, b, p, d);
      SeenConcat(a, b);
      SeenIffRead(a, p);
      SeenIffRead(b, p);
    }
  }
}
