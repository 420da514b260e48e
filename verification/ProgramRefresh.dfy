/**
 The program-to-device mapping (`DeviceMapping`, src/py20305/client/state.py) and the refresh
 of DER programs (`refresh_der_programs`, src/py20305/client/discovery.py). One refresh is
 one step; what the server answers for each function set assignment is given.
 */
module ProgramRefresh {
  import opened ProgramListing
  import opened Wrappers

  // ---------------------------------------------------------------------------
  // The mapping

  datatype Mapping = Mapping(devicesOf: map<string, seq<string>>, programsOf: map<string, seq<string>>)

  function Get(m: map<string, seq<string>>, k: string): seq<string> { if k in m then m[k] else [] }

  function Add(m: Mapping, program: string, device: string): Mapping {
    var programs := Get(m.programsOf, device);
    if program in programs then m
    else Mapping(m.devicesOf[program := Get(m.devicesOf, program) + [device]],
        m.programsOf[device := programs + [program]])
  }

  /** The list without the first occurrence of x. */
  function Without(xs: seq<string>, x: string): seq<string> {
    if xs == [] then [] else if xs[0] == x then xs[1..] else [xs[0]] + Without(xs[1..], x)
  }

  function Unlink(programsOf: map<string, seq<string>>, devices: seq<string>, program: string): map<string, seq<string>>
    decreases |devices|
  {
    if devices == [] then programsOf
    else
      var n := |devices| - 1;
      var rest := Unlink(programsOf, devices[..n], program);
      if devices[n] in rest then rest[devices[n] := Without(rest[devices[n]], program)] else rest
  }

  function Remove(m: Mapping, program: string): Mapping {
    Mapping(m.devicesOf - {program}, Unlink(m.programsOf, Get(m.devicesOf, program), program))
  }

  ghost predicate Unique(xs: seq<string>) { forall i, j :: 0 <= i < j < |xs| ==> xs[i] != xs[j] }

  predicate Linked(m: Mapping, program: string, device: string) { device in Get(m.devicesOf, program) }

  /** The two directions are inverses of each other, and no list repeats an entry. */
  ghost predicate Mutual(m: Mapping) {
    && (forall p, d :: Linked(m, p, d) <==> p in Get(m.programsOf, d))
    && (forall p :: Unique(Get(m.devicesOf, p)))
    && (forall d :: Unique(Get(m.programsOf, d)))
  }

  /** Adding a pair adds that pair and nothing else, once, in both directions, and at the end of the lists. */
  lemma AddIsExact(m: Mapping, program: string, device: string)
    requires Mutual(m)
    ensures Mutual(Add(m, program, device))
    ensures forall p, d :: Linked(Add(m, program, device), p, d) <==> Linked(m, p, d) || (p == program && d == device)
    ensures forall p :: Get(m.devicesOf, p) <= Get(Add(m, program, device).devicesOf, p)
    ensures forall d :: Get(m.programsOf, d) <= Get(Add(m, program, device).programsOf, d)
  {
    var m' := Add(m, program, device);
    if program !in Get(m.programsOf, device) {
      assert !Linked(m, program, device);
      forall p, d
        ensures Linked(m', p, d) <==> Linked(m, p, d) || (p == program && d == device)
        ensures Linked(m', p, d) <==> p in Get(m'.programsOf, d)
      {
        AddPairwise(m, program, device, p, d);
      }
      AppendKeepsUnique(Get(m.devicesOf, program), device);
      AppendKeepsUnique(Get(m.programsOf, device), program);
      forall p ensures Unique(Get(m'.devicesOf, p)) { assert Unique(Get(m.devicesOf, p)); }
      forall d ensures Unique(Get(m'.programsOf, d)) { assert Unique(Get(m.programsOf, d)); }
    }
  }

  lemma AppendKeepsUnique(xs: seq<string>, x: string)
    requires Unique(xs) && x !in xs
    ensures Unique(xs + [x])
  {
  }

  lemma {:induction false} WithoutIsExact(xs: seq<string>, x: string)
    requires Unique(xs)
    ensures Unique(Without(xs, x))
    ensures forall y :: y in Without(xs, x) <==> y in xs && y != x
  {
    if xs != [] {
      assert Unique(xs[1..]);
      WithoutIsExact(xs[1..], x);
      assert xs == [xs[0]] + xs[1..];
      assert xs[0] !in xs[1..];
      if xs[0] != x {
        UniqueCons(xs[0], Without(xs[1..], x));
      }
    }
  }

  /** What is taken out is one occurrence; everything else stays in its order. */
  lemma {:induction false} WithoutTakesOne(xs: seq<string>, x: string) returns (i: nat)
    ensures x !in xs ==> Without(xs, x) == xs
    ensures x in xs ==> i < |xs| && xs[i] == x && Without(xs, x) == xs[..i] + xs[i + 1..]
  {
    i := 0;
    if xs != [] && xs[0] != x {
      var rest := xs[1..];
      var k := WithoutTakesOne(rest, x);
      i := k + 1;
      assert xs == [xs[0]] + rest;
      if x in xs {
        assert xs[..i] == [xs[0]] + rest[..k] && xs[i + 1..] == rest[k + 1..];
      }
    }
  }

  lemma UniqueCons(x: string, xs: seq<string>)
    requires Unique(xs) && x !in xs
    ensures Unique([x] + xs)
  {
  }

  lemma {:induction false} UnlinkIsExact(programsOf: map<string, seq<string>>, devices: seq<string>, program: string,
      d: string)
    requires Unique(devices) && forall x :: Unique(Get(programsOf, x))
    ensures var r := Get(Unlink(programsOf, devices, program), d);
            r == if d in devices then Without(Get(programsOf, d), program) else Get(programsOf, d)
    decreases |devices|
  {
    if devices != [] {
      var n := |devices| - 1;
      assert devices == devices[..n] + [devices[n]];
      assert devices[n] !in devices[..n];
      UnlinkIsExact(programsOf, devices[..n], program, d);
      UnlinkIsExact(programsOf, devices[..n], program, devices[n]);
    }
  }

  /** Removing a program removes its pairs, in both directions, and nothing else; the lists left keep their order. */
  lemma RemoveIsExact(m: Mapping, program: string)
    requires Mutual(m)
    ensures Mutual(Remove(m, program))
    ensures program !in Remove(m, program).devicesOf
    ensures forall p, d :: Linked(Remove(m, program), p, d) <==> Linked(m, p, d) && p != program
    ensures forall p :: p != program ==> Get(Remove(m, program).devicesOf, p) == Get(m.devicesOf, p)
    ensures forall d :: Get(Remove(m, program).programsOf, d) == Without(Get(m.programsOf, d), program)
  {
    var m' := Remove(m, program);
    forall d
      ensures Unique(Get(m'.programsOf, d))
      ensures forall p :: p in Get(m'.programsOf, d) <==> Linked(m, p, d) && p != program
      ensures Get(m'.programsOf, d) == Without(Get(m.programsOf, d), program)
    {
      assert Unique(Get(m.devicesOf, program));
      UnlinkIsExact(m.programsOf, Get(m.devicesOf, program), program, d);
      WithoutIsExact(Get(m.programsOf, d), program);
      var i := WithoutTakesOne(Get(m.programsOf, d), program);
      assert Linked(m, program, d) <==> program in Get(m.programsOf, d);
    }
    forall p ensures Unique(Get(m'.devicesOf, p)) { assert Unique(Get(m.devicesOf, p)); }
  }

  // ---------------------------------------------------------------------------
  // The refresh

  /** A known program: its primacy and the assignment it was discovered from. */
  datatype Known = Known(primacy: int, origin: Option<string>)

  datatype Discovered = Discovered(programs: map<string, Known>, mapping: Mapping)

  /** A visit maps the pair, and updates the program or enters it. */
  function Meet(s: Discovered, v: Visit): Discovered {
    var known :=
      if v.program in s.programs then s.programs[v.program].(primacy := v.primacy) else Known(v.primacy, v.fsa);
    Discovered(s.programs[v.program := known], Add(s.mapping, v.program, v.device))
  }

  function MeetAll(s: Discovered, visits: seq<Visit>): Discovered
    decreases |visits|
  {
    if visits == [] then s else Meet(MeetAll(s, visits[..|visits| - 1]), visits[|visits| - 1])
  }

  function Drop(s: Discovered, hrefs: seq<string>): Discovered
    decreases |hrefs|
  {
    if hrefs == [] then s
    else
      var rest := Drop(s, hrefs[..|hrefs| - 1]);
      Discovered(rest.programs - {hrefs[|hrefs| - 1]}, Remove(rest.mapping, hrefs[|hrefs| - 1]))
  }

  /** The programs a refresh gives up: not listed any more, and not from an assignment that faulted. */
  function Stale(programs: map<string, Known>, seen: set<string>, faulted: set<Option<string>>): set<string> {
    set h | h in programs && h !in seen && programs[h].origin !in faulted
  }

  // ---- what meeting and dropping do --------------------------------------------------

  lemma {:induction false} MeetAllMutual(s: Discovered, visits: seq<Visit>)
    requires Mutual(s.mapping)
    ensures Mutual(MeetAll(s, visits).mapping)
    decreases |visits|
  {
    if visits != [] {
      var n := |visits| - 1;
      MeetAllMutual(s, visits[..n]);
      AddIsExact(MeetAll(s, visits[..n]).mapping, visits[n].program, visits[n].device);
    }
  }

  /** One pair through one addition, in both directions. */
  lemma AddPairwise(m: Mapping, program: string, device: string, p: string, d: string)
    requires Linked(m, p, d) <==> p in Get(m.programsOf, d)
    requires Linked(m, program, device) <==> program in Get(m.programsOf, device)
    ensures var m' := Add(m, program, device);
            && (Linked(m', p, d) <==> Linked(m, p, d) || (p == program && d == device))
            && (Linked(m', p, d) <==> p in Get(m'.programsOf, d))
  {
  }

  lemma {:induction false} MeetAllLinks(s: Discovered, visits: seq<Visit>, p: string, d: string)
    requires forall x, y :: Linked(s.mapping, x, y) <==> x in Get(s.mapping.programsOf, y)
    ensures var m := MeetAll(s, visits).mapping;
            && (Linked(m, p, d) <==> Linked(s.mapping, p, d) || Listed(visits, p, d))
            && (Linked(m, p, d) <==> p in Get(m.programsOf, d))
    decreases |visits|
  {
    if visits == [] {
      assert Linked(s.mapping, p, d) <==> p in Get(s.mapping.programsOf, d);
    } else {
      var n := |visits| - 1;
      var v := visits[n];
      MeetAllLinks(s, visits[..n], p, d);
      MeetAllLinks(s, visits[..n], v.program, v.device);
      AddPairwise(MeetAll(s, visits[..n]).mapping, v.program, v.device, p, d);
      assert visits == visits[..n] + [v];
      ListedLast(visits[..n], v, p, d);
    }
  }

  lemma MeetAllMaps(s: Discovered, visits: seq<Visit>)
    requires Mutual(s.mapping)
    ensures Mutual(MeetAll(s, visits).mapping)
    ensures forall p, d :: Linked(MeetAll(s, visits).mapping, p, d) <==> Linked(s.mapping, p, d) || Listed(visits, p, d)
  {
    MeetAllMutual(s, visits);
    forall p, d ensures Linked(MeetAll(s, visits).mapping, p, d) <==> Linked(s.mapping, p, d) || Listed(visits, p, d) {
      MeetAllLinks(s, visits, p, d);
    }
  }

  /**
   A program met is known afterwards with the primacy last listed for it; one known before keeps
   its origin, and a new one has that of the first visit.
   */
  lemma {:induction false} MeetAllKnows(s: Discovered, visits: seq<Visit>)
    ensures var r := MeetAll(s, visits);
            && r.programs.Keys == s.programs.Keys + Seen(visits)
            && (forall h :: h in s.programs ==> r.programs[h].origin == s.programs[h].origin)
            && (forall h :: h in Seen(visits) && h !in s.programs ==>
                  FirstOrigin(visits, h) == Some(r.programs[h].origin))
            && (forall h :: h in s.programs && h !in Seen(visits) ==> r.programs[h] == s.programs[h])
            && (forall h :: h in Seen(visits) ==> LastPrimacy(visits, h) == Some(r.programs[h].primacy))
    decreases |visits|
  {
    if visits != [] {
      var n := |visits| - 1;
      MeetAllKnows(s, visits[..n]);
      forall h ensures h in Seen(visits[..n]) <==> FirstOrigin(visits[..n], h).Some? { SeenIffRead(visits[..n], h); }
    }
  }

  lemma {:induction false} DropIsExact(s: Discovered, hrefs: seq<string>)
    requires Mutual(s.mapping)
    ensures var r := Drop(s, hrefs);
            && Mutual(r.mapping)
            && r.programs == s.programs - (set h | h in hrefs)
            && (forall h :: h in hrefs ==> h !in r.mapping.devicesOf)
            && (forall p, d :: Linked(r.mapping, p, d) <==> Linked(s.mapping, p, d) && p !in hrefs)
    decreases |hrefs|
  {
    if hrefs != [] {
      var n := |hrefs| - 1;
      DropIsExact(s, hrefs[..n]);
      RemoveIsExact(Drop(s, hrefs[..n]).mapping, hrefs[n]);
      assert hrefs == hrefs[..n] + [hrefs[n]];
    }
  }

  /** Gone: known before, listed nowhere now, and no list of its assignment stopped answering between pages. */
  ghost predicate Withdrawn(s: Discovered, devices: seq<Device>, h: string) {
    h in s.programs && !Offered(devices, h) && !FaultsAt(devices, s.programs[h].origin)
  }

  /** The programs known after a refresh, with primacy and origin. */
  ghost predicate ProgramsExact(s: Discovered, devices: seq<Device>, r: Discovered) {
    && (forall h :: h in r.programs <==> Offered(devices, h) || (h in s.programs && !Withdrawn(s, devices, h)))
    && (forall h :: h in r.programs && Offered(devices, h) ==> LastSaid(devices, h, r.programs[h].primacy))
    && (forall h :: h in r.programs && h !in s.programs ==> FirstOffered(devices, h, r.programs[h].origin))
    && (forall h :: h in r.programs && h in s.programs ==> r.programs[h].origin == s.programs[h].origin)
    && (forall h :: h in r.programs && !Offered(devices, h) ==> r.programs[h] == s.programs[h])
  }

  /** The pairs mapped after a refresh, in both directions, once each. */
  ghost predicate PairsExact(s: Discovered, devices: seq<Device>, r: Discovered) {
    && Mutual(r.mapping)
    && (forall p, d :: Linked(r.mapping, p, d) <==>
          !Withdrawn(s, devices, p) && (Linked(s.mapping, p, d) || OfferedTo(devices, p, d)))
    && (forall p :: Withdrawn(s, devices, p) ==> p !in r.mapping.devicesOf)
    && (forall p, d :: Withdrawn(s, devices, p) ==> p !in Get(r.mapping.programsOf, d))
  }

  lemma StaleIsWithdrawn(s: Discovered, devices: seq<Device>, h: string)
    ensures var met := MeetAll(s, Visits(devices));
            h in Stale(met.programs, Seen(Visits(devices)), Faulted(devices)) <==> Withdrawn(s, devices, h)
  {
    MeetAllKnows(s, Visits(devices));
    VisitsAreTheListing(devices, h, "", 0, None);
    if h in s.programs { FaultedIff(devices, s.programs[h].origin); }
  }

  lemma ProgramsAreExact(s: Discovered, devices: seq<Device>, removed: seq<string>)
    requires Mutual(s.mapping) && forall h :: h in removed <==> Withdrawn(s, devices, h)
    ensures ProgramsExact(s, devices, Drop(MeetAll(s, Visits(devices)), removed))
  {
    var visits := Visits(devices);
    var met := MeetAll(s, visits);
    MeetAllKnows(s, visits);
    MeetAllMutual(s, visits);
    DropIsExact(met, removed);
    var r := Drop(met, removed);
    forall h ensures h in Seen(visits) <==> Offered(devices, h) { VisitsAreTheListing(devices, h, "", 0, None); }
    forall h | h in r.programs && Offered(devices, h) ensures LastSaid(devices, h, r.programs[h].primacy) {
      VisitsAreTheListing(devices, h, "", r.programs[h].primacy, None);
    }
    forall h | h in r.programs && h !in s.programs ensures FirstOffered(devices, h, r.programs[h].origin) {
      VisitsAreTheListing(devices, h, "", 0, r.programs[h].origin);
    }
  }

  lemma PairsAreExact(s: Discovered, devices: seq<Device>, removed: seq<string>)
    requires Mutual(s.mapping) && forall h :: h in removed <==> Withdrawn(s, devices, h)
    ensures PairsExact(s, devices, Drop(MeetAll(s, Visits(devices)), removed))
  {
    var visits := Visits(devices);
    var met := MeetAll(s, visits);
    MeetAllMaps(s, visits);
    DropIsExact(met, removed);
    var r := Drop(met, removed);
    forall p, d ensures Listed(visits, p, d) <==> OfferedTo(devices, p, d) {
      VisitsAreTheListing(devices, p, d, 0, None);
    }
    forall p, d | p in removed ensures p !in Get(r.mapping.programsOf, d) {
      assert Linked(r.mapping, p, d) <==> p in Get(r.mapping.programsOf, d);
    }
    forall p, d ensures Linked(r.mapping, p, d) <==>
                        !Withdrawn(s, devices, p) && (Linked(s.mapping, p, d) || OfferedTo(devices, p, d)) {
      assert Listed(visits, p, d) <==> OfferedTo(devices, p, d);
    }
  }

  /**
   A refresh is exact, told from the pages alone. Afterwards the known programs are those some
   assignment lists and those known before whose assignment faulted between pages; a listed one
   has the primacy of its last entry in reading order, a new one the assignment of its first, an
   old one the assignment it had; a pair is mapped exactly when it was or is listed, once, in
   both directions; and nothing of a withdrawn program is left.
   */
  lemma RefreshIsExact(s: Discovered, devices: seq<Device>, removed: seq<string>)
    requires Mutual(s.mapping) && forall h :: h in removed <==> Withdrawn(s, devices, h)
    ensures var r := Drop(MeetAll(s, Visits(devices)), removed);
            ProgramsExact(s, devices, r) && PairsExact(s, devices, r)
  {
    ProgramsAreExact(s, devices, removed);
    PairsAreExact(s, devices, removed);
  }

  // ---- which unlisted programs survive -------------------------------------------------

  /**
   A known program that the server lists nowhere survives a refresh if and only if a list of the
   assignment it came from stopped answering between pages. A list that answers 404 at once
   does not keep its programs.
   */
  lemma UnlistedSurvivesIffFaulted(s: Discovered, devices: seq<Device>, removed: seq<string>, h: string)
    requires Mutual(s.mapping) && forall x :: x in removed <==> Withdrawn(s, devices, x)
    requires h in s.programs && !Offered(devices, h)
    ensures var r := Drop(MeetAll(s, Visits(devices)), removed);
            && (h in r.programs <==> FaultsAt(devices, s.programs[h].origin))
            && (h in removed <==> !FaultsAt(devices, s.programs[h].origin))
  {
    RefreshIsExact(s, devices, removed);
  }

  /** What discovery leaves for one program of one device. */
  function OnlyProgram(program: string, primacy: int, device: string, fsa: string): Discovered {
    Discovered(map[program := Known(primacy, Some(fsa))], Add(Mapping(map[], map[]), program, device))
  }

  /**
   The documented promise that a 404 keeps the programs does not hold: one device with one
   assignment whose list is answered 404 at once loses the program it had from there, and with
   it the only pair.
   */
  lemma AbsentListLosesPrograms(program: string, primacy: int, device: string, fsa: string, removed: seq<string>)
    requires var s := OnlyProgram(program, primacy, device, fsa);
             forall x :: x in removed <==> Withdrawn(s, [Device(device, [Fsa(Some(fsa), Absent)])], x)
    ensures var s := OnlyProgram(program, primacy, device, fsa);
            var r := Drop(MeetAll(s, Visits([Device(device, [Fsa(Some(fsa), Absent)])])), removed);
            && Linked(s.mapping, program, device) && program in removed && program !in r.programs
            && forall p, d :: !Linked(r.mapping, p, d) && p !in Get(r.mapping.programsOf, d)
  {
    var s, f := OnlyProgram(program, primacy, device, fsa), Fsa(Some(fsa), Absent);
    var devices := [Device(device, [f])];
    OnlyPair(program, device);
    NothingOffered(devices, f);
    RefreshIsExact(s, devices, removed);
    var r := Drop(MeetAll(s, Visits(devices)), removed);
    forall p, d ensures !Linked(r.mapping, p, d) && p !in Get(r.mapping.programsOf, d) {
      assert Linked(s.mapping, p, d) ==> p == program;
      assert Linked(r.mapping, p, d) <==> p in Get(r.mapping.programsOf, d);
    }
  }

  lemma NothingOffered(devices: seq<Device>, f: Fsa)
    requires !f.fetch.Pages? && |devices| == 1 && devices[0].fsas == [f]
    ensures forall p :: !Offered(devices, p)
    ensures forall p, d :: !OfferedTo(devices, p, d)
  {
    forall p ensures !FsasHave(devices[0].fsas, p) { assert !FsaHas(f, p); }
  }

  lemma OnlyPair(program: string, device: string)
    ensures var m := Add(Mapping(map[], map[]), program, device);
            Mutual(m) && forall p, d :: Linked(m, p, d) <==> p == program && d == device
  {
    AddIsExact(Mapping(map[], map[]), program, device);
  }

  lemma {:induction false} MeetAllConcat(s: Discovered, a: seq<Visit>, b: seq<Visit>)
    ensures MeetAll(s, a + b) == MeetAll(MeetAll(s, a), b)
    decreases |b|
  {
    if b == [] {
      assert a + b == a;
    } else {
      assert (a + b)[..|a + b| - 1] == a + b[..|b| - 1];
      MeetAllConcat(s, a, b[..|b| - 1]);
    }
  }

  // ---------------------------------------------------------------------------
  // The objects of the source

  class State {
    var devicesOf: map<string, seq<string>>
    var programsOf: map<string, seq<string>>
    var programs: map<string, Known>

    ghost function View(): Discovered
      reads this
    {
      Discovered(programs, Mapping(devicesOf, programsOf))
    }

    constructor ()
      ensures View() == Discovered(map[], Mapping(map[], map[])) && Mutual(View().mapping)
    {
      devicesOf, programsOf, programs := map[], map[], map[];
    }

    /** Adds a pair; adding it twice adds it once. */
    method AddPair(program: string, device: string)
      modifies this`devicesOf, this`programsOf
      ensures Mapping(devicesOf, programsOf) == Add(old(Mapping(devicesOf, programsOf)), program, device)
    {
      var current := Get(programsOf, device);
      if program in current {
        return;
      }
      programsOf := programsOf[device := current + [program]];
      devicesOf := devicesOf[program := Get(devicesOf, program) + [device]];
    }

    method RemoveProgram(program: string)
      modifies this`devicesOf, this`programsOf
      ensures Mapping(devicesOf, programsOf) == Remove(old(Mapping(devicesOf, programsOf)), program)
    {
      var devices := Get(devicesOf, program);
      devicesOf := devicesOf - {program};
      for i := 0 to |devices|
        invariant programsOf == Unlink(old(programsOf), devices[..i], program)
        invariant devicesOf == old(devicesOf) - {program}
      {
        assert devices[..i + 1][..i] == devices[..i];
        if devices[i] in programsOf {
          programsOf := programsOf[devices[i] := Without(programsOf[devices[i]], program)];
        }
      }
      assert devices[..|devices|] == devices;
    }

    method MeetProgram(device: string, fsa: Option<string>, x: Program, seen: set<string>) returns (seen': set<string>)
      requires x.href != ""
      modifies this
      ensures View() == Meet(old(View()), Visit(x.href, x.primacy, device, fsa)) && seen' == seen + {x.href}
    {
      seen' := seen + {x.href};
      AddPair(x.href, device);
      if x.href in programs {
        programs := programs[x.href := programs[x.href].(primacy := x.primacy)];
      } else {
        programs := programs[x.href := Known(x.primacy, fsa)];
      }
    }

    method MeetPage(device: string, fsa: Option<string>, page: seq<Program>, seen: set<string>)
        returns (seen': set<string>)
      modifies this
      ensures View() == MeetAll(old(View()), PageVisits(device, fsa, page))
      ensures seen' == seen + Seen(PageVisits(device, fsa, page))
    {
      seen' := seen;
      ghost var done: seq<Visit> := [];
      for i := 0 to |page|
        invariant done == PageVisits(device, fsa, page[..i])
        invariant View() == MeetAll(old(View()), done) && seen' == seen + Seen(done)
      {
        PageStep(device, fsa, page, i);
        if page[i].href != "" {
          ghost var v := Visit(page[i].href, page[i].primacy, device, fsa);
          OneMore(old(View()), done, v);
          seen' := MeetProgram(device, fsa, page[i], seen');
          done := done + [v];
        }
      }
      assert page[..|page|] == page;
    }

    method MeetPages(device: string, fsa: Option<string>, pages: seq<seq<Program>>, seen: set<string>)
        returns (seen': set<string>)
      modifies this
      ensures View() == MeetAll(old(View()), PagesVisits(device, fsa, pages))
      ensures seen' == seen + Seen(PagesVisits(device, fsa, pages))
    {
      seen' := seen;
      ghost var done: seq<Visit> := [];
      for i := 0 to |pages|
        invariant done == PagesVisits(device, fsa, pages[..i])
        invariant View() == MeetAll(old(View()), done) && seen' == seen + Seen(done)
      {
        assert pages[..i + 1][..i] == pages[..i];
        ghost var more := PageVisits(device, fsa, pages[i]);
        ManyMore(old(View()), done, more);
        seen' := MeetPage(device, fsa, pages[i], seen');
        done := done + more;
      }
      assert pages[..|pages|] == pages;
    }

    /** One assignment; a list that faulted is remembered instead of read. */
    method MeetFsa(device: string, f: Fsa, seen: set<string>, faulted: set<Option<string>>)
      returns (seen': set<string>, faulted': set<Option<string>>)
      modifies this
      ensures View() == MeetAll(old(View()), OneFsaVisits(device, f))
      ensures seen' == seen + Seen(OneFsaVisits(device, f))
      ensures faulted' == faulted + (if f.fetch.PagingFault? then {f.href} else {})
    {
      seen', faulted' := seen, faulted;
      if f.fetch.NoLink? {
        return;
      }
      if f.fetch.PagingFault? {
        faulted' := faulted' + {f.href};
        return;
      }
      seen' := MeetPages(device, f.href, f.fetch.Returned(), seen');
    }

    method MeetDevice(device: Device, seen: set<string>, faulted: set<Option<string>>)
      returns (seen': set<string>, faulted': set<Option<string>>)
      modifies this
      ensures View() == MeetAll(old(View()), FsaVisits(device.href, device.fsas))
      ensures seen' == seen + Seen(FsaVisits(device.href, device.fsas))
      ensures faulted' == faulted + FaultedFsas(device.fsas)
    {
      seen', faulted' := seen, faulted;
      var fsas := device.fsas;
      ghost var done: seq<Visit> := [];
      ghost var bad: set<Option<string>> := {};
      for i := 0 to |fsas|
        invariant done == FsaVisits(device.href, fsas[..i]) && bad == FaultedFsas(fsas[..i])
        invariant View() == MeetAll(old(View()), done) && seen' == seen + Seen(done)
        invariant faulted' == faulted + bad
      {
        FsaStep(device.href, fsas, i);
        ghost var more := OneFsaVisits(device.href, fsas[i]);
        ManyMore(old(View()), done, more);
        seen', faulted' := MeetFsa(device.href, fsas[i], seen', faulted');
        done, bad := done + more, bad + (if fsas[i].fetch.PagingFault? then {fsas[i].href} else {});
      }
      assert fsas[..|fsas|] == fsas;
    }

    method MeetDevices(devices: seq<Device>) returns (seen: set<string>, faulted: set<Option<string>>)
      modifies this
      ensures View() == MeetAll(old(View()), Visits(devices))
      ensures seen == Seen(Visits(devices)) && faulted == Faulted(devices)
    {
      seen, faulted := {}, {};
      ghost var done: seq<Visit> := [];
      for i := 0 to |devices|
        invariant done == Visits(devices[..i])
        invariant View() == MeetAll(old(View()), done) && seen == Seen(done)
        invariant faulted == Faulted(devices[..i])
      {
        assert devices[..i + 1][..i] == devices[..i];
        ghost var more := FsaVisits(devices[i].href, devices[i].fsas);
        ManyMore(old(View()), done, more);
        seen, faulted := MeetDevice(devices[i], seen, faulted);
        done := done + more;
      }
      assert devices[..|devices|] == devices;
    }

    /** Drops every stale program. */
    method Prune(seen: set<string>, faulted: set<Option<string>>) returns (removed: seq<string>)
      modifies this
      ensures View() == Drop(old(View()), removed)
      ensures (set h | h in removed) == Stale(old(programs), seen, faulted)
    {
      removed := [];
      var todo := programs.Keys;
      while todo != {}
        invariant todo <= old(programs).Keys && todo <= programs.Keys
        invariant View() == Drop(old(View()), removed)
        invariant forall h :: h in programs ==> h in old(programs) && programs[h] == old(programs)[h]
        invariant forall h :: h in removed <==> h in Stale(old(programs), seen, faulted) && h !in todo
        decreases todo
      {
        var href :| href in todo;
        if href !in seen && programs[href].origin !in faulted {
          assert (removed + [href])[..|removed|] == removed;
          programs := programs - {href};
          RemoveProgram(href);
          removed := removed + [href];
        }
        todo := todo - {href};
      }
    }

    /** The refresh: meet what the server lists, then drop what is stale. */
    method RefreshPrograms(devices: seq<Device>) returns (removed: seq<string>)
      requires Mutual(View().mapping)
      modifies this
      ensures devices == [] ==> removed == [] && View() == old(View())
      ensures devices != [] ==> ProgramsExact(old(View()), devices, View()) && PairsExact(old(View()), devices, View())
      ensures devices != [] ==> forall h :: h in removed <==> Withdrawn(old(View()), devices, h)
      ensures Mutual(View().mapping)
    {
      if devices == [] {
        return [];
      }
      var seen, faulted := MeetDevices(devices);
      removed := Prune(seen, faulted);
      ghost var s := old(View());
      forall h ensures h in removed <==> Withdrawn(s, devices, h) { StaleIsWithdrawn(s, devices, h); }
      RefreshIsExact(s, devices, removed);
    }
  }

  lemma ManyMore(s: Discovered, visits: seq<Visit>, more: seq<Visit>)
    ensures MeetAll(s, visits + more) == MeetAll(MeetAll(s, visits), more)
    ensures Seen(visits + more) == Seen(visits) + Seen(more)
  {
    MeetAllConcat(s, visits, more);
    SeenConcat(visits, more);
  }

  lemma PageStep(device: string, fsa: Option<string>, page: seq<Program>, i: nat)
    requires i < |page|
    ensures PageVisits(device, fsa, page[..i + 1])
         == PageVisits(device, fsa, page[..i])
            + (if page[i].href == "" then [] else [Visit(page[i].href, page[i].primacy, device, fsa)])
    ensures page[i].href == "" ==> PageVisits(device, fsa, page[..i + 1]) == PageVisits(device, fsa, page[..i])
  {
    assert page[..i + 1][..i] == page[..i];
  }

  lemma FsaStep(device: string, fsas: seq<Fsa>, i: nat)
    requires i < |fsas|
    ensures FsaVisits(device, fsas[..i + 1]) == FsaVisits(device, fsas[..i]) + OneFsaVisits(device, fsas[i])
    ensures FaultedFsas(fsas[..i + 1])
         == FaultedFsas(fsas[..i]) + (if fsas[i].fetch.PagingFault? then {fsas[i].href} else {})
  {
    assert fsas[..i + 1][..i] == fsas[..i];
  }

  lemma OneMore(s: Discovered, visits: seq<Visit>, v: Visit)
    ensures MeetAll(s, visits + [v]) == Meet(MeetAll(s, visits), v)
    ensures Seen(visits + [v]) == Seen(visits) + {v.program}
  {
    assert (visits + [v])[..|visits|] == visits;
  }
}
