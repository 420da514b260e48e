/**
 Tracking of default controls (src/py20305/events/dderc.py): which DefaultDERControl was
 applied to which device by which program, and at what primacy. A lower number is a higher
 priority. Devices, programs and controls are named by strings.
 */
module DdercTracker {

  datatype Entry = Entry(mrid: string, primacy: int)

  /** Keyed by device and program. */
  type Table = map<(string, string), Entry>

  predicate OtherProgramsAllow(t: Table, device: string, program: string, primacy: int) {
    forall k :: k in t && k.0 == device && k.1 != program ==> primacy <= t[k].primacy
  }

  /** The check at startup and rediscovery. */
  predicate ShouldApplyInitial(t: Table, device: string, program: string, e: Entry) {
    && OtherProgramsAllow(t, device, program, e.primacy)
    && ((device, program) in t ==>
          var existing := t[(device, program)];
          e.primacy < existing.primacy || (e.primacy == existing.primacy && e.mrid != existing.mrid))
  }

  // ---------------------------------------------------------------------------
  // Check-then-record

  /** A default control a program publishes for a device. */
  datatype Offer = Offer(program: string, entry: Entry)

  /** The table, and what each device was last told to apply. */
  datatype State = State(table: Table, last: map<string, Offer>)

  const EMPTY := State(map[], map[])

  datatype Action =
    | Initial(device: string, offer: Offer)
    | ClearDevices(devices: set<string>)
    | ClearAll

  function Step(s: State, a: Action): State {
    match a
    case Initial(d, o) =>
      if ShouldApplyInitial(s.table, d, o.program, o.entry)
      then State(s.table[(d, o.program) := o.entry], s.last[d := o]) else s
    case ClearDevices(ds) => s.(table := map k | k in s.table && k.0 !in ds :: s.table[k])
    case ClearAll => s.(table := map[])
  }

  function Run(s: State, actions: seq<Action>): State
    decreases |actions|
  {
    if actions == [] then s else Step(Run(s, actions[..|actions| - 1]), actions[|actions| - 1])
  }

  /** A device with anything recorded was last given a recorded control, and no recorded one has a better primacy. */
  ghost predicate LastIsBest(s: State) {
    forall k :: k in s.table ==>
      && k.0 in s.last
      && (k.0, s.last[k.0].program) in s.table
      && s.table[(k.0, s.last[k.0].program)] == s.last[k.0].entry
      && s.last[k.0].entry.primacy <= s.table[k].primacy
  }

  lemma StepKeepsLastIsBest(s: State, a: Action)
    requires LastIsBest(s)
    ensures LastIsBest(Step(s, a))
  {
    if a.Initial? && ShouldApplyInitial(s.table, a.device, a.offer.program, a.offer.entry) {
      var s' := Step(s, a);
      forall k | k in s'.table
        ensures k.0 in s'.last && (k.0, s'.last[k.0].program) in s'.table
        ensures s'.table[(k.0, s'.last[k.0].program)] == s'.last[k.0].entry
        ensures s'.last[k.0].entry.primacy <= s'.table[k].primacy
      {
        if k != (a.device, a.offer.program) {
          assert k in s.table;
        }
      }
    }
  }

  /**
   Over every run of check-then-record applications and clearings, a device never holds a worse
   control than one recorded for it.
   */
  lemma {:induction false} LastAppliedIsBest(actions: seq<Action>)
    ensures LastIsBest(Run(EMPTY, actions))
  {
    if actions != [] {
      LastAppliedIsBest(actions[..|actions| - 1]);
      StepKeepsLastIsBest(Run(EMPTY, actions[..|actions| - 1]), actions[|actions| - 1]);
    }
  }

  // ---------------------------------------------------------------------------
  // Passes over the programs of a device

  function Pass(s: State, d: string, offers: seq<Offer>): State
    decreases |offers|
  {
    if offers == [] then s
    else Step(Pass(s, d, offers[..|offers| - 1]), Initial(d, offers[|offers| - 1]))
  }

  /** How many of the offers a pass applies. */
  function Applied(s: State, d: string, offers: seq<Offer>): nat
    decreases |offers|
  {
    if offers == [] then 0
    else
      var n := |offers| - 1;
      Applied(s, d, offers[..n])
      + (if ShouldApplyInitial(Pass(s, d, offers[..n]).table, d, offers[n].program, offers[n].entry) then 1 else 0)
  }

  /** Within a pass, entries for the device only ever get better, and none is removed. */
  lemma {:induction false} PassImproves(s: State, d: string, offers: seq<Offer>, k: (string, string))
    requires k in s.table
    ensures k in Pass(s, d, offers).table && Pass(s, d, offers).table[k].primacy <= s.table[k].primacy
    decreases |offers|
  {
    if offers != [] { PassImproves(s, d, offers[..|offers| - 1], k); }
  }

  /** Some recorded entry of the device is at least as good as the primacy given. */
  ghost predicate Covered(s: State, d: string, primacy: int) {
    exists k :: k in s.table && k.0 == d && s.table[k].primacy <= primacy
  }

  lemma {:induction false} PassCovers(s: State, d: string, offers: seq<Offer>, i: nat)
    requires i < |offers|
    ensures Covered(Pass(s, d, offers), d, offers[i].entry.primacy)
    decreases |offers|
  {
    var n := |offers| - 1;
    var before, o := Pass(s, d, offers[..n]), offers[n];
    if i < n {
      PassCovers(s, d, offers[..n], i);
      var k :| k in before.table && k.0 == d && before.table[k].primacy <= offers[..n][i].entry.primacy;
      assert k in Pass(s, d, offers).table;
    } else if ShouldApplyInitial(before.table, d, o.program, o.entry) {
      assert (d, o.program) in Pass(s, d, offers).table;
    } else if !OtherProgramsAllow(before.table, d, o.program, o.entry.primacy) {
      var k :| k in before.table && k.0 == d && k.1 != o.program && o.entry.primacy > before.table[k].primacy;
      assert k in Pass(s, d, offers).table;
    } else {
      assert (d, o.program) in Pass(s, d, offers).table;
    }
  }

  lemma {:induction false} PassIsRun(d: string, offers: seq<Offer>)
    ensures LastIsBest(Pass(EMPTY, d, offers))
    ensures forall k :: k in Pass(EMPTY, d, offers).table ==>
              k.0 == d && Offer(k.1, Pass(EMPTY, d, offers).table[k]) in offers
  {
    if offers != [] {
      var n := |offers| - 1;
      PassIsRun(d, offers[..n]);
      StepKeepsLastIsBest(Pass(EMPTY, d, offers[..n]), Initial(d, offers[n]));
    }
  }

  /**
   One pass over the programs, in any order, from an empty table leaves the device with one of
   the offered controls, and none of the offers has a better primacy.
   */
  lemma OnePassFindsBest(d: string, offers: seq<Offer>)
    requires offers != []
    ensures var s := Pass(EMPTY, d, offers);
            d in s.last && s.last[d] in offers
            && forall o :: o in offers ==> s.last[d].entry.primacy <= o.entry.primacy
  {
    var s := Pass(EMPTY, d, offers);
    PassIsRun(d, offers);
    forall o | o in offers ensures d in s.last && s.last[d] in offers && s.last[d].entry.primacy <= o.entry.primacy {
      var i :| 0 <= i < |offers| && offers[i] == o;
      PassCovers(EMPTY, d, offers, i);
      var k :| k in s.table && k.0 == d && s.table[k].primacy <= o.entry.primacy;
      assert (d, s.last[d].program) in s.table;
    }
    assert offers[0] in offers;
  }

  // ---------------------------------------------------------------------------
  // A second pass

  /** The offer would not be applied. */
  predicate Settled(s: State, d: string, o: Offer) { !ShouldApplyInitial(s.table, d, o.program, o.entry) }

  /** A pass applies nothing exactly when every offer is settled beforehand, and then changes nothing. */
  lemma {:induction false} SilentIffSettled(s: State, d: string, offers: seq<Offer>)
    ensures Applied(s, d, offers) == 0 <==> forall o :: o in offers ==> Settled(s, d, o)
    ensures Applied(s, d, offers) == 0 ==> Pass(s, d, offers) == s
    decreases |offers|
  {
    if offers != [] {
      var n := |offers| - 1;
      SilentIffSettled(s, d, offers[..n]);
      assert offers[n] in offers && forall o :: o in offers <==> o in offers[..n] || o == offers[n];
    }
  }

  /** No entry for the device, recorded or offered, is better than m. */
  ghost predicate Least(s: State, d: string, offers: seq<Offer>, m: int) {
    && (forall o :: o in offers ==> m <= o.entry.primacy)
    && (forall k :: k in s.table && k.0 == d ==> m <= s.table[k].primacy)
  }

  /** Two offers of one program that differ in their control alone. */
  predicate Rivals(a: Offer, b: Offer) {
    a.program == b.program && a.entry.primacy == b.entry.primacy && a.entry.mrid != b.entry.mrid
  }

  /** Some program offers two controls at the best primacy of all that is recorded and offered. */
  ghost predicate Contested(s: State, d: string, offers: seq<Offer>) {
    exists a, b :: a in offers && b in offers && Rivals(a, b) && Least(s, d, offers, a.entry.primacy)
  }

  /** What a pass leaves for the device was there before or was offered. */
  lemma {:induction false} PassOrigin(s: State, d: string, offers: seq<Offer>, k: (string, string))
    requires k in Pass(s, d, offers).table
    ensures var e := Pass(s, d, offers).table[k];
            (k in s.table && s.table[k] == e) || (k.0 == d && Offer(k.1, e) in offers)
    decreases |offers|
  {
    if offers != [] {
      var n := |offers| - 1;
      StepOrigin(Pass(s, d, offers[..n]), d, offers[n], k);
      if k in Pass(s, d, offers[..n]).table {
        PassOrigin(s, d, offers[..n], k);
      }
    }
  }

  lemma StepOrigin(s: State, d: string, o: Offer, k: (string, string))
    requires k in Step(s, Initial(d, o)).table
    ensures var e := Step(s, Initial(d, o)).table[k];
            (k in s.table && s.table[k] == e) || (k == (d, o.program) && e == o.entry)
  {
  }

  /** Passing over more offers later is passing over them from there. */
  lemma {:induction false} PassConcat(s: State, d: string, a: seq<Offer>, b: seq<Offer>)
    ensures Pass(s, d, a + b) == Pass(Pass(s, d, a), d, b)
    decreases |b|
  {
    if b == [] {
      assert a + b == a;
    } else {
      assert (a + b)[..|a + b| - 1] == a + b[..|b| - 1];
      PassConcat(s, d, a, b[..|b| - 1]);
    }
  }

  lemma PassKeepsLeast(s: State, d: string, offers: seq<Offer>, m: int)
    requires Least(s, d, offers, m)
    ensures Least(Pass(s, d, offers), d, offers, m)
  {
    var s' := Pass(s, d, offers);
    forall k | k in s'.table && k.0 == d ensures m <= s'.table[k].primacy {
      PassOrigin(s, d, offers, k);
    }
  }

  /** An offer just met is recorded, or a better one of its program is, or another program's is strictly better. */
  lemma MetOffer(s: State, d: string, o: Offer)
    ensures var t := Step(s, Initial(d, o)).table;
            || ((d, o.program) in t && (t[(d, o.program)] == o.entry || t[(d, o.program)].primacy < o.entry.primacy))
            || exists k :: k in t && k.0 == d && k.1 != o.program && t[k].primacy < o.entry.primacy
  {
    var t := Step(s, Initial(d, o)).table;
    if !OtherProgramsAllow(s.table, d, o.program, o.entry.primacy) {
      var k :| k in s.table && k.0 == d && k.1 != o.program && o.entry.primacy > s.table[k].primacy;
      assert k in t;
    }
  }

  /** An offer that a pass leaves unsettled was replaced by a rival that came after it. */
  lemma UnsettledHasRival(s: State, d: string, offers: seq<Offer>, i: nat)
    requires i < |offers| && !Settled(Pass(s, d, offers), d, offers[i])
    ensures exists b :: b in offers && Rivals(offers[i], b)
    ensures Least(Pass(s, d, offers), d, [], offers[i].entry.primacy)
  {
    var o, rest := offers[i], offers[i + 1..];
    var before := Pass(s, d, offers[..i]);
    var met, s' := Step(before, Initial(d, o)), Pass(s, d, offers);
    assert offers == offers[..i] + [o] + rest && (offers[..i] + [o])[..i] == offers[..i];
    PassConcat(s, d, offers[..i] + [o], rest);
    assert s' == Pass(met, d, rest);
    MetOffer(before, d, o);
    forall k | k in met.table ensures k in s'.table && s'.table[k].primacy <= met.table[k].primacy {
      PassImproves(met, d, rest, k);
    }
    var own := (d, o.program);
    assert own in met.table && met.table[own] == o.entry;
    PassOrigin(met, d, rest, own);
    assert Rivals(o, Offer(o.program, s'.table[own]));
    assert Offer(o.program, s'.table[own]) in offers;
  }

  lemma UnsettledMeansContested(s: State, d: string, offers: seq<Offer>, i: nat)
    requires i < |offers| && !Settled(Pass(s, d, offers), d, offers[i])
    ensures Contested(s, d, offers)
  {
    var s', o := Pass(s, d, offers), offers[i];
    UnsettledHasRival(s, d, offers, i);
    var b :| b in offers && Rivals(o, b);
    forall x | x in offers ensures o.entry.primacy <= x.entry.primacy {
      var j :| 0 <= j < |offers| && offers[j] == x;
      PassCovers(s, d, offers, j);
      var k :| k in s'.table && k.0 == d && s'.table[k].primacy <= x.entry.primacy;
    }
    forall k | k in s.table && k.0 == d ensures o.entry.primacy <= s.table[k].primacy {
      PassImproves(s, d, offers, k);
    }
    assert o in offers && Least(s, d, offers, o.entry.primacy);
  }

  /** In a contested state one of the two rivals is always unsettled after a pass. */
  lemma ContestedStaysUnsettled(s: State, d: string, offers: seq<Offer>, a: Offer, b: Offer)
    requires a in offers && b in offers && Rivals(a, b) && Least(s, d, offers, a.entry.primacy)
    ensures !Settled(Pass(s, d, offers), d, a) || !Settled(Pass(s, d, offers), d, b)
  {
    PassKeepsLeast(s, d, offers, a.entry.primacy);
  }

  /**
   The second pass, exactly: from any state, and whatever is offered in whatever order, a second
   pass over unchanged offers applies nothing if and only if no program offers two different
   controls at the best primacy there is.
   */
  lemma SecondPassIsSilent(s: State, d: string, offers: seq<Offer>)
    ensures var s' := Pass(s, d, offers);
            && (Applied(s', d, offers) == 0 <==> !Contested(s, d, offers))
            && (!Contested(s, d, offers) ==> Pass(s', d, offers) == s')
  {
    var s' := Pass(s, d, offers);
    SilentIffSettled(s', d, offers);
    if Contested(s, d, offers) {
      var a, b :| a in offers && b in offers && Rivals(a, b) && Least(s, d, offers, a.entry.primacy);
      ContestedStaysUnsettled(s, d, offers, a, b);
    } else if o :| o in offers && !Settled(s', d, o) {
      var i :| 0 <= i < |offers| && offers[i] == o;
      UnsettledMeansContested(s, d, offers, i);
    }
  }

  /** The state after n passes over the same offers. */
  function Passes(s: State, d: string, offers: seq<Offer>, n: nat): State {
    if n == 0 then s else Pass(Passes(s, d, offers, n - 1), d, offers)
  }

  lemma {:induction false} PassesKeepContested(s: State, d: string, offers: seq<Offer>, n: nat)
    requires Contested(s, d, offers)
    ensures Contested(Passes(s, d, offers, n), d, offers)
    decreases n
  {
    if n > 0 {
      PassesKeepContested(s, d, offers, n - 1);
      var t := Passes(s, d, offers, n - 1);
      var a, b :| a in offers && b in offers && Rivals(a, b) && Least(t, d, offers, a.entry.primacy);
      PassKeepsLeast(t, d, offers, a.entry.primacy);
      assert Least(Passes(s, d, offers, n), d, offers, a.entry.primacy);
    }
  }

  /** Contested controls replace each other for ever: no later pass is silent. */
  lemma ContestNeverEnds(s: State, d: string, offers: seq<Offer>, n: nat)
    requires Contested(s, d, offers) && n > 0
    ensures Applied(Passes(s, d, offers, n), d, offers) > 0
  {
    var t := Passes(s, d, offers, n - 1);
    PassesKeepContested(s, d, offers, n - 1);
    SecondPassIsSilent(t, d, offers);
    assert Passes(s, d, offers, n) == Pass(t, d, offers);
  }

  /** One default control per program is what the event processor offers: then the second pass is silent. */
  ghost predicate DistinctPrograms(offers: seq<Offer>) {
    forall i, j :: 0 <= i < j < |offers| ==> offers[i].program != offers[j].program
  }

  lemma DistinctProgramsSettle(s: State, d: string, offers: seq<Offer>)
    requires DistinctPrograms(offers)
    ensures var s' := Pass(s, d, offers); Pass(s', d, offers) == s' && Applied(s', d, offers) == 0
  {
    SecondPassIsSilent(s, d, offers);
  }

  // ---------------------------------------------------------------------------
  // Clearing

  /**
   After a clearing a device takes the next control it is offered, whatever its primacy, and the
   others decide as before.
   */
  lemma ClearedTakesAnyOffer(s: State, devices: set<string>, d: string, o: Offer)
    ensures var s' := Step(s, ClearDevices(devices));
            if d in devices
            then Step(s', Initial(d, o)) == State(s'.table[(d, o.program) := o.entry], s'.last[d := o])
            else Settled(s', d, o) <==> Settled(s, d, o)
  {
    var s' := Step(s, ClearDevices(devices));
    assert forall k :: k in s'.table <==> k in s.table && k.0 !in devices;
  }

  /** After clearing everything every device does. */
  lemma ClearedAllTakesAnyOffer(s: State, d: string, o: Offer)
    ensures Step(Step(s, ClearAll), Initial(d, o)) == State(map[(d, o.program) := o.entry], s.last[d := o])
  {
  }

  // ---------------------------------------------------------------------------
  // The object of the source

  class Tracker {
    var applied: Table
    ghost var last: map<string, Offer>

    ghost function View(): State
      reads this
    {
      State(applied, last)
    }

    constructor ()
      ensures View() == EMPTY
    {
      applied, last := map[], map[];
    }

    method CheckInitial(device: string, program: string, e: Entry) returns (apply: bool)
      ensures apply == ShouldApplyInitial(applied, device, program, e)
      ensures apply <==>
              && (forall k :: k in applied && k.0 == device && k.1 != program ==> applied[k].primacy >= e.primacy)
              && ((device, program) !in applied || e.primacy < applied[(device, program)].primacy
                  || (e.primacy == applied[(device, program)].primacy && e.mrid != applied[(device, program)].mrid))
    {
      var todo := applied.Keys;
      while todo != {}
        invariant todo <= applied.Keys
        invariant forall k :: k in applied && k !in todo && k.0 == device && k.1 != program ==>
                    e.primacy <= applied[k].primacy
        decreases todo
      {
        var k :| k in todo;
        if k.0 == device && k.1 != program && applied[k].primacy < e.primacy {
          return false;
        }
        todo := todo - {k};
      }
      if (device, program) !in applied {
        return true;
      }
      var existing := applied[(device, program)];
      if e.primacy < existing.primacy {
        return true;
      }
      return e.primacy == existing.primacy && e.mrid != existing.mrid;
    }

    /** The check followed by the record, as the initial application makes them. */
    method ApplyInitial(device: string, o: Offer) returns (apply: bool)
      modifies this
      ensures apply == ShouldApplyInitial(old(applied), device, o.program, o.entry)
      ensures View() == Step(old(View()), Initial(device, o))
      ensures applied == if apply then old(applied)[(device, o.program) := o.entry] else old(applied)
    {
      apply := CheckInitial(device, o.program, o.entry);
      if apply {
        applied := applied[(device, o.program) := o.entry];
        last := last[device := o];
      }
    }

    method Clear(devices: set<string>)
      modifies this
      ensures View() == Step(old(View()), ClearDevices(devices))
      ensures forall k :: k in applied <==> k in old(applied) && k.0 !in devices
      ensures forall k :: k in applied ==> applied[k] == old(applied)[k]
    {
      var todo := set k | k in applied && k.0 in devices;
      var removed := todo;
      while todo != {}
        invariant todo <= removed
        invariant applied == map k | k in old(applied) && k !in removed - todo :: old(applied)[k]
        invariant last == old(last)
        decreases todo
      {
        var k :| k in todo;
        applied := applied - {k};
        todo := todo - {k};
      }
    }

    method ClearEverything()
      modifies this
      ensures View() == Step(old(View()), ClearAll) && applied == map[]
    {
      applied := map[];
    }

    /** A whole pass over the programs of one device. */
    method InitialPass(device: string, offers: seq<Offer>) returns (count: nat)
      modifies this
      ensures View() == Pass(old(View()), device, offers) && count == Applied(old(View()), device, offers)
    {
      count := 0;
      for i := 0 to |offers|
        invariant View() == Pass(old(View()), device, offers[..i]) && count == Applied(old(View()), device, offers[..i])
      {
        assert offers[..i + 1][..i] == offers[..i];
        var applied := ApplyInitial(device, offers[i]);
        if applied {
          count := count + 1;
        }
      }
      assert offers[..|offers|] == offers;
    }
  }
}
