/**
 Laws of restriction: it is idempotent and monotone in the enabled features, it leaves alone
 exactly the models that hold nothing refused, and it keeps the permitted bits of every
 DERControlType2 bitmap in place. Beside them, the loops the source computes it with.
 */
module RestrictLaws {
  import opened Bits
  import opened SchemaEditions
  import opened ServerProfile
  import opened Wrappers

  // ---- bitmaps ------------------------------------------------------------------

  lemma {:induction false} BitOfMask(n: nat, allowed: set<nat>, offset: nat, k: nat)
    ensures Bit(Mask(n, allowed, offset), k) <==> Bit(n, k) && offset + k in allowed
    decreases k
  {
    if n == 0 {
      NoBitsInZero(k);
    } else if k > 0 {
      BitOfMask(n / 2, allowed, offset + 1, k - 1);
    }
  }

  lemma {:induction false} MaskIsSmaller(n: nat, allowed: set<nat>, offset: nat)
    ensures Mask(n, allowed, offset) <= n
  {
    if n != 0 { MaskIsSmaller(n / 2, allowed, offset + 1); }
  }

  /** Masking with the smaller of two nested sets absorbs masking with the larger. */
  lemma MaskAbsorbs(n: nat, small: set<nat>, large: set<nat>)
    requires small <= large
    ensures Mask(Mask(n, large, 0), small, 0) == Mask(n, small, 0)
  {
    forall k: nat ensures Bit(Mask(Mask(n, large, 0), small, 0), k) <==> Bit(Mask(n, small, 0), k) {
      BitOfMask(Mask(n, large, 0), small, 0, k);
      BitOfMask(n, large, 0, k);
      BitOfMask(n, small, 0, k);
    }
    SameBits(Mask(Mask(n, large, 0), small, 0), Mask(n, small, 0));
  }

  /**
   A restricted bitmap has the byte length of the original and, read big-endian, exactly the
   original bits that the profile permits.
   */
  lemma BitmapKeepsPermittedBits(p: Profile, bytes: seq<Byte>)
    requires p.Valid()
    ensures p.RestrictBitmap(None) == None
    ensures var out := p.RestrictBitmap(Some(bytes));
            && out.Some? && |out.value| == |bytes|
            && FromBytes(out.value) == Mask(FromBytes(bytes), p.ModeBits2(), 0)
            && forall k: nat :: Bit(FromBytes(out.value), k) <==> Bit(FromBytes(bytes), k) && k in p.ModeBits2()
  {
    var n, allowed := FromBytes(bytes), p.ModeBits2();
    MaskIsSmaller(n, allowed, 0);
    FromBytesFits(bytes);
    ToBytesRoundTrip(Mask(n, allowed, 0), |bytes|);
    forall k: nat ensures Bit(Mask(n, allowed, 0), k) <==> Bit(n, k) && k in allowed {
      BitOfMask(n, allowed, 0, k);
    }
  }

  /** The bitmaps of a model in reading order; wildcard content is foreign and holds none. */
  function BitmapsOf(node: Node): seq<Option<seq<Byte>>>
    decreases node
  {
    match node
    case Bitmap(raw) => [raw]
    case Model(_, fields) => BitmapsOfFields(fields)
  }

  function BitmapsOfFields(fields: seq<Field>): seq<Option<seq<Byte>>>
    decreases fields, 0
  {
    if fields == [] then []
    else
      var f := fields[0];
      (if f.kind.WildcardField? || f.kind.AttributesField? then [] else BitmapsOfValue(f.value))
      + BitmapsOfFields(fields[1..])
  }

  function BitmapsOfValue(v: Value): seq<Option<seq<Byte>>>
    decreases v, 0
  {
    match v
    case One(n) => BitmapsOf(n)
    case Many(items) => BitmapsOfValues(items)
    case _ => []
  }

  function BitmapsOfValues(vs: seq<Value>): seq<Option<seq<Byte>>>
    decreases vs, 0
  {
    if vs == [] then [] else BitmapsOfValue(vs[0]) + BitmapsOfValues(vs[1..])
  }

  /** The bitmap sets no bit the profile refuses. */
  ghost predicate WithinBits(p: Profile, raw: Option<seq<Byte>>)
    requires p.Valid()
  {
    raw.Some? ==> forall k: nat :: Bit(FromBytes(raw.value), k) ==> k in p.ModeBits2()
  }

  ghost predicate AllWithinBits(p: Profile, bitmaps: seq<Option<seq<Byte>>>)
    requires p.Valid()
  {
    forall raw :: raw in bitmaps ==> WithinBits(p, raw)
  }

  function RestrictAll(p: Profile, bitmaps: seq<Option<seq<Byte>>>): seq<Option<seq<Byte>>>
    requires p.Valid()
  {
    if bitmaps == [] then [] else [p.RestrictBitmap(bitmaps[0])] + RestrictAll(p, bitmaps[1..])
  }

  /** a comes from b by leaving out entries. */
  predicate Subsequence<T(==)>(a: seq<T>, b: seq<T>) {
    if a == [] then true
    else b != [] && ((a[0] == b[0] && Subsequence(a[1..], b[1..])) || Subsequence(a, b[1..]))
  }

  lemma {:induction false} RestrictAllConcat(p: Profile, a: seq<Option<seq<Byte>>>, b: seq<Option<seq<Byte>>>)
    requires p.Valid()
    ensures RestrictAll(p, a + b) == RestrictAll(p, a) + RestrictAll(p, b)
  {
    if a == [] {
      assert a + b == b;
    } else {
      assert (a + b)[1..] == a[1..] + b;
      RestrictAllConcat(p, a[1..], b);
    }
  }

  lemma {:induction false} SubsequenceConcat<T>(a: seq<T>, b: seq<T>, a': seq<T>, b': seq<T>)
    requires Subsequence(a, b) && Subsequence(a', b')
    ensures Subsequence(a + a', b + b')
    decreases |b|
  {
    if b == [] {
      assert a + a' == a' && b + b' == b';
    } else {
      assert (b + b')[1..] == b[1..] + b';
      if a == [] {
        SubsequenceConcat(a, b[1..], a', b');
      } else if a[0] == b[0] && Subsequence(a[1..], b[1..]) {
        assert (a + a')[1..] == a[1..] + a';
        SubsequenceConcat(a[1..], b[1..], a', b');
      } else {
        SubsequenceConcat(a, b[1..], a', b');
      }
    }
  }

  /**
   The bitmaps of a restricted model are bitmaps of the original, in order, each restricted
   on its own: none is moved, merged or invented.
   */
  lemma {:induction false} BitmapsAreOriginals(p: Profile, node: Node)
    requires p.Valid()
    ensures Subsequence(BitmapsOf(p.RestrictNode(node)), RestrictAll(p, BitmapsOf(node)))
    decreases node, 0
  {
    match node
    case Bitmap(raw) =>
      assert [raw][1..] == [];
      assert RestrictAll(p, [raw]) == [p.RestrictBitmap(raw)];
    case Model(t, fields) => BitmapsAreOriginalsFields(p, t, fields);
  }

  lemma {:induction false} BitmapsAreOriginalsFields(p: Profile, t: string, fields: seq<Field>)
    requires p.Valid()
    ensures Subsequence(BitmapsOfFields(p.RestrictFields(t, fields)), RestrictAll(p, BitmapsOfFields(fields)))
    decreases fields, 0
  {
    if fields != [] {
      var f, kept := fields[0], p.RestrictFields(t, fields);
      assert kept[1..] == p.RestrictFields(t, fields[1..]) && kept[0] == p.RestrictField(t, f);
      BitmapsAreOriginalsFields(p, t, fields[1..]);
      BitmapsAreOriginalsValue(p, f.value);
      var held := if f.kind.WildcardField? || f.kind.AttributesField? then [] else BitmapsOfValue(f.value);
      var left := if f.kind.WildcardField? || f.kind.AttributesField? then [] else BitmapsOfValue(kept[0].value);
      RestrictAllConcat(p, held, BitmapsOfFields(fields[1..]));
      SubsequenceConcat(left, RestrictAll(p, held), BitmapsOfFields(kept[1..]),
          RestrictAll(p, BitmapsOfFields(fields[1..])));
    }
  }

  lemma {:induction false} BitmapsAreOriginalsValue(p: Profile, v: Value)
    requires p.Valid()
    ensures Subsequence(BitmapsOfValue(p.RestrictValue(v)), RestrictAll(p, BitmapsOfValue(v)))
    decreases v, 0
  {
    match v
    case One(n) => BitmapsAreOriginals(p, n);
    case Many(items) => BitmapsAreOriginalsValues(p, items);
    case _ =>
  }

  lemma {:induction false} BitmapsAreOriginalsValues(p: Profile, vs: seq<Value>)
    requires p.Valid()
    ensures Subsequence(BitmapsOfValues(p.RestrictValues(vs)), RestrictAll(p, BitmapsOfValues(vs)))
    decreases vs, 0
  {
    if vs != [] {
      var kept := p.RestrictValues(vs);
      assert kept[1..] == p.RestrictValues(vs[1..]);
      BitmapsAreOriginalsValue(p, vs[0]);
      BitmapsAreOriginalsValues(p, vs[1..]);
      RestrictAllConcat(p, BitmapsOfValue(vs[0]), BitmapsOfValues(vs[1..]));
      SubsequenceConcat(BitmapsOfValue(kept[0]), RestrictAll(p, BitmapsOfValue(vs[0])),
                        BitmapsOfValues(kept[1..]), RestrictAll(p, BitmapsOfValues(vs[1..])));
    }
  }

  lemma {:induction false} SubsequenceWithin(p: Profile, a: seq<Option<seq<Byte>>>, b: seq<Option<seq<Byte>>>)
    requires p.Valid() && Subsequence(a, RestrictAll(p, b))
    ensures AllWithinBits(p, a)
    decreases |b|
  {
    if a != [] {
      BitmapKeepsPermittedBits(p, if b[0].Some? then b[0].value else []);
      if Subsequence(a, RestrictAll(p, b[1..])) {
        SubsequenceWithin(p, a, b[1..]);
      } else {
        SubsequenceWithin(p, a[1..], b[1..]);
      }
    }
  }

  /** No bitmap anywhere in a restricted model sets a refused bit. */
  lemma RestrictedBitmapsWithin(p: Profile, node: Node)
    requires p.Valid()
    ensures AllWithinBits(p, BitmapsOf(p.RestrictNode(node)))
  {
    BitmapsAreOriginals(p, node);
    SubsequenceWithin(p, BitmapsOf(p.RestrictNode(node)), BitmapsOf(node));
  }

  // ---- one restriction after another ----------------------------------------------

  /** Two 2018 profiles over the same schemas, the first with no more features than the second. */
  predicate Narrower(p: Profile, q: Profile) {
    && p.Valid() && q.Valid() && p.Is2018() && q.Is2018()
    && p.editions == q.editions && p.registry == q.registry && p.features <= q.features
  }

  lemma NarrowerBitmap(p: Profile, q: Profile, raw: Option<seq<Byte>>)
    requires Narrower(p, q)
    ensures p.RestrictBitmap(q.RestrictBitmap(raw)) == p.RestrictBitmap(raw)
  {
    if raw.Some? {
      var bytes := raw.value;
      var wide := q.RestrictBitmap(raw).value;
      assert p.ModeBits2() <= q.ModeBits2();
      BitmapKeepsPermittedBits(q, bytes);
      BitmapKeepsPermittedBits(p, bytes);
      BitmapKeepsPermittedBits(p, wide);
      MaskAbsorbs(FromBytes(bytes), p.ModeBits2(), q.ModeBits2());
      FromBytesInjective(p.RestrictBitmap(Some(wide)).value, p.RestrictBitmap(raw).value);
    }
  }

  /**
   Restricting to fewer features after restricting to more is restricting to fewer at once.
   With equal profiles this is idempotence; in general it says that enabling features only
   ever lets more through.
   */
  lemma {:induction false} RestrictComposes(p: Profile, q: Profile, node: Node)
    requires Narrower(p, q)
    ensures p.RestrictNode(q.RestrictNode(node)) == p.RestrictNode(node)
    decreases node, 0
  {
    match node
    case Bitmap(raw) => NarrowerBitmap(p, q, raw);
    case Model(t, fields) => RestrictComposesFields(p, q, t, fields);
  }

  lemma {:induction false} RestrictComposesFields(p: Profile, q: Profile, t: string, fields: seq<Field>)
    requires Narrower(p, q)
    ensures p.RestrictFields(t, q.RestrictFields(t, fields)) == p.RestrictFields(t, fields)
    decreases fields, 0
  {
    if fields != [] {
      var kept := q.RestrictFields(t, fields);
      assert kept[1..] == q.RestrictFields(t, fields[1..]);
      RestrictComposesFields(p, q, t, fields[1..]);
      RestrictComposesValue(p, q, fields[0].value);
      PermitsMonotone(p, q, t, KeyOf(fields[0]));
    }
  }

  lemma PermitsMonotone(p: Profile, q: Profile, t: string, key: Key)
    requires Narrower(p, q)
    ensures p.Permits(t, key) ==> q.Permits(t, key)
  {
  }

  lemma {:induction false} RestrictComposesValue(p: Profile, q: Profile, v: Value)
    requires Narrower(p, q)
    ensures p.RestrictValue(q.RestrictValue(v)) == p.RestrictValue(v)
    decreases v, 0
  {
    match v
    case One(n) => RestrictComposes(p, q, n);
    case Many(items) => RestrictComposesValues(p, q, items);
    case _ =>
  }

  lemma {:induction false} RestrictComposesValues(p: Profile, q: Profile, vs: seq<Value>)
    requires Narrower(p, q)
    ensures p.RestrictValues(q.RestrictValues(vs)) == p.RestrictValues(vs)
    decreases vs, 0
  {
    if vs != [] {
      var kept := q.RestrictValues(vs);
      assert kept[1..] == q.RestrictValues(vs[1..]);
      RestrictComposesValue(p, q, vs[0]);
      RestrictComposesValues(p, q, vs[1..]);
    }
  }

  // ---- what restriction leaves alone ------------------------------------------------

  /** Nothing in the model is refused: no root-only attribute, no refused optional field, no refused bit. */
  ghost predicate Untouched(p: Profile, node: Node)
    requires p.Valid()
    decreases node
  {
    match node
    case Bitmap(raw) => WithinBits(p, raw)
    case Model(t, fields) => UntouchedFields(p, t, fields)
  }

  ghost predicate UntouchedFields(p: Profile, t: string, fields: seq<Field>)
    requires p.Valid()
    decreases fields, 0
  {
    fields == [] || (UntouchedField(p, t, fields[0]) && UntouchedFields(p, t, fields[1..]))
  }

  ghost predicate UntouchedField(p: Profile, t: string, f: Field)
    requires p.Valid()
    decreases f, 1
  {
    f.value.Absent? || f.kind.WildcardField? || f.kind.AttributesField? ||
    (&& !(f.kind.AttributeField? && f.name in p.RootGap())
     && (f.required || p.Permits(t, KeyOf(f)) || f.value == Many([]))
     && UntouchedValue(p, f.value))
  }

  ghost predicate UntouchedValue(p: Profile, v: Value)
    requires p.Valid()
    decreases v, 0
  {
    match v
    case One(n) => Untouched(p, n)
    case Many(items) => UntouchedValues(p, items)
    case _ => true
  }

  ghost predicate UntouchedValues(p: Profile, vs: seq<Value>)
    requires p.Valid()
    decreases vs, 0
  {
    vs == [] || (UntouchedValue(p, vs[0]) && UntouchedValues(p, vs[1..]))
  }

  lemma UntouchedBitmap(p: Profile, raw: Option<seq<Byte>>)
    requires p.Valid()
    ensures p.RestrictBitmap(raw) == raw <==> WithinBits(p, raw)
  {
    if raw.Some? {
      BitmapKeepsPermittedBits(p, raw.value);
      if WithinBits(p, raw) {
        SameBits(FromBytes(p.RestrictBitmap(raw).value), FromBytes(raw.value));
        FromBytesInjective(p.RestrictBitmap(raw).value, raw.value);
      }
    }
  }

  /** Restriction removes no more than it must: it returns a model as it is exactly when nothing in it is refused. */
  lemma {:induction false} RestrictLeavesAlone(p: Profile, node: Node)
    requires p.Valid()
    ensures p.RestrictNode(node) == node <==> Untouched(p, node)
    decreases node, 0
  {
    match node
    case Bitmap(raw) => UntouchedBitmap(p, raw);
    case Model(t, fields) => RestrictLeavesFields(p, t, fields);
  }

  lemma {:induction false} RestrictLeavesFields(p: Profile, t: string, fields: seq<Field>)
    requires p.Valid()
    ensures p.RestrictFields(t, fields) == fields <==> UntouchedFields(p, t, fields)
    decreases fields, 0
  {
    if fields != [] {
      var kept := p.RestrictFields(t, fields);
      assert kept[1..] == p.RestrictFields(t, fields[1..]) && kept[0] == p.RestrictField(t, fields[0]);
      assert fields == [fields[0]] + fields[1..];
      RestrictLeavesFields(p, t, fields[1..]);
      RestrictLeavesValue(p, fields[0].value);
    }
  }

  lemma {:induction false} RestrictLeavesValue(p: Profile, v: Value)
    requires p.Valid()
    ensures p.RestrictValue(v) == v <==> UntouchedValue(p, v)
    decreases v, 0
  {
    match v
    case One(n) => RestrictLeavesAlone(p, n);
    case Many(items) => RestrictLeavesValues(p, items);
    case _ =>
  }

  lemma {:induction false} RestrictLeavesValues(p: Profile, vs: seq<Value>)
    requires p.Valid()
    ensures p.RestrictValues(vs) == vs <==> UntouchedValues(p, vs)
    decreases vs, 0
  {
    if vs != [] {
      var kept := p.RestrictValues(vs);
      assert kept[1..] == p.RestrictValues(vs[1..]) && kept[0] == p.RestrictValue(vs[0]);
      assert vs == [vs[0]] + vs[1..];
      RestrictLeavesValue(p, vs[0]);
      RestrictLeavesValues(p, vs[1..]);
    }
  }

  // ---- the loops of the source ------------------------------------------------------

  /** The union of the bits of the enabled features. */
  method PermittedModeBits(p: Profile) returns (bits: set<nat>)
    requires p.Valid()
    ensures bits == p.ModeBits2()
  {
    if !p.Is2018() {
      return {0, 1, 2, 3, 4, 5, 6, 7, 8, 9};
    }
    bits := {};
    var todo := p.features;
    while todo != {}
      invariant todo <= p.features
      invariant bits == set f, b | f in p.features - todo && b in p.registry[f].modeBits2 :: b
      decreases todo
    {
      var name :| name in todo;
      bits := bits + p.registry[name].modeBits2;
      todo := todo - {name};
    }
    assert p.features - todo == p.features;
  }

  /** A number with exactly the given bits set, built one shifted bit at a time. */
  method BuildMask(bits: set<nat>) returns (allowed: nat)
    ensures forall k: nat :: Bit(allowed, k) <==> k in bits
  {
    var todo := bits;
    allowed := 0;
    forall k: nat ensures !Bit(0, k) { NoBitsInZero(k); }
    while todo != {}
      invariant todo <= bits
      invariant forall k: nat :: Bit(allowed, k) <==> k in bits && k !in todo
      decreases todo
    {
      var bit :| bit in todo;
      forall k: nat ensures Bit(Or(allowed, Pow(2, bit)), k) <==> Bit(allowed, k) || k == bit {
        BitOfOr(allowed, Pow(2, bit), k);
        BitOfShift(bit, k);
      }
      allowed := Or(allowed, Pow(2, bit));
      todo := todo - {bit};
    }
  }

  /** The permitted bits of a number. */
  method MaskModes2(p: Profile, bits: nat) returns (r: nat)
    requires p.Valid()
    ensures r == Mask(bits, p.ModeBits2(), 0)
    ensures forall k: nat :: Bit(r, k) <==> Bit(bits, k) && k in p.ModeBits2()
  {
    var all := PermittedModeBits(p);
    var allowed := BuildMask(all);
    r := And(bits, allowed);
    AndIsMask(bits, allowed, all);
  }

  lemma AndIsMask(bits: nat, allowed: nat, all: set<nat>)
    requires forall k: nat :: Bit(allowed, k) <==> k in all
    ensures And(bits, allowed) == Mask(bits, all, 0)
    ensures forall k: nat :: Bit(And(bits, allowed), k) <==> Bit(bits, k) && k in all
  {
    forall k: nat
      ensures Bit(And(bits, allowed), k) <==> Bit(bits, k) && k in all
      ensures Bit(Mask(bits, all, 0), k) <==> Bit(bits, k) && k in all
    {
      BitOfAnd(bits, allowed, k);
      BitOfMask(bits, all, 0, k);
    }
    SameBits(And(bits, allowed), Mask(bits, all, 0));
  }

  /** The restriction of one model, field by field, as the source computes it. */
  method RestrictModel(p: Profile, node: Node) returns (r: Node)
    requires p.Valid() && p.Is2018()
    ensures r == p.RestrictNode(node)
    decreases node, 1
  {
    match node
    case Bitmap(raw) =>
      var bytes := if raw.None? then [] else raw.value;
      var bits := FromBytes(bytes);
      var masked := MaskModes2(p, bits);
      r := if masked == bits then node else Bitmap(Some(ToBytes(masked, Width(bytes))));
    case Model(t, fields) =>
      var kept: seq<Field> := [];
      for i := 0 to |fields|
        invariant kept + p.RestrictFields(t, fields[i..]) == p.RestrictFields(t, fields)
      {
        assert fields[i..][1..] == fields[i + 1..];
        var f := RestrictOneField(p, t, fields[i]);
        kept := kept + [f];
      }
      r := Model(t, kept);
  }

  method RestrictOneField(p: Profile, t: string, f: Field) returns (r: Field)
    requires p.Valid() && p.Is2018()
    ensures r == p.RestrictField(t, f)
    decreases f, 2
  {
    if f.value.Absent? || f.kind.WildcardField? || f.kind.AttributesField? {
      r := f;
    } else if f.kind.AttributeField? && f.name in p.RootGap() {
      r := f.(value := Absent);
    } else if !f.required && !p.Permits(t, KeyOf(f)) {
      r := f.(value := if f.value.Many? then Many([]) else Absent);
    } else {
      var v := RestrictOne(p, f.value);
      r := f.(value := v);
    }
  }

  method RestrictOne(p: Profile, v: Value) returns (r: Value)
    requires p.Valid() && p.Is2018()
    ensures r == p.RestrictValue(v)
    decreases v, 0
  {
    match v
    case One(n) =>
      var m := RestrictModel(p, n);
      r := One(m);
    case Many(items) =>
      var kept: seq<Value> := [];
      for i := 0 to |items|
        invariant kept + p.RestrictValues(items[i..]) == p.RestrictValues(items)
      {
        assert items[i..][1..] == items[i + 1..];
        var item := RestrictOne(p, items[i]);
        kept := kept + [item];
      }
      r := Many(kept);
    case _ => r := v;
  }

  // ---- where the audit and the restriction part ways -----------------------------------

  /**
   The root condition cannot be dropped: with a 2018 schema that puts `x` on one root and a 2023
   schema that puts it on another, the attribute is neither new to every root nor known to its
   own, so restriction keeps it and the audit reports it.
   */
  lemma MisalignedRootsFailAudit() returns (p: Profile, node: Node)
    ensures p.Valid() && node.Model? && TypedNode(p.editions.later, node) && RefusedAreOptional(p, node)
    ensures RootShape(p.editions.later, node.typeId) && !RootsAligned(p.editions, node.typeId)
    ensures p.Audit(Payload(p.Restrict(node))) != []
  {
    var later := Schema(map["A" := TypeInfo(None, map[], {}), "<A>" := TypeInfo(Some("A"), map[], {"x"})],
        map["A" := "<A>"]);
    var earlier := Schema(map["B" := TypeInfo(None, map[], {}), "<B>" := TypeInfo(Some("B"), map[], {"x"})],
        map["B" := "<B>"]);
    p := Profile(Editions(earlier, later), map[], Some(E2018), {});
    var f := Field(AttributeField, false, "x", false, Atom("1"));
    node := Model("A", [f]);
    var key := Attribute("x");
    assert Inline("A") == "<A>" && Inline("B") == "<B>";
    assert node.fields[1..] == [];
    assert "x" in earlier.RootAttributes() by {
      assert "B" in earlier.roots && "x" in earlier.types[Inline("B")].attributes;
    }
    assert later.Declarer("A", key) == None;
    assert later.Declarer("<A>", key) == Some("<A>");
    assert !earlier.Has("<A>", key);
    assert !CleanAttribute(p, "A", "<A>", f);
    RestrictPassesAudit(p, node);
  }
}
