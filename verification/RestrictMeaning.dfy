/**
 What restriction and audit answer, in terms of the two schema tables and the feature registry
 alone (src/py20305/server_profile.py, src/py20305/schema_editions.py): which type declares a
 key, which fields are kept and which emptied, and which items of a payload are reported.
 */
module RestrictMeaning {
  import opened Bits
  import opened Chains
  import opened RestrictLaws
  import opened SchemaEditions
  import opened ServerProfile
  import opened Wrappers

  // ---------------------------------------------------------------------------
  // Who declares a key

  /** Types, each the base of the one before it. */
  ghost predicate BasePath(s: Schema, path: seq<string>) {
    && path != []
    && (forall i :: 0 <= i < |path| ==> path[i] != "" && path[i] in s.types)
    && (forall i :: 0 <= i < |path| - 1 ==> s.types[path[i]].base == Some(path[i + 1]))
  }

  predicate Names(info: TypeInfo, key: Key) {
    (key.Element? && key.name in info.elements) || (key.Attribute? && key.name in info.attributes)
  }

  /** d is the first type from t along the bases that has the key in its own table. */
  ghost predicate Declares(s: Schema, t: string, key: Key, d: string) {
    exists path: seq<string> ::
      && BasePath(s, path) && path[0] == t && path[|path| - 1] == d && Names(s.types[d], key)
      && forall i :: 0 <= i < |path| - 1 ==> !Names(s.types[path[i]], key)
  }

  lemma PathsAgree(s: Schema, path: seq<string>)
    ensures BasePath(s, path) <==> Path(s.Nodes(), s.Bases(), path)
  {
    if BasePath(s, path) {
      forall i | 0 <= i < |path| ensures path[i] in s.Nodes() {}
      forall i | 0 <= i < |path| - 1 ensures path[i] in s.Bases() && s.Bases()[path[i]] == path[i + 1] {
        assert s.types[path[i]].base == Some(path[i + 1]);
      }
    }
    if Path(s.Nodes(), s.Bases(), path) {
      forall i | 0 <= i < |path| ensures path[i] in s.types && path[i] != "" { assert path[i] in s.Nodes(); }
      forall i | 0 <= i < |path| - 1 ensures s.types[path[i]].base == Some(path[i + 1]) {}
    }
  }

  /** The declarer found is the first type of the base chain whose own table has the key. */
  lemma DeclarerIs(s: Schema, t: string, key: Key, d: string)
    ensures s.Declarer(t, key) == Some(d) <==> Declares(s, t, key, d)
  {
    FindIsFirstOnPath(s.Nodes(), s.Bases(), s.Declaring(key), t, d);
    forall path: seq<string> ensures BasePath(s, path) <==> Path(s.Nodes(), s.Bases(), path) { PathsAgree(s, path); }
    assert forall x :: x in s.types ==> (x in s.Declaring(key) <==> Names(s.types[x], key));
    if Declares(s, t, key, d) {
      var path: seq<string> :|
        && BasePath(s, path) && path[0] == t && path[|path| - 1] == d && Names(s.types[d], key)
        && forall i :: 0 <= i < |path| - 1 ==> !Names(s.types[path[i]], key);
      assert Path(s.Nodes(), s.Bases(), path) && forall i :: 0 <= i < |path| - 1 ==> path[i] !in s.Declaring(key);
    }
    if FirstOnPath(s.Nodes(), s.Bases(), s.Declaring(key), t, d) {
      var path: seq<string> :|
        && Path(s.Nodes(), s.Bases(), path) && path[0] == t && path[|path| - 1] == d && d in s.Declaring(key)
        && forall i :: 0 <= i < |path| - 1 ==> path[i] !in s.Declaring(key);
      assert BasePath(s, path) && forall i :: 0 <= i < |path| - 1 ==> !Names(s.types[path[i]], key);
    }
  }

  /** Some type along the bases of t has the key. */
  ghost predicate Knows(s: Schema, t: string, key: Key) { exists d :: Declares(s, t, key, d) }

  lemma HasIs(s: Schema, t: string, key: Key)
    ensures s.Has(t, key) <==> Knows(s, t, key)
  {
    LookupsAgree(s, t, key);
    forall d ensures s.Declarer(t, key) == Some(d) <==> Declares(s, t, key, d) { DeclarerIs(s, t, key, d); }
    if s.Declarer(t, key).Some? { assert Declares(s, t, key, s.Declarer(t, key).value); }
  }

  /** Some global element with an inline type of its own carries the attribute there. */
  ghost predicate OnRoot(s: Schema, attribute: string) {
    exists n :: n in s.roots && RootType(s, n).Some? && attribute in RootType(s, n).value.attributes
  }

  /** Only 2023 puts the attribute on global elements. */
  ghost predicate OnlyLaterRoots(e: Editions, attribute: string) {
    OnRoot(e.later, attribute) && !OnRoot(e.earlier, attribute)
  }

  function RootType(s: Schema, n: string): Option<TypeInfo> {
    var inline := "<" + n + ">";
    if n in s.roots && s.roots[n] == inline && inline in s.types then Some(s.types[inline]) else None
  }

  lemma RootGapIs(p: Profile, attribute: string)
    ensures attribute in p.RootGap() <==> OnlyLaterRoots(p.editions, attribute)
  {
    RootAttributesAre(p.editions.later, attribute);
    RootAttributesAre(p.editions.earlier, attribute);
  }

  lemma RootAttributesAre(s: Schema, attribute: string)
    ensures attribute in s.RootAttributes() <==> OnRoot(s, attribute)
  {
    if OnRoot(s, attribute) {
      var n :| n in s.roots && RootType(s, n).Some? && attribute in RootType(s, n).value.attributes;
      assert Inline(n) in s.types && attribute in s.types[Inline(n)].attributes;
    }
    if attribute in s.RootAttributes() {
      var n :| n in s.roots && s.roots[n] == Inline(n) && Inline(n) in s.types
               && attribute in s.types[Inline(n)].attributes;
      assert RootType(s, n) == Some(s.types[Inline(n)]);
    }
  }

  // ---------------------------------------------------------------------------
  // What may be sent

  /** An enabled feature lists the item. */
  ghost predicate Lists(p: Profile, item: Item)
    requires p.Valid()
  {
    exists f :: f in p.features && item in p.registry[f].elements
  }

  /** 2023 gives the key to type d of the chain of t, 2018 does not give it to d, and no enabled feature lists it. */
  ghost predicate Foreign(p: Profile, t: string, key: Key)
    requires p.Valid()
  {
    exists d :: Declares(p.editions.later, t, key, d) && !Knows(p.editions.earlier, d, key) && !Lists(p, Item(d, key))
  }

  lemma PermitsIs(p: Profile, t: string, key: Key)
    requires p.Valid()
    ensures p.Permits(t, key) <==> p.base == Some(E2023) || !Foreign(p, t, key)
  {
    forall d ensures p.editions.later.Declarer(t, key) == Some(d) <==> Declares(p.editions.later, t, key, d) {
      DeclarerIs(p.editions.later, t, key, d);
    }
    var found := p.editions.later.Declarer(t, key);
    if found.Some? {
      HasIs(p.editions.earlier, found.value, key);
      assert Declares(p.editions.later, t, key, found.value);
    }
  }

  /** The value without anything in it, as an omitted field has it. */
  function Emptied(v: Value): Value { if v.Many? then Many([]) else Absent }

  /** The parts of a kept value are restricted one by one, in place. */
  ghost predicate PartsRestricted(p: Profile, before: Value, after: Value)
    requires p.Valid()
  {
    match before
    case One(n) => after == One(p.RestrictNode(n))
    case Many(items) =>
      && after.Many? && |after.items| == |items|
      && forall k :: 0 <= k < |items| ==> after.items[k] == p.RestrictValue(items[k])
    case _ => after == before
  }

  lemma {:induction false} RestrictValuesAre(p: Profile, vs: seq<Value>, k: nat)
    requires p.Valid() && k < |vs|
    ensures |p.RestrictValues(vs)| == |vs| && p.RestrictValues(vs)[k] == p.RestrictValue(vs[k])
    decreases |vs|
  {
    if k > 0 {
      RestrictValuesAre(p, vs[1..], k - 1);
    } else if |vs| > 1 {
      RestrictValuesAre(p, vs[1..], 0);
    }
  }

  lemma RestrictValueIs(p: Profile, v: Value)
    requires p.Valid()
    ensures PartsRestricted(p, v, p.RestrictValue(v))
  {
    if v.Many? {
      forall k | 0 <= k < |v.items|
        ensures |p.RestrictValues(v.items)| == |v.items| && p.RestrictValues(v.items)[k] == p.RestrictValue(v.items[k])
      {
        RestrictValuesAre(p, v.items, k);
      }
    }
  }

  lemma {:induction false} RestrictFieldsAre(p: Profile, t: string, fields: seq<Field>, i: nat)
    requires p.Valid() && i < |fields|
    ensures |p.RestrictFields(t, fields)| == |fields| && p.RestrictFields(t, fields)[i] == p.RestrictField(t, fields[i])
    decreases |fields|
  {
    if i > 0 {
      RestrictFieldsAre(p, t, fields[1..], i - 1);
    } else if |fields| > 1 {
      RestrictFieldsAre(p, t, fields[1..], 0);
    }
  }

  /** The schema key of a field: what the source writes with a leading '@' is an attribute. */
  function FieldKey(f: Field): Key { if f.kind == AttributeField then Attribute(f.name) else Element(f.name) }

  /** What becomes of a field of type t under a 2018 profile. */
  ghost predicate FieldAnswer(p: Profile, t: string, f: Field, r: Field)
    requires p.Valid()
  {
    && r.kind == f.kind && r.foreign == f.foreign && r.name == f.name && r.required == f.required
    && if f.value == Absent || f.kind == WildcardField || f.kind == AttributesField then r.value == f.value
       else if f.kind == AttributeField && OnlyLaterRoots(p.editions, f.name) then r.value == Absent
       else if !f.required && Foreign(p, t, FieldKey(f)) then r.value == Emptied(f.value)
       else PartsRestricted(p, f.value, r.value)
  }

  /**
   Restriction field by field. Under a 2023 base the model comes back as it is. Otherwise, unknown
   base included, an optional field is emptied exactly when 2023 added it to the type that
   declares it and no enabled feature lists it there; an attribute only 2023 puts on global
   elements is dropped; and every other field stays, restricted inside.
   */
  lemma RestrictFieldByField(p: Profile, node: Node, i: nat)
    requires p.Valid() && node.Model? && i < |node.fields|
    ensures var r := p.Restrict(node);
            && r.Model? && r.typeId == node.typeId && |r.fields| == |node.fields|
            && (if p.base == Some(E2023) then r == node
                else FieldAnswer(p, node.typeId, node.fields[i], r.fields[i]))
  {
    var f := node.fields[i];
    RestrictFieldsAre(p, node.typeId, node.fields, i);
    PermitsIs(p, node.typeId, FieldKey(f));
    RootGapIs(p, f.name);
    RestrictValueIs(p, f.value);
  }

  /** restrict, with what it answers for every field of the model. */
  method RestrictPayload(p: Profile, node: Node) returns (r: Node)
    requires p.Valid()
    ensures r == p.Restrict(node)
    ensures p.base == Some(E2023) ==> r == node
    ensures p.base != Some(E2023) && node.Model? ==>
              && r.Model? && r.typeId == node.typeId && |r.fields| == |node.fields|
              && forall i :: 0 <= i < |node.fields| ==> FieldAnswer(p, node.typeId, node.fields[i], r.fields[i])
  {
    if !p.Is2018() {
      return node;
    }
    r := RestrictModel(p, node);
    if node.Model? {
      forall i | 0 <= i < |node.fields|
        ensures r.Model? && r.typeId == node.typeId && |r.fields| == |node.fields|
                && FieldAnswer(p, node.typeId, node.fields[i], r.fields[i])
      {
        RestrictFieldByField(p, node, i);
      }
      assert node.fields == [] ==> r.fields == [];
    }
  }

  // ---------------------------------------------------------------------------
  // Bitmaps

  /** Bit k may be set: bits 0 to 9 under 2023, the bits of the enabled features otherwise. */
  ghost predicate BitPermitted(p: Profile, k: nat)
    requires p.Valid()
  {
    if p.base == Some(E2023) then k <= 9 else exists f :: f in p.features && k in p.registry[f].modeBits2
  }

  lemma ModeBitsAre(p: Profile, k: nat)
    requires p.Valid()
    ensures k in p.ModeBits2() <==> BitPermitted(p, k)
  {
  }

  /** Bit k of byte j from the front of a restricted bitmap is set exactly when it was and is permitted. */
  lemma RestrictBitByBit(p: Profile, bytes: seq<Byte>, j: nat, k: nat)
    requires p.Valid() && j < |bytes| && k < 8
    ensures var out := p.RestrictBitmap(Some(bytes));
            && out.Some? && |out.value| == |bytes|
            && (Bit(out.value[j], k) <==> Bit(bytes[j], k) && BitPermitted(p, 8 * (|bytes| - 1 - j) + k))
  {
    var out := p.RestrictBitmap(Some(bytes));
    BitmapKeepsPermittedBits(p, bytes);
    BitOfByte(bytes, j, k);
    BitOfByte(out.value, j, k);
    ModeBitsAre(p, 8 * (|bytes| - 1 - j) + k);
  }

  // ---------------------------------------------------------------------------
  // What the audit reports

  /** The type 2023 gives element `name` where type d declares it; "" when it has none to look into. */
  function ElementType(s: Schema, d: string, name: string): string {
    if d in s.types && name in s.types[d].elements then s.types[d].elements[name] else ""
  }

  ghost predicate AttributeCarries(e: Editions, a: XmlAttribute, t: string, item: Item) {
    !a.qualified && item.key == Attribute(a.name) && Declares(e.later, t, item.key, item.parent)
  }

  /** The child of a node of type t is the item, or carries it inside an element that 2018 has as well. */
  ghost predicate ChildCarries(e: Editions, child: Xml, t: string, item: Item)
    decreases child, 1
  {
    child.Tag? && !child.foreign &&
    exists d :: Declares(e.later, t, Element(child.name), d) &&
      (|| item == Item(d, Element(child.name))
       || (Knows(e.earlier, d, Element(child.name)) && ElementType(e.later, d, child.name) != ""
           && Inside(e, child, ElementType(e.later, d, child.name), item)))
  }

  /** The content of the node, read as type t, carries the item. */
  ghost predicate Inside(e: Editions, node: Xml, t: string, item: Item)
    requires node.Tag?
    decreases node, 0
  {
    || (exists i :: 0 <= i < |node.attributes| && AttributeCarries(e, node.attributes[i], t, item))
    || (exists i :: 0 <= i < |node.children| && ChildCarries(e, node.children[i], t, item))
  }

  /** 2018 does not give the item to the type it names. */
  ghost predicate Added(e: Editions, item: Item) { !Knows(e.earlier, item.parent, item.key) }

  lemma NewItemIs(e: Editions, t: string, key: Key, item: Item)
    ensures NewItem(e, t, key) == Some(item) <==>
            item.key == key && Declares(e.later, t, key, item.parent) && Added(e, item)
  {
    DeclarerIs(e.later, t, key, item.parent);
    HasIs(e.earlier, item.parent, key);
  }

  lemma AttributeKnown(s: Schema, t: string, name: string)
    ensures name in s.Attributes(t) <==> Knows(s, t, Attribute(name))
  {
    HasIs(s, t, Attribute(name));
  }

  lemma {:induction false} WalkAttributesFinds(e: Editions, attributes: seq<XmlAttribute>, t: string, item: Item)
    ensures item in WalkAttributes(e, attributes, t) <==>
            Added(e, item) && exists i :: 0 <= i < |attributes| && AttributeCarries(e, attributes[i], t, item)
  {
    if attributes != [] {
      var a, rest := attributes[0], attributes[1..];
      WalkAttributesFinds(e, rest, t, item);
      NewItemIs(e, t, Attribute(a.name), item);
      AttributeKnown(e.later, t, a.name);
      assert AttributeCarries(e, a, t, item) ==> Knows(e.later, t, Attribute(a.name));
      if i :| 0 <= i < |attributes| && AttributeCarries(e, attributes[i], t, item) {
        assert i > 0 ==> rest[i - 1] == attributes[i];
      }
      if i :| 0 <= i < |rest| && AttributeCarries(e, rest[i], t, item) {
        assert attributes[i + 1] == rest[i];
      }
    }
  }

  lemma DeclarerIsUnique(s: Schema, t: string, key: Key, d: string, d': string)
    requires Declares(s, t, key, d) && Declares(s, t, key, d')
    ensures d == d'
  {
    DeclarerIs(s, t, key, d);
    DeclarerIs(s, t, key, d');
  }

  lemma {:induction false} WalkFinds(e: Editions, node: Xml, t: string, item: Item)
    requires node.Tag?
    ensures item in Walk(e, node, t) <==> Added(e, item) && Inside(e, node, t, item)
    decreases node, 1
  {
    WalkAttributesFinds(e, node.attributes, t, item);
    WalkChildrenFinds(e, node.children, t, item);
  }

  lemma {:induction false} WalkChildrenFinds(e: Editions, children: seq<Xml>, t: string, item: Item)
    ensures item in WalkChildren(e, children, t) <==>
            Added(e, item) && exists i :: 0 <= i < |children| && ChildCarries(e, children[i], t, item)
    decreases children, 0
  {
    if children != [] {
      var rest := children[1..];
      WalkChildFinds(e, children[0], t, item);
      WalkChildrenFinds(e, rest, t, item);
      if i :| 0 <= i < |children| && ChildCarries(e, children[i], t, item) {
        assert i > 0 ==> rest[i - 1] == children[i];
      }
      if i :| 0 <= i < |rest| && ChildCarries(e, rest[i], t, item) {
        assert children[i + 1] == rest[i];
      }
    }
  }

  lemma {:induction false} WalkChildFinds(e: Editions, child: Xml, t: string, item: Item)
    ensures item in WalkChild(e, child, t) <==> Added(e, item) && ChildCarries(e, child, t, item)
    decreases child, 2
  {
    if child.Tag? && !child.foreign {
      var key := Element(child.name);
      HasIs(e.later, t, key);
      if d :| Declares(e.later, t, key, d) {
        DeclarerIs(e.later, t, key, d);
        LookupsAgree(e.later, t, key);
        NewItemIs(e, t, key, Item(d, key));
        var inner := ElementType(e.later, d, child.name);
        assert e.later.Elements(t)[child.name] == inner;
        forall d' | Declares(e.later, t, key, d') ensures d' == d { DeclarerIsUnique(e.later, t, key, d, d'); }
        if NewItem(e, t, key).None? && inner != "" { WalkFinds(e, child, inner, item); }
      }
    }
  }

  lemma {:induction false} RefusedFinds(p: Profile, items: seq<Item>, item: Item)
    requires p.Valid()
    ensures item in p.Refused(items) <==> item in items && p.base != Some(E2023) && !Lists(p, item)
  {
    if items != [] {
      RefusedFinds(p, items[1..], item);
      assert items == [items[0]] + items[1..];
    }
  }

  /** The attribute is on the root, and only 2023 puts it on global elements. */
  ghost predicate RootReport(p: Profile, root: Xml, item: Item)
    requires root.Tag?
  {
    exists i :: 0 <= i < |root.attributes| && !root.attributes[i].qualified
                && item == Item("(root)", Attribute(root.attributes[i].name))
                && OnlyLaterRoots(p.editions, root.attributes[i].name)
  }

  lemma {:induction false} RootFindingsAre(p: Profile, attributes: seq<XmlAttribute>, item: Item)
    ensures item in p.RootFindings(attributes) <==>
            exists i :: 0 <= i < |attributes| && !attributes[i].qualified
                        && item == Item("(root)", Attribute(attributes[i].name)) && attributes[i].name in p.RootGap()
  {
    if attributes != [] {
      var rest := attributes[1..];
      RootFindingsAre(p, rest, item);
      if i :| 0 <= i < |attributes| && !attributes[i].qualified
              && item == Item("(root)", Attribute(attributes[i].name)) && attributes[i].name in p.RootGap() {
        assert i > 0 ==> rest[i - 1] == attributes[i];
      }
      if i :| 0 <= i < |rest| && !rest[i].qualified
              && item == Item("(root)", Attribute(rest[i].name)) && rest[i].name in p.RootGap() {
        assert attributes[i + 1] == rest[i];
      }
    }
  }

  lemma RootReportIs(p: Profile, root: Xml, item: Item)
    requires root.Tag?
    ensures item in p.RootFindings(root.attributes) <==> RootReport(p, root, item)
  {
    RootFindingsAre(p, root.attributes, item);
    forall a ensures a in p.RootGap() <==> OnlyLaterRoots(p.editions, a) { RootGapIs(p, a); }
  }

  /**
   The audit, both ways: under a base other than 2023 an item is reported if and only if the payload
   carries it outside added elements, 2018 does not give it to the type that declares it and no
   enabled feature lists it, or it is a root attribute that only 2023 puts on global elements.
   Under 2023 nothing is reported.
   */
  lemma AuditReports(p: Profile, root: Xml, item: Item)
    requires p.Valid() && root.Tag?
    ensures item in p.Audit(root) <==>
            p.base != Some(E2023) &&
            (|| (root.name in p.editions.later.roots
                 && Inside(p.editions, root, p.editions.later.roots[root.name], item)
                 && Added(p.editions, item) && !Lists(p, item))
             || RootReport(p, root, item))
  {
    RefusedFinds(p, BorrowedItems(p.editions, root), item);
    RootReportIs(p, root, item);
    if root.name in p.editions.later.roots {
      WalkFinds(p.editions, root, p.editions.later.roots[root.name], item);
    }
  }
}
