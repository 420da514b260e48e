/**
 What the client may send a server of a given edition (src/py20305/server_profile.py):
 `Restrict` takes out of a typed model what the profile does not permit, and `Audit` is the
 independent check over the serialized payload.
 */
module ServerProfile {
  import opened Bits
  import opened Chains
  import opened SchemaEditions
  import opened Wrappers

  datatype Edition = E2018 | E2023

  /** A function a 2018 server may adopt: the items it borrows and the mode bits it permits. */
  datatype Feature = Feature(elements: set<Item>, modeBits2: set<nat>)

  datatype FieldKind = AttributeField | ElementField | TextField | WildcardField | AttributesField

  /** A field of a model; `foreign` when its namespace belongs to an extension schema. */
  datatype Field = Field(kind: FieldKind, foreign: bool, name: string, required: bool, value: Value)

  datatype Value =
    | Absent
    | Atom(text: string)
    | One(node: Node)
    | Many(items: seq<Value>)
    | AnyElements(content: seq<Xml>)
    | AnyAttributes(names: seq<XmlAttribute>)

  /** A model instance; `Bitmap` is one of type DERControlType2, which has text and nothing else. */
  datatype Node =
    | Bitmap(raw: Option<seq<Byte>>)
    | Model(typeId: string, fields: seq<Field>)

  datatype Profile = Profile(
    editions: Editions, registry: map<string, Feature>, base: Option<Edition>, features: set<string>)
  {

    /** Construction refuses a feature the registry does not know. */
    predicate Valid() { features <= registry.Keys }

    predicate Is2018() { base != Some(E2023) }

    function ModeBits2(): set<nat>
      requires Valid()
    {
      if Is2018() then set f, b | f in features && b in registry[f].modeBits2 :: b
      else {0, 1, 2, 3, 4, 5, 6, 7, 8, 9}
    }

    predicate PermitsItem(item: Item)
      requires Valid()
    {
      !Is2018() || exists f :: f in features && item in registry[f].elements
    }

    predicate Permits(typeId: string, key: Key)
      requires Valid()
    {
      var item := NewItem(editions, typeId, key);
      item.None? || PermitsItem(item.value)
    }

    /** The attributes the later edition puts on global elements and the earlier one does not. */
    function RootGap(): set<string> { editions.later.RootAttributes() - editions.earlier.RootAttributes() }

    // ---- restriction --------------------------------------------------------

    function RestrictBitmap(raw: Option<seq<Byte>>): Option<seq<Byte>>
      requires Valid()
    {
      var bytes := if raw.None? then [] else raw.value;
      var masked := Mask(FromBytes(bytes), ModeBits2(), 0);
      if masked == FromBytes(bytes) then raw
      else Some(ToBytes(masked, Width(bytes)))
    }

    function RestrictNode(node: Node): Node
      requires Valid()
      decreases node
    {
      match node
      case Bitmap(raw) => Bitmap(RestrictBitmap(raw))
      case Model(t, fields) => Model(t, RestrictFields(t, fields))
    }

    function RestrictFields(t: string, fields: seq<Field>): seq<Field>
      requires Valid()
      decreases fields, 0
    {
      if fields == [] then [] else [RestrictField(t, fields[0])] + RestrictFields(t, fields[1..])
    }

    function RestrictField(t: string, f: Field): Field
      requires Valid()
      decreases f, 1
    {
      if f.value.Absent? || f.kind.WildcardField? || f.kind.AttributesField? then f
      else if f.kind.AttributeField? && f.name in RootGap() then f.(value := Absent)
      else if !f.required && !Permits(t, KeyOf(f)) then f.(value := if f.value.Many? then Many([]) else Absent)
      else f.(value := RestrictValue(f.value))
    }

    function RestrictValue(v: Value): Value
      requires Valid()
      decreases v, 0
    {
      match v
      case One(n) => One(RestrictNode(n))
      case Many(items) => Many(RestrictValues(items))
      case _ => v
    }

    function RestrictValues(vs: seq<Value>): seq<Value>
      requires Valid()
      decreases vs, 0
    {
      if vs == [] then [] else [RestrictValue(vs[0])] + RestrictValues(vs[1..])
    }

    function Restrict(node: Node): Node
      requires Valid()
    {
      if Is2018() then RestrictNode(node) else node
    }

    // ---- audit --------------------------------------------------------------

    function Refused(items: seq<Item>): seq<Item>
      requires Valid()
    {
      if items == [] then []
      else (if PermitsItem(items[0]) then [] else [items[0]]) + Refused(items[1..])
    }

    function RootFindings(attributes: seq<XmlAttribute>): seq<Item> {
      if attributes == [] then []
      else
        var a := attributes[0];
        (if !a.qualified && a.name in RootGap() then [Item("(root)", Attribute(a.name))] else [])
        + RootFindings(attributes[1..])
    }

    /** The items of a payload that are outside the base edition and not enabled. */
    function Audit(root: Xml): seq<Item>
      requires Valid() && root.Tag?
    {
      if !Is2018() then []
      else Refused(BorrowedItems(editions, root)) + RootFindings(root.attributes)
    }
  }

  function KeyOf(f: Field): Key {
    if f.kind.AttributeField? then Attribute(f.name) else Element(f.name)
  }

  /** The width of a rewritten bitmap: that of the original, or 4 for an empty one. */
  function Width(bytes: seq<Byte>): nat { if bytes == [] then 4 else |bytes| }

  /** The bits of n, the first of which is bit `offset`, that are in `allowed`. */
  function Mask(n: nat, allowed: set<nat>, offset: nat): nat
    decreases n
  {
    if n == 0 then 0
    else 2 * Mask(n / 2, allowed, offset + 1) + (if n % 2 == 1 && offset in allowed then 1 else 0)
  }

  // ---------------------------------------------------------------------------
  // Serialization

  function Serialize(foreign: bool, name: string, node: Node): Xml
    decreases node
  {
    match node
    case Bitmap(_) => Tag(foreign, name, [], [])
    case Model(_, fields) => Tag(foreign, name, AttributesOf(fields), ChildrenOf(fields))
  }

  function AttributesOf(fields: seq<Field>): seq<XmlAttribute> {
    if fields == [] then []
    else AttributesOfField(fields[0]) + AttributesOf(fields[1..])
  }

  function AttributesOfField(f: Field): seq<XmlAttribute> {
    if f.kind.AttributeField? && Present(f.value) then [XmlAttribute(f.foreign, f.name)]
    else if f.kind.AttributesField? && f.value.AnyAttributes? then f.value.names
    else []
  }

  /** An attribute is written unless it is missing or an empty list. */
  predicate Present(v: Value) { !v.Absent? && v != Many([]) }

  function ChildrenOf(fields: seq<Field>): seq<Xml>
    decreases fields, 0
  {
    if fields == [] then [] else ChildrenOfField(fields[0]) + ChildrenOf(fields[1..])
  }

  function ChildrenOfField(f: Field): seq<Xml>
    decreases f, 1
  {
    if f.kind.ElementField? then ChildrenOfValue(f.foreign, f.name, f.value)
    else if f.kind.WildcardField? && f.value.AnyElements? then f.value.content
    else []
  }

  function ChildrenOfValue(foreign: bool, name: string, v: Value): seq<Xml>
    decreases v, 0
  {
    match v
    case Atom(_) => [Tag(foreign, name, [], [])]
    case One(n) => [Serialize(foreign, name, n)]
    case Many(items) => ChildrenOfValues(foreign, name, items)
    case _ => []
  }

  function ChildrenOfValues(foreign: bool, name: string, vs: seq<Value>): seq<Xml>
    decreases vs, 0
  {
    if vs == [] then [] else ChildrenOfValue(foreign, name, vs[0]) + ChildrenOfValues(foreign, name, vs[1..])
  }

  /** The payload of a model: its root element bears the model's own type name. */
  function Payload(node: Node): Xml
    requires node.Model?
  {
    Serialize(false, node.typeId, node)
  }

  // ---------------------------------------------------------------------------
  // Typed models

  /** A child the 2023 schema gives a type has that type; wildcard content is of other namespaces. */
  ghost predicate TypedNode(s: Schema, node: Node)
    decreases node
  {
    node.Model? ==> TypedFields(s, node.typeId, node.fields)
  }

  ghost predicate TypedFields(s: Schema, t: string, fields: seq<Field>)
    decreases fields, 0
  {
    fields == [] || (TypedField(s, t, fields[0]) && TypedFields(s, t, fields[1..]))
  }

  ghost predicate TypedField(s: Schema, t: string, f: Field)
    decreases f, 1
  {
    match f.kind
    case ElementField =>
      !f.foreign && f.name in s.Elements(t) && s.Elements(t)[f.name] != "" ==>
        TypedValue(s, s.Elements(t)[f.name], f.value)
    case WildcardField =>
      f.value.AnyElements? ==> forall x :: x in f.value.content ==> x.Tag? ==> x.foreign
    case AttributesField =>
      f.value.AnyAttributes? ==> forall a :: a in f.value.names ==> a.qualified
    case _ => true
  }

  ghost predicate TypedValue(s: Schema, t: string, v: Value)
    decreases v, 0
  {
    match v
    case One(n) => (n.Model? ==> n.typeId == t) && TypedNode(s, n)
    case Many(items) => TypedValues(s, t, items)
    case _ => true
  }

  ghost predicate TypedValues(s: Schema, t: string, vs: seq<Value>)
    decreases vs, 0
  {
    vs == [] || (TypedValue(s, t, vs[0]) && TypedValues(s, t, vs[1..]))
  }

  /** A global element has its named type, or an inline extension of it that only adds attributes. */
  predicate RootShape(s: Schema, name: string) {
    name in s.roots ==>
      || s.roots[name] == name
      || (s.roots[name] == Inline(name) && Inline(name) in s.types
          && s.types[Inline(name)].base == Some(name) && s.types[Inline(name)].elements == map[])
  }

  // ---------------------------------------------------------------------------
  // When the restricted model passes the audit

  /**
   What the caller can check beforehand: every field the schema marks required, and so kept,
   is permitted. A permitted addition is not looked into, because the audit does not either.
   `seenAs` is the type under which the audit reads the node's attributes.
   */
  ghost predicate CleanNode(p: Profile, seenAs: string, node: Node)
    requires p.Valid()
    decreases node
  {
    node.Model? ==>
      && CleanAttributes(p, node.typeId, seenAs, node.fields)
      && CleanElements(p, node.typeId, node.fields)
  }

  ghost predicate CleanAttributes(p: Profile, t: string, seenAs: string, fields: seq<Field>)
    requires p.Valid()
  {
    fields == [] || (CleanAttribute(p, t, seenAs, fields[0]) && CleanAttributes(p, t, seenAs, fields[1..]))
  }

  ghost predicate CleanAttribute(p: Profile, t: string, seenAs: string, f: Field)
    requires p.Valid()
  {
    f.kind.AttributeField? && Present(f.value) && !f.foreign && f.name !in p.RootGap()
      && (f.required || p.Permits(t, Attribute(f.name)))
    ==> p.Permits(seenAs, Attribute(f.name))
  }

  ghost predicate CleanElements(p: Profile, t: string, fields: seq<Field>)
    requires p.Valid()
    decreases fields, 0
  {
    fields == [] || (CleanElement(p, t, fields[0]) && CleanElements(p, t, fields[1..]))
  }

  ghost predicate CleanElement(p: Profile, t: string, f: Field)
    requires p.Valid()
    decreases f, 1
  {
    f.kind.ElementField? && !f.foreign ==>
      if !p.Permits(t, Element(f.name)) then f.required ==> !Emits(f.value)
      else NewItem(p.editions, t, Element(f.name)).None? && Descends(p, t, f.name) ==> CleanValue(p, f.value)
  }

  /** The audit reads the children of element `name` of type t. */
  predicate Descends(p: Profile, t: string, name: string) {
    name in p.editions.later.Elements(t) && p.editions.later.Elements(t)[name] != ""
  }

  ghost predicate CleanValue(p: Profile, v: Value)
    requires p.Valid()
    decreases v, 0
  {
    match v
    case One(n) => CleanNode(p, if n.Model? then n.typeId else "", n)
    case Many(items) => CleanValues(p, items)
    case _ => true
  }

  ghost predicate CleanValues(p: Profile, vs: seq<Value>)
    requires p.Valid()
    decreases vs, 0
  {
    vs == [] || (CleanValue(p, vs[0]) && CleanValues(p, vs[1..]))
  }

  /** The value is written as at least one element. */
  predicate Emits(v: Value) {
    match v
    case Atom(_) => true
    case One(_) => true
    case Many(items) => EmitsAny(items)
    case _ => false
  }

  predicate EmitsAny(vs: seq<Value>) {
    vs != [] && (Emits(vs[0]) || EmitsAny(vs[1..]))
  }

  ghost predicate AllPermitted(p: Profile, items: seq<Item>)
    requires p.Valid()
  {
    forall i :: i in items ==> p.PermitsItem(i)
  }

  lemma AllPermittedConcat(p: Profile, a: seq<Item>, b: seq<Item>)
    requires p.Valid()
    ensures AllPermitted(p, a + b) <==> AllPermitted(p, a) && AllPermitted(p, b)
  {
    assert forall i :: i in a || i in b <==> i in a + b;
  }

  lemma {:induction false} RefusedEmpty(p: Profile, items: seq<Item>)
    requires p.Valid()
    ensures p.Refused(items) == [] <==> AllPermitted(p, items)
  {
    if items != [] {
      RefusedEmpty(p, items[1..]);
      assert items == [items[0]] + items[1..];
    }
  }

  lemma {:induction false} WalkAttributesConcat(e: Editions, a: seq<XmlAttribute>, b: seq<XmlAttribute>, t: string)
    ensures WalkAttributes(e, a + b, t) == WalkAttributes(e, a, t) + WalkAttributes(e, b, t)
  {
    if a == [] {
      assert a + b == b;
    } else {
      assert (a + b)[1..] == a[1..] + b;
      WalkAttributesConcat(e, a[1..], b, t);
    }
  }

  lemma {:induction false} WalkChildrenConcat(e: Editions, a: seq<Xml>, b: seq<Xml>, t: string)
    ensures WalkChildren(e, a + b, t) == WalkChildren(e, a, t) + WalkChildren(e, b, t)
  {
    if a == [] {
      assert a + b == b;
    } else {
      assert (a + b)[1..] == a[1..] + b;
      WalkChildrenConcat(e, a[1..], b, t);
    }
  }

  lemma {:induction false} QualifiedAttributesPass(e: Editions, names: seq<XmlAttribute>, t: string)
    requires forall a :: a in names ==> a.qualified
    ensures WalkAttributes(e, names, t) == []
  {
    if names != [] { QualifiedAttributesPass(e, names[1..], t); }
  }

  lemma {:induction false} ForeignChildrenPass(e: Editions, content: seq<Xml>, t: string)
    requires forall x :: x in content ==> x.Tag? ==> x.foreign
    ensures WalkChildren(e, content, t) == []
  {
    if content != [] { ForeignChildrenPass(e, content[1..], t); }
  }

  lemma OneChild(e: Editions, x: Xml, t: string)
    ensures WalkChildren(e, [x], t) == WalkChild(e, x, t)
  {
    assert [x][1..] == [];
  }

  /** The audit of the attributes a restricted node keeps. */
  lemma {:induction false} AuditAttributes(p: Profile, t: string, seenAs: string, fields: seq<Field>)
    requires p.Valid() && TypedFields(p.editions.later, t, fields)
    ensures AllPermitted(p, WalkAttributes(p.editions, AttributesOf(p.RestrictFields(t, fields)), seenAs))
       <==> CleanAttributes(p, t, seenAs, fields)
  {
    if fields != [] {
      AuditAttributes(p, t, seenAs, fields[1..]);
      AuditAttribute(p, t, seenAs, fields[0]);
      var kept := p.RestrictFields(t, fields);
      assert kept[1..] == p.RestrictFields(t, fields[1..]);
      WalkAttributesConcat(p.editions, AttributesOfField(kept[0]), AttributesOf(kept[1..]), seenAs);
      AllPermittedConcat(p, WalkAttributes(p.editions, AttributesOfField(kept[0]), seenAs),
                         WalkAttributes(p.editions, AttributesOf(kept[1..]), seenAs));
    }
  }

  lemma RestrictKeepsPresence(p: Profile, v: Value)
    requires p.Valid()
    ensures Present(p.RestrictValue(v)) <==> Present(v)
  {
    if v.Many? && v.items != [] {
      assert p.RestrictValues(v.items)[0] == p.RestrictValue(v.items[0]);
    }
  }

  lemma AuditAttribute(p: Profile, t: string, seenAs: string, f: Field)
    requires p.Valid() && TypedField(p.editions.later, t, f)
    ensures AllPermitted(p, WalkAttributes(p.editions, AttributesOfField(p.RestrictField(t, f)), seenAs))
       <==> CleanAttribute(p, t, seenAs, f)
  {
    var attributes := AttributesOfField(p.RestrictField(t, f));
    var key := Attribute(f.name);
    if f.kind.AttributesField? && f.value.AnyAttributes? {
      QualifiedAttributesPass(p.editions, attributes, seenAs);
    } else if f.kind.AttributeField? {
      RestrictKeepsPresence(p, f.value);
      LookupsAgree(p.editions.later, seenAs, key);
      if attributes != [] {
        assert attributes == [XmlAttribute(f.foreign, f.name)];
        assert attributes[1..] == [];
      }
    }
  }

  lemma {:induction false} RestrictKeepsEmitting(p: Profile, v: Value)
    requires p.Valid()
    ensures Emits(p.RestrictValue(v)) <==> Emits(v)
    decreases v, 0
  {
    if v.Many? { RestrictKeepsEmittingAny(p, v.items); }
  }

  lemma {:induction false} RestrictKeepsEmittingAny(p: Profile, vs: seq<Value>)
    requires p.Valid()
    ensures EmitsAny(p.RestrictValues(vs)) <==> EmitsAny(vs)
    decreases vs, 0
  {
    if vs != [] {
      RestrictKeepsEmitting(p, vs[0]);
      RestrictKeepsEmittingAny(p, vs[1..]);
      assert p.RestrictValues(vs)[1..] == p.RestrictValues(vs[1..]);
    }
  }

  /** A value that writes elements of an added, refused name is reported for each of them. */
  lemma {:induction false} WalkNewElements(p: Profile, t: string, name: string, v: Value)
    requires p.Valid() && NewItem(p.editions, t, Element(name)).Some?
    ensures var found := WalkChildren(p.editions, ChildrenOfValue(false, name, v), t);
            && (forall i :: i in found ==> i == NewItem(p.editions, t, Element(name)).value)
            && (found != [] <==> Emits(v))
    decreases v, 0
  {
    LookupsAgree(p.editions.later, t, Element(name));
    match v
    case Many(items) => WalkNewElementsAll(p, t, name, items);
    case Atom(_) => OneChild(p.editions, Tag(false, name, [], []), t);
    case One(n) => OneChild(p.editions, Serialize(false, name, n), t);
    case _ =>
  }

  lemma {:induction false} WalkNewElementsAll(p: Profile, t: string, name: string, vs: seq<Value>)
    requires p.Valid() && NewItem(p.editions, t, Element(name)).Some?
    ensures var found := WalkChildren(p.editions, ChildrenOfValues(false, name, vs), t);
            && (forall i :: i in found ==> i == NewItem(p.editions, t, Element(name)).value)
            && (found != [] <==> EmitsAny(vs))
    decreases vs, 0
  {
    if vs != [] {
      WalkNewElements(p, t, name, vs[0]);
      WalkNewElementsAll(p, t, name, vs[1..]);
      WalkChildrenConcat(p.editions, ChildrenOfValue(false, name, vs[0]), ChildrenOfValues(false, name, vs[1..]), t);
    }
  }

  /** Elements of another namespace, or without a type to follow, are passed over. */
  lemma {:induction false} WalkSkipped(p: Profile, t: string, foreign: bool, name: string, v: Value)
    requires foreign || (!Descends(p, t, name) && NewItem(p.editions, t, Element(name)).None?)
    ensures WalkChildren(p.editions, ChildrenOfValue(foreign, name, v), t) == []
    decreases v, 0
  {
    match v
    case Many(items) => WalkSkippedAll(p, t, foreign, name, items);
    case Atom(_) => OneChild(p.editions, Tag(foreign, name, [], []), t);
    case One(n) => OneChild(p.editions, Serialize(foreign, name, n), t);
    case _ =>
  }

  lemma {:induction false} WalkSkippedAll(p: Profile, t: string, foreign: bool, name: string, vs: seq<Value>)
    requires foreign || (!Descends(p, t, name) && NewItem(p.editions, t, Element(name)).None?)
    ensures WalkChildren(p.editions, ChildrenOfValues(foreign, name, vs), t) == []
    decreases vs, 0
  {
    if vs != [] {
      WalkSkipped(p, t, foreign, name, vs[0]);
      WalkSkippedAll(p, t, foreign, name, vs[1..]);
      WalkChildrenConcat(
        p.editions, ChildrenOfValue(foreign, name, vs[0]), ChildrenOfValues(foreign, name, vs[1..]), t);
    }
  }

  lemma {:induction false} AuditNode(p: Profile, name: string, node: Node, t: string)
    requires p.Valid() && TypedNode(p.editions.later, node)
    requires node.Model? ==> node.typeId == t
    ensures AllPermitted(p, Walk(p.editions, Serialize(false, name, p.RestrictNode(node)), t))
        <==> CleanNode(p, t, node)
    decreases node, 0
  {
    if node.Model? {
      AuditAttributes(p, t, t, node.fields);
      AuditElements(p, t, node.fields);
      var kept := p.RestrictFields(t, node.fields);
      AllPermittedConcat(p, WalkAttributes(p.editions, AttributesOf(kept), t),
          WalkChildren(p.editions, ChildrenOf(kept), t));
    }
  }

  /** The audit of the elements a restricted node keeps. */
  lemma {:induction false} AuditElements(p: Profile, t: string, fields: seq<Field>)
    requires p.Valid() && TypedFields(p.editions.later, t, fields)
    ensures AllPermitted(p, WalkChildren(p.editions, ChildrenOf(p.RestrictFields(t, fields)), t))
       <==> CleanElements(p, t, fields)
    decreases fields, 0
  {
    if fields != [] {
      AuditElements(p, t, fields[1..]);
      AuditElement(p, t, fields[0]);
      var kept := p.RestrictFields(t, fields);
      assert kept[1..] == p.RestrictFields(t, fields[1..]);
      WalkChildrenConcat(p.editions, ChildrenOfField(kept[0]), ChildrenOf(kept[1..]), t);
      AllPermittedConcat(p, WalkChildren(p.editions, ChildrenOfField(kept[0]), t),
          WalkChildren(p.editions, ChildrenOf(kept[1..]), t));
    }
  }

  lemma {:induction false} AuditElement(p: Profile, t: string, f: Field)
    requires p.Valid() && TypedField(p.editions.later, t, f)
    ensures AllPermitted(p, WalkChildren(p.editions, ChildrenOfField(p.RestrictField(t, f)), t))
        <==> CleanElement(p, t, f)
    decreases f, 1
  {
    var kept := p.RestrictField(t, f);
    if f.kind.WildcardField? && f.value.AnyElements? {
      ForeignChildrenPass(p.editions, f.value.content, t);
    } else if f.kind.ElementField? {
      if f.foreign {
        WalkSkipped(p, t, true, f.name, kept.value);
      } else if NewItem(p.editions, t, Element(f.name)).Some? {
        RestrictKeepsEmitting(p, f.value);
        WalkNewElements(p, t, f.name, kept.value);
        var found := WalkChildren(p.editions, ChildrenOfValue(false, f.name, kept.value), t);
        assert found != [] ==> found[0] in found;
      } else if Descends(p, t, f.name) {
        assert kept.value == p.RestrictValue(f.value);
        AuditValue(p, t, f.name, f.value);
      } else {
        WalkSkipped(p, t, false, f.name, kept.value);
      }
    }
  }

  lemma {:induction false} AuditValue(p: Profile, t: string, name: string, v: Value)
    requires p.Valid() && NewItem(p.editions, t, Element(name)).None? && Descends(p, t, name)
    requires TypedValue(p.editions.later, p.editions.later.Elements(t)[name], v)
    ensures AllPermitted(p, WalkChildren(p.editions, ChildrenOfValue(false, name, p.RestrictValue(v)), t))
        <==> CleanValue(p, v)
    decreases v, 0
  {
    match v
    case Many(items) => AuditValues(p, t, name, items);
    case Atom(_) =>
      var leaf := Tag(false, name, [], []);
      OneChild(p.editions, leaf, t);
      assert Walk(p.editions, leaf, p.editions.later.Elements(t)[name]) == [];
    case One(n) =>
      OneChild(p.editions, Serialize(false, name, p.RestrictNode(n)), t);
      AuditNode(p, name, n, p.editions.later.Elements(t)[name]);
    case _ =>
  }

  lemma {:induction false} AuditValues(p: Profile, t: string, name: string, vs: seq<Value>)
    requires p.Valid() && NewItem(p.editions, t, Element(name)).None? && Descends(p, t, name)
    requires TypedValues(p.editions.later, p.editions.later.Elements(t)[name], vs)
    ensures AllPermitted(p, WalkChildren(p.editions, ChildrenOfValues(false, name, p.RestrictValues(vs)), t))
        <==> CleanValues(p, vs)
    decreases vs, 0
  {
    if vs != [] {
      AuditValue(p, t, name, vs[0]);
      AuditValues(p, t, name, vs[1..]);
      var kept := p.RestrictValues(vs);
      assert kept[1..] == p.RestrictValues(vs[1..]);
      var a, b := ChildrenOfValue(false, name, kept[0]), ChildrenOfValues(false, name, kept[1..]);
      WalkChildrenConcat(p.editions, a, b, t);
      AllPermittedConcat(p, WalkChildren(p.editions, a, t), WalkChildren(p.editions, b, t));
    }
  }

  // ---- the root ---------------------------------------------------------------

  /** An inline root type has the elements of its named type, declared by the same types. */
  lemma InlineElements(s: Schema, name: string, key: Key)
    requires name in s.roots && s.roots[name] == Inline(name) && RootShape(s, name)
    requires s.types[Inline(name)].Declares(key) ==> false
    ensures s.Declarer(Inline(name), key) == s.Declarer(name, key)
  {
    assert Inline(name)[0] == '<';
    assert Link(s.Bases(), Inline(name)) == Some(name);
    FindSkipsMiss(s.Nodes(), s.Bases(), s.Declaring(key), Inline(name));
  }

  lemma InlineSameElements(s: Schema, name: string)
    requires name in s.roots && s.roots[name] == Inline(name) && RootShape(s, name)
    ensures s.Elements(Inline(name)) == s.Elements(name)
    ensures forall n :: s.Declarer(Inline(name), Element(n)) == s.Declarer(name, Element(n))
  {
    forall n
      ensures s.Declarer(Inline(name), Element(n)) == s.Declarer(name, Element(n))
      ensures n in s.Elements(Inline(name)) <==> n in s.Elements(name)
      ensures n in s.Elements(name) ==> s.Elements(Inline(name))[n] == s.Elements(name)[n]
    {
      InlineElements(s, name, Element(n));
      LookupsAgree(s, Inline(name), Element(n));
      LookupsAgree(s, name, Element(n));
    }
  }

  lemma {:induction false} WalkAsInline(e: Editions, children: seq<Xml>, name: string)
    requires name in e.later.roots && e.later.roots[name] == Inline(name) && RootShape(e.later, name)
    ensures WalkChildren(e, children, Inline(name)) == WalkChildren(e, children, name)
  {
    InlineSameElements(e.later, name);
    if children != [] {
      WalkAsInline(e, children[1..], name);
    }
  }

  lemma KeptAttributesOutsideGap(p: Profile, t: string, f: Field)
    requires p.Valid() && TypedField(p.editions.later, t, f)
    ensures forall x :: x in AttributesOfField(p.RestrictField(t, f)) ==> x.qualified || x.name !in p.RootGap()
  {
    if f.kind.AttributeField? {
      RestrictKeepsPresence(p, f.value);
    }
  }

  lemma {:induction false} NoRootFindings(p: Profile, t: string, fields: seq<Field>)
    requires p.Valid() && TypedFields(p.editions.later, t, fields)
    ensures p.RootFindings(AttributesOf(p.RestrictFields(t, fields))) == []
  {
    if fields != [] {
      NoRootFindings(p, t, fields[1..]);
      var kept := p.RestrictFields(t, fields);
      assert kept[1..] == p.RestrictFields(t, fields[1..]);
      var a, b := AttributesOfField(kept[0]), AttributesOf(kept[1..]);
      KeptAttributesOutsideGap(p, t, fields[0]);
      RootFindingsConcat(p, a, b);
      NoFindingsOutsideGap(p, a);
    }
  }

  lemma {:induction false} RootFindingsConcat(p: Profile, a: seq<XmlAttribute>, b: seq<XmlAttribute>)
    ensures p.RootFindings(a + b) == p.RootFindings(a) + p.RootFindings(b)
  {
    if a == [] {
      assert a + b == b;
    } else {
      assert (a + b)[1..] == a[1..] + b;
      RootFindingsConcat(p, a[1..], b);
    }
  }

  lemma {:induction false} NoFindingsOutsideGap(p: Profile, a: seq<XmlAttribute>)
    requires forall x :: x in a ==> x.qualified || x.name !in p.RootGap()
    ensures p.RootFindings(a) == []
  {
    if a != [] { NoFindingsOutsideGap(p, a[1..]); }
  }

  /**
   Restriction is sound against the audit, and exactly so: for every profile with a 2018 base,
   every pair of schemas and every typed model, the audit of the restricted payload is empty
   if and only if no kept field of the model is refused. The audit reads the root under its
   inline type, so that is where root attributes are judged.
   */
  lemma RestrictPassesAudit(p: Profile, node: Node)
    requires p.Valid() && p.Is2018()
    requires node.Model? && TypedNode(p.editions.later, node) && RootShape(p.editions.later, node.typeId)
    ensures p.Audit(Payload(p.Restrict(node))) == []
       <==> (node.typeId in p.editions.later.roots ==> CleanNode(p, p.editions.later.roots[node.typeId], node))
  {
    var t, fields := node.typeId, node.fields;
    var kept := p.RestrictFields(t, fields);
    var root := Payload(p.Restrict(node));
    assert root == Tag(false, t, AttributesOf(kept), ChildrenOf(kept));
    NoRootFindings(p, t, fields);
    RefusedEmpty(p, BorrowedItems(p.editions, root));
    if t in p.editions.later.roots {
      var seenAs := p.editions.later.roots[t];
      AuditAttributes(p, t, seenAs, fields);
      AuditElements(p, t, fields);
      if seenAs == Inline(t) {
        WalkAsInline(p.editions, ChildrenOf(kept), t);
      }
      AllPermittedConcat(p, WalkAttributes(p.editions, AttributesOf(kept), seenAs),
          WalkChildren(p.editions, ChildrenOf(kept), seenAs));
    }
  }

  // ---- the plain sufficient condition -------------------------------------------

  /** Every field the profile refuses is optional, at every depth. */
  ghost predicate RefusedAreOptional(p: Profile, node: Node)
    requires p.Valid()
    decreases node
  {
    node.Model? ==> FieldsOptional(p, node.typeId, node.fields)
  }

  ghost predicate FieldsOptional(p: Profile, t: string, fields: seq<Field>)
    requires p.Valid()
    decreases fields, 0
  {
    fields == [] ||
    (&& (fields[0].kind.AttributeField? || fields[0].kind.ElementField?
        ==> !fields[0].required || p.Permits(t, KeyOf(fields[0])))
     && ValueOptional(p, fields[0].value)
     && FieldsOptional(p, t, fields[1..]))
  }

  ghost predicate ValueOptional(p: Profile, v: Value)
    requires p.Valid()
    decreases v, 0
  {
    match v
    case One(n) => RefusedAreOptional(p, n)
    case Many(items) => ValuesOptional(p, items)
    case _ => true
  }

  ghost predicate ValuesOptional(p: Profile, vs: seq<Value>)
    requires p.Valid()
    decreases vs, 0
  {
    vs == [] || (ValueOptional(p, vs[0]) && ValuesOptional(p, vs[1..]))
  }

  lemma {:induction false} OptionalIsClean(p: Profile, v: Value)
    requires p.Valid() && ValueOptional(p, v)
    ensures CleanValue(p, v)
    decreases v, 0
  {
    match v
    case One(n) =>
      if n.Model? {
        OptionalAttributesClean(p, n.typeId, n.fields);
        OptionalElementsClean(p, n.typeId, n.fields);
      }
    case Many(items) => OptionalAllClean(p, items);
    case _ =>
  }

  lemma {:induction false} OptionalAllClean(p: Profile, vs: seq<Value>)
    requires p.Valid() && ValuesOptional(p, vs)
    ensures CleanValues(p, vs)
    decreases vs, 0
  {
    if vs != [] {
      OptionalIsClean(p, vs[0]);
      OptionalAllClean(p, vs[1..]);
    }
  }

  lemma {:induction false} OptionalAttributesClean(p: Profile, t: string, fields: seq<Field>)
    requires p.Valid() && FieldsOptional(p, t, fields)
    ensures CleanAttributes(p, t, t, fields)
  {
    if fields != [] { OptionalAttributesClean(p, t, fields[1..]); }
  }

  lemma {:induction false} OptionalElementsClean(p: Profile, t: string, fields: seq<Field>)
    requires p.Valid() && FieldsOptional(p, t, fields)
    ensures CleanElements(p, t, fields)
    decreases fields, 0
  {
    if fields != [] {
      OptionalElementsClean(p, t, fields[1..]);
      OptionalIsClean(p, fields[0].value);
    }
  }

  /**
   The attributes an inline root adds are either new to every root, and so dropped, or known to
   the 2018 root of the same name. Holds whenever 2018 puts no attribute on a root, as today.
   */
  predicate RootsAligned(e: Editions, name: string) {
    Inline(name) in e.later.types ==>
      forall a :: a in e.later.types[Inline(name)].attributes && a in e.earlier.RootAttributes()
                  ==> e.earlier.Has(Inline(name), Attribute(a))
  }

  lemma {:induction false} AlignedRootClean(p: Profile, t: string, fields: seq<Field>)
    requires p.Valid() && FieldsOptional(p, t, fields)
    requires t in p.editions.later.roots && p.editions.later.roots[t] == Inline(t)
    requires RootShape(p.editions.later, t) && RootsAligned(p.editions, t)
    ensures CleanAttributes(p, t, Inline(t), fields)
  {
    if fields != [] {
      AlignedRootClean(p, t, fields[1..]);
      var s, f := p.editions.later, fields[0];
      var key := Attribute(f.name);
      if f.name in s.types[Inline(t)].attributes {
        assert f.name in s.RootAttributes();
        assert Inline(t)[0] == '<';
        assert Inline(t) in s.Declaring(key);
        assert s.Declarer(Inline(t), key) == Some(Inline(t));
      } else {
        InlineElements(s, t, key);
      }
    }
  }

  /**
   The promise of the profile: when every refused field is optional, what the client sends a
   2018 server passes the audit.
   */
  lemma RestrictIsSound(p: Profile, node: Node)
    requires p.Valid() && node.Model?
    requires TypedNode(p.editions.later, node) && RefusedAreOptional(p, node)
    requires RootShape(p.editions.later, node.typeId) && RootsAligned(p.editions, node.typeId)
    ensures p.Audit(Payload(p.Restrict(node))) == []
  {
    if p.Is2018() {
      RestrictPassesAudit(p, node);
      var t := node.typeId;
      if t in p.editions.later.roots {
        OptionalElementsClean(p, t, node.fields);
        if p.editions.later.roots[t] == Inline(t) {
          AlignedRootClean(p, t, node.fields);
        } else {
          OptionalAttributesClean(p, t, node.fields);
        }
      }
    }
  }
}
