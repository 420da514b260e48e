/**
 What one edition of the IEEE 2030.5 schema added to the types of another
 (src/py20305/schema_editions.py). Both schemas are arbitrary here: base chains may be
 circular, may name types that do not exist, and may end in an empty name.
 */
module SchemaEditions {
  import opened Chains
  import opened Wrappers

  /** A child element or an attribute of a type; the source writes the latter with a leading '@'. */
  datatype Key = Element(name: string) | Attribute(name: string)

  datatype Item = Item(parent: string, key: Key)

  datatype TypeInfo = TypeInfo(base: Option<string>, elements: map<string, string>, attributes: set<string>) {
    predicate Declares(key: Key) {
      match key
      case Element(name) => name in elements
      case Attribute(name) => name in attributes
    }
  }

  /** The name under which the inline type of the global element `name` is registered. */
  function Inline(name: string): string { "<" + name + ">" }

  datatype Schema = Schema(types: map<string, TypeInfo>, roots: map<string, string>) {

    /** The types a walk may stand on: the empty name ends every walk. */
    function Nodes(): set<string> { types.Keys - {""} }

    function Bases(): map<string, string> {
      map t | t in types && types[t].base.Some? :: types[t].base.value
    }

    function Declaring(key: Key): set<string> { set t | t in types && types[t].Declares(key) }

    /** The type in the chain of `typeId` that declares `key`. */
    function Declarer(typeId: string, key: Key): Option<string> {
      Find(Nodes(), Bases(), Declaring(key), Some(typeId), {})
    }

    function ElementsFrom(x: Option<string>, seen: set<string>): map<string, string>
      decreases Nodes() - seen
    {
      if x.None? || x.value !in Nodes() || x.value in seen then map[]
      else ElementsFrom(Link(Bases(), x.value), seen + {x.value}) + types[x.value].elements
    }

    function AttributesFrom(x: Option<string>, seen: set<string>): set<string>
      decreases Nodes() - seen
    {
      if x.None? || x.value !in Nodes() || x.value in seen then {}
      else types[x.value].attributes + AttributesFrom(Link(Bases(), x.value), seen + {x.value})
    }

    /** The elements of a type with the type of each, inherited ones included. */
    function Elements(typeId: string): map<string, string> { ElementsFrom(Some(typeId), {}) }

    function Attributes(typeId: string): set<string> { AttributesFrom(Some(typeId), {}) }

    predicate Has(typeId: string, key: Key) {
      match key
      case Element(name) => name in Elements(typeId)
      case Attribute(name) => name in Attributes(typeId)
    }

    /** The attributes declared on global elements rather than on a named type. */
    function RootAttributes(): set<string> {
      set n, a | n in roots && roots[n] == Inline(n) && Inline(n) in types && a in types[Inline(n)].attributes :: a
    }
  }

  /** The 2018 and the 2023 schema. */
  datatype Editions = Editions(earlier: Schema, later: Schema)

  /** The item for `key` in `typeId` when the later edition added it, else None. */
  function NewItem(e: Editions, typeId: string, key: Key): Option<Item> {
    match e.later.Declarer(typeId, key)
    case None => None
    case Some(d) => if e.earlier.Has(d, key) then None else Some(Item(d, key))
  }

  // ---------------------------------------------------------------------------
  // The two lookups

  lemma {:induction false} LookupsAgreeFrom(s: Schema, x: Option<string>, seen: set<string>, key: Key)
    ensures key.Element? ==>
              (key.name in s.ElementsFrom(x, seen) <==> Find(s.Nodes(), s.Bases(), s.Declaring(key), x, seen).Some?)
    ensures key.Element? && key.name in s.ElementsFrom(x, seen) ==>
              var d := Find(s.Nodes(), s.Bases(), s.Declaring(key), x, seen).value;
              d in s.types && s.types[d].Declares(key)
                  && s.ElementsFrom(x, seen)[key.name] == s.types[d].elements[key.name]
    ensures key.Attribute? ==>
              (key.name in s.AttributesFrom(x, seen) <==> Find(s.Nodes(), s.Bases(), s.Declaring(key), x, seen).Some?)
    decreases s.Nodes() - seen
  {
    if x.None? || x.value !in s.Nodes() || x.value in seen {
    } else {
      LookupsAgreeFrom(s, Link(s.Bases(), x.value), seen + {x.value}, key);
    }
  }

  /**
   The two inheritance lookups agree on every schema: a key is among what a type effectively
   has exactly when some type in its chain declares it, and the element type reported is the
   one the declarer gives.
   */
  lemma LookupsAgree(s: Schema, typeId: string, key: Key)
    ensures s.Has(typeId, key) <==> s.Declarer(typeId, key).Some?
    ensures key.Element? && s.Has(typeId, key) ==>
              var d := s.Declarer(typeId, key).value;
              d in s.types && s.types[d].Declares(key) && s.Elements(typeId)[key.name] == s.types[d].elements[key.name]
  {
    LookupsAgreeFrom(s, Some(typeId), {}, key);
  }

  /** The declaring type is named by the item, and looking the key up there again finds the same item. */
  lemma NewItemIsStable(e: Editions, typeId: string, key: Key)
    requires NewItem(e, typeId, key).Some?
    ensures var item := NewItem(e, typeId, key).value;
            item.key == key && NewItem(e, item.parent, key) == Some(item)
            && e.later.Has(typeId, key) && !e.earlier.Has(item.parent, key)
  {
    LookupsAgree(e.later, typeId, key);
    var d := e.later.Declarer(typeId, key).value;
    FindAgreesWithChain(e.later.Nodes(), e.later.Bases(), e.later.Declaring(key), Some(typeId));
    var n: nat :| FirstHit(e.later.Nodes(), e.later.Bases(), e.later.Declaring(key), Some(typeId), n, d);
    NthIsNode(e.later.Nodes(), e.later.Bases(), Some(typeId), n);
  }

  lemma {:induction false} NthIsNode<K>(nodes: set<K>, next: map<K, K>, x: Option<K>, n: nat)
    ensures Nth(nodes, next, x, n).Some? ==> Nth(nodes, next, x, n).value in nodes
    decreases n
  {
    if n > 0 && x.Some? {
      NthIsNode(nodes, next, Link(next, x.value), n - 1);
    }
  }

  /** The lookup loop of the source, against the first match on the unguarded base chain. */
  method FindDeclarer(s: Schema, typeId: string, key: Key) returns (declarer: Option<string>)
    ensures declarer == s.Declarer(typeId, key)
    ensures declarer.None? <==> NoHit(s.Nodes(), s.Bases(), s.Declaring(key), Some(typeId))
    ensures declarer.Some? ==>
              exists n: nat :: FirstHit(s.Nodes(), s.Bases(), s.Declaring(key), Some(typeId), n, declarer.value)
  {
    FindAgreesWithChain(s.Nodes(), s.Bases(), s.Declaring(key), Some(typeId));
    var seen: set<string> := {};
    var current := Some(typeId);
    while current.Some? && current.value != "" && current.value in s.types && current.value !in seen
      invariant Find(s.Nodes(), s.Bases(), s.Declaring(key), current, seen) == s.Declarer(typeId, key)
      decreases s.types.Keys - seen
    {
      if s.types[current.value].Declares(key) {
        return current;
      }
      seen := seen + {current.value};
      current := s.types[current.value].base;
    }
    declarer := None;
  }

  /** Adds each entry of `more` whose key is not there yet. */
  method SetDefaults(entries: map<string, string>, more: map<string, string>) returns (r: map<string, string>)
    ensures r == more + entries
  {
    r := entries;
    var todo := more.Keys;
    while todo != {}
      invariant todo <= more.Keys
      invariant r == (map n | n in more && n !in todo :: more[n]) + entries
      decreases todo
    {
      var name :| name in todo;
      if name !in r {
        r := r[name := more[name]];
      }
      todo := todo - {name};
    }
  }

  /** One step of the collecting loop: what a type declares itself goes on top of what it inherits. */
  lemma OneLevel(s: Schema, c: string, seen: set<string>, elements: map<string, string>)
    requires c in s.Nodes() && c !in seen
    ensures s.ElementsFrom(Some(c), seen) + elements
         == s.ElementsFrom(s.types[c].base, seen + {c}) + (s.types[c].elements + elements)
    ensures s.AttributesFrom(Some(c), seen) == s.types[c].attributes + s.AttributesFrom(s.types[c].base, seen + {c})
  {
    assert Link(s.Bases(), c) == s.types[c].base;
  }

  lemma EffectiveIffDeclared(s: Schema, typeId: string)
    ensures forall name :: name in s.Elements(typeId) <==> s.Declarer(typeId, Element(name)).Some?
    ensures forall name :: name in s.Attributes(typeId) <==> s.Declarer(typeId, Attribute(name)).Some?
  {
    forall name ensures name in s.Elements(typeId) <==> s.Declarer(typeId, Element(name)).Some? {
      LookupsAgree(s, typeId, Element(name));
    }
    forall name ensures name in s.Attributes(typeId) <==> s.Declarer(typeId, Attribute(name)).Some? {
      LookupsAgree(s, typeId, Attribute(name));
    }
  }

  /** The collecting loop of the source: a nearer declaration wins over a farther one. */
  method CollectEffective(s: Schema, typeId: string) returns (elements: map<string, string>, attributes: set<string>)
    ensures elements == s.Elements(typeId) && attributes == s.Attributes(typeId)
    ensures forall name :: name in elements <==> s.Declarer(typeId, Element(name)).Some?
    ensures forall name :: name in attributes <==> s.Declarer(typeId, Attribute(name)).Some?
  {
    elements, attributes := map[], {};
    var seen: set<string> := {};
    var current := Some(typeId);
    while current.Some? && current.value != "" && current.value in s.types && current.value !in seen
      invariant s.ElementsFrom(current, seen) + elements == s.Elements(typeId)
      invariant attributes + s.AttributesFrom(current, seen) == s.Attributes(typeId)
      decreases s.types.Keys - seen
    {
      var info := s.types[current.value];
      OneLevel(s, current.value, seen, elements);
      elements := SetDefaults(elements, info.elements);
      attributes := attributes + info.attributes;
      seen := seen + {current.value};
      current := info.base;
    }
    EffectiveIffDeclared(s, typeId);
  }

  // ---------------------------------------------------------------------------
  // The payload walk

  /** An attribute name; `qualified` when it carries a namespace. */
  datatype XmlAttribute = XmlAttribute(qualified: bool, name: string)

  /** An XML node; `foreign` when its namespace is neither absent nor the 2030.5 one. */
  datatype Xml =
    | Comment
    | Tag(foreign: bool, name: string, attributes: seq<XmlAttribute>, children: seq<Xml>)

  function WalkAttributes(e: Editions, attributes: seq<XmlAttribute>, typeId: string): seq<Item> {
    if attributes == [] then []
    else
      var a := attributes[0];
      (if !a.qualified && a.name in e.later.Attributes(typeId) && NewItem(e, typeId, Attribute(a.name)).Some?
       then [NewItem(e, typeId, Attribute(a.name)).value] else [])
      + WalkAttributes(e, attributes[1..], typeId)
  }

  /** The items the later edition added that the node carries; inside an added element nothing more is reported. */
  function Walk(e: Editions, node: Xml, typeId: string): seq<Item>
    requires node.Tag?
    decreases node, 1
  {
    WalkAttributes(e, node.attributes, typeId) + WalkChildren(e, node.children, typeId)
  }

  function WalkChildren(e: Editions, children: seq<Xml>, typeId: string): seq<Item>
    decreases children, 0
  {
    if children == [] then [] else WalkChild(e, children[0], typeId) + WalkChildren(e, children[1..], typeId)
  }

  function WalkChild(e: Editions, child: Xml, typeId: string): seq<Item>
    decreases child, 2
  {
    if child.Comment? || child.foreign || child.name !in e.later.Elements(typeId) then []
    else
      match NewItem(e, typeId, Element(child.name))
      case Some(item) => [item]
      case None =>
        var childType := e.later.Elements(typeId)[child.name];
        if childType == "" then [] else Walk(e, child, childType)
  }

  function BorrowedItems(e: Editions, root: Xml): seq<Item>
    requires root.Tag?
  {
    if root.name in e.later.roots then Walk(e, root, e.later.roots[root.name]) else []
  }

  /** The walk as the source runs it, appending to one list while it descends. */
  method WalkPayload(e: Editions, node: Xml, typeId: string, found: seq<Item>) returns (r: seq<Item>)
    requires node.Tag?
    ensures r == found + Walk(e, node, typeId)
    decreases node, 1
  {
    var elements, attributes := CollectEffective(e.later, typeId);
    r := WalkNodeAttributes(e, node.attributes, typeId, attributes, found);
    r := WalkNodeChildren(e, node.children, typeId, elements, r);
  }

  method WalkNodeChildren(e: Editions, children: seq<Xml>, typeId: string, elements: map<string, string>,
      found: seq<Item>)
    returns (r: seq<Item>)
    requires elements == e.later.Elements(typeId)
    ensures r == found + WalkChildren(e, children, typeId)
    decreases children, 0
  {
    r := found;
    for i := 0 to |children|
      invariant r + WalkChildren(e, children[i..], typeId) == found + WalkChildren(e, children, typeId)
    {
      assert children[i..][1..] == children[i + 1..];
      r := WalkOneChild(e, children[i], typeId, elements, r);
    }
  }

  method WalkNodeAttributes(e: Editions, names: seq<XmlAttribute>, typeId: string, attributes: set<string>,
      found: seq<Item>)
    returns (r: seq<Item>)
    requires attributes == e.later.Attributes(typeId)
    ensures r == found + WalkAttributes(e, names, typeId)
  {
    r := found;
    for i := 0 to |names|
      invariant r + WalkAttributes(e, names[i..], typeId) == found + WalkAttributes(e, names, typeId)
    {
      assert names[i..][1..] == names[i + 1..];
      if !names[i].qualified && names[i].name in attributes {
        var item := NewItem(e, typeId, Attribute(names[i].name));
        if item.Some? {
          r := r + [item.value];
        }
      }
    }
  }

  method WalkOneChild(e: Editions, child: Xml, typeId: string, elements: map<string, string>, found: seq<Item>)
    returns (r: seq<Item>)
    requires elements == e.later.Elements(typeId)
    ensures r == found + WalkChild(e, child, typeId)
    decreases child, 2
  {
    r := found;
    if child.Comment? || child.foreign || child.name !in elements {
      return;
    }
    var item := NewItem(e, typeId, Element(child.name));
    if item.Some? {
      r := r + [item.value];
      return;
    }
    var childType := elements[child.name];
    if childType != "" {
      r := WalkPayload(e, child, childType, r);
    }
  }
}
