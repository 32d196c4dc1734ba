/** A count that the conversion conserves: every named element and every attribute list of the document
    becomes exactly one JSON object, whatever the names of the children are. */
module XmlConservation {
  import opened Json
  import opened Xml
  import opened XmlToJson

  ghost function Sum(keys: set<string>, f: string -> nat): nat {
    if keys == {} then 0
    else
      var k :| k in keys;
      f(k) + Sum(keys - {k}, f)
  }

  lemma {:induction false} SumExtract(keys: set<string>, f: string -> nat, k: string)
    requires k in keys
    ensures Sum(keys, f) == f(k) + Sum(keys - {k}, f)
    decreases |keys|
  {
    var first :| first in keys && Sum(keys, f) == f(first) + Sum(keys - {first}, f);
    if first != k {
      SumExtract(keys - {first}, f, k);
      SumExtract(keys - {k}, f, first);
      assert keys - {first} - {k} == keys - {k} - {first};
    }
  }

  lemma {:induction false} SumSame(keys: set<string>, f: string -> nat, g: string -> nat)
    requires forall k :: k in keys ==> f(k) == g(k)
    ensures Sum(keys, f) == Sum(keys, g)
    decreases |keys|
  {
    if keys != {} {
      var k :| k in keys;
      SumExtract(keys, f, k);
      SumExtract(keys, g, k);
      SumSame(keys - {k}, f, g);
    }
  }

  /** The number of objects in a JSON value, at any depth. */
  ghost function Objects(json: Json): nat
    decreases json, 1, 0
  {
    match json
    case Object(members) => 1 + ObjectsUnder(json, members.Keys)
    case Array(items) => ObjectsIn(items)
    case _ => 0
  }

  ghost function ObjectsIn(items: seq<Json>): nat
    decreases items, 0, 0
  {
    if items == [] then 0 else ObjectsIn(items[..|items| - 1]) + Objects(items[|items| - 1])
  }

  ghost function ObjectsUnder(json: Json, keys: set<string>): nat
    requires json.Object? && keys <= json.members.Keys
    decreases json, 0, |keys|
  {
    if keys == {} then 0
    else
      var k :| k in keys;
      Objects(json.members[k]) + ObjectsUnder(json, keys - {k})
  }

  lemma {:induction false} ObjectsUnderIsSum(json: Json, keys: set<string>, f: string -> nat)
    requires json.Object? && keys <= json.members.Keys
    requires forall k :: k in keys ==> f(k) == Objects(json.members[k])
    ensures ObjectsUnder(json, keys) == Sum(keys, f)
    decreases |keys|
  {
    if keys != {} {
      var k :| k in keys && ObjectsUnder(json, keys) == Objects(json.members[k]) + ObjectsUnder(json, keys - {k});
      SumExtract(keys, f, k);
      ObjectsUnderIsSum(json, keys - {k}, f);
    }
  }

  lemma {:induction false} ObjectsInConcat(a: seq<Json>, b: seq<Json>)
    ensures ObjectsIn(a + b) == ObjectsIn(a) + ObjectsIn(b)
  {
    if b == [] {
      assert a + b == a;
    } else {
      assert (a + b)[..|a + b| - 1] == a + b[..|b| - 1];
      ObjectsInConcat(a, b[..|b| - 1]);
    }
  }

  /** The elements the conversion reaches: the node itself and, under it, every named one. */
  ghost function NamedElements(node: Node): nat
    decreases node, 1
  {
    1 + if node.Element? then NamedElementsIn(node.children) else 0
  }

  ghost function NamedElementsIn(children: seq<Node>): nat
    decreases children, 0
  {
    if children == [] then 0
    else
      var last := children[|children| - 1];
      NamedElementsIn(children[..|children| - 1]) + if last.Name() != "" then NamedElements(last) else 0
  }

  /** Those of them that have attributes. */
  ghost function WithAttributes(node: Node): nat
    decreases node, 1
  {
    (if node.Attributes() != [] then 1 else 0) + if node.Element? then WithAttributesIn(node.children) else 0
  }

  ghost function WithAttributesIn(children: seq<Node>): nat
    decreases children, 0
  {
    if children == [] then 0
    else
      var last := children[|children| - 1];
      WithAttributesIn(children[..|children| - 1]) + if last.Name() != "" then WithAttributes(last) else 0
  }

  lemma {:induction false} Conservation(node: Node)
    ensures Objects(Convert(node)) == NamedElements(node) + WithAttributes(node)
    decreases node, 1
  {
    var data := Convert(node);
    var keys := data.members.Keys;
    var perName := (name: string) => ObjectsIn(Items(node, name));
    forall name | name in keys ensures Objects(data.members[name]) == perName(name) {
      ClosedForm(node, name);
      ObjectsPack(Items(node, name));
    }
    ObjectsUnderIsSum(data, keys, perName);
    SumOfItems(node, keys, perName);
  }

  lemma ObjectsPack(items: seq<Json>)
    ensures Objects(Pack(items)) == ObjectsIn(items)
  {
    if |items| == 1 {
      assert items[..0] == [];
    }
  }

  /** Summed over the member names, the reserved values and the children separate. */
  lemma {:induction false} SumOfItems(node: Node, keys: set<string>, all: string -> nat)
    requires keys == Convert(node).members.Keys
    requires forall name :: name in keys ==> all(name) == ObjectsIn(Items(node, name))
    ensures Sum(keys, all) + 1 == NamedElements(node) + WithAttributes(node)
    decreases node, 0
  {
    var fromChildren := (name: string) => ObjectsIn(ConvertNamed(node.Children(), name));
    forall name | name in keys
      ensures all(name) == ObjectsIn(Reserved(node, name)) + fromChildren(name)
    {
      ObjectsInConcat(Reserved(node, name), ConvertNamed(node.Children(), name));
    }
    forall child | child in node.Children() && child.Name() != "" ensures child.Name() in keys {
      ClosedForm(node, child.Name());
      ConvertNamedNonempty(node.Children(), child.Name());
    }
    ClosedForm(node, "");
    if node.Element? {
      SumOverChildren(node.children, keys, fromChildren);
    } else {
      SumZero(keys, fromChildren);
    }
    SumOfReserved(node, keys, all, fromChildren);
  }

  lemma {:induction false} SumOfReserved(node: Node, keys: set<string>, all: string -> nat, rest: string -> nat)
    requires keys == Convert(node).members.Keys
    requires forall name :: name in keys ==> all(name) == ObjectsIn(Reserved(node, name)) + rest(name)
    ensures Sum(keys, all) == Sum(keys, rest) + if node.Attributes() != [] then 1 else 0
  {
    forall name | name in keys && (name != "attrib" || node.Attributes() == [])
      ensures all(name) == rest(name)
    {
      NoObjectElsewhere(node, name);
    }
    if node.Attributes() != [] {
      ClosedForm(node, "attrib");
      AttributesAreOneObject(node);
      SumExtract(keys, all, "attrib");
      SumExtract(keys, rest, "attrib");
      SumSame(keys - {"attrib"}, all, rest);
    } else {
      SumSame(keys, all, rest);
    }
  }

  lemma NoObjectElsewhere(node: Node, name: string)
    requires name != "attrib" || node.Attributes() == []
    ensures ObjectsIn(Reserved(node, name)) == 0
  {
    var reserved := Reserved(node, name);
    if reserved != [] {
      assert reserved[..0] == [];
    }
  }

  lemma {:induction false} SumZero(keys: set<string>, f: string -> nat)
    requires forall k :: k in keys ==> f(k) == 0
    ensures Sum(keys, f) == 0
    decreases |keys|
  {
    if keys != {} {
      var k :| k in keys;
      SumExtract(keys, f, k);
      SumZero(keys - {k}, f);
    }
  }

  lemma {:induction false} AttributesAreOneObject(node: Node)
    requires node.Attributes() != []
    ensures ObjectsIn(Reserved(node, "attrib")) == 1
  {
    var json := Object(AttributeMap(node.Attributes()));
    AttributeMapEmpty(node.Attributes());
    ObjectsUnderIsSum(json, json.members.Keys, name => 0);
    SumZero(json.members.Keys, name => 0);
    assert [json][..0] == [];
    assert ObjectsIn([json]) == ObjectsIn([]) + Objects(json);
  }

  lemma {:induction false} SumOverChildren(children: seq<Node>, keys: set<string>, f: string -> nat)
    requires forall child :: child in children && child.Name() != "" ==> child.Name() in keys
    requires "" !in keys
    requires forall name :: name in keys ==> f(name) == ObjectsIn(ConvertNamed(children, name))
    ensures Sum(keys, f) == NamedElementsIn(children) + WithAttributesIn(children)
    decreases children, 0
  {
    if children == [] {
      SumZero(keys, f);
    } else {
      var init, last := children[..|children| - 1], children[|children| - 1];
      var g := (name: string) => ObjectsIn(ConvertNamed(init, name));
      SumOverChildren(init, keys, g);
      var k := last.Name();
      forall name | name in keys ensures f(name) == g(name) + if name == k then Objects(Convert(last)) else 0 {
        OneMore(children, name);
      }
      if k == "" {
        SumSame(keys, f, g);
      } else {
        Conservation(last);
        SumExtract(keys, f, k);
        SumExtract(keys, g, k);
        SumSame(keys - {k}, f, g);
      }
    }
  }

  lemma OneMore(children: seq<Node>, name: string)
    requires children != []
    ensures var last := children[|children| - 1];
            ObjectsIn(ConvertNamed(children, name))
            == ObjectsIn(ConvertNamed(children[..|children| - 1], name))
               + if name == last.Name() then Objects(Convert(last)) else 0
  {
    var init, last := children[..|children| - 1], children[|children| - 1];
    if name == last.Name() {
      assert [Convert(last)][..0] == [];
      ObjectsInConcat(ConvertNamed(init, name), [Convert(last)]);
    } else {
      assert ConvertNamed(children, name) == ConvertNamed(init, name);
    }
  }
}
