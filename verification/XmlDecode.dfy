/** A way back from the JSON of a node to a node. */
module XmlDecode {
  import opened Json
  import opened Xml
  import opened XmlToJson
  import opened XmlInverse

  ghost function Ordered(names: set<string>): (r: seq<string>)
    ensures forall n :: n in r <==> n in names
    ensures forall i, j :: 0 <= i < j < |r| ==> r[i] != r[j]
    decreases |names|
  {
    if names == {} then []
    else
      var n :| n in names;
      Ordered(names - {n}) + [n]
  }

  function ItemsUnder(json: Json, name: string): (r: seq<Json>)
    requires json.Object?
    ensures forall item :: item in r ==> item < json
  {
    if name !in json.members then []
    else if json.members[name].Array? then json.members[name].items
    else [json.members[name]]
  }

  predicate IsAttributes(json: Json) {
    && json.Object?
    && json.members != map[]
    && forall name | name in json.members :: json.members[name].String?
  }

  /** Whether the first item under a name reads as the reserved value of that name. */
  predicate HeadIsReserved(json: Json, name: string)
    requires json.Object?
  {
    var items := ItemsUnder(json, name);
    && items != []
    && ((name == "attrib" && IsAttributes(items[0])) || (name == "text" && items[0].String?))
  }

  function ChildItems(json: Json, name: string): (r: seq<Json>)
    requires json.Object?
    ensures forall item :: item in r ==> item < json
  {
    if HeadIsReserved(json, name) then ItemsUnder(json, name)[1..] else ItemsUnder(json, name)
  }

  ghost function DecodeAttributes(members: map<string, Json>, names: seq<string>): seq<Attribute>
    requires forall n :: n in names ==> n in members && members[n].String?
  {
    if names == [] then []
    else
      var last := names[|names| - 1];
      DecodeAttributes(members, names[..|names| - 1]) + [Attribute(last, members[last].text)]
  }

  ghost function DecodeAll(json: Json, name: string, items: seq<Json>): (r: seq<Node>)
    requires forall item :: item in items ==> item < json
    ensures |r| == |items|
    ensures forall i :: 0 <= i < |r| ==> r[i].Element? && r[i].tag == name
    ensures forall i :: 0 <= i < |r| ==> assert items[i] in items; r[i] == Decode(name, items[i])
    decreases json, 0, 0
  {
    seq(|items|, i requires 0 <= i < |items| => assert items[i] in items; Decode(name, items[i]))
  }

  ghost function DecodeChildren(json: Json, names: seq<string>): (r: seq<Node>)
    requires json.Object?
    ensures forall c :: c in r ==> c.Element?
    decreases json, 0, |names|
  {
    if names == [] then []
    else
      var last := names[|names| - 1];
      DecodeChildren(json, names[..|names| - 1]) + DecodeAll(json, last, ChildItems(json, last))
  }

  ghost function ReadAttributes(json: Json): seq<Attribute>
    requires json.Object?
  {
    if HeadIsReserved(json, "attrib") then
      var members := ItemsUnder(json, "attrib")[0].members;
      DecodeAttributes(members, Ordered(members.Keys))
    else []
  }

  function ReadText(json: Json): (r: seq<Node>)
    requires json.Object?
    ensures forall c :: c in r ==> c.Name() == ""
  {
    if HeadIsReserved(json, "text") then [Text(ItemsUnder(json, "text")[0].text)] else []
  }

  /** A node of the given name with this JSON, the attributes read back before anything else. */
  ghost function Decode(name: string, json: Json): (r: Node)
    ensures r.Element? && r.tag == name
    decreases json, 1, 0
  {
    if !json.Object? then Element(name, [], [])
    else
      Element(name, ReadAttributes(json), ReadText(json) + DecodeChildren(json, Ordered(json.members.Keys)))
  }

  lemma ItemsUnderConvert(node: Node, name: string)
    requires name != ""
    ensures Convert(node).Object?
    ensures ItemsUnder(Convert(node), name) == Items(node, name)
  {
    ClosedForm(node, name);
    if Items(node, name) != [] {
      FirstItemNoArray(node, name);
    }
  }

  lemma DecodedAttribute(members: map<string, Json>, names: seq<string>, name: string)
    requires forall n :: n in names ==> n in members && members[n].String?
    ensures var decoded := AttributeMap(DecodeAttributes(members, names));
            && (name in decoded <==> name in names)
            && (name in decoded ==> decoded[name] == members[name])
  {
    if names != [] {
      var init, last := names[..|names| - 1], names[|names| - 1];
      var attributes := DecodeAttributes(members, names);
      assert attributes[..|attributes| - 1] == DecodeAttributes(members, init);
      assert names == init + [last];
      DecodedAttribute(members, init, name);
    }
  }

  lemma AttributesRestored(members: map<string, Json>)
    requires forall n :: n in members ==> members[n].String?
    ensures AttributeMap(DecodeAttributes(members, Ordered(members.Keys))) == members
  {
    var names := Ordered(members.Keys);
    var decoded := AttributeMap(DecodeAttributes(members, names));
    forall n
      ensures n in decoded <==> n in members
      ensures n in decoded ==> decoded[n] == members[n]
    {
      DecodedAttribute(members, names, n);
    }
  }

  lemma {:induction false} NoTextAmongElements(nodes: seq<Node>)
    requires forall c :: c in nodes ==> c.Element?
    ensures FirstText(nodes) == ""
  {
    if nodes != [] {
      assert nodes[0] in nodes;
      NoTextAmongElements(nodes[1..]);
    }
  }

  lemma {:induction false} AllNamed(nodes: seq<Node>, name: string)
    requires forall i :: 0 <= i < |nodes| ==> nodes[i].Name() == name
    ensures Named(nodes, name) == nodes
  {
    if nodes != [] {
      var init, last := nodes[..|nodes| - 1], nodes[|nodes| - 1];
      AllNamed(init, name);
      assert nodes == init + [last];
    }
  }

  /** Of the decoded children, those of a name come from the items under it. */
  lemma {:induction false} DecodedNamed(json: Json, names: seq<string>, name: string)
    requires json.Object?
    requires forall i, j :: 0 <= i < j < |names| ==> names[i] != names[j]
    ensures Named(DecodeChildren(json, names), name)
         == if name in names then DecodeAll(json, name, ChildItems(json, name)) else []
  {
    if names != [] {
      var init, last := names[..|names| - 1], names[|names| - 1];
      var decoded := DecodeAll(json, last, ChildItems(json, last));
      DecodedNamed(json, init, name);
      NamedAppended(DecodeChildren(json, init), decoded, last, name);
      assert name in names <==> name in init || name == last;
    }
  }

  lemma NamedAppended(nodes: seq<Node>, more: seq<Node>, name: string, other: string)
    requires forall i :: 0 <= i < |more| ==> more[i].Name() == name
    ensures Named(nodes + more, other) == Named(nodes, other) + if other == name then more else []
  {
    NamedConcat(nodes, more, other);
    if other == name {
      AllNamed(more, name);
    } else {
      NamedNonempty(more, other);
    }
  }

  /** Converting the decoded node gives the JSON it came from, for every document. */
  lemma {:induction false} Reconvert(t: Node, name: string)
    ensures Convert(Decode(name, Convert(t))) == Convert(t)
    decreases t, 1, 0
  {
    var d := Decode(name, Convert(t));
    forall n | n != "" ensures Items(d, n) == Items(t, n) {
      ReconvertAt(t, name, n);
    }
    SameItems(d, t);
  }

  lemma {:induction false} ReconvertAt(t: Node, name: string, n: string)
    requires n != ""
    ensures Items(Decode(name, Convert(t)), n) == Items(t, n)
    decreases t, 0, 2
  {
    ItemsUnderConvert(t, n);
    ReservedRestored(t, name, n);
    ReconvertChildren(t, name, n);
    HeadAndRest(Convert(t), n);
    ItemsAre(Decode(name, Convert(t)), n);
  }

  lemma HeadAndRest(json: Json, name: string)
    requires json.Object?
    ensures (if HeadIsReserved(json, name) then [ItemsUnder(json, name)[0]] else []) + ChildItems(json, name)
         == ItemsUnder(json, name)
  {
  }

  lemma ItemsAre(node: Node, name: string)
    requires node.Element?
    ensures Items(node, name) == Reserved(node, name) + ConvertNamed(node.children, name)
  {
  }

  lemma {:induction false} ReconvertChildren(t: Node, name: string, n: string)
    requires n != ""
    ensures ConvertNamed(Decode(name, Convert(t)).children, n) == ChildItems(Convert(t), n)
    decreases t, 0, 1
  {
    var children, items := Decode(name, Convert(t)).children, ChildItems(Convert(t), n);
    DecodedChildrenNamed(t, name, n);
    ReconvertItems(t, n);
    ConvertNamedIs(children, n);
    forall i | 0 <= i < |items| ensures ConvertNamed(children, n)[i] == items[i] {
      assert items[i] in items;
      assert Named(children, n)[i] == Decode(n, items[i]);
    }
  }

  lemma {:induction false} ReconvertItems(t: Node, n: string)
    requires n != ""
    ensures forall item :: item in ChildItems(Convert(t), n) ==> Convert(Decode(n, item)) == item
    decreases t, 0, 0
  {
    ChildItemsAreConverted(t, n);
    forall item | item in ChildItems(Convert(t), n) ensures Convert(Decode(n, item)) == item {
      var c :| c in t.children && item == Convert(c);
      Reconvert(c, n);
    }
  }

  /** The items left for the children are conversions of children. */
  lemma ChildItemsAreConverted(t: Node, n: string)
    requires n != ""
    ensures forall item :: item in ChildItems(Convert(t), n) ==>
              t.Element? && exists c :: c in t.children && item == Convert(c)
  {
    ItemsUnderConvert(t, n);
    ConvertNamedIs(t.Children(), n);
    AttributeMapEmpty(t.Attributes());
    assert Reserved(t, n) != [] ==> HeadIsReserved(Convert(t), n);
    forall item | item in ChildItems(Convert(t), n)
      ensures t.Element? && exists c :: c in t.children && item == Convert(c)
    {
      assert item in ConvertNamed(t.Children(), n);
      var i :| 0 <= i < |ConvertNamed(t.Children(), n)| && ConvertNamed(t.Children(), n)[i] == item;
      assert Named(t.Children(), n)[i] in Named(t.Children(), n);
    }
  }

  lemma DecodedChildrenNamed(t: Node, name: string, n: string)
    requires n != ""
    ensures Named(Decode(name, Convert(t)).children, n)
         == DecodeAll(Convert(t), n, ChildItems(Convert(t), n))
  {
    var json := Convert(t);
    var names := Ordered(json.members.Keys);
    NamedNonempty(ReadText(json), n);
    NamedConcat(ReadText(json), DecodeChildren(json, names), n);
    DecodedNamed(json, names, n);
    ClosedForm(t, n);
  }

  /** What was read as attributes or text is reserved again. */
  lemma ReservedRestored(t: Node, name: string, n: string)
    requires n != ""
    ensures Reserved(Decode(name, Convert(t)), n)
         == if HeadIsReserved(Convert(t), n) then [ItemsUnder(Convert(t), n)[0]] else []
  {
    var json := Convert(t);
    if n == "attrib" {
      ReadAttributesRestored(json);
    } else if n == "text" {
      ReadTextRestored(t);
    }
  }

  lemma ReadAttributesRestored(json: Json)
    requires json.Object?
    ensures HeadIsReserved(json, "attrib") ==>
              ReadAttributes(json) != [] && Object(AttributeMap(ReadAttributes(json))) == ItemsUnder(json, "attrib")[0]
    ensures !HeadIsReserved(json, "attrib") ==> ReadAttributes(json) == []
  {
    if HeadIsReserved(json, "attrib") {
      AttributesRestored(ItemsUnder(json, "attrib")[0].members);
      AttributeMapEmpty(ReadAttributes(json));
    }
  }

  lemma ReadTextRestored(t: Node)
    ensures var json := Convert(t);
            var children := ReadText(json) + DecodeChildren(json, Ordered(json.members.Keys));
            FirstText(children)
            == if HeadIsReserved(json, "text") then ItemsUnder(json, "text")[0].text else ""
    ensures HeadIsReserved(Convert(t), "text") ==> ItemsUnder(Convert(t), "text")[0].text != ""
  {
    var json := Convert(t);
    var rest := DecodeChildren(json, Ordered(json.members.Keys));
    ItemsUnderConvert(t, "text");
    if HeadIsReserved(json, "text") {
      TextHead(t);
      assert (ReadText(json) + rest)[0] == ReadText(json)[0];
    } else {
      NoTextAmongElements(rest);
      assert ReadText(json) + rest == rest;
    }
  }

  lemma TextHead(t: Node)
    requires Items(t, "text") != [] && Items(t, "text")[0].String?
    ensures Items(t, "text")[0].text != ""
  {
    ConvertNamedIs(t.Children(), "text");
  }

  /** The way back: decoding gives the document again, up to equivalence, if it is unambiguous, and its
      conversion is the same JSON even if it is not. */
  lemma RoundTrip(t: Node)
    ensures Convert(Decode(t.Name(), Convert(t))) == Convert(t)
    ensures Unambiguous(t) ==> Equivalent(t, Decode(t.Name(), Convert(t)))
  {
    Reconvert(t, t.Name());
    if Unambiguous(t) {
      Injective(t, Decode(t.Name(), Convert(t)));
    }
  }
}
