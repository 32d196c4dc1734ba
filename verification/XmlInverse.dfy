/** How much of a document its JSON keeps: exactly when the conversion can be undone, and how. */
module XmlInverse {
  import opened Json
  import opened Xml
  import opened XmlToJson

  /** Two nodes that differ only in what the conversion never looks at: the order of attributes, how
      children of different names are interleaved, where the text stands, and text after the first run. */
  ghost predicate Equivalent(t: Node, u: Node)
    decreases t, 1
  {
    && t.Name() == u.Name()
    && AttributeMap(t.Attributes()) == AttributeMap(u.Attributes())
    && t.TextOf() == u.TextOf()
    && forall name | name != "" :: EquivalentUnder(t, u, name)
  }

  /** The same number of children of a name, equivalent one by one. */
  ghost predicate EquivalentUnder(t: Node, u: Node, name: string)
    requires name != ""
    decreases t, 0
  {
    var ts, us := Named(t.Children(), name), Named(u.Children(), name);
    && |ts| == |us|
    && (t.Element? ==> forall i | 0 <= i < |ts| :: assert ts[i] in ts; Equivalent(ts[i], us[i]))
  }

  /** Every attribute is named `text`, and the last, which counts, has a value. */
  predicate TextAttribute(attributes: seq<Attribute>) {
    && attributes != []
    && (forall a :: a in attributes ==> a.name == "text")
    && attributes[|attributes| - 1].value != ""
  }

  /** An element that holds text and neither attributes nor named children. */
  predicate BareText(node: Node) {
    && node.Element? && node.attributes == []
    && node.TextOf() != ""
    && forall child :: child in node.children ==> child.Name() == ""
  }

  /** A node whose JSON is also that of a node with one attribute more or less: its only attribute is a
      non-empty `text`, or it has none and its first child named `attrib` is bare text. */
  predicate Ambiguous(node: Node) {
    || TextAttribute(node.Attributes())
    || (node.Attributes() == []
        && Named(node.Children(), "attrib") != []
        && BareText(Named(node.Children(), "attrib")[0]))
  }

  ghost predicate Unambiguous(node: Node) {
    && !Ambiguous(node)
    && (node.Element? ==> forall child | child in node.children && child.Name() != "" :: Unambiguous(child))
  }

  lemma SameItems(t: Node, u: Node)
    requires forall name | name != "" :: Items(t, name) == Items(u, name)
    ensures Convert(t) == Convert(u)
  {
    var a, b := Convert(t).members, Convert(u).members;
    forall name
      ensures name in a <==> name in b
      ensures name in a ==> a[name] == b[name]
    {
      SameMember(t, u, name);
    }
    assert a == b;
  }

  lemma SameMember(t: Node, u: Node, name: string)
    requires name != "" ==> Items(t, name) == Items(u, name)
    ensures var a, b := Convert(t).members, Convert(u).members;
            (name in a <==> name in b) && (name in a ==> a[name] == b[name])
  {
    ClosedForm(t, name);
    ClosedForm(u, name);
  }

  lemma PackInjective(a: seq<Json>, b: seq<Json>)
    requires a != [] && b != [] && Pack(a) == Pack(b)
    requires !a[0].Array? && !b[0].Array?
    ensures a == b
  {
  }

  lemma ItemsFromConvert(t: Node, u: Node, name: string)
    requires Convert(t) == Convert(u) && name != ""
    ensures Items(t, name) == Items(u, name)
  {
    var a, b := Items(t, name), Items(u, name);
    assert a != [] <==> b != [] by {
      ClosedForm(t, name);
      ClosedForm(u, name);
    }
    if a != [] {
      assert Pack(a) == Pack(b) by {
        ClosedForm(t, name);
        ClosedForm(u, name);
      }
      FirstItemNoArray(t, name);
      FirstItemNoArray(u, name);
      PackInjective(a, b);
    }
  }

  lemma FirstItemNoArray(node: Node, name: string)
    requires Items(node, name) != []
    ensures !Items(node, name)[0].Array?
  {
    ItemsHoldNoArray(node, node.Children(), name);
    assert Items(node, name)[0] in Reserved(node, name) + ConvertNamed(node.Children(), name);
  }

  /** The conversion does not tell equivalent nodes apart. */
  lemma {:induction false} EquivalentConvert(t: Node, u: Node)
    requires Equivalent(t, u)
    ensures Convert(t) == Convert(u)
    decreases t, 1
  {
    AttributeMapEmpty(t.Attributes());
    AttributeMapEmpty(u.Attributes());
    forall name | name != "" ensures Items(t, name) == Items(u, name) {
      EquivalentConvertUnder(t, u, name);
    }
    SameItems(t, u);
  }

  lemma {:induction false} EquivalentConvertUnder(t: Node, u: Node, name: string)
    requires name != "" && EquivalentUnder(t, u, name)
    ensures ConvertNamed(t.Children(), name) == ConvertNamed(u.Children(), name)
    decreases t, 0
  {
    var ts, us := Named(t.Children(), name), Named(u.Children(), name);
    ConvertNamedIs(t.Children(), name);
    ConvertNamedIs(u.Children(), name);
    forall i | 0 <= i < |ts| ensures Convert(ts[i]) == Convert(us[i]) {
      assert ts[i] in ts;
      EquivalentConvert(ts[i], us[i]);
    }
  }

  predicate TextOnly(json: Json) {
    && json.Object?
    && json.members.Keys == {"text"}
    && json.members["text"].String?
    && json.members["text"].text != ""
  }

  lemma {:induction false} TextAttributeMap(attributes: seq<Attribute>)
    requires forall a :: a in attributes ==> a.name == "text"
    ensures attributes != [] ==>
      AttributeMap(attributes) == map["text" := String(attributes[|attributes| - 1].value)]
  {
    if attributes != [] {
      TextAttributeMap(attributes[..|attributes| - 1]);
    }
  }

  lemma {:induction false} AttributeNames(attributes: seq<Attribute>, a: Attribute)
    requires a in attributes
    ensures a.name in AttributeMap(attributes)
  {
    var init, last := attributes[..|attributes| - 1], attributes[|attributes| - 1];
    assert attributes == init + [last];
    if a != last {
      AttributeNames(init, a);
    }
  }

  /** The two forms of bare text, told from their JSON. */
  lemma TextAttributeIs(attributes: seq<Attribute>)
    ensures TextAttribute(attributes) <==> TextOnly(Object(AttributeMap(attributes)))
  {
    if TextOnly(Object(AttributeMap(attributes))) {
      forall a | a in attributes ensures a.name == "text" {
        AttributeNames(attributes, a);
      }
    }
    if forall a :: a in attributes ==> a.name == "text" {
      TextAttributeMap(attributes);
    }
  }

  lemma BareTextIs(node: Node)
    requires node.Element?
    ensures BareText(node) <==> TextOnly(Convert(node))
  {
    ClosedForm(node, "text");
    ConvertNamedNonempty(node.children, "text");
    ConvertNamedIs(node.children, "text");
    if BareText(node) {
      assert MemberNames(node) == {"text"};
    } else if TextOnly(Convert(node)) {
      assert MemberNames(node) == {"text"};
      assert "attrib" !in MemberNames(node);
      assert |Items(node, "text")| == 1;
      forall child | child in node.children ensures child.Name() == "" {
        assert child.Name() != "" ==> child.Name() in MemberNames(node);
      }
    }
  }

  lemma AmbiguousIs(node: Node)
    ensures Ambiguous(node)
       <==> || TextOnly(Object(AttributeMap(node.Attributes())))
            || (node.Attributes() == []
                && Named(node.Children(), "attrib") != []
                && TextOnly(Convert(Named(node.Children(), "attrib")[0])))
  {
    TextAttributeIs(node.Attributes());
    var named := Named(node.Children(), "attrib");
    if named != [] {
      assert named[0] in named;
      BareTextIs(named[0]);
    }
  }

  /** A child whose object holds nothing but strings can only hold text. */
  lemma OnlyStrings(node: Node)
    requires Convert(node).members != map[]
    requires forall name | name in Convert(node).members :: Convert(node).members[name].String?
    ensures TextOnly(Convert(node))
  {
    var members := Convert(node).members;
    forall name | name in members ensures name == "text" && members[name].text != "" {
      ClosedForm(node, name);
      ConvertNamedIs(node.Children(), name);
      var items := Items(node, name);
      assert |items| == 1;
      assert items[0].String?;
      assert Reserved(node, name) == items;
    }
    var some :| some in members;
    assert members.Keys == {"text"};
  }

  /** The attributes and the text can be read back off the items, unless the node is ambiguous. */
  lemma ReservedAgree(t: Node, u: Node, name: string)
    requires Convert(t) == Convert(u) && name != ""
    requires !Ambiguous(t)
    ensures Reserved(t, name) == Reserved(u, name)
    ensures ConvertNamed(t.Children(), name) == ConvertNamed(u.Children(), name)
  {
    AmbiguousIs(t);
    ItemsFromConvert(t, u, name);
    ConvertNamedIs(t.Children(), name);
    ConvertNamedIs(u.Children(), name);
    var a, b := Reserved(t, name), Reserved(u, name);
    AttributeMapEmpty(t.Attributes());
    AttributeMapEmpty(u.Attributes());
    if |a| == |b| {
    } else if |a| == 1 {
      assert a[0] == Items(u, name)[0] == Convert(Named(u.Children(), name)[0]);
      OnlyStrings(Named(u.Children(), name)[0]);
    } else {
      assert b[0] == Items(t, name)[0] == Convert(Named(t.Children(), name)[0]);
      OnlyStrings(Named(t.Children(), name)[0]);
    }
    var items := Items(t, name);
    assert items[..|a|] == a && items[|a|..] == ConvertNamed(t.Children(), name);
    assert items[..|b|] == b && items[|b|..] == ConvertNamed(u.Children(), name);
  }

  lemma SameHead(t: Node, u: Node)
    requires !Ambiguous(t) && Convert(t) == Convert(u)
    ensures AttributeMap(t.Attributes()) == AttributeMap(u.Attributes())
    ensures t.TextOf() == u.TextOf()
  {
    ReservedAgree(t, u, "attrib");
    ReservedAgree(t, u, "text");
    AttributeMapEmpty(t.Attributes());
    AttributeMapEmpty(u.Attributes());
  }

  lemma SameNamedCount(t: Node, u: Node, name: string)
    requires !Ambiguous(t) && Convert(t) == Convert(u) && name != ""
    ensures |Named(t.Children(), name)| == |Named(u.Children(), name)|
    ensures ConvertNamed(t.Children(), name) == ConvertNamed(u.Children(), name)
  {
    ReservedAgree(t, u, name);
    ConvertNamedIs(t.Children(), name);
    ConvertNamedIs(u.Children(), name);
  }

  /** Whatever node has the JSON of an unambiguous one is equivalent to it. */
  lemma {:induction false} Injective(t: Node, u: Node)
    requires Unambiguous(t)
    requires t.Name() == u.Name() && Convert(t) == Convert(u)
    ensures Equivalent(t, u)
    decreases t, 1
  {
    SameHead(t, u);
    forall name | name != "" ensures EquivalentUnder(t, u, name) {
      SameNamedCount(t, u, name);
      if t.Element? {
        forall i | 0 <= i < |Named(t.children, name)|
          ensures Equivalent(Named(t.children, name)[i], Named(u.Children(), name)[i])
        {
          InjectiveAt(t, u, name, i);
        }
      }
    }
  }

  lemma {:induction false} InjectiveAt(t: Node, u: Node, name: string, i: nat)
    requires t.Element? && Unambiguous(t) && name != ""
    requires ConvertNamed(t.Children(), name) == ConvertNamed(u.Children(), name)
    requires i < |Named(t.children, name)| == |Named(u.Children(), name)|
    ensures Equivalent(Named(t.children, name)[i], Named(u.Children(), name)[i])
    decreases t, 0
  {
    var ts, us := Named(t.children, name), Named(u.Children(), name);
    ConvertNamedIs(t.children, name);
    ConvertNamedIs(u.Children(), name);
    assert ts[i] in ts && us[i] in us;
    assert Convert(ts[i]) == ConvertNamed(t.children, name)[i] == Convert(us[i]);
    Injective(ts[i], us[i]);
  }

  function TextChild(s: string): Node {
    Element("attrib", [], [Text(s)])
  }

  /** Two nodes with the same text hold the same items if their attributes and children do. */
  lemma SameItemsAt(t: Node, u: Node, name: string)
    requires t.Element? && u.Element? && t.TextOf() == u.TextOf()
    requires name != "attrib" ==> ConvertNamed(t.children, name) == ConvertNamed(u.children, name)
    requires name == "attrib" ==>
      Reserved(t, name) + ConvertNamed(t.children, name) == Reserved(u, name) + ConvertNamed(u.children, name)
    ensures Items(t, name) == Items(u, name)
  {
  }

  /** A text attribute can be turned into a child. */
  lemma MoveTextIn(t: Node, u: Node, s: string, name: string)
    requires t.Element? && s != "" && name != ""
    requires AttributeMap(t.attributes) == map["text" := String(s)]
    requires u == Element(t.tag, [], [TextChild(s)] + t.children)
    ensures Items(t, name) == Items(u, name)
  {
    assert "text" in AttributeMap(t.attributes);
    TextOnlyChild(TextChild(s), s);
    MoreChildren([TextChild(s)], t.children, name);
    ConvertNamedOne(TextChild(s), name);
    SameItemsAt(t, u, name);
  }

  /** A child that is bare text can be turned into an attribute. */
  lemma MoveTextOut(t: Node, u: Node, s: string, name: string)
    requires t.Element? && t.attributes == [] && Named(t.children, "attrib") != [] && name != ""
    requires Convert(Named(t.children, "attrib")[0]) == Object(map["text" := String(s)])
    requires u == Element(t.tag, [Attribute("text", s)], RemoveFirst(t.children, "attrib"))
    ensures Items(t, name) == Items(u, name)
  {
    assert u.attributes[..0] == [];
    assert AttributeMap(u.attributes) == map["text" := String(s)];
    RemoveFirstText(t.children, "attrib");
    RemoveFirstConvert(t.children, "attrib", name);
    SameItemsAt(t, u, name);
  }

  lemma RemoveFirstConvert(nodes: seq<Node>, name: string, other: string)
    ensures other != name ==> ConvertNamed(RemoveFirst(nodes, name), other) == ConvertNamed(nodes, other)
    ensures Named(nodes, name) != [] ==>
      ConvertNamed(nodes, name) == [Convert(Named(nodes, name)[0])] + ConvertNamed(RemoveFirst(nodes, name), name)
  {
    if other != name {
      RemoveFirstNamed(nodes, name, other);
      SameNamed(RemoveFirst(nodes, name), nodes, other);
    }
    RemoveFirstConverted(nodes, name);
  }

  lemma RemoveFirstConverted(nodes: seq<Node>, name: string)
    ensures Named(nodes, name) != [] ==>
      ConvertNamed(nodes, name) == [Convert(Named(nodes, name)[0])] + ConvertNamed(RemoveFirst(nodes, name), name)
  {
    RemoveFirstNamed(nodes, name, name);
    ConvertNamedIs(nodes, name);
    ConvertNamedIs(RemoveFirst(nodes, name), name);
  }

  /** An ambiguous node has the JSON of one whose attributes differ. */
  lemma AmbiguousTwin(t: Node) returns (u: Node)
    requires Ambiguous(t)
    ensures u.Name() == t.Name() && Convert(u) == Convert(t) && !Equivalent(t, u)
  {
    AmbiguousIs(t);
    AttributeMapEmpty(t.Attributes());
    if t.attributes != [] {
      var s := AttributeMap(t.attributes)["text"].text;
      u := Element(t.tag, [], [TextChild(s)] + t.children);
      assert AttributeMap(t.attributes) == map["text" := String(s)];
      forall name | name != "" ensures Items(t, name) == Items(u, name) {
        MoveTextIn(t, u, s, name);
      }
    } else {
      var bare := Convert(Named(t.children, "attrib")[0]);
      var s := bare.members["text"].text;
      u := Element(t.tag, [Attribute("text", s)], RemoveFirst(t.children, "attrib"));
      assert bare.members == map["text" := String(s)];
      AttributeMapEmpty(u.attributes);
      forall name | name != "" ensures Items(t, name) == Items(u, name) {
        MoveTextOut(t, u, s, name);
      }
    }
    SameItems(t, u);
  }

  lemma TextOnlyChild(child: Node, s: string)
    requires child == TextChild(s) && s != ""
    ensures Convert(child) == Object(map["text" := String(s)])
  {
    assert Named(child.children, "text") == [] && Named(child.children, "attrib") == [];
    ConvertNamedIs(child.children, "text");
    ClosedForm(child, "text");
    assert MemberNames(child) == {"text"};
  }

  lemma ConvertNamedOne(child: Node, name: string)
    ensures ConvertNamed([child], name) == if child.Name() == name then [Convert(child)] else []
  {
    assert [child][..0] == [];
  }

  lemma MoreChildren(a: seq<Node>, b: seq<Node>, name: string)
    ensures ConvertNamed(a + b, name) == ConvertNamed(a, name) + ConvertNamed(b, name)
  {
    NamedConcat(a, b, name);
    ConvertNamedIs(a + b, name);
    ConvertNamedIs(a, name);
    ConvertNamedIs(b, name);
  }

  /** A node that is ambiguous anywhere has the JSON of a node that is not equivalent to it. */
  lemma {:induction false} Twin(t: Node) returns (u: Node)
    requires !Unambiguous(t)
    ensures u.Name() == t.Name() && Convert(u) == Convert(t) && !Equivalent(t, u)
    decreases t
  {
    if Ambiguous(t) {
      u := AmbiguousTwin(t);
    } else {
      var i :| 0 <= i < |t.children| && t.children[i].Name() != "" && !Unambiguous(t.children[i]);
      var twin := Twin(t.children[i]);
      u := TwinInside(t, i, twin);
    }
  }

  lemma TwinItems(t: Node, u: Node, before: seq<Node>, child: Node, twin: Node, after: seq<Node>, name: string)
    requires t.Element? && t.children == before + [child] + after && child.Name() != ""
    requires u == Element(t.tag, t.attributes, before + [twin] + after)
    requires twin.Name() == child.Name() && Convert(twin) == Convert(child)
    ensures Items(t, name) == Items(u, name)
  {
    FirstTextInside(before, child, twin, after);
    ConvertNamedOne(child, name);
    ConvertNamedOne(twin, name);
    MoreChildren(before, [child], name);
    MoreChildren(before, [twin], name);
    MoreChildren(before + [child], after, name);
    MoreChildren(before + [twin], after, name);
  }

  lemma TwinInside(t: Node, i: nat, twin: Node) returns (u: Node)
    requires t.Element? && i < |t.children| && t.children[i].Name() != ""
    requires twin.Name() == t.children[i].Name() && Convert(twin) == Convert(t.children[i])
    requires !Equivalent(t.children[i], twin)
    ensures u.Name() == t.Name() && Convert(u) == Convert(t) && !Equivalent(t, u)
  {
    var child, before, after := t.children[i], t.children[..i], t.children[i + 1..];
    u := Element(t.tag, t.attributes, before + [twin] + after);
    assert t.children == before + [child] + after;
    forall name | name != "" ensures Items(t, name) == Items(u, name) {
      TwinItems(t, u, before, child, twin, after, name);
    }
    SameItems(t, u);
    TwinDiffers(t, u, before, child, twin, after);
  }

  lemma TwinDiffers(t: Node, u: Node, before: seq<Node>, child: Node, twin: Node, after: seq<Node>)
    requires t.Element? && t.children == before + [child] + after
    requires u.Element? && u.children == before + [twin] + after
    requires twin.Name() == child.Name() != "" && !Equivalent(child, twin)
    ensures !Equivalent(t, u)
  {
    var name := child.Name();
    NamedMiddle(before, child, after, name);
    NamedMiddle(before, twin, after, name);
    var ts, us, j := Named(t.children, name), Named(u.children, name), |Named(before, name)|;
    assert ts[j] == child && us[j] == twin;
    assert !EquivalentUnder(t, u, name);
  }

  lemma FirstTextInside(before: seq<Node>, child: Node, twin: Node, after: seq<Node>)
    requires child.Name() != "" && twin.Name() != ""
    ensures FirstText(before + [child] + after) == FirstText(before + [twin] + after)
  {
    if before != [] {
      FirstTextInside(before[1..], child, twin, after);
      assert (before + [child] + after)[1..] == before[1..] + [child] + after;
      assert (before + [twin] + after)[1..] == before[1..] + [twin] + after;
    }
  }

  lemma NamedMiddle(before: seq<Node>, child: Node, after: seq<Node>, name: string)
    requires child.Name() == name
    ensures Named(before + [child] + after, name) == Named(before, name) + [child] + Named(after, name)
  {
    assert [child][..0] == [];
    NamedConcat(before, [child], name);
    NamedConcat(before + [child], after, name);
  }

  /** The conversion can be undone, up to equivalence, on exactly the unambiguous documents. */
  lemma InjectiveExactly(t: Node)
    ensures Unambiguous(t)
       <==> forall u: Node :: u.Name() == t.Name() && Convert(u) == Convert(t) ==> Equivalent(t, u)
  {
    if Unambiguous(t) {
      forall u: Node | u.Name() == t.Name() && Convert(u) == Convert(t) ensures Equivalent(t, u) {
        Injective(t, u);
      }
    } else {
      var u := Twin(t);
    }
  }
}
