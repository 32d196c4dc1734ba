/** What equivalence means for documents as libvirt writes them: nothing but order is lost. */
module XmlOrder {
  import opened Json
  import opened Xml
  import opened XmlToJson
  import opened XmlInverse

  predicate DistinctNames(attributes: seq<Attribute>) {
    forall i, j :: 0 <= i < j < |attributes| ==> attributes[i].name != attributes[j].name
  }

  /** At most one run of text, not an empty one, and no nameless element. */
  predicate RegularChildren(nodes: seq<Node>) {
    && |Named(nodes, "")| <= 1
    && forall child | child in nodes ::
         if child.Text? then child.content != "" else child.tag != ""
  }

  /** No attribute twice, no nameless element, and at most one run of text in an element. */
  ghost predicate Regular(node: Node) {
    && node.Element?
    && DistinctNames(node.attributes)
    && RegularChildren(node.children)
    && (forall child | child in node.children && child.Element? :: Regular(child))
  }

  /** The same attributes and text, and for each name the same children in the same order. */
  ghost predicate SameUpToOrder(t: Node, u: Node)
    decreases t, 1
  {
    && t.Name() == u.Name()
    && (forall a :: a in t.Attributes() <==> a in u.Attributes())
    && Named(t.Children(), "") == Named(u.Children(), "")
    && forall name | name != "" :: SameChildren(t, u, name)
  }

  ghost predicate SameChildren(t: Node, u: Node, name: string)
    requires name != ""
    decreases t, 0
  {
    var ts, us := Named(t.Children(), name), Named(u.Children(), name);
    && |ts| == |us|
    && (t.Element? ==> forall i | 0 <= i < |ts| :: assert ts[i] in ts; SameUpToOrder(ts[i], us[i]))
  }

  lemma AttributeIn(attributes: seq<Attribute>, a: Attribute)
    requires DistinctNames(attributes)
    ensures a in attributes
       <==> a.name in AttributeMap(attributes) && AttributeMap(attributes)[a.name] == String(a.value)
    ensures a.name in AttributeMap(attributes) <==> exists b :: b in attributes && b.name == a.name
  {
    if attributes != [] {
      var init, last := attributes[..|attributes| - 1], attributes[|attributes| - 1];
      assert attributes == init + [last];
      AttributeIn(init, a);
    }
  }

  lemma SameAttributes(a: seq<Attribute>, b: seq<Attribute>)
    requires DistinctNames(a) && DistinctNames(b)
    ensures AttributeMap(a) == AttributeMap(b) <==> forall x :: x in a <==> x in b
  {
    forall x
      ensures x in a <==> x.name in AttributeMap(a) && AttributeMap(a)[x.name] == String(x.value)
      ensures x in b <==> x.name in AttributeMap(b) && AttributeMap(b)[x.name] == String(x.value)
    {
      AttributeIn(a, x);
      AttributeIn(b, x);
    }
    if forall x :: x in a <==> x in b {
      AttributeMapEmpty(a);
      AttributeMapEmpty(b);
      forall name ensures name in AttributeMap(a) <==> name in AttributeMap(b)
                  ensures name in AttributeMap(a) ==> AttributeMap(a)[name] == AttributeMap(b)[name] {
        SameMember(a, b, name);
        SameMember(b, a, name);
      }
      assert AttributeMap(a) == AttributeMap(b);
    }
  }

  lemma SameMember(a: seq<Attribute>, b: seq<Attribute>, name: string)
    requires DistinctNames(a) && DistinctNames(b)
    requires forall x :: x in a ==> x in b
    ensures name in AttributeMap(a) ==> name in AttributeMap(b) && AttributeMap(a)[name] == AttributeMap(b)[name]
  {
    AttributeMapEmpty(a);
    if name in AttributeMap(a) {
      var x := Attribute(name, AttributeMap(a)[name].text);
      AttributeIn(a, x);
      AttributeIn(b, x);
    }
  }

  lemma TextOfRuns(nodes: seq<Node>)
    requires forall n | n in nodes && n.Element? :: n.tag != ""
    ensures Named(nodes, "") != [] ==> Named(nodes, "")[0].Text? && Named(nodes, "")[0] in nodes
    ensures FirstText(nodes) == if Named(nodes, "") == [] then "" else Named(nodes, "")[0].TextOf()
  {
    if nodes != [] {
      assert nodes[0] in nodes;
      NamedCons(nodes, "");
      TextOfRuns(nodes[1..]);
    }
  }

  lemma SameText(a: seq<Node>, b: seq<Node>)
    requires RegularChildren(a) && RegularChildren(b)
    ensures FirstText(a) == FirstText(b) <==> Named(a, "") == Named(b, "")
  {
    TextOfRuns(a);
    TextOfRuns(b);
  }

  lemma {:induction false} EquivalentIsSame(t: Node, u: Node)
    requires Regular(t) && Regular(u)
    ensures Equivalent(t, u) <==> SameUpToOrder(t, u)
    decreases t, 1
  {
    SameAttributes(t.attributes, u.attributes);
    SameText(t.children, u.children);
    forall name | name != "" ensures SameChildren(t, u, name) <==> EquivalentUnder(t, u, name) {
      SameChildrenAre(t, u, name);
    }
  }

  lemma {:induction false} SameChildrenAre(t: Node, u: Node, name: string)
    requires Regular(t) && Regular(u) && name != ""
    ensures SameChildren(t, u, name) <==> EquivalentUnder(t, u, name)
    decreases t, 0
  {
    var ts, us := Named(t.children, name), Named(u.children, name);
    if |ts| == |us| {
      forall i | 0 <= i < |ts| ensures Equivalent(ts[i], us[i]) <==> SameUpToOrder(ts[i], us[i]) {
        assert ts[i] in ts && us[i] in us;
        EquivalentIsSame(ts[i], us[i]);
      }
    }
  }

  /** Two regular documents with one root name, of which one is unambiguous, have the same JSON exactly
      when they differ in nothing but order. */
  lemma OnlyOrderIsLost(t: Node, u: Node)
    requires Regular(t) && Regular(u)
    requires Unambiguous(t) && t.tag == u.tag
    ensures Convert(t) == Convert(u) <==> SameUpToOrder(t, u)
  {
    EquivalentIsSame(t, u);
    if Convert(t) == Convert(u) {
      Injective(t, u);
    } else if Equivalent(t, u) {
      EquivalentConvert(t, u);
    }
  }
}
