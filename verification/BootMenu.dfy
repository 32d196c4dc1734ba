/** Switching the boot menu of a domain: an edit of its XML, answered with the converted result. */
module BootMenu {
  import opened Json
  import opened Xml
  import opened XmlToJson

  function EnableValue(enabled: bool): string {
    if enabled then "yes" else "no"
  }

  function Entry(enabled: bool): Node {
    Element("bootmenu", [Attribute("enable", EnableValue(enabled))], [])
  }

  /** The `os` element after the edit: the first boot menu gone, the requested one at the end. */
  function EditOs(os: Node, enabled: bool): Node
    requires os.Element?
  {
    Element(os.tag, os.attributes, RemoveFirst(os.children, "bootmenu") + [Entry(enabled)])
  }

  /** The nodes with the first one so named replaced. */
  function ReplaceFirst(nodes: seq<Node>, name: string, node: Node): seq<Node> {
    if nodes == [] then []
    else if nodes[0].Name() == name then [node] + nodes[1..]
    else [nodes[0]] + ReplaceFirst(nodes[1..], name, node)
  }

  /** The path the daemon follows: the first `domain`, in it the first `os`. */
  function DomainOf(document: seq<Node>): (r: seq<Node>)
    ensures forall n :: n in r ==> n.Element? && n.tag == "domain"
  {
    var domains := Named(document, "domain");
    if domains == [] then [] else assert domains[0] in domains; [domains[0]]
  }

  function OsOf(document: seq<Node>): (r: seq<Node>)
    ensures forall n :: n in r ==> n.Element? && n.tag == "os"
  {
    if DomainOf(document) == [] then []
    else
      var systems := Named(DomainOf(document)[0].Children(), "os");
      if systems == [] then [] else assert systems[0] in systems; [systems[0]]
  }

  function EditedDomain(document: seq<Node>, enabled: bool): (r: Node)
    requires OsOf(document) != []
    ensures r.Element? && r.tag == "domain"
  {
    var domain, os := DomainOf(document)[0], OsOf(document)[0];
    assert domain in DomainOf(document) && os in OsOf(document);
    Element(domain.tag, domain.attributes, ReplaceFirst(domain.children, "os", EditOs(os, enabled)))
  }

  function EditDocument(document: seq<Node>, enabled: bool): seq<Node> {
    if OsOf(document) == [] then document
    else ReplaceFirst(document, "domain", EditedDomain(document, enabled))
  }

  datatype Response = Response(status: nat, body: Json)

  function Answer(document: seq<Node>, enabled: bool, defined: bool): Response {
    if !defined then Response(500, Detail("Unable to replace domain XML"))
    else if OsOf(document) == [] then Response(200, Object(map[]))
    else
      assert OsOf(document)[0] in OsOf(document);
      Response(200, Convert(EditOs(OsOf(document)[0], enabled)))
  }

  /** The handler. Without a domain or an `os` the edit does nothing and the answer is the empty object. */
  method Switch(document: seq<Node>, post: bool, define: seq<Node> -> bool)
    returns (saved: seq<Node>, response: Response)
    ensures saved == EditDocument(document, post)
    ensures response == Answer(document, post, define(saved))
  {
    saved := document;
    var os := OsOf(document);
    if os != [] {
      assert os[0] in os;
      var children := RemoveFirst(os[0].children, "bootmenu");
      children := children + [Element("bootmenu", [], [])];
      children := children[|children| - 1 := Entry(post)];
      assert children == EditOs(os[0], post).children;
      os := [Element(os[0].tag, os[0].attributes, children)];
      var domain := DomainOf(document)[0];
      assert domain in DomainOf(document);
      saved := ReplaceFirst(document, "domain",
        Element(domain.tag, domain.attributes, ReplaceFirst(domain.children, "os", os[0])));
    }
    if !define(saved) {
      return saved, Response(500, Detail("Unable to replace domain XML"));
    }
    var body := Object(map[]);
    if os != [] {
      body := Run(os[0]);
    }
    response := Response(200, body);
  }

  /** The nodes with any other name, in order. */
  function Without(nodes: seq<Node>, name: string): seq<Node> {
    if nodes == [] then []
    else (if nodes[0].Name() == name then [] else [nodes[0]]) + Without(nodes[1..], name)
  }

  lemma {:induction false} WithoutConcat(a: seq<Node>, b: seq<Node>, name: string)
    ensures Without(a + b, name) == Without(a, name) + Without(b, name)
  {
    if a == [] {
      assert a + b == b;
    } else {
      assert (a + b)[1..] == a[1..] + b;
      WithoutConcat(a[1..], b, name);
    }
  }

  lemma {:induction false} RemoveFirstWithout(nodes: seq<Node>, name: string)
    ensures Without(RemoveFirst(nodes, name), name) == Without(nodes, name)
  {
    if nodes != [] && nodes[0].Name() != name {
      RemoveFirstWithout(nodes[1..], name);
      assert ([nodes[0]] + RemoveFirst(nodes[1..], name))[1..] == RemoveFirst(nodes[1..], name);
    }
  }

  lemma EditedBootmenus(os: Node, enabled: bool, name: string)
    requires os.Element?
    ensures var before, after := Named(os.children, name), Named(EditOs(os, enabled).children, name);
            if name != "bootmenu" then after == before
            else after == (if before == [] then [] else before[1..]) + [Entry(enabled)]
  {
    RemoveFirstNamed(os.children, "bootmenu", name);
    NamedConcat(RemoveFirst(os.children, "bootmenu"), [Entry(enabled)], name);
    assert [Entry(enabled)][..0] == [];
  }

  /** The edited element: the requested entry last, all else in its old order, and only one boot menu
      exactly if there was at most one before. */
  lemma EditKeepsTheRest(os: Node, enabled: bool)
    requires os.Element?
    ensures var edited := EditOs(os, enabled);
            && edited.children[|edited.children| - 1] == Entry(enabled)
            && Without(edited.children, "bootmenu") == Without(os.children, "bootmenu")
            && (Named(edited.children, "bootmenu") == [Entry(enabled)] <==> |Named(os.children, "bootmenu")| <= 1)
  {
    EditedBootmenus(os, enabled, "bootmenu");
    RemoveFirstWithout(os.children, "bootmenu");
    WithoutConcat(RemoveFirst(os.children, "bootmenu"), [Entry(enabled)], "bootmenu");
  }

  lemma EntryJson(enabled: bool)
    ensures Convert(Entry(enabled))
         == Object(map["attrib" := Object(map["enable" := String(EnableValue(enabled))])])
  {
    var entry := Entry(enabled);
    assert entry.attributes[..0] == [];
    assert AttributeMap(entry.attributes) == map["enable" := String(EnableValue(enabled))];
    assert MemberNames(entry) == {"attrib"};
    ClosedForm(entry, "attrib");
  }

  /** The answer differs from the conversion of the old element in the boot menu alone. */
  lemma AnswerDiffersInBootmenu(os: Node, enabled: bool, key: string)
    requires os.Element?
    ensures var before, after := Convert(os).members, Convert(EditOs(os, enabled)).members;
            && (key != "bootmenu" ==>
                 && (key in after <==> key in before)
                 && (key in after ==> after[key] == before[key]))
            && "bootmenu" in after
            && (|Named(os.children, "bootmenu")| <= 1 ==>
                 after["bootmenu"] == Object(map["attrib" := Object(map[
                   "enable" := String(if enabled then "yes" else "no")])]))
  {
    if key != "bootmenu" {
      SameUnder(os, enabled, key);
      ClosedForm(os, key);
      ClosedForm(EditOs(os, enabled), key);
    }
    BootmenuMember(os, enabled);
    EntryJson(enabled);
  }

  lemma BootmenuMember(os: Node, enabled: bool)
    requires os.Element?
    ensures var after := Convert(EditOs(os, enabled)).members;
            && "bootmenu" in after
            && (|Named(os.children, "bootmenu")| <= 1 ==> after["bootmenu"] == Convert(Entry(enabled)))
  {
    var edited := EditOs(os, enabled);
    EditedBootmenus(os, enabled, "bootmenu");
    PlainMember(edited, "bootmenu");
  }

  lemma SameUnder(os: Node, enabled: bool, key: string)
    requires os.Element?
    ensures key != "bootmenu" ==> Items(EditOs(os, enabled), key) == Items(os, key)
  {
    if key != "bootmenu" {
      var edited := EditOs(os, enabled);
      EditedBootmenus(os, enabled, key);
      ConvertNamedIs(os.children, key);
      ConvertNamedIs(edited.children, key);
      assert ConvertNamed(edited.children, key) == ConvertNamed(os.children, key);
      RemoveFirstText(os.children, "bootmenu");
      TextBeforeEntry(RemoveFirst(os.children, "bootmenu"), enabled);
    }
  }

  lemma TextBeforeEntry(nodes: seq<Node>, enabled: bool)
    ensures FirstText(nodes + [Entry(enabled)]) == FirstText(nodes)
  {
    if nodes != [] {
      assert (nodes + [Entry(enabled)])[1..] == nodes[1..] + [Entry(enabled)];
      TextBeforeEntry(nodes[1..], enabled);
    }
  }

  // ----- Sequences of switches

  function Switched(os: Node, switches: seq<bool>): (r: Node)
    requires os.Element?
    ensures r.Element?
    decreases |switches|
  {
    if switches == [] then os
    else EditOs(Switched(os, switches[..|switches| - 1]), switches[|switches| - 1])
  }

  lemma RemoveFirstLater(node: Node, nodes: seq<Node>, name: string)
    requires node.Name() != name
    ensures RemoveFirst([node] + nodes, name) == [node] + RemoveFirst(nodes, name)
  {
    assert ([node] + nodes)[1..] == nodes;
  }

  lemma {:induction false} RemoveFirstLast(nodes: seq<Node>, node: Node)
    requires Named(nodes, node.Name()) == []
    ensures RemoveFirst(nodes + [node], node.Name()) == nodes
  {
    if nodes == [] {
      assert nodes + [node] == [node];
    } else {
      var first, rest := nodes[0], nodes[1..];
      NamedCons(nodes, node.Name());
      RemoveFirstLast(rest, node);
      RemoveFirstLater(first, rest + [node], node.Name());
      assert nodes + [node] == [first] + (rest + [node]);
    }
  }

  lemma OverriddenSwitch(os: Node, first: bool, second: bool)
    requires os.Element? && |Named(os.children, "bootmenu")| <= 1
    ensures EditOs(EditOs(os, first), second) == EditOs(os, second)
  {
    var once := RemoveFirst(os.children, "bootmenu");
    RemoveFirstNamed(os.children, "bootmenu", "bootmenu");
    RemoveFirstLast(once, Entry(first));
  }

  lemma RemainingBootmenu(os: Node, first: bool, second: bool)
    requires os.Element? && |Named(os.children, "bootmenu")| > 1
    requires EditOs(EditOs(os, first), second) == EditOs(os, second)
    ensures Named(os.children, "bootmenu")[|Named(os.children, "bootmenu")| - 1] == Entry(first)
  {
    EditedBootmenus(os, first, "bootmenu");
    EditedBootmenus(os, second, "bootmenu");
    EditedBootmenus(EditOs(os, first), second, "bootmenu");
    var all := Named(os.children, "bootmenu");
    assert all[1..] + [Entry(second)] == (all[1..] + [Entry(first)])[1..] + [Entry(second)];
    assert (all[1..] + [Entry(second)])[|all| - 2] == all[|all| - 1];
  }

  /** A later switch overrides an earlier one on exactly the elements with at most one boot menu. */
  lemma LastSwitchWinsExactly(os: Node)
    requires os.Element?
    ensures |Named(os.children, "bootmenu")| <= 1
       <==> forall first, second :: EditOs(EditOs(os, first), second) == EditOs(os, second)
  {
    if |Named(os.children, "bootmenu")| <= 1 {
      forall first, second ensures EditOs(EditOs(os, first), second) == EditOs(os, second) {
        OverriddenSwitch(os, first, second);
      }
    } else if forall first, second :: EditOs(EditOs(os, first), second) == EditOs(os, second) {
      RemainingBootmenu(os, true, true);
      RemainingBootmenu(os, false, true);
    }
  }

  /** Any sequence of switches leaves what its last one alone would. */
  lemma {:induction false} OnlyTheLastCounts(os: Node, switches: seq<bool>)
    requires os.Element? && |Named(os.children, "bootmenu")| <= 1 && switches != []
    ensures Switched(os, switches) == EditOs(os, switches[|switches| - 1])
    decreases |switches|
  {
    var init, last := switches[..|switches| - 1], switches[|switches| - 1];
    if init != [] {
      OnlyTheLastCounts(os, init);
      OverriddenSwitch(os, init[|init| - 1], last);
    }
  }

  // ----- The whole document

  lemma {:induction false} ReplaceFirstSame(nodes: seq<Node>, name: string, node: Node)
    requires node.Name() == name && Named(nodes, name) != []
    ensures Named(ReplaceFirst(nodes, name, node), name) == [node] + Named(nodes, name)[1..]
  {
    var replaced := ReplaceFirst(nodes, name, node);
    NamedCons(nodes, name);
    NamedCons(replaced, name);
    if nodes[0].Name() == name {
      assert replaced[1..] == nodes[1..];
      assert Named(nodes, name)[1..] == Named(nodes[1..], name);
    } else {
      assert replaced[1..] == ReplaceFirst(nodes[1..], name, node);
      assert Named(nodes, name) == Named(nodes[1..], name);
      ReplaceFirstSame(nodes[1..], name, node);
    }
  }

  lemma {:induction false} ReplaceFirstOther(nodes: seq<Node>, name: string, node: Node, other: string)
    requires node.Name() == name != other
    ensures Named(ReplaceFirst(nodes, name, node), other) == Named(nodes, other)
  {
    if nodes != [] {
      var replaced := ReplaceFirst(nodes, name, node);
      NamedCons(nodes, other);
      NamedCons(replaced, other);
      if nodes[0].Name() == name {
        assert replaced[1..] == nodes[1..];
      } else {
        assert replaced[1..] == ReplaceFirst(nodes[1..], name, node);
        ReplaceFirstOther(nodes[1..], name, node, other);
      }
    }
  }

  lemma {:induction false} ReplaceFirstText(nodes: seq<Node>, name: string, node: Node)
    requires node.Name() == name != ""
    ensures FirstText(ReplaceFirst(nodes, name, node)) == FirstText(nodes)
  {
    if nodes != [] && nodes[0].Name() != name {
      ReplaceFirstText(nodes[1..], name, node);
      assert ([nodes[0]] + ReplaceFirst(nodes[1..], name, node))[1..] == ReplaceFirst(nodes[1..], name, node);
    }
  }

  /** In the saved document the first `os` is the edited one. */
  lemma SavedOs(document: seq<Node>, enabled: bool)
    requires OsOf(document) != []
    ensures assert OsOf(document)[0] in OsOf(document);
            && DomainOf(EditDocument(document, enabled)) == [EditedDomain(document, enabled)]
            && OsOf(EditDocument(document, enabled)) == [EditOs(OsOf(document)[0], enabled)]
  {
    var domain, os := DomainOf(document)[0], OsOf(document)[0];
    assert domain in DomainOf(document) && os in OsOf(document);
    ReplaceFirstSame(document, "domain", EditedDomain(document, enabled));
    ReplaceFirstSame(domain.children, "os", EditOs(os, enabled));
  }

  /** Every other member of the converted domain is what it was. */
  lemma SavedElsewhere(document: seq<Node>, enabled: bool, key: string)
    requires OsOf(document) != [] && key != "os"
    ensures Items(EditedDomain(document, enabled), key) == Items(DomainOf(document)[0], key)
  {
    var domain, os := DomainOf(document)[0], OsOf(document)[0];
    assert domain in DomainOf(document) && os in OsOf(document);
    var children := EditedDomain(document, enabled).children;
    assert ConvertNamed(children, key) == ConvertNamed(domain.children, key) by {
      ReplaceFirstOther(domain.children, "os", EditOs(os, enabled), key);
      SameNamed(children, domain.children, key);
    }
    assert FirstText(children) == FirstText(domain.children) by {
      ReplaceFirstText(domain.children, "os", EditOs(os, enabled));
    }
    SameParts(domain, EditedDomain(document, enabled), key);
  }

  lemma SameParts(t: Node, u: Node, key: string)
    requires t.Element? && u.Element? && t.attributes == u.attributes
    requires FirstText(t.children) == FirstText(u.children)
    requires ConvertNamed(t.children, key) == ConvertNamed(u.children, key)
    ensures Items(t, key) == Items(u, key)
  {
  }

  // ----- The handler in full

  /** The `os` element under a path of names, with the old entry gone and the requested one at its end. */
  function Requested(os: Node, post: bool): Node {
    Element(
      os.Name(), os.Attributes(),
      RemoveFirst(os.Children(), "bootmenu")
      + [Element("bootmenu", [Attribute("enable", if post then "yes" else "no")], [])])
  }

  lemma OsOfIs(document: seq<Node>)
    ensures var domains := Named(document, "domain");
            if domains == [] || Named(domains[0].Children(), "os") == [] then OsOf(document) == []
            else OsOf(document) == [Named(domains[0].Children(), "os")[0]] && OsOf(document)[0].Element?
  {
    var domains := Named(document, "domain");
    if domains != [] && Named(domains[0].Children(), "os") != [] {
      assert domains[0] in domains && DomainOf(document) == [domains[0]];
      assert OsOf(document)[0] in OsOf(document);
    }
  }

  /** The answers: 500 if libvirt refuses the document, 200 with the empty object if the path leads to no
      `os`, and otherwise with the converted, edited element. */
  lemma SwitchAnswers(document: seq<Node>, post: bool, defined: bool)
    ensures var r, domains := Answer(document, post, defined), Named(document, "domain");
            if !defined then r == Response(500, Object(map["detail" := String("Unable to replace domain XML")]))
            else if domains == [] || Named(domains[0].Children(), "os") == [] then r == Response(200, Object(map[]))
            else r == Response(200, Convert(Requested(Named(domains[0].Children(), "os")[0], post)))
  {
    OsOfIs(document);
  }

  /** The document that libvirt is asked to define: the same if there is no `os`; otherwise its first domain
      has the edited element as its first `os` and all other children as they were. */
  lemma SwitchSaves(document: seq<Node>, post: bool, name: string)
    ensures var saved, domains := EditDocument(document, post), Named(document, "domain");
            if domains == [] || Named(domains[0].Children(), "os") == [] then saved == document
            else
              var systems := Named(domains[0].Children(), "os");
              && Named(saved, "domain") != []
              && Named(saved, "domain")[1..] == domains[1..]
              && (name != "domain" ==> Named(saved, name) == Named(document, name))
              && var domain := Named(saved, "domain")[0];
                 && domain.Attributes() == domains[0].Attributes()
                 && Named(domain.Children(), "os") == [Requested(systems[0], post)] + systems[1..]
                 && (name != "os" ==> Named(domain.Children(), name) == Named(domains[0].Children(), name))
  {
    OsOfIs(document);
    var domains := Named(document, "domain");
    if OsOf(document) != [] {
      var edited, os := EditedDomain(document, post), Named(domains[0].Children(), "os")[0];
      assert domains[0] in domains;
      ReplaceFirstSame(document, "domain", edited);
      ReplaceFirstSame(domains[0].Children(), "os", EditOs(os, post));
      if name != "domain" {
        ReplaceFirstOther(document, "domain", edited, name);
      }
      if name != "os" {
        ReplaceFirstOther(domains[0].Children(), "os", EditOs(os, post), name);
      }
    }
  }
}
