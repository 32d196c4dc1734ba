/** The documents the daemon reads from libvirt and the JSON values it answers with. */
module Json {

  /** A JSON value. The object type keeps at most one value per key, in no particular order. A number
      with a fraction or an exponent is told by the text the library prints it as. */
  datatype Json =
    | Null
    | Bool(flag: bool)
    | Number(number: int)
    | Real(printed: string)
    | String(text: string)
    | Array(items: seq<Json>)
    | Object(members: map<string, Json>)

  /** The body of an error answer. */
  function Detail(message: string): Json {
    Object(map["detail" := String(message)])
  }
}

module Xml {

  datatype Attribute = Attribute(name: string, value: string)

  /** A node as the parser hands it over: comments and blank runs of text are already gone,
      and a run of text has the empty name. */
  datatype Node =
    | Element(tag: string, attributes: seq<Attribute>, children: seq<Node>)
    | Text(content: string)
  {
    function Name(): string {
      if Element? then tag else ""
    }

    function Attributes(): seq<Attribute> {
      if Element? then attributes else []
    }

    function Children(): seq<Node> {
      if Element? then children else []
    }

    /** The text the parser reports for the node: its own, or that of its first text child. */
    function TextOf(): string {
      if Element? then FirstText(children) else content
    }
  }

  function FirstText(nodes: seq<Node>): string {
    if nodes == [] then ""
    else if nodes[0].Text? then nodes[0].content
    else FirstText(nodes[1..])
  }

  /** The nodes with the given name, in document order. */
  function Named(nodes: seq<Node>, name: string): (r: seq<Node>)
    ensures forall n :: n in r ==> n in nodes && n.Name() == name
  {
    if nodes == [] then []
    else
      var last := nodes[|nodes| - 1];
      Named(nodes[..|nodes| - 1], name) + if last.Name() == name then [last] else []
  }

  lemma {:induction false} NamedConcat(a: seq<Node>, b: seq<Node>, name: string)
    ensures Named(a + b, name) == Named(a, name) + Named(b, name)
  {
    if b == [] {
      assert a + b == a;
    } else {
      var init := b[..|b| - 1];
      assert (a + b)[..|a + b| - 1] == a + init;
      NamedConcat(a, init, name);
    }
  }

  lemma {:induction false} NamedNonempty(nodes: seq<Node>, name: string)
    ensures Named(nodes, name) != [] <==> exists n :: n in nodes && n.Name() == name
  {
    if nodes != [] {
      var init := nodes[..|nodes| - 1];
      assert nodes == init + [nodes[|nodes| - 1]];
      NamedNonempty(init, name);
    }
  }

  /** Removal by name takes away the first node so named, if there is one. */
  function RemoveFirst(nodes: seq<Node>, name: string): seq<Node> {
    if nodes == [] then []
    else if nodes[0].Name() == name then nodes[1..]
    else [nodes[0]] + RemoveFirst(nodes[1..], name)
  }

  lemma NamedOne(node: Node, name: string)
    ensures Named([node], name) == if node.Name() == name then [node] else []
  {
    assert [node][..0] == [];
    assert Named([], name) == [];
  }

  lemma NamedConsOf(node: Node, rest: seq<Node>, name: string)
    ensures Named([node] + rest, name) == (if node.Name() == name then [node] else []) + Named(rest, name)
  {
    NamedOne(node, name);
    NamedConcat([node], rest, name);
  }

  lemma {:induction false} NamedCons(nodes: seq<Node>, name: string)
    requires nodes != []
    ensures Named(nodes, name) == (if nodes[0].Name() == name then [nodes[0]] else []) + Named(nodes[1..], name)
  {
    NamedConsOf(nodes[0], nodes[1..], name);
    assert nodes == [nodes[0]] + nodes[1..];
  }

  lemma {:induction false} RemoveFirstNamed(nodes: seq<Node>, name: string, other: string)
    ensures Named(RemoveFirst(nodes, name), other)
         == if other == name && Named(nodes, name) != [] then Named(nodes, name)[1..] else Named(nodes, other)
  {
    if nodes != [] {
      NamedCons(nodes, name);
      NamedCons(nodes, other);
      var rest := RemoveFirst(nodes[1..], name);
      if nodes[0].Name() != name {
        RemoveFirstNamed(nodes[1..], name, other);
        assert ([nodes[0]] + rest)[1..] == rest;
        NamedCons([nodes[0]] + rest, other);
      }
    }
  }

  lemma RemoveFirstText(nodes: seq<Node>, name: string)
    requires name != ""
    ensures FirstText(RemoveFirst(nodes, name)) == FirstText(nodes)
  {
    if nodes != [] && nodes[0].Name() != name {
      RemoveFirstText(nodes[1..], name);
    }
  }
}
