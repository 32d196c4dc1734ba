/** The recursive conversion of an XML node into a JSON object. */
module XmlToJson {
  import opened Json
  import opened Xml

  /** The attributes as object members; of two with one name the later wins. */
  function AttributeMap(attributes: seq<Attribute>): map<string, Json> {
    if attributes == [] then map[]
    else
      var last := attributes[|attributes| - 1];
      AttributeMap(attributes[..|attributes| - 1])[last.name := String(last.value)]
  }

  lemma AttributeMapEmpty(attributes: seq<Attribute>)
    ensures AttributeMap(attributes) == map[] <==> attributes == []
    ensures forall name :: name in AttributeMap(attributes) ==> AttributeMap(attributes)[name].String?
  {
    if attributes != [] {
      AttributeMapEmpty(attributes[..|attributes| - 1]);
      assert attributes[|attributes| - 1].name in AttributeMap(attributes);
    }
  }

  /** What the conversion stores under a name before it looks at any child. */
  function Reserved(node: Node, name: string): (r: seq<Json>)
    ensures |r| <= 1
    ensures forall j :: j in r ==> !j.Array?
  {
    if name == "attrib" && node.Attributes() != [] then [Object(AttributeMap(node.Attributes()))]
    else if name == "text" && node.TextOf() != "" then [String(node.TextOf())]
    else []
  }

  /** One value stands for itself, several are wrapped in an array. */
  function Pack(items: seq<Json>): Json {
    if |items| == 1 then items[0] else Array(items)
  }

  /** The conversions of the children with the given name, in document order. */
  function ConvertNamed(children: seq<Node>, name: string): seq<Json>
    decreases children, 0
  {
    if children == [] then []
    else
      var last := children[|children| - 1];
      ConvertNamed(children[..|children| - 1], name) + if last.Name() == name then [Convert(last)] else []
  }

  /** Everything that belongs under a name: the reserved value, then the children so named. */
  function Items(node: Node, name: string): seq<Json>
    decreases node, 0
  {
    Reserved(node, name) + if node.Element? then ConvertNamed(node.children, name) else []
  }

  function MemberNames(node: Node): set<string> {
    (if node.Attributes() != [] then {"attrib"} else {})
    + (if node.TextOf() != "" then {"text"} else {})
    + (set child | child in node.Children() && child.Name() != "" :: child.Name())
  }

  function Convert(node: Node): Json
    decreases node, 1
  {
    Object(map name | name in MemberNames(node) :: Pack(Items(node, name)))
  }

  method RunAttributes(source: seq<Attribute>) returns (attributes: map<string, Json>)
    ensures attributes == AttributeMap(source)
    ensures attributes == map[] <==> source == []
  {
    attributes := map[];
    for i := 0 to |source|
      invariant attributes == AttributeMap(source[..i])
      invariant i > 0 ==> attributes != map[]
    {
      assert source[..i + 1][..i] == source[..i];
      attributes := attributes[source[i].name := String(source[i].value)];
      assert source[i].name in attributes;
    }
    assert source[..|source|] == source;
  }

  /** The conversion as the daemon runs it: attributes, text, then one pass over the children that
      turns a member into an array when its name comes up a second time. */
  method Run(node: Node) returns (data: Json)
    ensures data == Convert(node)
    decreases node
  {
    var members: map<string, Json> := map[];

    var attributes := RunAttributes(node.Attributes());
    if attributes != map[] {
      members := members["attrib" := Object(attributes)];
    }

    var text := node.TextOf();
    if text != "" {
      members := members["text" := String(text)];
    }

    var children := node.Children();
    for i := 0 to |children|
      invariant Built(node, children[..i], members)
    {
      var child := children[i];
      var name := child.Name();
      ghost var before := members;
      assert children[..i + 1][..i] == children[..i];
      if name == "" {
        BuiltSkip(node, children[..i + 1], members);
        continue;
      }
      var converted := Run(child);
      if name in members {
        if !members[name].Array? {
          members := members[name := Array([members[name]])];
        }
        members := members[name := Array(members[name].items + [converted])];
      } else {
        members := members[name := converted];
      }
      BuiltStep(node, children[..i + 1], before, members);
    }
    assert children[..|children|] == children;
    BuiltAll(node, members);
    data := Object(members);
  }

  /** The member the loop holds under a name once it has passed the given children. */
  ghost predicate BuiltAt(node: Node, passed: seq<Node>, members: map<string, Json>, name: string) {
    var items := Reserved(node, name) + ConvertNamed(passed, name);
    && (name in members <==> name != "" && items != [])
    && (name in members ==> members[name] == Pack(items))
  }

  ghost predicate Built(node: Node, passed: seq<Node>, members: map<string, Json>) {
    forall name :: BuiltAt(node, passed, members, name)
  }

  lemma BuiltSkip(node: Node, passed: seq<Node>, members: map<string, Json>)
    requires passed != [] && passed[|passed| - 1].Name() == ""
    requires Built(node, passed[..|passed| - 1], members)
    ensures Built(node, passed, members)
  {
    forall name ensures BuiltAt(node, passed, members, name) {
      assert BuiltAt(node, passed[..|passed| - 1], members, name);
    }
  }

  /** What one turn of the loop does to the member of the child's name. */
  function Extended(members: map<string, Json>, name: string, converted: Json): Json {
    if name !in members then converted
    else if members[name].Array? then Array(members[name].items + [converted])
    else Array([members[name]] + [converted])
  }

  lemma BuiltStep(node: Node, passed: seq<Node>, before: map<string, Json>, after: map<string, Json>)
    requires passed != [] && passed[|passed| - 1].Name() != ""
    requires Built(node, passed[..|passed| - 1], before)
    requires var child := passed[|passed| - 1];
             after == before[child.Name() := Extended(before, child.Name(), Convert(child))]
    ensures Built(node, passed, after)
  {
    var init, child := passed[..|passed| - 1], passed[|passed| - 1];
    forall name ensures BuiltAt(node, passed, after, name) {
      assert BuiltAt(node, init, before, name);
      if name == child.Name() {
        BuiltStepAt(node, init, child, before);
        assert ConvertNamed(passed, name) == ConvertNamed(init, name) + [Convert(child)];
      } else {
        assert ConvertNamed(passed, name) == ConvertNamed(init, name);
      }
    }
  }

  lemma BuiltStepAt(node: Node, init: seq<Node>, child: Node, before: map<string, Json>)
    requires child.Name() != "" && BuiltAt(node, init, before, child.Name())
    ensures var name := child.Name();
            Extended(before, name, Convert(child))
            == Pack(Reserved(node, name) + (ConvertNamed(init, name) + [Convert(child)]))
  {
    var name := child.Name();
    var items := Reserved(node, name) + ConvertNamed(init, name);
    ItemsHoldNoArray(node, init, name);
    assert Reserved(node, name) + (ConvertNamed(init, name) + [Convert(child)]) == items + [Convert(child)];
  }

  lemma ItemsHoldNoArray(node: Node, children: seq<Node>, name: string)
    ensures forall j :: j in Reserved(node, name) + ConvertNamed(children, name) ==> !j.Array?
  {
    if children != [] {
      ItemsHoldNoArray(node, children[..|children| - 1], name);
    }
  }

  lemma {:induction false} ConvertNamedIs(children: seq<Node>, name: string)
    ensures |ConvertNamed(children, name)| == |Named(children, name)|
    ensures forall i | 0 <= i < |Named(children, name)| ::
              ConvertNamed(children, name)[i] == Convert(Named(children, name)[i])
  {
    if children != [] {
      ConvertNamedIs(children[..|children| - 1], name);
    }
  }

  lemma SameNamed(a: seq<Node>, b: seq<Node>, name: string)
    requires Named(a, name) == Named(b, name)
    ensures ConvertNamed(a, name) == ConvertNamed(b, name)
  {
    ConvertNamedIs(a, name);
    ConvertNamedIs(b, name);
  }

  lemma ConvertNamedNonempty(children: seq<Node>, name: string)
    ensures ConvertNamed(children, name) != [] <==> exists c :: c in children && c.Name() == name
  {
    if children != [] {
      var init := children[..|children| - 1];
      assert children == init + [children[|children| - 1]];
      ConvertNamedNonempty(init, name);
    }
  }

  /** The closed form: a name is a member exactly when something belongs under it, and its value is
      that one thing, or the array of all of them. */
  lemma ClosedForm(node: Node, name: string)
    ensures Convert(node).Object?
    ensures name in Convert(node).members <==> name != "" && Items(node, name) != []
    ensures name in Convert(node).members ==> Convert(node).members[name] == Pack(Items(node, name))
  {
    MemberNamesAre(node, name);
  }

  lemma MemberNamesAre(node: Node, name: string)
    ensures name in MemberNames(node) <==> name != "" && Items(node, name) != []
  {
    ConvertNamedNonempty(node.Children(), name);
    assert Items(node, name) == Reserved(node, name) + ConvertNamed(node.Children(), name);
    assert name in MemberNames(node)
      <==> Reserved(node, name) != [] || (name != "" && exists c :: c in node.Children() && c.Name() == name);
  }

  /** A name that nothing is reserved under. */
  predicate PlainName(name: string) {
    name != "" && name != "attrib" && name != "text"
  }

  /** A member of a plain name: the one child so named, converted, or the array of all of them. */
  lemma PlainMember(node: Node, name: string)
    requires PlainName(name)
    ensures var members, named := Convert(node).members, Named(node.Children(), name);
            && (name in members <==> named != [])
            && (|named| == 1 ==> members[name] == Convert(named[0]))
            && (|named| > 1 ==> members[name].Array?)
            && (name in members ==> members[name].Object? || members[name].Array?)
  {
    ClosedForm(node, name);
    ConvertNamedIs(node.Children(), name);
    assert Items(node, name) == ConvertNamed(node.Children(), name);
  }

  lemma BuiltAll(node: Node, members: map<string, Json>)
    requires Built(node, node.Children(), members)
    ensures Object(members) == Convert(node)
  {
    forall name ensures name in members <==> name in Convert(node).members
    {
      BuiltMember(node, members, name);
    }
    forall name | name in members ensures members[name] == Convert(node).members[name]
    {
      BuiltMember(node, members, name);
    }
    assert members == Convert(node).members;
  }

  lemma BuiltMember(node: Node, members: map<string, Json>, name: string)
    requires Built(node, node.Children(), members)
    ensures name in members <==> name in Convert(node).members
    ensures name in members ==> members[name] == Convert(node).members[name]
  {
    ClosedForm(node, name);
    assert BuiltAt(node, node.Children(), members, name);
  }
}
