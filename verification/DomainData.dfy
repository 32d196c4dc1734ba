/** The detailed JSON of a domain: libvirt's own facts, the converted XML merged over them, the device
    members made arrays, and the storage disks annotated with their sizes. */
module DomainData {
  import opened Json
  import opened Xml
  import opened XmlToJson

  datatype Failure = LogicError | OutOfRange

  datatype Result<+T> = Ok(value: T) | Error(failure: Failure) {
    predicate IsFailure() {
      Error?
    }
    function PropagateFailure<U>(): Result<U>
      requires Error?
    {
      Error(failure)
    }
    function Extract(): T
      requires Ok?
    {
      value
    }
  }

  /** What libvirt answers about a domain besides its XML. */
  datatype Facts = Facts(id: int, name: string, title: string, description: string, state: int, autostart: bool)

  datatype BlockInfo = BlockInfo(capacity: nat, allocation: nat, physical: nat)

  const ARRAY_KEYS: seq<string> := [
    "disk", "controller", "interface", "serial", "console", "channel", "input", "graphics", "sound", "audio",
    "video", "redirdev", "memballoon", "rng"]

  const STATE_STRINGS: seq<string> := [
    "None", "Running", "Blocked", "Paused", "Shutdown", "Shutoff", "Crashed", "Suspended"]

  function TextObject(s: string): Json {
    Object(map["text" := String(s)])
  }

  function SimpleDomain(facts: Facts): Result<map<string, Json>> {
    if !(0 <= facts.state < |STATE_STRINGS|) then Error(OutOfRange)
    else
      Ok(map[
        "id" := Number(facts.id),
        "name" := TextObject(facts.name),
        "title" := TextObject(facts.title),
        "description" := TextObject(facts.description),
        "state" := Object(map["attrib" := Object(map[
          "id" := Number(facts.state),
          "string" := String(STATE_STRINGS[facts.state])])])])
  }

  /** The facts told from an answer. */
  function ReadFacts(members: map<string, Json>): (Json, string, string, string, Json) {
    var text := (key: string) =>
      if key in members && members[key].Object? && "text" in members[key].members
         && members[key].members["text"].String?
      then members[key].members["text"].text else "";
    var attrib :=
      if "state" in members && members["state"].Object? && "attrib" in members["state"].members
      then members["state"].members["attrib"] else Null;
    (if "id" in members then members["id"] else Null, text("name"), text("title"), text("description"), attrib)
  }

  /** The simple answer exists exactly for the states libvirt names, and every fact can be told from it. */
  lemma FactsReadBack(facts: Facts)
    ensures SimpleDomain(facts).Ok? <==> facts.state in {0, 1, 2, 3, 4, 5, 6, 7}
    ensures SimpleDomain(facts).Ok? ==>
              var (id, name, title, description, attrib) := ReadFacts(SimpleDomain(facts).value);
              && (id, name, title, description) == (Number(facts.id), facts.name, facts.title, facts.description)
              && attrib.Object?
              && "id" in attrib.members && attrib.members["id"] == Number(facts.state)
              && "string" in attrib.members && attrib.members["string"] == String(STATE_STRINGS[facts.state])
  {
  }

  // ----- Element access that inserts what it does not find

  /** The value after `value[key]` was evaluated on it: a missing member is now null. */
  function Touch(json: Json, key: string): Result<map<string, Json>> {
    match json
    case Null => Ok(map[key := Null])
    case Object(members) => Ok(if key in members then members else members[key := Null])
    case _ => Error(LogicError)
  }

  /** The value after a chain of such accesses, and what the chain ends at. */
  function Access(json: Json, path: seq<string>): Result<(Json, Json)>
    decreases |path|
  {
    if path == [] then Ok((json, json))
    else
      var members :- Touch(json, path[0]);
      var (inner, found) :- Access(members[path[0]], path[1..]);
      Ok((Object(members[path[0] := inner]), found))
  }

  function AsString(json: Json): Result<string> {
    match json
    case Null => Ok("")
    case String(s) => Ok(s)
    case Bool(b) => Ok(if b then "true" else "false")
    case Number(n) => Ok(Decimal(n))
    case Real(printed) => Ok(printed)
    case _ => Error(LogicError)
  }

  function Decimal(n: int): string
    decreases n < 0, if n < 0 then -n else n
  {
    if n < 0 then "-" + Decimal(-n)
    else if n < 10 then ["0123456789"[n]]
    else Decimal(n / 10) + ["0123456789"[n % 10]]
  }

  /** The number a text of digits stands for, with a minus in front if it is negative. */
  function ReadDecimal(s: string): int {
    if s == "" then 0
    else if s[0] == '-' then -ReadDigits(s[1..])
    else ReadDigits(s)
  }

  function ReadDigits(s: string): int {
    if s == "" then 0
    else 10 * ReadDigits(s[..|s| - 1]) + (s[|s| - 1] as int - '0' as int)
  }

  lemma {:induction false} DigitsReadBack(n: nat)
    ensures Decimal(n) != "" && ReadDigits(Decimal(n)) == n
    ensures forall c :: c in Decimal(n) ==> '0' <= c <= '9'
    ensures Decimal(n)[0] == '0' ==> n == 0
  {
    var digit := ["0123456789"[n % 10]];
    assert digit[0] as int - '0' as int == n % 10;
    if n < 10 {
      assert Decimal(n) == digit && digit[..0] == "";
    } else {
      DigitsReadBack(n / 10);
      assert (Decimal(n / 10) + digit)[..|Decimal(n / 10)|] == Decimal(n / 10);
      assert Decimal(n)[0] == Decimal(n / 10)[0];
    }
  }

  /** A number as text: its digits, none of them in front without need, and a minus if it is negative. */
  lemma DecimalReadsBack(n: int)
    ensures Decimal(n) != "" && ReadDecimal(Decimal(n)) == n
    ensures forall c :: c in Decimal(n) ==> c == '-' || '0' <= c <= '9'
    ensures n != 0 ==> Decimal(n)[0] != '0'
  {
    if n < 0 {
      DigitsReadBack(-n);
      MinusInFront(Decimal(-n));
    } else {
      DigitsReadBack(n);
      assert Decimal(n)[0] in Decimal(n);
    }
  }

  lemma MinusInFront(s: string)
    ensures ReadDecimal("-" + s) == -ReadDigits(s)
    ensures forall c :: c in "-" + s ==> c == '-' || c in s
  {
    assert ("-" + s)[1..] == s;
  }

  /** What reads as text, and as which. */
  lemma TextsOf(json: Json)
    ensures json.Null? ==> AsString(json) == Ok("")
    ensures json.String? ==> AsString(json) == Ok(json.text)
    ensures json.Bool? ==> AsString(json) == Ok(if json.flag then "true" else "false")
    ensures json.Number? ==> AsString(json).Ok? && ReadDecimal(AsString(json).value) == json.number
    ensures json.Real? ==> AsString(json) == Ok(json.printed)
    ensures json.Array? || json.Object? ==> AsString(json) == Error(LogicError)
  {
    if json.Number? {
      DecimalReadsBack(json.number);
    }
  }

  // ----- Disks

  function BlockJson(info: BlockInfo): Json {
    Object(map[
      "unit" := String("KiB"),
      "capacity" := Number(info.capacity / 1000),
      "allocation" := Number(info.allocation / 1000),
      "physical" := Number(info.physical / 1000)])
  }

  /** A size in thousands of bytes, rounded down. */
  ghost predicate InThousands(json: Json, bytes: nat) {
    json.Number? && 1000 * json.number <= bytes < 1000 * (json.number + 1)
  }

  /** The unit says how many times 1024 bytes there are: so it does if and only if what is left over the
      thousands makes up for the 24 bytes that each of them is short. */
  predicate UnitFits(bytes: nat) {
    24 * (bytes / 1000) <= bytes % 1000
  }

  /** The sizes are thousands of bytes, and each is the number of KiB its unit makes it if and only if the
      unit fits. */
  lemma SizesInThousands(info: BlockInfo)
    ensures var sizes := BlockJson(info).members;
            && sizes.Keys == {"unit", "capacity", "allocation", "physical"}
            && sizes["unit"] == String("KiB")
            && InThousands(sizes["capacity"], info.capacity)
            && InThousands(sizes["allocation"], info.allocation)
            && InThousands(sizes["physical"], info.physical)
            && (sizes["capacity"].number == info.capacity / 1024 <==> UnitFits(info.capacity))
            && (sizes["allocation"].number == info.allocation / 1024 <==> UnitFits(info.allocation))
            && (sizes["physical"].number == info.physical / 1024 <==> UnitFits(info.physical))
  {
    UnitIsRight(info.capacity);
    UnitIsRight(info.allocation);
    UnitIsRight(info.physical);
  }

  lemma UnitIsRight(bytes: nat)
    ensures bytes / 1000 == bytes / 1024 <==> UnitFits(bytes)
    ensures UnitFits(bytes) ==> bytes < 42000
  {
    assert bytes / 1024 <= bytes / 1000;
    var n := bytes / 1000;
    assert bytes == 1000 * n + bytes % 1000;
  }

  function AnnotateDisk(disk: Json, blockInfo: string -> BlockInfo): Result<Json> {
    var (disk, device) :- Access(disk, ["attrib", "device"]);
    var kind :- AsString(device);
    if kind != "disk" then Ok(disk)
    else
      var (disk, target) :- Access(disk, ["target", "attrib", "dev"]);
      var dev :- AsString(target);
      Ok(Object(disk.members["block_info" := BlockJson(blockInfo(dev))]))
  }

  // ----- The steps as the daemon runs them

  /** Copies the members of the converted XML over the simple ones, in any order of the keys. */
  method Merge(base: map<string, Json>, xml: map<string, Json>) returns (output: map<string, Json>)
    ensures output == base + xml
  {
    output := base;
    var left := xml.Keys;
    while left != {}
      invariant left <= xml.Keys
      invariant output == base + (map key | key in xml && key !in left :: xml[key])
    {
      var key :| key in left;
      output := output[key := xml[key]];
      left := left - {key};
    }
    assert xml == map key | key in xml && key !in left :: xml[key];
  }

  /** The devices with every object under one of the given keys wrapped in an array. */
  function Wrapped(devices: map<string, Json>, keys: seq<string>): map<string, Json> {
    map key | key in devices ::
      if key in keys && devices[key].Object? then Array([devices[key]]) else devices[key]
  }

  /** The whole output once the loop has passed the given keys. */
  function WrapTo(output: map<string, Json>, keys: seq<string>): Result<map<string, Json>> {
    if keys == [] then Ok(output)
    else if "devices" !in output || output["devices"].Null? then Ok(output["devices" := Null])
    else if output["devices"].Object? then
      Ok(output["devices" := Object(Wrapped(output["devices"].members, keys))])
    else Error(LogicError)
  }

  method WrapDevices(output: map<string, Json>) returns (r: Result<map<string, Json>>)
    ensures r == WrapTo(output, ARRAY_KEYS)
  {
    var current := output;
    for i := 0 to |ARRAY_KEYS|
      invariant Ok(current) == WrapTo(output, ARRAY_KEYS[..i])
    {
      var key := ARRAY_KEYS[i];
      ghost var before := current;
      if "devices" !in current {
        current := current["devices" := Null];
      }
      var devices := current["devices"];
      if devices.Object? {
        if key in devices.members && devices.members[key].Object? {
          current := current["devices" := Object(devices.members[key := Array([devices.members[key]])])];
        }
      } else if !devices.Null? {
        return Error(LogicError);
      }
      WrapTurnIs(output, before, current, i);
    }
    assert ARRAY_KEYS[..|ARRAY_KEYS|] == ARRAY_KEYS;
    r := Ok(current);
  }

  lemma WrapTurnIs(output: map<string, Json>, before: map<string, Json>, after: map<string, Json>, i: nat)
    requires i < |ARRAY_KEYS| && Ok(before) == WrapTo(output, ARRAY_KEYS[..i])
    requires
      if "devices" !in before || before["devices"].Null? then after == before["devices" := Null]
      else
        && before["devices"].Object?
        && var members, key := before["devices"].members, ARRAY_KEYS[i];
           after == if key in members && members[key].Object?
                    then before["devices" := Object(members[key := Array([members[key]])])]
                    else before
    ensures Ok(after) == WrapTo(output, ARRAY_KEYS[..i + 1])
  {
    if "devices" in output && output["devices"].Object? {
      var devices := output["devices"].members;
      assert Wrapped(devices, []) == devices;
      WrapOneMore(devices, i);
      assert after == output["devices" := Object(Wrapped(devices, ARRAY_KEYS[..i + 1]))];
    } else {
      assert after == output["devices" := Null];
    }
  }

  lemma WrapOneMore(devices: map<string, Json>, i: nat)
    requires i < |ARRAY_KEYS|
    ensures var before, key := Wrapped(devices, ARRAY_KEYS[..i]), ARRAY_KEYS[i];
            Wrapped(devices, ARRAY_KEYS[..i + 1])
            == if key in before && before[key].Object? then before[key := Array([before[key]])] else before
  {
    assert ARRAY_KEYS[..i + 1] == ARRAY_KEYS[..i] + [ARRAY_KEYS[i]];
  }

  function AnnotateAll(disks: seq<Json>, blockInfo: string -> BlockInfo): (r: Result<seq<Json>>)
    ensures r.Ok? <==> forall disk :: disk in disks ==> AnnotateDisk(disk, blockInfo).Ok?
    ensures r.Ok? ==> |r.value| == |disks|
    ensures r.Ok? ==> forall i :: 0 <= i < |disks| ==> AnnotateDisk(disks[i], blockInfo) == Ok(r.value[i])
  {
    if disks == [] then Ok([])
    else
      var init, last := disks[..|disks| - 1], disks[|disks| - 1];
      assert disks == init + [last];
      var done :- AnnotateAll(init, blockInfo);
      var disk :- AnnotateDisk(last, blockInfo);
      Ok(done + [disk])
  }

  function Annotated(output: map<string, Json>, blockInfo: string -> BlockInfo): Result<map<string, Json>>
    requires "devices" in output && (output["devices"].Object? || output["devices"].Null?)
  {
    if output["devices"].Object?
       && "disk" in output["devices"].members
       && output["devices"].members["disk"].Array?
    then
      var disks :- AnnotateAll(output["devices"].members["disk"].items, blockInfo);
      Ok(output["devices" := Object(output["devices"].members["disk" := Array(disks)])])
    else Ok(output)
  }

  /** The loop over the disks, which overwrites each with its annotated form. */
  method AnnotateEach(disks: seq<Json>, blockInfo: string -> BlockInfo) returns (r: Result<seq<Json>>)
    ensures r == AnnotateAll(disks, blockInfo)
  {
    var done := [];
    for i := 0 to |disks|
      invariant AnnotateAll(disks[..i], blockInfo) == Ok(done)
    {
      var disk := AnnotateDisk(disks[i], blockInfo);
      if disk.Error? {
        FirstFailure(disks, i, blockInfo);
        return Error(disk.failure);
      }
      AnnotateOneMore(disks, i, blockInfo);
      done := done + [disk.value];
    }
    assert disks[..|disks|] == disks;
    r := Ok(done);
  }

  method AnnotateDisks(output: map<string, Json>, blockInfo: string -> BlockInfo)
    returns (r: Result<map<string, Json>>)
    requires "devices" in output && (output["devices"].Object? || output["devices"].Null?)
    ensures r == Annotated(output, blockInfo)
  {
    if output["devices"].Null? || "disk" !in output["devices"].members {
      return Ok(output);
    }
    var disks := output["devices"].members["disk"];
    if !disks.Array? {
      return Ok(output);
    }
    var done :- AnnotateEach(disks.items, blockInfo);
    r := Ok(output["devices" := Object(output["devices"].members["disk" := Array(done)])]);
  }

  lemma AnnotateOneMore(disks: seq<Json>, i: nat, blockInfo: string -> BlockInfo)
    requires i < |disks| && AnnotateAll(disks[..i], blockInfo).Ok? && AnnotateDisk(disks[i], blockInfo).Ok?
    ensures AnnotateAll(disks[..i + 1], blockInfo)
         == Ok(AnnotateAll(disks[..i], blockInfo).value + [AnnotateDisk(disks[i], blockInfo).value])
  {
    assert disks[..i + 1][..i] == disks[..i];
  }

  lemma {:induction false} FirstFailure(disks: seq<Json>, i: nat, blockInfo: string -> BlockInfo)
    requires i < |disks| && AnnotateAll(disks[..i], blockInfo).Ok? && AnnotateDisk(disks[i], blockInfo).Error?
    ensures AnnotateAll(disks, blockInfo) == Error(AnnotateDisk(disks[i], blockInfo).failure)
  {
    if i + 1 < |disks| {
      var init := disks[..|disks| - 1];
      assert init[..i] == disks[..i];
      FirstFailure(init, i, blockInfo);
      assert AnnotateAll(init, blockInfo).Error?;
    }
  }

  /** The first child so named, converted; a missing node converts to the empty object. */
  function ConvertChild(nodes: seq<Node>, name: string): (r: Json)
    ensures r.Object?
  {
    if Named(nodes, name) == [] then Object(map[]) else Convert(Named(nodes, name)[0])
  }

  function Merged(facts: Facts, document: seq<Node>): Result<map<string, Json>> {
    var simple :- SimpleDomain(facts);
    Ok(simple["autostart" := Bool(facts.autostart)] + ConvertChild(document, "domain").members)
  }

  /** The wrapping and the disks, after the merge. */
  function Finished(merged: map<string, Json>, blockInfo: string -> BlockInfo): Result<map<string, Json>> {
    var wrapped :- WrapTo(merged, ARRAY_KEYS);
    Annotated(wrapped, blockInfo)
  }

  function DomainJson(facts: Facts, document: seq<Node>, blockInfo: string -> BlockInfo): Result<map<string, Json>> {
    var merged :- Merged(facts, document);
    Finished(merged, blockInfo)
  }

  method Build(facts: Facts, document: seq<Node>, blockInfo: string -> BlockInfo)
    returns (r: Result<map<string, Json>>)
    ensures r == DomainJson(facts, document, blockInfo)
  {
    var output :- SimpleDomain(facts);
    output := output["autostart" := Bool(facts.autostart)];
    var xml := Object(map[]);
    if Named(document, "domain") != [] {
      xml := Run(Named(document, "domain")[0]);
    }
    output := Merge(output, xml.members);
    output :- WrapDevices(output);
    r := AnnotateDisks(output, blockInfo);
  }

  // ----- End to end

  function DevicesNodes(document: seq<Node>): seq<Node> {
    if Named(document, "domain") == [] then []
    else Named(Named(document, "domain")[0].Children(), "devices")
  }

  lemma MergedDevices(document: seq<Node>)
    ensures var xml, devices := ConvertChild(document, "domain").members, DevicesNodes(document);
            && ("devices" in xml <==> devices != [])
            && (|devices| == 1 ==> xml["devices"] == Convert(devices[0]))
            && (|devices| > 1 ==> xml["devices"].Array?)
  {
    if Named(document, "domain") != [] {
      var domain := Named(document, "domain")[0];
      ClosedForm(domain, "devices");
      ConvertNamedIs(domain.Children(), "devices");
    }
  }

  lemma ArrayKeysAreNames(key: string)
    requires key in ARRAY_KEYS
    ensures key != "" && key != "attrib" && key != "text"
  {
  }

  lemma WrappedItems(devices: Node, keys: seq<string>, key: string)
    requires key in keys && key != "" && key != "attrib" && key != "text"
    ensures var members := Wrapped(Convert(devices).members, keys);
            && (key in members <==> Named(devices.Children(), key) != [])
            && (key in members ==> members[key] == Array(ConvertNamed(devices.Children(), key)))
  {
    ClosedForm(devices, key);
    ConvertNamedIs(devices.Children(), key);
    var items := Items(devices, key);
    assert items == ConvertNamed(devices.Children(), key);
    if |items| == 1 {
      assert items == [items[0]];
    }
  }

  /** The devices before the disks are looked at: every array key holds all its children, in order. */
  lemma WrappedDevices(devices: Node, key: string)
    ensures var members := Wrapped(Convert(devices).members, ARRAY_KEYS);
            if key in ARRAY_KEYS then
              && (key in members <==> Named(devices.Children(), key) != [])
              && (key in members ==> members[key] == Array(ConvertNamed(devices.Children(), key)))
            else
              && (key in members <==> key in Convert(devices).members)
              && (key in members ==> members[key] == Convert(devices).members[key])
  {
    if key in ARRAY_KEYS {
      ArrayKeysAreNames(key);
      WrappedItems(devices, ARRAY_KEYS, key);
    }
  }

  /** Wrapping twice is wrapping once. */
  lemma WrapIdempotent(devices: map<string, Json>, keys: seq<string>)
    ensures Wrapped(Wrapped(devices, keys), keys) == Wrapped(devices, keys)
  {
  }

  lemma FinishedWithOne(merged: map<string, Json>, members: map<string, Json>, blockInfo: string -> BlockInfo)
    requires "devices" in merged && merged["devices"] == Object(members)
    ensures Finished(merged, blockInfo)
         == Annotated(merged["devices" := Object(Wrapped(members, ARRAY_KEYS))], blockInfo)
  {
  }

  lemma OneDevices(facts: Facts, document: seq<Node>, blockInfo: string -> BlockInfo)
    requires |DevicesNodes(document)| == 1 && Merged(facts, document).Ok?
    ensures var devices := Wrapped(Convert(DevicesNodes(document)[0]).members, ARRAY_KEYS);
            DomainJson(facts, document, blockInfo)
            == Annotated(Merged(facts, document).value["devices" := Object(devices)], blockInfo)
  {
    MergedDevices(document);
    FinishedWithOne(Merged(facts, document).value, Convert(DevicesNodes(document)[0]).members, blockInfo);
  }

  lemma WrappedDisks(devices: Node, members: map<string, Json>)
    requires members == Wrapped(Convert(devices).members, ARRAY_KEYS)
    ensures "disk" in members <==> Named(devices.Children(), "disk") != []
    ensures "disk" in members ==> members["disk"] == Array(ConvertNamed(devices.Children(), "disk"))
  {
    assert ARRAY_KEYS[0] == "disk";
    WrappedDevices(devices, "disk");
  }

  lemma AnnotatedWrapped(
    output: map<string, Json>, devices: Node, members: map<string, Json>, blockInfo: string -> BlockInfo)
    requires members == Wrapped(Convert(devices).members, ARRAY_KEYS)
    requires "devices" in output && output["devices"] == Object(members)
    ensures var disks := AnnotateAll(ConvertNamed(devices.Children(), "disk"), blockInfo);
            Annotated(output, blockInfo) ==
            if disks.Error? then Error(disks.failure)
            else if Named(devices.Children(), "disk") == [] then Ok(output)
            else Ok(output["devices" := Object(members["disk" := Array(disks.value)])])
  {
    WrappedDisks(devices, members);
    ConvertNamedIs(devices.Children(), "disk");
  }

  lemma NotOneDevices(facts: Facts, document: seq<Node>, blockInfo: string -> BlockInfo)
    requires Merged(facts, document).Ok? && |DevicesNodes(document)| != 1
    ensures DomainJson(facts, document, blockInfo)
         == if DevicesNodes(document) == [] then Ok(Merged(facts, document).value["devices" := Null])
            else Error(LogicError)
  {
    MergedDevices(document);
    var xml := ConvertChild(document, "domain").members;
    MergedKeeps(facts, document);
    FinishedWithoutOne(Merged(facts, document).value, blockInfo);
  }

  lemma MergedKeeps(facts: Facts, document: seq<Node>)
    requires Merged(facts, document).Ok?
    ensures Member(Object(Merged(facts, document).value), "devices")
         == Member(ConvertChild(document, "domain"), "devices")
  {
  }

  lemma FinishedWithoutOne(merged: map<string, Json>, blockInfo: string -> BlockInfo)
    ensures "devices" !in merged ==> Finished(merged, blockInfo) == Ok(merged["devices" := Null])
    ensures "devices" in merged && merged["devices"].Array? ==> Finished(merged, blockInfo) == Error(LogicError)
  {
  }

  lemma DisksDecide(facts: Facts, document: seq<Node>, blockInfo: string -> BlockInfo)
    requires |DevicesNodes(document)| == 1 && Merged(facts, document).Ok?
    ensures DomainJson(facts, document, blockInfo).Ok?
       <==> forall disk | disk in Named(DevicesNodes(document)[0].Children(), "disk") ::
              AnnotateDisk(Convert(disk), blockInfo).Ok?
  {
    var devices := DevicesNodes(document)[0];
    var members := Wrapped(Convert(devices).members, ARRAY_KEYS);
    OneDevices(facts, document, blockInfo);
    AnnotatedWrapped(Merged(facts, document).value["devices" := Object(members)], devices, members, blockInfo);
    AllConverted(devices.Children(), "disk", blockInfo);
  }

  lemma AllConverted(children: seq<Node>, name: string, blockInfo: string -> BlockInfo)
    ensures (forall j :: j in ConvertNamed(children, name) ==> AnnotateDisk(j, blockInfo).Ok?)
       <==> forall n :: n in Named(children, name) ==> AnnotateDisk(Convert(n), blockInfo).Ok?
  {
    var nodes, converted := Named(children, name), ConvertNamed(children, name);
    ConvertNamedIs(children, name);
    forall j | j in converted ensures exists n :: n in nodes && j == Convert(n) {
      var i :| 0 <= i < |converted| && converted[i] == j;
      assert nodes[i] in nodes;
    }
    forall n | n in nodes ensures Convert(n) in converted {
      var i :| 0 <= i < |nodes| && nodes[i] == n;
      assert converted[i] == Convert(n);
    }
  }

  /** What a member of the devices of an answer holds, given the children so named. */
  ghost predicate HoldsAll(value: Json, nodes: seq<Node>, annotated: bool, blockInfo: string -> BlockInfo) {
    && value.Array?
    && |value.items| == |nodes|
    && forall i | 0 <= i < |nodes| ::
         if annotated then AnnotateDisk(Convert(nodes[i]), blockInfo) == Ok(value.items[i])
         else value.items[i] == Convert(nodes[i])
  }

  /** End to end: an array key is a member exactly when the XML has such devices, and then its value is
      the array of all of them, in document order; what is under other names is left alone. */
  lemma DeviceMembers(facts: Facts, document: seq<Node>, blockInfo: string -> BlockInfo, key: string)
    requires |DevicesNodes(document)| == 1 && DomainJson(facts, document, blockInfo).Ok?
    ensures var r := DomainJson(facts, document, blockInfo).value;
            && "devices" in r && r["devices"].Object?
            && var devices, node := r["devices"].members, DevicesNodes(document)[0];
               if key in ARRAY_KEYS then
                 && (key in devices <==> Named(node.Children(), key) != [])
                 && (key in devices ==> HoldsAll(devices[key], Named(node.Children(), key), key == "disk", blockInfo))
               else
                 && (key in devices <==> key in Convert(node).members)
                 && (key in devices ==> devices[key] == Convert(node).members[key])
  {
    var node := DevicesNodes(document)[0];
    var members := Wrapped(Convert(node).members, ARRAY_KEYS);
    assert Merged(facts, document).Ok?;
    OneDevices(facts, document, blockInfo);
    AnnotatedWrapped(Merged(facts, document).value["devices" := Object(members)], node, members, blockInfo);
    WrappedDevices(node, key);
    ConvertNamedIs(node.Children(), key);
    ArrayKeysHoldDisk();
  }

  lemma ArrayKeysHoldDisk()
    ensures "disk" in ARRAY_KEYS
  {
    assert ARRAY_KEYS[0] == "disk";
  }

  /** The device members that are always arrays. */
  lemma ArrayKeysAre(key: string)
    ensures key in ARRAY_KEYS
       <==> || key == "disk" || key == "controller" || key == "interface" || key == "serial"
            || key == "console" || key == "channel" || key == "input" || key == "graphics"
            || key == "sound" || key == "audio" || key == "video" || key == "redirdev"
            || key == "memballoon" || key == "rng"
  {
    assert ARRAY_KEYS == ["disk", "controller", "interface", "serial", "console", "channel", "input"]
                         + ["graphics", "sound", "audio", "video", "redirdev", "memballoon", "rng"];
  }

  /** The XML has a member of this name: the first domain, converted, does. */
  predicate InXml(document: seq<Node>, key: string) {
    Named(document, "domain") != [] && key in Convert(Named(document, "domain")[0]).members
  }

  /** Every other member is the converted XML's, and libvirt's own where the XML has none so named. */
  lemma OtherMembers(facts: Facts, document: seq<Node>, blockInfo: string -> BlockInfo, key: string)
    requires DomainJson(facts, document, blockInfo).Ok? && key != "devices"
    ensures var r := DomainJson(facts, document, blockInfo).value;
            && (key in r <==> InXml(document, key)
                              || key in {"id", "name", "title", "description", "state", "autostart"})
            && (InXml(document, key) ==> r[key] == Convert(Named(document, "domain")[0]).members[key])
  {
    MergedMembers(facts, document, key);
    MergedElsewhere(facts, document, blockInfo, key);
  }

  lemma MergedMembers(facts: Facts, document: seq<Node>, key: string)
    requires Merged(facts, document).Ok?
    ensures var merged := Merged(facts, document).value;
            && (key in merged <==> InXml(document, key)
                                   || key in {"id", "name", "title", "description", "state", "autostart"})
            && (InXml(document, key) ==> merged[key] == Convert(Named(document, "domain")[0]).members[key])
  {
  }

  lemma MergedElsewhere(facts: Facts, document: seq<Node>, blockInfo: string -> BlockInfo, key: string)
    requires DomainJson(facts, document, blockInfo).Ok? && key != "devices"
    ensures Merged(facts, document).Ok?
    ensures var r, merged := DomainJson(facts, document, blockInfo).value, Merged(facts, document).value;
            (key in r <==> key in merged) && (key in r ==> r[key] == merged[key])
  {
    var merged := Merged(facts, document).value;
    WrapElsewhere(merged, key);
    AnnotatedElsewhere(WrapTo(merged, ARRAY_KEYS).value, blockInfo, key);
  }

  /** The names of the states. */
  lemma StateNames()
    ensures |STATE_STRINGS| == 8
    ensures STATE_STRINGS[0] == "None" && STATE_STRINGS[1] == "Running"
    ensures STATE_STRINGS[2] == "Blocked" && STATE_STRINGS[3] == "Paused"
    ensures STATE_STRINGS[4] == "Shutdown" && STATE_STRINGS[5] == "Shutoff"
    ensures STATE_STRINGS[6] == "Crashed" && STATE_STRINGS[7] == "Suspended"
  {
  }

  /** The state of an answer, with the name it is shown by, where the XML has no `state`. */
  lemma StateShown(facts: Facts, document: seq<Node>, blockInfo: string -> BlockInfo)
    requires DomainJson(facts, document, blockInfo).Ok? && !InXml(document, "state")
    ensures var r, n := DomainJson(facts, document, blockInfo).value, facts.state;
            && "state" in r && r["state"].Object? && r["state"].members.Keys == {"attrib"}
            && var attrib := r["state"].members["attrib"];
               && attrib.Object? && attrib.members.Keys == {"id", "string"}
               && attrib.members["id"] == Number(n)
               && attrib.members["string"].String?
               && var s := attrib.members["string"].text;
                  || (n == 0 && s == "None") || (n == 1 && s == "Running")
                  || (n == 2 && s == "Blocked") || (n == 3 && s == "Paused")
                  || (n == 4 && s == "Shutdown") || (n == 5 && s == "Shutoff")
                  || (n == 6 && s == "Crashed") || (n == 7 && s == "Suspended")
  {
    MergedElsewhere(facts, document, blockInfo, "state");
    MergedState(facts, document);
    StateNames();
  }

  lemma MergedState(facts: Facts, document: seq<Node>)
    requires Merged(facts, document).Ok? && !InXml(document, "state")
    ensures 0 <= facts.state < |STATE_STRINGS|
    ensures Member(Object(Merged(facts, document).value), "state")
         == Object(map["attrib" := Object(map[
              "id" := Number(facts.state),
              "string" := String(STATE_STRINGS[facts.state])])])
  {
  }

  /** The other facts of an answer, each where the XML has no such member. */
  lemma FactsShown(facts: Facts, document: seq<Node>, blockInfo: string -> BlockInfo)
    requires DomainJson(facts, document, blockInfo).Ok?
    ensures var r := Object(DomainJson(facts, document, blockInfo).value);
            && (!InXml(document, "id") ==> Member(r, "id") == Number(facts.id))
            && (!InXml(document, "autostart") ==> Member(r, "autostart") == Bool(facts.autostart))
            && (!InXml(document, "name") ==> Member(r, "name") == Object(map["text" := String(facts.name)]))
            && (!InXml(document, "title") ==> Member(r, "title") == Object(map["text" := String(facts.title)]))
            && (!InXml(document, "description") ==>
                  Member(r, "description") == Object(map["text" := String(facts.description)]))
  {
    FactShown(facts, document, blockInfo, "id");
    FactShown(facts, document, blockInfo, "autostart");
    FactShown(facts, document, blockInfo, "name");
    FactShown(facts, document, blockInfo, "title");
    FactShown(facts, document, blockInfo, "description");
    SimpleTexts(facts);
    SimpleValues(facts);
  }

  lemma FactShown(facts: Facts, document: seq<Node>, blockInfo: string -> BlockInfo, key: string)
    requires DomainJson(facts, document, blockInfo).Ok? && key != "devices"
    ensures SimpleDomain(facts).Ok?
    ensures !InXml(document, key) ==>
              Member(Object(DomainJson(facts, document, blockInfo).value), key) == Member(Object(Simple(facts)), key)
  {
    MergedElsewhere(facts, document, blockInfo, key);
    if !InXml(document, key) {
      MergedFrom(facts, document, key);
    }
  }

  /** What libvirt's own facts come to before the XML is merged in. */
  function Simple(facts: Facts): map<string, Json>
    requires SimpleDomain(facts).Ok?
  {
    SimpleDomain(facts).value["autostart" := Bool(facts.autostart)]
  }

  lemma MergedFrom(facts: Facts, document: seq<Node>, key: string)
    requires Merged(facts, document).Ok? && !InXml(document, key)
    ensures Member(Object(Merged(facts, document).value), key) == Member(Object(Simple(facts)), key)
  {
  }

  lemma SimpleTexts(facts: Facts)
    requires SimpleDomain(facts).Ok?
    ensures Member(Object(Simple(facts)), "name") == Object(map["text" := String(facts.name)])
    ensures Member(Object(Simple(facts)), "title") == Object(map["text" := String(facts.title)])
    ensures Member(Object(Simple(facts)), "description") == Object(map["text" := String(facts.description)])
  {
  }

  lemma SimpleValues(facts: Facts)
    requires SimpleDomain(facts).Ok?
    ensures Member(Object(Simple(facts)), "id") == Number(facts.id)
    ensures Member(Object(Simple(facts)), "autostart") == Bool(facts.autostart)
  {
  }

  lemma WrapElsewhere(output: map<string, Json>, key: string)
    requires WrapTo(output, ARRAY_KEYS).Ok? && key != "devices"
    ensures var r := WrapTo(output, ARRAY_KEYS).value;
            && "devices" in r && (r["devices"].Object? || r["devices"].Null?)
            && (key in r <==> key in output) && (key in r ==> r[key] == output[key])
  {
  }

  lemma AnnotatedElsewhere(output: map<string, Json>, blockInfo: string -> BlockInfo, key: string)
    requires "devices" in output && (output["devices"].Object? || output["devices"].Null?)
    requires Annotated(output, blockInfo).Ok? && key != "devices"
    ensures var r := Annotated(output, blockInfo).value;
            (key in r <==> key in output) && (key in r ==> r[key] == output[key])
  {
  }

  // ----- What the annotation of a disk says in terms of its XML

  function AttributeValue(attributes: seq<Attribute>, name: string): string {
    if attributes == [] then ""
    else
      var last := attributes[|attributes| - 1];
      if last.name == name then last.value else AttributeValue(attributes[..|attributes| - 1], name)
  }

  lemma AttributeLookup(attributes: seq<Attribute>, name: string)
    ensures if name in AttributeMap(attributes)
            then AttributeMap(attributes)[name] == String(AttributeValue(attributes, name))
            else AttributeValue(attributes, name) == ""
    ensures attributes == [] <==> AttributeMap(attributes) == map[]
  {
    if attributes != [] {
      AttributeLookup(attributes[..|attributes| - 1], name);
      assert attributes[|attributes| - 1].name in AttributeMap(attributes);
    }
  }

  /** An attribute can be read through the converted element if no more than one thing is under `attrib`,
      and that is the attributes, or a child without a child of the attribute's name. */
  predicate Readable(node: Node, name: string) {
    var named := Named(node.Children(), "attrib");
    if node.Attributes() != [] then named == []
    else named == [] || (|named| == 1 && Named(named[0].Children(), name) == [])
  }

  /** The device must be readable, and of a storage disk also the one target it may have. */
  predicate ReadableDisk(disk: Node) {
    && Readable(disk, "device")
    && (AttributeValue(disk.Attributes(), "device") == "disk" ==>
          && |Named(disk.Children(), "target")| <= 1
          && forall target :: target in Named(disk.Children(), "target") ==> Readable(target, "dev"))
  }

  /** An attribute of the target of a disk. */
  function TargetValue(disk: Node, name: string): string {
    var targets := Named(disk.Children(), "target");
    if targets == [] then "" else AttributeValue(targets[0].Attributes(), name)
  }

  lemma AccessOne(json: Json, key: string)
    ensures Access(json, [key]) ==
            match Touch(json, key)
            case Error(e) => Error(e)
            case Ok(members) => Ok((Object(members), members[key]))
  {
    assert [key][1..] == [];
    var touched := Touch(json, key);
    if touched.Ok? {
      assert touched.value[key := touched.value[key]] == touched.value;
    }
  }

  /** What stands under `attrib`: nothing, the attributes, one child, or several things. */
  lemma UnderAttrib(node: Node)
    requires node.Element?
    ensures var members, named := Convert(node).members, Named(node.children, "attrib");
            && ("attrib" in members <==> node.attributes != [] || named != [])
            && (node.attributes != [] && named == [] ==>
                  members["attrib"] == Object(AttributeMap(node.attributes)))
            && (node.attributes == [] && |named| == 1 ==> members["attrib"] == Convert(named[0]))
            && (|named| > (if node.attributes == [] then 1 else 0) ==> members["attrib"].Array?)
  {
    ClosedForm(node, "attrib");
    ConvertNamedIs(node.children, "attrib");
    var items := Items(node, "attrib");
    assert items == Reserved(node, "attrib") + ConvertNamed(node.children, "attrib");
  }

  /** The member of a name, or null. */
  function Member(json: Json, name: string): Json {
    if json.Object? && name in json.members then json.members[name] else Null
  }

  /** Two objects with the same members under all names but the given ones. */
  ghost predicate SameBut(before: Json, after: Json, names: set<string>) {
    && before.Object? && after.Object?
    && forall key | key !in names ::
         && (key in after.members <==> key in before.members)
         && (key in before.members ==> after.members[key] == before.members[key])
  }

  /** A lookup in what stands under a name. */
  lemma AccessTwo(json: Json, first: string, second: string)
    requires json.Object?
    ensures var r, under := Access(json, [first, second]), Member(json, first);
            && (r.Ok? <==> under.Null? || under.Object?)
            && (r.Ok? ==> r.value.1 == Member(under, second) && SameBut(json, r.value.0, {first}))
  {
    assert [first, second][1..] == [second];
    AccessOne(Member(json, first), second);
  }

  lemma ReadFromAttributes(attributes: seq<Attribute>, name: string)
    ensures AsString(Member(Object(AttributeMap(attributes)), name)) == Ok(AttributeValue(attributes, name))
  {
    AttributeLookup(attributes, name);
  }

  lemma ReadFromChild(child: Node, name: string)
    requires PlainName(name)
    ensures var read := AsString(Member(Convert(child), name));
            if Named(child.Children(), name) == [] then read == Ok("") else read.Error?
  {
    PlainMember(child, name);
    NotText(Member(Convert(child), name));
  }

  lemma NotText(json: Json)
    ensures json.Object? || json.Array? ==> AsString(json).Error?
    ensures json.Null? ==> AsString(json) == Ok("")
  {
  }

  /** What is read in the object under `attrib`, in each of the forms it can have. */
  lemma ReadUnder(node: Node, name: string)
    requires node.Element? && PlainName(name)
    ensures var under := Member(Convert(node), "attrib");
            && ((under.Null? || under.Object?) && AsString(Member(under, name)).Ok? <==> Readable(node, name))
            && (Readable(node, name) ==> AsString(Member(under, name)) == Ok(AttributeValue(node.attributes, name)))
  {
    UnderAttrib(node);
    ReadFromAttributes(node.attributes, name);
    var named := Named(node.children, "attrib");
    if node.attributes == [] && |named| == 1 {
      ReadFromChild(named[0], name);
    }
  }

  /** Reading an attribute through the converted element, as the loop over the disks does, works on
      exactly the readable elements. */
  lemma ReadAttribute(node: Node, name: string)
    requires node.Element? && PlainName(name)
    ensures var r := Access(Convert(node), ["attrib", name]);
            && (r.Ok? && AsString(r.value.1).Ok? <==> Readable(node, name))
            && (Readable(node, name) ==>
                 && AsString(r.value.1) == Ok(AttributeValue(node.attributes, name))
                 && SameBut(Convert(node), r.value.0, {"attrib"}))
  {
    AccessTwo(Convert(node), "attrib", name);
    ReadUnder(node, name);
  }

  /** A lookup one level deeper. */
  lemma AccessThree(json: Json, first: string, rest: seq<string>)
    requires json.Object?
    ensures var r, inner := Access(json, [first] + rest), Access(Member(json, first), rest);
            && (r.Ok? <==> inner.Ok?)
            && (r.Ok? ==> r.value.1 == inner.value.1 && SameBut(json, r.value.0, {first}))
  {
    assert ([first] + rest)[1..] == rest;
  }

  /** The same for the target of a disk, through the disk. */
  lemma ReadTarget(disk: Node, json: Json, name: string)
    requires disk.Element? && PlainName(name)
    requires json.Object? && Member(json, "target") == Member(Convert(disk), "target")
    ensures var r, targets := Access(json, ["target", "attrib", name]), Named(disk.children, "target");
            && (r.Ok? && AsString(r.value.1).Ok?
                <==> |targets| <= 1 && forall target :: target in targets ==> Readable(target, name))
            && (r.Ok? && AsString(r.value.1).Ok? ==>
                 AsString(r.value.1) == Ok(TargetValue(disk, name)) && SameBut(json, r.value.0, {"target"}))
  {
    assert ["target", "attrib", name] == ["target"] + ["attrib", name];
    AccessThree(json, "target", ["attrib", name]);
    PlainMember(disk, "target");
    ReadTargets(Member(json, "target"), Named(disk.children, "target"), name);
  }

  lemma ReadTargets(under: Json, targets: seq<Node>, name: string)
    requires PlainName(name) && forall target :: target in targets ==> target.Element?
    requires targets == [] ==> under == Null
    requires |targets| == 1 ==> under == Convert(targets[0])
    requires |targets| > 1 ==> under.Array?
    ensures var r := Access(under, ["attrib", name]);
            && (r.Ok? && AsString(r.value.1).Ok?
                <==> |targets| <= 1 && forall target :: target in targets ==> Readable(target, name))
            && (r.Ok? && AsString(r.value.1).Ok? ==>
                 AsString(r.value.1) == Ok(if targets == [] then "" else AttributeValue(targets[0].Attributes(), name)))
  {
    if targets == [] {
      NothingUnderNull("attrib", name);
    } else if |targets| == 1 {
      assert targets[0] in targets;
      assert forall target :: target in targets ==> target == targets[0];
      ReadAttribute(targets[0], name);
    }
  }

  lemma NothingUnderNull(first: string, second: string)
    ensures var r := Access(Null, [first, second]);
            r.Ok? && r.value.1 == Null
  {
    assert [first, second][1..] == [second];
    AccessOne(Null, second);
  }

  /** A value with nothing changed but nulls put where there was no member, or where there was null. */
  ghost predicate OnlyNullsAdded(before: Json, after: Json)
    decreases after
  {
    || before == after
    || (before.Null? && after.Object?
        && forall key | key in after.members :: OnlyNullsAdded(Null, after.members[key]))
    || (before.Object? && after.Object? && before.members.Keys <= after.members.Keys
        && forall key | key in after.members ::
             OnlyNullsAdded(if key in before.members then before.members[key] else Null, after.members[key]))
  }

  /** A lookup adds nothing but nulls. */
  lemma {:induction false} AccessAddsNulls(json: Json, path: seq<string>)
    requires Access(json, path).Ok?
    ensures OnlyNullsAdded(json, Access(json, path).value.0)
    decreases |path|
  {
    if path != [] {
      var members := Touch(json, path[0]).value;
      AccessAddsNulls(members[path[0]], path[1..]);
    }
  }

  lemma {:induction false} NullsAddUp(a: Json, b: Json, c: Json)
    requires OnlyNullsAdded(a, b) && OnlyNullsAdded(b, c)
    ensures OnlyNullsAdded(a, c)
    decreases c
  {
    if a != b && b != c {
      forall key | key in c.members
        ensures OnlyNullsAdded(if a.Object? && key in a.members then a.members[key] else Null, c.members[key])
      {
        var middle := if key in b.members then b.members[key] else Null;
        NullsAddUp(if a.Object? && key in a.members then a.members[key] else Null, middle, c.members[key]);
      }
    }
  }

  /** Nothing of a disk is lost or overwritten by the annotation, but an old `block_info` of a storage disk. */
  lemma DiskKeepsItsOwn(disk: Json, blockInfo: string -> BlockInfo)
    requires AnnotateDisk(disk, blockInfo).Ok?
    ensures var r := AnnotateDisk(disk, blockInfo).value;
            || OnlyNullsAdded(disk, r)
            || exists looked: Json :: looked.Object? && OnlyNullsAdded(disk, looked)
                 && r == Object(looked.members["block_info" := Member(r, "block_info")])
  {
    var first := Access(disk, ["attrib", "device"]).value.0;
    AccessAddsNulls(disk, ["attrib", "device"]);
    if AnnotateDisk(disk, blockInfo).value != first {
      var second := Access(first, ["target", "attrib", "dev"]).value.0;
      AccessAddsNulls(first, ["target", "attrib", "dev"]);
      NullsAddUp(disk, first, second);
    }
  }

  /** The loop body works on exactly the readable disks. A disk gets the sizes of its target device if its
      device attribute says `disk`, and nothing otherwise; apart from that it keeps all members other than
      those the lookups go through. */
  lemma DiskSizes(disk: Node, blockInfo: string -> BlockInfo)
    requires disk.Element?
    ensures var r := AnnotateDisk(Convert(disk), blockInfo);
            var storage := AttributeValue(disk.attributes, "device") == "disk";
            && (r.Ok? <==> ReadableDisk(disk))
            && (r.Ok? ==>
                 && (storage ==> Member(r.value, "block_info") == BlockJson(blockInfo(TargetValue(disk, "dev"))))
                 && SameBut(Convert(disk), r.value, if storage then {"attrib", "target", "block_info"} else {"attrib"}))
  {
    ReadAttribute(disk, "device");
    if Readable(disk, "device") && AttributeValue(disk.attributes, "device") == "disk" {
      ReadTarget(disk, Access(Convert(disk), ["attrib", "device"]).value.0, "dev");
    }
  }

  lemma NamedDisks(nodes: seq<Node>, blockInfo: string -> BlockInfo)
    ensures forall disk | disk in Named(nodes, "disk") ::
              AnnotateDisk(Convert(disk), blockInfo).Ok? <==> ReadableDisk(disk)
  {
    forall disk | disk in Named(nodes, "disk")
      ensures AnnotateDisk(Convert(disk), blockInfo).Ok? <==> ReadableDisk(disk)
    {
      DiskSizes(disk, blockInfo);
    }
  }

  /** A state without a name and two `devices` elements are refused, none answers with null devices, and
      with one the answer exists exactly if every disk is readable. */
  lemma Outcome(facts: Facts, document: seq<Node>, blockInfo: string -> BlockInfo)
    ensures var r, devices := DomainJson(facts, document, blockInfo), DevicesNodes(document);
            if !(0 <= facts.state < |STATE_STRINGS|) then r == Error(OutOfRange)
            else
              && (|devices| > 1 ==> r == Error(LogicError))
              && (devices == [] ==> r == Ok(Merged(facts, document).value["devices" := Null]))
              && (|devices| == 1 ==>
                   (r.Ok? <==> forall disk :: disk in Named(devices[0].Children(), "disk") ==> ReadableDisk(disk)))
  {
    if 0 <= facts.state < |STATE_STRINGS| {
      if |DevicesNodes(document)| == 1 {
        DisksDecide(facts, document, blockInfo);
        NamedDisks(DevicesNodes(document)[0].Children(), blockInfo);
      } else {
        NotOneDevices(facts, document, blockInfo);
      }
    }
  }

  /** An element without a child named `attrib`. */
  predicate PlainAttributes(node: Node) {
    node.Element? && Named(node.children, "attrib") == []
  }

  /** A disk as libvirt writes it: plain attributes and at most one target, itself with plain attributes. */
  predicate PlainDisk(disk: Node) {
    && PlainAttributes(disk)
    && |Named(disk.children, "target")| <= 1
    && forall target :: target in Named(disk.children, "target") ==> PlainAttributes(target)
  }

  /** With plain disks only, an answer fails on nothing but a second `devices` element. */
  lemma PlainDisksSuffice(facts: Facts, document: seq<Node>, blockInfo: string -> BlockInfo)
    requires 0 <= facts.state < |STATE_STRINGS|
    requires forall devices, disk ::
      devices in DevicesNodes(document) && disk in Named(devices.Children(), "disk") ==> PlainDisk(disk)
    ensures DomainJson(facts, document, blockInfo).Ok? <==> |DevicesNodes(document)| <= 1
  {
    Outcome(facts, document, blockInfo);
    if |DevicesNodes(document)| == 1 {
      var devices := DevicesNodes(document)[0];
      assert devices in DevicesNodes(document);
      forall disk | disk in Named(devices.Children(), "disk") ensures ReadableDisk(disk) {
        assert PlainDisk(disk);
      }
    }
  }
}
