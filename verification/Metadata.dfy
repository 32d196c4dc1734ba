/** Changing the title and description of a domain: compare, write what differs, report what was written. */
module Metadata {
  import opened Json
  import opened DomainData

  datatype Field = Title | Description

  datatype Write = Write(field: Field, text: string)

  /** What libvirt holds, and the writes it has been asked for. */
  datatype Store = Store(title: string, description: string, writes: seq<Write>)

  datatype Body = Invalid | Parsed(json: Json)

  /** The answer, or the exception that leaves the handler. */
  datatype Answer = Answered(status: nat, json: Json) | Thrown(failure: Failure)

  /** A text as it crosses into libvirt: a C string ends at its first NUL. */
  function CString(text: string): string {
    if text == "" || text[0] == '\0' then "" else [text[0]] + CString(text[1..])
  }

  lemma {:induction false} CStringKeepsExactly(text: string)
    ensures CString(text) == text <==> '\0' !in text
    ensures '\0' !in CString(text)
  {
    if text == "" || text[0] == '\0' {
    } else {
      CStringKeepsExactly(text[1..]);
      assert text == [text[0]] + text[1..];
    }
  }

  /** The store after one write, which libvirt accepts or refuses. */
  function Written(store: Store, field: Field, text: string, accepted: bool): Store {
    var asked := store.(writes := store.writes + [Write(field, text)]);
    if !accepted then asked
    else if field.Title? then asked.(title := CString(text))
    else asked.(description := CString(text))
  }

  class Domain {
    var title: string
    var description: string
    var writes: seq<Write>

    function Contents(): Store
      reads this
    {
      Store(title, description, writes)
    }

    constructor (title: string, description: string)
      ensures Contents() == Store(title, description, [])
    {
      this.title := title;
      this.description := description;
      writes := [];
    }

    method SetMetadata(field: Field, text: string, accepted: bool) returns (ok: bool)
      modifies this
      ensures Contents() == Written(old(Contents()), field, text, accepted)
      ensures ok == accepted
    {
      writes := writes + [Write(field, text)];
      if accepted {
        match field {
          case Title => title := CString(text);
          case Description => description := CString(text);
        }
      }
      ok := accepted;
    }
  }

  /** The member of a parsed body, or the default; only objects and null can be asked. */
  function Requested(json: Json, key: string, default: string): Result<string> {
    match json
    case Null => Ok(default)
    case Object(members) => if key in members then AsString(members[key]) else Ok(default)
    case _ => Error(LogicError)
  }

  /** The members reported for a wish: those that differ from the store. */
  function Changes(store: Store, title: string, description: string): map<string, Json> {
    (if title != store.title then map["title" := String(title)] else map[])
    + (if description != store.description then map["description" := String(description)] else map[])
  }

  /** One field of the update: written only if it differs. */
  function Compared(store: Store, field: Field, text: string, accepted: bool): Store {
    if text == (if field.Title? then store.title else store.description) then store
    else Written(store, field, text, accepted)
  }

  function Updated(store: Store, body: Body, titleAccepted: bool, descriptionAccepted: bool): (Store, Answer) {
    if body.Invalid? then (store, Answered(400, Detail("Invalid JSON input")))
    else
      var title := Requested(body.json, "title", store.title);
      if title.Error? then (store, Thrown(title.failure))
      else
        var titled := Compared(store, Title, title.value, titleAccepted);
        var description := Requested(body.json, "description", store.description);
        if description.Error? then (titled, Thrown(description.failure))
        else
          var same := title.value == store.title && description.value == store.description;
          (Compared(titled, Description, description.value, descriptionAccepted),
           Answered(if same then 304 else 200, Object(Changes(store, title.value, description.value))))
  }

  /** The handler. Whether libvirt accepts a write is up to the environment; the handler does not look. */
  method Update(domain: Domain, body: Body, titleAccepted: bool, descriptionAccepted: bool)
    returns (answer: Answer)
    modifies domain
    ensures (domain.Contents(), answer) == Updated(old(domain.Contents()), body, titleAccepted, descriptionAccepted)
  {
    if body.Invalid? {
      return Answered(400, Detail("Invalid JSON input"));
    }
    ghost var store := domain.Contents();
    var output: map<string, Json> := map[];
    var title := Requested(body.json, "title", domain.title);
    if title.Error? {
      return Thrown(title.failure);
    }
    if title.value != domain.title {
      var _ := domain.SetMetadata(Title, title.value, titleAccepted);
      output := output["title" := String(title.value)];
    }
    var description := Requested(body.json, "description", domain.description);
    if description.Error? {
      return Thrown(description.failure);
    }
    if description.value != domain.description {
      var _ := domain.SetMetadata(Description, description.value, descriptionAccepted);
      output := output["description" := String(description.value)];
    }
    assert output == Changes(store, title.value, description.value);
    assert title.value != store.title ==> "title" in output;
    assert description.value != store.description ==> "description" in output;
    answer := Answered(if output == map[] then 304 else 200, Object(output));
  }

  /** Texts read from libvirt are C strings. */
  ghost predicate Readable(store: Store) {
    '\0' !in store.title && '\0' !in store.description
  }

  /** With accepted writes, repeating a request leaves title and description alone; it asks for no write and
      is answered as not modified exactly if no requested text holds a NUL. */
  lemma RepeatedExactly(store: Store, body: Body, titleAccepted: bool, descriptionAccepted: bool)
    requires Readable(store) && body.Parsed?
    requires Updated(store, body, true, true).1.Answered?
    ensures var once := Updated(store, body, true, true).0;
            var (twice, answer) := Updated(once, body, titleAccepted, descriptionAccepted);
            && Readable(once)
            && (twice.title, twice.description) == (once.title, once.description)
            && (twice.writes == once.writes && answer == Answered(304, Object(map[]))
                <==> && '\0' !in Requested(body.json, "title", store.title).value
                     && '\0' !in Requested(body.json, "description", store.description).value)
  {
    var title := Requested(body.json, "title", store.title).value;
    var description := Requested(body.json, "description", store.description).value;
    CStringKeepsExactly(title);
    CStringKeepsExactly(description);
    var once := Updated(store, body, true, true).0;
    assert once.title == CString(title) && once.description == CString(description);
    assert title != once.title ==> "title" in Changes(once, title, description);
    assert description != once.description ==> "description" in Changes(once, title, description);
  }

  /** Every text the answer reports is what libvirt now holds. */
  ghost predicate Truthful(after: Store, members: map<string, Json>) {
    && ("title" in members ==> members["title"] == String(after.title))
    && ("description" in members ==> members["description"] == String(after.description))
  }

  /** The handler reports a changed field whether or not the write was accepted, so the report is true
      exactly if the changed fields were accepted and hold no NUL. */
  lemma TruthfulExactly(store: Store, body: Body, titleAccepted: bool, descriptionAccepted: bool)
    requires body.Parsed? && Updated(store, body, titleAccepted, descriptionAccepted).1.Answered?
    ensures var (after, answer) := Updated(store, body, titleAccepted, descriptionAccepted);
            var title := Requested(body.json, "title", store.title).value;
            var description := Requested(body.json, "description", store.description).value;
            && answer.json.Object?
            && (Truthful(after, answer.json.members)
                <==> && (title != store.title ==> titleAccepted && '\0' !in title)
                     && (description != store.description ==> descriptionAccepted && '\0' !in description))
  {
    CStringKeepsExactly(Requested(body.json, "title", store.title).value);
    CStringKeepsExactly(Requested(body.json, "description", store.description).value);
  }

  /** An update that ends in an exception has nevertheless asked for a write exactly if the description is
      what cannot be read as text while the title can and differs. */
  lemma PartialExactly(store: Store, body: Body, titleAccepted: bool, descriptionAccepted: bool)
    ensures var (after, answer) := Updated(store, body, titleAccepted, descriptionAccepted);
            answer.Thrown? && after.writes != store.writes
            <==> && body.Parsed? && body.json.Object?
                 && Requested(body.json, "description", store.description).Error?
                 && "title" in body.json.members
                 && Requested(body.json, "title", store.title).Ok?
                 && Requested(body.json, "title", store.title).value != store.title
  {
  }

  // ----- What an update does to a field, told by the members of the body

  /** A C string ends at the first NUL. */
  lemma {:induction false} CStringCuts(before: string, after: string)
    requires '\0' !in before
    ensures CString(before) == before
    ensures CString(before + ['\0'] + after) == before
  {
    CStringKeepsExactly(before);
    var whole := before + ['\0'] + after;
    if before == [] {
      assert whole[0] == '\0';
    } else {
      assert before[0] in before;
      CStringCuts(before[1..], after);
      assert whole[1..] == before[1..] + ['\0'] + after;
      assert before == [before[0]] + before[1..];
    }
  }

  /** The writes to one field, in order. */
  function WritesOf(writes: seq<Write>, field: Field): seq<string> {
    if writes == [] then []
    else
      WritesOf(writes[..|writes| - 1], field)
      + if writes[|writes| - 1].field == field then [writes[|writes| - 1].text] else []
  }

  lemma WritesOfOneMore(writes: seq<Write>, write: Write, field: Field)
    ensures WritesOf(writes + [write], field)
         == WritesOf(writes, field) + if write.field == field then [write.text] else []
  {
    assert (writes + [write])[..|writes|] == writes;
  }

  /** One field after the other: what each comparison does to the writes of a field. */
  lemma ComparedWrites(store: Store, compared: Field, text: string, accepted: bool, field: Field)
    ensures WritesOf(Compared(store, compared, text, accepted).writes, field)
         == WritesOf(store.writes, field)
            + if compared == field && text != (if field.Title? then store.title else store.description)
              then [text] else []
  {
    WritesOfOneMore(store.writes, Write(compared, text), field);
  }

  /** What the two comparisons and the report make of two texts. */
  function Both(store: Store, title: string, description: string, titleAccepted: bool, descriptionAccepted: bool)
    : Store
  {
    Compared(Compared(store, Title, title, titleAccepted), Description, description, descriptionAccepted)
  }

  lemma BothTexts(
    store: Store, title: string, description: string, titleAccepted: bool, descriptionAccepted: bool)
    ensures var after := Both(store, title, description, titleAccepted, descriptionAccepted);
            && after.title == (if title != store.title && titleAccepted then CString(title) else store.title)
            && after.description
               == (if description != store.description && descriptionAccepted
                   then CString(description) else store.description)
  {
  }

  lemma BothWrites(
    store: Store, title: string, description: string, titleAccepted: bool, descriptionAccepted: bool)
    ensures var after := Both(store, title, description, titleAccepted, descriptionAccepted);
            && WritesOf(after.writes, Title)
               == WritesOf(store.writes, Title) + (if title != store.title then [title] else [])
            && WritesOf(after.writes, Description)
               == WritesOf(store.writes, Description)
                  + (if description != store.description then [description] else [])
  {
    var titled := Compared(store, Title, title, titleAccepted);
    ComparedWrites(store, Title, title, titleAccepted, Title);
    ComparedWrites(store, Title, title, titleAccepted, Description);
    ComparedWrites(titled, Description, description, descriptionAccepted, Title);
    ComparedWrites(titled, Description, description, descriptionAccepted, Description);
  }

  lemma ChangesAre(store: Store, title: string, description: string)
    ensures var changes := Changes(store, title, description);
            && ("title" in changes <==> title != store.title)
            && ("title" in changes ==> changes["title"] == String(title))
            && ("description" in changes <==> description != store.description)
            && ("description" in changes ==> changes["description"] == String(description))
  {
  }

  lemma AnsweredIs(store: Store, json: Json, titleAccepted: bool, descriptionAccepted: bool)
    requires Updated(store, Parsed(json), titleAccepted, descriptionAccepted).1.Answered?
    ensures var title, description :=
              Requested(json, "title", store.title), Requested(json, "description", store.description);
            && title.Ok? && description.Ok?
            && Updated(store, Parsed(json), titleAccepted, descriptionAccepted).0
               == Both(store, title.value, description.value, titleAccepted, descriptionAccepted)
            && Updated(store, Parsed(json), titleAccepted, descriptionAccepted).1.json
               == Object(Changes(store, title.value, description.value))
  {
  }

  /** The title, by the members of the body: one that is not named keeps its value, is not written and not
      reported; one named with a text is written and reported exactly if it differs, and ends as that text up
      to its first NUL if the write is accepted. */
  lemma TitleAfter(store: Store, members: map<string, Json>, titleAccepted: bool, descriptionAccepted: bool)
    requires Updated(store, Parsed(Object(members)), titleAccepted, descriptionAccepted).1.Answered?
    ensures var (after, answer) := Updated(store, Parsed(Object(members)), titleAccepted, descriptionAccepted);
            && answer.json.Object?
            && ("title" !in members ==>
                 && after.title == store.title && "title" !in answer.json.members
                 && WritesOf(after.writes, Title) == WritesOf(store.writes, Title))
            && ("title" in members && members["title"].String? ==>
                 var s := members["title"].text;
                 && after.title == (if s != store.title && titleAccepted then CString(s) else store.title)
                 && WritesOf(after.writes, Title)
                    == WritesOf(store.writes, Title) + (if s != store.title then [s] else [])
                 && ("title" in answer.json.members <==> s != store.title)
                 && ("title" in answer.json.members ==> answer.json.members["title"] == String(s)))
  {
    AnsweredIs(store, Object(members), titleAccepted, descriptionAccepted);
    var title := Requested(Object(members), "title", store.title).value;
    var description := Requested(Object(members), "description", store.description).value;
    BothTexts(store, title, description, titleAccepted, descriptionAccepted);
    BothWrites(store, title, description, titleAccepted, descriptionAccepted);
    ChangesAre(store, title, description);
  }

  /** The same for the description. */
  lemma DescriptionAfter(store: Store, members: map<string, Json>, titleAccepted: bool, descriptionAccepted: bool)
    requires Updated(store, Parsed(Object(members)), titleAccepted, descriptionAccepted).1.Answered?
    ensures var (after, answer) := Updated(store, Parsed(Object(members)), titleAccepted, descriptionAccepted);
            && answer.json.Object?
            && ("description" !in members ==>
                 && after.description == store.description && "description" !in answer.json.members
                 && WritesOf(after.writes, Description) == WritesOf(store.writes, Description))
            && ("description" in members && members["description"].String? ==>
                 var s := members["description"].text;
                 && after.description
                    == (if s != store.description && descriptionAccepted then CString(s) else store.description)
                 && WritesOf(after.writes, Description)
                    == WritesOf(store.writes, Description) + (if s != store.description then [s] else [])
                 && ("description" in answer.json.members <==> s != store.description)
                 && ("description" in answer.json.members ==> answer.json.members["description"] == String(s)))
  {
    AnsweredIs(store, Object(members), titleAccepted, descriptionAccepted);
    var title := Requested(Object(members), "title", store.title).value;
    var description := Requested(Object(members), "description", store.description).value;
    BothTexts(store, title, description, titleAccepted, descriptionAccepted);
    BothWrites(store, title, description, titleAccepted, descriptionAccepted);
    ChangesAre(store, title, description);
  }

  /** The status: 200 if some field is reported, 304 if none is, 400 for a body that is not JSON, which leaves
      the store alone as null does. Every answer to an object reports nothing but the two fields. */
  lemma StatusAfter(store: Store, body: Body, titleAccepted: bool, descriptionAccepted: bool)
    ensures var (after, answer) := Updated(store, body, titleAccepted, descriptionAccepted);
            && (body.Invalid? ==>
                 after == store && answer == Answered(400, Object(map["detail" := String("Invalid JSON input")])))
            && (body == Parsed(Null) ==> after == store && answer == Answered(304, Object(map[])))
            && (body.Parsed? && answer.Answered? ==>
                 && (answer.status == 200 || answer.status == 304)
                 && answer.json.Object? && answer.json.members.Keys <= {"title", "description"}
                 && (answer.status == 200 <==> answer.json.members != map[]))
            && (body.Parsed? && !body.json.Object? && !body.json.Null? ==> after == store && answer.Thrown?)
  {
    if body.Parsed? && Updated(store, body, titleAccepted, descriptionAccepted).1.Answered? {
      var title := Requested(body.json, "title", store.title).value;
      var description := Requested(body.json, "description", store.description).value;
      var changes := Changes(store, title, description);
      assert title != store.title ==> "title" in changes;
      assert description != store.description ==> "description" in changes;
    }
  }
}
