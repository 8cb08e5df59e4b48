/**
 * The request-body schemas of the form routes. Create needs a name of 3 to
 * 255 characters once trimmed, a description and the id of a form type as
 * 24 hexadecimal digits, and admits a `docxFile` key of any value. Update
 * makes the name and the form type optional, with the same rules when
 * present, but still needs the description.
 */
module FormValidation {
  import opened Text
  import opened JoiRules
  import DocumentStore

  const CreateKeys: set<string> := {"name", "description", "formTypeId", "docxFile"}
  const UpdateKeys: set<string> := {"name", "description", "formTypeId"}

  predicate CreateForm(body: Part) {
    KeysWithin(body, CreateKeys)
    && "name" in body && NameRule(body["name"])
    && "description" in body && IsString(body["description"])
    && "formTypeId" in body && HexOfLength(body["formTypeId"], 24)
  }

  predicate UpdateForm(body: Part) {
    KeysWithin(body, UpdateKeys)
    && ("name" in body ==> NameRule(body["name"]))
    && "description" in body && IsString(body["description"])
    && ("formTypeId" in body ==> HexOfLength(body["formTypeId"], 24))
  }

  /** The body Joi hands on: the same keys, with the name trimmed. */
  function Converted(body: Part): (r: Part)
    ensures r.Keys == body.Keys
    ensures forall k :: k in body && k != "name" ==> r[k] == body[k]
    ensures "name" in body ==> r["name"] == Trimmed(body["name"])
  {
    if "name" in body then body["name" := Trimmed(body["name"])] else body
  }

  /**
   * A form type id the create schema admits is one the service's own check
   * admits, so the service's 400 'Invalid form type ID' is not reached
   * through the route.
   */
  lemma CreateFormTypeIdIsValid(body: Part)
    requires CreateForm(body)
    ensures DocumentStore.ValidId(body["formTypeId"].s)
  {
  }

  /** The converted body passes the schema again, and converting it once more changes nothing. */
  lemma CreateConvertedStable(body: Part)
    requires CreateForm(body)
    ensures CreateForm(Converted(body)) && Converted(Converted(body)) == Converted(body)
  {
    NameRuleStable(body["name"]);
  }

  /** A create body without the file key is an update body as well. */
  lemma CreateIsUpdate(body: Part)
    requires CreateForm(body) && "docxFile" !in body
    ensures UpdateForm(body)
  {
  }

  /** Update needs the description: a body holding only a description passes exactly when it is a non-empty string. */
  lemma UpdateDescriptionOnly(d: Value)
    ensures UpdateForm(map["description" := d]) <==> d.Str? && d.s != ""
    ensures !UpdateForm(map[])
  {
  }
}
