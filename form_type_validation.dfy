/**
 * The request-body schemas of the form-type routes: create needs a name of
 * 3 to 255 characters once trimmed and a description; update makes both
 * optional and sets no minimum number of keys.
 */
module FormTypeValidation {
  import opened Wrappers
  import opened Text
  import opened JoiRules
  import FormTypeService

  const Keys: set<string> := {"name", "description"}

  predicate CreateFormType(body: Part) {
    KeysWithin(body, Keys)
    && "name" in body && NameRule(body["name"])
    && "description" in body && IsString(body["description"])
  }

  predicate UpdateFormType(body: Part) {
    KeysWithin(body, Keys)
    && ("name" in body ==> NameRule(body["name"]))
    && ("description" in body ==> IsString(body["description"]))
  }

  /** The patch an admitted update body amounts to, with the name trimmed as Joi hands it on. */
  function PatchOf(body: Part): (p: FormTypeService.FormTypePatch)
    requires UpdateFormType(body)
    ensures p.name.Some? <==> "name" in body
    ensures p.description.Some? <==> "description" in body
  {
    FormTypeService.FormTypePatch(
      if "name" in body then Some(Trimmed(body["name"]).s) else None,
      if "description" in body then Some(body["description"].s) else None)
  }

  /** The empty body passes, and it is the patch that changes nothing. */
  lemma EmptyUpdateAdmitted()
    ensures UpdateFormType(map[])
    ensures PatchOf(map[]) == FormTypeService.FormTypePatch(None, None)
  {
  }

  /** Every create body is an update body as well. */
  lemma CreateIsUpdate(body: Part)
    requires CreateFormType(body)
    ensures UpdateFormType(body)
  {
  }

  /**
   * An admitted name has 3 to 255 code units once trimmed, so at least two
   * characters: never blank.
   */
  lemma AdmittedNameNotBlank(body: Part)
    requires UpdateFormType(body)
    ensures PatchOf(body).name.Some? ==>
      3 <= Utf16Length(PatchOf(body).name.value) <= 255 && 2 <= |PatchOf(body).name.value|
  {
  }
}
