/**
 * The form-type service. Unlike the other services, its get, update and
 * delete check the id before entering the `try` block, so the 400 for a
 * malformed id is thrown directly. Update and delete are single database
 * calls (`findByIdAndUpdate` with `$set`, `findByIdAndDelete`); a failure of
 * that call (`fault`) is a 500 whether or not the record exists.
 */
module FormTypeService {
  import opened Wrappers
  import opened ApiErrors
  import opened DocumentStore

  datatype FormTypeBody = FormTypeBody(name: string, description: string)

  /** The keys an update body may carry; an absent key is `None`. */
  datatype FormTypePatch = FormTypePatch(name: Option<string>, description: Option<string>)

  /**
   * `createFormType`: the body stored as a new record, or a 500 when the
   * write fails. The file the controller passes as a second argument is not
   * read.
   */
  method CreateFormType(db: Db, formTypeBody: FormTypeBody, newId: Id, now: nat, fault: Option<string>)
    returns (r: Outcome<(Id, FormType)>)
    requires db.Valid()
    modifies db
    ensures db.Valid()
    ensures db.forms == old(db.forms) && db.regulations == old(db.regulations)
    ensures db.notifications == old(db.notifications)
    ensures r.Ok? <==> fault.None? && newId !in old(db.formTypes.docs)
    ensures r.Fails? ==> r == Throw(InternalServerError, "Failed to create form type")
    ensures r.Fails? ==> db.formTypes == old(db.formTypes)
    ensures r.Ok? ==>
      r.value == (newId, FormType(formTypeBody.name, formTypeBody.description, now)) &&
      db.formTypes == old(db.formTypes).Insert(newId, r.value.1)
  {
    if fault.Some? {
      return Caught(Fails(Internal(fault.value)), "Failed to create form type");
    }
    if newId in db.formTypes.docs {
      return Caught(Fails(Internal("duplicate key")), "Failed to create form type");
    }
    var formType := FormType(formTypeBody.name, formTypeBody.description, now);
    db.formTypes := db.formTypes.Insert(newId, formType);
    r := Ok((newId, formType));
  }

  /** `getAllFormTypes`: every stored form type, once each, in store order. */
  function GetAllFormTypes(formTypes: Table<FormType>): (r: Outcome<seq<(Id, FormType)>>)
    requires formTypes.Valid()
    ensures r.Ok? && |r.value| == |formTypes.ids|
    ensures forall i :: 0 <= i < |r.value| ==> r.value[i].0 == formTypes.ids[i] && r.value[i].1 == formTypes.docs[formTypes.ids[i]]
    ensures forall id :: id in formTypes.docs <==> exists i :: 0 <= i < |r.value| && r.value[i].0 == id
  {
    Ok(formTypes.Rows())
  }

  /** `getFormTypeById`: 400 for a malformed id, 404 for an absent one, else the record. */
  function GetFormTypeById(formTypes: Table<FormType>, formTypeId: Id): (r: Outcome<FormType>)
    ensures !ValidId(formTypeId) ==> r == Throw(BadRequest, "Invalid document ID")
    ensures ValidId(formTypeId) && formTypeId !in formTypes.docs ==> r == Throw(NotFound, "Form type not found")
    ensures r.Ok? <==> ValidId(formTypeId) && formTypeId in formTypes.docs
    ensures r.Ok? ==> r.value == formTypes.docs[formTypeId]
  {
    if !ValidId(formTypeId) then Throw(BadRequest, "Invalid document ID")
    else if formTypeId !in formTypes.docs then Caught(Throw(NotFound, "Form type not found"), "Error fetching form type")
    else Ok(formTypes.docs[formTypeId])
  }

  /** The record after `$set` of the keys the patch carries. */
  function Patched(formType: FormType, patch: FormTypePatch): (t: FormType)
    ensures t.name == patch.name.GetOr(formType.name)
    ensures t.description == patch.description.GetOr(formType.description)
    ensures t.createAt == formType.createAt
  {
    formType.(name := patch.name.GetOr(formType.name), description := patch.description.GetOr(formType.description))
  }

  /** `updateFormTypeById`: the keys of the patch set on the stored record, which is returned as updated. */
  method UpdateFormTypeById(db: Db, formTypeId: Id, updateBody: FormTypePatch, fault: Option<string>)
    returns (r: Outcome<FormType>)
    requires db.Valid()
    modifies db
    ensures db.Valid()
    ensures db.forms == old(db.forms) && db.regulations == old(db.regulations)
    ensures db.notifications == old(db.notifications)
    ensures !ValidId(formTypeId) ==> r == Throw(BadRequest, "Invalid document ID")
    ensures ValidId(formTypeId) && fault.Some? ==> r == Throw(InternalServerError, "Error updating form type")
    ensures ValidId(formTypeId) && fault.None? && formTypeId !in old(db.formTypes.docs) ==>
      r == Throw(NotFound, "Form type not found")
    ensures r.Ok? <==> ValidId(formTypeId) && fault.None? && formTypeId in old(db.formTypes.docs)
    ensures r.Fails? ==> db.formTypes == old(db.formTypes)
    ensures r.Ok? ==>
      r.value == Patched(old(db.formTypes.docs[formTypeId]), updateBody) &&
      db.formTypes == old(db.formTypes).Replace(formTypeId, r.value)
  {
    if !ValidId(formTypeId) {
      return Throw(BadRequest, "Invalid document ID");
    }
    if fault.Some? {
      return Caught(Fails(Internal(fault.value)), "Error updating form type");
    }
    if formTypeId !in db.formTypes.docs {
      return Caught(Throw(NotFound, "Form type not found"), "Error updating form type");
    }
    var updated := Patched(db.formTypes.docs[formTypeId], updateBody);
    db.formTypes := db.formTypes.Replace(formTypeId, updated);
    r := Ok(updated);
  }

  /**
   * `deleteFormTypeById`: the record removed and its last state returned.
   * The forms that reference it are left as they are.
   */
  method DeleteFormTypeById(db: Db, formTypeId: Id, fault: Option<string>) returns (r: Outcome<FormType>)
    requires db.Valid()
    modifies db
    ensures db.Valid()
    ensures db.forms == old(db.forms) && db.regulations == old(db.regulations)
    ensures db.notifications == old(db.notifications)
    ensures !ValidId(formTypeId) ==> r == Throw(BadRequest, "Invalid document ID")
    ensures ValidId(formTypeId) && fault.Some? ==> r == Throw(InternalServerError, "Error deleting form type")
    ensures ValidId(formTypeId) && fault.None? && formTypeId !in old(db.formTypes.docs) ==>
      r == Throw(NotFound, "Form type not found")
    ensures r.Ok? <==> ValidId(formTypeId) && fault.None? && formTypeId in old(db.formTypes.docs)
    ensures r.Fails? ==> db.formTypes == old(db.formTypes)
    ensures r.Ok? ==>
      r.value == old(db.formTypes.docs[formTypeId]) &&
      db.formTypes == old(db.formTypes).Remove(formTypeId)
  {
    if !ValidId(formTypeId) {
      return Throw(BadRequest, "Invalid document ID");
    }
    if fault.Some? {
      return Caught(Fails(Internal(fault.value)), "Error deleting form type");
    }
    if formTypeId !in db.formTypes.docs {
      return Caught(Throw(NotFound, "Form type not found"), "Error deleting form type");
    }
    r := Ok(db.formTypes.docs[formTypeId]);
    db.formTypes := db.formTypes.Remove(formTypeId);
  }

  /** An update with an empty patch changes nothing but still answers with the record. */
  lemma EmptyPatchIsIdentity(formTypes: Table<FormType>, formTypeId: Id)
    requires formTypes.Valid() && formTypeId in formTypes.docs
    ensures formTypes.Replace(formTypeId, Patched(formTypes.docs[formTypeId], FormTypePatch(None, None))) == formTypes
  {
    var t := formTypes.docs[formTypeId];
    assert Patched(t, FormTypePatch(None, None)) == t;
    assert formTypes.docs[formTypeId := t] == formTypes.docs;
  }

  /** Once a form type is deleted, looking it up gives 404. */
  lemma GetAfterDelete(formTypes: Table<FormType>, formTypeId: Id)
    requires formTypes.Valid() && ValidId(formTypeId)
    ensures GetFormTypeById(formTypes.Remove(formTypeId), formTypeId) == Throw(NotFound, "Form type not found")
  {
  }
}
