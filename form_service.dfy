/**
 * The form service. Forms reference a form type by id; creating one checks
 * the reference, uploads the optional PDF and DOCX files and stores the
 * record. The readers join each form with its form type's name. Update and
 * delete, as written, work on the joined copy `getFormById` returns, which
 * is a plain object without the document methods `save` and `remove`: they
 * end in a 500 and leave the store as it was. `UpdateFormByIdFixed` and
 * `DeleteFormByIdFixed` are the intended operations, on the stored record.
 *
 * The world is passed in: `now` is the clock, each `UploadEnv` the answer
 * of the storage service to one upload, `newId` the id the database
 * assigns, and `fault` a failure of the database write, with its message.
 */
module FormService {
  import opened Wrappers
  import opened ApiErrors
  import opened DocumentStore
  import opened FirebaseUpload

  /** The fields of the request body the service reads. */
  datatype FormBody = FormBody(name: string, description: string, formTypeId: string)

  /** The keys an update body may carry; an absent key is `None`. */
  datatype FormPatch = FormPatch(name: Option<string>, description: Option<string>, formTypeId: Option<Id>)

  /** A form as the readers return it: its id, the stored record and the name of its form type. */
  datatype FormView = FormView(id: Id, form: Form, formTypeName: string)

  const TypeErrorOnNull: string := "Cannot read properties of null (reading 'name')"

  /**
   * The name `populate('formTypeId', 'name')` makes available: the
   * referenced form type's name, or nothing when no form type has that id
   * (the populated field is then null).
   */
  function FormTypeName(formTypes: Table<FormType>, form: Form): (r: Option<string>)
    ensures r.Some? <==> form.formTypeId in formTypes.docs
    ensures r.Some? ==> r.value == formTypes.docs[form.formTypeId].name
  {
    if form.formTypeId in formTypes.docs then Some(formTypes.docs[form.formTypeId].name) else None
  }

  /** Every row joined with its form type's name; nothing when some row's form type is missing. */
  function Views(rows: seq<(Id, Form)>, formTypes: Table<FormType>): Option<seq<FormView>> {
    if rows == [] then Some([])
    else
      match FormTypeName(formTypes, rows[0].1)
      case None => None
      case Some(n) =>
        match Views(rows[1..], formTypes)
        case None => None
        case Some(vs) => Some([FormView(rows[0].0, rows[0].1, n)] + vs)
  }

  lemma {:induction false} ViewsSpec(rows: seq<(Id, Form)>, formTypes: Table<FormType>)
    ensures Views(rows, formTypes).Some? <==> forall i :: 0 <= i < |rows| ==> rows[i].1.formTypeId in formTypes.docs
    ensures Views(rows, formTypes).Some? ==>
      var vs := Views(rows, formTypes).value;
      |vs| == |rows| &&
      forall i :: 0 <= i < |rows| ==>
        vs[i] == FormView(rows[i].0, rows[i].1, formTypes.docs[rows[i].1.formTypeId].name)
  {
    if rows != [] {
      ViewsSpec(rows[1..], formTypes);
      if Views(rows, formTypes).Some? {
        var vs := Views(rows, formTypes).value;
        var tail := Views(rows[1..], formTypes).value;
        assert vs == [FormView(rows[0].0, rows[0].1, formTypes.docs[rows[0].1.formTypeId].name)] + tail;
        forall i | 0 <= i < |rows|
          ensures vs[i] == FormView(rows[i].0, rows[i].1, formTypes.docs[rows[i].1.formTypeId].name)
        {
          if i > 0 {
            assert vs[i] == tail[i - 1];
            assert rows[i] == rows[1..][i - 1];
          }
        }
      } else if FormTypeName(formTypes, rows[0].1).Some? {
        var i :| 0 <= i < |rows[1..]| && rows[1..][i].1.formTypeId !in formTypes.docs;
        assert rows[i + 1] == rows[1..][i];
      }
    }
  }

  /** `getAllForms`: every stored form in store order, each with its form type's name. */
  function GetAllForms(forms: Table<Form>, formTypes: Table<FormType>): (r: Outcome<seq<FormView>>)
    requires forms.Valid()
    ensures r.Fails? ==> r == Throw(InternalServerError, "Error fetching forms with form type names")
  {
    match Views(forms.Rows(), formTypes)
    case Some(vs) => Ok(vs)
    case None => Caught(Fails(Internal(TypeErrorOnNull)), "Error fetching forms with form type names")
  }

  /** Every row's form type exists exactly when every stored form's form type exists. */
  lemma RowsReferenceTypes(forms: Table<Form>, formTypes: Table<FormType>)
    requires forms.Valid()
    ensures (forall i :: 0 <= i < |forms.Rows()| ==> forms.Rows()[i].1.formTypeId in formTypes.docs) <==>
      (forall id :: id in forms.docs ==> forms.docs[id].formTypeId in formTypes.docs)
  {
    var rows := forms.Rows();
    if forall i :: 0 <= i < |rows| ==> rows[i].1.formTypeId in formTypes.docs {
      forall id | id in forms.docs
        ensures forms.docs[id].formTypeId in formTypes.docs
      {
        var i :| 0 <= i < |rows| && rows[i].0 == id;
        assert rows[i].1 == forms.docs[id];
      }
    } else {
      var i :| 0 <= i < |rows| && rows[i].1.formTypeId !in formTypes.docs;
      assert forms.ids[i] in forms.docs;
    }
  }

  /**
   * The list is one entry per stored form, in store order, each carrying its
   * form type's name; it fails exactly when some form's form type is missing.
   */
  lemma GetAllFormsSpec(forms: Table<Form>, formTypes: Table<FormType>)
    requires forms.Valid()
    ensures GetAllForms(forms, formTypes).Ok? <==>
      forall id :: id in forms.docs ==> forms.docs[id].formTypeId in formTypes.docs
    ensures GetAllForms(forms, formTypes).Ok? ==>
      var vs := GetAllForms(forms, formTypes).value;
      |vs| == |forms.ids| &&
      forall i :: 0 <= i < |vs| ==>
        vs[i].id == forms.ids[i] && vs[i].form == forms.docs[forms.ids[i]] &&
        vs[i].formTypeName == formTypes.docs[vs[i].form.formTypeId].name
  {
    ViewsSpec(forms.Rows(), formTypes);
    RowsReferenceTypes(forms, formTypes);
  }


  /** `getFormById`: 400 for a malformed id, 404 for an absent form, else the form with its form type's name. */
  function GetFormById(forms: Table<Form>, formTypes: Table<FormType>, formId: Id): (r: Outcome<FormView>)
    ensures !ValidId(formId) ==> r == Throw(BadRequest, "Invalid document ID")
    ensures ValidId(formId) && formId !in forms.docs ==> r == Throw(NotFound, "Form not found")
    ensures ValidId(formId) && formId in forms.docs ==>
      (r.Ok? <==> forms.docs[formId].formTypeId in formTypes.docs)
    ensures r.Ok? ==>
      formId in forms.docs && r.value.id == formId && r.value.form == forms.docs[formId] &&
      r.value.formTypeName == formTypes.docs[r.value.form.formTypeId].name
    ensures r.Fails? && ValidId(formId) && formId in forms.docs ==>
      r == Throw(InternalServerError, "Error fetching form")
  {
    if !ValidId(formId) then Throw(BadRequest, "Invalid document ID")
    else if formId !in forms.docs then Throw(NotFound, "Form not found")
    else
      var form := forms.docs[formId];
      match FormTypeName(formTypes, form)
      case Some(n) => Ok(FormView(formId, form, n))
      case None => Caught(Fails(Internal(TypeErrorOnNull)), "Error fetching form")
  }

  /** The rows whose form references `formTypeId`, in their order. */
  function WithFormType(rows: seq<(Id, Form)>, formTypeId: Id): (r: seq<(Id, Form)>)
    ensures |r| <= |rows|
  {
    if rows == [] then []
    else if rows[0].1.formTypeId == formTypeId then [rows[0]] + WithFormType(rows[1..], formTypeId)
    else WithFormType(rows[1..], formTypeId)
  }

  lemma {:induction false} WithFormTypeSpec(rows: seq<(Id, Form)>, formTypeId: Id)
    ensures forall row :: row in WithFormType(rows, formTypeId) ==> row in rows && row.1.formTypeId == formTypeId
    ensures forall row :: row in rows && row.1.formTypeId == formTypeId ==> row in WithFormType(rows, formTypeId)
  {
    if rows != [] {
      WithFormTypeSpec(rows[1..], formTypeId);
      assert rows == [rows[0]] + rows[1..];
    }
  }

  /** No two rows carry the same id. */
  predicate DistinctIds(rows: seq<(Id, Form)>) {
    forall i, j :: 0 <= i < j < |rows| ==> rows[i].0 != rows[j].0
  }

  /** The ids of `r` appear in the order the rows list them: an earlier entry of `r` comes from an earlier row. */
  predicate IdsInOrder(r: seq<(Id, Form)>, rows: seq<(Id, Form)>) {
    forall k, l, p, q ::
      0 <= k < l < |r| && 0 <= p < |rows| && 0 <= q < |rows| && rows[p].0 == r[k].0 && rows[q].0 == r[l].0 ==> p < q
  }

  lemma DistinctIdsTail(rows: seq<(Id, Form)>)
    requires DistinctIds(rows) && rows != []
    ensures DistinctIds(rows[1..])
  {
    var tail := rows[1..];
    forall i, j | 0 <= i < j < |tail| ensures tail[i].0 != tail[j].0 {
      assert tail[i] == rows[i + 1] && tail[j] == rows[j + 1];
    }
  }

  /** A row found again, by its id, among the rows after the first sits after the first. */
  lemma TailIndex(rows: seq<(Id, Form)>, x: (Id, Form), q: nat)
    requires DistinctIds(rows) && rows != []
    requires x in rows[1..] && q < |rows| && rows[q].0 == x.0
    ensures 1 <= q
  {
    var m :| 0 <= m < |rows| - 1 && rows[1..][m] == x;
    assert rows[m + 1] == x;
  }

  /** One pair of entries of the filtered list, placed by the order of the rest of the rows. */
  lemma OrderStep(rows: seq<(Id, Form)>, r: seq<(Id, Form)>, rt: seq<(Id, Form)>, n: nat,
                  k: nat, l: nat, p: nat, q: nat)
    requires DistinctIds(rows) && rows != []
    requires n <= 1 && r == rows[..n] + rt
    requires forall x :: x in rt ==> x in rows[1..]
    requires IdsInOrder(rt, rows[1..])
    requires k < l < |r| && p < |rows| && q < |rows| && rows[p].0 == r[k].0 && rows[q].0 == r[l].0
    ensures p < q
  {
    var tail := rows[1..];
    assert r[l] == rt[l - n];
    TailIndex(rows, rt[l - n], q);
    if k < n {
      assert r[k] == rows[0];
    } else {
      assert r[k] == rt[k - n];
      TailIndex(rows, rt[k - n], p);
      assert tail[p - 1] == rows[p] && tail[q - 1] == rows[q];
    }
  }

  /** Rows in order after the first stay in order with the first row put in front of them, or not. */
  lemma OrderLift(rows: seq<(Id, Form)>, r: seq<(Id, Form)>, rt: seq<(Id, Form)>, n: nat)
    requires DistinctIds(rows) && rows != []
    requires n <= 1 && r == rows[..n] + rt
    requires forall x :: x in rt ==> x in rows[1..]
    requires IdsInOrder(rt, rows[1..])
    ensures IdsInOrder(r, rows)
  {
    forall k, l, p, q |
      0 <= k < l < |r| && 0 <= p < |rows| && 0 <= q < |rows| && rows[p].0 == r[k].0 && rows[q].0 == r[l].0
      ensures p < q
    {
      OrderStep(rows, r, rt, n, k, l, p, q);
    }
  }

  /** With distinct ids in the rows, the filtered list keeps the rows' order. */
  lemma {:induction false} WithFormTypeOrder(rows: seq<(Id, Form)>, formTypeId: Id)
    requires DistinctIds(rows)
    ensures IdsInOrder(WithFormType(rows, formTypeId), rows)
  {
    if rows != [] {
      var r := WithFormType(rows, formTypeId);
      var tail := rows[1..];
      DistinctIdsTail(rows);
      var rt := WithFormType(tail, formTypeId);
      WithFormTypeOrder(tail, formTypeId);
      WithFormTypeSpec(tail, formTypeId);
      var n := if rows[0].1.formTypeId == formTypeId then 1 else 0;
      assert r == rows[..n] + rt;
      OrderLift(rows, r, rt, n);
    }
  }

  /** `getFormsByFormTypeId`: 400 for a malformed id, else the forms that reference that form type. */
  function GetFormsByFormTypeId(forms: Table<Form>, formTypeId: Id): (r: Outcome<seq<(Id, Form)>>)
    requires forms.Valid()
    ensures !ValidId(formTypeId) <==> r == Throw(BadRequest, "Invalid form type ID")
    ensures r.Ok? <==> ValidId(formTypeId)
  {
    if !ValidId(formTypeId) then Throw(BadRequest, "Invalid form type ID")
    else Ok(WithFormType(forms.Rows(), formTypeId))
  }

  /** The list holds exactly the stored forms whose form type is the argument. */
  lemma FormsByFormTypeExact(forms: Table<Form>, formTypeId: Id, id: Id, form: Form)
    requires forms.Valid() && ValidId(formTypeId)
    ensures (id, form) in GetFormsByFormTypeId(forms, formTypeId).value <==>
      id in forms.docs && forms.docs[id] == form && form.formTypeId == formTypeId
  {
    var rows := forms.Rows();
    WithFormTypeSpec(rows, formTypeId);
    if id in forms.docs {
      var i :| 0 <= i < |forms.ids| && forms.ids[i] == id;
      assert rows[i] == (id, forms.docs[id]);
    }
  }

  /** The list names each stored form once, in store order. */
  lemma FormsByFormTypeOrdered(forms: Table<Form>, formTypeId: Id)
    requires forms.Valid() && ValidId(formTypeId)
    ensures var r := GetFormsByFormTypeId(forms, formTypeId).value;
      forall k, l :: 0 <= k < l < |r| ==> r[k].0 != r[l].0
    ensures var r := GetFormsByFormTypeId(forms, formTypeId).value;
      forall k, l, p, q ::
        (0 <= k < l < |r| && 0 <= p < |forms.ids| && 0 <= q < |forms.ids| &&
         forms.ids[p] == r[k].0 && forms.ids[q] == r[l].0)
        ==> p < q
  {
    var rows := forms.Rows();
    var r := WithFormType(rows, formTypeId);
    assert forall i :: 0 <= i < |rows| ==> rows[i].0 == forms.ids[i];
    WithFormTypeOrder(rows, formTypeId);
    WithFormTypeSpec(rows, formTypeId);
    forall k, l | 0 <= k < l < |r| ensures r[k].0 != r[l].0 {
      assert r[k] in rows;
      var p :| 0 <= p < |rows| && rows[p] == r[k];
      assert rows[p].0 == r[k].0 && rows[p].0 == r[l].0 ==> p < p;
    }
  }

  /**
   * `createForm`. The form type id is checked for form, then for presence;
   * the files are uploaded, the PDF first; then the record is written.
   * An `ApiError` (the 400s, a failed upload) reaches the caller as it is;
   * a failed write becomes a 500 'Error creating form'.
   */
  method CreateForm(db: Db, formBody: FormBody, file: Option<UploadedFile>, docxFile: Option<UploadedFile>,
                    fileEnv: UploadEnv, docxEnv: UploadEnv, newId: Id, now: nat, fault: Option<string>)
    returns (r: Outcome<(Id, Form)>)
    requires db.Valid()
    modifies db
    ensures db.Valid()
    ensures db.formTypes == old(db.formTypes) && db.regulations == old(db.regulations)
    ensures db.notifications == old(db.notifications)
    ensures !ValidId(formBody.formTypeId) ==> r == Throw(BadRequest, "Invalid form type ID")
    ensures ValidId(formBody.formTypeId) && formBody.formTypeId !in old(db.formTypes.docs) ==>
      r == Throw(BadRequest, "FormType ID provided not found")
    ensures (ValidId(formBody.formTypeId) && formBody.formTypeId in old(db.formTypes.docs) &&
             ((file.Some? && !fileEnv.stored) ||
              ((file.None? || fileEnv.stored) && docxFile.Some? && !docxEnv.stored)))
        ==> r == Throw(InternalServerError, "Failed to upload file")
    ensures (ValidId(formBody.formTypeId) && formBody.formTypeId in old(db.formTypes.docs) &&
             (file.None? || fileEnv.stored) && (docxFile.None? || docxEnv.stored) &&
             (fault.Some? || newId in old(db.forms.docs)))
        ==> r == Throw(InternalServerError, "Error creating form")
    ensures r.Ok? <==>
      ValidId(formBody.formTypeId) && formBody.formTypeId in old(db.formTypes.docs) &&
      (file.None? || fileEnv.stored) && (docxFile.None? || docxEnv.stored) &&
      fault.None? && newId !in old(db.forms.docs)
    ensures r.Fails? ==> db.forms == old(db.forms)
    ensures r.Ok? ==>
      r.value.0 == newId &&
      r.value.1 == Form(formBody.name, formBody.description, formBody.formTypeId,
                        UrlOf(file, "forms", formBody.name, fileEnv),
                        UrlOf(docxFile, "forms", "docxFile" + formBody.name, docxEnv), now) &&
      db.forms == old(db.forms).Insert(newId, r.value.1)
  {
    var formTypeId := formBody.formTypeId;
    if !ValidId(formTypeId) {
      return Throw(BadRequest, "Invalid form type ID");
    }
    if formTypeId !in db.formTypes.docs {
      return Throw(BadRequest, "FormType ID provided not found");
    }
    var fileUrl: Option<string> := None;
    var docxUrl: Option<string> := None;
    if file.Some? {
      var uploaded := Upload(file.value, "forms", formBody.name, fileEnv);
      if uploaded.Fails? {
        return Caught(uploaded.PropagateFailure(), "Error creating form");
      }
      fileUrl := Some(uploaded.value);
    }
    if docxFile.Some? {
      var uploaded := Upload(docxFile.value, "forms", "docxFile" + formBody.name, docxEnv);
      if uploaded.Fails? {
        return Caught(uploaded.PropagateFailure(), "Error creating form");
      }
      docxUrl := Some(uploaded.value);
    }
    var newForm := Form(formBody.name, formBody.description, formTypeId, fileUrl, docxUrl, now);
    if fault.Some? {
      return Caught(Fails(Internal(fault.value)), "Error creating form");
    }
    if newId in db.forms.docs {
      return Caught(Fails(Internal("duplicate key")), "Error creating form");
    }
    db.forms := db.forms.Insert(newId, newForm);
    r := Ok((newId, newForm));
  }

  /**
   * `updateFormById` as written: the copy `getFormById` returns has no
   * `save`, so calling it throws a TypeError. Whatever the body, the call
   * fails and nothing is written; an `ApiError` of the lookup reaches the
   * caller unchanged.
   */
  method UpdateFormById(db: Db, formId: Id, updateBody: FormPatch) returns (r: Outcome<FormView>)
    ensures r.Fails?
    ensures !ValidId(formId) ==> r == Throw(BadRequest, "Invalid document ID")
    ensures ValidId(formId) && formId !in db.forms.docs ==> r == Throw(NotFound, "Form not found")
    ensures ValidId(formId) && formId in db.forms.docs && db.forms.docs[formId].formTypeId !in db.formTypes.docs ==>
      r == Throw(InternalServerError, "Error fetching form")
    ensures ValidId(formId) && formId in db.forms.docs && db.forms.docs[formId].formTypeId in db.formTypes.docs ==>
      r == Throw(InternalServerError, "Error updating form")
  {
    if !ValidId(formId) {
      return Throw(BadRequest, "Invalid document ID");
    }
    var form := GetFormById(db.forms, db.formTypes, formId);
    if form.Fails? {
      return Caught(form, "Error updating form");
    }
    // The patch lands on the returned copy only; the copy has no `save`.
    r := Caught(Fails(Internal("form.save is not a function")), "Error updating form");
  }

  /**
   * `deleteFormById` as written: the copy has no `remove`, so the call fails
   * and nothing is removed.
   */
  method DeleteFormById(db: Db, formId: Id) returns (r: Outcome<FormView>)
    ensures r.Fails?
    ensures !ValidId(formId) ==> r == Throw(BadRequest, "Invalid document ID")
    ensures ValidId(formId) && formId !in db.forms.docs ==> r == Throw(NotFound, "Form not found")
    ensures ValidId(formId) && formId in db.forms.docs && db.forms.docs[formId].formTypeId !in db.formTypes.docs ==>
      r == Throw(InternalServerError, "Error fetching form")
    ensures ValidId(formId) && formId in db.forms.docs && db.forms.docs[formId].formTypeId in db.formTypes.docs ==>
      r == Throw(InternalServerError, "Error deleting form")
  {
    if !ValidId(formId) {
      return Throw(BadRequest, "Invalid document ID");
    }
    var form := GetFormById(db.forms, db.formTypes, formId);
    if form.Fails? {
      return Caught(form, "Error deleting form");
    }
    r := Caught(Fails(Internal("form.remove is not a function")), "Error deleting form");
  }

  /** The record with the keys present in the patch assigned. */
  function Patched(form: Form, patch: FormPatch): (f: Form)
    ensures f.name == patch.name.GetOr(form.name)
    ensures f.description == patch.description.GetOr(form.description)
    ensures f.formTypeId == patch.formTypeId.GetOr(form.formTypeId)
    ensures f.url == form.url && f.docxUrl == form.docxUrl && f.createAt == form.createAt
  {
    form.(name := patch.name.GetOr(form.name),
          description := patch.description.GetOr(form.description),
          formTypeId := patch.formTypeId.GetOr(form.formTypeId))
  }

  /**
   * The update the service evidently means: the same checks, then the keys
   * of the patch assigned to the stored record and the record saved.
   */
  method UpdateFormByIdFixed(db: Db, formId: Id, updateBody: FormPatch, fault: Option<string>)
    returns (r: Outcome<FormView>)
    requires db.Valid()
    modifies db
    ensures db.Valid()
    ensures db.formTypes == old(db.formTypes) && db.regulations == old(db.regulations)
    ensures db.notifications == old(db.notifications)
    ensures !ValidId(formId) ==> r == Throw(BadRequest, "Invalid document ID")
    ensures ValidId(formId) && formId !in old(db.forms.docs) ==> r == Throw(NotFound, "Form not found")
    ensures r.Ok? <==>
      ValidId(formId) && formId in old(db.forms.docs) &&
      old(db.forms.docs[formId].formTypeId) in db.formTypes.docs && fault.None?
    ensures r.Fails? ==> db.forms == old(db.forms)
    ensures r.Ok? ==>
      r.value.id == formId && r.value.form == Patched(old(db.forms.docs[formId]), updateBody) &&
      db.forms == old(db.forms).Replace(formId, r.value.form)
  {
    if !ValidId(formId) {
      return Throw(BadRequest, "Invalid document ID");
    }
    var found := GetFormById(db.forms, db.formTypes, formId);
    if found.Fails? {
      return Caught(found, "Error updating form");
    }
    var view := found.value;
    var updated := Patched(view.form, updateBody);
    if fault.Some? {
      return Caught(Fails(Internal(fault.value)), "Error updating form");
    }
    db.forms := db.forms.Replace(formId, updated);
    r := Ok(view.(form := updated));
  }

  /** The delete the service evidently means: the stored record removed and its last state returned. */
  method DeleteFormByIdFixed(db: Db, formId: Id, fault: Option<string>) returns (r: Outcome<FormView>)
    requires db.Valid()
    modifies db
    ensures db.Valid()
    ensures db.formTypes == old(db.formTypes) && db.regulations == old(db.regulations)
    ensures db.notifications == old(db.notifications)
    ensures !ValidId(formId) ==> r == Throw(BadRequest, "Invalid document ID")
    ensures ValidId(formId) && formId !in old(db.forms.docs) ==> r == Throw(NotFound, "Form not found")
    ensures r.Ok? <==>
      ValidId(formId) && formId in old(db.forms.docs) &&
      old(db.forms.docs[formId].formTypeId) in db.formTypes.docs && fault.None?
    ensures r.Fails? ==> db.forms == old(db.forms)
    ensures r.Ok? ==>
      r.value.id == formId && r.value.form == old(db.forms.docs[formId]) &&
      db.forms == old(db.forms).Remove(formId)
  {
    if !ValidId(formId) {
      return Throw(BadRequest, "Invalid document ID");
    }
    var found := GetFormById(db.forms, db.formTypes, formId);
    if found.Fails? {
      return Caught(found, "Error deleting form");
    }
    if fault.Some? {
      return Caught(Fails(Internal(fault.value)), "Error deleting form");
    }
    db.forms := db.forms.Remove(formId);
    r := found;
  }

  /** After the intended delete, looking the form up again gives 404. */
  lemma GetAfterRemove(forms: Table<Form>, formTypes: Table<FormType>, formId: Id)
    requires forms.Valid() && ValidId(formId)
    ensures GetFormById(forms.Remove(formId), formTypes, formId) == Throw(NotFound, "Form not found")
  {
  }
}
