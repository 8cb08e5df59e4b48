/**
 * The regulation service. Creating a regulation needs a source file, which
 * is uploaded under `regulations/<name>`; an optional updated file goes
 * under `regulations/updated<name>` and brings the body's update date with
 * it. Unlike the other services, the catch block of the create appends the
 * caught error's own message to its 500 message. Get, list and delete reuse
 * the message 'Error creating regulation' for their 500s.
 */
module RegulationService {
  import opened Wrappers
  import opened ApiErrors
  import opened DocumentStore
  import opened FirebaseUpload

  /** The fields of the request body the service reads; the dates are the texts given to `new Date`. */
  datatype RegulationBody = RegulationBody(name: string, issuedDate: string, updatedDate: string)

  /**
   * What the service may receive as its source file: nothing at all
   * (`undefined`), a value whose `length` is 0 (an empty list of files), or
   * a file object, which has no `length` property.
   */
  datatype SourceArg = Missing | Empty | Attached(file: UploadedFile)

  const CreateFailed: string := "Error creating regulation: "
  const UndefinedLength: string := "Cannot read properties of undefined (reading 'length')"

  /** The catch block of the create: an `ApiError` passes, anything else is a 500 naming the error's message. */
  function CreateCaught<T>(r: Outcome<T>): (c: Outcome<T>)
    ensures r.Ok? ==> c == r
    ensures r.Fails? && r.thrown.Api? ==> c == r
    ensures r.Fails? && r.thrown.Internal? ==> c == Throw(InternalServerError, CreateFailed + r.thrown.message)
    ensures c.Fails? ==> c.thrown.Api?
    ensures c.Fails? && c.thrown.error.status != InternalServerError ==> c == r
  {
    match r
    case Ok(_) => r
    case Fails(Api(_)) => r
    case Fails(Internal(m)) => Throw(InternalServerError, CreateFailed + m)
  }

  /** The create's catch block applied twice is applied once: what it throws is already an `ApiError`. */
  lemma CreateCaughtTwice<T>(r: Outcome<T>)
    ensures CreateCaught(CreateCaught(r)) == CreateCaught(r)
  {
  }

  /** The record a successful create stores. */
  function NewRegulation(body: RegulationBody, source: UploadedFile, updatedFile: Option<UploadedFile>,
                         sourceEnv: UploadEnv, updatedEnv: UploadEnv): (reg: Regulation)
    ensures reg.name == body.name && reg.issuedDate == DateOf(body.issuedDate)
    ensures reg.sourceUrl == FileUrl(sourceEnv.bucket, FilePath("regulations", body.name, FileName(sourceEnv.now, source.originalname)))
    ensures reg.updatedSource.Some? <==> updatedFile.Some?
    ensures reg.updatedDate.Some? <==> updatedFile.Some?
    ensures updatedFile.Some? ==>
      reg.updatedDate == Some(DateOf(body.updatedDate)) &&
      reg.updatedSource == UrlOf(updatedFile, "regulations", "updated" + body.name, updatedEnv)
  {
    Regulation(body.name, DateOf(body.issuedDate),
               if updatedFile.Some? then Some(DateOf(body.updatedDate)) else None,
               UrlOf(Some(source), "regulations", body.name, sourceEnv).value,
               UrlOf(updatedFile, "regulations", "updated" + body.name, updatedEnv))
  }

  /**
   * `createRegulation`. The source file's length is read first: a missing
   * argument makes that read throw, which the catch block turns into a 500;
   * a length of 0 is a 400. Then the uploads, source first, and the write.
   */
  method CreateRegulation(db: Db, regulationBody: RegulationBody, sourceFile: SourceArg,
                          updatedFile: Option<UploadedFile>, sourceEnv: UploadEnv, updatedEnv: UploadEnv,
                          newId: Id, fault: Option<string>)
    returns (r: Outcome<(Id, Regulation)>)
    requires db.Valid()
    modifies db
    ensures db.Valid()
    ensures db.forms == old(db.forms) && db.formTypes == old(db.formTypes)
    ensures db.notifications == old(db.notifications)
    ensures sourceFile.Missing? ==> r == Throw(InternalServerError, CreateFailed + UndefinedLength)
    ensures sourceFile.Empty? ==> r == Throw(BadRequest, "Source file is required")
    ensures (sourceFile.Attached? && (!sourceEnv.stored || (updatedFile.Some? && !updatedEnv.stored)))
        ==> r == Throw(InternalServerError, "Failed to upload file")
    ensures (sourceFile.Attached? && sourceEnv.stored && (updatedFile.None? || updatedEnv.stored) && fault.Some?)
        ==> r == Throw(InternalServerError, CreateFailed + fault.value)
    ensures r.Ok? <==>
      sourceFile.Attached? && sourceEnv.stored && (updatedFile.None? || updatedEnv.stored) &&
      fault.None? && newId !in old(db.regulations.docs)
    ensures r.Fails? ==> db.regulations == old(db.regulations)
    ensures r.Ok? ==>
      r.value == (newId, NewRegulation(regulationBody, sourceFile.file, updatedFile, sourceEnv, updatedEnv)) &&
      db.regulations == old(db.regulations).Insert(newId, r.value.1)
  {
    if sourceFile.Missing? {
      return CreateCaught(Fails(Internal(UndefinedLength)));
    }
    if sourceFile.Empty? {
      return Throw(BadRequest, "Source file is required");
    }
    var uploaded := Upload(sourceFile.file, "regulations", regulationBody.name, sourceEnv);
    if uploaded.Fails? {
      return CreateCaught(uploaded.PropagateFailure());
    }
    var fileUrl := uploaded.value;
    var updatedUrl: Option<string> := None;
    var updatedDate: Option<Date> := None;
    if updatedFile.Some? {
      var second := Upload(updatedFile.value, "regulations", "updated" + regulationBody.name, updatedEnv);
      if second.Fails? {
        return CreateCaught(second.PropagateFailure());
      }
      updatedUrl := Some(second.value);
      updatedDate := Some(DateOf(regulationBody.updatedDate));
    }
    var issuedDate := DateOf(regulationBody.issuedDate);
    var regulation := Regulation(regulationBody.name, issuedDate, updatedDate, fileUrl, updatedUrl);
    if fault.Some? {
      return CreateCaught(Fails(Internal(fault.value)));
    }
    if newId in db.regulations.docs {
      return CreateCaught(Fails(Internal("duplicate key")));
    }
    db.regulations := db.regulations.Insert(newId, regulation);
    r := Ok((newId, regulation));
  }

  /** `getRegulationById`: 400 for a malformed id, 404 for an absent one, else the record. */
  function GetRegulationById(regulations: Table<Regulation>, regulationId: Id): (r: Outcome<Regulation>)
    ensures !ValidId(regulationId) ==> r == Throw(BadRequest, "Invalid regulation ID")
    ensures ValidId(regulationId) && regulationId !in regulations.docs ==> r == Throw(NotFound, "Regulation not found")
    ensures r.Ok? <==> ValidId(regulationId) && regulationId in regulations.docs
    ensures r.Ok? ==> r.value == regulations.docs[regulationId]
  {
    if !ValidId(regulationId) then Throw(BadRequest, "Invalid regulation ID")
    else if regulationId !in regulations.docs then Throw(NotFound, "Regulation not found")
    else Ok(regulations.docs[regulationId])
  }

  /** `getAllRegulations`: every stored regulation, once each, in store order. */
  function GetAllRegulations(regulations: Table<Regulation>): (r: Outcome<seq<(Id, Regulation)>>)
    requires regulations.Valid()
    ensures r.Ok? && |r.value| == |regulations.ids|
    ensures forall i :: 0 <= i < |r.value| ==>
      r.value[i].0 == regulations.ids[i] && r.value[i].1 == regulations.docs[regulations.ids[i]]
    ensures forall id :: id in regulations.docs <==> exists i :: 0 <= i < |r.value| && r.value[i].0 == id
  {
    Ok(regulations.Rows())
  }

  /** `deleteRegulationById`: the record removed and returned; a later delete of the same id is a 404. */
  method DeleteRegulationById(db: Db, regulationId: Id, fault: Option<string>) returns (r: Outcome<Regulation>)
    requires db.Valid()
    modifies db
    ensures db.Valid()
    ensures db.forms == old(db.forms) && db.formTypes == old(db.formTypes)
    ensures db.notifications == old(db.notifications)
    ensures !ValidId(regulationId) ==> r == Throw(BadRequest, "Invalid regulation ID")
    ensures ValidId(regulationId) && fault.Some? ==> r == Throw(InternalServerError, "Error creating regulation")
    ensures ValidId(regulationId) && fault.None? && regulationId !in old(db.regulations.docs) ==>
      r == Throw(NotFound, "Regulation not found")
    ensures r.Ok? <==> ValidId(regulationId) && fault.None? && regulationId in old(db.regulations.docs)
    ensures r.Fails? ==> db.regulations == old(db.regulations)
    ensures r.Ok? ==>
      r.value == old(db.regulations.docs[regulationId]) &&
      db.regulations == old(db.regulations).Remove(regulationId) &&
      regulationId !in db.regulations.docs
  {
    if !ValidId(regulationId) {
      return Throw(BadRequest, "Invalid regulation ID");
    }
    if fault.Some? {
      return Caught(Fails(Internal(fault.value)), "Error creating regulation");
    }
    if regulationId !in db.regulations.docs {
      return Caught(Throw(NotFound, "Regulation not found"), "Error creating regulation");
    }
    r := Ok(db.regulations.docs[regulationId]);
    db.regulations := db.regulations.Remove(regulationId);
  }

  /** Deleting twice: the second call finds nothing. */
  method DeleteRegulationTwice(db: Db, regulationId: Id) returns (first: Outcome<Regulation>, second: Outcome<Regulation>)
    requires db.Valid()
    modifies db
    ensures first.Ok? ==> second == Throw(NotFound, "Regulation not found")
  {
    first := DeleteRegulationById(db, regulationId, None);
    second := DeleteRegulationById(db, regulationId, None);
  }

  /** Once a regulation is deleted, looking it up gives 404. */
  lemma GetAfterDelete(regulations: Table<Regulation>, regulationId: Id)
    requires regulations.Valid() && ValidId(regulationId)
    ensures GetRegulationById(regulations.Remove(regulationId), regulationId) == Throw(NotFound, "Regulation not found")
  {
  }

  /** A created regulation can be read back under its new id. */
  lemma GetAfterCreate(regulations: Table<Regulation>, regulationId: Id, regulation: Regulation)
    requires regulations.Valid() && ValidId(regulationId) && regulationId !in regulations.docs
    ensures GetRegulationById(regulations.Insert(regulationId, regulation), regulationId) == Ok(regulation)
  {
  }
}
