# UIT regulation system back end, modelled in Dafny

This project models the logic core of the UIT regulation-assistant back end:

- **Answer-record parser.** The Python helper turns each retrieved document into a record of six fields. It splits the document into lines and walks them. Six Vietnamese labels (`Câu trả lời:`, `Căn cứ:`, `Ngày ban hành:`, `Ngày cập nhật:`, `Đường dẫn căn cứ:`, `Đường dẫn các file cập nhật:`) set their field. An answer continues over the following unlabelled lines.
  - `AnswerParser` holds the nested-loop method and the line-by-line specification it is proved against (`Run`, a fold of `Step` over classified lines).
  - `AnswerParserProperties` proves what that specification means.
  - `TrainingLayout` proves the round trip with the document layout the training scripts write.
- **Roles.** `Roles` models the role table and the guard each route names.
- **Resource services** over a document store:
  - `DocumentStore` is the store: four collections kept in insertion order, in a mutable `Db`.
  - `FormService`, `FormTypeService`, `RegulationService` and `NotificationService` are the services. A method writes; a function reads.
  - `ApiErrors` holds the error taxonomy: 400, 404, and 500 for anything else, with each operation's own message.
- **File upload.** `FirebaseUpload` builds the stored file's name, path and download URL. `UriComponent` is ECMAScript `encodeURIComponent`: UTF-8 percent-encoding per section 2.1 of RFC 3986, with the unreserved set of section 2.3 plus `!'()*` left as is. It also proves that percent-decoding inverts it.
- **Request validation.** The Joi schemas of the form, form-type and notification routes are predicates (`JoiRules`, `FormValidation`, `FormTypeValidation`, `NotificationValidation`).
- **Users.** The Django user record (`UserModel`) and its serializer (`UserSerializer`).

The world enters as parameters:
- the clock (`now`);
- the storage service's answer to each upload (`UploadEnv`);
- the id the database assigns (`newId`);
- a failure of a database write (`fault`, with its message);
- the primary key of a first save.

Notes on the code as written:
- In `regulation.service.js` a second `module.exports` replaces the first. All four regulation operations are therefore exported, and all four are modelled.
- The form service writes a `createdAt` key, but the form schema names the field `createAt` and fills it with the time of the write. The model stores the write time as `createAt`.

## Model

| member | source | states |
|---|---|---|
| `AnswerParser.LabelOf` | src/services/qa_service_helper.py:50 | each of the six labels ends in a colon and does not start with whitespace |
| `AnswerParser.LabelsPrefixFree` | src/services/qa_service_helper.py:50 | no label is a prefix of another, so a line matches at most one label |
| `AnswerParser.Set` | src/services/qa_service_helper.py:52-82 | assigning a field changes that field and no other |
| `AnswerParser.ContinueAnswer` | src/services/qa_service_helper.py:54-66 | the inner loop consumes only blank and unlabelled lines after an answer line. It stops at the end of the lines or in front of the next labelled line, which it leaves unconsumed. What it builds agrees with the line-by-line walk from "inside an answer" |
| `AnswerParser.FormatDocument` | src/services/qa_service_helper.py:36-94 | the nested loops over one document compute exactly `ParseDocument` of its text |
| `AnswerParser.FormatResults` | src/services/qa_service_helper.py:34-95 | one record per source document, in the same order, each the parse of that document |
| `AnswerParserProperties.MatchLabelSpec` | src/services/qa_service_helper.py:50 | the label match names field f exactly when the stripped line starts with f's label |
| `AnswerParserProperties.UnlabelledLine` | src/services/qa_service_helper.py:83-84 | a non-blank line starting with no label is classified as unlabelled text |
| `AnswerParserProperties.RunAppend` | src/services/qa_service_helper.py:45-84 | walking two line lists one after the other is walking their concatenation |
| `AnswerParserProperties.BlankLinesIgnored` | src/services/qa_service_helper.py:46-49 | dropping every blank or whitespace-only line does not change the walk's result |
| `AnswerParserProperties.ParseIgnoresBlankLines` | src/services/qa_service_helper.py:46-49 | the parsed record of a document equals that of its non-blank lines |
| `AnswerParserProperties.LabelledLineSetsField` | src/services/qa_service_helper.py:50-53 | a line starting with a label sets that label's field to the stripped text after the label, leaves the other fields, and opens an answer exactly for the answer label |
| `AnswerParserProperties.StrayLineIgnored` | src/services/qa_service_helper.py:83-84 | outside an answer, a line with no label changes nothing |
| `AnswerParserProperties.LastValueNone` | src/services/qa_service_helper.py:68-82 | a field has no last value exactly when no line carries its label |
| `AnswerParserProperties.RunLast` | src/services/qa_service_helper.py:45-84 | the walk of a non-empty list is one step after the walk of all but its last line |
| `AnswerParserProperties.FieldIsLastValue` | src/services/qa_service_helper.py:68-82 | a field other than the answer holds the value of its last label line, the later overwriting the earlier; it keeps its prior value when the label never occurs |
| `AnswerParserProperties.ParsedFieldIsLastValue` | src/services/qa_service_helper.py:37-42 | in the output, a field other than the answer is its last labelled value, or "" when its label never appears |
| `AnswerParserProperties.NoAnswerLabelNoAnswer` | src/services/qa_service_helper.py:54-66 | without an answer label, no line changes the answer and no continuation starts |
| `AnswerParserProperties.ParsedAnswerMissing` | src/services/qa_service_helper.py:37 | a document without an answer label yields the answer "" |
| `AnswerParserProperties.NoLabelLineSpec` | src/services/qa_service_helper.py:62 | the recursive "no label line" check holds exactly when no line is classified as labelled |
| `AnswerParserProperties.ContinuationStep` | src/services/qa_service_helper.py:57-66 | inside an answer, a blank line adds nothing and a text line adds a newline and the stripped line |
| `AnswerParserProperties.ContinuationAppends` | src/services/qa_service_helper.py:57-66 | inside an answer, a run of non-label lines appends each non-blank one as newline plus stripped line, and the walk stays inside the answer |
| `AnswerParserProperties.AnswerSpan` | src/services/qa_service_helper.py:54-70 | answer line, continuation lines, then another label line: the answer is the value plus the continuation. The label line that ends it is still applied |
| `TrainingLayout.StripLayoutLine` | src/finetune_model/finetune.py:25 | a layout line, stripped, is its label followed by the right-stripped rest |
| `TrainingLayout.ClassifyLayoutLine` | src/finetune_model/finetune.py:25 | each field line of the layout is classified as that field's label with the stripped value |
| `TrainingLayout.QuestionLabelDiffers` | src/finetune_model/finetune.py:25 | the question label differs from every field label at some position |
| `TrainingLayout.ClassifyQuestionLine` | src/finetune_model/finetune.py:25 | the question line is never classified as a label line |
| `TrainingLayout.SplitLayout` | src/utils/createVectorStore.py:18 | with no newline in any value, splitting the layout on newlines gives back its seven lines |
| `TrainingLayout.RunSevenLines` | src/services/qa_service_helper.py:45-84 | seven lines classified as the layout's are walked to the record of the six values |
| `TrainingLayout.RunCons` | src/services/qa_service_helper.py:45-48 | the walk of a line followed by more lines is one step, then the walk of the rest |
| `TrainingLayout.RunLayout` | src/services/qa_service_helper.py:45-84 | walking the seven layout lines yields each field's stripped value |
| `TrainingLayout.ParseLayout` | src/finetune_model/finetune.py:25 | round trip: parsing one training document gives back each field's stripped value and ignores the question line, provided no value holds a newline |
| `Roles.Keys` | src/config/roles.js:18 | the role list has one entry per table row, in order |
| `Roles.LookupSpec` | src/config/roles.js:19 | looking up a role finds rights exactly for a listed role, and they are the rights listed with it |
| `Roles.RoleListIsUserAdmin` | src/config/roles.js:1-18 | there are exactly two roles, `user` then `admin` |
| `Roles.RightsCounted` | src/config/roles.js:2-15 | `user` has 5 rights and `admin` 11, with no repeats |
| `Roles.UserRightsWithinAdmin` | src/config/roles.js:2-15 | every permission of `user` is also one of `admin` |
| `Roles.UserManagesNothing` | src/config/roles.js:2 | `user` holds no `manage…` permission |
| `Roles.BothRolesMayAsk` | src/config/roles.js:2-14 | both roles hold `askRegulation`, the guard of POST /ask |
| `Roles.UnknownRoleHasNoRights` | src/config/roles.js:18-19 | a name that is not a role has no rights and is authorized for nothing |
| `Roles.AnonymousReachesOnlyUnguarded` | src/routes/v1/regulation.route.js:25-29 | a caller who is not signed in reaches exactly the two unguarded regulation readers |
| `Roles.AdminMayCallAll` | src/routes/v1/form.route.js:22-36 | `admin` passes the guard of every route |
| `Roles.UserMayCallReaders` | src/routes/v1/notification.route.js:16-36 | `user` passes a route's guard exactly when the route is unguarded or needs no `manage…` permission |
| `Roles.UserCannotCreate` | src/routes/v1/formType.route.js:9-11 | `user` may not create a form, form type, notification or regulation |
| `UriComponent.PercentBytesChars` | src/services/firebase.service.js:16 | every character of a percent-encoded byte run is `%` or an upper-case hexadecimal digit |
| `UriComponent.EncodeChars` | src/services/firebase.service.js:16 | every character of the encoding is unreserved, `%` or a hexadecimal digit |
| `UriComponent.EncodeNoSlash` | src/services/firebase.service.js:16 | the encoded path contains no `/` and no `?` |
| `UriComponent.DecodeTwo` | src/services/firebase.service.js:16 | a two-byte UTF-8 sequence decodes to the character it encodes |
| `UriComponent.DecodeThree` | src/services/firebase.service.js:16 | a three-byte UTF-8 sequence decodes to the character it encodes |
| `UriComponent.DecodeFour` | src/services/firebase.service.js:16 | a four-byte UTF-8 sequence decodes to the character it encodes |
| `UriComponent.DecodeUtf8` | src/services/firebase.service.js:16 | decoding a character's UTF-8 bytes gives back the character |
| `UriComponent.Utf8RoundTrip` | src/services/firebase.service.js:16 | UTF-8 decoding inverts UTF-8 encoding of a string |
| `UriComponent.HexDigitValue` | src/services/firebase.service.js:16 | each upper-case hexadecimal digit reads back as its value |
| `UriComponent.PercentByteDecode` | src/services/firebase.service.js:16 | one `%XY` triple decodes to its byte |
| `UriComponent.PercentBytesDecode` | src/services/firebase.service.js:16 | percent-decoding a run of `%XY` triples gives back the bytes |
| `UriComponent.PercentDecodeEncode` | src/services/firebase.service.js:16 | percent-decoding the encoding gives back the UTF-8 bytes of the string |
| `UriComponent.DecodeEncode` | src/services/firebase.service.js:16 | percent-decoding the encoded path gives back the path exactly, per section 2.1 of RFC 3986 |
| `FirebaseUpload.UploadFileToFirebase` | src/services/firebase.service.js:7-21 | a failed transfer and only that gives 500 'Failed to upload file' |
| `FirebaseUpload.Upload` | src/services/firebase.service.js:12-17 | a stored file yields the URL built from its name, path, bucket and time; a refused one yields the 500 |
| `FirebaseUpload.FileNameParts` | src/services/firebase.service.js:8 | the file name is the decimal time, a dash, then the original name |
| `FirebaseUpload.UrlHasOneSegment` | src/services/firebase.service.js:9-16 | the URL is prefix, bucket, `/o/`, one segment and `?alt=media`. The segment has no `/` or `?` and decodes to the path `root/folder/name` |
| `FirebaseUpload.UrlIgnoresContent` | src/services/firebase.service.js:8-16 | the outcome depends on the original name, not on the bytes or the MIME type |
| `ApiErrors.Caught` | src/services/notification.service.js:59-64 | a success passes. A failure leaves the catch block as an `ApiError`: an `ApiError` passes unchanged, anything else becomes a 500 with the operation's message. Only a 500 can differ from what was thrown |
| `ApiErrors.CaughtTwice` | src/services/form.service.js:101-116 | a catch block around a call that has its own passes the inner error on unchanged; this is how `getFormById`'s 400, 404 and 500 reach the caller of update and delete |
| `DocumentStore.Without` | src/services/regulation.service.js:79 | removing an id keeps every other id, in order and distinct |
| `DocumentStore.Table.Insert` | src/services/form.service.js:40 | a write of a new record keeps the collection well formed and appends its id |
| `DocumentStore.Table.Remove` | src/services/regulation.service.js:79 | a delete removes exactly that record and keeps the order of the rest |
| `DocumentStore.Table.Replace` | src/services/formType.service.js:51 | an update replaces the record in place, keeping the order |
| `DocumentStore.Table.Rows` | src/services/formType.service.js:19 | `find()` lists every record with its id in insertion order: exactly the stored ids, each once |
| `DocumentStore.InsertRemove` | src/services/form.service.js:40 | inserting a record and removing it gives back the collection |
| `DocumentStore.TwelveCharsNeedAscii` | src/services/form.service.js:67-69 | a 12-character id is well formed only when all 12 characters are ASCII (12 bytes of UTF-8); with one character outside ASCII it gets the 400 |
| `FormService.ViewsSpec` | src/services/form.service.js:53-56 | joining rows succeeds exactly when every row's form type exists, giving one view per row in order |
| `FormService.GetAllForms` | src/services/form.service.js:50-63 | any failure is 500 'Error fetching forms with form type names' |
| `FormService.GetAllFormsSpec` | src/services/form.service.js:50-56 | one entry per stored form in store order, each with its form type's name; it fails exactly when some form's form type is missing |
| `FormService.GetFormById` | src/services/form.service.js:65-84 | 400 'Invalid document ID', 404 'Form not found', else the record with its form type's name. A missing form type gives 500 'Error fetching form' |
| `FormService.WithFormTypeSpec` | src/services/form.service.js:91 | the filter keeps exactly the rows whose form type is the argument |
| `FormService.GetFormsByFormTypeId` | src/services/form.service.js:86-99 | 400 'Invalid form type ID' exactly for a malformed id, else a list |
| `FormService.FormsByFormTypeExact` | src/services/form.service.js:86-92 | the list holds exactly the stored forms whose form type is the argument |
| `FormService.WithFormTypeOrder` | src/services/form.service.js:91 | with distinct ids in the rows, the filtered list keeps their order: an entry listed earlier comes from an earlier row |
| `FormService.FormsByFormTypeOrdered` | src/services/form.service.js:86-92 | the list names each matching form once, in store order |
| `FormService.CreateForm` | src/services/form.service.js:7-48 | checks, in order: a malformed form type id gives 400 before any lookup or upload; an absent form type gives 400 and stores nothing; a failed upload gives 500 'Failed to upload file'; a failed write gives 500 'Error creating form'. On success exactly one form is added, with the body's fields. Its `url`/`docxUrl` are none without a file, else the uploads to `forms/<name>` and `forms/docxFile<name>`. Other collections are unchanged |
| `FormService.UpdateFormById` | src/services/form.service.js:101-116 | as written: always fails (400, 404, the lookup's 500, or 500 'Error updating form') and writes nothing |
| `FormService.DeleteFormById` | src/services/form.service.js:118-132 | as written: always fails (400, 404, the lookup's 500, or 500 'Error deleting form') and removes nothing |
| `FormService.Patched` | src/services/form.service.js:107 | the keys present in the patch are assigned and every other field is kept |
| `FormService.UpdateFormByIdFixed` | src/services/form.service.js:101-116 | intended update: same 400/404; on success only the patch's keys change in the stored form, which is returned |
| `FormService.DeleteFormByIdFixed` | src/services/form.service.js:118-132 | intended delete: same 400/404; on success the form is removed and its last state returned |
| `FormService.GetAfterRemove` | src/services/form.service.js:71-73 | after the form is removed, looking it up gives 404 |
| `FormTypeService.CreateFormType` | src/services/formType.service.js:6-15 | the body is stored as one new record and returned; a failed write gives 500 'Failed to create form type' and stores nothing |
| `FormTypeService.GetAllFormTypes` | src/services/formType.service.js:17-26 | the whole collection, once each, in store order |
| `FormTypeService.GetFormTypeById` | src/services/formType.service.js:28-44 | 400 'Invalid document ID' for a malformed id (outside the try block), 404 'Form type not found' when absent, else the record |
| `FormTypeService.Patched` | src/services/formType.service.js:51 | `$set` assigns the patch's keys and keeps the rest |
| `FormTypeService.UpdateFormTypeById` | src/services/formType.service.js:46-62 | 400 first, then a failed query gives 500 'Error updating form type', an absent id 404. On success only the given keys change, and the updated record is returned |
| `FormTypeService.DeleteFormTypeById` | src/services/formType.service.js:64-80 | 400, 500 'Error deleting form type', or 404. On success the record is removed and returned; forms that reference it are untouched |
| `FormTypeService.EmptyPatchIsIdentity` | src/services/formType.service.js:51 | an update with an empty body leaves the collection as it was |
| `FormTypeService.GetAfterDelete` | src/services/formType.service.js:33-36 | after a delete, looking the form type up gives 404 |
| `RegulationService.CreateCaught` | src/services/regulation.service.js:33-38 | the create's catch block: an `ApiError` passes unchanged, anything else becomes a 500 naming the error's message. What leaves it is always an `ApiError`, and only a 500 can differ from what was thrown |
| `RegulationService.CreateCaughtTwice` | src/services/regulation.service.js:33-38 | applying the create's catch block to its own output changes nothing |
| `RegulationService.NewRegulation` | src/services/regulation.service.js:12-29 | `sourceUrl` is the upload to `regulations/<name>`, `issuedDate` comes from the body, and `updatedSource`/`updatedDate` are set exactly when an updated file is given (upload to `regulations/updated<name>`) |
| `RegulationService.CreateRegulation` | src/services/regulation.service.js:7-39 | a missing source file gives 500 "Error creating regulation: Cannot read properties of undefined (reading 'length')"; an empty one 400 'Source file is required' before any upload; failed uploads 500; a failed write 500 with the message appended; success stores exactly the new regulation |
| `RegulationService.GetRegulationById` | src/services/regulation.service.js:44-60 | 400 'Invalid regulation ID', 404 'Regulation not found', else the stored record |
| `RegulationService.GetAllRegulations` | src/services/regulation.service.js:62-72 | the whole collection, once each, in store order |
| `RegulationService.DeleteRegulationById` | src/services/regulation.service.js:74-90 | 400, a failed query 500 'Error creating regulation', or 404. On success the record is removed and returned |
| `RegulationService.DeleteRegulationTwice` | src/services/regulation.service.js:79-82 | a second delete of a deleted regulation gives 404 |
| `RegulationService.GetAfterDelete` | src/services/regulation.service.js:49-52 | after a delete, looking the regulation up gives 404 |
| `RegulationService.GetAfterCreate` | src/services/regulation.service.js:31-32 | a created regulation reads back under its id |
| `NotificationService.CreateNotification` | src/services/notification.service.js:6-15 | the body is stored as one new record and returned; a failed write gives 500 'Error creating notification' |
| `NotificationService.GetAllNotifications` | src/services/notification.service.js:17-27 | the whole collection, once each, in store order |
| `NotificationService.GetNotificationById` | src/services/notification.service.js:29-45 | 400 'Invalid document ID', 404 'Notification not found', else the record |
| `NotificationService.Patched` | src/services/notification.service.js:56 | `Object.assign` sets the patch's keys and keeps the rest |
| `NotificationService.UpdateNotificationById` | src/services/notification.service.js:47-65 | 400 and 404 from the lookup; the `!notification` re-check is unreachable; a failed save gives 500 'Error updating notification'. On success only the given keys change, and the record is returned |
| `NotificationService.DeleteNotificationById` | src/services/notification.service.js:67-84 | 400, 404, or 500 'Error deleting notification'; the re-check is unreachable. On success the record is removed and its state before removal returned |
| `NotificationService.DeleteNotificationTwice` | src/services/notification.service.js:72-77 | a second delete of a deleted notification gives 404 |
| `NotificationService.GetAfterUpdate` | src/services/notification.service.js:52-58 | after an update, the record read back carries the patch's values |
| `NotificationService.GetAfterDelete` | src/services/notification.service.js:31-34 | after a delete, looking the notification up gives 404 |
| `JoiRules.Trimmed` | src/validations/form.validation.js:5 | `trim()` hands on the trimmed string |
| `JoiRules.NameRuleStable` | src/validations/form.validation.js:5 | a name that passes still passes once trimmed, and trimming it again changes nothing |
| `JoiRules.PaddedName` | src/validations/formType.validation.js:5 | spaces around a name do not count towards its 3 to 255 code units |
| `JoiRules.NameRuleCounts` | src/validations/form.validation.js:5 | `min(3)`/`max(255)` count UTF-16 code units of the trimmed name; for a name of Basic Multilingual Plane characters that is its number of characters |
| `JoiRules.AstralPairIsAName` | src/validations/form.validation.js:5 | two characters above U+FFFF make four code units and so pass `min(3)` |
| `FormValidation.Converted` | src/validations/form.validation.js:3-10 | the validated body keeps its keys and trims only the name |
| `FormValidation.CreateFormTypeIdIsValid` | src/validations/form.validation.js:7 | a form type id the create schema admits (24 hexadecimal digits) passes the service's id check |
| `FormValidation.CreateConvertedStable` | src/validations/form.validation.js:5 | the converted create body passes again, and converting it again changes nothing |
| `FormValidation.CreateIsUpdate` | src/validations/form.validation.js:3-17 | a create body without `docxFile` is an update body |
| `FormValidation.UpdateDescriptionOnly` | src/validations/form.validation.js:15 | update still needs the description: a body of just a description passes exactly when it is a non-empty string, and the empty body fails |
| `FormTypeValidation.PatchOf` | src/validations/formType.validation.js:10-15 | an admitted update body names exactly the keys its patch sets |
| `FormTypeValidation.EmptyUpdateAdmitted` | src/validations/formType.validation.js:10-15 | the update body has no minimum key count: the empty body passes and is the empty patch |
| `FormTypeValidation.CreateIsUpdate` | src/validations/formType.validation.js:3-15 | every create body is an update body |
| `FormTypeValidation.AdmittedNameNotBlank` | src/validations/formType.validation.js:12 | an admitted name has 3 to 255 UTF-16 code units once trimmed, so at least two characters |
| `NotificationValidation.PatchOf` | src/validations/notification.validation.js:15-20 | an admitted update body names exactly the keys its patch sets |
| `NotificationValidation.UpdateSetsSomething` | src/validations/notification.validation.js:15-20 | an admitted update body (at least one key) sets at least one field |
| `NotificationValidation.EmptyUpdateRefused` | src/validations/notification.validation.js:15-20 | the empty update body is refused whatever the path |
| `NotificationValidation.CreateIsUpdate` | src/validations/notification.validation.js:3-20 | every create body is an admissible update body |
| `UserModel.User.constructor` | apps/user/models.py:4-7 | a new user has no primary key and an empty password; `fullname` defaults to 'Unknown' |
| `UserModel.User.Save` | apps/user/models.py:9-13 | the first save (no primary key) hashes the password; a later save leaves it alone |
| `UserModel.User.SetPassword` | apps/user/models.py:15-17 | stores the hash of the raw password and changes nothing else, without saving |
| `UserModel.NewUserReads` | apps/user/models.py:19-20 | a new user reads as the full name it was given, or as 'Unknown' (the field's default) when it was given none |
| `UserModel.DoubleHashFailsCheck` | apps/user/models.py:11-12 | a password hashed twice does not check against the password itself; hashed once, it does |
| `UserSerializer.Create` | apps/user/api/v1/serializers.py:12-20 | as written: a `KeyError` without a full name; otherwise the user is saved with the hash of the hash of the raw password |
| `UserSerializer.CreateFixed` | apps/user/api/v1/serializers.py:12-20 | intended create: the stored password is the hash of the raw password, which checks |
| `UserSerializer.CreatedPasswordFailsCheck` | apps/user/api/v1/serializers.py:18-19 | a user created as written cannot sign in with the password it was created with |
| `UserSerializer.AcceptedIsValidated` | apps/user/api/v1/serializers.py:5-10 | the fields `ModelSerializer` generates refuse blank values and strip whitespace. An admitted create hands on non-blank, unpadded values that fit their columns, and validating them again changes nothing |
| `UserSerializer.AcceptedEmailStaysUnique` | apps/user/models.py:6 | an email the serializer admits keeps the users' emails unique |
| `UserSerializer.ValueOfSpec` | apps/user/api/v1/serializers.py:29-30 | a field has a value in the data exactly when some item names it, and with distinct keys that item's value |
| `UserSerializer.WithoutPasswordKeeps` | apps/user/api/v1/serializers.py:26 | removing the password leaves every other field's value |
| `UserSerializer.WithoutPasswordSnoc` | apps/user/api/v1/serializers.py:26 | removing the password from a list with one more item removes it from the list, then from the item |
| `UserSerializer.ValueOfStep` | apps/user/api/v1/serializers.py:29-30 | one more item decides the field it names and leaves the others |
| `UserSerializer.AssignFields` | apps/user/api/v1/serializers.py:29-30 | the `setattr` loop assigns every given field and leaves the others and the password |
| `UserSerializer.UpdatedPassword` | apps/user/api/v1/serializers.py:24-26 | with a password, the stored value checks against it; without, the stored value is kept |
| `UserSerializer.Update` | apps/user/api/v1/serializers.py:22-33 | a given password is stored hashed once; every other given field is assigned; fields absent from the data keep their values |
| `UserSerializer.Representation` | apps/user/api/v1/serializers.py:7-10 | the output shows `id`, `fullname` and `email`, and never the write-only password |

## Left out

- The retrieval and ML pipeline: embeddings, the vector index, the QA chain and the fine-tuning script. These are foreign libraries and floating-point code. The parser takes the retrieved documents' text as its input.
- The QA subprocess bridge (`qa_service.js`): process spawning, streams and `JSON.parse`.
- Controllers, routes and Swagger docs. Only the permission each route's guard names is kept (`Roles.Guard`). The `auth` middleware is modelled as "the role's rights hold the permission".
- Two controller defects are not modelled:
  - the form controller passes the caller's id where the service expects the DOCX file;
  - the regulation controller imports a function the service does not export.
- Mongoose schema validation on write. For example, `url` and `docxUrl` are required, yet a form without files writes nulls. Every write failure, validation included, is the `fault` parameter. Read queries are modelled as never failing, so their 500 paths appear only where the code itself throws (a missing form type behind a form).
- `DocumentStore.ValidId` follows `ObjectId.isValid` of bson 4 and 5: 24 hexadecimal digits, or a 12-character string that is 12 bytes in UTF-8. The repository pins no version. bson 1 admits every string of 12 UTF-16 code units, and bson 6 admits only the 24-digit form.
- `ObjectId` casting in queries: ids are compared as strings. A 12-character id that is valid but not hexadecimal can still be looked up; in the database it would be cast to a different id.
- Record order: an unsorted `find()` returns MongoDB's natural order, which MongoDB does not guarantee. The model takes it to be insertion order. The order clauses of `DocumentStore.Table.Rows`, the `GetAll…` readers and `FormService.FormsByFormTypeOrdered` rest on that.
- `NotificationService.DeleteNotificationById` takes `notification.remove()` (src/services/notification.service.js:76) to remove the record, as Mongoose 6 and earlier do. Mongoose 7, which ships bson 5, has no `Document.prototype.remove`. With it the call throws, and every delete of an existing notification ends in 500 'Error deleting notification'.
- `FormService.GetAllForms`, `FormService.GetFormById`: the populated `formTypeId` is the object `{_id, name}` placed beside `formTypeName`. The view keeps the id string and the name only.
- `new Date(text)`: dates are kept as their text (`DocumentStore.Date`); parsing and invalid dates are not modelled.
- `Date.now()`, the storage bucket from the environment, and the upload transfer itself are parameters. The stored bytes are not modelled.
- `encodeURIComponent` on a lone surrogate throws a `URIError`. Dafny strings hold Unicode scalar values, so that case cannot arise in the model.
- `FormTypeService.CreateFormType` and `NotificationService.CreateNotification` store the two schema fields of the body. Other keys of an unvalidated body, and `createBy` of the notification schema, are not modelled.
- Creating a form type does not read the file argument the controller passes; the model has no such parameter.
- `UserModel.DoubleHashFailsCheck`: a hash is a `Hashed` value, never equal to a raw text. In Django `make_password` returns a string, so the stored H(H(p)) does check against the one string H(p). The lemma and the finding are stated for the user's own password p only.
- `UserModel.User.Save`: `make_password` is modelled as the injective constructor `Hashed`. The real function salts its input, so two hashes of one password differ. The double-hash finding holds either way.
- `UserSerializer.AcceptsCreate` covers blankness, whitespace trimming, the column lengths and the unique email. Email syntax (`EmailField`'s validator) is not modelled, nor the Django views and their exception mapping. `Create` and `CreateFixed` take their data as given; `Validated` is what the serializer would hand them.
- Concurrency at the store is not modelled: the services run one at a time.

## Findings

| source | as written | input that shows it | evidently intended | confidence | as-written member | corrected member |
|---|---|---|---|---|---|---|
| src/services/form.service.js:106-108 | `updateFormById` and `deleteFormById` call `save`/`remove` on the plain copy `getFormById` returns. It has neither method, so the TypeError becomes a 500 and nothing is written | a valid id of a stored form whose form type exists: update ends in 500 'Error updating form', delete in 500 'Error deleting form', and the store is unchanged | assign the patch to the stored form and save it, or remove it, then return it | high, not executed | `FormService.UpdateFormById` | `FormService.UpdateFormByIdFixed` |
| apps/user/api/v1/serializers.py:18-19 | `create` hashes the password with `set_password`, then `save` hashes the hash again, because the user has no primary key yet | any create with raw password p stores H(H(p)), and `check_password(p)` then fails (`UserSerializer.CreatedPasswordFailsCheck`) | the raw password hashed once | high, not executed | `UserSerializer.Create` | `UserSerializer.CreateFixed` |
