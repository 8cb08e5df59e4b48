/**
 * The upload helper: the stored file's name is the upload time in
 * milliseconds, a dash and the original name; its path is the root folder,
 * the folder and the name joined by `/`; and once the bytes are stored the
 * helper returns the public download URL of the bucket's object, whose
 * path is sent percent-encoded as a single path segment. The clock and the
 * storage call are parameters: `now` is the time read, `stored` whether the
 * storage service accepted the bytes.
 */
module FirebaseUpload {
  import opened Wrappers
  import opened Text
  import opened ApiErrors
  import opened UriComponent

  /** A file received from a multipart request. */
  datatype UploadedFile = UploadedFile(originalname: string, buffer: seq<Byte>, mimetype: string)

  function FileName(now: nat, originalname: string): string {
    NatToString(now) + "-" + originalname
  }

  function FilePath(rootFolder: string, folderName: string, fileName: string): string {
    rootFolder + "/" + folderName + "/" + fileName
  }

  const UrlPrefix: string := "https://firebasestorage.googleapis.com/v0/b/"
  const UrlSuffix: string := "?alt=media"

  function FileUrl(bucket: string, filePath: string): string {
    UrlPrefix + bucket + "/o/" + Encode(filePath) + UrlSuffix
  }

  /** The URL of the stored file, or a 500 when the storage service refused the bytes. */
  function UploadFileToFirebase(file: UploadedFile, rootFolder: string, folderName: string,
                                now: nat, bucket: string, stored: bool): (r: Outcome<string>)
    ensures !stored <==> r == Throw(InternalServerError, "Failed to upload file")
  {
    if stored then Ok(FileUrl(bucket, FilePath(rootFolder, folderName, FileName(now, file.originalname))))
    else Throw(InternalServerError, "Failed to upload file")
  }

  /** What the world answers to one upload: the time read, the bucket configured, whether the bytes were stored. */
  datatype UploadEnv = UploadEnv(now: nat, bucket: string, stored: bool)

  /** The URL a successful upload of an optional file yields, or none when there is no file. */
  function UrlOf(file: Option<UploadedFile>, rootFolder: string, folderName: string, env: UploadEnv): Option<string> {
    match file
    case None => None
    case Some(f) => Some(FileUrl(env.bucket, FilePath(rootFolder, folderName, FileName(env.now, f.originalname))))
  }

  /** One call of the helper, with the world's answers taken from `env`: the URL when stored, else the 500. */
  function Upload(file: UploadedFile, rootFolder: string, folderName: string, env: UploadEnv): (r: Outcome<string>)
    ensures env.stored ==> r == Ok(UrlOf(Some(file), rootFolder, folderName, env).value)
    ensures !env.stored ==> r == Throw(InternalServerError, "Failed to upload file")
  {
    UploadFileToFirebase(file, rootFolder, folderName, env.now, env.bucket, env.stored)
  }

  /** The file name starts with the decimal time, which a dash separates from the original name. */
  lemma FileNameParts(now: nat, originalname: string)
    ensures var name := FileName(now, originalname);
      var k := |NatToString(now)|;
      k < |name| && name[k] == '-' && DecimalValue(name[..k]) == now && name[k + 1..] == originalname
      && forall i :: 0 <= i < k ==> IsDigit(name[i])
  {
    var digits := NatToString(now);
    var name := FileName(now, originalname);
    assert name[..|digits|] == digits;
    assert name[|digits| + 1..] == originalname;
  }

  /**
   * The URL is the fixed prefix, the bucket, `/o/`, one path segment and the
   * fixed query; the segment holds no `/` and no `?`, and percent-decoding it
   * gives back the object path exactly.
   */
  lemma UrlHasOneSegment(file: UploadedFile, rootFolder: string, folderName: string, now: nat, bucket: string)
    ensures var path := FilePath(rootFolder, folderName, FileName(now, file.originalname));
      var r := UploadFileToFirebase(file, rootFolder, folderName, now, bucket, true);
      exists segment :: r == Ok(UrlPrefix + bucket + "/o/" + segment + UrlSuffix)
        && '/' !in segment && '?' !in segment && Decode(segment) == Some(path)
  {
    var path := FilePath(rootFolder, folderName, FileName(now, file.originalname));
    EncodeNoSlash(path);
    DecodeEncode(path);
    assert UploadFileToFirebase(file, rootFolder, folderName, now, bucket, true)
        == Ok(UrlPrefix + bucket + "/o/" + Encode(path) + UrlSuffix);
  }

  /** The outcome depends on the original name but not on the bytes or the MIME type. */
  lemma UrlIgnoresContent(f: UploadedFile, g: UploadedFile, rootFolder: string, folderName: string,
                          now: nat, bucket: string, stored: bool)
    requires f.originalname == g.originalname
    ensures UploadFileToFirebase(f, rootFolder, folderName, now, bucket, stored)
         == UploadFileToFirebase(g, rootFolder, folderName, now, bucket, stored)
  {
  }
}
