/**
 * src/middleware/upload.middleware.js: the decisions multer is configured
 * with. Creating directories, the clock-and-random filename suffix and the
 * file-size limit read from the environment are outside the model; the
 * suffix is a parameter.
 */
module UploadMiddleware {
  import opened Text
  import opened Http

  /** The MIME types the upload filter admits. */
  const AllowedTypes: seq<string> :=
    ["image/jpeg", "image/png", "image/gif", "image/webp", "application/pdf"]

  /** `fileFilter`: admit the file exactly when its MIME type is on the list. */
  predicate FileFilter(mimetype: string) {
    mimetype in AllowedTypes
  }

  /** The sub-directories of `uploads/` that files are stored in. */
  datatype Folder = Images | Documents | Others {
    function Name(): string {
      match this
      case Images => "images"
      case Documents => "documents"
      case Others => "others"
    }
  }

  /** `destination`: images for any `image/` type, documents for PDF, others otherwise. */
  function DestinationFolder(mimetype: string): (f: Folder)
    ensures f == Images <==> StartsWith(mimetype, "image/")
    ensures f == Documents <==> mimetype == "application/pdf"
  {
    if StartsWith(mimetype, "image/") then
      assert mimetype[..6][0] == 'i';
      Images
    else if mimetype == "application/pdf" then Documents
    else Others
  }

  /** Distinct folders have distinct names, so a folder name identifies its folder. */
  lemma FolderNamesDistinct(f: Folder, g: Folder)
    ensures f.Name() == g.Name() ==> f == g
  {
  }

  /** Every admitted file is stored under images or documents, never others. */
  lemma AcceptedNeverOthers(mimetype: string)
    requires FileFilter(mimetype)
    ensures DestinationFolder(mimetype) != Others
    ensures DestinationFolder(mimetype) == Documents <==> mimetype == "application/pdf"
  {
    assert StartsWith("image/jpeg", "image/");
    assert StartsWith("image/png", "image/");
    assert StartsWith("image/gif", "image/");
    assert StartsWith("image/webp", "image/");
  }

  /** Some types are routed to a folder but refused by the filter. */
  lemma RoutedButRefused()
    ensures DestinationFolder("image/svg+xml") == Images && !FileFilter("image/svg+xml")
  {
    assert StartsWith("image/svg+xml", "image/");
  }

  /** `filename`: field name, '-', the unique suffix, and the original extension. */
  function StoredFileName(fieldname: string, suffix: string, originalname: string): string {
    fieldname + "-" + suffix + ExtName(originalname)
  }

  /**
   * The stored name keeps the original file's extension, provided the field
   * name and the suffix contain no '.' or '/' (the suffix is digits and '-').
   */
  lemma StoredNameKeepsExtension(fieldname: string, suffix: string, originalname: string)
    requires '.' !in fieldname && '/' !in fieldname
    requires '.' !in suffix && '/' !in suffix
    ensures ExtName(StoredFileName(fieldname, suffix, originalname)) == ExtName(originalname)
  {
    var stem := fieldname + "-" + suffix;
    assert '.' !in stem && '/' !in stem;
    ExtNameOfSuffixed(stem, ExtName(originalname));
    assert StoredFileName(fieldname, suffix, originalname) == stem + ExtName(originalname);
  }

  /** The error an upload may end with. */
  datatype UploadError =
    | NoError
    | MulterError(code: string, message: string)
    | OtherError(message: string)

  /** `handleUploadError`: every error becomes a 400; no error passes on. */
  function HandleUploadError(err: UploadError): (d: Decision)
    ensures d == Next <==> err == NoError
    ensures d != Next ==> d.status == BadRequest
  {
    match err
    case NoError => Next
    case MulterError(code, message) =>
      if code == "LIMIT_FILE_SIZE" then Respond(BadRequest, "File too large. Maximum size is 10MB.")
      else Respond(BadRequest, message)
    case OtherError(message) => Respond(BadRequest, message)
  }

  /** The size limit has its own message; any other error reports its own message. */
  lemma UploadErrorMessages(code: string, message: string)
    ensures HandleUploadError(MulterError("LIMIT_FILE_SIZE", message))
         == Respond(BadRequest, "File too large. Maximum size is 10MB.")
    ensures code != "LIMIT_FILE_SIZE" ==>
              HandleUploadError(MulterError(code, message)) == Respond(BadRequest, message)
    ensures HandleUploadError(OtherError(message)) == Respond(BadRequest, message)
  {
  }
}
