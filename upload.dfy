/** The guard clauses of the upload endpoints in backend/routers/upload.py.
    The request is the client's file name, the number of bytes read, and the
    declared MIME type; the job identifier that `uuid.uuid4()` would draw is
    a parameter, and so is the outcome of document processing.  Storage,
    the audit log and the processing itself are not modelled. */
module Upload {
  import opened Wrappers
  import opened Text
  import opened PosixPath

  const AllowedExtensions: set<string> := {".pdf", ".docx"}
  const MaxFileSize := 10 * 1024 * 1024

  const PdfMime := "application/pdf"
  const DocxMime := "application/vnd.openxmlformats-officedocument.wordprocessingml.document"
  const MswordMime := "application/msword"

  /** The `HTTPException` an endpoint raises. */
  datatype HttpError = HttpError(status: int, detail: string)

  /** The response: the HTTP status, the job and the name the file is stored
      under. */
  datatype UploadResponse = UploadResponse(status: int, jobId: string, message: string, storedName: string)

  /** `os.path.splitext(filename)[1].lower()` */
  function Extension(filename: string): (r: string)
  {
    Lower(SplitExt(filename).1)
  }

  /** The MIME check: a PDF type needs ".pdf", either Word type ".docx";
      any other type, or none, is not checked. */
  predicate MimeMismatch(contentType: Option<string>, ext: string)
  {
    || (contentType == Some(PdfMime) && ext != ".pdf")
    || ((contentType == Some(DocxMime) || contentType == Some(MswordMime)) && ext != ".docx")
  }

  /** `upload_document`: extension, then size, then MIME type; the first
      failing check decides the status.  On success the file is stored as
      the job id followed by the extension, and 202 is returned unless
      processing fails (500). */
  function UploadDocument(filename: string, size: nat, contentType: Option<string>,
                          jobId: string, processingSucceeds: bool): (r: Result<UploadResponse, HttpError>)
    ensures r.Ok? <==> Extension(filename) in AllowedExtensions && size <= MaxFileSize
                       && !MimeMismatch(contentType, Extension(filename)) && processingSucceeds
    ensures Extension(filename) !in AllowedExtensions ==> r == Err(HttpError(400, "Only PDF and DOCX files are allowed."))
    ensures Extension(filename) in AllowedExtensions && size > MaxFileSize ==>
              r == Err(HttpError(413, "File exceeds 10MB size limit."))
    ensures r.Ok? ==> r.value.status == 202 && r.value.jobId == jobId
                      && r.value.storedName == jobId + Extension(filename)
  {
    var ext := Extension(filename);
    if ext !in AllowedExtensions then Err(HttpError(400, "Only PDF and DOCX files are allowed."))
    else if size > MaxFileSize then Err(HttpError(413, "File exceeds 10MB size limit."))
    else if MimeMismatch(contentType, ext) then Err(HttpError(400, "MIME type does not match file extension."))
    else if !processingSucceeds then Err(HttpError(500, "Failed to process document"))
    else Ok(UploadResponse(202, jobId, "Upload successful. Processing started.", jobId + ext))
  }

  /** `upload_document_minimal`: only the extension and size checks; the file
      is not stored, and the response has the default status 200. */
  function UploadDocumentMinimal(filename: string, size: nat, jobId: string): (r: Result<UploadResponse, HttpError>)
    ensures r.Ok? <==> Extension(filename) in AllowedExtensions && size <= MaxFileSize
    ensures r.Ok? ==> r.value.status == 200 && r.value.jobId == jobId
  {
    var ext := Extension(filename);
    if ext !in AllowedExtensions then Err(HttpError(400, "Only PDF and DOCX files are allowed."))
    else if size > MaxFileSize then Err(HttpError(413, "File exceeds 10MB size limit."))
    else Ok(UploadResponse(200, jobId, "File uploaded successfully.", jobId + ext))
  }

  /** A file of exactly 10 MiB passes the size check, one byte more does
      not. */
  lemma SizeLimitInclusive(filename: string, contentType: Option<string>, jobId: string)
    requires Extension(filename) in AllowedExtensions
    requires !MimeMismatch(contentType, Extension(filename))
    ensures UploadDocument(filename, MaxFileSize, contentType, jobId, true).Ok?
    ensures UploadDocument(filename, MaxFileSize + 1, contentType, jobId, true) == Err(HttpError(413, "File exceeds 10MB size limit."))
  {
  }

  /** The MIME check only ever refuses with 400, and only after the other
      two checks passed. */
  lemma MimeCheckLast(filename: string, size: nat, contentType: Option<string>, jobId: string, ok: bool)
    requires MimeMismatch(contentType, Extension(filename))
    ensures var r := UploadDocument(filename, size, contentType, jobId, ok);
            && r.Err?
            && (r.error.detail == "MIME type does not match file extension." <==>
                  Extension(filename) in AllowedExtensions && size <= MaxFileSize)
            && r.error.status != 500
  {
  }

  /** Beyond its extension, the client's file name influences nothing: two
      names with the same extension get the same answer, and the stored
      name is built from the job id alone. */
  lemma StoredNameIgnoresClientName(f1: string, f2: string, size: nat, contentType: Option<string>,
                                    jobId: string, ok: bool)
    requires Extension(f1) == Extension(f2)
    ensures UploadDocument(f1, size, contentType, jobId, ok) == UploadDocument(f2, size, contentType, jobId, ok)
    ensures UploadDocument(f1, size, contentType, jobId, ok).Ok? ==>
              UploadDocument(f1, size, contentType, jobId, ok).value.storedName[..|jobId|] == jobId
  {
  }

  /** The extension check ignores case: "REPORT.PDF" is treated as
      "report.pdf". */
  lemma ExtensionCaseInsensitive(filename: string)
    ensures Extension(Lower(filename)) == Extension(filename)
  {
    SplitExtLower(filename);
    LowerIdempotent(SplitExt(filename).1);
  }

  /** A name whose only '.' is its first character, such as ".pdf", has no
      extension, so it is refused. */
  lemma HiddenNameRefused(name: string, size: nat, jobId: string)
    requires '.' !in name && '/' !in name
    ensures Extension("." + name) == []
    ensures UploadDocumentMinimal("." + name, size, jobId) == Err(HttpError(400, "Only PDF and DOCX files are allowed."))
  {
    var p := "." + name;
    var dot := RFind(p, '.');
    assert p[0] == '.';
    assert p[1..] == name;
    assert '/' !in p;
    assert SplitExt(p).1 == [];
  }

  /** Only the last extension counts: "x.pdf.exe" is judged by ".exe". */
  lemma LastExtensionDecides(stem: string, last: string)
    requires stem != [] && stem[0] != '.' && '/' !in stem
    requires '.' !in last && '/' !in last
    ensures Extension(stem + "." + last) == "." + Lower(last)
  {
    var p := stem + "." + last;
    var dot := RFind(p, '.');
    assert p[|stem|] == '.';
    assert p[|stem| + 1..] == last;
    assert '/' !in p;
    assert p[0] != '.';
    assert p[dot..] == "." + last;
    assert SplitExt(p).1 == "." + last;
    LowerAppend(".", last);
  }

  /** The full endpoint accepts only what the minimal one accepts, and
      without a declared type and with successful processing they agree. */
  lemma MinimalIsWeaker(filename: string, size: nat, contentType: Option<string>, jobId: string, ok: bool)
    ensures UploadDocument(filename, size, contentType, jobId, ok).Ok? ==> UploadDocumentMinimal(filename, size, jobId).Ok?
    ensures UploadDocument(filename, size, None, jobId, true).Ok? <==> UploadDocumentMinimal(filename, size, jobId).Ok?
  {
  }
}
