/** Validation helpers and field constraints of the shared data models
    (shared/schemas.py).  Building a model either yields a value meeting its
    declared constraints or raises; `Err` stands for the raise. */
module Schemas {
  import opened Wrappers
  import opened Text
  import opened PosixPath

  // ---------------------------------------------------------------------------
  // validate_file_extension, validate_file_size

  /** `s.lstrip(c)` */
  function LStrip(s: string, c: char): (r: string)
    ensures |r| <= |s| && r == s[|s| - |r|..]
    ensures r != [] ==> r[0] != c
    ensures forall i :: 0 <= i < |s| - |r| ==> s[i] == c
  {
    if s != [] && s[0] == c then LStrip(s[1..], c) else s
  }

  /** The extension validate_file_extension compares: the last extension of
      the name, lower-cased, with its dot removed. */
  function FileExtension(filename: string): (r: string)
    ensures r == [] || r[0] != '.'
    ensures forall i :: 0 <= i < |r| ==> r[i] == ToLowerChar(r[i])
  {
    LStrip(Lower(SplitExt(filename).1), '.')
  }

  predicate ValidateFileExtension(filename: string, allowed: set<string>)
  {
    FileExtension(filename) in allowed
  }

  /** Only the last extension counts, and exactly its one leading dot is
      removed. */
  lemma LastExtensionOnly(filename: string)
    ensures var ext := SplitExt(filename).1;
            ext != [] ==> FileExtension(filename) == Lower(ext[1..]) && '.' !in FileExtension(filename)
  {
    SplitExtShape(filename);
    var ext := SplitExt(filename).1;
    if ext != [] {
      var l := Lower(ext);
      assert l[0] == '.';
      assert l[1..] == Lower(ext[1..]);
      assert '.' !in l[1..];
      assert LStrip(l[1..], '.') == l[1..];
    }
  }

  /** Matching ignores case. */
  lemma ExtensionIgnoresCase(filename: string, allowed: set<string>)
    ensures ValidateFileExtension(Lower(filename), allowed) == ValidateFileExtension(filename, allowed)
  {
    SplitExtLower(filename);
    LowerIdempotent(SplitExt(filename).1);
  }

  /** A name without any '.' has the empty extension, so it passes exactly
      when "" is allowed. */
  lemma NoDotNoExtension(filename: string, allowed: set<string>)
    requires '.' !in filename
    ensures ValidateFileExtension(filename, allowed) <==> "" in allowed
  {
    assert RFind(filename, '.') == -1;
    assert SplitExt(filename).1 == [];
  }

  /** validate_file_size */
  predicate ValidateFileSize(size: int, maxSize: int)
  {
    0 < size <= maxSize
  }

  /** A size accepted under one limit is accepted under every larger limit,
      and an empty file never is. */
  lemma FileSizeLimits(size: int, maxSize: int, larger: int)
    requires maxSize <= larger
    ensures ValidateFileSize(size, maxSize) ==> ValidateFileSize(size, larger)
    ensures !ValidateFileSize(0, larger)
  {
  }

  // ---------------------------------------------------------------------------
  // LegalDocFieldType.get_validation_pattern

  datatype LegalDocFieldType =
    | PartyName | ContractDate | PaymentAmount | EmailAddress | PhoneNumber | Address
    | SignatureDate | FullName | CompanyName | Checkbox | Text | Currency

  const EmailPattern := @"^[a-zA-Z0-9._%+-]+@[a-zA-Z0-9.-]+\.[a-zA-Z]{2,}$"
  const PhonePattern := @"^\+?[0-9]{10,15}$"
  const AmountPattern := @"^\$?([0-9]{1,3},([0-9]{3},)*[0-9]{3}|[0-9]+)(\.[0-9]{2})?$"
  const UsDatePattern := @"^(0[1-9]|1[0-2])/(0[1-9]|[12][0-9]|3[01])/\d{4}$"

  /** The regular expression the type's values must match, for the five types
      that have one; the two date types share the month/day/year pattern. */
  function GetValidationPattern(t: LegalDocFieldType): (r: Option<string>)
    ensures r.Some? <==> t in {EmailAddress, PhoneNumber, PaymentAmount, ContractDate, SignatureDate}
    ensures t == ContractDate || t == SignatureDate ==> r == Some(UsDatePattern)
  {
    match t
    case EmailAddress => Some(EmailPattern)
    case PhoneNumber => Some(PhonePattern)
    case PaymentAmount => Some(AmountPattern)
    case ContractDate => Some(UsDatePattern)
    case SignatureDate => Some(UsDatePattern)
    case _ => None
  }

  // ---------------------------------------------------------------------------
  // Field constraints of the models

  /** The models whose `confidence` field carries bounds. */
  datatype ScoredModel = TextFieldPrediction | FieldPrediction | AlternativePrediction | AIPredictedField | ProfilePatch
                       | ParsedField

  /** The declared bounds of the model's confidence, both inclusive. */
  function ConfidenceBounds(m: ScoredModel): (real, real)
  {
    match m
    case TextFieldPrediction => (0.0, 1.0)
    case FieldPrediction => (0.0, 1.0)
    case AlternativePrediction => (0.0, 1.0)
    case AIPredictedField => (0.0, 1.0)
    case ProfilePatch => (0.0, 1.0)
    case ParsedField => (0.0, 1.0)
  }

  /** The confidence a model accepts, or the validation error. */
  function CheckConfidence(m: ScoredModel, c: real): (r: Result<real, string>)
  {
    var (lo, hi) := ConfidenceBounds(m);
    if lo <= c <= hi then Ok(c) else Err("confidence out of range")
  }

  /** Every scored model takes exactly the confidences in [0, 1]. */
  lemma ConfidenceIsUnitInterval(m: ScoredModel, c: real)
    ensures CheckConfidence(m, c).Ok? <==> 0.0 <= c <= 1.0
    ensures CheckConfidence(m, c).Ok? ==> CheckConfidence(m, c).value == c
  {
  }

  datatype UploadStatus = Queued | Uploading | Complete | Failed

  datatype UploadMetadata = UploadMetadata(
    filename: string, fileSize: int, fileType: string, uploadStatus: UploadStatus, jobId: string)

  /** Building an UploadMetadata: the name is 1 to 255 characters, the size
      positive, the type 1 to 64 characters; the status is QUEUED unless
      given. */
  function NewUploadMetadata(filename: string, fileSize: int, fileType: string,
                             jobId: string, status: Option<UploadStatus>): (r: Result<UploadMetadata, string>)
    ensures r.Ok? <==> 1 <= |filename| <= 255 && fileSize > 0 && 1 <= |fileType| <= 64
    ensures r.Ok? ==> r.value == UploadMetadata(filename, fileSize, fileType,
                                                 if status.Some? then status.value else Queued, jobId)
  {
    if !(1 <= |filename| <= 255) then Err("filename length")
    else if fileSize <= 0 then Err("file_size must be greater than 0")
    else if !(1 <= |fileType| <= 64) then Err("file_type length")
    else Ok(UploadMetadata(filename, fileSize, fileType, if status.Some? then status.value else Queued, jobId))
  }

  datatype FileStatus = FilePending | FileProcessing | FileComplete | FileFailed

  datatype FileMetadata = FileMetadata(filename: string, uploadTime: int, fileType: string,
                                       sizeBytes: int, status: FileStatus)

  /** Building a FileMetadata: unlike UploadMetadata, a size of 0 is allowed. */
  function NewFileMetadata(filename: string, uploadTime: int, fileType: string,
                           sizeBytes: int, status: FileStatus): (r: Result<FileMetadata, string>)
    ensures r.Ok? <==> 1 <= |filename| <= 255 && 1 <= |fileType| <= 64 && sizeBytes >= 0
    ensures r.Ok? ==> r.value == FileMetadata(filename, uploadTime, fileType, sizeBytes, status)
  {
    if !(1 <= |filename| <= 255) then Err("filename length")
    else if !(1 <= |fileType| <= 64) then Err("file_type length")
    else if sizeBytes < 0 then Err("size_bytes must be at least 0")
    else Ok(FileMetadata(filename, uploadTime, fileType, sizeBytes, status))
  }

  /** An empty file has file metadata but no upload metadata. */
  lemma EmptyFileMetadataOnly(name: string, fileType: string, jobId: string, t: int, s: FileStatus)
    requires 1 <= |name| <= 255 && 1 <= |fileType| <= 64
    ensures NewFileMetadata(name, t, fileType, 0, s).Ok?
    ensures NewUploadMetadata(name, 0, fileType, jobId, None).Err?
  {
  }

  datatype ParseStatusType = ParsePending | ParseRunning | ParseCompleted | ParseFailed

  datatype ParseStatus = ParseStatus(jobId: string, status: ParseStatusType, progress: real,
                                     error: Option<string>)

  /** Building a ParseStatus: progress is a percentage in [0, 100]. */
  function NewParseStatus(jobId: string, status: ParseStatusType, progress: real,
                          error: Option<string>): (r: Result<ParseStatus, string>)
    ensures r.Ok? <==> 0.0 <= progress <= 100.0
    ensures r.Ok? ==> r.value.progress == progress && r.value.status == status
  {
    if 0.0 <= progress <= 100.0 then Ok(ParseStatus(jobId, status, progress, error))
    else Err("progress out of range")
  }

  /** The UserProfile email pattern `^[^@]+@[^@]+\.[^@]+$`: exactly one
      '@', not the first character, and after it a '.' with at least one
      character on each side.  (`[^@]` takes a newline too, so `$` matching
      before a final newline changes nothing.) */
  predicate MatchesProfileEmailPattern(s: string)
  {
    exists i, k :: 0 < i && i + 1 < k < |s| - 1 && s[i] == '@' && s[k] == '.'
                   && '@' !in s[..i] && '@' !in s[i + 1..]
  }

  /** The UserProfile `email` field: the pattern of its Field declaration is
      checked first, then validate_email, which refuses a non-empty email
      without '@'.  An absent email passes unchanged. */
  function ValidateProfileEmail(v: Option<string>): (r: Result<Option<string>, string>)
    ensures r.Err? <==> v.Some? && !MatchesProfileEmailPattern(v.value)
    ensures r.Ok? ==> r.value == v
  {
    if v.None? then Ok(v)
    else if !MatchesProfileEmailPattern(v.value) then Err("string does not match regex")
    else if v.value != [] && '@' !in v.value then Err("Invalid email format")
    else Ok(v)
  }

  /** validate_email's own test never fires: every email the pattern lets
      through already holds an '@'. */
  lemma PatternSubsumesValidator(s: string)
    requires MatchesProfileEmailPattern(s)
    ensures s != [] && '@' in s
  {
    var i, k :| 0 < i && i + 1 < k < |s| - 1 && s[i] == '@' && s[k] == '.'
                && '@' !in s[..i] && '@' !in s[i + 1..];
  }

  /** An email with no '.' after its '@' is refused, "a@b" among them, and
      so is the empty string that validate_email alone would let through. */
  lemma DotlessDomainRefused(local: string, domain: string)
    requires '.' !in domain
    ensures ValidateProfileEmail(Some(local + "@" + domain)).Err?
    ensures ValidateProfileEmail(Some("")).Err?
  {
    var s := local + "@" + domain;
    assert s[|local|] == '@';
    assert forall j :: |local| < j < |s| ==> s[j] == domain[j - |local| - 1];
  }
}
