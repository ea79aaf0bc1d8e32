/** The job records and enumerations of backend/shared/types.py that the job
    store and the correction endpoints rely on. Timestamps are ISO-8601
    strings; the clock is a parameter (`now`), and `datetime.fromisoformat`
    is the parameter `isIso`, true exactly when it accepts its argument. */
module JobTypes {
  import opened Wrappers
  import opened Text
  import opened Json

  datatype ProcessingStatus = Pending | Processing | Completed | Failed

  datatype FieldType = TextField | DateField | NameField | AddressField | AmountField
                     | EmailField | PhoneField | SignatureField | CheckboxField | PartyField

  datatype PredictionSource = Ai | RuleBased | User | Profile

  datatype CorrectionReason = LowConfidence | WrongField | FormattingIssue | IncorrectValue | Other

  /** The string value of each member of the `str` enums. */
  function StatusValue(s: ProcessingStatus): string
  {
    match s
    case Pending => "pending"
    case Processing => "processing"
    case Completed => "completed"
    case Failed => "failed"
  }

  /** `ProcessingStatus(v)`: the member with that value, if there is one. */
  function ParseStatus(v: string): (r: Option<ProcessingStatus>)
    ensures r.Some? ==> StatusValue(r.value) == v
  {
    if v == "pending" then Some(Pending)
    else if v == "processing" then Some(Processing)
    else if v == "completed" then Some(Completed)
    else if v == "failed" then Some(Failed)
    else None
  }

  /** The status values are a closed set: every member's value parses back
      to that member, and nothing else parses. */
  lemma StatusRoundTrip(s: ProcessingStatus, v: string)
    ensures ParseStatus(StatusValue(s)) == Some(s)
    ensures ParseStatus(v).Some? <==> v in {"pending", "processing", "completed", "failed"}
  {
  }

  function FieldTypeValue(t: FieldType): string
  {
    match t
    case TextField => "text"
    case DateField => "date"
    case NameField => "name"
    case AddressField => "address"
    case AmountField => "amount"
    case EmailField => "email"
    case PhoneField => "phone"
    case SignatureField => "signature"
    case CheckboxField => "checkbox"
    case PartyField => "party"
  }

  function ParseFieldType(v: string): (r: Option<FieldType>)
    ensures r.Some? ==> FieldTypeValue(r.value) == v
  {
    if v == "text" then Some(TextField)
    else if v == "date" then Some(DateField)
    else if v == "name" then Some(NameField)
    else if v == "address" then Some(AddressField)
    else if v == "amount" then Some(AmountField)
    else if v == "email" then Some(EmailField)
    else if v == "phone" then Some(PhoneField)
    else if v == "signature" then Some(SignatureField)
    else if v == "checkbox" then Some(CheckboxField)
    else if v == "party" then Some(PartyField)
    else None
  }

  lemma FieldTypeRoundTrip(t: FieldType)
    ensures ParseFieldType(FieldTypeValue(t)) == Some(t)
  {
  }

  function SourceValue(s: PredictionSource): string
  {
    match s
    case Ai => "ai"
    case RuleBased => "rule_based"
    case User => "user"
    case Profile => "profile"
  }

  function ParseSource(v: string): (r: Option<PredictionSource>)
    ensures r.Some? ==> SourceValue(r.value) == v
  {
    if v == "ai" then Some(Ai)
    else if v == "rule_based" then Some(RuleBased)
    else if v == "user" then Some(User)
    else if v == "profile" then Some(Profile)
    else None
  }

  lemma SourceRoundTrip(s: PredictionSource)
    ensures ParseSource(SourceValue(s)) == Some(s)
  {
  }

  function ReasonValue(c: CorrectionReason): string
  {
    match c
    case LowConfidence => "low_confidence"
    case WrongField => "wrong_field"
    case FormattingIssue => "formatting_issue"
    case IncorrectValue => "incorrect_value"
    case Other => "other"
  }

  function ParseReason(v: string): (r: Option<CorrectionReason>)
    ensures r.Some? ==> ReasonValue(r.value) == v
  {
    if v == "low_confidence" then Some(LowConfidence)
    else if v == "wrong_field" then Some(WrongField)
    else if v == "formatting_issue" then Some(FormattingIssue)
    else if v == "incorrect_value" then Some(IncorrectValue)
    else if v == "other" then Some(Other)
    else None
  }

  lemma ReasonRoundTrip(c: CorrectionReason)
    ensures ParseReason(ReasonValue(c)) == Some(c)
  {
  }

  /** The JobData record. `metadata` is an optional JSON object; predictions
      and corrections are lists of JSON objects. */
  datatype JobData = JobData(
    jobId: string,
    status: ProcessingStatus,
    progress: int,
    userId: string,
    filePath: string,
    content: string,
    documentType: string,
    error: Option<string>,
    createdAt: string,
    updatedAt: string,
    metadata: Option<seq<Field>>,
    predictions: seq<Json>,
    corrections: seq<Json>)
  {
    /** JobData.update_timestamp: `updated_at` becomes the current time and
        every other attribute keeps its value. */
    function UpdateTimestamp(now: string): (r: JobData)
      ensures r.updatedAt == now
      ensures r.(updatedAt := updatedAt) == this
    {
      this.(updatedAt := now)
    }
  }

  /** A JobData built from the three required attributes, every other one
      taking its declared default.  Each timestamp has its own
      default_factory, so each is its own clock reading: `created` first,
      then `updated`. */
  function NewJobData(jobId: string, userId: string, filePath: string, created: string, updated: string): (r: JobData)
    ensures r.jobId == jobId && r.userId == userId && r.filePath == filePath
    ensures r.status == Pending && r.progress == 0
    ensures r.content == "" && r.documentType == "Legal Document"
    ensures r.error == None && r.metadata == None
    ensures r.predictions == [] && r.corrections == []
    ensures r.createdAt == created && r.updatedAt == updated
  {
    JobData(jobId, Pending, 0, userId, filePath, "", "Legal Document", None, created, updated, None, [], [])
  }

  const InvalidTimestamp := "Invalid timestamp format"

  /** UserCorrection.validate_timestamp: accept what fromisoformat accepts;
      failing that, a value ending in 'Z' is retried with every 'Z' read as
      "+00:00"; the accepted value is returned as given. */
  function ValidateTimestamp(v: string, isIso: string -> bool): (r: Result<string, string>)
    ensures r.Ok? <==> isIso(v) || (EndsWith(v, "Z") && isIso(Replace(v, "Z", "+00:00")))
    ensures r.Ok? ==> r.value == v
    ensures r.Err? ==> r.error == InvalidTimestamp
  {
    if isIso(v) then Ok(v)
    else if EndsWith(v, "Z") && isIso(Replace(v, "Z", "+00:00")) then Ok(v)
    else Err(InvalidTimestamp)
  }

  /** A UTC timestamp written with its only 'Z' at the end is accepted
      exactly when fromisoformat accepts it with "+00:00" in place of the 'Z'. */
  lemma {:induction false} ZuluTimestamp(base: string, isIso: string -> bool)
    requires 'Z' !in base
    requires !isIso(base + "Z")
    ensures ValidateTimestamp(base + "Z", isIso).Ok? <==> isIso(base + "+00:00")
  {
    ReplaceFinalChar(base, 'Z', "+00:00");
    assert base + "Z" == base + ['Z'];
    assert (base + "Z")[|base + "Z"| - 1..] == "Z";
  }

  /** Without a 'Z' anywhere, the substitution never comes into play. */
  lemma NoZuluNoRetry(v: string, isIso: string -> bool)
    requires 'Z' !in v
    ensures ValidateTimestamp(v, isIso).Ok? <==> isIso(v)
  {
    if |v| >= 1 { assert v[|v| - 1] in v; assert v[|v| - 1..] == [v[|v| - 1]]; }
  }

  /** EnhancedFieldCorrection.set_timestamp: `v or now`. */
  function SetTimestamp(v: Option<string>, now: string): (r: string)
    ensures v.Some? && v.value != "" ==> r == v.value
    ensures v.None? || v.value == "" ==> r == now
  {
    if v.Some? && v.value != "" then v.value else now
  }

  /** `timestamp` is `None` only when the caller left it out: a default
      value is not passed through set_timestamp. */
  datatype EnhancedFieldCorrection = EnhancedFieldCorrection(
    fieldId: string,
    originalValue: string,
    correctedValue: string,
    reason: CorrectionReason,
    timestamp: Option<string>)

  /** Building an EnhancedFieldCorrection.  `timestamp` is `None` when the
      argument is left out and `Some(v)` when it is given, `v` being the
      value passed (`None` for an explicit null).  The reason defaults to
      OTHER; a given timestamp goes through set_timestamp, an omitted one
      stays null. */
  function NewEnhancedFieldCorrection(fieldId: string, originalValue: string, correctedValue: string,
                                      reason: Option<CorrectionReason>, timestamp: Option<Option<string>>,
                                      now: string): (r: EnhancedFieldCorrection)
    ensures r.reason == if reason.Some? then reason.value else Other
    ensures r.timestamp.None? <==> timestamp.None?
    ensures timestamp.Some? ==> r.timestamp == Some(SetTimestamp(timestamp.value, now))
    ensures r.fieldId == fieldId && r.originalValue == originalValue && r.correctedValue == correctedValue
  {
    EnhancedFieldCorrection(fieldId, originalValue, correctedValue,
      if reason.Some? then reason.value else Other,
      if timestamp.Some? then Some(SetTimestamp(timestamp.value, now)) else None)
  }

  /** A timestamp that was passed, even as null or "", always ends up a
      non-empty string when the clock reads non-empty; a non-empty one
      passed in is kept unchanged. */
  lemma GivenTimestampFilled(timestamp: Option<string>, now: string, fieldId: string, originalValue: string,
                             correctedValue: string, reason: Option<CorrectionReason>)
    requires now != ""
    ensures var r := NewEnhancedFieldCorrection(fieldId, originalValue, correctedValue, reason, Some(timestamp), now);
            && r.timestamp.Some? && r.timestamp.value != ""
            && (timestamp.Some? && timestamp.value != "" ==> r.timestamp.value == timestamp.value)
  {
  }
}
