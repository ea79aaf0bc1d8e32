/** Server-side field and request validation of backend/middleware/validation.py:
    the per-type field validators, the parsed-field validator, the security
    validators (PII detection, upload checks), the recursive request
    sanitiser and the profile-request validator.

    Every validator yields a ValidationResult: a flag, the validated data
    (`None`, here JNull, on failure), a list of errors and a list of warnings.
    The regular expressions and date parsers that are left to Python's
    libraries (phone pattern, ISO and `%Y-%m-%d` dates, the `\b`-anchored
    PII searches, the script-stripping substitutions of `sanitize_input`) are
    parameters of the model, bundled in `Library`. */
module Validation {
  import opened Wrappers
  import opened Text
  import opened Json

  datatype Severity = SevError | SevWarning

  datatype ValidationError = ValidationError(field: string, code: string, message: string, severity: Severity)

  datatype ValidationResult = ValidationResult(
    isValid: bool,
    data: Json,
    errors: seq<ValidationError>,
    warnings: seq<ValidationError>)

  /** The library-provided recognisers and transformers the validators call. */
  datatype Library = Library(
    phoneMatches: string -> bool,   // re.match of the phone pattern
    isoDate: string -> bool,        // datetime.fromisoformat accepts the text
    ymdDate: string -> bool,        // datetime.strptime(text, '%Y-%m-%d') accepts it
    ssnFound: string -> bool,       // re.search of the SSN pattern finds a match
    cardFound: string -> bool,      // re.search of the card-number pattern finds a match
    sanitizeInput: string -> string) // SecurityValidators.sanitize_input

  const TextTooShort := "TEXT_TOO_SHORT"
  const TextTooLong := "TEXT_TOO_LONG"
  const InvalidEmail := "INVALID_EMAIL"
  const InvalidPhone := "INVALID_PHONE"
  const InvalidDateFormat := "INVALID_DATE_FORMAT"
  const InvalidCurrency := "INVALID_CURRENCY"
  const FileTooLarge := "FILE_TOO_LARGE"
  const InvalidFileType := "INVALID_FILE_TYPE"
  const RequiredField := "REQUIRED_FIELD"
  const PotentialSsn := "POTENTIAL_SSN"
  const PotentialCreditCard := "POTENTIAL_CREDIT_CARD"

  /** 50 MiB, the upload limit of validate_file_upload. */
  const MaxUploadBytes: int := 50 * 1024 * 1024

  const AllowedUploadSuffixes: seq<string> := [".pdf", ".doc", ".docx", ".txt"]

  function Codes(errors: seq<ValidationError>): (r: seq<string>)
    ensures |r| == |errors|
    ensures forall i :: 0 <= i < |errors| ==> r[i] == errors[i].code
  {
    if errors == [] then [] else [errors[0].code] + Codes(errors[1..])
  }

  /** The outcome every validator builds from its error list: valid exactly
      when no error was reported, carrying `data` only then. */
  function Outcome(data: Json, errors: seq<ValidationError>, warnings: seq<ValidationError>): (r: ValidationResult)
    ensures r.isValid <==> errors == []
    ensures r.data == if errors == [] then data else JNull
    ensures r.errors == errors && r.warnings == warnings
  {
    ValidationResult(errors == [], if errors == [] then data else JNull, errors, warnings)
  }

  // ---------------------------------------------------------------------------
  // Field validators
  // ---------------------------------------------------------------------------

  predicate IsEmailLocalChar(c: char)
  {
    IsLetter(c) || IsDigit(c) || c == '.' || c == '_' || c == '%' || c == '+' || c == '-'
  }

  predicate IsEmailDomainChar(c: char)
  {
    IsLetter(c) || IsDigit(c) || c == '.' || c == '-'
  }

  /** `[a-zA-Z0-9.-]+\.[a-zA-Z]{2,}` matched in full: domain characters, and
      after some dot with at least one character before it, two or more
      letters up to the end. */
  predicate IsEmailDomain(d: string)
  {
    && (forall i :: 0 <= i < |d| ==> IsEmailDomainChar(d[i]))
    && exists k :: 0 < k < |d| - 2 && d[k] == '.' && forall i :: k < i < |d| ==> IsLetter(d[i])
  }

  /** `[a-zA-Z0-9._%+-]+@` followed by a domain, matched in full. */
  predicate IsEmailAddress(s: string)
  {
    exists k :: 0 < k < |s| && s[k] == '@' && (forall i :: 0 <= i < k ==> IsEmailLocalChar(s[i])) && IsEmailDomain(s[k + 1..])
  }

  /** `re.match` with a pattern ending in `$`: the `$` also matches just
      before a final newline, so one trailing "\n" is tolerated. */
  predicate MatchesEmailPattern(s: string)
  {
    IsEmailAddress(s) || (|s| > 0 && s[|s| - 1] == '\n' && IsEmailAddress(s[..|s| - 1]))
  }

  /** FieldValidators.email */
  function Email(value: string): (r: ValidationResult)
    ensures r.isValid <==> MatchesEmailPattern(value)
    ensures r.isValid ==> r.data == JStr(value) && r.errors == []
    ensures !r.isValid ==> Codes(r.errors) == [InvalidEmail] && r.data == JNull
    ensures r.warnings == []
  {
    if MatchesEmailPattern(value) then Outcome(JStr(value), [], [])
    else Outcome(JNull, [ValidationError("email", InvalidEmail, "Please enter a valid email address", SevError)], [])
  }

  /** FieldValidators.phone */
  function Phone(value: string, lib: Library): (r: ValidationResult)
    ensures r.isValid <==> lib.phoneMatches(value)
    ensures r.isValid ==> r.data == JStr(value)
    ensures !r.isValid ==> Codes(r.errors) == [InvalidPhone]
    ensures r.warnings == []
  {
    if lib.phoneMatches(value) then Outcome(JStr(value), [], [])
    else Outcome(JNull, [ValidationError("phone", InvalidPhone, "Please enter a valid phone number", SevError)], [])
  }

  /** FieldValidators.date: ISO format once every 'Z' is read as "+00:00",
      else `YYYY-MM-DD`. */
  function Date(value: string, lib: Library): (r: ValidationResult)
    ensures r.isValid <==> lib.isoDate(Replace(value, "Z", "+00:00")) || lib.ymdDate(value)
    ensures r.isValid ==> r.data == JStr(value)
    ensures !r.isValid ==> Codes(r.errors) == [InvalidDateFormat]
    ensures r.warnings == []
  {
    if lib.isoDate(Replace(value, "Z", "+00:00")) || lib.ymdDate(value) then Outcome(JStr(value), [], [])
    else Outcome(JNull, [ValidationError("date", InvalidDateFormat, "Date must be in YYYY-MM-DD format", SevError)], [])
  }

  /** `min_length and ...`: a bound of None or 0 is not applied. */
  predicate BoundSet(bound: Option<int>)
  {
    bound.Some? && bound.value != 0
  }

  /** The result FieldValidators.text computes. */
  function TextResult(value: string, minLength: Option<int>, maxLength: Option<int>): (r: ValidationResult)
    ensures TextTooShort in Codes(r.errors) <==> BoundSet(minLength) && |value| < minLength.value
    ensures TextTooLong in Codes(r.errors) <==> BoundSet(maxLength) && |value| > maxLength.value
    ensures |r.errors| <= 2
    ensures forall e :: e in r.errors ==> e.field == "text" && e.severity == SevError
    ensures r.isValid <==> r.errors == []
    ensures r.data == if r.isValid then JStr(value) else JNull
    ensures r.warnings == []
  {
    var short := if BoundSet(minLength) && |value| < minLength.value
      then [ValidationError("text", TextTooShort, "Text must be at least " + IntToString(minLength.value) + " characters", SevError)]
      else [];
    var long := if BoundSet(maxLength) && |value| > maxLength.value
      then [ValidationError("text", TextTooLong, "Text must not exceed " + IntToString(maxLength.value) + " characters", SevError)]
      else [];
    assert Codes(short + long) == Codes(short) + Codes(long);
    Outcome(JStr(value), short + long, [])
  }

  lemma CodesAppend(a: seq<ValidationError>, b: seq<ValidationError>)
    ensures Codes(a + b) == Codes(a) + Codes(b)
  {
  }

  /** FieldValidators.text, appending its errors one check at a time. */
  method ValidateText(value: string, minLength: Option<int>, maxLength: Option<int>) returns (r: ValidationResult)
    ensures r == TextResult(value, minLength, maxLength)
  {
    var errors: seq<ValidationError> := [];
    if BoundSet(minLength) && |value| < minLength.value {
      errors := errors + [ValidationError("text", TextTooShort, "Text must be at least " + IntToString(minLength.value) + " characters", SevError)];
    }
    if BoundSet(maxLength) && |value| > maxLength.value {
      errors := errors + [ValidationError("text", TextTooLong, "Text must not exceed " + IntToString(maxLength.value) + " characters", SevError)];
    }
    r := ValidationResult(|errors| == 0, if |errors| == 0 then JStr(value) else JNull, errors, []);
  }

  /** `re.sub(r'[$,\s]', '', value)` */
  function CurrencyClean(value: string): (r: string)
    ensures |r| <= |value|
    ensures forall i :: 0 <= i < |r| ==> r[i] != '$' && r[i] != ',' && !IsSpace(r[i])
  {
    if value == [] then []
    else if value[0] == '$' || value[0] == ',' || IsSpace(value[0]) then CurrencyClean(value[1..])
    else [value[0]] + CurrencyClean(value[1..])
  }

  lemma {:induction false} CurrencyCleanAppend(a: string, b: string)
    ensures CurrencyClean(a + b) == CurrencyClean(a) + CurrencyClean(b)
  {
    if a != [] {
      assert (a + b)[1..] == a[1..] + b;
      CurrencyCleanAppend(a[1..], b);
    } else {
      assert a + b == b;
    }
  }

  predicate AllDigits(s: string)
  {
    forall i :: 0 <= i < |s| ==> IsDigit(s[i])
  }

  /** `^\d+(\.\d{1,2})?$` matched in full (no newline can remain after
      cleaning, so `$` needs no special case). */
  predicate IsCurrencyAmount(s: string)
  {
    (|s| >= 1 && AllDigits(s))
    || exists k :: 0 < k < |s| && s[k] == '.' && AllDigits(s[..k]) && AllDigits(s[k + 1..]) && 1 <= |s| - k - 1 <= 2
  }

  /** FieldValidators.currency: symbols, commas and whitespace are ignored,
      and the value handed back is the original text. */
  function Currency(value: string): (r: ValidationResult)
    ensures r.isValid <==> IsCurrencyAmount(CurrencyClean(value))
    ensures r.isValid ==> r.data == JStr(value) && r.errors == []
    ensures !r.isValid ==> Codes(r.errors) == [InvalidCurrency]
    ensures r.warnings == []
  {
    if IsCurrencyAmount(CurrencyClean(value)) then Outcome(JStr(value), [], [])
    else Outcome(JNull, [ValidationError("currency", InvalidCurrency, "Please enter a valid currency amount", SevError)], [])
  }

  /** Inserting a '$', a ',' or a whitespace character anywhere never
      changes whether an amount is accepted. */
  lemma {:induction false} CurrencyIgnoresDecoration(a: string, c: char, b: string)
    requires c == '$' || c == ',' || IsSpace(c)
    ensures Currency(a + [c] + b).isValid == Currency(a + b).isValid
  {
    assert a + [c] + b == (a + [c]) + b;
    CurrencyCleanAppend(a + [c], b);
    CurrencyCleanAppend(a, [c]);
    CurrencyCleanAppend(a, b);
    assert [c][1..] == [];
    assert CurrencyClean(a + [c] + b) == CurrencyClean(a + b);
  }

  // ---------------------------------------------------------------------------
  // validate_parsed_field
  // ---------------------------------------------------------------------------

  /** The type-specific validation validate_parsed_field dispatches to, for
      the `type` entry of the field (missing means 'text'). */
  function TypeValidation(fieldType: Option<Json>, value: string, lib: Library): (r: ValidationResult)
    ensures r.isValid <==> r.errors == []
    ensures r.data == if r.isValid then JStr(value) else JNull
    ensures r.warnings == []
    ensures fieldType == Some(JStr("email")) ==> (r.isValid <==> MatchesEmailPattern(value))
    ensures fieldType == Some(JStr("phone")) ==> (r.isValid <==> lib.phoneMatches(value))
    ensures fieldType == Some(JStr("date")) ==> (r.isValid <==> lib.isoDate(Replace(value, "Z", "+00:00")) || lib.ymdDate(value))
    ensures fieldType == Some(JStr("currency")) ==> (r.isValid <==> IsCurrencyAmount(CurrencyClean(value)))
  {
    var t := if fieldType.None? then JStr("text") else fieldType.value;
    if t == JStr("email") then Email(value)
    else if t == JStr("phone") then Phone(value, lib)
    else if t == JStr("date") then Date(value, lib)
    else if t == JStr("currency") then Currency(value)
    else TextResult(value, None, None)
  }

  /** Any type other than the four with their own validator is checked as
      unbounded text, which never fails. */
  lemma OtherTypesAlwaysValid(fieldType: Option<Json>, value: string, lib: Library)
    requires fieldType !in {Some(JStr("email")), Some(JStr("phone")), Some(JStr("date")), Some(JStr("currency"))}
    ensures TypeValidation(fieldType, value, lib) == ValidationResult(true, JStr(value), [], [])
  {
  }

  /** One error moved onto the field's own name: code and severity kept, and
      the generic label in the message replaced by the name. */
  function Relabel(e: ValidationError, name: string): (r: ValidationError)
  {
    ValidationError(name, e.code, Replace(e.message, e.field, name), e.severity)
  }

  function RelabelAll(errors: seq<ValidationError>, name: string): (r: seq<ValidationError>)
    ensures |r| == |errors|
    ensures forall i :: 0 <= i < |errors| ==> r[i] == Relabel(errors[i], name)
  {
    if errors == [] then [] else RelabelAll(errors[..|errors| - 1], name) + [Relabel(errors[|errors| - 1], name)]
  }

  lemma RelabelKeepsCodes(errors: seq<ValidationError>, name: string)
    ensures Codes(RelabelAll(errors, name)) == Codes(errors)
    ensures forall e :: e in RelabelAll(errors, name) ==> e.field == name
  {
  }

  /** `field_data.get(key, default)` when the entry, if present, is a string. */
  function StringAt(fields: seq<Field>, key: string, default: string): string
  {
    match Get(fields, key)
    case Some(JStr(s)) => s
    case _ => default
  }

  /** The exception a validator raises on a value of the wrong Python type. */
  datatype PyError = AttributeError | TypeError

  /** The entry under `key` is missing or a string. */
  predicate TextOrAbsent(fields: seq<Field>, key: string)
  {
    Get(fields, key).None? || Get(fields, key).value.JStr?
  }

  /** The result validate_parsed_field computes.  `.strip()` raises
      AttributeError on a value that is not a string; a name that is not a
      string makes `str.replace` raise TypeError, which happens only when
      there is an error to relabel. */
  function ParsedFieldResult(fieldData: seq<Field>, lib: Library): (r: Result<ValidationResult, PyError>)
    ensures !TextOrAbsent(fieldData, "value") ==> r == Err(AttributeError)
    ensures r.Err? && TextOrAbsent(fieldData, "value") ==> r == Err(TypeError) && !TextOrAbsent(fieldData, "name")
    ensures r.Ok? ==> (r.value.isValid <==> r.value.errors == [])
  {
    if !TextOrAbsent(fieldData, "value") then Err(AttributeError)
    else
      var value := Strip(StringAt(fieldData, "value", ""));
      if value == [] then Ok(ValidationResult(true, JObject(fieldData), [], []))
      else
        var tv := TypeValidation(Get(fieldData, "type"), value, lib);
        if !tv.isValid && !TextOrAbsent(fieldData, "name") then Err(TypeError)
        else
          var errors := if tv.isValid then [] else RelabelAll(tv.errors, StringAt(fieldData, "name", "field"));
          Ok(Outcome(JObject(fieldData), errors, tv.warnings))
  }

  /** validate_parsed_field: skip blank values, dispatch on the type, then
      copy each error of the type validator under the field's name. */
  method ValidateParsedField(fieldData: seq<Field>, lib: Library) returns (r: Result<ValidationResult, PyError>)
    ensures r == ParsedFieldResult(fieldData, lib)
  {
    var fieldType := Get(fieldData, "type");
    var rawValue := Get(fieldData, "value");
    if rawValue.Some? && !rawValue.value.JStr? {
      return Err(AttributeError);
    }
    var value := Strip(StringAt(fieldData, "value", ""));
    var rawName := Get(fieldData, "name");
    var fieldName := StringAt(fieldData, "name", "field");
    if |value| == 0 {
      return Ok(ValidationResult(true, JObject(fieldData), [], []));
    }
    var typeValidation := TypeValidation(fieldType, value, lib);
    var errors: seq<ValidationError> := [];
    if !typeValidation.isValid {
      var i := 0;
      while i < |typeValidation.errors|
        invariant 0 <= i <= |typeValidation.errors|
        invariant errors == RelabelAll(typeValidation.errors[..i], fieldName)
        invariant i == 0 || TextOrAbsent(fieldData, "name")
      {
        var e := typeValidation.errors[i];
        if rawName.Some? && !rawName.value.JStr? {
          return Err(TypeError);
        }
        errors := errors + [ValidationError(fieldName, e.code, Replace(e.message, e.field, fieldName), e.severity)];
        i := i + 1;
        assert typeValidation.errors[..i][..i - 1] == typeValidation.errors[..i - 1];
      }
      assert typeValidation.errors[..i] == typeValidation.errors;
    }
    var warnings := typeValidation.warnings;
    assert ParsedFieldResult(fieldData, lib) == Ok(Outcome(JObject(fieldData), errors, warnings));
    r := Ok(ValidationResult(|errors| == 0, if |errors| == 0 then JObject(fieldData) else JNull, errors, warnings));
  }

  /** A blank or whitespace-only string value is valid, hands back the field
      data unchanged and runs no type validator, whatever the name is. */
  lemma BlankValueSkipsValidation(fieldData: seq<Field>, lib: Library)
    requires TextOrAbsent(fieldData, "value")
    requires forall i :: 0 <= i < |StringAt(fieldData, "value", "")| ==> IsSpace(StringAt(fieldData, "value", "")[i])
    ensures ParsedFieldResult(fieldData, lib) == Ok(ValidationResult(true, JObject(fieldData), [], []))
  {
    StripEmptyIffAllSpace(StringAt(fieldData, "value", ""));
  }

  /** A name that is not a string goes unnoticed while the value passes its
      type validator, and raises as soon as the validator reports an error. */
  lemma NonTextNameRaisesOnError(fieldData: seq<Field>, lib: Library)
    requires TextOrAbsent(fieldData, "value") && !TextOrAbsent(fieldData, "name")
    requires Strip(StringAt(fieldData, "value", "")) != []
    ensures ParsedFieldResult(fieldData, lib).Err?
            <==> !TypeValidation(Get(fieldData, "type"), Strip(StringAt(fieldData, "value", "")), lib).isValid
  {
  }

  /** The field's result is valid exactly when the type validator was, its
      errors are the type validator's under the field's name with the same
      codes, and warnings play no part in validity. */
  lemma ParsedFieldErrorsRelabelled(fieldData: seq<Field>, lib: Library)
    requires TextOrAbsent(fieldData, "value") && TextOrAbsent(fieldData, "name")
    requires Strip(StringAt(fieldData, "value", "")) != []
    ensures var tv := TypeValidation(Get(fieldData, "type"), Strip(StringAt(fieldData, "value", "")), lib);
            var r := ParsedFieldResult(fieldData, lib);
            && r.Ok?
            && (r.value.isValid <==> tv.isValid)
            && Codes(r.value.errors) == Codes(tv.errors)
            && (forall e :: e in r.value.errors ==> e.field == StringAt(fieldData, "name", "field"))
            && r.value.data == (if tv.isValid then JObject(fieldData) else JNull)
  {
    var tv := TypeValidation(Get(fieldData, "type"), Strip(StringAt(fieldData, "value", "")), lib);
    RelabelledOutcome(JObject(fieldData), tv, StringAt(fieldData, "name", "field"));
  }

  lemma RelabelledOutcome(data: Json, tv: ValidationResult, name: string)
    requires tv.isValid <==> tv.errors == []
    ensures var r := Outcome(data, if tv.isValid then [] else RelabelAll(tv.errors, name), tv.warnings);
            && (r.isValid <==> tv.isValid)
            && Codes(r.errors) == Codes(tv.errors)
            && (forall e :: e in r.errors ==> e.field == name)
            && r.data == (if tv.isValid then data else JNull)
  {
    RelabelKeepsCodes(tv.errors, name);
  }

  // ---------------------------------------------------------------------------
  // Security validators
  // ---------------------------------------------------------------------------

  /** The warnings SecurityValidators.detect_pii reports for one text. */
  function PiiWarnings(text: string, lib: Library): (r: seq<ValidationError>)
    ensures |r| <= 2
    ensures forall e :: e in r ==> e.severity == SevWarning
    ensures PotentialSsn in Codes(r) <==> lib.ssnFound(text)
    ensures PotentialCreditCard in Codes(r) <==> lib.cardFound(text)
  {
    var ssn := if lib.ssnFound(text) then [ValidationError("text", PotentialSsn, "Text may contain Social Security Number", SevWarning)] else [];
    var card := if lib.cardFound(text) then [ValidationError("text", PotentialCreditCard, "Text may contain credit card number", SevWarning)] else [];
    CodesAppend(ssn, card);
    ssn + card
  }

  /** SecurityValidators.detect_pii */
  method DetectPii(text: string, lib: Library) returns (warnings: seq<ValidationError>)
    ensures warnings == PiiWarnings(text, lib)
  {
    warnings := [];
    if lib.ssnFound(text) {
      warnings := warnings + [ValidationError("text", PotentialSsn, "Text may contain Social Security Number", SevWarning)];
    }
    if lib.cardFound(text) {
      warnings := warnings + [ValidationError("text", PotentialCreditCard, "Text may contain credit card number", SevWarning)];
    }
  }

  /** `size` compares with an int (a number or a bool) when present. */
  predicate ComparableSize(fileData: seq<Field>)
  {
    match Get(fileData, "size")
    case None => true
    case Some(v) => v.JInt? || v.JFloat? || v.JBool?
  }

  /** `file_data.get('size', 0) > max_size` */
  predicate UploadTooLarge(fileData: seq<Field>)
  {
    match Get(fileData, "size")
    case Some(JInt(n)) => n > MaxUploadBytes
    case Some(JFloat(f)) => f > MaxUploadBytes as real
    case _ => false  // missing, or a bool (0 or 1)
  }

  /** `filename.lower().endswith(ext)` for one of the allowed suffixes. */
  predicate HasAllowedUploadSuffix(fileData: seq<Field>)
  {
    var name := Lower(StringAt(fileData, "filename", ""));
    exists ext :: ext in AllowedUploadSuffixes && EndsWith(name, ext)
  }

  /** The result SecurityValidators.validate_file_upload computes. */
  function FileUploadResult(fileData: seq<Field>): (r: ValidationResult)
    ensures FileTooLarge in Codes(r.errors) <==> UploadTooLarge(fileData)
    ensures InvalidFileType in Codes(r.errors) <==> !HasAllowedUploadSuffix(fileData)
    ensures r.isValid <==> UploadTooLarge(fileData) == false && HasAllowedUploadSuffix(fileData)
    ensures r.data == if r.isValid then JObject(fileData) else JNull
  {
    var size := if UploadTooLarge(fileData) then [ValidationError("file_size", FileTooLarge, "File size must not exceed 50MB", SevError)] else [];
    var kind := if !HasAllowedUploadSuffix(fileData) then [ValidationError("file_type", InvalidFileType, "File type must be one of: .pdf, .doc, .docx, .txt", SevError)] else [];
    CodesAppend(size, kind);
    Outcome(JObject(fileData), size + kind, [])
  }

  /** SecurityValidators.validate_file_upload, one check after the other.
      Comparing a size that is not a number raises TypeError; `.lower()` on
      a file name that is not a string raises AttributeError. */
  method ValidateFileUpload(fileData: seq<Field>) returns (r: Result<ValidationResult, PyError>)
    ensures !ComparableSize(fileData) ==> r == Err(TypeError)
    ensures ComparableSize(fileData) && !TextOrAbsent(fileData, "filename") ==> r == Err(AttributeError)
    ensures ComparableSize(fileData) && TextOrAbsent(fileData, "filename") ==> r == Ok(FileUploadResult(fileData))
  {
    var errors: seq<ValidationError> := [];
    if !ComparableSize(fileData) {
      return Err(TypeError);
    }
    var tooLarge := match Get(fileData, "size")
      case Some(JInt(n)) => n > MaxUploadBytes
      case Some(JFloat(f)) => f > MaxUploadBytes as real
      case _ => false;
    assert tooLarge == UploadTooLarge(fileData);
    if tooLarge {
      errors := errors + [ValidationError("file_size", FileTooLarge, "File size must not exceed 50MB", SevError)];
    }
    if !TextOrAbsent(fileData, "filename") {
      return Err(AttributeError);
    }
    var filename := Lower(StringAt(fileData, "filename", ""));
    var allowed := false;
    var i := 0;
    while i < |AllowedUploadSuffixes|
      invariant 0 <= i <= |AllowedUploadSuffixes|
      invariant allowed <==> exists j :: 0 <= j < i && EndsWith(filename, AllowedUploadSuffixes[j])
    {
      allowed := allowed || EndsWith(filename, AllowedUploadSuffixes[i]);
      i := i + 1;
    }
    assert allowed == HasAllowedUploadSuffix(fileData);
    if !allowed {
      errors := errors + [ValidationError("file_type", InvalidFileType, "File type must be one of: .pdf, .doc, .docx, .txt", SevError)];
    }
    assert errors == (if tooLarge then [ValidationError("file_size", FileTooLarge, "File size must not exceed 50MB", SevError)] else [])
                   + (if !allowed then [ValidationError("file_type", InvalidFileType, "File type must be one of: .pdf, .doc, .docx, .txt", SevError)] else []);
    r := Ok(ValidationResult(|errors| == 0, if |errors| == 0 then JObject(fileData) else JNull, errors, []));
  }

  // ---------------------------------------------------------------------------
  // Request sanitiser
  // ---------------------------------------------------------------------------

  /** A value with every string emptied: what sanitising must leave intact
      (dict keys and their order, list lengths, every non-string leaf). */
  function Shape(data: Json): Json
    decreases data
  {
    match data
    case JStr(_) => JStr("")
    case JList(items) => JList(ShapeList(items))
    case JObject(fields) => JObject(ShapeFields(fields))
    case _ => data
  }

  function ShapeList(items: seq<Json>): seq<Json>
    decreases items
  {
    if items == [] then [] else [Shape(items[0])] + ShapeList(items[1..])
  }

  function ShapeFields(fields: seq<Field>): seq<Field>
    decreases fields
  {
    if fields == [] then [] else [Field(fields[0].key, Shape(fields[0].value))] + ShapeFields(fields[1..])
  }

  /** The string leaves of a value, in iteration order. */
  function Leaves(data: Json): seq<string>
    decreases data
  {
    match data
    case JStr(s) => [s]
    case JList(items) => LeavesList(items)
    case JObject(fields) => LeavesFields(fields)
    case _ => []
  }

  function LeavesList(items: seq<Json>): seq<string>
    decreases items
  {
    if items == [] then [] else Leaves(items[0]) + LeavesList(items[1..])
  }

  function LeavesFields(fields: seq<Field>): seq<string>
    decreases fields
  {
    if fields == [] then [] else Leaves(fields[0].value) + LeavesFields(fields[1..])
  }

  function MapStrings(xs: seq<string>, f: string -> string): (r: seq<string>)
    ensures |r| == |xs|
    ensures forall i :: 0 <= i < |xs| ==> r[i] == f(xs[i])
  {
    if xs == [] then [] else [f(xs[0])] + MapStrings(xs[1..], f)
  }

  lemma MapStringsAppend(a: seq<string>, b: seq<string>, f: string -> string)
    ensures MapStrings(a + b, f) == MapStrings(a, f) + MapStrings(b, f)
  {
  }

  /** ValidationRoute._sanitize_request_data: the same structure comes back,
      and each string leaf, in order, has gone through sanitize_input. */
  function SanitizeRequestData(data: Json, lib: Library): (r: Json)
    ensures Shape(r) == Shape(data)
    ensures Leaves(r) == MapStrings(Leaves(data), lib.sanitizeInput)
    decreases data
  {
    match data
    case JObject(fields) => JObject(SanitizeFields(fields, lib))
    case JList(items) => JList(SanitizeList(items, lib))
    case JStr(s) => JStr(lib.sanitizeInput(s))
    case _ => data
  }

  function SanitizeList(items: seq<Json>, lib: Library): (r: seq<Json>)
    ensures ShapeList(r) == ShapeList(items)
    ensures LeavesList(r) == MapStrings(LeavesList(items), lib.sanitizeInput)
    decreases items
  {
    if items == [] then []
    else
      var r := [SanitizeRequestData(items[0], lib)] + SanitizeList(items[1..], lib);
      assert r[0] == SanitizeRequestData(items[0], lib) && r[1..] == SanitizeList(items[1..], lib);
      MapStringsAppend(Leaves(items[0]), LeavesList(items[1..]), lib.sanitizeInput);
      r
  }

  function SanitizeFields(fields: seq<Field>, lib: Library): (r: seq<Field>)
    ensures ShapeFields(r) == ShapeFields(fields)
    ensures LeavesFields(r) == MapStrings(LeavesFields(fields), lib.sanitizeInput)
    decreases fields
  {
    if fields == [] then []
    else
      var r := [Field(fields[0].key, SanitizeRequestData(fields[0].value, lib))] + SanitizeFields(fields[1..], lib);
      assert r[0].value == SanitizeRequestData(fields[0].value, lib) && r[1..] == SanitizeFields(fields[1..], lib);
      MapStringsAppend(Leaves(fields[0].value), LeavesFields(fields[1..]), lib.sanitizeInput);
      r
  }

  // ---------------------------------------------------------------------------
  // validate_profile_request
  // ---------------------------------------------------------------------------

  const ProfileRequiredFields: seq<string> := ["fullName", "email"]

  /** A present, truthy email is a string; any other value makes re.match
      raise TypeError. */
  predicate WellTypedProfile(data: seq<Field>)
  {
    TruthyAt(data, "email") ==> Get(data, "email").value.JStr?
  }

  /** One REQUIRED_FIELD error per listed field that is missing or falsy,
      in the order of the list. */
  function MissingRequired(data: seq<Field>, required: seq<string>): (r: seq<ValidationError>)
    ensures |r| <= |required|
    ensures forall e :: e in r ==> e.code == RequiredField && e.severity == SevError
  {
    if required == [] then []
    else
      var field := required[|required| - 1];
      MissingRequired(data, required[..|required| - 1])
      + (if TruthyAt(data, field) then [] else [ValidationError(field, RequiredField, field + " is required", SevError)])
  }

  /** A field gets a REQUIRED_FIELD error exactly when it is required and
      missing or falsy. */
  lemma {:induction false} MissingRequiredIff(data: seq<Field>, required: seq<string>, field: string)
    ensures (exists e :: e in MissingRequired(data, required) && e.field == field)
            <==> field in required && !TruthyAt(data, field)
  {
    if required != [] {
      var init := required[..|required| - 1];
      var last := required[|required| - 1];
      MissingRequiredIff(data, init, field);
      assert required == init + [last];
      var tail := if TruthyAt(data, last) then [] else [ValidationError(last, RequiredField, last + " is required", SevError)];
      assert MissingRequired(data, required) == MissingRequired(data, init) + tail;
      if field == last && !TruthyAt(data, field) {
        assert tail[0] in MissingRequired(data, required);
      }
    }
  }

  /** The required-fields loop of validate_profile_request. */
  method CheckRequired(data: seq<Field>, required: seq<string>) returns (errors: seq<ValidationError>)
    ensures errors == MissingRequired(data, required)
  {
    errors := [];
    var k := 0;
    while k < |required|
      invariant 0 <= k <= |required|
      invariant errors == MissingRequired(data, required[..k])
    {
      var field := required[k];
      if !TruthyAt(data, field) {
        errors := errors + [ValidationError(field, RequiredField, field + " is required", SevError)];
      }
      k := k + 1;
      assert required[..k][..k - 1] == required[..k - 1];
    }
    assert required[..k] == required;
  }

  function EmailErrors(data: seq<Field>): (r: seq<ValidationError>)
    requires WellTypedProfile(data)
    ensures forall e :: e in r ==> e.code == InvalidEmail
    ensures r == [] <==> !TruthyAt(data, "email") || MatchesEmailPattern(Get(data, "email").value.s)
  {
    if TruthyAt(data, "email") then
      var ev := Email(Get(data, "email").value.s);
      if ev.isValid then [] else ev.errors
    else []
  }

  /** The PII warnings of every string value of the request, in order. */
  function AllPiiWarnings(data: seq<Field>, lib: Library): (r: seq<ValidationError>)
    ensures forall e :: e in r ==> e.severity == SevWarning
  {
    if data == [] then []
    else AllPiiWarnings(data[..|data| - 1], lib)
         + (match data[|data| - 1].value case JStr(s) => PiiWarnings(s, lib) case _ => [])
  }

  /** The PII loop of validate_profile_request. */
  method ScanPii(data: seq<Field>, lib: Library) returns (warnings: seq<ValidationError>)
    ensures warnings == AllPiiWarnings(data, lib)
  {
    warnings := [];
    var i := 0;
    while i < |data|
      invariant 0 <= i <= |data|
      invariant warnings == AllPiiWarnings(data[..i], lib)
    {
      if data[i].value.JStr? {
        var found := DetectPii(data[i].value.s, lib);
        warnings := warnings + found;
      }
      i := i + 1;
      assert data[..i][..i - 1] == data[..i - 1];
    }
    assert data[..i] == data;
  }

  /** The result validate_profile_request computes. */
  function ProfileResult(data: seq<Field>, lib: Library): (r: ValidationResult)
    requires WellTypedProfile(data)
  {
    Outcome(JObject(data), MissingRequired(data, ProfileRequiredFields) + EmailErrors(data), AllPiiWarnings(data, lib))
  }

  /** validate_profile_request: required fields in order, then the email
      format, then a PII scan of every string value. */
  method ValidateProfileRequest(data: seq<Field>, lib: Library) returns (r: Result<ValidationResult, PyError>)
    ensures !WellTypedProfile(data) ==> r == Err(TypeError)
    ensures WellTypedProfile(data) ==> r == Ok(ProfileResult(data, lib))
  {
    var errors := CheckRequired(data, ProfileRequiredFields);
    if TruthyAt(data, "email") {
      if !Get(data, "email").value.JStr? {
        return Err(TypeError);
      }
      var emailValidation := Email(Get(data, "email").value.s);
      if !emailValidation.isValid {
        errors := errors + emailValidation.errors;
      }
    }
    var warnings := ScanPii(data, lib);
    assert WellTypedProfile(data) && errors == MissingRequired(data, ProfileRequiredFields) + EmailErrors(data);
    r := Ok(ValidationResult(|errors| == 0, if |errors| == 0 then JObject(data) else JNull, errors, warnings));
  }

  /** A profile request is accepted exactly when fullName and email are both
      present and truthy and the email matches the pattern. */
  lemma ProfileValidIff(data: seq<Field>, lib: Library)
    requires WellTypedProfile(data)
    ensures ProfileResult(data, lib).isValid
            <==> TruthyAt(data, "fullName") && TruthyAt(data, "email") && MatchesEmailPattern(Get(data, "email").value.s)
  {
    var missing := MissingRequired(data, ProfileRequiredFields);
    MissingRequiredIff(data, ProfileRequiredFields, "fullName");
    MissingRequiredIff(data, ProfileRequiredFields, "email");
    if missing == [] {
      assert "fullName" in ProfileRequiredFields && "email" in ProfileRequiredFields;
    } else {
      assert missing[0] in missing;
      MissingRequiredIff(data, ProfileRequiredFields, missing[0].field);
    }
  }

  /** PII findings are only ever warnings: whatever the detectors find, the
      errors and the validity of a profile request are the same. */
  lemma PiiNeverAffectsValidity(data: seq<Field>, lib1: Library, lib2: Library)
    requires WellTypedProfile(data)
    ensures ProfileResult(data, lib1).errors == ProfileResult(data, lib2).errors
    ensures ProfileResult(data, lib1).isValid == ProfileResult(data, lib2).isValid
    ensures forall e :: e in ProfileResult(data, lib1).warnings ==> e.severity == SevWarning
  {
  }
}
