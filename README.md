# FormMonkey core logic in Dafny

This project models the deterministic core of the FormMonkey platform's
backend. FormMonkey is a service that takes legal documents (PDF, DOCX),
predicts their form fields, and keeps per-user jobs and profiles. The model
covers these pieces, one module each:

- `Validation` (backend/middleware/validation.py). It covers:
  - the per-type field validators (text, currency, email, phone, date);
  - the parsed-field validator, which dispatches on the field type and
    relabels errors with the field's name;
  - PII detection and the upload check;
  - the recursive request sanitiser;
  - the profile-request validator.

  The error and warning lists are built by methods with loops. Each method
  is proved equal to a specification function, and the lemmas state what
  that function promises.
- `JobStore` and `JobTypes` (backend/storage/job_store.py,
  backend/shared/types.py). They model:
  - the in-memory job store, as a class over a `map` from job id to `JobData`
    plus the dictionary's insertion order;
  - `store_job`, `get_job`, `update_job`, `update_job_status`, `delete_job`,
    `list_jobs` and `cleanup_expired_jobs`;
  - the `JobData` record and its defaults, the enumerations with their string
    values, and the timestamp validators.
- `Schemas` (shared/schemas.py). It covers the file-extension and file-size
  predicates, the per-type pattern lookup, and the constraints that the data
  models place on their fields.
- `FieldCatalog`. This is the unified type module that fix_imports_script.py
  carries as a string: the 42 field types, the category table, the confidence
  tiers and the per-type validation patterns.
- `Filenames` (shared/utils.py): `sanitize_filename`.
- `CaseConvert` (shared/index.py). It covers the snake_case and camelCase key
  transforms, and the converters that rebuild nested dicts with converted
  keys.
- `SecureStorage` (shared/storage.py). It covers the directory-traversal
  check and the retrying write and read. These use `PosixPath`, a lexical
  model of `os.path.splitext` and of `Path.resolve`.
- `Upload` (backend/routers/upload.py): the guard sequence of both upload
  endpoints.
- `MlIntegration` (backend/ai/ml_integration.py). It covers model-type
  resolution, registry dispatch, the stub backends and the memoised local
  model.

Helper modules:

- `Wrappers`: `Option` and `Result`.
- `Text`: ASCII case mapping, `str.isspace`, `strip`, `replace`, `split` and
  `join`.
- `Json`: the Python values that reach this code. A dict is the sequence of
  its items in insertion order, and lookup finds the last item with the key.

The environment is modelled as parameters:

- the clock (`now`);
- `uuid.uuid4()` (a given job id, or `ids`);
- environment variables (`Option<string>`);
- the outcome of each file-system attempt (`succeeds`);
- the regular-expression and date-parsing library calls (`Library`, `isIso`,
  `parse`).

The docstring of `sanitize_filename` (shared/utils.py:37-38) says a name made
only of invalid characters is refused. The code does not do that, and the
model follows the code: `Filenames.UnsafeOnlyBecomesUnderscores` and
`Filenames.ControlOnlyBecomesEmpty` state what it does instead.

`ml_integration.py` imports `FieldType` from `shared.types` and uses
`FieldType.PARTY`. Only backend/shared/types.py declares `PARTY` (and
`AMOUNT`); the top-level shared/types.py does not. The model therefore uses
the `FieldType` of backend/shared/types.py (`JobTypes.FieldType`).

## Model

| member | source | states |
|---|---|---|
| Validation.Outcome | backend/middleware/validation.py:40-45 | a result is valid iff its error list is empty; its data is the input when valid and None otherwise |
| Validation.Email | backend/middleware/validation.py:61-71 | valid iff the value matches the email pattern (spelled out as a recogniser); INVALID_EMAIL otherwise; the valid data is the value itself |
| Validation.Phone | backend/middleware/validation.py:74-84 | valid iff the phone pattern matches; otherwise exactly one INVALID_PHONE error |
| Validation.Date | backend/middleware/validation.py:87-103 | valid iff the value with 'Z' replaced by '+00:00' is an ISO date, or the value is a YYYY-MM-DD date; otherwise INVALID_DATE_FORMAT |
| Validation.TextResult | backend/middleware/validation.py:106-123 | TEXT_TOO_SHORT iff min_length is truthy and the value is shorter; TEXT_TOO_LONG iff max_length is truthy and the value is longer; both can occur; valid iff there are no errors |
| Validation.ValidateText | backend/middleware/validation.py:106-123 | the error-appending method computes exactly TextResult |
| Validation.CurrencyClean | backend/middleware/validation.py:129 | the cleaned text holds no '$', ',' or whitespace |
| Validation.CurrencyCleanAppend | backend/middleware/validation.py:129 | the deletion works character by character, so it distributes over concatenation |
| Validation.Currency | backend/middleware/validation.py:126-138 | valid iff the cleaned text is digits, optionally followed by '.' and one or two digits; the valid data is the original, uncleaned value |
| Validation.CurrencyIgnoresDecoration | backend/middleware/validation.py:129-132 | inserting a '$', ',' or whitespace anywhere never changes the verdict |
| Validation.TypeValidation | backend/middleware/validation.py:158-167 | email, phone, date and currency types go to their own validators; validity is equivalent to theirs |
| Validation.OtherTypesAlwaysValid | backend/middleware/validation.py:166-167 | any type other than email, phone, date or currency goes to the unbounded text check and is always valid |
| Validation.RelabelAll | backend/middleware/validation.py:171-177 | one relabelled error per type error, in the same order |
| Validation.RelabelKeepsCodes | backend/middleware/validation.py:171-177 | relabelling keeps every code and gives every error the field's name |
| Validation.ParsedFieldResult | backend/middleware/validation.py:144-181 | a value that is not a string raises AttributeError; otherwise only a name that is not a string raises, as TypeError, and the valid flag agrees with the error list |
| Validation.ValidateParsedField | backend/middleware/validation.py:144-181 | the method with the relabelling loop computes exactly ParsedFieldResult, raising inside the loop on a name that is not a string |
| Validation.NonTextNameRaisesOnError | backend/middleware/validation.py:151-177 | a name that is not a string raises exactly when the type validator reports an error |
| Validation.BlankValueSkipsValidation | backend/middleware/validation.py:150-155 | a missing, empty or whitespace-only string value, whatever the name, gives a valid result carrying the unchanged field data, with no errors and no warnings |
| Validation.ParsedFieldErrorsRelabelled | backend/middleware/validation.py:158-181 | for a non-blank string value and a string or missing name, nothing is raised and valid iff the type validator accepts the stripped value; the same codes are reported, each labelled with the field's name; data is the field data iff valid |
| Validation.RelabelledOutcome | backend/middleware/validation.py:169-181 | assembling the result from the relabelled errors keeps validity, codes and data as the type validator decided |
| Validation.PiiWarnings | backend/middleware/validation.py:205-228 | at most two findings, all warnings; POTENTIAL_SSN iff the SSN search finds a match; POTENTIAL_CREDIT_CARD iff the card search does |
| Validation.DetectPii | backend/middleware/validation.py:205-228 | the appending method computes exactly PiiWarnings |
| Validation.FileUploadResult | backend/middleware/validation.py:231-254 | FILE_TOO_LARGE iff size (0 when missing, 0 or 1 for a bool) exceeds 50 MiB; INVALID_FILE_TYPE iff the lower-cased name ends in none of .pdf, .doc, .docx, .txt; valid iff neither |
| Validation.ValidateFileUpload | backend/middleware/validation.py:231-254 | a size that is not a number or bool raises TypeError, then a file name that is not a string raises AttributeError; otherwise the method computes exactly FileUploadResult |
| Validation.MapStrings | backend/middleware/validation.py:312 | applies the sanitiser to every string, keeping count and order |
| Validation.MapStringsAppend | backend/middleware/validation.py:305-314 | mapping distributes over concatenation of the leaf lists |
| Validation.SanitizeRequestData | backend/middleware/validation.py:305-314 | the result has the input's shape (same keys, list lengths, order and non-string leaves), and its string leaves are the input's string leaves passed through sanitize_input |
| Validation.SanitizeList | backend/middleware/validation.py:309-310 | the same for list elements |
| Validation.SanitizeFields | backend/middleware/validation.py:307-308 | the same for dict items, keys unchanged |
| Validation.MissingRequired | backend/middleware/validation.py:369-376 | at most one error per required field, each a REQUIRED_FIELD error |
| Validation.MissingRequiredIff | backend/middleware/validation.py:369-376 | a field gets a REQUIRED_FIELD error iff it is required and its value is missing or falsy |
| Validation.CheckRequired | backend/middleware/validation.py:369-376 | the loop over fullName then email computes exactly MissingRequired |
| Validation.EmailErrors | backend/middleware/validation.py:378-382 | no email error iff the email is missing or falsy, or matches the pattern; any error is INVALID_EMAIL |
| Validation.AllPiiWarnings | backend/middleware/validation.py:384-388 | the PII scan over the string values yields only warnings |
| Validation.ScanPii | backend/middleware/validation.py:384-388 | the loop over the items computes exactly AllPiiWarnings |
| Validation.ValidateProfileRequest | backend/middleware/validation.py:363-390 | a truthy email that is not a string raises TypeError; otherwise the method computes exactly ProfileResult |
| Validation.ProfileResult | backend/middleware/validation.py:363-390 | the errors of the required-field check followed by the email errors, and the PII warnings; its validity is what ProfileValidIff states |
| Validation.ProfileValidIff | backend/middleware/validation.py:363-390 | a profile request is valid iff fullName and email are truthy and the email matches the pattern |
| Validation.PiiNeverAffectsValidity | backend/middleware/validation.py:384-390 | whatever the PII searches find, the errors and the verdict are the same; the PII findings are only warnings |
| JobTypes.ParseStatus | backend/shared/types.py:12-17 | a string parses to a status only if that status's value is the string |
| JobTypes.StatusRoundTrip | backend/shared/types.py:12-17 | each status parses back from its value; exactly the four values parse |
| JobTypes.ParseFieldType | backend/shared/types.py:19-30 | a string parses to a field type only if that type's value is the string |
| JobTypes.FieldTypeRoundTrip | backend/shared/types.py:19-30 | each field type parses back from its value |
| JobTypes.ParseSource | backend/shared/types.py:32-37 | a string parses to a prediction source only if that source's value is the string |
| JobTypes.SourceRoundTrip | backend/shared/types.py:32-37 | each prediction source parses back from its value |
| JobTypes.ParseReason | backend/shared/types.py:39-45 | a string parses to a correction reason only if that reason's value is the string |
| JobTypes.ReasonRoundTrip | backend/shared/types.py:39-45 | each correction reason parses back from its value |
| JobTypes.ValidateTimestamp | backend/shared/types.py:90-105 | accepts iff the text is ISO, or ends in 'Z' and is ISO after 'Z' becomes '+00:00'; an accepted text is returned unchanged; otherwise "Invalid timestamp format" |
| JobTypes.ZuluTimestamp | backend/shared/types.py:94-101 | a non-ISO text ending in its only 'Z' is accepted exactly when the '+00:00' form is ISO |
| JobTypes.NoZuluNoRetry | backend/shared/types.py:96-102 | without a 'Z', only the direct ISO parse decides |
| JobTypes.SetTimestamp | backend/shared/types.py:214-217 | a given non-empty timestamp is kept; a missing or empty one becomes the current time |
| JobTypes.NewEnhancedFieldCorrection | backend/shared/types.py:206-217 | the reason defaults to OTHER; an omitted timestamp stays null, because a default is not run through the validator; a given one, null or "" included, goes through set_timestamp; the other fields are as given |
| JobTypes.GivenTimestampFilled | backend/shared/types.py:214-217 | a timestamp that was passed always ends up a non-empty string when the clock reads non-empty, and a non-empty one is kept unchanged |
| JobTypes.NewJobData | backend/shared/types.py:236-250 | a new job is PENDING with progress 0, empty content, document type "Legal Document", no error or metadata, no predictions or corrections; created_at and updated_at are two separate clock readings, one per default_factory |
| JobTypes.UpdateTimestamp | backend/shared/types.py:252-254 | only updated_at changes, to the current time |
| JobStore.AttrOf | backend/storage/job_store.py:130 | a key names an attribute iff it is one of JobData's thirteen field names |
| JobStore.SetAttrOnlyThat | backend/storage/job_store.py:131 | setattr changes the named attribute and no other |
| JobStore.LastUpdate | backend/storage/job_store.py:129-131 | an attribute has an assigned value iff some update key names it |
| JobStore.ApplyUpdates | backend/storage/job_store.py:129-131 | the update loop applied item by item; ApplyUpdatesAttr and ApplyUpdatesIgnoresUnknown state its effect |
| JobStore.ApplyUpdatesAttr | backend/storage/job_store.py:129-131 | after the update loop each attribute holds the last value given for it, or its old value |
| JobStore.ApplyUpdatesIgnoresUnknown | backend/storage/job_store.py:129-131 | keys that name no attribute are silently ignored |
| JobStore.StatusUpdates | backend/storage/job_store.py:155-159 | the status update dict always fits the attribute types |
| JobStore.StatusUpdatesEffect | backend/storage/job_store.py:155-161 | applying it sets status, sets progress and error only when given, and changes nothing else |
| JobStore.InMemoryJobStore.constructor | backend/storage/job_store.py:25 | the store starts empty |
| JobStore.InMemoryJobStore.GetJob | backend/storage/job_store.py:109-111 | None iff the id is absent; a found job carries that id |
| JobStore.InMemoryJobStore.StoreJob | backend/storage/job_store.py:50-83 | afterwards get_job returns the job with updated_at refreshed; every other entry is unchanged; a new id goes to the end of the order |
| JobStore.InMemoryJobStore.UpdateJob | backend/storage/job_store.py:113-135 | None and no change for an absent id; otherwise the stored job is the old one with the updates applied and the timestamp refreshed, stored under its possibly new id; the order is kept, with a new id appended at the end |
| JobStore.InMemoryJobStore.UpdateJobStatus | backend/storage/job_store.py:137-161 | None iff the id is absent; otherwise status set, progress and error set only when given, timestamp refreshed, nothing else changed, the order kept |
| JobStore.InMemoryJobStore.DeleteJob | backend/storage/job_store.py:163-188 | True iff the id was present; afterwards it is absent and every other entry is unchanged |
| JobStore.MatchingJobs | backend/storage/job_store.py:260-272 | the jobs passing the filters, in store order; each returned job matches the truthy filters |
| JobStore.Take | backend/storage/job_store.py:261-262 | at most limit elements, a prefix of the input |
| JobStore.ListingSound | backend/storage/job_store.py:259-274 | every listed job is in the store and matches the filters |
| JobStore.InMemoryJobStore.ListJobs | backend/storage/job_store.py:259-274 | the result is the first limit matching jobs in store order (none when limit is not positive) |
| JobStore.ExpiredIds | backend/storage/job_store.py:291-298 | an id is collected iff its job's updated_at parses and is strictly before the cut-off |
| JobStore.ExpiredIdsDistinct | backend/storage/job_store.py:291-298 | no id is collected twice |
| JobStore.RemovedExpired | backend/storage/job_store.py:300-302 | deleting the collected ids leaves exactly the jobs that are not expired |
| JobStore.InMemoryJobStore.RemoveAll | backend/storage/job_store.py:300-305 | the deletion loop removes exactly the given ids and counts them |
| JobStore.InMemoryJobStore.CleanupExpiredJobs | backend/storage/job_store.py:276-305 | removes exactly the jobs whose updated_at parses and is older than now minus 24 hours (in microseconds), keeps unparseable ones, and returns how many it removed |
| JobStore.RemoveKeepsInvariant | backend/storage/job_store.py:186 | deleting a key keeps the map and the order in step |
| Schemas.FileExtension | shared/schemas.py:62-63 | the compared extension is lower-case and does not start with '.' |
| Schemas.ValidateFileExtension | shared/schemas.py:62-64 | the lower-cased extension without its dot is in the allowed set; LastExtensionOnly, ExtensionIgnoresCase and NoDotNoExtension state its properties |
| Schemas.LastExtensionOnly | shared/schemas.py:62-64 | only the last extension counts, lower-cased and without its dot |
| Schemas.ExtensionIgnoresCase | shared/schemas.py:62-64 | the extension check ignores case |
| Schemas.NoDotNoExtension | shared/schemas.py:62-64 | a name without a dot passes only if "" is allowed |
| Schemas.ValidateFileSize | shared/schemas.py:66-77 | a size is accepted iff it is positive and at most the limit; FileSizeLimits states its properties |
| Schemas.FileSizeLimits | shared/schemas.py:66-77 | a size accepted under a limit is accepted under any larger one; size 0 is never accepted |
| Schemas.GetValidationPattern | shared/schemas.py:94-112 | a pattern for exactly the email, phone, payment, contract-date and signature-date types; the two dates share the MM/DD/YYYY pattern |
| Schemas.ConfidenceIsUnitInterval | shared/schemas.py:128-332 | every model with a confidence field (the four prediction models, the profile patch and ParsedField) accepts exactly confidences in [0, 1] |
| Schemas.CheckConfidence | shared/schemas.py:128-332 | a confidence within the model's declared bounds is accepted unchanged, any other refused; ConfidenceIsUnitInterval gives the bounds |
| Schemas.NewUploadMetadata | shared/schemas.py:35-40 | accepted iff the filename has 1 to 255 characters, the size is positive and the type has 1 to 64 characters; the status defaults to QUEUED |
| Schemas.NewFileMetadata | shared/schemas.py:289-295 | accepted iff the filename has 1 to 255 characters, the type 1 to 64 characters and the size is at least 0 |
| Schemas.EmptyFileMetadataOnly | shared/schemas.py:289-295 | an empty file is valid file metadata but not valid upload metadata |
| Schemas.NewParseStatus | shared/schemas.py:258-264 | accepted iff progress lies in [0, 100] |
| Schemas.ValidateProfileEmail | shared/schemas.py:343-353 | a given email is refused iff it does not match `^[^@]+@[^@]+\.[^@]+$`; an absent one, and every accepted one, is returned unchanged |
| Schemas.PatternSubsumesValidator | shared/schemas.py:343-353 | every email the pattern lets through holds an '@', so validate_email's own test never refuses anything |
| Schemas.DotlessDomainRefused | shared/schemas.py:343 | an email with no '.' after its '@', "a@b" among them, is refused, and so is "" |
| FieldCatalog.ConfidenceLevelOf | fix_imports_script.py:192-200 | HIGH iff above 0.8, MEDIUM iff in [0.4, 0.8], LOW iff below 0.4 |
| FieldCatalog.ConfidenceLevelMonotone | fix_imports_script.py:192-200 | a higher confidence never gets a lower tier |
| FieldCatalog.PredictionTier | fix_imports_script.py:192-200 | the confidence_level property of a prediction is the tier of its confidence |
| FieldCatalog.NewParsedField | fix_imports_script.py:169-177 | accepted iff the confidence lies in [0, 1]; no validation errors to begin with |
| FieldCatalog.NewAIPredictedField | fix_imports_script.py:180-190 | accepted iff the confidence lies in [0, 1]; the source defaults to AI_MODEL |
| FieldCatalog.NewJobStatus | fix_imports_script.py:239-246 | accepted iff progress lies in [0, 100]; no errors to begin with |
| FieldCatalog.Lookup | fix_imports_script.py:368 | the dict lookup finds a category iff the type is listed, and the found pair is in the table |
| FieldCatalog.Filter | fix_imports_script.py:373 | the comprehension keeps exactly the types listed with the given category |
| FieldCatalog.DictListsEveryTypeOnce | fix_imports_script.py:305-361 | the category table lists every one of the 42 field types exactly once |
| FieldCatalog.GetFieldCategory | fix_imports_script.py:366-368 | the category returned is the one FIELD_CATEGORIES lists for the type; the GENERAL default is never reached |
| FieldCatalog.GetFieldsByCategory | fix_imports_script.py:371-373 | a type is listed iff FIELD_CATEGORIES pairs it with the category; the list follows FIELD_CATEGORIES order, so each type appears once |
| FieldCatalog.FilterFollowsPositions | fix_imports_script.py:371-373 | over a table whose k-th item is for the type at position k, the comprehension lists types in strictly increasing position |
| FieldCatalog.EveryTypeCategorised | fix_imports_script.py:366-368 | every type has an entry, so the GENERAL fallback is never used |
| FieldCatalog.ByCategoryIff | fix_imports_script.py:366-373 | a type is in a category's list iff that is its category, so the lists partition the field types |
| FieldCatalog.OwnCategoryOnly | fix_imports_script.py:366-373 | each type is in its own category's list and in no other |
| FieldCatalog.GetFieldValidationPattern | fix_imports_script.py:376-387 | a pattern for exactly the seven listed types; the three date types share the YYYY-MM-DD pattern |
| Filenames.ReplaceUnsafe | shared/utils.py:46 | each unsafe character is replaced one for one by '_', the others are kept |
| Filenames.RemoveControl | shared/utils.py:47 | exactly the control characters are deleted |
| Filenames.SliceTo | shared/utils.py:52 | Python's s[:n] is a prefix, with a negative n counting from the end |
| Filenames.SanitizeFilename | shared/utils.py:27-55 | refused iff the name is empty or all whitespace |
| Filenames.Shorten | shared/utils.py:50-52 | a name over 255 characters keeps its extension and the prefix of the rest that fits; ShortenKeepsCharacters and SanitizedLengthAndExtension state its properties |
| Filenames.ShortenKeepsCharacters | shared/utils.py:50-52 | shortening introduces no new character |
| Filenames.SanitizedIsSafe | shared/utils.py:46-47 | the result holds no unsafe and no control character |
| Filenames.SanitizedLengthAndExtension | shared/utils.py:50-52 | if the extension has at most 255 characters, the result has at most 255 and ends with that extension |
| Filenames.CleanNameUnchanged | shared/utils.py:46-52 | a short name with no unsafe or control character comes back unchanged |
| Filenames.UnsafeOnlyBecomesUnderscores | shared/utils.py:42-47 | a short name made only of unsafe characters is not refused but becomes as many underscores |
| Filenames.ControlOnlyBecomesEmpty | shared/utils.py:42-47 | a name made only of non-whitespace control characters becomes the empty name |
| CaseConvert.Title | shared/index.py:37 | str.title keeps length and letters, changing only their case |
| CaseConvert.CamelKey | shared/index.py:36-37 | the first '_'-separated component unchanged, then each later one title-cased; CamelKeyWithoutUnderscore and CamelKeyHasNoUnderscore state its properties |
| CaseConvert.CamelKeyWithoutUnderscore | shared/index.py:36-37 | a key without '_' is unchanged |
| CaseConvert.CamelKeyHasNoUnderscore | shared/index.py:36-37 | the camelCase key never contains '_' |
| CaseConvert.SnakeKey | shared/index.py:68 | the snake_case key is at least as long as the key and has no capital letter |
| CaseConvert.SnakeKeyWithoutCapitals | shared/index.py:68 | a key without capital letters is unchanged |
| CaseConvert.SnakeCamelRoundTrip | shared/index.py:36-68 | for lowercase words joined by single '_', snake_case undoes camelCase |
| CaseConvert.KeyIndex | shared/index.py:41-49 | the position of the key's last item, or -1 |
| CaseConvert.Put | shared/index.py:41-49 | dict assignment keeps the key order, adding a new key at the end |
| CaseConvert.PutGet | shared/index.py:41-49 | the assigned key reads back as the value; other keys read as before |
| CaseConvert.PutDistinct | shared/index.py:41-49 | assignment keeps keys distinct |
| CaseConvert.ConvertValue | shared/index.py:40-49 | a dict value is converted, a list value has its dict elements converted, any other value is kept; RoundTripValue is its inverse property |
| CaseConvert.ConvertFields | shared/index.py:34-50 | the result dict after every item has been put under its converted key; ConvertedKeys, LaterWins and NoCollisions state its properties |
| CaseConvert.ConvertItems | shared/index.py:44-47 | one converted element per list element, in order |
| CaseConvert.ConvertNested | shared/index.py:40-49 | the method converts a value exactly as the specification does (nested dicts recursively, dict elements of lists, other values unchanged) |
| CaseConvert.ConvertList | shared/index.py:44-47 | the list method computes exactly ConvertItems |
| CaseConvert.ConvertObject | shared/index.py:21-51 | the loop that fills the result dict computes exactly ConvertFields |
| CaseConvert.ConvertedKeys | shared/index.py:32-51 | the result's keys are distinct and are exactly the converted input keys |
| CaseConvert.LaterWins | shared/index.py:34-50 | when keys collide after conversion, the last item's converted value wins |
| CaseConvert.MapFields | shared/index.py:34-49 | the item-by-item conversion, one output item per input item |
| CaseConvert.NoCollisions | shared/index.py:34-50 | without collisions the result is the item-by-item conversion, in order |
| CaseConvert.RoundTripFields | shared/index.py:21-82 | to_snake_case(to_camel_case(d)) == d for every dict whose keys, at every depth, are lowercase words joined by single '_' |
| CaseConvert.RoundTripValue | shared/index.py:40-49 | the same for a nested value |
| CaseConvert.RoundTripItems | shared/index.py:44-47 | the same for a list |
| CaseConvert.RoundTripItem | shared/index.py:45 | the same for one list element |
| PosixPath.SplitExt | backend/routers/upload.py:37 | os.path.splitext: root and extension concatenate to the path |
| PosixPath.SplitExtShape | backend/routers/upload.py:37 | a found extension starts with its only '.', lies in the last component and is preceded by a non-dot there; none is found only if every '.' of the last component is leading |
| PosixPath.SplitExtLower | shared/schemas.py:62-63 | lower-casing commutes with splitext |
| PosixPath.Resolve | shared/storage.py:50-57 | lexical Path.resolve yields a canonical list of components |
| PosixPath.WalkDownward | shared/storage.py:55 | a relative path without '..' stays below its starting directory |
| PosixPath.PathStringPrefix | shared/storage.py:60 | a component-wise prefix is also a string prefix |
| SecureStorage.FullPath | shared/storage.py:50-57 | a relative target is resolved below the resolved base, an absolute one alone |
| SecureStorage.ValidateSecurePathAsWritten | shared/storage.py:36-63 | accepts iff the full path's string starts with the base's string; otherwise SecurityError |
| SecureStorage.SiblingEscapesAsWritten | shared/storage.py:60-61 | with base "/base", the target "../base-x" is accepted as written and refused by the corrected check |
| SecureStorage.ValidateSecurePath | shared/storage.py:36-63 | accepts iff the resolved base is a component-wise prefix of the full path |
| SecureStorage.AsWrittenAcceptsIntended | shared/storage.py:60-61 | whatever the corrected check accepts, the as-written check accepts too |
| SecureStorage.AncestorRefused | shared/storage.py:55-61 | a target that climbs above the base is refused |
| SecureStorage.RelativeWithoutParentAccepted | shared/storage.py:53-61 | a relative target without '..' is accepted by both checks |
| SecureStorage.Backoff | shared/storage.py:107 | the delay before attempt k+1 is 100·2^k ms |
| SecureStorage.Retry | shared/storage.py:93-107 | the loop returns on the first success, with a delay after each earlier failure; after max_retries failures it gives up with no delay after the last; with max_retries ≤ 0 it never tries |
| SecureStorage.SecureWriteFile | shared/storage.py:65-107 | a path the chosen check refuses writes nothing and raises SecurityError; otherwise the result is the path iff some attempt succeeds, and StorageError iff max_retries > 0 and every attempt fails; None when max_retries ≤ 0. On success, the attempts before the successful one all failed, and the delays are the backoff up to that attempt. With no attempt, no delay. The source runs the as-written check |
| SecureStorage.SecureReadFile | shared/storage.py:109-148 | the same for reading, returning the content on success: the content iff some attempt succeeds, StorageError iff all max_retries attempts fail, the backoff delays up to the successful attempt. The source runs the as-written check |
| Upload.UploadDocument | backend/routers/upload.py:31-73 | accepted iff extension, size, MIME type and processing all pass; a bad extension gives 400 and then an oversize file 413; on success 202 and the stored name is the job id plus the extension |
| Upload.UploadDocumentMinimal | backend/routers/upload.py:76-99 | accepted iff extension and size pass |
| Upload.SizeLimitInclusive | backend/routers/upload.py:43-44 | exactly 10 MiB passes, one byte more gives 413 |
| Upload.MimeCheckLast | backend/routers/upload.py:37-53 | a MIME mismatch is reported only when the extension and size checks passed, and never as a 500 |
| Upload.StoredNameIgnoresClientName | backend/routers/upload.py:56-57 | beyond its extension, the client's file name changes nothing, and the stored name starts with the job id |
| Upload.ExtensionCaseInsensitive | backend/routers/upload.py:37 | the extension check ignores case |
| Upload.HiddenNameRefused | backend/routers/upload.py:37-39 | a name like ".pdf" has no extension and is refused |
| Upload.LastExtensionDecides | backend/routers/upload.py:37 | only the last extension counts, lower-cased |
| Upload.MinimalIsWeaker | backend/routers/upload.py:84-91 | the full endpoint accepts only what the minimal one accepts; with no MIME type and successful processing they agree |
| MlIntegration.MlModelType | backend/ai/ml_integration.py:17 | the environment's value, "local" when unset |
| MlIntegration.ResolveModelType | backend/ai/ml_integration.py:150 | a non-empty explicit type wins, otherwise the environment's type |
| MlIntegration.Registry | backend/ai/ml_integration.py:131-135 | exactly local, openai and anthropic are registered |
| MlIntegration.Dispatch | backend/ai/ml_integration.py:150-159 | an empty resolved type and an unregistered one are refused; otherwise the registered backend is chosen |
| MlIntegration.EmptyTypeOnlyFromEnvironment | backend/ai/ml_integration.py:150-154 | an empty type is reported iff no explicit type is given and ML_MODEL_TYPE is set to ""; with it unset the local backend is used |
| MlIntegration.UnknownTypeRefused | backend/ai/ml_integration.py:157-159 | an explicit unknown type is refused, whatever the environment |
| MlIntegration.LocalPredictions | backend/ai/ml_integration.py:34-69 | two predictions, with ids ids(0) and ids(1), confidences in [0, 1] and page at least 1 |
| MlIntegration.OpenAiPredictions | backend/ai/ml_integration.py:71-103 | two predictions, with ids ids(0) and ids(1), confidences in [0, 1] and page at least 1 |
| MlIntegration.AnthropicPredictions | backend/ai/ml_integration.py:105-128 | one prediction, with id ids(0), confidence in [0, 1] and page at least 1 |
| MlIntegration.BackendOutput | backend/ai/ml_integration.py:34-128 | every stub returns a non-empty list with confidences in [0, 1], pages at least 1, and fresh ids |
| MlIntegration.Predictor.constructor | backend/ai/ml_integration.py:23 | no model is loaded at first |
| MlIntegration.Predictor.LoadLocalModel | backend/ai/ml_integration.py:25-32 | loads the model on the first call only, and returns the same model every time |
| MlIntegration.Predictor.PredictWithMlModel | backend/ai/ml_integration.py:137-162 | refuses what Dispatch refuses, leaving the model as it was; otherwise returns exactly the chosen backend's output; only the local backend loads the model. On first use it becomes "dummy_model", after which it is kept |

## Findings

| source | as written | input that shows it | evidently intended | confidence | as-written member | corrected member |
|---|---|---|---|---|---|---|
| shared/storage.py:60-61 | the traversal check is a string-prefix test on the resolved paths | base "/base", target "../base-x": the resolved "/base-x" starts with "/base" and is accepted | accept only paths inside the base directory, a component-wise prefix test | not executed | SecureStorage.ValidateSecurePathAsWritten | SecureStorage.ValidateSecurePath |

`SecureStorage.SiblingEscapesAsWritten` exhibits the input.
`SecureStorage.SecureWriteFile` and `SecureStorage.SecureReadFile` take the
check as a parameter (`PathCheck`): `AsWritten` is what the source runs, so
with it they accept "../base-x"; `Intended` gives the corrected behaviour.

## Left out

- The Redis branches of the job store (connection pool, `set`/`get`/`scan`,
  server-side expiry). The async machinery and the `print` diagnostics are
  left out as well. Only the in-memory dictionary is modelled.
- Environment variables (`ML_MODEL_TYPE`, `JOB_EXPIRATION_HOURS`) are
  parameters or the source's defaults. `JOB_EXPIRATION` is fixed at its
  default of 24 hours.
- Library parsers and regular-expression engines are opaque parameters:
  - `datetime.fromisoformat` and `strptime`;
  - the phone pattern;
  - the `\b`-anchored PII searches;
  - `sanitize_input`.

  The email and currency patterns are written out as recognisers.
- Unicode case mapping: `lower` and `title` are modelled for ASCII letters
  only. Whitespace follows `str.isspace` for the characters the code meets.
- File-system effects: symlinks in `Path.resolve`, the current directory
  (a parameter `cwd`), `mkdir`, `open`, `write` and `read`. The outcome of
  each attempt is a parameter. `time.sleep` is recorded as a list of
  millisecond delays.
- `hash_file` and `generate_unique_id` in shared/utils.py are not modelled.
  uuid generation in upload.py and ml_integration.py becomes a parameter.
- Logging and the audit log, FastAPI routing, authentication, `store_file`,
  and the work done by `process_document`/`analyze_document`. The upload
  model takes only their success or failure.
- JobStore.InMemoryJobStore.UpdateJob: values must already have the
  attribute's type (`AllFit`). This is a restriction of the model, not of
  the source: JobData has no `validate_assignment`, so `setattr` stores a
  value of any type, and the typed record cannot hold it.
- JobStore.AttrOf: `hasattr` is also true for JobData's methods and
  inherited attributes (`update_timestamp`, `model_dump`, `copy`, ...).
  There `setattr` on a Pydantic model raises ValueError, and update_job
  fails without storing anything. The model treats such keys as unknown
  and skips them, so JobStore.ApplyUpdatesIgnoresUnknown covers them
  although the source raises.
- JobStore.ApplyUpdates: like UpdateJob, it takes only values that already
  have their attribute's type (`AllFit`). The source's `setattr` stores a
  value of any type; the typed record cannot hold one.
- JobStore.ApplyUpdatesAttr: states the effect only for updates under
  `AllFit`, for the same reason.
- JobStore.ApplyUpdatesIgnoresUnknown: a key that names one of JobData's
  methods or inherited attributes is skipped here. The source raises
  ValueError for it (see JobStore.AttrOf).
- Validation.Currency: the digits are ASCII '0'-'9'. Python's `\d` on `str`
  also matches other Unicode decimal digits (Arabic-Indic, fullwidth and
  the like), which the source therefore accepts and the model refuses.
- JobStore.InMemoryJobStore.StoreJob: the source refreshes `updated_at` on
  the caller's JobData object itself, so the caller sees the change. The
  model works on values and returns nothing to the caller; the stored job
  carries the new timestamp.
- UserProfile's other field constraints (`full_name` and `address` lengths,
  the `phone` pattern) are not modelled; only the email is.
- Upload.UploadDocument: the 500 response's detail omits the text of the
  exception raised by processing, and the file name is a string (a missing
  name would raise in `os.path.splitext`).
- MlIntegration.BackendOutput: the stubs' prediction dicts are modelled as
  a record. The text and document type they ignore are parameters without
  effect, and the uuid of each prediction is `ids(i)`.
- Validation.Phone and Validation.Date: validity is stated relative to the
  library recognisers, which are parameters.
- SecureStorage.SecureWriteFile: the content written is not modelled, only
  the path that would receive it.
- shared/types.py duplicates models of shared/schemas.py and is not part of
  this model. The same holds for shared/type_strategy.py,
  shared/constants.py, the type-migration and import-checking tools, and
  `validate_shared_type`.
