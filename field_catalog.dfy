/** The field catalogue of the unified type module (the `FIXED_TYPES_PY`
    text of fix_imports_script.py): field types, their categories, the
    confidence tiers and the per-type validation patterns. */
module FieldCatalog {
  import opened Wrappers

  datatype FieldType =
    | PartyName | PartyAddress | PartyEmail | PartyPhone
    | SignatoryName | SignatoryTitle | PaymentAmount | PaymentTerms
    | InterestRate | LateFee | DepositAmount | GoverningLaw
    | Jurisdiction | Venue | DisputeResolution | ArbitrationClause
    | IndemnificationClause | LimitationLiability | ConfidentialityClause | NonCompeteClause
    | AgreementDate | EffectiveDate | TerminationDate | RenewalDate
    | NoticePeriod | DocumentTitle | DocumentNumber | VersionNumber
    | Signature | SignatureDate | WitnessSignature | NotarySeal
    | ScopeOfWork | Deliverables | Warranties | ForceMajeure
    | AssignmentRights | PropertyAddress | PropertyDescription | PurchasePrice
    | SquareFootage | LotSize

  datatype FieldCategory = Personal | Financial | Legal | Dates | Signatures | Property | General

  datatype ConfidenceLevel = High | Medium | Low

  datatype ProcessingStatus = Pending | Processing | Completed | Failed | Cancelled

  datatype PredictionSource = AiModel | RegexPattern | UserProfile | DefaultValue | ManualEntry

  // ---------------------------------------------------------------------------
  // AIPredictedField.confidence_level

  /** The tier of a confidence score: above 0.8 is high, from 0.4 up to 0.8
      medium, below 0.4 low. */
  function ConfidenceLevelOf(c: real): (r: ConfidenceLevel)
    ensures r == High <==> c > 0.8
    ensures r == Medium <==> 0.4 <= c <= 0.8
    ensures r == Low <==> c < 0.4
  {
    if c > 0.8 then High
    else if c >= 0.4 then Medium
    else Low
  }

  function LevelRank(l: ConfidenceLevel): nat
  {
    match l
    case Low => 0
    case Medium => 1
    case High => 2
  }

  /** A higher score never gets a lower tier. */
  lemma ConfidenceLevelMonotone(c: real, d: real)
    requires c <= d
    ensures LevelRank(ConfidenceLevelOf(c)) <= LevelRank(ConfidenceLevelOf(d))
  {
  }

  // ---------------------------------------------------------------------------
  // Field constraints of the models

  datatype ParsedField = ParsedField(fieldType: FieldType, value: string, confidence: real,
                                     pageNumber: Option<int>, validationErrors: seq<string>)

  /** Building a ParsedField: the confidence lies in [0, 1]; there are no
      validation errors to begin with. */
  function NewParsedField(fieldType: FieldType, value: string, confidence: real,
                          pageNumber: Option<int>): (r: Result<ParsedField, string>)
    ensures r.Ok? <==> 0.0 <= confidence <= 1.0
    ensures r.Ok? ==> r.value.confidence == confidence && r.value.validationErrors == []
  {
    if 0.0 <= confidence <= 1.0 then Ok(ParsedField(fieldType, value, confidence, pageNumber, []))
    else Err("confidence out of range")
  }

  datatype AIPredictedField = AIPredictedField(
    fieldType: FieldType, predictedValue: string, confidence: real, modelVersion: string,
    extractedAt: int, predictionSource: PredictionSource)
  {
    /** The `confidence_level` property. */
    function Level(): ConfidenceLevel
    {
      ConfidenceLevelOf(confidence)
    }
  }

  /** Building an AIPredictedField: the confidence lies in [0, 1]; the source
      is AI_MODEL unless given. */
  function NewAIPredictedField(fieldType: FieldType, predictedValue: string, confidence: real,
                               modelVersion: string, extractedAt: int,
                               source: Option<PredictionSource>): (r: Result<AIPredictedField, string>)
    ensures r.Ok? <==> 0.0 <= confidence <= 1.0
    ensures r.Ok? ==> r.value.confidence == confidence
                      && r.value.predictionSource == (if source.Some? then source.value else AiModel)
  {
    if 0.0 <= confidence <= 1.0 then
      Ok(AIPredictedField(fieldType, predictedValue, confidence, modelVersion, extractedAt,
                          if source.Some? then source.value else AiModel))
    else Err("confidence out of range")
  }

  /** Every prediction that can be built has exactly one tier. */
  lemma PredictionTier(p: AIPredictedField)
    ensures p.Level() == High <==> p.confidence > 0.8
    ensures p.Level() == Medium <==> 0.4 <= p.confidence <= 0.8
    ensures p.Level() == Low <==> p.confidence < 0.4
  {
  }

  datatype JobStatus = JobStatus(jobId: string, status: ProcessingStatus, progress: int,
                                 message: Option<string>, errors: seq<string>)

  /** Building a JobStatus: progress is a percentage in [0, 100]; there are
      no errors to begin with. */
  function NewJobStatus(jobId: string, status: ProcessingStatus, progress: int,
                        message: Option<string>): (r: Result<JobStatus, string>)
    ensures r.Ok? <==> 0 <= progress <= 100
    ensures r.Ok? ==> r.value.progress == progress && r.value.status == status && r.value.errors == []
  {
    if 0 <= progress <= 100 then Ok(JobStatus(jobId, status, progress, message, []))
    else Err("progress out of range")
  }

  // ---------------------------------------------------------------------------
  // FIELD_CATEGORIES, get_field_category, get_fields_by_category

  const DictSize := 42

  /** The items of FIELD_CATEGORIES in the order the dict literal lists
      them. */
  function Entry(i: nat): (FieldType, FieldCategory)
    requires i < DictSize
  {
    match i
    case 0 => (PartyName, Personal)
    case 1 => (PartyAddress, Personal)
    case 2 => (PartyEmail, Personal)
    case 3 => (PartyPhone, Personal)
    case 4 => (SignatoryName, Personal)
    case 5 => (SignatoryTitle, Personal)
    case 6 => (PaymentAmount, Financial)
    case 7 => (PaymentTerms, Financial)
    case 8 => (InterestRate, Financial)
    case 9 => (LateFee, Financial)
    case 10 => (DepositAmount, Financial)
    case 11 => (PurchasePrice, Financial)
    case 12 => (GoverningLaw, Legal)
    case 13 => (Jurisdiction, Legal)
    case 14 => (Venue, Legal)
    case 15 => (DisputeResolution, Legal)
    case 16 => (ArbitrationClause, Legal)
    case 17 => (IndemnificationClause, Legal)
    case 18 => (LimitationLiability, Legal)
    case 19 => (ConfidentialityClause, Legal)
    case 20 => (NonCompeteClause, Legal)
    case 21 => (ForceMajeure, Legal)
    case 22 => (Warranties, Legal)
    case 23 => (AssignmentRights, Legal)
    case 24 => (AgreementDate, Dates)
    case 25 => (EffectiveDate, Dates)
    case 26 => (TerminationDate, Dates)
    case 27 => (RenewalDate, Dates)
    case 28 => (NoticePeriod, Dates)
    case 29 => (SignatureDate, Dates)
    case 30 => (Signature, Signatures)
    case 31 => (WitnessSignature, Signatures)
    case 32 => (NotarySeal, Signatures)
    case 33 => (PropertyAddress, Property)
    case 34 => (PropertyDescription, Property)
    case 35 => (SquareFootage, Property)
    case 36 => (LotSize, Property)
    case 37 => (DocumentTitle, General)
    case 38 => (DocumentNumber, General)
    case 39 => (VersionNumber, General)
    case 40 => (ScopeOfWork, General)
    case 41 => (Deliverables, General)
  }

  /** The first `n` items. */
  function Items(n: nat): (r: seq<(FieldType, FieldCategory)>)
    requires n <= DictSize
    ensures |r| == n && forall i :: 0 <= i < n ==> r[i] == Entry(i)
  {
    if n == 0 then [] else Items(n - 1) + [Entry(n - 1)]
  }

  /** FIELD_CATEGORIES */
  const FieldCategories: seq<(FieldType, FieldCategory)> := Items(DictSize)

  /** Where a field type sits in FIELD_CATEGORIES. */
  ghost function Position(t: FieldType): nat
  {
    match t
    case PartyName => 0
    case PartyAddress => 1
    case PartyEmail => 2
    case PartyPhone => 3
    case SignatoryName => 4
    case SignatoryTitle => 5
    case PaymentAmount => 6
    case PaymentTerms => 7
    case InterestRate => 8
    case LateFee => 9
    case DepositAmount => 10
    case PurchasePrice => 11
    case GoverningLaw => 12
    case Jurisdiction => 13
    case Venue => 14
    case DisputeResolution => 15
    case ArbitrationClause => 16
    case IndemnificationClause => 17
    case LimitationLiability => 18
    case ConfidentialityClause => 19
    case NonCompeteClause => 20
    case ForceMajeure => 21
    case Warranties => 22
    case AssignmentRights => 23
    case AgreementDate => 24
    case EffectiveDate => 25
    case TerminationDate => 26
    case RenewalDate => 27
    case NoticePeriod => 28
    case SignatureDate => 29
    case Signature => 30
    case WitnessSignature => 31
    case NotarySeal => 32
    case PropertyAddress => 33
    case PropertyDescription => 34
    case SquareFootage => 35
    case LotSize => 36
    case DocumentTitle => 37
    case DocumentNumber => 38
    case VersionNumber => 39
    case ScopeOfWork => 40
    case Deliverables => 41
  }

  lemma EntryAtPosition(t: FieldType)
    ensures Position(t) < DictSize && Entry(Position(t)).0 == t
  {
    match t
    case PartyName =>
    case PartyAddress =>
    case PartyEmail =>
    case PartyPhone =>
    case SignatoryName =>
    case SignatoryTitle =>
    case PaymentAmount =>
    case PaymentTerms =>
    case InterestRate =>
    case LateFee =>
    case DepositAmount =>
    case GoverningLaw =>
    case Jurisdiction =>
    case Venue =>
    case DisputeResolution =>
    case ArbitrationClause =>
    case IndemnificationClause =>
    case LimitationLiability =>
    case ConfidentialityClause =>
    case NonCompeteClause =>
    case AgreementDate =>
    case EffectiveDate =>
    case TerminationDate =>
    case RenewalDate =>
    case NoticePeriod =>
    case DocumentTitle =>
    case DocumentNumber =>
    case VersionNumber =>
    case Signature =>
    case SignatureDate =>
    case WitnessSignature =>
    case NotarySeal =>
    case ScopeOfWork =>
    case Deliverables =>
    case Warranties =>
    case ForceMajeure =>
    case AssignmentRights =>
    case PropertyAddress =>
    case PropertyDescription =>
    case PurchasePrice =>
    case SquareFootage =>
    case LotSize =>
  }

  lemma {:induction false} PositionOfPersonalEntry(i: nat)
    requires 0 <= i < 6
    ensures Position(Entry(i).0) == i
  {
  }

  lemma {:induction false} PositionOfFinancialEntry(i: nat)
    requires 6 <= i < 12
    ensures Position(Entry(i).0) == i
  {
  }

  lemma {:induction false} PositionOfLegalEntry(i: nat)
    requires 12 <= i < 24
    ensures Position(Entry(i).0) == i
  {
  }

  lemma {:induction false} PositionOfDatesEntry(i: nat)
    requires 24 <= i < 30
    ensures Position(Entry(i).0) == i
  {
  }

  lemma {:induction false} PositionOfSignaturesEntry(i: nat)
    requires 30 <= i < 33
    ensures Position(Entry(i).0) == i
  {
  }

  lemma {:induction false} PositionOfPropertyEntry(i: nat)
    requires 33 <= i < 37
    ensures Position(Entry(i).0) == i
  {
  }

  lemma {:induction false} PositionOfGeneralEntry(i: nat)
    requires 37 <= i < 42
    ensures Position(Entry(i).0) == i
  {
  }

  lemma PositionOfEntry(i: nat)
    requires i < DictSize
    ensures Position(Entry(i).0) == i
  {
    if i < 6 { PositionOfPersonalEntry(i); } else if i < 12 { PositionOfFinancialEntry(i); } else if i < 24 { PositionOfLegalEntry(i); } else if i < 30 { PositionOfDatesEntry(i); } else if i < 33 { PositionOfSignaturesEntry(i); } else if i < 37 { PositionOfPropertyEntry(i); } else { PositionOfGeneralEntry(i); }
  }

  /** FIELD_CATEGORIES lists every field type, each once. */
  lemma DictListsEveryTypeOnce(t: FieldType)
    ensures exists i :: 0 <= i < |FieldCategories| && FieldCategories[i].0 == t
    ensures forall i :: 0 <= i < |FieldCategories| && FieldCategories[i].0 == t ==> i == Position(t)
  {
    EntryAtPosition(t);
    assert FieldCategories[Position(t)].0 == t;
    forall i | 0 <= i < |FieldCategories| && FieldCategories[i].0 == t
      ensures i == Position(t)
    {
      PositionOfEntry(i);
    }
  }

  /** `dict.get(t)`: the category of the last item for `t`, if any. */
  function Lookup(entries: seq<(FieldType, FieldCategory)>, t: FieldType): (r: Option<FieldCategory>)
    ensures r.None? <==> forall i :: 0 <= i < |entries| ==> entries[i].0 != t
    ensures r.Some? ==> exists i :: 0 <= i < |entries| && entries[i] == (t, r.value)
  {
    if entries == [] then None
    else if entries[|entries| - 1].0 == t then Some(entries[|entries| - 1].1)
    else Lookup(entries[..|entries| - 1], t)
  }

  /** get_field_category: the dict's category, GENERAL for a type it lacks. */
  function GetFieldCategory(t: FieldType): (r: FieldCategory)
    ensures Lookup(FieldCategories, t) == Some(r)
  {
    DictListsEveryTypeOnce(t);
    match Lookup(FieldCategories, t)
    case Some(c) => c
    case None => General
  }

  /** The types of the items whose category is `c`, in item order. */
  function Filter(entries: seq<(FieldType, FieldCategory)>, c: FieldCategory): (r: seq<FieldType>)
    ensures |r| <= |entries|
    ensures forall t :: t in r <==> exists i :: 0 <= i < |entries| && entries[i] == (t, c)
  {
    if entries == [] then []
    else
      var init := entries[..|entries| - 1];
      var last := entries[|entries| - 1];
      assert forall i :: 0 <= i < |init| ==> init[i] == entries[i];
      Filter(init, c) + (if last.1 == c then [last.0] else [])
  }

  /** Over a table whose k-th item is for the type at position k, the
      comprehension lists the types in table order, so each at most once. */
  lemma {:induction false} FilterFollowsPositions(entries: seq<(FieldType, FieldCategory)>, c: FieldCategory)
    requires forall k :: 0 <= k < |entries| ==> Position(entries[k].0) == k
    ensures forall i, j :: 0 <= i < j < |Filter(entries, c)| ==>
              Position(Filter(entries, c)[i]) < Position(Filter(entries, c)[j])
  {
    if entries != [] {
      var init := entries[..|entries| - 1];
      var last := entries[|entries| - 1];
      assert forall k :: 0 <= k < |init| ==> init[k] == entries[k];
      FilterFollowsPositions(init, c);
      var front := Filter(init, c);
      forall t | t in front
        ensures Position(t) < |init|
      {
        var k :| 0 <= k < |init| && init[k] == (t, c);
        assert entries[k].0 == t;
      }
      var r := Filter(entries, c);
      assert r == front + (if last.1 == c then [last.0] else []);
      assert Position(last.0) == |init|;
      forall i, j | 0 <= i < j < |r|
        ensures Position(r[i]) < Position(r[j])
      {
        if j < |front| {
          assert r[i] == front[i] && r[j] == front[j];
        } else {
          assert r[i] == front[i] && front[i] in front && r[j] == last.0;
        }
      }
    }
  }

  /** get_fields_by_category */
  function GetFieldsByCategory(c: FieldCategory): (r: seq<FieldType>)
    ensures forall t :: t in r <==> (t, c) in FieldCategories
    ensures forall i, j :: 0 <= i < j < |r| ==> Position(r[i]) < Position(r[j])
  {
    forall k | 0 <= k < |FieldCategories|
      ensures Position(FieldCategories[k].0) == k
    {
      PositionOfEntry(k);
    }
    FilterFollowsPositions(FieldCategories, c);
    Filter(FieldCategories, c)
  }

  /** Every type has an item, so the GENERAL fallback is never what decides
      a category. */
  lemma EveryTypeCategorised(t: FieldType)
    ensures Lookup(FieldCategories, t).Some?
    ensures GetFieldCategory(t) == Entry(Position(t)).1
  {
    DictListsEveryTypeOnce(t);
    var c := Lookup(FieldCategories, t).value;
    var i :| 0 <= i < |FieldCategories| && FieldCategories[i] == (t, c);
  }

  /** A type is listed under a category exactly when that is its category. */
  lemma ByCategoryIff(c: FieldCategory, t: FieldType)
    ensures t in GetFieldsByCategory(c) <==> GetFieldCategory(t) == c
  {
    EveryTypeCategorised(t);
    var k := Position(t);
    EntryAtPosition(t);
    if t in GetFieldsByCategory(c) {
      var i :| 0 <= i < |FieldCategories| && FieldCategories[i] == (t, c);
      PositionOfEntry(i);
    } else {
      assert FieldCategories[k] == (t, Entry(k).1);
    }
  }

  /** So each type appears under its own category and under no other. */
  lemma OwnCategoryOnly(t: FieldType, c: FieldCategory)
    ensures t in GetFieldsByCategory(GetFieldCategory(t))
    ensures c != GetFieldCategory(t) ==> t !in GetFieldsByCategory(c)
  {
    ByCategoryIff(GetFieldCategory(t), t);
    ByCategoryIff(c, t);
  }

  // ---------------------------------------------------------------------------
  // get_field_validation_pattern

  const IsoDatePattern := @"^\d{4}-\d{2}-\d{2}$"

  /** The regular expression for the seven types that have one; the three
      agreement dates share the year-month-day pattern. */
  function GetFieldValidationPattern(t: FieldType): (r: Option<string>)
    ensures r.Some? <==> t in {PartyEmail, PartyPhone, AgreementDate, EffectiveDate, TerminationDate, PaymentAmount, InterestRate}
    ensures t in {AgreementDate, EffectiveDate, TerminationDate} <==> r == Some(IsoDatePattern)
  {
    match t
    case PartyEmail => Some(@"^[a-zA-Z0-9._%+-]+@[a-zA-Z0-9.-]+\.[a-zA-Z]{2,}$")
    case PartyPhone => Some(@"^\+?1?\d{10,14}$")
    case AgreementDate => Some(IsoDatePattern)
    case EffectiveDate => Some(IsoDatePattern)
    case TerminationDate => Some(IsoDatePattern)
    case PaymentAmount => Some(@"^\$?\d+(\.\d{2})?$")
    case InterestRate => Some(@"^\d+(\.\d+)?%?$")
    case _ => None
  }
}
