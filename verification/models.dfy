/**
 * The records of the template store (a template and one entry of its version
 * history), the three closed value sets, the error kinds, and the two
 * structural validators.
 */
module Models {
  import opened Text

  datatype Option<T> = None | Some(value: T)

  /** Document types, page sizes and orientations are plain strings with a closed set of accepted values. */
  type DocumentType = string
  type PageSize = string
  type Orientation = string

  const Warranty: DocumentType := "warranty"
  const Instruction: DocumentType := "instruction"
  const Certificate: DocumentType := "certificate"
  const Label: DocumentType := "label"
  const DocumentTypes: set<DocumentType> := {Warranty, Instruction, Certificate, Label}

  const A4: PageSize := "A4"
  const A5: PageSize := "A5"
  const Letter: PageSize := "Letter"
  const PageSizes: set<PageSize> := {A4, A5, Letter}

  const Portrait: Orientation := "portrait"
  const Landscape: Orientation := "landscape"
  const Orientations: set<Orientation> := {Portrait, Landscape}

  const MinNameLength := 3
  const MaxNameLength := 100
  const MaxDescriptionLength := 500

  /** The current, editable state of a template. Timestamps are integers; `None` stands for a nil pointer. */
  datatype Template = Template(
    templateId: string,
    tenantId: string,
    name: string,
    description: string,
    documentType: DocumentType,
    pageSize: PageSize,
    orientation: Orientation,
    jsonSchemaUrl: string,
    thumbnailUrl: string,
    version: int,
    createdBy: string,
    updatedBy: string,
    createdAt: int,
    updatedAt: int,
    deletedAt: Option<int>,
    documentsCount: int,
    lastUsedAt: Option<int>)

  /** One entry of a template's version history. */
  datatype TemplateVersion = TemplateVersion(
    versionId: string,
    templateId: string,
    versionNumber: int,
    changeSummary: string,
    jsonSchemaUrl: string,
    createdBy: string,
    createdAt: int,
    isCurrent: bool)

  /** The field-level messages the validators produce, one per check. */
  datatype Violation =
    | TenantIdRequired
    | NameLength
    | DescriptionTooLong
    | DocumentTypeInvalid
    | PageSizeInvalid
    | OrientationInvalid
    | SchemaUrlRequired
    | CreatedByRequired
    | UpdatedByRequired
    | TemplateIdRequired
    | VersionNumberNotPositive

  /**
   * The failures the store and the service report. `NotFound`, `Conflict` and
   * `InvalidInput` are the three sentinels; a validator's message is a plain
   * error that wraps none of them, hence its own case.
   */
  datatype Error = NotFound | Conflict | InvalidInput | Invalid(violation: Violation)

  /** An error return without a value (`error` alone in Go). */
  datatype Outcome = Pass | Fail(error: Error)

  /** A value-or-error return (`(*T, error)` in Go). */
  datatype Result<T> = Ok(value: T) | Err(error: Error)

  /** The name check: at least 3 characters once trimmed, at most 100 as given. */
  predicate NameAccepted(name: string) {
    |TrimSpace(name)| >= MinNameLength && |name| <= MaxNameLength
  }

  /** Every field rule of a template at once, in no particular order. */
  predicate WellFormedTemplate(t: Template) {
    && t.tenantId != ""
    && NameAccepted(t.name)
    && |t.description| <= MaxDescriptionLength
    && t.documentType in DocumentTypes
    && t.pageSize in PageSizes
    && t.orientation in Orientations
    && t.jsonSchemaUrl != ""
    && t.createdBy != ""
    && t.updatedBy != ""
  }

  /** Every field rule of a history entry at once. */
  predicate WellFormedVersion(v: TemplateVersion) {
    v.templateId != "" && v.versionNumber > 0 && v.jsonSchemaUrl != "" && v.createdBy != ""
  }

  /** Template validation: a guard chain whose first failing check names the error. */
  function ValidateTemplate(t: Template): (r: Outcome)
    ensures r == Pass <==> WellFormedTemplate(t)
    ensures r.Fail? ==> r.error.Invalid?
    ensures t.tenantId == "" ==> r == Fail(Invalid(TenantIdRequired))
    ensures t.tenantId != "" && !NameAccepted(t.name) ==> r == Fail(Invalid(NameLength))
    ensures |t.description| > MaxDescriptionLength ==> r.Fail?
  {
    if t.tenantId == "" then Fail(Invalid(TenantIdRequired))
    else if |TrimSpace(t.name)| < MinNameLength || |t.name| > MaxNameLength then Fail(Invalid(NameLength))
    else if |t.description| > MaxDescriptionLength then Fail(Invalid(DescriptionTooLong))
    else if t.documentType !in DocumentTypes then Fail(Invalid(DocumentTypeInvalid))
    else if t.pageSize !in PageSizes then Fail(Invalid(PageSizeInvalid))
    else if t.orientation !in Orientations then Fail(Invalid(OrientationInvalid))
    else if t.jsonSchemaUrl == "" then Fail(Invalid(SchemaUrlRequired))
    else if t.createdBy == "" then Fail(Invalid(CreatedByRequired))
    else if t.updatedBy == "" then Fail(Invalid(UpdatedByRequired))
    else Pass
  }

  /** History-entry validation, again first failing check first. */
  function ValidateVersion(v: TemplateVersion): (r: Outcome)
    ensures r == Pass <==> WellFormedVersion(v)
    ensures r.Fail? ==> r.error.Invalid?
    ensures v.templateId == "" ==> r == Fail(Invalid(TemplateIdRequired))
  {
    if v.templateId == "" then Fail(Invalid(TemplateIdRequired))
    else if v.versionNumber <= 0 then Fail(Invalid(VersionNumberNotPositive))
    else if v.jsonSchemaUrl == "" then Fail(Invalid(SchemaUrlRequired))
    else if v.createdBy == "" then Fail(Invalid(CreatedByRequired))
    else Pass
  }

  // An independent, table-driven reading of "the first failing check decides".

  datatype Rule = Rule(holds: bool, violation: Violation)

  /** The outcome of a list of checks run front to back, stopping at the first that fails. */
  function FirstFailure(rules: seq<Rule>): (r: Outcome)
    ensures r == Pass <==> forall i :: 0 <= i < |rules| ==> rules[i].holds
    ensures r.Fail? ==> exists k :: 0 <= k < |rules| && !rules[k].holds && r.error == Invalid(rules[k].violation)
  {
    if rules == [] then Pass
    else if !rules[0].holds then Fail(Invalid(rules[0].violation))
    else
      var rest := FirstFailure(rules[1..]);
      assert forall i :: 1 <= i < |rules| ==> rules[i] == rules[1..][i - 1];
      rest
  }

  /** One step of `FirstFailure`, taken at position `k`. */
  lemma FirstFailureStep(rules: seq<Rule>, k: nat)
    requires k < |rules|
    ensures FirstFailure(rules[k..]) ==
      if !rules[k].holds then Fail(Invalid(rules[k].violation)) else FirstFailure(rules[k + 1..])
  {
    assert rules[k..][0] == rules[k];
    assert rules[k..][1..] == rules[k + 1..];
  }

  /** The template checks in the order the source runs them. */
  function TemplateRules(t: Template): seq<Rule> {
    [ Rule(t.tenantId != "", TenantIdRequired),
      Rule(NameAccepted(t.name), NameLength),
      Rule(|t.description| <= MaxDescriptionLength, DescriptionTooLong),
      Rule(t.documentType in DocumentTypes, DocumentTypeInvalid),
      Rule(t.pageSize in PageSizes, PageSizeInvalid),
      Rule(t.orientation in Orientations, OrientationInvalid),
      Rule(t.jsonSchemaUrl != "", SchemaUrlRequired),
      Rule(t.createdBy != "", CreatedByRequired),
      Rule(t.updatedBy != "", UpdatedByRequired) ]
  }

  /** The history-entry checks in the order the source runs them. */
  function VersionRules(v: TemplateVersion): seq<Rule> {
    [ Rule(v.templateId != "", TemplateIdRequired),
      Rule(v.versionNumber > 0, VersionNumberNotPositive),
      Rule(v.jsonSchemaUrl != "", SchemaUrlRequired),
      Rule(v.createdBy != "", CreatedByRequired) ]
  }

  /** The error `ValidateTemplate` returns is that of the first rule, in source order, that fails. */
  lemma ValidateTemplateIsFirstFailure(t: Template)
    ensures ValidateTemplate(t) == FirstFailure(TemplateRules(t))
  {
    var rs := TemplateRules(t);
    assert rs[0..] == rs && rs[9..] == [];
    FirstFailureStep(rs, 0);
    FirstFailureStep(rs, 1);
    FirstFailureStep(rs, 2);
    FirstFailureStep(rs, 3);
    FirstFailureStep(rs, 4);
    FirstFailureStep(rs, 5);
    FirstFailureStep(rs, 6);
    FirstFailureStep(rs, 7);
    FirstFailureStep(rs, 8);
  }

  /** The error `ValidateVersion` returns is that of the first rule, in source order, that fails. */
  lemma ValidateVersionIsFirstFailure(v: TemplateVersion)
    ensures ValidateVersion(v) == FirstFailure(VersionRules(v))
  {
    var rs := VersionRules(v);
    assert rs[0..] == rs && rs[4..] == [];
    FirstFailureStep(rs, 0);
    FirstFailureStep(rs, 1);
    FirstFailureStep(rs, 2);
    FirstFailureStep(rs, 3);
  }

  /**
   * The version counter, the thumbnail, the timestamps, the deletion marker, the
   * usage counters and the identifier are never looked at: a template with
   * version 0 validates exactly as it would with version 1.
   */
  lemma ValidateIgnoresUncheckedFields(t: Template, version: int, thumbnailUrl: string, createdAt: int,
                                       updatedAt: int, deletedAt: Option<int>, documentsCount: int,
                                       lastUsedAt: Option<int>, templateId: string)
    ensures ValidateTemplate(t) == ValidateTemplate(t.(version := version, thumbnailUrl := thumbnailUrl,
      createdAt := createdAt, updatedAt := updatedAt, deletedAt := deletedAt,
      documentsCount := documentsCount, lastUsedAt := lastUsedAt, templateId := templateId))
  {
  }

  /** Padding does not rescue a short name: only the trimmed length counts towards the minimum. */
  lemma PaddedShortNameRejected(t: Template)
    requires t.tenantId != "" && t.name == "  ab  "
    ensures ValidateTemplate(t) == Fail(Invalid(NameLength))
  {
    assert LeadingSpaces(t.name[2..]) == 0;
    assert LeadingSpaces(t.name) == 2;
  }

  /** Padding counts against the maximum: only the untrimmed length counts there. */
  lemma PaddedLongNameRejected(t: Template)
    requires t.tenantId != "" && |t.name| == MaxNameLength + 1
    requires forall i :: 0 <= i < MaxNameLength ==> t.name[i] == 'x'
    ensures |TrimSpace(t.name)| >= MinNameLength
    ensures ValidateTemplate(t) == Fail(Invalid(NameLength))
  {
    TrimSpaceWindow(t.name);
    assert !IsSpace(t.name[0]) && !IsSpace(t.name[MaxNameLength - 1]);
  }
}
