/**
 * The option and result records of the repository interface: what a listing
 * asks for, how a duplicate is made, and what a comparison returns.
 */
module Options {
  import opened Models

  /** Filter and page selection for listing and counting. An empty `documentType` means "any". */
  datatype ListOptions = ListOptions(
    tenantId: string,
    search: string,
    documentType: DocumentType,
    includeDeleted: bool,
    limit: int,
    offset: int)

  /** How a clone is made. Empty overrides mean "keep the default". */
  datatype DuplicateOptions = DuplicateOptions(
    createdBy: string,
    updatedBy: string,
    copyVersions: bool,
    nameOverride: string,
    descriptionOverride: string)

  /** Two history entries of one template side by side, with a one-line summary. */
  datatype VersionComparison = VersionComparison(
    templateId: string,
    left: TemplateVersion,
    right: TemplateVersion,
    summary: string)
}
