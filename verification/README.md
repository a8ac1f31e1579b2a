# Template and version store

This Dafny project models the template store of the document factory back end.
It covers the `internal/templates` package: the template and version records,
their validators, the in-memory repository that keeps templates and their
version histories, and the service that sequences the repository calls for
create, update and duplicate.

The model has seven modules:

- `Text`: ASCII versions of the three string helpers the store uses (trimming, lower-casing and substring search).
- `Models`: the records, the closed value sets, the error kinds and the two validators.
- `Options`: the listing, duplication and comparison records.
- `Listing`: the pure listing pipeline. A template passes a filter, the selection is ordered newest first, and a page is cut out of it.
- `History`: pure facts about one version history. It covers appending with clearing, counting current entries, lookup by number and copying a history under a clone.
- `Repository`: the class `InMemoryRepository`. It has a map from template identifier to template and a map from template identifier to history. Every repository method is one atomic step, since the source holds the store's lock for the whole body.
- `Service`: the class `TemplateService`, over one repository.

Clock readings and fresh identifiers are parameters of the operations that need them.

In these places the model follows the code as written:

- A validation failure is a plain error. It does not wrap the invalid-input sentinel, so it is not reported as invalid input. It is modelled as `Invalid(violation)`, distinct from `InvalidInput`. `InvalidInput` is returned only when an update targets a soft-deleted template.
- Restoring a version does not clear the current flag of the earlier entries. It also reuses the restored entry's identifier instead of drawing a new one. After a restore, a history can hold two current entries (`Repository.InMemoryRepository.RestoreVersion`, `History.AppendWithoutClearing`).
- Version numbers within a history are not unique once a history is copied into a duplicate (`History.CopiedHistoryRepeatsNumbers`).
- Comparing a version number with itself always reports not found. The scan files an entry numbered like the left side only as the left side.

## Model

| member | source | states |
|---|---|---|
| Models.ValidateTemplate | internal/templates/models.go:79-114 | passes exactly when every field rule holds; every failure is a validation error; an empty tenant always fails with the tenant error, and a bad name with a good tenant always fails with the name error; a description over 500 characters always fails |
| Models.ValidateVersion | internal/templates/models.go:117-131 | passes exactly when the template identifier is set, the number is positive, the schema URL and author are set; an empty template identifier fails with its own error |
| Models.FirstFailure | internal/templates/models.go:79-131 | a table of checks passes exactly when every check holds, and a failure names a check that does not hold |
| Models.FirstFailureStep | internal/templates/models.go:79-131 | running the checks from position k is the check at k or, if it holds, the checks from k+1 |
| Models.ValidateTemplateIsFirstFailure | internal/templates/models.go:79-114 | template validation returns the error of the first failing check, in the source's order |
| Models.ValidateVersionIsFirstFailure | internal/templates/models.go:117-131 | version validation returns the error of the first failing check, in the source's order |
| Models.ValidateIgnoresUncheckedFields | internal/templates/models.go:79-114 | the version counter, thumbnail, timestamps, deletion marker, counters and identifier never change the outcome, so version 0 validates |
| Models.PaddedShortNameRejected | internal/templates/models.go:83-85 | a two-character name padded with spaces is still too short, because the minimum counts the trimmed name |
| Models.PaddedLongNameRejected | internal/templates/models.go:83-85 | a 101-character name is rejected even though its trimmed length passes the minimum, because the maximum counts the untrimmed name |
| Text.TrimSpace | internal/templates/models.go:83 | the result is no longer than the input and is empty or starts and ends with a non-space character |
| Text.TrimSpaceIsOuterSlice | internal/templates/models.go:83 | the result is the slice of the input left after removing white space only, at both ends |
| Text.TrimUnpadded | internal/templates/models.go:83 | a string that neither starts nor ends with white space is its own trimmed form |
| Text.ToLower | internal/templates/service.go:186 | same length; each capital becomes the character 32 places on, its lower-case letter, every other character is unchanged, and no capital remains |
| Text.ToLowerIdempotent | internal/templates/service.go:186 | lower-casing twice is lower-casing once |
| Text.TrimLowerCommute | internal/templates/service.go:186 | trimming and lower-casing give the same result in either order |
| Text.Contains | internal/templates/service.go:197 | a text always contains each of its prefixes, so the empty search text is found everywhere; a pattern that is found is never longer than the text |
| Text.ContainsIffOccurs | internal/templates/service.go:197 | substring search succeeds exactly when the pattern occurs at some index |
| Listing.NormalizedSearch | internal/templates/service.go:186 | the search text as compared is no longer than the one given, has no white space at either end and no capital letter |
| Listing.NormalizedSearchIsTrimmedLower | internal/templates/service.go:186 | the compared search text is the lower-cased slice of the given text between its outer white space, and it is empty exactly when the given text is blank |
| Listing.MatchesBySubstring | internal/templates/service.go:186-199 | a template is selected exactly when it belongs to the tenant, is live or deleted ones are asked for, has the requested type if one is given, and the normalized search is empty or occurs at some index of its lower-cased name or description |
| Listing.NormalizedSearchIgnoresCase | internal/templates/service.go:186 | the normalized search text is the same for the text and its lower-cased form |
| Listing.SearchIgnoresCase | internal/templates/service.go:186-199 | the search is case-insensitive: lower-casing the search text, or the template's name and description, selects exactly the same templates |
| Listing.SoftDeleteHidesRestoreReveals | internal/templates/service.go:191-193 | a deleted template is hidden unless deleted ones are asked for, and clearing the marker never hides one |
| Listing.UnfilteredSelectsTenant | internal/templates/service.go:186-201 | with no search, no type filter and deleted ones included, exactly the tenant's templates are selected |
| Listing.InsertByRecency | internal/templates/service.go:202-204 | inserting adds exactly one occurrence of the element and keeps every other element's count |
| Listing.InsertMembers | internal/templates/service.go:202-204 | inserting brings in no element other than the inserted one |
| Listing.InsertKeepsOrder | internal/templates/service.go:202-204 | inserting into a newest-first sequence keeps it newest first |
| Listing.SortByRecency | internal/templates/service.go:202-204 | the sorted selection is newest first and a permutation of the selection |
| Listing.Paginate | internal/templates/service.go:205-213 | an offset past the end gives an empty page; otherwise the page is the contiguous window at the offset, no longer than a positive limit, running to the end when the limit is not positive or reaches past the end |
| Listing.PaginateEverything | internal/templates/service.go:205-213 | offset 0 without a limit returns the whole ordered selection |
| Listing.PagesTile | internal/templates/service.go:205-213 | a page followed by everything after it is everything from the page's start |
| Listing.PageMembers | internal/templates/service.go:205-213 | a page holds only templates of the ordered selection it was cut from |
| Listing.PageKeepsOrder | internal/templates/service.go:202-213 | a page of a newest-first selection is newest first |
| Listing.PaginateAsWritten | internal/templates/service.go:205-213 | with the window end as a wrapping 64-bit sum, the page panics exactly when the offset is within the selection, the limit is positive and offset plus limit exceeds the largest 64-bit int; otherwise it is the page of the overflow-free definition |
| Listing.HugeLimitPanics | internal/templates/service.go:207-213 | with at least one matching template, offset 1 and the largest limit panics, where the overflow-free page is everything after the first |
| History.ClearCurrent | internal/templates/service.go:368-370 | same length; every entry loses its current flag and nothing else |
| History.Append | internal/templates/service.go:368-371 | one entry longer, the given entry last, and every earlier entry kept up to its current flag |
| History.ClearedHasNoCurrent | internal/templates/service.go:368-370 | after clearing, no entry is current |
| History.AppendLeavesOneCurrent | internal/templates/service.go:368-371 | after an append, the appended entry is the only current one |
| History.AppendWithoutClearing | internal/templates/service.go:399-403 | appending a current entry without clearing adds one to the number of current entries |
| History.RestoreLeavesTwoCurrent | internal/templates/service.go:399-403 | restoring a current entry leaves a history with at least two current entries |
| History.CurrentIsCounted | internal/templates/service.go:399-403 | a history with a current entry counts at least one |
| History.AppendExtends | internal/templates/service.go:368-403 | both kinds of append keep every earlier entry, up to its current flag |
| History.FirstWithNumber | internal/templates/service.go:384-390 | finds the first entry with the number, or reports that none has it |
| History.LastWithNumber | internal/templates/service.go:414-425 | finds the last entry with the number, or reports that none has it |
| History.AppendAllSnoc | internal/templates/service.go:110-119 | appending one more entry after several is appending them all |
| History.AppendAllPrefixStep | internal/templates/service.go:110-119 | each turn of the copy loop appends the next entry |
| History.AppendAllShape | internal/templates/service.go:110-119 | appending several entries keeps all of them in order, every one superseded but the last |
| History.AppendAllExtends | internal/templates/service.go:110-119 | appending several entries keeps every earlier entry |
| History.CopyEntry | internal/templates/service.go:111-115 | the copy is the source entry with the clone's identifier, a fresh version identifier, and the clone's version only when it was current; it is well formed when the source entry is and the clone identifier is set, and never well formed with an empty clone identifier |
| History.Copies | internal/templates/service.go:110-115 | one copy per source entry, the i-th being the i-th source entry moved to the clone under the i-th fresh identifier, renumbered only if it was current |
| History.CopiesRenumberOnlyCurrent | internal/templates/service.go:110-115 | a copy keeps its number unless it was current, in which case it takes the clone's version; schema, summary and flag are kept |
| History.CopiedHistoryRepeatsNumbers | internal/templates/service.go:105-119 | a copied history can hold two entries numbered 1 |
| Repository.CloneName | internal/templates/service.go:317-321 | the override if given, else the source name followed by " Copy" |
| Repository.CloneOf | internal/templates/service.go:307-324 | the clone has the fresh identifier, the source's tenant, version 1, no documents, no deletion or last use, the new timestamps and authors, the chosen name, the description replaced only by a non-empty override, and the source's type, size, orientation, schema and thumbnail |
| Repository.RestoredTemplate | internal/templates/service.go:394-398 | the version moves forward by exactly one and the schema and author come from the restored entry; every other field of the template is kept as it was |
| Repository.DuplicatedEntry | internal/templates/service.go:332-341 | the clone's first entry is current, numbered with the clone's version, carries its schema, the given fresh version identifier, the author and time of the duplicate and the summary naming the source; for a valid clone with a positive version and an author it is well formed exactly when the clone's identifier is set |
| Repository.RestoredEntry | internal/templates/service.go:399-402 | the restored copy keeps the entry's identifiers and every other field, is current, takes the new number and the restore time, and is well formed when the entry was and the new number is positive |
| Repository.StoreNamed | internal/templates/service.go:368-371 | storing a history whose entries name its key keeps every history named after its key |
| Repository.InMemoryRepository.constructor | internal/templates/service.go:13-18 | the store starts empty and consistent |
| Repository.InMemoryRepository.ListTemplates | internal/templates/service.go:182-214 | the page is the window of some newest-first permutation of the matching stored templates; every template on it matches and is stored |
| Repository.InMemoryRepository.SelectMatching | internal/templates/service.go:185-201 | the filtering loop collects each matching stored template exactly once |
| Repository.InMemoryRepository.PickStep | internal/templates/service.go:187-201 | one turn of the filtering loop keeps the loop invariant, and never picks a template twice |
| Repository.InMemoryRepository.PickedIsSelection | internal/templates/service.go:187-201 | once every key has been seen, the picked templates are the selection |
| Repository.InMemoryRepository.CountTemplates | internal/templates/service.go:216-237 | the count is the size of the same selection the listing uses |
| Repository.InMemoryRepository.GetTemplate | internal/templates/service.go:239-248 | the template if stored and owned by the tenant, otherwise not found |
| Repository.InMemoryRepository.CreateTemplate | internal/templates/service.go:250-259 | conflict without change when the identifier is taken, otherwise inserted as given |
| Repository.InMemoryRepository.UpdateTemplate | internal/templates/service.go:261-271 | not found without change unless stored and owned by the same tenant, otherwise replaced as given |
| Repository.InMemoryRepository.SoftDeleteTemplate | internal/templates/service.go:273-284 | not found without change, or only the deletion marker is set |
| Repository.InMemoryRepository.RestoreTemplate | internal/templates/service.go:286-297 | not found without change, or only the deletion marker is cleared; on an active template nothing changes |
| Repository.InMemoryRepository.DuplicateTemplate | internal/templates/service.go:299-345 | not found, a validation error or conflict without change; otherwise the clone is inserted with a one-entry history, and the source and other histories are left as they were |
| Repository.InMemoryRepository.ListVersions | internal/templates/service.go:347-356 | the template's history if owned, otherwise not found |
| Repository.InMemoryRepository.CreateVersion | internal/templates/service.go:358-374 | not found or the validation error without change; otherwise the earlier entries lose their current flag and the entry is appended last |
| Repository.InMemoryRepository.RestoreVersion | internal/templates/service.go:376-405 | not found without change when the template or number is missing; otherwise the first entry with the number is restored, the version moves forward by one, a current copy under the new number is appended without clearing, and the count of current entries grows by one |
| Repository.InMemoryRepository.CompareVersions | internal/templates/service.go:407-436 | succeeds exactly when the template is owned, the numbers differ and both occur; returns the last entry of each number and the summary of both schema URLs |
| Repository.FindFirstNumbered | internal/templates/service.go:384-390 | the scan finds the first entry with the number |
| Repository.ClearFlags | internal/templates/service.go:368-370 | the loop clears every current flag and nothing else |
| Service.ApplyPatch | internal/httpapi/templates_handler.go:121-142 | only the seven patchable fields change; the description is always replaced; each of the other six takes the patch's value when that is non-empty and keeps the stored one otherwise |
| Service.PatchIdempotent | internal/httpapi/templates_handler.go:121-142 | applying a patch twice is applying it once |
| Service.EmptyPatchKeepsTemplate | internal/httpapi/templates_handler.go:121-142 | an empty patch that repeats the description changes nothing |
| Service.Stamped | internal/templates/service.go:33-37 | fresh identifier, both timestamps now, version 1, nothing else changed |
| Service.Revised | internal/templates/service.go:70-75 | the patched template, one version further, with author and time updated; every field the patch does not touch, identity, tenant, creation and deletion marker included, is kept |
| Service.InitialEntry | internal/templates/service.go:45-54 | the first entry is current, numbered with the template's version, carries the given fresh version identifier, its schema and author, the creation time and the summary "initial version"; for a valid template at version 1 it is well formed exactly when the identifier is set |
| Service.RevisionEntry | internal/templates/service.go:83-92 | an update's entry is current, numbered with the new version, carries the given fresh version identifier and change summary, the schema, the updating author and the update time; for a valid template it is well formed exactly when the identifier is set and the version is positive |
| Service.Accepted | internal/templates/service.go:110-119 | the length of the prefix of copies the store accepts before the first one it refuses |
| Service.CopyOutcome | internal/templates/service.go:110-121 | a duplicate with copies succeeds with the clone exactly when every copy is accepted; otherwise it fails with the validation error of the first refused copy, all copies before it being accepted |
| Service.SelectionSize | internal/templates/service.go:135-145 | a listing without paging holds as many templates as the selection |
| Service.TemplateService.constructor | internal/templates/service.go:27-29 | the service wraps the given repository |
| Service.TemplateService.CreateTemplate | internal/templates/service.go:32-59 | validation error or conflict without change; otherwise the stamped template is stored with version 1 and a single current "initial version" entry numbered 1 with its schema; an empty identifier leaves the template stored without history |
| Service.TemplateService.UpdateTemplate | internal/templates/service.go:62-97 | not found or, for a deleted template, invalid input without change; otherwise the revised template is stored one version further, and its entry is appended as the only current entry numbered with the new version, unless the store refuses it, in which case the template stays ahead of its history |
| Service.TemplateService.DuplicateTemplate | internal/templates/service.go:100-122 | as the store's duplicate; with copies, the clone's history is its own entry followed by the accepted copies, and the result is the clone or the first refused copy's error |
| Service.TemplateService.CopyHistory | internal/templates/service.go:105-119 | the copy loop appends the accepted prefix of the copies and reports the first refusal |
| Service.TemplateService.RestoreTemplate | internal/templates/service.go:125-127 | passes the store's restore through |
| Service.TemplateService.DeleteTemplate | internal/templates/service.go:130-132 | passes the store's soft delete through |
| Service.TemplateService.ListTemplates | internal/templates/service.go:135-145 | a page of the ordered selection and the size of the selection; the first page without a limit holds exactly that many |
| Service.TemplateService.GetTemplate | internal/templates/service.go:148-150 | passes the store's lookup through |
| Service.TemplateService.ListVersions | internal/templates/service.go:153-155 | passes the store's history listing through |
| Service.TemplateService.RestoreVersion | internal/templates/service.go:157-159 | not found without change when the template or number is missing; otherwise the first entry with the number is restored, the template moves forward by one version, the restored copy under the new number is appended and the count of current entries grows by one; the store stays consistent, only evolves, and the tenant keeps owning the template |
| Service.TemplateService.CompareVersions | internal/templates/service.go:161-163 | succeeds exactly when the store's comparison does; on success the two entries are the last entries with the two numbers and the summary names both schema URLs |

## Left out

- Locking and cancellation contexts are not modelled. Each repository method is one atomic step, and each service operation runs without interleaving with any other request. The source holds the lock only inside each store call, so two concurrent updates of one template can both read version v, both store v+1 and append two entries numbered v+1; the model cannot show this lost update.
- The clock and the identifier generator are parameters. `newID` is not part of this model, so a fresh identifier may collide, which is the conflict path.
- Timestamps are integers, and the listing's "after" comparison is `>` on them.
- String handling is ASCII only. Lengths count characters, whereas the source's `len` counts UTF-8 bytes. Unicode white space and case mapping are not modelled.
- Error messages and the wrapping of the validation error in the service's create are not modelled. A validation error carries only which check failed.
- Integer overflow of the version counter is not modelled.
- Listing.Paginate: computes the end of the page without the 64-bit overflow of the source; the overflow is recorded under Findings and modelled by `Listing.PaginateAsWritten`.
- Repository.InMemoryRepository.ListTemplates: uses the overflow-free `Listing.Paginate`, so it does not panic for a limit near the largest 64-bit int as the source does.
- Listing.SortByRecency: ties are broken in one fixed way, whereas the source's sort leaves the order of equal timestamps unspecified. Its contract states only newest-first order and permutation, which holds for every order the source may produce.
- Repository.InMemoryRepository.ListTemplates: requires a non-negative offset. A negative offset makes the source's slicing panic, and the HTTP layer never passes one.
- The unused helper `withTenantTemplates` (internal/templates/service.go:172-180) is not modelled.
- Service.TemplateService.UpdateTemplate: the mutation is the HTTP layer's field patch, which never fails, so the mutation-error return is not modelled.
- Service.TemplateService.DuplicateTemplate: the error branch after listing the source's history cannot be taken, because the source is still stored. It is left out of the match.
- The HTTP handlers, the router and the program's start-up are transport and wiring, and are not modelled.

## Findings

| source | as written | input that shows it | evidently intended | confidence | as-written member | corrected member |
|---|---|---|---|---|---|---|
| internal/templates/service.go:209-213 | the page end `start + opt.Limit` is a 64-bit sum; for a limit near the largest `int` it wraps to a negative end, which passes the "past the end" test and makes `result[start:end]` panic | at least one matching template, offset 1, limit 9223372036854775807 (the HTTP layer at internal/httpapi/templates_handler.go:466-468 accepts any positive limit) | the rest of the ordered selection after the offset | not executed | Listing.PaginateAsWritten, Listing.HugeLimitPanics | Listing.Paginate |
