/**
 * The template service: it stamps identifiers, timestamps and version numbers
 * onto templates and sequences the store's calls. The model assumes that
 * nothing else runs between two calls of one service operation; the source
 * makes no such guarantee, since each store call takes the lock on its own.
 * The calls are separate steps, so a later call that fails leaves the effects
 * of the earlier ones in place.
 */
module Service {
  import opened Models
  import opened Options
  import opened Listing
  import opened History
  import opened Repository

  /**
   * The field patch an update applies to the stored template. An empty field
   * keeps the stored value, except the description, which is always replaced.
   */
  datatype Patch = Patch(
    name: string,
    description: string,
    documentType: DocumentType,
    pageSize: PageSize,
    orientation: Orientation,
    jsonSchemaUrl: string,
    thumbnailUrl: string)

  function ApplyPatch(t: Template, p: Patch): (r: Template)
    ensures r.(name := t.name, description := t.description, documentType := t.documentType,
               pageSize := t.pageSize, orientation := t.orientation,
               jsonSchemaUrl := t.jsonSchemaUrl, thumbnailUrl := t.thumbnailUrl) == t
    ensures r.description == p.description
    ensures r.name == (if p.name == "" then t.name else p.name)
    ensures r.jsonSchemaUrl == (if p.jsonSchemaUrl == "" then t.jsonSchemaUrl else p.jsonSchemaUrl)
    ensures r.documentType == (if p.documentType == "" then t.documentType else p.documentType)
    ensures r.pageSize == (if p.pageSize == "" then t.pageSize else p.pageSize)
    ensures r.orientation == (if p.orientation == "" then t.orientation else p.orientation)
    ensures r.thumbnailUrl == (if p.thumbnailUrl == "" then t.thumbnailUrl else p.thumbnailUrl)
  {
    t.(name := if p.name != "" then p.name else t.name,
       description := p.description,
       documentType := if p.documentType != "" then p.documentType else t.documentType,
       pageSize := if p.pageSize != "" then p.pageSize else t.pageSize,
       orientation := if p.orientation != "" then p.orientation else t.orientation,
       jsonSchemaUrl := if p.jsonSchemaUrl != "" then p.jsonSchemaUrl else t.jsonSchemaUrl,
       thumbnailUrl := if p.thumbnailUrl != "" then p.thumbnailUrl else t.thumbnailUrl)
  }

  /** Applying the same patch twice is applying it once. */
  lemma PatchIdempotent(t: Template, p: Patch)
    ensures ApplyPatch(ApplyPatch(t, p), p) == ApplyPatch(t, p)
  {
  }

  /** A patch that only repeats the stored description changes nothing. */
  lemma EmptyPatchKeepsTemplate(t: Template)
    ensures ApplyPatch(t, Patch("", t.description, "", "", "", "", "")) == t
  {
  }

  /** The template a create stores: fresh identifier, both timestamps now, version 1. */
  function Stamped(tpl: Template, newId: string, now: int): (t: Template)
    ensures t.templateId == newId && t.version == 1 && t.createdAt == now && t.updatedAt == now
    ensures t.(templateId := tpl.templateId, version := tpl.version,
               createdAt := tpl.createdAt, updatedAt := tpl.updatedAt) == tpl
  {
    tpl.(templateId := newId, createdAt := now, updatedAt := now, version := 1)
  }

  /**
   * The history entry a create appends: current, numbered with the template's
   * version, carrying its schema and author. Once the template has passed
   * validation with version 1, the store refuses this entry only for an empty
   * identifier.
   */
  function InitialEntry(t: Template, versionId: string, now: int): (e: TemplateVersion)
    ensures e.isCurrent && e.templateId == t.templateId && e.versionNumber == t.version
    ensures e.jsonSchemaUrl == t.jsonSchemaUrl && e.createdBy == t.createdBy && e.changeSummary == "initial version"
    ensures e.versionId == versionId && e.createdAt == now
    ensures WellFormedTemplate(t) && t.version == 1 ==> (WellFormedVersion(e) <==> t.templateId != "")
  {
    TemplateVersion(versionId, t.templateId, t.version, "initial version", t.jsonSchemaUrl, t.createdBy, now, true)
  }

  /** The template an update stores: patched, one version further, touched now by `updatedBy`. */
  function Revised(t: Template, p: Patch, updatedBy: string, now: int): (u: Template)
    ensures u.version == t.version + 1 && u.updatedBy == updatedBy && u.updatedAt == now
    ensures u.templateId == t.templateId && u.tenantId == t.tenantId && u.deletedAt == t.deletedAt
    ensures u.createdAt == t.createdAt && u.createdBy == t.createdBy
    ensures u.(version := t.version, updatedBy := t.updatedBy, updatedAt := t.updatedAt) == ApplyPatch(t, p)
  {
    ApplyPatch(t, p).(version := t.version + 1, updatedBy := updatedBy, updatedAt := now)
  }

  /**
   * The history entry an update appends: current, numbered with the new
   * version, carrying the new schema and the updater. For a valid template the
   * store refuses it only for an empty identifier or a non-positive version.
   */
  function RevisionEntry(u: Template, versionId: string, changeSummary: string): (e: TemplateVersion)
    ensures e.isCurrent && e.templateId == u.templateId && e.versionNumber == u.version
    ensures e.jsonSchemaUrl == u.jsonSchemaUrl && e.createdBy == u.updatedBy && e.createdAt == u.updatedAt
    ensures e.versionId == versionId && e.changeSummary == changeSummary
    ensures WellFormedTemplate(u) ==> (WellFormedVersion(e) <==> u.templateId != "" && u.version > 0)
  {
    TemplateVersion(versionId, u.templateId, u.version, changeSummary, u.jsonSchemaUrl, u.updatedBy, u.updatedAt, true)
  }

  class TemplateService {
    const repo: InMemoryRepository

    constructor (repo: InMemoryRepository)
      ensures this.repo == repo
    {
      this.repo := repo;
    }

    /**
     * Stamps, validates and stores a new template, then gives it its first
     * history entry. The two store calls are separate: when the second one
     * refuses the entry (only possible for an empty identifier), the template
     * stays stored without a history and the call still reports the error.
     */
    method CreateTemplate(tpl: Template, newId: string, versionId: string, now: int) returns (r: Result<Template>)
      requires repo.Valid()
      modifies repo
      ensures repo.Valid()
      ensures var t := Stamped(tpl, newId, now);
        && (ValidateTemplate(t).Fail? ==>
              r == Err(ValidateTemplate(t).error) && Unchanged())
        && (ValidateTemplate(t).Pass? && newId in old(repo.templates) ==>
              r == Err(Conflict) && Unchanged())
        && (ValidateTemplate(t).Pass? && newId !in old(repo.templates) ==>
              repo.templates == old(repo.templates)[newId := t])
        && (ValidateTemplate(t).Pass? && newId !in old(repo.templates) && newId != "" ==>
              && r == Ok(t)
              && repo.versions == old(repo.versions)[newId := [InitialEntry(t, versionId, now)]])
        && (ValidateTemplate(t).Pass? && newId !in old(repo.templates) && newId == "" ==>
              r == Err(Invalid(TemplateIdRequired)) && repo.versions == old(repo.versions))
      ensures r.Ok? ==>
        && r.value.version == 1 && repo.templates[newId] == r.value
        && |repo.HistoryOf(newId)| == 1
        && repo.HistoryOf(newId)[0].versionNumber == 1 && repo.HistoryOf(newId)[0].isCurrent
        && repo.HistoryOf(newId)[0].jsonSchemaUrl == r.value.jsonSchemaUrl
        && repo.HistoryOf(newId)[0].changeSummary == "initial version"
    {
      var t := Stamped(tpl, newId, now);
      var check := ValidateTemplate(t);
      if check.Fail? {
        return Err(check.error);
      }
      var created := repo.CreateTemplate(t);
      if created.Err? {
        return created;
      }
      assert newId !in old(repo.versions);
      var entry := InitialEntry(t, versionId, now);
      var added := repo.CreateVersion(t.tenantId, entry);
      if added.Err? {
        return Err(added.error);
      }
      assert Append([], entry) == [entry];
      r := created;
    }

    /**
     * Applies a patch to a live template, moves it one version forward and
     * appends the matching history entry. A soft-deleted template is refused as
     * invalid input. The stored template is replaced before the entry is
     * appended, so a refused entry leaves the template ahead of its history.
     */
    method UpdateTemplate(tenantId: string, id: string, patch: Patch, updatedBy: string,
                          changeSummary: string, versionId: string, now: int) returns (r: Result<Template>)
      requires repo.Valid()
      modifies repo
      ensures repo.Valid()
      ensures !old(repo.Owns(tenantId, id)) ==> r == Err(NotFound) && Unchanged()
      ensures old(repo.Owns(tenantId, id)) && old(repo.templates[id].deletedAt.Some?) ==>
        r == Err(InvalidInput) && Unchanged()
      ensures old(repo.Owns(tenantId, id)) && old(repo.templates[id].deletedAt.None?) ==>
        var u := Revised(old(repo.templates[id]), patch, updatedBy, now);
        var e := RevisionEntry(u, versionId, changeSummary);
        && (ValidateTemplate(u).Fail? ==> r == Err(ValidateTemplate(u).error) && Unchanged())
        && (ValidateTemplate(u).Pass? ==> repo.templates == old(repo.templates)[id := u])
        && (ValidateTemplate(u).Pass? && ValidateVersion(e).Pass? ==>
              r == Ok(u) && repo.versions == old(repo.versions)[id := Append(old(repo.HistoryOf(id)), e)])
        && (ValidateTemplate(u).Pass? && ValidateVersion(e).Fail? ==>
              r == Err(ValidateVersion(e).error) && repo.versions == old(repo.versions))
      ensures r.Ok? ==>
        && r.value.version == old(repo.templates[id].version) + 1
        && repo.templates[id] == r.value
        && |repo.HistoryOf(id)| == |old(repo.HistoryOf(id))| + 1
        && Last(repo.HistoryOf(id)).versionNumber == r.value.version
        && Last(repo.HistoryOf(id)).isCurrent
        && CountCurrent(repo.HistoryOf(id)) == 1
    {
      var got := repo.GetTemplate(tenantId, id);
      if got.Err? {
        return Err(got.error);
      }
      var tpl := got.value;
      if tpl.deletedAt.Some? {
        return Err(InvalidInput);
      }
      tpl := ApplyPatch(tpl, patch);
      tpl := tpl.(version := tpl.version + 1);
      tpl := tpl.(updatedBy := updatedBy, updatedAt := now);
      assert tpl == Revised(got.value, patch, updatedBy, now);
      var check := ValidateTemplate(tpl);
      if check.Fail? {
        return Err(check.error);
      }
      var updated := repo.UpdateTemplate(tpl);
      if updated.Err? {
        return updated;
      }
      var entry := RevisionEntry(tpl, versionId, changeSummary);
      var added := repo.CreateVersion(tenantId, entry);
      if added.Err? {
        return Err(added.error);
      }
      AppendLeavesOneCurrent(old(repo.HistoryOf(id)), entry);
      r := updated;
    }

    /**
     * Duplicates a template in the store and, when asked, re-appends every
     * entry of the source's history to the clone, one append at a time, each
     * under a fresh identifier `copyIds(i)`. The clone's history is then its own
     * entry followed by the copies, the last one current. An append the store
     * refuses ends the copy there and reports the error; the clone and the
     * entries appended so far stay.
     */
    method DuplicateTemplate(tenantId: string, id: string, opt: DuplicateOptions, cloneId: string,
                             versionId: string, copyIds: nat -> string, now: int) returns (r: Result<Template>)
      requires repo.Valid()
      modifies repo
      ensures repo.Valid()
      ensures !old(repo.Owns(tenantId, id)) ==> r == Err(NotFound) && Unchanged()
      ensures old(repo.Owns(tenantId, id)) ==>
        var clone := CloneOf(old(repo.templates[id]), opt, cloneId, now);
        var first := DuplicatedEntry(clone, id, versionId, opt.updatedBy, now);
        var copies := Copies(old(repo.HistoryOf(id)), cloneId, copyIds, 1);
        && (ValidateTemplate(clone).Fail? ==> r == Err(ValidateTemplate(clone).error) && Unchanged())
        && (ValidateTemplate(clone).Pass? && cloneId in old(repo.templates) ==> r == Err(Conflict) && Unchanged())
        && (ValidateTemplate(clone).Pass? && cloneId !in old(repo.templates) ==>
              && repo.templates == old(repo.templates)[cloneId := clone]
              && (!opt.copyVersions ==> r == Ok(clone) && repo.versions == old(repo.versions)[cloneId := [first]])
              && (opt.copyVersions ==>
                    && repo.versions == old(repo.versions)[cloneId := AppendAll([first], copies[..Accepted(copies)])]
                    && r == CopyOutcome(clone, copies)))
    {
      var dup := repo.DuplicateTemplate(tenantId, id, opt, cloneId, versionId, now);
      if dup.Err? {
        return dup;
      }
      var clone := dup.value;
      if opt.copyVersions {
        ghost var afterDup := repo.versions;
        match repo.ListVersions(tenantId, id)
        case Ok(src) =>
          assert src == old(repo.HistoryOf(id));
          assert repo.HistoryOf(cloneId) == [DuplicatedEntry(clone, id, versionId, opt.updatedBy, now)];
          var copied := CopyHistory(tenantId, clone.templateId, src, copyIds, clone.version);
          UpdateTwice(old(repo.versions), cloneId, afterDup[cloneId], repo.versions[cloneId]);
          if copied.Fail? {
            return Err(copied.error);
          }
      }
      r := dup;
    }

    /**
     * The copy loop of a duplicate: appends the copy of every entry of `src`,
     * in order, to the history of `cloneId`, and stops at the first copy the
     * store refuses.
     */
    method CopyHistory(tenantId: string, cloneId: string, src: seq<TemplateVersion>,
                       copyIds: nat -> string, cloneVersion: int) returns (r: Outcome)
      requires repo.Valid() && repo.Owns(tenantId, cloneId) && cloneId in repo.versions
      modifies repo
      ensures repo.Valid() && repo.templates == old(repo.templates)
      ensures var copies := Copies(src, cloneId, copyIds, cloneVersion);
        && r == (if Accepted(copies) == |copies| then Pass else Fail(ValidateVersion(copies[Accepted(copies)]).error))
        && repo.versions == old(repo.versions)[cloneId := AppendAll(old(repo.HistoryOf(cloneId)), copies[..Accepted(copies)])]
    {
      ghost var copies := Copies(src, cloneId, copyIds, cloneVersion);
      ghost var h0 := repo.HistoryOf(cloneId);
      ghost var v0 := repo.versions;
      var i := 0;
      assert copies[..0] == [];
      while i < |src|
        invariant 0 <= i <= |src|
        invariant repo.Valid() && repo.templates == old(repo.templates)
        invariant i <= Accepted(copies)
        invariant repo.versions == v0[cloneId := AppendAll(h0, copies[..i])]
      {
        var v := CopyEntry(src[i], cloneId, copyIds(i), cloneVersion);
        assert v == copies[i];
        var added := repo.CreateVersion(tenantId, v);
        if added.Err? {
          return Fail(added.error);
        }
        AppendAllPrefixStep(h0, copies, i);
        i := i + 1;
      }
      r := Pass;
    }

    /** The store did not change since the start of the call. */
    twostate predicate Unchanged()
      reads this, repo
    {
      repo.templates == old(repo.templates) && repo.versions == old(repo.versions)
    }

    /** Clears the deletion marker; see the store. */
    method RestoreTemplate(tenantId: string, id: string) returns (r: Result<Template>)
      requires repo.Valid()
      modifies repo
      ensures repo.Valid() && repo.versions == old(repo.versions)
      ensures !old(repo.Owns(tenantId, id)) ==> r == Err(NotFound) && Unchanged()
      ensures old(repo.Owns(tenantId, id)) ==>
        r == Ok(old(repo.templates[id]).(deletedAt := None)) && repo.templates == old(repo.templates)[id := r.value]
    {
      r := repo.RestoreTemplate(tenantId, id);
    }

    /** Soft-deletes at `now`; see the store. */
    method DeleteTemplate(tenantId: string, id: string, now: int) returns (r: Outcome)
      requires repo.Valid()
      modifies repo
      ensures repo.Valid() && repo.versions == old(repo.versions)
      ensures !old(repo.Owns(tenantId, id)) ==> r == Fail(NotFound) && Unchanged()
      ensures old(repo.Owns(tenantId, id)) ==>
        r == Pass && repo.templates == old(repo.templates)[id := old(repo.templates[id]).(deletedAt := Some(now))]
    {
      r := repo.SoftDeleteTemplate(tenantId, id, now);
    }

    /**
     * One page of the selection together with the size of the whole selection.
     * Both come from the same filter, so the first page without a limit holds
     * exactly `count` templates.
     */
    method ListTemplates(opt: ListOptions) returns (items: seq<Template>, count: nat)
      requires repo.Valid() && opt.offset >= 0
      ensures exists all :: repo.IsOrderedSelection(all, opt) && items == Paginate(all, opt.offset, opt.limit)
      ensures count == |repo.Selection(opt)|
      ensures forall t :: t in items ==> Matches(t, opt) && t in repo.templates.Values
      ensures |items| <= count
      ensures opt.offset == 0 && opt.limit <= 0 ==> |items| == count
    {
      items := repo.ListTemplates(opt);
      count := repo.CountTemplates(opt);
      ghost var all :| repo.IsOrderedSelection(all, opt) && items == Paginate(all, opt.offset, opt.limit);
      SelectionSize(all, repo.Selection(opt));
    }

    /** The stored template, if the tenant owns it. */
    function GetTemplate(tenantId: string, id: string): (r: Result<Template>)
      reads repo
      ensures r.Ok? <==> repo.Owns(tenantId, id)
      ensures r.Ok? ==> r.value == repo.templates[id]
      ensures r.Err? ==> r.error == NotFound
    {
      repo.GetTemplate(tenantId, id)
    }

    /** The history of a template the tenant owns. */
    function ListVersions(tenantId: string, id: string): (r: Result<seq<TemplateVersion>>)
      reads repo
      ensures r.Ok? <==> repo.Owns(tenantId, id)
      ensures r.Ok? ==> r.value == repo.HistoryOf(id)
      ensures r.Err? ==> r.error == NotFound
    {
      repo.ListVersions(tenantId, id)
    }

    /**
     * Restores the first entry numbered `n`: the template takes the entry's
     * schema and moves one version on, and a copy of the entry, identifier
     * included, is appended as current without clearing the other flags.
     */
    method RestoreVersion(tenantId: string, id: string, n: int, now: int) returns (r: Result<TemplateVersion>)
      requires repo.Valid()
      modifies repo
      ensures repo.Valid() && Evolves(old(repo.templates), old(repo.versions), repo.templates, repo.versions)
      ensures old(repo.Owns(tenantId, id)) ==> repo.Owns(tenantId, id)
      ensures r.Ok? <==> old(repo.Owns(tenantId, id)) && FirstWithNumber(old(repo.HistoryOf(id)), n).Some?
      ensures r.Err? ==> r.error == NotFound && Unchanged()
      ensures r.Ok? ==>
        var e := old(repo.HistoryOf(id))[FirstWithNumber(old(repo.HistoryOf(id)), n).value];
        && e.versionNumber == n
        && repo.templates == old(repo.templates)[id := RestoredTemplate(old(repo.templates[id]), e, now)]
        && r.value == RestoredEntry(e, old(repo.templates[id].version) + 1, now)
        && repo.versions == old(repo.versions)[id := old(repo.HistoryOf(id)) + [r.value]]
        && CountCurrent(repo.HistoryOf(id)) == CountCurrent(old(repo.HistoryOf(id))) + 1
    {
      r := repo.RestoreVersion(tenantId, id, n, now);
    }

    /**
     * The last entries numbered `left` and `right`, with a summary of their
     * schemas. Asking for the same number twice always reports not found.
     */
    method CompareVersions(tenantId: string, id: string, left: int, right: int) returns (r: Result<VersionComparison>)
      requires repo.Valid()
      ensures r.Ok? <==>
        && repo.Owns(tenantId, id) && left != right
        && LastWithNumber(repo.HistoryOf(id), left).Some? && LastWithNumber(repo.HistoryOf(id), right).Some?
      ensures r.Err? ==> r.error == NotFound
      ensures r.Ok? ==>
        && r.value.templateId == id
        && r.value.left == repo.HistoryOf(id)[LastWithNumber(repo.HistoryOf(id), left).value]
        && r.value.right == repo.HistoryOf(id)[LastWithNumber(repo.HistoryOf(id), right).value]
        && r.value.left.versionNumber == left && r.value.right.versionNumber == right
        && r.value.summary == "left schema: " + r.value.left.jsonSchemaUrl + ", right schema: " + r.value.right.jsonSchemaUrl
    {
      r := repo.CompareVersions(tenantId, id, left, right);
    }
  }

  /** The last element of a non-empty history. */
  function Last(h: seq<TemplateVersion>): TemplateVersion
    requires h != []
  {
    h[|h| - 1]
  }

  /** Every entry would pass the store's entry validation. */
  predicate AllWellFormed(vs: seq<TemplateVersion>) {
    forall i :: 0 <= i < |vs| ==> WellFormedVersion(vs[i])
  }

  /** How many entries, from the front, pass the store's entry validation before the first that does not. */
  function Accepted(vs: seq<TemplateVersion>): (k: nat)
    ensures k <= |vs|
    ensures forall i :: 0 <= i < k ==> WellFormedVersion(vs[i])
    ensures k < |vs| ==> !WellFormedVersion(vs[k])
  {
    if vs == [] || !WellFormedVersion(vs[0]) then 0 else 1 + Accepted(vs[1..])
  }

  /** The result of a duplicate that copies `copies`: the clone, or the error of the first refused copy. */
  function CopyOutcome(clone: Template, copies: seq<TemplateVersion>): (r: Result<Template>)
    ensures r.Ok? <==> AllWellFormed(copies)
    ensures r.Ok? ==> r.value == clone
    ensures r.Err? ==> r.error.Invalid?
    ensures r.Err? ==> exists k ::
      && 0 <= k < |copies| && AllWellFormed(copies[..k]) && !WellFormedVersion(copies[k])
      && r.error == ValidateVersion(copies[k]).error
  {
    var k := Accepted(copies);
    if k == |copies| then Ok(clone)
    else
      assert AllWellFormed(copies[..k]);
      Err(ValidateVersion(copies[k]).error)
  }

  /** A sequence that holds each element of a set once is as long as the set is large. */
  lemma SelectionSize(all: seq<Template>, s: set<Template>)
    requires multiset(all) == multiset(s)
    ensures |all| == |s|
  {
    assert |all| == |multiset(all)|;
  }

  /** Storing twice under one key keeps only the second value. */
  lemma UpdateTwice<K, V>(m: map<K, V>, k: K, a: V, b: V)
    ensures m[k := a][k := b] == m[k := b]
  {
  }
}
