/**
 * The in-memory store: a map from template identifier to template and a map
 * from template identifier to its version history. Every operation holds the
 * store's lock for its whole body in the source, so each method here is one
 * atomic step.
 */
module Repository {
  import opened Models
  import opened Options
  import opened Listing
  import opened History

  /**
   * How the two maps may change in one step: no template disappears or changes
   * tenant, and no history loses, reorders or rewrites an entry (earlier entries
   * may only lose their current flag).
   */
  ghost predicate Evolves(t0: map<string, Template>, v0: map<string, seq<TemplateVersion>>,
                          t1: map<string, Template>, v1: map<string, seq<TemplateVersion>>)
  {
    && t0.Keys <= t1.Keys
    && (forall id :: id in t0 ==> t1[id].tenantId == t0[id].tenantId)
    && (forall id :: id in v0 ==> id in v1 && Extends(v0[id], v1[id]))
  }

  /** Every entry of every history names the template the history is stored under. */
  predicate HistoriesNamed(versions: map<string, seq<TemplateVersion>>) {
    forall id, i :: id in versions && 0 <= i < |versions[id]| ==> versions[id][i].templateId == id
  }

  /** Storing a history whose entries all name `id` under `id` keeps every history named. */
  lemma StoreNamed(versions: map<string, seq<TemplateVersion>>, id: string, h: seq<TemplateVersion>)
    requires HistoriesNamed(versions)
    requires forall i :: 0 <= i < |h| ==> h[i].templateId == id
    ensures HistoriesNamed(versions[id := h])
  {
  }

  /** The name a clone gets: the override if there is one, otherwise the source's name with " Copy". */
  function CloneName(src: Template, opt: DuplicateOptions): (name: string)
    ensures opt.nameOverride != "" ==> name == opt.nameOverride
    ensures opt.nameOverride == "" ==> name == src.name + " Copy" && |name| == |src.name| + 5
  {
    if opt.nameOverride != "" then opt.nameOverride else src.name + " Copy"
  }

  /** The clone the store builds from `src` before validating and inserting it. */
  function CloneOf(src: Template, opt: DuplicateOptions, cloneId: string, now: int): (c: Template)
    ensures c.templateId == cloneId && c.tenantId == src.tenantId
    ensures c.version == 1 && c.documentsCount == 0 && c.deletedAt.None? && c.lastUsedAt.None?
    ensures c.createdAt == now && c.updatedAt == now
    ensures c.createdBy == opt.createdBy && c.updatedBy == opt.updatedBy
    ensures c.name == CloneName(src, opt)
    ensures c.description == if opt.descriptionOverride != "" then opt.descriptionOverride else src.description
    ensures c.documentType == src.documentType && c.pageSize == src.pageSize && c.orientation == src.orientation
    ensures c.jsonSchemaUrl == src.jsonSchemaUrl && c.thumbnailUrl == src.thumbnailUrl
  {
    var c := src.(templateId := cloneId, createdAt := now, updatedAt := now,
                  createdBy := opt.createdBy, updatedBy := opt.updatedBy,
                  deletedAt := None, documentsCount := 0, lastUsedAt := None, version := 1,
                  name := CloneName(src, opt));
    if opt.descriptionOverride != "" then c.(description := opt.descriptionOverride) else c
  }

  /** The one history entry a duplicate starts with. */
  function DuplicatedEntry(clone: Template, sourceId: string, versionId: string, createdBy: string, now: int): (e: TemplateVersion)
    ensures e.isCurrent && e.templateId == clone.templateId && e.versionNumber == clone.version
    ensures e.jsonSchemaUrl == clone.jsonSchemaUrl && e.createdBy == createdBy && e.createdAt == now
    ensures e.changeSummary == "duplicated from " + sourceId
    ensures e.versionId == versionId
    ensures WellFormedTemplate(clone) && clone.version > 0 && createdBy != "" ==> (WellFormedVersion(e) <==> clone.templateId != "")
  {
    TemplateVersion(versionId, clone.templateId, clone.version, "duplicated from " + sourceId,
                    clone.jsonSchemaUrl, createdBy, now, true)
  }

  /** The template after a restore to entry `e`: schema copied back, version bumped, touched now by the entry's author. */
  function RestoredTemplate(t: Template, e: TemplateVersion, now: int): (r: Template)
    ensures r.version == t.version + 1 && r.version > t.version
    ensures r.jsonSchemaUrl == e.jsonSchemaUrl && r.updatedAt == now && r.updatedBy == e.createdBy
    ensures r.templateId == t.templateId && r.tenantId == t.tenantId && r.name == t.name && r.deletedAt == t.deletedAt
    ensures r.(jsonSchemaUrl := t.jsonSchemaUrl, version := t.version, updatedAt := t.updatedAt, updatedBy := t.updatedBy) == t
  {
    t.(jsonSchemaUrl := e.jsonSchemaUrl, version := t.version + 1, updatedAt := now, updatedBy := e.createdBy)
  }

  /** The entry a restore appends: the old entry, identifier included, made current under the new number. */
  function RestoredEntry(e: TemplateVersion, newVersion: int, now: int): (r: TemplateVersion)
    ensures r.isCurrent && r.versionNumber == newVersion && r.createdAt == now
    ensures r.versionId == e.versionId && r.templateId == e.templateId
    ensures r.(isCurrent := e.isCurrent, versionNumber := e.versionNumber, createdAt := e.createdAt) == e
    ensures WellFormedVersion(e) && newVersion > 0 ==> WellFormedVersion(r)
  {
    e.(isCurrent := true, versionNumber := newVersion, createdAt := now)
  }

  class InMemoryRepository {
    var templates: map<string, Template>
    var versions: map<string, seq<TemplateVersion>>

    /**
     * Every template is stored under its own identifier, every history belongs
     * to a stored template, and every entry of a history names that template.
     */
    ghost predicate Valid()
      reads this
    {
      && KeyedById()
      && versions.Keys <= templates.Keys
      && HistoriesNamed(versions)
    }

    /** Every template is stored under its own identifier. */
    ghost predicate KeyedById()
      reads this
    {
      forall id :: id in templates ==> templates[id].templateId == id
    }

    /** The history of `id`; a template without one has an empty history. */
    function HistoryOf(id: string): seq<TemplateVersion>
      reads this
    {
      if id in versions then versions[id] else []
    }

    /** `id` is stored and belongs to `tenantId`; anything else is reported as not found. */
    predicate Owns(tenantId: string, id: string)
      reads this
    {
      id in templates && templates[id].tenantId == tenantId
    }

    /** The stored templates a listing selects. */
    ghost function Selection(opt: ListOptions): set<Template>
      reads this
    {
      set t | t in templates.Values && Matches(t, opt)
    }

    /** `all` is the whole selection of `opt`, each selected template once, most recently updated first. */
    ghost predicate IsOrderedSelection(all: seq<Template>, opt: ListOptions)
      reads this
    {
      NewestFirst(all) && multiset(all) == multiset(Selection(opt))
    }

    constructor ()
      ensures Valid() && templates == map[] && versions == map[]
    {
      templates := map[];
      versions := map[];
    }

    /**
     * One page of the tenant's matching templates, newest first: filter, sort,
     * then cut the page out.
     */
    method ListTemplates(opt: ListOptions) returns (page: seq<Template>)
      requires KeyedById()
      requires opt.offset >= 0
      ensures exists all :: IsOrderedSelection(all, opt) && page == Paginate(all, opt.offset, opt.limit)
      ensures forall t :: t in page ==> Matches(t, opt) && t.tenantId == opt.tenantId && t in templates.Values
    {
      var result := SelectMatching(opt);
      var sorted := SortByRecency(result);
      page := Paginate(sorted, opt.offset, opt.limit);
      assert IsOrderedSelection(sorted, opt);
      PageMembers(sorted, opt.offset, opt.limit);
      forall t | t in page
        ensures t in Selection(opt)
      {
        assert t in multiset(sorted);
      }
    }

    /**
     * The filtering loop of a listing. The source iterates over the map in no
     * fixed order; the loop here picks any remaining key.
     */
    method SelectMatching(opt: ListOptions) returns (result: seq<Template>)
      requires KeyedById()
      ensures multiset(result) == multiset(Selection(opt))
    {
      result := [];
      var remaining := templates.Keys;
      ghost var seen: set<string> := {};
      ghost var picked: set<Template> := {};
      while remaining != {}
        invariant remaining + seen == templates.Keys && remaining !! seen
        invariant Picked(picked, seen, opt)
        invariant multiset(result) == multiset(picked)
        decreases remaining
      {
        var id :| id in remaining;
        var tpl := templates[id];
        PickStep(picked, seen, id, opt);
        if Matches(tpl, opt) {
          AddNew(picked, tpl);
          result := result + [tpl];
          picked := picked + {tpl};
        }
        MoveOne(remaining, seen, id);
        remaining := remaining - {id};
        seen := seen + {id};
      }
      PickedIsSelection(picked, opt);
    }

    /**
     * `picked` holds exactly the matching templates stored under the keys in
     * `seen`: the invariant of the two loops that walk the map.
     */
    ghost predicate Picked(picked: set<Template>, seen: set<string>, opt: ListOptions)
      reads this
    {
      && (forall t :: t in picked ==> t.templateId in seen && t.templateId in templates && templates[t.templateId] == t && Matches(t, opt))
      && (forall k :: k in seen && k in templates && Matches(templates[k], opt) ==> templates[k] in picked)
    }

    /** Looking at one more key keeps `Picked`; a matching template there is new to `picked`. */
    lemma PickStep(picked: set<Template>, seen: set<string>, id: string, opt: ListOptions)
      requires KeyedById() && Picked(picked, seen, opt) && id in templates && id !in seen
      ensures templates[id] !in picked
      ensures Matches(templates[id], opt) ==> Picked(picked + {templates[id]}, seen + {id}, opt)
      ensures !Matches(templates[id], opt) ==> Picked(picked, seen + {id}, opt)
    {
    }

    /** Once every key is seen, what was picked is the selection. */
    lemma PickedIsSelection(picked: set<Template>, opt: ListOptions)
      requires Picked(picked, templates.Keys, opt)
      ensures picked == Selection(opt)
    {
      forall t | t in Selection(opt)
        ensures t in picked
      {
        var k :| k in templates && templates[k] == t;
      }
    }

    /** How many templates a listing with the same options selects, before paging. */
    method CountTemplates(opt: ListOptions) returns (count: nat)
      requires KeyedById()
      ensures count == |Selection(opt)|
    {
      count := 0;
      var remaining := templates.Keys;
      ghost var seen: set<string> := {};
      ghost var picked: set<Template> := {};
      while remaining != {}
        invariant remaining + seen == templates.Keys && remaining !! seen
        invariant Picked(picked, seen, opt)
        invariant count == |picked|
        decreases remaining
      {
        var id :| id in remaining;
        PickStep(picked, seen, id, opt);
        if Matches(templates[id], opt) {
          AddNew(picked, templates[id]);
          count := count + 1;
          picked := picked + {templates[id]};
        }
        MoveOne(remaining, seen, id);
        remaining := remaining - {id};
        seen := seen + {id};
      }
      PickedIsSelection(picked, opt);
    }

    /** The stored template, if the tenant owns it. */
    function GetTemplate(tenantId: string, id: string): (r: Result<Template>)
      reads this
      ensures r.Ok? <==> Owns(tenantId, id)
      ensures r.Ok? ==> r.value == templates[id] && r.value.tenantId == tenantId
      ensures r.Err? ==> r.error == NotFound
    {
      if id in templates && templates[id].tenantId == tenantId then Ok(templates[id]) else Err(NotFound)
    }

    /** Inserts `tpl` under its identifier unless that identifier is taken. No validation here. */
    method CreateTemplate(tpl: Template) returns (r: Result<Template>)
      requires Valid()
      modifies this
      ensures Valid() && Evolves(old(templates), old(versions), templates, versions)
      ensures tpl.templateId in old(templates) ==>
        r == Err(Conflict) && templates == old(templates) && versions == old(versions)
      ensures tpl.templateId !in old(templates) ==>
        r == Ok(tpl) && templates == old(templates)[tpl.templateId := tpl] && versions == old(versions)
    {
      if tpl.templateId in templates {
        return Err(Conflict);
      }
      templates := templates[tpl.templateId := tpl];
      r := Ok(tpl);
    }

    /** Replaces the stored template of the same identifier and tenant. No validation here. */
    method UpdateTemplate(tpl: Template) returns (r: Result<Template>)
      requires Valid()
      modifies this
      ensures Valid() && Evolves(old(templates), old(versions), templates, versions)
      ensures !old(Owns(tpl.tenantId, tpl.templateId)) ==>
        r == Err(NotFound) && templates == old(templates) && versions == old(versions)
      ensures old(Owns(tpl.tenantId, tpl.templateId)) ==>
        r == Ok(tpl) && templates == old(templates)[tpl.templateId := tpl] && versions == old(versions)
    {
      if !(tpl.templateId in templates && templates[tpl.templateId].tenantId == tpl.tenantId) {
        return Err(NotFound);
      }
      templates := templates[tpl.templateId := tpl];
      r := Ok(tpl);
    }

    /** Marks the template deleted at `now`; nothing else changes. */
    method SoftDeleteTemplate(tenantId: string, id: string, now: int) returns (r: Outcome)
      requires Valid()
      modifies this
      ensures Valid() && Evolves(old(templates), old(versions), templates, versions)
      ensures !old(Owns(tenantId, id)) ==> r == Fail(NotFound) && templates == old(templates) && versions == old(versions)
      ensures old(Owns(tenantId, id)) ==>
        && r == Pass && versions == old(versions)
        && templates == old(templates)[id := old(templates[id]).(deletedAt := Some(now))]
    {
      if !(id in templates && templates[id].tenantId == tenantId) {
        return Fail(NotFound);
      }
      var tpl := templates[id];
      tpl := tpl.(deletedAt := Some(now));
      templates := templates[id := tpl];
      r := Pass;
    }

    /** Clears the deletion marker; on an active template this changes nothing and still succeeds. */
    method RestoreTemplate(tenantId: string, id: string) returns (r: Result<Template>)
      requires Valid()
      modifies this
      ensures Valid() && Evolves(old(templates), old(versions), templates, versions)
      ensures !old(Owns(tenantId, id)) ==> r == Err(NotFound) && templates == old(templates) && versions == old(versions)
      ensures old(Owns(tenantId, id)) ==>
        && versions == old(versions)
        && r == Ok(old(templates[id]).(deletedAt := None))
        && templates == old(templates)[id := r.value]
      ensures old(Owns(tenantId, id)) && old(templates[id].deletedAt.None?) ==> templates == old(templates)
    {
      if !(id in templates && templates[id].tenantId == tenantId) {
        return Err(NotFound);
      }
      var tpl := templates[id];
      tpl := tpl.(deletedAt := None);
      templates := templates[id := tpl];
      r := Ok(tpl);
    }

    /**
     * Clones a template under `cloneId` and gives the clone a one-entry history.
     * The source and its history are left as they were.
     */
    method DuplicateTemplate(tenantId: string, id: string, opt: DuplicateOptions,
                             cloneId: string, versionId: string, now: int) returns (r: Result<Template>)
      requires Valid()
      modifies this
      ensures Valid() && Evolves(old(templates), old(versions), templates, versions)
      ensures !old(Owns(tenantId, id)) ==> r == Err(NotFound)
      ensures old(Owns(tenantId, id)) && ValidateTemplate(CloneOf(old(templates[id]), opt, cloneId, now)).Fail? ==>
        r == Err(ValidateTemplate(CloneOf(old(templates[id]), opt, cloneId, now)).error)
      ensures (&& old(Owns(tenantId, id))
               && ValidateTemplate(CloneOf(old(templates[id]), opt, cloneId, now)).Pass?
               && cloneId in old(templates)) ==> r == Err(Conflict)
      ensures r.Err? ==> templates == old(templates) && versions == old(versions)
      ensures r.Ok? <==>
        && old(Owns(tenantId, id)) && cloneId !in old(templates)
        && ValidateTemplate(CloneOf(old(templates[id]), opt, cloneId, now)).Pass?
      ensures r.Ok? ==>
        && r.value == CloneOf(old(templates[id]), opt, cloneId, now)
        && templates == old(templates)[cloneId := r.value]
        && versions == old(versions)[cloneId := [DuplicatedEntry(r.value, id, versionId, opt.updatedBy, now)]]
    {
      if !(id in templates && templates[id].tenantId == tenantId) {
        return Err(NotFound);
      }
      var src := templates[id];
      var clone := CloneOf(src, opt, cloneId, now);
      var check := ValidateTemplate(clone);
      if check.Fail? {
        return Err(check.error);
      }
      if cloneId in templates {
        return Err(Conflict);
      }
      assert cloneId !in versions;
      templates := templates[cloneId := clone];
      assert src.templateId == id;
      var entry := DuplicatedEntry(clone, src.templateId, versionId, opt.updatedBy, now);
      assert HistoryOf(cloneId) == [];
      versions := versions[cloneId := HistoryOf(cloneId) + [entry]];
      assert versions[cloneId] == [entry];
      r := Ok(clone);
    }

    /** A copy of the history of a template the tenant owns, oldest first. */
    function ListVersions(tenantId: string, id: string): (r: Result<seq<TemplateVersion>>)
      reads this
      ensures r.Ok? <==> Owns(tenantId, id)
      ensures r.Ok? ==> r.value == HistoryOf(id)
      ensures r.Err? ==> r.error == NotFound
    {
      if id in templates && templates[id].tenantId == tenantId then Ok(HistoryOf(id)) else Err(NotFound)
    }

    /**
     * Appends `v` to its template's history after clearing the current flag of
     * every earlier entry. `v` is appended as given, current or not.
     */
    method CreateVersion(tenantId: string, v: TemplateVersion) returns (r: Result<TemplateVersion>)
      requires Valid()
      modifies this
      ensures Valid() && Evolves(old(templates), old(versions), templates, versions)
      ensures templates == old(templates)
      ensures !old(Owns(tenantId, v.templateId)) ==> r == Err(NotFound) && versions == old(versions)
      ensures old(Owns(tenantId, v.templateId)) && ValidateVersion(v).Fail? ==>
        r == Err(ValidateVersion(v).error) && versions == old(versions)
      ensures r.Ok? <==> old(Owns(tenantId, v.templateId)) && ValidateVersion(v).Pass?
      ensures r.Ok? ==>
        && r.value == v
        && versions == old(versions)[v.templateId := Append(old(HistoryOf(v.templateId)), v)]
    {
      if !(v.templateId in templates && templates[v.templateId].tenantId == tenantId) {
        return Err(NotFound);
      }
      var check := ValidateVersion(v);
      if check.Fail? {
        return Err(check.error);
      }
      var h := ClearFlags(HistoryOf(v.templateId));
      versions := versions[v.templateId := h + [v]];
      r := Ok(v);
    }

    /**
     * Restores the first entry numbered `n`: the template takes back its schema
     * and moves one version forward, and a copy of the entry, current and
     * renumbered, is appended. Earlier current flags are left as they are.
     */
    method RestoreVersion(tenantId: string, id: string, n: int, now: int) returns (r: Result<TemplateVersion>)
      requires Valid()
      modifies this
      ensures Valid() && Evolves(old(templates), old(versions), templates, versions)
      ensures !old(Owns(tenantId, id)) ==> r == Err(NotFound)
      ensures old(Owns(tenantId, id)) && FirstWithNumber(old(HistoryOf(id)), n).None? ==> r == Err(NotFound)
      ensures r.Err? ==> templates == old(templates) && versions == old(versions)
      ensures r.Ok? <==> old(Owns(tenantId, id)) && FirstWithNumber(old(HistoryOf(id)), n).Some?
      ensures r.Ok? ==>
        var e := old(HistoryOf(id))[FirstWithNumber(old(HistoryOf(id)), n).value];
        && e.versionNumber == n
        && templates == old(templates)[id := RestoredTemplate(old(templates[id]), e, now)]
        && r.value == RestoredEntry(e, old(templates[id].version) + 1, now)
        && versions == old(versions)[id := old(HistoryOf(id)) + [r.value]]
        && templates[id].version == old(templates[id].version) + 1
        && CountCurrent(HistoryOf(id)) == CountCurrent(old(HistoryOf(id))) + 1
    {
      if !(id in templates && templates[id].tenantId == tenantId) {
        return Err(NotFound);
      }
      var h := HistoryOf(id);
      var found := FindFirstNumbered(h, n);
      if found.None? {
        return Err(NotFound);
      }
      var restored := h[found.value];
      var tpl := RestoredTemplate(templates[id], restored, now);
      templates := templates[id := tpl];
      var clone := RestoredEntry(restored, tpl.version, now);
      StoreNamed(versions, id, h + [clone]);
      AppendExtends(h, clone);
      versions := versions[id := h + [clone]];
      AppendWithoutClearing(h, clone);
      r := Ok(clone);
    }

    /**
     * The entries numbered `left` and `right` side by side. The scan keeps the
     * last entry of each number, and a number equal to `left` is never taken as
     * `right`, so comparing a version with itself is always reported as not found.
     */
    method CompareVersions(tenantId: string, id: string, left: int, right: int) returns (r: Result<VersionComparison>)
      ensures !Owns(tenantId, id) || left == right ==> r == Err(NotFound)
      ensures r.Ok? <==>
        && Owns(tenantId, id) && left != right
        && LastWithNumber(HistoryOf(id), left).Some? && LastWithNumber(HistoryOf(id), right).Some?
      ensures r.Err? ==> r.error == NotFound
      ensures r.Ok? ==>
        && r.value.templateId == templates[id].templateId
        && r.value.left == HistoryOf(id)[LastWithNumber(HistoryOf(id), left).value]
        && r.value.right == HistoryOf(id)[LastWithNumber(HistoryOf(id), right).value]
        && r.value.left.versionNumber == left && r.value.right.versionNumber == right
        && r.value.summary == "left schema: " + r.value.left.jsonSchemaUrl + ", right schema: " + r.value.right.jsonSchemaUrl
    {
      if !(id in templates && templates[id].tenantId == tenantId) {
        return Err(NotFound);
      }
      var h := HistoryOf(id);
      var leftAt: Option<nat> := None;
      var rightAt: Option<nat> := None;
      for i := 0 to |h|
        invariant leftAt == LastWithNumber(h[..i], left)
        invariant rightAt == if left == right then None else LastWithNumber(h[..i], right)
      {
        assert h[..i + 1][..i] == h[..i];
        if h[i].versionNumber == left {
          leftAt := Some(i);
        } else if h[i].versionNumber == right {
          rightAt := Some(i);
        }
      }
      assert h[..|h|] == h;
      if leftAt.None? || rightAt.None? {
        return Err(NotFound);
      }
      var l := h[leftAt.value];
      var rt := h[rightAt.value];
      var summary := "left schema: " + l.jsonSchemaUrl + ", right schema: " + rt.jsonSchemaUrl;
      r := Ok(VersionComparison(templates[id].templateId, l, rt, summary));
    }
  }

  /** Adding an element that is not there yet adds one occurrence of it. */
  lemma AddNew<T>(s: set<T>, x: T)
    requires x !in s
    ensures multiset(s + {x}) == multiset(s) + multiset{x}
    ensures |s + {x}| == |s| + 1
  {
  }

  /** Moving one element from `remaining` to `seen` keeps their union and keeps them apart. */
  lemma MoveOne<T>(remaining: set<T>, seen: set<T>, x: T)
    requires x in remaining && remaining !! seen
    ensures (remaining - {x}) + (seen + {x}) == remaining + seen
    ensures (remaining - {x}) !! (seen + {x})
  {
  }

  /** The scan for the first entry numbered `n`. */
  method FindFirstNumbered(h: seq<TemplateVersion>, n: int) returns (found: Option<nat>)
    ensures found == FirstWithNumber(h, n)
  {
    var i := 0;
    while i < |h| && h[i].versionNumber != n
      invariant 0 <= i <= |h|
      invariant forall j :: 0 <= j < i ==> h[j].versionNumber != n
    {
      i := i + 1;
    }
    found := if i == |h| then None else Some(i);
  }

  /** The loop that clears the current flag of every entry, in place. */
  method ClearFlags(h0: seq<TemplateVersion>) returns (h: seq<TemplateVersion>)
    ensures h == ClearCurrent(h0)
  {
    h := h0;
    var i := 0;
    while i < |h|
      invariant 0 <= i <= |h| == |h0|
      invariant forall j :: 0 <= j < i ==> h[j] == Superseded(h0[j])
      invariant forall j :: i <= j < |h| ==> h[j] == h0[j]
    {
      h := h[i := Superseded(h[i])];
      i := i + 1;
    }
  }
}
