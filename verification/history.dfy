/**
 * Pure facts about one template's version history: clearing the current flag,
 * counting current entries, finding an entry by number, and re-materialising a
 * history under another template.
 */
module History {
  import opened Models

  /** `v` with its current flag cleared and nothing else changed. */
  function Superseded(v: TemplateVersion): TemplateVersion {
    v.(isCurrent := false)
  }

  /** Every entry of `h` with its current flag cleared, as the append step leaves the earlier entries. */
  function ClearCurrent(h: seq<TemplateVersion>): (r: seq<TemplateVersion>)
    ensures |r| == |h|
    ensures forall i :: 0 <= i < |h| ==> !r[i].isCurrent && r[i].(isCurrent := h[i].isCurrent) == h[i]
  {
    seq(|h|, i requires 0 <= i < |h| => Superseded(h[i]))
  }

  /** The history after one append: earlier entries superseded, the new one last. */
  function Append(h: seq<TemplateVersion>, v: TemplateVersion): (r: seq<TemplateVersion>)
    ensures |r| == |h| + 1 && r[|h|] == v
    ensures Extends(h, r)
  {
    ClearCurrent(h) + [v]
  }

  /** How many entries are flagged current. */
  function CountCurrent(h: seq<TemplateVersion>): nat {
    if h == [] then 0 else CountCurrent(h[..|h| - 1]) + (if h[|h| - 1].isCurrent then 1 else 0)
  }

  lemma {:induction false} ClearedHasNoCurrent(h: seq<TemplateVersion>)
    ensures CountCurrent(ClearCurrent(h)) == 0
  {
    if h != [] {
      ClearedHasNoCurrent(h[..|h| - 1]);
      assert ClearCurrent(h)[..|h| - 1] == ClearCurrent(h[..|h| - 1]);
    }
  }

  /** After an append, the new entry is the only current one (or none is, if it is not flagged). */
  lemma AppendLeavesOneCurrent(h: seq<TemplateVersion>, v: TemplateVersion)
    ensures CountCurrent(Append(h, v)) == if v.isCurrent then 1 else 0
  {
    ClearedHasNoCurrent(h);
    assert Append(h, v)[..|h|] == ClearCurrent(h);
  }

  /** Adding a current entry without clearing the others adds one to the count of current entries. */
  lemma AppendWithoutClearing(h: seq<TemplateVersion>, v: TemplateVersion)
    requires v.isCurrent
    ensures CountCurrent(h + [v]) == CountCurrent(h) + 1
  {
    assert (h + [v])[..|h|] == h;
  }

  /** An entry flagged current is counted. */
  lemma {:induction false} CurrentIsCounted(h: seq<TemplateVersion>, i: nat)
    requires i < |h| && h[i].isCurrent
    ensures CountCurrent(h) >= 1
  {
    if i < |h| - 1 {
      CurrentIsCounted(h[..|h| - 1], i);
    }
  }

  /** Restoring into a history that has a current entry leaves two current entries. */
  lemma RestoreLeavesTwoCurrent(h: seq<TemplateVersion>, i: nat, v: TemplateVersion)
    requires i < |h| && h[i].isCurrent && v.isCurrent
    ensures CountCurrent(h + [v]) >= 2
  {
    CurrentIsCounted(h, i);
    AppendWithoutClearing(h, v);
  }

  /**
   * `h'` extends `h` the way the store lets a history evolve: nothing removed,
   * nothing reordered, earlier entries changed at most by losing their current flag.
   */
  predicate Extends(h: seq<TemplateVersion>, h': seq<TemplateVersion>) {
    |h| <= |h'| && forall i :: 0 <= i < |h| ==> h'[i] == h[i] || h'[i] == Superseded(h[i])
  }

  /** Adding an entry at the end, with or without clearing the others, extends a history. */
  lemma AppendExtends(h: seq<TemplateVersion>, v: TemplateVersion)
    ensures Extends(h, h + [v]) && Extends(h, Append(h, v))
  {
  }

  /** The index of the first entry numbered `n`, if any. */
  function FirstWithNumber(h: seq<TemplateVersion>, n: int): (r: Option<nat>)
    ensures r.Some? ==> r.value < |h| && h[r.value].versionNumber == n
    ensures r.Some? ==> forall j :: 0 <= j < r.value ==> h[j].versionNumber != n
    ensures r.None? <==> forall j :: 0 <= j < |h| ==> h[j].versionNumber != n
  {
    if h == [] then None
    else if h[0].versionNumber == n then Some(0)
    else
      match FirstWithNumber(h[1..], n)
      case None => None
      case Some(k) => Some(k + 1)
  }

  /** The index of the last entry numbered `n`, if any. */
  function LastWithNumber(h: seq<TemplateVersion>, n: int): (r: Option<nat>)
    ensures r.Some? ==> r.value < |h| && h[r.value].versionNumber == n
    ensures r.Some? ==> forall j :: r.value < j < |h| ==> h[j].versionNumber != n
    ensures r.None? <==> forall j :: 0 <= j < |h| ==> h[j].versionNumber != n
  {
    if h == [] then None
    else if h[|h| - 1].versionNumber == n then Some(|h| - 1)
    else LastWithNumber(h[..|h| - 1], n)
  }

  /** The history after appending every entry of `vs`, in order, one append at a time. */
  function AppendAll(h: seq<TemplateVersion>, vs: seq<TemplateVersion>): seq<TemplateVersion>
    decreases |vs|
  {
    if vs == [] then h else AppendAll(Append(h, vs[0]), vs[1..])
  }

  /** Appending one more entry after several is appending them all. */
  lemma {:induction false} AppendAllSnoc(h: seq<TemplateVersion>, vs: seq<TemplateVersion>, v: TemplateVersion)
    ensures AppendAll(h, vs + [v]) == Append(AppendAll(h, vs), v)
    decreases |vs|
  {
    if vs == [] {
      assert [v][1..] == [];
    } else {
      assert (vs + [v])[1..] == vs[1..] + [v];
      AppendAllSnoc(Append(h, vs[0]), vs[1..], v);
    }
  }

  /** Appending a prefix one entry longer is one more append; appending the whole prefix is appending everything. */
  lemma AppendAllPrefixStep(h: seq<TemplateVersion>, vs: seq<TemplateVersion>, i: nat)
    requires i < |vs|
    ensures AppendAll(h, vs[..i + 1]) == Append(AppendAll(h, vs[..i]), vs[i])
    ensures i + 1 == |vs| ==> AppendAll(h, vs[..i + 1]) == AppendAll(h, vs)
  {
    assert vs[..i + 1] == vs[..i] + [vs[i]];
    AppendAllSnoc(h, vs[..i], vs[i]);
    assert i + 1 == |vs| ==> vs[..i + 1] == vs;
  }

  /**
   * Appending several entries one at a time leaves all of them in order, every
   * one superseded except the last, which is kept as given.
   */
  lemma {:induction false} AppendAllShape(h: seq<TemplateVersion>, vs: seq<TemplateVersion>)
    requires vs != []
    ensures |AppendAll(h, vs)| == |h| + |vs|
    ensures forall i :: 0 <= i < |h| ==> AppendAll(h, vs)[i] == Superseded(h[i])
    ensures forall j :: 0 <= j < |vs| - 1 ==> AppendAll(h, vs)[|h| + j] == Superseded(vs[j])
    ensures AppendAll(h, vs)[|h| + |vs| - 1] == vs[|vs| - 1]
    decreases |vs|
  {
    var h1 := Append(h, vs[0]);
    if |vs| > 1 {
      AppendAllShape(h1, vs[1..]);
      forall j | 0 <= j < |vs| - 1
        ensures AppendAll(h, vs)[|h| + j] == Superseded(vs[j])
      {
        if j > 0 {
          assert vs[1..][j - 1] == vs[j];
        }
      }
    }
  }

  /** Appending several entries never removes, reorders or rewrites what was there. */
  lemma {:induction false} AppendAllExtends(h: seq<TemplateVersion>, vs: seq<TemplateVersion>)
    ensures Extends(h, AppendAll(h, vs))
    decreases |vs|
  {
    if vs != [] {
      AppendAllExtends(Append(h, vs[0]), vs[1..]);
    }
  }

  /**
   * The copy of a source entry under a clone: new owner and identifier, and the
   * source's current entry renumbered to the clone's version.
   */
  function CopyEntry(v: TemplateVersion, cloneId: string, versionId: string, cloneVersion: int): (r: TemplateVersion)
    ensures r.templateId == cloneId && r.versionId == versionId && r.isCurrent == v.isCurrent
    ensures r.versionNumber == if v.isCurrent then cloneVersion else v.versionNumber
    ensures r.(templateId := v.templateId, versionId := v.versionId, versionNumber := v.versionNumber) == v
    ensures WellFormedVersion(v) && cloneId != "" && (v.isCurrent ==> cloneVersion > 0) ==> WellFormedVersion(r)
    ensures cloneId == "" ==> !WellFormedVersion(r)
  {
    v.(templateId := cloneId, versionId := versionId,
       versionNumber := if v.isCurrent then cloneVersion else v.versionNumber)
  }

  /** The copies of a whole source history, with fresh identifiers drawn from `ids`. */
  function Copies(src: seq<TemplateVersion>, cloneId: string, ids: nat -> string, cloneVersion: int): (r: seq<TemplateVersion>)
    ensures |r| == |src|
    ensures forall i :: 0 <= i < |src| ==> r[i] == CopyEntry(src[i], cloneId, ids(i), cloneVersion)
  {
    seq(|src|, i requires 0 <= i < |src| => CopyEntry(src[i], cloneId, ids(i), cloneVersion))
  }

  /** Copying keeps every number except the current entry's, which becomes the clone's version. */
  lemma CopiesRenumberOnlyCurrent(src: seq<TemplateVersion>, cloneId: string, ids: nat -> string, cloneVersion: int)
    ensures forall i :: 0 <= i < |src| ==>
      Copies(src, cloneId, ids, cloneVersion)[i].versionNumber == (if src[i].isCurrent then cloneVersion else src[i].versionNumber)
    ensures forall i :: 0 <= i < |src| ==>
      Copies(src, cloneId, ids, cloneVersion)[i].jsonSchemaUrl == src[i].jsonSchemaUrl &&
      Copies(src, cloneId, ids, cloneVersion)[i].changeSummary == src[i].changeSummary &&
      Copies(src, cloneId, ids, cloneVersion)[i].isCurrent == src[i].isCurrent
  {
    var r := Copies(src, cloneId, ids, cloneVersion);
    forall i | 0 <= i < |src|
      ensures r[i] == CopyEntry(src[i], cloneId, ids(i), cloneVersion)
    {
    }
  }

  /**
   * Version numbers are not unique once a history is copied: a clone starts at
   * version 1 with its own entry numbered 1, and a copied entry that was
   * numbered 1 keeps its number.
   */
  lemma CopiedHistoryRepeatsNumbers(dup: TemplateVersion, first: TemplateVersion, cloneId: string, ids: nat -> string)
    requires dup.versionNumber == 1 && first.versionNumber == 1 && !first.isCurrent
    ensures var h := AppendAll([dup], Copies([first], cloneId, ids, 1));
      |h| == 2 && h[0].versionNumber == h[1].versionNumber == 1
  {
    AppendAllShape([dup], Copies([first], cloneId, ids, 1));
  }
}
