/**
 * The pure parts of listing: which templates a listing selects, the order it
 * returns them in, and how a page is cut out of that order.
 */
module Listing {
  import opened Text
  import opened Models
  import opened Options

  /** The search text as it is compared: trimmed and lower-cased. */
  function NormalizedSearch(search: string): (q: string)
    ensures |q| <= |search|
    ensures q == [] || (!IsSpace(q[0]) && !IsSpace(q[|q| - 1]))
    ensures forall i :: 0 <= i < |q| ==> !('A' <= q[i] <= 'Z')
  {
    ToLower(TrimSpace(search))
  }

  /** The filter shared by listing and counting. */
  predicate Matches(t: Template, opt: ListOptions) {
    && t.tenantId == opt.tenantId
    && (opt.includeDeleted || t.deletedAt.None?)
    && (opt.documentType == "" || t.documentType == opt.documentType)
    && var q := NormalizedSearch(opt.search);
       q == "" || Contains(ToLower(t.name), q) || Contains(ToLower(t.description), q)
  }

  /**
   * What the filter selects: the tenant's own templates, live ones unless
   * deleted ones are asked for, of the requested type, and with the normalized
   * search text occurring in the lower-cased name or description.
   */
  lemma MatchesBySubstring(t: Template, opt: ListOptions)
    ensures Matches(t, opt) <==>
      && t.tenantId == opt.tenantId
      && (opt.includeDeleted || t.deletedAt.None?)
      && (opt.documentType == "" || t.documentType == opt.documentType)
      && var q := NormalizedSearch(opt.search);
         || q == ""
         || (exists i :: OccursAt(ToLower(t.name), q, i))
         || (exists i :: OccursAt(ToLower(t.description), q, i))
  {
    var q := NormalizedSearch(opt.search);
    ContainsIffOccurs(ToLower(t.name), q);
    ContainsIffOccurs(ToLower(t.description), q);
  }

  /**
   * The search text as compared is the given text, cut down to what lies
   * between its outer white space, lower-cased; it is empty exactly when the
   * given text is blank.
   */
  lemma {:induction false} NormalizedSearchIsTrimmedLower(search: string)
    ensures NormalizedSearch(search) == [] <==> forall i :: 0 <= i < |search| ==> IsSpace(search[i])
    ensures exists a, b ::
      && 0 <= a <= b <= |search| && NormalizedSearch(search) == ToLower(search[a..b])
      && (forall i :: 0 <= i < a ==> IsSpace(search[i]))
      && (forall i :: b <= i < |search| ==> IsSpace(search[i]))
  {
    TrimSpaceIsOuterSlice(search);
    TrimSpaceWindow(search);
  }

  /** Normalizing the search text does not depend on its letter case. */
  lemma {:induction false} NormalizedSearchIgnoresCase(search: string)
    ensures NormalizedSearch(ToLower(search)) == NormalizedSearch(search)
  {
    TrimLowerCommute(search);
    ToLowerIdempotent(TrimSpace(search));
  }

  /** The search is case-insensitive: re-casing the search text or the template's name and description selects the same templates. */
  lemma {:induction false} SearchIgnoresCase(t: Template, opt: ListOptions)
    ensures Matches(t, opt.(search := ToLower(opt.search))) <==> Matches(t, opt)
    ensures Matches(t.(name := ToLower(t.name), description := ToLower(t.description)), opt) <==> Matches(t, opt)
  {
    NormalizedSearchIgnoresCase(opt.search);
    ToLowerIdempotent(t.name);
    ToLowerIdempotent(t.description);
  }

  /** A soft-deleted template is hidden unless deleted ones are asked for; clearing the marker never hides one. */
  lemma SoftDeleteHidesRestoreReveals(t: Template, opt: ListOptions, when: int)
    ensures !opt.includeDeleted ==> !Matches(t.(deletedAt := Some(when)), opt)
    ensures Matches(t, opt) ==> Matches(t.(deletedAt := None), opt)
    ensures opt.includeDeleted ==> (Matches(t.(deletedAt := Some(when)), opt) <==> Matches(t.(deletedAt := None), opt))
  {
  }

  /** With no search text, no type filter and deleted ones included, a listing selects exactly the tenant's templates. */
  lemma UnfilteredSelectsTenant(t: Template, opt: ListOptions)
    requires opt.search == "" && opt.documentType == "" && opt.includeDeleted
    ensures Matches(t, opt) <==> t.tenantId == opt.tenantId
  {
    assert LeadingSpaces(opt.search) == 0;
  }

  /** Most recently updated first. */
  predicate NewestFirst(s: seq<Template>) {
    forall i, j :: 0 <= i < j < |s| ==> s[i].updatedAt >= s[j].updatedAt
  }

  /** Places `t` before the first element that is not more recent than it. */
  function InsertByRecency(t: Template, s: seq<Template>): (r: seq<Template>)
    ensures multiset(r) == multiset(s) + multiset{t}
  {
    if s == [] || t.updatedAt >= s[0].updatedAt then [t] + s
    else
      assert s == [s[0]] + s[1..];
      [s[0]] + InsertByRecency(t, s[1..])
  }

  /** Every element of the result is `t` or was already in `s`. */
  lemma {:induction false} InsertMembers(t: Template, s: seq<Template>)
    ensures forall x :: x in InsertByRecency(t, s) ==> x == t || x in s
  {
    if s != [] && t.updatedAt < s[0].updatedAt {
      InsertMembers(t, s[1..]);
    }
  }

  /** Inserting into an ordered sequence keeps it ordered. */
  lemma {:induction false} InsertKeepsOrder(t: Template, s: seq<Template>)
    requires NewestFirst(s)
    ensures NewestFirst(InsertByRecency(t, s))
  {
    if s != [] && t.updatedAt < s[0].updatedAt {
      var rest := InsertByRecency(t, s[1..]);
      InsertKeepsOrder(t, s[1..]);
      InsertMembers(t, s[1..]);
      assert forall x :: x in rest ==> x.updatedAt <= s[0].updatedAt;
      assert forall j :: 0 <= j < |rest| ==> rest[j] in rest;
    }
  }

  /**
   * The order a listing is returned in: newest first, and the same templates.
   * The source leaves ties to an unstable library sort; this insertion sort is
   * one of the orders it may produce.
   */
  function SortByRecency(s: seq<Template>): (r: seq<Template>)
    ensures NewestFirst(r)
    ensures multiset(r) == multiset(s)
  {
    if s == [] then []
    else
      var rest := SortByRecency(s[1..]);
      InsertSorted(s[0], s[1..], rest);
      assert s == [s[0]] + s[1..];
      InsertByRecency(s[0], rest)
  }

  /** Inserting the head into the sorted tail sorts the whole sequence. */
  lemma InsertSorted(x: Template, tail: seq<Template>, rest: seq<Template>)
    requires NewestFirst(rest) && multiset(rest) == multiset(tail)
    ensures NewestFirst(InsertByRecency(x, rest))
    ensures multiset(InsertByRecency(x, rest)) == multiset([x] + tail)
  {
    InsertKeepsOrder(x, rest);
  }

  /**
   * The page that starts at `offset` and holds at most `limit` elements; a
   * non-positive limit means "everything from the offset on". An offset past
   * the end gives an empty page. A negative offset is a slicing panic in the
   * source, so callers must not pass one. The end of the window is computed
   * without overflow; `PaginateAsWritten` keeps the 64-bit sum of the source.
   */
  function Paginate(s: seq<Template>, offset: int, limit: int): (page: seq<Template>)
    requires offset >= 0
    ensures offset > |s| ==> page == []
    ensures offset <= |s| ==> offset + |page| <= |s| && page == s[offset..offset + |page|]
    ensures limit > 0 ==> |page| <= limit
    ensures offset <= |s| && (limit <= 0 || offset + limit >= |s|) ==> |page| == |s| - offset
    ensures offset <= |s| && limit > 0 && offset + limit <= |s| ==> |page| == limit
  {
    if offset > |s| then []
    else
      var end := if limit <= 0 || offset + limit > |s| then |s| else offset + limit;
      s[offset..end]
  }

  /** The first page with no limit is the whole ordered selection. */
  lemma PaginateEverything(s: seq<Template>)
    ensures Paginate(s, 0, 0) == s
  {
  }

  /** A page followed by everything after it is everything from the page's start. */
  lemma PagesTile(s: seq<Template>, offset: nat, limit: int)
    requires offset <= |s| && limit > 0
    ensures Paginate(s, offset, limit) + Paginate(s, offset + limit, 0) == Paginate(s, offset, 0)
  {
    if offset + limit <= |s| {
      assert s[offset..offset + limit] + s[offset + limit..] == s[offset..];
    }
  }

  /** A page holds only elements of what it was cut from. */
  lemma PageMembers(s: seq<Template>, offset: nat, limit: int)
    ensures forall t :: t in Paginate(s, offset, limit) ==> t in s
  {
    var page := Paginate(s, offset, limit);
    forall t | t in page
      ensures t in s
    {
      var i :| 0 <= i < |page| && page[i] == t;
      assert t == s[offset + i];
    }
  }

  /** A page of an ordered selection is itself in order. */
  lemma PageKeepsOrder(s: seq<Template>, offset: nat, limit: int)
    requires NewestFirst(s)
    ensures NewestFirst(Paginate(s, offset, limit))
  {
  }

  /** The largest value of Go's 64-bit `int`. */
  const MaxInt: int := 0x7FFF_FFFF_FFFF_FFFF

  /** A 64-bit two's-complement sum wrapped back into range. */
  function Wrap64(x: int): (w: int)
    ensures -MaxInt - 1 <= w <= MaxInt
    ensures -MaxInt - 1 <= x <= MaxInt ==> w == x
    ensures (x - w) % (2 * (MaxInt + 1)) == 0
  {
    (x + MaxInt + 1) % (2 * (MaxInt + 1)) - (MaxInt + 1)
  }

  /**
   * Paging with the window end computed as a 64-bit sum, which wraps for a
   * limit close to the largest `int`. A wrapped end is negative, passes the
   * "past the end" test, and makes the slice panic; `None` stands for that panic.
   */
  function PaginateAsWritten(s: seq<Template>, offset: int, limit: int): (r: Option<seq<Template>>)
    requires 0 <= offset <= MaxInt && -MaxInt - 1 <= limit <= MaxInt
    ensures r.None? <==> offset <= |s| && limit > 0 && offset + limit > MaxInt
    ensures r.Some? ==> r.value == Paginate(s, offset, limit)
  {
    if offset > |s| then Some([])
    else
      var end := Wrap64(offset + limit);
      var stop := if limit <= 0 || end > |s| then |s| else end;
      if stop < offset then None else Some(s[offset..stop])
  }

  /** The panic: with at least one template, offset 1 and the largest limit crash the listing instead of returning the rest. */
  lemma HugeLimitPanics(s: seq<Template>)
    requires 1 <= |s| <= MaxInt
    ensures PaginateAsWritten(s, 1, MaxInt).None?
    ensures Paginate(s, 1, MaxInt) == s[1..]
  {
  }
}
