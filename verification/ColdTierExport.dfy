/**
  The cold-tier export loop: paging with LIMIT and OFFSET, upload with retries, chunked purge
  (scripts/data_lifecycle/cold_tier_evidence_to_s3.py), as one process runs it over a table that
  nobody else changes. Concurrent and delayed effects are in ColdTierSafety.
 */
module ColdTierExport {
  import opened Basics
  import opened Text

  datatype Row = Row(tenant: string, id: string, at: int)

  // --- The query ---

  function Filter(xs: seq<Row>, keep: Row -> bool): (r: seq<Row>)
    ensures |r| <= |xs|
  {
    if xs == [] then []
    else (if keep(xs[0]) then [xs[0]] else []) + Filter(xs[1..], keep)
  }

  lemma {:induction false} FiltersCommute(xs: seq<Row>, p: Row -> bool, q: Row -> bool)
    ensures Filter(Filter(xs, p), q) == Filter(Filter(xs, q), p)
  {
    if xs != [] {
      FiltersCommute(xs[1..], p, q);
      var px, qx := Filter(xs[1..], p), Filter(xs[1..], q);
      assert ([xs[0]] + px)[1..] == px && ([xs[0]] + qx)[1..] == qx;
      assert [] + px == px && [] + qx == qx;
    }
  }

  predicate AllKept(xs: seq<Row>, keep: Row -> bool) {
    forall i :: 0 <= i < |xs| ==> keep(xs[i])
  }

  predicate NoneKept(xs: seq<Row>, keep: Row -> bool) {
    forall i :: 0 <= i < |xs| ==> !keep(xs[i])
  }

  lemma {:induction false} FilterAll(xs: seq<Row>, keep: Row -> bool)
    requires AllKept(xs, keep)
    ensures Filter(xs, keep) == xs
  {
    if xs != [] {
      assert keep(xs[0]);
      FilterAll(xs[1..], keep);
    }
  }

  lemma {:induction false} FilterNone(xs: seq<Row>, keep: Row -> bool)
    requires NoneKept(xs, keep)
    ensures Filter(xs, keep) == []
  {
    if xs != [] {
      assert !keep(xs[0]);
      FilterNone(xs[1..], keep);
    }
  }

  lemma {:induction false} FilterSplits(xs: seq<Row>, ys: seq<Row>, keep: Row -> bool)
    ensures Filter(xs + ys, keep) == Filter(xs, keep) + Filter(ys, keep)
  {
    if xs == [] {
      assert xs + ys == ys;
    } else {
      assert (xs + ys)[1..] == xs[1..] + ys;
      FilterSplits(xs[1..], ys, keep);
      var head := if keep(xs[0]) then [xs[0]] else [];
      assert head + (Filter(xs[1..], keep) + Filter(ys, keep)) == head + Filter(xs[1..], keep) + Filter(ys, keep);
    }
  }

  datatype Window = Window(cutoff: int, tenant: Option<string>)

  predicate InWindow(w: Window, r: Row) {
    r.at < w.cutoff && (w.tenant.Some? ==> r.tenant == w.tenant.value)
  }

  function Inside(w: Window): Row -> bool {
    r => InWindow(w, r)
  }

  /** The rows of the table, which stands in ORDER BY order, that the export is about. */
  function Scope(table: seq<Row>, w: Window): seq<Row> {
    Filter(table, Inside(w))
  }

  /** LIMIT and OFFSET. */
  function Slice<T>(xs: seq<T>, offset: nat, limit: nat): seq<T> {
    if offset >= |xs| then [] else if offset + limit > |xs| then xs[offset..] else xs[offset..offset + limit]
  }

  // --- Purge ---

  predicate Matches(w: Window, page: seq<Row>, r: Row) {
    (exists p :: p in page && p.id == r.id) && (w.tenant.Some? ==> r.tenant == w.tenant.value)
  }

  function Spared(w: Window, page: seq<Row>): Row -> bool {
    r => !Matches(w, page, r)
  }

  /** What the table holds once the deletes for a page have taken effect. */
  function Purged(table: seq<Row>, w: Window, page: seq<Row>): seq<Row> {
    Filter(table, Spared(w, page))
  }

  lemma ScopeOfPurged(table: seq<Row>, w: Window, page: seq<Row>)
    ensures Scope(Purged(table, w, page), w) == Purged(Scope(table, w), w, page)
  {
    FiltersCommute(table, Spared(w, page), Inside(w));
  }

  /** A purge deletes exactly the rows of the tenant, if there is one, whose id a row of the page has. */
  lemma PurgedExactly(table: seq<Row>, w: Window, page: seq<Row>, r: Row)
    ensures r in Purged(table, w, page) <==>
              r in table && !((w.tenant.None? || w.tenant.value == r.tenant) && exists p :: p in page && p.id == r.id)
  {
    FilterMembers(table, Spared(w, page), r);
  }

  // --- The pages of a run ---

  /** The rows without `count` of them from `offset` on. */
  function Cut<T>(rows: seq<T>, offset: nat, count: nat): (r: seq<T>)
    requires offset + count <= |rows|
    ensures |r| == |rows| - count
  {
    rows[..offset] + rows[offset + count..]
  }

  /** The pages the loop fetches, when the purge of each page, if any, takes effect before the next query. */
  function Pages<T>(rows: seq<T>, offset: nat, limit: nat, purge: bool): seq<seq<T>>
    requires limit >= 1
    decreases |rows| + 1 - offset, |rows|
  {
    if offset >= |rows| then []
    else if offset + limit > |rows| then [rows[offset..]]
    else [rows[offset..offset + limit]]
         + Pages(if purge then Cut(rows, offset, limit) else rows, offset + limit, limit, purge)
  }

  /** The pages after the next one. */
  function PagesAfter<T>(rows: seq<T>, offset: nat, limit: nat, purge: bool): seq<seq<T>>
    requires limit >= 1
  {
    if offset + limit > |rows| then []
    else Pages(if purge then Cut(rows, offset, limit) else rows, offset + limit, limit, purge)
  }

  lemma PagesUnfold<T>(rows: seq<T>, offset: nat, limit: nat, purge: bool)
    requires limit >= 1 && offset < |rows|
    ensures Pages(rows, offset, limit, purge) == [Slice(rows, offset, limit)] + PagesAfter(rows, offset, limit, purge)
  {
  }

  lemma FullPage<T>(rows: seq<T>, offset: nat, limit: nat, purge: bool)
    requires limit >= 1 && offset + limit <= |rows|
    ensures Flatten(Pages(rows, offset, limit, purge))
         == Slice(rows, offset, limit)
            + Flatten(Pages(if purge then Cut(rows, offset, limit) else rows, offset + limit, limit, purge))
  {
    PagesUnfold(rows, offset, limit, purge);
    FlattenCons(Slice(rows, offset, limit), PagesAfter(rows, offset, limit, purge));
  }

  lemma LastPage<T>(rows: seq<T>, offset: nat, limit: nat, purge: bool)
    requires limit >= 1 && offset + limit > |rows|
    ensures Flatten(Pages(rows, offset, limit, purge)) == Slice(rows, offset, limit)
  {
    if offset < |rows| {
      PagesUnfold(rows, offset, limit, purge);
      FlattenCons(Slice(rows, offset, limit), []);
    }
  }

  lemma FullPageKept<T>(rows: seq<T>, offset: nat, limit: nat)
    requires limit >= 1 && offset + limit <= |rows|
    ensures Flatten(Pages(rows, offset, limit, false))
         == Slice(rows, offset, limit) + Flatten(Pages(rows, offset + limit, limit, false))
  {
    FullPage(rows, offset, limit, false);
  }

  /** Without purge the pages are the rows in scope: in order, each once, none missing. */
  lemma {:induction false} PagesComplete<T>(rows: seq<T>, offset: nat, limit: nat)
    requires limit >= 1 && offset <= |rows|
    ensures Flatten(Pages(rows, offset, limit, false)) == rows[offset..]
    decreases |rows| - offset
  {
    if offset + limit <= |rows| {
      FullPageKept(rows, offset, limit);
      PagesComplete(rows, offset + limit, limit);
      SliceThenRest(rows, offset, limit);
    } else {
      LastPage(rows, offset, limit, false);
      SliceIsRest(rows, offset, limit);
    }
  }

  lemma SliceIsRest<T>(rows: seq<T>, offset: nat, limit: nat)
    requires offset <= |rows| < offset + limit
    ensures Slice(rows, offset, limit) == rows[offset..]
  {
  }

  lemma SliceThenRest<T>(rows: seq<T>, offset: nat, limit: nat)
    requires offset + limit <= |rows|
    ensures Slice(rows, offset, limit) + rows[offset + limit..] == rows[offset..]
  {
  }

  /** x comes first, and only there. */
  predicate FirstIs<T(==)>(x: T, rows: seq<T>) {
    rows != [] && rows[0] == x && forall i :: 1 <= i < |rows| ==> rows[i] != x
  }

  lemma CutFirstIs<T>(x: T, rows: seq<T>, offset: nat, count: nat)
    requires FirstIs(x, rows) && 1 <= offset && offset + count <= |rows|
    ensures FirstIs(x, Cut(rows, offset, count))
  {
    var cut := Cut(rows, offset, count);
    assert forall i :: 1 <= i < |cut| ==> cut[i] == rows[if i < offset then i else i + count];
  }

  lemma NotInEither<T>(x: T, xs: seq<T>, ys: seq<T>)
    requires x !in xs && x !in ys
    ensures x !in xs + ys
  {
  }

  lemma FirstNotInSlice<T>(x: T, rows: seq<T>, offset: nat, limit: nat)
    requires offset >= 1 && FirstIs(x, rows)
    ensures x !in Slice(rows, offset, limit)
  {
    var page := Slice(rows, offset, limit);
    assert forall i :: 0 <= i < |page| ==> page[i] == rows[offset + i];
  }

  /** Once the offset has moved on, a purging run never sees the first remaining row. */
  lemma {:induction false} FirstRowSkipped<T>(x: T, rows: seq<T>, offset: nat, limit: nat)
    requires limit >= 1 && offset >= 1 && FirstIs(x, rows)
    ensures x !in Flatten(Pages(rows, offset, limit, true))
    decreases |rows|
  {
    FirstNotInSlice(x, rows, offset, limit);
    if offset + limit <= |rows| {
      CutFirstIs(x, rows, offset, limit);
      FirstRowSkipped(x, Cut(rows, offset, limit), offset + limit, limit);
      NotInEither(x, Slice(rows, offset, limit), Flatten(Pages(Cut(rows, offset, limit), offset + limit, limit, true)));
      FullPage(rows, offset, limit, true);
    } else {
      LastPage(rows, offset, limit, true);
    }
  }

  /**
    The offset also advances when a purge has emptied the front of the table, so with deletes that
    take effect at once a run exports every row in scope exactly when one page holds them all.
   */
  lemma PurgingRunCompleteExactly<T>(rows: seq<T>, limit: nat)
    requires limit >= 1 && Distinct(rows)
    ensures (forall i :: 0 <= i < |rows| ==> rows[i] in Flatten(Pages(rows, 0, limit, true))) <==> |rows| <= limit
  {
    if |rows| < limit {
      LastPage(rows, 0, limit, true);
    } else {
      FullPage(rows, 0, limit, true);
      if |rows| > limit {
        RowAfterPage(rows, limit);
        var left := Cut(rows, 0, limit);
        FirstRowSkipped(rows[limit], left, limit, limit);
        NotInEither(rows[limit], Slice(rows, 0, limit), Flatten(Pages(left, limit, limit, true)));
      }
    }
  }

  lemma RowAfterPage<T>(rows: seq<T>, limit: nat)
    requires 1 <= limit < |rows| && Distinct(rows)
    ensures FirstIs(rows[limit], Cut(rows, 0, limit))
    ensures rows[limit] !in Slice(rows, 0, limit)
  {
    assert Cut(rows, 0, limit) == rows[limit..];
  }

  predicate UniqueIds(rows: seq<Row>) {
    forall i, j {:trigger rows[i].id, rows[j].id} :: 0 <= i < j < |rows| ==> rows[i].id != rows[j].id
  }

  predicate AllInWindow(rows: seq<Row>, w: Window) {
    forall r :: r in rows ==> InWindow(w, r)
  }

  lemma StretchMatches(rows: seq<Row>, w: Window, lo: nat, hi: nat, i: nat)
    requires UniqueIds(rows) && AllInWindow(rows, w) && lo <= hi <= |rows| && i < |rows|
    ensures Matches(w, rows[lo..hi], rows[i]) <==> lo <= i < hi
  {
    assert InWindow(w, rows[i]);
    if lo <= i < hi {
      assert rows[lo..hi][i - lo] == rows[i];
      assert rows[i] in rows[lo..hi];
    }
  }

  /** Purging a stretch of the scope takes out exactly that stretch. */
  lemma PurgeCutsOut(rows: seq<Row>, w: Window, lo: nat, hi: nat)
    requires UniqueIds(rows) && AllInWindow(rows, w) && lo <= hi <= |rows|
    ensures Purged(rows, w, rows[lo..hi]) == Cut(rows, lo, hi - lo)
  {
    StretchKept(rows, w, lo, hi);
    CutOut(rows[..lo], rows[lo..hi], rows[hi..], Spared(w, rows[lo..hi]));
    assert rows == rows[..lo] + (rows[lo..hi] + rows[hi..]);
  }

  lemma StretchKept(rows: seq<Row>, w: Window, lo: nat, hi: nat)
    requires UniqueIds(rows) && AllInWindow(rows, w) && lo <= hi <= |rows|
    ensures var keep := Spared(w, rows[lo..hi]);
            AllKept(rows[..lo], keep) && NoneKept(rows[lo..hi], keep) && AllKept(rows[hi..], keep)
  {
    var keep := Spared(w, rows[lo..hi]);
    forall i | 0 <= i < |rows| ensures keep(rows[i]) <==> !(lo <= i < hi) { StretchMatches(rows, w, lo, hi, i); }
    assert forall i :: 0 <= i < |rows[hi..]| ==> rows[hi..][i] == rows[hi + i];
  }

  lemma CutOut(front: seq<Row>, page: seq<Row>, back: seq<Row>, keep: Row -> bool)
    requires AllKept(front, keep) && NoneKept(page, keep) && AllKept(back, keep)
    ensures Filter(front + (page + back), keep) == front + back
  {
    FilterSplits(front, page + back, keep);
    FilterSplits(page, back, keep);
    FilterAll(front, keep);
    FilterNone(page, keep);
    FilterAll(back, keep);
    assert [] + back == back;
  }

  lemma {:induction false} FilterMembers(xs: seq<Row>, keep: Row -> bool, x: Row)
    ensures x in Filter(xs, keep) <==> x in xs && keep(x)
  {
    if xs != [] { FilterMembers(xs[1..], keep, x); }
  }

  lemma {:induction false} FilterUnique(xs: seq<Row>, keep: Row -> bool)
    requires UniqueIds(xs)
    ensures UniqueIds(Filter(xs, keep))
  {
    if xs != [] {
      FilterUnique(xs[1..], keep);
      var rest := Filter(xs[1..], keep);
      forall i | 0 <= i < |rest| ensures rest[i].id != xs[0].id {
        FilterMembers(xs[1..], keep, rest[i]);
      }
    }
  }

  lemma ScopeInWindow(table: seq<Row>, w: Window)
    ensures AllInWindow(Scope(table, w), w)
  {
    forall r | r in Scope(table, w) ensures InWindow(w, r) { FilterMembers(table, Inside(w), r); }
  }

  // --- The tenant, as the query and as the delete take it ---

  predicate WordChar(c: char) {
    'a' <= c <= 'z' || 'A' <= c <= 'Z' || '0' <= c <= '9' || c == '_'
  }

  predicate Identifier(s: string) {
    s != "" && !('0' <= s[0] <= '9') && forall i :: 0 <= i < |s| ==> WordChar(s[i])
  }

  predicate ClauseTenant(s: string) {
    s != "" && forall i :: 0 <= i < |s| ==> WordChar(s[i]) || s[i] == '.' || s[i] == ':' || s[i] == '-'
  }

  /** The query strips the tenant; a blank one does not restrict it, and one with other characters is refused. */
  function WindowOf(cutoff: int, tenant: Option<string>): Option<Window> {
    if tenant.None? || Strip(tenant.value) == "" then Some(Window(cutoff, None))
    else if ClauseTenant(Strip(tenant.value)) then Some(Window(cutoff, Some(Strip(tenant.value))))
    else None
  }

  predicate NotForClause(c: char) {
    !('a' <= c <= 'z' || 'A' <= c <= 'Z' || '0' <= c <= '9' || c in "_.:-")
  }

  /**
    The query takes the rows older than the cutoff, of all tenants when none is given or a blank one, and otherwise
    of the tenant without the white space around it; it is refused for a tenant with any other character in it.
   */
  lemma WindowExactly(cutoff: int, tenant: Option<string>, r: Row)
    ensures var w := WindowOf(cutoff, tenant);
            && (w.None? <==> tenant.Some? && exists c :: c in Strip(tenant.value) && NotForClause(c))
            && (w.Some? ==> (InWindow(w.value, r) <==>
                  r.at < cutoff && (tenant.None? || Strip(tenant.value) in {"", r.tenant})))
  {
    if tenant.Some? { ClauseTenantExactly(Strip(tenant.value)); }
  }

  lemma ClauseTenantExactly(s: string)
    ensures ClauseTenant(s) <==> s != "" && forall c :: c in s ==> !NotForClause(c)
  {
    forall c ensures NotForClause(c) <==> !(WordChar(c) || c == '.' || c == ':' || c == '-') {
      assert "_.:-" == ['_', '.', ':', '-'];
    }
    if ClauseTenant(s) {
      forall c | c in s ensures !NotForClause(c) {
        var i :| 0 <= i < |s| && s[i] == c;
      }
    }
  }

  /** The delete takes the tenant as it is and wants an identifier. */
  predicate Purgeable(tenant: Option<string>) {
    tenant.Some? ==> Identifier(tenant.value)
  }

  /** Letters, digits and underscores, and no digit first; without a tenant there is nothing to check. */
  lemma PurgeableExactly(tenant: Option<string>)
    ensures Purgeable(tenant) <==>
              tenant.None? ||
              (tenant.value != "" && tenant.value[0] !in "0123456789"
               && forall c :: c in tenant.value ==> !NotForClause(c) && c !in ".:-")
  {
    if tenant.Some? { IdentifierExactly(tenant.value); }
  }

  lemma IdentifierExactly(s: string)
    ensures Identifier(s) <==>
              s != "" && s[0] !in "0123456789" && forall c :: c in s ==> !NotForClause(c) && c !in ".:-"
  {
    assert "0123456789" == ['0', '1', '2', '3', '4', '5', '6', '7', '8', '9'];
    forall c ensures WordChar(c) <==> !NotForClause(c) && c !in ".:-" {
      assert "_.:-" == ['_', '.', ':', '-'] && ".:-" == ['.', ':', '-'];
    }
    forall i | 0 <= i < |s| ensures s[i] in s {}
  }

  /** A tenant that can be purged is scoped alike by both. */
  lemma PurgeableScope(cutoff: int, tenant: Option<string>)
    requires Purgeable(tenant)
    ensures WindowOf(cutoff, tenant) == Some(Window(cutoff, tenant))
  {
    if tenant.Some? {
      assert WordChar(tenant.value[0]) && WordChar(tenant.value[|tenant.value| - 1]);
      StripKeepsStripped(tenant.value);
    }
  }

  // --- Upload and purge calls ---

  datatype Attempt = Stored | Refused | Transient

  /** An attempt succeeds after transient failures only. */
  ghost predicate Stores(outcome: nat -> Attempt, max: nat) {
    exists n: nat :: n < max && outcome(n) == Stored && forall i :: 0 <= i < n ==> outcome(i) == Transient
  }

  /** At most `max` attempts; the object is stored exactly when a stored attempt comes before any refusal. */
  method UploadWithRetries(outcome: nat -> Attempt, max: nat) returns (ok: bool, calls: nat)
    ensures ok <==> Stores(outcome, max)
    ensures calls <= max
    ensures ok ==> calls > 0 && outcome(calls - 1) == Stored
    ensures !ok ==> (calls == max || (calls > 0 && outcome(calls - 1) == Refused))
    ensures forall i :: 0 <= i < calls - 1 ==> outcome(i) == Transient
  {
    var attempt := 0;
    while attempt < max
      invariant attempt <= max
      invariant forall i :: 0 <= i < attempt ==> outcome(i) == Transient
    {
      attempt := attempt + 1;
      match outcome(attempt - 1) {
        case Stored => return true, attempt;
        case Refused =>
          forall n: nat | outcome(n) == Stored && n < max ensures exists i :: 0 <= i < n && outcome(i) != Transient {
            assert n > attempt - 1;
          }
          return false, attempt;
        case Transient =>
      }
    }
    return false, attempt;
  }

  const CHUNK_SIZE := 500

  predicate AllValid(ids: seq<string>, valid: string -> bool) {
    forall u :: u in ids ==> valid(u)
  }

  /**
    The delete statements of one purge: together they name exactly the ids, in chunks of at most 500; with an
    invalid id among them, only whole chunks before it; with a tenant that is no identifier, none.
   */
  method PurgeManifestIds(ids: seq<string>, tenant: Option<string>, valid: string -> bool)
    returns (ok: bool, statements: seq<seq<string>>)
    ensures ok <==> ids == [] || (Purgeable(tenant) && AllValid(ids, valid))
    ensures forall i :: 0 <= i < |statements| ==> 1 <= |statements[i]| <= 500 && AllValid(statements[i], valid)
    ensures forall i :: 0 <= i < |statements| - 1 ==> |statements[i]| == 500
    ensures Flatten(statements) <= ids
    ensures ok ==> Flatten(statements) == ids
    ensures !Purgeable(tenant) ==> statements == []
  {
    statements := [];
    if ids == [] {
      return true, statements;
    }
    if tenant.Some? && !Identifier(tenant.value) {
      return false, statements;
    }
    ok, statements := SendChunks(ids, valid);
  }

  method SendChunks(ids: seq<string>, valid: string -> bool) returns (ok: bool, statements: seq<seq<string>>)
    ensures ok <==> AllValid(ids, valid)
    ensures forall i :: 0 <= i < |statements| ==> 1 <= |statements[i]| <= 500 && AllValid(statements[i], valid)
    ensures forall i :: 0 <= i < |statements| - 1 ==> |statements[i]| == 500
    ensures Flatten(statements) <= ids
    ensures ok ==> Flatten(statements) == ids
  {
    statements := [];
    var i := 0;
    while i < |ids|
      invariant i <= |ids| && Flatten(statements) == ids[..i]
      invariant AllValid(ids[..i], valid)
      invariant Chunked(statements, valid)
      invariant i < |ids| ==> AllFull(statements)
    {
      var part := Slice(ids, i, CHUNK_SIZE);
      var sound := AllLookValid(part, valid);
      SliceValid(ids, i, part, valid);
      if !sound {
        return false, statements;
      }
      ChunkSent(statements, part, valid);
      FlattenSnoc(statements, part);
      assert ids[..i + |part|] == ids[..i] + part;
      statements := statements + [part];
      i := i + |part|;
    }
    assert ids[..|ids|] == ids;
    ok := true;
  }

  predicate AllFull(statements: seq<seq<string>>) {
    forall k :: 0 <= k < |statements| ==> |statements[k]| == CHUNK_SIZE
  }

  ghost predicate Chunked(statements: seq<seq<string>>, valid: string -> bool) {
    && (forall k :: 0 <= k < |statements| ==> 1 <= |statements[k]| <= CHUNK_SIZE && AllValid(statements[k], valid))
    && (forall k :: 0 <= k < |statements| - 1 ==> |statements[k]| == CHUNK_SIZE)
  }

  lemma ChunkSent(statements: seq<seq<string>>, part: seq<string>, valid: string -> bool)
    requires Chunked(statements, valid) && AllFull(statements)
    requires 1 <= |part| <= CHUNK_SIZE && AllValid(part, valid)
    ensures Chunked(statements + [part], valid)
    ensures |part| == CHUNK_SIZE ==> AllFull(statements + [part])
  {
  }

  lemma SliceValid(ids: seq<string>, i: nat, part: seq<string>, valid: string -> bool)
    requires i < |ids| && part == Slice(ids, i, CHUNK_SIZE) && AllValid(ids[..i], valid)
    ensures AllValid(ids, valid) ==> AllValid(part, valid)
    ensures AllValid(part, valid) ==> AllValid(ids[..i + |part|], valid)
  {
    assert ids[..i + |part|] == ids[..i] + part;
    assert forall u :: u in part ==> u in ids;
  }

  method AllLookValid(part: seq<string>, valid: string -> bool) returns (sound: bool)
    ensures sound <==> AllValid(part, valid)
  {
    for k := 0 to |part|
      invariant AllValid(part[..k], valid)
    {
      if !valid(part[k]) {
        return false;
      }
      assert part[..k + 1] == part[..k] + [part[k]];
    }
    assert part[..|part|] == part;
    sound := true;
  }

  // --- The loop ---

  class Warehouse {
    var rows: seq<Row>

    constructor (rows: seq<Row>)
      ensures this.rows == rows
    {
      this.rows := rows;
    }
  }

  class ObjectStore {
    var objects: seq<seq<Row>>

    constructor ()
      ensures objects == []
    {
      objects := [];
    }
  }

  /** `dryRun` is also the run without a bucket. */
  datatype Options = Options(
    cutoff: int, tenant: Option<string>, batchRows: nat, purge: bool, dryRun: bool, maxAttempts: nat)

  /** How the outside world answers the k-th upload, and which ids look like UUIDs. */
  datatype World = World(uploads: nat -> nat -> Attempt, valid: string -> bool)

  function TableAfter(table: seq<Row>, w: Window, page: seq<Row>, purge: bool): seq<Row> {
    if purge then Purged(table, w, page) else table
  }

  /** Purging a page of the scope from the table cuts it out of the scope. */
  lemma PurgedScope(table: seq<Row>, w: Window, offset: nat, count: nat)
    requires UniqueIds(table) && offset + count <= |Scope(table, w)|
    ensures Scope(Purged(table, w, Scope(table, w)[offset..offset + count]), w) == Cut(Scope(table, w), offset, count)
  {
    var scope := Scope(table, w);
    ScopeOfPurged(table, w, scope[offset..offset + count]);
    FilterUnique(table, Inside(w));
    ScopeInWindow(table, w);
    PurgeCutsOut(scope, w, offset, offset + count);
  }

  /** After a full page the loop goes on with the pages of the table as the purge has left it. */
  lemma NextScope(table: seq<Row>, w: Window, offset: nat, limit: nat, purge: bool)
    requires limit >= 1 && (purge ==> UniqueIds(table)) && |Slice(Scope(table, w), offset, limit)| == limit
    ensures var page := Slice(Scope(table, w), offset, limit);
            PagesAfter(Scope(table, w), offset, limit, purge)
            == Pages(Scope(TableAfter(table, w, page, purge), w), offset + |page|, limit, purge)
  {
    var scope := Scope(table, w);
    assert Slice(scope, offset, limit) == scope[offset..offset + limit];
    if purge { PurgedScope(table, w, offset, limit); }
  }

  lemma TableAfterUnique(table: seq<Row>, w: Window, page: seq<Row>, purge: bool)
    requires purge ==> UniqueIds(table)
    ensures purge ==> UniqueIds(TableAfter(table, w, page, purge))
  {
    if purge { FilterUnique(table, Spared(w, page)); }
  }

  function PagesOf(table: seq<Row>, w: Window, offset: nat, limit: nat, purge: bool): seq<seq<Row>>
    requires limit >= 1
  {
    Pages(Scope(table, w), offset, limit, purge)
  }

  lemma NoMorePages(table: seq<Row>, w: Window, offset: nat, limit: nat, purge: bool)
    requires limit >= 1 && Slice(Scope(table, w), offset, limit) == []
    ensures PagesOf(table, w, offset, limit, purge) == []
  {
  }

  /** The next page, and the pages after it as the purge of that page leaves them. */
  lemma NextPage(table: seq<Row>, w: Window, offset: nat, limit: nat, purge: bool) returns (left: seq<seq<Row>>)
    requires limit >= 1 && (purge ==> UniqueIds(table)) && Slice(Scope(table, w), offset, limit) != []
    ensures var page := Slice(Scope(table, w), offset, limit);
            var table' := TableAfter(table, w, page, purge);
            && PagesOf(table, w, offset, limit, purge) == [page] + left
            && left == (if |page| < limit then [] else PagesOf(table', w, offset + |page|, limit, purge))
            && (purge ==> UniqueIds(table'))
            && forall r :: r in page ==> r in table
  {
    var scope := Scope(table, w);
    var page := Slice(scope, offset, limit);
    left := PagesAfter(scope, offset, limit, purge);
    PagesUnfold(scope, offset, limit, purge);
    TableAfterUnique(table, w, page, purge);
    PageInTable(table, w, offset, limit);
    if |page| == limit {
      NextScope(table, w, offset, limit, purge);
    }
  }

  // --- What a purging run leaves of the table ---

  lemma {:induction false} FilterTwice(xs: seq<Row>, f: Row -> bool, g: Row -> bool, k: Row -> bool)
    requires forall x :: k(x) <==> f(x) && g(x)
    ensures Filter(Filter(xs, f), g) == Filter(xs, k)
  {
    if xs != [] {
      FilterTwice(xs[1..], f, g, k);
      var fs := Filter(xs[1..], f);
      assert ([xs[0]] + fs)[1..] == fs && [] + fs == fs;
    }
  }

  lemma MatchesEither(w: Window, p: seq<Row>, q: seq<Row>, r: Row)
    ensures Matches(w, p + q, r) <==> Matches(w, p, r) || Matches(w, q, r)
  {
    if Matches(w, p, r) { var x :| x in p && x.id == r.id; assert x in p + q; }
    if Matches(w, q, r) { var x :| x in q && x.id == r.id; assert x in p + q; }
  }

  /** Purges add up. */
  lemma PurgedTwice(table: seq<Row>, w: Window, p: seq<Row>, q: seq<Row>)
    ensures Purged(Purged(table, w, p), w, q) == Purged(table, w, p + q)
  {
    forall r ensures Spared(w, p + q)(r) <==> Spared(w, p)(r) && Spared(w, q)(r) { MatchesEither(w, p, q, r); }
    FilterTwice(table, Spared(w, p), Spared(w, q), Spared(w, p + q));
  }

  lemma PurgedNothing(table: seq<Row>, w: Window)
    ensures Purged(table, w, []) == table
  {
    FilterAll(table, Spared(w, []));
  }

  predicate Archives(objects: seq<seq<Row>>, r: Row) {
    exists i :: 0 <= i < |objects| && r in objects[i]
  }

  predicate AllArchived(objects: seq<seq<Row>>, rows: seq<Row>) {
    forall r :: r in rows ==> Archives(objects, r)
  }

  lemma ArchivesGrow(objects: seq<seq<Row>>, page: seq<Row>, rows: seq<Row>, part: seq<Row>)
    requires AllArchived(objects, rows) && part <= page
    ensures AllArchived(objects + [page], rows + part)
  {
    forall r | r in rows + part ensures Archives(objects + [page], r) {
      if r in rows {
        var i :| 0 <= i < |objects| && r in objects[i];
        assert (objects + [page])[i] == objects[i];
      } else {
        assert (objects + [page])[|objects|] == page;
      }
    }
  }

  /** Every row of the table before is still there or in an object. */
  predicate KeptOrArchived(before: seq<Row>, after: seq<Row>, objects: seq<seq<Row>>) {
    forall r :: r in before ==> r in after || Archives(objects, r)
  }

  lemma PurgedKept(table: seq<Row>, w: Window, gone: seq<Row>, objects: seq<seq<Row>>)
    requires UniqueIds(table) && (forall r :: r in gone ==> r in table) && AllArchived(objects, gone)
    ensures KeptOrArchived(table, Purged(table, w, gone), objects)
  {
    forall r | r in table ensures r in Purged(table, w, gone) || Archives(objects, r) {
      FilterMembers(table, Spared(w, gone), r);
      if Matches(w, gone, r) {
        var p :| p in gone && p.id == r.id;
        SameIdSameRow(table, p, r);
      }
    }
  }

  /** A purging run has taken out exactly the rows of `gone`, all of which are in objects. */
  predicate PurgedSoFar(
      before: seq<Row>, now: seq<Row>, w: Window, purge: bool, gone: seq<Row>, objects: seq<seq<Row>>)
  {
    if purge then now == Purged(before, w, gone) && (forall r :: r in gone ==> r in before)
        && AllArchived(objects, gone)
    else now == before
  }

  lemma PurgedSoFarKept(
      before: seq<Row>, now: seq<Row>, w: Window, purge: bool, gone: seq<Row>, objects: seq<seq<Row>>)
    requires PurgedSoFar(before, now, w, purge, gone, objects) && (purge ==> UniqueIds(before))
    ensures KeptOrArchived(before, now, objects)
  {
    if purge { PurgedKept(before, w, gone, objects); }
  }

  /** One more page, or the part of it that was deleted before the purge stopped. */
  lemma PageGone(
      before: seq<Row>, now: seq<Row>, w: Window, gone: seq<Row>, objects: seq<seq<Row>>, page: seq<Row>,
      part: seq<Row>)
    requires PurgedSoFar(before, now, w, true, gone, objects)
    requires (forall r :: r in page ==> r in now) && part <= page
    ensures PurgedSoFar(before, Purged(now, w, part), w, true, gone + part, objects + [page])
  {
    PurgedTwice(before, w, gone, part);
    ArchivesGrow(objects, page, gone, part);
    forall r | r in part ensures r in before {
      assert r in page;
      FilterMembers(before, Spared(w, gone), r);
    }
  }

  lemma SameIdSameRow(table: seq<Row>, p: Row, r: Row)
    requires UniqueIds(table) && p in table && r in table && p.id == r.id
    ensures p == r
  {
    var i :| 0 <= i < |table| && table[i] == p;
    var j :| 0 <= j < |table| && table[j] == r;
    IdsApart(table, i, j);
    IdsApart(table, j, i);
  }

  lemma IdsApart(table: seq<Row>, i: nat, j: nat)
    requires UniqueIds(table) && i < |table| && j < |table|
    ensures i < j ==> table[i].id != table[j].id
  {
  }

  lemma PageInTable(table: seq<Row>, w: Window, offset: nat, limit: nat)
    ensures forall r :: r in Slice(Scope(table, w), offset, limit) ==> r in table
  {
    forall r | r in Slice(Scope(table, w), offset, limit) ensures r in table {
      assert r in Scope(table, w);
      FilterMembers(table, Inside(w), r);
    }
  }

  ghost predicate PageStored(opts: Options, world: World, offset: nat) {
    Stores(world.uploads(offset), opts.maxAttempts)
  }

  /** The upload goes through, and so does the purge, if there is one. */
  ghost predicate PageAccepted(opts: Options, world: World, offset: nat, rows: seq<Row>) {
    || opts.dryRun
    || (PageStored(opts, world, offset)
        && (opts.purge ==> Purgeable(opts.tenant) && forall i :: 0 <= i < |rows| ==> world.valid(rows[i].id)))
  }

  function IdsOf(rows: seq<Row>): (ids: seq<string>)
    ensures |ids| == |rows| && forall i :: 0 <= i < |ids| ==> ids[i] == rows[i].id
  {
    seq(|rows|, i requires 0 <= i < |rows| => rows[i].id)
  }

  lemma ValidIds(rows: seq<Row>, valid: string -> bool)
    ensures AllValid(IdsOf(rows), valid) <==> forall i :: 0 <= i < |rows| ==> valid(rows[i].id)
  {
    if AllValid(IdsOf(rows), valid) {
      forall i | 0 <= i < |rows| ensures valid(rows[i].id) { assert IdsOf(rows)[i] in IdsOf(rows); }
    }
  }

  /**
    What a purge that stops leaves of an uploaded page: all but a stretch at its start, for which statements
    were sent.
   */
  ghost predicate PurgedPartly(now: seq<Row>, after: seq<Row>, win: Window, opts: Options, rows: seq<Row>) {
    exists n: nat :: n <= |rows| && after == Purged(now, win, rows[..n]) && (!Purgeable(opts.tenant) ==> n == 0)
  }

  /**
    One page: uploaded first, and only then deleted. An id that does not look like a UUID stops the purge after the
    statements already sent, and a tenant that is no identifier stops it before the first.
   */
  method ExportPage(
      w: Warehouse, s3: ObjectStore, opts: Options, win: Window, world: World, offset: nat, rows: seq<Row>)
    returns (ok: bool)
    requires WindowOf(opts.cutoff, opts.tenant) == Some(win) && rows != []
    modifies w, s3
    ensures ok <==> PageAccepted(opts, world, offset, rows)
    ensures ok ==> s3.objects == old(s3.objects) + if opts.dryRun then [] else [rows]
    ensures ok ==> w.rows == TableAfter(old(w.rows), win, rows, opts.purge && !opts.dryRun)
    ensures !ok && !PageStored(opts, world, offset) ==> s3.objects == old(s3.objects) && w.rows == old(w.rows)
    ensures !ok && PageStored(opts, world, offset) ==>
              && opts.purge && s3.objects == old(s3.objects) + [rows]
              && PurgedPartly(old(w.rows), w.rows, win, opts, rows)
  {
    if !opts.dryRun {
      var stored, calls := UploadWithRetries(world.uploads(offset), opts.maxAttempts);
      if !stored {
        return false;
      }
      s3.objects := s3.objects + [rows];
      if opts.purge {
        var valid, statements := PurgeManifestIds(IdsOf(rows), opts.tenant, world.valid);
        ValidIds(rows, world.valid);
        var n := |Flatten(statements)|;
        w.rows := Purged(w.rows, win, rows[..n]);
        if !valid {
          return false;
        }
        assert rows[..n] == rows;
      }
    }
    ok := true;
  }

  // --- The whole run ---

  /** How many pages go through before the first that does not. */
  ghost function Accepted(opts: Options, world: World, offset: nat, pages: seq<seq<Row>>): (n: nat)
    ensures n <= |pages|
    decreases |pages|
  {
    if pages == [] || !PageAccepted(opts, world, offset, pages[0]) then 0
    else 1 + Accepted(opts, world, offset + |pages[0]|, pages[1..])
  }

  /**
    A run goes on exactly as long as pages go through: it counts their rows, uploads them and, with purge, takes exactly
    them out of the table. The page at which it stops is uploaded too if it was the purge that failed, and deleted in
    part at most. A run that gets through all pages is done; a dry run always is, and changes nothing.
   */
  ghost predicate Exported(
      opts: Options, win: Window, world: World, before: seq<Row>, after: seq<Row>,
      objects: seq<seq<Row>>, objects': seq<seq<Row>>, ok: bool, total: nat)
    requires opts.batchRows >= 1
  {
    var purge := opts.purge && !opts.dryRun;
    var pages := PagesOf(before, win, 0, opts.batchRows, purge);
    var n := Accepted(opts, world, 0, pages);
    var gone := Flatten(pages[..n]);
    && (ok <==> n == |pages|)
    && total == |gone|
    && (opts.dryRun ==> ok && objects' == objects)
    && (!opts.dryRun ==>
          objects' == objects + pages[..n] + if !ok && PageStored(opts, world, total) then [pages[n]] else [])
    && (!purge ==> after == before)
    && (purge && (ok || !PageStored(opts, world, total)) ==> after == Purged(before, win, gone))
    && (purge && !ok && PageStored(opts, world, total) ==>
          PurgedPartly(Purged(before, win, gone), after, win, opts, pages[n]))
  }

  /** The rows that a run with these options is about. */
  predicate Due(opts: Options, r: Row) {
    r.at < opts.cutoff && (opts.tenant.None? || Strip(opts.tenant.value) in {"", r.tenant})
  }

  /** The new objects hold due rows of the table only, and every row that is not due stays in the table. */
  ghost predicate OnlyDue(
      opts: Options, before: seq<Row>, after: seq<Row>, objects: seq<seq<Row>>, objects': seq<seq<Row>>)
  {
    && objects <= objects'
    && (forall r :: Archives(objects'[|objects|..], r) ==> r in before && Due(opts, r))
    && (forall r :: r in before && !Due(opts, r) ==> r in after)
  }

  predicate AllFrom(xs: seq<Row>, rows: seq<Row>) {
    forall r :: r in xs ==> r in rows
  }

  lemma {:induction false} PagesFrom(rows: seq<Row>, offset: nat, limit: nat, purge: bool, table: seq<Row>)
    requires limit >= 1 && AllFrom(rows, table)
    ensures forall i :: 0 <= i < |Pages(rows, offset, limit, purge)| ==>
              AllFrom(Pages(rows, offset, limit, purge)[i], table)
    decreases |rows| + 1 - offset, |rows|
  {
    if offset + limit <= |rows| {
      var left := if purge then Cut(rows, offset, limit) else rows;
      PagesFrom(left, offset + limit, limit, purge, table);
    }
  }

  lemma {:induction false} FlattenArchives(xss: seq<seq<Row>>, r: Row)
    ensures r in Flatten(xss) <==> Archives(xss, r)
  {
    if xss != [] {
      var front, last := xss[..|xss| - 1], xss[|xss| - 1];
      FlattenArchives(front, r);
      if Archives(xss, r) {
        var i :| 0 <= i < |xss| && r in xss[i];
        if i < |front| { assert r in front[i]; }
      }
      if Archives(front, r) {
        var i :| 0 <= i < |front| && r in front[i];
        assert r in xss[i];
      }
    }
  }

  /** A purge of rows of the scope spares every other row of the table. */
  lemma PurgeSpares(before: seq<Row>, w: Window, gone: seq<Row>, r: Row)
    requires UniqueIds(before) && AllFrom(gone, Scope(before, w)) && r in before && !InWindow(w, r)
    ensures r in Purged(before, w, gone)
  {
    FilterMembers(before, Spared(w, gone), r);
    if Matches(w, gone, r) {
      var p :| p in gone && p.id == r.id;
      FilterMembers(before, Inside(w), p);
      SameIdSameRow(before, p, r);
    }
  }

  /** What left the table in a run is what its pages named. */
  lemma PurgedByPages(
      opts: Options, win: Window, world: World, before: seq<Row>, after: seq<Row>,
      objects: seq<seq<Row>>, objects': seq<seq<Row>>, ok: bool, total: nat) returns (gone: seq<Row>)
    requires opts.batchRows >= 1 && opts.purge && !opts.dryRun
    requires Exported(opts, win, world, before, after, objects, objects', ok, total)
    ensures after == Purged(before, win, gone) && AllFrom(gone, Scope(before, win))
  {
    var pages := PagesOf(before, win, 0, opts.batchRows, true);
    var n := Accepted(opts, world, 0, pages);
    gone := Flatten(pages[..n]);
    PagesFrom(Scope(before, win), 0, opts.batchRows, true, Scope(before, win));
    forall r | r in gone ensures r in Scope(before, win) {
      FlattenArchives(pages[..n], r);
      var i :| 0 <= i < n && r in pages[..n][i];
      assert AllFrom(pages[i], Scope(before, win));
    }
    if !ok && PageStored(opts, world, total) {
      var k: nat :| k <= |pages[n]| && after == Purged(Purged(before, win, gone), win, pages[n][..k]);
      PurgedTwice(before, win, gone, pages[n][..k]);
      assert AllFrom(pages[n], Scope(before, win));
      gone := gone + pages[n][..k];
    }
  }

  lemma NewObjectsFromScope(
      opts: Options, win: Window, world: World, before: seq<Row>, after: seq<Row>,
      objects: seq<seq<Row>>, objects': seq<seq<Row>>, ok: bool, total: nat)
    requires opts.batchRows >= 1
    requires Exported(opts, win, world, before, after, objects, objects', ok, total)
    ensures objects <= objects'
    ensures forall r :: Archives(objects'[|objects|..], r) ==> r in Scope(before, win)
  {
    var scope := Scope(before, win);
    var pages := PagesOf(before, win, 0, opts.batchRows, opts.purge && !opts.dryRun);
    PagesFrom(scope, 0, opts.batchRows, opts.purge && !opts.dryRun, scope);
    var n := NewObjects(opts, win, world, before, after, objects, objects', ok, total);
    forall r | Archives(objects'[|objects|..], r) ensures r in scope {
      var i :| 0 <= i < n && r in pages[..n][i];
      assert AllFrom(pages[i], scope);
    }
  }

  /** The new objects are the first so many pages. */
  lemma NewObjects(
      opts: Options, win: Window, world: World, before: seq<Row>, after: seq<Row>,
      objects: seq<seq<Row>>, objects': seq<seq<Row>>, ok: bool, total: nat) returns (n: nat)
    requires opts.batchRows >= 1
    requires Exported(opts, win, world, before, after, objects, objects', ok, total)
    ensures var pages := PagesOf(before, win, 0, opts.batchRows, opts.purge && !opts.dryRun);
            n <= |pages| && objects' == objects + pages[..n]
  {
    var pages := PagesOf(before, win, 0, opts.batchRows, opts.purge && !opts.dryRun);
    var k := Accepted(opts, world, 0, pages);
    if opts.dryRun {
      n := 0;
    } else if !ok && PageStored(opts, world, total) {
      n := k + 1;
      assert pages[..n] == pages[..k] + [pages[k]];
    } else {
      n := k;
    }
  }

  lemma ExportedOnlyDue(
      opts: Options, win: Window, world: World, before: seq<Row>, after: seq<Row>,
      objects: seq<seq<Row>>, objects': seq<seq<Row>>, ok: bool, total: nat)
    requires opts.batchRows >= 1 && WindowOf(opts.cutoff, opts.tenant) == Some(win)
    requires opts.purge && !opts.dryRun ==> UniqueIds(before)
    requires Exported(opts, win, world, before, after, objects, objects', ok, total)
    ensures OnlyDue(opts, before, after, objects, objects')
  {
    NewObjectsFromScope(opts, win, world, before, after, objects, objects', ok, total);
    forall r | Archives(objects'[|objects|..], r) ensures r in before && Due(opts, r) {
      FilterMembers(before, Inside(win), r);
      WindowExactly(opts.cutoff, opts.tenant, r);
    }
    if opts.purge && !opts.dryRun {
      var gone := PurgedByPages(opts, win, world, before, after, objects, objects', ok, total);
      forall r | r in before && !Due(opts, r) ensures r in after {
        WindowExactly(opts.cutoff, opts.tenant, r);
        PurgeSpares(before, win, gone, r);
      }
    }
  }

  /** Without purge, a run whose uploads go through puts exactly the due rows of the table into its objects. */
  lemma ExportsExactlyDue(
      opts: Options, win: Window, world: World, before: seq<Row>, after: seq<Row>,
      objects: seq<seq<Row>>, objects': seq<seq<Row>>, ok: bool, total: nat)
    requires opts.batchRows >= 1 && !opts.purge && !opts.dryRun
    requires WindowOf(opts.cutoff, opts.tenant) == Some(win)
    requires Exported(opts, win, world, before, after, objects, objects', ok, total)
    requires forall offset: nat :: Stores(world.uploads(offset), opts.maxAttempts)
    ensures ok && after == before && objects <= objects'
    ensures forall r :: Archives(objects'[|objects|..], r) <==>
              r in before && r.at < opts.cutoff && (opts.tenant.None? || Strip(opts.tenant.value) in {"", r.tenant})
  {
    forall offset: nat ensures PageStored(opts, world, offset) {
      assert Stores(world.uploads(offset), opts.maxAttempts);
    }
    CompleteWithoutPurge(opts, win, world, before, after, objects, objects', ok, total);
    forall r
      ensures Archives(objects'[|objects|..], r) <==>
                r in before && r.at < opts.cutoff && (opts.tenant.None? || Strip(opts.tenant.value) in {"", r.tenant})
    {
      FlattenArchives(objects'[|objects|..], r);
      FilterMembers(before, Inside(win), r);
      WindowExactly(opts.cutoff, opts.tenant, r);
    }
  }

  /** When no attempt for the first page is stored within the limit, the run fails and nothing has happened. */
  lemma ExhaustedUploadStops(
      opts: Options, win: Window, world: World, before: seq<Row>, after: seq<Row>,
      objects: seq<seq<Row>>, objects': seq<seq<Row>>, ok: bool, total: nat)
    requires opts.batchRows >= 1 && !opts.dryRun && Scope(before, win) != []
    requires Exported(opts, win, world, before, after, objects, objects', ok, total)
    requires forall n: nat :: n < opts.maxAttempts ==> world.uploads(0)(n) != Stored
    ensures !ok && total == 0 && objects' == objects && after == before
  {
    var pages := PagesOf(before, win, 0, opts.batchRows, opts.purge);
    PagesUnfold(Scope(before, win), 0, opts.batchRows, opts.purge);
    assert !PageStored(opts, world, 0);
    assert Accepted(opts, world, 0, pages) == 0;
    assert pages[..0] == [];
    PurgedNothing(before, win);
  }

  /**
    The export script, on a table that only its own purge changes. However it ends, every row is still in the table or
    in an object.
   */
  method Export(w: Warehouse, s3: ObjectStore, opts: Options, world: World) returns (ok: bool, total: nat)
    requires opts.batchRows >= 1 && (opts.purge && !opts.dryRun ==> UniqueIds(w.rows))
    modifies w, s3
    ensures WindowOf(opts.cutoff, opts.tenant).None? ==>
              !ok && total == 0 && w.rows == old(w.rows) && s3.objects == old(s3.objects)
    ensures WindowOf(opts.cutoff, opts.tenant).Some? ==>
              Exported(opts, WindowOf(opts.cutoff, opts.tenant).value, world,
                       old(w.rows), w.rows, old(s3.objects), s3.objects, ok, total)
    ensures KeptOrArchived(old(w.rows), w.rows, s3.objects)
    ensures OnlyDue(opts, old(w.rows), w.rows, old(s3.objects), s3.objects)
  {
    var win := WindowOf(opts.cutoff, opts.tenant);
    if win.None? {
      return false, 0;
    }
    ok, total := ExportLoop(w, s3, opts, win.value, world);
    ExportedOnlyDue(opts, win.value, world, old(w.rows), w.rows, old(s3.objects), s3.objects, ok, total);
  }

  /** Without purge, a run whose uploads all go through exports exactly the rows in scope, in order, each once. */
  lemma CompleteWithoutPurge(
      opts: Options, win: Window, world: World, before: seq<Row>, after: seq<Row>,
      objects: seq<seq<Row>>, objects': seq<seq<Row>>, ok: bool, total: nat)
    requires opts.batchRows >= 1 && !opts.purge && !opts.dryRun
    requires Exported(opts, win, world, before, after, objects, objects', ok, total)
    requires forall offset: nat :: PageStored(opts, world, offset)
    ensures ok && after == before && total == |Scope(before, win)|
    ensures objects <= objects' && Flatten(objects'[|objects|..]) == Scope(before, win)
  {
    var pages := PagesOf(before, win, 0, opts.batchRows, false);
    AllAccepted(opts, world, 0, pages);
    assert pages[..|pages|] == pages;
    PagesComplete(Scope(before, win), 0, opts.batchRows);
    assert objects' == objects + pages;
    assert objects'[|objects|..] == pages;
  }

  lemma {:induction false} AllAccepted(opts: Options, world: World, offset: nat, pages: seq<seq<Row>>)
    requires !opts.purge && forall k: nat :: PageStored(opts, world, k)
    ensures Accepted(opts, world, offset, pages) == |pages|
    decreases |pages|
  {
    if pages != [] {
      assert PageStored(opts, world, offset);
      AllAccepted(opts, world, offset + |pages[0]|, pages[1..]);
    }
  }

  /** A purge for a tenant that is no identifier uploads at most one page and deletes nothing. */
  lemma RefusedTenantStops(
      opts: Options, win: Window, world: World, before: seq<Row>, after: seq<Row>,
      objects: seq<seq<Row>>, objects': seq<seq<Row>>, ok: bool, total: nat)
    requires opts.batchRows >= 1 && opts.purge && !opts.dryRun && !Purgeable(opts.tenant)
    requires Exported(opts, win, world, before, after, objects, objects', ok, total)
    ensures after == before && |objects'| <= |objects| + 1
    ensures ok <==> Scope(before, win) == []
  {
    var scope := Scope(before, win);
    var pages := PagesOf(before, win, 0, opts.batchRows, true);
    assert Accepted(opts, world, 0, pages) == 0;
    assert pages[..0] == [];
    PurgedNothing(before, win);
    if scope != [] { PagesUnfold(scope, 0, opts.batchRows, true); }
    if !ok && PageStored(opts, world, total) { NothingPurged(before, after, win, opts, pages[0]); }
  }

  lemma NothingPurged(now: seq<Row>, after: seq<Row>, win: Window, opts: Options, rows: seq<Row>)
    requires PurgedPartly(now, after, win, opts, rows) && !Purgeable(opts.tenant)
    ensures after == now
  {
    assert rows[..0] == [];
    PurgedNothing(now, win);
  }

  /** Between two pages: what is done, what is purged and what is still to come. */
  ghost predicate Underway(
      opts: Options, win: Window, world: World, before: seq<Row>, objects: seq<seq<Row>>,
      now: seq<Row>, objects': seq<seq<Row>>, done: seq<seq<Row>>, rest: seq<seq<Row>>)
    requires opts.batchRows >= 1
  {
    var purge := opts.purge && !opts.dryRun;
    var pages := PagesOf(before, win, 0, opts.batchRows, purge);
    && (purge ==> UniqueIds(before) && UniqueIds(now))
    && pages == done + rest
    && objects' == objects + (if opts.dryRun then [] else done)
    && PurgedSoFar(before, now, win, purge, Flatten(done), objects')
    && Accepted(opts, world, 0, pages) == |done| + Accepted(opts, world, |Flatten(done)|, rest)
  }

  lemma UnderwayStart(opts: Options, win: Window, world: World, before: seq<Row>, objects: seq<seq<Row>>)
    requires opts.batchRows >= 1 && (opts.purge && !opts.dryRun ==> UniqueIds(before))
    ensures Underway(opts, win, world, before, objects, before, objects, [],
                     PagesOf(before, win, 0, opts.batchRows, opts.purge && !opts.dryRun))
  {
    PurgedNothing(before, win);
  }

  lemma UnderwayEnd(
      opts: Options, win: Window, world: World, before: seq<Row>, objects: seq<seq<Row>>,
      now: seq<Row>, objects': seq<seq<Row>>, done: seq<seq<Row>>)
    requires opts.batchRows >= 1 && Underway(opts, win, world, before, objects, now, objects', done, [])
    ensures Exported(opts, win, world, before, now, objects, objects', true, |Flatten(done)|)
    ensures KeptOrArchived(before, now, objects')
  {
    assert done + [] == done && done[..|done|] == done;
    PurgedSoFarKept(before, now, win, opts.purge && !opts.dryRun, Flatten(done), objects');
  }

  lemma AcceptedNext(opts: Options, world: World, offset: nat, page: seq<Row>, left: seq<seq<Row>>)
    requires PageAccepted(opts, world, offset, page)
    ensures Accepted(opts, world, offset, [page] + left) == 1 + Accepted(opts, world, offset + |page|, left)
  {
    assert ([page] + left)[1..] == left;
  }

  /** After a page that went through. */
  lemma UnderwayPage(
      opts: Options, win: Window, world: World, before: seq<Row>, objects: seq<seq<Row>>, now: seq<Row>,
      objects': seq<seq<Row>>, done: seq<seq<Row>>, page: seq<Row>, left: seq<seq<Row>>)
    requires opts.batchRows >= 1 && Underway(opts, win, world, before, objects, now, objects', done, [page] + left)
    requires PageAccepted(opts, world, |Flatten(done)|, page) && forall r :: r in page ==> r in now
    requires opts.purge && !opts.dryRun ==> UniqueIds(TableAfter(now, win, page, true))
    ensures Underway(opts, win, world, before, objects, TableAfter(now, win, page, opts.purge && !opts.dryRun),
                     objects' + (if opts.dryRun then [] else [page]), done + [page], left)
  {
    assert done + ([page] + left) == done + [page] + left;
    AcceptedNext(opts, world, |Flatten(done)|, page, left);
    FlattenSnoc(done, page);
    SeqAssociative(objects, done, [page]);
    if opts.purge && !opts.dryRun { PageGone(before, now, win, Flatten(done), objects', page, page); }
  }

  /** At a page that does not go through. */
  lemma UnderwayStops(
      opts: Options, win: Window, world: World, before: seq<Row>, objects: seq<seq<Row>>, now: seq<Row>,
      objects': seq<seq<Row>>, done: seq<seq<Row>>, page: seq<Row>, left: seq<seq<Row>>)
    requires opts.batchRows >= 1 && Underway(opts, win, world, before, objects, now, objects', done, [page] + left)
    requires !PageAccepted(opts, world, |Flatten(done)|, page)
    ensures var pages := PagesOf(before, win, 0, opts.batchRows, opts.purge && !opts.dryRun);
            && Accepted(opts, world, 0, pages) == |done| < |pages|
            && pages[..|done|] == done && pages[|done|] == page
  {
  }

  lemma FailedUpload(
      opts: Options, win: Window, world: World, before: seq<Row>, objects: seq<seq<Row>>, now: seq<Row>,
      objects': seq<seq<Row>>, done: seq<seq<Row>>, page: seq<Row>, left: seq<seq<Row>>)
    requires opts.batchRows >= 1 && Underway(opts, win, world, before, objects, now, objects', done, [page] + left)
    requires !PageAccepted(opts, world, |Flatten(done)|, page) && !PageStored(opts, world, |Flatten(done)|)
    ensures Exported(opts, win, world, before, now, objects, objects', false, |Flatten(done)|)
    ensures KeptOrArchived(before, now, objects')
  {
    UnderwayStops(opts, win, world, before, objects, now, objects', done, page, left);
    assert objects + done + [] == objects + done;
    PurgedSoFarKept(before, now, win, opts.purge, Flatten(done), objects');
  }

  lemma FailedPurge(
      opts: Options, win: Window, world: World, before: seq<Row>, objects: seq<seq<Row>>, now: seq<Row>,
      objects': seq<seq<Row>>, done: seq<seq<Row>>, page: seq<Row>, left: seq<seq<Row>>, after: seq<Row>)
    requires opts.batchRows >= 1 && Underway(opts, win, world, before, objects, now, objects', done, [page] + left)
    requires !PageAccepted(opts, world, |Flatten(done)|, page) && PageStored(opts, world, |Flatten(done)|)
    requires opts.purge && PurgedPartly(now, after, win, opts, page) && forall r :: r in page ==> r in now
    ensures Exported(opts, win, world, before, after, objects, objects' + [page], false, |Flatten(done)|)
    ensures KeptOrArchived(before, after, objects' + [page])
  {
    UnderwayStops(opts, win, world, before, objects, now, objects', done, page, left);
    var n: nat :| n <= |page| && after == Purged(now, win, page[..n]) && (!Purgeable(opts.tenant) ==> n == 0);
    PageGone(before, now, win, Flatten(done), objects', page, page[..n]);
    PurgedSoFarKept(before, after, win, true, Flatten(done) + page[..n], objects' + [page]);
  }

  /** Where the loop stands: the offset is the number of rows done, and the rest are the pages from there on. */
  ghost predicate AtOffset(
      opts: Options, win: Window, world: World, before: seq<Row>, objects: seq<seq<Row>>,
      now: seq<Row>, objects': seq<seq<Row>>, offset: nat, done: seq<seq<Row>>, rest: seq<seq<Row>>)
    requires opts.batchRows >= 1
  {
    && Underway(opts, win, world, before, objects, now, objects', done, rest)
    && offset == |Flatten(done)|
    && rest == PagesOf(now, win, offset, opts.batchRows, opts.purge && !opts.dryRun)
  }

  /** After a page that went through the loop stands at the next one, or is done. */
  ghost predicate WentThrough(
      opts: Options, win: Window, world: World, before: seq<Row>, objects: seq<seq<Row>>,
      now: seq<Row>, objects': seq<seq<Row>>, offset: nat, done: seq<seq<Row>>, rows: seq<Row>, left: seq<seq<Row>>)
    requires opts.batchRows >= 1
  {
    if |rows| < opts.batchRows
    then Exported(opts, win, world, before, now, objects, objects', true, offset + |rows|)
         && KeptOrArchived(before, now, objects')
    else AtOffset(opts, win, world, before, objects, now, objects', offset + |rows|, done + [rows], left)
  }

  /** The page at the offset, and the pages after it as the purge of that page leaves them. */
  ghost predicate Splits(opts: Options, win: Window, now: seq<Row>, offset: nat, rows: seq<Row>, left: seq<seq<Row>>)
    requires opts.batchRows >= 1
  {
    var purge := opts.purge && !opts.dryRun;
    var now' := TableAfter(now, win, rows, purge);
    && rows != [] && (forall r :: r in rows ==> r in now) && (purge ==> UniqueIds(now'))
    && left == if |rows| < opts.batchRows then [] else PagesOf(now', win, offset + |rows|, opts.batchRows, purge)
  }

  lemma AfterTurn(
      opts: Options, win: Window, world: World, before: seq<Row>, objects: seq<seq<Row>>, now: seq<Row>,
      objects': seq<seq<Row>>, offset: nat, done: seq<seq<Row>>, rows: seq<Row>, left: seq<seq<Row>>)
    requires opts.batchRows >= 1 && offset == |Flatten(done)| && Splits(opts, win, now, offset, rows, left)
    requires Underway(opts, win, world, before, objects, now, objects', done, [rows] + left)
    requires PageAccepted(opts, world, offset, rows)
    ensures WentThrough(opts, win, world, before, objects, TableAfter(now, win, rows, opts.purge && !opts.dryRun),
                        objects' + (if opts.dryRun then [] else [rows]), offset, done, rows, left)
  {
    UnderwayPage(opts, win, world, before, objects, now, objects', done, rows, left);
    FlattenSnoc(done, rows);
    if |rows| < opts.batchRows {
      UnderwayEnd(opts, win, world, before, objects, TableAfter(now, win, rows, opts.purge && !opts.dryRun),
                  objects' + (if opts.dryRun then [] else [rows]), done + [rows]);
    }
  }

  /** One page of a run that is under way. */
  method ExportTurn(
      w: Warehouse, s3: ObjectStore, opts: Options, win: Window, world: World, offset: nat, rows: seq<Row>,
      ghost before: seq<Row>, ghost objects: seq<seq<Row>>, ghost done: seq<seq<Row>>, ghost left: seq<seq<Row>>)
    returns (ok: bool)
    requires opts.batchRows >= 1 && WindowOf(opts.cutoff, opts.tenant) == Some(win)
    requires Underway(opts, win, world, before, objects, w.rows, s3.objects, done, [rows] + left)
    requires offset == |Flatten(done)| && Splits(opts, win, w.rows, offset, rows, left)
    modifies w, s3
    ensures ok ==> WentThrough(opts, win, world, before, objects, w.rows, s3.objects, offset, done, rows, left)
    ensures !ok ==> Exported(opts, win, world, before, w.rows, objects, s3.objects, false, offset)
    ensures !ok ==> KeptOrArchived(before, w.rows, s3.objects)
  {
    ghost var now, objects' := w.rows, s3.objects;
    ok := ExportPage(w, s3, opts, win, world, offset, rows);
    if ok {
      AfterTurn(opts, win, world, before, objects, now, objects', offset, done, rows, left);
      assert s3.objects == objects' + if opts.dryRun then [] else [rows];
    } else if !PageStored(opts, world, offset) {
      FailedUpload(opts, win, world, before, objects, now, objects', done, rows, left);
    } else {
      FailedPurge(opts, win, world, before, objects, now, objects', done, rows, left, w.rows);
    }
  }

  lemma SplitAtOffset(
      opts: Options, win: Window, world: World, before: seq<Row>, objects: seq<seq<Row>>, now: seq<Row>,
      objects': seq<seq<Row>>, offset: nat, done: seq<seq<Row>>, rest: seq<seq<Row>>, rows: seq<Row>)
    returns (left: seq<seq<Row>>)
    requires opts.batchRows >= 1 && rows == Slice(Scope(now, win), offset, opts.batchRows) && rows != []
    requires AtOffset(opts, win, world, before, objects, now, objects', offset, done, rest)
    ensures rest == [rows] + left && Splits(opts, win, now, offset, rows, left)
  {
    left := NextPage(now, win, offset, opts.batchRows, opts.purge && !opts.dryRun);
  }

  /** The body of the loop. */
  method ExportNext(
      w: Warehouse, s3: ObjectStore, opts: Options, win: Window, world: World, offset: nat, rows: seq<Row>,
      ghost before: seq<Row>, ghost objects: seq<seq<Row>>, ghost done: seq<seq<Row>>, ghost rest: seq<seq<Row>>)
    returns (ok: bool, ghost left: seq<seq<Row>>)
    requires opts.batchRows >= 1 && WindowOf(opts.cutoff, opts.tenant) == Some(win)
    requires AtOffset(opts, win, world, before, objects, w.rows, s3.objects, offset, done, rest)
    requires rows == Slice(Scope(w.rows, win), offset, opts.batchRows) && rows != []
    modifies w, s3
    ensures |left| < |rest|
    ensures ok && |rows| >= opts.batchRows ==>
              AtOffset(opts, win, world, before, objects, w.rows, s3.objects, offset + |rows|, done + [rows], left)
    ensures ok && |rows| < opts.batchRows ==>
              Exported(opts, win, world, before, w.rows, objects, s3.objects, true, offset + |rows|)
    ensures !ok ==> Exported(opts, win, world, before, w.rows, objects, s3.objects, false, offset)
    ensures !ok || |rows| < opts.batchRows ==> KeptOrArchived(before, w.rows, s3.objects)
  {
    left := SplitAtOffset(opts, win, world, before, objects, w.rows, s3.objects, offset, done, rest, rows);
    ok := ExportTurn(w, s3, opts, win, world, offset, rows, before, objects, done, left);
  }

  lemma AtEnd(
      opts: Options, win: Window, world: World, before: seq<Row>, objects: seq<seq<Row>>,
      now: seq<Row>, objects': seq<seq<Row>>, offset: nat, done: seq<seq<Row>>, rest: seq<seq<Row>>)
    requires opts.batchRows >= 1 && Slice(Scope(now, win), offset, opts.batchRows) == []
    requires AtOffset(opts, win, world, before, objects, now, objects', offset, done, rest)
    ensures Exported(opts, win, world, before, now, objects, objects', true, offset)
    ensures KeptOrArchived(before, now, objects')
  {
    NoMorePages(now, win, offset, opts.batchRows, opts.purge && !opts.dryRun);
    UnderwayEnd(opts, win, world, before, objects, now, objects', done);
  }

  method ExportLoop(w: Warehouse, s3: ObjectStore, opts: Options, win: Window, world: World)
    returns (ok: bool, total: nat)
    requires opts.batchRows >= 1 && (opts.purge && !opts.dryRun ==> UniqueIds(w.rows))
    requires WindowOf(opts.cutoff, opts.tenant) == Some(win)
    modifies w, s3
    ensures Exported(opts, win, world, old(w.rows), w.rows, old(s3.objects), s3.objects, ok, total)
    ensures KeptOrArchived(old(w.rows), w.rows, s3.objects)
  {
    ghost var done, rest := [], PagesOf(w.rows, win, 0, opts.batchRows, opts.purge && !opts.dryRun);
    UnderwayStart(opts, win, world, w.rows, s3.objects);
    var offset: nat := 0;
    total := 0;
    while true
      invariant AtOffset(opts, win, world, old(w.rows), old(s3.objects), w.rows, s3.objects, offset, done, rest)
      invariant total == offset
      decreases |rest|
    {
      var rows := Slice(Scope(w.rows, win), offset, opts.batchRows);
      if rows == [] {
        AtEnd(opts, win, world, old(w.rows), old(s3.objects), w.rows, s3.objects, offset, done, rest);
        break;
      }
      var exported;
      ghost var left;
      exported, left := ExportNext(w, s3, opts, win, world, offset, rows, old(w.rows), old(s3.objects), done, rest);
      if !exported {
        return false, total;
      }
      total := total + |rows|;
      offset := offset + |rows|;
      done, rest := done + [rows], left;
      if |rows| < opts.batchRows {
        break;
      }
    }
    ok := true;
  }
}
