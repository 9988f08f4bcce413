/**
  The export against a live table: other writers insert rows, each delete statement takes effect at
  any later time (any number of times), uploads fail, and the process may die and be started again
  (scripts/data_lifecycle/cold_tier_evidence_to_s3.py).

  A fetch may return any rows in the window, so nothing here depends on paging. `born` records every
  row the table ever held.
 */
module ColdTierSafety {
  import opened Basics
  import opened Text
  import opened ColdTierExport

  datatype Delete = Delete(ids: set<string>)

  datatype Phase =
    | Fetching
    | Uploading(page: seq<Row>)
    | Purging(page: seq<Row>, sent: nat)
    | Stopped

  datatype State = State(table: set<Row>, born: set<Row>, objects: seq<seq<Row>>, deletes: set<Delete>, phase: Phase)

  datatype Action =
    | Insert(r: Row)
    | Begin
    | Fetch(page: seq<Row>)
    | Upload(ok: bool)
    | PurgeChunk
    | TakeEffect(d: Delete)
    | Die

  datatype Env = Env(window: Window, purge: bool, initial: set<Row>)

  predicate DeleteMatches(env: Env, d: Delete, r: Row) {
    r.id in d.ids && TenantMatches(env.window, r)
  }

  function ChunkIds(page: seq<Row>, sent: nat): set<string> {
    set r | r in Slice(page, sent, CHUNK_SIZE) :: r.id
  }

  function Apply(env: Env, s: State, a: Action): State {
    match a
    case Insert(r) => s.(table := s.table + {r}, born := s.born + {r})
    case Begin => s.(phase := Fetching)
    case Fetch(page) =>
      if s.phase.Fetching? && forall r :: r in page ==> r in s.table && InWindow(env.window, r)
      then s.(phase := if page == [] then Stopped else Uploading(page)) else s
    case Upload(ok) =>
      if !s.phase.Uploading? then s
      else if !ok then s.(phase := Stopped)
      else s.(objects := s.objects + [s.phase.page],
              phase := if env.purge then Purging(s.phase.page, 0) else Fetching)
    case PurgeChunk =>
      if !s.phase.Purging? then s
      else if s.phase.sent >= |s.phase.page| then s.(phase := Fetching)
      else s.(deletes := s.deletes + {Delete(ChunkIds(s.phase.page, s.phase.sent))},
              phase := Purging(s.phase.page, s.phase.sent + CHUNK_SIZE))
    case TakeEffect(d) =>
      if d in s.deletes then s.(table := set r | r in s.table && !DeleteMatches(env, d, r)) else s
    case Die => s.(phase := Stopped)
  }

  function Run(env: Env, actions: seq<Action>): State {
    if actions == [] then State(env.initial, env.initial, [], {}, Stopped)
    else Apply(env, Run(env, actions[..|actions| - 1]), actions[|actions| - 1])
  }

  predicate Archived(s: State, r: Row) {
    exists i :: 0 <= i < |s.objects| && r in s.objects[i]
  }

  predicate TenantMatches(w: Window, r: Row) {
    w.tenant.Some? ==> r.tenant == w.tenant.value
  }

  /** A delete for row r, which is in the window, would also hit the different row q. */
  predicate Clash(w: Window, r: Row, q: Row) {
    && r != q && r.id == q.id && r.at < w.cutoff
    && (w.tenant.Some? ==> r.tenant == w.tenant.value && q.tenant == w.tenant.value)
  }

  predicate NoClash(w: Window, rows: set<Row>) {
    forall r, q :: r in rows && q in rows ==> !Clash(w, r, q)
  }

  /** Every row that was ever in the table is still there or in an uploaded object. */
  predicate NothingLost(s: State) {
    forall r :: r in s.born ==> r in s.table || Archived(s, r)
  }

  predicate PhaseOk(env: Env, s: State) {
    match s.phase
    case Uploading(page) => forall r :: r in page ==> r in s.born && InWindow(env.window, r)
    case Purging(page, _) => page in s.objects
    case _ => true
  }

  ghost predicate Inv(env: Env, s: State) {
    && s.table <= s.born
    && NothingLost(s)
    && PhaseOk(env, s)
    && (forall r :: Archived(s, r) ==> r in s.born && InWindow(env.window, r))
    && (forall d, id :: d in s.deletes && id in d.ids ==> exists r :: Archived(s, r) && r.id == id)
  }

  lemma ArchivedGrows(s: State, s': State, r: Row)
    requires s.objects <= s'.objects && Archived(s, r)
    ensures Archived(s', r)
  {
    var i :| 0 <= i < |s.objects| && r in s.objects[i];
    assert s'.objects[i] == s.objects[i];
  }

  /** A delete that takes effect hits archived rows only. */
  lemma EffectHitsArchived(env: Env, s: State, d: Delete, r: Row)
    requires Inv(env, s) && NoClash(env.window, s.born)
    requires d in s.deletes && r in s.table && DeleteMatches(env, d, r)
    ensures Archived(s, r)
  {
    var q :| Archived(s, q) && q.id == r.id;
    assert !Clash(env.window, q, r);
  }

  lemma UploadKeeps(env: Env, s: State)
    requires Inv(env, s) && s.phase.Uploading?
    ensures Inv(env, Apply(env, s, Upload(true)))
  {
    var s', page := Apply(env, s, Upload(true)), s.phase.page;
    assert s'.objects[|s.objects|] == page;
    forall r | Archived(s', r) ensures r in s'.born && InWindow(env.window, r) {
      var i :| 0 <= i < |s'.objects| && r in s'.objects[i];
      if i < |s.objects| { assert r in s.objects[i] && Archived(s, r); }
    }
    forall r | r in s'.born ensures r in s'.table || Archived(s', r) {
      if r !in s.table { ArchivedGrows(s, s', r); }
    }
    forall d, id | d in s'.deletes && id in d.ids ensures exists r :: Archived(s', r) && r.id == id {
      var r :| Archived(s, r) && r.id == id;
      ArchivedGrows(s, s', r);
    }
  }

  lemma PurgeKeeps(env: Env, s: State)
    requires Inv(env, s) && s.phase.Purging?
    ensures Inv(env, Apply(env, s, PurgeChunk))
  {
    var s', page, sent := Apply(env, s, PurgeChunk), s.phase.page, s.phase.sent;
    assert forall r :: Archived(s', r) == Archived(s, r);
    forall d, id | d in s'.deletes && id in d.ids ensures exists r :: Archived(s', r) && r.id == id {
      if d in s.deletes {
        var r :| Archived(s, r) && r.id == id;
      } else {
        var r :| r in Slice(page, sent, CHUNK_SIZE) && r.id == id;
        assert r in page;
        assert Archived(s, r);
      }
    }
  }

  lemma EffectKeeps(env: Env, s: State, d: Delete)
    requires Inv(env, s) && NoClash(env.window, s.born) && d in s.deletes
    ensures Inv(env, Apply(env, s, TakeEffect(d)))
  {
    var s' := Apply(env, s, TakeEffect(d));
    assert forall r :: Archived(s', r) == Archived(s, r);
    forall r | r in s'.born ensures r in s'.table || Archived(s', r) {
      if r in s.table && DeleteMatches(env, d, r) { EffectHitsArchived(env, s, d, r); }
    }
  }

  lemma OthersKeep(env: Env, s: State, a: Action)
    requires Inv(env, s) && (a.Insert? || a.Begin? || a.Fetch? || a.Die? || a == Upload(false))
    ensures Inv(env, Apply(env, s, a))
  {
    var s' := Apply(env, s, a);
    assert s'.objects == s.objects && s'.deletes == s.deletes;
    assert forall r :: Archived(s', r) == Archived(s, r);
  }

  lemma {:induction false} Safe(env: Env, actions: seq<Action>)
    requires NoClash(env.window, Run(env, actions).born)
    ensures Inv(env, Run(env, actions))
  {
    if actions != [] {
      var s, a := Run(env, actions[..|actions| - 1]), actions[|actions| - 1];
      assert s.born <= Run(env, actions).born;
      Safe(env, actions[..|actions| - 1]);
      match a
      case Upload(ok) => if ok { if s.phase.Uploading? { UploadKeeps(env, s); } } else { OthersKeep(env, s, a); }
      case PurgeChunk => if s.phase.Purging? { PurgeKeeps(env, s); }
      case TakeEffect(d) => if d in s.deletes { EffectKeeps(env, s, d); }
      case Insert(_) => OthersKeep(env, s, a);
      case Begin => OthersKeep(env, s, a);
      case Fetch(_) => OthersKeep(env, s, a);
      case Die => OthersKeep(env, s, a);
    }
  }

  /**
    At every step of every run each row ever in the table is still there or in an uploaded object; a
    row that is not older than the cutoff, or of another tenant, is always still there and in no object.
   */
  lemma NoRowLost(env: Env, actions: seq<Action>, r: Row)
    requires NoClash(env.window, Run(env, actions).born)
    requires r in Run(env, actions).born
    ensures r in Run(env, actions).table || Archived(Run(env, actions), r)
    ensures r.at >= env.window.cutoff || (env.window.tenant.Some? && r.tenant != env.window.tenant.value) ==>
              r in Run(env, actions).table && !Archived(Run(env, actions), r)
  {
    Safe(env, actions);
  }

  /** The same in the options of the script. */
  lemma RowsNotDueStay(env: Env, cutoff: int, tenant: Option<string>, actions: seq<Action>, r: Row)
    requires WindowOf(cutoff, tenant) == Some(env.window) && NoClash(env.window, Run(env, actions).born)
    requires r in Run(env, actions).born
    requires r.at >= cutoff || (tenant.Some? && Strip(tenant.value) !in {"", r.tenant})
    ensures r in Run(env, actions).table && !Archived(Run(env, actions), r)
  {
    WindowExactly(cutoff, tenant, r);
    Safe(env, actions);
  }

  /** Uploaded objects hold only rows that were in the table, inside the window. */
  lemma ArchiveIsGenuine(env: Env, actions: seq<Action>, r: Row)
    requires Archived(Run(env, actions), r)
    ensures r in Run(env, actions).born && r.at < env.window.cutoff
    ensures env.window.tenant.Some? ==> r.tenant == env.window.tenant.value
  {
    GenuineRun(env, actions);
  }

  ghost predicate Genuine(env: Env, s: State) {
    && s.table <= s.born
    && (s.phase.Uploading? ==> forall r :: r in s.phase.page ==> r in s.born && InWindow(env.window, r))
    && forall r :: Archived(s, r) ==> r in s.born && InWindow(env.window, r)
  }

  lemma GenuineStep(env: Env, s: State, a: Action)
    requires Genuine(env, s)
    ensures Genuine(env, Apply(env, s, a))
  {
    var s' := Apply(env, s, a);
    forall r | Archived(s', r) ensures r in s'.born && InWindow(env.window, r) {
      var i :| 0 <= i < |s'.objects| && r in s'.objects[i];
      if i < |s.objects| { assert s'.objects[i] == s.objects[i] && Archived(s, r); }
    }
  }

  lemma {:induction false} GenuineRun(env: Env, actions: seq<Action>)
    ensures Genuine(env, Run(env, actions))
  {
    if actions != [] {
      GenuineRun(env, actions[..|actions| - 1]);
      GenuineStep(env, Run(env, actions[..|actions| - 1]), actions[|actions| - 1]);
    }
  }

  /** Whatever deletes are outstanding may all take effect: the rows they hit are archived. */
  lemma OutstandingDeletesHarmless(env: Env, actions: seq<Action>, d: Delete, r: Row)
    requires NoClash(env.window, Run(env, actions).born)
    requires d in Run(env, actions).deletes && r in Run(env, actions).table && DeleteMatches(env, d, r)
    ensures Archived(Run(env, actions), r)
  {
    Safe(env, actions);
    EffectHitsArchived(env, Run(env, actions), d, r);
  }

  // --- Deletes go by id alone ---

  lemma Extend(env: Env, actions: seq<Action>, a: Action)
    ensures Run(env, actions + [a]) == Apply(env, Run(env, actions), a)
  {
    assert (actions + [a])[..|actions|] == actions;
  }

  /** A run has uploaded a page, its first, and sent this much of the purge; the table still holds all it ever held. */
  predicate PurgeUnderway(s: State, page: seq<Row>, sent: nat) {
    s.table == s.born && s.objects == [page] && s.phase == Purging(page, sent)
  }

  /** k statements of a purge. */
  function Chunks(k: nat): seq<Action> {
    seq(k, _ => PurgeChunk)
  }

  lemma {:induction false} SendsChunks(env: Env, actions: seq<Action>, page: seq<Row>, k: nat)
    requires PurgeUnderway(Run(env, actions), page, 0) && (k > 0 ==> (k - 1) * CHUNK_SIZE < |page|)
    ensures PurgeUnderway(Run(env, actions + Chunks(k)), page, k * CHUNK_SIZE)
    ensures Run(env, actions + Chunks(k)).born == Run(env, actions).born
    ensures k > 0 ==> Delete(ChunkIds(page, (k - 1) * CHUNK_SIZE)) in Run(env, actions + Chunks(k)).deletes
  {
    if k == 0 {
      assert actions + Chunks(0) == actions;
    } else {
      SendsChunks(env, actions, page, k - 1);
      Extend(env, actions + Chunks(k - 1), PurgeChunk);
      assert actions + Chunks(k - 1) + [PurgeChunk] == actions + Chunks(k);
    }
  }

  lemma InItsChunk(page: seq<Row>, j: nat)
    requires j < |page|
    ensures (j / CHUNK_SIZE) * CHUNK_SIZE < |page| && page[j].id in ChunkIds(page, (j / CHUNK_SIZE) * CHUNK_SIZE)
  {
    var sent := (j / CHUNK_SIZE) * CHUNK_SIZE;
    assert sent <= j < sent + CHUNK_SIZE;
    assert Slice(page, sent, CHUNK_SIZE)[j - sent] == page[j];
  }

  /** From there, the purge takes with it every row outside the page that a row of the page clashes with. */
  lemma PurgeHits(env: Env, actions: seq<Action>, page: seq<Row>, r: Row, q: Row)
    requires PurgeUnderway(Run(env, actions), page, 0) && r in page
    requires q in Run(env, actions).born && q !in page && Clash(env.window, r, q)
    ensures exists more :: !NothingLost(Run(env, actions + more))
                           && Run(env, actions + more).born == Run(env, actions).born
  {
    var j :| 0 <= j < |page| && page[j] == r;
    var k := j / CHUNK_SIZE + 1;
    var d := Delete(ChunkIds(page, (k - 1) * CHUNK_SIZE));
    InItsChunk(page, j);
    SendsChunks(env, actions, page, k);
    Extend(env, actions + Chunks(k), TakeEffect(d));
    assert actions + Chunks(k) + [TakeEffect(d)] == actions + (Chunks(k) + [TakeEffect(d)]);
    var s := Run(env, actions + (Chunks(k) + [TakeEffect(d)]));
    assert s.objects == [page] && q !in s.table;
    assert !Archived(s, q);
  }

  lemma UploadPage(env: Env, page: seq<Row>)
    requires env.purge && page != [] && forall r :: r in page ==> r in env.initial && InWindow(env.window, r)
    ensures PurgeUnderway(Run(env, [Begin] + [Fetch(page)] + [Upload(true)]), page, 0)
    ensures Run(env, [Begin] + [Fetch(page)] + [Upload(true)]).born == env.initial
  {
    Extend(env, [], Begin);
    assert [] + [Begin] == [Begin];
    Extend(env, [Begin], Fetch(page));
    Extend(env, [Begin] + [Fetch(page)], Upload(true));
  }

  /** The page is the whole scope, in some order. */
  ghost predicate IsScope(env: Env, page: seq<Row>) {
    forall r :: r in page <==>
      r in env.initial && r.at < env.window.cutoff && (env.window.tenant.Some? ==> r.tenant == env.window.tenant.value)
  }

  /**
    A row outside the window, newer than the cutoff, is lost when its id is also that of a row in it: the run fetches
    all of the window as one page, in any order, uploads it and purges it.
   */
  lemma SharedIdIsLost(env: Env, page: seq<Row>, r: Row, q: Row)
    requires env.purge && IsScope(env, page)
    requires r in env.initial && q in env.initial && Clash(env.window, r, q) && q.at >= env.window.cutoff
    ensures exists more :: !NothingLost(Run(env, [Begin] + [Fetch(page)] + [Upload(true)] + more))
  {
    UploadPage(env, page);
    PurgeHits(env, [Begin] + [Fetch(page)] + [Upload(true)], page, r, q);
  }

  /** No run in which the table ever holds only these rows loses one, whatever it starts with and is inserted. */
  ghost predicate AlwaysKept(env: Env, rows: set<Row>) {
    forall initial: set<Row>, actions: seq<Action> ::
      Run(env.(initial := initial), actions).born <= rows ==> NothingLost(Run(env.(initial := initial), actions))
  }

  /** A late insert: the table holds r alone, all of it is fetched and uploaded, and q arrives before the purge. */
  lemma LateRowIsLost(env: Env, r: Row, q: Row)
    requires env.purge && Clash(env.window, r, q)
    ensures exists actions :: Run(env.(initial := {r}), actions).born == {r, q}
                           && !NothingLost(Run(env.(initial := {r}), actions))
  {
    var e := env.(initial := {r});
    var actions := [Begin] + [Fetch([r])] + [Upload(true)];
    UploadPage(e, [r]);
    Extend(e, actions, Insert(q));
    PurgeHits(e, actions + [Insert(q)], [r], r, q);
  }

  /**
    The archive is safe for a set of rows if and only if no row of the window shares its id with another row of
    the scope's tenant.
   */
  lemma KeptExactly(env: Env, rows: set<Row>)
    requires env.purge
    ensures AlwaysKept(env, rows) <==> NoClash(env.window, rows)
  {
    if NoClash(env.window, rows) {
      forall initial: set<Row>, actions: seq<Action> | Run(env.(initial := initial), actions).born <= rows
        ensures NothingLost(Run(env.(initial := initial), actions))
      {
        Safe(env.(initial := initial), actions);
      }
    } else {
      var r, q :| r in rows && q in rows && Clash(env.window, r, q);
      LateRowIsLost(env, r, q);
    }
  }

  /** Without purge nothing is ever deleted, so no condition on the ids is needed. */
  lemma {:induction false} NoPurgeKeepsAll(env: Env, actions: seq<Action>)
    requires !env.purge
    ensures Run(env, actions).table == Run(env, actions).born
  {
    NoPurgeNoDelete(env, actions);
    if actions != [] { NoPurgeKeepsAll(env, actions[..|actions| - 1]); }
    if actions != [] { NoPurgeNoDelete(env, actions[..|actions| - 1]); }
  }

  lemma {:induction false} NoPurgeNoDelete(env: Env, actions: seq<Action>)
    requires !env.purge
    ensures Run(env, actions).deletes == {} && !Run(env, actions).phase.Purging?
  {
    if actions != [] { NoPurgeNoDelete(env, actions[..|actions| - 1]); }
  }
}
