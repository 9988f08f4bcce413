/**
  What every run of the ingest protocol guarantees, for every interleaving, failure and re-run,
  and the exact condition under which a drained batch can be lost.
 */
module IngestSafety {
  import opened Basics
  import opened Merkle
  import opened BatchRecord
  import opened BatchAnchor
  import opened IngestProtocol

  function Init<T>(xs: seq<T>): seq<T>
    requires xs != []
  {
    xs[..|xs| - 1]
  }

  function Last<T>(xs: seq<T>): T
    requires xs != []
  {
    xs[|xs| - 1]
  }

  // --- Batches partition the append history ---

  /** The action is a script call that puts an entry on tenant t's list. */
  predicate Appends(s: State, a: Action, t: TenantId) {
    a.Append? && a.size >= 1 && WorkerOf(s, a.w).pc.Appending? && WorkerOf(s, a.w).pc.m.tenant == t
  }

  /** Tenant t's append history, read off the run alone. */
  function AppendsOf(env: Env, actions: seq<Action>, t: TenantId): seq<Entry> {
    if actions == [] then [] else
      var s, a := Run(env, Init(actions)), Last(actions);
      AppendsOf(env, Init(actions), t) +
      if Appends(s, a, t)
      then [Entry(WriteRecord(WorkerOf(s, a.w).pc.m.fp), WorkerOf(s, a.w).pc.row)]
      else []
  }

  /**
    The drained batches in drain order, then the pending list, are the append history: nothing is lost, doubled
    or reordered.
   */
  lemma {:induction false} BatchesPartitionHistory(env: Env, actions: seq<Action>, t: TenantId)
    ensures var te := TenantOf(Run(env, actions), t);
            Flatten(te.drains) + te.list == AppendsOf(env, actions, t)
  {
    Reachable(env, actions);
    HistoryIsAppends(env, actions, t);
    assert TenantOk(TenantOf(Run(env, actions), t));
  }

  lemma {:induction false} HistoryIsAppends(env: Env, actions: seq<Action>, t: TenantId)
    ensures TenantOf(Run(env, actions), t).history == AppendsOf(env, actions, t)
  {
    if actions != [] {
      HistoryIsAppends(env, Init(actions), t);
      HistoryStep(env, Run(env, Init(actions)), Last(actions), t);
    }
  }

  lemma HistoryStep(env: Env, s: State, a: Action, t: TenantId)
    ensures TenantOf(Apply(env, s, a), t).history == TenantOf(s, t).history +
              if Appends(s, a, t)
              then [Entry(WriteRecord(WorkerOf(s, a.w).pc.m.fp), WorkerOf(s, a.w).pc.row)]
              else []
  {
    if Appends(s, a, t) {
      AppendEffect(s, a.w, a.size);
    } else {
      TurnEffect(env, s, a);
      assert TenantOf(Apply(env, s, a), t).history == TenantOf(s, t).history;
    }
  }

  predicate FixedSize(actions: seq<Action>, b: nat) {
    forall i :: 0 <= i < |actions| && actions[i].Append? ==> actions[i].size == b
  }

  predicate Sized(te: Tenant, b: nat)
    requires b >= 1
  {
    && |te.history| == b * |te.drains| + |te.list|
    && |te.list| < b
    && forall i :: 0 <= i < |te.drains| ==> |te.drains[i]| == b
  }

  /** With one batch size b, n appends make n / b batches of exactly b and leave n % b pending. */
  lemma {:induction false} FixedSizeBatches(env: Env, actions: seq<Action>, b: nat, t: TenantId)
    requires b >= 1 && FixedSize(actions, b)
    ensures var te, n := TenantOf(Run(env, actions), t), |AppendsOf(env, actions, t)|;
            && |te.drains| == n / b
            && |te.list| == n % b
            && forall i :: 0 <= i < |te.drains| ==> |te.drains[i]| == b
  {
    HistoryIsAppends(env, actions, t);
    AlwaysSized(env, actions, b, t);
    var te := TenantOf(Run(env, actions), t);
    DivModUnique(|te.history|, b, |te.drains|, |te.list|);
  }

  lemma DivModUnique(n: nat, b: nat, q: nat, r: nat)
    requires b >= 1 && n == b * q + r && r < b
    ensures q == n / b && r == n % b
  {
    assert n == b * (n / b) + n % b;
    MulSteps(b, q, n / b);
    MulSteps(b, n / b, q);
  }

  lemma MulSteps(b: nat, x: nat, y: nat)
    ensures x < y ==> b * x + b <= b * y
  {
    if x < y {
      MulSteps(b, x, y - 1);
      assert b * y == b * (y - 1) + b;
    }
  }

  lemma {:induction false} AlwaysSized(env: Env, actions: seq<Action>, b: nat, t: TenantId)
    requires b >= 1 && FixedSize(actions, b)
    ensures Sized(TenantOf(Run(env, actions), t), b)
  {
    if actions != [] {
      AlwaysSized(env, Init(actions), b, t);
      SizedStep(env, Run(env, Init(actions)), Last(actions), b, t);
    }
  }

  lemma SizedStep(env: Env, s: State, a: Action, b: nat, t: TenantId)
    requires b >= 1 && Sized(TenantOf(s, t), b) && (a.Append? ==> a.size == b)
    ensures Sized(TenantOf(Apply(env, s, a), t), b)
  {
    if Appends(s, a, t) {
      AppendEffect(s, a.w, a.size);
      var pc, te := WorkerOf(s, a.w).pc, TenantOf(s, t);
      SizedAppend(te, Entry(WriteRecord(pc.m.fp), pc.row), b);
    }
  }

  lemma SizedAppend(te: Tenant, e: Entry, b: nat)
    requires b >= 1 && Sized(te, b)
    ensures Sized(TenantAppend(te, e, b), b)
  {
    var te' := TenantAppend(te, e, b);
    if |te.list| + 1 >= b {
      assert |te'.drains| == |te.drains| + 1;
      assert b * (|te.drains| + 1) == b * |te.drains| + b;
    }
  }

  /** Only a worker handling a manifest of tenant t changes t's list or counter. */
  lemma OtherTenantsUntouched(env: Env, s: State, a: Action, t: TenantId)
    requires TenantOf(Apply(env, s, a), t) != TenantOf(s, t)
    ensures a.Append? || a.Incr?
    ensures WorkerOf(s, a.w).pc.Appending? || WorkerOf(s, a.w).pc.Numbering?
    ensures WorkerOf(s, a.w).pc.m.tenant == t
  {
  }

  // --- Batch numbers ---

  lemma HeadBelow(xs: seq<nat>, n: nat)
    requires forall i :: 0 <= i < |xs| ==> xs[i] < n
    ensures xs != [] ==> xs[0] < n
  {
  }

  lemma {:induction false} DistinctBelow(xs: seq<nat>, n: nat)
    requires Distinct(xs) && forall i :: 0 <= i < |xs| ==> xs[i] < n
    ensures |xs| <= n
  {
    HeadBelow(xs, n);
    if n == 0 {
    } else if i :| 0 <= i < |xs| && xs[i] == n - 1 {
      var ys := xs[..i] + xs[i + 1..];
      assert forall j :: 0 <= j < |ys| ==> ys[j] == xs[if j < i then j else j + 1];
      DistinctBelow(ys, n - 1);
    } else {
      DistinctBelow(xs, n - 1);
    }
  }

  /**
    The numbers handed out for a tenant are 1, 2, 3, ... without a gap, each for a different drained
    batch, and never more than there were drains, whichever workers die between drain and INCR.
   */
  lemma NumbersContiguous(env: Env, actions: seq<Action>, t: TenantId)
    ensures var te := TenantOf(Run(env, actions), t);
            te.counter == |te.numbered| <= |te.drains| && Distinct(te.numbered)
    ensures forall a: Action ::
              var te, te' := TenantOf(Run(env, actions), t), TenantOf(Run(env, actions + [a]), t);
              || te'.numbered == te.numbered
              || exists d: nat :: te'.numbered == te.numbered + [d] && te'.counter == te.counter + 1
  {
    Reachable(env, actions);
    var s := Run(env, actions);
    var te := TenantOf(s, t);
    assert TenantOk(te);
    DistinctBelow(te.numbered, |te.drains|);
    forall a: Action
      ensures var te' := TenantOf(Run(env, actions + [a]), t);
              || te'.numbered == te.numbered
              || exists d: nat :: te'.numbered == te.numbered + [d] && te'.counter == te.counter + 1
    {
      assert Init(actions + [a]) == actions;
      assert Run(env, actions + [a]) == Apply(env, s, a);
      NumberStep(env, s, a, t);
    }
  }

  /** The action is an INCR for tenant t. */
  predicate Numbers(s: State, a: Action, t: TenantId) {
    a.Incr? && WorkerOf(s, a.w).pc.Numbering? && WorkerOf(s, a.w).pc.m.tenant == t
  }

  lemma NumberStep(env: Env, s: State, a: Action, t: TenantId)
    ensures var te, te' := TenantOf(s, t), TenantOf(Apply(env, s, a), t);
            if Numbers(s, a, t)
            then te'.numbered == te.numbered + [WorkerOf(s, a.w).pc.drain] && te'.counter == te.counter + 1
            else te'.numbered == te.numbered && te'.counter == te.counter
  {
    TurnEffect(env, s, a);
  }

  /** No two anchor rows of a tenant carry one number, or cover one drained batch. */
  lemma AnchorNumbersUnique(env: Env, actions: seq<Action>, i: nat, j: nat)
    requires i < j < |Run(env, actions).anchors|
    requires Run(env, actions).anchors[i].tenant == Run(env, actions).anchors[j].tenant
    ensures Run(env, actions).anchors[i].anchor.batchSeq != Run(env, actions).anchors[j].anchor.batchSeq
    ensures Run(env, actions).anchors[i].drain != Run(env, actions).anchors[j].drain
  {
    Reachable(env, actions);
    NumberOfDrain(env, Run(env, actions), i);
    NumberOfDrain(env, Run(env, actions), j);
    AnchorsDiffer(Run(env, actions), i, j);
  }

  /** An anchor row carries the number that its drain was given. */
  predicate NumberedRow(s: State, row: AnchorRow) {
    var te := TenantOf(s, row.tenant);
    1 <= row.anchor.batchSeq <= |te.numbered| && te.numbered[row.anchor.batchSeq - 1] == row.drain
  }

  lemma NumberOfDrain(env: Env, s: State, i: nat)
    requires AnchorsOk(env, s) && i < |s.anchors|
    ensures NumberedRow(s, s.anchors[i])
  {
    assert AnchorIs(env, TenantOf(s, s.anchors[i].tenant), s.anchors[i].drain, s.anchors[i].anchor);
  }

  lemma AnchorsDiffer(s: State, i: nat, j: nat)
    requires AnchorsApart(s) && i < j < |s.anchors| && s.anchors[i].tenant == s.anchors[j].tenant
    requires NumberedRow(s, s.anchors[i]) && NumberedRow(s, s.anchors[j])
    ensures s.anchors[i].anchor.batchSeq != s.anchors[j].anchor.batchSeq
    ensures s.anchors[i].drain != s.anchors[j].drain
  {
  }

  /** Batch number n is the n-th drain. */
  predicate InOrder(numbered: seq<nat>) {
    forall i :: 0 <= i < |numbered| ==> numbered[i] == i
  }

  /** Every INCR for tenant t comes after the INCRs of all earlier drains. */
  predicate NoOvertaking(env: Env, actions: seq<Action>, t: TenantId) {
    actions != [] ==>
      NoOvertaking(env, Init(actions), t) && !Overtakes(Run(env, Init(actions)), Last(actions), t)
  }

  predicate Overtakes(s: State, a: Action, t: TenantId) {
    Numbers(s, a, t) && !AllBelow(WorkerOf(s, a.w).pc.drain, TenantOf(s, t).numbered)
  }

  predicate AllBelow(drain: nat, numbered: seq<nat>) {
    forall d: nat :: d < drain ==> d in numbered
  }

  /**
    The drain and the INCR are two calls: numbers follow the drains exactly in the runs where no INCR overtakes
    another.
   */
  lemma {:induction false} NumbersInDrainOrderExactly(env: Env, actions: seq<Action>, t: TenantId)
    ensures InOrder(TenantOf(Run(env, actions), t).numbered) <==> NoOvertaking(env, actions, t)
  {
    if actions != [] {
      NumbersInDrainOrderExactly(env, Init(actions), t);
      Reachable(env, Init(actions));
      OrderStep(env, Run(env, Init(actions)), Last(actions), t);
    }
  }

  lemma OrderStep(env: Env, s: State, a: Action, t: TenantId)
    requires ClaimsOk(env, s)
    ensures InOrder(TenantOf(Apply(env, s, a), t).numbered) <==>
              InOrder(TenantOf(s, t).numbered) && !Overtakes(s, a, t)
  {
    NumberStep(env, s, a, t);
    if Numbers(s, a, t) {
      var pc := WorkerOf(s, a.w).pc;
      assert HolderOk(env, s, pc);
      OrderExtends(TenantOf(s, t).numbered, pc.drain);
    }
  }

  lemma OrderExtends(numbered: seq<nat>, drain: nat)
    requires drain !in numbered
    ensures InOrder(numbered + [drain]) <==> InOrder(numbered) && AllBelow(drain, numbered)
  {
    var next := numbered + [drain];
    assert next[|numbered|] == drain;
    assert drain < |numbered| ==> numbered[drain] != drain;
    assert forall i :: 0 <= i < |numbered| ==> next[i] == numbered[i];
    if InOrder(next) {
      forall d: nat | d < drain ensures d in numbered { assert numbered[d] == d; }
    } else if InOrder(numbered) {
      assert |numbered| !in numbered;
    }
  }

  /** The action is a script call that drains a batch of tenant t. */
  predicate Drains(s: State, a: Action, t: TenantId) {
    Appends(s, a, t) && |TenantOf(s, t).list| + 1 >= a.size
  }

  /** Each drain of tenant t is numbered before the next one. */
  predicate PromptNumbering(env: Env, actions: seq<Action>, t: TenantId) {
    actions != [] ==>
      var s := Run(env, Init(actions));
      && PromptNumbering(env, Init(actions), t)
      && (Drains(s, Last(actions), t) ==> |TenantOf(s, t).numbered| == |TenantOf(s, t).drains|)
  }

  /** Then no INCR overtakes, and batch number n is the n-th drain. */
  lemma {:induction false} PromptNumbersInDrainOrder(env: Env, actions: seq<Action>, t: TenantId)
    requires PromptNumbering(env, actions, t)
    ensures InOrder(TenantOf(Run(env, actions), t).numbered) && NoOvertaking(env, actions, t)
    ensures |TenantOf(Run(env, actions), t).drains| <= |TenantOf(Run(env, actions), t).numbered| + 1
  {
    if actions != [] {
      var s, a := Run(env, Init(actions)), Last(actions);
      PromptNumbersInDrainOrder(env, Init(actions), t);
      Reachable(env, Init(actions));
      NumberStep(env, s, a, t);
      DrainStep(env, s, a, t);
      if Numbers(s, a, t) {
        assert HolderOk(env, s, WorkerOf(s, a.w).pc);
        NextInOrder(TenantOf(s, t).numbered, WorkerOf(s, a.w).pc.drain);
      }
    }
    NumbersInDrainOrderExactly(env, actions, t);
  }

  lemma DrainStep(env: Env, s: State, a: Action, t: TenantId)
    ensures |TenantOf(Apply(env, s, a), t).drains| == |TenantOf(s, t).drains| + if Drains(s, a, t) then 1 else 0
  {
    TurnEffect(env, s, a);
  }

  lemma NextInOrder(numbered: seq<nat>, drain: nat)
    requires InOrder(numbered) && drain !in numbered && drain <= |numbered|
    ensures InOrder(numbered + [drain])
  {
    forall d: nat | d < drain ensures d in numbered { assert numbered[d] == d; }
    OrderExtends(numbered, drain);
  }

  // --- Anchors and evidence ---

  function RowsOf(entries: seq<Entry>): (r: seq<nat>)
    ensures |r| == |entries|
    ensures forall i :: 0 <= i < |r| ==> r[i] == entries[i].row
  {
    seq(|entries|, i requires 0 <= i < |entries| => entries[i].row)
  }

  /** The rows are evidence of tenant t, all different. */
  predicate EvidenceOf(s: State, t: TenantId, rows: seq<nat>) {
    && Distinct(rows)
    && forall i :: 0 <= i < |rows| ==> rows[i] < |s.evidence| && s.evidence[rows[i]].tenant == t
  }

  function Prints(s: State, t: TenantId, rows: seq<nat>): (r: seq<Fingerprint>)
    requires EvidenceOf(s, t, rows)
    ensures |r| == |rows|
    ensures forall i :: 0 <= i < |r| ==> r[i] == s.evidence[rows[i]].fp
  {
    seq(|rows|, i requires 0 <= i < |rows| => s.evidence[rows[i]].fp)
  }

  /** The digests of evidence rows, in the order given. */
  function Digests(s: State, rows: seq<nat>): (r: seq<Bytes>)
    requires forall i :: 0 <= i < |rows| ==> rows[i] < |s.evidence|
    ensures |r| == |rows|
    ensures forall i :: 0 <= i < |r| ==> r[i] == s.evidence[rows[i]].fp.sha
  {
    seq(|rows|, i requires 0 <= i < |rows| => s.evidence[rows[i]].fp.sha)
  }

  /** A drained batch is a stretch of the history. */
  lemma {:induction false} DrainInHistory(drains: seq<seq<Entry>>, d: nat)
    requires d < |drains|
    ensures var lo := |Flatten(drains[..d])|;
            lo + |drains[d]| <= |Flatten(drains)| && Flatten(drains)[lo..lo + |drains[d]|] == drains[d]
  {
    var front, tail := Init(drains), Last(drains);
    if d < |front| {
      DrainInHistory(front, d);
      assert front[..d] == drains[..d];
    } else {
      assert drains[..d] == front;
    }
  }

  lemma {:induction false} FlattenPrefix(drains: seq<seq<Entry>>, d: nat)
    requires d <= |drains|
    ensures |Flatten(drains[..d])| <= |Flatten(drains)|
  {
    if d < |drains| {
      FlattenPrefix(Init(drains), d);
      assert Init(drains)[..d] == drains[..d];
    } else {
      assert drains[..d] == drains;
    }
  }

  lemma DrainedRows(env: Env, s: State, t: TenantId, d: nat)
    requires Inv(env, s) && d < |TenantOf(s, t).drains|
    ensures EvidenceOf(s, t, RowsOf(TenantOf(s, t).drains[d]))
    ensures AllParse(Records(TenantOf(s, t).drains[d]))
    ensures ParseAll(Records(TenantOf(s, t).drains[d])) == Prints(s, t, RowsOf(TenantOf(s, t).drains[d]))
  {
    var te := TenantOf(s, t);
    var entries, lo := te.drains[d], |Flatten(te.drains[..d])|;
    assert TenantOk(te);
    DrainInHistory(te.drains, d);
    forall i | 0 <= i < |entries|
      ensures entries[i] == te.history[lo + i]
      ensures EntryOk(s.evidence, t, entries[i])
      ensures ParseRecord(entries[i].record) == Some(s.evidence[entries[i].row].fp)
    {
      assert entries[i] == Flatten(te.drains)[lo..lo + |entries|][i] == Flatten(te.drains)[lo + i];
      assert te.history[lo + i] == Flatten(te.drains)[lo + i];
      assert EntryOk(s.evidence, t, te.history[lo + i]);
      ParseWritten(s.evidence[entries[i].row].fp);
    }
    var rows, records := RowsOf(entries), Records(entries);
    forall i | 0 <= i < |records| ensures ParseRecord(records[i]) == Some(s.evidence[rows[i]].fp) {}
  }

  /** The evidence rows behind an anchor row. */
  function CoveredRows(s: State, row: AnchorRow): seq<nat> {
    if row.drain < |TenantOf(s, row.tenant).drains| then RowsOf(TenantOf(s, row.tenant).drains[row.drain]) else []
  }

  lemma AnchorFields(h: HashFn, batch: seq<Fingerprint>, anchor: Anchor, digests: seq<Bytes>)
    requires batch != [] && anchor == AnchorOf(h, batch, anchor.batchSeq)
    requires |digests| == |batch| && forall i :: 0 <= i < |batch| ==> digests[i] == batch[i].sha
    ensures anchor.manifestCount == |batch| && anchor.rootHex == ToHex(RootOf(h, digests))
    ensures anchor.firstId == batch[0].id && anchor.lastId == batch[|batch| - 1].id
    ensures anchor.firstLeafHex == ToHex(batch[0].sha) && anchor.lastLeafHex == ToHex(batch[|batch| - 1].sha)
  {
    assert Leaves(batch) == digests;
  }

  lemma AnchorRowCovers(env: Env, s: State, row: AnchorRow)
    requires Inv(env, s) && AnchorIs(env, TenantOf(s, row.tenant), row.drain, row.anchor)
    ensures var rows := CoveredRows(s, row);
            && rows != [] && EvidenceOf(s, row.tenant, rows)
            && row.anchor == AnchorOf(env.h, Prints(s, row.tenant, rows), row.anchor.batchSeq)
  {
    DrainedRows(env, s, row.tenant, row.drain);
  }

  /**
    Every anchor row covers as many evidence rows as its count says, all of its tenant and all
    different; its root and its end points are those of their fingerprints in order.
    Whoever sealed the batch, the rows were inserted before.
   */
  lemma AnchorCoversEvidence(env: Env, actions: seq<Action>, i: nat)
    requires i < |Run(env, actions).anchors|
    ensures var s := Run(env, actions);
            var row := s.anchors[i];
            var rows := CoveredRows(s, row);
            && rows != [] && EvidenceOf(s, row.tenant, rows)
            && |rows| == row.anchor.manifestCount
            && row.anchor.rootHex == ToHex(RootOf(env.h, Digests(s, rows)))
            && row.anchor.firstId == s.evidence[rows[0]].fp.id
            && row.anchor.lastId == s.evidence[rows[|rows| - 1]].fp.id
            && row.anchor.firstLeafHex == ToHex(s.evidence[rows[0]].fp.sha)
            && row.anchor.lastLeafHex == ToHex(s.evidence[rows[|rows| - 1]].fp.sha)
  {
    Reachable(env, actions);
    var s := Run(env, actions);
    var row := s.anchors[i];
    AnchorRowCovers(env, s, row);
    var rows := CoveredRows(s, row);
    AnchorFields(env.h, Prints(s, row.tenant, rows), row.anchor, Digests(s, rows));
  }

  /** The lists of digests are the same, or hashing them to a root meets a collision. */
  ghost predicate Bound(h: HashFn, d: seq<Bytes>, d': seq<Bytes>)
    requires d != [] && d' != []
  {
    d == d' || exists x, y :: Collide(h, Build(d, Height(|d|)), Build(d', Height(|d'|)), x, y)
  }

  lemma EqualRootsBind(h: HashFn, d: seq<Bytes>, d': seq<Bytes>)
    requires DigestSized(h) && AllDigests(d) && AllDigests(d') && 1 <= |d| == |d'|
    requires ToHex(RootOf(h, d)) == ToHex(RootOf(h, d'))
    ensures Bound(h, d, d')
  {
    FromHexToHex(RootOf(h, d));
    FromHexToHex(RootOf(h, d'));
    if d != d' {
      var x, y := RootAndCountBindBatch(h, d, d');
    }
  }

  ghost predicate CommitsTo(env: Env, s: State, row: AnchorRow, d: seq<Bytes>) {
    var rows := CoveredRows(s, row);
    && EvidenceOf(s, row.tenant, rows) && d == Digests(s, rows) && d != [] && AllDigests(d)
    && row.anchor.rootHex == ToHex(RootOf(env.h, d)) && row.anchor.manifestCount == |d|
  }

  lemma AnchorCommits(env: Env, actions: seq<Action>, i: nat) returns (d: seq<Bytes>)
    requires i < |Run(env, actions).anchors|
    ensures CommitsTo(env, Run(env, actions), Run(env, actions).anchors[i], d)
  {
    AnchorCoversEvidence(env, actions, i);
    d := Digests(Run(env, actions), CoveredRows(Run(env, actions), Run(env, actions).anchors[i]));
  }

  /**
    An anchor row commits to the digests of the rows it covers, in order: where two anchor rows, of any two runs
    and tenants, agree in root and count, the digests agree, or hashing them meets a collision.
   */
  lemma AnchorBindsEvidence(env: Env, a: seq<Action>, i: nat, b: seq<Action>, j: nat)
    requires DigestSized(env.h) && i < |Run(env, a).anchors| && j < |Run(env, b).anchors|
    requires Run(env, a).anchors[i].anchor.rootHex == Run(env, b).anchors[j].anchor.rootHex
    requires Run(env, a).anchors[i].anchor.manifestCount == Run(env, b).anchors[j].anchor.manifestCount
    ensures var s, s' := Run(env, a), Run(env, b);
            var rows, rows' := CoveredRows(s, s.anchors[i]), CoveredRows(s', s'.anchors[j]);
            && EvidenceOf(s, s.anchors[i].tenant, rows) && EvidenceOf(s', s'.anchors[j].tenant, rows')
            && rows != [] && rows' != [] && Bound(env.h, Digests(s, rows), Digests(s', rows'))
  {
    var d := AnchorCommits(env, a, i);
    var d' := AnchorCommits(env, b, j);
    EqualRootsBind(env.h, d, d');
  }

  /** No evidence row is covered by two anchors, of whichever tenants. */
  lemma NoRowAnchoredTwice(env: Env, actions: seq<Action>, i: nat, j: nat, r: nat)
    requires i < j < |Run(env, actions).anchors|
    requires r in CoveredRows(Run(env, actions), Run(env, actions).anchors[i])
    ensures r !in CoveredRows(Run(env, actions), Run(env, actions).anchors[j])
  {
    Reachable(env, actions);
    var s := Run(env, actions);
    if s.anchors[i].tenant == s.anchors[j].tenant {
      NumberOfDrain(env, s, i);
      NumberOfDrain(env, s, j);
      AnchorsDiffer(s, i, j);
      CoveredApart(s, s.anchors[i], s.anchors[j], r);
    } else {
      CoveredOwnTenant(env, s, s.anchors[i], r);
      CoveredOwnTenant(env, s, s.anchors[j], r);
    }
  }

  lemma CoveredApart(s: State, a: AnchorRow, b: AnchorRow, r: nat)
    requires TenantsOk(s) && RowsOk(s)
    requires a.tenant == b.tenant && a.drain != b.drain && r in CoveredRows(s, a)
    ensures r !in CoveredRows(s, b)
  {
    if b.drain < |TenantOf(s, b.tenant).drains| {
      DrainsShareNoRow(s, a.tenant, a.drain, b.drain, r);
    }
  }

  lemma CoveredOwnTenant(env: Env, s: State, row: AnchorRow, r: nat)
    requires Inv(env, s)
    ensures r in CoveredRows(s, row) ==> r < |s.evidence| && s.evidence[r].tenant == row.tenant
  {
    if r in CoveredRows(s, row) { DrainedRows(env, s, row.tenant, row.drain); }
  }

  lemma DrainAt(drains: seq<seq<Entry>>, d: nat, i: nat)
    requires d < |drains| && i < |drains[d]|
    ensures |Flatten(drains[..d])| + i < |Flatten(drains)|
    ensures Flatten(drains)[|Flatten(drains[..d])| + i] == drains[d][i]
  {
    DrainInHistory(drains, d);
    var lo := |Flatten(drains[..d])|;
    assert Flatten(drains)[lo..lo + |drains[d]|][i] == Flatten(drains)[lo + i];
  }

  lemma DrainEndsBefore(drains: seq<seq<Entry>>, d: nat, e: nat)
    requires d < e <= |drains|
    ensures |Flatten(drains[..d])| + |drains[d]| <= |Flatten(drains[..e])|
  {
    FlattenPrefix(drains[..e], d + 1);
    assert drains[..e][..d + 1] == drains[..d + 1];
    assert Init(drains[..d + 1]) == drains[..d];
  }

  predicate RowsDiffer(entries: seq<Entry>) {
    forall i, j :: 0 <= i < j < |entries| ==> entries[i].row != entries[j].row
  }

  lemma DrainsApart(drains: seq<seq<Entry>>, d: nat, e: nat, i: nat, j: nat)
    requires RowsDiffer(Flatten(drains))
    requires d < e < |drains| && i < |drains[d]| && j < |drains[e]|
    ensures drains[d][i].row != drains[e][j].row
  {
    DrainEndsBefore(drains, d, e);
    DrainAt(drains, d, i);
    DrainAt(drains, e, j);
  }

  lemma DrainedRowsDiffer(s: State, t: TenantId)
    requires TenantsOk(s) && RowsOk(s)
    ensures RowsDiffer(Flatten(TenantOf(s, t).drains))
  {
    var te := TenantOf(s, t);
    assert TenantOk(te);
    var flat := Flatten(te.drains);
    forall i, j | 0 <= i < j < |flat| ensures flat[i].row != flat[j].row {
      assert te.history[i] == flat[i] && te.history[j] == flat[j];
    }
  }

  lemma RowsApart(xs: seq<Entry>, ys: seq<Entry>, r: nat)
    requires forall i, j :: 0 <= i < |xs| && 0 <= j < |ys| ==> xs[i].row != ys[j].row
    requires r in RowsOf(xs)
    ensures r !in RowsOf(ys)
  {
  }

  lemma DrainsShareNoRow(s: State, t: TenantId, d: nat, e: nat, r: nat)
    requires TenantsOk(s) && RowsOk(s)
    requires d < |TenantOf(s, t).drains| && e < |TenantOf(s, t).drains| && d != e
    requires r in RowsOf(TenantOf(s, t).drains[d])
    ensures r !in RowsOf(TenantOf(s, t).drains[e])
  {
    var drains: seq<seq<Entry>> := TenantOf(s, t).drains;
    DrainedRowsDiffer(s, t);
    forall i: nat, j: nat | i < |drains[d]| && j < |drains[e]| ensures drains[d][i].row != drains[e][j].row {
      if d < e { DrainsApart(drains, d, e, i, j); } else { DrainsApart(drains, e, d, j, i); }
    }
    RowsApart(drains[d], drains[e], r);
  }

  // --- Error branches ---

  /** The checks of the reply never fail: after the script a worker has returned or holds a batch. */
  lemma ScriptReplyAlwaysAccepted(env: Env, actions: seq<Action>, w: nat, size: nat)
    requires size >= 1 && WorkerOf(Run(env, actions), w).pc.Appending?
    ensures var pc := WorkerOf(AppendStep(Run(env, actions), w, size), w).pc;
            pc.Returned? || (pc.Numbering? && |pc.batch| == size)
  {
    Reachable(env, actions);
    AppendAccepted(env, Run(env, actions), w, size);
  }

  lemma PendingParse(env: Env, s: State, t: TenantId, i: nat)
    requires Inv(env, s) && i < |TenantOf(s, t).list|
    ensures ParseRecord(TenantOf(s, t).list[i].record).Some?
  {
    var te := TenantOf(s, t);
    assert TenantOk(te);
    var k := |Flatten(te.drains)| + i;
    assert te.list[i] == te.history[k];
    assert EntryOk(s.evidence, t, te.history[k]);
    ParseWritten(s.evidence[te.history[k].row].fp);
  }

  lemma DrainedParse(entries: seq<Entry>, size: nat)
    requires size <= |entries| && forall i :: 0 <= i < |entries| ==> ParseRecord(entries[i].record).Some?
    ensures AllParse(Records(entries[..size]))
  {
  }

  lemma AppendAccepted(env: Env, s: State, w: nat, size: nat)
    requires Inv(env, s) && size >= 1 && WorkerOf(s, w).pc.Appending?
    ensures var pc := WorkerOf(AppendStep(s, w, size), w).pc;
            pc.Returned? || (pc.Numbering? && |pc.batch| == size)
  {
    var pc := WorkerOf(s, w).pc;
    var te, e := TenantOf(s, pc.m.tenant), Entry(WriteRecord(pc.m.fp), pc.row);
    var full := te.list + [e];
    forall i | 0 <= i < |full| ensures ParseRecord(full[i].record).Some? {
      if i < |te.list| { PendingParse(env, s, pc.m.tenant, i); } else { ParseWritten(pc.m.fp); }
    }
    if size <= |full| { DrainedParse(full, size); }
    ReplyAccepted(s, w, size);
  }

  lemma ReplyAccepted(s: State, w: nat, size: nat)
    requires size >= 1 && WorkerOf(s, w).pc.Appending?
    requires var pc := WorkerOf(s, w).pc;
             var full := TenantOf(s, pc.m.tenant).list + [Entry(WriteRecord(pc.m.fp), pc.row)];
             size <= |full| ==> AllParse(Records(full[..size]))
    ensures var pc := WorkerOf(AppendStep(s, w, size), w).pc;
            pc.Returned? || (pc.Numbering? && |pc.batch| == size)
  {
  }

  // --- Where a payload ends up ---

  /**
    An attempt that returns has left its payload in exactly one of the five places, and has put a
    record on the batch list exactly when that place is the evidence table.
   */
  lemma ReturnedExactlyOnePlace(env: Env, actions: seq<Action>, w: nat)
    requires WorkerOf(Run(env, actions), w).pc.Returned?
    ensures var s := Run(env, actions);
            var worker := WorkerOf(s, w);
            exists place :: worker.deposits == [place] && Lodged(s, worker.pc.p, place)
                            && (worker.appended <==> place == EvidenceTable)
  {
    Reachable(env, actions);
    var s := Run(env, actions);
    assert WorkerOk(s, WorkerOf(s, w));
    assert WorkerOf(s, w).deposits == [WorkerOf(s, w).deposits[0]];
  }

  // --- What each place holds ---

  /** The payloads handed to workers in a run. */
  function Delivered(actions: seq<Action>): set<Payload> {
    set i | 0 <= i < |actions| && actions[i].Begin? :: actions[i].p
  }

  predicate AllDecode(queue: seq<Payload>, given: set<Payload>, decoded: Decoded) {
    forall i :: 0 <= i < |queue| ==> queue[i] in given && queue[i].decoded == decoded
  }

  predicate AllRows(queue: seq<Payload>, given: set<Payload>) {
    forall i :: 0 <= i < |queue| ==> queue[i] in given && queue[i].decoded.Row?
  }

  /** The row of a payload that was handed to a worker. */
  ghost predicate RowGiven(m: Manifest, given: set<Payload>) {
    exists p :: p in given && p.decoded == Row(m)
  }

  predicate PcGiven(env: Env, pc: Pc, given: set<Payload>) {
    match pc
    case Idle => true
    case ParkingPostgres(p) => p in given && p.decoded.Row? && env.postgres
    case ParkingRedis(p) => p in given && p.decoded.Row?
    case Inserting(p, m) => p in given && p.decoded == Row(m)
    case _ => pc.p in given
  }

  ghost predicate PlacesOk(env: Env, s: State, given: set<Payload>) {
    && AllDecode(s.decodeQueue, given, DecodeFails)
    && AllDecode(s.schemaQueue, given, SchemaFails)
    && AllRows(s.failedEvidence, given) && (!env.postgres ==> s.failedEvidence == [])
    && AllRows(s.clickhouseQueue, given)
    && (forall i :: 0 <= i < |s.evidence| ==> RowGiven(s.evidence[i], given))
    && PcsGiven(env, s, given)
  }

  ghost predicate PcsGiven(env: Env, s: State, given: set<Payload>) {
    forall w: nat :: PcGiven(env, WorkerOf(s, w).pc, given)
  }

  lemma OnePcMoves(env: Env, s: State, s': State, w: nat, given: set<Payload>)
    requires PcsGiven(env, s, given) && PcGiven(env, WorkerOf(s', w).pc, given)
    requires w in s'.workers && s'.workers == s.workers[w := s'.workers[w]]
    ensures PcsGiven(env, s', given)
  {
    forall v: nat ensures PcGiven(env, WorkerOf(s', v).pc, given) {
      assert PcGiven(env, WorkerOf(s, v).pc, given);
      assert v != w ==> WorkerOf(s', v) == WorkerOf(s, v);
    }
  }

  lemma GivenGrows(env: Env, s: State, given: set<Payload>, given': set<Payload>)
    requires PlacesOk(env, s, given) && given <= given'
    ensures PlacesOk(env, s, given')
  {
    forall i | 0 <= i < |s.evidence| ensures RowGiven(s.evidence[i], given') {
      assert RowGiven(s.evidence[i], given);
      var p :| p in given && p.decoded == Row(s.evidence[i]);
      assert p in given';
    }
    forall w: nat ensures PcGiven(env, WorkerOf(s, w).pc, given') {
      assert PcGiven(env, WorkerOf(s, w).pc, given);
    }
  }

  lemma BeginPlaces(env: Env, s: State, a: Action, given: set<Payload>)
    requires PlacesOk(env, s, given) && (a.Begin? || a.Crash?) && (a.Begin? ==> a.p in given)
    ensures PlacesOk(env, Apply(env, s, a), given)
  {
    var s' := Apply(env, s, a);
    if s' != s { OnePcMoves(env, s, s', a.w, given); }
  }

  lemma DecodePlaces(env: Env, s: State, w: nat, given: set<Payload>)
    requires PlacesOk(env, s, given)
    ensures PlacesOk(env, DecodeStep(s, w), given)
  {
    var s' := DecodeStep(s, w);
    assert PcGiven(env, WorkerOf(s, w).pc, given);
    if s' != s {
      DecodeMoves(env, s, w, given);
      OnePcMoves(env, s, s', w, given);
    }
  }

  lemma DecodeMoves(env: Env, s: State, w: nat, given: set<Payload>)
    requires PcGiven(env, WorkerOf(s, w).pc, given) && WorkerOf(s, w).pc.Decoding?
    ensures var s', p := DecodeStep(s, w), WorkerOf(s, w).pc.p;
            && w in s'.workers && s'.workers == s.workers[w := s'.workers[w]]
            && PcGiven(env, WorkerOf(s', w).pc, given)
            && s'.decodeQueue == s.decodeQueue + (if p.decoded.DecodeFails? then [p] else [])
            && s'.schemaQueue == s.schemaQueue + (if p.decoded.SchemaFails? then [p] else [])
            && s'.failedEvidence == s.failedEvidence && s'.clickhouseQueue == s.clickhouseQueue
            && s'.evidence == s.evidence
  {
  }

  lemma InsertPlaces(env: Env, s: State, w: nat, ok: bool, given: set<Payload>)
    requires PlacesOk(env, s, given)
    ensures PlacesOk(env, InsertStep(env, s, w, ok), given)
  {
    var s' := InsertStep(env, s, w, ok);
    assert PcGiven(env, WorkerOf(s, w).pc, given);
    if WorkerOf(s, w).pc.Inserting? { assert RowGiven(WorkerOf(s, w).pc.m, given); }
    if s' != s { OnePcMoves(env, s, s', w, given); }
  }

  lemma PostgresPlaces(env: Env, s: State, w: nat, ok: bool, given: set<Payload>)
    requires PlacesOk(env, s, given)
    ensures PlacesOk(env, ParkPostgresStep(s, w, ok), given)
  {
    var s' := ParkPostgresStep(s, w, ok);
    assert PcGiven(env, WorkerOf(s, w).pc, given);
    if s' != s { OnePcMoves(env, s, s', w, given); }
  }

  lemma RedisPlaces(env: Env, s: State, w: nat, given: set<Payload>)
    requires PlacesOk(env, s, given)
    ensures PlacesOk(env, ParkRedisStep(s, w), given)
  {
    var s' := ParkRedisStep(s, w);
    assert PcGiven(env, WorkerOf(s, w).pc, given);
    if s' != s { OnePcMoves(env, s, s', w, given); }
  }

  lemma AppendPlaces(env: Env, s: State, w: nat, size: nat, given: set<Payload>)
    requires PlacesOk(env, s, given)
    ensures PlacesOk(env, AppendStep(s, w, size), given)
  {
    var s' := AppendStep(s, w, size);
    assert PcGiven(env, WorkerOf(s, w).pc, given);
    if s' != s { OnePcMoves(env, s, s', w, given); }
  }

  lemma IncrPlaces(env: Env, s: State, w: nat, given: set<Payload>)
    requires PlacesOk(env, s, given)
    ensures PlacesOk(env, IncrStep(env, s, w), given)
  {
    var s' := IncrStep(env, s, w);
    assert PcGiven(env, WorkerOf(s, w).pc, given);
    if s' != s { OnePcMoves(env, s, s', w, given); }
  }

  lemma AnchorPlaces(env: Env, s: State, w: nat, given: set<Payload>)
    requires PlacesOk(env, s, given)
    ensures PlacesOk(env, AnchorStep(s, w), given)
  {
    var s' := AnchorStep(s, w);
    assert PcGiven(env, WorkerOf(s, w).pc, given);
    if s' != s { OnePcMoves(env, s, s', w, given); }
  }

  lemma {:induction false} PlacesReachable(env: Env, actions: seq<Action>)
    ensures PlacesOk(env, Run(env, actions), Delivered(actions))
  {
    if actions != [] {
      var s, a, given := Run(env, Init(actions)), Last(actions), Delivered(actions);
      PlacesReachable(env, Init(actions));
      forall p | p in Delivered(Init(actions)) ensures p in given {
        var i :| 0 <= i < |Init(actions)| && Init(actions)[i].Begin? && Init(actions)[i].p == p;
        assert actions[i] == Init(actions)[i];
      }
      assert a.Begin? ==> a.p in given;
      GivenGrows(env, s, Delivered(Init(actions)), given);
      match a
      case Begin(_, _) => BeginPlaces(env, s, a, given);
      case Crash(_) => BeginPlaces(env, s, a, given);
      case Decode(w) => DecodePlaces(env, s, w, given);
      case InsertEvidence(w, ok) => InsertPlaces(env, s, w, ok, given);
      case ParkPostgres(w, ok) => PostgresPlaces(env, s, w, ok, given);
      case ParkRedis(w) => RedisPlaces(env, s, w, given);
      case Append(w, size) => AppendPlaces(env, s, w, size, given);
      case Incr(w) => IncrPlaces(env, s, w, given);
      case InsertAnchor(w) => AnchorPlaces(env, s, w, given);
    }
  }

  /**
    Every run: a queue holds only payloads that were delivered and that belong there, by how they decode; Postgres is
    used only where it is configured; and every evidence row is that of a delivered payload.
   */
  lemma PlacesHoldTheirOwn(env: Env, actions: seq<Action>, p: Payload, m: Manifest)
    ensures var s := Run(env, actions);
            && (p in s.decodeQueue ==> p in Delivered(actions) && p.decoded == DecodeFails)
            && (p in s.schemaQueue ==> p in Delivered(actions) && p.decoded == SchemaFails)
            && (p in s.failedEvidence ==> p in Delivered(actions) && p.decoded.Row? && env.postgres)
            && (p in s.clickhouseQueue ==> p in Delivered(actions) && p.decoded.Row?)
            && (m in s.evidence ==> exists q :: q in Delivered(actions) && q.decoded == Row(m))
  {
    PlacesReachable(env, actions);
    var s := Run(env, actions);
    if m in s.evidence {
      var i :| 0 <= i < |s.evidence| && s.evidence[i] == m;
      assert RowGiven(s.evidence[i], Delivered(actions));
    }
  }

  /** The place holds the same as before. */
  predicate Untouched(s: State, s': State, place: Place) {
    match place
    case DecodeQueue => s'.decodeQueue == s.decodeQueue
    case SchemaQueue => s'.schemaQueue == s.schemaQueue
    case FailedEvidence => s'.failedEvidence == s.failedEvidence
    case ClickHouseQueue => s'.clickhouseQueue == s.clickhouseQueue
    case EvidenceTable => s'.evidence == s.evidence
  }

  /** The place has gained this payload, or its row, and nothing else. */
  predicate Gained(s: State, s': State, place: Place, p: Payload) {
    match place
    case DecodeQueue => s'.decodeQueue == s.decodeQueue + [p]
    case SchemaQueue => s'.schemaQueue == s.schemaQueue + [p]
    case FailedEvidence => s'.failedEvidence == s.failedEvidence + [p]
    case ClickHouseQueue => s'.clickhouseQueue == s.clickhouseQueue + [p]
    case EvidenceTable => p.decoded.Row? && s'.evidence == s.evidence + [p.decoded.m]
  }

  /** A deposit of worker w is its own payload; what it does not deposit it does not write. */
  predicate Accounted(s: State, s': State, w: nat, place: Place) {
    if WorkerOf(s', w).deposits == WorkerOf(s, w).deposits + [place]
    then !WorkerOf(s, w).pc.Idle? && Gained(s, s', place, WorkerOf(s, w).pc.p)
    else Untouched(s, s', place)
  }

  /**
    After every run, an action writes to a place exactly what it puts on its worker's account: the worker's own
    payload, once.
   */
  lemma WritesAreDeposits(env: Env, actions: seq<Action>, a: Action, place: Place)
    ensures Accounted(Run(env, actions), Apply(env, Run(env, actions), a), a.w, place)
  {
    Reachable(env, actions);
    StepAccounted(env, Run(env, actions), a, place);
  }

  lemma StepAccounted(env: Env, s: State, a: Action, place: Place)
    requires WorkerOk(s, WorkerOf(s, a.w))
    ensures Accounted(s, Apply(env, s, a), a.w, place)
  {
    match a
    case Begin(_, _) =>
    case Decode(w) => DecodeAccounted(s, w, place);
    case InsertEvidence(w, ok) => InsertAccounted(env, s, w, ok, place);
    case ParkPostgres(w, ok) => ParkPostgresAccounted(s, w, ok, place);
    case ParkRedis(w) => ParkRedisAccounted(s, w, place);
    case Append(w, size) => AppendAccounted(s, w, size, place);
    case Incr(w) => SealAccounted(env, s, w, place);
    case InsertAnchor(w) => SealAccounted(env, s, w, place);
    case Crash(_) =>
  }

  lemma SameDeposit(d: seq<Place>, x: Place, y: Place)
    ensures d + [x] == d + [y] <==> x == y
  {
    assert (d + [x])[|d|] == x && (d + [y])[|d|] == y;
  }

  lemma DecodeAccounted(s: State, w: nat, place: Place)
    ensures Accounted(s, DecodeStep(s, w), w, place)
  {
    SameDeposit(WorkerOf(s, w).deposits, DecodeQueue, place);
    SameDeposit(WorkerOf(s, w).deposits, SchemaQueue, place);
  }

  lemma InsertAccounted(env: Env, s: State, w: nat, ok: bool, place: Place)
    requires WorkerOk(s, WorkerOf(s, w))
    ensures Accounted(s, InsertStep(env, s, w, ok), w, place)
  {
    SameDeposit(WorkerOf(s, w).deposits, EvidenceTable, place);
  }

  lemma ParkPostgresAccounted(s: State, w: nat, ok: bool, place: Place)
    ensures Accounted(s, ParkPostgresStep(s, w, ok), w, place)
  {
    SameDeposit(WorkerOf(s, w).deposits, FailedEvidence, place);
  }

  lemma ParkRedisAccounted(s: State, w: nat, place: Place)
    ensures Accounted(s, ParkRedisStep(s, w), w, place)
  {
    SameDeposit(WorkerOf(s, w).deposits, ClickHouseQueue, place);
  }

  lemma AppendAccounted(s: State, w: nat, size: nat, place: Place)
    ensures Accounted(s, AppendStep(s, w, size), w, place)
  {
  }

  lemma SealAccounted(env: Env, s: State, w: nat, place: Place)
    ensures Accounted(s, IncrStep(env, s, w), w, place)
    ensures Accounted(s, AnchorStep(s, w), w, place)
  {
  }

  // --- When a drained batch is lost ---

  predicate Anchored(s: State, t: TenantId, d: nat) {
    exists i :: 0 <= i < |s.anchors| && s.anchors[i].tenant == t && s.anchors[i].drain == d
  }

  ghost predicate Held(s: State, t: TenantId, d: nat) {
    exists w: nat :: HeldBy(s, t, d, w)
  }

  predicate HeldBy(s: State, t: TenantId, d: nat, w: nat) {
    Holds(WorkerOf(s, w).pc) && WorkerOf(s, w).pc.m.tenant == t && WorkerOf(s, w).pc.drain == d
  }

  /** Every drained batch is anchored, or a worker is still on its way to anchor it. */
  ghost predicate NothingLost(s: State) {
    forall t: TenantId, d: nat :: d < |TenantOf(s, t).drains| ==> Anchored(s, t, d) || Held(s, t, d)
  }

  /** No attempt ends between the drain and the anchor row. */
  ghost predicate HoldersSurvive(env: Env, actions: seq<Action>) {
    forall k :: 0 <= k < |actions| && actions[k].Crash? ==>
      !Holds(WorkerOf(Run(env, actions[..k]), actions[k].w).pc)
  }

  /** Batches are kept exactly in the runs where no attempt ends between the drain and the anchor row. */
  lemma {:induction false} LostExactly(env: Env, actions: seq<Action>)
    ensures NothingLost(Run(env, actions)) <==> HoldersSurvive(env, actions)
  {
    if actions != [] {
      var before, a := Init(actions), Last(actions);
      var s := Run(env, before);
      LostExactly(env, before);
      Reachable(env, before);
      Reachable(env, actions);
      SurviveSplit(env, actions);
      if HoldersSurvive(env, actions) {
        KeptStep(env, s, a);
      } else if a.Crash? && Holds(WorkerOf(s, a.w).pc) {
        CrashLoses(env, s, a.w);
      } else {
        var t: TenantId, d: nat :| d < |TenantOf(s, t).drains| && !Anchored(s, t, d) && !Held(s, t, d);
        LostForGood(env, s, a, t, d);
      }
    } else {
      assert forall t: TenantId :: TenantOf(Start, t) == NewTenant;
    }
  }

  lemma SurviveSplit(env: Env, actions: seq<Action>)
    requires actions != []
    ensures HoldersSurvive(env, actions) <==>
              && HoldersSurvive(env, Init(actions))
              && (Last(actions).Crash? ==> !Holds(WorkerOf(Run(env, Init(actions)), Last(actions).w).pc))
  {
    var before := Init(actions);
    assert forall k :: 0 <= k < |before| ==> before[..k] == actions[..k] && before[k] == actions[k];
    assert actions[..|before|] == before;
    if HoldersSurvive(env, before) && (Last(actions).Crash? ==>
        !Holds(WorkerOf(Run(env, before), Last(actions).w).pc)) {
      forall k | 0 <= k < |actions| && actions[k].Crash?
        ensures !Holds(WorkerOf(Run(env, actions[..k]), actions[k].w).pc)
      {
        if k < |before| { assert before[k] == actions[k]; }
      }
    }
    if HoldersSurvive(env, actions) {
      forall k | 0 <= k < |before| && before[k].Crash?
        ensures !Holds(WorkerOf(Run(env, before[..k]), before[k].w).pc)
      {
        assert actions[k] == before[k];
      }
    }
  }

  /** A batch that no worker holds and no row anchors is never anchored again. */
  lemma LostForGood(env: Env, s: State, a: Action, t: TenantId, d: nat)
    requires Inv(env, s)
    requires d < |TenantOf(s, t).drains| && !Anchored(s, t, d) && !Held(s, t, d)
    ensures var s' := Apply(env, s, a);
            d < |TenantOf(s', t).drains| && !Anchored(s', t, d) && !Held(s', t, d)
  {
    var s' := Apply(env, s, a);
    assert !HeldBy(s, t, d, a.w);
    StepHoldings(env, s, a, t, d);
    forall w: nat ensures !HeldBy(s', t, d, w) {
      assert !HeldBy(s, t, d, w);
      if w != a.w { OthersIdle(env, s, a, w); }
    }
  }

  /** The acting worker never picks up an old batch, and anchors only what it holds. */
  lemma StepHoldings(env: Env, s: State, a: Action, t: TenantId, d: nat)
    requires d < |TenantOf(s, t).drains| && !HeldBy(s, t, d, a.w)
    ensures var s' := Apply(env, s, a);
            && d < |TenantOf(s', t).drains| && !HeldBy(s', t, d, a.w)
            && (Anchored(s', t, d) ==> Anchored(s, t, d))
  {
    TurnEffect(env, s, a);
    if TurnOf(s, a).Anchors? { OnlyHeldAnchored(s, Apply(env, s, a), a.w, t, d); }
  }

  lemma OnlyHeldAnchored(s: State, s': State, w: nat, t: TenantId, d: nat)
    requires WorkerOf(s, w).pc.Anchoring? && AnchorEff(s, s', w) && !HeldBy(s, t, d, w)
    ensures Anchored(s', t, d) ==> Anchored(s, t, d)
  {
    if i :| 0 <= i < |s'.anchors| && s'.anchors[i].tenant == t && s'.anchors[i].drain == d {
      assert i < |s.anchors| && s.anchors[i] == s'.anchors[i];
    }
  }

  lemma HolderUnanchored(env: Env, s: State, pc: Pc)
    requires AnchorsOk(env, s) && HolderOk(env, s, pc) && Holds(pc)
    ensures !Anchored(s, pc.m.tenant, pc.drain)
  {
    if pc.Numbering? { AnchoredAreNumbered(env, s, pc.m.tenant, pc.drain); }
  }

  lemma CrashFrees(env: Env, s: State, w: nat)
    requires ClaimsApart(s) && Holds(WorkerOf(s, w).pc)
    ensures !Held(Apply(env, s, Crash(w)), WorkerOf(s, w).pc.m.tenant, WorkerOf(s, w).pc.drain)
  {
    var pc, s' := WorkerOf(s, w).pc, Apply(env, s, Crash(w));
    assert WorkerOf(s', w).pc.Idle?;
    forall v: nat ensures !HeldBy(s', pc.m.tenant, pc.drain, v) {
      if v != w { assert WorkerOf(s', v) == WorkerOf(s, v); }
    }
  }

  lemma NotLost(s: State, t: TenantId, d: nat)
    requires NothingLost(s) && d < |TenantOf(s, t).drains|
    ensures Anchored(s, t, d) || Held(s, t, d)
  {
  }

  lemma SameAnchors(s: State, s': State, t: TenantId, d: nat)
    requires s'.anchors == s.anchors
    ensures Anchored(s', t, d) == Anchored(s, t, d)
  {
  }

  lemma CrashLoses(env: Env, s: State, w: nat)
    requires ClaimsOk(env, s) && ClaimsApart(s) && AnchorsOk(env, s) && Holds(WorkerOf(s, w).pc)
    ensures !NothingLost(Apply(env, s, Crash(w)))
  {
    var pc, s' := WorkerOf(s, w).pc, Apply(env, s, Crash(w));
    assert HolderOk(env, s, pc);
    HolderDrained(env, s, pc);
    HolderUnanchored(env, s, pc);
    SameAnchors(s, s', pc.m.tenant, pc.drain);
    CrashFrees(env, s, w);
    if NothingLost(s') { NotLost(s', pc.m.tenant, pc.drain); }
  }

  lemma KeptStep(env: Env, s: State, a: Action)
    requires Inv(env, s) && NothingLost(s)
    requires a.Crash? ==> !Holds(WorkerOf(s, a.w).pc)
    ensures NothingLost(Apply(env, s, a))
  {
    var s' := Apply(env, s, a);
    forall t: TenantId, d: nat | d < |TenantOf(s', t).drains| ensures Anchored(s', t, d) || Held(s', t, d) {
      if d < |TenantOf(s, t).drains| {
        KeptBatch(env, s, a, t, d);
      } else {
        NewBatchHeld(env, s, a, t, d);
      }
    }
  }

  lemma NewBatchHeld(env: Env, s: State, a: Action, t: TenantId, d: nat)
    requires Inv(env, s)
    requires |TenantOf(s, t).drains| <= d < |TenantOf(Apply(env, s, a), t).drains|
    ensures Held(Apply(env, s, a), t, d)
  {
    OnlyAppendDrains(env, s, a, t);
    AppendAccepted(env, s, a.w, a.size);
    AppendEffect(s, a.w, a.size);
    DrainerHolds(s, Apply(env, s, a), a.w, a.size, t, d);
  }

  lemma OnlyAppendDrains(env: Env, s: State, a: Action, t: TenantId)
    requires TenantOf(Apply(env, s, a), t).drains != TenantOf(s, t).drains
    ensures Appends(s, a, t)
  {
    TurnEffect(env, s, a);
  }

  lemma DrainerHolds(s: State, s': State, w: nat, size: nat, t: TenantId, d: nat)
    requires WorkerOf(s, w).pc.Appending? && size >= 1 && AppendEff(s, s', w, size)
    requires WorkerOf(s', w).pc.Numbering? || WorkerOf(s', w).pc.Returned?
    requires |TenantOf(s, t).drains| <= d < |TenantOf(s', t).drains|
    ensures HeldBy(s', t, d, w)
  {
  }

  lemma KeptBatch(env: Env, s: State, a: Action, t: TenantId, d: nat)
    requires Anchored(s, t, d) || Held(s, t, d)
    requires a.Crash? ==> !Holds(WorkerOf(s, a.w).pc)
    ensures Anchored(Apply(env, s, a), t, d) || Held(Apply(env, s, a), t, d)
  {
    var s' := Apply(env, s, a);
    if Anchored(s, t, d) {
      ApplyGrows(env, s, a);
      var i :| 0 <= i < |s.anchors| && s.anchors[i].tenant == t && s.anchors[i].drain == d;
      assert s'.anchors[i] == s.anchors[i];
    } else {
      var w: nat :| HeldBy(s, t, d, w);
      if w != a.w {
        OthersIdle(env, s, a, w);
        assert HeldBy(s', t, d, w);
      } else {
        KeptByActor(env, s, a, t, d);
      }
    }
  }

  lemma KeptByActor(env: Env, s: State, a: Action, t: TenantId, d: nat)
    requires HeldBy(s, t, d, a.w) && !a.Crash?
    ensures Anchored(Apply(env, s, a), t, d) || HeldBy(Apply(env, s, a), t, d, a.w)
  {
    var s' := Apply(env, s, a);
    if TurnOf(s, a).Anchors? {
      AnchorEffect(s, a.w);
      assert s'.anchors[|s.anchors|].drain == d;
    } else if TurnOf(s, a).Numbers? {
      IncrEffect(env, s, a.w);
    }
  }

  // --- Both failures do happen ---

  /** One whole attempt of worker w up to the script, with batch size 1. */
  function SealAlone(w: nat, p: Payload): seq<Action> {
    [Begin(w, p), Decode(w), InsertEvidence(w, true), Append(w, 1)]
  }

  /** Nobody else's work is pending, so the attempt drains its own record and holds that batch. */
  ghost predicate HoldsOwn(s: State, s': State, w: nat, t: TenantId) {
    && WorkerOf(s', w).pc.Numbering?
    && WorkerOf(s', w).pc.m.tenant == t
    && WorkerOf(s', w).pc.drain == |TenantOf(s, t).drains|
    && |TenantOf(s', t).drains| == |TenantOf(s, t).drains| + 1
    && |TenantOf(s', t).list| == 0
    && TenantOf(s', t).numbered == TenantOf(s, t).numbered
    && forall v: nat :: v != w ==> WorkerOf(s', v) == WorkerOf(s, v)
  }

  lemma RunOneMore(env: Env, actions: seq<Action>, a: Action)
    ensures Run(env, actions + [a]) == Apply(env, Run(env, actions), a)
  {
    assert (actions + [a])[..|actions|] == actions;
  }

  lemma RunSealAlone(env: Env, actions: seq<Action>, w: nat, p: Payload)
    ensures Run(env, actions + SealAlone(w, p)) == SealedAlone(env, Run(env, actions), w, p)
  {
    var inserted := actions + [Begin(w, p)] + [Decode(w)] + [InsertEvidence(w, true)];
    RunInsertedAlone(env, actions, w, p);
    RunOneMore(env, inserted, Append(w, 1));
    assert actions + SealAlone(w, p) == inserted + [Append(w, 1)];
  }

  lemma RunInsertedAlone(env: Env, actions: seq<Action>, w: nat, p: Payload)
    ensures Run(env, actions + [Begin(w, p)] + [Decode(w)] + [InsertEvidence(w, true)])
         == InsertedAlone(env, Run(env, actions), w, p)
  {
    RunOneMore(env, actions, Begin(w, p));
    RunOneMore(env, actions + [Begin(w, p)], Decode(w));
    RunOneMore(env, actions + [Begin(w, p)] + [Decode(w)], InsertEvidence(w, true));
  }

  function SealedAlone(env: Env, s: State, w: nat, p: Payload): State {
    AppendStep(InsertedAlone(env, s, w, p), w, 1)
  }

  function InsertedAlone(env: Env, s: State, w: nat, p: Payload): State {
    InsertStep(env, DecodeStep(Apply(env, s, Begin(w, p)), w), w, true)
  }

  lemma InsertedAppends(env: Env, s: State, w: nat, p: Payload)
    requires WorkerOf(s, w).pc.Idle? && p.decoded.Row?
    ensures var s' := InsertedAlone(env, s, w, p);
            && WorkerOf(s', w).pc == Appending(p, p.decoded.m, |s.evidence|)
            && s'.tenants == s.tenants
            && forall v: nat :: v != w ==> WorkerOf(s', v) == WorkerOf(s, v)
  {
  }

  lemma SealedHolds(s: State, w: nat)
    requires WorkerOf(s, w).pc.Appending? && |TenantOf(s, WorkerOf(s, w).pc.m.tenant).list| == 0
    ensures HoldsOwn(s, AppendStep(s, w, 1), w, WorkerOf(s, w).pc.m.tenant)
  {
    var pc := WorkerOf(s, w).pc;
    var e := Entry(WriteRecord(pc.m.fp), pc.row);
    AppendEffect(s, w, 1);
    assert TenantOf(s, pc.m.tenant).list + [e] == [e];
    ParseWritten(pc.m.fp);
    assert [e][..1] == [e];
    assert AllParse(Records([e]));
  }

  lemma SealAloneHolds(env: Env, s: State, w: nat, p: Payload)
    requires WorkerOf(s, w).pc.Idle? && p.decoded.Row?
    requires |TenantOf(s, p.decoded.m.tenant).list| == 0
    ensures HoldsOwn(s, SealedAlone(env, s, w, p), w, p.decoded.m.tenant)
  {
    InsertedAppends(env, s, w, p);
    SealedHolds(InsertedAlone(env, s, w, p), w);
  }

  lemma SealAloneRun(env: Env, actions: seq<Action>, w: nat, p: Payload)
    requires WorkerOf(Run(env, actions), w).pc.Idle? && p.decoded.Row?
    requires |TenantOf(Run(env, actions), p.decoded.m.tenant).list| == 0
    ensures HoldsOwn(Run(env, actions), Run(env, actions + SealAlone(w, p)), w, p.decoded.m.tenant)
  {
    RunSealAlone(env, actions, w, p);
    SealAloneHolds(env, Run(env, actions), w, p);
  }

  lemma FirstSeal(env: Env, p: Payload)
    requires p.decoded.Row?
    ensures HoldsOwn(Start, Run(env, SealAlone(0, p)), 0, p.decoded.m.tenant)
  {
    SealAloneRun(env, [], 0, p);
    assert [] + SealAlone(0, p) == SealAlone(0, p);
  }

  lemma SecondSeal(env: Env, first: seq<Action>, q: Payload)
    requires q.decoded.Row? && HoldsOwn(Start, Run(env, first), 0, q.decoded.m.tenant)
    ensures var s := Run(env, first + SealAlone(1, q));
            && Numbers(s, Incr(1), q.decoded.m.tenant)
            && WorkerOf(s, 1).pc.drain == 1
            && |TenantOf(s, q.decoded.m.tenant).numbered| == 0
  {
    SealAloneRun(env, first, 1, q);
  }

  /** For any two rows of a tenant there is a run that numbers their batches in the wrong order. */
  lemma NumbersCanOvertake(env: Env, p: Payload, q: Payload)
    requires p.decoded.Row? && q.decoded.Row? && p.decoded.m.tenant == q.decoded.m.tenant
    ensures !InOrder(TenantOf(Run(env, SealAlone(0, p) + SealAlone(1, q) + [Incr(1)]), p.decoded.m.tenant).numbered)
  {
    FirstSeal(env, p);
    SecondSeal(env, SealAlone(0, p), q);
    IncrFirst(env, SealAlone(0, p) + SealAlone(1, q), p.decoded.m.tenant);
  }

  lemma IncrFirst(env: Env, actions: seq<Action>, t: TenantId)
    requires Numbers(Run(env, actions), Incr(1), t)
    requires |TenantOf(Run(env, actions), t).numbered| == 0 && WorkerOf(Run(env, actions), 1).pc.drain == 1
    ensures !InOrder(TenantOf(Run(env, actions + [Incr(1)]), t).numbered)
  {
    RunOneMore(env, actions, Incr(1));
    NumberStep(env, Run(env, actions), Incr(1), t);
    OutOfOrder(TenantOf(Run(env, actions + [Incr(1)]), t).numbered);
  }

  lemma OutOfOrder(numbered: seq<nat>)
    requires |numbered| > 0 && numbered[0] == 1
    ensures !InOrder(numbered)
  {
  }

  /** For any row there is a run that loses its batch: the worker dies right after the script. */
  lemma BatchCanBeLost(env: Env, p: Payload)
    requires p.decoded.Row?
    ensures !NothingLost(Run(env, SealAlone(0, p) + [Crash(0)]))
  {
    FirstSeal(env, p);
    Reachable(env, SealAlone(0, p));
    RunOneMore(env, SealAlone(0, p), Crash(0));
    CrashLoses(env, Run(env, SealAlone(0, p)), 0);
  }
}
