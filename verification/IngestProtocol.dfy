/**
  Many ingest workers at once: `sink_manifest` (services/ingestor/arq_worker.py) cut into its
  atomic effects, run by any number of workers in any order.

  A run is any sequence of actions. `Begin` may start any payload on any idle worker, so it covers
  first deliveries and every Arq re-run; `Crash` may end any attempt at any point, so it covers
  every raise and every death of a worker. The Lua script and the INCR are separate actions.

  `Tenant.history`, `.drains`, `.numbered`, `Entry.row`, `AnchorRow.drain`, `Worker.deposits` and
  `Worker.appended` record what happened; no action reads them to decide what to do.
 */
module IngestProtocol {
  import opened Basics
  import opened Merkle
  import opened Text
  import opened BatchRecord
  import opened BatchAnchor

  /** The settings strip the tenant id and reject a blank one. */
  type TenantId = t: string | t != "" && Stripped(t) witness "t"

  /** A decoded row carries the SHA-256 of its own payload. */
  type LeafPrint = f: Fingerprint | |f.sha| == DIGEST_LENGTH
    witness Fingerprint(seq(16, _ => 0 as Byte), seq(32, _ => 0 as Byte))

  datatype Manifest = Manifest(tenant: TenantId, fp: LeafPrint)

  /** What decoding makes of a payload. */
  datatype Decoded = BadBase64 | DecodeFails | SchemaFails | Row(m: Manifest)
  datatype Payload = Payload(text: string, decoded: Decoded)

  datatype Place = DecodeQueue | SchemaQueue | FailedEvidence | ClickHouseQueue | EvidenceTable

  type Batch = b: seq<Fingerprint> | b != [] witness [Fingerprint(seq(16, _ => 0 as Byte), [])]

  datatype Pc =
    | Idle
    | Decoding(p: Payload)
    | Inserting(p: Payload, m: Manifest)
    | ParkingPostgres(p: Payload)
    | ParkingRedis(p: Payload)
    | Appending(p: Payload, m: Manifest, row: nat)
    | Numbering(p: Payload, m: Manifest, drain: nat, batch: Batch)
    | Anchoring(p: Payload, m: Manifest, drain: nat, anchor: Anchor)
    | Returned(p: Payload)

  datatype Worker = Worker(pc: Pc, deposits: seq<Place>, appended: bool)

  /** A string on a tenant's list, with the evidence row its worker inserted just before. */
  datatype Entry = Entry(record: string, row: nat)

  datatype Tenant = Tenant(
    list: seq<Entry>,
    counter: nat,
    history: seq<Entry>,       // everything ever appended
    drains: seq<seq<Entry>>,   // batches in the order the script drained them
    numbered: seq<nat>)        // numbered[n - 1] is the drain that INCR numbered n

  datatype AnchorRow = AnchorRow(tenant: TenantId, anchor: Anchor, drain: nat)

  datatype State = State(
    workers: map<nat, Worker>,
    tenants: map<TenantId, Tenant>,
    evidence: seq<Manifest>,
    anchors: seq<AnchorRow>,
    decodeQueue: seq<Payload>,
    schemaQueue: seq<Payload>,
    failedEvidence: seq<Payload>,
    clickhouseQueue: seq<Payload>)

  datatype Action =
    | Begin(w: nat, p: Payload)
    | Decode(w: nat)
    | InsertEvidence(w: nat, ok: bool)
    | ParkPostgres(w: nat, ok: bool)
    | ParkRedis(w: nat)
    | Append(w: nat, size: nat)
    | Incr(w: nat)
    | InsertAnchor(w: nat)
    | Crash(w: nat)

  datatype Env = Env(h: HashFn, postgres: bool)

  const NewWorker := Worker(Idle, [], false)
  const NewTenant := Tenant([], 0, [], [], [])
  const Start := State(map[], map[], [], [], [], [], [], [])

  function WorkerOf(s: State, w: nat): Worker {
    if w in s.workers then s.workers[w] else NewWorker
  }

  function TenantOf(s: State, t: TenantId): Tenant {
    if t in s.tenants then s.tenants[t] else NewTenant
  }

  function SetPc(s: State, w: nat, pc: Pc): State {
    s.(workers := s.workers[w := WorkerOf(s, w).(pc := pc)])
  }

  function Deposit(s: State, w: nat, place: Place, pc: Pc): State {
    s.(workers := s.workers[w := WorkerOf(s, w).(pc := pc, deposits := WorkerOf(s, w).deposits + [place])])
  }

  function Records(entries: seq<Entry>): (r: seq<string>)
    ensures |r| == |entries|
    ensures forall i :: 0 <= i < |r| ==> r[i] == entries[i].record
  {
    seq(|entries|, i requires 0 <= i < |entries| => entries[i].record)
  }

  // --- One action ---

  function Apply(env: Env, s: State, a: Action): State {
    match a
    case Begin(w, p) =>
      if WorkerOf(s, w).pc.Idle? || WorkerOf(s, w).pc.Returned?
      then s.(workers := s.workers[w := Worker(Decoding(p), [], false)]) else s
    case Decode(w) => DecodeStep(s, w)
    case InsertEvidence(w, ok) => InsertStep(env, s, w, ok)
    case ParkPostgres(w, ok) => ParkPostgresStep(s, w, ok)
    case ParkRedis(w) => ParkRedisStep(s, w)
    case Append(w, size) => AppendStep(s, w, size)
    case Incr(w) => IncrStep(env, s, w)
    case InsertAnchor(w) => AnchorStep(s, w)
    case Crash(w) => s.(workers := s.workers[w := NewWorker])
  }

  function DecodeStep(s: State, w: nat): State {
    match WorkerOf(s, w).pc
    case Decoding(p) =>
      (match p.decoded
       case BadBase64 => s.(workers := s.workers[w := NewWorker])
       case DecodeFails =>
         Deposit(s, w, DecodeQueue, Returned(p)).(decodeQueue := s.decodeQueue + [p])
       case SchemaFails =>
         Deposit(s, w, SchemaQueue, Returned(p)).(schemaQueue := s.schemaQueue + [p])
       case Row(m) => SetPc(s, w, Inserting(p, m)))
    case _ => s
  }

  function InsertStep(env: Env, s: State, w: nat, ok: bool): State {
    match WorkerOf(s, w).pc
    case Inserting(p, m) =>
      if ok then
        Deposit(s, w, EvidenceTable, Appending(p, m, |s.evidence|)).(evidence := s.evidence + [m])
      else
        SetPc(s, w, if env.postgres then ParkingPostgres(p) else ParkingRedis(p))
    case _ => s
  }

  function ParkPostgresStep(s: State, w: nat, ok: bool): State {
    match WorkerOf(s, w).pc
    case ParkingPostgres(p) =>
      if ok then
        Deposit(s, w, FailedEvidence, Returned(p)).(failedEvidence := s.failedEvidence + [p])
      else SetPc(s, w, ParkingRedis(p))
    case _ => s
  }

  function ParkRedisStep(s: State, w: nat): State {
    match WorkerOf(s, w).pc
    case ParkingRedis(p) =>
      Deposit(s, w, ClickHouseQueue, Returned(p)).(clickhouseQueue := s.clickhouseQueue + [p])
    case _ => s
  }

  /** The script's effect on the tenant. */
  function TenantAppend(te: Tenant, e: Entry, size: nat): Tenant
    requires size >= 1
  {
    var (rest, reply) := LuaAppend(te.list, e, size);
    te.(list := rest,
        history := te.history + [e],
        drains := if reply.Batch? then te.drains + [reply.elems] else te.drains)
  }

  /** Where the worker goes after the script: back to the caller, on to the INCR, or out with an error. */
  function AfterScript(p: Payload, m: Manifest, drain: nat, reply: LuaReply<Entry>): Pc {
    match reply
    case Noop => Returned(p)
    case Batch(elems) =>
      if elems != [] && AllParse(Records(elems))
      then Numbering(p, m, drain, ParseAll(Records(elems)))
      else Idle
  }

  function AppendStep(s: State, w: nat, size: nat): State {
    match WorkerOf(s, w).pc
    case Appending(p, m, row) =>
      if size == 0 then s else
        var te := TenantOf(s, m.tenant);
        var e := Entry(WriteRecord(m.fp), row);
        var pc := AfterScript(p, m, |te.drains|, LuaAppend(te.list, e, size).1);
        var worker := if pc.Idle? then NewWorker else WorkerOf(s, w).(pc := pc, appended := true);
        s.(workers := s.workers[w := worker],
           tenants := s.tenants[m.tenant := TenantAppend(te, e, size)])
    case _ => s
  }

  function IncrStep(env: Env, s: State, w: nat): State {
    match WorkerOf(s, w).pc
    case Numbering(p, m, drain, batch) =>
      var te := TenantOf(s, m.tenant);
      var anchor := AnchorOf(env.h, batch, te.counter + 1);
      SetPc(s, w, Anchoring(p, m, drain, anchor)).(
        tenants := s.tenants[m.tenant := te.(counter := te.counter + 1, numbered := te.numbered + [drain])])
    case _ => s
  }

  function AnchorStep(s: State, w: nat): State {
    match WorkerOf(s, w).pc
    case Anchoring(p, m, drain, anchor) =>
      SetPc(s, w, Returned(p)).(anchors := s.anchors + [AnchorRow(m.tenant, anchor, drain)])
    case _ => s
  }

  // --- Runs ---

  function Run(env: Env, actions: seq<Action>): State {
    if actions == [] then Start
    else Apply(env, Run(env, actions[..|actions| - 1]), actions[|actions| - 1])
  }

  // --- The invariant: one tenant ---

  predicate TenantOk(te: Tenant) {
    && Flatten(te.drains) + te.list == te.history
    && te.counter == |te.numbered|
    && Distinct(te.numbered)
    && forall i :: 0 <= i < |te.numbered| ==> te.numbered[i] < |te.drains|
  }

  lemma TenantAppendOk(te: Tenant, e: Entry, size: nat)
    requires size >= 1 && TenantOk(te)
    ensures TenantOk(TenantAppend(te, e, size))
  {
    var te' := TenantAppend(te, e, size);
    var (rest, reply) := LuaAppend(te.list, e, size);
    match reply
    case Noop => assert Flatten(te.drains) + (te.list + [e]) == Flatten(te.drains) + te.list + [e];
    case Batch(elems) =>
      assert te'.drains[..|te'.drains| - 1] == te.drains;
      calc {
        Flatten(te'.drains) + rest;
        Flatten(te.drains) + elems + rest;
        { assert Flatten(te.drains) + elems + rest == Flatten(te.drains) + (elems + rest); }
        Flatten(te.drains) + (te.list + [e]);
        Flatten(te.drains) + te.list + [e];
        te'.history;
      }
  }

  // --- The invariant: entries and evidence rows ---

  /** An entry spells the fingerprint of the evidence row it points to. */
  predicate EntryOk(evidence: seq<Manifest>, t: TenantId, e: Entry) {
    && e.row < |evidence|
    && evidence[e.row].tenant == t
    && e.record == WriteRecord(evidence[e.row].fp)
  }

  ghost predicate RowsOk(s: State) {
    && (forall t: TenantId, i :: 0 <= i < |TenantOf(s, t).history| ==>
          EntryOk(s.evidence, t, TenantOf(s, t).history[i]))
    && (forall t: TenantId, i, j :: 0 <= i < j < |TenantOf(s, t).history| ==>
          TenantOf(s, t).history[i].row != TenantOf(s, t).history[j].row)
    && (forall w: nat :: WorkerOf(s, w).pc.Appending? ==> AppendingOk(s, WorkerOf(s, w).pc))
    && (forall v: nat, w: nat :: v != w && WorkerOf(s, v).pc.Appending? && WorkerOf(s, w).pc.Appending? ==>
          WorkerOf(s, v).pc.row != WorkerOf(s, w).pc.row)
  }

  /** The row a worker is about to append is its own: no list entry points to it yet. */
  ghost predicate AppendingOk(s: State, pc: Pc)
    requires pc.Appending?
  {
    && pc.row < |s.evidence|
    && s.evidence[pc.row] == pc.m
    && forall i :: 0 <= i < |TenantOf(s, pc.m.tenant).history| ==> TenantOf(s, pc.m.tenant).history[i].row != pc.row
  }

  // --- The invariant: who holds a drained batch ---

  predicate Drained(te: Tenant, drain: nat) {
    && drain < |te.drains|
    && te.drains[drain] != []
    && AllParse(Records(te.drains[drain]))
  }

  function BatchOf(te: Tenant, drain: nat): Batch
    requires Drained(te, drain)
  {
    ParseAll(Records(te.drains[drain]))
  }

  predicate BatchIs(te: Tenant, drain: nat, batch: seq<Fingerprint>) {
    Drained(te, drain) && batch == BatchOf(te, drain)
  }

  /** The anchor is the payload of this drain, under the number that INCR gave to it. */
  predicate AnchorIs(env: Env, te: Tenant, drain: nat, anchor: Anchor) {
    && 1 <= anchor.batchSeq <= |te.numbered|
    && te.numbered[anchor.batchSeq - 1] == drain
    && Drained(te, drain)
    && anchor == AnchorOf(env.h, BatchOf(te, drain), anchor.batchSeq)
  }

  ghost predicate HolderOk(env: Env, s: State, pc: Pc) {
    match pc
    case Numbering(_, m, drain, batch) =>
      BatchIs(TenantOf(s, m.tenant), drain, batch) && drain !in TenantOf(s, m.tenant).numbered
    case Anchoring(_, m, drain, anchor) =>
      && AnchorIs(env, TenantOf(s, m.tenant), drain, anchor)
      && Unanchored(s.anchors, m.tenant, drain)
    case _ => true
  }

  predicate Unanchored(anchors: seq<AnchorRow>, t: TenantId, drain: nat) {
    forall i :: 0 <= i < |anchors| ==> anchors[i].tenant != t || anchors[i].drain != drain
  }

  predicate Holds(pc: Pc) {
    pc.Numbering? || pc.Anchoring?
  }

  predicate SameBatch(a: Pc, b: Pc)
    requires Holds(a) && Holds(b)
  {
    a.m.tenant == b.m.tenant && a.drain == b.drain
  }

  ghost predicate HoldersOk(env: Env, s: State) {
    ClaimsOk(env, s) && ClaimsApart(s) && AnchorsOk(env, s) && AnchorsApart(s)
  }

  ghost predicate ClaimsOk(env: Env, s: State) {
    forall w: nat :: HolderOk(env, s, WorkerOf(s, w).pc)
  }

  ghost predicate ClaimsApart(s: State) {
    forall v: nat, w: nat :: v != w && Holds(WorkerOf(s, v).pc) && Holds(WorkerOf(s, w).pc) ==>
      !SameBatch(WorkerOf(s, v).pc, WorkerOf(s, w).pc)
  }

  ghost predicate AnchorsOk(env: Env, s: State) {
    forall i :: 0 <= i < |s.anchors| ==>
      AnchorIs(env, TenantOf(s, s.anchors[i].tenant), s.anchors[i].drain, s.anchors[i].anchor)
  }

  predicate AnchorsApart(s: State) {
    forall i, j :: 0 <= i < j < |s.anchors| ==>
      s.anchors[i].tenant != s.anchors[j].tenant || s.anchors[i].drain != s.anchors[j].drain
  }

  // --- The invariant: what each attempt has left behind ---

  predicate Lodged(s: State, p: Payload, place: Place) {
    match place
    case DecodeQueue => p in s.decodeQueue
    case SchemaQueue => p in s.schemaQueue
    case FailedEvidence => p in s.failedEvidence
    case ClickHouseQueue => p in s.clickhouseQueue
    case EvidenceTable => p.decoded.Row? && p.decoded.m in s.evidence
  }

  predicate WorkerOk(s: State, worker: Worker) {
    match worker.pc
    case Idle => true
    case Decoding(_) => worker.deposits == [] && !worker.appended
    case Inserting(p, m) => worker.deposits == [] && !worker.appended && p.decoded == Row(m)
    case ParkingPostgres(_) => worker.deposits == [] && !worker.appended
    case ParkingRedis(_) => worker.deposits == [] && !worker.appended
    case Appending(p, m, _) =>
      worker.deposits == [EvidenceTable] && !worker.appended && p.decoded == Row(m) && m in s.evidence
    case Numbering(p, m, _, _) =>
      worker.deposits == [EvidenceTable] && worker.appended && p.decoded == Row(m) && m in s.evidence
    case Anchoring(p, m, _, _) =>
      worker.deposits == [EvidenceTable] && worker.appended && p.decoded == Row(m) && m in s.evidence
    case Returned(p) =>
      && |worker.deposits| == 1
      && Lodged(s, p, worker.deposits[0])
      && (worker.appended <==> worker.deposits[0] == EvidenceTable)
  }

  ghost predicate WorkersOk(s: State) {
    forall w: nat :: WorkerOk(s, WorkerOf(s, w))
  }

  ghost predicate TenantsOk(s: State) {
    forall t: TenantId :: TenantOk(TenantOf(s, t))
  }

  ghost predicate Inv(env: Env, s: State) {
    TenantsOk(s) && RowsOk(s) && HoldersOk(env, s) && WorkersOk(s)
  }

  // --- Every action keeps the invariant ---

  /** Nothing that was written anywhere is ever taken back, apart from a tenant's pending list. */
  predicate Grows(s: State, s': State) {
    && s.evidence <= s'.evidence
    && s.anchors <= s'.anchors
    && s.decodeQueue <= s'.decodeQueue
    && s.schemaQueue <= s'.schemaQueue
    && s.failedEvidence <= s'.failedEvidence
    && s.clickhouseQueue <= s'.clickhouseQueue
  }

  lemma ApplyGrows(env: Env, s: State, a: Action)
    ensures Grows(s, Apply(env, s, a))
  {
  }

  lemma OthersIdle(env: Env, s: State, a: Action, w: nat)
    requires w != a.w
    ensures WorkerOf(Apply(env, s, a), w) == WorkerOf(s, w)
  {
  }

  lemma WorkerOkGrows(s: State, s': State, worker: Worker)
    requires Grows(s, s') && WorkerOk(s, worker)
    ensures WorkerOk(s', worker)
  {
  }

  lemma DecodeActorOk(s: State, w: nat)
    requires WorkerOk(s, WorkerOf(s, w))
    ensures WorkerOk(DecodeStep(s, w), WorkerOf(DecodeStep(s, w), w))
  {
  }

  lemma InsertActorOk(env: Env, s: State, w: nat, ok: bool)
    requires WorkerOk(s, WorkerOf(s, w))
    ensures WorkerOk(InsertStep(env, s, w, ok), WorkerOf(InsertStep(env, s, w, ok), w))
  {
  }

  lemma ParkActorOk(s: State, w: nat, ok: bool)
    requires WorkerOk(s, WorkerOf(s, w))
    ensures WorkerOk(ParkPostgresStep(s, w, ok), WorkerOf(ParkPostgresStep(s, w, ok), w))
    ensures WorkerOk(ParkRedisStep(s, w), WorkerOf(ParkRedisStep(s, w), w))
  {
  }

  lemma AppendActorOk(s: State, w: nat, size: nat)
    requires WorkerOk(s, WorkerOf(s, w))
    ensures WorkerOk(AppendStep(s, w, size), WorkerOf(AppendStep(s, w, size), w))
  {
  }

  lemma SealActorOk(env: Env, s: State, w: nat)
    requires WorkerOk(s, WorkerOf(s, w))
    ensures WorkerOk(IncrStep(env, s, w), WorkerOf(IncrStep(env, s, w), w))
    ensures WorkerOk(AnchorStep(s, w), WorkerOf(AnchorStep(s, w), w))
  {
  }

  lemma ActorOk(env: Env, s: State, a: Action)
    requires WorkerOk(s, WorkerOf(s, a.w))
    ensures WorkerOk(Apply(env, s, a), WorkerOf(Apply(env, s, a), a.w))
  {
    match a
    case Begin(_, _) =>
    case Decode(w) => DecodeActorOk(s, w);
    case InsertEvidence(w, ok) => InsertActorOk(env, s, w, ok);
    case ParkPostgres(w, ok) => ParkActorOk(s, w, ok);
    case ParkRedis(w) => ParkActorOk(s, w, true);
    case Append(w, size) => AppendActorOk(s, w, size);
    case Incr(w) => SealActorOk(env, s, w);
    case InsertAnchor(w) => SealActorOk(env, s, w);
    case Crash(_) =>
  }

  lemma WorkersStep(env: Env, s: State, a: Action)
    requires Inv(env, s)
    ensures WorkersOk(Apply(env, s, a))
  {
    var s' := Apply(env, s, a);
    forall w: nat ensures WorkerOk(s', WorkerOf(s', w)) {
      if w == a.w {
        ActorOk(env, s, a);
      } else {
        OthersIdle(env, s, a, w);
        ApplyGrows(env, s, a);
        WorkerOkGrows(s, s', WorkerOf(s, w));
      }
    }
  }

  // A tenant's record only grows, so what is said about a drained batch stays true.

  predicate TenantGrows(te: Tenant, te': Tenant) {
    te.drains <= te'.drains && te.numbered <= te'.numbered
  }

  lemma BatchIsGrows(te: Tenant, te': Tenant, drain: nat, batch: seq<Fingerprint>)
    requires TenantGrows(te, te') && BatchIs(te, drain, batch)
    ensures BatchIs(te', drain, batch)
  {
  }

  lemma AnchorIsGrows(env: Env, te: Tenant, te': Tenant, drain: nat, anchor: Anchor)
    requires TenantGrows(te, te') && AnchorIs(env, te, drain, anchor)
    ensures AnchorIs(env, te', drain, anchor)
  {
    BatchIsGrows(te, te', drain, BatchOf(te, drain));
    assert te'.numbered[anchor.batchSeq - 1] == te.numbered[anchor.batchSeq - 1];
  }

  ghost predicate TenantsGrow(s: State, s': State) {
    forall t: TenantId :: TenantGrows(TenantOf(s, t), TenantOf(s', t))
  }

  lemma AnchorRowsGrow(env: Env, s: State, s': State)
    requires AnchorsOk(env, s) && s'.anchors == s.anchors && TenantsGrow(s, s')
    ensures AnchorsOk(env, s')
  {
    forall i | 0 <= i < |s'.anchors|
      ensures AnchorIs(env, TenantOf(s', s'.anchors[i].tenant), s'.anchors[i].drain, s'.anchors[i].anchor)
    {
      var row := s.anchors[i];
      AnchorIsGrows(env, TenantOf(s, row.tenant), TenantOf(s', row.tenant), row.drain, row.anchor);
    }
  }

  /** A worker that does not act keeps its claim, as long as nobody numbers or anchors its batch. */
  lemma HolderGrows(env: Env, s: State, s': State, pc: Pc)
    requires HolderOk(env, s, pc)
    requires Holds(pc) ==> TenantGrows(TenantOf(s, pc.m.tenant), TenantOf(s', pc.m.tenant))
    requires pc.Numbering? ==> pc.drain !in TenantOf(s', pc.m.tenant).numbered
    requires pc.Anchoring? ==> Unanchored(s'.anchors, pc.m.tenant, pc.drain)
    ensures HolderOk(env, s', pc)
  {
    match pc
    case Numbering(_, m, drain, batch) =>
      BatchIsGrows(TenantOf(s, m.tenant), TenantOf(s', m.tenant), drain, batch);
    case Anchoring(_, m, drain, anchor) =>
      AnchorIsGrows(env, TenantOf(s, m.tenant), TenantOf(s', m.tenant), drain, anchor);
    case _ =>
  }

  lemma HolderDrained(env: Env, s: State, pc: Pc)
    requires HolderOk(env, s, pc) && Holds(pc)
    ensures pc.drain < |TenantOf(s, pc.m.tenant).drains|
  {
  }

  /** An action that leaves tenants and anchors alone and its worker without a batch. */
  lemma HoldersQuiet(env: Env, s: State, s': State, w: nat, worker: Worker)
    requires HoldersOk(env, s)
    requires s'.tenants == s.tenants && s'.anchors == s.anchors
    requires s'.workers == s.workers[w := worker] && !Holds(worker.pc)
    ensures HoldersOk(env, s')
  {
    assert forall v: nat :: v != w ==> WorkerOf(s', v) == WorkerOf(s, v);
    assert forall t: TenantId :: TenantOf(s', t) == TenantOf(s, t);
    forall v: nat ensures HolderOk(env, s', WorkerOf(s', v).pc) {
      if v != w { HolderGrows(env, s, s', WorkerOf(s, v).pc); }
    }
    AnchorRowsGrow(env, s, s');
  }

  /** What the script changes. */
  ghost predicate AppendEff(s: State, s': State, w: nat, size: nat)
    requires WorkerOf(s, w).pc.Appending? && size >= 1
  {
    var Appending(p, m, row) := WorkerOf(s, w).pc;
    && TenantsGrow(s, s') && s'.anchors == s.anchors && s'.evidence == s.evidence
    && TenantOf(s', m.tenant) == TenantAppend(TenantOf(s, m.tenant), Entry(WriteRecord(m.fp), row), size)
    && (forall t: TenantId :: t != m.tenant ==> TenantOf(s', t) == TenantOf(s, t))
    && (forall t: TenantId :: TenantOf(s', t).numbered == TenantOf(s, t).numbered)
    && (forall v: nat :: v != w ==> WorkerOf(s', v) == WorkerOf(s, v))
    && !WorkerOf(s', w).pc.Appending?
    && AppendedPc(WorkerOf(s, w).pc, WorkerOf(s', w).pc, TenantOf(s, m.tenant), TenantOf(s', m.tenant))
  }

  /** A worker that drained a batch holds it. */
  predicate AppendedPc(pc: Pc, pc': Pc, te: Tenant, te': Tenant)
    requires pc.Appending?
  {
    && (pc'.Returned? ==> te'.drains == te.drains)
    && (Holds(pc') ==>
          pc'.Numbering? && pc'.m == pc.m && pc'.drain == |te.drains| && BatchIs(te', pc'.drain, pc'.batch))
  }

  lemma AppendEffect(s: State, w: nat, size: nat)
    requires WorkerOf(s, w).pc.Appending? && size >= 1
    ensures AppendEff(s, AppendStep(s, w, size), w, size)
  {
    AppendActor(s, w, size);
  }

  lemma AppendActor(s: State, w: nat, size: nat)
    requires WorkerOf(s, w).pc.Appending? && size >= 1
    ensures var pc, m := WorkerOf(AppendStep(s, w, size), w).pc, WorkerOf(s, w).pc.m;
            Holds(pc) ==>
              && pc.Numbering? && pc.m == m && pc.drain == |TenantOf(s, m.tenant).drains|
              && BatchIs(TenantOf(AppendStep(s, w, size), m.tenant), pc.drain, pc.batch)
  {
    var Appending(p, m, row) := WorkerOf(s, w).pc;
    var te, e := TenantOf(s, m.tenant), Entry(WriteRecord(m.fp), row);
    var s' := AppendStep(s, w, size);
    assert TenantOf(s', m.tenant) == TenantAppend(te, e, size);
    var reply := LuaAppend(te.list, e, size).1;
    if reply.Batch? {
      assert TenantAppend(te, e, size).drains[|te.drains|] == reply.elems;
    }
  }

  lemma HoldersAppend(env: Env, s: State, s': State, w: nat, size: nat)
    requires TenantsOk(s) && HoldersOk(env, s)
    requires WorkerOf(s, w).pc.Appending? && size >= 1 && AppendEff(s, s', w, size)
    ensures HoldersOk(env, s')
  {
    AnchorRowsGrow(env, s, s');
    assert TenantOk(TenantOf(s, WorkerOf(s, w).pc.m.tenant));
    forall v: nat ensures HolderOk(env, s', WorkerOf(s', v).pc) {
      if v != w { HolderGrows(env, s, s', WorkerOf(s, v).pc); }
    }
    forall u: nat, v: nat | u != v && Holds(WorkerOf(s', u).pc) && Holds(WorkerOf(s', v).pc)
      ensures !SameBatch(WorkerOf(s', u).pc, WorkerOf(s', v).pc)
    {
      if u != w { HolderDrained(env, s, WorkerOf(s, u).pc); }
      if v != w { HolderDrained(env, s, WorkerOf(s, v).pc); }
    }
  }

  /** What the INCR changes. */
  ghost predicate IncrEff(env: Env, s: State, s': State, w: nat)
    requires WorkerOf(s, w).pc.Numbering?
  {
    var Numbering(p, m, drain, batch) := WorkerOf(s, w).pc;
    var te := TenantOf(s, m.tenant);
    && TenantsGrow(s, s') && s'.anchors == s.anchors && s'.evidence == s.evidence
    && TenantOf(s', m.tenant) == te.(counter := te.counter + 1, numbered := te.numbered + [drain])
    && (forall t: TenantId :: t != m.tenant ==> TenantOf(s', t) == TenantOf(s, t))
    && (forall v: nat :: v != w ==> WorkerOf(s', v) == WorkerOf(s, v))
    && WorkerOf(s', w).pc == Anchoring(p, m, drain, AnchorOf(env.h, batch, te.counter + 1))
  }

  lemma IncrEffect(env: Env, s: State, w: nat)
    requires WorkerOf(s, w).pc.Numbering?
    ensures IncrEff(env, s, IncrStep(env, s, w), w)
  {
  }

  lemma IncrActor(env: Env, s: State, s': State, w: nat)
    requires TenantsOk(s) && HoldersOk(env, s)
    requires WorkerOf(s, w).pc.Numbering? && IncrEff(env, s, s', w)
    ensures HolderOk(env, s', WorkerOf(s', w).pc)
  {
    var Numbering(p, m, drain, batch) := WorkerOf(s, w).pc;
    var te, te' := TenantOf(s, m.tenant), TenantOf(s', m.tenant);
    assert HolderOk(env, s, WorkerOf(s, w).pc) && TenantOk(te);
    BatchIsGrows(te, te', drain, batch);
    assert te'.numbered[te.counter] == drain;
    AnchoredAreNumbered(env, s, m.tenant, drain);
  }

  lemma AnchoredAreNumbered(env: Env, s: State, t: TenantId, drain: nat)
    requires AnchorsOk(env, s) && drain !in TenantOf(s, t).numbered
    ensures Unanchored(s.anchors, t, drain)
  {
    forall i | 0 <= i < |s.anchors| && s.anchors[i].tenant == t ensures s.anchors[i].drain != drain {
      assert AnchorIs(env, TenantOf(s, t), s.anchors[i].drain, s.anchors[i].anchor);
    }
  }

  lemma IncrKeepsClaim(env: Env, s: State, s': State, w: nat, pc: Pc)
    requires HolderOk(env, s, pc)
    requires WorkerOf(s, w).pc.Numbering? && IncrEff(env, s, s', w)
    requires Holds(pc) ==> !SameBatch(pc, WorkerOf(s, w).pc)
    ensures HolderOk(env, s', pc)
  {
    HolderGrows(env, s, s', pc);
  }

  lemma HoldersIncr(env: Env, s: State, s': State, w: nat)
    requires TenantsOk(s) && HoldersOk(env, s)
    requires WorkerOf(s, w).pc.Numbering? && IncrEff(env, s, s', w)
    ensures HoldersOk(env, s')
  {
    AnchorRowsGrow(env, s, s');
    ClaimsStayApart(s, s', w);
    forall v: nat ensures HolderOk(env, s', WorkerOf(s', v).pc) {
      assert HolderOk(env, s, WorkerOf(s, v).pc);
      if v == w {
        IncrActor(env, s, s', w);
      } else {
        IncrKeepsClaim(env, s, s', w, WorkerOf(s, v).pc);
      }
    }
  }

  /** What writing the anchor row changes. */
  ghost predicate AnchorEff(s: State, s': State, w: nat)
    requires WorkerOf(s, w).pc.Anchoring?
  {
    var pc := WorkerOf(s, w).pc;
    && s'.anchors == s.anchors + [AnchorRow(pc.m.tenant, pc.anchor, pc.drain)]
    && s'.tenants == s.tenants && s'.evidence == s.evidence
    && (forall v: nat :: v != w ==> WorkerOf(s', v) == WorkerOf(s, v))
    && WorkerOf(s', w).pc == Returned(pc.p)
  }

  lemma AnchorEffect(s: State, w: nat)
    requires WorkerOf(s, w).pc.Anchoring?
    ensures AnchorEff(s, AnchorStep(s, w), w)
  {
  }

  lemma AnchorKeepsClaim(env: Env, s: State, s': State, w: nat, pc: Pc)
    requires HolderOk(env, s, pc)
    requires WorkerOf(s, w).pc.Anchoring? && AnchorEff(s, s', w)
    requires Holds(pc) ==> !SameBatch(pc, WorkerOf(s, w).pc)
    ensures HolderOk(env, s', pc)
  {
    assert Holds(pc) ==> TenantOf(s', pc.m.tenant) == TenantOf(s, pc.m.tenant);
    HolderGrows(env, s, s', pc);
  }

  lemma AnchorClaims(env: Env, s: State, s': State, w: nat)
    requires ClaimsOk(env, s) && ClaimsApart(s)
    requires WorkerOf(s, w).pc.Anchoring? && AnchorEff(s, s', w)
    ensures ClaimsOk(env, s')
  {
    forall v: nat ensures HolderOk(env, s', WorkerOf(s', v).pc) {
      if v != w {
        assert HolderOk(env, s, WorkerOf(s, v).pc);
        AnchorKeepsClaim(env, s, s', w, WorkerOf(s, v).pc);
      }
    }
  }

  /** A worker that lets go of its batch, or does not change it, leaves the claims apart. */
  lemma ClaimsStayApart(s: State, s': State, w: nat)
    requires ClaimsApart(s)
    requires forall v: nat :: v != w ==> WorkerOf(s', v) == WorkerOf(s, v)
    requires Holds(WorkerOf(s', w).pc) ==>
               Holds(WorkerOf(s, w).pc) && SameBatch(WorkerOf(s, w).pc, WorkerOf(s', w).pc)
    ensures ClaimsApart(s')
  {
    forall u: nat, v: nat | u != v && Holds(WorkerOf(s', u).pc) && Holds(WorkerOf(s', v).pc)
      ensures !SameBatch(WorkerOf(s', u).pc, WorkerOf(s', v).pc)
    {
      assert !SameBatch(WorkerOf(s, u).pc, WorkerOf(s, v).pc);
    }
  }

  lemma AnchorRows(env: Env, s: State, s': State, w: nat)
    requires AnchorsOk(env, s)
    requires WorkerOf(s, w).pc.Anchoring? && AnchorEff(s, s', w) && HolderOk(env, s, WorkerOf(s, w).pc)
    ensures AnchorsOk(env, s')
  {
    forall i | 0 <= i < |s'.anchors|
      ensures AnchorIs(env, TenantOf(s', s'.anchors[i].tenant), s'.anchors[i].drain, s'.anchors[i].anchor)
    {
      assert i < |s.anchors| ==> s'.anchors[i] == s.anchors[i];
    }
  }

  lemma RowsStayApart(s: State, s': State, row: AnchorRow)
    requires AnchorsApart(s) && Unanchored(s.anchors, row.tenant, row.drain)
    requires s'.anchors == s.anchors + [row]
    ensures AnchorsApart(s')
  {
  }

  lemma HoldersAnchor(env: Env, s: State, s': State, w: nat)
    requires HoldersOk(env, s)
    requires WorkerOf(s, w).pc.Anchoring? && AnchorEff(s, s', w)
    ensures HoldersOk(env, s')
  {
    var pc := WorkerOf(s, w).pc;
    assert HolderOk(env, s, pc);
    AnchorClaims(env, s, s', w);
    ClaimsStayApart(s, s', w);
    AnchorRows(env, s, s', w);
    RowsStayApart(s, s', AnchorRow(pc.m.tenant, pc.anchor, pc.drain));
  }

  /** All other actions that do anything leave tenants and anchors alone. */
  predicate QuietShape(s: State, s': State, w: nat) {
    && s'.tenants == s.tenants && s'.anchors == s.anchors && s.evidence <= s'.evidence
    && s'.workers == s.workers[w := WorkerOf(s', w)]
    && !Holds(WorkerOf(s', w).pc)
    && (WorkerOf(s', w).pc.Appending? ==> FreshRow(s, s', WorkerOf(s', w).pc))
  }

  /** The row of a worker that has just inserted it. */
  predicate FreshRow(s: State, s': State, pc: Pc)
    requires pc.Appending?
  {
    pc.row == |s.evidence| < |s'.evidence| && s'.evidence[pc.row] == pc.m
  }

  lemma DecodeShape(s: State, w: nat)
    ensures DecodeStep(s, w) == s || QuietShape(s, DecodeStep(s, w), w)
  {
  }

  lemma InsertShape(env: Env, s: State, w: nat, ok: bool)
    ensures InsertStep(env, s, w, ok) == s || QuietShape(s, InsertStep(env, s, w, ok), w)
  {
  }

  lemma ParkShape(s: State, w: nat, ok: bool)
    ensures ParkPostgresStep(s, w, ok) == s || QuietShape(s, ParkPostgresStep(s, w, ok), w)
    ensures ParkRedisStep(s, w) == s || QuietShape(s, ParkRedisStep(s, w), w)
  {
  }

  lemma QuietActions(env: Env, s: State, a: Action)
    requires !a.Append? && !a.Incr? && !a.InsertAnchor?
    ensures Apply(env, s, a) == s || QuietShape(s, Apply(env, s, a), a.w)
  {
    match a
    case Begin(_, _) =>
    case Decode(w) => DecodeShape(s, w);
    case InsertEvidence(w, ok) => InsertShape(env, s, w, ok);
    case ParkPostgres(w, ok) => ParkShape(s, w, ok);
    case ParkRedis(w) => ParkShape(s, w, true);
    case Crash(_) =>
  }

  /** The four ways an action can go. */
  datatype Turn = Appends | Numbers | Anchors | Quiet

  function TurnOf(s: State, a: Action): Turn {
    var pc := WorkerOf(s, a.w).pc;
    if a.Append? && pc.Appending? && a.size >= 1 then Appends
    else if a.Incr? && pc.Numbering? then Numbers
    else if a.InsertAnchor? && pc.Anchoring? then Anchors
    else Quiet
  }

  lemma TurnEffect(env: Env, s: State, a: Action)
    ensures var s' := Apply(env, s, a);
            match TurnOf(s, a)
            case Appends => AppendEff(s, s', a.w, a.size)
            case Numbers => IncrEff(env, s, s', a.w)
            case Anchors => AnchorEff(s, s', a.w)
            case Quiet => s' == s || QuietShape(s, s', a.w)
  {
    match TurnOf(s, a)
    case Appends => AppendEffect(s, a.w, a.size);
    case Numbers => IncrEffect(env, s, a.w);
    case Anchors => AnchorEffect(s, a.w);
    case Quiet => if !a.Append? && !a.Incr? && !a.InsertAnchor? { QuietActions(env, s, a); }
  }

  lemma HoldersStep(env: Env, s: State, s': State, a: Action)
    requires TenantsOk(s) && HoldersOk(env, s) && s' == Apply(env, s, a)
    ensures HoldersOk(env, s')
  {
    TurnEffect(env, s, a);
    match TurnOf(s, a)
    case Appends => HoldersAppend(env, s, s', a.w, a.size);
    case Numbers => HoldersIncr(env, s, s', a.w);
    case Anchors => HoldersAnchor(env, s, s', a.w);
    case Quiet => if s' != s { HoldersQuiet(env, s, s', a.w, WorkerOf(s', a.w)); }
  }

  // --- Evidence rows ---

  /** No append: the lists stay, and at most the acting worker takes a row, a fresh one. */
  lemma RowsQuiet(s: State, s': State, w: nat)
    requires RowsOk(s)
    requires forall t: TenantId :: TenantOf(s', t).history == TenantOf(s, t).history
    requires s.evidence <= s'.evidence
    requires forall v: nat :: v != w ==> WorkerOf(s', v) == WorkerOf(s, v)
    requires WorkerOf(s', w).pc.Appending? ==> FreshRow(s, s', WorkerOf(s', w).pc)
    ensures RowsOk(s')
  {
    forall t: TenantId, i | 0 <= i < |TenantOf(s', t).history|
      ensures EntryOk(s'.evidence, t, TenantOf(s', t).history[i])
    {
      assert EntryOk(s.evidence, t, TenantOf(s, t).history[i]);
    }
    forall v: nat | WorkerOf(s', v).pc.Appending? ensures AppendingOk(s', WorkerOf(s', v).pc) {
      var pc := WorkerOf(s', v).pc;
      if v == w {
        forall i | 0 <= i < |TenantOf(s', pc.m.tenant).history|
          ensures TenantOf(s', pc.m.tenant).history[i].row != pc.row
        {
          assert EntryOk(s.evidence, pc.m.tenant, TenantOf(s, pc.m.tenant).history[i]);
        }
      } else {
        assert AppendingOk(s, pc);
      }
    }
  }

  lemma RowsAppend(s: State, s': State, w: nat, size: nat)
    requires RowsOk(s)
    requires WorkerOf(s, w).pc.Appending? && size >= 1 && AppendEff(s, s', w, size)
    ensures RowsOk(s')
  {
    var pc := WorkerOf(s, w).pc;
    assert AppendingOk(s, pc);
    HistoryExtends(s, s', pc);
    forall v: nat | WorkerOf(s', v).pc.Appending? ensures AppendingOk(s', WorkerOf(s', v).pc) {
      assert AppendingOk(s, WorkerOf(s, v).pc);
    }
  }

  lemma HistoryExtends(s: State, s': State, pc: Pc)
    requires RowsOk(s) && pc.Appending? && AppendingOk(s, pc) && s'.evidence == s.evidence
    requires TenantOf(s', pc.m.tenant).history
        == TenantOf(s, pc.m.tenant).history + [Entry(WriteRecord(pc.m.fp), pc.row)]
    requires forall t: TenantId :: t != pc.m.tenant ==> TenantOf(s', t) == TenantOf(s, t)
    ensures forall t: TenantId, i :: 0 <= i < |TenantOf(s', t).history| ==>
              EntryOk(s'.evidence, t, TenantOf(s', t).history[i])
    ensures forall t: TenantId, i, j :: 0 <= i < j < |TenantOf(s', t).history| ==>
              TenantOf(s', t).history[i].row != TenantOf(s', t).history[j].row
  {
    forall t: TenantId, i | 0 <= i < |TenantOf(s', t).history|
      ensures EntryOk(s'.evidence, t, TenantOf(s', t).history[i])
    {
      if i < |TenantOf(s, t).history| {
        assert EntryOk(s.evidence, t, TenantOf(s, t).history[i]);
      }
    }
  }

  lemma RowsStep(env: Env, s: State, s': State, a: Action)
    requires RowsOk(s) && s' == Apply(env, s, a)
    ensures RowsOk(s')
  {
    TurnEffect(env, s, a);
    match TurnOf(s, a)
    case Appends => RowsAppend(s, s', a.w, a.size);
    case Numbers => RowsQuiet(s, s', a.w);
    case Anchors => RowsQuiet(s, s', a.w);
    case Quiet => if s' != s { RowsQuiet(s, s', a.w); }
  }

  // --- Tenants ---

  lemma TenantIncrOk(te: Tenant, drain: nat)
    requires TenantOk(te) && drain < |te.drains| && drain !in te.numbered
    ensures TenantOk(te.(counter := te.counter + 1, numbered := te.numbered + [drain]))
  {
  }

  lemma TenantsStep(env: Env, s: State, s': State, a: Action)
    requires TenantsOk(s) && HoldersOk(env, s) && s' == Apply(env, s, a)
    ensures TenantsOk(s')
  {
    TurnEffect(env, s, a);
    match TurnOf(s, a)
    case Appends => TenantsAppend(s, s', a.w, a.size);
    case Numbers => TenantsIncr(env, s, s', a.w);
    case Anchors => SameTenants(s, s');
    case Quiet => SameTenants(s, s');
  }

  lemma SameTenants(s: State, s': State)
    requires TenantsOk(s) && s'.tenants == s.tenants
    ensures TenantsOk(s')
  {
    forall t: TenantId ensures TenantOk(TenantOf(s', t)) { assert TenantOk(TenantOf(s, t)); }
  }

  lemma TenantsAppend(s: State, s': State, w: nat, size: nat)
    requires TenantsOk(s)
    requires WorkerOf(s, w).pc.Appending? && size >= 1 && AppendEff(s, s', w, size)
    ensures TenantsOk(s')
  {
    var Appending(_, m, row) := WorkerOf(s, w).pc;
    forall t: TenantId ensures TenantOk(TenantOf(s', t)) {
      assert TenantOk(TenantOf(s, t));
      if t == m.tenant { TenantAppendOk(TenantOf(s, t), Entry(WriteRecord(m.fp), row), size); }
    }
  }

  lemma TenantsIncr(env: Env, s: State, s': State, w: nat)
    requires TenantsOk(s) && ClaimsOk(env, s)
    requires WorkerOf(s, w).pc.Numbering? && IncrEff(env, s, s', w)
    ensures TenantsOk(s')
  {
    var pc := WorkerOf(s, w).pc;
    assert HolderOk(env, s, pc);
    forall t: TenantId ensures TenantOk(TenantOf(s', t)) {
      assert TenantOk(TenantOf(s, t));
      if t == pc.m.tenant { TenantIncrOk(TenantOf(s, t), pc.drain); }
    }
  }

  // --- Every reachable state ---

  lemma InvStep(env: Env, s: State, s': State, a: Action)
    requires Inv(env, s) && s' == Apply(env, s, a)
    ensures Inv(env, s')
  {
    TenantsStep(env, s, s', a);
    RowsStep(env, s, s', a);
    HoldersStep(env, s, s', a);
    WorkersStep(env, s, a);
  }

  lemma {:induction false} Reachable(env: Env, actions: seq<Action>)
    ensures Inv(env, Run(env, actions))
  {
    if actions != [] {
      var s, a := Run(env, actions[..|actions| - 1]), actions[|actions| - 1];
      Reachable(env, actions[..|actions| - 1]);
      InvStep(env, s, Run(env, actions), a);
    }
  }
}
