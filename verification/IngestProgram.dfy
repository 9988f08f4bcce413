/**
  Many runs of `sink_manifest` (services/ingestor/arq_worker.py, batch_anchor.py) at once, cut at their outside calls:
  every worker has its own program counter and local variables, all share the queues, the tables and one flat Redis
  keyspace, and the replies of Redis are checked as text. The scheduler may run any worker's next call at any time.

  Every such run is a run of the protocol, step by step.
 */
module IngestProgram {
  import opened BatchRecord
  import opened BatchAnchor
  import opened IngestProtocol
  import opened IngestSafety
  import opened IngestRedis
  import opened IngestRefinement
  import opened SinkWorker

  /** Where a worker is in its code, with the variables that are still needed. */
  datatype Frame =
    | NoJob
    | AtDecode(p: Payload)
    | AtInsert(p: Payload, m: Manifest)
    | AtPostgres(p: Payload)
    | AtPush(p: Payload)
    | AtScript(p: Payload, m: Manifest)
    | AtIncr(p: Payload, m: Manifest, batch: Batch)
    | AtAnchor(p: Payload, m: Manifest, anchor: Anchor)
    | Done(p: Payload)

  datatype Program = Program(frames: map<nat, Frame>, contents: Contents, anchors: Anchors, store: Store)

  const Fresh := Program(map[], Contents([], [], [], [], []), [], map[])

  function FrameOf(g: Program, w: nat): Frame {
    if w in g.frames then g.frames[w] else NoJob
  }

  function Goto(g: Program, w: nat, f: Frame): Program {
    g.(frames := g.frames[w := f])
  }

  // --- One outside call, and the code up to the next ---

  function DecodeCall(g: Program, w: nat): Program {
    match FrameOf(g, w)
    case AtDecode(p) =>
      (match p.decoded
       case BadBase64 => Goto(g, w, NoJob)
       case DecodeFails => Goto(g, w, Done(p)).(contents := Put(g.contents, p, DecodeQueue))
       case SchemaFails => Goto(g, w, Done(p)).(contents := Put(g.contents, p, SchemaQueue))
       case Row(m) => Goto(g, w, AtInsert(p, m)))
    case _ => g
  }

  function InsertCall(config: Config, g: Program, w: nat, ok: bool): Program {
    match FrameOf(g, w)
    case AtInsert(p, m) =>
      if ok then Goto(g, w, AtScript(p, m)).(contents := g.contents.(evidence := g.contents.evidence + [m]))
      else Goto(g, w, if config.hasPostgres then AtPostgres(p) else AtPush(p))
    case _ => g
  }

  function PostgresCall(g: Program, w: nat, ok: bool): Program {
    match FrameOf(g, w)
    case AtPostgres(p) =>
      if ok then Goto(g, w, Done(p)).(contents := Put(g.contents, p, FailedEvidence)) else Goto(g, w, AtPush(p))
    case _ => g
  }

  function PushCall(g: Program, w: nat): Program {
    match FrameOf(g, w)
    case AtPush(p) => Goto(g, w, Done(p)).(contents := Put(g.contents, p, ClickHouseQueue))
    case _ => g
  }

  /** The checks of the reply, in the order of the program; every error ends the job. */
  function AfterReply(size: nat, p: Payload, m: Manifest, parts: seq<string>): Frame {
    if parts == [] then NoJob
    else if parts[0] == "noop" then Done(p)
    else if parts[0] != "batch" then NoJob
    else if |parts[1..]| != size || size == 0 then NoJob
    else if !AllParse(parts[1..]) then NoJob
    else AtIncr(p, m, ParseAll(parts[1..]))
  }

  /** The store after the script, which does nothing to a key that holds no list. */
  function ScriptStore(config: Config, store: Store, m: Manifest): Store
    requires config.settings.batchSize >= 1
  {
    var key := TenantKey(config.settings.listBase, m.tenant);
    if !HoldsList(store, key) then store
    else PutList(store, key, LuaAppend(ListAt(store, key), WriteRecord(m.fp), config.settings.batchSize).0)
  }

  function ScriptFrame(config: Config, store: Store, p: Payload, m: Manifest): Frame
    requires config.settings.batchSize >= 1
  {
    var key, size := TenantKey(config.settings.listBase, m.tenant), config.settings.batchSize;
    if !HoldsList(store, key) then NoJob
    else AfterReply(size, p, m, ReplyText(LuaAppend(ListAt(store, key), WriteRecord(m.fp), size).1))
  }

  function ScriptCall(config: Config, g: Program, w: nat): Program
    requires config.settings.batchSize >= 1
  {
    match FrameOf(g, w)
    case AtScript(p, m) =>
      Goto(g, w, ScriptFrame(config, g.store, p, m)).(store := ScriptStore(config, g.store, m))
    case _ => g
  }

  function IncrCall(config: Config, g: Program, w: nat): Program {
    match FrameOf(g, w)
    case AtIncr(p, m, batch) =>
      var key := TenantKey(config.settings.seqBase, m.tenant);
      if !HoldsNumber(g.store, key) then Goto(g, w, NoJob) else
        Goto(g, w, AtAnchor(p, m, AnchorOf(config.h, batch, NumberAt(g.store, key) + 1))).(
          store := Counted(g.store, key))
    case _ => g
  }

  function AnchorCall(g: Program, w: nat): Program {
    match FrameOf(g, w)
    case AtAnchor(p, m, anchor) => Goto(g, w, Done(p)).(anchors := g.anchors + [(m.tenant, anchor)])
    case _ => g
  }

  function Exec(config: Config, g: Program, a: Action): Program
    requires config.settings.batchSize >= 1
  {
    match a
    case Begin(w, p) => if FrameOf(g, w).NoJob? || FrameOf(g, w).Done? then Goto(g, w, AtDecode(p)) else g
    case Decode(w) => DecodeCall(g, w)
    case InsertEvidence(w, ok) => InsertCall(config, g, w, ok)
    case ParkPostgres(w, ok) => PostgresCall(g, w, ok)
    case ParkRedis(w) => PushCall(g, w)
    case Append(w, _) => ScriptCall(config, g, w)
    case Incr(w) => IncrCall(config, g, w)
    case InsertAnchor(w) => AnchorCall(g, w)
    case Crash(w) => Goto(g, w, NoJob)
  }

  function ExecAll(config: Config, actions: seq<Action>): Program
    requires config.settings.batchSize >= 1
  {
    if actions == [] then Fresh else Exec(config, ExecAll(config, Init(actions)), Last(actions))
  }

  // --- The program follows the protocol ---

  /** The worker is at the same point, with the same values. */
  predicate SamePoint(f: Frame, pc: Pc) {
    match pc
    case Idle => f == NoJob
    case Decoding(p) => f == AtDecode(p)
    case Inserting(p, m) => f == AtInsert(p, m)
    case ParkingPostgres(p) => f == AtPostgres(p)
    case ParkingRedis(p) => f == AtPush(p)
    case Appending(p, m, _) => f == AtScript(p, m)
    case Numbering(p, m, _, batch) => f == AtIncr(p, m, batch)
    case Anchoring(p, m, _, anchor) => f == AtAnchor(p, m, anchor)
    case Returned(p) => f == Done(p)
  }

  ghost predicate SamePoints(g: Program, s: State) {
    forall w: nat :: SamePoint(FrameOf(g, w), WorkerOf(s, w).pc)
  }

  ghost predicate Follows(config: Config, g: Program, s: State) {
    Mirrors(config, s, g.contents, g.anchors, g.store) && SamePoints(g, s)
  }

  lemma ExecOthers(config: Config, g: Program, a: Action, v: nat)
    requires config.settings.batchSize >= 1 && v != a.w
    ensures FrameOf(Exec(config, g, a), v) == FrameOf(g, v)
  {
  }

  lemma PointsStep(config: Config, g: Program, s: State, a: Action)
    requires config.settings.batchSize >= 1 && SamePoints(g, s)
    requires SamePoint(FrameOf(Exec(config, g, a), a.w), WorkerOf(Apply(EnvOf(config), s, a), a.w).pc)
    ensures SamePoints(Exec(config, g, a), Apply(EnvOf(config), s, a))
  {
    forall v: nat ensures SamePoint(FrameOf(Exec(config, g, a), v), WorkerOf(Apply(EnvOf(config), s, a), v).pc) {
      if v != a.w {
        ExecOthers(config, g, a, v);
        OthersIdle(EnvOf(config), s, a, v);
        assert SamePoint(FrameOf(g, v), WorkerOf(s, v).pc);
      }
    }
  }

  /** What a step must establish: the same data, and the acting worker at the same point. */
  ghost predicate Follow(config: Config, g: Program, s: State, w: nat) {
    Mirrors(config, s, g.contents, g.anchors, g.store) && SamePoint(FrameOf(g, w), WorkerOf(s, w).pc)
  }

  lemma BeginFollows(config: Config, g: Program, s: State, w: nat, p: Payload)
    requires config.settings.batchSize >= 1 && Follow(config, g, s, w)
    ensures Follow(config, Exec(config, g, Begin(w, p)), Apply(EnvOf(config), s, Begin(w, p)), w)
  {
    ShowsSameTenants(g.store, config.settings, s, Apply(EnvOf(config), s, Begin(w, p)));
  }

  lemma CrashFollows(config: Config, g: Program, s: State, w: nat)
    requires config.settings.batchSize >= 1 && Follow(config, g, s, w)
    ensures Follow(config, Exec(config, g, Crash(w)), Apply(EnvOf(config), s, Crash(w)), w)
  {
    ShowsSameTenants(g.store, config.settings, s, Apply(EnvOf(config), s, Crash(w)));
  }

  lemma DecodeFollows(config: Config, g: Program, s: State, w: nat)
    requires Follow(config, g, s, w)
    ensures Follow(config, DecodeCall(g, w), DecodeStep(s, w), w)
  {
    ShowsSameTenants(g.store, config.settings, s, DecodeStep(s, w));
  }

  lemma InsertFollows(config: Config, g: Program, s: State, w: nat, ok: bool)
    requires Follow(config, g, s, w)
    ensures Follow(config, InsertCall(config, g, w, ok), InsertStep(EnvOf(config), s, w, ok), w)
  {
    ShowsSameTenants(g.store, config.settings, s, InsertStep(EnvOf(config), s, w, ok));
  }

  lemma PostgresFollows(config: Config, g: Program, s: State, w: nat, ok: bool)
    requires Follow(config, g, s, w)
    ensures Follow(config, PostgresCall(g, w, ok), ParkPostgresStep(s, w, ok), w)
  {
    ShowsSameTenants(g.store, config.settings, s, ParkPostgresStep(s, w, ok));
  }

  lemma PushFollows(config: Config, g: Program, s: State, w: nat)
    requires Follow(config, g, s, w)
    ensures Follow(config, PushCall(g, w), ParkRedisStep(s, w), w)
  {
    ShowsSameTenants(g.store, config.settings, s, ParkRedisStep(s, w));
  }

  lemma AnchorFollows(config: Config, g: Program, s: State, w: nat)
    requires Follow(config, g, s, w)
    ensures Follow(config, AnchorCall(g, w), AnchorStep(s, w), w)
  {
    ShowsSameTenants(g.store, config.settings, s, AnchorStep(s, w));
    if WorkerOf(s, w).pc.Anchoring? {
      var pc := WorkerOf(s, w).pc;
      AnchorsSnoc(s.anchors, AnchorRow(pc.m.tenant, pc.anchor, pc.drain));
    }
  }

  lemma IncrFollows(config: Config, g: Program, s: State, w: nat)
    requires BasesNeverClash(config.settings.listBase, config.settings.seqBase) && Follow(config, g, s, w)
    ensures Follow(config, IncrCall(config, g, w), IncrStep(EnvOf(config), s, w), w)
  {
    if WorkerOf(s, w).pc.Numbering? {
      var t := WorkerOf(s, w).pc.m.tenant;
      assert ShowsTenant(g.store, config.settings, t, TenantOf(s, t));
      IncrShows(config, s, w, g.store, TenantKey(config.settings.seqBase, t));
      IncrKeepsData(EnvOf(config), s, w);
      IncrEffect(EnvOf(config), s, w);
    }
  }

  /** The reply to a call that leaves the list short. */
  lemma NoopReply(size: nat, p: Payload, m: Manifest, reply: LuaReply<string>)
    requires reply.Noop?
    ensures AfterReply(size, p, m, ReplyText(reply)) == Done(p)
  {
  }

  /** The reply to a call that drains a batch of readable records. */
  lemma BatchReply(size: nat, p: Payload, m: Manifest, reply: LuaReply<string>)
    requires reply.Batch? && size >= 1 && |reply.elems| == size && AllParse(reply.elems)
    ensures AfterReply(size, p, m, ReplyText(reply)) == AtIncr(p, m, ParseAll(reply.elems))
  {
    assert ReplyText(reply)[1..] == reply.elems;
  }

  /** The frame after the script matches the protocol's program counter. */
  lemma ScriptPoint(config: Config, s: State, w: nat)
    requires config.settings.batchSize >= 1 && Inv(EnvOf(config), s) && WorkerOf(s, w).pc.Appending?
    ensures var Appending(p, m, row) := WorkerOf(s, w).pc;
            var size, list := config.settings.batchSize, TenantOf(s, m.tenant).list;
            SamePoint(AfterReply(size, p, m, ReplyText(LuaAppend(Records(list), WriteRecord(m.fp), size).1)),
                      WorkerOf(AppendStep(s, w, size), w).pc)
  {
    var Appending(p, m, row) := WorkerOf(s, w).pc;
    var size, list, e := config.settings.batchSize, TenantOf(s, m.tenant).list, Entry(WriteRecord(m.fp), row);
    LuaOnRecords(list, e, size);
    var reply := LuaAppend(Records(list), e.record, size).1;
    if reply.Noop? {
      NoopReply(size, p, m, reply);
    } else {
      DrainHolds(config, s, w, reply.elems);
      BatchReply(size, p, m, reply);
    }
  }

  lemma ScriptFramePoint(config: Config, s: State, w: nat, store: Store)
    requires config.settings.batchSize >= 1 && Inv(EnvOf(config), s) && WorkerOf(s, w).pc.Appending?
    requires Shows(store, config.settings, s)
    ensures SamePoint(ScriptFrame(config, store, WorkerOf(s, w).pc.p, WorkerOf(s, w).pc.m),
                      WorkerOf(AppendStep(s, w, config.settings.batchSize), w).pc)
  {
    var t := WorkerOf(s, w).pc.m.tenant;
    assert ShowsTenant(store, config.settings, t, TenantOf(s, t));
    ScriptPoint(config, s, w);
  }

  lemma ScriptStoreShows(config: Config, s: State, w: nat, store: Store)
    requires config.settings.batchSize >= 1 && BasesNeverClash(config.settings.listBase, config.settings.seqBase)
    requires Shows(store, config.settings, s) && WorkerOf(s, w).pc.Appending?
    ensures Shows(ScriptStore(config, store, WorkerOf(s, w).pc.m), config.settings,
                  AppendStep(s, w, config.settings.batchSize))
  {
    ScriptShows(config, s, w, store);
  }

  lemma ScriptMirrors(config: Config, s: State, w: nat, c: Contents, anchors: Anchors, store: Store)
    requires config.settings.batchSize >= 1 && BasesNeverClash(config.settings.listBase, config.settings.seqBase)
    requires Mirrors(config, s, c, anchors, store) && WorkerOf(s, w).pc.Appending?
    ensures Mirrors(config, AppendStep(s, w, config.settings.batchSize), c, anchors,
                    ScriptStore(config, store, WorkerOf(s, w).pc.m))
  {
    ScriptStoreShows(config, s, w, store);
    ScriptKeepsData(s, w, config.settings.batchSize);
  }

  lemma ScriptRuns(config: Config, g: Program, w: nat, p: Payload, m: Manifest)
    requires config.settings.batchSize >= 1 && FrameOf(g, w) == AtScript(p, m)
    ensures var g' := ScriptCall(config, g, w);
            && FrameOf(g', w) == ScriptFrame(config, g.store, p, m)
            && g' == Program(g'.frames, g.contents, g.anchors, ScriptStore(config, g.store, m))
  {
  }

  lemma ScriptFollows(config: Config, g: Program, s: State, w: nat)
    requires config.settings.batchSize >= 1 && Inv(EnvOf(config), s)
    requires BasesNeverClash(config.settings.listBase, config.settings.seqBase) && Follow(config, g, s, w)
    ensures Follow(config, ScriptCall(config, g, w), AppendStep(s, w, config.settings.batchSize), w)
  {
    if WorkerOf(s, w).pc.Appending? {
      var pc := WorkerOf(s, w).pc;
      ScriptMirrors(config, s, w, g.contents, g.anchors, g.store);
      ScriptFramePoint(config, s, w, g.store);
      ScriptRuns(config, g, w, pc.p, pc.m);
    }
  }

  lemma StepFollows(config: Config, g: Program, s: State, a: Action)
    requires config.settings.batchSize >= 1 && Inv(EnvOf(config), s)
    requires BasesNeverClash(config.settings.listBase, config.settings.seqBase) && Follow(config, g, s, a.w)
    requires a.Append? ==> a.size == config.settings.batchSize
    ensures Follow(config, Exec(config, g, a), Apply(EnvOf(config), s, a), a.w)
  {
    match a
    case Begin(w, p) => BeginFollows(config, g, s, w, p);
    case Decode(w) => DecodeFollows(config, g, s, w);
    case InsertEvidence(w, ok) => InsertFollows(config, g, s, w, ok);
    case ParkPostgres(w, ok) => PostgresFollows(config, g, s, w, ok);
    case ParkRedis(w) => PushFollows(config, g, s, w);
    case Append(w, _) => ScriptFollows(config, g, s, w);
    case Incr(w) => IncrFollows(config, g, s, w);
    case InsertAnchor(w) => AnchorFollows(config, g, s, w);
    case Crash(w) => CrashFollows(config, g, s, w);
  }

  /**
    Every interleaving of the workers' calls is the protocol's run of the same actions: the same queues, rows and
    anchors, a store that shows the same lists and counters, and every worker at the same point.
   */
  lemma {:induction false} ProgramFollowsProtocol(config: Config, actions: seq<Action>)
    requires config.settings.batchSize >= 1 && FixedSize(actions, config.settings.batchSize)
    requires BasesNeverClash(config.settings.listBase, config.settings.seqBase)
    ensures Follows(config, ExecAll(config, actions), Run(EnvOf(config), actions))
  {
    if actions == [] {
      assert forall t: TenantId :: TenantOf(Start, t) == NewTenant;
    } else {
      var before, a := Init(actions), Last(actions);
      var g, s := ExecAll(config, before), Run(EnvOf(config), before);
      ProgramFollowsProtocol(config, before);
      Reachable(EnvOf(config), before);
      assert SamePoint(FrameOf(g, a.w), WorkerOf(s, a.w).pc);
      StepFollows(config, g, s, a);
      PointsStep(config, g, s, a);
    }
  }

  // --- What that means for the program ---

  lemma ReplyAcceptedAt(config: Config, g: Program, s: State, w: nat)
    requires config.settings.batchSize >= 1 && Inv(EnvOf(config), s) && Follow(config, g, s, w)
    requires FrameOf(g, w).AtScript?
    ensures var f := ScriptFrame(config, g.store, FrameOf(g, w).p, FrameOf(g, w).m);
            f.Done? || (f.AtIncr? && |f.batch| == config.settings.batchSize)
  {
    ScriptFramePoint(config, s, w, g.store);
    AppendAccepted(EnvOf(config), s, w, config.settings.batchSize);
  }

  /** In no interleaving does a check of the script's reply end a job: the worker is done or goes on to the INCR. */
  lemma ReplyNeverRejected(config: Config, actions: seq<Action>, w: nat)
    requires config.settings.batchSize >= 1 && FixedSize(actions, config.settings.batchSize)
    requires BasesNeverClash(config.settings.listBase, config.settings.seqBase)
    requires FrameOf(ExecAll(config, actions), w).AtScript?
    ensures var f := FrameOf(ScriptCall(config, ExecAll(config, actions), w), w);
            f.Done? || (f.AtIncr? && |f.batch| == config.settings.batchSize)
  {
    ProgramFollowsProtocol(config, actions);
    Reachable(EnvOf(config), actions);
    FollowsAt(config, ExecAll(config, actions), Run(EnvOf(config), actions), w);
    ReplyAcceptedAt(config, ExecAll(config, actions), Run(EnvOf(config), actions), w);
  }

  lemma FollowsAt(config: Config, g: Program, s: State, w: nat)
    requires Follows(config, g, s)
    ensures Follow(config, g, s, w)
  {
    assert SamePoint(FrameOf(g, w), WorkerOf(s, w).pc);
  }

  /** In every interleaving the anchor rows of a tenant carry different numbers. */
  lemma ProgramNumbersUnique(config: Config, actions: seq<Action>, i: nat, j: nat)
    requires config.settings.batchSize >= 1 && FixedSize(actions, config.settings.batchSize)
    requires BasesNeverClash(config.settings.listBase, config.settings.seqBase)
    requires i < j < |ExecAll(config, actions).anchors|
    requires ExecAll(config, actions).anchors[i].0 == ExecAll(config, actions).anchors[j].0
    ensures ExecAll(config, actions).anchors[i].1.batchSeq != ExecAll(config, actions).anchors[j].1.batchSeq
  {
    ProgramFollowsProtocol(config, actions);
    AnchorNumbersUnique(EnvOf(config), actions, i, j);
  }
}
