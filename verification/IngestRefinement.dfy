/**
  The program refines the protocol: a run of `sink_manifest` (services/ingestor/arq_worker.py) without interference is a
  sequence of actions of one worker, with the same deposits, the same Redis store and the same anchor rows.
 */
module IngestRefinement {
  import opened Basics
  import opened Merkle
  import opened BatchRecord
  import opened BatchAnchor
  import opened IngestProtocol
  import opened IngestSafety
  import opened IngestRedis
  import opened SinkWorker

  type Anchors = seq<(TenantId, Anchor)>

  function EnvOf(config: Config): Env {
    Env(config.h, config.hasPostgres)
  }

  function ContentsOf(s: State): Contents {
    Contents(s.decodeQueue, s.schemaQueue, s.failedEvidence, s.clickhouseQueue, s.evidence)
  }

  function AnchorsOf(rows: seq<AnchorRow>): Anchors {
    seq(|rows|, i requires 0 <= i < |rows| => (rows[i].tenant, rows[i].anchor))
  }

  /** The program's data are those of the protocol's state. */
  ghost predicate Mirrors(config: Config, s: State, c: Contents, anchors: Anchors, store: Store) {
    c == ContentsOf(s) && anchors == AnchorsOf(s.anchors) && Shows(store, config.settings, s)
  }

  /** The actions after a failed insert. */
  function Parking(config: Config, faults: Faults, w: nat): seq<Action> {
    (if config.hasPostgres then [ParkPostgres(w, faults.postgres)] else []) +
    if config.hasPostgres && faults.postgres then [] else [if faults.pushes then ParkRedis(w) else Crash(w)]
  }

  // --- Runs from a state ---

  function RunFrom(env: Env, s: State, actions: seq<Action>): State
    decreases |actions|
  {
    if actions == [] then s else RunFrom(env, Apply(env, s, actions[0]), actions[1..])
  }

  lemma RunFromCons(env: Env, s: State, a: Action, actions: seq<Action>)
    ensures RunFrom(env, s, [a] + actions) == RunFrom(env, Apply(env, s, a), actions)
  {
    assert ([a] + actions)[1..] == actions;
  }

  lemma RunFromOne(env: Env, s: State, a: Action)
    ensures RunFrom(env, s, [a]) == Apply(env, s, a)
  {
    assert [a][1..] == [];
  }

  /** Going on from the state of a run is a longer run. */
  lemma {:induction false} RunGoesOn(env: Env, before: seq<Action>, actions: seq<Action>)
    ensures RunFrom(env, Run(env, before), actions) == Run(env, before + actions)
    decreases |actions|
  {
    if actions == [] {
      assert before + actions == before;
    } else {
      calc {
        RunFrom(env, Run(env, before), actions);
        RunFrom(env, Apply(env, Run(env, before), actions[0]), actions[1..]);
        { RunOneMore(env, before, actions[0]); }
        RunFrom(env, Run(env, before + [actions[0]]), actions[1..]);
        { RunGoesOn(env, before + [actions[0]], actions[1..]); }
        Run(env, before + [actions[0]] + actions[1..]);
        { assert before + [actions[0]] + actions[1..] == before + actions; }
        Run(env, before + actions);
      }
    }
  }

  // --- One attempt, step by step ---

  lemma ShowsSameTenants(store: Store, settings: Settings, s: State, s': State)
    requires Shows(store, settings, s) && s'.tenants == s.tenants
    ensures Shows(store, settings, s')
  {
    forall t: TenantId ensures ShowsTenant(store, settings, t, TenantOf(s', t)) {
      assert ShowsTenant(store, settings, t, TenantOf(s, t));
    }
  }

  /** All but the workers. */
  predicate SameData(s: State, s': State) {
    && s'.tenants == s.tenants && s'.anchors == s.anchors && ContentsOf(s') == ContentsOf(s)
  }

  lemma Begins(env: Env, s: State, w: nat, p: Payload)
    requires WorkerOf(s, w).pc.Idle? || WorkerOf(s, w).pc.Returned?
    ensures var s' := Apply(env, s, Begin(w, p)); SameData(s, s') && WorkerOf(s', w).pc == Decoding(p)
  {
  }

  lemma Decodes(s: State, w: nat, m: Manifest)
    requires WorkerOf(s, w).pc.Decoding? && WorkerOf(s, w).pc.p.decoded == Row(m)
    ensures SameData(s, DecodeStep(s, w)) && WorkerOf(DecodeStep(s, w), w).pc == Inserting(WorkerOf(s, w).pc.p, m)
  {
  }

  /** An attempt that the decoding ends. */
  lemma DecodingEnds(config: Config, faults: Faults, s: State, w: nat, p: Payload)
    requires WorkerOf(s, w).pc == Decoding(p) && !p.decoded.Row?
    ensures var a := if p.decoded.BadBase64? || faults.pushes then Decode(w) else Crash(w);
            var s' := Apply(EnvOf(config), s, a);
            && ContentsOf(s') == Deposited(ContentsOf(s), p, PlaceOf(config, faults, p))
            && s'.tenants == s.tenants && s'.anchors == s.anchors
            && (WorkerOf(s', w).pc.Returned? <==> PlaceOf(config, faults, p).Some?)
  {
  }

  /** Parking after a failed insert. */
  lemma Parks(config: Config, faults: Faults, s: State, w: nat, p: Payload)
    requires WorkerOf(s, w).pc == if config.hasPostgres then ParkingPostgres(p) else ParkingRedis(p)
    requires p.decoded.Row? && !SomeAttempt(faults.inserts, config.insertAttempts)
    ensures var s' := RunFrom(EnvOf(config), s, Parking(config, faults, w));
            && ContentsOf(s') == Deposited(ContentsOf(s), p, PlaceOf(config, faults, p))
            && s'.tenants == s.tenants && s'.anchors == s.anchors
            && (WorkerOf(s', w).pc.Returned? <==> PlaceOf(config, faults, p).Some?)
  {
    var env, last := EnvOf(config), [if faults.pushes then ParkRedis(w) else Crash(w)];
    var postgres := ParkPostgres(w, faults.postgres);
    if !config.hasPostgres {
      RunFromOne(env, s, last[0]);
      assert Parking(config, faults, w) == last;
    } else if faults.postgres {
      RunFromOne(env, s, postgres);
      assert Parking(config, faults, w) == [postgres];
    } else {
      RunFromCons(env, s, postgres, last);
      RunFromOne(env, Apply(env, s, postgres), last[0]);
    }
  }

  // --- The append ---

  /** What the script call leaves behind: the store, and the records it replied with. */
  lemma ScriptShows(config: Config, s: State, w: nat, store: Store)
    requires config.settings.batchSize >= 1 && BasesNeverClash(config.settings.listBase, config.settings.seqBase)
    requires Shows(store, config.settings, s) && WorkerOf(s, w).pc.Appending?
    ensures var Appending(p, m, row) := WorkerOf(s, w).pc;
            var key, size := TenantKey(config.settings.listBase, m.tenant), config.settings.batchSize;
            var te, record := TenantOf(s, m.tenant), WriteRecord(m.fp);
            && HoldsList(store, key) && ListAt(store, key) == Records(te.list)
            && Shows(PutList(store, key, LuaAppend(ListAt(store, key), record, size).0), config.settings,
                     AppendStep(s, w, size))
  {
    var m := WorkerOf(s, w).pc.m;
    assert ShowsTenant(store, config.settings, m.tenant, TenantOf(s, m.tenant));
    ShowsAppend(config.settings, s, store, w, config.settings.batchSize);
  }

  lemma AppendLeavesPending(config: Config, s: State, w: nat, store: Store, store': Store, result: AppendResult)
    requires config.settings.batchSize >= 1 && BasesNeverClash(config.settings.listBase, config.settings.seqBase)
    requires Shows(store, config.settings, s) && WorkerOf(s, w).pc.Appending?
    requires var m := WorkerOf(s, w).pc.m;
             && |TenantOf(s, m.tenant).list| + 1 < config.settings.batchSize
             && Appended(store, store', config.settings, config.h, m.tenant, m.fp, result)
    ensures var s' := AppendStep(s, w, config.settings.batchSize);
            result.NotSealed? && WorkerOf(s', w).pc.Returned? && Shows(store', config.settings, s')
  {
    ScriptShows(config, s, w, store);
  }

  /** The batch that the script drains, as the program reads it from the reply and as the protocol has it. */
  lemma ReplyIsBatch(list: seq<Entry>, e: Entry, size: nat, full: seq<string>)
    requires 1 <= size <= |list| + 1 && full == Records(list) + [e.record]
    ensures LuaAppend(list, e, size).1.Batch?
    ensures full[..size] == Records(LuaAppend(list, e, size).1.elems)
    ensures full[size..] == LuaAppend(Records(list), e.record, size).0
  {
    LuaOnRecords(list, e, size);
  }

  /** The worker is about to anchor what the program returns. */
  predicate AboutToAnchor(pc: Pc, p: Payload, m: Manifest, result: AppendResult) {
    result.Sealed? && pc.Anchoring? && pc.anchor == result.anchor && pc.m == m && pc.p == p
  }

  lemma NumberedResult(
      store: Store, store': Store, h: HashFn, key: string, tokens: seq<string>, result: AppendResult)
    requires HoldsNumber(store, key) && tokens != [] && AllParse(tokens)
    requires Numbered(store, store', h, key, tokens, result)
    ensures result == Sealed(AnchorOf(h, ParseAll(tokens), NumberAt(store, key) + 1))
  {
  }

  lemma NumberedStore(
      store: Store, store': Store, h: HashFn, key: string, tokens: seq<string>, result: AppendResult)
    requires HoldsNumber(store, key) && tokens != [] && AllParse(tokens)
    requires Numbered(store, store', h, key, tokens, result)
    ensures store' == Counted(store, key)
  {
  }

  lemma IncrShows(config: Config, s: State, w: nat, store: Store, key: string)
    requires BasesNeverClash(config.settings.listBase, config.settings.seqBase)
    requires Shows(store, config.settings, s) && WorkerOf(s, w).pc.Numbering?
    requires key == TenantKey(config.settings.seqBase, WorkerOf(s, w).pc.m.tenant)
    ensures HoldsNumber(store, key)
    ensures Shows(Counted(store, key), config.settings, IncrStep(EnvOf(config), s, w))
  {
    var m := WorkerOf(s, w).pc.m;
    assert ShowsTenant(store, config.settings, m.tenant, TenantOf(s, m.tenant));
    ShowsIncr(EnvOf(config), config.settings, s, store, w);
  }

  lemma IncrAnchors(config: Config, s: State, w: nat, batch: Batch, result: AppendResult)
    requires WorkerOf(s, w).pc.Numbering? && batch == WorkerOf(s, w).pc.batch
    requires result == Sealed(AnchorOf(config.h, batch, TenantOf(s, WorkerOf(s, w).pc.m.tenant).counter + 1))
    ensures AboutToAnchor(
              WorkerOf(IncrStep(EnvOf(config), s, w), w).pc, WorkerOf(s, w).pc.p, WorkerOf(s, w).pc.m, result)
  {
    IncrEffect(EnvOf(config), s, w);
  }

  lemma NumberingSeals(
      config: Config, s: State, w: nat, store: Store, store': Store, tokens: seq<string>, result: AppendResult)
    requires Shows(store, config.settings, s) && WorkerOf(s, w).pc.Numbering?
    requires tokens != [] && AllParse(tokens) && ParseAll(tokens) == WorkerOf(s, w).pc.batch
    requires Numbered(store, store', config.h, TenantKey(config.settings.seqBase, WorkerOf(s, w).pc.m.tenant), tokens,
                      result)
    ensures result == Sealed(AnchorOf(config.h, WorkerOf(s, w).pc.batch,
                                      TenantOf(s, WorkerOf(s, w).pc.m.tenant).counter + 1))
  {
    var t := WorkerOf(s, w).pc.m.tenant;
    assert ShowsTenant(store, config.settings, t, TenantOf(s, t));
    NumberedResult(store, store', config.h, TenantKey(config.settings.seqBase, t), tokens, result);
  }

  /** After a script call that drains, the worker holds the batch that the program reads from the reply. */
  lemma DrainHolds(config: Config, s: State, w: nat, tokens: seq<string>)
    requires Inv(EnvOf(config), s) && config.settings.batchSize >= 1 && WorkerOf(s, w).pc.Appending?
    requires var Appending(p, m, row) := WorkerOf(s, w).pc;
             var reply := LuaAppend(TenantOf(s, m.tenant).list, Entry(WriteRecord(m.fp), row),
                 config.settings.batchSize).1;
             reply.Batch? && tokens == Records(reply.elems)
    ensures var pc := WorkerOf(AppendStep(s, w, config.settings.batchSize), w).pc;
            && pc.Numbering? && pc.m == WorkerOf(s, w).pc.m && pc.p == WorkerOf(s, w).pc.p
            && tokens != [] && AllParse(tokens) && ParseAll(tokens) == pc.batch
  {
    AppendAccepted(EnvOf(config), s, w, config.settings.batchSize);
  }

  // --- Where the actions lead ---

  /** After these actions the protocol mirrors the program's data, and the worker has returned or not. */
  ghost predicate Reaches(
      config: Config, s: State, w: nat, actions: seq<Action>, c: Contents, anchors: Anchors, store: Store,
      returned: bool)
  {
    var s' := RunFrom(EnvOf(config), s, actions);
    Mirrors(config, s', c, anchors, store) && (WorkerOf(s', w).pc.Returned? <==> returned)
  }

  lemma ReachesNext(
      config: Config, s: State, s': State, a: Action, w: nat, actions: seq<Action>,
      c: Contents, anchors: Anchors, store: Store, returned: bool)
    requires s' == Apply(EnvOf(config), s, a) && Reaches(config, s', w, actions, c, anchors, store, returned)
    ensures Reaches(config, s, w, [a] + actions, c, anchors, store, returned)
  {
    RunFromCons(EnvOf(config), s, a, actions);
  }

  lemma ReachesOne(
      config: Config, s: State, s': State, a: Action, w: nat, c: Contents, anchors: Anchors, store: Store,
      returned: bool)
    requires s' == Apply(EnvOf(config), s, a)
    requires Mirrors(config, s', c, anchors, store) && (WorkerOf(s', w).pc.Returned? <==> returned)
    ensures Reaches(config, s, w, [a], c, anchors, store, returned)
  {
    RunFromOne(EnvOf(config), s, a);
  }

  lemma ReachesAppend(
      config: Config, s: State, w: nat, actions: seq<Action>, c: Contents, anchors: Anchors, store: Store,
      returned: bool)
    requires Reaches(config, AppendStep(s, w, config.settings.batchSize), w, actions, c, anchors, store, returned)
    ensures Reaches(config, s, w, [Append(w, config.settings.batchSize)] + actions, c, anchors, store, returned)
  {
    RunFromCons(EnvOf(config), s, Append(w, config.settings.batchSize), actions);
  }

  lemma AnchorsSnoc(rows: seq<AnchorRow>, row: AnchorRow)
    ensures AnchorsOf(rows + [row]) == AnchorsOf(rows) + [(row.tenant, row.anchor)]
  {
  }

  function AnchorRowsOf(written: bool, m: Manifest, result: AppendResult): Anchors {
    if result.Sealed? && written then [(m.tenant, result.anchor)] else []
  }

  function AnchorAction(w: nat, written: bool): Action {
    if written then InsertAnchor(w) else Crash(w)
  }

  /** The last step: the anchor row, or a raise that leaves none. */
  lemma LastStep(
      config: Config, s: State, w: nat, written: bool, p: Payload, m: Manifest, result: AppendResult,
      c: Contents, anchors: Anchors, store: Store)
    requires AboutToAnchor(WorkerOf(s, w).pc, p, m, result) && Mirrors(config, s, c, anchors, store)
    ensures Reaches(config, s, w, [AnchorAction(w, written)], c, anchors + AnchorRowsOf(written, m, result), store,
        written)
  {
    var s' := Apply(EnvOf(config), s, AnchorAction(w, written));
    AnchorsSnoc(s.anchors, AnchorRow(m.tenant, result.anchor, WorkerOf(s, w).pc.drain));
    assert s'.tenants == s.tenants;
    ShowsSameTenants(store, config.settings, s, s');
    ReachesOne(config, s, s', AnchorAction(w, written), w, c, anchors + AnchorRowsOf(written, m, result), store,
        written);
  }

  lemma IncrKeepsData(env: Env, s: State, w: nat)
    ensures ContentsOf(IncrStep(env, s, w)) == ContentsOf(s) && IncrStep(env, s, w).anchors == s.anchors
  {
  }

  lemma ScriptKeepsData(s: State, w: nat, size: nat)
    ensures ContentsOf(AppendStep(s, w, size)) == ContentsOf(s) && AppendStep(s, w, size).anchors == s.anchors
  {
  }

  /** A drained batch, from the INCR on. */
  lemma NumberingReaches(
      config: Config, s: State, w: nat, written: bool, result: AppendResult, c: Contents, anchors: Anchors,
      store': Store)
    requires WorkerOf(s, w).pc.Numbering? && c == ContentsOf(s) && anchors == AnchorsOf(s.anchors)
    requires result == Sealed(AnchorOf(config.h, WorkerOf(s, w).pc.batch,
                                       TenantOf(s, WorkerOf(s, w).pc.m.tenant).counter + 1))
    requires Shows(store', config.settings, IncrStep(EnvOf(config), s, w))
    ensures Reaches(config, s, w, [Incr(w)] + [AnchorAction(w, written)], c,
                    anchors + AnchorRowsOf(written, WorkerOf(s, w).pc.m, result), store', written)
  {
    var pc, s' := WorkerOf(s, w).pc, IncrStep(EnvOf(config), s, w);
    IncrAnchors(config, s, w, pc.batch, result);
    IncrKeepsData(EnvOf(config), s, w);
    LastStep(config, s', w, written, pc.p, pc.m, result, c, anchors, store');
    ReachesNext(config, s, s', Incr(w), w, [AnchorAction(w, written)], c,
                anchors + AnchorRowsOf(written, pc.m, result), store', written);
  }

  lemma DrainedReaches(
      config: Config, s: State, w: nat, written: bool, tokens: seq<string>, result: AppendResult,
      c: Contents, anchors: Anchors, store: Store, store': Store)
    requires BasesNeverClash(config.settings.listBase, config.settings.seqBase)
    requires Mirrors(config, s, c, anchors, store) && WorkerOf(s, w).pc.Numbering?
    requires tokens != [] && AllParse(tokens) && ParseAll(tokens) == WorkerOf(s, w).pc.batch
    requires Numbered(store, store', config.h, TenantKey(config.settings.seqBase, WorkerOf(s, w).pc.m.tenant), tokens,
                      result)
    ensures result.Sealed?
    ensures Reaches(config, s, w, [Incr(w)] + [AnchorAction(w, written)], c,
                    anchors + AnchorRowsOf(written, WorkerOf(s, w).pc.m, result), store', written)
  {
    var key := TenantKey(config.settings.seqBase, WorkerOf(s, w).pc.m.tenant);
    IncrShows(config, s, w, store, key);
    NumberedStore(store, store', config.h, key, tokens, result);
    NumberingSeals(config, s, w, store, store', tokens, result);
    NumberingReaches(config, s, w, written, result, c, anchors, store');
  }

  /** What the program does with a full list, in terms of the list's entries. */
  lemma AppendedNumbers(
      config: Config, list: seq<Entry>, e: Entry, m: Manifest, store: Store, store': Store, result: AppendResult)
    requires 1 <= config.settings.batchSize <= |list| + 1 && e.record == WriteRecord(m.fp)
    requires var key := TenantKey(config.settings.listBase, m.tenant);
             HoldsList(store, key) && ListAt(store, key) == Records(list)
    requires Appended(store, store', config.settings, config.h, m.tenant, m.fp, result)
    ensures var key, size := TenantKey(config.settings.listBase, m.tenant), config.settings.batchSize;
            && LuaAppend(list, e, size).1.Batch? && |LuaAppend(list, e, size).1.elems| == size
            && Numbered(PutList(store, key, LuaAppend(Records(list), e.record, size).0), store', config.h,
                        TenantKey(config.settings.seqBase, m.tenant), Records(LuaAppend(list, e, size).1.elems), result)
  {
    ReplyIsBatch(list, e, config.settings.batchSize, Records(list) + [e.record]);
  }

  lemma SealingDrained(
      config: Config, s: State, w: nat, written: bool, result: AppendResult,
      c: Contents, anchors: Anchors, store: Store, store': Store)
    requires Inv(EnvOf(config), s)
    requires config.settings.batchSize >= 1 && BasesNeverClash(config.settings.listBase, config.settings.seqBase)
    requires Mirrors(config, s, c, anchors, store) && WorkerOf(s, w).pc.Appending?
    requires |TenantOf(s, WorkerOf(s, w).pc.m.tenant).list| + 1 >= config.settings.batchSize
    requires Appended(store, store', config.settings, config.h, WorkerOf(s, w).pc.m.tenant, WorkerOf(s, w).pc.m.fp,
        result)
    ensures result.Sealed?
    ensures Reaches(config, AppendStep(s, w, config.settings.batchSize), w, [Incr(w)] + [AnchorAction(w, written)], c,
                    anchors + AnchorRowsOf(written, WorkerOf(s, w).pc.m, result), store', written)
  {
    var Appending(p, m, row) := WorkerOf(s, w).pc;
    var size, te, e := config.settings.batchSize, TenantOf(s, m.tenant), Entry(WriteRecord(m.fp), row);
    var key := TenantKey(config.settings.listBase, m.tenant);
    ScriptShows(config, s, w, store);
    ScriptKeepsData(s, w, size);
    AppendedNumbers(config, te.list, e, m, store, store', result);
    var tokens := Records(LuaAppend(te.list, e, size).1.elems);
    DrainHolds(config, s, w, tokens);
    DrainedReaches(config, AppendStep(s, w, size), w, written, tokens, result, c, anchors,
                   PutList(store, key, LuaAppend(Records(te.list), e.record, size).0), store');
  }

  lemma SealingReaches(
      config: Config, s: State, w: nat, written: bool, result: AppendResult,
      c: Contents, anchors: Anchors, store: Store, store': Store)
    requires Inv(EnvOf(config), s)
    requires config.settings.batchSize >= 1 && BasesNeverClash(config.settings.listBase, config.settings.seqBase)
    requires Mirrors(config, s, c, anchors, store) && WorkerOf(s, w).pc.Appending?
    requires |TenantOf(s, WorkerOf(s, w).pc.m.tenant).list| + 1 >= config.settings.batchSize
    requires Appended(store, store', config.settings, config.h, WorkerOf(s, w).pc.m.tenant, WorkerOf(s, w).pc.m.fp,
        result)
    ensures result.Sealed?
    ensures Reaches(config, s, w, [Append(w, config.settings.batchSize)] + ([Incr(w)] + [AnchorAction(w, written)]), c,
                    anchors + AnchorRowsOf(written, WorkerOf(s, w).pc.m, result), store', written)
  {
    SealingDrained(config, s, w, written, result, c, anchors, store, store');
    ReachesAppend(config, s, w, [Incr(w)] + [AnchorAction(w, written)], c,
                  anchors + AnchorRowsOf(written, WorkerOf(s, w).pc.m, result), store', written);
  }

  lemma PendingReaches(
      config: Config, s: State, w: nat, result: AppendResult, c: Contents, anchors: Anchors, store: Store,
      store': Store)
    requires config.settings.batchSize >= 1 && BasesNeverClash(config.settings.listBase, config.settings.seqBase)
    requires Mirrors(config, s, c, anchors, store) && WorkerOf(s, w).pc.Appending?
    requires var m := WorkerOf(s, w).pc.m;
             && |TenantOf(s, m.tenant).list| + 1 < config.settings.batchSize
             && Appended(store, store', config.settings, config.h, m.tenant, m.fp, result)
    ensures result.NotSealed?
    ensures Reaches(config, s, w, [Append(w, config.settings.batchSize)], c, anchors, store', true)
  {
    var s' := AppendStep(s, w, config.settings.batchSize);
    AppendLeavesPending(config, s, w, store, store', result);
    ScriptKeepsData(s, w, config.settings.batchSize);
    ReachesOne(config, s, s', Append(w, config.settings.batchSize), w, c, anchors, store', true);
  }

  predicate OwnedBy(actions: seq<Action>, w: nat) {
    forall a :: a in actions ==> a.w == w
  }

  /** The actions from the script call on. */
  ghost function Sealing(config: Config, faults: Faults, w: nat, sealed: bool): seq<Action> {
    if sealed
    then [Append(w, config.settings.batchSize)]
         + ([Incr(w)] + [AnchorAction(w, SomeAttempt(faults.anchors, ANCHOR_ATTEMPTS))])
    else [Append(w, config.settings.batchSize)]
  }

  /** Everything after the evidence insert. */
  lemma FinishReaches(
      config: Config, faults: Faults, s: State, w: nat, result: AppendResult, r: Outcome,
      c: Contents, anchors: Anchors, anchors': Anchors, store: Store, store': Store)
    requires config.settings.batchSize >= 1 && BasesNeverClash(config.settings.listBase, config.settings.seqBase)
    requires Inv(EnvOf(config), s) && WorkerOf(s, w).pc.Appending? && Mirrors(config, s, c, anchors, store)
    requires Finished(config, faults, WorkerOf(s, w).pc.m, result, r, anchors, anchors', store, store')
    ensures Reaches(config, s, w, Sealing(config, faults, w, result.Sealed?), c, anchors', store', r.Returns?)
  {
    var m, written := WorkerOf(s, w).pc.m, SomeAttempt(faults.anchors, ANCHOR_ATTEMPTS);
    if |TenantOf(s, m.tenant).list| + 1 < config.settings.batchSize {
      PendingReaches(config, s, w, result, c, anchors, store, store');
      assert anchors' == anchors;
    } else {
      SealingReaches(config, s, w, written, result, c, anchors, store, store');
      assert anchors' == anchors + AnchorRowsOf(written, m, result);
    }
  }

  // --- The whole run ---

  lemma InsertsRow(config: Config, s: State, w: nat, p: Payload)
    requires p.decoded.Row? && WorkerOf(s, w).pc == Inserting(p, p.decoded.m)
    ensures var s' := InsertStep(EnvOf(config), s, w, true);
            && s'.tenants == s.tenants && s'.anchors == s.anchors
            && ContentsOf(s') == Put(ContentsOf(s), p, EvidenceTable)
            && WorkerOf(s', w).pc.Appending? && WorkerOf(s', w).pc.m == p.decoded.m
  {
  }

  lemma InsertFails(config: Config, s: State, w: nat, p: Payload)
    requires p.decoded.Row? && WorkerOf(s, w).pc == Inserting(p, p.decoded.m)
    ensures var s' := InsertStep(EnvOf(config), s, w, false);
            && SameData(s, s')
            && WorkerOf(s', w).pc == if config.hasPostgres then ParkingPostgres(p) else ParkingRedis(p)
  {
  }

  /** A row whose insert succeeds. */
  lemma StoredReaches(
      config: Config, faults: Faults, p: Payload, s: State, w: nat, result: AppendResult, r: Outcome,
      c: Contents, anchors: Anchors, anchors': Anchors, store: Store, store': Store)
    requires config.settings.batchSize >= 1 && BasesNeverClash(config.settings.listBase, config.settings.seqBase)
    requires Inv(EnvOf(config), s) && Mirrors(config, s, c, anchors, store)
    requires p.decoded.Row? && WorkerOf(s, w).pc == Inserting(p, p.decoded.m)
    requires Finished(config, faults, p.decoded.m, result, r, anchors, anchors', store, store')
    ensures Reaches(config, s, w, [InsertEvidence(w, true)] + Sealing(config, faults, w, result.Sealed?),
                    Put(c, p, EvidenceTable), anchors', store', r.Returns?)
  {
    var s' := InsertStep(EnvOf(config), s, w, true);
    InsertsRow(config, s, w, p);
    InvStep(EnvOf(config), s, s', InsertEvidence(w, true));
    ShowsSameTenants(store, config.settings, s, s');
    FinishReaches(config, faults, s', w, result, r, Put(c, p, EvidenceTable), anchors, anchors', store, store');
    ReachesNext(config, s, s', InsertEvidence(w, true), w, Sealing(config, faults, w, result.Sealed?),
                Put(c, p, EvidenceTable), anchors', store', r.Returns?);
  }

  /** A row whose insert fails. */
  lemma ParkedReaches(
      config: Config, faults: Faults, p: Payload, s: State, w: nat, c: Contents, anchors: Anchors, store: Store)
    requires Mirrors(config, s, c, anchors, store)
    requires p.decoded.Row? && WorkerOf(s, w).pc == Inserting(p, p.decoded.m)
    requires !SomeAttempt(faults.inserts, config.insertAttempts)
    ensures Reaches(config, s, w, [InsertEvidence(w, false)] + Parking(config, faults, w),
                    Deposited(c, p, PlaceOf(config, faults, p)), anchors, store, PlaceOf(config, faults, p).Some?)
  {
    var s', place := InsertStep(EnvOf(config), s, w, false), PlaceOf(config, faults, p);
    InsertFails(config, s, w, p);
    Parks(config, faults, s', w, p);
    ShowsSameTenants(store, config.settings, s, RunFrom(EnvOf(config), s', Parking(config, faults, w)));
    ReachesNext(config, s, s', InsertEvidence(w, false), w, Parking(config, faults, w),
                Deposited(c, p, place), anchors, store, place.Some?);
  }

  lemma OwnedCons(a: Action, actions: seq<Action>, w: nat)
    requires a.w == w && OwnedBy(actions, w)
    ensures OwnedBy([a] + actions, w)
  {
  }

  lemma SealingOwned(config: Config, faults: Faults, w: nat, sealed: bool)
    ensures OwnedBy(Sealing(config, faults, w, sealed), w)
  {
  }

  lemma ParkingOwned(config: Config, faults: Faults, w: nat)
    ensures OwnedBy(Parking(config, faults, w), w)
  {
  }

  lemma SunkStored(
      config: Config, faults: Faults, p: Payload, r: Outcome, c: Contents, c': Contents,
      anchors: Anchors, anchors': Anchors, store: Store, store': Store)
    returns (result: AppendResult)
    requires config.settings.batchSize >= 1 && Sunk(config, faults, p, r, c, c', anchors, anchors', store, store')
    requires p.decoded.Row? && SomeAttempt(faults.inserts, config.insertAttempts)
    ensures c' == Put(c, p, EvidenceTable)
    ensures Finished(config, faults, p.decoded.m, result, r, anchors, anchors', store, store')
  {
    result :| Finished(config, faults, p.decoded.m, result, r, anchors, anchors', store, store');
  }

  lemma SunkParked(
      config: Config, faults: Faults, p: Payload, r: Outcome, c: Contents, c': Contents,
      anchors: Anchors, anchors': Anchors, store: Store, store': Store)
    requires config.settings.batchSize >= 1 && Sunk(config, faults, p, r, c, c', anchors, anchors', store, store')
    requires PlaceOf(config, faults, p) != Some(EvidenceTable)
    ensures c' == Deposited(c, p, PlaceOf(config, faults, p)) && anchors' == anchors && store' == store
    ensures r.Returns? <==> PlaceOf(config, faults, p).Some?
  {
  }

  /** The actions from the insert on, for a payload that decodes to a row. */
  lemma RowReaches(
      config: Config, faults: Faults, p: Payload, s: State, w: nat, r: Outcome,
      c: Contents, c': Contents, anchors: Anchors, anchors': Anchors, store: Store, store': Store)
    returns (actions: seq<Action>)
    requires config.settings.batchSize >= 1 && BasesNeverClash(config.settings.listBase, config.settings.seqBase)
    requires Inv(EnvOf(config), s) && Mirrors(config, s, c, anchors, store)
    requires p.decoded.Row? && WorkerOf(s, w).pc == Inserting(p, p.decoded.m)
    requires Sunk(config, faults, p, r, c, c', anchors, anchors', store, store')
    ensures OwnedBy(actions, w)
    ensures Reaches(config, s, w, actions, c', anchors', store', r.Returns?)
  {
    if SomeAttempt(faults.inserts, config.insertAttempts) {
      actions := StoredActions(config, faults, p, s, w, r, c, c', anchors, anchors', store, store');
    } else {
      actions := ParkedActions(config, faults, p, s, w, r, c, c', anchors, anchors', store, store');
    }
  }

  lemma StoredActions(
      config: Config, faults: Faults, p: Payload, s: State, w: nat, r: Outcome,
      c: Contents, c': Contents, anchors: Anchors, anchors': Anchors, store: Store, store': Store)
    returns (actions: seq<Action>)
    requires config.settings.batchSize >= 1 && BasesNeverClash(config.settings.listBase, config.settings.seqBase)
    requires Inv(EnvOf(config), s) && Mirrors(config, s, c, anchors, store)
    requires p.decoded.Row? && WorkerOf(s, w).pc == Inserting(p, p.decoded.m)
    requires SomeAttempt(faults.inserts, config.insertAttempts)
    requires Sunk(config, faults, p, r, c, c', anchors, anchors', store, store')
    ensures OwnedBy(actions, w)
    ensures Reaches(config, s, w, actions, c', anchors', store', r.Returns?)
  {
    var result := SunkStored(config, faults, p, r, c, c', anchors, anchors', store, store');
    StoredReaches(config, faults, p, s, w, result, r, c, anchors, anchors', store, store');
    SealingOwned(config, faults, w, result.Sealed?);
    OwnedCons(InsertEvidence(w, true), Sealing(config, faults, w, result.Sealed?), w);
    actions := [InsertEvidence(w, true)] + Sealing(config, faults, w, result.Sealed?);
  }

  lemma ParkedActions(
      config: Config, faults: Faults, p: Payload, s: State, w: nat, r: Outcome,
      c: Contents, c': Contents, anchors: Anchors, anchors': Anchors, store: Store, store': Store)
    returns (actions: seq<Action>)
    requires config.settings.batchSize >= 1 && Mirrors(config, s, c, anchors, store)
    requires p.decoded.Row? && WorkerOf(s, w).pc == Inserting(p, p.decoded.m)
    requires !SomeAttempt(faults.inserts, config.insertAttempts)
    requires Sunk(config, faults, p, r, c, c', anchors, anchors', store, store')
    ensures OwnedBy(actions, w)
    ensures Reaches(config, s, w, actions, c', anchors', store', r.Returns?)
  {
    SunkParked(config, faults, p, r, c, c', anchors, anchors', store, store');
    ParkedReaches(config, faults, p, s, w, c, anchors, store);
    ParkingOwned(config, faults, w);
    OwnedCons(InsertEvidence(w, false), Parking(config, faults, w), w);
    actions := [InsertEvidence(w, false)] + Parking(config, faults, w);
  }

  lemma DecodingReaches(
      config: Config, faults: Faults, p: Payload, s: State, w: nat, r: Outcome,
      c: Contents, c': Contents, anchors: Anchors, anchors': Anchors, store: Store, store': Store)
    returns (actions: seq<Action>)
    requires config.settings.batchSize >= 1 && BasesNeverClash(config.settings.listBase, config.settings.seqBase)
    requires Inv(EnvOf(config), s) && Mirrors(config, s, c, anchors, store) && WorkerOf(s, w).pc == Decoding(p)
    requires Sunk(config, faults, p, r, c, c', anchors, anchors', store, store')
    ensures OwnedBy(actions, w)
    ensures Reaches(config, s, w, actions, c', anchors', store', r.Returns?)
  {
    if p.decoded.Row? {
      var s' := DecodeStep(s, w);
      Decodes(s, w, p.decoded.m);
      InvStep(EnvOf(config), s, s', Decode(w));
      ShowsSameTenants(store, config.settings, s, s');
      var rest := RowReaches(config, faults, p, s', w, r, c, c', anchors, anchors', store, store');
      ReachesNext(config, s, s', Decode(w), w, rest, c', anchors', store', r.Returns?);
      actions := [Decode(w)] + rest;
    } else {
      var a := if p.decoded.BadBase64? || faults.pushes then Decode(w) else Crash(w);
      var s' := Apply(EnvOf(config), s, a);
      DecodingEnds(config, faults, s, w, p);
      ShowsSameTenants(store, config.settings, s, s');
      ReachesOne(config, s, s', a, w, c', anchors', store', r.Returns?);
      actions := [a];
    }
  }

  /**
    From every state that the protocol can reach, a run of the program that nobody interferes with is a sequence of
    actions of its worker, which leads to the same queues and rows, the same store and the same anchors, and returns
    exactly when the worker does.
   */
  lemma SinkRefinesProtocol(
      config: Config, faults: Faults, p: Payload, w: nat, before: seq<Action>, r: Outcome,
      c: Contents, c': Contents, anchors: Anchors, anchors': Anchors, store: Store, store': Store)
    returns (actions: seq<Action>)
    requires config.settings.batchSize >= 1 && BasesNeverClash(config.settings.listBase, config.settings.seqBase)
    requires Mirrors(config, Run(EnvOf(config), before), c, anchors, store)
    requires var pc := WorkerOf(Run(EnvOf(config), before), w).pc; pc.Idle? || pc.Returned?
    requires Sunk(config, faults, p, r, c, c', anchors, anchors', store, store')
    ensures OwnedBy(actions, w)
    ensures Mirrors(config, Run(EnvOf(config), before + actions), c', anchors', store')
    ensures WorkerOf(Run(EnvOf(config), before + actions), w).pc.Returned? <==> r.Returns?
  {
    var s := Run(EnvOf(config), before);
    var s' := Apply(EnvOf(config), s, Begin(w, p));
    Reachable(EnvOf(config), before);
    InvStep(EnvOf(config), s, s', Begin(w, p));
    Begins(EnvOf(config), s, w, p);
    ShowsSameTenants(store, config.settings, s, s');
    var rest := DecodingReaches(config, faults, p, s', w, r, c, c', anchors, anchors', store, store');
    ReachesNext(config, s, s', Begin(w, p), w, rest, c', anchors', store', r.Returns?);
    actions := [Begin(w, p)] + rest;
    RunGoesOn(EnvOf(config), before, actions);
  }
}
