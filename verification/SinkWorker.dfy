/**
  One run of `sink_manifest` as the program executes it: decode, insert with retries, park on
  failure, append, anchor (services/ingestor/arq_worker.py, clickhouse_sink.py).

  `Faults` says how each outside call of this run goes.
 */
module SinkWorker {
  import opened Basics
  import opened Merkle
  import opened Text
  import opened BatchAnchor
  import opened IngestProtocol

  datatype Faults = Faults(
    inserts: nat -> bool,   // outcome of the n-th evidence insert attempt
    postgres: bool,         // outcome of the failed_evidence insert
    pushes: bool,           // outcome of a push to a dead-letter queue
    anchors: nat -> bool)   // outcome of the n-th anchor insert attempt

  datatype Config = Config(settings: Settings, h: HashFn, insertAttempts: int, hasPostgres: bool)

  const ANCHOR_ATTEMPTS := 5

  datatype Outcome = Returns | Raises

  /** Everything the five places hold. */
  datatype Contents = Contents(
    decodeQueue: seq<Payload>,
    schemaQueue: seq<Payload>,
    failedEvidence: seq<Payload>,
    clickhouseQueue: seq<Payload>,
    evidence: seq<Manifest>)

  /** The contents with the payload added to one place, and to no other. */
  function Put(c: Contents, p: Payload, place: Place): Contents
    requires place == EvidenceTable ==> p.decoded.Row?
  {
    match place
    case DecodeQueue => c.(decodeQueue := c.decodeQueue + [p])
    case SchemaQueue => c.(schemaQueue := c.schemaQueue + [p])
    case FailedEvidence => c.(failedEvidence := c.failedEvidence + [p])
    case ClickHouseQueue => c.(clickhouseQueue := c.clickhouseQueue + [p])
    case EvidenceTable => c.(evidence := c.evidence + [p.decoded.m])
  }

  /** Retrying stops at the first success and makes at most `attempts` calls, never fewer than one. */
  method Retry(outcome: nat -> bool, attempts: int) returns (ok: bool, calls: nat)
    ensures 1 <= calls <= if attempts < 1 then 1 else attempts
    ensures ok ==> outcome(calls - 1)
    ensures !ok ==> calls == if attempts < 1 then 1 else attempts
    ensures forall i :: 0 <= i < (if ok then calls - 1 else calls) ==> !outcome(i)
  {
    var maxAttempts := if attempts < 1 then 1 else attempts;
    for attempt := 0 to maxAttempts
      invariant attempt < maxAttempts
      invariant forall i :: 0 <= i < attempt ==> !outcome(i)
    {
      if outcome(attempt) {
        return true, attempt + 1;
      }
      if attempt + 1 >= maxAttempts {
        return false, attempt + 1;
      }
    }
    assert false;
  }

  ghost predicate SomeAttempt(outcome: nat -> bool, attempts: int) {
    exists i: nat :: i < (if attempts < 1 then 1 else attempts) && outcome(i)
  }

  /** Where a payload belongs when the outside calls go as `faults` says; None when it ends up nowhere. */
  ghost function PlaceOf(config: Config, faults: Faults, p: Payload): (r: Option<Place>)
    ensures r == Some(EvidenceTable) ==> p.decoded.Row?
  {
    match p.decoded
    case BadBase64 => None
    case DecodeFails => if faults.pushes then Some(DecodeQueue) else None
    case SchemaFails => if faults.pushes then Some(SchemaQueue) else None
    case Row(_) =>
      if SomeAttempt(faults.inserts, config.insertAttempts) then Some(EvidenceTable)
      else if config.hasPostgres && faults.postgres then Some(FailedEvidence)
      else if faults.pushes then Some(ClickHouseQueue)
      else None
  }

  function Deposited(c: Contents, p: Payload, place: Option<Place>): Contents
    requires place == Some(EvidenceTable) ==> p.decoded.Row?
  {
    if place.Some? then Put(c, p, place.value) else c
  }

  /** The part of a run after the evidence insert: a sealed batch has five attempts at its anchor row. */
  ghost predicate Finished(
      config: Config, faults: Faults, m: Manifest, result: AppendResult, r: Outcome,
      anchors: seq<(TenantId, Anchor)>, anchors': seq<(TenantId, Anchor)>,
      store: map<string, RedisValue>, store': map<string, RedisValue>)
    requires config.settings.batchSize >= 1
  {
    && Appended(store, store', config.settings, config.h, m.tenant, m.fp, result)
    && anchors' == anchors + (if result.Sealed? && SomeAttempt(faults.anchors, 5)
                              then [(m.tenant, result.anchor)] else [])
    && (r.Raises? <==> result.Raised? || (result.Sealed? && !SomeAttempt(faults.anchors, 5)))
  }

  /** A whole run: where the payload went, and what came of it after the evidence insert. */
  ghost predicate Sunk(
      config: Config, faults: Faults, p: Payload, r: Outcome, contents: Contents, contents': Contents,
      anchors: seq<(TenantId, Anchor)>, anchors': seq<(TenantId, Anchor)>,
      store: map<string, RedisValue>, store': map<string, RedisValue>)
    requires config.settings.batchSize >= 1
  {
    var place := PlaceOf(config, faults, p);
    && contents' == Deposited(contents, p, place)
    && if place == Some(EvidenceTable)
       then exists result :: Finished(config, faults, p.decoded.m, result, r, anchors, anchors', store, store')
       else (r.Returns? <==> place.Some?) && store' == store && anchors' == anchors
  }

  class Worker {
    const config: Config
    const redis: Redis
    var contents: Contents
    var anchors: seq<(TenantId, Anchor)>

    constructor (config: Config, redis: Redis)
      requires config.settings.batchSize >= 1
      ensures this.config == config && this.redis == redis
      ensures contents == Contents([], [], [], [], []) && anchors == []
    {
      this.config := config;
      this.redis := redis;
      contents := Contents([], [], [], [], []);
      anchors := [];
    }

    method Push(p: Payload, place: Place, pushes: bool) returns (r: Outcome)
      requires place != EvidenceTable
      modifies this`contents
      ensures r.Returns? <==> pushes
      ensures contents == if pushes then Put(old(contents), p, place) else old(contents)
    {
      if !pushes {
        return Raises;
      }
      contents := Put(contents, p, place);
      r := Returns;
    }

    /** Postgres first when it is configured; Redis when it is not, or when it fails. */
    method ParkFailedClickhouseInsert(p: Payload, faults: Faults) returns (r: Outcome)
      modifies this`contents
      ensures config.hasPostgres && faults.postgres ==>
                r.Returns? && contents == Put(old(contents), p, FailedEvidence)
      ensures !(config.hasPostgres && faults.postgres) && faults.pushes ==>
                r.Returns? && contents == Put(old(contents), p, ClickHouseQueue)
      ensures !(config.hasPostgres && faults.postgres) && !faults.pushes ==>
                r.Raises? && contents == old(contents)
    {
      if config.hasPostgres {
        if faults.postgres {
          contents := Put(contents, p, FailedEvidence);
          return Returns;
        }
      }
      r := Push(p, ClickHouseQueue, faults.pushes);
    }

    /**
      A run adds its payload to the place where it belongs and to no other, and returns only if there
      is one. It touches Redis lists, counters and anchors only after the evidence row is in.
     */
    method SinkManifest(p: Payload, faults: Faults) returns (r: Outcome)
      requires config.settings.batchSize >= 1
      modifies this, redis
      ensures Sunk(config, faults, p, r, old(contents), contents, old(anchors), anchors, old(redis.store), redis.store)
    {
      match p.decoded {
        case BadBase64 => return Raises;
        case DecodeFails =>
          r := Push(p, DecodeQueue, faults.pushes);
          return;
        case SchemaFails =>
          r := Push(p, SchemaQueue, faults.pushes);
          return;
        case Row(m) =>
          var inserted, calls := Retry(faults.inserts, config.insertAttempts);
          if !inserted {
            r := ParkFailedClickhouseInsert(p, faults);
            return;
          }
          assert SomeAttempt(faults.inserts, config.insertAttempts);
          contents := Put(contents, p, EvidenceTable);
          r := FinishBatch(p, m, faults);
      }
    }

    /** The part of the run after the evidence insert. */
    method FinishBatch(p: Payload, m: Manifest, faults: Faults) returns (r: Outcome)
      requires config.settings.batchSize >= 1
      modifies this`anchors, redis
      ensures exists result :: Finished(config, faults, m, result, r, old(anchors), anchors, old(redis.store),
          redis.store)
    {
      var result := AppendManifestAndMaybeFinalize(redis, config.settings, config.h, m.tenant, m.fp.id, m.fp.sha);
      StripKeepsStripped(m.tenant);
      if result.Raised? {
        r := Raises;
      } else if result.NotSealed? {
        r := Returns;
      } else {
        var written, calls := Retry(faults.anchors, ANCHOR_ATTEMPTS);
        if written {
          assert SomeAttempt(faults.anchors, ANCHOR_ATTEMPTS);
          anchors := anchors + [(m.tenant, result.anchor)];
        }
        r := if written then Returns else Raises;
      }
      assert Finished(config, faults, m, result, r, old(anchors), anchors, old(redis.store), redis.store);
    }
  }
}
