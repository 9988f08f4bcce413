/**
  Batch assembly in Redis: the Lua append-and-drain script, the INCR that numbers a batch,
  and the anchor payload built from a drained batch (services/ingestor/batch_anchor.py).
 */
module BatchAnchor {
  import opened Basics
  import opened Merkle
  import opened Text
  import opened BatchRecord

  datatype Settings = Settings(listBase: string, seqBase: string, batchSize: nat)

  // --- Key names ---

  function TenantKey(base: string, tenant: string): string {
    base + ":" + tenant
  }

  lemma TenantKeyInjective(base: string, t: string, u: string)
    ensures TenantKey(base, t) == TenantKey(base, u) ==> t == u
  {
    assert t == TenantKey(base, t)[|base| + 1..];
    assert u == TenantKey(base, u)[|base| + 1..];
  }

  /** What is left of a tenant id after the strip, when it is not rejected. */
  predicate TenantName(t: string) {
    t != "" && Stripped(t)
  }

  ghost predicate BasesNeverClash(a: string, b: string) {
    forall t: string, u: string | TenantName(t) && TenantName(u) :: TenantKey(a, t) != TenantKey(b, u)
  }

  /** Base b is base a followed by a colon and something a tenant id may start with. */
  predicate Extends(a: string, b: string) {
    a + ":" <= b + ":" && (|a| == |b| || !IsSpace((b + ":")[|a| + 1]))
  }

  /** List keys and counter keys of all tenants stay apart exactly when neither base extends the other. */
  lemma ClashExactly(a: string, b: string)
    ensures BasesNeverClash(a, b) <==> !Extends(a, b) && !Extends(b, a)
  {
    if Extends(a, b) { ExtensionClashes(a, b); }
    if Extends(b, a) { ExtensionClashes(b, a); }
    if t: string, u: string :| TenantName(t) && TenantName(u) && TenantKey(a, t) == TenantKey(b, u) {
      if |a| <= |b| { ClashExtends(a, b, t, u); } else { ClashExtends(b, a, u, t); }
    }
  }

  lemma ClashExtends(a: string, b: string, t: string, u: string)
    requires TenantName(t) && TenantName(u) && TenantKey(a, t) == TenantKey(b, u) && |a| <= |b|
    ensures Extends(a, b)
  {
    var key := TenantKey(a, t);
    assert key[..|a| + 1] == a + ":" && key[..|b| + 1] == b + ":";
    assert a + ":" == (b + ":")[..|a| + 1];
    assert |a| < |b| ==> key[|a| + 1] == t[0] && key[|a| + 1] == (b + ":")[|a| + 1];
  }

  lemma ExtensionClashes(a: string, b: string)
    requires Extends(a, b)
    ensures !BasesNeverClash(a, b) && !BasesNeverClash(b, a)
  {
    var rest := (b + ":")[|a| + 1..];
    assert b + ":" == a + ":" + rest;
    var t, u := rest + "x", "x";
    assert rest != "" ==> t[0] == (b + ":")[|a| + 1];
    assert TenantName(t) && TenantName(u) && TenantKey(a, t) == TenantKey(b, u);
  }

  // --- The Lua script on one list ---

  datatype LuaReply<T> = Noop | Batch(elems: seq<T>)

  /** What the script leaves on the list, and what it replies, for a list holding `items`. */
  function LuaAppend<T>(items: seq<T>, x: T, size: nat): (r: (seq<T>, LuaReply<T>))
    requires size >= 1
    ensures r.1.Noop? ==> r.0 == items + [x] && |r.0| < size
    ensures r.1.Batch? ==> r.1.elems + r.0 == items + [x] && |r.1.elems| == size
  {
    var full := items + [x];
    if |full| >= size then
      assert full[..size] + full[size..] == full;
      (full[size..], Batch(full[..size]))
    else (full, Noop)
  }

  // --- Redis ---

  datatype RedisValue = List(items: seq<string>) | Number(n: int)

  datatype Reply = Parts(parts: seq<string>) | WrongType

  predicate HoldsList(store: map<string, RedisValue>, key: string) {
    key in store ==> store[key].List?
  }

  predicate HoldsNumber(store: map<string, RedisValue>, key: string) {
    key in store ==> store[key].Number?
  }

  function ListAt(store: map<string, RedisValue>, key: string): seq<string>
    requires HoldsList(store, key)
  {
    if key in store then store[key].items else []
  }

  function NumberAt(store: map<string, RedisValue>, key: string): int
    requires HoldsNumber(store, key)
  {
    if key in store then store[key].n else 0
  }

  /** The store after an INCR. */
  function Counted(store: map<string, RedisValue>, key: string): map<string, RedisValue>
    requires HoldsNumber(store, key)
  {
    store[key := Number(NumberAt(store, key) + 1)]
  }

  /** Redis deletes a list key when the list becomes empty. */
  function PutList(store: map<string, RedisValue>, key: string, items: seq<string>): map<string, RedisValue> {
    if items == [] then store - {key} else store[key := List(items)]
  }

  function ReplyText(reply: LuaReply<string>): seq<string> {
    match reply
    case Noop => ["noop"]
    case Batch(elems) => ["batch"] + elems
  }

  class Redis {
    var store: map<string, RedisValue>

    constructor ()
      ensures store == map[]
    {
      store := map[];
    }

    /** The script runs atomically: RPUSH, LLEN, and for a full batch LRANGE and LTRIM. */
    method EvalBatchAppend(key: string, record: string, batchSize: nat) returns (reply: Reply)
      requires batchSize >= 1
      modifies this
      ensures !HoldsList(old(store), key) ==> reply == WrongType && store == old(store)
      ensures HoldsList(old(store), key) ==>
                var (rest, r) := LuaAppend(ListAt(old(store), key), record, batchSize);
                reply == Parts(ReplyText(r)) && store == PutList(old(store), key, rest)
    {
      if key in store && !store[key].List? {
        return WrongType;
      }
      var items := (if key in store then store[key].items else []) + [record];
      store := store[key := List(items)];
      if |items| >= batchSize {
        var elems := items[..batchSize];
        var rest := items[batchSize..];
        store := if rest == [] then store - {key} else store[key := List(rest)];
        var out := ["batch"];
        for i := 0 to |elems|
          invariant out == ["batch"] + elems[..i]
        {
          out := out + [elems[i]];
        }
        assert out == ["batch"] + elems;
        return Parts(out);
      }
      return Parts(["noop"]);
    }

    method Incr(key: string) returns (r: Option<int>)
      modifies this
      ensures !HoldsNumber(old(store), key) ==> r == None && store == old(store)
      ensures HoldsNumber(old(store), key) ==>
                && r == Some(NumberAt(old(store), key) + 1)
                && store == Counted(old(store), key)
    {
      if key in store && !store[key].Number? {
        return None;
      }
      var n := (if key in store then store[key].n else 0) + 1;
      store := store[key := Number(n)];
      r := Some(n);
    }
  }

  // --- The anchor payload ---

  datatype Anchor = Anchor(
    batchSeq: int,
    rootHex: string,
    manifestCount: nat,
    firstId: Uuid,
    lastId: Uuid,
    firstLeafHex: string,
    lastLeafHex: string)

  function Leaves(batch: seq<Fingerprint>): (r: seq<Bytes>)
    ensures |r| == |batch|
    ensures forall i :: 0 <= i < |r| ==> r[i] == batch[i].sha
  {
    seq(|batch|, i requires 0 <= i < |batch| => batch[i].sha)
  }

  /** The anchor of a batch: the tree root over its digests in order, and its two end points. */
  function AnchorOf(h: HashFn, batch: seq<Fingerprint>, batchSeq: int): Anchor
    requires batch != []
  {
    var first, last := batch[0], batch[|batch| - 1];
    Anchor(batchSeq, ToHex(RootOf(h, Leaves(batch))), |batch|,
           first.id, last.id, ToHex(first.sha), ToHex(last.sha))
  }

  predicate AllParse(tokens: seq<string>) {
    forall i :: 0 <= i < |tokens| ==> ParseRecord(tokens[i]).Some?
  }

  function ParseAll(tokens: seq<string>): (r: seq<Fingerprint>)
    requires AllParse(tokens)
    ensures |r| == |tokens|
    ensures forall i :: 0 <= i < |r| ==> Some(r[i]) == ParseRecord(tokens[i])
  {
    seq(|tokens|, i requires 0 <= i < |tokens| => ParseRecord(tokens[i]).value)
  }

  datatype AppendError =
    | BadDigestLength
    | EmptyTenant
    | RedisWrongType
    | EmptyReply
    | UnexpectedStatus
    | SliceMismatch
    | InvalidRecord

  datatype AppendResult = NotSealed | Sealed(anchor: Anchor) | Raised(error: AppendError)

  /** Every token is read; the leaves are collected in order. */
  method ReadTokens(tokens: seq<string>) returns (batch: Option<seq<Fingerprint>>)
    ensures batch.Some? <==> AllParse(tokens)
    ensures batch.Some? ==> batch.value == ParseAll(tokens)
  {
    var out: seq<Fingerprint> := [];
    for i := 0 to |tokens|
      invariant AllParse(tokens[..i])
      invariant out == ParseAll(tokens[..i])
    {
      match ParseRecord(tokens[i]) {
        case None => return None;
        case Some(f) =>
          out := out + [f];
      }
    }
    assert tokens[..|tokens|] == tokens;
    batch := Some(out);
  }

  /** The reply of the script is checked, the batch read, its root computed, and only then numbered. */
  method HandleReply(redis: Redis, settings: Settings, h: HashFn, seqKey: string, parts: seq<string>)
    returns (r: AppendResult)
    modifies redis
    ensures parts == [] ==> r == Raised(EmptyReply) && redis.store == old(redis.store)
    ensures parts != [] && parts[0] == "noop" ==> r == NotSealed && redis.store == old(redis.store)
    ensures parts != [] && parts[0] !in {"noop", "batch"} ==>
              r == Raised(UnexpectedStatus) && redis.store == old(redis.store)
    ensures parts != [] && parts[0] == "batch" && |parts| != 1 + settings.batchSize ==>
              r == Raised(SliceMismatch) && redis.store == old(redis.store)
    ensures parts != [] && parts[0] == "batch" && |parts| == 1 + settings.batchSize && settings.batchSize >= 1 ==>
              Numbered(old(redis.store), redis.store, h, seqKey, parts[1..], r)
  {
    if parts == [] {
      return Raised(EmptyReply);
    }
    if parts[0] == "noop" {
      return NotSealed;
    }
    if parts[0] != "batch" {
      return Raised(UnexpectedStatus);
    }
    var tokens := parts[1..];
    if |tokens| != settings.batchSize {
      return Raised(SliceMismatch);
    }
    if tokens == [] {
      return Raised(InvalidRecord);
    }
    r := SealTokens(redis, h, seqKey, tokens);
  }

  /** The drained records are read, and only a batch whose root is known gets a number. */
  method SealTokens(redis: Redis, h: HashFn, seqKey: string, tokens: seq<string>) returns (r: AppendResult)
    requires tokens != []
    modifies redis
    ensures Numbered(old(redis.store), redis.store, h, seqKey, tokens, r)
  {
    var batch := ReadTokens(tokens);
    if batch.None? {
      return Raised(InvalidRecord);
    }
    r := SealBatch(redis, h, seqKey, batch.value);
  }

  method SealBatch(redis: Redis, h: HashFn, seqKey: string, batch: seq<Fingerprint>) returns (r: AppendResult)
    requires batch != [] && forall i :: 0 <= i < |batch| ==> |batch[i].sha| == DIGEST_LENGTH
    modifies redis
    ensures !HoldsNumber(old(redis.store), seqKey) ==> r == Raised(RedisWrongType) && redis.store == old(redis.store)
    ensures HoldsNumber(old(redis.store), seqKey) ==>
              && r == Sealed(AnchorOf(h, batch, NumberAt(old(redis.store), seqKey) + 1))
              && r.anchor.rootHex == ToHex(RootOf(h, seq(|batch|, i requires 0 <= i < |batch| => batch[i].sha)))
              && r.anchor.manifestCount == |batch|
              && r.anchor.firstId == batch[0].id && r.anchor.firstLeafHex == ToHex(batch[0].sha)
              && r.anchor.lastId == batch[|batch| - 1].id && r.anchor.lastLeafHex == ToHex(batch[|batch| - 1].sha)
              && redis.store == Counted(old(redis.store), seqKey)
  {
    var leaves := Leaves(batch);
    var root := MerkleRootSha256(h, leaves);
    var n := redis.Incr(seqKey);
    if n.None? {
      return Raised(RedisWrongType);
    }
    var first, last := batch[0], batch[|batch| - 1];
    r := Sealed(Anchor(n.value, ToHex(root.digest), |batch|, first.id, last.id, ToHex(first.sha), ToHex(last.sha)));
  }

  ghost predicate Numbered(
      before: map<string, RedisValue>, after: map<string, RedisValue>,
      h: HashFn, seqKey: string, tokens: seq<string>, r: AppendResult)
    requires tokens != []
  {
    if !AllParse(tokens) then
      r == Raised(InvalidRecord) && after == before
    else if !HoldsNumber(before, seqKey) then
      r == Raised(RedisWrongType) && after == before
    else
      r == Sealed(AnchorOf(h, ParseAll(tokens), NumberAt(before, seqKey) + 1)) && after == Counted(before, seqKey)
  }

  /**
    One call, without interference, on any store: which error is raised, what happens to the two
    keys of the tenant, and the anchor returned. The replies "empty payload", "unexpected status"
    and "slice size mismatch" never happen; "invalid record" needs a record that no worker writes.
   */
  method AppendManifestAndMaybeFinalize(
      redis: Redis, settings: Settings, h: HashFn, tenantId: string, id: Uuid, sha: Bytes)
    returns (r: AppendResult)
    requires settings.batchSize >= 1
    modifies redis
    ensures |sha| != 32 ==> r == Raised(BadDigestLength) && redis.store == old(redis.store)
    ensures |sha| == 32 && Strip(tenantId) == "" ==>
              r == Raised(EmptyTenant) && redis.store == old(redis.store)
    ensures |sha| == 32 && Strip(tenantId) != "" ==>
              Appended(old(redis.store), redis.store, settings, h, Strip(tenantId), Fingerprint(id, sha), r)
  {
    if |sha| != DIGEST_LENGTH {
      return Raised(BadDigestLength);
    }
    var tid := Strip(tenantId);
    if tid == "" {
      return Raised(EmptyTenant);
    }
    var listKey := TenantKey(settings.listBase, tid);
    var seqKey := TenantKey(settings.seqBase, tid);
    var record := ToHex(id) + "|" + ToHex(sha);
    assert record == WriteRecord(Fingerprint(id, sha));
    var reply := redis.EvalBatchAppend(listKey, record, settings.batchSize);
    if reply.WrongType? {
      return Raised(RedisWrongType);
    }
    r := HandleReply(redis, settings, h, seqKey, reply.parts);
  }

  /** The effect of appending fingerprint f for tenant tid, case by case. */
  ghost predicate Appended(
      before: map<string, RedisValue>, after: map<string, RedisValue>,
      settings: Settings, h: HashFn, tid: string, f: Fingerprint, r: AppendResult)
    requires settings.batchSize >= 1
  {
    AppendedAt(before, after, TenantKey(settings.listBase, tid), TenantKey(settings.seqBase, tid),
               settings.batchSize, h, WriteRecord(f), r)
  }

  ghost predicate AppendedAt(
      before: map<string, RedisValue>, after: map<string, RedisValue>, listKey: string, seqKey: string,
      size: nat, h: HashFn, record: string, r: AppendResult)
    requires size >= 1
  {
    if !HoldsList(before, listKey) then
      r == Raised(RedisWrongType) && after == before
    else
      var full := ListAt(before, listKey) + [record];
      if |full| < size then
        r == NotSealed && after == PutList(before, listKey, full)
      else
        Numbered(PutList(before, listKey, full[size..]), after, h, seqKey, full[..size], r)
  }

  // --- The store as the workers leave it ---

  /** The list holds only written records, fewer than a batch of them, and the counter a number. */
  predicate CleanAt(store: map<string, RedisValue>, listKey: string, seqKey: string, size: nat) {
    && HoldsNumber(store, seqKey)
    && HoldsList(store, listKey)
    && |ListAt(store, listKey)| < size
    && AllParse(ListAt(store, listKey))
  }

  predicate TenantClean(store: map<string, RedisValue>, settings: Settings, t: string) {
    CleanAt(store, TenantKey(settings.listBase, t), TenantKey(settings.seqBase, t), settings.batchSize)
  }

  ghost predicate Clean(store: map<string, RedisValue>, settings: Settings) {
    forall t: string | TenantName(t) :: TenantClean(store, settings, t)
  }

  predicate SameAt(before: map<string, RedisValue>, after: map<string, RedisValue>, key: string) {
    (key in after <==> key in before) && (key in before ==> after[key] == before[key])
  }

  ghost predicate OnlyTouches(before: map<string, RedisValue>, after: map<string, RedisValue>, k: string, k': string) {
    forall key: string :: key != k && key != k' ==> SameAt(before, after, key)
  }

  lemma PutListAt(store: map<string, RedisValue>, key: string, items: seq<string>)
    ensures HoldsList(PutList(store, key, items), key) && ListAt(PutList(store, key, items), key) == items
    ensures OnlyTouches(store, PutList(store, key, items), key, key)
  {
  }

  lemma NumberedStaysClean(
      store: map<string, RedisValue>, after: map<string, RedisValue>, listKey: string, seqKey: string,
      size: nat, h: HashFn, tokens: seq<string>, r: AppendResult)
    requires tokens != [] && AllParse(tokens) && listKey != seqKey
    requires CleanAt(store, listKey, seqKey, size)
    requires Numbered(store, after, h, seqKey, tokens, r)
    ensures !r.Raised? && CleanAt(after, listKey, seqKey, size)
    ensures OnlyTouches(store, after, seqKey, seqKey)
  {
  }

  lemma OwnKeysStayClean(
      before: map<string, RedisValue>, after: map<string, RedisValue>, listKey: string, seqKey: string,
      size: nat, h: HashFn, record: string, r: AppendResult)
    requires size >= 1 && listKey != seqKey && ParseRecord(record).Some?
    requires CleanAt(before, listKey, seqKey, size)
    requires AppendedAt(before, after, listKey, seqKey, size, h, record, r)
    ensures !r.Raised? && CleanAt(after, listKey, seqKey, size)
    ensures OnlyTouches(before, after, listKey, seqKey)
  {
    var full := ListAt(before, listKey) + [record];
    assert AllParse(full);
    if |full| < size {
      PutListAt(before, listKey, full);
      assert SameAt(before, after, seqKey);
    } else {
      assert full[size..] == [] && full[..size] == full;
      PutListAt(before, listKey, []);
      assert SameAt(before, PutList(before, listKey, []), seqKey);
      NumberedStaysClean(PutList(before, listKey, []), after, listKey, seqKey, size, h, full, r);
      TouchesCompose(before, PutList(before, listKey, []), after, listKey, seqKey);
    }
  }

  lemma TouchesCompose(
      a: map<string, RedisValue>, b: map<string, RedisValue>, c: map<string, RedisValue>, k: string, k': string)
    requires OnlyTouches(a, b, k, k) && OnlyTouches(b, c, k', k')
    ensures OnlyTouches(a, c, k, k')
  {
    forall key: string | key != k && key != k' ensures SameAt(a, c, key) {
      assert SameAt(a, b, key) && SameAt(b, c, key);
    }
  }

  /**
    Appends keep the store clean, never raise, and touch no key but the tenant's own two: so no
    run of appends from an empty store reaches an error branch.
   */
  lemma AppendStaysClean(
      before: map<string, RedisValue>, after: map<string, RedisValue>,
      settings: Settings, h: HashFn, tid: string, f: Fingerprint, r: AppendResult)
    requires settings.batchSize >= 1 && TenantName(tid) && |f.sha| == DIGEST_LENGTH
    requires BasesNeverClash(settings.listBase, settings.seqBase)
    requires Clean(before, settings)
    requires Appended(before, after, settings, h, tid, f, r)
    ensures !r.Raised?
    ensures Clean(after, settings)
    ensures OnlyTouches(before, after, TenantKey(settings.listBase, tid), TenantKey(settings.seqBase, tid))
  {
    var listKey, seqKey := TenantKey(settings.listBase, tid), TenantKey(settings.seqBase, tid);
    ParseWritten(f);
    assert TenantClean(before, settings, tid) && listKey != seqKey;
    OwnKeysStayClean(before, after, listKey, seqKey, settings.batchSize, h, WriteRecord(f), r);
    forall t: string | TenantName(t) ensures TenantClean(after, settings, t) {
      assert TenantClean(before, settings, t);
      if t != tid { OtherTenantStaysClean(before, after, settings, tid, t); }
    }
  }

  lemma OtherTenantStaysClean(
      before: map<string, RedisValue>, after: map<string, RedisValue>, settings: Settings, tid: string, t: string)
    requires t != tid && BasesNeverClash(settings.listBase, settings.seqBase) && TenantName(t) && TenantName(tid)
    requires TenantClean(before, settings, t)
    requires OnlyTouches(before, after, TenantKey(settings.listBase, tid), TenantKey(settings.seqBase, tid))
    ensures TenantClean(after, settings, t)
  {
    TenantKeyInjective(settings.listBase, t, tid);
    TenantKeyInjective(settings.seqBase, t, tid);
    assert SameAt(before, after, TenantKey(settings.listBase, t));
    assert SameAt(before, after, TenantKey(settings.seqBase, t));
  }
}
