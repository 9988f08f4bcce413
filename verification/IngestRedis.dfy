/**
  The Redis keyspace carries the protocol's tenants: running the script and the INCR on one flat
  store of string keys is the same as running them on separate per-tenant lists and counters,
  as long as the two key bases cannot clash.
 */
module IngestRedis {
  import opened BatchRecord
  import opened BatchAnchor
  import opened IngestProtocol
  import opened IngestSafety

  type Store = map<string, RedisValue>

  predicate ShowsTenant(store: Store, settings: Settings, t: TenantId, te: Tenant) {
    var listKey, seqKey := TenantKey(settings.listBase, t), TenantKey(settings.seqBase, t);
    && HoldsList(store, listKey) && ListAt(store, listKey) == Records(te.list)
    && HoldsNumber(store, seqKey) && NumberAt(store, seqKey) == te.counter
  }

  ghost predicate Shows(store: Store, settings: Settings, s: State) {
    forall t: TenantId {:trigger ShowsTenant(store, settings, t, TenantOf(s, t))} ::
      ShowsTenant(store, settings, t, TenantOf(s, t))
  }

  /** The commands a worker's action sends to Redis. */
  function StoreStep(settings: Settings, s: State, store: Store, a: Action): Store {
    var pc := WorkerOf(s, a.w).pc;
    if a.Append? && a.size >= 1 && pc.Appending? then
      var key := TenantKey(settings.listBase, pc.m.tenant);
      if HoldsList(store, key)
      then PutList(store, key, LuaAppend(ListAt(store, key), WriteRecord(pc.m.fp), a.size).0) else store
    else if a.Incr? && pc.Numbering? then
      var key := TenantKey(settings.seqBase, pc.m.tenant);
      if HoldsNumber(store, key) then Counted(store, key) else store
    else store
  }

  function StoreRun(env: Env, settings: Settings, actions: seq<Action>): Store {
    if actions == [] then map[] else
      StoreStep(settings, Run(env, Init(actions)), StoreRun(env, settings, Init(actions)), Last(actions))
  }

  /** The script does not look inside the records. */
  lemma LuaOnRecords(list: seq<Entry>, e: Entry, size: nat)
    requires size >= 1
    ensures LuaAppend(Records(list), e.record, size).0 == Records(LuaAppend(list, e, size).0)
    ensures LuaAppend(Records(list), e.record, size).1.Batch? <==> LuaAppend(list, e, size).1.Batch?
    ensures LuaAppend(list, e, size).1.Batch? ==>
              LuaAppend(Records(list), e.record, size).1.elems == Records(LuaAppend(list, e, size).1.elems)
  {
    assert Records(list) + [e.record] == Records(list + [e]);
  }

  lemma KeysApart(settings: Settings, t: TenantId, u: TenantId)
    requires BasesNeverClash(settings.listBase, settings.seqBase)
    ensures TenantKey(settings.listBase, t) != TenantKey(settings.seqBase, u)
    ensures t != u ==> TenantKey(settings.listBase, t) != TenantKey(settings.listBase, u)
    ensures t != u ==> TenantKey(settings.seqBase, t) != TenantKey(settings.seqBase, u)
  {
    TenantKeyInjective(settings.listBase, t, u);
    TenantKeyInjective(settings.seqBase, t, u);
  }

  lemma ShowsAppend(settings: Settings, s: State, store: Store, w: nat, size: nat)
    requires BasesNeverClash(settings.listBase, settings.seqBase) && Shows(store, settings, s)
    requires size >= 1 && WorkerOf(s, w).pc.Appending?
    ensures Shows(StoreStep(settings, s, store, Append(w, size)), settings, AppendStep(s, w, size))
  {
    var s', store' := AppendStep(s, w, size), StoreStep(settings, s, store, Append(w, size));
    var Appending(p, m, row) := WorkerOf(s, w).pc;
    AppendEffect(s, w, size);
    forall t: TenantId ensures ShowsTenant(store', settings, t, TenantOf(s', t)) {
      assert ShowsTenant(store, settings, t, TenantOf(s, t));
      assert ShowsTenant(store, settings, m.tenant, TenantOf(s, m.tenant));
      LuaOnRecords(TenantOf(s, m.tenant).list, Entry(WriteRecord(m.fp), row), size);
      KeysApart(settings, m.tenant, t);
    }
  }

  lemma ShowsIncr(env: Env, settings: Settings, s: State, store: Store, w: nat)
    requires BasesNeverClash(settings.listBase, settings.seqBase) && Shows(store, settings, s)
    requires WorkerOf(s, w).pc.Numbering?
    ensures Shows(StoreStep(settings, s, store, Incr(w)), settings, IncrStep(env, s, w))
  {
    var s', store' := IncrStep(env, s, w), StoreStep(settings, s, store, Incr(w));
    var m := WorkerOf(s, w).pc.m;
    IncrEffect(env, s, w);
    forall t: TenantId ensures ShowsTenant(store', settings, t, TenantOf(s', t)) {
      assert ShowsTenant(store, settings, t, TenantOf(s, t));
      assert ShowsTenant(store, settings, m.tenant, TenantOf(s, m.tenant));
      KeysApart(settings, t, m.tenant);
    }
  }

  /** After every run the flat store shows exactly the protocol's pending lists and counters. */
  lemma {:induction false} StoreShowsRun(env: Env, settings: Settings, actions: seq<Action>)
    requires BasesNeverClash(settings.listBase, settings.seqBase)
    ensures Shows(StoreRun(env, settings, actions), settings, Run(env, actions))
  {
    if actions != [] {
      var s, store, a := Run(env, Init(actions)), StoreRun(env, settings, Init(actions)), Last(actions);
      StoreShowsRun(env, settings, Init(actions));
      var pc := WorkerOf(s, a.w).pc;
      if a.Append? && a.size >= 1 && pc.Appending? {
        ShowsAppend(settings, s, store, a.w, a.size);
      } else if a.Incr? && pc.Numbering? {
        ShowsIncr(env, settings, s, store, a.w);
      } else {
        assert Apply(env, s, a).tenants == s.tenants;
        forall t: TenantId ensures ShowsTenant(store, settings, t, TenantOf(Apply(env, s, a), t)) {
          assert ShowsTenant(store, settings, t, TenantOf(s, t));
        }
      }
    }
  }
}
