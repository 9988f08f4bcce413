/** Versioned calibration profiles: publish, activate, look up (services/calibration-service/main.py). */
module CalibrationRegistry {
  import opened Basics

  datatype RawBand = Band(min: real, max: real, adjustment: real)

  /** The request model admits only these. */
  type Band = b: RawBand | 0.0 <= b.min <= b.max <= 1.0 && -1.0 <= b.adjustment <= 1.0
    witness RawBand.Band(0.0, 1.0, 0.0)

  datatype Profile = Profile(tenant: string, id: string, version: nat, expected: nat, fallback: bool, bands: seq<Band>)

  function Key(tenant: string, id: string): string {
    tenant + ":" + id
  }

  /**
    Two pairs share a key exactly when one tenant id runs on, over a colon, into the other's profile id:
    never for tenants without a colon.
   */
  lemma KeysClashExactly(t: string, p: string, t': string, p': string)
    requires |t| <= |t'|
    ensures Key(t, p) == Key(t', p') <==>
              (t == t' && p == p') || exists x: string :: t' == t + ":" + x && p == x + ":" + p'
    ensures ':' !in t' && Key(t, p) == Key(t', p') ==> t == t' && p == p'
  {
    var k, k' := Key(t, p), Key(t', p');
    if k == k' {
      assert t == k[..|t|] == t'[..|t|] && p == k[|t| + 1..];
      if |t| < |t'| {
        var x := t'[|t| + 1..];
        assert k[|t|] == ':' == t'[|t|];
        assert t' == t + ":" + x;
        assert p == x + ":" + p';
      } else {
        assert p' == k'[|t'| + 1..];
      }
    }
    if x: string :| t' == t + ":" + x && p == x + ":" + p' {
      assert k == t + ":" + x + ":" + p' == k';
    }
  }

  // --- Buckets ---

  type Bucket = seq<Profile>

  predicate ByVersion(b: Bucket) {
    forall i, j :: 0 <= i < j < |b| ==> b[i].version < b[j].version
  }

  function Without(b: Bucket, version: nat): Bucket {
    if b == [] then []
    else if b[0].version == version then Without(b[1..], version)
    else [b[0]] + Without(b[1..], version)
  }

  /** `list.sort` is stable: an element goes after those with the same version. */
  function Insert(b: Bucket, p: Profile): Bucket {
    if b == [] || b[|b| - 1].version <= p.version then b + [p]
    else Insert(b[..|b| - 1], p) + [b[|b| - 1]]
  }

  function StableSort(b: Bucket): Bucket {
    if b == [] then [] else Insert(StableSort(b[..|b| - 1]), b[|b| - 1])
  }

  /** The first profile of the version, as the lookup loop finds it. */
  function Find(b: Bucket, version: nat): Option<Profile> {
    if b == [] then None else if b[0].version == version then Some(b[0]) else Find(b[1..], version)
  }

  lemma {:induction false} FindIsMember(b: Bucket, v: nat, p: Profile)
    requires ByVersion(b)
    ensures Find(b, v) == Some(p) <==> p in b && p.version == v
    ensures Find(b, v) == None <==> forall q :: q in b ==> q.version != v
  {
    if b != [] {
      FindIsMember(b[1..], v, p);
      assert forall q :: q in b <==> q == b[0] || q in b[1..];
    }
  }

  lemma {:induction false} WithoutMembers(b: Bucket, v: nat)
    ensures forall p :: p in Without(b, v) <==> p in b && p.version != v
  {
    if b != [] {
      WithoutMembers(b[1..], v);
      assert forall p :: p in b <==> p == b[0] || p in b[1..];
      assert forall p :: p in [b[0]] + Without(b[1..], v) <==> p == b[0] || p in Without(b[1..], v);
    }
  }

  lemma {:induction false} WithoutOrdered(b: Bucket, v: nat)
    requires ByVersion(b)
    ensures ByVersion(Without(b, v))
  {
    if b != [] {
      WithoutOrdered(b[1..], v);
      WithoutMembers(b[1..], v);
      var rest := Without(b[1..], v);
      forall i | 0 <= i < |rest| ensures b[0].version < rest[i].version {
        assert rest[i] in b[1..];
      }
    }
  }

  lemma {:induction false} InsertMembers(b: Bucket, p: Profile)
    requires ByVersion(b) && forall q :: q in b ==> q.version != p.version
    ensures ByVersion(Insert(b, p))
    ensures forall q :: q in Insert(b, p) <==> q in b || q == p
  {
    if b != [] && b[|b| - 1].version > p.version {
      var init, last := b[..|b| - 1], b[|b| - 1];
      InsertMembers(init, p);
      assert forall q :: q in b <==> q in init || q == last;
      forall i | 0 <= i < |Insert(init, p)| ensures Insert(init, p)[i].version < last.version {
        assert Insert(init, p)[i] in init || Insert(init, p)[i] == p;
      }
    } else if b != [] {
      assert b[|b| - 1] in b;
    }
  }

  lemma InsertLast(b: Bucket, p: Profile)
    requires b == [] || b[|b| - 1].version < p.version
    ensures Insert(b, p) == b + [p]
  {
  }

  lemma ByVersionInit(b: Bucket)
    requires ByVersion(b) && b != []
    ensures ByVersion(b[..|b| - 1])
    ensures |b| > 1 ==> b[..|b| - 1][|b| - 2].version < b[|b| - 1].version
  {
  }

  lemma {:induction false} SortedIsFixed(b: Bucket)
    requires ByVersion(b)
    ensures StableSort(b) == b
  {
    if b != [] {
      var init, last := b[..|b| - 1], b[|b| - 1];
      ByVersionInit(b);
      SortedIsFixed(init);
      InsertLast(init, last);
      assert b == init + [last];
    }
  }

  function Republished(b: Bucket, p: Profile): Bucket {
    StableSort(Without(b, p.version) + [p])
  }

  /** Publishing replaces exactly the profile of that version and keeps the bucket in order. */
  lemma RepublishedFinds(b: Bucket, p: Profile, v: nat)
    requires ByVersion(b)
    ensures ByVersion(Republished(b, p))
    ensures Find(Republished(b, p), v) == if v == p.version then Some(p) else Find(b, v)
  {
    var kept, b' := Without(b, p.version), Republished(b, p);
    WithoutMembers(b, p.version);
    WithoutOrdered(b, p.version);
    SortedIsFixed(kept);
    InsertMembers(kept, p);
    assert (kept + [p])[..|kept|] == kept;
    assert b' == Insert(kept, p);
    forall q: Profile ensures Find(b', v) == Some(q) <==> q in b' && q.version == v { FindIsMember(b', v, q); }
    forall q: Profile ensures Find(b, v) == Some(q) <==> q in b && q.version == v { FindIsMember(b, v, q); }
    if Find(b, v).Some? { FindIsMember(b, v, Find(b, v).value); }
    if Find(b', v).Some? { FindIsMember(b', v, Find(b', v).value); }
  }

  // --- The store ---

  datatype Store = Store(profiles: map<string, Bucket>, active: map<string, nat>)

  const Empty := Store(map[], map[])

  function BucketAt(s: Store, key: string): Bucket {
    if key in s.profiles then s.profiles[key] else []
  }

  datatype Request =
    | Publish(p: Profile)
    | Activate(tenant: string, id: string, version: int)

  function KeyOf(r: Request): string {
    match r
    case Publish(p) => Key(p.tenant, p.id)
    case Activate(t, id, _) => Key(t, id)
  }

  function Step(s: Store, r: Request): Store {
    var key := KeyOf(r);
    match r
    case Publish(p) =>
      Store(s.profiles[key := Republished(BucketAt(s, key), p)],
            if key in s.active then s.active else s.active[key := p.version])
    case Activate(_, _, version) =>
      if version <= 0 || Find(BucketAt(s, key), version).None? then s
      else s.(active := s.active[key := version])
  }

  function Run(rs: seq<Request>): Store {
    if rs == [] then Empty else Step(Run(rs[..|rs| - 1]), rs[|rs| - 1])
  }

  datatype Lookup = Found(p: Profile) | NotFound | ActiveVersionMissing

  function ActiveProfileFor(s: Store, tenant: string, id: string): Lookup {
    var key := Key(tenant, id);
    var bucket := BucketAt(s, key);
    if key !in s.active then
      if bucket != [] then Found(bucket[|bucket| - 1]) else NotFound
    else match Find(bucket, s.active[key])
      case Some(p) => Found(p)
      case None => ActiveVersionMissing
  }

  // --- What the requests mean, read off the history ---

  /** The last profile published under the key with the version. */
  function LastPublished(rs: seq<Request>, key: string, version: nat): Option<Profile> {
    if rs == [] then None else
      var r := rs[|rs| - 1];
      if r.Publish? && KeyOf(r) == key && r.p.version == version then Some(r.p)
      else LastPublished(rs[..|rs| - 1], key, version)
  }

  /** The last version activated after it had been published; before that, the first version published. */
  function ActiveVersion(rs: seq<Request>, key: string): Option<nat> {
    if rs == [] then None else
      var r, before := rs[|rs| - 1], rs[..|rs| - 1];
      var was := ActiveVersion(before, key);
      if KeyOf(r) != key then was
      else if r.Publish? then (if was.Some? then was else Some(r.p.version))
      else if r.version > 0 && LastPublished(before, key, r.version).Some? then Some(r.version)
      else was
  }

  ghost predicate Refines(s: Store, rs: seq<Request>, key: string) {
    && ByVersion(BucketAt(s, key))
    && (forall v: nat :: Find(BucketAt(s, key), v) == LastPublished(rs, key, v))
    && (if key in s.active then ActiveVersion(rs, key) == Some(s.active[key]) else ActiveVersion(rs, key) == None)
    && (key in s.active ==> LastPublished(rs, key, s.active[key]).Some?)
    && (key !in s.active ==> BucketAt(s, key) == [])
  }

  /**
    Every run: buckets strictly ordered by version, and the store is the map from key and version to the last
    publication.
   */
  lemma {:induction false} StoreRefinesHistory(rs: seq<Request>, key: string)
    ensures Refines(Run(rs), rs, key)
  {
    if rs != [] {
      var before, r := rs[..|rs| - 1], rs[|rs| - 1];
      StoreRefinesHistory(before, key);
      StepRefines(Run(before), before, r, key);
      assert before + [r] == rs;
      assert Run(rs) == Step(Run(before), r);
    }
  }

  lemma StepRefines(s: Store, before: seq<Request>, r: Request, key: string)
    requires Refines(s, before, key)
    ensures Refines(Step(s, r), before + [r], key)
  {
    if KeyOf(r) != key {
      OtherKeyRefines(s, before, r, key);
    } else if r.Publish? {
      PublishOwnKey(before, r.p, key, s);
    } else {
      ActivateOwnKey(s, before, r, key);
    }
  }

  lemma OtherKeyRefines(s: Store, before: seq<Request>, r: Request, key: string)
    requires Refines(s, before, key) && KeyOf(r) != key
    ensures Refines(Step(s, r), before + [r], key)
  {
    var rs := before + [r];
    assert rs[..|rs| - 1] == before && rs[|rs| - 1] == r;
    assert forall v: nat :: LastPublished(rs, key, v) == LastPublished(before, key, v);
  }

  lemma ActivateOwnKey(s: Store, before: seq<Request>, r: Request, key: string)
    requires Refines(s, before, key) && KeyOf(r) == key && r.Activate?
    ensures Refines(Step(s, r), before + [r], key)
  {
    var rs := before + [r];
    assert rs[..|rs| - 1] == before && rs[|rs| - 1] == r;
    assert forall v: nat :: LastPublished(rs, key, v) == LastPublished(before, key, v);
    if r.version > 0 {
      assert Find(BucketAt(s, key), r.version) == LastPublished(before, key, r.version);
    }
  }

  lemma PublishOwnKey(before: seq<Request>, p: Profile, key: string, s: Store)
    requires Refines(s, before, key) && KeyOf(Publish(p)) == key
    ensures Refines(Step(s, Publish(p)), before + [Publish(p)], key)
  {
    var rs, b, s' := before + [Publish(p)], BucketAt(s, key), Step(s, Publish(p));
    assert rs[..|rs| - 1] == before && rs[|rs| - 1] == Publish(p);
    forall v: nat ensures Find(BucketAt(s', key), v) == LastPublished(rs, key, v) {
      RepublishedFinds(b, p, v);
      assert LastPublished(rs, key, v) == if v == p.version then Some(p) else LastPublished(before, key, v);
    }
    RepublishedFinds(b, p, p.version);
  }

  /**
    A lookup returns the last publication of the active version; it fails exactly when nothing was
    ever published under the key, and never because the active version is missing.
   */
  lemma LookupRefinesHistory(rs: seq<Request>, tenant: string, id: string)
    ensures var key, r := Key(tenant, id), ActiveProfileFor(Run(rs), tenant, id);
            && !r.ActiveVersionMissing?
            && (r.NotFound? <==> ActiveVersion(rs, key).None?)
            && (r.NotFound? <==> forall v: nat :: LastPublished(rs, key, v).None?)
            && (r.Found? ==> LastPublished(rs, key, ActiveVersion(rs, key).value) == Some(r.p))
  {
    var key := Key(tenant, id);
    StoreRefinesHistory(rs, key);
    if key !in Run(rs).active {
      forall v: nat ensures LastPublished(rs, key, v).None? {
        assert Find(BucketAt(Run(rs), key), v) == LastPublished(rs, key, v);
      }
    } else {
      assert LastPublished(rs, key, Run(rs).active[key]).Some?;
    }
  }

  // --- The same history, read by position ---

  predicate PublishesAt(rs: seq<Request>, key: string, i: nat) {
    i < |rs| && rs[i].Publish? && Key(rs[i].p.tenant, rs[i].p.id) == key
  }

  ghost predicate LastOfVersion(rs: seq<Request>, key: string, version: nat, i: nat) {
    && PublishesAt(rs, key, i) && rs[i].p.version == version
    && forall j: nat :: i < j && PublishesAt(rs, key, j) ==> rs[j].p.version != version
  }

  /** An activation takes effect when its version is positive and was published before. */
  ghost predicate ActivatesAt(rs: seq<Request>, key: string, i: nat) {
    && i < |rs| && rs[i].Activate? && Key(rs[i].tenant, rs[i].id) == key && rs[i].version > 0
    && exists j: nat :: j < i && PublishesAt(rs, key, j) && rs[j].p.version == rs[i].version
  }

  lemma PrefixPositions(rs: seq<Request>, key: string, i: nat)
    requires rs != [] && i < |rs| - 1
    ensures PublishesAt(rs, key, i) <==> PublishesAt(rs[..|rs| - 1], key, i)
    ensures ActivatesAt(rs, key, i) <==> ActivatesAt(rs[..|rs| - 1], key, i)
  {
    var before := rs[..|rs| - 1];
    assert forall j :: 0 <= j <= i ==> before[j] == rs[j];
    assert forall j: nat :: j <= i ==> PublishesAt(before, key, j) == PublishesAt(rs, key, j);
  }

  /** The last publication of a version is the one at the last position at which it is published. */
  lemma {:induction false} LastPublishedExactly(rs: seq<Request>, key: string, version: nat)
    ensures match LastPublished(rs, key, version)
            case Some(p) => exists i: nat :: LastOfVersion(rs, key, version, i) && rs[i].p == p
            case None => forall i: nat :: PublishesAt(rs, key, i) ==> rs[i].p.version != version
  {
    if rs != [] {
      var before, n := rs[..|rs| - 1], |rs| - 1;
      LastPublishedExactly(before, key, version);
      forall i: nat | i < n
        ensures PublishesAt(rs, key, i) <==> PublishesAt(before, key, i)
        ensures before[i] == rs[i]
      {
        PrefixPositions(rs, key, i);
      }
      if PublishesAt(rs, key, n) && rs[n].p.version == version {
        assert LastOfVersion(rs, key, version, n);
      } else if LastPublished(before, key, version).Some? {
        var p := LastPublished(before, key, version).value;
        var i: nat :| LastOfVersion(before, key, version, i) && before[i].p == p;
        assert LastOfVersion(rs, key, version, i);
      }
    }
  }

  ghost predicate LastActivation(rs: seq<Request>, key: string, i: nat) {
    ActivatesAt(rs, key, i) && forall j: nat :: i < j ==> !ActivatesAt(rs, key, j)
  }

  ghost predicate NeverActivated(rs: seq<Request>, key: string) {
    forall i: nat :: !ActivatesAt(rs, key, i)
  }

  ghost predicate FirstPublication(rs: seq<Request>, key: string, i: nat) {
    PublishesAt(rs, key, i) && forall j: nat :: j < i ==> !PublishesAt(rs, key, j)
  }

  ghost predicate Unpublished(rs: seq<Request>, key: string) {
    forall i: nat :: !PublishesAt(rs, key, i)
  }

  /** The version of the last activation that took effect; without one, of the first publication. */
  ghost predicate IsActive(rs: seq<Request>, key: string, version: nat) {
    || (exists i: nat :: LastActivation(rs, key, i) && rs[i].version == version)
    || (NeverActivated(rs, key) && exists i: nat :: FirstPublication(rs, key, i) && rs[i].p.version == version)
  }

  ghost predicate ActiveAs(rs: seq<Request>, key: string, v: Option<nat>) {
    if v.Some? then IsActive(rs, key, v.value) else Unpublished(rs, key)
  }

  lemma NobodyActivates(rs: seq<Request>, key: string)
    requires Unpublished(rs, key)
    ensures NeverActivated(rs, key)
  {
  }

  /** A request that neither publishes nor activates under the key. */
  lemma StaysActive(rs: seq<Request>, key: string, v: Option<nat>)
    requires rs != [] && ActiveAs(rs[..|rs| - 1], key, v)
    requires !PublishesAt(rs, key, |rs| - 1) && !ActivatesAt(rs, key, |rs| - 1)
    ensures ActiveAs(rs, key, v)
  {
    var before := rs[..|rs| - 1];
    forall i: nat | i < |before|
      ensures PublishesAt(rs, key, i) <==> PublishesAt(before, key, i)
      ensures ActivatesAt(rs, key, i) <==> ActivatesAt(before, key, i)
    {
      PrefixPositions(rs, key, i);
    }
    if v.Some? {
      if i: nat :| LastActivation(before, key, i) && before[i].version == v.value {
        assert LastActivation(rs, key, i) && rs[i].version == v.value;
      } else {
        var i: nat :| FirstPublication(before, key, i) && before[i].p.version == v.value;
        assert FirstPublication(rs, key, i) && rs[i].p.version == v.value;
        assert NeverActivated(before, key);
      }
    }
  }

  /** A publication leaves the active version alone, unless it is the first under the key. */
  lemma PublishActive(rs: seq<Request>, key: string, v: Option<nat>)
    requires rs != [] && ActiveAs(rs[..|rs| - 1], key, v) && PublishesAt(rs, key, |rs| - 1)
    ensures ActiveAs(rs, key, if v.Some? then v else Some(rs[|rs| - 1].p.version))
  {
    var before := rs[..|rs| - 1];
    forall i: nat | i < |before|
      ensures PublishesAt(rs, key, i) <==> PublishesAt(before, key, i)
      ensures ActivatesAt(rs, key, i) <==> ActivatesAt(before, key, i)
    {
      PrefixPositions(rs, key, i);
    }
    if v.None? {
      NobodyActivates(before, key);
      assert NeverActivated(rs, key) && FirstPublication(rs, key, |rs| - 1);
    } else if i: nat :| LastActivation(before, key, i) && before[i].version == v.value {
      assert LastActivation(rs, key, i) && rs[i].version == v.value;
    } else {
      var i: nat :| FirstPublication(before, key, i) && before[i].p.version == v.value;
      assert FirstPublication(rs, key, i) && rs[i].p.version == v.value;
      assert NeverActivated(before, key);
    }
  }

  /** The active version, as the store keeps it, is the active version by position. */
  lemma {:induction false} ActiveVersionExactly(rs: seq<Request>, key: string)
    ensures match ActiveVersion(rs, key)
            case Some(v) => IsActive(rs, key, v)
            case None => Unpublished(rs, key)
  {
    if rs != [] {
      var before, n := rs[..|rs| - 1], |rs| - 1;
      ActiveVersionExactly(before, key);
      if PublishesAt(rs, key, n) {
        PublishActive(rs, key, ActiveVersion(before, key));
      } else {
        EffectiveExactly(rs, key);
        if ActivatesAt(rs, key, n) {
          assert LastActivation(rs, key, n);
        } else {
          StaysActive(rs, key, ActiveVersion(before, key));
        }
      }
    }
  }

  /** What the service checks before it activates a version. */
  lemma EffectiveExactly(rs: seq<Request>, key: string)
    requires rs != []
    ensures var before, r := rs[..|rs| - 1], rs[|rs| - 1];
            ActivatesAt(rs, key, |rs| - 1) <==>
              r.Activate? && KeyOf(r) == key && r.version > 0 && LastPublished(before, key, r.version).Some?
  {
    var before, n := rs[..|rs| - 1], |rs| - 1;
    forall j: nat | j < n ensures PublishesAt(rs, key, j) <==> PublishesAt(before, key, j) {
      PrefixPositions(rs, key, j);
    }
    if rs[n].Activate? && rs[n].version > 0 { LastPublishedExactly(before, key, rs[n].version); }
  }

  /**
    After any requests a lookup answers with the last publication of the active version, both read off the
    positions of the requests, and fails exactly when nothing was ever published under the key.
   */
  lemma LookupByPosition(rs: seq<Request>, tenant: string, id: string)
    ensures var key := Key(tenant, id);
            match ActiveProfileFor(Run(rs), tenant, id)
            case Found(p) =>
              IsActive(rs, key, p.version) && exists i: nat :: LastOfVersion(rs, key, p.version, i) && rs[i].p == p
            case NotFound => Unpublished(rs, key)
            case ActiveVersionMissing => false
  {
    var key := Key(tenant, id);
    LookupRefinesHistory(rs, tenant, id);
    ActiveVersionExactly(rs, key);
    if ActiveVersion(rs, key).Some? { LastPublishedExactly(rs, key, ActiveVersion(rs, key).value); }
  }

  // --- The service's dictionary, updated in place ---

  lemma {:induction false} FindFirst(b: Bucket, version: nat) returns (i: nat)
    ensures match Find(b, version)
            case Some(p) => i < |b| && b[i] == p && p.version == version
            case None => forall q :: q in b ==> q.version != version
  {
    i := 0;
    if b != [] && b[0].version != version {
      var j := FindFirst(b[1..], version);
      i := j + 1;
      assert forall q :: q in b <==> q == b[0] || q in b[1..];
    }
  }

  /** What a lookup may answer, for any contents of the two dictionaries. */
  ghost predicate Answers(s: Store, key: string, r: Lookup) {
    var b := if key in s.profiles then s.profiles[key] else [];
    match r
    case Found(p) => if key in s.active then p in b && p.version == s.active[key] else b != [] && p == b[|b| - 1]
    case NotFound => key !in s.active && b == []
    case ActiveVersionMissing => key in s.active && forall q :: q in b ==> q.version != s.active[key]
  }

  class Registry {
    var profiles: map<string, Bucket>
    var active: map<string, nat>

    ghost function Now(): Store
      reads this
    {
      Store(profiles, active)
    }

    constructor ()
      ensures Now() == Empty
    {
      profiles, active := map[], map[];
    }

    method PublishProfile(p: Profile)
      modifies this
      ensures Now() == Step(old(Now()), Publish(p))
    {
      var key := Key(p.tenant, p.id);
      var old' := if key in profiles then profiles[key] else [];
      var bucket := WithoutLoop(old', p.version);
      bucket := StableSort(bucket + [p]);
      profiles := profiles[key := bucket];
      if key !in active {
        active := active[key := p.version];
      }
    }

    method ActivateProfile(tenant: string, id: string, version: int) returns (status: nat)
      modifies this
      ensures Now() == Step(old(Now()), Activate(tenant, id, version))
      ensures status == 422 <==> version <= 0
      ensures status == 200 <==> version > 0 && Find(BucketAt(old(Now()), Key(tenant, id)), version).Some?
      ensures status in {200, 404, 422}
    {
      if version <= 0 {
        return 422;
      }
      var key := Key(tenant, id);
      var bucket := if key in profiles then profiles[key] else [];
      var p := FindLoop(bucket, version);
      if p.None? {
        return 404;
      }
      active := active[key := version];
      status := 200;
    }

    method GetProfile(tenant: string, id: string) returns (r: Lookup)
      ensures r == ActiveProfileFor(Now(), tenant, id)
      ensures Answers(Now(), Key(tenant, id), r)
    {
      var key := Key(tenant, id);
      ghost var at := FindFirst(BucketAt(Now(), key), if key in active then active[key] else 0);
      var bucket := if key in profiles then profiles[key] else [];
      if key !in active {
        if bucket != [] {
          return Found(bucket[|bucket| - 1]);
        }
        return NotFound;
      }
      var p := FindLoop(bucket, active[key]);
      r := if p.Some? then Found(p.value) else ActiveVersionMissing;
    }
  }

  method WithoutLoop(b: Bucket, version: nat) returns (kept: Bucket)
    ensures kept == Without(b, version)
  {
    kept := [];
    for i := 0 to |b|
      invariant kept + Without(b[i..], version) == Without(b, version)
    {
      assert b[i..][1..] == b[i + 1..];
      if b[i].version != version {
        kept := kept + [b[i]];
      }
    }
    assert b[|b|..] == [];
  }

  method FindLoop(b: Bucket, version: nat) returns (r: Option<Profile>)
    ensures r == Find(b, version)
  {
    for i := 0 to |b|
      invariant Find(b[i..], version) == Find(b, version)
    {
      if b[i].version == version {
        return Some(b[i]);
      }
      assert b[i..][1..] == b[i + 1..];
    }
    r := None;
  }
}
