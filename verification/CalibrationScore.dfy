/** The snapshot log and the calibrated score (services/calibration-service/main.py), over reals. */
module CalibrationScore {
  import opened Basics
  import opened CalibrationRegistry

  /** Snapshots are validated on the way in. */
  type Mean = r: real | 0.0 <= r <= 1.0

  datatype Line = Blank | Unparsable | Row(tenant: string, id: string, mean: Option<Mean>)

  function LatestRow(log: seq<Line>, tenant: string, id: string): (r: Option<Line>)
    ensures r.Some? ==> r.value.Row?
  {
    if log == [] then None else
      var last := log[|log| - 1];
      if last.Row? && last.tenant == tenant && last.id == id then Some(last)
      else LatestRow(log[..|log| - 1], tenant, id)
  }

  function Abs(x: real): real {
    if x < 0.0 then -x else x
  }

  function DriftScore(log: seq<Line>, tenant: string, id: string): (r: Option<real>)
    ensures r.Some? ==> 0.0 <= r.value <= 0.5
  {
    match LatestRow(log, tenant, id)
    case Some(Row(_, _, Some(m))) => Some(Abs(m - 0.5))
    case _ => None
  }

  /** The log is read once, from its end, up to the first matching row. */
  method DriftHint(log: seq<Line>, tenant: string, id: string) returns (score: Option<real>)
    ensures score == DriftScore(log, tenant, id)
  {
    var latest: Option<Line> := None;
    var n: nat := |log|;
    assert log[..n] == log;
    while n > 0
      invariant 0 <= n <= |log| && latest == None
      invariant LatestRow(log, tenant, id) == LatestRow(log[..n], tenant, id)
    {
      var line := log[n - 1];
      assert log[..n][..n - 1] == log[..n - 1];
      n := n - 1;
      if line.Row? && line.tenant == tenant && line.id == id {
        latest := Some(line);
        assert LatestRow(log, tenant, id) == latest;
        break;
      }
    }
    if latest.None? || latest.value.mean.None? {
      return None;
    }
    score := Some(Abs(latest.value.mean.value - 0.5));
  }

  function BandAdjustment(confidence: real, bands: seq<Band>): (r: real)
    ensures -1.0 <= r <= 1.0
  {
    if bands == [] then 0.0
    else if bands[0].min <= confidence <= bands[0].max then bands[0].adjustment
    else BandAdjustment(confidence, bands[1..])
  }

  /** The first band that holds the confidence. */
  ghost predicate FirstBand(confidence: real, bands: seq<Band>, i: nat) {
    && i < |bands| && bands[i].min <= confidence <= bands[i].max
    && forall j :: 0 <= j < i ==> !(bands[j].min <= confidence <= bands[j].max)
  }

  /** The adjustment of the first band that holds the confidence, and none when no band does. */
  ghost predicate IsAdjustment(confidence: real, bands: seq<Band>, r: real) {
    || (exists i: nat :: FirstBand(confidence, bands, i) && r == bands[i].adjustment)
    || (r == 0.0 && forall i :: 0 <= i < |bands| ==> !(bands[i].min <= confidence <= bands[i].max))
  }

  /** The bands are tried in order. */
  method ResolveBandAdjustment(confidence: real, bands: seq<Band>) returns (r: real)
    ensures IsAdjustment(confidence, bands, r)
    ensures r == BandAdjustment(confidence, bands)
  {
    for i := 0 to |bands|
      invariant forall j :: 0 <= j < i ==> !(bands[j].min <= confidence <= bands[j].max)
      invariant BandAdjustment(confidence, bands) == BandAdjustment(confidence, bands[i..])
    {
      assert bands[i..][1..] == bands[i + 1..];
      if bands[i].min <= confidence <= bands[i].max {
        assert FirstBand(confidence, bands, i);
        return bands[i].adjustment;
      }
    }
    r := 0.0;
  }

  lemma {:induction false} BandExactly(confidence: real, bands: seq<Band>)
    ensures IsAdjustment(confidence, bands, BandAdjustment(confidence, bands))
  {
    if bands != [] {
      if bands[0].min <= confidence <= bands[0].max {
        assert FirstBand(confidence, bands, 0);
      } else {
        BandExactly(confidence, bands[1..]);
        if i: nat :| FirstBand(confidence, bands[1..], i)
                     && BandAdjustment(confidence, bands[1..]) == bands[1..][i].adjustment {
          assert forall j :: 1 <= j <= i + 1 ==> bands[j] == bands[1..][j - 1];
          assert FirstBand(confidence, bands, i + 1);
        }
      }
    }
  }

  function Clamp01(v: real): real {
    var low := if v < 1.0 then v else 1.0;
    if low > 0.0 then low else 0.0
  }

  /** A missing or unreadable count is zero. */
  function VelocityPenalty(events: Option<real>): real {
    var ev1h := if events.Some? then events.value else 0.0;
    if ev1h >= 25.0 then -0.05 else if ev1h >= 10.0 then -0.02 else 0.0
  }

  function DriftPenalty(drift: Option<real>): real {
    match drift
    case None => 0.0
    case Some(d) => -(if 0.15 < d * 0.25 then 0.15 else d * 0.25)
  }

  datatype Service = Service(store: Store, log: seq<Line>)

  const DefaultBands: seq<Band> := [RawBand.Band(0.0, 1.0, 0.0)]

  function BandsFor(s: Service, tenant: string, id: string): seq<Band> {
    match ActiveProfileFor(s.store, tenant, id)
    case Found(p) => p.bands
    case NotFound => DefaultBands
    case ActiveVersionMissing => DefaultBands
  }

  function Delta(s: Service, tenant: string, id: string, baseline: real, events: Option<real>): real {
    BandAdjustment(baseline, BandsFor(s, tenant, id))
    + VelocityPenalty(events)
    + DriftPenalty(DriftScore(s.log, tenant, id))
  }

  function Score(s: Service, tenant: string, id: string, baseline: real, events: Option<real>): real {
    Clamp01(baseline + Delta(s, tenant, id, baseline, events))
  }

  // --- What a score is, term by term ---

  predicate IsRowOf(line: Line, tenant: string, id: string) {
    line.Row? && line.tenant == tenant && line.id == id
  }

  ghost predicate LatestOf(log: seq<Line>, tenant: string, id: string, i: nat) {
    i < |log| && IsRowOf(log[i], tenant, id) && forall j :: i < j < |log| ==> !IsRowOf(log[j], tenant, id)
  }

  /** None below ten events in the hour, 0.02 from ten on, 0.05 from twenty-five on. */
  predicate IsVelocityPenalty(events: real, r: real) {
    && (events < 10.0 ==> r == 0.0)
    && (10.0 <= events < 25.0 ==> r == -0.02)
    && (25.0 <= events ==> r == -0.05)
  }

  /** A quarter of how far the latest snapshot's mean lies from one half; none without a snapshot or a mean. */
  ghost predicate IsDriftPenalty(log: seq<Line>, tenant: string, id: string, r: real) {
    || (r == 0.0 && forall i :: 0 <= i < |log| ==> !IsRowOf(log[i], tenant, id))
    || exists i: nat ::
         && LatestOf(log, tenant, id, i)
         && match log[i].mean
            case None => r == 0.0
            case Some(m) => if m >= 0.5 then r == (0.5 - m) / 4.0 else r == (m - 0.5) / 4.0
  }

  lemma {:induction false} LatestRowExactly(log: seq<Line>, tenant: string, id: string)
    ensures match LatestRow(log, tenant, id)
            case Some(row) => exists i: nat :: LatestOf(log, tenant, id, i) && log[i] == row
            case None => forall i :: 0 <= i < |log| ==> !IsRowOf(log[i], tenant, id)
  {
    if log != [] {
      var before, n := log[..|log| - 1], |log| - 1;
      if IsRowOf(log[n], tenant, id) {
        assert LatestOf(log, tenant, id, n);
      } else {
        LatestRowExactly(before, tenant, id);
        if LatestRow(before, tenant, id).Some? {
          var i: nat :| LatestOf(before, tenant, id, i) && before[i] == LatestRow(before, tenant, id).value;
          assert LatestOf(log, tenant, id, i);
        } else {
          forall i | 0 <= i < |log| ensures !IsRowOf(log[i], tenant, id) {
            assert i < n ==> log[i] == before[i];
          }
        }
      }
    }
  }

  lemma DriftPenaltyExactly(log: seq<Line>, tenant: string, id: string)
    ensures IsDriftPenalty(log, tenant, id, DriftPenalty(DriftScore(log, tenant, id)))
  {
    LatestRowExactly(log, tenant, id);
    CapNeverBinds(log, tenant, id);
  }

  /** The sum of the terms, cut off below at zero and above at one. */
  predicate IsSum(score: real, baseline: real, band: real, velocity: real, drift: real) {
    var sum := baseline + band + velocity + drift;
    score == if sum < 0.0 then 0.0 else if sum > 1.0 then 1.0 else sum
  }

  /** The terms that a score is made of, for a profile with these bands. */
  ghost predicate IsScore(
      score: real, baseline: real, bands: seq<Band>, events: Option<real>, log: seq<Line>, tenant: string, id: string)
  {
    exists band: real, velocity: real, drift: real ::
      && IsAdjustment(baseline, bands, band)
      && IsVelocityPenalty(if events.Some? then events.value else 0.0, velocity)
      && IsDriftPenalty(log, tenant, id, drift)
      && IsSum(score, baseline, band, velocity, drift)
  }

  lemma ScoreTerms(s: Service, tenant: string, id: string, baseline: real, events: Option<real>)
    ensures IsScore(Score(s, tenant, id, baseline, events), baseline, BandsFor(s, tenant, id), events, s.log,
                    tenant, id)
  {
    var band, velocity := BandAdjustment(baseline, BandsFor(s, tenant, id)), VelocityPenalty(events);
    var drift := DriftPenalty(DriftScore(s.log, tenant, id));
    BandExactly(baseline, BandsFor(s, tenant, id));
    DriftPenaltyExactly(s.log, tenant, id);
    assert IsVelocityPenalty(if events.Some? then events.value else 0.0, velocity);
    assert IsSum(Score(s, tenant, id, baseline, events), baseline, band, velocity, drift);
  }

  // --- Bounds and monotonicity ---

  /** The score is a probability, no further from the baseline than the delta, and on the delta's side of it. */
  lemma ScoreBounded(s: Service, tenant: string, id: string, baseline: real, events: Option<real>)
    requires 0.0 <= baseline <= 1.0
    ensures var score, delta := Score(s, tenant, id, baseline, events), Delta(s, tenant, id, baseline, events);
            && 0.0 <= score <= 1.0
            && Abs(score - baseline) <= Abs(delta)
            && (delta >= 0.0 ==> score >= baseline)
            && (delta <= 0.0 ==> score <= baseline)
            && -1.175 <= delta <= 1.0
  {
    CapNeverBinds(s.log, tenant, id);
  }

  /** A mean lies within [0, 1], so the drift penalty never reaches its cap of 0.15. */
  lemma CapNeverBinds(log: seq<Line>, tenant: string, id: string)
    ensures var d := DriftScore(log, tenant, id);
            && -0.125 <= DriftPenalty(d) <= 0.0
            && (d.Some? ==> DriftPenalty(d) == -(d.value * 0.25))
  {
  }

  function OrZero(x: Option<real>): real {
    if x.Some? then x.value else 0.0
  }

  /** More events in the hour, or more drift, never raise the score. */
  lemma ScoreMonotone(s: Service, s': Service, tenant: string, id: string, baseline: real, events: Option<real>,
      events': Option<real>)
    requires s'.store == s.store
    requires OrZero(events) <= OrZero(events')
    requires OrZero(DriftScore(s.log, tenant, id)) <= OrZero(DriftScore(s'.log, tenant, id))
    ensures Score(s', tenant, id, baseline, events') <= Score(s, tenant, id, baseline, events)
  {
    CapNeverBinds(s.log, tenant, id);
    CapNeverBinds(s'.log, tenant, id);
  }

  // --- Whose traffic a score depends on ---

  datatype Traffic = Registry(r: Request) | Snapshot(row: Line)

  predicate Concerns(t: Traffic, tenant: string, id: string) {
    match t
    case Registry(Publish(p)) => p.tenant == tenant && p.id == id
    case Registry(Activate(te, i, _)) => te == tenant && i == id
    case Snapshot(row) => row.Row? && row.tenant == tenant && row.id == id
  }

  function Handle(s: Service, t: Traffic): Service {
    match t
    case Registry(r) => s.(store := Step(s.store, r))
    case Snapshot(row) => s.(log := s.log + [row])
  }

  function Serve(ts: seq<Traffic>): Service {
    if ts == [] then Service(Empty, []) else Handle(Serve(ts[..|ts| - 1]), ts[|ts| - 1])
  }

  function Requests(ts: seq<Traffic>): seq<Request> {
    if ts == [] then [] else
      Requests(ts[..|ts| - 1]) + if ts[|ts| - 1].Registry? then [ts[|ts| - 1].r] else []
  }

  function Snapshots(ts: seq<Traffic>): seq<Line> {
    if ts == [] then [] else
      Snapshots(ts[..|ts| - 1]) + if ts[|ts| - 1].Snapshot? then [ts[|ts| - 1].row] else []
  }

  lemma {:induction false} ServeSplits(ts: seq<Traffic>)
    ensures Serve(ts).store == Run(Requests(ts)) && Serve(ts).log == Snapshots(ts)
  {
    if ts != [] {
      var before, t := ts[..|ts| - 1], ts[|ts| - 1];
      ServeSplits(before);
      if t.Registry? {
        assert (Requests(before) + [t.r])[..|Requests(before)|] == Requests(before);
        assert Requests(ts) == Requests(before) + [t.r] && Snapshots(ts) == Snapshots(before);
      } else {
        assert Requests(ts) == Requests(before);
      }
    }
  }

  /** The bands that apply under a key after these requests: of the active version's last publication, if any. */
  ghost predicate Applies(rs: seq<Request>, key: string, bands: seq<Band>) {
    || (Unpublished(rs, key) && bands == [])
    || exists i: nat ::
         PublishesAt(rs, key, i) && IsActive(rs, key, rs[i].p.version) && LastOfVersion(rs, key, rs[i].p.version, i)
         && bands == rs[i].p.bands
  }

  lemma DefaultAdjustsNothing(score: real, baseline: real, events: Option<real>, log: seq<Line>, tenant: string,
      id: string)
    requires IsScore(score, baseline, DefaultBands, events, log, tenant, id)
    ensures IsScore(score, baseline, [], events, log, tenant, id)
  {
    var band: real, velocity: real, drift: real :|
      && IsAdjustment(baseline, DefaultBands, band)
      && IsVelocityPenalty(if events.Some? then events.value else 0.0, velocity)
      && IsDriftPenalty(log, tenant, id, drift) && IsSum(score, baseline, band, velocity, drift);
    assert IsAdjustment(baseline, [], band);
  }

  /**
    What a score is after any traffic: the baseline, adjusted by the first fitting band of the profile that the
    requests leave active, less the penalties for the hour's events and for the latest snapshot, within [0, 1].
   */
  lemma ScoreOfTraffic(ts: seq<Traffic>, tenant: string, id: string, baseline: real, events: Option<real>)
    ensures exists bands ::
              && Applies(Requests(ts), Key(tenant, id), bands)
              && IsScore(Score(Serve(ts), tenant, id, baseline, events), baseline, bands, events, Snapshots(ts),
                         tenant, id)
  {
    ServeSplits(ts);
    ScoreTerms(Serve(ts), tenant, id, baseline, events);
    LookupByPosition(Requests(ts), tenant, id);
    var rs, key, score := Requests(ts), Key(tenant, id), Score(Serve(ts), tenant, id, baseline, events);
    var bands: seq<Band>;
    match ActiveProfileFor(Run(rs), tenant, id)
    case Found(p) =>
      bands := p.bands;
      var i: nat :| LastOfVersion(rs, key, p.version, i) && rs[i].p == p;
      assert PublishesAt(rs, key, i);
    case NotFound =>
      bands := [];
      DefaultAdjustsNothing(score, baseline, events, Snapshots(ts), tenant, id);
    assert Applies(rs, key, bands);
  }

  /** The traffic of one pair only. */
  function Own(ts: seq<Traffic>, tenant: string, id: string): seq<Traffic> {
    if ts == [] then [] else
      Own(ts[..|ts| - 1], tenant, id) + if Concerns(ts[|ts| - 1], tenant, id) then [ts[|ts| - 1]] else []
  }

  /** The two services show the pair the same bucket, active version and latest snapshot. */
  predicate Alike(s: Service, s': Service, tenant: string, id: string) {
    var key := Key(tenant, id);
    && BucketAt(s.store, key) == BucketAt(s'.store, key)
    && (key in s.store.active <==> key in s'.store.active)
    && (key in s.store.active ==> s.store.active[key] == s'.store.active[key])
    && LatestRow(s.log, tenant, id) == LatestRow(s'.log, tenant, id)
  }

  lemma SnapshotLatest(log: seq<Line>, row: Line, tenant: string, id: string)
    ensures LatestRow(log + [row], tenant, id) ==
              if row.Row? && row.tenant == tenant && row.id == id then Some(row) else LatestRow(log, tenant, id)
  {
    assert (log + [row])[..|log|] == log;
  }

  lemma HandleAlike(s: Service, s': Service, t: Traffic, tenant: string, id: string)
    requires Alike(s, s', tenant, id)
    ensures Alike(Handle(s, t), Handle(s', t), tenant, id)
  {
    if t.Snapshot? {
      SnapshotLatest(s.log, t.row, tenant, id);
      SnapshotLatest(s'.log, t.row, tenant, id);
    }
  }

  /** A request of another pair that is filed under the same key. */
  predicate Clashes(t: Traffic, tenant: string, id: string) {
    t.Registry? && KeyOf(t.r) == Key(tenant, id) && !Concerns(t, tenant, id)
  }

  lemma OthersAlike(s: Service, t: Traffic, tenant: string, id: string)
    requires !Clashes(t, tenant, id) && !Concerns(t, tenant, id)
    ensures Alike(s, Handle(s, t), tenant, id)
  {
    if t.Snapshot? { SnapshotLatest(s.log, t.row, tenant, id); }
  }

  lemma {:induction false} OwnAlike(ts: seq<Traffic>, tenant: string, id: string)
    requires forall t :: t in ts ==> !Clashes(t, tenant, id)
    ensures Alike(Serve(ts), Serve(Own(ts, tenant, id)), tenant, id)
  {
    if ts != [] {
      var before, t := ts[..|ts| - 1], ts[|ts| - 1];
      OwnAlike(before, tenant, id);
      assert t in ts;
      var mine := Own(before, tenant, id);
      if Concerns(t, tenant, id) {
        assert (mine + [t])[..|mine|] == mine;
        assert Serve(mine + [t]) == Handle(Serve(mine), t);
        HandleAlike(Serve(before), Serve(mine), t, tenant, id);
      } else {
        OthersAlike(Serve(before), t, tenant, id);
        assert mine + [] == mine;
      }
    }
  }

  lemma AlikeScore(s: Service, s': Service, tenant: string, id: string, baseline: real, events: Option<real>)
    requires Alike(s, s', tenant, id)
    ensures Score(s, tenant, id, baseline, events) == Score(s', tenant, id, baseline, events)
  {
  }

  /** Unless a request of another pair shares the key, a pair's score depends on its own requests and snapshots only. */
  lemma OwnTrafficDecidesScore(ts: seq<Traffic>, tenant: string, id: string, baseline: real, events: Option<real>)
    requires forall t :: t in ts ==> !Clashes(t, tenant, id)
    ensures Score(Serve(ts), tenant, id, baseline, events)
         == Score(Serve(Own(ts, tenant, id)), tenant, id, baseline, events)
  {
    OwnAlike(ts, tenant, id);
    AlikeScore(Serve(ts), Serve(Own(ts, tenant, id)), tenant, id, baseline, events);
  }

  /** Where the tenants of all requests have no colon, no two pairs share a key. */
  lemma ColonFreeTenants(t: Traffic, tenant: string, id: string)
    requires ':' !in tenant
    requires t.Registry? ==> ':' !in if t.r.Publish? then t.r.p.tenant else t.r.tenant
    ensures !Clashes(t, tenant, id)
  {
    if t.Registry? {
      var (t', id') := if t.r.Publish? then (t.r.p.tenant, t.r.p.id) else (t.r.tenant, t.r.id);
      if |tenant| <= |t'| { KeysClashExactly(tenant, id, t', id'); } else { KeysClashExactly(t', id', tenant, id); }
    }
  }

  // --- Which pairs are isolated ---

  /** The ids that the request body of a publication may have. */
  predicate PublishIds(tenant: string, id: string) {
    1 <= |tenant| <= 128 && 1 <= |id| <= 64
  }

  /** A path segment of the activation route. */
  predicate Segment(s: string) {
    s != "" && '/' !in s
  }

  /** The requests that the service lets through. */
  predicate Admitted(t: Traffic) {
    match t
    case Registry(Publish(p)) => PublishIds(p.tenant, p.id) && p.version >= 1 && p.expected >= 1 && p.bands != []
    case Registry(Activate(te, i, _)) => Segment(te) && Segment(i)
    case Snapshot(row) => row.Row? ==> 1 <= |row.tenant| <= 128 && |row.id| <= 64
  }

  ghost predicate AllAdmitted(ts: seq<Traffic>) {
    forall t :: t in ts ==> Admitted(t)
  }

  /** No traffic that the service lets through, apart from the pair's own, has an effect on its score. */
  ghost predicate Isolated(tenant: string, id: string) {
    forall ts: seq<Traffic>, baseline: real, events: Option<real> :: AllAdmitted(ts) ==>
      Score(Serve(ts), tenant, id, baseline, events) == Score(Serve(Own(ts, tenant, id)), tenant, id, baseline, events)
  }

  /**
    The key read with another of its colons as the separator: a pair that can publish under the key, or activate a
    version that the pair itself has published.
   */
  predicate SharesKeyAt(tenant: string, id: string, i: nat) {
    var k := Key(tenant, id);
    && i < |k| && i != |tenant| && k[i] == ':'
    && (PublishIds(k[..i], k[i + 1..]) || (PublishIds(tenant, id) && Segment(k[..i]) && Segment(k[i + 1..])))
  }

  lemma OtherSplit(tenant: string, id: string, t': string, id': string)
    requires Key(t', id') == Key(tenant, id) && (t' != tenant || id' != id)
    ensures var k := Key(tenant, id);
            |t'| < |k| && |t'| != |tenant| && k[|t'|] == ':' && k[..|t'|] == t' && k[|t'| + 1..] == id'
  {
    var k := Key(t', id');
    assert k[..|t'|] == t' && k[|t'| + 1..] == id';
    assert Key(tenant, id)[..|tenant|] == tenant && Key(tenant, id)[|tenant| + 1..] == id;
  }

  lemma SplitIsKey(k: string, i: nat)
    requires i < |k| && k[i] == ':'
    ensures Key(k[..i], k[i + 1..]) == k
  {
  }

  // Nobody shares the key: what clashes is refused, or finds nothing to activate.

  lemma {:induction false} NeverPublished(ts: seq<Traffic>, key: string)
    requires forall t :: t in ts && t.Registry? && t.r.Publish? ==> KeyOf(t.r) != key
    ensures BucketAt(Serve(ts).store, key) == []
  {
    if ts != [] {
      NeverPublished(ts[..|ts| - 1], key);
      assert ts[|ts| - 1] in ts;
    }
  }

  lemma {:induction false} UnpublishedAlike(ts: seq<Traffic>, tenant: string, id: string)
    requires forall t :: t in ts && t.Registry? && t.r.Publish? ==> KeyOf(t.r) != Key(tenant, id)
    ensures Alike(Serve(ts), Serve(Own(ts, tenant, id)), tenant, id)
  {
    if ts != [] {
      var before, t := ts[..|ts| - 1], ts[|ts| - 1];
      UnpublishedAlike(before, tenant, id);
      NeverPublished(before, Key(tenant, id));
      assert t in ts;
      OneMoreAlike(before, t, tenant, id);
    }
  }

  /** One more request, which does not publish for another pair under the key. */
  lemma OneMoreAlike(before: seq<Traffic>, t: Traffic, tenant: string, id: string)
    requires Alike(Serve(before), Serve(Own(before, tenant, id)), tenant, id)
    requires !Clashes(t, tenant, id) || (t.r.Activate? && BucketAt(Serve(before).store, Key(tenant, id)) == [])
    ensures var mine := Own(before, tenant, id);
            Alike(Handle(Serve(before), t), Serve(if Concerns(t, tenant, id) then mine + [t] else mine + []), tenant,
                id)
  {
    var mine := Own(before, tenant, id);
    if Concerns(t, tenant, id) {
      assert (mine + [t])[..|mine|] == mine;
      assert Serve(mine + [t]) == Handle(Serve(mine), t);
      HandleAlike(Serve(before), Serve(mine), t, tenant, id);
    } else {
      assert mine + [] == mine;
      if !Clashes(t, tenant, id) { OthersAlike(Serve(before), t, tenant, id); }
    }
  }

  ghost predicate OneReading(tenant: string, id: string) {
    forall i: nat :: !SharesKeyAt(tenant, id, i)
  }

  lemma ClashIsSplit(t: Traffic, tenant: string, id: string)
    requires Admitted(t) && Clashes(t, tenant, id) && OneReading(tenant, id)
    ensures t.r.Activate? && !PublishIds(tenant, id)
  {
    var (t', id') := if t.r.Publish? then (t.r.p.tenant, t.r.p.id) else (t.r.tenant, t.r.id);
    OtherSplit(tenant, id, t', id');
    assert !SharesKeyAt(tenant, id, |t'|);
  }

  lemma NotPublished(t: Traffic, tenant: string, id: string)
    requires Admitted(t) && OneReading(tenant, id) && !PublishIds(tenant, id) && t.Registry? && t.r.Publish?
    ensures KeyOf(t.r) != Key(tenant, id)
  {
    if Clashes(t, tenant, id) { ClashIsSplit(t, tenant, id); }
  }

  lemma OneReadingAlike(ts: seq<Traffic>, tenant: string, id: string)
    requires AllAdmitted(ts) && OneReading(tenant, id)
    ensures Alike(Serve(ts), Serve(Own(ts, tenant, id)), tenant, id)
  {
    if PublishIds(tenant, id) {
      forall t | t in ts ensures !Clashes(t, tenant, id) {
        if Clashes(t, tenant, id) { ClashIsSplit(t, tenant, id); }
      }
      OwnAlike(ts, tenant, id);
    } else {
      forall t | t in ts && t.Registry? && t.r.Publish? ensures KeyOf(t.r) != Key(tenant, id) {
        NotPublished(t, tenant, id);
      }
      UnpublishedAlike(ts, tenant, id);
    }
  }

  // Somebody does: either its profile is served, or its activation.

  const Raising: Band := RawBand.Band(0.0, 1.0, 1.0)

  /** A profile that raises every score to 1, and one that leaves every score alone. */
  function RaisingProfile(tenant: string, id: string, version: nat): Profile {
    Profile(tenant, id, version, 1, false, [Raising])
  }

  function NeutralProfile(tenant: string, id: string, version: nat): Profile {
    Profile(tenant, id, version, 1, false, DefaultBands)
  }

  lemma FirstPublished(p: Profile, tenant: string, id: string)
    requires Key(p.tenant, p.id) == Key(tenant, id)
    ensures BandsFor(Serve([Registry(Publish(p))]), tenant, id) == p.bands
  {
    var ts := [Registry(Publish(p))];
    assert ts[..|ts| - 1] == [];
    assert Serve(ts) == Handle(Service(Empty, []), ts[0]);
    RepublishedFinds([], p, p.version);
  }

  /** Two services without snapshots of which one serves the raising and the other the neutral bands. */
  lemma ScoresDiffer(s: Service, s': Service, tenant: string, id: string)
    requires s.log == [] && s'.log == []
    requires BandsFor(s, tenant, id) == [Raising] && BandsFor(s', tenant, id) == DefaultBands
    ensures Score(s, tenant, id, 0.0, None) != Score(s', tenant, id, 0.0, None)
  {
    assert BandAdjustment(0.0, [Raising]) == 1.0 && BandAdjustment(0.0, DefaultBands) == 0.0;
  }

  lemma PublicationLeaks(tenant: string, id: string, t': string, id': string)
    requires Key(t', id') == Key(tenant, id) && t' != tenant && PublishIds(t', id')
    ensures !Isolated(tenant, id)
  {
    var p := RaisingProfile(t', id', 1);
    var ts := [Registry(Publish(p))];
    FirstPublished(p, tenant, id);
    assert ts[..|ts| - 1] == [];
    assert Own(ts, tenant, id) == [];
    ScoresDiffer(Serve(ts), Serve([]), tenant, id);
    assert AllAdmitted(ts);
  }

  /** A neutral version 1 and a raising version 2 of the pair's own. */
  function TwoVersions(tenant: string, id: string): seq<Traffic> {
    [Registry(Publish(NeutralProfile(tenant, id, 1))), Registry(Publish(RaisingProfile(tenant, id, 2)))]
  }

  lemma ServeOneMore(ts: seq<Traffic>, t: Traffic)
    ensures Serve(ts + [t]) == Handle(Serve(ts), t)
  {
    assert (ts + [t])[..|ts|] == ts;
  }

  lemma TwoVersionsServed(tenant: string, id: string)
    ensures var s, key := Serve(TwoVersions(tenant, id)), Key(tenant, id);
            && s.log == [] && key in s.store.active && s.store.active[key] == 1
            && Find(BucketAt(s.store, key), 1) == Some(NeutralProfile(tenant, id, 1))
            && Find(BucketAt(s.store, key), 2) == Some(RaisingProfile(tenant, id, 2))
  {
    var p1, p2 := NeutralProfile(tenant, id, 1), RaisingProfile(tenant, id, 2);
    ServeOneMore([], Registry(Publish(p1)));
    ServeOneMore([Registry(Publish(p1))], Registry(Publish(p2)));
    assert [] + [Registry(Publish(p1))] == [Registry(Publish(p1))];
    assert [Registry(Publish(p1))] + [Registry(Publish(p2))] == TwoVersions(tenant, id);
    RepublishedFinds([], p1, 1);
    RepublishedFinds(Republished([], p1), p2, 1);
    RepublishedFinds(Republished([], p1), p2, 2);
  }

  lemma ActivatedBands(tenant: string, id: string, t': string, id': string)
    requires Key(t', id') == Key(tenant, id)
    ensures var mine, t := TwoVersions(tenant, id), Registry(Activate(t', id', 2));
            && Serve(mine).log == [] && Serve(mine + [t]).log == []
            && BandsFor(Serve(mine), tenant, id) == DefaultBands
            && BandsFor(Serve(mine + [t]), tenant, id) == [Raising]
  {
    TwoVersionsServed(tenant, id);
    ServeOneMore(TwoVersions(tenant, id), Registry(Activate(t', id', 2)));
  }

  lemma DifferenceShows(ts: seq<Traffic>, tenant: string, id: string)
    requires AllAdmitted(ts)
    requires Score(Serve(ts), tenant, id, 0.0, None) != Score(Serve(Own(ts, tenant, id)), tenant, id, 0.0, None)
    ensures !Isolated(tenant, id)
  {
  }

  lemma ActivationLeaks(tenant: string, id: string, t': string, id': string)
    requires Key(t', id') == Key(tenant, id) && t' != tenant
    requires PublishIds(tenant, id) && Segment(t') && Segment(id')
    ensures !Isolated(tenant, id)
  {
    var mine, t := TwoVersions(tenant, id), Registry(Activate(t', id', 2));
    ActivatedBands(tenant, id, t', id');
    OwnOfMine(tenant, id, t);
    ScoresDiffer(Serve(mine + [t]), Serve(mine), tenant, id);
    DifferenceShows(mine + [t], tenant, id);
  }

  lemma OwnOfMine(tenant: string, id: string, t: Traffic)
    requires !Concerns(t, tenant, id)
    ensures Own(TwoVersions(tenant, id) + [t], tenant, id) == TwoVersions(tenant, id)
  {
    var ts := TwoVersions(tenant, id);
    assert (ts + [t])[..2] == ts && ts[..1] == [ts[0]] && [ts[0]][..0] == [];
    assert Own([ts[0]], tenant, id) == [ts[0]];
    assert Own(ts, tenant, id) == ts;
  }

  /**
    A pair is isolated from all other traffic that the service lets through exactly when its key has no other
    reading.
   */
  lemma IsolatedExactly(tenant: string, id: string)
    ensures Isolated(tenant, id) <==> OneReading(tenant, id)
  {
    if i: nat :| SharesKeyAt(tenant, id, i) {
      var k := Key(tenant, id);
      SplitIsKey(k, i);
      if PublishIds(k[..i], k[i + 1..]) {
        PublicationLeaks(tenant, id, k[..i], k[i + 1..]);
      } else {
        ActivationLeaks(tenant, id, k[..i], k[i + 1..]);
      }
    } else {
      forall ts: seq<Traffic>, baseline: real, events: Option<real> | AllAdmitted(ts)
        ensures Score(Serve(ts), tenant, id, baseline, events)
             == Score(Serve(Own(ts, tenant, id)), tenant, id, baseline, events)
      {
        OneReadingAlike(ts, tenant, id);
        AlikeScore(Serve(ts), Serve(Own(ts, tenant, id)), tenant, id, baseline, events);
      }
    }
  }

  lemma OnlyColon(tenant: string, id: string, i: nat)
    requires ':' !in tenant && ':' !in id && i < |Key(tenant, id)| && Key(tenant, id)[i] == ':'
    ensures i == |tenant|
  {
    var k := Key(tenant, id);
    assert forall j :: 0 <= j < |tenant| ==> k[j] == tenant[j];
    assert forall j :: 0 <= j < |id| ==> k[|tenant| + 1 + j] == id[j];
  }

  /** So every pair whose ids have no colon is isolated. */
  lemma ColonFreeIsolated(tenant: string, id: string)
    requires ':' !in tenant && ':' !in id
    ensures Isolated(tenant, id)
  {
    forall i: nat ensures !SharesKeyAt(tenant, id, i) {
      if i < |Key(tenant, id)| && Key(tenant, id)[i] == ':' { OnlyColon(tenant, id, i); }
    }
    assert OneReading(tenant, id);
    IsolatedExactly(tenant, id);
  }

  /** A profile published for tenant t is served to tenant t:x. */
  lemma ColonLeaks(other: Profile, x: string, id: string)
    requires other.id == x + ":" + id
    ensures BandsFor(Serve([Registry(Publish(other))]), other.tenant + ":" + x, id) == other.bands
  {
    assert Key(other.tenant, other.id) == Key(other.tenant + ":" + x, id);
    FirstPublished(other, other.tenant + ":" + x, id);
  }
}
