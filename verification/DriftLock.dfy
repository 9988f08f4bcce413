/** The replay consistency check and its drift lock across cron runs (scripts/replay/evidence_replay_consistency.py). */
module DriftLock {
  import opened Basics

  // --- One run ---

  /** `returncode` is None when the replay did not complete. */
  datatype Outcome = Outcome(returncode: Option<int>, mismatch: bool, timing: bool, trace: bool)

  datatype Options = Options(sampleSize: nat, strict: bool, failOnAny: bool, hasLockPath: bool, clearOnSuccess: bool)

  /**
    One cron run: the sample (None when the query fails), the replays, and whether the lock file can be written
    or removed.
   */
  datatype Job = Job(opts: Options, sample: Option<seq<string>>, replay: string -> Outcome, writable: bool,
      removable: bool)

  predicate Failed(j: Job, id: string) {
    j.replay(id).returncode != Some(0)
  }

  /** A discrepancy counts only in a replay that completed. */
  predicate Drifted(j: Job, id: string) {
    && !Failed(j, id)
    && (j.replay(id).mismatch || (j.opts.failOnAny && (j.replay(id).timing || j.replay(id).trace)))
  }

  predicate Acceptable(j: Job) {
    j.sample.Some? && j.sample.value != [] && (j.opts.strict ==> |j.sample.value| >= j.opts.sampleSize)
  }

  predicate AnyDrift(j: Job) {
    j.sample.Some? && exists i :: 0 <= i < |j.sample.value| && Drifted(j, j.sample.value[i])
  }

  predicate AnyFailure(j: Job) {
    j.sample.Some? && exists i :: 0 <= i < |j.sample.value| && Failed(j, j.sample.value[i])
  }

  /** The lock names the manifests that drifted. */
  datatype Lock = Lock(manifests: seq<string>)

  function Select(ids: seq<string>, keep: string -> bool): seq<string> {
    if ids == [] then [] else
      Select(ids[..|ids| - 1], keep) + if keep(ids[|ids| - 1]) then [ids[|ids| - 1]] else []
  }

  lemma {:induction false} SelectEmptyExactly(ids: seq<string>, keep: string -> bool)
    ensures Select(ids, keep) == [] <==> forall i :: 0 <= i < |ids| ==> !keep(ids[i])
  {
    if ids != [] { SelectEmptyExactly(ids[..|ids| - 1], keep); }
  }

  function DriftedIds(j: Job): seq<string>
    requires j.sample.Some?
  {
    Select(j.sample.value, id => Drifted(j, id))
  }

  /** The exit code that a run should have, read off its sample and its replays. */
  function ExitOf(j: Job): nat {
    if j.sample.None? || j.sample.value == [] then 2
    else if j.opts.strict && |j.sample.value| < j.opts.sampleSize then 3
    else if exists i :: 0 <= i < |j.sample.value| && Diverges(j, j.replay(j.sample.value[i])) then 1
    else if exists i :: 0 <= i < |j.sample.value| && j.replay(j.sample.value[i]).returncode != Some(0) then 2
    else 0
  }

  /** The replay completed and came to another decision, or, on request, differed in timing or trace. */
  predicate Diverges(j: Job, r: Outcome) {
    r.returncode == Some(0) && (r.mismatch || (j.opts.failOnAny && (r.timing || r.trace)))
  }

  /** The positions that a selection keeps. */
  ghost predicate KeptAt(ids: seq<string>, keep: string -> bool, at: seq<nat>) {
    && (forall i, k :: 0 <= i < k < |at| ==> at[i] < at[k])
    && (forall i: nat :: i in at <==> i < |ids| && keep(ids[i]))
  }

  lemma {:induction false} SelectExactly(ids: seq<string>, keep: string -> bool) returns (at: seq<nat>)
    ensures KeptAt(ids, keep, at)
    ensures |Select(ids, keep)| == |at|
    ensures forall k :: 0 <= k < |at| ==> at[k] < |ids| && Select(ids, keep)[k] == ids[at[k]]
  {
    at := [];
    if ids != [] {
      var n := |ids| - 1;
      at := SelectExactly(ids[..n], keep);
      assert forall k :: 0 <= k < |at| ==> at[k] in at;
      if keep(ids[n]) { at := at + [n]; }
    }
  }

  /** The lock of a drifting run names, in order, exactly the manifests of its sample that diverged. */
  lemma LockNamesExactly(j: Job) returns (at: seq<nat>)
    requires j.sample.Some?
    ensures KeptAt(j.sample.value, id => Diverges(j, j.replay(id)), at)
    ensures |DriftedIds(j)| == |at|
    ensures forall k :: 0 <= k < |at| ==> at[k] < |j.sample.value| && DriftedIds(j)[k] == j.sample.value[at[k]]
  {
    at := SelectExactly(j.sample.value, id => Drifted(j, id));
    forall i: nat ensures i in at <==> i < |j.sample.value| && Diverges(j, j.replay(j.sample.value[i])) {
      assert i in at <==> i < |j.sample.value| && (id => Drifted(j, id))(j.sample.value[i]);
    }
  }

  class Checker {
    var lock: Option<Lock>

    constructor ()
      ensures lock == None
    {
      lock := None;
    }

    /** The exit code and the lock of a run, from the properties of its sample. */
    method Check(j: Job) returns (exit: nat)
      modifies this
      ensures exit == ExitOf(j)
      ensures exit == 0 <==> Acceptable(j) && !AnyDrift(j) && !AnyFailure(j)
      ensures exit == 1 <==> Acceptable(j) && AnyDrift(j)
      ensures exit == 3 <==> j.sample.Some? && j.sample.value != [] && !Acceptable(j)
      ensures exit == 2 <==> j.sample.None? || j.sample.value == [] || (Acceptable(j) && !AnyDrift(j) && AnyFailure(j))
      ensures lock == LockAfter(old(lock), j)
    {
      if j.sample.None? || j.sample.value == [] {
        return 2;
      }
      var order := j.sample.value;
      if j.opts.strict && |order| < j.opts.sampleSize {
        return 3;
      }
      var errors, driftManifests, engineDrift := Replay(j, order);
      if engineDrift {
        if j.opts.hasLockPath && j.writable {
          lock := Some(Lock(driftManifests));
        }
        return 1;
      }
      if errors != [] {
        return 2;
      }
      if j.opts.clearOnSuccess && j.opts.hasLockPath && lock.Some? && j.removable {
        lock := None;
      }
      exit := 0;
    }
  }

  /** The replay loop. */
  method Replay(j: Job, order: seq<string>)
    returns (errors: seq<string>, driftManifests: seq<string>, engineDrift: bool)
    requires j.sample == Some(order)
    ensures driftManifests == DriftedIds(j)
    ensures engineDrift <==> AnyDrift(j)
    ensures errors != [] <==> AnyFailure(j)
  {
    var failed, drifted := (id: string) => Failed(j, id), (id: string) => Drifted(j, id);
    errors, driftManifests, engineDrift := [], [], false;
    for i := 0 to |order|
      invariant errors == Select(order[..i], failed)
      invariant driftManifests == Select(order[..i], drifted)
      invariant engineDrift <==> driftManifests != []
    {
      var mid := order[i];
      assert order[..i + 1][..i] == order[..i];
      var outcome := j.replay(mid);
      if outcome.returncode.None? {
        errors := errors + [mid];
        continue;
      }
      if outcome.returncode.value != 0 {
        errors := errors + [mid];
        continue;
      }
      if outcome.mismatch || (j.opts.failOnAny && (outcome.timing || outcome.trace)) {
        engineDrift := true;
        driftManifests := driftManifests + [mid];
      }
    }
    assert order[..|order|] == order;
    SelectEmptyExactly(order, failed);
    SelectEmptyExactly(order, drifted);
    assert driftManifests == DriftedIds(j);
  }

  // --- The lock over all runs ---

  predicate WritesLock(j: Job) {
    Acceptable(j) && AnyDrift(j) && j.opts.hasLockPath && j.writable
  }

  predicate ClearsLock(j: Job) {
    && Acceptable(j) && !AnyDrift(j) && !AnyFailure(j)
    && j.opts.clearOnSuccess && j.opts.hasLockPath && j.removable
  }

  function LockAfter(lock: Option<Lock>, j: Job): Option<Lock> {
    if WritesLock(j) then Some(Lock(DriftedIds(j)))
    else if ClearsLock(j) then None
    else lock
  }

  function LockOver(jobs: seq<Job>): Option<Lock> {
    if jobs == [] then None else LockAfter(LockOver(jobs[..|jobs| - 1]), jobs[|jobs| - 1])
  }

  /** The run found drift and could write the lock. */
  predicate Locks(j: Job) {
    ExitOf(j) == 1 && j.opts.hasLockPath && j.writable
  }

  /** The run was clean, was asked to clear the lock and could. */
  predicate Unlocks(j: Job) {
    ExitOf(j) == 0 && j.opts.clearOnSuccess && j.opts.hasLockPath && j.removable
  }

  lemma LocksExactly(j: Job)
    ensures WritesLock(j) <==> Locks(j)
    ensures ClearsLock(j) <==> Unlocks(j)
  {
  }

  /** Run i wrote the lock, and no later run up to the n-th wrote or cleared it. */
  predicate LastWrite(jobs: seq<Job>, n: nat, i: nat) {
    i < n <= |jobs| && Locks(jobs[i]) && forall k :: i < k < n ==> !Locks(jobs[k]) && !Unlocks(jobs[k])
  }

  /**
    After any runs the lock stands exactly when some run wrote it and none since has exited cleanly with
    the clear flag; it names the manifests of the last drifting run.
   */
  lemma {:induction false} LockStandsExactly(jobs: seq<Job>)
    ensures LockOver(jobs).Some? <==> exists i: nat :: LastWrite(jobs, |jobs|, i)
    ensures forall i: nat :: LastWrite(jobs, |jobs|, i) ==> LockOver(jobs) == Some(Lock(DriftedIds(jobs[i])))
  {
    if jobs != [] {
      var before, j := jobs[..|jobs| - 1], jobs[|jobs| - 1];
      LockStandsExactly(before);
      LocksExactly(j);
      if WritesLock(j) {
        assert LastWrite(jobs, |jobs|, |jobs| - 1);
      } else if ClearsLock(j) {
        assert forall i: nat :: !LastWrite(jobs, |jobs|, i);
      } else {
        forall i: nat ensures LastWrite(jobs, |jobs|, i) <==> LastWrite(before, |before|, i) {
          if LastWrite(before, |before|, i) {
            forall k | i < k < |jobs| ensures !Locks(jobs[k]) && !Unlocks(jobs[k]) {
              if k < |before| { assert before[k] == jobs[k]; }
            }
          }
          if LastWrite(jobs, |jobs|, i) {
            assert forall k :: i < k < |before| ==> before[k] == jobs[k];
          }
        }
      }
    }
  }

  /** A lock survives every run that does not exit 0 with the clear flag. */
  lemma {:induction false} LockStays(jobs: seq<Job>, more: seq<Job>)
    requires LockOver(jobs).Some?
    requires forall k :: 0 <= k < |more| ==> ExitOf(more[k]) != 0 || !more[k].opts.clearOnSuccess
    ensures LockOver(jobs + more).Some?
  {
    if more == [] {
      assert jobs + more == jobs;
    } else {
      var init := more[..|more| - 1];
      LocksExactly(more[|more| - 1]);
      LockStays(jobs, init);
      assert (jobs + more)[..|jobs + more| - 1] == jobs + init;
    }
  }

  lemma SameMembers(a: seq<string>, b: seq<string>)
    requires multiset(a) == multiset(b)
    ensures |a| == |b| && forall id :: id in a <==> id in b
  {
    assert |a| == |multiset(a)| == |b|;
    forall id ensures id in a <==> id in b {
      assert id in multiset(a) <==> id in multiset(b);
    }
  }

  lemma DriftByMember(j: Job)
    requires j.sample.Some?
    ensures AnyDrift(j) <==> exists id :: id in j.sample.value && Drifted(j, id)
    ensures AnyFailure(j) <==> exists id :: id in j.sample.value && Failed(j, id)
  {
  }

  /** The order of the replays does not matter to the verdict. */
  lemma ShuffleKeepsVerdict(j: Job, order: seq<string>)
    requires j.sample.Some? && multiset(order) == multiset(j.sample.value)
    ensures var j' := j.(sample := Some(order));
            && Acceptable(j') == Acceptable(j) && AnyDrift(j') == AnyDrift(j) && AnyFailure(j') == AnyFailure(j)
            && ExitOf(j') == ExitOf(j) && Locks(j') == Locks(j) && Unlocks(j') == Unlocks(j)
  {
    var j' := j.(sample := Some(order));
    SameMembers(order, j.sample.value);
    DriftByMember(j);
    DriftByMember(j');
    assert forall id :: Drifted(j', id) == Drifted(j, id) && Failed(j', id) == Failed(j, id);
    ExitExactly(j);
    ExitExactly(j');
  }

  lemma ExitExactly(j: Job)
    ensures ExitOf(j) == if !Acceptable(j) then (if j.sample.None? || j.sample.value == [] then 2 else 3)
                         else if AnyDrift(j) then 1 else if AnyFailure(j) then 2 else 0
  {
  }

  // --- The sample query ---

  datatype Answer = Timeout | TransportError | Busy | Refused | Text(body: string)
  datatype QueryResult = Body(text: string) | Raised

  predicate Retryable(a: Answer) {
    a.Timeout? || a.TransportError? || a.Busy?
  }

  /** At most maxRetries + 1 attempts, and the answer is that of the first attempt not worth retrying. */
  method PostQuery(answers: nat -> Answer, maxRetries: int) returns (r: QueryResult, calls: nat)
    ensures calls <= if maxRetries < 0 then 0 else maxRetries + 1
    ensures forall i :: 0 <= i < calls - 1 ==> Retryable(answers(i))
    ensures r.Body? ==> calls > 0 && answers(calls - 1) == Text(r.text)
    ensures r.Raised? ==>
              calls == (if maxRetries < 0 then 0 else maxRetries + 1) || (calls > 0 && answers(calls - 1).Refused?)
    ensures r.Raised? && calls > 0 ==> !answers(calls - 1).Text?
  {
    var attempt := 0;
    while attempt < maxRetries + 1
      invariant 0 <= attempt && (attempt > 0 ==> attempt <= maxRetries + 1)
      invariant forall i :: 0 <= i < attempt ==> Retryable(answers(i))
    {
      match answers(attempt) {
        case Timeout =>
        case TransportError =>
        case Busy =>
          if attempt >= maxRetries {
            return Raised, attempt + 1;
          }
        case Refused => return Raised, attempt + 1;
        case Text(body) => return Body(body), attempt + 1;
      }
      attempt := attempt + 1;
    }
    return Raised, attempt;
  }
}
