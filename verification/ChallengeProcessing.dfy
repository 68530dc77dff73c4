/**
  Asynchronous dns-01 challenge processing.

  Answering a challenge registers a processing record in a shared map and starts a
  background worker, which ends by recording a failure or by triggering the upstream and
  removing the record.  Every request that is about to start a worker first sweeps the map
  for records older than the retention.  The machine below interleaves any number of
  requests and workers with the passing of time; a sweep's test of a key and its deletion
  are two steps, as they are in the code.
*/
module ChallengeProcessing {
  import opened Paths
  import opened Wrappers

  type ChallengeId = string
  type RecordId = nat
  type RequestId = nat
  type Time = nat  // nanoseconds

  const SECOND: Time := 1_000_000_000
  const RETENTION: Time := 3600 * SECOND
  const WORKER_LIMIT: Time := 600 * SECOND

  /** The longest a request may take from reading the clock to its worker's first instruction. */
  const BEGIN_LIMIT: Time := RETENTION - WORKER_LIMIT

  datatype Problem = Problem(errType: string, detail: string)

  /** A record whose status is "processing" (no failure) or "invalid". */
  datatype Record = Record(challenge: ChallengeId, createdAt: Time, failure: Option<Problem>)

  datatype Request =
    | Begun(challenge: ChallengeId)
    | Clocked(challenge: ChallengeId, clock: Time)
    | Deleting(challenge: ChallengeId, clock: Time, key: ChallengeId, tested: RecordId)

  datatype Worker = Spawned | Running(deadline: Time) | Triggered(deadline: Time)

  /** A worker is named by the record it was started for. */
  datatype State = State(
    now: Time,
    proc: map<ChallengeId, RecordId>,
    records: map<RecordId, Record>,
    requests: map<RequestId, Request>,
    workers: map<RecordId, Worker>)

  datatype Action =
    | Post(q: RequestId, challenge: ChallengeId)  // the map held no record for the challenge
    | ReadClock(q: RequestId)
    | Test(q: RequestId, key: ChallengeId)        // the sweep finds a stale record
    | Delete(q: RequestId)                        // ... and deletes whatever the key holds
    | LoadOrStore(q: RequestId, record: RecordId)
    | StartWorker(r: RecordId)
    | Fail(r: RecordId, problem: Problem)
    | Trigger(r: RecordId)
    | Finish(r: RecordId)
    | Tick(d: Time)

  ghost predicate Init(s: State) {
    s.proc == map[] && s.records == map[] && s.requests == map[] && s.workers == map[]
  }

  ghost predicate RequestInTime(s: State, q: RequestId, now: Time)
    requires q in s.requests
  {
    !s.requests[q].Begun? ==> now <= s.requests[q].clock + BEGIN_LIMIT
  }

  ghost predicate WorkerInTime(s: State, r: RecordId, now: Time)
    requires r in s.workers
  {
    if s.workers[r].Spawned?
    then r in s.records && now <= s.records[r].createdAt + BEGIN_LIMIT
    else now <= s.workers[r].deadline
  }

  ghost predicate Enabled(s: State, a: Action) {
    match a
    case Post(q, c) => q !in s.requests && c !in s.proc
    case ReadClock(q) => q in s.requests && s.requests[q].Begun?
    case Test(q, k) =>
      && q in s.requests && s.requests[q].Clocked?
      && k in s.proc && s.proc[k] in s.records
      && s.requests[q].clock > s.records[s.proc[k]].createdAt + RETENTION
    case Delete(q) => q in s.requests && s.requests[q].Deleting?
    case LoadOrStore(q, r) => q in s.requests && s.requests[q].Clocked? && r !in s.records
    case StartWorker(r) => r in s.workers && s.workers[r].Spawned?
    case Fail(r, _) => r in s.workers && s.workers[r].Running? && r in s.records
    case Trigger(r) => r in s.workers && s.workers[r].Running?
    case Finish(r) => r in s.workers && s.workers[r].Triggered? && r in s.records
    case Tick(d) =>
      && (forall q :: q in s.requests ==> RequestInTime(s, q, s.now + d))
      && (forall r :: r in s.workers ==> WorkerInTime(s, r, s.now + d))
  }

  ghost function Apply(s: State, a: Action): State
    requires Enabled(s, a)
  {
    match a
    case Post(q, c) => s.(requests := s.requests[q := Begun(c)])
    case ReadClock(q) => s.(requests := s.requests[q := Clocked(s.requests[q].challenge, s.now)])
    case Test(q, k) =>
      s.(requests := s.requests[q := Deleting(s.requests[q].challenge, s.requests[q].clock, k, s.proc[k])])
    case Delete(q) =>
      s.(proc := s.proc - {s.requests[q].key},
         requests := s.requests[q := Clocked(s.requests[q].challenge, s.requests[q].clock)])
    case LoadOrStore(q, r) =>
      var c := s.requests[q].challenge;
      if c in s.proc
      then s.(requests := s.requests - {q})
      else s.(requests := s.requests - {q},
              proc := s.proc[c := r],
              records := s.records[r := Record(c, s.requests[q].clock, None)],
              workers := s.workers[r := Spawned])
    case StartWorker(r) => s.(workers := s.workers[r := Running(s.now + WORKER_LIMIT)])
    case Fail(r, p) =>
      s.(records := s.records[r := s.records[r].(failure := Some(p))], workers := s.workers - {r})
    case Trigger(r) => s.(workers := s.workers[r := Triggered(s.workers[r].deadline)])
    case Finish(r) =>
      s.(proc := s.proc - {s.records[r].challenge}, workers := s.workers - {r})
    case Tick(d) => s.(now := s.now + d)
  }

  /** A run: the states, and the action that leads from each to the next. */
  ghost predicate IsRun(run: seq<State>, acts: seq<Action>) {
    && |run| == |acts| + 1 && Init(run[0])
    && forall i :: 0 <= i < |acts| ==> Enabled(run[i], acts[i]) && run[i+1] == Apply(run[i], acts[i])
  }

  /** The record still matters: its worker runs, or its failure is within the retention. */
  ghost predicate Live(s: State, r: RecordId) {
    && r in s.records
    && (r in s.workers || (s.records[r].failure.Some? && s.now <= s.records[r].createdAt + RETENTION))
  }

  ghost predicate InMap(s: State, r: RecordId)
    requires r in s.records
  {
    s.records[r].challenge in s.proc && s.proc[s.records[r].challenge] == r
  }

  /** Every live record is the one the map holds for its challenge. */
  ghost predicate Safe(s: State) {
    forall r :: Live(s, r) ==> InMap(s, r)
  }

  /** A deletion that takes away a live record. */
  ghost predicate RemovesLive(s: State, a: Action) {
    && a.Delete? && a.q in s.requests && s.requests[a.q].Deleting?
    && s.requests[a.q].key in s.proc && Live(s, s.proc[s.requests[a.q].key])
  }

  /** A deletion that finds the key as the test left it, or empty. */
  ghost predicate Clean(s: State, a: Action) {
    a.Delete? && a.q in s.requests && s.requests[a.q].Deleting? ==>
      var req := s.requests[a.q];
      req.key in s.proc ==> s.proc[req.key] == req.tested
  }

  /** What a challenge answer or an authorization poll reads for a challenge. */
  ghost function View(s: State, c: ChallengeId): Option<Option<Problem>> {
    if c in s.proc && s.proc[c] in s.records then Some(s.records[s.proc[c]].failure) else None
  }

  // ---------- the invariant ----------

  ghost predicate MapOk(s: State) {
    forall c :: c in s.proc ==>
      && s.proc[c] in s.records && s.records[s.proc[c]].challenge == c
      && (s.records[s.proc[c]].failure.None? ==> s.proc[c] in s.workers)
  }

  ghost predicate RecordsOk(s: State) {
    forall r :: r in s.records ==>
      && s.records[r].createdAt <= s.now
      && (s.records[r].failure.Some? ==> r !in s.workers)
      && (s.records[r].failure.Some? && s.now <= s.records[r].createdAt + RETENTION ==> InMap(s, r))
  }

  ghost predicate RequestsOk(s: State) {
    forall q :: q in s.requests ==>
      var req := s.requests[q];
      && (!req.Begun? ==> req.clock <= s.now <= req.clock + BEGIN_LIMIT)
      && (req.Deleting? ==>
            && req.tested in s.records && s.records[req.tested].challenge == req.key
            && req.clock > s.records[req.tested].createdAt + RETENTION)
  }

  ghost predicate WorkerOk(s: State, r: RecordId)
    requires r in s.workers
  {
    && r in s.records && InMap(s, r) && WorkerInTime(s, r, s.now)
    && (!s.workers[r].Spawned? ==> s.workers[r].deadline <= s.records[r].createdAt + RETENTION)
  }

  ghost predicate WorkersOk(s: State) {
    forall r :: r in s.workers ==> WorkerOk(s, r)
  }

  ghost predicate Inv(s: State) {
    MapOk(s) && RecordsOk(s) && RequestsOk(s) && WorkersOk(s)
  }

  /** The timing argument: a record that tested stale can no longer be live. */
  lemma CleanRemovesNothingLive(s: State, a: Action)
    requires Inv(s) && Clean(s, a)
    ensures !RemovesLive(s, a)
  {
  }

  lemma InvStep(s: State, a: Action)
    requires Inv(s) && Enabled(s, a) && !RemovesLive(s, a)
    ensures Inv(Apply(s, a))
  {
    assert MapOk(Apply(s, a));
    assert RequestsOk(Apply(s, a));
    RecordsKept(s, a);
    WorkersKept(s, a);
  }

  lemma RecordsKept(s: State, a: Action)
    requires Inv(s) && Enabled(s, a) && !RemovesLive(s, a)
    ensures RecordsOk(Apply(s, a))
  {
  }

  lemma WorkersKept(s: State, a: Action)
    requires Inv(s) && Enabled(s, a) && !RemovesLive(s, a)
    ensures WorkersOk(Apply(s, a))
  {
    var s' := Apply(s, a);
    forall r | r in s'.workers ensures WorkerOk(s', r) {
      if r in s.workers { assert WorkerOk(s, r); }
      if a.Finish? { assert WorkerOk(s, a.r); }
    }
  }

  // ---------- whole runs ----------

  ghost predicate SparesLive(run: seq<State>, acts: seq<Action>)
    requires |run| == |acts| + 1
  {
    forall i :: 0 <= i < |acts| ==> !RemovesLive(run[i], acts[i])
  }

  lemma {:induction false} RunInv(run: seq<State>, acts: seq<Action>, i: nat)
    requires IsRun(run, acts) && i < |run|
    requires forall k :: 0 <= k < i ==> !RemovesLive(run[k], acts[k])
    ensures Inv(run[i])
  {
    if i > 0 {
      RunInv(run, acts, i - 1);
      InvStep(run[i-1], acts[i-1]);
    }
  }

  lemma {:induction false} SafeMeansSpared(run: seq<State>, acts: seq<Action>, i: nat)
    requires IsRun(run, acts) && i <= |acts| && forall k :: 0 <= k < |run| ==> Safe(run[k])
    ensures forall k :: 0 <= k < i ==> !RemovesLive(run[k], acts[k])
  {
    if i > 0 {
      SafeMeansSpared(run, acts, i - 1);
      RunInv(run, acts, i - 1);
      var s, a := run[i-1], acts[i-1];
      if RemovesLive(s, a) {
        var r := s.proc[s.requests[a.q].key];
        assert Live(run[i], r) && !InMap(run[i], r);
      }
    }
  }

  /** In every run, live records stay in the map exactly when no deletion takes one away. */
  lemma SafeExactlyWhenLiveSpared(run: seq<State>, acts: seq<Action>)
    requires IsRun(run, acts)
    ensures (forall i :: 0 <= i < |run| ==> Safe(run[i])) <==> SparesLive(run, acts)
  {
    if SparesLive(run, acts) {
      forall i | 0 <= i < |run| ensures Safe(run[i]) { RunInv(run, acts, i); }
    } else if forall i :: 0 <= i < |run| ==> Safe(run[i]) {
      SafeMeansSpared(run, acts, |acts|);
    }
  }

  /** Runs whose deletions find what they tested - in particular those with atomic sweeps. */
  ghost predicate IsCleanRun(run: seq<State>, acts: seq<Action>) {
    IsRun(run, acts) && forall i :: 0 <= i < |acts| ==> Clean(run[i], acts[i])
  }

  lemma {:induction false} CleanRunInv(run: seq<State>, acts: seq<Action>, i: nat)
    requires IsCleanRun(run, acts) && i < |run|
    ensures Inv(run[i])
    ensures forall k :: 0 <= k < i ==> !RemovesLive(run[k], acts[k])
  {
    if i > 0 {
      CleanRunInv(run, acts, i - 1);
      CleanRemovesNothingLive(run[i-1], acts[i-1]);
      RunInv(run, acts, i);
    }
  }

  /** So atomic sweeps spare live records, and everything below holds of them. */
  lemma CleanRunsSpareLive(run: seq<State>, acts: seq<Action>)
    requires IsCleanRun(run, acts)
    ensures IsRun(run, acts) && SparesLive(run, acts)
  {
    CleanRunInv(run, acts, |acts|);
  }

  /** At most one worker per challenge, and its record is in the map, so it deletes its own. */
  lemma OneWorkerPerChallenge(run: seq<State>, acts: seq<Action>, i: nat, r: RecordId)
    requires IsRun(run, acts) && SparesLive(run, acts) && i < |run| && r in run[i].workers
    ensures r in run[i].records && InMap(run[i], r)
    ensures View(run[i], run[i].records[r].challenge) == Some(None)
    ensures forall r' :: r' in run[i].workers && r' != r ==>
              r' in run[i].records && run[i].records[r'].challenge != run[i].records[r].challenge
    ensures i < |acts| && acts[i] == Finish(r) ==>
              run[i+1].proc == run[i].proc - {run[i].records[r].challenge} && r !in run[i+1].proc.Values
  {
    RunInv(run, acts, i);
    var s := run[i];
    forall c | c in s.proc && s.proc[c] == r ensures c == s.records[r].challenge { }
  }

  ghost predicate HasFailed(s: State, r: RecordId) {
    r in s.records && s.records[r].failure.Some?
  }

  /** Every running worker has a record, without a failure. */
  ghost predicate WorkersUnfailed(s: State) {
    forall r :: r in s.workers ==> r in s.records && s.records[r].failure.None?
  }

  lemma {:induction false} WorkersNeverFailed(run: seq<State>, acts: seq<Action>, i: nat)
    requires IsRun(run, acts) && i < |run|
    ensures WorkersUnfailed(run[i])
  {
    if i > 0 {
      WorkersNeverFailed(run, acts, i - 1);
      StepKeepsFailures(run[i-1], acts[i-1]);
    }
  }

  lemma StepKeepsFailures(s: State, a: Action)
    requires WorkersUnfailed(s) && Enabled(s, a)
    ensures WorkersUnfailed(Apply(s, a))
    ensures forall r :: HasFailed(s, r) ==> HasFailed(Apply(s, a), r) && Apply(s, a).records[r] == s.records[r]
  {
  }

  /** Nothing changes a recorded failure, in any run. */
  lemma {:induction false} FailureKept(run: seq<State>, acts: seq<Action>, i: nat, j: nat, r: RecordId)
    requires IsRun(run, acts) && i <= j < |run| && HasFailed(run[i], r)
    ensures HasFailed(run[j], r) && run[j].records[r] == run[i].records[r]
  {
    if i < j {
      FailureKept(run, acts, i, j - 1, r);
      WorkersNeverFailed(run, acts, j - 1);
      StepKeepsFailures(run[j-1], acts[j-1]);
    }
  }

  /**
    A recorded failure is what every later read of its challenge returns until the
    retention is over, and until then no worker runs for that challenge.
  */
  lemma FailureVisibleForRetention(run: seq<State>, acts: seq<Action>, i: nat, j: nat, r: RecordId)
    requires IsRun(run, acts) && SparesLive(run, acts) && i <= j < |run| && HasFailed(run[i], r)
    requires run[j].now <= run[i].records[r].createdAt + RETENTION
    ensures View(run[j], run[i].records[r].challenge) == Some(run[i].records[r].failure)
    ensures forall r' :: r' in run[j].workers ==>
              r' in run[j].records && run[j].records[r'].challenge != run[i].records[r].challenge
  {
    FailureKept(run, acts, i, j, r);
    RunInv(run, acts, j);
  }

  // ---------- overlapping sweeps ----------

  lemma Extend(run: seq<State>, acts: seq<Action>, a: Action) returns (run': seq<State>, acts': seq<Action>)
    requires IsRun(run, acts) && Enabled(run[|acts|], a)
    ensures IsRun(run', acts') && run'[|acts'|] == Apply(run[|acts|], a)
  {
    run', acts' := run + [Apply(run[|acts|], a)], acts + [a];
  }

  const FAILED: Record := Record("k", 0, Some(Problem("dns", "deploy failed")))

  lemma RecordedFailure() returns (run: seq<State>, acts: seq<Action>)
    ensures IsRun(run, acts)
    ensures run[|acts|] == State(0, map["k" := 0], map[0 := FAILED], map[], map[])
  {
    run, acts := [State(0, map[], map[], map[], map[])], [];
    run, acts := Extend(run, acts, Post(0, "k"));
    run, acts := Extend(run, acts, ReadClock(0));
    run, acts := Extend(run, acts, LoadOrStore(0, 0));
    assert run[|acts|].workers == map[0 := Spawned];
    run, acts := Extend(run, acts, StartWorker(0));
    run, acts := Extend(run, acts, Fail(0, Problem("dns", "deploy failed")));
  }

  /** The failure has outlived its retention, and two requests have read the clock. */
  lemma StaleFailure() returns (run: seq<State>, acts: seq<Action>)
    ensures IsRun(run, acts)
    ensures var late := RETENTION + 1;
      run[|acts|] == State(late, map["k" := 0], map[0 := FAILED], map[1 := Clocked("x", late), 2 := Clocked("y", late)], map[])
  {
    run, acts := RecordedFailure();
    run, acts := Extend(run, acts, Tick(RETENTION + 1));
    run, acts := Extend(run, acts, Post(1, "x"));
    run, acts := Extend(run, acts, ReadClock(1));
    assert run[|acts|].requests == map[1 := Clocked("x", RETENTION + 1)];
    run, acts := Extend(run, acts, Post(2, "y"));
    run, acts := Extend(run, acts, ReadClock(2));
  }

  /** Both test the record, the first deletes it, and challenge "k" is answered again. */
  lemma FreshRecordUnderStaleTest() returns (run: seq<State>, acts: seq<Action>)
    ensures IsRun(run, acts)
    ensures var late := RETENTION + 1;
      run[|acts|] == State(late, map["k" := 1], map[0 := FAILED, 1 := Record("k", late, None)],
                           map[1 := Clocked("x", late), 2 := Deleting("y", late, "k", 0)], map[1 := Spawned])
  {
    run, acts := StaleFailure();
    run, acts := Extend(run, acts, Test(1, "k"));
    run, acts := Extend(run, acts, Test(2, "k"));
    run, acts := Extend(run, acts, Delete(1));
    var late := RETENTION + 1;
    assert run[|acts|] == State(late, map[], map[0 := FAILED],
                                map[1 := Clocked("x", late), 2 := Deleting("y", late, "k", 0)], map[]);
    run, acts := Extend(run, acts, Post(3, "k"));
    run, acts := Extend(run, acts, ReadClock(3));
    run, acts := Extend(run, acts, LoadOrStore(3, 1));
  }

  /** Without clean deletions the guarantee fails: two workers run for challenge "k". */
  lemma OverlappingSweepsAllowTwoWorkers() returns (run: seq<State>, acts: seq<Action>)
    ensures IsRun(run, acts)
    ensures var s := run[|acts|];
      1 in s.workers && 2 in s.workers && 1 in s.records && 2 in s.records &&
      s.records[1].challenge == s.records[2].challenge
  {
    run, acts := FreshRecordUnderStaleTest();
    run, acts := Extend(run, acts, Delete(2));
    run, acts := Extend(run, acts, Post(4, "k"));
    run, acts := Extend(run, acts, ReadClock(4));
    run, acts := Extend(run, acts, LoadOrStore(4, 2));
  }

  // ---------- the code of one call, as clean steps of the machine ----------

  ghost predicate CleanNext(s: State, s': State) {
    exists a :: Enabled(s, a) && Clean(s, a) && s' == Apply(s, a)
  }

  /** Testing a stale record and deleting it at once is clean, and only empties the key. */
  lemma EvictionSteps(s: State, m: State, q: RequestId, k: ChallengeId) returns (s': State)
    requires Reaches(CleanNext, s, m) && Enabled(m, Test(q, k))
    ensures Reaches(CleanNext, s, s') && s' == m.(proc := m.proc - {k})
  {
    ReachesStep(CleanNext, s, m, Apply(m, Test(q, k)));
    var m1 := Apply(m, Test(q, k));
    ReachesStep(CleanNext, s, m1, Apply(m1, Delete(q)));
    s' := Apply(m1, Delete(q));
    assert s'.requests == m.requests;
  }

  predicate Stale(rec: Record, now: Time) {
    now > rec.createdAt + RETENTION
  }

  class Handler {
    var proc: map<ChallengeId, RecordId>
    var records: map<RecordId, Record>

    ghost predicate Valid()
      reads this
    {
      forall c :: c in proc ==> proc[c] in records
    }

    method EvictStaleChallengeProc(now: Time, ghost s: State, ghost m: State, ghost q: RequestId) returns (ghost s': State)
      requires Valid() && Reaches(CleanNext, s, m) && m.proc == proc && m.records == records
      requires q in m.requests && m.requests[q].Clocked? && m.requests[q].clock == now
      modifies this`proc
      ensures Valid() && Reaches(CleanNext, s, s') && s' == m.(proc := proc)
      ensures proc == map c | c in old(proc) && now <= records[old(proc)[c]].createdAt + 3600 * SECOND :: old(proc)[c]
    {
      s' := m;
      var todo := proc.Keys;
      while todo != {}
        invariant Valid() && todo <= proc.Keys <= old(proc).Keys
        invariant Reaches(CleanNext, s, s') && s' == m.(proc := proc)
        invariant forall c :: c in proc ==> proc[c] == old(proc)[c]
        invariant forall c :: c in old(proc) && c !in todo ==>
          (c in proc <==> !Stale(records[old(proc)[c]], now))
        decreases |todo|
      {
        var k :| k in todo;
        if Stale(records[proc[k]], now) {
          s' := EvictionSteps(s, s', q, k);
          proc := proc - {k};
        }
        todo := todo - {k};
      }
    }

    /**
      An undisturbed call: it starts a worker exactly when no record of the challenge
      survives the sweep, and its effect is a path of clean steps of request `q`.
    */
    method BeginChallengeProc(c: ChallengeId, now: Time, freshId: RecordId, ghost s: State, ghost q: RequestId)
      returns (record: RecordId, started: bool, ghost s': State)
      requires Valid() && freshId !in records
      requires s.proc == proc && s.records == records && s.now == now
      requires q in s.requests && s.requests[q] == Begun(c)
      modifies this
      ensures Valid() && Reaches(CleanNext, s, s') && s'.proc == proc && s'.records == records
      ensures started <==> (c !in old(proc) || now > old(records)[old(proc)[c]].createdAt + 3600 * SECOND)
      ensures c in proc && proc[c] == record
      ensures started ==> record == freshId && records == old(records)[freshId := Record(c, now, None)]
      ensures started ==> s'.workers == s.workers[freshId := Spawned]
      ensures !started ==> record == old(proc)[c] && records == old(records) && s'.workers == s.workers
    {
      ReachesSelf(CleanNext, s);
      ReachesStep(CleanNext, s, s, Apply(s, ReadClock(q)));
      s' := EvictStaleChallengeProc(now, s, Apply(s, ReadClock(q)), q);
      ReachesStep(CleanNext, s, s', Apply(s', LoadOrStore(q, freshId)));
      s' := Apply(s', LoadOrStore(q, freshId));
      if c in proc {
        return proc[c], false, s';
      }
      records := records[freshId := Record(c, now, None)];
      proc := proc[c := freshId];
      return freshId, true, s';
    }
  }
}
