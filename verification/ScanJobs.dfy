/** Scan jobs: the store's operations on one record (internal/store/memory.go), the worker's decisions
    (internal/scan/queue.go), and the proof that the queue runs the lease protocol. */
module ScanJobs {
  import opened Backoff
  import opened Wrappers
  import L = LeaseProtocol

  /** Unset is the empty status string a caller may hand to EnqueueScanJob. */
  datatype JobStatus = Unset | Queued | Running | Succeeded | Failed

  datatype ScanJob = ScanJob(
    id: string, hostID: string, trigger: string, status: JobStatus, attempts: nat, maxAttempts: int,
    workerID: string, leaseUntil: Option<nat>, nextAttemptAt: nat, scanID: string, error: string,
    createdAt: nat, updatedAt: nat)

  type Jobs = map<string, ScanJob>

  // ---------------------------------------------------------------- operations on records

  predicate Active(j: ScanJob) {
    j.status == Queued || j.status == Running
  }

  predicate HasActive(jobs: Jobs, host: string) {
    exists id :: id in jobs && jobs[id].hostID == host && Active(jobs[id])
  }

  /** The record EnqueueScanJob stores: defaults filled in. */
  function Defaulted(j: ScanJob, uuid: string, now: nat): ScanJob {
    j.(id := if j.id == "" then uuid else j.id,
       status := if j.status == Unset then Queued else j.status,
       maxAttempts := if j.maxAttempts <= 0 then 3 else j.maxAttempts,
       nextAttemptAt := if j.nextAttemptAt == 0 then now else j.nextAttemptAt,
       createdAt := if j.createdAt == 0 then now else j.createdAt,
       updatedAt := now)
  }

  predicate Claimable(j: ScanJob, now: nat) {
    || (j.status == Queued && j.nextAttemptAt <= now)
    || (j.status == Running && j.leaseUntil.Some? && j.leaseUntil.value <= now)
  }

  /** id is claimable, and no claimable job is older. */
  ghost predicate OldestClaimable(jobs: Jobs, id: string, now: nat) {
    && id in jobs && Claimable(jobs[id], now)
    && forall other :: other in jobs && Claimable(jobs[other], now) ==> jobs[id].createdAt <= jobs[other].createdAt
  }

  function Claimed(j: ScanJob, worker: string, now: nat, lease: nat): ScanJob {
    j.(status := Running, workerID := worker, leaseUntil := Some(now + lease), attempts := j.attempts + 1,
       updatedAt := now)
  }

  predicate Owned(jobs: Jobs, id: string, worker: string) {
    id in jobs && jobs[id].status == Running && jobs[id].workerID == worker
  }

  function Renewed(j: ScanJob, until: nat, now: nat): ScanJob {
    j.(leaseUntil := Some(until), updatedAt := now)
  }

  function Completed(j: ScanJob, scanID: string, now: nat): ScanJob {
    j.(status := Succeeded, scanID := scanID, error := "", workerID := "", leaseUntil := None, updatedAt := now)
  }

  function GivenBack(j: ScanJob, message: string, retryAt: nat, terminal: bool, now: nat): ScanJob {
    j.(status := if terminal then Failed else Queued, nextAttemptAt := if terminal then j.nextAttemptAt else retryAt,
       error := message, workerID := "", leaseUntil := None, updatedAt := now)
  }

  // ---------------------------------------------------------------- the worker's decisions

  /** The retry delay of Queue.fail. */
  function RetryDelay(attempts: nat): nat {
    var shift := if attempts >= 1 then attempts - 1 else 0;
    var delay := Doubled(5 * SECOND, if shift < 6 then shift else 6);
    if delay > 300 * SECOND then 300 * SECOND else delay
  }

  lemma SixDoublings()
    ensures Doubled(5 * SECOND, 6) == 320 * SECOND
  {
    assert Doubled(5 * SECOND, 1) == 10 * SECOND;
    assert Doubled(5 * SECOND, 2) == 20 * SECOND;
    assert Doubled(5 * SECOND, 3) == 40 * SECOND;
    assert Doubled(5 * SECOND, 4) == 80 * SECOND;
    assert Doubled(5 * SECOND, 5) == 160 * SECOND;
  }

  /** The clamp on the shift is invisible: the delay is min(5s * 2^(attempts-1), 5min) for any count but
      zero, which never gets here and is treated as one. */
  lemma RetryDelayIsCappedDoubling(attempts: nat)
    ensures attempts == 0 ==> RetryDelay(attempts) == 5 * SECOND
    ensures attempts > 0 ==>
              var delay := Doubled(5 * SECOND, attempts - 1);
              RetryDelay(attempts) == if delay < 300 * SECOND then delay else 300 * SECOND
  {
    SixDoublings();
    if attempts - 1 >= 6 {
      DoubledGrows(5 * SECOND, 6, attempts - 1);
    }
  }

  predicate IsTerminal(claimed: ScanJob) {
    claimed.attempts >= claimed.maxAttempts
  }

  /** What Queue.Enqueue hands to the store. */
  function Request(host: string, trigger: string): ScanJob {
    ScanJob("", host, trigger, Queued, 0, 3, "", None, 0, "", "", 0, 0)
  }

  // ---------------------------------------------------------------- the whole queue, as interleaved steps

  /** The store's jobs, the hosts it knows, and, as in the lease protocol, the workers and the history. */
  datatype System = System(jobs: Jobs, hosts: set<string>, workers: map<string, L.Phase>,
                           claims: map<string, seq<string>>, completions: map<string, nat>, ingests: seq<L.Ingest>)

  datatype Step =
    | Enqueue(host: string, trigger: string, uuid: string, now: nat)
    | Claim(w: string, id: string, now: nat, lease: nat)
    | Heartbeat(w: string, id: string, until: nat, now: nat)
    | Validate(w: string, until: nat, now: nat)
    | Ingest(w: string)
    | Complete(w: string, scanID: string, now: nat)
    | Fail(w: string, message: string, retryAt: nat, now: nat)
    | Crash(w: string)
    | SetHosts(hosts: set<string>)

  function PhaseOf(s: System, w: string): L.Phase {
    if w in s.workers then s.workers[w] else L.Idle
  }

  predicate Holds(s: System, w: string) {
    PhaseOf(s, w).Busy? && Owned(s.jobs, PhaseOf(s, w).id, w)
  }

  ghost predicate Enabled(s: System, step: Step) {
    match step
    case Enqueue(_, _, uuid, now) => uuid != "" && uuid !in s.claims && now > 0
    case Claim(w, id, now, _) => w != "" && PhaseOf(s, w).Idle? && id in s.claims && OldestClaimable(s.jobs, id, now)
    case Heartbeat(_, _, _, _) => true
    case Validate(w, _, _) => PhaseOf(s, w).Busy? && PhaseOf(s, w).id in s.claims
    case Ingest(w) => PhaseOf(s, w).Busy? && PhaseOf(s, w).validated.Some?
    case Complete(w, _, _) => PhaseOf(s, w).Busy? && PhaseOf(s, w).id in s.completions
    case Fail(w, _, _, _) => PhaseOf(s, w).Busy?
    case Crash(w) => !PhaseOf(s, w).Crashed?
    case SetHosts(_) => true
  }

  ghost function Apply(s: System, step: Step): System
    requires Enabled(s, step)
  {
    match step
    case Enqueue(host, trigger, uuid, now) =>
      if host !in s.hosts || HasActive(s.jobs, host) then s
      else s.(jobs := s.jobs[uuid := Defaulted(Request(host, trigger), uuid, now)], claims := s.claims[uuid := []],
              completions := s.completions[uuid := 0])
    case Claim(w, id, now, lease) =>
      var j := Claimed(s.jobs[id], w, now, lease);
      s.(jobs := s.jobs[id := j],
         workers :=
           s.workers[w := L.Busy(id, |s.claims[id]|, j.attempts, if j.maxAttempts > 0 then j.maxAttempts else 0, None)],
         claims := s.claims[id := s.claims[id] + [w]])
    case Heartbeat(w, id, until, now) =>
      if Owned(s.jobs, id, w) then s.(jobs := s.jobs[id := Renewed(s.jobs[id], until, now)]) else s
    case Validate(w, until, now) =>
      var p := PhaseOf(s, w);
      if Holds(s, w) then
        s.(jobs := s.jobs[p.id := Renewed(s.jobs[p.id], until, now)],
           workers := s.workers[w := p.(validated := Some(|s.claims[p.id]|))])
      else s
    case Ingest(w) =>
      var p := PhaseOf(s, w);
      s.(ingests := s.ingests + [L.Ingest(p.id, w, p.epoch, p.validated.value)])
    case Complete(w, scanID, now) =>
      var p := PhaseOf(s, w);
      var idle := s.(workers := s.workers[w := L.Idle]);
      if Holds(s, w) then
        idle.(jobs := s.jobs[p.id := Completed(s.jobs[p.id], scanID, now)],
              completions := s.completions[p.id := s.completions[p.id] + 1])
      else idle
    case Fail(w, message, retryAt, now) =>
      var p := PhaseOf(s, w);
      var idle := s.(workers := s.workers[w := L.Idle]);
      if Holds(s, w) then
        idle.(jobs := s.jobs[p.id := GivenBack(s.jobs[p.id], message, retryAt, p.attempts >= p.max, now)])
      else idle
    case Crash(w) => s.(workers := s.workers[w := L.Crashed])
    case SetHosts(hosts) => s.(hosts := hosts)
  }

  function Initial(hosts: set<string>): System {
    System(map[], hosts, map[], map[], map[], [])
  }

  // ---------------------------------------------------------------- refinement

  function ItemOf(j: ScanJob): L.Item {
    L.Item(match j.status case Running => L.Held case Succeeded => L.Succeeded case Failed => L.Failed
           case _ => L.Waiting, j.workerID, j.leaseUntil, j.attempts, if j.maxAttempts > 0 then j.maxAttempts else 0)
  }

  function Items(jobs: Jobs): map<string, L.Item> {
    map id | id in jobs :: ItemOf(jobs[id])
  }

  function Abstract(s: System): L.System {
    L.System(Items(s.jobs), s.workers, s.claims, s.completions, s.ingests)
  }

  ghost function AbstractStep(s: System, step: Step): L.Step {
    match step
    case Enqueue(host, _, uuid, _) =>
      if host !in s.hosts || HasActive(s.jobs, host) then L.Stutter else L.Create({uuid}, 3)
    case Claim(w, id, now, lease) => L.Claim(w, id, now, now + lease)
    case Heartbeat(w, id, until, _) => L.Heartbeat(w, id, until)
    case Validate(w, until, _) => L.Validate(w, until)
    case Ingest(w) => L.Store(w)
    case Complete(w, _, _) => L.Complete(w)
    case Fail(w, _, _, _) => L.Fail(w, false)
    case Crash(w) => L.Crash(w)
    case SetHosts(_) => L.Stutter
  }

  lemma ItemsUpdate(jobs: Jobs, id: string, j: ScanJob)
    ensures Items(jobs[id := j]) == Items(jobs)[id := ItemOf(j)]
  {
  }

  lemma EnqueueRefines(s: System, step: Step)
    requires Enabled(s, step) && step.Enqueue?
    ensures L.Enabled(Abstract(s), AbstractStep(s, step))
    ensures Abstract(Apply(s, step)) == L.Apply(Abstract(s), AbstractStep(s, step))
  {
    if step.host in s.hosts && !HasActive(s.jobs, step.host) {
      var uuid := step.uuid;
      ItemsUpdate(s.jobs, uuid, Defaulted(Request(step.host, step.trigger), uuid, step.now));
      L.AddingOne(Items(s.jobs), uuid, L.NewItem(3));
      L.AddingOne(s.claims, uuid, L.NO_CLAIMS);
      L.AddingOne(s.completions, uuid, 0);
    }
  }

  lemma ClaimRefines(s: System, step: Step)
    requires Enabled(s, step) && step.Claim?
    ensures L.Enabled(Abstract(s), AbstractStep(s, step))
    ensures Abstract(Apply(s, step)) == L.Apply(Abstract(s), AbstractStep(s, step))
  {
    ItemsUpdate(s.jobs, step.id, Claimed(s.jobs[step.id], step.w, step.now, step.lease));
  }

  lemma RenewalRefines(s: System, step: Step)
    requires Enabled(s, step) && (step.Heartbeat? || step.Validate?)
    ensures L.Enabled(Abstract(s), AbstractStep(s, step))
    ensures Abstract(Apply(s, step)) == L.Apply(Abstract(s), AbstractStep(s, step))
  {
    var id := if step.Heartbeat? then step.id else PhaseOf(s, step.w).id;
    if Owned(s.jobs, id, step.w) { ItemsUpdate(s.jobs, id, Renewed(s.jobs[id], step.until, step.now)); }
  }

  lemma CompleteRefines(s: System, step: Step)
    requires Enabled(s, step) && step.Complete?
    ensures L.Enabled(Abstract(s), AbstractStep(s, step))
    ensures Abstract(Apply(s, step)) == L.Apply(Abstract(s), AbstractStep(s, step))
  {
    var id := PhaseOf(s, step.w).id;
    if Holds(s, step.w) { ItemsUpdate(s.jobs, id, Completed(s.jobs[id], step.scanID, step.now)); }
  }

  lemma FailRefines(s: System, step: Step)
    requires Enabled(s, step) && step.Fail?
    ensures L.Enabled(Abstract(s), AbstractStep(s, step))
    ensures Abstract(Apply(s, step)) == L.Apply(Abstract(s), AbstractStep(s, step))
  {
    var p := PhaseOf(s, step.w);
    if Holds(s, step.w) {
      ItemsUpdate(s.jobs, p.id, GivenBack(s.jobs[p.id], step.message, step.retryAt, p.attempts >= p.max, step.now));
    }
  }

  /** Every step of the queue is a step of the lease protocol. */
  lemma StepRefines(s: System, step: Step)
    requires Enabled(s, step)
    ensures L.Enabled(Abstract(s), AbstractStep(s, step))
    ensures Abstract(Apply(s, step)) == L.Apply(Abstract(s), AbstractStep(s, step))
  {
    match step
    case Enqueue(_, _, _, _) => EnqueueRefines(s, step);
    case Claim(_, _, _, _) => ClaimRefines(s, step);
    case Heartbeat(_, _, _, _) => RenewalRefines(s, step);
    case Validate(_, _, _) => RenewalRefines(s, step);
    case Complete(_, _, _) => CompleteRefines(s, step);
    case Fail(_, _, _, _) => FailRefines(s, step);
    case Ingest(_) =>
    case Crash(_) =>
    case SetHosts(_) =>
  }

  // ---------------------------------------------------------------- reachable states

  ghost predicate OneActivePerHost(jobs: Jobs) {
    forall a, b :: a in jobs && b in jobs && Active(jobs[a]) && Active(jobs[b]) && jobs[a].hostID == jobs[b].hostID ==>
      a == b
  }

  ghost predicate WellNamed(jobs: Jobs) {
    forall id :: id in jobs ==> jobs[id].id == id && jobs[id].status != Unset && jobs[id].maxAttempts > 0
  }

  ghost predicate Inv(s: System) {
    L.Inv(Abstract(s)) && OneActivePerHost(s.jobs) && WellNamed(s.jobs)
  }

  lemma SameHostKeepsOneActive(jobs: Jobs, id: string, j: ScanJob)
    requires OneActivePerHost(jobs) && id in jobs && j.hostID == jobs[id].hostID && Active(jobs[id])
    ensures OneActivePerHost(jobs[id := j])
  {
  }

  lemma UpdateKeepsOneActive(jobs: Jobs, id: string, j: ScanJob)
    requires OneActivePerHost(jobs) && WellNamed(jobs) && id in jobs
    requires j.hostID == jobs[id].hostID && j.id == id && j.maxAttempts == jobs[id].maxAttempts && j.status != Unset
    requires Active(j) ==> Active(jobs[id])
    ensures OneActivePerHost(jobs[id := j]) && WellNamed(jobs[id := j])
  {
  }

  lemma EnqueueKeepsOneActive(jobs: Jobs, host: string, trigger: string, uuid: string, now: nat)
    requires OneActivePerHost(jobs) && WellNamed(jobs) && !HasActive(jobs, host)
    ensures var j := Defaulted(Request(host, trigger), uuid, now);
            OneActivePerHost(jobs[uuid := j]) && WellNamed(jobs[uuid := j])
  {
  }

  lemma StepKeepsOneActive(s: System, step: Step)
    requires Inv(s) && Enabled(s, step)
    ensures OneActivePerHost(Apply(s, step).jobs) && WellNamed(Apply(s, step).jobs)
  {
    match step
    case Enqueue(host, trigger, uuid, now) =>
      if !HasActive(s.jobs, host) { EnqueueKeepsOneActive(s.jobs, host, trigger, uuid, now); }
    case Claim(w, id, now, lease) =>
      UpdateKeepsOneActive(s.jobs, id, Claimed(s.jobs[id], w, now, lease));
    case Heartbeat(w, id, until, now) =>
      if Owned(s.jobs, id, w) { UpdateKeepsOneActive(s.jobs, id, Renewed(s.jobs[id], until, now)); }
    case Validate(w, until, now) =>
      if Holds(s, w) { UpdateKeepsOneActive(s.jobs, PhaseOf(s, w).id, Renewed(s.jobs[PhaseOf(s, w).id], until, now)); }
    case Complete(w, scanID, now) =>
      if Holds(s, w) {
        UpdateKeepsOneActive(s.jobs, PhaseOf(s, w).id, Completed(s.jobs[PhaseOf(s, w).id], scanID, now));
      }
    case Fail(w, message, retryAt, now) =>
      var p := PhaseOf(s, w);
      if Holds(s, w) {
        UpdateKeepsOneActive(s.jobs, p.id, GivenBack(s.jobs[p.id], message, retryAt, p.attempts >= p.max, now));
      }
    case Ingest(_) =>
    case Crash(_) =>
    case SetHosts(_) =>
  }

  lemma StepKeepsInv(s: System, step: Step)
    requires Inv(s) && Enabled(s, step)
    ensures Inv(Apply(s, step))
  {
    StepRefines(s, step);
    L.StepKeepsInv(Abstract(s), AbstractStep(s, step));
    StepKeepsOneActive(s, step);
  }

  ghost predicate StepAt(run: seq<System>, steps: seq<Step>, k: nat)
    requires k < |steps| == |run| - 1
  {
    Enabled(run[k], steps[k]) && run[k + 1] == Apply(run[k], steps[k])
  }

  ghost predicate IsRun(run: seq<System>, steps: seq<Step>) {
    && |run| == |steps| + 1
    && run[0] == Initial(run[0].hosts)
    && forall k :: 0 <= k < |steps| ==> StepAt(run, steps, k)
  }

  lemma {:induction false} RunKeepsInv(run: seq<System>, steps: seq<Step>, k: nat)
    requires IsRun(run, steps) && k < |run|
    ensures Inv(run[k])
  {
    if k == 0 {
      assert Items(run[0].jobs) == map[];
    } else {
      RunKeepsInv(run, steps, k - 1);
      assert StepAt(run, steps, k - 1);
      StepKeepsInv(run[k - 1], steps[k - 1]);
    }
  }

  /** A step of the queue from s to s'. */
  ghost predicate Leads(s: System, step: Step, s': System) {
    s.jobs.Keys <= s.claims.Keys && Enabled(s, step) && s' == Apply(s, step)
  }

  lemma RunLeads(run: seq<System>, steps: seq<Step>, k: nat)
    requires IsRun(run, steps) && k + 1 < |run|
    ensures Leads(run[k], steps[k], run[k + 1])
  {
    assert StepAt(run, steps, k);
    RunKeepsInv(run, steps, k);
    assert Abstract(run[k]).items.Keys == run[k].jobs.Keys;
  }

  /** In every reachable store: one active job per host; worker id and lease exactly while running; a
      queued job has attempts left. */
  lemma ReachableJobs(run: seq<System>, steps: seq<Step>, k: nat, id: string)
    requires IsRun(run, steps) && k < |run| && id in run[k].jobs
    ensures OneActivePerHost(run[k].jobs)
    ensures var j := run[k].jobs[id];
            && (j.status == Running <==> j.workerID != "") && (j.status == Running <==> j.leaseUntil.Some?)
            && (j.status == Queued ==> j.attempts < j.maxAttempts)
  {
    RunKeepsInv(run, steps, k);
    var a := Abstract(run[k]);
    assert L.ItemOK(a.items[id], a.claims[id], a.completions[id]);
  }

  /** Fencing: when the store accepts a renewal, a completion or a failure from worker w, no other worker
      has claimed the job since w did. */
  lemma AcceptedMeansUncontested(run: seq<System>, steps: seq<Step>, k: nat, w: string)
    requires IsRun(run, steps) && k < |run| && Holds(run[k], w)
    ensures var p := PhaseOf(run[k], w);
            p.id in run[k].claims && p.epoch == |run[k].claims[p.id]| - 1 && run[k].claims[p.id][p.epoch] == w
  {
    RunKeepsInv(run, steps, k);
    L.OwnerMadeLatestClaim(Abstract(run[k]), w);
    assert L.PhaseOK(w, PhaseOf(run[k], w), Items(run[k].jobs), run[k].claims);
  }

  ghost function AbstractRun(run: seq<System>): seq<L.System> {
    seq(|run|, k requires 0 <= k < |run| => Abstract(run[k]))
  }

  ghost function AbstractSteps(run: seq<System>, steps: seq<Step>): seq<L.Step>
    requires |run| == |steps| + 1
  {
    seq(|steps|, k requires 0 <= k < |steps| => AbstractStep(run[k], steps[k]))
  }

  /** Every run of the queue is a run of the lease protocol. */
  lemma RunRefines(run: seq<System>, steps: seq<Step>)
    requires IsRun(run, steps)
    ensures L.IsRun(AbstractRun(run), AbstractSteps(run, steps))
  {
    var run', steps' := AbstractRun(run), AbstractSteps(run, steps);
    forall k | 0 <= k < |steps|
      ensures L.StepAt(run', steps', k)
    {
      assert StepAt(run, steps, k);
      StepRefines(run[k], steps[k]);
    }
  }

  /** Whenever the store accepts a call from a worker, the worker has claimed the job and nobody has since. */
  lemma HeldSince(run: seq<System>, steps: seq<Step>, k: nat, w: string) returns (c: nat)
    requires IsRun(run, steps) && k < |run| && Holds(run[k], w)
    ensures c < k && steps[c].Claim? && steps[c].w == w && steps[c].id == PhaseOf(run[k], w).id
    ensures forall j :: c < j < k && steps[j].Claim? ==> steps[j].w != w && steps[j].id != steps[c].id
  {
    RunRefines(run, steps);
    c := L.HeldSince(AbstractRun(run), AbstractSteps(run, steps), k, w);
    forall j | c < j < k && steps[j].Claim?
      ensures steps[j].w != w && steps[j].id != steps[c].id
    {
      assert AbstractSteps(run, steps)[j].Claim?;
    }
  }

  /** A worker that stores findings has claimed the job, and checked its ownership before anybody else claimed it. */
  lemma IngestedAfterCheck(run: seq<System>, steps: seq<Step>, k: nat) returns (c: nat, v: nat)
    requires IsRun(run, steps) && k < |steps| && steps[k].Ingest?
    ensures c < v < k && steps[c].Claim? && steps[c].w == steps[k].w && steps[v].Validate? && steps[v].w == steps[k].w
    ensures PhaseOf(run[k], steps[k].w).Busy? && PhaseOf(run[k], steps[k].w).id == steps[c].id
    ensures forall j :: c < j < k && steps[j].Claim? ==> steps[j].w != steps[k].w
    ensures forall j :: c < j < v && steps[j].Claim? ==> steps[j].id != steps[c].id
  {
    RunRefines(run, steps);
    var steps' := AbstractSteps(run, steps);
    c, v := L.StoredAfterCheck(AbstractRun(run), steps', k);
    assert forall j :: 0 <= j < |steps| ==> (steps'[j].Claim? <==> steps[j].Claim?);
  }

  /** Findings are stored only by a worker whose ownership check found its claim to be the latest one,
      and a job is completed at most once, exactly when it reads succeeded. */
  lemma IngestedMeansValidated(run: seq<System>, steps: seq<Step>, k: nat)
    requires IsRun(run, steps) && k < |run|
    ensures forall n :: 0 <= n < |run[k].ingests| ==> run[k].ingests[n].validated == run[k].ingests[n].epoch + 1
    ensures forall id :: id in run[k].jobs ==>
              id in run[k].completions && run[k].completions[id] == if run[k].jobs[id].status == Succeeded then 1 else 0
  {
    RunKeepsInv(run, steps, k);
    forall id | id in run[k].jobs
      ensures id in run[k].completions && run[k].completions[id] == if run[k].jobs[id].status == Succeeded then 1 else 0
    {
      var a := Abstract(run[k]);
      assert id in a.items && L.ItemOK(a.items[id], a.claims[id], a.completions[id]);
    }
  }

  predicate Finished(jobs: Jobs, id: string) {
    id in jobs && (jobs[id].status == Succeeded || jobs[id].status == Failed)
  }

  lemma FinishedStep(s: System, step: Step, s': System, id: string)
    requires Leads(s, step, s') && Finished(s.jobs, id)
    ensures id in s'.jobs && s'.jobs[id] == s.jobs[id]
  {
  }

  /** A job that succeeded or failed never changes again. */
  lemma {:induction false} FinishedIsFinal(run: seq<System>, steps: seq<Step>, i: nat, k: nat, id: string)
    requires IsRun(run, steps) && i <= k < |run| && Finished(run[i].jobs, id)
    ensures id in run[k].jobs && run[k].jobs[id] == run[i].jobs[id]
  {
    if i == k {
    } else {
      FinishedIsFinal(run, steps, i, k - 1, id);
      RunLeads(run, steps, k - 1);
      FinishedStep(run[k - 1], steps[k - 1], run[k], id);
    }
  }

  // ---------------------------------------------------------------- when a job is served

  /** The worker's call is accepted and is about this job. */
  predicate Serves(s: System, w: string, id: string) {
    Holds(s, w) && PhaseOf(s, w).id == id
  }

  /** The time the latest step that touched the job set for it: enqueued for now, leased until, to be tried
      again at. */
  ghost function DueAt(run: seq<System>, steps: seq<Step>, k: nat, id: string): nat
    requires |run| == |steps| + 1 && k < |run|
  {
    if k == 0 then 0 else NextDue(run[k - 1], steps[k - 1], run[k], id, DueAt(run, steps, k - 1, id))
  }

  ghost function NextDue(s: System, step: Step, s': System, id: string, due: nat): nat {
    match step
    case Enqueue(_, _, uuid, now) => if uuid == id && id !in s.jobs && id in s'.jobs then now else due
    case Claim(_, other, now, lease) => if other == id then now + lease else due
    case Heartbeat(w, other, until, _) => if other == id && Owned(s.jobs, id, w) then until else due
    case Validate(w, until, _) => if Serves(s, w, id) then until else due
    case Fail(w, _, retryAt, _) => if Serves(s, w, id) then retryAt else due
    case _ => due
  }

  ghost predicate DueIs(jobs: Jobs, id: string, due: nat) {
    id in jobs ==> (jobs[id].status == Queued ==> jobs[id].nextAttemptAt == due)
                   && (jobs[id].status == Running ==> jobs[id].leaseUntil == Some(due))
  }

  lemma RenewalKeepsDue(s: System, step: Step, s': System, id: string, due: nat)
    requires Leads(s, step, s') && DueIs(s.jobs, id, due) && (step.Heartbeat? || step.Validate?)
    ensures DueIs(s'.jobs, id, NextDue(s, step, s', id, due))
  {
  }

  lemma ReportKeepsDue(s: System, step: Step, s': System, id: string, due: nat)
    requires Leads(s, step, s') && DueIs(s.jobs, id, due) && (step.Complete? || step.Fail?)
    ensures DueIs(s'.jobs, id, NextDue(s, step, s', id, due))
  {
  }

  lemma OtherKeepsDue(s: System, step: Step, s': System, id: string, due: nat)
    requires Leads(s, step, s') && DueIs(s.jobs, id, due)
    requires !step.Heartbeat? && !step.Validate? && !step.Complete? && !step.Fail?
    ensures DueIs(s'.jobs, id, NextDue(s, step, s', id, due))
  {
  }

  lemma {:induction false} DueIsStored(run: seq<System>, steps: seq<Step>, k: nat, id: string)
    requires IsRun(run, steps) && k < |run|
    ensures DueIs(run[k].jobs, id, DueAt(run, steps, k, id))
  {
    if k == 0 {
    } else {
      DueIsStored(run, steps, k - 1, id);
      var s, step, s', due := run[k - 1], steps[k - 1], run[k], DueAt(run, steps, k - 1, id);
      RunLeads(run, steps, k - 1);
      if step.Heartbeat? || step.Validate? {
        RenewalKeepsDue(s, step, s', id, due);
      } else if step.Complete? || step.Fail? {
        ReportKeepsDue(s, step, s', id, due);
      } else {
        OtherKeepsDue(s, step, s', id, due);
      }
    }
  }

  /** Queued or running, and its time has come. */
  ghost predicate Due(run: seq<System>, steps: seq<Step>, k: nat, id: string, now: nat)
    requires |run| == |steps| + 1 && k < |run|
  {
    && id in run[k].jobs && (run[k].jobs[id].status == Queued || run[k].jobs[id].status == Running)
    && DueAt(run, steps, k, id) <= now
  }

  lemma DueExactlyWhenClaimable(run: seq<System>, steps: seq<Step>, k: nat, id: string, now: nat)
    requires IsRun(run, steps) && k < |run|
    ensures Due(run, steps, k, id, now) <==> id in run[k].jobs && Claimable(run[k].jobs[id], now)
    ensures id in run[k].jobs ==> id in run[k].claims
  {
    DueIsStored(run, steps, k, id);
    if id in run[k].jobs {
      ReachableJobs(run, steps, k, id);
      RunKeepsInv(run, steps, k);
      assert id in Abstract(run[k]).items.Keys;
    }
  }

  /** In every reachable store, an idle worker's claim at a given time gets a job exactly when that job is
      due then and no job that is due is older. */
  lemma ClaimedExactlyWhenDue(run: seq<System>, steps: seq<Step>, k: nat, w: string, id: string, now: nat, lease: nat)
    requires IsRun(run, steps) && k < |run| && w != "" && PhaseOf(run[k], w).Idle?
    ensures Enabled(run[k], Claim(w, id, now, lease)) <==>
            && Due(run, steps, k, id, now)
            && forall other :: Due(run, steps, k, other, now) ==>
                 run[k].jobs[id].createdAt <= run[k].jobs[other].createdAt
  {
    DueExactlyWhenClaimable(run, steps, k, id, now);
    forall other
      ensures Due(run, steps, k, other, now) <==> other in run[k].jobs && Claimable(run[k].jobs[other], now)
    {
      DueExactlyWhenClaimable(run, steps, k, other, now);
    }
  }

  /** Of some jobs, at least one, the oldest. */
  lemma OldestOf(jobs: Jobs, ids: set<string>) returns (id: string)
    requires ids != {} && ids <= jobs.Keys
    ensures id in ids && forall other :: other in ids ==> jobs[id].createdAt <= jobs[other].createdAt
    decreases |ids|
  {
    id :| id in ids;
    if ids != {id} {
      var other := OldestOf(jobs, ids - {id});
      if jobs[other].createdAt < jobs[id].createdAt { id := other; }
    }
  }

  /** A claim is refused exactly when no job is due. */
  lemma ServedExactlyWhenDue(run: seq<System>, steps: seq<Step>, k: nat, w: string, now: nat, lease: nat)
    requires IsRun(run, steps) && k < |run| && w != "" && PhaseOf(run[k], w).Idle?
    ensures (exists id :: Enabled(run[k], Claim(w, id, now, lease))) <==> exists id :: Due(run, steps, k, id, now)
  {
    var due := set id | id in run[k].jobs && Due(run, steps, k, id, now);
    if due != {} {
      var id := OldestOf(run[k].jobs, due);
      ClaimedExactlyWhenDue(run, steps, k, w, id, now, lease);
    }
    if id :| Enabled(run[k], Claim(w, id, now, lease)) { ClaimedExactlyWhenDue(run, steps, k, w, id, now, lease); }
    if id :| Due(run, steps, k, id, now) { assert id in due; }
  }

  ghost predicate NoClaimOf(steps: seq<Step>, i: nat, k: nat, id: string)
    requires i <= k <= |steps|
  {
    forall j :: i <= j < k ==> !(steps[j].Claim? && steps[j].id == id)
  }

  lemma QueuedStep(s: System, step: Step, s': System, id: string)
    requires Leads(s, step, s') && id in s.jobs && s.jobs[id].status == Queued
    requires !(step.Claim? && step.id == id)
    ensures id in s'.jobs && s'.jobs[id] == s.jobs[id]
  {
  }

  /** A queued job waits unchanged until it is claimed. */
  lemma {:induction false} QueuedWaits(run: seq<System>, steps: seq<Step>, i: nat, k: nat, id: string)
    requires IsRun(run, steps) && i <= k < |run| && NoClaimOf(steps, i, k, id)
    requires id in run[i].jobs && run[i].jobs[id].status == Queued
    ensures id in run[k].jobs && run[k].jobs[id] == run[i].jobs[id]
  {
    if i == k {
    } else {
      assert NoClaimOf(steps, i, k - 1, id);
      QueuedWaits(run, steps, i, k - 1, id);
      RunLeads(run, steps, k - 1);
      QueuedStep(run[k - 1], steps[k - 1], run[k], id);
    }
  }

  /** Backoff: once a failed attempt is to be tried again at a given time, the job is not claimed before;
      and from then on, for as long as it waits, no claim is refused. */
  lemma RetryWaits(run: seq<System>, steps: seq<Step>, i: nat, k: nat, id: string, w: string, now: nat, lease: nat)
    requires IsRun(run, steps) && i < k < |run| && NoClaimOf(steps, i + 1, k, id)
    requires steps[i].Fail? && Serves(run[i], steps[i].w, id)
    requires id in run[i + 1].jobs && run[i + 1].jobs[id].status == Queued
    requires w != "" && PhaseOf(run[k], w).Idle?
    ensures Enabled(run[k], Claim(w, id, now, lease)) ==> steps[i].retryAt <= now
    ensures steps[i].retryAt <= now ==> exists other :: Enabled(run[k], Claim(w, other, now, lease))
  {
    QueuedWaits(run, steps, i + 1, k, id);
    DueIsStored(run, steps, i + 1, id);
    DueIsStored(run, steps, k, id);
    ClaimedExactlyWhenDue(run, steps, k, w, id, now, lease);
    if steps[i].retryAt <= now {
      assert Due(run, steps, k, id, now);
      ServedExactlyWhenDue(run, steps, k, w, now, lease);
    }
  }

  // ---------------------------------------------------------------- what a job's record says

  /** What never changes about a job. */
  predicate SameJob(a: ScanJob, b: ScanJob) {
    a.id == b.id && a.hostID == b.hostID && a.trigger == b.trigger && a.createdAt == b.createdAt
    && a.maxAttempts == b.maxAttempts
  }

  /** Records count the claims. */
  ghost predicate Faithful(s: System) {
    forall id :: id in s.jobs ==> id in s.claims && s.jobs[id].id == id && s.jobs[id].attempts == |s.claims[id]|
  }

  lemma StepKeepsFaithful(s: System, step: Step)
    requires Faithful(s) && Enabled(s, step)
    ensures Faithful(Apply(s, step))
  {
  }

  /** In every reachable store a job's attempts are the claims made of it. */
  lemma {:induction false} AttemptsCountClaims(run: seq<System>, steps: seq<Step>, k: nat)
    requires IsRun(run, steps) && k < |run|
    ensures Faithful(run[k])
  {
    if k == 0 {
    } else {
      AttemptsCountClaims(run, steps, k - 1);
      RunLeads(run, steps, k - 1);
      StepKeepsFaithful(run[k - 1], steps[k - 1]);
    }
  }

  /** A job is created exactly when the host is known and has no job queued or running. */
  lemma CreatedExactlyWhen(s: System, step: Step, s': System)
    requires Leads(s, step, s') && step.Enqueue?
    ensures step.uuid in s'.jobs <==>
            && step.host in s.hosts
            && forall other :: other in s.jobs && s.jobs[other].hostID == step.host ==>
                 s.jobs[other].status != Queued && s.jobs[other].status != Running
  {
  }

  /** A new job is queued, for now and with three attempts. */
  lemma NewJobIs(s: System, step: Step, s': System, id: string)
    requires Leads(s, step, s') && id !in s.jobs && id in s'.jobs
    ensures step.Enqueue? && step.uuid == id
    ensures s'.jobs[id]
            == ScanJob(id, step.host, step.trigger, Queued, 0, 3, "", None, step.now, "", "", step.now, step.now)
  {
  }

  /** Jobs stay what they were created as. */
  lemma JobsStay(s: System, step: Step, s': System, id: string)
    requires Leads(s, step, s') && id in s.jobs
    ensures id in s'.jobs && SameJob(s.jobs[id], s'.jobs[id])
  {
  }

  /** A claim is stored with its worker and the end of its lease, and counted; a renewal moves that end. */
  lemma ClaimIsStored(s: System, step: Step, s': System, id: string)
    requires Leads(s, step, s') && (step.Claim? || step.Heartbeat?) && step.id == id && id in s.jobs
    ensures var j, j' := s.jobs[id], s'.jobs[id];
            && j'.error == j.error && j'.scanID == j.scanID && j'.nextAttemptAt == j.nextAttemptAt
            && (step.Claim? ==>
                && j'.status == Running && j'.workerID == step.w && j'.leaseUntil == Some(step.now + step.lease)
                && j'.attempts == j.attempts + 1 && j'.updatedAt == step.now)
            && (step.Heartbeat? && j.status == Running && j.workerID == step.w ==>
                && j'.status == Running && j'.workerID == step.w && j'.leaseUntil == Some(step.until)
                && j'.attempts == j.attempts && j'.updatedAt == step.now)
  {
  }

  /** An accepted completion is stored as a success with its scan. */
  lemma CompletionIsStored(s: System, step: Step, s': System, id: string)
    requires Leads(s, step, s') && step.Complete? && Serves(s, step.w, id)
    ensures var j := s'.jobs[id];
            j.status == Succeeded && j.scanID == step.scanID && j.error == "" && j.updatedAt == step.now
  {
  }

  /** An accepted failure is stored with its message, and is final exactly when no attempts are left. */
  lemma FailureIsStored(s: System, step: Step, s': System, id: string)
    requires Leads(s, step, s') && Inv(s) && step.Fail? && Serves(s, step.w, id)
    ensures var j := s'.jobs[id];
            && j.status == (if s.jobs[id].attempts >= s.jobs[id].maxAttempts then Failed else Queued)
            && j.error == step.message && j.scanID == s.jobs[id].scanID && j.updatedAt == step.now
  {
    L.OwnerMadeLatestClaim(Abstract(s), step.w);
  }

  // ---------------------------------------------------------------- the history a store keeps

  /** The run so far. None: a caller has left the protocol, by claiming twice, reusing an id and the like. */
  datatype Log = Log(run: seq<System>, steps: seq<Step>)

  ghost function Last(log: Log): System
    requires |log.run| > 0
  {
    log.run[|log.run| - 1]
  }

  ghost predicate IsLog(log: Log) {
    IsRun(log.run, log.steps)
  }

  /** The log records how the store's jobs and hosts came to be what they are. */
  ghost predicate Records(log: Option<Log>, jobs: Jobs, hosts: set<string>) {
    log.Some? ==> IsLog(log.value) && Last(log.value).jobs == jobs && Last(log.value).hosts == hosts
  }

  ghost function Recorded(log: Option<Log>, step: Step): Option<Log>
    requires log.Some? ==> IsLog(log.value)
  {
    if log.Some? && Enabled(Last(log.value), step) then
      Some(Log(log.value.run + [Apply(Last(log.value), step)], log.value.steps + [step]))
    else None
  }

  lemma RecordedIsLog(log: Option<Log>, step: Step)
    requires log.Some? ==> IsLog(log.value)
    ensures Recorded(log, step).Some? ==>
              && log.Some? && Enabled(Last(log.value), step) && IsLog(Recorded(log, step).value)
              && Last(Recorded(log, step).value) == Apply(Last(log.value), step)
  {
    if Recorded(log, step).Some? { RunGrows(log.value.run, log.value.steps, step); }
  }

  lemma RunGrows(run: seq<System>, steps: seq<Step>, step: Step)
    requires IsRun(run, steps) && Enabled(run[|run| - 1], step)
    ensures IsRun(run + [Apply(run[|run| - 1], step)], steps + [step])
  {
    var run', steps' := run + [Apply(run[|run| - 1], step)], steps + [step];
    forall k | 0 <= k < |steps'|
      ensures StepAt(run', steps', k)
    {
      if k < |steps| { assert StepAt(run, steps, k); }
    }
  }

  /** The worker is at the claim the call is about. */
  ghost predicate AtWork(log: Option<Log>, w: string, id: string)
    requires log.Some? ==> IsLog(log.value)
  {
    log.Some? && PhaseOf(Last(log.value), w).Busy? && PhaseOf(Last(log.value), w).id == id
  }

  ghost function LogEnqueue(log: Option<Log>, job: ScanJob, uuid: string, now: nat): Option<Log>
    requires log.Some? ==> IsLog(log.value)
  {
    if job == Request(job.hostID, job.trigger) then Recorded(log, Enqueue(job.hostID, job.trigger, uuid, now)) else None
  }

  /** The job is a request as Queue.Enqueue makes it, under an id that was never drawn before. */
  ghost predicate NewRequest(log: Log, job: ScanJob, uuid: string)
    requires IsLog(log)
  {
    job == Request(job.hostID, job.trigger) && uuid != "" && uuid !in Last(log).claims
  }

  /** check: the renewal is the ownership check before results are stored, not a heartbeat. */
  ghost function LogRenew(log: Option<Log>, id: string, w: string, until: nat, now: nat, check: bool): Option<Log>
    requires log.Some? ==> IsLog(log.value)
  {
    if !check then Recorded(log, Heartbeat(w, id, until, now))
    else if AtWork(log, w, id) then Recorded(log, Validate(w, until, now))
    else None
  }

  ghost function LogComplete(log: Option<Log>, id: string, w: string, scanID: string, now: nat): Option<Log>
    requires log.Some? ==> IsLog(log.value)
  {
    if AtWork(log, w, id) then Recorded(log, Complete(w, scanID, now)) else None
  }

  ghost function LogFail(log: Option<Log>, id: string, w: string, message: string, retryAt: nat, terminal: bool,
                         now: nat): Option<Log>
    requires log.Some? ==> IsLog(log.value)
  {
    if AtWork(log, w, id) && terminal == (PhaseOf(Last(log.value), w).attempts >= PhaseOf(Last(log.value), w).max) then
      Recorded(log, Fail(w, message, retryAt, now))
    else None
  }

  lemma EnqueueIsRecorded(log: Option<Log>, jobs: Jobs, hosts: set<string>, job: ScanJob, uuid: string, now: nat)
    requires Records(log, jobs, hosts)
    ensures Records(LogEnqueue(log, job, uuid, now),
                    if job.hostID in hosts && !HasActive(jobs, job.hostID) then
                      jobs[Defaulted(job, uuid, now).id := Defaulted(job, uuid, now)]
                    else jobs, hosts)
  {
    RecordedIsLog(log, Enqueue(job.hostID, job.trigger, uuid, now));
  }

  lemma ClaimIsRecorded(log: Option<Log>, jobs: Jobs, hosts: set<string>, w: string, id: string, now: nat, lease: nat)
    requires Records(log, jobs, hosts) && id in jobs
    ensures Records(Recorded(log, Claim(w, id, now, lease)), jobs[id := Claimed(jobs[id], w, now, lease)], hosts)
  {
    RecordedIsLog(log, Claim(w, id, now, lease));
  }

  lemma RenewIsRecorded(log: Option<Log>, jobs: Jobs, hosts: set<string>, id: string, w: string, until: nat, now: nat,
                        check: bool)
    requires Records(log, jobs, hosts)
    ensures Records(LogRenew(log, id, w, until, now, check),
                    if Owned(jobs, id, w) then jobs[id := Renewed(jobs[id], until, now)] else jobs, hosts)
  {
    RecordedIsLog(log, if check then Validate(w, until, now) else Heartbeat(w, id, until, now));
  }

  lemma CompleteIsRecorded(log: Option<Log>, jobs: Jobs, hosts: set<string>, id: string, w: string, scanID: string,
                           now: nat)
    requires Records(log, jobs, hosts)
    ensures Records(LogComplete(log, id, w, scanID, now),
                    if Owned(jobs, id, w) then jobs[id := Completed(jobs[id], scanID, now)] else jobs, hosts)
  {
    RecordedIsLog(log, Complete(w, scanID, now));
  }

  lemma FailIsRecorded(log: Option<Log>, jobs: Jobs, hosts: set<string>, id: string, w: string, message: string,
                       retryAt: nat, terminal: bool, now: nat)
    requires Records(log, jobs, hosts)
    ensures Records(LogFail(log, id, w, message, retryAt, terminal, now),
                    if Owned(jobs, id, w) then jobs[id := GivenBack(jobs[id], message, retryAt, terminal, now)]
                      else jobs, hosts)
  {
    RecordedIsLog(log, Fail(w, message, retryAt, now));
  }

  /** What workers do away from the store: storing results, crashing. */
  lemma WorkerIsRecorded(log: Option<Log>, jobs: Jobs, hosts: set<string>, step: Step)
    requires Records(log, jobs, hosts) && (step.Ingest? || step.Crash?)
    ensures Records(Recorded(log, step), jobs, hosts)
  {
    RecordedIsLog(log, step);
  }

  lemma HostsAreRecorded(log: Option<Log>, jobs: Jobs, hosts: set<string>, hosts': set<string>)
    requires Records(log, jobs, hosts)
    ensures Records(Recorded(log, SetHosts(hosts')), jobs, hosts')
  {
    RecordedIsLog(log, SetHosts(hosts'));
  }

  /** Fencing at the store: the owner of record, whose calls it accepts, made the latest claim on the log. */
  ghost predicate ClaimedLast(log: Log, id: string, w: string)
    requires IsLog(log)
  {
    id in Last(log).claims && Last(log).claims[id] != [] && Last(log).claims[id][|Last(log).claims[id]| - 1] == w
  }

  lemma OwnerClaimedLast(log: Log, jobs: Jobs, hosts: set<string>, id: string, w: string)
    requires Records(Some(log), jobs, hosts) && Owned(jobs, id, w)
    ensures ClaimedLast(log, id, w)
  {
    RunKeepsInv(log.run, log.steps, |log.run| - 1);
    L.OwnerClaimedLast(Abstract(Last(log)), id, w);
  }

  // ---------------------------------------------------------------- an undisturbed iteration keeps to the protocol

  /** The worker is at its claim of the job, with the counters it was given; checked: its ownership check was
      accepted. */
  ghost predicate Working(log: Option<Log>, w: string, id: string, attempts: nat, max: nat, checked: bool)
    requires log.Some? ==> IsLog(log.value)
  {
    AtWork(log, w, id)
    && (var p := PhaseOf(Last(log.value), w); p.attempts == attempts && p.max == max && (checked ==> p.validated.Some?))
  }

  lemma ReachedJobs(log: Log, id: string)
    requires IsLog(log) && id in Last(log).jobs
    ensures id in Last(log).claims && Last(log).jobs[id].maxAttempts > 0
  {
    RunKeepsInv(log.run, log.steps, |log.run| - 1);
    assert id in Abstract(Last(log)).items.Keys;
  }

  lemma ReachedWorker(log: Log, w: string)
    requires IsLog(log) && PhaseOf(Last(log), w).Busy?
    ensures PhaseOf(Last(log), w).id in Last(log).claims && PhaseOf(Last(log), w).id in Last(log).completions
  {
    RunKeepsInv(log.run, log.steps, |log.run| - 1);
    var s := Abstract(Last(log));
    assert L.PhaseOK(w, s.workers[w], s.items, s.claims) && s.claims.Keys == s.completions.Keys;
  }

  lemma ClaimBeginsWork(log: Option<Log>, jobs: Jobs, hosts: set<string>, w: string, id: string, now: nat, lease: nat)
    requires Records(log, jobs, hosts) && log.Some? && PhaseOf(Last(log.value), w).Idle? && w != ""
    requires OldestClaimable(jobs, id, now)
    ensures RecordedIsSound(log, Claim(w, id, now, lease))
    ensures jobs[id].maxAttempts > 0
    ensures Working(Recorded(log, Claim(w, id, now, lease)), w, id, jobs[id].attempts + 1, jobs[id].maxAttempts, false)
  {
    ReachedJobs(log.value, id);
    RecordedIsLog(log, Claim(w, id, now, lease));
  }

  ghost predicate RecordedIsSound(log: Option<Log>, step: Step)
    requires log.Some? ==> IsLog(log.value)
  {
    Recorded(log, step).Some? ==> IsLog(Recorded(log, step).value)
  }

  lemma CheckKeepsWork(log: Option<Log>, jobs: Jobs, hosts: set<string>, w: string, id: string, attempts: nat, max: nat,
                       until: nat, now: nat)
    requires Records(log, jobs, hosts) && Working(log, w, id, attempts, max, false) && Owned(jobs, id, w)
    ensures RecordedIsSound(log, Validate(w, until, now))
    ensures Working(LogRenew(log, id, w, until, now, true), w, id, attempts, max, true)
  {
    ReachedWorker(log.value, w);
    RecordedIsLog(log, Validate(w, until, now));
  }

  lemma IngestKeepsWork(log: Option<Log>, jobs: Jobs, hosts: set<string>, w: string, id: string, attempts: nat,
                        max: nat)
    requires Records(log, jobs, hosts) && Working(log, w, id, attempts, max, true)
    ensures RecordedIsSound(log, Ingest(w)) && Working(Recorded(log, Ingest(w)), w, id, attempts, max, true)
  {
    RecordedIsLog(log, Ingest(w));
  }

  lemma WorkCanComplete(log: Option<Log>, jobs: Jobs, hosts: set<string>, w: string, id: string, scanID: string,
                        now: nat)
    requires Records(log, jobs, hosts) && AtWork(log, w, id)
    ensures LogComplete(log, id, w, scanID, now).Some?
  {
    ReachedWorker(log.value, w);
  }

  lemma WorkCanFail(log: Option<Log>, jobs: Jobs, hosts: set<string>, w: string, id: string, attempts: nat, max: nat,
                    checked: bool, message: string, retryAt: nat, now: nat)
    requires Records(log, jobs, hosts) && Working(log, w, id, attempts, max, checked)
    ensures LogFail(log, id, w, message, retryAt, attempts >= max, now).Some?
  {
  }
}
