/** One undisturbed iteration of each worker loop against the store (internal/scan/queue.go,
    internal/scan/response.go, internal/export/worker.go). What happens when iterations of different workers
    interleave is the subject of ScanJobs, Deliveries and Responses. */
module Workers {
  import opened Backoff
  import opened Wrappers
  import D = Deliveries
  import F = Findings
  import M = MemoryStore
  import R = Responses
  import S = ScanJobs

  /** What the part of a worker that touches the outside world reports back. */
  datatype Report = Done(text: string) | Error(message: string, permanent: bool)

  /** The record after a worker has run the job: counted, released, and either succeeded, out of attempts,
      or queued again after the backoff. */
  predicate Ran(before: S.ScanJob, after: S.ScanJob, outcome: Report, now: nat) {
    && after.attempts == before.attempts + 1 && after.maxAttempts == before.maxAttempts
    && after.workerID == "" && after.leaseUntil.None?
    && match outcome
       case Done(scanID) => after.status == S.Succeeded && after.scanID == scanID && after.error == ""
       case Error(message, _) =>
         && after.error == message
         && if after.attempts >= after.maxAttempts then after.status == S.Failed
            else after.status == S.Queued && after.nextAttemptAt == now + S.RetryDelay(after.attempts)
  }

  /** A job of a host that is no longer known fails without a scan. */
  function Outcome(store: M.Memory, host: string, report: Report): Report
    reads store
  {
    if host in store.hosts then report else Error("host not found: " + host, false)
  }

  /** The worker is free to claim, as the history has it. */
  ghost predicate FreeScanner(store: M.Memory, worker: string)
    requires store.JobsValid()
    reads store
  {
    store.jobLog.Some? && worker != "" && S.PhaseOf(S.Last(store.jobLog.value), worker).Idle?
  }

  ghost predicate AtScan(store: M.Memory, worker: string, id: string, job: S.ScanJob, checked: bool)
    requires store.JobsValid()
    reads store
  {
    job.maxAttempts > 0 && S.Working(store.jobLog, worker, id, job.attempts, job.maxAttempts, checked)
  }

  /** Queue.fail. */
  method FailScan(store: M.Memory, worker: string, id: string, job: S.ScanJob, message: string, now: nat,
                  ghost checked: bool)
    requires store.JobsValid() && S.Owned(store.scanJobs, id, worker)
    modifies store`scanJobs, store`jobLog
    ensures store.JobsValid()
    ensures store.scanJobs == old(store.scanJobs)[id :=
              S.GivenBack(old(store.scanJobs)[id], message, now + S.RetryDelay(job.attempts), S.IsTerminal(job), now)]
    ensures old(AtScan(store, worker, id, job, checked)) ==> store.jobLog.Some?
  {
    var terminal := job.attempts >= job.maxAttempts;
    var shift := if job.attempts - 1 > 0 then job.attempts - 1 else 0;
    var delay := Doubled(5 * SECOND, if shift < 6 then shift else 6);
    if delay > 300 * SECOND { delay := 300 * SECOND; }
    if AtScan(store, worker, id, job, checked) {
      S.WorkCanFail(store.jobLog, store.scanJobs, store.hosts, worker, id, job.attempts, job.maxAttempts, checked,
                    message, now + delay, now);
    }
    var accepted := store.FailScanJob(id, worker, message, now + delay, terminal, now);
  }

  method ClaimScan(store: M.Memory, worker: string, now: nat, lease: nat) returns (r: Result<(string, S.ScanJob)>)
    requires store.JobsValid()
    modifies store`scanJobs, store`jobLog
    ensures store.JobsValid()
    ensures r.Refused? ==> store.jobLog == old(store.jobLog) && store.scanJobs == old(store.scanJobs)
                           && forall id :: id in store.scanJobs ==> !S.Claimable(store.scanJobs[id], now)
    ensures r.Ok? ==> var (id, job) := r.value;
                      && S.OldestClaimable(old(store.scanJobs), id, now)
                      && job == S.Claimed(old(store.scanJobs)[id], worker, now, lease)
                      && store.scanJobs == old(store.scanJobs)[id := job]
                      && (old(FreeScanner(store, worker)) ==> AtScan(store, worker, id, job, false))
  {
    ghost var log, jobs := store.jobLog, store.scanJobs;
    ghost var free := FreeScanner(store, worker);
    r := store.ClaimScanJob(worker, now, lease);
    if r.Ok? && free { S.ClaimBeginsWork(log, jobs, store.hosts, worker, r.value.0, now, lease); }
  }

  /** The ownership check that precedes the results. */
  method CheckOwner(store: M.Memory, worker: string, id: string, job: S.ScanJob, until: nat, now: nat)
    requires store.JobsValid() && S.Owned(store.scanJobs, id, worker)
    modifies store`scanJobs, store`jobLog
    ensures store.JobsValid()
            && store.scanJobs == old(store.scanJobs)[id := S.Renewed(old(store.scanJobs)[id], until, now)]
    ensures old(AtScan(store, worker, id, job, false)) ==> AtScan(store, worker, id, job, true)
  {
    if AtScan(store, worker, id, job, false) {
      S.CheckKeepsWork(store.jobLog, store.scanJobs, store.hosts, worker, id, job.attempts, job.maxAttempts, until,
                       now);
    }
    var owned := store.RenewScanJobLease(id, worker, until, now, true);
  }

  /** The results go to the store of findings, and the job is completed. */
  method IngestAndComplete(store: M.Memory, worker: string, id: string, job: S.ScanJob, scanID: string, now: nat)
    requires store.JobsValid() && S.Owned(store.scanJobs, id, worker)
    modifies store`scanJobs, store`jobLog
    ensures store.JobsValid()
            && store.scanJobs == old(store.scanJobs)[id := S.Completed(old(store.scanJobs)[id], scanID, now)]
    ensures old(AtScan(store, worker, id, job, true)) ==> store.jobLog.Some?
  {
    ghost var at := AtScan(store, worker, id, job, true);
    if at {
      S.IngestKeepsWork(store.jobLog, store.scanJobs, store.hosts, worker, id, job.attempts, job.maxAttempts);
    }
    store.NoteScanWorker(S.Ingest(worker));
    if at { S.WorkCanComplete(store.jobLog, store.scanJobs, store.hosts, worker, id, scanID, now); }
    var completed := store.CompleteScanJob(id, worker, scanID, now);
  }

  lemma RenewedThenCompleted(jobs: S.Jobs, id: string, until: nat, scanID: string, now: nat)
    requires id in jobs
    ensures var renewed := jobs[id := S.Renewed(jobs[id], until, now)];
            renewed[id := S.Completed(renewed[id], scanID, now)] == jobs[id := S.Completed(jobs[id], scanID, now)]
  {
  }

  lemma RenewedThenGivenBack(jobs: S.Jobs, id: string, until: nat, message: string, retryAt: nat, terminal: bool,
                             now: nat)
    requires id in jobs
    ensures var renewed := jobs[id := S.Renewed(jobs[id], until, now)];
            renewed[id := S.GivenBack(renewed[id], message, retryAt, terminal, now)]
            == jobs[id := S.GivenBack(jobs[id], message, retryAt, terminal, now)]
  {
  }

  /** What follows the scan. */
  method ReportScan(store: M.Memory, worker: string, id: string, job: S.ScanJob, report: Report, until: nat, now: nat)
    requires store.JobsValid() && S.Owned(store.scanJobs, id, worker)
    modifies store`scanJobs, store`jobLog
    ensures store.JobsValid() && (old(AtScan(store, worker, id, job, false)) ==> store.jobLog.Some?)
    ensures store.scanJobs == old(store.scanJobs)[id :=
              match report
              case Done(scanID) => S.Completed(old(store.scanJobs)[id], scanID, now)
              case Error(message, _) =>
                S.GivenBack(old(store.scanJobs)[id], message, now + S.RetryDelay(job.attempts), S.IsTerminal(job), now)]
  {
    ghost var jobs := store.scanJobs;
    CheckOwner(store, worker, id, job, until, now);
    if report.Done? {
      RenewedThenCompleted(jobs, id, until, report.text, now);
      IngestAndComplete(store, worker, id, job, report.text, now);
    } else {
      RenewedThenGivenBack(jobs, id, until, report.message, now + S.RetryDelay(job.attempts), S.IsTerminal(job), now);
      FailScan(store, worker, id, job, report.message, now, true);
    }
  }

  /** Queue.runOne: claim, scan, check ownership, complete or fail. A worker that was free stays within the
      protocol throughout. */
  method RunScanJob(store: M.Memory, worker: string, now: nat, lease: nat, report: Report)
    returns (worked: bool, id: string)
    requires store.JobsValid()
    modifies store`scanJobs, store`jobLog
    ensures store.JobsValid() && (old(FreeScanner(store, worker)) ==> store.jobLog.Some?)
    ensures !worked ==> store.scanJobs == old(store.scanJobs)
                        && forall j :: j in store.scanJobs ==> !S.Claimable(store.scanJobs[j], now)
    ensures worked ==> S.OldestClaimable(old(store.scanJobs), id, now) && id in store.scanJobs
                       && store.scanJobs == old(store.scanJobs)[id := store.scanJobs[id]]
                       && Ran(old(store.scanJobs)[id], store.scanJobs[id],
                              Outcome(store, old(store.scanJobs)[id].hostID, report), now)
  {
    var claim := ClaimScan(store, worker, now, lease);
    if claim.Refused? { return false, ""; }
    var job := claim.value.1;
    worked, id := true, claim.value.0;
    if job.hostID !in store.hosts {
      FailScan(store, worker, id, job, "host not found: " + job.hostID, now, false);
      return;
    }
    ReportScan(store, worker, id, job, report, now + lease, now);
  }

  /** The delivery after a worker has tried it. */
  predicate Delivered(before: D.ExportDelivery, after: D.ExportDelivery, report: Report, now: nat) {
    && after.attempts == before.attempts + 1 && after.maxAttempts == before.maxAttempts
    && after.workerID == "" && after.leaseUntil.None?
    && match report
       case Done(_) => after.status == D.Sent && after.deliveredAt == Some(now) && after.lastError == ""
       case Error(message, permanent) =>
         && after.lastError == message && after.availableAt == now + D.RetryDelay(after.attempts)
         && after.status == if permanent || after.attempts >= after.maxAttempts then D.Dead else D.Queued
  }

  /** The worker is free to claim, as the history has it. */
  ghost predicate FreeExporter(store: M.Memory, worker: string)
    requires store.FindingsValid()
    reads store
  {
    store.findingLog.Some? && worker != "" && D.PhaseOf(F.Last(store.findingLog.value).exports, worker).Idle?
  }

  ghost predicate AtDelivery(store: M.Memory, worker: string, id: string, d: D.ExportDelivery)
    requires store.FindingsValid()
    reads store
  {
    F.Working(store.findingLog, worker, id, d.attempts, d.maxAttempts)
  }

  method ClaimDelivery(store: M.Memory, worker: string, now: nat, lease: nat)
    returns (r: Result<(string, D.ExportDelivery)>)
    requires store.FindingsValid()
    modifies store`deliveries, store`findingLog
    ensures store.FindingsValid()
    ensures r.Refused? ==> store.findingLog == old(store.findingLog) && store.deliveries == old(store.deliveries)
                           && forall d :: d in store.deliveries ==>
                             !D.Claimable(store.deliveries[d], store.exports, now)
    ensures r.Ok? ==> var (id, d) := r.value;
                      && D.OldestClaimable(old(store.deliveries), store.exports, id, now)
                      && d == D.Claimed(old(store.deliveries)[id], worker, now, lease)
                      && store.deliveries == old(store.deliveries)[id := d]
                      && (old(FreeExporter(store, worker)) ==> AtDelivery(store, worker, id, d))
  {
    ghost var log, c, free := store.findingLog, store.Contents(), FreeExporter(store, worker);
    r := store.ClaimExportDelivery(worker, now, lease);
    if r.Ok? && free { F.ClaimBeginsWork(log, c, store.reopenAfter, worker, r.value.0, now, lease); }
  }

  /** The delay of Worker.runOne after a failed delivery. */
  method DelayAfter(attempts: nat) returns (delay: nat)
    ensures delay == D.RetryDelay(attempts)
  {
    var shift := if attempts - 1 > 0 then attempts - 1 else 0;
    delay := Doubled(30 * SECOND, if shift < 7 then shift else 7);
    if delay > 3600 * SECOND { delay := 3600 * SECOND; }
  }

  method EndDelivery(store: M.Memory, worker: string, id: string, delivery: D.ExportDelivery, report: Report, now: nat)
    requires store.FindingsValid() && D.Owned(store.deliveries, id, worker)
    modifies store`deliveries, store`findingLog
    ensures store.FindingsValid() && (old(AtDelivery(store, worker, id, delivery)) ==> store.findingLog.Some?)
    ensures store.deliveries == old(store.deliveries)[id :=
              match report
              case Done(_) => D.Completed(old(store.deliveries)[id], now)
              case Error(message, permanent) =>
                D.GivenBack(old(store.deliveries)[id], message, now + D.RetryDelay(delivery.attempts),
                            delivery.attempts >= delivery.maxAttempts || permanent, now)]
  {
    var terminal := delivery.attempts >= delivery.maxAttempts || (report.Error? && report.permanent);
    var delay := DelayAfter(delivery.attempts);
    var message := if report.Error? then report.message else "";
    if AtDelivery(store, worker, id, delivery) {
      F.WorkCanEnd(store.findingLog, worker, id, delivery.attempts, delivery.maxAttempts, message, now + delay,
                   terminal, now);
    }
    if report.Done? {
      var completed := store.CompleteExportDelivery(id, worker, now);
    } else {
      var accepted := store.FailExportDelivery(id, worker, message, now + delay, terminal, now);
    }
  }

  /** Worker.runOne: claim, deliver, complete or fail. A worker that was free stays within the protocol. */
  method RunDelivery(store: M.Memory, worker: string, now: nat, lease: nat, report: Report)
    returns (worked: bool, id: string)
    requires store.FindingsValid()
    modifies store`deliveries, store`findingLog
    ensures store.FindingsValid() && (old(FreeExporter(store, worker)) ==> store.findingLog.Some?)
    ensures !worked ==> store.deliveries == old(store.deliveries)
                        && forall d :: d in store.deliveries ==> !D.Claimable(store.deliveries[d], store.exports, now)
    ensures worked ==> D.OldestClaimable(old(store.deliveries), store.exports, id, now) && id in store.deliveries
                       && store.deliveries == old(store.deliveries)[id := store.deliveries[id]]
                       && Delivered(old(store.deliveries)[id], store.deliveries[id], report, now)
  {
    var claim := ClaimDelivery(store, worker, now, lease);
    if claim.Refused? { return false, ""; }
    worked, id := true, claim.value.0;
    EndDelivery(store, worker, id, claim.value.1, report, now);
  }

  /** The action after a worker has executed it: finished once and for all. */
  predicate Executed(before: R.ResponseAction, after: R.ResponseAction, report: Report, now: nat) {
    && after.requestedBy == before.requestedBy && after.approvedBy == before.approvedBy
    && after.workerID == "" && after.leaseUntil.None? && after.finishedAt == Some(now)
    && after.startedAt == (if before.startedAt.None? then Some(now) else before.startedAt)
    && match report
       case Done(output) => after.status == R.Succeeded && after.output == output && after.error == ""
       case Error(message, _) => after.status == R.Failed && after.error == message
  }

  /** The worker is free to claim, as the history has it, and the history is that of this configuration. */
  ghost predicate FreeResponder(store: M.Memory, worker: string, config: R.Config)
    requires store.ResponsesValid()
    reads store
  {
    && store.responseLog.Some? && worker != "" && R.PhaseOf(R.Last(store.responseLog.value), worker).Idle?
    && R.Last(store.responseLog.value).config.lease == config.lease
  }

  /** The history has the worker at its claim of the action. */
  ghost predicate AtAction(store: M.Memory, worker: string, id: string, now: nat)
    requires store.ResponsesValid()
    reads store
  {
    store.responseLog.Some? && R.PhaseOf(R.Last(store.responseLog.value), worker) == R.Taken(id, now)
  }

  method ClaimAction(store: M.Memory, worker: string, now: nat, config: R.Config)
    returns (r: Result<(string, R.ResponseAction)>)
    requires store.ResponsesValid()
    modifies store`responses, store`responseLog
    ensures store.ResponsesValid()
    ensures r.Refused? ==> store.responses == old(store.responses) && store.responseLog == old(store.responseLog)
                           && forall a :: a in store.responses ==> !R.Claimable(store.responses[a], now)
    ensures r.Ok? ==> var (id, a) := r.value;
                      && R.OldestClaimable(old(store.responses), id, now)
                      && a == R.Claimed(old(store.responses)[id], worker, now, config.lease)
                      && store.responses == old(store.responses)[id := a]
                      && (old(FreeResponder(store, worker, config)) ==> AtAction(store, worker, id, now))
  {
    ghost var log, actions, free := store.responseLog, store.responses, FreeResponder(store, worker, config);
    r := store.ClaimResponseAction(worker, now, config.lease);
    if r.Ok? && free { R.ClaimBeginsWork(log, actions, store.allowSelfApproval, worker, r.value.0, now, config.lease); }
  }

  /** The execution between claim and report leaves the store alone. */
  ghost method NoteExecution(store: M.Memory, worker: string, id: string, now: nat)
    requires store.ResponsesValid()
    modifies store`responseLog
    ensures store.ResponsesValid()
    ensures old(AtAction(store, worker, id, now)) ==>
              store.responseLog.Some? && R.PhaseOf(R.Last(store.responseLog.value), worker) == R.Done(id)
  {
    store.NoteResponseWorker(R.Begin(worker));
    store.NoteResponseWorker(R.Stop(worker));
  }

  method ExecuteAndReport(store: M.Memory, worker: string, id: string, report: Report, now: nat)
    requires store.ResponsesValid() && R.Owned(store.responses, id, worker)
    modifies store`responses, store`responseLog
    ensures store.ResponsesValid() && (old(AtAction(store, worker, id, now)) ==> store.responseLog.Some?)
    ensures store.responses == old(store.responses)[id :=
              match report
              case Done(output) => R.Completed(old(store.responses)[id], output, now)
              case Error(message, _) => R.FailedWith(old(store.responses)[id], message, now)]
  {
    NoteExecution(store, worker, id, now);
    if report.Done? {
      var completed := store.CompleteResponseAction(id, worker, report.text, now);
    } else {
      var failed := store.FailResponseAction(id, worker, report.message, now);
    }
  }

  /** ResponseQueue.RunOne: claim, execute, complete or fail. A worker that was free stays within the protocol. */
  method RunResponse(store: M.Memory, worker: string, now: nat, config: R.Config, report: Report)
    returns (worked: bool, id: string)
    requires store.ResponsesValid()
    modifies store`responses, store`responseLog
    ensures store.ResponsesValid() && (old(FreeResponder(store, worker, config)) ==> store.responseLog.Some?)
    ensures !worked ==> store.responses == old(store.responses)
                        && forall a :: a in store.responses ==> !R.Claimable(store.responses[a], now)
    ensures worked ==> R.OldestClaimable(old(store.responses), id, now) && id in store.responses
                       && store.responses == old(store.responses)[id := store.responses[id]]
                       && Executed(old(store.responses)[id], store.responses[id], report, now)
  {
    var claim := ClaimAction(store, worker, now, config);
    if claim.Refused? { return false, ""; }
    worked, id := true, claim.value.0;
    ExecuteAndReport(store, worker, id, report, now);
  }
}
