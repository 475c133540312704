/** The in-memory store (internal/store/memory.go). Every method that changes it is one step of the protocols
    in ScanJobs, Findings (with Deliveries) and Responses, and the store keeps the history of those steps. */
module MemoryStore {
  import opened Observations
  import opened Strings
  import opened Wrappers
  import D = Deliveries
  import F = Findings
  import P = Paging
  import R = Responses
  import S = ScanJobs

  // ---------------------------------------------------------------- helpers

  /** The keys that pass a test, in the order a loop over the map visits them. */
  method Select(keys: set<string>, test: string -> bool) returns (ids: seq<string>)
    ensures forall id :: id in ids <==> id in keys && test(id)
  {
    ids := [];
    var rest := keys;
    while rest != {}
      invariant rest <= keys
      invariant forall id :: id in ids <==> id in keys - rest && test(id)
    {
      var id :| id in rest;
      rest := rest - {id};
      if test(id) { ids := ids + [id]; }
    }
  }

  /** A candidate no other is older than: the first after sorting by creation time. */
  method Oldest(ids: seq<string>, createdAt: map<string, nat>) returns (oldest: string)
    requires ids != [] && forall id :: id in ids ==> id in createdAt
    ensures oldest in ids && forall id :: id in ids ==> createdAt[oldest] <= createdAt[id]
  {
    oldest := ids[0];
    for n := 1 to |ids|
      invariant oldest in ids && forall k :: 0 <= k < n ==> createdAt[oldest] <= createdAt[ids[k]]
    {
      if createdAt[ids[n]] < createdAt[oldest] { oldest := ids[n]; }
    }
  }

  /** The oldest of the records that pass a test, if there is any: candidates are collected, sorted by
      creation time, and the first is taken. */
  method OldestWhere(createdAt: map<string, nat>, test: string -> bool) returns (r: Option<string>)
    ensures r.None? ==> forall id :: id in createdAt ==> !test(id)
    ensures r.Some? ==> r.value in createdAt && test(r.value)
                        && forall id :: id in createdAt && test(id) ==> createdAt[r.value] <= createdAt[id]
  {
    var candidates := Select(createdAt.Keys, test);
    if candidates == [] {
      forall id | id in createdAt ensures !test(id) { assert id !in candidates; }
      return None;
    }
    var oldest := Oldest(candidates, createdAt);
    r := Some(oldest);
  }

  method OldestJob(jobs: S.Jobs, now: nat) returns (r: Option<string>)
    ensures r.None? ==> forall id :: id in jobs ==> !S.Claimable(jobs[id], now)
    ensures r.Some? ==> S.OldestClaimable(jobs, r.value, now)
  {
    var claimable := id => id in jobs && S.Claimable(jobs[id], now);
    assert forall id :: id in jobs ==> claimable(id) == S.Claimable(jobs[id], now);
    r := OldestWhere(map j | j in jobs :: jobs[j].createdAt, claimable);
  }

  method OldestDelivery(outbox: D.Outbox, targets: D.Targets, now: nat) returns (r: Option<string>)
    ensures r.None? ==> forall id :: id in outbox ==> !D.Claimable(outbox[id], targets, now)
    ensures r.Some? ==> D.OldestClaimable(outbox, targets, r.value, now)
  {
    var claimable := id => id in outbox && D.Claimable(outbox[id], targets, now);
    assert forall id :: id in outbox ==> claimable(id) == D.Claimable(outbox[id], targets, now);
    r := OldestWhere(map d | d in outbox :: outbox[d].createdAt, claimable);
  }

  method OldestAction(actions: R.Actions, now: nat) returns (r: Option<string>)
    ensures r.None? ==> forall id :: id in actions ==> !R.Claimable(actions[id], now)
    ensures r.Some? ==> R.OldestClaimable(actions, r.value, now)
  {
    var claimable := id => id in actions && R.Claimable(actions[id], now);
    assert forall id :: id in actions ==> claimable(id) == R.Claimable(actions[id], now);
    r := OldestWhere(map a | a in actions :: actions[a].createdAt, claimable);
  }

  datatype RetentionResult = RetentionResult(observations: nat, scans: nat, audit: nat, archive: int)

  /** The ghost fields are history: how the jobs, the findings with their exports, and the response actions
      came to be what they are. New ids are parameters, as are readings of the clock. */
  class Memory {
    var hosts: set<string>
    var scanJobs: S.Jobs
    var obs: Table
    var dedup: Index
    var scans: Scans
    var audit: seq<AuditEvent>
    var archive: seq<ArchivedRecord>
    var exports: D.Targets
    var deliveries: D.Outbox
    var responses: R.Actions
    const reopenAfter: int
    const allowSelfApproval: bool

    ghost var jobLog: Option<S.Log>
    ghost var findingLog: Option<F.Log>
    ghost var responseLog: Option<R.Log>

    /** One active job per host, and a history of the queue that ends in these jobs. */
    ghost predicate JobsValid()
      reads this`scanJobs, this`hosts, this`jobLog
    {
      S.OneActivePerHost(scanJobs) && S.Records(jobLog, scanJobs, hosts)
    }

    ghost function Contents(): F.Contents
      reads this`obs, this`dedup, this`scans, this`archive, this`exports, this`deliveries
    {
      F.Contents(obs, dedup, scans, archive, exports, deliveries)
    }

    /** The dedup index is the search over observations, no delivery is without its target, and a history of
        the findings ends in these contents. */
    ghost predicate FindingsValid()
      reads this`obs, this`dedup, this`scans, this`archive, this`exports, this`deliveries, this`findingLog
    {
      && IndexAgrees(obs, dedup) && WellKeyed(obs) && D.NoOrphans(deliveries, exports)
      && F.Records(findingLog, Contents(), reopenAfter)
    }

    ghost predicate ResponsesValid()
      reads this`responses, this`responseLog
    {
      R.Records(responseLog, responses, allowSelfApproval)
    }

    /** Each method asks for, and keeps, the part its fields belong to. */
    ghost predicate Valid()
      reads this
    {
      JobsValid() && FindingsValid() && ResponsesValid()
    }

    /** An empty store with an empty history. The response queue will run with the given lease and timeout. */
    constructor (reopenAfter: int, allowSelfApproval: bool, ghost lease: nat, ghost timeout: nat)
      ensures Valid() && this.reopenAfter == reopenAfter && this.allowSelfApproval == allowSelfApproval
      ensures hosts == {} && scanJobs == map[] && obs == map[] && dedup == map[] && scans == map[]
      ensures audit == [] && archive == [] && exports == map[] && deliveries == map[] && responses == map[]
      ensures jobLog == Some(S.Log([S.Initial({})], [])) && findingLog == Some(F.Log([F.Initial(reopenAfter)], []))
      ensures var config := R.Config(lease, timeout, allowSelfApproval);
              responseLog == Some(R.Log([R.System(map[], map[], map[], 0, config)], []))
    {
      hosts, scanJobs, obs, dedup, scans, audit, archive := {}, map[], map[], map[], map[], [], [];
      exports, deliveries, responses := map[], map[], map[];
      this.reopenAfter, this.allowSelfApproval := reopenAfter, allowSelfApproval;
      jobLog := Some(S.Log([S.Initial({})], []));
      findingLog := Some(F.Log([F.Initial(reopenAfter)], []));
      responseLog := Some(R.Log([R.System(map[], map[], map[], 0, R.Config(lease, timeout, allowSelfApproval))], []));
    }

    // -------------------------------------------------------------- hosts and scan jobs

    method CreateHost(id: string, uuid: string) returns (key: string)
      requires JobsValid()
      modifies this`hosts, this`jobLog
      ensures JobsValid() && key == (if id == "" then uuid else id) && hosts == old(hosts) + {key}
      ensures jobLog == S.Recorded(old(jobLog), S.SetHosts(hosts))
      ensures old(jobLog).Some? ==> jobLog.Some?
    {
      key := if id == "" then uuid else id;
      S.HostsAreRecorded(jobLog, scanJobs, hosts, hosts + {key});
      hosts := hosts + {key};
      jobLog := S.Recorded(jobLog, S.SetHosts(hosts));
    }

    method DeleteHost(id: string) returns (found: bool)
      requires JobsValid()
      modifies this`hosts, this`jobLog
      ensures JobsValid() && found == (id in old(hosts)) && hosts == old(hosts) - {id}
      ensures jobLog == if found then S.Recorded(old(jobLog), S.SetHosts(hosts)) else old(jobLog)
      ensures old(jobLog).Some? ==> jobLog.Some?
    {
      found := id in hosts;
      if found {
        S.HostsAreRecorded(jobLog, scanJobs, hosts, hosts - {id});
        hosts := hosts - {id};
        jobLog := S.Recorded(jobLog, S.SetHosts(hosts));
      }
    }

    method EnqueueScanJob(job: S.ScanJob, uuid: string, now: nat) returns (r: Result<S.ScanJob>)
      requires JobsValid()
      modifies this`scanJobs, this`jobLog
      ensures JobsValid() && jobLog == S.LogEnqueue(old(jobLog), job, uuid, now)
      ensures old(jobLog).Some? ==> (jobLog.Some? <==> S.NewRequest(old(jobLog).value, job, uuid) && now > 0)
      ensures job.hostID !in hosts ==> r == Refused(NotFound("host", job.hostID)) && scanJobs == old(scanJobs)
      ensures job.hostID in hosts && S.HasActive(old(scanJobs), job.hostID) ==>
                scanJobs == old(scanJobs)
                && exists id :: id in scanJobs && r == Ok(scanJobs[id])
                                && scanJobs[id].hostID == job.hostID && S.Active(scanJobs[id])
      ensures job.hostID in hosts && !S.HasActive(old(scanJobs), job.hostID) ==>
                r == Ok(S.Defaulted(job, uuid, now)) && scanJobs == old(scanJobs)[r.value.id := r.value]
      ensures job.hostID in hosts && !S.HasActive(old(scanJobs), job.hostID) ==>
                r.value == job.(id := if job.id != "" then job.id else uuid,
                                status := if job.status.Unset? then S.Queued else job.status,
                                maxAttempts := if job.maxAttempts > 0 then job.maxAttempts else 3,
                                nextAttemptAt := if job.nextAttemptAt > 0 then job.nextAttemptAt else now,
                                createdAt := if job.createdAt > 0 then job.createdAt else now, updatedAt := now)
    {
      S.EnqueueIsRecorded(jobLog, scanJobs, hosts, job, uuid, now);
      jobLog := S.LogEnqueue(jobLog, job, uuid, now);
      if job.hostID !in hosts { return Refused(NotFound("host", job.hostID)); }
      var jobs, host := scanJobs, job.hostID;
      var active := Select(jobs.Keys, id => id in jobs && jobs[id].hostID == host && S.Active(jobs[id]));
      if active != [] {
        assert active[0] in jobs;
        return Ok(jobs[active[0]]);
      }
      assert !S.HasActive(jobs, host);
      var stored := S.Defaulted(job, uuid, now);
      scanJobs := scanJobs[stored.id := stored];
      r := Ok(stored);
    }

    method ClaimScanJob(worker: string, now: nat, lease: nat) returns (r: Result<(string, S.ScanJob)>)
      requires JobsValid()
      modifies this`scanJobs, this`jobLog
      ensures JobsValid()
      ensures r.Refused? ==> jobLog == old(jobLog) && scanJobs == old(scanJobs)
                             && forall id :: id in scanJobs ==> !S.Claimable(scanJobs[id], now)
      ensures r.Ok? ==> var (id, claimed) := r.value;
                        && S.OldestClaimable(old(scanJobs), id, now)
                        && claimed == S.Claimed(old(scanJobs)[id], worker, now, lease)
                        && scanJobs == old(scanJobs)[id := claimed]
                        && jobLog == S.Recorded(old(jobLog), S.Claim(worker, id, now, lease))
      ensures r.Refused? ==> forall id :: id in scanJobs ==> !JobIsDue(scanJobs[id], now)
      ensures r.Ok? ==> JobIsDue(old(scanJobs)[r.value.0], now)
                        && forall id :: id in old(scanJobs) && JobIsDue(old(scanJobs)[id], now) ==>
                             old(scanJobs)[r.value.0].createdAt <= old(scanJobs)[id].createdAt
    {
      var jobs := scanJobs;
      var oldest := OldestJob(jobs, now);
      if oldest.None? { return Refused(NotFound("scan job", "claimable")); }
      var id := oldest.value;
      var j := S.Claimed(jobs[id], worker, now, lease);
      S.SameHostKeepsOneActive(jobs, id, j);
      S.ClaimIsRecorded(jobLog, jobs, hosts, worker, id, now, lease);
      scanJobs := jobs[id := j];
      jobLog := S.Recorded(jobLog, S.Claim(worker, id, now, lease));
      r := Ok((id, j));
    }

    /** check: the call is the ownership check before results are stored. An accepted call comes from the
        worker that made the latest claim, here and in the two methods that follow. */
    method RenewScanJobLease(id: string, worker: string, until: nat, now: nat, ghost check: bool)
      returns (accepted: bool)
      requires JobsValid()
      modifies this`scanJobs, this`jobLog
      ensures JobsValid() && accepted == S.Owned(old(scanJobs), id, worker)
      ensures scanJobs ==
              if accepted then old(scanJobs)[id := S.Renewed(old(scanJobs)[id], until, now)]
              else old(scanJobs)
      ensures jobLog == S.LogRenew(old(jobLog), id, worker, until, now, check)
      ensures !check && old(jobLog).Some? ==> jobLog.Some?
      ensures accepted && old(jobLog).Some? ==> S.ClaimedLast(old(jobLog).value, id, worker)
    {
      accepted := S.Owned(scanJobs, id, worker);
      S.RenewIsRecorded(jobLog, scanJobs, hosts, id, worker, until, now, check);
      if accepted && jobLog.Some? { S.OwnerClaimedLast(jobLog.value, scanJobs, hosts, id, worker); }
      jobLog := S.LogRenew(jobLog, id, worker, until, now, check);
      if accepted { scanJobs := scanJobs[id := S.Renewed(scanJobs[id], until, now)]; }
    }

    method CompleteScanJob(id: string, worker: string, scanID: string, now: nat) returns (accepted: bool)
      requires JobsValid()
      modifies this`scanJobs, this`jobLog
      ensures JobsValid() && accepted == S.Owned(old(scanJobs), id, worker)
      ensures scanJobs ==
              if accepted then old(scanJobs)[id := S.Completed(old(scanJobs)[id], scanID, now)]
              else old(scanJobs)
      ensures jobLog == S.LogComplete(old(jobLog), id, worker, scanID, now)
      ensures accepted && old(jobLog).Some? ==> S.ClaimedLast(old(jobLog).value, id, worker)
    {
      accepted := S.Owned(scanJobs, id, worker);
      S.CompleteIsRecorded(jobLog, scanJobs, hosts, id, worker, scanID, now);
      if accepted && jobLog.Some? { S.OwnerClaimedLast(jobLog.value, scanJobs, hosts, id, worker); }
      jobLog := S.LogComplete(jobLog, id, worker, scanID, now);
      if accepted { scanJobs := scanJobs[id := S.Completed(scanJobs[id], scanID, now)]; }
    }

    method FailScanJob(id: string, worker: string, message: string, retryAt: nat, terminal: bool, now: nat)
      returns (accepted: bool)
      requires JobsValid()
      modifies this`scanJobs, this`jobLog
      ensures JobsValid() && accepted == S.Owned(old(scanJobs), id, worker)
      ensures scanJobs ==
              if accepted then old(scanJobs)[id := S.GivenBack(old(scanJobs)[id], message, retryAt, terminal, now)]
              else old(scanJobs)
      ensures jobLog == S.LogFail(old(jobLog), id, worker, message, retryAt, terminal, now)
      ensures accepted && old(jobLog).Some? ==> S.ClaimedLast(old(jobLog).value, id, worker)
    {
      accepted := S.Owned(scanJobs, id, worker);
      S.FailIsRecorded(jobLog, scanJobs, hosts, id, worker, message, retryAt, terminal, now);
      if accepted && jobLog.Some? { S.OwnerClaimedLast(jobLog.value, scanJobs, hosts, id, worker); }
      jobLog := S.LogFail(jobLog, id, worker, message, retryAt, terminal, now);
      if accepted { scanJobs := scanJobs[id := S.GivenBack(scanJobs[id], message, retryAt, terminal, now)]; }
    }

    /** What a scan worker does away from the store enters the history: storing results, crashing. */
    ghost method NoteScanWorker(step: S.Step)
      requires JobsValid() && (step.Ingest? || step.Crash?)
      modifies this`jobLog
      ensures JobsValid() && jobLog == S.Recorded(old(jobLog), step)
    {
      S.WorkerIsRecorded(jobLog, scanJobs, hosts, step);
      jobLog := S.Recorded(jobLog, step);
    }

    // -------------------------------------------------------------- observations and their exports

    /** The transactional outbox: one delivery for every enabled target, under the ids drawn for it. */
    method EnqueueExports(observation: string, batch: map<string, string>, now: nat)
      requires D.IsFanOut(batch, exports, deliveries.Keys)
      modifies this`deliveries
      ensures deliveries == D.FannedOut(old(deliveries), batch, observation, now)
      ensures D.NoOrphans(old(deliveries), exports) ==> D.NoOrphans(deliveries, exports)
    {
      ghost var used := deliveries.Keys;
      var rest := exports.Keys;
      while rest != {}
        invariant rest <= exports.Keys
        invariant deliveries == D.FannedOut(old(deliveries), D.DrawnFor(batch, rest), observation, now)
      {
        var target :| target in rest;
        D.DrawsOneMore(batch, exports, used, rest, target);
        if exports[target].enabled {
          assert D.Enabled(exports, target);
          var id :| id in batch && batch[id] == target;
          D.FansOutOneMore(old(deliveries), D.DrawnFor(batch, rest), observation, now, id, target);
          deliveries := deliveries[id := D.NewDelivery(target, observation, now)];
        }
        rest := rest - {target};
      }
      assert D.DrawnFor(batch, rest) == batch;
      if D.NoOrphans(old(deliveries), exports) {
        D.FanOutKeepsTargets(old(deliveries), exports, batch, observation, now);
      }
    }

    method ShouldReopen(id: string, o: Observation, now: nat) returns (reopen: bool)
      requires id in obs
      ensures reopen == ReopensNow(obs, scans, id, o, now, reopenAfter)
    {
      var ex := obs[id];
      if !Reopens(ex.status, ex.lastSeen, now, reopenAfter) { return false; }
      reopen := AbsentFromPreviousScan(scans, ex.lastSeen, o.hostID, o.scanID);
    }

    /** The record an upsert leaves and the index entry it makes. */
    method StoreSighting(o: Observation, uuid: string, now: nat) returns (id: string)
      requires IndexAgrees(obs, dedup) && WellKeyed(obs) && now > 0 && uuid != ""
      modifies this`obs, this`dedup
      ensures Known(old(dedup), o) ==> ListedID(old(dedup), o.hostID, o.dedupKey) in old(obs)
      ensures id == UpsertedID(old(dedup), o, uuid) && id in obs && WellKeyed(obs)
      ensures obs == UpsertedTable(old(obs), old(dedup), scans, o, uuid, now, reopenAfter)
      ensures dedup == UpsertedIndex(old(dedup), o, uuid)
    {
      KnownIsStored(obs, dedup, o);
      if o.hostID in dedup && o.dedupKey in dedup[o.hostID] {
        id := dedup[o.hostID][o.dedupKey];
        var reopen := ShouldReopen(id, o, now);
        obs := obs[id := Sighted(obs[id], o, now, reopen)];
      } else {
        var stored := First(o, uuid, now);
        id := stored.id;
        obs := obs[id := stored];
        dedup := WithEntry(dedup, o.hostID, o.dedupKey, id);
      }
    }

    /** An upsert without its place in the history. */
    method SightAndExport(o: Observation, uuid: string, batch: map<string, string>, now: nat) returns (r: Observation)
      requires IndexAgrees(obs, dedup) && WellKeyed(obs) && D.NoOrphans(deliveries, exports)
      requires now > 0 && uuid != "" && D.IsFanOut(batch, exports, deliveries.Keys)
      modifies this`obs, this`dedup, this`deliveries
      ensures Known(old(dedup), o) ==> ListedID(old(dedup), o.hostID, o.dedupKey) in old(obs)
      ensures Contents() == F.UpsertedContents(old(Contents()), o, uuid, batch, now, reopenAfter)
      ensures UpsertedID(old(dedup), o, uuid) in obs && r == obs[UpsertedID(old(dedup), o, uuid)]
      ensures WellKeyed(obs) && D.NoOrphans(deliveries, exports)
      ensures IndexAgrees(obs, dedup) <==> Known(old(dedup), o) || UpsertedID(old(dedup), o, uuid) !in old(obs)
      ensures r.id in obs && r == obs[r.id]
      ensures IndexAgrees(obs, dedup) ==> Upserted(old(obs), obs, r.id, o, scans, uuid, now, reopenAfter)
    {
      KnownIsStored(obs, dedup, o);
      UpsertKeepsIndexExactlyWhen(obs, dedup, scans, o, uuid, now, reopenAfter);
      if Known(dedup, o) || UpsertedID(dedup, o, uuid) !in obs {
        UpsertStores(obs, dedup, scans, o, uuid, now, reopenAfter);
      }
      var id := StoreSighting(o, uuid, now);
      EnqueueExports(id, batch, now);
      r := obs[id];
    }

    /** uuid and batch are the ids drawn for the observation and its deliveries. */
    method UpsertObservation(o: Observation, uuid: string, batch: map<string, string>, now: nat)
      returns (r: Observation)
      requires FindingsValid() && now > 0 && uuid != "" && D.IsFanOut(batch, exports, deliveries.Keys)
      modifies this`obs, this`dedup, this`deliveries, this`findingLog
      ensures Known(old(dedup), o) ==> ListedID(old(dedup), o.hostID, o.dedupKey) in old(obs)
      ensures Contents() == F.UpsertedContents(old(Contents()), o, uuid, batch, now, reopenAfter)
      ensures UpsertedID(old(dedup), o, uuid) in obs && r == obs[UpsertedID(old(dedup), o, uuid)]
      ensures FindingsValid() <==> Known(old(dedup), o) || UpsertedID(old(dedup), o, uuid) !in old(obs)
      ensures findingLog == F.LogUpsert(old(findingLog), o, uuid, batch, now)
      ensures r.id in obs && r == obs[r.id]
      ensures FindingsValid() ==> Upserted(old(obs), obs, r.id, o, scans, uuid, now, reopenAfter)
      ensures old(findingLog).Some? ==>
                (findingLog.Some? <==> F.NeverDrawn(old(findingLog).value, o, uuid, batch, now))
    {
      ghost var log, c := findingLog, Contents();
      r := SightAndExport(o, uuid, batch, now);
      F.UpsertIsRecorded(log, c, reopenAfter, o, uuid, batch, now);
      if log.Some? { F.UpsertContinuesExactlyWhen(log.value, c, reopenAfter, o, uuid, batch, now); }
      findingLog := F.LogUpsert(log, o, uuid, batch, now);
    }

    /** Filter, sort, cut. */
    method ListObservations(f: P.Filter, limit: nat) returns (out: seq<Observation>)
      requires WellKeyed(obs)
      ensures exists list :: P.Lists(list, P.Past(P.Matching(obs, f), f.beforeTime, f.beforeID))
                          && out == if 0 < limit < |list| then list[..limit] else list
      ensures forall j, k :: 0 <= j < k < |out| ==>
                out[j].lastSeen > out[k].lastSeen
                || (out[j].lastSeen == out[k].lastSeen && Less(out[k].id, out[j].id))
      ensures forall o :: o in out ==> o in obs.Values && Asked(o, f)
      ensures limit == 0 ==> forall o :: o in obs.Values && Asked(o, f) ==> o in out
    {
      out := [];
      var rest := obs.Keys;
      while rest != {}
        invariant rest <= obs.Keys
        invariant forall o :: o in out <==>
                    o in obs.Values && o.id !in rest && P.Matches(o, f) && P.PastCursor(o, f.beforeTime, f.beforeID)
        invariant P.DistinctIDs(out)
      {
        var id :| id in rest;
        rest := rest - {id};
        var o := obs[id];
        if P.Matches(o, f) && P.PastCursor(o, f.beforeTime, f.beforeID) {
          assert forall k :: 0 <= k < |out| ==> out[k] in out && out[k].id != id;
          out := out + [o];
        }
      }
      assert P.Rows(out) == P.Past(P.Matching(obs, f), f.beforeTime, f.beforeID);
      out := P.Sort(out);
      forall o
        ensures o in out <==> o in obs.Values && Asked(o, f)
      {
        AskedExactlyWhen(obs, f, o);
        assert o in out <==> o in P.Rows(out);
      }
      if limit > 0 && |out| > limit { out := out[..limit]; }
    }

    method SetObservationStatus(id: string, status: Status) returns (found: bool)
      requires FindingsValid()
      modifies this`obs, this`findingLog
      ensures FindingsValid() && found == (id in old(obs))
      ensures obs == if found then old(obs)[id := Assessed(old(obs)[id], status, old(obs)[id].verdict)] else old(obs)
      ensures found ==> obs[id] == old(obs)[id].(status := status)
      ensures findingLog ==
              if found then F.Recorded(old(findingLog), F.Assess(id, status, old(obs)[id].verdict))
              else old(findingLog)
      ensures old(findingLog).Some? ==> findingLog.Some?
    {
      found := id in obs;
      if found { Assess(id, status, obs[id].verdict); }
    }

    /** What the three ways of judging a finding write. */
    method Assess(id: string, status: Status, verdict: Verdict)
      requires FindingsValid() && id in obs
      modifies this`obs, this`findingLog
      ensures FindingsValid() && obs == old(obs)[id := Assessed(old(obs)[id], status, verdict)]
      ensures findingLog == F.Recorded(old(findingLog), F.Assess(id, status, verdict))
      ensures old(findingLog).Some? ==> findingLog.Some?
    {
      var o := Assessed(obs[id], status, verdict);
      SamePairKeepsIndex(obs, dedup, id, o);
      F.AssessIsRecorded(findingLog, Contents(), reopenAfter, id, status, verdict);
      obs := obs[id := o];
      findingLog := F.Recorded(findingLog, F.Assess(id, status, verdict));
    }

    method SetObservationVerdict(id: string, verdict: Verdict) returns (r: Result<Observation>)
      requires FindingsValid()
      modifies this`obs, this`findingLog
      ensures FindingsValid()
      ensures r == if verdict == NoVerdict then Refused(InvalidVerdict)
                   else if id !in old(obs) then Refused(NotFound("observation", id))
                   else Ok(Assessed(old(obs)[id], old(obs)[id].status, verdict))
      ensures r.Ok? ==> r.value == old(obs)[id].(verdict := verdict)
      ensures obs == if r.Ok? then old(obs)[id := r.value] else old(obs)
      ensures findingLog ==
              if r.Ok? then F.Recorded(old(findingLog), F.Assess(id, r.value.status, r.value.verdict))
              else old(findingLog)
      ensures old(findingLog).Some? ==> findingLog.Some?
    {
      if verdict == NoVerdict { return Refused(InvalidVerdict); }
      if id !in obs { return Refused(NotFound("observation", id)); }
      Assess(id, obs[id].status, verdict);
      r := Ok(obs[id]);
    }

    method ApplyObservationAction(id: string, action: Action) returns (r: Result<Observation>)
      requires FindingsValid()
      modifies this`obs, this`findingLog
      ensures FindingsValid()
      ensures r == match Disposition(action)
                   case Refused(e) => Refused(e)
                   case Ok(_) =>
                     if id in old(obs) then Acted(old(obs)[id], action) else Refused(NotFound("observation", id))
      ensures r.Ok? <==>
              id in old(obs) && !action.Other? && (action == Resolve ==> old(obs)[id].verdict == TruePositive)
      ensures obs == if r.Ok? then old(obs)[id := r.value] else old(obs)
      ensures findingLog ==
              if r.Ok? then F.Recorded(old(findingLog), F.Assess(id, r.value.status, r.value.verdict))
              else old(findingLog)
      ensures old(findingLog).Some? ==> findingLog.Some?
    {
      var d := Disposition(action);
      if d.Refused? { return Refused(d.error); }
      if id !in obs { return Refused(NotFound("observation", id)); }
      ActionsMean(obs[id], action);
      r := Acted(obs[id], action);
      if r.Ok? { Assess(id, r.value.status, r.value.verdict); }
    }

    /** The scan is stored under its own id, or a new one. */
    method CreateScan(id: string, scan: Scan, uuid: string) returns (sid: string)
      requires FindingsValid()
      modifies this`scans, this`findingLog
      ensures FindingsValid() && sid == (if id == "" then uuid else id) && scans == old(scans)[sid := scan]
      ensures findingLog == F.LogStartScan(old(findingLog), sid, scan)
      ensures old(findingLog).Some? ==>
                (findingLog.Some? <==> scan.status == ScanRunning && sid !in F.Last(old(findingLog).value).usedScans)
    {
      sid := if id == "" then uuid else id;
      F.StartScanIsRecorded(findingLog, Contents(), reopenAfter, sid, scan);
      scans := scans[sid := scan];
      findingLog := F.LogStartScan(findingLog, sid, scan);
    }

    method UpdateScan(sid: string, scan: Scan) returns (found: bool)
      requires FindingsValid()
      modifies this`scans, this`findingLog
      ensures FindingsValid() && found == (sid in old(scans))
      ensures scans == if found then old(scans)[sid := scan] else old(scans)
      ensures findingLog == F.LogUpdateScan(old(findingLog), old(scans), sid, scan)
      ensures old(findingLog).Some? ==>
                (findingLog.Some? <==>
                 (found ==> scan.hostID == old(scans)[sid].hostID && scan.startedAt == old(scans)[sid].startedAt))
    {
      found := sid in scans;
      F.UpdateScanIsRecorded(findingLog, Contents(), reopenAfter, sid, scan);
      findingLog := F.LogUpdateScan(findingLog, scans, sid, scan);
      if found { scans := scans[sid := scan]; }
    }

    // -------------------------------------------------------------- retention

    /** The audit trail keeps its newest five thousand events. */
    method AppendAudit(event: AuditEvent, uuid: string, now: nat)
      modifies this`audit
      ensures 0 < |audit| <= 5000
      ensures var e := audit[|audit| - 1];
              && e.id == (if event.id == "" then uuid else event.id)
              && e.time == (if event.time == 0 then now else event.time) && e.action == event.action
      ensures var all := old(audit) + [audit[|audit| - 1]]; audit == if |all| > 5000 then all[|all| - 5000..] else all
    {
      var time := if event.time == 0 then now else event.time;
      var e := event.(id := if event.id == "" then uuid else event.id, time := time);
      audit := audit + [e];
      if |audit| > 5000 { audit := audit[|audit| - 5000..]; }
    }

    method ArchiveObservations(age: int, now: nat) returns (count: nat, ghost order: seq<string>)
      requires IndexAgrees(obs, dedup) && WellKeyed(obs)
      modifies this`obs, this`dedup, this`archive
      ensures IndexAgrees(obs, dedup) && WellKeyed(obs)
      ensures IsListing(order, if age > 0 then ExpiredIDs(old(obs), age, now) else {}) && count == |order|
      ensures obs == Remaining(old(obs), order) && dedup == Unlisted(old(dedup), old(obs), order)
      ensures archive == old(archive) + ArchivedObservations(old(obs), order, now)
    {
      count, order := 0, [];
      if age <= 0 {
        ArchivingStarts(obs, dedup, archive, 0, now);
        return;
      }
      var rest := obs.Keys;
      ArchivingStarts(obs, dedup, archive, age, now);
      while rest != {}
        invariant count == |order|
        invariant Archiving(old(obs), old(dedup), old(archive), age, now, rest, order, obs, dedup, archive)
      {
        var id :| id in rest;
        var o := obs[id];
        assert o == old(obs)[id];
        if Closed(o.status) && o.lastSeen + age < now {
          ArchivingTakes(old(obs), old(dedup), old(archive), age, now, rest, order, obs, dedup, archive, id);
          archive := archive + [ArchivedRecord(id, now, OfObservation(o))];
          obs := obs - {id};
          dedup := WithoutEntry(dedup, o.hostID, o.dedupKey);
          order, count := order + [id], count + 1;
        } else {
          ArchivingSkips(old(obs), old(dedup), old(archive), age, now, rest, order, obs, dedup, archive, id);
        }
        rest := rest - {id};
      }
      assert ExpiredIDs(old(obs), age, now) - rest == ExpiredIDs(old(obs), age, now);
      UnlistingKeepsIndex(old(obs), old(dedup), order);
    }

    method ArchiveScans(age: int, now: nat) returns (count: nat, ghost order: seq<string>)
      modifies this`scans, this`archive
      ensures IsListing(order, if age > 0 then ExpiredScans(old(scans), age, now) else {}) && count == |order|
      ensures scans == old(scans) - (set sid | sid in order)
      ensures archive == old(archive) + ArchivedScans(old(scans), order, now)
    {
      count, order := 0, [];
      assert archive + [] == archive && scans - (set sid: string | sid in []) == scans;
      if age <= 0 { return; }
      var rest := scans.Keys;
      while rest != {}
        invariant rest <= old(scans).Keys && count == |order|
        invariant IsListing(order, ExpiredScans(old(scans), age, now) - rest)
        invariant forall sid :: sid in rest ==> sid !in order
        invariant ScansMoved(old(scans), old(archive), order, now, scans, archive)
      {
        var sid :| sid in rest;
        ghost var listed := ExpiredScans(old(scans), age, now) - rest;
        rest := rest - {sid};
        if scans[sid].startedAt + age < now {
          ListsOneMore(order, listed, sid);
          assert ExpiredScans(old(scans), age, now) - rest == listed + {sid};
          ScansMoveOneMore(old(scans), old(archive), order, sid, now, scans, archive);
          archive := archive + [ArchivedRecord(sid, now, OfScan(scans[sid]))];
          scans := scans - {sid};
          order, count := order + [sid], count + 1;
        } else {
          assert ExpiredScans(old(scans), age, now) - rest == listed;
        }
      }
      assert ExpiredScans(old(scans), age, now) - rest == ExpiredScans(old(scans), age, now);
    }

    method ArchiveEvents(age: int, now: nat) returns (events: seq<AuditEvent>)
      modifies this`audit, this`archive
      ensures events == if age > 0 then ExpiredEvents(old(audit), age, now) else []
      ensures audit == if age > 0 then KeptEvents(old(audit), age, now) else old(audit)
      ensures archive == old(archive) + ArchivedEvents(events, now)
    {
      events := [];
      if age <= 0 { return; }
      var kept := [];
      for n := 0 to |audit|
        invariant audit == old(audit) && kept == KeptEvents(audit[..n], age, now)
                  && events == ExpiredEvents(audit[..n], age, now)
        invariant archive == old(archive) + ArchivedEvents(events, now)
      {
        assert audit[..n + 1][..n] == audit[..n];
        if audit[n].time + age < now {
          assert (events + [audit[n]])[..|events|] == events;
          archive := archive + [ArchivedRecord(audit[n].id, now, OfAudit(audit[n]))];
          events := events + [audit[n]];
        } else {
          kept := kept + [audit[n]];
        }
      }
      assert audit[..|audit|] == audit;
      audit := kept;
    }

    method PurgeArchive(age: int, now: nat) returns (count: nat)
      modifies this`archive
      ensures archive == if age > 0 then Purged(old(archive), age, now) else old(archive)
      ensures count == |old(archive)| - |archive|
    {
      count := 0;
      if age <= 0 { return; }
      var kept := [];
      for n := 0 to |archive|
        invariant archive == old(archive) && kept == Purged(archive[..n], age, now) && count + |kept| == n
      {
        assert archive[..n + 1][..n] == archive[..n];
        if archive[n].archivedAt + age < now { count := count + 1; } else { kept := kept + [archive[n]]; }
      }
      assert archive[..|archive|] == archive;
      archive := kept;
    }

    /** Retention without its place in the history. */
    method MoveAndPurge(policy: Policy, now: nat)
        returns (r: RetentionResult, ghost order: seq<string>, ghost scanOrder: seq<string>,
                 ghost events: seq<AuditEvent>)
      requires IndexAgrees(obs, dedup) && WellKeyed(obs)
      modifies this`obs, this`dedup, this`scans, this`audit, this`archive
      ensures IndexAgrees(obs, dedup) && WellKeyed(obs)
      ensures IsListing(order,
                        if policy.observationAge > 0 then ExpiredIDs(old(obs), policy.observationAge, now) else {})
      ensures IsListing(scanOrder, if policy.scanAge > 0 then ExpiredScans(old(scans), policy.scanAge, now) else {})
      ensures events == if policy.auditAge > 0 then ExpiredEvents(old(audit), policy.auditAge, now) else []
      ensures audit == if policy.auditAge > 0 then KeptEvents(old(audit), policy.auditAge, now) else old(audit)
      ensures obs == Remaining(old(obs), order) && dedup == Unlisted(old(dedup), old(obs), order)
      ensures scans == old(scans) - (set sid | sid in scanOrder)
      ensures var grown := F.Grown(old(archive), old(obs), old(scans), order, scanOrder, events, now);
              && archive == (if policy.archiveAge > 0 then Purged(grown, policy.archiveAge, now) else grown)
              && r == RetentionResult(|order|, |scanOrder|, |events|, |grown| - |archive|)
    {
      var observed, scanned, purged;
      observed, order := ArchiveObservations(policy.observationAge, now);
      scanned, scanOrder := ArchiveScans(policy.scanAge, now);
      var expired := ArchiveEvents(policy.auditAge, now);
      purged := PurgeArchive(policy.archiveAge, now);
      events := expired;
      r := RetentionResult(observed, scanned, |expired|, purged);
    }

    method ApplyRetention(policy: Policy, now: nat)
        returns (r: RetentionResult, ghost order: seq<string>, ghost scanOrder: seq<string>,
                 ghost events: seq<AuditEvent>)
      requires FindingsValid()
      modifies this`obs, this`dedup, this`scans, this`audit, this`archive, this`findingLog
      ensures FindingsValid()
      ensures IsListing(order,
                        if policy.observationAge > 0 then ExpiredIDs(old(obs), policy.observationAge, now) else {})
      ensures IsListing(scanOrder, if policy.scanAge > 0 then ExpiredScans(old(scans), policy.scanAge, now) else {})
      ensures events == if policy.auditAge > 0 then ExpiredEvents(old(audit), policy.auditAge, now) else []
      ensures audit == if policy.auditAge > 0 then KeptEvents(old(audit), policy.auditAge, now) else old(audit)
      ensures Contents() == F.RetainedContents(old(Contents()), policy, order, scanOrder, events, now)
      ensures var grown := F.Grown(old(archive), old(obs), old(scans), order, scanOrder, events, now);
              r == RetentionResult(|order|, |scanOrder|, |events|, |grown| - |archive|)
      ensures findingLog == F.LogRetain(old(findingLog), policy, order, scanOrder, events, now)
    {
      ghost var log, c := findingLog, Contents();
      r, order, scanOrder, events := MoveAndPurge(policy, now);
      F.RetainIsRecorded(log, c, reopenAfter, policy, order, scanOrder, events, now);
      findingLog := F.LogRetain(log, policy, order, scanOrder, events, now);
    }

    // -------------------------------------------------------------- export targets and deliveries

    /** Stored under the caller's id or a new one, with the creation time it lacks. */
    method CreateExportTarget(id: string, target: D.ExportTarget, uuid: string, now: nat) returns (key: string)
      requires FindingsValid()
      modifies this`exports, this`findingLog
      ensures FindingsValid() && key == if id == "" then uuid else id
      ensures var createdAt := if target.createdAt == 0 then now else target.createdAt;
              exports == old(exports)[key := target.(createdAt := createdAt, updatedAt := now)]
      ensures findingLog == F.LogExport(old(findingLog), true, D.SetTarget(key, exports[key]))
      ensures old(findingLog).Some? ==> findingLog.Some?
    {
      key := if id == "" then uuid else id;
      var t := target.(createdAt := if target.createdAt == 0 then now else target.createdAt, updatedAt := now);
      F.ExportIsRecorded(findingLog, Contents(), reopenAfter, true, D.SetTarget(key, t), exports[key := t], deliveries);
      findingLog := F.LogExport(findingLog, true, D.SetTarget(key, t));
      exports := exports[key := t];
    }

    method UpdateExportTarget(id: string, target: D.ExportTarget, now: nat) returns (found: bool)
      requires FindingsValid()
      modifies this`exports, this`findingLog
      ensures FindingsValid() && found == (id in old(exports))
      ensures exports == if found then old(exports)[id := target.(updatedAt := now)] else old(exports)
      ensures findingLog ==
              if found then F.LogExport(old(findingLog), true, D.SetTarget(id, exports[id]))
              else old(findingLog)
      ensures old(findingLog).Some? ==> findingLog.Some?
    {
      found := id in exports;
      if found {
        var t := target.(updatedAt := now);
        F.ExportIsRecorded(findingLog, Contents(), reopenAfter, true, D.SetTarget(id, t), exports[id := t], deliveries);
        findingLog := F.LogExport(findingLog, true, D.SetTarget(id, t));
        exports := exports[id := t];
      }
    }

    method DropDeliveries(target: string)
      modifies this`deliveries
      ensures deliveries == old(deliveries) - D.OfTarget(old(deliveries), target)
    {
      var rest := deliveries.Keys;
      while rest != {}
        invariant rest <= old(deliveries).Keys
        invariant deliveries == old(deliveries) - (D.OfTarget(old(deliveries), target) - rest)
      {
        var d :| d in rest;
        rest := rest - {d};
        if deliveries[d].targetID == target { deliveries := deliveries - {d}; }
      }
    }

    method DeleteExportTarget(id: string) returns (found: bool)
      requires FindingsValid()
      modifies this`exports, this`deliveries, this`findingLog
      ensures FindingsValid() && found == (id in old(exports))
      ensures exports == if found then old(exports) - {id} else old(exports)
      ensures deliveries == if found then old(deliveries) - D.OfTarget(old(deliveries), id) else old(deliveries)
      ensures findingLog == if found then F.LogExport(old(findingLog), true, D.DeleteTarget(id)) else old(findingLog)
      ensures old(findingLog).Some? ==> findingLog.Some?
    {
      found := id in exports;
      if !found { return; }
      F.ExportIsRecorded(findingLog, Contents(), reopenAfter, true, D.DeleteTarget(id), exports - {id},
                         deliveries - D.OfTarget(deliveries, id));
      findingLog := F.LogExport(findingLog, true, D.DeleteTarget(id));
      exports := exports - {id};
      DropDeliveries(id);
    }

    method ClaimExportDelivery(worker: string, now: nat, lease: nat) returns (r: Result<(string, D.ExportDelivery)>)
      requires FindingsValid()
      modifies this`deliveries, this`findingLog
      ensures FindingsValid()
      ensures r.Refused? ==> findingLog == old(findingLog) && deliveries == old(deliveries)
                             && forall id :: id in deliveries ==> !D.Claimable(deliveries[id], exports, now)
      ensures r.Ok? ==> var (id, claimed) := r.value;
                        && D.OldestClaimable(old(deliveries), exports, id, now)
                        && claimed == D.Claimed(old(deliveries)[id], worker, now, lease)
                        && deliveries == old(deliveries)[id := claimed]
                        && findingLog == F.LogExport(old(findingLog), true, D.Claim(worker, id, now, lease))
      ensures r.Refused? ==> forall id :: id in deliveries ==> !DeliveryIsDue(deliveries[id], exports, now)
      ensures r.Ok? ==> DeliveryIsDue(old(deliveries)[r.value.0], exports, now)
                        && forall id :: id in old(deliveries) && DeliveryIsDue(old(deliveries)[id], exports, now) ==>
                             old(deliveries)[r.value.0].createdAt <= old(deliveries)[id].createdAt
    {
      var outbox, targets := deliveries, exports;
      var oldest := OldestDelivery(outbox, targets, now);
      if oldest.None? { return Refused(NotFound("export delivery", "claimable")); }
      var id := oldest.value;
      var d := D.Claimed(outbox[id], worker, now, lease);
      F.ExportIsRecorded(findingLog, Contents(), reopenAfter, true, D.Claim(worker, id, now, lease), exports,
                         outbox[id := d]);
      findingLog := F.LogExport(findingLog, true, D.Claim(worker, id, now, lease));
      deliveries := outbox[id := d];
      r := Ok((id, d));
    }

    /** Here too an accepted call comes from the worker that made the latest claim. */
    method RenewExportDeliveryLease(id: string, worker: string, until: nat, now: nat) returns (accepted: bool)
      requires FindingsValid()
      modifies this`deliveries, this`findingLog
      ensures FindingsValid() && accepted == D.Owned(old(deliveries), id, worker)
      ensures deliveries ==
              if accepted then old(deliveries)[id := D.Renewed(old(deliveries)[id], until, now)]
              else old(deliveries)
      ensures findingLog == F.LogExport(old(findingLog), true, D.Renew(worker, id, until, now))
      ensures old(findingLog).Some? ==> findingLog.Some?
      ensures accepted && old(findingLog).Some? ==> D.ClaimedLast(F.Last(old(findingLog).value).exports, id, worker)
    {
      accepted := D.Owned(deliveries, id, worker);
      F.RenewDeliveryIsRecorded(findingLog, Contents(), reopenAfter, id, worker, until, now);
      if accepted && findingLog.Some? { F.OwnerClaimedLast(findingLog.value, Contents(), reopenAfter, id, worker); }
      findingLog := F.LogExport(findingLog, true, D.Renew(worker, id, until, now));
      if accepted { deliveries := deliveries[id := D.Renewed(deliveries[id], until, now)]; }
    }

    method CompleteExportDelivery(id: string, worker: string, now: nat) returns (accepted: bool)
      requires FindingsValid()
      modifies this`deliveries, this`findingLog
      ensures FindingsValid() && accepted == D.Owned(old(deliveries), id, worker)
      ensures deliveries ==
              if accepted then old(deliveries)[id := D.Completed(old(deliveries)[id], now)]
              else old(deliveries)
      ensures findingLog == F.LogExport(old(findingLog), F.AtWork(old(findingLog), worker, id), D.Complete(worker, now))
      ensures accepted && old(findingLog).Some? ==> D.ClaimedLast(F.Last(old(findingLog).value).exports, id, worker)
    {
      accepted := D.Owned(deliveries, id, worker);
      F.CompleteDeliveryIsRecorded(findingLog, Contents(), reopenAfter, id, worker, now);
      if accepted && findingLog.Some? { F.OwnerClaimedLast(findingLog.value, Contents(), reopenAfter, id, worker); }
      findingLog := F.LogExport(findingLog, F.AtWork(findingLog, worker, id), D.Complete(worker, now));
      if accepted { deliveries := deliveries[id := D.Completed(deliveries[id], now)]; }
    }

    method FailExportDelivery(id: string, worker: string, message: string, retryAt: nat, terminal: bool, now: nat)
      returns (accepted: bool)
      requires FindingsValid()
      modifies this`deliveries, this`findingLog
      ensures FindingsValid() && accepted == D.Owned(old(deliveries), id, worker)
      ensures deliveries ==
              if accepted then old(deliveries)[id := D.GivenBack(old(deliveries)[id], message, retryAt, terminal, now)]
              else old(deliveries)
      ensures findingLog
              == F.LogExport(old(findingLog), F.AtWork(old(findingLog), worker, id),
                             D.Fail(worker, message, retryAt, terminal, now))
      ensures accepted && old(findingLog).Some? ==> D.ClaimedLast(F.Last(old(findingLog).value).exports, id, worker)
    {
      accepted := D.Owned(deliveries, id, worker);
      F.FailDeliveryIsRecorded(findingLog, Contents(), reopenAfter, id, worker, message, retryAt, terminal, now);
      if accepted && findingLog.Some? { F.OwnerClaimedLast(findingLog.value, Contents(), reopenAfter, id, worker); }
      findingLog :=
        F.LogExport(findingLog, F.AtWork(findingLog, worker, id), D.Fail(worker, message, retryAt, terminal, now));
      if accepted { deliveries := deliveries[id := D.GivenBack(deliveries[id], message, retryAt, terminal, now)]; }
    }

    method RetryExportDelivery(id: string, now: nat) returns (accepted: bool)
      requires FindingsValid()
      modifies this`deliveries, this`findingLog
      ensures FindingsValid() && accepted == (id in old(deliveries) && old(deliveries)[id].status == D.Dead)
      ensures deliveries ==
              if accepted then old(deliveries)[id := D.Retried(old(deliveries)[id], now)]
              else old(deliveries)
      ensures findingLog == if accepted then F.LogExport(old(findingLog), true, D.Retry(id, now)) else old(findingLog)
      ensures old(findingLog).Some? ==> findingLog.Some?
    {
      accepted := id in deliveries && deliveries[id].status == D.Dead;
      if accepted {
        var d := D.Retried(deliveries[id], now);
        F.ExportIsRecorded(findingLog, Contents(), reopenAfter, true, D.Retry(id, now), exports, deliveries[id := d]);
        findingLog := F.LogExport(findingLog, true, D.Retry(id, now));
        deliveries := deliveries[id := d];
      }
    }

    // -------------------------------------------------------------- response actions

    method CreateResponseAction(action: R.ResponseAction, uuid: string, now: nat) returns (r: Result<R.ResponseAction>)
      requires ResponsesValid()
      modifies this`responses, this`responseLog
      ensures ResponsesValid() && (r.Refused? <==> action.hostID !in hosts)
      ensures r.Refused? ==>
                r.error == NotFound("host", action.hostID) && responses == old(responses)
                  && responseLog == old(responseLog)
      ensures r.Ok? ==> r.value == R.Defaulted(action, uuid, now) && responses == old(responses)[r.value.id := r.value]
                        && responseLog == R.LogCreate(old(responseLog), action, uuid, now)
      ensures r.Ok? && old(responseLog).Some? ==>
                (responseLog.Some? <==> action == R.Request(action.hostID, action.requestedBy) && uuid != ""
                                        && uuid !in old(responses))
      ensures r.Ok? ==> var status := if action.status.Unset? then R.Pending else action.status;
                        r.value == action.(id := if action.id != "" then action.id else uuid, status := status,
                                           createdAt := if action.createdAt > 0 then action.createdAt else now,
                                           updatedAt := now)
    {
      if action.hostID !in hosts { return Refused(NotFound("host", action.hostID)); }
      var stored := R.Defaulted(action, uuid, now);
      R.CreateIsRecorded(responseLog, responses, allowSelfApproval, action, uuid, now);
      responseLog := R.LogCreate(responseLog, action, uuid, now);
      responses := responses[stored.id := stored];
      r := Ok(stored);
    }

    method ApproveResponseAction(id: string, approver: string, now: nat) returns (r: Result<R.ResponseAction>)
      requires ResponsesValid()
      modifies this`responses, this`responseLog
      ensures ResponsesValid()
      ensures r == if !R.IsPending(old(responses), id) then Refused(NotFound("pending response action", id))
                   else if !R.MayApprove(old(responses)[id], approver, allowSelfApproval) then
                     Refused(SelfApproval(id, approver))
                   else Ok(R.ApprovedBy(old(responses)[id], approver, now))
      ensures responses == if r.Ok? then old(responses)[id := r.value] else old(responses)
      ensures responseLog == R.Recorded(old(responseLog), R.Approve(id, approver, now))
      ensures old(responseLog).Some? ==> responseLog.Some?
    {
      R.ApproveIsRecorded(responseLog, responses, allowSelfApproval, id, approver, now);
      responseLog := R.Recorded(responseLog, R.Approve(id, approver, now));
      if id !in responses || responses[id].status != R.Pending {
        return Refused(NotFound("pending response action", id));
      }
      if responses[id].requestedBy == approver && !allowSelfApproval { return Refused(SelfApproval(id, approver)); }
      var a := R.ApprovedBy(responses[id], approver, now);
      responses := responses[id := a];
      r := Ok(a);
    }

    method RejectResponseAction(id: string, rejector: string, reason: string, now: nat) returns (accepted: bool)
      requires ResponsesValid()
      modifies this`responses, this`responseLog
      ensures ResponsesValid() && accepted == R.IsPending(old(responses), id)
      ensures responses ==
              if accepted then old(responses)[id := R.RejectedBy(old(responses)[id], rejector, reason, now)]
              else old(responses)
      ensures accepted ==> var a := responses[id];
                a.status == R.Rejected && a.rejectedBy == rejector && a.rejectReason == reason
                  && a.rejectedAt == Some(now)
                && a.startedAt == old(responses)[id].startedAt
      ensures responseLog == R.Recorded(old(responseLog), R.Reject(id, rejector, reason, now))
      ensures old(responseLog).Some? ==> responseLog.Some?
    {
      accepted := R.IsPending(responses, id);
      R.RejectIsRecorded(responseLog, responses, allowSelfApproval, id, rejector, reason, now);
      responseLog := R.Recorded(responseLog, R.Reject(id, rejector, reason, now));
      if accepted { responses := responses[id := R.RejectedBy(responses[id], rejector, reason, now)]; }
    }

    method ClaimResponseAction(worker: string, now: nat, lease: nat) returns (r: Result<(string, R.ResponseAction)>)
      requires ResponsesValid()
      modifies this`responses, this`responseLog
      ensures ResponsesValid()
      ensures r.Refused? ==> responses == old(responses) && responseLog == old(responseLog)
                             && forall id :: id in responses ==> !R.Claimable(responses[id], now)
      ensures r.Ok? ==> var (id, claimed) := r.value;
                        && R.OldestClaimable(old(responses), id, now)
                        && claimed == R.Claimed(old(responses)[id], worker, now, lease)
                        && responses == old(responses)[id := claimed]
                        && responseLog == R.LogClaim(old(responseLog), worker, id, now, lease)
      ensures r.Refused? ==> forall id :: id in responses ==> !ActionIsDue(responses[id], now)
      ensures r.Ok? ==> ActionIsDue(old(responses)[r.value.0], now)
                        && forall id :: id in old(responses) && ActionIsDue(old(responses)[id], now) ==>
                             old(responses)[r.value.0].createdAt <= old(responses)[id].createdAt
    {
      var actions := responses;
      var oldest := OldestAction(actions, now);
      if oldest.None? { return Refused(NotFound("response action", "claimable")); }
      var id := oldest.value;
      var a := R.Claimed(actions[id], worker, now, lease);
      R.ClaimIsRecorded(responseLog, responses, allowSelfApproval, worker, id, now, lease);
      responseLog := R.LogClaim(responseLog, worker, id, now, lease);
      responses := actions[id := a];
      r := Ok((id, a));
    }

    /** The owner keeps the action, and exactly until the given time nobody can claim it. */
    method RenewResponseActionLease(id: string, worker: string, until: nat, now: nat) returns (accepted: bool)
      requires ResponsesValid()
      modifies this`responses, this`responseLog
      ensures ResponsesValid() && accepted == R.Owned(old(responses), id, worker)
      ensures responses ==
              if accepted then old(responses)[id := R.Renewed(old(responses)[id], until, now)]
              else old(responses)
      ensures R.Owned(responses, id, worker) == accepted
      ensures accepted ==> forall later :: ActionIsDue(responses[id], later) <==> until <= later
      ensures responseLog == R.Recorded(old(responseLog), R.Renew(worker, id, until, now))
      ensures old(responseLog).Some? ==>
                (responseLog.Some? <==>
                 (id in old(responses) && old(responses)[id].leaseUntil.Some? ==>
                    old(responses)[id].leaseUntil.value <= until))
      ensures accepted && old(responseLog).Some? ==> R.MadeLatestClaim(R.Last(old(responseLog).value), id, worker)
    {
      accepted := R.Owned(responses, id, worker);
      if accepted && responseLog.Some? {
        R.OwnerClaimedLast(responseLog.value, responses, allowSelfApproval, id, worker);
      }
      R.RenewIsRecorded(responseLog, responses, allowSelfApproval, id, worker, until, now);
      responseLog := R.Recorded(responseLog, R.Renew(worker, id, until, now));
      if accepted { responses := responses[id := R.Renewed(responses[id], until, now)]; }
    }

    /** The action is finished for good: nobody owns it and nobody can claim it, and it keeps who asked for
        it, who approved it and when it started. */
    method CompleteResponseAction(id: string, worker: string, output: string, now: nat) returns (accepted: bool)
      requires ResponsesValid()
      modifies this`responses, this`responseLog
      ensures ResponsesValid() && accepted == R.Owned(old(responses), id, worker)
      ensures responses ==
              if accepted then old(responses)[id := R.Completed(old(responses)[id], output, now)]
              else old(responses)
      ensures accepted ==> FinishedWith(old(responses)[id], responses[id], now) && responses[id].status == R.Succeeded
                           && responses[id].output == output && responses[id].error == ""
      ensures responseLog == R.LogReport(old(responseLog), id, worker, true, output, now)
      ensures accepted && old(responseLog).Some? ==> R.MadeLatestClaim(R.Last(old(responseLog).value), id, worker)
    {
      accepted := R.Owned(responses, id, worker);
      if accepted && responseLog.Some? {
        R.OwnerClaimedLast(responseLog.value, responses, allowSelfApproval, id, worker);
      }
      R.ReportIsRecorded(responseLog, responses, allowSelfApproval, id, worker, true, output, now);
      responseLog := R.LogReport(responseLog, id, worker, true, output, now);
      if accepted { responses := responses[id := R.Completed(responses[id], output, now)]; }
    }

    method FailResponseAction(id: string, worker: string, message: string, now: nat) returns (accepted: bool)
      requires ResponsesValid()
      modifies this`responses, this`responseLog
      ensures ResponsesValid() && accepted == R.Owned(old(responses), id, worker)
      ensures responses ==
              if accepted then old(responses)[id := R.FailedWith(old(responses)[id], message, now)]
              else old(responses)
      ensures accepted ==> FinishedWith(old(responses)[id], responses[id], now) && responses[id].status == R.Failed
                           && responses[id].error == message && responses[id].output == old(responses)[id].output
      ensures responseLog == R.LogReport(old(responseLog), id, worker, false, message, now)
      ensures accepted && old(responseLog).Some? ==> R.MadeLatestClaim(R.Last(old(responseLog).value), id, worker)
    {
      accepted := R.Owned(responses, id, worker);
      if accepted && responseLog.Some? {
        R.OwnerClaimedLast(responseLog.value, responses, allowSelfApproval, id, worker);
      }
      R.ReportIsRecorded(responseLog, responses, allowSelfApproval, id, worker, false, message, now);
      responseLog := R.LogReport(responseLog, id, worker, false, message, now);
      if accepted { responses := responses[id := R.FailedWith(responses[id], message, now)]; }
    }

    /** What a response worker and the clock do away from the store. */
    ghost method NoteResponseWorker(step: R.Step)
      requires ResponsesValid() && (step.Begin? || step.Stop? || step.Crash? || step.Tick?)
      modifies this`responseLog
      ensures ResponsesValid() && responseLog == R.Recorded(old(responseLog), step)
    {
      R.WorkerIsRecorded(responseLog, responses, allowSelfApproval, step);
      responseLog := R.Recorded(responseLog, step);
    }
  }

  /** What the filter leaves free or the row has, and comes after the cursor in the order of the listing. */
  predicate Asked(o: Observation, f: P.Filter) {
    && (f.hostID != "" ==> o.hostID == f.hostID) && (f.severity != "" ==> o.severity == f.severity)
    && (f.verdict.Some? ==> o.verdict == f.verdict.value) && (f.status.Some? ==> o.status == f.status.value)
    && (f.source != "" ==> o.source == f.source) && (f.ruleID != "" ==> o.ruleID == f.ruleID) && f.text(o)
    && (f.beforeTime != 0 ==>
          o.lastSeen < f.beforeTime || (o.lastSeen == f.beforeTime && Less(o.id, f.beforeID)))
  }

  lemma AskedExactlyWhen(obs: Table, f: P.Filter, o: Observation)
    ensures o in P.Past(P.Matching(obs, f), f.beforeTime, f.beforeID) <==> o in obs.Values && Asked(o, f)
  {
    LessIsTotal(o.id, f.beforeID);
    if Less(o.id, f.beforeID) { LessIsAsymmetric(o.id, f.beforeID); }
  }

  /** Queued with its time come, or running on a lease that has run out. */
  predicate JobIsDue(j: S.ScanJob, now: nat) {
    (j.status == S.Queued && j.nextAttemptAt <= now)
    || (j.status == S.Running && j.leaseUntil.Some? && j.leaseUntil.value <= now)
  }

  /** The same of a delivery, whose target must be enabled. */
  predicate DeliveryIsDue(d: D.ExportDelivery, targets: D.Targets, now: nat) {
    && d.targetID in targets && targets[d.targetID].enabled
    && ((d.status == D.Queued && d.availableAt <= now)
        || (d.status == D.Delivering && d.leaseUntil.Some? && d.leaseUntil.value <= now))
  }

  predicate ActionIsDue(a: R.ResponseAction, now: nat) {
    a.status == R.Approved || (a.status == R.Running && a.leaseUntil.Some? && a.leaseUntil.value <= now)
  }

  /** A finished action: released, never due again, with its past intact. */
  ghost predicate FinishedWith(before: R.ResponseAction, after: R.ResponseAction, now: nat) {
    && after.workerID == "" && after.leaseUntil.None? && after.finishedAt == Some(now)
    && after.requestedBy == before.requestedBy && after.approvedBy == before.approvedBy
    && after.startedAt == before.startedAt
    && forall later :: !ActionIsDue(after, later)
  }

  // ---------------------------------------------------------------- what histories say of the store

  /** While callers keep to the protocol: a queued job has attempts left, it has worker and lease exactly
      while running, and it reads succeeded exactly when one completion of it was accepted. */
  lemma JobsAreSound(store: Memory, id: string)
    requires store.JobsValid() && store.jobLog.Some? && id in store.scanJobs
    ensures var j := store.scanJobs[id];
            && (j.status == S.Running <==> j.workerID != "") && (j.status == S.Running <==> j.leaseUntil.Some?)
            && (j.status == S.Queued ==> j.attempts < j.maxAttempts)
            && var completions := S.Last(store.jobLog.value).completions;
               id in completions && completions[id] == if j.status == S.Succeeded then 1 else 0
  {
    var log := store.jobLog.value;
    S.ReachableJobs(log.run, log.steps, |log.run| - 1, id);
    S.IngestedMeansValidated(log.run, log.steps, |log.run| - 1);
  }

  /** Results were stored only after an ownership check that found the claim to be the latest. */
  lemma ResultsAreValidated(store: Memory)
    requires store.JobsValid() && store.jobLog.Some?
    ensures var s := S.Last(store.jobLog.value);
            forall n :: 0 <= n < |s.ingests| ==> s.ingests[n].validated == s.ingests[n].epoch + 1
  {
    var log := store.jobLog.value;
    S.IngestedMeansValidated(log.run, log.steps, |log.run| - 1);
  }

  /** Live, archived and purged sightings of the store add up to the upserts it has served. */
  lemma StoreConservesSightings(store: Memory)
    requires store.FindingsValid() && store.findingLog.Some?
    ensures var s := F.Last(store.findingLog.value);
            Total(store.obs) + ArchivedTotal(store.archive) + s.purged == s.upserts
  {
    F.LoggedSightings(store.findingLog.value, store.Contents(), store.reopenAfter);
  }

  /** Every delivery of the store belongs to a target, has attempts left while queued, and reads sent exactly
      when one completion of it was accepted. */
  lemma DeliveriesAreSound(store: Memory, id: string)
    requires store.FindingsValid() && store.findingLog.Some? && id in store.deliveries
    ensures var d := store.deliveries[id];
            && d.targetID in store.exports && (d.status == D.Queued ==> d.attempts < d.maxAttempts)
            && (d.status == D.Delivering <==> d.workerID != "") && (d.status == D.Delivering <==> d.leaseUntil.Some?)
            && var completions := F.Last(store.findingLog.value).exports.completions;
               id in completions && completions[id] == if d.status == D.Sent then 1 else 0
  {
    F.LoggedDelivery(store.findingLog.value, store.Contents(), store.reopenAfter, id);
  }

  /** Whatever the store's response actions show as approved or started was approved by a second person. */
  lemma StoreKeepsTwoPersonControl(store: Memory, id: string)
    requires store.ResponsesValid() && store.responseLog.Some? && id in store.responses
    ensures var a := store.responses[id];
            && (a.startedAt.Some? || a.status == R.Approved ==> R.Authorised(a, store.allowSelfApproval))
            && (a.status == R.Rejected ==> a.startedAt.None?)
  {
    R.LoggedControl(store.responseLog.value, store.responses, store.allowSelfApproval, id);
  }

  // ---------------------------------------------------------------- the API's pages

  function PageLimit(raw: Option<int>, fallback: nat): nat {
    if raw.None? || raw.value <= 0 then fallback else if raw.value > 500 then 500 else raw.value
  }

  /** The listing handler: one row more than the page is fetched to learn whether rows remain. */
  method ListPage(store: Memory, f: P.Filter, rawLimit: Option<int>, cursor: Option<P.Cursor>)
    returns (r: Result<P.Page>)
    requires store.FindingsValid() && f.beforeTime == 0
    ensures r.Refused? <==> cursor.Some? && (cursor.value.time == 0 || cursor.value.id == "")
    ensures r.Ok? ==> var limit := if rawLimit.None? || rawLimit.value <= 0 then 100
                                   else if rawLimit.value > 500 then 500 else rawLimit.value;
              |r.value.rows| <= limit && (r.value.next.Some? ==> |r.value.rows| == limit)
    ensures r.Ok? ==> P.Answers(r.value, P.Matching(store.obs, f), PageLimit(rawLimit, 100), cursor)
  {
    var limit := PageLimit(rawLimit, 100);
    var filter := f;
    if cursor.Some? {
      if cursor.value.time == 0 || cursor.value.id == "" { return Refused(InvalidCursor); }
      filter := f.(beforeTime := cursor.value.time, beforeID := cursor.value.id);
    }
    var rows := store.ListObservations(filter, limit + 1);
    assert P.Matching(store.obs, filter) == P.Matching(store.obs, f);
    assert P.Past(P.Matching(store.obs, f), filter.beforeTime, filter.beforeID)
           == P.AfterCursor(P.Matching(store.obs, f), cursor);
    if |rows| > limit {
      var last := rows[limit - 1];
      r := Ok(P.Page(rows[..limit], Some(P.Cursor(last.lastSeen, last.id))));
    } else {
      r := Ok(P.Page(rows, None));
    }
  }

  lemma StoreRowsAreAddressable(store: Memory, f: P.Filter)
    requires store.FindingsValid()
    ensures P.Addressable(P.Matching(store.obs, f))
  {
  }

  /** On an unchanged valid store, a client that follows ListPage's cursors sees exactly the matching rows. */
  lemma FollowingPagesIsComplete(store: Memory, f: P.Filter, limit: nat, pages: seq<P.Page>, list: seq<Observation>)
    requires store.FindingsValid() && limit > 0 && P.Lists(list, P.Matching(store.obs, f))
    requires P.Traverses(pages, P.Matching(store.obs, f), limit, None)
    ensures P.Concatenated(pages) == list && P.NoneWasted(pages, limit)
  {
    StoreRowsAreAddressable(store, f);
    P.PagingIsComplete(pages, list, P.Matching(store.obs, f), limit);
  }
}
