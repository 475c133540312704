/** Findings over whole runs: scans, upserts, operators, retention and export workers acting on one store in
    any order (internal/store/memory.go, internal/scan/runner.go). */
module Findings {
  import opened Observations
  import opened Wrappers
  import D = Deliveries

  /** used, usedScans, upserts, purged and seen are history: ids ever given out, upserts so far, sightings
      purged from the archive, and which finding was stored under which scan. */
  datatype System = System(
    obs: Table, index: Index, scans: Scans, archive: seq<ArchivedRecord>, exports: D.System, clock: nat, window: int,
    used: set<string>, usedScans: set<string>, upserts: nat, purged: int, seen: set<(string, string)>)

  datatype Step =
    | StartScan(sid: string, host: string, startedAt: nat)
    | FinishScan(sid: string, outcome: ScanStatus)
    | Upsert(o: Observation, uuid: string, batch: map<string, string>)
    | Assess(id: string, status: Status, verdict: Verdict)
    | Retain(policy: Policy, order: seq<string>, scanOrder: seq<string>, events: seq<AuditEvent>)
    | Export(step: D.Step)
    | Tick(clock: nat)

  ghost predicate Enabled(s: System, step: Step) {
    match step
    case StartScan(sid, _, startedAt) => sid !in s.usedScans && startedAt <= s.clock
    case FinishScan(sid, _) => sid in s.scans
    case Upsert(o, uuid, batch) =>
      && o.id == "" && uuid !in s.used
      && (Known(s.index, o) ==> ListedID(s.index, o.hostID, o.dedupKey) in s.obs)
      && D.Allowed(s.exports, D.FanOut(batch, UpsertedID(s.index, o, uuid), s.clock))
    case Assess(id, _, _) => id in s.obs
    case Retain(policy, order, scanOrder, _) =>
      && IsListing(order, if policy.observationAge > 0 then ExpiredIDs(s.obs, policy.observationAge, s.clock) else {})
      && IsListing(scanOrder, if policy.scanAge > 0 then ExpiredScans(s.scans, policy.scanAge, s.clock) else {})
    case Export(d) => !d.FanOut? && D.Allowed(s.exports, d)
    case Tick(clock) => s.clock <= clock
  }

  /** The archive once the given observations, scans and events have been moved there. */
  function Grown(archive: seq<ArchivedRecord>, obs: Table, scans: Scans, order: seq<string>, scanOrder: seq<string>,
                 events: seq<AuditEvent>, now: nat): seq<ArchivedRecord>
    requires (forall id :: id in order ==> id in obs) && (forall id :: id in scanOrder ==> id in scans)
  {
    archive + ArchivedObservations(obs, order, now) + ArchivedScans(scans, scanOrder, now) + ArchivedEvents(events, now)
  }

  function Retained(s: System, policy: Policy, order: seq<string>, scanOrder: seq<string>, events: seq<AuditEvent>)
      : System
    requires (forall id :: id in order ==> id in s.obs) && (forall id :: id in scanOrder ==> id in s.scans)
  {
    var archive := Grown(s.archive, s.obs, s.scans, order, scanOrder, events, s.clock);
    var kept := if policy.archiveAge > 0 then Purged(archive, policy.archiveAge, s.clock) else archive;
    s.(obs := Remaining(s.obs, order), index := Unlisted(s.index, s.obs, order),
       scans := s.scans - (set id | id in scanOrder),
       archive := kept, purged := s.purged + ArchivedTotal(archive) - ArchivedTotal(kept))
  }

  ghost function Apply(s: System, step: Step): System
    requires Enabled(s, step)
  {
    match step
    case StartScan(sid, host, startedAt) =>
      s.(scans := s.scans[sid := Scan(host, ScanRunning, startedAt)], usedScans := s.usedScans + {sid})
    case FinishScan(sid, outcome) => s.(scans := s.scans[sid := s.scans[sid].(status := outcome)])
    case Upsert(o, uuid, batch) =>
      var id := UpsertedID(s.index, o, uuid);
      s.(obs := UpsertedTable(s.obs, s.index, s.scans, o, uuid, s.clock, s.window),
         index := UpsertedIndex(s.index, o, uuid),
         exports := D.Apply(s.exports, D.FanOut(batch, id, s.clock)), used := s.used + {id}, upserts := s.upserts + 1,
         seen := if o.scanID in s.scans then s.seen + {(id, o.scanID)} else s.seen)
    case Assess(id, status, verdict) => s.(obs := s.obs[id := Assessed(s.obs[id], status, verdict)])
    case Retain(policy, order, scanOrder, events) => Retained(s, policy, order, scanOrder, events)
    case Export(d) => s.(exports := D.Apply(s.exports, d))
    case Tick(clock) => s.(clock := clock)
  }

  function Initial(window: int): System {
    System(map[], map[], map[], [], D.INITIAL, 0, window, {}, {}, 0, 0, {})
  }

  ghost predicate IsRun(run: seq<System>, steps: seq<Step>) {
    && |run| == |steps| + 1
    && run[0] == Initial(run[0].window)
    && forall k :: 0 <= k < |steps| ==> Enabled(run[k], steps[k]) && run[k + 1] == Apply(run[k], steps[k])
  }

  // ---------------------------------------------------------------- invariants

  ghost predicate Indexed(s: System) {
    IndexAgrees(s.obs, s.index) && s.obs.Keys <= s.used
  }

  ghost predicate Counted(s: System) {
    Total(s.obs) + ArchivedTotal(s.archive) + s.purged == s.upserts
  }

  ghost predicate SeenOK(obs: Table, scans: Scans, p: (string, string)) {
    p.0 in obs && p.1 in scans ==> scans[p.1].startedAt <= obs[p.0].lastSeen
  }

  /** A finding stored under a scan was last seen no earlier than that scan started. */
  ghost predicate Timed(s: System) {
    && (forall sid :: sid in s.scans ==> sid in s.usedScans && s.scans[sid].startedAt <= s.clock)
    && (forall id :: id in s.obs ==> s.obs[id].lastSeen <= s.clock)
    && (forall p :: p in s.seen ==> p.0 in s.used && p.1 in s.usedScans && SeenOK(s.obs, s.scans, p))
  }

  ghost predicate Inv(s: System) {
    Indexed(s) && Counted(s) && Timed(s) && D.Inv(s.exports)
  }

  /** In every reachable store an upsert of a known pair finds its record. */
  lemma KnownPairsAreStored(s: System, o: Observation)
    requires Inv(s)
    ensures Known(s.index, o) ==> ListedID(s.index, o.hostID, o.dedupKey) in s.obs
  {
    KnownIsStored(s.obs, s.index, o);
  }

  lemma UpsertKeepsInv(s: System, step: Step)
    requires Indexed(s) && Counted(s) && Enabled(s, step) && step.Upsert?
    ensures Indexed(Apply(s, step)) && Counted(Apply(s, step))
  {
    UpsertKeepsIndexExactlyWhen(s.obs, s.index, s.scans, step.o, step.uuid, s.clock, s.window);
    UpsertAddsOneSighting(s.obs, s.index, s.scans, step.o, step.uuid, s.clock, s.window);
  }

  lemma UpsertKeepsTimes(s: System, step: Step)
    requires Timed(s) && s.obs.Keys <= s.used && Enabled(s, step) && step.Upsert?
    ensures Timed(Apply(s, step))
  {
    var s' := Apply(s, step);
    forall p | p in s'.seen
      ensures p.0 in s'.used && p.1 in s'.usedScans && SeenOK(s'.obs, s'.scans, p)
    {
      assert p in s.seen ==> SeenOK(s.obs, s.scans, p);
    }
  }

  lemma RetentionCounts(s: System, step: Step)
    requires Indexed(s) && Counted(s) && Enabled(s, step) && step.Retain?
    ensures Indexed(Apply(s, step)) && Counted(Apply(s, step))
  {
    UnlistingKeepsIndex(s.obs, s.index, step.order);
    ArchivingMovesSightings(s.obs, step.order, s.clock);
    ArchivedScansHoldNone(s.scans, step.scanOrder, s.clock);
    ArchivedEventsHoldNone(step.events, s.clock);
    var moved, scanned :=
      ArchivedObservations(s.obs, step.order, s.clock), ArchivedScans(s.scans, step.scanOrder, s.clock);
    ArchivedTotalConcat(s.archive, moved);
    ArchivedTotalConcat(s.archive + moved, scanned);
    ArchivedTotalConcat(s.archive + moved + scanned, ArchivedEvents(step.events, s.clock));
  }

  lemma AssessKeepsInv(s: System, step: Step)
    requires Indexed(s) && Counted(s) && Enabled(s, step) && step.Assess?
    ensures Indexed(Apply(s, step)) && Counted(Apply(s, step))
  {
    var o := Assessed(s.obs[step.id], step.status, step.verdict);
    SamePairKeepsIndex(s.obs, s.index, step.id, o);
    TotalUpdate(s.obs, step.id, o);
  }

  lemma OtherKeepsTimes(s: System, step: Step)
    requires Timed(s) && Enabled(s, step) && !step.Upsert?
    ensures Timed(Apply(s, step))
  {
    var s' := Apply(s, step);
    forall p | p in s'.seen
      ensures p.0 in s'.used && p.1 in s'.usedScans && SeenOK(s'.obs, s'.scans, p)
    {
      assert SeenOK(s.obs, s.scans, p);
    }
  }

  lemma ExportsKeepInv(s: System, step: Step)
    requires D.Inv(s.exports) && Enabled(s, step)
    ensures D.Inv(Apply(s, step).exports)
  {
    if step.Upsert? {
      D.StepKeepsInv(s.exports, D.FanOut(step.batch, UpsertedID(s.index, step.o, step.uuid), s.clock));
    } else if step.Export? {
      D.StepKeepsInv(s.exports, step.step);
    }
  }

  lemma StepKeepsInv(s: System, step: Step)
    requires Inv(s) && Enabled(s, step)
    ensures Inv(Apply(s, step))
  {
    ExportsKeepInv(s, step);
    if step.Upsert? {
      UpsertKeepsInv(s, step);
      UpsertKeepsTimes(s, step);
    } else {
      OtherKeepsTimes(s, step);
      if step.Retain? { RetentionCounts(s, step); } else if step.Assess? { AssessKeepsInv(s, step); }
    }
  }

  lemma {:induction false} RunKeepsInv(run: seq<System>, steps: seq<Step>, k: nat)
    requires IsRun(run, steps) && k < |run|
    ensures Inv(run[k]) && run[k].window == run[0].window
  {
    if k == 0 {
      assert D.Items(run[0].exports.outbox) == map[];
    } else {
      RunKeepsInv(run, steps, k - 1);
      StepKeepsInv(run[k - 1], steps[k - 1]);
    }
  }

  // ---------------------------------------------------------------- results

  /** In every reachable store the dedup index is the search over observations by host and dedup key, and
      no two observations share that pair. */
  lemma IndexIsTheSearch(run: seq<System>, steps: seq<Step>, k: nat)
    requires IsRun(run, steps) && k < |run|
    ensures IndexAgrees(run[k].obs, run[k].index)
    ensures NoSharedPairs(run[k].obs)
  {
    RunKeepsInv(run, steps, k);
    forall a, b | a in run[k].obs && b in run[k].obs && SamePair(run[k].obs[a], run[k].obs[b])
      ensures a == b
    {
      NoTwoShareAPair(run[k].obs, run[k].index, a, b);
    }
  }

  ghost predicate NeverPurges(steps: seq<Step>) {
    forall k :: 0 <= k < |steps| && steps[k].Retain? ==> steps[k].policy.archiveAge <= 0
  }

  lemma {:induction false} NothingPurged(run: seq<System>, steps: seq<Step>, k: nat)
    requires IsRun(run, steps) && NeverPurges(steps) && k < |run|
    ensures run[k].purged == 0
  {
    if k == 0 {
    } else {
      NothingPurged(run, steps, k - 1);
      assert Enabled(run[k - 1], steps[k - 1]) && run[k] == Apply(run[k - 1], steps[k - 1]);
    }
  }

  /** Every upsert is counted once: on a live observation, in the archive, or in what was purged from it. */
  lemma SightingsConserved(run: seq<System>, steps: seq<Step>, k: nat)
    requires IsRun(run, steps) && k < |run|
    ensures Total(run[k].obs) + ArchivedTotal(run[k].archive) + run[k].purged == run[k].upserts
    ensures NeverPurges(steps) ==> Total(run[k].obs) + ArchivedTotal(run[k].archive) == run[k].upserts
  {
    RunKeepsInv(run, steps, k);
    if NeverPurges(steps) { NothingPurged(run, steps, k); }
  }

  function DeliveriesFor(s: System, target: string): nat {
    |D.OfTarget(s.exports.outbox, target)|
  }

  predicate Serves(s: System, target: string) {
    D.Enabled(s.exports.targets, target)
  }

  ghost predicate StaysEnabled(run: seq<System>, i: nat, k: nat, target: string)
    requires i <= k < |run|
  {
    forall j :: i <= j <= k ==> Serves(run[j], target)
  }

  lemma StepCountsDeliveries(s: System, step: Step, s': System, target: string)
    requires Inv(s) && Enabled(s, step) && s' == Apply(s, step) && Serves(s, target) && Serves(s', target)
    ensures DeliveriesFor(s', target) - DeliveriesFor(s, target) == s'.upserts - s.upserts
  {
    if step.Upsert? {
      D.FanOutAddsOne(s.exports, step.batch, UpsertedID(s.index, step.o, step.uuid), s.clock, target);
    } else if step.Export? {
      D.OtherStepsKeepTarget(s.exports, step.step, target);
    }
  }

  lemma RunStepCountsDeliveries(run: seq<System>, steps: seq<Step>, k: nat, target: string)
    requires IsRun(run, steps) && k + 1 < |run| && Serves(run[k], target) && Serves(run[k + 1], target)
    ensures DeliveriesFor(run[k + 1], target) - DeliveriesFor(run[k], target) == run[k + 1].upserts - run[k].upserts
  {
    RunKeepsInv(run, steps, k);
    StepCountsDeliveries(run[k], steps[k], run[k + 1], target);
  }

  /** While a target stays enabled it gets exactly one delivery per upsert, whatever the workers do. */
  lemma {:induction false} DeliveriesMatchUpserts(run: seq<System>, steps: seq<Step>, i: nat, k: nat, target: string)
    requires IsRun(run, steps) && i <= k < |run| && StaysEnabled(run, i, k, target)
    ensures DeliveriesFor(run[k], target) - DeliveriesFor(run[i], target) == run[k].upserts - run[i].upserts
  {
    if i == k {
    } else {
      assert Serves(run[k - 1], target) && Serves(run[k], target);
      assert StaysEnabled(run, i, k - 1, target);
      DeliveriesMatchUpserts(run, steps, i, k - 1, target);
      RunStepCountsDeliveries(run, steps, k - 1, target);
    }
  }

  // ---------------------------------------------------------------- reopening over runs

  /** The finding was stored under every completed scan of its host, other than the current one, that
      started after the given time. */
  ghost predicate SeenInEvery(s: System, id: string, host: string, current: string, since: nat) {
    forall sid :: sid in s.scans && Compared(s.scans, sid, host, current) && since < s.scans[sid].startedAt ==>
      (id, sid) in s.seen
  }

  predicate Hits(s: System, step: Step, id: string) {
    step.Upsert? && Known(s.index, step.o) && ListedID(s.index, step.o.hostID, step.o.dedupKey) == id
  }

  lemma SeenMeansNotAbsent(s: System, id: string, host: string, current: string, since: nat)
    requires Timed(s) && id in s.obs && SeenInEvery(s, id, host, current, since) && since <= s.obs[id].lastSeen
    ensures !Absent(s.scans, s.obs[id].lastSeen, host, current)
  {
    forall sid | sid in s.scans && Compared(s.scans, sid, host, current)
      ensures s.scans[sid].startedAt <= s.obs[id].lastSeen
    {
      if since < s.scans[sid].startedAt { assert (id, sid) in s.seen && SeenOK(s.obs, s.scans, (id, sid)); }
    }
  }

  /** No operator touches the finding, retention leaves it, and whenever it is detected again it was also
      seen in every completed scan of its host that started after the given time. */
  ghost predicate SteadyStep(s: System, step: Step, id: string, since: nat)
    requires Enabled(s, step)
  {
    && !(step.Assess? && step.id == id)
    && id in Apply(s, step).obs
    && (Hits(s, step, id) ==> SeenInEvery(s, id, step.o.hostID, step.o.scanID, since))
  }

  lemma SteadyStepKeepsStatus(s: System, step: Step, id: string, since: nat)
    requires Inv(s) && Enabled(s, step) && id in s.obs && SteadyStep(s, step, id, since)
    requires since <= s.obs[id].lastSeen
    ensures Apply(s, step).obs[id].status == s.obs[id].status && since <= Apply(s, step).obs[id].lastSeen
  {
    if Hits(s, step, id) {
      SeenMeansNotAbsent(s, id, step.o.hostID, step.o.scanID, since);
    }
  }

  lemma SteadyRunStep(run: seq<System>, steps: seq<Step>, k: nat, id: string, since: nat)
    requires IsRun(run, steps) && k + 1 < |run| && id in run[k].obs && Enabled(run[k], steps[k])
    requires SteadyStep(run[k], steps[k], id, since) && since <= run[k].obs[id].lastSeen
    ensures id in run[k + 1].obs && run[k + 1].obs[id].status == run[k].obs[id].status
    ensures since <= run[k + 1].obs[id].lastSeen
  {
    RunKeepsInv(run, steps, k);
    SteadyStepKeepsStatus(run[k], steps[k], id, since);
  }

  ghost predicate Steady(run: seq<System>, steps: seq<Step>, i: nat, k: nat, id: string, since: nat)
    requires |run| == |steps| + 1 && i <= k < |run|
  {
    forall j :: i <= j < k ==> Enabled(run[j], steps[j]) && SteadyStep(run[j], steps[j], id, since)
  }

  /** A closed finding that every completed scan of its host started since it was last seen has stored again
      never reopens, whatever the gap between the scans and whichever scans failed. Scans from before the
      finding was first seen do not matter. */
  lemma {:induction false} SteadyFindingsStayClosed(run: seq<System>, steps: seq<Step>, i: nat, k: nat, id: string)
    requires IsRun(run, steps) && i <= k < |run| && id in run[i].obs
    requires Steady(run, steps, i, k, id, run[i].obs[id].lastSeen)
    ensures id in run[k].obs && run[k].obs[id].status == run[i].obs[id].status
    ensures run[i].obs[id].lastSeen <= run[k].obs[id].lastSeen
  {
    if i == k {
    } else {
      SteadyFindingsStayClosed(run, steps, i, k - 1, id);
      SteadyRunStep(run, steps, k - 1, id, run[i].obs[id].lastSeen);
    }
  }

  /** The step stores a detection of the scan under id: the finding of its pair, or a new one. */
  ghost predicate StoresUnder(s: System, step: Step, id: string, sid: string) {
    && step.Upsert? && step.o.scanID == sid && sid in s.scans
    && (|| Carries(s.obs, id, step.o.hostID, step.o.dedupKey)
        || (id == step.uuid && forall other :: !Carries(s.obs, other, step.o.hostID, step.o.dedupKey)))
  }

  lemma StoredID(s: System, o: Observation, uuid: string, id: string)
    requires IndexAgrees(s.obs, s.index) && o.id == ""
    ensures id == UpsertedID(s.index, o, uuid) <==>
            || Carries(s.obs, id, o.hostID, o.dedupKey)
            || (id == uuid && forall other :: !Carries(s.obs, other, o.hostID, o.dedupKey))
  {
    var h, d := o.hostID, o.dedupKey;
    assert forall other :: Points(s.index, h, d, other) <==> Carries(s.obs, other, h, d);
    if Known(s.index, o) { assert Points(s.index, h, d, ListedID(s.index, h, d)); }
  }

  lemma SeenOneMore(s: System, step: Step, id: string, sid: string)
    requires Indexed(s) && Enabled(s, step)
    ensures (id, sid) in Apply(s, step).seen <==> (id, sid) in s.seen || StoresUnder(s, step, id, sid)
  {
    match step
    case Upsert(o, uuid, batch) =>
      var now := UpsertedID(s.index, o, uuid);
      StoredID(s, o, uuid, id);
      assert Apply(s, step).seen == if o.scanID in s.scans then s.seen + {(now, o.scanID)} else s.seen;
    case _ =>
      assert Apply(s, step).seen == s.seen;
  }

  /** What the history counts as seen is what was stored so. */
  lemma {:induction false} SeenExactlyWhen(run: seq<System>, steps: seq<Step>, k: nat, id: string, sid: string)
    requires IsRun(run, steps) && k < |run|
    ensures (id, sid) in run[k].seen <==> exists j :: 0 <= j < k && StoresUnder(run[j], steps[j], id, sid)
  {
    if k == 0 {
    } else {
      SeenExactlyWhen(run, steps, k - 1, id, sid);
      RunKeepsInv(run, steps, k - 1);
      SeenOneMore(run[k - 1], steps[k - 1], id, sid);
    }
  }

  /** A scan of the host began after the finding was last seen, completed, and did not store it. */
  ghost predicate MissedBy(s: System, id: string, o: Observation, sid: string)
    requires id in s.obs
  {
    && sid in s.scans && sid != o.scanID && s.scans[sid].hostID == o.hostID
    && (s.scans[sid].status == ScanOK || s.scans[sid].status == ScanPartial)
    && s.obs[id].lastSeen < s.scans[sid].startedAt && (id, sid) !in s.seen
  }

  /** A detection of a known pair opens its finding exactly when it was closed, the window has passed since
      it was last seen, and a completed scan of its host that did not store it started after that. Otherwise
      the status stays. The details become the detection's, and the rest of the record is kept. */
  lemma ReopenedExactlyWhen(run: seq<System>, steps: seq<Step>, k: nat, id: string)
    requires IsRun(run, steps) && k < |steps| && steps[k].Upsert?
    requires Carries(run[k].obs, id, steps[k].o.hostID, steps[k].o.dedupKey)
    ensures id in run[k + 1].obs
    ensures var s, o, seen, r := run[k], steps[k].o, run[k].obs[id], run[k + 1].obs[id];
            && r.status == (if && (seen.status == FalsePositive || seen.status == Resolved)
                               && s.window > 0 && s.clock >= seen.lastSeen + s.window
                               && exists sid :: MissedBy(s, id, o, sid)
                            then Open else seen.status)
            && r.score == o.score && r.severity == o.severity && r.evidence == o.evidence && r.scanID == o.scanID
            && r.lastSeen == s.clock && r.count == seen.count + 1
            && r.id == seen.id && r.verdict == seen.verdict && r.firstSeen == seen.firstSeen
  {
    RunKeepsInv(run, steps, k);
    var s, o := run[k], steps[k].o;
    assert run[k + 1] == Apply(s, steps[k]);
    UpsertStores(s.obs, s.index, s.scans, o, steps[k].uuid, s.clock, s.window);
    MissedMeansUnseen(s, id, o);
  }

  lemma MissedMeansUnseen(s: System, id: string, o: Observation)
    requires Timed(s) && id in s.obs
    ensures MissedSince(s.scans, o.hostID, o.scanID, s.obs[id].lastSeen) <==> exists sid :: MissedBy(s, id, o, sid)
  {
    forall sid | sid in s.scans && s.obs[id].lastSeen < s.scans[sid].startedAt
      ensures (id, sid) !in s.seen
    {
      assert (id, sid) in s.seen ==> SeenOK(s.obs, s.scans, (id, sid));
    }
    if MissedSince(s.scans, o.hostID, o.scanID, s.obs[id].lastSeen) {
      var sid :| && sid in s.scans && sid != o.scanID && s.scans[sid].hostID == o.hostID
                 && s.obs[id].lastSeen < s.scans[sid].startedAt
                 && (s.scans[sid].status == ScanOK || s.scans[sid].status == ScanPartial);
      assert MissedBy(s, id, o, sid);
    }
  }

  // ---------------------------------------------------------------- the history a store keeps

  /** The run so far. None: a caller has left the protocol, by reusing an id, claiming twice, or reading a
      clock that runs backwards. */
  datatype Log = Log(run: seq<System>, steps: seq<Step>)

  /** What a store shows of a state. */
  datatype Contents = Contents(obs: Table, index: Index, scans: Scans, archive: seq<ArchivedRecord>, targets: D.Targets,
                               outbox: D.Outbox)

  function ContentsOf(s: System): Contents {
    Contents(s.obs, s.index, s.scans, s.archive, s.exports.targets, s.exports.outbox)
  }

  ghost function Last(log: Log): System
    requires |log.run| > 0
  {
    log.run[|log.run| - 1]
  }

  ghost predicate IsLog(log: Log) {
    IsRun(log.run, log.steps)
  }

  ghost predicate Sound(log: Option<Log>) {
    log.Some? ==> IsLog(log.value)
  }

  /** The log records how the store's contents came to be what they are. */
  ghost predicate Records(log: Option<Log>, c: Contents, window: int) {
    Sound(log) && (log.Some? ==> ContentsOf(Last(log.value)) == c && Last(log.value).window == window)
  }

  ghost function Recorded(log: Option<Log>, step: Step): (r: Option<Log>)
    requires Sound(log)
    ensures Sound(r)
    ensures r.Some? ==> log.Some? && Enabled(Last(log.value), step) && Last(r.value) == Apply(Last(log.value), step)
  {
    if log.Some? && Enabled(Last(log.value), step) then
      Some(Log(log.value.run + [Apply(Last(log.value), step)], log.value.steps + [step]))
    else None
  }

  ghost function LogUpsert(log: Option<Log>, o: Observation, uuid: string, batch: map<string, string>, now: nat)
      : (r: Option<Log>)
    requires Sound(log)
    ensures Sound(r)
  {
    Recorded(Recorded(log, Tick(now)), Upsert(o, uuid, batch))
  }

  /** A runner reads the clock before it stores the scan. */
  ghost function LogStartScan(log: Option<Log>, sid: string, scan: Scan): (r: Option<Log>)
    requires Sound(log)
    ensures Sound(r)
  {
    if log.Some? && scan.status == ScanRunning then
      var clock := Last(log.value).clock;
      Recorded(Recorded(log, Tick(if scan.startedAt > clock then scan.startedAt else clock)),
               StartScan(sid, scan.hostID, scan.startedAt))
    else None
  }

  ghost function LogUpdateScan(log: Option<Log>, scans: Scans, sid: string, scan: Scan): (r: Option<Log>)
    requires Sound(log)
    ensures Sound(r)
  {
    if sid !in scans then log
    else if scan.hostID == scans[sid].hostID && scan.startedAt == scans[sid].startedAt then
      Recorded(log, FinishScan(sid, scan.status))
    else None
  }

  ghost function LogRetain(log: Option<Log>, policy: Policy, order: seq<string>, scanOrder: seq<string>,
                           events: seq<AuditEvent>, now: nat)
      : (r: Option<Log>)
    requires Sound(log)
    ensures Sound(r)
  {
    Recorded(Recorded(log, Tick(now)), Retain(policy, order, scanOrder, events))
  }

  /** ok: the call is the step it is taken for. */
  ghost function LogExport(log: Option<Log>, ok: bool, d: D.Step): (r: Option<Log>)
    requires Sound(log)
    ensures Sound(r)
  {
    if ok then Recorded(log, Export(d)) else None
  }

  ghost predicate AtWork(log: Option<Log>, w: string, id: string)
    requires Sound(log)
  {
    log.Some? && D.AtWork(Last(log.value).exports, w, id)
  }

  /** What an upsert leaves. */
  function UpsertedContents(c: Contents, o: Observation, uuid: string, batch: map<string, string>, now: nat,
                            window: int): Contents
    requires Known(c.index, o) ==> ListedID(c.index, o.hostID, o.dedupKey) in c.obs
  {
    c.(obs := UpsertedTable(c.obs, c.index, c.scans, o, uuid, now, window), index := UpsertedIndex(c.index, o, uuid),
       outbox := D.FannedOut(c.outbox, batch, UpsertedID(c.index, o, uuid), now))
  }

  lemma TickIsRecorded(log: Option<Log>, c: Contents, window: int, now: nat)
    requires Records(log, c, window)
    ensures Records(Recorded(log, Tick(now)), c, window)
    ensures var r := Recorded(log, Tick(now)); r.Some? ==> Last(r.value).clock == now
  {
  }

  lemma UpsertIsRecorded(log: Option<Log>, c: Contents, window: int, o: Observation, uuid: string,
                         batch: map<string, string>, now: nat)
    requires Records(log, c, window) && (Known(c.index, o) ==> ListedID(c.index, o.hostID, o.dedupKey) in c.obs)
    ensures Records(LogUpsert(log, o, uuid, batch, now), UpsertedContents(c, o, uuid, batch, now, window), window)
  {
    TickIsRecorded(log, c, window, now);
  }

  /** The upsert brings no id of its own, none of the ids drawn for it was ever drawn before, and the clock
      has not gone back. */
  ghost predicate NeverDrawn(log: Log, o: Observation, uuid: string, batch: map<string, string>, now: nat)
    requires IsLog(log)
  {
    && o.id == "" && uuid !in Last(log).used && batch.Keys !! Last(log).exports.claims.Keys
    && Last(log).clock <= now
  }

  /** An upsert continues the history of the store exactly when its ids are new to that history. */
  lemma UpsertContinuesExactlyWhen(log: Log, c: Contents, window: int, o: Observation, uuid: string,
                                   batch: map<string, string>, now: nat)
    requires Records(Some(log), c, window) && D.IsFanOut(batch, c.targets, c.outbox.Keys)
    ensures LogUpsert(Some(log), o, uuid, batch, now).Some? <==> NeverDrawn(log, o, uuid, batch, now)
  {
    RunKeepsInv(log.run, log.steps, |log.run| - 1);
    AfterTick(log, now);
    RecordedExactlyWhen(Recorded(Some(log), Tick(now)), Upsert(o, uuid, batch));
    UpsertEnabledExactlyWhen(Last(log), o, uuid, batch, now);
  }

  lemma RecordedExactlyWhen(log: Option<Log>, step: Step)
    requires Sound(log)
    ensures Recorded(log, step).Some? <==> log.Some? && Enabled(Last(log.value), step)
  {
  }

  lemma AfterTick(log: Log, now: nat)
    requires IsLog(log)
    ensures Recorded(Some(log), Tick(now)).Some? <==> Last(log).clock <= now
    ensures Last(log).clock <= now ==> Last(Recorded(Some(log), Tick(now)).value) == Last(log).(clock := now)
  {
  }

  lemma UpsertEnabledExactlyWhen(s: System, o: Observation, uuid: string, batch: map<string, string>, now: nat)
    requires Inv(s) && D.IsFanOut(batch, s.exports.targets, s.exports.outbox.Keys)
    ensures Enabled(s.(clock := now), Upsert(o, uuid, batch))
            <==> o.id == "" && uuid !in s.used && batch.Keys !! s.exports.claims.Keys
  {
    KnownPairsAreStored(s, o);
  }

  lemma StartScanIsRecorded(log: Option<Log>, c: Contents, window: int, sid: string, scan: Scan)
    requires Records(log, c, window)
    ensures Records(LogStartScan(log, sid, scan), c.(scans := c.scans[sid := scan]), window)
  {
  }

  lemma UpdateScanIsRecorded(log: Option<Log>, c: Contents, window: int, sid: string, scan: Scan)
    requires Records(log, c, window)
    ensures Records(LogUpdateScan(log, c.scans, sid, scan),
                    if sid in c.scans then c.(scans := c.scans[sid := scan]) else c, window)
  {
  }

  lemma AssessIsRecorded(log: Option<Log>, c: Contents, window: int, id: string, status: Status, verdict: Verdict)
    requires Records(log, c, window) && id in c.obs
    ensures Records(Recorded(log, Assess(id, status, verdict)),
                    c.(obs := c.obs[id := Assessed(c.obs[id], status, verdict)]), window)
  {
  }

  /** What retention leaves. */
  function RetainedContents(c: Contents, policy: Policy, order: seq<string>, scanOrder: seq<string>,
                            events: seq<AuditEvent>, now: nat): Contents
    requires (forall id :: id in order ==> id in c.obs) && (forall id :: id in scanOrder ==> id in c.scans)
  {
    var archive := Grown(c.archive, c.obs, c.scans, order, scanOrder, events, now);
    c.(obs := Remaining(c.obs, order), index := Unlisted(c.index, c.obs, order),
       scans := c.scans - (set id | id in scanOrder),
       archive := if policy.archiveAge > 0 then Purged(archive, policy.archiveAge, now) else archive)
  }

  lemma RetainIsRecorded(log: Option<Log>, c: Contents, window: int, policy: Policy, order: seq<string>,
                         scanOrder: seq<string>, events: seq<AuditEvent>, now: nat)
    requires Records(log, c, window)
    requires (forall id :: id in order ==> id in c.obs) && (forall id :: id in scanOrder ==> id in c.scans)
    ensures Records(LogRetain(log, policy, order, scanOrder, events, now),
                    RetainedContents(c, policy, order, scanOrder, events, now), window)
  {
    TickIsRecorded(log, c, window, now);
  }

  /** Retention continues the history exactly when the clock has not gone back. */
  lemma RetainContinuesExactlyWhen(log: Option<Log>, c: Contents, window: int, policy: Policy, order: seq<string>,
                                   scanOrder: seq<string>, events: seq<AuditEvent>, now: nat)
    requires Records(log, c, window)
    requires IsListing(order, if policy.observationAge > 0 then ExpiredIDs(c.obs, policy.observationAge, now) else {})
    requires IsListing(scanOrder, if policy.scanAge > 0 then ExpiredScans(c.scans, policy.scanAge, now) else {})
    ensures log.Some? ==>
              (LogRetain(log, policy, order, scanOrder, events, now).Some? <==> Last(log.value).clock <= now)
  {
    if log.Some? {
      AfterTick(log.value, now);
      RecordedExactlyWhen(Recorded(log, Tick(now)), Retain(policy, order, scanOrder, events));
    }
  }

  lemma ExportIsRecorded(log: Option<Log>, c: Contents, window: int, ok: bool, d: D.Step, targets: D.Targets,
                         outbox: D.Outbox)
    requires Records(log, c, window)
    requires ok && log.Some? && D.Allowed(Last(log.value).exports, d) ==>
               var after := D.Apply(Last(log.value).exports, d); after.targets == targets && after.outbox == outbox
    ensures Records(LogExport(log, ok, d), c.(targets := targets, outbox := outbox), window)
  {
  }

  lemma RenewDeliveryIsRecorded(log: Option<Log>, c: Contents, window: int, id: string, w: string, until: nat, now: nat)
    requires Records(log, c, window)
    ensures Records(LogExport(log, true, D.Renew(w, id, until, now)),
                    if D.Owned(c.outbox, id, w) then c.(outbox := c.outbox[id := D.Renewed(c.outbox[id], until, now)])
                      else c, window)
  {
    ExportIsRecorded(log, c, window, true, D.Renew(w, id, until, now), c.targets,
                     if D.Owned(c.outbox, id, w) then c.outbox[id := D.Renewed(c.outbox[id], until, now)]
                       else c.outbox);
  }

  lemma CompleteDeliveryIsRecorded(log: Option<Log>, c: Contents, window: int, id: string, w: string, now: nat)
    requires Records(log, c, window)
    ensures Records(LogExport(log, AtWork(log, w, id), D.Complete(w, now)),
                    if D.Owned(c.outbox, id, w) then c.(outbox := c.outbox[id := D.Completed(c.outbox[id], now)])
                      else c, window)
  {
    ExportIsRecorded(log, c, window, AtWork(log, w, id), D.Complete(w, now), c.targets,
                     if D.Owned(c.outbox, id, w) then c.outbox[id := D.Completed(c.outbox[id], now)] else c.outbox);
  }

  lemma FailDeliveryIsRecorded(log: Option<Log>, c: Contents, window: int, id: string, w: string, message: string,
                               retryAt: nat, terminal: bool, now: nat)
    requires Records(log, c, window)
    ensures Records(LogExport(log, AtWork(log, w, id), D.Fail(w, message, retryAt, terminal, now)),
                    if D.Owned(c.outbox, id, w) then
                      c.(outbox := c.outbox[id := D.GivenBack(c.outbox[id], message, retryAt, terminal, now)])
                    else c, window)
  {
    ExportIsRecorded(log, c, window, AtWork(log, w, id), D.Fail(w, message, retryAt, terminal, now), c.targets,
                     if D.Owned(c.outbox, id, w) then
                       c.outbox[id := D.GivenBack(c.outbox[id], message, retryAt, terminal, now)]
                     else c.outbox);
  }

  // ---------------------------------------------------------------- what the history says of the store

  /** Live and archived sightings, and those purged, add up to the upserts on the log. */
  lemma LoggedSightings(log: Log, c: Contents, window: int)
    requires Records(Some(log), c, window)
    ensures Total(c.obs) + ArchivedTotal(c.archive) + Last(log).purged == Last(log).upserts
  {
    SightingsConserved(log.run, log.steps, |log.run| - 1);
  }

  lemma LoggedDelivery(log: Log, c: Contents, window: int, id: string)
    requires Records(Some(log), c, window) && id in c.outbox
    ensures var d := c.outbox[id];
            && d.targetID in c.targets && (d.status == D.Queued ==> d.attempts < d.maxAttempts)
            && (d.status == D.Delivering <==> d.workerID != "") && (d.status == D.Delivering <==> d.leaseUntil.Some?)
            && var completions := Last(log).exports.completions;
               id in completions && completions[id] == if d.status == D.Sent then 1 else 0
  {
    RunKeepsInv(log.run, log.steps, |log.run| - 1);
    D.SoundDelivery(Last(log).exports, id);
  }

  lemma OwnerClaimedLast(log: Log, c: Contents, window: int, id: string, w: string)
    requires Records(Some(log), c, window) && D.Owned(c.outbox, id, w)
    ensures D.ClaimedLast(Last(log).exports, id, w)
  {
    RunKeepsInv(log.run, log.steps, |log.run| - 1);
    D.OwnerClaimedLast(Last(log).exports, id, w);
  }

  // ---------------------------------------------------------------- an undisturbed delivery keeps to the protocol

  ghost predicate Working(log: Option<Log>, w: string, id: string, attempts: nat, max: nat)
    requires Sound(log)
  {
    AtWork(log, w, id) && (var p := D.PhaseOf(Last(log.value).exports, w); p.attempts == attempts && p.max == max)
  }

  lemma ClaimBeginsWork(log: Option<Log>, c: Contents, window: int, w: string, id: string, now: nat, lease: nat)
    requires Records(log, c, window) && log.Some? && D.PhaseOf(Last(log.value).exports, w).Idle? && w != ""
    requires D.OldestClaimable(c.outbox, c.targets, id, now)
    ensures Working(LogExport(log, true, D.Claim(w, id, now, lease)), w, id, c.outbox[id].attempts + 1,
                    c.outbox[id].maxAttempts)
  {
    RunKeepsInv(log.value.run, log.value.steps, |log.value.run| - 1);
    D.StoredIsUsed(Last(log.value).exports, id);
  }

  lemma WorkCanEnd(log: Option<Log>, w: string, id: string, attempts: nat, max: nat, message: string, retryAt: nat,
                   terminal: bool, now: nat)
    requires Sound(log) && Working(log, w, id, attempts, max) && (attempts >= max ==> terminal)
    ensures LogExport(log, AtWork(log, w, id), D.Complete(w, now)).Some?
    ensures LogExport(log, AtWork(log, w, id), D.Fail(w, message, retryAt, terminal, now)).Some?
  {
    RunKeepsInv(log.value.run, log.value.steps, |log.value.run| - 1);
    D.WorkerIsKnown(Last(log.value).exports, w);
  }
}
