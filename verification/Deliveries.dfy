/** Export deliveries: the outbox filled by observation upserts and drained by export workers
    (internal/store/memory.go, internal/export/worker.go), and the proof that it runs the lease protocol. */
module Deliveries {
  import opened Backoff
  import opened Wrappers
  import L = LeaseProtocol

  datatype DeliveryStatus = Queued | Delivering | Sent | Dead

  datatype ExportDelivery = ExportDelivery(
    targetID: string, observationID: string, status: DeliveryStatus, attempts: nat, maxAttempts: nat,
    workerID: string, leaseUntil: Option<nat>, availableAt: nat, lastError: string,
    createdAt: nat, updatedAt: nat, deliveredAt: Option<nat>)

  datatype ExportTarget = ExportTarget(name: string, enabled: bool, createdAt: nat, updatedAt: nat)

  type Outbox = map<string, ExportDelivery>
  type Targets = map<string, ExportTarget>

  // ---------------------------------------------------------------- operations on records

  function NewDelivery(target: string, observation: string, now: nat): ExportDelivery {
    ExportDelivery(target, observation, Queued, 0, 10, "", None, now, "", now, now, None)
  }

  predicate Enabled(targets: Targets, target: string) {
    target in targets && targets[target].enabled
  }

  /** New delivery ids, one for each enabled target: what a fan-out draws. */
  ghost predicate IsFanOut(batch: map<string, string>, targets: Targets, used: set<string>) {
    && batch.Keys !! used
    && (forall d :: d in batch ==> Enabled(targets, batch[d]))
    && (forall t :: Enabled(targets, t) ==> exists d :: d in batch && batch[d] == t)
    && (forall d, e :: d in batch && e in batch && batch[d] == batch[e] ==> d == e)
  }

  /** New ids for the enabled targets, each its own, make a fan-out. */
  lemma NewIDsMakeFanOut(idOf: map<string, string>, targets: Targets, used: set<string>)
    requires forall t :: t in idOf <==> Enabled(targets, t)
    requires forall t, u :: t in idOf && u in idOf && t != u ==> idOf[t] != idOf[u]
    requires forall t :: t in idOf ==> idOf[t] !in used
    ensures IsFanOut(map t | t in idOf :: idOf[t] := t, targets, used)
  {
    var batch := map t | t in idOf :: idOf[t] := t;
    forall t | Enabled(targets, t)
      ensures exists d :: d in batch && batch[d] == t
    {
      assert idOf[t] in batch;
    }
  }

  /** The part of a batch drawn for the targets visited so far. */
  function DrawnFor(batch: map<string, string>, rest: set<string>): map<string, string> {
    map d | d in batch && batch[d] !in rest :: batch[d]
  }

  lemma DrawsOneMore(batch: map<string, string>, targets: Targets, used: set<string>, rest: set<string>, target: string)
    requires IsFanOut(batch, targets, used) && target in rest
    ensures !Enabled(targets, target) ==> DrawnFor(batch, rest - {target}) == DrawnFor(batch, rest)
    ensures forall id :: id in batch && batch[id] == target ==>
              DrawnFor(batch, rest - {target}) == DrawnFor(batch, rest)[id := target]
  {
  }

  function FannedOut(outbox: Outbox, batch: map<string, string>, observation: string, now: nat): Outbox {
    outbox + map d | d in batch :: NewDelivery(batch[d], observation, now)
  }

  lemma FansOutOneMore(outbox: Outbox, batch: map<string, string>, observation: string, now: nat, id: string,
                       target: string)
    ensures FannedOut(outbox, batch[id := target], observation, now)
            == FannedOut(outbox, batch, observation, now)[id := NewDelivery(target, observation, now)]
  {
  }

  lemma FanOutKeepsTargets(outbox: Outbox, targets: Targets, batch: map<string, string>, observation: string, now: nat)
    requires NoOrphans(outbox, targets) && IsFanOut(batch, targets, outbox.Keys)
    ensures NoOrphans(FannedOut(outbox, batch, observation, now), targets)
  {
  }

  predicate Claimable(d: ExportDelivery, targets: Targets, now: nat) {
    && Enabled(targets, d.targetID)
    && (|| (d.status == Queued && d.availableAt <= now)
        || (d.status == Delivering && d.leaseUntil.Some? && d.leaseUntil.value <= now))
  }

  ghost predicate OldestClaimable(outbox: Outbox, targets: Targets, id: string, now: nat) {
    && id in outbox && Claimable(outbox[id], targets, now)
    && forall other :: other in outbox && Claimable(outbox[other], targets, now) ==>
      outbox[id].createdAt <= outbox[other].createdAt
  }

  function Claimed(d: ExportDelivery, worker: string, now: nat, lease: nat): ExportDelivery {
    d.(status := Delivering, workerID := worker, leaseUntil := Some(now + lease), attempts := d.attempts + 1,
       updatedAt := now)
  }

  predicate Owned(outbox: Outbox, id: string, worker: string) {
    id in outbox && outbox[id].status == Delivering && outbox[id].workerID == worker
  }

  function Renewed(d: ExportDelivery, until: nat, now: nat): ExportDelivery {
    d.(leaseUntil := Some(until), updatedAt := now)
  }

  function Completed(d: ExportDelivery, now: nat): ExportDelivery {
    d.(status := Sent, workerID := "", leaseUntil := None, lastError := "", deliveredAt := Some(now), updatedAt := now)
  }

  function GivenBack(d: ExportDelivery, message: string, retryAt: nat, terminal: bool, now: nat): ExportDelivery {
    d.(status := if terminal then Dead else Queued, lastError := message, availableAt := retryAt, workerID := "",
       leaseUntil := None, updatedAt := now)
  }

  function Retried(d: ExportDelivery, now: nat): ExportDelivery {
    d.(status := Queued, attempts := 0, lastError := "", availableAt := now, updatedAt := now)
  }

  function OfTarget(outbox: Outbox, target: string): set<string> {
    set d | d in outbox && outbox[d].targetID == target
  }

  // ---------------------------------------------------------------- the worker's backoff

  /** The retry delay of Worker.runOne. */
  function RetryDelay(attempts: nat): nat {
    var shift := if attempts >= 1 then attempts - 1 else 0;
    var delay := Doubled(30 * SECOND, if shift < 7 then shift else 7);
    if delay > 3600 * SECOND then 3600 * SECOND else delay
  }

  lemma SevenDoublings()
    ensures Doubled(30 * SECOND, 7) == 3840 * SECOND
  {
    assert Doubled(30 * SECOND, 1) == 60 * SECOND;
    assert Doubled(30 * SECOND, 2) == 120 * SECOND;
    assert Doubled(30 * SECOND, 3) == 240 * SECOND;
    assert Doubled(30 * SECOND, 4) == 480 * SECOND;
    assert Doubled(30 * SECOND, 5) == 960 * SECOND;
    assert Doubled(30 * SECOND, 6) == 1920 * SECOND;
  }

  /** The clamp on the shift is invisible: the delay is min(30s * 2^(attempts-1), 1h) for any count but
      zero, which never gets here and is treated as one. */
  lemma RetryDelayIsCappedDoubling(attempts: nat)
    ensures attempts == 0 ==> RetryDelay(attempts) == 30 * SECOND
    ensures attempts > 0 ==>
              var delay := Doubled(30 * SECOND, attempts - 1);
              RetryDelay(attempts) == if delay < 3600 * SECOND then delay else 3600 * SECOND
  {
    SevenDoublings();
    if attempts - 1 >= 7 {
      DoubledGrows(30 * SECOND, 7, attempts - 1);
    }
  }

  // ---------------------------------------------------------------- the whole outbox, as interleaved steps

  datatype System = System(outbox: Outbox, targets: Targets, workers: map<string, L.Phase>,
                           claims: map<string, seq<string>>, completions: map<string, nat>)

  datatype Step =
    | FanOut(batch: map<string, string>, observation: string, now: nat)
    | Claim(w: string, id: string, now: nat, lease: nat)
    | Renew(w: string, id: string, until: nat, now: nat)
    | Complete(w: string, now: nat)
    | Fail(w: string, message: string, retryAt: nat, terminal: bool, now: nat)
    | Crash(w: string)
    | Retry(id: string, now: nat)
    | SetTarget(id: string, target: ExportTarget)
    | DeleteTarget(id: string)

  function PhaseOf(s: System, w: string): L.Phase {
    if w in s.workers then s.workers[w] else L.Idle
  }

  predicate Holds(s: System, w: string) {
    PhaseOf(s, w).Busy? && Owned(s.outbox, PhaseOf(s, w).id, w)
  }

  ghost predicate Allowed(s: System, step: Step) {
    match step
    case FanOut(batch, _, _) => IsFanOut(batch, s.targets, s.claims.Keys)
    case Claim(w, id, now, _) =>
      w != "" && PhaseOf(s, w).Idle? && id in s.claims && OldestClaimable(s.outbox, s.targets, id, now)
    case Renew(_, _, _, _) => true
    case Complete(w, _) => PhaseOf(s, w).Busy? && PhaseOf(s, w).id in s.completions
    case Fail(w, _, _, terminal, _) => PhaseOf(s, w).Busy? && (PhaseOf(s, w).attempts >= PhaseOf(s, w).max ==> terminal)
    case Crash(w) => !PhaseOf(s, w).Crashed?
    case Retry(id, _) => id in s.outbox && s.outbox[id].status == Dead
    case SetTarget(_, _) => true
    case DeleteTarget(id) => id in s.targets
  }

  ghost function Apply(s: System, step: Step): System
    requires Allowed(s, step)
  {
    match step
    case FanOut(batch, observation, now) =>
      s.(outbox := FannedOut(s.outbox, batch, observation, now), claims := s.claims + L.All(batch.Keys, L.NO_CLAIMS),
         completions := s.completions + L.All(batch.Keys, 0))
    case Claim(w, id, now, lease) =>
      var d := Claimed(s.outbox[id], w, now, lease);
      s.(outbox := s.outbox[id := d],
         workers := s.workers[w := L.Busy(id, |s.claims[id]|, d.attempts, d.maxAttempts, None)],
         claims := s.claims[id := s.claims[id] + [w]])
    case Renew(w, id, until, now) =>
      if Owned(s.outbox, id, w) then s.(outbox := s.outbox[id := Renewed(s.outbox[id], until, now)]) else s
    case Complete(w, now) =>
      var p := PhaseOf(s, w);
      var idle := s.(workers := s.workers[w := L.Idle]);
      if Holds(s, w) then
        idle.(outbox := s.outbox[p.id := Completed(s.outbox[p.id], now)],
              completions := s.completions[p.id := s.completions[p.id] + 1])
      else idle
    case Fail(w, message, retryAt, terminal, now) =>
      var p := PhaseOf(s, w);
      var idle := s.(workers := s.workers[w := L.Idle]);
      if Holds(s, w) then
        idle.(outbox := s.outbox[p.id := GivenBack(s.outbox[p.id], message, retryAt, terminal, now)])
      else idle
    case Crash(w) => s.(workers := s.workers[w := L.Crashed])
    case Retry(id, now) => s.(outbox := s.outbox[id := Retried(s.outbox[id], now)])
    case SetTarget(id, target) => s.(targets := s.targets[id := target])
    case DeleteTarget(id) => s.(targets := s.targets - {id}, outbox := s.outbox - OfTarget(s.outbox, id))
  }

  const INITIAL := System(map[], map[], map[], map[], map[])

  // ---------------------------------------------------------------- refinement

  function ItemOf(d: ExportDelivery): L.Item {
    L.Item(match d.status case Delivering => L.Held case Sent => L.Succeeded case Dead => L.Failed
           case Queued => L.Waiting, d.workerID, d.leaseUntil, d.attempts, d.maxAttempts)
  }

  function Items(outbox: Outbox): map<string, L.Item> {
    map id | id in outbox :: ItemOf(outbox[id])
  }

  function Abstract(s: System): L.System {
    L.System(Items(s.outbox), s.workers, s.claims, s.completions, [])
  }

  function AbstractStep(s: System, step: Step): L.Step {
    match step
    case FanOut(batch, _, _) => L.Create(batch.Keys, 10)
    case Claim(w, id, now, lease) => L.Claim(w, id, now, now + lease)
    case Renew(w, id, until, _) => L.Heartbeat(w, id, until)
    case Complete(w, _) => L.Complete(w)
    case Fail(w, _, _, terminal, _) => L.Fail(w, terminal)
    case Crash(w) => L.Crash(w)
    case Retry(id, _) => L.Retry(id)
    case SetTarget(_, _) => L.Stutter
    case DeleteTarget(id) => L.Delete(OfTarget(s.outbox, id))
  }

  lemma ItemsUpdate(outbox: Outbox, id: string, d: ExportDelivery)
    ensures Items(outbox[id := d]) == Items(outbox)[id := ItemOf(d)]
  {
  }

  lemma ItemsFannedOut(outbox: Outbox, batch: map<string, string>, observation: string, now: nat)
    ensures Items(FannedOut(outbox, batch, observation, now)) == Items(outbox) + L.All(batch.Keys, L.NewItem(10))
  {
  }

  lemma ItemsWithout(outbox: Outbox, ids: set<string>)
    ensures Items(outbox - ids) == Items(outbox) - ids
  {
  }

  ghost predicate Refines(s: System, step: Step)
    requires Allowed(s, step)
  {
    && L.Enabled(Abstract(s), AbstractStep(s, step))
    && Abstract(Apply(s, step)) == L.Apply(Abstract(s), AbstractStep(s, step))
  }

  lemma ClaimRefines(s: System, step: Step)
    requires Allowed(s, step) && step.Claim?
    ensures Refines(s, step)
  {
    ItemsUpdate(s.outbox, step.id, Claimed(s.outbox[step.id], step.w, step.now, step.lease));
  }

  lemma RenewRefines(s: System, step: Step)
    requires Allowed(s, step) && step.Renew?
    ensures Refines(s, step)
  {
    var id := step.id;
    if Owned(s.outbox, id, step.w) { ItemsUpdate(s.outbox, id, Renewed(s.outbox[id], step.until, step.now)); }
  }

  lemma CompleteRefines(s: System, step: Step)
    requires Allowed(s, step) && step.Complete?
    ensures Refines(s, step)
  {
    var id := PhaseOf(s, step.w).id;
    if Holds(s, step.w) { ItemsUpdate(s.outbox, id, Completed(s.outbox[id], step.now)); }
  }

  lemma FailRefines(s: System, step: Step)
    requires Allowed(s, step) && step.Fail?
    ensures Refines(s, step)
  {
    var p := PhaseOf(s, step.w);
    if Holds(s, step.w) {
      ItemsUpdate(s.outbox, p.id, GivenBack(s.outbox[p.id], step.message, step.retryAt, step.terminal, step.now));
    }
  }

  lemma OperatorRefines(s: System, step: Step)
    requires Allowed(s, step) && (step.FanOut? || step.Retry? || step.DeleteTarget?)
    ensures Refines(s, step)
  {
    match step
    case FanOut(batch, observation, now) => ItemsFannedOut(s.outbox, batch, observation, now);
    case Retry(id, now) => ItemsUpdate(s.outbox, id, Retried(s.outbox[id], now));
    case DeleteTarget(id) => ItemsWithout(s.outbox, OfTarget(s.outbox, id));
  }

  /** Every step of the outbox is a step of the lease protocol. */
  lemma StepRefines(s: System, step: Step)
    requires Allowed(s, step)
    ensures Refines(s, step)
  {
    match step
    case Claim(_, _, _, _) => ClaimRefines(s, step);
    case Renew(_, _, _, _) => RenewRefines(s, step);
    case Complete(_, _) => CompleteRefines(s, step);
    case Fail(_, _, _, _, _) => FailRefines(s, step);
    case Crash(_) =>
    case SetTarget(_, _) =>
    case _ => OperatorRefines(s, step);
  }

  // ---------------------------------------------------------------- reachable states

  /** Every delivery belongs to a target that still exists. */
  ghost predicate NoOrphans(outbox: Outbox, targets: Targets) {
    forall d :: d in outbox ==> outbox[d].targetID in targets
  }

  ghost predicate Inv(s: System) {
    L.Inv(Abstract(s)) && NoOrphans(s.outbox, s.targets)
  }

  lemma StepKeepsTargets(s: System, step: Step)
    requires NoOrphans(s.outbox, s.targets) && Allowed(s, step)
    ensures NoOrphans(Apply(s, step).outbox, Apply(s, step).targets)
  {
  }

  lemma StepKeepsInv(s: System, step: Step)
    requires Inv(s) && Allowed(s, step)
    ensures Inv(Apply(s, step))
  {
    StepRefines(s, step);
    L.StepKeepsInv(Abstract(s), AbstractStep(s, step));
    StepKeepsTargets(s, step);
  }

  ghost predicate StepAt(run: seq<System>, steps: seq<Step>, k: nat)
    requires k < |steps| == |run| - 1
  {
    Allowed(run[k], steps[k]) && run[k + 1] == Apply(run[k], steps[k])
  }

  ghost predicate IsRun(run: seq<System>, steps: seq<Step>) {
    && |run| == |steps| + 1
    && run[0] == INITIAL
    && forall k :: 0 <= k < |steps| ==> StepAt(run, steps, k)
  }

  lemma {:induction false} RunKeepsInv(run: seq<System>, steps: seq<Step>, k: nat)
    requires IsRun(run, steps) && k < |run|
    ensures Inv(run[k])
  {
    if k == 0 {
      assert Items(run[0].outbox) == map[];
    } else {
      RunKeepsInv(run, steps, k - 1);
      assert StepAt(run, steps, k - 1);
      StepKeepsInv(run[k - 1], steps[k - 1]);
    }
  }

  /** A step of the outbox from s to s'. */
  ghost predicate Leads(s: System, step: Step, s': System) {
    s.outbox.Keys <= s.claims.Keys && Allowed(s, step) && s' == Apply(s, step)
  }

  lemma RunLeads(run: seq<System>, steps: seq<Step>, k: nat)
    requires IsRun(run, steps) && k + 1 < |run|
    ensures Leads(run[k], steps[k], run[k + 1])
  {
    assert StepAt(run, steps, k);
    RunKeepsInv(run, steps, k);
    assert Abstract(run[k]).items.Keys == run[k].outbox.Keys;
  }

  lemma SoundDelivery(s: System, id: string)
    requires Inv(s) && id in s.outbox
    ensures var d := s.outbox[id];
            && d.targetID in s.targets
            && (d.status == Delivering <==> d.workerID != "") && (d.status == Delivering <==> d.leaseUntil.Some?)
            && (d.status == Queued ==> d.attempts < d.maxAttempts)
            && id in s.completions && s.completions[id] == if d.status == Sent then 1 else 0
  {
    var a := Abstract(s);
    assert id in a.items && L.ItemOK(a.items[id], a.claims[id], a.completions[id]);
  }

  /** In every reachable outbox: no delivery without its target; worker id and lease exactly while
      delivering; a queued delivery has attempts left; a delivery reads sent exactly when one completion
      of it was accepted. */
  lemma ReachableDeliveries(run: seq<System>, steps: seq<Step>, k: nat, id: string)
    requires IsRun(run, steps) && k < |run| && id in run[k].outbox
    ensures var d := run[k].outbox[id];
            && d.targetID in run[k].targets
            && (d.status == Delivering <==> d.workerID != "") && (d.status == Delivering <==> d.leaseUntil.Some?)
            && (d.status == Queued ==> d.attempts < d.maxAttempts)
            && id in run[k].completions && run[k].completions[id] == if d.status == Sent then 1 else 0
  {
    RunKeepsInv(run, steps, k);
    SoundDelivery(run[k], id);
  }

  /** Fencing: an accepted completion or failure by worker w means no other worker claimed the delivery since. */
  lemma AcceptedMeansUncontested(run: seq<System>, steps: seq<Step>, k: nat, w: string)
    requires IsRun(run, steps) && k < |run| && Holds(run[k], w)
    ensures var p := PhaseOf(run[k], w);
            p.id in run[k].claims && p.epoch == |run[k].claims[p.id]| - 1 && run[k].claims[p.id][p.epoch] == w
  {
    RunKeepsInv(run, steps, k);
    L.OwnerMadeLatestClaim(Abstract(run[k]), w);
    assert L.PhaseOK(w, PhaseOf(run[k], w), Items(run[k].outbox), run[k].claims);
  }

  ghost function AbstractRun(run: seq<System>): seq<L.System> {
    seq(|run|, k requires 0 <= k < |run| => Abstract(run[k]))
  }

  ghost function AbstractSteps(run: seq<System>, steps: seq<Step>): seq<L.Step>
    requires |run| == |steps| + 1
  {
    seq(|steps|, k requires 0 <= k < |steps| => AbstractStep(run[k], steps[k]))
  }

  /** Every run of the outbox is a run of the lease protocol. */
  lemma RunRefines(run: seq<System>, steps: seq<Step>)
    requires IsRun(run, steps)
    ensures L.IsRun(AbstractRun(run), AbstractSteps(run, steps))
  {
    var run', steps' := AbstractRun(run), AbstractSteps(run, steps);
    forall k | 0 <= k < |steps|
      ensures L.StepAt(run', steps', k)
    {
      assert StepAt(run, steps, k);
      StepRefines(run[k], steps[k]);
    }
  }

  /** Whenever the store accepts a call from a worker, the worker has claimed the delivery and nobody has since. */
  lemma HeldSince(run: seq<System>, steps: seq<Step>, k: nat, w: string) returns (c: nat)
    requires IsRun(run, steps) && k < |run| && Holds(run[k], w)
    ensures c < k && steps[c].Claim? && steps[c].w == w && steps[c].id == PhaseOf(run[k], w).id
    ensures forall j :: c < j < k && steps[j].Claim? ==> steps[j].w != w && steps[j].id != steps[c].id
  {
    RunRefines(run, steps);
    c := L.HeldSince(AbstractRun(run), AbstractSteps(run, steps), k, w);
    forall j | c < j < k && steps[j].Claim?
      ensures steps[j].w != w && steps[j].id != steps[c].id
    {
      assert AbstractSteps(run, steps)[j].Claim?;
    }
  }

  /** A sent delivery, and a dead one nobody retries, only ever disappear, with their target. */
  lemma SettledStep(s: System, step: Step, id: string)
    requires Inv(s) && Allowed(s, step) && id in s.outbox
    requires s.outbox[id].status == Sent || (s.outbox[id].status == Dead && !(step.Retry? && step.id == id))
    ensures id in Apply(s, step).outbox ==> Apply(s, step).outbox[id] == s.outbox[id]
    ensures id !in Apply(s, step).outbox <==> step == DeleteTarget(s.outbox[id].targetID)
  {
    assert id in Abstract(s).items.Keys;
    OnlyTargetDeletionRemoves(s, step, id);
  }

  lemma UsedIDsStayUsed(s: System, step: Step, id: string)
    requires Allowed(s, step) && id in s.claims
    ensures id in Apply(s, step).claims && (id in Apply(s, step).outbox ==> id in s.outbox)
  {
  }

  lemma StoredIDsAreUsed(run: seq<System>, steps: seq<Step>, k: nat, id: string)
    requires IsRun(run, steps) && k < |run| && id in run[k].outbox
    ensures id in run[k].claims
  {
    RunKeepsInv(run, steps, k);
    assert id in Abstract(run[k]).items.Keys;
  }

  /** id has been given out, and the delivery under it, if there still is one, reads d. */
  predicate Remains(s: System, id: string, d: ExportDelivery) {
    id in s.claims && (id in s.outbox ==> s.outbox[id] == d)
  }

  lemma SentStep(run: seq<System>, steps: seq<Step>, k: nat, id: string, d: ExportDelivery)
    requires IsRun(run, steps) && k + 1 < |run| && Remains(run[k], id, d) && d.status == Sent
    ensures Remains(run[k + 1], id, d)
  {
    RunKeepsInv(run, steps, k);
    RunLeads(run, steps, k);
    UsedIDsStayUsed(run[k], steps[k], id);
    if id in run[k].outbox { SettledStep(run[k], steps[k], id); }
  }

  /** Over whole runs, a sent delivery reads the same for as long as it is there. */
  lemma {:induction false} SentIsFinal(run: seq<System>, steps: seq<Step>, i: nat, k: nat, id: string)
    requires IsRun(run, steps) && i <= k < |run| && id in run[i].outbox && run[i].outbox[id].status == Sent
    ensures Remains(run[k], id, run[i].outbox[id])
  {
    if i == k {
      StoredIDsAreUsed(run, steps, i, id);
    } else {
      SentIsFinal(run, steps, i, k - 1, id);
      SentStep(run, steps, k - 1, id, run[i].outbox[id]);
    }
  }

  lemma OnlyTargetDeletionRemoves(s: System, step: Step, id: string)
    requires Allowed(s, step) && id in s.outbox
    ensures id !in Apply(s, step).outbox <==> step == DeleteTarget(s.outbox[id].targetID)
  {
  }

  // ---------------------------------------------------------------- when a delivery is made

  /** The worker's call is accepted and is about this delivery. */
  predicate Serves(s: System, w: string, id: string) {
    Holds(s, w) && PhaseOf(s, w).id == id
  }

  /** The time the latest step that touched the delivery set for it: created for now, leased until, to be
      tried again at. */
  ghost function DueAt(run: seq<System>, steps: seq<Step>, k: nat, id: string): nat
    requires |run| == |steps| + 1 && k < |run|
  {
    if k == 0 then 0 else NextDue(run[k - 1], steps[k - 1], id, DueAt(run, steps, k - 1, id))
  }

  ghost function NextDue(s: System, step: Step, id: string, due: nat): nat {
    match step
    case FanOut(batch, _, now) => if id in batch then now else due
    case Claim(_, other, now, lease) => if other == id then now + lease else due
    case Renew(w, other, until, _) => if other == id && Owned(s.outbox, id, w) then until else due
    case Fail(w, _, retryAt, _, _) => if Serves(s, w, id) then retryAt else due
    case Retry(other, now) => if other == id then now else due
    case _ => due
  }

  ghost predicate DueIs(outbox: Outbox, id: string, due: nat) {
    id in outbox ==> (outbox[id].status == Queued ==> outbox[id].availableAt == due)
                     && (outbox[id].status == Delivering ==> outbox[id].leaseUntil == Some(due))
  }

  lemma WorkerKeepsDue(s: System, step: Step, s': System, id: string, due: nat)
    requires Leads(s, step, s') && DueIs(s.outbox, id, due) && (step.Renew? || step.Complete? || step.Fail?)
    ensures DueIs(s'.outbox, id, NextDue(s, step, id, due))
  {
  }

  lemma OtherKeepsDue(s: System, step: Step, s': System, id: string, due: nat)
    requires Leads(s, step, s') && DueIs(s.outbox, id, due) && !step.Renew? && !step.Complete? && !step.Fail?
    ensures DueIs(s'.outbox, id, NextDue(s, step, id, due))
  {
  }

  lemma {:induction false} DueIsStored(run: seq<System>, steps: seq<Step>, k: nat, id: string)
    requires IsRun(run, steps) && k < |run|
    ensures DueIs(run[k].outbox, id, DueAt(run, steps, k, id))
  {
    if k == 0 {
    } else {
      DueIsStored(run, steps, k - 1, id);
      var s, step, due := run[k - 1], steps[k - 1], DueAt(run, steps, k - 1, id);
      RunLeads(run, steps, k - 1);
      if step.Renew? || step.Complete? || step.Fail? {
        WorkerKeepsDue(s, step, run[k], id, due);
      } else {
        OtherKeepsDue(s, step, run[k], id, due);
      }
    }
  }

  /** Queued or under way, for an enabled target, and its time has come. */
  ghost predicate Due(run: seq<System>, steps: seq<Step>, k: nat, id: string, now: nat)
    requires |run| == |steps| + 1 && k < |run|
  {
    && id in run[k].outbox && (run[k].outbox[id].status == Queued || run[k].outbox[id].status == Delivering)
    && run[k].outbox[id].targetID in run[k].targets && run[k].targets[run[k].outbox[id].targetID].enabled
    && DueAt(run, steps, k, id) <= now
  }

  lemma DueExactlyWhenClaimable(run: seq<System>, steps: seq<Step>, k: nat, id: string, now: nat)
    requires IsRun(run, steps) && k < |run|
    ensures Due(run, steps, k, id, now) <==> id in run[k].outbox && Claimable(run[k].outbox[id], run[k].targets, now)
    ensures id in run[k].outbox ==> id in run[k].claims
  {
    DueIsStored(run, steps, k, id);
    if id in run[k].outbox {
      ReachableDeliveries(run, steps, k, id);
      StoredIDsAreUsed(run, steps, k, id);
    }
  }

  /** In every reachable outbox, an idle worker's claim at a given time gets a delivery exactly when that
      delivery is due then and none that is due is older. */
  lemma ClaimedExactlyWhenDue(run: seq<System>, steps: seq<Step>, k: nat, w: string, id: string, now: nat, lease: nat)
    requires IsRun(run, steps) && k < |run| && w != "" && PhaseOf(run[k], w).Idle?
    ensures Allowed(run[k], Claim(w, id, now, lease)) <==>
            && Due(run, steps, k, id, now)
            && forall other :: Due(run, steps, k, other, now) ==>
                 run[k].outbox[id].createdAt <= run[k].outbox[other].createdAt
  {
    DueExactlyWhenClaimable(run, steps, k, id, now);
    forall other
      ensures Due(run, steps, k, other, now) <==>
              other in run[k].outbox && Claimable(run[k].outbox[other], run[k].targets, now)
    {
      DueExactlyWhenClaimable(run, steps, k, other, now);
    }
  }

  lemma OldestOf(outbox: Outbox, ids: set<string>) returns (id: string)
    requires ids != {} && ids <= outbox.Keys
    ensures id in ids && forall other :: other in ids ==> outbox[id].createdAt <= outbox[other].createdAt
    decreases |ids|
  {
    id :| id in ids;
    if ids != {id} {
      var other := OldestOf(outbox, ids - {id});
      if outbox[other].createdAt < outbox[id].createdAt { id := other; }
    }
  }

  /** A claim is refused exactly when no delivery is due. */
  lemma ServedExactlyWhenDue(run: seq<System>, steps: seq<Step>, k: nat, w: string, now: nat, lease: nat)
    requires IsRun(run, steps) && k < |run| && w != "" && PhaseOf(run[k], w).Idle?
    ensures (exists id :: Allowed(run[k], Claim(w, id, now, lease))) <==> exists id :: Due(run, steps, k, id, now)
  {
    var due := set id | id in run[k].outbox && Due(run, steps, k, id, now);
    if due != {} {
      var id := OldestOf(run[k].outbox, due);
      ClaimedExactlyWhenDue(run, steps, k, w, id, now, lease);
    }
    if id :| Allowed(run[k], Claim(w, id, now, lease)) { ClaimedExactlyWhenDue(run, steps, k, w, id, now, lease); }
    if id :| Due(run, steps, k, id, now) { assert id in due; }
  }

  /** Neither claimed nor taken away with its target between i and k. */
  ghost predicate LeftAlone(run: seq<System>, steps: seq<Step>, i: nat, k: nat, id: string)
    requires i <= k < |run| == |steps| + 1
  {
    forall j :: i <= j < k ==> !(steps[j].Claim? && steps[j].id == id) && id in run[j + 1].outbox
  }

  lemma QueuedStep(s: System, step: Step, s': System, id: string)
    requires Leads(s, step, s') && id in s.outbox && s.outbox[id].status == Queued && id in s'.outbox
    requires !(step.Claim? && step.id == id)
    ensures s'.outbox[id] == s.outbox[id]
  {
  }

  /** A queued delivery waits unchanged until it is claimed. */
  lemma {:induction false} QueuedWaits(run: seq<System>, steps: seq<Step>, i: nat, k: nat, id: string)
    requires IsRun(run, steps) && i <= k < |run| && LeftAlone(run, steps, i, k, id)
    requires id in run[i].outbox && run[i].outbox[id].status == Queued
    ensures id in run[k].outbox && run[k].outbox[id] == run[i].outbox[id]
  {
    if i == k {
    } else {
      assert LeftAlone(run, steps, i, k - 1, id);
      QueuedWaits(run, steps, i, k - 1, id);
      RunLeads(run, steps, k - 1);
      assert id in run[k - 1 + 1].outbox;
      QueuedStep(run[k - 1], steps[k - 1], run[k], id);
    }
  }

  /** Backoff: once a failed attempt is to be tried again at a given time, the delivery is not claimed
      before; and from then on, for as long as it waits and its target is enabled, no claim is refused. */
  lemma RetryWaits(run: seq<System>, steps: seq<Step>, i: nat, k: nat, id: string, w: string, now: nat, lease: nat)
    requires IsRun(run, steps) && i < k < |run| && LeftAlone(run, steps, i + 1, k, id)
    requires steps[i].Fail? && Serves(run[i], steps[i].w, id)
    requires id in run[i + 1].outbox && run[i + 1].outbox[id].status == Queued
    requires w != "" && PhaseOf(run[k], w).Idle?
    ensures Allowed(run[k], Claim(w, id, now, lease)) ==> steps[i].retryAt <= now
    ensures steps[i].retryAt <= now && id in run[k].outbox && Enabled(run[k].targets, run[k].outbox[id].targetID) ==>
              exists other :: Allowed(run[k], Claim(w, other, now, lease))
  {
    QueuedWaits(run, steps, i + 1, k, id);
    DueIsStored(run, steps, i + 1, id);
    DueIsStored(run, steps, k, id);
    ClaimedExactlyWhenDue(run, steps, k, w, id, now, lease);
    if steps[i].retryAt <= now && Enabled(run[k].targets, run[k].outbox[id].targetID) {
      assert Due(run, steps, k, id, now);
      ServedExactlyWhenDue(run, steps, k, w, now, lease);
    }
  }

  // ---------------------------------------------------------------- what a delivery's record says

  /** What never changes about a delivery. */
  predicate SameDelivery(a: ExportDelivery, b: ExportDelivery) {
    a.targetID == b.targetID && a.observationID == b.observationID && a.maxAttempts == b.maxAttempts
    && a.createdAt == b.createdAt
  }

  /** A new delivery is queued, for now and with ten attempts, for its target and observation. */
  lemma NewDeliveryIs(s: System, step: Step, s': System, id: string)
    requires Leads(s, step, s') && id !in s.outbox && id in s'.outbox
    ensures step.FanOut? && id in step.batch
    ensures s'.outbox[id] == ExportDelivery(step.batch[id], step.observation, Queued, 0, 10, "", None, step.now, "",
                                            step.now, step.now, None)
  {
  }

  /** Deliveries stay what they were created as. */
  lemma DeliveriesStay(s: System, step: Step, s': System, id: string)
    requires Leads(s, step, s') && id in s.outbox && id in s'.outbox
    ensures SameDelivery(s.outbox[id], s'.outbox[id])
  {
  }

  /** A claim is stored with its worker and the end of its lease, and counted; a renewal moves that end. */
  lemma ClaimIsStored(s: System, step: Step, s': System, id: string)
    requires Leads(s, step, s') && (step.Claim? || step.Renew?) && step.id == id && id in s.outbox
    ensures var d, d' := s.outbox[id], s'.outbox[id];
            && d'.lastError == d.lastError && d'.deliveredAt == d.deliveredAt && d'.availableAt == d.availableAt
            && (step.Claim? ==>
                && d'.status == Delivering && d'.workerID == step.w && d'.leaseUntil == Some(step.now + step.lease)
                && d'.attempts == d.attempts + 1 && d'.updatedAt == step.now)
            && (step.Renew? && d.status == Delivering && d.workerID == step.w ==>
                && d'.status == Delivering && d'.workerID == step.w && d'.leaseUntil == Some(step.until)
                && d'.attempts == d.attempts && d'.updatedAt == step.now)
  {
  }

  /** An accepted report settles the delivery or sends it round again, and keeps its count of attempts. */
  lemma ReportIsStored(s: System, step: Step, s': System, id: string)
    requires Leads(s, step, s') && (step.Complete? || step.Fail?) && Serves(s, step.w, id)
    ensures var d, d' := s.outbox[id], s'.outbox[id];
            && d'.attempts == d.attempts && d'.updatedAt == step.now
            && (step.Complete? ==> d'.status == Sent && d'.deliveredAt == Some(step.now) && d'.lastError == "")
            && (step.Fail? ==> d'.status == (if step.terminal then Dead else Queued) && d'.lastError == step.message
                               && d'.deliveredAt == d.deliveredAt)
  {
  }

  /** A retried delivery starts over: queued for now, with all its attempts and without its error. */
  lemma RetryIsStored(s: System, step: Step, s': System, id: string)
    requires Leads(s, step, s') && step.Retry? && step.id == id
    ensures s.outbox[id].status == Dead && id in s'.outbox
    ensures var d := s'.outbox[id];
            d.status == Queued && d.attempts == 0 && d.lastError == "" && d.availableAt == d.updatedAt == step.now
  {
  }

  // ---------------------------------------------------------------- deliveries per target

  lemma NewOfTarget(outbox: Outbox, batch: map<string, string>, observation: string, now: nat, target: string)
    requires batch.Keys !! outbox.Keys
    ensures OfTarget(FannedOut(outbox, batch, observation, now), target)
            == OfTarget(outbox, target) + set d | d in batch && batch[d] == target
  {
  }

  /** Every upsert adds exactly one delivery for each enabled target. */
  lemma FanOutAddsOne(s: System, batch: map<string, string>, observation: string, now: nat, target: string)
    requires L.Inv(Abstract(s)) && Allowed(s, FanOut(batch, observation, now)) && Enabled(s.targets, target)
    ensures |OfTarget(FannedOut(s.outbox, batch, observation, now), target)| == |OfTarget(s.outbox, target)| + 1
  {
    assert Items(s.outbox).Keys == s.outbox.Keys;
    NewOfTarget(s.outbox, batch, observation, now, target);
    var d :| d in batch && batch[d] == target;
    var added := set e | e in batch && batch[e] == target;
    assert added == {d};
    assert OfTarget(s.outbox, target) !! added;
  }

  /** Nothing the workers or operators do changes how many there are, as long as the target stays. */
  lemma OtherStepsKeepTarget(s: System, step: Step, target: string)
    requires Allowed(s, step) && !step.FanOut? && step != DeleteTarget(target)
    ensures OfTarget(Apply(s, step).outbox, target) == OfTarget(s.outbox, target)
  {
  }

  // ---------------------------------------------------------------- calls on the store as steps

  /** The worker is at the delivery the call is about. */
  predicate AtWork(s: System, w: string, id: string) {
    PhaseOf(s, w).Busy? && PhaseOf(s, w).id == id
  }

  /** Fencing at the store: the owner of record made the latest claim. */
  predicate ClaimedLast(s: System, id: string, w: string) {
    id in s.claims && s.claims[id] != [] && s.claims[id][|s.claims[id]| - 1] == w
  }

  lemma OwnerClaimedLast(s: System, id: string, w: string)
    requires Inv(s) && Owned(s.outbox, id, w)
    ensures ClaimedLast(s, id, w)
  {
    L.OwnerClaimedLast(Abstract(s), id, w);
  }

  lemma StoredIsUsed(s: System, id: string)
    requires Inv(s) && id in s.outbox
    ensures id in s.claims
  {
    assert id in Abstract(s).items.Keys;
  }

  lemma WorkerIsKnown(s: System, w: string)
    requires Inv(s) && PhaseOf(s, w).Busy?
    ensures PhaseOf(s, w).id in s.completions
  {
    var a := Abstract(s);
    assert L.PhaseOK(w, a.workers[w], a.items, a.claims) && a.claims.Keys == a.completions.Keys;
  }
}
