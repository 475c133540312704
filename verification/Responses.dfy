/** Response actions: the approval workflow and the execution lease (internal/store/memory.go,
    internal/scan/response.go). */
module Responses {
  import opened Backoff
  import opened Wrappers

  datatype ResponseStatus = Unset | Pending | Approved | Rejected | Running | Succeeded | Failed

  datatype ResponseAction = ResponseAction(
    id: string, hostID: string, status: ResponseStatus, requestedBy: string, approvedBy: string, rejectedBy: string,
    rejectReason: string, workerID: string, leaseUntil: Option<nat>, output: string, error: string, createdAt: nat,
    approvedAt: Option<nat>, rejectedAt: Option<nat>, startedAt: Option<nat>, finishedAt: Option<nat>, updatedAt: nat)

  type Actions = map<string, ResponseAction>

  // ---------------------------------------------------------------- operations on records

  /** The record CreateResponseAction stores. */
  function Defaulted(a: ResponseAction, uuid: string, now: nat): ResponseAction {
    a.(id := if a.id == "" then uuid else a.id, status := if a.status == Unset then Pending else a.status,
       createdAt := if a.createdAt == 0 then now else a.createdAt, updatedAt := now)
  }

  /** What the API hands to the store: a pending action of the logged-in user. */
  function Request(host: string, requester: string): ResponseAction {
    ResponseAction("", host, Pending, requester, "", "", "", "", None, "", "", 0, None, None, None, None, 0)
  }

  predicate IsPending(actions: Actions, id: string) {
    id in actions && actions[id].status == Pending
  }

  /** Two-person control. */
  predicate MayApprove(a: ResponseAction, approver: string, allowSelf: bool) {
    a.requestedBy != approver || allowSelf
  }

  function ApprovedBy(a: ResponseAction, approver: string, now: nat): ResponseAction {
    a.(status := Approved, approvedBy := approver, approvedAt := Some(now), updatedAt := now)
  }

  function RejectedBy(a: ResponseAction, rejector: string, reason: string, now: nat): ResponseAction {
    a.(status := Rejected, rejectedBy := rejector, rejectReason := reason, rejectedAt := Some(now),
       finishedAt := Some(now), updatedAt := now)
  }

  predicate Claimable(a: ResponseAction, now: nat) {
    a.status == Approved || (a.status == Running && a.leaseUntil.Some? && a.leaseUntil.value <= now)
  }

  ghost predicate OldestClaimable(actions: Actions, id: string, now: nat) {
    && id in actions && Claimable(actions[id], now)
    && forall other :: other in actions && Claimable(actions[other], now) ==>
      actions[id].createdAt <= actions[other].createdAt
  }

  function Claimed(a: ResponseAction, worker: string, now: nat, lease: nat): ResponseAction {
    a.(status := Running, workerID := worker, leaseUntil := Some(now + lease), updatedAt := now,
       startedAt := if a.startedAt == None then Some(now) else a.startedAt)
  }

  predicate Owned(actions: Actions, id: string, worker: string) {
    id in actions && actions[id].status == Running && actions[id].workerID == worker
  }

  function Renewed(a: ResponseAction, until: nat, now: nat): ResponseAction {
    a.(leaseUntil := Some(until), updatedAt := now)
  }

  function Completed(a: ResponseAction, output: string, now: nat): ResponseAction {
    a.(status := Succeeded, output := output, error := "", workerID := "", leaseUntil := None, finishedAt := Some(now),
       updatedAt := now)
  }

  function FailedWith(a: ResponseAction, message: string, now: nat): ResponseAction {
    a.(status := Failed, error := message, workerID := "", leaseUntil := None, finishedAt := Some(now),
       updatedAt := now)
  }

  // ---------------------------------------------------------------- the queue's configuration

  datatype Config = Config(lease: nat, timeout: nat, allowSelf: bool)

  /** ResponseQueue.defaults. */
  function WithDefaults(lease: int, timeout: int, allowSelf: bool): Config {
    Config(if lease <= 0 then 180 * SECOND else lease, if timeout <= 0 then 120 * SECOND else timeout, allowSelf)
  }

  // ---------------------------------------------------------------- the workflow, as interleaved steps

  /** Taken: the store has served the claim stamped since, the execution and its timeout have not begun.
      Done: the execution has ended, the report to the store has not been made. */
  datatype Phase =
    | Idle
    | Taken(id: string, since: nat)
    | Executing(id: string, since: nat, started: nat)
    | Done(id: string)
    | Crashed

  /** claims is history: the workers that have claimed each action, in order. */
  datatype System = System(actions: Actions, workers: map<string, Phase>, claims: map<string, seq<string>>, clock: nat,
                           config: Config)

  datatype Step =
    | Create(host: string, requester: string, uuid: string, now: nat)
    | Approve(id: string, approver: string, now: nat)
    | Reject(id: string, rejector: string, reason: string, now: nat)
    | Claim(w: string, id: string, now: nat)
    | Begin(w: string)
    | Renew(w: string, id: string, until: nat, now: nat)
    | Stop(w: string)
    | Report(w: string, succeeded: bool, text: string, now: nat)
    | Crash(w: string)
    | Tick(clock: nat)

  function PhaseOf(s: System, w: string): Phase {
    if w in s.workers then s.workers[w] else Idle
  }

  function ClaimsOf(s: System, id: string): seq<string> {
    if id in s.claims then s.claims[id] else []
  }

  /** A worker reads the clock before the store serves its claim, so a claim may be stamped late; and it
      starts the timeout only when the claim has returned. Renewals do not shorten a lease. */
  ghost predicate Enabled(s: System, step: Step) {
    match step
    case Create(_, _, uuid, _) => uuid != "" && uuid !in s.actions
    case Approve(_, _, _) => true
    case Reject(_, _, _, _) => true
    case Claim(w, id, now) => w != "" && PhaseOf(s, w).Idle? && now <= s.clock && OldestClaimable(s.actions, id, now)
    case Begin(w) => PhaseOf(s, w).Taken?
    case Renew(_, id, until, _) =>
      id in s.actions && s.actions[id].leaseUntil.Some? ==> s.actions[id].leaseUntil.value <= until
    case Stop(w) => PhaseOf(s, w).Executing?
    case Report(w, _, _, _) => PhaseOf(s, w).Done?
    case Crash(w) => !PhaseOf(s, w).Crashed?
    case Tick(clock) => s.clock <= clock
  }

  ghost function Apply(s: System, step: Step): System
    requires Enabled(s, step)
  {
    match step
    case Create(host, requester, uuid, now) =>
      s.(actions := s.actions[uuid := Defaulted(Request(host, requester), uuid, now)])
    case Approve(id, approver, now) =>
      if IsPending(s.actions, id) && MayApprove(s.actions[id], approver, s.config.allowSelf) then
        s.(actions := s.actions[id := ApprovedBy(s.actions[id], approver, now)])
      else s
    case Reject(id, rejector, reason, now) =>
      if IsPending(s.actions, id) then s.(actions := s.actions[id := RejectedBy(s.actions[id], rejector, reason, now)])
        else s
    case Claim(w, id, now) =>
      s.(actions := s.actions[id := Claimed(s.actions[id], w, now, s.config.lease)],
         workers := s.workers[w := Taken(id, now)], claims := s.claims[id := ClaimsOf(s, id) + [w]])
    case Begin(w) => s.(workers := s.workers[w := Executing(PhaseOf(s, w).id, PhaseOf(s, w).since, s.clock)])
    case Renew(w, id, until, now) =>
      if Owned(s.actions, id, w) then s.(actions := s.actions[id := Renewed(s.actions[id], until, now)]) else s
    case Stop(w) => s.(workers := s.workers[w := Done(PhaseOf(s, w).id)])
    case Report(w, succeeded, text, now) =>
      var id := PhaseOf(s, w).id;
      var idle := s.(workers := s.workers[w := Idle]);
      if Owned(s.actions, id, w) then
        idle.(actions :=
              s.actions[id := if succeeded then Completed(s.actions[id], text, now)
                        else FailedWith(s.actions[id], text, now)])
      else idle
    case Crash(w) => s.(workers := s.workers[w := Crashed])
    case Tick(clock) => s.(clock := clock)
  }

  ghost predicate IsRun(run: seq<System>, steps: seq<Step>) {
    && |run| == |steps| + 1
    && run[0] == System(map[], map[], map[], 0, run[0].config)
    && forall k :: 0 <= k < |steps| ==> Enabled(run[k], steps[k]) && run[k + 1] == Apply(run[k], steps[k])
  }

  // ---------------------------------------------------------------- two-person control

  predicate Authorised(a: ResponseAction, allowSelf: bool) {
    a.approvedAt.Some? && a.rejectedAt.None? && (a.approvedBy != a.requestedBy || allowSelf)
  }

  /** What each status says about who decided and who has touched the host. */
  predicate ActionOK(a: ResponseAction, allowSelf: bool) {
    match a.status
    case Unset => false
    case Pending => a.approvedAt.None? && a.rejectedAt.None? && a.startedAt.None?
    case Approved => Authorised(a, allowSelf) && a.startedAt.None?
    case Rejected => a.rejectedAt.Some? && a.approvedAt.None? && a.startedAt.None?
    case Running => Authorised(a, allowSelf) && a.startedAt.Some? && a.workerID != "" && a.leaseUntil.Some?
    case Succeeded => Authorised(a, allowSelf) && a.startedAt.Some? && a.finishedAt.Some?
    case Failed => Authorised(a, allowSelf) && a.startedAt.Some? && a.finishedAt.Some?
  }

  ghost predicate ActionsOK(s: System) {
    forall id :: id in s.actions ==> ActionOK(s.actions[id], s.config.allowSelf)
  }

  ghost predicate WorkersOK(s: System) {
    forall w :: w in s.workers && (s.workers[w].Taken? || s.workers[w].Executing?) ==>
      s.workers[w].id in s.actions && s.actions[s.workers[w].id].startedAt.Some?
  }

  ghost predicate Inv(s: System) {
    ActionsOK(s) && WorkersOK(s)
  }

  lemma StepKeepsActions(s: System, step: Step)
    requires ActionsOK(s) && Enabled(s, step)
    ensures ActionsOK(Apply(s, step))
  {
  }

  lemma StepKeepsWorkers(s: System, step: Step)
    requires WorkersOK(s) && Enabled(s, step)
    ensures WorkersOK(Apply(s, step))
  {
  }

  lemma StepKeepsInv(s: System, step: Step)
    requires Inv(s) && Enabled(s, step)
    ensures Inv(Apply(s, step))
  {
    StepKeepsActions(s, step);
    StepKeepsWorkers(s, step);
  }

  lemma {:induction false} RunKeepsInv(run: seq<System>, steps: seq<Step>, k: nat)
    requires IsRun(run, steps) && k < |run|
    ensures Inv(run[k]) && run[k].config == run[0].config
  {
    if k == 0 {
    } else {
      RunKeepsInv(run, steps, k - 1);
      StepKeepsInv(run[k - 1], steps[k - 1]);
    }
  }

  /** Two-person control over whole runs: whatever was approved, runs or has run was approved, never
      rejected, and approved by somebody other than its requester unless self-approval is configured. */
  lemma TwoPersonControl(run: seq<System>, steps: seq<Step>, k: nat, id: string)
    requires IsRun(run, steps) && k < |run| && id in run[k].actions
    ensures var a := run[k].actions[id];
            && (a.startedAt.Some? || a.status == Approved ==> Authorised(a, run[0].config.allowSelf))
            && (a.startedAt.Some? <==> a.status == Running || a.status == Succeeded || a.status == Failed)
            && (a.status == Rejected ==> a.startedAt.None?)
  {
    RunKeepsInv(run, steps, k);
  }

  /** Whatever a worker is executing has been authorised. */
  lemma OnlyAuthorisedExecute(run: seq<System>, steps: seq<Step>, k: nat, w: string)
    requires IsRun(run, steps) && k < |run| && PhaseOf(run[k], w).Executing?
    ensures PhaseOf(run[k], w).id in run[k].actions
            && Authorised(run[k].actions[PhaseOf(run[k], w).id], run[0].config.allowSelf)
  {
    RunKeepsInv(run, steps, k);
    TwoPersonControl(run, steps, k, PhaseOf(run[k], w).id);
  }

  predicate Final(a: ResponseAction) {
    a.status == Rejected || a.status == Succeeded || a.status == Failed
  }

  /** b is a possible later state of a: same requester; a decision, once taken, stands; a final record
      does not change at all. */
  predicate Follows(a: ResponseAction, b: ResponseAction) {
    && b.requestedBy == a.requestedBy
    && (a.status != Pending ==>
        b.status != Pending && b.approvedBy == a.approvedBy && b.approvedAt == a.approvedAt
          && b.rejectedBy == a.rejectedBy)
    && (Final(a) ==> b == a)
  }

  lemma ReportFollows(s: System, step: Step, id: string)
    requires Enabled(s, step) && id in s.actions && step.Report?
    ensures id in Apply(s, step).actions && Follows(s.actions[id], Apply(s, step).actions[id])
  {
  }

  lemma StepFollows(s: System, step: Step, id: string)
    requires Enabled(s, step) && id in s.actions
    ensures id in Apply(s, step).actions && Follows(s.actions[id], Apply(s, step).actions[id])
  {
    if step.Report? { ReportFollows(s, step, id); }
  }

  lemma RunStepFollows(run: seq<System>, steps: seq<Step>, k: nat, id: string)
    requires IsRun(run, steps) && k + 1 < |run| && id in run[k].actions
    ensures id in run[k + 1].actions && Follows(run[k].actions[id], run[k + 1].actions[id])
  {
    StepFollows(run[k], steps[k], id);
  }

  /** Requesters never change, decisions stand, and rejected, succeeded and failed actions stay as they are. */
  lemma {:induction false} DecisionsStand(run: seq<System>, steps: seq<Step>, i: nat, k: nat, id: string)
    requires IsRun(run, steps) && i <= k < |run| && id in run[i].actions
    ensures id in run[k].actions && Follows(run[i].actions[id], run[k].actions[id])
  {
    if i == k {
    } else {
      DecisionsStand(run, steps, i, k - 1, id);
      RunStepFollows(run, steps, k - 1, id);
    }
  }

  // ---------------------------------------------------------------- fencing

  predicate MadeLatestClaim(s: System, id: string, w: string) {
    var claims := ClaimsOf(s, id);
    claims != [] && claims[|claims| - 1] == w
  }

  /** The owner of a running action made its latest claim. */
  ghost predicate Fenced(s: System) {
    forall id :: id in s.actions && s.actions[id].status == Running ==> MadeLatestClaim(s, id, s.actions[id].workerID)
  }

  lemma StepKeepsFencing(s: System, step: Step)
    requires Fenced(s) && Enabled(s, step)
    ensures Fenced(Apply(s, step))
  {
  }

  lemma {:induction false} RunKeepsFencing(run: seq<System>, steps: seq<Step>, k: nat)
    requires IsRun(run, steps) && k < |run|
    ensures Fenced(run[k])
  {
    if k == 0 {
    } else {
      RunKeepsFencing(run, steps, k - 1);
      StepKeepsFencing(run[k - 1], steps[k - 1]);
    }
  }

  /** Fencing: a worker whose renewal or report the store accepts made the latest claim of the action, so
      nobody has claimed it since. */
  lemma AcceptedMeansUncontested(run: seq<System>, steps: seq<Step>, k: nat, id: string, w: string)
    requires IsRun(run, steps) && k < |run| && Owned(run[k].actions, id, w)
    ensures MadeLatestClaim(run[k], id, w)
  {
    RunKeepsFencing(run, steps, k);
  }

  // ---------------------------------------------------------------- one execution at a time

  /** The lease a worker's claim was given has not run out. */
  predicate Leased(p: Phase, clock: nat, lease: nat) {
    (p.Taken? || p.Executing?) && clock < p.since + lease
  }

  /** Whoever is within the lease of its own claim still owns its action, and the store knows how long. */
  ghost predicate LeasesHold(s: System) {
    forall w :: w in s.workers && Leased(s.workers[w], s.clock, s.config.lease) ==>
      && Owned(s.actions, s.workers[w].id, w)
      && s.actions[s.workers[w].id].leaseUntil.Some?
      && s.workers[w].since + s.config.lease <= s.actions[s.workers[w].id].leaseUntil.value
  }

  lemma ClaimKeepsLeases(s: System, step: Step)
    requires LeasesHold(s) && Enabled(s, step) && step.Claim?
    ensures LeasesHold(Apply(s, step))
  {
  }

  lemma ReportKeepsLeases(s: System, step: Step)
    requires LeasesHold(s) && Enabled(s, step) && step.Report?
    ensures LeasesHold(Apply(s, step))
  {
  }

  lemma StepKeepsLeases(s: System, step: Step)
    requires LeasesHold(s) && Enabled(s, step)
    ensures LeasesHold(Apply(s, step))
  {
    if step.Claim? {
      ClaimKeepsLeases(s, step);
    } else if step.Report? {
      ReportKeepsLeases(s, step);
    }
  }

  lemma {:induction false} RunKeepsLeases(run: seq<System>, steps: seq<Step>, k: nat)
    requires IsRun(run, steps) && k < |run|
    ensures LeasesHold(run[k]) && run[k].config == run[0].config
  {
    if k == 0 {
    } else {
      RunKeepsLeases(run, steps, k - 1);
      StepKeepsLeases(run[k - 1], steps[k - 1]);
    }
  }

  ghost predicate TwoExecute(s: System) {
    exists v, w :: v != w && PhaseOf(s, v).Executing? && PhaseOf(s, w).Executing?
      && PhaseOf(s, v).id == PhaseOf(s, w).id
  }

  /** If each execution under way is within the lease of its own claim, no two are of one action. */
  lemma NoTwoWithinTheirLeases(run: seq<System>, steps: seq<Step>, k: nat)
    requires IsRun(run, steps) && k < |run|
    requires forall w :: PhaseOf(run[k], w).Executing? ==> run[k].clock < PhaseOf(run[k], w).since + run[0].config.lease
    ensures !TwoExecute(run[k])
  {
    RunKeepsLeases(run, steps, k);
    forall v, w | PhaseOf(run[k], v).Executing? && PhaseOf(run[k], w).Executing?
      && PhaseOf(run[k], v).id == PhaseOf(run[k], w).id
      ensures v == w
    {
      assert Leased(run[k].workers[v], run[k].clock, run[k].config.lease);
      assert Leased(run[k].workers[w], run[k].clock, run[k].config.lease);
    }
  }

  /** Executions begin at most delay after the stamp of their claim, and end when their timeout does. */
  ghost predicate Prompt(s: System, delay: nat) {
    forall w :: w in s.workers && s.workers[w].Executing? ==>
      s.workers[w].started <= s.workers[w].since + delay && s.clock <= s.workers[w].started + s.config.timeout
  }

  ghost predicate AllPrompt(run: seq<System>, delay: nat) {
    forall k :: 0 <= k < |run| ==> Prompt(run[k], delay)
  }

  /** With timeout and delay together below the lease, no two workers ever execute one action at the same time. */
  lemma NoTwoExecute(run: seq<System>, steps: seq<Step>, k: nat, delay: nat)
    requires IsRun(run, steps) && k < |run| && AllPrompt(run, delay)
    requires run[0].config.timeout + delay < run[0].config.lease
    ensures !TwoExecute(run[k])
  {
    RunKeepsLeases(run, steps, k);
    assert Prompt(run[k], delay);
    NoTwoWithinTheirLeases(run, steps, k);
  }

  // ---------------------------------------------------------------- the bound is exact

  ghost predicate IsCounterexample(run: seq<System>, steps: seq<Step>, config: Config, delay: nat) {
    && IsRun(run, steps) && run[0].config == config && AllPrompt(run, delay)
    && exists k :: 0 <= k < |run| && TwoExecute(run[k])
  }

  /** One step of a run in which every state is prompt. */
  ghost predicate Leads(s: System, step: Step, s': System, delay: nat) {
    Enabled(s, step) && s' == Apply(s, step) && Prompt(s', delay)
  }

  /** Such steps lead from s to a state in which two workers execute one action. */
  ghost predicate LeadsToOverlap(s: System, delay: nat) {
    exists run, steps :: Chain(run, steps, delay) && run[0] == s && TwoExecute(run[|run| - 1])
  }

  ghost predicate Chain(run: seq<System>, steps: seq<Step>, delay: nat) {
    |run| == |steps| + 1 && forall k :: 0 <= k < |steps| ==> Leads(run[k], steps[k], run[k + 1], delay)
  }

  lemma OneStepEarlier(s: System, step: Step, s': System, delay: nat)
    requires Leads(s, step, s', delay) && LeadsToOverlap(s', delay)
    ensures LeadsToOverlap(s, delay)
  {
    var run, steps :| Chain(run, steps, delay) && run[0] == s' && TwoExecute(run[|run| - 1]);
    assert Chain([s] + run, [step] + steps, delay);
    assert ([s] + run)[|run|] == run[|run| - 1];
  }

  lemma ChainIsRun(run: seq<System>, steps: seq<Step>, config: Config, delay: nat)
    requires Chain(run, steps, delay) && run[0] == System(map[], map[], map[], 0, config) && Prompt(run[0], delay)
    ensures IsRun(run, steps) && AllPrompt(run, delay)
  {
    forall k | 0 <= k < |run|
      ensures Prompt(run[k], delay)
    {
      if k > 0 { assert Leads(run[k - 1], steps[k - 1], run[k], delay); }
    }
    forall k | 0 <= k < |steps|
      ensures Enabled(run[k], steps[k]) && run[k + 1] == Apply(run[k], steps[k])
    {
      assert Leads(run[k], steps[k], run[k + 1], delay);
    }
  }

  function Only(id: string, a: ResponseAction): Actions {
    map[id := a]
  }

  /** The lease of an executing worker has passed: another one claims the action and begins. */
  lemma ClaimedAgain(s: System, id: string, a: ResponseAction, v: string, w: string, delay: nat, end: nat)
    requires s == System(Only(id, a), map[v := Executing(id, 0, delay)], s.claims, end, s.config)
    requires Claimable(a, end) && end <= delay + s.config.timeout && v != w && w != ""
    ensures LeadsToOverlap(s, delay)
  {
    assert OldestClaimable(s.actions, id, end);
    var s7 := Apply(s, Claim(w, id, end));
    assert Leads(s, Claim(w, id, end), s7, delay);
    var s8 := Apply(s7, Begin(w));
    assert Leads(s7, Begin(w), s8, delay);
    assert PhaseOf(s8, v).Executing? && PhaseOf(s8, w).Executing? && PhaseOf(s8, v).id == PhaseOf(s8, w).id;
    assert TwoExecute(s8);
    assert Chain([s8], [], delay);
    OneStepEarlier(s7, Begin(w), s8, delay);
    OneStepEarlier(s, Claim(w, id, end), s7, delay);
  }

  /** The claim returns delay later and the execution begins; then the lease passes. */
  lemma LeasePasses(s: System, id: string, a: ResponseAction, v: string, w: string, delay: nat, end: nat)
    requires s == System(Only(id, a), map[v := Taken(id, 0)], s.claims, 0, s.config)
    requires Claimable(a, end) && delay <= end <= delay + s.config.timeout && v != w && w != ""
    ensures LeadsToOverlap(s, delay)
  {
    var s4 := Apply(s, Tick(delay));
    var s5 := Apply(s4, Begin(v));
    var s6 := Apply(s5, Tick(end));
    ClaimedAgain(s6, id, a, v, w, delay, end);
    OneStepEarlier(s5, Tick(end), s6, delay);
    OneStepEarlier(s4, Begin(v), s5, delay);
    OneStepEarlier(s, Tick(delay), s4, delay);
  }

  /** An action is requested, approved by somebody else, and claimed. */
  lemma OverlapFromStart(config: Config, delay: nat, id: string, alice: string, bob: string, v: string, w: string)
    requires config.timeout + delay >= config.lease && id != "" && alice != bob && v != w && v != "" && w != ""
    ensures LeadsToOverlap(System(map[], map[], map[], 0, config), delay)
  {
    var end := if delay >= config.lease then delay else config.lease;
    var s0 := System(map[], map[], map[], 0, config);
    var s1 := Apply(s0, Create("host", alice, id, 1));
    var s2 := Apply(s1, Approve(id, bob, 1));
    assert OldestClaimable(s2.actions, id, 0);
    var s3 := Apply(s2, Claim(v, id, 0));
    LeasePasses(s3, id, s3.actions[id], v, w, delay, end);
    OneStepEarlier(s2, Claim(v, id, 0), s3, delay);
    OneStepEarlier(s1, Approve(id, bob, 1), s2, delay);
    OneStepEarlier(s0, Create("host", alice, id, 1), s1, delay);
  }

  lemma OverlapRun(config: Config, delay: nat) returns (run: seq<System>, steps: seq<Step>)
    requires config.timeout + delay >= config.lease
    ensures IsCounterexample(run, steps, config, delay)
  {
    OverlapFromStart(config, delay, "a", "alice", "bob", "v", "w");
    var s0 := System(map[], map[], map[], 0, config);
    run, steps :| Chain(run, steps, delay) && run[0] == s0 && TwoExecute(run[|run| - 1]);
    ChainIsRun(run, steps, config, delay);
  }

  /** Two workers can execute one action at once exactly when the configured timeout and the delay between
      a claim's stamp and the start of its execution together reach the lease. */
  lemma OverlapExactlyWhenTimeoutAndDelayReachLease(config: Config, delay: nat)
    ensures config.timeout + delay >= config.lease <==> exists run, steps :: IsCounterexample(run, steps, config, delay)
  {
    if config.timeout + delay >= config.lease {
      var run, steps := OverlapRun(config, delay);
      assert IsCounterexample(run, steps, config, delay);
    } else {
      forall run, steps | IsCounterexample(run, steps, config, delay)
        ensures false
      {
        var k :| 0 <= k < |run| && TwoExecute(run[k]);
        NoTwoExecute(run, steps, k, delay);
      }
    }
  }

  /** However a queue is configured, it is safe exactly while its timeout and the delay fall short of its
      lease. Left to its defaults it is safe while executions begin within a minute of their claim's stamp. A
      lease of up to two minutes, or a timeout of three or more, set alone, is unsafe whatever the delay. */
  lemma DefaultsAreSafeExactlyWhen(lease: int, timeout: int, allowSelf: bool, delay: nat)
    ensures lease <= 0 && timeout <= 0 ==>
              (delay < 60 * SECOND <==>
               forall run, steps :: !IsCounterexample(run, steps, WithDefaults(lease, timeout, allowSelf), delay))
    ensures (0 < lease <= 120 * SECOND && timeout <= 0) || (lease <= 0 && timeout >= 180 * SECOND) ==>
              exists run, steps :: IsCounterexample(run, steps, WithDefaults(lease, timeout, allowSelf), delay)
    ensures (if timeout > 0 then timeout else 120 * SECOND) + delay < (if lease > 0 then lease else 180 * SECOND) <==>
            forall run, steps :: !IsCounterexample(run, steps, WithDefaults(lease, timeout, allowSelf), delay)
  {
    OverlapExactlyWhenTimeoutAndDelayReachLease(WithDefaults(lease, timeout, allowSelf), delay);
  }

  // ---------------------------------------------------------------- when an action is claimed

  /** The end of the lease the latest claim or accepted renewal of the action gave. */
  ghost function LeaseAt(run: seq<System>, steps: seq<Step>, k: nat, id: string): nat
    requires |run| == |steps| + 1 && k < |run|
  {
    if k == 0 then 0 else NextLease(run[k - 1], steps[k - 1], id, LeaseAt(run, steps, k - 1, id))
  }

  ghost function NextLease(s: System, step: Step, id: string, until: nat): nat {
    match step
    case Claim(_, other, now) => if other == id then now + s.config.lease else until
    case Renew(w, other, later, _) => if other == id && Owned(s.actions, id, w) then later else until
    case _ => until
  }

  ghost predicate LeaseIs(actions: Actions, id: string, until: nat) {
    id in actions && actions[id].status == Running ==> actions[id].leaseUntil == Some(until)
  }

  lemma StepKeepsLease(s: System, step: Step, s': System, id: string, until: nat)
    requires Enabled(s, step) && s' == Apply(s, step) && LeaseIs(s.actions, id, until)
    ensures LeaseIs(s'.actions, id, NextLease(s, step, id, until))
  {
  }

  lemma {:induction false} LeaseIsStored(run: seq<System>, steps: seq<Step>, k: nat, id: string)
    requires IsRun(run, steps) && k < |run|
    ensures LeaseIs(run[k].actions, id, LeaseAt(run, steps, k, id))
  {
    if k == 0 {
    } else {
      LeaseIsStored(run, steps, k - 1, id);
      StepKeepsLease(run[k - 1], steps[k - 1], run[k], id, LeaseAt(run, steps, k - 1, id));
    }
  }

  /** Approved and never claimed, or running under a lease that has ended. */
  ghost predicate Due(run: seq<System>, steps: seq<Step>, k: nat, id: string, now: nat)
    requires |run| == |steps| + 1 && k < |run|
  {
    && id in run[k].actions
    && (run[k].actions[id].status == Approved
        || (run[k].actions[id].status == Running && LeaseAt(run, steps, k, id) <= now))
  }

  lemma DueExactlyWhenClaimable(run: seq<System>, steps: seq<Step>, k: nat, id: string, now: nat)
    requires IsRun(run, steps) && k < |run|
    ensures Due(run, steps, k, id, now) <==> id in run[k].actions && Claimable(run[k].actions[id], now)
  {
    LeaseIsStored(run, steps, k, id);
  }

  /** In every reachable queue, an idle worker's claim stamped with a given time gets an action exactly when
      that action is due then and none that is due is older. */
  lemma ClaimedExactlyWhenDue(run: seq<System>, steps: seq<Step>, k: nat, w: string, id: string, now: nat)
    requires IsRun(run, steps) && k < |run| && w != "" && PhaseOf(run[k], w).Idle? && now <= run[k].clock
    ensures Enabled(run[k], Claim(w, id, now)) <==>
            && Due(run, steps, k, id, now)
            && forall other :: Due(run, steps, k, other, now) ==>
                 run[k].actions[id].createdAt <= run[k].actions[other].createdAt
  {
    DueExactlyWhenClaimable(run, steps, k, id, now);
    forall other
      ensures Due(run, steps, k, other, now) <==> other in run[k].actions && Claimable(run[k].actions[other], now)
    {
      DueExactlyWhenClaimable(run, steps, k, other, now);
    }
  }

  // ---------------------------------------------------------------- what an action's record says

  /** A new action waits for a decision. */
  lemma NewActionIs(s: System, step: Step, s': System, id: string)
    requires Enabled(s, step) && s' == Apply(s, step) && id !in s.actions && id in s'.actions
    ensures step.Create? && id == step.uuid
    ensures s'.actions[id] == ResponseAction(id, step.host, Pending, step.requester, "", "", "", "", None, "", "",
                                             step.now, None, None, None, None, step.now)
  {
  }

  /** A decision is stored with its author and time, and is taken on pending actions only; approval not by
      the requester, unless that is configured. */
  lemma DecisionIsStored(s: System, step: Step, s': System, id: string)
    requires Enabled(s, step) && s' == Apply(s, step) && (step.Approve? || step.Reject?) && step.id == id
    requires id in s.actions
    ensures var a, a' := s.actions[id], s'.actions[id];
            && (step.Approve? ==>
                  if a.status == Pending && (a.requestedBy != step.approver || s.config.allowSelf)
                  then a'.status == Approved && a'.approvedBy == step.approver && a'.approvedAt == Some(step.now)
                       && a'.updatedAt == step.now && a'.finishedAt == a.finishedAt
                  else a' == a)
            && (step.Reject? ==>
                  if a.status == Pending
                  then a'.status == Rejected && a'.rejectedBy == step.rejector && a'.rejectReason == step.reason
                       && a'.rejectedAt == a'.finishedAt == Some(step.now) && a'.updatedAt == step.now
                  else a' == a)
  {
  }

  /** A claim is stored with its worker, its lease and the time of the first start; a renewal moves the end
      of the lease. */
  lemma ClaimIsStored(s: System, step: Step, s': System, id: string)
    requires Enabled(s, step) && s' == Apply(s, step) && (step.Claim? || step.Renew?) && step.id == id
    requires id in s.actions
    ensures var a, a' := s.actions[id], s'.actions[id];
            && a'.output == a.output && a'.error == a.error && a'.finishedAt == a.finishedAt
            && (step.Claim? ==>
                && a'.status == Running && a'.workerID == step.w && a'.leaseUntil == Some(step.now + s.config.lease)
                && a'.startedAt == (if a.startedAt.Some? then a.startedAt else Some(step.now))
                && a'.updatedAt == step.now)
            && (step.Renew? && a.status == Running && a.workerID == step.w ==>
                && a'.status == Running && a'.workerID == step.w && a'.leaseUntil == Some(step.until)
                && a'.startedAt == a.startedAt && a'.updatedAt == step.now)
  {
  }

  /** An accepted report finishes the action with its output or its error. */
  lemma ReportIsStored(s: System, step: Step, s': System, id: string)
    requires Enabled(s, step) && s' == Apply(s, step) && step.Report? && PhaseOf(s, step.w).id == id
    requires Owned(s.actions, id, step.w)
    ensures var a, a' := s.actions[id], s'.actions[id];
            && a'.finishedAt == Some(step.now) && a'.updatedAt == step.now && a'.startedAt == a.startedAt
            && a'.workerID == "" && a'.leaseUntil.None?
            && (if step.succeeded then a'.status == Succeeded && a'.output == step.text && a'.error == ""
                else a'.status == Failed && a'.error == step.text && a'.output == a.output)
  {
  }

  /** Actions stay what they were requested as. */
  lemma ActionsStay(s: System, step: Step, s': System, id: string)
    requires Enabled(s, step) && s' == Apply(s, step) && id in s.actions
    ensures id in s'.actions
    ensures var a, a' := s.actions[id], s'.actions[id];
            a'.id == a.id && a'.hostID == a.hostID && a'.requestedBy == a.requestedBy && a'.createdAt == a.createdAt
  {
  }

  // ---------------------------------------------------------------- the history a store keeps

  /** The run so far. None: a caller has left the protocol, by claiming twice, shortening a lease and the like. */
  datatype Log = Log(run: seq<System>, steps: seq<Step>)

  ghost function Last(log: Log): System
    requires |log.run| > 0
  {
    log.run[|log.run| - 1]
  }

  ghost predicate IsLog(log: Log) {
    IsRun(log.run, log.steps)
  }

  ghost predicate Sound(log: Option<Log>) {
    log.Some? ==> IsLog(log.value)
  }

  /** The log records how the store's actions came to be what they are. */
  ghost predicate Records(log: Option<Log>, actions: Actions, allowSelf: bool) {
    Sound(log) && (log.Some? ==> Last(log.value).actions == actions && Last(log.value).config.allowSelf == allowSelf)
  }

  ghost function Recorded(log: Option<Log>, step: Step): (r: Option<Log>)
    requires Sound(log)
    ensures Sound(r)
    ensures r.Some? ==> log.Some? && Enabled(Last(log.value), step) && Last(r.value) == Apply(Last(log.value), step)
  {
    if log.Some? && Enabled(Last(log.value), step) then
      Some(Log(log.value.run + [Apply(Last(log.value), step)], log.value.steps + [step]))
    else None
  }

  ghost function LogCreate(log: Option<Log>, a: ResponseAction, uuid: string, now: nat): (r: Option<Log>)
    requires Sound(log)
    ensures Sound(r)
  {
    if a == Request(a.hostID, a.requestedBy) then Recorded(log, Create(a.hostID, a.requestedBy, uuid, now)) else None
  }

  /** Time goes on to the claim's stamp at least. */
  ghost function LogClaim(log: Option<Log>, w: string, id: string, now: nat, lease: nat): (r: Option<Log>)
    requires Sound(log)
    ensures Sound(r)
  {
    if log.Some? && lease == Last(log.value).config.lease then
      var clock := Last(log.value).clock;
      Recorded(Recorded(log, Tick(if now > clock then now else clock)), Claim(w, id, now))
    else None
  }

  ghost function LogReport(log: Option<Log>, id: string, w: string, succeeded: bool, text: string, now: nat)
      : (r: Option<Log>)
    requires Sound(log)
    ensures Sound(r)
  {
    if log.Some? && PhaseOf(Last(log.value), w) == Done(id) then Recorded(log, Report(w, succeeded, text, now))
      else None
  }

  lemma CreateIsRecorded(log: Option<Log>, actions: Actions, allowSelf: bool, a: ResponseAction, uuid: string, now: nat)
    requires Records(log, actions, allowSelf)
    ensures Records(LogCreate(log, a, uuid, now), actions[Defaulted(a, uuid, now).id := Defaulted(a, uuid, now)],
                    allowSelf)
  {
  }

  lemma ApproveIsRecorded(log: Option<Log>, actions: Actions, allowSelf: bool, id: string, approver: string, now: nat)
    requires Records(log, actions, allowSelf)
    ensures Records(Recorded(log, Approve(id, approver, now)),
                    if IsPending(actions, id) && MayApprove(actions[id], approver, allowSelf)
                    then actions[id := ApprovedBy(actions[id], approver, now)] else actions, allowSelf)
  {
  }

  lemma RejectIsRecorded(log: Option<Log>, actions: Actions, allowSelf: bool, id: string, rejector: string,
                         reason: string, now: nat)
    requires Records(log, actions, allowSelf)
    ensures Records(Recorded(log, Reject(id, rejector, reason, now)),
                    if IsPending(actions, id) then actions[id := RejectedBy(actions[id], rejector, reason, now)]
                      else actions, allowSelf)
  {
  }

  lemma ClaimIsRecorded(log: Option<Log>, actions: Actions, allowSelf: bool, w: string, id: string, now: nat,
                        lease: nat)
    requires Records(log, actions, allowSelf) && id in actions
    ensures Records(LogClaim(log, w, id, now, lease), actions[id := Claimed(actions[id], w, now, lease)], allowSelf)
  {
  }

  lemma RenewIsRecorded(log: Option<Log>, actions: Actions, allowSelf: bool, id: string, w: string, until: nat,
                        now: nat)
    requires Records(log, actions, allowSelf)
    ensures Records(Recorded(log, Renew(w, id, until, now)),
                    if Owned(actions, id, w) then actions[id := Renewed(actions[id], until, now)]
                      else actions, allowSelf)
  {
  }

  lemma ReportIsRecorded(log: Option<Log>, actions: Actions, allowSelf: bool, id: string, w: string, succeeded: bool,
                         text: string, now: nat)
    requires Records(log, actions, allowSelf)
    ensures Records(LogReport(log, id, w, succeeded, text, now),
                    if !Owned(actions, id, w) then actions
                    else actions[id := if succeeded then Completed(actions[id], text, now)
                                 else FailedWith(actions[id], text, now)], allowSelf)
  {
  }

  /** What workers and the clock do away from the store. */
  lemma WorkerIsRecorded(log: Option<Log>, actions: Actions, allowSelf: bool, step: Step)
    requires Records(log, actions, allowSelf) && (step.Begin? || step.Stop? || step.Crash? || step.Tick?)
    ensures Records(Recorded(log, step), actions, allowSelf)
  {
  }

  /** Two-person control of whatever a store with a history holds. */
  lemma LoggedControl(log: Log, actions: Actions, allowSelf: bool, id: string)
    requires Records(Some(log), actions, allowSelf) && id in actions
    ensures actions[id].startedAt.Some? || actions[id].status == Approved ==> Authorised(actions[id], allowSelf)
    ensures actions[id].status == Rejected ==> actions[id].startedAt.None?
  {
    var k := |log.run| - 1;
    RunKeepsInv(log.run, log.steps, k);
    TwoPersonControl(log.run, log.steps, k, id);
  }

  /** Whoever a store with a history takes for the owner made the latest claim. */
  lemma OwnerClaimedLast(log: Log, actions: Actions, allowSelf: bool, id: string, w: string)
    requires Records(Some(log), actions, allowSelf) && Owned(actions, id, w)
    ensures MadeLatestClaim(Last(log), id, w)
  {
    AcceptedMeansUncontested(log.run, log.steps, |log.run| - 1, id, w);
  }

  /** A free worker's claim with the configured lease keeps to the protocol. */
  lemma ClaimBeginsWork(log: Option<Log>, actions: Actions, allowSelf: bool, w: string, id: string, now: nat,
                        lease: nat)
    requires Records(log, actions, allowSelf) && log.Some? && PhaseOf(Last(log.value), w).Idle? && w != ""
    requires Last(log.value).config.lease == lease && OldestClaimable(actions, id, now)
    ensures LogClaim(log, w, id, now, lease).Some?
            && PhaseOf(Last(LogClaim(log, w, id, now, lease).value), w) == Taken(id, now)
  {
  }
}
