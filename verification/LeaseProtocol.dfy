/** The lease protocol that scan jobs and export deliveries share: records claimed, renewed, completed,
    failed and reclaimed by workers that run at the same time, crash, and trust their own clocks. */
module LeaseProtocol {
  import opened Wrappers

  datatype ItemState = Waiting | Held | Succeeded | Failed

  /** What the protocol sees of a queue record. */
  datatype Item = Item(state: ItemState, owner: string, lease: Option<nat>, attempts: nat, max: nat)

  // ---------------------------------------------------------------- store operations on one record

  /** Waiting, or held under a lease that has run out. (A queue may hold back waiting items longer.) */
  predicate Claimable(i: Item, now: nat) {
    i.state == Waiting || (i.state == Held && i.lease.Some? && i.lease.value <= now)
  }

  function Take(i: Item, w: string, until: nat): Item {
    i.(state := Held, owner := w, lease := Some(until), attempts := i.attempts + 1)
  }

  predicate Owns(i: Item, w: string) {
    i.state == Held && i.owner == w
  }

  function Renew(i: Item, until: nat): Item {
    i.(lease := Some(until))
  }

  function Succeed(i: Item): Item {
    i.(state := Succeeded, owner := "", lease := None)
  }

  function GiveBack(i: Item, terminal: bool): Item {
    i.(state := if terminal then Failed else Waiting, owner := "", lease := None)
  }

  /** An operator sends a failed item round again. */
  function Reopen(i: Item): Item {
    i.(state := Waiting, attempts := 0)
  }

  function All<V>(ids: set<string>, v: V): map<string, V> {
    map id | id in ids :: v
  }

  lemma AddingOne<V>(m: map<string, V>, id: string, v: V)
    ensures m + All({id}, v) == m[id := v]
  {
  }

  const NO_CLAIMS: seq<string> := []

  function NewItem(max: nat): Item {
    Item(Waiting, "", None, 0, max)
  }

  // ---------------------------------------------------------------- workers

  /** A worker runs one claim at a time. epoch is the number of claims of the item before its own;
      validated, once an ownership renewal was accepted, how many there were then. */
  datatype Phase =
    | Idle
    | Busy(id: string, epoch: nat, attempts: nat, max: nat, validated: Option<nat>)
    | Crashed

  /** One result stored by a worker, with the claim it was computed under. */
  datatype Ingest = Ingest(id: string, worker: string, epoch: nat, validated: nat)

  /** claims, completions and ingests are history: who claimed each item, in order; how many completions
      of it were accepted; which results were stored. */
  datatype System = System(
    items: map<string, Item>, workers: map<string, Phase>,
    claims: map<string, seq<string>>, completions: map<string, nat>, ingests: seq<Ingest>)

  datatype Step =
    | Create(ids: set<string>, max: nat)
    | Claim(w: string, id: string, now: nat, until: nat)
    | Heartbeat(w: string, id: string, until: nat)
    | Validate(w: string, until: nat)
    | Store(w: string)
    | Complete(w: string)
    | Fail(w: string, permanent: bool)
    | Crash(w: string)
    | Retry(id: string)
    | Delete(ids: set<string>)
    | Stutter

  function PhaseOf(s: System, w: string): Phase {
    if w in s.workers then s.workers[w] else Idle
  }

  predicate Holds(s: System, w: string) {
    PhaseOf(s, w).Busy? && PhaseOf(s, w).id in s.items && Owns(s.items[PhaseOf(s, w).id], w)
  }

  predicate Enabled(s: System, step: Step) {
    match step
    case Create(ids, max) => ids !! s.claims.Keys && max > 0
    case Claim(w, id, now, _) =>
      w != "" && PhaseOf(s, w).Idle? && id in s.items && id in s.claims && Claimable(s.items[id], now)
    case Heartbeat(_, _, _) => true
    case Validate(w, _) => PhaseOf(s, w).Busy? && PhaseOf(s, w).id in s.claims
    case Store(w) => PhaseOf(s, w).Busy? && PhaseOf(s, w).validated.Some?
    case Complete(w) => PhaseOf(s, w).Busy? && PhaseOf(s, w).id in s.completions
    case Fail(w, _) => PhaseOf(s, w).Busy?
    case Crash(w) => PhaseOf(s, w).Busy? || PhaseOf(s, w).Idle?
    case Retry(id) => id in s.items && s.items[id].state == Failed
    case Delete(_) => true
    case Stutter => true
  }

  /** The worker's decision whether a failure is final. */
  predicate Terminal(p: Phase, permanent: bool)
    requires p.Busy?
  {
    p.attempts >= p.max || permanent
  }

  function Apply(s: System, step: Step): System
    requires Enabled(s, step)
  {
    match step
    case Create(ids, max) =>
      s.(items := s.items + All(ids, NewItem(max)), claims := s.claims + All(ids, NO_CLAIMS),
         completions := s.completions + All(ids, 0))
    case Claim(w, id, now, until) =>
      var taken := Take(s.items[id], w, until);
      s.(items := s.items[id := taken],
         workers := s.workers[w := Busy(id, |s.claims[id]|, taken.attempts, taken.max, None)],
         claims := s.claims[id := s.claims[id] + [w]])
    case Heartbeat(w, id, until) =>
      if id in s.items && Owns(s.items[id], w) then s.(items := s.items[id := Renew(s.items[id], until)]) else s
    case Validate(w, until) =>
      var p := PhaseOf(s, w);
      if Holds(s, w) then
        s.(items := s.items[p.id := Renew(s.items[p.id], until)],
           workers := s.workers[w := p.(validated := Some(|s.claims[p.id]|))])
      else s
    case Store(w) =>
      var p := PhaseOf(s, w);
      s.(ingests := s.ingests + [Ingest(p.id, w, p.epoch, p.validated.value)])
    case Complete(w) =>
      var p := PhaseOf(s, w);
      var idle := s.(workers := s.workers[w := Idle]);
      if Holds(s, w) then
        idle.(items := s.items[p.id := Succeed(s.items[p.id])],
              completions := s.completions[p.id := s.completions[p.id] + 1])
      else idle
    case Fail(w, permanent) =>
      var p := PhaseOf(s, w);
      var idle := s.(workers := s.workers[w := Idle]);
      if Holds(s, w) then idle.(items := s.items[p.id := GiveBack(s.items[p.id], Terminal(p, permanent))]) else idle
    case Crash(w) => s.(workers := s.workers[w := Crashed])
    case Retry(id) => s.(items := s.items[id := Reopen(s.items[id])])
    case Delete(ids) => s.(items := s.items - ids)
    case Stutter => s
  }

  const INITIAL := System(map[], map[], map[], map[], [])

  // ---------------------------------------------------------------- the invariant

  ghost predicate ItemOK(i: Item, claimed: seq<string>, completed: nat) {
    && (i.state == Held <==> i.owner != "")
    && (i.state == Held <==> i.lease.Some?)
    && (i.state == Held ==> claimed != [] && claimed[|claimed| - 1] == i.owner)
    && (i.state == Waiting ==> i.attempts < i.max)
    && i.max > 0
    && completed == if i.state == Succeeded then 1 else 0
  }

  /** w's claim is number p.epoch, w has not claimed the item again, and as long as nobody has, w's
      copy of the counters is right. */
  ghost predicate PhaseOK(w: string, p: Phase, items: map<string, Item>, claims: map<string, seq<string>>) {
    p.Busy? ==>
      && w != "" && p.id in claims && p.epoch < |claims[p.id]| && claims[p.id][p.epoch] == w
      && (forall k :: p.epoch < k < |claims[p.id]| ==> claims[p.id][k] != w)
      && (p.id in items && items[p.id].state == Held && p.epoch == |claims[p.id]| - 1 ==>
            items[p.id].attempts == p.attempts && items[p.id].max == p.max)
      && (p.validated.Some? ==> p.validated.value == p.epoch + 1)
  }

  ghost predicate Inv(s: System) {
    && s.items.Keys <= s.claims.Keys && s.claims.Keys == s.completions.Keys
    && (forall id :: id in s.items ==> ItemOK(s.items[id], s.claims[id], s.completions[id]))
    && (forall id :: id in s.completions ==> s.completions[id] <= 1)
    && (forall w :: w in s.workers ==> PhaseOK(w, s.workers[w], s.items, s.claims))
    && (forall k :: 0 <= k < |s.ingests| ==> s.ingests[k].validated == s.ingests[k].epoch + 1)
  }

  /** A worker the store still lists as owner made the latest claim. */
  lemma OwnerMadeLatestClaim(s: System, w: string)
    requires Inv(s) && Holds(s, w)
    ensures var p := PhaseOf(s, w);
            && p.epoch == |s.claims[p.id]| - 1
            && s.items[p.id].attempts == p.attempts && s.items[p.id].max == p.max
  {
    var p := PhaseOf(s, w);
    assert PhaseOK(w, p, s.items, s.claims);
    assert ItemOK(s.items[p.id], s.claims[p.id], s.completions[p.id]);
  }

  lemma ClaimKeepsInv(s: System, w: string, id: string, now: nat, until: nat)
    requires Inv(s) && Enabled(s, Claim(w, id, now, until))
    ensures Inv(Apply(s, Claim(w, id, now, until)))
  {
    var s' := Apply(s, Claim(w, id, now, until));
    forall v | v in s'.workers
      ensures PhaseOK(v, s'.workers[v], s'.items, s'.claims)
    {
      if v != w {
        assert PhaseOK(v, s.workers[v], s.items, s.claims);
      }
    }
  }

  /** A change to one item that does not touch its counters while it is held leaves the workers right. */
  lemma UpdateKeepsPhases(s: System, id: string, i: Item)
    requires Inv(s) && id in s.items
    requires i.state == Held ==>
               s.items[id].state == Held && i.attempts == s.items[id].attempts && i.max == s.items[id].max
    ensures forall w :: w in s.workers ==> PhaseOK(w, s.workers[w], s.items[id := i], s.claims)
  {
    forall w | w in s.workers
      ensures PhaseOK(w, s.workers[w], s.items[id := i], s.claims)
    {
      assert PhaseOK(w, s.workers[w], s.items, s.claims);
    }
  }

  lemma HeartbeatKeepsInv(s: System, step: Step)
    requires Inv(s) && Enabled(s, step) && step.Heartbeat?
    ensures Inv(Apply(s, step))
  {
    if step.id in s.items && Owns(s.items[step.id], step.w) {
      UpdateKeepsPhases(s, step.id, Renew(s.items[step.id], step.until));
    }
  }

  lemma ValidateKeepsInv(s: System, step: Step)
    requires Inv(s) && Enabled(s, step) && step.Validate?
    ensures Inv(Apply(s, step))
  {
    if Holds(s, step.w) {
      OwnerMadeLatestClaim(s, step.w);
      var id := PhaseOf(s, step.w).id;
      UpdateKeepsPhases(s, id, Renew(s.items[id], step.until));
    }
  }

  lemma CompleteKeepsInv(s: System, step: Step)
    requires Inv(s) && Enabled(s, step) && step.Complete?
    ensures Inv(Apply(s, step))
  {
    if Holds(s, step.w) {
      OwnerMadeLatestClaim(s, step.w);
      var id := PhaseOf(s, step.w).id;
      UpdateKeepsPhases(s, id, Succeed(s.items[id]));
    }
  }

  lemma FailKeepsInv(s: System, step: Step)
    requires Inv(s) && Enabled(s, step) && step.Fail?
    ensures Inv(Apply(s, step))
  {
    if Holds(s, step.w) {
      OwnerMadeLatestClaim(s, step.w);
      var p := PhaseOf(s, step.w);
      UpdateKeepsPhases(s, p.id, GiveBack(s.items[p.id], Terminal(p, step.permanent)));
    }
  }

  lemma CreateKeepsInv(s: System, step: Step)
    requires Inv(s) && Enabled(s, step) && step.Create?
    ensures Inv(Apply(s, step))
  {
    var s' := Apply(s, step);
    forall w | w in s'.workers
      ensures PhaseOK(w, s'.workers[w], s'.items, s'.claims)
    {
      assert PhaseOK(w, s.workers[w], s.items, s.claims);
    }
  }

  lemma RemovalKeepsInv(s: System, step: Step)
    requires Inv(s) && Enabled(s, step) && (step.Delete? || step.Crash?)
    ensures Inv(Apply(s, step))
  {
    var s' := Apply(s, step);
    forall w | w in s'.workers
      ensures PhaseOK(w, s'.workers[w], s'.items, s'.claims)
    {
      if w in s.workers { assert PhaseOK(w, s.workers[w], s.items, s.claims); }
    }
  }

  lemma RetryKeepsInv(s: System, step: Step)
    requires Inv(s) && Enabled(s, step) && step.Retry?
    ensures Inv(Apply(s, step))
  {
    UpdateKeepsPhases(s, step.id, Reopen(s.items[step.id]));
  }

  lemma StoreKeepsInv(s: System, step: Step)
    requires Inv(s) && Enabled(s, step) && step.Store?
    ensures Inv(Apply(s, step))
  {
    assert PhaseOK(step.w, s.workers[step.w], s.items, s.claims);
  }

  /** Every step of every worker, crash and operator keeps the invariant. */
  lemma StepKeepsInv(s: System, step: Step)
    requires Inv(s) && Enabled(s, step)
    ensures Inv(Apply(s, step))
  {
    match step
    case Claim(w, id, now, until) => ClaimKeepsInv(s, w, id, now, until);
    case Heartbeat(_, _, _) => HeartbeatKeepsInv(s, step);
    case Validate(_, _) => ValidateKeepsInv(s, step);
    case Complete(_) => CompleteKeepsInv(s, step);
    case Fail(_, _) => FailKeepsInv(s, step);
    case Create(_, _) => CreateKeepsInv(s, step);
    case Store(_) => StoreKeepsInv(s, step);
    case Crash(_) => RemovalKeepsInv(s, step);
    case Retry(_) => RetryKeepsInv(s, step);
    case Delete(_) => RemovalKeepsInv(s, step);
    case Stutter =>
  }

  // ---------------------------------------------------------------- runs

  ghost predicate StepAt(run: seq<System>, steps: seq<Step>, k: nat)
    requires k < |steps| == |run| - 1
  {
    Enabled(run[k], steps[k]) && run[k + 1] == Apply(run[k], steps[k])
  }

  ghost predicate IsRun(run: seq<System>, steps: seq<Step>) {
    && |run| == |steps| + 1
    && run[0] == INITIAL
    && forall k :: 0 <= k < |steps| ==> StepAt(run, steps, k)
  }

  lemma {:induction false} RunKeepsInv(run: seq<System>, steps: seq<Step>, k: nat)
    requires IsRun(run, steps) && k < |run|
    ensures Inv(run[k])
  {
    if k == 0 {
    } else {
      RunKeepsInv(run, steps, k - 1);
      assert StepAt(run, steps, k - 1);
      StepKeepsInv(run[k - 1], steps[k - 1]);
    }
  }

  /** Fencing: whenever the store accepts a renewal, completion or failure from a worker, nobody has
      claimed the item since that worker did. */
  lemma AcceptedMeansUncontested(run: seq<System>, steps: seq<Step>, k: nat, w: string)
    requires IsRun(run, steps) && k < |run| && Holds(run[k], w)
    ensures var p := PhaseOf(run[k], w);
            p.id in run[k].claims && p.epoch == |run[k].claims[p.id]| - 1 && run[k].claims[p.id][p.epoch] == w
  {
    RunKeepsInv(run, steps, k);
    OwnerMadeLatestClaim(run[k], w);
    assert PhaseOK(w, PhaseOf(run[k], w), run[k].items, run[k].claims);
  }

  /** Fencing, for any call the store accepts from the owner of record: the owner made the latest claim. */
  lemma OwnerClaimedLast(s: System, id: string, w: string)
    requires Inv(s) && id in s.items && Owns(s.items[id], w)
    ensures id in s.claims && s.claims[id] != [] && s.claims[id][|s.claims[id]| - 1] == w
  {
    assert ItemOK(s.items[id], s.claims[id], s.completions[id]);
  }

  /** A result is only ever stored after a renewal that found the worker's claim to be the latest. */
  lemma StoredMeansValidated(run: seq<System>, steps: seq<Step>, k: nat, n: nat)
    requires IsRun(run, steps) && k < |run| && n < |run[k].ingests|
    ensures run[k].ingests[n].validated == run[k].ingests[n].epoch + 1
  {
    RunKeepsInv(run, steps, k);
  }

  /** No item is ever completed twice. */
  lemma AtMostOneCompletion(run: seq<System>, steps: seq<Step>, k: nat, id: string)
    requires IsRun(run, steps) && k < |run| && id in run[k].completions
    ensures run[k].completions[id] <= 1
    ensures id in run[k].items ==> (run[k].completions[id] == 1 <==> run[k].items[id].state == Succeeded)
  {
    RunKeepsInv(run, steps, k);
  }

  /** An item waits only while it has attempts left, and has an owner and a lease exactly while held. */
  lemma WaitingHasAttemptsLeft(run: seq<System>, steps: seq<Step>, k: nat, id: string)
    requires IsRun(run, steps) && k < |run| && id in run[k].items
    ensures var i := run[k].items[id];
            && (i.state == Waiting ==> i.attempts < i.max)
            && (i.state == Held <==> i.owner != "") && (i.state == Held <==> i.lease.Some?)
  {
    RunKeepsInv(run, steps, k);
    assert ItemOK(run[k].items[id], run[k].claims[id], run[k].completions[id]);
  }

  lemma SettledStep(s: System, step: Step, s': System, id: string)
    requires Inv(s) && Enabled(s, step) && s' == Apply(s, step) && id in s.items && id in s'.items
    requires s.items[id].state == Succeeded || (s.items[id].state == Failed && step != Retry(id))
    ensures s'.items[id] == s.items[id]
  {
    assert ItemOK(s.items[id], s.claims[id], s.completions[id]);
  }

  lemma RunStep(run: seq<System>, steps: seq<Step>, j: nat)
    requires IsRun(run, steps) && 0 < j < |run|
    ensures Inv(run[j - 1]) && Enabled(run[j - 1], steps[j - 1]) && run[j] == Apply(run[j - 1], steps[j - 1])
  {
    RunKeepsInv(run, steps, j - 1);
    assert StepAt(run, steps, j - 1);
  }

  lemma IdStays(s: System, step: Step, s': System, id: string)
    requires Enabled(s, step) && s' == Apply(s, step) && id in s.claims
    ensures id in s'.claims && (id !in s.items ==> id !in s'.items)
  {
  }

  lemma IdStaysInRun(run: seq<System>, steps: seq<Step>, j: nat, id: string)
    requires IsRun(run, steps) && 0 < j < |run| && id in run[j - 1].claims
    ensures id in run[j].claims && (id !in run[j - 1].items ==> id !in run[j].items)
  {
    RunStep(run, steps, j);
    IdStays(run[j - 1], steps[j - 1], run[j], id);
  }

  /** Ids in the history never leave it, so a deleted item never comes back. */
  lemma {:induction false} HistoryGrows(run: seq<System>, steps: seq<Step>, i: nat, j: nat, id: string)
    requires IsRun(run, steps) && i <= j < |run| && id in run[i].claims
    ensures id in run[j].claims
    ensures id !in run[i].items ==> id !in run[j].items
  {
    if i == j {
    } else {
      HistoryGrows(run, steps, i, j - 1, id);
      IdStaysInRun(run, steps, j, id);
    }
  }

  lemma StillThere(run: seq<System>, steps: seq<Step>, i: nat, j: nat, id: string)
    requires IsRun(run, steps) && i < j < |run| && id in run[i].items && id in run[j].items
    ensures id in run[j - 1].items
  {
    RunKeepsInv(run, steps, i);
    HistoryGrows(run, steps, i, j - 1, id);
    IdStaysInRun(run, steps, j, id);
  }

  ghost predicate NeverRetried(steps: seq<Step>, i: nat, j: nat, id: string)
    requires i <= j <= |steps|
  {
    forall k :: i <= k < j ==> steps[k] != Retry(id)
  }

  /** Success is final; so is failure, unless an operator retries the item. */
  lemma {:induction false} SettledIsFinal(run: seq<System>, steps: seq<Step>, i: nat, j: nat, id: string)
    requires IsRun(run, steps) && i <= j < |run| && id in run[i].items && id in run[j].items
    requires run[i].items[id].state == Succeeded || (run[i].items[id].state == Failed && NeverRetried(steps, i, j, id))
    ensures run[j].items[id] == run[i].items[id]
  {
    if i == j {
    } else {
      StillThere(run, steps, i, j, id);
      assert NeverRetried(steps, i, j, id) ==> NeverRetried(steps, i, j - 1, id) && steps[j - 1] != Retry(id);
      SettledIsFinal(run, steps, i, j - 1, id);
      RunStep(run, steps, j);
      SettledStep(run[j - 1], steps[j - 1], run[j], id);
    }
  }

  // ---------------------------------------------------------------- the same without the history

  /** w claims the item at step c, and neither claims again nor sees anybody else claim the item before step k. */
  ghost predicate LatestClaim(steps: seq<Step>, c: nat, k: nat, w: string, id: string)
    requires k <= |steps|
  {
    && c < k && steps[c].Claim? && steps[c].w == w && steps[c].id == id
    && forall j :: c < j < k && steps[j].Claim? ==> steps[j].w != w && steps[j].id != id
  }

  /** A busy worker stands where its last claim put it. */
  lemma {:induction false} BusySince(run: seq<System>, steps: seq<Step>, k: nat, w: string) returns (c: nat)
    requires IsRun(run, steps) && k < |run| && PhaseOf(run[k], w).Busy?
    ensures c < k && steps[c].Claim? && steps[c].w == w && steps[c].id == PhaseOf(run[k], w).id
    ensures forall j :: c < j < k && steps[j].Claim? ==> steps[j].w != w
    ensures steps[c].id in run[c + 1].claims
            && |run[c + 1].claims[steps[c].id]| == PhaseOf(run[k], w).epoch + 1
  {
    RunStep(run, steps, k);
    if steps[k - 1].Claim? && steps[k - 1].w == w {
      c := k - 1;
    } else {
      c := BusySince(run, steps, k - 1, w);
    }
  }

  lemma {:induction false} CountsGrow(run: seq<System>, steps: seq<Step>, i: nat, k: nat, id: string)
    requires IsRun(run, steps) && i <= k < |run| && id in run[i].claims
    ensures id in run[k].claims && |run[i].claims[id]| <= |run[k].claims[id]|
    ensures id in run[i].completions && id in run[k].completions && run[i].completions[id] <= run[k].completions[id]
  {
    RunKeepsInv(run, steps, i);
    if i < k {
      CountsGrow(run, steps, i, k - 1, id);
      RunStep(run, steps, k);
    }
  }

  /** Whenever the store accepts a call from a worker, nobody has claimed the item since that worker did. */
  lemma HeldSince(run: seq<System>, steps: seq<Step>, k: nat, w: string) returns (c: nat)
    requires IsRun(run, steps) && k < |run| && Holds(run[k], w)
    ensures LatestClaim(steps, c, k, w, PhaseOf(run[k], w).id)
  {
    var id := PhaseOf(run[k], w).id;
    c := BusySince(run, steps, k, w);
    RunKeepsInv(run, steps, k);
    OwnerMadeLatestClaim(run[k], w);
    forall j | c < j < k && steps[j].Claim?
      ensures steps[j].id != id
    {
      if steps[j].id == id {
        CountsGrow(run, steps, c + 1, j, id);
        RunStep(run, steps, j + 1);
        CountsGrow(run, steps, j + 1, k, id);
      }
    }
  }

  /** The renewal that let a worker store its result. */
  lemma {:induction false} CheckedAt(run: seq<System>, steps: seq<Step>, k: nat, w: string) returns (v: nat)
    requires IsRun(run, steps) && k < |run| && PhaseOf(run[k], w).Busy? && PhaseOf(run[k], w).validated.Some?
    ensures v < k && steps[v].Validate? && steps[v].w == w && Holds(run[v], w)
            && PhaseOf(run[v], w).id == PhaseOf(run[k], w).id
    ensures forall j :: v < j < k && steps[j].Claim? ==> steps[j].w != w
  {
    RunStep(run, steps, k);
    if steps[k - 1].Validate? && steps[k - 1].w == w && Holds(run[k - 1], w) {
      v := k - 1;
    } else {
      v := CheckedAt(run, steps, k - 1, w);
    }
  }

  /** A worker that stores a result has claimed the item, and renewed its claim before anybody else claimed it. */
  lemma StoredAfterCheck(run: seq<System>, steps: seq<Step>, k: nat) returns (c: nat, v: nat)
    requires IsRun(run, steps) && k < |steps| && steps[k].Store?
    ensures v < k && steps[v].Validate? && steps[v].w == steps[k].w && PhaseOf(run[k], steps[k].w).Busy?
    ensures LatestClaim(steps, c, v, steps[k].w, PhaseOf(run[k], steps[k].w).id)
    ensures forall j :: v < j < k && steps[j].Claim? ==> steps[j].w != steps[k].w
  {
    assert StepAt(run, steps, k);
    v := CheckedAt(run, steps, k, steps[k].w);
    c := HeldSince(run, steps, v, steps[k].w);
  }

  /** No two completions of an item are both accepted. */
  lemma CompletedOnce(run: seq<System>, steps: seq<Step>, i: nat, j: nat)
    requires IsRun(run, steps) && i < j < |steps| && steps[i].Complete? && steps[j].Complete?
    requires Holds(run[i], steps[i].w) && Holds(run[j], steps[j].w)
    ensures PhaseOf(run[i], steps[i].w).id != PhaseOf(run[j], steps[j].w).id
  {
    var id := PhaseOf(run[j], steps[j].w).id;
    RunKeepsInv(run, steps, j);
    assert ItemOK(run[j].items[id], run[j].claims[id], run[j].completions[id]);
    if PhaseOf(run[i], steps[i].w).id == id {
      RunStep(run, steps, i + 1);
      CountsGrow(run, steps, i + 1, j, id);
    }
  }
}
