/** Observations: detection records deduplicated by (host, dedup key), reopened, archived and exported
    (internal/store/memory.go, internal/store/store.go, internal/store/disposition.go). */
module Observations {
  import opened Sequences
  import opened Wrappers

  /** Unset stands for the empty string a caller may leave in a field that has a default. */
  datatype Status = Unset | Open | Acknowledged | FalsePositive | Resolved
  datatype Verdict = NoVerdict | Unknown | TruePositive | FalseAlarm

  datatype Observation = Observation(
    id: string, hostID: string, scanID: string, source: string, ruleID: string, severity: string, score: int,
    evidence: string, dedupKey: string, status: Status, verdict: Verdict, firstSeen: nat, lastSeen: nat, count: nat)

  datatype ScanStatus = ScanRunning | ScanOK | ScanPartial | ScanFailed
  datatype Scan = Scan(hostID: string, status: ScanStatus, startedAt: nat)

  datatype AuditEvent = AuditEvent(id: string, time: nat, action: string)

  datatype Payload = OfObservation(observation: Observation) | OfScan(scan: Scan) | OfAudit(event: AuditEvent)
  datatype ArchivedRecord = ArchivedRecord(originalID: string, archivedAt: nat, payload: Payload)

  type Table = map<string, Observation>
  type Index = map<string, map<string, string>>
  type Scans = map<string, Scan>

  // ---------------------------------------------------------------- the dedup index

  predicate Listed(index: Index, host: string, key: string) {
    host in index && key in index[host]
  }

  function ListedID(index: Index, host: string, key: string): string
    requires Listed(index, host, key)
  {
    index[host][key]
  }

  predicate Points(index: Index, host: string, key: string, id: string) {
    Listed(index, host, key) && ListedID(index, host, key) == id
  }

  function WithEntry(index: Index, host: string, key: string, id: string): Index {
    index[host := (if host in index then index[host] else map[])[key := id]]
  }

  function WithoutEntry(index: Index, host: string, key: string): Index {
    if host in index then index[host := index[host] - {key}] else index
  }

  predicate Carries(obs: Table, id: string, host: string, key: string) {
    id in obs && obs[id].hostID == host && obs[id].dedupKey == key
  }

  /** Looking up a pair in the index gives the same answer as searching the observations. */
  ghost predicate IndexAgrees(obs: Table, index: Index) {
    forall host, key, id :: Points(index, host, key, id) <==> Carries(obs, id, host, key)
  }

  /** Every observation is stored under its own non-empty id, with the time it was last seen. */
  ghost predicate WellKeyed(obs: Table) {
    forall id :: id in obs ==> obs[id].id == id && id != "" && obs[id].lastSeen != 0
  }

  predicate SamePair(o: Observation, p: Observation) {
    o.hostID == p.hostID && o.dedupKey == p.dedupKey
  }

  ghost predicate NoSharedPairs(obs: Table) {
    forall a, b :: a in obs && b in obs && SamePair(obs[a], obs[b]) ==> a == b
  }

  lemma NoTwoShareAPair(obs: Table, index: Index, a: string, b: string)
    requires IndexAgrees(obs, index) && a in obs && b in obs && SamePair(obs[a], obs[b])
    ensures a == b
  {
    assert Carries(obs, a, obs[a].hostID, obs[a].dedupKey) && Carries(obs, b, obs[a].hostID, obs[a].dedupKey);
  }

  // ---------------------------------------------------------------- reopening

  predicate Closed(status: Status) {
    status == FalsePositive || status == Resolved
  }

  /** The window condition; now may lie before lastSeen when the clock was set back. */
  predicate Reopens(status: Status, lastSeen: nat, now: nat, window: int) {
    window > 0 && Closed(status) && now - lastSeen >= window
  }

  predicate Completed(scan: Scan) {
    scan.status == ScanOK || scan.status == ScanPartial
  }

  predicate Compared(scans: Scans, sid: string, host: string, current: string) {
    sid in scans && scans[sid].hostID == host && sid != current && Completed(scans[sid])
  }

  /** Some completed scan of the host other than the current one started after the finding was last seen. */
  predicate Absent(scans: Scans, lastSeen: nat, host: string, current: string) {
    exists sid :: sid in scans && Compared(scans, sid, host, current) && lastSeen < scans[sid].startedAt
  }

  /** The loop that takes the latest start answers that question. */
  method AbsentFromPreviousScan(scans: Scans, lastSeen: nat, host: string, current: string) returns (absent: bool)
    ensures absent <==> Absent(scans, lastSeen, host, current)
  {
    var prev := 0;
    var rest := scans.Keys;
    while rest != {}
      invariant rest <= scans.Keys
      invariant forall sid :: sid in scans && sid !in rest && Compared(scans, sid, host, current) ==>
                  scans[sid].startedAt <= prev
      invariant prev > 0 ==>
                  exists sid :: sid in scans && sid !in rest && Compared(scans, sid, host, current)
                    && scans[sid].startedAt == prev
    {
      var sid :| sid in rest;
      rest := rest - {sid};
      if scans[sid].hostID == host && sid != current && Completed(scans[sid]) && scans[sid].startedAt > prev {
        prev := scans[sid].startedAt;
      }
    }
    absent := prev != 0 && lastSeen < prev;
  }

  // ---------------------------------------------------------------- upserts

  function Sighted(seen: Observation, o: Observation, now: nat, reopen: bool): Observation {
    seen.(status := if reopen then Open else seen.status, lastSeen := now, count := seen.count + 1, score := o.score,
          severity := o.severity, evidence := o.evidence, scanID := o.scanID)
  }

  function First(o: Observation, uuid: string, now: nat): Observation {
    o.(id := if o.id == "" then uuid else o.id, verdict := if o.verdict == NoVerdict then Unknown else o.verdict,
       firstSeen := if o.firstSeen == 0 then now else o.firstSeen, lastSeen := now, count := 1,
       status := if o.status == Unset then Open else o.status)
  }

  predicate Known(index: Index, o: Observation) {
    Listed(index, o.hostID, o.dedupKey)
  }

  function UpsertedID(index: Index, o: Observation, uuid: string): string {
    if Known(index, o) then ListedID(index, o.hostID, o.dedupKey) else if o.id == "" then uuid else o.id
  }

  predicate ReopensNow(obs: Table, scans: Scans, id: string, o: Observation, now: nat, window: int)
    requires id in obs
  {
    Reopens(obs[id].status, obs[id].lastSeen, now, window) && Absent(scans, obs[id].lastSeen, o.hostID, o.scanID)
  }

  function UpsertedTable(obs: Table, index: Index, scans: Scans, o: Observation, uuid: string, now: nat, window: int)
      : Table
    requires Known(index, o) ==> ListedID(index, o.hostID, o.dedupKey) in obs
  {
    var id := UpsertedID(index, o, uuid);
    if Known(index, o) then obs[id := Sighted(obs[id], o, now, ReopensNow(obs, scans, id, o, now, window))]
    else obs[id := First(o, uuid, now)]
  }

  function UpsertedIndex(index: Index, o: Observation, uuid: string): Index {
    if Known(index, o) then index else WithEntry(index, o.hostID, o.dedupKey, UpsertedID(index, o, uuid))
  }

  /** A record replaced by one of the same pair. */
  lemma SamePairKeepsIndex(obs: Table, index: Index, id: string, o: Observation)
    requires IndexAgrees(obs, index) && Carries(obs, id, o.hostID, o.dedupKey)
    ensures IndexAgrees(obs[id := o], index)
  {
    var obs' := obs[id := o];
    forall host, key, other
      ensures Points(index, host, key, other) <==> Carries(obs', other, host, key)
    {
      assert Carries(obs', other, host, key) <==> Carries(obs, other, host, key);
    }
  }

  lemma NewPairKeepsIndex(obs: Table, index: Index, id: string, o: Observation)
    requires IndexAgrees(obs, index) && id !in obs && !Known(index, o)
    ensures IndexAgrees(obs[id := o], WithEntry(index, o.hostID, o.dedupKey, id))
  {
    var obs' := obs[id := o];
    var index' := WithEntry(index, o.hostID, o.dedupKey, id);
    forall host, key, other
      ensures Points(index', host, key, other) <==> Carries(obs', other, host, key)
    {
      assert Points(index, host, key, other) <==> Carries(obs, other, host, key);
      if host != o.hostID || key != o.dedupKey {
        assert Points(index', host, key, other) <==> Points(index, host, key, other);
      }
    }
  }

  /** Reusing a live id for a pair not seen before leaves the old pair pointing at the wrong record. */
  lemma OverwritingBreaksIndex(obs: Table, index: Index, id: string, o: Observation)
    requires IndexAgrees(obs, index) && id in obs && !Known(index, o)
    ensures !IndexAgrees(obs[id := o], WithEntry(index, o.hostID, o.dedupKey, id))
  {
    var host, key := obs[id].hostID, obs[id].dedupKey;
    assert Carries(obs, id, host, key) && Points(index, host, key, id);
    assert Points(WithEntry(index, o.hostID, o.dedupKey, id), host, key, id);
    assert !Carries(obs[id := o], id, host, key);
  }

  /** An upsert keeps the index equal to the search exactly when the pair is known or the id is new. */
  lemma UpsertKeepsIndexExactlyWhen(obs: Table, index: Index, scans: Scans, o: Observation, uuid: string, now: nat,
                                    window: int)
    requires IndexAgrees(obs, index)
    requires Known(index, o) ==> ListedID(index, o.hostID, o.dedupKey) in obs
    ensures IndexAgrees(UpsertedTable(obs, index, scans, o, uuid, now, window), UpsertedIndex(index, o, uuid))
            <==> Known(index, o) || UpsertedID(index, o, uuid) !in obs
  {
    var id := UpsertedID(index, o, uuid);
    if Known(index, o) {
      assert Points(index, o.hostID, o.dedupKey, id);
      SamePairKeepsIndex(obs, index, id, Sighted(obs[id], o, now, ReopensNow(obs, scans, id, o, now, window)));
    } else if id in obs {
      OverwritingBreaksIndex(obs, index, id, First(o, uuid, now));
    } else {
      NewPairKeepsIndex(obs, index, id, First(o, uuid, now));
    }
  }

  lemma KnownIsStored(obs: Table, index: Index, o: Observation)
    requires IndexAgrees(obs, index)
    ensures Known(index, o) ==> ListedID(index, o.hostID, o.dedupKey) in obs
    ensures Known(index, o) <==> exists id :: Carries(obs, id, o.hostID, o.dedupKey)
  {
    if Known(index, o) {
      assert Points(index, o.hostID, o.dedupKey, ListedID(index, o.hostID, o.dedupKey));
      assert Carries(obs, ListedID(index, o.hostID, o.dedupKey), o.hostID, o.dedupKey);
    } else {
      forall id
        ensures !Carries(obs, id, o.hostID, o.dedupKey)
      {
        assert !Points(index, o.hostID, o.dedupKey, id);
      }
    }
  }

  // ---------------------------------------------------------------- what an upsert stores

  /** Another completed scan of the host began after that time. */
  ghost predicate MissedSince(scans: Scans, host: string, current: string, lastSeen: nat) {
    exists sid :: && sid in scans && sid != current && scans[sid].hostID == host && lastSeen < scans[sid].startedAt
                  && (scans[sid].status == ScanOK || scans[sid].status == ScanPartial)
  }

  /** The finding comes back: it was closed, has gone unseen for the window, and a scan has missed it. */
  ghost predicate ComesBack(seen: Observation, o: Observation, scans: Scans, now: nat, window: int) {
    && (seen.status == FalsePositive || seen.status == Resolved)
    && window > 0 && now >= seen.lastSeen + window
    && MissedSince(scans, o.hostID, o.scanID, seen.lastSeen)
  }

  /** The record of a known pair: open again if the finding comes back, its details those of the latest
      detection, and whatever people and time have made of it kept. */
  ghost predicate SeenAgain(seen: Observation, o: Observation, scans: Scans, now: nat, window: int, r: Observation) {
    && r.status == (if ComesBack(seen, o, scans, now, window) then Open else seen.status)
    && r.score == o.score && r.severity == o.severity && r.evidence == o.evidence && r.scanID == o.scanID
    && r.lastSeen == now && r.count == seen.count + 1
    && r.id == seen.id && r.hostID == seen.hostID && r.dedupKey == seen.dedupKey && r.source == seen.source
    && r.ruleID == seen.ruleID && r.verdict == seen.verdict && r.firstSeen == seen.firstSeen
  }

  /** The record of a new pair: the detection's, with what it leaves out filled in. */
  ghost predicate SeenFirst(o: Observation, uuid: string, now: nat, r: Observation) {
    && r.id == (if o.id == "" then uuid else o.id) && r.count == 1 && r.lastSeen == now
    && r.firstSeen == (if o.firstSeen == 0 then now else o.firstSeen)
    && r.status == (if o.status == Unset then Open else o.status)
    && r.verdict == (if o.verdict == NoVerdict then Unknown else o.verdict)
    && r.hostID == o.hostID && r.dedupKey == o.dedupKey && r.source == o.source && r.ruleID == o.ruleID
    && r.scanID == o.scanID && r.score == o.score && r.severity == o.severity && r.evidence == o.evidence
  }

  /** obs' is obs after the upsert of o: the one record of its pair seen again, or a new one, under id. */
  ghost predicate Upserted(obs: Table, obs': Table, id: string, o: Observation, scans: Scans, uuid: string, now: nat,
                           window: int)
  {
    && id in obs' && (forall other :: other in obs && other != id ==> other in obs' && obs'[other] == obs[other])
    && (forall other :: other in obs' ==> other in obs || other == id)
    && (forall other :: Carries(obs, other, o.hostID, o.dedupKey) ==> other == id)
    && if Carries(obs, id, o.hostID, o.dedupKey) then SeenAgain(obs[id], o, scans, now, window, obs'[id])
       else id == (if o.id == "" then uuid else o.id) && SeenFirst(o, uuid, now, obs'[id])
  }

  /** With a right index, an upsert writes the one record of the detection's pair, or a new one, and no other. */
  lemma UpsertStores(obs: Table, index: Index, scans: Scans, o: Observation, uuid: string, now: nat, window: int)
    requires IndexAgrees(obs, index) && (Known(index, o) || UpsertedID(index, o, uuid) !in obs)
    requires Known(index, o) ==> ListedID(index, o.hostID, o.dedupKey) in obs
    ensures Upserted(obs, UpsertedTable(obs, index, scans, o, uuid, now, window), UpsertedID(index, o, uuid), o, scans,
                     uuid, now, window)
  {
    var id := UpsertedID(index, o, uuid);
    KnownIsStored(obs, index, o);
    forall other | Carries(obs, other, o.hostID, o.dedupKey)
      ensures other == id
    {
      assert Points(index, o.hostID, o.dedupKey, other);
    }
    if Known(index, o) {
      assert Points(index, o.hostID, o.dedupKey, id);
      AbsentMeansMissed(scans, obs[id].lastSeen, o.hostID, o.scanID);
    }
  }

  lemma AbsentMeansMissed(scans: Scans, lastSeen: nat, host: string, current: string)
    ensures Absent(scans, lastSeen, host, current) <==> MissedSince(scans, host, current, lastSeen)
  {
    if Absent(scans, lastSeen, host, current) {
      var sid :| sid in scans && Compared(scans, sid, host, current) && lastSeen < scans[sid].startedAt;
      assert scans[sid].status == ScanOK || scans[sid].status == ScanPartial;
    }
    if MissedSince(scans, host, current, lastSeen) {
      var sid :| && sid in scans && sid != current && scans[sid].hostID == host && lastSeen < scans[sid].startedAt
                 && (scans[sid].status == ScanOK || scans[sid].status == ScanPartial);
      assert Compared(scans, sid, host, current);
    }
  }

  // ---------------------------------------------------------------- operators

  /** What SetObservationStatus, SetObservationVerdict and ApplyObservationAction write. */
  function Assessed(o: Observation, status: Status, verdict: Verdict): Observation {
    o.(status := status, verdict := verdict)
  }

  datatype Action = TakeOwnership | ConfirmFinding | CloseFalsePositive | Resolve | CloseInconclusive | Reopen
      | Other(name: string)

  /** ObservationDisposition; NoVerdict preserves the assessment. */
  function Disposition(action: Action): Result<(Status, Verdict)> {
    match action
    case TakeOwnership => Ok((Acknowledged, NoVerdict))
    case ConfirmFinding => Ok((Acknowledged, TruePositive))
    case CloseFalsePositive => Ok((FalsePositive, FalseAlarm))
    case Resolve => Ok((Resolved, NoVerdict))
    case CloseInconclusive => Ok((Resolved, Unknown))
    case Reopen => Ok((Open, NoVerdict))
    case Other(_) => Refused(InvalidDisposition)
  }

  /** ApplyObservationAction on the record: resolving needs a confirmed finding. */
  function Acted(o: Observation, action: Action): Result<Observation> {
    match Disposition(action)
    case Refused(e) => Refused(e)
    case Ok(d) =>
      if action == Resolve && o.verdict != TruePositive then Refused(InvalidDisposition)
      else Ok(Assessed(o, d.0, if d.1 != NoVerdict then d.1 else o.verdict))
  }

  /** Which actions are accepted, and what they make of a finding: a false positive is always assessed as
      one, and a resolved finding is a confirmed one or is marked inconclusive. */
  lemma ActionsMean(o: Observation, action: Action)
    ensures var r := Acted(o, action);
            && (r.Ok? <==> !action.Other? && (action == Resolve ==> o.verdict == TruePositive))
            && (r.Refused? ==> r.error == InvalidDisposition)
            && (r.Ok? ==>
                  var a := r.value;
                  && a == o.(status := a.status, verdict := a.verdict)
                  && (a.status == Open <==> action == Reopen)
                  && (a.status == Acknowledged <==> action == TakeOwnership || action == ConfirmFinding)
                  && (a.status == FalsePositive <==> action == CloseFalsePositive)
                  && (a.status == Resolved <==> action == Resolve || action == CloseInconclusive)
                  && (action == ConfirmFinding ==> a.verdict == TruePositive)
                  && (action == CloseFalsePositive ==> a.verdict == FalseAlarm)
                  && (action == CloseInconclusive ==> a.verdict == Unknown)
                  && (action == TakeOwnership || action == Reopen || action == Resolve ==> a.verdict == o.verdict)
                  && (a.status == FalsePositive ==> a.verdict == FalseAlarm)
                  && (a.status == Resolved ==> a.verdict == TruePositive || a.verdict == Unknown))
  {
  }

  // ---------------------------------------------------------------- retention

  predicate Expired(o: Observation, age: nat, now: nat) {
    Closed(o.status) && o.lastSeen + age < now
  }

  function ExpiredIDs(obs: Table, age: nat, now: nat): set<string> {
    set id | id in obs && Expired(obs[id], age, now)
  }

  function ExpiredScans(scans: Scans, age: nat, now: nat): set<string> {
    set sid | sid in scans && scans[sid].startedAt + age < now
  }

  /** The order in which a loop over a map happens to visit the given keys. */
  ghost predicate IsListing(order: seq<string>, ids: set<string>) {
    && (forall k :: 0 <= k < |order| ==> order[k] in ids)
    && (forall id :: id in ids ==> id in order)
    && (forall j, k :: 0 <= j < k < |order| ==> order[j] != order[k])
  }

  lemma ListsOneMore(order: seq<string>, ids: set<string>, id: string)
    requires IsListing(order, ids) && id !in ids
    ensures IsListing(order + [id], ids + {id})
  {
    forall other | other in ids + {id}
      ensures other in order + [id]
    {
      if other == id { assert (order + [id])[|order|] == id; }
    }
  }

  function ArchivedObservations(obs: Table, order: seq<string>, now: nat): (r: seq<ArchivedRecord>)
    requires forall id :: id in order ==> id in obs
  {
    if order == [] then [] else
      ArchivedObservations(obs, order[..|order| - 1], now)
      + [ArchivedRecord(order[|order| - 1], now, OfObservation(obs[order[|order| - 1]]))]
  }

  function ArchivedScans(scans: Scans, order: seq<string>, now: nat): (r: seq<ArchivedRecord>)
    requires forall id :: id in order ==> id in scans
  {
    if order == [] then [] else
      ArchivedScans(scans, order[..|order| - 1], now)
        + [ArchivedRecord(order[|order| - 1], now, OfScan(scans[order[|order| - 1]]))]
  }

  predicate ExpiredEvent(e: AuditEvent, age: nat, now: nat) {
    e.time + age < now
  }

  /** The events of the audit trail that retention takes out, and those it leaves, in order. */
  function ExpiredEvents(audit: seq<AuditEvent>, age: nat, now: nat): seq<AuditEvent> {
    if audit == [] then [] else
      var rest, last := ExpiredEvents(audit[..|audit| - 1], age, now), audit[|audit| - 1];
      if ExpiredEvent(last, age, now) then rest + [last] else rest
  }

  function KeptEvents(audit: seq<AuditEvent>, age: nat, now: nat): seq<AuditEvent> {
    if audit == [] then [] else
      var rest, last := KeptEvents(audit[..|audit| - 1], age, now), audit[|audit| - 1];
      if ExpiredEvent(last, age, now) then rest else rest + [last]
  }

  function ArchivedEvents(events: seq<AuditEvent>, now: nat): (r: seq<ArchivedRecord>)
    ensures |r| == |events|
  {
    if events == [] then [] else
      var last := events[|events| - 1];
      ArchivedEvents(events[..|events| - 1], now) + [ArchivedRecord(last.id, now, OfAudit(last))]
  }

  /** The ages after which retention moves observations, scans and events to the archive and empties it;
      an age of 0 or less keeps them. */
  datatype Policy = Policy(observationAge: int, scanAge: int, auditAge: int, archiveAge: int)

  /** The index without the entries of the given observations. */
  function Unlisted(index: Index, obs: Table, order: seq<string>): Index
    requires forall id :: id in order ==> id in obs
  {
    if order == [] then index else
      var o := obs[order[|order| - 1]];
      WithoutEntry(Unlisted(index, obs, order[..|order| - 1]), o.hostID, o.dedupKey)
  }

  /** The archive after purging records archived before now - age. */
  function Purged(archive: seq<ArchivedRecord>, age: nat, now: nat): seq<ArchivedRecord> {
    if archive == [] then [] else
      var last := archive[|archive| - 1];
      var kept := Purged(archive[..|archive| - 1], age, now);
      if last.archivedAt + age < now then kept else kept + [last]
  }

  // ---------------------------------------------------------------- what retention takes

  /** Only closed findings are taken, once they have not been seen for the given time. */
  lemma TakenExactlyWhen(obs: Table, scans: Scans, age: nat, now: nat, id: string)
    ensures id in ExpiredIDs(obs, age, now) <==>
            id in obs && (obs[id].status == FalsePositive || obs[id].status == Resolved) && obs[id].lastSeen + age < now
    ensures id in ExpiredScans(scans, age, now) <==> id in scans && scans[id].startedAt + age < now
  {
  }

  /** What is archived is the record itself, stamped with the time. */
  lemma {:induction false} ArchivedIs(obs: Table, order: seq<string>, now: nat, n: nat)
    requires n < |order| && forall id :: id in order ==> id in obs
    ensures |ArchivedObservations(obs, order, now)| == |order|
    ensures ArchivedObservations(obs, order, now)[n] == ArchivedRecord(order[n], now, OfObservation(obs[order[n]]))
  {
    if |order| == 1 {
      assert order[..0] == [];
    } else if n == |order| - 1 {
      ArchivedIs(obs, order[..n], now, 0);
    } else {
      ArchivedIs(obs, order[..|order| - 1], now, n);
    }
  }

  lemma {:induction false} ArchivedScanIs(scans: Scans, order: seq<string>, now: nat, n: nat)
    requires n < |order| && forall id :: id in order ==> id in scans
    ensures |ArchivedScans(scans, order, now)| == |order|
    ensures ArchivedScans(scans, order, now)[n] == ArchivedRecord(order[n], now, OfScan(scans[order[n]]))
  {
    if |order| == 1 {
      assert order[..0] == [];
    } else if n == |order| - 1 {
      ArchivedScanIs(scans, order[..n], now, 0);
    } else {
      ArchivedScanIs(scans, order[..|order| - 1], now, n);
    }
  }

  lemma {:induction false} ArchivedEventIs(events: seq<AuditEvent>, now: nat, n: nat)
    requires n < |events|
    ensures ArchivedEvents(events, now)[n] == ArchivedRecord(events[n].id, now, OfAudit(events[n]))
  {
    if n == |events| - 1 {
    } else {
      ArchivedEventIs(events[..|events| - 1], now, n);
    }
  }

  /** Events are taken one by one, by their age, and stay in order. */
  lemma {:induction false} TakenEventsSplit(before: seq<AuditEvent>, e: AuditEvent, after: seq<AuditEvent>, age: nat,
                                            now: nat)
    ensures ExpiredEvents(before + [e] + after, age, now)
            == ExpiredEvents(before, age, now) + (if e.time + age < now then [e] else [])
             + ExpiredEvents(after, age, now)
  {
    if after == [] {
      EventsOfLast(before, e, age, now);
      assert before + [e] + after == before + [e];
    } else {
      var front, last := after[..|after| - 1], after[|after| - 1];
      TakenEventsSplit(before, e, front, age, now);
      EventsOfLast(before + [e] + front, last, age, now);
      EventsOfLast(front, last, age, now);
      assert after == front + [last];
      Associate(before + [e], front, [last]);
      Associate(ExpiredEvents(before, age, now) + (if e.time + age < now then [e] else []),
                ExpiredEvents(front, age, now), if last.time + age < now then [last] else []);
    }
  }

  /** So are those that are kept. */
  lemma {:induction false} KeptEventsSplit(before: seq<AuditEvent>, e: AuditEvent, after: seq<AuditEvent>, age: nat,
                                           now: nat)
    ensures KeptEvents(before + [e] + after, age, now)
            == KeptEvents(before, age, now) + (if e.time + age < now then [] else [e]) + KeptEvents(after, age, now)
  {
    if after == [] {
      EventsOfLast(before, e, age, now);
      assert before + [e] + after == before + [e];
    } else {
      var front, last := after[..|after| - 1], after[|after| - 1];
      KeptEventsSplit(before, e, front, age, now);
      EventsOfLast(before + [e] + front, last, age, now);
      EventsOfLast(front, last, age, now);
      assert after == front + [last];
      Associate(before + [e], front, [last]);
      Associate(KeptEvents(before, age, now) + (if e.time + age < now then [] else [e]), KeptEvents(front, age, now),
                if last.time + age < now then [] else [last]);
    }
  }

  lemma EventsOfLast(front: seq<AuditEvent>, last: AuditEvent, age: nat, now: nat)
    ensures ExpiredEvents(front + [last], age, now)
            == ExpiredEvents(front, age, now) + if last.time + age < now then [last] else []
    ensures KeptEvents(front + [last], age, now)
            == KeptEvents(front, age, now) + if last.time + age < now then [] else [last]
  {
    assert (front + [last])[..|front|] == front;
  }

  /** So are archived records when the archive is emptied. */
  lemma {:induction false} PurgeSplits(before: seq<ArchivedRecord>, r: ArchivedRecord, after: seq<ArchivedRecord>,
                                       age: nat, now: nat)
    ensures Purged(before + [r] + after, age, now)
            == Purged(before, age, now) + (if r.archivedAt + age < now then [] else [r]) + Purged(after, age, now)
  {
    if after == [] {
      PurgedOfLast(before, r, age, now);
      assert before + [r] + after == before + [r];
    } else {
      var front, last := after[..|after| - 1], after[|after| - 1];
      PurgeSplits(before, r, front, age, now);
      PurgedOfLast(before + [r] + front, last, age, now);
      PurgedOfLast(front, last, age, now);
      assert after == front + [last];
      Associate(before + [r], front, [last]);
      Associate(Purged(before, age, now) + (if r.archivedAt + age < now then [] else [r]), Purged(front, age, now),
                if last.archivedAt + age < now then [] else [last]);
    }
  }

  lemma PurgedOfLast(front: seq<ArchivedRecord>, last: ArchivedRecord, age: nat, now: nat)
    ensures Purged(front + [last], age, now)
            == Purged(front, age, now) + if last.archivedAt + age < now then [] else [last]
  {
    assert (front + [last])[..|front|] == front;
  }

  lemma WithoutEntryKeepsIndex(obs: Table, index: Index, id: string)
    requires IndexAgrees(obs, index) && id in obs
    ensures IndexAgrees(obs - {id}, WithoutEntry(index, obs[id].hostID, obs[id].dedupKey))
  {
    var h, d := obs[id].hostID, obs[id].dedupKey;
    assert Carries(obs, id, h, d) && Points(index, h, d, id);
    var index' := WithoutEntry(index, h, d);
    forall host, key, other
      ensures Points(index', host, key, other) <==> Carries(obs - {id}, other, host, key)
    {
      assert Points(index, host, key, other) <==> Carries(obs, other, host, key);
    }
  }

  /** The table without the listed observations. */
  function Remaining(obs: Table, order: seq<string>): Table {
    obs - (set id | id in order)
  }

  lemma RemainingLast(obs: Table, order: seq<string>)
    requires order != []
    ensures Remaining(obs, order[..|order| - 1]) - {order[|order| - 1]} == Remaining(obs, order)
  {
    assert order == order[..|order| - 1] + [order[|order| - 1]];
  }

  /** The three fields the archiving loop works on, after it has moved the listed observations. */
  ghost predicate Moved(obs: Table, index: Index, archive: seq<ArchivedRecord>, order: seq<string>, now: nat,
                        obs': Table, index': Index, archive': seq<ArchivedRecord>)
  {
    && (forall id :: id in order ==> id in obs)
    && obs' == Remaining(obs, order) && index' == Unlisted(index, obs, order)
    && archive' == archive + ArchivedObservations(obs, order, now)
  }

  /** One more iteration of the archiving loop. */
  lemma MovesOneMore(obs: Table, index: Index, archive: seq<ArchivedRecord>, order: seq<string>, id: string, now: nat,
                     obs': Table, index': Index, archive': seq<ArchivedRecord>)
    requires Moved(obs, index, archive, order, now, obs', index', archive') && id in obs'
    ensures Moved(obs, index, archive, order + [id], now, obs' - {id},
                  WithoutEntry(index', obs[id].hostID, obs[id].dedupKey),
                  archive' + [ArchivedRecord(id, now, OfObservation(obs[id]))])
  {
    assert (order + [id])[..|order|] == order;
    RemainingLast(obs, order + [id]);
  }

  /** The archiving loop with the observations in rest still to visit. */
  ghost predicate Archiving(obs: Table, index: Index, archive: seq<ArchivedRecord>, age: nat, now: nat,
                            rest: set<string>,
                            order: seq<string>, obs': Table, index': Index, archive': seq<ArchivedRecord>)
  {
    && rest <= obs'.Keys && rest <= obs.Keys && IsListing(order, ExpiredIDs(obs, age, now) - rest)
    && Moved(obs, index, archive, order, now, obs', index', archive')
  }

  lemma ArchivingStarts(obs: Table, index: Index, archive: seq<ArchivedRecord>, age: nat, now: nat)
    ensures Archiving(obs, index, archive, age, now, obs.Keys, [], obs, index, archive)
  {
    assert archive + [] == archive && Remaining(obs, []) == obs;
  }

  lemma ArchivingSkips(obs: Table, index: Index, archive: seq<ArchivedRecord>, age: nat, now: nat, rest: set<string>,
                       order: seq<string>, obs': Table, index': Index, archive': seq<ArchivedRecord>, id: string)
    requires Archiving(obs, index, archive, age, now, rest, order, obs', index', archive')
    requires id in rest && !Expired(obs[id], age, now)
    ensures Archiving(obs, index, archive, age, now, rest - {id}, order, obs', index', archive')
  {
    assert ExpiredIDs(obs, age, now) - (rest - {id}) == ExpiredIDs(obs, age, now) - rest;
  }

  lemma ArchivingTakes(obs: Table, index: Index, archive: seq<ArchivedRecord>, age: nat, now: nat, rest: set<string>,
                       order: seq<string>, obs': Table, index': Index, archive': seq<ArchivedRecord>, id: string)
    requires Archiving(obs, index, archive, age, now, rest, order, obs', index', archive')
    requires id in rest && Expired(obs[id], age, now)
    ensures Archiving(obs, index, archive, age, now, rest - {id}, order + [id], obs' - {id},
                      WithoutEntry(index', obs[id].hostID, obs[id].dedupKey),
                      archive' + [ArchivedRecord(id, now, OfObservation(obs[id]))])
  {
    var listed := ExpiredIDs(obs, age, now) - rest;
    ListsOneMore(order, listed, id);
    assert ExpiredIDs(obs, age, now) - (rest - {id}) == listed + {id};
    MovesOneMore(obs, index, archive, order, id, now, obs', index', archive');
  }

  ghost predicate ScansMoved(scans: Scans, archive: seq<ArchivedRecord>, order: seq<string>, now: nat,
                             scans': Scans, archive': seq<ArchivedRecord>)
  {
    && (forall sid :: sid in order ==> sid in scans)
    && scans' == scans - (set sid | sid in order)
    && archive' == archive + ArchivedScans(scans, order, now)
  }

  lemma ScansMoveOneMore(scans: Scans, archive: seq<ArchivedRecord>, order: seq<string>, sid: string, now: nat,
                         scans': Scans, archive': seq<ArchivedRecord>)
    requires ScansMoved(scans, archive, order, now, scans', archive') && sid in scans'
    ensures ScansMoved(scans, archive, order + [sid], now, scans' - {sid},
                       archive' + [ArchivedRecord(sid, now, OfScan(scans[sid]))])
  {
    assert (order + [sid])[..|order|] == order;
    assert (set id | id in order + [sid]) == (set id | id in order) + {sid};
  }

  /** Archiving closed findings, in whatever order, takes exactly their entries out of the index. */
  lemma {:induction false} UnlistingKeepsIndex(obs: Table, index: Index, order: seq<string>)
    requires IndexAgrees(obs, index)
    requires forall k :: 0 <= k < |order| ==> order[k] in obs
    requires forall j, k :: 0 <= j < k < |order| ==> order[j] != order[k]
    ensures IndexAgrees(Remaining(obs, order), Unlisted(index, obs, order))
  {
    if order == [] {
      assert Remaining(obs, order) == obs;
    } else {
      var front, last := order[..|order| - 1], order[|order| - 1];
      UnlistingKeepsIndex(obs, index, front);
      WithoutEntryKeepsIndex(Remaining(obs, front), Unlisted(index, obs, front), last);
      RemainingLast(obs, order);
    }
  }

  // ---------------------------------------------------------------- counting sightings

  /** Any id of a table, always the same one. */
  ghost function Pick(obs: Table): (id: string)
    requires |obs| > 0
    ensures id in obs
  {
    assert |obs.Keys| > 0;
    var id :| id in obs;
    id
  }

  /** Sum of Count over a table. */
  ghost function Total(obs: Table): nat
    decreases |obs|
  {
    if |obs| == 0 then 0 else obs[Pick(obs)].count + Total(obs - {Pick(obs)})
  }

  lemma RemovalsCommute(obs: Table, a: string, b: string)
    ensures obs - {a} - {b} == obs - {b} - {a}
  {
  }

  lemma {:induction false} TotalWithout(obs: Table, id: string)
    requires id in obs
    ensures Total(obs) == obs[id].count + Total(obs - {id})
    decreases |obs|
  {
    var first := Pick(obs);
    if first == id {
    } else {
      TotalWithout(obs - {first}, id);
      TotalWithout(obs - {id}, first);
      RemovalsCommute(obs, first, id);
    }
  }

  lemma UpdateWithout(obs: Table, id: string, o: Observation)
    ensures obs[id := o] - {id} == obs - {id}
    ensures id !in obs ==> obs - {id} == obs
  {
  }

  lemma TotalUpdate(obs: Table, id: string, o: Observation)
    ensures Total(obs[id := o]) == Total(obs) + o.count - (if id in obs then obs[id].count else 0)
  {
    TotalWithout(obs[id := o], id);
    UpdateWithout(obs, id, o);
    if id in obs { TotalWithout(obs, id); }
  }

  /** Sightings in the archive. */
  function ArchivedTotal(archive: seq<ArchivedRecord>): nat {
    if archive == [] then 0 else
      var last := archive[|archive| - 1];
      ArchivedTotal(archive[..|archive| - 1])
        + (if last.payload.OfObservation? then last.payload.observation.count else 0)
  }

  lemma {:induction false} ArchivedTotalConcat(a: seq<ArchivedRecord>, b: seq<ArchivedRecord>)
    ensures ArchivedTotal(a + b) == ArchivedTotal(a) + ArchivedTotal(b)
  {
    if b == [] {
      assert a + b == a;
    } else {
      ArchivedTotalConcat(a, b[..|b| - 1]);
      assert (a + b)[..|a + b| - 1] == a + b[..|b| - 1];
    }
  }

  /** What leaves the table arrives in the archive. */
  lemma {:induction false} ArchivingMovesSightings(obs: Table, order: seq<string>, now: nat)
    requires forall k :: 0 <= k < |order| ==> order[k] in obs
    requires forall j, k :: 0 <= j < k < |order| ==> order[j] != order[k]
    ensures Total(Remaining(obs, order)) + ArchivedTotal(ArchivedObservations(obs, order, now)) == Total(obs)
  {
    if order == [] {
      assert Remaining(obs, order) == obs;
    } else {
      var front, last := order[..|order| - 1], order[|order| - 1];
      ArchivingMovesSightings(obs, front, now);
      TotalWithout(Remaining(obs, front), last);
      RemainingLast(obs, order);
      var archived := ArchivedObservations(obs, order, now);
      assert archived[..|archived| - 1] == ArchivedObservations(obs, front, now);
    }
  }

  lemma {:induction false} ArchivedScansHoldNone(scans: Scans, order: seq<string>, now: nat)
    requires forall id :: id in order ==> id in scans
    ensures ArchivedTotal(ArchivedScans(scans, order, now)) == 0
  {
    if order == [] {
    } else {
      ArchivedScansHoldNone(scans, order[..|order| - 1], now);
      var archived := ArchivedScans(scans, order, now);
      assert archived[..|archived| - 1] == ArchivedScans(scans, order[..|order| - 1], now);
    }
  }

  lemma {:induction false} ArchivedEventsHoldNone(events: seq<AuditEvent>, now: nat)
    ensures ArchivedTotal(ArchivedEvents(events, now)) == 0
  {
    if events == [] {
    } else {
      ArchivedEventsHoldNone(events[..|events| - 1], now);
      var archived := ArchivedEvents(events, now);
      assert archived[..|archived| - 1] == ArchivedEvents(events[..|events| - 1], now);
    }
  }

  /** An upsert adds one sighting, wherever it lands. */
  lemma UpsertAddsOneSighting(obs: Table, index: Index, scans: Scans, o: Observation, uuid: string, now: nat,
                              window: int)
    requires IndexAgrees(obs, index) && (Known(index, o) || UpsertedID(index, o, uuid) !in obs)
    requires Known(index, o) ==> ListedID(index, o.hostID, o.dedupKey) in obs
    ensures Total(UpsertedTable(obs, index, scans, o, uuid, now, window)) == Total(obs) + 1
  {
    var id := UpsertedID(index, o, uuid);
    if Known(index, o) {
      TotalUpdate(obs, id, Sighted(obs[id], o, now, ReopensNow(obs, scans, id, o, now, window)));
    } else {
      TotalUpdate(obs, id, First(o, uuid, now));
    }
  }
}
