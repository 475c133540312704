/** The per-address login lockout of internal/api/loginlimit.go. Times and durations are nanoseconds;
    time 0 is the zero time, which no reading of the clock precedes. */
module LoginLimit {
  import opened Backoff
  import opened Sequences
  import opened Wrappers

  const MAX_FAILS: nat := 5
  const WINDOW: nat := 900 * SECOND
  const LOCKOUT_BASE: nat := 30 * SECOND
  const LOCKOUT_MAX: nat := 900 * SECOND

  datatype Attempt = Attempt(fails: nat, until: nat, last: nat)

  datatype State = State(attempts: map<string, Attempt>, nextPrune: nat) {
    function Look(ip: string): Option<Attempt> {
      if ip in attempts then Some(attempts[ip]) else None
    }
  }

  const START := State(map[], 0)

  /** The lockout armed by a failure that brings the counter to fails. */
  function Lockout(fails: nat): nat {
    if fails < MAX_FAILS then 0
    else
      var n := if fails - MAX_FAILS < 20 then fails - MAX_FAILS else 20;
      var d := Doubled(LOCKOUT_BASE, n);
      if d <= 0 || d > LOCKOUT_MAX then LOCKOUT_MAX else d
  }

  predicate Stale(a: Attempt, now: nat) {
    now - a.last > WINDOW && now > a.until
  }

  function Pruned(s: State, now: nat): State {
    if now < s.nextPrune then s
    else State(map ip | ip in s.attempts && !Stale(s.attempts[ip], now) :: s.attempts[ip], now + WINDOW)
  }

  function Wait(s: State, ip: string, now: nat): nat {
    if ip in s.attempts && now < s.attempts[ip].until then s.attempts[ip].until - now else 0
  }

  function FailedAgain(a: Attempt, now: nat): Attempt {
    var fails := (if now - a.last > WINDOW then 0 else a.fails) + 1;
    Attempt(fails, if fails >= MAX_FAILS then now + Lockout(fails) else a.until, now)
  }

  function Fail(s: State, ip: string, now: nat): State {
    s.(attempts := s.attempts[ip := FailedAgain(if ip in s.attempts then s.attempts[ip] else Attempt(0, 0, 0), now)])
  }

  function Reset(s: State, ip: string): State {
    s.(attempts := s.attempts - {ip})
  }

  // ---------------------------------------------------------------- the limiter object

  class LoginLimiter {
    var attempts: map<string, Attempt>
    var nextPrune: nat

    ghost function View(): State
      reads this
    {
      State(attempts, nextPrune)
    }

    constructor ()
      ensures View() == START
    {
      attempts, nextPrune := map[], 0;
    }

    method RetryAfter(ip: string, now: nat) returns (wait: nat)
      modifies this
      ensures View() == Pruned(old(View()), now) && wait == Wait(View(), ip, now)
      ensures ip in attempts && now < attempts[ip].until ==> wait == attempts[ip].until - now
      ensures ip !in attempts || attempts[ip].until <= now ==> wait == 0
    {
      Prune(now);
      if ip in attempts && now < attempts[ip].until {
        return attempts[ip].until - now;
      }
      return 0;
    }

    method RecordFailure(ip: string, now: nat)
      modifies this
      ensures View() == Fail(Pruned(old(View()), now), ip, now)
    {
      Prune(now);
      var a := if ip in attempts then attempts[ip] else Attempt(0, 0, 0);
      if now - a.last > WINDOW {
        a := a.(fails := 0);
      }
      a := a.(fails := a.fails + 1, last := now);
      if a.fails >= MAX_FAILS {
        var n := if a.fails - MAX_FAILS < 20 then a.fails - MAX_FAILS else 20;
        var d := Doubled(LOCKOUT_BASE, n);
        if d <= 0 || d > LOCKOUT_MAX {
          d := LOCKOUT_MAX;
        }
        a := a.(until := now + d);
      }
      attempts := attempts[ip := a];
    }

    /** Nothing of the address is left: its next check passes, and it has a clean count. */
    method ResetAddress(ip: string)
      modifies this
      ensures View() == Reset(old(View()), ip)
      ensures forall now :: Wait(View(), ip, now) == 0 && Fail(View(), ip, now).Look(ip) == Some(Attempt(1, 0, now))
      ensures forall other :: other != ip ==> View().Look(other) == old(View().Look(other))
    {
      attempts := attempts - {ip};
    }

    method Prune(now: nat)
      modifies this
      ensures View() == Pruned(old(View()), now)
      ensures if now < old(nextPrune) then attempts == old(attempts) && nextPrune == old(nextPrune)
              else nextPrune == now + 900 * SECOND
                   && attempts == map ip | ip in old(attempts)
                                           && (now - old(attempts)[ip].last <= 900 * SECOND
                                               || now <= old(attempts)[ip].until) :: old(attempts)[ip]
    {
      if now < nextPrune {
        return;
      }
      nextPrune := now + WINDOW;
      var rest := attempts.Keys;
      while rest != {}
        invariant nextPrune == now + WINDOW
        invariant rest <= attempts.Keys <= old(attempts).Keys
        invariant forall ip :: ip in attempts ==> attempts[ip] == old(attempts)[ip]
        invariant forall ip :: ip in old(attempts) && ip !in rest ==>
                    (ip in attempts <==> !Stale(old(attempts)[ip], now))
        decreases rest
      {
        var ip :| ip in rest;
        rest := rest - {ip};
        var a := attempts[ip];
        if now - a.last > WINDOW && now > a.until {
          attempts := attempts - {ip};
        }
      }
      assert attempts == Pruned(old(View()), now).attempts;
    }
  }

  // ---------------------------------------------------------------- runs

  datatype Call = RetryAfterCall(ip: string, now: nat) | FailCall(ip: string, now: nat) | ResetCall(ip: string)

  /** One call; with prunes false, on a limiter that keeps every entry until it is reset. */
  function Step(s: State, c: Call, prunes: bool): State {
    match c
    case RetryAfterCall(_, now) => if prunes then Pruned(s, now) else s
    case FailCall(ip, now) => Fail(if prunes then Pruned(s, now) else s, ip, now)
    case ResetCall(ip) => Reset(s, ip)
  }

  function After(calls: seq<Call>, prunes: bool): State {
    if calls == [] then START else Step(After(calls[..|calls| - 1], prunes), calls[|calls| - 1], prunes)
  }

  /** What the calls answer, in order; only RetryAfter answers anything. */
  function Answers(calls: seq<Call>, prunes: bool): seq<nat> {
    if calls == [] then []
    else
      var c := calls[|calls| - 1];
      Answers(calls[..|calls| - 1], prunes)
      + (if c.RetryAfterCall? then [Wait(Step(After(calls[..|calls| - 1], prunes), c, prunes), c.ip, c.now)] else [])
  }

  /** The latest clock reading. */
  function Clock(calls: seq<Call>): nat {
    if calls == [] then 0
    else
      var c := calls[|calls| - 1];
      if c.ResetCall? then Clock(calls[..|calls| - 1]) else c.now
  }

  /** The clock never runs backwards. */
  ghost predicate Ordered(calls: seq<Call>) {
    calls == [] || (Ordered(calls[..|calls| - 1]) && Clock(calls[..|calls| - 1]) <= Clock(calls))
  }

  // ---------------------------------------------------------------- pruning is invisible

  /** Two records of one address that no later call can tell apart, as of time t. */
  predicate Alike(x: Option<Attempt>, y: Option<Attempt>, t: nat) {
    match (x, y)
    case (None, None) => true
    case (None, Some(b)) => t - b.last > WINDOW && b.until <= t
    case (Some(_), None) => false
    case (Some(a), Some(b)) =>
      a.fails == b.fails && a.last == b.last && (a.until == b.until || (a.until <= t && b.until <= t))
  }

  lemma StepKeepsAlike(s: State, s': State, c: Call, ip: string, t: nat, t': nat)
    requires Alike(s.Look(ip), s'.Look(ip), t) && t <= t'
    requires c.ResetCall? || c.now == t'
    ensures Alike(Step(s, c, true).Look(ip), Step(s', c, false).Look(ip), t')
    ensures c.RetryAfterCall? && c.ip == ip ==> Wait(Step(s, c, true), ip, t') == Wait(Step(s', c, false), ip, t')
  {
  }

  lemma {:induction false} PruningKeepsAlike(calls: seq<Call>, ip: string)
    requires Ordered(calls)
    ensures Alike(After(calls, true).Look(ip), After(calls, false).Look(ip), Clock(calls))
  {
    if calls == [] {
    } else {
      var init, c := calls[..|calls| - 1], calls[|calls| - 1];
      PruningKeepsAlike(init, ip);
      StepKeepsAlike(After(init, true), After(init, false), c, ip, Clock(init), Clock(calls));
    }
  }

  /** Every sequence of calls is answered exactly as by a limiter that never prunes. */
  lemma {:induction false} PruningIsInvisible(calls: seq<Call>)
    requires Ordered(calls)
    ensures Answers(calls, true) == Answers(calls, false)
  {
    if calls == [] {
    } else {
      var init, c := calls[..|calls| - 1], calls[|calls| - 1];
      PruningIsInvisible(init);
      if c.RetryAfterCall? {
        PruningKeepsAlike(init, c.ip);
        StepKeepsAlike(After(init, true), After(init, false), c, c.ip, Clock(init), Clock(calls));
      }
    }
  }

  // ---------------------------------------------------------------- answers are capped

  lemma LockoutIsCapped(fails: nat)
    ensures Lockout(fails) <= LOCKOUT_MAX
  {
  }

  lemma {:induction false} LockoutsEndSoon(calls: seq<Call>, prunes: bool, ip: string)
    requires Ordered(calls)
    ensures ip in After(calls, prunes).attempts ==>
              After(calls, prunes).attempts[ip].until <= Clock(calls) + LOCKOUT_MAX
  {
    if calls == [] {
    } else {
      LockoutsEndSoon(calls[..|calls| - 1], prunes, ip);
    }
  }

  /** No answer ever exceeds the cap. */
  lemma {:induction false} AnswersAreCapped(calls: seq<Call>, prunes: bool, k: nat)
    requires Ordered(calls) && k < |Answers(calls, prunes)|
    ensures Answers(calls, prunes)[k] <= LOCKOUT_MAX
  {
    var init, c := calls[..|calls| - 1], calls[|calls| - 1];
    if k < |Answers(init, prunes)| {
      AnswersAreCapped(init, prunes, k);
    } else {
      LockoutsEndSoon(init, prunes, c.ip);
    }
  }

  // ---------------------------------------------------------------- the record of an address

  /** The times of the failures recorded for one address. */
  function FailTimes(calls: seq<Call>, ip: string): seq<nat> {
    if calls == [] then []
    else
      var c := calls[|calls| - 1];
      FailTimes(calls[..|calls| - 1], ip) + (if c.FailCall? && c.ip == ip then [c.now] else [])
  }

  /** Those since the address last logged in. */
  function SinceReset(calls: seq<Call>, ip: string): seq<nat> {
    if calls == [] then []
    else
      var c := calls[|calls| - 1];
      if c == ResetCall(ip) then []
      else SinceReset(calls[..|calls| - 1], ip) + (if c.FailCall? && c.ip == ip then [c.now] else [])
  }

  /** A login of the address ends with a failure or with a success, which resets the address. */
  predicate Ends(c: Call, ip: string) {
    c == ResetCall(ip) || (c.FailCall? && c.ip == ip)
  }

  /** The failure counter after the failures at the given times. */
  function Streak(ts: seq<nat>): nat {
    if |ts| < 2 then |ts|
    else if ts[|ts| - 1] - ts[|ts| - 2] > WINDOW then 1
    else Streak(ts[..|ts| - 1]) + 1
  }

  /** The lockout of the last failure is over at t. */
  predicate Open(ts: seq<nat>, t: nat) {
    ts != [] ==> ts[|ts| - 1] + Lockout(Streak(ts)) <= t
  }

  ghost predicate Ascending(ts: seq<nat>) {
    forall j, k :: 0 <= j < k < |ts| ==> ts[j] <= ts[k]
  }

  /** How an address's record reflects its failures, as of time t. */
  ghost predicate Tracks(x: Option<Attempt>, ts: seq<nat>, t: nat) {
    match x
    case None => ts == [] || t - ts[|ts| - 1] > WINDOW
    case Some(a) =>
      && ts != [] && a.last == ts[|ts| - 1] <= t && a.fails == Streak(ts)
      && (if a.fails < MAX_FAILS then a.until <= a.last else a.until == a.last + Lockout(a.fails))
  }

  lemma FailureTracks(s: State, ip: string, ts: seq<nat>, t: nat, now: nat)
    requires Tracks(s.Look(ip), ts, t) && t <= now
    ensures Tracks(Fail(Pruned(s, now), ip, now).Look(ip), ts + [now], now)
  {
    var ts' := ts + [now];
    assert ts'[..|ts'| - 1] == ts;
    LockoutIsCapped(Streak(ts));
  }

  lemma OtherCallTracks(s: State, c: Call, ip: string, ts: seq<nat>, t: nat, t': nat)
    requires Tracks(s.Look(ip), ts, t) && t <= t' && (c.ResetCall? || c.now == t')
    requires !Ends(c, ip)
    ensures Tracks(Step(s, c, true).Look(ip), ts, t')
  {
  }

  lemma CallTracks(s: State, c: Call, ip: string, ts: seq<nat>, t: nat, t': nat)
    requires Tracks(s.Look(ip), ts, t) && t <= t' && (c.ResetCall? || c.now == t')
    ensures Tracks(Step(s, c, true).Look(ip),
                   if c == ResetCall(ip) then [] else if c.FailCall? && c.ip == ip then ts + [c.now] else ts, t')
  {
    if !Ends(c, ip) {
      OtherCallTracks(s, c, ip, ts, t, t');
    } else if c.FailCall? {
      FailureTracks(s, ip, ts, t, c.now);
    }
  }

  lemma {:induction false} RecordTracks(calls: seq<Call>, ip: string)
    requires Ordered(calls)
    ensures Tracks(After(calls, true).Look(ip), SinceReset(calls, ip), Clock(calls))
  {
    if calls == [] {
    } else {
      var init, c := calls[..|calls| - 1], calls[|calls| - 1];
      RecordTracks(init, ip);
      CallTracks(After(init, true), c, ip, SinceReset(init, ip), Clock(init), Clock(calls));
      assert SinceReset(init, ip) + [] == SinceReset(init, ip);
    }
  }

  lemma {:induction false} StretchAscends(calls: seq<Call>, ip: string)
    requires Ordered(calls)
    ensures Ascending(SinceReset(calls, ip))
    ensures forall k :: 0 <= k < |SinceReset(calls, ip)| ==> SinceReset(calls, ip)[k] <= Clock(calls)
  {
    if calls == [] {
    } else {
      StretchAscends(calls[..|calls| - 1], ip);
    }
  }

  /** Whatever calls are made, the record of an address reflects its failures since it last logged in. */
  lemma RunTracks(calls: seq<Call>, ip: string)
    requires Ordered(calls)
    ensures Tracks(After(calls, true).Look(ip), SinceReset(calls, ip), Clock(calls))
    ensures Ascending(SinceReset(calls, ip))
    ensures forall k :: 0 <= k < |SinceReset(calls, ip)| ==> SinceReset(calls, ip)[k] <= Clock(calls)
  {
    RecordTracks(calls, ip);
    StretchAscends(calls, ip);
  }

  // ---------------------------------------------------------------- what is answered

  /** Five failures lock an address out for half a minute, each further one for twice as long, up to fifteen
      minutes. */
  lemma LockoutIs(n: nat)
    ensures n < 5 ==> Lockout(n) == 0
    ensures n >= 5 ==> Lockout(n) == if Doubled(30 * SECOND, n - 5) < 900 * SECOND then Doubled(30 * SECOND, n - 5)
                                     else 900 * SECOND
  {
    if n >= 5 {
      FirstLockouts();
      if n >= 10 {
        DoubledGrows(30 * SECOND, 5, n - 5);
        DoubledGrows(30 * SECOND, 5, if n - 5 < 20 then n - 5 else 20);
      }
    }
  }

  lemma FirstLockouts()
    ensures Lockout(5) == 30 * SECOND && Lockout(6) == 60 * SECOND && Lockout(7) == 120 * SECOND
    ensures Lockout(8) == 240 * SECOND && Lockout(9) == 480 * SECOND && Doubled(30 * SECOND, 5) == 960 * SECOND
  {
    assert Doubled(LOCKOUT_BASE, 1) == 60 * SECOND;
    assert Doubled(LOCKOUT_BASE, 2) == 120 * SECOND;
    assert Doubled(LOCKOUT_BASE, 3) == 240 * SECOND;
    assert Doubled(LOCKOUT_BASE, 4) == 480 * SECOND;
  }

  predicate Follows(ts: seq<nat>, k: nat)
    requires 0 < k < |ts|
  {
    ts[k] - ts[k - 1] <= 900 * SECOND
  }

  /** The last n failures follow each other within fifteen minutes, and there are no more such. */
  ghost predicate RunsTogether(ts: seq<nat>, n: nat) {
    && n <= |ts| && (ts != [] ==> n > 0)
    && (forall k :: |ts| - n < k < |ts| ==> Follows(ts, k))
    && (n < |ts| ==> !Follows(ts, |ts| - n))
  }

  lemma {:induction false} StreakRunsTogether(ts: seq<nat>)
    ensures RunsTogether(ts, Streak(ts))
  {
    if |ts| < 2 {
    } else {
      var init, n := ts[..|ts| - 1], Streak(ts);
      StreakRunsTogether(init);
      forall k | |ts| - n < k < |ts|
        ensures Follows(ts, k)
      {
        if k < |ts| - 1 { assert Follows(init, k); }
      }
      if 1 < n < |ts| { assert !Follows(init, |init| - (n - 1)); }
    }
  }

  lemma OneRunTogether(ts: seq<nat>, m: nat, n: nat)
    requires RunsTogether(ts, m) && RunsTogether(ts, n)
    ensures m <= n
  {
  }

  /** The counter is the number of failures that run together. */
  lemma StreakExactlyWhen(ts: seq<nat>, n: nat)
    ensures Streak(ts) == n <==> RunsTogether(ts, n)
  {
    StreakRunsTogether(ts);
    if RunsTogether(ts, n) {
      OneRunTogether(ts, n, Streak(ts));
      OneRunTogether(ts, Streak(ts), n);
    }
  }

  /** What a check of the address is answered. */
  function AnswerAt(calls: seq<Call>, i: nat): nat
    requires i < |calls| && calls[i].RetryAfterCall?
  {
    Wait(Step(After(calls[..i], true), calls[i], true), calls[i].ip, calls[i].now)
  }

  /** What is left at the given time of the lockout that the last of the failures has armed, n of them
      running together. */
  function Left(ts: seq<nat>, n: nat, now: nat): nat {
    if ts == [] || ts[|ts| - 1] + Lockout(n) <= now then 0 else ts[|ts| - 1] + Lockout(n) - now
  }

  lemma TracksLeft(s: State, ip: string, ts: seq<nat>, t: nat, now: nat)
    requires Tracks(s.Look(ip), ts, t) && t <= now
    ensures Wait(Pruned(s, now), ip, now) == Left(ts, Streak(ts), now)
  {
    LockoutIsCapped(Streak(ts));
  }

  /** A check is answered with what is left of the lockout armed by the address's failures since it last
      logged in. */
  lemma AnswerIs(calls: seq<Call>, i: nat, n: nat)
    requires Ordered(calls) && i < |calls| && calls[i].RetryAfterCall?
    requires RunsTogether(SinceReset(calls[..i], calls[i].ip), n)
    ensures AnswerAt(calls, i) == Left(SinceReset(calls[..i], calls[i].ip), n, calls[i].now)
  {
    PrefixIsOrdered(calls, i);
    PrefixIsOrdered(calls, i + 1);
    assert calls[..i + 1][..i] == calls[..i];
    RunTracks(calls[..i], calls[i].ip);
    StreakExactlyWhen(SinceReset(calls[..i], calls[i].ip), n);
    var before := calls[..i];
    TracksLeft(After(before, true), calls[i].ip, SinceReset(before, calls[i].ip), Clock(before), calls[i].now);
  }

  /** Answers count down: with no login of the address ending in between, a check d later is answered what
      is left of the first answer, and so 0 exactly when d is at least that. */
  lemma AnswersCountDown(calls: seq<Call>, i: nat, j: nat)
    requires Ordered(calls) && i < j < |calls| && calls[i].RetryAfterCall? && calls[j].RetryAfterCall?
    requires calls[i].ip == calls[j].ip && forall k :: i < k < j ==> !Ends(calls[k], calls[i].ip)
    ensures calls[i].now <= calls[j].now
    ensures var w, d := AnswerAt(calls, i), calls[j].now - calls[i].now;
            AnswerAt(calls, j) == if d >= w then 0 else w - d
  {
    ClocksAscend(calls, i, j);
    SameStretch(calls, calls[i].ip, i, j);
    var n := Streak(SinceReset(calls[..i], calls[i].ip));
    StreakExactlyWhen(SinceReset(calls[..i], calls[i].ip), n);
    AnswerIs(calls, i, n);
    AnswerIs(calls, j, n);
  }

  lemma {:induction false} SameStretch(calls: seq<Call>, ip: string, i: nat, j: nat)
    requires i <= j <= |calls| && forall k :: i <= k < j ==> !Ends(calls[k], ip)
    ensures SinceReset(calls[..j], ip) == SinceReset(calls[..i], ip)
  {
    if i == j {
    } else {
      SameStretch(calls, ip, i, j - 1);
      assert calls[..j][..j - 1] == calls[..j - 1];
    }
  }

  // ---------------------------------------------------------------- logins: a check, and later an end

  /** Call i is a check of the address that was answered 0. */
  ghost predicate Admits(calls: seq<Call>, i: nat, ip: string) {
    && i < |calls| && calls[i].RetryAfterCall? && calls[i].ip == ip
    && Wait(Step(After(calls[..i], true), calls[i], true), ip, calls[i].now) == 0
  }

  /** The positions at which logins of the address end. */
  function EndAt(calls: seq<Call>, ip: string): (r: seq<nat>)
    ensures forall n :: 0 <= n < |r| ==> r[n] < |calls|
  {
    if calls == [] then []
    else EndAt(calls[..|calls| - 1], ip) + (if Ends(calls[|calls| - 1], ip) then [|calls| - 1] else [])
  }

  /** How many of the positions come before p. */
  function CountBefore(positions: seq<nat>, p: nat): nat {
    if positions == [] then 0
    else CountBefore(positions[..|positions| - 1], p) + (if positions[|positions| - 1] < p then 1 else 0)
  }

  /** The gate of the login handler: every end belongs to a login of its own, checked earlier and answered
      0 at call chk[n]; and whenever a login ends, at most c of the logins that will end, itself included,
      have been checked and have not yet ended. */
  ghost predicate Logins(calls: seq<Call>, ip: string, chk: seq<nat>, c: nat) {
    Paired(EndAt(calls, ip), chk, c) && AllAdmit(calls, ip, chk)
  }

  ghost predicate AllAdmit(calls: seq<Call>, ip: string, chk: seq<nat>) {
    forall n :: 0 <= n < |chk| ==> Admits(calls, chk[n], ip)
  }

  /** What Logins asks of positions alone. */
  ghost predicate Paired(pos: seq<nat>, chk: seq<nat>, c: nat) {
    && |chk| == |pos|
    && (forall n :: 0 <= n < |pos| ==> chk[n] < pos[n])
    && (forall m, n :: 0 <= m < n < |chk| ==> chk[m] != chk[n])
    && (forall n :: 0 <= n < |pos| ==> CountBefore(chk[n..], pos[n]) <= c)
  }

  lemma {:induction false} CountBeforeAll(positions: seq<nat>, p: nat, n: nat)
    requires n <= |positions| && forall k :: 0 <= k < n ==> positions[k] < p
    ensures CountBefore(positions, p) >= n
  {
    if positions == [] {
    } else if n == |positions| {
      CountBeforeAll(positions[..|positions| - 1], p, n - 1);
    } else {
      CountBeforeAll(positions[..|positions| - 1], p, n);
    }
  }

  lemma SomeNotBefore(positions: seq<nat>, p: nat, c: nat) returns (k: nat)
    requires CountBefore(positions, p) <= c < |positions|
    ensures k <= c && positions[k] >= p
  {
    if forall k :: 0 <= k < c + 1 ==> positions[k] < p {
      CountBeforeAll(positions, p, c + 1);
    }
    k :| 0 <= k <= c && positions[k] >= p;
  }

  /** Among an end and the c after it, one was checked after that end. */
  lemma CheckedLater(calls: seq<Call>, ip: string, chk: seq<nat>, c: nat, n: nat) returns (m: nat)
    requires Logins(calls, ip, chk, c) && n + c < |chk|
    ensures n < m <= n + c && chk[m] > EndAt(calls, ip)[n]
  {
    var at := EndAt(calls, ip)[n];
    var k := SomeNotBefore(chk[n..], at, c);
    m := n + k;
    assert chk[n..][k] == chk[m];
    CheckIsNoEnd(calls, ip, chk[m], n);
  }

  lemma CheckIsNoEnd(calls: seq<Call>, ip: string, i: nat, n: nat)
    requires Admits(calls, i, ip) && n < |EndAt(calls, ip)|
    ensures i != EndAt(calls, ip)[n]
  {
    EndAtIsEnd(calls, ip, n);
  }

  lemma {:induction false} EndAtIsEnd(calls: seq<Call>, ip: string, n: nat)
    requires n < |EndAt(calls, ip)|
    ensures Ends(calls[EndAt(calls, ip)[n]], ip)
  {
    var init := calls[..|calls| - 1];
    if n == |EndAt(init, ip)| {
    } else {
      EndAtIsEnd(init, ip, n);
    }
  }

  lemma {:induction false} EndAtAscends(calls: seq<Call>, ip: string)
    ensures forall m, n :: 0 <= m < n < |EndAt(calls, ip)| ==> EndAt(calls, ip)[m] < EndAt(calls, ip)[n]
  {
    if calls == [] {
    } else {
      EndAtAscends(calls[..|calls| - 1], ip);
    }
  }

  // ---------------------------------------------------------------- the stretch since the last success

  /** How many logins ended before this stretch began. */
  function Base(calls: seq<Call>, ip: string): nat {
    StretchFits(calls, ip);
    |EndAt(calls, ip)| - |SinceReset(calls, ip)|
  }

  lemma {:induction false} StretchFits(calls: seq<Call>, ip: string)
    ensures |SinceReset(calls, ip)| <= |EndAt(calls, ip)|
  {
    if calls == [] {
    } else {
      StretchFits(calls[..|calls| - 1], ip);
    }
  }

  /** The k-th failure of the stretch is the end number Base + k. */
  lemma {:induction false} StretchFailure(calls: seq<Call>, ip: string, k: nat)
    requires k < |SinceReset(calls, ip)|
    ensures calls[EndAt(calls, ip)[Base(calls, ip) + k]] == FailCall(ip, SinceReset(calls, ip)[k])
  {
    var init := calls[..|calls| - 1];
    if k == |SinceReset(init, ip)| {
    } else {
      StretchFailure(init, ip, k);
    }
  }

  /** A position p after failure k of the stretch sees as many failures of it as lie before p. */
  lemma {:induction false} StretchBefore(calls: seq<Call>, ip: string, p: nat, k: nat, j: nat)
    requires k < |SinceReset(calls, ip)| && j < |SinceReset(calls, ip)|
    requires EndAt(calls, ip)[Base(calls, ip) + k] < p <= |calls|
    ensures SinceReset(calls[..p], ip) <= SinceReset(calls, ip)
    ensures j < |SinceReset(calls[..p], ip)| <==> EndAt(calls, ip)[Base(calls, ip) + j] < p
  {
    if p == |calls| {
      assert calls[..p] == calls;
    } else {
      var init := calls[..|calls| - 1];
      assert init[..p] == calls[..p];
      if j < |SinceReset(init, ip)| {
        StretchBefore(init, ip, p, k, j);
      } else {
        StretchBefore(init, ip, p, k, k);
      }
    }
  }

  lemma {:induction false} PrefixIsOrdered(calls: seq<Call>, p: nat)
    requires Ordered(calls) && p <= |calls|
    ensures Ordered(calls[..p]) && Clock(calls[..p]) <= Clock(calls)
  {
    if p == |calls| {
      assert calls[..p] == calls;
    } else {
      assert calls[..|calls| - 1][..p] == calls[..p];
      PrefixIsOrdered(calls[..|calls| - 1], p);
    }
  }

  /** An admitted check comes after the lockout of the last failure before it. */
  lemma CheckWaits(calls: seq<Call>, ip: string, i: nat)
    requires Ordered(calls) && Admits(calls, i, ip)
    ensures Open(SinceReset(calls[..i], ip), calls[i].now)
    ensures calls[i].now <= Clock(calls)
  {
    PrefixIsOrdered(calls, i);
    PrefixIsOrdered(calls, i + 1);
    assert calls[..i + 1][..i] == calls[..i];
    RunTracks(calls[..i], ip);
    LockoutIsCapped(Streak(SinceReset(calls[..i], ip)));
  }

  // ---------------------------------------------------------------- failures in a window

  /** Within a window the counter grows with every failure. */
  lemma {:induction false} StreakGrows(ts: seq<nat>, i: nat, k: nat)
    requires Ascending(ts) && i <= k < |ts| && ts[k] - ts[i] <= WINDOW
    ensures Streak(ts[..k + 1]) >= k - i + 1
  {
    if i == k {
    } else {
      assert ts[i] <= ts[k - 1] <= ts[k];
      StreakGrows(ts, i, k - 1);
      assert ts[..k + 1][..k] == ts[..k];
    }
  }

  lemma LockoutGrows(m: nat, n: nat)
    requires m <= n
    ensures Lockout(m) <= Lockout(n)
  {
    if m >= MAX_FAILS {
      DoubledGrows(LOCKOUT_BASE, if m - MAX_FAILS < 20 then m - MAX_FAILS else 20,
                   if n - MAX_FAILS < 20 then n - MAX_FAILS else 20);
    }
  }

  lemma {:induction false} ClockAt(calls: seq<Call>, i: nat)
    requires Ordered(calls) && i < |calls| && !calls[i].ResetCall?
    ensures calls[i].now <= Clock(calls)
  {
    if i == |calls| - 1 {
    } else {
      ClockAt(calls[..|calls| - 1], i);
    }
  }

  lemma ClocksAscend(calls: seq<Call>, i: nat, j: nat)
    requires Ordered(calls) && i < j < |calls| && !calls[i].ResetCall? && !calls[j].ResetCall?
    ensures calls[i].now <= calls[j].now
  {
    PrefixIsOrdered(calls, j + 1);
    ClockAt(calls[..j + 1], i);
  }

  /** The last failure of the stretch before an admitted check, and what the check waited for. */
  lemma LastBeforeCheck(calls: seq<Call>, ip: string, chk: seq<nat>, c: nat, n: nat, m: nat) returns (q: nat)
    requires Ordered(calls) && Logins(calls, ip, chk, c) && n < m < |SinceReset(calls, ip)|
    requires chk[Base(calls, ip) + m] > EndAt(calls, ip)[Base(calls, ip) + n]
    ensures n <= q < m
    ensures var ts := SinceReset(calls, ip); ts[q] + Lockout(Streak(ts[..q + 1])) <= ts[m]
  {
    var ts, i := SinceReset(calls, ip), chk[Base(calls, ip) + m];
    StretchBefore(calls, ip, i, n, n);
    StretchBefore(calls, ip, i, n, m);
    q := |SinceReset(calls[..i], ip)| - 1;
    assert SinceReset(calls[..i], ip) == ts[..q + 1];
    CheckWaits(calls, ip, i);
    StretchFailure(calls, ip, m);
    ClocksAscend(calls, i, EndAt(calls, ip)[Base(calls, ip) + m]);
  }

  /** Among a failure of the stretch and the c after it, one waited for a failure no earlier than the first. */
  lemma WaitsLater(calls: seq<Call>, ip: string, chk: seq<nat>, c: nat, n: nat) returns (q: nat, m: nat)
    requires Ordered(calls) && Logins(calls, ip, chk, c) && n + c < |SinceReset(calls, ip)|
    ensures n <= q < m <= n + c
    ensures var ts := SinceReset(calls, ip); ts[q] + Lockout(Streak(ts[..q + 1])) <= ts[m]
  {
    var later := CheckedLater(calls, ip, chk, c, Base(calls, ip) + n);
    m := later - Base(calls, ip);
    q := LastBeforeCheck(calls, ip, chk, c, n, m);
  }

  lemma GapFrom(ts: seq<nat>, c: nat, i: nat, n: nat, q: nat, m: nat)
    requires Ascending(ts) && i <= n <= q < m <= n + c < |ts| && ts[n + c] - ts[i] <= WINDOW
    requires ts[q] + Lockout(Streak(ts[..q + 1])) <= ts[m]
    ensures ts[n] + Lockout(n - i + 1) <= ts[n + c]
  {
    assert ts[n] <= ts[q] || n == q;
    assert ts[m] <= ts[n + c] || m == n + c;
    StreakGrows(ts, i, q);
    LockoutGrows(n - i + 1, Streak(ts[..q + 1]));
  }

  /** With at most c logins under way, the c-th failure of a stretch after failure n waits out the lockout
      that the failures since i have armed. */
  lemma GapAfter(calls: seq<Call>, ip: string, chk: seq<nat>, c: nat, i: nat, n: nat)
    requires Ordered(calls) && Logins(calls, ip, chk, c) && i <= n && n + c < |SinceReset(calls, ip)|
    requires SinceReset(calls, ip)[n + c] - SinceReset(calls, ip)[i] <= WINDOW
    ensures SinceReset(calls, ip)[n] + Lockout(n - i + 1) <= SinceReset(calls, ip)[n + c]
  {
    RunTracks(calls, ip);
    var q, m := WaitsLater(calls, ip, chk, c, n);
    GapFrom(SinceReset(calls, ip), c, i, n, q, m);
  }

  lemma SomeLogin(calls: seq<Call>, ip: string, chk: seq<nat>, c: nat)
    requires Logins(calls, ip, chk, c) && chk != []
    ensures c >= 1
  {
    assert chk[0..] == chk;
    AtLeastOne(chk, EndAt(calls, ip)[0]);
  }

  lemma {:induction false} AtLeastOne(positions: seq<nat>, p: nat)
    requires positions != [] && positions[0] < p
    ensures CountBefore(positions, p) >= 1
  {
    CountBeforeAll(positions, p, 1);
  }

  lemma FiveLockouts(t0: nat, t1: nat, t2: nat, t3: nat, t4: nat, t5: nat, c: nat)
    requires c >= 1
    requires t0 + Lockout(5) <= t1 && t1 + Lockout(5 + c) <= t2 && t2 + Lockout(5 + 2 * c) <= t3
    requires t3 + Lockout(5 + 3 * c) <= t4 && t4 + Lockout(5 + 4 * c) <= t5
    ensures t5 - t0 > WINDOW
  {
    FirstLockouts();
    LockoutGrows(6, 5 + c);
    LockoutGrows(7, 5 + 2 * c);
    LockoutGrows(8, 5 + 3 * c);
    LockoutGrows(9, 5 + 4 * c);
  }

  /** Within a window, the c-th failure after failure n waits out the lockout armed by the failures since i. */
  predicate Gap(ts: seq<nat>, c: nat, i: nat, n: nat)
    requires i <= n && n + c < |ts|
  {
    ts[n + c] - ts[i] <= WINDOW ==> ts[n] + Lockout(n - i + 1) <= ts[n + c]
  }

  ghost predicate Gaps(ts: seq<nat>, c: nat) {
    forall i, n | 0 <= i <= n < |ts| - c :: Gap(ts, c, i, n)
  }

  lemma LoginsHaveGaps(calls: seq<Call>, ip: string, chk: seq<nat>, c: nat)
    requires Ordered(calls) && Logins(calls, ip, chk, c)
    ensures Gaps(SinceReset(calls, ip), c)
  {
    var ts := SinceReset(calls, ip);
    forall i, n | 0 <= i <= n < |ts| - c
      ensures Gap(ts, c, i, n)
    {
      if ts[n + c] - ts[i] <= WINDOW { GapAfter(calls, ip, chk, c, i, n); }
    }
  }

  /** 4 + 5c + 1 failures never fit in one window: five lockouts, each waited out within c failures, alone
      exceed it. */
  lemma TooManyExceedWindow(ts: seq<nat>, c: nat, i: nat)
    requires Ascending(ts) && c >= 1 && Gaps(ts, c) && i + 4 + 5 * c < |ts|
    ensures ts[i + 4 + 5 * c] - ts[i] > WINDOW
  {
    var n, last := i + 4, i + 4 + 5 * c;
    assert ts[i] <= ts[n];
    if ts[last] - ts[i] <= WINDOW {
      assert Gap(ts, c, i, n) && Gap(ts, c, i, n + c) && Gap(ts, c, i, n + 2 * c) && Gap(ts, c, i, n + 3 * c)
             && Gap(ts, c, i, n + 4 * c);
      assert ts[n + c] <= ts[last] && ts[n + 2 * c] <= ts[last] && ts[n + 3 * c] <= ts[last]
             && ts[n + 4 * c] <= ts[last];
      FiveLockouts(ts[n], ts[n + c], ts[n + 2 * c], ts[n + 3 * c], ts[n + 4 * c], ts[last], c);
    }
  }

  /** How many of the times lie in the closed window that begins at w. */
  function InWindow(ts: seq<nat>, w: nat): nat {
    if ts == [] then 0
    else InWindow(ts[..|ts| - 1], w) + (if w <= ts[|ts| - 1] <= w + WINDOW then 1 else 0)
  }

  lemma {:induction false} InWindowSuffix(ts: seq<nat>, w: nat, a: nat)
    requires a <= |ts| && forall k :: 0 <= k < a ==> ts[k] < w
    ensures InWindow(ts, w) <= |ts| - a
  {
    if ts == [] {
    } else {
      if a == |ts| {
        InWindowSuffix(ts[..|ts| - 1], w, a - 1);
      } else {
        InWindowSuffix(ts[..|ts| - 1], w, a);
      }
    }
  }

  /** If no b + 1 times in a row fit in a window, no window holds more than b. */
  lemma {:induction false} AtMostInWindow(ts: seq<nat>, w: nat, b: nat)
    requires Ascending(ts) && forall i :: 0 <= i < |ts| - b ==> ts[i + b] - ts[i] > WINDOW
    ensures InWindow(ts, w) <= b
  {
    var n := |ts|;
    if n == 0 {
    } else {
      if w <= ts[n - 1] <= w + WINDOW {
        if n > b {
          assert ts[n - 1 - b + b] - ts[n - 1 - b] > WINDOW;
          InWindowSuffix(ts, w, n - b);
        } else {
          InWindowSuffix(ts, w, 0);
        }
      } else {
        var init := ts[..n - 1];
        forall i | 0 <= i < |init| - b
          ensures init[i + b] - init[i] > WINDOW
        {
          assert ts[i + b] - ts[i] > WINDOW;
        }
        AtMostInWindow(init, w, b);
      }
    }
  }

  /** Of the failures since the address last logged in, at most 4 + 5c fall in a window. */
  lemma StretchIsBounded(calls: seq<Call>, ip: string, chk: seq<nat>, c: nat, w: nat)
    requires Ordered(calls) && Logins(calls, ip, chk, c)
    ensures InWindow(SinceReset(calls, ip), w) <= 4 + 5 * c
  {
    var ts, b := SinceReset(calls, ip), 4 + 5 * c;
    RunTracks(calls, ip);
    StretchFits(calls, ip);
    LoginsHaveGaps(calls, ip, chk, c);
    if ts != [] { SomeLogin(calls, ip, chk, c); }
    forall i | 0 <= i < |ts| - b
      ensures ts[i + b] - ts[i] > WINDOW
    {
      TooManyExceedWindow(ts, c, i);
    }
    AtMostInWindow(ts, w, b);
  }

  // ---------------------------------------------------------------- successes in a window

  /** The successes of the address in the closed window that begins at w, by the latest clock reading before them. */
  function Successes(calls: seq<Call>, ip: string, w: nat): nat {
    if calls == [] then 0
    else
      var init := calls[..|calls| - 1];
      Successes(init, ip, w)
      + (if calls[|calls| - 1] == ResetCall(ip) && w <= Clock(init) <= w + WINDOW then 1 else 0)
  }

  /** The logins of a run, as far as they have ended before p. */
  lemma {:induction false} LoginsPrefix(calls: seq<Call>, ip: string, chk: seq<nat>, c: nat, p: nat)
    returns (chk': seq<nat>)
    requires Logins(calls, ip, chk, c) && p <= |calls|
    ensures Logins(calls[..p], ip, chk', c)
  {
    if p == |calls| {
      assert calls[..p] == calls;
      chk' := chk;
    } else {
      var init := calls[..|calls| - 1];
      chk' := chk[..|EndAt(init, ip)|];
      LoginsInit(calls, ip, chk, c);
      chk' := LoginsPrefix(init, ip, chk', c, p);
      assert init[..p] == calls[..p];
    }
  }

  lemma {:induction false} CountBeforeConcat(a: seq<nat>, b: seq<nat>, p: nat)
    ensures CountBefore(a + b, p) == CountBefore(a, p) + CountBefore(b, p)
  {
    if b == [] {
      assert a + b == a;
    } else {
      CountBeforeConcat(a, b[..|b| - 1], p);
      assert (a + b)[..|a + b| - 1] == a + b[..|b| - 1];
    }
  }

  lemma LoginsInit(calls: seq<Call>, ip: string, chk: seq<nat>, c: nat)
    requires Logins(calls, ip, chk, c) && calls != []
    ensures var init := calls[..|calls| - 1]; Logins(init, ip, chk[..|EndAt(init, ip)|], c)
  {
    var init := calls[..|calls| - 1];
    var pos := EndAt(init, ip);
    PairedPrefix(EndAt(calls, ip), chk, c, |pos|);
    assert EndAt(calls, ip)[..|pos|] == pos;
    forall n | 0 <= n < |pos|
      ensures Admits(init, chk[n], ip)
    {
      assert Admits(calls, chk[n], ip);
      assert init[..chk[n]] == calls[..chk[n]];
    }
  }

  lemma PairedPrefix(pos: seq<nat>, chk: seq<nat>, c: nat, k: nat)
    requires Paired(pos, chk, c) && k <= |pos|
    ensures Paired(pos[..k], chk[..k], c)
  {
    forall n | 0 <= n < k
      ensures CountBefore(chk[..k][n..], pos[n]) <= c
    {
      assert chk[n..] == chk[..k][n..] + chk[k..];
      CountBeforeConcat(chk[..k][n..], chk[k..], pos[n]);
    }
  }

  lemma {:induction false} FailuresSoFar(calls: seq<Call>, ip: string, w: nat)
    requires Ordered(calls)
    ensures Clock(calls) < w ==> InWindow(FailTimes(calls, ip), w) == 0
  {
    if calls == [] {
    } else {
      var init, c := calls[..|calls| - 1], calls[|calls| - 1];
      FailuresSoFar(init, ip, w);
      CountOneMore(init, c, ip, w);
    }
  }

  /** What one more call adds to the counts in a window. */
  lemma CountOneMore(init: seq<Call>, c: Call, ip: string, w: nat)
    ensures var calls, counts := init + [c], c.FailCall? && c.ip == ip && w <= c.now <= w + WINDOW;
            && InWindow(FailTimes(calls, ip), w) == InWindow(FailTimes(init, ip), w) + (if counts then 1 else 0)
            && InWindow(SinceReset(calls, ip), w)
               == if c == ResetCall(ip) then 0 else InWindow(SinceReset(init, ip), w) + (if counts then 1 else 0)
  {
    assert (init + [c])[..|init|] == init;
    var ts, since := FailTimes(init, ip), SinceReset(init, ip);
    if c.FailCall? && c.ip == ip {
      assert (ts + [c.now])[..|ts|] == ts && (since + [c.now])[..|since|] == since;
    } else {
      assert ts + [] == ts && since + [] == since;
    }
  }

  /** No stretch of the run between two successes puts more than b failures into the window. */
  ghost predicate StretchesBounded(calls: seq<Call>, ip: string, w: nat, b: nat) {
    forall p :: 0 <= p <= |calls| ==> InWindow(SinceReset(calls[..p], ip), w) <= b
  }

  lemma StretchesBoundedInit(calls: seq<Call>, ip: string, w: nat, b: nat)
    requires calls != [] && StretchesBounded(calls, ip, w, b)
    ensures StretchesBounded(calls[..|calls| - 1], ip, w, b)
    ensures InWindow(SinceReset(calls[..|calls| - 1], ip), w) <= b && InWindow(SinceReset(calls, ip), w) <= b
  {
    var init := calls[..|calls| - 1];
    assert calls[..|calls|] == calls;
    forall p | 0 <= p <= |init|
      ensures InWindow(SinceReset(init[..p], ip), w) <= b
    {
      assert init[..p] == calls[..p];
    }
  }

  /** As long as the window lasts, each success in it closes a stretch of at most b failures. */
  lemma {:induction false} ClosedStretches(calls: seq<Call>, ip: string, w: nat, b: nat)
    requires Ordered(calls) && Clock(calls) <= w + WINDOW && StretchesBounded(calls, ip, w, b)
    ensures InWindow(FailTimes(calls, ip), w) <= Successes(calls, ip, w) * b + InWindow(SinceReset(calls, ip), w)
  {
    if calls == [] {
    } else {
      var init, c := calls[..|calls| - 1], calls[|calls| - 1];
      assert init + [c] == calls;
      StretchesBoundedInit(calls, ip, w, b);
      ClosedStretches(init, ip, w, b);
      CountOneMore(init, c, ip, w);
      FailuresSoFar(init, ip, w);
      OneMoreTimes(Successes(init, ip, w), b);
    }
  }

  lemma OneMoreTimes(n: nat, b: nat)
    ensures (n + 1) * b == n * b + b
  {
  }

  lemma {:induction false} StretchesAddUp(calls: seq<Call>, ip: string, w: nat, b: nat)
    requires Ordered(calls) && StretchesBounded(calls, ip, w, b)
    ensures InWindow(FailTimes(calls, ip), w) <= (Successes(calls, ip, w) + 1) * b
  {
    if Clock(calls) <= w + WINDOW {
      ClosedStretches(calls, ip, w, b);
      assert calls[..|calls|] == calls;
      OneMoreTimes(Successes(calls, ip, w), b);
    } else {
      var init, c := calls[..|calls| - 1], calls[|calls| - 1];
      assert init + [c] == calls;
      StretchesBoundedInit(calls, ip, w, b);
      StretchesAddUp(init, ip, w, b);
      CountOneMore(init, c, ip, w);
      assert Successes(calls, ip, w) == Successes(init, ip, w);
    }
  }

  /** With at most c logins of an address under way at once, and r successes of it in a closed
      fifteen-minute window, at most (r + 1)(4 + 5c) failures of it fall in that window, whatever it did
      before and whatever other addresses do. */
  lemma OverlappingLoginsAreBounded(calls: seq<Call>, ip: string, chk: seq<nat>, c: nat, w: nat)
    requires Ordered(calls) && Logins(calls, ip, chk, c)
    ensures InWindow(FailTimes(calls, ip), w) <= (Successes(calls, ip, w) + 1) * (4 + 5 * c)
  {
    forall p | 0 <= p <= |calls|
      ensures InWindow(SinceReset(calls[..p], ip), w) <= 4 + 5 * c
    {
      var chk' := LoginsPrefix(calls, ip, chk, c, p);
      PrefixIsOrdered(calls, p);
      StretchIsBounded(calls[..p], ip, chk', c, w);
    }
    StretchesAddUp(calls, ip, w, 4 + 5 * c);
  }

  /** Logins of an address that do not overlap record at most nine failures in any window in which none of
      them succeeds. */
  lemma AtMostNineFailuresPerWindow(calls: seq<Call>, ip: string, chk: seq<nat>, w: nat)
    requires Ordered(calls) && Logins(calls, ip, chk, 1) && Successes(calls, ip, w) == 0
    ensures InWindow(FailTimes(calls, ip), w) <= 9
  {
    OverlappingLoginsAreBounded(calls, ip, chk, 1, w);
  }

  // ---------------------------------------------------------------- one login at a time

  /** Without a failure in between, the stretch stays as it is or starts anew. */
  lemma {:induction false} SameFailures(calls: seq<Call>, ip: string, i: nat, j: nat)
    requires i <= j <= |calls| && forall k :: i <= k < j ==> !(calls[k].FailCall? && calls[k].ip == ip)
    ensures SinceReset(calls[..j], ip) == SinceReset(calls[..i], ip) || SinceReset(calls[..j], ip) == []
  {
    if i == j {
    } else {
      SameFailures(calls, ip, i, j - 1);
      assert calls[..j][..j - 1] == calls[..j - 1];
    }
  }

  /** A check answered 0 still admits a failure later, whatever calls come in between, as long as none of
      them is a failure of the same address. */
  lemma CheckAdmitsLaterFailure(calls: seq<Call>, ip: string, i: nat, j: nat, now: nat)
    requires Ordered(calls) && Admits(calls, i, ip)
    requires i < j <= |calls| && forall k :: i <= k < j ==> !(calls[k].FailCall? && calls[k].ip == ip)
    requires Clock(calls[..j]) <= now
    ensures Wait(After(calls[..j], true), ip, now) == 0
  {
    PrefixIsOrdered(calls, j);
    RunTracks(calls[..j], ip);
    SameFailures(calls, ip, i, j);
    CheckWaits(calls, ip, i);
    ClockAt(calls[..j], i);
  }

  /** Every failure is recorded in a state in which retryAfter would answer 0. */
  ghost predicate Gated(calls: seq<Call>, ip: string) {
    forall j :: 0 <= j < |calls| && calls[j].FailCall? && calls[j].ip == ip ==>
      Wait(After(calls[..j], true), ip, calls[j].now) == 0
  }

  lemma SequentialFailureIsGated(calls: seq<Call>, ip: string, chk: seq<nat>, n: nat)
    requires Ordered(calls) && Logins(calls, ip, chk, 1) && n < |chk| && calls[EndAt(calls, ip)[n]].FailCall?
    ensures var j := EndAt(calls, ip)[n]; Wait(After(calls[..j], true), ip, calls[j].now) == 0
  {
    var j := EndAt(calls, ip)[n];
    NoneBetween(calls, ip, chk, n);
    PrefixIsOrdered(calls, j + 1);
    assert calls[..j + 1][..j] == calls[..j];
    assert Admits(calls, chk[n], ip);
    CheckAdmitsLaterFailure(calls, ip, chk[n], j, calls[j].now);
  }

  /** When the logins of an address do not overlap, what the check saw is still so when the failure is recorded. */
  lemma SequentialLoginsAreGated(calls: seq<Call>, ip: string, chk: seq<nat>)
    requires Ordered(calls) && Logins(calls, ip, chk, 1)
    ensures Gated(calls, ip)
  {
    forall j | 0 <= j < |calls| && calls[j].FailCall? && calls[j].ip == ip
      ensures Wait(After(calls[..j], true), ip, calls[j].now) == 0
    {
      var n := WhichEnd(calls, ip, j);
      SequentialFailureIsGated(calls, ip, chk, n);
    }
  }

  lemma {:induction false} WhichEnd(calls: seq<Call>, ip: string, j: nat) returns (n: nat)
    requires j < |calls| && Ends(calls[j], ip)
    ensures n < |EndAt(calls, ip)| && EndAt(calls, ip)[n] == j
  {
    if j == |calls| - 1 {
      n := |EndAt(calls, ip)| - 1;
    } else {
      n := WhichEnd(calls[..|calls| - 1], ip, j);
    }
  }

  lemma NoneBetween(calls: seq<Call>, ip: string, chk: seq<nat>, n: nat)
    requires Logins(calls, ip, chk, 1) && n < |chk|
    ensures forall k :: chk[n] <= k < EndAt(calls, ip)[n] ==> !Ends(calls[k], ip)
  {
    var pos := EndAt(calls, ip);
    forall k | chk[n] <= k < pos[n] && Ends(calls[k], ip)
      ensures false
    {
      var m := WhichEnd(calls, ip, k);
      EndAtAscends(calls, ip);
      assert chk[n] != k by { assert Admits(calls, chk[n], ip); }
      assert m < n;
      CountBeforeTwo(chk[m..], pos[m], n - m);
    }
  }

  lemma {:induction false} CountBeforeTwo(positions: seq<nat>, p: nat, k: nat)
    requires 0 < k < |positions| && positions[0] < p && positions[k] < p
    ensures CountBefore(positions, p) >= 2
  {
    if k == |positions| - 1 {
      AtLeastOne(positions[..k], p);
    } else {
      CountBeforeTwo(positions[..|positions| - 1], p, k);
    }
  }

  /** Every failure waits out the lockout armed by the one before. */
  ghost predicate Spaced(ts: seq<nat>) {
    forall n :: 0 <= n < |ts| - 1 ==> ts[n] + Lockout(Streak(ts[..n + 1])) <= ts[n + 1]
  }

  lemma NextFailureWaits(calls: seq<Call>, ip: string, chk: seq<nat>, n: nat)
    requires Ordered(calls) && Logins(calls, ip, chk, 1) && n + 1 < |SinceReset(calls, ip)|
    ensures var ts := SinceReset(calls, ip); ts[n] + Lockout(Streak(ts[..n + 1])) <= ts[n + 1]
  {
    var q, m := WaitsLater(calls, ip, chk, 1, n);
    assert q == n && m == n + 1;
  }

  lemma StretchIsSpaced(calls: seq<Call>, ip: string, chk: seq<nat>)
    requires Ordered(calls) && Logins(calls, ip, chk, 1)
    ensures Spaced(SinceReset(calls, ip))
  {
    var ts := SinceReset(calls, ip);
    forall n | 0 <= n < |ts| - 1
      ensures ts[n] + Lockout(Streak(ts[..n + 1])) <= ts[n + 1]
    {
      NextFailureWaits(calls, ip, chk, n);
    }
  }

  /** At any point of a run of logins that do not overlap, the failures since the last success are spaced
      by the lockouts. */
  lemma SequentialRunIsSpaced(calls: seq<Call>, ip: string, chk: seq<nat>, p: nat)
    requires Ordered(calls) && Logins(calls, ip, chk, 1) && p <= |calls|
    ensures Spaced(SinceReset(calls[..p], ip))
  {
    var chk' := LoginsPrefix(calls, ip, chk, 1, p);
    PrefixIsOrdered(calls, p);
    StretchIsSpaced(calls[..p], ip, chk');
  }

  // ---------------------------------------------------------------- runs that reach the bounds

  function Checks(ip: string, t: nat, k: nat): (r: seq<Call>)
    ensures |r| == k
  {
    if k == 0 then [] else Checks(ip, t, k - 1) + [RetryAfterCall(ip, t)]
  }

  function Fails(ip: string, t: nat, k: nat): (r: seq<Call>)
    ensures |r| == k
  {
    if k == 0 then [] else Fails(ip, t, k - 1) + [FailCall(ip, t)]
  }

  function Repeated(t: nat, k: nat): (r: seq<nat>)
    ensures |r| == k
  {
    if k == 0 then [] else Repeated(t, k - 1) + [t]
  }

  /** from, from + 1, ... k numbers. */
  function Range(from: nat, k: nat): (r: seq<nat>)
    ensures |r| == k && forall d :: 0 <= d < k ==> r[d] == from + d
  {
    if k == 0 then [] else Range(from, k - 1) + [from + k - 1]
  }

  /** calls' is calls and some checks, the last readings of the clock being t. */
  ghost predicate Checked(calls: seq<Call>, calls': seq<Call>, ip: string, t: nat) {
    && Ordered(calls') && Clock(calls') <= t
    && FailTimes(calls', ip) == FailTimes(calls, ip) && SinceReset(calls', ip) == SinceReset(calls, ip)
    && EndAt(calls', ip) == EndAt(calls, ip)
    && forall w: nat :: Successes(calls', ip, w) == Successes(calls, ip, w)
  }

  lemma OneMoreCheck(calls: seq<Call>, ip: string, t: nat)
    requires Ordered(calls) && Clock(calls) <= t
    ensures Checked(calls, calls + [RetryAfterCall(ip, t)], ip, t)
  {
    assert (calls + [RetryAfterCall(ip, t)])[..|calls|] == calls;
  }

  lemma OpenAdmits(calls: seq<Call>, ip: string, t: nat)
    requires Ordered(calls) && Clock(calls) <= t && Open(SinceReset(calls, ip), t)
    ensures Admits(calls + [RetryAfterCall(ip, t)], |calls|, ip)
  {
    RunTracks(calls, ip);
    assert (calls + [RetryAfterCall(ip, t)])[..|calls|] == calls;
  }

  lemma NextCheck(calls: seq<Call>, ip: string, t: nat, k: nat)
    requires k > 0
    ensures calls + Checks(ip, t, k) == calls + Checks(ip, t, k - 1) + [RetryAfterCall(ip, t)]
  {
  }

  lemma {:induction false} ChecksAppended(calls: seq<Call>, ip: string, t: nat, k: nat)
    requires Ordered(calls) && Clock(calls) <= t
    ensures Checked(calls, calls + Checks(ip, t, k), ip, t)
  {
    if k == 0 {
      assert calls + Checks(ip, t, k) == calls;
    } else {
      ChecksAppended(calls, ip, t, k - 1);
      OneMoreCheck(calls + Checks(ip, t, k - 1), ip, t);
      NextCheck(calls, ip, t, k);
    }
  }

  lemma AdmitsStays(calls: seq<Call>, more: seq<Call>, i: nat, ip: string)
    requires Admits(calls, i, ip)
    ensures Admits(calls + more, i, ip)
  {
    assert (calls + more)[..i] == calls[..i];
  }

  lemma AllAdmitStays(calls: seq<Call>, more: seq<Call>, chk: seq<nat>, ip: string)
    requires AllAdmit(calls, ip, chk)
    ensures AllAdmit(calls + more, ip, chk)
  {
    forall n | 0 <= n < |chk|
      ensures Admits(calls + more, chk[n], ip)
    {
      AdmitsStays(calls, more, chk[n], ip);
    }
  }

  lemma AllAdmitConcat(calls: seq<Call>, ip: string, a: seq<nat>, b: seq<nat>)
    requires AllAdmit(calls, ip, a) && AllAdmit(calls, ip, b)
    ensures AllAdmit(calls, ip, a + b)
  {
  }

  lemma {:induction false} ChecksOpen(calls: seq<Call>, ip: string, t: nat, k: nat)
    requires Ordered(calls) && Clock(calls) <= t && Open(SinceReset(calls, ip), t)
    ensures AllAdmit(calls + Checks(ip, t, k), ip, Range(|calls|, k))
  {
    if k == 0 {
    } else {
      var before := calls + Checks(ip, t, k - 1);
      ChecksAppended(calls, ip, t, k - 1);
      ChecksOpen(calls, ip, t, k - 1);
      AllAdmitStays(before, [RetryAfterCall(ip, t)], Range(|calls|, k - 1), ip);
      OpenAdmits(before, ip, t);
      AllAdmitConcat(before + [RetryAfterCall(ip, t)], ip, Range(|calls|, k - 1), [|calls| + k - 1]);
      NextCheck(calls, ip, t, k);
    }
  }

  lemma NextFail(calls: seq<Call>, ip: string, t: nat, k: nat)
    requires k > 0
    ensures calls + Fails(ip, t, k) == calls + Fails(ip, t, k - 1) + [FailCall(ip, t)]
  {
  }

  /** calls' is calls and k failures at t. */
  ghost predicate Burst(calls: seq<Call>, calls': seq<Call>, ip: string, t: nat, k: nat) {
    && |calls'| == |calls| + k
    && Ordered(calls') && Clock(calls') <= t
    && FailTimes(calls', ip) == FailTimes(calls, ip) + Repeated(t, k)
    && SinceReset(calls', ip) == SinceReset(calls, ip) + Repeated(t, k)
    && EndAt(calls', ip) == EndAt(calls, ip) + Range(|calls|, k)
    && forall w: nat :: Successes(calls', ip, w) == Successes(calls, ip, w)
  }

  lemma OneMoreFail(calls: seq<Call>, ip: string, t: nat)
    requires Ordered(calls) && Clock(calls) <= t
    ensures var calls' := calls + [FailCall(ip, t)];
            && Ordered(calls') && Clock(calls') <= t
            && FailTimes(calls', ip) == FailTimes(calls, ip) + [t]
            && SinceReset(calls', ip) == SinceReset(calls, ip) + [t]
            && EndAt(calls', ip) == EndAt(calls, ip) + [|calls|]
            && forall w: nat :: Successes(calls', ip, w) == Successes(calls, ip, w)
  {
    assert (calls + [FailCall(ip, t)])[..|calls|] == calls;
  }

  lemma BurstGrows(calls: seq<Call>, before: seq<Call>, ip: string, t: nat, k: nat)
    requires k > 0 && Burst(calls, before, ip, t, k - 1)
    ensures Burst(calls, before + [FailCall(ip, t)], ip, t, k)
  {
    OneMoreFail(before, ip, t);
    Associate(FailTimes(calls, ip), Repeated(t, k - 1), [t]);
    Associate(SinceReset(calls, ip), Repeated(t, k - 1), [t]);
    Associate(EndAt(calls, ip), Range(|calls|, k - 1), [|calls| + k - 1]);
  }

  lemma {:induction false} FailsAppended(calls: seq<Call>, ip: string, t: nat, k: nat)
    requires Ordered(calls) && Clock(calls) <= t
    ensures Burst(calls, calls + Fails(ip, t, k), ip, t, k)
  {
    if k == 0 {
      assert calls + Fails(ip, t, k) == calls;
      assert FailTimes(calls, ip) + Repeated(t, k) == FailTimes(calls, ip);
      assert SinceReset(calls, ip) + Repeated(t, k) == SinceReset(calls, ip);
      assert EndAt(calls, ip) + Range(|calls|, k) == EndAt(calls, ip);
    } else {
      FailsAppended(calls, ip, t, k - 1);
      BurstGrows(calls, calls + Fails(ip, t, k - 1), ip, t, k);
      NextFail(calls, ip, t, k);
    }
  }

  lemma {:induction false} CountBeforeBounds(a: seq<nat>, p: nat)
    ensures CountBefore(a, p) <= |a|
    ensures (forall k :: 0 <= k < |a| ==> a[k] >= p) ==> CountBefore(a, p) == 0
  {
    if a == [] {
    } else {
      CountBeforeBounds(a[..|a| - 1], p);
    }
  }

  /** A round of k logins: all are checked at t, then all fail at t. */
  function Round(calls: seq<Call>, ip: string, t: nat, k: nat): seq<Call> {
    calls + Checks(ip, t, k) + Fails(ip, t, k)
  }

  lemma RoundOverlaps(pos: seq<nat>, chk: seq<nat>, from: nat, k: nat, c: nat, n: nat)
    requires Paired(pos, chk, c) && k <= c && n < |pos| + k
    requires forall m :: 0 <= m < |pos| ==> pos[m] < from
    ensures CountBefore((chk + Range(from, k))[n..], (pos + Range(from + k, k))[n]) <= c
  {
    var added := Range(from, k);
    if n < |pos| {
      assert (chk + added)[n..] == chk[n..] + added;
      CountBeforeConcat(chk[n..], added, pos[n]);
      CountBeforeBounds(added, pos[n]);
    } else {
      CountBeforeBounds((chk + added)[n..], (pos + Range(from + k, k))[n]);
    }
  }

  lemma RoundIsPaired(pos: seq<nat>, chk: seq<nat>, from: nat, k: nat, c: nat, pos': seq<nat>, chk': seq<nat>)
    requires Paired(pos, chk, c) && k <= c && forall m :: 0 <= m < |pos| ==> pos[m] < from
    requires pos' == pos + Range(from + k, k) && chk' == chk + Range(from, k)
    ensures Paired(pos', chk', c)
  {
    forall n | 0 <= n < |pos| + k
      ensures CountBefore((chk + Range(from, k))[n..], (pos + Range(from + k, k))[n]) <= c
    {
      RoundOverlaps(pos, chk, from, k, c, n);
    }
  }

  /** k logins checked at t end together, by failing or, if there is one only, perhaps by succeeding. */
  lemma RoundIsLogins(calls: seq<Call>, ip: string, chk: seq<nat>, c: nat, t: nat, k: nat, more: seq<Call>)
    requires Ordered(calls) && Logins(calls, ip, chk, c) && Clock(calls) <= t && k <= c
    requires Open(SinceReset(calls, ip), t)
    requires EndAt(calls + Checks(ip, t, k) + more, ip) == EndAt(calls, ip) + Range(|calls| + k, k)
    ensures Logins(calls + Checks(ip, t, k) + more, ip, chk + Range(|calls|, k), c)
  {
    var chk', pos := chk + Range(|calls|, k), EndAt(calls, ip);
    RoundIsPaired(pos, chk, |calls|, k, c, pos + Range(|calls| + k, k), chk');
    AllAdmitStays(calls, Checks(ip, t, k), chk, ip);
    ChecksOpen(calls, ip, t, k);
    AllAdmitConcat(calls + Checks(ip, t, k), ip, chk, Range(|calls|, k));
    AllAdmitStays(calls + Checks(ip, t, k), more, chk', ip);
  }

  lemma RoundAppended(calls: seq<Call>, ip: string, t: nat, k: nat)
    requires Ordered(calls) && Clock(calls) <= t
    ensures var calls' := Round(calls, ip, t, k);
            && Ordered(calls') && Clock(calls') <= t
            && FailTimes(calls', ip) == FailTimes(calls, ip) + Repeated(t, k)
            && SinceReset(calls', ip) == SinceReset(calls, ip) + Repeated(t, k)
            && EndAt(calls', ip) == EndAt(calls, ip) + Range(|calls| + k, k)
            && forall w: nat :: Successes(calls', ip, w) == Successes(calls, ip, w)
  {
    ChecksAppended(calls, ip, t, k);
    FailsAppended(calls + Checks(ip, t, k), ip, t, k);
  }

  /** A login that is checked at t and succeeds. */
  function Success(calls: seq<Call>, ip: string, t: nat): seq<Call> {
    calls + Checks(ip, t, 1) + [ResetCall(ip)]
  }

  lemma SuccessAppended(calls: seq<Call>, ip: string, t: nat)
    requires Ordered(calls) && Clock(calls) <= t
    ensures var calls' := Success(calls, ip, t);
            && Ordered(calls') && Clock(calls') == t
            && FailTimes(calls', ip) == FailTimes(calls, ip) && SinceReset(calls', ip) == []
            && EndAt(calls', ip) == EndAt(calls, ip) + Range(|calls| + 1, 1)
            && forall w: nat :: Successes(calls', ip, w)
                                == Successes(calls, ip, w) + if w <= t <= w + WINDOW then 1 else 0
  {
    var checked := calls + Checks(ip, t, 1);
    ChecksAppended(calls, ip, t, 1);
    assert Checks(ip, t, 1) == [RetryAfterCall(ip, t)];
    assert (checked + [ResetCall(ip)])[..|checked|] == checked;
    assert Range(|calls| + 1, 1) == [|calls| + 1];
  }

  lemma NoLogins(ip: string, c: nat)
    ensures Ordered([]) && Logins([], ip, [], c)
  {
  }

  lemma {:induction false} RepeatedInWindow(ts: seq<nat>, t: nat, k: nat, w: nat)
    requires w <= t <= w + WINDOW
    ensures InWindow(ts + Repeated(t, k), w) == InWindow(ts, w) + k
  {
    if k == 0 {
      assert ts + Repeated(t, k) == ts;
    } else {
      RepeatedInWindow(ts, t, k - 1, w);
      var before := ts + Repeated(t, k - 1);
      assert ts + Repeated(t, k) == before + [t];
      assert (before + [t])[..|before|] == before;
    }
  }

  lemma {:induction false} RepeatedStreak(ts: seq<nat>, t: nat, k: nat)
    requires k > 0 && (ts != [] ==> ts[|ts| - 1] <= t <= ts[|ts| - 1] + WINDOW)
    ensures Streak(ts + Repeated(t, k)) == Streak(ts) + k
  {
    var all := ts + Repeated(t, k);
    assert all[..|all| - 1] == ts + Repeated(t, k - 1);
    if k == 1 {
      assert ts + Repeated(t, 0) == ts;
    } else {
      RepeatedStreak(ts, t, k - 1);
    }
  }

  /** Logins that all pass their checks before any of them fails have no bound: for every m there is a run
      of m overlapping logins that puts m failures into one window. */
  lemma BurstHasNoBound(ip: string, t: nat, m: nat) returns (calls: seq<Call>, chk: seq<nat>)
    ensures Ordered(calls) && Logins(calls, ip, chk, m)
    ensures InWindow(FailTimes(calls, ip), t) == m && Successes(calls, ip, t) == 0
  {
    NoLogins(ip, m);
    RoundAppended([], ip, t, m);
    RoundIsLogins([], ip, [], m, t, m, Fails(ip, t, m));
    calls, chk := Round([], ip, t, m), [] + Range(0, m);
    RepeatedInWindow([], t, m, t);
  }

  /** A run that stays inside one window, as far as it has got: so many failures and successes, and n
      failures since the last success, the last of them at t. */
  ghost predicate Filling(calls: seq<Call>, ip: string, chk: seq<nat>, c: nat, w: nat, t: nat, fails: nat,
                          successes: nat, n: nat)
  {
    var ts := SinceReset(calls, ip);
    && Ordered(calls) && Logins(calls, ip, chk, c) && Clock(calls) <= t
    && InWindow(FailTimes(calls, ip), w) == fails && Successes(calls, ip, w) == successes
    && Streak(ts) == n && (ts != [] ==> ts[|ts| - 1] == t)
  }

  lemma FillRound(calls: seq<Call>, ip: string, chk: seq<nat>, c: nat, w: nat, t: nat, fails: nat, r: nat, n: nat,
                  t': nat, k: nat)
    returns (calls': seq<Call>, chk': seq<nat>)
    requires Filling(calls, ip, chk, c, w, t, fails, r, n) && 0 < k <= c && w <= t <= t' <= w + WINDOW
    requires t + Lockout(n) <= t'
    ensures Filling(calls', ip, chk', c, w, t', fails + k, r, n + k)
  {
    RoundAppended(calls, ip, t', k);
    RoundIsLogins(calls, ip, chk, c, t', k, Fails(ip, t', k));
    RepeatedInWindow(FailTimes(calls, ip), t', k, w);
    RepeatedStreak(SinceReset(calls, ip), t', k);
    calls', chk' := Round(calls, ip, t', k), chk + Range(|calls|, k);
  }

  lemma FillSuccess(calls: seq<Call>, ip: string, chk: seq<nat>, c: nat, w: nat, t: nat, fails: nat, r: nat, n: nat)
    returns (calls': seq<Call>, chk': seq<nat>)
    requires Filling(calls, ip, chk, c, w, t, fails, r, n) && 1 <= c && w <= t <= w + WINDOW && Lockout(n) == 0
    ensures Filling(calls', ip, chk', c, w, t, fails, r + 1, 0)
  {
    SuccessAppended(calls, ip, t);
    RoundIsLogins(calls, ip, chk, c, t, 1, [ResetCall(ip)]);
    calls', chk' := Success(calls, ip, t), chk + Range(|calls|, 1);
  }

  lemma FourFreeFailures(calls: seq<Call>, ip: string, chk: seq<nat>, c: nat, t: nat, fails: nat, r: nat)
    returns (calls': seq<Call>, chk': seq<nat>)
    requires c >= 1 && Filling(calls, ip, chk, c, t, t, fails, r, 0)
    ensures Filling(calls', ip, chk', c, t, t, fails + 4, r, 4)
  {
    calls', chk' := FillRound(calls, ip, chk, c, t, t, fails, r, 0, t, 1);
    calls', chk' := FillRound(calls', ip, chk', c, t, t, fails + 1, r, 1, t, 1);
    calls', chk' := FillRound(calls', ip, chk', c, t, t, fails + 2, r, 2, t, 1);
    calls', chk' := FillRound(calls', ip, chk', c, t, t, fails + 3, r, 3, t, 1);
  }

  lemma FirstFour(ip: string, c: nat, t: nat) returns (calls: seq<Call>, chk: seq<nat>)
    requires c >= 1
    ensures Filling(calls, ip, chk, c, t, t, 4, 0, 4)
  {
    NoLogins(ip, c);
    calls, chk := FourFreeFailures([], ip, [], c, t, 0, 0);
  }

  /** The bound of nine is met: from any time on, logins that do not overlap can record nine failures. */
  lemma NineFailuresArePossible(ip: string, t: nat) returns (calls: seq<Call>, chk: seq<nat>)
    ensures Ordered(calls) && Logins(calls, ip, chk, 1)
    ensures InWindow(FailTimes(calls, ip), t) == 9 && Successes(calls, ip, t) == 0
  {
    FirstLockouts();
    calls, chk := FirstFour(ip, 1, t);
    calls, chk := FillRound(calls, ip, chk, 1, t, t, 4, 0, 4, t, 1);
    calls, chk := FillRound(calls, ip, chk, 1, t, t, 5, 0, 5, t + 30 * SECOND, 1);
    calls, chk := FillRound(calls, ip, chk, 1, t, t + 30 * SECOND, 6, 0, 6, t + 90 * SECOND, 1);
    calls, chk := FillRound(calls, ip, chk, 1, t, t + 90 * SECOND, 7, 0, 7, t + 210 * SECOND, 1);
    calls, chk := FillRound(calls, ip, chk, 1, t, t + 210 * SECOND, 8, 0, 8, t + 450 * SECOND, 1);
  }

  /** With two logins under way at once there can be ten. */
  lemma TenFailuresWithOverlap(ip: string, c: nat, t: nat) returns (calls: seq<Call>, chk: seq<nat>)
    requires c >= 2
    ensures Ordered(calls) && Logins(calls, ip, chk, c)
    ensures InWindow(FailTimes(calls, ip), t) == 10 && Successes(calls, ip, t) == 0
  {
    FirstLockouts();
    calls, chk := FirstFour(ip, c, t);
    calls, chk := FillRound(calls, ip, chk, c, t, t, 4, 0, 4, t, 2);
    calls, chk := FillRound(calls, ip, chk, c, t, t, 6, 0, 6, t + 60 * SECOND, 2);
    calls, chk := FillRound(calls, ip, chk, c, t, t + 60 * SECOND, 8, 0, 8, t + 300 * SECOND, 2);
  }

  /** With a success in the window there can be ten, although no logins overlap. */
  lemma TenFailuresWithSuccess(ip: string, c: nat, t: nat) returns (calls: seq<Call>, chk: seq<nat>)
    requires c >= 1
    ensures Ordered(calls) && Logins(calls, ip, chk, c)
    ensures InWindow(FailTimes(calls, ip), t) == 10 && Successes(calls, ip, t) == 1
  {
    FirstLockouts();
    calls, chk := FirstFour(ip, c, t);
    calls, chk := FillSuccess(calls, ip, chk, c, t, t, 4, 0, 4);
    calls, chk := FourFreeFailures(calls, ip, chk, c, t, 4, 1);
    calls, chk := FillRound(calls, ip, chk, c, t, t, 8, 1, 4, t, 1);
    calls, chk := FillRound(calls, ip, chk, c, t, t, 9, 1, 5, t + 30 * SECOND, 1);
  }

  /** Logins that do not overlap have no bound either, if every fourth failure is followed by a success:
      for every m there is a run with m successes and 4m failures at one instant. */
  lemma {:induction false} SuccessesHaveNoBound(ip: string, t: nat, m: nat) returns (calls: seq<Call>, chk: seq<nat>)
    ensures Ordered(calls) && Logins(calls, ip, chk, 1) && Filling(calls, ip, chk, 1, t, t, 4 * m, m, 0)
    ensures InWindow(FailTimes(calls, ip), t) == 4 * m && Successes(calls, ip, t) == m
  {
    if m == 0 {
      NoLogins(ip, 1);
      calls, chk := [], [];
    } else {
      calls, chk := SuccessesHaveNoBound(ip, t, m - 1);
      calls, chk := FourFreeFailures(calls, ip, chk, 1, t, 4 * (m - 1), m - 1);
      calls, chk := FillSuccess(calls, ip, chk, 1, t, t, 4 * m, m - 1, 4);
    }
  }

  // ---------------------------------------------------------------- the exact condition

  lemma {:induction false} FailuresAreEnds(calls: seq<Call>, ip: string)
    ensures |FailTimes(calls, ip)| <= |EndAt(calls, ip)|
  {
    if calls == [] {
    } else {
      FailuresAreEnds(calls[..|calls| - 1], ip);
    }
  }

  lemma NoLoginNoFailure(calls: seq<Call>, ip: string, chk: seq<nat>, w: nat)
    requires Logins(calls, ip, chk, 0)
    ensures InWindow(FailTimes(calls, ip), w) == 0
  {
    if chk != [] { SomeLogin(calls, ip, chk, 0); }
    FailuresAreEnds(calls, ip);
  }

  ghost predicate AtMostNine(calls: seq<Call>, ip: string, w: nat) {
    InWindow(FailTimes(calls, ip), w) <= 9
  }

  /** A run of logins of the address, at most c of them under way at once, and a window in which at most r of
      them succeed. */
  ghost predicate InScope(calls: seq<Call>, ip: string, chk: seq<nat>, w: nat, c: nat, r: nat) {
    Ordered(calls) && Logins(calls, ip, chk, c) && Successes(calls, ip, w) <= r
  }

  /** Nine bounds the failures of every window exactly when logins of the address neither overlap nor
      succeed in it (or there are none at all). */
  lemma NineExactlyWhenSequentialAndUnsuccessful(ip: string, c: nat, r: nat)
    ensures (forall calls, chk, w :: InScope(calls, ip, chk, w, c, r) ==> AtMostNine(calls, ip, w))
            <==> c == 0 || (c == 1 && r == 0)
  {
    if c == 0 || (c == 1 && r == 0) {
      forall calls, chk, w | InScope(calls, ip, chk, w, c, r)
        ensures AtMostNine(calls, ip, w)
      {
        if c == 0 {
          NoLoginNoFailure(calls, ip, chk, w);
        } else {
          AtMostNineFailuresPerWindow(calls, ip, chk, w);
        }
      }
    } else if c == 1 {
      var calls, chk := TenFailuresWithSuccess(ip, c, 0);
      assert InScope(calls, ip, chk, 0, c, r) && !AtMostNine(calls, ip, 0);
    } else {
      var calls, chk := TenFailuresWithOverlap(ip, c, 0);
      assert InScope(calls, ip, chk, 0, c, r) && !AtMostNine(calls, ip, 0);
    }
  }

  lemma {:induction false} SpacedPrefix(ts: seq<nat>)
    requires Spaced(ts) && ts != []
    ensures Spaced(ts[..|ts| - 1]) && Open(ts[..|ts| - 1], ts[|ts| - 1])
    ensures |ts| > 1 ==> ts[|ts| - 2] <= ts[|ts| - 1]
  {
    var init := ts[..|ts| - 1];
    forall n | 0 <= n < |init| - 1
      ensures init[n] + Lockout(Streak(init[..n + 1])) <= init[n + 1]
    {
      assert init[..n + 1] == ts[..n + 1];
    }
    if init != [] { assert init == ts[..|init| - 1 + 1]; }
  }

  /** Logins that do not overlap and fail at exactly these times. */
  ghost predicate Realises(calls: seq<Call>, ip: string, chk: seq<nat>, ts: seq<nat>) {
    && Ordered(calls) && Logins(calls, ip, chk, 1) && SinceReset(calls, ip) == FailTimes(calls, ip) == ts
    && Clock(calls) <= if ts == [] then 0 else ts[|ts| - 1]
  }

  lemma OneMoreLogin(calls: seq<Call>, ip: string, chk: seq<nat>, ts: seq<nat>, t: nat)
    returns (calls': seq<Call>, chk': seq<nat>)
    requires Realises(calls, ip, chk, ts) && Open(ts, t) && (ts != [] ==> ts[|ts| - 1] <= t)
    ensures Realises(calls', ip, chk', ts + [t])
  {
    RoundAppended(calls, ip, t, 1);
    RoundIsLogins(calls, ip, chk, 1, t, 1, Fails(ip, t, 1));
    calls', chk' := Round(calls, ip, t, 1), chk + Range(|calls|, 1);
    assert Repeated(t, 1) == [t];
  }

  /** Conversely to SequentialRunIsSpaced, every sequence of times that respects the lockouts is that of
      logins that do not overlap and never succeed. */
  lemma {:induction false} SpacedRunExists(ip: string, ts: seq<nat>) returns (calls: seq<Call>, chk: seq<nat>)
    requires Spaced(ts)
    ensures Realises(calls, ip, chk, ts)
  {
    if ts == [] {
      NoLogins(ip, 1);
      calls, chk := [], [];
    } else {
      var init, t := ts[..|ts| - 1], ts[|ts| - 1];
      SpacedPrefix(ts);
      calls, chk := SpacedRunExists(ip, init);
      calls, chk := OneMoreLogin(calls, ip, chk, init, t);
      assert init + [t] == ts;
    }
  }
}
