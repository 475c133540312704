/** The sensor's bounded retry buffer (cmd/bladedr-sensor/buffer.go): a queue kept in one array that is
    compacted in place, drained in chunks, with a growing delay after failed sends. */
module EventBuffer {
  import opened Backoff

  const MAX_BUFFERED: nat := 10_000
  const MAX_BATCH: nat := 500

  // ---------------------------------------------------------------- the delay

  function Min(a: nat, b: nat): nat {
    if a <= b then a else b
  }

  /** The delay armed by the streak-th failed send in a row. */
  function Delay(streak: nat): nat
    requires streak > 0
  {
    Min(Doubled(2 * SECOND, Min(streak - 1, 5)), 60 * SECOND)
  }

  lemma FiveDoublings()
    ensures Doubled(2 * SECOND, 5) == 64 * SECOND
  {
    assert Doubled(2 * SECOND, 1) == 4 * SECOND;
    assert Doubled(2 * SECOND, 2) == 8 * SECOND;
    assert Doubled(2 * SECOND, 3) == 16 * SECOND;
    assert Doubled(2 * SECOND, 4) == 32 * SECOND;
  }

  /** The clamp on the shift is invisible: the delay is min(2s * 2^(streak-1), 60s) for every streak. */
  lemma DelayIsCappedDoubling(streak: nat)
    requires streak > 0
    ensures Delay(streak) == Min(Doubled(2 * SECOND, streak - 1), 60 * SECOND)
  {
    FiveDoublings();
    if streak - 1 > 5 { DoubledGrows(2 * SECOND, 5, streak - 1); }
  }

  // ---------------------------------------------------------------- the buffer as a value

  /** nextTry 0 is the zero time: no delay armed. */
  datatype State<T> = State(pending: seq<T>, dropped: nat, streak: nat, nextTry: nat)

  function Over<T>(pending: seq<T>): nat {
    if |pending| > MAX_BUFFERED then |pending| - MAX_BUFFERED else 0
  }

  function Added<T>(s: State<T>, x: T): State<T> {
    var grown := s.pending + [x];
    s.(pending := grown[Over(grown)..], dropped := s.dropped + Over(grown))
  }

  /** Sends chunks until the buffer is empty or a send fails; send(i) is the outcome of the i-th attempt. */
  function Drain<T>(pending: seq<T>, send: nat -> bool, i: nat): (r: (seq<seq<T>>, seq<T>))
    decreases |pending|
  {
    if pending == [] || !send(i) then ([], pending) else
      var n := Min(|pending|, MAX_BATCH);
      var (chunks, rest) := Drain(pending[n..], send, i + 1);
      ([pending[..n]] + chunks, rest)
  }

  predicate Waits<T>(s: State<T>, now: nat) {
    s.pending == [] || now < s.nextTry
  }

  function Flushed<T>(s: State<T>, now: nat, send: nat -> bool): State<T> {
    if Waits(s, now) then s else
      var rest := Drain(s.pending, send, 0).1;
      if rest == [] then s.(pending := [], streak := 0, nextTry := 0)
      else s.(pending := rest, streak := s.streak + 1, nextTry := now + Delay(s.streak + 1))
  }

  function Chunks<T>(s: State<T>, now: nat, send: nat -> bool): seq<seq<T>> {
    if Waits(s, now) then [] else Drain(s.pending, send, 0).0
  }

  function Joined<T>(chunks: seq<seq<T>>): seq<T> {
    if chunks == [] then [] else chunks[0] + Joined(chunks[1..])
  }

  /** A drain loses nothing and keeps the order. */
  lemma {:induction false} DrainSplitsPending<T>(pending: seq<T>, send: nat -> bool, i: nat)
    ensures Joined(Drain(pending, send, i).0) + Drain(pending, send, i).1 == pending
    decreases |pending|
  {
    if pending != [] && send(i) {
      var n := Min(|pending|, MAX_BATCH);
      DrainSplitsPending(pending[n..], send, i + 1);
      var (chunks, rest) := Drain(pending[n..], send, i + 1);
      var all := [pending[..n]] + chunks;
      assert all[1..] == chunks;
      assert Joined(all) + rest == pending[..n] + (Joined(chunks) + rest);
    }
  }

  /** Every chunk is full but perhaps the one that empties the buffer; every send succeeded, and something
      is left over exactly when the next one failed. */
  lemma {:induction false} DrainSendsFullChunks<T>(pending: seq<T>, send: nat -> bool, i: nat)
    ensures var (chunks, rest) := Drain(pending, send, i);
            && (forall k :: 0 <= k < |chunks| ==> 0 < |chunks[k]| <= 500)
            && (forall k :: 0 <= k < |chunks| && (k < |chunks| - 1 || rest != []) ==> |chunks[k]| == 500)
            && (forall k :: i <= k < i + |chunks| ==> send(k))
            && (rest != [] ==> !send(i + |chunks|))
    decreases |pending|
  {
    if pending != [] && send(i) {
      DrainSendsFullChunks(pending[Min(|pending|, MAX_BATCH)..], send, i + 1);
    }
  }

  lemma FlushedSplits<T>(s: State<T>, now: nat, send: nat -> bool)
    ensures Joined(Chunks(s, now, send)) + Flushed(s, now, send).pending == s.pending
    ensures Flushed(s, now, send).dropped == s.dropped
  {
    DrainSplitsPending(s.pending, send, 0);
  }

  // ---------------------------------------------------------------- the buffer in its array

  class Buffer<T(0)> {
    var data: array<T>
    var len: nat
    var dropped: nat
    var failStreak: nat
    var nextTry: nat

    /** Room for one event beyond the cap, which is dropped again at once. */
    ghost predicate Valid()
      reads this
    {
      data.Length == MAX_BUFFERED + 1 && len <= MAX_BUFFERED
    }

    ghost function Value(): State<T>
      reads this, data
      requires len <= data.Length
    {
      State(data[..len], dropped, failStreak, nextTry)
    }

    constructor ()
      ensures Valid() && fresh(data) && Value() == State([], 0, 0, 0)
    {
      data := new T[MAX_BUFFERED + 1];
      len, dropped, failStreak, nextTry := 0, 0, 0, 0;
    }

    /** Moves what follows the first n events to the front of the array. */
    method DropFirst(n: nat)
      requires data.Length == MAX_BUFFERED + 1 && n <= len <= data.Length
      modifies this`len, data
      ensures len == old(len) - n && data[..len] == old(data[..len])[n..]
    {
      var i := 0;
      while i < len - n
        invariant len == old(len) && 0 <= i <= len - n
        invariant forall k :: 0 <= k < i ==> data[k] == old(data[k + n])
        invariant forall k :: i <= k < data.Length ==> data[k] == old(data[k])
      {
        data[i] := data[i + n];
        i := i + 1;
      }
      len := len - n;
      assert forall k :: 0 <= k < len ==> data[k] == old(data[..len])[n..][k];
    }

    method Add(x: T)
      requires Valid()
      modifies this`len, this`dropped, data
      ensures Valid() && Value() == Added(old(Value()), x)
    {
      data[len] := x;
      len := len + 1;
      ghost var grown := data[..len];
      assert grown == old(data[..len]) + [x];
      if len > MAX_BUFFERED {
        var over := len - MAX_BUFFERED;
        DropFirst(over);
        dropped := dropped + over;
        assert data[..len] == grown[Over(grown)..];
      } else {
        assert grown[Over(grown)..] == grown;
      }
    }

    method Flush(now: nat, send: nat -> bool) returns (ghost chunks: seq<seq<T>>)
      requires Valid()
      modifies this`len, this`failStreak, this`nextTry, data
      ensures Valid() && Value() == Flushed(old(Value()), now, send)
      ensures chunks == Chunks(old(Value()), now, send)
    {
      chunks := [];
      if len == 0 || now < nextTry { return; }
      var i := 0;
      ghost var all := Drain(data[..len], send, 0);
      while len > 0
        invariant Valid() && dropped == old(dropped) && failStreak == old(failStreak) && nextTry == old(nextTry)
        invariant all == Drain(old(data[..len]), send, 0)
        invariant all.0 == chunks + Drain(data[..len], send, i).0 && all.1 == Drain(data[..len], send, i).1
        decreases len
      {
        var n := Min(len, MAX_BATCH);
        ghost var pending := data[..len];
        if !send(i) {
          failStreak := failStreak + 1;
          nextTry := now + Min(Doubled(2 * SECOND, Min(failStreak - 1, 5)), 60 * SECOND);
          return;
        }
        DropFirst(n);
        assert chunks + ([pending[..n]] + Drain(pending[n..], send, i + 1).0)
               == (chunks + [pending[..n]]) + Drain(pending[n..], send, i + 1).0;
        chunks := chunks + [pending[..n]];
        i := i + 1;
      }
      failStreak, nextTry := 0, 0;
    }

    /** The periodic report of dropped events. */
    method TakeDropped() returns (n: nat)
      requires Valid()
      modifies this`dropped
      ensures Valid() && n == old(dropped) && Value() == old(Value()).(dropped := 0)
    {
      n := dropped;
      dropped := 0;
    }
  }

  // ---------------------------------------------------------------- whole runs

  datatype Fate<T> = Sent(event: T) | Dropped(event: T)

  datatype Op<!T> = Add(event: T) | Flush(now: nat, send: nat -> bool) | Report

  /** left: the events that are no longer buffered, in the order they left, and how; reported: drops reported. */
  datatype History<T> = History(state: State<T>, added: seq<T>, left: seq<Fate<T>>, reported: nat)

  function AllSent<T>(events: seq<T>): seq<Fate<T>> {
    seq(|events|, k requires 0 <= k < |events| => Sent(events[k]))
  }

  function AllDropped<T>(events: seq<T>): seq<Fate<T>> {
    seq(|events|, k requires 0 <= k < |events| => Dropped(events[k]))
  }

  function After<T>(h: History<T>, op: Op<T>): History<T> {
    match op
    case Add(x) =>
      var grown := h.state.pending + [x];
      History(Added(h.state, x), h.added + [x], h.left + AllDropped(grown[..Over(grown)]), h.reported)
    case Flush(now, send) =>
      h.(state := Flushed(h.state, now, send), left := h.left + AllSent(Joined(Chunks(h.state, now, send))))
    case Report => h.(state := h.state.(dropped := 0), reported := h.reported + h.state.dropped)
  }

  function Run<T>(ops: seq<Op<T>>): History<T> {
    if ops == [] then History(State([], 0, 0, 0), [], [], 0) else After(Run(ops[..|ops| - 1]), ops[|ops| - 1])
  }

  function Events<T>(fates: seq<Fate<T>>): seq<T> {
    seq(|fates|, k requires 0 <= k < |fates| => fates[k].event)
  }

  function Drops<T>(fates: seq<Fate<T>>): nat {
    if fates == [] then 0 else Drops(fates[..|fates| - 1]) + if fates[|fates| - 1].Dropped? then 1 else 0
  }

  lemma {:induction false} DropsConcat<T>(a: seq<Fate<T>>, b: seq<Fate<T>>)
    ensures Drops(a + b) == Drops(a) + Drops(b)
  {
    if b == [] {
      assert a + b == a;
    } else {
      DropsConcat(a, b[..|b| - 1]);
      assert (a + b)[..|a + b| - 1] == a + b[..|b| - 1];
    }
  }

  lemma {:induction false} DropsOfUniform<T>(events: seq<T>)
    ensures Drops(AllSent(events)) == 0 && Drops(AllDropped(events)) == |events|
  {
    if events == [] {
    } else {
      DropsOfUniform(events[..|events| - 1]);
      assert AllSent(events)[..|events| - 1] == AllSent(events[..|events| - 1]);
      assert AllDropped(events)[..|events| - 1] == AllDropped(events[..|events| - 1]);
    }
  }

  ghost predicate Conserved<T>(h: History<T>) {
    && Events(h.left) + h.state.pending == h.added
    && |h.state.pending| <= 10_000
    && Drops(h.left) == h.state.dropped + h.reported
  }

  lemma EventsConcat<T>(a: seq<Fate<T>>, b: seq<Fate<T>>)
    ensures Events(a + b) == Events(a) + Events(b)
  {
  }

  /** Events that leave from the front of the buffer keep the books balanced. */
  lemma LeavingConserves<T>(left: seq<Fate<T>>, pending: seq<T>, all: seq<T>, gone: seq<Fate<T>>, rest: seq<T>)
    requires Events(left) + pending == all && Events(gone) + rest == pending
    ensures Events(left + gone) + rest == all
    ensures Drops(left + gone) == Drops(left) + Drops(gone)
  {
    EventsConcat(left, gone);
    assert Events(left) + Events(gone) + rest == Events(left) + pending;
    DropsConcat(left, gone);
  }

  lemma AddConserves<T>(h: History<T>, x: T)
    requires Conserved(h)
    ensures Conserved(After(h, Add(x)))
  {
    var grown := h.state.pending + [x];
    var lost := grown[..Over(grown)];
    DropsOfUniform(lost);
    assert Events(h.left) + grown == h.added + [x];
    assert Events(AllDropped(lost)) == lost;
    LeavingConserves(h.left, grown, h.added + [x], AllDropped(lost), grown[Over(grown)..]);
  }

  lemma FlushConserves<T>(h: History<T>, now: nat, send: nat -> bool)
    requires Conserved(h)
    ensures Conserved(After(h, Flush(now, send)))
  {
    var sent := Joined(Chunks(h.state, now, send));
    FlushedSplits(h.state, now, send);
    DropsOfUniform(sent);
    assert Events(AllSent(sent)) == sent;
    LeavingConserves(h.left, h.state.pending, h.added, AllSent(sent), Flushed(h.state, now, send).pending);
  }

  lemma OpConserves<T>(h: History<T>, op: Op<T>)
    requires Conserved(h)
    ensures Conserved(After(h, op))
  {
    match op
    case Add(x) => AddConserves(h, x);
    case Flush(now, send) => FlushConserves(h, now, send);
    case Report =>
  }

  /** For every sequence of adds, flushes and reports, whatever sends fail: what was sent or dropped, in
      order, followed by what is pending, is everything added; the drop counter misses nothing. */
  lemma {:induction false} NothingIsLost<T>(ops: seq<Op<T>>)
    ensures Conserved(Run(ops))
  {
    if ops == [] {
    } else {
      NothingIsLost(ops[..|ops| - 1]);
      OpConserves(Run(ops[..|ops| - 1]), ops[|ops| - 1]);
    }
  }

  /** An event is dropped only when as many newer ones fill the buffer, and a flush before the armed delay
      has passed sends nothing. */
  lemma DropsAndSendsAreJustified<T>(ops: seq<Op<T>>, op: Op<T>)
    ensures var h, h' := Run(ops), Run(ops + [op]);
            && (Drops(h'.left) > Drops(h.left) ==>
                op.Add? && |h'.state.pending| == 10_000 && |h'.left| == |h.left| + 1)
            && (op.Flush? && op.now < h.state.nextTry ==> h' == h)
  {
    NothingIsLost(ops);
    NothingIsLost(ops + [op]);
    assert (ops + [op])[..|ops|] == ops;
  }

  /** Failed flushes since the last one that emptied the buffer. */
  function Failures<T>(ops: seq<Op<T>>): nat {
    if ops == [] then 0 else
      var h, op := Run(ops[..|ops| - 1]), ops[|ops| - 1];
      if !op.Flush? || Waits(h.state, op.now) then Failures(ops[..|ops| - 1])
      else if Drain(h.state.pending, op.send, 0).1 == [] then 0
      else Failures(ops[..|ops| - 1]) + 1
  }

  /** The streak counts exactly those, so the k-th failure in a row arms the delay min(2s * 2^(k-1), 60s). */
  lemma {:induction false} StreakCountsFailures<T>(ops: seq<Op<T>>)
    ensures Run(ops).state.streak == Failures(ops)
  {
    if ops == [] {
    } else {
      StreakCountsFailures(ops[..|ops| - 1]);
    }
  }

  lemma FailureArmsDelay<T>(ops: seq<Op<T>>, now: nat, send: nat -> bool)
    requires !Waits(Run(ops).state, now) && Drain(Run(ops).state.pending, send, 0).1 != []
    ensures Run(ops + [Flush(now, send)]).state.nextTry
            == now + Min(Doubled(2 * SECOND, Failures(ops)), 60 * SECOND)
  {
    StreakCountsFailures(ops);
    DelayIsCappedDoubling(Failures(ops) + 1);
    assert (ops + [Flush(now, send)])[..|ops|] == ops;
  }

  /** A flush tries to send exactly when something is pending and the armed delay has passed; otherwise it
      changes nothing. */
  lemma FlushTriesExactlyWhenDue<T>(s: State<T>, now: nat, send: nat -> bool)
    ensures Chunks(s, now, send) != [] <==> s.pending != [] && s.nextTry <= now && send(0)
    ensures s.pending == [] || now < s.nextTry ==> Flushed(s, now, send) == s
  {
  }

  /** A flush that tries and empties the buffer ends the streak and arms no delay; one that tries and does not
      arms a delay of at least two seconds. */
  lemma EmptyingDisarms<T>(s: State<T>, now: nat, send: nat -> bool)
    requires s.pending != [] && s.nextTry <= now
    ensures var s' := Flushed(s, now, send);
            if s'.pending == [] then s'.streak == 0 && s'.nextTry == 0
            else s'.streak == s.streak + 1 && s'.nextTry >= now + 2 * SECOND
  {
    DoubledGrows(2 * SECOND, 0, Min(s.streak, 5));
  }

  /** Over every sequence of calls, a delay is armed exactly while the last flush that tried has failed. */
  lemma {:induction false} ArmedExactlyWhileFailing<T>(ops: seq<Op<T>>)
    ensures Run(ops).state.nextTry > 0 <==> Failures(ops) > 0
  {
    if ops == [] {
    } else {
      var init, op := ops[..|ops| - 1], ops[|ops| - 1];
      ArmedExactlyWhileFailing(init);
      if op.Flush? && !Waits(Run(init).state, op.now) { EmptyingDisarms(Run(init).state, op.now, op.send); }
    }
  }
}
