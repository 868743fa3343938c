/** The in-memory sliding-window rate limiter (common/rate-limit.go). */
module RateLimit {

  type Store = map<string, seq<int>>

  /** What a request does to the store and whether it is admitted. Queues run from old to new. */
  function RequestStep(store: Store, key: string, max: int, duration: int, now: int): (Store, bool) {
    if key !in store then (store[key := [now]], true)
    else
      var queue := store[key];
      if |queue| < max then (store[key := queue + [now]], true)
      else if queue != [] && now - queue[0] >= duration then (store[key := queue[1..] + [now]], true)
      else (store, false)
  }

  predicate Stale(queue: seq<int>, expiration: int, now: int) {
    |queue| == 0 || now - queue[|queue| - 1] > expiration
  }

  function ExpireStep(store: Store, expiration: int, now: int): Store {
    map key | key in store && !Stale(store[key], expiration, now) :: store[key]
  }

  /** Whole seconds of a positive time.Duration, which counts nanoseconds. */
  function Seconds(expirationDuration: int): int {
    expirationDuration / 1_000_000_000
  }

  class InMemoryRateLimiter {
    var store: Store
    const expirationDuration: int

    /** A stored queue holds at least the request that created it. */
    ghost predicate Valid()
      reads this
    {
      forall key :: key in store ==> store[key] != []
    }

    constructor (expirationDuration: int)
      ensures Valid() && store == map[] && this.expirationDuration == expirationDuration
    {
      this.expirationDuration := expirationDuration;
      store := map[];
    }

    method Request(key: string, maxRequestNum: int, duration: int, now: int) returns (admitted: bool)
      requires Valid() && (key in store || maxRequestNum >= 0)
      modifies this`store
      ensures Valid() && (store, admitted) == RequestStep(old(store), key, maxRequestNum, duration, now)
    {
      if key in store {
        var queue := store[key];
        if |queue| < maxRequestNum {
          store := store[key := queue + [now]];
          return true;
        } else {
          if now - queue[0] >= duration {
            queue := queue[1..];
            store := store[key := queue + [now]];
            return true;
          } else {
            return false;
          }
        }
      } else {
        store := store[key := [now]];
      }
      return true;
    }

    /** One round of clearExpiredItems, in whatever order the map is walked. Init starts these
        rounds only for a positive expiration. */
    method ClearExpired(now: int)
      requires Valid() && expirationDuration > 0
      modifies this`store
      ensures Valid() && store == ExpireStep(old(store), Seconds(expirationDuration), now)
    {
      var expiration := Seconds(expirationDuration);
      var keys := store.Keys;
      while keys != {}
        invariant keys <= old(store).Keys
        invariant store == map key | key in old(store)
                             && (key in keys || !Stale(old(store)[key], expiration, now)) :: old(store)[key]
        decreases keys
      {
        var key :| key in keys;
        if Stale(store[key], expiration, now) {
          store := map k | k in store && k != key :: store[k];
        }
        keys := keys - {key};
      }
    }
  }

  // ----- runs of requests and expiry rounds, newest last -----

  datatype Op = Request(key: string, max: int, duration: int, now: int) | Expire(now: int)

  function Step(store: Store, expiration: int, op: Op): (Store, bool) {
    match op
    case Request(key, max, duration, now) => RequestStep(store, key, max, duration, now)
    case Expire(now) => (ExpireStep(store, expiration, now), false)
  }

  /** The limiter's store, and the full admission history of one key: nothing is ever dropped from it. */
  datatype Trace = Trace(store: Store, history: seq<int>)

  function Advance(t: Trace, expiration: int, key: string, op: Op): Trace {
    var r := Step(t.store, expiration, op);
    Trace(r.0, t.history + if op.Request? && op.key == key && r.1 then [op.now] else [])
  }

  function Replay(ops: seq<Op>, expiration: int, key: string): Trace {
    if ops == [] then Trace(map[], [])
    else Advance(Replay(ops[..|ops| - 1], expiration, key), expiration, key, ops[|ops| - 1])
  }

  /** How many of the times are later than cutoff. */
  function CountNewer(times: seq<int>, cutoff: int): (n: nat)
    ensures n <= |times|
  {
    if times == [] then 0
    else CountNewer(times[..|times| - 1], cutoff) + if times[|times| - 1] > cutoff then 1 else 0
  }

  function CountWithin(times: seq<int>, after: int, upTo: int): nat {
    if times == [] then 0
    else CountWithin(times[..|times| - 1], after, upTo) + if after < times[|times| - 1] <= upTo then 1 else 0
  }

  /** Clocks do not go backwards, and the key is always used with the same limit. */
  predicate Wellformed(ops: seq<Op>, key: string, max: int, duration: int) {
    (forall i, j :: 0 <= i < j < |ops| ==> ops[i].now <= ops[j].now)
    && forall i :: 0 <= i < |ops| && ops[i].Request? && ops[i].key == key ==>
         ops[i].max == max && ops[i].duration == duration
  }

  predicate Ordered(times: seq<int>) {
    forall i, j :: 0 <= i < j < |times| ==> times[i] <= times[j]
  }

  function Queue(store: Store, key: string): seq<int> {
    if key in store then store[key] else []
  }

  predicate AllUpTo(times: seq<int>, cutoff: int) {
    forall i :: 0 <= i < |times| ==> times[i] <= cutoff
  }

  /** The history is what the queue has dropped, which no later window can see, and the queue. */
  ghost predicate Splits(t: Trace, gone: seq<int>, key: string, max: int, duration: int, now: int) {
    var q := Queue(t.store, key);
    t.history == gone + q && AllUpTo(gone, now - duration)
    && Ordered(q) && AllUpTo(q, now) && |q| <= max && (key in t.store ==> q != [])
  }

  ghost predicate Tracks(t: Trace, key: string, max: int, duration: int, now: int) {
    exists gone :: Splits(t, gone, key, max, duration, now)
  }

  lemma {:induction false} CountOlder(times: seq<int>, cutoff: int)
    requires AllUpTo(times, cutoff)
    ensures CountNewer(times, cutoff) == 0
  {
    if times != [] { CountOlder(times[..|times| - 1], cutoff); }
  }

  lemma {:induction false} CountAllNewer(times: seq<int>, cutoff: int)
    ensures CountNewer(times, cutoff) == |times| <==> forall i :: 0 <= i < |times| ==> times[i] > cutoff
  {
    if times != [] {
      var front := times[..|times| - 1];
      CountAllNewer(front, cutoff);
      assert forall i :: 0 <= i < |front| ==> front[i] == times[i];
    }
  }

  lemma {:induction false} CountAppend(a: seq<int>, b: seq<int>, cutoff: int)
    ensures CountNewer(a + b, cutoff) == CountNewer(a, cutoff) + CountNewer(b, cutoff)
  {
    if b == [] {
      assert a + b == a;
    } else {
      assert (a + b)[..|a + b| - 1] == a + b[..|b| - 1];
      CountAppend(a, b[..|b| - 1], cutoff);
    }
  }

  /** One admission decision, from the tracked queue, equals counting over the whole history. */
  lemma DecisionCounts(t: Trace, key: string, max: int, duration: int, last: int, now: int)
    requires max >= 1 && last <= now && Tracks(t, key, max, duration, last)
    ensures RequestStep(t.store, key, max, duration, now).1 <==> CountNewer(t.history, now - duration) < max
  {
    var gone :| Splits(t, gone, key, max, duration, last);
    var q, cutoff := Queue(t.store, key), now - duration;
    CountAppend(gone, q, cutoff);
    CountOlder(gone, cutoff);
    QueueDecides(q, max, cutoff);
  }

  lemma QueueDecides(q: seq<int>, max: int, cutoff: int)
    requires max >= 1 && Ordered(q) && |q| <= max
    ensures CountNewer(q, cutoff) < max <==> |q| < max || q[0] <= cutoff
  {
    CountAllNewer(q, cutoff);
  }

  lemma RequestTracks(t: Trace, expiration: int, key: string, max: int, duration: int, last: int, now: int)
    requires max >= 1 && last <= now && Tracks(t, key, max, duration, last)
    ensures Tracks(Advance(t, expiration, key, Request(key, max, duration, now)), key, max, duration, now)
  {
    var gone :| Splits(t, gone, key, max, duration, last);
    var r, q := RequestStep(t.store, key, max, duration, now), Queue(t.store, key);
    var t' := Advance(t, expiration, key, Request(key, max, duration, now));
    if !r.1 {
      assert t'.history == t.history;
      assert Splits(t', gone, key, max, duration, now);
    } else if |q| < max {
      assert t'.history == gone + (q + [now]);
      assert Splits(t', gone, key, max, duration, now);
    } else {
      assert t'.history == (gone + [q[0]]) + (q[1..] + [now]);
      assert Splits(t', gone + [q[0]], key, max, duration, now);
    }
  }

  lemma ExpireTracks(t: Trace, expiration: int, key: string, max: int, duration: int, last: int, now: int)
    requires last <= now && duration <= expiration + 1 && Tracks(t, key, max, duration, last)
    ensures Tracks(Advance(t, expiration, key, Expire(now)), key, max, duration, now)
  {
    var gone :| Splits(t, gone, key, max, duration, last);
    var q, t' := Queue(t.store, key), Advance(t, expiration, key, Expire(now));
    assert t'.history == t.history;
    if key in t.store && Stale(q, expiration, now) {
      assert t'.history == (gone + q) + [];
      assert Splits(t', gone + q, key, max, duration, now);
    } else {
      assert Splits(t', gone, key, max, duration, now);
    }
  }

  /** One operation of any kind keeps the queue tracking the history. */
  lemma StepTracks(t: Trace, expiration: int, key: string, max: int, duration: int, last: int, op: Op)
    requires max >= 1 && last <= op.now && Tracks(t, key, max, duration, last)
    requires op.Expire? ==> duration <= expiration + 1
    requires op.Request? && op.key == key ==> op.max == max && op.duration == duration
    ensures Tracks(Advance(t, expiration, key, op), key, max, duration, op.now)
  {
    if op.Expire? {
      ExpireTracks(t, expiration, key, max, duration, last, op.now);
    } else if op.key == key {
      RequestTracks(t, expiration, key, max, duration, last, op.now);
    } else {
      var gone :| Splits(t, gone, key, max, duration, last);
      assert t.history + [] == t.history;
      assert Splits(Advance(t, expiration, key, op), gone, key, max, duration, op.now);
    }
  }

  function LastTime(ops: seq<Op>, start: int): int {
    if ops == [] then start else ops[|ops| - 1].now
  }

  /** Expiry rounds, if there are any, forget no request that a window can still see. */
  predicate Fits(ops: seq<Op>, expiration: int, duration: int) {
    duration <= expiration + 1 || forall i :: 0 <= i < |ops| ==> ops[i].Request?
  }

  lemma WellformedFront(ops: seq<Op>, key: string, max: int, duration: int, start: int)
    requires ops != [] && Wellformed(ops, key, max, duration) && (|ops| == 1 ==> start == ops[0].now)
    ensures var before, op := ops[..|ops| - 1], ops[|ops| - 1];
            Wellformed(before, key, max, duration) && LastTime(before, start) <= op.now
            && (op.Request? && op.key == key ==> op.max == max && op.duration == duration)
  {
  }

  /** Every run keeps the queue tracking the history, across expiry and other keys. */
  lemma {:induction false} RunTracks(ops: seq<Op>, expiration: int, key: string, max: int, duration: int, start: int)
    requires max >= 1 && Fits(ops, expiration, duration) && Wellformed(ops, key, max, duration)
    ensures Tracks(Replay(ops, expiration, key), key, max, duration, LastTime(ops, start))
  {
    if ops == [] {
      assert Splits(Replay(ops, expiration, key), [], key, max, duration, start);
    } else {
      var before, op := ops[..|ops| - 1], ops[|ops| - 1];
      var first := if before == [] then op.now else start;
      WellformedFront(ops, key, max, duration, first);
      RunTracks(before, expiration, key, max, duration, first);
      StepTracks(Replay(before, expiration, key), expiration, key, max, duration, LastTime(before, first), op);
    }
  }

  /** A request is admitted exactly when fewer than max earlier admissions of its key are newer
      than now - duration, after any interleaving of requests and expiry rounds. */
  lemma AdmitsByHistory(ops: seq<Op>, expiration: int, key: string, max: int, duration: int, now: int)
    requires max >= 1 && Fits(ops, expiration, duration) && Wellformed(ops, key, max, duration)
    requires LastTime(ops, now) <= now
    ensures var t := Replay(ops, expiration, key);
            RequestStep(t.store, key, max, duration, now).1 <==> CountNewer(t.history, now - duration) < max
  {
    RunTracks(ops, expiration, key, max, duration, now);
    DecisionCounts(Replay(ops, expiration, key), key, max, duration, LastTime(ops, now), now);
  }

  lemma {:induction false} WithinIsNewer(times: seq<int>, after: int, upTo: int, cutoff: int)
    requires cutoff <= after
    ensures CountWithin(times, after, upTo) <= CountNewer(times, cutoff)
  {
    if times != [] { WithinIsNewer(times[..|times| - 1], after, upTo, cutoff); }
  }

  /** No window of the limiter's length ever holds more than max admissions. */
  lemma {:induction false} WindowNeverExceeded(ops: seq<Op>, expiration: int, key: string, max: int, duration: int, w: int)
    requires max >= 1 && Fits(ops, expiration, duration) && Wellformed(ops, key, max, duration)
    ensures CountWithin(Replay(ops, expiration, key).history, w, w + duration) <= max
  {
    if ops != [] {
      var before, op := ops[..|ops| - 1], ops[|ops| - 1];
      var first := if before == [] then op.now else 0;
      WellformedFront(ops, key, max, duration, first);
      WindowNeverExceeded(before, expiration, key, max, duration, w);
      RunTracks(before, expiration, key, max, duration, first);
      WindowStep(Replay(before, expiration, key), expiration, key, max, duration, LastTime(before, first), op, w);
    }
  }

  /** One operation keeps every window within the limit. */
  lemma WindowStep(t: Trace, expiration: int, key: string, max: int, duration: int, last: int, op: Op, w: int)
    requires max >= 1 && last <= op.now && Tracks(t, key, max, duration, last)
    requires op.Request? && op.key == key ==> op.max == max && op.duration == duration
    requires CountWithin(t.history, w, w + duration) <= max
    ensures CountWithin(Advance(t, expiration, key, op).history, w, w + duration) <= max
  {
    if op.Request? && op.key == key && RequestStep(t.store, key, max, duration, op.now).1 {
      DecisionCounts(t, key, max, duration, last, op.now);
      WindowExtends(t.history, max, duration, w, op.now);
    } else {
      assert t.history + [] == t.history;
    }
  }

  lemma WindowExtends(history: seq<int>, max: int, duration: int, w: int, now: int)
    requires max >= 1 && CountWithin(history, w, w + duration) <= max
    ensures CountNewer(history, now - duration) < max ==> CountWithin(history + [now], w, w + duration) <= max
  {
    assert (history + [now])[..|history|] == history;
    if w < now <= w + duration { WithinIsNewer(history, w, w + duration, now - duration); }
  }

  // ----- the conditions are exact -----

  function Copies(now: int, n: nat): (r: seq<int>)
    ensures |r| == n
  {
    if n == 0 then [] else Copies(now, n - 1) + [now]
  }

  /** One request, an expiry round as soon as it can forget it, then n requests at that moment. */
  function Burst(key: string, max: int, duration: int, later: int, n: nat): seq<Op> {
    if n == 0 then [Request(key, max, duration, 0)] + [Expire(later)]
    else Burst(key, max, duration, later, n - 1) + [Request(key, max, duration, later)]
  }

  lemma {:induction false} BurstWellformed(key: string, max: int, duration: int, later: int, n: nat)
    requires 0 <= later
    ensures var ops := Burst(key, max, duration, later, n);
            Wellformed(ops, key, max, duration) && ops != [] && ops[|ops| - 1].now == later
  {
    if n > 0 {
      BurstWellformed(key, max, duration, later, n - 1);
    }
  }

  lemma ReplayExtends(ops: seq<Op>, op: Op, expiration: int, key: string)
    ensures Replay(ops + [op], expiration, key) == Advance(Replay(ops, expiration, key), expiration, key, op)
  {
    assert (ops + [op])[..|ops|] == ops;
  }

  function BurstTrace(key: string, later: int, n: nat): Trace {
    Trace(if n == 0 then map[] else map[key := Copies(later, n)], [0] + Copies(later, n))
  }

  lemma FirstThenForgotten(key: string, max: int, duration: int, expiration: int)
    requires 0 <= expiration
    ensures Advance(Trace(map[], []), expiration, key, Request(key, max, duration, 0)) == Trace(map[key := [0]], [0])
    ensures Advance(Trace(map[key := [0]], [0]), expiration, key, Expire(expiration + 1)) == Trace(map[], [0])
  {
  }

  lemma BurstStarts(key: string, max: int, duration: int, expiration: int)
    requires 0 <= expiration && max >= 1
    ensures Replay(Burst(key, max, duration, expiration + 1, 0), expiration, key) == BurstTrace(key, expiration + 1, 0)
  {
    var first := Request(key, max, duration, 0);
    FirstThenForgotten(key, max, duration, expiration);
    assert Replay([first], expiration, key) == Trace(map[key := [0]], [0]) by {
      assert [first][..0] == [];
    }
    ReplayExtends([first], Expire(expiration + 1), expiration, key);
  }

  lemma BurstGoesOn(key: string, max: int, duration: int, expiration: int, later: int, n: nat)
    requires n < max
    ensures Advance(BurstTrace(key, later, n), expiration, key, Request(key, max, duration, later)) == BurstTrace(key, later, n + 1)
  {
    assert [0] + Copies(later, n) + [later] == [0] + Copies(later, n + 1);
    if n == 0 { assert Copies(later, 1) == [later]; }
  }

  /** After the expiry round the store is empty, so the next max requests are all admitted. */
  lemma {:induction false} BurstAdmitted(key: string, max: int, duration: int, expiration: int, n: nat)
    requires 0 <= expiration && max >= 1 && n <= max
    ensures Replay(Burst(key, max, duration, expiration + 1, n), expiration, key) == BurstTrace(key, expiration + 1, n)
  {
    var later := expiration + 1;
    if n == 0 {
      BurstStarts(key, max, duration, expiration);
    } else {
      BurstAdmitted(key, max, duration, expiration, n - 1);
      ReplayExtends(Burst(key, max, duration, later, n - 1), Request(key, max, duration, later), expiration, key);
      BurstGoesOn(key, max, duration, expiration, later, n - 1);
    }
  }

  lemma {:induction false} CountCopies(now: int, n: nat, after: int, upTo: int)
    requires after < 0 <= upTo && after < now <= upTo
    ensures CountWithin([0] + Copies(now, n), after, upTo) == n + 1
  {
    var times := [0] + Copies(now, n);
    if n == 0 {
      assert times == [0] && times[..0] == [];
    } else {
      assert times[..n] == [0] + Copies(now, n - 1);
      CountCopies(now, n - 1, after, upTo);
    }
  }

  /** Expiry rounds happen only when the limiter has a positive expiration. */
  predicate Scheduled(ops: seq<Op>, expirationDuration: int) {
    expirationDuration > 0 || forall i :: 0 <= i < |ops| ==> ops[i].Request?
  }

  /** The promise for one run and one window. */
  ghost predicate Kept(ops: seq<Op>, w: int, key: string, max: int, duration: int, expirationDuration: int) {
    Wellformed(ops, key, max, duration) && Scheduled(ops, expirationDuration) ==>
      CountWithin(Replay(ops, Seconds(expirationDuration), key).history, w, w + duration) <= max
  }

  /** No window at all, or a positive limit and, if there are expiry rounds, a window at most one
      second longer than the expiration. */
  predicate Fitting(max: int, duration: int, expirationDuration: int) {
    duration <= 0 || (max >= 1 && (expirationDuration <= 0 || (duration - 1) * 1_000_000_000 <= expirationDuration))
  }

  /** The window promise holds over all runs exactly when there are no expiry rounds or the window
      is at most one second longer than the expiration, and at least one request is allowed; an
      empty window holds nothing anyway. A negative limit makes the source panic. */
  lemma PromiseHoldsExactly(key: string, max: int, duration: int, expirationDuration: int)
    requires max >= 0
    ensures (forall ops, w :: Kept(ops, w, key, max, duration, expirationDuration))
       <==> Fitting(max, duration, expirationDuration)
  {
    if Fitting(max, duration, expirationDuration) {
      forall ops, w ensures Kept(ops, w, key, max, duration, expirationDuration) {
        KeptWithin(ops, w, key, max, duration, expirationDuration);
      }
    } else {
      var ops := NotKept(key, max, duration, expirationDuration);
    }
  }

  lemma KeptWithin(ops: seq<Op>, w: int, key: string, max: int, duration: int, expirationDuration: int)
    requires max >= 0 && Fitting(max, duration, expirationDuration)
    ensures Kept(ops, w, key, max, duration, expirationDuration)
  {
    var expiration := Seconds(expirationDuration);
    if Wellformed(ops, key, max, duration) && Scheduled(ops, expirationDuration) {
      WithinLimit(ops, expiration, key, max, duration, w);
    }
  }

  lemma WithinLimit(ops: seq<Op>, expiration: int, key: string, max: int, duration: int, w: int)
    requires Wellformed(ops, key, max, duration)
    requires (max >= 0 && duration <= 0) || (max >= 1 && Fits(ops, expiration, duration))
    ensures CountWithin(Replay(ops, expiration, key).history, w, w + duration) <= max
  {
    if duration <= 0 {
      EmptyWindow(Replay(ops, expiration, key).history, w, w + duration);
    } else {
      WindowNeverExceeded(ops, expiration, key, max, duration, w);
    }
  }

  lemma NotKept(key: string, max: int, duration: int, expirationDuration: int) returns (ops: seq<Op>)
    requires max >= 0 && !Fitting(max, duration, expirationDuration)
    ensures !Kept(ops, -1, key, max, duration, expirationDuration)
  {
    if max == 0 {
      FirstAdmitted(key, duration, expirationDuration);
      ops := [Request(key, 0, duration, 0)];
    } else {
      ops := BurstBreaksPromise(key, max, duration, expirationDuration);
    }
  }

  lemma {:induction false} EmptyWindow(times: seq<int>, after: int, upTo: int)
    requires upTo <= after
    ensures CountWithin(times, after, upTo) == 0
  {
    if times != [] { EmptyWindow(times[..|times| - 1], after, upTo); }
  }

  /** A limit of zero still admits a key's first request, into every window around it. */
  lemma FirstAdmitted(key: string, duration: int, expirationDuration: int)
    requires duration >= 1
    ensures !Kept([Request(key, 0, duration, 0)], -1, key, 0, duration, expirationDuration)
  {
    var ops, expiration := [Request(key, 0, duration, 0)], Seconds(expirationDuration);
    assert ops[..0] == [];
    assert Replay(ops, expiration, key) == Advance(Trace(map[], []), expiration, key, ops[0]);
    assert Replay(ops, expiration, key).history == [0];
    assert [0][..0] == [];
    assert CountWithin([0], -1, -1 + duration) == 1;
  }

  lemma CountBurst(key: string, max: nat, duration: int, later: int)
    requires 0 <= later < duration
    ensures CountWithin(BurstTrace(key, later, max).history, -1, -1 + duration) == max + 1
  {
    CountCopies(later, max, -1, -1 + duration);
  }

  /** A run that admits max + 1 requests less than duration apart. */
  lemma BurstBreaksPromise(key: string, max: int, duration: int, expirationDuration: int) returns (ops: seq<Op>)
    requires max >= 1 && 0 < expirationDuration && Seconds(expirationDuration) + 1 < duration
    ensures !Kept(ops, -1, key, max, duration, expirationDuration)
  {
    ops := BurstExceeds(key, max, duration, Seconds(expirationDuration));
  }

  lemma BurstExceeds(key: string, max: int, duration: int, expiration: int) returns (ops: seq<Op>)
    requires max >= 1 && 0 <= expiration && expiration + 1 < duration
    ensures Wellformed(ops, key, max, duration)
    ensures CountWithin(Replay(ops, expiration, key).history, -1, -1 + duration) > max
  {
    ops := BurstRun(key, max, duration, expiration);
    CountBurst(key, max, duration, expiration + 1);
  }

  lemma BurstRun(key: string, max: int, duration: int, expiration: int) returns (ops: seq<Op>)
    requires max >= 1 && 0 <= expiration
    ensures Wellformed(ops, key, max, duration) && Replay(ops, expiration, key) == BurstTrace(key, expiration + 1, max)
  {
    ops := Burst(key, max, duration, expiration + 1, max);
    BurstWellformed(key, max, duration, expiration + 1, max);
    BurstAdmitted(key, max, duration, expiration, max);
  }
}
