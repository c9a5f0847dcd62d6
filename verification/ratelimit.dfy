/**
 The per-client token bucket at the relay's edge.

 A bucket is refilled when it is looked at and pruned when it has idled; time and
 tokens are real numbers, and floating-point rounding is not modelled.  `Level` is
 what a client could spend at a moment, whether or not it has a bucket.
 */
module RateLimit {
  datatype Limits = Limits(rate: real, capacity: real, maxIdle: real)

  datatype Bucket = Bucket(tokens: real, updated: real)

  type Buckets = map<string, Bucket>

  predicate Sensible(l: Limits) {
    l.rate >= 0.0 && l.capacity >= 0.0
  }

  function Min(x: real, y: real): real {
    if x <= y then x else y
  }

  function Refill(l: Limits, elapsed: real): real {
    elapsed * l.rate
  }

  /** What the key could spend at `now`. */
  function Level(l: Limits, m: Buckets, key: string, now: real): real {
    if key in m then Min(l.capacity, m[key].tokens + Refill(l, now - m[key].updated)) else l.capacity
  }

  predicate Allows(l: Limits, m: Buckets, key: string, cost: real, now: real) {
    Level(l, m, key, now) >= cost
  }

  function AfterAllow(l: Limits, m: Buckets, key: string, cost: real, now: real): Buckets {
    var level := Level(l, m, key, now);
    m[key := Bucket(if level >= cost then level - cost else level, now)]
  }

  predicate Stale(l: Limits, b: Bucket, now: real) {
    now - b.updated > l.maxIdle
  }

  function AfterPrune(l: Limits, m: Buckets, now: real): Buckets {
    map key | key in m && !Stale(l, m[key], now) :: m[key]
  }

  lemma DroppingOneMore(m: Buckets, stale: set<string>, rest: set<string>, key: string)
    requires key in rest && rest <= stale
    ensures m - (stale - rest) - {key} == m - (stale - (rest - {key}))
  {
    assert stale - (rest - {key}) == stale - rest + {key};
  }

  lemma DroppingTheStale(l: Limits, m: Buckets, now: real, stale: set<string>)
    requires stale == set key | key in m && Stale(l, m[key], now)
    ensures m - (stale - {}) == AfterPrune(l, m, now)
    ensures |stale| == |m| - |AfterPrune(l, m, now)|
  {
    var rest := AfterPrune(l, m, now);
    assert stale - {} == stale;
    assert m.Keys == rest.Keys + stale;
    assert |m.Keys| == |rest.Keys| + |stale|;
  }

  class RateLimiter {
    const limits: Limits
    var buckets: Buckets

    constructor (limits: Limits)
      ensures this.limits == limits && buckets == map[]
    {
      this.limits := limits;
      buckets := map[];
    }

    /** Spends `cost` tokens of the key at clock reading `now`, if it has them. */
    method Allow(key: string, cost: real, now: real) returns (allowed: bool)
      modifies this
      ensures allowed <==> Allows(limits, old(buckets), key, cost, now)
      ensures buckets == AfterAllow(limits, old(buckets), key, cost, now)
    {
      var b := Bucket(limits.capacity, now);
      if key in buckets {
        var elapsed := now - buckets[key].updated;
        b := Bucket(Min(limits.capacity, buckets[key].tokens + elapsed * limits.rate), now);
      }
      allowed := b.tokens >= cost;
      if allowed {
        b := b.(tokens := b.tokens - cost);
      }
      buckets := buckets[key := b];
    }

    /** Drops the buckets that have idled longer than allowed; returns how many. */
    method Prune(now: real) returns (removed: nat)
      modifies this
      ensures buckets == AfterPrune(limits, old(buckets), now)
      ensures removed == |old(buckets)| - |buckets|
    {
      var stale := set key | key in buckets && Stale(limits, buckets[key], now);
      removed := |stale|;
      ghost var before := buckets;
      var rest := stale;
      while rest != {}
        invariant rest <= stale
        invariant buckets == before - (stale - rest)
        decreases rest
      {
        var key :| key in rest;
        DroppingOneMore(before, stale, rest, key);
        rest := rest - {key};
        buckets := buckets - {key};
      }
      DroppingTheStale(limits, before, now, stale);
    }
  }

  // ------------------------------------------------------ runs

  datatype Call = Allow(key: string, cost: real, at: real) | Prune(at: real)

  predicate Monotone(calls: seq<Call>, start: real)
    decreases |calls|
  {
    calls == [] || (start <= calls[0].at && Monotone(calls[1..], calls[0].at))
  }

  function After(l: Limits, m: Buckets, call: Call): Buckets {
    match call
    case Allow(key, cost, at) => AfterAllow(l, m, key, cost, at)
    case Prune(at) => AfterPrune(l, m, at)
  }

  /** The answers to the `allow` calls of a run. */
  function Decisions(l: Limits, m: Buckets, calls: seq<Call>): seq<bool>
    decreases |calls|
  {
    if calls == [] then []
    else
      (if calls[0].Allow? then [Allows(l, m, calls[0].key, calls[0].cost, calls[0].at)] else [])
      + Decisions(l, After(l, m, calls[0]), calls[1..])
  }

  /** The cost granted to one key over a run. */
  function Granted(l: Limits, m: Buckets, calls: seq<Call>, key: string): real
    decreases |calls|
  {
    if calls == [] then 0.0
    else
      (if calls[0].Allow? && calls[0].key == key && Allows(l, m, key, calls[0].cost, calls[0].at)
       then calls[0].cost else 0.0)
      + Granted(l, After(l, m, calls[0]), calls[1..], key)
  }

  function WithoutPrunes(calls: seq<Call>): seq<Call>
    decreases |calls|
  {
    if calls == [] then []
    else if calls[0].Prune? then WithoutPrunes(calls[1..])
    else [calls[0]] + WithoutPrunes(calls[1..])
  }

  function AfterAll(l: Limits, m: Buckets, calls: seq<Call>): Buckets
    decreases |calls|
  {
    if calls == [] then m else AfterAll(l, After(l, m, calls[0]), calls[1..])
  }

  /** No bucket is in debt or from the future. */
  predicate Sound(m: Buckets, now: real) {
    forall key | key in m :: m[key].tokens >= 0.0 && m[key].updated <= now
  }

  // ------------------------------------------------------ levels

  lemma RefillGrows(l: Limits, x: real, y: real)
    requires x <= y && Sensible(l)
    ensures Refill(l, x) <= Refill(l, y)
  {}

  lemma RefillAdds(l: Limits, x: real, y: real)
    ensures Refill(l, x + y) == Refill(l, x) + Refill(l, y)
    ensures Refill(l, 0.0) == 0.0
  {}

  /** Between two looks at a key its level rises at the rate, up to the capacity. */
  lemma LevelRises(l: Limits, m: Buckets, key: string, t: real, now: real)
    requires Sensible(l) && Sound(m, t) && t <= now
    ensures Level(l, m, key, now) == Min(l.capacity, Level(l, m, key, t) + Refill(l, now - t))
    ensures 0.0 <= Level(l, m, key, t) <= Level(l, m, key, now) <= Level(l, m, key, t) + Refill(l, now - t)
  {
    RefillAdds(l, 0.0, 0.0);
    RefillGrows(l, 0.0, now - t);
    if key in m {
      RefillGrows(l, 0.0, t - m[key].updated);
      RefillAdds(l, t - m[key].updated, now - t);
    }
    hide Refill;
  }

  /** Pruning touches no level once an idle bucket is sure to be full. */
  lemma PruneKeepsLevel(l: Limits, m: Buckets, key: string, now: real)
    requires Sensible(l) && Sound(m, now) && Refill(l, l.maxIdle) >= l.capacity
    ensures Level(l, AfterPrune(l, m, now), key, now) == Level(l, m, key, now)
  {
    if key in m && Stale(l, m[key], now) {
      RefillGrows(l, l.maxIdle, now - m[key].updated);
    }
  }

  lemma AfterIsSound(l: Limits, m: Buckets, call: Call)
    requires Sensible(l) && Sound(m, call.at)
    ensures Sound(After(l, m, call), call.at)
  {
    if call.Allow? {
      LevelRises(l, m, call.key, call.at, call.at);
    }
  }

  // ------------------------------------------------------ what a call costs

  /**
   A refused call costs its key nothing, at no later time either; an allowed one takes
   exactly its cost from what the key has at the time; and no other key notices.
   */
  lemma CallCosts(l: Limits, m: Buckets, key: string, cost: real, now: real, other: string, later: real)
    requires Sensible(l) && Sound(m, now) && now <= later
    ensures var m' := After(l, m, Allow(key, cost, now));
            Level(l, m', other, later) ==
              if other == key && Allows(l, m, key, cost, now)
              then Min(l.capacity, Level(l, m, key, now) - cost + (later - now) * l.rate)
              else Level(l, m, other, later)
  {
    LevelRises(l, m, other, now, later);
  }

  predicate Waits(calls: seq<Call>, key: string) {
    forall call | call in calls :: call.Allow? ==> call.key != key
  }

  /** Who waits gets at least its refill, whatever other keys do and whichever buckets are pruned meanwhile. */
  lemma {:induction false} WaitingRefills(l: Limits, m: Buckets, calls: seq<Call>, key: string, t: real, end: real)
    requires Sensible(l) && Sound(m, t) && Monotone(calls, t) && Waits(calls, key)
    requires t <= end && (calls != [] ==> calls[|calls| - 1].at <= end)
    ensures Level(l, AfterAll(l, m, calls), key, end) >= Min(l.capacity, Level(l, m, key, t) + Refill(l, end - t))
    decreases |calls|
  {
    hide Refill;
    LevelRises(l, m, key, t, end);
    if calls != [] {
      var now, m' := calls[0].at, After(l, m, calls[0]);
      LastIsLatest(calls, t);
      AfterIsSound(l, m, calls[0]);
      LevelRises(l, m, key, t, now);
      assert Level(l, m', key, now) >= Level(l, m, key, now) by {
        assert calls[0] in calls;
        LevelIsCapped(l, m, key, now);
      }
      assert forall call | call in calls[1..] :: call in calls;
      WaitingRefills(l, m', calls[1..], key, now, end);
      RefillAdds(l, end - now, now - t);
      RefillGrows(l, 0.0, end - now);
    }
  }

  lemma LevelIsCapped(l: Limits, m: Buckets, key: string, now: real)
    ensures Level(l, m, key, now) <= l.capacity
  {
  }

  /** So a refused client is served as soon as it has waited for what it lacked, if its call can be afforded at all. */
  lemma WaitingIsEnough(
    l: Limits, m: Buckets, key: string, cost: real, t: real, calls: seq<Call>, end: real)
    requires Sensible(l) && Sound(m, t) && cost <= l.capacity && !Allows(l, m, key, cost, t)
    requires Monotone(calls, t) && Waits(calls, key)
    requires t <= end && (calls != [] ==> calls[|calls| - 1].at <= end)
    requires (end - t) * l.rate >= cost - Level(l, m, key, t)
    ensures Allows(l, AfterAll(l, After(l, m, Allow(key, cost, t)), calls), key, cost, end)
  {
    var m' := After(l, m, Allow(key, cost, t));
    assert Refill(l, end - t) >= cost - Level(l, m, key, t);
    hide Refill, Sound, Monotone, Waits;
    AfterIsSound(l, m, Allow(key, cost, t));
    CallCosts(l, m, key, cost, t, key, t);
    WaitingRefills(l, m', calls, key, t, end);
  }

  // ------------------------------------------------------ main results

  /** What a key is granted from some moment on is paid for by its level then and by the refill since. */
  lemma {:induction false} GrantedIsPaidFor(l: Limits, m: Buckets, calls: seq<Call>, key: string, t: real, end: real)
    requires Sensible(l) && Sound(m, t) && Monotone(calls, t)
    requires t <= end && (calls != [] ==> calls[|calls| - 1].at <= end)
    requires Refill(l, l.maxIdle) >= l.capacity || forall call | call in calls :: call.Allow?
    ensures Granted(l, m, calls, key) <= Level(l, m, key, t) + Refill(l, end - t)
    decreases |calls|
  {
    hide Refill;
    LevelRises(l, m, key, t, end);
    if calls != [] {
      var now := calls[0].at;
      var m' := After(l, m, calls[0]);
      LastIsLatest(calls, t);
      AfterIsSound(l, m, calls[0]);
      LevelRises(l, m, key, t, now);
      GrantedIsPaidFor(l, m', calls[1..], key, now, end);
      RefillAdds(l, end - now, now - t);
      if calls[0].Prune? {
        PruneKeepsLevel(l, m, key, now);
      }
    }
  }

  lemma {:induction false} LastIsLatest(calls: seq<Call>, t: real)
    requires calls != [] && Monotone(calls, t)
    ensures t <= calls[0].at <= calls[|calls| - 1].at
    decreases |calls|
  {
    if |calls| > 1 {
      LastIsLatest(calls[1..], calls[0].at);
    }
  }

  lemma {:induction false} AfterAllIsSound(l: Limits, m: Buckets, calls: seq<Call>, t: real) returns (now: real)
    requires Sensible(l) && Sound(m, t) && Monotone(calls, t)
    ensures now == if calls == [] then t else calls[|calls| - 1].at
    ensures Sound(AfterAll(l, m, calls), now)
    decreases |calls|
  {
    if calls == [] {
      now := t;
    } else {
      AfterIsSound(l, m, calls[0]);
      now := AfterAllIsSound(l, After(l, m, calls[0]), calls[1..], calls[0].at);
    }
  }

  lemma {:induction false} MonotoneSplits(before: seq<Call>, window: seq<Call>, t: real)
    requires Monotone(before + window, t)
    ensures Monotone(before, t)
    ensures Monotone(window, if before == [] then t else before[|before| - 1].at)
    decreases |before|
  {
    if before == [] {
      assert before + window == window;
    } else {
      assert (before + window)[1..] == before[1..] + window;
      MonotoneSplits(before[1..], window, before[0].at);
    }
  }

  /** A run that begins at `start` and ends with the given stretch. */
  predicate Continues(before: seq<Call>, window: seq<Call>, start: real) {
    window != [] && Monotone(before + window, start)
  }

  /** In this stretch of a run the key is granted no more than the capacity and the refill over the stretch. */
  predicate WithinRate(l: Limits, before: seq<Call>, window: seq<Call>, key: string)
    requires window != []
  {
    Granted(l, AfterAll(l, map[], before), window, key)
    <= l.capacity + Refill(l, window[|window| - 1].at - window[0].at)
  }

  /**
   The rate bound: in any stretch of any run from an empty table, one key is granted at
   most the capacity plus the refill over the stretch, provided that the run has no
   prunes or that a bucket idle long enough to be pruned would be full.
   */
  lemma RateIsBounded(l: Limits, before: seq<Call>, window: seq<Call>, key: string, start: real)
    requires Sensible(l) && Continues(before, window, start)
    requires Refill(l, l.maxIdle) >= l.capacity || forall call | call in window :: call.Allow?
    ensures WithinRate(l, before, window, key)
  {
    MonotoneSplits(before, window, start);
    var now := AfterAllIsSound(l, map[], before, start);
    var first := window[0].at;
    LastIsLatest(window, now);
    GrantedIsPaidFor(l, AfterAll(l, map[], before), window, key, first, window[|window| - 1].at);
  }

  /** Two tables that give every key the same level at `now` decide alike from then on. */
  lemma {:induction false} SameLevelsSameDecisions(l: Limits, m: Buckets, m': Buckets, calls: seq<Call>, t: real)
    requires Sensible(l) && Sound(m, t) && Sound(m', t) && Monotone(calls, t)
    requires Refill(l, l.maxIdle) >= l.capacity
    requires forall key :: Level(l, m, key, t) == Level(l, m', key, t)
    ensures Decisions(l, m, calls) == Decisions(l, m', WithoutPrunes(calls))
    decreases |calls|
  {
    if calls != [] {
      var now := calls[0].at;
      var n, n' := After(l, m, calls[0]), if calls[0].Prune? then m' else After(l, m', calls[0]);
      AfterIsSound(l, m, calls[0]);
      AfterIsSound(l, m', calls[0]);
      forall key
        ensures Level(l, n, key, now) == Level(l, n', key, now)
        ensures Level(l, m, key, now) == Level(l, m', key, now)
      {
        LevelRises(l, m, key, t, now);
        LevelRises(l, m', key, t, now);
        if calls[0].Prune? {
          PruneKeepsLevel(l, m, key, now);
        }
      }
      SameLevelsSameDecisions(l, n, n', calls[1..], now);
      if calls[0].Allow? {
        assert ([calls[0]] + WithoutPrunes(calls[1..]))[1..] == WithoutPrunes(calls[1..]);
      }
    }
  }

  /** A moment after which an idle bucket is pruned although it would not be full yet. */
  lemma PrunedTooSoon(l: Limits) returns (later: real)
    requires Sensible(l) && l.maxIdle >= 0.0 && Refill(l, l.maxIdle) < l.capacity
    ensures later > l.maxIdle && Refill(l, later) < l.capacity
  {
    var extra := if l.rate == 0.0 then 1.0 else (l.capacity - Refill(l, l.maxIdle)) / (2.0 * l.rate);
    later := l.maxIdle + extra;
    assert extra > 0.0 && later * l.rate < l.capacity by {
      if l.rate > 0.0 {
        assert extra * l.rate == (l.capacity - Refill(l, l.maxIdle)) / 2.0;
      }
    }
  }

  /** Some client spends its burst, is pruned, and spends it again. */
  function SpendTwice(l: Limits, later: real): seq<Call> {
    [Allow("", l.capacity, 0.0), Prune(later), Allow("", l.capacity, later)]
  }

  lemma SpendsTwice(l: Limits, later: real)
    requires Sensible(l) && l.maxIdle >= 0.0 && later > l.maxIdle
    ensures Monotone(SpendTwice(l, later), 0.0) && Decisions(l, map[], SpendTwice(l, later)) == [true, true]
    ensures Granted(l, map[], SpendTwice(l, later), "") == l.capacity + l.capacity
  {
    var calls, again := SpendTwice(l, later), Allow("", l.capacity, later);
    var m1 := After(l, map[], calls[0]);
    assert m1 == map["" := Bucket(0.0, 0.0)];
    assert After(l, m1, Prune(later)) == map[];
    var tail := [Prune(later), again];
    assert calls[1..] == tail && tail[1..] == [again] && [again][1..] == [];
    assert Monotone([again], later) && Monotone(tail, 0.0);
    assert Decisions(l, map[], [again]) == [true] && Decisions(l, m1, tail) == [true];
    assert Granted(l, map[], [again], "") == l.capacity && Granted(l, m1, tail, "") == l.capacity;
  }

  /** That happens before the bucket could have refilled, so without the prune the second burst is refused. */
  lemma PruningIsObservable(l: Limits) returns (calls: seq<Call>)
    requires Sensible(l) && l.maxIdle >= 0.0 && Refill(l, l.maxIdle) < l.capacity
    ensures Monotone(calls, 0.0) && Decisions(l, map[], calls) != Decisions(l, map[], WithoutPrunes(calls))
  {
    var later := PrunedTooSoon(l);
    calls := SpendTwice(l, later);
    SpendsTwice(l, later);
    var spend, again := calls[0], Allow("", l.capacity, later);
    var m1 := After(l, map[], spend);
    assert m1 == map["" := Bucket(0.0, 0.0)];
    var tail, kept := [Prune(later), again], [spend, again];
    assert calls[1..] == tail && tail[1..] == [again] && kept[1..] == [again] && [again][1..] == [];
    assert WithoutPrunes([again]) == [again] + [];
    assert WithoutPrunes(tail) == [again] && WithoutPrunes(calls) == kept;
    assert Level(l, m1, "", later) == Min(l.capacity, later * l.rate);
    assert Decisions(l, m1, [again]) == [false];
    assert Decisions(l, map[], kept)[1] == false;
  }

  /** The rate bound holds in all runs, prunes included, exactly when the idle limit refills a bucket. */
  lemma RateIsBoundedIff(l: Limits)
    requires Sensible(l) && l.maxIdle >= 0.0
    ensures (forall before, window, key, start | Continues(before, window, start) :: WithinRate(l, before, window, key))
            <==> Refill(l, l.maxIdle) >= l.capacity
  {
    if Refill(l, l.maxIdle) >= l.capacity {
      forall before, window, key, start | Continues(before, window, start)
        ensures WithinRate(l, before, window, key)
      {
        RateIsBounded(l, before, window, key, start);
      }
    } else {
      var later := PrunedTooSoon(l);
      var calls := SpendTwice(l, later);
      SpendsTwice(l, later);
      assert [] + calls == calls && Continues([], calls, 0.0);
      assert AfterAll(l, map[], []) == map[];
      assert calls[|calls| - 1].at - calls[0].at == later;
      assert !WithinRate(l, [], calls, "");
    }
  }

  /** Pruning is unobservable exactly when the refill over the idle limit fills a bucket. */
  lemma PruningIsUnobservableIff(l: Limits)
    requires Sensible(l) && l.maxIdle >= 0.0
    ensures (forall calls | Monotone(calls, 0.0) ::
               Decisions(l, map[], calls) == Decisions(l, map[], WithoutPrunes(calls)))
            <==> Refill(l, l.maxIdle) >= l.capacity
  {
    if Refill(l, l.maxIdle) >= l.capacity {
      forall calls | Monotone(calls, 0.0)
        ensures Decisions(l, map[], calls) == Decisions(l, map[], WithoutPrunes(calls))
      {
        SameLevelsSameDecisions(l, map[], map[], calls, 0.0);
      }
    } else {
      var calls := PruningIsObservable(l);
    }
  }
}
