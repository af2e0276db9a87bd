/** The in-memory token buckets of src/utils/tokenBucket.js, over exact reals. */
module TokenBuckets {
  import opened Options

  /** `refill` is tokens per millisecond. */
  datatype Config = Config(capacity: real, refill: real, idleMs: int)

  predicate ValidConfig(c: Config) {
    c.capacity >= 0.0 && c.refill >= 0.0 && c.idleMs >= 0
  }

  datatype Bucket = Bucket(tokens: real, at: int)

  function Min(x: real, y: real): real {
    if x <= y then x else y
  }

  /** The tokens a bucket holds at `now`; a new bucket is full. */
  function Level(c: Config, b: Option<Bucket>, now: int): real {
    match b
    case None => c.capacity
    case Some(b) => Min(c.capacity, b.tokens + (now - b.at) as real * c.refill)
  }

  predicate Admits(c: Config, b: Option<Bucket>, now: int) {
    Level(c, b, now) >= 1.0
  }

  function Take(c: Config, b: Option<Bucket>, now: int): Bucket {
    Bucket(if Admits(c, b, now) then Level(c, b, now) - 1.0 else Level(c, b, now), now)
  }

  predicate ValidBucket(c: Config, b: Option<Bucket>, now: int) {
    b.Some? ==> 0.0 <= b.value.tokens <= c.capacity && b.value.at <= now
  }

  // ----- The rate bound, for one key -----

  predicate NonDecreasing(times: seq<int>) {
    forall i, j :: 0 <= i < j < |times| ==> times[i] <= times[j]
  }

  /** The number of admissions among takes at these times. */
  function Admissions(c: Config, b: Option<Bucket>, times: seq<int>): nat
    decreases |times|
  {
    if times == [] then 0
    else (if Admits(c, b, times[0]) then 1 else 0) + Admissions(c, Some(Take(c, b, times[0])), times[1..])
  }

  /** The tokens that flow in from one time to another. */
  function Inflow(c: Config, from: int, until: int): real {
    (until - from) as real * c.refill
  }

  /** What is spent was there at the start or flowed in since. */
  lemma {:induction false} SpentIsCovered(c: Config, b: Option<Bucket>, times: seq<int>)
    requires ValidConfig(c) && times != [] && NonDecreasing(times) && ValidBucket(c, b, times[0])
    ensures Admissions(c, b, times) as real <= Level(c, b, times[0]) + Inflow(c, times[0], times[|times| - 1])
    decreases |times|
  {
    var b', rest := Some(Take(c, b, times[0])), times[1..];
    var one := if Admits(c, b, times[0]) then 1 else 0;
    assert Admissions(c, b, times) == one + Admissions(c, b', rest);
    assert ValidBucket(c, b', times[0]) && one as real <= Level(c, b, times[0]) by { LevelBounds(c, b, times[0]); }
    if rest == [] {
      assert Inflow(c, times[0], times[|times| - 1]) == 0.0;
    } else {
      assert times[0] <= times[1] == rest[0];
      SpentIsCovered(c, b', rest);
      SpendAndRefill(c, b, times[0], rest[0]);
      InflowAdds(c, times[0], rest[0], times[|times| - 1]);
      AddUp(Admissions(c, b, times) as real, Admissions(c, b', rest) as real, one as real,
            Level(c, b, times[0]), Level(c, b', rest[0]), Inflow(c, times[0], rest[0]),
            Inflow(c, rest[0], times[|times| - 1]));
    }
  }

  lemma InflowAdds(c: Config, t0: int, t1: int, t2: int)
    ensures Inflow(c, t0, t2) == Inflow(c, t0, t1) + Inflow(c, t1, t2)
  {
    Product((t1 - t0) as real, (t2 - t1) as real, c.refill);
  }

  lemma AddUp(all: real, later: real, one: real, level: real, next: real, inflow: real, rest: real)
    requires all == one + later && later <= next + rest && next <= level - one + inflow
    ensures all <= level + (inflow + rest)
  {
  }

  /** One take and the refill up to the next one. */
  lemma SpendAndRefill(c: Config, b: Option<Bucket>, now: int, next: int)
    ensures Level(c, Some(Take(c, b, now)), next)
            <= Level(c, b, now) - (if Admits(c, b, now) then 1 else 0) as real + Inflow(c, now, next)
  {
  }

  lemma Product(x: real, y: real, k: real)
    ensures x * k + y * k == (x + y) * k
  {
  }

  lemma LevelBounds(c: Config, b: Option<Bucket>, now: int)
    requires ValidConfig(c) && ValidBucket(c, b, now)
    ensures 0.0 <= Level(c, b, now) <= c.capacity
    ensures ValidBucket(c, Some(Take(c, b, now)), now)
  {
    if b.Some? {
      assert (now - b.value.at) as real * c.refill >= 0.0;
    }
  }

  lemma WindowIsBounded(c: Config, b: Option<Bucket>, window: seq<int>)
    requires ValidConfig(c) && window != [] && NonDecreasing(window) && ValidBucket(c, b, window[0])
    ensures Admissions(c, b, window) as real <= c.capacity + Inflow(c, window[0], window[|window| - 1])
  {
    SpentIsCovered(c, b, window);
    LevelBounds(c, b, window[0]);
  }

  /** In any window of length T of any history of takes at non-decreasing times, at most
      capacity + refill * T takes are admitted. */
  lemma RateIsBounded(c: Config, b: Option<Bucket>, before: seq<int>, window: seq<int>)
    requires ValidConfig(c) && window != [] && NonDecreasing(before + window) && ValidBucket(c, b, (before + window)[0])
    ensures Admissions(c, After(c, b, before), window) as real <=
            c.capacity + Inflow(c, window[0], window[|window| - 1])
  {
    var all := before + window;
    Slices(all, |before|);
    assert all[|before|..] == window && all[..|before| + 1] == before + [window[0]];
    assert (before + [window[0]])[0] == all[0];
    AfterIsValid(c, b, before, window[0]);
    WindowIsBounded(c, After(c, b, before), window);
  }

  // ----- What is admitted at least -----

  /** A full bucket of at least n tokens admits n takes at once. */
  lemma {:induction false} BurstIsAdmitted(c: Config, b: Option<Bucket>, times: seq<int>, now: int)
    requires ValidConfig(c) && Level(c, b, now) >= |times| as real
    requires forall i :: 0 <= i < |times| ==> times[i] == now
    ensures Admissions(c, b, times) == |times|
    decreases |times|
  {
    if times != [] {
      assert times[0] == now && forall i :: 0 <= i < |times[1..]| ==> times[1..][i] == times[i + 1];
      var b' := Take(c, b, now);
      NoTimePasses(c, b', now);
      BurstIsAdmitted(c, Some(b'), times[1..], now);
    }
  }

  /** So does the bucket of a key that is new or was pruned. */
  lemma NewBucketIsFull(c: Config, times: seq<int>, now: int)
    requires ValidConfig(c) && |times| as real <= c.capacity && forall i :: 0 <= i < |times| ==> times[i] == now
    ensures Admissions(c, None, times) == |times|
  {
    BurstIsAdmitted(c, None, times, now);
  }

  lemma NoTimePasses(c: Config, b: Bucket, now: int)
    requires b.at == now && b.tokens <= c.capacity
    ensures Level(c, Some(b), now) == b.tokens
  {
    assert (now - b.at) as real == 0.0;
  }

  /** Takes that leave time for a token to flow in are all admitted, once there was one. */
  lemma {:induction false} PacedIsAdmitted(c: Config, b: Option<Bucket>, times: seq<int>)
    requires ValidConfig(c) && c.capacity >= 1.0 && times != [] && Level(c, b, times[0]) >= 1.0
    requires forall i :: 0 <= i < |times| - 1 ==> Inflow(c, times[i], times[i + 1]) >= 1.0
    ensures Admissions(c, b, times) == |times|
    decreases |times|
  {
    if |times| > 1 {
      var rest := times[1..];
      assert rest[0] == times[1] && Inflow(c, times[0], times[1]) >= 1.0;
      forall i | 0 <= i < |rest| - 1 ensures Inflow(c, rest[i], rest[i + 1]) >= 1.0 {
        assert Inflow(c, times[i + 1], times[i + 1 + 1]) >= 1.0;
      }
      var b' := Take(c, b, times[0]);
      assert Level(c, Some(b'), rest[0]) >= 1.0;
      PacedIsAdmitted(c, Some(b'), rest);
    }
  }

  /** A take that is not admitted costs nothing: later the bucket holds as much as without it. */
  lemma RefusedCostsNothing(c: Config, b: Bucket, now: int, later: int)
    requires ValidConfig(c) && now <= later && !Admits(c, Some(b), now)
    ensures Level(c, Some(Take(c, Some(b), now)), later) == Level(c, Some(b), later)
  {
    Product((now - b.at) as real, (later - now) as real, c.refill);
    assert (later - now) as real * c.refill >= 0.0;
  }

  lemma Slices(times: seq<int>, n: nat)
    requires n < |times| && NonDecreasing(times)
    ensures NonDecreasing(times[n..]) && NonDecreasing(times[..n + 1])
  {
  }

  function After(c: Config, b: Option<Bucket>, times: seq<int>): Option<Bucket>
    decreases |times|
  {
    if times == [] then b else After(c, Some(Take(c, b, times[0])), times[1..])
  }

  lemma {:induction false} AfterIsValid(c: Config, b: Option<Bucket>, times: seq<int>, now: int)
    requires ValidConfig(c) && NonDecreasing(times + [now]) && ValidBucket(c, b, (times + [now])[0])
    ensures ValidBucket(c, After(c, b, times), now)
    decreases |times|
  {
    if times != [] {
      LevelBounds(c, b, times[0]);
      var all := times + [now];
      assert all[1..] == times[1..] + [now];
      assert all[0] <= all[1];
      AfterIsValid(c, Some(Take(c, b, times[0])), times[1..], now);
    }
  }

  // ----- Pruning is invisible -----

  /** Two buckets that answer alike from `now` on: equal, or both full by then. */
  predicate SameFrom(c: Config, a: Option<Bucket>, b: Option<Bucket>, now: int) {
    a == b || (Level(c, a, now) == c.capacity && Level(c, b, now) == c.capacity)
  }

  lemma FullStaysFull(c: Config, b: Option<Bucket>, now: int, later: int)
    requires ValidConfig(c) && now <= later && Level(c, b, now) == c.capacity
    ensures Level(c, b, later) == c.capacity
  {
    if b.Some? {
      var x, y := (now - b.value.at) as real, (later - now) as real;
      Product(x, y, c.refill);
      assert y * c.refill >= 0.0;
    }
  }

  /** A bucket that was emptied fills up within the idle time that a prune allows. */
  predicate FullWhenIdle(c: Config) {
    c.capacity <= (c.idleMs + 1) as real * c.refill
  }

  /** A bucket idle for longer than idleMs is full again. */
  lemma IdleIsFull(c: Config, b: Bucket, now: int)
    requires ValidConfig(c) && FullWhenIdle(c)
    requires b.tokens >= 0.0 && now - b.at > c.idleMs
    ensures Level(c, Some(b), now) == c.capacity
  {
    Product((c.idleMs + 1) as real, (now - b.at - c.idleMs - 1) as real, c.refill);
    assert (now - b.at - c.idleMs - 1) as real * c.refill >= 0.0;
  }

  /** Every bucket that a prune drops is full if and only if the capacity flows in within idleMs + 1 ms. */
  lemma PrunedAreFullIff(c: Config)
    requires ValidConfig(c)
    ensures (forall b: Bucket, now: int :: b.tokens >= 0.0 && now - b.at > c.idleMs ==>
            Level(c, Some(b), now) == c.capacity)
            <==> FullWhenIdle(c)
  {
    if FullWhenIdle(c) {
      forall b: Bucket, now: int | b.tokens >= 0.0 && now - b.at > c.idleMs
          ensures Level(c, Some(b), now) == c.capacity {
        IdleIsFull(c, b, now);
      }
    } else {
      assert Level(c, Some(Bucket(0.0, 0)), c.idleMs + 1) == (c.idleMs + 1) as real * c.refill;
    }
  }

  datatype Call = TakeOne(key: string, now: int) | Prune(now: int)

  type Buckets = map<string, Bucket>

  function Get(m: Buckets, key: string): Option<Bucket> {
    if key in m then Some(m[key]) else None
  }

  function Pruned(c: Config, m: Buckets, now: int): Buckets {
    map k | k in m && !(now - m[k].at > c.idleMs) :: m[k]
  }

  function Apply(c: Config, m: Buckets, call: Call): Buckets {
    match call
    case TakeOne(key, now) => m[key := Take(c, Get(m, key), now)]
    case Prune(now) => Pruned(c, m, now)
  }

  /** The answers to the takes of a history; `pruning` says whether prunes are carried out. */
  function Answers(c: Config, m: Buckets, calls: seq<Call>, pruning: bool): seq<bool>
    decreases |calls|
  {
    if calls == [] then []
    else
      (if calls[0].TakeOne? then [Admits(c, Get(m, calls[0].key), calls[0].now)] else [])
      + Answers(c, if calls[0].Prune? && !pruning then m else Apply(c, m, calls[0]), calls[1..], pruning)
  }

  ghost predicate InTime(calls: seq<Call>, now: int) {
    && (forall i :: 0 <= i < |calls| ==> now <= calls[i].now)
    && (forall i, j :: 0 <= i < j < |calls| ==> calls[i].now <= calls[j].now)
  }

  ghost predicate Alike(c: Config, m: Buckets, n: Buckets, now: int) {
    forall k :: SameFrom(c, Get(m, k), Get(n, k), now) && ValidBucket(c, Get(m, k), now)
        && ValidBucket(c, Get(n, k), now)
  }

  lemma TakesAlike(c: Config, m: Buckets, n: Buckets, now: int, key: string, later: int)
    requires ValidConfig(c) && Alike(c, m, n, now) && now <= later
    ensures Admits(c, Get(m, key), later) == Admits(c, Get(n, key), later)
    ensures Alike(c, Apply(c, m, TakeOne(key, later)), Apply(c, n, TakeOne(key, later)), later)
  {
    AlikeLater(c, m, n, now, later);
    LevelBounds(c, Get(m, key), later);
    LevelBounds(c, Get(n, key), later);
    var m', n' := Apply(c, m, TakeOne(key, later)), Apply(c, n, TakeOne(key, later));
    assert Take(c, Get(m, key), later) == Take(c, Get(n, key), later);
    forall k ensures SameFrom(c, Get(m', k), Get(n', k), later) && ValidBucket(c, Get(m', k), later)
        && ValidBucket(c, Get(n', k), later) {
      assert k != key ==> Get(m', k) == Get(m, k) && Get(n', k) == Get(n, k);
    }
  }

  lemma AlikeLater(c: Config, m: Buckets, n: Buckets, now: int, later: int)
    requires ValidConfig(c) && Alike(c, m, n, now) && now <= later
    ensures Alike(c, m, n, later)
  {
    forall k ensures SameFrom(c, Get(m, k), Get(n, k), later) && ValidBucket(c, Get(m, k), later)
        && ValidBucket(c, Get(n, k), later) {
      assert SameFrom(c, Get(m, k), Get(n, k), now);
      if Get(m, k) != Get(n, k) {
        FullStaysFull(c, Get(m, k), now, later);
        FullStaysFull(c, Get(n, k), now, later);
      }
    }
  }

  lemma PruneAlike(c: Config, m: Buckets, n: Buckets, now: int)
    requires ValidConfig(c) && FullWhenIdle(c) && Alike(c, m, n, now)
    ensures Alike(c, Pruned(c, m, now), n, now)
  {
    forall k ensures SameFrom(c, Get(Pruned(c, m, now), k), Get(n, k), now)
        && ValidBucket(c, Get(Pruned(c, m, now), k), now) && ValidBucket(c, Get(n, k), now) {
      assert SameFrom(c, Get(m, k), Get(n, k), now) && ValidBucket(c, Get(m, k), now) && ValidBucket(c, Get(n, k), now);
      if k in m && k !in Pruned(c, m, now) {
        IdleIsFull(c, m[k], now);
      }
    }
  }

  lemma {:induction false} PruneInvisibleFrom(c: Config, m: Buckets, n: Buckets, calls: seq<Call>, now: int)
    requires ValidConfig(c) && FullWhenIdle(c)
    requires Alike(c, m, n, now) && InTime(calls, now)
    ensures Answers(c, m, calls, true) == Answers(c, n, calls, false)
    decreases |calls|
  {
    if calls != [] {
      var later := calls[0].now;
      assert InTime(calls[1..], later);
      AlikeLater(c, m, n, now, later);
      match calls[0]
      case TakeOne(key, _) =>
        TakesAlike(c, m, n, now, key, later);
        PruneInvisibleFrom(c, Apply(c, m, calls[0]), Apply(c, n, calls[0]), calls[1..], later);
      case Prune(_) =>
        PruneAlike(c, m, n, later);
        PruneInvisibleFrom(c, Pruned(c, m, later), n, calls[1..], later);
    }
  }

  /** A pruned bucket map answers every history of takes at non-decreasing times like one that is never
      pruned, whenever the capacity flows in within idleMs + 1 ms. */
  lemma PruneIsInvisible(c: Config, calls: seq<Call>, start: int)
    requires ValidConfig(c) && FullWhenIdle(c) && InTime(calls, start)
    ensures Answers(c, map[], calls, true) == Answers(c, map[], calls, false)
  {
    assert Alike(c, map[], map[], start);
    PruneInvisibleFrom(c, map[], map[], calls, start);
  }

  // ----- The objects -----

  class TokenBuckets {
    const config: Config
    var buckets: Buckets

    constructor (capacity: real, refillPerSec: real, idleMs: int)
      ensures config == Config(capacity, refillPerSec / 1000.0, idleMs) && buckets == map[]
    {
      config := Config(capacity, refillPerSec / 1000.0, idleMs);
      buckets := map[];
    }

    method TakeToken(key: string, now: int) returns (allowed: bool)
      modifies this
      ensures buckets == Apply(config, old(buckets), TakeOne(key, now))
      ensures allowed == Admits(config, Get(old(buckets), key), now)
    {
      var b: Bucket;
      if key !in buckets {
        b := Bucket(config.capacity, now);
      } else {
        b := buckets[key];
        var refilled := b.tokens + (now - b.at) as real * config.refill;
        b := Bucket(Min(config.capacity, refilled), now);
      }
      assert b == Bucket(Level(config, Get(buckets, key), now), now);
      allowed := b.tokens >= 1.0;
      if allowed {
        b := b.(tokens := b.tokens - 1.0);
      }
      buckets := buckets[key := b];
    }

    method PruneIdle(now: int)
      modifies this
      ensures buckets == Apply(config, old(buckets), Prune(now))
      // Gone are exactly the buckets untouched for longer than idleMs; the others stay as they are.
      ensures forall k :: k in buckets <==> k in old(buckets) && now - old(buckets)[k].at <= config.idleMs
      ensures forall k :: k in buckets ==> buckets[k] == old(buckets)[k]
    {
      var keys := buckets.Keys;
      while keys != {}
        invariant keys <= old(buckets).Keys
        invariant buckets.Keys == set k | k in old(buckets)
                  && (k in keys || !(now - old(buckets)[k].at > config.idleMs))
        invariant forall k :: k in buckets ==> buckets[k] == old(buckets)[k]
        decreases |keys|
      {
        var k :| k in keys;
        keys := keys - {k};
        if now - buckets[k].at > config.idleMs {
          buckets := buckets - {k};
        }
      }
    }
  }

  /** The single bucket kept on an object; it has no tokens before its first take. */
  class SocketBucket {
    var state: Option<Bucket>

    constructor ()
      ensures state == None
    {
      state := None;
    }

    method TakeToken(capacity: real, refillPerSec: real, now: int) returns (allowed: bool)
      modifies this
      ensures state == Some(Take(Config(capacity, refillPerSec / 1000.0, 0), old(state), now))
      ensures allowed == Admits(Config(capacity, refillPerSec / 1000.0, 0), old(state), now)
    {
      var tokens := capacity;
      if state.Some? {
        var refilled := state.value.tokens + ((now - state.value.at) as real * refillPerSec) / 1000.0;
        PerSecond((now - state.value.at) as real, refillPerSec);
        tokens := Min(capacity, refilled);
      }
      assert tokens == Level(Config(capacity, refillPerSec / 1000.0, 0), state, now);
      allowed := tokens >= 1.0;
      state := Some(Bucket(if allowed then tokens - 1.0 else tokens, now));
    }
  }

  lemma PerSecond(x: real, y: real)
    ensures (x * y) / 1000.0 == x * (y / 1000.0)
  {
  }
}
