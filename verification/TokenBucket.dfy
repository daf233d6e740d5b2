/**
  The ingest rate limiter (`util/rate_limiter.py`): one token bucket per identifier, the
  least recently used dropped when there are too many. Time and tokens are reals; the
  clock is read before the lock is taken, so readings may arrive out of order.
 */
module TokenBucket {
  import opened Prelude

  datatype Bucket = Bucket(tokens: real, stamp: real)

  /** The limiter's constants; the constructor refuses others. */
  datatype Limits = Limits(maxTokens: real, rate: real, maxBuckets: nat)

  predicate Proper(l: Limits) { l.maxTokens > 0.0 && l.rate > 0.0 && l.maxBuckets > 0 }

  /** One reading of the clock and what is asked for. */
  datatype Reading = Reading(now: real, cost: real)

  datatype Taken = Taken(bucket: Bucket, allowed: bool)

  /** What flows in between two readings. */
  type Flow = (real, real) -> real

  function Refill(rate: real): Flow { (from: real, to: real) => (to - from) * rate }

  function Refilled(b: Bucket, now: real, flow: Flow, max: real): real {
    var t := b.tokens + flow(b.stamp, now);
    if t < max then t else max
  }

  /** What `acquire` does to a bucket. */
  function Take(b: Bucket, r: Reading, flow: Flow, max: real): Taken {
    if r.cost <= 0.0 then Taken(b, true)
    else
      var t := Refilled(b, r.now, flow, max);
      if t >= r.cost then Taken(Bucket(t - r.cost, r.now), true) else Taken(Bucket(t, r.now), false)
  }

  // ----- the limiter ---------------------------------------------------------------------

  class TokenBucketStrategy {
    const limits: Limits
    var buckets: map<string, Bucket>
    var order: seq<string>          // of the ordered dictionary: least recently used first

    ghost predicate Valid() reads this {
      && Proper(limits)
      && |order| <= limits.maxBuckets
      && (forall i, j :: 0 <= i < j < |order| ==> order[i] != order[j])
      && (forall id :: id in buckets <==> id in order)
    }

    constructor (limits: Limits)
      requires Proper(limits)
      ensures Valid() && this.limits == limits && buckets == map[] && order == []
    {
      this.limits, buckets, order := limits, map[], [];
    }

    /** Makes `id` the most recently used, after the oldest made room for a new one. */
    method Touch(id: string, now: real)
      requires Valid()
      modifies this
      ensures Valid() && order == Recent(old(order), id, limits.maxBuckets)
      ensures buckets == WithBucket(old(buckets), old(order), id, now, limits)
    {
      if id in buckets {
        var i := Position(order, id);
        order := order[..i] + order[i + 1..] + [id];
      } else {
        if |order| == limits.maxBuckets {
          buckets := buckets - {order[0]};
          order := order[1..];
        }
        order := order + [id];
        buckets := buckets[id := Bucket(limits.maxTokens, now)];
      }
    }

    /** Refills a bucket and takes the cost from it, if it holds that much. */
    method TakeFrom(id: string, r: Reading) returns (allowed: bool)
      requires Valid() && id in buckets && r.cost > 0.0
      modifies this`buckets
      ensures Valid()
      ensures Taken(buckets[id], allowed) == Take(old(buckets)[id], r, Refill(limits.rate), limits.maxTokens)
      ensures buckets == old(buckets)[id := buckets[id]]
      ensures r.cost > limits.maxTokens ==> !allowed
    {
      var bucket := buckets[id];
      var t := bucket.tokens + Refill(limits.rate)(bucket.stamp, r.now);
      if t > limits.maxTokens {
        t := limits.maxTokens;
      }
      allowed := t >= r.cost;
      buckets := buckets[id := Bucket(if allowed then t - r.cost else t, r.now)];
    }

    /** `acquire`: the bucket asked for is taken from; all others stay, but the oldest when a new one needs its room. */
    method Acquire(id: string, r: Reading) returns (allowed: bool)
      requires Valid()
      modifies this
      ensures Valid()
      ensures r.cost <= 0.0 ==> allowed && buckets == old(buckets) && order == old(order)
      ensures r.cost > 0.0 ==>
        var ready := WithBucket(old(buckets), old(order), id, r.now, limits);
        var taken := Take(ready[id], r, Refill(limits.rate), limits.maxTokens);
        && allowed == taken.allowed && buckets == ready[id := taken.bucket]
        && order == Recent(old(order), id, limits.maxBuckets)
      ensures r.cost > limits.maxTokens ==> !allowed
    {
      if r.cost <= 0.0 {
        return true;
      }
      Touch(id, r.now);
      allowed := TakeFrom(id, r);
    }
  }

  function Position(s: seq<string>, x: string): (i: nat)
    requires x in s
    ensures i < |s| && s[i] == x
  {
    if s[0] == x then 0 else 1 + Position(s[1..], x)
  }

  /** The buckets with one for `id`: its own, or a full new one for which the oldest makes room. */
  function WithBucket(buckets: map<string, Bucket>, order: seq<string>, id: string, now: real, l: Limits): (b: map<string, Bucket>)
    requires |order| == l.maxBuckets ==> |order| > 0
    ensures id in b
  {
    if id in buckets then buckets
    else (if |order| == l.maxBuckets then buckets - {order[0]} else buckets)[id := Bucket(l.maxTokens, now)]
  }

  /** The order of use after `id` was used: it comes last, the rest keep theirs, a full table loses its first. */
  function Recent(order: seq<string>, id: string, max: nat): seq<string>
    requires max > 0
  {
    if id in order then
      var i := Position(order, id);
      order[..i] + order[i + 1..] + [id]
    else (if |order| == max then order[1..] else order) + [id]
  }

  // ----- one identifier that is not evicted ----------------------------------------------------

  function After(b: Bucket, readings: seq<Reading>, flow: Flow, max: real): Bucket {
    if readings == [] then b else Take(After(b, readings[..|readings| - 1], flow, max), readings[|readings| - 1], flow, max).bucket
  }

  /** The cost granted over the readings. */
  function Granted(b: Bucket, readings: seq<Reading>, flow: Flow, max: real): real {
    if readings == [] then 0.0
    else
      var n := |readings| - 1;
      Granted(b, readings[..n], flow, max) + GrantedNow(After(b, readings[..n], flow, max), readings[n], flow, max)
  }

  function GrantedNow(b: Bucket, r: Reading, flow: Flow, max: real): real {
    if r.cost > 0.0 && Take(b, r, flow, max).allowed then r.cost else 0.0
  }

  /** What ran over the brim. */
  function Spilled(b: Bucket, readings: seq<Reading>, flow: Flow, max: real): real {
    if readings == [] then 0.0
    else
      var n := |readings| - 1;
      Spilled(b, readings[..n], flow, max) + SpilledNow(After(b, readings[..n], flow, max), readings[n], flow, max)
  }

  function SpilledNow(b: Bucket, r: Reading, flow: Flow, max: real): real {
    if r.cost <= 0.0 then 0.0 else b.tokens + flow(b.stamp, r.now) - Refilled(b, r.now, flow, max)
  }

  /** The latest stamp up to the end of the readings. */
  function Latest(b: Bucket, readings: seq<Reading>, flow: Flow, max: real): real {
    if readings == [] then b.stamp
    else
      var m := Latest(b, readings[..|readings| - 1], flow, max);
      var s := After(b, readings, flow, max).stamp;
      if s > m then s else m
  }

  /** All that the laws below need of a steady refill. */
  ghost predicate Steady(flow: Flow) {
    && (forall a, b, c :: flow(a, b) + flow(b, c) == flow(a, c))
    && (forall a, b :: a <= b ==> flow(a, b) >= 0.0)
  }

  lemma RefillIsSteady(rate: real)
    requires rate > 0.0
    ensures Steady(Refill(rate))
  {
    var flow := Refill(rate);
    forall a, b, c ensures flow(a, b) + flow(b, c) == flow(a, c) {
      Distributes(b - a, c - b, rate);
    }
    forall a, b | a <= b ensures flow(a, b) >= 0.0 {
      NotNegative(b - a, rate);
    }
  }

  lemma Distributes(x: real, y: real, k: real)
    ensures x * k + y * k == (x + y) * k
  {
  }

  lemma NotNegative(x: real, k: real)
    requires x >= 0.0 && k > 0.0
    ensures x * k >= 0.0
  {
  }

  lemma NoTime(flow: Flow, a: real)
    requires Steady(flow)
    ensures flow(a, a) == 0.0
  {
    assert flow(a, a) + flow(a, a) == flow(a, a);
  }

  /** Conservation: tokens left, granted and spilled are what was there and what came in between the stamps. */
  lemma {:induction false} Conserved(b: Bucket, readings: seq<Reading>, flow: Flow, max: real)
    requires Steady(flow)
    ensures var end := After(b, readings, flow, max);
            end.tokens + Granted(b, readings, flow, max) + Spilled(b, readings, flow, max) == b.tokens + flow(b.stamp, end.stamp)
    ensures Spilled(b, readings, flow, max) >= 0.0
    ensures b.tokens <= max ==> After(b, readings, flow, max).tokens <= max
    decreases |readings|
  {
    if readings == [] {
      NoTime(flow, b.stamp);
    } else {
      var n := |readings| - 1;
      Conserved(b, readings[..n], flow, max);
      var before := After(b, readings[..n], flow, max);
      assert flow(b.stamp, before.stamp) + flow(before.stamp, readings[n].now) == flow(b.stamp, readings[n].now);
    }
  }

  /** A bucket owes tokens only to a reading that came late, and no more than the refill since. */
  lemma {:induction false} OwesOnlyToLateReadings(b: Bucket, readings: seq<Reading>, flow: Flow, max: real)
    requires Steady(flow) && b.tokens >= 0.0 && max >= 0.0
    ensures var end := After(b, readings, flow, max);
            var latest := Latest(b, readings, flow, max);
            end.stamp <= latest && end.tokens + flow(end.stamp, latest) >= 0.0
    decreases |readings|
  {
    if readings == [] {
      NoTime(flow, b.stamp);
    } else {
      var n := |readings| - 1;
      OwesOnlyToLateReadings(b, readings[..n], flow, max);
      LateStep(After(b, readings[..n], flow, max), readings[n], flow, max,
               Latest(b, readings[..n], flow, max), Latest(b, readings, flow, max));
    }
  }

  lemma LateStep(before: Bucket, r: Reading, flow: Flow, max: real, m: real, m': real)
    requires Steady(flow) && max >= 0.0 && before.stamp <= m && before.tokens + flow(before.stamp, m) >= 0.0
    requires var s := Take(before, r, flow, max).bucket.stamp; m' == if s > m then s else m
    ensures var end := Take(before, r, flow, max).bucket;
            end.stamp <= m' && end.tokens + flow(end.stamp, m') >= 0.0
  {
    var end := Take(before, r, flow, max).bucket;
    assert flow(before.stamp, m) + flow(m, m') == flow(before.stamp, m');
    assert flow(before.stamp, end.stamp) + flow(end.stamp, m') == flow(before.stamp, m');
    assert flow(m, m') >= 0.0 && flow(end.stamp, m') >= 0.0;
  }

  /**
    Between any two moments of a bucket's life at most `max` tokens and the refill between their stamps are
    granted, whatever order the readings came in, provided that the later moment does not owe tokens.
   */
  lemma GrantedIsBounded(b: Bucket, readings: seq<Reading>, flow: Flow, max: real)
    requires Steady(flow) && b.tokens <= max
    ensures var end := After(b, readings, flow, max);
            end.tokens >= 0.0 ==> Granted(b, readings, flow, max) <= max + flow(b.stamp, end.stamp)
  {
    Conserved(b, readings, flow, max);
  }

  /**
    The last reading decides, between any two moments. If it was granted the bound holds, in any order of
    readings. If it was refused the bound holds exactly when the bucket, refilled to that reading and counting
    what ran over before it and what was missing at the start, would not have been below zero.
   */
  lemma LastReadingDecides(b: Bucket, readings: seq<Reading>, last: Reading, flow: Flow, max: real)
    requires Steady(flow) && b.tokens <= max && last.cost > 0.0
    ensures var before := After(b, readings, flow, max);
            var bound := max + flow(b.stamp, last.now);
            if Take(before, last, flow, max).allowed then Granted(b, readings + [last], flow, max) <= bound
            else Granted(b, readings + [last], flow, max) <= bound
                 <==> before.tokens + flow(before.stamp, last.now) + Spilled(b, readings, flow, max) + (max - b.tokens) >= 0.0
  {
    var all := readings + [last];
    assert all[..|all| - 1] == readings;
    Conserved(b, all, flow, max);
  }

  /** From a full bucket, readings that never ran over: the guard alone. */
  lemma RefusedWithinBoundExactly(b: Bucket, readings: seq<Reading>, last: Reading, flow: Flow, max: real)
    requires Steady(flow) && b.tokens == max && last.cost > 0.0 && Spilled(b, readings, flow, max) == 0.0
    requires !Take(After(b, readings, flow, max), last, flow, max).allowed
    ensures var before := After(b, readings, flow, max);
            Granted(b, readings + [last], flow, max) <= max + flow(b.stamp, last.now)
            <==> before.tokens + flow(before.stamp, last.now) >= 0.0
  {
    LastReadingDecides(b, readings, last, flow, max);
  }

  /** Measured to the latest reading seen, the bound holds between any two moments of every run. */
  lemma BoundToLatestReading(b: Bucket, readings: seq<Reading>, more: seq<Reading>, flow: Flow, max: real)
    requires Steady(flow) && 0.0 <= b.tokens <= max
    ensures var mid := After(b, readings, flow, max);
            Granted(mid, more, flow, max) <= max + flow(mid.stamp, Latest(b, readings + more, flow, max))
  {
    var mid := After(b, readings, flow, max);
    Conserved(b, readings, flow, max);
    Conserved(mid, more, flow, max);
    AfterAppend(b, readings, more, flow, max);
    OwesOnlyToLateReadings(b, readings + more, flow, max);
    var end, latest := After(mid, more, flow, max), Latest(b, readings + more, flow, max);
    assert flow(mid.stamp, end.stamp) + flow(end.stamp, latest) == flow(mid.stamp, latest);
  }

  lemma {:induction false} AfterAppend(b: Bucket, a: seq<Reading>, c: seq<Reading>, flow: Flow, max: real)
    ensures After(b, a + c, flow, max) == After(After(b, a, flow, max), c, flow, max)
    decreases |c|
  {
    if c == [] {
      assert a + c == a;
    } else {
      assert (a + c)[..|a + c| - 1] == a + c[..|c| - 1];
      AfterAppend(b, a, c[..|c| - 1], flow, max);
    }
  }

  lemma {:induction false} StampBelow(b: Bucket, readings: seq<Reading>, flow: Flow, max: real, bound: real)
    requires b.stamp <= bound && forall i :: 0 <= i < |readings| ==> readings[i].now <= bound
    ensures After(b, readings, flow, max).stamp <= bound
    decreases |readings|
  {
    if readings != [] {
      StampBelow(b, readings[..|readings| - 1], flow, max, bound);
    }
  }

  /** Readings in order never leave a bucket owing, so the bound holds between all their moments. */
  lemma {:induction false} InOrderOwesNothing(b: Bucket, readings: seq<Reading>, flow: Flow, max: real)
    requires Steady(flow) && b.tokens >= 0.0 && max >= 0.0
    requires forall i :: 0 <= i < |readings| ==> readings[i].now >= b.stamp
    requires forall i, j :: 0 <= i < j < |readings| ==> readings[i].now <= readings[j].now
    ensures After(b, readings, flow, max).tokens >= 0.0
    decreases |readings|
  {
    if readings != [] {
      var n := |readings| - 1;
      InOrderOwesNothing(b, readings[..n], flow, max);
      StampBelow(b, readings[..n], flow, max, readings[n].now);
    }
  }

  /**
    A full bucket emptied by one reading and then asked at any earlier time: the second reading is refused,
    and the window between the two stamps has seen more granted than the bound, for every size of bucket,
    rate, cost and lateness.
   */
  lemma LateRefusalExceeds(max: real, flow: Flow, at: real, late: real, cost: real)
    requires Steady(flow) && max > 0.0 && cost > 0.0 && flow(late, at) > 0.0
    ensures var b := Bucket(max, at);
            var readings := [Reading(at, max), Reading(late, cost)];
            && !Take(After(b, readings[..1], flow, max), readings[1], flow, max).allowed
            && Granted(b, readings, flow, max) > max + flow(b.stamp, After(b, readings, flow, max).stamp)
  {
    var b := Bucket(max, at);
    var first, second := Reading(at, max), Reading(late, cost);
    assert [first, second][..1] == [first] && [first][..0] == [];
    NoTime(flow, at);
    assert flow(late, at) + flow(at, late) == flow(late, late);
    NoTime(flow, late);
    assert After(b, [first], flow, max) == Bucket(0.0, at);
    assert Granted(b, [], flow, max) == 0.0;
    assert Granted(b, [first], flow, max) == Granted(b, [first][..0], flow, max) + GrantedNow(b, first, flow, max) == max;
    assert GrantedNow(Bucket(0.0, at), second, flow, max) == 0.0;
    assert After(b, [first, second], flow, max) == Bucket(flow(at, late), late);
    assert [first, second][1] == second;
  }

  // ----- in tokens and seconds ---------------------------------------------------------------

  /** Asking one identifier again and again, through the limiter; nobody else does. */
  method AcquireAll(limiter: TokenBucketStrategy, id: string, readings: seq<Reading>) returns (granted: real)
    requires limiter.Valid() && id in limiter.buckets
    modifies limiter
    ensures limiter.Valid() && id in limiter.buckets
    ensures var flow, max := Refill(limiter.limits.rate), limiter.limits.maxTokens;
            && granted == Granted(old(limiter.buckets)[id], readings, flow, max)
            && limiter.buckets[id] == After(old(limiter.buckets)[id], readings, flow, max)
  {
    granted := 0.0;
    for i := 0 to |readings|
      invariant limiter.Valid() && id in limiter.buckets
      invariant var flow, max := Refill(limiter.limits.rate), limiter.limits.maxTokens;
                && granted == Granted(old(limiter.buckets)[id], readings[..i], flow, max)
                && limiter.buckets[id] == After(old(limiter.buckets)[id], readings[..i], flow, max)
    {
      assert readings[..i + 1][..i] == readings[..i];
      var allowed := limiter.Acquire(id, readings[i]);
      if allowed && readings[i].cost > 0.0 {
        granted := granted + readings[i].cost;
      }
    }
    assert readings[..|readings|] == readings;
  }

  lemma PerSecond(rate: real, a: real, b: real)
    ensures Refill(rate)(a, b) == rate * (b - a)
  {
  }

  /**
    From any moment to a granted reading at most `max` tokens are granted and `rate` more for every second
    between the two, in whatever order the readings in between came. The limiter's flow is `Refill(rate)`, which
    is steady and brings that much (`RefillIsSteady`, `PerSecond`).
   */
  lemma GrantedPerSecond(b: Bucket, readings: seq<Reading>, last: Reading, flow: Flow, rate: real, max: real)
    requires Steady(flow) && flow(b.stamp, last.now) == rate * (last.now - b.stamp)
    requires b.tokens <= max && last.cost > 0.0 && Take(After(b, readings, flow, max), last, flow, max).allowed
    ensures Granted(b, readings + [last], flow, max) <= max + rate * (last.now - b.stamp)
  {
    LastReadingDecides(b, readings, last, flow, max);
  }

  /** A bucket left alone fills at that rate, up to its size and no further; asking for nothing is free. */
  lemma FillsPerSecond(b: Bucket, r: Reading, rate: real, max: real)
    ensures r.cost <= 0.0 ==> Take(b, r, Refill(rate), max) == Taken(b, true)
    ensures r.cost > 0.0 ==>
            var filled := b.tokens + rate * (r.now - b.stamp);
            var t := Take(b, r, Refill(rate), max);
            && (t.allowed <==> filled >= r.cost && max >= r.cost) && t.bucket.stamp == r.now
            && t.bucket.tokens == (if filled < max then filled else max) - if t.allowed then r.cost else 0.0
  {
    PerSecond(rate, b.stamp, r.now);
  }
}
