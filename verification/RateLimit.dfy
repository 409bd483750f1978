/** The per-client token bucket of the HTTP surface, over real time. */
module RateLimit {

  datatype Bucket = Bucket(tokens: real, last: real, seen: real)

  /** Refill rate per second and capacity. */
  datatype Limits = Limits(rps: real, burst: real)

  type Buckets = map<string, Bucket>

  /** Seconds after which an unused bucket is collected. */
  const TTL := 600.0

  function Min(x: real, y: real): real
  {
    if x < y then x else y
  }

  /** Tokens earned in `dt` seconds. */
  function Earned(l: Limits, dt: real): real
  {
    dt * l.rps
  }

  function Charge(cost: real): real
  {
    if cost <= 0.0 then 1.0 else cost
  }

  function Collect(m: Buckets, now: real): Buckets
  {
    map k | k in m && now - m[k].seen <= TTL :: m[k]
  }

  function Refill(l: Limits, b: Bucket, now: real): Bucket
  {
    var elapsed := now - b.last;
    if elapsed > 0.0 then Bucket(Min(b.tokens + Earned(l, elapsed), l.burst), now, now)
    else b.(seen := now)
  }

  datatype Answer = Answer(buckets: Buckets, ok: bool)

  /** One call of `allow`, with or without collecting idle buckets first. */
  function Serve(l: Limits, m: Buckets, ip: string, cost: real, now: real, collect: bool): Answer
  {
    var kept := if collect then Collect(m, now) else m;
    var b := Refill(l, if ip in kept then kept[ip] else Bucket(l.burst, now, now), now);
    if b.tokens < Charge(cost) then Answer(kept[ip := b], false)
    else Answer(kept[ip := b.(tokens := b.tokens - Charge(cost))], true)
  }

  // ----- the code

  class HttpRateLimiter {
    const limits: Limits
    var bucket: Buckets

    constructor (rps: int, burst: int)
      ensures limits == Limits(if rps <= 0 then 25.0 else rps as real, if burst <= 0 then 50.0 else burst as real)
      ensures bucket == map[]
    {
      limits := Limits(if rps <= 0 then 25.0 else rps as real, if burst <= 0 then 50.0 else burst as real);
      bucket := map[];
    }

    method Allow(ip: string, cost: real, now: real) returns (ok: bool)
      modifies this`bucket
      ensures Answer(bucket, ok) == Serve(limits, old(bucket), ip, cost, now, true)
    {
      var todo := bucket.Keys;
      while todo != {}
        invariant todo <= old(bucket).Keys
        invariant bucket == map k | k in old(bucket) && (k in todo || now - old(bucket)[k].seen <= TTL) :: old(bucket)[k]
        decreases todo
      {
        var k :| k in todo;
        todo := todo - {k};
        if now - bucket[k].seen > TTL {
          bucket := bucket - {k};
        }
      }
      assert bucket == Collect(old(bucket), now);
      hide Collect;
      ghost var first := if ip in bucket then bucket[ip] else Bucket(limits.burst, now, now);
      var b := if ip in bucket then bucket[ip] else Bucket(limits.burst, now, now);
      var elapsed := now - b.last;
      if elapsed > 0.0 {
        b := b.(tokens := b.tokens + elapsed * limits.rps);
        if b.tokens > limits.burst {
          b := b.(tokens := limits.burst);
        }
        b := b.(last := now);
      }
      b := b.(seen := now);
      assert b == Refill(limits, first, now);
      var charge := if cost <= 0.0 then 1.0 else cost;
      if b.tokens < charge {
        bucket := bucket[ip := b];
        return false;
      }
      bucket := bucket[ip := b.(tokens := b.tokens - charge)];
      return true;
    }
  }

  // ----- what a client has left

  ghost predicate Sane(l: Limits)
  {
    l.rps > 0.0 && l.burst > 0.0
  }

  /** An idle bucket is full again by the time it is collected. */
  ghost predicate RefillsInTime(l: Limits)
  {
    l.burst <= Earned(l, TTL)
  }

  ghost predicate Valid(l: Limits, m: Buckets, t: real)
  {
    forall k :: k in m ==> 0.0 <= m[k].tokens <= l.burst && m[k].last == m[k].seen <= t
  }

  /** Tokens a client would find at time `t`. */
  function Level(l: Limits, m: Buckets, ip: string, t: real): real
  {
    if ip in m then Min(m[ip].tokens + Earned(l, t - m[ip].last), l.burst) else l.burst
  }

  lemma EarnedFacts(l: Limits, x: real, y: real)
    requires Sane(l)
    ensures Earned(l, 0.0) == 0.0
    ensures Earned(l, x + y) == Earned(l, x) + Earned(l, y)
    ensures x <= y ==> Earned(l, x) <= Earned(l, y)
  {
  }

  /** Collecting never changes what a client finds, at any later time. */
  lemma CollectKeepsLevel(l: Limits, m: Buckets, now: real, ip: string, t: real)
    requires Sane(l) && RefillsInTime(l) && Valid(l, m, now) && t >= now
    ensures Level(l, Collect(m, now), ip, t) == Level(l, m, ip, t)
  {
    hide Earned;
    if ip in m {
      EarnedFacts(l, TTL, t - m[ip].last);
    }
  }

  lemma LevelGrowth(l: Limits, m: Buckets, ip: string, t: real, u: real)
    requires Sane(l) && t <= u
    ensures Level(l, m, ip, u) <= Level(l, m, ip, t) + Earned(l, u - t)
    ensures Level(l, m, ip, t) <= l.burst
  {
  }

  lemma LevelNonNegative(l: Limits, m: Buckets, ip: string, t: real)
    requires Sane(l) && Valid(l, m, t)
    ensures 0.0 <= Level(l, m, ip, t) <= l.burst
  {
    hide Earned;
    if ip in m {
      EarnedFacts(l, 0.0, t - m[ip].last);
    }
  }

  /** Refilling brings a bucket to its level. */
  lemma RefillIsLevel(l: Limits, m: Buckets, ip: string, now: real)
    requires Sane(l) && Valid(l, m, now)
    ensures Refill(l, if ip in m then m[ip] else Bucket(l.burst, now, now), now) ==
      Bucket(Level(l, m, ip, now), now, now)
  {
  }

  lemma CollectValid(l: Limits, m: Buckets, now: real)
    requires Valid(l, m, now)
    ensures Valid(l, Collect(m, now), now)
  {
  }

  /** The decision depends on the level alone, and the charge comes off it. */
  lemma ServeByLevel(l: Limits, m: Buckets, ip: string, cost: real, now: real, collect: bool)
    requires Sane(l) && RefillsInTime(l) && Valid(l, m, now)
    ensures var r := Serve(l, m, ip, cost, now, collect);
      var charge := if cost > 0.0 then cost else 1.0;
      && Valid(l, r.buckets, now)
      && (r.ok <==> Level(l, m, ip, now) >= charge)
      && ip in r.buckets
      && r.buckets[ip] == Bucket(Level(l, m, ip, now) - (if r.ok then charge else 0.0), now, now)
  {
    hide Earned, Refill, Level, Collect;
    CollectKeepsLevel(l, m, now, ip, now);
    CollectValid(l, m, now);
    LevelNonNegative(l, m, ip, now);
    RefillIsLevel(l, if collect then Collect(m, now) else m, ip, now);
  }

  /** Whatever the limits, collection plays no part for a client seen in the last ten minutes. */
  lemma RecentIsKept(l: Limits, m: Buckets, ip: string, cost: real, now: real)
    requires ip in m && now - m[ip].seen <= 600.0
    ensures var x, y := Serve(l, m, ip, cost, now, true), Serve(l, m, ip, cost, now, false);
      x.ok == y.ok && ip in x.buckets && ip in y.buckets && x.buckets[ip] == y.buckets[ip]
  {
    hide Refill, Charge;
    assert ip in Collect(m, now) && Collect(m, now)[ip] == m[ip];
  }

  /** A client's level right after its own call. */
  lemma OwnLevel(l: Limits, m: Buckets, ip: string, cost: real, now: real, collect: bool)
    requires Sane(l) && RefillsInTime(l) && Valid(l, m, now)
    ensures var r := Serve(l, m, ip, cost, now, collect);
      Level(l, r.buckets, ip, now) == Level(l, m, ip, now) - (if r.ok then Charge(cost) else 0.0)
  {
    hide Earned, Serve, Collect;
    ServeByLevel(l, m, ip, cost, now, collect);
    LevelNonNegative(l, m, ip, now);
    EarnedFacts(l, 0.0, 0.0);
  }

  lemma OthersKeepLevel(l: Limits, m: Buckets, ip: string, cost: real, now: real, collect: bool, other: string, t: real)
    requires Sane(l) && RefillsInTime(l) && Valid(l, m, now) && other != ip && t >= now
    ensures Level(l, Serve(l, m, ip, cost, now, collect).buckets, other, t) == Level(l, m, other, t)
  {
    hide Earned, Refill;
    CollectKeepsLevel(l, m, now, other, t);
  }

  // ----- runs

  datatype Call = Call(ip: string, cost: real, now: real)

  ghost predicate Ascending(calls: seq<Call>, from: real)
  {
    && (forall i :: 0 <= i < |calls| ==> from <= calls[i].now)
    && (forall i, j :: 0 <= i < j < |calls| ==> calls[i].now <= calls[j].now)
  }

  function After(l: Limits, m: Buckets, calls: seq<Call>): Buckets
    decreases |calls|
  {
    if calls == [] then m
    else After(l, Serve(l, m, calls[0].ip, calls[0].cost, calls[0].now, true).buckets, calls[1..])
  }

  /** Cost admitted for one client. */
  function Admitted(l: Limits, m: Buckets, calls: seq<Call>, ip: string): real
    decreases |calls|
  {
    if calls == [] then 0.0
    else
      var r := Serve(l, m, calls[0].ip, calls[0].cost, calls[0].now, true);
      (if r.ok && calls[0].ip == ip then Charge(calls[0].cost) else 0.0) + Admitted(l, r.buckets, calls[1..], ip)
  }

  lemma {:induction false} AfterValid(l: Limits, m: Buckets, calls: seq<Call>, from: real, end: real)
    requires Sane(l) && RefillsInTime(l) && Valid(l, m, from) && Ascending(calls, from)
    requires from <= end && forall i :: 0 <= i < |calls| ==> calls[i].now <= end
    ensures Valid(l, After(l, m, calls), end)
    decreases |calls|
  {
    if calls != [] {
      var c := calls[0];
      ServeByLevel(l, m, c.ip, c.cost, c.now, true);
      AfterValid(l, Serve(l, m, c.ip, c.cost, c.now, true).buckets, calls[1..], c.now, end);
    }
  }

  /** What is admitted is paid for by the level at the start and the refill over the period. */
  lemma {:induction false} PaidFor(l: Limits, m: Buckets, calls: seq<Call>, ip: string, from: real, end: real)
    requires Sane(l) && RefillsInTime(l) && Valid(l, m, from) && Ascending(calls, from)
    requires from <= end && forall i :: 0 <= i < |calls| ==> calls[i].now <= end
    ensures Admitted(l, m, calls, ip) <= Level(l, m, ip, from) + Earned(l, end - from)
    decreases |calls|
  {
    hide Earned, Level, Serve, RefillsInTime;
    if calls == [] {
      LevelNonNegative(l, m, ip, from);
      EarnedFacts(l, 0.0, end - from);
    } else {
      var c := calls[0];
      var r := Serve(l, m, c.ip, c.cost, c.now, true);
      ServeByLevel(l, m, c.ip, c.cost, c.now, true);
      PaidFor(l, r.buckets, calls[1..], ip, c.now, end);
      LevelGrowth(l, m, ip, from, c.now);
      if c.ip != ip {
        OthersKeepLevel(l, m, c.ip, c.cost, c.now, true, ip, c.now);
      } else {
        OwnLevel(l, m, ip, c.cost, c.now, true);
      }
      EarnedFacts(l, c.now - from, end - c.now);
      assert (c.now - from) + (end - c.now) == end - from;
    }
  }

  /** In every window of every run, one client gets at most a burst plus the refill. */
  ghost predicate Bounded(l: Limits)
  {
    forall calls: seq<Call>, ip: string, from: real, i: nat, j: nat ::
      Ascending(calls, from) && i < j <= |calls| ==> WindowBound(l, calls, ip, i, j)
  }

  ghost predicate WindowBound(l: Limits, calls: seq<Call>, ip: string, i: nat, j: nat)
    requires i < j <= |calls|
  {
    Admitted(l, After(l, map[], calls[..i]), calls[i..j], ip) <=
      l.burst + Earned(l, calls[j - 1].now - calls[i].now)
  }

  lemma NoBuckets(l: Limits, t: real)
    ensures Valid(l, map[], t)
  {
  }

  lemma WindowIsBounded(l: Limits, calls: seq<Call>, ip: string, from: real, i: nat, j: nat)
    requires Sane(l) && RefillsInTime(l) && Ascending(calls, from) && i < j <= |calls|
    ensures WindowBound(l, calls, ip, i, j)
  {
    hide Earned, Level, RefillsInTime, Admitted, After, Valid;
    var start, end := calls[i].now, calls[j - 1].now;
    assert Valid(l, map[], from) by { NoBuckets(l, from); }
    AfterValid(l, map[], calls[..i], from, start);
    var m := After(l, map[], calls[..i]);
    PaidFor(l, m, calls[i..j], ip, start, end);
    LevelGrowth(l, m, ip, start, start);
  }

  function Decisions(l: Limits, m: Buckets, calls: seq<Call>, collect: bool): seq<bool>
    decreases |calls|
  {
    if calls == [] then []
    else
      var r := Serve(l, m, calls[0].ip, calls[0].cost, calls[0].now, collect);
      [r.ok] + Decisions(l, r.buckets, calls[1..], collect)
  }

  // ----- collecting too early

  /** Two bursts, further apart than the collection period but closer than a refill takes. */
  function EarlyPair(l: Limits): seq<Call>
    requires l.rps != 0.0
  {
    [Call("a", l.burst, 0.0), Call("a", l.burst, (TTL + l.burst / l.rps) / 2.0)]
  }

  lemma EarlyPairTimes(l: Limits)
    requires Sane(l) && !RefillsInTime(l)
    ensures var t := EarlyPair(l)[1].now; t > TTL && Earned(l, t) < l.burst
  {
    var t := EarlyPair(l)[1].now;
    assert l.burst / l.rps * l.rps == l.burst;
    assert Earned(l, t) == (Earned(l, TTL) + l.burst) / 2.0;
    EarnedFacts(l, t, TTL);
  }

  lemma FirstBurst(l: Limits, collect: bool)
    requires Sane(l)
    ensures Serve(l, map[], "a", l.burst, 0.0, collect) == Answer(map["a" := Bucket(0.0, 0.0, 0.0)], true)
  {
  }

  lemma SecondBurst(l: Limits)
    requires Sane(l) && !RefillsInTime(l)
    ensures var m := map["a" := Bucket(0.0, 0.0, 0.0)]; var t := EarlyPair(l)[1].now;
      Serve(l, m, "a", l.burst, t, true).ok && !Serve(l, m, "a", l.burst, t, false).ok
  {
    hide Earned;
    EarlyPairTimes(l);
    assert Collect(map["a" := Bucket(0.0, 0.0, 0.0)], EarlyPair(l)[1].now) == map[];
  }

  lemma PairServed(l: Limits, collect: bool)
    requires Sane(l)
    ensures var second := Serve(l, map["a" := Bucket(0.0, 0.0, 0.0)], "a", l.burst, EarlyPair(l)[1].now, collect);
      && Decisions(l, map[], EarlyPair(l), collect) == [true, second.ok]
      && (collect ==> Admitted(l, map[], EarlyPair(l), "a") == l.burst + if second.ok then l.burst else 0.0)
  {
    hide Serve;
    var calls := EarlyPair(l);
    FirstBurst(l, collect);
    var second := Serve(l, map["a" := Bucket(0.0, 0.0, 0.0)], "a", l.burst, calls[1].now, collect);
    assert calls[1..][0] == calls[1] && calls[1..][1..] == [];
    assert Decisions(l, second.buckets, calls[1..][1..], collect) == [];
    assert Admitted(l, second.buckets, calls[1..][1..], "a") == 0.0;
  }

  /** A capacity that does not refill within the collection period gives an idle client a fresh
      bucket too early: of this pair of calls the second is admitted for no other reason, and the
      window of both admits more than burst plus refill. */
  lemma EarlyCollectionBreaks(l: Limits)
    requires Sane(l) && l.burst > 600.0 * l.rps
    ensures Ascending(EarlyPair(l), 0.0)
    ensures Decisions(l, map[], EarlyPair(l), true) == [true, true]
    ensures Decisions(l, map[], EarlyPair(l), false) == [true, false]
    ensures !WindowBound(l, EarlyPair(l), "a", 0, 2)
  {
    hide Serve, Decisions, Admitted;
    var calls := EarlyPair(l);
    EarlyPairTimes(l);
    SecondBurst(l);
    PairServed(l, true);
    PairServed(l, false);
    assert calls[..0] == [] && calls[0..2] == calls;
  }

  /** The bound holds exactly when the burst refills within ten minutes. */
  lemma BoundExact(l: Limits)
    requires Sane(l)
    ensures Bounded(l) <==> l.burst <= 600.0 * l.rps
  {
    if RefillsInTime(l) {
      forall calls: seq<Call>, ip: string, from: real, i: nat, j: nat
        | Ascending(calls, from) && i < j <= |calls| ensures WindowBound(l, calls, ip, i, j) {
        WindowIsBounded(l, calls, ip, from, i, j);
      }
    } else {
      EarlyCollectionBreaks(l);
    }
  }

  // ----- collection is invisible

  ghost predicate SameLevels(l: Limits, m: Buckets, n: Buckets, from: real)
  {
    forall ip, t :: t >= from ==> Level(l, m, ip, t) == Level(l, n, ip, t)
  }

  lemma ServeSameLevels(l: Limits, m: Buckets, n: Buckets, c: Call, from: real)
    requires Sane(l) && RefillsInTime(l) && Valid(l, m, c.now) && Valid(l, n, c.now)
    requires SameLevels(l, m, n, from) && from <= c.now
    ensures var x, y := Serve(l, m, c.ip, c.cost, c.now, true), Serve(l, n, c.ip, c.cost, c.now, false);
      x.ok == y.ok && SameLevels(l, x.buckets, y.buckets, c.now)
  {
    hide Earned, Serve, RefillsInTime, Valid;
    var x, y := Serve(l, m, c.ip, c.cost, c.now, true), Serve(l, n, c.ip, c.cost, c.now, false);
    ServeByLevel(l, m, c.ip, c.cost, c.now, true);
    ServeByLevel(l, n, c.ip, c.cost, c.now, false);
    assert Level(l, m, c.ip, c.now) == Level(l, n, c.ip, c.now);
    forall ip, t | t >= c.now ensures Level(l, x.buckets, ip, t) == Level(l, y.buckets, ip, t) {
      assert Level(l, m, ip, t) == Level(l, n, ip, t);
      if ip != c.ip {
        OthersKeepLevel(l, m, c.ip, c.cost, c.now, true, ip, t);
        OthersKeepLevel(l, n, c.ip, c.cost, c.now, false, ip, t);
      }
    }
  }

  /** Collecting idle buckets changes no decision of any run. */
  lemma {:induction false} CollectionInvisible(l: Limits, m: Buckets, n: Buckets, calls: seq<Call>, from: real)
    requires Sane(l) && RefillsInTime(l) && Valid(l, m, from) && Valid(l, n, from)
    requires SameLevels(l, m, n, from) && Ascending(calls, from)
    ensures Decisions(l, m, calls, true) == Decisions(l, n, calls, false)
    decreases |calls|
  {
    if calls != [] {
      hide Earned, Level, Serve, RefillsInTime;
      var c := calls[0];
      ServeSameLevels(l, m, n, c, from);
      ServeByLevel(l, m, c.ip, c.cost, c.now, true);
      ServeByLevel(l, n, c.ip, c.cost, c.now, false);
      CollectionInvisible(l, Serve(l, m, c.ip, c.cost, c.now, true).buckets,
                          Serve(l, n, c.ip, c.cost, c.now, false).buckets, calls[1..], c.now);
    }
  }

  /** Collecting idle buckets changes no decision of any run exactly when the burst refills within ten
      minutes. */
  lemma CollectionExact(l: Limits)
    requires Sane(l)
    ensures (forall calls: seq<Call>, from: real :: Ascending(calls, from) ==>
        Decisions(l, map[], calls, true) == Decisions(l, map[], calls, false)) <==> l.burst <= 600.0 * l.rps
  {
    if RefillsInTime(l) {
      forall calls: seq<Call>, from: real | Ascending(calls, from)
        ensures Decisions(l, map[], calls, true) == Decisions(l, map[], calls, false) {
        NoBuckets(l, from);
        CollectionInvisible(l, map[], map[], calls, from);
      }
    } else {
      EarlyCollectionBreaks(l);
    }
  }
}
