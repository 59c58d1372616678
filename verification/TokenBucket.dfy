/** Rate limiting per tenant by a token bucket, with seconds and tokens as real numbers. */
module TokenBucket {
  import opened Wrappers

  datatype Bucket = Bucket(tokens: real, last: real, tps: nat, burst: nat)

  /** Tokens earned in t seconds: tps times t. */
  function Earned(tps: int, t: real): real
    requires tps >= 0
  {
    if tps == 0 then 0.0 else Earned(tps - 1, t) + t
  }

  lemma {:induction false} EarnedIs(tps: int, t: real)
    requires tps >= 0
    ensures Earned(tps, t) == t * tps as real
  {
    if tps > 0 {
      EarnedIs(tps - 1, t);
      assert t * (tps - 1) as real + t == t * tps as real;
    }
  }

  lemma {:induction false} EarnedTogether(tps: int, t: real, u: real)
    requires tps >= 0
    ensures Earned(tps, t + u) == Earned(tps, t) + Earned(tps, u)
    ensures t >= 0.0 ==> Earned(tps, t) >= 0.0
  {
    if tps > 0 { EarnedTogether(tps - 1, t, u); }
  }

  /** What the bucket holds once the clock has been looked at; a clock that stepped back adds nothing. */
  function Refilled(b: Bucket, now: real): Bucket {
    var elapsed := now - b.last;
    if elapsed <= 0.0 then b
    else
      var tokens := b.tokens + Earned(b.tps, elapsed);
      b.(tokens := if tokens > b.burst as real then b.burst as real else tokens, last := now)
  }

  /** A tenant seen for the first time, or with other limits than before, starts with a full bucket. */
  function Current(b: Option<Bucket>, tps: nat, burst: nat, now: real): Bucket {
    if b.None? || b.value.tps != tps || b.value.burst != burst then Bucket(burst as real, now, tps, burst)
    else Refilled(b.value, now)
  }

  function Take(b: Bucket): (Bucket, bool) {
    if b.tokens >= 1.0 then (b.(tokens := b.tokens - 1.0), true) else (b, false)
  }

  predicate Limited(tenant: string, tps: int) {
    tenant != "" && tps > 0
  }

  function Burst(tps: nat, burst: int): nat {
    if burst <= 0 then tps else burst
  }

  class Limiter {
    var buckets: map<string, Bucket>

    constructor ()
      ensures buckets == map[]
    {
      buckets := map[];
    }

    /** Other tenants' buckets are left alone. */
    method Allow(tenant: string, tps: int, burst: int, now: real) returns (allowed: bool)
      modifies this
      ensures !Limited(tenant, tps) ==> allowed && buckets == old(buckets)
      ensures Limited(tenant, tps) ==>
                var before := if tenant in old(buckets) then Some(old(buckets)[tenant]) else None;
                var (after, ok) := Take(Current(before, tps, Burst(tps, burst), now));
                allowed == ok && buckets == old(buckets)[tenant := after]
    {
      if tenant == "" || tps <= 0 { return true; }
      var cap := if burst <= 0 then tps else burst;
      var b := Bucket(cap as real, now, tps, cap);
      if tenant in buckets && buckets[tenant].tps == tps && buckets[tenant].burst == cap {
        b := buckets[tenant];
        var elapsed := now - b.last;
        if elapsed > 0.0 {
          EarnedIs(tps, elapsed);
          b := b.(tokens := b.tokens + elapsed * tps as real);
          if b.tokens > cap as real { b := b.(tokens := cap as real); }
          b := b.(last := now);
        }
      }
      allowed := b.tokens >= 1.0;
      if allowed { b := b.(tokens := b.tokens - 1.0); }
      buckets := buckets[tenant := b];
    }
  }

  // ----- a stretch of calls by one tenant with the same limits

  /** The bucket after calls at these times, and how many were allowed. */
  function Calls(b: Bucket, times: seq<real>): (Bucket, nat) {
    if times == [] then (b, 0)
    else
      var (before, n) := Calls(b, times[..|times| - 1]);
      var (after, ok) := Take(Current(Some(before), b.tps, b.burst, times[|times| - 1]));
      (after, if ok then n + 1 else n)
  }

  /** The latest time seen. */
  function Latest(start: real, times: seq<real>): real {
    if times == [] then start
    else
      var before := Latest(start, times[..|times| - 1]);
      if times[|times| - 1] > before then times[|times| - 1] else before
  }

  predicate Sound(b: Bucket) {
    0.0 <= b.tokens <= b.burst as real
  }

  lemma RefillBound(b: Bucket, now: real)
    requires Sound(b)
    ensures var r := Refilled(b, now);
            r.tps == b.tps && r.burst == b.burst && r.last >= b.last && Sound(r)
            && r.tokens <= b.tokens + Earned(b.tps, r.last - b.last)
            && r.last == if now > b.last then now else b.last
  {
    EarnedTogether(b.tps, now - b.last, 0.0);
    EarnedTogether(b.tps, 0.0, 0.0);
  }

  lemma {:induction false} TokensConserved(b: Bucket, times: seq<real>)
    requires Sound(b)
    ensures var (after, n) := Calls(b, times);
            after.tps == b.tps && after.burst == b.burst && Sound(after)
            && after.last == Latest(b.last, times) && after.last >= b.last
            && n as real + after.tokens <= b.tokens + Earned(b.tps, after.last - b.last)
  {
    if times == [] { EarnedTogether(b.tps, 0.0, 0.0); }
    else {
      var now := times[|times| - 1];
      TokensConserved(b, times[..|times| - 1]);
      var (before, n) := Calls(b, times[..|times| - 1]);
      RefillBound(before, now);
      var r := Refilled(before, now);
      EarnedTogether(b.tps, before.last - b.last, r.last - before.last);
    }
  }

  /** However the clock moves, no more calls are allowed than the burst and what the time since then has earned. */
  lemma AllowedBound(b: Bucket, times: seq<real>)
    requires Sound(b)
    ensures Calls(b, times).1 as real <= b.burst as real + Earned(b.tps, Latest(b.last, times) - b.last)
  {
    TokensConserved(b, times);
  }

  /** The bound holds for a tenant's first calls too, which start with a full bucket at the first call. */
  lemma AllowedFromFirst(tps: nat, burst: int, times: seq<real>)
    requires tps > 0 && times != []
    ensures var full := Current(None, tps, Burst(tps, burst), times[0]);
            Calls(full, times).1 as real <= Burst(tps, burst) as real + Earned(tps, Latest(times[0], times) - times[0])
  {
    AllowedBound(Current(None, tps, Burst(tps, burst), times[0]), times);
  }

  /** It is reached: that many calls at one instant are all allowed. */
  lemma {:induction false} BurstAllowed(b: Bucket, times: seq<real>)
    requires b.tokens >= |times| as real && forall i :: 0 <= i < |times| ==> times[i] == b.last
    ensures Calls(b, times) == (b.(tokens := b.tokens - |times| as real), |times|)
  {
    if times != [] { BurstAllowed(b, times[..|times| - 1]); }
  }

  // ----- what waiting earns

  /** All of them at one instant. */
  ghost predicate AllAt(times: seq<real>, now: real) {
    forall i :: 0 <= i < |times| ==> times[i] == now
  }

  lemma RefilledIs(b: Bucket, now: real, sum: real)
    requires Sound(b) && now >= b.last && sum == b.tokens + (now - b.last) * b.tps as real
    ensures Refilled(b, now) == b.(tokens := if sum > b.burst as real then b.burst as real else sum, last := now)
  {
    EarnedIs(b.tps, now - b.last);
  }

  /** So many calls at that instant are allowed and no more, down to the last whole token. */
  lemma {:induction false} SpentDown(b: Bucket, times: seq<real>, now: real)
    requires Sound(b) && now >= b.last && AllAt(times, now)
    ensures var n, r := Calls(b, times).1, Refilled(b, now);
            n <= |times| && n as real <= r.tokens && (n < |times| ==> n as real + 1.0 > r.tokens)
            && (times != [] ==> Calls(b, times).0 == r.(tokens := r.tokens - n as real))
  {
    RefillBound(b, now);
    if times != [] { SpentDown(b, times[..|times| - 1], now); }
  }

  /** After any wait, n calls at once are all allowed exactly if the burst and what has been earned cover them. */
  lemma {:induction false} AllowedIff(b: Bucket, times: seq<real>, now: real, sum: real)
    requires Sound(b) && now >= b.last && AllAt(times, now)
    requires sum == b.tokens + (now - b.last) * b.tps as real
    ensures Calls(b, times).1 == |times| <==> |times| <= b.burst && |times| as real <= sum
  {
    RefilledIs(b, now, sum);
    SpentDown(b, times, now);
    WholeTokens(Calls(b, times).1, |times|, b.burst, sum);
  }

  lemma WholeTokens(n: nat, most: nat, burst: nat, sum: real)
    requires n <= most && n as real <= sum && n <= burst
    requires n < most ==> n as real + 1.0 > sum || n as real + 1.0 > burst as real
    ensures n == most <==> most <= burst && most as real <= sum
  {
  }

  /** A tenant seen for the first time, or with new limits, may call as often at once as the burst says, or the rate. */
  lemma FreshAllowed(b: Option<Bucket>, tps: nat, burst: int, times: seq<real>, now: real)
    requires tps > 0 && AllAt(times, now)
    requires b.Some? ==> b.value.tps != tps || b.value.burst != if burst > 0 then burst else tps
    ensures var full := Current(b, tps, Burst(tps, burst), now);
            Calls(full, times).1 == |times| <==> |times| <= if burst > 0 then burst else tps
  {
    var full := Current(b, tps, Burst(tps, burst), now);
    AllowedIff(full, times, now, full.tokens);
  }

  /** Call i comes when the time since the one before has earned a token. */
  predicate SpacedAt(tps: nat, times: seq<real>, i: nat)
    requires i < |times|
  {
    i > 0 ==> times[i] >= times[i - 1] && (times[i] - times[i - 1]) * tps as real >= 1.0
  }

  predicate EarnsAt(tps: nat, times: seq<real>, i: nat)
    requires i < |times|
  {
    i > 0 ==> times[i] >= times[i - 1] && Earned(tps, times[i] - times[i - 1]) >= 1.0
  }

  /** Calls that keep to the rate are all allowed, for ever. */
  lemma {:induction false} SpacedAllowed(b: Bucket, times: seq<real>)
    requires Sound(b) && b.burst > 0 && times != [] && forall i :: 0 <= i < |times| ==> SpacedAt(b.tps, times, i)
    requires times[0] >= b.last && b.tokens + (times[0] - b.last) * b.tps as real >= 1.0
    ensures Calls(b, times).1 == |times|
  {
    EarnedIs(b.tps, times[0] - b.last);
    forall i | 0 <= i < |times|
      ensures EarnsAt(b.tps, times, i)
    {
      assert SpacedAt(b.tps, times, i);
      if i > 0 { EarnedIs(b.tps, times[i] - times[i - 1]); }
    }
    EarningAllowed(b, times, |times|);
    assert times[..|times|] == times;
  }

  lemma {:induction false} EarningAllowed(b: Bucket, times: seq<real>, n: nat)
    requires Sound(b) && b.burst > 0 && 0 < n <= |times| && forall i :: 0 <= i < n ==> EarnsAt(b.tps, times, i)
    requires times[0] >= b.last && b.tokens + Earned(b.tps, times[0] - b.last) >= 1.0
    ensures Calls(b, times[..n]).1 == n && Calls(b, times[..n]).0.last == times[n - 1]
  {
    assert times[..n][..n - 1] == times[..n - 1];
    var before := Calls(b, times[..n - 1]).0;
    TokensConserved(b, times[..n - 1]);
    if n > 1 {
      EarningAllowed(b, times, n - 1);
      assert EarnsAt(b.tps, times, n - 1);
    }
    EarnedTogether(b.tps, 0.0, 0.0);
    assert Refilled(before, times[n - 1]).tokens >= 1.0;
  }
}
