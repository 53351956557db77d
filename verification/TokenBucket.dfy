/** The rate limiter's bucket: whole scaled tokens, refilled lazily at each request. */
module TokenBucket {
  import opened Numbers

  const SCALE: int := 1_000_000

  /** `rate` is in scaled tokens per nanosecond, `capacity` in scaled tokens. */
  datatype Limits = Limits(rate: real, capacity: int)

  ghost predicate Sane(l: Limits) {
    l.rate >= 0.0 && l.capacity >= 0
  }

  /** The conversion to a whole number cuts the fraction off, towards zero. */
  function Truncated(x: real): int {
    if x < 0.0 then -(-x).Floor else x.Floor
  }

  datatype Bucket = Bucket(refilled: int, tokens: int)

  /** Time since the last refill; a clock behind it counts as no time. */
  function Elapsed(refilled: int, now: int): nat {
    if now < refilled then 0 else now - refilled
  }

  /** What flows in during some time; FlowIsProduct says it is time times rate. */
  function Flow(l: Limits, elapsed: nat): real {
    if elapsed == 0 then 0.0 else Flow(l, elapsed - 1) + l.rate
  }

  lemma {:induction false} FlowIsProduct(l: Limits, elapsed: nat)
    ensures Flow(l, elapsed) == elapsed as real * l.rate
  {
    if elapsed > 0 {
      FlowIsProduct(l, elapsed - 1);
    }
  }

  lemma {:induction false} FlowAdds(l: Limits, x: nat, y: nat)
    ensures Flow(l, x + y) == Flow(l, x) + Flow(l, y)
  {
    if y > 0 {
      FlowAdds(l, x, y - 1);
    }
  }

  lemma {:induction false} FlowNonNegative(l: Limits, elapsed: nat)
    requires Sane(l)
    ensures Flow(l, elapsed) >= 0.0
  {
    if elapsed > 0 {
      FlowNonNegative(l, elapsed - 1);
    }
  }

  /** Whole tokens: the fraction is cut off. */
  function Accrued(l: Limits, elapsed: nat): int {
    Truncated(Flow(l, elapsed))
  }

  function Level(l: Limits, b: Bucket, now: int): int {
    Min(b.tokens + Accrued(l, Elapsed(b.refilled, now)), l.capacity)
  }

  /** One request with nobody else at the bucket: a denial leaves it as it was. */
  function Allow(l: Limits, b: Bucket, now: int): (Bucket, bool) {
    if Level(l, b, now) < SCALE then (b, false)
    else (Bucket(now, Level(l, b, now) - SCALE), true)
  }

  lemma AccruedBounds(l: Limits, elapsed: nat)
    requires Sane(l)
    ensures 0 <= Accrued(l, elapsed)
    ensures Accrued(l, elapsed) as real <= Flow(l, elapsed) < Accrued(l, elapsed) as real + 1.0
  {
    FlowNonNegative(l, elapsed);
  }

  lemma TruncatedIsTowardsZero(x: real)
    ensures x >= 0.0 ==> Truncated(x) as real <= x < Truncated(x) as real + 1.0
    ensures x <= 0.0 ==> Truncated(x) as real - 1.0 < x <= Truncated(x) as real
  {
  }

  /** One request, in figures. */
  lemma AllowInFigures(l: Limits, b: Bucket, now: int)
    ensures
      var elapsed := if now < b.refilled then 0 else now - b.refilled;
      var refilled := b.tokens + Truncated(elapsed as real * l.rate);
      var level := if refilled > l.capacity then l.capacity else refilled;
      Allow(l, b, now) == if level < 1_000_000 then (b, false) else (Bucket(now, level - 1_000_000), true)
  {
    FlowIsProduct(l, Elapsed(b.refilled, now));
  }

  /** A request is allowed if and only if there is room for a token at all and, with what flowed in since the last
      admission, a whole one is there: nobody who waits long enough is denied. */
  lemma AllowedIffTokenFlowedIn(l: Limits, b: Bucket, now: int)
    requires Sane(l) && b.refilled <= now
    ensures
      Allow(l, b, now).1 <==>
        l.capacity >= 1_000_000 && b.tokens as real + (now - b.refilled) as real * l.rate >= 1_000_000.0
  {
    var elapsed: nat := now - b.refilled;
    FlowIsProduct(l, elapsed);
    AccruedBounds(l, elapsed);
    var flow := Flow(l, elapsed);
    assert flow == (now - b.refilled) as real * l.rate;
    hide Flow, Truncated;
  }

  // ----- Runs of one bucket

  /** The bucket after requests at these times, and how many were admitted. */
  ghost function Serve(l: Limits, b: Bucket, times: seq<int>): (Bucket, nat) {
    if times == [] then (b, 0)
    else
      var (before, admitted) := Serve(l, b, times[..|times| - 1]);
      var (after, allowed) := Allow(l, before, times[|times| - 1]);
      (after, admitted + if allowed then 1 else 0)
  }

  ghost predicate Monotone(start: int, times: seq<int>) {
    && (forall i :: 0 <= i < |times| ==> start <= times[i])
    && (forall i, j :: 0 <= i < j < |times| ==> times[i] <= times[j])
  }

  /** What was admitted and what is left never exceed the capacity plus what flowed in since the start. */
  lemma {:induction false} TokensAccountedFor(l: Limits, b: Bucket, times: seq<int>)
    requires Sane(l) && Monotone(b.refilled, times)
    ensures
      var (after, admitted) := Serve(l, b, times);
      && b.refilled <= after.refilled && (times == [] || after.refilled <= times[|times| - 1])
      && (times == [] ==> after.refilled == b.refilled)
      && (SCALE * admitted + after.tokens) as real <= b.tokens as real + Flow(l, after.refilled - b.refilled)
    decreases |times|
  {
    if times != [] {
      var init, now := times[..|times| - 1], times[|times| - 1];
      TokensAccountedFor(l, b, init);
      var (before, admitted) := Serve(l, b, init);
      assert init != [] ==> init[|init| - 1] <= now;
      AccruedBounds(l, now - before.refilled);
      FlowAdds(l, before.refilled - b.refilled, now - before.refilled);
    }
  }

  /** The rate bound: with a clock that does not run backwards, a bucket created full at `created` admits, up
      to any time `now` after the last request, no more than its capacity plus the rate times the elapsed time. */
  lemma RateBound(l: Limits, created: int, times: seq<int>, now: int)
    requires Sane(l) && Monotone(created, times)
    requires created <= now && forall i :: 0 <= i < |times| ==> times[i] <= now
    ensures
      var (after, admitted) := Serve(l, Bucket(created, l.capacity), times);
      (SCALE * admitted) as real <= l.capacity as real + (now - created) as real * l.rate
  {
    hide Flow, Serve, Monotone;
    var elapsed: nat := now - created;
    FlowBound(l, created, times, now);
    FlowIsProduct(l, elapsed);
  }

  lemma FlowBound(l: Limits, created: int, times: seq<int>, now: int)
    requires Sane(l) && Monotone(created, times)
    requires created <= now && forall i :: 0 <= i < |times| ==> times[i] <= now
    ensures
      var (after, admitted) := Serve(l, Bucket(created, l.capacity), times);
      (SCALE * admitted) as real <= l.capacity as real + Flow(l, now - created)
  {
    var b := Bucket(created, l.capacity);
    var (after, admitted) := Serve(l, b, times);
    TokensAccountedFor(l, b, times);
    TokensStayInRange(l, b, times);
    FlowAdds(l, after.refilled - created, now - after.refilled);
    FlowNonNegative(l, now - after.refilled);
  }

  lemma {:induction false} TokensStayInRange(l: Limits, b: Bucket, times: seq<int>)
    requires Sane(l) && 0 <= b.tokens <= l.capacity
    ensures 0 <= Serve(l, b, times).0.tokens <= l.capacity
    decreases |times|
  {
    if times != [] {
      TokensStayInRange(l, b, times[..|times| - 1]);
      AccruedBounds(l, Elapsed(Serve(l, b, times[..|times| - 1]).0.refilled, times[|times| - 1]));
    }
  }

  // ----- The ideal bucket, with real-valued tokens

  datatype Ideal = Ideal(at: int, level: real)

  function LeastReal(x: real, y: real): real {
    if x < y then x else y
  }

  function IdealLevel(l: Limits, i: Ideal, now: int): real {
    LeastReal(i.level + Flow(l, Elapsed(i.at, now)), l.capacity as real)
  }

  function IdealTake(l: Limits, i: Ideal, now: int): Ideal {
    Ideal(now, IdealLevel(l, i, now) - SCALE as real)
  }

  /** Looking at the ideal bucket on the way does not change what it holds later. */
  lemma IdealIsContinuous(l: Limits, i: Ideal, t: int, u: int)
    requires Sane(l) && i.at <= t <= u
    ensures IdealLevel(l, Ideal(t, IdealLevel(l, i, t)), u) == IdealLevel(l, i, u)
  {
    FlowAdds(l, t - i.at, u - t);
    FlowNonNegative(l, u - t);
  }

  /** The ideal bucket after the admissions the integer bucket made. */
  ghost function Replay(l: Limits, b: Bucket, times: seq<int>): Ideal {
    if times == [] then Ideal(b.refilled, b.tokens as real)
    else
      var init, now := times[..|times| - 1], times[|times| - 1];
      if Allow(l, Serve(l, b, init).0, now).1 then IdealTake(l, Replay(l, b, init), now) else Replay(l, b, init)
  }

  /** The integer bucket never holds more than the ideal one and lags it by less than one scaled unit for each
      admission, capping included. So it admits no request the ideal bucket would refuse, and refuses only
      requests that find the ideal bucket within that lag of one token. */
  lemma {:induction false} IntegerRefinesIdeal(l: Limits, b: Bucket, times: seq<int>)
    requires Sane(l) && b.tokens <= l.capacity
    ensures
      var (after, n) := Serve(l, b, times);
      var ideal := Replay(l, b, times);
      && ideal.at == after.refilled
      && after.tokens as real <= ideal.level
      && (if n == 0 then ideal.level == after.tokens as real else ideal.level < (after.tokens + n) as real)
    decreases |times|
  {
    if times != [] {
      var init, now := times[..|times| - 1], times[|times| - 1];
      IntegerRefinesIdeal(l, b, init);
      AccruedBounds(l, Elapsed(Serve(l, b, init).0.refilled, now));
    }
  }

  lemma DecisionsFollowIdeal(l: Limits, b: Bucket, times: seq<int>, now: int)
    requires Sane(l) && b.tokens <= l.capacity
    ensures
      var (after, n) := Serve(l, b, times);
      var level := IdealLevel(l, Replay(l, b, times), now);
      && (Allow(l, after, now).1 ==> level >= SCALE as real)
      && (!Allow(l, after, now).1 ==> level < (SCALE + n) as real)
  {
    IntegerRefinesIdeal(l, b, times);
    AccruedBounds(l, Elapsed(Serve(l, b, times).0.refilled, now));
  }
}

/** The limiter as an object: a map of buckets changed in place by compare-and-swap loops. */
module RateLimiter {
  import opened TokenBucket

  class AtomicClientBucket {
    var lastRefillNano: int
    var tokensScaled: int

    constructor (now: int, tokens: int)
      ensures lastRefillNano == now && tokensScaled == tokens
    {
      lastRefillNano, tokensScaled := now, tokens;
    }

    ghost function View(): Bucket
      reads this
    {
      Bucket(lastRefillNano, tokensScaled)
    }

    method CompareAndSwapTokens(expected: int, value: int) returns (swapped: bool)
      modifies this`tokensScaled
      ensures swapped <==> old(tokensScaled) == expected
      ensures tokensScaled == if swapped then value else old(tokensScaled)
    {
      swapped := tokensScaled == expected;
      if swapped {
        tokensScaled := value;
      }
    }

    method CompareAndSwapRefill(expected: int, value: int) returns (swapped: bool)
      modifies this`lastRefillNano
      ensures swapped <==> old(lastRefillNano) == expected
      ensures lastRefillNano == if swapped then value else old(lastRefillNano)
    {
      swapped := lastRefillNano == expected;
      if swapped {
        lastRefillNano := value;
      }
    }
  }

  class TokenBucketLimiter {
    const limits: Limits
    var clients: map<string, AtomicClientBucket>
    var blockedCnt: nat

    ghost predicate Valid()
      reads this
    {
      forall j, k :: j in clients && k in clients && j != k ==> clients[j] != clients[k]
    }

    ghost function View(): map<string, Bucket>
      reads this, clients.Values
    {
      map k | k in clients :: clients[k].View()
    }

    /** Tokens per second become scaled tokens per nanosecond. */
    constructor (ratePerSec: real, capacityTokens: real)
      ensures Valid() && View() == map[] && blockedCnt == 0
      ensures limits == Limits(ratePerSec / 1_000_000_000.0 * SCALE as real, Truncated(capacityTokens * SCALE as real))
      ensures 1_000_000_000.0 * limits.rate == ratePerSec * 1_000_000.0
    {
      limits := Limits(ratePerSec / 1_000_000_000.0 * SCALE as real, Truncated(capacityTokens * SCALE as real));
      clients := map[];
      blockedCnt := 0;
    }

    /** The retry loop: take one token from a bucket, or count a denial and leave the bucket alone. */
    method TakeToken(bucket: AtomicClientBucket, now: int) returns (allowed: bool)
      modifies this`blockedCnt, bucket
      ensures (bucket.View(), allowed) == TokenBucket.Allow(limits, old(bucket.View()), now)
      ensures blockedCnt == old(blockedCnt) + if allowed then 0 else 1
    {
      hide Flow, Truncated;
      allowed := false;
      while !allowed
        invariant bucket.View() == if allowed then TokenBucket.Allow(limits, old(bucket.View()), now).0
                                   else old(bucket.View())
        invariant allowed ==> TokenBucket.Allow(limits, old(bucket.View()), now).1
        invariant blockedCnt == old(blockedCnt)
        decreases !allowed
      {
        var oldRefill := bucket.lastRefillNano;
        var oldTokens := bucket.tokensScaled;
        var elapsedNs := now - oldRefill;
        if elapsedNs < 0 {
          elapsedNs := 0;
        }
        var flow := elapsedNs as real * limits.rate;
        FlowIsProduct(limits, elapsedNs);
        assert flow == Flow(limits, Elapsed(oldRefill, now));
        var newTokens := oldTokens + Truncated(flow);
        if newTokens > limits.capacity {
          newTokens := limits.capacity;
        }
        assert newTokens == Level(limits, old(bucket.View()), now);
        if newTokens < SCALE {
          blockedCnt := blockedCnt + 1;
          return false;
        }
        allowed := bucket.CompareAndSwapTokens(oldTokens, newTokens - SCALE);
        if allowed {
          var stamped := bucket.CompareAndSwapRefill(oldRefill, now);
        }
      }
    }

    /** One request. `created` is the clock when a missing bucket is made, `now` the clock of the decision. A
        key seen for the first time gets a full bucket; then the bucket decides as module TokenBucket says,
        and no other bucket changes. */
    method Allow(key: string, created: int, now: int) returns (allowed: bool)
      requires Valid()
      modifies this`clients, this`blockedCnt, clients.Values
      ensures Valid()
      ensures
        var b := old(if key in clients then clients[key].View() else Bucket(created, limits.capacity));
        && View() == old(View())[key := TokenBucket.Allow(limits, b, now).0]
        && allowed == TokenBucket.Allow(limits, b, now).1
        && blockedCnt == old(blockedCnt) + if allowed then 0 else 1
    {
      var bucket: AtomicClientBucket;
      if key !in clients {
        bucket := new AtomicClientBucket(created, limits.capacity);
        clients := clients[key := bucket];
      } else {
        bucket := clients[key];
      }
      allowed := TakeToken(bucket, now);
    }
  }
}
