/** The token bucket kept in Redis by the rate limiter. */
module RateLimit {
  import opened Common

  /** Idle seconds after which Redis drops a bucket. */
  const TTL := 60

  datatype Limits = Limits(cap: int, rate: int)

  /** One call: the caller's clock in whole Unix seconds and Redis' own clock. */
  datatype Call = Call(now: int, at: real)

  datatype Bucket = Bucket(tokens: int, lastRefill: int, expires: real)

  predicate Sane(l: Limits) {
    l.cap >= 0 && l.rate >= 0
  }

  function Max(a: int, b: int): int { if a < b then b else a }

  function Min(a: int, b: int): int { if a < b then a else b }

  // ---- The decision of each call in a sequence of calls on one key -----------------------

  /** Whether Redis has dropped the bucket between call `j - 1` and call `j`. */
  predicate Dropped(calls: seq<Call>, j: nat)
    requires 0 < j < |calls|
  {
    calls[j].at >= calls[j - 1].at + TTL as real
  }

  /** The tokens earned between call `j - 1` and call `j`; a clock that runs backwards earns none. */
  function Refill(l: Limits, calls: seq<Call>, j: nat): int
    requires 0 < j < |calls|
  {
    Max(0, calls[j].now - calls[j - 1].now) * l.rate
  }

  /** The tokens available to call `j`; `ttl` says whether idle buckets are dropped. */
  function Level(l: Limits, ttl: bool, calls: seq<Call>, j: nat): int
    requires j < |calls|
  {
    if j == 0 || (ttl && Dropped(calls, j)) then l.cap
    else Min(l.cap, Left(Level(l, ttl, calls, j - 1)) + Refill(l, calls, j))
  }

  function Left(level: int): int {
    if level >= 1 then level - 1 else level
  }

  predicate Allowed(l: Limits, ttl: bool, calls: seq<Call>, j: nat)
    requires j < |calls|
  {
    Level(l, ttl, calls, j) >= 1
  }

  /** The number of allowed calls among the calls `i`, …, `j - 1`. */
  function Granted(l: Limits, ttl: bool, calls: seq<Call>, i: nat, j: nat): nat
    requires i <= j <= |calls|
  {
    if i == j then 0
    else Granted(l, ttl, calls, i, j - 1) + if Allowed(l, ttl, calls, j - 1) then 1 else 0
  }

  /** The tokens earned from call 0 up to call `j`. */
  function Earned(l: Limits, calls: seq<Call>, j: nat): int
    requires j < |calls|
  {
    if j == 0 then 0 else Earned(l, calls, j - 1) + Refill(l, calls, j)
  }

  /** What the window from call `i` leaves for call `j`: capacity plus what was earned, less what was granted. */
  function Room(l: Limits, calls: seq<Call>, i: nat, j: nat): int
    requires i <= j < |calls|
  {
    l.cap + Earned(l, calls, j) - Earned(l, calls, i) - Granted(l, false, calls, i, j)
  }

  lemma RefillNonNegative(l: Limits, calls: seq<Call>, j: nat)
    requires Sane(l) && 0 < j < |calls|
    ensures Refill(l, calls, j) >= 0
  {}

  lemma {:induction false} LevelNonNegative(l: Limits, ttl: bool, calls: seq<Call>, j: nat)
    requires Sane(l) && j < |calls|
    ensures 0 <= Level(l, ttl, calls, j) <= l.cap
  {
    if j == 0 {
    } else {
      LevelNonNegative(l, ttl, calls, j - 1);
      RefillNonNegative(l, calls, j);
    }
  }

  /** The level is the room left by the tightest window that ends at the call. */
  lemma {:induction false} LevelIsTightestRoom(l: Limits, calls: seq<Call>, j: nat) returns (tight: nat)
    requires Sane(l) && j < |calls|
    ensures forall i :: 0 <= i <= j ==> Level(l, false, calls, j) <= Room(l, calls, i, j)
    ensures tight <= j && Level(l, false, calls, j) == Room(l, calls, tight, j)
  {
    if j == 0 {
      tight := 0;
    } else {
      var t := LevelIsTightestRoom(l, calls, j - 1);
      LevelNonNegative(l, false, calls, j - 1);
      RefillNonNegative(l, calls, j);
      tight := if l.cap < Left(Level(l, false, calls, j - 1)) + Refill(l, calls, j) then j else t;
      forall i | 0 <= i <= j ensures Level(l, false, calls, j) <= Room(l, calls, i, j) {
        if i < j {
          assert Level(l, false, calls, j - 1) <= Room(l, calls, i, j - 1);
        }
      }
    }
  }

  /**
   * Exactness, for every clock: a call is allowed if and only if granting it keeps every window that ends at it
   * within capacity plus earnings.
   */
  lemma AllowedIffEveryWindowHasRoom(l: Limits, calls: seq<Call>, j: nat)
    requires Sane(l) && j < |calls|
    ensures Allowed(l, false, calls, j) <==> forall i :: 0 <= i <= j ==> Room(l, calls, i, j) >= 1
  {
    var tight := LevelIsTightestRoom(l, calls, j);
    assert Allowed(l, false, calls, j) <==> Room(l, calls, tight, j) >= 1;
  }

  predicate Monotone(calls: seq<Call>) {
    forall i, j :: 0 <= i <= j < |calls| ==> calls[i].now <= calls[j].now
  }

  lemma {:induction false} EarnedByClock(l: Limits, calls: seq<Call>, i: nat, j: nat)
    requires Monotone(calls) && i <= j < |calls|
    ensures Earned(l, calls, j) - Earned(l, calls, i) == l.rate * (calls[j].now - calls[i].now)
  {
    if i == j {
    } else {
      EarnedByClock(l, calls, i, j - 1);
      var a, b := calls[j - 1].now - calls[i].now, calls[j].now - calls[j - 1].now;
      assert l.rate * (a + b) == l.rate * a + b * l.rate;
    }
  }

  /** A clock that stands still or runs backwards between two calls earns nothing. */
  lemma BackwardClockEarnsNothing(l: Limits, calls: seq<Call>, j: nat)
    requires Sane(l) && 0 < j < |calls| && calls[j].now <= calls[j - 1].now
    ensures Level(l, false, calls, j) ==
      Level(l, false, calls, j - 1) - if Allowed(l, false, calls, j - 1) then 1 else 0
  {
    LevelAtMostCap(l, false, calls, j - 1);
  }

  lemma LevelAtMostCap(l: Limits, ttl: bool, calls: seq<Call>, j: nat)
    requires Sane(l) && j < |calls|
    ensures Level(l, ttl, calls, j) <= l.cap
  {}

  /** With a clock that never runs backwards, a window of T seconds grants at most cap + rate * T calls. */
  lemma WindowBound(l: Limits, calls: seq<Call>, i: nat, j: nat)
    requires Sane(l) && Monotone(calls) && i <= j < |calls|
    ensures Granted(l, false, calls, i, j + 1) <= l.cap + l.rate * (calls[j].now - calls[i].now)
  {
    EarnedByClock(l, calls, i, j);
    var tight := LevelIsTightestRoom(l, calls, j);
    LevelNonNegative(l, false, calls, j);
    assert Level(l, false, calls, j) <= Room(l, calls, i, j);
  }

  /** The window asks for no more calls than it may be granted. */
  predicate WindowFits(l: Limits, calls: seq<Call>, i: nat, j: nat)
    requires i <= j < |calls|
  {
    j - i + 1 <= l.cap + l.rate * (calls[j].now - calls[i].now)
  }

  predicate WindowsFit(l: Limits, calls: seq<Call>) {
    forall i, j :: 0 <= i <= j < |calls| ==> WindowFits(l, calls, i, j)
  }

  lemma {:induction false} GrantedAll(l: Limits, calls: seq<Call>, i: nat, j: nat)
    requires i <= j <= |calls|
    requires forall k :: 0 <= k < j ==> Allowed(l, false, calls, k)
    ensures Granted(l, false, calls, i, j) == j - i
  {
    if i == j {
    } else {
      GrantedAll(l, calls, i, j - 1);
    }
  }

  lemma {:induction false} FittingPrefixAllowed(l: Limits, calls: seq<Call>, n: nat)
    requires Sane(l) && Monotone(calls) && WindowsFit(l, calls) && n <= |calls|
    ensures forall k :: 0 <= k < n ==> Allowed(l, false, calls, k)
  {
    if n == 0 {
    } else {
      var last := n - 1;
      FittingPrefixAllowed(l, calls, last);
      forall i | 0 <= i <= last ensures Room(l, calls, i, last) >= 1 {
        assert WindowFits(l, calls, i, last);
        GrantedAll(l, calls, i, last);
        EarnedByClock(l, calls, i, last);
      }
      AllowedIffEveryWindowHasRoom(l, calls, last);
    }
  }

  /** A call sequence on a fresh bucket is wholly allowed if and only if each of its windows obeys the bound. */
  lemma WhollyAllowedIffWindowsFit(l: Limits, calls: seq<Call>)
    requires Sane(l) && Monotone(calls)
    ensures (forall k :: 0 <= k < |calls| ==> Allowed(l, false, calls, k)) <==> WindowsFit(l, calls)
  {
    if WindowsFit(l, calls) {
      FittingPrefixAllowed(l, calls, |calls|);
    } else if forall k :: 0 <= k < |calls| ==> Allowed(l, false, calls, k) {
      forall i, j | 0 <= i <= j < |calls|
        ensures WindowFits(l, calls, i, j)
      {
        GrantedAll(l, calls, i, j + 1);
        WindowBound(l, calls, i, j);
      }
    }
  }

  predicate WithinBound(l: Limits, calls: seq<Call>, i: nat, j: nat)
    requires i <= j < |calls|
  {
    Granted(l, false, calls, i, j + 1) <= l.cap + l.rate * (calls[j].now - calls[i].now)
  }

  ghost predicate AlwaysWithinBound(calls: seq<Call>) {
    forall l, i, j :: Sane(l) && 0 <= i <= j < |calls| ==> WithinBound(l, calls, i, j)
  }

  /** The window bound holds for all limits and windows of a call sequence if and only if its clock never runs backwards. */
  lemma BoundIffClockMonotone(calls: seq<Call>)
    ensures AlwaysWithinBound(calls) <==> Monotone(calls)
  {
    if Monotone(calls) {
      forall l, i, j | Sane(l) && 0 <= i <= j < |calls| ensures WithinBound(l, calls, i, j) {
        WindowBound(l, calls, i, j);
      }
    }
    if AlwaysWithinBound(calls) {
      forall i, j | 0 <= i <= j < |calls| ensures calls[i].now <= calls[j].now {
        assert WithinBound(Limits(0, 1), calls, i, j);
      }
    }
  }

  /** A clock that steps back earns the same second twice: the window bound needs the clock to be monotone. */
  lemma BackwardClockExceedsBound()
    ensures
      var l, calls := Limits(1, 1), [Call(1, 0.0), Call(0, 0.0), Call(1, 0.0)];
      Granted(l, false, calls, 0, 3) > l.cap + l.rate * (calls[2].now - calls[0].now)
  {
    var l, calls := Limits(1, 1), [Call(1, 0.0), Call(0, 0.0), Call(1, 0.0)];
    assert Level(l, false, calls, 0) == 1 && Level(l, false, calls, 1) == 0 && Level(l, false, calls, 2) == 1;
    assert Granted(l, false, calls, 0, 1) == 1 && Granted(l, false, calls, 0, 2) == 1;
  }

  // ---- Dropping idle buckets ---------------------------------------------------------------

  /** The caller's clock is Redis' clock in whole seconds, and time does not run backwards. */
  predicate OneClock(calls: seq<Call>) {
    && (forall i :: 0 <= i < |calls| ==> calls[i].now == calls[i].at.Floor)
    && (forall i :: 0 < i < |calls| ==> calls[i - 1].at <= calls[i].at)
  }

  lemma {:induction false} SameLevels(l: Limits, calls: seq<Call>, j: nat)
    requires Sane(l) && OneClock(calls) && TTL * l.rate >= l.cap && j < |calls|
    ensures Level(l, true, calls, j) == Level(l, false, calls, j)
  {
    if j == 0 {
    } else {
      SameLevels(l, calls, j - 1);
      LevelNonNegative(l, false, calls, j - 1);
      if Dropped(calls, j) {
        var elapsed := calls[j].now - calls[j - 1].now;
        assert elapsed >= TTL;
        MulMono(TTL, elapsed, l.rate);
      }
    }
  }

  lemma {:induction false} SameGrants(l: Limits, calls: seq<Call>, i: nat, j: nat)
    requires Sane(l) && OneClock(calls) && TTL * l.rate >= l.cap && i <= j <= |calls|
    ensures Granted(l, true, calls, i, j) == Granted(l, false, calls, i, j)
  {
    if i == j {
    } else {
      SameGrants(l, calls, i, j - 1);
      SameLevels(l, calls, j - 1);
    }
  }

  lemma {:induction false} OneClockMonotone(calls: seq<Call>, i: nat, j: nat)
    requires OneClock(calls) && i <= j < |calls|
    ensures calls[i].now <= calls[j].now && calls[i].at <= calls[j].at
  {
    if i == j {
    } else {
      OneClockMonotone(calls, i, j - 1);
    }
  }

  /** The window bound for the bucket as Redis keeps it, idle drops included. */
  lemma StoredBucketWindowBound(l: Limits, calls: seq<Call>, i: nat, j: nat)
    requires Sane(l) && OneClock(calls) && TTL * l.rate >= l.cap && i <= j < |calls|
    ensures Granted(l, true, calls, i, j + 1) <= l.cap + l.rate * (calls[j].now - calls[i].now)
  {
    forall a, b | 0 <= a <= b < |calls| ensures calls[a].now <= calls[b].now {
      OneClockMonotone(calls, a, b);
    }
    SameGrants(l, calls, i, j + 1);
    WindowBound(l, calls, i, j);
  }

  lemma MulMono(a: int, b: int, c: int)
    requires a <= b && 0 <= c
    ensures a * c <= b * c
  {}

  /** `cap` calls at second 0 and then `60 * rate + 1` calls after 60 idle seconds. */
  function BurstTwice(l: Limits): (calls: seq<Call>)
    requires Sane(l)
  {
    seq(l.cap + TTL * l.rate + 1, i => if i < l.cap then Call(0, 0.0) else Call(TTL, TTL as real))
  }

  lemma {:induction false} BurstTwiceAllowed(l: Limits, j: nat)
    requires Sane(l) && TTL * l.rate < l.cap && j < |BurstTwice(l)|
    ensures Level(l, true, BurstTwice(l), j) == if j < l.cap then l.cap - j else 2 * l.cap - j
  {
    var calls := BurstTwice(l);
    if j == 0 {
    } else {
      BurstTwiceAllowed(l, j - 1);
      assert j != l.cap ==> calls[j].now == calls[j - 1].now;
      assert Dropped(calls, j) <==> j == l.cap;
    }
  }

  lemma BurstTwiceDenied(l: Limits)
    requires Sane(l) && TTL * l.rate < l.cap
    ensures exists j :: 0 <= j < |BurstTwice(l)| && !Allowed(l, false, BurstTwice(l), j)
  {
    var calls := BurstTwice(l);
    var n := |calls|;
    if forall j :: 0 <= j < n ==> Allowed(l, false, calls, j) {
      GrantedAll(l, calls, 0, n);
      WindowBound(l, calls, 0, n - 1);
    }
  }

  ghost predicate DropsAreInvisible(l: Limits) {
    forall calls, j :: OneClock(calls) && 0 <= j < |calls| ==> (Allowed(l, true, calls, j) <==> Allowed(l, false, calls, j))
  }

  /** Dropping idle buckets changes no decision on any call sequence if and only if 60 seconds refill a bucket. */
  lemma DropsInvisibleIffRefilled(l: Limits)
    requires Sane(l)
    ensures DropsAreInvisible(l) <==> 60 * l.rate >= l.cap
  {
    if TTL * l.rate >= l.cap {
      forall calls, j | OneClock(calls) && 0 <= j < |calls|
        ensures Allowed(l, true, calls, j) <==> Allowed(l, false, calls, j)
      {
        SameLevels(l, calls, j);
      }
    } else {
      BurstTwiceDenied(l);
      var calls := BurstTwice(l);
      var j :| 0 <= j < |calls| && !Allowed(l, false, calls, j);
      BurstTwiceAllowed(l, j);
      assert OneClock(calls) && Allowed(l, true, calls, j);
    }
  }

  /** The limits the router installs refill within the drop time, so dropping is never noticed there. */
  lemma RouterLimitsRefill()
    ensures DropsAreInvisible(Limits(50, 50)) && DropsAreInvisible(Limits(1000, 1000))
  {
    DropsInvisibleIffRefilled(Limits(50, 50));
    DropsInvisibleIffRefilled(Limits(1000, 1000));
  }

  // ---- The script --------------------------------------------------------------------------

  datatype Request = Request(key: string, call: Call)

  /** The calls a trace makes on one key. */
  function OnKey(trace: seq<Request>, key: string): seq<Call> {
    if trace == [] then []
    else
      var n := |trace| - 1;
      if trace[n].key == key then OnKey(trace[..n], key) + [trace[n].call] else OnKey(trace[..n], key)
  }

  /** The bucket that a sequence of calls leaves behind. */
  function BucketAfter(l: Limits, calls: seq<Call>): Option<Bucket> {
    if calls == [] then None
    else
      var n := |calls| - 1;
      Some(Bucket(Left(Level(l, true, calls, n)), calls[n].now, calls[n].at + TTL as real))
  }

  lemma {:induction false} LevelOfPrefix(l: Limits, calls: seq<Call>, c: Call, j: nat)
    requires j < |calls|
    ensures Level(l, true, calls + [c], j) == Level(l, true, calls, j)
  {
    if j == 0 {
    } else {
      LevelOfPrefix(l, calls, c, j - 1);
    }
  }

  function Stored(buckets: map<string, Bucket>, key: string): Option<Bucket> {
    if key in buckets then Some(buckets[key]) else None
  }

  /** Every key's bucket is the one its own calls leave behind. */
  ghost predicate Holds(limits: string -> Limits, trace: seq<Request>, buckets: map<string, Bucket>) {
    forall key :: Stored(buckets, key) == BucketAfter(limits(key), OnKey(trace, key))
  }

  /** The tokens a request finds: those of a bucket that is still stored, refilled, or a full bucket. */
  function Available(b: Option<Bucket>, l: Limits, c: Call): int {
    if b.Some? && c.at < b.value.expires
    then Min(l.cap, b.value.tokens + Max(0, c.now - b.value.lastRefill) * l.rate)
    else l.cap
  }

  function Rewritten(b: Option<Bucket>, l: Limits, c: Call): Bucket {
    Bucket(Left(Available(b, l, c)), c.now, c.at + TTL as real)
  }

  /** The decision for request `n` of a trace is the one the calls on its own key determine. */
  ghost predicate Decided(limits: string -> Limits, trace: seq<Request>, n: nat, decision: bool)
    requires n < |trace|
  {
    var calls := OnKey(trace[..n + 1], trace[n].key);
    calls != [] && decision == Allowed(limits(trace[n].key), true, calls, |calls| - 1)
  }

  class RateLimiter {
    var buckets: map<string, Bucket>

    constructor ()
      ensures buckets == map[]
    {
      buckets := map[];
    }

    /** One evaluation of the script, asking for one token. */
    method Allow(key: string, limit: int, rate: int, now: int, at: real) returns (allowed: bool)
      modifies this
      ensures
        var b, l, c := Stored(old(buckets), key), Limits(limit, rate), Call(now, at);
        && allowed == (Available(b, l, c) >= 1)
        && buckets == old(buckets)[key := Rewritten(b, l, c)]
      ensures forall k :: k in old(buckets) && k != key ==> k in buckets && buckets[k] == old(buckets)[k]
      ensures key in buckets && buckets[key].lastRefill == now && buckets[key].expires == at + 60.0
      ensures allowed ==> buckets[key].tokens >= 0
      ensures !allowed ==> buckets[key].tokens < 1
      // No bucket, or one that Redis has dropped: the call finds a full one.
      ensures key !in old(buckets) || at >= old(buckets)[key].expires ==>
        buckets[key].tokens + (if allowed then 1 else 0) == limit
      // A clock that stands still or runs backwards earns nothing.
      ensures key in old(buckets) && at < old(buckets)[key].expires && now <= old(buckets)[key].lastRefill ==>
        buckets[key].tokens + (if allowed then 1 else 0) ==
          if old(buckets)[key].tokens <= limit then old(buckets)[key].tokens else limit
      // Otherwise it earns `rate` a second, up to the limit.
      ensures key in old(buckets) && at < old(buckets)[key].expires && now > old(buckets)[key].lastRefill ==>
        var earned := old(buckets)[key].tokens + (now - old(buckets)[key].lastRefill) * rate;
        buckets[key].tokens + (if allowed then 1 else 0) == if earned <= limit then earned else limit
    {
      var tokens, lastRefill;
      if key !in buckets || at >= buckets[key].expires {
        tokens := limit;
        lastRefill := now;
      } else {
        var elapsed := Max(0, now - buckets[key].lastRefill);
        tokens := Min(limit, buckets[key].tokens + elapsed * rate);
        lastRefill := now;
      }
      allowed := false;
      if tokens >= 1 {
        tokens := tokens - 1;
        allowed := true;
      }
      buckets := buckets[key := Bucket(tokens, lastRefill, at + TTL as real)];
    }

    /** Serves a whole trace of requests on any keys; each decision is the one its own key's calls determine. */
    method Serve(limits: string -> Limits, trace: seq<Request>) returns (decisions: seq<bool>)
      requires buckets == map[]
      modifies this
      ensures Holds(limits, trace, buckets)
      ensures |decisions| == |trace| && forall i :: 0 <= i < |trace| ==> Decided(limits, trace, i, decisions[i])
    {
      decisions := [];
      for n := 0 to |trace|
        invariant |decisions| == n && Holds(limits, trace[..n], buckets)
        invariant forall i :: 0 <= i < n ==> Decided(limits, trace, i, decisions[i])
      {
        var key, call := trace[n].key, trace[n].call;
        Served(limits, trace, n, buckets);
        var d := Allow(key, limits(key).cap, limits(key).rate, call.now, call.at);
        decisions := decisions + [d];
      }
      assert trace[..|trace|] == trace;
    }
  }

  /** Serving one more request keeps every key's bucket in step with its own calls, and decides by them. */
  lemma Served(limits: string -> Limits, trace: seq<Request>, n: nat, was: map<string, Bucket>)
    requires n < |trace| && Holds(limits, trace[..n], was)
    ensures
      var l, b := limits(trace[n].key), Stored(was, trace[n].key);
      && Holds(limits, trace[..n + 1], was[trace[n].key := Rewritten(b, l, trace[n].call)])
      && Decided(limits, trace, n, Available(b, l, trace[n].call) >= 1)
  {
    var key, c := trace[n].key, trace[n].call;
    var l, b := limits(key), Stored(was, key);
    var now := was[key := Rewritten(b, l, c)];
    assert trace[..n + 1][..n] == trace[..n];
    var before := OnKey(trace[..n], key);
    assert OnKey(trace[..n + 1], key) == before + [c];
    assert b == BucketAfter(l, before);
    if before != [] {
      LevelOfPrefix(l, before, c, |before| - 1);
    }
    assert Level(l, true, before + [c], |before|) == Available(b, l, c);
    forall k ensures Stored(now, k) == BucketAfter(limits(k), OnKey(trace[..n + 1], k)) {
      if k != key {
        assert Stored(was, k) == BucketAfter(limits(k), OnKey(trace[..n], k));
      }
    }
  }
}
