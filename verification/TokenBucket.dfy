/** The token bucket of pkg/protection/simple_rate_limiter.go, with the time of each call as a parameter. */
module TokenBucket {

  datatype Bucket = Bucket(tokens: int, max: int, last: int)

  /**
   One call at time `now` with refill interval `r`: whole intervals since the last refill add tokens up to the cap.
   */
  function Take(b: Bucket, r: int, now: int): (Bucket, bool)
    requires r > 0 && b.last <= now
  {
    var add := (now - b.last) / r;
    var filled :=
      if add > 0 then Bucket(if b.tokens + add > b.max then b.max else b.tokens + add, b.max, now) else b;
    if filled.tokens > 0 then (filled.(tokens := filled.tokens - 1), true) else (filled, false)
  }

  class SimpleLimiter {
    var lastRefill: int
    var tokens: int
    const maxTokens: int
    const refillRate: int

    constructor (refillRate: int, burst: int, now: int)
      ensures this.refillRate == refillRate && maxTokens == burst && tokens == burst && lastRefill == now
    {
      this.refillRate, maxTokens, tokens, lastRefill := refillRate, burst, burst, now;
    }

    function State(): Bucket
      reads this`tokens, this`lastRefill
    {
      Bucket(tokens, maxTokens, lastRefill)
    }

    method Allow(now: int) returns (ok: bool)
      requires refillRate > 0 && lastRefill <= now
      modifies this`tokens, this`lastRefill
      ensures (State(), ok) == Take(old(State()), refillRate, now)
    {
      var elapsed := now - lastRefill;
      var tokensToAdd := elapsed / refillRate;
      if tokensToAdd > 0 {
        tokens := tokens + tokensToAdd;
        if tokens > maxTokens {
          tokens := maxTokens;
        }
        lastRefill := now;
      }
      if tokens > 0 {
        tokens := tokens - 1;
        return true;
      }
      ok := false;
    }
  }

  // ---- Runs ----

  /** Calls at times that never go back, none before the bucket's last refill. */
  predicate Monotone(b: Bucket, times: seq<int>) {
    && (forall i :: 0 <= i < |times| ==> b.last <= times[i])
    && forall i, j :: 0 <= i < j < |times| ==> times[i] <= times[j]
  }

  /** The bucket after the calls, and how many of them were admitted. */
  function After(b: Bucket, r: int, times: seq<int>): (res: (Bucket, nat))
    requires r > 0 && Monotone(b, times)
    ensures res.0.last == b.last || (times != [] && res.0.last <= times[|times| - 1])
    ensures times == [] ==> res == (b, 0)
    ensures res.0.last >= b.last && res.0.max == b.max
    decreases |times|
  {
    if times == [] then (b, 0)
    else
      var k := |times| - 1;
      var (before, admitted) := After(b, r, times[..k]);
      var (after, ok) := Take(before, r, times[k]);
      (after, if ok then admitted + 1 else admitted)
  }

  lemma FloorAdd(a: int, b: int, r: int)
    requires r > 0
    ensures a / r + b / r <= (a + b) / r
  {
    var x, y := a / r, b / r;
    assert a == x * r + a % r && b == y * r + b % r;
    FloorAtLeast(x + y, a + b, r);
  }

  lemma FloorAtLeast(q: int, a: int, r: int)
    requires r > 0 && q * r <= a
    ensures q <= a / r
  {
    assert a == (a / r) * r + a % r;
    assert (a / r + 1) * r == (a / r) * r + r;
    if q > a / r {
      Grows(a / r + 1, q, r);
    }
  }

  lemma Grows(x: int, y: int, r: int)
    requires x <= y && r > 0
    ensures x * r <= y * r
  {
  }

  lemma FloorMonotone(a: int, b: int, r: int)
    requires r > 0 && a <= b
    ensures a / r <= b / r
  {
    assert a == (a / r) * r + a % r;
    FloorAtLeast(a / r, b, r);
  }

  function Cap(burst: int): nat {
    if burst > 0 then burst else 0
  }

  /** A bucket is never over its cap, and in debt only when the cap itself is negative. */
  predicate Level(b: Bucket) {
    b.tokens <= b.max && (b.max >= 0 ==> b.tokens >= 0)
  }

  lemma TakeLevel(b: Bucket, r: int, now: int)
    requires r > 0 && b.last <= now && Level(b)
    ensures Level(Take(b, r, now).0)
  {
  }

  predicate Bounded(b: Bucket, r: int, start: int, admitted: nat)
    requires r > 0
  {
    && Level(b)
    && (b.max >= 0 ==> admitted + b.tokens <= b.max + (b.last - start) / r)
    && (b.max < 0 ==> admitted == 0)
  }

  lemma BoundedStep(b: Bucket, r: int, now: int, start: int, admitted: nat)
    requires r > 0 && start <= b.last <= now && Bounded(b, r, start, admitted)
    ensures var (b', ok) := Take(b, r, now); Bounded(b', r, start, if ok then admitted + 1 else admitted)
  {
    FloorAdd(b.last - start, now - b.last, r);
    TakeLevel(b, r, now);
  }

  /** What is admitted and what is left is bounded by the cap and the intervals elapsed. */
  lemma {:induction false} Spent(b: Bucket, r: int, times: seq<int>, start: int)
    requires r > 0 && Monotone(b, times) && Level(b) && b.last == start && b.tokens == b.max
    ensures Bounded(After(b, r, times).0, r, start, After(b, r, times).1)
    decreases |times|
  {
    if times != [] {
      var k := |times| - 1;
      Spent(b, r, times[..k], start);
      BoundedStep(After(b, r, times[..k]).0, r, times[k], start, After(b, r, times[..k]).1);
    } else {
      assert 0 / r == 0;
    }
  }

  /**
   From a full bucket, admissions up to time `t` are at most the burst and the refill intervals elapsed since the
   start.
   */
  lemma AdmittedSinceStart(burst: int, r: int, start: int, times: seq<int>, t: int)
    requires r > 0 && Monotone(Bucket(burst, burst, start), times)
    requires start <= t && forall i :: 0 <= i < |times| ==> times[i] <= t
    ensures After(Bucket(burst, burst, start), r, times).1 <= Cap(burst) + (t - start) / r
  {
    var b := Bucket(burst, burst, start);
    Spent(b, r, times, start);
    FloorMonotone(After(b, r, times).0.last - start, t - start, r);
    FloorMonotone(0, t - start, r);
    assert 0 / r == 0;
  }

  // ---- Windows ----

  /** The calls of a window that starts at `s`: before its first refill, and from then on. */
  ghost predicate InWindow(b: Bucket, r: int, s: int, admitted: nat, called: bool, max: int)
    requires r > 0
  {
    && b.max == max && Level(b)
    && if b.last < s then admitted + b.tokens <= max && (called ==> b.last > s - r) && (!called ==> admitted == 0)
       else admitted + b.tokens <= max + (b.last - s) / r + 1
  }

  lemma {:induction false} WindowSpent(b: Bucket, r: int, s: int, times: seq<int>)
    requires r > 0 && Monotone(b, times) && Level(b) && b.max >= 0 && forall i :: 0 <= i < |times| ==> s <= times[i]
    requires b.last <= s
    ensures InWindow(After(b, r, times).0, r, s, After(b, r, times).1, times != [], b.max)
    decreases |times|
  {
    if times == [] {
      assert 0 / r == 0;
    } else {
      var k := |times| - 1;
      WindowSpent(b, r, s, times[..k]);
      var (before, admitted) := After(b, r, times[..k]);
      WindowStep(before, r, s, admitted, times[..k] != [], b.max, times[k]);
    }
  }

  lemma WindowStep(b: Bucket, r: int, s: int, admitted: nat, called: bool, max: int, now: int)
    requires r > 0 && InWindow(b, r, s, admitted, called, max) && max >= 0 && b.last <= now && s <= now
    ensures var (b', ok) := Take(b, r, now);
            InWindow(b', r, s, if ok then admitted + 1 else admitted, true, max)
  {
    TakeLevel(b, r, now);
    var add := (now - b.last) / r;
    if add <= 0 {
      NoRefill(now - b.last, r);
    } else if b.last < s {
      FloorMonotone(0, now - s, r);
      assert 0 / r == 0;
      if called {
        FloorMonotone(now - b.last, now - s + r, r);
        OneMore(now - s, r);
      }
    } else {
      FloorAdd(b.last - s, now - b.last, r);
    }
  }

  lemma NoRefill(a: int, r: int)
    requires r > 0 && a >= 0 && a / r <= 0
    ensures a < r
  {
    if a >= r {
      FloorAtLeast(1, a, r);
    }
  }

  lemma OneMore(a: int, r: int)
    requires r > 0
    ensures (a + r) / r == a / r + 1
  {
    assert a == (a / r) * r + a % r;
    FloorAtLeast(a / r + 1, a + r, r);
    if (a + r) / r > a / r + 1 {
      FloorAtLeast((a + r) / r - 1, a, r);
    }
  }

  /**
   In any window `[s, t]` of a run, from whatever state the calls before it left, at most one admission more than
   that.
   */
  lemma AdmittedInWindow(b: Bucket, r: int, s: int, times: seq<int>, t: int)
    requires r > 0 && Monotone(b, times) && Level(b) && b.max >= 0 && b.last <= s <= t
    requires forall i :: 0 <= i < |times| ==> s <= times[i] <= t
    ensures After(b, r, times).1 <= b.max + (t - s) / r + 1
  {
    WindowSpent(b, r, s, times);
    var after := After(b, r, times).0;
    FloorMonotone(0, t - s, r);
    assert 0 / r == 0;
    if after.last >= s {
      FloorMonotone(after.last - s, t - s, r);
    }
  }

  /** The one admission more does occur: a token left over and a refill that fell due just after the window began. */
  lemma WindowBoundIsTight(r: int, start: int)
    requires r >= 2
    ensures var b := Bucket(1, 1, start);
            var s, t := start + r - 1, start + r;
            Monotone(b, [s, t]) && After(b, r, [s, t]).1 == b.max + (t - s) / r + 1
  {
    var b := Bucket(1, 1, start);
    assert [start + r - 1, start + r][..1] == [start + r - 1];
    assert (r - 1) / r == 0 && 1 / r == 0;
    assert After(b, r, [start + r - 1]) == (Bucket(0, 1, start), 1);
  }

  /** A bucket that can hold a token admits every call made a whole interval or more after its last refill. */
  lemma AdmitsAfterInterval(b: Bucket, r: int, now: int)
    requires r > 0 && Level(b) && b.max >= 1 && b.last + r <= now
    ensures Take(b, r, now).1 && Take(b, r, now).0.last == now
  {
    FloorAtLeast(1, now - b.last, r);
  }

  /** So calls spaced an interval apart are all admitted. */
  lemma {:induction false} SteadyCallsAdmitted(b: Bucket, r: int, times: seq<int>)
    requires r > 0 && Monotone(b, times) && Level(b) && b.max >= 1
    requires times != [] ==> b.last + r <= times[0]
    requires forall i :: 0 < i < |times| ==> times[i - 1] + r <= times[i]
    ensures After(b, r, times).1 == |times| && Level(After(b, r, times).0)
    decreases |times|
  {
    if times != [] {
      var k := |times| - 1;
      SteadyCallsAdmitted(b, r, times[..k]);
      AdmitsAfterInterval(After(b, r, times[..k]).0, r, times[k]);
      TakeLevel(After(b, r, times[..k]).0, r, times[k]);
    }
  }

  // ---- What is refilled ----

  function Least(a: int, b: int): int {
    if a < b then a else b
  }

  /** `n` calls at one time. */
  function Together(t: int, n: nat): (times: seq<int>)
    ensures |times| == n && forall i :: 0 <= i < n ==> times[i] == t
  {
    seq(n, _ => t)
  }

  lemma WholeIntervals(a: int, k: nat, r: int)
    requires r > 0 && k * r <= a < (k + 1) * r
    ensures a / r == k
  {
    FloorAtLeast(k, a, r);
    var q := a / r;
    assert a == q * r + a % r;
    if q > k {
      Grows(k + 1, q, r);
    }
  }

  /** One call, `k` whole intervals after the last refill. */
  lemma Refilled(b: Bucket, r: int, t: int, k: nat)
    requires r > 0 && Level(b) && b.max >= 0 && k * r <= t - b.last < (k + 1) * r && b.last <= t
    ensures var tokens, (b', ok) := Least(b.max, b.tokens + k), Take(b, r, t);
            && (ok <==> tokens > 0)
            && b' == Bucket(if ok then tokens - 1 else tokens, b.max, if k > 0 then t else b.last)
  {
    WholeIntervals(t - b.last, k, r);
  }

  /**
   Calls made together, `k` whole intervals after the last refill: as many are admitted as there are tokens, and these
   are those left before and one for each interval, up to the cap.
   */
  lemma {:induction false} BurstExactly(b: Bucket, r: int, t: int, k: nat, n: nat)
    requires r > 0 && Level(b) && b.max >= 0 && k * r <= t - b.last < (k + 1) * r && b.last <= t
    ensures Monotone(b, Together(t, n))
    ensures var tokens, (b', admitted) := Least(b.max, b.tokens + k), After(b, r, Together(t, n));
            && admitted == Least(n, tokens)
            && (n > 0 ==> b' == Bucket(tokens - admitted, b.max, if k > 0 then t else b.last))
  {
    if n > 0 {
      assert Together(t, n)[..n - 1] == Together(t, n - 1);
      BurstExactly(b, r, t, k, n - 1);
      if n == 1 {
        Refilled(b, r, t, k);
      } else {
        var before := After(b, r, Together(t, n - 1)).0;
        Refilled(before, r, t, 0);
      }
    }
  }

  /** So a pause of `n` intervals lets `n` calls through together, as far as the cap goes. */
  lemma BurstAdmitted(b: Bucket, r: int, t: int, n: nat)
    requires r > 0 && Level(b) && n <= b.max && b.last + n * r <= t
    ensures Monotone(b, Together(t, n)) && After(b, r, Together(t, n)).1 == n
  {
    Grows(0, n, r);
    var k := (t - b.last) / r;
    FloorAtLeast(n, t - b.last, r);
    assert t - b.last == k * r + (t - b.last) % r;
    assert (k + 1) * r == k * r + r;
    BurstExactly(b, r, t, k, n);
  }

  /** A call is refused exactly when the bucket is empty and no whole interval has passed, or can hold no token. */
  lemma RefusedExactly(b: Bucket, r: int, t: int)
    requires r > 0 && Level(b) && b.max >= 0 && b.last <= t
    ensures !Take(b, r, t).1 <==> b.max == 0 || (b.tokens == 0 && t < b.last + r)
  {
    FloorMonotone(0, t - b.last, r);
    assert 0 / r == 0;
    if t >= b.last + r {
      FloorAtLeast(1, t - b.last, r);
    } else {
      WholeIntervals(t - b.last, 0, r);
    }
  }
}
