/** The batch limiter of pkg/protection/resource_limiter.go as interleaved atomic steps of any number of callers. */
module BatchLimiter {

  /** Where a caller is between AcquireBatch and the matching ReleaseBatch. */
  datatype Caller =
    | Idle
    | Permitted                            // holds a permit, not counted yet
    | Counted(current: int)                // ConcurrentBatchOps was raised to `current`
    | Looping(current: int)                // about to load MaxConcurrentBatch
    | Loaded(current: int, seen: int)      // about to compare and swap
    | Holding
    | Releasing                            // no longer counted, still holds its permit

  datatype State = State(
    permits: nat,       // permits taken from the semaphore
    concurrent: int,    // ConcurrentBatchOps
    maximum: int,       // MaxConcurrentBatch
    total: nat,
    rejected: nat,
    peak: int,          // the highest value ConcurrentBatchOps has had
    callers: seq<Caller>)

  /** One atomic step of caller `w`. For a new call, `admitted` says whether size and rate limits let it through. */
  datatype Step = Step(w: nat, admitted: bool)

  function Max(a: int, b: int): int {
    if a < b then b else a
  }

  function Next(capacity: nat, s: State, step: Step): State {
    if step.w >= |s.callers| then s
    else
      var w := step.w;
      match s.callers[w]
      case Idle =>
        if step.admitted && s.permits < capacity then s.(permits := s.permits + 1, callers := s.callers[w := Permitted])
        else s.(rejected := s.rejected + 1)
      case Permitted =>
        var current := s.concurrent + 1;
        s.(concurrent := current, peak := Max(s.peak, current), callers := s.callers[w := Counted(current)])
      case Counted(current) => s.(total := s.total + 1, callers := s.callers[w := Looping(current)])
      case Looping(current) => s.(callers := s.callers[w := Loaded(current, s.maximum)])
      case Loaded(current, seen) =>
        if current <= seen then s.(callers := s.callers[w := Holding])
        else if s.maximum == seen then s.(maximum := current, callers := s.callers[w := Holding])
        else s.(callers := s.callers[w := Looping(current)])
      case Holding => s.(concurrent := s.concurrent - 1, callers := s.callers[w := Releasing])
      case Releasing =>
        s.(permits := if s.permits > 0 then s.permits - 1 else 0, callers := s.callers[w := Idle])
  }

  function Run(capacity: nat, s: State, steps: seq<Step>): State {
    if steps == [] then s else Next(capacity, Run(capacity, s, steps[..|steps| - 1]), steps[|steps| - 1])
  }

  function Start(callers: nat): State {
    State(0, 0, 0, 0, 0, 0, seq(callers, _ => Idle))
  }

  // ---- Counting ----

  predicate IsCounted(c: Caller) {
    c.Counted? || c.Looping? || c.Loaded? || c.Holding?
  }

  predicate HasPermit(c: Caller) {
    c != Idle
  }

  function Count(cs: seq<Caller>, p: Caller -> bool): nat {
    if cs == [] then 0 else Count(cs[..|cs| - 1], p) + if p(cs[|cs| - 1]) then 1 else 0
  }

  lemma {:induction false} CountUpdate(cs: seq<Caller>, p: Caller -> bool, w: nat, c: Caller)
    requires w < |cs|
    ensures Count(cs[w := c], p) == Count(cs, p) - (if p(cs[w]) then 1 else 0) + (if p(c) then 1 else 0)
  {
    var n := |cs| - 1;
    if w < n {
      CountUpdate(cs[..n], p, w, c);
      assert cs[w := c][..n] == cs[..n][w := c];
    } else {
      assert cs[w := c][..n] == cs[..n];
    }
  }

  lemma {:induction false} CountLess(cs: seq<Caller>, p: Caller -> bool, q: Caller -> bool)
    requires forall c :: p(c) ==> q(c)
    ensures Count(cs, p) <= Count(cs, q)
  {
    if cs != [] {
      CountLess(cs[..|cs| - 1], p, q);
    }
  }

  lemma {:induction false} NoneCounted(cs: seq<Caller>, p: Caller -> bool)
    requires forall i :: 0 <= i < |cs| ==> !p(cs[i])
    ensures Count(cs, p) == 0
  {
    if cs != [] {
      NoneCounted(cs[..|cs| - 1], p);
    }
  }

  // ---- What every interleaving keeps ----

  /** A caller whose value may still have to go into the maximum. */
  predicate IsPending(c: Caller) {
    c.Counted? || c.Looping? || c.Loaded?
  }

  ghost predicate Counters(capacity: nat, s: State) {
    && s.concurrent == Count(s.callers, IsCounted)
    && s.permits == Count(s.callers, HasPermit)
    && s.permits <= capacity && s.peak <= capacity
  }

  /** The maximum never exceeds the peak, and lags behind it only while the caller that saw the peak is pending. */
  ghost predicate Peaks(s: State) {
    && s.concurrent <= s.peak && s.maximum <= s.peak
    && (forall i :: 0 <= i < |s.callers| && IsPending(s.callers[i]) ==> s.callers[i].current <= s.peak)
    && (forall i :: 0 <= i < |s.callers| && s.callers[i].Loaded? ==> s.callers[i].seen <= s.maximum)
    && (|| s.maximum == s.peak
        || exists i :: 0 <= i < |s.callers| && IsPending(s.callers[i]) && s.callers[i].current == s.peak)
  }

  lemma NextCounters(capacity: nat, s: State, step: Step)
    requires Counters(capacity, s)
    ensures Counters(capacity, Next(capacity, s, step))
  {
    if step.w < |s.callers| {
      var c := Next(capacity, s, step).callers[step.w];
      CountUpdate(s.callers, IsCounted, step.w, c);
      CountUpdate(s.callers, HasPermit, step.w, c);
      CountLess(s.callers[step.w := c], IsCounted, HasPermit);
      assert s.callers[step.w := s.callers[step.w]] == s.callers;
    }
  }

  lemma NextPeaks(capacity: nat, s: State, step: Step)
    requires Peaks(s)
    ensures Peaks(Next(capacity, s, step))
  {
    if step.w < |s.callers| {
      var s' := Next(capacity, s, step);
      if s'.maximum != s'.peak {
        if s.maximum != s.peak && s'.peak == s.peak {
          var i :| 0 <= i < |s.callers| && IsPending(s.callers[i]) && s.callers[i].current == s.peak;
          assert i != step.w ==> s'.callers[i] == s.callers[i];
          assert IsPending(s'.callers[i]) && s'.callers[i].current == s'.peak;
        } else {
          assert IsPending(s'.callers[step.w]) && s'.callers[step.w].current == s'.peak;
        }
      }
    }
  }

  lemma {:induction false} RunKeeps(capacity: nat, callers: nat, steps: seq<Step>)
    ensures Counters(capacity, Run(capacity, Start(callers), steps)) && Peaks(Run(capacity, Start(callers), steps))
  {
    if steps == [] {
      NoneCounted(Start(callers).callers, IsCounted);
      NoneCounted(Start(callers).callers, HasPermit);
    } else {
      var k := |steps| - 1;
      RunKeeps(capacity, callers, steps[..k]);
      NextCounters(capacity, Run(capacity, Start(callers), steps[..k]), steps[k]);
      NextPeaks(capacity, Run(capacity, Start(callers), steps[..k]), steps[k]);
    }
  }

  /**
   In every interleaving the counter stays between zero and the permits held, these and the peak within the cap; once
   no compare-and-swap loop is pending, the recorded maximum is the peak the counter has ever had.
   */
  lemma LimiterSafe(capacity: nat, callers: nat, steps: seq<Step>)
    ensures var s := Run(capacity, Start(callers), steps);
            && 0 <= s.concurrent <= s.permits <= capacity
            && s.maximum <= s.peak <= capacity
            && ((forall i :: 0 <= i < |s.callers| ==> !IsPending(s.callers[i])) ==> s.maximum == s.peak)
  {
    RunKeeps(capacity, callers, steps);
    CountLess(Run(capacity, Start(callers), steps).callers, IsCounted, HasPermit);
  }

  /** The highest value the counter has had at any point of a run. */
  function Highest(capacity: nat, s: State, steps: seq<Step>): int {
    if steps == [] then s.concurrent
    else Max(Highest(capacity, s, steps[..|steps| - 1]), Run(capacity, s, steps).concurrent)
  }

  /** `peak` is what it says. */
  lemma {:induction false} PeakIsHighest(capacity: nat, callers: nat, steps: seq<Step>)
    ensures Run(capacity, Start(callers), steps).peak == Highest(capacity, Start(callers), steps)
  {
    if steps != [] {
      var k := |steps| - 1;
      PeakIsHighest(capacity, callers, steps[..k]);
      RunKeeps(capacity, callers, steps[..k]);
    }
  }

  // ---- Who is let through ----

  lemma {:induction false} SameCallers(capacity: nat, s: State, steps: seq<Step>)
    ensures |Run(capacity, s, steps).callers| == |s.callers|
  {
    if steps != [] {
      SameCallers(capacity, s, steps[..|steps| - 1]);
    }
  }

  /** What becomes of a new call: a permit, or a rejection that is counted; no other caller is touched. */
  predicate Decided(s: State, s': State, w: nat, permitted: bool)
    requires w < |s.callers|
  {
    && s'.callers == s.callers[w := if permitted then Permitted else Idle]
    && s'.rejected == s.rejected + (if permitted then 0 else 1)
    && s'.total == s.total && s'.concurrent == s.concurrent
  }

  /**
   After every run, a call that size and rate limits let through gets a permit if and only if fewer callers than the
   capacity hold one; every other call is rejected.
   */
  lemma PermitExactly(capacity: nat, callers: nat, steps: seq<Step>, step: Step)
    requires step.w < callers
    ensures var s := Run(capacity, Start(callers), steps);
            |s.callers| == callers &&
            (s.callers[step.w].Idle? ==>
               Decided(s, Next(capacity, s, step), step.w, step.admitted && Count(s.callers, HasPermit) < capacity))
  {
    RunKeeps(capacity, callers, steps);
    SameCallers(capacity, Start(callers), steps);
    var s := Run(capacity, Start(callers), steps);
    assert s.callers[step.w := s.callers[step.w]] == s.callers;
  }

  /** The calls of AcquireBatch begun in a run. */
  function Attempts(capacity: nat, s: State, steps: seq<Step>): nat {
    if steps == [] then 0
    else
      var k := |steps| - 1;
      var before := Run(capacity, s, steps[..k]);
      Attempts(capacity, s, steps[..k]) +
      if steps[k].w < |before.callers| && before.callers[steps[k].w].Idle? then 1 else 0
  }

  /** Let through, but not in the total yet. */
  predicate IsUntold(c: Caller) {
    c.Permitted? || c.Counted?
  }

  lemma NextTold(capacity: nat, s: State, step: Step)
    ensures var s' := Next(capacity, s, step);
            s'.total + s'.rejected + Count(s'.callers, IsUntold) ==
            s.total + s.rejected + Count(s.callers, IsUntold) +
            if step.w < |s.callers| && s.callers[step.w].Idle? then 1 else 0
  {
    if step.w < |s.callers| {
      var c := Next(capacity, s, step).callers[step.w];
      CountUpdate(s.callers, IsUntold, step.w, c);
      assert s.callers[step.w := s.callers[step.w]] == s.callers;
    }
  }

  /** Every call is counted once: in the total, among the rejected, or as a caller about to be counted. */
  lemma {:induction false} EveryCallCounted(capacity: nat, callers: nat, steps: seq<Step>)
    ensures var s := Run(capacity, Start(callers), steps);
            s.total + s.rejected + Count(s.callers, IsUntold) == Attempts(capacity, Start(callers), steps)
  {
    if steps == [] {
      NoneCounted(Start(callers).callers, IsUntold);
    } else {
      var k := |steps| - 1;
      EveryCallCounted(capacity, callers, steps[..k]);
      NextTold(capacity, Run(capacity, Start(callers), steps[..k]), steps[k]);
    }
  }

  // ---- The bound is reached ----

  /** A caller's next `n` steps, with no other in between. */
  function Alone(w: nat, n: nat): (steps: seq<Step>)
    ensures |steps| == n && forall i :: 0 <= i < n ==> steps[i] == Step(w, true)
  {
    seq(n, _ => Step(w, true))
  }

  lemma AloneNext(capacity: nat, s: State, w: nat, n: nat)
    ensures Run(capacity, s, Alone(w, n + 1)) == Next(capacity, Run(capacity, s, Alone(w, n)), Step(w, true))
  {
    assert Alone(w, n + 1)[..n] == Alone(w, n);
  }

  lemma LoopsAlone(capacity: nat, s: State, w: nat)
    requires w < |s.callers| && s.callers[w].Idle? && s.permits < capacity
    ensures var s' := Run(capacity, s, Alone(w, 3));
            && s'.callers == s.callers[w := Looping(s.concurrent + 1)]
            && s'.permits == s.permits + 1 && s'.concurrent == s.concurrent + 1 && s'.total == s.total + 1
  {
    assert Alone(w, 0) == [];
    AloneNext(capacity, s, w, 0);
    AloneNext(capacity, s, w, 1);
    AloneNext(capacity, s, w, 2);
  }

  /** A caller that finds room and is not disturbed holds its batch after five steps. */
  lemma HoldsAlone(capacity: nat, s: State, w: nat)
    requires w < |s.callers| && s.callers[w].Idle? && s.permits < capacity
    ensures var s' := Run(capacity, s, Alone(w, 5));
            && s'.callers == s.callers[w := Holding]
            && s'.permits == s.permits + 1 && s'.concurrent == s.concurrent + 1 && s'.total == s.total + 1
  {
    var loop := Run(capacity, s, Alone(w, 3));
    LoopsAlone(capacity, s, w);
    AloneNext(capacity, s, w, 3);
    AloneNext(capacity, s, w, 4);
    assert Run(capacity, s, Alone(w, 4)) ==
           loop.(callers := loop.callers[w := Loaded(s.concurrent + 1, loop.maximum)]);
  }

  /** Two more and its permit is back. */
  lemma ReleasesAlone(capacity: nat, s: State, w: nat)
    requires w < |s.callers| && s.callers[w].Holding? && s.permits > 0
    ensures var s' := Run(capacity, s, Alone(w, 2));
            && s'.callers == s.callers[w := Idle]
            && s'.permits == s.permits - 1 && s'.concurrent == s.concurrent - 1
  {
    assert Alone(w, 0) == [];
    AloneNext(capacity, s, w, 0);
    AloneNext(capacity, s, w, 1);
  }

  lemma {:induction false} RunCat(capacity: nat, s: State, a: seq<Step>, b: seq<Step>)
    ensures Run(capacity, s, a + b) == Run(capacity, Run(capacity, s, a), b)
  {
    if b == [] {
      assert a + b == a;
    } else {
      assert (a + b)[..|a + b| - 1] == a + b[..|b| - 1];
      RunCat(capacity, s, a, b[..|b| - 1]);
    }
  }

  function Busy(callers: nat, n: nat): (cs: seq<Caller>)
    ensures |cs| == callers && forall i :: 0 <= i < callers ==> cs[i] == if i < n then Holding else Idle
  {
    seq(callers, i => if i < n then Holding else Idle)
  }

  /** For every capacity there is a run in which that many callers hold batches at once, and the maximum records it. */
  lemma {:induction false} BoundReached(capacity: nat, callers: nat, n: nat) returns (steps: seq<Step>)
    requires n <= capacity && n <= callers
    ensures var s := Run(capacity, Start(callers), steps);
            s.callers == Busy(callers, n) && s.permits == n && s.concurrent == n && s.maximum >= n
  {
    if n == 0 {
      steps := [];
      assert Start(callers).callers == Busy(callers, 0);
    } else {
      var before := BoundReached(capacity, callers, n - 1);
      var s := Run(capacity, Start(callers), before);
      HoldsAlone(capacity, s, n - 1);
      RunCat(capacity, Start(callers), before, Alone(n - 1, 5));
      steps := before + Alone(n - 1, 5);
      assert Busy(callers, n - 1)[n - 1 := Holding] == Busy(callers, n);
      LimiterSafe(capacity, callers, steps);
      RunKeeps(capacity, callers, steps);
    }
  }
}
