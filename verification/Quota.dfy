/** `connectors/sdk/quota.py`: the token bucket, over real-valued time. */
module Quota {

  datatype Bucket = Bucket(rate: real, capacity: real, tokens: real, last: real)

  function Lesser(a: real, b: real): real {
    if a <= b then a else b
  }

  function Greater(a: real, b: real): real {
    if a <= b then b else a
  }

  /** Tokens after the refill that starts an acquire at time `now`. */
  function Refilled(b: Bucket, now: real): real {
    Lesser(b.capacity, b.tokens + (now - b.last) * b.rate)
  }

  function Wait(b: Bucket, now: real): real
    requires b.rate > 0.0
  {
    if Refilled(b, now) < 1.0 then (1.0 - Refilled(b, now)) / b.rate else 0.0
  }

  /** When the acquire returns: at once, or at the clock reading `wake` after the sleep. */
  function ReleasedAt(b: Bucket, now: real, wake: real): real {
    if Refilled(b, now) < 1.0 then wake else now
  }

  /** The bucket after an acquire that reads `now`, and `wake` if it had to sleep. */
  function Acquired(b: Bucket, now: real, wake: real): Bucket {
    if Refilled(b, now) < 1.0 then b.(tokens := 0.0, last := wake)
    else b.(tokens := Refilled(b, now) - 1.0, last := now)
  }

  /** The bucket as an object; clock readings are what the injected clock returns. */
  class TokenBucket {
    const active: bool
    const rate: real
    const capacity: real
    var tokens: real
    var last: real

    constructor (strategy: string, ratePerS: real, burst: int, now: real)
      ensures active == (strategy != "none") && rate == ratePerS && capacity == burst as real
      ensures tokens == burst as real && last == now
    {
      active, rate, capacity := strategy != "none", ratePerS, burst as real;
      tokens, last := burst as real, now;
    }

    function State(): Bucket
      reads this
    {
      Bucket(rate, capacity, tokens, last)
    }

    /** Takes a token; `slept` is the wait it asks for before the second clock reading. */
    method Acquire(now: real, wake: real) returns (slept: real)
      requires active ==> rate > 0.0
      modifies this
      ensures !active ==> State() == old(State()) && slept == 0.0
      ensures active ==> State() == Acquired(old(State()), now, wake) && slept == Wait(old(State()), now)
    {
      slept := 0.0;
      if !active { return; }
      tokens := Lesser(capacity, tokens + (now - last) * rate);
      last := now;
      if tokens < 1.0 {
        slept := (1.0 - tokens) / rate;
        last := wake;
        tokens := 1.0;
      }
      tokens := tokens - 1.0;
    }
  }

  /** Clock readings of one acquire. */
  datatype Reading = Reading(now: real, wake: real)

  /** The bucket before acquire number `n` of a run. */
  function Before(b: Bucket, run: seq<Reading>, n: nat): Bucket
    requires n <= |run|
  {
    if n == 0 then b else Acquired(Before(b, run, n - 1), run[n - 1].now, run[n - 1].wake)
  }

  function Release(b: Bucket, run: seq<Reading>, n: nat): real
    requires n < |run|
  {
    ReleasedAt(Before(b, run, n), run[n].now, run[n].wake)
  }

  /** The clock never goes back and a sleep lasts at least as long as asked. */
  predicate Fair(s: Bucket, r: Reading)
  {
    s.rate > 0.0 && s.last <= r.now && r.now + Wait(s, r.now) <= r.wake
  }

  ghost predicate FairClock(b: Bucket, run: seq<Reading>)
  {
    forall n :: 0 <= n < |run| ==> Fair(Before(b, run, n), run[n])
  }

  lemma {:induction false} RunKeeps(b: Bucket, run: seq<Reading>, n: nat)
    requires n <= |run|
    ensures Before(b, run, n).rate == b.rate && Before(b, run, n).capacity == b.capacity
    ensures n > 0 ==> 0.0 <= Before(b, run, n).tokens <= Greater(b.capacity, 1.0) - 1.0
    ensures n > 0 ==> Before(b, run, n).last == Release(b, run, n - 1)
  {
    if n > 0 { RunKeeps(b, run, n - 1); }
  }

  lemma SleepPays(r: real, rate: real, now: real, wake: real)
    requires rate > 0.0 && now + (1.0 - r) / rate <= wake
    ensures 1.0 - r <= (wake - now) * rate
  {
    var d := (1.0 - r) / rate;
    assert d * rate == 1.0 - r;
    assert (wake - now - d) * rate >= 0.0;
  }

  lemma Accrues(a: real, b: real, c: real, rate: real)
    ensures (b - a) * rate + (c - b) * rate == (c - a) * rate
  {
  }

  /** One acquire spends a token out of what accrued since the previous release. */
  lemma AcquireSpends(s: Bucket, now: real, wake: real)
    requires Fair(s, Reading(now, wake))
    ensures s.last <= ReleasedAt(s, now, wake)
    ensures Acquired(s, now, wake).tokens + 1.0 <= s.tokens + (ReleasedAt(s, now, wake) - s.last) * s.rate
  {
    if Refilled(s, now) < 1.0 {
      SleepPays(Refilled(s, now), s.rate, now, wake);
      Accrues(s.last, now, wake, s.rate);
    }
  }

  lemma Chain(t0: real, t1: real, t2: real, n: real, x: real, y: real, z: real, rate: real)
    requires t1 + n <= t0 + (y - x) * rate && t2 + 1.0 <= t1 + (z - y) * rate
    ensures t2 + (n + 1.0) <= t0 + (z - x) * rate
  {
    Accrues(x, y, z, rate);
  }

  /** Tokens at a later release are bounded by those at an earlier one, the accrual, and the calls between. */
  lemma {:induction false} TokensAccount(b: Bucket, run: seq<Reading>, i: nat, j: nat)
    requires b.rate > 0.0 && FairClock(b, run) && i <= j < |run|
    ensures Release(b, run, i) <= Release(b, run, j)
    ensures Before(b, run, j + 1).tokens + (j - i) as real <=
              Before(b, run, i + 1).tokens + (Release(b, run, j) - Release(b, run, i)) * b.rate
    decreases j
  {
    hide Before, Release, FairClock;
    if i == j {
      assert (Release(b, run, j) - Release(b, run, i)) * b.rate == 0.0;
    } else {
      TokensAccount(b, run, i, j - 1);
      AccountStep(b, run, j);
      Chain(Before(b, run, i + 1).tokens, Before(b, run, j).tokens, Before(b, run, j + 1).tokens, (j - 1 - i) as real,
            Release(b, run, i), Release(b, run, j - 1), Release(b, run, j), b.rate);
    }
  }

  lemma AccountStep(b: Bucket, run: seq<Reading>, j: nat)
    requires b.rate > 0.0 && FairClock(b, run) && 0 < j < |run|
    ensures Release(b, run, j - 1) <= Release(b, run, j)
    ensures Before(b, run, j + 1).tokens + 1.0 <=
              Before(b, run, j).tokens + (Release(b, run, j) - Release(b, run, j - 1)) * b.rate
  {
    hide Wait, Refilled, Acquired, ReleasedAt, Fair;
    RunKeeps(b, run, j);
    var s := Before(b, run, j);
    assert Fair(s, run[j]);
    AcquireSpends(s, run[j].now, run[j].wake);
  }

  lemma WindowBound(t0: real, t1: real, n: real, top: real, d: real, window: real, rate: real)
    requires rate > 0.0 && t1 >= 0.0 && t0 <= top - 1.0 && t1 + n <= t0 + d * rate && d <= window
    ensures n + 1.0 <= top + rate * window
  {
    assert (window - d) * rate >= 0.0;
    Accrues(0.0, d, window, rate);
  }

  /**
   Rate bound: in any run with a fair clock, the calls released in any window number at most
   max(burst, 1) + rate * window, for every window from one release to a later one.
   */
  lemma RateBound(b: Bucket, run: seq<Reading>, i: nat, j: nat, window: real)
    requires b.rate > 0.0 && FairClock(b, run) && i <= j < |run|
    requires Release(b, run, j) - Release(b, run, i) <= window
    ensures (j - i + 1) as real <= Greater(b.capacity, 1.0) + b.rate * window
  {
    hide Before, Release, FairClock;
    TokensAccount(b, run, i, j);
    RunKeeps(b, run, i + 1);
    RunKeeps(b, run, j + 1);
    WindowBound(Before(b, run, i + 1).tokens, Before(b, run, j + 1).tokens, (j - i) as real, Greater(b.capacity, 1.0),
                Release(b, run, j) - Release(b, run, i), window, b.rate);
  }

  lemma {:induction false} RangeSize(calls: set<nat>, lo: nat, hi: nat)
    requires forall n :: n in calls ==> lo <= n <= hi
    requires lo <= hi
    ensures |calls| <= hi - lo + 1
    decreases hi - lo
  {
    if lo == hi {
      assert calls <= {hi};
      assert calls == {} || calls == {hi};
    } else {
      RangeSize(calls - {hi}, lo, hi - 1);
      if hi in calls { assert calls == (calls - {hi}) + {hi}; } else { assert calls - {hi} == calls; }
    }
  }

  lemma {:induction false} Ends(calls: set<nat>) returns (lo: nat, hi: nat)
    requires calls != {}
    ensures lo in calls && hi in calls && forall n :: n in calls ==> lo <= n <= hi
  {
    var x :| x in calls;
    var rest := calls - {x};
    if rest == {} {
      assert forall n :: n in calls && n != x ==> n in rest;
      lo, hi := x, x;
    } else {
      lo, hi := Ends(rest);
      assert forall n :: n in calls ==> n == x || n in rest;
      lo, hi := if x < lo then x else lo, if x > hi then x else hi;
    }
  }

  /** The rate bound for every window of time: any calls released between `t` and `t + window`. */
  lemma RateBoundInWindow(b: Bucket, run: seq<Reading>, t: real, window: real, calls: set<nat>)
    requires b.rate > 0.0 && FairClock(b, run) && window >= 0.0
    requires forall n :: n in calls ==> n < |run| && t <= Release(b, run, n) <= t + window
    ensures |calls| as real <= Greater(b.capacity, 1.0) + b.rate * window
  {
    if calls == {} {
      assert b.rate * window >= 0.0;
    } else {
      var lo, hi := Ends(calls);
      RangeSize(calls, lo, hi);
      RateBound(b, run, lo, hi, window);
    }
  }

  /** The wait is exactly as long as it takes for a whole token to be there. */
  lemma WaitLeast(b: Bucket, now: real, w: real)
    requires b.rate > 0.0 && b.capacity >= 1.0 && w >= 0.0
    ensures b.tokens + (now + w - b.last) * b.rate >= 1.0 <==> w >= Wait(b, now)
  {
    var held := b.tokens + (now - b.last) * b.rate;
    Accrues(b.last, now, now + w, b.rate);
    assert b.tokens + (now + w - b.last) * b.rate == held + w * b.rate;
    assert w * b.rate >= 0.0;
    if held < 1.0 {
      var need := (1.0 - held) / b.rate;
      assert need * b.rate == 1.0 - held;
      assert (w - need) * b.rate == w * b.rate - need * b.rate;
    }
  }

  /** A full bucket releases a burst of calls at once, one token each. */
  lemma {:induction false} BurstAtOnce(b: Bucket, run: seq<Reading>, n: nat)
    requires b.rate > 0.0 && b.tokens == b.capacity && n <= |run| && n as real <= b.capacity
    requires forall k :: 0 <= k < n ==> run[k].now == b.last
    ensures Before(b, run, n) == b.(tokens := b.capacity - n as real)
    ensures forall k :: 0 <= k < n ==> Release(b, run, k) == b.last
  {
    if n > 0 {
      BurstAtOnce(b, run, n - 1);
      assert (b.last - b.last) * b.rate == 0.0;
    }
  }

  /** Without a fair sleep the bound fails: a sleeper woken at once releases a second call in no time. */
  lemma EarlyWakeBreaksBound()
    ensures var b := Bucket(1.0, 1.0, 1.0, 0.0);
            var run := [Reading(0.0, 0.0), Reading(0.0, 0.0)];
            Release(b, run, 1) == Release(b, run, 0) && 2.0 > Greater(b.capacity, 1.0) + b.rate * 0.0
  {
    var b, run := Bucket(1.0, 1.0, 1.0, 0.0), [Reading(0.0, 0.0), Reading(0.0, 0.0)];
    assert Before(b, run, 1) == Bucket(1.0, 1.0, 0.0, 0.0);
  }
}
