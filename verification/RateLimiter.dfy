/**
  `LocalRateLimiter` of src/openfundscore/official_providers.py, one caller at a time, against an
  arbitrary clock and sleeper: `clock(i)` is the i-th reading of a call (`None` when it fails or is
  not finite) and `sleeper(i)` tells whether the i-th sleep returns.
 */
module RateLimiter {
  import opened Ordering
  import opened Prelude
  import opened RealFacts

  const MAX_CONFIRMATIONS := 8

  function Interval(rps: int): real
    requires 1 <= rps <= 10
  {
    1.0 / rps as real
  }

  /** Successive grants are at least one interval apart. */
  ghost predicate Spaced(grants: seq<real>, rps: int)
    requires 1 <= rps <= 10
  {
    forall i | 1 <= i < |grants| :: grants[i - 1] + Interval(rps) <= grants[i]
  }

  /** The readings before the `k`-th were all too early and were each followed by a completed sleep. */
  ghost predicate Waits(clock: nat -> Option<real>, sleeper: nat -> bool, deadline: real, k: nat) {
    forall i | 0 <= i < k :: clock(i).Some? && clock(i).value < deadline && sleeper(i)
  }

  /** A call is granted after `k` sleeps. */
  ghost predicate GrantedAfter(clock: nat -> Option<real>, sleeper: nat -> bool, deadline: real, k: nat) {
    k <= 8 && Waits(clock, sleeper, deadline, k) && clock(k).Some? && deadline <= clock(k).value
  }

  class LocalRateLimiter {
    const rps: int
    const interval: real
    var nextAllowed: real
    /** The clock readings at which calls were granted. */
    ghost var grants: seq<real>

    ghost predicate Valid()
      reads this
    {
      && 1 <= rps <= 10 && interval == Interval(rps)
      && Spaced(grants, rps)
      && (grants == [] ==> nextAllowed == 0.0)
      && (grants != [] ==> nextAllowed == grants[|grants| - 1] + Interval(rps))
    }

    constructor (requestsPerSecond: int)
      requires 1 <= requestsPerSecond <= 10
      ensures Valid() && rps == requestsPerSecond && grants == [] && nextAllowed == 0.0
    {
      rps := requestsPerSecond;
      interval := Interval(requestsPerSecond);
      nextAllowed := 0.0;
      grants := [];
    }

    /**
      Grants exactly when some reading within the first nine reaches the deadline after uninterrupted
      waiting; a call that is not granted leaves the limiter as it was.
     */
    method Acquire(clock: nat -> Option<real>, sleeper: nat -> bool) returns (granted: bool, sleeps: nat)
      requires Valid()
      modifies this
      ensures Valid()
      ensures sleeps <= MAX_CONFIRMATIONS
      ensures granted <==> exists k: nat :: GrantedAfter(clock, sleeper, old(nextAllowed), k)
      ensures granted ==>
                && GrantedAfter(clock, sleeper, old(nextAllowed), sleeps)
                && grants == old(grants) + [clock(sleeps).value]
                && nextAllowed == clock(sleeps).value + interval
      ensures !granted ==> nextAllowed == old(nextAllowed) && grants == old(grants)
    {
      sleeps := 0;
      var now := clock(0);
      if now.None? {
        return false, sleeps;
      }
      var deadline := nextAllowed;
      while now.value < deadline
        invariant sleeps <= MAX_CONFIRMATIONS && now == clock(sleeps) && now.Some?
        invariant Waits(clock, sleeper, deadline, sleeps)
        invariant deadline == nextAllowed == old(nextAllowed) && grants == old(grants)
        decreases MAX_CONFIRMATIONS - sleeps
      {
        if sleeps >= MAX_CONFIRMATIONS {
          NotGranted(clock, sleeper, deadline, sleeps);
          return false, sleeps;
        }
        if !sleeper(sleeps) {
          NotGranted(clock, sleeper, deadline, sleeps);
          return false, sleeps;
        }
        var next := clock(sleeps + 1);
        if next.None? {
          NotGranted(clock, sleeper, deadline, sleeps + 1);
          return false, sleeps + 1;
        }
        sleeps := sleeps + 1;
        now := next;
      }
      assert GrantedAfter(clock, sleeper, deadline, sleeps);
      var base := if now.value > deadline then now.value else deadline;
      nextAllowed := base + interval;
      grants := grants + [now.value];
      return true, sleeps;
    }
  }

  /** After waiting `k` times, an unusable `k`-th reading, an interrupted sleep or spent confirmations rule out any grant. */
  lemma NotGranted(clock: nat -> Option<real>, sleeper: nat -> bool, deadline: real, k: nat)
    requires Waits(clock, sleeper, deadline, k)
    requires clock(k).None? || (clock(k).value < deadline && (!sleeper(k) || k >= MAX_CONFIRMATIONS))
    ensures forall j: nat :: !GrantedAfter(clock, sleeper, deadline, j)
  {
    forall j: nat ensures !GrantedAfter(clock, sleeper, deadline, j) {
      assert j < k ==> clock(j).Some? && clock(j).value < deadline;
    }
  }

  // ---- what spacing means for any one-second window ----

  lemma {:induction false} SpacedApart(grants: seq<real>, rps: int, i: nat, j: nat)
    requires 1 <= rps <= 10 && Spaced(grants, rps) && i <= j < |grants|
    ensures grants[j] >= grants[i] + (j - i) as real * Interval(rps)
    decreases j
  {
    hide Interval;
    if i < j {
      SpacedApart(grants, rps, i, j - 1);
      assert (j - i) as real == (j - 1 - i) as real + 1.0;
      assert ((j - 1 - i) as real + 1.0) * Interval(rps) == (j - 1 - i) as real * Interval(rps) + Interval(rps);
    }
  }

  lemma IntervalsFill(n: int, rps: int)
    requires 1 <= rps <= 10 && n >= rps
    ensures n as real * Interval(rps) >= 1.0
  {
    var r := Interval(rps);
    assert rps as real * r == 1.0;
    assert (n - rps) as real * r >= 0.0;
    assert n as real * r == rps as real * r + (n - rps) as real * r;
  }

  ghost function InWindow(grants: seq<real>, start: real): set<nat> {
    set i: nat | i < |grants| && start <= grants[i] < start + 1.0
  }

  /** Over any run, a half-open one-second window holds at most `rps` grants. */
  lemma AtMostRpsPerSecond(grants: seq<real>, rps: int, start: real)
    requires 1 <= rps <= 10 && Spaced(grants, rps)
    ensures |InWindow(grants, start)| <= rps
  {
    var window := InWindow(grants, start);
    if window != {} {
      var first := Least(window);
      var span := Span(first, rps);
      forall i | i in window ensures i in span {
        TooFarApart(grants, rps, start, first, i);
      }
      SetSizes(window, span);
    }
  }

  lemma TooFarApart(grants: seq<real>, rps: int, start: real, first: nat, i: nat)
    requires 1 <= rps <= 10 && Spaced(grants, rps) && first <= i < |grants|
    requires start <= grants[first] && grants[i] < start + 1.0
    ensures i < first + rps
  {
    hide Interval;
    SpacedApart(grants, rps, first, i);
    if i - first >= rps {
      IntervalsFill(i - first, rps);
    }
  }

  lemma Least(s: set<nat>) returns (m: nat)
    requires s != {}
    ensures m in s && forall i | i in s :: m <= i
    decreases |s|
  {
    var x :| x in s;
    m := x;
    if s != {x} {
      assert s == (s - {x}) + {x};
      var other := Least(s - {x});
      if other < x { m := other; }
    }
  }

  /** The `n` positions from `first` on. */
  ghost function Span(first: nat, n: nat): (r: set<nat>)
    ensures |r| == n && forall i :: i in r <==> first <= i < first + n
  {
    if n == 0 then {} else Span(first, n - 1) + {first + n - 1}
  }

  /** The interval divides the second into exactly `rps` parts: the limiter waits no longer than it must. */
  lemma IntervalSharesSecond(rps: int)
    requires 1 <= rps <= 10
    ensures Interval(rps) > 0.0 && rps as real * Interval(rps) == 1.0
  {
  }

  /** The end of the `i`-th interval. */
  function Mark(i: int, rps: int): real
    requires 1 <= rps <= 10
  {
    i as real * Interval(rps)
  }

  lemma NextMark(i: int, rps: int)
    requires 1 <= rps <= 10
    ensures Mark(i - 1, rps) + Interval(rps) == Mark(i, rps)
  {
    hide Interval;
    var r := Interval(rps);
    assert (i - 1) as real == i as real - 1.0;
    assert (i as real - 1.0) * r == i as real * r - r;
  }

  lemma MarkInSecond(i: int, rps: int)
    requires 1 <= rps <= 10 && 0 <= i < rps
    ensures 0.0 <= Mark(i, rps) < 1.0
  {
    IntervalSharesSecond(rps);
    hide Interval;
    ScaleUp(0.0, i as real, Interval(rps));
    ScaleUp(rps as real, i as real, Interval(rps));
  }

  function Steady(rps: int): (grants: seq<real>)
    requires 1 <= rps <= 10
    ensures |grants| == rps && forall i | 0 <= i < rps :: grants[i] == Mark(i, rps)
  {
    seq(rps, i requires 0 <= i < rps => Mark(i, rps))
  }

  /** The bound is reached: steady grants are spaced as required, and one second of them holds exactly `rps`. */
  lemma RateIsReached(rps: int)
    requires 1 <= rps <= 10
    ensures Spaced(Steady(rps), rps) && |InWindow(Steady(rps), 0.0)| == rps
  {
    hide Interval, Mark;
    var grants := Steady(rps);
    forall i | 1 <= i < rps ensures grants[i - 1] + Interval(rps) <= grants[i] {
      NextMark(i, rps);
    }
    forall i | 0 <= i < rps ensures 0.0 <= grants[i] < 1.0 {
      MarkInSecond(i, rps);
    }
    assert InWindow(grants, 0.0) == Span(0, rps);
  }
}
