/** The generic cell rate algorithm of the per-user limiter (internal/ratelimit/ratelimit.go), in the
  * virtual-scheduling form of Annex A of ITU-T I.371. All times are nanoseconds. */
module Gcra {
  import opened Common

  /** Go's integer division truncates toward zero. */
  function Period(cap: int, window: int): int
    requires cap > 0
  {
    if window >= 0 then window / cap else -((-window) / cap)
  }

  datatype Decision = Decision(allowed: bool, retryAfter: int)

  /** One call for n slots against a theoretical arrival time: the new time and the answer. */
  function Decide(cap: int, window: int, tat: int, n: int, now: int): (int, Decision)
    requires cap > 0
  {
    if n <= 0 then (tat, Decision(false, 0))
    else if n > cap then (tat, Decision(false, window))
    else
      var next := Max(tat, now) + Period(cap, window) * n;
      if next - now > window then (tat, Decision(false, Max(0, next - window - now)))
      else (next, Decision(true, 0))
  }

  // ---------------------------------------------------------------- runs of one user

  datatype Call = Call(n: int, now: int)

  /** The slots admitted with a clock reading in [a, b], over a whole run of calls. */
  function Units(cap: int, window: int, tat: int, calls: seq<Call>, a: int, b: int): int
    requires cap > 0
    decreases calls
  {
    if calls == [] then 0 else
      var (next, d) := Decide(cap, window, tat, calls[0].n, calls[0].now);
      (if d.allowed && a <= calls[0].now <= b then calls[0].n else 0) + Units(cap, window, next, calls[1..], a, b)
  }

  lemma Distribute(p: int, x: int, y: int)
    ensures p * (x + y) == p * x + p * y
  {}

  lemma Product(p: int, x: int)
    requires 0 <= p && 0 <= x
    ensures 0 <= p * x
  {}

  /** What integer division loses. */
  lemma PeriodDivides(cap: int, window: int)
    requires cap > 0 && window >= 0
    ensures 0 <= Period(cap, window) && window == Period(cap, window) * cap + window % cap
  {}

  lemma PeriodCost(cap: int, window: int, n: int)
    requires cap > 0 && window >= 0 && 0 <= n
    ensures 0 <= Period(cap, window) * n
  {
    PeriodDivides(cap, window);
    Product(Period(cap, window), n);
  }

  /** No admissible call costs more than the window. */
  lemma PeriodWithin(cap: int, window: int, n: int)
    requires cap > 0 && window >= 0 && 0 <= n <= cap
    ensures 0 <= Period(cap, window) * n <= window
  {
    PeriodDivides(cap, window);
    PeriodCost(cap, window, n);
    PeriodCost(cap, window, cap - n);
    Distribute(Period(cap, window), n, cap - n);
  }

  lemma {:induction false} UnitsNonNegative(cap: int, window: int, tat: int, calls: seq<Call>, a: int, b: int)
    requires cap > 0
    ensures Units(cap, window, tat, calls, a, b) >= 0
    decreases calls
  {
    if calls != [] {
      UnitsNonNegative(cap, window, Decide(cap, window, tat, calls[0].n, calls[0].now).0, calls[1..], a, b);
    }
  }

  lemma {:induction false} UnitsFromTat(cap: int, window: int, tat: int, calls: seq<Call>, a: int, b: int)
    requires cap > 0 && window >= 0
    ensures var u := Units(cap, window, tat, calls, a, b);
            u == 0 || Period(cap, window) * u <= b + window - Max(tat, a)
    decreases calls
  {
    if calls != [] {
      hide Period;
      var c := calls[0];
      var next := Decide(cap, window, tat, c.n, c.now).0;
      UnitsFromTat(cap, window, next, calls[1..], a, b);
      UnitsNonNegative(cap, window, next, calls[1..], a, b);
      if 0 <= c.n { PeriodCost(cap, window, c.n); }
      Distribute(Period(cap, window), c.n, Units(cap, window, next, calls[1..], a, b));
    }
  }

  /** The run bound: whatever the history, the clock and the calls, the slots admitted to a user in
    * [a, b] cost at most the length of the interval plus one window. The clock need not even be
    * monotonic. */
  lemma RunBound(cap: int, window: int, tat: int, calls: seq<Call>, a: int, b: int)
    requires cap > 0 && window >= 0 && a <= b
    ensures Period(cap, window) * Units(cap, window, tat, calls, a, b) <= (b - a) + window
  {
    hide Period;
    UnitsFromTat(cap, window, tat, calls, a, b);
    assert Period(cap, window) * 0 == 0;
  }

  // ---------------------------------------------------------------- the burst at one instant

  function Burst(k: nat, now: int): seq<Call> {
    if k == 0 then [] else [Call(1, now)] + Burst(k - 1, now)
  }

  /** k single calls at one instant are all admitted to an idle user when their cost fits the window. */
  lemma {:induction false} BurstAdmitted(cap: int, window: int, tat: int, k: nat, now: int)
    requires cap > 0 && window >= 0
    requires Max(tat, now) - now + Period(cap, window) * k <= window
    ensures Units(cap, window, tat, Burst(k, now), now, now) == k
    decreases k
  {
    if k > 0 {
      hide Period;
      PeriodCost(cap, window, k - 1);
      PeriodCost(cap, window, 1);
      Distribute(Period(cap, window), 1, k - 1);
      var next := Decide(cap, window, tat, 1, now).0;
      BurstAdmitted(cap, window, next, k - 1, now);
      assert Burst(k, now)[1..] == Burst(k - 1, now);
    }
  }

  /** No run admits more than cap slots at any single instant. */
  ghost predicate InstantBound(cap: int, window: int)
    requires cap > 0
  {
    forall tat, calls, now :: Units(cap, window, tat, calls, now, now) <= cap
  }

  lemma Times(p: int, x: int, y: int)
    requires p >= 0 && x <= y
    ensures p * x <= p * y
  {
    Product(p, y - x);
    Distribute(p, x, y - x);
  }

  lemma WithinCap(p: int, u: int, cap: int, r: int)
    requires p * u <= p * cap + r && r < p && p > 0
    ensures u <= cap
  {
    if u > cap {
      Times(p, cap + 1, u);
      Distribute(p, cap, 1);
    }
  }

  /** Integer division of the window loses window % cap nanoseconds; a user gets exactly the
    * configured burst when the loss is smaller than one period, and an extra slot otherwise. */
  lemma InstantBoundExactly(cap: int, window: int)
    requires cap > 0 && window >= 0
    ensures InstantBound(cap, window) <==> window % cap < window / cap
  {
    hide Units;
    var p, r := Period(cap, window), window % cap;
    PeriodDivides(cap, window);
    if r < p {
      forall tat, calls, now ensures Units(cap, window, tat, calls, now, now) <= cap {
        RunBound(cap, window, tat, calls, now, now);
        WithinCap(p, Units(cap, window, tat, calls, now, now), cap, r);
      }
    } else {
      Distribute(p, cap, 1);
      BurstAdmitted(cap, window, 0, cap + 1, 0);
      assert Units(cap, window, 0, Burst(cap + 1, 0), 0, 0) > cap;
    }
  }

  /** In particular the bound holds for every cap whose square fits the window; 60 seconds admit
    * every cap up to 244948. */
  lemma SquareFits(cap: int, window: int)
    requires cap > 0 && cap * cap <= window
    ensures InstantBound(cap, window)
  {
    var q := window / cap;
    assert cap * (q + 1) > window;
    if q < cap {
      Times(cap, q + 1, cap);
    }
    Times(cap, 0, cap);
    InstantBoundExactly(cap, window);
  }

  // ---------------------------------------------------------------- retry-after

  /** A rejected call for an admissible number of slots succeeds after exactly retryAfter and not
    * earlier; a call for more than cap slots never succeeds, whatever it is told to wait. */
  lemma RetryExact(cap: int, window: int, tat: int, n: int, now: int, delay: nat)
    requires cap > 0 && window >= 0 && n > 0
    requires !Decide(cap, window, tat, n, now).1.allowed
    ensures Decide(cap, window, tat, n, now + delay).1.allowed <==>
              n <= cap && Decide(cap, window, tat, n, now).1.retryAfter <= delay
  {
    hide Period;
    if n <= cap { PeriodWithin(cap, window, n); }
  }

  // ---------------------------------------------------------------- the leaky bucket

  /** The other form of the algorithm: a bucket of capacity `window` that drains one unit a
    * nanosecond and is charged one period a slot. */
  datatype Bucket = Bucket(level: int, last: int)

  function Pour(cap: int, window: int, b: Bucket, n: int, now: int): (Bucket, Decision)
    requires cap > 0
  {
    var level := Max(0, b.level - (now - b.last));
    if n <= 0 then (Bucket(level, now), Decision(false, 0))
    else if n > cap then (Bucket(level, now), Decision(false, window))
    else
      var charge := Period(cap, window) * n;
      if level + charge > window then (Bucket(level, now), Decision(false, level + charge - window))
      else (Bucket(level + charge, now), Decision(true, 0))
  }

  function Decisions(cap: int, window: int, tat: int, calls: seq<Call>): seq<Decision>
    requires cap > 0
    decreases calls
  {
    if calls == [] then [] else
      var (next, d) := Decide(cap, window, tat, calls[0].n, calls[0].now);
      [d] + Decisions(cap, window, next, calls[1..])
  }

  function Pours(cap: int, window: int, b: Bucket, calls: seq<Call>): seq<Decision>
    requires cap > 0
    decreases calls
  {
    if calls == [] then [] else
      var (next, d) := Pour(cap, window, b, calls[0].n, calls[0].now);
      [d] + Pours(cap, window, next, calls[1..])
  }

  predicate Nondecreasing(calls: seq<Call>, clock: int)
    decreases calls
  {
    calls == [] || (clock <= calls[0].now && Nondecreasing(calls[1..], calls[0].now))
  }

  /** Over every run with a nondecreasing clock the limiter answers as a leaky bucket whose level is
    * what the theoretical arrival time is ahead of the clock. */
  lemma {:induction false} LeakyBucket(cap: int, window: int, tat: int, b: Bucket, calls: seq<Call>)
    requires cap > 0 && window >= 0 && b.level == Max(0, tat - b.last) && Nondecreasing(calls, b.last)
    ensures Decisions(cap, window, tat, calls) == Pours(cap, window, b, calls)
    decreases calls
  {
    if calls != [] {
      hide Period;
      var c := calls[0];
      if 0 < c.n <= cap { PeriodWithin(cap, window, c.n); }
      LeakyBucket(cap, window, Decide(cap, window, tat, c.n, c.now).0, Pour(cap, window, b, c.n, c.now).0, calls[1..]);
    }
  }

  // ---------------------------------------------------------------- int64

  /** The int64 sums of AllowN stay in range until the clock is within two windows of the year-2262
    * limit: an arrival time never runs more than a window ahead of the clock that set it. */
  lemma NoOverflow(cap: int, window: int, tat: int, n: int, now: int)
    requires cap > 0 && 0 <= window && 0 <= now && now + 2 * window <= MAX_INT64
    requires 0 <= tat <= now + window && 0 < n <= cap
    ensures 0 <= Period(cap, window) * n <= MAX_INT64
    ensures 0 <= Max(tat, now) + Period(cap, window) * n <= MAX_INT64
    ensures 0 <= Decide(cap, window, tat, n, now).0 <= now + window
  {
    hide Period;
    PeriodWithin(cap, window, n);
  }
}
