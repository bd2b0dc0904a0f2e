/** The sharded, swept form of the limiter (internal/ratelimit/ratelimit.go) and the one map that
  * never forgets, which it refines. */
module RateLimit {
  import opened Common
  import opened Gcra

  const NUM_SHARDS := 16

  /** userID & (numShards - 1): the bitmask of a two's-complement number is its remainder. */
  function ShardOf(user: int64): (i: nat)
    ensures i < NUM_SHARDS
  {
    user % NUM_SHARDS
  }

  type Tats = map<int64, int>

  /** A user without an entry gets a fresh cell holding zero. */
  function Lookup(m: Tats, user: int64): int {
    if user in m then m[user] else 0
  }

  /** Each step holds the lock of one shard. A sweep reads the clock once, and its cutoff is that
    * reading less one window, however late it reaches a shard. */
  datatype Op = Allow(user: int64, n: int, now: int) | Reset(user: int64) | SweepOf(shard: nat, cutoff: int)

  // ---------------------------------------------------------------- the simple limiter

  function Simple(cap: int, window: int, m: Tats, op: Op): (Tats, Option<Decision>)
    requires cap > 0
  {
    match op
    case Allow(user, n, now) =>
      var (tat, d) := Decide(cap, window, Lookup(m, user), n, now);
      (m[user := tat], Some(d))
    case Reset(user) => (m[user := 0], None)
    case SweepOf(_, _) => (m, None)
  }

  // ---------------------------------------------------------------- the sharded limiter

  /** AllowN creates a missing cell before it decides, and not at all for a count it refuses outright. */
  function ShardAllow(cap: int, window: int, m: Tats, user: int64, n: int, now: int): (Tats, Decision)
    requires cap > 0
  {
    var (tat, d) := Decide(cap, window, Lookup(m, user), n, now);
    (if n <= 0 || n > cap then m else m[user := tat], d)
  }

  function ShardSweep(m: Tats, cutoff: int): Tats {
    map u | u in m && m[u] >= cutoff :: m[u]
  }

  type Shards = s: seq<Tats> | |s| == NUM_SHARDS witness seq(NUM_SHARDS, i => map[])

  function Sharded(cap: int, window: int, s: Shards, op: Op): (Shards, Option<Decision>)
    requires cap > 0
  {
    match op
    case Allow(user, n, now) =>
      var i := ShardOf(user);
      var (m, d) := ShardAllow(cap, window, s[i], user, n, now);
      (s[i := m], Some(d))
    case Reset(user) => (s[ShardOf(user) := s[ShardOf(user)] - {user}], None)
    case SweepOf(i, cutoff) => (if i < NUM_SHARDS then s[i := ShardSweep(s[i], cutoff)] else s, None)
  }

  function Tat(s: Shards, user: int64): int {
    Lookup(s[ShardOf(user)], user)
  }

  // ---------------------------------------------------------------- refinement

  /** Arrival times that lie in the past are interchangeable. */
  ghost predicate Agree(s: Shards, m: Tats, clock: int) {
    forall u: int64 :: Max(Tat(s, u), clock) == Max(Lookup(m, u), clock)
  }

  /** The latest clock reading known once op is done. */
  function Clock(window: int, op: Op, clock: int): int {
    match op
    case Allow(_, _, now) => now
    case Reset(_) => clock
    case SweepOf(_, cutoff) => Max(clock, cutoff + window)
  }

  lemma StepRefines(cap: int, window: int, s: Shards, m: Tats, op: Op, clock: int)
    requires cap > 0 && window >= 0 && 0 <= clock <= Clock(window, op, clock) && Agree(s, m, clock)
    ensures Sharded(cap, window, s, op).1 == Simple(cap, window, m, op).1
    ensures Agree(Sharded(cap, window, s, op).0, Simple(cap, window, m, op).0, Clock(window, op, clock))
  {
    hide Period;
    var t, k, now := Sharded(cap, window, s, op).0, Simple(cap, window, m, op).0, Clock(window, op, clock);
    if op.Allow? {
      var _ := Max(Tat(s, op.user), clock) == Max(Lookup(m, op.user), clock);
      if 0 < op.n <= cap { PeriodWithin(cap, window, op.n); }
    }
    forall u: int64 ensures Max(Tat(t, u), now) == Max(Lookup(k, u), now) {
      assert Max(Tat(s, u), clock) == Max(Lookup(m, u), clock);
    }
  }

  function ShardedRun(cap: int, window: int, s: Shards, ops: seq<Op>): seq<Option<Decision>>
    requires cap > 0
    decreases ops
  {
    if ops == [] then [] else
      var (t, d) := Sharded(cap, window, s, ops[0]);
      [d] + ShardedRun(cap, window, t, ops[1..])
  }

  function SimpleRun(cap: int, window: int, m: Tats, ops: seq<Op>): (ds: seq<Option<Decision>>)
    requires cap > 0
    ensures |ds| == |ops|
    decreases ops
  {
    if ops == [] then [] else
      var (t, d) := Simple(cap, window, m, ops[0]);
      [d] + SimpleRun(cap, window, t, ops[1..])
  }

  /** The clock is never read earlier than it was read before: a call reads it under the lock, and a
    * sweep before it reaches its first shard. */
  predicate ClockedRun(window: int, ops: seq<Op>, clock: int)
    decreases ops
  {
    ops == [] ||
    (clock <= Clock(window, ops[0], clock) && ClockedRun(window, ops[1..], Clock(window, ops[0], clock)))
  }

  lemma {:induction false} RunRefines(cap: int, window: int, s: Shards, m: Tats, ops: seq<Op>, clock: int)
    requires cap > 0 && window >= 0 && 0 <= clock && Agree(s, m, clock) && ClockedRun(window, ops, clock)
    ensures ShardedRun(cap, window, s, ops) == SimpleRun(cap, window, m, ops)
    decreases ops
  {
    hide Sharded, Simple, Agree;
    if ops != [] {
      StepRefines(cap, window, s, m, ops[0], clock);
      RunRefines(cap, window, Sharded(cap, window, s, ops[0]).0, Simple(cap, window, m, ops[0]).0,
                 ops[1..], Clock(window, ops[0], clock));
    }
  }

  const EMPTY: Shards := seq(NUM_SHARDS, i => map[])

  /** For every interleaving of calls, resets and the sweeps of single shards under a nondecreasing
    * nonnegative clock, and for every user id, every decision and every retry value is that of one
    * map that never forgets. */
  lemma LimiterRefinesSimple(cap: int, window: int, ops: seq<Op>)
    requires cap > 0 && window >= 0 && ClockedRun(window, ops, 0)
    ensures ShardedRun(cap, window, EMPTY, ops) == SimpleRun(cap, window, map[], ops)
  {
    RunRefines(cap, window, EMPTY, map[], ops, 0);
  }

  // ---------------------------------------------------------------- the run bound of one user among many

  /** The calls of one user. */
  function CallsOf(ops: seq<Op>, user: int64): seq<Call> {
    if ops == [] then []
    else (if ops[0].Allow? && ops[0].user == user then [Call(ops[0].n, ops[0].now)] else []) + CallsOf(ops[1..], user)
  }

  /** The slots that a run admits to one user with a clock reading in [a, b]. */
  function AdmittedTo(user: int64, ops: seq<Op>, ds: seq<Option<Decision>>, a: int, b: int): int
    requires |ds| == |ops|
  {
    if ops == [] then 0
    else
      (if ops[0].Allow? && ops[0].user == user && a <= ops[0].now <= b && ds[0].Some? && ds[0].value.allowed
       then ops[0].n else 0) + AdmittedTo(user, ops[1..], ds[1..], a, b)
  }

  predicate NeverReset(ops: seq<Op>, user: int64) {
    forall i :: 0 <= i < |ops| ==> ops[i] != Reset(user)
  }

  /** In the map that never forgets nobody else's calls matter to a user. */
  lemma {:induction false} UnitsOfUser(cap: int, window: int, m: Tats, ops: seq<Op>, user: int64, a: int, b: int)
    requires cap > 0 && NeverReset(ops, user)
    ensures AdmittedTo(user, ops, SimpleRun(cap, window, m, ops), a, b) ==
            Units(cap, window, Lookup(m, user), CallsOf(ops, user), a, b)
    decreases ops
  {
    if ops != [] {
      hide Decide;
      var (t, d) := Simple(cap, window, m, ops[0]);
      var ds := SimpleRun(cap, window, m, ops);
      assert ds[1..] == SimpleRun(cap, window, t, ops[1..]);
      assert ops[0] != Reset(user);
      UnitsOfUser(cap, window, t, ops[1..], user, a, b);
      if ops[0].Allow? && ops[0].user == user {
        assert CallsOf(ops, user)[1..] == CallsOf(ops[1..], user);
      } else {
        assert CallsOf(ops, user) == CallsOf(ops[1..], user);
      }
    }
  }

  /** The run bound for the limiter as it is: whatever other users, sweeps and resets of others do in
    * between, the slots admitted to a user in [a, b] cost at most the interval plus one window. */
  lemma UserRunBound(cap: int, window: int, ops: seq<Op>, user: int64, a: int, b: int)
    requires cap > 0 && window >= 0 && a <= b && ClockedRun(window, ops, 0) && NeverReset(ops, user)
    ensures |ShardedRun(cap, window, EMPTY, ops)| == |ops|
    ensures Period(cap, window) * AdmittedTo(user, ops, ShardedRun(cap, window, EMPTY, ops), a, b) <= (b - a) + window
  {
    LimiterRefinesSimple(cap, window, ops);
    UnitsOfUser(cap, window, map[], ops, user, a, b);
    RunBound(cap, window, 0, CallsOf(ops, user), a, b);
  }

  // ---------------------------------------------------------------- the memory bound

  function ShardedAfter(cap: int, window: int, s: Shards, ops: seq<Op>): Shards
    requires cap > 0
    decreases ops
  {
    if ops == [] then s else ShardedAfter(cap, window, Sharded(cap, window, s, ops[0]).0, ops[1..])
  }

  function ClockAfter(window: int, ops: seq<Op>, clock: int): int
    decreases ops
  {
    if ops == [] then clock else ClockAfter(window, ops[1..], Clock(window, ops[0], clock))
  }

  lemma {:induction false} AfterConcat(cap: int, window: int, s: Shards, ops: seq<Op>, more: seq<Op>)
    requires cap > 0
    ensures ShardedAfter(cap, window, s, ops + more) ==
            ShardedAfter(cap, window, ShardedAfter(cap, window, s, ops), more)
    decreases ops
  {
    if ops == [] {
      assert ops + more == more;
    } else {
      assert (ops + more)[1..] == ops[1..] + more;
      AfterConcat(cap, window, Sharded(cap, window, s, ops[0]).0, ops[1..], more);
    }
  }

  lemma AfterLast(cap: int, window: int, s: Shards, ops: seq<Op>)
    requires cap > 0 && ops != []
    ensures var n := |ops| - 1;
            ShardedAfter(cap, window, s, ops) == Sharded(cap, window, ShardedAfter(cap, window, s, ops[..n]), ops[n]).0
  {
    var n := |ops| - 1;
    assert ops == ops[..n] + [ops[n]];
    AfterConcat(cap, window, s, ops[..n], [ops[n]]);
    assert [ops[n]][1..] == [];
  }

  lemma {:induction false} ClockLast(window: int, ops: seq<Op>, clock: int)
    requires ops != [] && ClockedRun(window, ops, clock)
    ensures var n := |ops| - 1;
            && ClockedRun(window, ops[..n], clock)
            && clock <= ClockAfter(window, ops[..n], clock) <= ClockAfter(window, ops, clock)
            && ClockAfter(window, ops, clock) == Clock(window, ops[n], ClockAfter(window, ops[..n], clock))
    decreases ops
  {
    var n := |ops| - 1;
    if n > 0 {
      ClockLast(window, ops[1..], Clock(window, ops[0], clock));
      assert ops[1..][..n - 1] == ops[..n][1..];
    }
  }

  lemma OneStep(cap: int, window: int, s: Shards, op: Op)
    requires cap > 0
    ensures ShardedAfter(cap, window, s, [op]) == Sharded(cap, window, s, op).0
  {
    assert [op][1..] == [];
  }

  predicate Tracked(s: Shards, user: int64) {
    user in s[ShardOf(user)]
  }

  /** A call that reaches the user's cell. */
  predicate Admissible(op: Op, user: int64, cap: int) {
    op.Allow? && op.user == user && 0 < op.n <= cap
  }

  /** An admissible call, admitted or not, leaves an arrival time between its clock reading and one
    * window later, unless the cell was further ahead already. */
  lemma DecideRange(cap: int, window: int, tat: int, n: int, now: int)
    requires cap > 0 && window >= 0 && 0 < n <= cap
    ensures var next := Decide(cap, window, tat, n, now).0;
            now <= next && tat <= next <= Max(tat, now + window)
  {
    hide Period;
    PeriodWithin(cap, window, n);
  }

  /** A tracked user made an admissible call no more than a window before the time in its cell. */
  lemma {:induction false} TrackedWereActive(cap: int, window: int, ops: seq<Op>, user: int64) returns (i: nat)
    requires cap > 0 && window >= 0 && ClockedRun(window, ops, 0)
    requires Tracked(ShardedAfter(cap, window, EMPTY, ops), user)
    ensures i < |ops| && Admissible(ops[i], user, cap)
    ensures Tat(ShardedAfter(cap, window, EMPTY, ops), user) <= ops[i].now + window
    decreases |ops|
  {
    assert ops != [];
    hide Decide;
    var n := |ops| - 1;
    var s := ShardedAfter(cap, window, EMPTY, ops[..n]);
    AfterLast(cap, window, EMPTY, ops);
    ClockLast(window, ops, 0);
    var op := ops[n];
    if Admissible(op, user, cap) {
      DecideRange(cap, window, Tat(s, user), op.n, op.now);
      if Tat(s, user) <= op.now + window {
        i := n;
      } else {
        i := TrackedWereActive(cap, window, ops[..n], user);
      }
    } else {
      i := TrackedWereActive(cap, window, ops[..n], user);
    }
  }

  /** A user with an admissible call within the last window, not reset since, is tracked. */
  lemma {:induction false} ActiveAreTracked(cap: int, window: int, ops: seq<Op>, user: int64, i: nat)
    requires cap > 0 && window >= 0 && ClockedRun(window, ops, 0)
    requires i < |ops| && Admissible(ops[i], user, cap) && ops[i].now >= ClockAfter(window, ops, 0) - window
    requires NeverReset(ops[i + 1..], user)
    ensures Tracked(ShardedAfter(cap, window, EMPTY, ops), user)
    ensures Tat(ShardedAfter(cap, window, EMPTY, ops), user) >= ops[i].now
    decreases |ops|
  {
    hide Decide;
    var n := |ops| - 1;
    var s := ShardedAfter(cap, window, EMPTY, ops[..n]);
    AfterLast(cap, window, EMPTY, ops);
    ClockLast(window, ops, 0);
    var op := ops[n];
    if Admissible(op, user, cap) {
      DecideRange(cap, window, Tat(s, user), op.n, op.now);
    }
    if i < n {
      assert ops[..n][i + 1..] == ops[i + 1..][..n - i - 1];
      ActiveAreTracked(cap, window, ops[..n], user, i);
      assert ops[i + 1..][n - i - 1] == op;
    }
  }

  /** The i-th operation is an admissible call within the window before `now` and before the latest
    * clock reading of the run, with no reset since. */
  predicate ActiveLately(ops: seq<Op>, i: nat, user: int64, cap: int, window: int, now: int) {
    && i < |ops| && Admissible(ops[i], user, cap) && NeverReset(ops[i + 1..], user)
    && ops[i].now >= Max(now, ClockAfter(window, ops, 0)) - window
  }

  /** What bounds the memory, over every run from the empty limiter. When a sweep that read the clock
    * at `now` has been through a user's shard, the user is tracked only if it made an admissible call
    * within the last two windows; it is tracked for certain if it made one within the last window,
    * by any clock reading so far, and was not reset since. */
  lemma SweepForgets(cap: int, window: int, ops: seq<Op>, now: int, user: int64)
    requires cap > 0 && window >= 0 && ClockedRun(window, ops, 0)
    ensures var sweep := SweepOf(ShardOf(user), now - window);
            var s := ShardedAfter(cap, window, EMPTY, ops + [sweep]);
            && (Tracked(s, user) ==>
                  exists i :: 0 <= i < |ops| && Admissible(ops[i], user, cap) && ops[i].now >= now - 2 * window)
            && ((exists i: nat :: ActiveLately(ops, i, user, cap, window, now)) ==> Tracked(s, user))
  {
    var sweep := SweepOf(ShardOf(user), now - window);
    var s := ShardedAfter(cap, window, EMPTY, ops);
    AfterLast(cap, window, EMPTY, ops + [sweep]);
    assert (ops + [sweep])[..|ops|] == ops;
    if Tracked(s, user) && Tat(s, user) >= now - window {
      var i := TrackedWereActive(cap, window, ops, user);
    }
    forall i: nat | ActiveLately(ops, i, user, cap, window, now)
      ensures Tracked(s, user) && Tat(s, user) >= now - window
    {
      ActiveAreTracked(cap, window, ops, user, i);
    }
  }

  /** Two windows are not one too many: after a call that fills the window of a user never seen
    * before, the user is still tracked by a sweep two windows later, and by none after that. */
  lemma TwoWindows(window: int, user: int64, at: int, now: int)
    requires window >= 0 && 0 <= at
    ensures Tracked(ShardedAfter(1, window, EMPTY, [Allow(user, 1, at), SweepOf(ShardOf(user), now - window)]), user)
            <==> now <= at + 2 * window
  {
    var ops := [Allow(user, 1, at), SweepOf(ShardOf(user), now - window)];
    assert ops[..1] == [ops[0]];
    AfterLast(1, window, EMPTY, ops);
    OneStep(1, window, EMPTY, ops[0]);
    assert Period(1, window) == window;
  }

  // ---------------------------------------------------------------- implementation

  /** The walk over one shard's map, deleting as it goes. */
  method SweepShard(tats: Tats, cutoff: int) returns (kept: Tats)
    ensures kept == ShardSweep(tats, cutoff)
  {
    kept := tats;
    var rest: set<int64> := tats.Keys;
    while rest != {}
      invariant rest <= tats.Keys
      invariant forall u :: u in kept ==> u in tats && kept[u] == tats[u]
      invariant forall u :: u in tats ==> (u in kept <==> u in rest || tats[u] >= cutoff)
      decreases |rest|
    {
      var uid: int64 :| uid in rest;
      if tats[uid] < cutoff {
        kept := kept - {uid};
      }
      rest := rest - {uid};
    }
  }

  /** The steps of a sweep through the first n shards, with others' calls in between. */
  function SweepTrace(cutoff: int, between: seq<seq<Op>>, n: nat): seq<Op>
    requires n <= |between|
  {
    if n == 0 then [] else SweepTrace(cutoff, between, n - 1) + between[n - 1] + [SweepOf(n - 1, cutoff)]
  }

  /** With nothing in between, a sweep goes through every shard. */
  lemma {:induction false} QuietSweep(cap: int, window: int, s: Shards, cutoff: int, between: seq<seq<Op>>, n: nat)
    requires cap > 0 && n <= |between| == NUM_SHARDS && forall i :: 0 <= i < NUM_SHARDS ==> between[i] == []
    ensures var t := ShardedAfter(cap, window, s, SweepTrace(cutoff, between, n));
            forall i :: 0 <= i < NUM_SHARDS ==> t[i] == if i < n then ShardSweep(s[i], cutoff) else s[i]
  {
    if n > 0 {
      QuietSweep(cap, window, s, cutoff, between, n - 1);
      var trace := SweepTrace(cutoff, between, n - 1);
      assert trace + between[n - 1] + [SweepOf(n - 1, cutoff)] == trace + [SweepOf(n - 1, cutoff)];
      AfterConcat(cap, window, s, trace, [SweepOf(n - 1, cutoff)]);
      OneStep(cap, window, ShardedAfter(cap, window, s, trace), SweepOf(n - 1, cutoff));
    }
  }

  class Limiter {
    const cap: int
    const window: int
    const shards: array<Tats>

    ghost predicate Valid() {
      shards.Length == NUM_SHARDS
    }

    constructor (cap: int, window: int)
      ensures Valid() && fresh(shards) && this.cap == cap && this.window == window
      ensures shards[..] == seq(NUM_SHARDS, i => map[])
    {
      this.cap, this.window := cap, window;
      shards := new Tats[NUM_SHARDS](_ => map[]);
    }

    method AllowN(user: int64, n: int, now: int) returns (allowed: bool, retryAfter: int)
      requires Valid()
      modifies shards
      ensures cap <= 0 ==> allowed && retryAfter == 0 && shards[..] == old(shards[..])
      ensures cap > 0 ==>
                (shards[..], Some(Decision(allowed, retryAfter))) ==
                Sharded(cap, window, old(shards[..]), Allow(user, n, now))
    {
      if cap <= 0 {
        return true, 0;
      }
      if n <= 0 {
        assert shards[..][ShardOf(user) := shards[ShardOf(user)]] == shards[..];
        return false, 0;
      }
      if n > cap {
        assert shards[..][ShardOf(user) := shards[ShardOf(user)]] == shards[..];
        return false, window;
      }
      var shardIdx := ShardOf(user);
      if user !in shards[shardIdx] {
        shards[shardIdx] := shards[shardIdx][user := 0];
      }
      ghost var m := old(shards[..])[shardIdx];
      assert shards[shardIdx] == m[user := Lookup(m, user)];
      assert shards[..] == old(shards[..])[shardIdx := m[user := Lookup(m, user)]];
      var period := Period(cap, window);
      var oldTAT := shards[shardIdx][user];
      var newTAT := oldTAT;
      if newTAT < now {
        newTAT := now;
      }
      newTAT := newTAT + period * n;
      if newTAT - now > window {
        var retry := newTAT - window - now;
        if retry < 0 {
          retry := 0;
        }
        return false, retry;
      }
      shards[shardIdx] := shards[shardIdx][user := newTAT];
      assert shards[shardIdx] == old(shards[..])[shardIdx][user := newTAT];
      assert shards[..] == old(shards[..])[shardIdx := shards[shardIdx]];
      return true, 0;
    }

    method Reset(user: int64)
      requires Valid()
      modifies shards
      ensures cap <= 0 ==> shards[..] == old(shards[..])
      ensures cap > 0 ==> shards[..] == Sharded(cap, window, old(shards[..]), Op.Reset(user)).0
    {
      if cap <= 0 {
        return;
      }
      shards[ShardOf(user)] := shards[ShardOf(user)] - {user};
    }

    /** Other goroutines at work: each call holds the lock of one shard. */
    method Others(ops: seq<Op>)
      requires Valid()
      modifies shards
      ensures cap <= 0 ==> shards[..] == old(shards[..])
      ensures cap > 0 ==> shards[..] == ShardedAfter(cap, window, old(shards[..]), ops)
    {
      for i := 0 to |ops|
        invariant cap <= 0 ==> shards[..] == old(shards[..])
        invariant cap > 0 ==>
                    ShardedAfter(cap, window, shards[..], ops[i..]) == ShardedAfter(cap, window, old(shards[..]), ops)
      {
        assert ops[i..][0] == ops[i] && ops[i..][1..] == ops[i + 1..];
        match ops[i]
        case Allow(user, n, now) =>
          var _, _ := AllowN(user, n, now);
        case Reset(user) =>
          Reset(user);
        case SweepOf(shard, cutoff) =>
          if cap > 0 && shard < NUM_SHARDS {
            SweepOne(shard, cutoff);
          }
      }
    }

    method SweepOne(shard: nat, cutoff: int)
      requires Valid() && cap > 0 && shard < NUM_SHARDS
      modifies shards
      ensures shards[..] == Sharded(cap, window, old(shards[..]), SweepOf(shard, cutoff)).0
    {
      shards[shard] := SweepShard(shards[shard], cutoff);
    }

    /** between[i] are the calls of other goroutines that fall before the sweep locks shard i. */
    method Sweep(now: int, between: seq<seq<Op>>)
      requires Valid() && |between| == NUM_SHARDS
      modifies shards
      ensures cap <= 0 ==> shards[..] == old(shards[..])
      ensures cap > 0 ==>
                shards[..] == ShardedAfter(cap, window, old(shards[..]), SweepTrace(now - window, between, NUM_SHARDS))
    {
      if cap <= 0 {
        return;
      }
      var cutoff := now - window;
      for i := 0 to NUM_SHARDS
        invariant shards[..] == ShardedAfter(cap, window, old(shards[..]), SweepTrace(cutoff, between, i))
      {
        ghost var trace := SweepTrace(cutoff, between, i);
        Others(between[i]);
        AfterConcat(cap, window, old(shards[..]), trace, between[i]);
        SweepOne(i, cutoff);
        AfterConcat(cap, window, old(shards[..]), trace + between[i], [SweepOf(i, cutoff)]);
        OneStep(cap, window, ShardedAfter(cap, window, old(shards[..]), trace + between[i]), SweepOf(i, cutoff));
      }
    }
  }
}
