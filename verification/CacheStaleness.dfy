/** The read-through, write-invalidate layer between the caches and the database
  * (internal/store/store.go: bans, authorizations, activations), for one key and any number of
  * readers and writers, interleaved between a reader's cache get, database read and cache set and
  * between a writer's database write and invalidate. */
module CacheStaleness {
  import opened Common

  /** The database's answer from `time` on; the log's last entry is the current one. */
  datatype Change<V> = Change(time: int, value: V)

  /** What a read obtained: the answer of version `version`, read from the database at readAt. */
  datatype Answer<V> = Answer(value: V, readAt: int, version: nat)

  /** late: some write came after the database read of the fill that set this entry, and had
    * already invalidated and returned when the fill set it. */
  datatype Entry<V> = Entry(answer: Answer<V>, expires: int, late: bool)

  /** known: the writes that had returned when the read started. */
  datatype Pc<V> =
    | Idle
    | Missed(known: set<nat>)
    | Fetched(known: set<nat>, answer: Answer<V>)
    | Answered(known: set<nat>, answer: Answer<V>, at: int, late: bool)
    | Invalidating(version: nat)

  datatype State<V> = State(now: int, log: seq<Change<V>>, cache: Option<Entry<V>>,
                            returned: set<nat>, procs: map<nat, Pc<V>>)

  datatype Step<V> =
    | Tick(elapsed: nat)
    | Get(p: nat)                 // the cache lookup that starts a read
    | ReadDatabase(p: nat)
    | ReadFails(p: nat)
    | SetCache(p: nat)
    | Write(p: nat, value: V)     // the acknowledged database write that starts a write
    | Invalidate(p: nat)
    | Finish(p: nat)
    | DatabaseChanges(value: V)   // expiry, another process, or a write that was applied but failed
    | Evict                       // capacity eviction or sweep

  function At<V>(s: State<V>, p: nat): Pc<V> {
    if p in s.procs then s.procs[p] else Idle
  }

  function Version<V>(s: State<V>): int {
    |s.log| - 1
  }

  predicate Enabled<V>(s: State<V>, t: Step<V>) {
    match t
    case Tick(_) => true
    case Get(p) => At(s, p).Idle?
    case ReadDatabase(p) => At(s, p).Missed? && s.log != []
    case ReadFails(p) => At(s, p).Missed?
    case SetCache(p) => At(s, p).Fetched?
    case Write(p, _) => At(s, p).Idle?
    case Invalidate(p) => At(s, p).Invalidating?
    case Finish(p) => At(s, p).Answered?
    case DatabaseChanges(_) => true
    case Evict => true
  }

  function Goto<V>(s: State<V>, p: nat, pc: Pc<V>): State<V> {
    s.(procs := s.procs[p := pc])
  }

  /** The answer is older than one of the given writes. */
  ghost predicate OlderThan<V>(a: Answer<V>, writes: set<nat>) {
    exists n :: n in writes && a.version < n
  }

  ghost function Apply<V>(s: State<V>, t: Step<V>, ttl: int): State<V>
    requires Enabled(s, t)
  {
    match t
    case Tick(d) => s.(now := s.now + d)
    case Get(p) => (
      match s.cache
      case Some(e) =>
        if s.now > e.expires then Goto(s, p, Missed(s.returned)).(cache := None)
        else Goto(s, p, Answered(s.returned, e.answer, s.now, e.late))
      case None => Goto(s, p, Missed(s.returned)))
    case ReadDatabase(p) =>
      Goto(s, p, Fetched(At(s, p).known, Answer(s.log[Version(s)].value, s.now, Version(s))))
    case ReadFails(p) => Goto(s, p, Idle)
    case SetCache(p) =>
      var a := At(s, p).answer;
      Goto(s, p, Answered(At(s, p).known, a, s.now, false))
        .(cache := Some(Entry(a, s.now + ttl, OlderThan(a, s.returned))))
    case Write(p, v) => Goto(s, p, Invalidating(|s.log|)).(log := s.log + [Change(s.now, v)])
    case Invalidate(p) => Goto(s, p, Idle).(cache := None, returned := s.returned + {At(s, p).version})
    case Finish(p) => Goto(s, p, Idle)
    case DatabaseChanges(v) => s.(log := s.log + [Change(s.now, v)])
    case Evict => s.(cache := None)
  }

  ghost predicate Legal<V>(s: State<V>, run: seq<Step<V>>, ttl: int)
    decreases run
  {
    run == [] || (Enabled(s, run[0]) && Legal(Apply(s, run[0], ttl), run[1..], ttl))
  }

  ghost function After<V>(s: State<V>, run: seq<Step<V>>, ttl: int): State<V>
    requires Legal(s, run, ttl)
    decreases run
  {
    if run == [] then s else After(Apply(s, run[0], ttl), run[1..], ttl)
  }

  // ---------------------------------------------------------------- bounded staleness

  /** At time readAt the database's answer was this one. */
  ghost predicate Genuine<V>(log: seq<Change<V>>, a: Answer<V>) {
    && a.version < |log| && log[a.version].value == a.value
    && log[a.version].time <= a.readAt
    && (a.version + 1 < |log| ==> a.readAt <= log[a.version + 1].time)
  }

  ghost predicate Clocked<V>(s: State<V>) {
    s.log != [] && forall i :: 0 <= i < |s.log| ==> s.log[i].time <= s.now
  }

  /** Every fill sets the cache at most `fill` after its database read. */
  ghost predicate Timely<V>(s: State<V>, t: Step<V>, fill: nat) {
    t.SetCache? && At(s, t.p).Fetched? ==> s.now - At(s, t.p).answer.readAt <= fill
  }

  ghost predicate GoodEntry<V>(s: State<V>, e: Entry<V>, ttl: int, fill: nat) {
    Genuine(s.log, e.answer) && e.answer.readAt <= s.now && e.expires <= e.answer.readAt + ttl + fill
  }

  ghost predicate GoodPc<V>(s: State<V>, pc: Pc<V>, ttl: int, fill: nat) {
    && (pc.Fetched? || pc.Answered? ==> Genuine(s.log, pc.answer) && pc.answer.readAt <= s.now)
    && (pc.Answered? ==> pc.at <= s.now && pc.at - pc.answer.readAt <= ttl + fill)
  }

  ghost predicate BoundInv<V>(s: State<V>, ttl: int, fill: nat) {
    && Clocked(s)
    && (s.cache.Some? ==> GoodEntry(s, s.cache.value, ttl, fill))
    && forall p :: GoodPc(s, At(s, p), ttl, fill)
  }

  /** The log grows by changes of the present, and the clock does not go back. */
  lemma StepLogs<V>(s: State<V>, t: Step<V>, ttl: nat)
    requires Clocked(s) && Enabled(s, t)
    ensures var u := Apply(s, t, ttl);
            && Clocked(u) && s.now <= u.now && (u.log == s.log || (|u.log| == |s.log| + 1 && s.log <= u.log
                && u.log[|s.log|].time == s.now))
  {}

  lemma StaysGenuine<V>(s: State<V>, t: Step<V>, ttl: nat, a: Answer<V>)
    requires Clocked(s) && Enabled(s, t) && Genuine(s.log, a) && a.readAt <= s.now
    ensures Genuine(Apply(s, t, ttl).log, a) && a.readAt <= Apply(s, t, ttl).now
  {
    hide Apply;
    StepLogs(s, t, ttl);
  }

  lemma StaysGood<V>(s: State<V>, t: Step<V>, ttl: nat, fill: nat, pc: Pc<V>)
    requires Clocked(s) && Enabled(s, t) && GoodPc(s, pc, ttl, fill)
    ensures GoodPc(Apply(s, t, ttl), pc, ttl, fill)
  {
    hide Apply, Genuine;
    StepLogs(s, t, ttl);
    if pc.Fetched? || pc.Answered? {
      StaysGenuine(s, t, ttl, pc.answer);
    }
  }

  /** Where a step takes its reader or writer. */
  lemma MovedStaysGood<V>(s: State<V>, t: Step<V>, ttl: nat, fill: nat)
    requires BoundInv(s, ttl, fill) && Enabled(s, t) && Timely(s, t, fill)
    requires t.Get? || t.ReadDatabase? || t.ReadFails? || t.SetCache? || t.Write? || t.Invalidate? || t.Finish?
    ensures GoodPc(Apply(s, t, ttl), At(Apply(s, t, ttl), t.p), ttl, fill)
  {
    assert GoodPc(s, At(s, t.p), ttl, fill);
  }

  lemma EntryStaysGood<V>(s: State<V>, t: Step<V>, ttl: nat, fill: nat)
    requires BoundInv(s, ttl, fill) && Enabled(s, t) && Timely(s, t, fill)
    ensures var u := Apply(s, t, ttl); u.cache.Some? ==> GoodEntry(u, u.cache.value, ttl, fill)
  {
    var u := Apply(s, t, ttl);
    if t.SetCache? {
      assert GoodPc(s, At(s, t.p), ttl, fill);
    } else if u.cache.Some? {
      StaysGenuine(s, t, ttl, s.cache.value.answer);
    }
  }

  lemma StepKeepsBound<V>(s: State<V>, t: Step<V>, ttl: nat, fill: nat)
    requires BoundInv(s, ttl, fill) && Enabled(s, t) && Timely(s, t, fill)
    ensures BoundInv(Apply(s, t, ttl), ttl, fill)
  {
    var u := Apply(s, t, ttl);
    StepLogs(s, t, ttl);
    forall p ensures GoodPc(u, At(u, p), ttl, fill) {
      assert GoodPc(s, At(s, p), ttl, fill);
      if p in u.procs && (p !in s.procs || u.procs[p] != s.procs[p]) {
        MovedStaysGood(s, t, ttl, fill);
      } else {
        StaysGood(s, t, ttl, fill, At(s, p));
      }
    }
    EntryStaysGood(s, t, ttl, fill);
  }

  ghost predicate TimelyRun<V>(s: State<V>, run: seq<Step<V>>, ttl: int, fill: nat)
    decreases run
  {
    run == [] ||
    (Enabled(s, run[0]) && Timely(s, run[0], fill) && TimelyRun(Apply(s, run[0], ttl), run[1..], ttl, fill))
  }

  /** Under every interleaving, an answer given at time `at` was the database's answer at a time no
    * more than the entry lifetime plus the longest fill earlier. */
  lemma {:induction false} BoundedStaleness<V>(s: State<V>, run: seq<Step<V>>, ttl: nat, fill: nat, p: nat)
    requires BoundInv(s, ttl, fill) && TimelyRun(s, run, ttl, fill)
    ensures Legal(s, run, ttl)
    ensures var u := After(s, run, ttl);
            At(u, p).Answered? ==>
              Genuine(u.log, At(u, p).answer) && At(u, p).at - At(u, p).answer.readAt <= ttl + fill
    decreases run
  {
    if run == [] {
      assert GoodPc(s, At(s, p), ttl, fill);
    } else {
      StepKeepsBound(s, run[0], ttl, fill);
      BoundedStaleness(Apply(s, run[0], ttl), run[1..], ttl, fill, p);
    }
  }

  // ---------------------------------------------------------------- reads after writes

  ghost predicate WritesLogged<V>(s: State<V>) {
    && s.log != [] && (forall n :: n in s.returned ==> n < |s.log|)
    && (forall p :: At(s, p).Invalidating? ==> At(s, p).version < |s.log|)
  }

  /** A database read that starts after a write returned sees it; a cached answer misses a write
    * that had returned exactly when a late fill put it there. */
  ghost predicate LatePc<V>(s: State<V>, pc: Pc<V>) {
    && (pc.Missed? || pc.Fetched? || pc.Answered? ==> pc.known <= s.returned)
    && (pc.Fetched? ==> !OlderThan(pc.answer, pc.known))
    && (pc.Answered? ==> (pc.late <==> OlderThan(pc.answer, pc.known)))
  }

  ghost predicate LateInv<V>(s: State<V>) {
    && WritesLogged(s)
    && (s.cache.Some? ==> (s.cache.value.late <==> OlderThan(s.cache.value.answer, s.returned)))
    && forall p :: LatePc(s, At(s, p))
  }

  lemma StepKeepsLate<V>(s: State<V>, t: Step<V>, ttl: int)
    requires LateInv(s) && Enabled(s, t)
    ensures LateInv(Apply(s, t, ttl))
  {
    var u := Apply(s, t, ttl);
    forall p ensures LatePc(u, At(u, p)) {
      assert LatePc(s, At(s, p));
    }
    forall p | At(u, p).Invalidating? ensures At(u, p).version < |u.log| {
      assert At(s, p).Invalidating? ==> At(s, p).version < |s.log|;
    }
    if t.SetCache? {
      assert LatePc(s, At(s, t.p));
    }
  }

  /** A read misses a write that had returned before it started if and only if it was served by an
    * entry whose fill read the database before such a write and set the cache after the write's
    * invalidate: invalidating instead of setting does not close that window. */
  lemma {:induction false} StaleOnlyByLateFill<V>(s: State<V>, run: seq<Step<V>>, ttl: int, p: nat)
    requires LateInv(s) && Legal(s, run, ttl)
    ensures var pc := At(After(s, run, ttl), p);
            pc.Answered? ==> (OlderThan(pc.answer, pc.known) <==> pc.late)
    decreases run
  {
    if run == [] {
      assert LatePc(s, At(s, p));
    } else {
      StepKeepsLate(s, run[0], ttl);
      StaleOnlyByLateFill(Apply(s, run[0], ttl), run[1..], ttl, p);
    }
  }

  lemma Prepend<V>(s: State<V>, t: Step<V>, run: seq<Step<V>>, ttl: int)
    requires Enabled(s, t) && Legal(Apply(s, t, ttl), run, ttl)
    ensures Legal(s, [t] + run, ttl) && After(s, [t] + run, ttl) == After(Apply(s, t, ttl), run, ttl)
  {
    assert ([t] + run)[1..] == run;
  }

  /** The window is real: from any state with a fill under way, another process's or handler's write
    * may run to completion inside it, and the next read is then answered with the old value. */
  lemma LateFillServesStale<V>(s: State<V>, r: nat, w: nat, q: nat, v: V, ttl: nat) returns (run: seq<Step<V>>)
    requires LateInv(s) && At(s, r).Fetched? && At(s, w).Idle? && At(s, q).Idle? && w != q
    requires At(s, r).answer.version < |s.log|
    ensures Legal(s, run, ttl)
    ensures var pc := At(After(s, run, ttl), q);
            pc.Answered? && |s.log| in pc.known && pc.answer == At(s, r).answer && OlderThan(pc.answer, pc.known)
  {
    var s1 := Apply(s, Write(w, v), ttl);
    var s2 := Apply(s1, Invalidate(w), ttl);
    var s3 := Apply(s2, SetCache(r), ttl);
    var s4 := Apply(s3, Get(q), ttl);
    run := [];
    Prepend(s3, Get(q), run, ttl);
    run := [Get(q)] + run;
    Prepend(s2, SetCache(r), run, ttl);
    run := [SetCache(r)] + run;
    Prepend(s1, Invalidate(w), run, ttl);
    run := [Invalidate(w)] + run;
    Prepend(s, Write(w, v), run, ttl);
    run := [Write(w, v)] + run;
    assert |s.log| in s2.returned;
  }
}
