/** The cross-process ingest lock of one file key, call by call (internal/store/store.go): taking over
  * an expired lock is a find, a delete and an insert, and neither delete checks the owner. Any call
  * may report an error, with or without having been applied. */
module IngestLock {
  import opened Common

  /** owner is not stored by the program; the proofs use it to tell documents apart. */
  datatype Doc = Doc(owner: nat, expires: int)

  datatype Pc =
    | Outside
    | Inserting(now: int)              // now: the clock AcquireIngestLock read on entry
    | Finding(now: int)
    | Deleting(now: int, found: Doc)
    | Reinserting(now: int)
    | Inside(expires: int)

  datatype State = State(doc: Option<Doc>, clock: int, procs: map<nat, Pc>)

  datatype Step =
    | Start(p: nat) | Insert(p: nat) | Find(p: nat) | Delete(p: nat) | Reinsert(p: nat) | Release(p: nat)
    | Fail(p: nat, applied: bool)      // the call p is in reports an error; or p dies there
    | Tick
    | Reap                             // the TTL index

  const TTL := 60_000_000_000          // nanoseconds

  function At(s: State, p: nat): Pc {
    if p in s.procs then s.procs[p] else Outside
  }

  predicate Enabled(s: State, t: Step) {
    match t
    case Start(p) => At(s, p).Outside?
    case Insert(p) => At(s, p).Inserting?
    case Find(p) => At(s, p).Finding?
    case Delete(p) => At(s, p).Deleting?
    case Reinsert(p) => At(s, p).Reinserting?
    case Release(p) => At(s, p).Inside?
    case Fail(p, _) => !At(s, p).Outside?
    case Tick => true
    case Reap => s.doc.Some? && s.doc.value.expires <= s.clock
  }

  function Goto(s: State, p: nat, pc: Pc): State {
    s.(procs := s.procs[p := pc])
  }

  function TryInsert(s: State, p: nat, now: int, refused: Pc): State {
    if s.doc.None? then Goto(s, p, Inside(now + TTL)).(doc := Some(Doc(p, now + TTL))) else Goto(s, p, refused)
  }

  /** What the call under way does to the document although it reports an error. */
  function Applied(s: State, p: nat): Option<Doc> {
    match At(s, p)
    case Outside => s.doc
    case Finding(_) => s.doc
    case Inserting(now) => if s.doc.None? then Some(Doc(p, now + TTL)) else s.doc
    case Reinserting(now) => if s.doc.None? then Some(Doc(p, now + TTL)) else s.doc
    case Deleting(_, _) => None
    case Inside(_) => None
  }

  function Apply(s: State, t: Step): State
    requires Enabled(s, t)
  {
    match t
    case Start(p) => Goto(s, p, Inserting(s.clock))
    case Insert(p) => TryInsert(s, p, At(s, p).now, Finding(At(s, p).now))
    case Find(p) =>
      var now := At(s, p).now;
      Goto(s, p, if s.doc.Some? && s.doc.value.expires < now then Deleting(now, s.doc.value) else Outside)
    case Delete(p) => Goto(s, p, Reinserting(At(s, p).now)).(doc := None)
    case Reinsert(p) => TryInsert(s, p, At(s, p).now, Outside)
    case Release(p) => Goto(s, p, Outside).(doc := None)
    case Fail(p, applied) => Goto(s, p, Outside).(doc := if applied then Applied(s, p) else s.doc)
    case Tick => s.(clock := s.clock + 1)
    case Reap => s.(doc := None)
  }

  ghost predicate Exclusive(s: State) {
    forall p, q :: At(s, p).Inside? && At(s, q).Inside? ==> p == q
  }

  /** Every holder's own document is the one in the database. */
  ghost predicate Guarded(s: State) {
    forall p :: At(s, p).Inside? ==> s.doc == Some(Doc(p, At(s, p).expires))
  }

  lemma GuardedIsExclusive(s: State)
    requires Guarded(s)
    ensures Exclusive(s)
  {
    forall p, q | At(s, p).Inside? && At(s, q).Inside? ensures p == q {
      assert s.doc.value.owner == p && s.doc.value.owner == q;
    }
  }

  /** The step deletes whatever document there is. */
  predicate Clears(s: State, t: Step) {
    t.Delete? || t.Reap? || t.Release? || (t.Fail? && t.applied && (At(s, t.p).Deleting? || At(s, t.p).Inside?))
  }

  predicate Leaves(t: Step, p: nat) {
    t == Release(p) || (t.Fail? && t.p == p)
  }

  /** The step deletes the document of an ingester that goes on holding the lock. */
  ghost predicate Robs(s: State, t: Step) {
    Clears(s, t) && exists p :: At(s, p).Inside? && !Leaves(t, p)
  }

  /** A step breaks the guard exactly when it robs a holder. */
  lemma GuardBreaksExactly(s: State, t: Step)
    requires Guarded(s) && Enabled(s, t)
    ensures Guarded(Apply(s, t)) <==> !Robs(s, t)
  {
    var u := Apply(s, t);
    if Robs(s, t) {
      var p :| At(s, p).Inside? && !Leaves(t, p);
      assert At(u, p) == At(s, p) && u.doc.None?;
    } else {
      forall p | At(u, p).Inside? ensures u.doc == Some(Doc(p, At(u, p).expires)) {
        if At(s, p) == At(u, p) {
          assert At(s, p).Inside? && !Leaves(t, p);
        }
      }
    }
  }

  /** What the comments of AcquireIngestLock rely on: every holder leaves before its document
    * expires, and a takeover deletes the very document it found expired. */
  ghost predicate Orderly(s: State, t: Step) {
    && (forall p :: At(s, p).Inside? ==> s.clock < At(s, p).expires)
    && ((t.Delete? || (t.Fail? && t.applied)) && At(s, t.p).Deleting? ==>
          s.doc.None? || s.doc == Some(At(s, t.p).found))
  }

  /** Clock readings lie in the past, and what a takeover found was expired then. */
  ghost predicate Timed(pc: Pc, clock: int) {
    && (pc.Inserting? || pc.Finding? || pc.Deleting? || pc.Reinserting? ==> pc.now <= clock)
    && (pc.Deleting? ==> pc.found.expires < pc.now)
  }

  ghost predicate AllTimed(s: State) {
    forall p :: Timed(At(s, p), s.clock)
  }

  lemma StepKeeps(s: State, t: Step)
    requires Guarded(s) && AllTimed(s) && Enabled(s, t) && Orderly(s, t)
    ensures Guarded(Apply(s, t)) && AllTimed(Apply(s, t))
  {
    forall p ensures Timed(At(Apply(s, t), p), Apply(s, t).clock) {
      assert Timed(At(s, p), s.clock);
    }
    if t.Delete? || t.Fail? {
      assert Timed(At(s, t.p), s.clock);
    }
    assert !Robs(s, t);
    GuardBreaksExactly(s, t);
  }

  ghost predicate OrderlyRun(s: State, run: seq<Step>)
    decreases run
  {
    run == [] || (Enabled(s, run[0]) && Orderly(s, run[0]) && OrderlyRun(Apply(s, run[0]), run[1..]))
  }

  ghost predicate Legal(s: State, run: seq<Step>)
    decreases run
  {
    run == [] || (Enabled(s, run[0]) && Legal(Apply(s, run[0]), run[1..]))
  }

  ghost function After(s: State, run: seq<Step>): State
    requires Legal(s, run)
    decreases run
  {
    if run == [] then s else After(Apply(s, run[0]), run[1..])
  }

  /** In every orderly run at most one ingester holds the lock. */
  lemma {:induction false} LockExcludes(s: State, run: seq<Step>)
    requires Guarded(s) && AllTimed(s) && OrderlyRun(s, run)
    ensures Legal(s, run) && Exclusive(After(s, run))
    decreases run
  {
    if run == [] {
      GuardedIsExclusive(s);
    } else {
      StepKeeps(s, run[0]);
      LockExcludes(Apply(s, run[0]), run[1..]);
    }
  }

  lemma Prepend(s: State, t: Step, run: seq<Step>)
    requires Enabled(s, t) && Legal(Apply(s, t), run)
    ensures Legal(s, [t] + run) && After(s, [t] + run) == After(Apply(s, t), run)
  {
    assert ([t] + run)[1..] == run;
  }

  /** The find-then-delete race, from two processes that found an expired document. */
  lemma BothTakeOver(s: State, p: nat, q: nat)
    requires p != q && At(s, p).Deleting? && At(s, q).Deleting?
    ensures var run := [Delete(p), Reinsert(p), Delete(q), Reinsert(q)];
            && Legal(s, run) && After(s, run).clock == s.clock
            && At(After(s, run), p).Inside? && At(After(s, run), q).Inside?
  {
    var s1 := Apply(s, Delete(p));
    var s2 := Apply(s1, Reinsert(p));
    var s3 := Apply(s2, Delete(q));
    Prepend(s3, Reinsert(q), []);
    Prepend(s2, Delete(q), [Reinsert(q)]);
    Prepend(s1, Reinsert(p), [Delete(q), Reinsert(q)]);
    Prepend(s, Delete(p), [Reinsert(p), Delete(q), Reinsert(q)]);
    assert [Reinsert(q)] + [] == [Reinsert(q)];
    assert [Delete(q)] + [Reinsert(q)] == [Delete(q), Reinsert(q)];
    assert [Reinsert(p)] + [Delete(q), Reinsert(q)] == [Reinsert(p), Delete(q), Reinsert(q)];
    assert [Delete(p)] + [Reinsert(p), Delete(q), Reinsert(q)] == [Delete(p), Reinsert(p), Delete(q), Reinsert(q)];
  }

  /** One process from entering AcquireIngestLock to finding the expired document. */
  lemma FindsExpired(s: State, p: nat)
    requires At(s, p).Outside? && s.doc.Some? && s.doc.value.expires < s.clock
    ensures var run := [Start(p), Insert(p), Find(p)];
            Legal(s, run) && After(s, run) == s.(procs := s.procs[p := Deleting(s.clock, s.doc.value)])
  {
    var s1 := Apply(s, Start(p));
    var s2 := Apply(s1, Insert(p));
    var s3 := Apply(s2, Find(p));
    Prepend(s2, Find(p), []);
    Prepend(s1, Insert(p), [Find(p)]);
    Prepend(s, Start(p), [Insert(p), Find(p)]);
    assert [Find(p)] + [] == [Find(p)];
    assert [Insert(p)] + [Find(p)] == [Insert(p), Find(p)];
    assert [Start(p)] + [Insert(p), Find(p)] == [Start(p), Insert(p), Find(p)];
    assert s3.procs == s.procs[p := Deleting(s.clock, s.doc.value)];
  }

  lemma {:induction false} Joined(s: State, run: seq<Step>, more: seq<Step>)
    requires Legal(s, run) && Legal(After(s, run), more)
    ensures Legal(s, run + more) && After(s, run + more) == After(After(s, run), more)
    decreases run
  {
    if run == [] {
      assert run + more == more;
    } else {
      assert (run + more)[1..] == run[1..] + more;
      Joined(Apply(s, run[0]), run[1..], more);
    }
  }

  /** Without the second condition the code does not exclude. Whenever the document of a process that
    * is gone has expired and nobody holds the lock, there is a run in which two processes both find
    * that document, the slower one deletes the faster one's fresh lock, and both hold the lock,
    * although no time has passed. */
  lemma TakeoverRace(expired: Doc, clock: int, p: nat, q: nat) returns (found: seq<Step>, run: seq<Step>)
    requires expired.expires < clock && p != q
    ensures var s := State(Some(expired), clock, map[]);
            && Guarded(s) && Legal(s, found) && found <= run && Legal(s, run)
            && At(After(s, found), p) == At(After(s, found), q) == Deleting(clock, expired)
            && After(s, run).clock == clock
            && At(After(s, run), p).Inside? && At(After(s, run), q).Inside? && !Exclusive(After(s, run))
  {
    hide Legal, After, Apply, Enabled;
    var s := State(Some(expired), clock, map[]);
    var first, second := [Start(p), Insert(p), Find(p)], [Start(q), Insert(q), Find(q)];
    FindsExpired(s, p);
    FindsExpired(After(s, first), q);
    Joined(s, first, second);
    found := first + second;
    var tail := [Delete(p), Reinsert(p), Delete(q), Reinsert(q)];
    BothTakeOver(After(s, found), p, q);
    Joined(s, found, tail);
    run := found + tail;
  }

  // ---------------------------------------------------------------- who gets the lock

  /** An insert takes the lock whenever it is free. */
  lemma InsertTakesFree(s: State, p: nat)
    requires (At(s, p).Inserting? || At(s, p).Reinserting?) && s.doc.None?
    ensures var t, expires := if At(s, p).Inserting? then Insert(p) else Reinsert(p), At(s, p).now + TTL;
            && Enabled(s, t) && At(Apply(s, t), p) == Inside(expires)
            && Apply(s, t) == s.(doc := Some(Doc(p, expires)), procs := s.procs[p := Inside(expires)])
  {}

  predicate Free(s: State) { s.doc.None? || s.doc.value.expires < s.clock }

  /** One call of AcquireIngestLock that nothing disturbs. At each point it is the only step of p but
    * for a failing call. */
  function Attempt(s: State, p: nat): seq<Step> {
    if s.doc.None? then [Start(p), Insert(p)]
    else if Free(s) then [Start(p), Insert(p), Find(p)] + [Delete(p), Reinsert(p)]
    else [Start(p), Insert(p), Find(p)]
  }

  lemma TwoSteps(s: State, a: Step, b: Step)
    requires Enabled(s, a) && Enabled(Apply(s, a), b)
    ensures Legal(s, [a, b]) && After(s, [a, b]) == Apply(Apply(s, a), b)
  {
    hide Enabled, Apply;
    var u := Apply(s, a);
    Prepend(u, b, []);
    assert [b] + [] == [b];
    Prepend(s, a, [b]);
    assert [a] + [b] == [a, b];
  }

  lemma FindsUnexpired(s: State, p: nat)
    requires At(s, p).Outside? && s.doc.Some? && s.clock <= s.doc.value.expires
    ensures var run := [Start(p), Insert(p), Find(p)];
            Legal(s, run) && After(s, run) == s.(procs := s.procs[p := Outside])
  {
    hide Legal, After;
    var s1 := Apply(s, Start(p));
    TwoSteps(s1, Insert(p), Find(p));
    Prepend(s, Start(p), [Insert(p), Find(p)]);
    assert [Start(p)] + [Insert(p), Find(p)] == [Start(p), Insert(p), Find(p)];
  }

  /** A call that nothing disturbs enters exactly when there is no document or an expired one, and then
    * with its own document for a full lifetime; otherwise it leaves the document as it is. */
  lemma AcquiresExactly(s: State, p: nat)
    requires At(s, p).Outside?
    ensures Legal(s, Attempt(s, p))
    ensures After(s, Attempt(s, p)) ==
            if Free(s) then s.(doc := Some(Doc(p, s.clock + TTL)), procs := s.procs[p := Inside(s.clock + TTL)])
            else s.(procs := s.procs[p := Outside])
  {
    hide Legal, After;
    if s.doc.None? {
      InsertTakesFree(Apply(s, Start(p)), p);
      TwoSteps(s, Start(p), Insert(p));
      assert s.procs[p := Inserting(s.clock)][p := Inside(s.clock + TTL)] == s.procs[p := Inside(s.clock + TTL)];
    } else if Free(s) {
      FindsExpired(s, p);
      TakesOver(s.(procs := s.procs[p := Deleting(s.clock, s.doc.value)]), p);
      Joined(s, [Start(p), Insert(p), Find(p)], [Delete(p), Reinsert(p)]);
    } else {
      FindsUnexpired(s, p);
    }
  }

  lemma TakesOver(s: State, p: nat)
    requires At(s, p).Deleting?
    ensures var run, expires := [Delete(p), Reinsert(p)], At(s, p).now + TTL;
            && Legal(s, run)
            && After(s, run) == s.(doc := Some(Doc(p, expires)), procs := s.procs[p := Inside(expires)])
  {
    hide Legal, After;
    InsertTakesFree(Apply(s, Delete(p)), p);
    TwoSteps(s, Delete(p), Reinsert(p));
    assert s.procs[p := Reinserting(At(s, p).now)][p := Inside(At(s, p).now + TTL)] ==
           s.procs[p := Inside(At(s, p).now + TTL)];
  }

  /** Whoever holds the lock passes it on by leaving: the next call that nothing disturbs enters. */
  lemma LockIsPassedOn(s: State, p: nat, q: nat)
    requires At(s, p).Inside? && At(s, q).Outside?
    ensures var u := Apply(s, Release(p));
            && At(u, p).Outside? && Legal(u, Attempt(u, q))
            && At(After(u, Attempt(u, q)), q) == Inside(s.clock + TTL)
  {
    hide Legal, After;
    AcquiresExactly(Apply(s, Release(p)), q);
  }
}
