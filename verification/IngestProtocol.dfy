/** Any number of ingesters, in any number of processes, racing on one file key: the steps of
  * Ingester.Ingest (internal/ingest/ingest.go) that touch the shared record, the vault or the lock,
  * interleaved with crashes, cancelled forwards, lock takeovers and outside deletions.
  *
  * A lookup and the validation of what it found are one step, taken when the validation answers.
  * That loses no interleaving: the record found is any the database ever held (a stale read or a
  * stale cache entry), and only a database read can find nothing. */
module IngestProtocol {
  import opened Common

  datatype Outcome = Success(msg: nat, reused: bool) | Failure

  /** Where an ingester stands in Ingest. */
  datatype Pc =
    | Idle
    | Checking                            // first FindFileByKey
    | Locking(refused: nat)               // AcquireIngestLock, refused so often before
    | Waiting(refused: nat)               // asleep after a refusal, then FindFileByKey
    | Rechecking                          // FindFileByKey under the lock
    | Forwarding(attempt: nat)
    | Holding(msg: nat)                   // forwarded, deriving the record
    | Persisting(msg: nat)                // InsertFile or ReplaceFile
    | Rereading(msg: nat)                 // FindFileByKey after a persist error
    | Discarding(msg: nat, after: Outcome) // deleting its own message
    | Releasing(outcome: Outcome)         // deferred ReleaseIngestLock
    | Returned(outcome: Outcome)
    | Crashed

  /** stale: staleExisting is set, so persisting means replacing. */
  datatype Ingester = Ingester(pc: Pc, stale: bool)

  /** record: the vault message the database names; history: every message it ever named.
    * live: messages with this key in the vault; messages are numbered as they are posted.
    * leaked: messages no one will ever delete or record again, and how they got lost is counted
    * by the steps that add to it. detached: cancelled forwards still under way. */
  datatype State = State(record: Option<nat>, history: set<nat>, live: set<nat>, next: nat,
                         procs: map<nat, Ingester>, leaked: set<nat>, detached: nat, locked: bool)

  function Proc(s: State, p: nat): Ingester {
    if p in s.procs then s.procs[p] else Ingester(Idle, false)
  }

  datatype Verdict = Valid | Stale | Transient

  datatype Finding = LookupError | Missing | Found(msg: nat, verdict: Verdict)

  datatype LockAnswer = Granted | Refused | LockError

  datatype Step =
    | Begin(p: nat)
    | Look(p: nat, finding: Finding)
    | Lock(p: nat, answer: LockAnswer)
    | GiveUp(p: nat)                       // context done, or the vault peer did not resolve
    | ForwardPosts(p: nat)
    // an error or a mismatched message that is removed again; posted: the message is there all the same
    | ForwardFails(p: nat, retry: bool, posted: bool)
    | ForwardCancelled(p: nat)
    | Derive(p: nat, usable: bool)         // a message without a size cannot become canonical
    | Persist(p: nat, applied: bool, acknowledged: bool)
    | Delete(p: nat, removed: bool)
    | Release(p: nat)
    | Crash(p: nat)
    | DetachedPosts
    | DetachedEnds
    | LockAppears                          // an insert applied without acknowledgement
    | LockVanishes                         // expiry, or a takeover deleting the lock document
    | VaultDeletes(msg: nat)
    | RecordDropped                        // DeleteFileByHash by a stream that saw a missing message

  // ---------------------------------------------------------------- steps

  /** A validation never finds a message that is not there, but it may miss one that is. */
  predicate Possible(s: State, f: Finding) {
    match f
    case LookupError => true
    case Missing => s.record.None?
    case Found(m, v) => m in s.history && (v.Valid? ==> m in s.live)
  }

  predicate Enabled(s: State, t: Step) {
    match t
    case Begin(p) => Proc(s, p).pc.Idle?
    case Look(p, f) =>
      var pc := Proc(s, p).pc;
      (pc.Checking? || pc.Waiting? || pc.Rechecking? || pc.Rereading?) && Possible(s, f)
    case Lock(p, a) => Proc(s, p).pc.Locking? && (a.Granted? ==> !s.locked)
    case GiveUp(p) => Proc(s, p).pc.Waiting? || Proc(s, p).pc.Forwarding?
    case ForwardPosts(p) => Proc(s, p).pc.Forwarding?
    case ForwardFails(p, _, _) => Proc(s, p).pc.Forwarding?
    case ForwardCancelled(p) => Proc(s, p).pc.Forwarding?
    case Derive(p, _) => Proc(s, p).pc.Holding?
    case Persist(p, applied, acknowledged) =>
      && Proc(s, p).pc.Persisting?
      && (acknowledged ==> applied)
      // the unique index on file_key refuses a second insert
      && (applied && !Proc(s, p).stale ==> s.record.None?)
    case Delete(p, _) => Proc(s, p).pc.Discarding?
    case Release(p) => Proc(s, p).pc.Releasing?
    case Crash(p) => var pc := Proc(s, p).pc; !pc.Idle? && !pc.Returned? && !pc.Crashed?
    case DetachedPosts => s.detached > 0
    case DetachedEnds => s.detached > 0
    case LockAppears => true
    case LockVanishes => true
    case VaultDeletes(m) => m in s.live
    case RecordDropped => s.record.Some?
  }

  /** The three places that look for an existing record before anything was forwarded. */
  function Looked(i: Ingester, f: Finding, onward: Pc, finish: Outcome -> Pc): Ingester {
    match f
    case LookupError => i.(pc := finish(Failure))
    case Missing => i.(pc := onward)
    case Found(m, Valid) => i.(pc := finish(Success(m, true)))
    case Found(_, Stale) => Ingester(onward, true)
    case Found(_, Transient) => i.(pc := finish(Failure))
  }

  function Reread(i: Ingester, own: nat, f: Finding): Ingester {
    if f.Found? && f.verdict.Valid? then
      if f.msg == own then i.(pc := Releasing(Success(own, false)))
      else i.(pc := Discarding(own, Success(f.msg, true)))
    else i.(pc := Discarding(own, Failure))
  }

  /** The ingester that takes the step, if it is one's. */
  function Mover(t: Step): Option<nat> {
    if t.DetachedPosts? || t.DetachedEnds? || t.LockAppears? || t.LockVanishes? || t.VaultDeletes? || t.RecordDropped?
    then None else Some(t.p)
  }

  /** Where the step takes its ingester. */
  function Moved(s: State, t: Step): Ingester
    requires Enabled(s, t) && Mover(t).Some?
  {
    var i := Proc(s, t.p);
    match t
    case Begin(_) => i.(pc := Checking)
    case Look(_, f) => (
      match i.pc
      case Checking => Looked(i, f, Locking(0), o => Returned(o))
      case Waiting(n) => Looked(i, f, Locking(n + 1), o => Returned(o))
      case Rechecking => Looked(i, f, Forwarding(0), o => Releasing(o))
      case Rereading(m) => Reread(i, m, f))
    case Lock(_, Granted) => i.(pc := Rechecking)
    case Lock(_, Refused) => i.(pc := if i.pc.refused < 2 then Waiting(i.pc.refused) else Returned(Failure))
    case Lock(_, LockError) => i.(pc := Returned(Failure))
    case GiveUp(_) => i.(pc := if i.pc.Waiting? then Returned(Failure) else Releasing(Failure))
    case ForwardPosts(_) => i.(pc := Holding(s.next))
    case ForwardFails(_, retry, _) =>
      i.(pc := if retry && i.pc.attempt < 2 then Forwarding(i.pc.attempt + 1) else Releasing(Failure))
    case ForwardCancelled(_) => i.(pc := Releasing(Failure))
    case Derive(_, usable) => i.(pc := if usable then Persisting(i.pc.msg) else Discarding(i.pc.msg, Failure))
    case Persist(_, _, acknowledged) =>
      i.(pc := if acknowledged then Releasing(Success(i.pc.msg, false)) else Rereading(i.pc.msg))
    case Delete(_, _) => i.(pc := Releasing(i.pc.after))
    case Release(_) => i.(pc := Returned(i.pc.outcome))
    case Crash(_) => i.(pc := Crashed)
  }

  /** The record's message, when it is live, is lost by whatever makes the database forget it. */
  function Orphaned(s: State, but: Option<nat>): set<nat> {
    if s.record.Some? && s.record != but && s.record.value in s.live then {s.record.value} else {}
  }

  function Carried(pc: Pc): Option<nat> {
    if pc.Holding? || pc.Persisting? || pc.Rereading? || pc.Discarding? then Some(pc.msg) else None
  }

  /** What the step does to the database, the vault and the lock. */
  function Shared(s: State, t: Step): State
    requires Enabled(s, t)
  {
    match t
    case Lock(_, Granted) => s.(locked := true)
    case ForwardPosts(_) => s.(live := s.live + {s.next}, next := s.next + 1)
    case ForwardFails(_, _, posted) =>
      if posted then s.(live := s.live + {s.next}, next := s.next + 1, leaked := s.leaked + {s.next}) else s
    case ForwardCancelled(_) => s.(detached := s.detached + 1)
    case Persist(p, applied, _) =>
      var m := Proc(s, p).pc.msg;
      if !applied then s
      else s.(record := Some(m), history := s.history + {m}, leaked := s.leaked + Orphaned(s, Some(m)))
    case Delete(p, removed) =>
      var m := Proc(s, p).pc.msg;
      if removed then s.(live := s.live - {m}) else s.(leaked := s.leaked + {m})
    case Release(_) => s.(locked := false)
    case Crash(p) =>
      var pc := Proc(s, p).pc;
      var lost := if Carried(pc).Some? && Carried(pc) != s.record then {Carried(pc).value} else {};
      s.(leaked := s.leaked + lost, detached := if pc.Forwarding? then s.detached + 1 else s.detached)
    case DetachedPosts =>
      s.(live := s.live + {s.next}, next := s.next + 1, leaked := s.leaked + {s.next}, detached := s.detached - 1)
    case DetachedEnds => s.(detached := s.detached - 1)
    case LockAppears => s.(locked := true)
    case LockVanishes => s.(locked := false)
    case VaultDeletes(m) => s.(live := s.live - {m})
    case RecordDropped => s.(record := None, leaked := s.leaked + Orphaned(s, None))
    case _ => s
  }

  function Apply(s: State, t: Step): (u: State)
    requires Enabled(s, t)
  {
    var u := Shared(s, t);
    u.(procs := if Mover(t).Some? then s.procs[t.p := Moved(s, t)] else s.procs)
  }

  const INIT: State := State(None, {}, {}, 0, map[], {}, 0, false)

  ghost predicate Legal(s: State, run: seq<Step>)
    decreases run
  {
    run == [] || (Enabled(s, run[0]) && Legal(Apply(s, run[0]), run[1..]))
  }

  ghost function After(s: State, run: seq<Step>): State
    requires Legal(s, run)
    decreases run
  {
    if run == [] then s else After(Apply(s, run[0]), run[1..])
  }

  // ---------------------------------------------------------------- conservation in every run

  ghost predicate HeldBySome(s: State, m: nat) {
    exists p :: p in s.procs && Carried(s.procs[p].pc) == Some(m)
  }

  /** Every live message is the record's, or in the hands of an ingester, or a counted leak. */
  ghost predicate Conserved(s: State) {
    forall m :: m in s.live ==> s.record == Some(m) || m in s.leaked || HeldBySome(s, m)
  }

  ghost predicate Numbered(s: State) {
    && (forall m :: m in s.live || m in s.history || m in s.leaked ==> m < s.next)
    && (s.record.Some? ==> s.record.value in s.history)
  }

  ghost predicate CarriedNumbered(s: State) {
    forall p :: p in s.procs && Carried(s.procs[p].pc).Some? ==> Carried(s.procs[p].pc).value < s.next
  }

  /** A message the database once named is still named, or gone, or counted. */
  ghost predicate Remembered(s: State) {
    forall m :: m in s.history && m in s.live ==> s.record == Some(m) || m in s.leaked
  }

  ghost predicate Inv(s: State) {
    Conserved(s) && Numbered(s) && CarriedNumbered(s) && Remembered(s)
  }

  lemma NextGrows(s: State, t: Step)
    requires Enabled(s, t)
    ensures s.next <= Apply(s, t).next && (t.ForwardPosts? ==> s.next < Apply(s, t).next)
  {
    hide Moved;
  }

  /** What an ingester carries after its step is new or what it carried. */
  lemma MovedCarries(s: State, t: Step)
    requires Enabled(s, t) && Mover(t).Some?
    ensures var c, d := Carried(Proc(s, t.p).pc), Carried(Moved(s, t).pc);
            d.None? || (d == c && !t.Delete? && !t.Crash?) || (t.ForwardPosts? && d == Some(s.next))
  {}

  /** Only the ingester that takes the step moves, and what it carries next is new or what it carried. */
  lemma OneMoves(s: State, t: Step, p: nat)
    requires Enabled(s, t) && p in Apply(s, t).procs
    ensures var c, d := Carried(Proc(s, p).pc), Carried(Apply(s, t).procs[p].pc);
            if Mover(t) == Some(p)
            then d.None? || (d == c && !t.Delete? && !t.Crash?) || (t.ForwardPosts? && d == Some(s.next))
            else p in s.procs && Apply(s, t).procs[p] == s.procs[p]
  {
    hide Moved, Shared, Enabled;
    if Mover(t).Some? {
      MovedCarries(s, t);
    }
  }

  lemma StepNumbers(s: State, t: Step)
    requires Numbered(s) && CarriedNumbered(s) && Enabled(s, t)
    ensures Numbered(Apply(s, t))
  {
    hide Moved;
  }

  lemma StepNumbersCarried(s: State, t: Step)
    requires CarriedNumbered(s) && Enabled(s, t)
    ensures CarriedNumbered(Apply(s, t))
  {
    hide Apply, Enabled;
    NextGrows(s, t);
    forall p | p in Apply(s, t).procs && Carried(Apply(s, t).procs[p].pc).Some?
      ensures Carried(Apply(s, t).procs[p].pc).value < Apply(s, t).next
    {
      OneMoves(s, t, p);
    }
  }

  lemma StepRemembers(s: State, t: Step)
    requires Numbered(s) && Remembered(s) && Enabled(s, t)
    ensures Remembered(Apply(s, t))
  {}

  lemma StillHeld(s: State, t: Step, m: nat)
    requires Inv(s) && Enabled(s, t) && HeldBySome(s, m)
    ensures var u := Apply(s, t);
            m in u.live ==> u.record == Some(m) || m in u.leaked || HeldBySome(u, m)
  {
    var p :| p in s.procs && Carried(s.procs[p].pc) == Some(m);
    var u := Apply(s, t);
    if u.procs[p] == s.procs[p] {
      assert HeldBySome(u, m);
    } else if Carried(u.procs[p].pc) == Some(m) {
      assert HeldBySome(u, m);
    }
  }

  lemma StepConserves(s: State, t: Step)
    requires Inv(s) && Enabled(s, t)
    ensures Inv(Apply(s, t))
  {
    var u := Apply(s, t);
    StepNumbers(s, t);
    StepNumbersCarried(s, t);
    StepRemembers(s, t);
    forall m | m in u.live ensures u.record == Some(m) || m in u.leaked || HeldBySome(u, m) {
      if m !in s.live {
        assert t.ForwardPosts? ==> Carried(u.procs[t.p].pc) == Some(m);
      } else if HeldBySome(s, m) {
        StillHeld(s, t, m);
      }
    }
  }

  /** Conservation over every interleaving whatsoever, with unreliable locks, outside deletions,
    * stale caches and unacknowledged writes: no live message is unaccounted for. */
  lemma {:induction false} EveryRunConserves(s: State, run: seq<Step>)
    requires Inv(s) && Legal(s, run)
    ensures Inv(After(s, run))
    decreases run
  {
    if run != [] {
      StepConserves(s, run[0]);
      EveryRunConserves(Apply(s, run[0]), run[1..]);
    }
  }

  /** The step gives m up: a crash while carrying what is not recorded, a forward that posts after
    * nobody waits for it or although it reports an error, a failed delete, a replacement or a
    * deletion of a record whose message is live. */
  ghost predicate GivesUp(s: State, t: Step, m: nat) {
    || (t.Crash? && Carried(Proc(s, t.p).pc) == Some(m) && s.record != Some(m))
    || ((t.DetachedPosts? || (t.ForwardFails? && t.posted)) && m == s.next)
    || (t.Delete? && !t.removed && Proc(s, t.p).pc.Discarding? && Proc(s, t.p).pc.msg == m)
    || (Overwrites(s, t, m) && s.record == Some(m) && m in s.live)
  }

  /** The step makes the database name something other than m. */
  ghost predicate Overwrites(s: State, t: Step, m: nat) {
    || (t.Persist? && t.applied && Carried(Proc(s, t.p).pc) != Some(m))
    || t.RecordDropped?
  }

  /** There are exactly these ways to leak. */
  lemma LeakCauses(s: State, t: Step, m: nat)
    requires Enabled(s, t) && m !in s.leaked
    ensures m in Apply(s, t).leaked <==> GivesUp(s, t, m)
  {
    hide Moved;
  }

  // ---------------------------------------------------------------- a fresh key

  /** No outside vault deletion, hence no stream that finds the message gone; no validation that
    * misses a live message; and an insert that was applied but not acknowledged is read again and
    * validated. Crashes, lost forwards, failed deletes and any behaviour of the lock stay possible. */
  ghost predicate FreshStep(s: State, t: Step) {
    && !t.VaultDeletes? && !t.RecordDropped?
    && (t.Look? && t.finding.Found? && t.finding.verdict.Stale? ==> t.finding.msg !in s.live)
    && (t.Look? && Proc(s, t.p).pc.Rereading? && s.record == Some(Proc(s, t.p).pc.msg) ==>
          t.finding == Found(s.record.value, Valid))
  }

  ghost predicate FreshRun(s: State, run: seq<Step>)
    decreases run
  {
    run == [] || (Enabled(s, run[0]) && FreshStep(s, run[0]) && FreshRun(Apply(s, run[0]), run[1..]))
  }

  function Recorded(s: State): set<nat> {
    if s.record.Some? then {s.record.value} else {}
  }

  /** The record is written at most once, and names a live message from then on. */
  ghost predicate RecordLive(s: State) {
    Recorded(s) <= s.live && s.history == Recorded(s)
  }

  ghost predicate NeverStale(s: State) {
    forall p :: p in s.procs ==> !s.procs[p].stale
  }

  ghost predicate LeaksLive(s: State) {
    s.leaked <= s.live && s.leaked !! Recorded(s)
  }

  /** What an ingester carries is live, and not the record unless its insert went unacknowledged. */
  ghost predicate CarriedLive(s: State) {
    forall p :: p in s.procs && Carried(s.procs[p].pc).Some? ==>
      var m := Carried(s.procs[p].pc).value;
      m in s.live && m !in s.leaked && (m in Recorded(s) ==> s.procs[p].pc.Rereading?)
  }

  ghost predicate CarriedOwn(s: State) {
    forall p, q :: p in s.procs && q in s.procs && p != q && Carried(s.procs[p].pc).Some? ==>
      Carried(s.procs[p].pc) != Carried(s.procs[q].pc)
  }

  function OutcomeOf(pc: Pc): Outcome {
    if pc.Discarding? then pc.after else if pc.Releasing? || pc.Returned? then pc.outcome else Failure
  }

  /** Every success names the message of the record. */
  ghost predicate SuccessesAgree(s: State) {
    forall p :: p in s.procs && OutcomeOf(s.procs[p].pc).Success? ==> s.record == Some(OutcomeOf(s.procs[p].pc).msg)
  }

  ghost predicate FreshInv(s: State) {
    && Inv(s) && RecordLive(s) && NeverStale(s) && LeaksLive(s) && CarriedLive(s) && CarriedOwn(s) && SuccessesAgree(s)
  }

  lemma RecordStaysLive(s: State, t: Step)
    requires FreshInv(s) && Enabled(s, t) && FreshStep(s, t)
    ensures RecordLive(Apply(s, t))
  {}

  lemma NeverGoesStale(s: State, t: Step)
    requires RecordLive(s) && NeverStale(s) && Enabled(s, t) && FreshStep(s, t)
    ensures NeverStale(Apply(s, t))
  {}

  lemma LeaksStayLive(s: State, t: Step)
    requires FreshInv(s) && Enabled(s, t) && FreshStep(s, t)
    ensures LeaksLive(Apply(s, t))
  {}

  lemma CarriedStaysHere(s: State, t: Step, p: nat, m: nat)
    requires FreshInv(s) && Enabled(s, t) && FreshStep(s, t)
    requires p in Apply(s, t).procs && Carried(Apply(s, t).procs[p].pc) == Some(m)
    ensures m in Apply(s, t).live && m !in Apply(s, t).leaked
  {
    hide Moved;
    OneMoves(s, t, p);
    assert m !in s.leaked;
    if Mover(t).Some? && t.p != p && Carried(Proc(s, t.p).pc) == Some(m) {
      assert p in s.procs && t.p in s.procs;
    }
  }

  /** A message in hand becomes the record's only by an unacknowledged write of its own. */
  lemma RecordedIsReread(s: State, t: Step, p: nat, m: nat)
    requires FreshInv(s) && Enabled(s, t) && FreshStep(s, t)
    requires p in Apply(s, t).procs && Carried(Apply(s, t).procs[p].pc) == Some(m) && Apply(s, t).record == Some(m)
    ensures Apply(s, t).procs[p].pc.Rereading?
  {
    OneMoves(s, t, p);
  }

  lemma CarriedStaysLive(s: State, t: Step)
    requires FreshInv(s) && Enabled(s, t) && FreshStep(s, t)
    ensures CarriedLive(Apply(s, t))
  {
    hide Apply, FreshInv, FreshStep;
    var u := Apply(s, t);
    forall p | p in u.procs && Carried(u.procs[p].pc).Some?
      ensures var m := Carried(u.procs[p].pc).value;
              m in u.live && m !in u.leaked && (m in Recorded(u) ==> u.procs[p].pc.Rereading?)
    {
      var m := Carried(u.procs[p].pc).value;
      CarriedStaysHere(s, t, p, m);
      if u.record == Some(m) {
        RecordedIsReread(s, t, p, m);
      }
    }
  }

  lemma CarriedStaysOwn(s: State, t: Step)
    requires CarriedOwn(s) && CarriedNumbered(s) && Enabled(s, t)
    ensures CarriedOwn(Apply(s, t))
  {
    var u := Apply(s, t);
    forall p, q | p in u.procs && q in u.procs && p != q && Carried(u.procs[p].pc).Some?
      ensures Carried(u.procs[p].pc) != Carried(u.procs[q].pc)
    {
      OneMoves(s, t, p);
      OneMoves(s, t, q);
    }
  }

  /** A record once written stays. */
  lemma RecordStays(s: State, t: Step)
    requires FreshInv(s) && Enabled(s, t) && FreshStep(s, t) && s.record.Some?
    ensures Apply(s, t).record == s.record
  {
    hide Moved;
  }

  /** A step reports a success only of the record's message. */
  lemma MovedAgrees(s: State, t: Step)
    requires FreshInv(s) && Enabled(s, t) && FreshStep(s, t) && Mover(t).Some?
    requires OutcomeOf(Moved(s, t).pc).Success?
    ensures OutcomeOf(Proc(s, t.p).pc) == OutcomeOf(Moved(s, t).pc)
            || Apply(s, t).record == Some(OutcomeOf(Moved(s, t).pc).msg)
  {}

  lemma SuccessesStayAgreed(s: State, t: Step)
    requires FreshInv(s) && Enabled(s, t) && FreshStep(s, t)
    ensures SuccessesAgree(Apply(s, t))
  {
    var u := Apply(s, t);
    hide Moved, Shared, Enabled, FreshStep;
    forall p | p in u.procs && OutcomeOf(u.procs[p].pc).Success?
      ensures u.record == Some(OutcomeOf(u.procs[p].pc).msg)
    {
      if Mover(t) == Some(p) {
        MovedAgrees(s, t);
      }
      if s.record.Some? {
        RecordStays(s, t);
      }
    }
  }

  lemma {:induction false} FreshRunKeeps(s: State, run: seq<Step>)
    requires FreshInv(s) && FreshRun(s, run)
    ensures Legal(s, run) && FreshInv(After(s, run))
    decreases run
  {
    if run != [] {
      StepConserves(s, run[0]);
      RecordStaysLive(s, run[0]);
      NeverGoesStale(s, run[0]);
      LeaksStayLive(s, run[0]);
      CarriedStaysLive(s, run[0]);
      CarriedStaysOwn(s, run[0]);
      SuccessesStayAgreed(s, run[0]);
      FreshRunKeeps(Apply(s, run[0]), run[1..]);
    }
  }

  /** Messages between the forward and the persist or the delete. */
  ghost function Held(s: State): set<nat> {
    set p | p in s.procs && Carried(s.procs[p].pc).Some? && Carried(s.procs[p].pc).value !in Recorded(s)
      :: Carried(s.procs[p].pc).value
  }

  lemma AllAccountedFor(s: State)
    requires FreshInv(s)
    ensures s.live == Recorded(s) + Held(s) + s.leaked
    ensures Recorded(s) !! Held(s) && Recorded(s) !! s.leaked && Held(s) !! s.leaked
  {
    forall m | m in s.live ensures m in Recorded(s) + Held(s) + s.leaked {
      if m !in Recorded(s) && m !in s.leaked {
        var p :| p in s.procs && Carried(s.procs[p].pc) == Some(m);
        assert m in Held(s);
      }
    }
  }

  lemma SizesAdd(a: set<nat>, b: set<nat>, c: set<nat>)
    requires a !! b && a !! c && b !! c
    ensures |a + b + c| == |a| + |b| + |c|
  {
    assert |a + b + c| == |a + b| + |c|;
  }

  lemma InitIsFresh()
    ensures FreshInv(INIT)
  {}

  /** Fresh-key conservation, exactly: after every run from an empty database and vault the live
    * messages are the record's, those held, and the counted leaks, and these do not overlap. */
  lemma FreshKeyConservation(run: seq<Step>)
    requires FreshRun(INIT, run)
    ensures Legal(INIT, run)
    ensures var s := After(INIT, run);
            && s.live == Recorded(s) + Held(s) + s.leaked
            && Recorded(s) !! Held(s) && Recorded(s) !! s.leaked && Held(s) !! s.leaked
            && |s.live| == |Recorded(s)| + |Held(s)| + |s.leaked|
  {
    hide Held, Recorded, FreshInv, Apply;
    InitIsFresh();
    FreshRunKeeps(INIT, run);
    var s := After(INIT, run);
    AllAccountedFor(s);
    SizesAdd(Recorded(s), Held(s), s.leaked);
  }

  predicate Settled(pc: Pc) {
    pc.Idle? || pc.Returned? || pc.Crashed?
  }

  ghost predicate AllSettled(s: State) {
    forall p :: p in s.procs ==> Settled(s.procs[p].pc)
  }

  lemma SettledHoldNothing(s: State)
    requires AllSettled(s)
    ensures Held(s) == {}
  {}

  lemma SettledAgree(s: State, p: nat)
    requires FreshInv(s) && p in s.procs && OutcomeOf(s.procs[p].pc).Success?
    ensures s.record == Some(OutcomeOf(s.procs[p].pc).msg)
  {}

  /** When every ingester has returned or crashed and nothing leaked, at most one message survives,
    * and all the results that report success name it. */
  lemma QuiescentSingle(run: seq<Step>)
    requires FreshRun(INIT, run) && Legal(INIT, run)
    requires After(INIT, run).leaked == {} && AllSettled(After(INIT, run))
    ensures var s := After(INIT, run);
            && s.live == Recorded(s) && |s.live| <= 1
            && forall p :: p in s.procs && OutcomeOf(s.procs[p].pc).Success? ==>
                 s.live == {OutcomeOf(s.procs[p].pc).msg}
  {
    hide FreshInv, Apply, Held;
    InitIsFresh();
    FreshRunKeeps(INIT, run);
    var s := After(INIT, run);
    AllAccountedFor(s);
    SettledHoldNothing(s);
    forall p | p in s.procs && OutcomeOf(s.procs[p].pc).Success? ensures s.live == {OutcomeOf(s.procs[p].pc).msg} {
      SettledAgree(s, p);
    }
  }

  // ---------------------------------------------------------------- a reliable lock

  /** Between AcquireIngestLock and ReleaseIngestLock. */
  predicate InLock(pc: Pc) {
    pc.Rechecking? || pc.Forwarding? || Carried(pc).Some? || pc.Releasing?
  }

  /** The lock document is removed only by its holder, or once no one holds it. */
  ghost predicate ReliableStep(s: State, t: Step) {
    t.LockVanishes? ==> forall p :: p in s.procs ==> !InLock(s.procs[p].pc)
  }

  ghost predicate Exclusive(s: State) {
    && (forall p :: p in s.procs && InLock(s.procs[p].pc) ==> s.locked)
    && (forall p, q :: p in s.procs && q in s.procs && InLock(s.procs[p].pc) && InLock(s.procs[q].pc) ==> p == q)
  }

  lemma OneEnters(s: State, t: Step, p: nat)
    requires Enabled(s, t) && p in Apply(s, t).procs && InLock(Apply(s, t).procs[p].pc)
    ensures (p in s.procs && InLock(s.procs[p].pc)) || (t == Lock(p, Granted) && !s.locked)
    ensures t.Release? ==> p != t.p
  {}

  lemma StepExclusive(s: State, t: Step)
    requires Exclusive(s) && Enabled(s, t) && ReliableStep(s, t)
    ensures Exclusive(Apply(s, t))
  {
    var u := Apply(s, t);
    forall p | p in u.procs && InLock(u.procs[p].pc) ensures u.locked {
      OneEnters(s, t, p);
      assert t.Release? ==> InLock(s.procs[t.p].pc);
    }
    forall p, q | p in u.procs && q in u.procs && InLock(u.procs[p].pc) && InLock(u.procs[q].pc) ensures p == q {
      OneEnters(s, t, p);
      OneEnters(s, t, q);
    }
  }

  ghost predicate ReliableRun(s: State, run: seq<Step>)
    decreases run
  {
    run == [] || (Enabled(s, run[0]) && ReliableStep(s, run[0]) && ReliableRun(Apply(s, run[0]), run[1..]))
  }

  /** With a lock that is only taken when free and only freed by its holder, at most one ingester is
    * between acquire and release in every reachable state. */
  lemma {:induction false} MutualExclusion(s: State, run: seq<Step>)
    requires Exclusive(s) && ReliableRun(s, run)
    ensures Legal(s, run) && Exclusive(After(s, run))
    decreases run
  {
    if run != [] {
      StepExclusive(s, run[0]);
      MutualExclusion(Apply(s, run[0]), run[1..]);
    }
  }

  /** Under the lock the second look makes sure there is no record yet. */
  ghost predicate NothingRecorded(s: State) {
    forall p :: p in s.procs && Unwritten(s.procs[p].pc) ==> s.record.None?
  }

  /** An ingester that forwards, or holds what it has not yet written. */
  predicate Unwritten(pc: Pc) {
    pc.Forwarding? || pc.Holding? || pc.Persisting?
  }

  /** An ingester gets there only by finding the record missing, as nothing is ever stale. */
  lemma MovedUnwritten(s: State, t: Step)
    requires NeverStale(s) && RecordLive(s) && Enabled(s, t) && FreshStep(s, t)
    requires Mover(t).Some? && Unwritten(Moved(s, t).pc)
    ensures Unwritten(Proc(s, t.p).pc) || s.record.None?
  {}

  /** A record appears only by the write of an ingester in the lock. */
  lemma RecordAppears(s: State, t: Step)
    requires Enabled(s, t) && s.record.None? && Apply(s, t).record.Some?
    ensures t.Persist? && Unwritten(Proc(s, t.p).pc) && !Unwritten(Moved(s, t).pc)
  {}

  lemma StepNothingRecorded(s: State, t: Step)
    requires FreshInv(s) && Exclusive(s) && NothingRecorded(s)
    requires Enabled(s, t) && FreshStep(s, t)
    ensures NothingRecorded(Apply(s, t))
  {
    var u := Apply(s, t);
    hide Moved, Shared, Enabled, FreshStep, Inv;
    forall p | p in u.procs && Unwritten(u.procs[p].pc) ensures u.record.None? {
      if Mover(t) == Some(p) {
        MovedUnwritten(s, t);
      }
      if u.record.Some? && s.record.None? {
        RecordAppears(s, t);
      }
      if s.record.Some? {
        RecordStays(s, t);
      }
    }
  }

  lemma {:induction false} NothingRecordedRun(s: State, run: seq<Step>)
    requires FreshInv(s) && Exclusive(s) && NothingRecorded(s) && FreshRun(s, run) && ReliableRun(s, run)
    ensures Legal(s, run) && NothingRecorded(After(s, run))
    decreases run
  {
    if run != [] {
      StepNothingRecorded(s, run[0]);
      StepExclusive(s, run[0]);
      FreshRunKeeps(s, [run[0]]);
      assert After(s, [run[0]]) == After(Apply(s, run[0]), [run[0]][1..]);
      NothingRecordedRun(Apply(s, run[0]), run[1..]);
    }
  }

  /** A fresh key under a reliable lock: no ingester forwards while a record exists. */
  lemma ForwardsOnlyWhenMissing(run: seq<Step>, p: nat)
    requires FreshRun(INIT, run) && ReliableRun(INIT, run)
    ensures Legal(INIT, run)
    ensures Enabled(After(INIT, run), ForwardPosts(p)) ==> After(INIT, run).record.None?
  {
    NothingRecordedRun(INIT, run);
    var s := After(INIT, run);
    if Enabled(s, ForwardPosts(p)) {
      assert p in s.procs;
    }
  }

  // ---------------------------------------------------------------- what the assumptions are for

  lemma Prepend(s: State, t: Step, run: seq<Step>)
    requires Enabled(s, t) && Legal(Apply(s, t), run)
    ensures Legal(s, [t] + run) && After(s, [t] + run) == After(Apply(s, t), run)
  {
    assert ([t] + run)[1..] == run;
  }

  lemma {:induction false} Joined(s: State, run: seq<Step>, more: seq<Step>)
    requires Legal(s, run) && Legal(After(s, run), more)
    ensures Legal(s, run + more) && After(s, run + more) == After(After(s, run), more)
    decreases run
  {
    if run == [] {
      assert run + more == more;
    } else {
      assert (run + more)[1..] == run[1..] + more;
      Joined(Apply(s, run[0]), run[1..], more);
    }
  }

  lemma Single(s: State, t: Step)
    requires Enabled(s, t)
    ensures Legal(s, [t]) && After(s, [t]) == Apply(s, t)
  {
    assert [t][1..] == [];
  }

  // ---------------------------------------------------------------- who carries what

  /** What has been forwarded and not yet written was never the record's. */
  ghost predicate Unrecorded(s: State) {
    forall p :: p in s.procs && (s.procs[p].pc.Holding? || s.procs[p].pc.Persisting?) ==>
      s.procs[p].pc.msg !in s.history
  }

  ghost predicate Base(s: State) {
    Inv(s) && CarriedOwn(s) && Unrecorded(s)
  }

  lemma MovedUnrecorded(s: State, t: Step)
    requires Numbered(s) && Unrecorded(s) && Enabled(s, t) && Mover(t).Some?
    requires Moved(s, t).pc.Holding? || Moved(s, t).pc.Persisting?
    ensures Moved(s, t).pc.msg !in s.history && !t.Persist?
  {}

  lemma HistoryMoves(s: State, t: Step)
    requires Enabled(s, t)
    ensures Apply(s, t).history == s.history + if t.Persist? && t.applied then {Proc(s, t.p).pc.msg} else {}
  {
    hide Moved;
  }

  lemma StaysUnrecorded(s: State, t: Step)
    requires Base(s) && Enabled(s, t)
    ensures Unrecorded(Apply(s, t))
  {
    hide Moved, Shared, Enabled, Inv;
    assert Numbered(s) by { InvIsNumbered(s); }
    HistoryMoves(s, t);
    var u := Apply(s, t);
    forall p | p in u.procs && (u.procs[p].pc.Holding? || u.procs[p].pc.Persisting?)
      ensures u.procs[p].pc.msg !in u.history
    {
      if Mover(t) == Some(p) {
        MovedUnrecorded(s, t);
      } else if t.Persist? {
        PersistCarries(s, t);
      }
    }
  }

  lemma InvIsNumbered(s: State)
    requires Inv(s)
    ensures Numbered(s) && CarriedNumbered(s)
  {}

  lemma PersistCarries(s: State, t: Step)
    requires Enabled(s, t) && t.Persist?
    ensures t.p in s.procs && s.procs[t.p].pc.Persisting? && Carried(s.procs[t.p].pc) == Some(Proc(s, t.p).pc.msg)
  {}

  lemma StepBase(s: State, t: Step)
    requires Base(s) && Enabled(s, t)
    ensures Base(Apply(s, t))
  {
    hide Inv, CarriedOwn, Unrecorded, Apply, Enabled;
    InvIsNumbered(s);
    StepConserves(s, t);
    CarriedStaysOwn(s, t);
    StaysUnrecorded(s, t);
  }

  lemma InitIsBase()
    ensures Base(INIT)
  {}

  // ---------------------------------------------------------------- when a write orphans a live message

  predicate RecordIsLive(s: State) {
    s.record.Some? && s.record.value in s.live
  }

  /** On the way to replacing the record. */
  predicate Poised(i: Ingester) {
    Unwritten(i.pc) && i.stale
  }

  /** Nobody is about to replace a record whose message is live. */
  ghost predicate ReplacesOnlyTheDead(s: State) {
    RecordIsLive(s) ==> forall p :: p in s.procs ==> !Poised(s.procs[p])
  }

  /** The second look, under the lock, passes over a live record: it was answered with an older
    * message, from a stale cache, or the validation missed the message. */
  ghost predicate Overlooks(s: State, t: Step) {
    t.Look? && Proc(s, t.p).pc.Rechecking? && t.finding.Found? && t.finding.verdict.Stale? && RecordIsLive(s)
  }

  /** A write is applied while another ingester, past its second look, is on the way to its own. */
  ghost predicate Overtakes(s: State, t: Step) {
    && t.Persist? && t.applied && Proc(s, t.p).pc.Persisting? && Proc(s, t.p).pc.msg in s.live
    && exists q :: q in s.procs && q != t.p && Poised(s.procs[q])
  }

  lemma MovedPoised(s: State, t: Step)
    requires Enabled(s, t) && Mover(t).Some?
    ensures Poised(Moved(s, t)) ==> Poised(Proc(s, t.p)) || t.Look?
    ensures Poised(Moved(s, t)) && t.Look? ==> Proc(s, t.p).pc.Rechecking? && (t.finding.Missing? || t.finding.Found?)
    ensures Poised(Moved(s, t)) && t.Look? && t.finding.Found? ==> t.finding.verdict.Stale?
    ensures Poised(Moved(s, t)) && t.Look? && t.finding.Missing? ==> s.record.None?
    ensures Overlooks(s, t) ==> Poised(Moved(s, t))
    ensures t.Persist? ==> !Poised(Moved(s, t))
  {}

  /** The record's message comes to life only by a write. */
  lemma LiveMoves(s: State, t: Step)
    requires Numbered(s) && Enabled(s, t)
    ensures var u := Apply(s, t);
            && (RecordIsLive(u) ==> (RecordIsLive(s) && u.record == s.record) || (t.Persist? && t.applied))
            && (t.Persist? && t.applied ==> u.record == Some(Proc(s, t.p).pc.msg) && u.live == s.live)
            && (t.Look? ==> u.record == s.record && u.live == s.live)
  {
    hide Moved;
  }

  /** Exactly these two kinds of step put somebody on the way to replacing a live message. */
  lemma SafetyBreaksExactly(s: State, t: Step)
    requires Numbered(s) && ReplacesOnlyTheDead(s) && Enabled(s, t)
    ensures ReplacesOnlyTheDead(Apply(s, t)) <==> !Overlooks(s, t) && !Overtakes(s, t)
  {
    hide Moved, Shared, Numbered, Unwritten;
    var u := Apply(s, t);
    LiveMoves(s, t);
    if Mover(t).Some? {
      MovedPoised(s, t);
    }
    if Overlooks(s, t) {
      assert Poised(u.procs[t.p]);
    } else if Overtakes(s, t) {
      var q :| q in s.procs && q != t.p && Poised(s.procs[q]);
      assert Poised(u.procs[q]);
    } else if RecordIsLive(u) {
      forall p | p in u.procs ensures !Poised(u.procs[p]) {
        if Mover(t) != Some(p) {
          assert u.procs[p] == s.procs[p];
        }
      }
    }
  }

  /** What an ingester past its second look does when nothing goes wrong, up to its write. */
  function ToWrite(p: nat, pc: Pc): seq<Step> {
    if pc.Forwarding? then [ForwardPosts(p), Derive(p, true)] + [Persist(p, true, true)]
    else if pc.Holding? then [Derive(p, true)] + [Persist(p, true, true)]
    else [Persist(p, true, true)]
  }

  /** Left to itself, ingester p writes, and what was the record's message is orphaned: live, and
    * named by no record. */
  ghost predicate WouldOrphan(s: State, p: nat) {
    && p in s.procs && Unwritten(s.procs[p].pc) && s.record.Some?
    && Legal(s, ToWrite(p, s.procs[p].pc))
    && var u := After(s, ToWrite(p, s.procs[p].pc));
       s.record.value in u.live && u.record != s.record && s.record.value in u.leaked
  }

  lemma PersistOrphans(s: State, p: nat)
    requires p in s.procs && s.procs[p].pc.Persisting?
    requires s.record.Some? ==> s.procs[p].pc.msg != s.record.value
    ensures var run := [Persist(p, true, true)];
            && (Legal(s, run) <==> s.procs[p].stale || s.record.None?)
            && (Legal(s, run) && s.record.Some? ==>
                  && After(s, run).live == s.live && After(s, run).record != s.record
                  && (s.record.value in s.live ==> s.record.value in After(s, run).leaked))
  {
    assert [Persist(p, true, true)][1..] == [];
  }

  lemma DeriveOnly(s: State, p: nat)
    requires p in s.procs && s.procs[p].pc.Holding?
    ensures Legal(s, [Derive(p, true)])
    ensures After(s, [Derive(p, true)]) ==
            s.(procs := s.procs[p := Ingester(Persisting(s.procs[p].pc.msg), s.procs[p].stale)])
  {
    Single(s, Derive(p, true));
  }

  lemma LegalPrefix(s: State, run: seq<Step>, more: seq<Step>)
    requires Legal(s, run)
    ensures Legal(s, run + more) <==> Legal(After(s, run), more)
    decreases run
  {
    if run == [] {
      assert run + more == more;
    } else {
      assert (run + more)[1..] == run[1..] + more;
      LegalPrefix(Apply(s, run[0]), run[1..], more);
    }
  }

  /** An ingester past its second look would orphan the record's message exactly when that is live
    * and the ingester set out to replace it. */
  lemma WouldOrphanExactly(s: State, p: nat)
    requires Base(s) && p in s.procs && Unwritten(s.procs[p].pc)
    ensures WouldOrphan(s, p) <==> s.procs[p].stale && RecordIsLive(s)
  {
    hide Legal, After, Inv, CarriedOwn;
    assert Numbered(s) by { InvIsNumbered(s); }
    var i, write := s.procs[p], [Persist(p, true, true)];
    if i.pc.Forwarding? {
      ForwardsAndDerives(s, p, i.pc.attempt, i.stale);
      var u := After(s, [ForwardPosts(p), Derive(p, true)]);
      PersistOrphans(u, p);
      LegalPrefix(s, [ForwardPosts(p), Derive(p, true)], write);
      if Legal(u, write) {
        Joined(s, [ForwardPosts(p), Derive(p, true)], write);
      }
    } else if i.pc.Holding? {
      DeriveOnly(s, p);
      var u := After(s, [Derive(p, true)]);
      PersistOrphans(u, p);
      LegalPrefix(s, [Derive(p, true)], write);
      if Legal(u, write) {
        Joined(s, [Derive(p, true)], write);
      }
    } else {
      PersistOrphans(s, p);
    }
  }

  /** Somewhere along the run an ingester, left to itself, would orphan a live message. */
  ghost predicate CanOrphan(s: State, run: seq<Step>)
    requires Legal(s, run)
    decreases run
  {
    (exists p :: WouldOrphan(s, p)) || (run != [] && CanOrphan(Apply(s, run[0]), run[1..]))
  }

  /** Some second look of the run passes over a live record, or some write overtakes another. */
  ghost predicate Careless(s: State, run: seq<Step>)
    requires Legal(s, run)
    decreases run
  {
    run != [] &&
    (Overlooks(s, run[0]) || Overtakes(s, run[0]) || Careless(Apply(s, run[0]), run[1..]))
  }

  lemma SafeExactly(s: State)
    requires Base(s)
    ensures ReplacesOnlyTheDead(s) <==> !exists p :: WouldOrphan(s, p)
  {
    hide Base, Legal, After;
    if ReplacesOnlyTheDead(s) {
      forall p ensures !WouldOrphan(s, p) {
        if p in s.procs && Unwritten(s.procs[p].pc) {
          WouldOrphanExactly(s, p);
        }
      }
    } else {
      var p :| p in s.procs && Poised(s.procs[p]);
      WouldOrphanExactly(s, p);
    }
  }

  /** A live message can come to be orphaned by a write along a run if and only if somewhere in it a
    * second look was answered with a stale or missed message while the record's was live, or a write
    * was applied while another ingester was between its second look and its own write. */
  lemma {:induction false} OrphansExactly(s: State, run: seq<Step>)
    requires Base(s) && ReplacesOnlyTheDead(s) && Legal(s, run)
    ensures CanOrphan(s, run) <==> Careless(s, run)
    decreases run
  {
    hide Base, ReplacesOnlyTheDead, WouldOrphan, Overlooks, Overtakes, Apply, Enabled;
    SafeExactly(s);
    if run != [] {
      var u := Apply(s, run[0]);
      BaseIsNumbered(s);
      SafetyBreaksExactly(s, run[0]);
      StepBase(s, run[0]);
      if ReplacesOnlyTheDead(u) {
        OrphansExactly(u, run[1..]);
      } else {
        SafeExactly(u);
      }
    }
  }

  lemma BaseIsNumbered(s: State)
    requires Base(s)
    ensures Numbered(s)
  {}

  /** From the empty database and vault. */
  lemma OrphansExactlyFromInit(run: seq<Step>)
    requires Legal(INIT, run)
    ensures CanOrphan(INIT, run) <==> Careless(INIT, run)
  {
    InitIsBase();
    OrphansExactly(INIT, run);
  }

  ghost predicate Attentive(s: State, run: seq<Step>)
    requires Legal(s, run)
    decreases run
  {
    run == [] || (!Overlooks(s, run[0]) && Attentive(Apply(s, run[0]), run[1..]))
  }

  lemma HolderIsNotOvertaken(s: State, t: Step)
    requires Exclusive(s) && Enabled(s, t)
    ensures !Overtakes(s, t)
  {
    if t.Persist? {
      PersistCarries(s, t);
    }
  }

  /** With a lock that excludes, only the answers to the second look matter. */
  lemma {:induction false} ReliableIsCareful(s: State, run: seq<Step>)
    requires Exclusive(s) && ReliableRun(s, run) && Legal(s, run)
    ensures Careless(s, run) <==> !Attentive(s, run)
    decreases run
  {
    hide Exclusive, ReliableStep, Overlooks, Overtakes, Apply;
    if run != [] {
      HolderIsNotOvertaken(s, run[0]);
      StepExclusive(s, run[0]);
      ReliableIsCareful(Apply(s, run[0]), run[1..]);
    }
  }

  // ---------------------------------------------------------------- what becomes of a success

  /** Every message the database ever named is the record's as long as it is live. */
  ghost predicate HistoryIsCurrent(s: State) {
    forall m :: m in s.history && m in s.live ==> s.record == Some(m)
  }

  /** A success reports a message that the database has named. */
  ghost predicate SuccessesAreRecorded(s: State) {
    forall p :: p in s.procs && OutcomeOf(s.procs[p].pc).Success? ==> OutcomeOf(s.procs[p].pc).msg in s.history
  }

  lemma MovedSuccess(s: State, t: Step)
    requires Enabled(s, t) && Mover(t).Some? && OutcomeOf(Moved(s, t).pc).Success?
    ensures var m := OutcomeOf(Moved(s, t).pc).msg;
            || OutcomeOf(Proc(s, t.p).pc) == OutcomeOf(Moved(s, t).pc)
            || (t.Persist? && t.applied && m == Proc(s, t.p).pc.msg)
            || (t.Look? && t.finding == Found(m, Valid))
  {}

  lemma StepRecordsSuccesses(s: State, t: Step)
    requires SuccessesAreRecorded(s) && Enabled(s, t)
    ensures SuccessesAreRecorded(Apply(s, t))
  {
    hide Moved, Shared;
    HistoryMoves(s, t);
    var u := Apply(s, t);
    forall p | p in u.procs && OutcomeOf(u.procs[p].pc).Success? ensures OutcomeOf(u.procs[p].pc).msg in u.history {
      if Mover(t) == Some(p) {
        MovedSuccess(s, t);
      }
    }
  }

  /** A stream deletes the record only of a message that is gone. */
  ghost predicate DropsLive(s: State, t: Step) {
    t.RecordDropped? && RecordIsLive(s)
  }

  lemma StepKeepsCurrent(s: State, t: Step)
    requires Base(s) && ReplacesOnlyTheDead(s) && HistoryIsCurrent(s) && Enabled(s, t) && !DropsLive(s, t)
    ensures HistoryIsCurrent(Apply(s, t))
  {
    hide Moved, CarriedOwn, Unrecorded;
    if t.Persist? {
      PersistCarries(s, t);
    }
  }

  ghost predicate Dropless(s: State, run: seq<Step>)
    requires Legal(s, run)
    decreases run
  {
    run == [] || (!DropsLive(s, run[0]) && Dropless(Apply(s, run[0]), run[1..]))
  }

  lemma {:induction false} CurrentRun(s: State, run: seq<Step>)
    requires Base(s) && ReplacesOnlyTheDead(s) && HistoryIsCurrent(s) && SuccessesAreRecorded(s)
    requires Legal(s, run) && !Careless(s, run) && Dropless(s, run)
    ensures HistoryIsCurrent(After(s, run)) && SuccessesAreRecorded(After(s, run))
    decreases run
  {
    hide Base, ReplacesOnlyTheDead, HistoryIsCurrent, SuccessesAreRecorded, Overlooks, Overtakes, DropsLive;
    hide Apply, Enabled;
    if run != [] {
      BaseIsNumbered(s);
      SafetyBreaksExactly(s, run[0]);
      StepBase(s, run[0]);
      StepKeepsCurrent(s, run[0]);
      StepRecordsSuccesses(s, run[0]);
      CurrentRun(Apply(s, run[0]), run[1..]);
    }
  }

  /** Which reported successes stand: over every run from the empty database and vault in which no
    * second look passes over a live record, no write overtakes another and no live message's record
    * is dropped, all of them, reused or not, whatever the caches answered to the other looks: as long
    * as its message is live, it is the record's. With a lock that excludes, the first condition is
    * enough. */
  lemma SuccessesStand(run: seq<Step>, p: nat)
    requires Legal(INIT, run) && Dropless(INIT, run)
    requires !Careless(INIT, run) || (ReliableRun(INIT, run) && Attentive(INIT, run))
    ensures var s := After(INIT, run);
            p in s.procs && OutcomeOf(s.procs[p].pc).Success? && OutcomeOf(s.procs[p].pc).msg in s.live ==>
              s.record == Some(OutcomeOf(s.procs[p].pc).msg)
  {
    hide Base, Apply, Enabled, Legal, ReliableRun, Dropless, Careless, Attentive;
    InitIsBase();
    if ReliableRun(INIT, run) && Attentive(INIT, run) {
      ReliableIsCareful(INIT, run);
    }
    CurrentRun(INIT, run);
  }

  // ---------------------------------------------------------------- when the record names a deleted message

  /** A reread of an applied, unacknowledged write that is not answered with its own message as
    * valid: the lookup or the validation failed, or it found an older message. */
  ghost predicate Disowns(s: State, t: Step) {
    && t.Look? && Proc(s, t.p).pc.Rereading? && s.record == Some(Proc(s, t.p).pc.msg)
    && t.finding != Found(Proc(s, t.p).pc.msg, Valid)
  }

  /** The record's message and all messages in hand are live, and nobody is about to delete the
    * record's. */
  ghost predicate Owned(s: State) {
    && (s.record.Some? ==> s.record.value in s.live)
    && (forall p :: p in s.procs && Carried(s.procs[p].pc).Some? ==> Carried(s.procs[p].pc).value in s.live)
    && (forall p :: p in s.procs && s.procs[p].pc.Discarding? ==> s.record != Some(s.procs[p].pc.msg))
  }

  /** The ingester deletes the message the record names. */
  ghost predicate WouldDangle(s: State, p: nat) {
    && p in s.procs && s.procs[p].pc.Discarding?
    && var u := Apply(s, Delete(p, true)); u.record.Some? && u.record.value !in u.live
  }

  lemma OwnedDoesNotDangle(s: State, p: nat)
    requires Owned(s)
    ensures !WouldDangle(s, p)
  {}

  lemma MovedDiscards(s: State, t: Step)
    requires Numbered(s) && Unrecorded(s) && Enabled(s, t) && Mover(t).Some? && Moved(s, t).pc.Discarding?
    ensures s.record == Some(Moved(s, t).pc.msg) ==> Disowns(s, t)
    ensures !t.Persist?
    ensures Carried(Proc(s, t.p).pc) == Some(Moved(s, t).pc.msg)
  {}

  lemma StaysOwned(s: State, t: Step)
    requires Base(s) && Owned(s) && Enabled(s, t) && !t.VaultDeletes? && !Disowns(s, t)
    ensures Owned(Apply(s, t))
  {
    hide Inv;
    BaseIsNumbered(s);
    RecordOwned(s, t);
    var u := Apply(s, t);
    forall p | p in u.procs && Carried(u.procs[p].pc).Some? ensures Carried(u.procs[p].pc).value in u.live {
      CarriedIsOwned(s, t, p);
    }
    forall p | p in u.procs && u.procs[p].pc.Discarding? ensures u.record != Some(u.procs[p].pc.msg) {
      DiscardedIsNotRecorded(s, t, p);
    }
  }

  lemma RecordOwned(s: State, t: Step)
    requires Numbered(s) && Owned(s) && Enabled(s, t) && !t.VaultDeletes?
    ensures var u := Apply(s, t); u.record.Some? ==> u.record.value in u.live
  {
    hide Moved;
    if t.Persist? {
      PersistCarries(s, t);
    }
    if t.Delete? {
      assert t.p in s.procs;
    }
  }

  lemma CarriedIsOwned(s: State, t: Step, p: nat)
    requires CarriedOwn(s) && Owned(s) && Enabled(s, t) && !t.VaultDeletes?
    requires p in Apply(s, t).procs && Carried(Apply(s, t).procs[p].pc).Some?
    ensures Carried(Apply(s, t).procs[p].pc).value in Apply(s, t).live
  {
    hide Moved;
    OneMoves(s, t, p);
    if t.Delete? {
      assert t.p in s.procs && Carried(s.procs[t.p].pc).Some?;
    }
  }

  lemma DiscardedIsNotRecorded(s: State, t: Step, p: nat)
    requires Numbered(s) && Unrecorded(s) && CarriedOwn(s) && Owned(s) && Enabled(s, t) && !Disowns(s, t)
    requires p in Apply(s, t).procs && Apply(s, t).procs[p].pc.Discarding?
    ensures Apply(s, t).record != Some(Apply(s, t).procs[p].pc.msg)
  {
    hide Moved;
    if Mover(t) == Some(p) {
      MovedDiscards(s, t);
    }
    if t.Persist? {
      PersistCarries(s, t);
    }
  }

  ghost predicate CanDangle(s: State, run: seq<Step>)
    requires Legal(s, run)
    decreases run
  {
    (exists p :: WouldDangle(s, p)) || (run != [] && CanDangle(Apply(s, run[0]), run[1..]))
  }

  ghost predicate DisownsSomewhere(s: State, run: seq<Step>)
    requires Legal(s, run)
    decreases run
  {
    run != [] && (Disowns(s, run[0]) || DisownsSomewhere(Apply(s, run[0]), run[1..]))
  }

  lemma DisowningDangles(s: State, t: Step)
    requires Enabled(s, t) && Disowns(s, t)
    ensures WouldDangle(Apply(s, t), t.p)
  {}

  ghost predicate NoLoss(run: seq<Step>) {
    forall i :: 0 <= i < |run| ==> !run[i].VaultDeletes?
  }

  /** Without outside deletions, an ingester can delete the message that the record names, somewhere
    * along a run, if and only if some reread of an applied, unacknowledged write in the run is not
    * answered with its own message as valid. */
  lemma {:induction false} DanglesExactly(s: State, run: seq<Step>)
    requires Base(s) && Owned(s) && Legal(s, run) && NoLoss(run)
    ensures CanDangle(s, run) <==> DisownsSomewhere(s, run)
    decreases run
  {
    hide Base, Owned, WouldDangle, Disowns, Apply, Enabled;
    forall p ensures !WouldDangle(s, p) {
      OwnedDoesNotDangle(s, p);
    }
    if run != [] {
      var u := Apply(s, run[0]);
      if Disowns(s, run[0]) {
        DisowningDangles(s, run[0]);
        assert CanDangle(u, run[1..]);
      } else {
        StepBase(s, run[0]);
        StaysOwned(s, run[0]);
        DanglesExactly(u, run[1..]);
      }
    }
  }

  lemma DanglesExactlyFromInit(run: seq<Step>)
    requires Legal(INIT, run) && NoLoss(run)
    ensures CanDangle(INIT, run) <==> DisownsSomewhere(INIT, run)
  {
    InitIsBase();
    DanglesExactly(INIT, run);
  }

  // ---------------------------------------------------------------- failing runs

  /** From a look at the record to the message in hand: the ingester's steps when it finds f, is
    * granted the lock, finds f again and forwards. */
  function ToPersisting(p: nat, f: Finding): seq<Step> {
    [Begin(p), Look(p, f), Lock(p, Granted), Look(p, f), ForwardPosts(p), Derive(p, true)]
  }

  lemma TwoSteps(s: State, a: Step, b: Step)
    requires Enabled(s, a) && Enabled(Apply(s, a), b)
    ensures Legal(s, [a, b]) && After(s, [a, b]) == Apply(Apply(s, a), b)
  {
    hide Enabled, Apply;
    Single(Apply(s, a), b);
    Prepend(s, a, [b]);
    assert [a, b] == [a] + [b];
  }

  lemma Looks(s: State, p: nat, f: Finding)
    requires Proc(s, p) == Ingester(Idle, false) && Possible(s, f)
    requires f.Missing? || (f.Found? && f.verdict.Stale?)
    ensures var run := [Begin(p), Look(p, f)];
            Legal(s, run) && After(s, run) == s.(procs := s.procs[p := Ingester(Locking(0), f.Found?)])
  {
    hide Legal, After;
    TwoSteps(s, Begin(p), Look(p, f));
  }

  lemma LocksAndLooks(s: State, p: nat, f: Finding)
    requires Proc(s, p) == Ingester(Locking(0), f.Found?) && !s.locked && Possible(s, f)
    requires f.Missing? || (f.Found? && f.verdict.Stale?)
    ensures var run := [Lock(p, Granted), Look(p, f)];
            && Legal(s, run)
            && After(s, run) == s.(procs := s.procs[p := Ingester(Forwarding(0), f.Found?)], locked := true)
  {
    hide Legal, After;
    TwoSteps(s, Lock(p, Granted), Look(p, f));
  }

  lemma Posts(s: State, p: nat, attempt: nat, stale: bool)
    requires Proc(s, p) == Ingester(Forwarding(attempt), stale)
    ensures Enabled(s, ForwardPosts(p))
    ensures Apply(s, ForwardPosts(p)) ==
            s.(procs := s.procs[p := Ingester(Holding(s.next), stale)], live := s.live + {s.next}, next := s.next + 1)
  {}

  lemma Derives(s: State, p: nat, m: nat, stale: bool)
    requires Proc(s, p) == Ingester(Holding(m), stale)
    ensures Enabled(s, Derive(p, true))
    ensures Apply(s, Derive(p, true)) == s.(procs := s.procs[p := Ingester(Persisting(m), stale)])
  {}

  lemma ForwardsAndDerives(s: State, p: nat, attempt: nat, stale: bool)
    requires Proc(s, p) == Ingester(Forwarding(attempt), stale)
    ensures var run := [ForwardPosts(p), Derive(p, true)];
            && Legal(s, run)
            && After(s, run) == s.(procs := s.procs[p := Ingester(Persisting(s.next), stale)],
                                   live := s.live + {s.next}, next := s.next + 1)
  {
    hide Legal, After, Enabled, Apply;
    Posts(s, p, attempt, stale);
    Derives(Apply(s, ForwardPosts(p)), p, s.next, stale);
    TwoSteps(s, ForwardPosts(p), Derive(p, true));
  }

  lemma ReachesPersisting(s: State, p: nat, f: Finding)
    requires Proc(s, p) == Ingester(Idle, false) && !s.locked && Possible(s, f)
    requires f.Missing? || (f.Found? && f.verdict.Stale?)
    ensures var run := ToPersisting(p, f);
            && Legal(s, run)
            && After(s, run) == s.(procs := s.procs[p := Ingester(Persisting(s.next), f.Found?)],
                                   live := s.live + {s.next}, next := s.next + 1, locked := true)
  {
    hide Legal, After;
    Looks(s, p, f);
    var s1 := After(s, [Begin(p), Look(p, f)]);
    LocksAndLooks(s1, p, f);
    Joined(s, [Begin(p), Look(p, f)], [Lock(p, Granted), Look(p, f)]);
    var looks := [Begin(p), Look(p, f)] + [Lock(p, Granted), Look(p, f)];
    ForwardsAndDerives(After(s, looks), p, 0, f.Found?);
    Joined(s, looks, [ForwardPosts(p), Derive(p, true)]);
    assert ToPersisting(p, f) == looks + [ForwardPosts(p), Derive(p, true)];
  }

  /** A whole ingest that finds f at both looks. */
  function Ingests(p: nat, f: Finding): seq<Step> {
    ToPersisting(p, f) + [Persist(p, true, true), Release(p)]
  }

  lemma Writes(s: State, p: nat, m: nat, stale: bool)
    requires Proc(s, p) == Ingester(Persisting(m), stale) && (stale || s.record.None?)
    ensures Enabled(s, Persist(p, true, true))
    ensures Apply(s, Persist(p, true, true)) ==
            s.(procs := s.procs[p := Ingester(Releasing(Success(m, false)), stale)],
               record := Some(m), history := s.history + {m}, leaked := s.leaked + Orphaned(s, Some(m)))
  {}

  lemma Releases(s: State, p: nat, o: Outcome, stale: bool)
    requires Proc(s, p) == Ingester(Releasing(o), stale)
    ensures Enabled(s, Release(p))
    ensures Apply(s, Release(p)) == s.(procs := s.procs[p := Ingester(Returned(o), stale)], locked := false)
  {}

  lemma WritesAndReleases(s: State, p: nat, m: nat, stale: bool)
    requires Proc(s, p) == Ingester(Persisting(m), stale) && (stale || s.record.None?)
    ensures var run := [Persist(p, true, true), Release(p)];
            && Legal(s, run)
            && After(s, run) == s.(procs := s.procs[p := Ingester(Returned(Success(m, false)), stale)],
                                   record := Some(m), history := s.history + {m},
                                   leaked := s.leaked + Orphaned(s, Some(m)), locked := false)
  {
    hide Legal, After, Enabled, Apply, Orphaned;
    Writes(s, p, m, stale);
    Releases(Apply(s, Persist(p, true, true)), p, Success(m, false), stale);
    TwoSteps(s, Persist(p, true, true), Release(p));
  }

  lemma WholeIngest(s: State, p: nat, f: Finding)
    requires Proc(s, p) == Ingester(Idle, false) && !s.locked && Possible(s, f) && (f.Missing? ==> s.record.None?)
    requires f.Missing? || (f.Found? && f.verdict.Stale?)
    requires s.record.Some? ==> s.record.value < s.next
    ensures Legal(s, Ingests(p, f))
    ensures After(s, Ingests(p, f)) ==
            s.(procs := s.procs[p := Ingester(Returned(Success(s.next, false)), f.Found?)],
               record := Some(s.next), history := s.history + {s.next}, live := s.live + {s.next}, next := s.next + 1,
               leaked := s.leaked + (if RecordIsLive(s) then {s.record.value} else {}))
  {
    hide Legal, After, Apply, Enabled;
    ReachesPersisting(s, p, f);
    var u := After(s, ToPersisting(p, f));
    WritesAndReleases(u, p, s.next, f.Found?);
    Joined(s, ToPersisting(p, f), [Persist(p, true, true), Release(p)]);
    assert Orphaned(u, Some(s.next)) == if RecordIsLive(s) then {s.record.value} else {};
    assert u.procs[p := Ingester(Returned(Success(s.next, false)), f.Found?)] ==
           s.procs[p := Ingester(Returned(Success(s.next, false)), f.Found?)];
  }

  predicate NeverVanishes(run: seq<Step>) {
    forall i :: 0 <= i < |run| ==> !run[i].LockVanishes?
  }

  lemma {:induction false} ReliableIfItStays(s: State, run: seq<Step>)
    requires Legal(s, run) && NeverVanishes(run)
    ensures ReliableRun(s, run)
    decreases run
  {
    if run != [] {
      ReliableIfItStays(Apply(s, run[0]), run[1..]);
    }
  }

  /** The state after the first ingest of a key, by ingester 0. */
  const FIRST: State :=
    State(Some(0), {0}, {0}, 1, map[0 := Ingester(Returned(Success(0, false)), false)], {}, 0, false)

  const LOST := FIRST.(live := {})

  lemma FirstIngest()
    ensures Legal(INIT, Ingests(0, Missing)) && After(INIT, Ingests(0, Missing)) == FIRST
  {
    hide Legal, After, Apply, Enabled, Ingests;
    WholeIngest(INIT, 0, Missing);
    assert {} + {0} == {0};
    assert INIT.leaked + {} == {};
  }

  lemma Loses(s: State, m: nat)
    requires m in s.live
    ensures Legal(s, [VaultDeletes(m)]) && After(s, [VaultDeletes(m)]) == s.(live := s.live - {m})
  {
    Single(s, VaultDeletes(m));
  }

  lemma LockGoes(s: State)
    ensures Legal(s, [LockVanishes]) && After(s, [LockVanishes]) == s.(locked := false)
  {
    Single(s, LockVanishes);
  }

  /** A validation that misses a live message is enough, however reliable the lock: the second
    * ingester replaces the record although its message is there, and orphans it. */
  lemma MissedMessageOrphans(p: nat) returns (run: seq<Step>)
    requires p != 0
    ensures Legal(INIT, run) && ReliableRun(INIT, run)
    ensures var s := After(INIT, run);
            && Proc(s, 0).pc == Returned(Success(0, false)) && 0 in s.live && 0 in s.leaked
            && Proc(s, p).pc == Returned(Success(1, false)) && s.record == Some(1)
  {
    hide Legal, After, Apply, Enabled;
    var missed := Found(0, Verdict.Stale);
    FirstIngest();
    WholeIngest(FIRST, p, missed);
    run := Ingests(0, Missing) + Ingests(p, missed);
    Joined(INIT, Ingests(0, Missing), Ingests(p, missed));
    ReliableIfItStays(INIT, run);
  }

  lemma Reuses(s: State, p: nat, m: nat)
    requires Proc(s, p) == Ingester(Idle, false) && m in s.history && m in s.live
    ensures var run := [Begin(p), Look(p, Found(m, Valid))];
            && Legal(s, run)
            && After(s, run) == s.(procs := s.procs[p := Ingester(Returned(Success(m, true)), false)])
  {
    hide Legal, After;
    TwoSteps(s, Begin(p), Look(p, Found(m, Valid)));
  }

  /** After an outside deletion p replaces the record, and q, whose cache still holds the old one,
    * replaces it again. */
  function ReplacedTwice(p: nat, q: nat): seq<Step> {
    var gone := Found(0, Verdict.Stale);
    Ingests(0, Missing) + [VaultDeletes(0)] + Ingests(p, gone) + Ingests(q, gone)
  }

  lemma ReplacesTwice(p: nat, q: nat)
    requires p != 0 && q != 0 && p != q
    ensures Legal(INIT, ReplacedTwice(p, q))
    ensures var s := After(INIT, ReplacedTwice(p, q));
            && s.record == Some(2) && s.history == {0, 1, 2} && s.live == {1, 2} && s.leaked == {1}
            && forall r :: r != 0 && r != p && r != q ==> r !in s.procs
  {
    hide Legal, After, Apply, Enabled, Ingests;
    var gone := Found(0, Verdict.Stale);
    FirstIngest();
    Loses(FIRST, 0);
    assert FIRST.live - {0} == {};
    Joined(INIT, Ingests(0, Missing), [VaultDeletes(0)]);
    var run := Ingests(0, Missing) + [VaultDeletes(0)];
    WholeIngest(LOST, p, gone);
    Joined(INIT, run, Ingests(p, gone));
    run := run + Ingests(p, gone);
    var s := After(INIT, run);
    SecondReplaces(s, q);
    Joined(INIT, run, Ingests(q, gone));
  }

  lemma SecondReplaces(s: State, q: nat)
    requires q !in s.procs && !s.locked && s.record == Some(1) && s.history == {0} + {1} && s.live == {} + {1}
    requires s.next == 2 && s.leaked == {} + {}
    ensures var run := Ingests(q, Found(0, Verdict.Stale));
            && Legal(s, run)
            && var u := After(s, run);
               && u.record == Some(2) && u.history == {0, 1, 2} && u.live == {1, 2} && u.leaked == {1}
               && u.procs.Keys == s.procs.Keys + {q}
  {
    hide Legal, After, Apply, Enabled, Ingests;
    WholeIngest(s, q, Found(0, Verdict.Stale));
  }

  /** So is a stale cache under the lock: a third ingester r, whose cache still holds p's record,
    * reports a reused success for p's message, which is live but no longer recorded. */
  lemma StaleCacheOrphans(p: nat, q: nat, r: nat) returns (run: seq<Step>)
    requires p != 0 && q != 0 && r != 0 && p != q && p != r && q != r
    ensures Legal(INIT, run) && ReliableRun(INIT, run)
    ensures var s := After(INIT, run);
            && Proc(s, r).pc == Returned(Success(1, true)) && 1 in s.live && 1 in s.leaked
            && s.record == Some(2)
  {
    hide Legal, After, Apply, Enabled, ReplacedTwice;
    ReplacesTwice(p, q);
    var twice, reuse := ReplacedTwice(p, q), [Begin(r), Look(r, Found(1, Valid))];
    Reuses(After(INIT, twice), r, 1);
    Joined(INIT, twice, reuse);
    assert NeverVanishes(twice) by { NothingVanishes(p, q); }
    run := twice + reuse;
    ReliableIfItStays(INIT, run);
  }

  lemma NothingVanishes(p: nat, q: nat)
    ensures NeverVanishes(ReplacedTwice(p, q))
  {}

  /** Without a live record every look is attentive. */
  lemma {:induction false} DeadIsAttentive(s: State, run: seq<Step>)
    requires Legal(s, run) && Numbered(s) && CarriedNumbered(s) && !RecordIsLive(s)
    requires forall i :: 0 <= i < |run| ==> !run[i].Persist?
    ensures Attentive(s, run)
    decreases run
  {
    hide Apply, Enabled, Numbered, CarriedNumbered;
    if run != [] {
      LiveMoves(s, run[0]);
      StepNumbers(s, run[0]);
      StepNumbersCarried(s, run[0]);
      DeadIsAttentive(Apply(s, run[0]), run[1..]);
    }
  }

  lemma {:induction false} AttentiveJoined(s: State, run: seq<Step>, more: seq<Step>)
    requires Legal(s, run) && Legal(After(s, run), more) && Attentive(s, run) && Attentive(After(s, run), more)
    ensures Legal(s, run + more) && Attentive(s, run + more)
    decreases run
  {
    hide Overlooks, Apply, Enabled;
    Joined(s, run, more);
    if run == [] {
      assert run + more == more;
    } else {
      assert (run + more)[1..] == run[1..] + more;
      AttentiveJoined(Apply(s, run[0]), run[1..], more);
    }
  }

  lemma {:induction false} LooklessIsAttentive(s: State, run: seq<Step>)
    requires Legal(s, run) && forall i :: 0 <= i < |run| ==> !run[i].Look?
    ensures Attentive(s, run)
    decreases run
  {
    if run != [] {
      LooklessIsAttentive(Apply(s, run[0]), run[1..]);
    }
  }

  lemma FirstIsAttentive()
    ensures Legal(INIT, Ingests(0, Missing)) && Attentive(INIT, Ingests(0, Missing))
  {
    hide Legal, After, Apply, Enabled, Attentive;
    ReachesPersisting(INIT, 0, Missing);
    DeadIsAttentive(INIT, ToPersisting(0, Missing));
    var s := After(INIT, ToPersisting(0, Missing));
    WritesAndReleases(s, 0, 0, false);
    LooklessIsAttentive(s, [Persist(0, true, true), Release(0)]);
    AttentiveJoined(INIT, ToPersisting(0, Missing), [Persist(0, true, true), Release(0)]);
  }

  /** The message of the first ingest is lost; p and q both find it gone and forward, because the lock
    * expires after it was granted to p. */
  function TwoReplacers(p: nat, q: nat): seq<Step> {
    var gone := Found(0, Verdict.Stale);
    ToPersisting(p, gone) + [LockVanishes] + ToPersisting(q, gone)
  }

  lemma TwoReplacersReached(p: nat, q: nat)
    requires p != 0 && q != 0 && p != q
    ensures Legal(LOST, TwoReplacers(p, q)) && Attentive(LOST, TwoReplacers(p, q))
    ensures After(LOST, TwoReplacers(p, q)) ==
            State(Some(0), {0}, {1, 2}, 3,
                  FIRST.procs[p := Ingester(Persisting(1), true)][q := Ingester(Persisting(2), true)], {}, 0, true)
  {
    hide Legal, After, Apply, Enabled, Attentive;
    var gone := Found(0, Verdict.Stale);
    ReachesPersisting(LOST, p, gone);
    var s := After(LOST, ToPersisting(p, gone));
    LockGoes(s);
    Joined(LOST, ToPersisting(p, gone), [LockVanishes]);
    ReachesPersisting(s.(locked := false), q, gone);
    Joined(LOST, ToPersisting(p, gone) + [LockVanishes], ToPersisting(q, gone));
    assert LOST.live + {1} + {2} == {1, 2};
    DeadIsAttentive(LOST, TwoReplacers(p, q));
  }

  /** One ingester's applied replacement on top of another's. */
  lemma BothReplace(s: State, p: nat, q: nat)
    requires p != q && Proc(s, p).pc.Persisting? && Proc(s, q).pc.Persisting? && Proc(s, q).stale && Proc(s, p).stale
    requires Proc(s, p).pc.msg in s.live && Proc(s, p).pc.msg != Proc(s, q).pc.msg
    ensures var run := [Persist(p, true, true), Persist(q, true, true)];
            && Legal(s, run)
            && Proc(After(s, run), p).pc == Releasing(Success(Proc(s, p).pc.msg, false))
            && Proc(s, p).pc.msg in After(s, run).live && Proc(s, p).pc.msg in After(s, run).leaked
            && After(s, run).record == Some(Proc(s, q).pc.msg)
            && Proc(After(s, run), q).pc == Releasing(Success(Proc(s, q).pc.msg, false))
  {
    hide Legal, After;
    TwoSteps(s, Persist(p, true, true), Persist(q, true, true));
  }

  /** And so is an unreliable lock, however current the answers to the second looks: after an outside
    * deletion and one lock expiry two ingesters that both saw the old message gone replace the record
    * one after the other. Both report success, and the live message of the first is orphaned. */
  lemma SecondReplacerOrphansFirst(p: nat, q: nat) returns (run: seq<Step>)
    requires p != 0 && q != 0 && p != q
    ensures Legal(INIT, run) && Attentive(INIT, run)
    ensures var s := After(INIT, run);
            && Proc(s, p).pc == Releasing(Success(1, false)) && 1 in s.live && 1 in s.leaked
            && Proc(s, q).pc == Releasing(Success(2, false)) && s.record == Some(2)
  {
    hide Legal, After, Apply, Enabled, TwoReplacers, Attentive, Ingests;
    FirstIngest();
    FirstIsAttentive();
    Loses(FIRST, 0);
    assert FIRST.live - {0} == {};
    LooklessIsAttentive(FIRST, [VaultDeletes(0)]);
    run := Ingests(0, Missing) + [VaultDeletes(0)];
    Joined(INIT, Ingests(0, Missing), [VaultDeletes(0)]);
    AttentiveJoined(INIT, Ingests(0, Missing), [VaultDeletes(0)]);
    TwoReplacersReached(p, q);
    Joined(INIT, run, TwoReplacers(p, q));
    AttentiveJoined(INIT, run, TwoReplacers(p, q));
    run := run + TwoReplacers(p, q);
    var tail := [Persist(p, true, true), Persist(q, true, true)];
    BothReplace(After(INIT, run), p, q);
    LooklessIsAttentive(After(INIT, run), tail);
    Joined(INIT, run, tail);
    AttentiveJoined(INIT, run, tail);
    run := run + tail;
  }

  lemma InsertUnacknowledged(s: State, p: nat, m: nat)
    requires Proc(s, p) == Ingester(Persisting(m), false) && s.record.None?
    ensures var run := [Persist(p, true, false)];
            && Legal(s, run)
            && After(s, run) == s.(procs := s.procs[p := Ingester(Rereading(m), false)],
                                   record := Some(m), history := s.history + {m})
  {
    Single(s, Persist(p, true, false));
    assert s.leaked + {} == s.leaked;
  }

  lemma RereadFails(s: State, p: nat, m: nat, f: Finding)
    requires Proc(s, p) == Ingester(Rereading(m), false) && m in s.history && Possible(s, f) && f != Found(m, Valid)
    ensures var run := [Look(p, f), Delete(p, true)];
            && Legal(s, run)
            && After(s, run).record == s.record && After(s, run).live == s.live - {m}
  {
    hide Legal, After;
    TwoSteps(s, Look(p, f), Delete(p, true));
  }

  /** The first ingest of a key whose insert was applied without acknowledgement and whose second
    * read fails, or misses its message: the ingester deletes the very message the record names. */
  lemma FailedRereadDangles(p: nat, f: Finding) returns (run: seq<Step>)
    requires f == LookupError || (f.Found? && f.msg == 0 && !f.verdict.Valid?)
    ensures Legal(INIT, run) && After(INIT, run).record == Some(0) && 0 !in After(INIT, run).live
  {
    hide Legal, After, Apply, Enabled;
    ReachesPersisting(INIT, p, Missing);
    run := ToPersisting(p, Missing);
    var s := After(INIT, run);
    InsertUnacknowledged(s, p, 0);
    Joined(INIT, run, [Persist(p, true, false)]);
    run := run + [Persist(p, true, false)];
    RereadFails(After(INIT, run), p, 0, f);
    Joined(INIT, run, [Look(p, f), Delete(p, true)]);
    run := run + [Look(p, f), Delete(p, true)];
  }

  // ---------------------------------------------------------------- what a call answers

  predicate Answered(pc: Pc) {
    pc.Discarding? || pc.Releasing? || pc.Returned?
  }

  /** A look at the record before anything was forwarded settles the call exactly when it finds a valid
    * record, which is then the answer, or fails; otherwise the call goes on. */
  lemma LookAnswers(s: State, p: nat, f: Finding)
    requires var pc := Proc(s, p).pc; pc.Checking? || pc.Waiting? || pc.Rechecking?
    requires Possible(s, f)
    ensures Enabled(s, Look(p, f))
    ensures var pc := Proc(Apply(s, Look(p, f)), p).pc;
            && (Answered(pc) <==> f.LookupError? || (f.Found? && !f.verdict.Stale?))
            && (Answered(pc) ==>
                  OutcomeOf(pc) == if f.Found? && f.verdict.Valid? then Success(f.msg, true) else Failure)
            && Carried(pc).None?
  {}

  /** A reread after a write that reported an error answers the valid record it finds, its own or
    * another's, and gives its own message up for deletion unless that is the record's. */
  lemma RereadAnswers(s: State, p: nat, f: Finding)
    requires Proc(s, p).pc.Rereading? && Possible(s, f)
    ensures Enabled(s, Look(p, f))
    ensures var own, pc := Proc(s, p).pc.msg, Proc(Apply(s, Look(p, f)), p).pc;
            && Answered(pc)
            && OutcomeOf(pc) == (if f.Found? && f.verdict.Valid? then Success(f.msg, f.msg != own) else Failure)
            && Carried(pc) == if f == Found(own, Valid) then None else Some(own)
  {}

  lemma OutcomeKept(s: State, t: Step, p: nat)
    requires Enabled(s, t) && Answered(Proc(s, p).pc)
    ensures var pc := Proc(Apply(s, t), p).pc;
            pc.Crashed? || (Answered(pc) && OutcomeOf(pc) == OutcomeOf(Proc(s, p).pc))
  {
    hide Shared;
  }

  /** An answer once decided stands through every run, unless the ingester crashes. */
  lemma {:induction false} OutcomeStays(s: State, run: seq<Step>, p: nat)
    requires Legal(s, run) && Answered(Proc(s, p).pc)
    ensures var pc := Proc(After(s, run), p).pc;
            pc.Crashed? || (Answered(pc) && OutcomeOf(pc) == OutcomeOf(Proc(s, p).pc))
    decreases run
  {
    hide Apply, Enabled;
    if run != [] {
      OutcomeKept(s, run[0], p);
      var u := Apply(s, run[0]);
      if Proc(u, p).pc.Crashed? {
        CrashIsFinal(u, run[1..], p);
      } else {
        OutcomeStays(u, run[1..], p);
      }
    }
  }

  lemma CrashedStays(s: State, t: Step, p: nat)
    requires Enabled(s, t) && Proc(s, p).pc.Crashed?
    ensures Proc(Apply(s, t), p).pc.Crashed?
  {
    hide Shared;
  }

  lemma {:induction false} CrashIsFinal(s: State, run: seq<Step>, p: nat)
    requires Legal(s, run) && Proc(s, p).pc.Crashed?
    ensures Proc(After(s, run), p).pc.Crashed?
    decreases run
  {
    hide Apply, Enabled;
    if run != [] {
      CrashedStays(s, run[0], p);
      CrashIsFinal(Apply(s, run[0]), run[1..], p);
    }
  }

  /** A valid record found by any of the looks is what the call reports, whatever happens after it. */
  lemma FoundIsReported(s: State, p: nat, m: nat, run: seq<Step>)
    requires var pc := Proc(s, p).pc; pc.Checking? || pc.Waiting? || pc.Rechecking? || pc.Rereading?
    requires m in s.history && m in s.live
    requires Enabled(s, Look(p, Found(m, Valid))) && Legal(Apply(s, Look(p, Found(m, Valid))), run)
    ensures var pc := Proc(After(Apply(s, Look(p, Found(m, Valid))), run), p).pc;
            || pc.Crashed?
            || (Answered(pc) && OutcomeOf(pc) == Success(m, !(Proc(s, p).pc == Rereading(m))))
  {
    hide Legal, After, Apply, Enabled;
    if Proc(s, p).pc.Rereading? {
      RereadAnswers(s, p, Found(m, Valid));
    } else {
      LookAnswers(s, p, Found(m, Valid));
    }
    OutcomeStays(Apply(s, Look(p, Found(m, Valid))), run, p);
  }

  // ---------------------------------------------------------------- every call ends, and can succeed

  predicate Bounded(pc: Pc) {
    && (pc.Locking? ==> pc.refused <= 2)
    && (pc.Waiting? ==> pc.refused < 2)
    && (pc.Forwarding? ==> pc.attempt <= 2)
  }

  ghost predicate AllBounded(s: State) {
    forall p :: p in s.procs ==> Bounded(s.procs[p].pc)
  }

  /** How many steps an ingester can still take. */
  function Left(pc: Pc): int {
    match pc
    case Idle => 17
    case Checking => 16
    case Locking(n) => 15 - 2 * n
    case Waiting(n) => 14 - 2 * n
    case Rechecking => 10
    case Forwarding(n) => 9 - n
    case Holding(_) => 6
    case Persisting(_) => 5
    case Rereading(_) => 4
    case Discarding(_, _) => 3
    case Releasing(_) => 2
    case Returned(_) => 0
    case Crashed => 0
  }

  lemma MovedIsCloser(s: State, t: Step)
    requires Enabled(s, t) && Mover(t).Some? && Bounded(Proc(s, t.p).pc)
    ensures Bounded(Moved(s, t).pc) && 0 <= Left(Moved(s, t).pc) < Left(Proc(s, t.p).pc)
  {}

  function StepsOf(run: seq<Step>, p: nat): nat {
    if run == [] then 0 else (if Mover(run[0]) == Some(p) then 1 else 0) + StepsOf(run[1..], p)
  }

  lemma {:induction false} StepsAreLeft(s: State, run: seq<Step>, p: nat)
    requires AllBounded(s) && Legal(s, run)
    ensures AllBounded(After(s, run)) && Bounded(Proc(After(s, run), p).pc)
    ensures StepsOf(run, p) + Left(Proc(After(s, run), p).pc) <= Left(Proc(s, p).pc)
    decreases run
  {
    hide Moved, Shared, Enabled, Bounded, Left;
    IdleIsBounded();
    if run != [] {
      var t, u := run[0], Apply(s, run[0]);
      if Mover(t).Some? {
        assert Bounded(Proc(s, t.p).pc);
        MovedIsCloser(s, t);
      }
      StepsAreLeft(u, run[1..], p);
    }
  }

  lemma IdleIsBounded()
    ensures Bounded(Idle)
  {}

  /** In every run a call takes at most 17 steps of its own, whatever the others do: three attempts at
    * the lock, three forwards, one write; and until it has returned or crashed it can go on. */
  lemma EveryCallEnds(run: seq<Step>, p: nat)
    requires Legal(INIT, run)
    ensures StepsOf(run, p) <= 17
    ensures var s := After(INIT, run);
            !Proc(s, p).pc.Returned? && !Proc(s, p).pc.Crashed? ==>
              exists t :: Enabled(s, t) && Mover(t) == Some(p) && !t.Crash?
  {
    hide Legal, After, Apply;
    StepsAreLeft(INIT, run, p);
    LeftIsNat(Proc(After(INIT, run), p).pc);
    var s := After(INIT, run);
    if !Proc(s, p).pc.Returned? && !Proc(s, p).pc.Crashed? {
      CanGoOn(s, p);
    }
  }

  lemma LeftIsNat(pc: Pc)
    requires Bounded(pc)
    ensures 0 <= Left(pc)
  {}

  /** The step of an ingester whose current call reports an error. */
  function Onward(s: State, p: nat): Step {
    var pc := Proc(s, p).pc;
    if pc.Idle? then Begin(p)
    else if pc.Locking? then Lock(p, LockError)
    else if pc.Forwarding? then GiveUp(p)
    else if pc.Holding? then Derive(p, true)
    else if pc.Persisting? then Persist(p, false, false)
    else if pc.Discarding? then Delete(p, false)
    else if pc.Releasing? then Release(p)
    else Look(p, LookupError)
  }

  lemma CanGoOn(s: State, p: nat)
    requires !Proc(s, p).pc.Returned? && !Proc(s, p).pc.Crashed?
    ensures exists t :: Enabled(s, t) && Mover(t) == Some(p) && !t.Crash?
  {
    var t := Onward(s, p);
    assert Enabled(s, t) && Mover(t) == Some(p) && !t.Crash?;
  }

  /** n rounds of a refusal, a wait and a look that finds f. */
  function Rounds(p: nat, f: Finding, n: nat): seq<Step> {
    if n == 0 then [] else [Lock(p, Refused), Look(p, f)] + Rounds(p, f, n - 1)
  }

  lemma OneRound(s: State, p: nat, f: Finding, k: nat)
    requires Proc(s, p).pc == Locking(k) && k < 2 && Possible(s, f)
    requires f.Missing? || (f.Found? && f.verdict.Stale?)
    ensures var run := [Lock(p, Refused), Look(p, f)];
            && Legal(s, run)
            && After(s, run) == s.(procs := s.procs[p := Ingester(Locking(k + 1), Proc(s, p).stale || f.Found?)])
  {
    hide Legal, After;
    TwoSteps(s, Lock(p, Refused), Look(p, f));
  }

  lemma {:induction false} RoundsPass(s: State, p: nat, f: Finding, k: nat, n: nat)
    requires Proc(s, p) == Ingester(Locking(k), f.Found?) && k + n <= 2 && Possible(s, f)
    requires f.Missing? || (f.Found? && f.verdict.Stale?)
    ensures Legal(s, Rounds(p, f, n))
    ensures After(s, Rounds(p, f, n)) ==
            if n == 0 then s else s.(procs := s.procs[p := Ingester(Locking(k + n), f.Found?)])
    decreases n
  {
    hide Legal, After, Apply, Enabled;
    if n > 0 {
      OneRound(s, p, f, k);
      var round := [Lock(p, Refused), Look(p, f)];
      RoundsPass(After(s, round), p, f, k + 1, n - 1);
      Joined(s, round, Rounds(p, f, n - 1));
    } else {
      NoSteps(s);
    }
  }

  lemma NoSteps(s: State)
    ensures Legal(s, []) && After(s, []) == s
  {}

  lemma LockMoves(s: State, p: nat, n: nat)
    requires Proc(s, p).pc == Locking(n)
    ensures !s.locked ==> Enabled(s, Lock(p, Granted)) && Proc(Apply(s, Lock(p, Granted)), p).pc == Rechecking
    ensures Enabled(s, Lock(p, Refused))
    ensures Proc(Apply(s, Lock(p, Refused)), p).pc == if n < 2 then Waiting(n) else Returned(Failure)
  {}

  /** The lock may be refused twice, and the ingester still enters; the third refusal ends the call. */
  lemma ThirdAttemptCounts(s: State, p: nat, f: Finding, n: nat)
    requires Proc(s, p) == Ingester(Locking(0), f.Found?) && n <= 2 && Possible(s, f)
    requires f.Missing? || (f.Found? && f.verdict.Stale?)
    ensures Legal(s, Rounds(p, f, n))
    ensures var u := After(s, Rounds(p, f, n));
            && (!s.locked ==>
                  Enabled(u, Lock(p, Granted)) && Proc(Apply(u, Lock(p, Granted)), p).pc == Rechecking)
            && Enabled(u, Lock(p, Refused))
            && (Proc(Apply(u, Lock(p, Refused)), p).pc.Returned? <==> n == 2)
            && OutcomeOf(Proc(Apply(u, Lock(p, Refused)), p).pc) == Failure
  {
    hide Legal, After, Enabled, Apply;
    RoundsPass(s, p, f, 0, n);
    LockMoves(After(s, Rounds(p, f, n)), p, n);
  }

  function Failing(p: nat, n: nat): seq<Step> {
    if n == 0 then [] else [ForwardFails(p, true, false)] + Failing(p, n - 1)
  }

  lemma OneFailure(s: State, p: nat, k: nat)
    requires Proc(s, p).pc == Forwarding(k) && k < 2
    ensures var run := [ForwardFails(p, true, false)];
            && Legal(s, run)
            && After(s, run) == s.(procs := s.procs[p := Ingester(Forwarding(k + 1), Proc(s, p).stale)])
  {
    hide Legal, After;
    Single(s, ForwardFails(p, true, false));
  }

  lemma ForwardMoves(s: State, p: nat, k: nat)
    requires Proc(s, p).pc == Forwarding(k)
    ensures Enabled(s, ForwardPosts(p)) && Proc(Apply(s, ForwardPosts(p)), p).pc == Holding(s.next)
    ensures Enabled(s, ForwardFails(p, true, false))
    ensures Proc(Apply(s, ForwardFails(p, true, false)), p).pc ==
            if k < 2 then Forwarding(k + 1) else Releasing(Failure)
  {}

  /** The forward may fail twice, and the third attempt still counts; then the call fails. */
  lemma {:induction false} ThirdForwardCounts(s: State, p: nat, k: nat, n: nat)
    requires Proc(s, p).pc == Forwarding(k) && k + n <= 2
    ensures Legal(s, Failing(p, n))
    ensures var u := After(s, Failing(p, n));
            && u == (if n == 0 then s else s.(procs := s.procs[p := Ingester(Forwarding(k + n), Proc(s, p).stale)]))
            && Enabled(u, ForwardPosts(p)) && Proc(Apply(u, ForwardPosts(p)), p).pc == Holding(s.next)
            && Enabled(u, ForwardFails(p, true, false))
            && (Proc(Apply(u, ForwardFails(p, true, false)), p).pc == Releasing(Failure) <==> k + n == 2)
    decreases n
  {
    hide Legal, After, Enabled, Apply;
    if n > 0 {
      OneFailure(s, p, k);
      var one := [ForwardFails(p, true, false)];
      ThirdForwardCounts(After(s, one), p, k + 1, n - 1);
      Joined(s, one, Failing(p, n - 1));
    } else {
      NoSteps(s);
      ForwardMoves(s, p, k);
    }
  }

  /** From every state that is reached with the lock free, an ingester that nothing disturbs succeeds,
    * by steps of its own alone: it reuses the record's message if that is live, and otherwise posts one
    * message, which becomes the record's. */
  lemma UndisturbedSucceeds(s: State, p: nat) returns (run: seq<Step>)
    requires Numbered(s) && Proc(s, p) == Ingester(Idle, false) && !s.locked
    ensures Legal(s, run) && forall i :: 0 <= i < |run| ==> Mover(run[i]) == Some(p)
    ensures var u := After(s, run);
            && RecordIsLive(u) && !u.locked
            && Proc(u, p).pc == Returned(Success(u.record.value, RecordIsLive(s)))
            && (if RecordIsLive(s) then u.live == s.live && u.record == s.record
                else u.live == s.live + {s.next} && u.record == Some(s.next))
            && u.leaked == s.leaked
  {
    hide Legal, After, Apply, Enabled;
    if RecordIsLive(s) {
      run := [Begin(p), Look(p, Found(s.record.value, Valid))];
      Reuses(s, p, s.record.value);
    } else {
      var f := if s.record.None? then Missing else Found(s.record.value, Verdict.Stale);
      run := Ingests(p, f);
      WholeIngest(s, p, f);
    }
  }

  // ---------------------------------------------------------------- every grant is given back

  function GrantsTo(t: Step, p: nat): int { if t == Lock(p, Granted) then 1 else 0 }

  function Returns(t: Step, p: nat): int { if t == Release(p) then 1 else 0 }

  function Entered(pc: Pc): int { if InLock(pc) then 1 else 0 }

  /** An ingester enters the lock by a grant, and leaves it by releasing it or by crashing. */
  lemma LockBalance(s: State, t: Step, p: nat)
    requires Enabled(s, t) && t != Crash(p)
    ensures Entered(Proc(Apply(s, t), p).pc) == Entered(Proc(s, p).pc) + GrantsTo(t, p) - Returns(t, p)
  {
    hide Shared;
  }

  function Sum(run: seq<Step>, count: Step -> int): int {
    if run == [] then 0 else count(run[0]) + Sum(run[1..], count)
  }

  lemma {:induction false} GrantsBalance(s: State, run: seq<Step>, p: nat)
    requires Legal(s, run) && Crash(p) !in run
    ensures Entered(Proc(After(s, run), p).pc) ==
            Entered(Proc(s, p).pc) + Sum(run, t => GrantsTo(t, p)) - Sum(run, t => Returns(t, p))
    decreases run
  {
    hide Apply, Enabled, Entered;
    if run != [] {
      LockBalance(s, run[0], p);
      GrantsBalance(Apply(s, run[0]), run[1..], p);
    }
  }

  /** Whatever becomes of a call, whose forward may fail and whose record may not be written: an ingester
    * that has not crashed and has returned has released the lock exactly as often as it was granted. */
  lemma GrantsAreReleased(run: seq<Step>, p: nat)
    requires Legal(INIT, run) && Crash(p) !in run
    ensures Proc(After(INIT, run), p).pc.Returned? ==>
              Sum(run, t => Returns(t, p)) == Sum(run, t => GrantsTo(t, p))
  {
    hide Legal, After;
    GrantsBalance(INIT, run, p);
  }
}
