/** Draining the bot on shutdown: dispatch, the handlers it launches, their prune goroutines and Stop
  * as a step system (internal/bot/bot.go, internal/bot/handlers_owner.go). Each step is one
  * operation on the wait group, the semaphore channel or the stop channel. */
module DispatchModel {

  const SLOTS := 128

  datatype Phase =
    | Checking                  // dispatch after handlerWg.Add, before the first select
    | Acquiring                 // dispatch before the second select
    | Running(pruned: bool)     // a handler, holding a slot; pruned once it has launched its prune goroutine
    | Finishing                 // a handler that has given its slot back, before handlerWg.Done
    | Pruning

  datatype Kind = Dispatcher | Handler | Finisher | Pruner

  function KindOf(p: Phase): Kind {
    match p
    case Checking => Dispatcher
    case Acquiring => Dispatcher
    case Running(_) => Handler
    case Finishing => Finisher
    case Pruning => Pruner
  }

  /** next is above every goroutine id in use. returned says that some call of Stop has returned. */
  datatype State = State(phases: map<nat, Phase>, next: nat, wg: int, sem: int, closed: bool, returned: bool)

  datatype Step =
    | Enter               // a message arrives: handlerWg.Add(1)
    | Drop(t: nat)        // the first select finds stopCh closed
    | Pass(t: nat)        // the first select takes its default
    | Launch(t: nat)      // the second select sends on sem, even when stopCh is closed as well
    | GiveUp(t: nat)      // the second select receives from stopCh
    | Prune(t: nat)       // a handler adds to the wait group and launches its prune goroutine
    | Release(t: nat)     // a handler ends and receives from sem
    | Finish(t: nat)      // its handlerWg.Done
    | PruneDone(t: nat)
    | Close               // Stop closes stopCh, once
    | Return              // Stop's Wait returns

  predicate IsIn(s: State, t: nat, p: Phase) { t in s.phases && s.phases[t] == p }

  predicate Enabled(s: State, step: Step) {
    match step
    case Enter => true
    case Drop(t) => IsIn(s, t, Checking) && s.closed
    case Pass(t) => IsIn(s, t, Checking) && !s.closed
    case Launch(t) => IsIn(s, t, Acquiring) && s.sem < SLOTS
    case GiveUp(t) => IsIn(s, t, Acquiring) && s.closed
    case Prune(t) => IsIn(s, t, Running(false))
    case Release(t) => t in s.phases && s.phases[t].Running?
    case Finish(t) => IsIn(s, t, Finishing)
    case PruneDone(t) => IsIn(s, t, Pruning)
    case Close => true
    case Return => s.closed && s.wg == 0
  }

  function Start(s: State, p: Phase): State {
    s.(phases := s.phases[s.next := p], next := s.next + 1, wg := s.wg + 1)
  }

  function Move(s: State, t: nat, p: Phase): State {
    s.(phases := s.phases[t := p])
  }

  /** handlerWg.Done, the last thing a goroutine does. */
  function Done(s: State, t: nat): State {
    s.(phases := s.phases - {t}, wg := s.wg - 1)
  }

  function Next(s: State, step: Step): State {
    match step
    case Enter => Start(s, Checking)
    case Drop(t) => Done(s, t)
    case Pass(t) => Move(s, t, Acquiring)
    case Launch(t) => Move(s, t, Running(false)).(sem := s.sem + 1)
    case GiveUp(t) => Done(s, t)
    case Prune(t) => Start(Move(s, t, Running(true)), Pruning)
    case Release(t) => Move(s, t, Finishing).(sem := s.sem - 1)
    case Finish(t) => Done(s, t)
    case PruneDone(t) => Done(s, t)
    case Close => s.(closed := true)
    case Return => s.(returned := true)
  }

  const INITIAL := State(map[], 0, 0, 0, false, false)

  ghost predicate IsRun(ss: seq<State>, steps: seq<Step>) {
    && |ss| == |steps| + 1 && ss[0] == INITIAL
    && forall i :: 0 <= i < |steps| ==> Enabled(ss[i], steps[i]) && ss[i + 1] == Next(ss[i], steps[i])
  }

  // ---------------------------------------------------------------- counting goroutines

  ghost function Those(phases: map<nat, Phase>, k: Kind): set<nat> {
    set t | t in phases && KindOf(phases[t]) == k
  }

  ghost function Count(phases: map<nat, Phase>, k: Kind): nat { |Those(phases, k)| }

  function One(b: bool): nat { if b then 1 else 0 }

  lemma CountWithout(phases: map<nat, Phase>, t: nat, k: Kind)
    requires t in phases
    ensures Count(phases - {t}, k) == Count(phases, k) - One(KindOf(phases[t]) == k)
  {
    assert Those(phases - {t}, k) == Those(phases, k) - {t};
  }

  lemma CountWith(phases: map<nat, Phase>, t: nat, p: Phase, k: Kind)
    requires t !in phases
    ensures Count(phases[t := p], k) == Count(phases, k) + One(KindOf(p) == k)
  {
    assert Those(phases[t := p], k) == Those(phases, k) + if KindOf(p) == k then {t} else {};
  }

  lemma CountMoved(phases: map<nat, Phase>, t: nat, p: Phase, k: Kind)
    requires t in phases
    ensures Count(phases[t := p], k) == Count(phases, k) - One(KindOf(phases[t]) == k) + One(KindOf(p) == k)
  {
    CountWithout(phases, t, k);
    CountWith(phases - {t}, t, p, k);
    assert (phases - {t})[t := p] == phases[t := p];
  }

  // ---------------------------------------------------------------- the invariant

  /** The wait group counts exactly the goroutines of each kind that are alive. */
  ghost predicate WaitsForAll(s: State) {
    s.wg == Count(s.phases, Dispatcher) + Count(s.phases, Handler) + Count(s.phases, Finisher) + Count(s.phases, Pruner)
  }

  ghost predicate Inv(s: State) {
    && (forall t :: t in s.phases ==> t < s.next)
    && WaitsForAll(s)
    && s.sem == Count(s.phases, Handler) && s.sem <= SLOTS
    && (s.returned ==> s.closed && Drained(s))
  }

  /** Nothing is left but calls of dispatch that have yet to find the stop channel closed. */
  ghost predicate Drained(s: State) {
    forall t :: t in s.phases ==> s.phases[t] == Checking
  }

  lemma AliveCounts(phases: map<nat, Phase>, t: nat)
    requires t in phases
    ensures Count(phases, KindOf(phases[t])) > 0
  {
    assert t in Those(phases, KindOf(phases[t]));
  }

  lemma EmptyWaitGroup(s: State)
    requires WaitsForAll(s)
    ensures s.wg == 0 ==> s.phases == map[]
  {
    forall t | t in s.phases ensures s.wg > 0 {
      AliveCounts(s.phases, t);
    }
  }

  lemma SomeoneIsAlive(s: State)
    requires WaitsForAll(s)
    ensures s.wg != 0 ==> s.phases != map[]
  {
    if s.phases == map[] {
      assert forall k: Kind :: Those(s.phases, k) == {};
    }
  }

  lemma StartKeeps(s: State, p: Phase)
    requires Inv(s) && (p == Checking || (p == Pruning && !s.returned))
    ensures Inv(Start(s, p))
  {
    forall k: Kind ensures Count(Start(s, p).phases, k) == Count(s.phases, k) + One(KindOf(p) == k) {
      CountWith(s.phases, s.next, p, k);
    }
  }

  lemma DoneKeeps(s: State, t: nat)
    requires Inv(s) && t in s.phases && KindOf(s.phases[t]) != Handler
    ensures Inv(Done(s, t))
  {
    forall k: Kind ensures Count(Done(s, t).phases, k) == Count(s.phases, k) - One(KindOf(s.phases[t]) == k) {
      CountWithout(s.phases, t, k);
    }
  }

  /** Moving between phases changes the slots in use by what it says. */
  lemma MoveKeeps(s: State, t: nat, p: Phase, sem: int)
    requires Inv(s) && t in s.phases && !s.returned
    requires sem == s.sem - One(KindOf(s.phases[t]) == Handler) + One(KindOf(p) == Handler) && sem <= SLOTS
    ensures Inv(Move(s, t, p).(sem := sem))
  {
    forall k: Kind
      ensures Count(s.phases[t := p], k) == Count(s.phases, k) - One(KindOf(s.phases[t]) == k) + One(KindOf(p) == k)
    {
      CountMoved(s.phases, t, p, k);
    }
  }

  lemma StepKeeps(s: State, step: Step)
    requires Inv(s) && Enabled(s, step)
    ensures Inv(Next(s, step))
  {
    match step
    case Enter => StartKeeps(s, Checking);
    case Drop(t) => DoneKeeps(s, t);
    case Pass(t) => MoveKeeps(s, t, Acquiring, s.sem);
    case Launch(t) => MoveKeeps(s, t, Running(false), s.sem + 1);
    case GiveUp(t) => DoneKeeps(s, t);
    case Prune(t) =>
      MoveKeeps(s, t, Running(true), s.sem);
      StartKeeps(Move(s, t, Running(true)), Pruning);
    case Release(t) => MoveKeeps(s, t, Finishing, s.sem - 1);
    case Finish(t) => DoneKeeps(s, t);
    case PruneDone(t) => DoneKeeps(s, t);
    case Close =>
    case Return => EmptyWaitGroup(s);
  }

  lemma {:induction false} EveryRunKeeps(ss: seq<State>, steps: seq<Step>, i: nat)
    requires IsRun(ss, steps) && i < |ss|
    ensures Inv(ss[i])
  {
    if i > 0 {
      EveryRunKeeps(ss, steps, i - 1);
      StepKeeps(ss[i - 1], steps[i - 1]);
    } else {
      assert forall k: Kind :: Those(map[], k) == {};
    }
  }

  /** In every reachable state: at most 128 handlers run, each holds a slot, and the wait count is
    * the number of dispatchers in progress, handlers and prune goroutines. */
  lemma CountsAreExact(ss: seq<State>, steps: seq<Step>, i: nat)
    requires IsRun(ss, steps) && i < |ss|
    ensures Count(ss[i].phases, Handler) == ss[i].sem <= SLOTS
    ensures WaitsForAll(ss[i])
  {
    EveryRunKeeps(ss, steps, i);
  }

  lemma {:induction false} ReturnedStays(ss: seq<State>, steps: seq<Step>, i: nat, j: nat)
    requires IsRun(ss, steps) && i <= j < |ss| && ss[i].returned
    ensures ss[j].returned
    decreases j
  {
    if i < j {
      ReturnedStays(ss, steps, i, j - 1);
    }
  }

  /** Once a call of Stop has returned, no handler or prune goroutine runs, and none ever starts,
    * although the second select may take a slot after the stop channel is closed. */
  lemma DrainSafety(ss: seq<State>, steps: seq<Step>, i: nat, j: nat)
    requires IsRun(ss, steps) && i <= j < |ss| && ss[i].returned
    ensures Drained(ss[j])
    ensures Count(ss[j].phases, Handler) == Count(ss[j].phases, Pruner) == 0
    ensures j < |steps| ==> !steps[j].Launch? && !steps[j].Prune? && !steps[j].Pass?
  {
    ReturnedStays(ss, steps, i, j);
    EveryRunKeeps(ss, steps, j);
    assert Those(ss[j].phases, Handler) == {} && Those(ss[j].phases, Pruner) == {};
  }

  /** A handler can start after the stop channel is closed; that is why Stop has to wait for those
    * that have passed the first select. */
  lemma LateLaunch() returns (ss: seq<State>, steps: seq<Step>)
    ensures IsRun(ss, steps) && steps != [] && steps[|steps| - 1].Launch? && ss[|steps| - 1].closed
  {
    steps := [Enter, Pass(0), Close, Launch(0)];
    var s1 := Next(INITIAL, Enter);
    var s2 := Next(s1, Pass(0));
    var s3 := Next(s2, Close);
    ss := [INITIAL, s1, s2, s3, Next(s3, Launch(0))];
    assert forall i :: 0 <= i < 4 ==> Enabled(ss[i], steps[i]) && ss[i + 1] == Next(ss[i], steps[i]);
  }

  /** The step moves goroutine t. */
  predicate MovesIt(step: Step, t: nat) {
    match step
    case Enter => false
    case Close => false
    case Return => false
    case Drop(u) => u == t
    case Pass(u) => u == t
    case Launch(u) => u == t
    case GiveUp(u) => u == t
    case Prune(u) => u == t
    case Release(u) => u == t
    case Finish(u) => u == t
    case PruneDone(u) => u == t
  }

  lemma OthersMove(s: State, step: Step, t: nat)
    requires Inv(s) && Enabled(s, step) && t in s.phases && !MovesIt(step, t)
    ensures t in Next(s, step).phases && Next(s, step).phases[t] == s.phases[t]
  {}

  lemma SomeHandler(s: State)
    requires Inv(s) && s.sem > 0
    ensures exists u :: u in s.phases && s.phases[u].Running?
  {
    var u :| u in Those(s.phases, Handler);
    assert s.phases[u].Running?;
  }

  lemma RunningMeansNotReturned(s: State, t: nat)
    requires Inv(s) && t in s.phases && s.phases[t].Running?
    ensures !s.returned
  {}

  // ---------------------------------------------------------------- progress

  /** The steps a goroutine can still take, its prune goroutine's included. */
  function Weight(p: Phase): nat {
    match p
    case Checking => 6
    case Acquiring => 5
    case Running(pruned) => if pruned then 2 else 4
    case Finishing => 1
    case Pruning => 1
  }

  ghost function Work(phases: map<nat, Phase>): nat
    decreases |phases|
  {
    if phases == map[] then 0
    else
      var t :| t in phases;
      Weight(phases[t]) + Work(phases - {t})
  }

  lemma {:induction false} WorkWithout(phases: map<nat, Phase>, t: nat)
    requires t in phases
    ensures Work(phases) == Weight(phases[t]) + Work(phases - {t})
    decreases |phases|
  {
    var u :| u in phases && Work(phases) == Weight(phases[u]) + Work(phases - {u});
    if u != t {
      WorkWithout(phases - {u}, t);
      WorkWithout(phases - {t}, u);
      assert phases - {u} - {t} == phases - {t} - {u};
    }
  }

  lemma WorkMoved(phases: map<nat, Phase>, t: nat, p: Phase)
    requires t in phases
    ensures Work(phases[t := p]) == Work(phases) - Weight(phases[t]) + Weight(p)
  {
    WorkWithout(phases, t);
    WorkWithout(phases[t := p], t);
    assert phases[t := p] - {t} == phases - {t};
  }

  lemma WorkWith(phases: map<nat, Phase>, t: nat, p: Phase)
    requires t !in phases
    ensures Work(phases[t := p]) == Work(phases) + Weight(p)
  {
    WorkWithout(phases[t := p], t);
    assert phases[t := p] - {t} == phases;
  }

  predicate Moves(step: Step) { !step.Enter? && !step.Close? && !step.Return? }

  lemma NextIsFresh(s: State)
    requires Inv(s)
    ensures s.next !in s.phases
  {}

  /** Every step of a goroutine leaves less work. */
  lemma WorkDecreases(s: State, step: Step)
    requires Inv(s) && Enabled(s, step) && Moves(step)
    ensures Work(Next(s, step).phases) < Work(s.phases)
  {
    hide Inv, Work;
    NextIsFresh(s);
    match step
    case Drop(t) => WorkWithout(s.phases, t);
    case Pass(t) => WorkMoved(s.phases, t, Acquiring);
    case Launch(t) => WorkMoved(s.phases, t, Running(false));
    case GiveUp(t) => WorkWithout(s.phases, t);
    case Prune(t) =>
      WorkMoved(s.phases, t, Running(true));
      WorkWith(s.phases[t := Running(true)], s.next, Pruning);
    case Release(t) => WorkMoved(s.phases, t, Finishing);
    case Finish(t) => WorkWithout(s.phases, t);
    case PruneDone(t) => WorkWithout(s.phases, t);
  }

  lemma RunStep(ss: seq<State>, steps: seq<Step>, i: nat)
    requires IsRun(ss, steps) && i < |steps|
    ensures |ss| == |steps| + 1 && Enabled(ss[i], steps[i]) && ss[i + 1] == Next(ss[i], steps[i])
  {}

  lemma StepShrinks(ss: seq<State>, steps: seq<Step>, i: nat)
    requires IsRun(ss, steps) && i < |steps| && Moves(steps[i])
    ensures |ss| == |steps| + 1 && Work(ss[i + 1].phases) < Work(ss[i].phases)
  {
    hide Inv, Work, Next, Enabled, IsRun;
    RunStep(ss, steps, i);
    EveryRunKeeps(ss, steps, i);
    WorkDecreases(ss[i], steps[i]);
  }

  /** Without new messages there are only so many steps to come, in any order. */
  lemma {:induction false} DrainIsBounded(ss: seq<State>, steps: seq<Step>, i: nat, j: nat)
    requires IsRun(ss, steps) && i <= j < |ss|
    requires forall n :: i <= n < j ==> Moves(steps[n])
    ensures j - i <= Work(ss[i].phases) - Work(ss[j].phases)
    decreases j
  {
    if i < j {
      hide Work, IsRun;
      DrainIsBounded(ss, steps, i, j - 1);
      StepShrinks(ss, steps, j - 1);
    }
  }

  /** After the close Stop is never stuck: either Wait can return or some goroutine can step, a full
    * semaphore notwithstanding; so handlers that end let Stop return. */
  lemma StopIsNotStalled(s: State) returns (step: Step)
    requires Inv(s) && s.closed
    ensures Enabled(s, step) && (step == Return || Moves(step))
  {
    if s.wg == 0 {
      step := Return;
    } else {
      SomeoneIsAlive(s);
      var t :| t in s.phases;
      step := match s.phases[t]
        case Checking => Drop(t)
        case Acquiring => GiveUp(t)
        case Running(_) => Release(t)
        case Finishing => Finish(t)
        case Pruning => PruneDone(t);
    }
  }
}

/** dispatch and Stop themselves. Between any two of their operations on the wait group, the semaphore
  * and the stop channel, other goroutines take any number of steps. */
module Dispatch {
  import opened DispatchModel

  lemma EnterStarts(s: State)
    ensures Next(s, Enter) == s.(phases := s.phases[s.next := Checking], next := s.next + 1, wg := s.wg + 1)
  {}

  class Bot {
    var handlerWg: int
    var sem: int
    var stopClosed: bool
    var stopReturned: bool
    var goroutines: map<nat, Phase>
    var next: nat

    function View(): State
      reads this
    {
      State(goroutines, next, handlerWg, sem, stopClosed, stopReturned)
    }

    constructor ()
      ensures View() == INITIAL && Inv(View())
    {
      handlerWg, sem, stopClosed, stopReturned, goroutines, next := 0, 0, false, false, map[], 0;
      assert forall k: Kind :: Those(map[], k) == {};
    }

    /** A step of somebody else. */
    method Take(step: Step)
      requires Inv(View()) && Enabled(View(), step)
      modifies this
      ensures View() == Next(old(View()), step) && Inv(View())
    {
      StepKeeps(View(), step);
      var s := Next(View(), step);
      handlerWg, sem, stopClosed, stopReturned, goroutines, next := s.wg, s.sem, s.closed, s.returned, s.phases, s.next;
    }

    /** Others at work while goroutine t stands still. */
    method Interference(t: nat)
      requires Inv(View()) && t in goroutines
      modifies this
      ensures Inv(View()) && t in goroutines && goroutines[t] == old(goroutines[t])
      ensures (old(stopClosed) ==> stopClosed) && (old(stopReturned) ==> stopReturned)
    {
      hide Inv;
      var steps: seq<Step> := *;
      for i := 0 to |steps|
        invariant Inv(View()) && t in goroutines && goroutines[t] == old(goroutines[t])
        invariant (old(stopClosed) ==> stopClosed) && (old(stopReturned) ==> stopReturned)
      {
        if Enabled(View(), steps[i]) && !MovesIt(steps[i], t) {
          OthersMove(View(), steps[i], t);
          Take(steps[i]);
        }
      }
    }

    /** Blocks until the second select has a ready case: the channel is closed or a handler ends. */
    method AwaitReady(t: nat)
      requires Inv(View()) && t in goroutines && goroutines[t] == Acquiring
      modifies this
      ensures Inv(View()) && t in goroutines && goroutines[t] == Acquiring && (sem < SLOTS || stopClosed)
      ensures old(stopClosed) ==> stopClosed
    {
      Interference(t);
      if sem >= SLOTS && !stopClosed {
        SomeHandler(View());
        var u :| u in goroutines && goroutines[u].Running?;
        Take(Release(u));
      }
    }

    /** dispatch's first select. */
    method FirstSelect(t: nat) returns (passed: bool)
      requires Inv(View()) && t in goroutines && goroutines[t] == Checking
      modifies this
      ensures Inv(View()) && passed == !old(stopClosed) && stopClosed == old(stopClosed)
      ensures passed ==> t in goroutines && goroutines[t] == Acquiring
    {
      hide Inv;
      passed := !stopClosed;
      if !passed {
        StepKeeps(View(), Drop(t));
        handlerWg := handlerWg - 1;
        goroutines := goroutines - {t};
        return;
      }
      StepKeeps(View(), Pass(t));
      goroutines := goroutines[t := Acquiring];
    }

    /** Its second select, which blocks until a case is ready and may pick either when both are. */
    method SecondSelect(t: nat) returns (launched: bool)
      requires Inv(View()) && t in goroutines && goroutines[t] == Acquiring
      modifies this
      ensures Inv(View())
      ensures launched ==> t in goroutines && goroutines[t] == Running(false)
      ensures !launched ==> stopClosed
    {
      hide Inv;
      AwaitReady(t);
      launched := *;
      launched := sem < SLOTS && (launched || !stopClosed);
      if launched {
        StepKeeps(View(), Launch(t));
        sem := sem + 1;
        goroutines := goroutines[t := Running(false)];
        return;
      }
      StepKeeps(View(), GiveUp(t));
      handlerWg := handlerWg - 1;
      goroutines := goroutines - {t};
    }

    /** A message is dropped for certain when the stop channel was closed before it arrived, and only
      * when it has been closed. */
    method Dispatch() returns (launched: bool)
      requires Inv(View())
      modifies this
      ensures Inv(View())
      ensures old(stopClosed) ==> !launched
      ensures !launched ==> stopClosed
      ensures launched ==> !stopReturned
    {
      hide Inv, Next;
      var t := next;
      StepKeeps(View(), Enter);
      EnterStarts(View());
      handlerWg := handlerWg + 1;
      goroutines, next := goroutines[t := Checking], next + 1;
      Interference(t);
      launched := FirstSelect(t);
      if launched {
        launched := SecondSelect(t);
        if launched {
          RunningMeansNotReturned(View(), t);
        }
      }
    }

    /** With finitely many messages arriving meanwhile and handlers that end, Stop returns, and then
      * nothing it waits for is left, whatever step every other goroutine takes next: those that have
      * passed the first select may still launch their handlers. */
    method Stop(arrivals: nat)
      requires Inv(View())
      modifies this
      ensures Inv(View()) && stopClosed && stopReturned && Drained(View())
    {
      stopClosed := true;
      var left := arrivals;
      while handlerWg != 0
        invariant Inv(View()) && stopClosed
        decreases left, Work(goroutines)
      {
        var arrives: bool := *;
        if arrives && left > 0 {
          left := left - 1;
          Take(Enter);
        } else {
          SomeoneIsAlive(View());
          var t: nat :| t in goroutines;
          var prunes: bool, launches: bool := *, *;
          var step := match goroutines[t]
            case Checking => Drop(t)
            case Acquiring => if launches && sem < SLOTS then Launch(t) else GiveUp(t)
            case Running(pruned) => if prunes && !pruned then Prune(t) else Release(t)
            case Finishing => Finish(t)
            case Pruning => PruneDone(t);
          WorkDecreases(View(), step);
          Take(step);
        }
      }
      StepKeeps(View(), Return);
      stopReturned := true;
    }
  }
}
