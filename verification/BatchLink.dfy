/** The worker pool of the batch link command (internal/bot/handlers_link.go) as a step system: a
  * producer feeds indices to five workers through a channel, and each worker writes to its own
  * index of the results. */
module BatchPool {
  import opened Common

  const WORKERS := 5

  /** What becomes of a message when nobody interferes. */
  datatype Outcome = Skipped | Failed | Succeeded(text: Text) | Panics

  datatype Worker =
    | Idle
    | Busy(i: nat, begun: bool)   // begun after the look at the batch's context
    | Exited

  /** next is the producer's loop variable; begun lists the indices in the order their processing
    * began; a result is None as long as its slot is untouched. */
  datatype State = State(
    next: nat, closed: bool, cancelled: bool, indices: seq<nat>, workers: seq<Worker>,
    results: seq<Option<Outcome>>, begun: seq<nat>)

  datatype Step =
    | Cancel
    | Send                 // the producer's select, which may send even when the batch is cancelled
    | CloseIndices         // the producer returns: all sent, or cancelled
    | Take(w: nat)
    | Quit(w: nat)         // a worker that finds the batch cancelled drops the index it has taken
    | Begin(w: nat)
    | Complete(w: nat)     // the outcome of the message; a panic ends the worker
    | CompleteLate(w: nat) // a cancelled ingest fails, whatever it would have done
    | Leave(w: nat)        // the channel is closed and empty

  predicate Processing(s: State, w: nat) {
    w < |s.workers| && s.workers[w].Busy? && s.workers[w].begun && s.workers[w].i < |s.results|
  }

  predicate Enabled(n: nat, s: State, step: Step) {
    match step
    case Cancel => !s.cancelled
    case Send => !s.closed && s.next < n && |s.indices| < WORKERS
    case CloseIndices => !s.closed && (s.next == n || s.cancelled)
    case Take(w) => w < |s.workers| && s.workers[w].Idle? && s.indices != []
    case Quit(w) => w < |s.workers| && s.workers[w].Busy? && !s.workers[w].begun && s.cancelled
    case Begin(w) => w < |s.workers| && s.workers[w].Busy? && !s.workers[w].begun && !s.cancelled
    case Complete(w) => Processing(s, w)
    case CompleteLate(w) => Processing(s, w) && s.cancelled
    case Leave(w) => w < |s.workers| && s.workers[w].Idle? && s.closed && s.indices == []
  }

  function Next(outcomes: seq<Outcome>, s: State, step: Step): State
    requires Enabled(|outcomes|, s, step) && |s.results| == |outcomes|
  {
    match step
    case Cancel => s.(cancelled := true)
    case Send => s.(indices := s.indices + [s.next], next := s.next + 1)
    case CloseIndices => s.(closed := true)
    case Take(w) => s.(indices := s.indices[1..], workers := s.workers[w := Busy(s.indices[0], false)])
    case Quit(w) => s.(workers := s.workers[w := Exited])
    case Begin(w) => s.(workers := s.workers[w := Busy(s.workers[w].i, true)], begun := s.begun + [s.workers[w].i])
    case Complete(w) =>
      var i := s.workers[w].i;
      if outcomes[i].Panics? then s.(workers := s.workers[w := Exited])
      else s.(workers := s.workers[w := Idle], results := s.results[i := Some(outcomes[i])])
    case CompleteLate(w) =>
      s.(workers := s.workers[w := Idle], results := s.results[s.workers[w].i := Some(Failed)])
    case Leave(w) => s.(workers := s.workers[w := Exited])
  }

  function Initial(n: nat): State {
    State(0, false, false, [], seq(WORKERS, _ => Idle), seq(n, _ => None), [])
  }

  ghost predicate Runs(outcomes: seq<Outcome>, s: State, steps: seq<Step>, t: State)
    decreases steps
  {
    if steps == [] then s == t
    else
      && |s.results| == |outcomes| && Enabled(|outcomes|, s, steps[0])
      && Runs(outcomes, Next(outcomes, s, steps[0]), steps[1..], t)
  }

  /** wg.Wait returns. */
  predicate Finished(s: State) { forall w :: 0 <= w < |s.workers| ==> s.workers[w].Exited? }

  // ---------------------------------------------------------------- the invariant

  /** The channel holds the indices up to the producer's, without a gap. */
  predicate Queued(s: State) {
    forall q :: 0 <= q < |s.indices| ==> s.indices[q] == s.next - |s.indices| + q
  }

  /** A held index has left the channel and has no result yet; it has begun exactly when its worker
    * says so. */
  predicate HeldRightly(s: State) {
    forall w :: 0 <= w < |s.workers| && s.workers[w].Busy? ==>
      var i := s.workers[w].i;
      i < s.next - |s.indices| && i < |s.results| && s.results[i].None? && (s.workers[w].begun <==> i in s.begun)
  }

  predicate HeldOnce(s: State) {
    forall v, w :: 0 <= v < w < |s.workers| && s.workers[v].Busy? && s.workers[w].Busy? ==>
      s.workers[v].i != s.workers[w].i
  }

  /** No index begins twice, none in the channel has begun, and every result has. */
  predicate BegunOnce(s: State) {
    && (forall a, b :: 0 <= a < b < |s.begun| ==> s.begun[a] != s.begun[b])
    && (forall i :: i in s.begun ==> i < s.next - |s.indices|)
    && (forall i :: 0 <= i < |s.results| && s.results[i].Some? ==> i in s.begun)
  }

  predicate ResultsAreOutcomes(outcomes: seq<Outcome>, s: State) {
    forall i :: 0 <= i < |s.results| && s.results[i].Some? ==>
      i < |outcomes| && !s.results[i].value.Panics? &&
      (s.results[i].value == outcomes[i] || (s.cancelled && s.results[i].value == Failed))
  }

  predicate Sized(n: nat, s: State) {
    |s.results| == n && |s.workers| == WORKERS && |s.indices| <= s.next <= n && |s.indices| <= WORKERS
  }

  predicate Inv(outcomes: seq<Outcome>, s: State) {
    && Sized(|outcomes|, s) && Queued(s) && HeldRightly(s) && HeldOnce(s) && BegunOnce(s)
    && ResultsAreOutcomes(outcomes, s)
  }

  lemma TakeKeeps(outcomes: seq<Outcome>, s: State, w: nat)
    requires Inv(outcomes, s) && Enabled(|outcomes|, s, Take(w))
    ensures Inv(outcomes, Next(outcomes, s, Take(w)))
  {
    var t := Next(outcomes, s, Take(w));
    assert Queued(t);
    assert s.indices[0] == s.next - |s.indices|;
    assert s.indices[0] !in s.begun;
    assert HeldRightly(t);
    assert HeldOnce(t);
  }

  lemma BeginKeeps(outcomes: seq<Outcome>, s: State, w: nat)
    requires Inv(outcomes, s) && Enabled(|outcomes|, s, Begin(w))
    ensures Inv(outcomes, Next(outcomes, s, Begin(w)))
  {
    var t := Next(outcomes, s, Begin(w));
    assert Queued(t) && HeldOnce(t);
    assert s.workers[w].i !in s.begun;
    assert forall i :: i in t.begun <==> i in s.begun || i == s.workers[w].i;
    assert HeldRightly(t);
    assert BegunOnce(t);
  }

  /** A worker writes the result of the index it is processing and is idle again. */
  function Written(s: State, w: nat, o: Outcome): State
    requires Processing(s, w)
  {
    s.(workers := s.workers[w := Idle], results := s.results[s.workers[w].i := Some(o)])
  }

  lemma ResultKeeps(outcomes: seq<Outcome>, s: State, w: nat, o: Outcome)
    requires Inv(outcomes, s) && Processing(s, w) && !o.Panics?
    requires o == outcomes[s.workers[w].i] || (s.cancelled && o == Failed)
    ensures Inv(outcomes, Written(s, w, o))
  {
    var t := Written(s, w, o);
    assert BegunOnce(t) by { hide HeldOnce, ResultsAreOutcomes; }
    assert HeldRightly(t) && HeldOnce(t) by { hide BegunOnce, ResultsAreOutcomes; }
  }

  lemma CompleteKeeps(outcomes: seq<Outcome>, s: State, w: nat, late: bool)
    requires Inv(outcomes, s) && Processing(s, w) && (late ==> s.cancelled)
    ensures Inv(outcomes, Next(outcomes, s, if late then CompleteLate(w) else Complete(w)))
  {
    hide Inv;
    assert |s.results| == |outcomes| && s.workers[w].i < |outcomes| by { InvIsSized(outcomes, s); }
    var o := if late then Failed else outcomes[s.workers[w].i];
    if o.Panics? {
      ExitKeeps(outcomes, s, w);
    } else {
      ResultKeeps(outcomes, s, w, o);
    }
  }

  lemma InvIsSized(outcomes: seq<Outcome>, s: State)
    requires Inv(outcomes, s)
    ensures Sized(|outcomes|, s)
  {}

  lemma ExitKeeps(outcomes: seq<Outcome>, s: State, w: nat)
    requires Inv(outcomes, s) && w < |s.workers|
    ensures Inv(outcomes, s.(workers := s.workers[w := Exited]))
  {
    var t := s.(workers := s.workers[w := Exited]);
    assert Queued(t) && HeldOnce(t) && HeldRightly(t) && BegunOnce(t);
  }

  lemma SendKeeps(outcomes: seq<Outcome>, s: State)
    requires Inv(outcomes, s) && Enabled(|outcomes|, s, Send)
    ensures Inv(outcomes, Next(outcomes, s, Send))
  {
    var t := Next(outcomes, s, Send);
    assert t.next - |t.indices| == s.next - |s.indices|;
    assert Queued(t) && HeldOnce(t) && HeldRightly(t) && BegunOnce(t);
  }

  lemma StepKeeps(outcomes: seq<Outcome>, s: State, step: Step)
    requires Inv(outcomes, s) && Enabled(|outcomes|, s, step)
    ensures Inv(outcomes, Next(outcomes, s, step))
  {
    match step
    case Cancel =>
    case Send => SendKeeps(outcomes, s);
    case CloseIndices =>
    case Take(w) => TakeKeeps(outcomes, s, w);
    case Quit(w) => ExitKeeps(outcomes, s, w);
    case Begin(w) => BeginKeeps(outcomes, s, w);
    case Complete(w) => CompleteKeeps(outcomes, s, w, false);
    case CompleteLate(w) => CompleteKeeps(outcomes, s, w, true);
    case Leave(w) => ExitKeeps(outcomes, s, w);
  }

  /** In every state of every run each index has been processed at most once, and a result is the
    * outcome of its own message, or a failure once the batch is cancelled. */
  lemma {:induction false} EveryRunKeeps(outcomes: seq<Outcome>, s: State, steps: seq<Step>, t: State)
    requires Inv(outcomes, s) && Runs(outcomes, s, steps, t)
    ensures Inv(outcomes, t)
    decreases steps
  {
    if steps != [] {
      StepKeeps(outcomes, s, steps[0]);
      EveryRunKeeps(outcomes, Next(outcomes, s, steps[0]), steps[1..], t);
    }
  }

  lemma AtMostOnce(outcomes: seq<Outcome>, steps: seq<Step>, t: State)
    requires Runs(outcomes, Initial(|outcomes|), steps, t)
    ensures forall a, b :: 0 <= a < b < |t.begun| ==> t.begun[a] != t.begun[b]
    ensures |t.results| == |outcomes| && ResultsAreOutcomes(outcomes, t)
  {
    EveryRunKeeps(outcomes, Initial(|outcomes|), steps, t);
  }

  // ---------------------------------------------------------------- undisturbed runs

  predicate NoPanics(outcomes: seq<Outcome>) {
    forall i :: 0 <= i < |outcomes| ==> !outcomes[i].Panics?
  }

  predicate Holds(k: Worker, i: nat) { k.Busy? && k.i == i }

  predicate Held(s: State, i: nat) { exists w :: 0 <= w < |s.workers| && Holds(s.workers[w], i) }

  /** Nothing gets lost: what has left the channel is held or has its result. */
  predicate NothingLost(s: State) {
    forall i :: 0 <= i < s.next - |s.indices| && i < |s.results| && s.results[i].None? ==> Held(s, i)
  }

  /** Workers leave only when all the indices have gone through the channel. */
  predicate LeavesLast(n: nat, s: State) {
    && (s.closed ==> s.next == n)
    && (forall w :: 0 <= w < |s.workers| && s.workers[w].Exited? ==> s.closed && s.indices == [])
  }

  predicate Calm(n: nat, s: State) {
    !s.cancelled && NothingLost(s) && LeavesLast(n, s)
  }

  /** A worker that keeps its index keeps it held. */
  lemma StillHeld(s: State, t: State, w: nat, i: nat)
    requires w < |s.workers| == |t.workers| && Held(s, i)
    requires forall v :: 0 <= v < |s.workers| && v != w ==> t.workers[v] == s.workers[v]
    requires Holds(s.workers[w], i) ==> Holds(t.workers[w], i)
    ensures Held(t, i)
  {
    var v :| 0 <= v < |s.workers| && Holds(s.workers[v], i);
    assert Holds(t.workers[v], i);
  }

  lemma TakeIsCalm(outcomes: seq<Outcome>, s: State, w: nat)
    requires Inv(outcomes, s) && Calm(|outcomes|, s) && Enabled(|outcomes|, s, Take(w))
    ensures Calm(|outcomes|, Next(outcomes, s, Take(w)))
  {
    var t := Next(outcomes, s, Take(w));
    assert s.indices[0] == s.next - |s.indices|;
    assert Holds(t.workers[w], s.indices[0]);
    forall i | 0 <= i < s.next - |s.indices| && s.results[i].None? ensures Held(t, i) {
      StillHeld(s, t, w, i);
    }
  }

  lemma BeginIsCalm(outcomes: seq<Outcome>, s: State, w: nat)
    requires Inv(outcomes, s) && Calm(|outcomes|, s) && Enabled(|outcomes|, s, Begin(w))
    ensures Calm(|outcomes|, Next(outcomes, s, Begin(w)))
  {
    var t := Next(outcomes, s, Begin(w));
    forall i | 0 <= i < s.next - |s.indices| && s.results[i].None? ensures Held(t, i) {
      StillHeld(s, t, w, i);
    }
  }

  lemma CompleteIsCalm(outcomes: seq<Outcome>, s: State, w: nat)
    requires Inv(outcomes, s) && Calm(|outcomes|, s) && Processing(s, w) && NoPanics(outcomes)
    ensures Calm(|outcomes|, Next(outcomes, s, Complete(w)))
  {
    var t := Next(outcomes, s, Complete(w));
    forall i | 0 <= i < s.next - |s.indices| && t.results[i].None? ensures Held(t, i) {
      StillHeld(s, t, w, i);
    }
  }

  lemma LeaveIsCalm(outcomes: seq<Outcome>, s: State, w: nat)
    requires Inv(outcomes, s) && Calm(|outcomes|, s) && Enabled(|outcomes|, s, Leave(w))
    ensures Calm(|outcomes|, Next(outcomes, s, Leave(w)))
  {
    var t := Next(outcomes, s, Leave(w));
    forall i | 0 <= i < s.next - |s.indices| && s.results[i].None? ensures Held(t, i) {
      StillHeld(s, t, w, i);
    }
  }

  lemma SameWorkersHold(s: State, t: State)
    requires t.workers == s.workers
    ensures forall i: nat :: Held(t, i) == Held(s, i)
  {}

  lemma StepIsCalm(outcomes: seq<Outcome>, s: State, step: Step)
    requires Inv(outcomes, s) && Calm(|outcomes|, s) && NoPanics(outcomes) && step != Cancel
    requires Enabled(|outcomes|, s, step)
    ensures Calm(|outcomes|, Next(outcomes, s, step))
  {
    hide Held;
    var t := Next(outcomes, s, step);
    match step
    case Send => SameWorkersHold(s, t);
    case CloseIndices => SameWorkersHold(s, t);
    case Take(w) => TakeIsCalm(outcomes, s, w);
    case Quit(w) =>
    case Begin(w) => BeginIsCalm(outcomes, s, w);
    case Complete(w) => CompleteIsCalm(outcomes, s, w);
    case CompleteLate(w) =>
    case Leave(w) => LeaveIsCalm(outcomes, s, w);
  }

  lemma {:induction false} RunIsCalm(outcomes: seq<Outcome>, s: State, steps: seq<Step>, t: State)
    requires Inv(outcomes, s) && Calm(|outcomes|, s) && NoPanics(outcomes) && Cancel !in steps
    requires Runs(outcomes, s, steps, t)
    ensures Inv(outcomes, t) && Calm(|outcomes|, t)
    decreases steps
  {
    if steps != [] {
      StepKeeps(outcomes, s, steps[0]);
      StepIsCalm(outcomes, s, steps[0]);
      RunIsCalm(outcomes, Next(outcomes, s, steps[0]), steps[1..], t);
    }
  }

  function AsResults(outcomes: seq<Outcome>): seq<Option<Outcome>> {
    seq(|outcomes|, i requires 0 <= i < |outcomes| => Some(outcomes[i]))
  }

  /** Whatever the interleaving of producer and workers, an undisturbed batch ends with the same
    * results: the outcome of every message, at its own index. */
  lemma ScheduleIndependent(outcomes: seq<Outcome>, steps: seq<Step>, t: State)
    requires Runs(outcomes, Initial(|outcomes|), steps, t) && Finished(t)
    requires NoPanics(outcomes) && Cancel !in steps
    ensures t.results == AsResults(outcomes)
  {
    RunIsCalm(outcomes, Initial(|outcomes|), steps, t);
    assert t.workers[0].Exited?;
    forall i | 0 <= i < |outcomes| ensures t.results[i] == Some(outcomes[i]) {
      assert !Held(t, i);
    }
  }

  // ---------------------------------------------------------------- progress

  function Left(k: Worker): nat {
    match k
    case Idle => 1
    case Busy(_, begun) => if begun then 3 else 4
    case Exited => 0
  }

  function AllLeft(workers: seq<Worker>): nat
    requires |workers| == WORKERS
  {
    Left(workers[0]) + Left(workers[1]) + Left(workers[2]) + Left(workers[3]) + Left(workers[4])
  }

  function Measure(n: nat, s: State): nat
    requires Sized(n, s)
  {
    5 * (n - s.next) + 4 * |s.indices| + AllLeft(s.workers) +
    (if s.closed then 0 else 1) + (if s.cancelled then 0 else 1)
  }

  lemma WorkerMoves(workers: seq<Worker>, w: nat, k: Worker)
    requires |workers| == WORKERS && w < WORKERS
    ensures AllLeft(workers[w := k]) == AllLeft(workers) - Left(workers[w]) + Left(k)
  {}

  /** Every step uses up work, so every schedule ends, */
  lemma MeasureDecreases(outcomes: seq<Outcome>, s: State, step: Step)
    requires Inv(outcomes, s) && Enabled(|outcomes|, s, step)
    ensures Sized(|outcomes|, Next(outcomes, s, step))
    ensures Measure(|outcomes|, Next(outcomes, s, step)) < Measure(|outcomes|, s)
  {
    hide Queued, HeldRightly, HeldOnce, BegunOnce, ResultsAreOutcomes, AllLeft;
    StepKeeps(outcomes, s, step);
    match step
    case Cancel =>
    case Send =>
    case CloseIndices =>
    case Take(w) => WorkerMoves(s.workers, w, Busy(s.indices[0], false));
    case Quit(w) => WorkerMoves(s.workers, w, Exited);
    case Begin(w) => WorkerMoves(s.workers, w, Busy(s.workers[w].i, true));
    case Complete(w) =>
      WorkerMoves(s.workers, w, Exited);
      WorkerMoves(s.workers, w, Idle);
    case CompleteLate(w) => WorkerMoves(s.workers, w, Idle);
    case Leave(w) => WorkerMoves(s.workers, w, Exited);
  }

  /** and it ends with wg.Wait returning: as long as a worker is left some step is enabled. */
  lemma NeverStuck(outcomes: seq<Outcome>, s: State) returns (step: Step)
    requires Inv(outcomes, s) && !Finished(s)
    ensures Enabled(|outcomes|, s, step) && step != Cancel
  {
    var w :| 0 <= w < |s.workers| && !s.workers[w].Exited?;
    if s.workers[w].Busy? {
      step := if s.workers[w].begun then Complete(w) else if s.cancelled then Quit(w) else Begin(w);
    } else if s.indices != [] {
      step := Take(w);
    } else {
      step := if s.closed then Leave(w) else if s.next < |outcomes| then Send else CloseIndices;
    }
  }
}

/** The evaluation of the results: tallies, and the texts in chunks. */
module BatchLink {
  import opened Common
  import opened BatchPool

  const CHUNK_SIZE := 10

  function Texts(results: seq<Option<Outcome>>): seq<Text> {
    if results == [] then []
    else
      var n := |results| - 1;
      var r := results[n];
      Texts(results[..n]) + if r.Some? && r.value.Succeeded? then [r.value.text] else []
  }

  function Flatten(chunks: seq<seq<Text>>): seq<Text> {
    if chunks == [] then [] else Flatten(chunks[..|chunks| - 1]) + chunks[|chunks| - 1]
  }

  function CountOf(results: seq<Option<Outcome>>, r: Option<Outcome>): nat {
    if results == [] then 0
    else CountOf(results[..|results| - 1], r) + if results[|results| - 1] == r then 1 else 0
  }

  /** Full chunks, and after them one that is neither empty nor full, if the numbers leave one. */
  predicate WellChunked(chunks: seq<seq<Text>>) {
    && (forall c :: 0 <= c < |chunks| ==> 1 <= |chunks[c]| <= CHUNK_SIZE)
    && (forall c :: 0 <= c < |chunks| - 1 ==> |chunks[c]| == CHUNK_SIZE)
  }

  /** Messages without a result: lost to a panic, or never processed because of a cancellation. */
  function Missing(results: seq<Option<Outcome>>): nat {
    CountOf(results, None) + CountOf(results, Some(Panics))
  }

  lemma FlattenAppended(chunks: seq<seq<Text>>, chunk: seq<Text>)
    ensures Flatten(chunks + [chunk]) == Flatten(chunks) + chunk
  {
    assert (chunks + [chunk])[..|chunks|] == chunks;
  }

  lemma NothingCollected()
    ensures Texts([]) == [] && Flatten([]) == [] && Missing([]) == 0
    ensures CountOf([], Some(Skipped)) == CountOf([], Some(Failed)) == 0
  {}

  /** One more result. */
  lemma CollectStep(results: seq<Option<Outcome>>, i: nat)
    requires i < |results|
    ensures Texts(results[..i + 1]) == Texts(results[..i]) +
              if results[i].Some? && results[i].value.Succeeded? then [results[i].value.text] else []
    ensures CountOf(results[..i + 1], Some(Skipped)) ==
            CountOf(results[..i], Some(Skipped)) + if results[i] == Some(Skipped) then 1 else 0
    ensures CountOf(results[..i + 1], Some(Failed)) ==
            CountOf(results[..i], Some(Failed)) + if results[i] == Some(Failed) then 1 else 0
    ensures Missing(results[..i + 1]) ==
            Missing(results[..i]) + if results[i] in {None, Some(Panics)} then 1 else 0
  {
    assert results[..i + 1][..i] == results[..i];
  }

  /** The loop over the results, with the chunks that flushChunk sends. */
  method Collect(results: seq<Option<Outcome>>)
    returns (succeeded: nat, skipped: nat, failed: nat, chunks: seq<seq<Text>>)
    ensures Flatten(chunks) == Texts(results) && WellChunked(chunks)
    ensures succeeded == |Texts(results)|
    ensures skipped == CountOf(results, Some(Skipped)) && failed == CountOf(results, Some(Failed))
    ensures succeeded + skipped + failed == |results| - Missing(results)
  {
    hide Texts, CountOf, Flatten, Missing;
    NothingCollected();
    succeeded, skipped, failed, chunks := 0, 0, 0, [];
    var chunk: seq<Text> := [];
    for i := 0 to |results|
      invariant Flatten(chunks) + chunk == Texts(results[..i])
      invariant |chunk| < CHUNK_SIZE && forall c :: 0 <= c < |chunks| ==> |chunks[c]| == CHUNK_SIZE
      invariant succeeded == |Texts(results[..i])|
      invariant skipped == CountOf(results[..i], Some(Skipped)) && failed == CountOf(results[..i], Some(Failed))
      invariant succeeded + skipped + failed == i - Missing(results[..i])
    {
      CollectStep(results, i);
      var r := results[i];
      if r == Some(Skipped) {
        skipped := skipped + 1;
        continue;
      }
      if r == Some(Failed) {
        failed := failed + 1;
        continue;
      }
      if r.Some? && r.value.Succeeded? {
        succeeded := succeeded + 1;
        assert Flatten(chunks) + (chunk + [r.value.text]) == Flatten(chunks) + chunk + [r.value.text];
        chunk := chunk + [r.value.text];
        if |chunk| >= CHUNK_SIZE {
          FlattenAppended(chunks, chunk);
          chunks, chunk := chunks + [chunk], [];
        }
      }
    }
    assert results[..|results|] == results;
    if |chunk| != 0 {
      FlattenAppended(chunks, chunk);
      chunks := chunks + [chunk];
    }
  }

  lemma {:induction false} FullLength(chunks: seq<seq<Text>>)
    requires forall c :: 0 <= c < |chunks| ==> |chunks[c]| == CHUNK_SIZE
    ensures |Flatten(chunks)| == CHUNK_SIZE * |chunks|
  {
    if chunks != [] {
      FullLength(chunks[..|chunks| - 1]);
    }
  }

  /** The chunks are determined by the texts. */
  lemma {:induction false} ChunksAreUnique(a: seq<seq<Text>>, b: seq<seq<Text>>)
    requires WellChunked(a) && WellChunked(b) && Flatten(a) == Flatten(b)
    ensures a == b
  {
    if a != [] && b != [] {
      var m, n := |a| - 1, |b| - 1;
      FullLength(a[..m]);
      FullLength(b[..n]);
      assert m == n && |a[m]| == |b[n]|;
      var f := Flatten(a);
      assert a[m] == f[|f| - |a[m]|..] == b[n];
      assert Flatten(a[..m]) == f[..|f| - |a[m]|] == Flatten(b[..n]);
      ChunksAreUnique(a[..m], b[..n]);
      assert a == a[..m] + [a[m]] && b == b[..n] + [b[n]];
    } else {
      EmptyChunks(a);
      EmptyChunks(b);
    }
  }

  lemma EmptyChunks(chunks: seq<seq<Text>>)
    requires WellChunked(chunks)
    ensures Flatten(chunks) == [] <==> chunks == []
  {
    if chunks != [] {
      assert |chunks[|chunks| - 1]| > 0;
    }
  }

  /** Without cancellation or panic the tallies add up to the number of messages, and two runs of
    * the pool, however scheduled, lead to the same texts. */
  lemma UndisturbedBatch(outcomes: seq<Outcome>, steps: seq<Step>, s: State, others: seq<Step>, t: State)
    requires NoPanics(outcomes) && Cancel !in steps && Cancel !in others
    requires Runs(outcomes, Initial(|outcomes|), steps, s) && Finished(s)
    requires Runs(outcomes, Initial(|outcomes|), others, t) && Finished(t)
    ensures s.results == t.results && Texts(s.results) == Texts(t.results)
    ensures |s.results| == |outcomes| && Missing(s.results) == 0
  {
    hide Runs, Texts, Missing, Initial;
    ScheduleIndependent(outcomes, steps, s);
    ScheduleIndependent(outcomes, others, t);
    NoneMissing(outcomes, |outcomes|);
    assert AsResults(outcomes)[..|outcomes|] == AsResults(outcomes);
  }

  lemma {:induction false} NoneMissing(outcomes: seq<Outcome>, n: nat)
    requires NoPanics(outcomes) && n <= |outcomes|
    ensures Missing(AsResults(outcomes)[..n]) == 0
  {
    if n > 0 {
      NoneMissing(outcomes, n - 1);
      assert AsResults(outcomes)[..n][..n - 1] == AsResults(outcomes)[..n - 1];
    }
  }
}
