/** The batching of seen-count increments (internal/store/store.go) as a step system: Increment on
  * any goroutine, the iterations of the flush loop, and the closing of the channel by Stop. */
module TouchModel {

  const CAPACITY := 1000

  /** ch is the buffered channel, counts what the loop has collected since the last flush. The logs
    * record what was handed to BulkWrite, batch by batch, and the keys that were dropped. */
  datatype State<K(==)> = State(
    ch: seq<K>, closed: bool, counts: map<K, nat>, dropped: nat, done: bool,
    written: seq<map<K, nat>>, lost: seq<K>)

  datatype Event<K> =
    | Increment(key: K)
    | Receive              // the loop takes a key from the channel
    | Tick                 // the loop's select takes the ticker
    | Close                // Stop
    | End                  // the loop finds the channel closed and empty

  function Initial<K(==)>(): State<K> { State([], false, map[], 0, false, [], []) }

  /** A closed channel hands out what it still holds; only then does a receive report the close. A
    * send on a closed channel would panic: nothing may be incremented after Stop. */
  predicate Enabled<K(==)>(s: State<K>, e: Event<K>) {
    match e
    case Increment(_) => !s.closed
    case Receive => !s.done && s.ch != []
    case Tick => !s.done
    case Close => !s.closed
    case End => !s.done && s.closed && s.ch == []
  }

  function Get<K>(counts: map<K, nat>, k: K): nat { if k in counts then counts[k] else 0 }

  function Flush<K>(s: State<K>): State<K> {
    if |s.counts| == 0 then s else s.(written := s.written + [s.counts], counts := map[])
  }

  function Next<K>(s: State<K>, e: Event<K>): State<K>
    requires Enabled(s, e)
  {
    match e
    case Increment(k) =>
      if |s.ch| < CAPACITY then s.(ch := s.ch + [k]) else s.(dropped := s.dropped + 1, lost := s.lost + [k])
    case Receive => s.(ch := s.ch[1..], counts := s.counts[s.ch[0] := Get(s.counts, s.ch[0]) + 1])
    case Tick => Flush(s)
    case Close => s.(closed := true)
    case End => Flush(s).(done := true)
  }

  ghost predicate Runs<K>(s: State<K>, events: seq<Event<K>>, t: State<K>)
    decreases events
  {
    if events == [] then s == t
    else Enabled(s, events[0]) && Runs(Next(s, events[0]), events[1..], t)
  }

  // ---------------------------------------------------------------- counting one key

  function Occurs<K(==)>(s: seq<K>, k: K): nat {
    if s == [] then 0 else (if s[0] == k then 1 else 0) + Occurs(s[1..], k)
  }

  function Written<K(==)>(batches: seq<map<K, nat>>, k: K): nat {
    if batches == [] then 0 else Get(batches[0], k) + Written(batches[1..], k)
  }

  function Increments<K(==)>(events: seq<Event<K>>, k: K): nat {
    if events == [] then 0
    else (if events[0] == Increment(k) then 1 else 0) + Increments(events[1..], k)
  }

  /** Everything a state accounts for: written, collected, waiting in the channel, or dropped. */
  function Accounted<K(==)>(s: State<K>, k: K): nat {
    Written(s.written, k) + Get(s.counts, k) + Occurs(s.ch, k) + Occurs(s.lost, k)
  }

  lemma {:induction false} OccursAppended<K>(s: seq<K>, x: K, k: K)
    ensures Occurs(s + [x], k) == Occurs(s, k) + if x == k then 1 else 0
  {
    if s == [] {
      assert (s + [x])[1..] == [];
    } else {
      assert (s + [x])[1..] == s[1..] + [x];
      OccursAppended(s[1..], x, k);
    }
  }

  lemma {:induction false} WrittenAppended<K>(batches: seq<map<K, nat>>, b: map<K, nat>, k: K)
    ensures Written(batches + [b], k) == Written(batches, k) + Get(b, k)
  {
    if batches == [] {
      assert (batches + [b])[1..] == [];
    } else {
      assert (batches + [b])[1..] == batches[1..] + [b];
      WrittenAppended(batches[1..], b, k);
    }
  }

  /** One event changes the account of a key only if it is an increment of that key. */
  lemma EventConserves<K>(s: State<K>, e: Event<K>, k: K)
    requires Enabled(s, e)
    ensures Accounted(Next(s, e), k) == Accounted(s, k) + if e == Increment(k) then 1 else 0
  {
    match e
    case Increment(x) =>
      OccursAppended(s.ch, x, k);
      OccursAppended(s.lost, x, k);
    case Receive =>
    case Tick => WrittenAppended(s.written, s.counts, k);
    case Close =>
    case End => WrittenAppended(s.written, s.counts, k);
  }

  /** Over every run and for every key, what was incremented is what was handed to BulkWrite, what
    * is still pending, what waits in the channel, and what was dropped. */
  lemma {:induction false} RunConserves<K>(s: State<K>, events: seq<Event<K>>, t: State<K>, k: K)
    requires Runs(s, events, t)
    ensures Accounted(t, k) == Accounted(s, k) + Increments(events, k)
    decreases events
  {
    if events != [] {
      EventConserves(s, events[0], k);
      RunConserves(Next(s, events[0]), events[1..], t, k);
    }
  }

  ghost predicate Inv<K(!new)>(s: State<K>) {
    && |s.ch| <= CAPACITY
    && s.dropped == |s.lost|
    && (s.done ==> s.closed && s.ch == [] && s.counts == map[])
    && (forall k :: k in s.counts ==> s.counts[k] > 0)
    && (forall i, k :: 0 <= i < |s.written| && k in s.written[i] ==> s.written[i][k] > 0)
    && (forall i :: 0 <= i < |s.written| ==> |s.written[i]| > 0)
  }

  lemma {:induction false} RunKeeps<K(!new)>(s: State<K>, events: seq<Event<K>>, t: State<K>)
    requires Inv(s) && Runs(s, events, t)
    ensures Inv(t)
    decreases events
  {
    if events != [] {
      RunKeeps(Next(s, events[0]), events[1..], t);
    }
  }

  /** When the loop has finished, every increment has been written or counted as dropped, and
    * nothing is pending or in the channel. */
  lemma NothingIsLeft<K(!new)>(events: seq<Event<K>>, t: State<K>, k: K)
    requires Runs(Initial(), events, t) && t.done
    ensures t.ch == [] && t.counts == map[]
    ensures Increments(events, k) == Written(t.written, k) + Occurs(t.lost, k)
    ensures |t.lost| == t.dropped
  {
    RunKeeps(Initial(), events, t);
    RunConserves(Initial(), events, t, k);
  }

  /** A tick hands over all that was pending, key by key, and takes nothing from the channel. */
  lemma TickFlushes<K>(s: State<K>, k: K)
    requires Enabled(s, Event<K>.Tick)
    ensures var t := Next(s, Event<K>.Tick);
            && t.counts == map[] && Written(t.written, k) == Written(s.written, k) + Get(s.counts, k)
            && t.ch == s.ch && t.lost == s.lost && t.dropped == s.dropped
  {
    WrittenAppended(s.written, s.counts, k);
  }

  /** So after every tick of every run an increment has been written or dropped, or is still in the
    * channel: none is held back. */
  lemma TickLeavesNothingPending<K(!new)>(events: seq<Event<K>>, s: State<K>, k: K)
    requires Runs(Initial(), events, s) && Enabled(s, Event<K>.Tick)
    ensures var t := Next(s, Event<K>.Tick);
            Increments(events, k) == Written(t.written, k) + Occurs(t.ch, k) + Occurs(t.lost, k)
  {
    RunConserves(Initial(), events, s, k);
    TickFlushes(s, k);
  }

  /** A key that the loop takes from the channel is pending, and it is the one that waited longest. */
  lemma ReceivedIsPending<K>(s: State<K>, k: K)
    requires Enabled(s, Event<K>.Receive)
    ensures var t := Next(s, Event<K>.Receive);
            && [s.ch[0]] + t.ch == s.ch && t.written == s.written
            && Get(t.counts, k) == Get(s.counts, k) + if s.ch[0] == k then 1 else 0
  {}

  /** The increments of all keys together. */
  function AllIncrements<K(==)>(events: seq<Event<K>>): nat {
    if events == [] then 0 else (if events[0].Increment? then 1 else 0) + AllIncrements(events[1..])
  }

  function Max0(n: int): nat { if n > 0 then n else 0 }

  /** A run drops no more increments than overfill the channel if the loop never takes a key from it,
    * and exactly those if it takes none; so up to 1000 increments in a row always get through. */
  lemma {:induction false} DropsAreOverflow<K(!new)>(s: State<K>, events: seq<Event<K>>, t: State<K>)
    requires |s.ch| <= CAPACITY && Runs(s, events, t)
    ensures s.dropped <= t.dropped <= s.dropped + Max0(|s.ch| + AllIncrements(events) - CAPACITY)
    ensures Receive !in events ==> t.dropped == s.dropped + Max0(|s.ch| + AllIncrements(events) - CAPACITY)
    decreases events
  {
    if events != [] {
      DropsAreOverflow(Next(s, events[0]), events[1..], t);
    }
  }
}

/** The buffer itself. */
module TouchBuffer {
  import opened TouchModel

  class Buffer<K(==, !new)> {
    var ch: seq<K>
    var closed: bool
    var counts: map<K, nat>
    var dropped: nat
    var done: bool
    ghost var written: seq<map<K, nat>>
    ghost var lost: seq<K>

    ghost function View(): State<K>
      reads this
    {
      State(ch, closed, counts, dropped, done, written, lost)
    }

    constructor ()
      ensures View() == Initial()
    {
      ch, closed, counts, dropped, done, written, lost := [], false, map[], 0, false, [], [];
    }

    method Increment(key: K)
      requires Enabled(View(), Event.Increment(key))
      modifies this
      ensures View() == Next(old(View()), Event.Increment(key))
    {
      if |ch| < CAPACITY {
        ch := ch + [key];
      } else {
        dropped, lost := dropped + 1, lost + [key];
      }
    }

    /** BulkWrite gets one update for each key collected. */
    method Flush()
      modifies this
      ensures View() == TouchModel.Flush(old(View()))
    {
      if |counts| == 0 {
        return;
      }
      written := written + [counts];
      counts := map[];
    }

    method Collect(key: K)
      modifies this
      ensures View() == old(View()).(counts := old(counts)[key := Get(old(counts), key) + 1])
    {
      counts := counts[key := Get(counts, key) + 1];
    }

    /** One iteration of the flush loop: the select takes the ticker, or else a receive from the
      * channel, which blocks while the channel is open and empty. */
    method Iterate(tick: bool)
      requires !done && (tick || closed || ch != [])
      modifies this
      ensures View() == Next(old(View()), if tick then Tick else if old(ch) != [] then Receive else End)
    {
      if tick {
        Flush();
        return;
      }
      if ch == [] {
        // A receive reports the close only once the channel is empty, so that the loop over the
        // remaining values finds none.
        Flush();
        done := true;
        return;
      }
      var key := ch[0];
      ch := ch[1..];
      Collect(key);
    }

    /** Stop: it closes the channel, and the loop, whatever its ticker does meanwhile, finishes. */
    method Stop(ticks: seq<bool>)
      requires Inv(View()) && !closed
      modifies this
      ensures done && ch == [] && counts == map[] && dropped == old(dropped) && lost == old(lost)
      ensures forall k :: Accounted(View(), k) == old(Accounted(View(), k))
    {
      closed := true;
      var i := 0;
      while !done
        invariant closed && dropped == old(dropped) && lost == old(lost)
        invariant done ==> ch == [] && counts == map[]
        invariant forall k :: Accounted(View(), k) == old(Accounted(View(), k))
        decreases !done, |ch|, |ticks| - i
      {
        var tick := 0 <= i < |ticks| && ticks[i];
        i := i + 1;
        var e := if tick then Tick else if ch != [] then Receive else End;
        forall k ensures Accounted(Next(View(), e), k) == Accounted(View(), k) {
          EventConserves(View(), e, k);
        }
        Iterate(tick);
      }
    }
  }
}
