/** Loads and tickets of the client pool, on values: which client is picked, and what a run of
  * acquisitions does to the loads (internal/pool/pool.go). */
module PoolModel {
  import opened Common

  /** The loads are as the scan read them, one client after the other. */
  function Best(loads: seq<int>, cap: int): (c: Option<nat>)
    ensures c.None? ==> forall i :: 0 <= i < |loads| ==> loads[i] >= cap
    ensures c.Some? ==>
              && c.value < |loads| && loads[c.value] < cap
              && (forall i :: 0 <= i < |loads| ==> loads[c.value] <= loads[i])
              && (forall i :: 0 <= i < c.value ==> loads[c.value] < loads[i])
  {
    if loads == [] then None
    else
      var n := |loads| - 1;
      match Best(loads[..n], cap)
      case None => if loads[n] < cap then Some(n) else None
      case Some(b) => if loads[n] < loads[b] then Some(n) else Some(b)
  }

  lemma BestStep(seen: seq<int>, n: int, cap: int)
    ensures Best(seen + [n], cap) ==
              match Best(seen, cap)
              case None => if n < cap then Some(|seen|) else None
              case Some(b) => if n < seen[b] then Some(|seen|) else Some(b)
  {
    assert (seen + [n])[..|seen|] == seen;
  }

  lemma NoClients(cap: int)
    ensures Best([], cap) == None
  {}

  /** Nothing else satisfies what Best promises. */
  lemma BestIsUnique(loads: seq<int>, cap: int, c: nat)
    requires c < |loads| && loads[c] < cap
    requires forall i :: 0 <= i < |loads| ==> loads[c] <= loads[i]
    requires forall i :: 0 <= i < c ==> loads[c] < loads[i]
    ensures Best(loads, cap) == Some(c)
  {
    var b := Best(loads, cap).value;
    assert loads[b] == loads[c];
  }

  // ---------------------------------------------------------------- tickets

  ghost function Holders(tickets: map<nat, nat>, c: nat): set<nat> {
    set t | t in tickets && tickets[t] == c
  }

  /** Outstanding tickets for a client. */
  ghost function Held(tickets: map<nat, nat>, c: nat): nat { |Holders(tickets, c)| }

  lemma HeldAfterRelease(tickets: map<nat, nat>, t: nat, c: nat)
    requires t in tickets
    ensures Held(tickets - {t}, c) == Held(tickets, c) - if tickets[t] == c then 1 else 0
  {
    assert Holders(tickets - {t}, c) == Holders(tickets, c) - {t};
  }

  lemma HeldAfterAcquire(tickets: map<nat, nat>, t: nat, b: nat, c: nat)
    requires t !in tickets
    ensures Held(tickets[t := b], c) == Held(tickets, c) + if b == c then 1 else 0
  {
    assert Holders(tickets[t := b], c) == Holders(tickets, c) + if b == c then {t} else {};
  }

  function Sum(loads: seq<int>): int {
    if loads == [] then 0 else Sum(loads[..|loads| - 1]) + loads[|loads| - 1]
  }

  ghost function HeldBelow(tickets: map<nat, nat>, n: nat): set<nat> {
    set t | t in tickets && tickets[t] < n
  }

  /** The loads add up to the tickets outstanding. */
  lemma {:induction false} SumIsHeld(loads: seq<int>, tickets: map<nat, nat>)
    requires forall c :: 0 <= c < |loads| ==> loads[c] == Held(tickets, c)
    ensures Sum(loads) == |HeldBelow(tickets, |loads|)|
  {
    if loads == [] {
      assert HeldBelow(tickets, 0) == {};
    } else {
      var n := |loads| - 1;
      SumIsHeld(loads[..n], tickets);
      assert HeldBelow(tickets, n + 1) == HeldBelow(tickets, n) + Holders(tickets, n);
      assert HeldBelow(tickets, n) !! Holders(tickets, n);
    }
  }

  // ---------------------------------------------------------------- runs of acquisitions alone

  function Acquired(loads: seq<int>, cap: int): seq<int> {
    match Best(loads, cap)
    case None => loads
    case Some(c) => loads[c := loads[c] + 1]
  }

  /** The loads after k acquisitions by idle clients, with no release in between. */
  function After(clients: nat, cap: int, k: nat): seq<int> {
    if k == 0 then seq(clients, _ => 0) else Acquired(After(clients, cap, k - 1), cap)
  }

  predicate WithinOne(loads: seq<int>) {
    forall i, j :: 0 <= i < |loads| && 0 <= j < |loads| ==> loads[i] <= loads[j] + 1
  }

  lemma {:induction false} SumUpdated(loads: seq<int>, c: nat, x: int)
    requires c < |loads|
    ensures Sum(loads[c := x]) == Sum(loads) - loads[c] + x
  {
    var n := |loads| - 1;
    if c < n {
      SumUpdated(loads[..n], c, x);
      assert loads[c := x][..n] == loads[..n][c := x];
    } else {
      assert loads[c := x][..n] == loads[..n];
    }
  }

  /** The loads from client i on. */
  function SumFrom(loads: seq<int>, i: nat): int
    requires i <= |loads|
  {
    Sum(loads) - Sum(loads[..i])
  }

  lemma SumFromUpdated(loads: seq<int>, c: nat, x: int, i: nat)
    requires c < |loads| && i <= |loads|
    ensures SumFrom(loads[c := x], i) == SumFrom(loads, i) + if i <= c then x - loads[c] else 0
  {
    SumUpdated(loads, c, x);
    if c < i {
      SumUpdated(loads[..i], c, x);
      assert loads[c := x][..i] == loads[..i][c := x];
    } else {
      assert loads[c := x][..i] == loads[..i];
    }
  }

  lemma SumFromNext(loads: seq<int>, i: nat)
    requires i < |loads|
    ensures SumFrom(loads, i) == loads[i] + SumFrom(loads, i + 1)
  {
    assert loads[..i + 1][..i] == loads[..i];
  }

  lemma {:induction false} SumOfEqual(loads: seq<int>, x: int)
    requires forall i :: 0 <= i < |loads| ==> loads[i] == x
    ensures Sum(loads) == |loads| * x
  {
    if loads != [] {
      SumOfEqual(loads[..|loads| - 1], x);
    }
  }

  lemma {:induction false} SumBelow(loads: seq<int>, x: int, c: nat)
    requires c < |loads| && loads[c] < x && forall i :: 0 <= i < |loads| ==> loads[i] <= x
    ensures Sum(loads) < |loads| * x
  {
    var n := |loads| - 1;
    if c < n {
      SumBelow(loads[..n], x, c);
    } else {
      SumAtMost(loads[..n], x);
    }
  }

  lemma {:induction false} SumAtMost(loads: seq<int>, x: int)
    requires forall i :: 0 <= i < |loads| ==> loads[i] <= x
    ensures Sum(loads) <= |loads| * x
  {
    if loads != [] {
      SumAtMost(loads[..|loads| - 1], x);
    }
  }

  lemma {:induction false} AcquisitionsBalance(clients: nat, cap: int, k: nat)
    requires 0 < cap
    ensures var loads := After(clients, cap, k);
            && |loads| == clients && WithinOne(loads)
            && (forall i :: 0 <= i < clients ==> 0 <= loads[i] <= cap)
  {
    if k > 0 {
      AcquisitionsBalance(clients, cap, k - 1);
    }
  }

  lemma FullExactly(loads: seq<int>, cap: int)
    requires forall i :: 0 <= i < |loads| ==> loads[i] <= cap
    ensures Best(loads, cap).None? <==> Sum(loads) == |loads| * cap
    ensures Sum(loads) <= |loads| * cap
  {
    SumAtMost(loads, cap);
    if Best(loads, cap).None? {
      SumOfEqual(loads, cap);
    } else {
      SumBelow(loads, cap, Best(loads, cap).value);
    }
  }

  /** One acquisition adds one, up to the sum at which every client is full. */
  lemma SumAcquired(loads: seq<int>, cap: int, full: int)
    requires Best(loads, cap).None? <==> Sum(loads) == full
    requires Sum(loads) <= full
    ensures Sum(Acquired(loads, cap)) == Min(Sum(loads) + 1, full)
  {
    if Best(loads, cap).Some? {
      SumUpdated(loads, Best(loads, cap).value, loads[Best(loads, cap).value] + 1);
    }
  }

  /** Acquisitions alone keep the loads within one of each other and within the cap, and admit
    * exactly as many as the clients can hold between them; the next one is rejected. */
  lemma {:induction false} AcquisitionsFill(clients: nat, cap: int, k: nat)
    requires 0 < cap
    ensures var loads := After(clients, cap, k);
            && |loads| == clients && WithinOne(loads)
            && (forall i :: 0 <= i < clients ==> 0 <= loads[i] <= cap)
            && Sum(loads) == Min(k, clients * cap)
            && (Best(loads, cap).None? <==> k >= clients * cap)
  {
    hide Acquired, Best, WithinOne;
    var loads := After(clients, cap, k);
    AcquisitionsBalance(clients, cap, k);
    if k == 0 {
      SumOfEqual(loads, 0);
      assert 0 <= clients * cap;
    } else {
      AcquisitionsFill(clients, cap, k - 1);
      FullExactly(After(clients, cap, k - 1), cap);
      SumAcquired(After(clients, cap, k - 1), cap, clients * cap);
    }
    FullExactly(loads, cap);
  }

}

/** The pool itself. AcquireBest runs under a mutex, but releases do not take it: they may land
  * before every load of a counter and before the reservation. */
module ClientPool {
  import opened Common
  import opened PoolModel

  datatype Work = Reserving(client: nat) | Releasing(ticket: nat)

  datatype Ticket = Ticket(client: nat, id: nat)

  class Pool {
    const inflight: array<int>          // one counter for each client
    const maxConcurrent: int
    var tickets: map<nat, nat>          // the releases not yet called, and their clients
    var next: nat

    ghost predicate Valid()
      reads this, inflight
    {
      && 0 < maxConcurrent
      && (forall t :: t in tickets ==> t < next && tickets[t] < inflight.Length)
      && forall c :: 0 <= c < inflight.Length ==> inflight[c] == Held(tickets, c) && inflight[c] <= maxConcurrent
    }

    constructor (clients: nat, maxConcurrentPerClient: int)
      ensures Valid() && fresh(inflight) && tickets == map[]
      ensures inflight[..] == After(clients, maxConcurrent, 0)
      ensures maxConcurrent == if maxConcurrentPerClient > 0 then maxConcurrentPerClient else 8
    {
      inflight := new int[clients](_ => 0);
      maxConcurrent := if maxConcurrentPerClient > 0 then maxConcurrentPerClient else 8;
      tickets, next := map[], 0;
      new;
      forall c: nat ensures Held(tickets, c) == 0 {
        assert Holders(tickets, c) == {};
      }
    }

    /** The callback returned by AcquireBest: sync.Once makes every call but the first a no-op. */
    method Release(ticket: nat)
      requires Valid()
      modifies this`tickets, inflight
      ensures Valid() && tickets == old(tickets) - {ticket}
      ensures ticket !in old(tickets) ==> inflight[..] == old(inflight[..])
      ensures ticket in old(tickets) ==>
                var c := old(tickets)[ticket]; inflight[..] == old(inflight[..])[c := old(inflight[c]) - 1]
    {
      if ticket in tickets {
        var c := tickets[ticket];
        forall d: nat ensures Held(tickets - {ticket}, d) == Held(tickets, d) - if c == d then 1 else 0 {
          HeldAfterRelease(tickets, ticket, d);
        }
        inflight[c] := inflight[c] - 1;
        tickets := tickets - {ticket};
      }
    }

    /** Other goroutines at work between two operations of AcquireBest: they can only release. */
    method Interference(quiet: bool)
      requires Valid()
      modifies this`tickets, inflight
      ensures Valid() && OnlyReleases(old(tickets), old(inflight[..]), quiet)
    {
      var releases: seq<nat> := *;
      if quiet {
        releases := [];
      }
      for i := 0 to |releases|
        invariant Valid() && OnlyReleases(old(tickets), old(inflight[..]), quiet || i == 0)
      {
        Release(releases[i]);
      }
    }

    /** Nothing has happened since but releases; nothing at all, if quiet. */
    ghost predicate OnlyReleases(before: map<nat, nat>, loads: seq<int>, quiet: bool)
      reads this, inflight
    {
      && (forall t :: t in tickets ==> t in before && tickets[t] == before[t])
      && |loads| == inflight.Length && (forall c :: 0 <= c < |loads| ==> inflight[c] <= loads[c])
      && (quiet ==> tickets == before && inflight[..] == loads)
    }

    /** The scan of AcquireBest; seen are the loads as it read them. */
    method Scan(quiet: bool) returns (best: Option<nat>, ghost seen: seq<int>)
      requires Valid()
      modifies this`tickets, inflight
      ensures Valid() && OnlyReleases(old(tickets), old(inflight[..]), quiet)
      ensures |seen| == inflight.Length && best == Best(seen, maxConcurrent)
      ensures forall i :: 0 <= i < |seen| ==> inflight[i] <= seen[i] <= old(inflight[i])
      ensures quiet ==> seen == old(inflight[..])
    {
      hide Valid, Best;
      seen, best := [], None;
      var bestCount := 0;
      for i := 0 to inflight.Length
        invariant Valid() && OnlyReleases(old(tickets), old(inflight[..]), quiet)
        invariant |seen| == i && (forall j :: 0 <= j < i ==> inflight[j] <= seen[j] <= old(inflight[j]))
        invariant quiet ==> seen == old(inflight[..])[..i]
        invariant best == Best(seen, maxConcurrent)
        invariant best.Some? ==> best.value < i && bestCount == seen[best.value]
      {
        Interference(quiet);
        var n := inflight[i];
        BestStep(seen, n, maxConcurrent);
        seen := seen + [n];
        if n >= maxConcurrent {
          continue;
        }
        if best.None? || n < bestCount {
          best, bestCount := Some(i), n;
        }
      }
    }

    /** The reservation. */
    method Reserve(c: nat) returns (ticket: nat)
      requires Valid() && c < inflight.Length && inflight[c] < maxConcurrent
      modifies this, inflight
      ensures Valid() && ticket == old(next) && ticket !in old(tickets) && tickets == old(tickets)[ticket := c]
      ensures inflight[..] == old(inflight[..])[c := old(inflight[c]) + 1]
    {
      forall d: nat ensures Held(tickets[next := c], d) == Held(tickets, d) + if c == d then 1 else 0 {
        HeldAfterAcquire(tickets, next, c, d);
      }
      ticket := next;
      inflight[c] := inflight[c] + 1;
      tickets, next := tickets[next := c], next + 1;
    }

    /** The client picked is the least loaded of those seen below the cap, the first such, and its
      * load stays within the cap; without interference it is the best of the loads at the call.
      * A rejection means that every client was seen at the cap, and had been since the call began. */
    method AcquireBest(quiet: bool) returns (r: Option<Ticket>, ghost seen: seq<int>)
      requires Valid()
      modifies this, inflight
      ensures Valid()
      ensures |seen| == inflight.Length && forall i :: 0 <= i < |seen| ==> seen[i] <= old(inflight[i])
      ensures Best(seen, maxConcurrent) == if r.None? then None else Some(r.value.client)
      ensures r.None? ==> forall i :: 0 <= i < |seen| ==> seen[i] == old(inflight[i]) == maxConcurrent
      ensures r.None? ==> OnlyReleases(old(tickets), old(inflight[..]), quiet)
      ensures r.Some? ==> r.value.id !in old(tickets) && r.value.id in tickets && tickets[r.value.id] == r.value.client
      ensures forall t :: t in tickets && (r.Some? ==> t != r.value.id) ==>
                t in old(tickets) && tickets[t] == old(tickets)[t]
      ensures quiet ==> seen == old(inflight[..]) && inflight[..] == Acquired(old(inflight[..]), maxConcurrent)
    {
      hide Best;
      if inflight.Length == 0 {
        NoClients(maxConcurrent);
        return None, [];
      }
      ghost var loads := inflight[..];
      assert forall i :: 0 <= i < |loads| ==> loads[i] <= maxConcurrent;
      var best: Option<nat>;
      best, seen := Scan(quiet);
      if best.None? {
        return None, seen;
      }
      Interference(quiet);
      var id := Reserve(best.value);
      return Some(Ticket(best.value, id)), seen;
    }

    /** Other goroutines at work between the reads of TotalInflight, which takes no lock: they reserve
      * and they release. */
    method Others(quiet: bool) returns (ghost acquired: nat, ghost released: nat)
      requires Valid()
      modifies this, inflight
      ensures Valid() && Shifted(old(inflight[..]), acquired, released)
      ensures quiet ==> acquired == released == 0 && tickets == old(tickets)
    {
      hide Valid;
      acquired, released := 0, 0;
      var works: seq<Work> := *;
      if quiet {
        works := [];
      }
      for i := 0 to |works|
        invariant Valid() && Shifted(old(inflight[..]), acquired, released)
        invariant quiet ==> acquired == released == 0 && tickets == old(tickets)
      {
        ghost var before := inflight[..];
        match works[i]
        case Reserving(c) =>
          if c < inflight.Length && inflight[c] < maxConcurrent {
            var _ := Reserve(c);
            forall j: nat | j <= |before| ensures SumFrom(inflight[..], j) <= SumFrom(before, j) + 1
              && SumFrom(before, j) <= SumFrom(inflight[..], j)
            {
              SumFromUpdated(before, c, before[c] + 1, j);
            }
            acquired := acquired + 1;
          }
        case Releasing(ticket) =>
          if ticket in tickets {
            var c := tickets[ticket];
            TicketHasClient(ticket);
            Release(ticket);
            forall j: nat | j <= |before| ensures SumFrom(inflight[..], j) <= SumFrom(before, j)
              && SumFrom(before, j) <= SumFrom(inflight[..], j) + 1
            {
              SumFromUpdated(before, c, before[c] - 1, j);
            }
            released := released + 1;
          }
      }
    }

    lemma TicketHasClient(ticket: nat)
      requires Valid() && ticket in tickets
      ensures tickets[ticket] < inflight.Length
    {}

    /** From any client on, the loads have moved no further than acquisitions and releases allow. */
    ghost predicate Shifted(loads: seq<int>, acquired: nat, released: nat)
      reads this, inflight
    {
      |loads| == inflight.Length &&
      forall j: nat :: j <= |loads| ==>
        SumFrom(loads, j) - released <= SumFrom(inflight[..], j) <= SumFrom(loads, j) + acquired
    }

    /** TotalInflight reads one counter after the other: the result is the number of tickets at the
      * call, give or take what was acquired and released meanwhile; exact when nothing was. */
    method TotalInflight(quiet: bool) returns (total: int, ghost acquired: nat, ghost released: nat)
      requires Valid()
      modifies this, inflight
      ensures Valid()
      ensures |old(tickets)| - released <= total <= |old(tickets)| + acquired
      ensures quiet ==> total == |tickets| && tickets == old(tickets)
    {
      total, acquired, released := 0, 0, 0;
      SumIsTickets();
      hide Valid, Shifted;
      for i := 0 to inflight.Length
        invariant Valid()
        invariant quiet ==> acquired == released == 0 && tickets == old(tickets)
        invariant |old(tickets)| - released <= total + SumFrom(inflight[..], i) <= |old(tickets)| + acquired
      {
        ghost var before := inflight[..];
        ghost var a, r;
        a, r := Others(quiet);
        ShiftedAt(before, a, r, i);
        acquired, released := acquired + a, released + r;
        SumFromNext(inflight[..], i);
        total := total + inflight[i];
      }
      assert inflight[..][..inflight.Length] == inflight[..];
    }

    lemma ShiftedAt(loads: seq<int>, acquired: nat, released: nat, j: nat)
      requires Shifted(loads, acquired, released) && j <= inflight.Length
      ensures |loads| == inflight.Length
      ensures SumFrom(loads, j) - released <= SumFrom(inflight[..], j) <= SumFrom(loads, j) + acquired
    {}

    lemma SumIsTickets()
      requires Valid()
      ensures SumFrom(inflight[..], 0) == |tickets|
    {
      SumIsHeld(inflight[..], tickets);
      assert HeldBelow(tickets, inflight.Length) == tickets.Keys;
    }
  }
}
