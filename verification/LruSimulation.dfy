/** The lazy LRU of the store simulates the exact LRU of the shortener: a stamp per read and a scan
  * per eviction choose the same victims as moving every hit to the front of a list. */
module LruSimulation {
  import opened Common
  import opened LinkedKeys
  import Lazy = CacheModel
  import Exact = LruModel

  /** One cache operation. A lookup reads the clock for the expiry test, then for the stamp. */
  datatype Event<K, V> = Get(key: K, checked: int, accessed: int64) | Set(key: K, value: V, now: int64)
  {
    function Stamp(): int64 { if Get? then accessed else now }
  }

  ghost predicate Descending<K, V>(order: seq<K>, slots: map<K, Lazy.Slot<V>>) {
    order != [] ==>
      && order[0] in slots
      && (forall k :: k in order[1..] ==> k in slots && slots[k].lastAccess < slots[order[0]].lastAccess)
      && Descending(order[1..], slots)
  }

  /** Same keys and values; the recency list is the keys by descending stamp. */
  ghost predicate Related<K, V>(s: Lazy.State<K, V>, l: Exact.Lru<K, V>) {
    && s.Valid() && l.Valid()
    && s.slots.Keys == l.items.Keys
    && (forall k :: k in s.slots ==> s.slots[k].value == l.items[k])
    && Descending(l.order, s.slots)
  }

  ghost predicate StampedBefore<K, V>(s: Lazy.State<K, V>, t: int) {
    forall k :: k in s.slots ==> s.slots[k].lastAccess < t
  }

  function LazyStep<K(==), V>(s: Lazy.State<K, V>, e: Event<K, V>, ttl: int, cap: int): (Lazy.State<K, V>, Option<V>)
    requires s.Valid()
  {
    match e
    case Get(key, checked, accessed) => Lazy.Get(s, key, checked, accessed)
    case Set(key, value, now) => (Lazy.Set(s, key, value, now, ttl, cap), None)
  }

  function ExactStep<K(==), V>(l: Exact.Lru<K, V>, e: Event<K, V>, cap: int): (Exact.Lru<K, V>, Option<V>) {
    match e
    case Get(key, _, _) => Exact.Get(l, key)
    case Set(key, value, _) => (Exact.Put(l, key, value, cap), None)
  }

  /** The lookup finds no expired entry. */
  ghost predicate NoLapse<K, V>(s: Lazy.State<K, V>, e: Event<K, V>) {
    e.Get? && e.key in s.slots ==> e.checked <= s.slots[e.key].expires
  }

  /** Stamps outside `key` unchanged, the list minus `key` still descends. */
  lemma {:induction false} WithoutDescends<K, V>(order: seq<K>, key: K,
                                              slots: map<K, Lazy.Slot<V>>, next: map<K, Lazy.Slot<V>>)
    requires Distinct(order) && Descending(order, slots)
    requires forall k :: k in order && k != key ==> k in slots && k in next && next[k].lastAccess == slots[k].lastAccess
    ensures Descending(Without(order, key), next)
  {
    if order != [] {
      WithoutDescends(order[1..], key, slots, next);
      WithoutDistinct(order[1..], key);
      if order[0] == key {
        assert Without(order[1..], key) == order[1..];
      } else {
        assert forall k :: k in Without(order[1..], key) ==> k in order[1..];
      }
    }
  }

  /** The key at the back of the recency list has the smallest stamp. */
  lemma {:induction false} BackIsLeast<K, V>(order: seq<K>, slots: map<K, Lazy.Slot<V>>)
    requires order != [] && Descending(order, slots)
    ensures var n := |order| - 1;
            && Descending(order[..n], slots)
            && (forall k :: k in order ==> k in slots)
            && (forall k :: k in order[..n] ==> slots[order[n]].lastAccess < slots[k].lastAccess)
  {
    var n := |order| - 1;
    if n > 0 {
      BackIsLeast(order[1..], slots);
      assert order[1..][..n - 1] == order[..n][1..];
      assert order[1..][n - 1] == order[n];
      assert forall k :: k in order[..n] <==> k == order[0] || k in order[..n][1..];
    }
  }

  /** On overflow the scan finds the key at the back of the recency list. */
  lemma SameVictim<K, V>(s: Lazy.State<K, V>, l: Exact.Lru<K, V>)
    requires Related(s, l) && l.order != []
    ensures s.order != [] && Lazy.Oldest(s.order, s.slots) == l.order[|l.order| - 1]
  {
    hide Descending, Distinct, Lazy.Oldest;
    BackIsLeast(l.order, s.slots);
    assert l.order == l.order[..|l.order| - 1] + [l.order[|l.order| - 1]];
    assert l.order[|l.order| - 1] in s.order;
    Lazy.OldestIsMinimal(s.order, s.slots);
  }

  lemma EvictionSimulates<K, V>(s: Lazy.State<K, V>, l: Exact.Lru<K, V>)
    requires Related(s, l) && l.order != []
    ensures Related(Lazy.Remove(s, l.order[|l.order| - 1]), Exact.DropLast(l))
  {
    var n := |l.order| - 1;
    var rest, back := l.order[..n], l.order[n];
    BackIsLeast(l.order, s.slots);
    Lazy.RemoveKeeps(s, back);
    WithoutDistinct(s.order, back);
    Exact.DropLastKeeps(l);
    WithoutDescends(rest, back, s.slots, s.slots - {back});
    assert Without(rest, back) == rest;
  }

  /** Stamping `key` last and moving it to the front keep the two in step. */
  lemma TouchSimulates<K, V>(s: Lazy.State<K, V>, l: Exact.Lru<K, V>, s': Lazy.State<K, V>, l': Exact.Lru<K, V>, key: K)
    requires Related(s, l) && s'.Valid() && key in s.slots
    requires s'.slots.Keys == s.slots.Keys == l'.items.Keys && l'.order == [key] + Without(l.order, key)
    requires forall k :: k in s.slots && k != key ==> s'.slots[k] == s.slots[k]
    requires forall k :: k in s.slots && k != key ==> s.slots[k].lastAccess < s'.slots[key].lastAccess
    requires forall k :: k in s'.slots ==> l'.items[k] == s'.slots[k].value
    ensures Related(s', l')
  {
    WithoutDistinct(l.order, key);
    assert l'.Valid() by {
      Exact.ToFrontKeeps(l, key);
      assert l'.order == Exact.Lru([key] + Without(l.order, key), l.items).order;
    }
    assert Descending(l'.order, s'.slots) by {
      WithoutDescends(l.order, key, s.slots, s'.slots);
      assert l'.order[1..] == Without(l.order, key);
    }
  }

  lemma HitSimulates<K, V>(s: Lazy.State<K, V>, l: Exact.Lru<K, V>, key: K, checked: int, accessed: int64)
    requires Related(s, l) && StampedBefore(s, accessed) && key in s.slots && checked <= s.slots[key].expires
    ensures Related(Lazy.Get(s, key, checked, accessed).0, Exact.Get(l, key).0)
  {
    Lazy.GetKeeps(s, key, checked, accessed);
    TouchSimulates(s, l, Lazy.Get(s, key, checked, accessed).0, Exact.Get(l, key).0, key);
  }

  lemma UpdateSimulates<K, V>(s: Lazy.State<K, V>, l: Exact.Lru<K, V>, key: K, value: V, now: int64, ttl: int, cap: int)
    requires Related(s, l) && StampedBefore(s, now) && key in s.slots
    ensures Related(Lazy.Set(s, key, value, now, ttl, cap), Exact.Put(l, key, value, cap))
  {
    Lazy.SetKeeps(s, key, value, now, ttl, cap);
    TouchSimulates(s, l, Lazy.Set(s, key, value, now, ttl, cap), Exact.Put(l, key, value, cap), key);
  }

  lemma PushDescends<K, V>(order: seq<K>, key: K, slots: map<K, Lazy.Slot<V>>, slot: Lazy.Slot<V>)
    requires Descending(order, slots) && key !in order && Distinct(order)
    requires forall k :: k in order ==> k in slots && slots[k].lastAccess < slot.lastAccess
    ensures Descending([key] + order, slots[key := slot])
  {
    hide Distinct;
    WithoutDescends(order, key, slots, slots[key := slot]);
    assert ([key] + order)[1..] == order;
  }

  lemma PushSimulates<K, V>(s: Lazy.State<K, V>, l: Exact.Lru<K, V>, key: K, slot: Lazy.Slot<V>)
    requires Related(s, l) && StampedBefore(s, slot.lastAccess) && key !in s.slots
    ensures Related(Lazy.Push(s, key, slot), Exact.Push(l, key, slot.value))
  {
    hide Descending, Distinct;
    Lazy.PushKeeps(s, key, slot);
    Exact.PushKeeps(l, key, slot.value);
    PushDescends(l.order, key, s.slots, slot);
  }

  lemma TrimSimulates<K, V>(t: Lazy.State<K, V>, u: Exact.Lru<K, V>, cap: int)
    requires Related(t, u) && t.order != [] && u.order != []
    ensures Related(Lazy.Trim(t, cap), Exact.Trim(u, cap))
  {
    assert |t.order| == |u.order| by { SameLength(t.order, u.order); }
    if |t.order| > cap {
      SameVictim(t, u);
      EvictionSimulates(t, u);
    }
  }

  lemma InsertSimulates<K, V>(s: Lazy.State<K, V>, l: Exact.Lru<K, V>, key: K, value: V, now: int64, ttl: int, cap: int)
    requires Related(s, l) && StampedBefore(s, now) && key !in s.slots
    ensures Related(Lazy.Set(s, key, value, now, ttl, cap), Exact.Put(l, key, value, cap))
  {
    var slot := Lazy.Slot(value, now + ttl, now);
    PushSimulates(s, l, key, slot);
    TrimSimulates(Lazy.Push(s, key, slot), Exact.Push(l, key, value), cap);
  }

  lemma StepSimulates<K, V>(s: Lazy.State<K, V>, l: Exact.Lru<K, V>, e: Event<K, V>, ttl: int, cap: int)
    requires Related(s, l) && StampedBefore(s, e.Stamp()) && NoLapse(s, e)
    ensures var (s', a), (l', b) := LazyStep(s, e, ttl, cap), ExactStep(l, e, cap);
            a == b && Related(s', l') && StampedBefore(s', e.Stamp() + 1)
  {
    match e
    case Get(key, checked, accessed) =>
      if key in s.slots {
        HitSimulates(s, l, key, checked, accessed);
      }
    case Set(key, value, now) =>
      Lazy.SetKeeps(s, key, value, now, ttl, cap);
      if key in s.slots {
        UpdateSimulates(s, l, key, value, now, ttl, cap);
      } else {
        InsertSimulates(s, l, key, value, now, ttl, cap);
      }
  }

  // ---------------------------------------------------------------- whole runs

  function LazyRun<K(==), V>(s: Lazy.State<K, V>, es: seq<Event<K, V>>, ttl: int, cap: int)
    : (Lazy.State<K, V>, seq<Option<V>>)
    requires s.Valid()
    decreases es
  {
    if es == [] then (s, []) else
      StepKeeps(s, es[0], ttl, cap);
      var (t, a) := LazyStep(s, es[0], ttl, cap);
      var (u, rest) := LazyRun(t, es[1..], ttl, cap);
      (u, [a] + rest)
  }

  function ExactRun<K(==), V>(l: Exact.Lru<K, V>, es: seq<Event<K, V>>, cap: int): (Exact.Lru<K, V>, seq<Option<V>>)
    decreases es
  {
    if es == [] then (l, []) else
      var (t, a) := ExactStep(l, es[0], cap);
      var (u, rest) := ExactRun(t, es[1..], cap);
      (u, [a] + rest)
  }

  lemma StepKeeps<K, V>(s: Lazy.State<K, V>, e: Event<K, V>, ttl: int, cap: int)
    requires s.Valid()
    ensures LazyStep(s, e, ttl, cap).0.Valid()
  {
    if e.Get? { Lazy.GetKeeps(s, e.key, e.checked, e.accessed); }
    else { Lazy.SetKeeps(s, e.key, e.value, e.now, ttl, cap); }
  }

  /** Every stamp is later than the one before it, and no lookup finds an expired entry. */
  ghost predicate OrderlyRun<K, V>(s: Lazy.State<K, V>, es: seq<Event<K, V>>, clock: int, ttl: int, cap: int)
    requires s.Valid()
    decreases es
  {
    es == [] || (
      StepKeeps(s, es[0], ttl, cap);
      && clock <= es[0].Stamp() && NoLapse(s, es[0])
      && OrderlyRun(LazyStep(s, es[0], ttl, cap).0, es[1..], es[0].Stamp() + 1, ttl, cap))
  }

  /** For every orderly run: the same answers, and afterwards the same keys with the same values in
    * the same recency order. It holds of every prefix too, so the same keys are evicted in step. */
  lemma {:induction false} RunsAgree<K, V>(s: Lazy.State<K, V>, l: Exact.Lru<K, V>, es: seq<Event<K, V>>,
                                        clock: int, ttl: int, cap: int)
    requires Related(s, l) && StampedBefore(s, clock) && OrderlyRun(s, es, clock, ttl, cap)
    ensures LazyRun(s, es, ttl, cap).1 == ExactRun(l, es, cap).1
    ensures Related(LazyRun(s, es, ttl, cap).0, ExactRun(l, es, cap).0)
    decreases es
  {
    if es != [] {
      StepKeeps(s, es[0], ttl, cap);
      StepSimulates(s, l, es[0], ttl, cap);
      RunsAgree(LazyStep(s, es[0], ttl, cap).0, ExactStep(l, es[0], cap).0, es[1..], es[0].Stamp() + 1, ttl, cap);
    }
  }

  lemma FromEmpty<K, V>(es: seq<Event<K, V>>, ttl: int, cap: int)
    requires es != [] ==> OrderlyRun(Lazy.Empty<K, V>(), es, es[0].Stamp(), ttl, cap)
    ensures LazyRun(Lazy.Empty<K, V>(), es, ttl, cap).1 == ExactRun(Exact.Lru([], map[]), es, cap).1
  {
    if es != [] {
      RunsAgree(Lazy.Empty<K, V>(), Exact.Lru([], map[]), es, es[0].Stamp(), ttl, cap);
    }
  }

  /** Among equal stamps the scan takes the entry at the back of the list. */
  lemma EqualStampsBack<K, V>(order: seq<K>, slots: map<K, Lazy.Slot<V>>, t: int)
    requires order != [] && forall k :: k in order ==> k in slots && slots[k].lastAccess == t
    ensures Lazy.Oldest(order, slots) == order[|order| - 1]
  {}

  /** The clock has to move: after a hit on the older of two entries that gets the stamp the other
    * already has, the hindmost list position decides, which the hit did not change, and the next
    * insertion makes the two caches evict different keys. */
  lemma EqualStampsDiffer<K, V>(s: Lazy.State<K, V>, l: Exact.Lru<K, V>, a: K, b: K, c: K, v: V, t: int64, ttl: int)
    requires Related(s, l) && s.order == [b, a] && l.order == [b, a] && c !in s.slots && a != b
    requires s.slots[b].lastAccess == t && t <= s.slots[a].expires
    ensures var s', l' := Lazy.Get(s, a, t, t).0, Exact.Get(l, a).0;
            && s'.Valid()
            && a !in Lazy.Set(s', c, v, t, ttl, 2).slots
            && a in Exact.Put(l', c, v, 2).items
  {
    LazyEvictsHit(s, a, b, c, v, t, ttl);
    ExactKeepsHit(l, a, b, c, v);
  }

  /** A hit at the stamp the other entry has. */
  lemma AllEqual<K, V>(s: Lazy.State<K, V>, a: K, b: K, t: int64)
    requires s.Valid() && s.order == [b, a] && s.slots[b].lastAccess == t && t <= s.slots[a].expires
    ensures var s' := Lazy.Get(s, a, t, t).0;
            s'.order == [b, a] && forall k :: k in s'.order ==> k in s'.slots && s'.slots[k].lastAccess == t
  {}

  lemma TrimEvicts<K, V>(s: Lazy.State<K, V>, cap: int)
    requires s.order != [] && (forall k :: k in s.order ==> k in s.slots) && |s.order| > cap
    ensures Lazy.Oldest(s.order, s.slots) !in Lazy.Trim(s, cap).slots
  {
    hide Without;
  }

  lemma LazyEvictsHit<K, V>(s: Lazy.State<K, V>, a: K, b: K, c: K, v: V, t: int64, ttl: int)
    requires s.Valid() && s.order == [b, a] && c !in s.slots && a != b
    requires s.slots[b].lastAccess == t && t <= s.slots[a].expires
    ensures var s' := Lazy.Get(s, a, t, t).0;
            s'.Valid() && a !in Lazy.Set(s', c, v, t, ttl, 2).slots
  {
    hide Lazy.Oldest, Distinct, Without, Lazy.Trim;
    Lazy.GetKeeps(s, a, t, t);
    var s' := Lazy.Get(s, a, t, t).0;
    var pushed := Lazy.Push(s', c, Lazy.Slot(v, t + ttl, t));
    assert pushed.order == [c] + [b, a];
    AllEqual(s, a, b, t);
    EqualStampsBack(pushed.order, pushed.slots, t);
    TrimEvicts(pushed, 2);
  }

  lemma ExactKeepsHit<K, V>(l: Exact.Lru<K, V>, a: K, b: K, c: K, v: V)
    requires l.Valid() && l.order == [b, a] && c !in l.items && a != b
    ensures a in Exact.Put(Exact.Get(l, a).0, c, v, 2).items
  {
    hide Distinct;
    var l' := Exact.Get(l, a).0;
    assert Without([a], a) == [] && Without(l.order, a) == [b] + Without(l.order[1..], a);
    assert l'.order == [a, b];
    assert Exact.Push(l', c, v).order == [c, a, b];
  }
}
