/** What the store's bounded TTL cache with lazy-LRU eviction does to its list and map, one
  * function per operation (internal/store/cache.go): a hit only stamps lastAccess, and an
  * insertion over capacity evicts the oldest stamp. */
module CacheModel {
  import opened Common
  import opened LinkedKeys

  datatype Slot<V> = Slot(value: V, expires: int, lastAccess: int64)

  /** order is the list, front (most recently inserted or updated) first. */
  datatype State<K(==), V> = State(order: seq<K>, slots: map<K, Slot<V>>) {
    ghost predicate Valid() {
      Distinct(order) && (forall k :: k in order ==> k in slots) && forall k :: k in slots ==> k in order
    }
  }

  function Empty<K(==), V>(): State<K, V> { State([], map[]) }

  function Remove<K(==), V>(s: State<K, V>, key: K): State<K, V> {
    State(Without(s.order, key), s.slots - {key})
  }

  function Invalidate<K(==), V>(s: State<K, V>, key: K): State<K, V> {
    if key in s.slots then Remove(s, key) else s
  }

  /** A lookup reads the clock twice: once for the expiry test, once for the access stamp. */
  function Get<K(==), V>(s: State<K, V>, key: K, checked: int, accessed: int64): (State<K, V>, Option<V>) {
    if key !in s.slots then (s, None)
    else if checked > s.slots[key].expires then (Remove(s, key), None)
    else (s.(slots := s.slots[key := s.slots[key].(lastAccess := accessed)]), Some(s.slots[key].value))
  }

  /** The entry evictBack picks: the hindmost of those with the smallest stamp. */
  function Oldest<K(==), V>(order: seq<K>, slots: map<K, Slot<V>>): (k: K)
    requires order != [] && forall k :: k in order ==> k in slots
    ensures k in order
  {
    var last := order[|order| - 1];
    if |order| == 1 then last else
      var k := Oldest(order[..|order| - 1], slots);
      if slots[last].lastAccess <= slots[k].lastAccess then last else k
  }

  /** The insertion of a new key. */
  function Push<K(==), V>(s: State<K, V>, key: K, slot: Slot<V>): (t: State<K, V>)
    requires s.Valid()
    ensures t.order != [] && forall k :: k in t.order ==> k in t.slots
  {
    State([key] + s.order, s.slots[key := slot])
  }

  /** One eviction when the list has outgrown the bound. */
  function Trim<K(==), V>(t: State<K, V>, maxSize: int): State<K, V>
    requires t.order != [] && forall k :: k in t.order ==> k in t.slots
  {
    if |t.order| > maxSize then Remove(t, Oldest(t.order, t.slots)) else t
  }

  function Set<K(==), V>(s: State<K, V>, key: K, value: V, now: int64, ttl: int, maxSize: int): State<K, V>
    requires s.Valid()
  {
    var slot := Slot(value, now + ttl, now);
    if key in s.slots then State([key] + Without(s.order, key), s.slots[key := slot])
    else Trim(Push(s, key, slot), maxSize)
  }

  /** sweep's walk over the list elements it has yet to visit. */
  function SweepList<K(==), V>(s: State<K, V>, keys: seq<K>, now: int): State<K, V>
    decreases keys
  {
    if keys == [] then s
    else if keys[0] in s.slots && now > s.slots[keys[0]].expires then SweepList(Remove(s, keys[0]), keys[1..], now)
    else SweepList(s, keys[1..], now)
  }

  function Sweep<K(==), V>(s: State<K, V>, now: int): State<K, V> {
    SweepList(s, s.order, now)
  }

  /** One step of the walk. */
  lemma SweepListStep<K, V>(s: State<K, V>, keys: seq<K>, i: nat, now: int)
    requires i < |keys|
    ensures SweepList(s, keys[i..], now) ==
            SweepList(if keys[i] in s.slots && now > s.slots[keys[i]].expires then Remove(s, keys[i]) else s,
                      keys[i + 1..], now)
  {
    hide Remove;
    assert keys[i..] == [keys[i]] + keys[i + 1..];
  }

  lemma SweepListEnds<K, V>(s: State<K, V>, keys: seq<K>, now: int)
    ensures SweepList(s, keys[|keys|..], now) == s
    ensures SweepList(s, keys[0..], now) == SweepList(s, keys, now)
  {
    assert keys[0..] == keys;
  }

  /** Eviction is by age: no entry has an older stamp than the victim. */
  lemma {:induction false} OldestIsMinimal<K, V>(order: seq<K>, slots: map<K, Slot<V>>)
    requires order != [] && forall k :: k in order ==> k in slots
    ensures forall k :: k in order ==> slots[Oldest(order, slots)].lastAccess <= slots[k].lastAccess
  {
    if |order| > 1 {
      var rest := order[..|order| - 1];
      OldestIsMinimal(rest, slots);
      assert order == rest + [order[|order| - 1]];
    }
  }

  /** Among equal stamps the entry furthest back goes: what lies behind the victim is younger. */
  lemma {:induction false} OldestIsHindmost<K, V>(order: seq<K>, slots: map<K, Slot<V>>) returns (i: nat)
    requires order != [] && forall k :: k in order ==> k in slots
    ensures i < |order| && order[i] == Oldest(order, slots)
    ensures forall j :: i < j < |order| ==> slots[order[i]].lastAccess < slots[order[j]].lastAccess
  {
    i := |order| - 1;
    var rest := order[..i];
    if i > 0 && slots[order[i]].lastAccess > slots[Oldest(rest, slots)].lastAccess {
      i := OldestIsHindmost(rest, slots);
      assert forall j :: 0 <= j < |rest| ==> rest[j] == order[j];
    }
  }

  /** One step of the scan. */
  lemma OldestStep<K, V>(order: seq<K>, slots: map<K, Slot<V>>, i: nat)
    requires i < |order| && forall k :: k in order ==> k in slots
    ensures i == 0 ==> Oldest(order[..1], slots) == order[0]
    ensures i > 0 ==> Oldest(order[..i + 1], slots) ==
                        if slots[order[i]].lastAccess <= slots[Oldest(order[..i], slots)].lastAccess
                        then order[i] else Oldest(order[..i], slots)
  {
    assert order[..i + 1][..i] == order[..i];
  }

  lemma RemoveKeeps<K, V>(s: State<K, V>, key: K)
    requires s.Valid()
    ensures Remove(s, key).Valid()
    ensures |Remove(s, key).order| == if key in s.slots then |s.order| - 1 else |s.order|
  {
    WithoutDistinct(s.order, key);
  }

  lemma PushKeeps<K, V>(s: State<K, V>, key: K, slot: Slot<V>)
    requires s.Valid() && key !in s.slots
    ensures Push(s, key, slot).Valid()
  {
    assert forall k :: k in [key] + s.order <==> k == key || k in s.order;
  }

  /** A set keeps list and map in step, keeps the new entry unless it is evicted on the spot, and
    * keeps the size within the bound for every bound that admits an entry. */
  lemma SetKeeps<K, V>(s: State<K, V>, key: K, value: V, now: int64, ttl: int, maxSize: int)
    requires s.Valid()
    ensures var t := Set(s, key, value, now, ttl, maxSize);
            && t.Valid()
            && (0 <= maxSize && |s.order| <= maxSize ==> |t.order| <= maxSize)
            && t.slots.Keys <= s.slots.Keys + {key}
            && (forall k :: k in t.slots && k != key ==> t.slots[k] == s.slots[k])
            && (key in t.slots ==> t.slots[key] == Slot(value, now + ttl, now))
  {
    if key in s.slots {
      WithoutDistinct(s.order, key);
      var order := [key] + Without(s.order, key);
      assert forall k :: k in order <==> k == key || k in Without(s.order, key);
    } else {
      PushKeeps(s, key, Slot(value, now + ttl, now));
      var t := Push(s, key, Slot(value, now + ttl, now));
      RemoveKeeps(t, Oldest(t.order, t.slots));
    }
  }

  lemma {:induction false} SweepListKeeps<K, V>(s: State<K, V>, keys: seq<K>, now: int)
    requires s.Valid()
    ensures var t := SweepList(s, keys, now);
            && t.Valid()
            && (forall k :: k in t.slots ==> k in s.slots && t.slots[k] == s.slots[k])
            && (forall k :: k in s.slots ==> (k in t.slots <==> k !in keys || now <= s.slots[k].expires))
    decreases keys
  {
    if keys != [] {
      RemoveKeeps(s, keys[0]);
      if keys[0] in s.slots && now > s.slots[keys[0]].expires {
        SweepListKeeps(Remove(s, keys[0]), keys[1..], now);
      } else {
        SweepListKeeps(s, keys[1..], now);
      }
    }
  }

  /** A sweep removes the expired entries and nothing else. */
  lemma SweepKeeps<K, V>(s: State<K, V>, now: int)
    requires s.Valid()
    ensures Sweep(s, now).Valid()
    ensures Sweep(s, now).slots == map k | k in s.slots && now <= s.slots[k].expires :: s.slots[k]
  {
    SweepListKeeps(s, s.order, now);
  }

  lemma GetKeeps<K, V>(s: State<K, V>, key: K, checked: int, accessed: int64)
    requires s.Valid()
    ensures Get(s, key, checked, accessed).0.Valid()
  {
    RemoveKeeps(s, key);
  }

  /** Sweeping early is invisible: a lookup no earlier than the sweep answers the same. */
  lemma SweepIsInvisible<K, V>(s: State<K, V>, now: int, key: K, checked: int, accessed: int64)
    requires s.Valid() && now <= checked
    ensures Get(Sweep(s, now), key, checked, accessed).1 == Get(s, key, checked, accessed).1
  {
    SweepKeeps(s, now);
  }

  /** As long as the cache has room, a set is answered with its value until the entry expires, and
    * with nothing afterwards; lookups of other keys are answered as before. */
  lemma SetThenGet<K, V>(s: State<K, V>, key: K, value: V, now: int64, ttl: int, maxSize: int,
                         other: K, checked: int, accessed: int64)
    requires s.Valid() && (key in s.slots || |s.order| < maxSize)
    ensures var t := Set(s, key, value, now, ttl, maxSize);
            && Get(t, key, checked, accessed).1 == (if checked <= now + ttl then Some(value) else None)
            && (other != key ==> Get(t, other, checked, accessed).1 == Get(s, other, checked, accessed).1)
  {}

  /** The front of the list is evicted only when everything behind it is younger. */
  lemma FrontGoesLast<K, V>(order: seq<K>, slots: map<K, Slot<V>>)
    requires order != [] && Distinct(order) && forall k :: k in order ==> k in slots
    requires Oldest(order, slots) == order[0]
    ensures forall j :: 0 < j < |order| ==> slots[order[0]].lastAccess < slots[order[j]].lastAccess
  {
    hide Oldest;
    var i := OldestIsHindmost(order, slots);
    assert i == 0;
  }

  /** When it has none, the insertion costs exactly one entry k, which is the new one only if every
    * other was stamped later. */
  lemma SetEvictsOne<K, V>(s: State<K, V>, key: K, value: V, now: int64, ttl: int, maxSize: int) returns (k: K)
    requires s.Valid() && key !in s.slots && |s.order| == maxSize
    ensures var t := Set(s, key, value, now, ttl, maxSize);
            && |t.order| == maxSize
            && k in s.slots.Keys + {key} && t.slots == s.slots[key := Slot(value, now + ttl, now)] - {k}
    ensures k == key ==> forall j :: j in s.order ==> now < s.slots[j].lastAccess
  {
    hide Oldest, Distinct;
    var slot := Slot(value, now + ttl, now);
    PushKeeps(s, key, slot);
    var p := Push(s, key, slot);
    k := Oldest(p.order, p.slots);
    RemoveKeeps(p, k);
    if k == key {
      FrontGoesLast(p.order, p.slots);
      forall j | j in s.order ensures now < s.slots[j].lastAccess {
        var n :| 0 <= n < |s.order| && s.order[n] == j;
        assert p.order[n + 1] == j;
      }
    }
  }

  // ---------------------------------------------------------------- the lifetime of an entry

  /** A lookup drops the entry it finds expired and nothing else; a hit stamps the entry and leaves
    * its value, its expiry and its place in the list alone, so it does not prolong its life. */
  lemma GetFrame<K, V>(s: State<K, V>, key: K, checked: int, accessed: int64)
    requires s.Valid()
    ensures var (t, hit) := Get(s, key, checked, accessed);
            && (forall k :: k in t.slots <==> k in s.slots && (k != key || checked <= s.slots[k].expires))
            && (forall k :: k in t.slots ==>
                  t.slots[k].value == s.slots[k].value && t.slots[k].expires == s.slots[k].expires)
            && (forall k :: k in t.slots && k != key ==> t.slots[k] == s.slots[k])
            && (hit.Some? <==> key in t.slots)
            && (hit.Some? ==> t.order == s.order && t.slots[key].lastAccess == accessed)
  {
    RemoveKeeps(s, key);
  }

  /** One call of the cache. */
  datatype Op<K, V> =
    | Lookup(key: K, checked: int, accessed: int64)
    | Put(key: K, value: V, now: int64)
    | Drop(key: K)
    | Clean(at: int)

  function Do<K(==), V>(s: State<K, V>, op: Op<K, V>, ttl: int, maxSize: int): (t: State<K, V>)
    requires s.Valid()
    ensures t.Valid()
  {
    match op
    case Lookup(key, checked, accessed) => GetKeeps(s, key, checked, accessed); Get(s, key, checked, accessed).0
    case Put(key, value, now) => SetKeeps(s, key, value, now, ttl, maxSize); Set(s, key, value, now, ttl, maxSize)
    case Drop(key) => RemoveKeeps(s, key); Invalidate(s, key)
    case Clean(at) => SweepKeeps(s, at); Sweep(s, at)
  }

  /** An empty cache after the calls. */
  function Run<K(==), V>(ops: seq<Op<K, V>>, ttl: int, maxSize: int): (t: State<K, V>)
    ensures t.Valid()
  {
    if ops == [] then Empty() else Do(Run(ops[..|ops| - 1], ttl, maxSize), ops[|ops| - 1], ttl, maxSize)
  }

  /** The last set of the key that no invalidation follows. */
  function LastPut<K(==), V>(ops: seq<Op<K, V>>, key: K): (p: Option<Op<K, V>>)
    ensures p.Some? ==> p.value.Put? && p.value.key == key && p.value in ops
  {
    if ops == [] then None
    else
      var op := ops[|ops| - 1];
      if op.Put? && op.key == key then Some(op)
      else if op.Drop? && op.key == key then None
      else LastPut(ops[..|ops| - 1], key)
  }

  ghost predicate HoldsLast<K, V>(s: State<K, V>, ops: seq<Op<K, V>>, ttl: int, key: K) {
    key in s.slots ==>
      && LastPut(ops, key).Some?
      && s.slots[key].value == LastPut(ops, key).value.value
      && s.slots[key].expires == LastPut(ops, key).value.now + ttl
  }

  /** No call makes an entry out of nothing, and none but a set of its key changes its value or expiry. */
  lemma DoFrame<K, V>(s: State<K, V>, op: Op<K, V>, ttl: int, maxSize: int, key: K)
    requires s.Valid() && key in Do(s, op, ttl, maxSize).slots
    ensures var slot := Do(s, op, ttl, maxSize).slots[key];
            && !(op.Drop? && op.key == key)
            && if op.Put? && op.key == key then slot.value == op.value && slot.expires == op.now + ttl
               else key in s.slots && slot.value == s.slots[key].value && slot.expires == s.slots[key].expires
  {
    hide Set, Sweep, Get;
    match op
    case Lookup(k, checked, accessed) => GetFrame(s, k, checked, accessed);
    case Put(k, value, now) => SetKeeps(s, k, value, now, ttl, maxSize);
    case Drop(k) =>
    case Clean(at) => SweepKeeps(s, at);
  }

  lemma {:induction false} RunHoldsLast<K, V>(ops: seq<Op<K, V>>, ttl: int, maxSize: int, key: K)
    ensures HoldsLast(Run(ops, ttl, maxSize), ops, ttl, key)
  {
    hide Do;
    if ops != [] && key in Run(ops, ttl, maxSize).slots {
      var before := ops[..|ops| - 1];
      RunHoldsLast(before, ttl, maxSize, key);
      DoFrame(Run(before, ttl, maxSize), ops[|ops| - 1], ttl, maxSize, key);
    }
  }

  /** Whatever was called before, and however often the entry was hit: an answer is the value that was
    * last set, not invalidated since, and set no longer than the lifetime ago. */
  lemma AnswersAreFresh<K, V>(ops: seq<Op<K, V>>, ttl: int, maxSize: int, key: K, checked: int, accessed: int64)
    ensures var answer := Get(Run(ops, ttl, maxSize), key, checked, accessed).1;
            answer.Some? ==>
              && LastPut(ops, key).Some? && answer.value == LastPut(ops, key).value.value
              && checked <= LastPut(ops, key).value.now + ttl
  {
    hide Run, LastPut;
    RunHoldsLast(ops, ttl, maxSize, key);
  }

  function Puts<K, V>(ops: seq<Op<K, V>>): nat {
    if ops == [] then 0 else Puts(ops[..|ops| - 1]) + if ops[|ops| - 1].Put? then 1 else 0
  }

  /** No clock reading of the calls is later. */
  predicate ClockedBy<K, V>(ops: seq<Op<K, V>>, now: int) {
    forall i :: 0 <= i < |ops| ==>
      (ops[i].Lookup? ==> ops[i].checked <= now) && (ops[i].Clean? ==> ops[i].at <= now)
  }

  lemma DoLoses<K, V>(s: State<K, V>, op: Op<K, V>, ttl: int, maxSize: int, key: K)
    requires s.Valid() && (op.Put? ==> |s.order| < maxSize)
    ensures var t := Do(s, op, ttl, maxSize);
            && |t.order| <= |s.order| + (if op.Put? then 1 else 0)
            && (op.Put? && op.key == key ==> key in t.slots)
            && (key in s.slots && key !in t.slots ==>
                  || (op.Drop? && op.key == key)
                  || (op.Lookup? && op.checked > s.slots[key].expires)
                  || (op.Clean? && op.at > s.slots[key].expires))
  {
    match op
    case Lookup(k, checked, accessed) => RemoveKeeps(s, k);
    case Put(k, value, now) => WithoutShorter(s.order, k);
    case Drop(k) => RemoveKeeps(s, k);
    case Clean(at) => SweepKeeps(s, at); SweepShorter(s, s.order, at);
  }

  lemma {:induction false} WithoutShorter<K>(s: seq<K>, key: K)
    ensures |Without(s, key)| <= |s|
  {
    if s != [] { WithoutShorter(s[1..], key); }
  }

  lemma {:induction false} SweepShorter<K, V>(s: State<K, V>, keys: seq<K>, now: int)
    ensures |SweepList(s, keys, now).order| <= |s.order|
    decreases keys
  {
    if keys != [] {
      WithoutShorter(s.order, keys[0]);
      SweepShorter(Remove(s, keys[0]), keys[1..], now);
      SweepShorter(s, keys[1..], now);
    }
  }

  lemma {:induction false} RunKeepsFresh<K, V>(ops: seq<Op<K, V>>, ttl: int, maxSize: int, key: K, now: int)
    requires Puts(ops) <= maxSize && ClockedBy(ops, now)
    ensures |Run(ops, ttl, maxSize).order| <= Puts(ops)
    ensures LastPut(ops, key).Some? && now <= LastPut(ops, key).value.now + ttl ==> key in Run(ops, ttl, maxSize).slots
  {
    hide Do;
    if ops != [] {
      var before, op := ops[..|ops| - 1], ops[|ops| - 1];
      assert ClockedBy(before, now) by { assert forall i :: 0 <= i < |before| ==> before[i] == ops[i]; }
      RunKeepsFresh(before, ttl, maxSize, key, now);
      RunHoldsLast(before, ttl, maxSize, key);
      DoLoses(Run(before, ttl, maxSize), op, ttl, maxSize, key);
    }
  }

  /** With room for all that is set, the answers are exactly those: a lookup no earlier than the calls
    * before it answers the value last set if it was not invalidated and its lifetime has not passed,
    * and otherwise nothing. */
  lemma AnswersExactly<K, V>(ops: seq<Op<K, V>>, ttl: int, maxSize: int, key: K, checked: int, accessed: int64)
    requires Puts(ops) <= maxSize && ClockedBy(ops, checked)
    ensures Get(Run(ops, ttl, maxSize), key, checked, accessed).1 ==
            var last := LastPut(ops, key);
            if last.Some? && checked <= last.value.now + ttl then Some(last.value.value) else None
  {
    hide Run, LastPut;
    RunHoldsLast(ops, ttl, maxSize, key);
    RunKeepsFresh(ops, ttl, maxSize, key, checked);
  }

  // ---------------------------------------------------------------- the list

  ghost predicate Descending<K(!new)>(s: seq<K>, rank: K -> int) {
    forall i, j :: 0 <= i < j < |s| ==> rank(s[i]) > rank(s[j])
  }

  lemma {:induction false} WithoutDescends<K(!new)>(s: seq<K>, x: K, rank: K -> int)
    requires Descending(s, rank)
    ensures Descending(Without(s, x), rank)
  {
    if s != [] {
      assert forall i :: 0 <= i < |s[1..]| ==> s[1..][i] == s[i + 1];
      WithoutDescends(s[1..], x, rank);
      assert forall y :: y in Without(s[1..], x) ==> y in s[1..];
      assert forall y :: y in s[1..] ==> rank(s[0]) > rank(y);
    }
  }

  lemma {:induction false} SweepDescends<K(!new), V>(s: State<K, V>, keys: seq<K>, now: int, rank: K -> int)
    requires Descending(s.order, rank)
    ensures Descending(SweepList(s, keys, now).order, rank)
    decreases keys
  {
    if keys != [] {
      WithoutDescends(s.order, keys[0], rank);
      SweepDescends(Remove(s, keys[0]), keys[1..], now, rank);
      SweepDescends(s, keys[1..], now, rank);
    }
  }

  lemma PrependDescends<K(!new)>(s: seq<K>, key: K, before: K -> int, after: K -> int)
    requires Descending(s, before) && key !in s
    requires forall k :: k in s ==> after(k) == before(k) < after(key)
    ensures Descending([key] + s, after)
  {
    assert forall i :: 0 <= i < |s| ==> s[i] in s;
  }

  lemma PutDescends<K(!new), V>(s: State<K, V>, key: K, value: V, now: int64, ttl: int, maxSize: int,
                                before: K -> int, after: K -> int)
    requires s.Valid() && Descending(s.order, before)
    requires forall k :: k != key ==> after(k) == before(k) < after(key)
    ensures Descending(Set(s, key, value, now, ttl, maxSize).order, after)
  {
    WithoutDistinct(s.order, key);
    WithoutDescends(s.order, key, before);
    PrependDescends(Without(s.order, key), key, before, after);
    if key !in s.slots {
      var t := Push(s, key, Slot(value, now + ttl, now));
      WithoutDescends(t.order, Oldest(t.order, t.slots), after);
    }
  }

  /** How many calls there had been when the key was last set. */
  function WrittenAt<K(==), V>(ops: seq<Op<K, V>>, key: K): (n: nat)
    ensures n <= |ops|
  {
    if ops == [] then 0
    else if ops[|ops| - 1].Put? && ops[|ops| - 1].key == key then |ops|
    else WrittenAt(ops[..|ops| - 1], key)
  }

  /** The list is in the order of the sets, the last one in front: lookups do not move entries, and
    * among entries with the same stamp the eviction scan takes the one that was set first. */
  lemma {:induction false} ListIsByWrite<K(!new), V>(ops: seq<Op<K, V>>, ttl: int, maxSize: int)
    ensures Descending(Run(ops, ttl, maxSize).order, k => WrittenAt(ops, k))
  {
    if ops != [] {
      var before, op := ops[..|ops| - 1], ops[|ops| - 1];
      var s := Run(before, ttl, maxSize);
      var old', new' := (k => WrittenAt(before, k)), (k => WrittenAt(ops, k));
      ListIsByWrite(before, ttl, maxSize);
      assert !op.Put? ==> Descending(s.order, new');
      match op
      case Lookup(k, checked, accessed) => WithoutDescends(s.order, k, new');
      case Put(k, value, now) => PutDescends(s, k, value, now, ttl, maxSize, old', new');
      case Drop(k) => WithoutDescends(s.order, k, new');
      case Clean(at) => SweepDescends(s, s.order, at, new');
    }
  }
}
