/** The shortener's exact move-to-front LRU (internal/shortener/shortener.go). */
module LruModel {
  import opened Common
  import opened LinkedKeys

  /** order is the recency list, most recently used first. */
  datatype Lru<K(==), V> = Lru(order: seq<K>, items: map<K, V>) {
    ghost predicate Valid() {
      Distinct(order) && (forall k :: k in order ==> k in items) && forall k :: k in items ==> k in order
    }
  }

  function Get<K(==), V>(l: Lru<K, V>, key: K): (Lru<K, V>, Option<V>) {
    if key !in l.items then (l, None)
    else (Lru([key] + Without(l.order, key), l.items), Some(l.items[key]))
  }

  function DropLast<K(==), V>(l: Lru<K, V>): Lru<K, V>
    requires l.order != []
  {
    var n := |l.order| - 1;
    Lru(l.order[..n], l.items - {l.order[n]})
  }

  function Push<K(==), V>(l: Lru<K, V>, key: K, value: V): Lru<K, V> {
    Lru([key] + l.order, l.items[key := value])
  }

  function Trim<K(==), V>(l: Lru<K, V>, cap: int): Lru<K, V>
    requires l.order != []
  {
    if |l.order| > cap then DropLast(l) else l
  }

  function Put<K(==), V>(l: Lru<K, V>, key: K, value: V, cap: int): Lru<K, V> {
    if key in l.items then Lru([key] + Without(l.order, key), l.items[key := value])
    else Trim(Push(l, key, value), cap)
  }

  lemma ToFrontKeeps<K, V>(l: Lru<K, V>, key: K)
    requires l.Valid() && key in l.items
    ensures Lru([key] + Without(l.order, key), l.items).Valid()
  {
    WithoutDistinct(l.order, key);
    var r := [key] + Without(l.order, key);
    assert forall k :: k in r <==> k == key || k in Without(l.order, key);
  }

  lemma PushKeeps<K, V>(l: Lru<K, V>, key: K, value: V)
    requires l.Valid() && key !in l.items
    ensures Push(l, key, value).Valid()
  {
    assert forall k :: k in [key] + l.order <==> k == key || k in l.order;
  }

  lemma DropLastKeeps<K, V>(l: Lru<K, V>)
    requires l.Valid() && l.order != []
    ensures DropLast(l).Valid()
  {
    var n := |l.order| - 1;
    assert l.order == l.order[..n] + [l.order[n]];
    assert forall k :: k in l.order <==> k in l.order[..n] || k == l.order[n];
  }

  /** Recency list and map stay in step, and the size stays within any bound that admits an entry. */
  lemma PutKeeps<K, V>(l: Lru<K, V>, key: K, value: V, cap: int)
    requires l.Valid()
    ensures Put(l, key, value, cap).Valid()
    ensures 0 <= cap && |l.order| <= cap ==> |Put(l, key, value, cap).order| <= cap
  {
    if key in l.items {
      ToFrontKeeps(l, key);
      WithoutDistinct(l.order, key);
    } else {
      PushKeeps(l, key, value);
      DropLastKeeps(Push(l, key, value));
    }
  }
}

/** The list-and-map implementation of LruModel. As in LazyCache, a list element is named by its key. */
module ExactLru {
  import opened Common
  import opened LinkedKeys
  import opened LruModel

  class LruCache<K(==), V> {
    const cap: int
    var items: map<K, V>
    var order: seq<K>

    ghost function View(): Lru<K, V>
      reads this
    {
      Lru(order, items)
    }

    ghost predicate Valid()
      reads this
    {
      View().Valid()
    }

    constructor (cap: int)
      ensures Valid() && View() == Lru([], map[]) && this.cap == cap
    {
      this.cap, items, order := cap, map[], [];
    }

    /** get */
    method Get(key: K) returns (r: Option<V>)
      requires Valid()
      modifies this
      ensures Valid() && (View(), r) == LruModel.Get(old(View()), key)
    {
      if key !in items {
        return None;
      }
      ToFrontKeeps(View(), key);
      order := [key] + Without(order, key);
      return Some(items[key]);
    }

    /** put */
    method Put(key: K, value: V)
      requires Valid()
      modifies this
      ensures Valid() && View() == LruModel.Put(old(View()), key, value, cap)
    {
      PutKeeps(View(), key, value, cap);
      if key in items {
        items := items[key := value];
        order := [key] + Without(order, key);
        return;
      }
      order := [key] + order;
      items := items[key := value];
      if |order| > cap {
        var oldest := order[|order| - 1];
        order := order[..|order| - 1];
        items := items - {oldest};
      }
    }
  }
}
