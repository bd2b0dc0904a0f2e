/** The cache itself (internal/store/cache.go): a map and a list that its methods update in place,
  * proved against the functions of CacheModel. */
module LazyCache {
  import opened Common
  import opened LinkedKeys
  import opened CacheModel

  /** A list element is named by its key: keys are unique, and the entry it holds is entries[key]. */
  class Cache<K(==), V> {
    var entries: map<K, Slot<V>>
    var ll: seq<K>
    const maxSize: int
    const ttl: int

    ghost function View(): State<K, V>
      reads this
    {
      State(ll, entries)
    }

    ghost predicate Valid()
      reads this
    {
      View().Valid()
    }

    constructor (maxSize: int, ttl: int)
      ensures Valid() && View() == Empty() && this.maxSize == maxSize && this.ttl == ttl
    {
      entries, ll := map[], [];
      this.maxSize, this.ttl := maxSize, ttl;
    }

    /** removeElement */
    method RemoveElement(key: K)
      requires Valid()
      modifies this
      ensures Valid() && View() == Remove(old(View()), key)
    {
      RemoveKeeps(View(), key);
      entries := entries - {key};
      ll := Without(ll, key);
    }

    method Get(key: K, checked: int, accessed: int64) returns (r: Option<V>)
      requires Valid()
      modifies this
      ensures Valid() && (View(), r) == CacheModel.Get(old(View()), key, checked, accessed)
    {
      if key !in entries {
        return None;
      }
      var e := entries[key];
      if checked > e.expires {
        RemoveElement(key);
        return None;
      }
      entries := entries[key := e.(lastAccess := accessed)];
      return Some(e.value);
    }

    method Set(key: K, value: V, now: int64)
      requires Valid()
      modifies this
      ensures Valid() && View() == CacheModel.Set(old(View()), key, value, now, ttl, maxSize)
    {
      if key in entries {
        SetKeeps(View(), key, value, now, ttl, maxSize);
        entries := entries[key := Slot(value, now + ttl, now)];
        ll := [key] + Without(ll, key);
        return;
      }
      PushKeeps(View(), key, Slot(value, now + ttl, now));
      entries := entries[key := Slot(value, now + ttl, now)];
      ll := [key] + ll;
      assert View() == Push(old(View()), key, Slot(value, now + ttl, now));
      if |ll| > maxSize {
        EvictBack();
      }
    }

    /** evictBack's scan: it starts from math.MaxInt64 and takes ties, so it always finds an entry. */
    method OldestEntry() returns (oldest: K)
      requires Valid() && ll != []
      ensures oldest == Oldest(ll, entries)
    {
      oldest := ll[0];
      var oldestTime: int64 := MAX_INT64;
      for i := 0 to |ll|
        invariant i == 0 ==> oldestTime == MAX_INT64
        invariant i > 0 ==> oldest in ll && oldestTime == entries[oldest].lastAccess
        invariant i > 0 ==> oldest == Oldest(ll[..i], entries)
      {
        OldestStep(ll, entries, i);
        var la := entries[ll[i]].lastAccess;
        if la <= oldestTime {
          oldestTime := la;
          oldest := ll[i];
        }
      }
      assert ll[..|ll|] == ll;
    }

    method EvictBack()
      requires Valid() && ll != []
      modifies this
      ensures Valid() && View() == Remove(old(View()), Oldest(old(ll), old(entries)))
    {
      var oldest := OldestEntry();
      RemoveElement(oldest);
    }

    method Invalidate(key: K)
      requires Valid()
      modifies this
      ensures Valid() && View() == CacheModel.Invalidate(old(View()), key)
    {
      if key in entries {
        RemoveElement(key);
      }
    }

    /** sweep */
    method Sweep(now: int)
      requires Valid()
      modifies this
      ensures Valid() && View() == CacheModel.Sweep(old(View()), now)
    {
      hide SweepList, Remove, Distinct;
      var all := ll;
      SweepListEnds(View(), all, now);
      for i := 0 to |all|
        invariant Valid()
        invariant SweepList(View(), all[i..], now) == CacheModel.Sweep(old(View()), now)
      {
        SweepListStep(View(), all, i, now);
        if all[i] in entries && now > entries[all[i]].expires {
          RemoveElement(all[i]);
        }
      }
      SweepListEnds(View(), all, now);
    }
  }
}
