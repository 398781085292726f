/**
 The read cache in the form the client has it: module-level maps and counters changed in place.
 Session storage is a map together with the order of its keys, which the clean-up loop walks from
 the end.
 Every method's effect is the corresponding function of `ReadCache`.
 */
module ReadCacheClient {
  import opened ListFacts
  import opened Outcomes
  import opened ReadCache

  /** `order` lists the keys of `m`, each once. */
  ghost predicate Lists<K(!new), V>(order: seq<K>, m: map<K, V>) {
    NoRepeats(order) && forall key :: key in order <==> key in m
  }

  function RemoveAt<K>(order: seq<K>, i: nat): seq<K>
    requires i < |order|
  {
    order[..i] + order[i + 1..]
  }

  lemma RemoveAtLists<K(!new), V>(order: seq<K>, i: nat, m: map<K, V>)
    requires Lists(order, m) && i < |order|
    ensures Lists(RemoveAt(order, i), m - {order[i]})
  {
    var rest := RemoveAt(order, i);
    assert forall j | 0 <= j < i :: rest[j] == order[j];
    assert forall j | i <= j < |rest| :: rest[j] == order[j + 1];
    forall key | key in m && key != order[i] ensures key in rest {
      var j :| 0 <= j < |order| && order[j] == key;
      assert rest[if j < i then j else j - 1] == key;
    }
  }

  lemma AppendLists<K(!new), V>(order: seq<K>, key: K, m: map<K, V>, value: V)
    requires Lists(order, m) && key !in m
    ensures Lists(order + [key], m[key := value])
  {
  }

  function IndexOf<K(==)>(order: seq<K>, key: K): (i: nat)
    requires key in order
    ensures i < |order| && order[i] == key
  {
    if order[0] == key then 0 else 1 + IndexOf(order[1..], key)
  }

  class Client {
    var inFlightReads: map<string, nat>
    var inFlightFreshReads: map<string, nat>
    var memoryReadCache: map<string, CachedRead>
    var lastFreshReadAt: map<string, int>
    var readPathGenerations: map<string, nat>
    var readCacheGeneration: nat
    var session: map<string, Raw>
    var order: seq<string>

    constructor ()
      ensures Lists(order, session) && View() == EMPTY_CACHE
    {
      inFlightReads, inFlightFreshReads, memoryReadCache := map[], map[], map[];
      lastFreshReadAt, readPathGenerations, readCacheGeneration := map[], map[], 0;
      session, order := map[], [];
    }

    ghost function View(): Cache
      reads this
    {
      Cache(inFlightReads, inFlightFreshReads, memoryReadCache, lastFreshReadAt, readPathGenerations,
            readCacheGeneration, session)
    }

    method RemoveItem(key: string)
      requires Lists(order, session)
      modifies this`session, this`order
      ensures Lists(order, session) && session == old(session) - {key}
    {
      if key in session {
        var i := IndexOf(order, key);
        RemoveAtLists(order, i, session);
        order := RemoveAt(order, i);
        session := session - {key};
      }
    }

    method SetItem(key: string, raw: Raw)
      requires Lists(order, session)
      modifies this`session, this`order
      ensures Lists(order, session) && session == old(session)[key := raw]
    {
      if key !in session {
        AppendLists(order, key, session, raw);
        order := order + [key];
      }
      session := session[key := raw];
    }

    /** From the last key to the first, so that removing one does not move those still to come. */
    method RemoveCachedItems()
      requires Lists(order, session)
      modifies this`session, this`order
      ensures Lists(order, session)
      ensures session == map key | key in old(session) && !IsCacheKey(key) :: old(session)[key]
    {
      hide IsCacheKey;
      var index := |order|;
      while index > 0
        invariant 0 <= index <= |order| && Lists(order, session)
        invariant forall key | key in session :: key in old(session) && session[key] == old(session)[key]
        invariant forall key | key in old(session) && !IsCacheKey(key) :: key in session
        invariant forall j | index <= j < |order| :: !IsCacheKey(order[j])
      {
        index := index - 1;
        var key := order[index];
        if IsCacheKey(key) {
          RemoveAtLists(order, index, session);
          order := RemoveAt(order, index);
          session := session - {key};
        }
      }
      assert forall key | key in session :: key in order && !IsCacheKey(key);
    }

    method ClearReadCache(storage: bool)
      requires Lists(order, session)
      modifies this
      ensures Lists(order, session) && View() == Cleared(old(View()), storage)
    {
      hide IsCacheKey, Lists;
      readCacheGeneration := readCacheGeneration + 1;
      inFlightReads := map[];
      inFlightFreshReads := map[];
      lastFreshReadAt := map[];
      readPathGenerations := map[];
      memoryReadCache := map[];
      if storage {
        RemoveCachedItems();
      }
    }

    method InvalidateReadPath(path: string, storage: bool)
      requires Lists(order, session)
      modifies this
      ensures Lists(order, session) && View() == Invalidated(old(View()), path, storage)
    {
      inFlightReads := inFlightReads - {path};
      memoryReadCache := memoryReadCache - {path};
      var generation := if path in readPathGenerations then readPathGenerations[path] else 0;
      readPathGenerations := readPathGenerations[path := generation + 1];
      if storage {
        RemoveItem(StorageKey(path));
      }
    }

    method CachedReadOf(path: string, ttlMs: int, now: int, storage: bool) returns (hit: Option<Data>)
      requires Lists(order, session)
      modifies this
      ensures Lists(order, session) && (View(), hit) == LookedUp(old(View()), path, ttlMs, now, storage)
    {
      hide StorageKey, ReadCanPersist, IsCacheKey;
      ghost var before := View();
      if path in memoryReadCache {
        var memory := memoryReadCache[path];
        var age := now - memory.storedAt;
        if age >= 0 && age < ttlMs {
          return Some(memory.data);
        }
        memoryReadCache := memoryReadCache - {path};
      }
      assert memoryReadCache == before.memoryReadCache - {path};
      if !ReadCanPersist(path) || !storage {
        return None;
      }
      var key := StorageKey(path);
      if key !in session {
        return None;
      }
      match session[key]
      case Entry(cached) =>
        var age := now - cached.storedAt;
        if age < 0 || age >= ttlMs {
          RemoveItem(key);
          return None;
        }
        return Some(cached.data);
      case Unreadable =>
        RemoveItem(key);
        return None;
    }

    method StoreCachedRead(path: string, data: Data, now: int, storage: bool)
      requires Lists(order, session)
      modifies this
      ensures Lists(order, session) && View() == Stored(old(View()), path, data, now, storage)
    {
      var cached := CachedRead(now, data);
      memoryReadCache := memoryReadCache[path := cached];
      if !ReadCanPersist(path) || !storage {
        return;
      }
      SetItem(StorageKey(path), Entry(cached));
    }

    /** `request` up to its first wait: a cached body, a fetch to share, or a fetch begun. */
    method Request(path: string, kind: Kind, ttlMs: int, now: int, storage: bool, id: nat) returns (start: Start)
      requires Lists(order, session)
      modifies this
      ensures Lists(order, session) && (View(), start) == Requested(old(View()), path, kind, ttlMs, now, storage, id)
    {
      if kind == Fresh {
        if path in inFlightFreshReads {
          return Join(inFlightFreshReads[path]);
        }
        var lastFreshAt := if path in lastFreshReadAt then lastFreshReadAt[path] else 0;
        if now - lastFreshAt < FRESH_READ_THROTTLE_MS {
          var cached := CachedReadOf(path, FRESH_READ_THROTTLE_MS, now, storage);
          if cached.Some? {
            return Hit(cached.value);
          }
        }
        InvalidateReadPath(path, storage);
      }
      if kind == Plain {
        var cached := CachedReadOf(path, ttlMs, now, storage);
        if cached.Some? {
          return Hit(cached.value);
        }
        if path in inFlightReads {
          return Join(inFlightReads[path]);
        }
      }
      var pathGeneration := if path in readPathGenerations then readPathGenerations[path] else 0;
      start := Fetched(readCacheGeneration, pathGeneration);
      if kind == Fresh {
        inFlightFreshReads := inFlightFreshReads[path := id];
      } else if kind == Plain {
        inFlightReads := inFlightReads[path := id];
      }
    }

    /** The part of `execute` after the body of a GET was read. */
    method Receive(path: string, kind: Kind, generation: nat, pathGeneration: nat, data: Data, storable: bool,
                   now: int, storage: bool)
      requires Lists(order, session)
      modifies this
      ensures Lists(order, session)
      ensures View() == Received(old(View()), path, kind, generation, pathGeneration, data, storable, now, storage)
    {
      var current := if path in readPathGenerations then readPathGenerations[path] else 0;
      if kind != Uncached && generation == readCacheGeneration && pathGeneration == current && storable {
        StoreCachedRead(path, data, now, storage);
      }
    }

    /** What the starter of a shared read does when the read is over. */
    method Conclude(path: string, kind: Kind, id: nat, success: bool, now: int)
      requires Lists(order, session)
      modifies this
      ensures Lists(order, session) && View() == Concluded(old(View()), path, kind, id, success, now)
    {
      if kind == Fresh {
        if success {
          lastFreshReadAt := lastFreshReadAt[path := now];
        }
        if path in inFlightFreshReads && inFlightFreshReads[path] == id {
          inFlightFreshReads := inFlightFreshReads - {path};
        }
      } else if kind == Plain && path in inFlightReads && inFlightReads[path] == id {
        inFlightReads := inFlightReads - {path};
      }
    }
  }
}
