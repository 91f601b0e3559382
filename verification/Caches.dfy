/** The two caches of the bot, over the design of `LruTtl`. */
module Caches {

  import opened Basics
  import opened LruTtl

  /** TTLCache of core/cache.py: an entry expires when its age reaches `ttl`. */
  class TTLCache<V> {
    const cfg: Settings
    var cache: Cache<V>
    ghost var history: seq<Op<V>>

    /** The cache is what its history leads to. */
    ghost predicate Valid()
      reads this
    {
      !cfg.inclusive && cache == Run(cfg, history)
    }

    constructor (maxSize: int := 100, ttl: real := 3600.0)
      ensures Valid() && history == [] && cfg == Settings(maxSize, ttl, false)
    {
      cfg := Settings(maxSize, ttl, false);
      cache, history := [], [];
    }

    method Get(key: Key, now: real) returns (r: Option<V>)
      requires Valid()
      modifies this
      ensures Valid() && history == old(history) + [Op.Get(key, now)]
      ensures r == Answer(cfg, old(cache), key, now)
      ensures forall i :: 0 <= i < |old(cache)| && old(cache)[i].key == key ==>
                (r.Some? <==> now - old(cache)[i].stamp < cfg.ttl) && (r.Some? ==> r.value == old(cache)[i].value)
      ensures r.Some? ==>
                && cache != [] && cache[|cache| - 1].key == key && cache[|cache| - 1] in old(cache)
                && |cache| == |old(cache)|
      ensures r.None? ==> Lacks(cache, key) && (Lacks(old(cache), key) ==> cache == old(cache))
    {
      RunIsUnique(cfg, history);
      ghost var op: Op<V> := Op.Get(key, now);
      RunAppend(cfg, history, op);
      history := history + [op];
      r := None;
      var p := Position(cache, key);
      if p < |cache| {
        LacksAfterRemoval(cache, p);
        var e := cache[p];
        cache := RemoveAt(cache, p);
        if now - e.stamp < cfg.ttl {
          cache := cache + [e];
          r := Some(e.value);
        }
      }
    }

    /** Fails, as popitem does on an empty dictionary, when there is no room at all. */
    method Set(key: Key, value: V, now: real) returns (keyError: bool)
      requires Valid()
      modifies this
      ensures Valid() && history == old(history) + [Op.Set(key, value, now)]
      ensures keyError <==> Raises(cfg, old(cache), Op.Set(key, value, now))
      ensures keyError <==> old(cache) == [] && cfg.maxSize <= 0
      ensures keyError ==> cache == old(cache)
      ensures !keyError ==> cache != [] && cache[|cache| - 1] == Entry(key, value, now)
      ensures !keyError && Lacks(old(cache), key) ==>
                cache[..|cache| - 1] == if |old(cache)| >= cfg.maxSize then old(cache)[1..] else old(cache)
      ensures !Lacks(old(cache), key) ==> |cache| == |old(cache)|
    {
      ghost var op := Op.Set(key, value, now);
      RunAppend(cfg, history, op);
      history := history + [op];
      keyError := false;
      var p := Position(cache, key);
      var room := cache;
      if p < |cache| {
        room := RemoveAt(cache, p);
      } else if |cache| >= cfg.maxSize {
        if cache == [] {
          keyError := true;
          return;
        }
        room := cache[1..];
      }
      cache := room + [Entry(key, value, now)];
    }

    method Invalidate(key: Key)
      requires Valid()
      modifies this
      ensures Valid() && history == old(history) + [Op.Invalidate(key)]
      ensures Lacks(cache, key) && (Lacks(old(cache), key) ==> cache == old(cache))
      ensures !Lacks(old(cache), key) ==> |cache| == |old(cache)| - 1
    {
      RunIsUnique(cfg, history);
      ghost var op: Op<V> := Op.Invalidate(key);
      RunAppend(cfg, history, op);
      history := history + [op];
      var p := Position(cache, key);
      if p < |cache| {
        LacksAfterRemoval(cache, p);
        cache := RemoveAt(cache, p);
      }
    }

    method Clear()
      requires Valid()
      modifies this
      ensures Valid() && history == old(history) + [Op.Clear] && cache == []
    {
      ghost var op: Op<V> := Op.Clear;
      RunAppend(cfg, history, op);
      history := history + [op];
      cache := [];
    }

    /** The keys that a reading at `now` would still find, each once. */
    method GetKeys(now: real) returns (keys: seq<Key>)
      requires Valid()
      ensures forall k :: k in keys <==> Answer(cfg, cache, k, now).Some?
      ensures forall i, j :: 0 <= i < j < |keys| ==> keys[i] != keys[j]
      ensures forall i :: 0 <= i < |cache| ==> (cache[i].key in keys <==> now - cache[i].stamp < cfg.ttl)
      ensures forall k :: k in keys ==> !Lacks(cache, k)
    {
      keys := [];
      var i := 0;
      while i < |cache|
        invariant 0 <= i <= |cache| && keys == FreshKeys(cfg, cache[..i], now)
      {
        assert cache[..i + 1][..i] == cache[..i];
        if now - cache[i].stamp < cfg.ttl {
          keys := keys + [cache[i].key];
        }
        i := i + 1;
      }
      assert cache[..i] == cache;
      RunIsRecorded(cfg, history);
      FreshKeysAreFound(cfg, history, cache, now);
      forall i | 0 <= i < |cache| ensures cache[i].key in keys <==> now - cache[i].stamp < cfg.ttl {
        FreshKeyIff(cfg, cache, now, cache[i].key);
      }
      forall k | k in keys ensures !Lacks(cache, k) {
        FreshKeyIff(cfg, cache, now, k);
      }
    }

    /** `__len__`: how many different keys a reading at `now` would still find. */
    method Len(now: real) returns (n: nat)
      requires Valid()
      ensures exists keys: seq<Key> :: |keys| == n
                && (forall k :: k in keys <==> Answer(cfg, cache, k, now).Some?)
                && (forall i, j :: 0 <= i < j < |keys| ==> keys[i] != keys[j])
                && (forall i :: 0 <= i < |cache| ==> (cache[i].key in keys <==> now - cache[i].stamp < cfg.ttl))
    {
      var keys := GetKeys(now);
      n := |keys|;
    }
  }

  /** ProfileCache of core/profile_cache.py: an entry whose age equals `ttl` still
      counts, and the lists are copied in and out. */
  class ProfileCache {
    const cfg: Settings
    var store: Cache<seq<string>>
    ghost var history: seq<Op<seq<string>>>

    ghost predicate Valid()
      reads this
    {
      cfg.inclusive && store == Run(cfg, history)
    }

    constructor (ttl: real := 300.0, maxSize: int := 200)
      ensures Valid() && history == [] && cfg == Settings(maxSize, ttl, true)
    {
      cfg := Settings(maxSize, ttl, true);
      store, history := [], [];
    }

    method Get(key: Key, now: real) returns (r: Option<seq<string>>)
      requires Valid()
      modifies this
      ensures Valid() && history == old(history) + [Op.Get(key, now)]
      ensures r == Answer(cfg, old(store), key, now)
      ensures forall i :: 0 <= i < |old(store)| && old(store)[i].key == key ==>
                (r.Some? <==> now - old(store)[i].stamp <= cfg.ttl) && (r.Some? ==> r.value == old(store)[i].value)
      ensures r.Some? ==>
                && store != [] && store[|store| - 1].key == key && store[|store| - 1] in old(store)
                && |store| == |old(store)|
      ensures r.None? ==> Lacks(store, key) && (Lacks(old(store), key) ==> store == old(store))
    {
      RunIsUnique(cfg, history);
      ghost var op: Op<seq<string>> := Op.Get(key, now);
      RunAppend(cfg, history, op);
      history := history + [op];
      var p := Position(store, key);
      if p == |store| {
        return None;
      }
      LacksAfterRemoval(store, p);
      var e := store[p];
      store := RemoveAt(store, p);
      if now - e.stamp > cfg.ttl {
        return None;
      }
      store := store + [e];
      r := Some(e.value);
    }

    method Set(key: Key, names: seq<string>, now: real) returns (keyError: bool)
      requires Valid()
      modifies this
      ensures Valid() && history == old(history) + [Op.Set(key, names, now)]
      ensures keyError <==> Raises(cfg, old(store), Op.Set(key, names, now))
      ensures keyError <==> old(store) == [] && cfg.maxSize <= 0
      ensures keyError ==> store == old(store)
      ensures !keyError ==> store != [] && store[|store| - 1] == Entry(key, names, now)
      ensures !keyError && Lacks(old(store), key) ==>
                store[..|store| - 1] == if |old(store)| >= cfg.maxSize then old(store)[1..] else old(store)
      ensures !Lacks(old(store), key) ==> |store| == |old(store)|
    {
      ghost var op := Op.Set(key, names, now);
      RunAppend(cfg, history, op);
      history := history + [op];
      keyError := false;
      var p := Position(store, key);
      var room := store;
      if p < |store| {
        room := RemoveAt(store, p);
      } else if |store| >= cfg.maxSize {
        if store == [] {
          keyError := true;
          return;
        }
        room := store[1..];
      }
      store := room + [Entry(key, names, now)];
    }

    method Invalidate(key: Key)
      requires Valid()
      modifies this
      ensures Valid() && history == old(history) + [Op.Invalidate(key)]
      ensures Lacks(store, key) && (Lacks(old(store), key) ==> store == old(store))
      ensures !Lacks(old(store), key) ==> |store| == |old(store)| - 1
    {
      RunIsUnique(cfg, history);
      ghost var op: Op<seq<string>> := Op.Invalidate(key);
      RunAppend(cfg, history, op);
      history := history + [op];
      var p := Position(store, key);
      if p < |store| {
        LacksAfterRemoval(store, p);
        store := RemoveAt(store, p);
      }
    }

    method Clear()
      requires Valid()
      modifies this
      ensures Valid() && history == old(history) + [Op.Clear] && store == []
    {
      ghost var op: Op<seq<string>> := Op.Clear;
      RunAppend(cfg, history, op);
      history := history + [op];
      store := [];
    }
  }
}
