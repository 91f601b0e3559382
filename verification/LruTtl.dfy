/** The design shared by core/cache.py and core/profile_cache.py: an ordered
    dictionary with time stamps, eviction from the old end, and expiry on reading.
    A cache is determined by its history of operations; the lemmas compare what it
    answers with the plain map of last writes. */
module LruTtl {

  import opened Basics
  import opened FiniteSets

  type Key = string

  datatype Entry<V> = Entry(key: Key, value: V, stamp: real)

  /** `inclusive`: does an entry whose age equals `ttl` still count? */
  datatype Settings = Settings(maxSize: int, ttl: real, inclusive: bool)

  predicate Young(cfg: Settings, stamp: real, now: real) {
    if cfg.inclusive then now - stamp <= cfg.ttl else now - stamp < cfg.ttl
  }

  /** The entries in the dictionary's order. */
  type Cache<V> = seq<Entry<V>>

  /** Where the key's entry is, or the cache's length when there is none. */
  function Position<V>(c: Cache<V>, key: Key): (p: nat)
    ensures p <= |c| && (p < |c| ==> c[p].key == key)
    ensures forall i :: 0 <= i < p ==> c[i].key != key
  {
    if c == [] || c[0].key == key then 0 else 1 + Position(c[1..], key)
  }

  predicate Has<V>(c: Cache<V>, key: Key) { Position(c, key) < |c| }

  function RemoveAt<V>(c: Cache<V>, p: nat): Cache<V>
    requires p < |c|
  {
    c[..p] + c[p + 1..]
  }

  function Without<V>(c: Cache<V>, key: Key): Cache<V> {
    if Has(c, key) then RemoveAt(c, Position(c, key)) else c
  }

  datatype Op<V> =
    | Get(key: Key, now: real)
    | Set(key: Key, value: V, now: real)
    | Invalidate(key: Key)
    | Clear

  function Answer<V>(cfg: Settings, c: Cache<V>, key: Key, now: real): Option<V> {
    var p := Position(c, key);
    if p < |c| && Young(cfg, c[p].stamp, now) then Some(c[p].value) else None
  }

  /** Without room for even one entry, storing a new key raises KeyError. */
  predicate Raises<V>(cfg: Settings, c: Cache<V>, op: Op<V>) {
    op.Set? && !Has(c, op.key) && |c| >= cfg.maxSize && c == []
  }

  function Next<V>(cfg: Settings, c: Cache<V>, op: Op<V>): Cache<V> {
    match op
    case Get(key, now) =>
      if Answer(cfg, c, key, now).Some? then Without(c, key) + [c[Position(c, key)]] else Without(c, key)
    case Set(key, value, now) =>
      if Raises(cfg, c, op) then c
      else
        var room := if Has(c, key) then Without(c, key) else if |c| >= cfg.maxSize then c[1..] else c;
        room + [Entry(key, value, now)]
    case Invalidate(key) => Without(c, key)
    case Clear => []
  }

  function Run<V>(cfg: Settings, ops: seq<Op<V>>): Cache<V> {
    if ops == [] then [] else Next(cfg, Run(cfg, ops[..|ops| - 1]), ops[|ops| - 1])
  }

  lemma RunAppend<V>(cfg: Settings, ops: seq<Op<V>>, op: Op<V>)
    ensures Run(cfg, ops + [op]) == Next(cfg, Run(cfg, ops), op)
  {
    assert (ops + [op])[..|ops|] == ops;
  }

  /** The last write of the key that was not invalidated since. */
  function LastWrite<V>(ops: seq<Op<V>>, key: Key): Option<Entry<V>> {
    if ops == [] then None
    else
      var before := ops[..|ops| - 1];
      match ops[|ops| - 1]
      case Get(_, _) => LastWrite(before, key)
      case Set(k, value, now) => if k == key then Some(Entry(key, value, now)) else LastWrite(before, key)
      case Invalidate(k) => if k == key then None else LastWrite(before, key)
      case Clear => None
  }

  /** A key is touched when it is stored, and when reading it succeeds. */
  predicate Touches<V>(cfg: Settings, c: Cache<V>, op: Op<V>, key: Key) {
    match op
    case Get(k, now) => k == key && Answer(cfg, c, k, now).Some?
    case Set(k, _, _) => k == key
    case _ => false
  }

  /** The number of the operation that touched the key last; 0 if none did. */
  function LastTouch<V>(cfg: Settings, ops: seq<Op<V>>, key: Key): (n: nat)
    ensures n <= |ops|
  {
    if ops == [] then 0
    else
      var before := ops[..|ops| - 1];
      if Touches(cfg, Run(cfg, before), ops[|ops| - 1], key) then |ops| else LastTouch(cfg, before, key)
  }

  function KeysOf<V>(ops: seq<Op<V>>): set<Key> {
    set i | 0 <= i < |ops| && (ops[i].Get? || ops[i].Set?) :: ops[i].key
  }

  /** The other keys touched since the key itself was. */
  function TouchedSince<V>(cfg: Settings, ops: seq<Op<V>>, key: Key): set<Key> {
    set k | k in KeysOf(ops) && LastTouch(cfg, ops, k) > LastTouch(cfg, ops, key)
  }

  /** The clock readings never go back. */
  predicate InOrder<V>(ops: seq<Op<V>>) {
    forall i, j :: 0 <= i < j < |ops| && (ops[i].Get? || ops[i].Set?) && (ops[j].Get? || ops[j].Set?) ==>
      ops[i].now <= ops[j].now
  }

  predicate NotLater<V>(ops: seq<Op<V>>, t: real) {
    forall i :: 0 <= i < |ops| && (ops[i].Get? || ops[i].Set?) ==> ops[i].now <= t
  }

  // ---- the order of the entries -----------------------------------------

  /** Entries stand in the order in which their keys were last touched, and each is
      its key's last write. */
  ghost predicate Recorded<V>(cfg: Settings, ops: seq<Op<V>>, c: Cache<V>) {
    && (forall i :: 0 <= i < |c| ==> LastTouch(cfg, ops, c[i].key) > 0)
    && (forall i, j :: 0 <= i < j < |c| ==> LastTouch(cfg, ops, c[i].key) < LastTouch(cfg, ops, c[j].key))
    && (forall i :: 0 <= i < |c| ==> LastWrite(ops, c[i].key) == Some(c[i]))
  }

  ghost predicate Lacks<V>(c: Cache<V>, key: Key) { forall i :: 0 <= i < |c| ==> c[i].key != key }

  lemma RemoveKeeps<V>(cfg: Settings, ops: seq<Op<V>>, c: Cache<V>, p: nat)
    requires Recorded(cfg, ops, c) && p < |c|
    ensures Recorded(cfg, ops, RemoveAt(c, p)) && Lacks(RemoveAt(c, p), c[p].key)
  {
    var d := RemoveAt(c, p);
    assert forall i :: 0 <= i < p ==> d[i] == c[i];
    assert forall i :: p <= i < |d| ==> d[i] == c[i + 1];
  }

  lemma WithoutKeeps<V>(cfg: Settings, ops: seq<Op<V>>, c: Cache<V>, key: Key)
    requires Recorded(cfg, ops, c)
    ensures Recorded(cfg, ops, Without(c, key)) && Lacks(Without(c, key), key)
  {
    if Has(c, key) {
      RemoveKeeps(cfg, ops, c, Position(c, key));
    }
  }

  /** An operation on another key does not change a key's record. */
  lemma OtherKey<V>(cfg: Settings, ops: seq<Op<V>>, key: Key)
    requires ops != [] && !ops[|ops| - 1].Clear? && ops[|ops| - 1].key != key
    ensures LastTouch(cfg, ops, key) == LastTouch(cfg, ops[..|ops| - 1], key)
    ensures LastWrite(ops, key) == LastWrite(ops[..|ops| - 1], key)
  {
  }

  lemma OthersKeep<V>(cfg: Settings, ops: seq<Op<V>>, c: Cache<V>)
    requires ops != [] && !ops[|ops| - 1].Clear?
    requires Recorded(cfg, ops[..|ops| - 1], c) && Lacks(c, ops[|ops| - 1].key)
    ensures Recorded(cfg, ops, c)
  {
    forall i | 0 <= i < |c|
      ensures LastTouch(cfg, ops, c[i].key) == LastTouch(cfg, ops[..|ops| - 1], c[i].key)
      ensures LastWrite(ops, c[i].key) == LastWrite(ops[..|ops| - 1], c[i].key)
    {
      OtherKey(cfg, ops, c[i].key);
    }
  }

  /** The operation's own key, touched, goes to the end. */
  lemma TouchedGoesLast<V>(cfg: Settings, ops: seq<Op<V>>, c: Cache<V>, e: Entry<V>)
    requires ops != [] && !ops[|ops| - 1].Clear? && ops[|ops| - 1].key == e.key
    requires Recorded(cfg, ops[..|ops| - 1], c) && Lacks(c, e.key)
    requires LastTouch(cfg, ops, e.key) == |ops| && LastWrite(ops, e.key) == Some(e)
    ensures Recorded(cfg, ops, c + [e])
  {
    OthersKeep(cfg, ops, c);
    forall i | 0 <= i < |c| ensures LastTouch(cfg, ops, c[i].key) < |ops| {
      OtherKey(cfg, ops, c[i].key);
    }
  }

  /** The entries of every cache are ordered by last touch, and each is the latest
      write of its key that was not invalidated. */
  lemma {:induction false} RunIsRecorded<V>(cfg: Settings, ops: seq<Op<V>>)
    ensures Recorded(cfg, ops, Run(cfg, ops))
  {
    if ops != [] {
      var before := ops[..|ops| - 1];
      var op := ops[|ops| - 1];
      var c := Run(cfg, before);
      RunIsRecorded(cfg, before);
      if !op.Clear? {
        var d := Without(c, op.key);
        WithoutKeeps(cfg, before, c, op.key);
        if op.Set? && !Raises(cfg, c, op) {
          if !Has(c, op.key) && |c| >= cfg.maxSize {
            RemoveKeeps(cfg, before, c, 0);
            d := RemoveAt(c, 0);
            assert d == c[1..];
          }
          TouchedGoesLast(cfg, ops, d, Entry(op.key, op.value, op.now));
        } else if op.Get? && Answer(cfg, c, op.key, op.now).Some? {
          TouchedGoesLast(cfg, ops, d, c[Position(c, op.key)]);
        } else {
          OthersKeep(cfg, ops, d);
        }
      }
    }
  }

  // ---- what a cache answers ----------------------------------------------

  /** Never more entries than `maxSize`; none at all when it is not positive. */
  lemma {:induction false} SizeIsBounded<V>(cfg: Settings, ops: seq<Op<V>>)
    ensures |Run(cfg, ops)| <= if cfg.maxSize > 0 then cfg.maxSize else 0
  {
    if ops != [] {
      SizeIsBounded(cfg, ops[..|ops| - 1]);
    }
  }

  /** Soundness: whatever is answered is the latest write that was not
      invalidated, and it is young enough. */
  lemma AnswersAreLastWrites<V>(cfg: Settings, ops: seq<Op<V>>, key: Key, now: real)
    requires Answer(cfg, Run(cfg, ops), key, now).Some?
    ensures var w := LastWrite(ops, key);
            && w.Some? && Young(cfg, w.value.stamp, now)
            && Answer(cfg, Run(cfg, ops), key, now) == Some(w.value.value)
  {
    RunIsRecorded(cfg, ops);
  }

  lemma HasAt<V>(c: Cache<V>, i: nat)
    requires i < |c|
    ensures Has(c, c[i].key)
  {
  }

  lemma WithoutHas<V>(c: Cache<V>, other: Key, key: Key)
    requires Has(c, key) && key != other
    ensures Has(Without(c, other), key)
  {
    if Has(c, other) {
      RemoveHas(c, Position(c, other), Position(c, key));
    }
  }

  lemma RemoveHas<V>(c: Cache<V>, q: nat, p: nat)
    requires p < |c| && q < |c| && p != q
    ensures Has(RemoveAt(c, q), c[p].key)
  {
    var d := RemoveAt(c, q);
    if p < q {
      assert d[p] == c[p];
      HasAt(d, p);
    } else {
      assert d[p - 1] == c[p];
      HasAt(d, p - 1);
    }
  }

  lemma AppendHas<V>(c: Cache<V>, e: Entry<V>, key: Key)
    requires Has(c, key) || e.key == key
    ensures Has(c + [e], key)
  {
    HasAt(c + [e], if Has(c, key) then Position(c, key) else |c|);
  }

  function KeySet<V>(c: Cache<V>): set<Key> {
    if c == [] then {} else KeySet(c[..|c| - 1]) + {c[|c| - 1].key}
  }

  lemma {:induction false} KeySetHas<V>(c: Cache<V>, key: Key)
    ensures key in KeySet(c) <==> exists i :: 0 <= i < |c| && c[i].key == key
    decreases |c|
  {
    if c != [] {
      KeySetHas(c[..|c| - 1], key);
    }
  }

  lemma {:induction false} KeySetSize<V>(cfg: Settings, ops: seq<Op<V>>, c: Cache<V>)
    requires Recorded(cfg, ops, c)
    ensures |KeySet(c)| == |c|
    decreases |c|
  {
    if c != [] {
      KeySetSize(cfg, ops, c[..|c| - 1]);
      KeySetHas(c[..|c| - 1], c[|c| - 1].key);
    }
  }

  lemma {:induction false} TouchedKeysAppear<V>(cfg: Settings, ops: seq<Op<V>>, key: Key)
    requires LastTouch(cfg, ops, key) > 0
    ensures key in KeysOf(ops)
    decreases ops
  {
    var before := ops[..|ops| - 1];
    if !Touches(cfg, Run(cfg, before), ops[|ops| - 1], key) {
      TouchedKeysAppear(cfg, before, key);
      var i :| 0 <= i < |before| && (before[i].Get? || before[i].Set?) && before[i].key == key;
      assert ops[i] == before[i];
    }
  }

  /** While a key is not touched itself, the set of keys touched since only grows. */
  lemma TouchedSinceGrows<V>(cfg: Settings, ops: seq<Op<V>>, key: Key)
    requires ops != []
    requires !Touches(cfg, Run(cfg, ops[..|ops| - 1]), ops[|ops| - 1], key)
    ensures TouchedSince(cfg, ops[..|ops| - 1], key) <= TouchedSince(cfg, ops, key)
  {
    var before := ops[..|ops| - 1];
    forall k | k in TouchedSince(cfg, before, key) ensures k in TouchedSince(cfg, ops, key) {
      TouchedKeysAppear(cfg, ops, k);
    }
  }

  lemma RestIsTouched<V>(cfg: Settings, ops: seq<Op<V>>, k: Key)
    requires ops != [] && ops[|ops| - 1].Set?
    requires Run(cfg, ops[..|ops| - 1]) != []
    requires k in KeySet(Run(cfg, ops[..|ops| - 1])[1..]) || k == ops[|ops| - 1].key
    requires ops[|ops| - 1].key != Run(cfg, ops[..|ops| - 1])[0].key
    ensures LastTouch(cfg, ops, k) > LastTouch(cfg, ops, Run(cfg, ops[..|ops| - 1])[0].key)
  {
    var before := ops[..|ops| - 1];
    var c := Run(cfg, before);
    RunIsRecorded(cfg, before);
    OtherKey(cfg, ops, c[0].key);
    if k != ops[|ops| - 1].key {
      KeySetHas(c[1..], k);
      var i :| 0 <= i < |c[1..]| && c[1..][i].key == k;
      assert c[i + 1].key == k;
      OtherKey(cfg, ops, k);
    }
  }

  lemma RestLacks<V>(c: Cache<V>, key: Key)
    requires c != [] && !Has(c, key)
    ensures key !in KeySet(c[1..])
  {
    var rest := c[1..];
    KeySetHas(rest, key);
    forall i | 0 <= i < |rest| ensures rest[i].key != key {
      assert rest[i] == c[i + 1];
    }
  }

  lemma RestAndNewKeySize<V>(cfg: Settings, ops: seq<Op<V>>, c: Cache<V>, key: Key)
    requires Recorded(cfg, ops, c) && c != [] && !Has(c, key)
    ensures |KeySet(c[1..]) + {key}| == |c|
  {
    RestLacks(c, key);
    RemoveKeeps(cfg, ops, c, 0);
    assert RemoveAt(c, 0) == c[1..];
    KeySetSize(cfg, ops, c[1..]);
  }

  /** An entry is evicted only after `maxSize` other keys were touched. */
  lemma EvictionNeedsTouches<V>(cfg: Settings, ops: seq<Op<V>>, key: Key)
    requires ops != [] && ops[|ops| - 1].Set?
    requires var c := Run(cfg, ops[..|ops| - 1]);
             c != [] && c[0].key == key && !Has(c, ops[|ops| - 1].key) && |c| >= cfg.maxSize
    ensures |TouchedSince(cfg, ops, key)| >= cfg.maxSize
  {
    var before := ops[..|ops| - 1];
    var op := ops[|ops| - 1];
    var c := Run(cfg, before);
    RunIsRecorded(cfg, before);
    RestAndNewKeySize(cfg, before, c, op.key);
    var newer := KeySet(c[1..]) + {op.key};
    forall k | k in newer ensures k in TouchedSince(cfg, ops, key) {
      RestIsTouched(cfg, ops, k);
      TouchedKeysAppear(cfg, ops, k);
    }
    SubsetSize(newer, TouchedSince(cfg, ops, key));
  }

  /** Completeness: a key whose last write is still young at a time no earlier than
      any reading so far, and since whose last touch fewer than `maxSize` other keys
      were touched, is still there. */
  lemma {:induction false} RecentKeysAreKept<V>(cfg: Settings, ops: seq<Op<V>>, key: Key, now: real)
    requires cfg.maxSize >= 1 && InOrder(ops) && NotLater(ops, now)
    requires LastWrite(ops, key).Some? && Young(cfg, LastWrite(ops, key).value.stamp, now)
    requires |TouchedSince(cfg, ops, key)| < cfg.maxSize
    ensures Has(Run(cfg, ops), key)
  {
    var before := ops[..|ops| - 1];
    var op := ops[|ops| - 1];
    var c := Run(cfg, before);
    if op.Set? && op.key == key {
      AppendHas(Next(cfg, c, op)[..|Next(cfg, c, op)| - 1], Entry(key, op.value, op.now), key);
      assert Next(cfg, c, op) == Next(cfg, c, op)[..|Next(cfg, c, op)| - 1] + [Entry(key, op.value, op.now)];
    } else if Touches(cfg, c, op, key) {
      AppendHas(Without(c, key), c[Position(c, key)], key);
    } else {
      TouchedSinceGrows(cfg, ops, key);
      SubsetSize(TouchedSince(cfg, before, key), TouchedSince(cfg, ops, key));
      RecentKeysAreKept(cfg, before, key, if op.Get? || op.Set? then op.now else now);
      RunIsRecorded(cfg, before);
      KeptByNext(cfg, ops, key, now);
    }
  }

  lemma KeptByNext<V>(cfg: Settings, ops: seq<Op<V>>, key: Key, now: real)
    requires ops != [] && cfg.maxSize >= 1 && NotLater(ops, now)
    requires LastWrite(ops, key).Some? && Young(cfg, LastWrite(ops, key).value.stamp, now)
    requires |TouchedSince(cfg, ops, key)| < cfg.maxSize
    requires Has(Run(cfg, ops[..|ops| - 1]), key)
    requires !Touches(cfg, Run(cfg, ops[..|ops| - 1]), ops[|ops| - 1], key)
    ensures Has(Run(cfg, ops), key)
  {
    var before := ops[..|ops| - 1];
    var op := ops[|ops| - 1];
    var c := Run(cfg, before);
    RunIsRecorded(cfg, before);
    match op
    case Get(k, t) =>
      if k != key {
        WithoutHas(c, k, key);
        if Answer(cfg, c, k, t).Some? {
          AppendHas(Without(c, k), c[Position(c, k)], key);
        }
      }
    case Set(k, value, t) =>
      if Has(c, k) {
        WithoutHas(c, k, key);
        AppendHas(Without(c, k), Entry(k, value, t), key);
      } else if |c| >= cfg.maxSize {
        if c[0].key == key {
          EvictionNeedsTouches(cfg, ops, key);
        }
        HasAt(c[1..], Position(c, key) - 1);
        AppendHas(c[1..], Entry(k, value, t), key);
      } else {
        AppendHas(c, Entry(k, value, t), key);
      }
    case Invalidate(k) => WithoutHas(c, k, key);
    case Clear =>
  }

  /** So within its capacity the cache answers exactly like the map of last writes. */
  lemma AgreesWithLastWrites<V>(cfg: Settings, ops: seq<Op<V>>, key: Key, now: real)
    requires cfg.maxSize >= 1 && InOrder(ops) && NotLater(ops, now)
    requires |TouchedSince(cfg, ops, key)| < cfg.maxSize
    ensures var w := LastWrite(ops, key);
            Answer(cfg, Run(cfg, ops), key, now) ==
            if w.Some? && Young(cfg, w.value.stamp, now) then Some(w.value.value) else None
  {
    var w := LastWrite(ops, key);
    if Answer(cfg, Run(cfg, ops), key, now).Some? {
      AnswersAreLastWrites(cfg, ops, key, now);
    } else if w.Some? && Young(cfg, w.value.stamp, now) {
      RecentKeysAreKept(cfg, ops, key, now);
      RunIsRecorded(cfg, ops);
    }
  }

  /** No two entries have the same key. */
  predicate Unique<V>(c: Cache<V>) { forall i, j :: 0 <= i < j < |c| ==> c[i].key != c[j].key }

  lemma RunIsUnique<V>(cfg: Settings, ops: seq<Op<V>>)
    ensures Unique(Run(cfg, ops))
  {
    RunIsRecorded(cfg, ops);
  }

  lemma LacksAfterRemoval<V>(c: Cache<V>, p: nat)
    requires p < |c| && Unique(c)
    ensures Lacks(RemoveAt(c, p), c[p].key)
  {
    var d := RemoveAt(c, p);
    forall i | 0 <= i < |d| ensures d[i].key != c[p].key {
      assert d[i] == if i < p then c[i] else c[i + 1];
    }
  }

  // ---- the keys that would be answered -------------------------------------

  function FreshKeys<V>(cfg: Settings, c: Cache<V>, now: real): seq<Key> {
    if c == [] then []
    else
      var before := FreshKeys(cfg, c[..|c| - 1], now);
      var e := c[|c| - 1];
      if Young(cfg, e.stamp, now) then before + [e.key] else before
  }

  lemma {:induction false} FreshKeyIff<V>(cfg: Settings, c: Cache<V>, now: real, key: Key)
    ensures key in FreshKeys(cfg, c, now) <==>
              exists i :: 0 <= i < |c| && c[i].key == key && Young(cfg, c[i].stamp, now)
    decreases |c|
  {
    if c != [] {
      FreshKeyIff(cfg, c[..|c| - 1], now, key);
    }
  }

  /** The listed keys are, without repetition, exactly those that `get` finds. */
  lemma {:induction false} FreshKeysAreFound<V>(cfg: Settings, ops: seq<Op<V>>, c: Cache<V>, now: real)
    requires Recorded(cfg, ops, c)
    ensures forall k :: k in FreshKeys(cfg, c, now) <==> Answer(cfg, c, k, now).Some?
    ensures var keys := FreshKeys(cfg, c, now); forall i, j :: 0 <= i < j < |keys| ==> keys[i] != keys[j]
    decreases |c|
  {
    forall k ensures k in FreshKeys(cfg, c, now) <==> Answer(cfg, c, k, now).Some? {
      FreshKeyIff(cfg, c, now, k);
      if i :| 0 <= i < |c| && c[i].key == k && Young(cfg, c[i].stamp, now) {
        HasAt(c, i);
        var p := Position(c, k);
        assert i == p;
      }
    }
    if c != [] {
      var before := c[..|c| - 1];
      FreshKeysAreFound(cfg, ops, before, now);
      FreshKeyIff(cfg, before, now, c[|c| - 1].key);
    }
  }
}
