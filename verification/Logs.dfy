/** Histories of the calls that threads make on a shared object. */
module Logs {

  type Tid = nat

  datatype Call<+T> = Call(who: Tid, what: T)

  type Log<+T> = seq<Call<T>>

  /** The calls, whoever made them. */
  function All<T>(log: Log<T>): (r: seq<T>)
    ensures |r| == |log|
  {
    if log == [] then [] else All(log[..|log| - 1]) + [log[|log| - 1].what]
  }

  /** The calls of one thread. */
  function Own<T>(log: Log<T>, me: Tid): seq<T> {
    if log == [] then []
    else
      var last := log[|log| - 1];
      Own(log[..|log| - 1], me) + if last.who == me then [last.what] else []
  }

  lemma Extend<T>(log: Log<T>, c: Call<T>, me: Tid)
    ensures All(log + [c]) == All(log) + [c.what]
    ensures Own(log + [c], me) == Own(log, me) + if c.who == me then [c.what] else []
  {
    assert (log + [c])[..|log|] == log;
  }

  /** One log for each key. */
  type Book<!K, +T> = map<K, Log<T>>

  function At<K, T>(b: Book<K, T>, key: K): Log<T> { if key in b then b[key] else [] }

  /** Between the two states of the book `me` made the calls `whats` on `key`, and none
      on any other key.  When `alone`, nobody else made any on `key`. */
  ghost predicate Added<K(!new), T>(before: Book<K, T>, after: Book<K, T>, key: K, me: Tid, whats: seq<T>,
                                    alone: bool)
  {
    && Own(At(after, key), me) == Own(At(before, key), me) + whats
    && (forall k :: k != key ==> Own(At(after, k), me) == Own(At(before, k), me))
    && (alone ==> All(At(after, key)) == All(At(before, key)) + whats)
  }

  lemma AddedOne<K(!new), T>(b: Book<K, T>, key: K, me: Tid, what: T)
    ensures Added(b, b[key := At(b, key) + [Call(me, what)]], key, me, [what], true)
  {
    Extend(At(b, key), Call(me, what), me);
  }

  /** The same without any call of `me`. */
  ghost predicate Others<K(!new), T>(before: Book<K, T>, after: Book<K, T>, key: K, me: Tid, alone: bool) {
    && (forall k :: Own(At(after, k), me) == Own(At(before, k), me))
    && (alone ==> All(At(after, key)) == All(At(before, key)))
  }

  lemma AddedThenOthers<K(!new), T>(a: Book<K, T>, b: Book<K, T>, c: Book<K, T>, key: K, me: Tid,
                                    whats: seq<T>, alone: bool)
    requires Added(a, b, key, me, whats, alone) && Others(b, c, key, me, alone)
    ensures Added(a, c, key, me, whats, alone)
  {
  }

  lemma OthersThenAdded<K(!new), T>(a: Book<K, T>, b: Book<K, T>, c: Book<K, T>, key: K, me: Tid,
                                    whats: seq<T>, alone: bool)
    requires Others(a, b, key, me, alone) && Added(b, c, key, me, whats, alone)
    ensures Added(a, c, key, me, whats, alone)
  {
  }

  lemma AddedTwice<K(!new), T>(a: Book<K, T>, b: Book<K, T>, c: Book<K, T>, key: K, me: Tid,
                               first: T, more: seq<T>, alone: bool)
    requires Added(a, b, key, me, [first], alone) && Added(b, c, key, me, more, alone)
    ensures Added(a, c, key, me, [first] + more, alone)
  {
    Associate(Own(At(a, key), me), [first], more);
    Associate(All(At(a, key)), [first], more);
  }

  lemma Associate<T>(s: seq<T>, t: seq<T>, u: seq<T>)
    ensures s + t + u == s + (t + u)
  {
  }
}
