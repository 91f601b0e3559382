/** The per-router rate limiter of core/mikrotik_api.py (`_throttle`).  Under the
    lock, each caller reserves the instant at which its command may start and then
    sleeps until it; `Slots` lists the instants reserved for one router. */
module Throttle {

  import opened FiniteSets
  import opened Logs

  type Key = string

  /** `_MIN_INTERVAL`, in seconds. */
  const MIN_INTERVAL: real := 0.1

  function Max(a: real, b: real): real { if a >= b then a else b }

  /** `n` minimal intervals. */
  function Spacing(n: nat): real { (n as real) * MIN_INTERVAL }

  /** The instant reserved last; 0.0 is the dictionary's default. */
  function LastSlot(slots: seq<real>): real {
    if slots == [] then 0.0 else slots[|slots| - 1]
  }

  /** The instants reserved by callers that read the clock at `nows`, in lock order. */
  function Slots(nows: seq<real>): (slots: seq<real>)
    ensures |slots| == |nows|
  {
    if nows == [] then []
    else
      var before := Slots(nows[..|nows| - 1]);
      before + [Max(nows[|nows| - 1], LastSlot(before) + MIN_INTERVAL)]
  }

  /** A schedule that starts nobody before its own clock reading and keeps
      successive commands (the first one counted from 0.0) an interval apart. */
  ghost predicate Legal(nows: seq<real>, slots: seq<real>) {
    && |slots| == |nows|
    && (forall i :: 0 <= i < |nows| ==> nows[i] <= slots[i])
    && (forall i :: 0 < i < |nows| ==> slots[i - 1] + MIN_INTERVAL <= slots[i])
    && (nows != [] ==> MIN_INTERVAL <= slots[0])
  }

  lemma {:induction false} SlotsAreLegal(nows: seq<real>)
    ensures Legal(nows, Slots(nows))
  {
    if nows != [] {
      SlotsAreLegal(nows[..|nows| - 1]);
    }
  }

  /** No legal schedule starts anybody earlier. */
  lemma {:induction false} SlotsAreLeast(nows: seq<real>, other: seq<real>, i: nat)
    requires Legal(nows, other) && i < |nows|
    ensures Slots(nows)[i] <= other[i]
  {
    var n := |nows| - 1;
    if i < n {
      SlotsAreLeast(nows[..n], other[..n], i);
    } else if n > 0 {
      SlotsAreLeast(nows[..n], other[..n], n - 1);
    }
  }

  /** Slots `i` and `j` are at least `j - i` intervals apart. */
  lemma {:induction false} SlotsSpread(nows: seq<real>, i: nat, j: nat)
    requires i <= j < |nows|
    ensures Slots(nows)[i] + Spacing(j - i) <= Slots(nows)[j]
    decreases j - i
  {
    SlotsAreLegal(nows);
    if i < j {
      SlotsSpread(nows, i, j - 1);
    }
  }

  /** The n-th slot in closed form: the largest of n intervals from 0.0 and, for
      every earlier caller, its clock reading plus the intervals since. */
  lemma {:induction false} SlotsClosedForm(nows: seq<real>, i: nat)
    requires i < |nows|
    ensures var s := Slots(nows)[i];
            && s >= Spacing(i + 1)
            && (forall j :: 0 <= j <= i ==> s >= nows[j] + Spacing(i - j))
            && (s == Spacing(i + 1) || exists j :: 0 <= j <= i && s == nows[j] + Spacing(i - j))
    decreases |nows|
  {
    var n := |nows| - 1;
    var before := nows[..n];
    if i < n {
      SlotsClosedForm(before, i);
      assert Slots(nows)[i] == Slots(before)[i];
      forall j | 0 <= j <= i ensures before[j] == nows[j] {}
      if Slots(before)[i] != Spacing(i + 1) {
        var j :| 0 <= j <= i && Slots(before)[i] == before[j] + Spacing(i - j);
        assert Slots(nows)[i] == nows[j] + Spacing(i - j);
      }
    } else {
      var s := Slots(nows)[n];
      assert s == Max(nows[n], LastSlot(Slots(before)) + MIN_INTERVAL);
      if n > 0 {
        SlotsClosedForm(before, n - 1);
        var p := Slots(before)[n - 1];
        assert s == Max(nows[n], p + MIN_INTERVAL);
        forall j | 0 <= j < n ensures s >= nows[j] + Spacing(n - j) {
          assert before[j] == nows[j];
          assert p >= before[j] + Spacing(n - 1 - j);
        }
        if s != nows[n] && s != Spacing(n + 1) {
          var j :| 0 <= j <= n - 1 && p == before[j] + Spacing(n - 1 - j);
          assert s == nows[j] + Spacing(n - j);
        }
      }
      assert s == nows[n] ==> s == nows[n] + Spacing(n - n);
    }
  }

  lemma SpacingOrder(m: nat, n: nat)
    requires Spacing(m) < Spacing(n)
    ensures m < n
  {
  }

  /** A half-open window of `k` intervals holds at most `k` slots. */
  lemma WindowHoldsAtMost(nows: seq<real>, start: real, k: nat)
    ensures |set i | 0 <= i < |nows| && start <= Slots(nows)[i] < start + Spacing(k)| <= k
  {
    var inside := set i | 0 <= i < |nows| && start <= Slots(nows)[i] < start + Spacing(k);
    if inside != {} {
      var first := Smallest(inside);
      forall i | i in inside ensures first <= i < first + k {
        SlotsSpread(nows, first, i);
        SpacingOrder(i - first, k);
      }
      NumberedSetSize(inside, i => i, first, k);
    }
  }

  lemma NextSlot(readings: seq<real>, now: real)
    ensures LastSlot(Slots(readings + [now])) == Max(now, LastSlot(Slots(readings)) + MIN_INTERVAL)
  {
    assert (readings + [now])[..|readings|] == readings;
  }

  class Throttle {
    var lastApiCall: map<Key, real>
    /** The clock readings of the reservations made so far, and who made them. */
    ghost var reservations: Book<Key, real>

    ghost function LogOf(key: Key): Log<real>
      reads this
    {
      At(reservations, key)
    }

    ghost function Readings(key: Key): seq<real>
      reads this
    {
      All(LogOf(key))
    }

    /** The dictionary holds the last of the slots that the readings lead to. */
    ghost predicate Kept(key: Key)
      reads this
    {
      && (key in lastApiCall <==> LogOf(key) != [])
      && (key in lastApiCall ==> lastApiCall[key] == LastSlot(Slots(Readings(key))))
    }

    ghost predicate Valid()
      reads this
    {
      forall k :: Kept(k)
    }

    constructor ()
      ensures Valid() && reservations == map[]
    {
      lastApiCall, reservations := map[], map[];
    }

    /** How long a caller at `now` waits when the last slot was `last`. */
    static method SleepAfter(last: real, now: real) returns (sleepNeeded: real)
      ensures sleepNeeded == if now - last >= 0.1 then 0.0 else last + 0.1 - now
      ensures sleepNeeded >= 0.0 && now + sleepNeeded == Max(now, last + MIN_INTERVAL)
    {
      var elapsed := now - last;
      sleepNeeded := Max(0.0, MIN_INTERVAL - elapsed);
    }

    /** The critical section of `_throttle`: reserves the least legal slot and
        returns how long the caller has to sleep to start exactly at it. */
    method Reserve(key: Key, now: real, ghost me: Tid) returns (sleepNeeded: real)
      requires Valid()
      modifies this
      ensures Valid()
      ensures reservations == old(reservations)[key := old(LogOf(key)) + [Call(me, now)]]
      ensures sleepNeeded >= 0.0 && now + sleepNeeded == LastSlot(Slots(Readings(key)))
      ensures var last := if key in old(lastApiCall) then old(lastApiCall)[key] else 0.0;
              && sleepNeeded == (if now - last >= 0.1 then 0.0 else last + 0.1 - now)
              && lastApiCall == old(lastApiCall)[key := now + sleepNeeded]
    {
      assert Kept(key);
      var last := if key in lastApiCall then lastApiCall[key] else 0.0;
      sleepNeeded := SleepAfter(last, now);
      Extend(LogOf(key), Call(me, now), me);
      NextSlot(Readings(key), now);
      lastApiCall := lastApiCall[key := now + sleepNeeded];
      reservations := reservations[key := LogOf(key) + [Call(me, now)]];
      forall k | k != key ensures Kept(k) {
        assert old(Kept(k));
      }
    }

    /** Other threads run: any number of reservations, none of them `me`'s, and when
        `alone`, none on `key`. */
    method OthersRun(ghost me: Tid, ghost key: Key, ghost alone: bool)
      requires Valid()
      modifies this
      ensures Valid()
      ensures Others(old(reservations), reservations, key, me, alone)
    {
    }
  }
}
