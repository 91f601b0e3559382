/** The two tables that hold a user back: the rate limiter of utils/admin_decorator.py
    and the double-click filter of utils/callback_utils.py.  Both forget old entries
    now and then; the reference here, a call history, never forgets. */
module RateTables {

  import opened Basics
  import opened Decimal

  type Table<!K> = map<K, real>

  /** How old an entry must be for a clean-up to drop it (both tables). */
  const MAX_AGE: real := 60.0

  // ---- the reference: a history that nobody cleans up ------------------------

  /** A request for `key` at time `now`, to be held back while less than `limit` has
      passed; or an explicit reset of some keys. */
  datatype Call<!K> = Ask(key: K, limit: real, now: real) | Forget(keys: iset<K>)

  /** When `key` was last let through, 0.0 if never.  A request that follows the last
      one by less than `grace` is let through again. */
  ghost function LastAdmission<K(!new)>(calls: seq<Call<K>>, grace: real, key: K): real
    decreases |calls|, 0
  {
    if calls == [] then 0.0
    else
      var (before, call) := (calls[..|calls| - 1], calls[|calls| - 1]);
      match call
      case Forget(keys) => if key in keys then 0.0 else LastAdmission(before, grace, key)
      case Ask(k, _, now) =>
        if k == key && Admitted(before, grace, call) then now else LastAdmission(before, grace, key)
  }

  ghost predicate Admitted<K(!new)>(before: seq<Call<K>>, grace: real, call: Call<K>)
    requires call.Ask?
    decreases |before|, 1
  {
    Decides(grace, LastAdmission(before, grace, call.key), call)
  }

  ghost predicate Decides<K(!new)>(grace: real, last: real, call: Call<K>)
    requires call.Ask?
  {
    !(grace <= call.now - last < call.limit)
  }

  function Max(a: real, b: real): real { if a >= b then a else b }

  /** The latest clock reading so far. */
  ghost function ClockAfter<K(!new)>(calls: seq<Call<K>>): (t: real)
    ensures t >= 0.0
    decreases |calls|
  {
    if calls == [] then 0.0
    else
      var (before, call) := (ClockAfter(calls[..|calls| - 1]), calls[|calls| - 1]);
      if call.Ask? then Max(before, call.now) else before
  }

  /** The clock does not run backwards from 0.0, and no limit outlives MAX_AGE. */
  ghost predicate InOrder<K(!new)>(calls: seq<Call<K>>)
    decreases |calls|
  {
    calls == [] ||
    var (before, call) := (calls[..|calls| - 1], calls[|calls| - 1]);
    InOrder(before) && (call.Ask? ==> call.now >= ClockAfter(before) && call.limit <= MAX_AGE)
  }

  /** A reading may be late, taken before others but used after them, by as much as its
      limit is below MAX_AGE. */
  ghost predicate NotTooLate<K(!new)>(clock: real, call: Call<K>) {
    call.Ask? ==> 0.0 <= call.now && call.limit <= MAX_AGE && clock <= call.now + (MAX_AGE - call.limit)
  }

  ghost predicate Timely<K(!new)>(calls: seq<Call<K>>)
    decreases |calls|
  {
    calls == [] ||
    var (before, call) := (calls[..|calls| - 1], calls[|calls| - 1]);
    Timely(before) && NotTooLate(ClockAfter(before), call)
  }

  lemma {:induction false} OrderIsTimely<K(!new)>(calls: seq<Call<K>>)
    requires InOrder(calls)
    ensures Timely(calls)
    decreases |calls|
  {
    if calls != [] {
      OrderIsTimely(calls[..|calls| - 1]);
    }
  }

  ghost predicate Admits<K(!new)>(calls: seq<Call<K>>, grace: real, i: nat, key: K) {
    i < |calls| && calls[i].Ask? && calls[i].key == key && Admitted(calls[..i], grace, calls[i])
  }

  /** No reset of `key` among the calls from `i` up to `j`. */
  ghost predicate Kept<K(!new)>(calls: seq<Call<K>>, i: nat, j: nat, key: K) {
    forall m :: i <= m < j && m < |calls| && calls[m].Forget? ==> key !in calls[m].keys
  }

  lemma {:induction false} AdmissionInThePast<K(!new)>(calls: seq<Call<K>>, grace: real, key: K)
    requires Timely(calls)
    ensures 0.0 <= LastAdmission(calls, grace, key) <= ClockAfter(calls)
    decreases |calls|
  {
    if calls != [] {
      AdmissionInThePast(calls[..|calls| - 1], grace, key);
    }
  }

  lemma PrefixAdmits<K(!new)>(calls: seq<Call<K>>, grace: real, key: K, n: nat, i: nat)
    requires i < n <= |calls|
    ensures Admits(calls[..n], grace, i, key) == Admits(calls, grace, i, key)
  {
    assert calls[..n][..i] == calls[..i];
  }

  lemma PrefixKept<K(!new)>(calls: seq<Call<K>>, i: nat, n: nat, key: K)
    requires n <= |calls| && Kept(calls, i, n, key)
    ensures Kept(calls[..n], i, n, key)
  {
    forall m | i <= m < n && calls[..n][m].Forget? ensures key !in calls[..n][m].keys {
      assert calls[m].Forget?;
    }
  }

  /** An admission with none after it is the one remembered. */
  lemma {:induction false} LatestIsRemembered<K(!new)>(calls: seq<Call<K>>, grace: real, key: K, i: nat)
    requires Admits(calls, grace, i, key) && Kept(calls, i, |calls|, key)
    requires forall m :: i < m < |calls| ==> !Admits(calls, grace, m, key)
    ensures LastAdmission(calls, grace, key) == calls[i].now
    decreases |calls|
  {
    var n := |calls| - 1;
    var before := calls[..n];
    if i < n {
      forall m | i <= m < n ensures Admits(before, grace, m, key) == Admits(calls, grace, m, key) {
        PrefixAdmits(calls, grace, key, n, m);
      }
      PrefixKept(calls, i, n, key);
      LatestIsRemembered(before, grace, key, i);
      assert !Admits(calls, grace, n, key);
    }
  }

  /** In order, an admission is remembered or overtaken by a later one. */
  lemma {:induction false} AdmissionIsRemembered<K(!new)>(calls: seq<Call<K>>, grace: real, key: K, i: nat)
    requires InOrder(calls) && Admits(calls, grace, i, key) && Kept(calls, i, |calls|, key)
    ensures calls[i].now <= LastAdmission(calls, grace, key)
    decreases |calls|
  {
    var n := |calls| - 1;
    var before := calls[..n];
    if i < n {
      PrefixAdmits(calls, grace, key, n, i);
      PrefixKept(calls, i, n, key);
      AdmissionIsRemembered(before, grace, key, i);
      OrderIsTimely(before);
      AdmissionInThePast(before, grace, key);
    }
  }

  lemma OrderOfPrefix<K(!new)>(calls: seq<Call<K>>, j: nat)
    requires InOrder(calls) && j <= |calls|
    ensures InOrder(calls[..j])
    decreases |calls|
  {
    if j < |calls| {
      OrderOfPrefix(calls[..|calls| - 1], j);
      assert calls[..|calls| - 1][..j] == calls[..j];
    } else {
      assert calls[..j] == calls;
    }
  }

  /** Successive admissions of a key are less than `grace` or at least `limit` apart,
      whatever the order of the readings. */
  lemma SuccessiveAdmissionsSpaced<K(!new)>(calls: seq<Call<K>>, grace: real, key: K, i: nat, j: nat)
    requires i < j && Admits(calls, grace, i, key) && Admits(calls, grace, j, key)
    requires Kept(calls, i, j, key) && forall m :: i < m < j ==> !Admits(calls, grace, m, key)
    ensures var gap := calls[j].now - calls[i].now;
            (gap < grace || calls[j].limit <= gap) && (InOrder(calls) ==> gap >= 0.0)
  {
    var before := calls[..j];
    forall m | i <= m < j ensures Admits(before, grace, m, key) == Admits(calls, grace, m, key) {
      PrefixAdmits(calls, grace, key, j, m);
    }
    PrefixKept(calls, i, j, key);
    LatestIsRemembered(before, grace, key, i);
    if InOrder(calls) {
      OrderOfPrefix(calls, j);
      OrderOfPrefix(calls, j + 1);
      assert calls[..j + 1][..j] == before;
      OrderIsTimely(before);
      AdmissionInThePast(before, grace, key);
    }
  }

  /** Without a grace period and in order any two admissions of a key are at least
      `limit` apart. */
  lemma AdmissionsSpaced<K(!new)>(calls: seq<Call<K>>, key: K, i: nat, j: nat)
    requires InOrder(calls) && i < j && Admits(calls, 0.0, i, key) && Admits(calls, 0.0, j, key)
    requires Kept(calls, i, j, key)
    ensures calls[i].now + calls[j].limit <= calls[j].now
  {
    var before := calls[..j];
    OrderOfPrefix(calls, j);
    OrderOfPrefix(calls, j + 1);
    assert calls[..j + 1][..j] == before;
    PrefixAdmits(calls, 0.0, key, j, i);
    PrefixKept(calls, i, j, key);
    AdmissionIsRemembered(before, 0.0, key, i);
    OrderIsTimely(before);
    AdmissionInThePast(before, 0.0, key);
  }

  /** A key that was never let through is held back during the first `limit` seconds
      of the clock, because 0.0 stands for "never". */
  lemma {:induction false} FirstRequestWaitsForTheClock<K(!new)>(calls: seq<Call<K>>, grace: real, call: Call<K>)
    requires call.Ask? && forall m :: 0 <= m < |calls| ==> !Admits(calls, grace, m, call.key)
    ensures Admitted(calls, grace, call) <==> call.now < grace || call.limit <= call.now
    decreases |calls|
  {
    if calls != [] {
      var n := |calls| - 1;
      var before := calls[..n];
      forall m | 0 <= m < n ensures !Admits(before, grace, m, call.key) {
        assert before[..m] == calls[..m];
        assert !Admits(calls, grace, m, call.key);
      }
      FirstRequestWaitsForTheClock(before, grace, call);
      assert !Admits(calls, grace, n, call.key);
    }
  }

  /** When `key` was last asked for, admitted or not. */
  ghost function LastAsk<K(!new)>(calls: seq<Call<K>>, key: K): real
    decreases |calls|
  {
    if calls == [] then 0.0
    else if calls[|calls| - 1].Ask? && calls[|calls| - 1].key == key then calls[|calls| - 1].now
    else LastAsk(calls[..|calls| - 1], key)
  }

  /** The grace period renews itself: once admitted, a caller who never lets `grace`
      pass between requests is never held back, whatever the limit. */
  lemma {:induction false} FastCallersAreNeverHeldBack<K(!new)>(calls: seq<Call<K>>, grace: real, key: K,
                                                                 i: nat, j: nat)
    requires i <= j < |calls| && Admits(calls, grace, i, key) && Kept(calls, i, j + 1, key)
    requires forall m :: i < m <= j && calls[m].Ask? && calls[m].key == key ==>
               calls[m].now - LastAsk(calls[..m], key) < grace
    ensures calls[j].Ask? && calls[j].key == key ==> Admits(calls, grace, j, key)
    ensures LastAdmission(calls[..j + 1], grace, key) == LastAsk(calls[..j + 1], key)
    decreases j
  {
    assert calls[..j + 1][..j] == calls[..j];
    if i < j {
      FastCallersAreNeverHeldBack(calls, grace, key, i, j - 1);
    }
  }

  // ---- a table that is cleaned up --------------------------------------------

  function TimeOf<K>(table: Table<K>, key: K): real {
    if key in table then table[key] else 0.0
  }

  function Swept<K>(table: Table<K>, now: real): Table<K> {
    map k | k in table && now - table[k] <= MAX_AGE :: table[k]
  }

  /** The table agrees with the history on what it holds, and whatever it lacks had
      outlived MAX_AGE by `clock` (or never was let through). */
  ghost predicate Represents<K(!new)>(table: Table<K>, calls: seq<Call<K>>, grace: real, clock: real) {
    forall k :: Faithful(table, k, LastAdmission(calls, grace, k), clock)
  }

  ghost predicate Faithful<K(!new)>(table: Table<K>, key: K, last: real, clock: real) {
    if key in table then table[key] == last else last == 0.0 || clock - last > MAX_AGE
  }

  /** Cleaning up is invisible: the table answers as the whole history would. */
  lemma SameAnswer<K(!new)>(table: Table<K>, calls: seq<Call<K>>, grace: real, call: Call<K>)
    requires call.Ask? && Timely(calls + [call])
    requires Represents(table, calls, grace, ClockAfter(calls + [call]))
    ensures Decides(grace, TimeOf(table, call.key), call) <==> Admitted(calls, grace, call)
  {
    assert (calls + [call])[..|calls|] == calls;
    AdmissionInThePast(calls, grace, call.key);
    assert Faithful(table, call.key, LastAdmission(calls, grace, call.key), ClockAfter(calls + [call]));
  }

  lemma LaterStill<K(!new)>(table: Table<K>, calls: seq<Call<K>>, grace: real, clock: real, later: real)
    requires Represents(table, calls, grace, clock) && clock <= later
    ensures Represents(table, calls, grace, later)
  {
    forall k ensures Faithful(table, k, LastAdmission(calls, grace, k), later) {
      assert Faithful(table, k, LastAdmission(calls, grace, k), clock);
    }
  }

  lemma SweepKeeps<K(!new)>(table: Table<K>, calls: seq<Call<K>>, grace: real, now: real, clock: real)
    requires Represents(table, calls, grace, clock) && now <= clock
    ensures Represents(Swept(table, now), calls, grace, clock)
  {
    forall k ensures Faithful(Swept(table, now), k, LastAdmission(calls, grace, k), clock) {
      assert Faithful(table, k, LastAdmission(calls, grace, k), clock);
    }
  }

  lemma AskKeeps<K(!new)>(table: Table<K>, calls: seq<Call<K>>, grace: real, call: Call<K>, clock: real)
    requires call.Ask? && Represents(table, calls, grace, clock)
    ensures var after := if Admitted(calls, grace, call) then table[call.key := call.now] else table;
            Represents(after, calls + [call], grace, clock)
  {
    assert (calls + [call])[..|calls|] == calls;
    var after := if Admitted(calls, grace, call) then table[call.key := call.now] else table;
    forall k ensures Faithful(after, k, LastAdmission(calls + [call], grace, k), clock) {
      assert Faithful(table, k, LastAdmission(calls, grace, k), clock);
    }
  }

  lemma ForgetKeeps<K(!new)>(table: Table<K>, calls: seq<Call<K>>, grace: real, gone: iset<K>, clock: real)
    requires Represents(table, calls, grace, clock)
    ensures Represents(map k | k in table && k !in gone :: table[k], calls + [Forget(gone)], grace, clock)
  {
    assert (calls + [Forget(gone)])[..|calls|] == calls;
    var after := map k | k in table && k !in gone :: table[k];
    forall k ensures Faithful(after, k, LastAdmission(calls + [Forget(gone)], grace, k), clock) {
      assert Faithful(table, k, LastAdmission(calls, grace, k), clock);
    }
  }

  // ---- the rate limiter as a machine -------------------------------------------

  const GRACE: real := 0.05
  const CLEANUP_INTERVAL: real := 300.0

  /** `_rate_limit_data` and `_last_cleanup`. */
  datatype Limiter<!K> = Limiter(table: Table<K>, lastCleanup: real)

  ghost function Cleaned<K(!new)>(l: Limiter<K>, now: real): Limiter<K> {
    if now - l.lastCleanup > CLEANUP_INTERVAL then Limiter(Swept(l.table, now), now) else l
  }

  /** Does the limiter, which cleans up first, let the request through? */
  ghost predicate Answers<K(!new)>(l: Limiter<K>, call: Call<K>)
    requires call.Ask?
  {
    Decides(GRACE, TimeOf(Cleaned(l, call.now).table, call.key), call)
  }

  ghost function Serve<K(!new)>(l: Limiter<K>, call: Call<K>): Limiter<K> {
    match call
    case Ask(key, _, now) =>
      var c := Cleaned(l, now);
      if Answers(l, call) then c.(table := c.table[key := now]) else c
    case Forget(keys) => l.(table := map k | k in l.table && k !in keys :: l.table[k])
  }

  /** The limiter of a module loaded at `started`. */
  ghost function RunLimiter<K(!new)>(started: real, calls: seq<Call<K>>): Limiter<K>
    decreases |calls|
  {
    if calls == [] then Limiter(map[], started)
    else Serve(RunLimiter(started, calls[..|calls| - 1]), calls[|calls| - 1])
  }

  lemma CleanedKeeps<K(!new)>(l: Limiter<K>, calls: seq<Call<K>>, now: real, clock: real)
    requires Represents(l.table, calls, GRACE, clock) && now <= clock
    ensures Represents(Cleaned(l, now).table, calls, GRACE, clock)
  {
    SweepKeeps(l.table, calls, GRACE, now, clock);
  }

  lemma {:induction false} RunRepresents<K(!new)>(started: real, calls: seq<Call<K>>)
    requires Timely(calls)
    ensures Represents(RunLimiter(started, calls).table, calls, GRACE, ClockAfter(calls))
    decreases |calls|
  {
    if calls != [] {
      var (before, call) := (calls[..|calls| - 1], calls[|calls| - 1]);
      var l := RunLimiter(started, before);
      assert calls == before + [call];
      RunRepresents(started, before);
      LaterStill(l.table, before, GRACE, ClockAfter(before), ClockAfter(calls));
      if call.Ask? {
        CleanedKeeps(l, before, call.now, ClockAfter(calls));
        SameAnswer(Cleaned(l, call.now).table, before, GRACE, call);
        AskKeeps(Cleaned(l, call.now).table, before, GRACE, call, ClockAfter(calls));
      } else {
        ForgetKeeps(l.table, before, GRACE, call.keys, ClockAfter(calls));
      }
    }
  }

  /** Cleaning up is invisible: on every timely history the limiter answers as the
      history that nobody cleans up. */
  lemma CleanUpIsInvisible<K(!new)>(started: real, calls: seq<Call<K>>, call: Call<K>)
    requires call.Ask? && Timely(calls + [call])
    ensures Answers(RunLimiter(started, calls), call) <==> Admitted(calls, GRACE, call)
  {
    assert (calls + [call])[..|calls|] == calls;
    var l := RunLimiter(started, calls);
    var clock := ClockAfter(calls + [call]);
    RunRepresents(started, calls);
    LaterStill(l.table, calls, GRACE, ClockAfter(calls), clock);
    CleanedKeeps(l, calls, call.now, clock);
    SameAnswer(Cleaned(l, call.now).table, calls, GRACE, call);
  }

  // ---- how late a reading may be -------------------------------------------------

  /** A run of the limiter: the clock starts at 0.0, the module is loaded before anybody
      reads it, and no request before this one was too late. */
  ghost predicate Real<K(!new)>(started: real, calls: seq<Call<K>>) {
    0.0 <= started && Timely(calls) && forall i :: 0 <= i < |calls| && calls[i].Ask? ==> started <= calls[i].now
  }

  /** Whatever happened until `clock`, a request whose reading is `now` is answered as
      without any cleaning up. */
  ghost predicate Invisible<K(!new)>(key: K, limit: real, now: real, clock: real) {
    forall started, calls ::
      Real(started, calls) && ClockAfter(calls) == clock ==>
        (Answers(RunLimiter(started, calls), Ask(key, limit, now)) <==> Admitted(calls, GRACE, Ask(key, limit, now)))
  }

  /** Before the first clean-up can be due, for a reading within the grace period of the
      clock's start, or for one late by no more than MAX_AGE less the limit (less the
      grace period, if the clock has not reached the limit). */
  predicate SoonEnough(limit: real, now: real, clock: real) {
    clock <= CLEANUP_INTERVAL || now < GRACE || clock <= now + MAX_AGE - (if limit <= now then limit else GRACE)
  }

  /** Until the first clean-up is due the table holds the whole history. */
  lemma {:induction false} UnsweptRun<K(!new)>(started: real, calls: seq<Call<K>>)
    requires 0.0 <= started && ClockAfter(calls) <= CLEANUP_INTERVAL
    ensures RunLimiter(started, calls).lastCleanup == started
    ensures forall k :: TimeOf(RunLimiter(started, calls).table, k) == LastAdmission(calls, GRACE, k)
    decreases |calls|
  {
    if calls != [] {
      UnsweptRun(started, calls[..|calls| - 1]);
    }
  }

  /** The arithmetic of a missing entry. */
  lemma MissingEntry<K(!new)>(last: real, call: Call<K>, clock: real)
    requires call.Ask? && GRACE < call.limit <= MAX_AGE && 0.0 <= call.now
    requires 0.0 <= last && (last == 0.0 || clock - last > MAX_AGE)
    requires call.now < GRACE || clock <= call.now + MAX_AGE - (if call.limit <= call.now then call.limit else GRACE)
    ensures Decides(GRACE, 0.0, call) <==> Decides(GRACE, last, call)
  {
  }

  lemma SoonEnoughIsInvisible<K(!new)>(started: real, calls: seq<Call<K>>, call: Call<K>)
    requires call.Ask? && GRACE < call.limit <= MAX_AGE && 0.0 <= call.now && Real(started, calls)
    requires SoonEnough(call.limit, call.now, ClockAfter(calls))
    ensures Answers(RunLimiter(started, calls), call) <==> Admitted(calls, GRACE, call)
  {
    var (l, clock) := (RunLimiter(started, calls), ClockAfter(calls));
    if clock <= call.now {
      assert (calls + [call])[..|calls|] == calls;
      CleanUpIsInvisible(started, calls, call);
    } else if clock <= CLEANUP_INTERVAL {
      UnsweptRun(started, calls);
    } else {
      RunRepresents(started, calls);
      CleanedKeeps(l, calls, call.now, clock);
      AdmissionInThePast(calls, GRACE, call.key);
      var last := LastAdmission(calls, GRACE, call.key);
      assert Faithful(Cleaned(l, call.now).table, call.key, last, clock);
      if call.key !in Cleaned(l, call.now).table {
        MissingEntry(last, call, clock);
      }
    }
  }

  /** The key was last admitted at `last`, and no clean-up has happened. */
  ghost predicate HoldsOnly<K(!new)>(started: real, calls: seq<Call<K>>, key: K, last: real) {
    && Real(started, calls) && ClockAfter(calls) == last && LastAdmission(calls, GRACE, key) == last
    && RunLimiter(started, calls) == Limiter(map[key := last], started)
  }

  lemma AddAsk<K(!new)>(started: real, calls: seq<Call<K>>, call: Call<K>)
    requires call.Ask? && Real(started, calls) && NotTooLate(ClockAfter(calls), call) && started <= call.now
    ensures Real(started, calls + [call]) && ClockAfter(calls + [call]) == Max(ClockAfter(calls), call.now)
    ensures RunLimiter(started, calls + [call]) == Serve(RunLimiter(started, calls), call)
    ensures forall k :: LastAdmission(calls + [call], GRACE, k) ==
                        if k == call.key && Admitted(calls, GRACE, call) then call.now
                        else LastAdmission(calls, GRACE, k)
  {
    assert (calls + [call])[..|calls|] == calls;
  }

  /** One request at `last` is admitted, if nothing was before it. */
  lemma AdmittedOnce<K(!new)>(started: real, key: K, limit: real, last: real) returns (calls: seq<Call<K>>)
    requires GRACE < limit <= MAX_AGE && 0.0 < last && (last < GRACE || limit <= last)
    requires 0.0 <= started <= last <= started + CLEANUP_INTERVAL
    ensures HoldsOnly(started, calls, key, last)
  {
    calls := [];
    var call: Call<K> := Ask(key, limit, last);
    assert Real(started, calls) && ClockAfter(calls) == 0.0;
    AddAsk(started, calls, call);
    calls := calls + [call];
  }

  /** The grace period, renewed often enough, admits at any early moment. */
  lemma {:induction false} AdmittedEarly<K(!new)>(key: K, limit: real, last: real) returns (calls: seq<Call<K>>)
    requires GRACE < limit <= MAX_AGE && 0.0 < last <= MAX_AGE
    ensures HoldsOnly(0.0, calls, key, last)
    decreases (40.0 * last).Floor
  {
    if last < GRACE {
      calls := AdmittedOnce(0.0, key, limit, last);
    } else {
      calls := AdmittedEarly(key, limit, last - 0.025);
      var call: Call<K> := Ask(key, limit, last);
      AddAsk(0.0, calls, call);
      calls := calls + [call];
    }
  }

  /** A run whose last admission of the key at `last` was cleaned up at `clock`. */
  lemma CleanedUpRun<K(!new)>(key: K, other: K, limit: real, last: real, clock: real)
    returns (started: real, calls: seq<Call<K>>)
    requires key != other && GRACE < limit <= MAX_AGE && 0.0 < last && clock - last > MAX_AGE
    requires clock > CLEANUP_INTERVAL
    ensures Real(started, calls) && ClockAfter(calls) == clock && LastAdmission(calls, GRACE, key) == last
    ensures key !in RunLimiter(started, calls).table && RunLimiter(started, calls).lastCleanup == clock
  {
    started := if last <= CLEANUP_INTERVAL then 0.0 else last - CLEANUP_INTERVAL;
    if last < limit {
      calls := AdmittedEarly(key, limit, last);
    } else {
      calls := AdmittedOnce(started, key, limit, last);
    }
    var call: Call<K> := Ask(other, limit, clock);
    AddAsk(started, calls, call);
    calls := calls + [call];
  }

  /** Where in time the key must have been admitted for a late reading to see that it was
      forgotten. */
  function Telling(limit: real, now: real, clock: real): real {
    var (from, width) := if limit <= now then (now - limit, limit - GRACE) else (now - GRACE, GRACE);
    var late := clock - MAX_AGE - from;
    from + (if late <= width then late / 2.0 else width)
  }

  lemma TellingTells<K(!new)>(call: Call<K>, clock: real)
    requires call.Ask? && GRACE < call.limit <= MAX_AGE && 0.0 <= call.now
    requires !SoonEnough(call.limit, call.now, clock)
    ensures var last := Telling(call.limit, call.now, clock);
            && 0.0 < last && clock - last > MAX_AGE
            && (Decides(GRACE, last, call) <==> !Decides(GRACE, 0.0, call))
  {
  }

  /** Cleaning up is invisible to a request, over all that the limiter may have been
      through, exactly when its reading is soon enough. */
  lemma InvisibleIffSoonEnough<K(!new)>(key: K, other: K, limit: real, now: real, clock: real)
    requires key != other && GRACE < limit <= MAX_AGE && 0.0 <= now
    ensures Invisible(key, limit, now, clock) <==> SoonEnough(limit, now, clock)
  {
    var call: Call<K> := Ask(key, limit, now);
    if SoonEnough(limit, now, clock) {
      forall started, calls: seq<Call<K>> | Real(started, calls) && ClockAfter(calls) == clock
        ensures Answers(RunLimiter(started, calls), call) <==> Admitted(calls, GRACE, call)
      {
        SoonEnoughIsInvisible(started, calls, call);
      }
    } else {
      TellingTells(call, clock);
      var started, calls := CleanedUpRun(key, other, limit, Telling(limit, now, clock), clock);
      assert !(Answers(RunLimiter(started, calls), call) <==> Admitted(calls, GRACE, call));
    }
  }

  // ---- the limits ------------------------------------------------------------

  predicate ContainsAt(text: string, word: string, i: int) {
    0 <= i <= |text| - |word| && text[i..i + |word|] == word
  }

  predicate Contains(text: string, word: string) {
    exists i :: 0 <= i <= |text| - |word| && ContainsAt(text, word, i)
  }

  /** A word is contained in a text exactly if the text is the word with something before
      and something after it. */
  lemma ContainsIff(text: string, word: string)
    ensures Contains(text, word) <==> exists before: string, after: string :: text == before + word + after
  {
    if Contains(text, word) {
      var i :| 0 <= i <= |text| - |word| && ContainsAt(text, word, i);
      assert text == text[..i] + word + text[i + |word|..];
    }
    if before: string, after: string :| text == before + word + after {
      assert ContainsAt(text, word, |before|);
    }
  }

  const DEFAULT_LIMIT: real := 1.0

  /** `_RATE_LIMITS`, in insertion order. */
  function RateLimits(): seq<(string, real)> {
    [("reboot", 10.0), ("manual_add", 2.0), ("backup", 30.0), ("restore", 60.0),
     ("delete", 5.0), ("add", 2.0), ("edit", 2.0)]
  }

  /** The limit of the first word that the function's name contains. */
  ghost predicate IsRateLimit(name: string, limit: real) {
    var limits := RateLimits();
    || (limit == DEFAULT_LIMIT && forall i :: 0 <= i < |limits| ==> !Contains(name, limits[i].0))
    || exists i :: 0 <= i < |limits| && limit == limits[i].1 && Contains(name, limits[i].0)
         && forall j :: 0 <= j < i ==> !Contains(name, limits[j].0)
  }

  /** The table, written out. */
  ghost function LimitByWord(name: string): real {
    if Contains(name, "reboot") then 10.0
    else if Contains(name, "manual_add") then 2.0
    else if Contains(name, "backup") then 30.0
    else if Contains(name, "restore") then 60.0
    else if Contains(name, "delete") then 5.0
    else if Contains(name, "add") || Contains(name, "edit") then 2.0
    else 1.0
  }

  lemma WordByWord(name: string, limit: real)
    requires IsRateLimit(name, limit)
    ensures limit == LimitByWord(name)
  {
    var limits := RateLimits();
    assert limits[0] == ("reboot", 10.0) && limits[1] == ("manual_add", 2.0) && limits[2] == ("backup", 30.0);
    assert limits[3] == ("restore", 60.0) && limits[4] == ("delete", 5.0) && limits[5] == ("add", 2.0);
    assert limits[6] == ("edit", 2.0);
    if i :| 0 <= i < |limits| && limit == limits[i].1 && Contains(name, limits[i].0)
            && forall j :: 0 <= j < i ==> !Contains(name, limits[j].0) {
      assert forall j :: 0 <= j < i ==> !Contains(name, limits[j].0);
    }
  }

  method GetRateLimit(name: string) returns (limit: real)
    ensures IsRateLimit(name, limit)
    ensures 0.0 < limit <= MAX_AGE
    ensures limit == LimitByWord(name)
  {
    var limits := RateLimits();
    var i := 0;
    while i < |limits|
      invariant 0 <= i <= |limits|
      invariant forall j :: 0 <= j < i ==> !Contains(name, limits[j].0)
    {
      if Contains(name, limits[i].0) {
        WordByWord(name, limits[i].1);
        return limits[i].1;
      }
      i := i + 1;
    }
    limit := DEFAULT_LIMIT;
    WordByWord(name, limit);
  }

  /** There is only one such limit, so `GetRateLimit` computes a function. */
  lemma RateLimitIsUnique(name: string, a: real, b: real)
    requires IsRateLimit(name, a) && IsRateLimit(name, b)
    ensures a == b
  {
    var limits := RateLimits();
    if i :| 0 <= i < |limits| && a == limits[i].1 && Contains(name, limits[i].0)
            && forall j :: 0 <= j < i ==> !Contains(name, limits[j].0) {
      if j :| 0 <= j < |limits| && b == limits[j].1 && Contains(name, limits[j].0)
              && forall k :: 0 <= k < j ==> !Contains(name, limits[k].0) {
        assert !(i < j) && !(j < i);
      }
    }
  }

  type UserAction = (int, string)

  class RateLimiter {
    var data: Table<UserAction>
    var lastCleanup: real
    /** The clock when the module was loaded, and the calls since. */
    ghost const started: real
    ghost var history: seq<Call<UserAction>>

    ghost function State(): Limiter<UserAction>
      reads this
    {
      Limiter(data, lastCleanup)
    }

    /** The state is where the history leads. */
    ghost predicate Valid()
      reads this
    {
      State() == RunLimiter(started, history)
    }

    constructor (started: real)
      ensures Valid() && history == [] && this.started == started
    {
      data, lastCleanup := map[], started;
      this.started, history := started, [];
    }

    /** `_check_rate_limit`: as long as no reading was too late, the answer is that of the
        uncleaned history.  The clock is read before the lock is taken, so `now` may be
        any reading. */
    method CheckRateLimit(user: int, name: string, now: real) returns (ok: bool, ghost call: Call<UserAction>)
      requires Valid()
      modifies this
      ensures Valid() && history == old(history) + [call]
      ensures call.Ask? && call.key == (user, name) && call.now == now && IsRateLimit(name, call.limit)
      ensures Timely(history) ==> (ok <==> Admitted(old(history), GRACE, call))
      ensures ok <==> Answers(old(State()), call)
      ensures var due := now - old(lastCleanup) > CLEANUP_INTERVAL;
              var table := if due then Swept(old(data), now) else old(data);
              && lastCleanup == (if due then now else old(lastCleanup))
              && data == if ok then table[(user, name) := now] else table
      ensures var key := (user, name);
              var held := key in old(data) && (now - old(lastCleanup) <= 300.0 || now - old(data)[key] <= 60.0);
              var last := if held then old(data)[key] else 0.0;
              ok <==> now - last < 0.05 || call.limit <= now - last
      ensures forall k :: k != (user, name) ==>
                && (k in data <==> k in old(data) && (now - old(lastCleanup) <= 300.0 || now - old(data)[k] <= 60.0))
                && (k in data ==> data[k] == old(data)[k])
    {
      var limit := GetRateLimit(name);
      call := Ask((user, name), limit, now);
      assert (history + [call])[..|history|] == history;
      if Timely(history + [call]) {
        CleanUpIsInvisible(started, history, call);
      }
      history := history + [call];
      if now - lastCleanup > CLEANUP_INTERVAL {
        data := Swept(data, now);
        lastCleanup := now;
      }
      var diff := now - TimeOf(data, (user, name));
      if GRACE <= diff < limit {
        return false, call;
      }
      data := data[(user, name) := now];
      ok := true;
    }

    /** `_reset_user_rate_limit`. */
    method ResetUser(user: int)
      requires Valid()
      modifies this
      ensures Valid() && history == old(history) + [Forget(iset k: UserAction | k.0 == user)]
      ensures data == map k | k in old(data) && k.0 != user :: old(data)[k]
      ensures lastCleanup == old(lastCleanup)
    {
      ghost var gone := iset k: UserAction | k.0 == user;
      assert (history + [Forget(gone)])[..|history|] == history;
      data := map k | k in data && k.0 != user :: data[k];
      history := history + [Forget(gone)];
    }
  }

  // ---- double clicks -----------------------------------------------------------

  const WINDOW: real := 1.0
  const DEDUP_INTERVAL: real := 30.0

  /** `str(user)`. */
  function PrintInt(n: int): string {
    if n < 0 then "-" + Print(-n) else Print(n)
  }

  /** The key of a click; a missing user and user 0 are both "no user". */
  function ClickKey(data: string, user: Option<int>): string {
    if user.Some? && user.value != 0 then PrintInt(user.value) + ":" + data else data
  }

  lemma PrintIntIsInjective(m: int, n: int)
    requires PrintInt(m) == PrintInt(n)
    ensures m == n
  {
    var (a, b) := (if m < 0 then -m else m, if n < 0 then -n else n);
    assert IsDigit(Print(a)[0]) && IsDigit(Print(b)[0]);
    PrintThenValue(a);
    PrintThenValue(b);
    assert m < 0 ==> PrintInt(m)[0] == '-' && PrintInt(m)[1..] == Print(a);
    assert n < 0 ==> PrintInt(n)[0] == '-' && PrintInt(n)[1..] == Print(b);
  }

  /** Clicks of two real users never share a key, unless user and data are the same. */
  lemma UsersDoNotCollide(data1: string, user1: int, data2: string, user2: int)
    requires user1 != 0 && user2 != 0
    ensures ClickKey(data1, Option.Some(user1)) == ClickKey(data2, Option.Some(user2)) <==>
              user1 == user2 && data1 == data2
  {
    var (p, q) := (PrintInt(user1), PrintInt(user2));
    if p + ":" + data1 == q + ":" + data2 {
      CutIsUnique(p, data1, q, data2, ':');
      PrintIntIsInjective(user1, user2);
    }
  }

  /** No user and user 0 leave the data as it is; a user stands in front, in decimal. */
  lemma ClickKeyIs(data: string, user: int)
    requires user > 0
    ensures ClickKey(data, Option.None) == data && ClickKey(data, Option.Some(0)) == data
    ensures ClickKey(data, Option.Some(user)) == Print(user) + ":" + data
    ensures ClickKey(data, Option.Some(-user)) == "-" + Print(user) + ":" + data
  {
  }

  class ClickFilter {
    var dedup: Table<string>
    var lastCleanup: real
    ghost var history: seq<Call<string>>

    ghost predicate Valid()
      reads this
    {
      InOrder(history) && Represents(dedup, history, 0.0, ClockAfter(history))
    }

    constructor ()
      ensures Valid() && history == []
    {
      dedup, lastCleanup, history := map[], 0.0, [];
    }

    /** `is_duplicate_callback`: a click is a duplicate exactly when the uncleaned
        history holds it back. */
    method IsDuplicate(data: Option<string>, user: Option<int>, now: real) returns (duplicate: bool)
      requires Valid() && now >= ClockAfter(history)
      modifies this
      ensures Valid()
      ensures data == Option.None || data == Option.Some("") ==>
                !duplicate && history == old(history) && dedup == old(dedup) && lastCleanup == old(lastCleanup)
      ensures data.Some? && data.value != "" ==>
                var call := Ask(ClickKey(data.value, user), WINDOW, now);
                && history == old(history) + [call]
                && (duplicate <==> !Admitted(old(history), 0.0, call))
      ensures data.Some? && data.value != "" ==>
                var due := !duplicate && now - old(lastCleanup) > DEDUP_INTERVAL;
                var table := if duplicate then old(dedup) else old(dedup)[ClickKey(data.value, user) := now];
                && lastCleanup == (if due then now else old(lastCleanup))
                && dedup == if due then Swept(table, now) else table
      ensures data.Some? && data.value != "" ==>
                var key := ClickKey(data.value, user);
                var last := if key in old(dedup) then old(dedup)[key] else 0.0;
                && (duplicate <==> now - last < 1.0)
                && (!duplicate ==> key in dedup && dedup[key] == now)
      ensures forall k :: k in dedup ==>
                (k in old(dedup) && dedup[k] == old(dedup)[k]) || (!duplicate && dedup[k] == now)
      ensures forall k :: k in old(dedup) && k !in dedup ==>
                !duplicate && now - old(lastCleanup) > 30.0 && now - old(dedup)[k] > 60.0
      ensures data.Some? && data.value != "" && !duplicate && now - old(lastCleanup) > 30.0 ==>
                forall k :: k in dedup ==> now - dedup[k] <= 60.0
    {
      if data.None? || data.value == "" {
        return false;
      }
      var key := ClickKey(data.value, user);
      ghost var call := Ask(key, WINDOW, now);
      LaterStill(dedup, history, 0.0, ClockAfter(history), now);
      assert (history + [call])[..|history|] == history;
      OrderIsTimely(history + [call]);
      SameAnswer(dedup, history, 0.0, call);
      AskKeeps(dedup, history, 0.0, call, now);
      NeverAhead(dedup, history, key, now);
      history := history + [call];
      if now - TimeOf(dedup, key) < WINDOW {
        return true;
      }
      dedup := dedup[key := now];
      if now - lastCleanup > DEDUP_INTERVAL {
        SweepKeeps(dedup, history, 0.0, now, now);
        dedup := Swept(dedup, now);
        lastCleanup := now;
      }
      duplicate := false;
    }
  }

  lemma NeverAhead<K(!new)>(table: Table<K>, calls: seq<Call<K>>, key: K, now: real)
    requires InOrder(calls) && Represents(table, calls, 0.0, now) && now >= ClockAfter(calls)
    ensures TimeOf(table, key) <= now
  {
    OrderIsTimely(calls);
    AdmissionInThePast(calls, 0.0, key);
    assert Faithful(table, key, LastAdmission(calls, 0.0, key), now);
  }
}
