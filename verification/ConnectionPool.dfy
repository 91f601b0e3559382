/** The connection pool of core/connection_pool.py.  Each critical section takes one
    step of `PoolLedger` on one router; other threads may run between any two. */
module Pool {

  import opened Environment
  import opened PoolLedger

  type Key = string

  /** `MAX_RETRIES` and `RETRY_DELAY`. */
  const MAX_RETRIES: nat := 2
  const RETRY_DELAY: real := 1.0

  function Pauses(n: nat): real { if n == 0 then 0.0 else Pauses(n - 1) + RETRY_DELAY }

  /** What one thread has at a router: the connections it holds, and whether it is
      opening one against a reserved count or as a replacement. */
  datatype Share = Share(held: set<Conn>, connecting: bool, replacing: bool)

  function Held(lent: map<Conn, Tid>, me: Tid): set<Conn> { set c | c in lent && lent[c] == me }

  function ShareOf(s: Router, me: Tid): Share {
    Share(Held(s.lent, me), me in s.connecting, me in s.replacing)
  }

  lemma LendingMovesHeld(lent: map<Conn, Tid>, c: Conn, t: Tid, me: Tid)
    requires c !in lent
    ensures Held(lent[c := t], me) == Held(lent, me) + if t == me then {c} else {}
  {
  }

  lemma TakingBackMovesHeld(lent: map<Conn, Tid>, c: Conn, me: Tid)
    ensures Held(lent - {c}, me) == Held(lent, me) - {c}
  {
  }

  /** The thread that takes a step; closing the idle connections is nobody's. */
  function Actor(e: Step): set<Tid> { if e.CloseIdle? then {} else {e.t} }

  predicate By(e: Step, t: Tid) { t in Actor(e) }

  /** How a thread's own step moves its share. */
  function Moved(sh: Share, s: Router, e: Step): Share
    requires Enabled(s, e)
  {
    match e
    case Enter(_) => if Reserves(s) then sh.(connecting := true) else sh
    case BeginReconnect(_) =>
      if s.count >= MAX && s.idle != [] then sh.(held := sh.held + {s.idle[0]})
      else sh.(connecting := true)
    case ConnectOk(_, c) => sh.(held := sh.held + {c}, connecting := false)
    case ConnectFail(_) => sh.(connecting := false)
    case TakeIdle(_) => sh.(held := sh.held + {s.idle[0]})
    case ProbeStale(_, c) => sh.(held := sh.held - {c}, replacing := true)
    case ProbeCrash(_, c) => sh.(held := sh.held - {c})
    case ReplaceOk(_, c) => sh.(held := sh.held + {c}, replacing := false)
    case ReplaceFail(_) => sh.(replacing := false)
    case Release(_, c) => sh.(held := sh.held - {c})
    case ReleaseBroken(_, c) => sh.(held := sh.held - {c})
    case CloseIdle => sh
  }

  function Gains(s: Router, e: Step): set<Conn>
    requires Enabled(s, e)
  {
    if e.ConnectOk? || e.ReplaceOk? then {e.c}
    else if e.TakeIdle? || (e.BeginReconnect? && s.count >= MAX && s.idle != []) then {s.idle[0]}
    else {}
  }

  /** How a step moves the loans of a router. */
  function LentAfter(s: Router, e: Step): map<Conn, Tid>
    requires Enabled(s, e)
  {
    match e
    case ConnectOk(t, c) => s.lent[c := t]
    case ReplaceOk(t, c) => s.lent[c := t]
    case TakeIdle(t) => s.lent[s.idle[0] := t]
    case BeginReconnect(t) => if s.count >= MAX && s.idle != [] then s.lent[s.idle[0] := t] else s.lent
    case ProbeStale(_, c) => s.lent - {c}
    case ProbeCrash(_, c) => s.lent - {c}
    case Release(_, c) => s.lent - {c}
    case ReleaseBroken(_, c) => s.lent - {c}
    case _ => s.lent
  }

  lemma {:induction false} DrainKeeps(s: Router)
    ensures Drain(s).lent == s.lent && Drain(s).connecting == s.connecting && Drain(s).replacing == s.replacing
    decreases |s.idle|
  {
    if s.idle != [] {
      DrainKeeps(Discount(s.(idle := s.idle[1..], closed := s.closed + {s.idle[0]})));
    }
  }

  lemma NextLends(s: Router, e: Step)
    requires Enabled(s, e)
    ensures Next(s, e).lent == LentAfter(s, e)
  {
    DrainKeeps(s);
  }

  /** What a step gives to its thread, nobody held. */
  lemma GainsAreNew(s: Router, e: Step)
    requires Inv(s) && Enabled(s, e)
    ensures forall c :: c in Gains(s, e) ==> c !in s.lent
  {
    if s.idle != [] {
      assert OnePlace(s, s.idle[0]);
    }
    if e.ConnectOk? || e.ReplaceOk? {
      assert OnePlace(s, e.c);
    }
  }

  lemma OthersHoldTheSame(s: Router, e: Step, me: Tid)
    requires Enabled(s, e) && !By(e, me) && forall c :: c in Gains(s, e) ==> c !in s.lent
    ensures Held(LentAfter(s, e), me) == Held(s.lent, me)
  {
    match e
    case ConnectOk(t, c) => LendingMovesHeld(s.lent, c, t, me);
    case ReplaceOk(t, c) => LendingMovesHeld(s.lent, c, t, me);
    case TakeIdle(t) => LendingMovesHeld(s.lent, s.idle[0], t, me);
    case BeginReconnect(t) =>
      if s.count >= MAX && s.idle != [] {
        LendingMovesHeld(s.lent, s.idle[0], t, me);
      }
    case ProbeStale(_, c) => TakingBackMovesHeld(s.lent, c, me);
    case ProbeCrash(_, c) => TakingBackMovesHeld(s.lent, c, me);
    case Release(_, c) => TakingBackMovesHeld(s.lent, c, me);
    case ReleaseBroken(_, c) => TakingBackMovesHeld(s.lent, c, me);
    case _ =>
  }

  lemma OtherKeepsMyShare(s: Router, e: Step, me: Tid)
    requires Inv(s) && Enabled(s, e) && !By(e, me)
    ensures ShareOf(Next(s, e), me) == ShareOf(s, me)
  {
    GainsAreNew(s, e);
    NextLends(s, e);
    OthersHoldTheSame(s, e, me);
    DrainKeeps(s);
  }

  lemma IHoldWhatMoved(s: Router, e: Step, me: Tid)
    requires Enabled(s, e) && By(e, me) && forall c :: c in Gains(s, e) ==> c !in s.lent
    ensures Held(LentAfter(s, e), me) == Moved(ShareOf(s, me), s, e).held
  {
    match e
    case ConnectOk(t, c) => LendingMovesHeld(s.lent, c, t, me);
    case ReplaceOk(t, c) => LendingMovesHeld(s.lent, c, t, me);
    case TakeIdle(t) => LendingMovesHeld(s.lent, s.idle[0], t, me);
    case BeginReconnect(t) =>
      if s.count >= MAX && s.idle != [] {
        LendingMovesHeld(s.lent, s.idle[0], t, me);
      }
    case ProbeStale(_, c) => TakingBackMovesHeld(s.lent, c, me);
    case ProbeCrash(_, c) => TakingBackMovesHeld(s.lent, c, me);
    case Release(_, c) => TakingBackMovesHeld(s.lent, c, me);
    case ReleaseBroken(_, c) => TakingBackMovesHeld(s.lent, c, me);
    case _ =>
  }

  lemma MyRoles(s: Router, e: Step, me: Tid)
    requires Enabled(s, e) && By(e, me)
    ensures var m := Moved(ShareOf(s, me), s, e);
            (me in Next(s, e).connecting <==> m.connecting) && (me in Next(s, e).replacing <==> m.replacing)
  {
  }

  /** A thread's own step moves its share as `Moved` says, and what it gains the
      thread did not hold before. */
  lemma MyStep(s: Router, e: Step, me: Tid)
    requires Inv(s) && Enabled(s, e) && By(e, me)
    ensures ShareOf(Next(s, e), me) == Moved(ShareOf(s, me), s, e)
    ensures Gains(s, e) !! ShareOf(s, me).held
  {
    GainsAreNew(s, e);
    NextLends(s, e);
    IHoldWhatMoved(s, e, me);
    MyRoles(s, e, me);
  }

  /** Whatever the other threads do, a thread keeps its connections and
      reservations and gains none. */
  lemma {:induction false} OthersKeepMyShare(s: Router, es: seq<Step>, me: Tid)
    requires Inv(s) && Legal(s, es)
    requires forall i :: 0 <= i < |es| ==> !By(es[i], me)
    ensures ShareOf(Run(s, es), me) == ShareOf(s, me)
    decreases es
  {
    if es != [] {
      NextInv(s, es[0]);
      OtherKeepsMyShare(s, es[0], me);
      OthersKeepMyShare(Next(s, es[0]), es[1..], me);
    }
  }

  type Books = map<Key, Router>

  ghost function At(b: Books, key: Key): Router { if key in b then b[key] else EMPTY }

  ghost function Mine(b: Books, key: Key, me: Tid): Share { ShareOf(At(b, key), me) }

  /** `me` is not in the middle of opening a connection. */
  ghost predicate Settled(b: Books, me: Tid) {
    forall k :: !Mine(b, k, me).connecting && !Mine(b, k, me).replacing
  }

  /** The thread's share of `key` has become `sh`; its other shares are as before. */
  ghost predicate OnlyMine(before: Books, after: Books, me: Tid, key: Key, sh: Share) {
    && Mine(after, key, me) == sh
    && forall k :: k != key ==> Mine(after, k, me) == Mine(before, k, me)
  }

  /** One step was taken on `key`, none elsewhere; it moved the share of the thread
      that took it as `Moved` says, and no other share of that thread. */
  ghost predicate OneStep(before: Books, after: Books, key: Key, e: Step) {
    && Enabled(At(before, key), e)
    && after == before[key := Next(At(before, key), e)]
    && forall t :: By(e, t) ==>
         && OnlyMine(before, after, t, key, Moved(Mine(before, key, t), At(before, key), e))
         && Gains(At(before, key), e) !! Mine(before, key, t).held
  }

  lemma StoreMovesShare(before: Books, key: Key, d: Router, t: Tid)
    ensures OnlyMine(before, before[key := d], t, key, ShareOf(d, t))
  {
    forall k | k != key ensures Mine(before[key := d], k, t) == Mine(before, k, t) {
      assert At(before[key := d], k) == At(before, k);
    }
  }

  lemma StepIsOneStep(before: Books, key: Key, e: Step)
    requires Reachable(At(before, key)) && Enabled(At(before, key), e)
    ensures OneStep(before, before[key := Next(At(before, key), e)], key, e)
  {
    ReachableInv(At(before, key));
    forall t | By(e, t)
      ensures OnlyMine(before, before[key := Next(At(before, key), e)], t, key,
                       Moved(Mine(before, key, t), At(before, key), e))
      ensures Gains(At(before, key), e) !! Mine(before, key, t).held
    {
      StoreMovesShare(before, key, Next(At(before, key), e), t);
      MyStep(At(before, key), e, t);
    }
  }

  /** One lookup and then one to three connects decided the result: it is that of the
      last connect, or the failure of the lookup. */
  ghost predicate Dialled(w: World, from: Mark, to: Mark, r: Result<Conn, Error>) {
    && to == from.(lookups := from.lookups + 1, dials := to.dials)
    && if w.found.At(from.lookups) then
         && from.dials < to.dials <= from.dials + 1 + MAX_RETRIES
         && (match w.dial.At(to.dials - 1)
             case Opened => r.Success?
             case Refused(e) => r == Failure(e))
       else to.dials == from.dials && r == Failure(Unlisted)
  }

  /** One health check decided the result, and after a stale one a replacement. */
  ghost predicate Checked(w: World, from: Mark, to: Mark, r: Result<Conn, Error>) {
    var checked := from.(probes := from.probes + 1);
    match w.probe.At(from.probes)
    case Healthy => to == checked && r.Success?
    case Crashed => to == checked && r == Failure(Unlisted)
    case Stale => Dialled(w, checked, to, r)
  }

  /** The wait ended at an empty queue. */
  ghost predicate TimedOut(from: Mark, to: Mark, after: Router, r: Result<Conn, Error>) {
    to == from && r == Failure(Network(false)) && after.idle == []
  }

  /** What decides the result of get_connection. */
  ghost predicate GotConnection(w: World, before: Router, after: Router, from: Mark, to: Mark, r: Result<Conn, Error>) {
    if Reserves(before) then Dialled(w, from, to, r) else Checked(w, from, to, r) || TimedOut(from, to, after, r)
  }

  /** What decides the result of reconnect. */
  ghost predicate Reconnected(w: World, before: Router, from: Mark, to: Mark, r: Result<Conn, Error>) {
    if before.count >= MAX && before.idle != [] then to == from && r == Success(before.idle[0])
    else Dialled(w, from, to, r)
  }

  class ConnectionPool {
    var pools: map<Key, seq<Conn>>
    var activeCounts: map<Key, int>
    var totalConnectionAttempts: nat
    var successfulConnections: nat
    var failedConnections: nat
    ghost var books: Books

    /** The real fields agree with the books. */
    ghost predicate Kept(key: Key)
      reads `pools, `activeCounts, `successfulConnections, `books
    {
      && (key in pools <==> key in books) && (key in activeCounts <==> key in books)
      && (key in books ==> pools[key] == books[key].idle && activeCounts[key] == books[key].count)
      && At(books, key).bound <= successfulConnections
      && Reachable(At(books, key))
    }

    ghost predicate Valid()
      reads `pools, `activeCounts, `successfulConnections, `books
    {
      forall k :: Kept(k)
    }

    /** The router's queue and counter; a router never used has neither. */
    function Queue(key: Key): seq<Conn>
      reads `pools
    {
      if key in pools then pools[key] else []
    }

    function Count(key: Key): int
      reads `activeCounts
    {
      if key in activeCounts then activeCounts[key] else 0
    }

    constructor ()
      ensures Valid() && books == map[]
    {
      pools, activeCounts, books := map[], map[], map[];
      totalConnectionAttempts, successfulConnections, failedConnections := 0, 0, 0;
      new;
      assert Legal(EMPTY, []) && Run(EMPTY, []) == EMPTY;
    }

    /** A router none of whose entries changed is still kept. */
    twostate lemma StillKept(k: Key)
      requires old(Kept(k)) && At(books, k) == At(old(books), k) && (k in books) == old(k in books)
      requires (k in pools) == old(k in pools) && (k in activeCounts) == old(k in activeCounts)
      requires k in books ==> pools[k] == old(pools)[k] && activeCounts[k] == old(activeCounts)[k]
      requires successfulConnections >= old(successfulConnections)
      ensures Kept(k)
    {
    }

    /** First use of a router: an empty queue and a zero counter. */
    method Register(key: Key)
      requires Valid()
      modifies `pools, `activeCounts, `books
      ensures Valid() && key in pools
      ensures books == old(books)[key := At(old(books), key)]
      ensures Queue(key) == old(Queue(key)) && Count(key) == old(Count(key))
    {
      assert Kept(key);
      books := books[key := At(books, key)];
      if key !in pools {
        pools := pools[key := []];
        activeCounts := activeCounts[key := 0];
      }
      forall k | k != key ensures Kept(k) {
        StillKept(k);
      }
    }

    /** Stores a router's new queue and counter, as step `e` says. */
    method Store(key: Key, queue: seq<Conn>, count: int, ghost e: Step)
      requires Valid() && key in pools && Enabled(At(books, key), e)
      requires queue == Next(At(books, key), e).idle && count == Next(At(books, key), e).count
      requires Next(At(books, key), e).bound <= successfulConnections
      modifies `pools, `activeCounts, `books
      ensures Valid() && key in pools && OneStep(old(books), books, key, e)
      ensures Queue(key) == queue && Count(key) == count
    {
      assert Kept(key);
      ReachableNext(At(books, key), e);
      StepIsOneStep(books, key, e);
      pools := pools[key := queue];
      activeCounts := activeCounts[key := count];
      books := books[key := Next(At(books, key), e)];
      forall k | k != key ensures Kept(k) {
        StillKept(k);
      }
    }

    /** Other threads run: any number of steps, on any routers, none of them `me`'s. */
    method OthersRun(me: Tid)
      requires Valid()
      modifies `pools, `activeCounts, `totalConnectionAttempts, `successfulConnections, `failedConnections, `books
      ensures Valid() && old(pools.Keys) <= pools.Keys
      ensures forall k :: Mine(books, k, me) == Mine(old(books), k, me)
    {
    }

    /** The same while nobody uses the router `key`. */
    method OthersRunElsewhere(me: Tid, key: Key)
      requires Valid()
      modifies `pools, `activeCounts, `totalConnectionAttempts, `successfulConnections, `failedConnections, `books
      ensures Valid() && At(books, key) == At(old(books), key)
      ensures forall k :: Mine(books, k, me) == Mine(old(books), k, me)
    {
    }

    /** The first critical section of get_connection: reserve or queue. */
    method Enter(key: Key, me: Tid) returns (createNew: bool)
      requires Valid() && Free(At(books, key), me)
      modifies `pools, `activeCounts, `books
      ensures Valid() && key in pools && OneStep(old(books), books, key, PoolLedger.Enter(me))
      ensures createNew <==> old(Queue(key)) == [] && old(Count(key)) < 3
      ensures createNew <==> Reserves(At(old(books), key))
      ensures Queue(key) == old(Queue(key)) && Count(key) == old(Count(key)) + if createNew then 1 else 0
    {
      assert Kept(key);
      Register(key);
      assert Kept(key);
      var q := pools[key];
      var count := activeCounts[key];
      createNew := q == [] && count < MAX;
      Store(key, q, if createNew then count + 1 else count, PoolLedger.Enter(me));
    }

    /** A reserved connection could not be opened: the unguarded decrement. */
    method GiveUp(key: Key, me: Tid)
      requires Valid() && key in pools && me in At(books, key).connecting
      modifies `pools, `activeCounts, `books
      ensures Valid() && key in pools && OneStep(old(books), books, key, ConnectFail(me))
      ensures Queue(key) == old(Queue(key)) && Count(key) == old(Count(key)) - 1
    {
      assert Kept(key);
      Store(key, pools[key], activeCounts[key] - 1, ConnectFail(me));
    }

    /** The guarded decrement. */
    function Discounted(count: int): int { if count > 0 then count - 1 else count }

    method CountSuccess()
      requires Valid()
      modifies `successfulConnections
      ensures Valid() && successfulConnections == old(successfulConnections) + 1
    {
      successfulConnections := successfulConnections + 1;
      forall k ensures Kept(k) {
        StillKept(k);
      }
    }

    /** _connect_with_retry: dials until one connect succeeds, one fails with
        anything but LibRouterosError, or the retries are used up. */
    method ConnectWithRetry(w: World) returns (r: Result<Conn, Error>)
      requires Valid()
      modifies `totalConnectionAttempts, `successfulConnections, `failedConnections, w`dials, w`now
      ensures Valid()
      ensures var n := w.dials - old(w.dials);
              && 1 <= n <= 3
              && (forall i :: old(w.dials) <= i < w.dials - 1 ==> w.dial.At(i).Refused? && w.dial.At(i).error.RouterOs?)
              && (n < 3 && w.dial.At(w.dials - 1).Refused? ==> !w.dial.At(w.dials - 1).error.RouterOs?)
              && totalConnectionAttempts == old(totalConnectionAttempts) + n
              && w.now >= old(w.now) + Pauses(n - 1)
              && (n == 2 ==> w.now >= old(w.now) + 1.0) && (n == 3 ==> w.now >= old(w.now) + 2.0)
      ensures match w.dial.At(w.dials - 1)
              case Opened =>
                && r == Success(old(successfulConnections))
                && successfulConnections == old(successfulConnections) + 1
                && failedConnections == old(failedConnections) + (w.dials - old(w.dials) - 1)
              case Refused(e) =>
                && r == Failure(e)
                && successfulConnections == old(successfulConnections)
                && failedConnections
                   == old(failedConnections) + (w.dials - old(w.dials) - (if e.RouterOs? then 0 else 1))
    {
      var attempt := 0;
      r := Failure(Unlisted);
      while attempt < 1 + MAX_RETRIES
        invariant 0 <= attempt <= 1 + MAX_RETRIES && attempt == w.dials - old(w.dials)
        invariant Valid() && successfulConnections == old(successfulConnections)
        invariant totalConnectionAttempts == old(totalConnectionAttempts) + attempt
        invariant failedConnections == old(failedConnections) + attempt
        invariant w.now >= old(w.now) + Pauses(if attempt <= MAX_RETRIES then attempt else MAX_RETRIES)
        invariant forall i :: old(w.dials) <= i < w.dials ==> w.dial.At(i).Refused? && w.dial.At(i).error.RouterOs?
        invariant attempt > 0 ==> r == Failure(w.dial.At(w.dials - 1).error)
      {
        totalConnectionAttempts := totalConnectionAttempts + 1;
        var d := w.Connect();
        match d {
        case Opened =>
          r := Success(successfulConnections);
          CountSuccess();
          return;
        case Refused(e) =>
          r := Failure(e);
          if !e.RouterOs? {
            return;
          }
          failedConnections := failedConnections + 1;
          if attempt < MAX_RETRIES {
            w.Sleep(RETRY_DELAY);
          }
        }
        attempt := attempt + 1;
      }
    }

    /** get_router_info and _connect_with_retry. */
    method Open(w: World) returns (r: Result<Conn, Error>)
      requires Valid()
      modifies `totalConnectionAttempts, `successfulConnections, `failedConnections, w`lookups, w`dials, w`now
      ensures Valid() && w.now >= old(w.now)
      ensures Dialled(w, old(w.Here()), w.Here(), r)
      ensures r.Success? ==> r.value == old(successfulConnections) < successfulConnections
      ensures successfulConnections >= old(successfulConnections)
    {
      var found := w.LookUp();
      if found {
        r := ConnectWithRetry(w);
      } else {
        r := Failure(Unlisted);
      }
    }

    /** The branch of get_connection that opens a connection against a reserved count. */
    method OpenReserved(key: Key, me: Tid, w: World) returns (r: Result<Conn, Error>)
      requires Valid() && key in pools && me in At(books, key).connecting
      modifies this, w`lookups, w`dials, w`now
      ensures Valid() && key in pools && w.now >= old(w.now)
      ensures r.Success? ==> OneStep(old(books), books, key, ConnectOk(me, r.value))
      ensures r.Failure? ==> OneStep(old(books), books, key, ConnectFail(me))
      ensures Dialled(w, old(w.Here()), w.Here(), r)
    {
      assert Kept(key);
      r := Open(w);
      assert Kept(key);
      if r.Success? {
        Store(key, pools[key], activeCounts[key], ConnectOk(me, r.value));
      } else {
        GiveUp(key, me);
      }
    }

    /** The queue hands over its oldest connection. */
    method TakeOldest(key: Key, me: Tid) returns (c: Conn)
      requires Valid() && key in pools && pools[key] != []
      modifies `pools, `activeCounts, `books
      ensures Valid() && key in pools && OneStep(old(books), books, key, TakeIdle(me))
      ensures c == old(Queue(key))[0] && Queue(key) == old(Queue(key))[1..] && Count(key) == old(Count(key))
    {
      assert Kept(key);
      c := pools[key][0];
      Store(key, pools[key][1..], activeCounts[key], TakeIdle(me));
    }

    /** A stale connection is discounted and closed. */
    method Discard(key: Key, me: Tid, c: Conn)
      requires Valid() && key in pools && Enabled(At(books, key), ProbeStale(me, c))
      modifies `pools, `activeCounts, `books
      ensures Valid() && key in pools && OneStep(old(books), books, key, ProbeStale(me, c))
      ensures Queue(key) == old(Queue(key))
      ensures Count(key) == if old(Count(key)) > 0 then old(Count(key)) - 1 else old(Count(key))
    {
      assert Kept(key);
      Store(key, pools[key], Discounted(activeCounts[key]), ProbeStale(me, c));
    }

    /** The replacement of a stale connection, counted once it is open. */
    method OpenReplacement(key: Key, me: Tid, w: World) returns (r: Result<Conn, Error>)
      requires Valid() && key in pools && me in At(books, key).replacing
      modifies this, w`lookups, w`dials, w`now
      ensures Valid() && key in pools && w.now >= old(w.now)
      ensures r.Success? ==> OneStep(old(books), books, key, ReplaceOk(me, r.value))
      ensures r.Failure? ==> OneStep(old(books), books, key, ReplaceFail(me))
      ensures Dialled(w, old(w.Here()), w.Here(), r)
    {
      assert Kept(key);
      r := Open(w);
      assert Kept(key);
      if r.Success? {
        Store(key, pools[key], activeCounts[key] + 1, ReplaceOk(me, r.value));
      } else {
        Store(key, pools[key], activeCounts[key], ReplaceFail(me));
      }
    }

    /** A stale connection is discarded and a new one opened in its place. */
    method ReplaceStale(key: Key, me: Tid, c: Conn, w: World) returns (r: Result<Conn, Error>)
      requires Valid() && Settled(books, me) && key in pools && c in Mine(books, key, me).held
      modifies this, w`lookups, w`dials, w`now
      ensures Valid() && key in pools && w.now >= old(w.now)
      ensures var sh := Mine(old(books), key, me).(held := Mine(old(books), key, me).held - {c});
              && OnlyMine(old(books), books, me, key, if r.Success? then sh.(held := sh.held + {r.value}) else sh)
              && (r.Success? ==> r.value !in sh.held)
      ensures Dialled(w, old(w.Here()), w.Here(), r)
    {
      assert !Mine(books, key, me).replacing;
      Discard(key, me, c);
      OthersRun(me);
      assert Mine(books, key, me).replacing;
      r := OpenReplacement(key, me, w);
    }

    /** The health check of a queued connection, and what follows from it. */
    method CheckIdle(key: Key, me: Tid, c: Conn, w: World) returns (r: Result<Conn, Error>)
      requires Valid() && Settled(books, me) && key in pools && c in Mine(books, key, me).held
      modifies this, w
      ensures Valid() && key in pools && w.now >= old(w.now)
      ensures var sh := Mine(old(books), key, me).(held := Mine(old(books), key, me).held - {c});
              && OnlyMine(old(books), books, me, key, if r.Success? then sh.(held := sh.held + {r.value}) else sh)
              && (r.Success? ==> r.value !in sh.held)
      ensures Checked(w, old(w.Here()), w.Here(), r)
      ensures w.probe.At(old(w.probes)) == Healthy ==> r == Success(c)
      ensures w.probe.At(old(w.probes)) == Stale <==> w.lookups > old(w.lookups)
      ensures w.probe.At(old(w.probes)) == Stale && w.found.At(old(w.lookups)) ==> w.dials > old(w.dials)
    {
      assert Kept(key);
      ghost var held := Mine(books, key, me).held;
      var p := w.CheckHealth();
      match p {
        case Healthy =>
          assert held - {c} + {c} == held;
          r := Success(c);
        case Crashed =>
          r := Failure(Unlisted);
          Store(key, pools[key], activeCounts[key], ProbeCrash(me, c));
        case Stale =>
          r := ReplaceStale(key, me, c, w);
      }
    }

    /** The branch of get_connection that waits for an idle connection, checks its
        health and replaces it when it is stale. */
    method CheckOut(key: Key, me: Tid, w: World) returns (r: Result<Conn, Error>)
      requires Valid() && Settled(books, me) && key in pools && pools[key] != []
      modifies this, w
      ensures Valid() && key in pools && w.now >= old(w.now)
      ensures r.Success? ==> r.value !in Mine(old(books), key, me).held
      ensures var sh := Mine(old(books), key, me);
              OnlyMine(old(books), books, me, key, if r.Success? then sh.(held := sh.held + {r.value}) else sh)
      ensures Checked(w, old(w.Here()), w.Here(), r)
      ensures w.probe.At(old(w.probes)) == Healthy ==> r == Success(old(pools)[key][0])
    {
      ghost var before := Mine(books, key, me);
      assert Kept(key);
      var c := TakeOldest(key, me);
      assert Mine(books, key, me).held - {c} == before.held;
      OthersRun(me);
      r := CheckIdle(key, me, c, w);
    }

    /** The branch of get_connection that waits for an idle connection: other
        threads run, and if the queue is still empty the wait times out. */
    method AwaitIdle(key: Key, me: Tid, w: World) returns (r: Result<Conn, Error>)
      requires Valid() && Settled(books, me) && key in pools
      modifies this, w
      ensures Valid() && key in pools && w.now >= old(w.now)
      ensures r.Success? ==> r.value !in Mine(old(books), key, me).held
      ensures var sh := Mine(old(books), key, me);
              OnlyMine(old(books), books, me, key, if r.Success? then sh.(held := sh.held + {r.value}) else sh)
      ensures || Checked(w, old(w.Here()), w.Here(), r)
              || TimedOut(old(w.Here()), w.Here(), At(books, key), r)
    {
      if pools[key] == [] {
        OthersRun(me);
      }
      if pools[key] == [] {
        assert Kept(key);
        r := Failure(Network(false));
      } else {
        r := CheckOut(key, me, w);
      }
    }

    /** get_connection.  However the other threads interleave, the caller ends up
        holding one connection more, one it did not hold, which was opened or
        passed a health check during this very call; or it gets the error that the
        environment gave, or a timeout at an empty queue, and holds what it held. */
    method GetConnection(key: Key, me: Tid, w: World) returns (r: Result<Conn, Error>)
      requires Valid() && Settled(books, me)
      modifies this, w
      ensures Valid() && Settled(books, me) && key in pools && w.now >= old(w.now)
      ensures r.Success? ==> r.value !in Mine(old(books), key, me).held
      ensures var sh := Mine(old(books), key, me);
              OnlyMine(old(books), books, me, key, if r.Success? then sh.(held := sh.held + {r.value}) else sh)
      ensures GotConnection(w, At(old(books), key), At(books, key), old(w.Here()), w.Here(), r)
      ensures old(Queue(key)) != [] && w.dials > old(w.dials) ==>
                w.probes > old(w.probes) && w.probe.At(old(w.probes)).Stale?
      ensures old(Queue(key)) == [] && old(Count(key)) < MAX ==> w.probes == old(w.probes)
    {
      assert !Mine(books, key, me).connecting && !Mine(books, key, me).replacing;
      var createNew := Enter(key, me);
      OthersRun(me);
      if createNew {
        assert Mine(books, key, me).connecting;
        r := OpenReserved(key, me, w);
      } else {
        r := AwaitIdle(key, me, w);
      }
    }

    /** reconnect: at the cap an idle connection is reused unchecked if there is
        one; otherwise a connection is opened, uncounted when at the cap. */
    method Reconnect(key: Key, me: Tid, w: World) returns (r: Result<Conn, Error>)
      requires Valid() && Settled(books, me)
      modifies this, w
      ensures Valid() && Settled(books, me) && key in pools && w.now >= old(w.now)
      ensures r.Success? ==> r.value !in Mine(old(books), key, me).held
      ensures var sh := Mine(old(books), key, me);
              OnlyMine(old(books), books, me, key, if r.Success? then sh.(held := sh.held + {r.value}) else sh)
      ensures Reconnected(w, At(old(books), key), old(w.Here()), w.Here(), r)
    {
      assert !Mine(books, key, me).connecting && !Mine(books, key, me).replacing;
      var reused := ReserveOrReuse(key, me);
      if reused.Success? {
        r := Success(reused.value);
      } else {
        OthersRun(me);
        assert Mine(books, key, me).connecting;
        r := OpenReserved(key, me, w);
      }
    }

    /** The critical section of reconnect. */
    method ReserveOrReuse(key: Key, me: Tid) returns (r: Result<Conn, ()>)
      requires Valid() && Settled(books, me)
      modifies `pools, `activeCounts, `books
      ensures Valid() && key in pools && OneStep(old(books), books, key, BeginReconnect(me))
      ensures r.Success? <==> At(old(books), key).count >= MAX && At(old(books), key).idle != []
      ensures r.Success? ==> r.value == At(old(books), key).idle[0]
      ensures var (q, n) := (old(Queue(key)), old(Count(key)));
              if n < MAX then r.Failure? && Queue(key) == q && Count(key) == n + 1
              else if q != [] then r == Success(q[0]) && Queue(key) == q[1..] && Count(key) == n
              else r.Failure? && Queue(key) == [] && Count(key) == MAX
    {
      assert !Mine(books, key, me).connecting && !Mine(books, key, me).replacing;
      assert Kept(key);
      Register(key);
      assert Kept(key);
      var q := pools[key];
      var count := activeCounts[key];
      if count >= MAX {
        if q != [] {
          r := Success(q[0]);
          Store(key, q[1..], count, BeginReconnect(me));
        } else {
          r := Failure(());
          Store(key, q, MAX, BeginReconnect(me));
        }
      } else {
        r := Failure(());
        Store(key, q, count + 1, BeginReconnect(me));
      }
    }

    /** release_connection. */
    method ReleaseConnection(key: Key, me: Tid, c: Conn, broken: bool)
      requires Valid() && Settled(books, me) && c in Mine(books, key, me).held
      modifies `pools, `activeCounts, `books
      ensures Valid() && OneStep(old(books), books, key, if broken then ReleaseBroken(me, c) else Release(me, c))
      ensures var (q, n) := (old(Queue(key)), old(Count(key)));
              if broken then Queue(key) == q && Count(key) == (if n > 0 then n - 1 else n)
              else if |q| < MAX then Queue(key) == q + [c] && Count(key) == n
              else Queue(key) == q && Count(key) == n - 1
    {
      assert Kept(key);
      var q := pools[key];
      var count := activeCounts[key];
      if broken {
        Store(key, q, Discounted(count), ReleaseBroken(me, c));
      } else if |q| < MAX {
        Store(key, q + [c], count, Release(me, c));
      } else {
        Store(key, q, count - 1, Release(me, c));
      }
    }

    /** close_connection: closes every idle connection, discounting each. */
    method CloseConnection(key: Key)
      requires Valid()
      modifies `pools, `activeCounts, `books
      ensures Valid()
      ensures key in old(pools) ==> OneStep(old(books), books, key, CloseIdle)
      ensures key !in old(pools) ==> books == old(books)
      ensures Queue(key) == []
      ensures var (q, n) := (old(Queue(key)), old(Count(key)));
              Count(key) == if n > |q| then n - |q| else if n > 0 then 0 else n
    {
      assert Kept(key);
      if key !in pools {
        return;
      }
      assert Kept(key);
      var q := pools[key];
      var count := activeCounts[key];
      ghost var s := At(books, key);
      while q != []
        invariant s.idle == q && s.count == count
        invariant Drain(s) == Drain(At(books, key))
        invariant var (p, n) := (old(Queue(key)), old(Count(key)));
                  |q| <= |p| && count == if n > |p| - |q| then n - (|p| - |q|) else if n > 0 then 0 else n
        decreases |q|
      {
        s := Discount(s.(idle := s.idle[1..], closed := s.closed + {s.idle[0]}));
        q := q[1..];
        count := Discounted(count);
      }
      ReachableInv(At(books, key));
      DrainInv(At(books, key));
      Store(key, q, count, CloseIdle);
    }
  }
}
