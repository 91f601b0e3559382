/** One router's share of the connection pool of core/connection_pool.py, as a state
    machine whose steps are the pool's critical sections.  Any interleaving of
    threads is a sequence of such steps. */
module PoolLedger {

  import opened FiniteSets

  /** Connections are numbered in the order in which they were opened. */
  type Conn = nat
  type Tid = nat

  /** `MAX_CONNECTIONS_PER_ROUTER`. */
  const MAX: int := 3

  /** `count` is the router's entry in `active_counts` and `idle` its queue.  The
      rest is history: which thread holds which connection, which threads are
      opening one against a reserved count, which are opening a replacement
      without one, which connections were closed, and which were dropped by a
      health check that raised an unlisted exception.  All their numbers are below
      `bound`.  `debt` is the number of live connections that the counter does not
      know about. */
  datatype Router = Router(
    count: int,
    idle: seq<Conn>,
    lent: map<Conn, Tid>,
    connecting: set<Tid>,
    replacing: set<Tid>,
    closed: set<Conn>,
    lost: set<Conn>,
    bound: nat,
    debt: int
  )

  const EMPTY: Router := Router(0, [], map[], {}, {}, {}, {}, 0, 0)

  datatype Step =
    | Enter(t: Tid)                     // get_connection decides: reserve or queue
    | BeginReconnect(t: Tid)            // reconnect decides: reuse, pin or reserve
    | ConnectOk(t: Tid, c: Conn)        // the reserved connection is open
    | ConnectFail(t: Tid)               // it could not be opened
    | TakeIdle(t: Tid)                  // the queue hands over its oldest connection
    | ProbeStale(t: Tid, c: Conn)       // the health check failed
    | ProbeCrash(t: Tid, c: Conn)       // the health check raised something unlisted
    | ReplaceOk(t: Tid, c: Conn)        // the stale connection's replacement is open
    | ReplaceFail(t: Tid)
    | Release(t: Tid, c: Conn)
    | ReleaseBroken(t: Tid, c: Conn)
    | CloseIdle                         // close_connection

  predicate Free(s: Router, t: Tid) { t !in s.connecting && t !in s.replacing }

  /** `c` is in none of the places where a connection can be. */
  predicate Loose(s: Router, c: Conn) {
    c !in s.idle && c !in s.lent && c !in s.closed && c !in s.lost
  }

  /** A thread acts only on what it holds, and `connect` returns a new object. */
  predicate Enabled(s: Router, e: Step) {
    match e
    case Enter(t) => Free(s, t)
    case BeginReconnect(t) => Free(s, t)
    case ConnectOk(t, c) => t in s.connecting && c >= s.bound
    case ConnectFail(t) => t in s.connecting
    case TakeIdle(t) => s.idle != []
    case ProbeStale(t, c) => c in s.lent && s.lent[c] == t && Free(s, t)
    case ProbeCrash(t, c) => c in s.lent && s.lent[c] == t
    case ReplaceOk(t, c) => t in s.replacing && c >= s.bound
    case ReplaceFail(t) => t in s.replacing
    case Release(t, c) => c in s.lent && s.lent[c] == t
    case ReleaseBroken(t, c) => c in s.lent && s.lent[c] == t
    case CloseIdle => true
  }

  /** The guarded decrement: skipped when the counter is not positive. */
  function Discount(s: Router): Router {
    if s.count > 0 then s.(count := s.count - 1) else s.(debt := s.debt - 1)
  }

  function Lend(s: Router, c: Conn, t: Tid): Router { s.(lent := s.lent[c := t]) }

  function Drain(s: Router): Router
    decreases |s.idle|
  {
    if s.idle == [] then s
    else Drain(Discount(s.(idle := s.idle[1..], closed := s.closed + {s.idle[0]})))
  }

  predicate Reserves(s: Router) { s.idle == [] && s.count < MAX }

  /** A reconnect that opens a connection without counting it. */
  predicate Pins(s: Router, e: Step) { e.BeginReconnect? && s.count >= MAX && s.idle == [] }

  /** A replacement that comes back to a counter already at the cap. */
  predicate Overfills(s: Router, e: Step) { e.ReplaceOk? && s.count >= MAX }

  /** A healthy connection that finds the queue full on its return. */
  predicate FindsQueueFull(s: Router, e: Step) { e.Release? && |s.idle| >= MAX }

  /** An unguarded decrement of a counter that is not positive. */
  predicate Underflows(s: Router, e: Step) { s.count <= 0 && (e.ConnectFail? || FindsQueueFull(s, e)) }

  function Next(s: Router, e: Step): Router
    requires Enabled(s, e)
  {
    match e
    case Enter(t) =>
      if Reserves(s) then s.(count := s.count + 1, connecting := s.connecting + {t}) else s
    case BeginReconnect(t) =>
      if s.count < MAX then s.(count := s.count + 1, connecting := s.connecting + {t})
      else if s.idle != [] then Lend(s.(idle := s.idle[1..]), s.idle[0], t)
      else s.(count := MAX, connecting := s.connecting + {t}, debt := s.debt + 1 + (s.count - MAX))
    case ConnectOk(t, c) => Lend(s.(connecting := s.connecting - {t}, bound := c + 1), c, t)
    case ConnectFail(t) => s.(connecting := s.connecting - {t}, count := s.count - 1)
    case TakeIdle(t) => Lend(s.(idle := s.idle[1..]), s.idle[0], t)
    case ProbeStale(t, c) =>
      Discount(s.(lent := s.lent - {c}, closed := s.closed + {c}, replacing := s.replacing + {t}))
    case ProbeCrash(t, c) => s.(lent := s.lent - {c}, lost := s.lost + {c})
    case ReplaceOk(t, c) => Lend(s.(replacing := s.replacing - {t}, count := s.count + 1, bound := c + 1), c, t)
    case ReplaceFail(t) => s.(replacing := s.replacing - {t})
    case Release(t, c) =>
      if |s.idle| < MAX then s.(lent := s.lent - {c}, idle := s.idle + [c])
      else s.(lent := s.lent - {c}, closed := s.closed + {c}, count := s.count - 1)
    case ReleaseBroken(t, c) => Discount(s.(lent := s.lent - {c}, closed := s.closed + {c}))
    case CloseIdle => Drain(s)
  }

  /** Connections in existence or being opened against a reserved count. */
  function Live(s: Router): nat { |s.idle| + |s.lent| + |s.connecting| + |s.lost| }

  predicate Distinct(cs: seq<Conn>) {
    forall i, j :: 0 <= i < j < |cs| ==> cs[i] != cs[j]
  }

  /** `c` is in at most one place, and in none if its number is not given out yet. */
  predicate OnePlace(s: Router, c: Conn) {
    && (c in s.idle ==> c !in s.lent && c !in s.closed && c !in s.lost)
    && (c in s.lent ==> c !in s.closed && c !in s.lost)
    && (c in s.closed ==> c !in s.lost)
    && (c >= s.bound ==> Loose(s, c))
  }

  ghost predicate Partitioned(s: Router) {
    Distinct(s.idle) && forall c: Conn :: OnePlace(s, c)
  }

  predicate Balanced(s: Router) {
    s.count + s.debt == Live(s) && s.debt >= 0 && |s.idle| <= MAX
  }

  ghost predicate Inv(s: Router) { Partitioned(s) && Balanced(s) }

  // Each way a connection or a reservation can move keeps the partition and
  // moves the number of live connections by the amount stated.

  lemma LendKeeps(s: Router, c: Conn, t: Tid)
    requires Partitioned(s) && Loose(s, c) && c < s.bound
    ensures Partitioned(Lend(s, c, t)) && Live(Lend(s, c, t)) == Live(s) + 1
  {
    var d := Lend(s, c, t);
    assert d.lent.Keys == s.lent.Keys + {c};
    assert |d.lent| == |s.lent| + 1;
    forall x: Conn ensures OnePlace(d, x) {
      assert OnePlace(s, x);
    }
  }

  lemma PopKeeps(s: Router)
    requires Partitioned(s) && s.idle != []
    ensures var d := s.(idle := s.idle[1..]);
            Partitioned(d) && Loose(d, s.idle[0]) && s.idle[0] < s.bound && Live(d) == Live(s) - 1
  {
    var d := s.(idle := s.idle[1..]);
    assert s.idle == [s.idle[0]] + d.idle;
    assert OnePlace(s, s.idle[0]);
    forall x: Conn ensures OnePlace(d, x) {
      assert OnePlace(s, x);
    }
  }

  lemma TakeBackKeeps(s: Router, c: Conn)
    requires Partitioned(s) && c in s.lent
    ensures var d := s.(lent := s.lent - {c});
            Partitioned(d) && Loose(d, c) && c < s.bound && Live(d) == Live(s) - 1
  {
    var d := s.(lent := s.lent - {c});
    assert d.lent.Keys == s.lent.Keys - {c};
    assert |d.lent| == |s.lent| - 1;
    assert OnePlace(s, c);
    forall x: Conn ensures OnePlace(d, x) {
      assert OnePlace(s, x);
    }
  }

  lemma PushKeeps(s: Router, c: Conn)
    requires Partitioned(s) && Loose(s, c) && c < s.bound
    ensures var d := s.(idle := s.idle + [c]);
            Partitioned(d) && Live(d) == Live(s) + 1
  {
    var d := s.(idle := s.idle + [c]);
    forall x: Conn ensures OnePlace(d, x) {
      assert OnePlace(s, x);
    }
  }

  lemma CloseKeeps(s: Router, c: Conn)
    requires Partitioned(s) && Loose(s, c) && c < s.bound
    ensures Partitioned(s.(closed := s.closed + {c}))
  {
    forall x: Conn ensures OnePlace(s.(closed := s.closed + {c}), x) {
      assert OnePlace(s, x);
    }
  }

  lemma LoseKeeps(s: Router, c: Conn)
    requires Partitioned(s) && Loose(s, c) && c < s.bound
    ensures var d := s.(lost := s.lost + {c}); Partitioned(d) && Live(d) == Live(s) + 1
  {
    forall x: Conn ensures OnePlace(s.(lost := s.lost + {c}), x) {
      assert OnePlace(s, x);
    }
  }

  /** The partition is about places and numbers only. */
  lemma SamePlaces(s: Router, d: Router)
    requires Partitioned(s) && d.idle == s.idle && d.lent == s.lent
    requires d.closed == s.closed && d.lost == s.lost && d.bound >= s.bound
    ensures Partitioned(d)
  {
    forall x: Conn ensures OnePlace(d, x) {
      assert OnePlace(s, x);
    }
  }

  lemma {:induction false} DrainInv(s: Router)
    requires Inv(s)
    ensures var d := Drain(s);
            && Inv(d) && d.idle == []
            && d == s.(idle := [], count := d.count, closed := d.closed, debt := d.debt)
            && s.closed <= d.closed
    decreases |s.idle|
  {
    if s.idle != [] {
      var c := s.idle[0];
      var popped := s.(idle := s.idle[1..]);
      var next := popped.(closed := s.closed + {c});
      PopKeeps(s);
      CloseKeeps(popped, c);
      SamePlaces(next, Discount(next));
      DrainInv(Discount(next));
    }
  }

  lemma ReserveKeeps(s: Router, t: Tid)
    requires Partitioned(s)
    ensures t !in s.connecting ==> Live(s.(connecting := s.connecting + {t})) == Live(s) + 1
    ensures t in s.connecting ==> Live(s.(connecting := s.connecting - {t})) == Live(s) - 1
  {
  }

  lemma ReservingInv(s: Router, e: Step)
    requires Inv(s) && Enabled(s, e)
    requires e.Enter? || (e.BeginReconnect? && (s.count < MAX || s.idle == []))
    ensures Inv(Next(s, e))
  {
    ReserveKeeps(s, e.t);
    SamePlaces(s, Next(s, e));
  }

  lemma TakingInv(s: Router, e: Step)
    requires Inv(s) && Enabled(s, e) && s.idle != []
    requires e.TakeIdle? || (e.BeginReconnect? && s.count >= MAX)
    ensures Inv(Next(s, e))
  {
    PopKeeps(s);
    LendKeeps(s.(idle := s.idle[1..]), s.idle[0], e.t);
  }

  lemma ConnectedInv(s: Router, e: Step)
    requires Inv(s) && Enabled(s, e)
    requires e.ConnectOk? || e.ConnectFail? || e.ReplaceOk? || e.ReplaceFail?
    ensures Inv(Next(s, e))
  {
    ReserveKeeps(s, e.t);
    var d := s.(connecting := s.connecting - {e.t});
    if e.ConnectOk? || e.ReplaceOk? {
      assert OnePlace(s, e.c);
      d := if e.ConnectOk? then d.(bound := e.c + 1)
           else s.(replacing := s.replacing - {e.t}, count := s.count + 1, bound := e.c + 1);
      SamePlaces(s, d);
      LendKeeps(d, e.c, e.t);
    } else {
      SamePlaces(s, Next(s, e));
    }
  }

  lemma ReturnInv(s: Router, e: Step)
    requires Inv(s) && Enabled(s, e)
    requires e.Release? || e.ProbeCrash?
    ensures Inv(Next(s, e))
  {
    TakeBackKeeps(s, e.c);
    var d := s.(lent := s.lent - {e.c});
    if e.ProbeCrash? {
      LoseKeeps(d, e.c);
    } else if |s.idle| < MAX {
      PushKeeps(d, e.c);
    } else {
      CloseKeeps(d, e.c);
      SamePlaces(d.(closed := s.closed + {e.c}), Next(s, e));
    }
  }

  lemma DiscardInv(s: Router, e: Step)
    requires Inv(s) && Enabled(s, e)
    requires e.ProbeStale? || e.ReleaseBroken?
    ensures Inv(Next(s, e))
  {
    TakeBackKeeps(s, e.c);
    var d := s.(lent := s.lent - {e.c});
    CloseKeeps(d, e.c);
    SamePlaces(d.(closed := s.closed + {e.c}), Next(s, e));
  }

  /** The ledger: every step keeps `count + debt` equal to the live connections,
      the debt non-negative, the queue within its bound, and every connection in
      one place. */
  lemma NextInv(s: Router, e: Step)
    requires Inv(s) && Enabled(s, e)
    ensures Inv(Next(s, e))
  {
    match e
    case Enter(_) => ReservingInv(s, e);
    case BeginReconnect(_) =>
      if s.count >= MAX && s.idle != [] {
        TakingInv(s, e);
      } else {
        ReservingInv(s, e);
      }
    case TakeIdle(_) => TakingInv(s, e);
    case ConnectOk(_, _) => ConnectedInv(s, e);
    case ConnectFail(_) => ConnectedInv(s, e);
    case ReplaceOk(_, _) => ConnectedInv(s, e);
    case ReplaceFail(_) => ConnectedInv(s, e);
    case ProbeStale(_, _) => DiscardInv(s, e);
    case ReleaseBroken(_, _) => DiscardInv(s, e);
    case ProbeCrash(_, _) => ReturnInv(s, e);
    case Release(_, _) => ReturnInv(s, e);
    case CloseIdle => DrainInv(s);
  }

  // ---- runs ------------------------------------------------------------

  predicate Legal(s: Router, es: seq<Step>)
    decreases es
  {
    es == [] || (Enabled(s, es[0]) && Legal(Next(s, es[0]), es[1..]))
  }

  function Run(s: Router, es: seq<Step>): Router
    requires Legal(s, es)
    decreases es
  {
    if es == [] then s else Run(Next(s, es[0]), es[1..])
  }

  /** How many steps of the run are of the given kind when they are taken. */
  function Number(s: Router, es: seq<Step>, kind: (Router, Step) -> bool): nat
    requires Legal(s, es)
    decreases es
  {
    if es == [] then 0
    else (if kind(s, es[0]) then 1 else 0) + Number(Next(s, es[0]), es[1..], kind)
  }

  /** The counter is within the cap in every state of the run. */
  predicate AlwaysCapped(s: Router, es: seq<Step>)
    requires Legal(s, es)
    decreases es
  {
    s.count <= MAX && (es != [] ==> AlwaysCapped(Next(s, es[0]), es[1..]))
  }

  /** The ledger over every run. */
  lemma {:induction false} LedgerOverRuns(s: Router, es: seq<Step>)
    requires Inv(s) && Legal(s, es)
    ensures Inv(Run(s, es))
    decreases es
  {
    if es != [] {
      NextInv(s, es[0]);
      LedgerOverRuns(Next(s, es[0]), es[1..]);
    }
  }

  function Positive(n: int): nat { if n > 0 then n else 0 }

  /** Closing the idle connections skips as many decrements as the counter falls short. */
  lemma {:induction false} DrainDebt(s: Router)
    ensures var d := Drain(s);
            && d.count + d.debt == s.count + s.debt - |s.idle|
            && d.debt == s.debt - Positive(|s.idle| - Positive(s.count))
            && (s.count >= 0 ==> d.count >= 0)
    decreases |s.idle|
  {
    if s.idle != [] {
      DrainDebt(Discount(s.(idle := s.idle[1..], closed := s.closed + {s.idle[0]})));
    }
  }

  /** The debt rises exactly at pinned reconnects, by one when the counter stood at
      the cap, and falls exactly where guarded decrements are skipped, by their number. */
  lemma DebtMoves(s: Router, e: Step)
    requires Inv(s) && Enabled(s, e)
    ensures Next(s, e).debt > s.debt <==> Pins(s, e)
    ensures Pins(s, e) ==> Next(s, e).debt == s.debt + 1 + (s.count - MAX)
    ensures Next(s, e).debt < s.debt <==>
            || ((e.ProbeStale? || e.ReleaseBroken?) && s.count <= 0)
            || (e.CloseIdle? && s.idle != [] && s.count < |s.idle|)
    ensures (e.ProbeStale? || e.ReleaseBroken?) && s.count <= 0 ==> Next(s, e).debt == s.debt - 1
    ensures e.CloseIdle? ==> Next(s, e).debt == s.debt - Positive(|s.idle| - Positive(s.count))
  {
    DrainDebt(s);
  }

  /** The counter is non-negative in every state of the run. */
  predicate NeverNegative(s: Router, es: seq<Step>)
    requires Legal(s, es)
    decreases es
  {
    s.count >= 0 && (es != [] ==> NeverNegative(Next(s, es[0]), es[1..]))
  }

  /** The counter stays non-negative throughout a run exactly when no unguarded
      decrement, after a failed connect or at a full queue, meets a counter at zero. */
  lemma {:induction false} NeverNegativeIffNoUnderflow(s: Router, es: seq<Step>)
    requires Inv(s) && Legal(s, es) && s.count >= 0
    ensures NeverNegative(s, es) <==> Number(s, es, Underflows) == 0
    decreases es
  {
    if es != [] {
      NextInv(s, es[0]);
      DrainDebt(s);
      if Next(s, es[0]).count >= 0 {
        NeverNegativeIffNoUnderflow(Next(s, es[0]), es[1..]);
      }
    }
  }

  /** The counter stays within the cap throughout a run exactly when no stale
      connection's replacement comes back to a counter already at the cap. */
  lemma {:induction false} CappedIffNoOverfill(s: Router, es: seq<Step>)
    requires Inv(s) && Legal(s, es) && s.count <= MAX
    ensures AlwaysCapped(s, es) <==> Number(s, es, Overfills) == 0
    decreases es
  {
    if es != [] {
      NextInv(s, es[0]);
      DrainDebt(s);
      if Next(s, es[0]).count <= MAX {
        CappedIffNoOverfill(Next(s, es[0]), es[1..]);
      }
    }
  }

  /** Never more live connections than the cap plus the pinned reconnects and the
      overfilling replacements made so far. */
  lemma {:induction false} LiveBoundFrom(s: Router, es: seq<Step>, extra: nat)
    requires Inv(s) && Legal(s, es)
    requires (if s.count > MAX then s.count else MAX) + s.debt <= MAX + extra
    ensures Live(Run(s, es)) <= MAX + extra + Number(s, es, Pins) + Number(s, es, Overfills)
    decreases es
  {
    if es != [] {
      var e := es[0];
      NextInv(s, e);
      DrainDebt(s);
      var more := (if Pins(s, e) then 1 else 0) + (if Overfills(s, e) then 1 else 0);
      LiveBoundFrom(Next(s, e), es[1..], extra + more);
    }
  }

  lemma LiveBound(es: seq<Step>)
    requires Legal(EMPTY, es)
    ensures Live(Run(EMPTY, es)) <= MAX + Number(EMPTY, es, Pins) + Number(EMPTY, es, Overfills)
  {
    LiveBoundFrom(EMPTY, es, 0);
  }

  lemma {:induction false} UnpinnedRunsFrom(s: Router, es: seq<Step>)
    requires Inv(s) && s.debt == 0 && Legal(s, es) && Number(s, es, Pins) == 0
    ensures Run(s, es).debt == 0
    decreases es
  {
    if es != [] {
      NextInv(s, es[0]);
      DebtMoves(s, es[0]);
      UnpinnedRunsFrom(Next(s, es[0]), es[1..]);
    }
  }

  /** Without pinned reconnects the counter is the number of live connections, and so
      never negative, even in runs that pass the cap. */
  lemma UnpinnedRuns(es: seq<Step>)
    requires Legal(EMPTY, es) && Number(EMPTY, es, Pins) == 0
    ensures var d := Run(EMPTY, es); 0 <= d.count == Live(d)
  {
    LedgerOverRuns(EMPTY, es);
    UnpinnedRunsFrom(EMPTY, es);
  }

  /** Every replacement comes back directly after its connection was found stale. */
  predicate ReplacesAtOnce(es: seq<Step>) {
    && (es != [] ==> !es[0].ReplaceOk?)
    && forall i :: 0 < i < |es| && es[i].ReplaceOk? ==> es[i - 1].ProbeStale? && es[i - 1].t == es[i].t
  }

  lemma {:induction false} ReplacesAtOnceFrom(s: Router, es: seq<Step>)
    requires Inv(s) && Legal(s, es) && s.count <= MAX && ReplacesAtOnce(es)
    ensures Number(s, es, Overfills) == 0
    decreases |es|
  {
    if es != [] {
      var d := Next(s, es[0]);
      NextInv(s, es[0]);
      DrainDebt(s);
      if |es| > 1 && es[1].ReplaceOk? {
        assert es[1] == es[1..][0] && es[1..][1..] == es[2..];
        assert es[0].ProbeStale? && d.count < MAX;
        NextInv(d, es[1]);
        ReplacesAtOnceFrom(Next(d, es[1]), es[2..]);
      } else {
        ReplacesAtOnceFrom(d, es[1..]);
      }
    }
  }

  /** If replacing a stale connection were one step, the counter would never pass the
      cap, pinned reconnects or not. */
  lemma CappedIfReplacedAtOnce(es: seq<Step>)
    requires Legal(EMPTY, es) && ReplacesAtOnce(es)
    ensures Number(EMPTY, es, Overfills) == 0 && AlwaysCapped(EMPTY, es)
  {
    ReplacesAtOnceFrom(EMPTY, es);
    CappedIffNoOverfill(EMPTY, es);
  }

  lemma CleanStep(s: Router, e: Step)
    requires Inv(s) && Enabled(s, e) && s.debt == 0 && s.count <= MAX
    requires !Pins(s, e) && !Overfills(s, e)
    ensures Next(s, e).debt == 0 && Next(s, e).count <= MAX && !FindsQueueFull(s, e)
  {
    DebtMoves(s, e);
    NextInv(s, e);
    DrainDebt(s);
    if e.Release? {
      TakeBackKeeps(s, e.c);
    }
  }

  lemma {:induction false} CleanRunsFrom(s: Router, es: seq<Step>)
    requires Inv(s) && s.debt == 0 && s.count <= MAX && Legal(s, es)
    requires Number(s, es, Pins) == 0 && Number(s, es, Overfills) == 0
    ensures var d := Run(s, es); 0 <= d.count == Live(d) <= MAX
    ensures Number(s, es, FindsQueueFull) == 0
    decreases es
  {
    if es != [] {
      NextInv(s, es[0]);
      CleanStep(s, es[0]);
      CleanRunsFrom(Next(s, es[0]), es[1..]);
    }
  }

  /** Without pinned reconnects and overfilling replacements there are moreover never
      more live connections than the cap, and the branch for a full queue in
      release_connection is never taken. */
  lemma CleanRuns(es: seq<Step>)
    requires Legal(EMPTY, es)
    requires Number(EMPTY, es, Pins) == 0 && Number(EMPTY, es, Overfills) == 0
    ensures var d := Run(EMPTY, es); 0 <= d.count == Live(d) <= MAX
    ensures Number(EMPTY, es, FindsQueueFull) == 0
  {
    CleanRunsFrom(EMPTY, es);
  }

  /** So in particular without pinned reconnects and with replacement as one step. */
  lemma CleanIfReplacedAtOnce(es: seq<Step>)
    requires Legal(EMPTY, es) && Number(EMPTY, es, Pins) == 0 && ReplacesAtOnce(es)
    ensures var d := Run(EMPTY, es); 0 <= d.count == Live(d) <= MAX
    ensures Number(EMPTY, es, FindsQueueFull) == 0
  {
    CappedIfReplacedAtOnce(es);
    CleanRuns(es);
  }

  // ---- when the queue fills up -------------------------------------------

  predicate Releases(es: seq<Step>) { forall i :: 0 <= i < |es| ==> es[i].Release? }

  /** Giving connections back, and nothing else, can meet a full queue. */
  ghost predicate CanFill(s: Router) {
    exists es :: Releases(es) && Legal(s, es) && Number(s, es, FindsQueueFull) > 0
  }

  lemma ReleaseMoves(s: Router, e: Step)
    requires Inv(s) && Enabled(s, e) && e.Release?
    ensures |Next(s, e).lent| == |s.lent| - 1
    ensures |s.idle| < MAX ==> |Next(s, e).idle| == |s.idle| + 1
  {
    assert (s.lent - {e.c}).Keys == s.lent.Keys - {e.c};
  }

  lemma {:induction false} ReleasesFit(s: Router, es: seq<Step>)
    requires Inv(s) && Releases(es) && Legal(s, es) && |s.idle| + |s.lent| <= MAX
    ensures Number(s, es, FindsQueueFull) == 0
    decreases es
  {
    if es != [] {
      NextInv(s, es[0]);
      ReleaseMoves(s, es[0]);
      ReleasesFit(Next(s, es[0]), es[1..]);
    }
  }

  lemma {:induction false} ReleasesFill(s: Router) returns (es: seq<Step>)
    requires Inv(s) && |s.idle| + |s.lent| > MAX
    ensures Releases(es) && Legal(s, es) && Number(s, es, FindsQueueFull) > 0
    decreases |s.lent|
  {
    assert s.lent.Keys != {};
    var c := Pick(s.lent.Keys);
    var e := Release(s.lent[c], c);
    NextInv(s, e);
    ReleaseMoves(s, e);
    var rest := [];
    if |s.idle| < MAX {
      rest := ReleasesFill(Next(s, e));
    }
    es := [e] + rest;
    assert es[1..] == rest;
  }

  /** The full-queue branch can be met by returns alone exactly when more connections
      are idle or lent than the queue holds. */
  lemma CanFillIff(s: Router)
    requires Inv(s)
    ensures CanFill(s) <==> |s.idle| + |s.lent| > MAX
  {
    if |s.idle| + |s.lent| > MAX {
      var es := ReleasesFill(s);
    } else {
      forall es | Releases(es) && Legal(s, es) ensures Number(s, es, FindsQueueFull) == 0 {
        ReleasesFit(s, es);
      }
    }
  }

  /** A closed connection is never queued or lent again. */
  lemma {:induction false} ClosedForGood(s: Router, es: seq<Step>, c: Conn)
    requires Inv(s) && Legal(s, es) && c in s.closed
    ensures var d := Run(s, es); c in d.closed && c !in d.idle && c !in d.lent
    decreases es
  {
    assert OnePlace(s, c);
    if es != [] {
      NextInv(s, es[0]);
      DrainInv(s);
      ClosedForGood(Next(s, es[0]), es[1..], c);
    }
  }

  /** A connection whose health check raised an unlisted exception stays lost, and
      counted, for good. */
  lemma {:induction false} LostForGood(s: Router, es: seq<Step>)
    requires Legal(s, es)
    ensures s.lost <= Run(s, es).lost
    decreases es
  {
    if es != [] {
      DrainKeepsLost(s);
      LostForGood(Next(s, es[0]), es[1..]);
    }
  }

  lemma {:induction false} DrainKeepsLost(s: Router)
    ensures Drain(s).lost == s.lost
    decreases |s.idle|
  {
    if s.idle != [] {
      DrainKeepsLost(Discount(s.(idle := s.idle[1..], closed := s.closed + {s.idle[0]})));
    }
  }

  /** A step that counts a connection it is about to open. */
  predicate TakesCount(s: Router, e: Step) { (e.Enter? && Reserves(s)) || (e.BeginReconnect? && s.count < MAX) }

  lemma {:induction false} FullyLostFrom(s: Router, es: seq<Step>)
    requires Inv(s) && s.debt == 0 && |s.lost| >= MAX && Legal(s, es) && Number(s, es, Pins) == 0
    ensures Number(s, es, TakesCount) == 0
    decreases es
  {
    if es != [] {
      var d := Next(s, es[0]);
      NextInv(s, es[0]);
      DebtMoves(s, es[0]);
      LostForGood(s, [es[0]]);
      assert [es[0]][1..] == [];
      SubsetSize(s.lost, d.lost);
      FullyLostFrom(d, es[1..]);
    }
  }

  /** Once as many connections as the cap allows are lost this way, nobody reserves a
      count again, as long as no reconnect is pinned. */
  lemma FullyLost(es: seq<Step>, more: seq<Step>)
    requires Legal(EMPTY, es) && Number(EMPTY, es, Pins) == 0 && |Run(EMPTY, es).lost| >= MAX
    requires Legal(Run(EMPTY, es), more) && Number(Run(EMPTY, es), more, Pins) == 0
    ensures Number(Run(EMPTY, es), more, TakesCount) == 0
  {
    LedgerOverRuns(EMPTY, es);
    UnpinnedRunsFrom(EMPTY, es);
    FullyLostFrom(Run(EMPTY, es), more);
  }

  /** Some interleaving of the router's threads leads to `s`. */
  ghost predicate Reachable(s: Router) {
    exists es :: Legal(EMPTY, es) && Run(EMPTY, es) == s
  }

  lemma ReachableInv(s: Router)
    requires Reachable(s)
    ensures Inv(s)
  {
    var es :| Legal(EMPTY, es) && Run(EMPTY, es) == s;
    LedgerOverRuns(EMPTY, es);
  }

  lemma ReachableNext(s: Router, e: Step)
    requires Reachable(s) && Enabled(s, e)
    ensures Reachable(Next(s, e))
  {
    var es :| Legal(EMPTY, es) && Run(EMPTY, es) == s;
    Append(EMPTY, es, e, Pins);
  }

  // ---- what the code does not guarantee --------------------------------

  lemma {:induction false} Append(s: Router, es: seq<Step>, e: Step, kind: (Router, Step) -> bool)
    requires Legal(s, es) && Enabled(Run(s, es), e)
    ensures Legal(s, es + [e]) && Run(s, es + [e]) == Next(Run(s, es), e)
    ensures Number(s, es + [e], kind) == Number(s, es, kind) + (if kind(Run(s, es), e) then 1 else 0)
    decreases es
  {
    if es != [] {
      assert (es + [e])[1..] == es[1..] + [e];
      Append(Next(s, es[0]), es[1..], e, kind);
    } else {
      assert [e][1..] == [];
    }
  }

  lemma Do(es: seq<Step>, e: Step) returns (more: seq<Step>)
    requires Legal(EMPTY, es) && Enabled(Run(EMPTY, es), e)
    ensures more == es + [e] && Legal(EMPTY, more)
    ensures Run(EMPTY, more) == Next(Run(EMPTY, es), e)
    ensures Number(EMPTY, more, Pins) == Number(EMPTY, es, Pins) + (if Pins(Run(EMPTY, es), e) then 1 else 0)
  {
    more := es + [e];
    Append(EMPTY, es, e, Pins);
  }

  /** Three threads hold the three connections that the cap allows. */
  lemma AllLent() returns (es: seq<Step>)
    ensures Legal(EMPTY, es) && Number(EMPTY, es, Pins) == 0
    ensures forall e :: e in es ==> !e.ConnectFail?
    ensures Run(EMPTY, es) == EMPTY.(count := 3, lent := map[0 := 0, 1 := 1, 2 := 2], bound := 3)
  {
    es := Do([], Enter(0));
    es := Do(es, ConnectOk(0, 0));
    es := Do(es, Enter(1));
    es := Do(es, ConnectOk(1, 1));
    es := Do(es, Enter(2));
    es := Do(es, ConnectOk(2, 2));
    assert {2} - {2} == {};
  }

  /** Without any reconnect the counter can pass the cap: a thread enters while
      another is replacing a stale connection. */
  lemma OverlappedReplacementPassesTheCap() returns (es: seq<Step>)
    ensures Legal(EMPTY, es) && Number(EMPTY, es, Pins) == 0
    ensures Run(EMPTY, es).count == MAX + 1
  {
    es := AllLent();
    es := Do(es, Release(0, 0));
    es := Do(es, TakeIdle(0));
    es := Do(es, ProbeStale(0, 0));
    es := Do(es, Enter(3));
    es := Do(es, ReplaceOk(0, 3));
  }

  /** After a pinned reconnect the unguarded decrement of a failed connect can
      take the counter below zero. */
  lemma PinnedFailureGoesNegative() returns (es: seq<Step>)
    ensures Legal(EMPTY, es) && Run(EMPTY, es).count == -1
  {
    es := AllLent();
    es := Do(es, BeginReconnect(3));
    es := Do(es, ReleaseBroken(0, 0));
    es := Do(es, ReleaseBroken(1, 1));
    es := Do(es, ReleaseBroken(2, 2));
    es := Do(es, ConnectFail(3));
  }

  /** So can that of the full-queue branch, without any failed connect. */
  lemma FullQueueGoesNegative() returns (es: seq<Step>)
    ensures Legal(EMPTY, es) && Run(EMPTY, es).count == -1
    ensures forall e :: e in es ==> !e.ConnectFail?
  {
    es := AllLent();
    es := Do(es, BeginReconnect(3));
    es := Do(es, ConnectOk(3, 3));
    es := Do(es, BeginReconnect(4));
    es := Do(es, ConnectOk(4, 4));
    es := Do(es, BeginReconnect(5));
    es := Do(es, ConnectOk(5, 5));
    es := Do(es, BeginReconnect(6));
    es := Do(es, ConnectOk(6, 6));
    es := ThreeBreak(es);
    es := FourReturn(es);
  }

  lemma ThreeBreak(es: seq<Step>) returns (more: seq<Step>)
    requires Legal(EMPTY, es) && forall e :: e in es ==> !e.ConnectFail?
    requires Run(EMPTY, es).count == 3 && Run(EMPTY, es).idle == []
    requires Run(EMPTY, es).lent == map[0 := 0, 1 := 1, 2 := 2, 3 := 3, 4 := 4, 5 := 5, 6 := 6]
    ensures Legal(EMPTY, more) && forall e :: e in more ==> !e.ConnectFail?
    ensures Run(EMPTY, more).count == 0 && Run(EMPTY, more).idle == []
    ensures Run(EMPTY, more).lent == map[3 := 3, 4 := 4, 5 := 5, 6 := 6]
  {
    more := Do(es, ReleaseBroken(0, 0));
    more := Do(more, ReleaseBroken(1, 1));
    more := Do(more, ReleaseBroken(2, 2));
  }

  lemma FourReturn(es: seq<Step>) returns (more: seq<Step>)
    requires Legal(EMPTY, es) && forall e :: e in es ==> !e.ConnectFail?
    requires Run(EMPTY, es).count == 0 && Run(EMPTY, es).idle == []
    requires Run(EMPTY, es).lent == map[3 := 3, 4 := 4, 5 := 5, 6 := 6]
    ensures Legal(EMPTY, more) && Run(EMPTY, more).count == -1
    ensures forall e :: e in more ==> !e.ConnectFail?
  {
    more := Do(es, Release(3, 3));
    more := Do(more, Release(4, 4));
    more := Do(more, Release(5, 5));
    more := Do(more, Release(6, 6));
  }

  /** A pinned reconnect makes the full-queue branch reachable. */
  lemma PinnedReconnectFillsTheQueue() returns (es: seq<Step>)
    ensures Legal(EMPTY, es) && Enabled(Run(EMPTY, es), Release(3, 3))
    ensures FindsQueueFull(Run(EMPTY, es), Release(3, 3))
  {
    es := AllLent();
    es := Do(es, BeginReconnect(3));
    es := Do(es, ConnectOk(3, 3));
    es := Do(es, Release(0, 0));
    es := Do(es, Release(1, 1));
    es := Do(es, Release(2, 2));
  }
}
