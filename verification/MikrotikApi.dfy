/** The command template of core/mikrotik_api.py: circuit breaker, throttle, leased
    connection, retries with forced reconnects, and one report to the breaker. */
module Stack {

  import opened Environment
  import opened Logs
  import B = Breaker
  import P = Pool
  import T = Throttle
  import L = PoolLedger

  type Key = string
  type Rows = seq<string>

  /** `_RETRY_DELAYS`. */
  const RETRY_DELAYS: seq<real> := [1.0, 2.0]
  const ATTEMPTS: nat := 3

  const REBOOT := "system/reboot"

  /** How long the retry loop has slept when the n-th attempt starts. */
  function Backoff(n: nat): real
    requires n <= ATTEMPTS
  {
    if n <= 1 then 0.0 else Backoff(n - 1) + RETRY_DELAYS[n - 2]
  }

  /** How `_execute_locked` ends. */
  datatype Outcome =
    | ShortCircuited
    | Returned(rows: Rows)
    | Raised(error: Error)

  /** LibRouterosError, ConnectionError or OSError. */
  predicate Transport(e: Error) { !e.Unlisted? }

  predicate Fatal(e: Error) { Transport(e) && e.fatal }

  /** Worth another attempt. */
  predicate Retryable(e: Error) { Transport(e) && !e.fatal }

  /** The connection is closed after any exception that is not fatal: the command's own,
      or one that follows its success while the connection is still leased. */
  predicate Spoils(a: Answer, raises: bool) { if a.Success? then raises else !Fatal(a.error) }

  /** How the attempt that ended the command decides its outcome. */
  function Verdict(reboot: bool, last: Answer): Outcome {
    match last
    case Success(rows) => Returned(rows)
    case Failure(e) => if reboot && Transport(e) then Returned([]) else Raised(e)
  }

  /** What the breaker is told: nothing at all about an unlisted exception. */
  function Reports(reboot: bool, last: Answer, at: real): seq<B.Event> {
    match last
    case Success(_) => [B.Success]
    case Failure(e) =>
      if !Transport(e) then []
      else if reboot || e.fatal then [B.Success]
      else [B.Failure(at)]
  }

  /** One attempt: how far the caller was in the scripts before it, with the lease and
      after it, the router's books before and after leasing, the lease, the answer. */
  datatype Try = Try(from: Mark, leased: Mark, to: Mark, before: L.Router, after: L.Router,
                     lease: Result<L.Conn, Error>, answer: Answer)

  /** What decides the lease. */
  ghost predicate Leased(w: World, forced: bool, before: L.Router, after: L.Router, from: Mark, to: Mark,
                         r: Result<L.Conn, Error>) {
    if forced then P.Reconnected(w, before, from, to, r) else P.GotConnection(w, before, after, from, to, r)
  }

  /** The lease is what the environment and the books decide, and the answer is the one
      command's on the leased connection, or the lease's error. */
  ghost predicate Faithful(w: World, forced: bool, t: Try) {
    && Leased(w, forced, t.before, t.after, t.from, t.leased, t.lease)
    && match t.lease
       case Success(_) =>
         t.answer == w.answer.At(t.leased.commands) && t.to == t.leased.(commands := t.leased.commands + 1)
       case Failure(e) => t.answer == Failure(e) && t.to == t.leased
  }

  /** The tries, the later ones forced, account for all that the caller did. */
  ghost predicate Recorded(w: World, tries: seq<Try>, from: Mark, to: Mark) {
    && (forall i :: 0 <= i < |tries| ==> Faithful(w, i > 0, tries[i]))
    && (forall i :: 0 < i < |tries| ==> tries[i].from == tries[i - 1].to)
    && (if tries == [] then from == to else from == tries[0].from && tries[|tries| - 1].to == to)
  }

  function LastOf(tries: seq<Try>): Answer
    requires tries != []
  {
    tries[|tries| - 1].answer
  }

  /** The attempt failed with a transport error that has none of the fatal texts. */
  predicate FailedRetryably(t: Try) { t.answer.Failure? && t.answer.error != Unlisted && !t.answer.error.fatal }

  /** The attempts of one command: all but the last failed retryably, and the last
      either did not, or was the last allowed, or was a reboot's. */
  predicate Attempted(reboot: bool, tries: seq<Try>) {
    && 1 <= |tries| <= ATTEMPTS
    && (forall i :: 0 <= i < |tries| - 1 ==> !reboot && FailedRetryably(tries[i]))
    && (FailedRetryably(tries[|tries| - 1]) ==> reboot || |tries| == ATTEMPTS)
  }

  predicate Attempting(tries: seq<Try>) { forall i :: 0 <= i < |tries| ==> FailedRetryably(tries[i]) }

  /** A further attempt, from where the last one stopped, extends the record. */
  lemma OneMoreTry(w: World, reboot: bool, tries: seq<Try>, t: Try, from: Mark, here: Mark)
    requires Recorded(w, tries, from, here) && t.from == here && Faithful(w, tries != [], t)
    requires |tries| < ATTEMPTS && (tries != [] ==> !reboot && Attempting(tries))
    ensures Recorded(w, tries + [t], from, t.to)
    ensures FailedRetryably(t) ==> Attempting(tries + [t])
    ensures !FailedRetryably(t) || reboot || |tries| + 1 == ATTEMPTS ==> Attempted(reboot, tries + [t])
    ensures LastOf(tries + [t]) == t.answer
  {
  }

  /** Whatever this caller meets is a retryable failure: an unreachable router. */
  ghost predicate AlwaysFailing(w: World) {
    && (forall n :: w.found.At(n))
    && (forall n :: w.dial.At(n).Refused? ==> Retryable(w.dial.At(n).error))
    && (forall n :: !w.probe.At(n).Crashed?)
    && (forall n :: w.answer.At(n).Failure? && Retryable(w.answer.At(n).error))
  }

  lemma AlwaysFails(w: World, tries: seq<Try>, from: Mark, to: Mark)
    requires AlwaysFailing(w) && Recorded(w, tries, from, to)
    ensures forall i :: 0 <= i < |tries| ==> FailedRetryably(tries[i])
  {
    forall i | 0 <= i < |tries| ensures FailedRetryably(tries[i]) {
      assert Faithful(w, i > 0, tries[i]);
    }
  }

  /** What a command between the marks returns or raises: the rows of its last request,
      whenever that was answered; nothing for a reboot whose connection was lost; else the
      error of its last attempt, which is the third one if the error could be retried. */
  ghost predicate Concluded(w: World, reboot: bool, tries: seq<Try>, from: Mark, to: Mark, r: Outcome)
    requires tries != []
  {
    match tries[|tries| - 1].answer
    case Success(_) => r.Returned? && to.commands > from.commands && w.answer.At(to.commands - 1) == Success(r.rows)
    case Failure(e) =>
      if reboot && e != Unlisted then r == Returned([])
      else r == Raised(e) && (e != Unlisted && !e.fatal ==> |tries| == 3)
  }

  /** The last request so far was sent since the mark, and answered with these rows. */
  ghost predicate AnsweredBy(w: World, commands: nat, rows: Rows)
    reads w`commands
  {
    w.commands > commands && w.answer.At(w.commands - 1) == Success(rows)
  }

  lemma OutcomeOf(w: World, reboot: bool, tries: seq<Try>, from: Mark, to: Mark)
    requires Attempted(reboot, tries) && Recorded(w, tries, from, to)
    ensures Concluded(w, reboot, tries, from, to, Verdict(reboot, LastOf(tries)))
  {
    TriesAreFew(w, tries[..|tries| - 1], from, tries[|tries| - 1].from);
    assert Faithful(w, |tries| > 1, tries[|tries| - 1]);
  }

  /** What the breaker is to hear of an admitted command, by its outcome: a success for
      whatever was returned and for fatal errors, a failure for the other transport
      errors, and nothing more for anything else. */
  ghost function Heard(asked: B.Event, r: Outcome, at: real): seq<B.Event> {
    match r
    case ShortCircuited => [asked]
    case Returned(_) => [asked, B.Success]
    case Raised(e) =>
      if e == Unlisted then [asked] else if e.fatal then [asked, B.Success] else [asked, B.Failure(at)]
  }

  lemma ReportsByOutcome(reboot: bool, last: Answer, at: real, asked: B.Event)
    ensures [asked] + Reports(reboot, last, at) == Heard(asked, Verdict(reboot, last), at)
  {
  }

  /** A command connects at most nine times and is sent at most three times. */
  lemma TriesAreFew(w: World, tries: seq<Try>, from: Mark, to: Mark)
    requires Recorded(w, tries, from, to) && |tries| <= ATTEMPTS
    ensures from.dials <= to.dials <= from.dials + 3 * |tries|
    ensures from.commands <= to.commands <= from.commands + |tries|
  {
    if tries != [] {
      assert Faithful(w, false, tries[0]);
      if |tries| > 1 {
        assert Faithful(w, true, tries[1]);
        if |tries| > 2 {
          assert Faithful(w, true, tries[2]);
        }
      }
    }
  }

  /** What was done to one router by some moment. */
  datatype Activity = Activity(mark: Mark, slots: seq<real>, router: L.Router)

  /** What one admitted command may do. */
  predicate WithinBounds(before: Activity, after: Activity) {
    && |after.slots| == |before.slots| + 1
    && after.mark.dials <= before.mark.dials + 9 && after.mark.commands <= before.mark.commands + ATTEMPTS
  }

  /** One command of a serial caller, with the pause before it: its outcome, when it
      began and ended, and what had been done to the router by then. */
  datatype Visit = Visit(outcome: Outcome, began: real, time: real, before: Activity, after: Activity)

  function Latest(start: Activity, log: seq<Visit>): Activity {
    if log == [] then start else log[|log| - 1].after
  }

  /** How a serial caller fares: the first `threshold` commands are admitted and fail;
      each later one that ends before `timeout` has passed since `openedAt` is
      short-circuited and leaves everything as the last admitted one left it. */
  ghost predicate Booked(start: Activity, log: seq<Visit>, cfg: B.Settings, openedAt: real)
    requires 1 <= cfg.threshold
  {
    && (log != [] ==> log[0].before == start)
    && (forall i :: 0 < i < |log| ==> log[i].before == log[i - 1].after && log[i].began == log[i - 1].time)
    && (forall i :: 0 <= i < |log| && i < cfg.threshold ==>
          log[i].outcome.Raised? && WithinBounds(log[i].before, log[i].after))
    && (|log| >= cfg.threshold ==> log[cfg.threshold - 1].began <= openedAt <= log[cfg.threshold - 1].time)
    && (forall i :: cfg.threshold <= i < |log| && log[i].time < openedAt + cfg.timeout ==>
          log[i].outcome.ShortCircuited? && log[i].after == log[cfg.threshold - 1].after)
  }

  /** So at most 9 connects and 3 requests reach the router for each admitted command,
      and nothing beyond them until the timeout has passed. */
  lemma {:induction false} BookedTotals(start: Activity, log: seq<Visit>, cfg: B.Settings, openedAt: real, i: nat)
    requires 1 <= cfg.threshold && Booked(start, log, cfg, openedAt) && i < |log|
    requires i < cfg.threshold || log[i].time < openedAt + cfg.timeout
    ensures var n := if i < cfg.threshold then i + 1 else cfg.threshold;
            var (was, now) := (start, log[i].after);
            && |now.slots| == |was.slots| + n
            && now.mark.dials <= was.mark.dials + 9 * n && now.mark.commands <= was.mark.commands + ATTEMPTS * n
  {
    if i >= cfg.threshold {
      BookedTotals(start, log, cfg, openedAt, cfg.threshold - 1);
    } else if i > 0 {
      BookedTotals(start, log, cfg, openedAt, i - 1);
    }
  }

  lemma BookOne(start: Activity, log: seq<Visit>, cfg: B.Settings, openedAt: real, v: Visit, since: real)
    requires 1 <= cfg.threshold && Booked(start, log, cfg, openedAt) && v.before == Latest(start, log)
    requires v.began <= v.time && (log != [] ==> log[|log| - 1].time == v.began)
    requires |log| < cfg.threshold ==>
               v.outcome.Raised? && v.began <= since <= v.time && WithinBounds(v.before, v.after)
    requires |log| >= cfg.threshold ==> since == openedAt
    requires |log| >= cfg.threshold && v.time < since + cfg.timeout ==> v.outcome.ShortCircuited? && v.after == v.before
    ensures Booked(start, log + [v], cfg, since)
  {
  }

  class MikrotikApi {
    const pool: P.ConnectionPool
    const breaker: B.CircuitBreaker
    const throttle: T.Throttle

    /** Nobody has read a later time off the clock than `w` shows. */
    ghost predicate Valid(w: World)
      reads pool, breaker, throttle, w`now
    {
      pool.Valid() && breaker.Valid() && throttle.Valid() && breaker.clock <= w.now
    }

    constructor (w: World)
      requires w.now >= 0.0
      ensures Valid(w) && fresh(pool) && fresh(breaker) && fresh(throttle)
      ensures breaker.cfg == B.Settings(3, 30.0) && breaker.history == map[]
      ensures pool.books == map[] && throttle.reservations == map[]
    {
      pool := new P.ConnectionPool();
      breaker := new B.CircuitBreaker(3, 30.0);
      throttle := new T.Throttle();
    }

    /** `me` holds at every router what it held before. */
    twostate predicate SameLeases(me: L.Tid)
      reads pool
    {
      forall k :: P.Mine(pool.books, k, me) == P.Mine(old(pool.books), k, me)
    }

    /** A connection from the pool, or from a forced reconnect. */
    method Lease(key: Key, me: L.Tid, force: bool, w: World) returns (r: Result<L.Conn, Error>)
      requires pool.Valid() && P.Settled(pool.books, me)
      modifies pool, w
      ensures pool.Valid() && P.Settled(pool.books, me) && w.now >= old(w.now)
      ensures r.Success? ==> r.value !in P.Mine(old(pool.books), key, me).held
      ensures var sh := P.Mine(old(pool.books), key, me);
              P.OnlyMine(old(pool.books), pool.books, me, key,
                         if r.Success? then sh.(held := sh.held + {r.value}) else sh)
      ensures Leased(w, force, P.At(old(pool.books), key), P.At(pool.books, key), old(w.Here()), w.Here(), r)
    {
      if force {
        r := pool.Reconnect(key, me, w);
      } else {
        r := pool.GetConnection(key, me, w);
      }
    }

    /** The command on the leased connection `c`, which is then given back; `released` are
        the books just before. */
    method RunOn(key: Key, me: L.Tid, c: L.Conn, raises: bool, w: World)
      returns (a: Answer, ghost released: P.Books)
      requires pool.Valid() && P.Settled(pool.books, me) && c in P.Mine(pool.books, key, me).held
      modifies pool, w`commands
      ensures pool.Valid()
      ensures var sh := P.Mine(old(pool.books), key, me);
              P.OnlyMine(old(pool.books), pool.books, me, key, sh.(held := sh.held - {c}))
      ensures a == w.answer.At(old(w.commands)) && w.commands == old(w.commands) + 1
      ensures GaveBack(released, key, me, c, Spoils(a, raises))
      ensures P.OneStep(released, pool.books, key,
                        match a
                        case Success(_) => if raises then L.ReleaseBroken(me, c) else L.Release(me, c)
                        case Failure(Unlisted) => L.ReleaseBroken(me, c)
                        case Failure(e) => if e.fatal then L.Release(me, c) else L.ReleaseBroken(me, c))
    {
      pool.OthersRun(me);
      a := w.RunCommand();
      released := pool.books;
      pool.ReleaseConnection(key, me, c, Spoils(a, raises));
    }

    /** `_connection_ctx` around one command: leases a connection, runs the command on it
        and, last of all, gives it back, broken unless the command answered or failed for
        good and nothing else raised; `released` are the books just before. */
    method Attempt(key: Key, me: L.Tid, force: bool, raises: bool, w: World)
      returns (a: Answer, ghost t: Try, ghost released: P.Books)
      requires pool.Valid() && P.Settled(pool.books, me)
      modifies pool, w
      ensures pool.Valid() && P.Settled(pool.books, me) && SameLeases(me) && w.now >= old(w.now)
      ensures t.answer == a && t.from == old(w.Here()) && t.to == w.Here() && Faithful(w, force, t)
      ensures t.before == P.At(old(pool.books), key)
      ensures t.lease.Failure? ==> t.after == P.At(pool.books, key)
      ensures t.lease.Success? ==>
                && t.lease.value !in P.Mine(old(pool.books), key, me).held
                && GaveBack(released, key, me, t.lease.value, Spoils(a, raises))
    {
      ghost var (from, before, held) := (w.Here(), P.At(pool.books, key), P.Mine(pool.books, key, me).held);
      var lease := Lease(key, me, force, w);
      ghost var (leased, after) := (w.Here(), P.At(pool.books, key));
      released := pool.books;
      if lease.Failure? {
        a := Failure(lease.error);
      } else {
        assert held + {lease.value} - {lease.value} == held;
        a, released := RunOn(key, me, lease.value, raises, w);
      }
      t := Try(from, leased, w.Here(), before, after, lease, a);
    }

    /** The last step on the books was that `me` gave `c` back. */
    ghost predicate GaveBack(before: P.Books, key: Key, me: L.Tid, c: L.Conn, broken: bool)
      reads pool
    {
      P.OneStep(before, pool.books, key, if broken then L.ReleaseBroken(me, c) else L.Release(me, c))
    }

    /** What `me` told the breaker since the old state: `events` about `key`, and
        nothing about any other router. */
    twostate predicate Told(key: Key, me: L.Tid, new events: seq<B.Event>, alone: bool)
      reads breaker
    {
      Added(old(breaker.history), breaker.history, key, me, events, alone)
    }

    /** `me` reserved a slot of `key` at each of the clock readings since the old state,
        and none of any other router. */
    twostate predicate Granted(key: Key, me: L.Tid, new readings: seq<real>, alone: bool)
      reads throttle
    {
      Added(old(throttle.reservations), throttle.reservations, key, me, readings, alone)
    }

    /** Time passes and other threads use the breaker and the throttle, at will or,
        when `alone`, for other routers only. */
    method OthersRun(key: Key, me: L.Tid, ghost alone: bool, w: World)
      requires breaker.Valid() && throttle.Valid() && breaker.clock <= w.now
      modifies breaker, throttle, w`now, w`readings
      ensures breaker.Valid() && throttle.Valid() && breaker.clock <= w.now && w.now >= old(w.now)
      ensures Others(old(breaker.history), breaker.history, key, me, alone)
      ensures Others(old(throttle.reservations), throttle.reservations, key, me, alone)
    {
      var now := w.Clock();
      breaker.OthersRun(me, key, alone, now);
      throttle.OthersRun(me, key, alone);
    }

    /** `before_request`, with its two clock readings. */
    method BeforeRequest(key: Key, me: L.Tid, w: World) returns (admitted: bool, ghost asked: B.Event)
      requires breaker.Valid() && breaker.clock <= w.now
      modifies breaker, w`now, w`readings
      ensures breaker.Valid() && breaker.clock <= w.now && Told(key, me, [asked], true)
      ensures asked.Attempt? && old(w.now) <= asked.now <= asked.later == w.now
      ensures admitted == B.Admits(breaker.cfg, old(breaker.CircuitOf(key)), asked)
    {
      var now := w.Clock();
      var later := w.Clock();
      asked := B.Attempt(now, later);
      AddedOne(breaker.history, key, me, asked);
      admitted := breaker.CanAttempt(key, now, later, me);
    }

    /** The one report of an admitted command. */
    method Report(key: Key, reboot: bool, last: Answer, me: L.Tid, w: World) returns (ghost at: real)
      requires breaker.Valid() && breaker.clock <= w.now
      modifies breaker, w`now, w`readings
      ensures breaker.Valid() && breaker.clock <= w.now
      ensures Told(key, me, Reports(reboot, last, at), true) && old(w.now) <= at == w.now
    {
      var t := w.Clock();
      at := t;
      if last.Success? || (Transport(last.error) && (reboot || last.error.fatal)) {
        AddedOne(breaker.history, key, me, B.Success);
        breaker.OnSuccess(key, me);
      } else if Transport(last.error) {
        AddedOne(breaker.history, key, me, B.Failure(t));
        breaker.OnFailure(key, t, me);
      }
    }

    /** A slot of the throttle, and the sleep until it. */
    method AwaitSlot(key: Key, me: L.Tid, w: World) returns (ghost slot: real)
      requires throttle.Valid()
      modifies throttle, w`now, w`readings
      ensures throttle.Valid() && Granted(key, me, [slot], true)
      ensures old(w.now) <= slot
      ensures var start := T.LastSlot(T.Slots(throttle.Readings(key)));
              w.now == if start > slot then start else slot
    {
      var reading := w.Clock();
      AddedOne(throttle.reservations, key, me, reading);
      var wait := throttle.Reserve(key, reading, me);
      slot := reading;
      w.Sleep(wait);
    }

    /** The attempt after `tries`, on a forced reconnect and after a delay unless it is the
        first; other threads run in the meantime. */
    method TryNext(key: Key, me: L.Tid, attempt: nat, w: World) returns (a: Answer, ghost t: Try)
      requires pool.Valid() && P.Settled(pool.books, me) && attempt < ATTEMPTS
      modifies pool, w
      ensures pool.Valid() && P.Settled(pool.books, me) && SameLeases(me)
      ensures t.answer == a && t.from == old(w.Here()) && t.to == w.Here() && Faithful(w, attempt > 0, t)
      ensures attempt == 0 ==> t.before == P.At(old(pool.books), key)
      ensures w.now >= old(w.now) + Backoff(attempt + 1) - Backoff(attempt)
    {
      if attempt > 0 {
        w.Sleep(RETRY_DELAYS[attempt - 1]);
        pool.OthersRun(me);
      }
      ghost var released;
      a, t, released := Attempt(key, me, attempt > 0, false, w);
    }

    /** The retry loop: up to three attempts, the later ones on forced reconnects; other
        threads run while it sleeps. */
    method Retry(key: Key, reboot: bool, me: L.Tid, w: World) returns (a: Answer, ghost tries: seq<Try>)
      requires pool.Valid() && P.Settled(pool.books, me)
      modifies pool, w
      ensures pool.Valid() && P.Settled(pool.books, me) && SameLeases(me)
      ensures Attempted(reboot, tries) && a == LastOf(tries)
      ensures Recorded(w, tries, old(w.Here()), w.Here()) && tries[0].before == P.At(old(pool.books), key)
      ensures w.now >= old(w.now) + Backoff(|tries|)
    {
      tries := [];
      var attempt := 0;
      ghost var t;
      a := Failure(Unlisted);
      while attempt < ATTEMPTS
        invariant 0 <= attempt == |tries| <= ATTEMPTS
        invariant pool.Valid() && P.Settled(pool.books, me) && SameLeases(me)
        invariant tries != [] ==> !reboot && Attempting(tries) && a == LastOf(tries)
        invariant Recorded(w, tries, old(w.Here()), w.Here())
        invariant if tries == [] then pool.books == old(pool.books) else tries[0].before == P.At(old(pool.books), key)
        invariant w.now >= old(w.now) + Backoff(attempt)
      {
        ghost var here := w.Here();
        a, t := TryNext(key, me, attempt, w);
        OneMoreTry(w, reboot, tries, t, old(w.Here()), here);
        tries := tries + [t];
        attempt := attempt + 1;
        if a.Success? || !Retryable(a.error) || reboot {
          return;
        }
      }
    }

    /** The time until an admitted command may start. */
    method Start(key: Key, me: L.Tid, ghost alone: bool, w: World) returns (ghost slot: real)
      requires breaker.Valid() && throttle.Valid() && breaker.clock <= w.now
      modifies breaker, throttle, w`now, w`readings
      ensures breaker.Valid() && throttle.Valid() && breaker.clock <= w.now && w.now >= old(w.now)
      ensures Others(old(breaker.history), breaker.history, key, me, alone) && Granted(key, me, [slot], alone)
    {
      OthersRun(key, me, alone, w);
      ghost var reservations := throttle.reservations;
      slot := AwaitSlot(key, me, w);
      OthersThenAdded(old(throttle.reservations), reservations, throttle.reservations, key, me, [slot], alone);
    }

    /** The end of an admitted command: meanwhile others ran, now it reports. */
    method Finish(key: Key, reboot: bool, last: Answer, me: L.Tid, ghost alone: bool, w: World) returns (ghost at: real)
      requires breaker.Valid() && throttle.Valid() && breaker.clock <= w.now
      modifies breaker, throttle, w`now, w`readings
      ensures breaker.Valid() && throttle.Valid() && breaker.clock <= w.now && old(w.now) <= at == w.now
      ensures Told(key, me, Reports(reboot, last, at), alone)
      ensures Others(old(throttle.reservations), throttle.reservations, key, me, alone)
    {
      OthersRun(key, me, alone, w);
      ghost var h := breaker.history;
      at := Report(key, reboot, last, me, w);
      OthersThenAdded(old(breaker.history), h, breaker.history, key, me, Reports(reboot, last, at), alone);
    }

    /** An admitted command: throttle, attempts, report. */
    method Perform(key: Key, reboot: bool, me: L.Tid, ghost alone: bool, w: World)
      returns (r: Outcome, ghost tries: seq<Try>, ghost at: real, ghost slot: real)
      requires Valid(w) && P.Settled(pool.books, me)
      modifies pool, breaker, throttle, w
      ensures Valid(w) && P.Settled(pool.books, me) && SameLeases(me)
      ensures Attempted(reboot, tries) && r == Verdict(reboot, LastOf(tries))
      ensures Recorded(w, tries, old(w.Here()), w.Here()) && tries[0].before == P.At(old(pool.books), key)
      ensures Told(key, me, Reports(reboot, LastOf(tries), at), alone) && old(w.now) + Backoff(|tries|) <= at <= w.now
      ensures Granted(key, me, [slot], alone)
      ensures Concluded(w, reboot, tries, old(w.Here()), w.Here(), r)
    {
      ghost var from := w.Here();
      slot := Start(key, me, alone, w);
      ghost var (h, started) := (breaker.history, throttle.reservations);
      var a;
      a, tries := Retry(key, reboot, me, w);
      at := Finish(key, reboot, a, me, alone, w);
      OthersThenAdded(old(breaker.history), h, breaker.history, key, me, Reports(reboot, a, at), alone);
      AddedThenOthers(old(throttle.reservations), started, throttle.reservations, key, me, [slot], alone);
      r := Verdict(reboot, a);
      OutcomeOf(w, reboot, tries, from, w.Here());
    }

    /** The rest of a command that `asked` and was admitted; `h` is the breaker's history
        before it asked. */
    method Proceed(key: Key, reboot: bool, me: L.Tid, ghost alone: bool, ghost h: Book<Key, B.Event>,
                   ghost asked: B.Event, w: World)
      returns (r: Outcome, ghost tries: seq<Try>, ghost at: real, ghost slot: real)
      requires Valid(w) && P.Settled(pool.books, me) && Added(h, breaker.history, key, me, [asked], alone)
      modifies pool, breaker, throttle, w
      ensures Valid(w) && P.Settled(pool.books, me) && SameLeases(me)
      ensures Attempted(reboot, tries) && Concluded(w, reboot, tries, old(w.Here()), w.Here(), r)
      ensures Recorded(w, tries, old(w.Here()), w.Here()) && tries[0].before == P.At(old(pool.books), key)
      ensures Added(h, breaker.history, key, me, Heard(asked, r, at), alone) && Granted(key, me, [slot], alone)
      ensures old(w.now) + Backoff(|tries|) <= at <= w.now
      ensures r.Returned? && !reboot ==> AnsweredBy(w, old(w.commands), r.rows)
    {
      ghost var asking := breaker.history;
      r, tries, at, slot := Perform(key, reboot, me, alone, w);
      ReportsByOutcome(reboot, LastOf(tries), at, asked);
      AddedTwice(h, asking, breaker.history, key, me, asked, Reports(reboot, LastOf(tries), at), alone);
    }

    /** `_execute_locked`.  Whatever the environment and the other threads do, the
        caller ends up holding what it held; a short-circuited command touches
        neither the throttle nor the pool nor the network; an admitted one reserves
        one slot, makes up to three attempts, each decided by the environment, and
        makes at most one report, as `Heard` says. */
    method ExecuteLocked(key: Key, command: string, me: L.Tid, ghost alone: bool, w: World)
      returns (r: Outcome, ghost asked: B.Event, ghost tries: seq<Try>, ghost at: real, ghost slot: real)
      requires Valid(w) && P.Settled(pool.books, me)
      modifies pool, breaker, throttle, w
      ensures Valid(w) && P.Settled(pool.books, me) && SameLeases(me)
      ensures asked.Attempt? && old(w.now) <= asked.now <= asked.later <= at <= w.now
      ensures r.ShortCircuited? <==> !B.Admits(breaker.cfg, old(breaker.CircuitOf(key)), asked)
      ensures r.ShortCircuited? ==>
                Told(key, me, [asked], true) && unchanged(pool) && unchanged(throttle) && tries == []
      ensures !r.ShortCircuited? ==>
                && Attempted(command == REBOOT, tries)
                && Concluded(w, command == REBOOT, tries, old(w.Here()), w.Here(), r)
                && tries[0].before == P.At(old(pool.books), key)
                && Granted(key, me, [slot], alone)
                && old(w.now) + Backoff(|tries|) <= at
      ensures Recorded(w, tries, old(w.Here()), w.Here())
      ensures |tries| == 2 ==> at >= old(w.now) + 1.0
      ensures |tries| == 3 ==> at >= old(w.now) + 3.0
      ensures r.Returned? && command != REBOOT ==>
                AnsweredBy(w, old(w.commands), r.rows)
      ensures Told(key, me, Heard(asked, r, at), alone)
    {
      tries := [];
      ghost var h := breaker.history;
      var admitted;
      admitted, asked := BeforeRequest(key, me, w);
      at, slot := w.now, w.now;
      if !admitted {
        r := ShortCircuited;
      } else {
        r, tries, at, slot := Proceed(key, command == REBOOT, me, alone, h, asked, w);
      }
    }

    /** `_execute_non_blocking_locked`: one attempt whose failure is swallowed.  It
        asks neither the breaker nor the throttle and reports to neither.  `raises` says
        that the name lookup or the log raises after the command's success. */
    method ExecuteNonBlocking(key: Key, me: L.Tid, raises: bool, w: World)
      returns (ghost t: Try, ghost released: P.Books)
      requires Valid(w) && P.Settled(pool.books, me)
      modifies pool, w
      ensures Valid(w) && P.Settled(pool.books, me) && SameLeases(me)
      ensures Recorded(w, [t], old(w.Here()), w.Here()) && t.before == P.At(old(pool.books), key)
      ensures t.lease.Success? ==> GaveBack(released, key, me, t.lease.value, Spoils(t.answer, raises))
    {
      var a;
      a, t, released := Attempt(key, me, false, raises, w);
    }

    /** check_connection_health: throttled, but outside the breaker. */
    method CheckConnectionHealth(key: Key, me: L.Tid, w: World)
      returns (healthy: bool, ghost t: Try, ghost slot: real)
      requires Valid(w) && P.Settled(pool.books, me)
      modifies pool, throttle, w
      ensures Valid(w) && P.Settled(pool.books, me) && SameLeases(me) && Granted(key, me, [slot], true)
      ensures Recorded(w, [t], old(w.Here()), w.Here()) && t.before == P.At(old(pool.books), key)
      ensures healthy <==> t.answer.Success? && t.answer.value != []
    {
      slot := AwaitSlot(key, me, w);
      var a;
      ghost var released;
      a, t, released := Attempt(key, me, false, false, w);
      healthy := a.Success? && a.value != [];
    }

    /** What a caller has done to a router: its place in the scripts, the slots granted,
        and the pool's books. */
    ghost function DoneTo(key: Key, w: World): Activity
      reads pool, throttle, w
    {
      Activity(w.Here(), throttle.Readings(key), P.At(pool.books, key))
    }

    /** One command to an unreachable router that nobody else uses, seen from its
        circuit. */
    method CallUnreachable(key: Key, command: string, me: L.Tid, w: World)
      returns (r: Outcome, ghost asked: B.Event, ghost at: real)
      requires Valid(w) && P.Settled(pool.books, me)
      requires AlwaysFailing(w) && command != REBOOT
      modifies pool, breaker, throttle, w
      ensures Valid(w) && P.Settled(pool.books, me)
      ensures asked.Attempt? && old(w.now) <= asked.now <= asked.later <= at <= w.now
      ensures r.ShortCircuited? <==> !B.Admits(breaker.cfg, old(breaker.CircuitOf(key)), asked)
      ensures r.ShortCircuited? ==>
                && breaker.CircuitOf(key) == B.Step(breaker.cfg, old(breaker.CircuitOf(key)), asked)
                && pool.books == old(pool.books) && DoneTo(key, w) == old(DoneTo(key, w))
      ensures !r.ShortCircuited? ==>
                && r.Raised?
                && breaker.CircuitOf(key) == B.Run(breaker.cfg, old(breaker.CircuitOf(key)), [asked, B.Failure(at)])
                && |throttle.Readings(key)| == |old(throttle.Readings(key))| + 1
                && w.dials <= old(w.dials) + 9 && w.commands <= old(w.commands) + ATTEMPTS
    {
      ghost var h := breaker.History(key);
      ghost var c := breaker.CircuitOf(key);
      ghost var from := w.Here();
      assert breaker.Sound(key);
      ghost var tries, slot;
      r, asked, tries, at, slot := ExecuteLocked(key, command, me, true, w);
      assert breaker.Sound(key);
      AlwaysFails(w, tries, from, w.Here());
      TriesAreFew(w, tries, from, w.Here());
      assert !r.ShortCircuited? ==> FailedRetryably(tries[|tries| - 1]);
      B.RunConcat(breaker.cfg, B.FRESH, h, [asked]);
      B.RunConcat(breaker.cfg, B.FRESH, h, [asked, B.Failure(at)]);
      assert B.Run(breaker.cfg, c, [asked]) == B.Step(breaker.cfg, c, asked);
    }

    /** Between two commands of a serial caller nobody uses its router. */
    method Idle(key: Key, me: L.Tid, w: World)
      requires Valid(w) && P.Settled(pool.books, me)
      modifies pool, breaker, throttle, w`now, w`readings
      ensures Valid(w) && P.Settled(pool.books, me) && w.now >= old(w.now)
      ensures breaker.CircuitOf(key) == old(breaker.CircuitOf(key))
      ensures DoneTo(key, w) == old(DoneTo(key, w))
    {
      assert breaker.Sound(key);
      OthersRun(key, me, true, w);
      assert breaker.Sound(key);
      pool.OthersRunElsewhere(me, key);
    }

    /** The circuit after `served` commands of a serial caller: counting failures up to
        the threshold, then open since `openedAt` until `timeout` has passed. */
    ghost predicate Served(key: Key, served: nat, openedAt: real, w: World)
      requires 1 <= breaker.cfg.threshold
      reads breaker, w`now
    {
      if served < breaker.cfg.threshold then breaker.CircuitOf(key) == B.Closed(served)
      else w.now < openedAt + breaker.cfg.timeout ==> breaker.CircuitOf(key) == B.Open(breaker.cfg.threshold, openedAt)
    }

    /** The next command of a serial caller, after a pause. */
    method ServeNext(key: Key, command: string, me: L.Tid, ghost served: nat, ghost openedAt: real, w: World)
      returns (r: Outcome, ghost since: real)
      requires Valid(w) && P.Settled(pool.books, me)
      requires AlwaysFailing(w) && command != REBOOT
      requires 1 <= breaker.cfg.threshold && Served(key, served, openedAt, w)
      modifies pool, breaker, throttle, w
      ensures Valid(w) && P.Settled(pool.books, me) && w.now >= old(w.now)
      ensures Served(key, served + 1, since, w)
      ensures served < breaker.cfg.threshold ==>
                && r.Raised? && old(w.now) <= since <= w.now
                && WithinBounds(old(DoneTo(key, w)), DoneTo(key, w))
      ensures served >= breaker.cfg.threshold ==> since == openedAt
      ensures served >= breaker.cfg.threshold && w.now < since + breaker.cfg.timeout ==>
                r.ShortCircuited? && DoneTo(key, w) == old(DoneTo(key, w))
    {
      Idle(key, me, w);
      ghost var c := breaker.CircuitOf(key);
      ghost var asked, at;
      r, asked, at := CallUnreachable(key, command, me, w);
      since := openedAt;
      if served < breaker.cfg.threshold {
        since := at;
        RunOfTwo(breaker.cfg, c, asked, B.Failure(at));
      }
    }

    /** The log accounts for all that happened to the router, and for its circuit. */
    ghost predicate UpToDate(key: Key, start: Activity, log: seq<Visit>, openedAt: real, w: World)
      requires 1 <= breaker.cfg.threshold
      reads pool, breaker, throttle, w
    {
      && Booked(start, log, breaker.cfg, openedAt) && Served(key, |log|, openedAt, w)
      && DoneTo(key, w) == Latest(start, log) && (log != [] ==> log[|log| - 1].time == w.now)
    }

    /** The next command, entered in the log. */
    method VisitNext(key: Key, command: string, me: L.Tid, ghost start: Activity, ghost log: seq<Visit>,
                     ghost openedAt: real, w: World)
      returns (ghost v: Visit, r: Outcome, ghost since: real)
      requires Valid(w) && P.Settled(pool.books, me)
      requires AlwaysFailing(w) && command != REBOOT
      requires 1 <= breaker.cfg.threshold && UpToDate(key, start, log, openedAt, w)
      modifies pool, breaker, throttle, w
      ensures Valid(w) && P.Settled(pool.books, me)
      ensures r == v.outcome && v.began == old(w.now) && UpToDate(key, start, log + [v], since, w)
    {
      ghost var (began, before) := (w.now, DoneTo(key, w));
      r, since := ServeNext(key, command, me, |log|, openedAt, w);
      v := Visit(r, began, w.now, before, DoneTo(key, w));
      BookOne(start, log, breaker.cfg, openedAt, v, since);
    }

    /** A serial caller of an unreachable router with a fresh circuit gets exactly
        `threshold` commands admitted; every later command that ends before `timeout` has
        passed since the circuit opened, during the last admitted one, is short-circuited
        and leaves the scripts, the slots and the pool as that one left them. */
    method SerialCaller(key: Key, command: string, me: L.Tid, n: nat, w: World)
      returns (rs: seq<Outcome>, ghost log: seq<Visit>, ghost openedAt: real)
      requires Valid(w) && P.Settled(pool.books, me)
      requires AlwaysFailing(w) && command != REBOOT
      requires breaker.CircuitOf(key) == B.FRESH && 1 <= breaker.cfg.threshold
      modifies pool, breaker, throttle, w
      ensures |rs| == |log| == n && forall i :: 0 <= i < n ==> rs[i] == log[i].outcome
      ensures UpToDate(key, old(DoneTo(key, w)), log, openedAt, w) && (n > 0 ==> log[0].began == old(w.now))
    {
      rs, log, openedAt := [], [], w.now;
      ghost var start := DoneTo(key, w);
      while |rs| < n
        invariant |rs| == |log| <= n && Valid(w) && P.Settled(pool.books, me)
        invariant forall i :: 0 <= i < |rs| ==> rs[i] == log[i].outcome
        invariant UpToDate(key, start, log, openedAt, w)
        invariant if log == [] then w.now == old(w.now) else log[0].began == old(w.now)
      {
        var r;
        ghost var v;
        v, r, openedAt := VisitNext(key, command, me, start, log, openedAt, w);
        rs, log := rs + [r], log + [v];
      }
    }
  }

  lemma RunOfTwo(cfg: B.Settings, c: B.Circuit, e: B.Event, f: B.Event)
    ensures B.Run(cfg, c, [e, f]) == B.Step(cfg, B.Step(cfg, c, e), f)
  {
    assert [e, f][1..] == [f];
    assert B.Run(cfg, B.Step(cfg, c, e), [f]) == B.Step(cfg, B.Step(cfg, c, e), f);
  }
}
