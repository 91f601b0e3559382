/** The per-router circuit breaker of core/circuit_breaker.py: five dictionaries
    that together encode one state machine per router.  `Step` is that machine;
    the class is the code, and each of its methods is proved to take one step. */
module Breaker {

  import opened Basics
  import opened Logs

  type Key = string

  /** `threshold` and `timeout` are the two constructor arguments. */
  datatype Settings = Settings(threshold: int, timeout: real)

  datatype CircuitState = CLOSED | OPEN | HALF_OPEN

  /** What the five dictionaries say about one router. */
  datatype Circuit =
    | Closed(failures: nat)
    | Open(failures: nat, since: real)
    | HalfOpen(failures: nat, started: real)

  /** One critical section on one router.  An attempt reads the clock twice: the
      first reading is compared, the second (not earlier) is stored. */
  datatype Event =
    | Attempt(now: real, later: real)
    | Success
    | Failure(at: real)
    | Reset

  const FRESH: Circuit := Closed(0)

  function Step(cfg: Settings, c: Circuit, e: Event): Circuit {
    match e
    case Attempt(now, later) =>
      (match c
       case Closed(_) => c
       case Open(n, since) => if now - since >= cfg.timeout then HalfOpen(n, later) else c
       case HalfOpen(n, started) => if now - started >= cfg.timeout then Open(n, later) else c)
    case Success => FRESH
    case Failure(at) =>
      (match c
       case Closed(n) => if n + 1 >= cfg.threshold then Open(n + 1, at) else Closed(n + 1)
       case Open(n, since) => Open(n + 1, since)
       case HalfOpen(_, _) => Open(0, at))
    case Reset => FRESH
  }

  /** Does the breaker let this attempt through? */
  predicate Admits(cfg: Settings, c: Circuit, e: Event) {
    e.Attempt? && (c.Closed? || (c.Open? && e.now - c.since >= cfg.timeout))
  }

  function Run(cfg: Settings, c: Circuit, es: seq<Event>): Circuit
    decreases es
  {
    if es == [] then c else Run(cfg, Step(cfg, c, es[0]), es[1..])
  }

  /** First clock readings of the admitted attempts of a run, in order. */
  function Admissions(cfg: Settings, c: Circuit, es: seq<Event>): seq<real>
    decreases es
  {
    if es == [] then []
    else
      var rest := Admissions(cfg, Step(cfg, c, es[0]), es[1..]);
      if Admits(cfg, c, es[0]) then [es[0].now] + rest else rest
  }

  /** The clock readings of `es` never go back, and the first is not before `t`. */
  predicate InOrder(t: real, es: seq<Event>)
    decreases es
  {
    es == [] || (
      match es[0]
      case Attempt(now, later) => t <= now <= later && InOrder(later, es[1..])
      case Failure(at) => t <= at && InOrder(at, es[1..])
      case _ => InOrder(t, es[1..])
    )
  }

  /** The last clock reading of `es`, or `t` when it has none. */
  function ClockAfter(t: real, es: seq<Event>): real
    decreases es
  {
    if es == [] then t
    else
      match es[0]
      case Attempt(_, later) => ClockAfter(later, es[1..])
      case Failure(at) => ClockAfter(at, es[1..])
      case _ => ClockAfter(t, es[1..])
  }

  /** The clock readings of one critical section come after those before it. */
  predicate Timely(t: real, e: Event) {
    match e
    case Attempt(now, later) => t <= now <= later
    case Failure(at) => t <= at
    case _ => true
  }

  function Later(t: real, e: Event): real {
    match e
    case Attempt(_, later) => later
    case Failure(at) => at
    case _ => t
  }

  lemma {:induction false} InOrderAppend(t: real, es: seq<Event>, e: Event)
    requires InOrder(t, es) && Timely(ClockAfter(t, es), e)
    ensures InOrder(t, es + [e]) && ClockAfter(t, es + [e]) == Later(ClockAfter(t, es), e)
    decreases es
  {
    if es == [] {
      assert es + [e] == [e] && [e][1..] == [];
    } else {
      assert (es + [e])[1..] == es[1..] + [e];
      InOrderAppend(Later(t, es[0]), es[1..], e);
    }
  }

  lemma {:induction false} InOrderSplit(t: real, es: seq<Event>, fs: seq<Event>)
    requires InOrder(t, es + fs)
    ensures InOrder(t, es) && InOrder(ClockAfter(t, es), fs)
    decreases es
  {
    if es == [] {
      assert es + fs == fs;
    } else {
      assert (es + fs)[1..] == es[1..] + fs;
      InOrderSplit(Later(t, es[0]), es[1..], fs);
    }
  }

  lemma {:induction false} InOrderEarlier(s: real, t: real, es: seq<Event>)
    requires s <= t && InOrder(t, es)
    ensures InOrder(s, es)
    decreases es
  {
    if es != [] && (es[0].Success? || es[0].Reset?) {
      InOrderEarlier(s, t, es[1..]);
    }
  }

  /** No report of success and no manual reset. */
  predicate Unhealed(es: seq<Event>) {
    forall i :: 0 <= i < |es| ==> es[i].Attempt? || es[i].Failure?
  }

  /** Failures reported since the last success or reset. */
  function ConsecutiveFailures(es: seq<Event>): nat {
    if es == [] then 0
    else
      var before := es[..|es| - 1];
      match es[|es| - 1]
      case Attempt(_, _) => ConsecutiveFailures(before)
      case Failure(_) => ConsecutiveFailures(before) + 1
      case _ => 0
  }

  // ---- runs ------------------------------------------------------------

  lemma {:induction false} RunAppend(cfg: Settings, c: Circuit, es: seq<Event>, e: Event)
    ensures Run(cfg, c, es + [e]) == Step(cfg, Run(cfg, c, es), e)
    decreases es
  {
    if es == [] {
      assert Run(cfg, Step(cfg, c, e), []) == Step(cfg, c, e);
    } else {
      assert (es + [e])[1..] == es[1..] + [e];
      RunAppend(cfg, Step(cfg, c, es[0]), es[1..], e);
    }
  }

  lemma {:induction false} RunConcat(cfg: Settings, c: Circuit, es: seq<Event>, fs: seq<Event>)
    ensures Run(cfg, c, es + fs) == Run(cfg, Run(cfg, c, es), fs)
    decreases es
  {
    if es == [] {
      assert es + fs == fs;
    } else {
      assert (es + fs)[1..] == es[1..] + fs;
      RunConcat(cfg, Step(cfg, c, es[0]), es[1..], fs);
    }
  }

  /** The circuit is closed exactly while fewer than `threshold` failures have
      been reported since the last success or reset, and then its counter is
      that number. */
  lemma {:induction false} ClosedIffFewFailures(cfg: Settings, es: seq<Event>)
    ensures var c := Run(cfg, FRESH, es);
            var n := ConsecutiveFailures(es);
            && (c.Closed? <==> n == 0 || n < cfg.threshold)
            && (c.Closed? ==> c.failures == n)
  {
    if es != [] {
      var before := es[..|es| - 1];
      assert es == before + [es[|es| - 1]];
      ClosedIffFewFailures(cfg, before);
      RunAppend(cfg, FRESH, before, es[|es| - 1]);
    }
  }

  /** The time stored in an open or half-open circuit. */
  function Stamp(c: Circuit): real
    requires !c.Closed?
  {
    if c.Open? then c.since else c.started
  }

  lemma {:induction false} StampsInThePast(cfg: Settings, c: Circuit, t: real, es: seq<Event>)
    requires InOrder(t, es) && (c.Closed? || Stamp(c) <= t)
    ensures var d := Run(cfg, c, es); d.Closed? || Stamp(d) <= ClockAfter(t, es)
    decreases es
  {
    if es != [] {
      StampsInThePast(cfg, Step(cfg, c, es[0]), Later(t, es[0]), es[1..]);
    }
  }

  // ---- rate bound ------------------------------------------------------

  function Times(n: nat, d: real): real { (n as real) * d }

  lemma TimesNext(n: nat, d: real)
    ensures Times(n + 1, d) == Times(n, d) + d
  {
    assert ((n + 1) as real) == (n as real) + 1.0;
    assert ((n as real) + 1.0) * d == (n as real) * d + d;
  }

  lemma {:induction false} RateBoundFrom(cfg: Settings, c: Circuit, base: real, t: real, es: seq<Event>, n: nat)
    requires !c.Closed? && base <= Stamp(c) <= t
    requires InOrder(t, es) && Unhealed(es)
    requires n < |Admissions(cfg, c, es)|
    ensures Admissions(cfg, c, es)[n] >= base + Times(n + 1, cfg.timeout)
    decreases es
  {
    var e := es[0];
    var d := Step(cfg, c, e);
    var u := if e.Attempt? then e.later else e.at;
    assert Unhealed(es[1..]);
    if Admits(cfg, c, e) {
      TimesNext(0, cfg.timeout);
      TimesNext(n, cfg.timeout);
      if n > 0 {
        RateBoundFrom(cfg, d, base + cfg.timeout, u, es[1..], n - 1);
      }
    } else {
      RateBoundFrom(cfg, d, base, u, es[1..], n);
    }
  }

  /** A circuit that opened at `t0` admits its n-th request no earlier than
      `t0 + n * timeout`, until the next success or reset, whatever attempts,
      straggling failures and silent trials are interleaved. */
  lemma RateBound(cfg: Settings, c: Circuit, es: seq<Event>, n: nat)
    requires c.Open? && InOrder(c.since, es) && Unhealed(es)
    requires n < |Admissions(cfg, c, es)|
    ensures Admissions(cfg, c, es)[n] >= c.since + Times(n + 1, cfg.timeout)
  {
    RateBoundFrom(cfg, c, c.since, c.since, es, n);
  }

  /** The same for any history of a router: `h` leaves the circuit open, `es` follows. */
  lemma RateBoundInHistory(cfg: Settings, t: real, h: seq<Event>, es: seq<Event>, n: nat)
    requires InOrder(t, h + es) && Unhealed(es)
    requires Run(cfg, FRESH, h).Open? && n < |Admissions(cfg, Run(cfg, FRESH, h), es)|
    ensures Admissions(cfg, Run(cfg, FRESH, h), es)[n] >= Run(cfg, FRESH, h).since + Times(n + 1, cfg.timeout)
  {
    InOrderSplit(t, h, es);
    StampsInThePast(cfg, FRESH, t, h);
    InOrderEarlier(Run(cfg, FRESH, h).since, ClockAfter(t, h), es);
    RateBound(cfg, Run(cfg, FRESH, h), es, n);
  }

  /** `k` trials that each fail at once, one every `timeout`. */
  function PromptFailures(cfg: Settings, t0: real, k: nat): seq<Event>
    decreases k
  {
    if k == 0 then []
    else
      var t := t0 + cfg.timeout;
      [Attempt(t, t), Failure(t)] + PromptFailures(cfg, t, k - 1)
  }

  /** The bound of `RateBound` is attained by every `k`: it cannot be improved. */
  lemma {:induction false} RateBoundIsTight(cfg: Settings, c: Circuit, k: nat)
    requires c.Open? && cfg.timeout >= 0.0
    ensures var es := PromptFailures(cfg, c.since, k);
            && InOrder(c.since, es) && Unhealed(es)
            && |Admissions(cfg, c, es)| == k
            && forall n :: 0 <= n < k ==> Admissions(cfg, c, es)[n] == c.since + Times(n + 1, cfg.timeout)
    decreases k
  {
    if k > 0 {
      var t := c.since + cfg.timeout;
      var es := PromptFailures(cfg, c.since, k);
      var rest := PromptFailures(cfg, t, k - 1);
      var d := Open(0, t);
      RateBoundIsTight(cfg, d, k - 1);
      assert es[1..][1..] == rest;
      assert es[1..][0] == Failure(t);
      assert Step(cfg, c, es[0]) == HalfOpen(c.failures, t);
      assert Admissions(cfg, HalfOpen(c.failures, t), es[1..]) == Admissions(cfg, d, rest);
      assert Admissions(cfg, c, es) == [t] + Admissions(cfg, d, rest);
      forall n | 0 <= n < k ensures Admissions(cfg, c, es)[n] == c.since + Times(n + 1, cfg.timeout) {
        TimesNext(n, cfg.timeout);
      }
    }
  }

  // ---- trials ----------------------------------------------------------

  lemma {:induction false} SilentFrom(cfg: Settings, c: Circuit, base: real, t: real, es: seq<Event>, n: nat)
    requires (c.HalfOpen? && base <= c.started) || (c.Open? && base + cfg.timeout <= c.since)
    requires base <= t && Stamp(c) <= t && InOrder(t, es)
    requires forall i :: 0 <= i < |es| ==> es[i].Attempt?
    requires n < |Admissions(cfg, c, es)|
    ensures Admissions(cfg, c, es)[n] >= base + cfg.timeout + cfg.timeout
    decreases es
  {
    var d := Step(cfg, c, es[0]);
    if !Admits(cfg, c, es[0]) {
      SilentFrom(cfg, d, base, es[0].later, es[1..], n);
    } else if n > 0 {
      SilentFrom(cfg, d, base, es[0].later, es[1..], n - 1);
    }
  }

  /** One request per half-open episode: while the admitted trial is silent, nobody
      else is admitted for two whole timeouts, one until the trial counts as
      leaked and one more spent re-opened. */
  lemma SilentTrialExcludesOthers(cfg: Settings, c: Circuit, es: seq<Event>, n: nat)
    requires c.HalfOpen? && InOrder(c.started, es)
    requires forall i :: 0 <= i < |es| ==> es[i].Attempt?
    requires n < |Admissions(cfg, c, es)|
    ensures Admissions(cfg, c, es)[n] >= c.started + cfg.timeout + cfg.timeout
  {
    SilentFrom(cfg, c, c.started, c.started, es, n);
  }

  /** Failures, and attempts that come before `until`. */
  predicate Straggling(es: seq<Event>, until: real) {
    forall i :: 0 <= i < |es| ==> es[i].Failure? || (es[i].Attempt? && es[i].now < until)
  }

  /** Stragglers neither get in nor move the opening time. */
  lemma {:induction false} StragglersDoNotProlong(cfg: Settings, c: Circuit, es: seq<Event>)
    requires c.Open? && Straggling(es, c.since + cfg.timeout)
    ensures Run(cfg, c, es).Open? && Run(cfg, c, es).since == c.since
    ensures Admissions(cfg, c, es) == []
    decreases es
  {
    if es != [] {
      StragglersDoNotProlong(cfg, Step(cfg, c, es[0]), es[1..]);
    }
  }

  /** An open circuit stays shut for exactly one timeout: whatever straggles in, the next
      attempt is admitted if and only if the timeout has passed since it opened. */
  lemma OpenForOneTimeout(cfg: Settings, c: Circuit, es: seq<Event>, a: Event)
    requires c.Open? && Straggling(es, c.since + cfg.timeout) && a.Attempt?
    ensures Admits(cfg, Run(cfg, c, es), a) <==> a.now >= c.since + cfg.timeout
  {
    StragglersDoNotProlong(cfg, c, es);
  }

  /** The failure that opens a circuit, by reaching the threshold or by ending a trial,
      opens it from its own time on. */
  lemma OpensFromTheFailure(cfg: Settings, c: Circuit, at: real, es: seq<Event>, a: Event)
    requires !c.Open? && Straggling(es, at + cfg.timeout) && a.Attempt?
    requires c.HalfOpen? || c.failures + 1 >= cfg.threshold
    ensures Admits(cfg, Run(cfg, Step(cfg, c, Failure(at)), es), a) <==> a.now >= at + cfg.timeout
  {
    OpenForOneTimeout(cfg, Step(cfg, c, Failure(at)), es, a);
  }

  /** A silent trial holds others off for exactly one timeout, and then re-opens the
      circuit from the time at which that is noticed. */
  lemma {:induction false} SilentTrialLeaks(cfg: Settings, c: Circuit, es: seq<Event>, a: Event)
    requires c.HalfOpen? && a.Attempt? && a.now >= c.started + cfg.timeout
    requires forall i :: 0 <= i < |es| ==> es[i].Attempt? && es[i].now < c.started + cfg.timeout
    ensures Run(cfg, c, es) == c && Admissions(cfg, c, es) == [] && !Admits(cfg, c, a)
    ensures forall b: Event :: b.Attempt? ==>
              (Admits(cfg, Step(cfg, c, a), b) <==> b.now >= a.later + cfg.timeout)
    decreases es
  {
    if es != [] {
      SilentTrialLeaks(cfg, c, es[1..], a);
    }
  }

  /** No wedge: from any reachable circuit, even if a claimed trial never
      reports, one of two attempts spaced by `timeout` is admitted. */
  lemma NoWedge(cfg: Settings, t: real, es: seq<Event>, a: Event, b: Event)
    requires InOrder(t, es) && a.Attempt? && b.Attempt?
    requires a.now <= a.later
    requires a.now >= ClockAfter(t, es) + cfg.timeout
    requires b.now >= a.later + cfg.timeout
    ensures var c := Run(cfg, FRESH, es);
            Admits(cfg, c, a) || Admits(cfg, Step(cfg, c, a), b)
  {
    StampsInThePast(cfg, FRESH, t, es);
  }

  /** What the five dictionaries hold for one router. */
  datatype Entry = Entry(state: CircuitState, failures: nat, failedAt: Option<real>,
                         inTrial: Option<bool>, startedAt: Option<real>)

  function Decode(e: Entry): Circuit {
    match e.state
    case CLOSED => Closed(e.failures)
    case OPEN => Open(e.failures, if e.failedAt.Some? then e.failedAt.value else 0.0)
    case HALF_OPEN => HalfOpen(e.failures, if e.startedAt.Some? then e.startedAt.value else 0.0)
  }

  /** Which dictionaries hold a router is determined by its state. */
  predicate Coded(e: Entry) {
    && e.inTrial == (if e.state == HALF_OPEN then Some(true) else None)
    && (e.startedAt.Some? <==> e.state == HALF_OPEN)
    && (e.state != CLOSED ==> e.failedAt.Some?)
  }

  /** The calls of the log, made in time order until `clock`, lead to the entry. */
  ghost predicate Explains(cfg: Settings, log: Log<Event>, e: Entry, clock: real) {
    && Coded(e) && Decode(e) == Run(cfg, FRESH, All(log))
    && InOrder(0.0, All(log)) && ClockAfter(0.0, All(log)) <= clock
  }

  lemma ExplainsNext(cfg: Settings, log: Log<Event>, e: Entry, clock: real, call: Call<Event>, next: Entry)
    requires Explains(cfg, log, e, clock) && Timely(clock, call.what)
    requires Coded(next) && Decode(next) == Step(cfg, Decode(e), call.what)
    ensures Explains(cfg, log + [call], next, Later(clock, call.what))
  {
    Extend(log, call, call.who);
    RunAppend(cfg, FRESH, All(log), call.what);
    InOrderAppend(0.0, All(log), call.what);
  }

  lemma StillExplains(cfg: Settings, log: Log<Event>, e: Entry, clock: real, later: real)
    requires Explains(cfg, log, e, clock) && clock <= later
    ensures Explains(cfg, log, e, later)
  {
  }

  // ---- the code --------------------------------------------------------

  class CircuitBreaker {
    const cfg: Settings
    var state: map<Key, CircuitState>
    var failureCount: map<Key, nat>
    var lastFailureTime: map<Key, real>
    var inTrial: map<Key, bool>
    var trialStartedAt: map<Key, real>
    /** Who called what, and the latest clock reading. */
    ghost var history: Book<Key, Event>
    ghost var clock: real

    function GetState(key: Key): CircuitState
      reads `state
    {
      if key in state then state[key] else CLOSED
    }

    function GetFailureCount(key: Key): nat
      reads `failureCount
    {
      if key in failureCount then failureCount[key] else 0
    }

    ghost function EntryOf(key: Key): Entry
      reads `state, `failureCount, `lastFailureTime, `inTrial, `trialStartedAt
    {
      Entry(GetState(key), GetFailureCount(key), Lookup(lastFailureTime, key),
            Lookup(inTrial, key), Lookup(trialStartedAt, key))
    }

    ghost function CircuitOf(key: Key): Circuit
      reads `state, `failureCount, `lastFailureTime, `inTrial, `trialStartedAt
    {
      Decode(EntryOf(key))
    }

    ghost function LogOf(key: Key): Log<Event>
      reads `history
    {
      At(history, key)
    }

    ghost function History(key: Key): seq<Event>
      reads `history
    {
      All(LogOf(key))
    }

    /** A router is where its own history leads. */
    ghost predicate Sound(key: Key)
      reads this
    {
      Explains(cfg, LogOf(key), EntryOf(key), clock)
    }

    ghost predicate Valid()
      reads this
    {
      forall k :: Sound(k)
    }

    /** One step on `key`, taken by `me`, and nothing else. */
    twostate predicate Took(key: Key, me: Tid, e: Event)
      reads this
    {
      && CircuitOf(key) == Step(cfg, old(CircuitOf(key)), e)
      && history == old(history)[key := old(LogOf(key)) + [Call(me, e)]]
      && (forall k :: k != key ==> EntryOf(k) == old(EntryOf(k)))
      && clock == Later(old(clock), e)
    }

    /** Enters a step on `key` in the books, once the dictionaries show it. */
    ghost method Record(key: Key, me: Tid, e: Event, was: Entry)
      requires Explains(cfg, LogOf(key), was, clock) && Timely(clock, e)
      requires Coded(EntryOf(key)) && CircuitOf(key) == Step(cfg, Decode(was), e)
      requires forall k :: k != key ==> Sound(k)
      modifies `history, `clock
      ensures Valid() && history == old(history)[key := old(LogOf(key)) + [Call(me, e)]]
      ensures clock == Later(old(clock), e)
    {
      ExplainsNext(cfg, LogOf(key), was, clock, Call(me, e), EntryOf(key));
      history := history[key := LogOf(key) + [Call(me, e)]];
      clock := Later(clock, e);
      forall k ensures Sound(k) {
        if k != key {
          assert old(Sound(k));
          StillExplains(cfg, LogOf(k), EntryOf(k), old(clock), clock);
        }
      }
    }

    twostate lemma OthersAreSound(key: Key)
      requires old(Valid()) && history == old(history) && clock == old(clock)
      requires forall k :: k != key ==> EntryOf(k) == old(EntryOf(k))
      ensures forall k :: k != key ==> Sound(k)
    {
      forall k | k != key ensures Sound(k) {
        assert old(Sound(k));
      }
    }

    /** Other threads run until `until`: any number of calls, none of them `me`'s, and
        when `alone`, none on `key`. */
    method OthersRun(ghost me: Tid, ghost key: Key, ghost alone: bool, ghost until: real)
      requires Valid() && clock <= until
      modifies this
      ensures Valid() && old(clock) <= clock <= until
      ensures Others(old(history), history, key, me, alone)
    {
    }

    constructor (failureThreshold: int := 3, resetTimeout: real := 30.0)
      ensures Valid() && cfg == Settings(failureThreshold, resetTimeout)
      ensures history == map[] && clock == 0.0 && forall k :: CircuitOf(k) == FRESH
    {
      cfg := Settings(failureThreshold, resetTimeout);
      state, failureCount, lastFailureTime := map[], map[], map[];
      inTrial, trialStartedAt := map[], map[];
      history, clock := map[], 0.0;
    }

    /** `_can_attempt`.  The second claim of a trial slot, after the leak test, is
        unreachable: a half-open circuit always has its slot taken. */
    method CanAttempt(key: Key, now: real, later: real, ghost me: Tid) returns (ok: bool)
      requires Valid() && clock <= now <= later
      modifies this
      ensures Valid() && Took(key, me, Attempt(now, later))
      ensures ok == Admits(cfg, old(CircuitOf(key)), Attempt(now, later))
      ensures var (e, f) := (old(EntryOf(key)), EntryOf(key));
              match e.state
              case CLOSED => ok && f == e
              case OPEN =>
                && e.failedAt.Some? && (ok <==> now - e.failedAt.value >= cfg.timeout)
                && f == if ok then e.(state := HALF_OPEN, inTrial := Some(true), startedAt := Some(later)) else e
              case HALF_OPEN =>
                && !ok && e.startedAt.Some?
                && f == if now - e.startedAt.value >= cfg.timeout
                        then Entry(OPEN, e.failures, Some(later), None, None) else e
    {
      assert Sound(key);
      var s := GetState(key);
      if s == CLOSED {
        ok := true;
      } else if s == OPEN {
        var lastFailure := if key in lastFailureTime then lastFailureTime[key] else 0.0;
        if now - lastFailure >= cfg.timeout {
          state := state[key := HALF_OPEN];
          inTrial := inTrial[key := true];
          trialStartedAt := trialStartedAt[key := later];
          ok := true;
        } else {
          ok := false;
        }
      } else {
        ok := false;
        if key in inTrial && inTrial[key] {
          if key in trialStartedAt && now - trialStartedAt[key] >= cfg.timeout {
            inTrial := inTrial - {key};
            trialStartedAt := trialStartedAt - {key};
            state := state[key := OPEN];
            lastFailureTime := lastFailureTime[key := later];
          }
        } else {
          assert false;
        }
      }
      forall k | k != key ensures EntryOf(k) == old(EntryOf(k)) {}
      OthersAreSound(key);
      Record(key, me, Attempt(now, later), old(EntryOf(key)));
    }

    /** `on_success`. */
    method OnSuccess(key: Key, ghost me: Tid)
      requires Valid()
      modifies this
      ensures Valid() && Took(key, me, Success)
      ensures EntryOf(key) == Entry(CLOSED, 0, old(EntryOf(key)).failedAt, None, None)
    {
      assert Sound(key);
      var previous := GetState(key);
      failureCount := failureCount[key := 0];
      inTrial := inTrial - {key};
      trialStartedAt := trialStartedAt - {key};
      if previous == HALF_OPEN {
        state := state[key := CLOSED];
      } else if previous == OPEN {
        state := state[key := CLOSED];
      }
      forall k | k != key ensures EntryOf(k) == old(EntryOf(k)) {}
      OthersAreSound(key);
      Record(key, me, Success, old(EntryOf(key)));
    }

    /** The writes of `on_failure` to a half-open circuit. */
    method Reopen(key: Key, at: real)
      modifies `state, `failureCount, `lastFailureTime, `inTrial, `trialStartedAt
      ensures EntryOf(key) == Entry(OPEN, 0, Some(at), None, None)
      ensures forall k :: k != key ==> EntryOf(k) == old(EntryOf(k))
    {
      failureCount := failureCount[key := 0];
      inTrial := inTrial - {key};
      trialStartedAt := trialStartedAt - {key};
      state := state[key := OPEN];
      lastFailureTime := lastFailureTime[key := at];
    }

    /** The writes of `on_failure` to any other circuit. */
    method CountFailure(key: Key, at: real)
      modifies `state, `failureCount, `lastFailureTime
      ensures var (e, n) := (old(EntryOf(key)), old(GetFailureCount(key)) + 1);
              EntryOf(key) == if n >= cfg.threshold && e.state == CLOSED
                              then e.(state := OPEN, failures := n, failedAt := Some(at))
                              else e.(failures := n)
      ensures forall k :: k != key ==> EntryOf(k) == old(EntryOf(k))
    {
      var count := GetFailureCount(key) + 1;
      failureCount := failureCount[key := count];
      if count >= cfg.threshold && GetState(key) == CLOSED {
        state := state[key := OPEN];
        lastFailureTime := lastFailureTime[key := at];
      }
    }

    /** `on_failure`; `at` is the clock reading stored if the circuit (re-)opens. */
    method OnFailure(key: Key, at: real, ghost me: Tid)
      requires Valid() && clock <= at
      modifies this
      ensures Valid() && Took(key, me, Failure(at))
      ensures var (e, n) := (old(EntryOf(key)), old(GetFailureCount(key)) + 1);
              EntryOf(key) == if e.state == HALF_OPEN then Entry(OPEN, 0, Some(at), None, None)
                              else if n >= cfg.threshold && e.state == CLOSED
                              then e.(state := OPEN, failures := n, failedAt := Some(at))
                              else e.(failures := n)
    {
      assert Sound(key);
      if GetState(key) == HALF_OPEN {
        Reopen(key, at);
      } else {
        CountFailure(key, at);
      }
      OthersAreSound(key);
      Record(key, me, Failure(at), old(EntryOf(key)));
    }

    /** `reset`. */
    method ResetKey(key: Key, ghost me: Tid)
      requires Valid()
      modifies this
      ensures Valid() && Took(key, me, Reset)
      ensures EntryOf(key) == Entry(CLOSED, 0, None, None, None)
    {
      assert Sound(key);
      state := state - {key};
      failureCount := failureCount - {key};
      lastFailureTime := lastFailureTime - {key};
      inTrial := inTrial - {key};
      trialStartedAt := trialStartedAt - {key};
      forall k | k != key ensures EntryOf(k) == old(EntryOf(k)) {}
      OthersAreSound(key);
      Record(key, me, Reset, old(EntryOf(key)));
    }
  }
}
