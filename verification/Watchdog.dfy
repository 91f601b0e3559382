/** Router alerts (core/watchdog.py): the status tables, the check results that raise
    alerts, and the restart. */
module Watchdog {

  import opened Basics

  type Key = string

  datatype Alert = Nothing | WentOffline | Recovered

  /** What the tables hold for one router: `known` is its `_last_known_status`, `sent`
      the `alert_sent` flag of its `_router_status` (false while unset); None means no
      entry. */
  datatype Watch = Watch(known: Option<bool>, sent: Option<bool>) {
    /** A router never checked counts as online. */
    predicate Online() { known == Option.None || known.value }

    predicate Sent() { sent.Some? && sent.value }
  }

  const FRESH := Watch(Option.None, Option.None)

  /** Everything that writes the tables, as seen by one router. */
  datatype Event =
    | Result(online: bool)
    | HealthOk
    | HealthFailed
    | MarkSent
    | ClearSent
    | Clear
    | Load(status: bool)

  function AlertOf(w: Watch, e: Event): Alert {
    match e
    case Result(online) =>
      if !online && w.Online() && !w.Sent() then WentOffline
      else if online && !w.Online() then Recovered
      else Nothing
    case _ => Nothing
  }

  function Step(w: Watch, e: Event): Watch {
    match e
    case Result(online) =>
      Watch(Option.Some(online),
            if AlertOf(w, e).WentOffline? then Option.Some(true)
            else if AlertOf(w, e).Recovered? && w.sent.Some? then Option.Some(false)
            else w.sent)
    case HealthOk => w.(sent := Option.Some(false))
    case HealthFailed => w.(sent := Option.Some(w.Sent()))
    case MarkSent => if w.sent.Some? then w.(sent := Option.Some(true)) else w
    case ClearSent => if w.sent.Some? then w.(sent := Option.Some(false)) else w
    case Clear => FRESH
    case Load(status) => Watch(Option.Some(status), Option.Some(w.Sent()))
  }

  function Run(w: Watch, events: seq<Event>): Watch {
    if events == [] then w else Step(Run(w, events[..|events| - 1]), events[|events| - 1])
  }

  /** The alerts other than Nothing, in order. */
  function Alerts(w: Watch, events: seq<Event>): seq<Alert> {
    if events == [] then []
    else
      var before := events[..|events| - 1];
      Alerts(w, before) + Listed(AlertOf(Run(w, before), events[|events| - 1]))
  }

  // ---- the reference: edges of a sequence of states --------------------------

  function Edge(was: bool, online: bool): Alert {
    if was == online then Nothing else if online then Recovered else WentOffline
  }

  function Listed(a: Alert): seq<Alert> { if a.Nothing? then [] else [a] }

  function Edges(online: bool, results: seq<bool>): seq<Alert>
    decreases |results|
  {
    if results == [] then [] else Listed(Edge(online, results[0])) + Edges(results[0], results[1..])
  }

  /** The results of the checks. */
  function Results(events: seq<Event>): seq<bool> {
    if events == [] then []
    else
      var e := events[|events| - 1];
      Results(events[..|events| - 1]) + if e.Result? then [e.online] else []
  }

  function Last(online: bool, results: seq<bool>): bool {
    if results == [] then online else results[|results| - 1]
  }

  lemma {:induction false} EdgesAppend(online: bool, results: seq<bool>, next: bool)
    ensures Edges(online, results + [next]) == Edges(online, results) + Listed(Edge(Last(online, results), next))
    decreases |results|
  {
    if results == [] {
      assert results + [next] == [next];
      assert Edges(next, [next][1..]) == [];
    } else {
      assert (results + [next])[1..] == results[1..] + [next];
      EdgesAppend(results[0], results[1..], next);
    }
  }

  // ---- when alerts are edges ---------------------------------------------------

  /** No alert is on record for a router last known online. */
  predicate Armed(w: Watch) { w.Online() ==> !w.Sent() }

  /** The writes that disarm a router: marking an alert as sent while it is known to be
      online, and reloading it as online while an alert is on record. */
  predicate Disarms(w: Watch, e: Event) {
    || (e.MarkSent? && w.sent.Some? && w.Online())
    || (e.Load? && e.status && w.Sent())
  }

  /** Being armed is exactly what makes every possible next result an edge. */
  lemma ArmedIffEdges(w: Watch)
    ensures Armed(w) <==>
              forall online :: AlertOf(w, Result(online)) == Edge(w.Online(), online)
  {
    assert AlertOf(w, Result(false)) == WentOffline <==> w.Online() && !w.Sent();
  }

  /** Exactly the disarming writes lead out of the armed states. */
  lemma OnlyDisarmingWritesDisarm(w: Watch, e: Event)
    requires Armed(w)
    ensures Armed(Step(w, e)) <==> !Disarms(w, e)
  {
  }

  /** No write of the run disarms the router. */
  predicate Calm(w: Watch, events: seq<Event>) {
    events == [] ||
    var before := events[..|events| - 1];
    Calm(w, before) && !Disarms(Run(w, before), events[|events| - 1])
  }

  /** No write makes the watchdog forget the last result. */
  predicate Remembers(events: seq<Event>) {
    forall i :: 0 <= i < |events| ==> !events[i].Clear? && !events[i].Load?
  }

  lemma {:induction false} CalmStaysArmed(w: Watch, events: seq<Event>)
    requires Armed(w) && Calm(w, events)
    ensures Armed(Run(w, events))
    decreases |events|
  {
    if events != [] {
      var before := events[..|events| - 1];
      CalmStaysArmed(w, before);
      OnlyDisarmingWritesDisarm(Run(w, before), events[|events| - 1]);
    }
  }

  /** Whatever health checks write in between, the alerts of a calm run are the edges of
      the initial state followed by the results. */
  lemma {:induction false} AlertsAreEdges(w: Watch, events: seq<Event>)
    requires Armed(w) && Calm(w, events) && Remembers(events)
    ensures Alerts(w, events) == Edges(w.Online(), Results(events))
    ensures Run(w, events).Online() == Last(w.Online(), Results(events))
    decreases |events|
  {
    if events != [] {
      var before := events[..|events| - 1];
      var e := events[|events| - 1];
      AlertsAreEdges(w, before);
      CalmStaysArmed(w, before);
      OneMoreEvent(w.Online(), Results(before), Run(w, before), e);
    }
  }

  lemma OneMoreEvent(online: bool, results: seq<bool>, w: Watch, e: Event)
    requires Armed(w) && w.Online() == Last(online, results) && !e.Clear? && !e.Load?
    ensures var more := results + if e.Result? then [e.online] else [];
            && Edges(online, more) == Edges(online, results) + Listed(AlertOf(w, e))
            && Step(w, e).Online() == Last(online, more)
  {
    if e.Result? {
      EdgesAppend(online, results, e.online);
    } else {
      assert results + [] == results;
    }
  }

  /** How many results raise no alert although they are edges: an outage of a router on
      whose record there is an alert already. */
  function Swallowed(w: Watch, events: seq<Event>): nat {
    if events == [] then 0
    else
      var (before, e) := (events[..|events| - 1], events[|events| - 1]);
      var v := Run(w, before);
      Swallowed(w, before) + if e.Result? && !e.online && v.Online() && v.Sent() then 1 else 0
  }

  lemma {:induction false} OnlineAfter(w: Watch, events: seq<Event>)
    requires Remembers(events)
    ensures Run(w, events).Online() == Last(w.Online(), Results(events))
    decreases |events|
  {
    if events != [] {
      OnlineAfter(w, events[..|events| - 1]);
    }
  }

  lemma {:induction false} EachSwallowIsMissed(w: Watch, events: seq<Event>)
    requires Remembers(events)
    ensures |Alerts(w, events)| + Swallowed(w, events) == |Edges(w.Online(), Results(events))|
    ensures Swallowed(w, events) == 0 ==> Alerts(w, events) == Edges(w.Online(), Results(events))
    decreases |events|
  {
    if events != [] {
      var (before, e) := (events[..|events| - 1], events[|events| - 1]);
      EachSwallowIsMissed(w, before);
      OnlineAfter(w, before);
      if e.Result? {
        EdgesAppend(w.Online(), Results(before), e.online);
      } else {
        assert Results(before) + [] == Results(before);
      }
    }
  }

  /** Over any run, the alerts are exactly the edges if and only if no outage was
      swallowed, even if the router was disarmed for a while; and each swallowed outage
      is one alert less. */
  lemma AlertsAreEdgesIff(w: Watch, events: seq<Event>)
    requires Remembers(events)
    ensures Alerts(w, events) == Edges(w.Online(), Results(events)) <==> Swallowed(w, events) == 0
    ensures |Alerts(w, events)| == |Edges(w.Online(), Results(events))| - Swallowed(w, events)
  {
    EachSwallowIsMissed(w, events);
  }

  function Count(alerts: seq<Alert>, a: Alert): nat {
    if alerts == [] then 0 else (if alerts[0] == a then 1 else 0) + Count(alerts[1..], a)
  }

  /** Outages and recoveries in turn, the first one leaving the state `online`. */
  predicate Alternate(online: bool, alerts: seq<Alert>) {
    forall i :: 0 <= i < |alerts| ==> alerts[i] == if online == (i % 2 == 0) then WentOffline else Recovered
  }

  lemma AlternateOn(online: bool, rest: seq<Alert>)
    requires Alternate(!online, rest)
    ensures Alternate(online, Listed(Edge(online, !online)) + rest)
  {
    var a := Listed(Edge(online, !online)) + rest;
    forall i | 0 <= i < |a| ensures a[i] == if online == (i % 2 == 0) then WentOffline else Recovered {
      if i > 0 {
        assert a[i] == rest[i - 1] && (i % 2 == 0) != ((i - 1) % 2 == 0);
      }
    }
  }

  lemma {:induction false} EdgesAlternate(online: bool, results: seq<bool>)
    ensures Alternate(online, Edges(online, results))
    decreases |results|
  {
    if results != [] {
      EdgesAlternate(results[0], results[1..]);
      if online != results[0] {
        AlternateOn(online, Edges(results[0], results[1..]));
      } else {
        assert [] + Edges(online, results[1..]) == Edges(online, results[1..]);
      }
    }
  }

  lemma CountListed(a: Alert, rest: seq<Alert>, x: Alert)
    requires !x.Nothing?
    ensures Count(Listed(a) + rest, x) == (if a == x then 1 else 0) + Count(rest, x)
  {
    if a.Nothing? {
      assert [] + rest == rest;
    } else {
      assert ([a] + rest)[1..] == rest;
    }
  }

  lemma {:induction false} EdgesBalance(online: bool, results: seq<bool>)
    ensures var a := Edges(online, results);
            Count(a, WentOffline) - Count(a, Recovered)
            == (if online then 1 else 0) - (if Last(online, results) then 1 else 0)
    decreases |results|
  {
    if results != [] {
      var (edge, rest) := (Edge(online, results[0]), Edges(results[0], results[1..]));
      EdgesBalance(results[0], results[1..]);
      CountListed(edge, rest, WentOffline);
      CountListed(edge, rest, Recovered);
    }
  }

  /** From a fresh router: offline alerts and recoveries alternate, and one outage is
      open exactly when the router is last known offline. */
  lemma FreshRouterAlerts(events: seq<Event>)
    requires Calm(FRESH, events) && Remembers(events)
    ensures var a := Alerts(FRESH, events);
            && Alternate(true, a)
            && Count(a, WentOffline) - Count(a, Recovered) == if Run(FRESH, events).Online() then 0 else 1
  {
    AlertsAreEdges(FRESH, events);
    EdgesAlternate(true, Results(events));
    EdgesBalance(true, Results(events));
  }

  /** A run is calm when nobody marks alerts from outside. */
  lemma {:induction false} CalmWithoutMarks(w: Watch, events: seq<Event>)
    requires Remembers(events) && forall i :: 0 <= i < |events| ==> !events[i].MarkSent?
    ensures Calm(w, events)
    decreases |events|
  {
    if events != [] {
      CalmWithoutMarks(w, events[..|events| - 1]);
    }
  }

  /** An alert marked as sent while the router is online swallows the next outage. */
  lemma MarkSwallowsTheOutage(w: Watch)
    requires w.Online() && w.sent.Some?
    ensures Alerts(w, [MarkSent, Result(false)]) == []
    ensures !Run(w, [MarkSent, Result(false)]).Online()
  {
    var events := [MarkSent, Result(false)];
    assert events[..1] == [MarkSent];
    assert [MarkSent][..0] == [];
    assert Run(w, []) == w;
    assert Run(w, [MarkSent]) == Step(w, MarkSent);
    assert Alerts(w, [MarkSent]) == Alerts(w, []);
  }

  /** A router that is offline when the bot restarts and stays offline raises no alert:
      the table says it is already known to be offline. */
  lemma StillOfflineAfterRestart(events: seq<Event>)
    requires Remembers(events) && true !in Results(events)
    ensures Alerts(Step(FRESH, Load(false)), events) == []
  {
    var w := Step(FRESH, Load(false));
    SilentWhileOffline(w, events);
  }

  lemma {:induction false} SilentWhileOffline(w: Watch, events: seq<Event>)
    requires !w.Online() && Remembers(events) && true !in Results(events)
    ensures Alerts(w, events) == [] && !Run(w, events).Online()
    decreases |events|
  {
    if events != [] {
      var before := events[..|events| - 1];
      SilentWhileOffline(w, before);
      assert events[|events| - 1].Result? ==> events[|events| - 1].online in Results(events);
    }
  }

  /** A successful health check re-arms a router, so that its next outage is alerted even
      after a mark. */
  lemma HealthCheckRearms(w: Watch)
    requires w.Online()
    ensures Alerts(w, [MarkSent, HealthOk, Result(false)]) == [WentOffline]
  {
    var events := [MarkSent, HealthOk, Result(false)];
    assert events[..2] == [MarkSent, HealthOk] && events[..2][..1] == [MarkSent];
    assert [MarkSent, HealthOk][..1] == [MarkSent] && [MarkSent][..0] == [];
    assert Run(w, []) == w && Alerts(w, []) == [];
    assert Run(w, [MarkSent]) == Step(w, MarkSent) && Alerts(w, [MarkSent]) == [];
    assert Run(w, [MarkSent, HealthOk]) == Step(Step(w, MarkSent), HealthOk);
    assert Alerts(w, [MarkSent, HealthOk]) == [];
  }

  // ---- the tables --------------------------------------------------------------

  class Watchdog {
    var routerStatus: map<Key, bool>
    var lastKnown: map<Key, bool>

    function At(key: Key): Watch
      reads this
    {
      Watch(Lookup(lastKnown, key), Lookup(routerStatus, key))
    }

    /** Only `key` is written, and as the event says. */
    twostate predicate Wrote(key: Key, e: Event)
      reads this
    {
      && At(key) == Step(old(At(key)), e)
      && forall k :: k != key ==> At(k) == old(At(k))
    }

    constructor ()
      ensures forall k :: At(k) == FRESH
    {
      routerStatus, lastKnown := map[], map[];
    }

    method RecordCheckResult(key: Key, online: bool) returns (alert: Alert)
      modifies this
      ensures alert == AlertOf(old(At(key)), Result(online))
      ensures Wrote(key, Result(online))
      ensures var was := key !in old(lastKnown) || old(lastKnown)[key];
              var sent := key in old(routerStatus) && old(routerStatus)[key];
              && lastKnown == old(lastKnown)[key := online]
              && (alert == WentOffline <==> was && !online && !sent)
              && (alert == Recovered <==> !was && online)
              && routerStatus == match alert
                                 case WentOffline => old(routerStatus)[key := true]
                                 case Recovered =>
                                   if key in old(routerStatus) then old(routerStatus)[key := false]
                                   else old(routerStatus)
                                 case Nothing => old(routerStatus)
    {
      var wasOnline := if key in lastKnown then lastKnown[key] else true;
      lastKnown := lastKnown[key := online];
      if !online && wasOnline {
        var sent := if key in routerStatus then routerStatus[key] else false;
        if !sent {
          routerStatus := routerStatus[key := true];
          return WentOffline;
        }
      } else if online && !wasOnline {
        if key in routerStatus {
          routerStatus := routerStatus[key := false];
        }
        return Recovered;
      }
      alert := Nothing;
    }

    /** The writes of `check_router_health`. */
    method RecordHealth(key: Key, ok: bool)
      modifies this
      ensures Wrote(key, if ok then HealthOk else HealthFailed)
      ensures lastKnown == old(lastKnown)
      ensures routerStatus == if ok || key !in old(routerStatus) then old(routerStatus)[key := false]
                              else old(routerStatus)
    {
      if key !in routerStatus {
        routerStatus := routerStatus[key := false];
      }
      if ok {
        routerStatus := routerStatus[key := false];
      }
    }

    method WasAlertSent(key: Key) returns (sent: bool)
      ensures sent == At(key).Sent()
    {
      sent := key in routerStatus && routerStatus[key];
    }

    method MarkAlertSent(key: Key)
      modifies this
      ensures Wrote(key, MarkSent)
      ensures lastKnown == old(lastKnown)
      ensures routerStatus == if key in old(routerStatus) then old(routerStatus)[key := true] else old(routerStatus)
    {
      if key in routerStatus {
        routerStatus := routerStatus[key := true];
      }
    }

    method ClearAlertSent(key: Key)
      modifies this
      ensures Wrote(key, ClearSent)
      ensures lastKnown == old(lastKnown)
      ensures routerStatus == if key in old(routerStatus) then old(routerStatus)[key := false] else old(routerStatus)
    {
      if key in routerStatus {
        routerStatus := routerStatus[key := false];
      }
    }

    method ClearStatus(key: Key)
      modifies this
      ensures Wrote(key, Clear)
      ensures routerStatus == old(routerStatus) - {key} && lastKnown == old(lastKnown) - {key}
    {
      routerStatus := routerStatus - {key};
      lastKnown := lastKnown - {key};
    }

    /** `load_status_from_db`; `rows` are the latest statuses, one per router. */
    method LoadStatus(rows: seq<(Key, bool)>)
      requires forall i, j :: 0 <= i < j < |rows| ==> rows[i].0 != rows[j].0
      modifies this
      ensures forall i :: 0 <= i < |rows| ==> At(rows[i].0) == Step(old(At(rows[i].0)), Load(rows[i].1))
      ensures forall k :: (forall i :: 0 <= i < |rows| ==> rows[i].0 != k) ==> At(k) == old(At(k))
      ensures forall i :: 0 <= i < |rows| ==>
                var (key, online) := rows[i];
                At(key) == Watch(Some(online), Some(key in old(routerStatus) && old(routerStatus)[key]))
    {
      for n := 0 to |rows|
        invariant forall i :: 0 <= i < n ==> At(rows[i].0) == Step(old(At(rows[i].0)), Load(rows[i].1))
        invariant forall k :: (forall i :: 0 <= i < n ==> rows[i].0 != k) ==> At(k) == old(At(k))
      {
        LoadRow(rows[n].0, rows[n].1);
      }
    }

    method LoadRow(key: Key, online: bool)
      modifies this
      ensures Wrote(key, Load(online))
      ensures lastKnown == old(lastKnown)[key := online]
      ensures routerStatus == if key in old(routerStatus) then old(routerStatus) else old(routerStatus)[key := false]
    {
      lastKnown := lastKnown[key := online];
      if key !in routerStatus {
        routerStatus := routerStatus[key := false];
      }
    }
  }
}
