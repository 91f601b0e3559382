/** What the network, the database and the clock do to one caller. */
module Environment {

  datatype Result<+T, +E> = Success(value: T) | Failure(error: E)

  /** The exceptions the stack tells apart: LibRouterosError; ConnectionError or
      another OSError (TimeoutError included); anything else.  `fatal` says that
      the message contains one of the NON_RETRYABLE_ERRORS. */
  datatype Error = RouterOs(fatal: bool) | Network(fatal: bool) | Unlisted

  datatype Dial = Opened | Refused(error: Error)
  datatype Probe = Healthy | Stale | Crashed

  /** A command either answers or raises. */
  type Answer = Result<seq<string>, Error>

  /** Infinitely many outcomes, of which finitely many matter to a finite run. */
  datatype Script<T> = Script(outcomes: seq<T>, afterwards: T) {
    function At(n: nat): T { if n < |outcomes| then outcomes[n] else afterwards }
  }

  /** How far a caller has got in the scripts. */
  datatype Mark = Mark(lookups: nat, dials: nat, probes: nat, commands: nat)

  /** Scripts for everything a caller may meet: the n-th lookup, connect, health
      check and command it makes has the n-th scripted outcome.  The clock
      advances by a scripted, non-negative amount before every reading. */
  class World {
    const found: Script<bool>
    const dial: Script<Dial>
    const probe: Script<Probe>
    const answer: Script<Answer>
    const pause: Script<real>
    var lookups: nat
    var dials: nat
    var probes: nat
    var commands: nat
    var readings: nat
    var now: real

    constructor (found: Script<bool>, dial: Script<Dial>, probe: Script<Probe>, answer: Script<Answer>,
                 pause: Script<real>)
    {
      this.found, this.dial, this.probe, this.answer, this.pause := found, dial, probe, answer, pause;
      lookups, dials, probes, commands, readings, now := 0, 0, 0, 0, 0, 0.0;
    }

    ghost function Here(): Mark
      reads `lookups, `dials, `probes, `commands
    {
      Mark(lookups, dials, probes, commands)
    }

    /** get_router_info: is the router in the database? */
    method LookUp() returns (ok: bool)
      modifies `lookups
      ensures lookups == old(lookups) + 1 && ok == found.At(old(lookups))
    {
      ok := found.At(lookups);
      lookups := lookups + 1;
    }

    method Connect() returns (d: Dial)
      modifies `dials
      ensures dials == old(dials) + 1 && d == dial.At(old(dials))
    {
      d := dial.At(dials);
      dials := dials + 1;
    }

    method CheckHealth() returns (p: Probe)
      modifies `probes
      ensures probes == old(probes) + 1 && p == probe.At(old(probes))
    {
      p := probe.At(probes);
      probes := probes + 1;
    }

    method RunCommand() returns (a: Answer)
      modifies `commands
      ensures commands == old(commands) + 1 && a == answer.At(old(commands))
    {
      a := answer.At(commands);
      commands := commands + 1;
    }

    method Clock() returns (t: real)
      modifies `readings, `now
      ensures t == now >= old(now)
    {
      if pause.At(readings) > 0.0 {
        now := now + pause.At(readings);
      }
      readings := readings + 1;
      t := now;
    }

    method Sleep(seconds: real)
      modifies `now
      ensures now == if seconds > 0.0 then old(now) + seconds else old(now)
    {
      if seconds > 0.0 {
        now := now + seconds;
      }
    }
  }
}
