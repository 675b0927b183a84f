/** The running bridge: an object holding the two registries and the retry
    counter, whose methods are the timer callbacks `_safe_update` (every
    5 s) and `_lifetime_update` (every 60 s), and main's loop that
    constructs it on the first reachable candidate. Each method is proved
    against the functions of the Health, History, Vitals and Startup
    modules, where the properties of the cycles are proved. */
module Service {
  import opened Snapshot
  import opened Registry
  import opened Health
  import History
  import Vitals
  import Startup

  class Twc3Service {
    /** The charger service's registry. */
    var primary: Store
    /** The temperature service's registry. */
    var temp: Store
    /** `_retries`: fast cycles failed in a row. */
    var retries: nat
    /** The user-visible name of the wallbox. */
    const name: string

    function State(): Station
      reads this
    {
      Station(Bus(primary, temp), retries)
    }

    /** The object as the constructor leaves it before the first lifetime
        refresh: the registries it created and the counter at zero. */
    constructor (name: string, bus: Bus)
      ensures State() == Station(bus, 0) && this.name == name
    {
      this.name := name;
      primary := bus.primary;
      temp := bus.temp;
      retries := 0;
    }

    /** `ds[key] = expr` for each statement in turn, stopping at the first
        whose expression raises. */
    method Apply(ws: seq<Write>) returns (raised: Option<Fault>)
      modifies this
      ensures Run(State().bus, raised) == Exec(Run(old(State().bus), None), ws)
      ensures retries == old(retries)
    {
      var i := 0;
      while i < |ws|
        invariant 0 <= i <= |ws| && retries == old(retries)
        invariant Exec(Run(old(State().bus), None), ws) == Exec(Run(State().bus, None), ws[i..])
      {
        assert ws[i..][1..] == ws[i + 1..];
        match ws[i].v
        case Err(f) =>
          ExecAfterFault(Run(State().bus, Some(f)), ws[i + 1..]);
          return Some(f);
        case Ok(x) =>
          if ws[i].t == Primary {
            primary := primary[ws[i].key := x];
          } else {
            temp := temp[ws[i].key := x];
          }
        i := i + 1;
      }
      return None;
    }

    /** `_lifetime`: fetch, repair and decode the lifetime snapshot, then
        publish the history; returns the snapshot, or the fault it raised. */
    method Lifetime(body: Result<string>, parse: string -> Option<Fields>) returns (lt: Result<Fields>)
      modifies this
      ensures State() == SlowCycle(old(State()), body, parse)
      ensures var r := History.LifetimeEffect(old(State().bus), body, parse);
        && (lt.Err? <==> r.raised.Some?)
        && (lt.Err? ==> r.raised == Some(lt.fault))
        && (lt.Ok? ==> History.LifetimeFields(body, parse) == lt)
    {
      var fields := History.LifetimeFields(body, parse);
      if fields.Err? {
        return fields;
      }
      var snapshot := fields.value;
      var raised := Apply(History.CounterWrites(snapshot, History.LeadingCounters));
      if raised.None? {
        raised := Apply(History.AverageStartupWrites(snapshot));
        if raised.None? {
          raised := Apply(History.CounterWrites(snapshot, History.TrailingCounters));
        } else {
          ExecAfterFault(Run(State().bus, raised), History.CounterWrites(snapshot, History.TrailingCounters));
        }
      } else {
        ExecAfterFault(Run(State().bus, raised), History.AverageStartupWrites(snapshot));
        ExecAfterFault(Run(State().bus, raised), History.CounterWrites(snapshot, History.TrailingCounters));
      }
      lt := if raised.Some? then Err(raised.value) else Ok(snapshot);
    }

    /** `_update`: fetch the vitals, refresh the lifetime snapshot, then
        publish the phase powers and the rest; returns the fault the cycle
        raised, if any. */
    method Update(vitals: Result<Fields>, body: Result<string>, parse: string -> Option<Fields>)
      returns (raised: Option<Fault>)
      modifies this
      ensures Run(State().bus, raised) == Vitals.UpdateEffect(old(State().bus), name, vitals, body, parse)
      ensures retries == old(retries)
    {
      if vitals.Err? {
        return Some(vitals.fault);
      }
      var d := vitals.value;
      ghost var bus0 := State().bus;
      var lt := Lifetime(body, parse);
      if lt.Err? {
        if History.LifetimeFields(body, parse).Ok? {
          var r1 := History.HistoryWrites(Run(bus0, None), History.LifetimeFields(body, parse).value);
          Vitals.UpdateWritesRegistered(r1, d, History.LifetimeFields(body, parse).value, name);
        }
        return Some(lt.fault);
      }
      raised := Apply(Statements(Vitals.PhaseTargets, Vitals.PhaseValues(d)));
      var rest := Statements(Vitals.RestTargets, Vitals.RestValues(d, lt.value, name, primary));
      if raised.None? {
        raised := Apply(rest);
      } else {
        ExecAfterFault(Run(State().bus, raised), rest);
      }
    }

    /** `_safe_update`: one fast cycle with its exception swallowed and the
        health bookkeeping; it always returns true, so its timer stays
        armed. */
    method SafeUpdate(vitals: Result<Fields>, body: Result<string>, parse: string -> Option<Fields>)
      returns (keep: bool)
      modifies this
      ensures keep
      ensures State() == FastCycle(old(State()), name, vitals, body, parse)
    {
      var raised := Update(vitals, body, parse);
      if raised.None? {
        if retries > 0 {
          primary := primary[Connected := Num(1.0)];
        }
        retries := 0;
      } else {
        if retries == 0 {
          primary := primary[Connected := Num(0.0)];
          temp := temp[CustomName := Str(name + " Error")];
          temp := temp[Temperature := Num(-1.0)];
        }
        retries := retries + 1;
      }
      keep := true;
    }

    /** `_lifetime_update`: one slow cycle with its exception swallowed; it
        always returns true. */
    method LifetimeUpdate(body: Result<string>, parse: string -> Option<Fields>) returns (keep: bool)
      modifies this
      ensures keep
      ensures State() == SlowCycle(old(State()), body, parse)
    {
      var _ := Lifetime(body, parse);
      keep := true;
    }
  }

  /** `DbusTWC3Service(...)` on one candidate: the version fetch, the
      registries, then the first lifetime refresh; no object when any of
      them raises. */
  method Open(cfg: Startup.Settings, a: Startup.Attempt, parse: string -> Option<Fields>)
    returns (svc: Twc3Service?, fault: Option<Fault>)
    ensures svc == null <==> fault.Some?
    ensures Startup.Construct(cfg, a, parse) ==
      (if svc == null then Err(fault.value) else Ok(svc.State()))
    ensures svc != null ==> fresh(svc) && svc.name == cfg.name
  {
    if a.version.Err? {
      return null, Some(a.version.fault);
    }
    var s := new Twc3Service(cfg.name, Startup.InitialBus(cfg, a.version.value));
    var lt := s.Lifetime(a.lifetime, parse);
    if lt.Err? {
      return null, Some(lt.fault);
    }
    return s, None;
  }

  /** main's loop: try the candidates in order, move on after a connection
      error, stop at the first service that constructs, and let any other
      exception end the program. */
  method Connect(cfg: Startup.Settings, attempts: seq<Startup.Attempt>, parse: string -> Option<Fields>)
    returns (svc: Twc3Service?, outcome: Startup.Outcome)
    ensures outcome == Startup.Connect(cfg, attempts, parse)
    ensures svc != null <==> outcome.Started?
    ensures svc != null ==> fresh(svc) && svc.name == cfg.name && svc.State() == outcome.station
  {
    ghost var results := Startup.Constructions(cfg, attempts, parse);
    var i := 0;
    while i < |attempts|
      invariant 0 <= i <= |attempts|
      invariant Startup.TryFrom(results, 0) == Startup.TryFrom(results, i)
    {
      var s, fault := Open(cfg, attempts[i], parse);
      if s != null {
        return s, Startup.Started(i, s.State());
      }
      if fault.value != ConnectionError {
        return null, Startup.Crashed(fault.value);
      }
      i := i + 1;
    }
    return null, Startup.NoHost;
  }
}
