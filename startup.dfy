/** Startup: constructing the service on one host (version fetch, the two
    registries, the first lifetime refresh) and main's loop over the
    candidate hosts, which moves on only when a construction raises a
    connection error and stops at the first host that constructs. */
module Startup {
  import opened Snapshot
  import opened Registry
  import opened Config
  import opened Health
  import History

  /** The settings main passes to every construction: the requested
      instance (as an integer), the dryrun flag and the wallbox's name. */
  datatype Settings = Settings(instance: int, dryrun: bool, name: string)

  /** The product name the constructor is given by default. */
  const ProductName: string := "Tesla Wall Connector 3"

  /** What one candidate host answers while the service is being
      constructed: the decoded version body (or why it could not be had)
      and the raw lifetime body. */
  datatype Attempt = Attempt(host: string, version: Result<VersionInfo>, lifetime: Result<string>)

  /** Both registries as the constructor creates them, before the first
      lifetime refresh. */
  function InitialBus(cfg: Settings, v: VersionInfo): Bus
  {
    var instance := PrimaryInstance(cfg.instance, cfg.dryrun);
    Bus(InitialPrimary(instance, ProductName, v), InitialTemp(TempInstance(instance, cfg.dryrun), cfg.name))
  }

  /** `DbusTWC3Service(...)` on one host: the version fetch, the
      registries, the counter at zero and the first `_lifetime()`; an
      exception from either fetch or from the refresh escapes the
      constructor. */
  function Construct(cfg: Settings, a: Attempt, parse: string -> Option<Fields>): Result<Station>
  {
    match a.version
    case Err(f) => Err(f)
    case Ok(v) =>
      var r := History.LifetimeEffect(InitialBus(cfg, v), a.lifetime, parse);
      if r.raised.Some? then Err(r.raised.value) else Ok(Station(r.bus, 0))
  }

  /** How main's loop ends: a service on the candidate at `index`, no
      candidate reachable (main carries on without a service), or an
      exception other than a connection error, which ends the program. */
  datatype Outcome = Started(index: nat, station: Station) | NoHost | Crashed(fault: Fault)

  /** The loop from the candidate at `i` on, given what constructing the
      service on each candidate gives. */
  function TryFrom(results: seq<Result<Station>>, i: nat): Outcome
    requires i <= |results|
    decreases |results| - i
  {
    if i == |results| then NoHost
    else match results[i]
      case Ok(st) => Started(i, st)
      case Err(f) => if f == ConnectionError then TryFrom(results, i + 1) else Crashed(f)
  }

  /** The loop's outcome in terms of the candidates' results: it starts on
      the first candidate that constructs, provided every earlier one
      refused the connection; it finds none exactly when every candidate
      refuses; and it crashes with the first other fault. */
  lemma {:induction false} TryFromOutcome(results: seq<Result<Station>>, i: nat)
    requires i <= |results|
    ensures var o := TryFrom(results, i);
      && (o.Started? ==>
            && i <= o.index < |results| && results[o.index] == Ok(o.station)
            && forall j | i <= j < o.index :: results[j] == Err(ConnectionError))
      && (o.NoHost? <==> forall j | i <= j < |results| :: results[j] == Err(ConnectionError))
      && (o.Crashed? ==>
            && o.fault != ConnectionError
            && exists k | i <= k < |results| ::
                 && results[k] == Err(o.fault)
                 && forall j | i <= j < k :: results[j] == Err(ConnectionError))
    decreases |results| - i
  {
    if i < |results| && results[i] == Err(ConnectionError) {
      TryFromOutcome(results, i + 1);
      var o := TryFrom(results, i + 1);
      if o.Crashed? {
        var k :| i + 1 <= k < |results| && results[k] == Err(o.fault)
                 && forall j | i + 1 <= j < k :: results[j] == Err(ConnectionError);
        assert forall j | i <= j < k :: results[j] == Err(ConnectionError);
      }
    }
  }

  /** What constructing the service on each candidate gives. */
  function Constructions(cfg: Settings, attempts: seq<Attempt>, parse: string -> Option<Fields>): (rs: seq<Result<Station>>)
    ensures |rs| == |attempts|
    ensures forall i | 0 <= i < |attempts| :: rs[i] == Construct(cfg, attempts[i], parse)
  {
    seq(|attempts|, i requires 0 <= i < |attempts| => Construct(cfg, attempts[i], parse))
  }

  /** The attempts main's loop makes for the `--ip` argument: one per
      candidate host, in order; `answer` gives what the host at a position
      replies to the version and lifetime fetches. */
  function Attempts(ipArg: string, answer: (nat, string) -> (Result<VersionInfo>, Result<string>)): (tries: seq<Attempt>)
    ensures |tries| == |CandidateHosts(ipArg)|
    ensures forall i | 0 <= i < |tries| :: tries[i].host == CandidateHosts(ipArg)[i]
  {
    var hosts := CandidateHosts(ipArg);
    seq(|hosts|, i requires 0 <= i < |hosts| =>
      Attempt(hosts[i], answer(i, hosts[i]).0, answer(i, hosts[i]).1))
  }

  /** main's candidate loop on its command line. */
  function Main(cfg: Settings, ipArg: string, answer: (nat, string) -> (Result<VersionInfo>, Result<string>),
                parse: string -> Option<Fields>): Outcome
  {
    Connect(cfg, Attempts(ipArg, answer), parse)
  }

  /** main tries the comma-separated hosts in the order they were given,
      an empty one standing for the default host, and starts on a host only
      after every earlier one refused the connection. */
  lemma MainTriesHostsInOrder(cfg: Settings, hosts: seq<string>,
                              answer: (nat, string) -> (Result<VersionInfo>, Result<string>),
                              parse: string -> Option<Fields>)
    requires |hosts| > 0 && forall i | 0 <= i < |hosts| :: ',' !in hosts[i]
    ensures var tries := Attempts(Join(hosts, ','), answer);
      && |tries| == |hosts|
      && (forall i | 0 <= i < |hosts| :: tries[i].host == Host(Some(hosts[i])))
      && (Main(cfg, Join(hosts, ','), answer, parse).Started? ==>
            var k := Main(cfg, Join(hosts, ','), answer, parse).index;
            && k < |hosts|
            && Construct(cfg, tries[k], parse).Ok?
            && forall j | 0 <= j < k :: Construct(cfg, tries[j], parse) == Err(ConnectionError))
  {
    CandidateHostsInOrder(hosts);
    var tries := Attempts(Join(hosts, ','), answer);
    TryFromOutcome(Constructions(cfg, tries, parse), 0);
  }

  /** main's whole loop over the candidates. */
  function Connect(cfg: Settings, attempts: seq<Attempt>, parse: string -> Option<Fields>): Outcome
  {
    TryFrom(Constructions(cfg, attempts, parse), 0)
  }

  /** A service constructs only when the version fetch succeeded and the
      first lifetime refresh completed, every counter converting; its state
      is the refreshed registries with the counter at zero. */
  lemma ConstructedRefresh(cfg: Settings, a: Attempt, parse: string -> Option<Fields>)
    requires Construct(cfg, a, parse).Ok?
    ensures a.version.Ok? && History.LifetimeFields(a.lifetime, parse).Ok?
    ensures var r := History.LifetimeEffect(InitialBus(cfg, a.version.value), a.lifetime, parse);
      && r.raised.None?
      && History.HistoryComplete(History.LifetimeFields(a.lifetime, parse).value)
      && Construct(cfg, a, parse).value == Station(r.bus, 0)
  {
    var lt := History.LifetimeFields(a.lifetime, parse).value;
    History.HistoryRaisesIff(InitialBus(cfg, a.version.value), lt);
  }

  /** ... and those registries hold 1 on /Connected, the instances the
      settings call for and the configured label, so the health invariant
      holds from the start. */
  lemma ConstructedState(cfg: Settings, a: Attempt, parse: string -> Option<Fields>)
    requires Construct(cfg, a, parse).Ok?
    ensures var st := Construct(cfg, a, parse).value;
      && a.version.Ok?
      && st.retries == 0
      && History.LifetimeFields(a.lifetime, parse).Ok?
      && History.LifetimeEffect(InitialBus(cfg, a.version.value), a.lifetime, parse).raised.None?
      && History.HistoryComplete(History.LifetimeFields(a.lifetime, parse).value)
      && st.bus == History.LifetimeEffect(InitialBus(cfg, a.version.value), a.lifetime, parse).bus
      && DeviceInstance in st.bus.primary
      && st.bus.primary[DeviceInstance] == Num(PrimaryInstance(cfg.instance, cfg.dryrun) as real)
      && DeviceInstance in st.bus.temp
      && st.bus.temp[DeviceInstance] == Num(TempInstance(PrimaryInstance(cfg.instance, cfg.dryrun), cfg.dryrun) as real)
      && CustomName in st.bus.temp && st.bus.temp[CustomName] == Str(cfg.name)
      && Healthy(st, cfg.name)
  {
    ConstructedRefresh(cfg, a, parse);
    History.LifetimeFrame(InitialBus(cfg, a.version.value), a.lifetime, parse);
    assert !History.IsHistory(DeviceInstance) && !History.IsHistory(Connected);
  }

  /** A first snapshot whose average startup temperature is 0, False or
      null leaves that path without a value: the constructor created it
      empty and the refresh does not publish it. */
  lemma FirstFalsyAverageIsNull(cfg: Settings, a: Attempt, parse: string -> Option<Fields>)
    requires Construct(cfg, a, parse).Ok?
    requires History.LifetimeFields(a.lifetime, parse).Ok?
    requires var lt := History.LifetimeFields(a.lifetime, parse).value;
      "avg_startup_temp" in lt && !Truthy(lt["avg_startup_temp"])
    ensures var s := Construct(cfg, a, parse).value.bus.primary;
      HistoryAverageStartupTemperature in s && s[HistoryAverageStartupTemperature] == Null
  {
    ConstructedState(cfg, a, parse);
    History.AverageStartupTemperatureQuirk(InitialBus(cfg, a.version.value), History.LifetimeFields(a.lifetime, parse).value);
  }

  /** A service that main starts satisfies the health invariant from the
      first fast cycle on. */
  lemma StartedHealthy(cfg: Settings, attempts: seq<Attempt>, parse: string -> Option<Fields>)
    requires Connect(cfg, attempts, parse).Started?
    ensures Healthy(Connect(cfg, attempts, parse).station, cfg.name)
  {
    var o := Connect(cfg, attempts, parse);
    TryFromOutcome(Constructions(cfg, attempts, parse), 0);
    ConstructedState(cfg, attempts[o.index], parse);
  }

  /** Only a connection error moves on: a version body that is not JSON, a
      read timeout or a malformed lifetime snapshot on the first candidate
      ends the program even when a later candidate would have answered. */
  lemma OtherFaultsAreFatal(cfg: Settings, attempts: seq<Attempt>, parse: string -> Option<Fields>)
    requires |attempts| > 0
    requires Construct(cfg, attempts[0], parse).Err?
    requires Construct(cfg, attempts[0], parse).fault != ConnectionError
    ensures Connect(cfg, attempts, parse) == Crashed(Construct(cfg, attempts[0], parse).fault)
  {
  }
}
