/** The fast cycle's publication (`_update`): per-phase and total power,
    grid values, the charge status and the temperatures go to the primary
    registry, and the handle temperature is mirrored on the temperature
    service. Statements run in order; the first whose expression raises
    ends the cycle with the earlier writes in place. */
module Vitals {
  import opened Snapshot
  import opened Registry
  import History

  /** The charge status published on /Status: 0 disconnected, 1 connected,
      2 charging. */
  datatype ChargeState = Unplugged | PluggedIn | Charging
  {
    function Code(): int
    {
      match this
      case Unplugged => 0
      case PluggedIn => 1
      case Charging => 2
    }
  }

  /** `vehicle_connected` is present and `== True`. */
  predicate VehicleConnected(d: Fields)
  {
    "vehicle_connected" in d && EqualsTrue(d["vehicle_connected"])
  }

  /** The status decision: disconnected unless `vehicle_connected == True`;
      then charging exactly when `vehicle_current_a > 1`. The current is
      compared only when the vehicle is connected. */
  function Classify(d: Fields): (r: Result<ChargeState>)
    ensures "vehicle_connected" !in d ==> r == Err(KeyError("vehicle_connected"))
    ensures "vehicle_connected" in d && !VehicleConnected(d) ==> r == Ok(Unplugged)
    ensures r == Ok(Charging) <==>
      VehicleConnected(d) && "vehicle_current_a" in d
      && d["vehicle_current_a"].JNum? && d["vehicle_current_a"].x > 1.0
    ensures r == Ok(PluggedIn) <==>
      VehicleConnected(d) && "vehicle_current_a" in d && !d["vehicle_current_a"].JNull?
      && !(d["vehicle_current_a"].JNum? && d["vehicle_current_a"].x > 1.0)
  {
    match Lookup(d, "vehicle_connected")
    case Err(f) => Err(f)
    case Ok(c) =>
      if !EqualsTrue(c) then Ok(Unplugged)
      else
        match Lookup(d, "vehicle_current_a")
        case Err(f) => Err(f)
        case Ok(a) =>
          match GreaterThanOne(a, "vehicle_current_a")
          case Err(f) => Err(f)
          case Ok(above) => Ok(if above then Charging else PluggedIn)
  }

  /** `round(float(d[current]) * float(d[voltage]))`. */
  function PhasePower(d: Fields, current: string, voltage: string): Result<int>
  {
    match FloatField(d, current)
    case Err(f) => Err(f)
    case Ok(a) =>
      match FloatField(d, voltage)
      case Err(f) => Err(f)
      case Ok(v) => Ok(RoundHalfEven(a * v))
  }

  /** `round(ds['/Ac/L1/Power'] + ds['/Ac/L2/Power'] + ds['/Ac/L3/Power'])`,
      reading back what the registry holds. */
  function SumOfPhases(s: Store): Result<Value>
  {
    if AcL1Power in s && AcL2Power in s && AcL3Power in s
       && s[AcL1Power].Num? && s[AcL2Power].Num? && s[AcL3Power].Num?
    then Ok(Num(RoundHalfEven(s[AcL1Power].x + s[AcL2Power].x + s[AcL3Power].x) as real))
    else Err(TypeError(AcPower.Name()))
  }

  /** `round(float(lt['energy_wh']) / 1000.0, 3)`: kWh from the lifetime
      snapshot's cumulative Wh. */
  function EnergyForward(lt: Fields): Result<Value>
  {
    match FloatField(lt, "energy_wh")
    case Err(f) => Err(f)
    case Ok(wh) => Ok(Num(RoundTo(wh / 1000.0, 3)))
  }

  function StatusValue(r: Result<ChargeState>): Result<Value>
  {
    match r
    case Err(f) => Err(f)
    case Ok(st) => Ok(Num(st.Code() as real))
  }

  /** `d[key]` published as it is. */
  function RawField(d: Fields, key: string): Result<Value>
  {
    match Lookup(d, key)
    case Err(f) => Err(f)
    case Ok(j) => Ok(Publish(j))
  }

  /** The first three statements write the phase powers ... */
  const PhaseTargets: seq<(Target, Path)> :=
    [(Primary, AcL1Power), (Primary, AcL2Power), (Primary, AcL3Power)]

  function PhaseValues(d: Fields): seq<Result<Value>>
  {
    [ IntAsNum(PhasePower(d, "currentA_a", "voltageA_v")),
      IntAsNum(PhasePower(d, "currentB_a", "voltageB_v")),
      IntAsNum(PhasePower(d, "currentC_a", "voltageC_v")) ]
  }

  /** ... and the remaining sixteen the paths below, the last two on the
      temperature service: the display mirror of the branch `if True:`
      always takes. */
  const RestTargets: seq<(Target, Path)> :=
    [ (Primary, AcPower), (Primary, AcFrequency), (Primary, AcVoltage),
      (Primary, Current), (Primary, SetCurrent), (Primary, MaxCurrent),
      (Primary, AcEnergyForward), (Primary, ChargingTime), (Primary, Status),
      (Primary, Mode), (Primary, StartStop), (Primary, McuTemperature),
      (Primary, PcbTemperature), (Primary, HandleTemperature),
      (Temp, CustomName), (Temp, Temperature) ]

  /** The values of those sixteen statements, position by position;
      `phases` is the primary registry after the phase powers, which the
      total reads back. */
  function RestValues(d: Fields, lt: Fields, name: string, phases: Store): seq<Result<Value>>
  {
    [ SumOfPhases(phases),
      AsNum(RoundField(d, "grid_hz", 1)),
      AsNum(RoundField(d, "grid_v", 0)),
      AsNum(RoundField(d, "vehicle_current_a", 1)),
      Ok(Num(16.0)),
      Ok(Num(16.0)),
      EnergyForward(lt),
      RawField(d, "session_s"),
      StatusValue(Classify(d)),
      Ok(Num(0.0)),
      Ok(Num(1.0)),
      RawField(d, "mcu_temp_c"),
      RawField(d, "pcba_temp_c"),
      RawField(d, "handle_temp_c"),
      Ok(Str(name + " Handle")),
      AsNum(RoundField(d, "handle_temp_c", 1)) ]
  }

  /** The registry writes of `_update` after the lifetime refresh, in order;
      `lt` is the lifetime snapshot that refresh returned. */
  function UpdateWrites(r0: Run, d: Fields, lt: Fields, name: string): Run
  {
    var r3 := Exec(r0, Statements(PhaseTargets, PhaseValues(d)));
    Exec(r3, Statements(RestTargets, RestValues(d, lt, name, r3.bus.primary)))
  }

  /** One run of `_update`: fetch and decode the vitals, refresh the
      lifetime snapshot (publishing the history), then publish the rest. */
  function UpdateEffect(bus: Bus, name: string, vitals: Result<Fields>,
                        body: Result<string>, parse: string -> Option<Fields>): Run
  {
    match vitals
    case Err(f) => Run(bus, Some(f))
    case Ok(d) =>
      match History.LifetimeFields(body, parse)
      case Err(f) => Run(bus, Some(f))
      case Ok(lt) => UpdateWrites(History.HistoryWrites(Run(bus, None), lt), d, lt, name)
  }

  /** Whatever the current, an unplugged vehicle reads as disconnected. */
  lemma UnpluggedWhateverCurrent(d: Fields, current: Json)
    requires "vehicle_connected" in d && !EqualsTrue(d["vehicle_connected"])
    ensures Classify(d) == Ok(Unplugged)
    ensures Classify(d["vehicle_current_a" := current]) == Ok(Unplugged)
  {
    assert d["vehicle_current_a" := current]["vehicle_connected"] == d["vehicle_connected"];
  }

  /** The charging threshold is strict: a current of exactly 1 is connected,
      anything above is charging. */
  lemma ChargingThresholdIsStrict(d: Fields, x: real)
    requires VehicleConnected(d)
    ensures Classify(d["vehicle_current_a" := JNum(x)]) == Ok(if x > 1.0 then Charging else PluggedIn)
    ensures Classify(d["vehicle_current_a" := JNum(1.0)]) == Ok(PluggedIn)
  {
    assert VehicleConnected(d["vehicle_current_a" := JNum(x)]);
    assert VehicleConnected(d["vehicle_current_a" := JNum(1.0)]);
  }

  /** With the vehicle connected, a larger current never gives a lower
      status: no hysteresis, but no inversion either. */
  lemma StatusMonotoneInCurrent(d: Fields, x: real, y: real)
    requires VehicleConnected(d) && x <= y
    ensures Classify(d["vehicle_current_a" := JNum(x)]).Ok?
    ensures Classify(d["vehicle_current_a" := JNum(y)]).Ok?
    ensures Classify(d["vehicle_current_a" := JNum(x)]).value.Code()
         <= Classify(d["vehicle_current_a" := JNum(y)]).value.Code()
  {
    ChargingThresholdIsStrict(d, x);
    ChargingThresholdIsStrict(d, y);
  }

  /** The paths `_update` writes after the lifetime refresh. */
  predicate WrittenByUpdate(t: Target, p: Path)
  {
    match t
    case Primary =>
      || p.AcL1Power? || p.AcL2Power? || p.AcL3Power? || p.AcPower?
      || p.AcFrequency? || p.AcVoltage? || p.Current? || p.SetCurrent?
      || p.MaxCurrent? || p.AcEnergyForward? || p.ChargingTime? || p.Status?
      || p.Mode? || p.StartStop? || p.McuTemperature? || p.PcbTemperature?
      || p.HandleTemperature?
    case Temp => p.CustomName? || p.Temperature?
  }

  lemma PhaseTargetsDistinct()
    ensures Distinct(PhaseTargets)
  {
  }

  lemma RestTargetsDistinct()
    ensures Distinct(RestTargets)
  {
  }

  /** The two tables name exactly the paths of WrittenByUpdate, all of them
      registered. */
  lemma TargetsAreUpdatePaths(t: Target, p: Path)
    ensures !WrittenByUpdate(t, p) ==> (t, p) !in PhaseTargets && (t, p) !in RestTargets
    ensures forall i | 0 <= i < |PhaseTargets| :: PhaseTargets[i].0 == Primary && OnPrimary(PhaseTargets[i].1)
    ensures forall i | 0 <= i < |RestTargets| ::
      if RestTargets[i].0 == Primary then OnPrimary(RestTargets[i].1) else OnTemp(RestTargets[i].1)
  {
  }

  /** Where the phase powers, the total, the energy and the status sit in
      the tables. */
  lemma TargetNames()
    ensures PhaseTargets[0].1 == AcL1Power && PhaseTargets[1].1 == AcL2Power && PhaseTargets[2].1 == AcL3Power
    ensures RestTargets[0] == (Primary, AcPower) && RestTargets[6] == (Primary, AcEnergyForward)
    ensures RestTargets[8] == (Primary, Status)
  {
  }

  /** The update as a run of the two tables, whatever their values. */
  function TwoTables(r0: Run, pv: seq<Result<Value>>, vs: seq<Result<Value>>): Run
    requires |pv| == |PhaseTargets| && |vs| == |RestTargets|
  {
    Exec(Exec(r0, Statements(PhaseTargets, pv)), Statements(RestTargets, vs))
  }

  lemma TwoTablesFrame(r0: Run, pv: seq<Result<Value>>, vs: seq<Result<Value>>, t: Target, p: Path)
    requires |pv| == |PhaseTargets| && |vs| == |RestTargets| && !WrittenByUpdate(t, p)
    ensures SameAt(StoreOf(TwoTables(r0, pv, vs).bus, t), StoreOf(r0.bus, t), p)
  {
    TargetsAreUpdatePaths(t, p);
    StatementsFrame(r0, PhaseTargets, pv, t, p);
    StatementsFrame(Exec(r0, Statements(PhaseTargets, pv)), RestTargets, vs, t, p);
  }

  lemma TwoTablesRegistered(r0: Run, pv: seq<Result<Value>>, vs: seq<Result<Value>>)
    requires |pv| == |PhaseTargets| && |vs| == |RestTargets|
    ensures r0.raised.Some? ==> TwoTables(r0, pv, vs) == r0
    ensures Registered(r0.bus) ==> Registered(TwoTables(r0, pv, vs).bus)
  {
    var r3 := Exec(r0, Statements(PhaseTargets, pv));
    TargetsAreUpdatePaths(Primary, AcPower);
    if r0.raised.Some? {
      ExecAfterFault(r0, Statements(PhaseTargets, pv));
      ExecAfterFault(r3, Statements(RestTargets, vs));
    }
    if Registered(r0.bus) {
      StatementsRegistered(r0, PhaseTargets, pv);
      StatementsRegistered(r3, RestTargets, vs);
    }
  }

  /** The rest of the update never writes a phase power. */
  lemma RestKeepsPhases(r3: Run, vs: seq<Result<Value>>)
    requires |vs| == |RestTargets|
    ensures forall i | 0 <= i < |PhaseTargets| ::
      SameAt(Exec(r3, Statements(RestTargets, vs)).bus.primary, r3.bus.primary, PhaseTargets[i].1)
  {
    StatementsFrame(r3, RestTargets, vs, Primary, AcL1Power);
    StatementsFrame(r3, RestTargets, vs, Primary, AcL2Power);
    StatementsFrame(r3, RestTargets, vs, Primary, AcL3Power);
  }

  /** A complete run of the tables holds each value at its path; the phase
      powers are also what the total read back. */
  lemma TwoTablesPublished(r0: Run, pv: seq<Result<Value>>, vs: seq<Result<Value>>)
    requires |pv| == |PhaseTargets| && |vs| == |RestTargets|
    requires TwoTables(r0, pv, vs).raised.None?
    ensures var r3 := Exec(r0, Statements(PhaseTargets, pv));
      forall i | 0 <= i < |PhaseTargets| ::
        && pv[i].Ok?
        && PhaseTargets[i].1 in r3.bus.primary && r3.bus.primary[PhaseTargets[i].1] == pv[i].value
        && PhaseTargets[i].1 in TwoTables(r0, pv, vs).bus.primary
        && TwoTables(r0, pv, vs).bus.primary[PhaseTargets[i].1] == pv[i].value
    ensures forall i | 0 <= i < |RestTargets| ::
      && vs[i].Ok?
      && RestTargets[i].1 in StoreOf(TwoTables(r0, pv, vs).bus, RestTargets[i].0)
      && StoreOf(TwoTables(r0, pv, vs).bus, RestTargets[i].0)[RestTargets[i].1] == vs[i].value
  {
    var r3 := Exec(r0, Statements(PhaseTargets, pv));
    PhaseTargetsDistinct();
    RestTargetsDistinct();
    StatementsPublished(r3, RestTargets, vs);
    StatementsPublished(r0, PhaseTargets, pv);
    RestKeepsPhases(r3, vs);
  }

  /** One entry of a complete run of the rest table. */
  lemma RestPublishedAt(r0: Run, pv: seq<Result<Value>>, vs: seq<Result<Value>>, i: nat)
    requires |pv| == |PhaseTargets| && |vs| == |RestTargets| && i < |RestTargets|
    requires TwoTables(r0, pv, vs).raised.None?
    ensures vs[i].Ok?
    ensures RestTargets[i].1 in StoreOf(TwoTables(r0, pv, vs).bus, RestTargets[i].0)
    ensures StoreOf(TwoTables(r0, pv, vs).bus, RestTargets[i].0)[RestTargets[i].1] == vs[i].value
  {
    TwoTablesPublished(r0, pv, vs);
  }

  /** The tables complete exactly when every value evaluates. */
  lemma TwoTablesCompletes(r0: Run, pv: seq<Result<Value>>, vs: seq<Result<Value>>)
    requires |pv| == |PhaseTargets| && |vs| == |RestTargets|
    ensures TwoTables(r0, pv, vs).raised.None? <==>
      && r0.raised.None?
      && (forall i | 0 <= i < |pv| :: pv[i].Ok?)
      && (forall i | 0 <= i < |vs| :: vs[i].Ok?)
  {
    PhaseTargetsDistinct();
    RestTargetsDistinct();
    StatementsPublished(r0, PhaseTargets, pv);
    StatementsPublished(Exec(r0, Statements(PhaseTargets, pv)), RestTargets, vs);
  }

  /** When the phase powers evaluate and the first failing value of the rest
      is at position `k`, the cycle raises that fault with the earlier values
      published. */
  lemma TwoTablesStopsAt(r0: Run, pv: seq<Result<Value>>, vs: seq<Result<Value>>, k: nat)
    requires |pv| == |PhaseTargets| && |vs| == |RestTargets| && r0.raised.None?
    requires forall i | 0 <= i < |pv| :: pv[i].Ok?
    requires k < |vs| && vs[k].Err? && forall i | 0 <= i < k :: vs[i].Ok?
    ensures var r := TwoTables(r0, pv, vs);
      && r.raised == Some(vs[k].fault)
      && (forall i | 0 <= i < |PhaseTargets| ::
            PhaseTargets[i].1 in r.bus.primary && r.bus.primary[PhaseTargets[i].1] == pv[i].value)
      && (forall i | 0 <= i < k ::
            && RestTargets[i].1 in StoreOf(r.bus, RestTargets[i].0)
            && StoreOf(r.bus, RestTargets[i].0)[RestTargets[i].1] == vs[i].value)
  {
    var r3 := Exec(r0, Statements(PhaseTargets, pv));
    PhaseTargetsDistinct();
    RestTargetsDistinct();
    StatementsPublished(r0, PhaseTargets, pv);
    StatementsStopAt(r3, RestTargets, vs, k);
    RestKeepsPhases(r3, vs);
  }

  /** The update writes only its own paths: never /Connected, and on the
      temperature service only the label and the temperature. */
  lemma UpdateWritesFrame(r0: Run, d: Fields, lt: Fields, name: string, t: Target, p: Path)
    ensures !WrittenByUpdate(t, p) ==>
      SameAt(StoreOf(UpdateWrites(r0, d, lt, name).bus, t), StoreOf(r0.bus, t), p)
  {
    var r3 := Exec(r0, Statements(PhaseTargets, PhaseValues(d)));
    if !WrittenByUpdate(t, p) {
      TwoTablesFrame(r0, PhaseValues(d), RestValues(d, lt, name, r3.bus.primary), t, p);
    }
  }

  /** A cycle that has already raised writes nothing, and the update keeps
      the registries registered. */
  lemma UpdateWritesRegistered(r0: Run, d: Fields, lt: Fields, name: string)
    ensures r0.raised.Some? ==> UpdateWrites(r0, d, lt, name) == r0
    ensures Registered(r0.bus) ==> Registered(UpdateWrites(r0, d, lt, name).bus)
  {
    var r3 := Exec(r0, Statements(PhaseTargets, PhaseValues(d)));
    TwoTablesRegistered(r0, PhaseValues(d), RestValues(d, lt, name, r3.bus.primary));
  }

  /** The temperature is the last write, so a cycle that raises leaves the
      displayed temperature alone. */
  lemma TwoTablesFaultKeepsTemperature(r0: Run, pv: seq<Result<Value>>, vs: seq<Result<Value>>)
    requires |pv| == |PhaseTargets| && |vs| == |RestTargets|
    requires TwoTables(r0, pv, vs).raised.Some?
    ensures SameAt(TwoTables(r0, pv, vs).bus.temp, r0.bus.temp, Temperature)
  {
    var r3 := Exec(r0, Statements(PhaseTargets, pv));
    var rest := Statements(RestTargets, vs);
    TargetsAreUpdatePaths(Temp, Temperature);
    StatementsFrame(r0, PhaseTargets, pv, Temp, Temperature);
    ExecSplit(r3, rest, 15);
    assert rest[..15] == Statements(RestTargets[..15], vs[..15]);
    StatementsFrame(r3, RestTargets[..15], vs[..15], Temp, Temperature);
    var rp := Exec(r3, rest[..15]);
    if rp.raised.Some? {
      ExecAfterFault(rp, rest[15..]);
    } else {
      assert rest[15..] == [Write(Temp, Temperature, vs[15])];
      assert Exec(rp, rest[15..]) == Exec(Then(rp, Temp, Temperature, vs[15]), []);
    }
  }

  lemma UpdateFaultKeepsTemperature(r0: Run, d: Fields, lt: Fields, name: string)
    requires UpdateWrites(r0, d, lt, name).raised.Some?
    ensures SameAt(UpdateWrites(r0, d, lt, name).bus.temp, r0.bus.temp, Temperature)
  {
    var r3 := Exec(r0, Statements(PhaseTargets, PhaseValues(d)));
    TwoTablesFaultKeepsTemperature(r0, PhaseValues(d), RestValues(d, lt, name, r3.bus.primary));
  }

  /** The only label the update writes on the temperature service is the
      handle label: whether or not the cycle raises, /CustomName there keeps
      its value or reads name + " Handle". */
  lemma TwoTablesLabel(r0: Run, pv: seq<Result<Value>>, name: string, vs: seq<Result<Value>>)
    requires |pv| == |PhaseTargets| && |vs| == |RestTargets| && vs[14] == Ok(Str(name + " Handle"))
    ensures var s := TwoTables(r0, pv, vs).bus.temp;
      SameAt(s, r0.bus.temp, CustomName) || (CustomName in s && s[CustomName] == Str(name + " Handle"))
  {
    var r3 := Exec(r0, Statements(PhaseTargets, pv));
    TargetsAreUpdatePaths(Temp, CustomName);
    StatementsFrame(r0, PhaseTargets, pv, Temp, CustomName);
    RestTargetsDistinct();
    assert RestTargets[14] == (Temp, CustomName);
    forall i | 0 <= i < |RestTargets| && RestTargets[i] == (Temp, CustomName)
      ensures i == 14
    {
    }
    StatementsWriteOnly(r3, RestTargets, vs, Temp, CustomName, Str(name + " Handle"));
  }

  lemma UpdateWritesLabel(r0: Run, d: Fields, lt: Fields, name: string)
    ensures var s := UpdateWrites(r0, d, lt, name).bus.temp;
      SameAt(s, r0.bus.temp, CustomName) || (CustomName in s && s[CustomName] == Str(name + " Handle"))
  {
    var r3 := Exec(r0, Statements(PhaseTargets, PhaseValues(d)));
    TwoTablesLabel(r0, PhaseValues(d), name, RestValues(d, lt, name, r3.bus.primary));
  }

  /** The paths the connection health uses, after the registry writes of
      an update: /Connected is never written, the displayed temperature only
      by a run that completes, and the label only with name + " Handle". */
  lemma UpdateWritesHealthPaths(r0: Run, d: Fields, lt: Fields, name: string)
    ensures var r := UpdateWrites(r0, d, lt, name);
      && SameAt(r.bus.primary, r0.bus.primary, Connected)
      && (r.raised.Some? ==> SameAt(r.bus.temp, r0.bus.temp, Temperature))
      && (SameAt(r.bus.temp, r0.bus.temp, CustomName)
          || (CustomName in r.bus.temp && r.bus.temp[CustomName] == Str(name + " Handle")))
      && (Registered(r0.bus) ==> Registered(r.bus))
  {
    UpdateWritesFrame(r0, d, lt, name, Primary, Connected);
    UpdateWritesLabel(r0, d, lt, name);
    UpdateWritesRegistered(r0, d, lt, name);
    if UpdateWrites(r0, d, lt, name).raised.Some? {
      UpdateFaultKeepsTemperature(r0, d, lt, name);
    }
  }

  /** The same for a whole `_update` run, lifetime refresh included. */
  lemma UpdateEffectFrame(bus: Bus, name: string, vitals: Result<Fields>,
                          body: Result<string>, parse: string -> Option<Fields>)
    ensures var r := UpdateEffect(bus, name, vitals, body, parse);
      && SameAt(r.bus.primary, bus.primary, Connected)
      && (r.raised.Some? ==> SameAt(r.bus.temp, bus.temp, Temperature))
      && (SameAt(r.bus.temp, bus.temp, CustomName)
          || (CustomName in r.bus.temp && r.bus.temp[CustomName] == Str(name + " Handle")))
      && (Registered(bus) ==> Registered(r.bus))
  {
    match vitals
    case Err(_) =>
    case Ok(d) =>
      match History.LifetimeFields(body, parse)
      case Err(_) =>
      case Ok(lt) =>
        var r1 := History.HistoryWrites(Run(bus, None), lt);
        HistoryKeepsHealthPaths(bus, lt);
        UpdateWritesHealthPaths(r1, d, lt, name);
  }

  /** The lifetime refresh writes only history paths of the charger. */
  lemma HistoryKeepsHealthPaths(bus: Bus, lt: Fields)
    ensures var r1 := History.HistoryWrites(Run(bus, None), lt);
      && SameAt(r1.bus.primary, bus.primary, Connected)
      && r1.bus.temp == bus.temp
      && (Registered(bus) ==> Registered(r1.bus))
  {
    History.HistoryFrame(Run(bus, None), lt);
    if Registered(bus) {
      History.HistoryRegistered(Run(bus, None), lt);
    }
  }

  /** After a complete update the total power is the sum of the three phase
      powers as published, each rounded on its own before the sum. */
  lemma TotalPowerIsSumOfPublishedPhases(r0: Run, d: Fields, lt: Fields, name: string)
    requires UpdateWrites(r0, d, lt, name).raised.None?
    ensures var s := UpdateWrites(r0, d, lt, name).bus.primary;
      && PhasePower(d, "currentA_a", "voltageA_v").Ok?
      && PhasePower(d, "currentB_a", "voltageB_v").Ok?
      && PhasePower(d, "currentC_a", "voltageC_v").Ok?
      && AcL1Power in s && AcL2Power in s && AcL3Power in s && AcPower in s
      && s[AcL1Power] == Num(PhasePower(d, "currentA_a", "voltageA_v").value as real)
      && s[AcL2Power] == Num(PhasePower(d, "currentB_a", "voltageB_v").value as real)
      && s[AcL3Power] == Num(PhasePower(d, "currentC_a", "voltageC_v").value as real)
      && s[AcPower] == Num(s[AcL1Power].x + s[AcL2Power].x + s[AcL3Power].x)
  {
    var pv := PhaseValues(d);
    var r3 := Exec(r0, Statements(PhaseTargets, pv));
    TwoTablesPublished(r0, pv, RestValues(d, lt, name, r3.bus.primary));
    TargetNames();
    var a := PhasePower(d, "currentA_a", "voltageA_v").value;
    var b := PhasePower(d, "currentB_a", "voltageB_v").value;
    var c := PhasePower(d, "currentC_a", "voltageC_v").value;
    RoundHalfEvenOfInteger(a + b + c);
  }

  /** A complete update publishes the status code and the fixed control
      values. */
  lemma StatusPublished(r0: Run, d: Fields, lt: Fields, name: string)
    requires UpdateWrites(r0, d, lt, name).raised.None?
    ensures var s := UpdateWrites(r0, d, lt, name).bus.primary;
      && Classify(d).Ok?
      && Status in s && s[Status] == Num(Classify(d).value.Code() as real)
      && Mode in s && s[Mode] == Num(0.0)
      && StartStop in s && s[StartStop] == Num(1.0)
      && SetCurrent in s && s[SetCurrent] == Num(16.0)
      && MaxCurrent in s && s[MaxCurrent] == Num(16.0)
  {
    var r3 := Exec(r0, Statements(PhaseTargets, PhaseValues(d)));
    TwoTablesPublished(r0, PhaseValues(d), RestValues(d, lt, name, r3.bus.primary));
    assert RestTargets[4] == (Primary, SetCurrent) && RestTargets[5] == (Primary, MaxCurrent);
    assert RestTargets[8] == (Primary, Status) && RestTargets[9] == (Primary, Mode);
    assert RestTargets[10] == (Primary, StartStop);
  }

  /** A complete update publishes the lifetime energy counter in kWh and the
      grid values rounded as displayed. */
  lemma MeasurementsPublished(r0: Run, d: Fields, lt: Fields, name: string)
    requires UpdateWrites(r0, d, lt, name).raised.None?
    ensures var s := UpdateWrites(r0, d, lt, name).bus.primary;
      && FloatField(lt, "energy_wh").Ok?
      && AcEnergyForward in s
      && s[AcEnergyForward] == Num(RoundTo(FloatField(lt, "energy_wh").value / 1000.0, 3))
      && RoundField(d, "grid_hz", 1).Ok?
      && AcFrequency in s && s[AcFrequency] == Num(RoundField(d, "grid_hz", 1).value)
      && RoundField(d, "grid_v", 0).Ok?
      && AcVoltage in s && s[AcVoltage] == Num(RoundField(d, "grid_v", 0).value)
      && RoundField(d, "vehicle_current_a", 1).Ok?
      && Current in s && s[Current] == Num(RoundField(d, "vehicle_current_a", 1).value)
  {
    var pv := PhaseValues(d);
    var vs := RestValues(d, lt, name, Exec(r0, Statements(PhaseTargets, pv)).bus.primary);
    RestPublishedAt(r0, pv, vs, 1);
    RestPublishedAt(r0, pv, vs, 2);
    RestPublishedAt(r0, pv, vs, 3);
    RestPublishedAt(r0, pv, vs, 6);
    assert RestTargets[1] == (Primary, AcFrequency) && RestTargets[2] == (Primary, AcVoltage);
    assert RestTargets[3] == (Primary, Current) && RestTargets[6] == (Primary, AcEnergyForward);
  }

  /** A complete update labels the temperature service's display as the
      handle and shows the handle temperature to one decimal. */
  lemma DisplayMirrorsHandle(r0: Run, d: Fields, lt: Fields, name: string)
    requires UpdateWrites(r0, d, lt, name).raised.None?
    ensures var b := UpdateWrites(r0, d, lt, name).bus;
      && RoundField(d, "handle_temp_c", 1).Ok?
      && CustomName in b.temp && b.temp[CustomName] == Str(name + " Handle")
      && Temperature in b.temp && b.temp[Temperature] == Num(RoundField(d, "handle_temp_c", 1).value)
      && HandleTemperature in b.primary && b.primary[HandleTemperature] == Publish(d["handle_temp_c"])
  {
    var r3 := Exec(r0, Statements(PhaseTargets, PhaseValues(d)));
    TwoTablesPublished(r0, PhaseValues(d), RestValues(d, lt, name, r3.bus.primary));
    assert RestTargets[13] == (Primary, HandleTemperature);
    assert RestTargets[14] == (Temp, CustomName) && RestTargets[15] == (Temp, Temperature);
  }

  /** Rounding each phase first can differ from rounding the true sum:
      three phases of 10.002 A at 230 V publish 2300 W each and 6900 W in
      total, while the unrounded powers add up to 6901.38 W. */
  lemma RoundedPhasesDivergeFromRoundedSum()
    ensures RoundHalfEven(10.002 * 230.0) == 2300
    ensures 3 * RoundHalfEven(10.002 * 230.0) == 6900
    ensures RoundHalfEven(3.0 * (10.002 * 230.0)) == 6901
  {
  }

  /** The energy counter is published in kWh: 5000 Wh read as 5.000. */
  lemma EnergyForwardInKilowattHours(lt: Fields)
    requires "energy_wh" in lt && lt["energy_wh"] == JNum(5000.0)
    ensures EnergyForward(lt) == Ok(Num(5.0))
  {
    assert RoundHalfEven(5.0 * Pow10(3)) == 5000;
  }
}
