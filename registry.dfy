/** The two property registries the bridge publishes on the bus: the
    primary "charger" service and the secondary "temperature" service that
    mirrors one value for displays that only show temperature sensors.
    Each registry maps property paths to values; a write to a path replaces
    its value. The paths the services use are a fixed set, so they are an
    enumeration here, and Name gives the bus path of each. */
module Registry {
  import opened Snapshot

  datatype Path =
    | AcPower | AcL1Power | AcL2Power | AcL3Power | AcEnergyForward
    | AcFrequency | AcVoltage | Status | Current | MaxCurrent | Mode
    | ChargingTime | PcbTemperature | McuTemperature | HandleTemperature
    | HistoryChargingCycles | HistoryConnectorCycles | HistoryEnergyForward
    | HistoryUptime | HistoryChargingTime | HistoryAlerts
    | HistoryAverageStartupTemperature | HistoryAbortedChargingCycles
    | HistoryThermalFoldbacks
    | DeviceInstance | ProductId | ProductName | FirmwareVersion
    | HardwareVersion | Connected | CustomName
    | SetCurrent | StartStop | TemperatureType | Temperature
  {
    /** The bus path of the property. */
    function Name(): string
    {
      match this
      case AcPower => "/Ac/Power"
      case AcL1Power => "/Ac/L1/Power"
      case AcL2Power => "/Ac/L2/Power"
      case AcL3Power => "/Ac/L3/Power"
      case AcEnergyForward => "/Ac/Energy/Forward"
      case AcFrequency => "/Ac/Frequency"
      case AcVoltage => "/Ac/Voltage"
      case Status => "/Status"
      case Current => "/Current"
      case MaxCurrent => "/MaxCurrent"
      case Mode => "/Mode"
      case ChargingTime => "/ChargingTime"
      case PcbTemperature => "/PCB/Temperature"
      case McuTemperature => "/MCU/Temperature"
      case HandleTemperature => "/Handle/Temperature"
      case HistoryChargingCycles => "/History/ChargingCycles"
      case HistoryConnectorCycles => "/History/ConnectorCycles"
      case HistoryEnergyForward => "/History/Ac/Energy/Forward"
      case HistoryUptime => "/History/Uptime"
      case HistoryChargingTime => "/History/ChargingTime"
      case HistoryAlerts => "/History/Alerts"
      case HistoryAverageStartupTemperature => "/History/AverageStartupTemperature"
      case HistoryAbortedChargingCycles => "/History/AbortedChargingCycles"
      case HistoryThermalFoldbacks => "/History/ThermalFoldbacks"
      case DeviceInstance => "/DeviceInstance"
      case ProductId => "/ProductId"
      case ProductName => "/ProductName"
      case FirmwareVersion => "/FirmwareVersion"
      case HardwareVersion => "/HardwareVersion"
      case Connected => "/Connected"
      case CustomName => "/CustomName"
      case SetCurrent => "/SetCurrent"
      case StartStop => "/StartStop"
      case TemperatureType => "/TemperatureType"
      case Temperature => "/Temperature"
    }
  }

  type Store = map<Path, Value>

  datatype Target = Primary | Temp

  datatype Bus = Bus(primary: Store, temp: Store)
  {
    /** `ds[key] = v` on the registry `t`. */
    function Set(t: Target, key: Path, v: Value): Bus
    {
      match t
      case Primary => this.(primary := primary[key := v])
      case Temp => this.(temp := temp[key := v])
    }
  }

  /** The registries as a cycle leaves them, and the fault it raised, if
      any. Writes made before the fault stay in place. */
  datatype Run = Run(bus: Bus, raised: Option<Fault>)

  /** One statement `ds[key] = expr` of a cycle: when the cycle has already
      raised, nothing happens; when `expr` raises, the cycle raises here;
      otherwise the value is written. */
  function Then(r: Run, t: Target, key: Path, v: Result<Value>): Run
  {
    if r.raised.Some? then r
    else match v
      case Err(f) => Run(r.bus, Some(f))
      case Ok(x) => Run(r.bus.Set(t, key, x), None)
  }

  /** A statement `ds[key] = expr` on the registry `t`, with the value or
      the fault its right-hand side evaluates to. */
  datatype Write = Write(t: Target, key: Path, v: Result<Value>)

  /** The registry `t` of a bus. */
  function StoreOf(b: Bus, t: Target): Store
  {
    match t
    case Primary => b.primary
    case Temp => b.temp
  }

  /** A straight-line sequence of statements, run in order. */
  function Exec(r: Run, ws: seq<Write>): Run
    decreases |ws|
  {
    if ws == [] then r
    else Exec(Then(r, ws[0].t, ws[0].key, ws[0].v), ws[1..])
  }

  /** No statement of `ws` writes the path `p` of the registry `t`. */
  predicate Untouched(ws: seq<Write>, t: Target, p: Path)
  {
    forall i | 0 <= i < |ws| :: ws[i].t != t || ws[i].key != p
  }

  /** Two stores agree at `p`: both lack it, or both hold the same value. */
  predicate SameAt(a: Store, b: Store, p: Path)
  {
    (p in a <==> p in b) && (p in a ==> a[p] == b[p])
  }

  /** A run that has already raised is left as it is. */
  lemma {:induction false} ExecAfterFault(r: Run, ws: seq<Write>)
    requires r.raised.Some?
    ensures Exec(r, ws) == r
    decreases |ws|
  {
    if ws != [] {
      ExecAfterFault(Then(r, ws[0].t, ws[0].key, ws[0].v), ws[1..]);
    }
  }

  /** A sequence completes exactly when it starts without a fault and every
      right-hand side evaluates; the fault raised is the first one. */
  lemma {:induction false} ExecCompletes(r: Run, ws: seq<Write>)
    ensures Exec(r, ws).raised.None? <==>
      r.raised.None? && forall i | 0 <= i < |ws| :: ws[i].v.Ok?
    ensures r.raised.None? && (exists i | 0 <= i < |ws| :: ws[i].v.Err?) ==>
      exists i | 0 <= i < |ws| ::
        ws[i].v.Err? && Exec(r, ws).raised == Some(ws[i].v.fault)
        && forall j | 0 <= j < i :: ws[j].v.Ok?
    decreases |ws|
  {
    if ws == [] {
    } else {
      var r1 := Then(r, ws[0].t, ws[0].key, ws[0].v);
      ExecCompletes(r1, ws[1..]);
      if r.raised.Some? {
        ExecAfterFault(r, ws);
      } else if ws[0].v.Err? {
        ExecAfterFault(r1, ws[1..]);
      } else {
        assert forall i | 1 <= i < |ws| :: ws[i].v == ws[1..][i - 1].v;
        if exists i | 0 <= i < |ws| :: ws[i].v.Err? {
          var k :| 0 <= k < |ws[1..]| && ws[1..][k].v.Err?
            && Exec(r1, ws[1..]).raised == Some(ws[1..][k].v.fault)
            && forall j | 0 <= j < k :: ws[1..][j].v.Ok?;
          assert ws[k + 1] == ws[1..][k];
          assert forall j | 1 <= j < k + 1 :: ws[j] == ws[1..][j - 1];
        }
      }
    }
  }

  /** Running a sequence is running its prefix, then the rest. */
  lemma {:induction false} ExecSplit(r: Run, ws: seq<Write>, k: nat)
    requires k <= |ws|
    ensures Exec(r, ws) == Exec(Exec(r, ws[..k]), ws[k..])
    decreases |ws|
  {
    if k == 0 {
      assert ws[..0] == [] && ws[0..] == ws;
    } else {
      var r1 := Then(r, ws[0].t, ws[0].key, ws[0].v);
      ExecSplit(r1, ws[1..], k - 1);
      assert ws[..k][0] == ws[0] && ws[..k][1..] == ws[1..][..k - 1];
      assert ws[1..][k - 1..] == ws[k..];
    }
  }

  /** Paths no statement writes keep their values. */
  lemma {:induction false} ExecFrame(r: Run, ws: seq<Write>, t: Target, p: Path)
    requires Untouched(ws, t, p)
    ensures SameAt(StoreOf(Exec(r, ws).bus, t), StoreOf(r.bus, t), p)
    decreases |ws|
  {
    if ws != [] {
      var r1 := Then(r, ws[0].t, ws[0].key, ws[0].v);
      assert Untouched(ws[1..], t, p) by {
        forall i | 0 <= i < |ws[1..]| ensures ws[1..][i].t != t || ws[1..][i].key != p {
          assert ws[1..][i] == ws[i + 1];
        }
      }
      ExecFrame(r1, ws[1..], t, p);
      assert ws[0].t != t || ws[0].key != p;
    }
  }

  /** A registry no statement targets is left as it is. */
  lemma {:induction false} ExecOtherTarget(r: Run, ws: seq<Write>, t: Target)
    requires forall i | 0 <= i < |ws| :: ws[i].t != t
    ensures StoreOf(Exec(r, ws).bus, t) == StoreOf(r.bus, t)
    decreases |ws|
  {
    if ws != [] {
      assert forall i | 0 <= i < |ws[1..]| :: ws[1..][i] == ws[i + 1];
      ExecOtherTarget(Then(r, ws[0].t, ws[0].key, ws[0].v), ws[1..], t);
    }
  }

  /** A path that every statement writes with the same value `v` either
      keeps its value or ends up holding `v`. */
  lemma {:induction false} ExecWritesOnly(r: Run, ws: seq<Write>, t: Target, p: Path, v: Value)
    requires forall i | 0 <= i < |ws| ::
      ws[i].t == t && ws[i].key == p && ws[i].v.Ok? ==> ws[i].v.value == v
    ensures var s := StoreOf(Exec(r, ws).bus, t);
      SameAt(s, StoreOf(r.bus, t), p) || (p in s && s[p] == v)
    decreases |ws|
  {
    if ws != [] {
      var r1 := Then(r, ws[0].t, ws[0].key, ws[0].v);
      assert forall i | 0 <= i < |ws[1..]| :: ws[1..][i] == ws[i + 1];
      ExecWritesOnly(r1, ws[1..], t, p, v);
    }
  }

  /** No statement after position `i` writes `p`. */
  lemma UntouchedAfter(ws: seq<Write>, i: nat, t: Target, p: Path)
    requires i < |ws|
    requires forall k | i < k < |ws| :: ws[k].t != t || ws[k].key != p
    ensures Untouched(ws[i + 1..], t, p)
  {
    var rest := ws[i + 1..];
    forall k | 0 <= k < |rest|
      ensures rest[k].t != t || rest[k].key != p
    {
      assert rest[k] == ws[i + 1 + k];
    }
  }

  /** In a completed sequence, the last write to a path determines its value. */
  lemma {:induction false} ExecLastWrite(r: Run, ws: seq<Write>, i: nat)
    requires i < |ws| && Exec(r, ws).raised.None?
    requires Untouched(ws[i + 1..], ws[i].t, ws[i].key)
    ensures ws[i].v.Ok?
    ensures var s := StoreOf(Exec(r, ws).bus, ws[i].t);
      ws[i].key in s && s[ws[i].key] == ws[i].v.value
    decreases |ws|
  {
    ExecCompletes(r, ws);
    var r1 := Then(r, ws[0].t, ws[0].key, ws[0].v);
    if i == 0 {
      ExecFrame(r1, ws[1..], ws[0].t, ws[0].key);
    } else {
      assert ws[1..][i - 1] == ws[i];
      assert ws[1..][i - 1 + 1..] == ws[i + 1..];
      ExecLastWrite(r1, ws[1..], i - 1);
    }
  }

  /** Writes to registered paths keep every registry's path set. */
  lemma {:induction false} ExecRegistered(r: Run, ws: seq<Write>)
    requires Registered(r.bus)
    requires forall i | 0 <= i < |ws| ::
      if ws[i].t == Primary then OnPrimary(ws[i].key) else OnTemp(ws[i].key)
    ensures Registered(Exec(r, ws).bus)
    decreases |ws|
  {
    if ws != [] {
      var r1 := Then(r, ws[0].t, ws[0].key, ws[0].v);
      assert Registered(r1.bus);
      assert forall i | 0 <= i < |ws[1..]| :: ws[1..][i] == ws[i + 1];
      ExecRegistered(r1, ws[1..]);
    }
  }

  /** The statements `ds[keys[i]] = vs[i]`, in order. */
  function Statements(keys: seq<(Target, Path)>, vs: seq<Result<Value>>): (ws: seq<Write>)
    requires |keys| == |vs|
    ensures |ws| == |keys|
    ensures forall i | 0 <= i < |ws| :: ws[i] == Write(keys[i].0, keys[i].1, vs[i])
  {
    seq(|keys|, i requires 0 <= i < |keys| => Write(keys[i].0, keys[i].1, vs[i]))
  }

  /** No registry path occurs twice in `keys`. */
  predicate Distinct(keys: seq<(Target, Path)>)
  {
    forall i, j | 0 <= i < j < |keys| :: keys[i] != keys[j]
  }

  /** Statements to distinct paths complete exactly when every value
      evaluates, and then each path holds its value. */
  lemma StatementsPublished(r: Run, keys: seq<(Target, Path)>, vs: seq<Result<Value>>)
    requires |keys| == |vs| && Distinct(keys)
    ensures Exec(r, Statements(keys, vs)).raised.None? <==>
      r.raised.None? && forall i | 0 <= i < |vs| :: vs[i].Ok?
    ensures Exec(r, Statements(keys, vs)).raised.None? ==>
      forall i | 0 <= i < |keys| ::
        && vs[i].Ok?
        && keys[i].1 in StoreOf(Exec(r, Statements(keys, vs)).bus, keys[i].0)
        && StoreOf(Exec(r, Statements(keys, vs)).bus, keys[i].0)[keys[i].1] == vs[i].value
  {
    var ws := Statements(keys, vs);
    ExecCompletes(r, ws);
    if Exec(r, ws).raised.None? {
      forall i | 0 <= i < |keys|
        ensures keys[i].1 in StoreOf(Exec(r, ws).bus, keys[i].0)
        ensures StoreOf(Exec(r, ws).bus, keys[i].0)[keys[i].1] == vs[i].value
      {
        UntouchedAfter(ws, i, keys[i].0, keys[i].1);
        ExecLastWrite(r, ws, i);
      }
    }
  }

  /** A sequence whose first failing value is at position `k` raises that
      fault, with the bus the statements before it left. */
  lemma ExecStopsAt(r: Run, ws: seq<Write>, k: nat)
    requires k < |ws| && ws[k].v.Err?
    requires Exec(r, ws[..k]).raised.None?
    ensures Exec(r, ws) == Run(Exec(r, ws[..k]).bus, Some(ws[k].v.fault))
  {
    var rp := Exec(r, ws[..k]);
    var rf := Then(rp, ws[k].t, ws[k].key, ws[k].v);
    ExecSplit(r, ws, k);
    assert ws[k..][0] == ws[k] && ws[k..][1..] == ws[k + 1..];
    ExecAfterFault(rf, ws[k + 1..]);
  }

  /** Statements to distinct paths whose first failing value is at `k`:
      the fault is raised and the values before it are published. */
  lemma StatementsStopAt(r: Run, keys: seq<(Target, Path)>, vs: seq<Result<Value>>, k: nat)
    requires |keys| == |vs| && Distinct(keys) && r.raised.None?
    requires k < |vs| && vs[k].Err? && forall i | 0 <= i < k :: vs[i].Ok?
    ensures var e := Exec(r, Statements(keys, vs));
      && e.raised == Some(vs[k].fault)
      && (forall i | 0 <= i < k ::
            keys[i].1 in StoreOf(e.bus, keys[i].0) && StoreOf(e.bus, keys[i].0)[keys[i].1] == vs[i].value)
  {
    var ws := Statements(keys, vs);
    assert ws[..k] == Statements(keys[..k], vs[..k]);
    assert Distinct(keys[..k]);
    StatementsPublished(r, keys[..k], vs[..k]);
    ExecStopsAt(r, ws, k);
    forall i | 0 <= i < k
      ensures keys[..k][i] == keys[i] && vs[..k][i] == vs[i]
    {
    }
  }

  /** A path that is not among `keys` keeps its value. */
  lemma StatementsFrame(r: Run, keys: seq<(Target, Path)>, vs: seq<Result<Value>>, t: Target, p: Path)
    requires |keys| == |vs| && (t, p) !in keys
    ensures SameAt(StoreOf(Exec(r, Statements(keys, vs)).bus, t), StoreOf(r.bus, t), p)
  {
    var ws := Statements(keys, vs);
    assert Untouched(ws, t, p) by {
      forall i | 0 <= i < |ws| ensures ws[i].t != t || ws[i].key != p {
        assert keys[i] in keys;
      }
    }
    ExecFrame(r, ws, t, p);
  }

  /** A path that `keys` assigns only the value `v` either keeps its value
      or ends up holding `v`. */
  lemma StatementsWriteOnly(r: Run, keys: seq<(Target, Path)>, vs: seq<Result<Value>>,
                            t: Target, p: Path, v: Value)
    requires |keys| == |vs|
    requires forall i | 0 <= i < |keys| :: keys[i] == (t, p) && vs[i].Ok? ==> vs[i].value == v
    ensures var s := StoreOf(Exec(r, Statements(keys, vs)).bus, t);
      SameAt(s, StoreOf(r.bus, t), p) || (p in s && s[p] == v)
  {
    var ws := Statements(keys, vs);
    assert forall i | 0 <= i < |ws| :: ws[i].t == keys[i].0 && ws[i].key == keys[i].1 && ws[i].v == vs[i];
    ExecWritesOnly(r, ws, t, p, v);
  }

  /** Statements to registered paths keep the registries registered. */
  lemma StatementsRegistered(r: Run, keys: seq<(Target, Path)>, vs: seq<Result<Value>>)
    requires |keys| == |vs| && Registered(r.bus)
    requires forall i | 0 <= i < |keys| ::
      if keys[i].0 == Primary then OnPrimary(keys[i].1) else OnTemp(keys[i].1)
    ensures Registered(Exec(r, Statements(keys, vs)).bus)
  {
    ExecRegistered(r, Statements(keys, vs));
  }

  /** The paths the primary service creates: every path but the two that
      only the temperature service has. */
  predicate OnPrimary(p: Path)
  {
    !p.TemperatureType? && !p.Temperature?
  }

  /** The paths the temperature service creates. */
  predicate OnTemp(p: Path)
  {
    || p.DeviceInstance? || p.ProductId? || p.ProductName?
    || p.FirmwareVersion? || p.HardwareVersion? || p.Connected?
    || p.CustomName? || p.TemperatureType? || p.Temperature? || p.Status?
  }

  /** Every path of each registry is one its service created at startup,
      so no write raises KeyError. */
  predicate Registered(b: Bus)
  {
    forall p :: (p in b.primary <==> OnPrimary(p)) && (p in b.temp <==> OnTemp(p))
  }

  /** The body of the version endpoint. */
  datatype VersionInfo = VersionInfo(serial: string, firmware: string, part: string)

  /** The value the primary service gives the path `p` at startup. */
  function PrimaryStart(p: Path, instance: int, productName: string, v: VersionInfo): Value
  {
    if !Mandatory(p) then Null
    else if p.DeviceInstance? then Num(instance as real)
    else if p.ProductId? then Num(16.0)
    else if p.ProductName? then Str(productName + " - " + v.serial)
    else if p.FirmwareVersion? then Str(v.firmware)
    else if p.HardwareVersion? then Str(v.part)
    else if p.Connected? then Num(1.0)
    else Str("Tesla Charger")
  }

  /** The mandatory objects every Victron service creates, with the
      service's own name. */
  predicate Mandatory(p: Path)
  {
    || p.DeviceInstance? || p.ProductId? || p.ProductName?
    || p.FirmwareVersion? || p.HardwareVersion? || p.Connected? || p.CustomName?
  }

  /** The primary registry as the service's constructor creates it: the
      mandatory objects from the settings and the version body, and every
      other path, the control paths included, without a value yet. */
  function InitialPrimary(instance: int, productName: string, v: VersionInfo): (s: Store)
    ensures forall p :: p in s <==> OnPrimary(p)
    ensures DeviceInstance in s && s[DeviceInstance] == Num(instance as real)
    ensures ProductId in s && s[ProductId] == Num(16.0)
    ensures ProductName in s && s[ProductName] == Str(productName + " - " + v.serial)
    ensures FirmwareVersion in s && s[FirmwareVersion] == Str(v.firmware)
    ensures HardwareVersion in s && s[HardwareVersion] == Str(v.part)
    ensures Connected in s && s[Connected] == Num(1.0)
    ensures CustomName in s && s[CustomName] == Str("Tesla Charger")
    ensures forall p | OnPrimary(p) && !Mandatory(p) :: p in s && s[p] == Null
  {
    map p: Path | OnPrimary(p) :: PrimaryStart(p, instance, productName, v)
  }

  /** The value the temperature service gives the path `p` at startup. */
  function TempStart(p: Path, instance: int, name: string): Value
  {
    if p.DeviceInstance? then Num(instance as real)
    else if p.ProductName? then Str("dbus-twc3")
    else if p.Connected? then Num(1.0)
    else if p.CustomName? then Str(name)
    else if p.TemperatureType? then Num(2.0)
    else Num(0.0)
  }

  /** The temperature registry as add_temp_service creates it. */
  function InitialTemp(instance: int, name: string): (s: Store)
    ensures forall p :: p in s <==> OnTemp(p)
    ensures DeviceInstance in s && s[DeviceInstance] == Num(instance as real)
    ensures ProductId in s && s[ProductId] == Num(0.0)
    ensures ProductName in s && s[ProductName] == Str("dbus-twc3")
    ensures FirmwareVersion in s && s[FirmwareVersion] == Num(0.0)
    ensures HardwareVersion in s && s[HardwareVersion] == Num(0.0)
    ensures Connected in s && s[Connected] == Num(1.0)
    ensures CustomName in s && s[CustomName] == Str(name)
    ensures TemperatureType in s && s[TemperatureType] == Num(2.0)
    ensures Temperature in s && s[Temperature] == Num(0.0)
    ensures Status in s && s[Status] == Num(0.0)
  {
    map p: Path | OnTemp(p) :: TempStart(p, instance, name)
  }

  /** The callback on /SetCurrent and /StartStop: it performs no action
      and accepts every value a bus client writes. */
  function AcceptControlWrite(path: Path, v: Value): (accepted: bool)
    ensures (path.SetCurrent? || path.StartStop?) ==> accepted
  {
    true
  }
}
