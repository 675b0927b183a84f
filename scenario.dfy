/** A worked example of one fast cycle: three phases of 10 A at 230 V, a
    charging vehicle, 5000 Wh on the lifetime counter. */
module Scenario {
  import opened Snapshot
  import opened Registry
  import opened Vitals
  import History

  /** The vitals of the example, without the three temperature fields. */
  function ChargingVitals(): Fields
  {
    map[ "currentA_a" := JNum(10.0), "voltageA_v" := JNum(230.0),
         "currentB_a" := JNum(10.0), "voltageB_v" := JNum(230.0),
         "currentC_a" := JNum(10.0), "voltageC_v" := JNum(230.0),
         "grid_hz" := JNum(50.0), "grid_v" := JNum(230.0),
         "vehicle_current_a" := JNum(10.0), "vehicle_connected" := JBool(true),
         "session_s" := JNum(120.0) ]
  }

  function ChargingLifetime(): Fields
  {
    map["energy_wh" := JNum(5000.0)]
  }

  /** Each phase is 10 A at 230 V: 2300 W. */
  lemma ChargingPhaseValues()
    ensures PhaseValues(ChargingVitals()) == [Ok(Num(2300.0)), Ok(Num(2300.0)), Ok(Num(2300.0))]
  {
  }

  /** Connected and drawing 10 A: charging. */
  lemma ChargingStatus()
    ensures Classify(ChargingVitals()) == Ok(Charging)
  {
  }

  /** 5000 Wh on the lifetime counter: 5.000 kWh. */
  lemma ChargingEnergy()
    ensures EnergyForward(ChargingLifetime()) == Ok(Num(5.0))
  {
    assert RoundHalfEven(5.0 * Pow10(3)) == 5000;
  }

  /** The statements up to /StartStop evaluate; the MCU temperature is
      missing. */
  lemma ChargingRestValues(name: string, phases: Store)
    requires EvenPhases(phases)
    ensures var vs := RestValues(ChargingVitals(), ChargingLifetime(), name, phases);
      && vs[0] == Ok(Num(6900.0)) && vs[6] == Ok(Num(5.0)) && vs[8] == Ok(Num(2.0))
      && (forall i | 0 <= i < 11 :: vs[i].Ok?)
      && vs[11] == Err(KeyError("mcu_temp_c"))
  {
    RoundHalfEvenOfInteger(6900);
    ChargingStatus();
    ChargingEnergy();
  }

  /** A store holding 2300 W on each phase. */
  predicate EvenPhases(phases: Store)
  {
    && AcL1Power in phases && phases[AcL1Power] == Num(2300.0)
    && AcL2Power in phases && phases[AcL2Power] == Num(2300.0)
    && AcL3Power in phases && phases[AcL3Power] == Num(2300.0)
  }

  /** An update whose phase values are 2300 W each and whose remaining
      statements evaluate up to /StartStop, the next one raising. */
  lemma UpdateStopsAtMcu(r0: Run, d: Fields, lt: Fields, name: string)
    requires r0.raised.None?
    requires PhaseValues(d) == [Ok(Num(2300.0)), Ok(Num(2300.0)), Ok(Num(2300.0))]
    requires forall ph | EvenPhases(ph) ::
      var vs := RestValues(d, lt, name, ph);
      && vs[0] == Ok(Num(6900.0)) && vs[6] == Ok(Num(5.0)) && vs[8] == Ok(Num(2.0))
      && (forall i | 0 <= i < 11 :: vs[i].Ok?)
      && vs[11] == Err(KeyError("mcu_temp_c"))
    ensures var r := UpdateWrites(r0, d, lt, name);
      && r.raised == Some(KeyError("mcu_temp_c"))
      && EvenPhases(r.bus.primary)
      && AcPower in r.bus.primary && r.bus.primary[AcPower] == Num(6900.0)
      && Status in r.bus.primary && r.bus.primary[Status] == Num(2.0)
      && AcEnergyForward in r.bus.primary && r.bus.primary[AcEnergyForward] == Num(5.0)
  {
    var pv := PhaseValues(d);
    PhaseTargetsDistinct();
    StatementsPublished(r0, PhaseTargets, pv);
    var r3 := Exec(r0, Statements(PhaseTargets, pv));
    assert PhaseTargets[0].1 == AcL1Power && PhaseTargets[1].1 == AcL2Power && PhaseTargets[2].1 == AcL3Power;
    assert EvenPhases(r3.bus.primary);
    var vs := RestValues(d, lt, name, r3.bus.primary);
    StopsAtMcu(r0, pv, vs);
  }

  /** The tables when the rest evaluates up to /StartStop and the next
      value raises, whatever the values. */
  lemma StopsAtMcu(r0: Run, pv: seq<Result<Value>>, vs: seq<Result<Value>>)
    requires |pv| == |PhaseTargets| && |vs| == |RestTargets| && r0.raised.None?
    requires forall i | 0 <= i < |pv| :: pv[i].Ok?
    requires (forall i | 0 <= i < 11 :: vs[i].Ok?) && vs[11].Err?
    ensures var r := TwoTables(r0, pv, vs);
      && r.raised == Some(vs[11].fault)
      && AcL1Power in r.bus.primary && r.bus.primary[AcL1Power] == pv[0].value
      && AcL2Power in r.bus.primary && r.bus.primary[AcL2Power] == pv[1].value
      && AcL3Power in r.bus.primary && r.bus.primary[AcL3Power] == pv[2].value
      && AcPower in r.bus.primary && r.bus.primary[AcPower] == vs[0].value
      && AcEnergyForward in r.bus.primary && r.bus.primary[AcEnergyForward] == vs[6].value
      && Status in r.bus.primary && r.bus.primary[Status] == vs[8].value
  {
    TwoTablesStopsAt(r0, pv, vs, 11);
    TargetNames();
  }

  /** The example exactly as listed, without temperature fields: the cycle
      publishes 2300 W per phase, 6900 W in total, the charging status and
      5.000 kWh, then raises KeyError at `d['mcu_temp_c']` — so the fast
      cycle counts it as a failure. */
  lemma ChargingCycleWithoutTemperatures(bus: Bus, name: string)
    ensures var r := UpdateWrites(Run(bus, None), ChargingVitals(), ChargingLifetime(), name);
      && r.raised == Some(KeyError("mcu_temp_c"))
      && EvenPhases(r.bus.primary)
      && AcPower in r.bus.primary && r.bus.primary[AcPower] == Num(6900.0)
      && Status in r.bus.primary && r.bus.primary[Status] == Num(2.0)
      && AcEnergyForward in r.bus.primary && r.bus.primary[AcEnergyForward] == Num(5.0)
  {
    ChargingPhaseValues();
    forall ph | EvenPhases(ph)
      ensures var vs := RestValues(ChargingVitals(), ChargingLifetime(), name, ph);
        && vs[0] == Ok(Num(6900.0)) && vs[6] == Ok(Num(5.0)) && vs[8] == Ok(Num(2.0))
        && (forall i | 0 <= i < 11 :: vs[i].Ok?)
        && vs[11] == Err(KeyError("mcu_temp_c"))
    {
      ChargingRestValues(name, ph);
    }
    UpdateStopsAtMcu(Run(bus, None), ChargingVitals(), ChargingLifetime(), name);
  }

  /** The whole `_update` on the example: its lifetime snapshot holds only
      the energy counter, so the history refresh at its start raises
      KeyError at `lt['charge_starts']` before anything is written. */
  lemma ChargingCycleWithSparseLifetime(bus: Bus, name: string, body: Result<string>,
                                        parse: string -> Option<Fields>)
    requires History.LifetimeFields(body, parse) == Ok(ChargingLifetime())
    ensures UpdateEffect(bus, name, Ok(ChargingVitals()), body, parse) == Run(bus, Some(KeyError("charge_starts")))
  {
    var lt := ChargingLifetime();
    var r0 := Run(bus, None);
    var lead := History.CounterWrites(lt, History.LeadingCounters);
    assert lead[0].v == Err(KeyError("charge_starts"));
    assert lead[..0] == [];
    ExecStopsAt(r0, lead, 0);
    var r1 := Exec(r0, lead);
    ExecAfterFault(r1, History.AverageStartupWrites(lt));
    ExecAfterFault(r1, History.CounterWrites(lt, History.TrailingCounters));
    UpdateWritesRegistered(r1, ChargingVitals(), lt, name);
  }
}
