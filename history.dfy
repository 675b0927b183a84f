/** The lifetime (history) snapshot: the lifetime endpoint body is repaired
    by replacing every `nan` with `null` before decoding, and the nine
    cumulative counters are published under the /History paths. The average
    startup temperature is published only when its value is truthy. */
module History {
  import opened Snapshot
  import opened Registry

  /** `pat` occurs in `s` at position `i`. */
  predicate OccursAt(s: string, pat: string, i: nat)
  {
    i + |pat| <= |s| && s[i..i + |pat|] == pat
  }

  ghost predicate Contains(s: string, pat: string)
  {
    exists i: nat :: OccursAt(s, pat, i)
  }

  /** Python's `s.replace(pat, rep)`: scanning from the left, every
      occurrence of `pat` that does not overlap an earlier one is replaced. */
  function ReplaceAll(s: string, pat: string, rep: string): string
    requires pat != []
    decreases |s|
  {
    if |s| < |pat| then s
    else if s[..|pat|] == pat then rep + ReplaceAll(s[|pat|..], pat, rep)
    else [s[0]] + ReplaceAll(s[1..], pat, rep)
  }

  /** The repair applied to the lifetime body before decoding it. */
  function ReplaceNan(body: string): string
  {
    ReplaceAll(body, "nan", "null")
  }

  lemma {:induction false} ReplaceAbsent(s: string, pat: string, rep: string)
    requires pat != [] && !Contains(s, pat)
    ensures ReplaceAll(s, pat, rep) == s
    decreases |s|
  {
    if |s| >= |pat| {
      assert !OccursAt(s, pat, 0);
      forall i: nat | OccursAt(s[1..], pat, i) ensures OccursAt(s, pat, i + 1) {
        assert s[i + 1..i + 1 + |pat|] == s[1..][i..i + |pat|];
      }
      ReplaceAbsent(s[1..], pat, rep);
      assert s == [s[0]] + s[1..];
    }
  }

  lemma {:induction false} ReplaceLonger(s: string, pat: string, rep: string)
    requires pat != [] && |rep| >= |pat|
    ensures |ReplaceAll(s, pat, rep)| >= |s|
    ensures Contains(s, pat) && |rep| > |pat| ==> |ReplaceAll(s, pat, rep)| > |s|
    decreases |s|
  {
    if |s| < |pat| {
      forall i: nat ensures !OccursAt(s, pat, i) {
      }
    } else if s[..|pat|] == pat {
      ReplaceLonger(s[|pat|..], pat, rep);
    } else {
      ReplaceLonger(s[1..], pat, rep);
      if Contains(s, pat) {
        var i: nat :| OccursAt(s, pat, i);
        assert i != 0;
        assert s[1..][i - 1..i - 1 + |pat|] == s[i..i + |pat|];
        assert OccursAt(s[1..], pat, i - 1);
      }
    }
  }

  /** The repair changes the body exactly when the body contains `nan`. */
  lemma ReplaceNanIdentityIff(body: string)
    ensures ReplaceNan(body) == body <==> !Contains(body, "nan")
  {
    if Contains(body, "nan") {
      ReplaceLonger(body, "nan", "null");
    } else {
      ReplaceAbsent(body, "nan", "null");
    }
  }

  /** The repaired text starts with the same character as the original,
      and with the same two when the original starts with `a`. */
  lemma {:induction false} ReplaceNanHead(u: string)
    requires |u| > 0
    ensures |ReplaceNan(u)| > 0 && ReplaceNan(u)[0] == u[0]
    ensures |u| > 1 && u[0] == 'a' ==> |ReplaceNan(u)| > 1 && ReplaceNan(u)[1] == u[1]
  {
    if |u| >= 3 && u[..3] == "nan" {
      assert u[0] == 'n';
    } else if |u| >= 3 {
      if |u| > 1 && u[0] == 'a' {
        ReplaceNanHead(u[1..]);
      }
    } else if |u| == 2 && u[0] == 'a' {
      assert ReplaceNan(u) == u;
    }
  }

  /** No `nan` is left after the repair: every occurrence was replaced, and
      no `nan` arises where a `null` meets its neighbours. */
  lemma {:induction false} ReplaceNanLeavesNone(s: string)
    ensures !Contains(ReplaceNan(s), "nan")
    decreases |s|
  {
    var r := ReplaceNan(s);
    if |s| < 3 {
      forall i: nat ensures !OccursAt(r, "nan", i) {
      }
    } else if s[..3] == "nan" {
      var t := ReplaceNan(s[3..]);
      ReplaceNanLeavesNone(s[3..]);
      assert r == "null" + t;
      forall i: nat | i + 3 <= |r| ensures !OccursAt(r, "nan", i) {
        if i >= 4 {
          assert r[i..i + 3] == t[i - 4..i - 1];
          assert !OccursAt(t, "nan", i - 4);
        } else {
          assert r[i..i + 3][1] == r[i + 1];
          assert r[i + 1] != 'a' || r[i..i + 3][0] != 'n';
        }
      }
    } else {
      var t := ReplaceNan(s[1..]);
      ReplaceNanLeavesNone(s[1..]);
      assert r == [s[0]] + t;
      forall i: nat | i + 3 <= |r| ensures !OccursAt(r, "nan", i) {
        if i >= 1 {
          assert r[i..i + 3] == t[i - 1..i + 2];
          assert !OccursAt(t, "nan", i - 1);
        } else {
          ReplaceNanHead(s[1..]);
          assert r[0] == s[0] && r[1] == s[1];
          if s[0] == 'n' && s[1] == 'a' {
            assert s[2] != 'n' by {
              assert s[..3] == [s[0], s[1], s[2]];
            }
            assert r[2] == s[2];
          }
          assert r[..3] == [r[0], r[1], r[2]];
        }
      }
    }
  }

  /** Text without an `n` passes through the repair unchanged, whatever
      follows it. */
  lemma {:induction false} ReplaceNanKeeps(p: string, u: string)
    requires 'n' !in p
    ensures ReplaceNan(p + u) == p + ReplaceNan(u)
    decreases |p|
  {
    if p != [] {
      var s := p + u;
      assert s[0] == p[0] && p[0] != 'n';
      ReplaceNanKeeps(p[1..], u);
      assert s[1..] == p[1..] + u;
      if |s| >= 3 {
        assert s[..3][0] == s[0];
        assert ReplaceNan(s) == [s[0]] + ReplaceNan(s[1..]);
        assert [s[0]] + (p[1..] + ReplaceNan(u)) == p + ReplaceNan(u);
      } else {
        assert ReplaceNan(s) == s && ReplaceNan(u) == u;
      }
      assert p == [p[0]] + p[1..];
    } else {
      assert p + u == u;
    }
  }

  /** An example body with a NaN in it, as the device sends it. */
  lemma ReplaceNanExample()
    ensures ReplaceNan("{\"t\":nan}") == "{\"t\":null}"
  {
    var head, tail := "{\"t\":", "nan}";
    assert head + tail == "{\"t\":nan}";
    ReplaceNanKeeps(head, tail);
    assert tail[..3] == "nan" && tail[3..] == "}";
    assert ReplaceNan(tail) == "null" + ReplaceNan("}");
    assert head + "null}" == "{\"t\":null}";
  }

  /** The lifetime fetch: the body is repaired, then decoded by `parse`
      (the JSON decoder; None when the text is not JSON). */
  function LifetimeFields(body: Result<string>, parse: string -> Option<Fields>): Result<Fields>
  {
    match body
    case Err(f) => Err(f)
    case Ok(text) =>
      match parse(ReplaceNan(text))
      case None => Err(DecodeError)
      case Some(lt) => Ok(lt)
  }

  /** The counters published as `int(lt[field])`, as (path, field) pairs in
      the order they are written: six before the average startup
      temperature, two after it. */
  const LeadingCounters: seq<(Path, string)> :=
    [ (HistoryChargingCycles, "charge_starts"),
      (HistoryConnectorCycles, "connector_cycles"),
      (HistoryEnergyForward, "energy_wh"),
      (HistoryUptime, "uptime_s"),
      (HistoryChargingTime, "charging_time_s"),
      (HistoryAlerts, "alert_count") ]

  const TrailingCounters: seq<(Path, string)> :=
    [ (HistoryAbortedChargingCycles, "contactor_cycles_loaded"),
      (HistoryThermalFoldbacks, "thermal_foldbacks") ]

  /** `ds[path] = int(lt[field])` for each pair, in order. */
  function CounterWrites(lt: Fields, cs: seq<(Path, string)>): seq<Write>
  {
    seq(|cs|, i requires 0 <= i < |cs| => Write(Primary, cs[i].0, IntAsNum(IntField(lt, cs[i].1))))
  }

  /** `if lt['avg_startup_temp']: ds[...] = int(lt['avg_startup_temp'])`:
      one write when the value is truthy, none when it is not; when the field
      is missing the condition itself raises KeyError, which is a statement
      that raises before writing. */
  function AverageStartupWrites(lt: Fields): seq<Write>
  {
    match Lookup(lt, "avg_startup_temp")
    case Err(f) => [Write(Primary, HistoryAverageStartupTemperature, Err(f))]
    case Ok(j) =>
      if Truthy(j)
      then [Write(Primary, HistoryAverageStartupTemperature, IntAsNum(IntField(lt, "avg_startup_temp")))]
      else []
  }

  /** The registry writes of the lifetime cycle after the decode, in order. */
  function HistoryWrites(r0: Run, lt: Fields): Run
  {
    var r1 := Exec(r0, CounterWrites(lt, LeadingCounters));
    var r2 := Exec(r1, AverageStartupWrites(lt));
    Exec(r2, CounterWrites(lt, TrailingCounters))
  }

  /** The whole lifetime cycle on the bus: fetch, repair, decode, publish. */
  function LifetimeEffect(bus: Bus, body: Result<string>, parse: string -> Option<Fields>): Run
  {
    match LifetimeFields(body, parse)
    case Err(f) => Run(bus, Some(f))
    case Ok(lt) => HistoryWrites(Run(bus, None), lt)
  }

  /** Every counter of `cs` converts. */
  predicate CountersConvert(lt: Fields, cs: seq<(Path, string)>)
  {
    forall i | 0 <= i < |cs| :: IntField(lt, cs[i].1).Ok?
  }

  /** Every counter converts and the average startup temperature's field is
      present. */
  predicate HistoryComplete(lt: Fields)
  {
    && CountersConvert(lt, LeadingCounters)
    && "avg_startup_temp" in lt
    && CountersConvert(lt, TrailingCounters)
  }

  /** The history paths. */
  predicate IsHistory(p: Path)
  {
    || p.HistoryChargingCycles? || p.HistoryConnectorCycles? || p.HistoryEnergyForward?
    || p.HistoryUptime? || p.HistoryChargingTime? || p.HistoryAlerts?
    || p.HistoryAverageStartupTemperature? || p.HistoryAbortedChargingCycles?
    || p.HistoryThermalFoldbacks?
  }

  /** Every path of `cs` is a history path, and no path occurs twice. */
  predicate CounterTable(cs: seq<(Path, string)>)
  {
    && (forall i | 0 <= i < |cs| :: IsHistory(cs[i].0) && !cs[i].0.HistoryAverageStartupTemperature?)
    && (forall i, j | 0 <= i < j < |cs| :: cs[i].0 != cs[j].0)
  }

  lemma CounterTables()
    ensures CounterTable(LeadingCounters) && CounterTable(TrailingCounters)
  {
  }

  /** Counter writes touch only the paths of their table, on the primary
      registry. */
  lemma CounterWritesFrame(r: Run, lt: Fields, cs: seq<(Path, string)>, t: Target, p: Path)
    requires t == Temp || forall i | 0 <= i < |cs| :: cs[i].0 != p
    ensures SameAt(StoreOf(Exec(r, CounterWrites(lt, cs)).bus, t), StoreOf(r.bus, t), p)
  {
    ExecFrame(r, CounterWrites(lt, cs), t, p);
  }

  /** Counter writes complete exactly when every counter converts; then each
      path holds int() of its field. */
  lemma CounterWritesPublished(r: Run, lt: Fields, cs: seq<(Path, string)>)
    requires CounterTable(cs)
    ensures Exec(r, CounterWrites(lt, cs)).raised.None? <==> r.raised.None? && CountersConvert(lt, cs)
    ensures Exec(r, CounterWrites(lt, cs)).raised.None? ==>
      var s := Exec(r, CounterWrites(lt, cs)).bus.primary;
      forall i | 0 <= i < |cs| ::
        && IntField(lt, cs[i].1).Ok?
        && cs[i].0 in s && s[cs[i].0] == Num(IntField(lt, cs[i].1).value as real)
  {
    var ws := CounterWrites(lt, cs);
    assert forall i | 0 <= i < |ws| :: ws[i].v.Ok? <==> IntField(lt, cs[i].1).Ok?;
    ExecCompletes(r, ws);
    if Exec(r, ws).raised.None? {
      forall i | 0 <= i < |cs|
        ensures var s := Exec(r, ws).bus.primary;
          && IntField(lt, cs[i].1).Ok?
          && cs[i].0 in s && s[cs[i].0] == Num(IntField(lt, cs[i].1).value as real)
      {
        UntouchedAfter(ws, i, Primary, cs[i].0);
        ExecLastWrite(r, ws, i);
      }
    }
  }

  /** The history writes complete exactly when every counter they convert is
      present and numeric; a missing field raises KeyError, a null (a NaN
      after the repair) raises TypeError — except in the average startup
      temperature, where null is simply not published. */
  lemma HistoryRaisesIff(bus: Bus, lt: Fields)
    ensures HistoryWrites(Run(bus, None), lt).raised.None? <==> HistoryComplete(lt)
  {
    var r1 := Exec(Run(bus, None), CounterWrites(lt, LeadingCounters));
    var avg := AverageStartupWrites(lt);
    var r2 := Exec(r1, avg);
    CounterTables();
    CounterWritesPublished(Run(bus, None), lt, LeadingCounters);
    ExecCompletes(r1, avg);
    CounterWritesPublished(r2, lt, TrailingCounters);
    if "avg_startup_temp" !in lt {
      assert avg[0].v.Err?;
    }
  }

  /** After complete history writes every counter holds int() of its field:
      the leading six, whose values the later writes leave alone, ... */
  lemma LeadingCountersPublished(bus: Bus, lt: Fields)
    requires HistoryComplete(lt)
    ensures var s := HistoryWrites(Run(bus, None), lt).bus.primary;
      forall i | 0 <= i < |LeadingCounters| ::
        && IntField(lt, LeadingCounters[i].1).Ok?
        && LeadingCounters[i].0 in s
        && s[LeadingCounters[i].0] == Num(IntField(lt, LeadingCounters[i].1).value as real)
  {
    var r := Run(bus, None);
    var r1 := Exec(r, CounterWrites(lt, LeadingCounters));
    var r2 := Exec(r1, AverageStartupWrites(lt));
    HistoryRaisesIff(bus, lt);
    CounterTables();
    CounterWritesPublished(r, lt, LeadingCounters);
    forall i | 0 <= i < |LeadingCounters|
      ensures SameAt(HistoryWrites(r, lt).bus.primary, r1.bus.primary, LeadingCounters[i].0)
    {
      var p := LeadingCounters[i].0;
      ExecFrame(r1, AverageStartupWrites(lt), Primary, p);
      CounterWritesFrame(r2, lt, TrailingCounters, Primary, p);
    }
  }

  /** ... and the trailing two. */
  lemma TrailingCountersPublished(bus: Bus, lt: Fields)
    requires HistoryComplete(lt)
    ensures var s := HistoryWrites(Run(bus, None), lt).bus.primary;
      forall i | 0 <= i < |TrailingCounters| ::
        && IntField(lt, TrailingCounters[i].1).Ok?
        && TrailingCounters[i].0 in s
        && s[TrailingCounters[i].0] == Num(IntField(lt, TrailingCounters[i].1).value as real)
  {
    var r1 := Exec(Run(bus, None), CounterWrites(lt, LeadingCounters));
    var r2 := Exec(r1, AverageStartupWrites(lt));
    HistoryRaisesIff(bus, lt);
    CounterTables();
    CounterWritesPublished(r2, lt, TrailingCounters);
  }

  /** Once the six leading counters convert, a truthy average startup
      temperature is published truncated, whether or not a trailing counter
      raises afterwards. */
  lemma AverageStartupTemperaturePublished(bus: Bus, lt: Fields)
    requires CountersConvert(lt, LeadingCounters)
    requires "avg_startup_temp" in lt && Truthy(lt["avg_startup_temp"])
    ensures var s := HistoryWrites(Run(bus, None), lt).bus.primary;
      && FloatField(lt, "avg_startup_temp").Ok?
      && HistoryAverageStartupTemperature in s
      && s[HistoryAverageStartupTemperature] == Num(Trunc(FloatField(lt, "avg_startup_temp").value) as real)
  {
    var r := Run(bus, None);
    var r1 := Exec(r, CounterWrites(lt, LeadingCounters));
    var avg := AverageStartupWrites(lt);
    var r2 := Exec(r1, avg);
    CounterTables();
    CounterWritesPublished(r, lt, LeadingCounters);
    assert avg == [Write(Primary, HistoryAverageStartupTemperature, IntAsNum(IntField(lt, "avg_startup_temp")))];
    ExecCompletes(r1, avg);
    ExecLastWrite(r1, avg, 0);
    CounterWritesFrame(r2, lt, TrailingCounters, Primary, HistoryAverageStartupTemperature);
  }

  /** A zero, False or null average startup temperature is not published:
      the path keeps its previous value, whatever the other counters hold. */
  lemma AverageStartupTemperatureQuirk(bus: Bus, lt: Fields)
    requires "avg_startup_temp" in lt && !Truthy(lt["avg_startup_temp"])
    ensures SameAt(HistoryWrites(Run(bus, None), lt).bus.primary, bus.primary, HistoryAverageStartupTemperature)
  {
    var r := Run(bus, None);
    var r1 := Exec(r, CounterWrites(lt, LeadingCounters));
    var avg := AverageStartupWrites(lt);
    var r2 := Exec(r1, avg);
    CounterTables();
    CounterWritesFrame(r, lt, LeadingCounters, Primary, HistoryAverageStartupTemperature);
    assert avg == [];
    CounterWritesFrame(r2, lt, TrailingCounters, Primary, HistoryAverageStartupTemperature);
  }

  /** The history writes touch only history paths of the primary registry,
      whether or not they complete. */
  lemma HistoryFrame(r: Run, lt: Fields)
    ensures var b := HistoryWrites(r, lt).bus;
      && b.temp == r.bus.temp
      && (forall p | !IsHistory(p) :: SameAt(b.primary, r.bus.primary, p))
  {
    var lead, avg, trail := CounterWrites(lt, LeadingCounters), AverageStartupWrites(lt), CounterWrites(lt, TrailingCounters);
    var r1 := Exec(r, lead);
    var r2 := Exec(r1, avg);
    CounterTables();
    ExecOtherTarget(r, lead, Temp);
    ExecOtherTarget(r1, avg, Temp);
    ExecOtherTarget(r2, trail, Temp);
    forall p | !IsHistory(p)
      ensures SameAt(HistoryWrites(r, lt).bus.primary, r.bus.primary, p)
    {
      CounterWritesFrame(r, lt, LeadingCounters, Primary, p);
      ExecFrame(r1, avg, Primary, p);
      CounterWritesFrame(r2, lt, TrailingCounters, Primary, p);
    }
  }

  /** So the history writes keep the registries registered. */
  lemma HistoryRegistered(r: Run, lt: Fields)
    requires Registered(r.bus)
    ensures Registered(HistoryWrites(r, lt).bus)
  {
    var lead, avg, trail := CounterWrites(lt, LeadingCounters), AverageStartupWrites(lt), CounterWrites(lt, TrailingCounters);
    var r1 := Exec(r, lead);
    var r2 := Exec(r1, avg);
    CounterTables();
    ExecRegistered(r, lead);
    ExecRegistered(r1, avg);
    ExecRegistered(r2, trail);
  }

  /** The lifetime cycle, repaired body included, touches only history paths. */
  lemma LifetimeFrame(bus: Bus, body: Result<string>, parse: string -> Option<Fields>)
    ensures var b := LifetimeEffect(bus, body, parse).bus;
      && b.temp == bus.temp
      && (forall p | !IsHistory(p) :: SameAt(b.primary, bus.primary, p))
      && (Registered(bus) ==> Registered(b))
  {
    if LifetimeFields(body, parse).Ok? {
      HistoryFrame(Run(bus, None), LifetimeFields(body, parse).value);
      if Registered(bus) {
        HistoryRegistered(Run(bus, None), LifetimeFields(body, parse).value);
      }
    }
  }
}
