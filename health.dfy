/** Connection health (`_safe_update`): a retry counter that is zero while
    the charger answers. The first failing fast cycle marks the charger
    disconnected and puts an error label and a temperature of -1 on the
    temperature service; later failures only count; the next successful
    cycle marks the charger connected again and clears the counter. The
    slow cycle (`_lifetime_update`) refreshes the history and leaves the
    health alone. */
module Health {
  import opened Snapshot
  import opened Registry
  import Vitals
  import History

  /** The bridge's state between cycles: both registries and `_retries`. */
  datatype Station = Station(bus: Bus, retries: nat)

  /** `_safe_update` once `_update` has run to `r`. */
  function AfterUpdate(s: Station, name: string, r: Run): Station
  {
    if r.raised.None? then
      Station(if s.retries > 0 then r.bus.Set(Primary, Connected, Num(1.0)) else r.bus, 0)
    else
      var marked := r.bus.Set(Primary, Connected, Num(0.0))
                         .Set(Temp, CustomName, Str(name + " Error"))
                         .Set(Temp, Temperature, Num(-1.0));
      Station(if s.retries == 0 then marked else r.bus, s.retries + 1)
  }

  /** One fast cycle: `_update` on the fetched vitals and lifetime body,
      then the health bookkeeping. */
  function FastCycle(s: Station, name: string, vitals: Result<Fields>,
                     body: Result<string>, parse: string -> Option<Fields>): Station
  {
    AfterUpdate(s, name, Vitals.UpdateEffect(s.bus, name, vitals, body, parse))
  }

  /** Whether the fast cycle raises (and its exception is swallowed). */
  predicate Fails(s: Station, name: string, vitals: Result<Fields>,
                  body: Result<string>, parse: string -> Option<Fields>)
  {
    Vitals.UpdateEffect(s.bus, name, vitals, body, parse).raised.Some?
  }

  /** One slow cycle: `_lifetime` with its exception swallowed. */
  function SlowCycle(s: Station, body: Result<string>, parse: string -> Option<Fields>): Station
  {
    Station(History.LifetimeEffect(s.bus, body, parse).bus, s.retries)
  }

  /** The health invariant: /Connected is 1 exactly while the counter is
      zero, and while it is not, the temperature service shows -1 under the
      error label (or the handle label, written by a failing cycle that got
      that far). */
  predicate Healthy(s: Station, name: string)
  {
    && Registered(s.bus)
    && Connected in s.bus.primary
    && s.bus.primary[Connected] == (if s.retries == 0 then Num(1.0) else Num(0.0))
    && (s.retries > 0 ==>
          && Temperature in s.bus.temp && s.bus.temp[Temperature] == Num(-1.0)
          && CustomName in s.bus.temp
          && (s.bus.temp[CustomName] == Str(name + " Error")
              || s.bus.temp[CustomName] == Str(name + " Handle")))
  }

  /** The first failure after a success writes /Connected := 0 on the
      charger, the error label and -1 on the temperature service, sets the
      counter to one, and changes no other path. */
  lemma FirstFailure(s: Station, name: string, r: Run)
    requires r.raised.Some? && s.retries == 0
    ensures var s' := AfterUpdate(s, name, r);
      && s'.retries == 1
      && Connected in s'.bus.primary && s'.bus.primary[Connected] == Num(0.0)
      && CustomName in s'.bus.temp && s'.bus.temp[CustomName] == Str(name + " Error")
      && Temperature in s'.bus.temp && s'.bus.temp[Temperature] == Num(-1.0)
      && (forall p: Path | p != Connected :: SameAt(s'.bus.primary, r.bus.primary, p))
      && (forall p: Path | p != CustomName && p != Temperature :: SameAt(s'.bus.temp, r.bus.temp, p))
  {
  }

  /** A later failure writes nothing and only counts. */
  lemma RepeatedFailure(s: Station, name: string, r: Run)
    requires r.raised.Some? && s.retries > 0
    ensures AfterUpdate(s, name, r) == Station(r.bus, s.retries + 1)
  {
  }

  /** A success clears the counter; it writes /Connected := 1 only after a
      failure and otherwise leaves the registries as the update left them. */
  lemma SuccessResets(s: Station, name: string, r: Run)
    requires r.raised.None?
    ensures var s' := AfterUpdate(s, name, r);
      && s'.retries == 0
      && s'.bus.temp == r.bus.temp
      && (forall p: Path | p != Connected :: SameAt(s'.bus.primary, r.bus.primary, p))
      && (s.retries > 0 ==> Connected in s'.bus.primary && s'.bus.primary[Connected] == Num(1.0))
      && (s.retries == 0 ==> s'.bus == r.bus)
  {
  }

  /** A failing fast cycle after an earlier failure leaves /Connected and
      the displayed temperature as they were and adds one to the counter.
      The label is kept too, unless the cycle got as far as writing the
      handle label before it raised. */
  lemma RepeatedFailureKeepsHealthPaths(s: Station, name: string, vitals: Result<Fields>,
                                        body: Result<string>, parse: string -> Option<Fields>)
    requires s.retries > 0 && Fails(s, name, vitals, body, parse)
    ensures var s' := FastCycle(s, name, vitals, body, parse);
      && s'.retries == s.retries + 1
      && SameAt(s'.bus.primary, s.bus.primary, Connected)
      && SameAt(s'.bus.temp, s.bus.temp, Temperature)
      && (SameAt(s'.bus.temp, s.bus.temp, CustomName)
          || (CustomName in s'.bus.temp && s'.bus.temp[CustomName] == Str(name + " Handle")))
  {
    Vitals.UpdateEffectFrame(s.bus, name, vitals, body, parse);
  }

  /** The health paths after a fast cycle depend only on whether it failed
      and on the counter before it: /Connected reads 1 after a success and
      0 after a failure, whatever the state was. */
  lemma ConnectedReflectsLastCycle(s: Station, name: string, vitals: Result<Fields>,
                                   body: Result<string>, parse: string -> Option<Fields>)
    requires Healthy(s, name)
    ensures var s' := FastCycle(s, name, vitals, body, parse);
      && Connected in s'.bus.primary
      && (s'.bus.primary[Connected] == Num(1.0) <==> !Fails(s, name, vitals, body, parse))
      && (Fails(s, name, vitals, body, parse) ==> s'.retries == s.retries + 1)
      && (!Fails(s, name, vitals, body, parse) ==> s'.retries == 0)
  {
    FastCycleKeepsHealthy(s, name, vitals, body, parse);
  }

  /** The fast cycle keeps the health invariant. */
  lemma FastCycleKeepsHealthy(s: Station, name: string, vitals: Result<Fields>,
                              body: Result<string>, parse: string -> Option<Fields>)
    requires Healthy(s, name)
    ensures Healthy(FastCycle(s, name, vitals, body, parse), name)
  {
    Vitals.UpdateEffectFrame(s.bus, name, vitals, body, parse);
  }

  /** The slow cycle changes only history paths: it keeps the counter, the
      temperature service and /Connected, and so the health invariant. */
  lemma SlowCycleKeepsHealthy(s: Station, name: string, body: Result<string>,
                              parse: string -> Option<Fields>)
    requires Healthy(s, name)
    ensures var s' := SlowCycle(s, body, parse);
      && s'.retries == s.retries
      && s'.bus.temp == s.bus.temp
      && SameAt(s'.bus.primary, s.bus.primary, Connected)
      && Healthy(s', name)
  {
    History.LifetimeFrame(s.bus, body, parse);
  }
}
