/** Every interleaving of a Modbus device's writers: battery steps, sawtooth
    ticks, POI writes, batch writes, and function codes 6 and 16
    (mock-modbus-server/src/handler.rs, battery.rs, simulator.rs, poi.rs). Each
    writer holds the handler's mutex, so a run is a sequence of whole events. */
module ModbusHistory {
  import opened Numbers
  import opened Derate
  import opened Registers
  import opened MeterHandlers
  import opened RackEnergy
  import opened BessRack
  import opened Sawtooth

  datatype Setup = Setup(rack: Rack, channels: seq<Channel>, writable: bool)

  datatype Device = Device(holding: Registers, driven: set<u16>, charge: Charge)

  datatype Event =
    | BatteryStep(seconds: real)
    | SawTick
    | PoiWrite(bits: u32)
    | Batch(registers: Registers)
    | Single(write: Indexed)
    | Multiple(writes: seq<Indexed>)

  /** Driven addresses have registers, so a step's lookup of a driven SoC succeeds. */
  predicate Sound(d: Device) {
    d.driven <= d.holding.Keys
  }

  predicate External(e: Event) {
    e.Batch? || e.Single? || e.Multiple?
  }

  /** What an accepted external write leaves at each address it names. */
  function Accepted(s: Setup, e: Event): (r: Registers) {
    match e
    case Batch(registers) => registers
    case Single(w) => if s.writable then map[w.index := w.value] else map[]
    case Multiple(ws) => if s.writable then Written(map[], ws) else map[]
    case _ => map[]
  }

  function Poi(d: Device, bits: u32): (r: Registers) {
    PutPair(d.holding, d.driven, POI_ACTIVE_POWER, bits / U16_LIMIT, bits % U16_LIMIT)
  }

  /** One event, as the methods that perform it leave the device. */
  function Next(s: Setup, d: Device, e: Event): (r: Device)
    requires Sound(d)
  {
    match e
    case BatteryStep(seconds) =>
      Device(NextHolding(s.rack, d.charge, d.holding, d.driven, seconds), d.driven,
             NextCharge(s.rack, d.charge, d.holding, d.driven, seconds))
    case SawTick => d.(holding := Ticked(d.holding, d.driven, s.channels))
    case PoiWrite(bits) => d.(holding := Poi(d, bits))
    case Batch(registers) => d.(holding := d.holding + registers, driven := d.driven + registers.Keys)
    case Single(w) =>
      if s.writable then d.(holding := d.holding[w.index := w.value], driven := d.driven + {w.index}) else d
    case Multiple(ws) =>
      if s.writable then d.(holding := Written(d.holding, ws), driven := d.driven + Addresses(ws)) else d
  }

  /** The live objects: every event is one method call on them. */
  class Server {
    const setup: Setup
    const handler: MeterHandler
    const battery: Battery

    constructor (setup: Setup, handler: MeterHandler, battery: Battery)
      ensures this.setup == setup && this.handler == handler && this.battery == battery
    {
      this.setup := setup;
      this.handler := handler;
      this.battery := battery;
    }

    function Now(): (r: Device)
      reads handler, battery
    {
      Device(handler.holding, handler.driven, battery.Now())
    }

    method Perform(e: Event)
      requires Sound(Now()) && handler.writable == setup.writable && battery.config == setup.rack
      modifies handler`holding, handler`driven, battery
      ensures Now() == Next(setup, old(Now()), e)
    {
      match e
      case BatteryStep(seconds) => battery.Step(handler, seconds);
      case SawTick => Tick(handler, setup.channels);
      case PoiWrite(bits) => handler.WritePoiPower(bits);
      case Batch(registers) => handler.ApplyWrites(registers);
      case Single(write) => var _ := handler.WriteSingleRegister(write);
      case Multiple(writes) => var _ := handler.WriteMultipleRegisters(writes);
    }
  }

  // ----- One event -----

  lemma ExternalIs(s: Setup, d: Device, e: Event)
    requires Sound(d) && External(e)
    ensures Next(s, d, e).holding == d.holding + Accepted(s, e)
    ensures Next(s, d, e).driven == d.driven + Accepted(s, e).Keys
    ensures Next(s, d, e).charge == d.charge
  {
    if e.Multiple? {
      WrittenIs(d.holding, e.writes);
    }
  }

  /** The addresses an internal event may write. */
  function OwnWords(s: Setup, e: Event): (r: set<u16>) {
    match e
    case BatteryStep(_) => RACK_WORDS
    case SawTick => (set ch | ch in s.channels :: ch.high) + (set ch | ch in s.channels :: ch.low)
    case PoiWrite(_) => {POI_ACTIVE_POWER, POI_ACTIVE_POWER + 1}
    case _ => {}
  }

  /** Internal events drive nothing, remove nothing, and leave driven words and
      words they do not own alone. */
  lemma InternalFrame(s: Setup, d: Device, e: Event, a: u16)
    requires Sound(d) && !External(e) && (a in d.driven || a !in OwnWords(s, e))
    ensures a in Next(s, d, e).holding <==> a in d.holding
    ensures WordAt(Next(s, d, e).holding, a) == WordAt(d.holding, a)
  {
    match e
    case BatteryStep(seconds) =>
      PublishedFrame(d.holding, d.driven,
                     ReadoutOf(s.rack, NextCharge(s.rack, d.charge, d.holding, d.driven, seconds),
                               PowerNow(s.rack, d.charge, d.holding, d.driven)), a);
    case SawTick =>
      if a !in d.driven {
        forall ch | ch in s.channels
          ensures a != ch.high && a != ch.low
        {
          assert ch.high in OwnWords(s, e) && ch.low in OwnWords(s, e);
        }
      }
      TickFrame(d.holding, d.driven, s.channels, a);
    case PoiWrite(bits) =>
  }

  lemma InternalDrivesNothing(s: Setup, d: Device, e: Event)
    requires Sound(d) && !External(e)
    ensures Next(s, d, e).driven == d.driven
    ensures d.holding.Keys <= Next(s, d, e).holding.Keys
  {
    match e
    case BatteryStep(seconds) =>
      PublishedGrows(d.holding, d.driven,
                     ReadoutOf(s.rack, NextCharge(s.rack, d.charge, d.holding, d.driven, seconds),
                               PowerNow(s.rack, d.charge, d.holding, d.driven)));
    case SawTick => TickGrows(d.holding, d.driven, s.channels);
    case PoiWrite(bits) =>
  }

  /** Registers and driven addresses only grow, and driven ones stay registered. */
  lemma EventGrows(s: Setup, d: Device, e: Event)
    requires Sound(d)
    ensures Sound(Next(s, d, e))
    ensures d.driven <= Next(s, d, e).driven && d.holding.Keys <= Next(s, d, e).holding.Keys
  {
    if External(e) {
      ExternalIs(s, d, e);
    } else {
      InternalDrivesNothing(s, d, e);
    }
  }

  // ----- Runs -----

  function Run(s: Setup, d: Device, events: seq<Event>): (r: Device)
    requires Sound(d)
    ensures Sound(r)
  {
    if events == [] then d
    else
      var before := Run(s, d, events[..|events| - 1]);
      EventGrows(s, before, events[|events| - 1]);
      Next(s, before, events[|events| - 1])
  }

  lemma {:induction false} DrivenOnlyGrows(s: Setup, d: Device, events: seq<Event>, k: nat)
    requires Sound(d) && k <= |events|
    ensures Run(s, d, events[..k]).driven <= Run(s, d, events).driven
    ensures Run(s, d, events[..k]).holding.Keys <= Run(s, d, events).holding.Keys
  {
    if k == |events| {
      assert events[..k] == events;
    } else {
      var init := events[..|events| - 1];
      assert init[..k] == events[..k];
      DrivenOnlyGrows(s, d, init, k);
      EventGrows(s, Run(s, d, init), events[|events| - 1]);
    }
  }

  /** Nobody outside has written these words, and no event of the run does. */
  predicate Unwritten(s: Setup, d: Device, events: seq<Event>, words: set<u16>) {
    && (forall a | a in words :: a !in d.driven)
    && forall e, a | e in events && a in words :: a !in Accepted(s, e)
  }

  lemma UnwrittenPrefix(s: Setup, d: Device, events: seq<Event>, words: set<u16>)
    requires events != [] && Unwritten(s, d, events, words)
    ensures Unwritten(s, d, events[..|events| - 1], words)
    ensures forall a | a in words :: a !in Accepted(s, events[|events| - 1])
  {
    assert forall e | e in events[..|events| - 1] :: e in events;
    assert events[|events| - 1] in events;
  }

  /** Words are undriven after a run exactly when nobody wrote them. */
  lemma {:induction false} UnwrittenIsUndriven(s: Setup, d: Device, events: seq<Event>, words: set<u16>)
    requires Sound(d)
    ensures Unwritten(s, d, events, words) <==> forall a | a in words :: a !in Run(s, d, events).driven
  {
    if events != [] {
      var init, e := events[..|events| - 1], events[|events| - 1];
      var before := Run(s, d, init);
      UnwrittenIsUndriven(s, d, init, words);
      assert events == init + [e];
      if External(e) {
        ExternalIs(s, before, e);
      } else {
        InternalDrivesNothing(s, before, e);
      }
    }
  }

  /** The last accepted external write to an address. */
  function LastAccepted(s: Setup, events: seq<Event>, a: u16): (r: Option<u16>) {
    if events == [] then None
    else
      var last := Accepted(s, events[|events| - 1]);
      if a in last then Some(last[a]) else LastAccepted(s, events[..|events| - 1], a)
  }

  /** Over every interleaving: an address is driven if and only if an external
      write to it was accepted, and then it holds the last such value. */
  lemma {:induction false} DrivenHoldsLastAccepted(s: Setup, d: Device, events: seq<Event>, a: u16)
    requires Sound(d) && d.driven == {}
    ensures
      var r := Run(s, d, events);
      var last := LastAccepted(s, events, a);
      && (a in r.driven <==> last.Some?)
      && (last.Some? ==> a in r.holding && r.holding[a] == last.value)
  {
    if events != [] {
      var init, e := events[..|events| - 1], events[|events| - 1];
      var before := Run(s, d, init);
      DrivenHoldsLastAccepted(s, d, init, a);
      if External(e) {
        ExternalIs(s, before, e);
      } else {
        InternalDrivesNothing(s, before, e);
        if a in before.driven {
          InternalFrame(s, before, e, a);
        }
      }
    }
  }

  /** A word no internal event owns, and nobody writes, never changes. */
  lemma {:induction false} UntouchedWord(s: Setup, d: Device, events: seq<Event>, a: u16)
    requires Sound(d) && Unwritten(s, d, events, {a})
    requires forall e | e in events :: a !in OwnWords(s, e)
    ensures a in Run(s, d, events).holding <==> a in d.holding
    ensures WordAt(Run(s, d, events).holding, a) == WordAt(d.holding, a)
  {
    if events != [] {
      var init, e := events[..|events| - 1], events[|events| - 1];
      var before := Run(s, d, init);
      assert e in events && forall x | x in init :: x in events;
      UnwrittenPrefix(s, d, events, {a});
      UntouchedWord(s, d, init, a);
      if External(e) {
        ExternalIs(s, before, e);
      } else {
        InternalFrame(s, before, e, a);
      }
    }
  }

  // ----- Energy -----

  /** A battery step is non-negative and within the clamp bound. */
  predicate GentleEvent(s: Setup, e: Event) {
    e.BatteryStep? ==> ShortStep(s.rack, e.seconds)
  }

  predicate Gentle(s: Setup, events: seq<Event>) {
    forall e | e in events :: GentleEvent(s, e)
  }

  function ChargeAfter(s: Setup, d: Device, e: Event): (r: Charge)
    requires Sound(d)
  {
    if e.BatteryStep? then NextCharge(s.rack, d.charge, d.holding, d.driven, e.seconds) else d.charge
  }

  lemma OnlyStepsMoveCharge(s: Setup, d: Device, e: Event)
    requires Sound(d)
    ensures Next(s, d, e).charge == ChargeAfter(s, d, e)
  {
  }

  /** The energy an event delivers, in watt-seconds of scaled time; negative when
      charging. */
  function Delivered(s: Setup, d: Device, e: Event): (r: real)
    requires Sound(d)
  {
    if e.BatteryStep? then PowerNow(s.rack, d.charge, d.holding, d.driven) * e.seconds * s.rack.timeScale else 0.0
  }

  function NetWs(s: Setup, d: Device, events: seq<Event>): (r: real)
    requires Sound(d)
  {
    if events == [] then 0.0
    else
      var init := events[..|events| - 1];
      NetWs(s, d, init) + Delivered(s, Run(s, d, init), events[|events| - 1])
  }

  /** Only the energy of steps that discharge. */
  function OutWs(s: Setup, d: Device, events: seq<Event>): (r: real)
    requires Sound(d)
  {
    if events == [] then 0.0
    else
      var init := events[..|events| - 1];
      OutWs(s, d, init) + Positive(Delivered(s, Run(s, d, init), events[|events| - 1]))
  }

  function Positive(x: real): (r: real) {
    if x > 0.0 then x else 0.0
  }

  /** The state of charge is a percentage after every event, driven or not. */
  lemma {:induction false} ChargeStaysFilled(s: Setup, d: Device, events: seq<Event>)
    requires Sound(d) && Filled(d.charge.soc)
    ensures Filled(Run(s, d, events).charge.soc)
  {
    if events != [] {
      var init, e := events[..|events| - 1], events[|events| - 1];
      ChargeStaysFilled(s, d, init);
      if External(e) {
        ExternalIs(s, Run(s, d, init), e);
      }
    }
  }

  lemma StepInHours(c: Rack, charge: Charge, holding: Registers, driven: set<u16>, seconds: real, powerW: real,
                    hours: real)
    requires SOC !in driven && Filled(charge.soc) && ShortStep(c, seconds)
    requires powerW == PowerNow(c, charge, holding, driven) && 3600.0 * hours == seconds * c.timeScale
    ensures Balanced(c, charge, NextCharge(c, charge, holding, driven, seconds), powerW * hours)
  {
    BatteryConserves(c, charge, holding, driven, seconds, charge.soc,
                     powerW, NextCharge(c, charge, holding, driven, seconds), hours);
  }

  lemma InSeconds(powerW: real, seconds: real, scale: real, hours: real)
    requires 3600.0 * hours == seconds * scale
    ensures powerW * seconds * scale == 3600.0 * (powerW * hours)
  {
    RackEnergy.Regroup(powerW, seconds, scale);
    assert powerW * (3600.0 * hours) == 3600.0 * (powerW * hours);
  }

  /** The energy stored at a state of charge: 36 000 cap watt-seconds per percent. */
  function StoredWs(c: Rack, soc: real): (r: real) {
    36000.0 * c.capacityKwh * soc
  }

  /** In watt-seconds: `net` left the store, and `out` was counted. */
  predicate Ledger(c: Rack, before: Charge, after: Charge, net: real, out: real) {
    && StoredWs(c, before.soc) == StoredWs(c, after.soc) + net
    && 3600.0 * after.dischargedWh == 3600.0 * before.dischargedWh + out
  }

  lemma BalancedConserves(c: Rack, before: Charge, after: Charge, wh: real)
    requires Balanced(c, before, after, wh)
    ensures Ledger(c, before, after, 3600.0 * wh, Positive(3600.0 * wh))
  {
    assert StoredWs(c, before.soc) == 3600.0 * StoredWh(c, before.soc);
    assert StoredWs(c, after.soc) == 3600.0 * StoredWh(c, after.soc);
  }

  lemma StepConservesWs(c: Rack, charge: Charge, holding: Registers, driven: set<u16>, seconds: real,
                        powerW: real, ws: real, t: Charge)
    requires SOC !in driven && Filled(charge.soc) && ShortStep(c, seconds)
    requires powerW == PowerNow(c, charge, holding, driven) && ws == powerW * seconds * c.timeScale
    requires t == NextCharge(c, charge, holding, driven, seconds)
    ensures Ledger(c, charge, t, ws, Positive(ws))
  {
    var hours := SimHours(c, seconds);
    HoursInSeconds(c, seconds);
    assert Balanced(c, charge, t, powerW * hours) by {
      StepInHours(c, charge, holding, driven, seconds, powerW, hours);
    }
    BalancedInWs(c, charge, t, powerW, seconds, hours, ws);
  }

  lemma BalancedInWs(c: Rack, charge: Charge, t: Charge, powerW: real, seconds: real, hours: real, ws: real)
    requires Balanced(c, charge, t, powerW * hours)
    requires 3600.0 * hours == seconds * c.timeScale && ws == powerW * seconds * c.timeScale
    ensures Ledger(c, charge, t, ws, Positive(ws))
  {
    InSeconds(powerW, seconds, c.timeScale, hours);
    BalancedConserves(c, charge, t, powerW * hours);
  }

  lemma EventConserves(s: Setup, d: Device, e: Event, ws: real, t: Charge)
    requires Sound(d) && SOC !in d.driven && Filled(d.charge.soc) && GentleEvent(s, e)
    requires ws == Delivered(s, d, e) && t == ChargeAfter(s, d, e)
    ensures Ledger(s.rack, d.charge, t, ws, Positive(ws))
  {
    if e.BatteryStep? {
      StepConservesWs(s.rack, d.charge, d.holding, d.driven, e.seconds,
                      PowerNow(s.rack, d.charge, d.holding, d.driven), ws, t);
    }
  }

  lemma Chain(c: Rack, first: Charge, middle: Charge, last: Charge, net: real, out: real, moved: real, counted: real)
    requires Ledger(c, first, middle, net, out) && Ledger(c, middle, last, moved, counted)
    ensures Ledger(c, first, last, net + moved, out + counted)
  {
  }

  /** Exact conservation over every interleaving: while nobody writes the SoC
      register and steps stay within the clamp bound, the energy that left the
      store (36 000 cap watt-seconds per percent) is the energy delivered, power
      times scaled seconds, and the lifetime counter is the energy discharged. */
  lemma {:induction false} EnergyIsConserved(s: Setup, d: Device, events: seq<Event>)
    requires Sound(d) && Filled(d.charge.soc) && Gentle(s, events) && Unwritten(s, d, events, {SOC})
    ensures Ledger(s.rack, d.charge, Run(s, d, events).charge, NetWs(s, d, events), OutWs(s, d, events))
  {
    if events != [] {
      var init, e := events[..|events| - 1], events[|events| - 1];
      var before := Run(s, d, init);
      assert e in events && forall x | x in init :: x in events;
      UnwrittenPrefix(s, d, events, {SOC});
      UnwrittenIsUndriven(s, d, init, {SOC});
      EnergyIsConserved(s, d, init);
      ChargeStaysFilled(s, d, init);
      OnlyStepsMoveCharge(s, before, e);
      var ws := Delivered(s, before, e);
      EventConserves(s, before, e, ws, Run(s, d, events).charge);
      Chain(s.rack, d.charge, before.charge, Run(s, d, events).charge, NetWs(s, d, init), OutWs(s, d, init), ws,
            Positive(ws));
    }
  }

  // ----- A held setpoint -----

  function Steps(events: seq<Event>): (r: nat) {
    if events == [] then 0
    else Steps(events[..|events| - 1]) + if events[|events| - 1].BatteryStep? then 1 else 0
  }

  /** Steps have one length, and nothing writes the setpoint. */
  predicate Steady(s: Setup, e: Event, seconds: real) {
    && (e.BatteryStep? ==> e.seconds == seconds)
    && forall a | a in {SETPOINT, SETPOINT + 1} :: a !in Accepted(s, e) && a !in OwnWords(s, e)
  }

  lemma SteadyKeepsSetpoint(s: Setup, d: Device, e: Event, seconds: real)
    requires Sound(d) && Steady(s, e, seconds)
    ensures ReadI32(Next(s, d, e).holding, SETPOINT) == ReadI32(d.holding, SETPOINT)
  {
    assert SETPOINT in {SETPOINT, SETPOINT + 1} && SETPOINT + 1 in {SETPOINT, SETPOINT + 1};
    if External(e) {
      ExternalIs(s, d, e);
    } else {
      InternalFrame(s, d, e, SETPOINT);
      InternalFrame(s, d, e, SETPOINT + 1);
    }
  }

  lemma StepHolds(c: Rack, charge: Charge, holding: Registers, driven: set<u16>, seconds: real, soc: real, n: nat)
    requires SOC !in driven && n > 0
    requires charge.soc == Held(c, soc, ReadI32(holding, SETPOINT) as real, SimHours(c, seconds), n - 1)
    ensures NextCharge(c, charge, holding, driven, seconds).soc
         == Held(c, soc, ReadI32(holding, SETPOINT) as real, SimHours(c, seconds), n)
  {
    var f := HeldStep(c, ReadI32(holding, SETPOINT) as real, SimHours(c, seconds));
    assert NextCharge(c, charge, holding, driven, seconds).soc == f(charge.soc);
  }

  lemma {:induction false} HeldInHours(s: Setup, d: Device, events: seq<Event>, seconds: real)
    requires Sound(d) && Unwritten(s, d, events, {SOC})
    requires forall e | e in events :: Steady(s, e, seconds)
    ensures ReadI32(Run(s, d, events).holding, SETPOINT) == ReadI32(d.holding, SETPOINT)
    ensures Run(s, d, events).charge.soc
         == Held(s.rack, d.charge.soc, ReadI32(d.holding, SETPOINT) as real, SimHours(s.rack, seconds), Steps(events))
  {
    if events != [] {
      var init, e := events[..|events| - 1], events[|events| - 1];
      var before := Run(s, d, init);
      assert e in events && forall x | x in init :: x in events;
      UnwrittenPrefix(s, d, events, {SOC});
      UnwrittenIsUndriven(s, d, init, {SOC});
      HeldInHours(s, d, init, seconds);
      SteadyKeepsSetpoint(s, before, e, seconds);
      OnlyStepsMoveCharge(s, before, e);
      if e.BatteryStep? {
        StepHolds(s.rack, before.charge, before.holding, before.driven, seconds, d.charge.soc, Steps(events));
      }
    }
  }

  /** Under a setpoint nobody writes, the state of charge after any interleaving
      depends only on how many steps it holds: the iterate whose tapers
      `DischargeClosedForm` and `ChargeClosedForm` solve, for steps of
      seconds * scale / 3600 hours. */
  lemma HeldUnderInterleaving(s: Setup, d: Device, events: seq<Event>, seconds: real, hours: real)
    requires Sound(d) && Unwritten(s, d, events, {SOC})
    requires forall e | e in events :: Steady(s, e, seconds)
    requires 3600.0 * hours == seconds * s.rack.timeScale
    ensures ReadI32(Run(s, d, events).holding, SETPOINT) == ReadI32(d.holding, SETPOINT)
    ensures Run(s, d, events).charge.soc
         == Held(s.rack, d.charge.soc, ReadI32(d.holding, SETPOINT) as real, hours, Steps(events))
  {
    HoursInSeconds(s.rack, seconds);
    assert hours == SimHours(s.rack, seconds);
    HeldInHours(s, d, events, seconds);
  }

  // ----- Published limits -----

  /** No sawtooth channel shares a word with the rack. */
  predicate Apart(channels: seq<Channel>) {
    forall ch | ch in channels :: ch.high !in RACK_WORDS && ch.low !in RACK_WORDS
  }

  const LIMIT_WORDS: set<u16> := {SOC, MAX_CHARGE, MAX_CHARGE + 1, MAX_DISCHARGE, MAX_DISCHARGE + 1}

  predicate LimitsUndriven(driven: set<u16>) {
    forall a | a in LIMIT_WORDS :: a !in driven
  }

  /** The limit registers carry the limits of the present state of charge. */
  predicate LimitsPublished(s: Setup, d: Device) {
    && ReadI32(d.holding, MAX_CHARGE) == Watts(MaxChargeW(s.rack.powerLimitW, d.charge.soc))
    && ReadI32(d.holding, MAX_DISCHARGE) == Watts(MaxDischargeW(s.rack.powerLimitW, d.charge.soc))
  }

  lemma StepPublishes(s: Setup, d: Device, seconds: real)
    requires Sound(d) && LimitsUndriven(d.driven)
    ensures LimitsPublished(s, Next(s, d, BatteryStep(seconds)))
  {
    assert MAX_CHARGE in LIMIT_WORDS && MAX_CHARGE + 1 in LIMIT_WORDS;
    assert MAX_DISCHARGE in LIMIT_WORDS && MAX_DISCHARGE + 1 in LIMIT_WORDS;
    PublishedReads(d.holding, d.driven,
                   ReadoutOf(s.rack, NextCharge(s.rack, d.charge, d.holding, d.driven, seconds),
                             PowerNow(s.rack, d.charge, d.holding, d.driven)));
  }

  lemma OtherEventsKeepWord(s: Setup, d: Device, e: Event, a: u16)
    requires Sound(d) && Apart(s.channels) && !e.BatteryStep?
    requires a in RACK_WORDS && a !in Accepted(s, e)
    ensures WordAt(Next(s, d, e).holding, a) == WordAt(d.holding, a)
    ensures Next(s, d, e).charge == d.charge
  {
    if External(e) {
      ExternalIs(s, d, e);
    } else {
      InternalFrame(s, d, e, a);
    }
  }

  lemma {:induction false} LimitsStayPublished(s: Setup, d: Device, events: seq<Event>)
    requires Sound(d) && Apart(s.channels) && LimitsPublished(s, d)
    requires Unwritten(s, d, events, LIMIT_WORDS)
    ensures LimitsPublished(s, Run(s, d, events))
  {
    if events != [] {
      var init, e := events[..|events| - 1], events[|events| - 1];
      var before := Run(s, d, init);
      UnwrittenPrefix(s, d, events, LIMIT_WORDS);
      UnwrittenIsUndriven(s, d, init, LIMIT_WORDS);
      LimitsStayPublished(s, d, init);
      if e.BatteryStep? {
        StepPublishes(s, before, e.seconds);
      } else {
        OtherEventsKeepWord(s, before, e, MAX_CHARGE);
        OtherEventsKeepWord(s, before, e, MAX_CHARGE + 1);
        OtherEventsKeepWord(s, before, e, MAX_DISCHARGE);
        OtherEventsKeepWord(s, before, e, MAX_DISCHARGE + 1);
      }
    }
  }

  function Booted(s: Setup, soc: real): (r: Device) {
    Device(InitialRegisters(soc, s.rack.powerLimitW), {}, Charge(soc, 0.0))
  }

  /** The power reported in `after` lies within the limits published in `before`. */
  predicate OutputWithin(before: Registers, after: Registers) {
    var charge: int := ReadI32(before, 60);
    -charge <= ReadI32(after, 10) <= ReadI32(before, 62)
  }

  /** From boot on, over every interleaving, the active power a step reports lies
      within the limits that were in the registers before it, rounding included,
      while nobody writes the SoC, limit and power words. */
  lemma PublishedLimitsBind(s: Setup, soc: real, events: seq<Event>, seconds: real)
    requires Apart(s.channels) && Round(s.rack.powerLimitW) < I32_LIMIT
    requires Unwritten(s, Booted(s, soc), events, LIMIT_WORDS)
    requires Unwritten(s, Booted(s, soc), events, {ACTIVE_POWER, ACTIVE_POWER + 1})
    ensures
      var before := Run(s, Booted(s, soc), events);
      OutputWithin(before.holding, Next(s, before, BatteryStep(seconds)).holding)
  {
    BootPublishes(s, soc);
    LimitsStayPublished(s, Booted(s, soc), events);
    UnwrittenIsUndriven(s, Booted(s, soc), events, LIMIT_WORDS);
    UnwrittenIsUndriven(s, Booted(s, soc), events, {ACTIVE_POWER, ACTIVE_POWER + 1});
    StepStaysWithin(s, Run(s, Booted(s, soc), events), seconds);
  }

  lemma BootPublishes(s: Setup, soc: real)
    ensures LimitsPublished(s, Booted(s, soc))
  {
    InitialLimits(soc, s.rack.powerLimitW);
  }

  lemma StepStaysWithin(s: Setup, d: Device, seconds: real)
    requires Sound(d) && LimitsPublished(s, d) && Round(s.rack.powerLimitW) < I32_LIMIT
    requires SOC !in d.driven && !PairDriven(d.driven, ACTIVE_POWER)
    ensures OutputWithin(d.holding, Next(s, d, BatteryStep(seconds)).holding)
  {
    PowerWithinLimits(s, d);
    PublishedReads(d.holding, d.driven,
                   ReadoutOf(s.rack, NextCharge(s.rack, d.charge, d.holding, d.driven, seconds),
                             PowerNow(s.rack, d.charge, d.holding, d.driven)));
  }

  lemma PowerWithinLimits(s: Setup, d: Device)
    requires Sound(d) && SOC !in d.driven && Round(s.rack.powerLimitW) < I32_LIMIT
    ensures
      var charge: int := Watts(MaxChargeW(s.rack.powerLimitW, d.charge.soc));
      -charge <= Watts(PowerNow(s.rack, d.charge, d.holding, d.driven))
              <= Watts(MaxDischargeW(s.rack.powerLimitW, d.charge.soc))
  {
    var charge := MaxChargeW(s.rack.powerLimitW, d.charge.soc);
    var discharge := MaxDischargeW(s.rack.powerLimitW, d.charge.soc);
    ChargeIsBounded(s.rack.powerLimitW, d.charge.soc);
    RoundIsMonotone(charge, s.rack.powerLimitW);
    DeliverableIsAllowed(s.rack, d.charge.soc, ReadI32(d.holding, SETPOINT) as real);
    RoundedWithinLimits(PowerNow(s.rack, d.charge, d.holding, d.driven), charge, discharge);
  }

  // ----- The sawtooth under interleaving -----

  function Ticks(events: seq<Event>): (r: nat) {
    if events == [] then 0
    else Ticks(events[..|events| - 1]) + if events[|events| - 1].SawTick? then 1 else 0
  }

  /** The channel's words belong to no other internal writer. */
  predicate Alone(ch: Channel) {
    && ch.high != ch.low
    && ch.high !in RACK_WORDS && ch.low !in RACK_WORDS
    && ch.high != POI_ACTIVE_POWER && ch.high != POI_ACTIVE_POWER + 1
    && ch.low != POI_ACTIVE_POWER && ch.low != POI_ACTIVE_POWER + 1
  }

  lemma PairMovesByTicks(s: Setup, d: Device, e: Event, ch: Channel)
    requires Sound(d) && s.channels == [ch] && Alone(ch) && !Frozen(d.driven, ch)
    requires ch.high !in Accepted(s, e) && ch.low !in Accepted(s, e)
    ensures PairAt(Next(s, d, e).holding, ch) ==
            if e.SawTick? then Advance(ch, PairAt(d.holding, ch)) else PairAt(d.holding, ch)
  {
    if e.SawTick? {
      TickAdvances(d.holding, d.driven, ch);
    } else if External(e) {
      ExternalIs(s, d, e);
    } else {
      InternalFrame(s, d, e, ch.high);
      InternalFrame(s, d, e, ch.low);
    }
  }

  /** While nobody writes its words, a channel shows the value of exactly as many
      ticks as have happened, whatever else happened in between. */
  lemma {:induction false} SawtoothUnderInterleaving(s: Setup, d: Device, events: seq<Event>, ch: Channel)
    requires Sound(d) && s.channels == [ch] && Alone(ch)
    requires PairAt(d.holding, ch) == ch.min && Unwritten(s, d, events, {ch.high, ch.low})
    ensures PairAt(Run(s, d, events).holding, ch) == Saw(ch, Ticks(events))
  {
    if events != [] {
      var init, e := events[..|events| - 1], events[|events| - 1];
      var before := Run(s, d, init);
      UnwrittenPrefix(s, d, events, {ch.high, ch.low});
      UnwrittenIsUndriven(s, d, init, {ch.high, ch.low});
      SawtoothUnderInterleaving(s, d, init, ch);
      PairMovesByTicks(s, before, e, ch);
    }
  }

  /** The four words of kwh_delivered as one signed number. */
  function Int64At(holding: Registers, addr: u16): (r: int)
    requires addr + 3 < U16_LIMIT
  {
    var raw := ReadU32(holding, addr) * U32_LIMIT + ReadU32(holding, addr + 2);
    if raw < I64_LIMIT then raw else raw - USIZE_LIMIT
  }

  /** kwh_delivered's entries of the meter's canned registers
      (mock-modbus-server/src/registers.rs). */
  predicate MeterBoot(d: Device) {
    && d.driven == {}
    && d.holding.Keys >= {3204, 3205, 3206, 3207}
    && d.holding[3204] == 0 && d.holding[3205] == 0 && d.holding[3206] == 0x000F && d.holding[3207] == 0x4240
  }

  lemma KwhIdeal(n: nat)
    ensures Saw(KWH_DELIVERED, n) == 1_000_000 + 100 * (n % 101)
  {
    SawIsIdeal(KWH_DELIVERED, n);
    assert Period(KWH_DELIVERED) == 101;
  }

  /** The meter's energy reading at every moment: the int64 at 3204-3207 is
      1 000 000 + 100 (n mod 101) after n ticks, while nobody writes its words. */
  lemma KwhDelivered(s: Setup, d: Device, events: seq<Event>)
    requires s.channels == [KWH_DELIVERED] && MeterBoot(d)
    requires Unwritten(s, d, events, {3204, 3205, 3206, 3207})
    ensures Int64At(Run(s, d, events).holding, 3204) == 1_000_000 + 100 * (Ticks(events) % 101)
  {
    Narrower(s, d, events, {3204, 3205, 3206, 3207}, {3206, 3207});
    SawtoothUnderInterleaving(s, d, events, KWH_DELIVERED);
    KwhIdeal(Ticks(events));
    UpperWordsStay(s, d, events);
  }

  lemma Narrower(s: Setup, d: Device, events: seq<Event>, words: set<u16>, fewer: set<u16>)
    requires fewer <= words && Unwritten(s, d, events, words)
    ensures Unwritten(s, d, events, fewer)
  {
  }

  lemma UpperWordsStay(s: Setup, d: Device, events: seq<Event>)
    requires s.channels == [KWH_DELIVERED] && Sound(d) && Unwritten(s, d, events, {3204, 3205, 3206, 3207})
    ensures WordAt(Run(s, d, events).holding, 3204) == WordAt(d.holding, 3204)
    ensures WordAt(Run(s, d, events).holding, 3205) == WordAt(d.holding, 3205)
  {
    Narrower(s, d, events, {3204, 3205, 3206, 3207}, {3204});
    Narrower(s, d, events, {3204, 3205, 3206, 3207}, {3205});
    forall e | e in events
      ensures 3204 !in OwnWords(s, e) && 3205 !in OwnWords(s, e)
    {
    }
    UntouchedWord(s, d, events, 3204);
    UntouchedWord(s, d, events, 3205);
  }
}
