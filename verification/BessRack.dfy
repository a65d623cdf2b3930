/** The simulated rack and its projection into registers
    (mock-modbus-server/src/battery.rs, rack_registers.rs). */
module BessRack {
  import opened Numbers
  import opened Derate
  import opened Registers
  import opened MeterHandlers
  import opened RackEnergy

  const SOC: u16 := 0
  const ACTIVE_POWER: u16 := 10
  const ENERGY_DISCHARGED: u16 := 30
  const OPERATING_STATE: u16 := 40
  const SETPOINT: u16 := 50
  const MAX_CHARGE: u16 := 60
  const MAX_DISCHARGE: u16 := 62

  const STANDBY: u16 := 0
  const CHARGING: u16 := 1
  const DISCHARGING: u16 := 2

  /** The addresses a step may write. */
  const RACK_WORDS: set<u16> := {0, 10, 11, 30, 31, 40, 60, 61, 62, 63}

  // ----- Readings -----

  datatype Readout = Readout(soc: u16, power: i32, energy: i32, maxCharge: i32, maxDischarge: i32, state: u16)

  /** The five guarded writes of a step, then the operating state. */
  function Published(holding: Registers, driven: set<u16>, r: Readout): (result: Registers) {
    var h1 := Put(holding, driven, SOC, r.soc);
    var h2 := PutI32(h1, driven, ACTIVE_POWER, r.power);
    var h3 := PutI32(h2, driven, ENERGY_DISCHARGED, r.energy);
    var h4 := PutI32(h3, driven, MAX_CHARGE, r.maxCharge);
    var h5 := PutI32(h4, driven, MAX_DISCHARGE, r.maxDischarge);
    Put(h5, driven, OPERATING_STATE, r.state)
  }

  /** Watts to a register pair: round, then saturate. */
  function Watts(w: real): (r: i32) {
    SaturateI32(Round(w))
  }

  function StateCode(powerW: real): (r: u16) {
    if powerW > 0.0 then DISCHARGING else if powerW < 0.0 then CHARGING else STANDBY
  }

  function ReadoutOf(c: Rack, s: Charge, powerW: real): (r: Readout) {
    Readout(SaturateU16(Round(s.soc * 10.0)), Watts(powerW), Watts(s.dischargedWh),
            Watts(MaxChargeW(c.powerLimitW, s.soc)), Watts(MaxDischargeW(c.powerLimitW, s.soc)), StateCode(powerW))
  }

  /** Each undriven reading decodes to its value, independently of the others. */
  lemma PublishedReads(holding: Registers, driven: set<u16>, r: Readout)
    ensures
      var h := Published(holding, driven, r);
      && (SOC !in driven ==> SOC in h && h[SOC] == r.soc)
      && (OPERATING_STATE !in driven ==> OPERATING_STATE in h && h[OPERATING_STATE] == r.state)
      && (!PairDriven(driven, ACTIVE_POWER) ==> ReadI32(h, ACTIVE_POWER) == r.power)
      && (!PairDriven(driven, ENERGY_DISCHARGED) ==> ReadI32(h, ENERGY_DISCHARGED) == r.energy)
      && (!PairDriven(driven, MAX_CHARGE) ==> ReadI32(h, MAX_CHARGE) == r.maxCharge)
      && (!PairDriven(driven, MAX_DISCHARGE) ==> ReadI32(h, MAX_DISCHARGE) == r.maxDischarge)
  {
    WordsRoundTrip(r.power);
    WordsRoundTrip(r.energy);
    WordsRoundTrip(r.maxCharge);
    WordsRoundTrip(r.maxDischarge);
  }

  /** A step touches no driven address and none outside its ten. */
  lemma PublishedFrame(holding: Registers, driven: set<u16>, r: Readout, a: u16)
    requires a in driven || a !in RACK_WORDS
    ensures a in Published(holding, driven, r) <==> a in holding
    ensures WordAt(Published(holding, driven, r), a) == WordAt(holding, a)
  {
  }

  lemma PublishedGrows(holding: Registers, driven: set<u16>, r: Readout)
    ensures holding.Keys <= Published(holding, driven, r).Keys
  {
  }

  lemma SocWordIsNearest(soc: real)
    requires Filled(soc)
    ensures -0.5 <= SaturateU16(Round(soc * 10.0)) as real - 10.0 * soc <= 0.5
  {
  }

  // ----- One step -----

  /** A driven SoC register is the new truth. */
  function SocSeen(s: Charge, holding: Registers, driven: set<u16>): (r: real)
    requires SOC in driven ==> SOC in holding
  {
    if SOC in driven then holding[SOC] as real * 0.1 else s.soc
  }

  /** The power a step delivers. */
  function PowerNow(c: Rack, s: Charge, holding: Registers, driven: set<u16>): (r: real)
    requires SOC in driven ==> SOC in holding
  {
    Deliverable(c, SocSeen(s, holding, driven), ReadI32(holding, SETPOINT) as real)
  }

  function NextCharge(c: Rack, s: Charge, holding: Registers, driven: set<u16>, seconds: real): (r: Charge)
    requires SOC in driven ==> SOC in holding
  {
    Stepped(c, s.(soc := SocSeen(s, holding, driven)), PowerNow(c, s, holding, driven), SimHours(c, seconds))
  }

  function NextHolding(c: Rack, s: Charge, holding: Registers, driven: set<u16>, seconds: real): (r: Registers)
    requires SOC in driven ==> SOC in holding
  {
    Published(holding, driven,
              ReadoutOf(c, NextCharge(c, s, holding, driven, seconds), PowerNow(c, s, holding, driven)))
  }

  /** The charge a step starts from: tenths of a percent at address 0 when driven. */
  predicate StartsAt(s: Charge, holding: Registers, driven: set<u16>, soc: real) {
    soc == if 0 in driven then WordAt(holding, 0) as real / 10.0 else s.soc
  }

  /** The commanded power: the signed integer at addresses 50 and 51, high word
      first, absent words counting as 0. */
  predicate Commands(holding: Registers, setpoint: int) {
    && -0x8000_0000 <= setpoint < 0x8000_0000
    && (setpoint - (WordAt(holding, 50) * 65536 + WordAt(holding, 51))) % 0x1_0000_0000 == 0
  }

  /** A step delivers the allowed power nearest the command, at the charge it
      starts from. */
  lemma StepFollowsCommand(c: Rack, s: Charge, holding: Registers, driven: set<u16>, soc: real,
                           setpoint: int, other: real)
    requires SOC in driven ==> SOC in holding
    requires StartsAt(s, holding, driven, soc) && Commands(holding, setpoint)
    requires -MaxChargeW(c.powerLimitW, soc) <= other <= MaxDischargeW(c.powerLimitW, soc)
    ensures -MaxChargeW(c.powerLimitW, soc) <= PowerNow(c, s, holding, driven) <= MaxDischargeW(c.powerLimitW, soc)
    ensures Distance(PowerNow(c, s, holding, driven), setpoint as real) <= Distance(other, setpoint as real)
  {
    CommandIsRead(holding, setpoint);
    assert SocSeen(s, holding, driven) == soc;
    DeliverableIsNearest(c, soc, setpoint as real, other);
    DeliverableIsAllowed(c, soc, setpoint as real);
  }

  lemma CommandIsRead(holding: Registers, setpoint: int)
    ensures Commands(holding, setpoint) <==> setpoint == ReadI32(holding, SETPOINT)
  {
  }

  lemma FromStart(c: Rack, s: Charge, holding: Registers, driven: set<u16>, seconds: real, soc: real)
    requires SOC in driven ==> SOC in holding
    requires StartsAt(s, holding, driven, soc)
    ensures PowerNow(c, s, holding, driven) == Deliverable(c, soc, ReadI32(holding, SETPOINT) as real)
    ensures NextCharge(c, s, holding, driven, seconds)
         == Stepped(c, s.(soc := soc), PowerNow(c, s, holding, driven), SimHours(c, seconds))
  {
    assert SocSeen(s, holding, driven) == soc;
  }

  lemma PowerConserves(c: Rack, s: Charge, t: Charge, setpointW: real, powerW: real, hours: real)
    requires Filled(s.soc) && hours >= 0.0 && c.powerLimitW * hours <= 100.0 * c.capacityKwh
    requires powerW == Deliverable(c, s.soc, setpointW) && t == Stepped(c, s, powerW, hours)
    ensures Balanced(c, s, t, powerW * hours)
  {
    StepConserves(c, s, setpointW, hours);
  }

  /** One short step, from whatever charge it starts at: what leaves the store is
      the delivered power times the scaled hours. */
  lemma BatteryConserves(c: Rack, s: Charge, holding: Registers, driven: set<u16>, seconds: real, soc: real,
                         powerW: real, t: Charge, hours: real)
    requires SOC in driven ==> SOC in holding
    requires StartsAt(s, holding, driven, soc) && Filled(soc) && ShortStep(c, seconds)
    requires powerW == PowerNow(c, s, holding, driven) && t == NextCharge(c, s, holding, driven, seconds)
    requires 3600.0 * hours == seconds * c.timeScale
    ensures Balanced(c, s.(soc := soc), t, powerW * hours)
  {
    assert hours >= 0.0 && c.powerLimitW * hours <= 100.0 * c.capacityKwh by {
      SameHours(c, seconds, hours);
      ShortInHours(c, seconds);
    }
    assert powerW == Deliverable(c, soc, ReadI32(holding, SETPOINT) as real) by {
      FromStart(c, s, holding, driven, seconds, soc);
    }
    assert t == Stepped(c, s.(soc := soc), powerW, hours) by {
      SameHours(c, seconds, hours);
      FromStart(c, s, holding, driven, seconds, soc);
    }
    PowerConserves(c, s.(soc := soc), t, ReadI32(holding, SETPOINT) as real, powerW, hours);
  }

  lemma SameHours(c: Rack, seconds: real, hours: real)
    requires 3600.0 * hours == seconds * c.timeScale
    ensures hours == SimHours(c, seconds)
  {
  }

  /** `word` is `x` rounded to the nearest unit. */
  predicate Nearest(word: int, x: real) {
    -0.5 <= word as real - x <= 0.5
  }

  lemma WattsAreNearest(w: real)
    requires -I32_LIMIT as real <= w <= (I32_LIMIT - 1) as real
    ensures Nearest(Watts(w), w)
  {
    RoundOfInteger(-I32_LIMIT);
    RoundOfInteger(I32_LIMIT - 1);
    RoundIsMonotone(-I32_LIMIT as real, w);
    RoundIsMonotone(w, (I32_LIMIT - 1) as real);
  }

  /** What a step reports is what it did: each undriven register carries the
      delivered power (10-11), the new state of charge (0), the lifetime energy
      (30-31) and the new limits (60-63) to the nearest unit, and the state code
      (40) is the sign of the power. */
  lemma StepReports(c: Rack, s: Charge, holding: Registers, driven: set<u16>, seconds: real)
    requires SOC in driven ==> SOC in holding
    requires c.powerLimitW <= (I32_LIMIT - 1) as real
    ensures
      var p, t := PowerNow(c, s, holding, driven), NextCharge(c, s, holding, driven, seconds);
      var h := NextHolding(c, s, holding, driven, seconds);
      && (!PairDriven(driven, 10) ==> Nearest(ReadI32(h, 10), p))
      && (!PairDriven(driven, 30) && 0.0 <= t.dischargedWh <= (I32_LIMIT - 1) as real ==>
            Nearest(ReadI32(h, 30), t.dischargedWh))
      && (0 !in driven ==> 0 in h && Nearest(h[0], 10.0 * t.soc))
      && (!PairDriven(driven, 60) ==> Nearest(ReadI32(h, 60), MaxChargeW(c.powerLimitW, t.soc)))
      && (!PairDriven(driven, 62) ==> Nearest(ReadI32(h, 62), MaxDischargeW(c.powerLimitW, t.soc)))
      && (40 !in driven ==> WordAt(h, 40) == if p > 0.0 then 2 else if p < 0.0 then 1 else 0)
  {
    var p, t := PowerNow(c, s, holding, driven), NextCharge(c, s, holding, driven, seconds);
    PublishedReads(holding, driven, ReadoutOf(c, t, p));
    PowerFits(c, SocSeen(s, holding, driven), ReadI32(holding, SETPOINT) as real);
    WattsAreNearest(p);
    if 0.0 <= t.dischargedWh <= (I32_LIMIT - 1) as real {
      WattsAreNearest(t.dischargedWh);
    }
    SocWordIsNearest(t.soc);
    DischargeIsBounded(c.powerLimitW, t.soc);
    ChargeIsBounded(c.powerLimitW, t.soc);
    WattsAreNearest(MaxChargeW(c.powerLimitW, t.soc));
    WattsAreNearest(MaxDischargeW(c.powerLimitW, t.soc));
  }

  lemma PowerFits(c: Rack, soc: real, setpointW: real)
    ensures -c.powerLimitW <= Deliverable(c, soc, setpointW) <= c.powerLimitW
  {
    DeliverableIsAllowed(c, soc, setpointW);
    DischargeIsBounded(c.powerLimitW, soc);
    ChargeIsBounded(c.powerLimitW, soc);
  }

  class Battery {
    const config: Rack
    var socPercent: real
    var energyDischargedWh: real

    constructor (config: Rack, initialSocPercent: real)
      ensures this.config == config && Now() == Charge(initialSocPercent, 0.0)
    {
      this.config := config;
      socPercent := initialSocPercent;
      energyDischargedWh := 0.0;
    }

    function Now(): (r: Charge)
      reads this
    {
      Charge(socPercent, energyDischargedWh)
    }

    /** `step`. The caller's register map holds every driven address. */
    method Step(h: MeterHandler, seconds: real)
      requires h.driven <= h.holding.Keys
      modifies this, h`holding
      ensures Now() == NextCharge(config, old(Now()), old(h.holding), h.driven, seconds)
      ensures h.holding == NextHolding(config, old(Now()), old(h.holding), h.driven, seconds)
    {
      if SOC in h.driven {
        socPercent := h.holding[SOC] as real * 0.1;
      }
      var setpoint := ReadI32(h.holding, SETPOINT);
      var power := Deliverable(config, socPercent, setpoint as real);
      var simHours := SimHours(config, seconds);
      Integrate(power, simHours);
      Publish(h, ReadoutOf(config, Now(), power));
    }

    method Integrate(power: real, simHours: real)
      modifies this
      ensures Now() == Stepped(config, old(Now()), power, simHours)
    {
      var energyKwh := power * simHours / 1000.0;
      socPercent := Clamp(socPercent - energyKwh / config.capacityKwh * 100.0, 0.0, 100.0);
      if power > 0.0 {
        energyDischargedWh := energyDischargedWh + power * simHours;
      }
    }

    static method Publish(h: MeterHandler, r: Readout)
      modifies h`holding
      ensures h.holding == Published(old(h.holding), h.driven, r)
    {
      h.PutWord(SOC, r.soc);
      h.PutDouble(ACTIVE_POWER, r.power);
      h.PutDouble(ENERGY_DISCHARGED, r.energy);
      h.PutDouble(MAX_CHARGE, r.maxCharge);
      h.PutDouble(MAX_DISCHARGE, r.maxDischarge);
      h.PutWord(OPERATING_STATE, r.state);
    }
  }

  // ----- Boot -----

  /** `initial_registers`. */
  function InitialRegisters(soc: real, ratedW: real): (r: Registers) {
    var holding: Registers := map[
      SOC := SaturateU16(Round(soc * 10.0)),
      10 := 0, 11 := 0, 12 := 0, 13 := 0, 20 := 4800, 22 := 6000, 30 := 0, 31 := 0,
      OPERATING_STATE := STANDBY, SETPOINT := 0, 51 := 0];
    var charged := PutI32(holding, {}, MAX_CHARGE, Watts(MaxChargeW(ratedW, soc)));
    PutI32(charged, {}, MAX_DISCHARGE, Watts(MaxDischargeW(ratedW, soc)))
  }

  lemma InitialLimits(soc: real, ratedW: real)
    ensures ReadI32(InitialRegisters(soc, ratedW), MAX_CHARGE) == Watts(MaxChargeW(ratedW, soc))
    ensures ReadI32(InitialRegisters(soc, ratedW), MAX_DISCHARGE) == Watts(MaxDischargeW(ratedW, soc))
    ensures ReadI32(InitialRegisters(soc, ratedW), SETPOINT) == 0
  {
    WordsRoundTrip(Watts(MaxChargeW(ratedW, soc)));
    WordsRoundTrip(Watts(MaxDischargeW(ratedW, soc)));
  }

  /** At boot the rack reports its charge in tenths of a percent, its limits in
      watts, 480.0 V and 60.00 Hz; it is idle, has delivered nothing, and nothing
      is commanded. */
  lemma InitialReadings(soc: real, c: Rack)
    requires Filled(soc) && c.powerLimitW <= (I32_LIMIT - 1) as real
    ensures
      var h := InitialRegisters(soc, c.powerLimitW);
      && 0 in h && Nearest(h[0], 10.0 * soc)
      && Nearest(ReadI32(h, 60), MaxChargeW(c.powerLimitW, soc))
      && Nearest(ReadI32(h, 62), MaxDischargeW(c.powerLimitW, soc))
      && h.Keys == {0, 10, 11, 12, 13, 20, 22, 30, 31, 40, 50, 51, 60, 61, 62, 63}
      && h[20] == 4800 && h[22] == 6000
      && forall a: u16 | a in {10, 11, 12, 13, 30, 31, 40, 50, 51} :: h[a] == 0
  {
    InitialLimits(soc, c.powerLimitW);
    SocWordIsNearest(soc);
    DischargeIsBounded(c.powerLimitW, soc);
    ChargeIsBounded(c.powerLimitW, soc);
    WattsAreNearest(MaxChargeW(c.powerLimitW, soc));
    WattsAreNearest(MaxDischargeW(c.powerLimitW, soc));
  }

  // ----- Published limits bind the next output -----

  /** Rounding keeps a power within rounded limits, as long as the rating fits
      an int32 after rounding. */
  lemma RoundedWithinLimits(powerW: real, charge: real, discharge: real)
    requires -charge <= powerW <= discharge && 0.0 <= charge && Round(charge) < I32_LIMIT
    ensures -Watts(charge) <= Watts(powerW) <= Watts(discharge)
  {
    RoundIsOdd(charge);
    RoundIsMonotone(-charge, powerW);
    RoundIsMonotone(powerW, discharge);
  }
}
