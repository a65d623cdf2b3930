/** The rack's energy model as a state machine over state of charge and lifetime
    energy (mock-modbus-server/src/battery.rs): when its clamps can bind, what it
    conserves, and the closed forms of its tapers. */
module RackEnergy {
  import opened Numbers
  import opened Derate

  datatype BatteryConfig = BatteryConfig(capacityKwh: real, powerLimitW: real, timeScale: real)

  /** The shipped rack, a Megapack 2 XL; its clamp bound is 0.2 h. */
  const RACK_CAPACITY_KWH := 3854.0
  const RACK_POWER_LIMIT_W := 1927000.0

  /** What `from_env` accepts, for any rack size. */
  type Rack = c: BatteryConfig | c.capacityKwh > 0.0 && c.powerLimitW > 0.0 && c.timeScale > 0.0
    witness BatteryConfig(RACK_CAPACITY_KWH, RACK_POWER_LIMIT_W, 1.0)

  datatype Charge = Charge(soc: real, dischargedWh: real)

  predicate Filled(soc: real) {
    0.0 <= soc <= 100.0
  }

  /** `deliverable`: the setpoint within the present limits. */
  function Deliverable(c: Rack, soc: real, setpointW: real): (r: real) {
    Clamp(setpointW, -MaxChargeW(c.powerLimitW, soc), MaxDischargeW(c.powerLimitW, soc))
  }

  function SimHours(c: Rack, seconds: real): (r: real) {
    seconds * c.timeScale / 3600.0
  }

  /** The state of charge before clamping. */
  function Drained(c: Rack, soc: real, powerW: real, hours: real): (r: real) {
    soc - powerW * hours / 1000.0 / c.capacityKwh * 100.0
  }

  /** One step's effect on the charge at a given state of charge. */
  function Stepped(c: Rack, s: Charge, powerW: real, hours: real): (r: Charge) {
    Charge(Clamp(Drained(c, s.soc, powerW, hours), 0.0, 100.0),
           if powerW > 0.0 then s.dischargedWh + powerW * hours else s.dischargedWh)
  }

  // ----- The clamps -----

  /** Stored energy, Wh. */
  function StoredWh(c: Rack, soc: real): (r: real) {
    10.0 * c.capacityKwh * soc
  }

  lemma DrainInWh(c: Rack, soc: real, powerW: real, hours: real)
    ensures StoredWh(c, Drained(c, soc, powerW, hours)) == StoredWh(c, soc) - powerW * hours
  {
    var e := powerW * hours;
    var x := e / 1000.0 / c.capacityKwh;
    assert x * c.capacityKwh == e / 1000.0;
    assert 10.0 * c.capacityKwh * (soc - x * 100.0) == 10.0 * c.capacityKwh * soc - 1000.0 * (x * c.capacityKwh);
  }

  lemma StoredIsMonotone(c: Rack, x: real, y: real)
    ensures x <= y <==> StoredWh(c, x) <= StoredWh(c, y)
  {
    var k := 10.0 * c.capacityKwh;
    if x <= y {
      MulMonotone(x, y, k);
    } else {
      assert k * (x - y) > 0.0;
    }
  }

  /** Discharging at any allowed power for up to 200 cap / rated hours never
      takes out more than is stored. */
  lemma NeverBelowEmpty(c: Rack, soc: real, powerW: real, hours: real)
    requires Filled(soc) && hours >= 0.0 && powerW <= MaxDischargeW(c.powerLimitW, soc)
    requires c.powerLimitW * hours <= 200.0 * c.capacityKwh
    ensures Drained(c, soc, powerW, hours) >= 0.0
  {
    var limit := MaxDischargeW(c.powerLimitW, soc);
    DrainInWh(c, soc, powerW, hours);
    StoredIsMonotone(c, 0.0, Drained(c, soc, powerW, hours));
    DischargeTaper(c.powerLimitW, soc);
    MulMonotone(powerW, limit, hours);
    MulMonotone(20.0 * limit, c.powerLimitW * soc, hours);
    assert c.powerLimitW * soc * hours == c.powerLimitW * hours * soc;
    MulMonotone(c.powerLimitW * hours, 200.0 * c.capacityKwh, soc);
  }

  /** Charging at any allowed power for up to 100 cap / rated hours never
      overfills. */
  lemma NeverAboveFull(c: Rack, soc: real, powerW: real, hours: real)
    requires Filled(soc) && hours >= 0.0 && -MaxChargeW(c.powerLimitW, soc) <= powerW
    requires c.powerLimitW * hours <= 100.0 * c.capacityKwh
    ensures Drained(c, soc, powerW, hours) <= 100.0
  {
    var limit := MaxChargeW(c.powerLimitW, soc);
    var room := 100.0 - soc;
    DrainInWh(c, soc, powerW, hours);
    StoredIsMonotone(c, Drained(c, soc, powerW, hours), 100.0);
    ChargeTaper(c.powerLimitW, soc);
    MulMonotone(-powerW, limit, hours);
    MulMonotone(10.0 * limit, c.powerLimitW * room, hours);
    assert c.powerLimitW * room * hours == c.powerLimitW * hours * room;
    MulMonotone(c.powerLimitW * hours, 100.0 * c.capacityKwh, room);
  }

  /** One step at this setpoint leaves the range before clamping. */
  predicate ClampBinds(c: Rack, soc: real, setpoint: i32, hours: real) {
    !Filled(Drained(c, soc, Deliverable(c, soc, setpoint as real), hours))
  }

  /** The tick bound is exact: the clamps can bind if and only if a step lasts
      longer than 100 cap / rated simulated hours (0.2 h for the shipped rack). */
  lemma ClampBound(c: Rack, hours: real)
    requires hours >= 0.0 && c.powerLimitW <= I32_LIMIT as real
    ensures (exists soc, setpoint :: Filled(soc) && ClampBinds(c, soc, setpoint, hours))
       <==> c.powerLimitW * hours > 100.0 * c.capacityKwh
  {
    if c.powerLimitW * hours <= 100.0 * c.capacityKwh {
      forall soc, setpoint | Filled(soc)
        ensures !ClampBinds(c, soc, setpoint, hours)
      {
        DeliverableIsAllowed(c, soc, setpoint as real);
        NeverBelowEmpty(c, soc, Deliverable(c, soc, setpoint as real), hours);
        NeverAboveFull(c, soc, Deliverable(c, soc, setpoint as real), hours);
      }
    } else {
      LongChargeOverfills(c, hours);
      assert Filled(90.0) && ClampBinds(c, 90.0, -I32_LIMIT, hours);
    }
  }

  lemma DeliverableIsAllowed(c: Rack, soc: real, setpointW: real)
    ensures -MaxChargeW(c.powerLimitW, soc) <= Deliverable(c, soc, setpointW) <= MaxDischargeW(c.powerLimitW, soc)
  {
    DischargeIsBounded(c.powerLimitW, soc);
    ChargeIsBounded(c.powerLimitW, soc);
  }

  function Distance(x: real, y: real): (r: real) {
    if x < y then y - x else x - y
  }

  /** The delivered power is the allowed power nearest the setpoint. */
  lemma DeliverableIsNearest(c: Rack, soc: real, setpointW: real, otherW: real)
    requires -MaxChargeW(c.powerLimitW, soc) <= otherW <= MaxDischargeW(c.powerLimitW, soc)
    ensures Distance(Deliverable(c, soc, setpointW), setpointW) <= Distance(otherW, setpointW)
    ensures Distance(otherW, setpointW) == Distance(Deliverable(c, soc, setpointW), setpointW)
            ==> otherW == Deliverable(c, soc, setpointW)
  {
    DeliverableIsAllowed(c, soc, setpointW);
  }

  /** The full charging setpoint at 90 % overfills in a longer step. */
  lemma LongChargeOverfills(c: Rack, hours: real)
    requires c.powerLimitW * hours > 100.0 * c.capacityKwh && c.powerLimitW <= I32_LIMIT as real
    ensures Filled(90.0) && !Filled(Drained(c, 90.0, Deliverable(c, 90.0, (-I32_LIMIT) as real), hours))
  {
    var p := Deliverable(c, 90.0, (-I32_LIMIT) as real);
    ChargeTaper(c.powerLimitW, 90.0);
    DischargeIsBounded(c.powerLimitW, 90.0);
    ChargeIsBounded(c.powerLimitW, 90.0);
    assert p == -c.powerLimitW;
    DrainInWh(c, 90.0, p, hours);
    StoredIsMonotone(c, Drained(c, 90.0, p, hours), 100.0);
  }

  /** From `s` to `t` exactly `wh` left the store, and the lifetime counter took
      it if it was discharge. */
  predicate Balanced(c: Rack, s: Charge, t: Charge, wh: real) {
    && StoredWh(c, t.soc) + wh == StoredWh(c, s.soc)
    && t.dischargedWh == s.dischargedWh + if wh > 0.0 then wh else 0.0
  }

  /** A short step conserves energy exactly: what leaves the store is what is
      delivered, and only discharging counts towards the lifetime energy. */
  lemma StepConserves(c: Rack, s: Charge, setpointW: real, hours: real)
    requires Filled(s.soc) && hours >= 0.0 && c.powerLimitW * hours <= 100.0 * c.capacityKwh
    ensures Filled(Stepped(c, s, Deliverable(c, s.soc, setpointW), hours).soc)
    ensures Balanced(c, s, Stepped(c, s, Deliverable(c, s.soc, setpointW), hours),
                     Deliverable(c, s.soc, setpointW) * hours)
  {
    var p := Deliverable(c, s.soc, setpointW);
    DeliverableIsAllowed(c, s.soc, setpointW);
    NeverBelowEmpty(c, s.soc, p, hours);
    NeverAboveFull(c, s.soc, p, hours);
    DrainInWh(c, s.soc, p, hours);
    SignOfProduct(p, hours);
  }

  lemma SignOfProduct(p: real, hours: real)
    requires hours >= 0.0
    ensures p > 0.0 ==> p * hours >= 0.0
    ensures p <= 0.0 ==> p * hours <= 0.0
  {
  }

  // ----- In seconds -----

  /** A step of `seconds` of wall time at this scale takes this many hours. */
  lemma HoursInSeconds(c: Rack, seconds: real)
    ensures 3600.0 * SimHours(c, seconds) == seconds * c.timeScale
  {
  }

  /** No clamp can bind in a step of this length: rated watts times scaled seconds
      are at most 360 000 times the capacity in kWh. */
  predicate ShortStep(c: Rack, seconds: real) {
    seconds >= 0.0 && c.powerLimitW * seconds * c.timeScale <= 360000.0 * c.capacityKwh
  }

  lemma ShortInHours(c: Rack, seconds: real)
    ensures ShortStep(c, seconds)
       <==> SimHours(c, seconds) >= 0.0 && c.powerLimitW * SimHours(c, seconds) <= 100.0 * c.capacityKwh
  {
    WattSeconds(c, c.powerLimitW, seconds);
    HoursInSeconds(c, seconds);
    SameSign(seconds, c.timeScale);
  }

  lemma Regroup(x: real, y: real, z: real)
    ensures x * y * z == x * (y * z)
  {
  }

  lemma SameSign(x: real, k: real)
    requires k > 0.0
    ensures x >= 0.0 <==> x * k >= 0.0
  {
  }

  /** The tick bound in wall time, exact. */
  lemma ClampBoundInSeconds(c: Rack, seconds: real)
    requires seconds >= 0.0 && c.powerLimitW <= I32_LIMIT as real
    ensures (exists soc, setpoint :: Filled(soc) && ClampBinds(c, soc, setpoint, SimHours(c, seconds)))
       <==> c.powerLimitW * seconds * c.timeScale > 360000.0 * c.capacityKwh
  {
    HoursInSeconds(c, seconds);
    SameSign(seconds, c.timeScale);
    WattSeconds(c, c.powerLimitW, seconds);
    ClampBound(c, SimHours(c, seconds));
  }

  /** Watt-hours of a step, in watts, seconds and scale. */
  lemma WattSeconds(c: Rack, powerW: real, seconds: real)
    ensures powerW * seconds * c.timeScale == 3600.0 * (powerW * SimHours(c, seconds))
  {
    var h := SimHours(c, seconds);
    HoursInSeconds(c, seconds);
    Regroup(powerW, seconds, c.timeScale);
    assert powerW * (3600.0 * h) == 3600.0 * (powerW * h);
  }

  // ----- Tapers -----

  function Iterate(f: real -> real, x: real, n: nat): (r: real) {
    if n == 0 then x else f(Iterate(f, x, n - 1))
  }

  /** `f` maps the range into itself and contracts it towards `point` by `k`. */
  ghost predicate Contracts(f: real -> real, low: real, high: real, point: real, k: real) {
    forall y | low <= y <= high :: low <= f(y) <= high && f(y) - point == (y - point) * k
  }

  lemma {:induction false} Geometric(f: real -> real, low: real, high: real, point: real, k: real, x: real, n: nat)
    requires low <= x <= high && Contracts(f, low, high, point, k)
    ensures low <= Iterate(f, x, n) <= high
    ensures Iterate(f, x, n) - point == (x - point) * Pow(k, n)
  {
    if n > 0 {
      Geometric(f, low, high, point, k, x, n - 1);
      assert (x - point) * Pow(k, n - 1) * k == (x - point) * (k * Pow(k, n - 1));
    }
  }

  /** One step under a fixed setpoint. */
  function HeldStep(c: Rack, setpointW: real, hours: real): (r: real -> real) {
    (soc: real) => Clamp(Drained(c, soc, Deliverable(c, soc, setpointW), hours), 0.0, 100.0)
  }

  /** `n` steps of one length under one setpoint. */
  function Held(c: Rack, soc: real, setpointW: real, hours: real, n: nat): (r: real) {
    Iterate(HeldStep(c, setpointW, hours), soc, n)
  }

  /** A tapering rack keeps the fraction `k` of its charge (or of its room) per
      step, when a step at rated power moves 1 - k of `percent` percent:
      k == 1 - rated * hours / (percent * cap). */
  predicate Keeps(c: Rack, hours: real, percent: real, k: real) {
    percent * c.capacityKwh * (1.0 - k) == c.powerLimitW * hours
  }

  lemma KeptInWh(c: Rack, hours: real, percent: real, k: real, x: real)
    requires Keeps(c, hours, percent, k)
    ensures percent * (c.capacityKwh * (x * k)) == percent * (c.capacityKwh * x) - c.powerLimitW * hours * x
  {
    var w := percent * c.capacityKwh;
    assert percent * (c.capacityKwh * (x * k)) == w * x - (w * (1.0 - k)) * x;
  }

  lemma FollowsPower(c: Rack, soc: real, powerW: real, hours: real)
    requires hours >= 0.0
    ensures powerW >= 0.0 ==> Drained(c, soc, powerW, hours) <= soc
    ensures powerW <= 0.0 ==> Drained(c, soc, powerW, hours) >= soc
  {
    DrainInWh(c, soc, powerW, hours);
    StoredIsMonotone(c, Drained(c, soc, powerW, hours), soc);
    StoredIsMonotone(c, soc, Drained(c, soc, powerW, hours));
  }

  lemma SaturatedDischargeStep(c: Rack, soc: real, setpointW: real, hours: real, k: real)
    requires 0.0 <= soc <= 20.0 && setpointW >= c.powerLimitW && hours >= 0.0
    requires c.powerLimitW * hours <= 200.0 * c.capacityKwh && Keeps(c, hours, 200.0, k)
    ensures Drained(c, soc, Deliverable(c, soc, setpointW), hours) == soc * k
  {
    var rated := c.powerLimitW;
    var p := Deliverable(c, soc, setpointW);
    DischargeIsBounded(rated, soc);
    ChargeIsBounded(rated, soc);
    DischargeTaper(rated, soc);
    assert p == MaxDischargeW(rated, soc);
    DrainInWh(c, soc, p, hours);
    KeptInWh(c, hours, 200.0, k, soc);
    assert 20.0 * (p * hours) == rated * soc * hours == rated * hours * soc;
    SameStored(c, Drained(c, soc, p, hours), soc * k);
  }

  lemma DischargeHeldStep(c: Rack, soc: real, setpointW: real, hours: real, k: real)
    requires 0.0 <= soc <= 20.0 && setpointW >= c.powerLimitW && hours >= 0.0
    requires c.powerLimitW * hours <= 200.0 * c.capacityKwh && Keeps(c, hours, 200.0, k)
    ensures 0.0 <= HeldStep(c, setpointW, hours)(soc) <= 20.0
    ensures HeldStep(c, setpointW, hours)(soc) == soc * k
  {
    var p := Deliverable(c, soc, setpointW);
    DischargeIsBounded(c.powerLimitW, soc);
    DeliverableIsAllowed(c, soc, setpointW);
    SaturatedDischargeStep(c, soc, setpointW, hours, k);
    NeverBelowEmpty(c, soc, p, hours);
    FollowsPower(c, soc, p, hours);
  }

  lemma SameStored(c: Rack, x: real, y: real)
    requires 20.0 * StoredWh(c, x) == 200.0 * (c.capacityKwh * y)
    ensures x == y
  {
    assert StoredWh(c, y) == 10.0 * (c.capacityKwh * y);
    StoredIsMonotone(c, x, y);
    StoredIsMonotone(c, y, x);
  }

  lemma DischargeContracts(c: Rack, setpointW: real, hours: real, k: real)
    requires setpointW >= c.powerLimitW && hours >= 0.0
    requires c.powerLimitW * hours <= 200.0 * c.capacityKwh && Keeps(c, hours, 200.0, k)
    ensures Contracts(HeldStep(c, setpointW, hours), 0.0, 20.0, 0.0, k)
  {
    var f := HeldStep(c, setpointW, hours);
    forall y | 0.0 <= y <= 20.0
      ensures 0.0 <= f(y) <= 20.0 && f(y) - 0.0 == (y - 0.0) * k
    {
      DischargeHeldStep(c, y, setpointW, hours, k);
    }
  }

  /** Discharging flat out from at most 20 %: every step keeps the same fraction. */
  lemma DischargeClosedForm(c: Rack, soc: real, setpointW: real, hours: real, k: real, n: nat)
    requires 0.0 <= soc <= 20.0 && setpointW >= c.powerLimitW && hours >= 0.0
    requires c.powerLimitW * hours <= 200.0 * c.capacityKwh && Keeps(c, hours, 200.0, k)
    ensures Held(c, soc, setpointW, hours, n) == soc * Pow(k, n)
  {
    DischargeContracts(c, setpointW, hours, k);
    Geometric(HeldStep(c, setpointW, hours), 0.0, 20.0, 0.0, k, soc, n);
  }

  /** Within the step bound a non-empty rack runs dry if and only if the bound is
      met exactly. */
  lemma RunsDryOnlyAtTheBound(c: Rack, soc: real, setpointW: real, hours: real)
    requires 0.0 < soc <= 20.0 && setpointW >= c.powerLimitW && hours >= 0.0
    requires c.powerLimitW * hours <= 200.0 * c.capacityKwh
    ensures (exists n :: Held(c, soc, setpointW, hours, n) == 0.0) <==> c.powerLimitW * hours == 200.0 * c.capacityKwh
  {
    if c.powerLimitW * hours == 200.0 * c.capacityKwh {
      assert Pow(0.0, 1) == 0.0;
      DischargeClosedForm(c, soc, setpointW, hours, 0.0, 1);
    } else {
      forall n
        ensures Held(c, soc, setpointW, hours, n) > 0.0
      {
        NeverRunsDry(c, soc, setpointW, hours, n);
      }
    }
  }

  lemma NeverRunsDry(c: Rack, soc: real, setpointW: real, hours: real, n: nat)
    requires 0.0 < soc <= 20.0 && setpointW >= c.powerLimitW && hours >= 0.0
    requires c.powerLimitW * hours < 200.0 * c.capacityKwh
    ensures Held(c, soc, setpointW, hours, n) > 0.0
  {
    var k := KeptFraction(c, hours, 200.0);
    DischargeClosedForm(c, soc, setpointW, hours, k, n);
    ProductIsPositive(soc, Pow(k, n));
  }

  lemma KeptFraction(c: Rack, hours: real, percent: real) returns (k: real)
    requires percent > 0.0 && c.powerLimitW * hours < percent * c.capacityKwh
    ensures Keeps(c, hours, percent, k) && k > 0.0
  {
    var w := percent * c.capacityKwh;
    k := 1.0 - c.powerLimitW * hours / w;
    assert w * (1.0 - k) == c.powerLimitW * hours;
    if k <= 0.0 {
      MulMonotone(1.0, 1.0 - k, w);
    }
  }

  lemma ProductIsPositive(x: real, y: real)
    requires x > 0.0 && y > 0.0
    ensures x * y > 0.0
  {
  }

  lemma SaturatedChargeStep(c: Rack, soc: real, setpointW: real, hours: real, k: real)
    requires 90.0 <= soc <= 100.0 && setpointW <= -c.powerLimitW && hours >= 0.0
    requires c.powerLimitW * hours <= 100.0 * c.capacityKwh && Keeps(c, hours, 100.0, k)
    ensures 100.0 - Drained(c, soc, Deliverable(c, soc, setpointW), hours) == (100.0 - soc) * k
  {
    var rated, room := c.powerLimitW, 100.0 - soc;
    var p := Deliverable(c, soc, setpointW);
    DischargeIsBounded(rated, soc);
    ChargeIsBounded(rated, soc);
    ChargeTaper(rated, soc);
    assert p == -MaxChargeW(rated, soc);
    DrainInWh(c, soc, p, hours);
    KeptInWh(c, hours, 100.0, k, room);
    var after := Drained(c, soc, p, hours);
    assert 10.0 * (-p * hours) == rated * room * hours == rated * hours * room;
    RoomStored(c, soc, after, p * hours);
    SameStored(c, 100.0 - after, room * k);
  }

  lemma ChargeHeldStep(c: Rack, soc: real, setpointW: real, hours: real, k: real)
    requires 90.0 <= soc <= 100.0 && setpointW <= -c.powerLimitW && hours >= 0.0
    requires c.powerLimitW * hours <= 100.0 * c.capacityKwh && Keeps(c, hours, 100.0, k)
    ensures 90.0 <= HeldStep(c, setpointW, hours)(soc) <= 100.0
    ensures HeldStep(c, setpointW, hours)(soc) - 100.0 == (soc - 100.0) * k
  {
    var p := Deliverable(c, soc, setpointW);
    ChargeIsBounded(c.powerLimitW, soc);
    DeliverableIsAllowed(c, soc, setpointW);
    SaturatedChargeStep(c, soc, setpointW, hours, k);
    NeverAboveFull(c, soc, p, hours);
    FollowsPower(c, soc, p, hours);
    Flipped(Drained(c, soc, p, hours), soc, k);
  }

  lemma RoomStored(c: Rack, soc: real, after: real, wh: real)
    requires StoredWh(c, after) == StoredWh(c, soc) - wh
    ensures StoredWh(c, 100.0 - after) == StoredWh(c, 100.0 - soc) + wh
  {
    var k := 10.0 * c.capacityKwh;
    assert k * (100.0 - after) == k * 100.0 - k * after;
    assert k * (100.0 - soc) == k * 100.0 - k * soc;
  }

  lemma ChargeContracts(c: Rack, setpointW: real, hours: real, k: real)
    requires setpointW <= -c.powerLimitW && hours >= 0.0
    requires c.powerLimitW * hours <= 100.0 * c.capacityKwh && Keeps(c, hours, 100.0, k)
    ensures Contracts(HeldStep(c, setpointW, hours), 90.0, 100.0, 100.0, k)
  {
    var f := HeldStep(c, setpointW, hours);
    forall y | 90.0 <= y <= 100.0
      ensures 90.0 <= f(y) <= 100.0 && f(y) - 100.0 == (y - 100.0) * k
    {
      ChargeHeldStep(c, y, setpointW, hours, k);
    }
  }

  lemma Flipped(x: real, y: real, k: real)
    ensures 100.0 - x == (100.0 - y) * k <==> x - 100.0 == (y - 100.0) * k
  {
    assert (100.0 - y) * k == -((y - 100.0) * k);
  }

  lemma RoomShrinks(f: real -> real, k: real, x: real, n: nat)
    requires 90.0 <= x <= 100.0 && Contracts(f, 90.0, 100.0, 100.0, k)
    ensures 100.0 - Iterate(f, x, n) == (100.0 - x) * Pow(k, n)
  {
    Geometric(f, 90.0, 100.0, 100.0, k, x, n);
    Flipped(Iterate(f, x, n), x, Pow(k, n));
  }

  /** Charging flat out from at least 90 %: the room left shrinks by a constant
      factor, so the rack approaches full and never overshoots. */
  lemma ChargeClosedForm(c: Rack, soc: real, setpointW: real, hours: real, k: real, n: nat)
    requires 90.0 <= soc <= 100.0 && setpointW <= -c.powerLimitW && hours >= 0.0
    requires c.powerLimitW * hours <= 100.0 * c.capacityKwh && Keeps(c, hours, 100.0, k)
    ensures 100.0 - Held(c, soc, setpointW, hours, n) == (100.0 - soc) * Pow(k, n)
  {
    ChargeContracts(c, setpointW, hours, k);
    RoomShrinks(HeldStep(c, setpointW, hours), k, soc, n);
  }
}
