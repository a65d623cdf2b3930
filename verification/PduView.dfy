/** The PDU's readings and their PDU2-MIB mirror (mock-snmp-agent/src/oids.rs,
    raritan.rs, simulator.rs, pdu_load.rs). */
module PduView {
  import opened Numbers
  import opened Oids
  import opened Control

  // ----- OIDs -----

  /** Where the seven mirrored readings live: 0 input power, 1-3 line currents,
      4-6 phase voltages; `source` in Sentry4-MIB, `target` in PDU2-MIB; and the
      unit conversions, between the two views and from a load to a current. */
  datatype OidLayout = OidLayout(
    source: seq<Oid>, target: seq<Oid>, slot: Oid -> int,
    milliAmps: i64 -> i64, lineVolts: i64 -> i64, centiAmps: (real, i64) -> i64)
  {
    /** The fixture's own conversions. */
    ghost predicate Shipped() {
      milliAmps == MilliAmps && lineVolts == LineVolts && centiAmps == CentiAmps
    }

    /** The two MIBs share no OID and each reading has its own: `slot` tells
        the fourteen apart. */
    ghost predicate Distinct() {
      && |source| == |target| == 7
      && (forall i | 0 <= i < 7 :: slot(source[i]) == i)
      && (forall i | 0 <= i < 7 :: slot(target[i]) == 7 + i)
      && slot([]) == -1
    }
  }

  /** Everything below holds for every layout without collisions. */
  type Layout = l: OidLayout | l.Distinct() witness ShippedLayout()

  /** Sentry4-MIB: table 3 input power, 4 line current, 5 phase voltage. */
  function Sentry4(table: u32, tail: Oid): (r: Oid) {
    [1, 3, 6, 1, 4, 1, 1718, 4, 1, table, 3, 1, 3, 1, 1] + tail
  }

  function InletPower(): (r: Oid) {
    [1, 3, 6, 1, 4, 1, 13742, 6, 5, 2, 3, 1, 4, 1, 1, 5]
  }

  function Pole(pole: u32, sensor: u32): (r: Oid) {
    [1, 3, 6, 1, 4, 1, 13742, 6, 5, 2, 4, 1, 4, 1, 1, pole, sensor]
  }

  function Slot(o: Oid): (r: int) {
    if |o| < 15 then -1
    else if o[6] == 1718 then
      if o[9] == 3 then 0 else if |o| < 16 then -1 else (if o[9] == 4 then 0 else 3) + Arc(o, 15)
    else if |o| < 16 then -1
    else if o[10] == 3 then 7
    else if |o| < 17 then -1
    else (if o[16] == 1 then 7 else 10) + Arc(o, 15)
  }

  function Arc(o: Oid, i: nat): (r: int)
    requires i < |o|
  {
    o[i]
  }

  /** The fixture's own layout. */
  function ShippedLayout(): (l: OidLayout)
    ensures l.Distinct() && l.Shipped()
  {
    var source := [Sentry4(3, []), Sentry4(4, [1]), Sentry4(4, [2]), Sentry4(4, [3]),
                   Sentry4(5, [1]), Sentry4(5, [2]), Sentry4(5, [3])];
    var target := [InletPower(), Pole(1, 1), Pole(2, 1), Pole(3, 1), Pole(1, 4), Pole(2, 4), Pole(3, 4)];
    ShippedSlots();
    OidLayout(source, target, Slot, MilliAmps, LineVolts, CentiAmps)
  }

  lemma ShippedSlots()
    ensures Slot(Sentry4(3, [])) == 0 && Slot(InletPower()) == 7 && Slot([]) == -1
    ensures forall p: u32 :: Slot(Sentry4(4, [p])) == p && Slot(Sentry4(5, [p])) == p + 3
    ensures forall p: u32 :: Slot(Pole(p, 1)) == p + 7 && Slot(Pole(p, 4)) == p + 10
  {
  }

  /** The fourteen OIDs, arc by arc; the L1 current is the one that drifts. */
  lemma ShippedOids()
    ensures ShippedLayout().source == [
      [1, 3, 6, 1, 4, 1, 1718, 4, 1, 3, 3, 1, 3, 1, 1],
      [1, 3, 6, 1, 4, 1, 1718, 4, 1, 4, 3, 1, 3, 1, 1, 1],
      [1, 3, 6, 1, 4, 1, 1718, 4, 1, 4, 3, 1, 3, 1, 1, 2],
      [1, 3, 6, 1, 4, 1, 1718, 4, 1, 4, 3, 1, 3, 1, 1, 3],
      [1, 3, 6, 1, 4, 1, 1718, 4, 1, 5, 3, 1, 3, 1, 1, 1],
      [1, 3, 6, 1, 4, 1, 1718, 4, 1, 5, 3, 1, 3, 1, 1, 2],
      [1, 3, 6, 1, 4, 1, 1718, 4, 1, 5, 3, 1, 3, 1, 1, 3]]
    ensures ShippedLayout().target == [
      [1, 3, 6, 1, 4, 1, 13742, 6, 5, 2, 3, 1, 4, 1, 1, 5],
      [1, 3, 6, 1, 4, 1, 13742, 6, 5, 2, 4, 1, 4, 1, 1, 1, 1],
      [1, 3, 6, 1, 4, 1, 13742, 6, 5, 2, 4, 1, 4, 1, 1, 2, 1],
      [1, 3, 6, 1, 4, 1, 13742, 6, 5, 2, 4, 1, 4, 1, 1, 3, 1],
      [1, 3, 6, 1, 4, 1, 13742, 6, 5, 2, 4, 1, 4, 1, 1, 1, 4],
      [1, 3, 6, 1, 4, 1, 13742, 6, 5, 2, 4, 1, 4, 1, 1, 2, 4],
      [1, 3, 6, 1, 4, 1, 13742, 6, 5, 2, 4, 1, 4, 1, 1, 3, 4]]
  {
    assert Sentry4(3, []) == [1, 3, 6, 1, 4, 1, 1718, 4, 1, 3, 3, 1, 3, 1, 1];
    assert forall p: u32 :: Sentry4(4, [p]) == [1, 3, 6, 1, 4, 1, 1718, 4, 1, 4, 3, 1, 3, 1, 1, p];
    assert forall p: u32 :: Sentry4(5, [p]) == [1, 3, 6, 1, 4, 1, 1718, 4, 1, 5, 3, 1, 3, 1, 1, p];
  }

  // ----- Unit conversions -----

  /** Hundredths of an amp to milliamps, in 64-bit arithmetic that wraps. */
  function MilliAmps(x: i64): (r: i64) {
    WrapI64(x as int * 10)
  }

  /** The product is exact if and only if it fits 64 bits. */
  lemma MilliAmpsExact(x: i64)
    ensures MilliAmps(x) == 10 * x as int <==> -I64_LIMIT <= 10 * x as int < I64_LIMIT
  {
  }

  /** `a / 10 * sqrt(3) >= v - 1/2`, squared. */
  predicate Reaches(a: nat, v: nat) {
    v == 0 || 25 * Square(2 * v - 1) <= 3 * Square(a)
  }

  function Square(n: nat): (r: nat) {
    n * n
  }

  /** `a / 10 * sqrt(3)` rounded to the nearest integer. */
  function LineMagnitude(a: nat): (v: nat)
    ensures v <= a
  {
    if a == 0 then 0
    else
      var v := LineMagnitude(a - 1);
      if Reaches(a, v + 1) then v + 1 else v
  }

  /** Tenths of a phase volt to whole line-to-line volts, `round(d / 10 * sqrt(3))`. */
  function LineVolts(d: i64): (r: i64) {
    if d < 0 then -(LineMagnitude(-(d as int)) as int) else LineMagnitude(d)
  }

  /** The reading is the one nearest integer: `v - 1/2 <= a * sqrt(3) / 10 < v + 1/2`. */
  lemma {:induction false} LineMagnitudeIsNearest(a: nat, v: nat)
    ensures Reaches(a, v) && !Reaches(a, v + 1) <==> v == LineMagnitude(a)
  {
    LineMagnitudeReaches(a);
    var m := LineMagnitude(a);
    if v < m {
      ReachesDown(a, v + 1, m);
    } else if m < v {
      if Reaches(a, v) {
        ReachesDown(a, m + 1, v);
      }
    }
  }

  lemma {:induction false} LineMagnitudeReaches(a: nat)
    ensures Reaches(a, LineMagnitude(a)) && !Reaches(a, LineMagnitude(a) + 1)
  {
    if a > 0 {
      LineMagnitudeReaches(a - 1);
      StepAtMostOne(a, LineMagnitude(a - 1));
    }
  }

  lemma StepAtMostOne(a: nat, v: nat)
    requires a > 0 && Reaches(a - 1, v) && !Reaches(a - 1, v + 1)
    ensures Reaches(a, v) && !Reaches(a, v + 2)
  {
    SquareMonotone(a - 1, a);
    var b, x := a - 1, 2 * v + 1;
    assert 3 * Square(b) < 25 * Square(x) == Square(5 * x);
    if 5 * x <= b {
      SquareMonotone(5 * x, b);
      assert false;
    }
    assert Square(a) == Square(b) + 2 * b + 1;
    assert 25 * Square(x + 2) == 25 * Square(x) + 100 * x + 100;
  }

  lemma ReachesDown(a: nat, v: nat, w: nat)
    requires v <= w && Reaches(a, w)
    ensures Reaches(a, v)
  {
    if v > 0 {
      SquareMonotone(2 * v - 1, 2 * w - 1);
    }
  }

  lemma SquareMonotone(x: nat, y: nat)
    requires x <= y
    ensures Square(x) <= Square(y)
  {
    assert y * y == x * x + (y - x) * (y + x);
  }

  // ----- The PDU2-MIB mirror -----

  function Convert(l: Layout, i: nat, x: i64): (r: i64)
    requires i < 7
  {
    if i == 0 then x else if i < 4 then l.milliAmps(x) else l.lineVolts(x)
  }

  /** One conditional insert of `mirror`. */
  function With(l: Layout, sentry4: Values, out: Values, i: nat): (r: Values)
    requires i < 7
  {
    if l.source[i] in sentry4 then out[l.target[i] := Convert(l, i, sentry4[l.source[i]])] else out
  }

  /** The mirror after input power and the first `p` poles. */
  function MirrorPoles(l: Layout, sentry4: Values, p: nat): (r: Values)
    requires p <= 3
  {
    if p == 0 then With(l, sentry4, map[], 0)
    else With(l, sentry4, With(l, sentry4, MirrorPoles(l, sentry4, p - 1), p), p + 3)
  }

  /** `mirror`: the PDU2-MIB readings for the Sentry4 ones present. */
  function Mirror(l: Layout, sentry4: Values): (r: Values) {
    MirrorPoles(l, sentry4, 3)
  }

  method MirrorMap(l: Layout, sentry4: Values) returns (out: Values)
    ensures out == Mirror(l, sentry4)
  {
    out := map[];
    if l.source[0] in sentry4 {
      out := out[l.target[0] := sentry4[l.source[0]]];
    }
    for p := 1 to 4
      invariant out == MirrorPoles(l, sentry4, p - 1)
    {
      if l.source[p] in sentry4 {
        out := out[l.target[p] := l.milliAmps(sentry4[l.source[p]])];
      }
      if l.source[p + 3] in sentry4 {
        out := out[l.target[p + 3] := l.lineVolts(sentry4[l.source[p + 3]])];
      }
    }
  }

  /** The mirror's keys, whatever it is computed from. */
  function MirrorKeys(l: Layout): (r: set<Oid>) {
    set k | k in l.target
  }

  /** The mirror carries reading `i`, converted, exactly when its source is
      there, and it carries nothing else. */
  lemma MirrorAt(l: Layout, sentry4: Values, i: nat)
    requires i < 7
    ensures l.target[i] in Mirror(l, sentry4) <==> l.source[i] in sentry4
    ensures l.source[i] in sentry4 ==> Mirror(l, sentry4)[l.target[i]] == Convert(l, i, sentry4[l.source[i]])
    ensures Mirror(l, sentry4).Keys <= MirrorKeys(l)
  {
    MirrorPolesAt(l, sentry4, 3, i);
  }

  lemma {:induction false} MirrorPolesAt(l: Layout, sentry4: Values, p: nat, i: nat)
    requires p <= 3 && i < 7
    ensures l.target[i] in MirrorPoles(l, sentry4, p) <==> (i <= p || 3 < i <= p + 3) && l.source[i] in sentry4
    ensures (i <= p || 3 < i <= p + 3) && l.source[i] in sentry4 ==>
              MirrorPoles(l, sentry4, p)[l.target[i]] == Convert(l, i, sentry4[l.source[i]])
    ensures MirrorPoles(l, sentry4, p).Keys <= MirrorKeys(l)
  {
    assert l.slot(l.target[i]) == 7 + i;
    if p > 0 {
      MirrorPolesAt(l, sentry4, p - 1, i);
      assert l.slot(l.target[p]) == 7 + p && l.slot(l.target[p + 3]) == 10 + p;
    }
  }

  lemma SourcesAreNotTargets(l: Layout, i: nat)
    requires i < 7
    ensures l.source[i] !in MirrorKeys(l)
  {
    assert l.slot(l.source[i]) == i;
    assert forall j | 0 <= j < 7 :: l.slot(l.target[j]) == 7 + j;
  }

  ghost predicate AgreeAt(l: Layout, v: Values, i: nat)
    requires i < 7
  {
    l.source[i] in v && l.target[i] in v && v[l.target[i]] == Convert(l, i, v[l.source[i]])
  }

  /** The PDU2-MIB view in `v` is complete and equals the mirror of its source. */
  ghost predicate Agree(l: Layout, v: Values) {
    forall i | 0 <= i < 7 :: AgreeAt(l, v, i)
  }

  ghost predicate HasSources(l: Layout, v: Values) {
    forall i | 0 <= i < 7 :: l.source[i] in v
  }

  /** Agreement is exactly being a fixed point of the mirror. */
  lemma AgreeIsFixpoint(l: Layout, v: Values)
    requires HasSources(l, v)
    ensures Agree(l, v) <==> v + Mirror(l, v) == v
  {
    if Agree(l, v) {
      AgreeAbsorbsMirror(l, v);
    } else if v + Mirror(l, v) == v {
      MirrorRestores(l, v);
    }
  }

  lemma AgreeAbsorbsMirror(l: Layout, v: Values)
    requires Agree(l, v)
    ensures v + Mirror(l, v) == v
  {
    forall k | k in Mirror(l, v)
      ensures k in v && v[k] == Mirror(l, v)[k]
    {
      MirrorAt(l, v, 0);
      var i :| 0 <= i < 7 && l.target[i] == k;
      assert AgreeAt(l, v, i);
      MirrorAt(l, v, i);
    }
  }

  /** Extending a map by its mirror restores agreement. */
  lemma MirrorRestores(l: Layout, v: Values)
    requires HasSources(l, v)
    ensures Agree(l, v + Mirror(l, v))
  {
    forall i | 0 <= i < 7
      ensures AgreeAt(l, v + Mirror(l, v), i)
    {
      assert l.source[i] in v;
      MirrorAt(l, v, i);
      SourcesAreNotTargets(l, i);
    }
  }

  // ----- Boot -----

  /** 10.8 kW; 15.00, 15.20, 14.80 A; 240.0, 239.5, 240.5 V. */
  const BOOT_READINGS: seq<i64> := [10_800, 1500, 1520, 1480, 2400, 2395, 2405]

  /** `sentry4_and_switch`, for any switch readings. */
  function BootReadings(l: Layout, switch: Values, n: nat): (r: Values)
    requires n <= 7
  {
    if n == 0 then switch else BootReadings(l, switch, n - 1)[l.source[n - 1] := BOOT_READINGS[n - 1]]
  }

  /** `initial_values`. */
  function InitialValues(l: Layout, switch: Values): (r: Values) {
    BootReadings(l, switch, 7) + Mirror(l, BootReadings(l, switch, 7))
  }

  lemma {:induction false} BootReadingsAt(l: Layout, switch: Values, n: nat, i: nat)
    requires i < n <= 7
    ensures l.source[i] in BootReadings(l, switch, n) && BootReadings(l, switch, n)[l.source[i]] == BOOT_READINGS[i]
  {
    assert l.slot(l.source[i]) == i && l.slot(l.source[n - 1]) == n - 1;
    if i < n - 1 {
      BootReadingsAt(l, switch, n - 1, i);
    }
  }

  /** At boot the two views agree and every reading has its boot value. */
  lemma BootAgrees(l: Layout, switch: Values)
    ensures Agree(l, InitialValues(l, switch)) && HasSources(l, InitialValues(l, switch))
    ensures forall i | 0 <= i < 7 :: InitialValues(l, switch)[l.source[i]] == BOOT_READINGS[i]
  {
    var b := BootReadings(l, switch, 7);
    forall i | 0 <= i < 7
      ensures l.source[i] in b && InitialValues(l, switch)[l.source[i]] == BOOT_READINGS[i]
    {
      BootReadingsAt(l, switch, 7, i);
      SourcesAreNotTargets(l, i);
      MirrorAt(l, b, i);
    }
    MirrorRestores(l, b);
  }

  /** The boot input power is the phases' volts times amps, to the nearest watt. */
  lemma BootPowerIsThePhases(l: Layout, switch: Values)
    ensures forall i | 0 <= i < 7 :: l.source[i] in InitialValues(l, switch)
    ensures
      var v := InitialValues(l, switch);
      var phases := v[l.source[1]] as int * v[l.source[4]] as int + v[l.source[2]] as int * v[l.source[5]] as int
                    + v[l.source[3]] as int * v[l.source[6]] as int;
      -500 <= 1000 * v[l.source[0]] as int - phases <= 500
  {
    BootAgrees(l, switch);
  }

  // ----- Drift -----

  const DRIFT_MIN := 1500
  const DRIFT_MAX := 1600
  const DRIFT_STEP := 5

  /** `Simulator::tick`: the L1 current sawtooth, skipped while driven. */
  function Tick(l: Layout, values: Values, driven: set<Oid>): (r: Values) {
    var oid := l.source[1];
    if oid in driven then values
    else
      var cur: int := if oid in values then values[oid] else DRIFT_MIN;
      values[oid := if cur + DRIFT_STEP > DRIFT_MAX then DRIFT_MIN else cur + DRIFT_STEP]
  }

  /** The drift task's critical section: a tick, then the mirror. */
  function Drifted(l: Layout, values: Values, driven: set<Oid>): (r: Values) {
    Tick(l, values, driven) + Mirror(l, Tick(l, values, driven))
  }

  /** A tick restores the PDU2-MIB view whatever was put there before, leaves
      every driven OID outside that view alone, and removes no key. */
  lemma DriftRestores(l: Layout, values: Values, driven: set<Oid>)
    requires HasSources(l, values)
    ensures Agree(l, Drifted(l, values, driven))
    ensures values.Keys <= Drifted(l, values, driven).Keys <= values.Keys + MirrorKeys(l)
    ensures forall k | k in values && k !in MirrorKeys(l) && (k in driven || k != l.source[1]) ::
              Drifted(l, values, driven)[k] == values[k]
  {
    var t := Tick(l, values, driven);
    assert l.source[1] in values;
    MirrorRestores(l, t);
    MirrorAt(l, t, 0);
  }

  /** The reading a tick will mirror: the source as it stands, but for the L1
      current, which an undriven tick advances first. */
  function NextReading(l: Layout, values: Values, driven: set<Oid>, i: nat): (x: i64)
    requires i < 7 && l.source[i] in values
  {
    var x := values[l.source[i]];
    if i != 1 || l.source[1] in driven then x
    else if x + DRIFT_STEP > DRIFT_MAX then DRIFT_MIN
    else x + DRIFT_STEP
  }

  /** What a tick leaves at a PDU2-MIB OID, driven or not, whatever was there. */
  lemma DriftShows(l: Layout, values: Values, driven: set<Oid>, i: nat)
    requires i < 7 && HasSources(l, values)
    ensures l.source[i] in values && l.target[i] in Drifted(l, values, driven)
    ensures Drifted(l, values, driven)[l.target[i]] == Convert(l, i, NextReading(l, values, driven, i))
  {
    assert l.source[i] in values;
    assert l.slot(l.source[i]) == i && l.slot(l.source[1]) == 1;
    MirrorAt(l, Tick(l, values, driven), i);
  }

  /** A driven PDU2-MIB OID survives a tick if and only if, in the map before the
      tick, it already shows its converted source (for an undriven L1 current, the
      source one step on). */
  lemma DrivenTargetSurvives(l: Layout, values: Values, driven: set<Oid>, i: nat)
    requires i < 7 && HasSources(l, values) && l.target[i] in values && l.target[i] in driven
    ensures l.source[i] in values && l.target[i] in Drifted(l, values, driven)
    ensures Drifted(l, values, driven)[l.target[i]] == values[l.target[i]]
       <==> values[l.target[i]] == Convert(l, i, NextReading(l, values, driven, i))
  {
    DriftShows(l, values, driven, i);
  }

  /** In the fixture's units a mirrored current is exactly ten times its source if
      and only if that fits 64 bits. */
  lemma MirroredCurrent(l: Layout, sentry4: Values, p: nat)
    requires l.Shipped() && 1 <= p <= 3 && l.source[p] in sentry4
    ensures l.target[p] in Mirror(l, sentry4)
    ensures Mirror(l, sentry4)[l.target[p]] == 10 * sentry4[l.source[p]] as int
       <==> -I64_LIMIT <= 10 * sentry4[l.source[p]] as int < I64_LIMIT
  {
    MirrorAt(l, sentry4, p);
    MilliAmpsExact(sentry4[l.source[p]]);
  }

  /** A mirrored voltage is the integer nearest to decivolts times sqrt(3) / 10. */
  lemma MirroredVoltage(l: Layout, sentry4: Values, p: nat)
    requires l.Shipped() && 1 <= p <= 3 && l.source[p + 3] in sentry4 && sentry4[l.source[p + 3]] >= 0
    ensures l.target[p + 3] in Mirror(l, sentry4)
    ensures IsLineVolts(sentry4[l.source[p + 3]], Mirror(l, sentry4)[l.target[p + 3]])
  {
    MirrorAt(l, sentry4, p + 3);
    LineMagnitudeReaches(sentry4[l.source[p + 3]]);
  }

  /** A negative reading is converted like its magnitude. */
  lemma LineVoltsIsOdd(d: i64)
    requires -I64_LIMIT < d
    ensures LineVolts(-d) == -(LineVolts(d) as int)
  {
  }

  predicate IsLineVolts(decivolts: nat, volts: int) {
    volts >= 0 && Reaches(decivolts, volts) && !Reaches(decivolts, volts + 1)
  }

  // ----- Load following -----

  datatype PduLoad = PduLoad(nodes: real, share: real, baseW: real)

  function PowerW(load: PduLoad, nodeW: real): (r: real)
    requires load.share != 0.0
  {
    (load.nodes * nodeW + load.baseW) / load.share
  }

  /** `x.round() as i64`. */
  function RoundI64(x: real): (r: i64) {
    SaturateI64(Round(x))
  }

  /** A phase's hundredths of an amp; a zero voltage gives the float division's
      infinity or NaN, cast to an integer. */
  function CentiAmps(powerW: real, decivolts: i64): (r: i64) {
    if decivolts == 0 then
      if powerW > 0.0 then I64_LIMIT - 1 else if powerW < 0.0 then -I64_LIMIT else 0
    else RoundI64(IdealCentiAmps(powerW, decivolts))
  }

  function IdealCentiAmps(powerW: real, decivolts: i64): (r: real)
    requires decivolts != 0
  {
    powerW / 3.0 / (decivolts as real / 10.0) * 100.0
  }

  function DeciVolts(l: Layout, values: Values, phase: nat): (r: i64)
    requires 1 <= phase <= 3
  {
    if l.source[phase + 3] in values then values[l.source[phase + 3]] else 2400
  }

  /** The Sentry4 readings of a load: input power and the currents of the first
      `n` phases. */
  function LoadReadings(l: Layout, powerW: real, values: Values, n: nat): (r: Values)
    requires n <= 3
  {
    if n == 0 then map[l.source[0] := RoundI64(powerW)]
    else LoadReadings(l, powerW, values, n - 1)[l.source[n] := l.centiAmps(powerW, DeciVolts(l, values, n))]
  }

  /** `readings`, once the PDU's share of the load is known. */
  function ReadingsOf(l: Layout, powerW: real, values: Values): (r: Values) {
    var out := LoadReadings(l, powerW, values, 3);
    out + Mirror(l, out)
  }

  /** `readings`. */
  method Readings(l: Layout, load: PduLoad, nodeW: real, values: Values) returns (out: Values)
    requires load.share != 0.0
    ensures out == ReadingsOf(l, PowerW(load, nodeW), values)
  {
    var powerW := PowerW(load, nodeW);
    out := map[l.source[0] := RoundI64(powerW)];
    for phase := 1 to 4
      invariant out == LoadReadings(l, powerW, values, phase - 1)
    {
      var decivolts := if l.source[phase + 3] in values then values[l.source[phase + 3]] else 2400;
      out := out[l.source[phase] := l.centiAmps(powerW, decivolts)];
    }
    var raritan := MirrorMap(l, out);
    out := out + raritan;
  }

  lemma {:induction false} LoadReadingsAt(l: Layout, powerW: real, values: Values, n: nat, i: nat)
    requires n <= 3 && i < 7
    ensures l.source[i] in LoadReadings(l, powerW, values, n) <==> i <= n
    ensures 0 < i <= n ==>
              LoadReadings(l, powerW, values, n)[l.source[i]] == l.centiAmps(powerW, DeciVolts(l, values, i))
    ensures i == 0 ==> LoadReadings(l, powerW, values, n)[l.source[0]] == RoundI64(powerW)
    ensures l.target[i] !in LoadReadings(l, powerW, values, n)
  {
    assert l.slot(l.source[i]) == i && l.slot(l.source[n]) == n && l.slot(l.source[0]) == 0;
    assert l.slot(l.target[i]) == 7 + i;
    if n > 0 {
      LoadReadingsAt(l, powerW, values, n - 1, i);
    }
  }

  /** Storing readings, even ones computed from an older map, keeps the two
      views in agreement. */
  lemma StoreKeepsAgreement(l: Layout, v: Values, powerW: real, snapshot: Values)
    requires Agree(l, v)
    ensures Agree(l, v + ReadingsOf(l, powerW, snapshot))
  {
    forall i | 0 <= i < 7
      ensures AgreeAt(l, v + ReadingsOf(l, powerW, snapshot), i)
    {
      assert AgreeAt(l, v, i);
      LoadReadingsAt(l, powerW, snapshot, 3, i);
      MirrorAt(l, LoadReadings(l, powerW, snapshot, 3), i);
      SourcesAreNotTargets(l, i);
    }
  }

  // ----- Power carried by the reported currents -----

  predicate Within(x: real, centre: real, slack: real) {
    -slack <= x - centre <= slack
  }

  /** The voltage phase `p` is reckoned with: its own reading of the map, 240.0 V
      when that is absent. */
  predicate AtVoltage(l: Layout, values: Values, p: nat, d: i64)
    requires 1 <= p <= 3
  {
    d == if l.source[p + 3] in values then values[l.source[p + 3]] else 2400
  }

  /** The phase's ideal current fits 64 bits. */
  predicate PhaseInRange(powerW: real, d: i64) {
    d > 0 && -I64_LIMIT <= Round(IdealCentiAmps(powerW, d)) < I64_LIMIT
  }

  /** `centiamps` at `decivolts` carry the watts `third` to within half a
      hundredth of an amp. */
  predicate PhaseCarries(centiamps: i64, decivolts: i64, third: real) {
    Within(centiamps as real * decivolts as real / 1000.0, third, decivolts as real / 2000.0)
  }

  lemma PhaseShare(powerW: real, d: i64)
    requires PhaseInRange(powerW, d)
    ensures PhaseCarries(CentiAmps(powerW, d), d, powerW / 3.0)
  {
    ShareInReals(powerW / 3.0, d as real, CentiAmps(powerW, d) as real);
  }

  lemma ShareInReals(third: real, d: real, c: real)
    requires d > 0.0 && Within(c, third / (d / 10.0) * 100.0, 0.5)
    ensures Within(c * d / 1000.0, third, d / 2000.0)
  {
    var q := third / (d / 10.0);
    var err := c - q * 100.0;
    var scaled := q * d;
    assert scaled == third * 10.0 by {
      assert q * (d / 10.0) == third;
    }
    assert c * d == 100.0 * scaled + err * d;
    ScaleBound(err, d);
  }

  lemma ScaleBound(err: real, d: real)
    requires -0.5 <= err <= 0.5 && d > 0.0
    ensures -(d / 2000.0) <= err * d / 1000.0 <= d / 2000.0
  {
    var scaled := err * d;
    assert (0.5 - err) * d == 0.5 * d - scaled && (err + 0.5) * d == scaled + 0.5 * d;
    assert (0.5 - err) * d >= 0.0 && (err + 0.5) * d >= 0.0;
  }

  lemma ReadingsAt(l: Layout, powerW: real, snapshot: Values, i: nat)
    requires i < 4
    ensures l.source[i] in ReadingsOf(l, powerW, snapshot)
    ensures ReadingsOf(l, powerW, snapshot)[l.source[i]] ==
            if i == 0 then RoundI64(powerW) else l.centiAmps(powerW, DeciVolts(l, snapshot, i))
  {
    LoadReadingsAt(l, powerW, snapshot, 3, i);
    SourcesAreNotTargets(l, i);
    MirrorAt(l, LoadReadings(l, powerW, snapshot, 3), i);
  }

  lemma CurrentAtVoltage(l: Layout, powerW: real, snapshot: Values, p: nat, d: i64)
    requires l.Shipped() && 1 <= p <= 3 && AtVoltage(l, snapshot, p, d)
    ensures l.source[p] in ReadingsOf(l, powerW, snapshot)
    ensures ReadingsOf(l, powerW, snapshot)[l.source[p]] == CentiAmps(powerW, d)
  {
    ReadingsAt(l, powerW, snapshot, p);
    assert DeciVolts(l, snapshot, p) == d;
  }

  /** One phase: the current reported in the readings, at the phase's own voltage
      in the map they were computed from, carries a third of the share. */
  lemma PhaseWattsBound(l: Layout, powerW: real, snapshot: Values, p: nat, d: i64)
    requires l.Shipped() && 1 <= p <= 3 && AtVoltage(l, snapshot, p, d) && PhaseInRange(powerW, d)
    ensures l.source[p] in ReadingsOf(l, powerW, snapshot)
    ensures PhaseCarries(ReadingsOf(l, powerW, snapshot)[l.source[p]], d, powerW / 3.0)
  {
    CurrentAtVoltage(l, powerW, snapshot, p, d);
    PhaseShare(powerW, d);
  }

  /** Three phases' currents at their voltages carry `powerW` to within half a
      hundredth of an amp each. */
  predicate LoadCarried(c1: i64, d1: i64, c2: i64, d2: i64, c3: i64, d3: i64, powerW: real) {
    Within(c1 as real * d1 as real / 1000.0 + c2 as real * d2 as real / 1000.0 + c3 as real * d3 as real / 1000.0,
           powerW, (d1 as real + d2 as real + d3 as real) / 2000.0)
  }

  lemma PhasesCarryLoad(c1: i64, d1: i64, c2: i64, d2: i64, c3: i64, d3: i64, powerW: real)
    requires PhaseCarries(c1, d1, powerW / 3.0) && PhaseCarries(c2, d2, powerW / 3.0)
    requires PhaseCarries(c3, d3, powerW / 3.0)
    ensures LoadCarried(c1, d1, c2, d2, c3, d3, powerW)
  {
    var x, y, z := c1 as real * d1 as real, c2 as real * d2 as real, c3 as real * d3 as real;
    SumWithin(x / 1000.0, y / 1000.0, z / 1000.0, powerW / 3.0, d1 as real / 2000.0, d2 as real / 2000.0,
              d3 as real / 2000.0);
  }

  lemma SumWithin(a: real, b: real, c: real, third: real, x: real, y: real, z: real)
    requires Within(a, third, x) && Within(b, third, y) && Within(c, third, z)
    ensures Within(a + b + c, 3.0 * third, x + y + z)
  {
  }

  /** The share of the load one PDU carries. */
  predicate IsShare(load: PduLoad, nodeW: real, powerW: real) {
    powerW * load.share == load.nodes * nodeW + load.baseW
  }

  /** The reported currents carry the PDU's share of the load to within half a
      hundredth of an amp per phase, each at its own voltage in the map they were
      computed from; the reported input power is within half a watt. */
  lemma PhasePowerBound(l: Layout, powerW: real, snapshot: Values, d1: i64, d2: i64, d3: i64)
    requires l.Shipped() && -I64_LIMIT <= Round(powerW) < I64_LIMIT
    requires AtVoltage(l, snapshot, 1, d1) && AtVoltage(l, snapshot, 2, d2) && AtVoltage(l, snapshot, 3, d3)
    requires PhaseInRange(powerW, d1) && PhaseInRange(powerW, d2) && PhaseInRange(powerW, d3)
    ensures
      var r := ReadingsOf(l, powerW, snapshot);
      && l.source[0] in r && l.source[1] in r && l.source[2] in r && l.source[3] in r
      && LoadCarried(r[l.source[1]], d1, r[l.source[2]], d2, r[l.source[3]], d3, powerW)
      && Within(r[l.source[0]] as real, powerW, 0.5)
  {
    var r := ReadingsOf(l, powerW, snapshot);
    PhaseWattsBound(l, powerW, snapshot, 1, d1);
    PhaseWattsBound(l, powerW, snapshot, 2, d2);
    PhaseWattsBound(l, powerW, snapshot, 3, d3);
    PhasesCarryLoad(r[l.source[1]], d1, r[l.source[2]], d2, r[l.source[3]], d3, powerW);
    ReadingsAt(l, powerW, snapshot, 0);
  }

  lemma ShareIsUnique(load: PduLoad, nodeW: real, powerW: real)
    requires load.share != 0.0
    ensures PowerW(load, nodeW) == powerW <==> IsShare(load, nodeW, powerW)
  {
    var q := PowerW(load, nodeW);
    assert q * load.share == load.nodes * nodeW + load.baseW;
    if IsShare(load, nodeW, powerW) {
      assert (q - powerW) * load.share == 0.0;
    }
  }

  /** What one poll stores carries the polled load, the share written out. */
  lemma PollCarriesLoad(l: Layout, load: PduLoad, nodeW: real, powerW: real, snapshot: Values,
                        d1: i64, d2: i64, d3: i64)
    requires l.Shipped() && load.share != 0.0 && IsShare(load, nodeW, powerW)
    requires -I64_LIMIT <= Round(powerW) < I64_LIMIT
    requires AtVoltage(l, snapshot, 1, d1) && AtVoltage(l, snapshot, 2, d2) && AtVoltage(l, snapshot, 3, d3)
    requires PhaseInRange(powerW, d1) && PhaseInRange(powerW, d2) && PhaseInRange(powerW, d3)
    ensures
      var r := ReadingsOf(l, PowerW(load, nodeW), snapshot);
      && l.source[0] in r && l.source[1] in r && l.source[2] in r && l.source[3] in r
      && LoadCarried(r[l.source[1]], d1, r[l.source[2]], d2, r[l.source[3]], d3, powerW)
      && Within(r[l.source[0]] as real, powerW, 0.5)
  {
    ShareIsUnique(load, nodeW, powerW);
    PhasePowerBound(l, powerW, snapshot, d1, d2, d3);
  }
}
