/** A rack's present charge and discharge limits
    (mock-modbus-server/src/derate.rs). */
module Derate {
  import opened Numbers

  const DISCHARGE_TAPER_BELOW_PERCENT := 20.0
  const CHARGE_TAPER_ABOVE_PERCENT := 90.0

  function MaxDischargeW(ratedW: real, soc: real): (r: real) {
    ratedW * Clamp(soc / DISCHARGE_TAPER_BELOW_PERCENT, 0.0, 1.0)
  }

  function MaxChargeW(ratedW: real, soc: real): (r: real) {
    ratedW * Clamp((100.0 - soc) / (100.0 - CHARGE_TAPER_ABOVE_PERCENT), 0.0, 1.0)
  }

  lemma MulMonotone(x: real, y: real, k: real)
    requires x <= y && k >= 0.0
    ensures x * k <= y * k
  {
  }

  lemma Scaled(ratedW: real, f: real)
    requires ratedW > 0.0 && 0.0 <= f <= 1.0
    ensures 0.0 <= ratedW * f <= ratedW
    ensures ratedW * f == 0.0 <==> f == 0.0
  {
  }

  /** A magnitude no greater than the rating, 0 W exactly when empty. */
  lemma DischargeIsBounded(ratedW: real, soc: real)
    requires ratedW > 0.0
    ensures 0.0 <= MaxDischargeW(ratedW, soc) <= ratedW
    ensures MaxDischargeW(ratedW, soc) == 0.0 <==> soc <= 0.0
  {
    Scaled(ratedW, Clamp(soc / DISCHARGE_TAPER_BELOW_PERCENT, 0.0, 1.0));
  }

  /** A magnitude no greater than the rating, 0 W exactly when full. */
  lemma ChargeIsBounded(ratedW: real, soc: real)
    requires ratedW > 0.0
    ensures 0.0 <= MaxChargeW(ratedW, soc) <= ratedW
    ensures MaxChargeW(ratedW, soc) == 0.0 <==> soc >= 100.0
  {
    Scaled(ratedW, Clamp((100.0 - soc) / (100.0 - CHARGE_TAPER_ABOVE_PERCENT), 0.0, 1.0));
  }

  /** Filling up never lowers the discharge limit nor raises the charge limit. */
  lemma LimitsAreMonotone(ratedW: real, low: real, high: real)
    requires ratedW > 0.0 && low <= high
    ensures MaxDischargeW(ratedW, low) <= MaxDischargeW(ratedW, high)
    ensures MaxChargeW(ratedW, low) >= MaxChargeW(ratedW, high)
  {
    var width := 100.0 - CHARGE_TAPER_ABOVE_PERCENT;
    MulMonotone(Clamp(low / DISCHARGE_TAPER_BELOW_PERCENT, 0.0, 1.0),
                Clamp(high / DISCHARGE_TAPER_BELOW_PERCENT, 0.0, 1.0), ratedW);
    MulMonotone(Clamp((100.0 - high) / width, 0.0, 1.0), Clamp((100.0 - low) / width, 0.0, 1.0), ratedW);
  }

  /** The discharge limit is the smaller of the rating and 5 % of it per percent. */
  lemma DischargeTaper(ratedW: real, soc: real)
    requires ratedW > 0.0 && 0.0 <= soc
    ensures 20.0 * MaxDischargeW(ratedW, soc) <= ratedW * soc
    ensures soc <= 20.0 ==> 20.0 * MaxDischargeW(ratedW, soc) == ratedW * soc
    ensures soc >= 20.0 ==> MaxDischargeW(ratedW, soc) == ratedW
  {
    var f := Clamp(soc / DISCHARGE_TAPER_BELOW_PERCENT, 0.0, 1.0);
    assert 20.0 * (ratedW * f) == ratedW * (20.0 * f);
    MulMonotone(20.0 * f, soc, ratedW);
  }

  /** The charge limit is the smaller of the rating and 10 % of it per percent missing. */
  lemma ChargeTaper(ratedW: real, soc: real)
    requires ratedW > 0.0 && soc <= 100.0
    ensures 10.0 * MaxChargeW(ratedW, soc) <= ratedW * (100.0 - soc)
    ensures soc >= 90.0 ==> 10.0 * MaxChargeW(ratedW, soc) == ratedW * (100.0 - soc)
    ensures soc <= 90.0 ==> MaxChargeW(ratedW, soc) == ratedW
  {
    var f := Clamp((100.0 - soc) / (100.0 - CHARGE_TAPER_ABOVE_PERCENT), 0.0, 1.0);
    assert 10.0 * (ratedW * f) == ratedW * (10.0 * f);
    MulMonotone(10.0 * f, 100.0 - soc, ratedW);
  }
}
