/** The two-word sawtooth channels of mock-modbus-server/src/simulator.rs. */
module Sawtooth {
  import opened Numbers
  import opened Registers
  import opened MeterHandlers

  datatype Channel = Channel(high: u16, low: u16, min: u32, max: u32, step: u32)

  /** The low words of kwh_delivered. */
  const KWH_DELIVERED := Channel(3206, 3207, 1_000_000, 1_010_000, 100)

  function SaturatingAdd(x: u32, y: u32): (r: u32) {
    if x + y < U32_LIMIT then x + y else U32_LIMIT - 1
  }

  function Advance(ch: Channel, value: u32): (r: u32) {
    var next := SaturatingAdd(value, ch.step);
    if next > ch.max then ch.min else next
  }

  function PairAt(holding: Registers, ch: Channel): (r: u32) {
    Unsigned(WordAt(holding, ch.high), WordAt(holding, ch.low))
  }

  predicate Frozen(driven: set<u16>, ch: Channel) {
    ch.high in driven || ch.low in driven
  }

  function TickChannel(holding: Registers, driven: set<u16>, ch: Channel): (r: Registers) {
    if Frozen(driven, ch) then holding
    else
      var value := Advance(ch, PairAt(holding, ch));
      holding[ch.high := value / U16_LIMIT][ch.low := value % U16_LIMIT]
  }

  /** What a tick leaves: every channel in order. */
  function Ticked(holding: Registers, driven: set<u16>, channels: seq<Channel>): (r: Registers) {
    if channels == [] then holding
    else TickChannel(Ticked(holding, driven, channels[..|channels| - 1]), driven, channels[|channels| - 1])
  }

  /** `Simulator::tick`. */
  method Tick(h: MeterHandler, channels: seq<Channel>)
    modifies h`holding
    ensures h.holding == Ticked(old(h.holding), h.driven, channels)
  {
    for n := 0 to |channels|
      invariant h.holding == Ticked(old(h.holding), h.driven, channels[..n])
    {
      var sim := channels[n];
      assert channels[..n + 1][..n] == channels[..n];
      if sim.high in h.driven || sim.low in h.driven {
        continue;
      }
      var high := WordAt(h.holding, sim.high);
      var low := WordAt(h.holding, sim.low);
      var value := SaturatingAdd(high * U16_LIMIT + low, sim.step);
      if value > sim.max {
        value := sim.min;
      }
      h.holding := h.holding[sim.high := value / U16_LIMIT];
      h.holding := h.holding[sim.low := value % U16_LIMIT];
    }
    assert channels[..|channels|] == channels;
  }

  /** Driven addresses and addresses of no channel keep their words. */
  lemma {:induction false} TickFrame(holding: Registers, driven: set<u16>, channels: seq<Channel>, a: u16)
    requires a in driven || forall ch | ch in channels :: a != ch.high && a != ch.low
    ensures a in Ticked(holding, driven, channels) <==> a in holding
    ensures WordAt(Ticked(holding, driven, channels), a) == WordAt(holding, a)
  {
    if channels != [] {
      var init, last := channels[..|channels| - 1], channels[|channels| - 1];
      assert last in channels && forall ch | ch in init :: ch in channels;
      TickFrame(holding, driven, init, a);
    }
  }

  lemma {:induction false} TickGrows(holding: Registers, driven: set<u16>, channels: seq<Channel>)
    ensures holding.Keys <= Ticked(holding, driven, channels).Keys
  {
    if channels != [] {
      TickGrows(holding, driven, channels[..|channels| - 1]);
    }
  }

  /** The split words of a channel decode to the advanced value. */
  lemma TickAdvances(holding: Registers, driven: set<u16>, ch: Channel)
    requires ch.high != ch.low && !Frozen(driven, ch)
    ensures PairAt(Ticked(holding, driven, [ch]), ch) == Advance(ch, PairAt(holding, ch))
  {
    assert [ch][..0] == [];
    assert Ticked(holding, driven, [ch]) == TickChannel(holding, driven, ch);
  }

  // ----- Closed form -----

  /** The value after `n` ticks from the lower bound. */
  function Saw(ch: Channel, n: nat): (r: u32) {
    if n == 0 then ch.min else Advance(ch, Saw(ch, n - 1))
  }

  predicate Proper(ch: Channel) {
    ch.min <= ch.max && ch.step >= 1
  }

  function Period(ch: Channel): (p: nat)
    requires Proper(ch)
    ensures p >= 1
    ensures ch.min + (p - 1) * ch.step <= ch.max < ch.min + p * ch.step
  {
    (ch.max - ch.min) / ch.step + 1
  }

  /** The ideal sawtooth. */
  function Ideal(ch: Channel, n: nat): (r: int)
    requires Proper(ch)
  {
    ch.min + (n % Period(ch)) * ch.step
  }

  lemma StepsBelow(i: nat, p: nat, step: nat)
    requires i + 1 < p
    ensures (i + 1) * step <= (p - 1) * step
  {
  }

  lemma NextRemainder(n: nat, p: nat)
    requires n > 0 && p > 0
    ensures n % p == if (n - 1) % p + 1 == p then 0 else (n - 1) % p + 1
  {
    var q, r := (n - 1) / p, (n - 1) % p;
    if r + 1 == p {
      assert n == p * (q + 1);
      QuotientUnique(n, p, q + 1, 0);
    } else {
      QuotientUnique(n, p, q, r + 1);
    }
  }

  /** One tick moves the ideal value along, provided the bound is below the top
      of the 32-bit range. */
  lemma IdealAdvances(ch: Channel, n: nat)
    requires Proper(ch) && ch.max < U32_LIMIT - 1 && n > 0
    ensures 0 <= Ideal(ch, n - 1) <= ch.max && Advance(ch, Ideal(ch, n - 1)) == Ideal(ch, n)
  {
    var p := Period(ch);
    var r := (n - 1) % p;
    NextRemainder(n, p);
    assert r * ch.step + ch.step == (r + 1) * ch.step;
    assert Ideal(ch, n - 1) + ch.step == ch.min + (r + 1) * ch.step;
    if r + 1 == p {
      assert Ideal(ch, n - 1) == ch.min + (p - 1) * ch.step;
    } else {
      StepsBelow(r, p, ch.step);
    }
  }

  lemma {:induction false} SawIsIdeal(ch: Channel, n: nat)
    requires Proper(ch) && ch.max < U32_LIMIT - 1
    ensures Saw(ch, n) == Ideal(ch, n)
  {
    if n == 0 {
      QuotientUnique(0, Period(ch), 0, 0);
    } else {
      SawIsIdeal(ch, n - 1);
      IdealAdvances(ch, n);
    }
  }

  /** At the top of the range the saturating addition sticks. */
  lemma {:induction false} StuckAtTheTop(ch: Channel, n: nat)
    requires Proper(ch) && ch.max == U32_LIMIT - 1
    ensures ch.min <= Saw(ch, n) && (n > 0 && ch.min < ch.max ==> ch.min < Saw(ch, n))
  {
    if n > 0 {
      StuckAtTheTop(ch, n - 1);
    }
  }

  /** The channel is the ideal sawtooth for ever if and only if its bound is
      below 2^32 - 1, or it has only one value. */
  lemma SawtoothClosedForm(ch: Channel)
    requires Proper(ch)
    ensures (forall n: nat :: Saw(ch, n) == Ideal(ch, n)) <==> ch.max < U32_LIMIT - 1 || ch.min == ch.max
  {
    if ch.max < U32_LIMIT - 1 {
      forall n: nat
        ensures Saw(ch, n) == Ideal(ch, n)
      {
        SawIsIdeal(ch, n);
      }
    } else {
      var p := Period(ch);
      StuckAtTheTop(ch, p);
      QuotientUnique(p, p, 1, 0);
      if ch.min == ch.max {
        forall n: nat
          ensures Saw(ch, n) == Ideal(ch, n)
        {
          OneValue(ch, n);
        }
      }
    }
  }

  lemma AtLeast(k: nat, step: nat)
    ensures k >= 1 ==> k * step >= step
  {
  }

  lemma {:induction false} OneValue(ch: Channel, n: nat)
    requires Proper(ch) && ch.min == ch.max == U32_LIMIT - 1
    ensures Saw(ch, n) == Ideal(ch, n) == ch.min
  {
    AtLeast(Period(ch) - 1, ch.step);
    if n > 0 {
      OneValue(ch, n - 1);
    }
  }
}
