/** Modbus registers: 16-bit words in a map, two-word integers, and writes that
    respect the driven set (mock-modbus-server/src/rack_registers.rs). */
module Registers {
  import opened Numbers

  type Registers = map<u16, u16>

  // ----- Two words, high first -----

  function High(v: i32): (r: u16) {
    v % U32_LIMIT / U16_LIMIT
  }

  function Low(v: i32): (r: u16) {
    v % U16_LIMIT
  }

  function Unsigned(high: u16, low: u16): (r: u32) {
    high * U16_LIMIT + low
  }

  /** Two's complement. */
  function Signed(raw: u32): (r: i32) {
    if raw < I32_LIMIT then raw else raw - U32_LIMIT
  }

  /** Splitting an integer into words and joining them is the identity. */
  lemma WordsRoundTrip(v: i32)
    ensures Signed(Unsigned(High(v), Low(v))) == v
  {
    assert v % U32_LIMIT == if v < 0 then v + U32_LIMIT else v;
    assert v % U32_LIMIT == High(v) * U16_LIMIT + (v % U32_LIMIT) % U16_LIMIT;
  }

  // ----- Reads and guarded writes -----

  function WordAt(holding: Registers, addr: u16): (r: u16) {
    if addr in holding then holding[addr] else 0
  }

  function ReadU32(holding: Registers, addr: u16): (r: u32)
    requires addr + 1 < U16_LIMIT
  {
    Unsigned(WordAt(holding, addr), WordAt(holding, addr + 1))
  }

  /** `read_i32`. */
  function ReadI32(holding: Registers, addr: u16): (r: i32)
    requires addr + 1 < U16_LIMIT
  {
    Signed(ReadU32(holding, addr))
  }

  /** The signed integer whose low 32 bits are the two words, high word first,
      absent words counting as 0. */
  lemma ReadI32Exactly(holding: Registers, addr: u16)
    requires addr + 1 < U16_LIMIT
    ensures
      var high: int := if addr in holding then holding[addr] else 0;
      var low: int := if addr + 1 in holding then holding[addr + 1] else 0;
      (ReadI32(holding, addr) - (high * 65536 + low)) % 0x1_0000_0000 == 0
  {
  }

  /** What `put` leaves. */
  function Put(holding: Registers, driven: set<u16>, addr: u16, value: u16): (r: Registers) {
    if addr in driven then holding else holding[addr := value]
  }

  /** Either word of a pair is driven. */
  predicate PairDriven(driven: set<u16>, addr: u16)
    requires addr + 1 < U16_LIMIT
  {
    addr in driven || addr + 1 in driven
  }

  /** What a guarded two-word write leaves. */
  function PutPair(holding: Registers, driven: set<u16>, addr: u16, high: u16, low: u16): (r: Registers)
    requires addr + 1 < U16_LIMIT
  {
    if PairDriven(driven, addr) then holding else holding[addr := high][addr + 1 := low]
  }

  /** What `put_i32` leaves. */
  function PutI32(holding: Registers, driven: set<u16>, addr: u16, value: i32): (r: Registers)
    requires addr + 1 < U16_LIMIT
  {
    PutPair(holding, driven, addr, High(value), Low(value))
  }

  /** An undriven pair reads back what was put; a pair with either word driven
      keeps both words. */
  lemma PutI32ReadsBack(holding: Registers, driven: set<u16>, addr: u16, value: i32)
    requires addr + 1 < U16_LIMIT
    ensures ReadI32(PutI32(holding, driven, addr, value), addr) ==
            if PairDriven(driven, addr) then ReadI32(holding, addr) else value
  {
    WordsRoundTrip(value);
  }

  // ----- External writes -----

  datatype Indexed = Indexed(index: u16, value: u16)

  /** Writes in order, the last to an address winning. */
  function Written(holding: Registers, writes: seq<Indexed>): (r: Registers)
    ensures holding.Keys <= r.Keys
  {
    if writes == [] then holding
    else
      var last := writes[|writes| - 1];
      Written(holding, writes[..|writes| - 1])[last.index := last.value]
  }

  /** After a list of writes an address holds the last value written to it. */
  lemma {:induction false} WrittenHoldsLast(holding: Registers, writes: seq<Indexed>, i: nat)
    requires i < |writes| && forall j | i < j < |writes| :: writes[j].index != writes[i].index
    ensures writes[i].index in Written(holding, writes)
    ensures Written(holding, writes)[writes[i].index] == writes[i].value
  {
    if i < |writes| - 1 {
      WrittenHoldsLast(holding, writes[..|writes| - 1], i);
    }
  }

  /** The addresses a list of writes marks as driven. */
  function Addresses(writes: seq<Indexed>): (r: set<u16>) {
    if writes == [] then {} else Addresses(writes[..|writes| - 1]) + {writes[|writes| - 1].index}
  }

  lemma {:induction false} AddressesAre(writes: seq<Indexed>, a: u16)
    ensures a in Addresses(writes) <==> exists w | w in writes :: w.index == a
  {
    if writes != [] {
      var init, last := writes[..|writes| - 1], writes[|writes| - 1];
      AddressesAre(init, a);
      assert writes == init + [last];
    }
  }

  lemma {:induction false} WrittenIs(holding: Registers, writes: seq<Indexed>)
    ensures Written(holding, writes) == holding + Written(map[], writes)
    ensures Written(map[], writes).Keys == Addresses(writes)
  {
    if writes != [] {
      WrittenIs(holding, writes[..|writes| - 1]);
    }
  }

  /** `order` lists every address of the batch once. */
  ghost predicate Enumerates(registers: Registers, order: seq<Indexed>) {
    && (forall a :: a in registers <==> a in Addresses(order))
    && forall w | w in order :: w.index in registers && registers[w.index] == w.value
  }

  lemma {:induction false} EnumerationWrites(registers: Registers, order: seq<Indexed>)
    requires forall w | w in order :: w.index in registers && registers[w.index] == w.value
    ensures forall a | a in Addresses(order) ::
              a in Written(map[], order) && a in registers && Written(map[], order)[a] == registers[a]
  {
    if order != [] {
      var init, last := order[..|order| - 1], order[|order| - 1];
      assert last in order && forall w | w in init :: w in order;
      EnumerationWrites(registers, init);
      WrittenIs(map[], order);
    }
  }

  /** A batch leaves the same registers whatever order its map is iterated in. */
  lemma BatchOrderIrrelevant(holding: Registers, registers: Registers, order: seq<Indexed>)
    requires Enumerates(registers, order)
    ensures Written(holding, order) == holding + registers
  {
    WrittenIs(holding, order);
    EnumerationWrites(registers, order);
    assert Written(map[], order) == registers;
  }
}
