/** The register map behind a Modbus server, its external writers and its guarded
    internal writers (mock-modbus-server/src/handler.rs, rack_registers.rs). */
module MeterHandlers {
  import opened Numbers
  import opened Registers

  datatype ExceptionCode = IllegalFunction | IllegalDataAddress

  datatype Result<+T> = Ok(value: T) | Err(error: ExceptionCode)

  class MeterHandler {
    var holding: Registers
    var input: Registers
    var driven: set<u16>
    var writable: bool

    constructor (holding: Registers)
      ensures this.holding == holding && input == map[] && driven == {} && !writable
    {
      this.holding := holding;
      input := map[];
      driven := {};
      writable := false;
    }

    /** `apply_writes`: iterate the batch in any order, write and mark. */
    method ApplyWrites(registers: Registers)
      modifies `holding, `driven
      ensures holding == old(holding) + registers
      ensures driven == old(driven) + registers.Keys
    {
      var todo := registers.Keys;
      while todo != {}
        invariant todo <= registers.Keys
        invariant holding == old(holding) + (registers - todo)
        invariant driven == old(driven) + (registers.Keys - todo)
        decreases todo
      {
        var address :| address in todo;
        ghost var done := registers - todo;
        todo := todo - {address};
        assert registers - todo == done[address := registers[address]];
        holding := holding[address := registers[address]];
        driven := driven + {address};
      }
      assert registers - todo == registers;
    }

    method ReadHoldingRegister(address: u16) returns (r: Result<u16>)
      ensures r == if address in holding then Ok(holding[address]) else Err(IllegalDataAddress)
    {
      if address in holding {
        return Ok(holding[address]);
      }
      return Err(IllegalDataAddress);
    }

    method ReadInputRegister(address: u16) returns (r: Result<u16>)
      ensures r == if address in input then Ok(input[address]) else Err(IllegalDataAddress)
    {
      if address in input {
        return Ok(input[address]);
      }
      return Err(IllegalDataAddress);
    }

    /** Function code 6. */
    method WriteSingleRegister(write: Indexed) returns (r: Result<()>)
      modifies `holding, `driven
      ensures r == if writable then Ok(()) else Err(IllegalFunction)
      ensures r.Ok? ==> holding == old(holding)[write.index := write.value]
      ensures r.Ok? ==> driven == old(driven) + {write.index}
      ensures r.Err? ==> holding == old(holding) && driven == old(driven)
    {
      if !writable {
        return Err(IllegalFunction);
      }
      holding := holding[write.index := write.value];
      driven := driven + {write.index};
      return Ok(());
    }

    /** Function code 16: every write in order, the last to an address winning. */
    method WriteMultipleRegisters(writes: seq<Indexed>) returns (r: Result<()>)
      modifies `holding, `driven
      ensures r == if writable then Ok(()) else Err(IllegalFunction)
      ensures r.Ok? ==> holding == Written(old(holding), writes)
      ensures r.Ok? ==> driven == old(driven) + Addresses(writes)
      ensures r.Ok? ==> forall a :: a in driven <==> a in old(driven) || exists w | w in writes :: w.index == a
      ensures r.Err? ==> holding == old(holding) && driven == old(driven)
    {
      if !writable {
        return Err(IllegalFunction);
      }
      for n := 0 to |writes|
        invariant holding == Written(old(holding), writes[..n])
        invariant driven == old(driven) + Addresses(writes[..n])
      {
        assert writes[..n + 1][..n] == writes[..n];
        holding := holding[writes[n].index := writes[n].value];
        driven := driven + {writes[n].index};
      }
      assert writes[..|writes|] == writes;
      forall a
        ensures a in Addresses(writes) <==> exists w | w in writes :: w.index == a
      {
        AddressesAre(writes, a);
      }
      return Ok(());
    }

    // ----- Internal writers -----

    method PutWord(address: u16, value: u16)
      modifies `holding
      ensures holding == Put(old(holding), driven, address, value)
    {
      if address !in driven {
        holding := holding[address := value];
      }
    }

    method PutDouble(address: u16, value: i32)
      requires address + 1 < U16_LIMIT
      modifies `holding
      ensures holding == PutI32(old(holding), driven, address, value)
    {
      if address in driven || address + 1 in driven {
        return;
      }
      var raw := value % U32_LIMIT;
      holding := holding[address := raw / U16_LIMIT];
      holding := holding[address + 1 := raw % U16_LIMIT];
      assert raw % U16_LIMIT == value % U16_LIMIT;
    }

    /** `write_poi_power`; the float's 32 bits are an argument. */
    method WritePoiPower(bits: u32)
      modifies `holding
      ensures holding == PutPair(old(holding), driven, POI_ACTIVE_POWER, bits / U16_LIMIT, bits % U16_LIMIT)
      ensures 3060 !in driven && 3061 !in driven ==>
                3060 in holding && 3061 in holding && holding[3060] as int * 65536 + holding[3061] == bits
      ensures forall a: u16 | a != 3060 && a != 3061 :: a in holding <==> a in old(holding)
      ensures forall a: u16 | a != 3060 && a != 3061 && a in holding :: holding[a] == old(holding[a])
    {
      if POI_ACTIVE_POWER in driven || POI_ACTIVE_POWER + 1 in driven {
        return;
      }
      holding := holding[POI_ACTIVE_POWER := bits / U16_LIMIT];
      holding := holding[POI_ACTIVE_POWER + 1 := bits % U16_LIMIT];
    }
  }

  const POI_ACTIVE_POWER: u16 := 3060
}
