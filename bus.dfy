/**
 * The system bus (src/system/bus.rs): every access at or above DRAM_BASE goes
 * to main memory at the same width and the same address; an access below
 * DRAM_BASE names a peripheral that does not exist and is fatal.  The bus
 * itself checks no upper bound: accesses past the end fail in the RAM.
 */
module Bus {
  import opened Rv32
  import opened Ram

  class Bus {
    const memory: RAM

    /** Bus::new: a bus over freshly allocated, zeroed memory. */
    constructor ()
      ensures fresh(memory)
      ensures memory.bytes == seq(DRAM_SIZE, _ => 0)
    {
      memory := new RAM();
    }

    function Load8(address: Word): (r: Result<Byte>)
      reads memory
      ensures r.Ok? <==> memory.InRange(address, 1)
      ensures address < DRAM_BASE ==> r == Err(PeripheralMissing(address))
      ensures DRAM_BASE <= address ==> r == memory.Read8(address)
    {
      if DRAM_BASE <= address then memory.Read8(address) else Err(PeripheralMissing(address))
    }

    function Load16(address: Word): (r: Result<HalfWord>)
      reads memory
      ensures r.Ok? <==> memory.InRange(address, 2)
      ensures address < DRAM_BASE ==> r == Err(PeripheralMissing(address))
      ensures DRAM_BASE <= address ==> r == memory.Read16(address)
    {
      if DRAM_BASE <= address then memory.Read16(address) else Err(PeripheralMissing(address))
    }

    function Load32(address: Word): (r: Result<Word>)
      reads memory
      ensures r.Ok? <==> memory.InRange(address, 4)
      ensures address < DRAM_BASE ==> r == Err(PeripheralMissing(address))
      ensures DRAM_BASE <= address ==> r == memory.Read32(address)
    {
      if DRAM_BASE <= address then memory.Read32(address) else Err(PeripheralMissing(address))
    }

    function Load64(address: Word): (r: Result<DoubleWord>)
      reads memory
      ensures r.Ok? <==> memory.InRange(address, 8)
      ensures address < DRAM_BASE ==> r == Err(PeripheralMissing(address))
      ensures DRAM_BASE <= address ==> r == memory.Read64(address)
    {
      if DRAM_BASE <= address then memory.Read64(address) else Err(PeripheralMissing(address))
    }

    method Store8(address: Word, data: Byte) returns (r: Result<()>)
      modifies memory
      ensures r.Ok? <==> old(memory.InRange(address, 1))
      ensures r.Ok? ==> memory.bytes == Store(old(memory.bytes), Index(address), [data])
      ensures r.Err? ==> memory.bytes == old(memory.bytes)
      ensures r.Err? ==> r.error == if address < DRAM_BASE then PeripheralMissing(address) else OutOfBounds(address)
    {
      if address < DRAM_BASE {
        return Err(PeripheralMissing(address));
      }
      r := memory.Write8(address, data);
    }

    method Store16(address: Word, data: HalfWord) returns (r: Result<()>)
      modifies memory
      ensures r.Ok? <==> old(memory.InRange(address, 2))
      ensures r.Ok? ==> memory.bytes == Store(old(memory.bytes), Index(address), Bytes16(data))
      ensures r.Err? ==> memory.bytes == StorePrefix(old(memory.bytes), Index(address), Bytes16(data))
      ensures r.Err? ==> r.error == if address < DRAM_BASE then PeripheralMissing(address) else OutOfBounds(address)
    {
      if address < DRAM_BASE {
        return Err(PeripheralMissing(address));
      }
      r := memory.Write16(address, data);
    }

    method Store32(address: Word, data: Word) returns (r: Result<()>)
      modifies memory
      ensures r.Ok? <==> old(memory.InRange(address, 4))
      ensures r.Ok? ==> memory.bytes == Store(old(memory.bytes), Index(address), Bytes32(data))
      ensures r.Err? ==> memory.bytes == StorePrefix(old(memory.bytes), Index(address), Bytes32(data))
      ensures r.Err? ==> r.error == if address < DRAM_BASE then PeripheralMissing(address) else OutOfBounds(address)
    {
      if address < DRAM_BASE {
        return Err(PeripheralMissing(address));
      }
      r := memory.Write32(address, data);
    }

    method Store64(address: Word, data: DoubleWord) returns (r: Result<()>)
      modifies memory
      ensures r.Ok? <==> old(memory.InRange(address, 8))
      ensures r.Ok? ==> memory.bytes == Store(old(memory.bytes), Index(address), Bytes64(data))
      ensures r.Err? ==> memory.bytes == StorePrefix(old(memory.bytes), Index(address), Bytes64(data))
      ensures r.Err? ==> r.error == if address < DRAM_BASE then PeripheralMissing(address) else OutOfBounds(address)
    {
      if address < DRAM_BASE {
        return Err(PeripheralMissing(address));
      }
      r := memory.Write64(address, data);
    }
  }

  /** A word stored through the bus loads back through the bus. */
  lemma LoadAfterStore32(b: Bus, before: seq<Byte>, address: Word, data: Word)
    requires DRAM_BASE <= address && Index(address) + 4 <= |before|
    requires b.memory.bytes == Store(before, Index(address), Bytes32(data))
    ensures b.Load32(address) == Ok(data)
  {
    ReadAfterWrite32(b.memory, before, address, data);
  }

  /** With the 12 bytes of memory, a word store succeeds exactly at DRAM_BASE .. DRAM_BASE + 8. */
  lemma StoreWindow(b: Bus, address: Word)
    requires |b.memory.bytes| == DRAM_SIZE
    ensures b.memory.InRange(address, 4) <==> DRAM_BASE <= address <= DRAM_BASE + 8
  {
    AccessWindow(b.memory, address, 4);
  }

  // ---------------------------------------------------------------------
  // The word accesses of the bus as functions of the memory bytes, for
  // reasoning about whole machine steps as values.

  /** load_32 over a byte buffer: the same routing and the same failures. */
  function LoadWord(bytes: seq<Byte>, address: Word): (r: Result<Word>)
    ensures r.Ok? <==> DRAM_BASE <= address && 0 <= Index(address) && Index(address) + 4 <= |bytes|
    ensures r.Ok? ==> Bytes32(r.value) == bytes[Index(address)..Index(address) + 4]
    ensures r.Err? ==> r.error == if address < DRAM_BASE then PeripheralMissing(address) else OutOfBounds(address)
  {
    if address < DRAM_BASE then Err(PeripheralMissing(address))
    else if 0 <= Index(address) && Index(address) + 4 <= |bytes| then
      var word := bytes[Index(address)..Index(address) + 4];
      Bytes32Value(word);
      Ok(Value32(word))
    else Err(OutOfBounds(address))
  }

  /** store_32 over a byte buffer: the new buffer, or the failure. */
  function StoreWord(bytes: seq<Byte>, address: Word, data: Word): (r: Result<seq<Byte>>)
    ensures r.Ok? <==> DRAM_BASE <= address && 0 <= Index(address) && Index(address) + 4 <= |bytes|
    ensures r.Ok? ==> r.value == Store(bytes, Index(address), Bytes32(data))
    ensures r.Err? ==> r.error == if address < DRAM_BASE then PeripheralMissing(address) else OutOfBounds(address)
  {
    if address < DRAM_BASE then Err(PeripheralMissing(address))
    else if 0 <= Index(address) && Index(address) + 4 <= |bytes| then
      Ok(Store(bytes, Index(address), Bytes32(data)))
    else Err(OutOfBounds(address))
  }

  /** Bus::load_32 is LoadWord of the memory bytes. */
  lemma LoadWordAgrees(b: Bus, address: Word)
    ensures b.Load32(address) == LoadWord(b.memory.bytes, address)
  {
  }

  /** A word stored by StoreWord loads back by LoadWord. */
  lemma LoadWordAfterStoreWord(bytes: seq<Byte>, address: Word, data: Word)
    requires StoreWord(bytes, address, data).Ok?
    ensures LoadWord(StoreWord(bytes, address, data).value, address) == Ok(data)
  {
    hide Index, Bytes32, Value32;
    Value32Bytes(data);
  }
}
