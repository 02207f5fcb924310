/**
 * Main memory: a little-endian byte buffer seen from the bus at DRAM_BASE
 * (src/system/ram.rs; src/ram.rs is an earlier copy with the same reads and
 * write_8 only).  An access of n bytes at address a uses the bytes at offsets
 * a - DRAM_BASE .. a - DRAM_BASE + n - 1.  An address below DRAM_BASE makes
 * the u32 subtraction overflow and an offset past the end makes the vector
 * index panic; both are the Err result here.  The writes assign one byte at
 * a time, so a write that runs past the end has stored the bytes that fit
 * when it fails (StorePrefix).
 */
module Ram {
  import opened Rv32

  // ---------------------------------------------------------------------
  // Little-endian byte order: the byte at offset k holds bits 8k .. 8k+7.

  /** The value of two bytes, least significant first (the expression of read_16). */
  function Value16(bs: seq<Byte>): (r: HalfWord)
    requires |bs| == 2
    ensures Bytes16(r) == bs
  {
    bs[0] as HalfWord | (bs[1] as HalfWord << 8)
  }

  /** The value of four bytes, least significant first (the expression of read_32). */
  function Value32(bs: seq<Byte>): (r: Word)
    requires |bs| == 4
    ensures Bytes32(r) == bs
  {
    bs[0] as Word | (bs[1] as Word << 8) | (bs[2] as Word << 16) | (bs[3] as Word << 24)
  }

  /** The value of eight bytes, least significant first (the expression of read_64). */
  function Value64(bs: seq<Byte>): (r: DoubleWord)
    requires |bs| == 8
    ensures Bytes64(r) == bs
  {
    bs[0] as DoubleWord | (bs[1] as DoubleWord << 8) | (bs[2] as DoubleWord << 16)
    | (bs[3] as DoubleWord << 24) | (bs[4] as DoubleWord << 32) | (bs[5] as DoubleWord << 40)
    | (bs[6] as DoubleWord << 48) | (bs[7] as DoubleWord << 56)
  }

  /** The bytes write_16 stores, least significant first. */
  function Bytes16(d: HalfWord): (r: seq<Byte>)
    ensures |r| == 2
  {
    [(d & 0xFF) as Byte, ((d >> 8) & 0xFF) as Byte]
  }

  /** The bytes write_32 stores, least significant first. */
  function Bytes32(d: Word): (r: seq<Byte>)
    ensures |r| == 4
  {
    [(d & 0xFF) as Byte, ((d >> 8) & 0xFF) as Byte, ((d >> 16) & 0xFF) as Byte, ((d >> 24) & 0xFF) as Byte]
  }

  /** The bytes write_64 stores, least significant first. */
  function Bytes64(d: DoubleWord): (r: seq<Byte>)
    ensures |r| == 8
  {
    [(d & 0xFF) as Byte, ((d >> 8) & 0xFF) as Byte, ((d >> 16) & 0xFF) as Byte, ((d >> 24) & 0xFF) as Byte,
     ((d >> 32) & 0xFF) as Byte, ((d >> 40) & 0xFF) as Byte, ((d >> 48) & 0xFF) as Byte,
     ((d >> 56) & 0xFF) as Byte]
  }

  /** Reading back the bytes of a value gives the value. */
  lemma Value16Bytes(d: HalfWord)
    ensures Value16(Bytes16(d)) == d
  {
  }

  lemma Value32Bytes(d: Word)
    ensures Value32(Bytes32(d)) == d
  {
  }

  lemma Value64Bytes(d: DoubleWord)
    ensures Value64(Bytes64(d)) == d
  {
  }

  /** Splitting the value of some bytes gives the bytes: each byte keeps its own eight bits. */
  lemma Bytes16Value(bs: seq<Byte>)
    requires |bs| == 2
    ensures Bytes16(Value16(bs)) == bs
  {
  }

  lemma Bytes32Value(bs: seq<Byte>)
    requires |bs| == 4
    ensures Bytes32(Value32(bs)) == bs
  {
  }

  lemma Bytes64Value(bs: seq<Byte>)
    requires |bs| == 8
    ensures Bytes64(Value64(bs)) == bs
  {
  }

  /** bs with the bytes from offset off on replaced by data, the length kept. */
  function Store(bs: seq<Byte>, off: nat, data: seq<Byte>): (r: seq<Byte>)
    requires off + |data| <= |bs|
    ensures |r| == |bs|
    ensures forall k :: 0 <= k < |data| ==> r[off + k] == data[k]
    ensures forall k :: 0 <= k < |bs| && !(off <= k < off + |data|) ==> r[k] == bs[k]
  {
    bs[..off] + data + bs[off + |data|..]
  }

  /** Storing a few bytes is updating them one at a time, as the write methods do. */
  lemma Store2(bs: seq<Byte>, off: nat, d: seq<Byte>)
    requires |d| == 2 && off + 2 <= |bs|
    ensures Store(bs, off, d) == bs[off := d[0]][off + 1 := d[1]]
  {
  }

  lemma Store4(bs: seq<Byte>, off: nat, d: seq<Byte>)
    requires |d| == 4 && off + 4 <= |bs|
    ensures Store(bs, off, d) == bs[off := d[0]][off + 1 := d[1]][off + 2 := d[2]][off + 3 := d[3]]
  {
  }

  /** Storing two runs one after the other is storing the joined run. */
  lemma StoreSplit(bs: seq<Byte>, off: nat, a: seq<Byte>, b: seq<Byte>)
    requires off + |a| + |b| <= |bs|
    ensures Store(Store(bs, off, a), off + |a|, b) == Store(bs, off, a + b)
  {
  }

  /** The stored run reads back as the data. */
  lemma StoreThenSlice(bs: seq<Byte>, off: nat, data: seq<Byte>)
    requires off + |data| <= |bs|
    ensures Store(bs, off, data)[off..off + |data|] == data
  {
  }

  /** A run that does not overlap the stored one is unchanged. */
  lemma StoreOutside(bs: seq<Byte>, off: nat, data: seq<Byte>, at: nat, n: nat)
    requires off + |data| <= |bs| && at + n <= |bs|
    requires at + n <= off || off + |data| <= at
    ensures Store(bs, off, data)[at..at + n] == bs[at..at + n]
  {
  }

  /** A second store over the same run hides the first. */
  lemma StoreOver(bs: seq<Byte>, off: nat, a: seq<Byte>, b: seq<Byte>)
    requires off + |a| <= |bs| && |b| == |a|
    ensures Store(Store(bs, off, a), off, b) == Store(bs, off, b)
  {
  }

  /**
   * What a write of data at offset off leaves when it assigns one byte at a
   * time and stops at the first assignment that fails: nothing below the
   * buffer (the offset itself cannot be formed), otherwise the bytes of data
   * that fit before the end, and every other byte as it was.
   */
  function StorePrefix(bs: seq<Byte>, off: int, data: seq<Byte>): (r: seq<Byte>)
    ensures |r| == |bs|
    ensures forall k :: 0 <= k < |bs| && 0 <= off <= k < off + |data| ==> r[k] == data[k - off]
    ensures forall k :: 0 <= k < |bs| && !(0 <= off <= k < off + |data|) ==> r[k] == bs[k]
  {
    if off < 0 || |bs| <= off then bs
    else if off + |data| <= |bs| then Store(bs, off, data)
    else Store(bs, off, data[..|bs| - off])
  }

  /** A write that fits whole is the plain store. */
  lemma StorePrefixWhole(bs: seq<Byte>, off: nat, data: seq<Byte>)
    requires off + |data| <= |bs|
    ensures StorePrefix(bs, off, data) == Store(bs, off, data)
  {
  }

  /** A write that runs k bytes short of the end stores exactly its first k bytes. */
  lemma StorePrefixCut(bs: seq<Byte>, off: nat, data: seq<Byte>, k: nat)
    requires off + k == |bs| && k < |data|
    ensures StorePrefix(bs, off, data) == Store(bs, off, data[..k])
  {
  }

  /** The first assignment of a write is the store of its first byte. */
  lemma StoreFirst(bs: seq<Byte>, off: nat, data: seq<Byte>)
    requires off < |bs| && 0 < |data|
    ensures bs[off := data[0]] == Store(bs, off, data[..1])
  {
  }

  /** One more assignment extends the stored run by one byte. */
  lemma StoreNext(bs: seq<Byte>, off: nat, data: seq<Byte>, k: nat)
    requires off + k < |bs| && k < |data|
    ensures Store(bs, off, data[..k])[off + k := data[k]] == Store(bs, off, data[..k + 1])
  {
    assert data[..k + 1] == data[..k] + [data[k]];
  }

  // ---------------------------------------------------------------------
  // The buffer.

  /**
   * The distance of address above DRAM_BASE: the source's u32 subtraction
   * when it does not overflow, negative when it would.
   */
  function Index(address: Word): int
  {
    address as int - DRAM_BASE as int
  }

  /** An address has a non-negative offset exactly when it is not below DRAM_BASE. */
  lemma IndexNonNegative(address: Word)
    ensures 0 <= Index(address) <==> DRAM_BASE <= address
  {
  }

  class RAM {
    var bytes: seq<Byte>

    /** RAM::new: DRAM_SIZE zero bytes. */
    constructor ()
      ensures bytes == seq(DRAM_SIZE, _ => 0)
    {
      bytes := seq(DRAM_SIZE, _ => 0);
    }

    /** RAM::len. */
    function Len(): (r: nat)
      reads this
      ensures r == |bytes|
    {
      |bytes|
    }

    /** An access of n bytes at address stays inside the buffer. */
    predicate InRange(address: Word, n: nat)
      reads this
    {
      0 <= Index(address) && Index(address) + n <= |bytes|
    }

    /** The offset of address into the buffer, failing as the source's subtraction and indexing do. */
    function Offset(address: Word, n: nat): (r: Result<nat>)
      reads this
      ensures r.Ok? <==> InRange(address, n)
      ensures r.Ok? ==> r.value == Index(address) && r.value + n <= |bytes|
      ensures r.Err? ==> r.error == OutOfBounds(address)
    {
      if InRange(address, n) then Ok(Index(address)) else Err(OutOfBounds(address))
    }

    function Read8(address: Word): (r: Result<Byte>)
      reads this
      ensures r.Ok? <==> InRange(address, 1)
      ensures r.Ok? ==> r.value == bytes[Index(address)]
    {
      var off :- Offset(address, 1);
      Ok(bytes[off])
    }

    function Read16(address: Word): (r: Result<HalfWord>)
      reads this
      ensures r.Ok? <==> InRange(address, 2)
      ensures r.Ok? ==> Bytes16(r.value) == bytes[Index(address)..Index(address) + 2]
    {
      var off :- Offset(address, 2);
      Bytes16Value(bytes[off..off + 2]);
      Ok(Value16(bytes[off..off + 2]))
    }

    function Read32(address: Word): (r: Result<Word>)
      reads this
      ensures r.Ok? <==> InRange(address, 4)
      ensures r.Ok? ==> Bytes32(r.value) == bytes[Index(address)..Index(address) + 4]
    {
      var off :- Offset(address, 4);
      Bytes32Value(bytes[off..off + 4]);
      Ok(Value32(bytes[off..off + 4]))
    }

    function Read64(address: Word): (r: Result<DoubleWord>)
      reads this
      ensures r.Ok? <==> InRange(address, 8)
      ensures r.Ok? ==> Bytes64(r.value) == bytes[Index(address)..Index(address) + 8]
    {
      var off :- Offset(address, 8);
      Bytes64Value(bytes[off..off + 8]);
      Ok(Value64(bytes[off..off + 8]))
    }

    method Write8(address: Word, data: Byte) returns (r: Result<()>)
      modifies this
      ensures r.Ok? <==> old(InRange(address, 1))
      ensures r.Ok? ==> bytes == Store(old(bytes), Index(address), [data])
      ensures r.Err? ==> bytes == old(bytes) && r.error == OutOfBounds(address)
    {
      hide Index, InRange;
      var off :- Offset(address, 1);
      bytes := bytes[off := data];
      r := Ok(());
    }

    /**
     * write_16: the low byte, then the high byte.  Each assignment fails when
     * its offset is past the end, and a failure leaves the bytes already
     * assigned in place.
     */
    method Write16(address: Word, data: HalfWord) returns (r: Result<()>)
      modifies this
      ensures r.Ok? <==> old(InRange(address, 2))
      ensures r.Ok? ==> bytes == Store(old(bytes), Index(address), Bytes16(data))
      ensures r.Err? ==> bytes == StorePrefix(old(bytes), Index(address), Bytes16(data)) && r.error == OutOfBounds(address)
    {
      hide Bytes16, Index, Store, StorePrefix;
      var b := Bytes16(data);
      if Index(address) < 0 || |bytes| <= Index(address) {
        return Err(OutOfBounds(address));
      }
      var off: nat := Index(address);
      bytes := bytes[off := b[0]];
      StoreFirst(old(bytes), off, b);
      if |bytes| <= off + 1 {
        StorePrefixCut(old(bytes), off, b, 1);
        return Err(OutOfBounds(address));
      }
      bytes := bytes[off + 1 := b[1]];
      StoreNext(old(bytes), off, b, 1);
      assert b[..2] == b;
      r := Ok(());
    }

    /** write_32: four assignments, least significant byte first, failing as in Write16. */
    method Write32(address: Word, data: Word) returns (r: Result<()>)
      modifies this
      ensures r.Ok? <==> old(InRange(address, 4))
      ensures r.Ok? ==> bytes == Store(old(bytes), Index(address), Bytes32(data))
      ensures r.Err? ==> bytes == StorePrefix(old(bytes), Index(address), Bytes32(data)) && r.error == OutOfBounds(address)
    {
      hide Bytes32, Index, Store, StorePrefix;
      var b := Bytes32(data);
      if Index(address) < 0 || |bytes| <= Index(address) {
        return Err(OutOfBounds(address));
      }
      var off: nat := Index(address);
      bytes := bytes[off := b[0]];
      StoreFirst(old(bytes), off, b);
      if |bytes| <= off + 1 {
        StorePrefixCut(old(bytes), off, b, 1);
        return Err(OutOfBounds(address));
      }
      bytes := bytes[off + 1 := b[1]];
      StoreNext(old(bytes), off, b, 1);
      if |bytes| <= off + 2 {
        StorePrefixCut(old(bytes), off, b, 2);
        return Err(OutOfBounds(address));
      }
      bytes := bytes[off + 2 := b[2]];
      StoreNext(old(bytes), off, b, 2);
      if |bytes| <= off + 3 {
        StorePrefixCut(old(bytes), off, b, 3);
        return Err(OutOfBounds(address));
      }
      bytes := bytes[off + 3 := b[3]];
      StoreNext(old(bytes), off, b, 3);
      assert b[..4] == b;
      r := Ok(());
    }

    /** write_64: eight assignments, least significant byte first, failing as in Write16. */
    method Write64(address: Word, data: DoubleWord) returns (r: Result<()>)
      modifies this
      ensures r.Ok? <==> old(InRange(address, 8))
      ensures r.Ok? ==> bytes == Store(old(bytes), Index(address), Bytes64(data))
      ensures r.Err? ==> bytes == StorePrefix(old(bytes), Index(address), Bytes64(data)) && r.error == OutOfBounds(address)
    {
      hide Bytes64, Index, Store, StorePrefix;
      var b := Bytes64(data);
      if Index(address) < 0 || |bytes| <= Index(address) {
        return Err(OutOfBounds(address));
      }
      var off: nat := Index(address);
      bytes := bytes[off := b[0]];
      StoreFirst(old(bytes), off, b);
      if |bytes| <= off + 1 {
        StorePrefixCut(old(bytes), off, b, 1);
        return Err(OutOfBounds(address));
      }
      bytes := bytes[off + 1 := b[1]];
      StoreNext(old(bytes), off, b, 1);
      if |bytes| <= off + 2 {
        StorePrefixCut(old(bytes), off, b, 2);
        return Err(OutOfBounds(address));
      }
      bytes := bytes[off + 2 := b[2]];
      StoreNext(old(bytes), off, b, 2);
      if |bytes| <= off + 3 {
        StorePrefixCut(old(bytes), off, b, 3);
        return Err(OutOfBounds(address));
      }
      bytes := bytes[off + 3 := b[3]];
      StoreNext(old(bytes), off, b, 3);
      if |bytes| <= off + 4 {
        StorePrefixCut(old(bytes), off, b, 4);
        return Err(OutOfBounds(address));
      }
      bytes := bytes[off + 4 := b[4]];
      StoreNext(old(bytes), off, b, 4);
      if |bytes| <= off + 5 {
        StorePrefixCut(old(bytes), off, b, 5);
        return Err(OutOfBounds(address));
      }
      bytes := bytes[off + 5 := b[5]];
      StoreNext(old(bytes), off, b, 5);
      if |bytes| <= off + 6 {
        StorePrefixCut(old(bytes), off, b, 6);
        return Err(OutOfBounds(address));
      }
      bytes := bytes[off + 6 := b[6]];
      StoreNext(old(bytes), off, b, 6);
      if |bytes| <= off + 7 {
        StorePrefixCut(old(bytes), off, b, 7);
        return Err(OutOfBounds(address));
      }
      bytes := bytes[off + 7 := b[7]];
      StoreNext(old(bytes), off, b, 7);
      assert b[..8] == b;
      r := Ok(());
    }
  }

  // ---------------------------------------------------------------------
  // Reading what was written.

  /** After a byte is written, reading it back gives the byte. */
  lemma ReadAfterWrite8(m: RAM, before: seq<Byte>, address: Word, data: Byte)
    requires 0 <= Index(address) && Index(address) + 1 <= |before|
    requires m.bytes == Store(before, Index(address), [data])
    ensures m.Read8(address) == Ok(data)
  {
    hide Index;
  }

  /** After a half word is written, reading it back gives the half word. */
  lemma ReadAfterWrite16(m: RAM, before: seq<Byte>, address: Word, data: HalfWord)
    requires 0 <= Index(address) && Index(address) + 2 <= |before|
    requires m.bytes == Store(before, Index(address), Bytes16(data))
    ensures m.Read16(address) == Ok(data)
  {
    hide Index, Bytes16, Value16;
    StoreThenSlice(before, Index(address), Bytes16(data));
    Value16Bytes(data);
  }

  /** After a word is written, reading it back gives the word. */
  lemma ReadAfterWrite32(m: RAM, before: seq<Byte>, address: Word, data: Word)
    requires 0 <= Index(address) && Index(address) + 4 <= |before|
    requires m.bytes == Store(before, Index(address), Bytes32(data))
    ensures m.Read32(address) == Ok(data)
  {
    hide Index, Bytes32, Value32;
    StoreThenSlice(before, Index(address), Bytes32(data));
    Value32Bytes(data);
  }

  /** After a double word is written, reading it back gives the double word. */
  lemma ReadAfterWrite64(m: RAM, before: seq<Byte>, address: Word, data: DoubleWord)
    requires 0 <= Index(address) && Index(address) + 8 <= |before|
    requires m.bytes == Store(before, Index(address), Bytes64(data))
    ensures m.Read64(address) == Ok(data)
  {
    hide Index, Bytes64, Value64;
    StoreThenSlice(before, Index(address), Bytes64(data));
    Value64Bytes(data);
  }

  /** A word read that does not overlap a word write sees the bytes from before the write. */
  lemma ReadBesideWrite32(m: RAM, before: seq<Byte>, address: Word, data: Word, other: Word)
    requires 0 <= Index(address) && Index(address) + 4 <= |before|
    requires m.bytes == Store(before, Index(address), Bytes32(data))
    requires Index(other) + 4 <= Index(address) || Index(address) + 4 <= Index(other)
    ensures m.Read32(other).Ok? <==> 0 <= Index(other) && Index(other) + 4 <= |before|
    ensures m.Read32(other).Ok? ==> Bytes32(m.Read32(other).value) == before[Index(other)..Index(other) + 4]
  {
    hide Index, Bytes32, Value32;
    if 0 <= Index(other) && Index(other) + 4 <= |before| {
      StoreOutside(before, Index(address), Bytes32(data), Index(other), 4);
    }
  }

  /**
   * After a word is written, the byte at an address k places above the
   * word's address holds bits 8k .. 8k+7 of the word.
   */
  lemma ReadByteAfterWrite32(m: RAM, before: seq<Byte>, address: Word, data: Word, other: Word, k: bv6)
    requires 0 <= Index(address) && Index(address) + 4 <= |before| && k < 4
    requires Index(other) == Index(address) + k as int
    requires m.bytes == Store(before, Index(address), Bytes32(data))
    ensures m.Read8(other) == Ok(((data >> (8 * k)) & 0xFF) as Byte)
  {
    hide Index;
    ByteOf32(data, k);
  }

  /** Byte k of Bytes32(d), as a shift of d. */
  lemma ByteOf32(d: Word, k: bv6)
    requires k < 4
    ensures Bytes32(d)[k] == ((d >> (8 * k)) & 0xFF) as Byte
  {
    if k == 0 {
    } else if k == 1 {
    } else if k == 2 {
    } else {
    }
  }

  /**
   * With the DRAM_SIZE bytes RAM::new allocates, an access of n bytes is in
   * range exactly for the addresses DRAM_BASE .. DRAM_BASE + DRAM_SIZE - n.
   */
  lemma AccessWindow(m: RAM, address: Word, n: nat)
    requires |m.bytes| == DRAM_SIZE
    ensures m.InRange(address, n) <==> DRAM_BASE <= address && address as int + n <= DRAM_BASE as int + DRAM_SIZE
  {
  }

  /**
   * With the DRAM_SIZE bytes RAM::new allocates, a word written at
   * DRAM_BASE + 10 runs past the end: its two low bytes land in the last two
   * bytes before the write fails.
   */
  lemma PartialWrite32(bs: seq<Byte>, d: Word)
    requires |bs| == DRAM_SIZE
    ensures StorePrefix(bs, Index(DRAM_BASE + 10), Bytes32(d)) == bs[10 := (d & 0xFF) as Byte][11 := ((d >> 8) & 0xFF) as Byte]
  {
  }
}
