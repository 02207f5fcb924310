/**
 * The atomic extension as far as the emulator implements it
 * (src/ext/a/mod.rs): LR.W loads a word and records a reservation of its
 * address in CPUState.extraflags; SC.W stores a word only while the
 * reservation names its address.
 */
module ExtA {
  import opened Rv32
  import opened Bits
  import opened Encoding
  import Helpers
  import opened Ram
  import opened Bus
  import opened CpuState

  const LRW_TEMPLATE: string := "00010xx00000xxxxx010xxxxx0101111"
  const SCW_TEMPLATE: string := "00011xxxxxxxxxxxx010xxxxx0101111"

  /** ExtensionA, its variants in declaration order. */
  datatype ExtensionA = LRW | SCW
  {
    function Name(): string
    {
      match this
      case LRW => "LR.W"
      case SCW => "SC.W"
    }

    function Template(): string
    {
      match this
      case LRW => LRW_TEMPLATE
      case SCW => SCW_TEMPLATE
    }

    /** match_inst: the check match_mask! emits, with the constants it computes for Template(). */
    predicate MatchInst(inst: Word)
    ensures MatchInst(inst) <==> Matches(inst, Compile(Template()).zeros, Compile(Template()).ones)
    {
      match this
      case LRW => LrwMasks(); Matches(inst, 0xF9F0_707F, 0x1000_202F)
      case SCW => ScwMasks(); Matches(inst, 0xF800_707F, 0x1800_202F)
    }
  }

  // ---------------------------------------------------------------------
  // The constants of the two templates.

  lemma LrwShape()
    ensures LRW_TEMPLATE == "00010" + Wild(2) + "00000" + Wild(5) + "010" + Wild(5) + "0101111"
  {
  }

  lemma ScwShape()
    ensures SCW_TEMPLATE == "00011" + Wild(12) + "010" + Wild(5) + "0101111"
  {
  }

  lemma Piece00010()
    ensures Compile("00010") == Masks(0x1F, 0x2)
  {
    assert Numeral(Zeros, "00010", 5) == 0x1F;
    assert Numeral(Ones, "00010", 5) == 0x2;
  }

  lemma Piece00011()
    ensures Compile("00011") == Masks(0x1F, 0x3)
  {
    assert Numeral(Zeros, "00011", 5) == 0x1F;
    assert Numeral(Ones, "00011", 5) == 0x3;
  }

  lemma Piece00000()
    ensures Compile("00000") == Masks(0x1F, 0)
  {
    assert Numeral(Zeros, "00000", 5) == 0x1F;
    assert Numeral(Ones, "00000", 5) == 0;
  }

  lemma Piece010()
    ensures Compile("010") == Masks(7, 2)
  {
    assert Numeral(Zeros, "010", 3) == 7;
    assert Numeral(Ones, "010", 3) == 2;
  }

  lemma Piece0101111()
    ensures Compile("0101111") == Masks(0x7F, 0x2F)
  {
    assert Numeral(Zeros, "0101111", 7) == 0x7F;
    assert Numeral(Ones, "0101111", 7) == 0x2F;
  }

  /** What match_mask! computes for the LR.W template. */
  lemma LrwMasks()
    ensures Compile(LRW_TEMPLATE) == Masks(0xF9F0_707F, 0x1000_202F)
  {
    hide Numeral, Compile, Wild;
    LrwShape();
    Piece00010();
    WildCompile(2);
    JoinCompile("00010", Wild(2));
    assert Shl(0x1F, 2) == 0x7C;
    assert Shl(2, 2) == 8;
    Piece00000();
    JoinCompile("00010" + Wild(2), "00000");
    assert Shl(0x7C, 5) == 0xF80;
    assert Shl(8, 5) == 0x100;
    WildCompile(5);
    JoinCompile("00010" + Wild(2) + "00000", Wild(5));
    assert Shl(0xF9F, 5) == 0x1F3E0;
    assert Shl(0x100, 5) == 0x2000;
    Piece010();
    JoinCompile("00010" + Wild(2) + "00000" + Wild(5), "010");
    assert Shl(0x1F3E0, 3) == 0xF9F00;
    assert Shl(0x2000, 3) == 0x10000;
    JoinCompile("00010" + Wild(2) + "00000" + Wild(5) + "010", Wild(5));
    assert Shl(0xF9F07, 5) == 0x1F3E0E0;
    assert Shl(0x10002, 5) == 0x200040;
    Piece0101111();
    JoinCompile("00010" + Wild(2) + "00000" + Wild(5) + "010" + Wild(5), "0101111");
    assert Shl(0x1F3E0E0, 7) == 0xF9F0_7000;
    assert Shl(0x200040, 7) == 0x1000_2000;
  }

  /** What match_mask! computes for the SC.W template. */
  lemma ScwMasks()
    ensures Compile(SCW_TEMPLATE) == Masks(0xF800_707F, 0x1800_202F)
  {
    hide Numeral, Compile, Wild;
    ScwShape();
    Piece00011();
    WildCompile(12);
    JoinCompile("00011", Wild(12));
    assert Shl(0x1F, 12) == 0x1F000;
    assert Shl(3, 12) == 0x3000;
    Piece010();
    JoinCompile("00011" + Wild(12), "010");
    assert Shl(0x1F000, 3) == 0xF8000;
    assert Shl(0x3000, 3) == 0x18000;
    WildCompile(5);
    JoinCompile("00011" + Wild(12) + "010", Wild(5));
    assert Shl(0xF8007, 5) == 0x1F000E0;
    assert Shl(0x18002, 5) == 0x300040;
    Piece0101111();
    JoinCompile("00011" + Wild(12) + "010" + Wild(5), "0101111");
    assert Shl(0x1F000E0, 7) == 0xF800_7000;
    assert Shl(0x300040, 7) == 0x1800_2000;
  }

  // ---------------------------------------------------------------------
  // Which words each instruction accepts.

  /**
   * LR.W accepts exactly the words with opcode 0101111, funct3 010, rs2 0
   * and 00010 in the top five bits; the two ordering bits 26:25 are free.
   */
  lemma LrwMatchIff(inst: Word)
    ensures LRW.MatchInst(inst) <==>
      AsR(inst).opcode == 0x2F && AsR(inst).funct3 == 2 && AsR(inst).rs2 == 0 && AsR(inst).funct7 >> 2 == 2
  {
    MatchesIff(inst, 0xF9F0_707F, 0x1000_202F);
    LrwFields(inst);
  }

  lemma LrwFields(inst: Word)
    ensures inst & 0xF9F0_707F == 0x1000_202F <==>
      Field(inst, 0, 7) == 0x2F && Field(inst, 12, 3) == 2 && Field(inst, 20, 5) == 0 && Field(inst, 25, 7) >> 2 == 2
  {
  }

  /**
   * SC.W accepts exactly the words with opcode 0101111, funct3 010 and 00011
   * in the top five bits.
   */
  lemma ScwMatchIff(inst: Word)
    ensures SCW.MatchInst(inst) <==> AsR(inst).opcode == 0x2F && AsR(inst).funct3 == 2 && AsR(inst).funct7 >> 2 == 3
  {
    MatchesIff(inst, 0xF800_707F, 0x1800_202F);
    ScwFields(inst);
  }

  lemma ScwFields(inst: Word)
    ensures inst & 0xF800_707F == 0x1800_202F <==>
      Field(inst, 0, 7) == 0x2F && Field(inst, 12, 3) == 2 && Field(inst, 25, 7) >> 2 == 3
  {
  }

  /** No word is both: the templates disagree at bit 27. */
  lemma LrwScwDisjoint(inst: Word)
    ensures !(LRW.MatchInst(inst) && SCW.MatchInst(inst))
  {
    MatchesIff(inst, 0xF9F0_707F, 0x1000_202F);
    MatchesIff(inst, 0xF800_707F, 0x1800_202F);
    BitTwentySeven(inst);
  }

  lemma BitTwentySeven(inst: Word)
    ensures !(inst & 0xF9F0_707F == 0x1000_202F && inst & 0xF800_707F == 0x1800_202F)
  {
  }

  // ---------------------------------------------------------------------
  // The reservation.

  /** The reservation word LR.W leaves: the low three bits kept, the address shifted in above them. */
  function Reserve(flags: Word, address: Word): (r: Word)
    ensures r & 7 == flags & 7
    ensures r >> 3 == address & 0x1FFF_FFFF
  {
    (flags & 7) | (address << 3)
  }

  /** Reserve keeps the three low bits of the old word. */
  lemma ReserveKeepsLow(flags: Word, address: Word)
    ensures Reserve(flags, address) & 7 == flags & 7
  {
  }

  /** Reserve records the address without its top three bits. */
  lemma ReserveRecords(flags: Word, address: Word)
    ensures Reserve(flags, address) >> 3 == address & 0x1FFF_FFFF
  {
  }

  /** SC.W's write_flag: the reservation names the address, up to its top three bits. */
  predicate Reserved(flags: Word, address: Word)
    ensures Reserved(flags, address) <==> Reserved(flags, address & 0x1FFF_FFFF)
  {
    flags >> 3 == address & 0x1FFF_FFFF
  }

  /**
   * After LR.W at address, SC.W at other may store exactly when the two
   * addresses agree below bit 29; in particular SC.W at the same address
   * succeeds.
   */
  lemma ReservedAfterReserve(flags: Word, address: Word, other: Word)
    ensures Reserved(Reserve(flags, address), other) <==> address & 0x1FFF_FFFF == other & 0x1FFF_FFFF
  {
    ReserveRecords(flags, address);
  }

  // ---------------------------------------------------------------------
  // Execution.  The steps read their register numbers from the R view of
  // the word; the semantics below take those numbers directly.

  /** The value LR.W writes: sext(word, 32), which is the loaded word itself. */
  function LrwResult(loaded: Word): (r: Word)
    ensures r == loaded
  {
    Helpers.SextFullWidth(loaded);
    Helpers.Sext(loaded, 32)
  }

  /**
   * LRW::step as a change of the machine, for registers rd and rs1: the
   * reservation moves to x[rs1] and x[rd] gets the little-endian word stored
   * there; a failed load fails the step.
   */
  function LoadReserved(rd: nat, rs1: nat, c: Core): (r: Result<Core>)
    requires rd < 32 && rs1 < 32 && |c.x| == 32
    ensures r.Ok? <==> LoadWord(c.bytes, c.x[rs1]).Ok?
    ensures r.Err? ==> r.error == LoadWord(c.bytes, c.x[rs1]).error
    ensures r.Ok? ==> |r.value.x| == 32 && r.value.pc == c.pc && r.value.bytes == c.bytes
    ensures r.Ok? ==> r.value.extraflags == Reserve(c.extraflags, c.x[rs1])
    ensures r.Ok? ==> Bytes32(r.value.x[rd]) == c.bytes[Index(c.x[rs1])..Index(c.x[rs1]) + 4]
    ensures r.Ok? ==> forall i :: 0 <= i < 32 && i != rd ==> r.value.x[i] == c.x[i]
  {
    var address := c.x[rs1];
    var loaded :- LoadWord(c.bytes, address);
    Ok(c.(x := c.x[rd := LrwResult(loaded)], extraflags := Reserve(c.extraflags, address)))
  }

  /**
   * SCW::step as a change of the machine, for registers rd, rs1 and rs2:
   * while the reservation names x[rs1] the word x[rs2] is stored there and
   * x[rd] becomes 0, otherwise memory is left alone and x[rd] becomes 1.
   * The reservation itself is never cleared.
   */
  function StoreConditional(rd: nat, rs1: nat, rs2: nat, c: Core): (r: Result<Core>)
    requires rd < 32 && rs1 < 32 && rs2 < 32 && |c.x| == 32
    ensures r.Ok? ==> |r.value.x| == 32 && r.value.pc == c.pc && r.value.extraflags == c.extraflags
    ensures r.Ok? ==> r.value.x[rd] == if Reserved(c.extraflags, c.x[rs1]) then 0 else 1
    ensures r.Ok? ==> forall i :: 0 <= i < 32 && i != rd ==> r.value.x[i] == c.x[i]
    ensures r.Err? <==> Reserved(c.extraflags, c.x[rs1]) && StoreWord(c.bytes, c.x[rs1], c.x[rs2]).Err?
    ensures r.Err? ==> r.error == StoreWord(c.bytes, c.x[rs1], c.x[rs2]).error
    ensures r.Ok? ==>
      r.value.bytes == if Reserved(c.extraflags, c.x[rs1]) then StoreWord(c.bytes, c.x[rs1], c.x[rs2]).value else c.bytes
  {
    var address := c.x[rs1];
    if Reserved(c.extraflags, address) then
      var bytes :- StoreWord(c.bytes, address, c.x[rs2]);
      Ok(c.(x := c.x[rd := 0], bytes := bytes))
    else
      Ok(c.(x := c.x[rd := 1]))
  }

  /**
   * The machine SC.W leaves when its store_32 faults: the bytes of x[rs2]
   * that fit before the end of memory are already written, least
   * significant first, and nothing else has changed.
   */
  function ScwFault(rs1: nat, rs2: nat, c: Core): (r: Core)
    requires rs1 < 32 && rs2 < 32 && |c.x| == 32
    ensures r.x == c.x && r.pc == c.pc && r.extraflags == c.extraflags && |r.bytes| == |c.bytes|
    ensures forall k :: 0 <= k < |c.bytes| && (k < Index(c.x[rs1]) || Index(c.x[rs1]) + 4 <= k) ==> r.bytes[k] == c.bytes[k]
    ensures c.x[rs1] < DRAM_BASE ==> r == c
  {
    IndexNonNegative(c.x[rs1]);
    c.(bytes := StorePrefix(c.bytes, Index(c.x[rs1]), Bytes32(c.x[rs2])))
  }

  /** Without the reservation SC.W leaves memory exactly as it was. */
  lemma ScwWithoutReservation(rd: nat, rs1: nat, rs2: nat, c: Core)
    requires rd < 32 && rs1 < 32 && rs2 < 32 && |c.x| == 32 && !Reserved(c.extraflags, c.x[rs1])
    ensures StoreConditional(rd, rs1, rs2, c).Ok? && StoreConditional(rd, rs1, rs2, c).value.bytes == c.bytes
  {
  }

  /** With the reservation, a successful SC.W leaves x[rs2] where x[rs1] loads it back. */
  lemma ScwStoresRs2(rd: nat, rs1: nat, rs2: nat, c: Core)
    requires rd < 32 && rs1 < 32 && rs2 < 32 && |c.x| == 32
    requires StoreConditional(rd, rs1, rs2, c).Ok? && Reserved(c.extraflags, c.x[rs1])
    ensures LoadWord(StoreConditional(rd, rs1, rs2, c).value.bytes, c.x[rs1]) == Ok(c.x[rs2])
  {
    LoadWordAfterStoreWord(c.bytes, c.x[rs1], c.x[rs2]);
  }

  /** SC.W under the reservation of its own address reports 0 and leaves x[rs2] where x[rs1] loads it back. */
  lemma ReservedScStores(rd: nat, rs1: nat, rs2: nat, c: Core)
    requires rd < 32 && rs1 < 32 && rs2 < 32 && |c.x| == 32 && Reserved(c.extraflags, c.x[rs1])
    requires StoreConditional(rd, rs1, rs2, c).Ok?
    ensures StoreConditional(rd, rs1, rs2, c).value.x[rd] == 0
    ensures LoadWord(StoreConditional(rd, rs1, rs2, c).value.bytes, c.x[rs1]) == Ok(c.x[rs2])
  {
    ScwStoresRs2(rd, rs1, rs2, c);
  }

  /** The reservation LR.W leaves, when rd is not the address register, is the one SC.W through that register checks. */
  lemma LrReservesOwnAddress(rd: nat, rs1: nat, c: Core)
    requires rd < 32 && rs1 < 32 && |c.x| == 32 && rd != rs1
    requires LoadReserved(rd, rs1, c).Ok?
    ensures var after := LoadReserved(rd, rs1, c).value;
      Reserved(after.extraflags, after.x[rs1])
  {
    ReservedAfterReserve(c.extraflags, c.x[rs1], c.x[rs1]);
  }

  /**
   * LR.W followed by SC.W through the same address register, with rd of the
   * LR.W a different register: a successful SC.W writes x[rs2] at x[rs1] and
   * reports 0 in its rd.
   */
  lemma LrThenScStores(rd: nat, rs1: nat, rd2: nat, rs2: nat, c: Core)
    requires rd < 32 && rs1 < 32 && rd2 < 32 && rs2 < 32 && |c.x| == 32 && rd != rs1
    requires LoadReserved(rd, rs1, c).Ok?
    ensures var after := LoadReserved(rd, rs1, c).value;
      StoreConditional(rd2, rs1, rs2, after).Ok? ==>
        StoreConditional(rd2, rs1, rs2, after).value.x[rd2] == 0
        && LoadWord(StoreConditional(rd2, rs1, rs2, after).value.bytes, after.x[rs1]) == Ok(after.x[rs2])
  {
    hide StoreConditional, LoadWord, LoadReserved, Reserved;
    LrReservesOwnAddress(rd, rs1, c);
    var after := LoadReserved(rd, rs1, c).value;
    if StoreConditional(rd2, rs1, rs2, after).Ok? {
      ReservedScStores(rd2, rs1, rs2, after);
    }
  }

  /** LRW::step, in place: the reservation is written before the load, which may fail. */
  method StepLrw(inst: Word, state: CPUState) returns (r: Result<()>)
    requires state.x.Length == 32
    modifies state, state.x
    ensures state.trap == old(state.trap) && state.csrs == old(state.csrs)
    ensures r.Ok? <==> LoadReserved(Reg(AsR(inst).rd), Reg(AsR(inst).rs1), old(state.Snapshot())).Ok?
    ensures r.Ok? ==> state.Snapshot() == LoadReserved(Reg(AsR(inst).rd), Reg(AsR(inst).rs1), old(state.Snapshot())).value
    ensures r.Err? ==> r.error == LoadReserved(Reg(AsR(inst).rd), Reg(AsR(inst).rs1), old(state.Snapshot())).error
    ensures r.Err? ==>
      state.Snapshot() == old(state.Snapshot()).(extraflags := Reserve(old(state.extraflags), old(state.x[Reg(AsR(inst).rs1)])))
  {
    hide AsR, Reg, LrwResult, Reserve, LoadWord, Bytes32, Index;
    var rd, rs1 := Reg(AsR(inst).rd), Reg(AsR(inst).rs1);
    var address := state.x[rs1];
    state.extraflags := Reserve(state.extraflags, address);
    var loaded := state.bus.Load32(address);
    LoadWordAgrees(state.bus, address);
    if loaded.Err? {
      return Err(loaded.error);
    }
    state.x[rd] := LrwResult(loaded.value);
    r := Ok(());
  }

  /** SCW::step, in place on the register file and memory. */
  method StepScw(inst: Word, state: CPUState) returns (r: Result<()>)
    requires state.x.Length == 32
    modifies state.x, state.bus.memory
    ensures r.Ok? <==> StoreConditional(Reg(AsR(inst).rd), Reg(AsR(inst).rs1), Reg(AsR(inst).rs2), old(state.Snapshot())).Ok?
    ensures r.Ok? ==>
      state.Snapshot() == StoreConditional(Reg(AsR(inst).rd), Reg(AsR(inst).rs1), Reg(AsR(inst).rs2), old(state.Snapshot())).value
    ensures r.Err? ==>
      r.error == StoreConditional(Reg(AsR(inst).rd), Reg(AsR(inst).rs1), Reg(AsR(inst).rs2), old(state.Snapshot())).error
    ensures r.Err? ==> state.Snapshot() == ScwFault(Reg(AsR(inst).rs1), Reg(AsR(inst).rs2), old(state.Snapshot()))
  {
    hide AsR, Reg, Reserved, StoreWord, Store, Bytes32, Index, LoadWord;
    var rd, rs1, rs2 := Reg(AsR(inst).rd), Reg(AsR(inst).rs1), Reg(AsR(inst).rs2);
    var address := state.x[rs1];
    IndexNonNegative(address);
    if Reserved(state.extraflags, address) {
      r := state.bus.Store32(address, state.x[rs2]);
      if r.Err? {
        return;
      }
      state.x[rd] := 0;
    } else {
      state.x[rd] := 1;
      r := Ok(());
    }
  }
}
