/**
 * The architectural state an instruction acts on (CPUState in
 * src/cpu/mod.rs): the 32 integer registers, the program counter, the trap
 * word, the reservation word of the atomic extension, the machine CSRs, and
 * the bus the state reaches memory through.
 */
module CpuState {
  import opened Rv32
  import opened Bus

  /**
   * The machine CSRs CPUState carries.  Nothing in the emulator reads or
   * writes them after they are zeroed.
   */
  datatype Csrs = Csrs(
    mstatus: Word,
    cyclel: Word, cycleh: Word, timel: Word, timeh: Word, timecmpl: Word, timecmph: Word,
    mvendorid: Word, marchid: Word, mimpid: Word, mhartid: Word,
    mscratch: Word, mtvec: Word, mie: Word, mip: Word,
    mepc: Word, mtval: Word, mcause: Word)

  /** Every CSR at 0, as CPU::new leaves them. */
  const ZERO_CSRS: Csrs := Csrs(0, 0, 0, 0, 0, 0, 0, 0, 0, 0, 0, 0, 0, 0, 0, 0, 0, 0)

  /**
   * The part of the machine the instructions act on, as a value: the
   * registers, the program counter, the reservation word and the bytes of
   * main memory.
   */
  datatype Core = Core(x: seq<Word>, pc: Word, extraflags: Word, bytes: seq<Byte>)

  /**
   * The register a register field names.  The fields are five bits wide, so
   * the mask keeps the whole field (RegIsField) and only makes the bound
   * visible.
   */
  function Reg(field: Word): (r: nat)
    ensures r < 32
  {
    (field & 31) as nat
  }

  lemma RegIsField(field: Word)
    requires field < 32
    ensures Reg(field) == field as nat
  {
  }

  class CPUState {
    /** x0 .. x31. */
    const x: array<Word>
    var pc: Word
    var trap: Word
    /**
     * The load reservation of LR.W/SC.W: the reserved address shifted up by 3
     * bits over 3 bits kept from before.  CPUState in src/cpu/mod.rs does not
     * declare it although src/ext/a/mod.rs uses it; it starts at 0 here.
     */
    var extraflags: Word
    var csrs: Csrs
    /** The bus CPUState shares with the rest of the machine. */
    const bus: Bus

    /** The state CPU::new builds: every register, pc, trap and CSR zero. */
    constructor (bus: Bus)
      ensures this.bus == bus
      ensures fresh(x) && x.Length == 32
      ensures forall i :: 0 <= i < 32 ==> x[i] == 0
      ensures pc == 0 && trap == 0 && extraflags == 0 && csrs == ZERO_CSRS
    {
      x := new Word[32](_ => 0);
      pc := 0;
      trap := 0;
      extraflags := 0;
      csrs := ZERO_CSRS;
      this.bus := bus;
    }

    /** The registers, pc, reservation and memory as one value. */
    function Snapshot(): Core
      reads this, x, bus.memory
    {
      Core(x[..], pc, extraflags, bus.memory.bytes)
    }
  }
}
