/**
 * The base integer extension as far as the emulator implements it
 * (src/ext/i/mod.rs): ADDI and ADD.  Each instruction recognises its words
 * with a match_mask! template and acts on the registers through a view of
 * the word.
 */
module ExtI {
  import opened Rv32
  import opened Bits
  import opened Encoding
  import Helpers
  import opened CpuState

  const ADDI_TEMPLATE: string := "xxxxxxxxxxxxxxxxx000xxxxx0010011"
  const ADD_TEMPLATE: string := "0000000xxxxxxxxxx000xxxxx0110011"

  /** ExtensionI, its variants in declaration order. */
  datatype ExtensionI = ADDI | ADD
  {
    function Name(): string
    {
      match this
      case ADDI => "ADDI"
      case ADD => "ADD"
    }

    function Template(): string
    {
      match this
      case ADDI => ADDI_TEMPLATE
      case ADD => ADD_TEMPLATE
    }

    /** match_inst: the check match_mask! emits, with the constants it computes for Template(). */
    predicate MatchInst(inst: Word)
    ensures MatchInst(inst) <==> Matches(inst, Compile(Template()).zeros, Compile(Template()).ones)
    {
      match this
      case ADDI => AddiMasks(); Matches(inst, 0x707F, 0x13)
      case ADD => AddMasks(); Matches(inst, 0xFE00_707F, 0x33)
    }
  }

  // ---------------------------------------------------------------------
  // The constants of the two templates.

  lemma AddiShape()
    ensures ADDI_TEMPLATE == Wild(17) + "000" + Wild(5) + "0010011"
  {
  }

  lemma AddShape()
    ensures ADD_TEMPLATE == "0000000" + Wild(10) + "000" + Wild(5) + "0110011"
  {
  }

  lemma Piece000()
    ensures Compile("000") == Masks(7, 0)
  {
    assert Numeral(Zeros, "000", 3) == 7;
    assert Numeral(Ones, "000", 3) == 0;
  }

  lemma Piece0000000()
    ensures Compile("0000000") == Masks(0x7F, 0)
  {
    assert Numeral(Zeros, "0000000", 7) == 0x7F;
    assert Numeral(Ones, "0000000", 7) == 0;
  }

  lemma Piece0010011()
    ensures Compile("0010011") == Masks(0x7F, 0x13)
  {
    assert Numeral(Zeros, "0010011", 7) == 0x7F;
    assert Numeral(Ones, "0010011", 7) == 0x13;
  }

  lemma Piece0110011()
    ensures Compile("0110011") == Masks(0x7F, 0x33)
  {
    assert Numeral(Zeros, "0110011", 7) == 0x7F;
    assert Numeral(Ones, "0110011", 7) == 0x33;
  }

  /** What match_mask! computes for the ADDI template. */
  lemma AddiMasks()
    ensures Compile(ADDI_TEMPLATE) == Masks(0x707F, 0x13)
  {
    hide Numeral, Compile, Wild;
    AddiShape();
    WildCompile(17);
    Piece000();
    JoinCompile(Wild(17), "000");
    assert Shl(0, 3) == 0;
    WildCompile(5);
    JoinCompile(Wild(17) + "000", Wild(5));
    assert Shl(7, 5) == 0xE0;
    assert Shl(0, 5) == 0;
    Piece0010011();
    JoinCompile(Wild(17) + "000" + Wild(5), "0010011");
    assert Shl(0xE0, 7) == 0x7000;
    assert Shl(0, 7) == 0;
  }

  /** What match_mask! computes for the ADD template. */
  lemma AddMasks()
    ensures Compile(ADD_TEMPLATE) == Masks(0xFE00_707F, 0x33)
  {
    hide Numeral, Compile, Wild;
    AddShape();
    Piece0000000();
    WildCompile(10);
    JoinCompile("0000000", Wild(10));
    assert Shl(0x7F, 10) == 0x1FC00;
    assert Shl(0, 10) == 0;
    Piece000();
    JoinCompile("0000000" + Wild(10), "000");
    assert Shl(0x1FC00, 3) == 0xFE000;
    assert Shl(0, 3) == 0;
    WildCompile(5);
    JoinCompile("0000000" + Wild(10) + "000", Wild(5));
    assert Shl(0xFE007, 5) == 0x1FC00E0;
    assert Shl(0, 5) == 0;
    Piece0110011();
    JoinCompile("0000000" + Wild(10) + "000" + Wild(5), "0110011");
    assert Shl(0x1FC00E0, 7) == 0xFE007000;
    assert Shl(0, 7) == 0;
  }

  // ---------------------------------------------------------------------
  // Which words each instruction accepts.

  /** ADDI accepts exactly the words with opcode 0010011 and funct3 000. */
  lemma AddiMatchIff(inst: Word)
    ensures ADDI.MatchInst(inst) <==> AsI(inst).opcode == 0x13 && AsI(inst).funct3 == 0
  {
    MatchesIff(inst, 0x707F, 0x13);
    AddiFields(inst);
  }

  lemma AddiFields(inst: Word)
    ensures inst & 0x707F == 0x13 <==> Field(inst, 0, 7) == 0x13 && Field(inst, 12, 3) == 0
  {
  }

  /** ADD accepts exactly the words with funct7 0000000, funct3 000 and opcode 0110011. */
  lemma AddMatchIff(inst: Word)
    ensures ADD.MatchInst(inst) <==> AsR(inst).funct7 == 0 && AsR(inst).funct3 == 0 && AsR(inst).opcode == 0x33
  {
    MatchesIff(inst, 0xFE00_707F, 0x33);
    AddFields(inst);
  }

  lemma AddFields(inst: Word)
    ensures inst & 0xFE00_707F == 0x33 <==> Field(inst, 25, 7) == 0 && Field(inst, 12, 3) == 0 && Field(inst, 0, 7) == 0x33
  {
  }

  /** No word is both: the opcodes differ in bit 5. */
  lemma AddiAddDisjoint(inst: Word)
    ensures !(ADDI.MatchInst(inst) && ADD.MatchInst(inst))
  {
    MatchesIff(inst, 0x707F, 0x13);
    MatchesIff(inst, 0xFE00_707F, 0x33);
    OpcodeBitFive(inst);
  }

  lemma OpcodeBitFive(inst: Word)
    ensures !(inst & 0x707F == 0x13 && inst & 0xFE00_707F == 0x33)
  {
  }

  // ---------------------------------------------------------------------
  // Execution.

  /**
   * The value ADDI::step writes: x[rs1] + sext(imm, 32), wrapping.  sext at
   * full width is the identity, so the immediate is added zero-extended: the
   * register gains bits 31:20 of the word as an unsigned number.
   */
  function AddiResult(src: Word, inst: Word): (r: Word)
    ensures r == src + (inst >> 20)
  {
    AddiImmediate(inst);
    src + Helpers.Sext(IFullImm(AsI(inst)), 32)
  }

  /** The immediate ADDI adds: sext at full width leaves bits 31:20 of the word unsigned. */
  lemma AddiImmediate(inst: Word)
    ensures Helpers.Sext(IFullImm(AsI(inst)), 32) == inst >> 20
  {
    Helpers.SextFullWidth(IFullImm(AsI(inst)));
    IFullImmIsTop(inst);
  }

  /**
   * The immediate ADDI adds differs from the sign-extended immediate of the
   * RISC-V ADDI whenever bit 31 of the word is set: the emulator adds a value
   * below 4096 where the ISA subtracts.
   */
  lemma AddiZeroExtends(inst: Word)
    requires inst >> 31 == 1
    ensures Helpers.Sext(IFullImm(AsI(inst)), 32) != ISextImm(AsI(inst))
  {
    AddiImmediate(inst);
    ISextImmIsArithmeticShift(inst);
    TopBitsDiffer(inst);
  }

  /** With bit 31 of the word clear the two immediates agree, so small positive immediates add as the ISA says. */
  lemma AddiAgreesWhenPositive(inst: Word)
    requires inst >> 31 == 0
    ensures Helpers.Sext(IFullImm(AsI(inst)), 32) == ISextImm(AsI(inst))
  {
    AddiImmediate(inst);
    ISextImmIsArithmeticShift(inst);
  }

  lemma TopBitsDiffer(inst: Word)
    requires inst >> 31 == 1
    ensures inst >> 20 != (inst >> 20) | 0xFFFF_F000
  {
  }

  /** ADDI::step as a change of the machine: x[rd] gets AddiResult, nothing else changes. */
  function AddiExec(inst: Word, c: Core): (r: Core)
    requires |c.x| == 32
    ensures |r.x| == 32 && r.pc == c.pc && r.extraflags == c.extraflags && r.bytes == c.bytes
    ensures r.x[Reg(AsI(inst).rd)] == AddiResult(c.x[Reg(AsI(inst).rs1)], inst)
    ensures forall i :: 0 <= i < 32 && i != Reg(AsI(inst).rd) ==> r.x[i] == c.x[i]
  {
    c.(x := c.x[Reg(AsI(inst).rd) := AddiResult(c.x[Reg(AsI(inst).rs1)], inst)])
  }

  /** The value ADD::step writes: the sum of the two registers modulo 2^32. */
  function AddResult(a: Word, b: Word): Word
  {
    a + b
  }

  /**
   * ADD's sum wraps modulo 2^32 instead of failing: it is commutative with 0
   * as unit, the largest word plus one is 0, and every word plus its bitwise
   * complement plus one is 0 (two's complement negation).
   */
  lemma AddWraps(a: Word, b: Word)
    ensures AddResult(a, b) == AddResult(b, a)
    ensures AddResult(a, 0) == a
    ensures AddResult(0xFFFF_FFFF, 1) == 0
    ensures AddResult(AddResult(a, !a), 1) == 0
  {
  }

  /** ADD::step as a change of the machine: x[rd] gets x[rs1] + x[rs2], wrapping; nothing else changes. */
  function AddExec(inst: Word, c: Core): (r: Core)
    requires |c.x| == 32
    ensures |r.x| == 32 && r.pc == c.pc && r.extraflags == c.extraflags && r.bytes == c.bytes
    ensures r.x[Reg(AsR(inst).rd)] == AddResult(c.x[Reg(AsR(inst).rs1)], c.x[Reg(AsR(inst).rs2)])
    ensures forall i :: 0 <= i < 32 && i != Reg(AsR(inst).rd) ==> r.x[i] == c.x[i]
  {
    c.(x := c.x[Reg(AsR(inst).rd) := AddResult(c.x[Reg(AsR(inst).rs1)], c.x[Reg(AsR(inst).rs2)])])
  }

  /** ADDI::step, in place on the register file. */
  method StepAddi(inst: Word, state: CPUState)
    requires state.x.Length == 32
    modifies state.x
    ensures state.Snapshot() == AddiExec(inst, old(state.Snapshot()))
  {
    hide AsI, AddiResult, Reg;
    state.x[Reg(AsI(inst).rd)] := AddiResult(state.x[Reg(AsI(inst).rs1)], inst);
  }

  /** ADD::step, in place on the register file. */
  method StepAdd(inst: Word, state: CPUState)
    requires state.x.Length == 32
    modifies state.x
    ensures state.Snapshot() == AddExec(inst, old(state.Snapshot()))
  {
    hide AsR, AddResult, Reg;
    state.x[Reg(AsR(inst).rd)] := AddResult(state.x[Reg(AsR(inst).rs1)], state.x[Reg(AsR(inst).rs2)]);
  }
}
