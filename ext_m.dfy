/**
 * The multiply extension as the emulator has it (src/ext/m/mod.rs): a single
 * entry named MULW whose template and step are those of LUI.  It matches
 * every word with opcode 0110111 and loads the upper immediate; nothing is
 * multiplied.
 */
module ExtM {
  import opened Rv32
  import opened Bits
  import opened Encoding
  import opened CpuState

  const MULW_TEMPLATE: string := "xxxxxxxxxxxxxxxxxxxxxxxxx0110111"

  /** ExtensionM: one variant. */
  datatype ExtensionM = MULW
  {
    function Name(): string
    {
      "MULW"
    }

    function Template(): string
    {
      MULW_TEMPLATE
    }

    /** match_inst: the check match_mask! emits for Template(). */
    predicate MatchInst(inst: Word)
    ensures MatchInst(inst) <==> Matches(inst, Compile(Template()).zeros, Compile(Template()).ones)
    {
      MulwMasks();
      Matches(inst, 0x7F, 0x37)
    }
  }

  lemma MulwShape()
    ensures MULW_TEMPLATE == Wild(25) + "0110111"
  {
  }

  lemma Piece0110111()
    ensures Compile("0110111") == Masks(0x7F, 0x37)
  {
    assert Numeral(Zeros, "0110111", 7) == 0x7F;
    assert Numeral(Ones, "0110111", 7) == 0x37;
  }

  /** What match_mask! computes for the MULW template: only the opcode is literal. */
  lemma MulwMasks()
    ensures Compile(MULW_TEMPLATE) == Masks(0x7F, 0x37)
  {
    hide Numeral, Compile, Wild;
    MulwShape();
    WildCompile(25);
    Piece0110111();
    JoinCompile(Wild(25), "0110111");
    assert Shl(0, 7) == 0;
  }

  /** MULW accepts exactly the words whose opcode is 0110111, the opcode of LUI. */
  lemma MulwMatchIff(inst: Word)
    ensures MULW.MatchInst(inst) <==> AsU(inst).opcode == 0x37
  {
    MatchesIff(inst, 0x7F, 0x37);
    LuiFields(inst);
  }

  lemma LuiFields(inst: Word)
    ensures inst & 0x7F == 0x37 <==> Field(inst, 0, 7) == 0x37
  {
  }

  /** The value MULW::step writes, full_imm << 12: the word with its low twelve bits cleared. */
  function UpperResult(inst: Word): (r: Word)
    ensures r == inst & 0xFFFF_F000
  {
    UFullImmInPlace(inst);
    UFullImm(AsU(inst)) << 12
  }

  /** MULW::step as a change of the machine: x[rd] gets UpperResult, nothing else changes. */
  function MulwExec(inst: Word, c: Core): (r: Core)
    requires |c.x| == 32
    ensures |r.x| == 32 && r.pc == c.pc && r.extraflags == c.extraflags && r.bytes == c.bytes
    ensures r.x[Reg(AsU(inst).rd)] == UpperResult(inst)
    ensures forall i :: 0 <= i < 32 && i != Reg(AsU(inst).rd) ==> r.x[i] == c.x[i]
  {
    c.(x := c.x[Reg(AsU(inst).rd) := UpperResult(inst)])
  }

  /** MULW::step, in place on the register file. */
  method StepMulw(inst: Word, state: CPUState)
    requires state.x.Length == 32
    modifies state.x
    ensures state.Snapshot() == MulwExec(inst, old(state.Snapshot()))
  {
    hide AsU, UpperResult, Reg;
    state.x[Reg(AsU(inst).rd)] := UpperResult(inst);
  }
}
