/**
 * The CSR extension as the emulator has it (src/ext/z/mod.rs): a single
 * entry named CSRRW whose template and step are copies of MULW's, that is,
 * of LUI.  It matches every word with opcode 0110111 and loads the upper
 * immediate; no CSR is read or written.
 */
module ExtZ {
  import opened Rv32
  import opened Bits
  import opened Encoding
  import opened CpuState
  import ExtM

  const CSRRW_TEMPLATE: string := "xxxxxxxxxxxxxxxxxxxxxxxxx0110111"

  /** ExtensionZ: one variant. */
  datatype ExtensionZ = CSRRW
  {
    function Name(): string
    {
      "CSRRW"
    }

    function Template(): string
    {
      CSRRW_TEMPLATE
    }

    /** match_inst: the check match_mask! emits for Template(). */
    predicate MatchInst(inst: Word)
    ensures MatchInst(inst) <==> Matches(inst, Compile(Template()).zeros, Compile(Template()).ones)
    {
      SameTemplateAsMulw();
      ExtM.MulwMasks();
      Matches(inst, 0x7F, 0x37)
    }
  }

  /** The CSRRW template is the MULW template, character for character. */
  lemma SameTemplateAsMulw()
    ensures CSRRW_TEMPLATE == ExtM.MULW_TEMPLATE
  {
  }

  /** CSRRW accepts exactly the words MULW accepts: those with the LUI opcode. */
  lemma CsrrwMatchIff(inst: Word)
    ensures CSRRW.MatchInst(inst) <==> ExtM.ExtensionM.MULW.MatchInst(inst)
    ensures CSRRW.MatchInst(inst) <==> AsU(inst).opcode == 0x37
  {
    ExtM.MulwMatchIff(inst);
  }

  /** CSRRW::step as a change of the machine: x[rd] gets the upper immediate, nothing else changes. */
  function CsrrwExec(inst: Word, c: Core): (r: Core)
    requires |c.x| == 32
    ensures r == ExtM.MulwExec(inst, c)
  {
    c.(x := c.x[Reg(AsU(inst).rd) := ExtM.UpperResult(inst)])
  }

  /** CSRRW::step, in place on the register file. */
  method StepCsrrw(inst: Word, state: CPUState)
    requires state.x.Length == 32
    modifies state.x
    ensures state.Snapshot() == CsrrwExec(inst, old(state.Snapshot()))
  {
    hide AsU, ExtM.UpperResult, Reg;
    state.x[Reg(AsU(inst).rd)] := ExtM.UpperResult(inst);
  }
}
