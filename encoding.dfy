/**
 * The instruction formats of section 2.2 of the RISC-V Unprivileged ISA as
 * the emulator lays them out with modular_bitfield (src/ext/encoding.rs, and
 * the earlier copy in src/inst.rs).  A bitfield struct packs its fields from
 * bit 0 upward in declaration order, so each field's position is the sum of
 * the widths declared before it.  The union GenInstruction, which lets the
 * emulator read one word through any of the layouts, becomes one view
 * function per layout; the packing functions are their inverses.
 */
module Encoding {
  import opened Rv32
  import Helpers

  /** The width bits of w starting at bit lo, moved down to bit 0: a bitfield getter. */
  function Field(w: Word, lo: bv6, width: bv6): Word
    requires 0 < width && lo as int + width as int <= 32
  {
    (w >> lo) & ((1 << width) - 1)
  }

  // ---------------------------------------------------------------------
  // The layouts, with their field widths in declaration order.

  /** opcode: 7, unused: 25. */
  datatype NullType = NullType(opcode: Word, unused: Word)

  /** opcode: 7, rd: 5, funct3: 3, rs1: 5, rs2: 5, funct7: 7. */
  datatype RType = RType(opcode: Word, rd: Word, funct3: Word, rs1: Word, rs2: Word, funct7: Word)

  /** opcode: 7, rd: 5, funct3: 3, rs1: 5, imm: 12. */
  datatype IType = IType(opcode: Word, rd: Word, funct3: Word, rs1: Word, imm: Word)

  /** opcode: 7, imm_4_0: 5, funct3: 3, rs1: 5, rs2: 5, imm_11_5: 7. */
  datatype SType = SType(opcode: Word, imm_4_0: Word, funct3: Word, rs1: Word, rs2: Word, imm_11_5: Word)

  /** opcode: 7, imm_11: 1, imm_4_1: 4, funct3: 3, rs1: 5, rs2: 5, imm_10_5: 6, imm_12: 1. */
  datatype BType = BType(opcode: Word, imm_11: Word, imm_4_1: Word, funct3: Word, rs1: Word, rs2: Word,
                         imm_10_5: Word, imm_12: Word)

  /** opcode: 7, rd: 5, imm: 20. */
  datatype UType = UType(opcode: Word, rd: Word, imm: Word)

  /** opcode: 7, rd: 5, imm_19_12: 8, imm_11: 1, imm_10_1: 10, imm_20: 1. */
  datatype JType = JType(opcode: Word, rd: Word, imm_19_12: Word, imm_11: Word, imm_10_1: Word, imm_20: Word)

  // ---------------------------------------------------------------------
  // Reading a word through each layout: fields at the running sum of widths.

  function AsNull(inst: Word): (r: NullType)
    ensures FitsNull(r)
  {
    NullType(Field(inst, 0, 7), Field(inst, 7, 25))
  }

  function AsR(inst: Word): (r: RType)
    ensures FitsR(r)
  {
    RType(Field(inst, 0, 7), Field(inst, 7, 5), Field(inst, 12, 3), Field(inst, 15, 5), Field(inst, 20, 5),
          Field(inst, 25, 7))
  }

  function AsI(inst: Word): (r: IType)
    ensures FitsI(r)
  {
    IType(Field(inst, 0, 7), Field(inst, 7, 5), Field(inst, 12, 3), Field(inst, 15, 5), Field(inst, 20, 12))
  }

  function AsS(inst: Word): (r: SType)
    ensures FitsS(r)
  {
    SType(Field(inst, 0, 7), Field(inst, 7, 5), Field(inst, 12, 3), Field(inst, 15, 5), Field(inst, 20, 5),
          Field(inst, 25, 7))
  }

  function AsB(inst: Word): (r: BType)
    ensures FitsB(r)
  {
    BType(Field(inst, 0, 7), Field(inst, 7, 1), Field(inst, 8, 4), Field(inst, 12, 3), Field(inst, 15, 5),
          Field(inst, 20, 5), Field(inst, 25, 6), Field(inst, 31, 1))
  }

  function AsU(inst: Word): (r: UType)
    ensures FitsU(r)
  {
    UType(Field(inst, 0, 7), Field(inst, 7, 5), Field(inst, 12, 20))
  }

  function AsJ(inst: Word): (r: JType)
    ensures FitsJ(r)
  {
    JType(Field(inst, 0, 7), Field(inst, 7, 5), Field(inst, 12, 8), Field(inst, 20, 1), Field(inst, 21, 10),
          Field(inst, 31, 1))
  }

  // ---------------------------------------------------------------------
  // Every field value fits its declared width.

  predicate FitsNull(n: NullType)
  {
    n.opcode < 0x80 && n.unused < 0x200_0000
  }

  predicate FitsR(r: RType)
  {
    r.opcode < 0x80 && r.rd < 0x20 && r.funct3 < 8 && r.rs1 < 0x20 && r.rs2 < 0x20 && r.funct7 < 0x80
  }

  predicate FitsI(i: IType)
  {
    i.opcode < 0x80 && i.rd < 0x20 && i.funct3 < 8 && i.rs1 < 0x20 && i.imm < 0x1000
  }

  predicate FitsS(s: SType)
  {
    s.opcode < 0x80 && s.imm_4_0 < 0x20 && s.funct3 < 8 && s.rs1 < 0x20 && s.rs2 < 0x20 && s.imm_11_5 < 0x80
  }

  predicate FitsB(b: BType)
  {
    b.opcode < 0x80 && b.imm_11 < 2 && b.imm_4_1 < 0x10 && b.funct3 < 8 && b.rs1 < 0x20 && b.rs2 < 0x20
    && b.imm_10_5 < 0x40 && b.imm_12 < 2
  }

  predicate FitsU(u: UType)
  {
    u.opcode < 0x80 && u.rd < 0x20 && u.imm < 0x10_0000
  }

  predicate FitsJ(j: JType)
  {
    j.opcode < 0x80 && j.rd < 0x20 && j.imm_19_12 < 0x100 && j.imm_11 < 2 && j.imm_10_1 < 0x400 && j.imm_20 < 2
  }

  // ---------------------------------------------------------------------
  // Writing fields back into a word (the inverse of each view).

  function PackNull(n: NullType): Word
  {
    n.opcode | (n.unused << 7)
  }

  function PackR(r: RType): Word
  {
    r.opcode | (r.rd << 7) | (r.funct3 << 12) | (r.rs1 << 15) | (r.rs2 << 20) | (r.funct7 << 25)
  }

  function PackI(i: IType): Word
  {
    i.opcode | (i.rd << 7) | (i.funct3 << 12) | (i.rs1 << 15) | (i.imm << 20)
  }

  function PackS(s: SType): Word
  {
    s.opcode | (s.imm_4_0 << 7) | (s.funct3 << 12) | (s.rs1 << 15) | (s.rs2 << 20) | (s.imm_11_5 << 25)
  }

  function PackB(b: BType): Word
  {
    b.opcode | (b.imm_11 << 7) | (b.imm_4_1 << 8) | (b.funct3 << 12) | (b.rs1 << 15) | (b.rs2 << 20)
    | (b.imm_10_5 << 25) | (b.imm_12 << 31)
  }

  function PackU(u: UType): Word
  {
    u.opcode | (u.rd << 7) | (u.imm << 12)
  }

  function PackJ(j: JType): Word
  {
    j.opcode | (j.rd << 7) | (j.imm_19_12 << 12) | (j.imm_11 << 20) | (j.imm_10_1 << 21) | (j.imm_20 << 31)
  }

  // ---------------------------------------------------------------------
  // Each layout partitions the 32 bits: reading and packing are inverse.

  /** Packing the fields read from a word gives back the word: no bit is lost. */
  lemma NullRoundTrip(inst: Word)
    ensures FitsNull(AsNull(inst)) && PackNull(AsNull(inst)) == inst
  {
  }

  /** Reading back packed fields gives the fields: no two fields overlap. */
  lemma NullPack(n: NullType)
    requires FitsNull(n)
    ensures AsNull(PackNull(n)) == n
  {
  }

  lemma RRoundTrip(inst: Word)
    ensures FitsR(AsR(inst)) && PackR(AsR(inst)) == inst
  {
  }

  lemma RPack(r: RType)
    requires FitsR(r)
    ensures AsR(PackR(r)) == r
  {
  }

  lemma IRoundTrip(inst: Word)
    ensures FitsI(AsI(inst)) && PackI(AsI(inst)) == inst
  {
  }

  lemma IPack(i: IType)
    requires FitsI(i)
    ensures AsI(PackI(i)) == i
  {
  }

  lemma SRoundTrip(inst: Word)
    ensures FitsS(AsS(inst)) && PackS(AsS(inst)) == inst
  {
  }

  lemma SPack(s: SType)
    requires FitsS(s)
    ensures AsS(PackS(s)) == s
  {
  }

  lemma BRoundTrip(inst: Word)
    ensures FitsB(AsB(inst)) && PackB(AsB(inst)) == inst
  {
  }

  lemma BPack(b: BType)
    requires FitsB(b)
    ensures AsB(PackB(b)) == b
  {
  }

  lemma URoundTrip(inst: Word)
    ensures FitsU(AsU(inst)) && PackU(AsU(inst)) == inst
  {
  }

  lemma UPack(u: UType)
    requires FitsU(u)
    ensures AsU(PackU(u)) == u
  {
  }

  lemma JRoundTrip(inst: Word)
    ensures FitsJ(AsJ(inst)) && PackJ(AsJ(inst)) == inst
  {
  }

  lemma JPack(j: JType)
    requires FitsJ(j)
    ensures AsJ(PackJ(j)) == j
  {
  }

  // ---------------------------------------------------------------------
  // The views agree where the formats share a field.

  /** The opcode is bits 6:0 whichever layout the word is read through. */
  lemma OpcodeInEveryView(inst: Word)
    ensures AsNull(inst).opcode == inst & 0x7F
    ensures AsR(inst).opcode == AsI(inst).opcode == AsS(inst).opcode == AsNull(inst).opcode
    ensures AsB(inst).opcode == AsU(inst).opcode == AsJ(inst).opcode == AsNull(inst).opcode
  {
  }

  /** rd, rs1, rs2 and funct3 sit at the same bits in every format that has them. */
  lemma SharedFields(inst: Word)
    ensures AsR(inst).rd == AsI(inst).rd == AsU(inst).rd == AsJ(inst).rd
    ensures AsR(inst).rs1 == AsI(inst).rs1 == AsS(inst).rs1 == AsB(inst).rs1
    ensures AsR(inst).rs2 == AsS(inst).rs2 == AsB(inst).rs2
    ensures AsR(inst).funct3 == AsI(inst).funct3 == AsS(inst).funct3 == AsB(inst).funct3
  {
  }

  // ---------------------------------------------------------------------
  // Immediates (the ImmediateMode implementations).

  /** IType::full_imm: the 12-bit immediate field as it stands. */
  function IFullImm(i: IType): (r: Word)
    ensures FitsI(i) ==> r < 0x1000
  {
    i.imm
  }

  /** IType::sext_imm: the immediate sign-extended from bit 11. */
  function ISextImm(i: IType): (r: Word)
    ensures FitsI(i) ==> r == if i.imm >> 11 == 0 then i.imm else i.imm | 0xFFFF_F000
  {
    SextTwelve(IFullImm(i));
    Helpers.Sext(IFullImm(i), 12)
  }

  /** SType::full_imm: imm[11:5] above imm[4:0]. */
  function SFullImm(s: SType): (r: Word)
    ensures FitsS(s) ==> r < 0x1000 && r >> 5 == s.imm_11_5 && r & 0x1F == s.imm_4_0
  {
    (s.imm_11_5 << 5) | s.imm_4_0
  }

  /** SType::sext_imm: that immediate sign-extended from bit 11. */
  function SSextImm(s: SType): (r: Word)
    ensures FitsS(s) ==> r == if SFullImm(s) >> 11 == 0 then SFullImm(s) else SFullImm(s) | 0xFFFF_F000
  {
    SextTwelve(SFullImm(s));
    Helpers.Sext(SFullImm(s), 12)
  }

  /**
   * UType::full_imm, which src/ext/encoding.rs does not define although
   * src/ext/m/mod.rs and src/ext/z/mod.rs call it: taken here as the raw
   * 20-bit immediate field, as IType::full_imm is for its field.
   */
  function UFullImm(u: UType): (r: Word)
    ensures FitsU(u) ==> r < 0x10_0000
  {
    u.imm
  }

  /** The I immediate is bits 31:20 of the word, so it is below 4096. */
  lemma IFullImmIsTop(inst: Word)
    ensures IFullImm(AsI(inst)) == inst >> 20
    ensures IFullImm(AsI(inst)) < 0x1000
  {
  }

  /** The sign-extended I immediate is the word shifted right by 20 with bit 31 copied in. */
  lemma ISextImmIsArithmeticShift(inst: Word)
    ensures ISextImm(AsI(inst)) == if inst >> 31 == 0 then inst >> 20 else (inst >> 20) | 0xFFFF_F000
  {
    IFullImmIsTop(inst);
    SextTwelve(IFullImm(AsI(inst)));
  }

  /** The S immediate joins bits 31:25 (as imm[11:5]) and bits 11:7 (as imm[4:0]) of the word. */
  lemma SFullImmBits(inst: Word)
    ensures SFullImm(AsS(inst)) == ((inst >> 20) & 0xFE0) | ((inst >> 7) & 0x1F)
    ensures SFullImm(AsS(inst)) < 0x1000
  {
  }

  /** The sign-extended S immediate takes bit 31 of the word into every bit from 11 up. */
  lemma SSextImmSignFill(inst: Word)
    ensures SSextImm(AsS(inst)) == if inst >> 31 == 0 then SFullImm(AsS(inst)) else SFullImm(AsS(inst)) | 0xFFFF_F000
  {
    SFullImmBits(inst);
    SextTwelve(SFullImm(AsS(inst)));
  }

  /** Sign extension from bit 11 of a 12-bit value copies bit 11 into bits 31:12. */
  lemma SextTwelve(v: Word)
    ensures v < 0x1000 ==> Helpers.Sext(v, 12) == if v >> 11 == 0 then v else v | 0xFFFF_F000
  {
    hide Helpers.Sext;
    if v >= 0x1000 {
    } else if v >> 11 == 0 {
      SextTwelveClear(v);
    } else {
      SextTwelveSet(v);
    }
  }

  lemma SextTwelveClear(v: Word)
    requires v < 0x1000 && v >> 11 == 0
    ensures Helpers.Sext(v, 12) == v
  {
  }

  lemma SextTwelveSet(v: Word)
    requires v < 0x1000 && v >> 11 != 0
    ensures Helpers.Sext(v, 12) == v | 0xFFFF_F000
  {
  }

  /** The U immediate shifted back into place is the word with its low 12 bits cleared. */
  lemma UFullImmInPlace(inst: Word)
    ensures UFullImm(AsU(inst)) << 12 == inst & 0xFFFF_F000
  {
  }

  // ---------------------------------------------------------------------
  // Register numbers.

  /** A five-bit field names one of the 32 registers. */
  lemma FiveBitField(w: Word, lo: bv6)
    requires lo <= 27
    ensures Field(w, lo, 5) < 32
  {
  }

  /** The register fields of the R view name registers. */
  lemma RRegisters(inst: Word)
    ensures AsR(inst).rd < 32 && AsR(inst).rs1 < 32 && AsR(inst).rs2 < 32
  {
    FiveBitField(inst, 7);
    FiveBitField(inst, 15);
    FiveBitField(inst, 20);
  }

  /** The register fields of the I view name registers. */
  lemma IRegisters(inst: Word)
    ensures AsI(inst).rd < 32 && AsI(inst).rs1 < 32
  {
    FiveBitField(inst, 7);
    FiveBitField(inst, 15);
  }

  /** The destination field of the U view names a register. */
  lemma URegisters(inst: Word)
    ensures AsU(inst).rd < 32
  {
    FiveBitField(inst, 7);
  }
}
