/**
 * Dispatch of a fetched word to the instruction that executes it.
 * CPU::step calls DecodeCycle::decode_exec_inst (src/cpu/mod.rs:135-137)
 * from src/ext/decode.rs, which defines no DecodeCycle, only a stub
 * decode_inst with an empty body.  The decoder is modelled as a first-match
 * search over the enabled extensions in the order they are listed, and
 * within each extension over its variants in declaration order, failing
 * when nothing matches.
 */
module Decoder {
  import opened Rv32
  import opened Bits
  import opened Encoding
  import opened Bus
  import opened CpuState
  import opened ExtI
  import opened ExtM
  import opened ExtA
  import opened ExtZ

  /** One instruction of one extension. */
  datatype Op = I(i: ExtensionI) | M(m: ExtensionM) | A(a: ExtensionA) | Z(z: ExtensionZ)
  {
    function Name(): string
    {
      match this
      case I(e) => e.Name()
      case M(e) => e.Name()
      case A(e) => e.Name()
      case Z(e) => e.Name()
    }

    /** The match_mask! template of whichever instruction it is. */
    function Template(): string
    {
      match this
      case I(e) => e.Template()
      case M(e) => e.Template()
      case A(e) => e.Template()
      case Z(e) => e.Template()
    }

    /** match_inst of whichever instruction it is, through its extension (MatchTemplate). */
    predicate MatchInst(inst: Word)
    {
      match this
      case I(e) => e.MatchInst(inst)
      case M(e) => e.MatchInst(inst)
      case A(e) => e.MatchInst(inst)
      case Z(e) => e.MatchInst(inst)
    }

    /** The letter of the extension the instruction belongs to. */
    function Extension(): char
    {
      match this
      case I(_) => 'i'
      case M(_) => 'm'
      case A(_) => 'a'
      case Z(_) => 'z'
    }

    /** The seven opcode bits the instruction's template fixes. */
    function Opcode(): Word
    {
      match this
      case I(ADDI) => 0x13
      case I(ADD) => 0x33
      case M(MULW) => 0x37
      case A(_) => 0x2F
      case Z(CSRRW) => 0x37
    }
  }

  /** The six instructions the emulator knows, grouped by extension. */
  lemma EveryOp()
    ensures forall op: Op ::
      || (op.Extension() == 'i' && (op == I(ADDI) || op == I(ADD)))
      || (op.Extension() == 'm' && op == M(MULW))
      || (op.Extension() == 'a' && (op == A(LRW) || op == A(SCW)))
      || (op.Extension() == 'z' && op == Z(CSRRW))
  {
    forall op: Op
      ensures || (op.Extension() == 'i' && (op == I(ADDI) || op == I(ADD)))
              || (op.Extension() == 'm' && op == M(MULW))
              || (op.Extension() == 'a' && (op == A(LRW) || op == A(SCW)))
              || (op.Extension() == 'z' && op == Z(CSRRW))
    {
      match op
      case I(e) => assert e == ADDI || e == ADD;
      case M(e) => assert e == MULW;
      case A(e) => assert e == LRW || e == SCW;
      case Z(e) => assert e == CSRRW;
    }
  }

  /** An instruction accepts a word exactly when the check of its own template holds. */
  lemma MatchTemplate(op: Op, inst: Word)
    ensures op.MatchInst(inst) <==> Matches(inst, Compile(op.Template()).zeros, Compile(op.Template()).ones)
  {
    match op
    case I(e) => assert op.MatchInst(inst) == e.MatchInst(inst);
    case M(e) => assert op.MatchInst(inst) == e.MatchInst(inst);
    case A(e) => assert op.MatchInst(inst) == e.MatchInst(inst);
    case Z(e) => assert op.MatchInst(inst) == e.MatchInst(inst);
  }

  /** The names tell the six instructions apart. */
  lemma NamesIdentify(a: Op, b: Op)
    ensures a.Name() == b.Name() <==> a == b
  {
    EveryOp();
  }

  /** The extensions the emulator enables, in the order it lists them. */
  const EXTENSIONS: seq<char> := ['i', 'm', 'a', 'z']

  /** The variants of the extension a letter names, in declaration order; other letters name none. */
  function Variants(ext: char): (r: seq<Op>)
    ensures forall op: Op :: op in r <==> op.Extension() == ext
  {
    EveryOp();
    match ext
    case 'i' => [I(ADDI), I(ADD)]
    case 'm' => [M(MULW)]
    case 'a' => [A(LRW), A(SCW)]
    case 'z' => [Z(CSRRW)]
    case _ => []
  }

  /** Every instruction of the listed extensions, in search order. */
  function Candidates(exts: seq<char>): (r: seq<Op>)
    ensures forall op: Op :: op in r <==> op.Extension() in exts
  {
    if exts == [] then [] else Variants(exts[0]) + Candidates(exts[1..])
  }

  /** The first position at or after from whose instruction accepts inst. */
  function Find(ops: seq<Op>, inst: Word, from: nat): (r: Result<nat>)
    requires from <= |ops|
    ensures r.Ok? ==> from <= r.value < |ops| && ops[r.value].MatchInst(inst)
    ensures r.Ok? ==> forall j :: from <= j < r.value ==> !ops[j].MatchInst(inst)
    ensures r.Err? <==> forall j :: from <= j < |ops| ==> !ops[j].MatchInst(inst)
    ensures r.Err? ==> r.error == NoInstruction(inst)
    decreases |ops| - from
  {
    hide Op.MatchInst;
    if from == |ops| then Err(NoInstruction(inst))
    else if ops[from].MatchInst(inst) then Ok(from)
    else Find(ops, inst, from + 1)
  }

  /** The instruction the decoder runs for inst, or the failure to find one. */
  function Decode(exts: seq<char>, inst: Word): (r: Result<Op>)
    ensures r.Ok? ==> r.value.MatchInst(inst)
    ensures r.Err? ==> r.error == NoInstruction(inst)
  {
    var k :- Find(Candidates(exts), inst, 0);
    Ok(Candidates(exts)[k])
  }

  // ---------------------------------------------------------------------
  // Decoding with the extensions the emulator enables.

  lemma DefaultCandidates()
    ensures Candidates(EXTENSIONS) == [I(ADDI), I(ADD), M(MULW), A(LRW), A(SCW), Z(CSRRW)]
  {
    assert Candidates(EXTENSIONS[3..]) == [Z(CSRRW)];
    assert Candidates(EXTENSIONS[2..]) == [A(LRW), A(SCW), Z(CSRRW)];
  }

  /** Every instruction belongs to an enabled extension. */
  lemma AllEnabled(op: Op)
    ensures op in Candidates(EXTENSIONS)
  {
    DefaultCandidates();
    match op
    case I(ADDI) =>
    case I(ADD) =>
    case M(MULW) =>
    case A(LRW) =>
    case A(SCW) =>
    case Z(CSRRW) =>
  }

  lemma OpcodeOfMatch(inst: Word, zeros: Word, ones: Word)
    requires inst & zeros == ones && zeros & 0x7F == 0x7F
    ensures inst & 0x7F == ones & 0x7F
  {
  }

  /** A word a template check accepts carries the template's opcode bits. */
  lemma MatchesOpcode(inst: Word, zeros: Word, ones: Word)
    requires Matches(inst, zeros, ones) && zeros & 0x7F == 0x7F
    ensures inst & 0x7F == ones & 0x7F
  {
    MatchesIff(inst, zeros, ones);
    OpcodeOfMatch(inst, zeros, ones);
  }

  /** A word an instruction accepts carries that instruction's opcode. */
  lemma MatchOpcode(op: Op, inst: Word)
    requires op.MatchInst(inst)
    ensures inst & 0x7F == op.Opcode()
  {
    hide Matches;
    match op
    case I(ADDI) => MatchesOpcode(inst, 0x707F, 0x13);
    case I(ADD) => MatchesOpcode(inst, 0xFE00_707F, 0x33);
    case M(MULW) => MatchesOpcode(inst, 0x7F, 0x37);
    case A(LRW) => MatchesOpcode(inst, 0xF9F0_707F, 0x1000_202F);
    case A(SCW) => MatchesOpcode(inst, 0xF800_707F, 0x1800_202F);
    case Z(CSRRW) => MatchesOpcode(inst, 0x7F, 0x37);
  }

  /** Which instructions carry each opcode. */
  lemma OpcodeOwners(p: Op)
    ensures p.Opcode() == 0x13 <==> p == I(ADDI)
    ensures p.Opcode() == 0x33 <==> p == I(ADD)
    ensures p.Opcode() == 0x2F <==> p.A?
    ensures p.Opcode() == 0x37 <==> p == M(MULW) || p == Z(CSRRW)
  {
    match p
    case I(ADDI) =>
    case I(ADD) =>
    case M(MULW) =>
    case A(_) =>
    case Z(CSRRW) =>
  }

  /** Only the two atomic instructions, and MULW and CSRRW, share an opcode. */
  lemma SameOpcode(p: Op, q: Op)
    requires p != q && p.Opcode() == q.Opcode()
    ensures (p.A? && q.A?) || (p in {M(MULW), Z(CSRRW)} && q in {M(MULW), Z(CSRRW)})
  {
    OpcodeOwners(p);
    OpcodeOwners(q);
  }

  /** Two different instructions accept the same word only if they are MULW and CSRRW. */
  lemma OnlyLuiOverlaps(p: Op, q: Op, inst: Word)
    requires p != q && p.MatchInst(inst) && q.MatchInst(inst)
    ensures p in {M(MULW), Z(CSRRW)} && q in {M(MULW), Z(CSRRW)}
  {
    MatchOpcode(p, inst);
    MatchOpcode(q, inst);
    SameOpcode(p, q);
    if p.A? && q.A? {
      LrwScwDisjoint(inst);
      assert false;
    }
  }

  /** Every instruction but CSRRW is chosen for every word it accepts. */
  lemma DecodeFinds(op: Op, inst: Word)
    requires op != Z(CSRRW) && op.MatchInst(inst)
    ensures Decode(EXTENSIONS, inst) == Ok(op)
  {
    DefaultCandidates();
    AllEnabled(op);
    var ops := Candidates(EXTENSIONS);
    var found := Find(ops, inst, 0);
    if ops[found.value] != op {
      OnlyLuiOverlaps(ops[found.value], op, inst);
      assert false;
    }
  }

  /** CSRRW is never chosen: MULW accepts the same words and is searched first. */
  lemma CsrrwUnreachable(inst: Word)
    ensures Decode(EXTENSIONS, inst) != Ok(Z(CSRRW))
  {
    DefaultCandidates();
    CsrrwMatchIff(inst);
  }

  /** A word no enabled instruction accepts fails to decode, whatever the opcode. */
  lemma DecodeFails(inst: Word)
    requires forall op: Op :: !op.MatchInst(inst)
    ensures Decode(EXTENSIONS, inst) == Err(NoInstruction(inst))
  {
  }

  // ---------------------------------------------------------------------
  // Execution.

  /** What the instruction op does to the machine for the word inst. */
  function Execute(op: Op, inst: Word, c: Core): (r: Result<Core>)
    requires |c.x| == 32
    ensures r.Ok? ==> |r.value.x| == 32 && r.value.pc == c.pc
  {
    match op
    case I(ADDI) => Ok(AddiExec(inst, c))
    case I(ADD) => Ok(AddExec(inst, c))
    case M(MULW) => Ok(MulwExec(inst, c))
    case A(LRW) => LoadReserved(Reg(AsR(inst).rd), Reg(AsR(inst).rs1), c)
    case A(SCW) => StoreConditional(Reg(AsR(inst).rd), Reg(AsR(inst).rs1), Reg(AsR(inst).rs2), c)
    case Z(CSRRW) => Ok(CsrrwExec(inst, c))
  }

  /** decode_exec_inst as a change of the machine: decode, then execute. */
  function DecodeExec(exts: seq<char>, inst: Word, c: Core): (r: Result<Core>)
    requires |c.x| == 32
    ensures Decode(exts, inst).Err? ==> r == Err(NoInstruction(inst))
    ensures r.Ok? ==> |r.value.x| == 32 && r.value.pc == c.pc
  {
    var op :- Decode(exts, inst);
    Execute(op, inst, c)
  }

  /** One instruction's step, in place on the state. */
  method ExecuteOp(op: Op, inst: Word, state: CPUState) returns (r: Result<()>)
    requires state.x.Length == 32
    modifies state, state.x, state.bus.memory
    ensures state.trap == old(state.trap) && state.csrs == old(state.csrs)
    ensures r.Ok? <==> Execute(op, inst, old(state.Snapshot())).Ok?
    ensures r.Ok? ==> state.Snapshot() == Execute(op, inst, old(state.Snapshot())).value
    ensures r.Err? ==> r.error == Execute(op, inst, old(state.Snapshot())).error
    ensures r.Err? ==> state.x[..] == old(state.x[..]) && state.pc == old(state.pc)
    ensures r.Err? ==>
      state.bus.memory.bytes ==
        if op == A(SCW) then ScwFault(Reg(AsR(inst).rs1), Reg(AsR(inst).rs2), old(state.Snapshot())).bytes
        else old(state.bus.memory.bytes)
  {
    hide AddiExec, AddExec, MulwExec, LoadReserved, StoreConditional, CsrrwExec, AsR, Reg;
    match op
    case I(ADDI) =>
      StepAddi(inst, state);
      r := Ok(());
    case I(ADD) =>
      StepAdd(inst, state);
      r := Ok(());
    case M(MULW) =>
      StepMulw(inst, state);
      r := Ok(());
    case A(LRW) =>
      r := StepLrw(inst, state);
    case A(SCW) =>
      r := StepScw(inst, state);
    case Z(CSRRW) =>
      StepCsrrw(inst, state);
      r := Ok(());
  }

  /** decode_exec_inst, in place on the state. */
  method DecodeExecInst(exts: seq<char>, inst: Word, state: CPUState) returns (r: Result<()>)
    requires state.x.Length == 32
    modifies state, state.x, state.bus.memory
    ensures state.trap == old(state.trap) && state.csrs == old(state.csrs)
    ensures r.Ok? <==> DecodeExec(exts, inst, old(state.Snapshot())).Ok?
    ensures r.Ok? ==> state.Snapshot() == DecodeExec(exts, inst, old(state.Snapshot())).value
    ensures r.Err? ==> r.error == DecodeExec(exts, inst, old(state.Snapshot())).error
    ensures r.Err? ==> state.x[..] == old(state.x[..]) && state.pc == old(state.pc)
    ensures r.Err? ==>
      state.bus.memory.bytes ==
        if Decode(exts, inst) == Ok(A(SCW)) then ScwFault(Reg(AsR(inst).rs1), Reg(AsR(inst).rs2), old(state.Snapshot())).bytes
        else old(state.bus.memory.bytes)
  {
    hide Execute, Decode;
    var op :- Decode(exts, inst);
    r := ExecuteOp(op, inst, state);
  }
}
