/**
 * The processor (CPU in src/cpu/mod.rs): a state, the list of enabled
 * extensions, and the fetch / execute cycle.  Each step fetches the word at
 * pc, ties x0 back to zero, advances pc by one word and hands the word to
 * the decoder; exec repeats the step while pc lies inside main memory.
 */
module Cpu {
  import opened Rv32
  import opened Encoding
  import opened Ram
  import opened Bus
  import opened CpuState
  import opened Decoder
  import ExtI

  // ---------------------------------------------------------------------
  // The cycle as a change of the machine.

  /** CPU::step as a change of the machine: fetch, clear x0, advance pc, decode and execute. */
  function Next(exts: seq<char>, c: Core): (r: Result<Core>)
    requires |c.x| == 32
    ensures LoadWord(c.bytes, c.pc).Err? ==> r == Err(LoadWord(c.bytes, c.pc).error)
    ensures r.Ok? ==> |r.value.x| == 32 && r.value.pc == c.pc + WORD
  {
    var inst :- LoadWord(c.bytes, c.pc);
    DecodeExec(exts, inst, c.(x := c.x[0 := 0], pc := c.pc + WORD))
  }

  /** The loop condition of exec: pc - DRAM_BASE < DRAM_SIZE, for a pc not below DRAM_BASE. */
  predicate InWindow(pc: Word)
    ensures DRAM_BASE <= pc ==> (InWindow(pc) <==> pc < DRAM_BASE + DRAM_SIZE as Word)
  {
    pc - DRAM_BASE < DRAM_SIZE as Word
  }

  /** The number of words from pc to the end of the twelve bytes of memory, rounded up. */
  function Remaining(pc: Word): nat
  {
    var d := pc - DRAM_BASE;
    if d < 4 then 3 else if d < 8 then 2 else if d < 12 then 1 else 0
  }

  lemma RemainingShrinks(pc: Word)
    requires InWindow(pc)
    ensures Remaining(pc + WORD) < Remaining(pc)
  {
  }

  /**
   * CPU::exec as a change of the machine: step while pc is inside memory,
   * stopping at the first failure.  A pc below DRAM_BASE makes the loop
   * condition's subtraction overflow, which is a failure too.
   */
  function Run(exts: seq<char>, c: Core): (r: Result<Core>)
    requires |c.x| == 32
    ensures r.Ok? ==> |r.value.x| == 32 && DRAM_BASE <= r.value.pc && !InWindow(r.value.pc)
    decreases Remaining(c.pc)
  {
    if c.pc < DRAM_BASE then Err(PcUnderflow(c.pc))
    else if InWindow(c.pc) then
      var next :- Next(exts, c);
      RemainingShrinks(c.pc);
      Run(exts, next)
    else Ok(c)
  }

  // ---------------------------------------------------------------------
  // Properties of the cycle.

  /** Inside the window exec takes one step and carries on from its result, or stops at its failure. */
  lemma RunInWindow(exts: seq<char>, c: Core)
    requires |c.x| == 32 && DRAM_BASE <= c.pc && InWindow(c.pc)
    ensures Next(exts, c).Ok? ==> Run(exts, c) == Run(exts, Next(exts, c).value)
    ensures Next(exts, c).Err? ==> Run(exts, c) == Err(Next(exts, c).error)
  {
  }

  /** Outside the window exec stops at once, failing only below DRAM_BASE. */
  lemma RunOutside(exts: seq<char>, c: Core)
    requires |c.x| == 32 && !(DRAM_BASE <= c.pc && InWindow(c.pc))
    ensures Run(exts, c) == if c.pc < DRAM_BASE then Err(PcUnderflow(c.pc)) else Ok(c)
  {
  }

  /**
   * Started at DRAM_BASE, exec runs exactly three words before pc leaves
   * the twelve bytes of memory, unless a step fails.
   */
  lemma RunFromBase(exts: seq<char>, c: Core)
    requires |c.x| == 32 && c.pc == DRAM_BASE && Run(exts, c).Ok?
    ensures Run(exts, c).value.pc == DRAM_BASE + 12
  {
    hide Run, Next;
    RunInWindow(exts, c);
    var c1 := Next(exts, c).value;
    RunInWindow(exts, c1);
    var c2 := Next(exts, c1).value;
    RunInWindow(exts, c2);
    var c3 := Next(exts, c2).value;
    RunOutside(exts, c3);
  }

  /**
   * ADDI x0, x0, imm: the instruction reads x0 as 0 whatever it held before
   * the step, and the value it writes to x0 stays there after the step.
   */
  lemma AddiToX0(exts: seq<char>, c: Core, inst: Word)
    requires |c.x| == 32
    requires LoadWord(c.bytes, c.pc) == Ok(inst) && Decode(exts, inst) == Ok(I(ExtI.ADDI))
    requires AsI(inst).rd == 0 && AsI(inst).rs1 == 0
    ensures Next(exts, c).Ok? && Next(exts, c).value.x[0] == inst >> 20
  {
    RegIsField(AsI(inst).rd);
    RegIsField(AsI(inst).rs1);
  }

  class CPU {
    const state: CPUState
    /** The extension letters the CPU was built with, which the decoder searches in order. */
    const extensions: seq<char>

    /** CPU::new: a zeroed state over the given bus. */
    constructor (bus: Bus, extensions: seq<char>)
      ensures this.extensions == extensions
      ensures fresh(state) && fresh(state.x) && state.bus == bus && state.x.Length == 32
      ensures forall i :: 0 <= i < 32 ==> state.x[i] == 0
      ensures state.pc == 0 && state.trap == 0 && state.extraflags == 0 && state.csrs == ZERO_CSRS
    {
      state := new CPUState(bus);
      this.extensions := extensions;
    }

    /** CPU::init: pc at DRAM_BASE, x0 zero, the stack pointer x2 at the end of memory. */
    method Init()
      requires state.x.Length == 32
      modifies state, state.x
      ensures state.x[..] == old(state.x[..])[0 := 0][2 := DRAM_BASE + DRAM_SIZE as Word]
      ensures state.pc == DRAM_BASE && GetPc() == DRAM_BASE
      ensures state.trap == old(state.trap) && state.extraflags == old(state.extraflags)
      ensures state.csrs == old(state.csrs)
    {
      state.pc := DRAM_BASE;
      state.x[0] := 0;
      state.x[2] := DRAM_BASE + DRAM_SIZE as Word;
    }

    /** CPU::get_pc. */
    function GetPc(): Word
      reads state
    {
      state.pc
    }

    /** CPU::fetch: the word at pc, read through the bus. */
    function Fetch(): (r: Result<Word>)
      reads state, state.bus.memory
      ensures r == LoadWord(state.bus.memory.bytes, state.pc)
    {
      LoadWordAgrees(state.bus, state.pc);
      state.bus.Load32(state.pc)
    }

    /** CPU::step, in place. */
    method Step() returns (r: Result<()>)
      requires state.x.Length == 32
      modifies state, state.x, state.bus.memory
      ensures state.trap == old(state.trap) && state.csrs == old(state.csrs)
      ensures r.Ok? <==> Next(extensions, old(state.Snapshot())).Ok?
      ensures r.Ok? ==> state.Snapshot() == Next(extensions, old(state.Snapshot())).value
      ensures r.Err? ==> r.error == Next(extensions, old(state.Snapshot())).error
    {
      hide DecodeExec, LoadWord, Bytes32, Index, Value32;
      var inst :- Fetch();
      state.x[0] := 0;
      state.pc := state.pc + WORD;
      r := DecodeExecInst(extensions, inst, state);
    }

    /** CPU::exec: step while pc is inside memory; the first failure ends the run. */
    method Exec() returns (r: Result<()>)
      requires state.x.Length == 32
      modifies state, state.x, state.bus.memory
      ensures state.trap == old(state.trap) && state.csrs == old(state.csrs)
      ensures r.Ok? <==> Run(extensions, old(state.Snapshot())).Ok?
      ensures r.Ok? ==> state.Snapshot() == Run(extensions, old(state.Snapshot())).value
      ensures r.Err? ==> r.error == Run(extensions, old(state.Snapshot())).error
    {
      hide Next, Run, Remaining;
      while DRAM_BASE <= state.pc && InWindow(state.pc)
        invariant state.trap == old(state.trap) && state.csrs == old(state.csrs)
        invariant Run(extensions, state.Snapshot()) == Run(extensions, old(state.Snapshot()))
        decreases Remaining(state.pc)
      {
        RunInWindow(extensions, state.Snapshot());
        RemainingShrinks(state.pc);
        var s := Step();
        if s.Err? {
          return s;
        }
      }
      RunOutside(extensions, state.Snapshot());
      if state.pc < DRAM_BASE {
        return Err(PcUnderflow(state.pc));
      }
      r := Ok(());
    }
  }
}
