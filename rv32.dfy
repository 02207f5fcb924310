/**
 * Machine-wide types and constants of the RV32 emulator, together with the
 * result type that stands for the emulator's panics and error returns.
 */
module Rv32 {
  type Byte = bv8
  type HalfWord = bv16
  type Word = bv32
  type DoubleWord = bv64

  /** Width of a word in bytes; the program counter advances by this much. */
  const WORD: Word := 4

  /** First address served by main memory; everything below it is a peripheral. */
  const DRAM_BASE: Word := 0x8000_0000

  /** Number of bytes of main memory. */
  const DRAM_SIZE: nat := 12

  /** The ways an operation of the emulator can stop instead of completing. */
  datatype Fault =
    | PeripheralMissing(address: Word)  // bus access below DRAM_BASE
    | OutOfBounds(address: Word)        // memory access past the end of the byte buffer
    | NoInstruction(inst: Word)         // no enabled extension recognises the word
    | PcUnderflow(pc: Word)             // pc - DRAM_BASE overflows in the run loop
    | ShiftOverflow(index: nat)         // a template literal at bit 32 or above: 1 << index overflows

  datatype Result<T> = Ok(value: T) | Err(error: Fault)
  {
    predicate IsFailure() { Err? }

    function PropagateFailure<U>(): Result<U>
      requires Err?
    {
      Err(error)
    }

    function Extract(): T
      requires Ok?
    {
      value
    }
  }
}
