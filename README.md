# riscy-rust RV32 core in Dafny

A model of the core of the riscy-rust RISC-V emulator. Its parts:

- **Helpers** (`helpers.dfy`): `sext`, sign extension of a `len`-bit value to 32 bits.
- **Bits** (`bits.dfy`): the `match_mask!` template compiler. A loop walks a `0`/`1`/`x` template from the right. It builds a `zeros` mask of the literal positions and a `ones` value of the `1` positions. The emitted check on a word is `(word & zeros) ^ ones == 0`.
- **Encoding** (`encoding.dfy`): the seven bitfield views of an instruction word: the undecided view plus R, I, S, B, U and J. It also holds the I and S immediates (`full_imm`, `sext_imm`) and the raw U immediate.
- **Ram** (`ram.dfy`): little-endian main memory. It is a byte buffer seen at `DRAM_BASE`, with 8/16/32/64-bit reads and writes done in place.
- **Bus** (`bus.dfy`): routes each access. An address at or above `DRAM_BASE` goes to memory. Anything below it is a missing peripheral and is fatal.
- **CpuState** (`cpu_state.dfy`): registers, pc, trap word, the reservation word `extraflags`, the CSRs and the bus.
- **ExtI / ExtM / ExtZ / ExtA** (`ext_*.dfy`): the instructions the emulator implements:
  - ADDI and ADD;
  - the two LUI-opcode entries named MULW and CSRRW;
  - LR.W and SC.W.

  For each instruction the model gives its `match_inst` template, its step as a function on a machine value, and its step as a method on the state.
- **Decoder** (`decode.dfy`): dispatch of a fetched word. The search is first-match: extensions in the order `i`, `m`, `a`, `z`, then the variants of each extension in declaration order. When nothing matches it fails.
- **Cpu** (`cpu.dfy`): `CPU::new`, `init`, `get_pc`, `fetch`, `step` and `exec`.

Each state-changing method is specified by a function on the value `Core`. `Core` holds the registers, pc, `extraflags` and memory bytes. Examples:
- `StepScw` leaves `state.Snapshot()` equal to `StoreConditional(...)` of the old snapshot.
- `CPU.Exec` leaves it equal to `Run(...)`.

The properties are proved about those functions.

Panics of the source become `Err` results (`Rv32.Fault`):
- a missing peripheral;
- an index past the end of memory. A 16-, 32- or 64-bit write assigns its bytes one at a time, least significant first, so when it runs past the end the bytes that fit are already written when it fails (`Ram.StorePrefix`);
- no matching instruction;
- `pc` below `DRAM_BASE` in the loop test of `exec`, where the u32 subtraction overflows (the debug-build behaviour);
- a template literal at position 32 or beyond, where `1 << idx` overflows a `u32`. This is a panic only when the macro crate is built with overflow checks, as in a debug build (see `Bits.MatchMask` under "Left out").

### Where the code departs from RISC-V and from its own names

In each of these cases the model follows the code.

- **ADDI immediate.** Section 2.4 of the RISC-V Unprivileged ISA has ADDI add its 12-bit immediate sign-extended. `ADDI::step` (`src/ext/i/mod.rs:28`) adds `sext(imm, 32)`, and `sext` at full width returns its argument (`src/helpers.rs:4-5`). So the immediate is added zero-extended. `ExtI.AddiZeroExtends` shows that this differs from the sign-extended immediate whenever bit 31 of the word is set. `ExtI.AddiAgreesWhenPositive` shows that the two agree otherwise.
- **SC.W stores rs2.** The comments on `SCW` (`src/ext/a/mod.rs:38-41`) say it stores `rd`. The code stores `x[rs2]` (line 56), as the A extension of the RISC-V ISA specifies. The model stores `x[rs2]`.
- **SC.W keeps the reservation.** The A extension of the RISC-V ISA has SC.W invalidate the reservation whether or not it stores. `SCW::step` (`src/ext/a/mod.rs:51-61`) never writes `extraflags`, so a second SC.W to the same address stores again.
- **extraflags bits 0-2.** LR.W keeps bits 0-2 of `extraflags` (`src/ext/a/mod.rs:32`), and nothing in the code reads them. Only bits 3 and up are used, as the reservation.
- **MULW and CSRRW.** The names (`src/ext/m/mod.rs:21`, `src/ext/z/mod.rs:27`) and the comments beside them (`src/ext/m/mod.rs:17-18`, `src/ext/z/mod.rs:21-24`) describe a multiply and a CSR swap. Both templates fix only the LUI opcode 0110111, and both steps write `full_imm << 12`, which is `inst & 0xFFFFF000`, as LUI does. Neither multiplies, and neither touches a CSR.
- **DRAM_SIZE.** `src/system/ram.rs:8-9` refers to `bus::DRAM_SIZE` and `src/cpu/mod.rs:111` and `:143` to `system::ram::DRAM_SIZE`; neither module defines it. The only definition in the code is `src/ram.rs:6`, 12 bytes, and the model takes that value for all of these references.
- **extraflags field.** `CPUState` does not declare `extraflags`, although the atomic extension uses it. The model adds it as a word that starts at 0.
- **UType::full_imm.** The code calls `UType::full_imm` but never defines it. The model takes it as the raw 20-bit `imm` field.

## Model

| member | source | states |
|---|---|---|
| Helpers.Sext | src/helpers.rs:1-15 | `sext` itself. Its contract is the lemmas below: identity at full width; below it, the low `len` bits kept and every higher bit a copy of bit `len-1` |
| Helpers.SextFullWidth | src/helpers.rs:4-5 | `len == 32` returns the value unchanged |
| Helpers.SextKeepsLow | src/helpers.rs:8-13 | the low `len` bits of the result are those of the value |
| Helpers.SextFillsHigh | src/helpers.rs:7-13 | every bit at or above `len` is 0 when bit `len-1` is clear and 1 when it is set |
| Helpers.SextWhenClear | src/helpers.rs:9-10 | sign bit clear: the result is `value & mask` |
| Helpers.SextWhenSet | src/helpers.rs:11-13 | sign bit set: the result is `value & mask` with every higher bit set |
| Helpers.SextWhenSetFill | src/helpers.rs:12-13 | the `high` fill the source builds gives the same result |
| Helpers.HighFillIsComplement | src/helpers.rs:12 | the source's `high` is the complement of the low mask |
| Helpers.SextBitBelow | src/helpers.rs:8-10 | bit by bit, below `len` the result copies the value |
| Helpers.SextBitAbove | src/helpers.rs:7-13 | bit by bit, at and above `len` the result copies bit `len-1` |
| Helpers.SextIgnoresHigh | src/helpers.rs:8 | bits of the value at or above `len` have no influence |
| Helpers.SextCongruent | src/helpers.rs:7-13 | values agreeing in their low `len` bits extend to the same word |
| Helpers.SextIdempotent | src/helpers.rs:1-15 | `sext(sext(v, len), len) == sext(v, len)` for every valid `len` |
| Bits.MatchMask | lib/bits/src/lib.rs:32-46 | the loop succeeds exactly when no literal sits 32 or more places from the right; then it returns the reference constants `Compile(t)`; otherwise it fails with the shift overflow |
| Bits.LoopStep | lib/bits/src/lib.rs:35-45 | one iteration adds the next character from the right as bit `idx` of each constant |
| Bits.NumeralBit | lib/bits/src/lib.rs:35-43 | bit `i` of a constant is set iff the character `i` places from the right sets it |
| Bits.ZerosBit | lib/bits/src/lib.rs:36-43 | bit `i` of `zeros` is set iff that character is `0` or `1` |
| Bits.OnesBit | lib/bits/src/lib.rs:37-39 | bit `i` of `ones` is set iff that character is `1` |
| Bits.HighBitsClear | lib/bits/src/lib.rs:35 | bits beyond the template's length are clear in both constants |
| Bits.OnesWithinZeros | lib/bits/src/lib.rs:37-40 | every bit of `ones` is also set in `zeros` |
| Bits.AllWildcards | lib/bits/src/lib.rs:44 | a template with no literal compiles to two zero constants |
| Bits.AllWildcardsMatch | lib/bits/src/lib.rs:44-49 | such a template accepts every word |
| Bits.FlipWildcard | lib/bits/src/lib.rs:44-49 | flipping an input bit under a wildcard never changes the outcome |
| Bits.Compile | lib/bits/src/lib.rs:32-46 | the reference constants of a whole template; every bit of `ones` is also set in `zeros` |
| Bits.Residue | lib/bits/src/lib.rs:49 | `input & zeros ^ ones` is 0 iff `input & zeros == ones` |
| Bits.Matches | lib/bits/src/lib.rs:49 | the emitted check holds iff `input & zeros == ones` |
| Bits.MatchesIff | lib/bits/src/lib.rs:49 | the emitted check holds iff `input & zeros == ones` |
| Bits.LiteralsMatch | lib/bits/src/lib.rs:35-49 | for a template of at most 32 characters, the check holds iff every literal position of the input agrees with the template |
| Bits.WildCompile | lib/bits/src/lib.rs:44 | a run of wildcards compiles to zero constants |
| Bits.JoinCompile | lib/bits/src/lib.rs:35-46 | the constants of a concatenated template are those of the left part shifted past the right part, or-ed with the right part's |
| Encoding.AsNull | src/ext/encoding.rs:21-26 | the undecided view (opcode, 25 unused bits) of a word; every field fits its declared width |
| Encoding.AsR | src/ext/encoding.rs:29-38 | the R view of a word; every field fits its declared width |
| Encoding.AsI | src/ext/encoding.rs:41-49 | the I view of a word; every field fits its declared width |
| Encoding.AsS | src/ext/encoding.rs:61-69 | the S view of a word; every field fits its declared width |
| Encoding.AsB | src/ext/encoding.rs:82-92 | the B view of a word; every field fits its declared width |
| Encoding.AsU | src/ext/encoding.rs:94-99 | the U view of a word; every field fits its declared width |
| Encoding.AsJ | src/ext/encoding.rs:101-109 | the J view of a word; every field fits its declared width |
| Encoding.NullRoundTrip | src/ext/encoding.rs:21-26 | the undecided view's fields fit their widths and reassemble the word |
| Encoding.NullPack | src/ext/encoding.rs:112-122 | reading the undecided view of packed fields gives them back |
| Encoding.RRoundTrip | src/ext/encoding.rs:29-38 | the R fields (opcode 6:0, rd 11:7, funct3 14:12, rs1 19:15, rs2 24:20, funct7 31:25) partition the word |
| Encoding.IRoundTrip | src/ext/encoding.rs:41-49 | the I fields partition the word, imm at 31:20 |
| Encoding.SRoundTrip | src/ext/encoding.rs:61-69 | the S fields partition the word, imm_4_0 at 11:7 and imm_11_5 at 31:25 |
| Encoding.BRoundTrip | src/ext/encoding.rs:82-92 | the B fields partition the word: imm_11 bit 7, imm_4_1 11:8, imm_10_5 30:25, imm_12 bit 31 |
| Encoding.URoundTrip | src/ext/encoding.rs:94-99 | the U fields partition the word, imm at 31:12 |
| Encoding.JRoundTrip | src/ext/encoding.rs:101-109 | the J fields partition the word: imm_19_12 19:12, imm_11 bit 20, imm_10_1 30:21, imm_20 bit 31 |
| Encoding.RPack | src/inst.rs:3-11 | any in-range R fields are read back from the word they pack to |
| Encoding.IPack | src/inst.rs:13-20 | the same for the I layout |
| Encoding.SPack | src/inst.rs:22-30 | the same for the S layout |
| Encoding.BPack | src/inst.rs:32-42 | the same for the B layout |
| Encoding.UPack | src/inst.rs:44-49 | the same for the U layout |
| Encoding.JPack | src/inst.rs:51-59 | the same for the J layout |
| Encoding.OpcodeInEveryView | src/ext/encoding.rs:112-122 | every view of the word reads the same opcode, bits 6:0 |
| Encoding.SharedFields | src/ext/encoding.rs:29-109 | rd, rs1, rs2 and funct3 sit at the same bits in every view that has them |
| Encoding.IFullImm | src/ext/encoding.rs:56-58 | the I `full_imm` of in-range fields is below 4096 |
| Encoding.ISextImm | src/ext/encoding.rs:52-54 | the I `sext_imm` of in-range fields is the immediate with bit 11 copied into bits 31:12 |
| Encoding.SFullImm | src/ext/encoding.rs:77-79 | the S `full_imm` of in-range fields is below 4096, with bits 11:5 `imm_11_5` and bits 4:0 `imm_4_0` |
| Encoding.SSextImm | src/ext/encoding.rs:73-75 | the S `sext_imm` of in-range fields is `full_imm` with bit 11 copied into bits 31:12 |
| Encoding.UFullImm | src/ext/m/mod.rs:30 | the U `full_imm` the steps call, of an in-range field, is below 2^20 |
| Encoding.IFullImmIsTop | src/ext/encoding.rs:56-58 | the I `full_imm` is bits 31:20 of the word, below 4096 |
| Encoding.ISextImmIsArithmeticShift | src/ext/encoding.rs:52-54 | the I `sext_imm` is `sext(full_imm, 12)`: bits 31:20 filled with bit 31 |
| Encoding.SFullImmBits | src/ext/encoding.rs:77-79 | the S `full_imm` is `(bits 31:25 << 5) \| bits 11:7`, below 4096 |
| Encoding.SSextImmSignFill | src/ext/encoding.rs:73-75 | the S `sext_imm` is `full_imm` filled with bit 31 |
| Encoding.SextTwelve | src/ext/encoding.rs:52-54 | `sext(v, 12)` of a 12-bit value: unchanged if bit 11 is clear, top 20 bits set otherwise |
| Encoding.UFullImmInPlace | src/ext/m/mod.rs:30 | `full_imm << 12` of the U view is `inst & 0xFFFFF000` |
| Encoding.RRegisters | src/ext/encoding.rs:33-36 | the register fields of the R view name registers below 32 |
| Encoding.IRegisters | src/ext/encoding.rs:45-47 | the same for the I view |
| Encoding.URegisters | src/ext/encoding.rs:97 | the same for the U view |
| Ram.Value16 | src/system/ram.rs:22-28 | the value `read_16` assembles from two bytes; splitting it again gives those bytes |
| Ram.Value32 | src/system/ram.rs:30-38 | the same for `read_32` and four bytes |
| Ram.Value64 | src/system/ram.rs:40-52 | the same for `read_64` and eight bytes |
| Ram.Bytes16 | src/system/ram.rs:60-65 | the two bytes `write_16` stores, least significant first |
| Ram.Bytes32 | src/system/ram.rs:67-74 | the four bytes `write_32` stores |
| Ram.Bytes64 | src/system/ram.rs:76-87 | the eight bytes `write_64` stores |
| Ram.Value16Bytes | src/system/ram.rs:22-28 | little-endian: reading back the two bytes of a half-word gives it back |
| Ram.Value32Bytes | src/system/ram.rs:30-38 | the same for four bytes and a word |
| Ram.Value64Bytes | src/system/ram.rs:40-52 | the same for eight bytes and a double word |
| Ram.Bytes16Value | src/system/ram.rs:60-65 | splitting the value of two bytes gives the bytes back |
| Ram.Bytes32Value | src/system/ram.rs:67-74 | the same for four bytes |
| Ram.Bytes64Value | src/system/ram.rs:76-87 | the same for eight bytes |
| Ram.ByteOf32 | src/system/ram.rs:70-73 | byte `k` of a stored word is `(d >> 8k) & 0xFF` |
| Ram.Store | src/system/ram.rs:54-87 | placing bytes at an offset keeps the length, puts each byte at its offset and leaves every other byte alone |
| Ram.Store2 | src/system/ram.rs:60-65 | a two-byte store is the two single-byte assignments of `write_16` |
| Ram.Store4 | src/system/ram.rs:67-74 | a four-byte store is the four assignments of `write_32` |
| Ram.StoreSplit | src/system/ram.rs:76-87 | storing two runs one after the other is storing their concatenation |
| Ram.StoreThenSlice | src/system/ram.rs:67-74 | the stored bytes are found where they were stored |
| Ram.StoreOutside | src/system/ram.rs:54-87 | a store leaves every disjoint range unchanged |
| Ram.StoreOver | src/system/ram.rs:54-87 | a second store over the same bytes replaces the first |
| Ram.StorePrefix | src/system/ram.rs:60-87 | what a byte-at-a-time write leaves: below the buffer nothing, otherwise the data's bytes up to the end of the buffer, each at its place, and every other byte as it was |
| Ram.StorePrefixWhole | src/system/ram.rs:60-87 | a write that fits whole leaves exactly the plain store |
| Ram.StorePrefixCut | src/system/ram.rs:60-87 | a write k bytes short of the end leaves its first k bytes stored |
| Ram.StoreFirst | src/system/ram.rs:63 | the first assignment of a write stores the first byte |
| Ram.StoreNext | src/system/ram.rs:64 | each further assignment extends the stored run by one byte (also lines 70-73 and 79-86) |
| Ram.PartialWrite32 | src/system/ram.rs:67-74 | in the 12-byte memory, `write_32(DRAM_BASE + 10, d)` sets bytes 10 and 11 to the two low bytes of `d` and leaves the rest before failing |
| Ram.IndexNonNegative | src/system/ram.rs:18 | the rebased offset `address - DRAM_BASE` is valid iff the address is at least `DRAM_BASE` |
| Ram.RAM.constructor | src/ram.rs:11-13 | `RAM::new`: `DRAM_SIZE` (12) zero bytes |
| Ram.RAM.Len | src/system/ram.rs:12-14 | `len` is the number of bytes |
| Ram.RAM.Offset | src/system/ram.rs:18 | the offset of an n-byte access, or `OutOfBounds` exactly when it is below the base or runs past the end |
| Ram.RAM.Read8 | src/system/ram.rs:16-20 | succeeds iff the byte exists; returns the byte at offset `a - DRAM_BASE` |
| Ram.RAM.Read16 | src/system/ram.rs:22-28 | succeeds iff both bytes exist; the result's little-endian bytes are those bytes |
| Ram.RAM.Read32 | src/system/ram.rs:30-38 | the same for four bytes |
| Ram.RAM.Read64 | src/system/ram.rs:40-52 | the same for eight bytes |
| Ram.RAM.Write8 | src/system/ram.rs:54-58 | succeeds iff the byte exists, and then replaces exactly that byte; on failure memory is unchanged |
| Ram.RAM.Write16 | src/system/ram.rs:60-65 | succeeds iff both bytes exist, and then replaces exactly them with the little-endian bytes of the data; a write at the last byte stores the low byte there and then fails (`StorePrefix`), one below `DRAM_BASE` changes nothing |
| Ram.RAM.Write32 | src/system/ram.rs:67-74 | the same for four bytes: on failure the bytes of the word that fit before the end are written, least significant first (`StorePrefix`) |
| Ram.RAM.Write64 | src/system/ram.rs:76-87 | the same for eight bytes: on failure the bytes that fit before the end are written (`StorePrefix`) |
| Ram.ReadAfterWrite8 | src/ram.rs:19-61 | `read_8` after `write_8` at the same address returns the data |
| Ram.ReadAfterWrite16 | src/system/ram.rs:22-65 | `read_16` after `write_16` returns the data |
| Ram.ReadAfterWrite32 | src/system/ram.rs:30-74 | `read_32` after `write_32` returns the data |
| Ram.ReadAfterWrite64 | src/system/ram.rs:40-87 | `read_64` after `write_64` returns the data |
| Ram.ReadBesideWrite32 | src/system/ram.rs:67-74 | a `read_32` of a disjoint word after `write_32` sees the old bytes |
| Ram.ReadByteAfterWrite32 | src/system/ram.rs:16-20 | after `write_32(a, d)`, `read_8(a + k) == (d >> 8k) & 0xFF` for k in 0..3 |
| Ram.AccessWindow | src/ram.rs:33-55 | with 12 bytes, an n-byte access is in range iff `DRAM_BASE <= a` and `a + n <= DRAM_BASE + 12` |
| Bus.Bus.constructor | src/system/bus.rs:11-15 | a bus over fresh zeroed memory |
| Bus.Bus.Load8 | src/system/bus.rs:17-25 | below `DRAM_BASE` the peripheral fault; otherwise exactly `read_8` at the same address |
| Bus.Bus.Load16 | src/system/bus.rs:27-35 | the same at 16 bits |
| Bus.Bus.Load32 | src/system/bus.rs:37-45 | the same at 32 bits |
| Bus.Bus.Load64 | src/system/bus.rs:47-55 | the same at 64 bits |
| Bus.Bus.Store8 | src/system/bus.rs:57-64 | succeeds iff the byte is in memory and then stores it; on failure memory is unchanged and the fault says which bound failed |
| Bus.Bus.Store16 | src/system/bus.rs:66-73 | routes to `write_16` at or above `DRAM_BASE` and faults below it with memory unchanged; a `write_16` that fails leaves its partial store (`StorePrefix`) |
| Bus.Bus.Store32 | src/system/bus.rs:75-82 | the same at 32 bits: a store running past the end leaves the bytes that fit written |
| Bus.Bus.Store64 | src/system/bus.rs:84-91 | the same at 64 bits: a store running past the end leaves the bytes that fit written |
| Bus.LoadAfterStore32 | src/system/bus.rs:37-82 | `load_32` after `store_32` at an in-range address returns the data |
| Bus.StoreWindow | src/system/bus.rs:75-82 | the bus adds no upper bound: a word store is accepted iff `DRAM_BASE <= a <= DRAM_BASE + 8` |
| Bus.LoadWord | src/system/bus.rs:37-45 | `load_32` on a byte buffer: succeeds iff the four bytes exist; it returns their little-endian value or the fault |
| Bus.StoreWord | src/system/bus.rs:75-82 | `store_32` on a byte buffer: the same condition, the stored buffer or the fault |
| Bus.LoadWordAgrees | src/system/bus.rs:37-45 | the bus method and the buffer function agree |
| Bus.LoadWordAfterStoreWord | src/system/bus.rs:37-82 | a word stored by `StoreWord` loads back by `LoadWord` |
| CpuState.Reg | src/cpu/mod.rs:22 | a register field indexes one of the 32 registers |
| CpuState.RegIsField | src/cpu/mod.rs:22 | a five-bit field names its own register |
| CpuState.CPUState.constructor | src/cpu/mod.rs:73-97 | all 32 registers, pc, trap and every CSR zero; `extraflags` zero |
| ExtI.ExtensionI.Name | src/ext/i/mod.rs:14-38 | `fn name` of ADDI and ADD: `"ADDI"` and `"ADD"`; `Decoder.NamesIdentify` proves every instruction's name distinct |
| ExtI.AddiMasks | src/ext/i/mod.rs:22 | the ADDI template compiles to mask `0x707F`, value `0x13` |
| ExtI.AddMasks | src/ext/i/mod.rs:44 | the ADD template compiles to mask `0xFE00707F`, value `0x33` |
| ExtI.ExtensionI.MatchInst | src/ext/i/mod.rs:18-45 | each `match_inst` is the check of the constants its own template compiles to |
| ExtI.AddiMatchIff | src/ext/i/mod.rs:22 | ADDI matches iff opcode is 0010011 and funct3 is 000 |
| ExtI.AddMatchIff | src/ext/i/mod.rs:44 | ADD matches iff funct7 is 0, funct3 is 0 and opcode is 0110011 |
| ExtI.AddiAddDisjoint | src/ext/i/mod.rs:22-44 | no word matches both; the opcodes differ in bit 5 |
| ExtI.AddiResult | src/ext/i/mod.rs:28 | ADDI writes `x[rs1]` plus bits 31:20 of the word, wrapping |
| ExtI.AddiImmediate | src/ext/i/mod.rs:28 | `sext(imm, 32)` is the unsigned immediate, bits 31:20 of the word |
| ExtI.AddiZeroExtends | src/ext/i/mod.rs:28 | with bit 31 set, this immediate differs from the sign-extended one |
| ExtI.AddiAgreesWhenPositive | src/ext/i/mod.rs:28 | with bit 31 clear, it equals the sign-extended one |
| ExtI.AddiExec | src/ext/i/mod.rs:25-29 | ADDI changes only `x[rd]`, which becomes `AddiResult`; pc, `extraflags`, memory and the other registers are unchanged; rd = 0 is not filtered |
| ExtI.AddResult | src/ext/i/mod.rs:50-51 | the `wrapping_add` of ADD, a sum modulo 2^32; its wrap-around is stated by `ExtI.AddWraps` |
| ExtI.AddWraps | src/ext/i/mod.rs:50-51 | the sum is commutative with 0 as unit, `0xFFFFFFFF + 1` wraps to 0, and `a + !a + 1` wraps to 0 for every `a` |
| ExtI.AddExec | src/ext/i/mod.rs:47-52 | ADD changes only `x[rd]`, which becomes `x[rs1] + x[rs2]` modulo 2^32 |
| ExtI.StepAddi | src/ext/i/mod.rs:25-29 | the in-place step leaves exactly the state `AddiExec` describes |
| ExtI.StepAdd | src/ext/i/mod.rs:47-52 | the in-place step leaves exactly the state `AddExec` describes |
| ExtM.ExtensionM.Name | src/ext/m/mod.rs:20-22 | `fn name` of MULW: `"MULW"` |
| ExtM.MulwMasks | src/ext/m/mod.rs:25 | the MULW template compiles to mask `0x7F`, value `0x37` |
| ExtM.ExtensionM.MatchInst | src/ext/m/mod.rs:24-26 | `match_inst` is the check of the constants the template compiles to |
| ExtM.MulwMatchIff | src/ext/m/mod.rs:25 | MULW matches iff the opcode is 0110111, the LUI opcode |
| ExtM.UpperResult | src/ext/m/mod.rs:30 | the value written is `inst & 0xFFFFF000` |
| ExtM.MulwExec | src/ext/m/mod.rs:28-32 | only `x[rd]` changes, to `inst & 0xFFFFF000`; nothing is multiplied |
| ExtM.StepMulw | src/ext/m/mod.rs:28-32 | the in-place step leaves exactly the state `MulwExec` describes |
| ExtZ.ExtensionZ.Name | src/ext/z/mod.rs:26-28 | `fn name` of CSRRW: `"CSRRW"` |
| ExtZ.SameTemplateAsMulw | src/ext/z/mod.rs:31 | the CSRRW template is the MULW template |
| ExtZ.ExtensionZ.MatchInst | src/ext/z/mod.rs:30-32 | `match_inst` is the check of the constants the template compiles to |
| ExtZ.CsrrwMatchIff | src/ext/z/mod.rs:31 | CSRRW matches exactly the words MULW matches, those with the LUI opcode |
| ExtZ.CsrrwExec | src/ext/z/mod.rs:34-38 | the step is MULW's: only `x[rd]` changes and no CSR is touched |
| ExtZ.StepCsrrw | src/ext/z/mod.rs:34-38 | the in-place step leaves exactly the state `CsrrwExec` describes |
| ExtA.ExtensionA.Name | src/ext/a/mod.rs:21-45 | `fn name` of LR.W and SC.W: `"LR.W"` and `"SC.W"` |
| ExtA.LrwMasks | src/ext/a/mod.rs:26 | the LR.W template compiles to mask `0xF9F0707F`, value `0x1000202F` |
| ExtA.ScwMasks | src/ext/a/mod.rs:48 | the SC.W template compiles to mask `0xF800707F`, value `0x1800202F` |
| ExtA.ExtensionA.MatchInst | src/ext/a/mod.rs:25-49 | each `match_inst` is the check of the constants its own template compiles to |
| ExtA.LrwMatchIff | src/ext/a/mod.rs:26 | LR.W matches iff opcode 0101111, funct3 010, rs2 00000 and funct7 bits 31:27 are 00010 |
| ExtA.ScwMatchIff | src/ext/a/mod.rs:48 | SC.W matches iff opcode 0101111, funct3 010 and bits 31:27 are 00011 |
| ExtA.LrwScwDisjoint | src/ext/a/mod.rs:26-48 | the templates differ at bit 27, so no word matches both |
| ExtA.Reserve | src/ext/a/mod.rs:32 | the `extraflags` LR.W leaves: bits 2:0 kept, bits 31:3 the address's low 29 bits |
| ExtA.Reserved | src/ext/a/mod.rs:54 | SC.W's `write_flag`; only the low 29 bits of the address take part |
| ExtA.ReserveKeepsLow | src/ext/a/mod.rs:32 | LR.W keeps the low 3 bits of `extraflags` |
| ExtA.ReserveRecords | src/ext/a/mod.rs:32 | LR.W records the address without its top 3 bits above bit 3 |
| ExtA.ReservedAfterReserve | src/ext/a/mod.rs:32-54 | after LR.W at `a`, SC.W's test holds for `b` iff `a` and `b` agree in their low 29 bits |
| ExtA.LrwResult | src/ext/a/mod.rs:33 | `sext(loaded, 32)` is the loaded word |
| ExtA.LoadReserved | src/ext/a/mod.rs:29-34 | LR.W succeeds iff the word at `x[rs1]` loads. Then the reservation is set, `x[rd]` holds the four bytes at `x[rs1]` (address read before rd is written), and nothing else changes. Otherwise it fails with the bus fault |
| ExtA.StoreConditional | src/ext/a/mod.rs:51-61 | SC.W sets `x[rd]` to 0 when the reservation matches `x[rs1]` and to 1 otherwise. It keeps pc and `extraflags` and touches no other register. It fails only when the reservation matches and the store faults. Memory becomes the `store_32` of `x[rs2]` at `x[rs1]` when the reservation matches, and is left alone otherwise |
| ExtA.ScwWithoutReservation | src/ext/a/mod.rs:58-60 | without a matching reservation memory is untouched |
| ExtA.ScwStoresRs2 | src/ext/a/mod.rs:55-57 | with a matching reservation and a successful store, the word at `x[rs1]` is then `x[rs2]` |
| ExtA.ReservedScStores | src/ext/a/mod.rs:54-57 | under the reservation of its address, a successful SC.W sets `x[rd]` to 0 and `x[rs1]` then loads `x[rs2]` |
| ExtA.LrReservesOwnAddress | src/ext/a/mod.rs:29-54 | LR.W through `rs1` (with rd ≠ rs1) leaves a reservation that SC.W through `rs1` accepts |
| ExtA.LrThenScStores | src/ext/a/mod.rs:29-61 | after such an LR.W, a successful SC.W through the same register sets its rd to 0 and leaves `x[rs2]` at that address |
| ExtA.StepLrw | src/ext/a/mod.rs:29-34 | the in-place step leaves exactly the state `LoadReserved` describes; on a fault only `extraflags` has changed |
| ExtA.ScwFault | src/ext/a/mod.rs:51-61 | the machine a faulting SC.W leaves: registers, pc and reservation as they were, and of memory only the word at `x[rs1]` touched, nothing at all below `DRAM_BASE` |
| ExtA.StepScw | src/ext/a/mod.rs:51-61 | the in-place step leaves exactly the state `StoreConditional` describes; on a fault it leaves `ScwFault`, the bytes of `x[rs2]` that fit before the end already stored |
| Decoder.Variants | src/ext/i/mod.rs:55-60 | the variants of one extension's enum (also `src/ext/m/mod.rs:35-39`, `src/ext/a/mod.rs:64-69`, `src/ext/z/mod.rs:41-45`): exactly the instructions of that extension |
| Decoder.Candidates | src/main.rs:28 | the instructions of the listed extensions: exactly those whose extension is listed |
| Decoder.Op.Name | src/ext/i/mod.rs:14-16 | `fn name` of whichever instruction it is, through its extension's `Name` (also `src/ext/i/mod.rs:36-38`, `src/ext/m/mod.rs:20-22`, `src/ext/a/mod.rs:21-23`, `src/ext/a/mod.rs:43-45`, `src/ext/z/mod.rs:26-28`) |
| Decoder.Op.MatchInst | src/ext/i/mod.rs:18-45 | `match_inst` of whichever instruction it is, through its extension's `MatchInst`; `Decoder.MatchTemplate` states it (also `src/ext/m/mod.rs:24-26`, `src/ext/a/mod.rs:25-49`, `src/ext/z/mod.rs:30-32`) |
| Decoder.MatchTemplate | src/ext/encoding.rs:8-11 | every instruction accepts a word exactly when the `match_mask!` check of its own template holds |
| Decoder.NamesIdentify | src/ext/i/mod.rs:14-38 | two instructions have the same name iff they are the same instruction, over all six names |
| Decoder.Find | src/cpu/mod.rs:135-137 | the first position whose instruction accepts the word, none before it; failure iff none accepts |
| Decoder.Decode | src/main.rs:28-32 | the chosen instruction accepts the word; failure is `NoInstruction` |
| Decoder.DefaultCandidates | src/main.rs:28 | search order: ADDI, ADD, MULW, LR.W, SC.W, CSRRW |
| Decoder.AllEnabled | src/main.rs:28 | every instruction belongs to an enabled extension |
| Decoder.MatchOpcode | src/ext/i/mod.rs:18-45 | a matched word carries the instruction's opcode, the low seven characters of its template (also `src/ext/m/mod.rs:25`, `src/ext/a/mod.rs:26`, `src/ext/a/mod.rs:48`, `src/ext/z/mod.rs:31`) |
| Decoder.OpcodeOwners | src/ext/i/mod.rs:22-44 | which instructions own each of the four opcodes, read off the templates (also `src/ext/m/mod.rs:25`, `src/ext/a/mod.rs:26`, `src/ext/a/mod.rs:48`, `src/ext/z/mod.rs:31`) |
| Decoder.SameOpcode | src/ext/a/mod.rs:26-48 | only LR.W/SC.W (these two templates) and MULW/CSRRW (`src/ext/m/mod.rs:25`, `src/ext/z/mod.rs:31`) share an opcode |
| Decoder.OnlyLuiOverlaps | src/ext/m/mod.rs:25 | two different instructions accept the same word only if they are MULW and CSRRW |
| Decoder.DecodeFinds | src/main.rs:28-37 | every instruction but CSRRW is chosen for every word it accepts |
| Decoder.CsrrwUnreachable | src/ext/z/mod.rs:31 | CSRRW is never chosen: MULW accepts the same words and is searched first |
| Decoder.DecodeFails | src/cpu/mod.rs:135-137 | a word no instruction accepts fails with `NoInstruction` |
| Decoder.Execute | src/ext/i/mod.rs:25-52 | each instruction's `step` (also `src/ext/m/mod.rs:28-32`, `src/ext/a/mod.rs:29-61`, `src/ext/z/mod.rs:34-38`); a successful step keeps 32 registers and the pc it was given |
| Decoder.DecodeExec | src/cpu/mod.rs:135-137 | decode then execute; an undecodable word fails with `NoInstruction` |
| Decoder.ExecuteOp | src/ext/encoding.rs:8-13 | the in-place step leaves exactly the state `Execute` describes. On a fault registers and pc are unchanged, memory is unchanged except for the partial store of a faulting SC.W (`ScwFault`), and the trap and CSRs are never touched |
| Decoder.DecodeExecInst | src/cpu/mod.rs:135-137 | the in-place decode and step leave exactly the state `DecodeExec` describes; on a fault registers and pc are unchanged and memory is too, except for the partial store of a decoded SC.W |
| Cpu.Next | src/cpu/mod.rs:124-140 | `step`: a fetch fault is returned as is. A successful step ends with pc advanced by `WORD` (4) |
| Cpu.InWindow | src/cpu/mod.rs:143 | the loop test of `exec`; for a pc at or above `DRAM_BASE` it holds iff pc is below `DRAM_BASE + DRAM_SIZE` |
| Cpu.RemainingShrinks | src/cpu/mod.rs:143 | each step inside the window brings pc closer to the end of memory |
| Cpu.Run | src/cpu/mod.rs:142-148 | `exec`: a successful run ends with pc at or above `DRAM_BASE` and outside the 12-byte window |
| Cpu.RunInWindow | src/cpu/mod.rs:143-145 | inside the window `exec` takes one step and continues from its result, or stops at its fault |
| Cpu.RunOutside | src/cpu/mod.rs:143-147 | outside the window `exec` stops at once, failing only for a pc below `DRAM_BASE` |
| Cpu.RunFromBase | src/cpu/mod.rs:142-148 | from `DRAM_BASE` a successful run executes three words and stops at `DRAM_BASE + 12` |
| Cpu.AddiToX0 | src/cpu/mod.rs:131 | the instruction sees x0 as 0, and a write to x0 survives the step |
| Cpu.CPU.constructor | src/cpu/mod.rs:68-101 | `CPU::new`: zeroed state over the given bus, with the given extensions |
| Cpu.CPU.Init | src/cpu/mod.rs:103-114 | `pc = DRAM_BASE` (so `GetPc()` returns it), `x[0] = 0`, `x[2] = DRAM_BASE + DRAM_SIZE`; nothing else changes |
| Cpu.CPU.GetPc | src/cpu/mod.rs:116-118 | `get_pc`: the pc, read without changing anything; `Cpu.CPU.Init` ensures it is `DRAM_BASE` after `init` |
| Cpu.CPU.Fetch | src/cpu/mod.rs:120-122 | the word `load_32(pc)` gives, reading only |
| Cpu.CPU.Step | src/cpu/mod.rs:124-140 | the in-place step leaves exactly the state `Next` describes and returns its fault unchanged |
| Cpu.CPU.Exec | src/cpu/mod.rs:142-148 | the loop leaves exactly the state `Run` describes and stops at the first fault |

## Left out

- Logging (`println!`), `dump_reg`, the REPL and command parsing in `src/main.rs` and `src/management.rs`: output only.
- Program loading in `src/main.rs` is a sequence of `store_8` calls. The model covers those calls (`Bus.Bus.Store8`) but not the file reading.
- The UART in `src/system/uart.rs`: blocking console I/O, and not connected to the bus.
- `src/ext/decode.rs` is a stub with an empty `decode_inst` and is not part of this model. The decoder `CPU::step` calls is modelled as the first-match search described above.
- The `Rc<RefCell<…>>` sharing of the bus and the decoder is not modelled. The CPU owns one state that reaches one bus; nothing runs concurrently.
- Timer, interrupt, wait-for-interrupt and trap handling are not modelled: the code has none. The CSRs are only zeroed, and no instruction reads or writes them.
- No secondary dispatch on funct3 or funct7: the code recognises each instruction by its whole template alone, and so does the model.
- `full_imm` and `sext_imm` of the B, J and U formats are not modelled: the source does not define them. Only the fields are modelled, plus the raw U immediate that MULW and CSRRW use.
- The aq/rl ordering bits of LR.W and SC.W are ignored, as in the source. There is a single hart.
- Helpers.Sext: the `assert!` on `len` is a precondition (1 ≤ len ≤ 32), not a modelled panic. Its result is described by the lemmas beside it rather than by an `ensures` of its own, which would burden every proof that uses it.
- Bits.MatchMask: a literal at position 32 or beyond is a failure, as the macro panics when built with overflow checks. Without overflow checks Rust masks the shift amount to `idx % 32`, the literal would land on bit `idx % 32`, and that behaviour is not modelled.
- Cpu.Run: a pc below `DRAM_BASE` in the loop test is a failure, as a debug build panics. A release build wraps instead, and the loop then simply stops.
- Cpu.Run: termination is argued from the 12-byte memory. The model does not cover a larger `DRAM_SIZE`.
- Cpu.CPU.Step: after a failure the state is not described. A decode failure leaves x0 cleared and pc advanced; a failing LR.W leaves `extraflags` updated; a failing SC.W leaves the bytes of its word that fit already stored.
- Cpu.CPU.Exec: after a failure the state is not described, only the fault.
- Cpu.CPU.GetPc: a plain read of pc with no `ensures` of its own. As a function it cannot change anything; its value after `init` is stated by `Cpu.CPU.Init`.
- ExtI.AddResult: no `ensures` of its own; it is wrapping 32-bit addition by its type. `ExtI.AddWraps` states its wrap-around on bit-vectors and does not relate it to the integer sum, which the solver cannot prove within its resource limit.
