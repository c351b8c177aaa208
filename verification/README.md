# PIC10F200 emulator core, modelled in Dafny

This project models the core of a PIC10F200 microcontroller emulator written
in Rust. The model covers four parts.

- **`NBitNumber<N>`** (`nbitnumber.dfy`, module `NBit`). This is an unsigned
  number of N bits stored in a `u16` and masked to N bits when it is built.
  `bits.dfy` (module `Bits`) supplies the `u16` operators it uses: `&`, `|`,
  `<<`, `>>` and `!`. They are written out over naturals and related to
  `%` and `/` by powers of two.
- **The table-driven instruction decoder** (`instructions.dfy`, module
  `Instructions`), modelled as the code is written:
  - The opcode table has 33 rows of various widths.
  - Each pattern is left-aligned to 12 bits.
  - The aligned pattern is compared, in table order, with the *whole* raw
    word. Operand bits are never masked off.
  - The first match wins. With no match, the result is `UND`.
  - The field extractors slice fixed bits of the raw word.

  The model states the consequences and proves them. Only 31 distinct words
  decode. A word decodes only when the operand bits of the entry it
  matches are zero. A word with a nonzero operand decodes to `UND`, or, when
  it equals another entry's pattern, decodes as a *different* instruction:
  `BCF 0,4` (`0x480`) as `BTFSC` and `BSF 0,4` (`0x580`) as `BTFSS`.
  `MOVWF` and `RETLW` are never decoded. The table's `MOVWF` row has six
  fixed bits where the datasheet has seven, so `MOVWF 0` (`0x020`) decodes
  to `UND`. `extract_d` always returns 0.
  `ReferenceDecode` is an independent word-by-word table, and
  `DecodeMatchesReference` proves that the decoder equals it on all 4096
  words.
- **The fetch/execute pipeline of `PIC10F200`** (`pic.dfy`, modules
  `Executors` and `Pic`). It covers `fetch`, `tick`, `execute`, the mnemonic
  dispatch, `power_on_initialize` and `program_chip`. The memories are
  abstract:
  - the register file is 32 bytes plus the `TRIS` and `OPTION` shadow
    registers;
  - program memory is 512 twelve-bit words.

  The executors, the power-on reset constants and the register file's
  `flash` are parameters.
- **The one-hot phase ring of `SystemClock`** (`clock.dfy`, module `Clock`).
  It covers `new` and `tick`. The tick callback is a function on the
  environment the closure captures.

Decisions the source leaves open:

- **The mnemonic dispatch** (`pic.rs:92-143`) does not type-check as
  written. It has no arms for `CLRF` and `CLRW`. It has arms for `CLR`,
  `RETFIE`, `MOVLB` and `RETURN`, which are not variants of the mnemonic
  enum. The model sends `CLRF` and `CLRW` to the `CLR` executor, which is
  evidently what the `CLR` arm was meant for. It drops the three `todo!()`
  arms.
- **Register addresses.** The source takes the addresses of the special
  registers from `data_memory.rs`, which is not part of this model. The
  model uses the PIC10F200 memory map instead: INDF 0, TMR0 1, PCL 2,
  STATUS 3, FSR 4, OSCCAL 5, GPIO 6 and CMCON0 7.
- **The pipeline's first fetch after power-on.** The source's comments say
  that execution begins at the calibration word at `0xFF`. But `fetch`
  increments before it reads, so with `PCL = 0xFF` the first fetch reads
  address 0 (`PowerOnFirstFetch`). The model follows the code.

## Model

| member | source | states |
|---|---|---|
| Bits.AndLowMask | common/src/nbitnumber.rs:25 | ANDing with `2^k - 1` keeps the low k bits: it equals the remainder by `2^k` |
| Bits.AndBandMask | common/src/instructions.rs:196-198 | ANDing with the mask of bits `s .. s+d-1` keeps exactly those bits: `x mod 2^(s+d) - x mod 2^s` |
| Bits.OrDisjoint | pic_emulator_rs/src/pic.rs:55 | ORing a value below `2^s` into a multiple of `2^s` is addition, as in `0xC00` OR `OSCCAL` |
| NBit.New | common/src/nbitnumber.rs:23-26 | `new(v)` has the given width, value `v mod 2^N`, and is always below `2^N` |
| NBit.Zero | common/src/nbitnumber.rs:65-67 | the zero-argument `new()` is the valid number 0 |
| NBit.GetMax | common/src/nbitnumber.rs:48-51 | `get_max()` is valid and has value `2^N - 1` |
| NBit.Clone | common/src/nbitnumber.rs:70-73 | `clone` re-masks the value to N bits, and returns an equal number when the value already fits |
| NBit.CompareLowerBits | common/src/nbitnumber.rs:34-38 | true exactly when the two values agree modulo `2^min(N, M)` |
| NBit.CompareUpperBits | common/src/nbitnumber.rs:40-44 | despite its name, true exactly when the low `min(N, M)` bits agree |
| NBit.And | common/src/nbitnumber.rs:3 | derived `&` keeps the width, is at most each operand, and stays below `2^N` when either operand does |
| NBit.Or | common/src/nbitnumber.rs:3 | derived bitwise OR keeps the width, is at least each operand, and stays below `2^N` when both operands do |
| NBit.Add | common/src/nbitnumber.rs:3 | derived `+` adds the raw fields, and the sum is valid exactly when it is below `2^N` (no re-masking) |
| NBit.WidthsPassValidation | common/src/nbitnumber.rs:8-10 | the accepted widths are 1 to 16; every modelled width (1 to 15) passes |
| NBit.NewIdempotent | common/src/nbitnumber.rs:23-26 | building a number from a built number's value gives the same number |
| NBit.NewAtMostMax | common/src/nbitnumber.rs:48-51 | every number `new` builds is at most `get_max()` |
| NBit.AccessorsRoundTrip | common/src/nbitnumber.rs:53-63 | `get` (`NBit.Get`, also the inherent `get` at nbitnumber.rs:28-30), `as_u16` (`NBit.AsU16`) and `as_usize` (`NBit.AsUsize`) return the stored value, and `new` of it rebuilds a valid number exactly |
| NBit.CompareUpperIsLower | common/src/nbitnumber.rs:34-44 | `compare_upper_bits` and `compare_lower_bits` agree on all inputs |
| NBit.CompareLowerBitsEquivalence | common/src/nbitnumber.rs:34-38 | `compare_lower_bits` is reflexive and symmetric |
| NBit.CompareSameWidth | common/src/nbitnumber.rs:34-38 | for valid numbers of one width, the comparison is equality |
| NBit.AddLeavesRange | common/src/nbitnumber.rs:3 | `+` can leave the range: the 9-bit sum `0x1FF + 1` is `0x200`, which is not a valid 9-bit number |
| NBit.AddThenMaskWraps | pic_emulator_rs/src/pic.rs:80-81 | adding two valid numbers and masking afterwards is addition modulo `2^N` |
| Instructions.AlignArithmetic | common/src/instructions.rs:142-147 | the shift, mask and AND of `align_opcode`, kept to 12 bits, equal `v * 2^s mod 4096`, with the low s bits zero |
| Instructions.Align | common/src/instructions.rs:137-150 | `align_opcode<N>(n)` is valid, equals `n * 2^(12-N) mod 4096`, and has its low `12-N` bits zero |
| Instructions.AlignWideIsIdentity | common/src/instructions.rs:137-150 | `align_opcode<12>` is the identity on valid 12-bit numbers |
| Instructions.TableWidthsAtMost12 | common/src/instructions.rs:70-108 | every table width is at most 12, so the `N > 12` panic and the `_ =>` arm cannot be reached |
| Instructions.TablePatternsValid | common/src/instructions.rs:70-108 | every table pattern fits its width, so building it with `new` leaves it unchanged |
| Instructions.AlignPattern | common/src/instructions.rs:157-171 | aligning entry i's pattern yields the arithmetic aligned pattern of that entry, with the operand bits zero |
| Instructions.MatchFrom | common/src/instructions.rs:157-178 | the loop finds no entry exactly when no entry from i on matches; otherwise it finds the first matching entry |
| Instructions.Decode | common/src/instructions.rs:153-182 | `UND` exactly when no aligned pattern equals the raw word; otherwise the mnemonic of the first entry that does |
| Instructions.AlignedTargetIsRaw | common/src/instructions.rs:154 | aligning the raw word at width 12 masks nothing off its 12 bits |
| Instructions.TableHasNoUnd | common/src/instructions.rs:70-108 | no table row carries `UND`, so `UND` comes only from the fall-through |
| Instructions.FromU12 | common/src/instructions.rs:119-124 | keeps the raw word and decodes it; the mnemonic is `UND` exactly when the word is not one of the 31 defined words |
| Instructions.FromMnemonic | common/src/instructions.rs:126-131 | the raw word is the valid number 0, and the mnemonic is the one given |
| Instructions.ExtractK | common/src/instructions.rs:184-186 | `extract_k` is bits 7..0 of the raw word |
| Instructions.ExtractD | common/src/instructions.rs:188-190 | `extract_d` is always 0, because `new` keeps only bit 0 of `raw & 0x020` |
| Instructions.ExtractF | common/src/instructions.rs:192-194 | `extract_f` is bits 4..0 of the raw word |
| Instructions.ExtractB | common/src/instructions.rs:196-198 | `extract_b` is bits 7..5 of the raw word |
| Instructions.ExtractKGoto | common/src/instructions.rs:200-202 | `extract_k_goto` is bits 8..0 of the raw word |
| Instructions.ExtractKMovlb | common/src/instructions.rs:204-206 | `extract_k_movlb` is bits 2..0 of the raw word |
| Instructions.ExtractFTris | common/src/instructions.rs:208-210 | `extract_f_tris` is bits 1..0 of the raw word |
| Instructions.BandIsEven | common/src/instructions.rs:188-190 | `raw & 0x020` is always even, so its bit 0 is clear |
| Instructions.BitIndexField | common/src/instructions.rs:196-198 | `(raw & 0x0E0) >> 5` is bits 7..5 of raw |
| Instructions.AlignedTable | common/src/instructions.rs:70-108 | the aligned pattern of each of the 33 rows equals the value worked out by hand |
| Instructions.DecodeUndefinedIff | common/src/instructions.rs:153-182 | decode yields `UND` exactly when the word is not one of the 31 distinct aligned patterns |
| Instructions.DecodeMatchesReference | common/src/instructions.rs:153-182 | on every raw word, decode equals the hand-written word-to-mnemonic table |
| Instructions.ShadowingEntries | common/src/instructions.rs:74-104 | `CLRW` and `MOVWF` share the aligned pattern `0x040`; `OPTION` and `RETLW` share `0x002` |
| Instructions.DecodeExamples | common/src/instructions.rs:153-182 | `0x000` gives NOP, `0xC00` MOVLW, `0xA00` GOTO, `0x040` CLRW and `0x002` OPTION, and `0x060` (`CLRF 0`) CLRF; `0xC55`, `0xA1A`, `0x1C4` and `0x543` give UND |
| Instructions.OperandWordsMisdecode | common/src/instructions.rs:82-94 | datasheet words the decoder gets wrong: `0x480` (`BCF 0,4`) decodes as BTFSC, `0x580` (`BSF 0,4`) as BTFSS, and `0x020` (`MOVWF 0`) as UND, because the six-bit MOVWF row aligns to `0x040` |
| Instructions.ShadowedNeverDecoded | common/src/instructions.rs:70-108 | table order shadows the later duplicates, so `MOVWF` and `RETLW` are never decoded |
| Instructions.MatchHasZeroOperand | common/src/instructions.rs:154-177 | a word that matches an entry has all operand bits of that entry zero |
| Instructions.OneWordPerMnemonic | common/src/instructions.rs:153-182 | two words that decode to the same defined mnemonic are equal in their 12 bits |
| Instructions.FromMnemonicRawIsNop | common/src/instructions.rs:126-131 | the raw word `from_mnemonic` builds decodes to NOP, whatever mnemonic was given |
| Instructions.ExtractorsAgree | common/src/instructions.rs:184-210 | `k` is `b` above `f`; the low byte of the GOTO target is `k`; the TRIS port select is the low part of the MOVLB literal |
| Pic.Address | pic_emulator_rs/src/pic.rs:61-66 | `u5::new` of a special register's address is that address |
| Pic.Write | pic_emulator_rs/src/pic.rs:61-66 | a register write sets the addressed register and no other, and leaves the shadow registers alone, as seen through the register read `Pic.Read` that `fetch` uses at pic.rs:78 |
| Pic.Fetch | pic_emulator_rs/src/pic.rs:77-84 | from any program counter, even one of `0x200` or more, the program counter becomes the valid `(PCL + 1) mod 256`; the instruction register holds that word and its decoding; memories, W and pins are unchanged |
| Pic.NextPc | pic_emulator_rs/src/pic.rs:78-81 | the `u9` load, `+ 1` and `& 0x0FF` give the valid 9-bit value `(PCL + 1) mod 256` |
| Pic.NextPcInPage | pic_emulator_rs/src/pic.rs:80-81 | the computed program counter is below `0x100`, and is 0 exactly when PCL was `0xFF` |
| Pic.Execute | pic_emulator_rs/src/pic.rs:86-89 | an `UND` instruction runs `HALT`; `CLRF` and `CLRW` run `CLR`; every other instruction runs the executor that serves its mnemonic |
| Pic.Dispatch | pic_emulator_rs/src/pic.rs:92-143 | `HALT` exactly for `UND`; `CLR` exactly for `CLRF` and `CLRW` |
| Pic.Tick | pic_emulator_rs/src/pic.rs:71-89 | a tick runs the executor dispatched from the word at `PCL + 1` on the fetched state |
| Pic.CalibrationWord | pic_emulator_rs/src/pic.rs:55 | the calibration instruction `0xC00` OR `OSCCAL` is the valid 12-bit word `0xC00 + OSCCAL` |
| Pic.ResetRegisters | pic_emulator_rs/src/pic.rs:58-68 | PCL gets the calibration address's low byte; STATUS, FSR, OSCCAL, CMCON0, TRIS and OPTION get their reset values; INDF, TMR0, GPIO and the rest are untouched |
| Pic.PowerOnInitialize | pic_emulator_rs/src/pic.rs:49-69 | the calibration word is stored at its address and nowhere else; the registers are reset; the program counter, instruction register, W and pins are untouched |
| Pic.ProgramChip | pic_emulator_rs/src/pic.rs:34-37 | program memory becomes the image, and the data memory is reflashed; nothing else changes |
| Pic.DispatchRoundTrip | pic_emulator_rs/src/pic.rs:92-143 | every executor is reached, and every mnemonic but `CLRW` is recovered from its executor |
| Pic.DispatchInjective | pic_emulator_rs/src/pic.rs:92-143 | two mnemonics share an executor only if both are `CLRF` or `CLRW` |
| Pic.FetchStaysInPage | pic_emulator_rs/src/pic.rs:78-81 | after a fetch, bit 8 of the program counter is clear, and it is 0 exactly when PCL was `0xFF` |
| Pic.TickHaltsOnUndefined | pic_emulator_rs/src/pic.rs:86-89 | a tick whose fetched word decodes to `UND` runs `HALT` |
| Pic.CalibrationWordDecodes | pic_emulator_rs/src/pic.rs:55-56 | the calibration word decodes to MOVLW only if OSCCAL is 0, and to UND otherwise |
| Pic.PowerOnFirstFetch | pic_emulator_rs/src/pic.rs:50-61 | with the calibration word at `0xFF`, the first fetch after power-on reads address 0 |
| Pic.ProgramThenFetch | pic_emulator_rs/src/pic.rs:34-37 | after programming, a fetch reads its word from the new image |
| Clock.New | pic_emulator_rs/src/clock.rs:13-24 | phase 0, the given phases and frequency, and `phases` clock lines, all low |
| Clock.Tick | pic_emulator_rs/src/clock.rs:26-33 | the phase goes up by one; exactly the line at the new `phase % phases` is high; the line count is kept; the callback runs once |
| Clock.Run | pic_emulator_rs/src/clock.rs:38-41 | n ticks add n to the phase, leave the ring one-hot at `phase % phases`, and apply the callback n times |
| Clock.TickHasOneHighLine | pic_emulator_rs/src/clock.rs:28-31 | after a tick, the set of high lines is exactly `{phase % phases}` |
| Clock.FirstTickSkipsLineZero | pic_emulator_rs/src/clock.rs:27-31 | the first tick after `new` raises line `1 % phases`, not line 0 |
| Clock.RunFromNew | pic_emulator_rs/src/clock.rs:13-31 | n ticks from `new` give phase n, with line `n % phases` high |
| Clock.CallbackOncePerTick | pic_emulator_rs/src/clock.rs:32 | a callback that counts its calls counts n after n ticks |

## Left out

- **Width N = 16 of `NBitNumber`.** `validate_bit_width` admits it, but
  `(1 << 16) - 1` overflows a `u16` in `new` and `get_max`. The model's
  widths are 1 to 15.
- **`NBitNumber` derives and enums.** The derived `Sub`, `Shl`, `Shr`, `Not`,
  `Sum` and `Into` are not modelled, because the core does not use them.
  The derived `==`, which `decode_mnemonic` uses to compare two `u12`s,
  compares the `value` fields, and the model compares `.value` directly;
  the ordering comparisons are not used by the core. The `NBit` enum that
  tags each table pattern with its width is represented by the number's
  `width` field. Its `_ =>` arm, which panics, cannot be reached, because
  every table width is at most 12 (`TableWidthsAtMost12`).
- **The opcode table's display names.** The third column spells each
  mnemonic and is never read.
- **`encode_mnemonic`.** Its body is `todo!()`.
- **`PICInstructionType` and `PIC10F2Types`.** They carry no behaviour.
- **The executors of `logic.rs`.** Their bodies are not part of this model.
  `Execute` and `Tick` take them as a function parameter.
- **The dispatch's `RETFIE`, `MOVLB` and `RETURN` arms.** These variants do
  not exist, and the arms are `todo!()`.
- **The internals of `RegisterFile` and `ProgramMemory`.** Reads and writes
  are plain indexing, and `program_memory.flash` is a copy. Any indirection
  through INDF inside `RegisterFile::read` is not modelled. The data
  memory's `flash` and every power-on constant are parameters.
- **`SystemClock::start`.** It is an async loop with a floating-point sleep.
  `Run` models its ticks without the timing.
- NBit.Add: requires the raw sum to fit in 16 bits. The derived `+` adds
  the `u16` fields, so a larger sum panics in a debug build and wraps in a
  release build; neither is modelled. Only operands above their width can
  reach it, since the widths are at most 15; the pipeline adds 1 to a PCL
  below `0x100`.
- Clock.Tick: requires `phase < 2^32 - 1`. `phase += 1` on the largest `u32`
  panics in a debug build, and the release build's wrap-around is not
  modelled.
- Clock.Tick: the callback runs after the clock lines are updated. Its
  effect is modelled as a function of its own environment only, so this
  ordering is not observable in the model.
- **The test harness and `lib.rs`.** The harness does not compile, and
  `lib.rs` holds only module declarations.
