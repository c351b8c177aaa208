/** The functions the emulator's `logic.rs` provides to carry out an
    instruction, named as the dispatch names them.  Their bodies are not part
    of this model: `Pic.Execute` takes them as a parameter. */
module Executors {
  datatype Executor =
    // miscellaneous
    | NOP | CLRWDT | OPTION | SLEEP | TRIS
    // ALU operations
    | MOVWF | CLR | SUBWF | DECF | IORWF | ANDWF | XORWF | ADDWF | MOVF | COMF
    | INCF | DECFSZ | RRF | RLF | SWAPF | INCFSZ
    // bit operations
    | BCF | BSF | BTFSC | BTFSS
    // control transfer
    | GOTO | CALL | RETLW
    // operations with W
    | MOVLW | IORLW | ANDLW | XORLW
    // stops the machine on an undefined instruction
    | HALT
}

/** The PIC10F200 as the emulator drives it: a register file, a program
    memory of 512 twelve-bit words, the 9-bit program counter, the
    instruction register, the W register and three I/O pins, advanced by a
    two-stage fetch/execute pipeline.

    The register file and the program memory are kept abstract: the register
    file is 32 bytes plus the `TRIS` and `OPTION` shadow registers, read and
    written by address; the program memory is a sequence of words.  The
    power-on reset values, the executors and the register file's `flash` are
    parameters. */
module Pic {
  import opened Bits
  import opened NBit
  import opened Instructions
  import E = Executors

  // ---------------------------------------------------------------------------
  // Memories

  /** The special-purpose registers the pipeline touches. */
  datatype SpecialRegister = INDF | TMR0 | PCL | STATUS | FSR | OSCCAL | GPIO | CMCON0

  /** Register addresses of the PIC10F200 memory map (section 4.3 of the
      PIC10F200/202/204/206 datasheet). */
  function Index(r: SpecialRegister): (a: nat) {
    match r
    case INDF => 0
    case TMR0 => 1
    case PCL => 2
    case STATUS => 3
    case FSR => 4
    case OSCCAL => 5
    case GPIO => 6
    case CMCON0 => 7
  }

  /** `u5::new(r as u16)`: the 5-bit address of a special register. */
  function Address(r: SpecialRegister): (a: U5)
    ensures a.Valid() && a.value == Index(r)
  {
    Pow2Values();
    ModSmall(Index(r), 32);
    New(5, Index(r))
  }

  /** The data memory: the 32 file registers, and the `TRIS` and `OPTION`
      registers, which have no address. */
  datatype RegisterFile = RegisterFile(files: seq<U8>, tris: U8, option: U8) {
    predicate Valid() {
      |files| == 32
    }
  }

  /** `RegisterFile::read`. */
  function Read(d: RegisterFile, a: U5): (v: U8)
    requires d.Valid() && a.Valid()
  {
    Pow2Values();
    d.files[a.value]
  }

  /** `RegisterFile::write`. */
  function Write(d: RegisterFile, a: U5, v: U8): (r: RegisterFile)
    requires d.Valid() && a.Valid()
    ensures r.Valid() && Read(r, a) == v
    ensures forall b: U5 :: b.Valid() && b.value != a.value ==> Read(r, b) == Read(d, b)
    ensures r.tris == d.tris && r.option == d.option
  {
    Pow2Values();
    d.(files := d.files[a.value := v])
  }

  /** A program memory image: one 12-bit word per address. */
  predicate ValidProgram(p: seq<U12>) {
    |p| == 0x200
  }

  // ---------------------------------------------------------------------------
  // The machine

  datatype Pic10F200 = Pic10F200(
    data: RegisterFile,
    program: seq<U12>,
    pc: U9,
    ir: Instruction,
    w: U8,
    io: seq<bool>)
  {
    /** The register file and program memory have their sizes and widths,
        and there are three pins.  The program counter is not constrained:
        the derived `+` on a `u9` does not re-mask, so it may hold a value of
        `0x200` or more, and `fetch` overwrites it without reading it. */
    predicate Valid() {
      data.Valid() && ValidProgram(program) && |io| == 3
    }
  }

  /** The contents of `PCL`. */
  function PclOf(m: Pic10F200): (pcl: U8)
    requires m.Valid()
  {
    Read(m.data, Address(PCL))
  }

  /** The program counter `fetch` computes from `PCL`: loaded into a `u9`,
      incremented, and with bit 8 cleared by `& 0x0FF`. */
  function NextPc(pcl: U8): (r: U9)
    ensures r.Valid() && r.value == (pcl + 1) % 0x100
  {
    Pow2Values();
    ModSmall(pcl, 0x200);
    ModSmall(1, 0x200);
    ModSmall(0x0FF, 0x200);
    var loaded := New(9, pcl);
    var incremented := Add(loaded, New(9, 1));
    var cleared := And(incremented, New(9, 0x0FF));
    AndLowMask(pcl + 1, 8);
    assert cleared.value == (pcl + 1) % 0x100;
    cleared
  }

  /** `fetch`: loads the program counter from `PCL`, adds one, clears bit 8,
      and loads the instruction register with the decoded word at that
      address.  Nothing else changes. */
  function Fetch(m: Pic10F200): (r: Pic10F200)
    requires m.Valid()
    ensures r.Valid() && r.pc.Valid()
    ensures r.pc.width == 9 && r.pc.value == (PclOf(m) + 1) % 0x100
    ensures r.ir.raw == m.program[r.pc.value]
    ensures r.ir.mnemonic == Decode(m.program[r.pc.value])
    ensures r.data == m.data && r.program == m.program
    ensures r.w == m.w && r.io == m.io
  {
    var pc := NextPc(PclOf(m));
    m.(pc := pc, ir := FromU12(m.program[pc.value]))
  }

  /** The decoder dispatch of `pic.rs`: each mnemonic to its executor, `UND`
      to `HALT`.  `CLRF` and `CLRW` have no arm of their own in the source,
      whose `CLR` arm names no mnemonic; they are sent to `CLR`. */
  function Dispatch(m: Mnemonic): (e: E.Executor)
    ensures e == E.HALT <==> m == UND
    ensures e == E.CLR <==> m == CLRF || m == CLRW
  {
    match m
    case NOP => E.NOP
    case CLRWDT => E.CLRWDT
    case OPTION => E.OPTION
    case SLEEP => E.SLEEP
    case TRIS => E.TRIS
    case MOVWF => E.MOVWF
    case CLRF => E.CLR
    case CLRW => E.CLR
    case SUBWF => E.SUBWF
    case DECF => E.DECF
    case IORWF => E.IORWF
    case ANDWF => E.ANDWF
    case XORWF => E.XORWF
    case ADDWF => E.ADDWF
    case MOVF => E.MOVF
    case COMF => E.COMF
    case INCF => E.INCF
    case DECFSZ => E.DECFSZ
    case RRF => E.RRF
    case RLF => E.RLF
    case SWAPF => E.SWAPF
    case INCFSZ => E.INCFSZ
    case BCF => E.BCF
    case BSF => E.BSF
    case BTFSC => E.BTFSC
    case BTFSS => E.BTFSS
    case GOTO => E.GOTO
    case CALL => E.CALL
    case RETLW => E.RETLW
    case MOVLW => E.MOVLW
    case IORLW => E.IORLW
    case ANDLW => E.ANDLW
    case XORLW => E.XORLW
    case UND => E.HALT
  }

  /** `execute`: runs the executor the current instruction dispatches to.
      `run` stands for the executors of `logic.rs`.  An undefined word
      halts; otherwise the executor run is the one that serves the
      instruction's mnemonic. */
  function Execute(m: Pic10F200, run: (E.Executor, Pic10F200) -> Pic10F200): (r: Pic10F200)
    ensures m.ir.mnemonic == UND ==> r == run(E.HALT, m)
    ensures m.ir.mnemonic == CLRF || m.ir.mnemonic == CLRW ==> r == run(E.CLR, m)
    ensures forall e :: Served(e) == m.ir.mnemonic ==> r == run(e, m)
  {
    ServedInvertsDispatch();
    run(Dispatch(m.ir.mnemonic), m)
  }

  /** `tick`: one pipeline step, a fetch and then an execute. */
  function Tick(m: Pic10F200, run: (E.Executor, Pic10F200) -> Pic10F200): (r: Pic10F200)
    requires m.Valid()
    ensures r == run(Dispatch(Decode(m.program[(PclOf(m) + 1) % 0x100])), Fetch(m))
  {
    Execute(Fetch(m), run)
  }

  // ---------------------------------------------------------------------------
  // Power-on reset and programming

  /** The values `data_memory.rs` and `program_memory.rs` define for power-on
      reset. */
  datatype PorValues = PorValues(
    status: U8,
    fsr: U8,
    osccal: U8,
    cmcon0: U8,
    tris: U8,
    option: U8,
    movlwOsccalAddress: U9)

  /** The calibration instruction `0xC00 | OSCCAL`, as a 12-bit word. */
  function CalibrationWord(osccal: U8): (r: U12)
    ensures r.Valid() && r.value == 0xC00 + osccal
  {
    Pow2Values();
    OrDisjoint(12, osccal, 8);
    ModSmall(0xC00 + osccal, 0x1000);
    New(12, BitOr(0xC00, osccal))
  }

  /** The register writes of `power_on_initialize`: `PCL` gets the low byte
      of the calibration address, `STATUS`, `FSR`, `OSCCAL`, `CMCON0`, `TRIS`
      and `OPTION` their reset values; every other register, `INDF`, `TMR0`
      and `GPIO` among them (their reset value is undefined), keeps its
      contents. */
  function ResetRegisters(d: RegisterFile, por: PorValues): (r: RegisterFile)
    requires d.Valid() && por.movlwOsccalAddress.Valid()
    ensures r.Valid()
    ensures Read(r, Address(PCL)) == por.movlwOsccalAddress.value % 0x100
    ensures Read(r, Address(STATUS)) == por.status
    ensures Read(r, Address(FSR)) == por.fsr
    ensures Read(r, Address(OSCCAL)) == por.osccal
    ensures Read(r, Address(CMCON0)) == por.cmcon0
    ensures r.tris == por.tris && r.option == por.option
    ensures forall a: nat ::
      a < 32 && a !in {Index(PCL), Index(STATUS), Index(FSR), Index(OSCCAL), Index(CMCON0)} ==>
      r.files[a] == d.files[a]
  {
    var d1 := Write(d, Address(PCL), por.movlwOsccalAddress.value % 0x100);
    var d2 := Write(d1, Address(STATUS), por.status);
    var d3 := Write(d2, Address(FSR), por.fsr);
    var d4 := Write(d3, Address(OSCCAL), por.osccal);
    var d5 := Write(d4, Address(CMCON0), por.cmcon0);
    d5.(tris := por.tris, option := por.option)
  }

  /** `power_on_initialize`: stores the calibration instruction at its
      address and resets the registers; W, the program counter, the
      instruction register and the pins are left as they were. */
  function PowerOnInitialize(m: Pic10F200, por: PorValues): (r: Pic10F200)
    requires m.Valid() && por.movlwOsccalAddress.Valid()
    ensures r.Valid()
    ensures r.program[por.movlwOsccalAddress.value].value == 0xC00 + por.osccal
    ensures forall a :: 0 <= a < 0x200 && a != por.movlwOsccalAddress.value ==>
      r.program[a] == m.program[a]
    ensures r.data == ResetRegisters(m.data, por)
    ensures r.pc == m.pc && r.ir == m.ir && r.w == m.w && r.io == m.io
  {
    Pow2Values();
    var program := m.program[por.movlwOsccalAddress.value := CalibrationWord(por.osccal)];
    m.(data := ResetRegisters(m.data, por), program := program)
  }

  /** `program_chip`: replaces the program memory by `image` and resets the
      data memory with `flash`, whose body `data_memory.rs` holds. */
  function ProgramChip(m: Pic10F200, image: seq<U12>, flash: RegisterFile -> RegisterFile)
    : (r: Pic10F200)
    requires m.Valid() && ValidProgram(image)
    requires forall d: RegisterFile :: d.Valid() ==> flash(d).Valid()
    ensures r.Valid()
    ensures r.program == image && r.data == flash(m.data)
    ensures r.pc == m.pc && r.ir == m.ir && r.w == m.w && r.io == m.io
  {
    m.(program := image, data := flash(m.data))
  }

  // ---------------------------------------------------------------------------
  // Properties

  /** The mnemonic an executor serves: the inverse of the dispatch, which
      sends `CLR` back to `CLRF`. */
  function Served(e: E.Executor): (m: Mnemonic) {
    match e
    case NOP => NOP
    case CLRWDT => CLRWDT
    case OPTION => OPTION
    case SLEEP => SLEEP
    case TRIS => TRIS
    case MOVWF => MOVWF
    case CLR => CLRF
    case SUBWF => SUBWF
    case DECF => DECF
    case IORWF => IORWF
    case ANDWF => ANDWF
    case XORWF => XORWF
    case ADDWF => ADDWF
    case MOVF => MOVF
    case COMF => COMF
    case INCF => INCF
    case DECFSZ => DECFSZ
    case RRF => RRF
    case RLF => RLF
    case SWAPF => SWAPF
    case INCFSZ => INCFSZ
    case BCF => BCF
    case BSF => BSF
    case BTFSC => BTFSC
    case BTFSS => BTFSS
    case GOTO => GOTO
    case CALL => CALL
    case RETLW => RETLW
    case MOVLW => MOVLW
    case IORLW => IORLW
    case ANDLW => ANDLW
    case XORLW => XORLW
    case HALT => UND
  }

  /** Every mnemonic but `CLRW` is recovered from its executor, and every
      executor is reached: the dispatch is one-to-one except that `CLRF` and
      `CLRW` share `CLR`. */
  lemma DispatchRoundTrip(m: Mnemonic, e: E.Executor)
    ensures m != CLRW ==> Served(Dispatch(m)) == m
    ensures Dispatch(Served(e)) == e
  {
    ServedAfterDispatch(m);
    DispatchAfterServed(e);
  }

  lemma ServedAfterDispatch(m: Mnemonic)
    ensures m != CLRW ==> Served(Dispatch(m)) == m
  {
    match m
    case CLRW =>
    case _ =>
  }

  /** `Served` is a right inverse of the dispatch, for every executor. */
  lemma ServedInvertsDispatch()
    ensures forall e :: Dispatch(Served(e)) == e
  {
    forall e {
      DispatchAfterServed(e);
    }
  }

  lemma DispatchAfterServed(e: E.Executor)
    ensures Dispatch(Served(e)) == e
  {
    match e
    case HALT =>
    case _ =>
  }

  /** Two mnemonics share an executor only when both are `CLRF` or `CLRW`. */
  lemma DispatchInjective(a: Mnemonic, b: Mnemonic)
    requires Dispatch(a) == Dispatch(b)
    ensures a == b || ((a == CLRF || a == CLRW) && (b == CLRF || b == CLRW))
  {
    DispatchRoundTrip(a, E.HALT);
    DispatchRoundTrip(b, E.HALT);
  }

  /** The program counter computed from `PCL` never has bit 8 set, and a
      `PCL` of `0xFF` wraps to address 0. */
  lemma NextPcInPage(pcl: U8)
    ensures NextPc(pcl).value < 0x100
    ensures NextPc(pcl).value == 0 <==> pcl == 0xFF
  {
    if pcl == 0xFF {
      DivModUnique(0x100, 0x100, 1, 0);
    } else {
      ModSmall(pcl + 1, 0x100);
    }
  }

  /** The program counter never has bit 8 set after a fetch, and a `PCL` of
      `0xFF` wraps to address 0. */
  lemma FetchStaysInPage(m: Pic10F200)
    requires m.Valid()
    ensures Fetch(m).pc.value < 0x100
    ensures PclOf(m) == 0xFF ==> Fetch(m).pc.value == 0
    ensures Fetch(m).pc.value == 0 ==> PclOf(m) == 0xFF
  {
    NextPcInPage(PclOf(m));
  }

  /** A tick whose fetched word decodes to `UND` runs `HALT`. */
  lemma TickHaltsOnUndefined(m: Pic10F200, run: (E.Executor, Pic10F200) -> Pic10F200)
    requires m.Valid()
    requires Decode(m.program[(PclOf(m) + 1) % 0x100]) == UND
    ensures Tick(m, run) == run(E.HALT, Fetch(m))
  {
  }

  /** In the reference table, the words `0xC00 .. 0xCFF` are `MOVLW` only at
      `0xC00` and `UND` everywhere else. */
  lemma ReferenceMovlwPage(osccal: U8)
    ensures ReferenceDecode(0xC00 + osccal) == MOVLW <==> osccal == 0
    ensures osccal != 0 ==> ReferenceDecode(0xC00 + osccal) == UND
  {
    ReferenceUndefinedIff(0xC00 + osccal);
  }

  /** The calibration word is `MOVLW 0` only when the calibration value is 0;
      for any other value its operand bits make it decode to `UND`. */
  lemma CalibrationWordDecodes(osccal: U8)
    ensures Decode(CalibrationWord(osccal)) == MOVLW <==> osccal == 0
    ensures osccal != 0 ==> Decode(CalibrationWord(osccal)) == UND
  {
    var word := CalibrationWord(osccal);
    assert Decode(word) == ReferenceDecode(0xC00 + osccal) by {
      DecodeMatchesReference(word);
      ModSmall(word.value, 0x1000);
    }
    ReferenceMovlwPage(osccal);
  }

  /** With the calibration word at `0xFF`, as the datasheet places it, the
      first fetch after power-on reads address 0, not the calibration word. */
  lemma PowerOnFirstFetch(m: Pic10F200, por: PorValues)
    requires m.Valid() && por.movlwOsccalAddress.Valid()
    requires por.movlwOsccalAddress.value == 0xFF
    ensures Fetch(PowerOnInitialize(m, por)).pc.value == 0
    ensures Fetch(PowerOnInitialize(m, por)).ir.raw == m.program[0]
  {
    var booted := PowerOnInitialize(m, por);
    FetchStaysInPage(booted);
  }

  /** After programming, fetches read the new image. */
  lemma ProgramThenFetch(m: Pic10F200, image: seq<U12>, flash: RegisterFile -> RegisterFile)
    requires m.Valid() && ValidProgram(image)
    requires forall d: RegisterFile :: d.Valid() ==> flash(d).Valid()
    ensures var fetched := Fetch(ProgramChip(m, image, flash));
      fetched.ir.raw == image[fetched.pc.value]
  {
  }
}
