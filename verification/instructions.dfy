/** The PIC10F200 instruction decoder, as the emulator writes it: a table of
    opcode patterns of various widths, each left-aligned to 12 bits and
    compared, in table order, with the whole raw instruction word.

    Because the raw word is compared without masking its operand bits, only
    the 31 distinct aligned patterns decode to an instruction and every
    other word decodes to `UND`.  A word decodes only when the operand bits
    of the entry it matches are zero; a word with a nonzero operand either
    decodes to `UND` or, when it equals another entry's pattern, decodes as
    that other instruction (`BCF 0,4` as `BTFSC`, `BSF 0,4` as `BTFSS`).
    Two patterns occur twice, so `MOVWF` and `RETLW` are never decoded.
    The lemmas at the end of the module state these facts. */
module Instructions {
  import opened Bits
  import opened NBit

  datatype Option<T> = None | Some(value: T)

  datatype Mnemonic =
    // basic instructions
    | ADDWF | ANDWF | CLRF | CLRW | COMF | DECF | DECFSZ | INCF | INCFSZ
    | IORWF | MOVF | MOVWF | NOP | RLF | RRF | SUBWF | SWAPF | XORWF
    // bit-oriented file register operations
    | BCF | BSF | BTFSC | BTFSS
    // literal and control operations
    | ANDLW | CALL | CLRWDT | GOTO | IORLW | MOVLW | OPTION | RETLW | SLEEP | TRIS | XORLW
    // a word no table entry matches
    | UND

  /** One row of the opcode table: the fixed bits of an instruction, held in
      a number as wide as the fixed part, and its mnemonic.  (The source's
      third column, a display name, spells the mnemonic and is never read.) */
  datatype Opcode = Opcode(pattern: NBitNumber, mnemonic: Mnemonic)

  /** `OPCODES`, in source order and in the source's three groups.  The
      patterns are written in hexadecimal; the width is the number of fixed
      bits.  Each pattern fits its width, so
      building it with `new`, as the source does, leaves it unchanged
      (`TablePatternsValid`). */
  const Opcodes: seq<Opcode> := ByteOriented + BitOriented + LiteralControl

  /** The byte-oriented file register operations, plus `NOP`. */
  const ByteOriented: seq<Opcode> := [
    Opcode(NBitNumber(6, 0x07), ADDWF),
    Opcode(NBitNumber(6, 0x05), ANDWF),
    Opcode(NBitNumber(7, 0x03), CLRF),
    Opcode(NBitNumber(12, 0x040), CLRW),
    Opcode(NBitNumber(6, 0x09), COMF),
    Opcode(NBitNumber(6, 0x03), DECF),
    Opcode(NBitNumber(6, 0x0B), DECFSZ),
    Opcode(NBitNumber(6, 0x0A), INCF),
    Opcode(NBitNumber(6, 0x0F), INCFSZ),
    Opcode(NBitNumber(6, 0x04), IORWF),
    Opcode(NBitNumber(6, 0x08), MOVF),
    Opcode(NBitNumber(6, 0x01), MOVWF),
    Opcode(NBitNumber(12, 0x000), NOP),
    Opcode(NBitNumber(6, 0x0D), RLF),
    Opcode(NBitNumber(6, 0x0C), RRF),
    Opcode(NBitNumber(6, 0x02), SUBWF),
    Opcode(NBitNumber(6, 0x0E), SWAPF),
    Opcode(NBitNumber(6, 0x06), XORWF)
  ]

  /** The bit-oriented file register operations. */
  const BitOriented: seq<Opcode> := [
    Opcode(NBitNumber(7, 0x20), BCF),
    Opcode(NBitNumber(7, 0x28), BSF),
    Opcode(NBitNumber(7, 0x24), BTFSC),
    Opcode(NBitNumber(7, 0x2C), BTFSS)
  ]

  /** The literal and control operations. */
  const LiteralControl: seq<Opcode> := [
    Opcode(NBitNumber(8, 0xE0), ANDLW),
    Opcode(NBitNumber(4, 0x9), CALL),
    Opcode(NBitNumber(12, 0x018), CLRWDT),
    Opcode(NBitNumber(3, 0x5), GOTO),
    Opcode(NBitNumber(8, 0xD0), IORLW),
    Opcode(NBitNumber(8, 0xC0), MOVLW),
    Opcode(NBitNumber(12, 0x002), OPTION),
    Opcode(NBitNumber(12, 0x002), RETLW),
    Opcode(NBitNumber(12, 0x01C), SLEEP),
    Opcode(NBitNumber(12, 0x001), TRIS),
    Opcode(NBitNumber(8, 0xF0), XORLW)
  ]

  /** An instruction: the raw word and the mnemonic decoded from it. */
  datatype Instruction = Instruction(raw: U12, mnemonic: Mnemonic)

  // ---------------------------------------------------------------------------
  // Aligning a pattern to the top of the 12-bit word

  /** `v << s` in a `u16` is `2^s` times the low `16 - s` bits of `v`. */
  lemma ShiftedIsMultiple(v: U16, s: nat)
    requires s <= 11
    ensures Shl16(v, s) == Pow2(s) * (v % Pow2(16 - s))
  {
    Pow2Values();
    Pow2Add(s, 16 - s);
    ModScaled(Pow2(s), v, Pow2(16 - s));
  }

  /** Clearing the low `s` bits of a multiple of `2^s` changes nothing. */
  lemma ClearLowOfMultiple(c: nat, s: nat)
    requires s <= 11 && Pow2(s) * c < 0x1_0000
    ensures BitAnd(Pow2(s) * c, Not16(Mask(s))) == Pow2(s) * c
  {
    var p, x := Pow2(s), Pow2(s) * c;
    Pow2Values();
    Pow2Add(s, 16 - s);
    assert Not16(Mask(s)) == p * (Pow2(16 - s) - 1);
    AndBandMask(x, s, 16 - s);
    ModSmall(x, 0x1_0000);
    DivModUnique(x, p, c, 0);
  }

  /** The powers of two around the 12-bit word: `2^s * 2^(12-s)` is `2^12`
      and `2^(16-s)` is `16 * 2^(12-s)`. */
  lemma TwelveBitFactors(s: nat)
    requires s <= 11
    ensures Pow2(s) * Pow2(12 - s) == 0x1000
    ensures Pow2(16 - s) == Pow2(12 - s) * 16
  {
    Pow2Values();
    Pow2Add(s, 12 - s);
    Pow2Add(12 - s, 4);
  }

  /** Keeping 12 bits of `2^s` times the low `16 - s` bits of `v` is keeping
      12 bits of `2^s * v`, and leaves the low `s` bits zero. */
  lemma KeepTwelveBits(v: U16, s: nat)
    requires s <= 11
    ensures (Pow2(s) * (v % Pow2(16 - s))) % 0x1000 == (v * Pow2(s)) % 0x1000
    ensures ((v * Pow2(s)) % 0x1000) % Pow2(s) == 0
  {
    var p, q, r := Pow2(s), Pow2(16 - s), Pow2(12 - s);
    TwelveBitFactors(s);
    assert (p * (v % q)) % 0x1000 == p * (v % r) by {
      ModScaled(p, v % q, r);
      ModMod(v, r, 16);
    }
    assert (v * p) % 0x1000 == p * (v % r) by {
      ModScaled(p, v, r);
      assert v * p == p * v;
    }
    DivModUnique(p * (v % r), p, v % r, 0);
  }

  /** The `u16` computation of `align_opcode`, in arithmetic terms: shifting
      left by `s` and clearing the low `s` bits, then keeping 12 bits, is
      multiplication by `2^s` modulo `2^12`, and leaves the low `s` bits zero. */
  lemma AlignArithmetic(v: U16, s: nat)
    requires s <= 11
    ensures BitAnd(Shl16(v, s), Not16(Mask(s))) % 0x1000 == (v * Pow2(s)) % 0x1000
    ensures ((v * Pow2(s)) % 0x1000) % Pow2(s) == 0
  {
    ShiftedIsMultiple(v, s);
    ClearLowOfMultiple(v % Pow2(16 - s), s);
    KeepTwelveBits(v, s);
  }

  /** `align_opcode::<N>(n)`: moves the `N`-bit pattern to the top of a
      12-bit word.  A width above 12 panics in the source. */
  function Align(n: NBitNumber): (r: NBitNumber)
    requires n.width <= 12
    ensures r.width == 12 && r.Valid()
    ensures r.value == (n.value * Pow2(12 - n.width)) % 0x1000
    ensures r.value % Pow2(12 - n.width) == 0
  {
    var s := 12 - n.width;
    var shifted := Shl16(n.value, s);
    var mask := Mask(s);
    var nmask := Not16(mask);
    var result := BitAnd(shifted, nmask);
    Pow2Values();
    AlignArithmetic(n.value, s);
    New(12, result)
  }

  /** Aligning at width 12 changes nothing in a valid 12-bit number. */
  lemma AlignWideIsIdentity(n: NBitNumber)
    requires n.width == 12 && n.Valid()
    ensures Align(n) == n
  {
    AlignedTargetIsRaw(n);
    Pow2Values();
    ModSmall(n.value, 0x1000);
  }

  /** Every table entry is at most 12 bits wide, so neither the `N > 12`
      panic of `align_opcode` nor the `_ =>` arm of the decoder is reached. */
  lemma TableWidthsAtMost12()
    ensures forall i :: 0 <= i < |Opcodes| ==> Opcodes[i].pattern.width <= 12
  {
  }

  /** Every pattern fits its width: `new` leaves it unchanged. */
  lemma TablePatternsValid()
    ensures forall i :: 0 <= i < |Opcodes| ==>
      New(Opcodes[i].pattern.width, Opcodes[i].pattern.value) == Opcodes[i].pattern
  {
    Pow2Values();
    forall i | 0 <= i < |Opcodes|
      ensures New(Opcodes[i].pattern.width, Opcodes[i].pattern.value) == Opcodes[i].pattern
    {
      ModSmall(Opcodes[i].pattern.value, Pow2(Opcodes[i].pattern.width));
    }
  }

  /** The aligned pattern of table entry `i`, in arithmetic terms: the
      pattern times `2^(12 - width)`, kept to 12 bits.  `Align` computes it
      with shifts and masks. */
  ghost function AlignedAt(i: nat): (w: nat)
    requires i < |Opcodes|
  {
    var p := Opcodes[i].pattern;
    (p.value * Pow2(12 - p.width)) % 0x1000
  }

  /** `align_opcode` applied to the pattern of table entry `i`. */
  function AlignPattern(i: nat): (r: NBitNumber)
    requires i < |Opcodes|
    ensures r.width == 12 && r.Valid() && r.value == AlignedAt(i)
    ensures r.value % Pow2(12 - Opcodes[i].pattern.width) == 0
  {
    TableWidthsAtMost12();
    Align(Opcodes[i].pattern)
  }

  // ---------------------------------------------------------------------------
  // Decoding

  /** Entry `k` is the first entry from entry `i` on whose aligned pattern is
      `target`. */
  ghost predicate FirstMatchFrom(target: nat, i: nat, k: nat) {
    && i <= k < |Opcodes|
    && AlignedAt(k) == target
    && forall j :: i <= j < k ==> AlignedAt(j) != target
  }

  /** The loop of `decode_mnemonic`, from entry `i` on: the index of the
      first matching entry, if there is one. */
  function MatchFrom(target: nat, i: nat): (r: Option<nat>)
    requires i <= |Opcodes|
    ensures r.None? <==> forall j :: i <= j < |Opcodes| ==> AlignedAt(j) != target
    ensures r.Some? ==> FirstMatchFrom(target, i, r.value)
    decreases |Opcodes| - i
  {
    if i == |Opcodes| then None
    else if AlignPattern(i).value == target then Some(i)
    else MatchFrom(target, i + 1)
  }

  /** `decode_mnemonic`: the mnemonic of the first entry whose aligned pattern
      equals the whole raw word (itself aligned at width 12, which only keeps
      its 12 bits), or `UND` when none does. */
  function Decode(raw: U12): (r: Mnemonic)
    ensures r == UND <==> forall i :: 0 <= i < |Opcodes| ==> AlignedAt(i) != raw.value % 0x1000
    ensures forall k: nat :: FirstMatchFrom(raw.value % 0x1000, 0, k) ==> Opcodes[k].mnemonic == r
  {
    var alignedTarget := Align(raw);
    AlignedTargetIsRaw(raw);
    var found := MatchFrom(alignedTarget.value, 0);
    if found.None? then UND
    else
      TableHasNoUnd();
      Opcodes[found.value].mnemonic
  }

  /** Aligning the raw word at width 12 keeps its 12 bits. */
  lemma AlignedTargetIsRaw(raw: U12)
    ensures Align(raw).value == raw.value % 0x1000
  {
    Pow2Values();
  }

  /** No table entry carries the `UND` mnemonic. */
  lemma TableHasNoUnd()
    ensures forall i :: 0 <= i < |Opcodes| ==> Opcodes[i].mnemonic != UND
  {
  }

  /** `from_u12`: keeps the raw word and decodes it. */
  function FromU12(w: U12): (r: Instruction)
    ensures r.raw == w && r.mnemonic == Decode(w)
    ensures r.mnemonic == UND <==> w.value % 0x1000 !in DefinedWords
  {
    DecodeUndefinedIff(w);
    Instruction(w, Decode(w))
  }

  /** `from_mnemonic`: an instruction with the given mnemonic and raw word 0. */
  function FromMnemonic(m: Mnemonic): (r: Instruction)
    ensures r.raw.value == 0 && r.raw.Valid() && r.mnemonic == m
  {
    Instruction(New(12, 0), m)
  }

  // ---------------------------------------------------------------------------
  // Operand fields

  /** `extract_k`: the 8-bit literal, bits 7..0. */
  function ExtractK(i: Instruction): (r: U8)
    ensures r == i.raw.value % 0x100
  {
    Pow2Values();
    AndLowMask(i.raw.value, 8);
    BitAnd(i.raw.value, 0x0FF)
  }

  /** `extract_d`: meant to be the destination bit 5, but `new` keeps only
      bit 0 of `raw & 0x020`, which is always clear: the result is 0. */
  function ExtractD(i: Instruction): (r: NBitNumber)
    ensures r.width == 1 && r.Valid() && r.value == 0
  {
    Pow2Values();
    BandIsEven(i.raw.value);
    New(1, BitAnd(i.raw.value, 0x020))
  }

  /** `extract_f`: the 5-bit file address, bits 4..0. */
  function ExtractF(i: Instruction): (r: NBitNumber)
    ensures r.width == 5 && r.Valid() && r.value == i.raw.value % 32
  {
    Pow2Values();
    AndLowMask(i.raw.value, 5);
    ModSmall(i.raw.value % 32, 32);
    New(5, BitAnd(i.raw.value, 0x01F))
  }

  /** `extract_b`: the 3-bit bit index, bits 7..5. */
  function ExtractB(i: Instruction): (r: NBitNumber)
    ensures r.width == 3 && r.Valid() && r.value == (i.raw.value / 32) % 8
  {
    Pow2Values();
    BitIndexField(i.raw.value);
    ModSmall((i.raw.value / 32) % 8, 8);
    New(3, Shr16(BitAnd(i.raw.value, 0x0E0), 5))
  }

  /** `extract_k_goto`: the 9-bit jump target, bits 8..0. */
  function ExtractKGoto(i: Instruction): (r: NBitNumber)
    ensures r.width == 9 && r.Valid() && r.value == i.raw.value % 0x200
  {
    Pow2Values();
    AndLowMask(i.raw.value, 9);
    ModSmall(i.raw.value % 0x200, 0x200);
    New(9, BitAnd(i.raw.value, 0x1FF))
  }

  /** `extract_k_movlb`: the 3-bit bank literal, bits 2..0. */
  function ExtractKMovlb(i: Instruction): (r: NBitNumber)
    ensures r.width == 3 && r.Valid() && r.value == i.raw.value % 8
  {
    Pow2Values();
    AndLowMask(i.raw.value, 3);
    ModSmall(i.raw.value % 8, 8);
    New(3, BitAnd(i.raw.value, 0x007))
  }

  /** `extract_f_tris`: the 2-bit port select, bits 1..0. */
  function ExtractFTris(i: Instruction): (r: NBitNumber)
    ensures r.width == 2 && r.Valid() && r.value == i.raw.value % 4
  {
    Pow2Values();
    AndLowMask(i.raw.value, 2);
    ModSmall(i.raw.value % 4, 4);
    New(2, BitAnd(i.raw.value, 0x003))
  }

  /** `raw & 0x020` is a multiple of 32, hence even. */
  lemma BandIsEven(v: U16)
    ensures BitAnd(v, 0x020) % 2 == 0
  {
    Pow2Values();
    AndBandMask(v, 5, 1);
    ModProduct(v, 32, 2);
    var c := (v / 32) % 2;
    assert BitAnd(v, 0x020) == 32 * c;
    DivModUnique(32 * c, 2, 16 * c, 0);
  }

  /** `(raw & 0x0E0) >> 5` is bits 7..5 of `raw`. */
  lemma BitIndexField(v: U16)
    ensures Shr16(BitAnd(v, 0x0E0), 5) == (v / 32) % 8
  {
    Pow2Values();
    AndBandMask(v, 5, 3);
    ModProduct(v, 32, 8);
    var c := (v / 32) % 8;
    assert BitAnd(v, 0x0E0) == 32 * c;
    DivModUnique(32 * c, 32, c, 0);
  }

  // ---------------------------------------------------------------------------
  // Properties of the decoder as written

  /** The aligned patterns, worked out by hand from the table: an independent
      reference for what `align_opcode` produces for each entry. */
  const AlignedWords: seq<nat> := [
    0x1C0, 0x140, 0x060, 0x040, 0x240, 0x0C0, 0x2C0, 0x280, 0x3C0, 0x100, 0x200,
    0x040, 0x000, 0x340, 0x300, 0x080, 0x380, 0x180,
    0x400, 0x500, 0x480, 0x580,
    0xE00, 0x900, 0x018, 0xA00, 0xD00, 0xC00, 0x002, 0x002, 0x01C, 0x001, 0xF00
  ]

  /** The 31 distinct words that decode to an instruction. */
  const DefinedWords: set<nat> := {
    0x000, 0x001, 0x002, 0x018, 0x01C, 0x040, 0x060, 0x080, 0x0C0,
    0x100, 0x140, 0x180, 0x1C0, 0x200, 0x240, 0x280, 0x2C0,
    0x300, 0x340, 0x380, 0x3C0, 0x400, 0x480, 0x500, 0x580,
    0x900, 0xA00, 0xC00, 0xD00, 0xE00, 0xF00
  }

  /** The byte-oriented entries. */
  lemma AlignedTableBytes()
    ensures forall i :: 0 <= i < 9 ==> AlignedAt(i) == AlignedWords[i]
  {
    Pow2Values();
    assert AlignedAt(0) == 0x1C0;
    assert AlignedAt(1) == 0x140;
    assert AlignedAt(2) == 0x060;
    assert AlignedAt(3) == 0x040;
    assert AlignedAt(4) == 0x240;
    assert AlignedAt(5) == 0x0C0;
    assert AlignedAt(6) == 0x2C0;
    assert AlignedAt(7) == 0x280;
    assert AlignedAt(8) == 0x3C0;
  }

  /** The rest of the byte-oriented entries. */
  lemma AlignedTableBytesRest()
    ensures forall i :: 9 <= i < 18 ==> AlignedAt(i) == AlignedWords[i]
  {
    Pow2Values();
    assert AlignedAt(9) == 0x100;
    assert AlignedAt(10) == 0x200;
    assert AlignedAt(11) == 0x040;
    assert AlignedAt(12) == 0x000;
    assert AlignedAt(13) == 0x340;
    assert AlignedAt(14) == 0x300;
    assert AlignedAt(15) == 0x080;
    assert AlignedAt(16) == 0x380;
    assert AlignedAt(17) == 0x180;
  }

  /** The bit-oriented entries. */
  lemma AlignedTableBits()
    ensures forall i :: 18 <= i < 22 ==> AlignedAt(i) == AlignedWords[i]
  {
    Pow2Values();
    assert AlignedAt(18) == 0x400;
    assert AlignedAt(19) == 0x500;
    assert AlignedAt(20) == 0x480;
    assert AlignedAt(21) == 0x580;
  }

  /** The literal and control entries. */
  lemma AlignedTableLiterals()
    ensures forall i :: 22 <= i < 33 ==> AlignedAt(i) == AlignedWords[i]
  {
    Pow2Values();
    assert AlignedAt(22) == 0xE00;
    assert AlignedAt(23) == 0x900;
    assert AlignedAt(24) == 0x018;
    assert AlignedAt(25) == 0xA00;
    assert AlignedAt(26) == 0xD00;
    assert AlignedAt(27) == 0xC00;
    assert AlignedAt(28) == 0x002;
    assert AlignedAt(29) == 0x002;
    assert AlignedAt(30) == 0x01C;
    assert AlignedAt(31) == 0x001;
    assert AlignedAt(32) == 0xF00;
  }

  /** `align_opcode` produces, entry by entry, the reference patterns. */
  lemma AlignedTable()
    ensures |AlignedWords| == |Opcodes|
    ensures forall i :: 0 <= i < |Opcodes| ==> AlignedAt(i) == AlignedWords[i]
  {
    AlignedTableBytes();
    AlignedTableBytesRest();
    AlignedTableBits();
    AlignedTableLiterals();
  }

  /** The aligned patterns are exactly the defined words. */
  lemma AlignedWordsAreDefinedWords()
    ensures forall i :: 0 <= i < |AlignedWords| ==> AlignedWords[i] in DefinedWords
    ensures forall w :: w in DefinedWords ==> w in AlignedWords
  {
  }

  /** Decoding yields `UND` exactly for the words outside the 31 patterns. */
  lemma DecodeUndefinedIff(raw: U12)
    ensures Decode(raw) == UND <==> raw.value % 0x1000 !in DefinedWords
  {
    AlignedTable();
    AlignedWordsAreDefinedWords();
    var t := raw.value % 0x1000;
    if t in DefinedWords {
      assert t in AlignedWords;
      var i :| 0 <= i < |AlignedWords| && AlignedWords[i] == t;
      assert AlignedAt(i) == t;
    }
  }

  // ---------------------------------------------------------------------------
  // The decoder as a lookup of whole words

  /** The decoder written out by hand, word by word: each of the 31 defined
      words with the mnemonic of its first table entry, and `UND` for every
      other word.  `0x040` is `CLRW` and `0x002` is `OPTION`, because those
      entries come first. */
  function ReferenceDecode(w: nat): (m: Mnemonic) {
    match w
    case 0x1C0 => ADDWF
    case 0x140 => ANDWF
    case 0x060 => CLRF
    case 0x040 => CLRW
    case 0x240 => COMF
    case 0x0C0 => DECF
    case 0x2C0 => DECFSZ
    case 0x280 => INCF
    case 0x3C0 => INCFSZ
    case 0x100 => IORWF
    case 0x200 => MOVF
    case 0x000 => NOP
    case 0x340 => RLF
    case 0x300 => RRF
    case 0x080 => SUBWF
    case 0x380 => SWAPF
    case 0x180 => XORWF
    case 0x400 => BCF
    case 0x500 => BSF
    case 0x480 => BTFSC
    case 0x580 => BTFSS
    case 0xE00 => ANDLW
    case 0x900 => CALL
    case 0x018 => CLRWDT
    case 0xA00 => GOTO
    case 0xD00 => IORLW
    case 0xC00 => MOVLW
    case 0x002 => OPTION
    case 0x01C => SLEEP
    case 0x001 => TRIS
    case 0xF00 => XORLW
    case _ => UND
  }

  /** The one word each mnemonic is decoded from (0 for those never decoded). */
  function ReferenceWord(m: Mnemonic): (w: nat) {
    match m
    case ADDWF => 0x1C0
    case ANDWF => 0x140
    case CLRF => 0x060
    case CLRW => 0x040
    case COMF => 0x240
    case DECF => 0x0C0
    case DECFSZ => 0x2C0
    case INCF => 0x280
    case INCFSZ => 0x3C0
    case IORWF => 0x100
    case MOVF => 0x200
    case NOP => 0x000
    case RLF => 0x340
    case RRF => 0x300
    case SUBWF => 0x080
    case SWAPF => 0x380
    case XORWF => 0x180
    case BCF => 0x400
    case BSF => 0x500
    case BTFSC => 0x480
    case BTFSS => 0x580
    case ANDLW => 0xE00
    case CALL => 0x900
    case CLRWDT => 0x018
    case GOTO => 0xA00
    case IORLW => 0xD00
    case MOVLW => 0xC00
    case OPTION => 0x002
    case SLEEP => 0x01C
    case TRIS => 0x001
    case XORLW => 0xF00
    case _ => 0
  }

  /** The reference yields `UND` exactly outside the defined words, and
      every other result names the word it came from. */
  lemma ReferenceUndefinedIff(w: nat)
    ensures ReferenceDecode(w) == UND <==> w !in DefinedWords
    ensures ReferenceDecode(w) != UND ==> ReferenceWord(ReferenceDecode(w)) == w
  {
  }

  lemma ReferenceAgreesBytesA()
    ensures forall k :: 0 <= k < 6 ==>
      ReferenceDecode(AlignedWords[k]) == Opcodes[k].mnemonic
  {
    assert ReferenceDecode(AlignedWords[0]) == Opcodes[0].mnemonic;
    assert ReferenceDecode(AlignedWords[1]) == Opcodes[1].mnemonic;
    assert ReferenceDecode(AlignedWords[2]) == Opcodes[2].mnemonic;
    assert ReferenceDecode(AlignedWords[3]) == Opcodes[3].mnemonic;
    assert ReferenceDecode(AlignedWords[4]) == Opcodes[4].mnemonic;
    assert ReferenceDecode(AlignedWords[5]) == Opcodes[5].mnemonic;
  }

  lemma ReferenceAgreesBytesB()
    ensures forall k :: 6 <= k < 12 && k != 11 ==>
      ReferenceDecode(AlignedWords[k]) == Opcodes[k].mnemonic
  {
    assert ReferenceDecode(AlignedWords[6]) == Opcodes[6].mnemonic;
    assert ReferenceDecode(AlignedWords[7]) == Opcodes[7].mnemonic;
    assert ReferenceDecode(AlignedWords[8]) == Opcodes[8].mnemonic;
    assert ReferenceDecode(AlignedWords[9]) == Opcodes[9].mnemonic;
    assert ReferenceDecode(AlignedWords[10]) == Opcodes[10].mnemonic;
  }

  lemma ReferenceAgreesBytesC()
    ensures forall k :: 12 <= k < 18 ==>
      ReferenceDecode(AlignedWords[k]) == Opcodes[k].mnemonic
  {
    assert ReferenceDecode(AlignedWords[12]) == Opcodes[12].mnemonic;
    assert ReferenceDecode(AlignedWords[13]) == Opcodes[13].mnemonic;
    assert ReferenceDecode(AlignedWords[14]) == Opcodes[14].mnemonic;
    assert ReferenceDecode(AlignedWords[15]) == Opcodes[15].mnemonic;
    assert ReferenceDecode(AlignedWords[16]) == Opcodes[16].mnemonic;
    assert ReferenceDecode(AlignedWords[17]) == Opcodes[17].mnemonic;
  }

  lemma ReferenceAgreesBits()
    ensures forall k :: 18 <= k < 22 ==>
      ReferenceDecode(AlignedWords[k]) == Opcodes[k].mnemonic
  {
    assert ReferenceDecode(AlignedWords[18]) == Opcodes[18].mnemonic;
    assert ReferenceDecode(AlignedWords[19]) == Opcodes[19].mnemonic;
    assert ReferenceDecode(AlignedWords[20]) == Opcodes[20].mnemonic;
    assert ReferenceDecode(AlignedWords[21]) == Opcodes[21].mnemonic;
  }

  lemma ReferenceAgreesLiteralsA()
    ensures forall k :: 22 <= k < 28 ==>
      ReferenceDecode(AlignedWords[k]) == Opcodes[k].mnemonic
  {
    assert ReferenceDecode(AlignedWords[22]) == Opcodes[22].mnemonic;
    assert ReferenceDecode(AlignedWords[23]) == Opcodes[23].mnemonic;
    assert ReferenceDecode(AlignedWords[24]) == Opcodes[24].mnemonic;
    assert ReferenceDecode(AlignedWords[25]) == Opcodes[25].mnemonic;
    assert ReferenceDecode(AlignedWords[26]) == Opcodes[26].mnemonic;
    assert ReferenceDecode(AlignedWords[27]) == Opcodes[27].mnemonic;
  }

  lemma ReferenceAgreesLiteralsB()
    ensures forall k :: 28 <= k < 33 && k != 29 ==>
      ReferenceDecode(AlignedWords[k]) == Opcodes[k].mnemonic
  {
    assert ReferenceDecode(AlignedWords[28]) == Opcodes[28].mnemonic;
    assert ReferenceDecode(AlignedWords[30]) == Opcodes[30].mnemonic;
    assert ReferenceDecode(AlignedWords[31]) == Opcodes[31].mnemonic;
    assert ReferenceDecode(AlignedWords[32]) == Opcodes[32].mnemonic;
  }

  /** The reference gives each table entry its own mnemonic, except the two
      entries whose pattern an earlier entry already has. */
  lemma ReferenceAgreesWithTable()
    ensures forall k :: 0 <= k < |Opcodes| && k != 11 && k != 29 ==>
      ReferenceDecode(AlignedWords[k]) == Opcodes[k].mnemonic
  {
    ReferenceAgreesBytesA();
    ReferenceAgreesBytesB();
    ReferenceAgreesBytesC();
    ReferenceAgreesBits();
    ReferenceAgreesLiteralsA();
    ReferenceAgreesLiteralsB();
  }

  /** Entries 11 and 29 have the aligned patterns of the earlier entries 3
      and 28. */
  lemma ShadowingEntries()
    ensures AlignedAt(3) == AlignedAt(11) == 0x040
    ensures AlignedAt(28) == AlignedAt(29) == 0x002
  {
    Pow2Values();
    assert AlignedAt(3) == 0x040;
    assert AlignedAt(11) == 0x040;
  }

  /** `decode_mnemonic` is the word-by-word reference on the low 12 bits of
      the raw word. */
  lemma DecodeMatchesReference(raw: U12)
    ensures Decode(raw) == ReferenceDecode(raw.value % 0x1000)
  {
    var t := raw.value % 0x1000;
    AlignedTable();
    AlignedWordsAreDefinedWords();
    DecodeUndefinedIff(raw);
    ReferenceUndefinedIff(t);
    var found := MatchFrom(t, 0);
    if found.Some? {
      var k := found.value;
      assert FirstMatchFrom(t, 0, k);
      assert k != 11 && k != 29 by {
        ShadowingEntries();
      }
      ReferenceAgreesWithTable();
    }
  }

  /** The reference on the words of the examples below. */
  lemma ReferenceExamples()
    ensures ReferenceDecode(0x000) == NOP && ReferenceDecode(0xC00) == MOVLW
    ensures ReferenceDecode(0xA00) == GOTO && ReferenceDecode(0x040) == CLRW
    ensures ReferenceDecode(0x002) == OPTION
    ensures ReferenceDecode(0xC55) == UND && ReferenceDecode(0xA1A) == UND
    ensures ReferenceDecode(0x1C4) == UND && ReferenceDecode(0x543) == UND
    ensures ReferenceDecode(0x060) == CLRF
  {
  }

  /** Worked examples: the defined words decode as the table says, `0x060`
      (`CLRF 0`) decodes to `CLRF`, and the words the datasheet gives for
      instructions with operands (`MOVLW 0x55`, `GOTO 0x1A`, `ADDWF 4,0`,
      `BSF 3,2`) do not decode.  The facts are stated about any raw word of
      the given value rather than about literal words, which keeps the
      decoder's table from being unfolded on each literal. */
  lemma DecodeExamples(raw: U12)
    ensures raw.value == 0x000 ==> Decode(raw) == NOP
    ensures raw.value == 0xC00 ==> Decode(raw) == MOVLW
    ensures raw.value == 0xA00 ==> Decode(raw) == GOTO
    ensures raw.value == 0x040 ==> Decode(raw) == CLRW
    ensures raw.value == 0x002 ==> Decode(raw) == OPTION
    ensures raw.value == 0xC55 ==> Decode(raw) == UND
    ensures raw.value == 0xA1A ==> Decode(raw) == UND
    ensures raw.value == 0x1C4 ==> Decode(raw) == UND
    ensures raw.value == 0x543 ==> Decode(raw) == UND
    ensures raw.value == 0x060 ==> Decode(raw) == CLRF
  {
    DecodeMatchesReference(raw);
    ReferenceExamples();
    if raw.value < 0x1000 {
      ModSmall(raw.value, 0x1000);
    }
  }

  /** The reference on the operand-carrying words below. */
  lemma ReferenceMisdecodes()
    ensures ReferenceDecode(0x480) == BTFSC && ReferenceDecode(0x580) == BTFSS
    ensures ReferenceDecode(0x020) == UND
  {
  }

  /** Datasheet words that the decoder gets wrong.  `0x480` is `BCF 0,4`
      and `0x580` is `BSF 0,4`, but they equal the patterns of `BTFSC` and
      `BTFSS` and decode as those.  `0x020` is `MOVWF 0`, but the table's
      six-bit `MOVWF` pattern aligns to `0x040`, so it decodes to `UND`.
      Stated about raw words of the given value, as in `DecodeExamples`. */
  lemma OperandWordsMisdecode(raw: U12)
    ensures raw.value == 0x480 ==> Decode(raw) == BTFSC
    ensures raw.value == 0x580 ==> Decode(raw) == BTFSS
    ensures raw.value == 0x020 ==> Decode(raw) == UND
  {
    DecodeMatchesReference(raw);
    ReferenceMisdecodes();
    if raw.value < 0x1000 {
      ModSmall(raw.value, 0x1000);
    }
  }

  /** The reference never yields the mnemonics of the shadowed entries. */
  lemma ReferenceNeverShadowed(w: nat)
    ensures ReferenceDecode(w) != MOVWF && ReferenceDecode(w) != RETLW
  {
  }

  /** The later of two equal patterns is shadowed: `MOVWF` and `RETLW` are
      never decoded. */
  lemma ShadowedNeverDecoded(raw: U12)
    ensures Decode(raw) != MOVWF && Decode(raw) != RETLW
  {
    DecodeMatchesReference(raw);
    ReferenceNeverShadowed(raw.value % 0x1000);
  }

  /** The operand bits of an aligned pattern are zero, so a word that
      matches an entry has zero operand bits. */
  lemma MatchHasZeroOperand(raw: U12, k: nat)
    requires FirstMatchFrom(raw.value % 0x1000, 0, k)
    ensures (raw.value % 0x1000) % Pow2(12 - Opcodes[k].pattern.width) == 0
  {
    var aligned := AlignPattern(k);
    assert aligned.value == raw.value % 0x1000;
  }

  /** Since operand bits are compared too, each mnemonic is decoded from a
      single word: two words with the same defined mnemonic are equal in
      their low 12 bits. */
  lemma OneWordPerMnemonic(a: U12, b: U12)
    ensures Decode(a) == Decode(b) != UND ==> a.value % 0x1000 == b.value % 0x1000
  {
    DecodeMatchesReference(a);
    DecodeMatchesReference(b);
    ReferenceUndefinedIff(a.value % 0x1000);
    ReferenceUndefinedIff(b.value % 0x1000);
  }

  /** `from_mnemonic` builds raw word 0, which decodes to `NOP`, not to the
      mnemonic it was given. */
  lemma FromMnemonicRawIsNop(m: Mnemonic)
    ensures Decode(FromMnemonic(m).raw) == NOP
  {
    DecodeExamples(FromMnemonic(m).raw);
  }

  /** The extractors slice the same word consistently: the literal is the
      bit index above the file address, the jump target extends the literal,
      and the port select is the low part of the bank literal. */
  lemma ExtractorsAgree(i: Instruction)
    ensures ExtractK(i) == ExtractB(i).value * 32 + ExtractF(i).value
    ensures ExtractKGoto(i).value % 0x100 == ExtractK(i)
    ensures ExtractFTris(i).value == ExtractKMovlb(i).value % 4
  {
    var v := i.raw.value;
    ModProduct(v, 32, 8);
    ModMod(v, 0x100, 2);
    ModMod(v, 4, 2);
  }
}
