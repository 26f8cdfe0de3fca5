/**
 * The opcode decoder shared by the interpreter and the disassembler
 * (src/common/common.go): splitting a 16-bit CHIP-8 word into its fields,
 * and the textual disassembly of one instruction.
 */
module Common {
  import opened Bytes
  import opened Numerals

  const ProgramStoreOffsetBytes: int := 512
  const SpriteStartOffsetBytes: int := 0
  const StartAddr: Word := 0x200

  /** A decoded opcode: the raw word and the fields the handlers read. */
  datatype Opcode = Opcode(
    opcode: Word,
    nibbleLower: Byte,
    nibbleY: Byte,
    nibbleX: Byte,
    nibbleUpper: Byte,
    lowerByte: Byte,
    addr: Word)

  /** One disassembled instruction, as the debugger and the disassembler print it. */
  datatype Instruction = Instruction(
    opcode: Word,
    address: Word,
    name: string,
    leftOp: string,
    rightOp: string)

  /**
   * Nibble `idx` of the word, counted from the least significant end:
   * the word divided by `2^(idx * 4)`, modulo 16. The shift distance
   * `idx * 4` is computed in a byte, as in Go.
   */
  function ExtractNibble(opcode: Word, idx: Byte): (r: Byte)
    ensures r < 16
  {
    opcode / Pow2(idx * 4 % 0x100) % 16
  }

  /** The low byte of the word. */
  function ExtractLowerByte(opcode: Word): (r: Byte)
  {
    opcode % 0x100
  }

  /** The low twelve bits of the word. */
  function ExtractAddress(opcode: Word): (r: Word)
    ensures r < 0x1000
  {
    opcode % 0x1000
  }

  /**
   * The three extractions are Go's `opcode >> (idx * 4) & 0xF`,
   * `opcode & 0xFF` and `opcode & 0xFFF`, computed bit by bit.
   */
  lemma GoMasks(opcode: Word, idx: Byte)
    ensures ExtractNibble(opcode, idx) == Bitwise(AndOp, ShiftRight(opcode, idx * 4 % 0x100), 0xF, 16)
    ensures ExtractLowerByte(opcode) == Bitwise(AndOp, opcode, 0xFF, 16)
    ensures ExtractAddress(opcode) == Bitwise(AndOp, opcode, 0xFFF, 16)
  {
    NibbleMask(opcode, idx * 4 % 0x100);
    AndLowMask(opcode, 8, 16);
    assert Pow2(8) == 0x100;
    AndLowMask(opcode, 12, 16);
    assert Pow2(12) == 0x1000 by { Pow2Values(); }
  }

  /** `a >> shift & 0xF` is `a / 2^shift` modulo 16. */
  lemma NibbleMask(a: nat, shift: nat)
    ensures Bitwise(AndOp, ShiftRight(a, shift), 0xF, 16) == a / Pow2(shift) % 16
  {
    ShiftRightIsDiv(a, shift);
    AndLowMask(ShiftRight(a, shift), 4, 16);
    assert Pow2(4) == 16;
  }

  /**
   * Decoding never fails: every 16-bit word has a decoded form. Its fields
   * recombine to the word: upper, X, Y and lower nibble are the word's
   * hexadecimal digits, the low byte is Y and lower, the address is X and
   * the low byte.
   */
  function ParseOpcode(opcode: Word): (o: Opcode)
    ensures o.opcode == opcode
    ensures o.nibbleLower < 16 && o.nibbleY < 16 && o.nibbleX < 16 && o.nibbleUpper < 16
    ensures opcode == o.nibbleUpper * 0x1000 + o.nibbleX * 0x100
                      + o.nibbleY * 0x10 + o.nibbleLower
    ensures o.lowerByte == o.nibbleY * 0x10 + o.nibbleLower
    ensures o.addr == o.nibbleX * 0x100 + o.lowerByte
    ensures o.addr < 0x1000
  {
    NibbleShifts(opcode);
    HexDigits(opcode);
    Opcode(
      opcode,
      ExtractNibble(opcode, 0),
      ExtractNibble(opcode, 1),
      ExtractNibble(opcode, 2),
      ExtractNibble(opcode, 3),
      ExtractLowerByte(opcode),
      ExtractAddress(opcode))
  }

  /** Nibbles 0 to 3 are the word's hexadecimal digits, least significant first. */
  lemma NibbleShifts(w: Word)
    ensures ExtractNibble(w, 0) == w % 16 && ExtractNibble(w, 1) == w / 0x10 % 16
    ensures ExtractNibble(w, 2) == w / 0x100 % 16 && ExtractNibble(w, 3) == w / 0x1000 % 16
  {
    Pow2Values();
    NibbleShift(w, 0, 1);
    NibbleShift(w, 1, 0x10);
    NibbleShift(w, 2, 0x100);
    NibbleShift(w, 3, 0x1000);
  }

  lemma NibbleShift(w: Word, idx: Byte, p: nat)
    requires idx < 4 && p == Pow2(idx * 4)
    ensures ExtractNibble(w, idx) == w / p % 16
  {
    assert idx * 4 % 0x100 == idx * 4;
  }

  lemma Pow2Values()
    ensures Pow2(0) == 1 && Pow2(4) == 0x10 && Pow2(8) == 0x100 && Pow2(12) == 0x1000
  {
    assert Pow2(2) == 4;
    assert Pow2(4) == 16;
    assert Pow2(6) == 64;
    assert Pow2(8) == 256;
    assert Pow2(10) == 1024;
  }

  lemma HexDigits(w: Word)
    ensures w == (w / 0x1000 % 16) * 0x1000 + (w / 0x100 % 16) * 0x100 + (w / 0x10 % 16) * 0x10 + w % 16
    ensures w % 0x100 == (w / 0x10 % 16) * 0x10 + w % 16
    ensures w % 0x1000 == (w / 0x100 % 16) * 0x100 + w % 0x100
  {
    var a := w / 16;
    var b := a / 16;
    var c := b / 16;
    assert w == a * 16 + w % 16;
    assert a == b * 16 + a % 16;
    assert b == c * 16 + b % 16;
    assert w / 0x100 == b;
    assert w / 0x1000 == c;
  }

  /** `binary.BigEndian.Uint16` on a two-byte slice. */
  function BigEndian(hi: Byte, lo: Byte): (w: Word)
    ensures w / 0x100 == hi && w % 0x100 == lo
  {
    hi * 0x100 + lo
  }

  /** Go's conversion `uint16(x)` of an `int`: the value modulo 2^16. */
  function Uint16(x: int): Word
  {
    x % 0x10000
  }

  /** Digits of `%X` and `%d`, as the operand strings use them. */
  function Hex(n: nat): string { Numeral(n, 16, true) }
  function Dec(n: nat): string { Numeral(n, 10, true) }

  /** "V" followed by the register number in decimal. */
  function Reg(x: Byte): string { "V" + Dec(x) }

  /** The error message for an opcode the interpreter does not know: the opcode in hex. */
  function UnknownOpcodeErr(opcode: Word): (msg: string)
    ensures |msg| > 16 && msg[..16] == "unknown opcode: "
    ensures AllDigits(msg[16..], 16) && Value(msg[16..], 16) == opcode
    ensures InCase(msg[16..], true)
  {
    var msg := "unknown opcode: " + Hex(opcode);
    assert msg[16..] == Hex(opcode);
    ValueOfNumeral(opcode, 16, true);
    msg
  }

  /**
   * Fill in the mnemonic and the operands of `instruction` for `opcode`.
   * As in Go, fields a case does not assign keep their previous value.
   */
  function ParseInstructionFromOpcode(opcode: Opcode, instruction: Instruction): (r: Instruction)
    ensures r.opcode == instruction.opcode && r.address == instruction.address
    ensures opcode.nibbleUpper !in {0x1, 0x6, 0x7, 0xA, 0xD} ==>
              r.leftOp == instruction.leftOp && r.rightOp == instruction.rightOp
    ensures opcode.nibbleUpper == 0x1 ==> r.rightOp == instruction.rightOp
  {
    match opcode.nibbleUpper
    case 0x0 =>
      if opcode.lowerByte == 0xE0 then instruction.(name := "CLS")
      else if opcode.lowerByte == 0xEE then instruction.(name := "RET")
      else instruction.(name := "UNK 0")
    case 0x1 =>
      instruction.(name := "JP", leftOp := Hex(opcode.addr))
    case 0x6 =>
      instruction.(name := "LD", leftOp := Reg(opcode.nibbleX), rightOp := Hex(opcode.lowerByte))
    case 0x7 =>
      instruction.(name := "ADD", leftOp := Reg(opcode.nibbleX), rightOp := Hex(opcode.lowerByte))
    case 0xA =>
      instruction.(name := "LD", leftOp := "I", rightOp := Hex(opcode.addr))
    case 0xD =>
      instruction.(name := "DRW", leftOp := Reg(opcode.nibbleX),
                   rightOp := Reg(opcode.nibbleY) + "," + Dec(opcode.nibbleLower))
    case _ =>
      instruction.(name := "UNK")
  }

  /**
   * Disassemble the two bytes `inst[0..2]` found at offset `idx` of the
   * program; the address is `StartAddr + uint16(idx)`, wrapping at 16 bits.
   */
  function ParseHexInstruction(inst: seq<Byte>, idx: int): (r: Instruction)
    requires |inst| >= 2
    ensures r.opcode == inst[0] as int * 0x100 + inst[1] as int
    ensures r.address == (StartAddr + idx) % 0x10000
  {
    var word := BigEndian(inst[0], inst[1]);
    var address := (StartAddr + Uint16(idx)) % 0x10000;
    assert address == (StartAddr + idx) % 0x10000 by { WrapAdd(StartAddr, idx); }
    var r := ParseInstructionFromOpcode(ParseOpcode(word), Instruction(word, address, "", "", ""));
    assert r.opcode == word && r.address == address;
    r
  }

  /** Adding after a 16-bit truncation wraps like adding before it. */
  lemma WrapAdd(a: int, b: int)
    ensures (a + b % 0x10000) % 0x10000 == (a + b) % 0x10000
  {
    var m := 0x10000;
    var q := (a + b % m) / m;
    var r := (a + b % m) % m;
    assert b == (b / m) * m + b % m;
    assert a + b == m * (q + b / m) + r;
    DivModUnique(a + b, m, q + b / m, r);
  }

  /**
   * The mnemonic table: `CLS` and `RET` for the two 0-opcodes the
   * interpreter knows, `UNK 0` for every other 0-opcode, `JP`, `LD`, `ADD`,
   * `LD` and `DRW` for upper nibbles 1, 6, 7, A and D, and `UNK` for all
   * the rest.
   */
  lemma MnemonicTable(o: Opcode, inst: Instruction)
    ensures var r := ParseInstructionFromOpcode(o, inst);
      && (r.name == "CLS" <==> o.nibbleUpper == 0 && o.lowerByte == 0xE0)
      && (r.name == "RET" <==> o.nibbleUpper == 0 && o.lowerByte == 0xEE)
      && (r.name == "UNK 0" <==> o.nibbleUpper == 0 && o.lowerByte != 0xE0 && o.lowerByte != 0xEE)
      && (r.name == "JP" <==> o.nibbleUpper == 0x1)
      && (r.name == "LD" <==> o.nibbleUpper == 0x6 || o.nibbleUpper == 0xA)
      && (r.name == "ADD" <==> o.nibbleUpper == 0x7)
      && (r.name == "DRW" <==> o.nibbleUpper == 0xD)
      && (r.name == "UNK" <==> o.nibbleUpper !in {0x0, 0x1, 0x6, 0x7, 0xA, 0xD})
  {
  }

  /**
   * The operands denote the opcode's fields: reading the hex and decimal
   * numerals back yields the address, the register numbers, the byte and
   * the row count. A disassembled instruction whose upper nibble is not one
   * of 1, 6, 7, A, D carries no operands.
   */
  lemma OperandsDenoteFields(o: Opcode, w: Word, address: Word)
    requires o.nibbleUpper < 16
    ensures var r := ParseInstructionFromOpcode(o, Instruction(w, address, "", "", ""));
      && (o.nibbleUpper !in {0x1, 0x6, 0x7, 0xA, 0xD} ==> r.leftOp == "" && r.rightOp == "")
      && (o.nibbleUpper == 0x1 ==> Value(r.leftOp, 16) == o.addr && r.rightOp == "")
      && (o.nibbleUpper == 0xA ==> r.leftOp == "I" && Value(r.rightOp, 16) == o.addr)
      && (o.nibbleUpper in {0x6, 0x7} ==>
            r.leftOp[0] == 'V' && Value(r.leftOp[1..], 10) == o.nibbleX
            && Value(r.rightOp, 16) == o.lowerByte)
      && (o.nibbleUpper == 0xD ==>
            r.leftOp[0] == 'V' && Value(r.leftOp[1..], 10) == o.nibbleX
            && r.rightOp == Reg(o.nibbleY) + "," + Dec(o.nibbleLower)
            && Value(Reg(o.nibbleY)[1..], 10) == o.nibbleY
            && Value(Dec(o.nibbleLower), 10) == o.nibbleLower)
  {
    RegisterOperand(o.nibbleX);
    RegisterOperand(o.nibbleY);
    ValueOfNumeral(o.addr, 16, true);
    ValueOfNumeral(o.lowerByte, 16, true);
    ValueOfNumeral(o.nibbleLower, 10, true);
  }

  /** A register operand is "V" and the register number in decimal. */
  lemma RegisterOperand(x: Byte)
    ensures Reg(x)[0] == 'V' && AllDigits(Reg(x)[1..], 10) && Value(Reg(x)[1..], 10) == x
  {
    assert Reg(x)[1..] == Dec(x);
    ValueOfNumeral(x, 10, true);
  }

  /** `%04X` / `%04x` of a 16-bit value. */
  function Hex4(v: Word, upper: bool): (s: string)
    ensures |s| == 4 && InCase(s, upper)
  {
    assert Pow(16, 4) == 0x10000;
    NumeralWidth(v, 16, upper, 4);
    PaddedCase(Numeral(v, 16, upper), 4, upper);
    PadZero(Numeral(v, 16, upper), 4)
  }

  /** The four digits of `%04X` read back as the value printed. */
  lemma Hex4Value(v: Word, upper: bool)
    ensures AllDigits(Hex4(v, upper), 16) && Value(Hex4(v, upper), 16) == v
  {
    ValueOfNumeral(v, 16, upper);
    ValueOfPadded(Numeral(v, 16, upper), 16, 4);
  }

  /**
   * The line `Instruction.Print` writes: four upper-case hex digits of the
   * address, ": ", four lower-case hex digits of the opcode, a space and the
   * mnemonic; then two spaces and the left operand if there is one, and a
   * comma and the right operand only if there are both.
   */
  function Line(inst: Instruction): (s: string)
    ensures |s| >= 11 && s[4..6] == ": " && s[10] == ' '
    ensures s[..4] == Hex4(inst.address, true) && s[6..10] == Hex4(inst.opcode, false)
    ensures InCase(s[..4], true) && InCase(s[6..10], false)
    ensures s[11..] == inst.name + (if |inst.leftOp| > 0 then "  " + inst.leftOp else "")
                                 + (if |inst.leftOp| > 0 && |inst.rightOp| > 0 then "," + inst.rightOp else "")
  {
    var a, o := Hex4(inst.address, true), Hex4(inst.opcode, false);
    var prefix := a + ": " + o + " ";
    var withLeft := if |inst.leftOp| > 0 then inst.name + "  " + inst.leftOp else inst.name;
    var tail := if |inst.leftOp| > 0 && |inst.rightOp| > 0 then withLeft + "," + inst.rightOp else withLeft;
    assert |prefix| == 11;
    assert prefix[..4] == a;
    assert prefix[6..10] == o;
    var s := prefix + tail;
    assert s[11..] == tail && s[..4] == a && s[6..10] == o;
    s
  }
}
