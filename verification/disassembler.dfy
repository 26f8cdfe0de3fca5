/**
 * The disassembler (src/disassembler/disassembler.go): the program is
 * cut into two-byte opcodes, and each is named with its own copy of the
 * mnemonic table of `Common.ParseInstructionFromOpcode`.
 */
module Disassembler {
  import opened Bytes
  import opened Common

  const InstructionBytes: int := 2
  const PanicMessage: string := "Something is wrong with the CHIP8 program."

  /** The result of `parseHexInstructions`: the listing, or the panic on an odd byte count. */
  datatype Disassembly = Listing(instructions: seq<Instruction>) | Panic(message: string)

  /**
   * `parseHexInstruction`: decode the two bytes at program offset `idx`
   * and fill in mnemonic and operands with the disassembler's own switch.
   */
  function DisassembleOne(inst: seq<Byte>, idx: int): Instruction
    requires |inst| >= 2
  {
    var word := BigEndian(inst[0], inst[1]);
    Name(ParseOpcode(word), Instruction(word, (StartAddr + Uint16(idx)) % 0x10000, "", "", ""))
  }

  /** The disassembler's switch on the upper nibble of the decoded opcode. */
  function Name(opcode: Opcode, instruction: Instruction): Instruction {
    match opcode.nibbleUpper
    case 0x0 =>
      if opcode.lowerByte == 0xE0 then instruction.(name := "CLS")
      else if opcode.lowerByte == 0xEE then instruction.(name := "RET")
      else instruction.(name := "UNK 0")
    case 0x1 =>
      instruction.(name := "JP", leftOp := Hex(opcode.addr))
    case 0x6 =>
      instruction.(name := "LD", leftOp := Reg(opcode.nibbleX), rightOp := Hex(opcode.lowerByte))
    case 0x7 =>
      instruction.(name := "ADD", leftOp := Reg(opcode.nibbleX), rightOp := Hex(opcode.lowerByte))
    case 0xA =>
      instruction.(name := "LD", leftOp := "I", rightOp := Hex(opcode.addr))
    case 0xD =>
      instruction.(name := "DRW", leftOp := Reg(opcode.nibbleX),
                   rightOp := Reg(opcode.nibbleY) + "," + Dec(opcode.nibbleLower))
    case _ =>
      instruction.(name := "UNK")
  }

  /** The first `n` entries of the listing, built as the loop appends them. */
  function Entries(arr: seq<Byte>, n: nat): (entries: seq<Instruction>)
    requires 2 * n <= |arr|
    ensures |entries| == n
  {
    if n == 0 then []
    else Entries(arr, n - 1) + [DisassembleOne(arr[2 * (n - 1)..2 * n], 2 * (n - 1))]
  }

  /** The listing `parseHexInstructions` builds, or its panic. */
  function Disassemble(arr: seq<Byte>): Disassembly {
    if |arr| % 2 != 0 then Panic(PanicMessage)
    else Listing(Entries(arr, |arr| / 2))
  }

  /**
   * `parseHexInstructions`: panic on an odd number of bytes, otherwise
   * disassemble two bytes at a time and append.
   */
  method ParseHexInstructions(arr: seq<Byte>) returns (result: Disassembly)
    ensures result == Disassemble(arr)
  {
    var instructions: seq<Instruction> := [];
    var idx := 0;
    var end := |arr|;
    if end % 2 != 0 {
      return Panic(PanicMessage);
    }
    ghost var half := end / 2;
    assert end == 2 * half;
    while idx < end
      invariant idx == 2 * |instructions| && |instructions| <= half
      invariant instructions == Entries(arr, |instructions|)
    {
      assert |instructions| < half;
      var opcode := [arr[idx], arr[idx + 1]];
      var inst := DisassembleOne(opcode, idx);
      EntriesGrow(arr, |instructions|);
      instructions := instructions + [inst];
      idx := idx + InstructionBytes;
    }
    assert |instructions| == half;
    return Listing(instructions);
  }

  // ---------------------------------------------------------------------
  // Properties of the disassembler

  /** Two more bytes add one entry to the listing, at its end. */
  lemma EntriesGrow(arr: seq<Byte>, n: nat)
    requires 2 * n + 2 <= |arr|
    ensures Entries(arr, n + 1) == Entries(arr, n) + [DisassembleOne([arr[2 * n], arr[2 * n + 1]], 2 * n)]
  {
    assert arr[2 * n..2 * n + 2] == [arr[2 * n], arr[2 * n + 1]];
  }

  /** There are `n` entries, and entry `k` is the opcode at byte `2k`. */
  lemma {:induction false} EntriesAt(arr: seq<Byte>, n: nat)
    requires 2 * n <= |arr|
    ensures forall k :: 0 <= k < n ==> Entries(arr, n)[k] == DisassembleOne(arr[2 * k..2 * k + 2], 2 * k)
  {
    if n > 0 {
      EntriesAt(arr, n - 1);
      var prefix := Entries(arr, n - 1);
      assert Entries(arr, n) == prefix + [DisassembleOne(arr[2 * (n - 1)..2 * n], 2 * (n - 1))];
      forall k | 0 <= k < n - 1
        ensures Entries(arr, n)[k] == prefix[k]
      {
      }
    }
  }

  /** The disassembler's switch names every opcode exactly as the interpreter's shared decoder does. */
  lemma SameAsCommon(inst: seq<Byte>, idx: int)
    requires |inst| >= 2
    ensures DisassembleOne(inst, idx) == ParseHexInstruction(inst, idx)
  {
  }

  /**
   * An odd byte count is the panic; otherwise there are half as many
   * entries as bytes, entry `k` holds the big-endian word at byte `2k` and
   * the address `0x200 + 2k` (16-bit), and the mnemonic follows the table
   * of `Common.MnemonicTable`.
   */
  lemma ListingLayout(arr: seq<Byte>)
    ensures Disassemble(arr).Panic? <==> |arr| % 2 != 0
    ensures Disassemble(arr).Listing? ==>
      var list := Disassemble(arr).instructions;
      && |list| == |arr| / 2
      && forall k :: 0 <= k < |list| ==>
           && list[k].opcode == arr[2 * k] as int * 0x100 + arr[2 * k + 1] as int
           && list[k].address == (StartAddr + 2 * k) % 0x10000
           && list[k] == ParseHexInstruction(arr[2 * k..2 * k + 2], 2 * k)
  {
    if |arr| % 2 == 0 {
      EntriesAt(arr, |arr| / 2);
      var list := Disassemble(arr).instructions;
      forall k | 0 <= k < |list|
        ensures list[k] == ParseHexInstruction(arr[2 * k..2 * k + 2], 2 * k)
      {
        SameAsCommon(arr[2 * k..2 * k + 2], 2 * k);
      }
    }
  }

  /**
   * Consecutive entries lie two bytes apart, as long as the addresses do
   * not wrap past 0xFFFF.
   */
  lemma ConsecutiveAddresses(arr: seq<Byte>, k: nat)
    requires |arr| % 2 == 0 && k + 1 < |arr| / 2
    requires StartAddr + 2 * (k + 1) < 0x10000
    ensures Disassemble(arr).instructions[k + 1].address == Disassemble(arr).instructions[k].address + 2
  {
    ListingLayout(arr);
    var list := Disassemble(arr).instructions;
    assert list[k].address == (StartAddr + 2 * k) % 0x10000;
    assert list[k + 1].address == (StartAddr + 2 * (k + 1)) % 0x10000;
    DivModUnique(StartAddr + 2 * k, 0x10000, 0, StartAddr + 2 * k);
    DivModUnique(StartAddr + 2 * (k + 1), 0x10000, 0, StartAddr + 2 * (k + 1));
  }

  /**
   * Disassembly never fails on an even byte count: every entry has a
   * mnemonic, `UNK` for upper nibbles the table does not know and `UNK 0`
   * for unknown 0-opcodes.
   */
  lemma NeverFails(inst: seq<Byte>, idx: int)
    requires |inst| >= 2
    ensures var r := DisassembleOne(inst, idx);
      var o := ParseOpcode(BigEndian(inst[0], inst[1]));
      && r.name != ""
      && (r.name == "UNK" <==> o.nibbleUpper !in {0x0, 0x1, 0x6, 0x7, 0xA, 0xD})
      && (r.name == "UNK 0" <==> o.nibbleUpper == 0x0 && o.lowerByte != 0xE0 && o.lowerByte != 0xEE)
  {
    var o := ParseOpcode(BigEndian(inst[0], inst[1]));
    SameAsCommon(inst, idx);
    MnemonicTable(o, Instruction(BigEndian(inst[0], inst[1]), (StartAddr + Uint16(idx)) % 0x10000, "", "", ""));
  }
}
