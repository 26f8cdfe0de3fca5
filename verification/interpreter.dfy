/**
 * The fetch/execute cycle of src/interpreter/interpreter.go on machine
 * states: the dispatch table, the two-byte fetch, and the layout `Init`
 * leaves in memory. The `VirtualMachine` class in module `Interpreter` is
 * proved to follow these functions.
 */
module Execution {
  import opened Bytes
  import opened Common
  import opened Display
  import opened Instructions

  /**
   * How one step ends. `Delegated` marks the four Fx opcodes whose
   * handlers are not part of this model: the state is returned as it was
   * before the handler, and the name says which handler was due.
   */
  datatype Outcome =
    | Continue
    | Ended
    | UnknownOpcode(message: string)
    | StackOverflow
    | Delegated(handler: string)

  datatype Executed = Executed(m: Machine, outcome: Outcome)

  /** The 16 hexadecimal digit sprites, 5 bytes each, `spriteData`. */
  const FontSprites: seq<Byte> := [
    0xF0, 0x90, 0x90, 0x90, 0xF0,
    0x20, 0x60, 0x20, 0x20, 0x70,
    0xF0, 0x10, 0xF0, 0x80, 0xF0,
    0xF0, 0x10, 0xF0, 0x10, 0xF0,
    0x90, 0x90, 0xF0, 0x10, 0x10,
    0xF0, 0x80, 0xF0, 0x10, 0xF0,
    0xF0, 0x80, 0xF0, 0x90, 0xF0,
    0xF0, 0x10, 0x20, 0x40, 0x40,
    0xF0, 0x90, 0xF0, 0x90, 0xF0,
    0xF0, 0x90, 0xF0, 0x10, 0xF0,
    0xF0, 0x90, 0xF0, 0x90, 0x90,
    0xE0, 0x90, 0xE0, 0x90, 0xE0,
    0xF0, 0x80, 0x80, 0x80, 0xF0,
    0xE0, 0x90, 0x90, 0x90, 0xE0,
    0xF0, 0x80, 0xF0, 0x80, 0xF0,
    0xF0, 0x80, 0xF0, 0x80, 0x80]

  const MemorySize: int := 4096

  /** Register operands of a decoded opcode index the register array. */
  predicate Operands(o: Opcode) {
    o.nibbleX < 16 && o.nibbleY < 16
  }

  /**
   * The handler `o` selects can run without an index out of range in Go:
   * RET reads slot `sp`, CALL writes slot `sp + 1` when `sp` is not 0 (the
   * explicit overflow test only rejects `sp >= 16`), DRW reads the sprite
   * and writes the display cells.
   */
  predicate Safe(m: Machine, o: Opcode)
    requires Wf(m) && Operands(o)
  {
    && (o.nibbleUpper == 0x0 && o.lowerByte == 0xEE ==> m.sp < 16)
    && (o.nibbleUpper == 0x2 ==> m.sp != 15)
    && (o.nibbleUpper == 0xD ==>
          Fits(MemorySize, m.height, m.width, m.i, m.r[o.nibbleX], m.r[o.nibbleY], o.nibbleLower))
  }

  function Unknown(m: Machine, o: Opcode): Executed {
    Executed(m, UnknownOpcode(UnknownOpcodeErr(o.opcode)))
  }

  /** The 8xyN group, selected by the lowest nibble. */
  function ExecuteAlu(m: Machine, o: Opcode): Executed
    requires Wf(m) && Operands(o)
  {
    var x, y := o.nibbleX, o.nibbleY;
    match o.nibbleLower
    case 0x0 => Executed(Ld(m, x, y), Continue)
    case 0x1 => Executed(OrReg(m, x, y), Continue)
    case 0x2 => Executed(AndReg(m, x, y), Continue)
    case 0x3 => Executed(XorReg(m, x, y), Continue)
    case 0x4 => Executed(Add(m, x, y), Continue)
    case 0x5 => Executed(Sub(m, x, y), Continue)
    case 0x6 => Executed(Shr(m, x), Continue)
    case 0x7 => Executed(Subn(m, x, y), Continue)
    case 0xE => Executed(Shl(m, x), Continue)
    case _ => Unknown(m, o)
  }

  /** `execute`: the dispatch on the upper nibble. */
  function Execute(m: Machine, o: Opcode): Executed
    requires Wf(m) && Operands(o) && Safe(m, o)
  {
    var x, y := o.nibbleX, o.nibbleY;
    match o.nibbleUpper
    case 0x0 =>
      if o.lowerByte == 0xE0 then Executed(Cls(m), Continue)
      else if o.lowerByte == 0xEE then Executed(Ret(m), Continue)
      else Unknown(m, o)
    case 0x1 => Executed(Jp(m, o.addr), Continue)
    case 0x2 =>
      if m.sp >= 16 then Executed(m, StackOverflow)
      else Executed(Call(m, o.addr), Continue)
    case 0x3 => Executed(SeVal(m, x, o.lowerByte), Continue)
    case 0x4 => Executed(SneVal(m, x, o.lowerByte), Continue)
    case 0x5 => Executed(Se(m, x, y), Continue)
    case 0x9 => Executed(Sne(m, x, y), Continue)
    case 0x6 => Executed(LdVal(m, x, o.lowerByte), Continue)
    case 0x7 => Executed(AddVal(m, x, o.lowerByte), Continue)
    case 0x8 => ExecuteAlu(m, o)
    case 0xA => Executed(Ldi(m, o.addr), Continue)
    case 0xD => Executed(Drw(m, x, y, o.nibbleLower), Continue)
    case 0xF =>
      if o.lowerByte == 0x1E then Executed(m, Delegated("ADDI"))
      else if o.lowerByte == 0x33 then Executed(m, Delegated("LDBCD"))
      else if o.lowerByte == 0x55 then Executed(m, Delegated("STR"))
      else if o.lowerByte == 0x65 then Executed(m, Delegated("LDR"))
      else Unknown(m, o)
    case _ => Unknown(m, o)
  }

  /** The big-endian word at `pc`. */
  function FetchedWord(m: Machine): Word
    requires |m.memory| == MemorySize && m.pc < MemorySize - 1
  {
    BigEndian(m.memory[m.pc], m.memory[m.pc + 1])
  }

  /**
   * One turn of `Run`'s loop: end when `pc` has left memory, otherwise
   * fetch the opcode at `pc`, move `pc` past it, and execute it.
   */
  function Step(m: Machine): Executed
    requires Wf(m) && m.pc != MemorySize - 1
    requires m.pc < MemorySize ==> Safe(m.(pc := m.pc + 2), ParseOpcode(FetchedWord(m)))
  {
    if m.pc >= MemorySize then Executed(m, Ended)
    else Execute(m.(pc := m.pc + 2), ParseOpcode(FetchedWord(m)))
  }

  /** Memory after `Init`: the font at 0, the program at 512, every other byte as before. */
  function Loaded(memory: seq<Byte>, program: seq<Byte>): seq<Byte>
    requires |memory| == MemorySize && |program| <= MemorySize - ProgramStoreOffsetBytes
  {
    FontSprites + memory[|FontSprites|..ProgramStoreOffsetBytes] + program
      + memory[ProgramStoreOffsetBytes + |program|..]
  }

  /** Storing the program, then the font, gives the layout `Loaded` describes. */
  lemma LoadedInTwoSteps(memory: seq<Byte>, program: seq<Byte>)
    requires |memory| == MemorySize && |program| <= MemorySize - ProgramStoreOffsetBytes
    ensures var stored := memory[..ProgramStoreOffsetBytes] + program + memory[ProgramStoreOffsetBytes + |program|..];
      FontSprites + stored[|FontSprites|..] == Loaded(memory, program)
  {
    var stored := memory[..ProgramStoreOffsetBytes] + program + memory[ProgramStoreOffsetBytes + |program|..];
    assert stored[|FontSprites|..] == memory[|FontSprites|..ProgramStoreOffsetBytes] + program
                                      + memory[ProgramStoreOffsetBytes + |program|..];
  }

  // ---------------------------------------------------------------------
  // Properties of the cycle

  /**
   * `Init`'s memory layout: the 80 font bytes at 0..80, program byte `k`
   * at 512 + k, and every other byte untouched. The two regions are
   * disjoint, so neither copy overwrites the other.
   */
  lemma LoadedLayout(memory: seq<Byte>, program: seq<Byte>)
    requires |memory| == MemorySize && |program| <= MemorySize - ProgramStoreOffsetBytes
    ensures |Loaded(memory, program)| == MemorySize
    ensures |FontSprites| == 80 && |FontSprites| <= ProgramStoreOffsetBytes
    ensures forall k :: 0 <= k < |FontSprites| ==> Loaded(memory, program)[k] == FontSprites[k]
    ensures forall k :: 0 <= k < |program| ==>
              Loaded(memory, program)[ProgramStoreOffsetBytes + k] == program[k]
    ensures forall k :: |FontSprites| <= k < ProgramStoreOffsetBytes ==> Loaded(memory, program)[k] == memory[k]
    ensures forall k :: ProgramStoreOffsetBytes + |program| <= k < MemorySize ==>
              Loaded(memory, program)[k] == memory[k]
  {
  }

  /**
   * `execute` reports an unknown opcode exactly for upper nibbles B, C and
   * E, for 0-opcodes other than 00E0/00EE, for 8-opcodes whose lowest
   * nibble is not 0..7 or E, and for F-opcodes whose low byte is not 1E,
   * 33, 55 or 65; the message names the opcode.
   */
  lemma UnknownOpcodes(m: Machine, o: Opcode)
    requires Wf(m) && Operands(o) && Safe(m, o) && o.nibbleUpper < 16
    ensures Execute(m, o).outcome.UnknownOpcode? <==>
      || o.nibbleUpper in {0xB, 0xC, 0xE}
      || (o.nibbleUpper == 0x0 && o.lowerByte != 0xE0 && o.lowerByte != 0xEE)
      || (o.nibbleUpper == 0x8 && o.nibbleLower !in {0x0, 0x1, 0x2, 0x3, 0x4, 0x5, 0x6, 0x7, 0xE})
      || (o.nibbleUpper == 0xF && o.lowerByte !in {0x1E, 0x33, 0x55, 0x65})
    ensures Execute(m, o).outcome.UnknownOpcode? ==>
      Execute(m, o).outcome.message == UnknownOpcodeErr(o.opcode)
  {
  }

  /**
   * Every outcome other than `Continue` leaves the machine as it was: an
   * unknown opcode and a stack overflow are detected before anything is
   * written. `Ended` is never an outcome of `execute`.
   */
  lemma FailuresChangeNothing(m: Machine, o: Opcode)
    requires Wf(m) && Operands(o) && Safe(m, o)
    ensures Execute(m, o).outcome != Continue ==> Execute(m, o).m == m
    ensures Execute(m, o).outcome != Ended
    ensures Execute(m, o).outcome == StackOverflow <==> o.nibbleUpper == 0x2 && m.sp >= 16
  {
  }

  /** Every instruction keeps the array sizes and a 0/1 display grid of its dimensions. */
  lemma ExecuteKeepsWf(m: Machine, o: Opcode)
    requires Wf(m) && Operands(o) && Safe(m, o)
    ensures Wf(Execute(m, o).m)
  {
    if o.nibbleUpper == 0x0 && o.lowerByte == 0xE0 {
      BlankShape(m.height, m.width);
    } else if o.nibbleUpper == 0xD {
      DrwEffect(m, o.nibbleX, o.nibbleY, o.nibbleLower);
    }
  }

  /**
   * From an empty stack (`sp` 0) no instruction moves `sp`, and only slot
   * 0 is ever written: CALL overwrites slot 0 without pushing.
   */
  lemma EmptyStackStaysEmpty(m: Machine, o: Opcode)
    requires Wf(m) && Operands(o) && Safe(m, o) && m.sp == 0
    ensures Execute(m, o).m.sp == 0
    ensures Execute(m, o).m.stack[1..] == m.stack[1..]
  {
  }

  /**
   * `fetch` ends the run exactly when `pc` is past memory; otherwise the
   * instruction executed is the big-endian word at `pc`, with `pc` already
   * moved past it.
   */
  lemma StepFetches(m: Machine)
    requires Wf(m) && m.pc != MemorySize - 1
    requires m.pc < MemorySize ==> Safe(m.(pc := m.pc + 2), ParseOpcode(FetchedWord(m)))
    ensures Step(m).outcome == Ended <==> m.pc >= MemorySize
    ensures Step(m).outcome == Ended ==> Step(m).m == m
    ensures m.pc < MemorySize ==>
      var o := ParseOpcode(FetchedWord(m));
      && o.opcode == m.memory[m.pc] as int * 0x100 + m.memory[m.pc + 1]
      && Step(m) == Execute(m.(pc := m.pc + 2), o)
  {
    if m.pc < MemorySize {
      FailuresChangeNothing(m.(pc := m.pc + 2), ParseOpcode(FetchedWord(m)));
    }
  }
}

/**
 * The `VirtualMachine` struct: memory, registers and stack as arrays
 * updated in place, `pc`, `i` and `sp`, and the terminal display.
 */
module Interpreter {
  import opened Bytes
  import opened Common
  import opened Display
  import Instructions
  import opened Execution

  datatype Option<T> = None | Some(value: T)

  class VirtualMachine {
    const memory: array<Byte>
    const r: array<Byte>
    const stack: array<Word>
    const display: TerminalDisplay
    var pc: Word
    var i: Word
    var sp: Word

    ghost predicate Valid()
      reads this, display
    {
      memory.Length == MemorySize && r.Length == 16 && stack.Length == 16 && memory != r
      && display.Valid()
    }

    /** The machine state the handlers are specified on. */
    ghost function State(): Instructions.Machine
      reads this, memory, r, stack, display
    {
      Instructions.Machine(memory[..], display.grid, display.height, display.width,
                           pc, i, sp, r[..], stack[..])
    }

    /** A zeroed machine wired to `display`, as Go's zero value of the struct. */
    constructor(display: TerminalDisplay)
      ensures this.display == display
      ensures fresh(memory) && fresh(r) && fresh(stack)
      ensures memory.Length == MemorySize && r.Length == 16 && stack.Length == 16 && memory != r
      ensures memory[..] == seq(MemorySize, _ => 0) && r[..] == seq(16, _ => 0)
      ensures stack[..] == seq(16, _ => 0)
      ensures pc == 0 && i == 0 && sp == 0
    {
      this.display := display;
      memory := new Byte[MemorySize](_ => 0);
      r := new Byte[16](_ => 0);
      stack := new Word[16](_ => 0);
      pc, i, sp := 0, 0, 0;
    }

    /**
     * Copy the program to 512 onwards, the font to 0 onwards, point `pc`
     * at the program and initialise the display. The program must fit in
     * memory above 512, or the Go copy would index past the array.
     */
    method Init(program: seq<Byte>)
      requires memory.Length == MemorySize && r.Length == 16 && stack.Length == 16 && memory != r
      requires |program| <= MemorySize - ProgramStoreOffsetBytes
      modifies this, memory, display
      ensures Valid()
      ensures memory[..] == Loaded(old(memory[..]), program)
      ensures pc == ProgramStoreOffsetBytes
      ensures display.grid == Blank(display.height, display.width)
      ensures i == old(i) && sp == old(sp) && r[..] == old(r[..]) && stack[..] == old(stack[..])
    {
      StoreProgram(program);
      LoadSpritesInMemory();
      pc := ProgramStoreOffsetBytes;
      display.Init();
      LoadedInTwoSteps(old(memory[..]), program);
    }

    /** The copy loop of `Init`: program byte `idx` goes to 512 + idx. */
    method StoreProgram(program: seq<Byte>)
      requires memory.Length == MemorySize && |program| <= MemorySize - ProgramStoreOffsetBytes
      modifies memory
      ensures memory[..] == old(memory[..])[..ProgramStoreOffsetBytes] + program
                            + old(memory[..])[ProgramStoreOffsetBytes + |program|..]
    {
      var idx := 0;
      while idx < |program|
        invariant 0 <= idx <= |program|
        invariant forall k :: 0 <= k < MemorySize ==>
          memory[k] == if ProgramStoreOffsetBytes <= k < ProgramStoreOffsetBytes + idx
                       then program[k - ProgramStoreOffsetBytes] else old(memory[k])
      {
        memory[ProgramStoreOffsetBytes + idx] := program[idx];
        idx := idx + 1;
      }
      assert memory[..] == old(memory[..])[..ProgramStoreOffsetBytes] + program
                           + old(memory[..])[ProgramStoreOffsetBytes + |program|..];
    }

    /** Copy the 80 font bytes to the start of memory. */
    method LoadSpritesInMemory()
      requires memory.Length == MemorySize
      modifies memory
      ensures memory[..] == FontSprites + old(memory[..])[|FontSprites|..]
    {
      var idx := 0;
      while idx < |FontSprites|
        invariant 0 <= idx <= |FontSprites|
        invariant forall k :: 0 <= k < MemorySize ==>
          memory[k] == if k < idx then FontSprites[k] else old(memory[k])
      {
        memory[SpriteStartOffsetBytes + idx] := FontSprites[idx];
        idx := idx + 1;
      }
    }

    /**
     * Read the big-endian opcode at `pc` and move `pc` past it, or report
     * the end of the program once `pc` has left memory. With `pc` at 4095
     * the two-byte slice would run past the array.
     */
    method Fetch() returns (opcode: Option<Opcode>, end: bool)
      requires Valid() && pc != MemorySize - 1
      modifies this
      ensures end <==> old(pc) >= MemorySize
      ensures end ==> opcode == None && State() == old(State())
      ensures !end ==> opcode == Some(ParseOpcode(FetchedWord(old(State()))))
                       && State() == old(State()).(pc := old(pc) + 2)
    {
      if pc >= MemorySize {
        return None, true;
      }
      var word := BigEndian(memory[pc], memory[pc + 1]);
      pc := pc + 2;
      return Some(ParseOpcode(word)), false;
    }

    method SetVF()
      requires Valid()
      modifies r
      ensures State() == Instructions.SetVF(old(State())) && IsVFSet()
    {
      r[Instructions.VF] := 1;
    }

    method ResetVF()
      requires Valid()
      modifies r
      ensures State() == Instructions.ResetVF(old(State())) && !IsVFSet()
    {
      r[Instructions.VF] := 0;
    }

    /** `isVFSet` */
    function IsVFSet(): (set_: bool)
      requires Valid()
      reads this, r, display
    {
      r[Instructions.VF] == 1
    }

    method Cls()
      requires Valid()
      modifies display
      ensures Valid() && State() == Instructions.Cls(old(State()))
    {
      display.Clear();
    }

    method Ret()
      requires Valid() && sp < 16
      modifies this
      ensures State() == Instructions.Ret(old(State()))
    {
      pc := stack[sp];
      if sp != 0 {
        sp := sp - 1;
      }
    }

    /** CALL: `overflow` is the explicit panic on a full stack, before anything changes. */
    method Call(addr: Word) returns (overflow: bool)
      requires Valid() && sp != 15
      modifies this, stack
      ensures overflow <==> old(sp) >= 16
      ensures overflow ==> State() == old(State())
      ensures !overflow ==> State() == Instructions.Call(old(State()), addr)
    {
      if sp >= 16 {
        return true;
      }
      if sp != 0 {
        sp := sp + 1;
      }
      stack[sp] := pc;
      pc := addr;
      return false;
    }

    method Jp(addr: Word)
      modifies this
      ensures State() == Instructions.Jp(old(State()), addr)
    {
      pc := addr;
    }

    method SeVal(x: Byte, kk: Byte)
      requires Valid() && x < 16
      modifies this
      ensures State() == Instructions.SeVal(old(State()), x, kk)
    {
      if r[x] == kk {
        pc := (pc + 2) % 0x10000;
      }
    }

    method SneVal(x: Byte, kk: Byte)
      requires Valid() && x < 16
      modifies this
      ensures State() == Instructions.SneVal(old(State()), x, kk)
    {
      if r[x] != kk {
        pc := (pc + 2) % 0x10000;
      }
    }

    method Se(x: Byte, y: Byte)
      requires Valid() && x < 16 && y < 16
      modifies this
      ensures State() == Instructions.Se(old(State()), x, y)
    {
      if r[x] == r[y] {
        pc := (pc + 2) % 0x10000;
      }
    }

    method Sne(x: Byte, y: Byte)
      requires Valid() && x < 16 && y < 16
      modifies this
      ensures State() == Instructions.Sne(old(State()), x, y)
    {
      if r[x] != r[y] {
        pc := (pc + 2) % 0x10000;
      }
    }

    method LdVal(x: Byte, val: Byte)
      requires Valid() && x < 16
      modifies r
      ensures State() == Instructions.LdVal(old(State()), x, val)
    {
      r[x] := val;
    }

    method Ld(x: Byte, y: Byte)
      requires Valid() && x < 16 && y < 16
      modifies r
      ensures State() == Instructions.Ld(old(State()), x, y)
    {
      r[x] := r[y];
    }

    method OrReg(x: Byte, y: Byte)
      requires Valid() && x < 16 && y < 16
      modifies r
      ensures State() == Instructions.OrReg(old(State()), x, y)
    {
      r[x] := Or(r[x], r[y]);
    }

    method AndReg(x: Byte, y: Byte)
      requires Valid() && x < 16 && y < 16
      modifies r
      ensures State() == Instructions.AndReg(old(State()), x, y)
    {
      r[x] := And(r[x], r[y]);
    }

    method XorReg(x: Byte, y: Byte)
      requires Valid() && x < 16 && y < 16
      modifies r
      ensures State() == Instructions.XorReg(old(State()), x, y)
    {
      r[x] := Xor(r[x], r[y]);
    }

    method Add(x: Byte, y: Byte)
      requires Valid() && x < 16 && y < 16
      modifies r
      ensures State() == Instructions.Add(old(State()), x, y)
    {
      ResetVF();
      r[x] := (r[x] as int + r[y]) % 0x100;
      if Instructions.IsOverflow(r[x], r[y]) {
        SetVF();
      }
    }

    method Sub(x: Byte, y: Byte)
      requires Valid() && x < 16 && y < 16
      modifies r
      ensures State() == Instructions.Sub(old(State()), x, y)
    {
      ResetVF();
      if r[x] > r[y] {
        SetVF();
      }
      r[x] := (r[x] as int - r[y]) % 0x100;
    }

    method Shr(x: Byte)
      requires Valid() && x < 16
      modifies r
      ensures State() == Instructions.Shr(old(State()), x)
    {
      ResetVF();
      if And(r[x], 1) == 1 {
        SetVF();
      }
      r[x] := ShiftRight(r[x], 1);
    }

    method Subn(x: Byte, y: Byte)
      requires Valid() && x < 16 && y < 16
      modifies r
      ensures State() == Instructions.Subn(old(State()), x, y)
    {
      ResetVF();
      if r[y] > r[x] {
        SetVF();
      }
      r[x] := (r[y] as int - r[x]) % 0x100;
    }

    method Shl(x: Byte)
      requires Valid() && x < 16
      modifies r
      ensures State() == Instructions.Shl(old(State()), x)
    {
      ResetVF();
      if And(ShiftRight(r[x], 7), 1) == 1 {
        SetVF();
      }
      r[x] := r[x] as int * 2 % 0x100;
    }

    method AddVal(x: Byte, val: Byte)
      requires Valid() && x < 16
      modifies r
      ensures State() == Instructions.AddVal(old(State()), x, val)
    {
      r[x] := (r[x] as int + val) % 0x100;
    }

    method Ldi(addr: Word)
      modifies this
      ensures State() == Instructions.Ldi(old(State()), addr)
    {
      i := addr;
    }

    /** DRW: blit through the display, then VF is the collision flag. */
    method Drw(x: Byte, y: Byte, n: Byte)
      requires Valid() && x < 16 && y < 16
      requires Fits(MemorySize, display.height, display.width, i, r[x], r[y], n)
      modifies display, r
      ensures Valid() && State() == Instructions.Drw(old(State()), x, y, n)
    {
      var vx := r[x];
      var vy := r[y];
      var collision := display.UpdateState(memory, i, vx, vy, n);
      if collision {
        SetVF();
        return;
      }
      ResetVF();
    }
  
    /** `execute`: dispatch the decoded opcode to its handler. */
    method Execute(o: Opcode) returns (outcome: Outcome)
      requires Valid() && Operands(o) && Safe(State(), o)
      modifies this, r, stack, display
      ensures Valid()
      ensures Executed(State(), outcome) == Execution.Execute(old(State()), o)
    {
      outcome := Continue;
      match o.nibbleUpper
      case 0x0 =>
        if o.lowerByte == 0xE0 {
          Cls();
        } else if o.lowerByte == 0xEE {
          Ret();
        } else {
          outcome := UnknownOpcode(UnknownOpcodeErr(o.opcode));
        }
      case 0x1 => Jp(o.addr);
      case 0x2 =>
        var overflow := Call(o.addr);
        if overflow {
          outcome := StackOverflow;
        }
      case 0x3 => SeVal(o.nibbleX, o.lowerByte);
      case 0x4 => SneVal(o.nibbleX, o.lowerByte);
      case 0x5 => Se(o.nibbleX, o.nibbleY);
      case 0x9 => Sne(o.nibbleX, o.nibbleY);
      case 0x6 => LdVal(o.nibbleX, o.lowerByte);
      case 0x7 => AddVal(o.nibbleX, o.lowerByte);
      case 0x8 =>
        match o.nibbleLower {
          case 0x0 => Ld(o.nibbleX, o.nibbleY);
          case 0x1 => OrReg(o.nibbleX, o.nibbleY);
          case 0x2 => AndReg(o.nibbleX, o.nibbleY);
          case 0x3 => XorReg(o.nibbleX, o.nibbleY);
          case 0x4 => Add(o.nibbleX, o.nibbleY);
          case 0x5 => Sub(o.nibbleX, o.nibbleY);
          case 0x6 => Shr(o.nibbleX);
          case 0x7 => Subn(o.nibbleX, o.nibbleY);
          case 0xE => Shl(o.nibbleX);
          case _ => outcome := UnknownOpcode(UnknownOpcodeErr(o.opcode));
        }
      case 0xA => Ldi(o.addr);
      case 0xD => Drw(o.nibbleX, o.nibbleY, o.nibbleLower);
      case 0xF =>
        if o.lowerByte == 0x1E {
          outcome := Delegated("ADDI");
        } else if o.lowerByte == 0x33 {
          outcome := Delegated("LDBCD");
        } else if o.lowerByte == 0x55 {
          outcome := Delegated("STR");
        } else if o.lowerByte == 0x65 {
          outcome := Delegated("LDR");
        } else {
          outcome := UnknownOpcode(UnknownOpcodeErr(o.opcode));
        }
      case _ => outcome := UnknownOpcode(UnknownOpcodeErr(o.opcode));
    }

    /** One turn of `Run`'s loop: fetch, stop at the end of memory, otherwise execute. */
    method Step() returns (outcome: Outcome)
      requires Valid() && pc != MemorySize - 1
      requires pc < MemorySize ==> Safe(State().(pc := pc + 2), ParseOpcode(FetchedWord(State())))
      modifies this, r, stack, display
      ensures Valid()
      ensures Executed(State(), outcome) == Execution.Step(old(State()))
    {
      var opcode, end := Fetch();
      if end {
        return Ended;
      }
      outcome := Execute(opcode.value);
    }
}
}
