/**
 * The per-opcode handlers of the virtual machine
 * (src/interpreter/instructions.go), as functions from the machine state
 * before the instruction to the state after it. The `VirtualMachine`
 * class in module `Interpreter` updates its arrays in place and is proved
 * to end in exactly these states; the lemmas below state what each
 * handler does to registers, flags, program counter and stack.
 *
 * Each handler is written in the order of the Go statements: `resetVF`
 * first, then the flag test, then the register update. The order is
 * visible when the target or the source register is VF itself.
 */
module Instructions {
  import opened Bytes
  import opened Display

  /** Index of the flag register VF. */
  const VF: int := 0xF

  /**
   * The state the handlers read and write: the 4096 bytes of memory, the
   * display's cells and dimensions, `pc`, `i`, `sp`, the sixteen
   * registers and the sixteen stack slots.
   */
  datatype Machine = Machine(
    memory: seq<Byte>,
    grid: Grid,
    height: nat,
    width: nat,
    pc: Word,
    i: Word,
    sp: Word,
    r: seq<Byte>,
    stack: seq<Word>)

  /** The sizes of the Go arrays, and a display grid of 0/1 cells of its dimensions. */
  predicate Wf(m: Machine) {
    |m.memory| == 4096 && |m.r| == 16 && |m.stack| == 16
    && Shaped(m.grid, m.height, m.width) && Binary(m.grid)
  }

  /**
   * `m'` differs from `m` at most in the registers `regs` (and keeps the
   * sizes of the Go arrays).
   */
  predicate OnlyRegisters(m: Machine, m': Machine, regs: set<int>) {
    m'.memory == m.memory && m'.grid == m.grid && m'.height == m.height && m'.width == m.width
    && m'.pc == m.pc && m'.i == m.i && m'.sp == m.sp && m'.stack == m.stack
    && |m'.r| == |m.r|
    && forall k :: 0 <= k < |m.r| && k !in regs ==> m'.r[k] == m.r[k]
  }

  function SetVF(m: Machine): Machine
    requires |m.r| == 16
  {
    m.(r := m.r[VF := 1])
  }

  function ResetVF(m: Machine): Machine
    requires |m.r| == 16
  {
    m.(r := m.r[VF := 0])
  }

  /** `setVF` and `resetVF` write 1 and 0 into VF and nothing else. */
  lemma FlagWrites(m: Machine)
    requires |m.r| == 16
    ensures OnlyRegisters(m, SetVF(m), {VF}) && SetVF(m).r[VF] == 1
    ensures OnlyRegisters(m, ResetVF(m), {VF}) && ResetVF(m).r[VF] == 0
  {
  }

  /**
   * `isOverflow(x, y)`: with `res` the 8-bit sum, the sum overflowed when
   * `res > x` disagrees with `y > 0`. That is exactly when the sum of the
   * two bytes exceeds 255.
   */
  function IsOverflow(x: Byte, y: Byte): (overflow: bool)
    ensures overflow <==> x + y > 0xFF
  {
    var res := (x as int + y) % 0x100;
    !((res > x) == (y > 0))
  }

  /** The program counter moved past the next instruction, as the 16-bit `pc += 2`. */
  function SkipNext(m: Machine): Machine {
    m.(pc := (m.pc + 2) % 0x10000)
  }

  /** 00E0: the display's `Clear`. */
  function Cls(m: Machine): Machine {
    m.(grid := Blank(m.height, m.width))
  }

  /** 00EE: `pc` from the slot `sp` points at; `sp` goes down unless it is 0. */
  function Ret(m: Machine): Machine
    requires |m.stack| == 16 && m.sp < 16
  {
    m.(pc := m.stack[m.sp], sp := if m.sp != 0 then m.sp - 1 else m.sp)
  }

  /**
   * 2nnn after its stack-overflow test has passed: `sp` goes up unless it
   * is 0, the return address goes into slot `sp`, and `pc` jumps. With
   * `sp` at 15 the slot would be 16, out of the array.
   */
  function Call(m: Machine, addr: Word): Machine
    requires |m.stack| == 16 && m.sp < 15
  {
    var sp := if m.sp != 0 then m.sp + 1 else m.sp;
    m.(sp := sp, stack := m.stack[sp := m.pc], pc := addr)
  }

  /** 1nnn */
  function Jp(m: Machine, addr: Word): Machine {
    m.(pc := addr)
  }

  /** 3xkk */
  function SeVal(m: Machine, x: Byte, kk: Byte): Machine
    requires |m.r| == 16 && x < 16
  {
    if m.r[x] == kk then SkipNext(m) else m
  }

  /** 4xkk */
  function SneVal(m: Machine, x: Byte, kk: Byte): Machine
    requires |m.r| == 16 && x < 16
  {
    if m.r[x] != kk then SkipNext(m) else m
  }

  /** 5xyN: the lowest nibble is not looked at. */
  function Se(m: Machine, x: Byte, y: Byte): Machine
    requires |m.r| == 16 && x < 16 && y < 16
  {
    if m.r[x] == m.r[y] then SkipNext(m) else m
  }

  /** 9xyN: the lowest nibble is not looked at. */
  function Sne(m: Machine, x: Byte, y: Byte): Machine
    requires |m.r| == 16 && x < 16 && y < 16
  {
    if m.r[x] != m.r[y] then SkipNext(m) else m
  }

  /** 6xkk */
  function LdVal(m: Machine, x: Byte, val: Byte): Machine
    requires |m.r| == 16 && x < 16
  {
    m.(r := m.r[x := val])
  }

  /** 8xy0 */
  function Ld(m: Machine, x: Byte, y: Byte): Machine
    requires |m.r| == 16 && x < 16 && y < 16
  {
    m.(r := m.r[x := m.r[y]])
  }

  /** 8xy1 */
  function OrReg(m: Machine, x: Byte, y: Byte): Machine
    requires |m.r| == 16 && x < 16 && y < 16
  {
    m.(r := m.r[x := Or(m.r[x], m.r[y])])
  }

  /** 8xy2 */
  function AndReg(m: Machine, x: Byte, y: Byte): Machine
    requires |m.r| == 16 && x < 16 && y < 16
  {
    m.(r := m.r[x := And(m.r[x], m.r[y])])
  }

  /** 8xy3 */
  function XorReg(m: Machine, x: Byte, y: Byte): Machine
    requires |m.r| == 16 && x < 16 && y < 16
  {
    m.(r := m.r[x := Xor(m.r[x], m.r[y])])
  }

  /**
   * 8xy4: clear VF, add with 8-bit wrap-around, then set VF when the NEW
   * `r[x]` plus `r[y]` overflows (the test runs after the addition).
   */
  function Add(m: Machine, x: Byte, y: Byte): Machine
    requires |m.r| == 16 && x < 16 && y < 16
  {
    var m1 := ResetVF(m);
    var m2 := m1.(r := m1.r[x := (m1.r[x] as int + m1.r[y]) % 0x100]);
    if IsOverflow(m2.r[x], m2.r[y]) then SetVF(m2) else m2
  }

  /** 8xy5: clear VF, set it when `r[x] > r[y]`, then subtract with wrap-around. */
  function Sub(m: Machine, x: Byte, y: Byte): Machine
    requires |m.r| == 16 && x < 16 && y < 16
  {
    var m1 := ResetVF(m);
    var m2 := if m1.r[x] > m1.r[y] then SetVF(m1) else m1;
    m2.(r := m2.r[x := (m2.r[x] as int - m2.r[y]) % 0x100])
  }

  /** 8xy6: clear VF, set it when bit 0 of `r[x]` is 1, then shift `r[x]` right. */
  function Shr(m: Machine, x: Byte): Machine
    requires |m.r| == 16 && x < 16
  {
    var m1 := ResetVF(m);
    var m2 := if And(m1.r[x], 1) == 1 then SetVF(m1) else m1;
    m2.(r := m2.r[x := ShiftRight(m2.r[x], 1)])
  }

  /** 8xy7: clear VF, set it when `r[y] > r[x]`, then `r[x] := r[y] - r[x]` with wrap-around. */
  function Subn(m: Machine, x: Byte, y: Byte): Machine
    requires |m.r| == 16 && x < 16 && y < 16
  {
    var m1 := ResetVF(m);
    var m2 := if m1.r[y] > m1.r[x] then SetVF(m1) else m1;
    m2.(r := m2.r[x := (m2.r[y] as int - m2.r[x]) % 0x100])
  }

  /** 8xyE: clear VF, set it when bit 7 of `r[x]` is 1, then shift `r[x]` left, dropping bit 7. */
  function Shl(m: Machine, x: Byte): Machine
    requires |m.r| == 16 && x < 16
  {
    var m1 := ResetVF(m);
    var m2 := if And(ShiftRight(m1.r[x], 7), 1) == 1 then SetVF(m1) else m1;
    m2.(r := m2.r[x := m2.r[x] as int * 2 % 0x100])
  }

  /** 7xkk: add with 8-bit wrap-around; VF is left alone. */
  function AddVal(m: Machine, x: Byte, val: Byte): Machine
    requires |m.r| == 16 && x < 16
  {
    m.(r := m.r[x := (m.r[x] as int + val) % 0x100])
  }

  /** Annn */
  function Ldi(m: Machine, addr: Word): Machine {
    m.(i := addr)
  }

  /**
   * Dxyn: XOR the sprite at `i` into the display at (`r[x]`, `r[y]`), then
   * VF is 1 after a collision and 0 otherwise. The coordinates are read
   * before VF is written.
   */
  function Drw(m: Machine, x: Byte, y: Byte, n: Byte): Machine
    requires |m.r| == 16 && x < 16 && y < 16
  {
    var vx, vy := m.r[x], m.r[y];
    var m1 := m.(grid := Blit(m.grid, m.memory, m.i, vx, vy, n));
    if Collides(m.grid, m.memory, m.i, vx, vy, n) then SetVF(m1) else ResetVF(m1)
  }

  // ---------------------------------------------------------------------
  // Properties of the handlers

  /** RET takes `pc` from the top slot and pops it, except that an `sp` of 0 stays 0. */
  lemma RetEffect(m: Machine)
    requires |m.stack| == 16 && m.sp < 16
    ensures Ret(m).pc == m.stack[m.sp]
    ensures Ret(m).sp == (if m.sp == 0 then 0 else m.sp - 1)
    ensures Ret(m).r == m.r && Ret(m).stack == m.stack && Ret(m).i == m.i && Ret(m).memory == m.memory
  {
  }

  /**
   * CALL pushes the return address into the slot above `sp`, except from
   * an empty stack (`sp` 0), where it overwrites slot 0 and `sp` stays 0.
   * No other slot changes, and `pc` is the target.
   */
  lemma CallEffect(m: Machine, addr: Word)
    requires |m.stack| == 16 && m.sp < 15
    ensures var m' := Call(m, addr);
      && m'.pc == addr
      && m'.sp == (if m.sp == 0 then 0 else m.sp + 1)
      && m'.stack[m'.sp] == m.pc
      && (forall k :: 0 <= k < 16 && k != m'.sp ==> m'.stack[k] == m.stack[k])
      && m'.r == m.r && m'.i == m.i && m'.memory == m.memory && m'.grid == m.grid
  {
  }

  /** A CALL followed by a RET gives back `pc` and `sp`, from every `sp` CALL accepts. */
  lemma CallThenRet(m: Machine, addr: Word)
    requires |m.stack| == 16 && m.sp < 15
    ensures Call(m, addr).sp < 16
    ensures Ret(Call(m, addr)).pc == m.pc && Ret(Call(m, addr)).sp == m.sp
  {
  }

  /**
   * The four skips move `pc` on by one instruction exactly when their
   * comparison holds, and change nothing else.
   */
  lemma Skips(m: Machine, x: Byte, y: Byte, kk: Byte)
    requires |m.r| == 16 && x < 16 && y < 16
    ensures SeVal(m, x, kk) == (if m.r[x] == kk then m.(pc := (m.pc + 2) % 0x10000) else m)
    ensures (SeVal(m, x, kk).pc != m.pc <==> m.r[x] == kk) && OnlyPc(m, SeVal(m, x, kk))
    ensures (SneVal(m, x, kk).pc != m.pc <==> m.r[x] != kk) && OnlyPc(m, SneVal(m, x, kk))
    ensures (Se(m, x, y).pc != m.pc <==> m.r[x] == m.r[y]) && OnlyPc(m, Se(m, x, y))
    ensures (Sne(m, x, y).pc != m.pc <==> m.r[x] != m.r[y]) && OnlyPc(m, Sne(m, x, y))
  {
  }

  /** `m'` is `m` with at most `pc` changed, and a changed `pc` moved on by 2 (16-bit). */
  predicate OnlyPc(m: Machine, m': Machine) {
    m' == m.(pc := m'.pc) && (m'.pc == m.pc || m'.pc == (m.pc + 2) % 0x10000)
  }

  /**
   * The loads and ADD Vx,kk write `r[x]` and nothing else: the operand,
   * the other register, or the sum modulo 256 (VF is not touched).
   */
  lemma LoadWrites(m: Machine, x: Byte, y: Byte, val: Byte)
    requires |m.r| == 16 && x < 16 && y < 16
    ensures OnlyRegisters(m, LdVal(m, x, val), {x}) && LdVal(m, x, val).r[x] == val
    ensures OnlyRegisters(m, Ld(m, x, y), {x}) && Ld(m, x, y).r[x] == m.r[y]
    ensures OnlyRegisters(m, AddVal(m, x, val), {x})
    ensures AddVal(m, x, val).r[x] ==
              (if m.r[x] as int + val > 0xFF then m.r[x] as int + val - 0x100 else m.r[x] as int + val)
  {
  }

  /**
   * OR, AND and XOR write `r[x]` and nothing else, and bit `k` of the
   * result is the operator applied to bit `k` of the two registers.
   */
  lemma BitwiseWrites(m: Machine, x: Byte, y: Byte, k: nat)
    requires |m.r| == 16 && x < 16 && y < 16 && k < 8
    ensures OnlyRegisters(m, OrReg(m, x, y), {x})
    ensures BitOf(OrReg(m, x, y).r[x], k) == ApplyBit(OrOp, BitOf(m.r[x], k), BitOf(m.r[y], k))
    ensures OnlyRegisters(m, AndReg(m, x, y), {x})
    ensures BitOf(AndReg(m, x, y).r[x], k) == ApplyBit(AndOp, BitOf(m.r[x], k), BitOf(m.r[y], k))
    ensures OnlyRegisters(m, XorReg(m, x, y), {x})
    ensures BitOf(XorReg(m, x, y).r[x], k) == ApplyBit(XorOp, BitOf(m.r[x], k), BitOf(m.r[y], k))
  {
    BitwiseBit(OrOp, m.r[x], m.r[y], 8, k);
    BitwiseBit(AndOp, m.r[x], m.r[y], 8, k);
    BitwiseBit(XorOp, m.r[x], m.r[y], 8, k);
  }

  /**
   * ADD with neither operand VF: `r[x]` is the 8-bit sum, and VF is set
   * when the new `r[x]` plus `r[y]` exceeds 255. That is the test the code
   * makes after the addition, not the carry out of it.
   */
  lemma AddEffect(m: Machine, x: Byte, y: Byte)
    requires |m.r| == 16 && x < 16 && y < 16 && x != VF && y != VF
    ensures var m' := Add(m, x, y);
      && OnlyRegisters(m, m', {x, VF})
      && m'.r[x] == (m.r[x] as int + m.r[y]) % 0x100
      && (m'.r[VF] == 1 <==> m'.r[x] as int + m'.r[y] > 0xFF)
      && (m'.r[VF] == 0 <==> m'.r[x] as int + m'.r[y] <= 0xFF)
  {
  }

  /**
   * The flag ADD leaves differs from the carry of the addition: 0xFF + 0x01
   * carries, but the wrapped sum 0x00 plus 0x01 does not overflow, so VF
   * ends 0.
   */
  lemma AddFlagIsNotCarry(m: Machine, x: Byte, y: Byte)
    requires |m.r| == 16 && x < 16 && y < 16 && x != VF && y != VF && x != y
    requires m.r[x] == 0xFF && m.r[y] == 0x01
    ensures m.r[x] as int + m.r[y] > 0xFF && Add(m, x, y).r[VF] == 0
  {
  }

  /**
   * SUB and SUBN with neither operand VF: the wrapped difference, and VF is
   * 1 exactly when the minuend is STRICTLY larger (equal operands give 0).
   */
  lemma SubEffect(m: Machine, x: Byte, y: Byte)
    requires |m.r| == 16 && x < 16 && y < 16 && x != VF && y != VF
    ensures OnlyRegisters(m, Sub(m, x, y), {x, VF})
    ensures Sub(m, x, y).r[x] == (if m.r[x] >= m.r[y] then m.r[x] - m.r[y] else m.r[x] as int - m.r[y] + 0x100)
    ensures Sub(m, x, y).r[VF] == (if m.r[x] > m.r[y] then 1 else 0)
    ensures OnlyRegisters(m, Subn(m, x, y), {x, VF})
    ensures Subn(m, x, y).r[x] == (if m.r[y] >= m.r[x] then m.r[y] - m.r[x] else m.r[y] as int - m.r[x] + 0x100)
    ensures Subn(m, x, y).r[VF] == (if m.r[y] > m.r[x] then 1 else 0)
  {
  }

  /** SHR on a register other than VF: VF is the old bit 0, and the register is halved. */
  lemma ShrEffect(m: Machine, x: Byte)
    requires |m.r| == 16 && x < 16 && x != VF
    ensures OnlyRegisters(m, Shr(m, x), {x, VF})
    ensures Shr(m, x).r[x] == m.r[x] / 2 && Shr(m, x).r[VF] == m.r[x] % 2
  {
    var a := m.r[x];
    AndOne(a);
    ShiftRightIsDiv(a, 1);
    var m1 := ResetVF(m);
    assert m1.r[x] == a;
    var m2 := if a % 2 == 1 then SetVF(m1) else m1;
    assert m2.r[x] == a && m2.r[VF] == a % 2;
    assert Shr(m, x) == m2.(r := m2.r[x := a / 2]);
  }

  /**
   * SHL on a register other than VF: VF is the old bit 7, and the register
   * is doubled modulo 256.
   */
  lemma ShlEffect(m: Machine, x: Byte)
    requires |m.r| == 16 && x < 16 && x != VF
    ensures OnlyRegisters(m, Shl(m, x), {x, VF})
    ensures Shl(m, x).r[x] == m.r[x] as int * 2 % 0x100 && Shl(m, x).r[VF] == m.r[x] / 0x80
  {
    var a := m.r[x];
    ShiftRightIsDiv(a, 7);
    assert Pow2(7) == 0x80;
    var top := a / 0x80;
    assert top < 2;
    AndOne(top);
    var m1 := ResetVF(m);
    assert m1.r[x] == a;
    var m2 := if top == 1 then SetVF(m1) else m1;
    assert m2.r[x] == a && m2.r[VF] == top;
    assert Shl(m, x) == m2.(r := m2.r[x := a as int * 2 % 0x100]);
  }

  /**
   * With VF as the target, the statement order decides the result: VF is
   * cleared before anything is read, so the old VF never takes part.
   * ADD VF,Vy leaves `r[y]`, or 1 if doubling it overflows.
   */
  lemma AddIntoFlag(m: Machine, y: Byte)
    requires |m.r| == 16 && y < 16 && y != VF
    ensures Add(m, VF, y).r[VF] == (if 2 * m.r[y] as int > 0xFF then 1 else m.r[y])
  {
    var b := m.r[y];
    var m1 := ResetVF(m);
    assert m1.r[VF] == 0 && m1.r[y] == b;
    var m2 := m1.(r := m1.r[VF := b]);
    assert Add(m, VF, y) == if IsOverflow(b, b) then SetVF(m2) else m2;
  }

  /** SUB VF,Vy leaves the negation of `r[y]` modulo 256, whatever VF held. */
  lemma SubIntoFlag(m: Machine, y: Byte)
    requires |m.r| == 16 && y < 16 && y != VF
    ensures Sub(m, VF, y).r[VF] == (0x100 - m.r[y] as int) % 0x100
  {
    var m1 := ResetVF(m);
    assert m1.r[VF] == 0 && m1.r[y] == m.r[y];
    assert Sub(m, VF, y) == m1.(r := m1.r[VF := (0 - m.r[y] as int) % 0x100]);
  }

  /** SUBN VF,Vy leaves `r[y] - 1`, or 0 when `r[y]` is 0. */
  lemma SubnIntoFlag(m: Machine, y: Byte)
    requires |m.r| == 16 && y < 16 && y != VF
    ensures Subn(m, VF, y).r[VF] == (if m.r[y] > 0 then m.r[y] - 1 else 0)
  {
    var b := m.r[y];
    var m1 := ResetVF(m);
    assert m1.r[VF] == 0 && m1.r[y] == b;
    var m2 := if b > 0 then SetVF(m1) else m1;
    assert m2.r[VF] == (if b > 0 then 1 else 0) && m2.r[y] == b;
    assert Subn(m, VF, y) == m2.(r := m2.r[VF := (b as int - m2.r[VF]) % 0x100]);
  }

  /** SHR VF and SHL VF always leave 0 in VF: the flag is cleared before its bit is tested. */
  lemma ShiftOfFlag(m: Machine)
    requires |m.r| == 16
    ensures Shr(m, VF).r[VF] == 0 && Shl(m, VF).r[VF] == 0
  {
    var m1 := ResetVF(m);
    assert m1.r[VF] == 0;
    AndOne(0);
    ShiftRightIsDiv(0, 7);
    ShiftRightIsDiv(0, 1);
  }

  /** DRW: VF reports the collision, the display holds the blit, the rest is kept. */
  lemma DrwEffect(m: Machine, x: Byte, y: Byte, n: Byte)
    requires Wf(m) && x < 16 && y < 16
    requires Fits(4096, m.height, m.width, m.i, m.r[x], m.r[y], n)
    ensures var m' := Drw(m, x, y, n);
      && Wf(m')
      && m'.grid == Blit(m.grid, m.memory, m.i, m.r[x], m.r[y], n)
      && (m'.r[VF] == 1 <==> Collides(m.grid, m.memory, m.i, m.r[x], m.r[y], n))
      && (m'.r[VF] == 0 <==> !Collides(m.grid, m.memory, m.i, m.r[x], m.r[y], n))
      && (forall k :: 0 <= k < 16 && k != VF ==> m'.r[k] == m.r[k])
      && m'.pc == m.pc && m'.i == m.i && m'.sp == m.sp && m'.stack == m.stack && m'.memory == m.memory
  {
    DrawnShape(m.grid, m.memory, m.i, m.r[x], m.r[y], n, 0, m.height, m.width);
  }
}
