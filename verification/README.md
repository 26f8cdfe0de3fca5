# emugo CHIP-8 interpreter in Dafny

This is a model of the core of emugo, a CHIP-8 interpreter written in Go, with proofs about it. The model covers:

- the opcode decoder shared by the interpreter and its debugger (`src/common/common.go`);
- the virtual machine, with its memory, registers, stack, `Init`, `fetch` and `execute` (`src/interpreter/interpreter.go`);
- the per-opcode handlers (`src/interpreter/instructions.go`);
- the terminal display's grid and its XOR sprite blitter (`src/display/terminal.go`);
- the keypad's double buffer and the bodies of its listener (`src/input/input.go`);
- the stand-alone disassembler (`src/disassembler/disassembler.go`).

The files are organised as follows:

- `bytes.dfy` (`Bytes`): Go's `byte` and `uint16` as bounded integers, with wrap-around written out. It also defines `&`, `|`, `^` and `>>`, bit by bit.
- `numerals.dfy` (`Numerals`): the digit strings that `fmt`'s `%X`, `%x`, `%d` and `%04X` produce, and reading them back.
- `common.dfy` (`Common`): `ParseOpcode` and its `extract*` helpers, the mnemonic table, `ParseHexInstruction`, `UnknownOpcodeErr`, and the line `Instruction.Print` writes.
- `display.dfy` (`Display`): the `TerminalDisplay` class. Its grid of 0/1 cells is updated in place. `UpdateState` has the Go nested loops and is proved against the declarative `Blit`/`Collides`.
- `instructions.dfy` (`Instructions`): every handler as a function on a `Machine` value, in the Go statement order (`resetVF`, then the flag test, then the register update). Lemmas state what each handler writes.
- `interpreter.dfy` (`Execution`, `Interpreter`):
  - `Execution` holds the dispatch table `Execute`, one `Step` of the run loop, and the memory layout after `Init`.
  - `Interpreter` holds the `VirtualMachine` class. Its memory, registers and stack are arrays updated in place. Every method is proved to end in the state the functions of `Instructions`/`Execution` describe.
- `input.dfy` (`Input`): the `Keyboard` class (three key arrays and the held-down map), the queries on it, and the bodies of the press handler and the release scan. Time is an integer number of nanoseconds.
- `disassembler.dfy` (`Disassembler`): `parseHexInstruction` with its own switch, and the `parseHexInstructions` loop.

Some modelling choices:

- **Go runtime panics.** An index out of range is a precondition:
  - `RET` needs `sp < 16`;
  - `CALL` from `sp == 15` would write slot 16;
  - `fetch` at `pc == 4095` would slice past memory;
  - a draw must stay in memory and on the grid;
  - `Init` needs a program of at most 3584 bytes.
- **Explicit panics are outcomes.** `CALL`'s stack-overflow panic is `StackOverflow`. The disassembler's odd-length panic is `Panic(message)`.
- **The code as written, not textbook CHIP-8:**
  - `ADD Vx,Vy` tests overflow on the sum after it has been stored (`AddEffect`, `AddFlagIsNotCarry`).
  - `SUB`/`SUBN` use a strict `>`.
  - `CALL` from `sp == 0` overwrites slot 0 without moving `sp` (`CallEffect`, `EmptyStackStaysEmpty`).
  - `5xyN`/`9xyN` ignore `N`.
  - Upper nibbles B, C and E are unknown opcodes (`UnknownOpcodes`).

## Model

| member | source | states |
|---|---|---|
| Bytes.BitwiseBit | src/interpreter/instructions.go:70-82 | bit `k` of Go's AND, OR and XOR of two values is that operator applied to bit `k` of the operands |
| Bytes.ShiftRightIsDiv | src/interpreter/instructions.go:103-127 | `a >> k` is `a / 2^k` |
| Bytes.XorTwice | src/display/terminal.go:38 | XOR-ing the same value in twice gives back the low `width` bits of the start value |
| Bytes.XorXor | src/interpreter/instructions.go:80-82 | on bytes, `(a ^ b) ^ b == a` |
| Numerals.DigitChar | src/common/common.go:107 | a digit character reads back as the digit; 0-9 print as decimal digits, 10-15 as letters, upper-case exactly for `%X` |
| Numerals.Numeral | src/common/common.go:107 | `%X`/`%x`/`%d` output is non-empty, made only of digits of the base, and its letters are all upper-case for `%X` and all lower-case for `%x` |
| Numerals.ValueOfNumeral | src/common/common.go:107 | reading a printed numeral back gives the number printed |
| Numerals.NumeralIsCanonical | src/common/common.go:107 | a numeral starts with '0' exactly when it is the numeral of 0 |
| Numerals.NumeralWidth | src/common/common.go:28 | a number below `base^k` prints with at most `k` digits |
| Numerals.PadZero | src/common/common.go:28 | `%0wX` padding yields width `w`; a numeral of `w` digits or more is returned unchanged |
| Numerals.PaddedCase | src/common/common.go:28 | the padding is only '0's in front of the numeral, which ends the padded string, and keeps the case of its letters |
| Numerals.ValueOfPadded | src/common/common.go:28 | leading zeros do not change the value read back |
| Common.ExtractNibble | src/common/common.go:71-74 | a nibble is below 16 |
| Common.GoMasks | src/common/common.go:71-84 | the three extractions equal Go's `opcode >> (idx * 4) & 0xF`, `opcode & 0xFF` and `opcode & 0xFFF`, computed bit by bit |
| Common.NibbleShifts | src/common/common.go:71-74 | nibble `k` (k = 0..3) is `(opcode / 16^k) % 16`, the `k`-th hex digit |
| Common.ExtractLowerByte | src/common/common.go:76-79 | reference definition of `extractLowerByte`: a `Byte`, which `Common.GoMasks` proves equal to Go's `opcode & 0xFF` |
| Common.ExtractAddress | src/common/common.go:81-84 | the address is below 0x1000 |
| Common.ParseOpcode | src/common/common.go:53-69 | total on every 16-bit word; the nibbles recombine to the word; low byte = Y*16 + lower; addr = X*256 + low byte < 4096 |
| Common.BigEndian | src/common/common.go:144 | the high byte is the word divided by 256, the low byte its remainder |
| Common.UnknownOpcodeErr | src/common/common.go:86-88 | the message is "unknown opcode: " followed by upper-case hex digits that read back as the opcode |
| Common.ParseInstructionFromOpcode | src/common/common.go:91-138 | keeps opcode and address; opcodes outside 1,6,7,A,D leave the operands as they were; JP leaves the right operand |
| Common.MnemonicTable | src/common/common.go:92-138 | CLS iff 00E0, RET iff 00EE, "UNK 0" iff another 0-opcode, JP/LD/ADD/LD/DRW iff upper nibble 1/6/7/A/D, "UNK" iff any other upper nibble |
| Common.OperandsDenoteFields | src/common/common.go:104-136 | JP and LD I carry the address in hex (LD's left operand "I"); LD/ADD carry "V"+X and the byte in hex; DRW carries "V"+X and "V"+Y "," N; all others carry no operands |
| Common.Hex | src/common/common.go:107 | `%X`: the upper-case hex numeral; it has the properties of `Numerals.Numeral` and `Numerals.ValueOfNumeral` |
| Common.Dec | src/common/common.go:113 | `%d`: the decimal numeral; it has the properties of `Numerals.Numeral` and `Numerals.ValueOfNumeral` |
| Common.Reg | src/common/common.go:113 | `V%d`: 'V' then the decimal register number (`Common.RegisterOperand`) |
| Common.RegisterOperand | src/common/common.go:113 | a register operand is 'V' then the register number in decimal |
| Common.ParseHexInstruction | src/common/common.go:142-149 | the opcode is the two bytes big-endian, the address `0x200 + idx` modulo 2^16 |
| Common.Hex4 | src/common/common.go:28 | `%04X`/`%04x` of a 16-bit value is exactly four characters, with letters of the case the verb asks for |
| Common.Hex4Value | src/common/common.go:28 | those four digits read back as the value printed |
| Common.Line | src/common/common.go:27-34 | address in 4 hex digits with upper-case letters, ": ", opcode in 4 hex digits with lower-case letters, a space, the mnemonic; then two spaces and the left operand only if present, and "," plus the right operand only if both are present |
| Display.ZeroedIsBlank | src/display/terminal.go:75-81 | zeroing keeps every row's length, leaves every cell 0, and on a Height×Width grid gives the blank grid |
| Display.BlankShape | src/display/terminal.go:14-20 | the grid `Init` allocates has Height rows of Width cells, all 0/1 |
| Display.OffsetOfWrap | src/display/terminal.go:35-36 | the sprite line (or bit) `k < 256` is recovered from the row (or column) `uint8(base + k)` it lands on |
| Display.WrapOfOffset | src/display/terminal.go:35-36 | every byte row/column is `uint8(base + k)` for the recovered `k` |
| Display.DrawStep | src/display/terminal.go:37-38 | the cell the loops stand on is still untouched, and XOR-ing its sprite bit gives the grid one bit further |
| Display.SameCell | src/display/terminal.go:35-36 | the only cell newly drawn at (ib, idx) is the one at row `vy+ib`, column `vx+idx` |
| Display.LineDone | src/display/terminal.go:30-45 | finishing the 8 bits of line `ib` is starting line `ib + 1` |
| Display.HitStep | src/display/terminal.go:39-41 | the collision flag one bit further on is the old flag, or the cell the loops stand on was 1 and its sprite bit is 1 |
| Display.CellStep | src/display/terminal.go:37-41 | one inner-loop step (read, XOR, write, flag) in the terms the loop uses |
| Display.NothingDrawnYet | src/display/terminal.go:28-29 | before the loops the grid is the old grid and no collision is reported |
| Display.DrawnShape | src/display/terminal.go:38 | drawing keeps the grid's shape and its cells in {0, 1} |
| Display.BlitCell | src/display/terminal.go:31-38 | sprite line `ib` bit `idx` lands on row `uint8(vy+ib)`, column `uint8(vx+idx)`, which becomes old XOR that bit |
| Display.BlitElsewhere | src/display/terminal.go:30-45 | a cell under no sprite position keeps its value |
| Display.BlitTwice | src/display/terminal.go:38 | drawing the same sprite twice at the same place restores the grid |
| Display.CollidesIffSwitchedOff | src/display/terminal.go:37-41 | a collision is reported iff some cell was 1 and becomes 0 |
| Display.SwitchedOffIsHit | src/display/terminal.go:37-41 | a cell is switched off iff it was 1 and a set sprite bit lands on it |
| Display.NoCollisionOnBlank | src/display/terminal.go:39-40 | drawing onto a cleared grid reports no collision |
| Display.SpriteBit | src/display/terminal.go:38 | reference definition of `(spriteRow >> (7 - idx)) & 0x1`: bit `idx` of a sprite line, counted from the most significant bit |
| Display.Blit | src/display/terminal.go:26-47 | reference definition of the grid after a draw; its cells are stated by `Display.BlitCell` and `Display.BlitElsewhere` |
| Display.Collides | src/display/terminal.go:26-47 | reference definition of the collision result; characterised by `Display.CollidesIffSwitchedOff` |
| Display.TerminalDisplay.constructor | src/display/terminal.go:8-12 | a display of the given dimensions with no grid yet |
| Display.TerminalDisplay.Init | src/display/terminal.go:14-20 | the grid becomes Height rows of Width zero cells |
| Display.TerminalDisplay.Clear | src/display/terminal.go:22-24 | every cell is 0 and the dimensions are kept |
| Display.TerminalDisplay.ResetGrid | src/display/terminal.go:75-81 | the grid becomes the old grid with every cell 0, row lengths kept |
| Display.TerminalDisplay.UpdateState | src/display/terminal.go:26-47 | the grid becomes `Blit` of the old grid, and the result is true iff `Collides` (a lit cell was switched off) |
| Instructions.FlagWrites | src/interpreter/interpreter.go:162-168 | `setVF`/`resetVF` write 1/0 into VF and no other register |
| Instructions.SetVF | src/interpreter/interpreter.go:162-164 | reference definition of `setVF`: VF := 1 (`Instructions.FlagWrites` proves nothing else changes) |
| Instructions.ResetVF | src/interpreter/interpreter.go:166-168 | reference definition of `resetVF`: VF := 0 (`Instructions.FlagWrites` proves nothing else changes) |
| Instructions.SkipNext | src/interpreter/instructions.go:32-58 | reference definition of the skip `pc += 2`, wrapping at 16 bits (`Instructions.Skips`) |
| Instructions.Cls | src/interpreter/instructions.go:3-5 | reference definition of 00E0: the display grid becomes blank, nothing else changes |
| Instructions.Ret | src/interpreter/instructions.go:8-13 | reference definition of 00EE; its effect is stated by `Instructions.RetEffect` |
| Instructions.Call | src/interpreter/instructions.go:16-25 | reference definition of 2nnn once the overflow test passed; its effect is stated by `Instructions.CallEffect` |
| Instructions.Jp | src/interpreter/instructions.go:27-29 | reference definition of 1nnn: pc := addr, nothing else changes |
| Instructions.SeVal | src/interpreter/instructions.go:32-36 | reference definition of 3xkk; its effect is stated by `Instructions.Skips` |
| Instructions.SneVal | src/interpreter/instructions.go:39-43 | reference definition of 4xkk; its effect is stated by `Instructions.Skips` |
| Instructions.Se | src/interpreter/instructions.go:46-50 | reference definition of 5xyN; its effect is stated by `Instructions.Skips` |
| Instructions.Sne | src/interpreter/instructions.go:54-58 | reference definition of 9xyN; its effect is stated by `Instructions.Skips` |
| Instructions.LdVal | src/interpreter/instructions.go:60-62 | reference definition of 6xkk; its effect is stated by `Instructions.LoadWrites` |
| Instructions.Ld | src/interpreter/instructions.go:65-67 | reference definition of 8xy0; its effect is stated by `Instructions.LoadWrites` |
| Instructions.OrReg | src/interpreter/instructions.go:70-72 | reference definition of 8xy1; its effect is stated by `Instructions.BitwiseWrites` |
| Instructions.AndReg | src/interpreter/instructions.go:75-77 | reference definition of 8xy2; its effect is stated by `Instructions.BitwiseWrites` |
| Instructions.XorReg | src/interpreter/instructions.go:80-82 | reference definition of 8xy3; its effect is stated by `Instructions.BitwiseWrites` |
| Instructions.Add | src/interpreter/instructions.go:85-91 | reference definition of 8xy4; its effect is stated by `Instructions.AddEffect` and `Instructions.AddIntoFlag` |
| Instructions.Sub | src/interpreter/instructions.go:94-100 | reference definition of 8xy5; its effect is stated by `Instructions.SubEffect` and `Instructions.SubIntoFlag` |
| Instructions.Shr | src/interpreter/instructions.go:103-109 | reference definition of 8xy6; its effect is stated by `Instructions.ShrEffect` and `Instructions.ShiftOfFlag` |
| Instructions.Subn | src/interpreter/instructions.go:112-118 | reference definition of 8xy7; its effect is stated by `Instructions.SubEffect` and `Instructions.SubnIntoFlag` |
| Instructions.Shl | src/interpreter/instructions.go:121-127 | reference definition of 8xyE; its effect is stated by `Instructions.ShlEffect` and `Instructions.ShiftOfFlag` |
| Instructions.AddVal | src/interpreter/instructions.go:129-131 | reference definition of 7xkk; its effect is stated by `Instructions.LoadWrites` |
| Instructions.Ldi | src/interpreter/instructions.go:133-135 | reference definition of Annn: i := addr, nothing else changes |
| Instructions.Drw | src/interpreter/instructions.go:137-147 | reference definition of Dxyn; its effect is stated by `Instructions.DrwEffect` |
| Instructions.IsOverflow | src/interpreter/interpreter.go:174-177 | the wrapped-sum comparison holds exactly when `x + y > 255` |
| Instructions.RetEffect | src/interpreter/instructions.go:8-13 | pc := stack[sp]; sp decremented unless it is 0; registers, stack, i, memory kept |
| Instructions.CallEffect | src/interpreter/instructions.go:16-25 | sp incremented unless 0; stack[sp'] := pc; no other slot changes; pc := addr; the rest kept |
| Instructions.CallThenRet | src/interpreter/instructions.go:8-25 | CALL then RET restores pc and sp for every sp in 0..14 |
| Instructions.Skips | src/interpreter/instructions.go:32-58 | each skip moves pc by 2 exactly when its comparison holds, and changes nothing else |
| Instructions.LoadWrites | src/interpreter/instructions.go:60-67 | LD Vx,kk / LD Vx,Vy / ADD Vx,kk write only r[x]: the byte, r[y], the sum mod 256 |
| Instructions.BitwiseWrites | src/interpreter/instructions.go:69-82 | OR/AND/XOR write only r[x], bit k of which is the operator on bit k of r[x] and r[y] |
| Instructions.AddEffect | src/interpreter/instructions.go:85-91 | with x, y ≠ VF, r[x] := (r[x] + r[y]) mod 256, and VF = 1 iff the NEW r[x] + r[y] > 255; only r[x], VF change |
| Instructions.AddFlagIsNotCarry | src/interpreter/instructions.go:87-88 | 0xFF + 0x01 carries, yet VF ends 0: the test is on the stored sum |
| Instructions.SubEffect | src/interpreter/instructions.go:94-118 | SUB/SUBN: wrapped difference, VF = 1 iff the minuend is strictly larger; only r[x], VF change |
| Instructions.ShrEffect | src/interpreter/instructions.go:103-109 | with x ≠ VF, VF = old bit 0 and r[x] is halved |
| Instructions.ShlEffect | src/interpreter/instructions.go:121-127 | with x ≠ VF, VF = old bit 7 and r[x] doubles mod 256 |
| Instructions.AddIntoFlag | src/interpreter/instructions.go:85-91 | ADD VF,Vy leaves r[y], or 1 when 2·r[y] > 255 (VF is cleared before it is read) |
| Instructions.SubIntoFlag | src/interpreter/instructions.go:94-100 | SUB VF,Vy leaves −r[y] mod 256 whatever VF held |
| Instructions.SubnIntoFlag | src/interpreter/instructions.go:112-118 | SUBN VF,Vy leaves r[y] − 1, or 0 when r[y] = 0 |
| Instructions.ShiftOfFlag | src/interpreter/instructions.go:103-127 | SHR VF and SHL VF always leave 0 in VF |
| Instructions.DrwEffect | src/interpreter/instructions.go:137-147 | the grid becomes the blit at (r[x], r[y]), VF = 1 iff a collision and 0 otherwise, everything else is kept |
| Execution.LoadedLayout | src/interpreter/interpreter.go:53-67 | after Init: font bytes at 0..80, program byte k at 512+k, all other bytes kept; the regions are disjoint |
| Execution.UnknownOpcodes | src/interpreter/interpreter.go:115-158 | unknown opcode exactly for B/C/E, 0-opcodes other than E0/EE, 8xyN with N ∉ {0..7, E}, Fx with kk ∉ {1E, 33, 55, 65}; the message is `UnknownOpcodeErr` of the opcode |
| Execution.FailuresChangeNothing | src/interpreter/interpreter.go:115-160 | an unknown opcode or a stack overflow leaves the state unchanged, and so does `Delegated`, which is this model's stand-in for the Fx handlers it leaves out; stack overflow iff CALL with sp ≥ 16 |
| Execution.ExecuteKeepsWf | src/interpreter/interpreter.go:115-160 | every instruction keeps the array sizes and a 0/1 grid of the display's dimensions |
| Execution.EmptyStackStaysEmpty | src/interpreter/instructions.go:8-25 | from sp = 0 no instruction moves sp and only stack[0] can change |
| Execution.StepFetches | src/interpreter/interpreter.go:90-98 | the run ends iff pc ≥ 4096 (state unchanged); otherwise the big-endian word at pc is executed with pc already advanced by 2 |
| Execution.Execute | src/interpreter/interpreter.go:115-160 | reference definition of `execute`, one case per Go case; its properties are `Execution.UnknownOpcodes`, `Execution.FailuresChangeNothing` and `Execution.ExecuteKeepsWf` |
| Execution.ExecuteAlu | src/interpreter/interpreter.go:132-145 | reference definition of the 8xyN cases of `execute` |
| Execution.Step | src/interpreter/interpreter.go:90-98 | reference definition of one turn of `Run`'s loop; its property is `Execution.StepFetches` |
| Execution.Loaded | src/interpreter/interpreter.go:53-67 | reference definition of memory after `Init`; its layout is stated by `Execution.LoadedLayout` |
| Interpreter.VirtualMachine.constructor | src/interpreter/interpreter.go:37-51 | Go's zero value: all memory, registers and stack 0, pc = i = sp = 0 |
| Interpreter.VirtualMachine.Init | src/interpreter/interpreter.go:53-61 | memory becomes `Loaded(old memory, program)`, pc = 512, blank display, other fields kept |
| Interpreter.VirtualMachine.StoreProgram | src/interpreter/interpreter.go:54-56 | the program's bytes are copied to 512 onwards, the rest of memory kept |
| Interpreter.VirtualMachine.LoadSpritesInMemory | src/interpreter/interpreter.go:63-67 | the 80 font bytes are copied to 0 onwards, the rest of memory kept |
| Interpreter.VirtualMachine.Fetch | src/interpreter/interpreter.go:105-113 | end iff pc ≥ 4096 (nothing changes); otherwise the big-endian word at pc, decoded, and pc advanced by 2 |
| Interpreter.VirtualMachine.SetVF | src/interpreter/interpreter.go:162-164 | the state becomes `Instructions.SetVF` of the old one, after which `isVFSet` holds |
| Interpreter.VirtualMachine.ResetVF | src/interpreter/interpreter.go:166-168 | the state becomes `Instructions.ResetVF` of the old one, after which `isVFSet` fails |
| Interpreter.VirtualMachine.IsVFSet | src/interpreter/interpreter.go:170-172 | reference definition of `isVFSet`: VF holds 1 (`Interpreter.VirtualMachine.SetVF` and `ResetVF` prove it holds after `setVF` and fails after `resetVF`) |
| Interpreter.VirtualMachine.Cls | src/interpreter/instructions.go:3-5 | the state becomes `Instructions.Cls` of the old one (blank grid) |
| Interpreter.VirtualMachine.Ret | src/interpreter/instructions.go:8-13 | the state becomes `Instructions.Ret` of the old one |
| Interpreter.VirtualMachine.Call | src/interpreter/instructions.go:16-25 | overflow iff sp ≥ 16, with nothing changed; otherwise the state becomes `Instructions.Call` |
| Interpreter.VirtualMachine.Jp | src/interpreter/instructions.go:27-29 | the state becomes `Instructions.Jp` of the old one |
| Interpreter.VirtualMachine.SeVal | src/interpreter/instructions.go:32-36 | the state becomes `Instructions.SeVal` of the old one |
| Interpreter.VirtualMachine.SneVal | src/interpreter/instructions.go:39-43 | the state becomes `Instructions.SneVal` of the old one |
| Interpreter.VirtualMachine.Se | src/interpreter/instructions.go:46-50 | the state becomes `Instructions.Se` of the old one |
| Interpreter.VirtualMachine.Sne | src/interpreter/instructions.go:54-58 | the state becomes `Instructions.Sne` of the old one |
| Interpreter.VirtualMachine.LdVal | src/interpreter/instructions.go:60-62 | the state becomes `Instructions.LdVal` of the old one |
| Interpreter.VirtualMachine.Ld | src/interpreter/instructions.go:65-67 | the state becomes `Instructions.Ld` of the old one |
| Interpreter.VirtualMachine.OrReg | src/interpreter/instructions.go:70-72 | the state becomes `Instructions.OrReg` of the old one |
| Interpreter.VirtualMachine.AndReg | src/interpreter/instructions.go:75-77 | the state becomes `Instructions.AndReg` of the old one |
| Interpreter.VirtualMachine.XorReg | src/interpreter/instructions.go:80-82 | the state becomes `Instructions.XorReg` of the old one |
| Interpreter.VirtualMachine.Add | src/interpreter/instructions.go:85-91 | the state becomes `Instructions.Add` of the old one |
| Interpreter.VirtualMachine.Sub | src/interpreter/instructions.go:94-100 | the state becomes `Instructions.Sub` of the old one |
| Interpreter.VirtualMachine.Shr | src/interpreter/instructions.go:103-109 | the state becomes `Instructions.Shr` of the old one |
| Interpreter.VirtualMachine.Subn | src/interpreter/instructions.go:112-118 | the state becomes `Instructions.Subn` of the old one |
| Interpreter.VirtualMachine.Shl | src/interpreter/instructions.go:121-127 | the state becomes `Instructions.Shl` of the old one |
| Interpreter.VirtualMachine.AddVal | src/interpreter/instructions.go:129-131 | the state becomes `Instructions.AddVal` of the old one |
| Interpreter.VirtualMachine.Ldi | src/interpreter/instructions.go:133-135 | the state becomes `Instructions.Ldi` of the old one |
| Interpreter.VirtualMachine.Drw | src/interpreter/instructions.go:137-147 | the state becomes `Instructions.Drw` of the old one (blit through the display, VF = collision) |
| Interpreter.VirtualMachine.Execute | src/interpreter/interpreter.go:115-160 | the new state and the outcome are `Execution.Execute` of the old state |
| Interpreter.VirtualMachine.Step | src/interpreter/interpreter.go:90-98 | the new state and the outcome are `Execution.Step` of the old state |
| Input.KeyMapKeys | src/input/input.go:27-44 | the map's keys are the one-character strings "0"-"9" and "a"-"f" |
| Input.KeyMapInjective | src/input/input.go:27-44 | no two characters map to the same key |
| Input.KeyMapOnto | src/input/input.go:27-44 | every key 0..15 has a character |
| Input.KeyMapRange | src/input/input.go:27-44 | every mapped key is below 16 |
| Input.Transitions | src/input/input.go:64-80 | never both just pressed and just released; just pressed implies pressed, just released implies not; either iff current ≠ prev |
| Input.UpdateTwice | src/input/input.go:57-62 | an update shows the collected state and keeps temp and the held-down map; two updates with nothing collected in between leave no key just pressed or released |
| Input.PressEffect | src/input/input.go:91-102 | a mapped character (either case) marks exactly its key down and stamps it with `now`; any other character changes nothing |
| Input.PressThenUpdate | src/input/input.go:97-102 | a key pressed and then taken up by an update is pressed |
| Input.ReleaseEffect | src/input/input.go:104-115 | keys held ≥ 200 ms leave the map and are up in temp; all other keys keep entry and state; current/prev untouched |
| Input.Updated | src/input/input.go:57-62 | reference definition of `DoKeyEventUpdates` on the key state; its effect is stated by `Input.UpdateTwice` |
| Input.Pressed | src/input/input.go:90-102 | reference definition of a key event; its effect is stated by `Input.PressEffect` |
| Input.Released | src/input/input.go:104-115 | reference definition of the release scan; its effect is stated by `Input.ReleaseEffect` |
| Input.Keyboard.constructor | src/input/input.go:13-20 | all keys up, no key held down |
| Input.Keyboard.Start | src/input/input.go:46-49 | a fresh empty held-down map, the key arrays kept |
| Input.Keyboard.DoKeyEventUpdates | src/input/input.go:57-62 | prev := current, current := temp, temp kept |
| Input.Keyboard.JustPressed | src/input/input.go:64-68 | true iff the key is down now and was up at the previous update; then it is pressed and not just released |
| Input.Keyboard.JustReleased | src/input/input.go:70-74 | true iff the key is up now and was down at the previous update; then it is not pressed |
| Input.Keyboard.IsPressed | src/input/input.go:76-80 | true iff the key is down at the last update |
| Input.Keyboard.Press | src/input/input.go:90-102 | the state becomes `Pressed(old state, c, now)` |
| Input.Keyboard.ReleaseScan | src/input/input.go:104-115 | visiting the held keys in any order gives `Released(old state, now)` |
| Disassembler.ParseHexInstructions | src/disassembler/disassembler.go:103-119 | the result is `Disassemble(arr)`: the panic on odd length, else the listing of entries |
| Disassembler.EntriesGrow | src/disassembler/disassembler.go:110-117 | two more bytes append exactly one entry |
| Disassembler.EntriesAt | src/disassembler/disassembler.go:110-117 | entry `k` of the first `n` is the instruction decoded from bytes `2k` and `2k+1` at offset `2k` |
| Disassembler.SameAsCommon | src/disassembler/disassembler.go:48-101 | the disassembler's switch gives the same record as the shared `ParseHexInstruction` for every two bytes and offset |
| Disassembler.ListingLayout | src/disassembler/disassembler.go:103-119 | panic iff odd length; else len/2 entries, entry k's opcode is arr[2k]·256 + arr[2k+1] and its address 0x200 + 2k mod 2^16 |
| Disassembler.ConsecutiveAddresses | src/disassembler/disassembler.go:110-116 | consecutive entries are 2 apart while no 16-bit wrap occurs |
| Disassembler.NeverFails | src/disassembler/disassembler.go:53-99 | every entry has a mnemonic; "UNK" iff an unsupported upper nibble, "UNK 0" iff another 0-opcode |
| Disassembler.DisassembleOne | src/disassembler/disassembler.go:48-101 | reference definition of `parseHexInstruction`; equal to the shared decoder by `Disassembler.SameAsCommon` |
| Disassembler.Name | src/disassembler/disassembler.go:53-99 | reference definition of the disassembler's own switch on the upper nibble |
| Disassembler.Entries | src/disassembler/disassembler.go:110-117 | the first `n` entries the loop appends; there are `n` of them |
| Disassembler.Disassemble | src/disassembler/disassembler.go:103-119 | reference definition of `parseHexInstructions`' result; its layout is stated by `Disassembler.ListingLayout` |

## Left out

- The clock and the run loop: the `time.Ticker`, the wait on `Clk.C`, the debug single-step prompt on standard input, and `Keyboard.Start`/`Stop` inside `Run`. A single `Step` (fetch, then execute) is modelled instead, and `Init`'s `clkSpeed` parameter is dropped.
- The keyboard listener's goroutine, its `sync.Mutex`, the external keyboard library's event channel and Ctrl-C handling, and `Keyboard.Stop`. `time.Now()` becomes an integer parameter `now` in nanoseconds.
- `Input.Lower`: only ASCII letters are lower-cased. `strings.ToLower` also folds non-ASCII runes, but none of those can produce a key of `KeyMap`.
- `Input.Keyboard.ReleaseScan`: Go's map iteration order is unspecified. The scan picks keys in any order, and the result does not depend on it.
- `Render` and `drawHorizontalBorder` (terminal output), and the `Render` call inside `_DRW`.
- File and command-line I/O: `ReadFile`, `PrintHex`, the final `Printf` of `Instruction.Print` and of the disassembler's `print`, flag parsing, and both `main` functions. The disassembler's `print` builds the same line as `Common.Line`.
- The `Display` interface of src/display/base.go. The machine uses `TerminalDisplay` directly. The interface declares `UpdateState` without a result, but the terminal display and `_DRW` use its boolean.
- The handlers `_ADDI`, `_LDBCD`, `_STR` and `_LDR` for Fx1E/Fx33/Fx55/Fx65 are not part of this model. `Execute` returns `Delegated(name)` for them, with the state as it was before the handler.
- The `dt`/`ds` timers (never read or written), and the `Clk`, `Keyboard` and `Debug` fields of the machine.
- `Display.TerminalDisplay`: `Height` and `Width` are `uint32` in Go and `nat` here. Only grids that fit in memory are meaningful.
- `Display.SpriteRow` and `Display.SetCell` are total: outside memory or off the grid they read 0 or leave the grid as it is. `UpdateState` requires `Fits`, so these cases never arise in a draw.
- `Input.Keyboard`: the Go `[16]bool` arrays are values that the update copies. They are modelled as sequences that the methods reassign.
