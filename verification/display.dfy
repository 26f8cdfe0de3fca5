/**
 * The terminal display (src/display/terminal.go): a grid of 0/1 pixels,
 * cleared cell by cell and drawn on by XOR-ing sprite rows into it, with a
 * collision report when a lit pixel is switched off.
 */
module Display {
  import opened Bytes

  /** `[][]uint8`: rows of cells. */
  type Grid = seq<seq<Byte>>

  /** `height` rows of `width` cells each. */
  predicate Shaped(g: Grid, height: nat, width: nat) {
    |g| == height && forall r :: 0 <= r < |g| ==> |g[r]| == width
  }

  /** Every cell is 0 or 1. */
  predicate Binary(g: Grid) {
    forall r, c :: 0 <= r < |g| && 0 <= c < |g[r]| ==> g[r][c] <= 1
  }

  /** A grid of the same shape as `g` with every cell 0. */
  function Zeroed(g: Grid): Grid {
    seq(|g|, r requires 0 <= r < |g| => seq(|g[r]|, _ => 0))
  }

  /** The all-zero grid `Init` produces. */
  function Blank(height: nat, width: nat): Grid {
    seq(height, _ => seq(width, _ => 0))
  }

  /** Zeroing keeps the shape, leaves nothing lit, and on a shaped grid is the blank grid. */
  lemma ZeroedIsBlank(g: Grid, height: nat, width: nat)
    ensures |Zeroed(g)| == |g| && forall r :: 0 <= r < |g| ==> |Zeroed(g)[r]| == |g[r]|
    ensures forall r, c :: 0 <= r < |g| && 0 <= c < |g[r]| ==> Zeroed(g)[r][c] == 0
    ensures Binary(Zeroed(g))
    ensures Shaped(g, height, width) ==> Zeroed(g) == Blank(height, width)
  {
    if Shaped(g, height, width) {
      forall r | 0 <= r < height
        ensures Zeroed(g)[r] == Blank(height, width)[r]
      {
      }
    }
  }

  lemma BlankShape(height: nat, width: nat)
    ensures Shaped(Blank(height, width), height, width) && Binary(Blank(height, width))
  {
  }

  /** `uint8(base + k)`: the row (or column) a sprite line (or bit) lands on. */
  function Wrap8(base: Byte, k: nat): Byte {
    (base + k) % 0x100
  }

  /** The `k` with `Wrap8(base, k) == at`, for `at` a byte: the inverse of `Wrap8`. */
  function Offset(base: Byte, at: nat): nat {
    (at - base) % 0x100
  }

  lemma OffsetOfWrap(base: Byte, k: nat)
    requires k < 0x100
    ensures Offset(base, Wrap8(base, k)) == k
  {
  }

  lemma WrapOfOffset(base: Byte, at: nat)
    requires at < 0x100
    ensures Wrap8(base, Offset(base, at)) == at
  {
  }

  /**
   * Sprite line `ib`: `memory[i + uint16(ib)]`, the address wrapping at 16
   * bits. Outside memory (which a draw's precondition excludes) it is 0.
   */
  function SpriteRow(mem: seq<Byte>, i: Word, ib: nat): Byte {
    var a := SpriteAddr(i, ib);
    if a < |mem| then mem[a] else 0
  }

  /** `i + uint16(ib)` */
  function SpriteAddr(i: Word, ib: nat): Word {
    (i + ib) % 0x10000
  }

  /** Bit `idx` of a sprite line, counted from the most significant bit. */
  function SpriteBit(row: Byte, idx: nat): nat
    requires idx < 8
  {
    BitOf(row, 7 - idx)
  }

  /**
   * Every index `UpdateState` touches is in range: the `n` sprite lines are
   * in memory, and the rows and columns they land on, after the 8-bit
   * wrap-around, are on the grid.
   */
  predicate Fits(memLen: nat, height: nat, width: nat, i: Word, vx: Byte, vy: Byte, n: Byte) {
    (forall ib :: 0 <= ib < n ==> SpriteAddr(i, ib) < memLen && Wrap8(vy, ib) < height)
    && (n > 0 ==> forall idx :: 0 <= idx < 8 ==> Wrap8(vx, idx) < width)
  }

  /** Sprite position (line, bit) already drawn when the loops stand at line `ib`, bit `idx`. */
  predicate Before(line: nat, bit: nat, ib: nat, idx: nat) {
    bit < 8 && (line < ib || (line == ib && bit < idx))
  }

  /** Cell `(r, c)` lies under a sprite position drawn before (`ib`, `idx`). */
  predicate Under(vx: Byte, vy: Byte, ib: nat, idx: nat, r: nat, c: nat) {
    r < 0x100 && c < 0x100 && Before(Offset(vy, r), Offset(vx, c), ib, idx)
  }

  /** The sprite bit that lands on cell `(r, c)`. */
  function BitAt(mem: seq<Byte>, i: Word, vx: Byte, vy: Byte, r: nat, c: nat): nat
    requires Offset(vx, c) < 8
  {
    SpriteBit(SpriteRow(mem, i, Offset(vy, r)), Offset(vx, c))
  }

  /** Cell `(r, c)` of the grid once the loops reach line `ib`, bit `idx`. */
  function Painted(g0: Grid, mem: seq<Byte>, i: Word, vx: Byte, vy: Byte, ib: nat, idx: nat, r: nat, c: nat): Byte
    requires r < |g0| && c < |g0[r]|
  {
    if Under(vx, vy, ib, idx, r, c) then Xor(g0[r][c], BitAt(mem, i, vx, vy, r, c)) else g0[r][c]
  }

  /** The grid part-way through a draw. */
  function DrawnUpTo(g0: Grid, mem: seq<Byte>, i: Word, vx: Byte, vy: Byte, ib: nat, idx: nat): Grid {
    seq(|g0|, r requires 0 <= r < |g0| =>
      seq(|g0[r]|, c requires 0 <= c < |g0[r]| => Painted(g0, mem, i, vx, vy, ib, idx, r, c)))
  }

  /** The grid after drawing the `n`-line sprite at `i` with its top-left corner at (`vx`, `vy`). */
  function Blit(g0: Grid, mem: seq<Byte>, i: Word, vx: Byte, vy: Byte, n: Byte): Grid {
    DrawnUpTo(g0, mem, i, vx, vy, n, 0)
  }

  /** Cell `(r, c)` was lit and a set sprite bit, drawn before (`ib`, `idx`), switches it off. */
  predicate HitAt(g0: Grid, mem: seq<Byte>, i: Word, vx: Byte, vy: Byte, ib: nat, idx: nat, r: nat, c: nat)
    requires r < |g0| && c < |g0[r]|
  {
    Under(vx, vy, ib, idx, r, c) && g0[r][c] == 1 && BitAt(mem, i, vx, vy, r, c) == 1
  }

  predicate HitUpTo(g0: Grid, mem: seq<Byte>, i: Word, vx: Byte, vy: Byte, ib: nat, idx: nat) {
    exists r, c :: 0 <= r < |g0| && 0 <= c < |g0[r]| && HitAt(g0, mem, i, vx, vy, ib, idx, r, c)
  }

  /** The collision `UpdateState` reports for the whole sprite. */
  predicate Collides(g0: Grid, mem: seq<Byte>, i: Word, vx: Byte, vy: Byte, n: Byte) {
    HitUpTo(g0, mem, i, vx, vy, n, 0)
  }

  // ----- advancing the loops by one cell -----

  /** `g[r][c] = v`; off the grid (where Go would panic) the grid is left as it is. */
  function SetCell(g: Grid, r: nat, c: nat, v: Byte): Grid {
    if r < |g| && c < |g[r]| then
      var row: seq<Byte> := g[r][c := v];
      g[r := row]
    else g
  }

  /** Cell `(r, c)`, or 0 off the grid. */
  function CellAt(g: Grid, r: nat, c: nat): Byte {
    if r < |g| && c < |g[r]| then g[r][c] else 0
  }

  /**
   * Drawing the cell the loops stand on: the cell is still untouched, and
   * XOR-ing its sprite bit into it gives the grid one bit further on.
   */
  lemma DrawStep(g0: Grid, mem: seq<Byte>, i: Word, vx: Byte, vy: Byte, ib: nat, idx: nat)
    requires ib < 0x100 && idx < 8
    requires Wrap8(vy, ib) < |g0| && Wrap8(vx, idx) < |g0[Wrap8(vy, ib)]|
    ensures var g := DrawnUpTo(g0, mem, i, vx, vy, ib, idx);
            var row, col := Wrap8(vy, ib), Wrap8(vx, idx);
            && g[row][col] == g0[row][col]
            && DrawnUpTo(g0, mem, i, vx, vy, ib, idx + 1)
               == SetCell(g, row, col, Xor(g0[row][col], SpriteBit(SpriteRow(mem, i, ib), idx)))
  {
    var row, col := Wrap8(vy, ib), Wrap8(vx, idx);
    OffsetOfWrap(vy, ib);
    OffsetOfWrap(vx, idx);
    var g := DrawnUpTo(g0, mem, i, vx, vy, ib, idx);
    var g' := DrawnUpTo(g0, mem, i, vx, vy, ib, idx + 1);
    var h := SetCell(g, row, col, Xor(g0[row][col], SpriteBit(SpriteRow(mem, i, ib), idx)));
    forall r | 0 <= r < |g0|
      ensures g'[r] == h[r]
    {
      forall c | 0 <= c < |g0[r]|
        ensures g'[r][c] == h[r][c]
      {
        SameCell(vx, vy, ib, idx, r, c);
      }
    }
  }

  /** The one cell that is drawn at (`ib`, `idx`) and not before is the cell the loops stand on. */
  lemma SameCell(vx: Byte, vy: Byte, ib: nat, idx: nat, r: nat, c: nat)
    requires ib < 0x100 && idx < 8
    ensures (Under(vx, vy, ib, idx + 1, r, c) && !Under(vx, vy, ib, idx, r, c))
            <==> (r == Wrap8(vy, ib) && c == Wrap8(vx, idx))
  {
    OffsetOfWrap(vy, ib);
    OffsetOfWrap(vx, idx);
    if r < 0x100 && c < 0x100 {
      WrapOfOffset(vy, r);
      WrapOfOffset(vx, c);
    }
  }

  /** Finishing a line: bit 8 of line `ib` is bit 0 of line `ib + 1`. */
  lemma LineDone(g0: Grid, mem: seq<Byte>, i: Word, vx: Byte, vy: Byte, ib: nat)
    ensures DrawnUpTo(g0, mem, i, vx, vy, ib, 8) == DrawnUpTo(g0, mem, i, vx, vy, ib + 1, 0)
    ensures HitUpTo(g0, mem, i, vx, vy, ib, 8) <==> HitUpTo(g0, mem, i, vx, vy, ib + 1, 0)
  {
    var g, h := DrawnUpTo(g0, mem, i, vx, vy, ib, 8), DrawnUpTo(g0, mem, i, vx, vy, ib + 1, 0);
    forall r | 0 <= r < |g0|
      ensures g[r] == h[r]
    {
      forall c | 0 <= c < |g0[r]|
        ensures g[r][c] == h[r][c]
      {
        assert Under(vx, vy, ib, 8, r, c) <==> Under(vx, vy, ib + 1, 0, r, c);
      }
    }
    if HitUpTo(g0, mem, i, vx, vy, ib, 8) {
      var r, c :| 0 <= r < |g0| && 0 <= c < |g0[r]| && HitAt(g0, mem, i, vx, vy, ib, 8, r, c);
      assert HitAt(g0, mem, i, vx, vy, ib + 1, 0, r, c);
    }
    if HitUpTo(g0, mem, i, vx, vy, ib + 1, 0) {
      var r, c :| 0 <= r < |g0| && 0 <= c < |g0[r]| && HitAt(g0, mem, i, vx, vy, ib + 1, 0, r, c);
      assert HitAt(g0, mem, i, vx, vy, ib, 8, r, c);
    }
  }

  /** The collision flag one bit further on. */
  lemma HitStep(g0: Grid, mem: seq<Byte>, i: Word, vx: Byte, vy: Byte, ib: nat, idx: nat)
    requires ib < 0x100 && idx < 8
    requires Wrap8(vy, ib) < |g0| && Wrap8(vx, idx) < |g0[Wrap8(vy, ib)]|
    ensures var row, col := Wrap8(vy, ib), Wrap8(vx, idx);
            HitUpTo(g0, mem, i, vx, vy, ib, idx + 1)
            <==> HitUpTo(g0, mem, i, vx, vy, ib, idx)
                 || (g0[row][col] == 1 && SpriteBit(SpriteRow(mem, i, ib), idx) == 1)
  {
    var row, col := Wrap8(vy, ib), Wrap8(vx, idx);
    SameCell(vx, vy, ib, idx, row, col);
    OffsetOfWrap(vy, ib);
    OffsetOfWrap(vx, idx);
    if HitUpTo(g0, mem, i, vx, vy, ib, idx + 1) {
      var r, c :| 0 <= r < |g0| && 0 <= c < |g0[r]| && HitAt(g0, mem, i, vx, vy, ib, idx + 1, r, c);
      SameCell(vx, vy, ib, idx, r, c);
      if !(r == row && c == col) {
        assert HitAt(g0, mem, i, vx, vy, ib, idx, r, c);
      }
    }
    if HitUpTo(g0, mem, i, vx, vy, ib, idx) {
      var r, c :| 0 <= r < |g0| && 0 <= c < |g0[r]| && HitAt(g0, mem, i, vx, vy, ib, idx, r, c);
      assert HitAt(g0, mem, i, vx, vy, ib, idx + 1, r, c);
    }
    if g0[row][col] == 1 && SpriteBit(SpriteRow(mem, i, ib), idx) == 1 {
      assert HitAt(g0, mem, i, vx, vy, ib, idx + 1, row, col);
    }
  }

  /**
   * One step of the draw in the terms the loops use: the cell's current
   * value is read, XOR-ed with its sprite bit and written back, and the
   * flag is raised when that turns a 1 into a 0.
   */
  lemma CellStep(g0: Grid, mem: seq<Byte>, i: Word, vx: Byte, vy: Byte, ib: nat, idx: nat)
    requires ib < 0x100 && idx < 8
    requires Wrap8(vy, ib) < |g0| && Wrap8(vx, idx) < |g0[Wrap8(vy, ib)]|
    ensures var g := DrawnUpTo(g0, mem, i, vx, vy, ib, idx);
            var row, col := Wrap8(vy, ib), Wrap8(vx, idx);
            var prev, bit := CellAt(g, row, col), SpriteBit(SpriteRow(mem, i, ib), idx);
            && DrawnUpTo(g0, mem, i, vx, vy, ib, idx + 1) == SetCell(g, row, col, Xor(prev, bit))
            && (HitUpTo(g0, mem, i, vx, vy, ib, idx + 1)
                <==> HitUpTo(g0, mem, i, vx, vy, ib, idx) || (prev == 1 && Xor(prev, bit) == 0))
  {
    var g := DrawnUpTo(g0, mem, i, vx, vy, ib, idx);
    var row, col := Wrap8(vy, ib), Wrap8(vx, idx);
    DrawStep(g0, mem, i, vx, vy, ib, idx);
    HitStep(g0, mem, i, vx, vy, ib, idx);
    assert |g| == |g0| && |g[row]| == |g0[row]|;
    assert CellAt(g, row, col) == g0[row][col];
    XorOfBits(1, SpriteBit(SpriteRow(mem, i, ib), idx));
  }

  lemma NothingDrawnYet(g0: Grid, mem: seq<Byte>, i: Word, vx: Byte, vy: Byte)
    ensures DrawnUpTo(g0, mem, i, vx, vy, 0, 0) == g0
    ensures !HitUpTo(g0, mem, i, vx, vy, 0, 0)
  {
    forall r | 0 <= r < |g0|
      ensures DrawnUpTo(g0, mem, i, vx, vy, 0, 0)[r] == g0[r]
    {
    }
  }

  /** Drawing onto a 0/1 grid keeps its shape and keeps it 0/1. */
  lemma DrawnShape(g0: Grid, mem: seq<Byte>, i: Word, vx: Byte, vy: Byte, ib: nat, idx: nat, height: nat, width: nat)
    requires Shaped(g0, height, width) && Binary(g0)
    ensures Shaped(DrawnUpTo(g0, mem, i, vx, vy, ib, idx), height, width)
    ensures Binary(DrawnUpTo(g0, mem, i, vx, vy, ib, idx))
  {
    var g := DrawnUpTo(g0, mem, i, vx, vy, ib, idx);
    forall r, c | 0 <= r < |g| && 0 <= c < |g[r]|
      ensures g[r][c] <= 1
    {
      if Under(vx, vy, ib, idx, r, c) {
        XorOfBits(g0[r][c], BitAt(mem, i, vx, vy, r, c));
      }
    }
  }

  // ----- what a draw does -----

  /** Sprite line `ib`, bit `idx` lands on row `vy + ib`, column `vx + idx` (both 8-bit) and is XOR-ed into it. */
  lemma BlitCell(g0: Grid, mem: seq<Byte>, i: Word, vx: Byte, vy: Byte, n: Byte, ib: nat, idx: nat,
                 height: nat, width: nat)
    requires Shaped(g0, height, width) && Fits(|mem|, height, width, i, vx, vy, n)
    requires ib < n && idx < 8
    ensures Wrap8(vy, ib) < height && Wrap8(vx, idx) < width
    ensures Blit(g0, mem, i, vx, vy, n)[Wrap8(vy, ib)][Wrap8(vx, idx)]
            == Xor(g0[Wrap8(vy, ib)][Wrap8(vx, idx)], SpriteBit(mem[SpriteAddr(i, ib)], idx))
  {
    var row, col := Wrap8(vy, ib), Wrap8(vx, idx);
    OffsetOfWrap(vy, ib);
    OffsetOfWrap(vx, idx);
    assert Under(vx, vy, n, 0, row, col);
    assert BitAt(mem, i, vx, vy, row, col) == SpriteBit(mem[SpriteAddr(i, ib)], idx);
  }

  /** A cell that no sprite bit lands on keeps its value. */
  lemma BlitElsewhere(g0: Grid, mem: seq<Byte>, i: Word, vx: Byte, vy: Byte, n: Byte, r: nat, c: nat)
    requires r < |g0| && c < |g0[r]|
    requires forall ib, idx :: 0 <= ib < n && 0 <= idx < 8 ==> Wrap8(vy, ib) != r || Wrap8(vx, idx) != c
    ensures Blit(g0, mem, i, vx, vy, n)[r][c] == g0[r][c]
  {
    if r < 0x100 && c < 0x100 {
      WrapOfOffset(vy, r);
      WrapOfOffset(vx, c);
    }
  }

  /** Drawing the same sprite at the same place twice gives back the grid: XOR undoes itself. */
  lemma BlitTwice(g0: Grid, mem: seq<Byte>, i: Word, vx: Byte, vy: Byte, n: Byte)
    ensures Blit(Blit(g0, mem, i, vx, vy, n), mem, i, vx, vy, n) == g0
  {
    var g1 := Blit(g0, mem, i, vx, vy, n);
    var g2 := Blit(g1, mem, i, vx, vy, n);
    assert |g1| == |g0|;
    forall r | 0 <= r < |g0|
      ensures g2[r] == g0[r]
    {
      assert |g1[r]| == |g0[r]|;
      forall c | 0 <= c < |g0[r]|
        ensures g2[r][c] == g0[r][c]
      {
        if Under(vx, vy, n, 0, r, c) {
          var bit := BitAt(mem, i, vx, vy, r, c);
          assert g1[r][c] == Xor(g0[r][c], bit);
          assert g2[r][c] == Xor(g1[r][c], bit);
          XorXor(g0[r][c], bit);
        }
      }
    }
  }

  /** The collision report is raised exactly when the draw switches some lit cell off. */
  lemma CollidesIffSwitchedOff(g0: Grid, mem: seq<Byte>, i: Word, vx: Byte, vy: Byte, n: Byte)
    ensures Collides(g0, mem, i, vx, vy, n)
            <==> exists r, c :: 0 <= r < |g0| && 0 <= c < |g0[r]|
                                && g0[r][c] == 1 && Blit(g0, mem, i, vx, vy, n)[r][c] == 0
  {
    var g := Blit(g0, mem, i, vx, vy, n);
    if Collides(g0, mem, i, vx, vy, n) {
      var r, c :| 0 <= r < |g0| && 0 <= c < |g0[r]| && HitAt(g0, mem, i, vx, vy, n, 0, r, c);
      SwitchedOffIsHit(g0, mem, i, vx, vy, n, r, c);
    }
    if exists r, c :: 0 <= r < |g0| && 0 <= c < |g0[r]| && g0[r][c] == 1 && g[r][c] == 0 {
      var r, c :| 0 <= r < |g0| && 0 <= c < |g0[r]| && g0[r][c] == 1 && g[r][c] == 0;
      SwitchedOffIsHit(g0, mem, i, vx, vy, n, r, c);
    }
  }

  lemma SwitchedOffIsHit(g0: Grid, mem: seq<Byte>, i: Word, vx: Byte, vy: Byte, n: Byte, r: nat, c: nat)
    requires r < |g0| && c < |g0[r]|
    ensures (g0[r][c] == 1 && Blit(g0, mem, i, vx, vy, n)[r][c] == 0) <==> HitAt(g0, mem, i, vx, vy, n, 0, r, c)
  {
    if Under(vx, vy, n, 0, r, c) {
      XorOfBits(g0[r][c] % 2, BitAt(mem, i, vx, vy, r, c));
    }
  }

  /** Drawing onto a cleared screen never reports a collision. */
  lemma NoCollisionOnBlank(height: nat, width: nat, mem: seq<Byte>, i: Word, vx: Byte, vy: Byte, n: Byte)
    ensures !Collides(Blank(height, width), mem, i, vx, vy, n)
  {
  }

  class TerminalDisplay {
    var grid: Grid
    const height: nat
    const width: nat

    ghost predicate Valid()
      reads this
    {
      Shaped(grid, height, width) && Binary(grid)
    }

    /** The struct literal `&TerminalDisplay{Height: h, Width: w}`: no grid yet. */
    constructor(height: nat, width: nat)
      ensures this.height == height && this.width == width && grid == []
    {
      this.height := height;
      this.width := width;
      grid := [];
    }

    /** Allocate `height` rows of `width` cells and clear them. */
    method Init()
      modifies this
      ensures Valid() && grid == Blank(height, width)
    {
      grid := seq(height, _ => []);
      var r := 0;
      while r < height
        invariant 0 <= r <= height && |grid| == height
        invariant forall k :: 0 <= k < r ==> |grid[k]| == width
      {
        grid := grid[r := seq(width, _ => 0)];
        r := r + 1;
      }
      ghost var g1 := grid;
      ResetGrid();
      ZeroedIsBlank(g1, height, width);
      BlankShape(height, width);
    }

    method Clear()
      requires Valid()
      modifies this
      ensures Valid() && grid == Blank(height, width)
    {
      ResetGrid();
      ZeroedIsBlank(old(grid), height, width);
      BlankShape(height, width);
    }

    /** Set every cell of every row to 0, row by row. */
    method ResetGrid()
      modifies this
      ensures grid == Zeroed(old(grid))
    {
      ghost var g0 := grid;
      var r := 0;
      while r < |grid|
        invariant 0 <= r <= |grid| == |g0|
        invariant forall k :: 0 <= k < r ==> grid[k] == Zeroed(g0)[k]
        invariant forall k :: r <= k < |grid| ==> grid[k] == g0[k]
      {
        var c := 0;
        ghost var before := grid;
        while c < |grid[r]|
          invariant |grid| == |g0| && r < |grid| && 0 <= c <= |grid[r]| == |g0[r]|
          invariant forall j :: 0 <= j < c ==> grid[r][j] == 0
          invariant forall k :: 0 <= k < |grid| && k != r ==> grid[k] == before[k]
        {
          grid := grid[r := grid[r][c := 0]];
          c := c + 1;
        }
        assert grid[r] == Zeroed(g0)[r];
        r := r + 1;
      }
    }

    /**
     * XOR the `n`-line sprite at `memory[i..]` into the grid with its
     * top-left corner at (`vx`, `vy`), line by line and bit by bit, and
     * report whether a lit cell was switched off. The counters are bytes in
     * Go; they stay below `n`, so they never wrap.
     */
    method UpdateState(memory: array<Byte>, i: Word, vx: Byte, vy: Byte, n: Byte) returns (collision: bool)
      requires Valid() && memory.Length == 4096 && Fits(memory.Length, height, width, i, vx, vy, n)
      modifies this
      ensures Valid()
      ensures grid == Blit(old(grid), memory[..], i, vx, vy, n)
      ensures collision <==> Collides(old(grid), memory[..], i, vx, vy, n)
    {
      ghost var g0, mem := grid, memory[..];
      var ib: nat := 0;
      collision := false;
      NothingDrawnYet(g0, mem, i, vx, vy);
      while ib < n
        invariant ib <= n
        invariant grid == DrawnUpTo(g0, mem, i, vx, vy, ib, 0)
        invariant collision == HitUpTo(g0, mem, i, vx, vy, ib, 0)
      {
        var spriteRow := memory[SpriteAddr(i, ib)];
        var idx: nat := 0;
        while idx < 8
          invariant idx <= 8
          invariant grid == DrawnUpTo(g0, mem, i, vx, vy, ib, idx)
          invariant collision == HitUpTo(g0, mem, i, vx, vy, ib, idx)
        {
          var currRow := Wrap8(vy, ib);
          var currCol := Wrap8(vx, idx);
          CellStep(g0, mem, i, vx, vy, ib, idx);
          AndOne(ShiftRight(spriteRow, 7 - idx));
          var prevSet := grid[currRow][currCol];
          grid := SetCell(grid, currRow, currCol, Xor(prevSet, And(ShiftRight(spriteRow, 7 - idx), 1)));
          if prevSet == 1 && grid[currRow][currCol] == 0 {
            collision := true;
          }
          idx := idx + 1;
        }
        LineDone(g0, mem, i, vx, vy, ib);
        ib := ib + 1;
      }
      DrawnShape(g0, mem, i, vx, vy, n, 0, height, width);
    }
  }
}
