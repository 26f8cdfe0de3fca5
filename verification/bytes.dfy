/**
 * Go's fixed-width unsigned integers as bounded integers: `byte` (`uint8`)
 * and `uint16`. Wrap-around is written out as `% 0x100` and `% 0x10000`
 * where the Go code wraps silently, and the bitwise operators are defined
 * bit by bit, least significant bit first.
 */
module Bytes {

  type Byte = x: int | 0 <= x < 0x100
  type Word = x: int | 0 <= x < 0x10000

  function Pow2(k: nat): (p: nat)
    ensures p >= 1
  {
    if k == 0 then 1 else 2 * Pow2(k - 1)
  }

  datatype BitOp = AndOp | OrOp | XorOp

  function ApplyBit(op: BitOp, p: nat, q: nat): (r: nat)
    requires p < 2 && q < 2
    ensures r < 2
  {
    match op
    case AndOp => p * q
    case OrOp => if p + q > 0 then 1 else 0
    case XorOp => (p + q) % 2
  }

  /**
   * `op` applied to the low `width` bits of `a` and `b`, bit by bit. All
   * three operators map two 0 bits to 0, so once both operands are used up
   * the remaining bits are 0.
   */
  function Bitwise(op: BitOp, a: nat, b: nat, width: nat): (r: nat)
    ensures r < Pow2(width)
    decreases width
  {
    if width == 0 || a + b == 0 then 0
    else 2 * Bitwise(op, a / 2, b / 2, width - 1) + ApplyBit(op, a % 2, b % 2)
  }

  /** Go's `a & b`, `a | b` and `a ^ b` on bytes. */
  function And(a: Byte, b: Byte): Byte { Bitwise(AndOp, a, b, 8) }
  function Or(a: Byte, b: Byte): Byte { Bitwise(OrOp, a, b, 8) }
  function Xor(a: Byte, b: Byte): Byte { Bitwise(XorOp, a, b, 8) }

  /** `a >> k` on an unsigned value: `k` halvings. */
  function ShiftRight(a: nat, k: nat): (r: nat)
    ensures r <= a
  {
    if k == 0 then a else ShiftRight(a / 2, k - 1)
  }

  /** Bit `k` of `a`, that is `(a >> k) & 0x1`. */
  function BitOf(a: nat, k: nat): (r: nat)
    ensures r < 2
  {
    ShiftRight(a, k) % 2
  }

  /** XOR with the same value twice gives back the low bits of the start value. */
  lemma {:induction false} XorTwice(a: nat, b: nat, width: nat)
    ensures Bitwise(XorOp, Bitwise(XorOp, a, b, width), b, width) == a % Pow2(width)
    decreases width
  {
    if width > 0 {
      var x := Bitwise(XorOp, a, b, width);
      var high, low := Bitwise(XorOp, a / 2, b / 2, width - 1), ApplyBit(XorOp, a % 2, b % 2);
      BitwiseStep(XorOp, a, b, width);
      assert x == 2 * high + low;
      Halves(high, low);
      assert x / 2 == high && x % 2 == low;
      BitwiseStep(XorOp, x, b, width);
      assert Bitwise(XorOp, x, b, width) == 2 * Bitwise(XorOp, high, b / 2, width - 1) + ApplyBit(XorOp, low, b % 2);
      XorTwice(a / 2, b / 2, width - 1);
      XorBitTwice(a % 2, b % 2);
      ModOfDouble(a, Pow2(width - 1));
      assert Pow2(width) == 2 * Pow2(width - 1);
    }
  }

  lemma XorBitTwice(p: nat, q: nat)
    requires p < 2 && q < 2
    ensures ApplyBit(XorOp, ApplyBit(XorOp, p, q), q) == p
  {
    if p == 0 {
      if q == 0 { assert ApplyBit(XorOp, 0, 0) == 0; } else { assert ApplyBit(XorOp, 0, 1) == 1; }
    } else {
      if q == 0 { assert ApplyBit(XorOp, 1, 0) == 1; } else { assert ApplyBit(XorOp, 1, 1) == 0; }
    }
  }

  /** On bytes, XOR-ing the same value in twice changes nothing. */
  lemma XorXor(a: Byte, b: Byte)
    ensures Xor(Xor(a, b), b) == a
  {
    XorTwice(a, b, 8);
    ByteMod(a);
  }

  lemma ByteMod(a: Byte)
    ensures a % Pow2(8) == a
  {
    assert Pow2(8) == 0x100;
  }

  /** The lowest bit is `op` of the operands' lowest bits, the rest is `op` of the halves. */
  lemma BitwiseStep(op: BitOp, a: nat, b: nat, width: nat)
    requires width > 0
    ensures Bitwise(op, a, b, width) == 2 * Bitwise(op, a / 2, b / 2, width - 1) + ApplyBit(op, a % 2, b % 2)
  {
    if a + b == 0 {
      assert a / 2 + b / 2 == 0;
    }
  }

  lemma Halves(y: nat, r: nat)
    requires r < 2
    ensures (2 * y + r) / 2 == y && (2 * y + r) % 2 == r
  {}

  lemma ModOfDouble(a: nat, p: nat)
    requires p >= 1
    ensures a % (2 * p) == 2 * ((a / 2) % p) + a % 2
  {
    var q := a / 2;
    assert a == 2 * q + a % 2;
    assert q == p * (q / p) + q % p;
    assert a == (2 * p) * (q / p) + (2 * (q % p) + a % 2);
    DivModUnique(a, 2 * p, q / p, 2 * (q % p) + a % 2);
  }

  lemma DivModUnique(a: int, d: int, q: int, r: int)
    requires d > 0 && 0 <= r < d && a == d * q + r
    ensures a % d == r
  {
    var q0, r0 := a / d, a % d;
    assert d * (q - q0) == r0 - r;
    if q > q0 { MulAtLeast(d, q - q0); }
    if q < q0 { MulAtLeast(d, q0 - q); }
  }

  lemma MulAtLeast(d: int, k: int)
    requires d > 0 && k >= 1
    ensures d * k >= d
  {}

  /** Masking with `0x1` keeps the lowest bit. */
  lemma AndOne(a: Byte)
    ensures And(a, 1) == a % 2
  {
    var low := a % 2;
    BitwiseStep(AndOp, a, 1, 8);
    assert And(a, 1) == 2 * Bitwise(AndOp, a / 2, 0, 7) + ApplyBit(AndOp, low, 1);
    AndZero(a / 2, 7);
    assert ApplyBit(AndOp, low, 1) == low;
  }

  lemma {:induction false} AndZero(a: nat, width: nat)
    ensures Bitwise(AndOp, a, 0, width) == 0
    decreases width
  {
    if width > 0 {
      BitwiseStep(AndOp, a, 0, width);
      AndZero(a / 2, width - 1);
    }
  }

  /** Masking with `2^k - 1` keeps the low `k` bits: `a & (2^k - 1) == a % 2^k`. */
  lemma {:induction false} AndLowMask(a: nat, k: nat, width: nat)
    requires k <= width
    ensures Bitwise(AndOp, a, Pow2(k) - 1, width) == a % Pow2(k)
    decreases k
  {
    if k == 0 {
      AndZero(a, width);
    } else {
      var p := Pow2(k - 1);
      var m := Pow2(k) - 1;
      assert m == 2 * (p - 1) + 1;
      calc {
        Bitwise(AndOp, a, m, width);
      == { BitwiseStep(AndOp, a, m, width); Halves(p - 1, 1); }
        2 * Bitwise(AndOp, a / 2, p - 1, width - 1) + ApplyBit(AndOp, a % 2, 1);
      == { AndLowMask(a / 2, k - 1, width - 1); }
        2 * ((a / 2) % p) + a % 2;
      == { ModOfDouble(a, p); }
        a % Pow2(k);
      }
    }
  }

  /** XOR of a 0/1 cell with a 0/1 bit, as the display uses it. */
  lemma XorOfBits(p: nat, q: nat)
    requires p < 2 && q < 2
    ensures Xor(p, q) == (p + q) % 2
  {
    BitwiseStep(XorOp, p, q, 8);
    assert p / 2 == 0 && q / 2 == 0 && p % 2 == p && q % 2 == q;
    assert Xor(p, q) == 2 * Bitwise(XorOp, 0, 0, 7) + ApplyBit(XorOp, p, q);
  }

  /** Bit `k` of a bitwise result is the operator applied to bit `k` of each operand. */
  lemma {:induction false} BitwiseBit(op: BitOp, a: nat, b: nat, width: nat, k: nat)
    requires k < width
    ensures BitOf(Bitwise(op, a, b, width), k) == ApplyBit(op, BitOf(a, k), BitOf(b, k))
    decreases width
  {
    var high := Bitwise(op, a / 2, b / 2, width - 1);
    var low := ApplyBit(op, a % 2, b % 2);
    BitwiseStep(op, a, b, width);
    Halves(high, low);
    if k > 0 {
      BitwiseBit(op, a / 2, b / 2, width - 1, k - 1);
      assert BitOf(2 * high + low, k) == BitOf(high, k - 1);
    }
  }

  /** `a >> k` is division by 2^k. */
  lemma {:induction false} ShiftRightIsDiv(a: nat, k: nat)
    ensures ShiftRight(a, k) == a / Pow2(k)
  {
    if k > 0 {
      ShiftRightIsDiv(a / 2, k - 1);
      DivDiv(a, 2, Pow2(k - 1));
    }
  }

  lemma DivDiv(a: nat, p: nat, q: nat)
    requires p > 0 && q > 0
    ensures a / p / q == a / (p * q)
  {
    var d := a / p / q;
    var r := a % p + p * (a / p % q);
    assert a / p == q * d + a / p % q;
    assert a == p * (a / p) + a % p;
    assert a == (p * q) * d + r;
    assert r < p * q by {
      assert a / p % q <= q - 1;
      assert p * (a / p % q) <= p * (q - 1);
    }
    DivIsUnique(a, p * q, d, r);
  }

  lemma DivIsUnique(a: int, d: int, q: int, r: int)
    requires d > 0 && 0 <= r < d && a == d * q + r
    ensures a / d == q
  {
    DivModUnique(a, d, q, r);
  }
}
