/**
 * The numeral strings produced by Go's `fmt` verbs that the interpreter
 * and the disassembler use: `%X` (upper-case hex), `%x` (lower-case hex),
 * `%d` (decimal) and the zero-padded `%04X` / `%04x`, together with
 * `Value`, the reading back of a numeral, which is their inverse.
 */
module Numerals {

  /**
   * The digit character for `d` in bases up to 16: a decimal digit below
   * 10, otherwise a letter, upper-case for `%X` and lower-case for `%x`.
   */
  function DigitChar(d: nat, upper: bool): (c: char)
    requires d < 16
    ensures IsDigitChar(c) && DigitValue(c) == d
    ensures d < 10 <==> '0' <= c <= '9'
    ensures 10 <= d ==> (upper <==> 'A' <= c <= 'F')
    ensures InCaseChar(c, upper)
  {
    if d < 10 then ('0' as int + d) as char
    else if upper then ('A' as int + d - 10) as char
    else ('a' as int + d - 10) as char
  }

  predicate IsDigitChar(c: char) {
    '0' <= c <= '9' || 'a' <= c <= 'f' || 'A' <= c <= 'F'
  }

  /** `c` is no letter of the other case than `upper` asks for. */
  predicate InCaseChar(c: char, upper: bool) {
    if upper then !('a' <= c <= 'z') else !('A' <= c <= 'Z')
  }

  /** Every letter of `s` is upper-case (`upper`) or every letter is lower-case (`!upper`). */
  predicate InCase(s: string, upper: bool) {
    forall k :: 0 <= k < |s| ==> InCaseChar(s[k], upper)
  }

  function DigitValue(c: char): (d: nat)
    requires IsDigitChar(c)
    ensures d < 16
  {
    if '0' <= c <= '9' then c as int - '0' as int
    else if 'a' <= c <= 'f' then c as int - 'a' as int + 10
    else c as int - 'A' as int + 10
  }

  /** `n` written in `base` without leading zeros, as `%d`, `%X` and `%x` print it. */
  function Numeral(n: nat, base: nat, upper: bool): (s: string)
    requires 2 <= base <= 16
    ensures |s| >= 1 && AllDigits(s, base) && InCase(s, upper)
    decreases n
  {
    if n < base then [DigitChar(n, upper)]
    else
      DivStep(n, base);
      var a, c := Numeral(n / base, base, upper), DigitChar(n % base, upper);
      AllDigitsAppend(a, c, base);
      a + [c]
  }

  lemma DivStep(n: nat, base: nat)
    requires 2 <= base <= n
    ensures n / base < n && n % base < base
  {}

  lemma AllDigitsAppend(s: string, c: char, base: nat)
    requires AllDigits(s, base) && IsDigitChar(c) && DigitValue(c) < base
    ensures AllDigits(s + [c], base)
  {}

  predicate AllDigits(s: string, base: nat) {
    forall k :: 0 <= k < |s| ==> IsDigitChar(s[k]) && DigitValue(s[k]) < base
  }

  /** The number a string of digits denotes in `base`, most significant digit first. */
  function Value(s: string, base: nat): nat
    requires AllDigits(s, base)
  {
    if s == [] then 0 else Value(s[..|s| - 1], base) * base + DigitValue(s[|s| - 1])
  }

  function Pow(base: nat, k: nat): nat {
    if k == 0 then 1 else base * Pow(base, k - 1)
  }

  /**
   * `%0<w>X`: pad a numeral on the left with zeros up to width `w`. A
   * numeral of `w` digits or more is left as it is.
   */
  function PadZero(s: string, w: nat): (p: string)
    ensures |p| == if |s| >= w then |s| else w
    ensures |s| >= w ==> p == s
  {
    if |s| >= w then s else seq(w - |s|, _ => '0') + s
  }

  /**
   * Padding puts only '0's in front of the numeral, so it keeps the case
   * of the numeral's letters.
   */
  lemma PaddedCase(s: string, w: nat, upper: bool)
    ensures var p := PadZero(s, w);
      && p[|p| - |s|..] == s
      && (forall k :: 0 <= k < |p| - |s| ==> p[k] == '0')
      && (InCase(p, upper) <==> InCase(s, upper))
  {
    var p := PadZero(s, w);
    if |s| < w {
      var zeros := seq(w - |s|, _ => '0');
      assert p == zeros + s;
      assert p[|zeros|..] == s;
      forall k | 0 <= k < |s|
        ensures p[|zeros| + k] == s[k]
      {
      }
    }
  }

  /** Reading a numeral back gives the number that was written. */
  lemma {:induction false} ValueOfNumeral(n: nat, base: nat, upper: bool)
    requires 2 <= base <= 16
    ensures Value(Numeral(n, base, upper), base) == n
    decreases n
  {
    if n >= base {
      ValueOfNumeral(n / base, base, upper);
      ValueOfLastDigit(n, base, upper);
      DivMod(n, base);
    } else {
      ValueOfSingleDigit(n, base, upper);
    }
  }

  lemma ValueOfSingleDigit(n: nat, base: nat, upper: bool)
    requires 2 <= base <= 16 && n < base
    ensures Value(Numeral(n, base, upper), base) == n
  {
    var c := DigitChar(n, upper);
    assert Numeral(n, base, upper) == [c];
    assert [c][..0] == [];
    assert Value([c], base) == Value([], base) * base + DigitValue(c);
  }

  lemma ValueOfLastDigit(n: nat, base: nat, upper: bool)
    requires 2 <= base <= n && base <= 16
    ensures Value(Numeral(n, base, upper), base)
         == Value(Numeral(n / base, base, upper), base) * base + n % base
  {
    var a, c := Numeral(n / base, base, upper), DigitChar(n % base, upper);
    ValueOfAppend(a, c, base);
  }

  /** A numeral has no leading zero, except the numeral of zero itself. */
  lemma {:induction false} NumeralIsCanonical(n: nat, base: nat, upper: bool)
    requires 2 <= base <= 16
    ensures (Numeral(n, base, upper)[0] == '0') <==> n == 0
    decreases n
  {
    if n >= base {
      NumeralIsCanonical(n / base, base, upper);
      assert Numeral(n, base, upper)[0] == Numeral(n / base, base, upper)[0];
    } else {
      DigitZero(n, upper);
    }
  }

  lemma DigitZero(d: nat, upper: bool)
    requires d < 16
    ensures (DigitChar(d, upper) == '0') <==> d == 0
  {
    assert DigitValue('0') == 0;
  }

  /** A number below `base^k` is written with at most `k` digits. */
  lemma {:induction false} NumeralWidth(n: nat, base: nat, upper: bool, k: nat)
    requires 2 <= base <= 16
    requires k >= 1 && n < Pow(base, k)
    ensures |Numeral(n, base, upper)| <= k
    decreases k
  {
    if n >= base {
      assert Pow(base, 1) == base;
      DivMod(n, base);
      QuotientBound(n / base, n % base, base, Pow(base, k - 1));
      NumeralWidth(n / base, base, upper, k - 1);
    }
  }

  lemma ValueOfAppend(s: string, c: char, base: nat)
    requires AllDigits(s, base) && IsDigitChar(c) && DigitValue(c) < base
    ensures AllDigits(s + [c], base) && Value(s + [c], base) == Value(s, base) * base + DigitValue(c)
  {
    assert (s + [c])[..|s|] == s;
  }

  lemma DivMod(n: nat, base: nat)
    requires base > 0
    ensures n == (n / base) * base + n % base
  {}

  lemma QuotientBound(q: nat, r: nat, base: nat, p: nat)
    requires r < base && q * base + r < base * p
    ensures q < p
  {}

  /** Leading zeros do not change the value of a numeral. */
  lemma ValueOfPadded(s: string, base: nat, w: nat)
    requires 2 <= base <= 16 && AllDigits(s, base)
    ensures AllDigits(PadZero(s, w), base) && Value(PadZero(s, w), base) == Value(s, base)
  {
    if |s| < w {
      ValueOfZeros(w - |s|, s, base);
    }
  }

  lemma {:induction false} ValueOfZeros(k: nat, s: string, base: nat)
    requires 2 <= base <= 16 && AllDigits(s, base)
    ensures AllDigits(seq(k, _ => '0') + s, base) && Value(seq(k, _ => '0') + s, base) == Value(s, base)
    decreases k
  {
    if k > 0 {
      var z: string := seq(k - 1, _ => '0');
      ValueOfZeros(k - 1, s, base);
      assert seq(k, _ => '0') + s == "0" + (z + s);
      ZeroPrefixValue(z + s, base);
    } else {
      assert seq(k, _ => '0') + s == s;
    }
  }

  lemma {:induction false} ZeroPrefixValue(s: string, base: nat)
    requires 2 <= base <= 16 && AllDigits(s, base)
    ensures AllDigits("0" + s, base) && Value("0" + s, base) == Value(s, base)
    decreases |s|
  {
    var z := "0" + s;
    if s != [] {
      assert z[..|z| - 1] == "0" + s[..|s| - 1];
      ZeroPrefixValue(s[..|s| - 1], base);
    }
  }
}
