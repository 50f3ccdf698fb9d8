/**
 * C#'s `long` arithmetic on unbounded integers: the range, the wrap-around of
 * unchecked `+`, `-` and `*`, division and remainder that truncate toward zero,
 * the bitwise operators on the two's-complement pattern, and the conversion to
 * `double`.
 */
module Int64 {

  const Modulus: int := 0x1_0000_0000_0000_0000
  const MinValue: int := -0x8000_0000_0000_0000
  const MaxValue: int := 0x7FFF_FFFF_FFFF_FFFF

  predicate InRange(x: int) {
    MinValue <= x <= MaxValue
  }

  function Abs(x: int): nat {
    if x < 0 then -x else x
  }

  /** Unchecked 64-bit arithmetic: the value in range that is congruent to `x` modulo 2^64. */
  function Wrap(x: int): (r: int)
    ensures InRange(r)
    ensures InRange(x) ==> r == x
  {
    (x - MinValue) % Modulus + MinValue
  }

  lemma MulNonneg(x: int, y: int)
    requires x >= 0 && y >= 0
    ensures x * y >= 0
  {
  }

  /** Bounds on a quotient of naturals, which the solver does not find unaided. */
  lemma DivBound(x: int, y: int)
    requires x >= 0 && y >= 1
    ensures 0 <= x / y <= x
    ensures y >= 2 ==> x / y <= x / 2
  {
    var q := x / y;
    assert q * y + x % y == x;
    if q < 0 {
      MulNonneg(-q, y);
      assert false;
    }
    MulNonneg(q, y - 1);
    assert q * (y - 1) == q * y - q;
    if y >= 2 {
      MulNonneg(q, y - 2);
      assert q * (y - 2) == q * y - 2 * q;
    }
  }

  /** Euclidean remainder is determined by any decomposition `a == q * b + m` with `0 <= m < |b|`. */
  lemma ModUnique(a: int, b: int, q: int, m: int)
    requires b != 0 && a == q * b + m && 0 <= m < Abs(b)
    ensures a % b == m
  {
    var q', m' := a / b, a % b;
    assert a == q' * b + m';
    var d := q - q';
    assert d * b == m' - m by {
      assert d * b == q * b - q' * b;
    }
  }

  /** `a / b` on `long`s: the quotient truncated toward zero. */
  function TruncDiv(a: int, b: int): (q: int)
    requires b != 0
    ensures Abs(q) == Abs(a) / Abs(b)
    ensures q != 0 ==> ((q < 0) <==> ((a < 0) != (b < 0)))
  {
    DivBound(Abs(a), Abs(b));
    var magnitude: int := Abs(a) / Abs(b);
    if (a < 0) == (b < 0) then magnitude else -magnitude
  }

  /** `a % b` on `long`s: the remainder of truncating division, which has the sign of the dividend. */
  function TruncRem(a: int, b: int): (r: int)
    requires b != 0
    ensures Abs(r) < Abs(b)
    ensures r != 0 ==> ((r < 0) <==> (a < 0))
  {
    var magnitude: int := Abs(a) % Abs(b);
    if a < 0 then -magnitude else magnitude
  }

  /** Truncating quotient and remainder recompose the dividend, and the remainder is no larger than it. */
  lemma TruncDivRem(a: int, b: int)
    requires b != 0
    ensures a == TruncDiv(a, b) * b + TruncRem(a, b)
    ensures Abs(TruncRem(a, b)) <= Abs(a)
  {
    var m, rem := Abs(a) / Abs(b), Abs(a) % Abs(b);
    var product := m * Abs(b);
    assert Abs(a) == product + rem;
    DivBound(Abs(a), Abs(b));
    MulNonneg(m, Abs(b));
    assert TruncDiv(a, b) * b == (if a < 0 then -product else product) by {
      if b < 0 {
        NegateFactor(m, b);
      }
      if (a < 0) != (b < 0) {
        NegateFactor(m, b);
      }
    }
  }

  lemma NegateFactor(x: int, y: int)
    ensures (-x) * y == -(x * y) && x * (-y) == -(x * y)
  {
  }

  /** `Wrap` gives the one `long` congruent to its argument. */
  lemma WrapUnique(x: int, y: int)
    requires InRange(y) && (x - y) % Modulus == 0
    ensures Wrap(x) == y
  {
    var k := (x - y) / Modulus;
    assert x - y == k * Modulus;
    ModUnique(x - MinValue, Modulus, k, y - MinValue);
  }

  /** `Wrap` changes its argument by a multiple of 2^64. */
  lemma WrapCongruent(x: int)
    ensures (x - Wrap(x)) % Modulus == 0
  {
    var k := (x - MinValue) / Modulus;
    assert x - Wrap(x) == k * Modulus;
    ModUnique(x - Wrap(x), Modulus, k, 0);
  }

  /** Unchecked subtraction undoes unchecked addition. */
  lemma WrapAddSub(a: int, b: int)
    requires InRange(a)
    ensures Wrap(Wrap(a + b) - b) == a
  {
    var w := Wrap(a + b);
    WrapCongruent(a + b);
    var k := (a + b - w) / Modulus;
    assert a + b - w == k * Modulus;
    NegateFactor(k, Modulus);
    ModUnique(w - b - a, Modulus, -k, 0);
    WrapUnique(w - b, a);
  }

  /** Unchecked negation is its own inverse on `long`s, `MinValue` included. */
  lemma WrapNegNeg(a: int)
    requires InRange(a)
    ensures Wrap(-Wrap(-a)) == a
  {
    var w := Wrap(-a);
    WrapCongruent(-a);
    var k := (-a - w) / Modulus;
    assert -a - w == k * Modulus;
    ModUnique(-w - a, Modulus, k, 0);
    WrapUnique(-w, a);
  }

  /** A quotient of `long`s is a `long`, except for `MinValue / -1`, which C# reports as an overflow. */
  lemma TruncDivInRange(a: int, b: int)
    requires InRange(a) && InRange(b) && b != 0
    requires !(a == MinValue && b == -1)
    ensures InRange(TruncDiv(a, b))
  {
    DivBound(Abs(a), Abs(b));
  }

  /**
   * The remainder of flooring division, whose sign follows the divisor: the value
   * the idiom `(a % b + b) % b` is written to compute.
   */
  function FloorMod(a: int, b: int): (r: int)
    requires b != 0
    ensures b > 0 ==> 0 <= r < b
    ensures b < 0 ==> b < r <= 0
    ensures (a - r) % b == 0
  {
    var m := a % b;
    assert a == (a / b) * b + m;
    if b < 0 && m != 0 then
      ModUnique(a - (m + b), b, a / b - 1, 0);
      m + b
    else
      ModUnique(a - m, b, a / b, 0);
      m
  }

  /** When `a % b + b` does not overflow, the source's idiom computes the flooring remainder. */
  lemma ModIdiomIsFloorMod(a: int, b: int)
    requires b != 0 && InRange(TruncRem(a, b) + b)
    ensures TruncRem(TruncRem(a, b) + b, b) == FloorMod(a, b)
  {
    TruncDivRem(a, b);
    var q, t := TruncDiv(a, b), TruncRem(a, b);
    var s := t + b;
    assert a == (q - 1) * b + s by {
      assert (q - 1) * b == q * b - b;
    }
    if b > 0 {
      if t >= 0 {
        ModUnique(s, b, 1, t);
        ModUnique(a, b, q, t);
        assert TruncRem(s, b) == t;
      } else {
        ModUnique(s, b, 0, s);
        ModUnique(a, b, q - 1, s);
        assert TruncRem(s, b) == s;
      }
    } else {
      if t > 0 {
        ModUnique(a, b, q, t);
        assert TruncRem(s, b) == s by {
          ModUnique(Abs(s), Abs(b), 0, Abs(s));
        }
      } else if t == 0 {
        ModUnique(a, b, q, 0);
        assert TruncRem(s, b) == 0 by {
          ModUnique(Abs(s), Abs(b), 1, 0);
        }
      } else {
        ModUnique(a, b, q + 1, t - b) by {
          assert (q + 1) * b == q * b + b;
        }
        assert TruncRem(s, b) == t by {
          ModUnique(Abs(s), Abs(b), 1, -t) by {
            assert Abs(s) == 1 * Abs(b) + (-t);
          }
        }
      }
    }
  }

  function Pow2(n: nat): (r: nat)
    ensures r >= 1
  {
    if n == 0 then 1 else 2 * Pow2(n - 1)
  }

  lemma {:induction false} Pow2Add(a: nat, b: nat)
    ensures Pow2(a + b) == Pow2(a) * Pow2(b)
  {
    if a > 0 {
      Pow2Add(a - 1, b);
      assert Pow2(a + b) == 2 * Pow2(a - 1 + b);
      assert 2 * (Pow2(a - 1) * Pow2(b)) == (2 * Pow2(a - 1)) * Pow2(b);
    }
  }

  /** The number of bits in a `long`. */
  const Bits: nat := 64

  /** A `long` has 64 bits. */
  lemma Pow2OfBits()
    ensures Pow2(Bits) == Modulus
  {
    assert Pow2(2) == 4;
    Pow2Add(2, 2);
    assert Pow2(4) == 16;
    Pow2Add(4, 4);
    assert Pow2(8) == 0x100;
    Pow2Add(8, 8);
    assert Pow2(16) == 0x1_0000;
    Pow2Add(16, 16);
    assert Pow2(32) == 0x1_0000_0000;
    Pow2Add(32, 32);
  }

  /** The low 64 bits of `x` read as a natural number: for a `long`, its two's-complement pattern. */
  function Unsigned(x: int): (u: nat)
    ensures u < Modulus
    ensures InRange(x) ==> u == (if x < 0 then x + Modulus else x) && Wrap(u) == x
  {
    x % Modulus
  }

  /** The three bitwise operators `&`, `|` and `^`. */
  datatype BitwiseKind = AndBits | OrBits | XorBits

  function CombineBit(op: BitwiseKind, a: bool, b: bool): bool {
    match op
    case AndBits => a && b
    case OrBits => a || b
    case XorBits => a != b
  }

  /** The operator applied bit by bit to the low `width` bits of `x` and `y`. */
  function BitOp(op: BitwiseKind, x: nat, y: nat, width: nat): (r: nat)
    ensures r < Pow2(width)
    decreases width
  {
    if width == 0 then 0
    else 2 * BitOp(op, x / 2, y / 2, width - 1) + (if CombineBit(op, x % 2 == 1, y % 2 == 1) then 1 else 0)
  }

  /** Each operator is commutative. */
  lemma {:induction false} BitOpCommutes(op: BitwiseKind, x: nat, y: nat, width: nat)
    ensures BitOp(op, x, y, width) == BitOp(op, y, x, width)
    decreases width
  {
    if width > 0 {
      BitOpCommutes(op, x / 2, y / 2, width - 1);
    }
  }

  /** On a pattern of `width` bits, `x & x` and `x | x` give `x`, and `x ^ x` gives 0. */
  lemma {:induction false} BitOpSelf(x: nat, width: nat)
    requires x < Pow2(width)
    ensures BitOp(AndBits, x, x, width) == x
    ensures BitOp(OrBits, x, x, width) == x
    ensures BitOp(XorBits, x, x, width) == 0
    decreases width
  {
    if width > 0 {
      BitOpSelf(x / 2, width - 1);
    }
  }

  /** Exclusive or with all ones flips every bit: it subtracts from the largest pattern. */
  lemma {:induction false} XorAllOnes(x: nat, width: nat)
    requires x < Pow2(width)
    ensures BitOp(XorBits, x, Pow2(width) - 1, width) == Pow2(width) - 1 - x
    decreases width
  {
    if width > 0 {
      var ones := Pow2(width) - 1;
      assert ones / 2 == Pow2(width - 1) - 1 && ones % 2 == 1;
      XorAllOnes(x / 2, width - 1);
    }
  }

  /** `x & y`, `x | y` or `x ^ y` on two `long`s. */
  function Bitwise(op: BitwiseKind, x: int, y: int): (r: int)
    ensures InRange(r)
  {
    Wrap(BitOp(op, Unsigned(x), Unsigned(y), Bits))
  }

  /** `x & x == x`, `x | x == x` and `x ^ x == 0` on `long`s. */
  lemma BitwiseSelf(x: int)
    requires InRange(x)
    ensures Bitwise(AndBits, x, x) == x && Bitwise(OrBits, x, x) == x
    ensures Bitwise(XorBits, x, x) == 0
  {
    Pow2OfBits();
    BitOpSelf(Unsigned(x), Bits);
  }

  /** The pattern of `x ^ -1` is the largest pattern less that of `x`. */
  lemma XorWithAllOnesPattern(x: int)
    ensures BitOp(XorBits, Unsigned(x), Unsigned(-1), Bits) == Modulus - 1 - Unsigned(x)
  {
    Pow2OfBits();
    XorAllOnes(Unsigned(x), Bits);
    assert Unsigned(-1) == Pow2(Bits) - 1;
  }

  /** `~x`, which C# defines as `-x - 1`, is the pattern `x ^ -1`: every bit flipped. */
  lemma ComplementIsXorAllOnes(x: int)
    requires InRange(x)
    ensures Bitwise(XorBits, x, -1) == -x - 1
  {
    XorWithAllOnesPattern(x);
    var flipped := Modulus - 1 - Unsigned(x);
    assert Bitwise(XorBits, x, -1) == Wrap(flipped);
    if x >= 0 {
      assert flipped == (-x - 1) + Modulus;
      WrapOfShifted(-x - 1);
      assert Wrap(flipped) == -x - 1;
    } else {
      assert flipped == -x - 1;
      assert Wrap(flipped) == -x - 1;
    }
  }

  /** Adding 2^64 to a `long` and wrapping gives it back. */
  lemma WrapOfShifted(y: int)
    requires InRange(y)
    ensures Wrap(y + Modulus) == y
  {
    assert (y + Modulus - MinValue) % Modulus == y - MinValue;
  }

  const TwoTo53: int := 0x20_0000_0000_0000

  /** The spacing of the doubles around a magnitude `m`: the least power of two `unit` with `m < 2^53 * unit`. */
  function DoubleSpacing(m: nat, unit: nat): (r: nat)
    requires unit >= 1
    ensures r >= unit && m < TwoTo53 * r
    decreases m - unit
  {
    if m < TwoTo53 * unit then unit else DoubleSpacing(m, 2 * unit)
  }

  /**
   * `(double)x` for an integer `x`, as the integer value of that double: the
   * nearest multiple of the spacing at `x`'s magnitude, ties to the even multiple.
   */
  function ToDouble(x: int): (r: int)
    ensures Abs(x) <= TwoTo53 ==> r == x
    ensures (x < 0 ==> r <= 0) && (x >= 0 ==> r >= 0)
  {
    if Abs(x) <= TwoTo53 then x
    else
      var unit := DoubleSpacing(Abs(x), 1);
      var q := Abs(x) / unit;
      var rest := Abs(x) % unit;
      DivBound(Abs(x), unit);
      MulNonneg(q, unit);
      MulNonneg(q + 1, unit);
      var rounded := if rest * 2 > unit || (rest * 2 == unit && q % 2 == 1) then (q + 1) * unit else q * unit;
      if x < 0 then -rounded else rounded
  }
}
