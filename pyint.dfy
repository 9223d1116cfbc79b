/**
 Python's integer bit operations on unbounded integers.

 Python integers behave as two's-complement numbers with infinitely many
 sign bits: `-5 ^ 0xFFFF` is well defined and negative.  `Bitwise` peels
 off the lowest bit of both operands until each operand is 0 (all bits
 clear) or -1 (all bits set).  Dafny's `/` and `%` with a positive divisor
 are floor division and a non-negative remainder, exactly Python's `//`,
 `%` and `>>` for such divisors.
 */
module PyInt {

  datatype BitOp = AndOp | OrOp | XorOp

  /** 2 to the power k */
  function Pow2(k: nat): (r: nat)
    ensures r >= 1
  {
    if k == 0 then 1 else 2 * Pow2(k - 1)
  }

  function Abs(a: int): nat {
    if a < 0 then -a else a
  }

  /** True when every bit of a is equal to its sign bit */
  predicate SignOnly(a: int) {
    a == 0 || a == -1
  }

  /** The operator applied to two single bits (each 0 or 1) */
  function CombineBits(op: BitOp, x: int, y: int): int {
    match op
    case AndOp => if x == 1 && y == 1 then 1 else 0
    case OrOp => if x == 1 || y == 1 then 1 else 0
    case XorOp => if x != y then 1 else 0
  }

  /** `a & b`, `a | b` or `a ^ b` on Python's unbounded integers */
  function Bitwise(op: BitOp, a: int, b: int): int
    decreases Abs(a) + Abs(b)
  {
    var bit := CombineBits(op, a % 2, b % 2);
    if SignOnly(a) && SignOnly(b) then -bit
    else 2 * Bitwise(op, a / 2, b / 2) + bit
  }

  function And(a: int, b: int): int { Bitwise(AndOp, a, b) }
  function Or(a: int, b: int): int { Bitwise(OrOp, a, b) }
  function Xor(a: int, b: int): int { Bitwise(XorOp, a, b) }

  /** `a << k` */
  function Shl(a: int, k: nat): int { a * Pow2(k) }

  /** `a >> k` (arithmetic shift, rounding toward minus infinity) */
  function Shr(a: int, k: nat): int { a / Pow2(k) }

  /** The powers of two that the driver's shifts and masks use */
  lemma Pow2Values()
    ensures Pow2(2) == 4 && Pow2(4) == 16 && Pow2(5) == 32 && Pow2(8) == 256
    ensures Pow2(12) == 4096 && Pow2(15) == 32768 && Pow2(16) == 65536
  {
    assert Pow2(1) == 2;
    assert Pow2(2) == 4;
    assert Pow2(3) == 8;
    assert Pow2(4) == 16;
    assert Pow2(5) == 32;
    assert Pow2(6) == 64;
    assert Pow2(7) == 128;
    assert Pow2(8) == 256;
    assert Pow2(9) == 512;
    assert Pow2(10) == 1024;
    assert Pow2(11) == 2048;
    assert Pow2(12) == 4096;
    assert Pow2(13) == 8192;
    assert Pow2(14) == 16384;
    assert Pow2(15) == 32768;
  }

  /** Floor division and remainder are determined by their defining equation */
  lemma DivModUnique(n: int, d: int, q: int, r: int)
    requires d > 0 && n == q * d + r && 0 <= r < d
    ensures n / d == q && n % d == r
  {
    var q0, r0 := n / d, n % d;
    assert (q0 - q) * d == r - r0 && (q - q0) * d == r0 - r;
    if q0 > q {
      MulAtLeast(q0 - q, d);
    } else if q0 < q {
      MulAtLeast(q - q0, d);
    }
  }

  lemma MulAtLeast(a: int, b: int)
    requires a >= 1 && b > 0
    ensures a * b >= b
  {
    assert a * b == (a - 1) * b + b;
  }

  /** Dividing by 2p is halving and then dividing by p */
  lemma DivModHalf(n: int, p: nat)
    requires p >= 1
    ensures n / (2 * p) == (n / 2) / p
    ensures n % (2 * p) == 2 * ((n / 2) % p) + n % 2
  {
    var q, r := (n / 2) / p, (n / 2) % p;
    assert n / 2 == q * p + r;
    assert n == q * (2 * p) + (2 * r + n % 2);
    DivModUnique(n, 2 * p, q, 2 * r + n % 2);
  }

  /** `a & 0 == 0`, `a | 0 == a`, `a ^ 0 == a` */
  lemma {:induction false} BitwiseZero(op: BitOp, a: int)
    ensures Bitwise(op, a, 0) == if op == AndOp then 0 else a
    decreases Abs(a)
  {
    if !SignOnly(a) {
      BitwiseZero(op, a / 2);
    }
  }

  /** Each of the three operators is commutative */
  lemma {:induction false} BitwiseCommutes(op: BitOp, a: int, b: int)
    ensures Bitwise(op, a, b) == Bitwise(op, b, a)
    decreases Abs(a) + Abs(b)
  {
    if !(SignOnly(a) && SignOnly(b)) {
      BitwiseCommutes(op, a / 2, b / 2);
    }
  }

  /** OR-ing a value into bits that are clear is addition:
      `(a << k) | b == a * 2^k + b` when `0 <= b < 2^k` */
  lemma {:induction false} OrDisjoint(a: nat, b: nat, k: nat)
    requires b < Pow2(k)
    ensures Or(a * Pow2(k), b) == a * Pow2(k) + b
  {
    if k == 0 {
      BitwiseZero(OrOp, a);
    } else {
      var p := Pow2(k - 1);
      var big := a * Pow2(k);
      assert big == 2 * (a * p);
      assert big % 2 == 0 && big / 2 == a * p;
      if !(SignOnly(big) && SignOnly(b)) {
        OrDisjoint(a, b / 2, k - 1);
      }
    }
  }

  /** Masking with `2^k - 1` keeps the low k bits: `x & (2^k - 1) == x % 2^k` */
  lemma {:induction false} AndLowMask(x: int, k: nat)
    ensures And(x, Pow2(k) - 1) == x % Pow2(k)
    decreases k
  {
    if k == 0 {
      BitwiseZero(AndOp, x);
    } else {
      var p := Pow2(k - 1);
      var mask := Pow2(k) - 1;
      assert mask % 2 == 1 && mask / 2 == p - 1;
      AndLowMask(x / 2, k - 1);
      DivModHalf(x, p);
    }
  }

  /** Testing one bit: `x & 2^k` is `2^k` when bit k of x is set, and 0 otherwise */
  lemma {:induction false} AndSingleBit(x: int, k: nat)
    ensures And(x, Pow2(k)) == Pow2(k) * ((x / Pow2(k)) % 2)
    decreases k
  {
    if k == 0 {
      BitwiseZero(AndOp, x / 2);
    } else {
      var p := Pow2(k - 1);
      assert Pow2(k) % 2 == 0 && Pow2(k) / 2 == p;
      AndSingleBit(x / 2, k - 1);
      DivModHalf(x, p);
    }
  }

  /** XOR with `2^k - 1` flips the low k bits and keeps the others:
      the result is `q * 2^k + (2^k - 1 - r)` where `x == q * 2^k + r` */
  lemma {:induction false} XorLowMask(x: int, k: nat)
    ensures Xor(x, Pow2(k) - 1) == (x / Pow2(k)) * Pow2(k) + (Pow2(k) - 1 - x % Pow2(k))
    decreases k
  {
    if k == 0 {
      BitwiseZero(XorOp, x);
    } else {
      var p := Pow2(k - 1);
      var mask := Pow2(k) - 1;
      assert mask % 2 == 1 && mask / 2 == p - 1;
      XorLowMask(x / 2, k - 1);
      DivModHalf(x, p);
      assert (x / 2 / p) * p * 2 == (x / Pow2(k)) * Pow2(k);
    }
  }
}
