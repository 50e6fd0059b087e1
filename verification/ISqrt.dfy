/** The scaled integer square root: one result bit per round, no multiplication. */
module ISqrt {
  import opened Words

  const BITS := 32
  const WORD := 0x1_0000_0000_0000_0000   // one more than the largest unsigned long of the target
  const HALF := 0x1_0000_0000
  const QUARTER := 0x4000_0000            // HALF / 4: the top two bits of a half word start here

  lemma {:induction false} Pow2Below(i: nat)
    requires i < 32
    ensures Pow2(i) * 2 <= HALF
    decreases 32 - i
  {
    if i == 31 { Pow2Is32(); } else { Pow2Below(i + 1); }
  }

  lemma HalfRemainder(z: nat, q: nat, t: nat)
    requires z == q * HALF + t && t < HALF
    ensures z % HALF == t
  {
  }

  lemma ModWord(z: nat)
    ensures z % WORD % HALF == z % HALF
  {
    var r := z % WORD;
    var q: nat := z / WORD * HALF + r / HALF;
    assert z == z / WORD * WORD + r && r == r / HALF * HALF + r % HALF;
    HalfRemainder(z, q, r % HALF);
  }

  lemma TopBits(x: nat)
    ensures x / QUARTER % 4 == (x % HALF) / QUARTER
  {
    assert x == (x / HALF) * HALF + x % HALF;
    assert x / QUARTER == 4 * (x / HALF) + (x % HALF) / QUARTER;
  }

  lemma AddMultiple(k: nat, t: nat)
    ensures (k * HALF + t) % HALF == t % HALF
  {
    assert k * HALF + t == (k + t / HALF) * HALF + t % HALF;
  }

  lemma LowBits(x: nat)
    ensures (x * 4 % WORD) % HALF == (x % HALF) * 4 % HALF
  {
    ModWord(x * 4);
    var k, t := 4 * (x / HALF), (x % HALF) * 4;
    assert x * 4 == k * HALF + t;
    AddMultiple(k, t);
  }

  /** One round on the argument: the two bits that leave the low half word are the digit consumed,
      whatever stands in the high half. */
  lemma NextDigit(x: nat)
    ensures var d := x / QUARTER % 4;
      4 * (x % HALF) == d * HALF + (x * 4 % WORD) % HALF
  {
    TopBits(x);
    LowBits(x);
  }

  /** The number y with i base-4 zeros appended. */
  function Scaled(y: nat, i: nat): nat {
    if i == 0 then y else 4 * Scaled(y, i - 1)
  }

  lemma Quadruple(y: nat, s: nat)
    ensures y * ((2 * s) * (2 * s)) == 4 * (y * (s * s))
  {
    assert (2 * s) * (2 * s) == 4 * (s * s);
    var t := s * s;
    assert y * (4 * t) == 4 * (y * t);
  }

  lemma {:induction false} ScaledIsProduct(y: nat, i: nat)
    ensures Scaled(y, i) == y * (Pow2(i) * Pow2(i))
  {
    if i > 0 {
      ScaledIsProduct(y, i - 1);
      Quadruple(y, Pow2(i - 1));
    }
  }

  /** After 32 digits the prefix consumed is y * 2^32. */
  lemma FullPrefix(y: nat, p: nat, rest: nat)
    requires Scaled(y, BITS) == p * HALF + rest && rest < HALF
    ensures p == y * HALF
  {
    ScaledIsProduct(y, BITS);
    Pow2Is32();
    assert y * (HALF * HALF) == (y * HALF) * HALF;
  }

  /** The square as the sum of the first a odd numbers, the way the digit method grows it. */
  function Square(a: nat): nat {
    if a == 0 then 0 else Square(a - 1) + 2 * a - 1
  }

  lemma {:induction false} SquareIsProduct(a: nat)
    ensures Square(a) == a * a
  {
    if a > 0 {
      SquareIsProduct(a - 1);
      assert (a - 1) * (a - 1) == a * a - 2 * a + 1;
    }
  }

  /** The root part of one round. The two intermediate values, remainder and trial product, stay below
      2^35. */
  method RootRound(a0: nat, r0: nat, d: nat) returns (a: nat, r: nat)
    requires a0 * 2 < HALF && d < 4 && r0 <= 2 * a0
    ensures 2 * a0 <= a <= 2 * a0 + 1 && r <= 2 * a
    ensures Square(a) + r == 4 * (Square(a0) + r0) + d
    ensures r0 * 4 + d < 0x8_0000_0000 && a0 * 2 * 2 + 1 < 0x8_0000_0000
  {
    r := r0 * 4 + d;
    a := a0 * 2;
    var e := a * 2 + 1;
    SquareIsProduct(a0);
    SquareIsProduct(a);
    assert (2 * a0) * (2 * a0) == 4 * (a0 * a0);
    if r >= e {
      r := r - e;
      a := a + 1;
    }
  }

  /** The loop of usqrt on a 64-bit word: the result is the scaled root of the low half word. */
  method Usqrt(x0: nat) returns (a: nat)
    requires x0 < WORD
    ensures a * a <= x0 % HALF * HALF < (a + 1) * (a + 1)
    ensures a < HALF
  {
    var x: nat, r: nat := x0, 0;
    a := 0;
    ghost var p: nat, y: nat := 0, x0 % HALF;
    var i := 0;
    while i < BITS
      invariant 0 <= i <= BITS && a < Pow2(i)
      invariant Scaled(y, i) == p * HALF + x % HALF
      invariant Square(a) + r == p && r <= 2 * a
    {
      Pow2Below(i);
      NextDigit(x);
      var d := x / QUARTER % 4;
      a, r := RootRound(a, r, d);
      p := 4 * p + d;
      x := x * 4 % WORD;
      i := i + 1;
    }
    Pow2Is32();
    FullPrefix(y, p, x % HALF);
    SquareIsProduct(a);
    SquareIsProduct(a + 1);
    assert Square(a + 1) == Square(a) + 2 * a + 1;
  }

  lemma SquareMonotone(a: nat, b: nat)
    ensures a <= b ==> a * a <= b * b
  {
    if a <= b { assert b * b == a * a + (b - a) * (b + a); }
  }

  /** The bracket determines the root. */
  lemma RootUnique(p: nat, a: nat, b: nat)
    requires a * a <= p < (a + 1) * (a + 1) && b * b <= p < (b + 1) * (b + 1)
    ensures a == b
  {
    SquareMonotone(a + 1, b);
    SquareMonotone(b + 1, a);
  }

  /** The documented result, the root of x scaled by 2^16, is met exactly by the 32-bit arguments:
      above them the high bits of x are ignored. */
  lemma ScaledRootExactly(x: nat, a: nat)
    requires a * a <= x % HALF * HALF < (a + 1) * (a + 1)
    ensures a * a <= x * HALF < (a + 1) * (a + 1) <==> x < HALF
  {
    if x >= HALF {
      var y := x % HALF;
      SquareMonotone(HALF, a);
      SquareMonotone(a + 1, HALF);
      assert y * HALF < HALF * HALF <= x * HALF;
    }
  }

  /** For instance 2^32, whose root is delivered as 0. */
  lemma HighBitLost(a: nat)
    requires a * a <= HALF % HALF * HALF < (a + 1) * (a + 1)
    ensures a == 0 && HALF * HALF >= (a + 1) * (a + 1)
  {
  }
}
