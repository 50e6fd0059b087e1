/** Non-negative machine words as numbers, with the shifts and masks of C on them. All definitions go
    bit by bit, so that every proof about them is linear arithmetic. */
module Words {

  /** (b >> k) & 1, with the arithmetic shift for negative b. */
  function Bit(b: int, k: nat): (r: nat)
    ensures r <= 1
    decreases k
  {
    if k == 0 then b % 2 else Bit(b / 2, k - 1)
  }

  function Pow2(k: nat): (p: nat)
    ensures p >= 1
  {
    if k == 0 then 1 else 2 * Pow2(k - 1)
  }

  lemma Pow2Is32()
    ensures Pow2(32) == 0x1_0000_0000
  {
    assert Pow2(4) == 16;
    assert Pow2(8) == 0x100;
    assert Pow2(12) == 0x1000;
    assert Pow2(16) == 0x1_0000;
    assert Pow2(20) == 0x10_0000;
    assert Pow2(24) == 0x100_0000;
    assert Pow2(28) == 0x1000_0000;
  }

  function And(x: nat, y: nat): nat
    decreases x
  {
    if x == 0 then 0 else 2 * And(x / 2, y / 2) + (if x % 2 == 1 && y % 2 == 1 then 1 else 0)
  }

  function Shl(x: nat, w: nat): nat
    decreases w, x
  {
    if w == 0 then x else 2 * Shl(x, w - 1)
  }

  function Shr(x: nat, w: nat): nat
    decreases w, x
  {
    if w == 0 then x else Shr(x / 2, w - 1)
  }

  /** The w low bits of a, then the bits of m above them. */
  function Join(a: nat, w: nat, m: nat): nat
    decreases w, a
  {
    if w == 0 then m else a % 2 + 2 * Join(a / 2, w - 1, m)
  }

  function Low(x: nat, w: nat): nat {
    Join(x, w, 0)
  }

  function Ones(w: nat): nat {
    if w == 0 then 0 else 1 + 2 * Ones(w - 1)
  }

  /** The number of ones in x. */
  function Pop(x: nat): nat {
    if x == 0 then 0 else x % 2 + Pop(x / 2)
  }

  // ------------------------------------------------------------------------------- shifting

  lemma {:induction false} ShrShr(x: nat, v: nat, w: nat)
    ensures Shr(Shr(x, v), w) == Shr(x, v + w)
    decreases v
  {
    if v > 0 { ShrShr(x / 2, v - 1, w); }
  }

  lemma {:induction false} ShlShl(x: nat, v: nat, w: nat)
    ensures Shl(Shl(x, v), w) == Shl(x, v + w)
    decreases w
  {
    if w > 0 { ShlShl(x, v, w - 1); }
  }

  lemma {:induction false} ShlAdd(x: nat, y: nat, w: nat)
    ensures Shl(x + y, w) == Shl(x, w) + Shl(y, w)
    decreases w
  {
    if w > 0 { ShlAdd(x, y, w - 1); }
  }

  lemma {:induction false} ShlGrows(x: nat, v: nat, w: nat)
    requires v <= w
    ensures Shl(x, v) <= Shl(x, w)
    decreases w
  {
    if v < w { ShlGrows(x, v, w - 1); }
  }

  // -------------------------------------------------------------------------------- joining

  lemma {:induction false} JoinAdds(a: nat, w: nat, m: nat)
    requires a < Shl(1, w)
    ensures Join(a, w, m) == a + Shl(m, w)
    decreases w
  {
    if w > 0 { JoinAdds(a / 2, w - 1, m); }
  }

  lemma {:induction false} JoinParts(a: nat, w: nat, m: nat)
    requires a < Shl(1, w)
    ensures Low(Join(a, w, m), w) == a && Shr(Join(a, w, m), w) == m
    decreases w
  {
    if w > 0 {
      JoinParts(a / 2, w - 1, m);
      var rest := Join(a / 2, w - 1, m);
      assert Join(a, w, m) == a % 2 + 2 * rest;
    }
  }

  /** A word is its low bits joined with the rest. */
  lemma {:induction false} Split(x: nat, w: nat)
    ensures Low(x, w) < Shl(1, w)
    ensures x == Low(x, w) + Shl(Shr(x, w), w)
    decreases w
  {
    if w > 0 { Split(x / 2, w - 1); }
  }

  lemma {:induction false} PopSplit(x: nat, w: nat)
    ensures Pop(x) == Pop(Low(x, w)) + Pop(Shr(x, w))
    decreases w
  {
    if w > 0 {
      PopSplit(x / 2, w - 1);
      var low := Join(x / 2, w - 1, 0);
      assert Low(x, w) == x % 2 + 2 * low;
    }
  }

  lemma {:induction false} PopZero(x: nat)
    ensures Pop(x) == 0 <==> x == 0
  {
    if x > 1 { PopZero(x / 2); }
  }

  // -------------------------------------------------------------------------------- masking

  lemma {:induction false} AndZero(x: nat)
    ensures And(x, 0) == 0
  {
    if x > 0 { AndZero(x / 2); }
  }

  lemma {:induction false} AndSelf(x: nat)
    ensures And(x, x) == x
  {
    if x > 0 { AndSelf(x / 2); }
  }

  lemma {:induction false} AndJoin(x: nat, a: nat, w: nat, m: nat)
    ensures And(x, Join(a, w, m)) == Join(And(x, a), w, And(Shr(x, w), m))
    decreases w
  {
    if w > 0 {
      AndJoin(x / 2, a / 2, w - 1, m);
      AndStep(x, a);
      AndStep(x, Join(a, w, m));
    }
  }

  lemma AndStep(x: nat, y: nat)
    ensures And(x, y) == 2 * And(x / 2, y / 2) + (if x % 2 == 1 && y % 2 == 1 then 1 else 0)
  {
  }

  lemma {:induction false} AndOnes(x: nat, w: nat)
    ensures And(x, Ones(w)) == Low(x, w)
    decreases w
  {
    if w == 0 {
      AndZero(x);
    } else {
      AndOnes(x / 2, w - 1);
      AndStep(x, Ones(w));
    }
  }

  /** Masking in place and shifting down is shifting down and masking. */
  lemma MaskThenShift(x: nat, m: nat, w: nat)
    ensures Shr(And(x, Shl(m, w)), w) == And(Shr(x, w), m)
  {
    ShlGrows(1, 0, w);
    JoinAdds(0, w, m);
    AndJoin(x, 0, w, m);
    AndZero(x);
    JoinParts(0, w, And(Shr(x, w), m));
  }
}
