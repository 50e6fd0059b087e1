/** The parallel bit count: neighbouring fields of a word are added pairwise, five times over. */
module ParallelSum {
  import opened Words

  /** The sum of the k lowest fields of x, each w bits wide. */
  function Sum(x: nat, w: nat, k: nat): nat
    decreases k, x
  {
    if k == 0 then 0 else Low(x, w) + Sum(Shr(x, w), w, k - 1)
  }

  /** k fields of w ones, separated by fields of w zeros. */
  function Mask(w: nat, k: nat): nat
    decreases k, w
  {
    if k == 0 then 0 else Join(Ones(w), w, Join(0, w, Mask(w, k - 1)))
  }

  /** Odd fields moved down and added to the even ones. */
  function PairUp(x: nat, w: nat, k: nat): nat {
    And(Shr(x, w), Mask(w, k)) + And(x, Mask(w, k))
  }

  lemma EvenFields(x: nat, w: nat, k: nat)
    requires k > 0
    ensures And(x, Mask(w, k)) == Low(x, w) + Shl(And(Shr(x, 2 * w), Mask(w, k - 1)), 2 * w)
  {
    var rest := And(Shr(x, 2 * w), Mask(w, k - 1));
    AndJoin(x, Ones(w), w, Join(0, w, Mask(w, k - 1)));
    AndOnes(x, w);
    AndJoin(Shr(x, w), 0, w, Mask(w, k - 1));
    AndZero(Shr(x, w));
    ShrShr(x, w, w);
    assert And(x, Mask(w, k)) == Join(Low(x, w), w, Join(0, w, rest));
    ShlGrows(1, 0, w);
    JoinAdds(0, w, rest);
    Split(x, w);
    JoinAdds(Low(x, w), w, Shl(rest, w));
    ShlShl(rest, w, w);
  }

  lemma PairUpStep(x: nat, w: nat, k: nat)
    requires k > 0
    ensures PairUp(x, w, k) == Low(x, w) + Low(Shr(x, w), w) + Shl(PairUp(Shr(x, 2 * w), w, k - 1), 2 * w)
  {
    var y, rest := Shr(x, w), Shr(x, 2 * w);
    EvenFields(x, w, k);
    EvenFields(y, w, k);
    assert Shr(y, 2 * w) == Shr(rest, w) by {
      ShrShr(x, w, 2 * w);
      ShrShr(x, 2 * w, w);
    }
    ShlAdd(And(Shr(rest, w), Mask(w, k - 1)), And(rest, Mask(w, k - 1)), 2 * w);
  }

  /** One field of the paired-up word is the sum of two fields; the others are paired up likewise. */
  lemma PairUpFields(x: nat, w: nat, k: nat)
    requires w > 0 && k > 0
    ensures Low(PairUp(x, w, k), 2 * w) == Low(x, w) + Low(Shr(x, w), w)
    ensures Shr(PairUp(x, w, k), 2 * w) == PairUp(Shr(x, 2 * w), w, k - 1)
  {
    PairUpStep(x, w, k);
    PairFits(x, w);
    SumParts(Low(x, w) + Low(Shr(x, w), w), 2 * w, PairUp(Shr(x, 2 * w), w, k - 1));
  }

  lemma SumParts(a: nat, w: nat, m: nat)
    requires a < Shl(1, w)
    ensures Low(a + Shl(m, w), w) == a && Shr(a + Shl(m, w), w) == m
  {
    JoinAdds(a, w, m);
    JoinParts(a, w, m);
  }

  lemma PairFits(x: nat, w: nat)
    requires w > 0
    ensures Low(x, w) + Low(Shr(x, w), w) < Shl(1, 2 * w)
  {
    Split(x, w);
    Split(Shr(x, w), w);
    ShlGrows(1, w, 2 * w - 1);
  }

  /** Pairing up keeps the sum of the fields. */
  lemma {:induction false} PairUpKeepsSum(x: nat, w: nat, k: nat)
    requires w > 0
    ensures Sum(PairUp(x, w, k), 2 * w, k) == Sum(x, w, 2 * k)
    decreases k
  {
    if k > 0 {
      PairUpFields(x, w, k);
      PairUpKeepsSum(Shr(x, 2 * w), w, k - 1);
      ShrShr(x, w, w);
      SumTwo(x, w, 2 * k);
    }
  }

  lemma SumTwo(x: nat, w: nat, k: nat)
    requires k >= 2
    ensures Sum(x, w, k) == Low(x, w) + Low(Shr(x, w), w) + Sum(Shr(Shr(x, w), w), w, k - 2)
  {
  }

  lemma OneBit(x: nat)
    ensures Low(x, 1) == x % 2 && Shr(x, 1) == x / 2
  {
    var none := Join(x / 2, 0, 0);
    assert Join(x, 1, 0) == x % 2 + 2 * none;
    var half := x / 2;
    assert Shr(x, 1) == Shr(half, 0);
  }

  /** Fields of one bit: the sum counts ones. */
  lemma {:induction false} SumOfBits(x: nat, k: nat)
    ensures Sum(x, 1, k) == Pop(Low(x, k))
    decreases k
  {
    if k > 0 {
      SumOfBits(x / 2, k - 1);
      OneBit(x);
      var rest := Join(x / 2, k - 1, 0);
      assert Low(x, k) == x % 2 + 2 * rest;
    }
  }

  // ------------------------------------------------------------------------- the constants

  lemma Shl2(x: nat)
    ensures Shl(x, 2) == 4 * x
  {
    ShlShl(x, 1, 1);
    Shl1(x);
    Shl1(2 * x);
  }

  lemma Shl1(x: nat)
    ensures Shl(x, 1) == 2 * x
  {
    assert Shl(x, 0) == x;
  }

  lemma Shl4(x: nat)
    ensures Shl(x, 4) == 16 * x
  {
    ShlShl(x, 2, 2);
    Shl2(x);
    Shl2(4 * x);
  }

  lemma Shl8(x: nat)
    ensures Shl(x, 8) == 0x100 * x
  {
    ShlShl(x, 4, 4);
    Shl4(x);
    Shl4(16 * x);
  }

  lemma Shl16(x: nat)
    ensures Shl(x, 16) == 0x1_0000 * x
  {
    ShlShl(x, 8, 8);
    Shl8(x);
    Shl8(0x100 * x);
  }

  lemma Shl32(x: nat)
    ensures Shl(x, 32) == 0x1_0000_0000 * x
  {
    ShlShl(x, 16, 16);
    Shl16(x);
    Shl16(0x1_0000 * x);
  }

  lemma {:induction false} OnesAdd(v: nat, n: nat)
    ensures Ones(v + n) == Ones(v) + Shl(Ones(n), v)
    ensures Ones(v) + 1 == Shl(1, v)
    decreases v
  {
    if v > 0 { OnesAdd(v - 1, n); }
  }

  lemma MaskStep(w: nat, k: nat)
    requires k > 0
    ensures Mask(w, k) == Ones(w) + Shl(Mask(w, k - 1), 2 * w)
  {
    var rest := Mask(w, k - 1);
    ShlGrows(1, 0, w);
    JoinAdds(0, w, rest);
    OnesAdd(w, 0);
    JoinAdds(Ones(w), w, Shl(rest, w));
    ShlShl(rest, w, w);
  }

  lemma MaskGrows(w: nat, rest: nat)
    ensures var mask := Ones(w) + Shl(rest, 2 * w);
      mask + Shl(mask, w) == Ones(2 * w) + Shl(rest + Shl(rest, w), 2 * w)
  {
    OnesAdd(w, w);
    ShlAdd(Ones(w), Shl(rest, 2 * w), w);
    ShlShl(rest, 2 * w, w);
    ShlShl(rest, w, 2 * w);
    ShlAdd(rest, Shl(rest, w), 2 * w);
  }

  /** A mask and its complement fill the word, n = 2wk bits in all. */
  lemma {:induction false} MaskFills(w: nat, k: nat, n: nat)
    requires n == 2 * w * k
    ensures Mask(w, k) + Shl(Mask(w, k), w) == Ones(n)
    decreases k
  {
    if k == 0 {
      ShlAdd(0, 0, w);
    } else {
      var rest := Mask(w, k - 1);
      assert n - 2 * w == 2 * w * (k - 1);
      MaskFills(w, k - 1, n - 2 * w);
      MaskStep(w, k);
      OnesAdd(2 * w, n - 2 * w);
      MaskGrows(w, rest);
    }
  }

  lemma ShlMonotone(x: nat, y: nat, w: nat)
    requires x < y
    ensures Shl(x, w) <= Shl(y, w)
  {
    ShlAdd(x, y - x, w);
  }

  lemma AllOnes()
    ensures Ones(32) == 0xFFFF_FFFF
  {
    OnesAdd(32, 0);
    Shl32(1);
  }

  lemma MaskIs(w: nat, k: nat, lo: nat)
    requires 2 * w * k == 32 && lo + Shl(lo, w) == 0xFFFF_FFFF
    ensures Mask(w, k) == lo
  {
    AllOnes();
    var mask := Mask(w, k);
    MaskFills(w, k, 32);
    if lo < mask { ShlMonotone(lo, mask, w); }
    if mask < lo { ShlMonotone(mask, lo, w); }
  }

  /** One line of the source, with two complementary masks: the fields of w bits are summed in pairs,
      and when one field of 32 bits is left, it is the whole word. */
  lemma Folded(x: nat, lo: nat, hi: nat, w: nat, k: nat)
    requires w > 0 && 2 * w * k == 32 && hi == Shl(lo, w) && lo + hi == 0xFFFF_FFFF
    ensures var y := Shr(And(x, hi), w) + And(x, lo);
      Sum(y, 2 * w, k) == Sum(x, w, 2 * k) && (k == 1 ==> Sum(y, 2 * w, k) == y)
  {
    MaskIs(w, k, lo);
    MaskThenShift(x, lo, w);
    PairUpKeepsSum(x, w, k);
    if k == 1 { LastField(x, w); }
  }

  lemma LastField(x: nat, w: nat)
    requires w > 0
    ensures Sum(PairUp(x, w, 1), 2 * w, 1) == PairUp(x, w, 1)
  {
    PairUpStep(x, w, 1);
    PairUpFields(x, w, 1);
    AndZero(Shr(x, 2 * w));
    AndZero(Shr(Shr(x, 2 * w), w));
    ShlAdd(0, 0, 2 * w);
  }
}
