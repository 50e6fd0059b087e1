/** The bit counters: one reference loop and five faster forms of it. A long has 64 bits; forms that only
    mask bits of their argument take its bit pattern. */
module BitCount {
  import opened Words
  import opened ParallelSum

  predicate Long(x: int) {
    -0x8000_0000_0000_0000 <= x < 0x8000_0000_0000_0000
  }

  /** The two's complement pattern of a long. */
  function Pattern(x: int): nat
    requires Long(x)
  {
    if x >= 0 then x else x + 0x1_0000_0000_0000_0000
  }

  /** The ones among the k low bits of x, however x is signed. */
  function OnesIn(x: int, k: nat): nat
    decreases k
  {
    if k == 0 then 0 else x % 2 + OnesIn(x / 2, k - 1)
  }

  lemma {:induction false} NoOnesInZero(k: nat)
    ensures OnesIn(0, k) == 0
  {
    if k > 0 { NoOnesInZero(k - 1); }
  }

  lemma {:induction false} OnesOfPattern(x: int, k: nat)
    requires 0 - Shl(1, k) <= x < Shl(1, k)
    ensures OnesIn(x, k) == Pop(if x >= 0 then x else x + Shl(1, k))
    decreases k
  {
    if k > 0 {
      OnesOfPattern(x / 2, k - 1);
      var p: nat := if x >= 0 then x else x + Shl(1, k);
      assert p / 2 == (if x >= 0 then x / 2 else x / 2 + Shl(1, k - 1)) && p % 2 == x % 2;
    }
  }

  lemma LongPattern(x: int, k: nat)
    requires Long(x) && k == 64
    ensures OnesIn(x, k) == Pop(Pattern(x))
  {
    ShlShl(1, 32, 32);
    Shl32(1);
    Shl32(0x1_0000_0000);
    OnesOfPattern(x, k);
  }

  /** bit_shifter: look at every bit. The shift keeps the sign, so a negative argument never becomes 0 and
      all 64 bits are looked at. */
  method BitShifter(arg: int) returns (n: nat)
    requires Long(arg)
    ensures n == Pop(Pattern(arg))
  {
    LongPattern(arg, 64);
    n := CountLow(arg, 64);
  }

  /** The loop, for words of `width` bits. */
  method CountLow(arg: int, width: nat) returns (n: nat)
    ensures n == OnesIn(arg, width)
  {
    var i, x := 0, arg;
    n := 0;
    while x != 0 && i < width
      invariant 0 <= i <= width && n + OnesIn(x, width - i) == OnesIn(arg, width)
      decreases width - i
    {
      n := n + x % 2;
      i, x := i + 1, x / 2;
    }
    if x == 0 { NoOnesInZero(width - i); }
  }

  /** Clearing the lowest one removes exactly one one. */
  lemma {:induction false} ClearLowest(x: nat)
    requires x > 0
    ensures And(x, x - 1) < x && Pop(And(x, x - 1)) == Pop(x) - 1
  {
    AndStep(x, x - 1);
    if x % 2 == 1 {
      AndSelf(x / 2);
      assert (x - 1) / 2 == x / 2;
    } else {
      ClearLowest(x / 2);
      assert (x - 1) / 2 == x / 2 - 1;
    }
  }

  /** bit_count: the loop runs once for each one. The subtraction wraps around at the lowest long. */
  method BitCounter(arg: int) returns (n: nat)
    requires Long(arg)
    ensures n == Pop(Pattern(arg))
  {
    var x := Pattern(arg);
    n := 0;
    if x != 0 {
      n := 1;
      ClearLowest(x);
      x := And(x, x - 1);
      while x != 0
        invariant n + Pop(x) == Pop(Pattern(arg))
        decreases x
      {
        n := n + 1;
        ClearLowest(x);
        x := And(x, x - 1);
      }
    }
  }

  /** One line of the parallel sum: the fields under one mask, moved down, plus those under the other. */
  function Fold(i: nat, hi: nat, w: nat, lo: nat): nat {
    Shr(And(i, hi), w) + And(i, lo)
  }

  /** bitcount: the parallel sum. */
  function ParallelCount(x: nat): nat {
    var i := Fold(x, 0xAAAA_AAAA, 1, 0x5555_5555);
    var i := Fold(i, 0xCCCC_CCCC, 2, 0x3333_3333);
    var i := Fold(i, 0xF0F0_F0F0, 4, 0x0F0F_0F0F);
    var i := Fold(i, 0xFF00_FF00, 8, 0x00FF_00FF);
    Fold(i, 0xFFFF_0000, 16, 0x0000_FFFF)
  }

  lemma Fold1(x: nat)
    ensures Sum(Fold(x, 0xAAAA_AAAA, 1, 0x5555_5555), 2, 16) == Sum(x, 1, 32)
  {
    Shl1(0x5555_5555);
    Folded(x, 0x5555_5555, 0xAAAA_AAAA, 1, 16);
  }

  lemma Fold2(x: nat)
    ensures Sum(Fold(x, 0xCCCC_CCCC, 2, 0x3333_3333), 4, 8) == Sum(x, 2, 16)
  {
    Shl2(0x3333_3333);
    Folded(x, 0x3333_3333, 0xCCCC_CCCC, 2, 8);
  }

  lemma Fold4(x: nat)
    ensures Sum(Fold(x, 0xF0F0_F0F0, 4, 0x0F0F_0F0F), 8, 4) == Sum(x, 4, 8)
  {
    Shl4(0x0F0F_0F0F);
    Folded(x, 0x0F0F_0F0F, 0xF0F0_F0F0, 4, 4);
  }

  lemma Fold8(x: nat)
    ensures Sum(Fold(x, 0xFF00_FF00, 8, 0x00FF_00FF), 16, 2) == Sum(x, 8, 4)
  {
    Shl8(0x00FF_00FF);
    Folded(x, 0x00FF_00FF, 0xFF00_FF00, 8, 2);
  }

  lemma Fold16(x: nat)
    ensures Fold(x, 0xFFFF_0000, 16, 0x0000_FFFF) == Sum(x, 16, 2)
  {
    Shl16(0x0000_FFFF);
    Folded(x, 0x0000_FFFF, 0xFFFF_0000, 16, 1);
  }

  /** The parallel sum counts the ones among the low 32 bits. */
  lemma ParallelCountExact(x: nat)
    ensures ParallelCount(x) == Pop(Low(x, 32))
  {
    Fold1(x);
    var i := Fold(x, 0xAAAA_AAAA, 1, 0x5555_5555);
    Fold2(i);
    var j := Fold(i, 0xCCCC_CCCC, 2, 0x3333_3333);
    Fold4(j);
    var k := Fold(j, 0xF0F0_F0F0, 4, 0x0F0F_0F0F);
    Fold8(k);
    Fold16(Fold(k, 0xFF00_FF00, 8, 0x00FF_00FF));
    SumOfBits(x, 32);
  }

  // ---------------------------------------------------------------------------- table look-up

  const BITS: seq<seq<nat>> :=
    [[0, 1, 1, 2, 1, 2, 2, 3, 1, 2, 2, 3, 2, 3, 3, 4],
     [1, 2, 2, 3, 2, 3, 3, 4, 2, 3, 3, 4, 3, 4, 4, 5],
     [1, 2, 2, 3, 2, 3, 3, 4, 2, 3, 3, 4, 3, 4, 4, 5],
     [2, 3, 3, 4, 3, 4, 4, 5, 3, 4, 4, 5, 4, 5, 5, 6],
     [1, 2, 2, 3, 2, 3, 3, 4, 2, 3, 3, 4, 3, 4, 4, 5],
     [2, 3, 3, 4, 3, 4, 4, 5, 3, 4, 4, 5, 4, 5, 5, 6],
     [2, 3, 3, 4, 3, 4, 4, 5, 3, 4, 4, 5, 4, 5, 5, 6],
     [3, 4, 4, 5, 4, 5, 5, 6, 4, 5, 5, 6, 5, 6, 6, 7],
     [1, 2, 2, 3, 2, 3, 3, 4, 2, 3, 3, 4, 3, 4, 4, 5],
     [2, 3, 3, 4, 3, 4, 4, 5, 3, 4, 4, 5, 4, 5, 5, 6],
     [2, 3, 3, 4, 3, 4, 4, 5, 3, 4, 4, 5, 4, 5, 5, 6],
     [3, 4, 4, 5, 4, 5, 5, 6, 4, 5, 5, 6, 5, 6, 6, 7],
     [2, 3, 3, 4, 3, 4, 4, 5, 3, 4, 4, 5, 4, 5, 5, 6],
     [3, 4, 4, 5, 4, 5, 5, 6, 4, 5, 5, 6, 5, 6, 6, 7],
     [3, 4, 4, 5, 4, 5, 5, 6, 4, 5, 5, 6, 5, 6, 6, 7],
     [4, 5, 5, 6, 5, 6, 6, 7, 5, 6, 6, 7, 6, 7, 7, 8]]

  lemma RowsAreShifted(r: nat, j: nat)
    requires r < 16 && j < 16
    ensures |BITS| == 16 && |BITS[r]| == 16
    ensures BITS[r][j] == BITS[0][r] + BITS[0][j]
  {
  }

  lemma RowDoubles(j: nat)
    requires j < 16
    ensures |BITS| == 16 && |BITS[0]| == 16 && BITS[0][j] == j % 2 + BITS[0][j / 2]
  {
  }

  lemma {:induction false} FirstRow(j: nat)
    requires j < 16
    ensures |BITS| == 16 && |BITS[0]| == 16 && BITS[0][j] == Pop(j)
  {
    RowDoubles(j);
    if j > 0 { FirstRow(j / 2); }
  }

  /** Entry k of the table of 256. */
  function Entry(k: nat): (r: nat)
    requires k < 256
    ensures r == Pop(k)
  {
    RowsAreShifted(k / 16, k % 16);
    FirstRow(k / 16);
    FirstRow(k % 16);
    TwoNybbles(k);
    BITS[k / 16][k % 16]
  }

  lemma TwoNybbles(k: nat)
    ensures Pop(k) == Pop(k % 16) + Pop(k / 16)
  {
    PopSplit(k, 4);
    DivideBy16(k);
  }

  lemma DivideBy16(k: nat)
    ensures Low(k, 4) == k % 16 && Shr(k, 4) == k / 16
  {
    Split(k, 4);
    var rest := Shr(k, 4);
    Shl4(rest);
    Shl4(1);
  }

  lemma {:induction false} LowSplit(x: nat, v: nat, w: nat)
    ensures Low(x, v + w) == Low(x, v) + Shl(Low(Shr(x, v), w), v)
    decreases v
  {
    if v > 0 { LowSplit(x / 2, v - 1, w); }
  }

  lemma PopLow(x: nat, v: nat, w: nat)
    ensures Pop(Low(x, v + w)) == Pop(Low(x, v)) + Pop(Low(Shr(x, v), w))
  {
    LowSplit(x, v, w);
    Split(x, v);
    SumParts(Low(x, v), v, Low(Shr(x, v), w));
    PopSplit(Low(x, v + w), v);
  }

  /** (x & (0xF << w)) >> w. */
  function Nybble(x: nat, w: nat): (r: nat)
    ensures r < 16 && r == Low(Shr(x, w), 4)
  {
    MaskThenShift(x, 15, w);
    LowNybble(Shr(x, w));
    Shr(And(x, Shl(15, w)), w)
  }

  lemma LowNybble(x: nat)
    ensures And(x, 15) == Low(x, 4) < 16
  {
    AndOnes(x, 4);
    Split(x, 4);
    Shl4(1);
  }

  /** ntbl_bitcount: eight look-ups. */
  function NybbleCount(x: nat): nat {
    Entry(Nybble(x, 0)) + Entry(Nybble(x, 4)) + Entry(Nybble(x, 8)) + Entry(Nybble(x, 12)) +
    Entry(Nybble(x, 16)) + Entry(Nybble(x, 20)) + Entry(Nybble(x, 24)) + Entry(Nybble(x, 28))
  }

  lemma NybbleCountExact(x: nat)
    ensures NybbleCount(x) == Pop(Low(x, 32))
  {
    PopLow(x, 4, 4);
    PopLow(x, 8, 4);
    PopLow(x, 12, 4);
    PopLow(x, 16, 4);
    PopLow(x, 20, 4);
    PopLow(x, 24, 4);
    PopLow(x, 28, 4);
  }

  /** ntbl_bitcnt: one look-up, then the rest of the word. */
  function RecursiveCount(x: nat): (r: nat)
    ensures r == Pop(x)
  {
    LowNybble(x);
    Split(x, 4);
    Shl4(Shr(x, 4));
    PopSplit(x, 4);
    var count := Entry(And(x, 15));
    if Shr(x, 4) != 0 then count + RecursiveCount(Shr(x, 4)) else count
  }

  /** Byte k of a word in memory, low byte first. */
  function Byte(x: nat, k: nat): (r: nat)
    ensures r < 256
  {
    Split(Shr(x, 8 * k), 8);
    Shl8(1);
    Low(Shr(x, 8 * k), 8)
  }

  /** BW_btbl_bitcount: the four bytes that overlay the word. */
  function ByteCount(x: nat): nat {
    Entry(Byte(x, 0)) + Entry(Byte(x, 1)) + Entry(Byte(x, 3)) + Entry(Byte(x, 2))
  }

  lemma PopBytes(x: nat)
    ensures Pop(Low(x, 32)) == Pop(Byte(x, 0)) + Pop(Byte(x, 1)) + Pop(Byte(x, 2)) + Pop(Byte(x, 3))
  {
    PopLow(x, 8, 8);
    PopLow(x, 16, 8);
    PopLow(x, 24, 8);
  }

  lemma ByteCountExact(x: nat)
    ensures ByteCount(x) == Pop(Low(x, 32))
  {
    PopBytes(x);
  }

  /** One look-up. */
  method LookUp(k: nat) returns (r: nat)
    requires k < 256
    ensures r == Pop(k)
  {
    r := Entry(k);
  }

  /** AR_btbl_bitcount: a pointer over the bytes of the word. */
  method PointerCount(x: nat) returns (accu: nat)
    ensures accu == Pop(Low(x, 32))
  {
    PopBytes(x);
    var p := 0;
    accu := LookUp(Byte(x, p));
    p := p + 1;
    var c := LookUp(Byte(x, p));
    accu, p := accu + c, p + 1;
    c := LookUp(Byte(x, p));
    accu, p := accu + c, p + 1;
    c := LookUp(Byte(x, p));
    accu := accu + c;
  }

  // ------------------------------------------------------------------------------- agreement

  lemma LowIsWhole(x: nat)
    ensures Pop(Low(x, 32)) == Pop(x) <==> x < 0x1_0000_0000
  {
    Split(x, 32);
    Shl32(1);
    Shl32(Shr(x, 32));
    PopSplit(x, 32);
    PopZero(Shr(x, 32));
  }

  /** x shifted right by four, k times, keeping the sign. */
  function Shifted(x: int, k: nat): int
    decreases k
  {
    if k == 0 then x else Shifted(x / 16, k - 1)
  }

  lemma {:induction false} ShiftedNegative(x: int, k: nat)
    requires x < 0
    ensures Shifted(x, k) < 0
    decreases k
  {
    if k > 0 { ShiftedNegative(x / 16, k - 1); }
  }

  lemma {:induction false} ShiftedToZero(x: nat) returns (k: nat)
    ensures Shifted(x, k) == 0
    decreases x
  {
    if x == 0 {
      k := 0;
    } else {
      var l := ShiftedToZero(x / 16);
      k := l + 1;
    }
  }

  /** The recursive counter returns exactly for the non-negative arguments. */
  lemma RecursionEnds(x: int)
    ensures (exists k: nat :: Shifted(x, k) == 0) <==> x >= 0
  {
    if x >= 0 {
      var k := ShiftedToZero(x);
    } else {
      forall k: nat ensures Shifted(x, k) != 0 { ShiftedNegative(x, k); }
    }
  }

  /** The forms that look at 32 bits always agree with each other; they agree with the full count exactly
      for the arguments from 0 to 2^32 - 1. */
  lemma CountersAgree(arg: int)
    requires Long(arg)
    ensures var word := Pattern(arg);
      && ParallelCount(word) == NybbleCount(word) == ByteCount(word)
      && (arg >= 0 ==> RecursiveCount(arg) == Pop(word))
      && (ParallelCount(word) == Pop(word) <==> 0 <= arg < 0x1_0000_0000)
  {
    var word := Pattern(arg);
    ParallelCountExact(word);
    NybbleCountExact(word);
    ByteCountExact(word);
    LowIsWhole(word);
  }

  /** 2^32 is such an argument: its low half is 0 and its high half is 1. */
  lemma HighBitParts(x: nat)
    requires x == 0x1_0000_0000
    ensures Long(x) && Pattern(x) == x && Low(x, 32) == 0 && Shr(x, 32) == 1
  {
    Split(x, 32);
    var high := Shr(x, 32);
    Shl32(high);
    Shl32(1);
  }

  /** There the forms that look at 32 bits find no one at all, and the full count finds one. */
  lemma HighBitUncounted(word: nat)
    requires Low(word, 32) == 0 && Shr(word, 32) == 1
    ensures ParallelCount(word) == 0 && Pop(word) == 1
  {
    ParallelCountExact(word);
    PopSplit(word, 32);
    assert Pop(1) == 1;
  }
}
