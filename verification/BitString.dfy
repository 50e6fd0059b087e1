/** Printing the low bits of a number in groups of four, and reading a binary numeral back. */
module BitString {
  import opened Words

  function Digit(b: int, k: nat): char {
    if Bit(b, k) == 1 then '1' else '0'
  }

  /** One digit, and a blank behind it when it ends a group of four above the last one. */
  function Group(byze: int, k: nat): (s: string)
    ensures 1 <= |s| <= 2
  {
    [Digit(byze, k)] + (if k % 4 == 0 && k != 0 then " " else "")
  }

  /** What the second loop writes with biz bits to go. */
  function Groups(byze: int, biz: nat): string {
    if biz == 0 then "" else Group(byze, biz - 1) + Groups(byze, biz - 1)
  }

  function Blanks(n: int): (s: string)
    ensures |s| == if n > 0 then n else 0
  {
    if n <= 0 then "" else Blanks(n - 1) + " "
  }

  /** How many blanks the first loop writes, when positive. */
  function Padding(biz: int, strwid: int): int {
    strwid - (biz + biz / 4 - (if biz % 4 != 0 then 0 else 1))
  }

  /** The bits shown: none for a negative count. */
  function Shown(biz: int): nat {
    if biz < 0 then 0 else biz
  }

  function Text(byze: int, biz: int, strwid: int): string {
    Blanks(Padding(biz, strwid)) + Groups(byze, Shown(biz))
  }

  /** One character through the moving pointer. */
  method Put(str: array<char>, p: nat, c: char) returns (next: nat)
    requires p < str.Length
    modifies str
    ensures next == p + 1 && str[..next] == old(str[..p]) + [c]
    ensures forall k :: next <= k < str.Length ==> str[k] == old(str[k])
  {
    str[p] := c;
    next := p + 1;
  }

  method PutBlanks(str: array<char>, n: int) returns (p: nat)
    requires n < str.Length
    modifies str
    ensures p == |Blanks(n)| <= str.Length && str[..p] == Blanks(n) && str[p..] == old(str[p..])
  {
    p := 0;
    var i := 0;
    while i < n
      invariant p == i == |Blanks(i)| && (i == 0 || i <= n)
      invariant str[..p] == Blanks(i)
      invariant forall k :: p <= k < str.Length ==> str[k] == old(str[k])
    {
      p := Put(str, p, ' ');
      i := i + 1;
    }
  }

  method PutGroup(str: array<char>, p: nat, byze: int, k: nat) returns (next: nat)
    requires p + |Group(byze, k)| <= str.Length
    modifies str
    ensures next == p + |Group(byze, k)| && str[..next] == old(str[..p]) + Group(byze, k)
    ensures forall i :: next <= i < str.Length ==> str[i] == old(str[i])
  {
    next := Put(str, p, Digit(byze, k));
    if k % 4 == 0 && k != 0 {
      next := Put(str, next, ' ');
    }
  }

  method PutGroups(str: array<char>, start: nat, byze: int, biz: nat) returns (p: nat)
    requires start + |Groups(byze, biz)| <= str.Length
    modifies str
    ensures p == start + |Groups(byze, biz)|
    ensures str[..p] == old(str[..start]) + Groups(byze, biz) && str[p..] == old(str[p..])
  {
    var b := biz;
    p := start;
    ghost var all := str[..start] + Groups(byze, biz);
    while b > 0
      invariant 0 <= b <= biz && p <= |all| == p + |Groups(byze, b)| <= str.Length
      invariant all == str[..p] + Groups(byze, b)
      invariant forall k :: p <= k < str.Length ==> str[k] == old(str[k])
    {
      b := b - 1;
      p := PutGroup(str, p, byze, b);
    }
  }

  /** bitstring: the text and its terminator are stored, and nothing behind them. */
  method Bitstring(str: array<char>, byze: int, biz: int, strwid: int)
    requires biz <= 64 && |Text(byze, biz, strwid)| < str.Length
    modifies str
    ensures str[..] == Text(byze, biz, strwid) + ['\0'] + old(str[|Text(byze, biz, strwid)| + 1..])
  {
    var p := PutBlanks(str, Padding(biz, strwid));
    p := PutGroups(str, p, byze, Shown(biz));
    p := Put(str, p, '\0');
    assert str[..] == str[..p] + str[p..];
  }

  // ------------------------------------------------------------------------------- the text

  function Gaps(biz: nat): nat {
    if biz == 0 then 0 else (biz - 1) / 4
  }

  lemma NextGap(k: nat)
    ensures Gaps(k + 1) == Gaps(k) + (if k % 4 == 0 && k != 0 then 1 else 0)
  {
    assert k == 4 * (k / 4) + k % 4;
  }

  lemma {:induction false} GroupsLength(byze: int, biz: nat)
    ensures |Groups(byze, biz)| == biz + Gaps(biz)
  {
    if biz > 0 {
      GroupsLength(byze, biz - 1);
      NextGap(biz - 1);
    }
  }

  /** The width asked for is kept, unless the bits need more. For no bits at all one blank is added, and
      for a negative count the missing bits and gaps are made up with blanks. */
  lemma WidthExact(byze: int, biz: int, strwid: int)
    ensures var n := |Text(byze, biz, strwid)|;
      if biz >= 1 then n == if strwid > biz + Gaps(biz) then strwid else biz + Gaps(biz)
      else var m := strwid - biz - biz / 4 + (if biz % 4 == 0 then 1 else 0); n == if m > 0 then m else 0
  {
    GroupsLength(byze, Shown(biz));
  }

  /** Where the digit of weight k, and the blank it may bring, stand when counted from the right end. */
  lemma PlaceOf(k: nat)
    ensures var n := k + Gaps(k);
      if k % 4 == 0 && k != 0 then n % 5 == 4 && (n + 1) % 5 == 0 && (n + 1) / 5 * 4 == k
      else n % 5 != 4 && n / 5 * 4 + n % 5 == k
  {
    var q, r := k / 4, k % 4;
    var n := k + Gaps(k);
    if r == 0 && k != 0 {
      assert n == 5 * (q - 1) + 4;
      assert n + 1 == 5 * q;
    } else {
      assert n == 5 * q + r;
      assert n / 5 == q && n % 5 == r;
    }
  }

  /** Counted from the right end, every fifth character is a blank and the others are the bits of
      ascending weight. */
  lemma {:induction false} GroupsFromRight(byze: int, biz: nat, d: nat)
    requires d < |Groups(byze, biz)|
    ensures var c := Groups(byze, biz)[|Groups(byze, biz)| - 1 - d];
      c == if d % 5 == 4 then ' ' else Digit(byze, d / 5 * 4 + d % 5)
  {
    var rest, group := Groups(byze, biz - 1), Group(byze, biz - 1);
    assert Groups(byze, biz) == group + rest;
    if d < |rest| {
      GroupsFromRight(byze, biz - 1, d);
    } else {
      GroupsLength(byze, biz - 1);
      PlaceOf(biz - 1);
    }
  }

  /** The same for the whole text, which is right aligned. */
  lemma TextFromRight(byze: int, biz: int, strwid: int, d: nat)
    requires d < |Text(byze, biz, strwid)|
    ensures var c := Text(byze, biz, strwid)[|Text(byze, biz, strwid)| - 1 - d];
      c == if d >= Shown(biz) + Gaps(Shown(biz)) || d % 5 == 4 then ' ' else Digit(byze, d / 5 * 4 + d % 5)
  {
    var n := Shown(biz);
    GroupsLength(byze, n);
    if d < n + Gaps(n) {
      GroupsFromRight(byze, n, d);
    } else {
      BlanksAreBlank(Padding(biz, strwid), |Text(byze, biz, strwid)| - 1 - d);
    }
  }

  lemma {:induction false} BlanksAreBlank(n: int, k: nat)
    requires k < n
    ensures Blanks(n)[k] == ' '
  {
    if k < n - 1 { BlanksAreBlank(n - 1, k); }
  }

  // --------------------------------------------------------------------------------- parsing

  predicate IsBit(c: char) {
    c == '0' || c == '1'
  }

  /** The bits a text starts with. */
  function Leading(text: string): string {
    if text == "" || !IsBit(text[0]) then "" else [text[0]] + Leading(text[1..])
  }

  /** The number a binary numeral stands for. */
  function Value(bits: string): nat {
    if bits == "" then 0 else 2 * Value(bits[..|bits| - 1]) + (if bits[|bits| - 1] == '1' then 1 else 0)
  }

  lemma {:induction false} LeadingGrows(text: string, k: nat)
    requires k <= |text| && forall i :: 0 <= i < k ==> IsBit(text[i])
    ensures Leading(text) == text[..k] + Leading(text[k..])
  {
    if k > 0 {
      LeadingGrows(text[1..], k - 1);
      assert text[1..][k - 1..] == text[k..];
    }
  }

  /** bstr_i: the value of the leading bits, in 32 bits; 0 for a null pointer. */
  method BstrI(text: array?<char>) returns (j: nat)
    requires text != null ==> '\0' in text[..]
    ensures j == if text == null then 0 else Value(Leading(text[..])) % WORD
  {
    j := 0;
    if text != null {
      ghost var all := text[..];
      var p := 0;
      while text[p] != '\0' && IsBit(text[p])
        invariant 0 <= p < text.Length
        invariant forall i :: 0 <= i < p ==> IsBit(text[i])
        invariant j == Value(all[..p]) % WORD
        decreases text.Length - p
      {
        var i := if text[p] == '1' then 1 else 0;
        p := p + 1;
        assert all[..p][..p - 1] == all[..p - 1];
        DoubleWraps(Value(all[..p - 1]), i);
        j := j * 2 % WORD;
        j := j + i;
      }
      LeadingGrows(all, p);
      assert Leading(all[p..]) == "";
      assert all[..p] + "" == all[..p];
    }
  }

  const WORD: nat := 0x1_0000_0000

  lemma DoubleWraps(v: nat, i: nat)
    requires i < 2
    ensures v % WORD * 2 % WORD + i == (2 * v + i) % WORD
  {
    var q, r := v / WORD, v % WORD;
    if r < 0x8000_0000 {
      Wrapped(r * 2, 0, r * 2);
      Wrapped(2 * v + i, 2 * q, 2 * r + i);
    } else {
      Wrapped(r * 2, 1, r * 2 - WORD);
      Wrapped(2 * v + i, 2 * q + 1, 2 * r + i - WORD);
    }
  }

  lemma Wrapped(x: nat, q: nat, r: nat)
    requires x == WORD * q + r && r < WORD
    ensures x % WORD == r
  {
  }

  // ------------------------------------------------------------------------------ round trip

  function NonBlank(text: string): string {
    if text == "" then "" else (if text[0] == ' ' then "" else [text[0]]) + NonBlank(text[1..])
  }

  /** The n low bits of b as digits, most significant first. */
  function Numeral(b: int, n: nat): (s: string)
    ensures |s| == n
    decreases n
  {
    if n == 0 then "" else Numeral(b / 2, n - 1) + [Digit(b, 0)]
  }

  lemma {:induction false} NonBlankJoin(s: string, t: string)
    ensures NonBlank(s + t) == NonBlank(s) + NonBlank(t)
  {
    if s == "" {
      assert s + t == t;
    } else {
      assert (s + t)[1..] == s[1..] + t;
      NonBlankJoin(s[1..], t);
    }
  }

  lemma {:induction false} BlanksVanish(n: int)
    ensures NonBlank(Blanks(n)) == ""
  {
    if n > 0 {
      BlanksVanish(n - 1);
      NonBlankJoin(Blanks(n - 1), " ");
    }
  }

  lemma {:induction false} NumeralFirst(b: int, n: nat)
    ensures Numeral(b, n + 1) == [Digit(b, n)] + Numeral(b, n)
    decreases n
  {
    if n > 0 { NumeralFirst(b / 2, n - 1); }
  }

  lemma {:induction false} GroupsNonBlank(byze: int, biz: nat)
    ensures NonBlank(Groups(byze, biz)) == Numeral(byze, biz)
  {
    if biz > 0 {
      GroupsNonBlank(byze, biz - 1);
      NumeralFirst(byze, biz - 1);
      NonBlankJoin(Group(byze, biz - 1), Groups(byze, biz - 1));
    }
  }

  /** Without its blanks the text is the biz low bits of byze, most significant first. */
  lemma TextNonBlank(byze: int, biz: int, strwid: int)
    ensures NonBlank(Text(byze, biz, strwid)) == Numeral(byze, Shown(biz))
  {
    NonBlankJoin(Blanks(Padding(biz, strwid)), Groups(byze, Shown(biz)));
    BlanksVanish(Padding(biz, strwid));
    GroupsNonBlank(byze, Shown(biz));
  }

  lemma HalfModulus(b: int, p: nat)
    requires p > 0
    ensures b % (2 * p) == 2 * (b / 2 % p) + b % 2
  {
    var q, r := b / 2 / p, b / 2 % p;
    assert b == 2 * (p * q + r) + b % 2;
    assert b == 2 * p * q + (2 * r + b % 2);
    Remainder(b, 2 * p, q, 2 * r + b % 2);
  }

  lemma Remainder(x: int, m: int, q: int, r: int)
    requires m > 0 && x == m * q + r && 0 <= r < m
    ensures x % m == r
  {
    var k := q - x / m;
    assert -m < m * k < m;
  }

  lemma {:induction false} NumeralValue(b: int, n: nat)
    ensures Value(Numeral(b, n)) == b % Pow2(n)
    decreases n
  {
    if n > 0 {
      NumeralValue(b / 2, n - 1);
      HalfModulus(b, Pow2(n - 1));
    }
  }

  lemma {:induction false} NumeralIsBits(b: int, n: nat, k: nat)
    requires k < n
    ensures IsBit(Numeral(b, n)[k])
    decreases n
  {
    if k < n - 1 { NumeralIsBits(b / 2, n - 1, k); }
  }

  lemma NestedModulus(b: int, p: nat, q: nat)
    requires p > 0 && q > 0 && b / 2 % p % q == b / 2 % q
    ensures b % (2 * p) % (2 * q) == b % (2 * q)
  {
    var c := b % (2 * p);
    HalfModulus(b, p);
    HalfModulus(c, q);
    HalfModulus(b, q);
    assert c / 2 == b / 2 % p && c % 2 == b % 2;
  }

  lemma {:induction false} SmallerModulus(b: int, n: nat, k: nat)
    requires k <= n
    ensures b % Pow2(n) % Pow2(k) == b % Pow2(k)
    decreases k
  {
    if k > 0 {
      SmallerModulus(b / 2, n - 1, k - 1);
      NestedModulus(b, Pow2(n - 1), Pow2(k - 1));
    }
  }

  lemma {:induction false} Pow2Grows(k: nat, n: nat)
    requires k <= n
    ensures Pow2(k) <= Pow2(n)
  {
    if k < n { Pow2Grows(k, n - 1); }
  }

  /** Reading back a numeral, whatever follows its terminator. */
  lemma ParseNumeral(b: int, n: nat, rest: string)
    ensures Value(Leading(Numeral(b, n) + ['\0'] + rest)) % WORD == b % Pow2(if n <= 32 then n else 32)
  {
    var text := Numeral(b, n) + ['\0'] + rest;
    forall k: nat | k < n ensures IsBit(text[k]) { NumeralIsBits(b, n, k); }
    LeadingGrows(text, n);
    assert Leading(text) == Numeral(b, n);
    NumeralValue(b, n);
    Pow2Is32();
    if n <= 32 {
      Pow2Grows(n, 32);
    } else {
      SmallerModulus(b, n, 32);
    }
  }

  /** Print, drop the blanks, parse: the low bits of the number come back, at most 32 of them. */
  lemma PrintThenParse(byze: int, biz: int, strwid: int, rest: string)
    ensures Value(Leading(NonBlank(Text(byze, biz, strwid)) + ['\0'] + rest)) % WORD ==
      byze % Pow2(if biz <= 32 then Shown(biz) else 32)
  {
    TextNonBlank(byze, biz, strwid);
    ParseNumeral(byze, Shown(biz), rest);
  }

  lemma {:induction false} LeadingIsBits(text: string)
    ensures |Leading(text)| <= |text| && Leading(text) == text[..|Leading(text)|]
    ensures forall k :: 0 <= k < |Leading(text)| ==> IsBit(text[k])
  {
    if text != "" { LeadingIsBits(text[1..]); }
  }

  lemma {:induction false} OneGroup(byze: int, biz: nat)
    requires biz <= 4
    ensures Groups(byze, biz) == Numeral(byze, biz)
  {
    if biz > 0 {
      OneGroup(byze, biz - 1);
      NumeralFirst(byze, biz - 1);
    }
  }

  lemma NumeralLeads(b: int, n: nat)
    ensures Leading(Numeral(b, n)) == Numeral(b, n)
  {
    var text := Numeral(b, n);
    forall k: nat | k < n ensures IsBit(text[k]) { NumeralIsBits(b, n, k); }
    LeadingGrows(text, n);
    assert text[..n] + "" == text;
  }

  lemma NoBitsLead(n: int)
    ensures Leading(Blanks(n)) == ""
  {
    if n > 0 { BlanksAreBlank(n, 0); }
  }

  lemma PaddingStops(byze: int, biz: nat, strwid: int)
    requires biz >= 1 && Padding(biz, strwid) > 0
    ensures Leading(Text(byze, biz, strwid)) == ""
  {
    var text := Text(byze, biz, strwid);
    GroupsLength(byze, biz);
    TextFromRight(byze, biz, strwid, |text| - 1);
  }

  lemma FirstGap(g: nat)
    requires g >= 1
    ensures (5 * g - 1) % 5 == 4
  {
    assert 5 * g - 1 == 5 * (g - 1) + 4;
  }

  lemma BlankStops(text: string, k: nat)
    requires k < |text| && text[k] == ' '
    ensures |Leading(text)| <= k
  {
    LeadingIsBits(text);
    assert !IsBit(text[k]);
  }

  lemma GapStops(byze: int, biz: nat, strwid: int)
    requires biz > 4 && Padding(biz, strwid) <= 0
    ensures |Leading(Text(byze, biz, strwid))| < biz
  {
    var g := Gaps(biz);
    GroupsLength(byze, biz);
    FirstGap(g);
    TextFromRight(byze, biz, strwid, 5 * g - 1);
    BlankStops(Text(byze, biz, strwid), biz - 4 * g);
  }

  lemma ParserStops(byze: int, biz: nat, strwid: int)
    requires biz >= 1
    ensures Leading(Text(byze, biz, strwid)) == Numeral(byze, biz) <==> biz <= 4 && strwid <= biz
  {
    if biz <= 4 && strwid <= biz {
      assert Text(byze, biz, strwid) == Groups(byze, biz);
      OneGroup(byze, biz);
      NumeralLeads(byze, biz);
    } else if Padding(biz, strwid) > 0 {
      PaddingStops(byze, biz, strwid);
    } else {
      GapStops(byze, biz, strwid);
    }
  }

  /** Without dropping the blanks, the parser sees all bits exactly when there is no blank among them or
      before them: at most four bits, and no padding. */
  lemma ParserStopsAtBlank(byze: int, biz: int, strwid: int)
    ensures Leading(Text(byze, biz, strwid)) == Numeral(byze, Shown(biz)) <==>
      biz <= 0 || (biz <= 4 && strwid <= biz)
  {
    if biz <= 0 {
      assert Text(byze, biz, strwid) == Blanks(Padding(biz, strwid));
      NoBitsLead(Padding(biz, strwid));
    } else {
      ParserStops(byze, biz, strwid);
    }
  }

  /** For instance with five bits, whatever they are: the blank behind the first one stops the parser. */
  lemma FifthBitUnseen(byze: int, strwid: int)
    ensures Leading(Text(byze, 5, strwid)) != Numeral(byze, 5)
  {
    ParserStopsAtBlank(byze, 5, strwid);
  }
}
