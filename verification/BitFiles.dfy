/** A file read and written bit by bit, most significant bit first, through one-byte buffers. */
module BitFiles {

  import opened Words

  /** The n low bits of b, most significant first. */
  function LowBits(b: nat, n: nat): (s: seq<nat>)
    ensures |s| == n
  {
    if n == 0 then [] else LowBits(b / 2, n - 1) + [b % 2]
  }

  /** All bits of a file, in reading order. */
  function Bits(file: seq<nat>): (s: seq<nat>)
    ensures |s| == 8 * |file|
  {
    if file == [] then [] else Bits(file[..|file| - 1]) + LowBits(file[|file| - 1], 8)
  }

  /** What fgetc delivers as a character: end of file reads as all ones, for ever. */
  function ByteAt(file: seq<nat>, k: nat): nat {
    if k < |file| then file[k] else 255
  }

  /** Entry j of the low bits is the bit of weight n - 1 - j. */
  lemma {:induction false} LowBitsAt(b: nat, n: nat, j: nat)
    requires j < n
    ensures LowBits(b, n)[j] == Bit(b, n - 1 - j)
  {
    if j < n - 1 { LowBitsAt(b / 2, n - 1, j); }
  }

  /** Bit 8k + j of the file is bit 7 - j of byte k. */
  lemma {:induction false} BitsAt(file: seq<nat>, k: nat, j: nat)
    requires k < |file| && j < 8
    ensures Bits(file)[8 * k + j] == Bit(file[k], 7 - j)
  {
    var last := |file| - 1;
    if k < last {
      BitsAt(file[..last], k, j);
    } else {
      LowBitsAt(file[last], 8, j);
    }
  }

  lemma BitsNext(file: seq<nat>, b: nat)
    ensures Bits(file + [b]) == Bits(file) + LowBits(b, 8)
  {
    assert (file + [b])[..|file|] == file;
  }

  lemma {:induction false} BitsPrefix(file: seq<nat>, k: nat)
    requires k <= |file|
    ensures Bits(file[..k]) == Bits(file)[..8 * k]
  {
    if k == |file| {
      assert file[..k] == file;
    } else {
      BitsPrefix(file[..|file| - 1], k);
      assert file[..|file| - 1][..k] == file[..k];
    }
  }

  lemma AllOnes(k: nat)
    requires k < 8
    ensures Bit(255, k) == 1
  {
    assert Bit(31, 2) == 1 && Bit(15, 2) == 1;
    assert Bit(127, 4) == Bit(63, 3) == Bit(31, 2);
    assert Bit(31, 4) == Bit(15, 3) == Bit(7, 2) == 1;
    assert Bit(127, 6) == Bit(63, 5) == Bit(31, 4);
  }

  // -------------------------------------------------------------- shifting a bit into a byte

  lemma {:induction false} HighBitIgnored(b: nat, k: nat, n: nat)
    requires n <= k
    ensures LowBits(b + Pow2(k), n) == LowBits(b, n)
  {
    if n > 0 {
      assert (b + Pow2(k)) / 2 == b / 2 + Pow2(k - 1);
      HighBitIgnored(b / 2, k - 1, n - 1);
    }
  }

  lemma ShiftedHalf(w: nat, bit: nat)
    requires w < 256 && bit < 2
    ensures (w * 2 % 256 + bit) % 2 == bit
    ensures (w * 2 % 256 + bit) / 2 == if w < 128 then w else w - 128
  {
    assert w * 2 % 256 == if w < 128 then 2 * w else 2 * w - 256;
  }

  /** The write buffer after one more bit. */
  function Pushed(w: nat, bit: nat): (v: nat)
    requires w < 256 && bit < 2
    ensures v < 256
  {
    w * 2 % 256 + bit
  }

  /** Shifting left in eight bits keeps the n low bits, one place up, as long as they fit. */
  lemma ShiftIn(w: nat, bit: nat, n: nat)
    requires w < 256 && bit < 2 && n <= 7
    ensures LowBits(Pushed(w, bit), n + 1) == LowBits(w, n) + [bit]
  {
    ShiftedHalf(w, bit);
    if w >= 128 {
      assert Pow2(4) == 16;
      assert Pow2(7) == 2 * 2 * 2 * Pow2(4);
      HighBitIgnored(w - 128, 7, n);
    }
  }

  lemma Appended(file: seq<nat>, w: nat, v: nat, bit: nat, n: nat, written: seq<nat>)
    requires LowBits(v, n + 1) == LowBits(w, n) + [bit] && written == Bits(file) + LowBits(w, n)
    ensures written + [bit] == Bits(file) + LowBits(v, n + 1)
  {
  }

  // ------------------------------------------------------------------------- the stream

  class BFile {
    var file: seq<nat>     // the bytes of the underlying stream
    var pos: nat           // characters fetched from it
    var rbuf: nat
    var rcnt: nat
    var wbuf: nat
    var wcnt: nat
    ghost var written: seq<nat>   // every bit ever written

    /** Opened for reading: the buffer is the last character fetched. */
    ghost predicate Reading()
      reads this
    {
      rcnt <= 8 && (pos == 0 ==> rcnt == 0) && (rcnt > 0 ==> rbuf == ByteAt(file, pos - 1))
    }

    /** The bits written are those in the file and then the low ones of the buffer. */
    ghost predicate Held()
      reads this
    {
      wcnt <= 8 && wbuf < 256 && written == Bits(file) + LowBits(wbuf, wcnt)
    }

    /** Opened for writing: once anything was written, at least one bit is pending. */
    ghost predicate Writing()
      reads this
    {
      Held() && (written != [] ==> wcnt >= 1)
    }

    /** Bits consumed by reading. */
    ghost function Consumed(): int
      reads this
    {
      8 * pos - rcnt
    }

    /** bfopen on an existing file. The buffer starts with whatever memory held. */
    constructor OpenRead(contents: seq<nat>, garbage: nat)
      ensures Reading() && file == contents && Consumed() == 0
    {
      file, pos, rbuf, rcnt := contents, 0, garbage, 0;
      wbuf, wcnt, written := 0, 0, [];
    }

    /** bfopen on a new file. The buffer starts with whatever memory held. */
    constructor OpenWrite(garbage: nat)
      requires garbage < 256
      ensures Writing() && file == [] && written == []
    {
      file, pos, rbuf, rcnt := [], 0, 0, 0;
      wbuf, wcnt, written := garbage, 0, [];
    }

    /** Reading delivers the next bit of the file, and ones once it has ended. */
    method Read() returns (bit: nat)
      requires Reading()
      modifies this`pos, this`rbuf, this`rcnt
      ensures Reading() && Consumed() == old(Consumed()) + 1
      ensures bit == if 0 <= old(Consumed()) < 8 * |file| then Bits(file)[old(Consumed())] else 1
    {
      if rcnt == 0 {
        rbuf := ByteAt(file, pos);
        pos := pos + 1;
        rcnt := 8;
      }
      rcnt := rcnt - 1;
      bit := Bit(rbuf, rcnt);
      if pos <= |file| { BitsAt(file, pos - 1, 7 - rcnt); } else { AllOnes(rcnt); }
    }

    /** A full buffer goes to the file. */
    method Flush()
      requires Writing() && wcnt == 8
      modifies this`file, this`wcnt
      ensures file == old(file) + [wbuf] && wcnt == 0 && Held()
    {
      BitsNext(file, wbuf);
      file := file + [wbuf];
      wcnt := 0;
    }

    /** One bit into the buffer, from the right. */
    method Push(bit: nat)
      requires Held() && wcnt < 8 && bit < 2
      modifies this`wbuf, this`wcnt, this`written
      ensures Writing() && written == old(written) + [bit]
    {
      ShiftIn(wbuf, bit, wcnt);
      Appended(file, wbuf, Pushed(wbuf, bit), bit, wcnt, written);
      wcnt := wcnt + 1;
      wbuf := Pushed(wbuf, bit);
      written := written + [bit];
    }

    /** Writing appends the low bit of its argument. */
    method Write(bit: int)
      requires Writing()
      modifies this`file, this`wbuf, this`wcnt, this`written
      ensures Writing() && written == old(written) + [bit % 2]
    {
      if wcnt == 8 { Flush(); }
      Push(bit % 2);
    }
  }

  /** Conservation: after m >= 1 writes the file holds (m-1)/8 bytes and 1 to 8 bits are pending. */
  lemma Conservation(file: seq<nat>, wbuf: nat, wcnt: nat, written: seq<nat>)
    requires wcnt <= 8 && (written != [] ==> wcnt >= 1) && written == Bits(file) + LowBits(wbuf, wcnt)
    ensures written != [] ==> |file| == (|written| - 1) / 8 && wcnt == (|written| - 1) % 8 + 1
    ensures written == [] ==> file == [] && wcnt == 0
    ensures Bits(file) == written[..8 * |file|] && LowBits(wbuf, wcnt) == written[8 * |file|..]
  {
  }

  /** Write bits, close without flushing, open again, read back: all bits of the whole bytes return,
      in order; the last 1 to 8 bits are lost. */
  method RoundTrip(bits: seq<int>, garbage: nat) returns (back: seq<nat>)
    requires garbage < 256
    ensures |back| == if |bits| == 0 then 0 else 8 * ((|bits| - 1) / 8)
    ensures forall k :: 0 <= k < |back| ==> back[k] == bits[k] % 2
  {
    var out := new BFile.OpenWrite(garbage);
    var k := 0;
    while k < |bits|
      invariant 0 <= k <= |bits| && out.Writing() && |out.written| == k
      invariant forall l :: 0 <= l < k ==> out.written[l] == bits[l] % 2
    {
      out.Write(bits[k]);
      k := k + 1;
    }
    ghost var written := out.written;
    Conservation(out.file, out.wbuf, out.wcnt, written);
    back := ReadAll(out.file, garbage);
    assert back == written[..|back|];
  }

  /** Reading a whole file delivers its bits. */
  method ReadAll(contents: seq<nat>, garbage: nat) returns (back: seq<nat>)
    ensures back == Bits(contents)
  {
    var inp := new BFile.OpenRead(contents, garbage);
    back := [];
    while |back| < 8 * |contents|
      invariant inp.Reading() && inp.file == contents && inp.Consumed() == |back| <= 8 * |contents|
      invariant back == Bits(contents)[..|back|]
    {
      var bit := inp.Read();
      back := back + [bit];
    }
  }
}
