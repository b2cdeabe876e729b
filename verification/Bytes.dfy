/** Bits and little-endian words inside a disk block of bytes. */
module Bytes {

  const BSIZE: nat := 512

  type Byte = x: int | 0 <= x < 256
  type Block = b: seq<Byte> | |b| == BSIZE witness seq(BSIZE, _ => 0)

  // --------------------------------------------------------------------- bits

  /** (x & (1 << k)) != 0. */
  predicate BitOf(x: Byte, k: nat) {
    if k == 0 then x % 2 == 1 else BitOf(x / 2, k - 1)
  }

  /** x ^ (1 << k): x | m when the bit is clear, x & ~m when it is set. */
  function FlipBit(x: Byte, k: nat): (y: nat)
    requires k < 8
    ensures y < 256
    decreases k
  {
    Width8();
    FlipSmall(x, k, 8)
  }

  function FlipSmall(x: nat, k: nat, width: nat): (y: nat)
    requires k < width <= 8 && x < P2(width)
    ensures y < P2(width)
    decreases k
  {
    HalfBelow(x, width);
    if k == 0 then x / 2 * 2 + (1 - x % 2) else 2 * FlipSmall(x / 2, k - 1, width - 1) + x % 2
  }

  lemma HalfBelow(x: nat, width: nat)
    requires 0 < width && x < P2(width)
    ensures P2(width) == 2 * P2(width - 1) && x / 2 < P2(width - 1) && x / 2 * 2 + 1 < P2(width)
  {
  }

  function P2(k: nat): (p: nat) {
    if k == 0 then 1 else 2 * P2(k - 1)
  }

  lemma Width8()
    ensures P2(8) == 256
  {
    assert P2(2) == 4;
    assert P2(4) == 16;
    assert P2(6) == 64;
  }

  /** The lowest bit and the rest of a flipped number. */
  lemma FlipHalf(x: nat, k: nat, width: nat)
    requires 0 < k < width <= 8 && x < P2(width)
    ensures x / 2 < P2(width - 1)
    ensures FlipSmall(x, k, width) / 2 == FlipSmall(x / 2, k - 1, width - 1) && FlipSmall(x, k, width) % 2 == x % 2
  {
    HalfBelow(x, width);
    hide P2;
  }

  lemma FlipLowest(x: nat, width: nat)
    requires 0 < width <= 8 && x < P2(width)
    ensures FlipSmall(x, 0, width) / 2 == x / 2 && FlipSmall(x, 0, width) % 2 == 1 - x % 2
  {
    hide P2;
  }

  lemma BitLowest(x: Byte)
    ensures BitOf(x, 0) == (x % 2 == 1)
  {
  }

  lemma BitAbove(x: Byte, j: nat)
    requires j > 0
    ensures BitOf(x, j) == BitOf(x / 2, j - 1)
  {
  }

  lemma {:induction false} FlipSmallOf(x: nat, k: nat, width: nat, j: nat)
    requires k < width <= 8 && x < P2(width) && j < 8 && P2(width) <= 256
    ensures FlipSmall(x, k, width) < 256 && x < 256
    ensures BitOf(FlipSmall(x, k, width), j) <==> (if j == k then !BitOf(x, j) else BitOf(x, j))
    decreases k
  {
    HalfBelow(x, width);
    if k == 0 {
      FlipLowest(x, width);
    } else {
      FlipHalf(x, k, width);
    }
    var y := FlipSmall(x, k, width);
    hide P2, FlipSmall, BitOf;
    if j == 0 {
      BitLowest(x);
      BitLowest(y);
    } else {
      BitAbove(x, j);
      BitAbove(y, j);
      if k > 0 {
        FlipSmallOf(x / 2, k - 1, width - 1, j - 1);
      }
    }
  }

  lemma FlipBitOf(x: Byte, k: nat, j: nat)
    requires k < 8 && j < 8
    ensures BitOf(FlipBit(x, k), j) <==> (if j == k then !BitOf(x, k) else BitOf(x, j))
  {
    Width8();
    FlipSmallOf(x, k, 8, j);
  }

  lemma HalvedPower(x: nat, k: nat)
    requires 0 < k < 8
    ensures x / 2 / [1, 2, 4, 8, 16, 32, 64, 128][k - 1] == x / [1, 2, 4, 8, 16, 32, 64, 128][k]
  {
  }

  /** Bit `k` in numbers. */
  lemma {:induction false} BitPower(x: Byte, k: nat)
    requires k < 8
    ensures BitOf(x, k) <==> x / [1, 2, 4, 8, 16, 32, 64, 128][k] % 2 == 1
    decreases k
  {
    hide BitOf;
    if k == 0 {
      BitLowest(x);
    } else {
      BitAbove(x, k);
      HalvedPower(x, k);
      BitPower(x / 2, k - 1);
    }
  }

  lemma {:induction false} FlipSmallPower(x: nat, k: nat, width: nat)
    requires k < width <= 8 && x < P2(width) && P2(width) <= 256
    ensures x < 256 && FlipSmall(x, k, width) == if BitOf(x, k) then x - P2(k) else x + P2(k)
    decreases k
  {
    HalfBelow(x, width);
    if k > 0 {
      FlipSmallPower(x / 2, k - 1, width - 1);
    }
  }

  lemma FlipPower(x: Byte, k: nat)
    requires k < 8
    ensures FlipBit(x, k) ==
      if BitOf(x, k) then x - [1, 2, 4, 8, 16, 32, 64, 128][k] else x + [1, 2, 4, 8, 16, 32, 64, 128][k]
  {
    Width8();
    FlipSmallPower(x, k, 8);
    assert P2(2) == 4;
    assert P2(4) == 16;
    assert P2(6) == 64;
    hide BitOf, FlipSmall;
  }

  // -------------------------------------------------------------------- words

  const WORD: nat := 0x1_0000_0000

  function Word(b: Block, j: nat): (w: nat)
    requires j < 128
    ensures w < WORD
  {
    (b[4 * j] as int) + 0x100 * (b[4 * j + 1] as int)
    + 0x1_0000 * (b[4 * j + 2] as int) + 0x100_0000 * (b[4 * j + 3] as int)
  }

  function SetWord(b: Block, j: nat, w: nat): (r: Block)
    requires j < 128 && w < WORD
  {
    b[4 * j := w % 0x100][4 * j + 1 := w / 0x100 % 0x100]
     [4 * j + 2 := w / 0x1_0000 % 0x100][4 * j + 3 := w / 0x100_0000]
  }

  lemma SplitWord(w: nat)
    requires w < WORD
    ensures w == w % 0x100 + 0x100 * (w / 0x100 % 0x100)
      + 0x1_0000 * (w / 0x1_0000 % 0x100) + 0x100_0000 * (w / 0x100_0000)
  {
    assert w / 0x1_0000 == w / 0x100 / 0x100 && w / 0x100_0000 == w / 0x1_0000 / 0x100;
  }

  lemma SetWordByte(b: Block, j: nat, w: nat, i: nat)
    requires j < 128 && w < WORD && i < BSIZE && !(4 * j <= i < 4 * j + 4)
    ensures SetWord(b, j, w)[i] == b[i]
  {
  }

  lemma SetWordOther(b: Block, j: nat, w: nat, k: nat)
    requires j < 128 && w < WORD && k < 128 && k != j
    ensures Word(SetWord(b, j, w), k) == Word(b, k)
  {
    SetWordByte(b, j, w, 4 * k);
    SetWordByte(b, j, w, 4 * k + 1);
    SetWordByte(b, j, w, 4 * k + 2);
    SetWordByte(b, j, w, 4 * k + 3);
    hide SetWord;
  }

  lemma SetWordWord(b: Block, j: nat, w: nat, k: nat)
    requires j < 128 && w < WORD && k < 128
    ensures Word(SetWord(b, j, w), k) == if k == j then w else Word(b, k)
  {
    if k == j {
      SplitWord(w);
    } else {
      SetWordOther(b, j, w, k);
    }
  }
}
