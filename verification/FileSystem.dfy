/**
 * The block and inode layers of fs.c: the free bitmap, the block numbers an
 * inode reaches directly and through its indirect block, and the bytes of a file.
 * `FileSystemCode` holds balloc, bmap, itrunc, readi and writei themselves.
 */
module FileSystem {
  import opened Bytes

  const NDIRECT: nat := 12
  const NINDIRECT: nat := 128
  const MAXFILE: nat := NDIRECT + NINDIRECT
  /** MAXFILE * BSIZE. */
  const MAX_BYTES: nat := 71_680
  /** Bitmap bits per block, 8 * BSIZE. */
  const BPB: nat := 4096

  /** Block numbers in an inode: NDIRECT data blocks and one indirect block; 0 is none. */
  type Addrs = a: seq<nat> | |a| == NDIRECT + 1 witness seq(NDIRECT + 1, _ => 0)

  datatype Inode = Inode(typ: nat, size: nat, addrs: Addrs)

  datatype Fs = Fs(blocks: seq<Block>, inodes: seq<Inode>)

  /** The part of the super block used here; data blocks start at `datastart`. */
  datatype Super = Super(size: nat, inodestart: nat, bmapstart: nat, datastart: nat)

  predicate Shape(sb: Super, fs: Fs) {
    && 0 < sb.datastart <= sb.size < WORD && sb.bmapstart + (sb.size - 1) / 4096 < sb.datastart
    && |fs.blocks| == sb.size
  }

  // --------------------------------------------------------------- the bitmap

  function BBlock(sb: Super, b: nat): (r: nat)
    ensures b < sb.size && sb.bmapstart + (sb.size - 1) / 4096 < sb.datastart ==> r < sb.datastart
  {
    b / 4096 + sb.bmapstart
  }

  predicate Used(sb: Super, fs: Fs, b: nat)
    requires Shape(sb, fs) && b < sb.size
  {
    BitOf(fs.blocks[BBlock(sb, b)][b % 4096 / 8], b % 8)
  }

  /** Marking a free block in use, or a used one free. */
  function Flip(sb: Super, fs: Fs, b: nat): (r: Fs)
    requires Shape(sb, fs) && b < sb.size
    ensures Shape(sb, r) && r.inodes == fs.inodes
  {
    var m := fs.blocks[BBlock(sb, b)];
    fs.(blocks := fs.blocks[BBlock(sb, b) := m[b % 4096 / 8 := FlipBit(m[b % 4096 / 8], b % 8)]])
  }

  /** The bit of block `b`: bit b % 8 of byte b % 4096 / 8 of block bmapstart + b / 4096. */
  lemma UsedBit(sb: Super, fs: Fs, b: nat)
    requires Shape(sb, fs) && b < sb.size
    ensures sb.bmapstart + b / 4096 < sb.datastart
    ensures Used(sb, fs, b) <==>
      fs.blocks[sb.bmapstart + b / 4096][b % 4096 / 8] / [1, 2, 4, 8, 16, 32, 64, 128][b % 8] % 2 == 1
  {
    BitPower(fs.blocks[sb.bmapstart + b / 4096][b % 4096 / 8], b % 8);
    hide BitOf;
  }

  /** Flipping it adds or takes away that power of two, in that byte alone. */
  lemma FlippedByte(sb: Super, fs: Fs, b: nat)
    requires Shape(sb, fs) && b < sb.size
    ensures sb.bmapstart + b / 4096 < sb.datastart
    ensures var x, o := sb.bmapstart + b / 4096, b % 4096 / 8;
      var y := Flip(sb, fs, b).blocks[x][o];
      && Flip(sb, fs, b).blocks == fs.blocks[x := fs.blocks[x][o := y]]
      && (y as int) - (fs.blocks[x][o] as int) ==
         (if Used(sb, fs, b) then -1 else 1) * [1, 2, 4, 8, 16, 32, 64, 128][b % 8]
  {
    hide BitOf, FlipBit;
    FlipPower(fs.blocks[sb.bmapstart + b / 4096][b % 4096 / 8], b % 8);
  }

  lemma FlipUsed(sb: Super, fs: Fs, b: nat, c: nat)
    requires Shape(sb, fs) && b < sb.size && c < sb.size
    ensures Used(sb, Flip(sb, fs, b), c) <==> (if c == b then !Used(sb, fs, b) else Used(sb, fs, c))
  {
    hide BitOf, FlipBit;
    if BBlock(sb, b) == BBlock(sb, c) && b % 4096 / 8 == c % 4096 / 8 {
      FlipBitOf(fs.blocks[BBlock(sb, b)][b % 4096 / 8], b % 8, c % 8);
      SameBit(b, c);
    }
  }

  lemma SameBit(b: nat, c: nat)
    ensures b == c <==> b / 4096 == c / 4096 && b % 4096 / 8 == c % 4096 / 8 && b % 8 == c % 8
  {
    BitPlace(b);
    BitPlace(c);
  }

  lemma BitPlace(b: nat)
    ensures b == 4096 * (b / 4096) + 8 * (b % 4096 / 8) + b % 8 && b % 4096 % 8 == b % 8
  {
    var q, r := b / 4096, b % 4096;
    assert b == 4096 * q + r && r == 8 * (r / 8) + r % 8;
    Eighth(512 * q + r / 8, r % 8);
  }

  lemma Eighth(q: nat, r: nat)
    requires r < 8
    ensures (8 * q + r) % 8 == r
  {
  }

  // ---------------------------------------------------------- block references

  /** An inode's slots: 0 to 11 direct blocks, 12 the indirect block, 13 to 140 its entries. */
  const SLOTS: nat := NDIRECT + 1 + NINDIRECT

  function Ref(fs: Fs, i: nat, k: nat): (b: nat)
    requires i < |fs.inodes| && k < SLOTS
  {
    var a := fs.inodes[i].addrs;
    if k <= NDIRECT then a[k]
    else if a[NDIRECT] == 0 || a[NDIRECT] >= |fs.blocks| then 0
    else Word(fs.blocks[a[NDIRECT]], k - NDIRECT - 1)
  }

  /** The slot of the bn-th block of a file. */
  function SlotOf(bn: nat): (k: nat)
    ensures bn < MAXFILE ==> k < SLOTS
  {
    if bn < NDIRECT then bn else bn + 1
  }

  /** Every referenced block is a data block marked in use, and referenced from one slot only. */
  ghost predicate Owned(sb: Super, fs: Fs)
    requires Shape(sb, fs)
  {
    && (forall i, k :: 0 <= i < |fs.inodes| && 0 <= k < SLOTS && Ref(fs, i, k) != 0 ==>
         sb.datastart <= Ref(fs, i, k) < sb.size && Used(sb, fs, Ref(fs, i, k)))
    && (forall i, k, j, m :: 0 <= i < |fs.inodes| && 0 <= k < SLOTS && 0 <= j < |fs.inodes| && 0 <= m < SLOTS ==>
         Ref(fs, i, k) == Ref(fs, j, m) ==> Ref(fs, i, k) == 0 || (i == j && k == m))
  }

  /** No holes: every block below the size is there. */
  ghost predicate Dense(fs: Fs, i: nat)
    requires i < |fs.inodes|
  {
    && fs.inodes[i].size <= MAX_BYTES
    && forall bn :: 0 <= bn < MAXFILE && bn * BSIZE < fs.inodes[i].size ==> Ref(fs, i, SlotOf(bn)) != 0
  }

  ghost predicate Good(sb: Super, fs: Fs) {
    && Shape(sb, fs) && Owned(sb, fs)
    && (forall c :: 0 <= c < sb.datastart ==> Used(sb, fs, c))
    && (forall i :: 0 <= i < |fs.inodes| ==> Dense(fs, i))
  }

  lemma RefBelow(sb: Super, fs: Fs, i: nat, k: nat)
    requires Good(sb, fs) && i < |fs.inodes| && k < SLOTS && Ref(fs, i, k) != 0
    ensures 0 < sb.datastart <= Ref(fs, i, k) < |fs.blocks| && Used(sb, fs, Ref(fs, i, k))
  {
  }

  ghost predicate Unowned(fs: Fs, b: nat) {
    forall i, k :: 0 <= i < |fs.inodes| && 0 <= k < SLOTS ==> Ref(fs, i, k) != b
  }

  lemma FreeIsUnowned(sb: Super, fs: Fs, b: nat)
    requires Shape(sb, fs) && Owned(sb, fs) && 0 < b < sb.size && !Used(sb, fs, b)
    ensures Unowned(fs, b)
  {
  }

  // -------------------------------------------------------------------- bytes

  /** Which block of a file holds offset `o`, and where in it. */
  function BlockNo(o: nat): nat {
    o / 512
  }

  function Within(o: nat): (r: nat)
    ensures r < BSIZE
  {
    o % 512
  }

  /** Byte `o` of file `i`; its block must be there. */
  function ByteAt(fs: Fs, i: nat, o: nat): Byte
    requires i < |fs.inodes| && o < MAX_BYTES && Ref(fs, i, SlotOf(BlockNo(o))) < |fs.blocks|
  {
    fs.blocks[Ref(fs, i, SlotOf(BlockNo(o)))][Within(o)]
  }

  /** The contents of file `i` are `c`. */
  ghost predicate FileIs(sb: Super, fs: Fs, i: nat, c: seq<Byte>)
    requires Good(sb, fs) && i < |fs.inodes|
  {
    |c| == fs.inodes[i].size && forall o :: 0 <= o < |c| ==> Present(sb, fs, i, o) && c[o] == ByteAt(fs, i, o)
  }

  ghost predicate Present(sb: Super, fs: Fs, i: nat, o: nat)
    requires Shape(sb, fs) && i < |fs.inodes|
  {
    o < MAX_BYTES && 0 < Ref(fs, i, SlotOf(BlockNo(o))) < |fs.blocks|
  }

  /** Byte `o` of file `i` where the disk has it: the first twelve blocks of the file are addrs[0] to addrs[11] in this
      order, and the numbers of the 128 behind them are the words of block addrs[12]. */
  ghost predicate StoredAt(fs: Fs, i: nat, o: int, x: Byte) {
    && i < |fs.inodes| && 0 <= o < 71_680
    && var a := fs.inodes[i].addrs;
       if o < 6_144 then a[o / 512] < |fs.blocks| && fs.blocks[a[o / 512]][o % 512] == x
       else
         && a[12] < |fs.blocks|
         && var b := Word(fs.blocks[a[12]], o / 512 - 12);
            b < |fs.blocks| && fs.blocks[b][o % 512] == x
  }

  lemma ByteStored(sb: Super, fs: Fs, i: nat, o: nat, x: Byte)
    requires Good(sb, fs) && i < |fs.inodes| && o < fs.inodes[i].size
    ensures Present(sb, fs, i, o) && (x == ByteAt(fs, i, o) <==> StoredAt(fs, i, o, x))
  {
    hide Owned, Used, Word;
    assert Dense(fs, i);
    var bn := o / 512;
    assert bn * BSIZE <= o && bn < MAXFILE;
    RefBelow(sb, fs, i, SlotOf(bn));
    if bn >= 12 {
      assert Ref(fs, i, SlotOf(bn)) == Word(fs.blocks[fs.inodes[i].addrs[12]], bn - 12);
    }
  }

  /** So a file's contents are its bytes in that layout. */
  lemma FileLayout(sb: Super, fs: Fs, i: nat, c: seq<Byte>)
    requires Good(sb, fs) && i < |fs.inodes|
    ensures FileIs(sb, fs, i, c) <==>
      |c| == fs.inodes[i].size && forall o :: 0 <= o < |c| ==> StoredAt(fs, i, o, c[o])
  {
    hide Owned, Used, Dense, ByteAt, StoredAt, Ref, SlotOf, BlockNo;
    if |c| == fs.inodes[i].size {
      forall o | 0 <= o < |c|
        ensures Present(sb, fs, i, o) && (c[o] == ByteAt(fs, i, o) <==> StoredAt(fs, i, o, c[o]))
      {
        ByteStored(sb, fs, i, o, c[o]);
      }
    }
  }

  // ---------------------------------------------------------- what steps keep

  ghost predicate SameRefs(f: Fs, g: Fs) {
    && |f.inodes| == |g.inodes|
    && forall i, k :: 0 <= i < |f.inodes| && 0 <= k < SLOTS ==> Ref(g, i, k) == Ref(f, i, k)
  }

  /** Same references but for slot `k` of inode `i`, which becomes `b`. */
  ghost predicate PutRef(f: Fs, g: Fs, i: nat, k: nat, b: nat) {
    && |f.inodes| == |g.inodes| && i < |f.inodes| && k < SLOTS
    && forall j, m :: 0 <= j < |f.inodes| && 0 <= m < SLOTS ==>
         Ref(g, j, m) == if j == i && m == k then b else Ref(f, j, m)
  }

  /** Blocks in use stay in use, and no byte of any file changes. */
  ghost predicate KeepsBytes(sb: Super, f: Fs, g: Fs)
    requires Shape(sb, f) && Shape(sb, g)
  {
    && |f.inodes| == |g.inodes|
    && forall i, o :: 0 <= i < |f.inodes| && o >= 0 && Present(sb, f, i, o) ==>
         Present(sb, g, i, o) && ByteAt(g, i, o) == ByteAt(f, i, o)
  }

  function Zero(): (b: Block)
    ensures forall o :: 0 <= o < BSIZE ==> b[o] == 0
  {
    seq(BSIZE, _ => 0)
  }

  /** balloc: block `b` marked in use and zeroed. */
  function Alloc(sb: Super, fs: Fs, b: nat): (r: Fs)
    requires Shape(sb, fs) && b < sb.size
    ensures Shape(sb, r) && r.inodes == fs.inodes
  {
    var f := Flip(sb, fs, b);
    f.(blocks := f.blocks[b := Zero()])
  }

  lemma AllocBlocks(sb: Super, fs: Fs, b: nat, x: nat)
    requires Shape(sb, fs) && sb.datastart <= x < sb.size && b < sb.size
    ensures Alloc(sb, fs, b).blocks[x] == if x == b then Zero() else fs.blocks[x]
  {
    assert BBlock(sb, b) < sb.datastart;
  }

  lemma AllocRefs(sb: Super, fs: Fs, b: nat)
    requires Shape(sb, fs) && Owned(sb, fs) && sb.datastart <= b < sb.size && !Used(sb, fs, b)
    ensures SameRefs(fs, Alloc(sb, fs, b)) && Unowned(Alloc(sb, fs, b), b)
  {
    FreeIsUnowned(sb, fs, b);
    var g := Alloc(sb, fs, b);
    forall i, k | 0 <= i < |fs.inodes| && 0 <= k < SLOTS ensures Ref(g, i, k) == Ref(fs, i, k) {
      assert Ref(fs, i, NDIRECT) != b;
      if k > NDIRECT && Ref(fs, i, NDIRECT) != 0 {
        AllocBlocks(sb, fs, b, Ref(fs, i, NDIRECT));
      }
    }
  }

  lemma AllocBitmap(sb: Super, fs: Fs, b: nat, c: nat)
    requires Shape(sb, fs) && sb.datastart <= b < sb.size && c < sb.size
    ensures Alloc(sb, fs, b).blocks[BBlock(sb, c)] == Flip(sb, fs, b).blocks[BBlock(sb, c)]
  {
    hide Flip, Zero, BBlock;
  }

  lemma SameBitmap(sb: Super, f: Fs, g: Fs, c: nat)
    requires Shape(sb, f) && Shape(sb, g) && c < sb.size && f.blocks[BBlock(sb, c)] == g.blocks[BBlock(sb, c)]
    ensures Used(sb, f, c) <==> Used(sb, g, c)
  {
  }

  lemma AllocUsed(sb: Super, fs: Fs, b: nat, c: nat)
    requires Shape(sb, fs) && sb.datastart <= b < sb.size && c < sb.size && !Used(sb, fs, b)
    ensures Used(sb, Alloc(sb, fs, b), c) <==> c == b || Used(sb, fs, c)
  {
    FlipUsed(sb, fs, b, c);
    AllocBitmap(sb, fs, b, c);
    hide Alloc, Flip, BBlock;
    SameBitmap(sb, Alloc(sb, fs, b), Flip(sb, fs, b), c);
  }

  /** On the disk `e` the bit of block `b` has been turned on or off, and nothing else in its bitmap block; no other
      block has changed but, when it is turned on, block `b` itself, which is all zeros then. */
  ghost predicate BitTurned(sb: Super, d: seq<Block>, e: seq<Block>, b: nat, on: bool) {
    var x, o, p := sb.bmapstart + b / 4096, b % 4096 / 8, [1, 2, 4, 8, 16, 32, 64, 128][b % 8];
    && x < |d| == |e| && e[x] == d[x][o := e[x][o]]
    && (d[x][o] as int) / p % 2 == (if on then 0 else 1)
    && (e[x][o] as int) - (d[x][o] as int) == (if on then p else -p)
    && (forall y :: 0 <= y < |d| && y != x && y != b ==> e[y] == d[y])
    && b < |d| && (if on then forall z :: 0 <= z < 512 ==> e[b][z] == 0 else b != x ==> e[b] == d[b])
  }

  lemma AllocTurnsBit(sb: Super, fs: Fs, b: nat)
    requires Shape(sb, fs) && sb.datastart <= b < sb.size && !Used(sb, fs, b)
    ensures BitTurned(sb, fs.blocks, Alloc(sb, fs, b).blocks, b, true)
  {
    UsedBit(sb, fs, b);
    FlippedByte(sb, fs, b);
    hide Used, Flip;
  }

  lemma FreeTurnsBit(sb: Super, fs: Fs, b: nat)
    requires Shape(sb, fs) && b < sb.size && Used(sb, fs, b)
    ensures BitTurned(sb, fs.blocks, Flip(sb, fs, b).blocks, b, false)
  {
    UsedBit(sb, fs, b);
    FlippedByte(sb, fs, b);
    hide Used, Flip;
  }

  /** balloc takes an unreferenced block; no reference and no byte of any file changes. */
  lemma AllocKeeps(sb: Super, fs: Fs, b: nat)
    requires Good(sb, fs) && sb.datastart <= b < sb.size && !Used(sb, fs, b)
    ensures var g := Alloc(sb, fs, b);
      && Good(sb, g) && SameRefs(fs, g) && Unowned(g, b) && Used(sb, g, b) && g.blocks[b] == Zero()
      && KeepsBytes(sb, fs, g)
  {
    var g := Alloc(sb, fs, b);
    AllocRefs(sb, fs, b);
    AllocUsed(sb, fs, b, b);
    forall c | 0 <= c < sb.datastart ensures Used(sb, g, c) {
      AllocUsed(sb, fs, b, c);
    }
    forall i, k | 0 <= i < |fs.inodes| && 0 <= k < SLOTS && Ref(g, i, k) != 0 ensures Used(sb, g, Ref(g, i, k)) {
      AllocUsed(sb, fs, b, Ref(fs, i, k));
    }
    forall i | 0 <= i < |fs.inodes| ensures Dense(g, i) {
      assert Dense(fs, i);
    }
    forall i, o | 0 <= i < |fs.inodes| && o >= 0 && Present(sb, fs, i, o)
      ensures Present(sb, g, i, o) && ByteAt(g, i, o) == ByteAt(fs, i, o)
    {
      AllocBlocks(sb, fs, b, Ref(fs, i, SlotOf(BlockNo(o))));
    }
  }

  // --------------------------------------------------- filling slots, storing

  /** The metadata blocks, and with them the bitmap, are the same. */
  ghost predicate SameMeta(sb: Super, f: Fs, g: Fs) {
    && Shape(sb, f) && Shape(sb, g)
    && forall x :: 0 <= x < sb.datastart ==> g.blocks[x] == f.blocks[x]
  }

  lemma SameMetaUsed(sb: Super, f: Fs, g: Fs, c: nat)
    requires SameMeta(sb, f, g) && c < sb.size
    ensures Used(sb, g, c) <==> Used(sb, f, c)
  {
    assert BBlock(sb, c) < sb.datastart;
  }

  ghost predicate SameSizes(f: Fs, g: Fs) {
    |f.inodes| == |g.inodes| && forall i :: 0 <= i < |f.inodes| ==> g.inodes[i].size == f.inodes[i].size
  }

  /** Filling an empty slot with a fresh block keeps ownership. */
  lemma PutRefGood(sb: Super, f: Fs, g: Fs, i: nat, k: nat, b: nat)
    requires Good(sb, f) && SameMeta(sb, f, g) && SameSizes(f, g) && PutRef(f, g, i, k, b)
    requires Ref(f, i, k) == 0 && sb.datastart <= b < sb.size && Used(sb, f, b) && Unowned(f, b)
    ensures Good(sb, g)
  {
    forall c | 0 <= c < sb.datastart ensures Used(sb, g, c) {
      SameMetaUsed(sb, f, g, c);
    }
    forall j, m | 0 <= j < |g.inodes| && 0 <= m < SLOTS && Ref(g, j, m) != 0
      ensures sb.datastart <= Ref(g, j, m) < sb.size && Used(sb, g, Ref(g, j, m))
    {
      assert Ref(g, j, m) == if j == i && m == k then b else Ref(f, j, m);
      SameMetaUsed(sb, f, g, Ref(g, j, m));
    }
    forall j | 0 <= j < |g.inodes| ensures Dense(g, j) {
      assert Dense(f, j);
    }
  }

  function PutDirect(fs: Fs, i: nat, k: nat, b: nat): (r: Fs)
    requires i < |fs.inodes| && k <= NDIRECT
  {
    fs.(inodes := fs.inodes[i := fs.inodes[i].(addrs := fs.inodes[i].addrs[k := b])])
  }

  /** Storing a block number in the inode; an indirect block starts out zeroed, so it brings no entries. */
  lemma PutDirectKeeps(sb: Super, f: Fs, i: nat, k: nat, b: nat)
    requires Good(sb, f) && i < |f.inodes| && k <= NDIRECT && Ref(f, i, k) == 0
    requires sb.datastart <= b < sb.size && Used(sb, f, b) && Unowned(f, b) && (k == NDIRECT ==> f.blocks[b] == Zero())
    ensures var g := PutDirect(f, i, k, b); PutRef(f, g, i, k, b) && Good(sb, g) && KeepsBytes(sb, f, g)
  {
    var g := PutDirect(f, i, k, b);
    forall j, m | 0 <= j < |f.inodes| && 0 <= m < SLOTS
      ensures Ref(g, j, m) == if j == i && m == k then b else Ref(f, j, m)
    {
    }
    PutRefGood(sb, f, g, i, k, b);
  }

  function PutEntry(fs: Fs, x: nat, j: nat, b: nat): (r: Fs)
    requires x < |fs.blocks| && j < NINDIRECT && b < WORD
  {
    fs.(blocks := fs.blocks[x := SetWord(fs.blocks[x], j, b)])
  }

  /** A block is referenced from one slot only. */
  lemma OneSlot(sb: Super, f: Fs, i: nat, k: nat, j: nat, m: nat)
    requires Good(sb, f) && i < |f.inodes| && k < SLOTS && j < |f.inodes| && m < SLOTS && Ref(f, i, k) != 0
    ensures Ref(f, i, k) == Ref(f, j, m) ==> i == j && k == m
  {
  }

  lemma PutEntryRefs(sb: Super, f: Fs, i: nat, j: nat, b: nat)
    requires Good(sb, f) && i < |f.inodes| && j < NINDIRECT && 0 < Ref(f, i, NDIRECT) < |f.blocks| && b < WORD
    ensures PutRef(f, PutEntry(f, Ref(f, i, NDIRECT), j, b), i, NDIRECT + 1 + j, b)
  {
    var x := Ref(f, i, NDIRECT);
    var g := PutEntry(f, x, j, b);
    forall i', m | 0 <= i' < |f.inodes| && 0 <= m < SLOTS
      ensures Ref(g, i', m) == if i' == i && m == NDIRECT + 1 + j then b else Ref(f, i', m)
    {
      OneSlot(sb, f, i, NDIRECT, i', NDIRECT);
      hide Good, Word, SetWord;
      if i' == i && m > NDIRECT {
        SetWordWord(f.blocks[x], j, b, m - NDIRECT - 1);
      }
    }
  }

  lemma PutEntryBytes(sb: Super, f: Fs, i: nat, j: nat, b: nat)
    requires Good(sb, f) && i < |f.inodes| && j < NINDIRECT && b < WORD && 0 < Ref(f, i, NDIRECT) < |f.blocks|
    requires Ref(f, i, NDIRECT + 1 + j) == 0 && sb.datastart <= b < sb.size
    requires PutRef(f, PutEntry(f, Ref(f, i, NDIRECT), j, b), i, NDIRECT + 1 + j, b)
    ensures Shape(sb, f) && Shape(sb, PutEntry(f, Ref(f, i, NDIRECT), j, b))
    ensures KeepsBytes(sb, f, PutEntry(f, Ref(f, i, NDIRECT), j, b))
  {
    hide Ref, SetWord, BlockNo, Within, Used, Dense;
    var g := PutEntry(f, Ref(f, i, NDIRECT), j, b);
    forall i', o | 0 <= i' < |f.inodes| && o >= 0 && Present(sb, f, i', o)
      ensures Present(sb, g, i', o) && ByteAt(g, i', o) == ByteAt(f, i', o)
    {
      BlockNoBelow(o);
      OneSlot(sb, f, i, NDIRECT, i', SlotOf(BlockNo(o)));
    }
  }

  /** Storing a block number in the indirect block. */
  lemma PutEntryKeeps(sb: Super, f: Fs, i: nat, j: nat, b: nat)
    requires Good(sb, f) && i < |f.inodes| && j < NINDIRECT && Ref(f, i, NDIRECT) != 0
    requires Ref(f, i, NDIRECT + 1 + j) == 0
    requires sb.datastart <= b < sb.size && Used(sb, f, b) && Unowned(f, b)
    ensures Ref(f, i, NDIRECT) < |f.blocks|
    ensures var g := PutEntry(f, Ref(f, i, NDIRECT), j, b);
      PutRef(f, g, i, NDIRECT + 1 + j, b) && Good(sb, g) && KeepsBytes(sb, f, g)
  {
    hide Ref, SetWord, Used, Unowned, Owned, Dense, KeepsBytes, PutRef;
    RefBelow(sb, f, i, NDIRECT);
    PutEntryRefs(sb, f, i, j, b);
    PutEntryBytes(sb, f, i, j, b);
    PutRefGood(sb, f, PutEntry(f, Ref(f, i, NDIRECT), j, b), i, NDIRECT + 1 + j, b);
  }

  lemma BlockNoBelow(o: nat)
    ensures o < MAX_BYTES <==> BlockNo(o) < MAXFILE
  {
  }

  function Store(fs: Fs, x: nat, data: Block): (r: Fs)
    requires x < |fs.blocks|
  {
    fs.(blocks := fs.blocks[x := data])
  }

  lemma StoreRefs(sb: Super, f: Fs, i: nat, bn: nat, data: Block)
    requires Good(sb, f) && i < |f.inodes| && bn < MAXFILE && 0 < Ref(f, i, SlotOf(bn)) < |f.blocks|
    ensures SameRefs(f, Store(f, Ref(f, i, SlotOf(bn)), data))
  {
    var g := Store(f, Ref(f, i, SlotOf(bn)), data);
    forall j, k | 0 <= j < |f.inodes| && 0 <= k < SLOTS ensures Ref(g, j, k) == Ref(f, j, k) {
      OneSlot(sb, f, i, SlotOf(bn), j, NDIRECT);
    }
  }

  /** The metadata, the references and the sizes are the same. */
  lemma SameMetaGood(sb: Super, f: Fs, g: Fs)
    requires Good(sb, f) && SameMeta(sb, f, g) && SameRefs(f, g) && SameSizes(f, g)
    ensures Good(sb, g)
  {
    forall j, k | 0 <= j < |g.inodes| && 0 <= k < SLOTS && Ref(g, j, k) != 0 ensures Used(sb, g, Ref(g, j, k)) {
      SameMetaUsed(sb, f, g, Ref(g, j, k));
    }
    forall c | 0 <= c < sb.datastart ensures Used(sb, g, c) {
      SameMetaUsed(sb, f, g, c);
    }
    forall j | 0 <= j < |g.inodes| ensures Dense(g, j) {
      assert Dense(f, j);
    }
  }

  /** Storing into a data block changes that stretch of that file and nothing else. */
  lemma StoreKeeps(sb: Super, f: Fs, i: nat, bn: nat, data: Block)
    requires Good(sb, f) && i < |f.inodes| && bn < MAXFILE && Ref(f, i, SlotOf(bn)) != 0
    ensures Ref(f, i, SlotOf(bn)) < |f.blocks|
    ensures var g := Store(f, Ref(f, i, SlotOf(bn)), data);
      && Good(sb, g) && SameRefs(f, g) && g.inodes == f.inodes
      && (forall j, o :: 0 <= j < |f.inodes| && o >= 0 && Present(sb, f, j, o) ==>
           Present(sb, g, j, o) && ByteAt(g, j, o) == if j == i && BlockNo(o) == bn then data[Within(o)]
             else ByteAt(f, j, o))
  {
    var x := Ref(f, i, SlotOf(bn));
    RefBelow(sb, f, i, SlotOf(bn));
    StoreRefs(sb, f, i, bn, data);
    var g := Store(f, x, data);
    SameMetaGood(sb, f, g);
    hide Good, Ref, BlockNo, Within;
    forall j, o | 0 <= j < |f.inodes| && o >= 0 && Present(sb, f, j, o)
      ensures Present(sb, g, j, o)
      ensures ByteAt(g, j, o) == if j == i && BlockNo(o) == bn then data[Within(o)] else ByteAt(f, j, o)
    {
      BlockNoBelow(o);
      OneSlot(sb, f, i, SlotOf(bn), j, SlotOf(BlockNo(o)));
    }
  }

  // ------------------------------------------------------------------- writing

  /** Every filled slot stays as it is, and inodes other than `i` are untouched. */
  ghost predicate Extends(f: Fs, g: Fs, i: nat) {
    && |f.inodes| == |g.inodes| && i < |f.inodes|
    && (forall j :: 0 <= j < |f.inodes| && j != i ==> g.inodes[j] == f.inodes[j])
    && (forall j, m :: 0 <= j < |f.inodes| && 0 <= m < SLOTS && (j != i || Ref(f, j, m) != 0) ==>
         Ref(g, j, m) == Ref(f, j, m))
    && g.inodes[i].typ == f.inodes[i].typ && g.inodes[i].size == f.inodes[i].size
  }

  /** `f` has become `g` after the bytes `src` were written to file `i` from `off` on, its size aside. */
  ghost predicate Wrote(sb: Super, f: Fs, g: Fs, i: nat, off: nat, src: seq<Byte>) {
    && Good(sb, f) && Good(sb, g) && Extends(f, g, i)
    && (forall j, o ::
          0 <= j < |f.inodes| && o >= 0 && Present(sb, f, j, o) && (j != i || o < off || o >= off + |src|) ==>
         Present(sb, g, j, o) && ByteAt(g, j, o) == ByteAt(f, j, o))
    && (forall o :: off <= o < off + |src| ==> Present(sb, g, i, o) && ByteAt(g, i, o) == src[o - off])
  }

  /** `t` is `h` with the chunk `more` at offset `at` of file `i` overwritten. */
  ghost predicate Chunk(sb: Super, h: Fs, t: Fs, i: nat, at: nat, more: seq<Byte>)
    requires Shape(sb, h) && Shape(sb, t)
  {
    && |h.inodes| == |t.inodes|
    && forall j, o :: 0 <= j < |h.inodes| && o >= 0 && Present(sb, h, j, o) ==>
         Present(sb, t, j, o) && ByteAt(t, j, o) == if j == i && at <= o < at + |more| then more[o - at]
           else ByteAt(h, j, o)
  }

  /** memmove into part of a block. */
  function Patch(b: Block, q: nat, more: seq<Byte>): (r: Block)
    requires q + |more| <= BSIZE
  {
    b[..q] + more + b[q + |more|..]
  }

  lemma PatchBytes(b: Block, q: nat, more: seq<Byte>)
    requires q + |more| <= BSIZE
    ensures forall x :: 0 <= x < BSIZE ==> Patch(b, q, more)[x] == if q <= x < q + |more| then more[x - q] else b[x]
  {
  }

  /** A chunk stored into block `x`, which holds offset `at` of its file. */
  function StorePiece(fs: Fs, x: nat, at: nat, more: seq<Byte>): (r: Fs)
    requires x < |fs.blocks| && Within(at) + |more| <= BSIZE
    ensures r.inodes == fs.inodes
  {
    Store(fs, x, Patch(fs.blocks[x], Within(at), more))
  }

  /** Updating part of the block that holds offset `at`. */
  lemma StoreChunk(sb: Super, h: Fs, i: nat, at: nat, more: seq<Byte>, x: nat)
    requires Good(sb, h) && i < |h.inodes| && |more| > 0 && Within(at) + |more| <= BSIZE && BlockNo(at) < MAXFILE
    requires x == Ref(h, i, SlotOf(BlockNo(at))) && 0 < x < |h.blocks|
    ensures var t := StorePiece(h, x, at, more); Good(sb, t) && SameRefs(h, t) && Chunk(sb, h, t, i, at, more)
    ensures forall o :: at <= o < at + |more| ==> Present(sb, h, i, o)
  {
    var data := Patch(h.blocks[x], Within(at), more);
    PatchBytes(h.blocks[x], Within(at), more);
    StoreKeeps(sb, h, i, BlockNo(at), data);
    hide Good, SameRefs, Patch, BlockNo, Within, Ref;
    var t := Store(h, x, data);
    forall o | at <= o < at + |more| ensures Present(sb, h, i, o) {
      InChunk(at, |more|, o);
    }
    forall j, o | 0 <= j < |h.inodes| && o >= 0 && Present(sb, h, j, o)
      ensures Present(sb, t, j, o)
      ensures ByteAt(t, j, o) == if j == i && at <= o < at + |more| then more[o - at] else ByteAt(h, j, o)
    {
      InChunk(at, |more|, o);
    }
  }

  /** One turn of writei's loop: bmap turns `g` into `h`, and the chunk is stored in it. */
  lemma WriteChunk(sb: Super, f: Fs, g: Fs, h: Fs, t: Fs, i: nat, off: nat, src: seq<Byte>, more: seq<Byte>)
    requires Wrote(sb, f, g, i, off, src) && Good(sb, h) && Extends(g, h, i) && KeepsBytes(sb, g, h)
    requires Good(sb, t) && SameRefs(h, t) && t.inodes == h.inodes && Chunk(sb, h, t, i, off + |src|, more)
    requires forall o :: off + |src| <= o < off + |src| + |more| ==> Present(sb, h, i, o)
    ensures Wrote(sb, f, t, i, off, src + more)
  {
    var at := off + |src|;
    forall j, o | 0 <= j < |f.inodes| && o >= 0 && Present(sb, f, j, o) && (j != i || o < off || o >= at + |more|)
      ensures Present(sb, t, j, o) && ByteAt(t, j, o) == ByteAt(f, j, o)
    {
      assert Present(sb, g, j, o) && Present(sb, h, j, o);
    }
    forall o | off <= o < at + |more| ensures Present(sb, t, i, o) && ByteAt(t, i, o) == (src + more)[o - off] {
      assert o < at ==> Present(sb, g, i, o);
      assert Present(sb, h, i, o);
    }
  }

  lemma ChunkStored(sb: Super, f: Fs, g: Fs, h: Fs, i: nat, off: nat, src: seq<Byte>, more: seq<Byte>, x: nat)
    requires Wrote(sb, f, g, i, off, src) && Good(sb, h) && Extends(g, h, i) && KeepsBytes(sb, g, h) && |more| > 0
    requires var at := off + |src|;
      Within(at) + |more| <= BSIZE && BlockNo(at) < MAXFILE && x == Ref(h, i, SlotOf(BlockNo(at))) != 0
    ensures x < |h.blocks| && Good(sb, StorePiece(h, x, off + |src|, more))
    ensures Wrote(sb, f, StorePiece(h, x, off + |src|, more), i, off, src + more)
  {
    hide *;
    ExtendsIn(g, h, i);
    RefBelow(sb, h, i, SlotOf(BlockNo(off + |src|)));
    StoreChunk(sb, h, i, off + |src|, more, x);
    WriteChunk(sb, f, g, h, StorePiece(h, x, off + |src|, more), i, off, src, more);
  }

  lemma ExtendsIn(f: Fs, g: Fs, i: nat)
    requires Extends(f, g, i)
    ensures i < |f.inodes| == |g.inodes| && g.inodes[i].size == f.inodes[i].size
  {
  }

  /** Offset `o` falls in the chunk [at, at + m), which does not cross a block boundary, exactly
      when it is in the same block and in the chunk's part of it. */
  lemma InChunk(at: nat, m: nat, o: nat)
    requires Within(at) + m <= BSIZE && m > 0
    ensures at <= o < at + m <==> BlockNo(o) == BlockNo(at) && Within(at) <= Within(o) < Within(at) + m
    ensures at <= o < at + m ==> Within(o) - Within(at) == o - at
  {
  }

  // -------------------------------------------------------------- log_writes

  /** One log_write: the block and its contents. */
  datatype Stored = Stored(bno: nat, data: Block)

  /** The blocks after the log_writes `st`, first to last. */
  ghost function Played(d: seq<Block>, st: seq<Stored>): (r: seq<Block>)
    ensures |r| == |d|
  {
    if st == [] then d
    else
      var r, x := Played(d, st[..|st| - 1]), st[|st| - 1];
      if x.bno < |d| then r[x.bno := x.data] else r
  }

  ghost function Touched(st: seq<Stored>): (r: set<nat>) {
    if st == [] then {} else Touched(st[..|st| - 1]) + {st[|st| - 1].bno}
  }

  lemma PlayedSnoc(d: seq<Block>, st: seq<Stored>, x: Stored)
    requires x.bno < |d|
    ensures Played(d, st + [x]) == Played(d, st)[x.bno := x.data] && Touched(st + [x]) == Touched(st) + {x.bno}
  {
    assert (st + [x])[..|st + [x]| - 1] == st;
  }

  /** The blocks in front of the bitmap, and so the inode blocks, are the same. */
  ghost predicate SameInodeBlocks(sb: Super, f: Fs, g: Fs) {
    && Shape(sb, f) && Shape(sb, g) && |f.inodes| == |g.inodes|
    && forall x :: 0 <= x < sb.bmapstart ==> g.blocks[x] == f.blocks[x]
  }

  /** A block and the bitmap block with its bit. */
  function Near(sb: Super, b: nat): (r: set<nat>)
    ensures b in r
  {
    {b, BBlock(sb, b)}
  }

  /** The inode's indirect block, if there is one, and its bitmap block. */
  function Indirect(sb: Super, ino: Inode): (r: set<nat>)
    ensures |r| <= 2
  {
    if ino.addrs[NDIRECT] == 0 then {} else Near(sb, ino.addrs[NDIRECT])
  }

  /** Slot `k` of inode `i` was empty and now holds the new block `b`; nothing else can be seen. */
  ghost predicate Filled(sb: Super, f: Fs, g: Fs, i: nat, k: nat, b: nat) {
    && Shape(sb, f) && Shape(sb, g) && PutRef(f, g, i, k, b) && Extends(f, g, i) && KeepsBytes(sb, f, g)
    && SameInodeBlocks(sb, f, g)
  }
}
