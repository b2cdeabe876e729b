/** Inodes as they lie on the disk, IPB of them to a block, and iupdate's store of one of them. */
module Dinodes {
  import opened Bytes
  import opened FileSystem

  const IPB: nat := 8

  function IBlock(sb: Super, i: nat): nat {
    i / IPB + sb.inodestart
  }

  function WordsAt(b: Block, w: nat, n: nat): (r: seq<nat>)
    requires w + n <= 128
    ensures |r| == n && forall m :: 0 <= m < n ==> r[m] == Word(b, w + m)
  {
    if n == 0 then [] else WordsAt(b, w, n - 1) + [Word(b, w + n - 1)]
  }

  /** Dinode `s` of a block: type in the first two bytes, size in word 2, addrs from word 3 on. */
  function InodeOf(b: Block, s: nat): (r: Inode)
    requires s < IPB
  {
    Inode(TypeOf(b, s), Word(b, 16 * s + 2), WordsAt(b, 16 * s + 3, NDIRECT + 1))
  }

  function TypeOf(b: Block, s: nat): nat
    requires s < IPB
  {
    (b[64 * s] as int) + 0x100 * (b[64 * s + 1] as int)
  }

  function SetType(b: Block, s: nat, typ: nat): (r: Block)
    requires s < IPB && typ < 0x1_0000
    ensures forall o :: 0 <= o < BSIZE && o != 64 * s && o != 64 * s + 1 ==> r[o] == b[o]
    ensures TypeOf(r, s) == typ
  {
    b[64 * s := typ % 0x100][64 * s + 1 := typ / 0x100]
  }

  predicate Words(a: seq<nat>) {
    forall m :: 0 <= m < |a| ==> a[m] < WORD
  }

  function SetWords(b: Block, w: nat, a: seq<nat>): (r: Block)
    requires w + |a| <= 128 && Words(a)
  {
    if a == [] then b else SetWord(SetWords(b, w, a[..|a| - 1]), w + |a| - 1, a[|a| - 1])
  }

  lemma {:induction false} SetWordsWord(b: Block, w: nat, a: seq<nat>, j: nat)
    requires w + |a| <= 128 && Words(a) && j < 128
    ensures Word(SetWords(b, w, a), j) == if w <= j < w + |a| then a[j - w] else Word(b, j)
  {
    if a != [] {
      var n := |a| - 1;
      hide SetWord, Word;
      SetWordsWord(b, w, a[..n], j);
      SetWordWord(SetWords(b, w, a[..n]), w + n, a[n], j);
    }
  }

  lemma {:induction false} SetWordsByte(b: Block, w: nat, a: seq<nat>, o: nat)
    requires w + |a| <= 128 && Words(a) && o < BSIZE && !(4 * w <= o < 4 * (w + |a|))
    ensures SetWords(b, w, a)[o] == b[o]
  {
    if a != [] {
      var n := |a| - 1;
      hide SetWord;
      SetWordsByte(b, w, a[..n], o);
      SetWordByte(SetWords(b, w, a[..n]), w + n, a[n], o);
    }
  }

  /** The numbers fit their fields on the disk. */
  predicate Small(ino: Inode) {
    ino.typ < 0x1_0000 && ino.size < WORD && Words(ino.addrs)
  }

  /** The block with the type, the size and the block numbers of dinode `s` replaced. */
  function WithInode(b: Block, s: nat, ino: Inode): (r: Block)
    requires s < IPB && Small(ino)
  {
    SetWords(SetType(b, s, ino.typ), 16 * s + 2, [ino.size] + ino.addrs)
  }

  lemma TypeBytes(b: Block, s: nat, typ: nat, j: nat)
    requires s < IPB && typ < 0x1_0000 && j < 128 && j != 16 * s
    ensures Word(SetType(b, s, typ), j) == Word(b, j)
  {
  }

  lemma WithInodeWord(b: Block, s: nat, ino: Inode, k: nat, q: nat)
    requires s < IPB && Small(ino) && k < IPB && 2 <= q < 16
    ensures Word(WithInode(b, s, ino), 16 * k + q)
         == if k != s then Word(b, 16 * k + q) else if q == 2 then ino.size else ino.addrs[q - 3]
  {
    var c := SetType(b, s, ino.typ);
    hide SetWords, Word;
    SetWordsWord(c, 16 * s + 2, [ino.size] + ino.addrs, 16 * k + q);
    TypeBytes(b, s, ino.typ, 16 * k + q);
  }

  lemma WithInodeType(b: Block, s: nat, ino: Inode, k: nat)
    requires s < IPB && Small(ino) && k < IPB
    ensures TypeOf(WithInode(b, s, ino), k) == if k == s then ino.typ else TypeOf(b, k)
  {
    hide SetWords, SetType;
    var c, a := SetType(b, s, ino.typ), [ino.size] + ino.addrs;
    SetWordsByte(c, 16 * s + 2, a, 64 * k);
    SetWordsByte(c, 16 * s + 2, a, 64 * k + 1);
  }

  lemma WithInodeAddrs(b: Block, s: nat, ino: Inode, k: nat)
    requires s < IPB && Small(ino) && k < IPB
    ensures InodeOf(WithInode(b, s, ino), k).addrs == if k == s then ino.addrs else InodeOf(b, k).addrs
  {
    hide WithInode, Word;
    forall m | 0 <= m <= NDIRECT
      ensures InodeOf(WithInode(b, s, ino), k).addrs[m] == if k == s then ino.addrs[m] else InodeOf(b, k).addrs[m]
    {
      WithInodeWord(b, s, ino, k, 3 + m);
    }
  }

  /** iupdate replaces one inode of the block and no other. */
  lemma WithInodeOf(b: Block, s: nat, ino: Inode, k: nat)
    requires s < IPB && Small(ino) && k < IPB
    ensures InodeOf(WithInode(b, s, ino), k) == if k == s then ino else InodeOf(b, k)
  {
    WithInodeType(b, s, ino, k);
    WithInodeWord(b, s, ino, k, 2);
    WithInodeAddrs(b, s, ino, k);
    hide WithInode, Word, WordsAt;
  }

  /** Dinode `s` of the block in bytes and words: the type in bytes 64s and 64s + 1, the size in word 16s + 2, and the
      thirteen block numbers in the words behind it. */
  ghost predicate DinodeAt(b: Block, s: nat, ino: Inode) {
    && s < 8 && ino.typ == (b[64 * s] as int) + 256 * (b[64 * s + 1] as int) && ino.size == Word(b, 16 * s + 2)
    && forall m :: 0 <= m < 13 ==> ino.addrs[m] == Word(b, 16 * s + 3 + m)
  }

  lemma DinodeLayout(b: Block, s: nat, ino: Inode)
    requires s < 8
    ensures InodeOf(b, s) == ino <==> DinodeAt(b, s, ino)
  {
    hide Word, WordsAt;
    if DinodeAt(b, s, ino) {
      assert InodeOf(b, s).addrs == ino.addrs;
    }
  }

  /** Only those bytes have changed. */
  ghost predicate OnlyDinode(b: Block, c: Block, s: nat) {
    forall o :: 0 <= o < 512 && (o < 64 * s || 64 * s + 2 <= o < 64 * s + 8 || 64 * s + 64 <= o) ==> c[o] == b[o]
  }

  lemma WithInodePlaces(b: Block, s: nat, ino: Inode)
    requires s < 8 && Small(ino)
    ensures DinodeAt(WithInode(b, s, ino), s, ino) && OnlyDinode(b, WithInode(b, s, ino), s)
  {
    var c := WithInode(b, s, ino);
    WithInodeOf(b, s, ino, s);
    DinodeLayout(c, s, ino);
    hide DinodeAt, SetWords, SetType, Word;
    forall o | 0 <= o < 512 && (o < 64 * s || 64 * s + 2 <= o < 64 * s + 8 || 64 * s + 64 <= o) ensures c[o] == b[o] {
      SetWordsByte(SetType(b, s, ino.typ), 16 * s + 2, [ino.size] + ino.addrs, o);
    }
  }

  /** Inode blocks are where mkfs puts them, and hold what the inodes in memory say. */
  ghost predicate Synced(sb: Super, fs: Fs) {
    InodesFit(sb, fs) && forall i :: 0 <= i < |fs.inodes| ==> SyncedAt(sb, fs, i)
  }

  ghost predicate InodesFit(sb: Super, fs: Fs) {
    Shape(sb, fs) && sb.inodestart + |fs.inodes| / IPB < sb.bmapstart
  }

  ghost predicate SyncedAt(sb: Super, fs: Fs, i: nat)
    requires InodesFit(sb, fs) && i < |fs.inodes|
  {
    InodeOf(fs.blocks[IBlock(sb, i)], i % IPB) == fs.inodes[i]
  }

  /** iupdate of inode `i`. */
  function Update(sb: Super, fs: Fs, i: nat): (r: Fs)
    requires i < |fs.inodes| && IBlock(sb, i) < |fs.blocks| && Small(fs.inodes[i])
  {
    var x := IBlock(sb, i);
    fs.(blocks := fs.blocks[x := WithInode(fs.blocks[x], i % IPB, fs.inodes[i])])
  }

  lemma SamePlace(sb: Super, i: nat, j: nat)
    ensures i == j <==> IBlock(sb, i) == IBlock(sb, j) && i % IPB == j % IPB
  {
  }

  lemma IBlockBelow(sb: Super, fs: Fs, i: nat)
    requires InodesFit(sb, fs) && i < |fs.inodes|
    ensures sb.inodestart <= IBlock(sb, i) < sb.bmapstart && IBlock(sb, i) < |fs.blocks|
  {
    assert i / IPB <= |fs.inodes| / IPB;
  }

  lemma UpdateSyncedAt(sb: Super, f: Fs, i: nat, j: nat)
    requires InodesFit(sb, f) && i < |f.inodes| && j < |f.inodes| && Small(f.inodes[i])
    requires j != i ==> SyncedAt(sb, f, j)
    ensures IBlock(sb, i) < |f.blocks| && IBlock(sb, j) < |f.blocks|
    ensures InodeOf(Update(sb, f, i).blocks[IBlock(sb, j)], j % IPB) == f.inodes[j]
  {
    IBlockBelow(sb, f, i);
    IBlockBelow(sb, f, j);
    SamePlace(sb, i, j);
    hide WithInode, InodeOf, Small, IBlock, Shape;
    WithInodeOf(f.blocks[IBlock(sb, i)], i % IPB, f.inodes[i], j % IPB);
  }

  lemma UpdateSyncs(sb: Super, f: Fs, i: nat)
    requires InodesFit(sb, f) && i < |f.inodes| && Small(f.inodes[i])
    requires forall j :: 0 <= j < |f.inodes| && j != i ==> SyncedAt(sb, f, j)
    ensures IBlock(sb, i) < sb.bmapstart && Synced(sb, Update(sb, f, i))
  {
    IBlockBelow(sb, f, i);
    hide Small, InodeOf, IBlock;
    forall j | 0 <= j < |f.inodes| ensures SyncedAt(sb, Update(sb, f, i), j) {
      UpdateSyncedAt(sb, f, i, j);
    }
  }
}
