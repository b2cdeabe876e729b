/** balloc, bfree, bmap, itrunc, iupdate, readi and writei of fs.c and filewrite of file.c, over blocks as bread
    returns them and with every store into one logged. */
module FileSystemCode {
  import opened Bytes
  import opened Common
  import opened Dinodes
  import opened FileSystem
  import Counting
  import RedoLog

  const T_DEV: nat := 3

  /** The most filewrite hands to one writei: ((MAXOPBLOCKS - 1 - 1 - 2) / 2) * 512. */
  const CHUNK_MAX: nat := 1536

  /** The sum of two unsigned words. */
  function Plus(a: nat, b: nat): (r: nat)
    requires a < WORD && b < WORD
    ensures r < a <==> a + b >= WORD
    ensures a + b < WORD ==> r == a + b
  {
    (a + b) % WORD
  }

  lemma ExtendsTransitive(f: Fs, g: Fs, h: Fs, i: nat)
    requires Extends(f, g, i) && Extends(g, h, i)
    ensures Extends(f, h, i)
  {
  }

  lemma KeepsBytesTransitive(sb: Super, f: Fs, g: Fs, h: Fs)
    requires Shape(sb, f) && Shape(sb, g) && Shape(sb, h) && KeepsBytes(sb, f, g) && KeepsBytes(sb, g, h)
    ensures KeepsBytes(sb, f, h)
  {
    forall i, o | 0 <= i < |f.inodes| && o >= 0 && Present(sb, f, i, o)
      ensures Present(sb, h, i, o) && ByteAt(h, i, o) == ByteAt(f, i, o)
    {
      assert Present(sb, g, i, o);
    }
  }

  /** No block is left to allocate. */
  ghost predicate Full(sb: Super, fs: Fs) {
    Shape(sb, fs) && forall c :: 0 <= c < sb.size ==> Used(sb, fs, c)
  }

  class FileStore {
    const sb: Super
    var blocks: seq<Block>
    var inodes: seq<Inode>
    /** The log_writes since begin_op, when the blocks were `start`. */
    ghost var stores: seq<Stored>
    ghost var start: seq<Block>

    ghost function State(): Fs
      reads this`blocks, this`inodes
    {
      Fs(blocks, inodes)
    }

    /** The blocks are those of begin_op with the log_writes made since, none of them to the log or before it. */
    ghost predicate Tracked()
      reads this
      ensures Tracked() ==> InodesFit(sb, State())
    {
      && InodesFit(sb, State()) && |start| == |blocks| && blocks == Played(start, stores)
      && forall b :: b in Touched(stores) ==> sb.inodestart <= b < sb.size
    }

    ghost predicate Valid()
      reads this
    {
      Good(sb, State()) && Tracked()
    }

    /** The blocks this call has logged. */
    ghost function Dirty(): set<nat>
      reads this`stores
    {
      Touched(stores)
    }

    constructor (sb: Super, blocks: seq<Block>, inodes: seq<Inode>)
      ensures this.sb == sb && this.blocks == blocks && this.inodes == inodes && start == blocks && stores == []
    {
      this.sb, this.blocks, this.inodes, start, stores := sb, blocks, inodes, blocks, [];
    }

    /** A store into a block, and log_write. */
    method LogStore(b: nat, data: Block)
      requires Tracked() && sb.inodestart <= b < sb.size
      modifies this`blocks, this`stores
      ensures blocks == old(blocks)[b := data] && Tracked() && Dirty() == old(Dirty()) + {b}
    {
      PlayedSnoc(start, stores, Stored(b, data));
      blocks, stores := blocks[b := data], stores + [Stored(b, data)];
    }

    /** balloc's loop over one bitmap block: the first clear bit from `b` on, or where the loop ends. */
    method ScanBitmap(b: nat) returns (bi: nat)
      requires Shape(sb, State()) && Aligned(b) && b < sb.size
      ensures 0 < bi || !Used(sb, State(), b)
      ensures forall c :: b <= c < b + bi && c < sb.size ==> Used(sb, State(), c)
      ensures bi < BPB && b + bi < sb.size ==> !Used(sb, State(), b + bi)
      ensures bi <= BPB && b + bi <= sb.size
    {
      bi := 0;
      SameBlock(b, 0);
      while bi < BPB && b + bi < sb.size && BitOf(blocks[BBlock(sb, b)][bi / 8], bi % 8)
        invariant 0 <= bi <= BPB && b + bi <= sb.size
        invariant forall c :: b <= c < b + bi ==> Used(sb, State(), c)
      {
        SameBlock(b, bi);
        bi := bi + 1;
      }
      if bi < BPB {
        SameBlock(b, bi);
      }
    }

    /** Marking block `b` in use, and bzero. */
    method Claim(b: nat)
      requires Tracked() && sb.datastart <= b < sb.size && !Used(sb, State(), b)
      modifies this`blocks, this`stores
      ensures State() == Alloc(sb, old(State()), b) && Tracked() && Dirty() == old(Dirty()) + Near(sb, b)
    {
      hide Tracked, Played, Touched, BitOf, FlipBit;
      var x, bi := BBlock(sb, b), b % 4096;
      BitPlace(b);
      LogStore(x, blocks[x][bi / 8 := FlipBit(blocks[x][bi / 8], bi % 8)]);
      LogStore(b, Zero());
    }

    /** balloc: the first block whose bit is clear, now in use and zeroed; None is a panic. */
    method Balloc() returns (r: Option<nat>)
      requires Valid()
      modifies this`blocks, this`stores
      ensures Tracked()
      ensures r.None? ==> blocks == old(blocks) && Full(sb, State())
      ensures r.Some? ==>
        && sb.datastart <= r.value < sb.size && !Used(sb, old(State()), r.value)
        && (forall c :: 0 <= c < r.value ==> Used(sb, old(State()), c))
        && State() == Alloc(sb, old(State()), r.value) && Dirty() == old(Dirty()) + Near(sb, r.value)
        && BitTurned(sb, old(blocks), blocks, r.value, true)
    {
      hide Used, Alloc, Owned, Dense, Tracked, Near, Aligned, BBlock, BitTurned;
      AlignedNext(0);
      var b := 0;
      while b < sb.size
        invariant Aligned(b) && blocks == old(blocks) && stores == old(stores)
        invariant forall c :: 0 <= c < b && c < sb.size ==> Used(sb, State(), c)
      {
        var bi := ScanBitmap(b);
        if bi < BPB && b + bi < sb.size {
          AllocTurnsBit(sb, State(), b + bi);
          Claim(b + bi);
          return Some(b + bi);
        }
        AlignedNext(b);
        b := b + BPB;
      }
      assert State() == old(State());
      r := None;
    }

    /** bfree: false is the panic "freeing free block". */
    method Bfree(b: nat) returns (ok: bool)
      requires Tracked() && b < sb.size
      modifies this`blocks, this`stores
      ensures ok <==> Used(sb, old(State()), b)
      ensures State() == (if ok then Flip(sb, old(State()), b) else old(State())) && Tracked()
      ensures ok ==> BitTurned(sb, old(blocks), blocks, b, false)
    {
      hide Tracked, BitOf, FlipBit, BitTurned;
      var x, bi := BBlock(sb, b), b % 4096;
      BitPlace(b);
      if !BitOf(blocks[x][bi / 8], bi % 8) {
        return false;
      }
      FreeTurnsBit(sb, State(), b);
      LogStore(x, blocks[x][bi / 8 := FlipBit(blocks[x][bi / 8], bi % 8)]);
      ok := true;
    }

    /** bmap filling an empty slot of the inode with a new block. */
    method FillDirect(i: nat, k: nat) returns (r: Option<nat>)
      requires Valid() && i < |inodes| && k <= NDIRECT && inodes[i].addrs[k] == 0
      modifies this`blocks, this`inodes, this`stores
      ensures r.Some? ==> Valid() && r.value != 0 && Filled(sb, old(State()), State(), i, k, r.value)
      ensures |inodes| == |old(inodes)|
      ensures r.Some? ==> Dirty() == old(Dirty()) + Near(sb, r.value) && inodes[i].addrs[k] == r.value
      ensures r.None? ==> Full(sb, State())
      ensures Tracked()
    {
      ghost var f := State();
      hide Good, Filled, Alloc, Used, Full, Near, Played, Touched;
      r := Balloc();
      if r.Some? {
        DirectFilled(sb, f, i, k, r.value);
        inodes := inodes[i := inodes[i].(addrs := inodes[i].addrs[k := r.value])];
      }
    }

    /** bmap filling an empty entry of the indirect block. */
    method FillEntry(i: nat, j: nat) returns (r: Option<nat>)
      requires Valid() && i < |inodes| && j < NINDIRECT && inodes[i].addrs[NDIRECT] != 0
      requires Ref(State(), i, NDIRECT + 1 + j) == 0
      modifies this`blocks, this`inodes, this`stores
      ensures r.Some? ==> Valid() && r.value != 0 && Filled(sb, old(State()), State(), i, NDIRECT + 1 + j, r.value)
      ensures r.Some? ==> Dirty() == old(Dirty()) + Near(sb, r.value) + {inodes[i].addrs[NDIRECT]}
      ensures inodes == old(inodes)
      ensures r.None? ==> Full(sb, State())
      ensures Tracked()
    {
      ghost var f := State();
      hide Good, Filled, Alloc, Used, Full, Near, Ref, Tracked;
      r := Balloc();
      if r.Some? {
        EntryFilled(sb, f, i, j, r.value);
        var x := inodes[i].addrs[NDIRECT];
        LogStore(x, SetWord(blocks[x], j, r.value));
      }
    }

    /** bmap of a block number behind the direct ones. */
    method MapEntry(i: nat, bn: nat) returns (r: Option<nat>)
      requires Valid() && i < |inodes| && NDIRECT <= bn < MAXFILE
      modifies this`blocks, this`inodes, this`stores
      ensures r.Some? ==> Valid() && Mapped(sb, old(State()), State(), i, bn, r.value)
      ensures r.Some? ==> Dirty() <= old(Dirty()) + Indirect(sb, inodes[i]) + Near(sb, r.value)
      ensures Ref(old(State()), i, SlotOf(bn)) != 0 ==> r.Some? && unchanged(this)
      ensures r.Some? ==>
        inodes[i].addrs[12] < |blocks| && Word(blocks[inodes[i].addrs[12]], bn - 12) == r.value
      ensures r.None? ==> Full(sb, State())
      ensures Tracked()
    {
      hide Good, Filled, Full, Near, Ref, Mapped, Tracked, SlotOf, Touched;
      ghost var f := State();
      EntryNeedsBlock(f, i, bn);
      if inodes[i].addrs[NDIRECT] == 0 {
        r := FillDirect(i, NDIRECT);
        if r == None {
          return;
        }
      }
      ghost var g := State();
      EntryOf(sb, g, i, bn);
      var addr := Word(blocks[inodes[i].addrs[NDIRECT]], bn - NDIRECT);
      if addr != 0 {
        MappedEntry(sb, f, g, i, bn);
        return Some(addr);
      }
      r := FillEntry(i, bn - NDIRECT);
      if r.Some? {
        MappedTwice(sb, f, g, State(), i, bn, r.value);
        FilledRef(sb, g, State(), i, SlotOf(bn), r.value);
        EntryOf(sb, State(), i, bn);
      }
    }

    /** bmap: the block number of block `bn` of the file, allocating what is missing: addrs[bn] of the inode, or word
        bn - 12 of the block addrs[12]. None is a panic, out of blocks or out of range; a block that is there is found
        without change. */
    method Bmap(i: nat, bn: nat) returns (r: Option<nat>)
      requires Valid() && i < |inodes|
      modifies this`blocks, this`inodes, this`stores
      ensures r.Some? ==> Valid() && Mapped(sb, old(State()), State(), i, bn, r.value)
      ensures r.Some? ==> Dirty() <= old(Dirty()) + Indirect(sb, inodes[i]) + Near(sb, r.value)
      ensures bn < MAXFILE && Ref(old(State()), i, SlotOf(bn)) != 0 ==> r.Some? && unchanged(this)
      ensures bn >= MAXFILE ==> r == None && unchanged(this)
      ensures bn < MAXFILE && r == None ==> Full(sb, State())
      ensures r.Some? && bn < 12 ==> inodes[i].addrs[bn] == r.value
      ensures r.Some? && bn >= 12 ==>
        bn < 140 && inodes[i].addrs[12] < |blocks| && Word(blocks[inodes[i].addrs[12]], bn - 12) == r.value
      ensures Tracked()
    {
      hide Good, Filled, Full, Near, Mapped, Indirect, Tracked, Touched;
      ghost var f := State();
      if bn < NDIRECT {
        if inodes[i].addrs[bn] != 0 {
          MappedAlready(sb, f, i, bn);
          return Some(inodes[i].addrs[bn]);
        }
        r := FillDirect(i, bn);
        if r.Some? {
          MappedOnce(sb, f, State(), i, bn, r.value);
        }
        return;
      }
      if bn - NDIRECT < NINDIRECT {
        r := MapEntry(i, bn);
        return;
      }
      r := None;
    }

    /** The loop body of readi: one chunk, within one block. The block is there, so nothing is allocated. */
    method ReadStep(i: nat, at: nat, left: nat, ghost c: seq<Byte>) returns (chunk: seq<Byte>)
      requires Valid() && i < |inodes| && FileIs(sb, State(), i, c) && 0 < left && at + left <= |c|
      modifies this`blocks, this`inodes, this`stores
      ensures unchanged(this) && 0 < |chunk| <= left && chunk == c[at..at + |chunk|]
    {
      hide Good, FileIs, Ref, Mapped, SlotOf, Tracked, Touched, Piece, BlockNo, Within;
      var k := Piece(at, left);
      ReadBlock(sb, State(), i, c, at, k);
      var b := Bmap(i, BlockNo(at));
      MappedRef(sb, State(), i, BlockNo(at), b.value);
      chunk := blocks[b.value][Within(at)..Within(at) + k];
    }

    /** readi. The bytes it copies out are the matching slice of the file, each from where the disk has it, and nothing
        changes. */
    method Readi(i: nat, off: nat, n: nat, ghost c: seq<Byte>) returns (r: Io, dst: seq<Byte>)
      requires Valid() && i < |inodes| && off < WORD && n < WORD && FileIs(sb, State(), i, c)
      modifies this`blocks, this`inodes, this`stores
      ensures unchanged(this)
      ensures r == Device <==> inodes[i].typ == T_DEV
      ensures r == Err <==> inodes[i].typ != T_DEV && (off > |c| || off + n >= WORD)
      ensures r.Done? ==> r.n == |dst| && dst == c[off..if off + n > |c| then |c| else off + n]
      ensures forall k :: 0 <= k < |dst| ==> StoredAt(State(), i, off + k, dst[k])
      ensures r != Panic
    {
      hide Good, Tracked, FileIs, Plus, StoredAt;
      SizeIs(sb, State(), i, c);
      FileLayout(sb, State(), i, c);
      dst := [];
      var size := inodes[i].size;
      if inodes[i].typ == T_DEV {
        return Device, dst;
      }
      if off > size || Plus(off, n) < off {
        return Err, dst;
      }
      var m := if Plus(off, n) > size then size - off else n;
      while |dst| < m
        invariant |dst| <= m && unchanged(this)
        invariant dst == c[off..off + |dst|]
      {
        var chunk := ReadStep(i, off + |dst|, m - |dst|, c);
        dst := dst + chunk;
      }
      r := Done(m);
    }

    /** Where writei is after `tot` bytes: beside the indirect block it has logged the blocks in `d`, at most. */
    ghost predicate Writing(f: Fs, i: nat, off: nat, src: seq<Byte>, tot: nat, dirty: set<nat>, d: set<nat>)
      requires i < |inodes| && tot <= |src|
      reads this
    {
      && Valid() && Wrote(sb, f, State(), i, off, src[..tot]) && LoopKept(sb, f, State(), i, off + tot)
      && off <= f.inodes[i].size && (tot == 0 || tot == |src| || Within(off + tot) == 0)
      && Dirty() <= dirty + Indirect(sb, inodes[i]) + d && |d| <= Bound(off, tot)
    }

    /** The loop body of writei: one chunk, within one block. False is bmap's panic. */
    method WriteStep(i: nat, off: nat, src: seq<Byte>, tot: nat, ghost f: Fs, ghost dirty: set<nat>,
                     ghost d: set<nat>) returns (ok: bool, m: nat, ghost e: set<nat>)
      requires i < |inodes| && tot < |src| && off + |src| <= MAX_BYTES && Writing(f, i, off, src, tot, dirty, d)
      modifies this`blocks, this`inodes, this`stores
      ensures Tracked() && 0 < m <= |src| - tot
      ensures if ok then i < |inodes| && Writing(f, i, off, src, tot + m, dirty, e) else Full(sb, State())
    {
      hide Good, Mapped, Wrote, Tracked, Touched, Indirect, Near, Ref, SlotOf, Full, Patch, LoopKept, Bound, Cost,
           Piece, BlockNo, Within;
      ghost var g := State();
      var at := off + tot;
      m, e := Piece(at, |src| - tot), {};
      BlockNoBelow(at);
      var r := Bmap(i, BlockNo(at));
      if r == None {
        return false, m, e;
      }
      var x, more := r.value, src[tot..tot + m];
      StepTaken(sb, f, g, State(), i, off, src[..tot], more, x, d, at);
      assert src[..tot] + more == src[..tot + m];
      e := d + Cost(sb, g, i, at, x);
      LogStore(x, Patch(blocks[x], Within(at), more));
      ok := true;
    }

    /** The loop of writei. */
    method WriteLoop(i: nat, src: seq<Byte>, off: nat) returns (ok: bool)
      requires Valid() && i < |inodes| && off <= inodes[i].size && off + |src| <= MAX_BYTES
      modifies this`blocks, this`inodes, this`stores
      ensures Tracked()
      ensures if ok then i < |inodes| && exists d :: Writing(old(State()), i, off, src, |src|, old(Dirty()), d)
        else Full(sb, State())
    {
      hide Good, Tracked, Writing, Full, Touched;
      ghost var f, dirty, d := State(), Dirty(), {};
      WritingStarts(i, off, src);
      var tot := 0;
      ok := true;
      while ok && tot < |src|
        invariant tot <= |src| && Tracked()
        invariant if ok then i < |inodes| && Writing(f, i, off, src, tot, dirty, d) else Full(sb, State())
        decreases |src| - tot, ok
      {
        var m;
        ok, m, d := WriteStep(i, off, src, tot, f, dirty, d);
        tot := tot + m;
      }
    }

    lemma WritingStarts(i: nat, off: nat, src: seq<Byte>)
      requires Valid() && i < |inodes| && off <= inodes[i].size
      ensures Tracked() && Writing(State(), i, off, src, 0, Dirty(), {})
    {
      NothingWritten(sb, State(), i, off);
      assert src[..0] == [];
      hide Good, Wrote, LoopKept, Bound, Tracked;
    }

    /** iupdate. */
    method Iupdate(i: nat)
      requires Tracked() && i < |inodes| && Small(inodes[i])
      modifies this`blocks, this`stores
      ensures IBlock(sb, i) < |blocks| && State() == Update(sb, old(State()), i)
      ensures Tracked() && Dirty() == old(Dirty()) + {IBlock(sb, i)}
      ensures var x := sb.inodestart + i / 8;
        && x < |blocks| && blocks == old(blocks)[x := blocks[x]] && inodes == old(inodes)
        && DinodeAt(blocks[x], i % 8, inodes[i]) && OnlyDinode(old(blocks)[x], blocks[x], i % 8)
    {
      hide Tracked, Small, WithInode, Touched, DinodeAt, OnlyDinode;
      IBlockBelow(sb, State(), i);
      var x := IBlock(sb, i);
      WithInodePlaces(blocks[x], i % 8, inodes[i]);
      LogStore(x, WithInode(blocks[x], i % IPB, inodes[i]));
    }

    /** writei. Exactly the bytes off .. off + n of file `i` are replaced, the file grows if it must,
        and no other file changes. Panic is running out of blocks. */
    method Writei(i: nat, src: seq<Byte>, off: nat, ghost c: seq<Byte>) returns (r: Io)
      requires Valid() && Synced(sb, State())
      requires i < |inodes| && off < WORD && |src| < WORD && FileIs(sb, State(), i, c)
      modifies this`blocks, this`inodes, this`stores
      ensures Tracked()
      ensures r == Device <==> old(inodes[i]).typ == T_DEV
      ensures r == Err <==> old(inodes[i]).typ != T_DEV && (off > |c| || off + |src| > MAX_BYTES)
      ensures r == Device || r == Err ==> unchanged(this)
      ensures r == Panic ==> Full(sb, State())
      ensures r.Done? ==>
        && Valid() && Synced(sb, State()) && r.n == |src|
        && Written(sb, old(State()), State(), i, Spliced(c, off, src))
        && forall k :: 0 <= k < |src| ==> StoredAt(State(), i, off + k, src[k])
      ensures r.Done? ==> |Dirty() - old(Dirty())| <= Bound(off, |src|) + 3
    {
      SizeIs(sb, State(), i, c);
      hide Good, Wrote, FileIs, Full, Synced, Indirect, Touched, Bound, LoopKept, Update, Small, IBlock, Plus, Writing,
           Tracked, Written, Spliced, StoredAt;
      if inodes[i].typ == T_DEV {
        return Device;
      }
      var n := |src|;
      if off > inodes[i].size || Plus(off, n) < off {
        return Err;
      }
      if Plus(off, n) > MAX_BYTES {
        return Err;
      }
      ghost var f := State();
      var ok := WriteLoop(i, src, off);
      if !ok {
        return Panic;
      }
      r := Finish(i, src, off, f, c, old(Dirty()));
      WrittenStored(sb, f, State(), i, c, off, src);
    }

    /** The end of writei: the new size, and iupdate. */
    method Finish(i: nat, src: seq<Byte>, off: nat, ghost f: Fs, ghost c: seq<Byte>, ghost dirty: set<nat>)
      returns (r: Io)
      requires i < |inodes| && exists d :: Writing(f, i, off, src, |src|, dirty, d)
      requires Synced(sb, f) && FileIs(sb, f, i, c) && off <= |c| && off + |src| <= MAX_BYTES
      modifies this`blocks, this`inodes, this`stores
      ensures Valid() && Synced(sb, State()) && r == Done(|src|)
      ensures Written(sb, f, State(), i, Spliced(c, off, src))
      ensures |Dirty() - dirty| <= Bound(off, |src|) + 3
    {
      hide Good, Wrote, FileIs, Synced, Indirect, Touched, Bound, LoopKept, Update, Small, IBlock, Spliced, Written,
           Played;
      ghost var g := State();
      ghost var d :| Writing(f, i, off, src, |src|, dirty, d);
      assert src[..|src|] == src;
      Resized(sb, f, g, i, off, src, c);
      FewBlocks(Dirty(), dirty, Indirect(sb, inodes[i]), d, IBlock(sb, i));
      if |src| > 0 && off + |src| > inodes[i].size {
        inodes := inodes[i := inodes[i].(size := off + |src|)];
        Iupdate(i);
      }
      WrittenFacts(sb, f, State(), i, Spliced(c, off, src));
      r := Done(|src|);
    }

    /** itrunc freeing the inode's k-th block in order, if it is there; bfree cannot panic. */
    method FreeSlot(b: nat, ghost f: Fs, ghost i: nat, ghost k: nat)
      requires Freeing(sb, f, State(), i, k) && k < SLOTS && b == Ref(f, i, Nth(k)) && Tracked()
      modifies this`blocks, this`stores
      ensures Freeing(sb, f, State(), i, k + 1) && Tracked()
    {
      FreeSlotStep(sb, f, State(), i, k);
      hide Freeing, Nth, Ref, Used, Flip, Tracked;
      if b != 0 {
        var ok := Bfree(b);
        assert ok;
      }
    }

    /** The first loop of itrunc: the direct blocks. */
    method FreeDirect(i: nat)
      requires Valid() && i < |inodes|
      modifies this`blocks, this`inodes, this`stores
      ensures Freeing(sb, old(State()), State(), i, NDIRECT) && Tracked()
      ensures Cleared(old(inodes), inodes, i, NDIRECT)
    {
      hide Good, Ref, Nth, Touched, Played, Freeing, Cleared, Shape;
      ghost var f := State();
      FreeingStart(sb, f, i);
      var k := 0;
      while k < NDIRECT
        invariant k <= NDIRECT && Freeing(sb, f, State(), i, k) && Cleared(f.inodes, inodes, i, k) && Tracked()
      {
        DirectRef(f, inodes, i, k);
        FreeSlot(inodes[i].addrs[k], f, i, k);
        ghost var g := State();
        ClearedNext(f.inodes, inodes, i, k);
        if inodes[i].addrs[k] != 0 {
          inodes := inodes[i := inodes[i].(addrs := inodes[i].addrs[k := 0])];
        }
        k := k + 1;
        FreeingBlocks(sb, f, g, State(), i, k);
      }
    }

    /** The second loop of itrunc: the blocks listed in the indirect block `x`. */
    method FreeEntries(x: nat, ghost f: Fs, ghost i: nat)
      requires Freeing(sb, f, State(), i, NDIRECT) && x == Ref(f, i, NDIRECT) != 0 && Tracked()
      modifies this`blocks, this`stores
      ensures Freeing(sb, f, State(), i, SLOTS - 1) && Tracked()
    {
      hide Freeing, Ref, Nth, Tracked;
      IndirectKept(sb, f, State(), i, NDIRECT);
      var a := blocks[x];
      var j := 0;
      while j < NINDIRECT
        modifies this`blocks, this`stores
        invariant j <= NINDIRECT && Freeing(sb, f, State(), i, NDIRECT + j) && Tracked()
      {
        EntryRef(f, i, a, j);
        FreeSlot(Word(a, j), f, i, NDIRECT + j);
        j := j + 1;
      }
    }

    /** itrunc: the inode's blocks, all of them and no others, become free; no panic is reached. */
    method Itrunc(i: nat)
      requires Valid() && i < |inodes| && Synced(sb, State())
      modifies this`blocks, this`inodes, this`stores
      ensures Truncation(sb, old(State()), State(), i) && Valid() && Synced(sb, State())
      ensures inodes[i].size == 0 && forall m :: 0 <= m < 13 ==> inodes[i].addrs[m] == 0
    {
      ghost var f := State();
      hide Freeing, Truncation, Synced, Good, Played, Touched, Small, Update, Ref, Nth, IBlock;
      FreeDirect(i);
      ghost var was := inodes;
      var x := inodes[i].addrs[NDIRECT];
      IndirectSlot(f, i);
      if x != 0 {
        FreeEntries(x, f, i);
        FreeSlot(x, f, i, SLOTS - 1);
        was := inodes;
        inodes := inodes[i := inodes[i].(addrs := inodes[i].addrs[NDIRECT := 0])];
      }
      inodes := inodes[i := inodes[i].(size := 0)];
      ghost var t := State();
      FreeingBlocks(sb, f, Fs(blocks, was), t, i, if x == 0 then NDIRECT else SLOTS);
      Truncated(sb, f, t, i, x);
      TruncatedSynced(sb, f, t, i, if x == 0 then NDIRECT else SLOTS);
      Iupdate(i);
    }

    /** filewrite: one call of the log, from begin_op to end_op, for every CHUNK_MAX bytes. `g` is the file system
        after the calls that ended and `done` how far f->off has moved by then. Err is -1, which may come after some
        of the bytes have been written. */
    method FileWrite(i: nat, src: seq<Byte>, off: nat, ghost c: seq<Byte>)
      returns (r: Io, done: nat, ghost g: Fs, ghost calls: seq<Call>)
      requires Valid() && Synced(sb, State())
      requires i < |inodes| && off + |src| < WORD && FileIs(sb, State(), i, c)
      modifies this
      ensures Sofar(sb, old(State()), g, i, c, off, src, done, calls)
      ensures if r == Panic then Full(sb, State()) && start == g.blocks else g == State()
      ensures Outcome(r, old(inodes[i]).typ, |c|, off, |src|, done)
    {
      hide Good, Tracked, Synced, FileIs, Written, Full, Spliced, Sofar, Outcome, Now, Least, Transaction;
      ghost var f := State();
      FileWriteStarts(sb, f, i, c, off, src);
      done, g, calls := 0, f, [];
      while done < |src|
        invariant done <= |src| && Valid() && Synced(sb, State()) && g == State() && i < |inodes|
        invariant Sofar(sb, f, g, i, c, off, src, done, calls)
      {
        SofarFacts(sb, f, g, i, c, off, src, done, calls);
        var n1 := Least(CHUNK_MAX, |src| - done);
        r := WriteCall(i, src[done..done + n1], off + done, Now(c, off, src, done));
        if !r.Done? {
          OutcomeStopped(r, f.inodes[i].typ, |c|, off, |src|, done, n1, |Now(c, off, src, done)|);
          return;
        }
        OneMoreChunk(sb, f, g, State(), i, c, off, src, done, n1, calls, stores);
        g, calls := State(), calls + [Call(g, State(), stores)];
        done := done + n1;
      }
      SofarFacts(sb, f, g, i, c, off, src, done, calls);
      OutcomeDone(f.inodes[i].typ, |c|, off, |src|);
      r := Done(|src|);
    }

    /** begin_op, writei of at most CHUNK_MAX bytes, end_op. */
    method WriteCall(i: nat, src: seq<Byte>, off: nat, ghost c: seq<Byte>) returns (r: Io)
      requires Valid() && Synced(sb, State()) && i < |inodes| && FileIs(sb, State(), i, c)
      requires |src| <= CHUNK_MAX && off + |src| < WORD
      modifies this
      ensures r == Device <==> old(inodes[i]).typ == T_DEV
      ensures r == Err <==> old(inodes[i]).typ != T_DEV && (off > |c| || off + |src| > MAX_BYTES)
      ensures r == Device || r == Err ==> State() == old(State())
      ensures r == Panic ==> Full(sb, State()) && start == old(blocks)
      ensures r.Done? ==>
        && Valid() && Synced(sb, State()) && i < |inodes| && off <= |c|
        && Written(sb, old(State()), State(), i, Spliced(c, off, src))
        && Transaction(sb, Call(old(State()), State(), stores))
    {
      hide Good, Tracked, Synced, FileIs, Written, Full, Spliced, Bound;
      ghost var g := State();
      start, stores := blocks, [];
      CallBegun();
      r := Writei(i, src, off, c);
      if r.Done? {
        WrittenFacts(sb, g, State(), i, Spliced(c, off, src));
        CallEnded(g);
      }
    }

    /** A call that has logged nothing yet. */
    lemma CallBegun()
      requires InodesFit(sb, State()) && start == blocks && stores == []
      ensures Tracked() && Dirty() == {}
    {
    }

    lemma CallEnded(g: Fs)
      requires Valid() && Synced(sb, State()) && Good(sb, g) && Synced(sb, g)
      requires g.blocks == start && |g.inodes| == |inodes| && |Dirty()| <= RedoLog.MAXOPBLOCKS
      ensures Transaction(sb, Call(g, State(), stores))
    {
    }
  }

  /** `c` with the bytes from `off` on replaced by `src`. */
  function Spliced(c: seq<Byte>, off: nat, src: seq<Byte>): seq<Byte>
    requires off <= |c|
  {
    c[..off] + src + if off + |src| < |c| then c[off + |src|..] else []
  }

  /** `t` is `f` with the contents of file `i` replaced by `c`. */
  ghost predicate Written(sb: Super, f: Fs, t: Fs, i: nat, c: seq<Byte>) {
    && Good(sb, f) && Good(sb, t) && i < |f.inodes| == |t.inodes| && FileIs(sb, t, i, c)
    && t.inodes[i].typ == f.inodes[i].typ
    && (forall j :: 0 <= j < |f.inodes| && j != i ==> t.inodes[j] == f.inodes[j])
    && (forall j, d :: 0 <= j < |f.inodes| && j != i && FileIs(sb, f, j, d) ==> FileIs(sb, t, j, d))
  }

  lemma WrittenFacts(sb: Super, f: Fs, t: Fs, i: nat, c: seq<Byte>)
    requires Written(sb, f, t, i, c)
    ensures Good(sb, t) && i < |f.inodes| == |t.inodes| && FileIs(sb, t, i, c)
  {
    hide Good, FileIs;
  }

  /** The bytes written, where the disk has them. */
  lemma WrittenStored(sb: Super, f: Fs, t: Fs, i: nat, c: seq<Byte>, off: nat, src: seq<Byte>)
    requires off <= |c| && Written(sb, f, t, i, Spliced(c, off, src))
    ensures forall k :: 0 <= k < |src| ==> StoredAt(t, i, off + k, src[k])
  {
    hide FileIs, StoredAt, Good;
    var d := Spliced(c, off, src);
    FileLayout(sb, t, i, d);
    forall k | 0 <= k < |src| ensures StoredAt(t, i, off + k, src[k]) {
      assert d[off + k] == src[k];
    }
  }

  /** The file system with the size of file `i` set. */
  function SetSize(f: Fs, i: nat, size: nat): Fs
    requires i < |f.inodes|
  {
    f.(inodes := f.inodes[i := f.inodes[i].(size := size)])
  }

  /** The loop of writei and the new size replace the contents of file `i` and leave the other files alone. */
  lemma SpliceWritten(sb: Super, f: Fs, g: Fs, t: Fs, i: nat, off: nat, src: seq<Byte>, c: seq<Byte>)
    requires Wrote(sb, f, g, i, off, src) && FileIs(sb, f, i, c) && off <= |c| && off + |src| <= MAX_BYTES
    requires t == if |src| > 0 && off + |src| > |c| then SetSize(g, i, off + |src|) else g
    ensures Written(sb, f, t, i, Spliced(c, off, src))
  {
    ResizeGood(sb, f, g, t, i, off, src, c);
    forall o | 0 <= o < |Spliced(c, off, src)|
      ensures Present(sb, t, i, o) && Spliced(c, off, src)[o] == ByteAt(t, i, o)
    {
      assert o < |c| ==> Present(sb, f, i, o);
      assert Present(sb, g, i, o);
    }
    forall j, d | 0 <= j < |f.inodes| && j != i && FileIs(sb, f, j, d) ensures FileIs(sb, t, j, d) {
      OthersKept(sb, f, g, t, i, off, src, j, d);
    }
  }

  lemma OthersKept(sb: Super, f: Fs, g: Fs, t: Fs, i: nat, off: nat, src: seq<Byte>, j: nat, d: seq<Byte>)
    requires Wrote(sb, f, g, i, off, src) && Good(sb, t) && SameRefs(g, t) && t.blocks == g.blocks
    requires j < |f.inodes| && j != i && t.inodes[j] == g.inodes[j] && FileIs(sb, f, j, d)
    ensures FileIs(sb, t, j, d)
  {
    forall o | 0 <= o < |d| ensures Present(sb, t, j, o) && d[o] == ByteAt(t, j, o) {
      assert Present(sb, f, j, o) && Present(sb, g, j, o);
    }
  }

  lemma ResizeGood(sb: Super, f: Fs, g: Fs, t: Fs, i: nat, off: nat, src: seq<Byte>, c: seq<Byte>)
    requires Wrote(sb, f, g, i, off, src) && FileIs(sb, f, i, c) && off <= |c| && off + |src| <= MAX_BYTES
    requires t == if |src| > 0 && off + |src| > |c| then SetSize(g, i, off + |src|) else g
    ensures Good(sb, t) && SameRefs(g, t)
  {
    forall j, k | 0 <= j < |g.inodes| && 0 <= k < SLOTS ensures Ref(t, j, k) == Ref(g, j, k) {
    }
    forall x | 0 <= x < sb.size ensures Used(sb, t, x) <==> Used(sb, g, x) {
    }
    forall j | 0 <= j < |g.inodes| ensures Dense(t, j) {
      assert Dense(g, j);
      if j == i {
        forall bn | 0 <= bn < MAXFILE && bn * BSIZE < t.inodes[i].size ensures Ref(t, i, SlotOf(bn)) != 0 {
          var o := bn * BSIZE;
          assert BlockNo(o) == bn;
          assert o < |c| ==> Present(sb, f, i, o);
          assert Present(sb, g, i, o);
        }
      }
    }

  }

  /** The bitmap and the data blocks are the same, and so are the inodes. */
  ghost predicate SameAbove(sb: Super, f: Fs, g: Fs) {
    && Shape(sb, f) && Shape(sb, g) && g.inodes == f.inodes
    && forall x :: sb.bmapstart <= x < sb.size ==> g.blocks[x] == f.blocks[x]
  }

  lemma AboveRef(sb: Super, f: Fs, g: Fs, j: nat, k: nat)
    requires SameAbove(sb, f, g) && j < |f.inodes| && k < SLOTS
    requires Ref(f, j, NDIRECT) != 0 ==> sb.bmapstart <= Ref(f, j, NDIRECT) < sb.size
    ensures Ref(g, j, k) == Ref(f, j, k)
  {
    hide Word;
  }

  lemma AboveRefs(sb: Super, f: Fs, g: Fs)
    requires SameAbove(sb, f, g) && Good(sb, f)
    ensures SameRefs(f, g)
  {
    assert sb.bmapstart <= sb.datastart;
    hide Good, Ref, SameAbove, Shape, Used;
    forall j, k | 0 <= j < |f.inodes| && 0 <= k < SLOTS ensures Ref(g, j, k) == Ref(f, j, k) {
      if Ref(f, j, NDIRECT) != 0 {
        RefBelow(sb, f, j, NDIRECT);
      }
      AboveRef(sb, f, g, j, k);
    }
  }

  lemma AboveUsed(sb: Super, f: Fs, g: Fs)
    requires SameAbove(sb, f, g)
    ensures forall c :: 0 <= c < sb.size ==> (Used(sb, g, c) <==> Used(sb, f, c))
  {
    hide BitOf;
    forall c | 0 <= c < sb.size ensures Used(sb, g, c) <==> Used(sb, f, c) {
      assert sb.bmapstart <= BBlock(sb, c) < sb.size;
    }
  }

  /** No reference, no bit and no byte of a file has changed. */
  lemma AboveKeeps(sb: Super, f: Fs, g: Fs)
    requires SameAbove(sb, f, g) && Good(sb, f)
    ensures Good(sb, g) && KeepsBytes(sb, f, g) && SameRefs(f, g)
    ensures forall c :: 0 <= c < sb.size ==> (Used(sb, g, c) <==> Used(sb, f, c))
  {
    AboveRefs(sb, f, g);
    AboveUsed(sb, f, g);
    AboveBytes(sb, f, g);
    hide Used, Ref, KeepsBytes, SlotOf;
    forall j | 0 <= j < |f.inodes| ensures Dense(g, j) {
      assert Dense(f, j);
    }
  }

  lemma AboveBytes(sb: Super, f: Fs, g: Fs)
    requires SameAbove(sb, f, g) && Good(sb, f) && SameRefs(f, g)
    ensures KeepsBytes(sb, f, g)
  {
    hide Ref, Used, BlockNo, Within, Good;
    forall i, o | 0 <= i < |f.inodes| && o >= 0 && Present(sb, f, i, o)
      ensures Present(sb, g, i, o) && ByteAt(g, i, o) == ByteAt(f, i, o)
    {
      BlockNoBelow(o);
      RefBelow(sb, f, i, SlotOf(BlockNo(o)));
    }
  }

  lemma UpdateKeeps(sb: Super, f: Fs, i: nat)
    requires Good(sb, f) && InodesFit(sb, f) && i < |f.inodes| && Small(f.inodes[i])
    ensures IBlock(sb, i) < |f.blocks| && Good(sb, Update(sb, f, i)) && KeepsBytes(sb, f, Update(sb, f, i))
    ensures SameRefs(f, Update(sb, f, i))
    ensures forall c :: 0 <= c < sb.size ==> (Used(sb, Update(sb, f, i), c) <==> Used(sb, f, c))
  {
    IBlockBelow(sb, f, i);
    hide Good, IBlock, WithInode, Small, KeepsBytes, SameRefs, Used;
    AboveKeeps(sb, f, Update(sb, f, i));
  }

  lemma SameFiles(sb: Super, f: Fs, g: Fs, j: nat, d: seq<Byte>)
    requires Good(sb, f) && Good(sb, g) && KeepsBytes(sb, f, g) && j < |f.inodes| && FileIs(sb, f, j, d)
    requires g.inodes[j].size == f.inodes[j].size
    ensures FileIs(sb, g, j, d)
  {
    forall o | 0 <= o < |d| ensures Present(sb, g, j, o) && d[o] == ByteAt(g, j, o) {
      assert Present(sb, f, j, o);
    }
  }

  lemma WrittenUpdate(sb: Super, f: Fs, u: Fs, i: nat, c: seq<Byte>)
    requires Written(sb, f, u, i, c) && InodesFit(sb, u) && Small(u.inodes[i])
    ensures IBlock(sb, i) < |u.blocks| && Written(sb, f, Update(sb, u, i), i, c)
  {
    UpdateKeeps(sb, u, i);
    var t := Update(sb, u, i);
    hide Good, FileIs, KeepsBytes, IBlock, WithInode, Small;
    SameFiles(sb, u, t, i, c);
    forall j, d | 0 <= j < |f.inodes| && j != i && FileIs(sb, f, j, d) ensures FileIs(sb, t, j, d) {
      SameFiles(sb, u, t, j, d);
    }
  }

  lemma SmallInode(sb: Super, f: Fs, i: nat)
    requires Good(sb, f) && i < |f.inodes| && f.inodes[i].typ < 0x1_0000
    ensures Small(f.inodes[i])
  {
    assert Dense(f, i);
    forall m | 0 <= m <= NDIRECT ensures f.inodes[i].addrs[m] < WORD {
      assert Ref(f, i, m) == f.inodes[i].addrs[m];
    }
  }

  /** The inode on the disk has a 16-bit type. */
  lemma SyncedType(sb: Super, f: Fs, i: nat)
    requires Synced(sb, f) && i < |f.inodes|
    ensures f.inodes[i].typ < 0x1_0000
  {
    assert SyncedAt(sb, f, i);
  }

  /** Only inode `i` has changed, and only in memory. */
  lemma OthersSynced(sb: Super, f: Fs, g: Fs, i: nat)
    requires Synced(sb, f) && SameInodeBlocks(sb, f, g)
    requires forall j :: 0 <= j < |f.inodes| && j != i ==> g.inodes[j] == f.inodes[j]
    ensures InodesFit(sb, g) && forall j :: 0 <= j < |g.inodes| && j != i ==> SyncedAt(sb, g, j)
    ensures g.inodes == f.inodes ==> Synced(sb, g)
  {
    hide InodeOf, IBlock;
    forall j | 0 <= j < |g.inodes| && (j != i || g.inodes == f.inodes) ensures SyncedAt(sb, g, j) {
      IBlockBelow(sb, f, j);
      assert SyncedAt(sb, f, j);
    }
  }

  /** writei's last step. */
  lemma Resized(sb: Super, f: Fs, g: Fs, i: nat, off: nat, src: seq<Byte>, c: seq<Byte>)
    requires Wrote(sb, f, g, i, off, src) && LoopKept(sb, f, g, i, off + |src|) && Synced(sb, f)
    requires FileIs(sb, f, i, c) && off <= |c| && off + |src| <= MAX_BYTES && InodesFit(sb, g)
    ensures g.inodes[i].size == |c|
    ensures if |src| > 0 && off + |src| > |c|
      then var u := SetSize(g, i, off + |src|);
        && Small(u.inodes[i]) && IBlock(sb, i) < |u.blocks|
        && Synced(sb, Update(sb, u, i)) && Written(sb, f, Update(sb, u, i), i, Spliced(c, off, src))
      else Synced(sb, g) && Written(sb, f, g, i, Spliced(c, off, src))
  {
    var u := if |src| > 0 && off + |src| > |c| then SetSize(g, i, off + |src|) else g;
    SpliceWritten(sb, f, g, u, i, off, src, c);
    SyncedType(sb, f, i);
    SameInodeBlocksAfter(sb, f, g, u);
    OthersSynced(sb, f, u, i);
    if u != g {
      SmallInode(sb, u, i);
      hide Good, Wrote, FileIs, Synced, Spliced, Written, Small;
      UpdateSyncs(sb, u, i);
      WrittenUpdate(sb, f, u, i, Spliced(c, off, src));
    }
  }

  /** Block `c` is one of inode `i`'s. */
  ghost predicate Refers(f: Fs, i: nat, c: nat)
    requires i < |f.inodes|
  {
    c != 0 && exists m :: 0 <= m < SLOTS && Ref(f, i, m) == c
  }

  /** The k-th slot in the order itrunc frees them: direct blocks, indirect entries, the indirect block. */
  function Nth(k: nat): (m: nat)
    requires k < SLOTS
    ensures m < SLOTS
  {
    if k < NDIRECT then k else if k < SLOTS - 1 then k + 1 else NDIRECT
  }

  ghost predicate Hit(f: Fs, i: nat, k: nat, c: nat)
    requires i < |f.inodes|
  {
    c != 0 && exists m :: 0 <= m < k && m < SLOTS && Ref(f, i, Nth(m)) == c
  }

  /** `g`'s bitmap is that of `f` with the first `k` blocks of inode `i` marked free; its data blocks are those of
      `f`. */
  ghost predicate Freeing(sb: Super, f: Fs, g: Fs, i: nat, k: nat) {
    && Good(sb, f) && Shape(sb, g) && i < |f.inodes|
    && (forall x :: 0 <= x < sb.bmapstart || sb.datastart <= x < sb.size ==> g.blocks[x] == f.blocks[x])
    && (forall c :: 0 <= c < sb.size ==> (Used(sb, g, c) <==> Used(sb, f, c) && !Hit(f, i, k, c)))
  }

  /** The inodes with the first `k` direct block numbers of inode `i` set to 0. */
  ghost predicate Cleared(f: seq<Inode>, g: seq<Inode>, i: nat, k: nat) {
    && i < |f| == |g| && (forall j :: 0 <= j < |f| && j != i ==> g[j] == f[j])
    && g[i].typ == f[i].typ && g[i].size == f[i].size
    && forall m :: 0 <= m <= NDIRECT ==> g[i].addrs[m] == if m < k then 0 else f[i].addrs[m]
  }

  /** `t` is `f` with file `i` emptied: it has no blocks, exactly the blocks it had are free
      again, and every other file is as it was. */
  ghost predicate Truncation(sb: Super, f: Fs, t: Fs, i: nat) {
    && Good(sb, f) && Good(sb, t) && i < |f.inodes| == |t.inodes|
    && t.inodes[i].size == 0 && t.inodes[i].typ == f.inodes[i].typ
    && (forall k :: 0 <= k < SLOTS ==> Ref(t, i, k) == 0)
    && (forall c :: 0 <= c < sb.size ==> (Used(sb, t, c) <==> Used(sb, f, c) && !Refers(f, i, c)))
    && (forall j :: 0 <= j < |f.inodes| && j != i ==> t.inodes[j] == f.inodes[j])
    && (forall j, d :: 0 <= j < |f.inodes| && j != i && FileIs(sb, f, j, d) ==> FileIs(sb, t, j, d))
  }

  lemma FreeingStart(sb: Super, f: Fs, i: nat)
    requires Good(sb, f) && i < |f.inodes|
    ensures Freeing(sb, f, f, i, 0) && Cleared(f.inodes, f.inodes, i, 0)
  {
  }

  /** Freeing looks at the blocks only. */
  lemma FreeingBlocks(sb: Super, f: Fs, g: Fs, t: Fs, i: nat, k: nat)
    requires Freeing(sb, f, g, i, k) && t.blocks == g.blocks
    ensures Freeing(sb, f, t, i, k)
  {
    forall c | 0 <= c < sb.size ensures Used(sb, t, c) <==> Used(sb, g, c) {
    }
  }

  lemma IndirectKept(sb: Super, f: Fs, g: Fs, i: nat, k: nat)
    requires Freeing(sb, f, g, i, k) && Ref(f, i, NDIRECT) != 0
    ensures i < |f.inodes| && Ref(f, i, NDIRECT) < sb.size == |f.blocks| == |g.blocks|
    ensures g.blocks[Ref(f, i, NDIRECT)] == f.blocks[Ref(f, i, NDIRECT)]
  {
  }

  lemma EntryRef(f: Fs, i: nat, a: Block, j: nat)
    requires i < |f.inodes| && j < NINDIRECT && 0 < Ref(f, i, NDIRECT) < |f.blocks| && a == f.blocks[Ref(f, i, NDIRECT)]
    ensures Word(a, j) == Ref(f, i, Nth(NDIRECT + j))
  {
  }

  lemma DirectRef(f: Fs, g: seq<Inode>, i: nat, k: nat)
    requires Cleared(f.inodes, g, i, k) && k < NDIRECT
    ensures i < |g| && g[i].addrs[k] == Ref(f, i, Nth(k))
  {
  }

  lemma ClearedNext(f: seq<Inode>, g: seq<Inode>, i: nat, k: nat)
    requires Cleared(f, g, i, k) && k < NDIRECT
    ensures Cleared(f, if g[i].addrs[k] == 0 then g else g[i := g[i].(addrs := g[i].addrs[k := 0])], i, k + 1)
  {
  }

  lemma IndirectSlot(f: Fs, i: nat)
    requires i < |f.inodes|
    ensures f.inodes[i].addrs[NDIRECT] == Ref(f, i, NDIRECT) == Ref(f, i, Nth(SLOTS - 1))
  {
  }

  lemma NthOnto(m: nat) returns (k: nat)
    requires m < SLOTS
    ensures k < SLOTS && Nth(k) == m
  {
    k := if m < NDIRECT then m else if m == NDIRECT then SLOTS - 1 else m - 1;
  }

  lemma HitNext(f: Fs, i: nat, k: nat)
    requires i < |f.inodes| && k < SLOTS
    ensures forall c :: Hit(f, i, k + 1, c) <==> Hit(f, i, k, c) || (c != 0 && c == Ref(f, i, Nth(k)))
  {
    forall c ensures Hit(f, i, k + 1, c) <==> Hit(f, i, k, c) || (c != 0 && c == Ref(f, i, Nth(k))) {
    }
  }

  /** A block is referenced once, so it has not been freed before its turn. */
  lemma NotHitYet(sb: Super, f: Fs, i: nat, k: nat)
    requires Good(sb, f) && i < |f.inodes| && k < SLOTS && Ref(f, i, Nth(k)) != 0
    ensures Ref(f, i, Nth(k)) < sb.size && Used(sb, f, Ref(f, i, Nth(k))) && !Hit(f, i, k, Ref(f, i, Nth(k)))
  {
  }

  lemma FlipElsewhere(sb: Super, g: Fs, b: nat, x: nat)
    requires Shape(sb, g) && b < sb.size && x < sb.size && (x < sb.bmapstart || sb.datastart <= x)
    ensures Flip(sb, g, b).blocks[x] == g.blocks[x]
  {
    assert sb.bmapstart <= BBlock(sb, b) < sb.datastart;
    hide BBlock, FlipBit;
  }

  lemma FreeSlotStep(sb: Super, f: Fs, g: Fs, i: nat, k: nat)
    requires Freeing(sb, f, g, i, k) && k < SLOTS
    ensures var b := Ref(f, i, Nth(k));
      if b == 0 then Freeing(sb, f, g, i, k + 1)
      else b < sb.size && Used(sb, g, b) && Freeing(sb, f, Flip(sb, g, b), i, k + 1)
  {
    var b := Ref(f, i, Nth(k));
    HitNext(f, i, k);
    if b != 0 {
      NotHitYet(sb, f, i, k);
      var h := Flip(sb, g, b);
      hide Hit, Nth, Ref, Flip, Used, Good, BBlock;
      forall c | 0 <= c < sb.size ensures Used(sb, h, c) <==> Used(sb, f, c) && !Hit(f, i, k + 1, c) {
        FlipUsed(sb, g, b, c);
      }
      forall x | 0 <= x < sb.bmapstart || sb.datastart <= x < sb.size ensures h.blocks[x] == f.blocks[x] {
        FlipElsewhere(sb, g, b, x);
      }
    }
  }

  lemma Truncated(sb: Super, f: Fs, t: Fs, i: nat, x: nat)
    requires i < |f.inodes| == |t.inodes| && x == Ref(f, i, NDIRECT)
    requires Freeing(sb, f, t, i, if x == 0 then NDIRECT else SLOTS)
    requires t.inodes[i].size == 0 && t.inodes[i].typ == f.inodes[i].typ
    requires forall k :: 0 <= k <= NDIRECT ==> t.inodes[i].addrs[k] == 0
    requires forall j :: 0 <= j < |f.inodes| && j != i ==> t.inodes[j] == f.inodes[j]
    ensures Truncation(sb, f, t, i)
  {
    forall c | 0 <= c < sb.size ensures Used(sb, t, c) <==> Used(sb, f, c) && !Refers(f, i, c) {
      if Refers(f, i, c) {
        var m :| 0 <= m < SLOTS && Ref(f, i, m) == c;
        var k := NthOnto(m);
        assert Ref(f, i, Nth(k)) == c;
      }
    }
    forall j, k | 0 <= j < |f.inodes| && 0 <= k < SLOTS ensures Ref(t, j, k) == if j == i then 0 else Ref(f, j, k) {
      assert Ref(f, j, NDIRECT) != 0 ==> sb.datastart <= Ref(f, j, NDIRECT) < sb.size;
    }
    TruncatedGood(sb, f, t, i);
    forall j, d | 0 <= j < |f.inodes| && j != i && FileIs(sb, f, j, d) ensures FileIs(sb, t, j, d) {
      forall o | 0 <= o < |d| ensures Present(sb, t, j, o) && d[o] == ByteAt(t, j, o) {
        assert Present(sb, f, j, o);
      }
    }
  }

  lemma TruncatedGood(sb: Super, f: Fs, t: Fs, i: nat)
    requires Good(sb, f) && Shape(sb, t) && i < |f.inodes| == |t.inodes| && t.inodes[i].size == 0
    requires forall j :: 0 <= j < |f.inodes| && j != i ==> t.inodes[j] == f.inodes[j]
    requires forall j, k :: 0 <= j < |f.inodes| && 0 <= k < SLOTS ==> Ref(t, j, k) == if j == i then 0 else Ref(f, j, k)
    requires forall c :: 0 <= c < sb.size ==> (Used(sb, t, c) <==> Used(sb, f, c) && !Refers(f, i, c))
    ensures Good(sb, t)
  {
    forall j, k | 0 <= j < |t.inodes| && 0 <= k < SLOTS && Ref(t, j, k) != 0
      ensures sb.datastart <= Ref(t, j, k) < sb.size && Used(sb, t, Ref(t, j, k))
    {
      assert Ref(f, j, k) != 0 && j != i;
      assert !Refers(f, i, Ref(f, j, k));
    }
    forall c | 0 <= c < sb.datastart ensures Used(sb, t, c) {
      assert Used(sb, f, c);
    }
    forall j | 0 <= j < |t.inodes| ensures Dense(t, j) {
      assert Dense(f, j);
    }
  }

  /** iupdate after itrunc. */
  lemma TruncatedSynced(sb: Super, f: Fs, t: Fs, i: nat, k: nat)
    requires Synced(sb, f) && Truncation(sb, f, t, i) && Freeing(sb, f, t, i, k)
    ensures Small(t.inodes[i]) && InodesFit(sb, t) && IBlock(sb, i) < |t.blocks|
    ensures Truncation(sb, f, Update(sb, t, i), i) && Synced(sb, Update(sb, t, i))
  {
    SyncedType(sb, f, i);
    SmallInode(sb, t, i);
    assert SameInodeBlocks(sb, f, t);
    OthersSynced(sb, f, t, i);
    UpdateSyncs(sb, t, i);
    UpdateKeeps(sb, t, i);
    TruncationUpdate(sb, f, t, Update(sb, t, i), i);
  }

  lemma TruncationUpdate(sb: Super, f: Fs, t: Fs, u: Fs, i: nat)
    requires Truncation(sb, f, t, i) && Good(sb, u) && KeepsBytes(sb, t, u) && SameRefs(t, u) && u.inodes == t.inodes
    requires forall c :: 0 <= c < sb.size ==> (Used(sb, u, c) <==> Used(sb, t, c))
    ensures Truncation(sb, f, u, i)
  {
    hide Good, FileIs, KeepsBytes, Used, Refers, Ref;
    forall j, d | 0 <= j < |f.inodes| && j != i && FileIs(sb, f, j, d) ensures FileIs(sb, u, j, d) {
      SameFiles(sb, t, u, j, d);
    }
  }

  // ---------------------------------------------------------------- filewrite

  function Least(a: nat, b: nat): (r: nat)
    ensures r <= a && r <= b && (a > 0 && b > 0 ==> r > 0)
  {
    if a < b then a else b
  }

  /** The bytes of `m` chunks. */
  function ChunkBytes(m: nat): nat {
    if m == 0 then 0 else ChunkBytes(m - 1) + CHUNK_MAX
  }

  /** A call between begin_op and end_op: the file system before and after it, and its log_writes. */
  datatype Call = Call(before: Fs, after: Fs, stores: seq<Stored>)

  /** The call takes a sound file system to a sound one by logging at most MAXOPBLOCKS blocks. */
  ghost predicate Transaction(sb: Super, c: Call) {
    && Good(sb, c.before) && Synced(sb, c.before) && Good(sb, c.after) && Synced(sb, c.after)
    && |c.before.inodes| == |c.after.inodes|
    && c.after.blocks == Played(c.before.blocks, c.stores)
    && (forall b :: b in Touched(c.stores) ==> sb.inodestart <= b < sb.size)
    && |Touched(c.stores)| <= RedoLog.MAXOPBLOCKS
  }

  /** Each call starts where the one before it ended. */
  ghost predicate Calls(sb: Super, f: Fs, g: Fs, calls: seq<Call>) {
    && (forall m :: 0 <= m < |calls| ==> Transaction(sb, calls[m]))
    && (if calls == [] then f == g else calls[0].before == f && calls[|calls| - 1].after == g)
    && (forall p, q :: 0 <= p && q == p + 1 && q < |calls| ==> calls[p].after == calls[q].before)
  }

  /** `t` is `f` with the first `m` chunks of `src` written to file `i` at `off`. */
  ghost predicate HasPrefix(sb: Super, f: Fs, t: Fs, i: nat, c: seq<Byte>, off: nat, src: seq<Byte>, m: nat) {
    off <= |c| && Written(sb, f, t, i, Spliced(c, off, src[..Least(ChunkBytes(m), |src|)]))
  }

  /** After the m-th of the calls file `i` has the first m chunks. */
  ghost predicate Prefixes(sb: Super, f: Fs, calls: seq<Call>, i: nat, c: seq<Byte>, off: nat, src: seq<Byte>) {
    forall m :: 0 <= m < |calls| ==> HasPrefix(sb, f, calls[m].after, i, c, off, src, m + 1)
  }

  lemma OneMorePrefix(sb: Super, f: Fs, calls: seq<Call>, call: Call, i: nat, c: seq<Byte>, off: nat, src: seq<Byte>)
    requires Prefixes(sb, f, calls, i, c, off, src) && HasPrefix(sb, f, call.after, i, c, off, src, |calls| + 1)
    ensures Prefixes(sb, f, calls + [call], i, c, off, src)
  {
    hide HasPrefix;
  }

  lemma PrefixWritten(sb: Super, f: Fs, t: Fs, i: nat, c: seq<Byte>, off: nat, src: seq<Byte>, k: nat, n1: nat, m: nat)
    requires k == Least(ChunkBytes(m), |src|) < |src| && n1 == Least(CHUNK_MAX, |src| - k) && off <= |c|
    requires Written(sb, f, t, i, Spliced(c, off, src[..k + n1]))
    ensures k + n1 == Least(ChunkBytes(m + 1), |src|) && HasPrefix(sb, f, t, i, c, off, src, m + 1)
  {
    hide Written, Spliced;
  }

  lemma NoCalls(sb: Super, f: Fs)
    ensures Calls(sb, f, f, [])
  {
  }

  lemma SplicedTwice(c: seq<Byte>, off: nat, a: seq<Byte>, b: seq<Byte>)
    requires off <= |c|
    ensures off + |a| <= |Spliced(c, off, a)|
    ensures Spliced(Spliced(c, off, a), off + |a|, b) == Spliced(c, off, a + b)
  {
  }

  lemma SplicedNothing(c: seq<Byte>, off: nat)
    requires off <= |c|
    ensures Spliced(c, off, []) == c
  {
  }

  lemma WrittenTwice(sb: Super, f: Fs, g: Fs, t: Fs, i: nat, a: seq<Byte>, b: seq<Byte>)
    requires Written(sb, f, g, i, a) && Written(sb, g, t, i, b)
    ensures Written(sb, f, t, i, b)
  {
    hide Good, FileIs;
  }

  lemma OneMoreCall(sb: Super, f: Fs, g: Fs, t: Fs, calls: seq<Call>, stores: seq<Stored>)
    requires Calls(sb, f, g, calls) && Transaction(sb, Call(g, t, stores))
    ensures Calls(sb, f, t, calls + [Call(g, t, stores)])
  {
    hide Transaction;
  }

  /** File `i` after the first `k` bytes. */
  function Now(c: seq<Byte>, off: nat, src: seq<Byte>, k: nat): seq<Byte>
    requires k <= |src|
  {
    if off <= |c| then Spliced(c, off, src[..k]) else c
  }

  /** Where filewrite is after `k` bytes: each chunk was a call that kept to its budget, after the m-th of them file
      `i` has the first m chunks, and it now has the first `k` bytes. */
  ghost predicate Sofar(sb: Super, f: Fs, g: Fs, i: nat, c: seq<Byte>, off: nat, src: seq<Byte>, k: nat,
                        calls: seq<Call>)
  {
    && k == Least(ChunkBytes(|calls|), |src|) && Calls(sb, f, g, calls) && Prefixes(sb, f, calls, i, c, off, src)
    && Written(sb, f, g, i, Now(c, off, src, k))
    && (k > 0 ==> f.inodes[i].typ != T_DEV && off <= |c| && off + k <= MAX_BYTES)
  }

  /** What filewrite returns: -1 exactly if the offset is past the end or the file would be too big, and then it has
      stopped at the first chunk that does not fit. */
  predicate Outcome(r: Io, typ: nat, size: nat, off: nat, n: nat, done: nat) {
    && done <= n && (r == Device <==> typ == T_DEV && n > 0)
    && (r == Err || r.Done? ==> (r == Err <==> n > 0 && (off > size || off + n > MAX_BYTES)))
    && (r == Err && off <= size ==> off + done + Least(CHUNK_MAX, n - done) > MAX_BYTES)
    && (r.Done? ==> r.n == done == n)
  }

  lemma OutcomeStopped(r: Io, typ: nat, size: nat, off: nat, n: nat, done: nat, n1: nat, now: nat)
    requires done < n && n1 == Least(CHUNK_MAX, n - done) && !r.Done?
    requires (r == Device <==> typ == T_DEV) && (r == Err ==> off + done > now || off + done + n1 > MAX_BYTES)
    requires done > 0 ==> typ != T_DEV && off <= size
    requires if off <= size then now >= off + done else now < off + done
    ensures Outcome(r, typ, size, off, n, done)
  {
  }

  lemma OutcomeDone(typ: nat, size: nat, off: nat, n: nat)
    requires n > 0 ==> typ != T_DEV && off <= size && off + n <= MAX_BYTES
    ensures Outcome(Done(n), typ, size, off, n, n)
  {
  }

  lemma FileWriteStarts(sb: Super, f: Fs, i: nat, c: seq<Byte>, off: nat, src: seq<Byte>)
    requires Good(sb, f) && i < |f.inodes| && FileIs(sb, f, i, c)
    ensures Sofar(sb, f, f, i, c, off, src, 0, [])
  {
    NoCalls(sb, f);
    assert src[..0] == [];
    if off <= |c| {
      SplicedNothing(c, off);
    }
    hide Good, FileIs, Calls, Spliced;
  }

  lemma SofarFacts(sb: Super, f: Fs, g: Fs, i: nat, c: seq<Byte>, off: nat, src: seq<Byte>, k: nat, calls: seq<Call>)
    requires Sofar(sb, f, g, i, c, off, src, k, calls)
    ensures Good(sb, g) && i < |f.inodes| == |g.inodes| && FileIs(sb, g, i, Now(c, off, src, k))
    ensures g.inodes[i].typ == f.inodes[i].typ
    ensures k > 0 ==> f.inodes[i].typ != T_DEV && off <= |c| && off + k <= MAX_BYTES
    ensures if off <= |c| then |Now(c, off, src, k)| >= off + k else |Now(c, off, src, k)| < off + k
  {
    hide Good, FileIs, Calls, Prefixes;
    if off <= |c| {
      SplicedTwice(c, off, src[..k], []);
    }
  }

  lemma OneMoreChunk(sb: Super, f: Fs, g: Fs, t: Fs, i: nat, c: seq<Byte>, off: nat, src: seq<Byte>, k: nat, n1: nat,
                     calls: seq<Call>, stores: seq<Stored>)
    requires Sofar(sb, f, g, i, c, off, src, k, calls) && k < |src| && n1 == Least(CHUNK_MAX, |src| - k)
    requires i < |f.inodes| && off <= |c| && off + k + n1 <= MAX_BYTES && f.inodes[i].typ != T_DEV
    requires off + k <= |Now(c, off, src, k)|
    requires Written(sb, g, t, i, Spliced(Now(c, off, src, k), off + k, src[k..k + n1]))
    requires Transaction(sb, Call(g, t, stores))
    ensures Sofar(sb, f, t, i, c, off, src, k + n1, calls + [Call(g, t, stores)])
  {
    hide Good, FileIs, Calls, Prefixes, HasPrefix, Spliced, Written, Transaction, ChunkBytes, Least, Now;
    NowGrows(c, off, src, k, n1);
    WrittenTwice(sb, f, g, t, i, Now(c, off, src, k), Now(c, off, src, k + n1));
    OneMoreCall(sb, f, g, t, calls, stores);
    PrefixWritten(sb, f, t, i, c, off, src, k, n1, |calls|);
    OneMorePrefix(sb, f, calls, Call(g, t, stores), i, c, off, src);
  }

  lemma NowGrows(c: seq<Byte>, off: nat, src: seq<Byte>, k: nat, n1: nat)
    requires k + n1 <= |src| && off <= |c|
    ensures off + k <= |Now(c, off, src, k)| && Now(c, off, src, k + n1) == Spliced(c, off, src[..k + n1])
    ensures Spliced(Now(c, off, src, k), off + k, src[k..k + n1]) == Now(c, off, src, k + n1)
  {
    SplicedTwice(c, off, src[..k], src[k..k + n1]);
    assert src[..k] + src[k..k + n1] == src[..k + n1];
  }

  datatype Io = Err | Device | Panic | Done(n: nat)

  /** A chunk of the block holding offset `at` is a slice of the file. */
  lemma ReadChunk(sb: Super, f: Fs, i: nat, c: seq<Byte>, at: nat, k: nat, chunk: seq<Byte>)
    requires Good(sb, f) && i < |f.inodes| && FileIs(sb, f, i, c) && k > 0 && at + k <= |c| && Within(at) + k <= BSIZE
    requires Present(sb, f, i, at)
    requires chunk == f.blocks[Ref(f, i, SlotOf(BlockNo(at)))][Within(at)..Within(at) + k]
    ensures chunk == c[at..at + k]
  {
    forall q | 0 <= q < k ensures chunk[q] == c[at + q] {
      InChunk(at, k, at + q);
    }
  }

  // ------------------------------------------------------------- block mapping

  lemma SameInodeBlocksTransitive(sb: Super, f: Fs, g: Fs, h: Fs)
    requires SameInodeBlocks(sb, f, g) && SameInodeBlocks(sb, g, h)
    ensures SameInodeBlocks(sb, f, h)
  {
  }

  lemma AllocInodeBlocks(sb: Super, f: Fs, b: nat)
    requires Shape(sb, f) && sb.datastart <= b < sb.size
    ensures SameInodeBlocks(sb, f, Alloc(sb, f, b))
  {
    assert BBlock(sb, b) >= sb.bmapstart && sb.bmapstart < sb.datastart;
    hide Zero, BBlock, FlipBit;
  }

  /** A new block `b` in an empty slot of the inode. */
  lemma DirectFilled(sb: Super, f: Fs, i: nat, k: nat, b: nat)
    requires Good(sb, f) && i < |f.inodes| && k <= NDIRECT && f.inodes[i].addrs[k] == 0
    requires sb.datastart <= b < sb.size && !Used(sb, f, b)
    ensures b != 0
    ensures var h := PutDirect(Alloc(sb, f, b), i, k, b); Good(sb, h) && Filled(sb, f, h, i, k, b)
  {
    hide Alloc, Used, Owned, Dense, KeepsBytes, SameInodeBlocks, Zero, Unowned;
    var g := Alloc(sb, f, b);
    var h := PutDirect(g, i, k, b);
    AllocKeeps(sb, f, b);
    PutDirectKeeps(sb, g, i, k, b);
    AllocInodeBlocks(sb, f, b);
    SameInodeBlocksAfter(sb, f, g, h);
    KeepsBytesTransitive(sb, f, g, h);
  }

  lemma SameInodeBlocksAfter(sb: Super, f: Fs, g: Fs, h: Fs)
    requires SameInodeBlocks(sb, f, g) && h.blocks == g.blocks && |h.inodes| == |g.inodes|
    ensures SameInodeBlocks(sb, f, h)
  {
  }

  /** A new block `b` in an empty entry of the indirect block. */
  lemma EntryFilled(sb: Super, f: Fs, i: nat, j: nat, b: nat)
    requires Good(sb, f) && i < |f.inodes| && j < NINDIRECT && f.inodes[i].addrs[NDIRECT] != 0
    requires Ref(f, i, NDIRECT + 1 + j) == 0 && sb.datastart <= b < sb.size && !Used(sb, f, b)
    ensures b != 0 && b < WORD && sb.datastart <= f.inodes[i].addrs[NDIRECT] < sb.size
    ensures var h := PutEntry(Alloc(sb, f, b), f.inodes[i].addrs[NDIRECT], j, b);
      Good(sb, h) && Filled(sb, f, h, i, NDIRECT + 1 + j, b)
  {
    hide Alloc, Used, Dense, KeepsBytes, Zero, Unowned, Ref, SetWord, Good, SameRefs, SameInodeBlocks, PutRef;
    GoodShape(sb, f);
    var g, x := Alloc(sb, f, b), f.inodes[i].addrs[NDIRECT];
    RefDirect(f, i);
    RefBelow(sb, f, i, NDIRECT);
    AllocKeeps(sb, f, b);
    SameRefsAt(f, g, i, NDIRECT);
    SameRefsAt(f, g, i, NDIRECT + 1 + j);
    PutEntryKeeps(sb, g, i, j, b);
    AllocInodeBlocks(sb, f, b);
    GoodShape(sb, PutEntry(g, x, j, b));
    EntryJoined(sb, f, g, PutEntry(g, x, j, b), i, NDIRECT + 1 + j, b, x);
  }

  lemma GoodShape(sb: Super, f: Fs)
    requires Good(sb, f)
    ensures Shape(sb, f)
  {
  }

  lemma RefDirect(f: Fs, i: nat)
    requires i < |f.inodes|
    ensures Ref(f, i, NDIRECT) == f.inodes[i].addrs[NDIRECT]
  {
  }

  lemma SameRefsAt(f: Fs, g: Fs, i: nat, k: nat)
    requires SameRefs(f, g) && i < |f.inodes| && k < SLOTS
    ensures i < |g.inodes| && Ref(g, i, k) == Ref(f, i, k)
  {
  }

  lemma EntryJoined(sb: Super, f: Fs, g: Fs, h: Fs, i: nat, k: nat, b: nat, x: nat)
    requires Shape(sb, f) && Shape(sb, g) && Shape(sb, h) && SameRefs(f, g) && g.inodes == f.inodes == h.inodes
    requires i < |f.inodes| && k < SLOTS && Ref(f, i, k) == 0 && PutRef(g, h, i, k, b)
    requires KeepsBytes(sb, f, g) && KeepsBytes(sb, g, h)
    requires SameInodeBlocks(sb, f, g)
    requires sb.datastart <= x < sb.size && h.blocks == g.blocks[x := h.blocks[x]]
    ensures Filled(sb, f, h, i, k, b)
  {
    hide Ref, KeepsBytes;
    KeepsBytesTransitive(sb, f, g, h);
  }

  /** What bmap returning `b` for block `bn` of file `i` leaves. */
  ghost predicate Mapped(sb: Super, f: Fs, g: Fs, i: nat, bn: nat, b: nat) {
    && Shape(sb, f) && Shape(sb, g) && Extends(f, g, i) && KeepsBytes(sb, f, g) && SameInodeBlocks(sb, f, g)
    && bn < MAXFILE && b != 0 && Ref(g, i, SlotOf(bn)) == b
  }

  lemma MappedAlready(sb: Super, f: Fs, i: nat, bn: nat)
    requires Shape(sb, f) && i < |f.inodes| && bn < MAXFILE && Ref(f, i, SlotOf(bn)) != 0
    ensures Mapped(sb, f, f, i, bn, Ref(f, i, SlotOf(bn)))
  {
  }

  lemma MappedOnce(sb: Super, f: Fs, g: Fs, i: nat, bn: nat, b: nat)
    requires bn < MAXFILE && Filled(sb, f, g, i, SlotOf(bn), b) && b != 0
    ensures Mapped(sb, f, g, i, bn, b)
  {
  }

  lemma MappedRef(sb: Super, f: Fs, i: nat, bn: nat, b: nat)
    requires Mapped(sb, f, f, i, bn, b)
    ensures i < |f.inodes| && bn < MAXFILE && b == Ref(f, i, SlotOf(bn))
  {
  }

  lemma FilledRef(sb: Super, f: Fs, g: Fs, i: nat, k: nat, b: nat)
    requires Filled(sb, f, g, i, k, b)
    ensures i < |g.inodes| && k < SLOTS && Ref(g, i, k) == b
  {
    hide Ref;
  }

  /** Without an indirect block there are no entries. */
  lemma EntryNeedsBlock(f: Fs, i: nat, bn: nat)
    requires i < |f.inodes| && NDIRECT <= bn < MAXFILE
    ensures f.inodes[i].addrs[NDIRECT] == 0 ==> Ref(f, i, SlotOf(bn)) == 0
  {
  }

  lemma EntryOf(sb: Super, f: Fs, i: nat, bn: nat)
    requires Good(sb, f) && i < |f.inodes| && NDIRECT <= bn < MAXFILE && f.inodes[i].addrs[NDIRECT] != 0
    ensures f.inodes[i].addrs[NDIRECT] < |f.blocks| && SlotOf(bn) == NDIRECT + 1 + (bn - NDIRECT)
    ensures Ref(f, i, SlotOf(bn)) == Word(f.blocks[f.inodes[i].addrs[NDIRECT]], bn - NDIRECT)
  {
    assert Ref(f, i, NDIRECT) != 0;
  }

  /** The indirect block was there, or has just been allocated. */
  ghost predicate WithIndirect(sb: Super, f: Fs, g: Fs, i: nat) {
    i < |f.inodes| && i < |g.inodes| && (f == g || Filled(sb, f, g, i, NDIRECT, g.inodes[i].addrs[NDIRECT]))
  }

  lemma MappedEntry(sb: Super, f: Fs, g: Fs, i: nat, bn: nat)
    requires Shape(sb, f) && Shape(sb, g) && WithIndirect(sb, f, g, i) && bn < MAXFILE && Ref(g, i, SlotOf(bn)) != 0
    ensures Mapped(sb, f, g, i, bn, Ref(g, i, SlotOf(bn)))
  {
  }

  lemma MappedTwice(sb: Super, f: Fs, g: Fs, h: Fs, i: nat, bn: nat, b: nat)
    requires WithIndirect(sb, f, g, i) && bn < MAXFILE && Filled(sb, g, h, i, SlotOf(bn), b) && b != 0
    ensures Mapped(sb, f, h, i, bn, b)
  {
    if f != g {
      ExtendsTransitive(f, g, h, i);
      SameInodeBlocksTransitive(sb, f, g, h);
      hide KeepsBytes, Extends, SameInodeBlocks;
      KeepsBytesTransitive(sb, f, g, h);
    }
  }

  // ------------------------------------------------------------------- chunks

  /** min(n - tot, BSIZE - Within(off)). */
  function Piece(at: nat, left: nat): (k: nat)
    ensures k <= left && Within(at) + k <= BSIZE && (left > 0 ==> k > 0)
    ensures k == left || Within(at + k) == 0
  {
    if left < BSIZE - Within(at) then left
    else
      NextBlock(at);
      BSIZE - Within(at)
  }

  lemma NextBlock(at: nat)
    ensures Within(at + (BSIZE - Within(at))) == 0 && BlockNo(at + (BSIZE - Within(at))) == BlockNo(at) + 1
  {
    var q := BlockNo(at);
    assert at == BSIZE * q + Within(at);
    assert at + (BSIZE - Within(at)) == BSIZE * (q + 1);
  }

  lemma SizeIs(sb: Super, f: Fs, i: nat, c: seq<Byte>)
    requires Good(sb, f) && i < |f.inodes| && FileIs(sb, f, i, c)
    ensures |c| == f.inodes[i].size
  {
    hide Good;
  }

  /** Where a chunk of the file is. */
  lemma ReadBlock(sb: Super, f: Fs, i: nat, c: seq<Byte>, at: nat, k: nat)
    requires Good(sb, f) && i < |f.inodes| && FileIs(sb, f, i, c) && k > 0 && at + k <= |c| && Within(at) + k <= BSIZE
    ensures BlockNo(at) < MAXFILE && 0 < Ref(f, i, SlotOf(BlockNo(at))) < |f.blocks|
    ensures f.blocks[Ref(f, i, SlotOf(BlockNo(at)))][Within(at)..Within(at) + k] == c[at..at + k]
  {
    BlockNoBelow(at);
    assert Present(sb, f, i, at);
    ReadChunk(sb, f, i, c, at, k, f.blocks[Ref(f, i, SlotOf(BlockNo(at)))][Within(at)..Within(at) + k]);
  }

  /** The block that holds offset `at` of file `i` is there. */
  ghost predicate Allocated(f: Fs, i: nat, at: nat) {
    i < |f.inodes| && BlockNo(at) < MAXFILE && Ref(f, i, SlotOf(BlockNo(at))) != 0
  }

  lemma AllocatedBelow(sb: Super, f: Fs, i: nat, at: nat)
    requires Good(sb, f) && i < |f.inodes| && BlockNo(at) < MAXFILE
    requires at < f.inodes[i].size || (at == f.inodes[i].size && Within(at) != 0)
    ensures Allocated(f, i, at)
  {
    var bn := BlockNo(at);
    assert Dense(f, i);
    assert bn * BSIZE < f.inodes[i].size;
  }

  /** What a turn of writei's loop logs beside the indirect block. */
  ghost function Cost(sb: Super, f: Fs, i: nat, at: nat, b: nat): (r: set<nat>)
    ensures |r| <= if Allocated(f, i, at) then 1 else 2
    ensures b in r && (!Allocated(f, i, at) ==> r == Near(sb, b))
  {
    if Allocated(f, i, at) then {b} else Near(sb, b)
  }

  /** Blocks that a write of `n` bytes at `off` may log beside the inode's block, the indirect block and its bitmap
      block: each data block with its bitmap block, but the first is there already if the write starts inside it. */
  function Bound(off: nat, n: nat): (r: nat)
    ensures n <= CHUNK_MAX ==> r <= 7
  {
    if n == 0 then 0
    else
      Spanned(off, n);
      2 * (BlockNo(off + n - 1) - BlockNo(off) + 1) - if Within(off) == 0 then 0 else 1
  }

  lemma Spanned(off: nat, n: nat)
    requires n > 0
    ensures BlockNo(off + n - 1) >= BlockNo(off)
    ensures n <= CHUNK_MAX ==> BlockNo(off + n - 1) - BlockNo(off) <= if Within(off) == 0 then 2 else 3
  {
    var q, r := BlockNo(off), Within(off);
    assert off == BSIZE * q + r;
    if n <= CHUNK_MAX {
      assert off + n - 1 < BSIZE * (q + if r == 0 then 3 else 4);
    }
  }

  lemma BoundGrows(off: nat, tot: nat, m: nat)
    requires 0 < m && Within(off + tot) + m <= BSIZE && (tot == 0 || Within(off + tot) == 0)
    ensures Bound(off, tot + m) >= Bound(off, tot) + if tot == 0 && Within(off) != 0 then 1 else 2
  {
    var at := off + tot;
    var q := BlockNo(at);
    assert at == BSIZE * q + Within(at);
    assert BlockNo(at + m - 1) == q;
    if tot > 0 {
      assert BlockNo(at - 1) == q - 1;
    }
  }

  /** The inode blocks are as they were, and so are the inodes unless the file grows. */
  ghost predicate LoopKept(sb: Super, f: Fs, g: Fs, i: nat, end: nat) {
    && SameInodeBlocks(sb, f, g) && i < |f.inodes| && Indirect(sb, f.inodes[i]) <= Indirect(sb, g.inodes[i])
    && (end <= f.inodes[i].size ==> g.inodes == f.inodes)
  }

  lemma NothingWritten(sb: Super, f: Fs, i: nat, off: nat)
    requires Good(sb, f) && i < |f.inodes|
    ensures Wrote(sb, f, f, i, off, []) && LoopKept(sb, f, f, i, off) && Bound(off, 0) == 0
  {
  }

  /** A turn of writei's loop: bmap turns `g` into `h` and gives the inode a block only if there was none. */
  lemma StepTaken(sb: Super, f: Fs, g: Fs, h: Fs, i: nat, off: nat, done: seq<Byte>, more: seq<Byte>, b: nat,
                  d: set<nat>, at: nat)
    requires Wrote(sb, f, g, i, off, done) && LoopKept(sb, f, g, i, at) && off <= f.inodes[i].size
    requires at == off + |done| && Good(sb, h) && Mapped(sb, g, h, i, BlockNo(at), b)
    requires Allocated(g, i, at) ==> h == g
    requires |more| > 0 && Within(at) + |more| <= BSIZE && (|done| == 0 || Within(at) == 0)
    requires |d| <= Bound(off, |done|)
    ensures i < |g.inodes| && i < |h.inodes| && sb.datastart <= b < |h.blocks|
    ensures var t := StorePiece(h, b, at, more);
      Good(sb, t) && Wrote(sb, f, t, i, off, done + more) && LoopKept(sb, f, t, i, at + |more|)
    ensures Indirect(sb, g.inodes[i]) <= Indirect(sb, h.inodes[i])
    ensures |d + Cost(sb, g, i, at, b)| <= Bound(off, |done| + |more|)
  {
    hide *;
    WroteFacts(sb, f, g, i, off, done);
    MappedBlock(sb, g, h, i, BlockNo(at), b);
    ChunkMapped(sb, f, g, h, i, off, done, more, b, at);
    StepPaid(sb, f, g, i, off, |done|, |more|, b, d);
    StepKept(sb, f, g, h, i, at, more, b);
  }

  lemma WroteFacts(sb: Super, f: Fs, g: Fs, i: nat, off: nat, done: seq<Byte>)
    requires Wrote(sb, f, g, i, off, done)
    ensures Good(sb, g) && i < |f.inodes| == |g.inodes| && g.inodes[i].size == f.inodes[i].size
  {
    hide Good;
  }

  lemma MappedBlock(sb: Super, g: Fs, h: Fs, i: nat, bn: nat, b: nat)
    requires Good(sb, h) && Mapped(sb, g, h, i, bn, b)
    ensures sb.datastart <= b < |h.blocks| && i < |g.inodes| == |h.inodes| && sb.bmapstart <= b && bn < MAXFILE
    ensures Indirect(sb, g.inodes[i]) <= Indirect(sb, h.inodes[i])
  {
    assert Ref(h, i, SlotOf(bn)) == b;
    assert Ref(g, i, NDIRECT) != 0 ==> Ref(h, i, NDIRECT) == Ref(g, i, NDIRECT);
  }

  lemma ChunkMapped(sb: Super, f: Fs, g: Fs, h: Fs, i: nat, off: nat, done: seq<Byte>, more: seq<Byte>, b: nat,
                    at: nat)
    requires Wrote(sb, f, g, i, off, done) && Good(sb, h) && at == off + |done| && Mapped(sb, g, h, i, BlockNo(at), b)
    requires |more| > 0 && Within(at) + |more| <= BSIZE && b < |h.blocks|
    ensures Good(sb, StorePiece(h, b, at, more)) && Wrote(sb, f, StorePiece(h, b, at, more), i, off, done + more)
  {
    hide Wrote, Good, Extends, KeepsBytes, StorePiece, BlockNo, Within, Ref, SlotOf;
    ChunkStored(sb, f, g, h, i, off, done, more, b);
  }

  lemma StepPaid(sb: Super, f: Fs, g: Fs, i: nat, off: nat, tot: nat, m: nat, b: nat, d: set<nat>)
    requires Good(sb, g) && i < |f.inodes| && i < |g.inodes| && g.inodes[i].size == f.inodes[i].size
    requires off <= f.inodes[i].size && BlockNo(off + tot) < MAXFILE && |d| <= Bound(off, tot)
    requires 0 < m && Within(off + tot) + m <= BSIZE && (tot == 0 || Within(off + tot) == 0)
    ensures |d + Cost(sb, g, i, off + tot, b)| <= Bound(off, tot + m)
  {
    hide Good, Bound, Allocated, Cost;
    var at := off + tot;
    BoundGrows(off, tot, m);
    if tot == 0 && Within(off) != 0 {
      AllocatedBelow(sb, g, i, at);
    }
    UnionSize(d, Cost(sb, g, i, at, b));
  }

  lemma StepKept(sb: Super, f: Fs, g: Fs, h: Fs, i: nat, at: nat, more: seq<Byte>, b: nat)
    requires Good(sb, g) && LoopKept(sb, f, g, i, at) && Mapped(sb, g, h, i, BlockNo(at), b)
    requires Allocated(g, i, at) ==> h == g
    requires i < |h.inodes| && g.inodes[i].size == f.inodes[i].size
    requires Indirect(sb, g.inodes[i]) <= Indirect(sb, h.inodes[i])
    requires sb.bmapstart <= b < |h.blocks| && |more| > 0 && Within(at) + |more| <= BSIZE
    ensures LoopKept(sb, f, StorePiece(h, b, at, more), i, at + |more|)
  {
    hide Good, Extends, KeepsBytes, Ref, SlotOf, Allocated, Indirect, Patch, BlockNo, Within;
    if at + |more| <= f.inodes[i].size {
      AllocatedBelow(sb, g, i, at);
    }
    SameInodeBlocksTransitive(sb, f, g, h);
  }

  lemma UnionSize(a: set<nat>, b: set<nat>)
    ensures |a + b| <= |a| + |b|
  {
    assert a + b == a + (b - a);
    Counting.SubsetCount(b - a, b);
  }

  lemma FewBlocks(after: set<nat>, before: set<nat>, ind: set<nat>, d: set<nat>, x: nat)
    requires after <= before + ind + d && |ind| <= 2
    ensures |after - before| <= |d| + 2 && |after + {x} - before| <= |d| + 3
  {
    UnionSize(ind, d);
    UnionSize(ind + d, {x});
    Counting.SubsetCount(after - before, ind + d);
    Counting.SubsetCount(after + {x} - before, ind + d + {x});
  }

  /** The first of the blocks that share a bitmap block. */
  predicate Aligned(b: nat) {
    b % 4096 == 0
  }

  lemma AlignedNext(b: nat)
    ensures Aligned(0) && (Aligned(b) ==> Aligned(b + BPB))
  {
  }

  lemma SameBlock(b: nat, bi: nat)
    requires Aligned(b) && bi < BPB
    ensures (b + bi) / 4096 == b / 4096 && (b + bi) % 4096 == bi && (b + bi) % 8 == bi % 8
  {
    var q := b / 4096;
    assert b == 4096 * q;
    InBitmapBlock(q, bi);
    assert bi == 8 * (bi / 8) + bi % 8;
    Eighth(512 * q + bi / 8, bi % 8);
  }

  lemma InBitmapBlock(q: nat, r: nat)
    requires r < 4096
    ensures (4096 * q + r) / 4096 == q && (4096 * q + r) % 4096 == r
  {
  }
}
