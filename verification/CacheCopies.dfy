/**
 * What log.c does with the cache: read one or two blocks, store into one of
 * them, bwrite it, and release what was read.
 */
module CacheCopies {
  import opened Common
  import opened Disk
  import opened BufferCache
  import Counting

  ghost predicate Idle(s: State)
    requires Shape(s)
  {
    forall i :: 0 <= i < NBUF ==> !s.bufs[i].locked
  }

  /** Block `c` is pinned: its buffer may differ from the disk and cannot be recycled. */
  ghost predicate Pinned(s: State, c: int)
    requires Shape(s)
  {
    exists i :: 0 <= i < NBUF && s.bufs[i].dev == DEV && s.bufs[i].blockno == c && s.bufs[i].dirty
  }

  /** No process holds or waits for a buffer. */
  ghost predicate AllReleased(s: State)
    requires Shape(s)
  {
    forall i :: 0 <= i < NBUF ==> s.bufs[i].refcnt == 0
  }

  ghost predicate SameViews(s: State, t: State)
    requires Shape(s) && Shape(t)
  {
    |t.disk| == |s.disk| && forall c :: 0 <= c < |s.disk| ==> View(t, c) == View(s, c)
  }

  ghost predicate PutView(s: State, t: State, b: nat, v: Block)
    requires Shape(s) && Shape(t)
  {
    |t.disk| == |s.disk| && forall c :: 0 <= c < |s.disk| ==> View(t, c) == if c == b then v else View(s, c)
  }

  /** `t` is `s` with block `b` holding `v`, on disk as well; no buffer is kept locked, only
      `b` is unpinned, and buffers that could be recycled still can. */
  ghost predicate Put(s: State, t: State, b: nat, v: Block) {
    && Shape(s) && Inv(t) && Idle(t) && b < |s.disk|
    && t.disk == s.disk[b := v]
    && PutView(s, t, b, v)
    && (forall c :: Pinned(t, c) <==> Pinned(s, c) && c != b)
    && (forall k :: 0 <= k < NBUF && Eligible(s.bufs[k]) ==> Eligible(t.bufs[k]))
  }

  // ------------------------------------------------------------ single actions

  /** Storing new contents and bwrite. */
  lemma Overwrite(t: State, i: nat, data: Block)
    requires Inv(t) && i < NBUF && t.bufs[i].valid && t.bufs[i].locked
    ensures WriteSpec(SetBuf(t, i, t.bufs[i].(data := data)), i).Some?
    ensures var u := WriteSpec(SetBuf(t, i, t.bufs[i].(data := data)), i).value;
      && u.disk == t.disk[t.bufs[i].blockno := data] && u.order == t.order
      && u.bufs == t.bufs[i := t.bufs[i].(data := data, dirty := false)]
  {
  }

  lemma OverwriteView(t: State, i: nat, data: Block)
    requires Inv(t) && i < NBUF && t.bufs[i].valid && t.bufs[i].locked
    ensures WriteSpec(SetBuf(t, i, t.bufs[i].(data := data)), i).Some?
    ensures var u := WriteSpec(SetBuf(t, i, t.bufs[i].(data := data)), i).value;
      Inv(u) && PutView(t, u, t.bufs[i].blockno, data)
  {
    Overwrite(t, i, data);
    var t1 := SetBuf(t, i, t.bufs[i].(data := data));
    StepKeepsInv(t, ModifyOp(i, data));
    assert Legal(t1, WriteOp(i)) && Step(t1, WriteOp(i)) == WriteSpec(t1, i);
    StepKeepsInv(t1, WriteOp(i));
    forall c | 0 <= c < |t.disk|
      ensures View(WriteSpec(t1, i).value, c) == if c == t.bufs[i].blockno then data else View(t, c)
    {
      StepView(t, ModifyOp(i, data), c);
      StepView(t1, WriteOp(i), c);
    }
  }

  /** What brelse does to the buffer. */
  function Dropped(b: Buf): Buf
    requires b.refcnt > 0
  {
    b.(locked := false, refcnt := b.refcnt - 1)
  }

  /** brelse of a buffer whose contents are recorded. */
  lemma ReleaseView(s: State, i: nat)
    requires Inv(s) && Legal(s, UnlockOp(i)) && s.bufs[i].refcnt > 0
    ensures var t := ReleaseSpec(s, i);
      && Inv(t) && t.disk == s.disk && SameViews(s, t)
      && t.bufs == s.bufs[i := Dropped(s.bufs[i])]
  {
    var u := SetBuf(s, i, s.bufs[i].(locked := false));
    StepKeepsInv(s, UnlockOp(i));
    StepKeepsInv(u, DropOp(i));
    forall c | 0 <= c < |s.disk| ensures View(ReleaseSpec(s, i), c) == View(s, c) {
      StepView(s, UnlockOp(i), c);
      StepView(u, DropOp(i), c);
    }
  }

  // --------------------------------------------------- one block read and held

  /** Reference count and dirtiness of the buffer one bread of block `b` returned. */
  ghost predicate Taken(before: Buf, after: Buf, b: nat) {
    && Holds(after, DEV, b) && after.valid && after.locked
    && (if Holds(before, DEV, b)
        then after.refcnt == before.refcnt + 1 && after.dirty == before.dirty
        else Eligible(before) && after.refcnt == 1 && !after.dirty)
  }

  /** A buffer just read is pinned or agrees with the disk. */
  lemma SourceClean(s: State, after: Buf, src: nat, j: nat)
    requires Inv(s) && Idle(s) && src < |s.disk| && j < NBUF
    requires Taken(s.bufs[j], after, src) && after.data == View(s, src)
    requires forall h :: 0 <= h < NBUF && h != j && Holds(s.bufs[h], DEV, src) ==> Eligible(s.bufs[h])
    ensures after.dirty || after.data == s.disk[src]
  {
    if h :| 0 <= h < NBUF && Holds(s.bufs[h], DEV, src) {
      ViewCached(s, src, h);
    } else {
      ViewUncached(s, src);
    }
  }

  /** Unpinned blocks are the same in the cache and on the disk. */
  lemma UnpinnedView(s: State, c: nat)
    requires Inv(s) && Idle(s) && c < |s.disk| && !Pinned(s, c)
    ensures View(s, c) == s.disk[c]
  {
    if h :| 0 <= h < NBUF && Holds(s.bufs[h], DEV, c) {
      ViewCached(s, c, h);
    } else {
      ViewUncached(s, c);
    }
  }

  /** A block read and released again: nothing to see has changed. */
  lemma ReadRelease(s: State, t: State, b: nat, i: nat)
    requires Inv(s) && Idle(s) && b < |s.disk| && ReadPost(s, b, t, i)
    ensures var r := ReleaseSpec(t, i);
      && Inv(r) && Idle(r) && r.disk == s.disk && SameViews(s, r)
      && (forall c :: Pinned(r, c) <==> Pinned(s, c))
      && (forall k :: 0 <= k < NBUF && Eligible(s.bufs[k]) ==> Eligible(r.bufs[k]))
  {
    SourceClean(s, t.bufs[i], b, i);
    ReleaseView(t, i);
    hide Inv, View, ReleaseSpec;
    ReleasePins(s, t, ReleaseSpec(t, i), b, i);
  }

  lemma ReleasePins(s: State, t: State, r: State, b: nat, i: nat)
    requires Inv(s) && Shape(r) && b < |s.disk| && ReadPost(s, b, t, i)
    requires t.bufs[i].refcnt > 0 && r.bufs == t.bufs[i := Dropped(t.bufs[i])]
    ensures forall c :: Pinned(r, c) <==> Pinned(s, c)
    ensures forall k :: 0 <= k < NBUF && Eligible(s.bufs[k]) ==> Eligible(r.bufs[k])
  {
    forall c | Pinned(r, c) ensures Pinned(s, c) {
      var k :| 0 <= k < NBUF && r.bufs[k].dev == DEV && r.bufs[k].blockno == c && r.bufs[k].dirty;
      assert s.bufs[k].dev == DEV && s.bufs[k].blockno == c && s.bufs[k].dirty;
    }
    forall c | Pinned(s, c) ensures Pinned(r, c) {
      var k :| 0 <= k < NBUF && s.bufs[k].dev == DEV && s.bufs[k].blockno == c && s.bufs[k].dirty;
      assert r.bufs[k].dev == DEV && r.bufs[k].blockno == c && r.bufs[k].dirty;
    }
  }

  // -------------------------------------------------------------- pins and puts

  /** A buffer a copy leaves alone, or has read and released: as pinned, as eligible as before. */
  ghost predicate Kept(before: Buf, after: Buf) {
    && !after.locked
    && (before.dirty <==> after.dirty)
    && (after.dirty ==> after.dev == before.dev && after.blockno == before.blockno)
    && (Eligible(before) ==> Eligible(after))
  }

  lemma PinsAfterPut(s: State, r: State, i: nat, b: nat)
    requires Shape(s) && Shape(r) && Unique(r) && i < NBUF
    requires forall k :: 0 <= k < NBUF && k != i ==> Kept(s.bufs[k], r.bufs[k])
    requires Holds(r.bufs[i], DEV, b) && !r.bufs[i].dirty
    requires s.bufs[i].dirty ==> Holds(s.bufs[i], DEV, b)
    ensures forall c :: Pinned(r, c) <==> Pinned(s, c) && c != b
  {
    forall c ensures Pinned(r, c) <==> Pinned(s, c) && c != b {
      if Pinned(r, c) {
        var k :| 0 <= k < NBUF && r.bufs[k].dev == DEV && r.bufs[k].blockno == c && r.bufs[k].dirty;
        assert s.bufs[k].dev == DEV && s.bufs[k].blockno == c && s.bufs[k].dirty;
      }
      if Pinned(s, c) && c != b {
        var k :| 0 <= k < NBUF && s.bufs[k].dev == DEV && s.bufs[k].blockno == c && s.bufs[k].dirty;
        assert r.bufs[k].dev == DEV && r.bufs[k].blockno == c && r.bufs[k].dirty;
      }
    }
  }

  /** Store `data` into the block's buffer, bwrite, brelse. */
  function FinishPut(t: State, i: nat, data: Block): (r: Option<State>)
    requires Shape(t) && i < NBUF && t.bufs[i].refcnt > 0
    ensures r.Some? ==> Shape(r.value)
  {
    match WriteSpec(SetBuf(t, i, t.bufs[i].(data := data)), i)
    case None => None
    case Some(u) => Some(ReleaseSpec(u, i))
  }

  lemma FinishPutFacts(t: State, i: nat, data: Block)
    requires Inv(t) && i < NBUF && t.bufs[i].valid && t.bufs[i].locked
    ensures FinishPut(t, i, data).Some?
    ensures var r := FinishPut(t, i, data).value;
      && Inv(r) && PutView(t, r, t.bufs[i].blockno, data)
      && r.disk == t.disk[t.bufs[i].blockno := data]
      && r.bufs == t.bufs[i := Dropped(t.bufs[i]).(dirty := false, data := data)]
  {
    Overwrite(t, i, data);
    OverwriteView(t, i, data);
    ReleaseView(WriteSpec(SetBuf(t, i, t.bufs[i].(data := data)), i).value, i);
  }

  lemma AssemblePut(s: State, r: State, i: nat, b: nat, v: Block)
    requires Shape(s) && Idle(s) && Inv(r) && i < NBUF && b < |s.disk|
    requires r.disk == s.disk[b := v] && PutView(s, r, b, v)
    requires forall k :: 0 <= k < NBUF && k != i ==> Kept(s.bufs[k], r.bufs[k])
    requires Holds(r.bufs[i], DEV, b) && !r.bufs[i].dirty && !r.bufs[i].locked
    requires if Holds(s.bufs[i], DEV, b) then r.bufs[i].refcnt == s.bufs[i].refcnt
      else Eligible(s.bufs[i]) && r.bufs[i].refcnt == 0
    ensures Put(s, r, b, v)
  {
    PinsAfterPut(s, r, i, b);
  }

  lemma PutPost(s: State, t: State, b: nat, i: nat, data: Block)
    requires Inv(s) && Idle(s) && b < |s.disk| && ReadPost(s, b, t, i)
    ensures t.bufs[i].refcnt > 0
    ensures FinishPut(t, i, data).Some? && Put(s, FinishPut(t, i, data).value, b, data)
  {
    FinishPutFacts(t, i, data);
    AssemblePut(s, FinishPut(t, i, data).value, i, b, data);
  }

  // ------------------------------------------------------- blocks that are logged

  /** The block's buffer with new contents and B_DIRTY set, as log_write leaves it. */
  function Logged(t: State, i: nat, data: Block): (r: State)
    requires Shape(t) && i < NBUF
    ensures Shape(r)
  {
    var u := SetBuf(t, i, t.bufs[i].(data := data));
    SetBuf(u, i, u.bufs[i].(dirty := true))
  }

  lemma LoggedView(t: State, i: nat, data: Block)
    requires Inv(t) && i < NBUF && t.bufs[i].valid && t.bufs[i].locked
    ensures Inv(Logged(t, i, data)) && PutView(t, Logged(t, i, data), t.bufs[i].blockno, data)
  {
    var u := SetBuf(t, i, t.bufs[i].(data := data));
    assert Step(t, ModifyOp(i, data)) == Some(u) && Step(u, PinOp(i)) == Some(Logged(t, i, data));
    StepKeepsInv(t, ModifyOp(i, data));
    StepKeepsInv(u, PinOp(i));
    hide Inv, View, Step, Legal;
    forall c | 0 <= c < |t.disk|
      ensures View(Logged(t, i, data), c) == if c == t.bufs[i].blockno then data else View(t, c)
    {
      LoggedViewAt(t, i, data, c);
    }
  }

  lemma LoggedViewAt(t: State, i: nat, data: Block, c: nat)
    requires Inv(t) && i < NBUF && t.bufs[i].valid && t.bufs[i].locked && c < |t.disk|
    ensures View(Logged(t, i, data), c) == if c == t.bufs[i].blockno then data else View(t, c)
  {
    var u := SetBuf(t, i, t.bufs[i].(data := data));
    assert Step(t, ModifyOp(i, data)) == Some(u) && Step(u, PinOp(i)) == Some(Logged(t, i, data));
    StepKeepsInv(t, ModifyOp(i, data));
    hide View, Inv;
    StepView(t, ModifyOp(i, data), c);
    StepView(u, PinOp(i), c);
  }

  /** Read, store, log_write, brelse of one block: that block shows the new contents and is pinned. */
  lemma UpdatePost(s: State, t: State, b: nat, i: nat, data: Block)
    requires Inv(s) && Idle(s) && b < |s.disk| && ReadPost(s, b, t, i)
    ensures var r := ReleaseSpec(Logged(t, i, data), i);
      && Inv(r) && Idle(r) && r.disk == s.disk && PutView(s, r, b, data)
      && (forall c :: Pinned(r, c) <==> Pinned(s, c) || c == b)
      && (AllReleased(s) ==> AllReleased(r))
  {
    LoggedView(t, i, data);
    var u := Logged(t, i, data);
    ReleaseView(u, i);
    var r := ReleaseSpec(u, i);
    hide Inv, View, ReleaseSpec;
    assert PutView(s, r, b, data);
    UpdatePins(s, t, r, b, i, data);
  }

  lemma UpdatePins(s: State, t: State, r: State, b: nat, i: nat, data: Block)
    requires Inv(s) && Shape(r) && b < |s.disk| && ReadPost(s, b, t, i)
    requires t.bufs[i].refcnt > 0 && r.bufs == t.bufs[i := Dropped(t.bufs[i]).(data := data, dirty := true)]
    ensures forall c :: Pinned(r, c) <==> Pinned(s, c) || c == b
    ensures AllReleased(s) ==> AllReleased(r)
  {
    assert r.bufs[i].dirty && r.bufs[i].dev == DEV && r.bufs[i].blockno == b;
    forall c | Pinned(s, c) ensures Pinned(r, c) {
      var k :| 0 <= k < NBUF && s.bufs[k].dev == DEV && s.bufs[k].blockno == c && s.bufs[k].dirty;
      assert r.bufs[k].dev == DEV && r.bufs[k].blockno == c && r.bufs[k].dirty;
    }
    forall c | Pinned(r, c) && c != b ensures Pinned(s, c) {
      var k :| 0 <= k < NBUF && r.bufs[k].dev == DEV && r.bufs[k].blockno == c && r.bufs[k].dirty;
      assert s.bufs[k] == r.bufs[k];
    }
  }

  /** Buffers that pin `lh`, one each. */
  lemma {:induction false} PinningBuffers(s: State, lh: seq<int>) returns (r: seq<nat>)
    requires Shape(s) && Counting.Distinct(lh) && forall k :: 0 <= k < |lh| ==> Pinned(s, lh[k])
    ensures |r| == |lh| && Counting.Distinct(r)
    ensures forall k :: 0 <= k < |r| ==> r[k] < NBUF && s.bufs[r[k]].blockno == lh[k] && s.bufs[r[k]].dirty
  {
    if lh == [] {
      r := [];
    } else {
      var m := |lh| - 1;
      var q := PinningBuffers(s, lh[..m]);
      var i: nat :| i < NBUF && s.bufs[i].dev == DEV && s.bufs[i].blockno == lh[m] && s.bufs[i].dirty;
      r := q + [i];
    }
  }

  /** With no buffer in use, one can be recycled exactly when fewer than NBUF blocks are pinned. */
  lemma FreeUnlessAllPinned(s: State, lh: seq<int>)
    requires Inv(s) && AllReleased(s) && Counting.Distinct(lh) && forall c :: Pinned(s, c) <==> c in lh
    ensures |lh| <= NBUF && (HasFree(s) <==> |lh| < NBUF)
  {
    var r := PinningBuffers(s, lh);
    hide *;
    BuffersBound(r);
    if HasFree(s) {
      FreeIsNotPinning(s, r);
    } else {
      AllPinned(s, lh);
    }
  }

  lemma BuffersBound(r: seq<nat>)
    requires Counting.Distinct(r) && forall k :: 0 <= k < |r| ==> r[k] < NBUF
    ensures |r| <= NBUF
  {
    hide Counting.Below, Counting.Distinct;
    Counting.AtMost(r, Counting.Below(NBUF));
  }

  lemma FreeIsNotPinning(s: State, r: seq<nat>)
    requires Shape(s) && Counting.Distinct(r) && forall k :: 0 <= k < |r| ==> r[k] < NBUF && s.bufs[r[k]].dirty
    ensures HasFree(s) ==> |r| < NBUF
  {
    hide Counting.Below, Counting.Distinct, Permutation;
    if HasFree(s) {
      var j: nat :| j < NBUF && Eligible(s.bufs[j]);
      Counting.AtMost(r, Counting.Below(NBUF) - {j});
    }
  }

  lemma AllPinned(s: State, lh: seq<int>)
    requires Inv(s) && AllReleased(s) && !HasFree(s) && forall c :: Pinned(s, c) ==> c in lh
    ensures |lh| >= NBUF && forall i :: 0 <= i < NBUF ==> s.bufs[i].dirty
  {
    forall i | 0 <= i < NBUF ensures s.bufs[i].dirty && s.bufs[i].dev == DEV && s.bufs[i].blockno in lh {
      assert !Eligible(s.bufs[i]);
      assert BufOk(s.bufs[i], s.disk);
      assert Pinned(s, s.bufs[i].blockno);
    }
    var blocks := BlockNumbers(s.bufs);
    hide BlockNumbers, Pinned, HasFree, Counting.Elements;
    Counting.AtMost(blocks, Counting.Elements(lh));
    ElementsCount(lh);
  }

  function BlockNumbers(bufs: seq<Buf>): (r: seq<int>)
    ensures |r| == |bufs| && forall i :: 0 <= i < |r| ==> r[i] == bufs[i].blockno
  {
    if bufs == [] then [] else BlockNumbers(bufs[..|bufs| - 1]) + [bufs[|bufs| - 1].blockno as int]
  }

  lemma {:induction false} ElementsCount(s: seq<int>)
    ensures |Counting.Elements(s)| <= |s|
  {
    if s != [] {
      ElementsCount(s[..|s| - 1]);
    }
  }

  // --------------------------------------------------------------- block copies

  /** Both blocks are held: `j` is the source's buffer and `i` the destination's. */
  ghost predicate BothHeld(s: State, t: State, src: nat, j: nat, dst: nat, i: nat)
    requires Inv(s) && src < |s.disk| && dst < |s.disk|
  {
    && Inv(t) && t.disk == s.disk && i < NBUF && j < NBUF && i != j
    && Taken(s.bufs[j], t.bufs[j], src) && Taken(s.bufs[i], t.bufs[i], dst)
    && t.bufs[j].data == View(s, src)
    && (t.bufs[j].dirty || t.bufs[j].data == s.disk[src])
    && (forall k :: 0 <= k < NBUF && k != i && k != j ==> t.bufs[k] == s.bufs[k])
    && SameViews(s, t)
  }

  lemma ReadBoth(s: State, s1: State, s2: State, x: nat, p: nat, y: nat, q: nat)
    requires Inv(s) && Idle(s) && x < |s.disk| && y < |s.disk| && x != y
    requires ReadPost(s, x, s1, p) && ReadPost(s1, y, s2, q)
    ensures BothHeld(s, s2, x, p, y, q) && BothHeld(s, s2, y, q, x, p)
  {
    assert p != q;
    assert s2.bufs[p] == s1.bufs[p];
    assert s1.bufs[q] == s.bufs[q];
    SourceClean(s, s1.bufs[p], x, p);
    SourceClean(s, s2.bufs[q], y, q);
  }

  /** Taking one block's buffer does not lock another's. */
  lemma ReadLeavesAvailable(s: State, s1: State, x: nat, p: nat, y: nat)
    requires Inv(s) && Idle(s) && x < |s.disk| && y < |s.disk| && x != y
    requires ReadPost(s, x, s1, p)
    ensures Available(s1, DEV, y)
  {
  }

  /** The contents of one held buffer are stored into another, which is written to disk, and both are released. */
  function FinishCopy(t: State, j: nat, i: nat): (r: Option<State>)
    requires Shape(t) && i < NBUF && j < NBUF && i != j && t.bufs[i].refcnt > 0 && t.bufs[j].refcnt > 0
    ensures r.Some? ==> Shape(r.value)
  {
    match WriteSpec(SetBuf(t, i, t.bufs[i].(data := t.bufs[j].data)), i)
    case None => None
    case Some(u) => Some(ReleaseSpec(ReleaseSpec(u, j), i))
  }

  lemma FinishCopyFacts(t: State, j: nat, i: nat)
    requires Inv(t) && i < NBUF && j < NBUF && i != j
    requires t.bufs[i].valid && t.bufs[i].locked && t.bufs[j].valid && t.bufs[j].locked
    requires t.bufs[j].dirty || t.bufs[j].data == t.disk[t.bufs[j].blockno]
    ensures FinishCopy(t, j, i).Some?
    ensures var r, data := FinishCopy(t, j, i).value, t.bufs[j].data;
      && Inv(r) && PutView(t, r, t.bufs[i].blockno, data)
      && r.disk == t.disk[t.bufs[i].blockno := data]
      && r.bufs == t.bufs[j := Dropped(t.bufs[j])][i := Dropped(t.bufs[i]).(dirty := false, data := data)]
  {
    assert t.bufs[j].blockno != t.bufs[i].blockno;
    assert BufOk(t.bufs[i], t.disk) && BufOk(t.bufs[j], t.disk);
    hide Unique, BufOk, Permutation, View, WriteSpec, ReleaseSpec;
    var data := t.bufs[j].data;
    Overwrite(t, i, data);
    OverwriteView(t, i, data);
    var u := WriteSpec(SetBuf(t, i, t.bufs[i].(data := data)), i).value;
    ReleaseView(u, j);
    ReleaseView(ReleaseSpec(u, j), i);
  }

  lemma PutAfterSame(s: State, t: State, r: State, b: nat, v: Block)
    requires Shape(s) && Shape(t) && Shape(r) && SameViews(s, t) && PutView(t, r, b, v)
    ensures PutView(s, r, b, v)
  {
  }

  lemma CopyKept(s: seq<Buf>, t: seq<Buf>, r: seq<Buf>, src: nat, j: nat, dst: nat, i: nat)
    requires |s| == |t| == |r| == NBUF && i < NBUF && j < NBUF && i != j
    requires forall k :: 0 <= k < NBUF ==> !s[k].locked
    requires forall k :: 0 <= k < NBUF && k != i && k != j ==> t[k] == s[k]
    requires Taken(s[j], t[j], src) && Taken(s[i], t[i], dst)
    requires t[i].refcnt > 0 && t[j].refcnt > 0
    requires r == t[j := Dropped(t[j])][i := Dropped(t[i]).(dirty := false, data := t[j].data)]
    ensures forall k :: 0 <= k < NBUF && k != i ==> Kept(s[k], r[k])
  {
  }

  lemma CopyPost(s: State, t: State, src: nat, j: nat, dst: nat, i: nat)
    requires Inv(s) && Idle(s) && src < |s.disk| && dst < |s.disk|
    requires BothHeld(s, t, src, j, dst, i)
    ensures t.bufs[i].refcnt > 0 && t.bufs[j].refcnt > 0
    ensures FinishCopy(t, j, i).Some? && Put(s, FinishCopy(t, j, i).value, dst, View(s, src))
  {
    hide Unique, BufOk, Permutation, View, FinishCopy, Kept, PutView;
    FinishCopyFacts(t, j, i);
    var r := FinishCopy(t, j, i).value;
    CopyKept(s.bufs, t.bufs, r.bufs, src, j, dst, i);
    PutAfterSame(s, t, r, dst, View(s, src));
    AssemblePut(s, r, i, dst, View(s, src));
  }
}
