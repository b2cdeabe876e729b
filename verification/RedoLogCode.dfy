/** log.c itself, over the buffer cache: every disk write it makes, and in which order. */
module RedoLogCode {
  import opened Common
  import opened Disk
  import opened BufferCache
  import opened BufferCacheCode
  import opened CacheCopies
  import opened RedoLog
  import Runs = RedoLogRuns
  import Counting

  /** What bread returns for every block. */
  ghost function Views(s: State): (v: seq<Block>)
    requires Shape(s)
    ensures |v| == |s.disk| && forall b :: 0 <= b < |v| ==> v[b] == View(s, b)
  {
    seq(|s.disk|, b requires 0 <= b < |s.disk| => View(s, b))
  }

  ghost predicate TwoFree(s: State)
    requires Shape(s)
  {
    exists i, j :: 0 <= i < j < NBUF && Eligible(s.bufs[i]) && Eligible(s.bufs[j])
  }

  /** bread finds a buffer. */
  ghost predicate CanRead(s: State, b: nat)
    requires Shape(s)
  {
    HasFree(s) || exists i :: 0 <= i < NBUF && Holds(s.bufs[i], DEV, b)
  }

  /** The second of two reads finds a buffer too, if its block is pinned or two were free. */
  lemma SecondReadSucceeds(s: State, s1: State, x: nat, p: nat, y: nat)
    requires Inv(s) && Idle(s) && x < |s.disk| && y < |s.disk| && x != y && ReadPost(s, x, s1, p)
    requires Pinned(s, y) || TwoFree(s)
    ensures CanRead(s1, y)
  {
    if Pinned(s, y) {
      var k :| 0 <= k < NBUF && s.bufs[k].dev == DEV && s.bufs[k].blockno == y && s.bufs[k].dirty;
      assert Holds(s1.bufs[k], DEV, y);
    } else {
      var i, j :| 0 <= i < j < NBUF && Eligible(s.bufs[i]) && Eligible(s.bufs[j]);
      assert Eligible(s1.bufs[if p == i then j else i]);
    }
  }

  /** On home blocks the cache shows `v`. */
  ghost predicate HomeViews(l: Layout, s: State, v: seq<Block>) {
    Shape(s) && |s.disk| == |v| == l.total && forall b :: 0 <= b < l.total && !InLog(l, b) ==> View(s, b) == v[b]
  }

  /** The cache and the disk once commit() has done `k` writes. */
  ghost predicate Committed(l: Layout, d: seq<Block>, v: seq<Block>, lh: seq<int>, k: nat, s: State) {
    && GoodList(l, lh) && |d| == |v| == l.total && k <= 2 * |lh| + 2
    && HomeViews(l, s, v) && CommitDisk(l, d, v, lh, k, s.disk)
  }

  /** Performing the next write takes commit() one step further. */
  lemma CommitPut(l: Layout, d: seq<Block>, v: seq<Block>, lh: seq<int>, k: nat, s: State, t: State)
    requires Committed(l, d, v, lh, k, s) && k < 2 * |lh| + 2
    requires var w := CommitWrite(l, s.disk, v, lh, k); Put(s, t, w.bno, w.data)
    ensures Committed(l, d, v, lh, k + 1, t)
    ensures CommitPrefix(l, d, v, lh, k + 1) == CommitPrefix(l, d, v, lh, k) + [CommitWrite(l, s.disk, v, lh, k)]
  {
    CommitStep(l, d, v, lh, k, s.disk);
  }

  /** Log slots and the header are not pinned, so bread returns what is on the disk. */
  lemma LogAreaView(l: Layout, s: State, lh: seq<int>, b: nat)
    requires Inv(s) && Idle(s) && |s.disk| == l.total && GoodList(l, lh) && InLog(l, b)
    requires forall c :: Pinned(s, c) ==> c in lh
    ensures View(s, b) == s.disk[b]
  {
    UnpinnedView(s, b);
  }

  /** The blocks still to be installed are pinned, or at least two buffers can be recycled. */
  ghost predicate Enough(s: State, lh: seq<int>, k: nat)
    requires Shape(s)
    ensures Enough(s, lh, k) ==> HasFree(s)
  {
    TwoFree(s) || (HasFree(s) && forall i :: k <= i < |lh| ==> Pinned(s, lh[i]))
  }

  /** The cache and the disk once `k` blocks have been installed. */
  ghost predicate Installed(l: Layout, d: seq<Block>, lh: seq<int>, k: nat, s: State) {
    && GoodList(l, lh) && |d| == l.total && k <= |lh|
    && Inv(s) && Idle(s) && RecoverDisk(l, d, lh, k, s.disk)
    && (forall c :: Pinned(s, c) ==> exists i :: k <= i < |lh| && lh[i] == c)
  }

  lemma InstallPut(l: Layout, d: seq<Block>, lh: seq<int>, k: nat, s: State, t: State)
    requires Installed(l, d, lh, k, s) && k < |lh|
    requires Put(s, t, lh[k], s.disk[l.start + 1 + k])
    ensures Installed(l, d, lh, k + 1, t)
    ensures RecoverPrefix(l, d, lh, k + 1) == RecoverPrefix(l, d, lh, k) + [Write(lh[k], s.disk[l.start + 1 + k])]
  {
    RecoverStep(l, d, lh, k, s.disk);
  }

  lemma EnoughAfterPut(s: State, t: State, lh: seq<int>, k: nat, v: Block)
    requires Inv(s) && Counting.Distinct(lh) && k < |lh| && lh[k] >= 0 && Put(s, t, lh[k], v) && Enough(s, lh, k)
    ensures Enough(t, lh, k + 1)
  {
    if TwoFree(s) {
      var i, j :| 0 <= i < j < NBUF && Eligible(s.bufs[i]) && Eligible(s.bufs[j]);
      assert Eligible(t.bufs[i]) && Eligible(t.bufs[j]);
    } else {
      var i :| 0 <= i < NBUF && Eligible(s.bufs[i]);
      assert Eligible(t.bufs[i]);
      assert forall j :: k + 1 <= j < |lh| ==> lh[j] != lh[k];
    }
  }

  /** One more log slot written: the pins are as before and a buffer that could be recycled still can. */
  lemma SlotWritten(l: Layout, d: seq<Block>, v: seq<Block>, lh: seq<int>, k: nat, s: State, t: State)
    requires Committed(l, d, v, lh, k, s) && k < |lh| && Put(s, t, l.start + 1 + k, View(s, lh[k]))
    requires forall c :: Pinned(s, c) <==> c in lh
    ensures Committed(l, d, v, lh, k + 1, t)
    ensures CommitPrefix(l, d, v, lh, k + 1) == CommitPrefix(l, d, v, lh, k) + [Write(l.start + 1 + k, View(s, lh[k]))]
    ensures Inv(t) && Idle(t) && |t.disk| == |s.disk| && (forall c :: Pinned(t, c) <==> c in lh)
    ensures (HasFree(s) ==> HasFree(t))
  {
    assert lh[k] in lh && Home(l, lh[k]) && l.start + 1 + k !in lh;
    hide CommitPrefix, CommitDisk, View, Pinned, HasFree, Inv;
    CommitPut(l, d, v, lh, k, s, t);
    if HasFree(s) {
      FreeAfterPut(s, t, l.start + 1 + k, View(s, lh[k]));
    }
  }

  lemma SlotBlocks(l: Layout, lh: seq<int>, k: nat)
    requires GoodList(l, lh) && k < |lh|
    ensures 0 <= lh[k] < l.total && l.start + 1 + k < l.total && lh[k] != l.start + 1 + k
  {
  }

  lemma NoWrites(l: Layout, d: seq<Block>, v: seq<Block>, lh: seq<int>, w: seq<Write>)
    requires Slots(l, lh) && |d| == |v| == l.total
    ensures w + CommitPrefix(l, d, v, lh, 0) == w
  {
  }

  lemma EmptyList(l: Layout)
    requires GoodLayout(l)
    ensures GoodList(l, [])
  {
  }

  lemma CommitStart(l: Layout, s: State, lh: seq<int>)
    requires GoodList(l, lh) && Inv(s) && |s.disk| == l.total
    ensures Committed(l, s.disk, Views(s), lh, 0, s) && HomeViews(l, s, Views(s))
  {
  }

  lemma InstallStart(l: Layout, s: State, lh: seq<int>)
    requires GoodList(l, lh) && Inv(s) && Idle(s) && |s.disk| == l.total
    requires forall c :: Pinned(s, c) ==> c in lh
    ensures Installed(l, s.disk, lh, 0, s)
    ensures HasFree(s) && (forall i :: 0 <= i < |lh| ==> Pinned(s, lh[i])) ==> Enough(s, lh, 0)
  {
  }

  lemma FreeAfterPut(s: State, t: State, b: nat, v: Block)
    requires Put(s, t, b, v) && HasFree(s)
    ensures HasFree(t)
  {
    var j :| 0 <= j < NBUF && Eligible(s.bufs[j]);
    assert Eligible(t.bufs[j]);
  }

  lemma TailWrites(l: Layout, d: seq<Block>, v: seq<Block>, w: seq<Write>, lh: seq<int>, dn: seq<Block>, j: nat)
    requires GoodList(l, lh) && |d| == |v| == l.total && j <= |lh| + 1
    requires CommitDisk(l, d, v, lh, |lh| + 1, dn)
    ensures (w + CommitPrefix(l, d, v, lh, |lh| + 1)) + RecoverPrefix(l, dn, lh, j)
         == w + CommitPrefix(l, d, v, lh, |lh| + 1 + j)
  {
    CommitEndsLikeRecovery(l, d, v, lh, j, dn);
    ConcatAssoc(w, CommitPrefix(l, d, v, lh, |lh| + 1), RecoverPrefix(l, dn, lh, j));
  }

  lemma ConcatAssoc(w: seq<Write>, p: seq<Write>, r: seq<Write>)
    ensures (w + p) + r == w + (p + r)
  {
  }

  /** Once nothing is pinned the cache shows the disk, so commit() has changed no home block. */
  lemma ViewsAfterCommit(l: Layout, s: State, lh: seq<int>, t: State)
    requires GoodList(l, lh) && Inv(s) && Idle(s) && Inv(t) && Idle(t) && |s.disk| == l.total
    requires forall c :: Pinned(s, c) ==> c in lh
    requires forall c :: !Pinned(t, c)
    requires CommitDisk(l, s.disk, Views(s), lh, 2 * |lh| + 2, t.disk)
    ensures HomeViews(l, t, Views(s))
  {
    forall b | 0 <= b < l.total && !InLog(l, b) ensures View(t, b) == Views(s)[b] {
      UnpinnedView(t, b);
      if b !in lh {
        UnpinnedView(s, b);
      }
    }
  }

  lemma ViewsAfterRecovery(l: Layout, d: seq<Block>, t: State)
    requires GoodDisk(l, d) && Inv(t) && Idle(t) && (forall c :: !Pinned(t, c))
    requires RecoverDisk(l, d, Head(l, d), |Head(l, d)| + 1, t.disk)
    ensures forall b :: 0 <= b < l.total && !InLog(l, b) ==> View(t, b) == LogicalAt(l, d, b)
  {
    forall b | 0 <= b < l.total && !InLog(l, b) ensures View(t, b) == LogicalAt(l, d, b) {
      UnpinnedView(t, b);
      RecoverDiskLogical(l, d, |Head(l, d)| + 1, b, t.disk);
    }
  }

  /** With no buffer in use, write_log finds one for its first block exactly when not all of them are pinned. */
  lemma BuffersForCommit(l: Layout, s: State, lh: seq<int>)
    requires Inv(s) && GoodList(l, lh) && forall c :: Pinned(s, c) <==> c in lh
    ensures AllReleased(s) ==> |lh| <= NBUF && (if |lh| < NBUF then HasFree(s) else !CanRead(s, l.start + 1))
  {
    if AllReleased(s) {
      FreeUnlessAllPinned(s, lh);
      if |lh| == NBUF {
        AllPinned(s, lh);
        forall i | 0 <= i < NBUF ensures !Holds(s.bufs[i], DEV, l.start + 1) {
          assert Holds(s.bufs[i], DEV, l.start + 1) ==> Pinned(s, l.start + 1);
        }
      }
    }
  }

  lemma FreeCanRead(s: State, b: nat)
    requires Shape(s) && HasFree(s)
    ensures CanRead(s, b)
  {
  }

  /** The log in memory and the cache are the system state `t` of `RedoLogRuns` while no commit runs. */
  ghost predicate Matches(s: State, lh: seq<int>, outstanding: int, t: Runs.Sys)
    requires Shape(s)
  {
    t.phase == Runs.Running && t.disk == s.disk && t.view == Views(s) && t.lh == lh && t.outstanding == outstanding
  }

  /** An update of a block, as `Log.Update` makes it, is the step log_write of the runs. */
  lemma UpdateMatches(l: Layout, s: State, lh: seq<int>, outstanding: int, t: Runs.Sys, op: nat, b: nat, data: Block,
                      u: State)
    requires Shape(s) && Shape(u) && Matches(s, lh, outstanding, t) && u.disk == s.disk
    requires Runs.Fits(l, t) && Runs.Enabled(l, t, Runs.LogWrite(op, b, data))
    requires PutView(s, u, b, data)
    ensures var r := Runs.Step(l, t, Runs.LogWrite(op, b, data));
      if |lh| < Capacity(l) && outstanding >= 1 then Matches(u, Absorb(lh, b), outstanding, r)
        else r.phase == Runs.Panicked
  {
    assert Views(u) == Views(s)[b := data];
  }

  class Log {
    const l: Layout
    const cache: Cache
    var n: nat
    var block: seq<int>
    var outstanding: int
    var committing: bool

    constructor (l: Layout, cache: Cache)
      ensures this.l == l && this.cache == cache && n == 0 && |block| == LOGSIZE
      ensures outstanding == 0 && !committing
    {
      this.l, this.cache := l, cache;
      n, block, outstanding, committing := 0, seq(LOGSIZE, _ => 0), 0, false;
    }

    ghost predicate Ready()
      reads this, cache
      ensures Ready() ==> Shape(cache.Abs()) && |block| == LOGSIZE && n <= LOGSIZE
    {
      && GoodLayout(l) && |block| == LOGSIZE && n <= LOGSIZE
      && cache.Valid() && Idle(cache.Abs()) && |cache.disk| == l.total
    }

    /** The pinned blocks are exactly the logged ones. */
    ghost predicate Valid()
      reads this, cache
      ensures Valid() ==> Ready() && GoodList(l, block[..n])
    {
      && Ready() && GoodList(l, block[..n])
      && forall c :: Pinned(cache.Abs(), c) <==> c in block[..n]
    }

    method ReadOne(b: nat) returns (r: Option<nat>)
      requires cache.Valid() && b < |cache.disk| && Available(cache.Abs(), DEV, b)
      modifies cache`bufs, cache`disk, cache`writes
      ensures cache.writes == old(cache.writes)
      ensures r.Some? <==> CanRead(old(cache.Abs()), b)
      ensures r.Some? ==> ReadPost(old(cache.Abs()), b, cache.Abs(), r.value)
    {
      ghost var s := cache.Abs();
      ReadSucceeds(s, b);
      r := cache.Bread(b);
      if r.Some? {
        ReadSpecPost(s, b);
      }
    }

    /** bread two different blocks. */
    method ReadTwo(x: nat, y: nat) returns (a: Option<nat>, b: Option<nat>)
      requires cache.Valid() && Idle(cache.Abs()) && x < |cache.disk| && y < |cache.disk| && x != y
      modifies cache`bufs, cache`disk, cache`writes
      ensures cache.writes == old(cache.writes)
      ensures !CanRead(old(cache.Abs()), x) ==> a.None?
      ensures a.Some? && b.Some? ==>
        && BothHeld(old(cache.Abs()), cache.Abs(), x, a.value, y, b.value)
        && BothHeld(old(cache.Abs()), cache.Abs(), y, b.value, x, a.value)
      ensures HasFree(old(cache.Abs())) && (Pinned(old(cache.Abs()), y) || TwoFree(old(cache.Abs()))) ==>
        a.Some? && b.Some?
    {
      ghost var s := cache.Abs();
      b := None;
      a := ReadOne(x);
      if a.Some? {
        ghost var s1 := cache.Abs();
        ReadLeavesAvailable(s, s1, x, a.value, y);
        if Pinned(s, y) || TwoFree(s) {
          SecondReadSucceeds(s, s1, x, a.value, y);
        }
        b := ReadOne(y);
        if b.Some? {
          ReadBoth(s, s1, cache.Abs(), x, a.value, y, b.value);
        }
      }
    }

    /** memmove, bwrite of the destination, brelse of both. */
    method CopyHeld(j: nat, i: nat)
      requires Shape(cache.Abs()) && Links(cache.next, cache.prev, cache.order)
      requires i < NBUF && j < NBUF && i != j && cache.bufs[i].refcnt > 0 && cache.bufs[j].refcnt > 0
      requires cache.bufs[j].locked && FinishCopy(cache.Abs(), j, i).Some?
      modifies cache
      ensures Links(cache.next, cache.prev, cache.order)
      ensures cache.Abs() == FinishCopy(old(cache.Abs()), j, i).value
      ensures cache.writes == old(cache.writes) + [Write(old(cache.bufs[i].blockno), old(cache.bufs[j].data))]
    {
      cache.Store(i, cache.bufs[j].data);
      var ok := cache.Bwrite(i);
      ok := cache.Brelse(j);
      ok := cache.Brelse(i);
    }

    /** One turn of the loops in write_log and install_trans. */
    method CopyBlock(src: nat, dst: nat, dstFirst: bool) returns (ok: bool)
      requires cache.Valid() && Idle(cache.Abs()) && src < |cache.disk| && dst < |cache.disk| && src != dst
      modifies cache
      ensures ok ==> cache.Valid() && Put(old(cache.Abs()), cache.Abs(), dst, View(old(cache.Abs()), src))
      ensures cache.writes == old(cache.writes) + if ok then [Write(dst, View(old(cache.Abs()), src))] else []
      ensures var second := if dstFirst then src else dst;
        HasFree(old(cache.Abs())) && (Pinned(old(cache.Abs()), second) || TwoFree(old(cache.Abs()))) ==> ok
      ensures dstFirst && !CanRead(old(cache.Abs()), dst) ==> !ok
    {
      ghost var s := cache.Abs();
      var i, j;
      if dstFirst {
        i, j := ReadTwo(dst, src);
      } else {
        j, i := ReadTwo(src, dst);
      }
      if i == None || j == None {
        return false;
      }
      CopyPost(s, cache.Abs(), src, j.value, dst, i.value);
      CopyHeld(j.value, i.value);
      ok := true;
    }

    /** Store new contents into a held buffer, bwrite, brelse. */
    method PutHeld(i: nat, data: Block)
      requires Shape(cache.Abs()) && Links(cache.next, cache.prev, cache.order)
      requires i < NBUF && cache.bufs[i].refcnt > 0 && FinishPut(cache.Abs(), i, data).Some?
      modifies cache
      ensures Links(cache.next, cache.prev, cache.order)
      ensures cache.Abs() == FinishPut(old(cache.Abs()), i, data).value
      ensures cache.writes == old(cache.writes) + [Write(old(cache.bufs[i].blockno), data)]
    {
      cache.Store(i, data);
      var ok := cache.Bwrite(i);
      ok := cache.Brelse(i);
    }

    /** The stores of write_head into the header's buffer. */
    method FillHead(was: Block) returns (hb: Block)
      requires |block| == LOGSIZE && n <= LOGSIZE
      ensures hb == EncodeHead(was, block[..n]) && HeadIs(was, hb, block[..n])
    {
      hb := was[0 := n];
      var i := 0;
      while i < n
        invariant 0 <= i <= n
        invariant hb == [n] + block[..i] + was[1 + i..]
      {
        hb := hb[1 + i := block[i]];
        i := i + 1;
      }
      HeadRoundTrip(was, block[..n]);
    }

    /** write_head. */
    method WriteHead() returns (ok: bool)
      requires Ready()
      modifies cache
      ensures var data := EncodeHead(View(old(cache.Abs()), l.start), block[..n]);
        && (ok ==> cache.Valid() && Put(old(cache.Abs()), cache.Abs(), l.start, data))
        && cache.writes == old(cache.writes) + if ok then [Write(l.start, data)] else []
      ensures ok <==> CanRead(old(cache.Abs()), l.start)
      ensures ok ==> HeadIs(View(old(cache.Abs()), l.start), cache.disk[l.start], block[..n])
    {
      hide HeadIs, EncodeHead;
      ghost var s := cache.Abs();
      var r := ReadOne(l.start);
      if r == None {
        return false;
      }
      var hb := FillHead(cache.bufs[r.value].data);
      PutPost(s, cache.Abs(), l.start, r.value, hb);
      PutHeld(r.value, hb);
      ok := true;
    }

    /** The loop of read_head. */
    method LoadList(hb: Block, count: nat)
      requires |block| == LOGSIZE && count <= LOGSIZE < BLOCK_WORDS
      modifies this`block
      ensures |block| == LOGSIZE && block[..count] == hb[1..1 + count]
    {
      var i := 0;
      while i < count
        invariant 0 <= i <= count && |block| == LOGSIZE && block[..i] == hb[1..1 + i]
      {
        ghost var done := block[..i];
        block := block[i := hb[1 + i]];
        assert block[..i + 1] == done + [hb[1 + i]] && hb[1..2 + i] == hb[1..1 + i] + [hb[1 + i]];
        i := i + 1;
      }
    }

    /** read_head; it needs a header that is well formed. */
    method ReadHead() returns (ok: bool)
      requires Ready() && GoodDisk(l, cache.disk) && (forall c :: !Pinned(cache.Abs(), c))
      modifies cache, this`n, this`block
      ensures cache.writes == old(cache.writes) && |block| == LOGSIZE
      ensures ok ==>
        && Ready() && cache.disk == old(cache.disk) && block[..n] == Head(l, cache.disk)
        && (forall c :: !Pinned(cache.Abs(), c))
        && (TwoFree(old(cache.Abs())) ==> TwoFree(cache.Abs()))
      ensures HasFree(old(cache.Abs())) ==> ok
    {
      ghost var s := cache.Abs();
      LogAreaView(l, s, [], l.start);
      var r := ReadOne(l.start);
      if r == None {
        return false;
      }
      var hb := cache.bufs[r.value].data;
      n := hb[0];
      LoadList(hb, n);
      ReadRelease(s, cache.Abs(), l.start, r.value);
      ok := cache.Brelse(r.value);
    }

    /** commit() has done `k` writes since the disk was `d`, the cache showed `v` and `w` was written. */
    ghost predicate Midway(d: seq<Block>, v: seq<Block>, w: seq<Write>, k: nat)
      reads this, cache
      ensures Midway(d, v, w, k) ==> Ready() && GoodList(l, block[..n]) && |d| == |v| == l.total && k <= 2 * n + 2
      ensures Midway(d, v, w, k) ==> cache.writes == w + CommitPrefix(l, d, v, block[..n], k)
    {
      && Ready() && Committed(l, d, v, block[..n], k, cache.Abs())
      && cache.writes == w + CommitPrefix(l, d, v, block[..n], k)
    }

    /** The loop body of write_log. */
    method WriteSlot(tail: nat, ghost d: seq<Block>, ghost v: seq<Block>, ghost w: seq<Write>) returns (ok: bool)
      requires Valid() && tail < n && Midway(d, v, w, tail)
      modifies cache
      ensures if ok then Valid() && Midway(d, v, w, tail + 1) else cache.writes == old(cache.writes)
      ensures HasFree(old(cache.Abs())) ==> ok && HasFree(cache.Abs())
      ensures !CanRead(old(cache.Abs()), l.start + 1 + tail) ==> !ok
    {
      hide CommitPrefix, Committed, HasFree, CanRead, GoodList, Put, Inv, Idle, View, Permutation;
      ghost var s, lh := cache.Abs(), block[..n];
      SlotBlocks(l, lh, tail);
      assert lh[tail] in lh && block[tail] == lh[tail];
      ok := CopyBlock(block[tail], l.start + 1 + tail, true);
      if ok {
        SlotWritten(l, d, v, lh, tail, s, cache.Abs());
      }
    }

    /** write_log: copy the logged blocks from the cache to the log. */
    method WriteLog(ghost d: seq<Block>, ghost v: seq<Block>, ghost w: seq<Write>) returns (ok: bool, ghost k: nat)
      requires Valid() && Midway(d, v, w, 0)
      modifies cache
      ensures k <= n && |d| == |v| == l.total && GoodList(l, block[..n])
      ensures cache.writes == w + CommitPrefix(l, d, v, block[..n], k)
      ensures ok ==> k == n && Valid() && Midway(d, v, w, n)
      ensures HasFree(old(cache.Abs())) ==> ok && HasFree(cache.Abs())
      ensures n > 0 && !CanRead(old(cache.Abs()), l.start + 1) ==> !ok
    {
      hide CommitPrefix, HasFree, CanRead, Midway, Valid, Ready;
      var tail := 0;
      ok := true;
      while ok && tail < n
        invariant 0 <= tail <= n && (tail == 0 ==> cache.Abs() == old(cache.Abs()) || !ok)
        invariant tail > 0 ==> CanRead(old(cache.Abs()), l.start + 1)
        invariant ok ==> Valid() && Midway(d, v, w, tail)
        invariant cache.writes == w + CommitPrefix(l, d, v, block[..n], tail)
        invariant HasFree(old(cache.Abs())) ==> ok && HasFree(cache.Abs())
        decreases n - tail, ok
      {
        ok := WriteSlot(tail, d, v, w);
        if ok {
          tail := tail + 1;
        }
      }
      k := tail;
    }

    /** `k` blocks have been installed since the disk was `d` and `w` was written. */
    ghost predicate Installing(d: seq<Block>, w: seq<Write>, k: nat)
      reads this, cache
      ensures Installing(d, w, k) ==> Ready() && GoodList(l, block[..n]) && |d| == l.total && k <= n
      ensures Installing(d, w, k) ==> cache.writes == w + RecoverPrefix(l, d, block[..n], k)
    {
      && Ready() && Installed(l, d, block[..n], k, cache.Abs())
      && cache.writes == w + RecoverPrefix(l, d, block[..n], k)
    }

    /** The loop body of install_trans. */
    method InstallSlot(tail: nat, ghost d: seq<Block>, ghost w: seq<Write>) returns (ok: bool)
      requires Installing(d, w, tail) && tail < n
      modifies cache
      ensures if ok then Installing(d, w, tail + 1) else cache.writes == old(cache.writes)
      ensures Enough(old(cache.Abs()), block[..n], tail) ==> ok && Enough(cache.Abs(), block[..n], tail + 1)
    {
      hide RecoverDisk;
      ghost var s, lh := cache.Abs(), block[..n];
      LogAreaView(l, s, lh, l.start + 1 + tail);
      assert Home(l, lh[tail]);
      ok := CopyBlock(l.start + 1 + tail, block[tail], false);
      if ok {
        InstallPut(l, d, lh, tail, s, cache.Abs());
        if Enough(s, lh, tail) {
          EnoughAfterPut(s, cache.Abs(), lh, tail, s.disk[l.start + 1 + tail]);
        }
      }
    }

    /** install_trans: copy the committed blocks from the log to their homes. */
    method InstallTrans(ghost d: seq<Block>, ghost w: seq<Write>) returns (ok: bool, ghost k: nat)
      requires Installing(d, w, 0)
      modifies cache
      ensures k <= n && GoodList(l, block[..n]) && |d| == l.total
      ensures cache.writes == w + RecoverPrefix(l, d, block[..n], k)
      ensures ok ==> k == n && Installing(d, w, n)
      ensures Enough(old(cache.Abs()), block[..n], 0) ==> ok && HasFree(cache.Abs())
    {
      hide RecoverPrefix, HasFree, TwoFree, Installing, Ready;
      var tail := 0;
      ok := true;
      while ok && tail < n
        invariant 0 <= tail <= n
        invariant ok ==> Installing(d, w, tail)
        invariant cache.writes == w + RecoverPrefix(l, d, block[..n], tail)
        invariant Enough(old(cache.Abs()), block[..n], 0) ==> ok && Enough(cache.Abs(), block[..n], tail)
        decreases n - tail, ok
      {
        ok := InstallSlot(tail, d, w);
        if ok {
          tail := tail + 1;
        }
      }
      k := tail;
    }

    /** The end of commit() and of recovery: blocks are installed and an empty header is written. */
    method InstallAndClear(ghost d: seq<Block>, ghost w: seq<Write>, ghost lh: seq<int>)
      returns (ok: bool, ghost k: nat)
      requires Installing(d, w, 0) && lh == block[..n]
      modifies cache, this`n
      ensures |block| == LOGSIZE && k <= |lh| + 1 && |d| == l.total
      ensures cache.writes == w + RecoverPrefix(l, d, lh, k)
      ensures ok ==>
        && k == |lh| + 1 && n == 0 && Ready()
        && RecoverDisk(l, d, lh, |lh| + 1, cache.disk) && forall c :: !Pinned(cache.Abs(), c)
      ensures Enough(old(cache.Abs()), lh, 0) ==> ok
    {
      ok, k := InstallTrans(d, w);
      if !ok {
        return;
      }
      ghost var s := cache.Abs();
      LogAreaView(l, s, lh, l.start);
      n := 0;
      ok := WriteHead();
      if ok {
        RecoverStep(l, d, lh, k, s.disk);
        k := k + 1;
      }
    }

    /** commit() up to and including the commit point: the log slots and then the header are written. */
    method LogAndHead(ghost d: seq<Block>, ghost v: seq<Block>, ghost w: seq<Write>) returns (ok: bool, ghost k: nat)
      requires Valid() && Midway(d, v, w, 0)
      modifies cache
      ensures k <= n + 1 && |d| == |v| == l.total && GoodList(l, block[..n])
      ensures cache.writes == w + CommitPrefix(l, d, v, block[..n], k)
      ensures ok ==>
        && k == n + 1 && Ready() && CommitDisk(l, d, v, block[..n], n + 1, cache.disk)
        && (forall c :: Pinned(cache.Abs(), c) <==> c in block[..n])
      ensures HasFree(old(cache.Abs())) ==> ok && HasFree(cache.Abs())
      ensures n > 0 && !CanRead(old(cache.Abs()), l.start + 1) ==> !ok
    {
      hide CommitPrefix, CommitDisk, HasFree, Inv;
      ok, k := WriteLog(d, v, w);
      if !ok {
        return;
      }
      ghost var s, lh := cache.Abs(), block[..n];
      LogAreaView(l, s, lh, l.start);
      ok := WriteHead();
      if ok {
        CommitPut(l, d, v, lh, n, s, cache.Abs());
        k := n + 1;
        if HasFree(s) {
          FreeAfterPut(s, cache.Abs(), l.start, EncodeHead(s.disk[l.start], lh));
        }
      }
    }

    /** commit() after the commit point; `s` and `w` are the cache and the writes it started with. */
    method InstallCommitted(ghost s: State, ghost w: seq<Write>, ghost lh: seq<int>) returns (ok: bool, ghost k: nat)
      requires Ready() && lh == block[..n] && GoodList(l, lh) && Inv(s) && Idle(s) && |s.disk| == l.total
      requires forall c :: Pinned(s, c) ==> c in lh
      requires CommitDisk(l, s.disk, Views(s), lh, |lh| + 1, cache.disk)
      requires cache.writes == w + CommitPrefix(l, s.disk, Views(s), lh, |lh| + 1)
      requires forall c :: Pinned(cache.Abs(), c) <==> c in lh
      modifies cache, this`n
      ensures |block| == LOGSIZE && k <= 2 * |lh| + 2 && cache.writes == w + CommitPrefix(l, s.disk, Views(s), lh, k)
      ensures ok ==>
        && k == 2 * |lh| + 2 && n == 0 && Ready() && (forall c :: !Pinned(cache.Abs(), c))
        && CommitDisk(l, s.disk, Views(s), lh, k, cache.disk) && HomeViews(l, cache.Abs(), Views(s))
      ensures HasFree(old(cache.Abs())) ==> ok
    {
      hide CommitPrefix, RecoverPrefix, CommitDisk, RecoverDisk, HomeViews, Idle;
      ghost var dn := cache.disk;
      InstallStart(l, cache.Abs(), lh);
      ok, k := InstallAndClear(dn, cache.writes, lh);
      TailWrites(l, s.disk, Views(s), w, lh, dn, k);
      if ok {
        CommitDiskTail(l, s.disk, Views(s), lh, k, dn, cache.disk);
        ViewsAfterCommit(l, s, lh, cache.Abs());
      }
      k := |lh| + 1 + k;
    }

    /** commit() of a log that is not empty. */
    method CommitLogged(ghost lh: seq<int>, ghost d: seq<Block>, ghost v: seq<Block>) returns (ok: bool, ghost k: nat)
      requires Valid() && n > 0 && lh == block[..n] && d == cache.disk && v == Views(cache.Abs())
      modifies cache, this`n
      ensures k <= 2 * |lh| + 2 && cache.writes == old(cache.writes) + CommitPrefix(l, d, v, lh, k)
      ensures ok ==> n == 0 && Valid() && HomeViews(l, cache.Abs(), v)
      ensures ok ==> k == 2 * |lh| + 2 && CommitDisk(l, d, v, lh, k, cache.disk)
      ensures HasFree(old(cache.Abs())) ==> ok
      ensures !CanRead(old(cache.Abs()), l.start + 1) ==> !ok
    {
      ghost var s, w := cache.Abs(), cache.writes;
      CommitStart(l, s, lh);
      NoWrites(l, d, v, lh, w);
      EmptyList(l);
      hide CommitPrefix, CommitDisk, HomeViews, Views, Idle, Committed, HasFree, CanRead, Permutation, GoodList,
           Unique, BufOk;
      ok, k := LogAndHead(d, v, w);
      if ok {
        ok, k := InstallCommitted(s, w, lh);
      }
    }

    /** commit(). Whatever its outcome, the writes it made are a prefix of the planned ones. If no buffer is in use
        it completes unless every buffer is pinned. */
    method Commit(ghost lh: seq<int>, ghost d: seq<Block>, ghost v: seq<Block>) returns (ok: bool, ghost k: nat)
      requires Valid() && lh == block[..n] && d == cache.disk && v == Views(cache.Abs())
      modifies cache, this`n
      ensures k <= 2 * |lh| + 2
      ensures cache.writes == old(cache.writes) + CommitPrefix(l, d, v, lh, k)
      ensures ok ==> n == 0 && Valid() && HomeViews(l, cache.Abs(), v)
      ensures ok && lh != [] ==> k == 2 * |lh| + 2 && CommitDisk(l, d, v, lh, k, cache.disk)
      ensures HasFree(old(cache.Abs())) ==> ok
      ensures AllReleased(old(cache.Abs())) ==> (ok <==> |lh| < NBUF)
    {
      BuffersForCommit(l, cache.Abs(), lh);
      CommitStart(l, cache.Abs(), lh);
      NoWrites(l, d, v, lh, cache.writes);
      hide CommitPrefix, CommitDisk, HomeViews, Views, Idle, Committed, HasFree, CanRead, AllReleased, Valid,
           Permutation;
      if n == 0 {
        return true, 0;
      }
      ok, k := CommitLogged(lh, d, v);
    }

    /** recover_from_log() once the header has been read. */
    method InstallRead(ghost d: seq<Block>, ghost w: seq<Write>, ghost lh: seq<int>) returns (ok: bool, ghost k: nat)
      requires Ready() && GoodDisk(l, d) && lh == Head(l, d) == block[..n] && cache.disk == d && cache.writes == w
      requires forall c :: !Pinned(cache.Abs(), c)
      modifies cache, this`n
      ensures k <= |lh| + 1 && cache.writes == w + RecoverPrefix(l, d, lh, k)
      ensures ok ==> k == |lh| + 1 && n == 0 && Valid() && RecoverDisk(l, d, lh, k, cache.disk)
      ensures TwoFree(old(cache.Abs())) ==> ok
    {
      assert w + RecoverPrefix(l, d, lh, 0) == w;
      EmptyList(l);
      hide RecoverPrefix, RecoverDisk, EncodeHead, DecodeHead;
      InstallStart(l, cache.Abs(), lh);
      ok, k := InstallAndClear(d, w, lh);
    }

    /** recover_from_log(), on a cache that pins nothing. */
    method RecoverFromLog() returns (ok: bool, ghost k: nat)
      requires Ready() && GoodDisk(l, cache.disk) && (forall c :: !Pinned(cache.Abs(), c))
      modifies cache, this`n, this`block
      ensures var d, lh := old(cache.disk), Head(l, old(cache.disk));
        && k <= |lh| + 1
        && cache.writes == old(cache.writes) + RecoverPrefix(l, d, lh, k)
        && (ok ==> k == |lh| + 1 && n == 0 && Valid() && RecoverDisk(l, d, lh, k, cache.disk))
      ensures ok ==> forall b :: 0 <= b < l.total && !InLog(l, b) ==>
        View(cache.Abs(), b) == LogicalAt(l, old(cache.disk), b)
      ensures TwoFree(old(cache.Abs())) ==> ok
    {
      ghost var d, w := cache.disk, cache.writes;
      ghost var lh := Head(l, d);
      assert w + RecoverPrefix(l, d, lh, 0) == w;
      assert TwoFree(cache.Abs()) ==> HasFree(cache.Abs());
      hide RecoverPrefix, RecoverDisk, LogicalAt, View, TwoFree, HasFree, EncodeHead, DecodeHead, Unique, Permutation;
      k := 0;
      ok := ReadHead();
      if ok {
        ok, k := InstallRead(d, w, lh);
        if ok {
          ViewsAfterRecovery(l, d, cache.Abs());
        }
      }
    }

    /** The test and the loop of begin_op: false is going to sleep on the log. */
    method BeginOp() returns (started: bool)
      modifies this`outstanding
      ensures started <==> !committing && n + (old(outstanding) + 1) * MAXOPBLOCKS <= LOGSIZE
      ensures outstanding == old(outstanding) + if started then 1 else 0
    {
      if committing {
        return false;
      } else if n + (outstanding + 1) * MAXOPBLOCKS > LOGSIZE {
        return false;
      }
      outstanding := outstanding + 1;
      started := true;
    }

    /** log_write of a buffer the caller has locked and modified; false is a panic. */
    method LogWrite(i: nat) returns (ok: bool)
      requires Shape(cache.Abs()) && i < NBUF && Home(l, cache.bufs[i].blockno)
      requires |block| == LOGSIZE && n <= LOGSIZE && GoodList(l, block[..n])
      modifies this`n, this`block, cache`bufs
      ensures ok <==> old(n) < Capacity(l) && outstanding >= 1
      ensures ok <==> old(n) < 30 && old(n) < l.size - 1 && outstanding >= 1
      ensures ok ==>
        && n <= |block|
        && block[..n] == (if old(cache.bufs[i].blockno) in old(block[..n]) then old(block[..n])
                          else old(block[..n]) + [old(cache.bufs[i].blockno)])
      ensures ok ==>
        && |block| == LOGSIZE && n <= LOGSIZE && GoodList(l, block[..n])
        && block[..n] == Absorb(old(block[..n]), old(cache.bufs[i].blockno))
        && cache.Abs() == SetBuf(old(cache.Abs()), i, old(cache.bufs[i]).(dirty := true))
      ensures !ok ==> n == old(n) && block == old(block) && cache.bufs == old(cache.bufs)
    {
      if n >= LOGSIZE || n >= l.size - 1 {
        return false;
      }
      if outstanding < 1 {
        return false;
      }
      var b, j := cache.bufs[i].blockno, 0;
      while j < n && block[j] != b
        invariant 0 <= j <= n
        invariant b !in block[..j]
      {
        j := j + 1;
      }
      ghost var lh := block[..n];
      block := block[j := b];
      if j == n {
        n := n + 1;
        assert block[..n] == lh + [b as int];
      } else {
        assert lh[j] == b;
        assert block[..n] == lh;
      }
      cache.bufs := cache.bufs[i := cache.bufs[i].(dirty := true)];
      ok := true;
    }

    /** How a system call updates block `b`: bread, a store into the buffer, log_write, brelse. The pinned blocks
        are again exactly the logged ones. False is a panic. */
    method Update(b: nat, data: Block) returns (ok: bool)
      requires Valid() && Home(l, b)
      modifies this`n, this`block, cache
      ensures ok <==> CanRead(old(cache.Abs()), b) && old(n) < Capacity(l) && outstanding >= 1
      ensures ok ==>
        && Valid() && block[..n] == Absorb(old(block[..n]), b)
        && cache.disk == old(cache.disk) && cache.writes == old(cache.writes)
        && PutView(old(cache.Abs()), cache.Abs(), b, data)
        && (AllReleased(old(cache.Abs())) ==> AllReleased(cache.Abs()))
    {
      ghost var s := cache.Abs();
      var r := ReadOne(b);
      if r == None {
        return false;
      }
      UpdatePost(s, cache.Abs(), b, r.value, data);
      ok := LogHeld(r.value, data);
    }

    /** Its part with the buffer held. */
    method LogHeld(i: nat, data: Block) returns (ok: bool)
      requires Shape(cache.Abs()) && Links(cache.next, cache.prev, cache.order)
      requires i < NBUF && Home(l, cache.bufs[i].blockno) && cache.bufs[i].locked && cache.bufs[i].refcnt > 0
      requires GoodLayout(l) && |block| == LOGSIZE && n <= LOGSIZE && GoodList(l, block[..n])
      modifies this`n, this`block, cache
      ensures ok <==> old(n) < Capacity(l) && outstanding >= 1
      ensures ok ==>
        && |block| == LOGSIZE && n <= LOGSIZE && GoodList(l, block[..n])
        && block[..n] == Absorb(old(block[..n]), old(cache.bufs[i].blockno))
        && Links(cache.next, cache.prev, cache.order) && cache.writes == old(cache.writes)
        && cache.Abs() == ReleaseSpec(Logged(old(cache.Abs()), i, data), i)
    {
      cache.Store(i, data);
      ok := LogWrite(i);
      if ok {
        ok := cache.Brelse(i);
      }
    }

    /** Updates of different blocks, one after the other, with no other call about: each finds a buffer until every
        buffer is pinned. */
    method UpdateAll(bs: seq<nat>, data: Block)
      requires Valid() && n == 0 && outstanding >= 1 && AllReleased(cache.Abs())
      requires Counting.Distinct(bs) && |bs| <= Capacity(l) && |bs| <= NBUF
      requires forall k :: 0 <= k < |bs| ==> Home(l, bs[k])
      modifies this`n, this`block, cache
      ensures Valid() && AllReleased(cache.Abs()) && block[..n] == bs
      ensures cache.disk == old(cache.disk) && cache.writes == old(cache.writes)
    {
      var k := 0;
      while k < |bs|
        invariant k <= |bs| && Valid() && AllReleased(cache.Abs()) && block[..n] == bs[..k]
        invariant cache.disk == old(cache.disk) && cache.writes == old(cache.writes)
      {
        BuffersForCommit(l, cache.Abs(), block[..n]);
        FreeCanRead(cache.Abs(), bs[k]);
        var ok := Update(bs[k], data);
        assert bs[k] !in bs[..k] && bs[..k + 1] == bs[..k] + [bs[k]];
        k := k + 1;
      }
    }

    /** The one case in which commit() cannot complete: as many blocks as there are buffers have been logged, which
        takes a log of NBUF data slots. */
    method FullLogStopsCommit(bs: seq<nat>, data: Block) returns (ok: bool)
      requires Valid() && n == 0 && outstanding >= 1 && AllReleased(cache.Abs())
      requires Counting.Distinct(bs) && |bs| == NBUF <= Capacity(l) && forall k :: 0 <= k < |bs| ==> Home(l, bs[k])
      modifies this`n, this`block, cache
      ensures !ok
    {
      ghost var j;
      UpdateAll(bs, data);
      ok, j := Commit(block[..n], cache.disk, Views(cache.Abs()));
    }

    /** end_op: the last outstanding call commits. False is a panic. */
    method EndOp() returns (ok: bool, ghost k: nat)
      requires Valid()
      modifies cache, this`n, this`outstanding, this`committing
      ensures outstanding == old(outstanding) - 1
      ensures old(committing) ==> !ok
      ensures !old(committing) && outstanding != 0 ==>
        ok && !committing && n == old(n) && cache.Abs() == old(cache.Abs()) && cache.writes == old(cache.writes)
      ensures !old(committing) && outstanding == 0 ==>
        && k <= 2 * old(n) + 2
        && cache.writes == old(cache.writes)
             + CommitPrefix(l, old(cache.disk), Views(old(cache.Abs())), old(block[..n]), k)
        && (HasFree(old(cache.Abs())) ==> ok) && committing == !ok
        && (ok ==> !committing && n == 0 && Valid() && HomeViews(l, cache.Abs(), Views(old(cache.Abs()))))
    {
      outstanding := outstanding - 1;
      k := 0;
      if committing {
        return false, 0;
      }
      ok := true;
      if outstanding == 0 {
        committing := true;
        ok, k := Commit(block[..n], cache.disk, Views(cache.Abs()));
        if ok {
          committing := false;
        }
      }
    }
  }
}
