/**
 * The write-ahead log of log.c as it meets the disk: the header block, the
 * writes of commit() and recover_from_log(), and what a crash between any two
 * of them leaves. `RedoLogRuns` runs system calls over this module.
 */
module RedoLog {
  import opened Disk
  import Counting

  const MAXOPBLOCKS: nat := 10
  const LOGSIZE: nat := 30

  /** Where the log lies: the header at `start`, then `size - 1` data slots. */
  datatype Layout = Layout(start: nat, size: nat, total: nat)

  predicate GoodLayout(l: Layout) {
    1 <= l.size && l.start + l.size <= l.total
  }

  predicate InLog(l: Layout, b: int) {
    l.start <= b < l.start + l.size
  }

  /** A block that system calls may log: on the disk and outside the log. */
  predicate Home(l: Layout, b: int) {
    0 <= b < l.total && !InLog(l, b)
  }

  predicate AllHome(l: Layout, lh: seq<int>) {
    forall i :: 0 <= i < |lh| ==> 0 <= lh[i] < l.total && !InLog(l, lh[i])
  }

  /** How many blocks log_write lets a transaction have. */
  function Capacity(l: Layout): nat
    requires GoodLayout(l)
  {
    if LOGSIZE <= l.size - 1 then LOGSIZE else l.size - 1
  }

  /** The block numbers of a transaction, as held in log.lh. */
  ghost predicate GoodList(l: Layout, lh: seq<int>) {
    && GoodLayout(l)
    && |lh| <= Capacity(l)
    && AllHome(l, lh)
    && Counting.Distinct(lh)
  }

  /** log_write's absorption: a block is listed once, where it first came. */
  function Absorb(lh: seq<int>, b: int): (r: seq<int>) {
    if b in lh then lh else lh + [b]
  }

  // ------------------------------------------------------------- the header

  /** write_head: n and the block numbers go in; the words behind them stay. */
  function EncodeHead(was: Block, lh: seq<int>): (h: Block)
    requires |lh| <= LOGSIZE
  {
    [|lh|] + lh + was[1 + |lh|..]
  }

  /** read_head. */
  function DecodeHead(h: Block): (lh: seq<int>)
    requires 0 <= h[0] <= LOGSIZE
  {
    h[1..1 + h[0]]
  }

  /** The header block in words: the number of blocks, the block numbers, and behind them what was there before. */
  ghost predicate HeadIs(was: Block, h: Block, lh: seq<int>) {
    && |lh| < BLOCK_WORDS && h[0] == |lh| && (forall i :: 0 <= i < |lh| ==> h[1 + i] == lh[i])
    && forall j :: |lh| < j < BLOCK_WORDS ==> h[j] == was[j]
  }

  lemma HeadRoundTrip(was: Block, lh: seq<int>)
    requires |lh| <= LOGSIZE
    ensures EncodeHead(was, lh)[0] == |lh| && HeadIs(was, EncodeHead(was, lh), lh)
    ensures DecodeHead(EncodeHead(was, lh)) == lh
  {
    var h := EncodeHead(was, lh);
    assert h[1..1 + h[0]] == lh;
  }

  ghost predicate GoodDisk(l: Layout, d: seq<Block>) {
    && GoodLayout(l) && |d| == l.total
    && 0 <= d[l.start][0] <= LOGSIZE
    && GoodList(l, DecodeHead(d[l.start]))
  }

  /** The transaction the disk holds. */
  function Head(l: Layout, d: seq<Block>): (lh: seq<int>)
    requires GoodLayout(l) && |d| == l.total && 0 <= d[l.start][0] <= LOGSIZE
  {
    DecodeHead(d[l.start])
  }

  function Slot(lh: seq<int>, b: int): (k: nat)
    requires b in lh
    ensures k < |lh| && lh[k] == b
  {
    if lh[0] == b then 0 else 1 + Slot(lh[1..], b)
  }

  /** What recovery makes of block `b`: its logged copy if the header names it. */
  ghost function LogicalAt(l: Layout, d: seq<Block>, b: int): Block
    requires GoodDisk(l, d) && Home(l, b)
  {
    var lh := Head(l, d);
    if b in lh then d[l.start + 1 + Slot(lh, b)] else d[b]
  }

  /** In words: the log slot of the word that names the block. */
  lemma LogicalIs(l: Layout, d: seq<Block>, b: int)
    requires GoodDisk(l, d) && Home(l, b)
    ensures forall m :: 1 <= m <= d[l.start][0] && d[l.start][m] == b ==> LogicalAt(l, d, b) == d[l.start + m]
    ensures (forall m :: 1 <= m <= d[l.start][0] ==> d[l.start][m] != b) ==> LogicalAt(l, d, b) == d[b]
  {
    var h, lh := d[l.start], Head(l, d);
    forall m | 1 <= m <= h[0] ensures h[m] == lh[m - 1] {
    }
    forall i | 0 <= i < |lh| && lh[i] == b ensures Slot(lh, b) == i {
      assert lh[Slot(lh, b)] == b;
    }
  }

  // --------------------------------------------------------------- the writes

  /** The k-th write of commit(), on the disk as it is then: the log blocks, the
      header, the home blocks, the cleared header. */
  function CommitWrite(l: Layout, d: seq<Block>, view: seq<Block>, lh: seq<int>, k: nat): (w: Write)
    requires GoodLayout(l) && |d| == |view| == l.total && |lh| <= Capacity(l) && k <= 2 * |lh| + 1
    requires AllHome(l, lh)
    ensures w.bno < l.total
  {
    var n := |lh|;
    if k < n then Write(l.start + 1 + k, view[lh[k]])
    else if k == n then Write(l.start, EncodeHead(d[l.start], lh))
    else if k <= 2 * n then Write(lh[k - n - 1], d[l.start + 1 + (k - n - 1)])
    else Write(l.start, EncodeHead(d[l.start], []))
  }

  /** The k-th write of recover_from_log(). */
  function RecoverWrite(l: Layout, d: seq<Block>, lh: seq<int>, k: nat): (w: Write)
    requires GoodLayout(l) && |d| == l.total && |lh| <= Capacity(l) && k <= |lh|
    requires AllHome(l, lh)
    ensures w.bno < l.total
  {
    if k < |lh| then Write(lh[k], d[l.start + 1 + k])
    else Write(l.start, EncodeHead(d[l.start], []))
  }

  // ------------------------------------------- what each write does to a reader

  /** Filling a log slot while the header is clear changes nothing. */
  lemma SlotWriteLogical(l: Layout, d: seq<Block>, k: nat, v: Block)
    requires GoodDisk(l, d) && Head(l, d) == [] && k < l.size - 1
    ensures var d' := d[l.start + 1 + k := v];
      && GoodDisk(l, d') && Head(l, d') == []
      && forall b :: Home(l, b) ==> LogicalAt(l, d', b) == LogicalAt(l, d, b)
  {
  }

  /** The header write is the commit point: every listed block changes at once. */
  lemma HeadWriteLogical(l: Layout, d: seq<Block>, lh: seq<int>, b: int)
    requires GoodDisk(l, d) && Head(l, d) == [] && GoodList(l, lh) && Home(l, b)
    ensures var d' := d[l.start := EncodeHead(d[l.start], lh)];
      && GoodDisk(l, d') && Head(l, d') == lh
      && LogicalAt(l, d', b) == if b in lh then d[l.start + 1 + Slot(lh, b)] else d[b]
  {
    HeadRoundTrip(d[l.start], lh);
  }

  /** Copying a logged block home, again or for the first time, changes nothing. */
  lemma InstallWriteLogical(l: Layout, d: seq<Block>, k: nat, b: int)
    requires GoodDisk(l, d) && k < |Head(l, d)| && Home(l, b)
    ensures var d' := d[Head(l, d)[k] := d[l.start + 1 + k]];
      && GoodDisk(l, d') && Head(l, d') == Head(l, d)
      && LogicalAt(l, d', b) == LogicalAt(l, d, b)
  {
    var lh := Head(l, d);
    assert lh[k] != l.start;
  }

  lemma InstallWriteLogicalAll(l: Layout, d: seq<Block>, k: nat)
    requires GoodDisk(l, d) && k < |Head(l, d)|
    ensures var d' := d[Head(l, d)[k] := d[l.start + 1 + k]];
      && GoodDisk(l, d') && Head(l, d') == Head(l, d)
      && forall b {:trigger LogicalAt(l, d', b)} :: Home(l, b) ==> LogicalAt(l, d', b) == LogicalAt(l, d, b)
  {
    InstallWriteLogical(l, d, k, Head(l, d)[k]);
    forall b | Home(l, b)
      ensures LogicalAt(l, d[Head(l, d)[k] := d[l.start + 1 + k]], b) == LogicalAt(l, d, b)
    {
      InstallWriteLogical(l, d, k, b);
    }
  }

  /** Clearing the header once every block is home changes nothing. */
  lemma EraseLogical(l: Layout, d: seq<Block>)
    requires GoodDisk(l, d)
    requires forall k :: 0 <= k < |Head(l, d)| ==> d[Head(l, d)[k]] == d[l.start + 1 + k]
    ensures var d' := d[l.start := EncodeHead(d[l.start], [])];
      && GoodDisk(l, d') && Head(l, d') == []
      && forall b {:trigger LogicalAt(l, d', b)} :: Home(l, b) ==> LogicalAt(l, d', b) == LogicalAt(l, d, b)
  {
    HeadRoundTrip(d[l.start], []);
  }

  // --------------------------------------------- the writes, one after the other

  predicate Slots(l: Layout, lh: seq<int>) {
    GoodLayout(l) && |lh| <= Capacity(l) && AllHome(l, lh)
  }

  /** The k-th write of commit(), told from the disk `d` and the cache contents `view` it started with. */
  function PlannedWrite(l: Layout, d: seq<Block>, view: seq<Block>, lh: seq<int>, k: nat): (w: Write)
    requires Slots(l, lh) && |d| == |view| == l.total && k <= 2 * |lh| + 1
    ensures w.bno < l.total
  {
    var n := |lh|;
    if k < n then Write(l.start + 1 + k, view[lh[k]])
    else if k == n then Write(l.start, EncodeHead(d[l.start], lh))
    else if k <= 2 * n then Write(lh[k - n - 1], view[lh[k - n - 1]])
    else Write(l.start, EncodeHead(EncodeHead(d[l.start], lh), []))
  }

  function CommitPrefix(l: Layout, d: seq<Block>, view: seq<Block>, lh: seq<int>, k: nat): (ws: seq<Write>)
    requires Slots(l, lh) && |d| == |view| == l.total && k <= 2 * |lh| + 2
    ensures |ws| == k && Fits(d, ws)
  {
    if k == 0 then [] else CommitPrefix(l, d, view, lh, k - 1) + [PlannedWrite(l, d, view, lh, k - 1)]
  }

  /** The header after `k` writes of commit(). */
  function CommitHead(was: Block, lh: seq<int>, k: nat): Block
    requires |lh| <= LOGSIZE
  {
    if k <= |lh| then was
    else if k <= 2 * |lh| + 1 then EncodeHead(was, lh)
    else EncodeHead(EncodeHead(was, lh), [])
  }

  /** Block `b` after `k` writes of commit(): the header, a filled slot, an installed block. */
  function CommitAt(l: Layout, d: seq<Block>, view: seq<Block>, lh: seq<int>, k: nat, b: int): Block
    requires Slots(l, lh) && |d| == |view| == l.total && 0 <= b < l.total
  {
    var n := |lh|;
    if b == l.start then CommitHead(d[b], lh, k)
    else if InLog(l, b) then
      var i := b - l.start - 1;
      if i < n && i < k then view[lh[i]] else d[b]
    else if b in lh && Slot(lh, b) < k - n - 1 then view[b]
    else d[b]
  }

  /** `r` is the disk after `k` writes of commit(). */
  ghost predicate CommitDisk(l: Layout, d: seq<Block>, view: seq<Block>, lh: seq<int>, k: nat, r: seq<Block>)
    requires Slots(l, lh) && |d| == |view| == l.total
  {
    |r| == l.total && forall b :: 0 <= b < l.total ==> r[b] == CommitAt(l, d, view, lh, k, b)
  }

  lemma SlotOf(lh: seq<int>, i: nat)
    requires Counting.Distinct(lh) && i < |lh|
    ensures lh[i] in lh && Slot(lh, lh[i]) == i
  {
  }

  lemma CommitStep(l: Layout, d: seq<Block>, view: seq<Block>, lh: seq<int>, k: nat, r: seq<Block>)
    requires GoodList(l, lh) && |d| == |view| == l.total && k < 2 * |lh| + 2 && CommitDisk(l, d, view, lh, k, r)
    ensures var w := CommitWrite(l, r, view, lh, k);
      w == PlannedWrite(l, d, view, lh, k) && CommitDisk(l, d, view, lh, k + 1, r[w.bno := w.data])
  {
    AsPlanned(l, d, view, lh, k, r);
    var w := PlannedWrite(l, d, view, lh, k);
    hide CommitAt, PlannedWrite, CommitWrite;
    forall b | 0 <= b < l.total
      ensures CommitAt(l, d, view, lh, k + 1, b) == if b == w.bno then w.data else CommitAt(l, d, view, lh, k, b)
    {
      CommitAtNext(l, d, view, lh, k, b);
    }
  }

  lemma AsPlanned(l: Layout, d: seq<Block>, view: seq<Block>, lh: seq<int>, k: nat, r: seq<Block>)
    requires GoodList(l, lh) && |d| == |view| == l.total && k < 2 * |lh| + 2 && CommitDisk(l, d, view, lh, k, r)
    ensures CommitWrite(l, r, view, lh, k) == PlannedWrite(l, d, view, lh, k)
  {
    var n := |lh|;
    if n < k <= 2 * n {
      assert r[l.start + 1 + (k - n - 1)] == view[lh[k - n - 1]];
    }
  }

  /** The k-th write changes one block of what commit() has made of the disk. */
  lemma CommitAtNext(l: Layout, d: seq<Block>, view: seq<Block>, lh: seq<int>, k: nat, b: int)
    requires GoodList(l, lh) && |d| == |view| == l.total && k < 2 * |lh| + 2 && 0 <= b < l.total
    ensures var w := PlannedWrite(l, d, view, lh, k);
      CommitAt(l, d, view, lh, k + 1, b) == if b == w.bno then w.data else CommitAt(l, d, view, lh, k, b)
  {
    hide EncodeHead;
    var n := |lh|;
    if n < k <= 2 * n {
      SlotOf(lh, k - n - 1);
    }
  }

  /** `CommitDisk` is what the writes make of the disk. */
  lemma {:induction false} CommitDiskIsApply(l: Layout, d: seq<Block>, view: seq<Block>, lh: seq<int>, k: nat)
    requires GoodList(l, lh) && |d| == |view| == l.total && k <= 2 * |lh| + 2
    ensures CommitDisk(l, d, view, lh, k, Apply(d, CommitPrefix(l, d, view, lh, k)))
  {
    if k > 0 {
      CommitDiskIsApply(l, d, view, lh, k - 1);
      var ws := CommitPrefix(l, d, view, lh, k - 1);
      CommitStep(l, d, view, lh, k - 1, Apply(d, ws));
      ApplySnoc(d, ws, PlannedWrite(l, d, view, lh, k - 1));
    }
  }

  /** What the header lists after `k` writes. */
  lemma CommitHeadLists(l: Layout, d: seq<Block>, view: seq<Block>, lh: seq<int>, k: nat, r: seq<Block>)
    requires GoodDisk(l, d) && Head(l, d) == [] && GoodList(l, lh) && |view| == l.total && k <= 2 * |lh| + 2
    requires CommitDisk(l, d, view, lh, k, r)
    ensures GoodDisk(l, r) && Head(l, r) == if |lh| < k <= 2 * |lh| + 1 then lh else []
  {
    HeadRoundTrip(d[l.start], lh);
    HeadRoundTrip(EncodeHead(d[l.start], lh), []);
  }

  lemma CommitDiskLogical(l: Layout, d: seq<Block>, view: seq<Block>, lh: seq<int>, k: nat, b: int, r: seq<Block>)
    requires GoodDisk(l, d) && Head(l, d) == [] && GoodList(l, lh) && |view| == l.total && k <= 2 * |lh| + 2
    requires Home(l, b) && CommitDisk(l, d, view, lh, k, r)
    ensures GoodDisk(l, r) && LogicalAt(l, r, b) == if k > |lh| && b in lh then view[b] else d[b]
  {
    CommitHeadLists(l, d, view, lh, k, r);
  }

  /** Every prefix of commit()'s writes recovers to all of the old contents or all of the
      new ones, and to the new ones exactly when the header has been written. */
  lemma CommitAtomicAtEveryWrite(l: Layout, d: seq<Block>, view: seq<Block>, lh: seq<int>, k: nat, b: int)
    requires GoodDisk(l, d) && Head(l, d) == [] && GoodList(l, lh) && |view| == l.total && k <= 2 * |lh| + 2
    requires Home(l, b)
    ensures var r := Apply(d, CommitPrefix(l, d, view, lh, k));
      && GoodDisk(l, r)
      && LogicalAt(l, r, b) == if k > |lh| && b in lh then view[b] else d[b]
  {
    CommitDiskIsApply(l, d, view, lh, k);
    CommitDiskLogical(l, d, view, lh, k, b, Apply(d, CommitPrefix(l, d, view, lh, k)));
  }

  lemma {:induction false} CommitWrites(l: Layout, d: seq<Block>, view: seq<Block>, lh: seq<int>, k: nat, j: nat)
    requires Slots(l, lh) && |d| == |view| == l.total && j < k <= 2 * |lh| + 2
    ensures CommitPrefix(l, d, view, lh, k)[j] == PlannedWrite(l, d, view, lh, j)
  {
    hide PlannedWrite;
    if j < k - 1 {
      CommitWrites(l, d, view, lh, k - 1, j);
    }
  }

  /** commit() in the order of its writes: block lh[k] goes to log slot k, behind the header; then comes the header
      with the list, then each block to its home, and then a header whose count is 0. */
  lemma CommitOrder(l: Layout, d: seq<Block>, view: seq<Block>, lh: seq<int>, k: nat, j: nat)
    requires Slots(l, lh) && |d| == |view| == l.total && j < k <= 2 * |lh| + 2
    ensures var w, n := CommitPrefix(l, d, view, lh, k)[j], |lh|;
      && (j < n ==> w == Write(l.start + 1 + j, view[lh[j]]))
      && (j == n ==> w.bno == l.start && HeadIs(d[l.start], w.data, lh))
      && (n < j <= 2 * n ==> w == Write(lh[j - n - 1], view[lh[j - n - 1]]))
      && (j == 2 * n + 1 ==> w.bno == l.start && w.data[0] == 0)
  {
    CommitWrites(l, d, view, lh, k, j);
    HeadRoundTrip(d[l.start], lh);
    HeadRoundTrip(EncodeHead(d[l.start], lh), []);
    hide EncodeHead, CommitPrefix, HeadIs;
  }

  // -------------------------------------------------- recovery write by write

  /** The k-th write of recovery, told from the disk it started with. */
  function PlannedRecovery(l: Layout, d: seq<Block>, lh: seq<int>, k: nat): (w: Write)
    requires Slots(l, lh) && |d| == l.total && k <= |lh|
    ensures w.bno < l.total
  {
    if k < |lh| then Write(lh[k], d[l.start + 1 + k]) else Write(l.start, EncodeHead(d[l.start], []))
  }

  function RecoverPrefix(l: Layout, d: seq<Block>, lh: seq<int>, k: nat): (ws: seq<Write>)
    requires Slots(l, lh) && |d| == l.total && k <= |lh| + 1
    ensures |ws| == k && Fits(d, ws)
  {
    if k == 0 then [] else RecoverPrefix(l, d, lh, k - 1) + [PlannedRecovery(l, d, lh, k - 1)]
  }

  lemma {:induction false} RecoverWrites(l: Layout, d: seq<Block>, lh: seq<int>, k: nat, j: nat)
    requires Slots(l, lh) && |d| == l.total && j < k <= |lh| + 1
    ensures RecoverPrefix(l, d, lh, k)[j] == PlannedRecovery(l, d, lh, j)
  {
    hide PlannedRecovery;
    if j < k - 1 {
      RecoverWrites(l, d, lh, k - 1, j);
    }
  }

  /** recover_from_log() in the order of its writes, told from the words of the header: what is in log slot j goes to
      the block that word 1 + j names, and in the end the count is 0. */
  lemma RecoverOrder(l: Layout, d: seq<Block>, k: nat, j: nat)
    requires GoodDisk(l, d) && j < k <= |Head(l, d)| + 1
    ensures |Head(l, d)| == d[l.start][0]
    ensures var w := RecoverPrefix(l, d, Head(l, d), k)[j];
      if j < d[l.start][0] then w == Write(d[l.start][1 + j], d[l.start + 1 + j])
      else w.bno == l.start && w.data[0] == 0
  {
    RecoverWrites(l, d, Head(l, d), k, j);
  }

  /** Block `b` after `k` writes of recovery. */
  function RecoverAt(l: Layout, d: seq<Block>, lh: seq<int>, k: nat, b: int): Block
    requires Slots(l, lh) && |d| == l.total && 0 <= b < l.total
  {
    if b == l.start then (if k <= |lh| then d[b] else EncodeHead(d[b], []))
    else if b in lh && Slot(lh, b) < k then d[l.start + 1 + Slot(lh, b)]
    else d[b]
  }

  /** `r` is the disk after `k` writes of recovery on disk `d`, whose header lists `lh`. */
  ghost predicate RecoverDisk(l: Layout, d: seq<Block>, lh: seq<int>, k: nat, r: seq<Block>)
    requires Slots(l, lh) && |d| == l.total
  {
    |r| == l.total && forall b :: 0 <= b < l.total ==> r[b] == RecoverAt(l, d, lh, k, b)
  }

  lemma RecoverStep(l: Layout, d: seq<Block>, lh: seq<int>, k: nat, r: seq<Block>)
    requires GoodList(l, lh) && |d| == l.total && k <= |lh| && RecoverDisk(l, d, lh, k, r)
    ensures var w := RecoverWrite(l, r, lh, k);
      w == PlannedRecovery(l, d, lh, k) && RecoverDisk(l, d, lh, k + 1, r[w.bno := w.data])
  {
    if k < |lh| {
      SlotOf(lh, k);
      assert r[l.start + 1 + k] == d[l.start + 1 + k];
    }
  }

  lemma {:induction false} RecoverDiskIsApply(l: Layout, d: seq<Block>, lh: seq<int>, k: nat)
    requires GoodList(l, lh) && |d| == l.total && k <= |lh| + 1
    ensures RecoverDisk(l, d, lh, k, Apply(d, RecoverPrefix(l, d, lh, k)))
  {
    if k > 0 {
      RecoverDiskIsApply(l, d, lh, k - 1);
      var ws := RecoverPrefix(l, d, lh, k - 1);
      RecoverStep(l, d, lh, k - 1, Apply(d, ws));
      ApplySnoc(d, ws, PlannedRecovery(l, d, lh, k - 1));
    }
  }

  lemma RecoverDiskLogical(l: Layout, d: seq<Block>, k: nat, b: int, r: seq<Block>)
    requires GoodDisk(l, d) && k <= |Head(l, d)| + 1 && Home(l, b) && RecoverDisk(l, d, Head(l, d), k, r)
    ensures GoodDisk(l, r) && LogicalAt(l, r, b) == LogicalAt(l, d, b)
    ensures k == |Head(l, d)| + 1 ==> Head(l, r) == [] && r[b] == LogicalAt(l, d, b)
  {
    HeadRoundTrip(d[l.start], []);
  }

  /** Every prefix of recovery's writes, and so recovery itself any number of times over,
      keeps what the disk recovers to; all of them leave it in place with the log clear. */
  lemma RecoveryKeepsContents(l: Layout, d: seq<Block>, k: nat, b: int)
    requires GoodDisk(l, d) && k <= |Head(l, d)| + 1 && Home(l, b)
    ensures var r := Apply(d, RecoverPrefix(l, d, Head(l, d), k));
      && GoodDisk(l, r) && LogicalAt(l, r, b) == LogicalAt(l, d, b)
      && (k == |Head(l, d)| + 1 ==> Head(l, r) == [] && r[b] == LogicalAt(l, d, b))
  {
    RecoverDiskIsApply(l, d, Head(l, d), k);
    RecoverDiskLogical(l, d, k, b, Apply(d, RecoverPrefix(l, d, Head(l, d), k)));
  }

  /** After its header write, commit() does exactly what recovery would do. */
  lemma CommitDiskTail(l: Layout, d: seq<Block>, view: seq<Block>, lh: seq<int>, j: nat, dn: seq<Block>, r: seq<Block>)
    requires GoodList(l, lh) && |d| == |view| == l.total && j <= |lh| + 1
    requires CommitDisk(l, d, view, lh, |lh| + 1, dn) && RecoverDisk(l, dn, lh, j, r)
    ensures CommitDisk(l, d, view, lh, |lh| + 1 + j, r)
  {
  }

  lemma PlannedAlike(l: Layout, d: seq<Block>, view: seq<Block>, lh: seq<int>, j: nat, dn: seq<Block>)
    requires GoodList(l, lh) && |d| == |view| == l.total && j <= |lh|
    requires CommitDisk(l, d, view, lh, |lh| + 1, dn)
    ensures PlannedWrite(l, d, view, lh, |lh| + 1 + j) == PlannedRecovery(l, dn, lh, j)
  {
    hide EncodeHead;
    assert j < |lh| ==> dn[l.start + 1 + j] == CommitAt(l, d, view, lh, |lh| + 1, l.start + 1 + j);
  }

  lemma AppendAssoc(p: seq<Write>, q: seq<Write>, r: seq<Write>)
    ensures (p + q) + r == p + (q + r)
  {
  }

  lemma {:induction false} CommitEndsLikeRecovery(l: Layout, d: seq<Block>, view: seq<Block>, lh: seq<int>, j: nat,
                                                  dn: seq<Block>)
    requires GoodList(l, lh) && |d| == |view| == l.total && j <= |lh| + 1
    requires CommitDisk(l, d, view, lh, |lh| + 1, dn)
    ensures CommitPrefix(l, d, view, lh, |lh| + 1 + j)
         == CommitPrefix(l, d, view, lh, |lh| + 1) + RecoverPrefix(l, dn, lh, j)
  {
    var n := |lh|;
    var p := CommitPrefix(l, d, view, lh, n + 1);
    if j == 0 {
      assert p + [] == p;
    } else {
      CommitEndsLikeRecovery(l, d, view, lh, j - 1, dn);
      PlannedAlike(l, d, view, lh, j - 1, dn);
      hide PlannedWrite, PlannedRecovery, CommitDisk;
      AppendAssoc(p, RecoverPrefix(l, dn, lh, j - 1), [PlannedRecovery(l, dn, lh, j - 1)]);
    }
  }
}
