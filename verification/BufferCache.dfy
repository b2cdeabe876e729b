/**
 * The buffer cache of bio.c over the in-memory disk of memide.c.
 *
 * A `State` is the cache without its pointers: the NBUF buffers, the order in
 * which the list through `next` visits them, and the disk. `BufferCacheCode`
 * keeps the pointers and is proved to refine the functions on `State`.
 */
module BufferCache {
  import opened Common
  import opened Disk
  import Counting

  const NBUF: nat := 30
  const DEV: nat := 1

  datatype Buf = Buf(dev: nat, blockno: nat, refcnt: nat, valid: bool, dirty: bool, locked: bool, data: Block)

  datatype State = State(bufs: seq<Buf>, order: seq<nat>, disk: seq<Block>)

  // ---------------------------------------------------------------- the list

  /** Every buffer occurs exactly once: see `Everywhere`. */
  ghost predicate Permutation(order: seq<nat>) {
    && |order| == NBUF
    && Counting.Distinct(order)
    && (forall k :: 0 <= k < |order| ==> order[k] < NBUF)
  }

  lemma Everywhere(order: seq<nat>, i: nat)
    requires Permutation(order) && i < NBUF
    ensures i in order
  {
    Counting.Everywhere(order, NBUF, i);
  }

  function Position(order: seq<nat>, i: nat): (p: nat)
    requires i in order
    ensures p < |order| && order[p] == i
  {
    if order[0] == i then 0 else 1 + Position(order[1..], i)
  }

  /** What brelse does to the list: the released buffer goes to the front. */
  function MoveToFront(order: seq<nat>, i: nat): (r: seq<nat>)
    requires i in order
  {
    [i] + Without(order, Position(order, i))
  }

  lemma MoveToFrontPermutes(order: seq<nat>, i: nat)
    requires Permutation(order) && i in order
    ensures Permutation(MoveToFront(order, i))
  {
  }

  // ---------------------------------------------------------- atomic actions

  predicate Holds(b: Buf, dev: nat, blockno: nat) {
    b.dev == dev && b.blockno == blockno
  }

  predicate Eligible(b: Buf) {
    b.refcnt == 0 && !b.dirty
  }

  ghost predicate Shape(s: State) {
    |s.bufs| == NBUF && Permutation(s.order)
  }

  /** First position, walking `next`, at which the block is cached; NBUF if nowhere. */
  function FirstHit(s: State, dev: nat, blockno: nat, from: nat): (p: nat)
    requires Shape(s) && from <= NBUF
    ensures from <= p <= NBUF
    ensures p < NBUF ==> Holds(s.bufs[s.order[p]], dev, blockno)
    ensures forall k :: from <= k < p ==> !Holds(s.bufs[s.order[k]], dev, blockno)
    decreases NBUF - from
  {
    if from == NBUF || Holds(s.bufs[s.order[from]], dev, blockno) then from
    else FirstHit(s, dev, blockno, from + 1)
  }

  lemma FirstHitNext(s: State, dev: nat, blockno: nat, k: nat)
    requires Shape(s) && k <= NBUF
    ensures FirstHit(s, dev, blockno, k)
         == if k == NBUF || Holds(s.bufs[s.order[k]], dev, blockno) then k else FirstHit(s, dev, blockno, k + 1)
  {
  }

  /** One more than the last position below `upto` holding an eligible buffer; 0 if there is none. */
  function LastFree(s: State, upto: nat): (p: nat)
    requires Shape(s) && upto <= NBUF
    ensures p <= upto
    ensures p > 0 ==> Eligible(s.bufs[s.order[p - 1]])
    ensures forall k :: p <= k < upto ==> !Eligible(s.bufs[s.order[k]])
  {
    if upto == 0 || Eligible(s.bufs[s.order[upto - 1]]) then upto
    else LastFree(s, upto - 1)
  }

  function SetBuf(s: State, i: nat, b: Buf): (r: State)
    requires Shape(s) && i < NBUF
    ensures Shape(r)
  {
    s.(bufs := s.bufs[i := b])
  }

  function Recycled(s: State, i: nat, dev: nat, blockno: nat): (r: State)
    requires Shape(s) && i < NBUF
    ensures Shape(r)
  {
    SetBuf(s, i, s.bufs[i].(dev := dev, blockno := blockno, valid := false, dirty := false, refcnt := 1))
  }

  function Referenced(s: State, i: nat): (r: State)
    requires Shape(s) && i < NBUF
    ensures Shape(r)
  {
    SetBuf(s, i, s.bufs[i].(refcnt := s.bufs[i].refcnt + 1))
  }

  /** bget up to the release of bcache.lock: find or recycle, and count the reference.
      None is the panic "bget: no buffers". */
  function Get(s: State, dev: nat, blockno: nat): (r: Option<(State, nat)>)
    requires Shape(s)
    ensures r.Some? ==> Shape(r.value.0) && r.value.1 < NBUF && Holds(r.value.0.bufs[r.value.1], dev, blockno)
  {
    var hit := FirstHit(s, dev, blockno, 0);
    if hit < NBUF then
      var i := s.order[hit];
      Some((Referenced(s, i), i))
    else
      var free := LastFree(s, NBUF);
      if free == 0 then None
      else
        var i := s.order[free - 1];
        Some((Recycled(s, i, dev, blockno), i))
  }

  /** iderw: write a dirty buffer out, or read an invalid one in; None is a panic. */
  function Transfer(s: State, i: nat): (r: Option<State>)
    requires Shape(s) && i < NBUF
    ensures r.Some? ==> Shape(r.value)
  {
    var b := s.bufs[i];
    if !b.locked || (b.valid && !b.dirty) || b.dev != DEV || b.blockno >= |s.disk| then None
    else if b.dirty then
      Some(SetBuf(s, i, b.(dirty := false, valid := true)).(disk := s.disk[b.blockno := b.data]))
    else
      Some(SetBuf(s, i, b.(data := s.disk[b.blockno], valid := true)))
  }

  /** The part of brelse under bcache.lock: drop a reference, and move the buffer to
      the front of the list when it was the last one. */
  function Drop(s: State, i: nat): (r: State)
    requires Shape(s) && i < NBUF && s.bufs[i].refcnt > 0
    ensures Shape(r)
  {
    var r := SetBuf(s, i, s.bufs[i].(refcnt := s.bufs[i].refcnt - 1));
    if s.bufs[i].refcnt == 1 then
      Everywhere(s.order, i);
      MoveToFrontPermutes(s.order, i);
      r.(order := MoveToFront(s.order, i))
    else r
  }

  // -------------------------------------------------------------------- runs

  /** The steps of processes using the cache, each atomic. */
  datatype Op =
    | GetOp(dev: nat, blockno: nat)      // bget under bcache.lock
    | LockOp(i: nat)                     // acquiresleep
    | LoadOp(i: nat)                     // bread's iderw of an invalid buffer
    | ModifyOp(i: nat, data: Block)      // the holder stores into b->data
    | PinOp(i: nat)                      // log_write sets B_DIRTY
    | WriteOp(i: nat)                    // bwrite
    | UnlockOp(i: nat)                   // releasesleep in brelse
    | DropOp(i: nat)                     // brelse under bcache.lock

  /** What the cache's interface asks of a process. A sleep-lock is taken when it is
      free; b->data is used only under the lock and once it is valid; changed data is
      recorded, by log_write or bwrite, before the lock goes. */
  ghost predicate Legal(s: State, op: Op)
    requires Shape(s)
  {
    match op
    case GetOp(dev, blockno) => true
    case LockOp(i) => i < NBUF && s.bufs[i].refcnt > 0 && !s.bufs[i].locked
    case LoadOp(i) => i < NBUF && s.bufs[i].locked && !s.bufs[i].valid
    case ModifyOp(i, data) => i < NBUF && s.bufs[i].locked && s.bufs[i].valid
    case PinOp(i) => i < NBUF && s.bufs[i].locked && s.bufs[i].valid
    case WriteOp(i) => i < NBUF && s.bufs[i].locked && s.bufs[i].valid
    case UnlockOp(i) =>
      && i < NBUF && s.bufs[i].locked && s.bufs[i].valid
      && (s.bufs[i].dirty || (s.bufs[i].blockno < |s.disk| && s.bufs[i].data == s.disk[s.bufs[i].blockno]))
    case DropOp(i) => i < NBUF && s.bufs[i].refcnt > if s.bufs[i].locked then 1 else 0
  }

  /** One step; None is a panic. */
  function Step(s: State, op: Op): (r: Option<State>)
    requires Shape(s)
    ensures r.Some? ==> Shape(r.value)
  {
    match op
    case GetOp(dev, blockno) =>
      (match Get(s, dev, blockno) case None => None case Some((s', _)) => Some(s'))
    case LoadOp(i) => if i < NBUF then Transfer(s, i) else None
    case WriteOp(i) => if i < NBUF then Transfer(SetBuf(s, i, s.bufs[i].(dirty := true)), i) else None
    case LockOp(i) => if i < NBUF then Some(SetBuf(s, i, s.bufs[i].(locked := true))) else None
    case UnlockOp(i) => if i < NBUF then Some(SetBuf(s, i, s.bufs[i].(locked := false))) else None
    case ModifyOp(i, data) => if i < NBUF then Some(SetBuf(s, i, s.bufs[i].(data := data))) else None
    case PinOp(i) => if i < NBUF then Some(SetBuf(s, i, s.bufs[i].(dirty := true))) else None
    case DropOp(i) => if i < NBUF && s.bufs[i].refcnt > 0 then Some(Drop(s, i)) else None
  }

  // -------------------------------------------------------------- invariant

  /** At most one buffer per block of a real device. */
  ghost predicate Unique(s: State)
    requires Shape(s)
  {
    forall i, j :: 0 <= i < j < NBUF && s.bufs[i].dev >= 1 && s.bufs[i].dev == s.bufs[j].dev
      ==> s.bufs[i].blockno != s.bufs[j].blockno
  }

  ghost predicate BufOk(b: Buf, disk: seq<Block>) {
    && (b.locked ==> b.refcnt > 0)
    && (b.dirty ==> b.valid)
    && (b.valid ==> b.dev == DEV && b.blockno < |disk|)
    && (b.valid && !b.dirty && !b.locked ==> b.data == disk[b.blockno])
  }

  ghost predicate Inv(s: State) {
    && Shape(s)
    && Unique(s)
    && forall i :: 0 <= i < NBUF ==> BufOk(s.bufs[i], s.disk)
  }

  ghost predicate CachedAt(s: State, b: nat, i: int)
    requires Shape(s)
  {
    0 <= i < NBUF && Holds(s.bufs[i], DEV, b) && s.bufs[i].valid
  }

  /** The contents of block `b` as the cache's users see it. */
  ghost function View(s: State, b: nat): (v: Block)
    requires Shape(s) && b < |s.disk|
  {
    if exists i :: CachedAt(s, b, i) then var i :| CachedAt(s, b, i); s.bufs[i].data else s.disk[b]
  }

  lemma ViewCached(s: State, b: nat, i: nat)
    requires Inv(s) && b < |s.disk| && i < NBUF && Holds(s.bufs[i], DEV, b)
    ensures View(s, b) == if s.bufs[i].valid then s.bufs[i].data else s.disk[b]
  {
    if s.bufs[i].valid {
      assert CachedAt(s, b, i);
    }
  }

  lemma ViewUncached(s: State, b: nat)
    requires Inv(s) && b < |s.disk|
    requires forall i :: 0 <= i < NBUF ==> !Holds(s.bufs[i], DEV, b)
    ensures View(s, b) == s.disk[b]
  {
  }

  lemma MissEverywhere(s: State, dev: nat, blockno: nat)
    requires Shape(s) && FirstHit(s, dev, blockno, 0) == NBUF
    ensures forall j :: 0 <= j < NBUF ==> !Holds(s.bufs[j], dev, blockno)
  {
    forall j | 0 <= j < NBUF ensures !Holds(s.bufs[j], dev, blockno) {
      Everywhere(s.order, j);
      assert s.order[Position(s.order, j)] == j;
    }
  }

  lemma RecycleKeepsInv(s: State, i: nat, dev: nat, blockno: nat)
    requires Inv(s) && i < NBUF && Eligible(s.bufs[i])
    requires forall j :: 0 <= j < NBUF ==> !Holds(s.bufs[j], dev, blockno)
    ensures Inv(Recycled(s, i, dev, blockno))
  {
  }

  lemma GetKeepsInv(s: State, dev: nat, blockno: nat)
    requires Inv(s) && Get(s, dev, blockno).Some?
    ensures Inv(Get(s, dev, blockno).value.0)
  {
    if FirstHit(s, dev, blockno, 0) == NBUF {
      MissEverywhere(s, dev, blockno);
      RecycleKeepsInv(s, s.order[LastFree(s, NBUF) - 1], dev, blockno);
    } else {
      assert Inv(Referenced(s, s.order[FirstHit(s, dev, blockno, 0)]));
    }
  }

  /** Changing one buffer in place, and perhaps its block on disk or its place in the list. */
  lemma InPlaceKeepsInv(s: State, t: State, i: nat)
    requires Inv(s) && Shape(t) && i < NBUF
    requires forall k :: 0 <= k < NBUF && k != i ==> t.bufs[k] == s.bufs[k]
    requires t.bufs[i].dev == s.bufs[i].dev && t.bufs[i].blockno == s.bufs[i].blockno
    requires BufOk(t.bufs[i], t.disk)
    requires t.disk == s.disk || (s.bufs[i].valid && t.disk == s.disk[s.bufs[i].blockno := s.bufs[i].data])
    ensures Inv(t)
  {
    forall k | 0 <= k < NBUF ensures BufOk(t.bufs[k], t.disk) {
      if k != i {
        assert BufOk(s.bufs[k], s.disk);
        assert s.bufs[i].valid && s.bufs[k].valid ==> s.bufs[k].blockno != s.bufs[i].blockno;
      }
    }
  }

  lemma StepKeepsInv(s: State, op: Op)
    requires Inv(s) && Legal(s, op) && Step(s, op).Some?
    ensures Inv(Step(s, op).value)
  {
    if op.GetOp? {
      GetKeepsInv(s, op.dev, op.blockno);
    } else {
      InPlaceKeepsInv(s, Step(s, op).value, op.i);
    }
  }

  /** Recycling buffer `i` for a block nobody caches: its old contents were on the disk. */
  lemma RecycleView(s: State, i: nat, dev: nat, blockno: nat, b: nat)
    requires Inv(s) && i < NBUF && b < |s.disk| && Eligible(s.bufs[i])
    requires forall j :: 0 <= j < NBUF ==> !Holds(s.bufs[j], dev, blockno)
    ensures View(Recycled(s, i, dev, blockno), b) == View(s, b)
  {
    RecycleKeepsInv(s, i, dev, blockno);
    var t := Recycled(s, i, dev, blockno);
    if dev == DEV && b == blockno {
      ViewUncached(s, b);
      ViewCached(t, b, i);
    } else if j :| 0 <= j < NBUF && Holds(s.bufs[j], DEV, b) {
      ViewCached(s, b, j);
      if j == i { ViewUncached(t, b); } else { ViewCached(t, b, j); }
    } else {
      ViewUncached(s, b);
      ViewUncached(t, b);
    }
  }

  /** Counting a reference changes no contents. */
  lemma RefcntView(s: State, i: nat, b: nat)
    requires Inv(s) && i < NBUF && b < |s.disk|
    ensures View(Referenced(s, i), b) == View(s, b)
  {
    var t := Referenced(s, i);
    if j :| 0 <= j < NBUF && Holds(s.bufs[j], DEV, b) {
      ViewCached(s, b, j);
      ViewCached(t, b, j);
    } else {
      ViewUncached(s, b);
      ViewUncached(t, b);
    }
  }

  lemma GetView(s: State, dev: nat, blockno: nat, b: nat)
    requires Inv(s) && Get(s, dev, blockno).Some? && b < |s.disk|
    ensures View(Get(s, dev, blockno).value.0, b) == View(s, b)
  {
    if FirstHit(s, dev, blockno, 0) == NBUF {
      MissEverywhere(s, dev, blockno);
      RecycleView(s, s.order[LastFree(s, NBUF) - 1], dev, blockno, b);
    } else {
      RefcntView(s, s.order[FirstHit(s, dev, blockno, 0)], b);
    }
  }

  /** What a step other than Get does to the buffer of block `b` and to the disk block itself. */
  lemma StepLocal(s: State, op: Op, i: nat)
    requires Inv(s) && Legal(s, op) && Step(s, op).Some? && !op.GetOp? && i < NBUF
    ensures var t := Step(s, op).value;
      && |t.disk| == |s.disk|
      && t.bufs[i].dev == s.bufs[i].dev && t.bufs[i].blockno == s.bufs[i].blockno
      && (s.bufs[i].valid ==> t.bufs[i].valid)
      && (s.bufs[i].valid ==> t.bufs[i].data == if op.ModifyOp? && op.i == i then op.data else s.bufs[i].data)
      && (!s.bufs[i].valid && s.bufs[i].dev == DEV && s.bufs[i].blockno < |s.disk| ==>
           (if t.bufs[i].valid then t.bufs[i].data else t.disk[s.bufs[i].blockno]) == s.disk[s.bufs[i].blockno])
  {
  }

  lemma StepDisk(s: State, op: Op, b: nat)
    requires Inv(s) && Legal(s, op) && Step(s, op).Some? && !op.GetOp? && b < |s.disk|
    requires forall i :: 0 <= i < NBUF ==> !Holds(s.bufs[i], DEV, b)
    ensures |Step(s, op).value.disk| == |s.disk| && Step(s, op).value.disk[b] == s.disk[b]
  {
  }

  /** One flat array explains every step: only a store into b->data changes what a
      block contains; loading, pinning, writing home, releasing and recycling do not. */
  lemma StepView(s: State, op: Op, b: nat)
    requires Inv(s) && Legal(s, op) && Step(s, op).Some? && b < |s.disk|
    ensures Inv(Step(s, op).value) && |Step(s, op).value.disk| == |s.disk|
    ensures View(Step(s, op).value, b)
         == if op.ModifyOp? && s.bufs[op.i].blockno == b then op.data else View(s, b)
  {
    StepKeepsInv(s, op);
    if op.GetOp? {
      GetView(s, op.dev, op.blockno, b);
    } else {
      var t := Step(s, op).value;
      if i :| 0 <= i < NBUF && Holds(s.bufs[i], DEV, b) {
        StepLocal(s, op, i);
        ViewCached(s, b, i);
        ViewCached(t, b, i);
      } else {
        StepDisk(s, op, b);
        ViewUncached(s, b);
        forall i | 0 <= i < NBUF ensures !Holds(t.bufs[i], DEV, b) { StepLocal(s, op, i); }
        ViewUncached(t, b);
      }
    }
  }

  /** A run: states[k + 1] is what ops[k] makes of states[k]. */
  ghost predicate Run(states: seq<State>, ops: seq<Op>) {
    && |states| == |ops| + 1
    && Inv(states[0])
    && (forall k :: 0 <= k < |states| ==> Shape(states[k]))
    && (forall k :: 0 <= k < |ops| ==> Legal(states[k], ops[k]) && Step(states[k], ops[k]) == Some(states[k + 1]))
  }

  /** The contents last stored for block `b` in the first `n` steps, or what it held at the start. */
  ghost function LastRecorded(states: seq<State>, ops: seq<Op>, n: nat, b: nat): Block
    requires Run(states, ops) && n <= |ops| && b < |states[0].disk|
  {
    if n == 0 then View(states[0], b)
    else if ops[n - 1].ModifyOp? && states[n - 1].bufs[ops[n - 1].i].blockno == b then ops[n - 1].data
    else LastRecorded(states, ops, n - 1, b)
  }

  lemma {:induction false} RunView(states: seq<State>, ops: seq<Op>, n: nat, b: nat)
    requires Run(states, ops) && n <= |ops| && b < |states[0].disk|
    ensures Inv(states[n]) && |states[n].disk| == |states[0].disk|
    ensures View(states[n], b) == LastRecorded(states, ops, n, b)
  {
    if n > 0 {
      RunView(states, ops, n - 1, b);
      StepView(states[n - 1], ops[n - 1], b);
    }
  }

  /** Cache transparency: after any interleaving of steps, a valid buffer of block `b`
      holds exactly the contents last stored for `b`, wherever they have been meanwhile. */
  lemma CacheTransparent(states: seq<State>, ops: seq<Op>, n: nat, i: nat)
    requires Run(states, ops) && n <= |ops| && i < NBUF && states[n].bufs[i].valid
    ensures states[n].bufs[i].blockno < |states[0].disk|
    ensures states[n].bufs[i].data == LastRecorded(states, ops, n, states[n].bufs[i].blockno)
  {
    RunInv(states, ops, n);
    var b := states[n].bufs[i].blockno;
    RunView(states, ops, n, b);
    ViewCached(states[n], b, i);
  }

  lemma {:induction false} RunInv(states: seq<State>, ops: seq<Op>, n: nat)
    requires Run(states, ops) && n <= |ops|
    ensures Inv(states[n]) && |states[n].disk| == |states[0].disk|
  {
    if n > 0 {
      RunInv(states, ops, n - 1);
      StepKeepsInv(states[n - 1], ops[n - 1]);
    }
  }

  // ------------------------------------------------------------ release order

  /** The list binit builds: each buffer is put in front of the ones before it. */
  function InitialOrder(n: nat): (r: seq<nat>)
    requires n <= NBUF
    ensures |r| == n && forall k :: 0 <= k < n ==> r[k] == n - 1 - k
  {
    if n == 0 then [] else [n - 1] + InitialOrder(n - 1)
  }

  lemma InitialPermutes()
    ensures Permutation(InitialOrder(NBUF))
  {
  }

  /** The list after the final releases `h`, oldest first. */
  function OrderAfter(h: seq<nat>): (r: seq<nat>)
    requires forall k :: 0 <= k < |h| ==> h[k] < NBUF
    ensures Permutation(r)
  {
    InitialPermutes();
    if h == [] then InitialOrder(NBUF)
    else
      var r := OrderAfter(h[..|h| - 1]);
      Everywhere(r, h[|h| - 1]);
      MoveToFrontPermutes(r, h[|h| - 1]);
      MoveToFront(r, h[|h| - 1])
  }

  /** When buffer `i` was last released: 0 for never. */
  function LastRelease(h: seq<nat>, i: nat): (t: nat)
    ensures t <= |h| && (t > 0 ==> h[t - 1] == i) && forall k :: t <= k < |h| ==> h[k] != i
  {
    if h == [] then 0
    else if h[|h| - 1] == i then |h|
    else LastRelease(h[..|h| - 1], i)
  }

  lemma MoveToFrontAt(order: seq<nat>, i: nat, k: nat)
    requires Permutation(order) && i in order && k < NBUF
    ensures var o, at := MoveToFront(order, i), Position(order, i);
      && |o| == NBUF && o[0] == i
      && (k > 0 ==> o[k] == if k <= at then order[k - 1] else order[k])
      && (k > 0 ==> o[k] != i)
  {
  }

  lemma LastReleaseSnoc(g: seq<nat>, i: nat, j: nat)
    ensures LastRelease(g + [i], j) == if j == i then |g| + 1 else LastRelease(g, j)
  {
    assert (g + [i])[..|g + [i]| - 1] == g;
  }

  /** The list is in most-recently-released order; buffers never released keep binit's order. */
  lemma {:induction false} MostRecentlyReleasedFirst(h: seq<nat>, p: nat, q: nat)
    requires forall k :: 0 <= k < |h| ==> h[k] < NBUF
    requires p < q < NBUF
    ensures Before(h, OrderAfter(h)[p], OrderAfter(h)[q])
  {
    if h != [] {
      var g, i := h[..|h| - 1], h[|h| - 1];
      assert h == g + [i];
      var r := OrderAfter(g);
      Everywhere(r, i);
      var at := Position(r, i);
      MoveToFrontAt(r, i, p);
      MoveToFrontAt(r, i, q);
      LastReleaseSnoc(g, i, OrderAfter(h)[p]);
      LastReleaseSnoc(g, i, OrderAfter(h)[q]);
      if p > 0 {
        MostRecentlyReleasedFirst(g, if p <= at then p - 1 else p, if q <= at then q - 1 else q);
      }
    }
  }

  /** Buffer `i` was released after buffer `j`, or neither ever was and binit put `i` in front. */
  predicate Before(h: seq<nat>, i: nat, j: nat) {
    LastRelease(h, i) > LastRelease(h, j) || (LastRelease(h, i) == LastRelease(h, j) == 0 && i > j)
  }

  /** The final releases among the first `n` steps of a run. */
  ghost function Releases(states: seq<State>, ops: seq<Op>, n: nat): (h: seq<nat>)
    requires Run(states, ops) && n <= |ops|
    ensures forall k :: 0 <= k < |h| ==> h[k] < NBUF
  {
    if n == 0 then []
    else
      var h := Releases(states, ops, n - 1);
      if ops[n - 1].DropOp? && states[n - 1].bufs[ops[n - 1].i].refcnt == 1 then h + [ops[n - 1].i] else h
  }

  lemma StepOrder(s: State, op: Op, t: State)
    requires Shape(s) && Legal(s, op) && Step(s, op) == Some(t)
    ensures op.DropOp? ==> op.i in s.order
    ensures t.order
         == if op.DropOp? && s.bufs[op.i].refcnt == 1 then MoveToFront(s.order, op.i) else s.order
  {
    if op.DropOp? { Everywhere(s.order, op.i); }
  }

  lemma OrderAfterSnoc(h: seq<nat>, i: nat)
    requires i < NBUF && forall k :: 0 <= k < |h| ==> h[k] < NBUF
    ensures i in OrderAfter(h) && OrderAfter(h + [i]) == MoveToFront(OrderAfter(h), i)
  {
    Everywhere(OrderAfter(h), i);
    assert (h + [i])[..|h + [i]| - 1] == h;
  }

  lemma NoReleases()
    ensures OrderAfter([]) == InitialOrder(NBUF)
  {
  }

  lemma {:induction false} RunOrder(states: seq<State>, ops: seq<Op>, n: nat)
    requires Run(states, ops) && n <= |ops| && states[0].order == InitialOrder(NBUF)
    ensures states[n].order == OrderAfter(Releases(states, ops, n))
  {
    hide MoveToFront, OrderAfter, Legal, Inv, Permutation;
    if n == 0 {
      NoReleases();
    } else {
      var s, op := states[n - 1], ops[n - 1];
      StepOrder(s, op, states[n]);
      hide Step;
      RunOrder(states, ops, n - 1);
      if op.DropOp? {
        OrderAfterSnoc(Releases(states, ops, n - 1), op.i);
      }
    }
  }

  lemma EligibleBeforeVictim(s: State, j: nat)
    requires Shape(s) && j < NBUF && Eligible(s.bufs[j])
    ensures j in s.order && Position(s.order, j) < LastFree(s, NBUF)
  {
    Everywhere(s.order, j);
  }

  lemma GetRecycles(s: State, dev: nat, blockno: nat)
    requires Shape(s) && FirstHit(s, dev, blockno, 0) == NBUF && LastFree(s, NBUF) > 0
    ensures Get(s, dev, blockno).Some? && Get(s, dev, blockno).value.1 == s.order[LastFree(s, NBUF) - 1]
  {
  }

  /** An eligible buffer stands in the list before the victim, or is the victim. */
  lemma VictimBehind(s: State, j: nat) returns (p: nat)
    requires Shape(s) && j < NBUF && Eligible(s.bufs[j])
    ensures p < LastFree(s, NBUF) && s.order[p] == j && Eligible(s.bufs[s.order[LastFree(s, NBUF) - 1]])
  {
    EligibleBeforeVictim(s, j);
    p := Position(s.order, j);
  }

  lemma VictimInOrder(s: State, h: seq<nat>, dev: nat, blockno: nat, j: nat)
    requires Shape(s) && (forall k :: 0 <= k < |h| ==> h[k] < NBUF) && s.order == OrderAfter(h)
    requires FirstHit(s, dev, blockno, 0) == NBUF && j < NBUF && Eligible(s.bufs[j])
    ensures Get(s, dev, blockno).Some?
    ensures var i := Get(s, dev, blockno).value.1; Eligible(s.bufs[i]) && (i == j || Before(h, j, i))
  {
    hide Get, OrderAfter, LastFree, FirstHit;
    var p := VictimBehind(s, j);
    GetRecycles(s, dev, blockno);
    var q := LastFree(s, NBUF) - 1;
    if p < q {
      MostRecentlyReleasedFirst(h, p, q);
    }
  }

  /** In every run, the buffer bget recycles is the eligible one released longest ago. */
  lemma VictimIsLeastRecentlyReleased(states: seq<State>, ops: seq<Op>, n: nat, dev: nat, blockno: nat, j: nat)
    requires Run(states, ops) && n <= |ops| && states[0].order == InitialOrder(NBUF)
    requires FirstHit(states[n], dev, blockno, 0) == NBUF
    requires j < NBUF && Eligible(states[n].bufs[j])
    ensures Get(states[n], dev, blockno).Some?
    ensures var i := Get(states[n], dev, blockno).value.1;
      Eligible(states[n].bufs[i]) && (i == j || Before(Releases(states, ops, n), j, i))
  {
    hide Get, Releases, OrderAfter, LastFree, FirstHit, Inv, Step, Legal, Shape;
    RunOrder(states, ops, n);
    VictimInOrder(states[n], Releases(states, ops, n), dev, blockno, j);
  }

  // ---------------------------------------------------- whole bread and brelse

  function Locked(s: State, i: nat): (r: State)
    requires Shape(s) && i < NBUF
    ensures Shape(r)
  {
    SetBuf(s, i, s.bufs[i].(locked := true))
  }

  /** bget as a whole, the sleep-lock being free: None is a panic. */
  function GetLocked(s: State, dev: nat, blockno: nat): (r: Option<(State, nat)>)
    requires Shape(s)
    ensures r.Some? ==> Shape(r.value.0) && r.value.1 < NBUF
  {
    match Get(s, dev, blockno)
    case None => None
    case Some((t, i)) => Some((Locked(t, i), i))
  }

  /** No process holds the lock of the block's buffer. */
  ghost predicate Available(s: State, dev: nat, blockno: nat)
    requires Shape(s)
  {
    forall i :: 0 <= i < NBUF && Holds(s.bufs[i], dev, blockno) ==> !s.bufs[i].locked
  }

  lemma GetLockedKeepsInv(s: State, dev: nat, blockno: nat)
    requires Inv(s) && Available(s, dev, blockno) && GetLocked(s, dev, blockno).Some?
    ensures Inv(GetLocked(s, dev, blockno).value.0)
  {
    GetKeepsInv(s, dev, blockno);
    var (t, i) := Get(s, dev, blockno).value;
    StepKeepsInv(t, LockOp(i));
  }

  lemma LockedBuffer(s: State, b: nat)
    requires Inv(s) && Available(s, DEV, b) && GetLocked(s, DEV, b).Some?
    ensures var (t, i) := GetLocked(s, DEV, b).value;
      Holds(t.bufs[i], DEV, b) && t.bufs[i].locked && (!t.bufs[i].valid ==> !t.bufs[i].dirty) && t.disk == s.disk
  {
    GetLockedKeepsInv(s, DEV, b);
  }

  /** bread: None is a panic. */
  function ReadSpec(s: State, dev: nat, blockno: nat): (r: Option<(State, nat)>)
    requires Shape(s)
    ensures r.Some? ==> Shape(r.value.0) && r.value.1 < NBUF
  {
    match GetLocked(s, dev, blockno)
    case None => None
    case Some((t, i)) =>
      if t.bufs[i].valid then Some((t, i))
      else match Transfer(t, i)
        case None => None
        case Some(u) => Some((u, i))
  }

  function WriteSpec(s: State, i: nat): (r: Option<State>)
    requires Shape(s) && i < NBUF
    ensures r.Some? ==> Shape(r.value)
  {
    if !s.bufs[i].locked then None else Transfer(SetBuf(s, i, s.bufs[i].(dirty := true)), i)
  }

  /** brelse of a buffer the caller has locked. */
  function ReleaseSpec(s: State, i: nat): (r: State)
    requires Shape(s) && i < NBUF && s.bufs[i].refcnt > 0
    ensures Shape(r)
  {
    Drop(SetBuf(s, i, s.bufs[i].(locked := false)), i)
  }

  ghost predicate HasFree(s: State)
    requires Shape(s)
  {
    exists j :: 0 <= j < NBUF && Eligible(s.bufs[j])
  }

  /** What a successful bread leaves behind: the block's buffer, valid, locked and holding
      the block's contents; every other buffer untouched. */
  ghost predicate ReadPost(s: State, b: nat, t: State, i: nat)
    requires Inv(s) && b < |s.disk|
  {
    && Inv(t) && t.disk == s.disk && i < NBUF
    && t.bufs[i].dev == DEV && t.bufs[i].blockno == b && t.bufs[i].valid && t.bufs[i].locked
    && t.bufs[i].data == View(s, b)
    && (forall j :: 0 <= j < NBUF && j != i ==> t.bufs[j] == s.bufs[j])
    && (forall c :: 0 <= c < |s.disk| ==> View(t, c) == View(s, c))
    && (if Holds(s.bufs[i], DEV, b)
        then t.bufs[i].refcnt == s.bufs[i].refcnt + 1 && t.bufs[i].dirty == s.bufs[i].dirty
        else Eligible(s.bufs[i]) && t.bufs[i].refcnt == 1 && !t.bufs[i].dirty)
  }

  lemma ReadKeepsView(s: State, b: nat, c: nat)
    requires Inv(s) && b < |s.disk| && c < |s.disk| && Available(s, DEV, b) && ReadSpec(s, DEV, b).Some?
    ensures var t := ReadSpec(s, DEV, b).value.0; Inv(t) && t.disk == s.disk && View(t, c) == View(s, c)
  {
    GetKeepsInv(s, DEV, b);
    GetView(s, DEV, b, c);
    var (t, i) := Get(s, DEV, b).value;
    StepView(t, LockOp(i), c);
    var u := Locked(t, i);
    if !u.bufs[i].valid {
      StepView(u, LoadOp(i), c);
    }
  }

  /** A read of a cached block, and of one that is not. */
  lemma ReadHit(s: State, b: nat, i: nat)
    requires Inv(s) && b < |s.disk| && i < NBUF && Holds(s.bufs[i], DEV, b)
    ensures ReadSpec(s, DEV, b).Some? && ReadSpec(s, DEV, b).value.1 == i
    ensures var t := ReadSpec(s, DEV, b).value.0;
      && (forall j :: 0 <= j < NBUF && j != i ==> t.bufs[j] == s.bufs[j])
      && t.bufs[i].(data := s.bufs[i].data) == s.bufs[i].(refcnt := s.bufs[i].refcnt + 1, locked := true, valid := true)
  {
    Everywhere(s.order, i);
    var p := Position(s.order, i);
    var hit := FirstHit(s, DEV, b, 0);
    assert hit <= p;
    assert s.order[hit] == i;
  }

  lemma ReadMiss(s: State, b: nat)
    requires Inv(s) && b < |s.disk|
    requires forall j :: 0 <= j < NBUF ==> !Holds(s.bufs[j], DEV, b)
    ensures ReadSpec(s, DEV, b).Some? <==> HasFree(s)
    ensures ReadSpec(s, DEV, b).Some? ==>
      var (t, i) := ReadSpec(s, DEV, b).value;
      && (forall j :: 0 <= j < NBUF && j != i ==> t.bufs[j] == s.bufs[j])
      && Eligible(s.bufs[i])
      && t.bufs[i] == Buf(DEV, b, 1, true, false, true, s.disk[b])
  {
    hide FirstHit, LastFree, Unique, Permutation;
    GetMiss(s, b);
    hide Get, Inv;
  }

  lemma GetMiss(s: State, b: nat)
    requires Shape(s) && forall j :: 0 <= j < NBUF ==> !Holds(s.bufs[j], DEV, b)
    ensures Get(s, DEV, b).Some? <==> HasFree(s)
    ensures Get(s, DEV, b).Some? ==>
      var (t, i) := Get(s, DEV, b).value; i < NBUF && Eligible(s.bufs[i]) && t == Recycled(s, i, DEV, b)
  {
    assert FirstHit(s, DEV, b, 0) == NBUF;
    if j :| 0 <= j < NBUF && Eligible(s.bufs[j]) {
      EligibleBeforeVictim(s, j);
    }
  }

  lemma ReadSpecPost(s: State, b: nat)
    requires Inv(s) && b < |s.disk| && Available(s, DEV, b) && ReadSpec(s, DEV, b).Some?
    ensures ReadPost(s, b, ReadSpec(s, DEV, b).value.0, ReadSpec(s, DEV, b).value.1)
  {
    var (t, i) := ReadSpec(s, DEV, b).value;
    forall c | 0 <= c < |s.disk| ensures Inv(t) && t.disk == s.disk && View(t, c) == View(s, c) {
      ReadKeepsView(s, b, c);
    }
    ReadKeepsView(s, b, b);
    if h :| 0 <= h < NBUF && Holds(s.bufs[h], DEV, b) {
      ReadHit(s, b, h);
    } else {
      ReadMiss(s, b);
    }
    ViewCached(t, b, i);
  }

  /** bread panics only when the block is not cached and every buffer is held or pinned. */
  lemma ReadSucceeds(s: State, b: nat)
    requires Inv(s) && b < |s.disk|
    ensures ReadSpec(s, DEV, b).Some?
       <==> (HasFree(s) || exists i :: 0 <= i < NBUF && Holds(s.bufs[i], DEV, b))
  {
    if h :| 0 <= h < NBUF && Holds(s.bufs[h], DEV, b) {
      ReadHit(s, b, h);
    } else {
      ReadMiss(s, b);
    }
  }
}
