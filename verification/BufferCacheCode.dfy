/** bio.c itself: the buffers on their doubly linked list, and the functions that walk it. */
module BufferCacheCode {
  import opened Common
  import opened Disk
  import opened BufferCache
  import Counting

  // ---------------------------------------------------------------- pointers

  /** The index standing for &bcache.head in `next` and `prev`. */
  const HEAD: nat := NBUF

  /** The k-th node of the circular list: the head at both ends. */
  function At(order: seq<nat>, k: nat): (i: nat)
    requires k <= |order| + 1
  {
    if k == 0 || k == |order| + 1 then HEAD else order[k - 1]
  }

  /** `next` and `prev` link the buffers of `order` and the head in a circle. */
  ghost predicate Links(next: seq<nat>, prev: seq<nat>, order: seq<nat>) {
    && |next| == |prev| == NBUF + 1
    && Counting.Distinct(order)
    && (forall k :: 0 <= k < |order| ==> order[k] < NBUF)
    && (forall k {:trigger At(order, k)} :: 0 <= k <= |order| ==>
         next[At(order, k)] == At(order, k + 1) && prev[At(order, k + 1)] == At(order, k))
  }

  lemma LinksAt(next: seq<nat>, prev: seq<nat>, order: seq<nat>, k: nat)
    requires Links(next, prev, order) && k <= |order|
    ensures At(order, k) <= NBUF && At(order, k + 1) <= NBUF
    ensures next[At(order, k)] == At(order, k + 1) && prev[At(order, k + 1)] == At(order, k)
  {
  }

  lemma AtInjective(order: seq<nat>, a: nat, b: nat)
    requires Counting.Distinct(order) && (forall k :: 0 <= k < |order| ==> order[k] < NBUF)
    requires a < b <= |order| + 1 && (a > 0 || b <= |order|)
    ensures At(order, a) != At(order, b)
  {
  }

  lemma WithoutAt(order: seq<nat>, p: nat, k: nat)
    requires p < |order| && k <= |order|
    ensures At(Without(order, p), k) == At(order, if k <= p then k else k + 1)
  {
  }

  lemma WithoutKeeps(order: seq<nat>, p: nat)
    requires p < |order| && Counting.Distinct(order) && (forall k :: 0 <= k < |order| ==> order[k] < NBUF)
    ensures var r := Without(order, p);
      Counting.Distinct(r) && |r| == |order| - 1 && order[p] !in r && forall k :: 0 <= k < |r| ==> r[k] < NBUF
  {
  }

  /** The neighbours of a buffer are made to point past it, and the list is circular without it. */
  lemma UnlinkLinks(next: seq<nat>, prev: seq<nat>, order: seq<nat>, p: nat)
    requires Links(next, prev, order) && p < |order|
    ensures next[order[p]] <= NBUF && prev[order[p]] <= NBUF
    ensures Links(next[prev[order[p]] := next[order[p]]], prev[next[order[p]] := prev[order[p]]], Without(order, p))
  {
    LinksAt(next, prev, order, p);
    LinksAt(next, prev, order, p + 1);
    WithoutKeeps(order, p);
    var i := order[p];
    assert prev[i] == At(order, p) && next[i] == At(order, p + 2);
    var r := Without(order, p);
    var next', prev' := next[prev[i] := next[i]], prev[next[i] := prev[i]];
    forall k | 0 <= k <= |r|
      ensures next'[At(r, k)] == At(r, k + 1) && prev'[At(r, k + 1)] == At(r, k)
    {
      WithoutAt(order, p, k);
      WithoutAt(order, p, k + 1);
      if k < p {
        LinksAt(next, prev, order, k);
        AtInjective(order, k, p);
        AtInjective(order, k + 1, p + 2);
      } else if k > p {
        LinksAt(next, prev, order, k + 1);
        AtInjective(order, p, k + 1);
        AtInjective(order, p + 2, k + 2);
      }
    }
  }

  /** A buffer is linked in between the head and what came first, and the list is circular and starts with it. */
  lemma PushLinks(next: seq<nat>, prev: seq<nat>, order: seq<nat>, i: nat)
    requires Links(next, prev, order) && i < NBUF && i !in order
    ensures next[HEAD] <= NBUF
    ensures Links(next[i := next[HEAD]][HEAD := i], prev[i := HEAD][next[HEAD] := i], [i] + order)
  {
    LinksAt(next, prev, order, 0);
    var r := [i] + order;
    var next', prev' := next[i := next[HEAD]][HEAD := i], prev[i := HEAD][next[HEAD] := i];
    forall k | 0 <= k <= |r|
      ensures next'[At(r, k)] == At(r, k + 1) && prev'[At(r, k + 1)] == At(r, k)
    {
      if k > 1 {
        LinksAt(next, prev, order, k - 1);
        assert At(r, k) == At(order, k - 1) && At(r, k + 1) == At(order, k);
        AtInjective(order, 1, k);
      } else if k == 1 {
        assert At(r, 2) == At(order, 1);
      }
    }
  }

  lemma GetLockedHit(s: State, dev: nat, blockno: nat, b: nat)
    requires Shape(s) && b == At(s.order, FirstHit(s, dev, blockno, 0) + 1) && b != HEAD
    ensures b < NBUF && GetLocked(s, dev, blockno) == Some((Locked(Referenced(s, b), b), b))
  {
  }

  lemma GetLockedMiss(s: State, dev: nat, blockno: nat, b: nat)
    requires Shape(s) && At(s.order, FirstHit(s, dev, blockno, 0) + 1) == HEAD && b == At(s.order, LastFree(s, NBUF))
    ensures b <= NBUF
    ensures GetLocked(s, dev, blockno)
         == if b == HEAD then None else Some((Locked(Recycled(s, b, dev, blockno), b), b))
  {
  }

  /** Buffers that have never been used satisfy the cache's invariant. */
  lemma UnusedInv(s: State)
    requires Shape(s)
    requires forall i :: 0 <= i < NBUF ==>
      s.bufs[i].dev == 0 && s.bufs[i].refcnt == 0 && !s.bufs[i].valid && !s.bufs[i].dirty && !s.bufs[i].locked
    ensures Inv(s)
  {
  }

  /** Buffer `i` was in use for the block: it has one more reference and is locked. */
  ghost predicate Hit(was: seq<Buf>, now: seq<Buf>, dev: nat, blockno: nat, i: nat) {
    && i < |was| && was[i].dev == dev && was[i].blockno == blockno
    && now == was[i := was[i].(refcnt := was[i].refcnt + 1, locked := true)]
  }

  /** Buffer `i` was free and not dirty, the last such in list order; it is the block's now, locked, with one reference
      and nothing read yet. */
  ghost predicate Victim(was: seq<Buf>, order: seq<nat>, now: seq<Buf>, dev: nat, blockno: nat, i: nat) {
    && i < |was| && was[i].refcnt == 0 && !was[i].dirty
    && (exists p :: 0 <= p < |order| && order[p] == i && forall k :: p < k < |order| && order[k] < |was| ==>
          was[order[k]].refcnt > 0 || was[order[k]].dirty)
    && now == was[i := was[i].(dev := dev, blockno := blockno, refcnt := 1, valid := false, locked := true)]
  }

  /** What bget comes to: the buffer of the block if there is one, and otherwise a victim, unless every buffer is in use
      or dirty. */
  ghost predicate Got(was: seq<Buf>, order: seq<nat>, now: seq<Buf>, dev: nat, blockno: nat, r: Option<nat>) {
    if exists j :: 0 <= j < |was| && was[j].dev == dev && was[j].blockno == blockno then
      r.Some? && Hit(was, now, dev, blockno, r.value)
    else if r.Some? then Victim(was, order, now, dev, blockno, r.value)
    else forall j :: 0 <= j < |was| ==> was[j].refcnt > 0 || was[j].dirty
  }

  lemma FoundIs(s: State, dev: nat, blockno: nat, j: nat)
    requires Shape(s) && j < NBUF && s.bufs[j].dev == dev && s.bufs[j].blockno == blockno
    ensures var g := GetLocked(s, dev, blockno);
      g.Some? && Hit(s.bufs, g.value.0.bufs, dev, blockno, g.value.1)
  {
    Everywhere(s.order, j);
    assert s.order[Position(s.order, j)] == j;
    assert FirstHit(s, dev, blockno, 0) < NBUF;
  }

  lemma MissedIs(s: State, dev: nat, blockno: nat)
    requires Shape(s) && forall j :: 0 <= j < NBUF ==> s.bufs[j].dev != dev || s.bufs[j].blockno != blockno
    ensures var g := GetLocked(s, dev, blockno);
      if g.Some? then Victim(s.bufs, s.order, g.value.0.bufs, dev, blockno, g.value.1)
      else forall j :: 0 <= j < NBUF ==> s.bufs[j].refcnt > 0 || s.bufs[j].dirty
  {
    var free := LastFree(s, NBUF);
    assert FirstHit(s, dev, blockno, 0) == NBUF;
    if free == 0 {
      forall j | 0 <= j < NBUF ensures s.bufs[j].refcnt > 0 || s.bufs[j].dirty {
        Everywhere(s.order, j);
        assert s.order[Position(s.order, j)] == j;
      }
    } else {
      var i := s.order[free - 1];
      hide FirstHit, LastFree;
      assert GetLocked(s, dev, blockno) == Some((Locked(Recycled(s, i, dev, blockno), i), i));
      assert s.bufs[i].refcnt == 0 && !s.bufs[i].dirty;
      forall k | free - 1 < k < |s.order| ensures s.bufs[s.order[k]].refcnt > 0 || s.bufs[s.order[k]].dirty {
        assert !Eligible(s.bufs[s.order[k]]);
      }
    }
  }

  lemma GetIs(s: State, dev: nat, blockno: nat)
    requires Shape(s)
    ensures var g := GetLocked(s, dev, blockno);
      Got(s.bufs, s.order, if g.Some? then g.value.0.bufs else s.bufs, dev, blockno,
          if g.Some? then Some(g.value.1) else None)
  {
    hide GetLocked, Hit, Victim;
    if j :| 0 <= j < NBUF && s.bufs[j].dev == dev && s.bufs[j].blockno == blockno {
      FoundIs(s, dev, blockno, j);
    } else {
      MissedIs(s, dev, blockno);
    }
  }

  // --------------------------------------------------------------- the class

  class Cache {
    var bufs: seq<Buf>
    var next: seq<nat>
    var prev: seq<nat>
    var disk: seq<Block>
    ghost var order: seq<nat>
    ghost var writes: seq<Write>   // every block written to the disk, in order

    ghost predicate Valid()
      reads this
    {
      Links(next, prev, order) && Inv(Abs())
    }

    ghost function Abs(): State
      reads this
    {
      State(bufs, order, disk)
    }

    /** binit, on buffers that are all zero. */
    constructor (disk0: seq<Block>)
      ensures Valid()
      ensures disk == disk0 && writes == [] && order == InitialOrder(NBUF)
      ensures forall i :: 0 <= i < NBUF ==> !bufs[i].valid && !bufs[i].dirty && bufs[i].refcnt == 0
    {
      hide Inv, Permutation;
      var zero: Block := seq(BLOCK_WORDS, _ => 0);
      bufs := seq(NBUF, _ => Buf(0, 0, 0, false, false, false, zero));
      disk := disk0;
      order := [];
      writes := [];
      next := seq(NBUF + 1, _ => HEAD);
      prev := seq(NBUF + 1, _ => HEAD);
      new;
      var b := 0;
      while b < NBUF
        invariant 0 <= b <= NBUF
        invariant order == InitialOrder(b)
        invariant Links(next, prev, order)
        invariant disk == disk0 && writes == []
        invariant |bufs| == NBUF && forall i :: 0 <= i < NBUF ==> bufs[i] == Buf(0, 0, 0, false, false, false, zero)
      {
        PushLinks(next, prev, order, b);
        next := next[b := next[HEAD]];
        prev := prev[b := HEAD];
        prev := prev[next[HEAD] := b];
        next := next[HEAD := b];
        order := [b] + order;
        b := b + 1;
      }
      InitialPermutes();
      UnusedInv(Abs());
    }

    /** bget's first loop: the cached buffer of the block, or the head. */
    method ScanForward(dev: nat, blockno: nat) returns (b: nat)
      requires Valid()
      ensures b == At(order, FirstHit(Abs(), dev, blockno, 0) + 1)
    {
      hide FirstHit, Unique, BufOk;
      b := next[HEAD];
      ghost var k := 0;
      LinksAt(next, prev, order, 0);
      while b != HEAD && !(bufs[b].dev == dev && bufs[b].blockno == blockno)
        invariant 0 <= k <= NBUF && b == At(order, k + 1)
        invariant FirstHit(Abs(), dev, blockno, 0) == FirstHit(Abs(), dev, blockno, k)
        decreases NBUF - k
      {
        LinksAt(next, prev, order, k + 1);
        FirstHitNext(Abs(), dev, blockno, k);
        b := next[b];
        k := k + 1;
      }
      FirstHitNext(Abs(), dev, blockno, k);
    }

    /** bget's second loop: from the least recently released end, an eligible buffer, or the head. */
    method ScanBackward() returns (b: nat)
      requires Valid()
      ensures b == At(order, LastFree(Abs(), NBUF))
    {
      b := prev[HEAD];
      ghost var k := NBUF;
      LinksAt(next, prev, order, NBUF);
      while b != HEAD && !(bufs[b].refcnt == 0 && !bufs[b].dirty)
        invariant 0 <= k <= NBUF && b == At(order, k)
        invariant LastFree(Abs(), NBUF) == LastFree(Abs(), k)
        decreases k
      {
        LinksAt(next, prev, order, k - 1);
        b := prev[b];
        k := k - 1;
      }
    }

    /** bget's stores into a cached buffer. */
    method Reference(b: nat)
      requires Shape(Abs()) && b < NBUF
      modifies this`bufs
      ensures Abs() == Locked(Referenced(old(Abs()), b), b)
    {
      bufs := bufs[b := bufs[b].(refcnt := bufs[b].refcnt + 1)];
      bufs := bufs[b := bufs[b].(locked := true)];
    }

    /** bget's stores into a recycled buffer. */
    method Reuse(b: nat, dev: nat, blockno: nat)
      requires Shape(Abs()) && b < NBUF
      modifies this`bufs
      ensures Abs() == Locked(Recycled(old(Abs()), b, dev, blockno), b)
    {
      bufs := bufs[b := bufs[b].(dev := dev)];
      bufs := bufs[b := bufs[b].(blockno := blockno)];
      bufs := bufs[b := bufs[b].(valid := false, dirty := false)];
      bufs := bufs[b := bufs[b].(refcnt := 1)];
      bufs := bufs[b := bufs[b].(locked := true)];
    }

    /** bget; acquiresleep waits until the buffer is unlocked. */
    method Bget(dev: nat, blockno: nat) returns (r: Option<nat>)
      requires Valid() && Available(Abs(), dev, blockno)
      modifies this`bufs
      ensures match GetLocked(old(Abs()), dev, blockno)
        case None => r == None && bufs == old(bufs)
        case Some((s, i)) => r == Some(i) && Abs() == s
      ensures Got(old(bufs), order, bufs, dev, blockno, r)
    {
      hide Got, FirstHit, LastFree, Unique, BufOk, Permutation;
      ghost var s := Abs();
      GetIs(s, dev, blockno);
      var b := ScanForward(dev, blockno);
      if b != HEAD {
        GetLockedHit(s, dev, blockno, b);
        Reference(b);
      } else {
        b := ScanBackward();
        GetLockedMiss(s, dev, blockno, b);
        if b == HEAD {
          return None;
        }
        Reuse(b, dev, blockno);
      }
      r := Some(b);
    }

    /** iderw; a panic changes nothing. */
    method Iderw(i: nat) returns (ok: bool)
      requires Shape(Abs()) && i < NBUF
      modifies this`bufs, this`disk, this`writes
      ensures ok <==> Transfer(old(Abs()), i).Some?
      ensures Abs() == if ok then Transfer(old(Abs()), i).value else old(Abs())
      ensures ok <==>
        var b := old(bufs[i]);
        b.locked && (!b.valid || b.dirty) && b.dev == 1 && b.blockno < |old(disk)|
      ensures ok && old(bufs[i]).dirty ==>
        disk == old(disk)[old(bufs[i]).blockno := old(bufs[i]).data] && bufs[i].data == old(bufs[i]).data
      ensures ok && !old(bufs[i]).dirty ==>
        disk == old(disk) && bufs[i].data == old(disk)[old(bufs[i]).blockno]
      ensures ok ==> bufs == old(bufs)[i := old(bufs[i]).(data := bufs[i].data, valid := true, dirty := false)]
      ensures writes == if ok && old(bufs[i].dirty) then old(writes) + [Write(bufs[i].blockno, bufs[i].data)]
        else old(writes)
    {
      var b := bufs[i];
      if !b.locked || (b.valid && !b.dirty) || b.dev != DEV || b.blockno >= |disk| {
        return false;
      }
      if b.dirty {
        bufs := bufs[i := bufs[i].(dirty := false)];
        disk := disk[b.blockno := bufs[i].data];
        writes := writes + [Write(b.blockno, b.data)];
      } else {
        bufs := bufs[i := bufs[i].(data := disk[b.blockno])];
      }
      bufs := bufs[i := bufs[i].(valid := true)];
      ok := true;
    }

    /** bread; None is a panic, of bget or, for a block past the end of the disk, of iderw. */
    method Bread(b: nat) returns (r: Option<nat>)
      requires Valid() && Available(Abs(), DEV, b)
      modifies this`bufs, this`disk, this`writes
      ensures writes == old(writes)
      ensures match ReadSpec(old(Abs()), DEV, b)
        case None => r == None
        case Some((t, i)) => r == Some(i) && Abs() == t
    {
      ghost var s := Abs();
      r := Bget(DEV, b);
      if r.Some? {
        LockedBuffer(s, b);
        if !bufs[r.value].valid {
          var ok := Iderw(r.value);
          if !ok {
            return None;
          }
        }
      }
    }

    /** bwrite. */
    method Bwrite(i: nat) returns (ok: bool)
      requires Shape(Abs()) && i < NBUF
      modifies this`bufs, this`disk, this`writes
      ensures ok <==> WriteSpec(old(Abs()), i).Some?
      ensures ok ==> Abs() == WriteSpec(old(Abs()), i).value
      ensures ok ==> writes == old(writes) + [Write(old(bufs[i].blockno), old(bufs[i].data))]
      ensures !ok ==> writes == old(writes)
    {
      if !bufs[i].locked {
        return false;
      }
      bufs := bufs[i := bufs[i].(dirty := true)];
      ok := Iderw(i);
    }

    /** The pointer surgery of brelse: unlink the buffer and put it behind the head. */
    method MoveBufferToFront(i: nat)
      requires Links(next, prev, order) && i in order
      modifies this`next, this`prev, this`order
      ensures Links(next, prev, order)
      ensures order == MoveToFront(old(order), i)
    {
      ghost var p := Position(order, i);
      UnlinkLinks(next, prev, order, p);
      WithoutKeeps(order, p);
      var n, q := next[i], prev[i];
      prev := prev[n := q];
      next := next[q := n];
      order := Without(order, p);
      PushLinks(next, prev, order, i);
      next := next[i := next[HEAD]];
      prev := prev[i := HEAD];
      prev := prev[next[HEAD] := i];
      next := next[HEAD := i];
      order := [i] + order;
    }

    /** brelse; false is the panic about a buffer that is not locked. */
    method Brelse(i: nat) returns (ok: bool)
      requires Shape(Abs()) && Links(next, prev, order) && i < NBUF && bufs[i].refcnt > 0
      modifies this`bufs, this`next, this`prev, this`order
      ensures Links(next, prev, order) && (ok <==> old(bufs[i].locked))
      ensures Abs() == if ok then ReleaseSpec(old(Abs()), i) else old(Abs())
      ensures ok ==> bufs == old(bufs)[i := old(bufs[i]).(locked := false, refcnt := old(bufs[i]).refcnt - 1)]
      ensures ok && old(bufs[i]).refcnt > 1 ==> order == old(order)
      ensures ok && old(bufs[i]).refcnt == 1 ==>
        exists p :: 0 <= p < |old(order)| && old(order)[p] == i
          && order == [i] + (old(order)[..p] + old(order)[p + 1..])
    {
      if !bufs[i].locked {
        return false;
      }
      bufs := bufs[i := bufs[i].(locked := false)];
      bufs := bufs[i := bufs[i].(refcnt := bufs[i].refcnt - 1)];
      if bufs[i].refcnt == 0 {
        Everywhere(order, i);
        assert order[Position(order, i)] == i;
        MoveBufferToFront(i);
      }
      ok := true;
    }

    /** A holder of the buffer stores into b->data. */
    method Store(i: nat, data: Block)
      requires Shape(Abs()) && i < NBUF
      modifies this`bufs
      ensures Abs() == SetBuf(old(Abs()), i, old(bufs[i]).(data := data))
    {
      bufs := bufs[i := bufs[i].(data := data)];
    }
  }
}
