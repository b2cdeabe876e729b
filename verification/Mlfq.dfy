/**
 * The multi-level feedback queues of proc.c as plain sequences of process-table slots. `MlfqRuns` holds what
 * the kernel does with them, and `MlfqCode` the ring buffers that implement them.
 */
module Mlfq {
  import opened Common
  import opened Counting

  const NPROC: nat := 64
  const PQ_COUNT: nat := 5
  const MAX_PROC_COUNT: nat := 10000

  type Queues = qs: seq<seq<nat>> | |qs| == PQ_COUNT ghost witness [[], [], [], [], []]

  /** A place in the queues: queue `q`, position `k`. */
  ghost predicate At(qs: Queues, q: int, k: int, p: int) {
    0 <= q < PQ_COUNT && 0 <= k < |qs[q]| && qs[q][k] == p
  }

  ghost predicate Queued(qs: Queues, p: int) {
    exists q, k :: At(qs, q, k, p)
  }

  /** Every queued process is a table slot and has one place. */
  ghost predicate OncePerProcess(qs: Queues) {
    && (forall q, k, p :: At(qs, q, k, p) ==> p < NPROC)
    && (forall q, k, r, l, p :: At(qs, q, k, p) && At(qs, r, l, p) ==> q == r && k == l)
  }

  lemma EmptyOnce(qs: Queues)
    requires forall q :: 0 <= q < PQ_COUNT ==> qs[q] == []
    ensures OncePerProcess(qs) && forall p :: !Queued(qs, p)
  {
  }

  /** So no queue can grow beyond the process table, let alone fill its ring. */
  lemma QueuesStaySmall(qs: Queues, q: nat)
    requires OncePerProcess(qs) && q < PQ_COUNT
    ensures |qs[q]| <= NPROC
  {
    var s := qs[q];
    forall i, j | 0 <= i < j < |s| ensures s[i] != s[j] {
      assert At(qs, q, i, s[i]) && At(qs, q, j, s[j]);
    }
    forall k | 0 <= k < |s| ensures s[k] in Below(NPROC) {
      assert At(qs, q, k, s[k]);
    }
    AtMost(s, Below(NPROC));
  }

  // --------------------------------------------------------------- operations

  function Popped(qs: Queues, q: nat): Queues
    requires q < PQ_COUNT && qs[q] != []
  {
    qs[q := qs[q][1..]]
  }

  function Pushed(qs: Queues, q: nat, p: nat): Queues
    requires q < PQ_COUNT
  {
    qs[q := qs[q] + [p]]
  }

  function Deleted(qs: Queues, q: nat, k: nat): Queues
    requires q < PQ_COUNT && k < |qs[q]|
  {
    qs[q := Without(qs[q], k)]
  }

  /** The next queue up; the highest stays. */
  function Up(q: int): nat {
    if q <= 0 then 0 else q - 1
  }

  /** The next queue down; the lowest stays. */
  function Down(q: nat, retain: bool): nat {
    if q == PQ_COUNT - 1 || retain then q else q + 1
  }

  function Promoted(qs: Queues, q: nat, k: nat): Queues
    requires q < PQ_COUNT && k < |qs[q]|
  {
    Pushed(Deleted(qs, q, k), Up(q), qs[q][k])
  }

  /** Where a process was before position `k` of its queue was deleted. */
  lemma AtDeleted(qs: Queues, q: nat, k: nat, r: int, l: int, p: int)
    requires q < PQ_COUNT && k < |qs[q]|
    ensures At(Deleted(qs, q, k), r, l, p) <==> At(qs, r, if r == q && l >= k then l + 1 else l, p)
  {
  }

  lemma DeletedKeeps(qs: Queues, q: nat, k: nat)
    requires OncePerProcess(qs) && q < PQ_COUNT && k < |qs[q]|
    ensures OncePerProcess(Deleted(qs, q, k))
    ensures forall p :: Queued(Deleted(qs, q, k), p) <==> Queued(qs, p) && p != qs[q][k]
  {
    var ds := Deleted(qs, q, k);
    assert At(qs, q, k, qs[q][k]);
    forall r, l, p | At(ds, r, l, p) ensures p < NPROC && p != qs[q][k] && Queued(qs, p) {
      AtDeleted(qs, q, k, r, l, p);
    }
    forall r, l, x, y, p | At(ds, r, l, p) && At(ds, x, y, p) ensures r == x && l == y {
      AtDeleted(qs, q, k, r, l, p);
      AtDeleted(qs, q, k, x, y, p);
    }
    forall p | Queued(qs, p) && p != qs[q][k] ensures Queued(ds, p) {
      var r, l :| At(qs, r, l, p);
      var m := if r == q && l > k then l - 1 else l;
      AtDeleted(qs, q, k, r, m, p);
      assert At(ds, r, m, p);
    }
  }

  lemma PushedKeeps(qs: Queues, q: nat, p: nat)
    requires OncePerProcess(qs) && q < PQ_COUNT && p < NPROC && !Queued(qs, p)
    ensures OncePerProcess(Pushed(qs, q, p)) && At(Pushed(qs, q, p), q, |qs[q]|, p)
    ensures forall x :: Queued(Pushed(qs, q, p), x) <==> Queued(qs, x) || x == p
  {
    var ps := Pushed(qs, q, p);
    assert At(ps, q, |qs[q]|, p);
    forall r, l, x | At(ps, r, l, x) ensures if r == q && l == |qs[q]| then x == p else At(qs, r, l, x) {
    }
    forall x | Queued(qs, x) ensures Queued(ps, x) {
      var r, l :| At(qs, r, l, x);
      assert At(ps, r, l, x);
    }
  }

  lemma PoppedKeeps(qs: Queues, q: nat)
    requires OncePerProcess(qs) && q < PQ_COUNT && qs[q] != []
    ensures OncePerProcess(Popped(qs, q))
    ensures forall p :: Queued(Popped(qs, q), p) <==> Queued(qs, p) && p != qs[q][0]
  {
    DeletedKeeps(qs, q, 0);
    assert Without(qs[q], 0) == qs[q][1..];
    assert Popped(qs, q) == Deleted(qs, q, 0);
  }

  /** Aging moves one process, to the end of the next queue up, and every other process stays in its queue. */
  lemma PromotedKeeps(qs: Queues, q: nat, k: nat)
    requires OncePerProcess(qs) && q < PQ_COUNT && k < |qs[q]|
    ensures var ps := Promoted(qs, q, k);
      && OncePerProcess(ps)
      && (forall p :: Queued(ps, p) <==> Queued(qs, p))
      && InQueue(ps, Up(q), qs[q][k])
      && (forall r, p :: p != qs[q][k] ==> (InQueue(ps, r, p) <==> InQueue(qs, r, p)))
  {
    var p0 := qs[q][k];
    var ds := Deleted(qs, q, k);
    DeletedKeeps(qs, q, k);
    assert At(qs, q, k, p0);
    PushedKeeps(ds, Up(q), p0);
    var ps := Promoted(qs, q, k);
    forall r, p | p != p0 ensures InQueue(ps, r, p) <==> InQueue(qs, r, p) {
      DeletedInQueue(qs, q, k, r, p);
      PushedInQueue(ds, Up(q), p0, r, p);
    }
    PushedInQueue(ds, Up(q), p0, Up(q), p0);
  }

  ghost predicate InQueue(qs: Queues, q: int, p: int) {
    exists k :: At(qs, q, k, p)
  }

  lemma DeletedInQueue(qs: Queues, q: nat, k: nat, r: int, p: int)
    requires q < PQ_COUNT && k < |qs[q]| && p != qs[q][k]
    ensures InQueue(Deleted(qs, q, k), r, p) <==> InQueue(qs, r, p)
  {
    var ds := Deleted(qs, q, k);
    if InQueue(qs, r, p) {
      var l :| At(qs, r, l, p);
      var m := if r == q && l > k then l - 1 else l;
      AtDeleted(qs, q, k, r, m, p);
      assert At(ds, r, m, p);
    }
    if InQueue(ds, r, p) {
      var l :| At(ds, r, l, p);
      AtDeleted(qs, q, k, r, l, p);
    }
  }

  lemma PushedInQueue(qs: Queues, q: nat, p: nat, r: int, x: int)
    requires q < PQ_COUNT
    ensures InQueue(Pushed(qs, q, p), r, x) <==> InQueue(qs, r, x) || (r == q && x == p)
  {
    var ps := Pushed(qs, q, p);
    if InQueue(qs, r, x) {
      var l :| At(qs, r, l, x);
      assert At(ps, r, l, x);
    }
    if r == q && x == p {
      assert At(ps, q, |qs[q]|, p);
    }
    if InQueue(ps, r, x) && !(r == q && x == p) {
      var l :| At(ps, r, l, x);
      assert At(qs, r, l, x);
    }
  }

  lemma InOneQueue(qs: Queues, q: int, r: int, p: int)
    requires OncePerProcess(qs) && InQueue(qs, q, p) && InQueue(qs, r, p)
    ensures q == r
  {
    var k :| At(qs, q, k, p);
    var l :| At(qs, r, l, p);
  }
}
