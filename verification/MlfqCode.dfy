/**
 * The ring buffers of proc.c: getFront, popFront, pushBack, deleteIdx, incPrio, decPrio, and the code that calls
 * them. Each caller computes the steps of `MlfqRuns`, so what holds in every run there holds here.
 */
module MlfqCode {
  import opened Common
  import opened Mlfq
  import opened MlfqRuns

  /** The fields of struct proc that the queues use; `q` and `pos` are stat.allotedQ. */
  datatype Proc = Proc(pid: nat, state: ProcState, killed: bool, q: int, pos: int, latest: int)

  /** The slot `k` places after `start`, around the ring. */
  function Slot(start: nat, k: nat): (r: nat)
    requires start < MAX_PROC_COUNT && k < MAX_PROC_COUNT
    ensures r == (start + k) % MAX_PROC_COUNT
  {
    if start + k < MAX_PROC_COUNT then start + k else start + k - MAX_PROC_COUNT
  }

  /** What is at position `m` once the elements behind `k`, as far as `j`, have moved up. */
  function MovedUp(s: seq<nat>, k: nat, j: nat, m: nat): nat
    requires k <= j < |s| && m < |s|
  {
    if k <= m < j then s[m + 1] else s[m]
  }

  /** The recorded positions then. */
  ghost predicate PositionsShifted(was: seq<Proc>, procs: seq<Proc>, start: nat, s: seq<nat>, k: nat, j: nat)
    requires start < MAX_PROC_COUNT && |s| <= NPROC && |was| == |procs| == NPROC
  {
    && (forall m :: k < m <= j && m < |s| && s[m] < NPROC ==> procs[s[m]] == was[s[m]].(pos := Slot(start, m - 1)))
    && (forall x :: 0 <= x < NPROC && (forall m :: k < m <= j && m < |s| ==> s[m] != x) ==> procs[x] == was[x])
  }

  /** Once all have moved, each process of the shorter queue records where it is now. */
  lemma PlacesShifted(qs: Queues, was: seq<Proc>, procs: seq<Proc>, start: nat, q: nat, k: nat, r: int, l: int, x: int)
    requires OncePerProcess(qs) && q < PQ_COUNT && k < |qs[q]| <= NPROC && start < MAX_PROC_COUNT
    requires |was| == |procs| == NPROC
    requires PositionsShifted(was, procs, start, qs[q], k, |qs[q]| - 1) && At(Deleted(qs, q, k), r, l, x)
    ensures 0 <= x < NPROC && 0 <= l < NPROC
    ensures procs[x] == if r == q && l >= k then was[x].(pos := Slot(start, l)) else was[x]
  {
    AtDeleted(qs, q, k, r, l, x);
    QueuesStaySmall(qs, r);
    var s := qs[q];
    if r == q && l >= k {
      assert s[l + 1] == x;
    } else {
      forall m | k < m < |s| ensures s[m] != x {
        assert At(qs, q, m, s[m]);
      }
    }
  }

  lemma OnlyPositions(qs: Queues, was: seq<Proc>, procs: seq<Proc>, start: nat, q: nat, k: nat)
    requires OncePerProcess(qs) && q < PQ_COUNT && k < |qs[q]| <= NPROC && start < MAX_PROC_COUNT
    requires |was| == |procs| == NPROC
    requires PositionsShifted(was, procs, start, qs[q], k, |qs[q]| - 1)
    ensures forall x :: 0 <= x < |procs| ==> procs[x] == was[x].(pos := procs[x].pos)
    ensures forall p :: 0 <= p < |procs| && At(qs, q, k, p) ==> procs[p] == was[p]
  {
    var s := qs[q];
    forall x | 0 <= x < |procs| ensures procs[x] == was[x].(pos := procs[x].pos) {
      if m :| k < m < |s| && s[m] == x {
      }
    }
    forall p | 0 <= p < |procs| && At(qs, q, k, p) ensures procs[p] == was[p] {
      forall m | k < m < |s| ensures s[m] != p {
        assert At(qs, q, m, s[m]);
      }
    }
  }

  lemma SlotNext(start: nat, k: nat)
    requires start < MAX_PROC_COUNT && k + 1 < MAX_PROC_COUNT
    ensures (Slot(start, k) + 1) % MAX_PROC_COUNT == Slot(start, k + 1)
  {
  }

  function JobOf(p: Proc): Job {
    Job(p.pid, p.state, p.killed, p.q, p.latest)
  }

  function JobsOf(ps: seq<Proc>): (js: seq<Job>)
    ensures |js| == |ps| && forall i :: 0 <= i < |ps| ==> js[i] == JobOf(ps[i])
  {
    if ps == [] then [] else JobsOf(ps[..|ps| - 1]) + [JobOf(ps[|ps| - 1])]
  }

  lemma JobsOfUpdate(ps: seq<Proc>, p: nat, r: Proc)
    requires p < |ps|
    ensures JobsOf(ps[p := r]) == JobsOf(ps)[p := JobOf(r)]
  {
    hide JobsOf;
  }

  lemma SameJobs(ps: seq<Proc>, rs: seq<Proc>)
    requires |ps| == |rs| && forall i :: 0 <= i < |ps| ==> JobOf(ps[i]) == JobOf(rs[i])
    ensures JobsOf(ps) == JobsOf(rs)
  {
    hide JobsOf;
  }

  /** What a statement about jobs says of the processes. */
  lemma {:induction false} JobIs(ps: seq<Proc>, p: nat, j: Job)
    requires p < |ps| && JobsOf(ps)[p] == j
    ensures ps[p].pid == j.pid && ps[p].state == j.state && ps[p].killed == j.killed && ps[p].q == j.q
    ensures ps[p].latest == j.latest
  {
    hide JobsOf;
  }

  lemma FreeJobs(ps: seq<Proc>)
    requires |ps| == NPROC && forall i :: 0 <= i < NPROC ==> ps[i] == Proc(0, Unused, false, 0, 0, 0)
    ensures JobsOf(ps) == Boot().jobs
  {
    hide JobsOf;
  }

  /** Process `x` is runnable and records queue `q`. */
  predicate RunsIn(procs: seq<Proc>, x: int, q: int) {
    0 <= x < |procs| && procs[x].state == Runnable && procs[x].q == q
  }

  /** Queue `q` after the scheduler's first loop has passed the first `n` processes: if it was empty, it now holds the
      first of them that is runnable and records it, if there is one. */
  ghost predicate FilledTo(procs: seq<Proc>, was: seq<nat>, now: seq<nat>, q: int, n: nat) {
    if was != [] then now == was
    else if now == [] then forall x :: 0 <= x < n ==> !RunsIn(procs, x, q)
    else |now| == 1 && now[0] < n && RunsIn(procs, now[0], q) && forall x :: 0 <= x < now[0] ==> !RunsIn(procs, x, q)
  }

  lemma FillNone(procs: seq<Proc>, qs: Queues)
    ensures forall q :: 0 <= q < PQ_COUNT ==> FilledTo(procs, qs[q], qs[q], q, 0)
  {
  }

  lemma FillNext(procs: seq<Proc>, after: seq<Proc>, was: seq<nat>, now: seq<nat>, next: seq<nat>, q: int, n: nat)
    requires FilledTo(procs, was, now, q, n) && n < |procs| == |after|
    requires forall x :: 0 <= x < |procs| ==> after[x].state == procs[x].state && after[x].q == procs[x].q
    requires next == if RunsIn(procs, n, q) && now == [] then [n] else now
    ensures FilledTo(after, was, next, q, n + 1)
  {
    forall x ensures RunsIn(after, x, q) <==> RunsIn(procs, x, q) {
    }
  }

  ghost predicate NoneAlive(procs: seq<Proc>, s: seq<nat>) {
    forall x :: x in s && x < |procs| ==> procs[x].killed || procs[x].pid == 0 || procs[x].state != Runnable
  }

  /** A queue has lost its first processes, all of them dead. */
  ghost predicate Dropped(procs: seq<Proc>, was: seq<nat>, now: seq<nat>) {
    |now| <= |was| && now == was[|was| - |now|..] && NoneAlive(procs, was[..|was| - |now|])
  }

  lemma DropNone(procs: seq<Proc>, was: seq<nat>)
    ensures Dropped(procs, was, was)
  {
  }

  lemma DropOne(procs: seq<Proc>, was: seq<nat>, now: seq<nat>)
    requires Dropped(procs, was, now) && now != [] && NoneAlive(procs, [now[0]])
    ensures Dropped(procs, was, now[1..])
  {
    var n := |was| - |now|;
    assert was[..n + 1] == was[..n] + [now[0]];
  }

  const WAIT_LIMIT: seq<int> := [84, 83, 82, 81, 80]

  class Scheduler {
    const prioQ: array2<int>
    const prioQSize: array<nat>
    const prioQStart: array<nat>
    var procs: seq<Proc>
    var ticks: int
    var nextPid: nat
    ghost var queues: Queues

    ghost predicate Shape()
      reads this
    {
      && prioQ.Length0 == PQ_COUNT && prioQ.Length1 == MAX_PROC_COUNT
      && prioQSize.Length == PQ_COUNT && prioQStart.Length == PQ_COUNT && prioQSize != prioQStart && |procs| == NPROC
    }

    /** The tables as `MlfqRuns` sees them. */
    ghost function Abs(): State
      requires |procs| == NPROC
      reads this
    {
      State(JobsOf(procs), queues, ticks, nextPid)
    }

    /** The ring of queue `q` holds the sequence `s`. */
    ghost predicate Ring(q: nat, s: seq<nat>)
      requires prioQ.Length0 == PQ_COUNT && prioQ.Length1 == MAX_PROC_COUNT && prioQSize.Length == PQ_COUNT
      requires prioQStart.Length == PQ_COUNT
      requires q < PQ_COUNT
      reads prioQ, prioQSize, prioQStart
    {
      && prioQSize[q] == |s| <= NPROC && prioQStart[q] < MAX_PROC_COUNT
      && forall k :: 0 <= k < |s| ==> prioQ[q, Slot(prioQStart[q], k)] == s[k]
    }

    /** The rings hold the queues, and each queued process knows its place. */
    ghost predicate Valid()
      reads this, prioQ, prioQSize, prioQStart
      ensures Valid() ==> |procs| == NPROC
    {
      && Shape() && OncePerProcess(queues)
      && (forall q :: 0 <= q < PQ_COUNT ==> Ring(q, queues[q]))
      && (forall q, k, p :: At(queues, q, k, p) ==> Placed(q, k, p))
    }

    ghost predicate Placed(q: int, k: int, p: int)
      requires prioQStart.Length == PQ_COUNT
      reads this, prioQStart
    {
      && 0 <= q < PQ_COUNT && 0 <= k < MAX_PROC_COUNT && 0 <= p < |procs| && prioQStart[q] < MAX_PROC_COUNT
      && procs[p].q == q && procs[p].pos == Slot(prioQStart[q], k)
    }

    constructor ()
      ensures Valid() && Abs() == Boot()
      ensures fresh(prioQ) && fresh(prioQSize) && fresh(prioQStart)
    {
      hide OncePerProcess, JobsOf;
      prioQ := new int[PQ_COUNT, MAX_PROC_COUNT]((_, _) => -1);
      prioQSize := new nat[PQ_COUNT](_ => 0);
      prioQStart := new nat[PQ_COUNT](_ => 0);
      procs := seq(NPROC, _ => Proc(0, Unused, false, 0, 0, 0));
      ticks, nextPid := 0, 1;
      queues := [[], [], [], [], []];
      new;
      FreeJobs(procs);
      EmptyOnce(queues);
    }

    function BackIndex(q: nat): (r: nat)
      requires Valid() && q < PQ_COUNT
      reads this, prioQ, prioQSize, prioQStart
      ensures r == Slot(prioQStart[q], |queues[q]|)
    {
      (prioQStart[q] + prioQSize[q]) % MAX_PROC_COUNT
    }

    /** popFront: None is the panic on an empty queue. */
    method PopFront(q: nat) returns (ok: bool, p: int)
      requires Valid() && q < PQ_COUNT
      modifies prioQSize, prioQStart, this`queues
      ensures Valid() && (ok <==> old(queues)[q] != [])
      ensures if ok then p == old(queues)[q][0] && queues == Popped(old(queues), q) else queues == old(queues)
      ensures ok ==> queues == old(queues)[q := old(queues)[q][1..]]
    {
      p := -1;
      assert Ring(q, queues[q]);
      if prioQSize[q] == 0 {
        return false, p;
      }
      ghost var st := prioQStart[q];
      p := prioQ[q, prioQStart[q]];
      assert Slot(st, 0) == st;
      PoppedKeeps(queues, q);
      prioQStart[q] := prioQStart[q] + 1;
      if prioQStart[q] == MAX_PROC_COUNT {
        prioQStart[q] := 0;
      }
      prioQSize[q] := prioQSize[q] - 1;
      ghost var qs := queues;
      queues := Popped(queues, q);
      assert Ring(q, queues[q]) by {
        forall k | 0 <= k < |queues[q]| ensures prioQ[q, Slot(prioQStart[q], k)] == queues[q][k] {
          assert Slot(prioQStart[q], k) == Slot(st, k + 1);
        }
      }
      forall r | 0 <= r < PQ_COUNT ensures Ring(r, queues[r]) {
        assert old(Ring(r, qs[r]));
      }
      forall r, k, x | At(queues, r, k, x) ensures Placed(r, k, x) {
        assert At(qs, r, if r == q then k + 1 else k, x);
        assert old(Placed(r, if r == q then k + 1 else k, x));
      }
      ok := true;
    }

    /** The scan of pushBack: is a process with the pid of `p` in queue `q`? */
    method Scan(q: nat, p: nat) returns (found: bool)
      requires Valid() && q < PQ_COUNT && p < NPROC
      ensures found <==> PidIn(Abs().jobs, queues[q], procs[p].pid)
    {
      hide JobsOf;
      assert Ring(q, queues[q]);
      var i := prioQStart[q];
      ghost var j := 0;
      assert Slot(prioQStart[q], 0) == prioQStart[q];
      while i != BackIndex(q)
        invariant 0 <= j <= |queues[q]| && i == Slot(prioQStart[q], j)
        invariant forall k :: 0 <= k < j ==> queues[q][k] >= NPROC || procs[queues[q][k]].pid != procs[p].pid
        decreases |queues[q]| - j
      {
        ghost var x := queues[q][j];
        assert At(queues, q, j, x) && Placed(q, j, x);
        if prioQ[q, i] >= 0 && procs[prioQ[q, i]].pid == procs[p].pid {
          assert Abs().jobs[x].pid == procs[p].pid;
          return true;
        }
        i := (i + 1) % MAX_PROC_COUNT;
        j := j + 1;
      }
      found := false;
    }

    /** pushBack: `p` goes to the end of queue `q`, unless its pid is in that queue already. */
    method PushBack(q: nat, p: nat)
      requires Valid() && q < PQ_COUNT && p < NPROC && (Queued(queues, p) ==> InQueue(queues, q, p))
      modifies prioQ, prioQSize, this`procs, this`queues
      ensures Valid() && Abs() == PushedBack(old(Abs()), q, p)
      ensures if exists x :: x in old(queues)[q] && x < NPROC && old(procs)[x].pid == old(procs)[p].pid then
          queues == old(queues) && procs == old(procs)
        else
          && queues == old(queues)[q := old(queues)[q] + [p]]
          && procs == old(procs)[p := old(procs)[p].(q := q, pos := procs[p].pos)]
    {
      var found := Scan(q, p);
      if found {
        return;
      }
      OwnPidIn(Abs(), q, p);
      Append(q, p);
      JobsOfUpdate(old(procs), p, procs[p]);
    }

    /** pushBack storing `p` at the back index. */
    method Append(q: nat, p: nat)
      requires Valid() && q < PQ_COUNT && p < NPROC && !Queued(queues, p)
      modifies prioQ, prioQSize, this`procs, this`queues
      ensures Valid() && queues == Pushed(old(queues), q, p)
      ensures procs == old(procs)[p := old(procs)[p].(q := q, pos := procs[p].pos)]
    {
      ghost var qs := queues;
      PushedKeeps(queues, q, p);
      QueuesStaySmall(Pushed(queues, q, p), q);
      assert Ring(q, queues[q]);
      var b := BackIndex(q);
      procs := procs[p := procs[p].(q := q, pos := b)];
      prioQ[q, b] := p;
      prioQSize[q] := prioQSize[q] + 1;
      queues := Pushed(queues, q, p);
      forall r | 0 <= r < PQ_COUNT ensures Ring(r, queues[r]) {
        assert old(Ring(r, qs[r]));
      }
      forall r, k, x | At(queues, r, k, x) ensures Placed(r, k, x) {
        if x != p {
          assert At(qs, r, k, x);
          assert old(Placed(r, k, x));
        } else {
          assert At(queues, q, |qs[q]|, p);
        }
      }
    }

    ghost predicate Shifting(qs: Queues, was: seq<Proc>, q: nat, k: nat, j: nat)
      reads this, prioQ, prioQStart
    {
      && Shape() && OncePerProcess(qs) && |was| == NPROC && q < PQ_COUNT && prioQStart[q] < MAX_PROC_COUNT
      && k <= j < |qs[q]| <= NPROC && Shifted(q, qs[q], k, j)
      && PositionsShifted(was, procs, prioQStart[q], qs[q], k, j)
    }

    /** The loop body of deleteIdx. */
    method ShiftOne(q: nat, i: nat, ghost qs: Queues, ghost was: seq<Proc>, ghost k: nat, ghost j: nat)
      requires Shifting(qs, was, q, k, j) && j + 1 < |qs[q]| && i == Slot(prioQStart[q], j)
      modifies prioQ, this`procs
      ensures Shifting(qs, was, q, k, j + 1)
      ensures forall r, y :: 0 <= r < PQ_COUNT && r != q && 0 <= y < MAX_PROC_COUNT ==> prioQ[r, y] == old(prioQ[r, y])
    {
      ghost var s := qs[q];
      assert At(qs, q, j + 1, s[j + 1]);
      SlotNext(prioQStart[q], j);
      assert prioQ[q, Slot(prioQStart[q], j + 1)] == MovedUp(s, k, j, j + 1) == s[j + 1];
      prioQ[q, i] := prioQ[q, (i + 1) % MAX_PROC_COUNT];
      var p := prioQ[q, i];
      assert p == s[j + 1];
      procs := procs[p := procs[p].(pos := i)];
      forall m | 0 <= m < |s| ensures At(qs, q, m, s[m]) {
      }
      forall m | 0 <= m < |s| && m != j + 1 ensures prioQ[q, Slot(prioQStart[q], m)] == MovedUp(s, k, j + 1, m) {
        if m != j {
          assert old(prioQ[q, Slot(prioQStart[q], m)]) == MovedUp(s, k, j, m);
        }
      }
    }

    /** The loop of deleteIdx. */
    method ShiftAll(q: nat, idx: nat, bi: nat, ghost qs: Queues, ghost was: seq<Proc>, ghost k: nat)
      requires q < PQ_COUNT && Shape() && prioQStart[q] < MAX_PROC_COUNT && k < |qs[q]| <= NPROC
      requires Shifting(qs, was, q, k, k) && idx == Slot(prioQStart[q], k) && bi == Slot(prioQStart[q], |qs[q]| - 1)
      modifies prioQ, this`procs
      ensures Shifting(qs, was, q, k, |qs[q]| - 1) && (idx == bi ==> prioQ[q, idx] == old(prioQ[q, idx]))
      ensures forall r, y :: 0 <= r < PQ_COUNT && r != q && 0 <= y < MAX_PROC_COUNT ==> prioQ[r, y] == old(prioQ[r, y])
    {
      hide Shifting;
      var i := idx;
      ghost var j := k;
      while i != bi
        invariant k <= j < |qs[q]| && i == Slot(prioQStart[q], j) && Shifting(qs, was, q, k, j)
        invariant idx == bi ==> i == bi && prioQ[q, idx] == old(prioQ[q, idx])
        invariant forall r, y :: 0 <= r < PQ_COUNT && r != q && 0 <= y < MAX_PROC_COUNT ==>
          prioQ[r, y] == old(prioQ[r, y])
        decreases |qs[q]| - j
      {
        SlotNext(prioQStart[q], j);
        ShiftOne(q, i, qs, was, k, j);
        i := (i + 1) % MAX_PROC_COUNT;
        j := j + 1;
      }
    }

    /** deleteIdx on the ring: the slot is emptied and those behind it move up. False is the panic. */
    method CloseGap(q: nat, idx: nat, ghost k: nat) returns (ok: bool)
      requires Valid() && q < PQ_COUNT && k < |queues[q]| && idx == Slot(prioQStart[q], k)
      modifies prioQ, prioQSize, this`procs
      ensures ok && Shifting(queues, old(procs), q, k, |queues[q]| - 1) && prioQSize[q] == |queues[q]| - 1
      ensures forall r, y :: 0 <= r < PQ_COUNT && r != q && 0 <= y < MAX_PROC_COUNT ==> prioQ[r, y] == old(prioQ[r, y])
      ensures forall r :: 0 <= r < PQ_COUNT && r != q ==> prioQSize[r] == old(prioQSize[r])
      ensures k == |queues[q]| - 1 ==> prioQ[q, idx] == -1
    {
      ghost var s := queues[q];
      assert Ring(q, s) && At(queues, q, k, s[k]);
      if prioQ[q, idx] < 0 {
        return false;
      }
      prioQ[q, idx] := -1;
      prioQSize[q] := prioQSize[q] - 1;
      var bi := (prioQStart[q] + prioQSize[q]) % MAX_PROC_COUNT;
      assert bi == Slot(prioQStart[q], |s| - 1);
      ShiftAll(q, idx, bi, queues, procs, k);
      ok := true;
    }

    /** deleteIdx: the element at `idx`, position `k` of queue `q`, is taken out; those behind it move up one slot
        and their recorded positions with them. False is the panic on an empty slot. */
    method DeleteIdx(q: nat, idx: nat, ghost k: nat) returns (ok: bool)
      requires Valid() && q < PQ_COUNT && k < |queues[q]| && idx == Slot(prioQStart[q], k)
      modifies prioQ, prioQSize, this`procs, this`queues
      ensures ok && Valid() && queues == Deleted(old(queues), q, k)
      ensures k == |old(queues)[q]| - 1 ==> prioQ[q, idx] == -1
      ensures |procs| == |old(procs)|
      ensures forall x :: 0 <= x < |procs| ==> procs[x] == old(procs)[x].(pos := procs[x].pos)
      ensures forall p :: 0 <= p < |procs| && At(old(queues), q, k, p) ==> procs[p] == old(procs)[p]
    {
      hide PositionsShifted, Shifted, OncePerProcess, Slot;
      ghost var qs := queues;
      ok := CloseGap(q, idx, k);
      RingAfterShift(q, qs[q], k);
      DeletedKeeps(qs, q, k);
      queues := Deleted(queues, q, k);
      forall r | 0 <= r < PQ_COUNT ensures Ring(r, queues[r]) {
        if r != q {
          assert old(Ring(r, qs[r]));
        }
      }
      forall r, l, x | At(queues, r, l, x) ensures Placed(r, l, x) {
        PlacesShifted(qs, old(procs), procs, prioQStart[q], q, k, r, l, x);
        AtDeleted(qs, q, k, r, l, x);
        assert old(Placed(r, if r == q && l >= k then l + 1 else l, x));
      }
      OnlyPositions(qs, old(procs), procs, prioQStart[q], q, k);
    }

    lemma RingAfterShift(q: nat, s: seq<nat>, k: nat)
      requires Shape() && q < PQ_COUNT && prioQStart[q] < MAX_PROC_COUNT && k < |s| <= NPROC
      requires Shifted(q, s, k, |s| - 1) && prioQSize[q] == |s| - 1
      ensures Ring(q, Without(s, k))
    {
      forall m | 0 <= m < |s| - 1 ensures prioQ[q, Slot(prioQStart[q], m)] == Without(s, k)[m] {
        assert MovedUp(s, k, |s| - 1, m) == Without(s, k)[m];
      }
    }

    /** The ring while position `j` is the hole: what was behind `k` has moved up as far as `j`. */
    ghost predicate Shifted(q: nat, s: seq<nat>, k: nat, j: nat)
      requires Shape() && q < PQ_COUNT && prioQStart[q] < MAX_PROC_COUNT && k <= j < |s| <= NPROC
      reads this, prioQ, prioQStart
    {
      forall m :: 0 <= m < |s| && m != j ==> prioQ[q, Slot(prioQStart[q], m)] == MovedUp(s, k, j, m)
    }

    /** incPrio: `p`, at position `k` of queue `q`, moves to the end of the next queue up. False is a panic. */
    method IncPrio(p: nat, ghost q: nat, ghost k: nat) returns (ok: bool)
      requires Valid() && Inv(Abs()) && At(queues, q, k, p)
      modifies prioQ, prioQSize, this`procs, this`queues
      ensures ok && Valid() && queues == Promoted(old(queues), q, k)
      ensures JobsOf(procs) == old(JobsOf(procs))[p := JobOf(old(procs)[p]).(q := Up(q))]
      ensures var rest := old(queues)[q][..k] + old(queues)[q][k + 1..];
        if q == 0 then queues == old(queues)[0 := rest + [p]]
        else queues == old(queues)[q := rest][q - 1 := old(queues)[q - 1] + [p]]
    {
      hide Inv, JobsOf;
      assert Placed(q, k, p);
      QueuesStaySmall(queues, q);
      var queueIdx, qPos := procs[p].q, procs[p].pos;
      if queueIdx < 0 || qPos < 0 {
        return false;
      }
      ghost var s := Abs();
      PidGone(s, q, k, p);
      DeletedKeeps(queues, q, k);
      ok := DeleteIdx(queueIdx, qPos, k);
      SameJobs(old(procs), procs);
      assert queues == Deleted(s.queues, q, k);
      if queueIdx == 0 {
        PushBack(queueIdx, p);
      } else {
        PushBack(queueIdx - 1, p);
      }
    }

    /** decPrio: `p` goes to the end of its own queue or the next one down. False is a panic. */
    method DecPrio(p: nat, retain: bool) returns (ok: bool)
      requires Valid() && p < NPROC && procs[p].q < PQ_COUNT
      requires procs[p].q >= 0 && Queued(queues, p) ==> InQueue(queues, Down(procs[p].q, retain), p)
      modifies prioQ, prioQSize, this`procs, this`queues
      ensures Valid() && (ok <==> old(procs)[p].q >= 0)
      ensures ok ==> Abs() == Demoted(old(Abs()), p, retain)
      ensures !ok ==> queues == old(queues) && procs == old(procs)
    {
      hide JobsOf;
      var queueIdx := procs[p].q;
      if queueIdx < 0 {
        return false;
      }
      JobsOfUpdate(procs, p, procs[p].(latest := ticks));
      procs := procs[p := procs[p].(latest := ticks)];
      forall r, l, x | At(queues, r, l, x) ensures Placed(r, l, x) {
        assert old(Placed(r, l, x));
      }
      if queueIdx == PQ_COUNT - 1 || retain {
        PushBack(queueIdx, p);
      } else {
        PushBack(queueIdx + 1, p);
      }
      ok := true;
    }

    // --------------------------------------------------------------- the callers

    /** A store into one slot that leaves its recorded place alone. */
    method Store(p: nat, r: Proc)
      requires Valid() && p < NPROC && r.q == procs[p].q && r.pos == procs[p].pos
      modifies this`procs
      ensures Valid() && procs == old(procs)[p := r] && Abs() == SetJob(old(Abs()), p, JobOf(r))
    {
      hide JobsOf;
      JobsOfUpdate(procs, p, r);
      procs := procs[p := r];
      forall q, k, x | At(queues, q, k, x) ensures Placed(q, k, x) {
        assert old(Placed(q, k, x));
      }
    }

    /** initProcMyStyle, from allocproc: the new process enters the highest queue. */
    method InitProc(p: nat)
      requires Valid() && Inv(Abs()) && Enabled(Abs(), Enter(p))
      modifies prioQ, prioQSize, this`procs, this`queues
      ensures Valid() && Abs() == Then(old(Abs()), Enter(p))
      ensures queues == if p in old(queues)[0] then old(queues) else old(queues)[0 := old(queues)[0] + [p]]
      ensures procs[p].q == 0 && procs[p].latest == ticks && procs[p].state == Embryo
    {
      EnterLands(Abs(), p);
      PushesAreClear(Abs(), Enter(p));
      hide Inv, JobsOf, PushedBack;
      PushBack(0, p);
      Store(p, procs[p].(latest := ticks));
      JobIs(procs, p, Abs().jobs[p]);
    }

    /** The loop body of wakeup1 at a sleeper. */
    method Wakeup(p: nat)
      requires Valid() && Inv(Abs()) && Enabled(Abs(), Wake(p))
      modifies prioQ, prioQSize, this`procs, this`queues
      ensures Valid() && Abs() == Then(old(Abs()), Wake(p))
      ensures var q := old(procs)[p].q;
        && 0 <= q < PQ_COUNT
        && queues == (if p in old(queues)[q] then old(queues) else old(queues)[q := old(queues)[q] + [p]])
        && procs[p].q == q && procs[p].state == Runnable && procs[p].latest == old(procs)[p].latest
    {
      WakeLands(Abs(), p);
      PushesAreClear(Abs(), Wake(p));
      hide Inv, JobsOf, PushedBack;
      PushBack(procs[p].q, p);
      Store(p, procs[p].(state := Runnable));
    }

    /** The process gives up the CPU in state `st`, and the scheduler puts it back: a runnable one that has used its
        whole slice at the end of the next queue down, one that sleeps or was preempted earlier at the end of its
        own. */
    method SwitchBack(p: nat, st: ProcState) returns (ok: bool)
      requires Valid() && Inv(Abs()) && Enabled(Abs(), SwitchOut(p, st))
      modifies prioQ, prioQSize, this`procs, this`queues
      ensures ok && Valid() && Abs() == Then(old(Abs()), SwitchOut(p, st))
      ensures procs[p].state == st && 0 <= old(procs)[p].q < 5
      ensures var q, ran := old(procs)[p].q, ticks - old(procs)[p].latest;
        if st == Runnable && ran == [1, 2, 4, 8, 16][q] then
          var d := if q == 4 then 4 else q + 1;
          procs[p].q == d && procs[p].latest == ticks && queues == old(queues)[d := old(queues)[d] + [p]]
        else if st == Sleeping || (st == Runnable && 0 < ran < [1, 2, 4, 8, 16][q]) then
          procs[p].q == q && procs[p].latest == ticks && queues == old(queues)[q := old(queues)[q] + [p]]
        else procs[p].q == q && queues == old(queues)
    {
      hide Inv, JobsOf, Demoted, Queued, InQueue, ClearToPush;
      SwitchOutLands(Abs(), p, st);
      PushesAreClear(Abs(), SwitchOut(p, st));
      Store(p, procs[p].(state := st));
      var queueIdx, procTcks := procs[p].q, ticks - procs[p].latest;
      ok := true;
      if procs[p].state == Sleeping || (procs[p].state == Runnable && procTcks > 0 && procTcks < Slice(queueIdx)) {
        ok := DecPrio(p, true);
      } else if procs[p].state == Runnable && procTcks == Slice(queueIdx) {
        ok := DecPrio(p, false);
      }
      JobIs(old(procs), p, old(Abs()).jobs[p]);
      JobIs(procs, p, Abs().jobs[p]);
    }

    /** The scheduler's first loop: every runnable process whose queue is empty is pushed onto it. */
    method FillEmpty() returns (ghost ops: seq<Op>)
      requires Valid() && Inv(Abs())
      modifies prioQ, prioQSize, this`procs, this`queues
      ensures Valid() && Inv(Abs()) && Run(old(Abs()), ops) && Abs() == After(old(Abs()), ops)
      ensures forall i :: 0 <= i < |ops| ==> ops[i].Refill?
      ensures forall q :: 0 <= q < PQ_COUNT ==> FilledTo(procs, old(queues)[q], queues[q], q, NPROC)
      ensures forall x :: 0 <= x < NPROC ==> procs[x] == old(procs)[x].(pos := procs[x].pos)
    {
      hide Inv, JobsOf, Valid, Then, FilledTo;
      FillNone(procs, queues);
      ops := [];
      var p := 0;
      while p < NPROC
        invariant p <= NPROC && Valid() && Inv(Abs()) && Run(old(Abs()), ops) && Abs() == After(old(Abs()), ops)
        invariant forall i :: 0 <= i < |ops| ==> ops[i].Refill?
        invariant forall q :: 0 <= q < PQ_COUNT ==> FilledTo(procs, old(queues)[q], queues[q], q, p)
        invariant forall x :: 0 <= x < NPROC ==> procs[x] == old(procs)[x].(pos := procs[x].pos)
      {
        ghost var ps, qs := procs, queues;
        var pushed := FillAt(p);
        forall q | 0 <= q < PQ_COUNT ensures FilledTo(procs, old(queues)[q], queues[q], q, p + 1) {
          FillNext(ps, procs, old(queues)[q], qs[q], queues[q], q, p);
        }
        if pushed {
          RunSnoc(old(Abs()), ops, Refill(p));
          ops := ops + [Refill(p)];
        }
        p := p + 1;
      }
    }

    /** Its body. */
    method FillAt(p: nat) returns (pushed: bool)
      requires Valid() && Inv(Abs()) && p < NPROC
      modifies prioQ, prioQSize, this`procs, this`queues
      ensures Valid() && Inv(Abs()) && (pushed <==> Enabled(old(Abs()), Refill(p)))
      ensures Abs() == if pushed then Then(old(Abs()), Refill(p)) else old(Abs())
      ensures 0 <= old(procs)[p].q < PQ_COUNT
      ensures pushed <==> old(procs)[p].state == Runnable && old(queues)[old(procs)[p].q] == []
      ensures queues == if pushed then old(queues)[old(procs)[p].q := [p]] else old(queues)
      ensures forall x :: 0 <= x < NPROC ==> procs[x] == old(procs)[x].(pos := procs[x].pos)
    {
      ghost var s := Abs();
      assert Sound(s.jobs[p], s.nextPid);
      var q := procs[p].q;
      assert Ring(q, queues[q]);
      pushed := procs[p].state == Runnable && prioQSize[q] == 0;
      if pushed {
        StepKeepsInv(s, Refill(p));
        PushesAreClear(s, Refill(p));
        PushBack(q, p);
        assert [] + [p] == [p];
        assert procs == old(procs)[p := old(procs)[p].(pos := procs[p].pos)];
      }
    }

    /** getFront of a queue that is not empty. */
    method Front(q: nat) returns (p: nat)
      requires Valid() && q < PQ_COUNT && queues[q] != []
      ensures p == queues[q][0] && p < |procs|
    {
      assert Ring(q, queues[q]) && At(queues, q, 0, queues[q][0]);
      assert Slot(prioQStart[q], 0) == prioQStart[q];
      p := prioQ[q, prioQStart[q]];
    }

    ghost predicate EmptyBelow(n: nat)
      reads this
    {
      n <= PQ_COUNT && forall i :: 0 <= i < n ==> queues[i] == []
    }

    /** The scheduler's second loop: dead processes are popped until the front of the first queue that is not
        empty is alive. */
    method PickNext() returns (found: bool, p: nat, ghost q: nat, ghost ops: seq<Op>)
      requires Valid()
      modifies prioQSize, prioQStart, this`queues
      ensures Valid() && Run(old(Abs()), ops) && Abs() == After(old(Abs()), ops)
      ensures forall i :: 0 <= i < |ops| ==> ops[i].PopDead?
      ensures if found then FrontOf(queues, q) && p == queues[q][0] < |procs| && !Dead(JobOf(procs[p]))
        else EmptyBelow(PQ_COUNT)
      ensures found ==> procs[p].state == Runnable && !procs[p].killed && procs[p].pid != 0
      ensures forall r :: 0 <= r < PQ_COUNT && (found ==> r <= q) ==> Dropped(procs, old(queues)[r], queues[r])
      ensures forall r :: 0 <= r < PQ_COUNT && found && q < r ==> queues[r] == old(queues)[r]
    {
      hide JobsOf, Valid, Then, Dropped;
      found, p, q, ops := false, 0, 0, [];
      var i := 0;
      while i < PQ_COUNT
        invariant i <= PQ_COUNT && Valid() && Run(old(Abs()), ops) && Abs() == After(old(Abs()), ops) && EmptyBelow(i)
        invariant forall i :: 0 <= i < |ops| ==> ops[i].PopDead?
        invariant forall r :: 0 <= r < i ==> Dropped(procs, old(queues)[r], queues[r])
        invariant forall r :: i <= r < PQ_COUNT ==> queues[r] == old(queues)[r]
      {
        ghost var more;
        found, p, more := DropDead(i);
        RunAppend(old(Abs()), ops, more);
        ops := ops + more;
        if found {
          q := i;
          return;
        }
        i := i + 1;
      }
    }

    /** Its inner loop, over queue `i`. */
    method DropDead(i: nat) returns (found: bool, p: nat, ghost ops: seq<Op>)
      requires Valid() && i < PQ_COUNT && EmptyBelow(i)
      modifies prioQSize, prioQStart, this`queues
      ensures Valid() && EmptyBelow(i) && Run(old(Abs()), ops) && Abs() == After(old(Abs()), ops)
      ensures forall i :: 0 <= i < |ops| ==> ops[i].PopDead?
      ensures if found then queues[i] != [] && p == queues[i][0] < |procs| && !Dead(JobOf(procs[p]))
        else queues[i] == []
      ensures found ==> procs[p].state == Runnable && !procs[p].killed && procs[p].pid != 0
      ensures queues == old(queues)[i := queues[i]] && Dropped(procs, old(queues)[i], queues[i])
    {
      hide JobsOf, Then, Slot, Dropped, OncePerProcess, Placed, At;
      found, p, ops := false, 0, [];
      assert Ring(i, queues[i]);
      DropNone(procs, queues[i]);
      while prioQSize[i] > 0
        invariant Valid() && EmptyBelow(i) && prioQSize[i] == |queues[i]| && Run(old(Abs()), ops)
        invariant Abs() == After(old(Abs()), ops)
        invariant forall i :: 0 <= i < |ops| ==> ops[i].PopDead?
        invariant queues == old(queues)[i := queues[i]] && Dropped(procs, old(queues)[i], queues[i])
        decreases prioQSize[i]
      {
        p := Front(i);
        if !(procs[p].killed || procs[p].pid == 0 || procs[p].state != Runnable) {
          return true, p, ops;
        }
        DropOne(procs, old(queues)[i], queues[i]);
        PopOne(i, old(Abs()), ops);
        ops := ops + [PopDead(i)];
        assert Ring(i, queues[i]);
      }
    }

    method PopOne(i: nat, ghost s: State, ghost ops: seq<Op>)
      requires Valid() && Enabled(Abs(), PopDead(i)) && Run(s, ops) && Abs() == After(s, ops)
      modifies prioQSize, prioQStart, this`queues
      ensures Valid() && queues == Popped(old(queues), i) && queues == old(queues)[i := old(queues)[i][1..]]
      ensures Run(s, ops + [PopDead(i)])
      ensures Abs() == After(s, ops + [PopDead(i)])
    {
      RunSnoc(s, ops, PopDead(i));
      var ok, x := PopFront(i);
    }

    /** One turn of the scheduler up to swtch. `ops` are the steps it took. */
    method Schedule() returns (found: bool, p: nat, ghost ops: seq<Op>)
      requires Valid() && Inv(Abs())
      modifies this, prioQ, prioQSize, prioQStart
      ensures Valid() && Inv(Abs()) && Run(old(Abs()), ops) && Abs() == After(old(Abs()), ops)
      ensures if found then ops != [] && ops[|ops| - 1] == Pick(p) else EmptyBelow(PQ_COUNT)
      ensures found ==>
        p < NPROC && procs[p].state == Running && procs[p].latest == ticks == old(ticks) && !Queued(queues, p)
    {
      hide Inv, JobsOf, Valid, Then;
      ghost var s := Abs();
      ghost var fills, pops: seq<Op>, q: nat;
      fills := FillEmpty();
      found, p, q, pops := PickNext();
      RunAppend(s, fills, pops);
      ops := fills + pops;
      RunInv(s, ops);
      if found {
        ghost var u := Abs();
        TakeFront(p, q);
        RunSnoc(s, ops, Pick(p));
        StepKeepsInv(u, Pick(p));
        ops := ops + [Pick(p)];
      }
    }

    /** popFront of the queue it records, and the process is running. */
    method TakeFront(p: nat, ghost q: nat)
      requires Valid() && Inv(Abs()) && FrontOf(queues, q) && p == queues[q][0] < NPROC && !Dead(JobOf(procs[p]))
      modifies prioQSize, prioQStart, this`procs, this`queues
      ensures Enabled(old(Abs()), Pick(p)) && Valid() && Abs() == Then(old(Abs()), Pick(p))
      ensures queues == old(queues)[q := old(queues)[q][1..]] && !Queued(queues, p)
      ensures procs == old(procs)[p := old(procs)[p].(latest := ticks, state := Running)]
    {
      ghost var s := Abs();
      assert Sound(s.jobs[p], s.nextPid);
      assert Enabled(s, Pick(p));
      PickKeeps(s, p);
      hide Inv, JobsOf;
      var ok, x := PopFront(procs[p].q);
      Store(p, procs[p].(latest := ticks, state := Running));
    }

    /** updateStatsAndAging. False is a panic. */
    method UpdateStatsAndAging() returns (ok: bool)
      requires Valid() && Inv(Abs()) && Enabled(Abs(), Aging)
      modifies this, prioQ, prioQSize
      ensures ok && Valid() && Abs() == Then(old(Abs()), Aging) && ticks == old(ticks) + 1
      ensures forall p :: 0 <= p < NPROC ==>
        && 0 <= old(procs)[p].q < 5
        && (var was := old(procs)[p];
            var due := was.state == Runnable && !was.killed && was.pid != 0
                && ticks - was.latest + 1 >= [84, 83, 82, 81, 80][was.q];
            procs[p].(pos := was.pos) == if due && was.q > 0 then was.(q := was.q - 1) else was)
    {
      hide Inv, Valid, Aged, JobsOf;
      AgingLands(Abs());
      Tick();
      ghost var s := Abs();
      AgedZero(s);
      ok := true;
      var p := 0;
      while p < NPROC
        invariant p <= NPROC && ok && Valid() && Inv(s) && Aged(s, NPROC).Some? && Aged(s, p) == Some(Abs())
      {
        ok := LookAt(p, s);
        p := p + 1;
      }
      forall x | 0 <= x < NPROC ensures JobOf(old(procs)[x]) == old(Abs()).jobs[x] && JobOf(procs[x]) == Abs().jobs[x] {
      }
    }

    method Tick()
      requires Valid() && Inv(Abs())
      modifies this`ticks
      ensures Valid() && Inv(Abs()) && Abs() == old(Abs()).(ticks := old(ticks) + 1)
    {
      ticks := ticks + 1;
      forall r, l, x | At(queues, r, l, x) ensures Placed(r, l, x) {
        assert old(Placed(r, l, x));
      }
    }

    /** The loop body of updateStatsAndAging. */
    method LookAt(p: nat, ghost s: State) returns (ok: bool)
      requires Valid() && Inv(s) && p < NPROC && Aged(s, NPROC).Some? && Aged(s, p) == Some(Abs())
      modifies prioQ, prioQSize, this`procs, this`queues
      ensures ok && Valid() && Aged(s, p + 1) == Some(Abs())
    {
      hide JobsOf, Promoted, OncePerProcess, Recorded, Slot;
      ghost var t := Abs();
      AgedPost(s, p);
      AgedSooner(s, p + 1, NPROC);
      ok := true;
      if procs[p].killed || procs[p].pid == 0 || procs[p].state != Runnable {
        return;
      }
      assert Sound(t.jobs[p], t.nextPid);
      var qIdx := procs[p].q;
      var tcks := ticks - procs[p].latest + 1;
      if tcks >= WAIT_LIMIT[qIdx] {
        ghost var k :| At(queues, qIdx, k, p) && AgedAt(t, p).queues == Promoted(queues, qIdx, k);
        ok := IncPrio(p, qIdx, k);
      }
    }
  }
}
