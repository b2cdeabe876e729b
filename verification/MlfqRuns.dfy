/**
 * Everything the kernel does with the queues: forks that succeed or fail, the scheduler, sleeping and waking,
 * kill, exit, wait and aging, in any order. Each step is what the C code does under the process table's lock;
 * no step assumes that the process it pushes is in no other queue.
 */
module MlfqRuns {
  import opened Common
  import opened Mlfq

  datatype ProcState = Unused | Embryo | Sleeping | Runnable | Running | Zombie

  /** The fields of struct proc that matter here; `q` is stat.allotedQ[0], `latest` is latestQTime. */
  datatype Job = Job(pid: nat, state: ProcState, killed: bool, q: int, latest: int)

  type Jobs = js: seq<Job> | |js| == NPROC ghost witness seq(NPROC, _ => Job(0, Unused, false, 0, 0))

  datatype State = State(jobs: Jobs, queues: Queues, ticks: int, nextPid: nat)

  /** procIsDead. */
  predicate Dead(j: Job) {
    j.killed || j.pid == 0 || j.state != Runnable
  }

  /** WAIT_LIMIT: 84, 83, 82, 81, 80. */
  function Limit(q: int): int {
    84 - q
  }

  /** The time slice of queue `q` in ticks: 1, 2, 4, 8, 16. */
  function Slice(q: int): (r: int)
    ensures r >= 1
  {
    if q <= 0 then 1 else 2 * Slice(q - 1)
  }

  /** Aging moves this process up at time `now`. */
  predicate Due(j: Job, now: int) {
    !Dead(j) && now - j.latest + 1 >= Limit(j.q)
  }

  // -------------------------------------------------------------------- steps

  /** The scan of pushBack: it looks for the pid of `p`, and in queue `q` only. */
  ghost predicate PidIn(jobs: Jobs, s: seq<nat>, pid: nat) {
    exists k :: 0 <= k < |s| && s[k] < NPROC && jobs[s[k]].pid == pid
  }

  /** pushBack. */
  ghost function PushedBack(s: State, q: nat, p: nat): State
    requires q < PQ_COUNT && p < NPROC
  {
    if PidIn(s.jobs, s.queues[q], s.jobs[p].pid) then s
    else s.(jobs := s.jobs[p := s.jobs[p].(q := q)], queues := Pushed(s.queues, q, p))
  }

  /** decPrio. */
  ghost function Demoted(s: State, p: nat, retain: bool): State
    requires p < NPROC && 0 <= s.jobs[p].q < PQ_COUNT
  {
    PushedBack(s.(jobs := s.jobs[p := s.jobs[p].(latest := s.ticks)]), Down(s.jobs[p].q, retain), p)
  }

  /** What the scheduler does once `p`, now in state `st`, has given up the CPU: it goes back to its queue, to the
      next one down, or to none. */
  ghost function SwitchedOut(s: State, p: nat, st: ProcState): State
    requires p < NPROC && 0 <= s.jobs[p].q < PQ_COUNT
  {
    var t := s.(jobs := s.jobs[p := s.jobs[p].(state := st)]);
    var ran := s.ticks - s.jobs[p].latest;
    var slice := Slice(s.jobs[p].q);
    if st == Sleeping || (st == Runnable && 0 < ran < slice) then Demoted(t, p, true)
    else if st == Runnable && ran == slice then Demoted(t, p, false)
    else t
  }

  /** updateStatsAndAging at slot `p`, when it finds a due process where it is recorded. */
  ghost function AgedAt(s: State, p: nat): State
    requires p < NPROC && (Due(s.jobs[p], s.ticks) ==> InQueue(s.queues, s.jobs[p].q, p))
  {
    if !Due(s.jobs[p], s.ticks) then s
    else
      var q := s.jobs[p].q;
      var k :| At(s.queues, q, k, p);
      State(s.jobs[p := s.jobs[p].(q := Up(q))], Promoted(s.queues, q, k), s.ticks, s.nextPid)
  }

  /** The first `n` slots of an aging call, or None if it had to promote a process that is not in the queue it
      records. */
  ghost function Aged(s: State, n: nat): (r: Option<State>)
    requires n <= NPROC
  {
    if n == 0 then Some(s)
    else
      match Aged(s, n - 1)
      case None => None
      case Some(t) =>
        if Due(t.jobs[n - 1], t.ticks) && !InQueue(t.queues, t.jobs[n - 1].q, n - 1) then None
        else Some(AgedAt(t, n - 1))
  }

  datatype Op =
    | Alloc(p: nat)                     // allocproc takes the slot
    | Enter(p: nat)                     // initProcMyStyle: the new process enters the highest queue
    | Abandon(p: nat)                   // no memory for the new process: the slot is free again, queued or not
    | Start(p: nat)                     // fork or userinit lets it run
    | Refill(p: nat)                    // the scheduler's first loop, at a process whose queue is empty
    | PopDead(q: nat)                   // its second loop, at a dead process
    | Pick(p: nat)                      // it runs the process at the front
    | SwitchOut(p: nat, st: ProcState)  // yield, sleep or exit, and the scheduler's code after swtch
    | Wake(p: nat)                      // wakeup1 at a sleeper
    | Kill(p: nat)
    | Reap(p: nat)                      // wait or waitx collects the process
    | Aging                             // a clock tick

  /** Where the scheduler looks: the first queue that is not empty. */
  ghost predicate FrontOf(qs: Queues, q: nat) {
    q < PQ_COUNT && qs[q] != [] && forall r :: 0 <= r < q ==> qs[r] == []
  }

  /** `p` has a queue; no invariant is assumed here, but `Sound` says that each has. */
  predicate HasQueue(s: State, p: nat) {
    p < NPROC && 0 <= s.jobs[p].q < PQ_COUNT
  }

  /** When the code takes the step. For aging this includes that it finds every process it promotes, which
      `AgingNeedsPlaces` resolves. */
  ghost predicate Enabled(s: State, op: Op) {
    match op
    case Alloc(p) => p < NPROC && s.jobs[p].state == Unused && forall x :: 0 <= x < p ==> s.jobs[x].state != Unused
    case Enter(p) => p < NPROC && s.jobs[p].state == Embryo
    case Abandon(p) => p < NPROC && s.jobs[p].state == Embryo
    case Start(p) => p < NPROC && s.jobs[p].state == Embryo
    case Refill(p) => HasQueue(s, p) && s.jobs[p].state == Runnable && s.queues[s.jobs[p].q] == []
    case PopDead(q) => FrontOf(s.queues, q) && s.queues[q][0] < NPROC && Dead(s.jobs[s.queues[q][0]])
    case Pick(p) => HasQueue(s, p) && !Dead(s.jobs[p]) && exists q: nat :: FrontOf(s.queues, q) && s.queues[q][0] == p
    case SwitchOut(p, st) => HasQueue(s, p) && s.jobs[p].state == Running && st in {Runnable, Sleeping, Zombie}
    case Wake(p) => HasQueue(s, p) && s.jobs[p].state == Sleeping
    case Kill(p) => p < NPROC && forall x :: 0 <= x < p ==> s.jobs[x].pid != s.jobs[p].pid
    case Reap(p) => p < NPROC && s.jobs[p].state == Zombie
    case Aging => Aged(s.(ticks := s.ticks + 1), NPROC).Some?
  }

  function SetJob(s: State, p: nat, j: Job): State
    requires p < NPROC
  {
    s.(jobs := s.jobs[p := j])
  }

  function KilledJob(j: Job): Job {
    j.(killed := true, state := if j.state == Sleeping then Runnable else j.state)
  }

  ghost function Then(s: State, op: Op): State
    requires Enabled(s, op)
  {
    match op
    case Alloc(p) => SetJob(s, p, s.jobs[p].(state := Embryo, pid := s.nextPid)).(nextPid := s.nextPid + 1)
    case Enter(p) => var t := PushedBack(s, 0, p); SetJob(t, p, t.jobs[p].(latest := s.ticks))
    case Abandon(p) => SetJob(s, p, s.jobs[p].(state := Unused))
    case Start(p) => SetJob(s, p, s.jobs[p].(state := Runnable))
    case Refill(p) => PushedBack(s, s.jobs[p].q, p)
    case PopDead(q) => s.(queues := Popped(s.queues, q))
    case Pick(p) =>
      var q := s.jobs[p].q;
      var t := SetJob(s, p, s.jobs[p].(state := Running, latest := s.ticks));
      if s.queues[q] == [] then t else t.(queues := Popped(s.queues, q))
    case SwitchOut(p, st) => SwitchedOut(s, p, st)
    case Wake(p) => var t := PushedBack(s, s.jobs[p].q, p); SetJob(t, p, t.jobs[p].(state := Runnable))
    case Kill(p) => SetJob(s, p, KilledJob(s.jobs[p]))
    case Reap(p) => SetJob(s, p, s.jobs[p].(pid := 0, killed := false, state := Unused))
    case Aging => Aged(s.(ticks := s.ticks + 1), NPROC).value
  }

  // ---------------------------------------------------------------- invariant

  predicate Sound(j: Job, nextPid: nat) {
    0 <= j.q < PQ_COUNT && j.pid < nextPid && (j.state != Unused ==> j.pid != 0)
  }

  /** What a process may be while it is in queue `q`. */
  predicate Recorded(j: Job, q: int) {
    && j.q == q && j.pid != 0 && j.state != Running && j.state != Zombie
    && (j.state == Unused || j.state == Embryo ==> q == 0)
  }

  /** Each process is in one queue at most, the one it records; running processes and zombies are in none; a free
      or half-built slot can only be in the highest; pids differ. */
  ghost predicate Inv(s: State) {
    && OncePerProcess(s.queues) && s.nextPid > 0
    && (forall p :: 0 <= p < NPROC ==> Sound(s.jobs[p], s.nextPid))
    && (forall p, x :: 0 <= p < x < NPROC && s.jobs[p].pid == s.jobs[x].pid ==> s.jobs[p].pid == 0)
    && (forall q, k, p :: At(s.queues, q, k, p) ==> Recorded(s.jobs[p], q))
  }

  /** The tables as they are at boot. */
  function Boot(): State {
    State(seq(NPROC, _ => Job(0, Unused, false, 0, 0)), [[], [], [], [], []], 0, 1)
  }

  lemma BootInv()
    ensures Inv(Boot())
  {
  }

  lemma OwnPidIn(s: State, q: nat, p: nat)
    requires q < PQ_COUNT && p < NPROC
    ensures InQueue(s.queues, q, p) ==> PidIn(s.jobs, s.queues[q], s.jobs[p].pid)
  {
    if InQueue(s.queues, q, p) {
      var k :| At(s.queues, q, k, p);
      assert s.jobs[s.queues[q][k]].pid == s.jobs[p].pid;
    }
  }

  /** A scan by pid finds the process itself or nothing. */
  lemma PidIsProcess(s: State, q: nat, p: nat)
    requires Inv(s) && q < PQ_COUNT && p < NPROC && s.jobs[p].pid != 0
    ensures PidIn(s.jobs, s.queues[q], s.jobs[p].pid) <==> InQueue(s.queues, q, p)
  {
    OwnPidIn(s, q, p);
    if PidIn(s.jobs, s.queues[q], s.jobs[p].pid) {
      var k :| 0 <= k < |s.queues[q]| && s.queues[q][k] < NPROC && s.jobs[s.queues[q][k]].pid == s.jobs[p].pid;
      assert s.queues[q][k] == p;
      assert At(s.queues, q, k, p);
    }
  }

  /** A change to one slot that keeps its pid or clears it. */
  lemma SetJobKeeps(s: State, p: nat, j: Job)
    requires Inv(s) && p < NPROC && Sound(j, s.nextPid) && (j.pid == s.jobs[p].pid || j.pid == 0)
    requires forall q :: InQueue(s.queues, q, p) ==> Recorded(j, q)
    ensures Inv(SetJob(s, p, j))
  {
    forall q, k, x | At(s.queues, q, k, x) ensures Recorded(SetJob(s, p, j).jobs[x], q) {
      if x == p {
        assert InQueue(s.queues, q, p);
      }
    }
  }

  lemma InRecordedQueue(s: State, q: int, p: nat)
    requires Inv(s) && InQueue(s.queues, q, p)
    ensures p < NPROC && Recorded(s.jobs[p], q)
  {
    var k :| At(s.queues, q, k, p);
  }

  lemma QueuedSomewhere(qs: Queues, p: nat)
    ensures Queued(qs, p) <==> exists q :: InQueue(qs, q, p)
  {
    if Queued(qs, p) {
      var q, k :| At(qs, q, k, p);
      assert InQueue(qs, q, p);
    }
  }

  ghost predicate OthersStay(s: State, t: State, p: nat) {
    && t.ticks == s.ticks
    && forall x :: 0 <= x < NPROC && x != p ==>
         t.jobs[x] == s.jobs[x] && (InQueue(s.queues, s.jobs[x].q, x) ==> InQueue(t.queues, s.jobs[x].q, x))
  }

  /** pushBack onto `q` of a process that is in no other queue: it is in `q` afterwards, the others are where they
      were. */
  lemma PushKeeps(s: State, q: nat, p: nat)
    requires Inv(s) && q < PQ_COUNT && p < NPROC && Recorded(s.jobs[p].(q := q), q)
    requires forall r :: InQueue(s.queues, r, p) ==> r == q
    ensures var t := PushedBack(s, q, p);
      && Inv(t) && t.jobs == s.jobs[p := s.jobs[p].(q := q)] && InQueue(t.queues, q, p)
      && OthersStay(s, t, p)
  {
    PidIsProcess(s, q, p);
    if InQueue(s.queues, q, p) {
      InRecordedQueue(s, q, p);
      assert s.jobs[p := s.jobs[p].(q := q)] == s.jobs;
    } else {
      QueuedSomewhere(s.queues, p);
      PushNew(s, q, p);
    }
  }

  lemma PushNew(s: State, q: nat, p: nat)
    requires Inv(s) && q < PQ_COUNT && p < NPROC && Recorded(s.jobs[p].(q := q), q) && !Queued(s.queues, p)
    ensures var t := s.(jobs := s.jobs[p := s.jobs[p].(q := q)], queues := Pushed(s.queues, q, p));
      Inv(t) && InQueue(t.queues, q, p) && OthersStay(s, t, p)
  {
    var t := s.(jobs := s.jobs[p := s.jobs[p].(q := q)], queues := Pushed(s.queues, q, p));
    PushedKeeps(s.queues, q, p);
    assert At(t.queues, q, |s.queues[q]|, p);
    forall r, x ensures InQueue(t.queues, r, x) <==> InQueue(s.queues, r, x) || (r == q && x == p) {
      PushedInQueue(s.queues, q, p, r, x);
    }
    forall r, k, x | At(t.queues, r, k, x) ensures Recorded(t.jobs[x], r) {
      assert InQueue(t.queues, r, x);
      if x != p {
        InRecordedQueue(s, r, x);
      } else {
        assert !InQueue(s.queues, r, p) by { QueuedSomewhere(s.queues, p); }
      }
    }
  }

  lemma AllocKeeps(s: State, p: nat)
    requires Inv(s) && Enabled(s, Alloc(p))
    ensures Inv(Then(s, Alloc(p)))
  {
    var t := Then(s, Alloc(p));
    forall q, k, x | At(t.queues, q, k, x) ensures Recorded(t.jobs[x], q) {
      assert Recorded(s.jobs[x], q);
    }
  }

  /** The half-built slot may still be in the highest queue from an earlier fork that failed. */
  lemma EnterKeeps(s: State, p: nat)
    requires Inv(s) && Enabled(s, Enter(p))
    ensures var t := Then(s, Enter(p)); Inv(t) && InQueue(t.queues, 0, p) && OthersStay(s, t, p)
  {
    forall r | InQueue(s.queues, r, p) ensures r == 0 {
      InRecordedQueue(s, r, p);
    }
    PushKeeps(s, 0, p);
    var t := PushedBack(s, 0, p);
    SlotKeeps(t, p, t.jobs[p].(latest := s.ticks));
  }

  /** A change to one slot that leaves its place legitimate. */
  lemma SlotKeeps(s: State, p: nat, j: Job)
    requires Inv(s) && p < NPROC && j.q == s.jobs[p].q && (j.state != Unused ==> j.pid != 0)
    requires j.pid == s.jobs[p].pid || (j.pid == 0 && !Queued(s.queues, p))
    requires Queued(s.queues, p) ==> Recorded(j, j.q)
    ensures Inv(SetJob(s, p, j))
  {
    QueuedSomewhere(s.queues, p);
    forall q | InQueue(s.queues, q, p) ensures Recorded(j, q) {
      InRecordedQueue(s, q, p);
    }
    SetJobKeeps(s, p, j);
  }

  lemma QueuedRecorded(s: State, p: nat)
    requires Inv(s) && p < NPROC
    ensures Queued(s.queues, p) ==> Recorded(s.jobs[p], s.jobs[p].q)
  {
    if Queued(s.queues, p) {
      var q, k :| At(s.queues, q, k, p);
    }
  }

  lemma RefillKeeps(s: State, p: nat)
    requires Inv(s) && Enabled(s, Refill(p))
    ensures var t := Then(s, Refill(p)); Inv(t) && InQueue(t.queues, s.jobs[p].q, p) && OthersStay(s, t, p)
  {
    forall r | InQueue(s.queues, r, p) ensures r == s.jobs[p].q {
      InRecordedQueue(s, r, p);
    }
    PushKeeps(s, s.jobs[p].q, p);
  }

  lemma PopKeeps(s: State, q: nat)
    requires Inv(s) && q < PQ_COUNT && s.queues[q] != []
    ensures Inv(s.(queues := Popped(s.queues, q)))
    ensures forall p :: Queued(Popped(s.queues, q), p) <==> Queued(s.queues, p) && p != s.queues[q][0]
  {
    PoppedKeeps(s.queues, q);
    var qs := Popped(s.queues, q);
    forall r, k, x | At(qs, r, k, x) ensures Recorded(s.jobs[x], r) {
      assert At(s.queues, r, if r == q then k + 1 else k, x);
    }
  }

  /** The process at the front is popped from the queue it was found in. */
  lemma PickKeeps(s: State, p: nat)
    requires Inv(s) && Enabled(s, Pick(p))
    ensures Inv(Then(s, Pick(p)))
    ensures var q := s.jobs[p].q; FrontOf(s.queues, q) && s.queues[q][0] == p
    ensures Then(s, Pick(p)).queues == Popped(s.queues, s.jobs[p].q) && !Queued(Then(s, Pick(p)).queues, p)
  {
    var q: nat :| FrontOf(s.queues, q) && s.queues[q][0] == p;
    assert At(s.queues, q, 0, p);
    PopKeeps(s, q);
    SlotKeeps(s.(queues := Popped(s.queues, q)), p, s.jobs[p].(state := Running, latest := s.ticks));
  }

  lemma DemoteKeeps(s: State, p: nat, retain: bool)
    requires Inv(s) && p < NPROC && !Queued(s.queues, p) && (s.jobs[p].state == Sleeping || s.jobs[p].state == Runnable)
    ensures var t := Demoted(s, p, retain);
      Inv(t) && InQueue(t.queues, Down(s.jobs[p].q, retain), p) && OthersStay(s, t, p)
  {
    var u := SetJob(s, p, s.jobs[p].(latest := s.ticks));
    SlotKeeps(s, p, s.jobs[p].(latest := s.ticks));
    QueuedSomewhere(s.queues, p);
    PushKeeps(u, Down(s.jobs[p].q, retain), p);
  }

  lemma SwitchOutKeeps(s: State, p: nat, st: ProcState)
    requires Inv(s) && Enabled(s, SwitchOut(p, st))
    ensures Inv(Then(s, SwitchOut(p, st))) && OthersStay(s, Then(s, SwitchOut(p, st)), p)
  {
    QueuedRecorded(s, p);
    var t := SetJob(s, p, s.jobs[p].(state := st));
    SlotKeeps(s, p, s.jobs[p].(state := st));
    if st != Zombie {
      DemoteKeeps(t, p, true);
      DemoteKeeps(t, p, false);
    }
  }

  /** A sleeper is in its own queue, where pushBack passes over it, or in none. */
  lemma WakeKeeps(s: State, p: nat)
    requires Inv(s) && Enabled(s, Wake(p))
    ensures var t := Then(s, Wake(p)); Inv(t) && InQueue(t.queues, s.jobs[p].q, p) && OthersStay(s, t, p)
  {
    var q := s.jobs[p].q;
    forall r | InQueue(s.queues, r, p) ensures r == q {
      InRecordedQueue(s, r, p);
    }
    PushKeeps(s, q, p);
    var t := PushedBack(s, q, p);
    SlotKeeps(t, p, t.jobs[p].(state := Runnable));
  }

  // -------------------------------------------------------------------- aging

  lemma AgeKeeps(s: State, p: nat)
    requires Inv(s) && p < NPROC && Due(s.jobs[p], s.ticks) && InQueue(s.queues, s.jobs[p].q, p)
    ensures var t := AgedAt(s, p);
      && Inv(t) && t.ticks == s.ticks && t.nextPid == s.nextPid
      && t.jobs == s.jobs[p := s.jobs[p].(q := Up(s.jobs[p].q))]
      && (forall x :: Queued(t.queues, x) <==> Queued(s.queues, x))
  {
    var t := AgedAt(s, p);
    var q := s.jobs[p].q;
    var k :| At(s.queues, q, k, p) && t.queues == Promoted(s.queues, q, k);
    PromotedKeeps(s.queues, q, k);
    forall r, l, x | At(t.queues, r, l, x) ensures Recorded(t.jobs[x], r) {
      assert InQueue(t.queues, r, x);
      if x == p {
        InOneQueue(t.queues, r, Up(q), p);
      } else {
        InRecordedQueue(s, r, x);
      }
    }
  }

  /** A queued process is in the queue it records. */
  lemma QueuedIsRecorded(s: State, p: nat)
    requires Inv(s) && p < NPROC
    ensures Queued(s.queues, p) <==> InQueue(s.queues, s.jobs[p].q, p)
  {
    if Queued(s.queues, p) {
      var q, k :| At(s.queues, q, k, p);
    }
    if InQueue(s.queues, s.jobs[p].q, p) {
      QueuedSomewhere(s.queues, p);
    }
  }

  /** The slot after aging has looked at the first `n` of them. */
  function AgedJob(j: Job, passed: bool, now: int): Job {
    if passed && Due(j, now) then j.(q := Up(j.q)) else j
  }

  ghost predicate AgedTo(s: State, t: State, n: nat) {
    && Inv(t) && t.ticks == s.ticks && t.nextPid == s.nextPid
    && (forall p :: 0 <= p < NPROC ==> t.jobs[p] == AgedJob(s.jobs[p], p < n, s.ticks))
    && (forall p :: Queued(t.queues, p) <==> Queued(s.queues, p))
  }

  ghost predicate PlaceMissing(s: State, p: nat) {
    p < NPROC && Due(s.jobs[p], s.ticks) && !Queued(s.queues, p)
  }

  /** As far as aging gets, each due process has moved up one queue and nothing else has changed. */
  lemma {:induction false} AgedPost(s: State, n: nat)
    requires Inv(s) && n <= NPROC
    ensures Aged(s, n).Some? <==> forall p: nat :: p < n ==> !PlaceMissing(s, p)
    ensures Aged(s, n).Some? ==> AgedTo(s, Aged(s, n).value, n)
  {
    if n > 0 {
      AgedPost(s, n - 1);
      if Aged(s, n - 1).Some? {
        AgedNext(s, Aged(s, n - 1).value, n - 1);
      }
    }
  }

  lemma AgedNext(s: State, t: State, n: nat)
    requires n < NPROC && AgedTo(s, t, n)
    ensures Due(t.jobs[n], t.ticks) && !InQueue(t.queues, t.jobs[n].q, n) <==> PlaceMissing(s, n)
    ensures !PlaceMissing(s, n) ==> AgedTo(s, AgedAt(t, n), n + 1)
  {
    assert t.jobs[n] == s.jobs[n];
    QueuedIsRecorded(t, n);
    if !PlaceMissing(s, n) && Due(t.jobs[n], t.ticks) {
      AgeKeeps(t, n);
    }
  }

  lemma AgedZero(s: State)
    ensures Aged(s, 0) == Some(s)
  {
  }

  lemma {:induction false} AgedSooner(s: State, n: nat, m: nat)
    requires n <= m <= NPROC && Aged(s, m).Some?
    ensures Aged(s, n).Some?
  {
    if n < m {
      AgedSooner(s, n, m - 1);
    }
  }

  /** No other process has the pid of one that has left its place. */
  lemma PidGone(s: State, q: nat, k: nat, p: nat)
    requires Inv(s) && At(s.queues, q, k, p)
    ensures forall r: nat :: r < PQ_COUNT ==> !PidIn(s.jobs, Deleted(s.queues, q, k)[r], s.jobs[p].pid)
  {
    var ds := Deleted(s.queues, q, k);
    DeletedKeeps(s.queues, q, k);
    forall r: nat, l | r < PQ_COUNT && 0 <= l < |ds[r]| && ds[r][l] < NPROC
      ensures s.jobs[ds[r][l]].pid != s.jobs[p].pid
    {
      assert At(ds, r, l, ds[r][l]);
      assert Queued(ds, ds[r][l]);
    }
  }

  /** An aging call is a series of proper promotions exactly when every process that is due is in a queue. */
  lemma AgingNeedsPlaces(s: State)
    requires Inv(s)
    ensures Enabled(s, Aging) <==> forall p :: 0 <= p < NPROC && Due(s.jobs[p], s.ticks + 1) ==> Queued(s.queues, p)
    ensures Enabled(s, Aging) ==> AgedTo(s.(ticks := s.ticks + 1), Then(s, Aging), NPROC)
  {
    var t := s.(ticks := s.ticks + 1);
    AgedPost(t, NPROC);
    if p: nat :| PlaceMissing(t, p) {
      assert Due(s.jobs[p], s.ticks + 1) && !Queued(s.queues, p);
    }
    if p :| 0 <= p < NPROC && Due(s.jobs[p], s.ticks + 1) && !Queued(s.queues, p) {
      assert PlaceMissing(t, p);
    }
  }

  // --------------------------------------------------------------------- runs

  lemma StepKeepsInv(s: State, op: Op)
    requires Inv(s) && Enabled(s, op)
    ensures Inv(Then(s, op))
  {
    hide Inv, Aged, PushedBack, SwitchedOut, Due;
    match op
    case Alloc(p) => AllocKeeps(s, p);
    case Enter(p) => EnterKeeps(s, p);
    case Refill(p) => RefillKeeps(s, p);
    case PopDead(q) => PopKeeps(s, q);
    case Pick(p) => PickKeeps(s, p);
    case SwitchOut(p, st) => SwitchOutKeeps(s, p, st);
    case Wake(p) => WakeKeeps(s, p);
    case Aging => AgingNeedsPlaces(s);
    case _ => SlotStepKeeps(s, op);
  }

  /** The steps that change one slot and no queue. */
  lemma SlotStepKeeps(s: State, op: Op)
    requires Inv(s) && Enabled(s, op) && (op.Abandon? || op.Start? || op.Kill? || op.Reap?)
    ensures Inv(Then(s, op))
  {
    if Queued(s.queues, op.p) {
      var q, k :| At(s.queues, q, k, op.p);
      assert Recorded(s.jobs[op.p], q);
    }
    match op
    case Abandon(p) => SlotKeeps(s, p, s.jobs[p].(state := Unused));
    case Start(p) => SlotKeeps(s, p, s.jobs[p].(state := Runnable));
    case Kill(p) =>
      SlotKeeps(s, p, KilledJob(s.jobs[p]));
    case Reap(p) => SlotKeeps(s, p, s.jobs[p].(pid := 0, killed := false, state := Unused));
  }

  ghost predicate Run(s: State, ops: seq<Op>)
    decreases |ops|
  {
    ops == [] || (Enabled(s, ops[0]) && Run(Then(s, ops[0]), ops[1..]))
  }

  ghost function After(s: State, ops: seq<Op>): State
    requires Run(s, ops)
    decreases |ops|
  {
    if ops == [] then s else After(Then(s, ops[0]), ops[1..])
  }

  lemma {:induction false} RunAppend(s: State, ops: seq<Op>, more: seq<Op>)
    requires Run(s, ops) && Run(After(s, ops), more)
    ensures Run(s, ops + more) && After(s, ops + more) == After(After(s, ops), more)
    decreases |ops|
  {
    hide Enabled, Then;
    if ops == [] {
      assert ops + more == more;
    } else {
      RunAppend(Then(s, ops[0]), ops[1..], more);
      assert (ops + more)[0] == ops[0] && (ops + more)[1..] == ops[1..] + more;
    }
  }

  lemma RunSnoc(s: State, ops: seq<Op>, op: Op)
    requires Run(s, ops) && Enabled(After(s, ops), op)
    ensures Run(s, ops + [op]) && After(s, ops + [op]) == Then(After(s, ops), op)
  {
    var t := After(s, ops);
    assert [op][1..] == [] && Run(Then(t, op), []) && Run(t, [op]) && After(t, [op]) == Then(t, op);
    RunAppend(s, ops, [op]);
  }

  lemma {:induction false} RunInv(s: State, ops: seq<Op>)
    requires Inv(s) && Run(s, ops)
    ensures Inv(After(s, ops))
    decreases |ops|
  {
    if ops != [] {
      StepKeepsInv(s, ops[0]);
      RunInv(Then(s, ops[0]), ops[1..]);
    }
  }

  /** In every run from boot each process has at most one place, in the queue it records; running processes and
      zombies have none; queued processes have different pids; and no ring comes near to being full. */
  lemma RunKeepsPlaces(ops: seq<Op>, q: nat)
    requires Run(Boot(), ops) && q < PQ_COUNT
    ensures var t := After(Boot(), ops);
      && OncePerProcess(t.queues) && |t.queues[q]| <= NPROC < MAX_PROC_COUNT
      && (forall r, k, p :: At(t.queues, r, k, p) ==>
           t.jobs[p].q == r && t.jobs[p].state != Running && t.jobs[p].state != Zombie)
      && (forall p, x :: 0 <= p < NPROC && 0 <= x < NPROC && Queued(t.queues, p) && p != x ==>
           t.jobs[p].pid != t.jobs[x].pid)
  {
    var t := After(Boot(), ops);
    BootInv();
    RunInv(Boot(), ops);
    QueuesStaySmall(t.queues, q);
    forall p, x | 0 <= p < NPROC && 0 <= x < NPROC && Queued(t.queues, p) && p != x
      ensures t.jobs[p].pid != t.jobs[x].pid
    {
      QueuedRecorded(t, p);
    }
  }

  /** The process is in no queue but `q`, and its pid is its own. */
  ghost predicate ClearToPush(s: State, q: nat, p: nat) {
    && q < PQ_COUNT && p < NPROC && (Queued(s.queues, p) ==> InQueue(s.queues, q, p))
    && forall x :: 0 <= x < NPROC && x != p && Queued(s.queues, x) ==> s.jobs[x].pid != s.jobs[p].pid
  }

  /** Wherever the kernel calls pushBack the process is in no other queue and has a pid of its own, although
      pushBack checks neither. */
  lemma PushesAreClear(s: State, op: Op)
    requires Inv(s) && Enabled(s, op)
    ensures op.Enter? ==> ClearToPush(s, 0, op.p)
    ensures op.Refill? || op.Wake? ==> HasQueue(s, op.p) && ClearToPush(s, s.jobs[op.p].q, op.p)
    ensures op.SwitchOut? ==> !Queued(s.queues, op.p) && forall q: nat :: q < PQ_COUNT ==> ClearToPush(s, q, op.p)
  {
    if op.Enter? || op.Refill? || op.Wake? || op.SwitchOut? {
      var p := op.p;
      forall x | 0 <= x < NPROC && x != p && Queued(s.queues, x) ensures s.jobs[x].pid != s.jobs[p].pid {
        QueuedRecorded(s, x);
      }
      if Queued(s.queues, p) {
        var q, k :| At(s.queues, q, k, p);
        assert Recorded(s.jobs[p], q) && InQueue(s.queues, q, p);
      }
    }
  }

  // ------------------------------------------------ where the steps put a process

  /** The time slices, in ticks. */
  lemma SliceTicks(q: nat)
    requires q < 5
    ensures Slice(q) == [1, 2, 4, 8, 16][q]
  {
    assert Slice(2) == 2 * Slice(1);
    assert Slice(4) == 2 * Slice(3);
  }

  lemma PushLands(s: State, q: nat, p: nat)
    requires Inv(s) && q < 5 && p < NPROC && s.jobs[p].pid != 0
    ensures var t := PushedBack(s, q, p);
      && t.ticks == s.ticks && t.nextPid == s.nextPid
      && t.queues == (if p in s.queues[q] then s.queues else s.queues[q := s.queues[q] + [p]])
      && t.jobs == s.jobs[p := s.jobs[p].(q := q)]
  {
    PidIsProcess(s, q, p);
    if p in s.queues[q] {
      var k :| 0 <= k < |s.queues[q]| && s.queues[q][k] == p;
      assert At(s.queues, q, k, p);
      assert s.jobs[p := s.jobs[p].(q := q)] == s.jobs;
    }
  }

  /** A new process goes to the end of queue 0, unless it is in there already. */
  lemma EnterLands(s: State, p: nat)
    requires Inv(s) && Enabled(s, Enter(p))
    ensures var t := Then(s, Enter(p));
      && t.queues == (if p in s.queues[0] then s.queues else s.queues[0 := s.queues[0] + [p]])
      && t.jobs == s.jobs[p := s.jobs[p].(q := 0, latest := s.ticks)]
  {
    PushLands(s, 0, p);
  }

  /** A sleeper that is woken goes to the end of its own queue, unless it is in there already. */
  lemma WakeLands(s: State, p: nat)
    requires Inv(s) && Enabled(s, Wake(p))
    ensures var t, q := Then(s, Wake(p)), s.jobs[p].q;
      && t.queues == (if p in s.queues[q] then s.queues else s.queues[q := s.queues[q] + [p]])
      && t.jobs == s.jobs[p := s.jobs[p].(state := Runnable)]
  {
    PushLands(s, s.jobs[p].q, p);
  }

  /** kill wakes a sleeper where it is and puts it in no queue; wait frees the slot, and not the place it may have. */
  lemma KillAndReapLand(s: State, p: nat)
    requires Inv(s) && p < NPROC
    ensures var j := s.jobs[p];
      Enabled(s, Kill(p)) ==>
        var st := if j.state == Sleeping then Runnable else j.state;
        Then(s, Kill(p)) == s.(jobs := s.jobs[p := Job(j.pid, st, true, j.q, j.latest)])
    ensures var j := s.jobs[p];
      Enabled(s, Reap(p)) ==>
        && !Queued(s.queues, p)
        && Then(s, Reap(p)) == s.(jobs := s.jobs[p := Job(0, Unused, false, j.q, j.latest)])
  {
    QueuedRecorded(s, p);
  }

  lemma DemotedLands(s: State, p: nat, retain: bool)
    requires Inv(s) && p < NPROC && !Queued(s.queues, p) && s.jobs[p].pid != 0
    ensures var t, d := Demoted(s, p, retain), if retain || s.jobs[p].q == 4 then s.jobs[p].q else s.jobs[p].q + 1;
      && 0 <= d < 5 && t.queues == s.queues[d := s.queues[d] + [p]]
      && t.jobs == s.jobs[p := s.jobs[p].(q := d, latest := s.ticks)]
  {
    var d := if retain || s.jobs[p].q == 4 then s.jobs[p].q else s.jobs[p].q + 1;
    assert Sound(s.jobs[p], s.nextPid);
    SlotKeeps(s, p, s.jobs[p].(latest := s.ticks));
    PushLands(SetJob(s, p, s.jobs[p].(latest := s.ticks)), d, p);
    forall k | 0 <= k < |s.queues[d]| ensures s.queues[d][k] != p {
      assert !At(s.queues, d, k, p);
    }
  }

  /** A runnable process that has used its whole slice (1, 2, 4, 8 or 16 ticks in queue 0, 1, 2, 3 or 4) goes to the end
      of the next queue down, or of queue 4; one that sleeps, or was preempted after some of its slice, to the end of
      the queue it was in; any other to none. Nothing else moves. */
  lemma SwitchOutLands(s: State, p: nat, st: ProcState)
    requires Inv(s) && Enabled(s, SwitchOut(p, st))
    ensures var t, q, ran := Then(s, SwitchOut(p, st)), s.jobs[p].q, s.ticks - s.jobs[p].latest;
      && 0 <= q < 5
      && if st == Runnable && ran == [1, 2, 4, 8, 16][q] then
           var d := if q == 4 then 4 else q + 1;
           && t.queues == s.queues[d := s.queues[d] + [p]]
           && t.jobs == s.jobs[p := s.jobs[p].(state := st, q := d, latest := s.ticks)]
         else if st == Sleeping || (st == Runnable && 0 < ran < [1, 2, 4, 8, 16][q]) then
           && t.queues == s.queues[q := s.queues[q] + [p]]
           && t.jobs == s.jobs[p := s.jobs[p].(state := st, latest := s.ticks)]
         else t.queues == s.queues && t.jobs == s.jobs[p := s.jobs[p].(state := st)]
  {
    QueuedRecorded(s, p);
    assert Sound(s.jobs[p], s.nextPid);
    SliceTicks(s.jobs[p].q);
    var u := SetJob(s, p, s.jobs[p].(state := st));
    SlotKeeps(s, p, s.jobs[p].(state := st));
    DemotedLands(u, p, true);
    DemotedLands(u, p, false);
  }

  /** Aging moves up by one queue every live runnable process that has waited its queue's limit (84, 83, 82, 81 or 80
      ticks in queue 0, 1, 2, 3 or 4), and it changes nothing else of any process. */
  lemma AgingLands(s: State)
    requires Inv(s) && Enabled(s, Aging)
    ensures var t := Then(s, Aging);
      && t.ticks == s.ticks + 1
      && forall p :: 0 <= p < NPROC ==>
           && 0 <= s.jobs[p].q < 5
           && (var due := s.jobs[p].state == Runnable && !s.jobs[p].killed && s.jobs[p].pid != 0
                 && t.ticks - s.jobs[p].latest + 1 >= [84, 83, 82, 81, 80][s.jobs[p].q];
               t.jobs[p] == if due && s.jobs[p].q > 0 then s.jobs[p].(q := s.jobs[p].q - 1) else s.jobs[p])
  {
    AgingNeedsPlaces(s);
    forall p | 0 <= p < NPROC ensures Sound(s.jobs[p], s.nextPid) {
    }
  }

  // ---------------------------------------------------------- processes that wait

  /** The queue of a process that started to wait in queue `q`, `w` ticks after. */
  function Level(q: nat, w: int): (r: nat) {
    if q <= 82 - w then q else if w < 82 then 82 - w else 0
  }

  /** A live runnable process with a place: only being picked or killed ends its wait. */
  ghost predicate Waits(s: State, p: nat, q: nat) {
    && p < NPROC && !Dead(s.jobs[p])
    && s.jobs[p].q == Level(q, s.ticks - s.jobs[p].latest) && InQueue(s.queues, s.jobs[p].q, p)
  }

  lemma PopDeadWaits(s: State, q: nat, p: nat)
    requires Inv(s) && Enabled(s, PopDead(q)) && p < NPROC && !Dead(s.jobs[p]) && InQueue(s.queues, s.jobs[p].q, p)
    ensures InQueue(Popped(s.queues, q), s.jobs[p].q, p)
  {
    PopKeeps(s, q);
    QueuedIsRecorded(s, p);
    QueuedIsRecorded(s.(queues := Popped(s.queues, q)), p);
  }

  lemma PickWaits(s: State, x: nat, p: nat)
    requires Inv(s) && Enabled(s, Pick(x)) && x != p < NPROC && InQueue(s.queues, s.jobs[p].q, p)
    ensures Then(s, Pick(x)).jobs[p] == s.jobs[p] && InQueue(Then(s, Pick(x)).queues, s.jobs[p].q, p)
  {
    PickKeeps(s, x);
    PopKeeps(s, s.jobs[x].q);
    QueuedIsRecorded(s, p);
    QueuedIsRecorded(Then(s, Pick(x)), p);
  }

  lemma AgingWaits(s: State, p: nat, q: nat)
    requires Inv(s) && Enabled(s, Aging) && Waits(s, p, q) && q < PQ_COUNT
    ensures Waits(Then(s, Aging), p, q) && Then(s, Aging).jobs[p].latest == s.jobs[p].latest
  {
    var t := Then(s, Aging);
    AgingNeedsPlaces(s);
    QueuedIsRecorded(s, p);
    QueuedIsRecorded(t, p);
    assert t.jobs[p] == AgedJob(s.jobs[p], true, s.ticks + 1);
  }

  lemma StepWaits(s: State, op: Op, p: nat, q: nat)
    requires Inv(s) && Enabled(s, op) && Waits(s, p, q) && q < PQ_COUNT && op != Pick(p) && op != Kill(p)
    ensures Waits(Then(s, op), p, q) && Then(s, op).jobs[p].latest == s.jobs[p].latest
  {
    hide Inv, Aged, PushedBack, SwitchedOut, InQueue, Due;
    match op
    case Enter(x) => EnterKeeps(s, x);
    case Refill(x) =>
      if x == p { OwnQueueNotEmpty(s, p); }
      RefillKeeps(s, x);
    case PopDead(r) => PopDeadWaits(s, r, p);
    case Pick(x) => PickWaits(s, x, p);
    case SwitchOut(x, st) => SwitchOutKeeps(s, x, st);
    case Wake(x) => WakeKeeps(s, x);
    case Aging => AgingWaits(s, p, q);
    case _ =>
  }

  lemma OwnQueueNotEmpty(s: State, p: nat)
    requires HasQueue(s, p) && InQueue(s.queues, s.jobs[p].q, p)
    ensures s.queues[s.jobs[p].q] != []
  {
  }

  /** The aging ladder: in any run in which a waiting process is neither picked nor killed it keeps its place, and
      its queue depends only on the one it started in and on how long it has waited. It is first moved when it
      reaches its queue's limit, from then on every tick moves it up by one, and from any queue it reaches the
      highest one 82 ticks after it started to wait. */
  lemma {:induction false} AgingLadder(s: State, ops: seq<Op>, p: nat, q: nat)
    requires Inv(s) && Run(s, ops) && Waits(s, p, q) && q < PQ_COUNT
    requires Pick(p) !in ops && Kill(p) !in ops
    ensures Waits(After(s, ops), p, q) && After(s, ops).jobs[p].latest == s.jobs[p].latest
    decreases |ops|
  {
    if ops != [] {
      assert ops[0] in ops;
      StepKeepsInv(s, ops[0]);
      StepWaits(s, ops[0], p, q);
      AgingLadder(Then(s, ops[0]), ops[1..], p, q);
    }
  }

  // ------------------------------------------------------ keeping one's place

  /** Every live runnable process is in a queue. */
  ghost predicate Placed(s: State) {
    forall p :: 0 <= p < NPROC && !Dead(s.jobs[p]) ==> Queued(s.queues, p)
  }

  /** The two ways to lose one's place: a new process is allowed to run after the scheduler has popped it, and a process
      gives up the CPU after no tick at all, or after more of them than its slice. */
  ghost predicate Loses(s: State, op: Op)
    requires Enabled(s, op)
  {
    match op
    case Start(p) => !s.jobs[p].killed && !Queued(s.queues, p)
    case SwitchOut(p, st) =>
      st == Runnable && !s.jobs[p].killed && !(0 < s.ticks - s.jobs[p].latest <= Slice(s.jobs[p].q))
    case _ => false
  }

  lemma OthersPlaced(s: State, t: State, p: nat)
    requires Inv(s) && Inv(t) && OthersStay(s, t, p) && Placed(s) && p < NPROC
    ensures Placed(t) <==> Dead(t.jobs[p]) || Queued(t.queues, p)
  {
    forall x | 0 <= x < NPROC && x != p && !Dead(t.jobs[x]) ensures Queued(t.queues, x) {
      QueuedIsRecorded(s, x);
      QueuedIsRecorded(t, x);
    }
  }

  lemma SwitchOutPlace(s: State, p: nat, st: ProcState)
    requires Inv(s) && Enabled(s, SwitchOut(p, st))
    ensures var t := Then(s, SwitchOut(p, st));
      Dead(t.jobs[p]) || Queued(t.queues, p) <==> !Loses(s, SwitchOut(p, st))
  {
    QueuedRecorded(s, p);
    assert Sound(s.jobs[p], s.nextPid);
    var u := SetJob(s, p, s.jobs[p].(state := st));
    SlotKeeps(s, p, s.jobs[p].(state := st));
    hide Inv, Queued, Demoted;
    if st != Zombie {
      DemotedIsQueued(u, p, true);
      DemotedIsQueued(u, p, false);
    }
  }

  lemma DemotedIsQueued(s: State, p: nat, retain: bool)
    requires Inv(s) && p < NPROC && !Queued(s.queues, p) && (s.jobs[p].state == Sleeping || s.jobs[p].state == Runnable)
    ensures 0 <= s.jobs[p].q < PQ_COUNT && Queued(Demoted(s, p, retain).queues, p)
  {
    DemoteKeeps(s, p, retain);
    QueuedSomewhere(Demoted(s, p, retain).queues, p);
  }

  lemma PopPlaced(s: State, q: nat)
    requires Inv(s) && Enabled(s, PopDead(q)) && Placed(s)
    ensures Placed(Then(s, PopDead(q)))
  {
    PopKeeps(s, q);
  }

  lemma PickPlaced(s: State, p: nat)
    requires Inv(s) && Enabled(s, Pick(p)) && Placed(s)
    ensures Placed(Then(s, Pick(p)))
  {
    PickKeeps(s, p);
    PopKeeps(s, s.jobs[p].q);
  }

  lemma AgingPlaced(s: State)
    requires Inv(s) && Enabled(s, Aging) && Placed(s)
    ensures Placed(Then(s, Aging))
  {
    AgingNeedsPlaces(s);
    forall p | 0 <= p < NPROC && !Dead(Then(s, Aging).jobs[p]) ensures Queued(Then(s, Aging).queues, p) {
      assert Then(s, Aging).jobs[p] == AgedJob(s.jobs[p], true, s.ticks + 1);
    }
  }

  /** The steps that change one slot and no queue. */
  lemma SlotPlaced(s: State, op: Op)
    requires Inv(s) && Enabled(s, op) && Placed(s)
    requires op.Alloc? || op.Abandon? || op.Start? || op.Kill? || op.Reap?
    ensures Placed(Then(s, op)) <==> !Loses(s, op)
  {
    var p, t := op.p, Then(s, op);
    assert t.queues == s.queues && forall x :: 0 <= x < NPROC && x != p ==> t.jobs[x] == s.jobs[x];
  }

  /** While every live runnable process is in a queue, a step keeps that so exactly when it is not one of the two. */
  lemma StepPlaced(s: State, op: Op)
    requires Inv(s) && Enabled(s, op) && Placed(s)
    ensures Placed(Then(s, op)) <==> !Loses(s, op)
  {
    hide Inv, Aged, PushedBack, SwitchedOut, Due, Queued, Placed, InQueue;
    match op
    case Enter(p) =>
      EnterKeeps(s, p);
      QueuedSomewhere(Then(s, op).queues, p);
      OthersPlaced(s, Then(s, op), p);
    case Refill(p) =>
      RefillKeeps(s, p);
      QueuedSomewhere(Then(s, op).queues, p);
      OthersPlaced(s, Then(s, op), p);
    case Wake(p) =>
      WakeKeeps(s, p);
      QueuedSomewhere(Then(s, op).queues, p);
      OthersPlaced(s, Then(s, op), p);
    case SwitchOut(p, st) =>
      SwitchOutKeeps(s, p, st);
      SwitchOutPlace(s, p, st);
      OthersPlaced(s, Then(s, op), p);
    case PopDead(q) => PopPlaced(s, q);
    case Pick(p) => PickPlaced(s, p);
    case Aging => AgingPlaced(s);
    case _ => SlotPlaced(s, op);
  }

  /** Every state of the run has all live runnable processes in queues. */
  ghost predicate AlwaysPlaced(s: State, ops: seq<Op>)
    requires Run(s, ops)
    decreases |ops|
  {
    Placed(s) && (ops != [] ==> AlwaysPlaced(Then(s, ops[0]), ops[1..]))
  }

  ghost predicate NeverLoses(s: State, ops: seq<Op>)
    requires Run(s, ops)
    decreases |ops|
  {
    ops != [] ==> !Loses(s, ops[0]) && NeverLoses(Then(s, ops[0]), ops[1..])
  }

  lemma {:induction false} PlacedFrom(s: State, ops: seq<Op>)
    requires Inv(s) && Run(s, ops) && Placed(s)
    ensures AlwaysPlaced(s, ops) <==> NeverLoses(s, ops)
    decreases |ops|
  {
    if ops != [] {
      StepKeepsInv(s, ops[0]);
      StepPlaced(s, ops[0]);
      if !Loses(s, ops[0]) {
        PlacedFrom(Then(s, ops[0]), ops[1..]);
      } else {
        assert !Placed(Then(s, ops[0]));
      }
    }
  }

  /** In a run from boot every live runnable process is in a queue all the time exactly when none is lost in one of the
      two ways; and as long as that holds aging goes right. */
  lemma RunnableIsQueued(ops: seq<Op>)
    requires Run(Boot(), ops)
    ensures AlwaysPlaced(Boot(), ops) <==> NeverLoses(Boot(), ops)
  {
    BootInv();
    PlacedFrom(Boot(), ops);
  }

  lemma PlacedAging(s: State)
    requires Inv(s) && Placed(s)
    ensures Enabled(s, Aging)
  {
    AgingNeedsPlaces(s);
  }

  // -------------------------------------------------------- what goes wrong

  /** Killed while it was not running. */
  predicate KilledAside(s: State, p: nat) {
    p < NPROC && s.jobs[p].killed && s.jobs[p].state != Running && s.jobs[p].state != Zombie
  }

  lemma StepKilled(s: State, op: Op, p: nat)
    requires Inv(s) && Enabled(s, op) && KilledAside(s, p)
    ensures KilledAside(Then(s, op), p)
  {
    hide Inv, Aged;
    match op
    case Aging =>
      AgingNeedsPlaces(s);
      assert Then(s, op).jobs[p] == AgedJob(s.jobs[p], true, s.ticks + 1);
    case _ =>
  }

  /** kill means to make the process exit the next time it runs, but the scheduler takes a killed process for
      dead: if it was not running when it was killed, it never runs again, so it never exits and is never
      collected. */
  lemma {:induction false} KilledNeverRuns(s: State, ops: seq<Op>, p: nat)
    requires Inv(s) && Run(s, ops) && KilledAside(s, p)
    ensures KilledAside(After(s, ops), p)
    decreases |ops|
  {
    if ops != [] {
      StepKeepsInv(s, ops[0]);
      StepKilled(s, ops[0], p);
      KilledNeverRuns(Then(s, ops[0]), ops[1..], p);
    }
  }

  /** The scheduler on another CPU pops the half-built child between allocproc and the end of fork. */
  ghost function LostFork(): seq<Op> {
    [Alloc(0), Enter(0), PopDead(0), Start(0)]
  }

  lemma LostAtStart()
    ensures Run(Boot(), LostFork()) && LostSince0(After(Boot(), LostFork())) && After(Boot(), LostFork()).ticks == 0
  {
    hide Aged, Due, Run, After;
    var s2 := FirstForked();
    var s3 := Then(s2, PopDead(0));
    assert s3.queues[0] == [];
    RunSnoc(Boot(), [Alloc(0), Enter(0)], PopDead(0));
    assert [Alloc(0), Enter(0)] + [PopDead(0)] == [Alloc(0), Enter(0), PopDead(0)];
    RunSnoc(Boot(), [Alloc(0), Enter(0), PopDead(0)], Start(0));
    assert [Alloc(0), Enter(0), PopDead(0)] + [Start(0)] == LostFork();
    BootInv();
    RunInv(Boot(), LostFork());
  }

  /** So a live runnable process need not be in any queue. */
  lemma RunnableWithoutPlace()
    ensures Run(Boot(), LostFork())
    ensures var t := After(Boot(), LostFork()); !Dead(t.jobs[0]) && !Queued(t.queues, 0)
  {
    LostAtStart();
  }

  function Ticks(n: nat): (ops: seq<Op>)
    ensures |ops| == n
  {
    if n == 0 then [] else Ticks(n - 1) + [Aging]
  }

  /** Process 0 has waited since time 0 and is in no queue; nothing else could run. */
  ghost predicate LostSince0(s: State) {
    && Inv(s) && !Dead(s.jobs[0]) && s.jobs[0].latest == 0 && s.jobs[0].q == 0 && !Queued(s.queues, 0)
    && forall p :: 1 <= p < NPROC ==> Dead(s.jobs[p])
  }

  lemma LostTick(s: State)
    requires LostSince0(s) && s.ticks < 82
    ensures Enabled(s, Aging) && LostSince0(Then(s, Aging)) && Then(s, Aging).ticks == s.ticks + 1
  {
    hide Aged;
    AgingNeedsPlaces(s);
    StepKeepsInv(s, Aging);
    forall p | 0 <= p < NPROC ensures Then(s, Aging).jobs[p] == s.jobs[p] {
      assert Then(s, Aging).jobs[p] == AgedJob(s.jobs[p], true, s.ticks + 1);
    }
  }

  lemma {:induction false} LostTicks(n: nat)
    requires n <= 82
    ensures Run(Boot(), LostFork() + Ticks(n))
    ensures var t := After(Boot(), LostFork() + Ticks(n)); LostSince0(t) && t.ticks == n
  {
    hide LostSince0, Enabled, Then, LostFork;
    if n == 0 {
      LostAtStart();
      assert LostFork() + [] == LostFork();
    } else {
      LostTicks(n - 1);
      LostTick(After(Boot(), LostFork() + Ticks(n - 1)));
      RunSnoc(Boot(), LostFork() + Ticks(n - 1), Aging);
      assert LostFork() + Ticks(n - 1) + [Aging] == LostFork() + Ticks(n);
    }
  }

  /** So aging goes wrong in a run from boot: 82 ticks later the process is due, and the next tick would promote it
      from a place it does not have. */
  lemma AgingGoesWrong()
    ensures Run(Boot(), LostFork() + Ticks(82)) && !Enabled(After(Boot(), LostFork() + Ticks(82)), Aging)
  {
    LostTicks(82);
    hide LostFork, Ticks, Run, After;
    AgingNeedsPlaces(After(Boot(), LostFork() + Ticks(82)));
  }

  /** The other way: a process is picked and preempted before the next tick. */
  function EarlyYield(): seq<Op> {
    [Alloc(0), Enter(0), Start(0), Pick(0), SwitchOut(0, Runnable)]
  }

  lemma YieldWithoutPlace()
    ensures Run(Boot(), EarlyYield())
    ensures var t := After(Boot(), EarlyYield()); !Dead(t.jobs[0]) && !Queued(t.queues, 0)
  {
    hide Aged, Due, Run, After;
    var s1 := FirstForked();
    var s3 := Then(s1, Start(0));
    assert FrontOf(s3.queues, 0);
    RunSnoc(Boot(), [Alloc(0), Enter(0)], Start(0));
    assert [Alloc(0), Enter(0)] + [Start(0)] == [Alloc(0), Enter(0), Start(0)];
    var s4 := Then(s3, Pick(0));
    assert s4.queues[0] == [];
    RunSnoc(Boot(), [Alloc(0), Enter(0), Start(0)], Pick(0));
    assert [Alloc(0), Enter(0), Start(0)] + [Pick(0)] == [Alloc(0), Enter(0), Start(0), Pick(0)];
    RunSnoc(Boot(), [Alloc(0), Enter(0), Start(0), Pick(0)], SwitchOut(0, Runnable));
    assert [Alloc(0), Enter(0), Start(0), Pick(0)] + [SwitchOut(0, Runnable)] == EarlyYield();
  }

  /** The first process, half built and in the highest queue. */
  lemma FirstForked() returns (t: State)
    ensures Run(Boot(), [Alloc(0), Enter(0)]) && t == After(Boot(), [Alloc(0), Enter(0)])
    ensures t == State(Boot().jobs[0 := Job(1, Embryo, false, 0, 0)], [[0], [], [], [], []], 0, 2)
  {
    hide Aged, Due;
    var s1 := Then(Boot(), Alloc(0));
    assert s1.queues[0] == [];
    t := Then(s1, Enter(0));
    assert t.jobs == Boot().jobs[0 := Job(1, Embryo, false, 0, 0)] && t.queues[0] == [0];
    hide Then, Enabled, Boot;
    assert [Alloc(0), Enter(0)][1..] == [Enter(0)] && [Enter(0)][1..] == [];
    assert After(t, []) == t && After(s1, [Enter(0)]) == t;
  }
}
