/**
 * The life of processes (fork, exit, wait, sleep, wakeup and kill of proc.c) as steps on the process table, each
 * taken with ptable.lock held. `ProcLifeCode` holds the loops over the table.
 */
module ProcLife {

  const NPROC: nat := 64
  const NONE: int := -1

  datatype ProcState = Unused | Embryo | Sleeping | Runnable | Running | Zombie

  /** A table slot. `parent` is a slot; `chan` a slot, for a process that waits for its children, or any other
      number; `forking` is the child that a fork in progress is building. */
  datatype Proc = Proc(state: ProcState, parent: int, chan: int, killed: bool, forking: int)

  type Table = ps: seq<Proc> | |ps| == NPROC ghost witness seq(NPROC, _ => Proc(Unused, NONE, NONE, false, NONE))

  /** The table and the slot of the first process. */
  datatype System = System(procs: Table, init: nat)

  predicate Live(p: Proc) {
    p.state == Sleeping || p.state == Runnable || p.state == Running
  }

  // ------------------------------------------------------------- table updates

  function WakeOne(p: Proc, chan: int): Proc {
    if p.state == Sleeping && p.chan == chan then p.(state := Runnable) else p
  }

  /** wakeup1. */
  function Wake(ps: seq<Proc>, chan: int): (rs: seq<Proc>)
    ensures |rs| == |ps| && forall i :: 0 <= i < |ps| ==> rs[i] == WakeOne(ps[i], chan)
  {
    if ps == [] then [] else Wake(ps[..|ps| - 1], chan) + [WakeOne(ps[|ps| - 1], chan)]
  }

  function AdoptOne(p: Proc, p0: nat, init: nat): Proc {
    if p.parent == p0 then p.(parent := init) else p
  }

  /** The children of `p` given to `init`. */
  function Adopt(ps: seq<Proc>, p: nat, init: nat): (rs: seq<Proc>)
    ensures |rs| == |ps| && forall i :: 0 <= i < |ps| ==> rs[i] == AdoptOne(ps[i], p, init)
  {
    if ps == [] then [] else Adopt(ps[..|ps| - 1], p, init) + [AdoptOne(ps[|ps| - 1], p, init)]
  }

  ghost predicate ChildOf(ps: seq<Proc>, c: int, p: int) {
    0 <= c < |ps| && ps[c].parent == p
  }

  ghost predicate ZombieChild(ps: seq<Proc>, c: int, p: int) {
    ChildOf(ps, c, p) && ps[c].state == Zombie
  }

  /** exit: the parent is woken, children go to init, which is woken if one of them is a zombie. */
  ghost function Exited(ps: Table, p: nat, init: nat): Table
    requires p < NPROC
  {
    var a := Wake(ps, ps[p].parent);
    var b := if exists c :: ZombieChild(ps, c, p) then Wake(a, init) else a;
    var d := Adopt(b, p, init);
    d[p := d[p].(state := Zombie)]
  }

  /** wait, having found the zombie child `c`. */
  function Reaped(ps: Table, c: nat): Table
    requires c < NPROC
  {
    ps[c := ps[c].(state := Unused, parent := NONE, killed := false)]
  }

  // -------------------------------------------------------------------- steps

  /** What a running process, the scheduler or another process does while it holds the lock, and the unlocked
      assignments of fork. */
  datatype Step =
    | Alloc(p: nat, c: nat)
    | AllocFails(p: nat)
    | SetParent(p: nat)
    | ForkDone(p: nat)
    | Exit(p: nat)
    | Reap(p: nat, c: nat)
    | WaitSleeps(p: nat)
    | Sleep(p: nat, chan: int)
    | Wakeup(chan: int)
    | Kill(p: nat)
    | Schedule(p: nat)
    | Yield(p: nat)

  /** A process that is running and not in the middle of a fork. */
  predicate Free(s: System, p: nat) {
    p < NPROC && s.procs[p].state == Running && s.procs[p].forking == NONE
  }

  predicate Forking(s: System, p: nat) {
    p < NPROC && s.procs[p].state == Running && 0 <= s.procs[p].forking < NPROC
  }

  ghost predicate Enabled(s: System, e: Step) {
    match e
    case Alloc(p, c) => Free(s, p) && c < NPROC && s.procs[c].state == Unused
    case AllocFails(p) => Forking(s, p) && s.procs[s.procs[p].forking].parent == NONE
    case SetParent(p) => Forking(s, p) && s.procs[s.procs[p].forking].parent == NONE
    case ForkDone(p) => Forking(s, p) && s.procs[s.procs[p].forking].parent == p
    case Exit(p) => Free(s, p) && p != s.init
    case Reap(p, c) => Free(s, p) && ZombieChild(s.procs, c, p)
    case WaitSleeps(p) =>
      && Free(s, p) && !s.procs[p].killed
      && (exists c :: ChildOf(s.procs, c, p)) && !exists c :: ZombieChild(s.procs, c, p)
    case Sleep(p, chan) => p < NPROC && s.procs[p].state == Running && !(0 <= chan < NPROC)
    case Wakeup(chan) => true
    case Kill(p) => p < NPROC
    case Schedule(p) => p < NPROC && s.procs[p].state == Runnable
    case Yield(p) => p < NPROC && s.procs[p].state == Running
  }

  ghost function Do(s: System, e: Step): System
    requires Enabled(s, e)
  {
    var ps := s.procs;
    match e
    case Alloc(p, c) =>
      var qs := ps[p := ps[p].(forking := c)];
      s.(procs := qs[c := qs[c].(state := Embryo)])
    case AllocFails(p) =>
      var qs := ps[ps[p].forking := ps[ps[p].forking].(state := Unused)];
      s.(procs := qs[p := qs[p].(forking := NONE)])
    case SetParent(p) => s.(procs := ps[ps[p].forking := ps[ps[p].forking].(parent := p)])
    case ForkDone(p) =>
      var qs := ps[ps[p].forking := ps[ps[p].forking].(state := Runnable)];
      s.(procs := qs[p := qs[p].(forking := NONE)])
    case Exit(p) => s.(procs := Exited(ps, p, s.init))
    case Reap(p, c) => s.(procs := Reaped(ps, c))
    case WaitSleeps(p) => s.(procs := ps[p := ps[p].(state := Sleeping, chan := p)])
    case Sleep(p, chan) => s.(procs := ps[p := ps[p].(state := Sleeping, chan := chan)])
    case Wakeup(chan) => s.(procs := Wake(ps, chan))
    case Kill(p) =>
      s.(procs := ps[p := ps[p].(killed := true, state := if ps[p].state == Sleeping then Runnable else ps[p].state)])
    case Schedule(p) => s.(procs := ps[p := ps[p].(state := Running)])
    case Yield(p) => s.(procs := ps[p := ps[p].(state := Runnable)])
  }

  // --------------------------------------------------------------- invariants

  /** Parents are live, so no zombie has children and no parent pointer dangles; only a live process other than
      init, a zombie, or a half-built child has one. */
  ghost predicate Family(ps: Table, init: nat) {
    && init < NPROC && Live(ps[init]) && ps[init].parent == NONE && (forall c :: 0 <= c < NPROC ==> ps[c].parent != c)
    && (forall c, p :: ChildOf(ps, c, p) && p != NONE ==> 0 <= p < NPROC && Live(ps[p]) && ps[c].state != Unused)
    && (forall c :: 0 <= c < NPROC && ps[c].state != Unused && ps[c].state != Embryo && c != init ==>
         ps[c].parent != NONE)
  }

  /** The child that `p` is building is half built and has no other parent. */
  ghost predicate ForkSound(ps: Table, p: int) {
    && 0 <= p < NPROC && 0 <= ps[p].forking < NPROC && ps[ps[p].forking].state == Embryo && Live(ps[p])
    && (ps[ps[p].forking].parent == NONE || ps[ps[p].forking].parent == p)
  }

  /** Each half-built child belongs to one fork, and a fork's child is half built. */
  ghost predicate Forks(ps: Table) {
    && (forall p :: 0 <= p < NPROC && ps[p].forking != NONE ==> ForkSound(ps, p))
    && (forall p, q :: 0 <= p < NPROC && 0 <= q < NPROC && ps[p].forking == ps[q].forking ==>
         ps[p].forking == NONE || p == q)
    && (forall c :: 0 <= c < NPROC && ps[c].state == Embryo ==> ps[c].forking == NONE)
  }

  ghost predicate WaitsForChild(ps: Table, p: int) {
    0 <= p < NPROC && ps[p].state == Sleeping && ps[p].chan == p
  }

  /** A process asleep in wait has a child to wait for, and none that it could already collect. */
  ghost predicate Waiters(ps: Table) {
    forall p :: WaitsForChild(ps, p) ==> (exists c :: ChildOf(ps, c, p)) && !exists c :: ZombieChild(ps, c, p)
  }

  ghost predicate Inv(s: System) {
    Family(s.procs, s.init) && Forks(s.procs) && Waiters(s.procs)
  }

  // --------------------------------------------------------- steps keep them

  /** Only states of processes that are live before and after differ, and none that is woken waits for children. */
  ghost predicate OnlyWoken(ps: Table, rs: Table) {
    forall i :: 0 <= i < NPROC ==>
      && rs[i].parent == ps[i].parent && rs[i].chan == ps[i].chan && rs[i].forking == ps[i].forking
      && (rs[i].state == ps[i].state || (Live(ps[i]) && Live(rs[i]) && rs[i].state != Sleeping))
  }

  lemma OnlyWokenKeepsInv(s: System, rs: Table)
    requires Inv(s) && OnlyWoken(s.procs, rs)
    ensures Inv(s.(procs := rs))
  {
    WokenFamily(s.procs, rs, s.init);
    WokenForks(s.procs, rs);
    WokenWaiters(s.procs, rs);
  }

  lemma WokenFamily(ps: Table, rs: Table, init: nat)
    requires Family(ps, init) && OnlyWoken(ps, rs)
    ensures Family(rs, init)
  {
    forall c, p | ChildOf(rs, c, p) && p != NONE ensures 0 <= p < NPROC && Live(rs[p]) && rs[c].state != Unused {
      assert ChildOf(ps, c, p);
    }
  }

  lemma WokenForks(ps: Table, rs: Table)
    requires Forks(ps) && OnlyWoken(ps, rs)
    ensures Forks(rs)
  {
  }

  lemma WokenWaiters(ps: Table, rs: Table)
    requires Waiters(ps) && OnlyWoken(ps, rs)
    ensures Waiters(rs)
  {
    forall p | WaitsForChild(rs, p) ensures (exists c :: ChildOf(rs, c, p)) && !exists c :: ZombieChild(rs, c, p) {
      assert WaitsForChild(ps, p);
      var c :| ChildOf(ps, c, p);
      assert ChildOf(rs, c, p);
      forall z ensures !ZombieChild(rs, z, p) {
        assert !ZombieChild(ps, z, p);
      }
    }
  }

  /** Slot `c` and the fork of `p` change: the steps of fork. */
  lemma ForkWaiters(ps: Table, rs: Table, c: nat)
    requires Waiters(ps) && c < NPROC && ps[c].state != Zombie && rs[c].state != Zombie && rs[c].state != Sleeping
    requires forall i :: 0 <= i < NPROC && i != c ==> rs[i] == ps[i].(forking := rs[i].forking)
    requires rs[c].parent == ps[c].parent || ps[c].parent == NONE
    ensures Waiters(rs)
  {
    forall p | WaitsForChild(rs, p) ensures (exists x :: ChildOf(rs, x, p)) && !exists x :: ZombieChild(rs, x, p) {
      assert WaitsForChild(ps, p);
      var x :| ChildOf(ps, x, p);
      assert ChildOf(rs, x, p);
      forall z ensures !ZombieChild(rs, z, p) {
        assert !ZombieChild(ps, z, p);
      }
    }
  }

  /** A step of process `p`'s fork: only `p`'s note of its child and the child `c` itself change. */
  ghost predicate ForkStep(ps: Table, rs: Table, p: nat, c: nat) {
    && p < NPROC && c < NPROC && p != c && ps[p].state == Running && rs[p] == ps[p].(forking := rs[p].forking)
    && (ps[c].state == Unused || ps[c].state == Embryo)
    && (forall i :: 0 <= i < NPROC && i != p && i != c ==> rs[i] == ps[i])
    && (rs[c].parent == ps[c].parent || (ps[c].parent == NONE && rs[c].parent == p))
    && rs[c].forking == ps[c].forking && rs[c].chan == ps[c].chan
    && match rs[c].state
       case Unused => rs[c].parent == NONE
       case Embryo => true
       case Runnable => rs[c].parent != NONE
       case _ => false
  }

  lemma ForkStepFamily(ps: Table, rs: Table, init: nat, p: nat, c: nat)
    requires Family(ps, init) && ForkStep(ps, rs, p, c)
    requires ps[c].state == Unused ==> rs[c].state != Runnable && rs[c].parent == NONE
    ensures Family(rs, init)
  {
    forall x, q | ChildOf(rs, x, q) && q != NONE ensures 0 <= q < NPROC && Live(rs[q]) && rs[x].state != Unused {
      if x != c {
        assert ChildOf(ps, x, q);
      } else if rs[c].parent == ps[c].parent {
        assert ChildOf(ps, c, q);
      }
    }
  }

  lemma ForkStepForks(ps: Table, rs: Table, p: nat, c: nat)
    requires Forks(ps) && ForkStep(ps, rs, p, c) && ps[c].forking == NONE
    requires if ps[p].forking == NONE then ps[c].state == Unused else ps[p].forking == c
    requires if rs[c].state == Embryo then rs[p].forking == c && (rs[c].parent == NONE || rs[c].parent == p)
      else rs[p].forking == NONE
    ensures Forks(rs)
  {
    forall q | 0 <= q < NPROC && q != p
      ensures rs[q].forking == ps[q].forking && (rs[q].forking == NONE || rs[q].forking != c)
    {
      assert ps[q].forking != NONE ==> ps[ps[q].forking].state == Embryo;
    }
    forall q | 0 <= q < NPROC && q != p && rs[q].forking != NONE ensures ForkSound(rs, q) {
      assert ForkSound(ps, q) && rs[rs[q].forking] == ps[ps[q].forking].(forking := rs[rs[q].forking].forking);
    }
  }

  lemma ForkKeepsInv(s: System, e: Step, p: nat, c: nat)
    requires Inv(s) && Enabled(s, e)
    requires e == Alloc(p, c) || e == AllocFails(p) || e == SetParent(p) || e == ForkDone(p)
    requires e != Alloc(p, c) ==> c == s.procs[p].forking
    ensures Inv(Do(s, e))
  {
    var ps, rs := s.procs, Do(s, e).procs;
    assert ChildOf(ps, c, ps[c].parent);
    assert ForkStep(ps, rs, p, c);
    ForkWaiters(ps, rs, c);
    ForkStepFamily(ps, rs, s.init, p, c);
    ForkStepForks(ps, rs, p, c);
  }

  /** wait collects child `c` of `p`. */
  lemma ReapKeepsInv(s: System, p: nat, c: nat)
    requires Inv(s) && Enabled(s, Reap(p, c))
    ensures Inv(Do(s, Reap(p, c)))
  {
    ReapFamily(s.procs, s.init, c);
    ReapForks(s.procs, c);
    ReapWaiters(s.procs, p, c);
  }

  lemma ReapFamily(ps: Table, init: nat, c: nat)
    requires Family(ps, init) && c < NPROC && ps[c].state == Zombie
    ensures Family(Reaped(ps, c), init)
  {
    forall x, q | ChildOf(Reaped(ps, c), x, q) && q != NONE
      ensures 0 <= q < NPROC && Live(Reaped(ps, c)[q]) && Reaped(ps, c)[x].state != Unused
    {
      assert ChildOf(ps, x, q);
    }
  }

  lemma ReapForks(ps: Table, c: nat)
    requires Forks(ps) && c < NPROC && ps[c].state == Zombie
    ensures Forks(Reaped(ps, c))
  {
    forall q | 0 <= q < NPROC ensures ps[q].forking != c && (ps[q].forking != NONE ==> q != c) {
    }
  }

  lemma ReapWaiters(ps: Table, p: nat, c: nat)
    requires Waiters(ps) && p < NPROC && ps[p].state == Running && ZombieChild(ps, c, p)
    ensures Waiters(Reaped(ps, c))
  {
    var rs := Reaped(ps, c);
    forall q | WaitsForChild(rs, q) ensures (exists x :: ChildOf(rs, x, q)) && !exists x :: ZombieChild(rs, x, q) {
      assert WaitsForChild(ps, q);
      var x :| ChildOf(ps, x, q);
      assert ChildOf(rs, x, q);
      forall z ensures !ZombieChild(rs, z, q) {
        assert !ZombieChild(ps, z, q);
      }
    }
  }

  /** Going to sleep, in wait or on another channel. */
  lemma SleepKeepsInv(s: System, e: Step)
    requires Inv(s) && Enabled(s, e) && (e.WaitSleeps? || e.Sleep?)
    ensures Inv(Do(s, e))
  {
    var ps, rs := s.procs, Do(s, e).procs;
    AsleepFamily(ps, rs, s.init, e.p);
    AsleepForks(ps, rs, e.p);
    AsleepWaiters(ps, rs, e.p);
  }

  ghost predicate Asleep(ps: Table, rs: Table, p: nat) {
    p < NPROC && ps[p].state == Running && rs == ps[p := ps[p].(state := Sleeping, chan := rs[p].chan)]
  }

  lemma AsleepFamily(ps: Table, rs: Table, init: nat, p: nat)
    requires Family(ps, init) && Asleep(ps, rs, p)
    ensures Family(rs, init)
  {
    forall x, q | ChildOf(rs, x, q) && q != NONE ensures 0 <= q < NPROC && Live(rs[q]) && rs[x].state != Unused {
      assert ChildOf(ps, x, q);
    }
  }

  lemma AsleepForks(ps: Table, rs: Table, p: nat)
    requires Forks(ps) && Asleep(ps, rs, p)
    ensures Forks(rs)
  {
  }

  lemma AsleepWaiters(ps: Table, rs: Table, p: nat)
    requires Waiters(ps) && Asleep(ps, rs, p)
    requires rs[p].chan == p ==> (exists c :: ChildOf(ps, c, p)) && !exists c :: ZombieChild(ps, c, p)
    ensures Waiters(rs)
  {
    forall q | WaitsForChild(rs, q) ensures (exists x :: ChildOf(rs, x, q)) && !exists x :: ZombieChild(rs, x, q) {
      if q != p {
        assert WaitsForChild(ps, q);
      }
      var x :| ChildOf(ps, x, q);
      assert ChildOf(rs, x, q);
      forall z ensures !ZombieChild(rs, z, q) {
        assert !ZombieChild(ps, z, q);
      }
    }
  }

  /** What exit does to a slot. */
  function ExitOne(c: Proc, chan: int, z: bool, p: nat, init: nat): Proc {
    AdoptOne(if z then WakeOne(WakeOne(c, chan), init) else WakeOne(c, chan), p, init)
  }

  lemma ExitedAt(ps: Table, p: nat, init: nat, i: nat)
    requires p < NPROC && i < NPROC
    ensures var r := ExitOne(ps[i], ps[p].parent, exists c :: ZombieChild(ps, c, p), p, init);
      Exited(ps, p, init)[i] == if i == p then r.(state := Zombie) else r
  {
  }

  /** What exit's wakeups make of a state: the parent's channel, and init's if `z`. */
  function WokenState(c: Proc, chan: int, z: bool, init: nat): ProcState {
    if c.state == Sleeping && (c.chan == chan || (z && c.chan == init)) then Runnable else c.state
  }

  lemma ExitOneIs(c: Proc, chan: int, z: bool, p: nat, init: nat)
    ensures var r := ExitOne(c, chan, z, p, init);
      && r.parent == (if c.parent == p then init else c.parent) && r.chan == c.chan && r.forking == c.forking
      && r.killed == c.killed
      && r.state == WokenState(c, chan, z, init)
  {
  }

  /** The table after exit, slot by slot. */
  ghost predicate ExitedTo(ps: Table, rs: Table, p: nat, init: nat, z: bool) {
    && p < NPROC
    && forall i :: 0 <= i < NPROC ==>
         && rs[i].parent == (if ps[i].parent == p then init else ps[i].parent) && rs[i].chan == ps[i].chan
         && rs[i].forking == ps[i].forking
         && rs[i].state == if i == p then Zombie else WokenState(ps[i], ps[p].parent, z, init)
  }

  lemma ExitedIs(ps: Table, p: nat, init: nat)
    requires p < NPROC
    ensures ExitedTo(ps, Exited(ps, p, init), p, init, exists c :: ZombieChild(ps, c, p))
  {
    var z := exists c :: ZombieChild(ps, c, p);
    hide Exited, ExitOne, ZombieChild;
    forall i | 0 <= i < NPROC ensures
        && Exited(ps, p, init)[i].parent == (if ps[i].parent == p then init else ps[i].parent)
        && Exited(ps, p, init)[i].chan == ps[i].chan && Exited(ps, p, init)[i].forking == ps[i].forking
        && Exited(ps, p, init)[i].state == if i == p then Zombie else WokenState(ps[i], ps[p].parent, z, init)
    {
      ExitedAt(ps, p, init, i);
      ExitOneIs(ps[i], ps[p].parent, z, p, init);
    }
  }

  lemma ExitKeepsFamily(ps: Table, rs: Table, p: nat, init: nat, z: bool)
    requires Family(ps, init) && ExitedTo(ps, rs, p, init, z) && ps[p].state == Running && p != init
    ensures Family(rs, init)
  {
    forall x, q | ChildOf(rs, x, q) && q != NONE ensures 0 <= q < NPROC && Live(rs[q]) && rs[x].state != Unused {
      assert ChildOf(ps, x, ps[x].parent);
    }
  }

  lemma ExitKeepsForks(ps: Table, rs: Table, p: nat, init: nat, z: bool)
    requires Forks(ps) && ExitedTo(ps, rs, p, init, z) && ps[p].state == Running && ps[p].forking == NONE
    ensures Forks(rs)
  {
    forall q | 0 <= q < NPROC && rs[q].forking != NONE ensures
        && 0 <= rs[q].forking < NPROC && rs[rs[q].forking].state == Embryo && Live(rs[q])
        && (rs[rs[q].forking].parent == NONE || rs[rs[q].forking].parent == q)
    {
      assert q != p && ps[q].forking == rs[q].forking;
    }
  }

  lemma ExitKeepsWaiters(ps: Table, rs: Table, p: nat, init: nat, z: bool)
    requires Waiters(ps) && ExitedTo(ps, rs, p, init, z) && ps[p].state == Running
    requires z == exists c :: ZombieChild(ps, c, p)
    requires ps[p].parent != p && p != init
    ensures Waiters(rs)
  {
    forall q | WaitsForChild(rs, q) ensures (exists x :: ChildOf(rs, x, q)) && !exists x :: ZombieChild(rs, x, q) {
      assert WaitsForChild(ps, q) && ps[p].parent != q && (q == init ==> !z);
      var x :| ChildOf(ps, x, q);
      assert ChildOf(rs, x, q);
      forall y ensures !ZombieChild(rs, y, q) {
        assert !ZombieChild(ps, y, q) && (q == init ==> !ZombieChild(ps, y, p));
      }
    }
  }

  lemma ExitKeepsInv(s: System, p: nat)
    requires Inv(s) && Enabled(s, Exit(p))
    ensures Inv(Do(s, Exit(p)))
  {
    var ps, rs := s.procs, Exited(s.procs, p, s.init);
    var z := exists c :: ZombieChild(ps, c, p);
    ExitedIs(ps, p, s.init);
    ExitKeepsFamily(ps, rs, p, s.init, z);
    ExitKeepsForks(ps, rs, p, s.init, z);
    ExitKeepsWaiters(ps, rs, p, s.init, z);
  }

  lemma SameInit(s: System, e: Step)
    requires Enabled(s, e)
    ensures Do(s, e) == s.(procs := Do(s, e).procs)
  {
  }

  lemma OtherStepsOnlyWake(s: System, e: Step)
    requires Enabled(s, e) && (e.Wakeup? || e.Kill? || e.Schedule? || e.Yield?)
    ensures OnlyWoken(s.procs, Do(s, e).procs)
  {
  }

  lemma StepKeepsInv(s: System, e: Step)
    requires Inv(s) && Enabled(s, e)
    ensures Inv(Do(s, e))
  {
    hide Inv, Do, OnlyWoken;
    match e
    case Alloc(p, c) => ForkKeepsInv(s, e, p, c);
    case AllocFails(p) => ForkKeepsInv(s, e, p, s.procs[p].forking);
    case SetParent(p) => ForkKeepsInv(s, e, p, s.procs[p].forking);
    case ForkDone(p) => ForkKeepsInv(s, e, p, s.procs[p].forking);
    case Exit(p) => ExitKeepsInv(s, p);
    case Reap(p, c) => ReapKeepsInv(s, p, c);
    case WaitSleeps(p) => SleepKeepsInv(s, e);
    case Sleep(p, chan) => SleepKeepsInv(s, e);
    case _ =>
      OtherStepsOnlyWake(s, e);
      SameInit(s, e);
      OnlyWokenKeepsInv(s, Do(s, e).procs);
  }

  ghost predicate Legal(s: System, es: seq<Step>)
    decreases |es|
  {
    es == [] || (Enabled(s, es[0]) && Legal(Do(s, es[0]), es[1..]))
  }

  ghost function Final(s: System, es: seq<Step>): System
    requires Legal(s, es)
    decreases |es|
  {
    if es == [] then s else Final(Do(s, es[0]), es[1..])
  }

  /** In every interleaving, whenever the lock is free: no zombie has children, every parent is live, and every
      zombie's parent is there to collect it and is not asleep waiting for it. */
  lemma {:induction false} RunKeepsInv(s: System, es: seq<Step>)
    requires Inv(s) && Legal(s, es)
    ensures var u := Final(s, es);
      && Inv(u)
      && (forall c, z :: ChildOf(u.procs, c, z) && 0 <= z < NPROC ==> u.procs[z].state != Zombie)
      && (forall z :: 0 <= z < NPROC && u.procs[z].state == Zombie ==>
           && 0 <= u.procs[z].parent < NPROC && Live(u.procs[u.procs[z].parent])
           && !WaitsForChild(u.procs, u.procs[z].parent))
    decreases |es|
  {
    if es == [] {
      ZombiesAreCollectable(s);
    } else {
      StepKeepsInv(s, es[0]);
      RunKeepsInv(Do(s, es[0]), es[1..]);
    }
  }

  lemma ZombiesAreCollectable(s: System)
    requires Inv(s)
    ensures forall c, z :: ChildOf(s.procs, c, z) && 0 <= z < NPROC ==> s.procs[z].state != Zombie
    ensures forall z :: 0 <= z < NPROC && s.procs[z].state == Zombie ==>
      0 <= s.procs[z].parent < NPROC && Live(s.procs[s.procs[z].parent]) && !WaitsForChild(s.procs, s.procs[z].parent)
  {
    forall z | 0 <= z < NPROC && s.procs[z].state == Zombie
      ensures 0 <= s.procs[z].parent < NPROC && Live(s.procs[s.procs[z].parent])
      ensures !WaitsForChild(s.procs, s.procs[z].parent)
    {
      assert ZombieChild(s.procs, z, s.procs[z].parent);
    }
  }

  /** The table that userinit leaves: the first process is runnable and has no parent, all other slots are free. */
  predicate Booted(s: System) {
    && s.init == 0 && s.procs[0] == Proc(Runnable, NONE, NONE, false, NONE)
    && forall i :: 1 <= i < NPROC ==> s.procs[i] == Proc(Unused, NONE, NONE, false, NONE)
  }

  lemma BootedInv(s: System)
    requires Booted(s)
    ensures Inv(s)
  {
    assert Family(s.procs, 0);
    assert Forks(s.procs);
    assert Waiters(s.procs);
  }

  // ------------------------------------------------------------- a whole life

  lemma LegalNext(s: System, e: Step, rest: seq<Step>)
    requires Enabled(s, e) && Legal(Do(s, e), rest)
    ensures Legal(s, [e] + rest) && Final(s, [e] + rest) == Final(Do(s, e), rest)
  {
    assert ([e] + rest)[1..] == rest;
  }

  /** fork of `p` into the free slot `c`, and `p` going to sleep in wait. */
  function ForkAndWait(p: nat, c: nat): seq<Step> {
    [Alloc(p, c)] + ([SetParent(p)] + ([ForkDone(p)] + ([WaitSleeps(p)] + [])))
  }

  /** The child runs and exits, and `p` runs again and collects it. */
  function ExitAndReap(p: nat, c: nat): seq<Step> {
    [Schedule(c)] + ([Exit(c)] + ([Schedule(p)] + ([Reap(p, c)] + [])))
  }

  /** `p` sleeps in wait, `c` is its runnable child, and all else is as in `ps`. */
  ghost predicate Waiting(ps: Table, rs: Table, p: nat, c: nat) {
    && p < NPROC && c < NPROC
    && rs == ps[p := ps[p].(state := Sleeping, chan := p)][c := ps[c].(state := Runnable, parent := p)]
  }

  lemma ForkedAndWaits(s: System, p: nat, c: nat)
    requires Inv(s) && Free(s, p) && c < NPROC && s.procs[c].state == Unused && !s.procs[p].killed
    requires forall z :: !ZombieChild(s.procs, z, p)
    ensures Legal(s, ForkAndWait(p, c))
    ensures var u := Final(s, ForkAndWait(p, c)); u.init == s.init && Waiting(s.procs, u.procs, p, c)
  {
    hide Inv, Legal, Final;
    var ps := s.procs;
    FreeSlot(s, c);
    var s1 := Do(s, Alloc(p, c));
    var s2 := Do(s1, SetParent(p));
    var s3 := Do(s2, ForkDone(p));
    assert s3.procs == ps[c := ps[c].(state := Runnable, parent := p)];
    assert ChildOf(s3.procs, c, p);
    forall z ensures !ZombieChild(s3.procs, z, p) {
      assert !ZombieChild(ps, z, p);
    }
    var s4 := Do(s3, WaitSleeps(p));
    NoMore(s4);
    hide Enabled, Do;
    LegalNext(s3, WaitSleeps(p), []);
    LegalNext(s2, ForkDone(p), [WaitSleeps(p)] + []);
    LegalNext(s1, SetParent(p), [ForkDone(p)] + ([WaitSleeps(p)] + []));
    LegalNext(s, Alloc(p, c), [SetParent(p)] + ([ForkDone(p)] + ([WaitSleeps(p)] + [])));
  }

  lemma WaitedAndReaps(s: System, t: System, p: nat, c: nat)
    requires Inv(s) && Free(s, p) && c < NPROC && s.procs[c].state == Unused
    requires forall z :: !ZombieChild(s.procs, z, p)
    requires t.init == s.init && Waiting(s.procs, t.procs, p, c)
    ensures Legal(t, ExitAndReap(p, c))
    ensures Final(t, ExitAndReap(p, c)).procs == LifeOver(s.procs, p, c)
  {
    hide Exited, Wake, Adopt, Inv, LifeOver, Legal, Final;
    var ps, init := s.procs, s.init;
    FreeSlot(s, c);
    var t1 := Do(t, Schedule(c));
    NoChildren(s, t1.procs, p, c);
    var t2 := Do(t1, Exit(c));
    ExitedAlone(t1.procs, c, init);
    assert t2.procs[c] == ps[c].(state := Zombie, parent := p);
    assert t2.procs[p] == ps[p].(state := Runnable, chan := p);
    var t3 := Do(t2, Schedule(p));
    assert ZombieChild(t3.procs, c, p);
    var t4 := Do(t3, Reap(p, c));
    LifeOverIs(ps, t4.procs, p, c);
    NoMore(t4);
    hide Enabled, Do;
    LegalNext(t3, Reap(p, c), []);
    LegalNext(t2, Schedule(p), [Reap(p, c)] + []);
    LegalNext(t1, Exit(c), [Schedule(p)] + ([Reap(p, c)] + []));
    LegalNext(t, Schedule(c), [Exit(c)] + ([Schedule(p)] + ([Reap(p, c)] + [])));
  }

  /** A process without children exits: it is a zombie and whoever slept on its parent is runnable. */
  lemma ExitedAlone(ps: Table, c: nat, init: nat)
    requires c < NPROC && forall x :: !ChildOf(ps, x, c)
    ensures var rs := Exited(ps, c, init);
      forall x :: 0 <= x < NPROC ==>
        rs[x] == if x == c then WakeOne(ps[c], ps[c].parent).(state := Zombie) else WakeOne(ps[x], ps[c].parent)
  {
    hide Wake, Adopt;
    forall x | 0 <= x < NPROC ensures ps[x].parent != c {
      assert !ChildOf(ps, x, c);
    }
  }

  lemma NoChildren(s: System, rs: Table, p: nat, c: nat)
    requires Inv(s) && c < NPROC && s.procs[c].state == Unused && p < NPROC && p != c
    requires forall x :: 0 <= x < NPROC ==> rs[x].parent == if x == c then p else s.procs[x].parent
    ensures forall x :: !ChildOf(rs, x, c)
  {
    forall x ensures !ChildOf(rs, x, c) {
      assert !ChildOf(s.procs, x, c);
    }
  }

  lemma NoMore(s: System)
    ensures Legal(s, []) && Final(s, []) == s
  {
  }

  lemma FreeSlot(s: System, c: nat)
    requires Inv(s) && c < NPROC && s.procs[c].state == Unused
    ensures s.procs[c].forking == NONE && s.procs[c].parent == NONE && c != s.init
  {
    assert ChildOf(s.procs, c, s.procs[c].parent);
  }

  lemma LifeOverIs(ps: Table, rs: Table, p: nat, c: nat)
    requires p < NPROC && c < NPROC && p != c
    requires rs[p] == ps[p].(chan := p) && rs[c] == ps[c].(state := Unused, parent := NONE, killed := false)
    requires forall x :: 0 <= x < NPROC && x != p && x != c ==> rs[x] == WakeOne(ps[x], p)
    ensures rs == LifeOver(ps, p, c)
  {
    hide Wake;
  }

  /** All slots as in `ps`, except that `p` has waited and whoever else slept on it is awake; the child's slot is free
      again. */
  ghost function LifeOver(ps: Table, p: nat, c: nat): (rs: Table)
    requires p < NPROC && c < NPROC
  {
    var rs := Wake(ps, p);
    rs[p := ps[p].(chan := p)][c := ps[c].(state := Unused, parent := NONE, killed := false)]
  }

  lemma {:induction false} LegalAppend(s: System, es: seq<Step>, fs: seq<Step>)
    requires Legal(s, es) && Legal(Final(s, es), fs)
    ensures Legal(s, es + fs) && Final(s, es + fs) == Final(Final(s, es), fs)
    decreases |es|
  {
    hide Enabled, Do;
    if es == [] {
      assert es + fs == fs;
    } else {
      LegalAppend(Do(s, es[0]), es[1..], fs);
      assert (es + fs)[0] == es[0] && (es + fs)[1..] == es[1..] + fs;
    }
  }

  /** From any sound table: a running process with no zombie child forks into any free slot and waits; the child runs
      and exits, which wakes it; and it collects the child. The slot is free again and no other slot has changed, but
      for processes that slept on the parent. */
  lemma ForkExitWait(s: System, p: nat, c: nat)
    requires Inv(s) && Free(s, p) && c < NPROC && s.procs[c].state == Unused && !s.procs[p].killed
    requires forall z :: !ZombieChild(s.procs, z, p)
    ensures Legal(s, ForkAndWait(p, c) + ExitAndReap(p, c))
    ensures var u := Final(s, ForkAndWait(p, c) + ExitAndReap(p, c));
      && Inv(u)
      && u.procs[p] == s.procs[p].(chan := p)
      && u.procs[c] == s.procs[c].(state := Unused, parent := NONE, killed := false)
      && forall x :: 0 <= x < NPROC && x != p && x != c ==>
           u.procs[x] == if s.procs[x].state == Sleeping && s.procs[x].chan == p then s.procs[x].(state := Runnable)
                         else s.procs[x]
  {
    hide ForkAndWait, ExitAndReap, Legal, Final, Inv, Wake;
    ForkedAndWaits(s, p, c);
    WaitedAndReaps(s, Final(s, ForkAndWait(p, c)), p, c);
    LegalAppend(s, ForkAndWait(p, c), ExitAndReap(p, c));
    RunKeepsInv(s, ForkAndWait(p, c) + ExitAndReap(p, c));
  }
}
