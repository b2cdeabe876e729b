/** The loops of proc.c over the process table: allocproc, exit, wait, wakeup1 and kill, with ptable.lock held. */
module ProcLifeCode {
  import opened ProcLife

  class ProcTable {
    const procs: array<Proc>
    const init: nat

    ghost predicate Shape()
      reads this
    {
      procs.Length == NPROC && init < NPROC
    }

    ghost function Abs(): System
      requires Shape()
      reads this, procs
    {
      System(procs[..], init)
    }

    constructor (table: Table, init: nat)
      requires init < NPROC
      ensures Shape() && Abs() == System(table, init) && fresh(procs)
    {
      procs := new Proc[NPROC](i requires 0 <= i < NPROC => table[i]);
      this.init := init;
      new;
      assert procs[..] == table;
    }

    /** The scan of allocproc: the first free slot, or NPROC. */
    method FindUnused() returns (c: nat)
      requires Shape()
      ensures c <= NPROC && (c < NPROC ==> procs[c].state == Unused)
      ensures forall i :: 0 <= i < c ==> procs[i].state != Unused
    {
      c := 0;
      while c < NPROC && procs[c].state != Unused
        invariant c <= NPROC && forall i :: 0 <= i < c ==> procs[i].state != Unused
      {
        c := c + 1;
      }
    }

    /** allocproc for a fork of `p`: false when the table is full. */
    method AllocProc(p: nat) returns (ok: bool, c: nat)
      requires Shape() && Free(Abs(), p)
      modifies procs
      ensures ok <==> exists i :: 0 <= i < NPROC && old(procs[i]).state == Unused
      ensures ok ==> forall i :: 0 <= i < c && i < NPROC ==> old(procs[i]).state != Unused
      ensures if ok then Enabled(old(Abs()), Alloc(p, c)) && Abs() == Do(old(Abs()), Alloc(p, c))
        else Abs() == old(Abs())
      ensures ok ==> c < NPROC && old(procs[c]).state == Unused && procs[c].state == Embryo && procs[p].forking == c
    {
      c := FindUnused();
      if c == NPROC {
        return false, c;
      }
      procs[p] := procs[p].(forking := c);
      procs[c] := procs[c].(state := Embryo);
      ok := true;
      assert old(procs[c]).state == Unused;
    }

    /** wakeup1. */
    method Wakeup1(chan: int)
      requires Shape()
      modifies procs
      ensures procs[..] == Wake(old(procs[..]), chan)
      ensures forall x :: 0 <= x < NPROC ==>
        procs[x] == if old(procs[x]).state == Sleeping && old(procs[x]).chan == chan
          then old(procs[x]).(state := Runnable)
          else old(procs[x])
    {
      var i := 0;
      while i < NPROC
        invariant i <= NPROC
        invariant forall x :: 0 <= x < NPROC ==>
          procs[x] == if x < i then WakeOne(old(procs[x]), chan) else old(procs[x])
      {
        if procs[i].state == Sleeping && procs[i].chan == chan {
          procs[i] := procs[i].(state := Runnable);
        }
        i := i + 1;
      }
    }

    /** exit's loop: children of `p` go to init, which is woken when one of them is a zombie. */
    method PassChildren(p: nat) returns (ghost z: bool)
      requires Shape() && p < NPROC
      modifies procs
      ensures z <==> exists c :: ZombieChild(old(procs[..]), c, p)
      ensures procs[..] == Adopt(if z then Wake(old(procs[..]), init) else old(procs[..]), p, init)
    {
      ghost var ps := procs[..];
      NothingPassed(ps, p, init);
      hide Passed, WakeOne, Wake, Adopt;
      z := false;
      var i := 0;
      while i < NPROC
        invariant i <= NPROC && (z <==> exists c :: c < i && ZombieChild(ps, c, p))
        invariant forall x :: 0 <= x < NPROC ==> procs[x] == Passed(ps[x], z, x < i, p, init)
      {
        PassedNow(ps[i], z, p, init);
        var child := procs[i].parent == p;
        assert child <==> ChildOf(ps, i, p);
        if child {
          procs[i] := procs[i].(parent := init);
          if procs[i].state == Zombie {
            assert ZombieChild(ps, i, p);
            WakePassed(ps, z, i, p, init);
            Wakeup1(init);
            z := true;
          }
        }
        i := i + 1;
      }
      AllPassed(ps, procs[..], z, p, init);
    }

    /** exit, from taking the lock to entering the scheduler; init exiting is a panic. The process becomes a zombie,
        its children are init's, its parent is woken if it sleeps in wait, and so is init if it inherits a zombie. */
    method Exit(p: nat) returns (ok: bool)
      requires Shape() && Free(Abs(), p)
      modifies procs
      ensures ok <==> p != init
      ensures Abs() == if ok then Do(old(Abs()), Step.Exit(p)) else old(Abs())
      ensures ok ==> Departed(old(procs[..]), procs[..], p, init)
    {
      hide Departed;
      if p == init {
        return false;
      }
      ExitedSlots(procs[..], p, init);
      LeaveTable(p);
      ok := true;
    }

    method LeaveTable(p: nat)
      requires Shape() && p < NPROC
      modifies procs
      ensures procs[..] == Exited(old(procs[..]), p, init)
    {
      hide Wake, Adopt, ZombieChild, Exited;
      ghost var ps := procs[..];
      Wakeup1(procs[p].parent);
      ghost var a := procs[..];
      SameZombies(ps, a, ps[p].parent, p);
      ghost var z := PassChildren(p);
      ExitedBy(ps, a, procs[..], z, p, init);
      SetState(p, Zombie);
    }

    method SetState(p: nat, st: ProcState)
      requires Shape() && p < NPROC
      modifies procs
      ensures procs[..] == old(procs[..])[p := old(procs[..])[p].(state := st)]
    {
      procs[p] := procs[p].(state := st);
    }

    /** The scan of wait: the first zombie child, or NPROC, and whether there are children at all. */
    method FindZombie(p: nat) returns (c: nat, havekids: bool)
      requires Shape() && p < NPROC
      ensures c <= NPROC && (c < NPROC ==> ZombieChild(procs[..], c, p))
      ensures c == NPROC ==> !exists x :: ZombieChild(procs[..], x, p)
      ensures forall x :: 0 <= x < c ==> procs[x].parent != p || procs[x].state != Zombie
      ensures c == NPROC ==> (havekids <==> exists x :: ChildOf(procs[..], x, p))
    {
      c, havekids := 0, false;
      while c < NPROC
        invariant c <= NPROC && forall x :: 0 <= x < c ==> !ZombieChild(procs[..], x, p)
        invariant forall x :: 0 <= x < c ==> procs[x].parent != p || procs[x].state != Zombie
        invariant havekids <==> exists x :: x < c && ChildOf(procs[..], x, p)
      {
        if procs[c].parent == p {
          assert ChildOf(procs[..], c, p);
          havekids := true;
          if procs[c].state == Zombie {
            return;
          }
        }
        c := c + 1;
      }
    }

    /** One turn of wait: it collects a zombie child, or fails, or sleeps until a child exits. */
    method Wait(p: nat) returns (r: WaitResult)
      requires Shape() && Free(Abs(), p)
      modifies procs
      ensures r.Collected? ==> Enabled(old(Abs()), Reap(p, r.c)) && Abs() == Do(old(Abs()), Reap(p, r.c))
      ensures r.Collected? ==>
        && r.c < NPROC && old(procs[r.c]).parent == p && old(procs[r.c]).state == Zombie
        && procs[r.c].state == Unused && procs[r.c].parent == -1 && !procs[r.c].killed
        && (forall x :: 0 <= x < r.c ==> old(procs[x]).parent != p || old(procs[x]).state != Zombie)
        && forall x :: 0 <= x < NPROC && x != r.c ==> procs[x] == old(procs[x])
      ensures r == Slept ==>
        && procs[p].state == Sleeping && procs[p].chan == p
        && forall x :: 0 <= x < NPROC && x != p ==> procs[x] == old(procs[x])
      ensures r == Slept ==> Enabled(old(Abs()), WaitSleeps(p)) && Abs() == Do(old(Abs()), WaitSleeps(p))
      ensures r == Failed ==> Abs() == old(Abs()) && !exists x :: ZombieChild(old(procs[..]), x, p)
      ensures r == Failed ==> old(procs[p]).killed || !exists x :: ChildOf(old(procs[..]), x, p)
    {
      var c, havekids := FindZombie(p);
      if c < NPROC {
        procs[c] := procs[c].(state := Unused, parent := NONE, killed := false);
        return Collected(c);
      }
      if !havekids || procs[p].killed {
        return Failed;
      }
      procs[p] := procs[p].(state := Sleeping, chan := p);
      r := Slept;
    }

    /** kill, once it has found slot `p` for the pid. */
    method Kill(p: nat)
      requires Shape() && p < NPROC
      modifies procs
      ensures Abs() == Do(old(Abs()), Step.Kill(p))
      ensures procs[p] == old(procs[p]).(killed := true,
                                         state := if old(procs[p]).state == Sleeping then Runnable
                                                  else old(procs[p]).state)
      ensures forall x :: 0 <= x < NPROC && x != p ==> procs[x] == old(procs[x])
    {
      procs[p] := procs[p].(killed := true);
      if procs[p].state == Sleeping {
        procs[p] := procs[p].(state := Runnable);
      }
    }
  }

  datatype WaitResult = Collected(c: nat) | Failed | Slept

  /** A slot during exit's loop: woken if a zombie was seen, adopted if it was passed. */
  function Passed(c: Proc, z: bool, done: bool, p: nat, init: nat): Proc {
    var d := if z then WakeOne(c, init) else c;
    if done then AdoptOne(d, p, init) else d
  }

  lemma PassedNow(c: Proc, z: bool, p: nat, init: nat)
    ensures var d := Passed(c, z, false, p, init);
      && d.parent == c.parent && (d.state == Zombie <==> c.state == Zombie)
      && Passed(c, z, true, p, init) == if c.parent == p then d.(parent := init) else d
  {
  }

  lemma WakePassed(ps: seq<Proc>, z: bool, i: nat, p: nat, init: nat)
    ensures forall x :: 0 <= x < |ps| ==>
      WakeOne(Passed(ps[x], z, x <= i, p, init), init) == Passed(ps[x], true, x <= i, p, init)
  {
  }

  lemma NothingPassed(ps: seq<Proc>, p: nat, init: nat)
    ensures forall x :: 0 <= x < |ps| ==> Passed(ps[x], false, false, p, init) == ps[x]
  {
  }

  lemma AllPassed(ps: seq<Proc>, rs: seq<Proc>, z: bool, p: nat, init: nat)
    requires |rs| == |ps| && forall x :: 0 <= x < |ps| ==> rs[x] == Passed(ps[x], z, true, p, init)
    ensures rs == Adopt(if z then Wake(ps, init) else ps, p, init)
  {
    hide Adopt, Wake;
  }

  lemma ExitedBy(ps: Table, a: Table, d: Table, z: bool, p: nat, init: nat)
    requires p < NPROC && a == Wake(ps, ps[p].parent) && (z <==> exists c :: ZombieChild(ps, c, p))
    requires d == Adopt(if z then Wake(a, init) else a, p, init)
    ensures d[p := d[p].(state := Zombie)] == Exited(ps, p, init)
  {
  }

  /** exit of `p`, slot by slot: children of `p` are init's; `p` is a zombie; who slept on the parent of `p`, or on init
      if a child of `p` is a zombie, is runnable. */
  ghost predicate Departed(ps: seq<Proc>, rs: seq<Proc>, p: nat, init: nat) {
    && p < |ps| == |rs|
    && var heir := exists c :: 0 <= c < |ps| && ps[c].parent == p && ps[c].state == Zombie;
       forall x :: 0 <= x < |ps| ==>
         && rs[x] == ps[x].(parent := rs[x].parent, state := rs[x].state)
         && rs[x].parent == (if ps[x].parent == p then init else ps[x].parent)
         && rs[x].state ==
            if x == p then Zombie
            else if ps[x].state == Sleeping && (ps[x].chan == ps[p].parent || (heir && ps[x].chan == init))
              then Runnable
            else ps[x].state
  }

  lemma ExitedSlots(ps: Table, p: nat, init: nat)
    requires p < NPROC
    ensures Departed(ps, Exited(ps, p, init), p, init)
  {
    hide Wake, Adopt;
    if c :| 0 <= c < NPROC && ps[c].parent == p && ps[c].state == Zombie {
      assert ZombieChild(ps, c, p);
    }
  }

  lemma SameZombies(ps: seq<Proc>, rs: seq<Proc>, chan: int, p: nat)
    requires rs == Wake(ps, chan)
    ensures (exists c :: ZombieChild(ps, c, p)) <==> exists c :: ZombieChild(rs, c, p)
  {
    forall c ensures ZombieChild(ps, c, p) <==> ZombieChild(rs, c, p) {
    }
  }
}
