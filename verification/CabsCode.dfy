/** findCab, bookCab and endRide of A4/q3, each run under the checkCab mutex. */
module CabsCode {
  import opened Cabs

  /** usefulCab: a rider waiting for `req` (-1 none, 0 pool, 1 premier) can use a cab in state `st`. */
  function UsefulCab(req: int, st: CabState): bool
    requires -1 <= req <= 1
  {
    match req
    case -1 => false
    case 0 => st == WaitState || st == OnRidePoolOne
    case _ => st == WaitState
  }

  function Code(t: CabType): int {
    if t == Pool then 0 else 1
  }

  /** usefulCab agrees with findCab: a rider waiting for type `t` can use a cab exactly when findCab, given a table
      of that one cab, would take it. */
  lemma UsefulIsChoice(c: Cab, t: CabType)
    ensures UsefulCab(if t == Pool then 0 else 1, c.state) <==> Choice([c], t) == 0
    ensures Choice([c], t) == 0 <==> c.state == WaitState || (t == Pool && c.state == OnRidePoolOne)
  {
    assert First([c], WaitState) == if c.state == WaitState then 0 else 1;
    assert First([c], OnRidePoolOne) == if c.state == OnRidePoolOne then 0 else 1;
  }

  lemma {:induction false} FirstIs(cabs: seq<Cab>, st: CabState, i: nat)
    requires i <= |cabs| && (forall j :: 0 <= j < i ==> cabs[j].state != st) && (i < |cabs| ==> cabs[i].state == st)
    ensures First(cabs, st) == i
  {
    var f := First(cabs, st);
    assert !(f < i) && !(i < f);
  }

  class Dispatcher {
    const taxis: array<Cab>
    const isWaiting: array<int>
    var totalCabsOpen: int
    ghost var place: seq<int>

    ghost function Abs(): System
      reads this, taxis
    {
      System(taxis[..], totalCabsOpen, place)
    }

    ghost predicate Valid()
      reads this, taxis, isWaiting
    {
      && Inv(Abs()) && isWaiting.Length == |place| && forall r :: 0 <= r < isWaiting.Length ==> -1 <= isWaiting[r] <= 1
    }

    constructor (cabs: nat, riders: nat)
      ensures Valid() && Abs() == System(AllWaiting(cabs), cabs, AllOutside(riders)) && fresh(taxis) && fresh(isWaiting)
    {
      taxis := new Cab[cabs](_ => Cab(WaitState, NOBODY, NOBODY));
      isWaiting := new int[riders](_ => -1);
      totalCabsOpen, place := cabs, AllOutside(riders);
      new;
      Start(cabs, riders);
      assert taxis[..] == AllWaiting(cabs);
    }

    /** A loop of findCab: the first cab in state `st`, or the number of cabs. */
    method Search(st: CabState) returns (i: nat)
      ensures i == First(taxis[..], st)
    {
      i := 0;
      while i < taxis.Length && taxis[i].state != st
        invariant i <= taxis.Length && forall j :: 0 <= j < i ==> taxis[j].state != st
      {
        i := i + 1;
      }
      FirstIs(taxis[..], st, i);
    }

    /** findCab, called with the counter positive: it finds a cab, so its assert(0) lines are not reached. */
    method FindCab(r: nat, t: CabType) returns (i: nat)
      requires Valid() && totalCabsOpen > 0
      modifies taxis
      ensures i == Choice(old(taxis[..]), t) < taxis.Length
      ensures taxis[..] == old(taxis[..])[i := Board(old(taxis[..])[i], r, t)]
      ensures Takes(old(taxis[..]), r, t, i, taxis[i])
    {
      CabIsFound(Abs(), t);
      TakesChoice(taxis[..], r, t);
      if t == Pool {
        i := Search(OnRidePoolOne);
        if i < taxis.Length {
          taxis[i] := taxis[i].(state := OnRidePoolFull, rider2 := r);
          return;
        }
        i := Search(WaitState);
        if i < taxis.Length {
          taxis[i] := taxis[i].(state := OnRidePoolOne, rider1 := r);
          return;
        }
        assert false;
      } else {
        i := Search(WaitState);
        if i < taxis.Length {
          taxis[i] := taxis[i].(rider1 := r, state := OnRidePremier);
          return;
        }
        assert false;
      }
    }

    /** bookCab up to where it starts the ride or waits to be signalled. */
    method BookCab(r: nat, t: CabType) returns (booked: bool, i: nat)
      requires Valid() && r < |place| && place[r] == -1
      modifies this, taxis, isWaiting
      ensures Valid() && Abs() == Do(old(Abs()), Book(r, t))
      ensures booked <==> old(totalCabsOpen) > 0
      ensures booked ==> i < taxis.Length && Takes(old(taxis[..]), r, t, i, taxis[i]) && place[r] == i
      ensures isWaiting[..] ==
        if booked then old(isWaiting[..]) else old(isWaiting[..])[r := if t == Pool then 0 else 1]
    {
      hide Inv, Takes, First, Choice, Board;
      StepKeepsInv(Abs(), Book(r, t));
      i := 0;
      if totalCabsOpen > 0 {
        CabIsFound(Abs(), t);
        i := FindCab(r, t);
        totalCabsOpen := totalCabsOpen - 1;
        place := place[r := i];
        return true, i;
      }
      isWaiting[r] := Code(t);
      booked := false;
    }

    /** bookCab after the wait, signalled or timed out. */
    method StopWaiting(r: nat)
      requires Valid() && r < |place| && place[r] == -1
      modifies isWaiting
      ensures Valid() && Abs() == old(Abs()) && isWaiting[..] == old(isWaiting[..])[r := -1]
    {
      isWaiting[r] := -1;
    }

    /** endRide's change to the cab. */
    method LeaveCab(i: nat, r: nat)
      requires i < taxis.Length
      modifies taxis
      ensures taxis[..] == old(taxis[..])[i := Leave(old(taxis[i]), r)]
    {
      var c := taxis[i];
      if c.state == OnRidePremier || c.state == OnRidePoolOne {
        taxis[i] := Cab(WaitState, -1, -1);
      } else if c.state == OnRidePoolFull {
        taxis[i] := taxis[i].(state := OnRidePoolOne);
        if c.rider1 == r {
          taxis[i] := taxis[i].(rider1 := c.rider2, rider2 := -1);
        } else {
          taxis[i] := taxis[i].(rider2 := -1);
        }
      }
    }

    /** The rider whom endRide signals: the first after `r`, around the table, whom a cab in state `st` can take: any
        cab that waits, or a half-full one for a pool ride; `r` if there is none. */
    method NextWaiting(r: nat, st: CabState) returns (j: nat)
      requires Valid() && r < |place|
      ensures j < isWaiting.Length == |place|
      ensures j != r ==>
        (isWaiting[j] == 0 && (st == WaitState || st == OnRidePoolOne)) || (isWaiting[j] == 1 && st == WaitState)
      ensures forall x :: 0 <= x < |place| && (x - r - 1) % |place| < (j - r - 1) % |place| ==>
        && (isWaiting[x] == 0 ==> st != WaitState && st != OnRidePoolOne)
        && (isWaiting[x] == 1 ==> st != WaitState)
      ensures j == r <==> forall x :: 0 <= x < |place| && x != r ==>
        && (isWaiting[x] == 0 ==> st != WaitState && st != OnRidePoolOne)
        && (isWaiting[x] == 1 ==> st != WaitState)
    {
      var n := isWaiting.Length;
      j := (r + 1) % n;
      Around(r, n);
      while j != r && !UsefulCab(isWaiting[j], st)
        invariant j < n && forall x :: 0 <= x < n && Between(r, x, j) ==> !UsefulCab(isWaiting[x], st)
        decreases Distance(j, r, n)
      {
        Around(j, n);
        j := (j + 1) % n;
      }
      forall x | 0 <= x < n && (x - r - 1) % n < (j - r - 1) % n ensures Between(r, x, j) {
        Places(x, r, n);
        Places(j, r, n);
      }
    }

    /** endRide: the cab loses the rider and the counter goes up; its first assert cannot fail. A rider is signalled
        exactly if somebody waits for whom findCab would take that very cab, and it is the next such around. */
    method EndRide(i: nat, r: nat) returns (j: nat)
      requires Valid() && r < |place| && place[r] >= 0 && i == place[r]
      modifies this, taxis
      ensures Valid() && Abs() == Do(old(Abs()), End(r)) && totalCabsOpen == old(totalCabsOpen) + 1 > 0
      ensures i < taxis.Length && Left(old(taxis[..][i]), r, taxis[i]) && j < isWaiting.Length == |place|
      ensures j != r ==>
        isWaiting[j] != -1 && Choice([taxis[i]], if isWaiting[j] == 0 then Pool else Premier) == 0
      ensures forall x ::
        0 <= x < |place| && (x - r - 1) % |place| < (j - r - 1) % |place| && isWaiting[x] != -1 ==>
          Choice([taxis[i]], if isWaiting[x] == 0 then Pool else Premier) != 0
      ensures j == r <==> forall x :: 0 <= x < |place| && x != r && isWaiting[x] != -1 ==>
        Choice([taxis[i]], if isWaiting[x] == 0 then Pool else Premier) != 0
    {
      hide First, Choice, Riders, Aboard;
      StepKeepsInv(Abs(), End(r));
      assert Carries(taxis[i], r);
      assert taxis[i].state != WaitState;
      totalCabsOpen := totalCabsOpen + 1;
      LeaveCab(i, r);
      place := place[r := NOBODY];
      j := NextWaiting(r, taxis[i].state);
      UsefulIsChoice(taxis[i], Pool);
      UsefulIsChoice(taxis[i], Premier);
    }
  }

  /** What findCab does, on the cabs `was`: a pool rider joins the first half-full pool cab if there is one; otherwise
      the first waiting cab becomes a half-full pool cab, or a premier cab, with that rider in it. */
  predicate Takes(was: seq<Cab>, r: nat, t: CabType, i: nat, taken: Cab) {
    && i < |was|
    && (if t == Pool && exists j :: 0 <= j < |was| && was[j].state == OnRidePoolOne then
         && was[i].state == OnRidePoolOne && (forall j :: 0 <= j < i ==> was[j].state != OnRidePoolOne)
         && taken == Cab(OnRidePoolFull, was[i].rider1, r)
       else
         && was[i].state == WaitState && (forall j :: 0 <= j < i ==> was[j].state != WaitState)
         && taken == Cab(if t == Pool then OnRidePoolOne else OnRidePremier, r, -1))
  }

  lemma TakesChoice(cabs: seq<Cab>, r: nat, t: CabType)
    requires Choice(cabs, t) < |cabs| && forall i :: 0 <= i < |cabs| ==> Consistent(cabs[i])
    ensures Takes(cabs, r, t, Choice(cabs, t), Board(cabs[Choice(cabs, t)], r, t))
  {
    hide First;
    var shared := First(cabs, OnRidePoolOne);
    assert Consistent(cabs[Choice(cabs, t)]);
  }

  /** What is left of a cab once rider `r` is gone: a full pool cab keeps the other rider, any other cab waits. */
  predicate Left(was: Cab, r: nat, c: Cab) {
    if was.state == OnRidePoolFull then c == Cab(OnRidePoolOne, if was.rider1 == r then was.rider2 else was.rider1, -1)
    else c == Cab(WaitState, -1, -1)
  }

  /** How many steps from `j` to `r` around `n` riders. */
  function Distance(j: nat, r: nat, n: nat): nat
    requires j < n && r < n
  {
    if j <= r then r - j else r - j + n
  }

  /** `x` comes after `r` and before `j`, around the riders; before `r` again if `j` is `r`. */
  predicate Between(r: nat, x: nat, j: nat) {
    if r < j then r < x < j else r < x || x < j
  }

  /** How many riders sit between `r` and `x`. */
  lemma Places(x: nat, r: nat, n: nat)
    requires x < n && r < n
    ensures (x - r - 1) % n == if x > r then x - r - 1 else x - r - 1 + n
  {
    if x <= r {
      var d := x - r - 1 + n;
      assert x - r - 1 == -1 * n + d;
    }
  }

  lemma Around(j: nat, n: nat)
    requires j < n
    ensures (j + 1) % n == if j + 1 == n then 0 else j + 1
  {
  }
}
