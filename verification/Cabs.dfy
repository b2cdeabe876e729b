/**
 * The cab booking protocol of A4/q3: riders book, give up waiting and end rides in any order, each under one
 * mutex. `CabsCode` holds findCab, bookCab and endRide.
 */
module Cabs {

  datatype CabState = WaitState | OnRidePoolOne | OnRidePoolFull | OnRidePremier

  const NOBODY: int := -1

  datatype Cab = Cab(state: CabState, rider1: int, rider2: int)

  datatype CabType = Pool | Premier

  /** The cabs, the counter, and where each rider is: the index of a cab, or NOBODY. */
  datatype System = System(cabs: seq<Cab>, open: int, place: seq<int>)

  function Load(c: Cab): nat {
    if c.state == WaitState then 0 else if c.state == OnRidePoolFull then 2 else 1
  }

  function Riders(cabs: seq<Cab>): nat {
    if cabs == [] then 0 else Riders(cabs[..|cabs| - 1]) + Load(cabs[|cabs| - 1])
  }

  function Waiting(cabs: seq<Cab>): nat {
    if cabs == [] then 0 else Waiting(cabs[..|cabs| - 1]) + if cabs[|cabs| - 1].state == WaitState then 1 else 0
  }

  function Full(cabs: seq<Cab>): nat {
    if cabs == [] then 0 else Full(cabs[..|cabs| - 1]) + if cabs[|cabs| - 1].state == OnRidePoolFull then 1 else 0
  }

  /** How many riders are in a cab. */
  function Aboard(place: seq<int>): nat {
    if place == [] then 0 else Aboard(place[..|place| - 1]) + if place[|place| - 1] >= 0 then 1 else 0
  }

  /** The cab's fields agree with its state. */
  predicate Consistent(c: Cab) {
    match c.state
    case WaitState => c.rider1 == NOBODY && c.rider2 == NOBODY
    case OnRidePoolFull => c.rider1 >= 0 && c.rider2 >= 0 && c.rider1 != c.rider2
    case _ => c.rider1 >= 0 && c.rider2 == NOBODY
  }

  ghost predicate Carries(c: Cab, r: int) {
    c.rider1 == r || c.rider2 == r
  }

  predicate In(s: System, r: int, i: int) {
    0 <= r < |s.place| && s.place[r] == i
  }

  ghost predicate Inv(s: System) {
    && (forall i :: 0 <= i < |s.cabs| ==> Consistent(s.cabs[i]))
    && (forall i, r :: 0 <= i < |s.cabs| && r >= 0 && Carries(s.cabs[i], r) ==> In(s, r, i))
    && (forall r :: 0 <= r < |s.place| ==>
         s.place[r] == NOBODY || (0 <= s.place[r] < |s.cabs| && Carries(s.cabs[s.place[r]], r)))
    && s.open == |s.cabs| - Aboard(s.place) >= 0
    && Riders(s.cabs) == Aboard(s.place)
  }

  // ----------------------------------------------------------------- counting

  lemma {:induction false} RidersUpdate(cabs: seq<Cab>, i: nat, c: Cab)
    requires i < |cabs|
    ensures Riders(cabs[i := c]) == Riders(cabs) - Load(cabs[i]) + Load(c)
  {
    var n := |cabs| - 1;
    if i < n {
      assert cabs[i := c][..n] == cabs[..n][i := c];
      RidersUpdate(cabs[..n], i, c);
    } else {
      assert cabs[i := c][..n] == cabs[..n];
    }
  }

  lemma {:induction false} AboardUpdate(place: seq<int>, r: nat, x: int)
    requires r < |place|
    ensures Aboard(place[r := x]) == Aboard(place) - (if place[r] >= 0 then 1 else 0) + if x >= 0 then 1 else 0
  {
    var n := |place| - 1;
    if r < n {
      assert place[r := x][..n] == place[..n][r := x];
      AboardUpdate(place[..n], r, x);
    } else {
      assert place[r := x][..n] == place[..n];
    }
  }

  /** Cabs minus riders is waiting cabs minus full ones: a full pool cab cancels a waiting one. */
  lemma {:induction false} OpenCounts(cabs: seq<Cab>)
    ensures |cabs| - Riders(cabs) == Waiting(cabs) - Full(cabs)
  {
    if cabs != [] {
      OpenCounts(cabs[..|cabs| - 1]);
    }
  }

  lemma {:induction false} SomeWaiting(cabs: seq<Cab>) returns (i: nat)
    requires Waiting(cabs) > 0
    ensures i < |cabs| && cabs[i].state == WaitState
  {
    var n := |cabs| - 1;
    if cabs[n].state == WaitState {
      i := n;
    } else {
      i := SomeWaiting(cabs[..n]);
    }
  }

  // -------------------------------------------------------------------- steps

  /** The first cab in state `st`, or the number of cabs. */
  function First(cabs: seq<Cab>, st: CabState): (i: nat)
    ensures i <= |cabs| && (forall j :: 0 <= j < i ==> cabs[j].state != st) && (i < |cabs| ==> cabs[i].state == st)
  {
    if cabs == [] then 0
    else
      var j := First(cabs[..|cabs| - 1], st);
      if j < |cabs| - 1 || cabs[|cabs| - 1].state == st then j else |cabs|
  }

  /** The cab that findCab takes: a pool rider shares if possible. */
  function Choice(cabs: seq<Cab>, t: CabType): nat {
    var shared := First(cabs, OnRidePoolOne);
    if t == Pool && shared < |cabs| then shared else First(cabs, WaitState)
  }

  function Board(c: Cab, r: nat, t: CabType): Cab {
    if t == Pool && c.state == OnRidePoolOne then Cab(OnRidePoolFull, c.rider1, r)
    else Cab(if t == Pool then OnRidePoolOne else OnRidePremier, r, c.rider2)
  }

  /** What endRide makes of the cab. */
  function Leave(c: Cab, r: nat): Cab {
    if c.state == OnRidePremier || c.state == OnRidePoolOne then Cab(WaitState, NOBODY, NOBODY)
    else if c.state == OnRidePoolFull then
      if c.rider1 == r then Cab(OnRidePoolOne, c.rider2, NOBODY) else Cab(OnRidePoolOne, c.rider1, NOBODY)
    else c
  }

  /** A rider not in a cab tries to book; a waiting rider gives up or is signalled; a ride ends. */
  datatype Step = Book(r: nat, t: CabType) | StopWaiting(r: nat) | End(r: nat)

  ghost predicate Enabled(s: System, e: Step) {
    match e
    case Book(r, _) => r < |s.place| && s.place[r] == NOBODY
    case StopWaiting(r) => r < |s.place| && s.place[r] == NOBODY
    case End(r) => r < |s.place| && 0 <= s.place[r] < |s.cabs|
  }

  /** Both assert(0) lines of findCab: with the counter positive there is a cab to take. */
  lemma CabIsFound(s: System, t: CabType)
    requires Inv(s) && s.open > 0
    ensures Choice(s.cabs, t) < |s.cabs|
  {
    OpenCounts(s.cabs);
    var i := SomeWaiting(s.cabs);
  }

  /** The converse fails: a rider is turned away with a cab to take exactly when there are as many waiting cabs as
      full pool cabs, and either one is waiting or the rider could share. */
  lemma TurnedAwayWithCabFree(s: System, t: CabType)
    requires Inv(s)
    ensures s.open == 0 && Choice(s.cabs, t) < |s.cabs| <==>
      && Waiting(s.cabs) == Full(s.cabs)
      && (Waiting(s.cabs) > 0 || (t == Pool && First(s.cabs, OnRidePoolOne) < |s.cabs|))
  {
    OpenCounts(s.cabs);
    if First(s.cabs, WaitState) < |s.cabs| {
      WaitingCounted(s.cabs, First(s.cabs, WaitState));
    }
    if Waiting(s.cabs) > 0 {
      var i := SomeWaiting(s.cabs);
    }
  }

  lemma {:induction false} WaitingCounted(cabs: seq<Cab>, i: nat)
    requires i < |cabs| && cabs[i].state == WaitState
    ensures Waiting(cabs) > 0
  {
    if i < |cabs| - 1 {
      WaitingCounted(cabs[..|cabs| - 1], i);
    }
  }

  /** The step itself; `s` stays where a step cannot be taken. */
  ghost function Do(s: System, e: Step): System
    requires Enabled(s, e)
  {
    match e
    case Book(r, t) =>
      var i := Choice(s.cabs, t);
      if s.open > 0 && i < |s.cabs| then System(s.cabs[i := Board(s.cabs[i], r, t)], s.open - 1, s.place[r := i]) else s
    case StopWaiting(r) => s
    case End(r) => System(s.cabs[s.place[r] := Leave(s.cabs[s.place[r]], r)], s.open + 1, s.place[r := NOBODY])
  }

  lemma BoardCarries(c: Cab, r: nat, t: CabType)
    requires Consistent(c) && !Carries(c, r) && (c.state == WaitState || (t == Pool && c.state == OnRidePoolOne))
    ensures var d := Board(c, r, t);
      Consistent(d) && Load(d) == Load(c) + 1 && forall x :: x >= 0 ==> (Carries(d, x) <==> x == r || Carries(c, x))
  {
  }

  lemma LeaveCarries(c: Cab, r: nat)
    requires Consistent(c) && Carries(c, r)
    ensures var d := Leave(c, r);
      Consistent(d) && Load(d) == Load(c) - 1 && forall x :: x >= 0 ==> (Carries(d, x) <==> Carries(c, x) && x != r)
  {
  }

  /** Rider `r` moves and one cab changes with it. */
  lemma MoveKeepsInv(s: System, u: System, r: nat, i: nat)
    requires Inv(s) && r < |s.place| && i < |s.cabs| && |u.cabs| == |s.cabs| && |u.place| == |s.place|
    requires u.cabs == s.cabs[i := u.cabs[i]] && u.place == s.place[r := u.place[r]] && Consistent(u.cabs[i])
    requires (s.place[r] == i && u.place[r] == NOBODY) || (s.place[r] == NOBODY && u.place[r] == i)
    requires forall x :: x >= 0 ==>
      (Carries(u.cabs[i], x) <==> if x == r then u.place[r] == i else Carries(s.cabs[i], x))
    requires u.open - s.open == Load(s.cabs[i]) - Load(u.cabs[i]) == if u.place[r] == i then -1 else 1
    requires u.open >= 0
    ensures Inv(u)
  {
    hide Riders, Aboard;
    RidersUpdate(s.cabs, i, u.cabs[i]);
    AboardUpdate(s.place, r, u.place[r]);
    forall j, x | 0 <= j < |u.cabs| && x >= 0 && Carries(u.cabs[j], x) ensures In(u, x, j) {
      if j != i || x != r {
        assert Carries(s.cabs[j], x);
        assert In(s, x, j);
      }
    }
    forall x | 0 <= x < |u.place|
      ensures u.place[x] == NOBODY || (0 <= u.place[x] < |u.cabs| && Carries(u.cabs[u.place[x]], x))
    {
      assert s.place[x] == NOBODY || Carries(s.cabs[s.place[x]], x);
    }
  }

  lemma StepKeepsInv(s: System, e: Step)
    requires Inv(s) && Enabled(s, e)
    ensures Inv(Do(s, e))
  {
    match e
    case Book(r, t) =>
      if s.open > 0 {
        CabIsFound(s, t);
        var i := Choice(s.cabs, t);
        assert !Carries(s.cabs[i], r);
        BoardCarries(s.cabs[i], r, t);
        MoveKeepsInv(s, Do(s, e), r, i);
      }
    case StopWaiting(r) =>
    case End(r) =>
      LeaveCarries(s.cabs[s.place[r]], r);
      MoveKeepsInv(s, Do(s, e), r, s.place[r]);
  }

  ghost predicate Legal(s: System, es: seq<Step>)
    decreases |es|
  {
    es == [] || (Enabled(s, es[0]) && Legal(Do(s, es[0]), es[1..]))
  }

  ghost function Final(s: System, es: seq<Step>): System
    requires Legal(s, es)
    decreases |es|
  {
    if es == [] then s else Final(Do(s, es[0]), es[1..])
  }

  /** In every interleaving the counter is the cabs minus the riders in them and never negative, cab states agree
      with the riders recorded in them, each rider is in at most one cab, and findCab finds a cab when called. */
  lemma {:induction false} RunKeepsInv(s: System, es: seq<Step>)
    requires Inv(s) && Legal(s, es)
    ensures var u := Final(s, es); Inv(u) && (u.open > 0 ==> forall t :: Choice(u.cabs, t) < |u.cabs|)
    decreases |es|
  {
    if es == [] {
      if s.open > 0 {
        CabIsFound(s, Pool);
        CabIsFound(s, Premier);
      }
    } else {
      StepKeepsInv(s, es[0]);
      RunKeepsInv(Do(s, es[0]), es[1..]);
    }
  }

  function AllWaiting(n: nat): (cabs: seq<Cab>)
    ensures |cabs| == n && forall i :: 0 <= i < n ==> cabs[i] == Cab(WaitState, NOBODY, NOBODY)
  {
    if n == 0 then [] else AllWaiting(n - 1) + [Cab(WaitState, NOBODY, NOBODY)]
  }

  function AllOutside(n: nat): (place: seq<int>)
    ensures |place| == n && forall i :: 0 <= i < n ==> place[i] == NOBODY
  {
    if n == 0 then [] else AllOutside(n - 1) + [NOBODY]
  }

  lemma {:induction false} NobodyAboard(n: nat)
    ensures Riders(AllWaiting(n)) == 0 && Aboard(AllOutside(n)) == 0
  {
    if n > 0 {
      NobodyAboard(n - 1);
      assert AllWaiting(n)[..n - 1] == AllWaiting(n - 1) && AllOutside(n)[..n - 1] == AllOutside(n - 1);
    }
  }

  /** All cabs waiting and nobody in a cab. */
  lemma Start(cabs: nat, riders: nat)
    ensures Inv(System(AllWaiting(cabs), cabs, AllOutside(riders)))
  {
    NobodyAboard(cabs);
    NobodyAboard(riders);
    hide AllWaiting, AllOutside, Riders, Aboard;
  }

  /** Final states of short runs. */
  lemma RunOfOne(s: System, e: Step)
    requires Enabled(s, e)
    ensures Legal(s, [e]) && Final(s, [e]) == Do(s, e)
  {
    assert [e][1..] == [] && Legal(Do(s, e), []) && Final(Do(s, e), []) == Do(s, e);
  }

  lemma RunOfTwo(s: System, e: Step, d: Step)
    requires Enabled(s, e) && Enabled(Do(s, e), d)
    ensures Legal(s, [e, d]) && Final(s, [e, d]) == Do(Do(s, e), d)
  {
    assert [e, d][1..] == [d];
    RunOfOne(Do(s, e), d);
  }

  /** Two riders book a pool ride: they share a cab. */
  function TwoPoolRides(): seq<Step> {
    [Book(0, Pool), Book(1, Pool)]
  }

  /** With two cabs and three riders, rider 2 is then turned away although the second cab waits. */
  lemma TurnedAwayExample()
    ensures var s := System(AllWaiting(2), 2, AllOutside(3));
      && Legal(s, TwoPoolRides())
      && var u := Final(s, TwoPoolRides());
         && u.open == 0 && |u.cabs| == 2 && u.cabs[1].state == WaitState
         && Enabled(u, Book(2, Premier)) && Do(u, Book(2, Premier)) == u
  {
    hide First, AllWaiting, AllOutside, Legal, Final;
    var s := System(AllWaiting(2), 2, AllOutside(3));
    var a := Do(s, Book(0, Pool));
    assert First(s.cabs, OnRidePoolOne) == 2;
    assert a.cabs[0] == Cab(OnRidePoolOne, 0, NOBODY) && a.open == 1;
    assert First(a.cabs, OnRidePoolOne) == 0;
    RunOfTwo(s, Book(0, Pool), Book(1, Pool));
  }

  /** With one cab and two riders, rider 1 is turned away although there is a seat to share. */
  lemma NotSharedExample()
    ensures var s := System(AllWaiting(1), 1, AllOutside(2));
      && Legal(s, [Book(0, Pool)])
      && var u := Final(s, [Book(0, Pool)]);
         && u.open == 0 && |u.cabs| == 1 && u.cabs[0].state == OnRidePoolOne
         && Enabled(u, Book(1, Pool)) && Do(u, Book(1, Pool)) == u
  {
    hide First, AllWaiting, AllOutside, Legal, Final;
    var s := System(AllWaiting(1), 1, AllOutside(2));
    assert s.cabs[0].state == WaitState;
    assert First(s.cabs, OnRidePoolOne) == 1 && First(s.cabs, WaitState) == 0;
    RunOfOne(s, Book(0, Pool));
  }
}
