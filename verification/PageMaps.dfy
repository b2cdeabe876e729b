/**
 * What the steps of kalloc.c and vm.c do to memory: the free list, mapping and unmapping ranges of pages,
 * growing, the kernel's mappings and copying, with the frames each takes or gives back.
 */
module PageMaps {
  import opened PageTables

  const KERNBASE: nat := 0x8000_0000
  const PGSIZE: nat := 4096
  const WORD: nat := 0x1_0000_0000
  const PTE_W: nat := 2
  const PTE_U: nat := 4

  function Junk(next: nat): Page {
    seq(NPTENTRIES, i => if i == 0 then next else 0x0101_0101)
  }

  /** The free list: each free page holds the next one in its first word. */
  ghost predicate Chain(m: Memory, first: nat, head: nat, list: seq<nat>)
    decreases |list|
  {
    if list == [] then head == 0
    else head == list[0] && 0 < first <= head < TOP && head !in list[1..] && Chain(m, first, m[head][0], list[1..])
  }

  /** A list that begins like another one, up to page `f`, comes to `f`. */
  lemma {:induction false} ChainReaches(m: Memory, n: Memory, first: nat, head: nat, list: seq<nat>, f: nat,
                                        other: seq<nat>)
    requires Chain(m, first, head, list) && f in list && Chain(n, first, head, other)
    requires forall g :: g in list && g < TOP && g != f ==> n[g] == m[g]
    ensures f in other
    decreases |list|
  {
    if list[0] != f {
      ChainReaches(m, n, first, m[head][0], list[1..], f, other[1..]);
    }
  }

  /** No list of pages is the one that starts at `head`. */
  ghost predicate Endless(m: Memory, first: nat, head: nat) {
    forall list :: !Chain(m, first, head, list)
  }

  /** Freeing a page twice makes the free list run in a circle: it has no end any more. */
  lemma TwiceFreed(m: Memory, first: nat, head: nat, list: seq<nat>, f: nat)
    requires Chain(m, first, head, list) && f in list && first <= f < TOP
    ensures Endless(m[f := Junk(head)], first, f)
  {
    var n := m[f := Junk(head)];
    forall other ensures !Chain(n, first, f, other) {
      if other != [] && Chain(n, first, head, other[1..]) {
        ChainReaches(m, n, first, head, list, f, other[1..]);
      }
    }
  }

  lemma {:induction false} ChainKept(m: Memory, n: Memory, first: nat, head: nat, list: seq<nat>)
    requires Chain(m, first, head, list)
    requires forall f :: f in list && f < TOP ==> n[f] == m[f]
    ensures Chain(n, first, head, list)
    decreases |list|
  {
    if list != [] {
      assert list[0] in list;
      assert forall f :: f in list[1..] ==> f in list;
      ChainKept(m, n, first, m[head][0], list[1..]);
    }
  }

  function Members(list: seq<nat>): set<nat> {
    set f | f in list
  }

  lemma MembersTail(list: seq<nat>)
    requires list != []
    ensures Members(list) == Members(list[1..]) + {list[0]}
  {
    forall f | f in list ensures f == list[0] || f in list[1..] {
      var k :| 0 <= k < |list| && list[k] == f;
      assert k > 0 ==> list[1..][k - 1] == f;
    }
  }

  datatype MapResult = Mapped | NoMemory | Remap

  /** The flat map with page `v` given entry `e`. */
  ghost predicate FlatUpdate(m: Memory, n: Memory, pd: nat, v: nat, e: nat)
    requires pd < TOP
  {
    forall w :: 0 <= w < NPAGES ==> Pte(n, pd, w) == if w == v then e else Pte(m, pd, w)
  }

  lemma FlatAfterSame(s: State, u: State, n: Memory, pd: nat, v: nat, e: nat)
    requires pd < TOP && v < NPAGES && SamePtes(s, u, pd) && FlatUpdate(u.mem, n, pd, v, e)
    ensures FlatUpdate(s.mem, n, pd, v, e)
  {
  }

  /** The contents of the user pages of `s` and of the frames in hand are the same in `m`. */
  ghost predicate DataKept(s: State, m: Memory, pd: nat, hand: set<nat>)
    requires pd < TOP
  {
    && (forall f :: f in hand && f < TOP ==> m[f] == s.mem[f])
    && (forall k :: NPTENTRIES < k < NREFS && 0 <= Ref(s.mem, pd, k) < TOP ==>
         m[Ref(s.mem, pd, k)] == s.mem[Ref(s.mem, pd, k)])
  }

  lemma DataSame(s: State, pd: nat, hand: set<nat>)
    requires pd < TOP
    ensures DataKept(s, s.mem, pd, hand)
  {
  }

  lemma SamePte(s: State, t: State, pd: nat, v: nat)
    requires pd < TOP && v < NPAGES && SamePtes(s, t, pd)
    ensures Pte(t.mem, pd, v) == Pte(s.mem, pd, v)
  {
  }

  /** Adding a table and storing an entry in it touches no data. */
  lemma TableWrites(s: State, u: State, m: Memory, pd: nat, v: nat, t: nat, hand: set<nat>)
    requires Good(s, pd) && Good(u, pd) && v < NPAGES && hand <= s.spare && hand <= u.spare && SamePtes(s, u, pd)
    requires forall f :: 0 <= f < TOP && (f !in s.spare || f in hand) && f != pd ==> u.mem[f] == s.mem[f]
    requires Present(u.mem[pd][v / NPTENTRIES]) && t == Frame(u.mem[pd][v / NPTENTRIES])
    requires forall f :: 0 <= f < TOP && f != t ==> m[f] == u.mem[f]
    ensures DataKept(s, m, pd, hand)
  {
    assert Ref(u.mem, pd, 1 + v / NPTENTRIES) == t;
    assert Ref(s.mem, pd, 0) == pd;
    forall k | NPTENTRIES < k < NREFS && 0 <= Ref(s.mem, pd, k) < TOP
      ensures m[Ref(s.mem, pd, k)] == s.mem[Ref(s.mem, pd, k)]
    {
      assert Ref(u.mem, pd, k) == Ref(s.mem, pd, k);
    }
  }

  /** The directory keeps its entries; the table of page `v` is there at the end if `added`. */
  ghost predicate DirectoryStep(m: Memory, n: Memory, pd: nat, v: nat, added: bool)
    requires pd < TOP && v < NPAGES
  {
    && (forall i :: 0 <= i < NPTENTRIES && i != v / NPTENTRIES ==> n[pd][i] == m[pd][i])
    && (Present(m[pd][v / NPTENTRIES]) ==> n[pd][v / NPTENTRIES] == m[pd][v / NPTENTRIES])
    && (added ==> Present(n[pd][v / NPTENTRIES]))
    && (Present(n[pd][v / NPTENTRIES]) && !Present(m[pd][v / NPTENTRIES]) ==> UserWritable(n[pd][v / NPTENTRIES]))
  }

  /** The tables still to be made for pages v .. hi once those for lo .. v are there. */
  function Tables(d: Page, lo: nat, v: nat, hi: nat): nat
    requires hi <= NPAGES
    decreases hi - v
  {
    if v >= hi then 0
    else
      var first := v <= lo || (v - 1) / NPTENTRIES != v / NPTENTRIES;
      (if !Present(d[v / NPTENTRIES]) && first then 1 else 0) + Tables(d, lo, v + 1, hi)
  }

  /** What mappages is asked for: pages v0 .. n to frames from `f0` on; `before` frames were free. */
  datatype Goal = Goal(v0: nat, f0: nat, n: nat, perm: nat, before: nat)

  /** After `m` pages, none of which was there, with `after` free frames left. */
  ghost predicate Progress(s: State, hand: set<nat>, t: State, pd: nat, g: Goal, m: nat, after: nat) {
    && Mapping(s, hand, t, pd, g.v0, g.f0, g.perm, m) && g.v0 + m <= g.n <= NPAGES
    && (forall v :: g.v0 <= v < g.v0 + m ==> !Present(Pte(s.mem, pd, v)))
    && after + Tables(s.mem[pd], g.v0, g.v0, g.n) == g.before + Tables(s.mem[pd], g.v0, g.v0 + m, g.n)
  }

  /** Page v0 + m cannot be mapped: it is there already, or its table is missing and no frame is free. */
  ghost predicate Stuck(s: State, pd: nat, g: Goal, m: nat, r: MapResult, after: nat) {
    && r != Mapped && pd < TOP && g.v0 + m < g.n <= NPAGES
    && (r == Remap <==> Present(Pte(s.mem, pd, g.v0 + m)))
    && (r == NoMemory ==>
         after == 0 && Tables(s.mem[pd], g.v0, g.v0 + m, g.n) > Tables(s.mem[pd], g.v0, g.v0 + m + 1, g.n))
  }

  lemma StuckStep(s: State, hand: set<nat>, u: State, pd: nat, g: Goal, m: nat, r: MapResult, after: nat)
    requires Progress(s, hand, u, pd, g, m, after) && g.v0 + m < g.n && r != Mapped
    requires r == Remap <==> Present(Pte(u.mem, pd, g.v0 + m))
    requires r == NoMemory ==> !Present(u.mem[pd][(g.v0 + m) / NPTENTRIES]) && after == 0
    ensures Stuck(s, pd, g, m, r, after)
  {
    TablesNext(s.mem[pd], u.mem[pd], g.v0, g.v0 + m, g.n);
  }

  /** How mappages ends, with `m` pages mapped. */
  ghost predicate MapOutcome(s: State, hand: set<nat>, t: State, pd: nat, g: Goal, r: MapResult, m: nat, after: nat) {
    && Progress(s, hand, t, pd, g, m, after)
    && if r == Mapped then g.v0 + m == g.n else Stuck(s, pd, g, m, r, after)
  }

  /** mappages gives new directory entries every right, however it ends. */
  lemma MapOutcomeOpen(s: State, hand: set<nat>, t: State, pd: nat, g: Goal, r: MapResult, m: nat, after: nat)
    requires MapOutcome(s, hand, t, pd, g, r, m, after)
    ensures pd < TOP && (Open(s.mem[pd]) ==> Open(t.mem[pd]))
  {
    hide Tables, Stuck, Conserves, DataKept, Open;
    if Open(s.mem[pd]) {
      DirectoryOpen(s.mem[pd], t.mem[pd], g.v0, g.v0 + m);
    }
  }

  lemma ProgressGood(s: State, hand: set<nat>, t: State, pd: nat, g: Goal, m: nat, after: nat)
    requires Progress(s, hand, t, pd, g, m, after)
    ensures Good(t, pd)
  {
    hide Tables, Good;
  }

  lemma MappingFacts(s: State, hand: set<nat>, t: State, pd: nat, v0: nat, f0: nat, perm: nat, m: nat)
    requires Mapping(s, hand, t, pd, v0, f0, perm, m) && v0 + m < NPAGES
    ensures pd < TOP && Pte(t.mem, pd, v0 + m) == Pte(s.mem, pd, v0 + m)
    ensures Directory(s.mem[pd], t.mem[pd], v0, v0 + m)
  {
  }

  lemma ProgressStep(s: State, hand: set<nat>, u: State, t: State, pd: nat, g: Goal, m: nat, before: nat, after: nat)
    requires Progress(s, hand, u, pd, g, m, before) && Good(t, pd) && Conserves(u, t, pd) && g.v0 + m < g.n
    requires !Present(Pte(u.mem, pd, g.v0 + m))
    requires FlatUpdate(u.mem, t.mem, pd, g.v0 + m, Entry(g.f0 + m, g.perm))
    requires DirectoryStep(u.mem, t.mem, pd, g.v0 + m, true)
    requires DataKept(u, t.mem, pd, Rest(hand, g.v0, g.f0, m))
    requires after == before - if Present(u.mem[pd][(g.v0 + m) / NPTENTRIES]) then 0 else 1
    ensures Progress(s, hand, t, pd, g, m + 1, after)
  {
    hide Tables, Good, Conserves, FlatUpdate, DirectoryStep, DataKept, Directory, Mapping, Entry;
    MappingStep(s, hand, u, t, pd, g.v0, g.f0, g.perm, m);
    MappingFacts(s, hand, u, pd, g.v0, g.f0, g.perm, m);
    TablesNext(s.mem[pd], u.mem[pd], g.v0, g.v0 + m, g.n);
  }

  /** The frames of `hand` left after `m` pages from `v0` on took the frames from `f0` on. */
  function Rest(hand: set<nat>, v0: nat, f0: nat, m: nat): set<nat> {
    set f | f in hand && !(f0 <= f < f0 + m && v0 + (f - f0) < KERNPAGE)
  }

  /** The frames for user pages v0 .. hi, from `f0` on, are in hand. */
  ghost predicate InHand(hand: set<nat>, v0: nat, f0: nat, hi: nat) {
    forall f :: f0 <= f && v0 + (f - f0) < hi && v0 + (f - f0) < KERNPAGE ==> f in hand
  }

  lemma TablesNext(d: Page, e: Page, lo: nat, v: nat, hi: nat)
    requires hi <= NPAGES && lo <= v < hi && Directory(d, e, lo, v)
    ensures Tables(d, lo, v, hi) == (if Present(e[v / NPTENTRIES]) then 0 else 1) + Tables(d, lo, v + 1, hi)
  {
  }

  lemma RestNone(hand: set<nat>, v0: nat, f0: nat)
    ensures Rest(hand, v0, f0, 0) == hand
  {
  }

  lemma RestNext(hand: set<nat>, v0: nat, f0: nat, m: nat)
    ensures Rest(hand, v0, f0, m + 1) ==
      if v0 + m < KERNPAGE then Rest(hand, v0, f0, m) - {f0 + m} else Rest(hand, v0, f0, m)
  {
  }

  /** The directory after tables for pages lo .. v were made where missing. */
  ghost predicate Directory(d: Page, e: Page, lo: nat, v: nat) {
    && (forall i :: 0 <= i < NPTENTRIES && Present(d[i]) ==> e[i] == d[i])
    && (forall i :: 0 <= i < NPTENTRIES ==>
         (Present(e[i]) <==> Present(d[i]) || (lo < v && lo / NPTENTRIES <= i <= (v - 1) / NPTENTRIES)))
    && (forall i :: 0 <= i < NPTENTRIES && Present(e[i]) && !Present(d[i]) ==> UserWritable(e[i]))
  }

  lemma DirectoryOpen(d: Page, e: Page, lo: nat, v: nat)
    requires Directory(d, e, lo, v) && Open(d)
    ensures Open(e)
  {
    forall i | 0 <= i < 1024 && e[i] % 2 == 1 ensures UserWritable(e[i]) {
      assert Present(d[i]) || !Present(d[i]);
    }
  }

  /** `t` is `s` with `m` pages from `v0` on mapped to the frames from `f0` on. */
  ghost predicate Mapping(s: State, hand: set<nat>, t: State, pd: nat, v0: nat, f0: nat, perm: nat, m: nat) {
    && Good(s, pd) && Good(t, pd) && Conserves(s, t, pd) && perm < 4096 && v0 + m <= NPAGES
    && (forall w :: 0 <= w < NPAGES ==>
         Pte(t.mem, pd, w) == if v0 <= w < v0 + m then Entry(f0 + (w - v0), perm) else Pte(s.mem, pd, w))
    && Directory(s.mem[pd], t.mem[pd], v0, v0 + m)
    && DataKept(s, t.mem, pd, hand)
  }

  lemma MappingStart(s: State, hand: set<nat>, pd: nat, v0: nat, f0: nat, perm: nat)
    requires Good(s, pd) && perm < 4096 && v0 <= NPAGES
    ensures Mapping(s, hand, s, pd, v0, f0, perm, 0)
  {
  }

  lemma DirectoryNext(d: Page, u: Memory, t: Memory, pd: nat, lo: nat, v: nat)
    requires pd < TOP && lo <= v < NPAGES && Directory(d, u[pd], lo, v) && DirectoryStep(u, t, pd, v, true)
    ensures Directory(d, t[pd], lo, v + 1)
  {
    forall i | 0 <= i < NPTENTRIES
      ensures Present(t[pd][i]) <==> Present(d[i]) || (lo < v + 1 && lo / NPTENTRIES <= i <= v / NPTENTRIES)
    {
      assert i != v / NPTENTRIES ==> t[pd][i] == u[pd][i];
    }
  }

  /** Data kept from `s` to `u` and on to `m`; a frame that left the hand became a page. */
  lemma DataKeptNext(s: State, u: State, m: Memory, pd: nat, hand: set<nat>, h: set<nat>)
    requires pd < TOP && DataKept(s, u.mem, pd, hand) && DataKept(u, m, pd, h)
    requires forall f :: f in hand && f !in h && f < TOP ==>
      exists k :: NPTENTRIES < k < NREFS && Ref(u.mem, pd, k) == f
    requires forall k :: NPTENTRIES < k < NREFS && Ref(s.mem, pd, k) >= 0 ==> Ref(u.mem, pd, k) == Ref(s.mem, pd, k)
    ensures DataKept(s, m, pd, hand)
  {
    forall k | NPTENTRIES < k < NREFS && 0 <= Ref(s.mem, pd, k) < TOP
      ensures m[Ref(s.mem, pd, k)] == s.mem[Ref(s.mem, pd, k)]
    {
      assert Ref(u.mem, pd, k) == Ref(s.mem, pd, k);
    }
  }

  lemma MappingStep(s: State, hand: set<nat>, u: State, t: State, pd: nat, v0: nat, f0: nat, perm: nat, m: nat)
    requires Mapping(s, hand, u, pd, v0, f0, perm, m) && Good(t, pd) && Conserves(u, t, pd) && v0 + m < NPAGES
    requires forall v :: v0 <= v < v0 + m ==> !Present(Pte(s.mem, pd, v))
    requires FlatUpdate(u.mem, t.mem, pd, v0 + m, Entry(f0 + m, perm)) && DirectoryStep(u.mem, t.mem, pd, v0 + m, true)
    requires DataKept(u, t.mem, pd, Rest(hand, v0, f0, m))
    ensures Mapping(s, hand, t, pd, v0, f0, perm, m + 1)
  {
    ConservesTransitive(s, u, t, pd);
    DirectoryNext(s.mem[pd], u.mem, t.mem, pd, v0, v0 + m);
    forall f | f in hand && f !in Rest(hand, v0, f0, m) && f < TOP
      ensures exists k :: NPTENTRIES < k < NREFS && Ref(u.mem, pd, k) == f
    {
      assert Ref(u.mem, pd, PageSlot(v0 + (f - f0))) == f;
    }
    forall k | NPTENTRIES < k < NREFS && Ref(s.mem, pd, k) >= 0 ensures Ref(u.mem, pd, k) == Ref(s.mem, pd, k) {
    }
    DataKeptNext(s, u, t.mem, pd, hand, Rest(hand, v0, f0, m));
  }

  /** PGROUNDUP, as a page number. */
  function Up(sz: nat): nat {
    (sz + PGSIZE - 1) / PGSIZE
  }

  /** `t` is `s` with the pages lo .. hi unmapped and their frames spare. */
  ghost predicate Unmapping(s: State, t: State, pd: nat, lo: nat, hi: nat, hand: set<nat>) {
    && Good(s, pd) && Good(t, pd) && Conserves(s, t, pd) && t.mem[pd] == s.mem[pd]
    && (forall w :: 0 <= w < NPAGES ==>
         Pte(t.mem, pd, w) == if lo <= w < hi && Present(Pte(s.mem, pd, w)) then 0 else Pte(s.mem, pd, w))
    && (forall f :: f in hand && f < TOP ==> t.mem[f] == s.mem[f])
    && (forall w ::
          0 <= w < KERNPAGE && !(lo <= w < hi) && Present(Pte(s.mem, pd, w)) && Frame(Pte(s.mem, pd, w)) < TOP ==>
         t.mem[Frame(Pte(s.mem, pd, w))] == s.mem[Frame(Pte(s.mem, pd, w))])
  }

  ghost predicate Absent(s: State, pd: nat, lo: nat, hi: nat) {
    pd < TOP && forall w :: lo <= w < hi && w < NPAGES ==> !Present(Pte(s.mem, pd, w))
  }

  /** PGADDR(PDX(a) + 1, 0, 0) - PGSIZE is the last page of the table of `a`. */
  lemma SkipAddress(a: nat)
    requires a % PGSIZE == 0 && a / PGSIZE < KERNPAGE
    ensures var b := (a / 0x40_0000 + 1) * 0x40_0000 - PGSIZE;
      && a <= b && b % PGSIZE == 0 && b / PGSIZE + 1 == (a / PGSIZE / NPTENTRIES + 1) * NPTENTRIES <= KERNPAGE
  {
    var k := a / PGSIZE;
    var t := k / NPTENTRIES;
    assert a == PGSIZE * k && k == NPTENTRIES * t + k % NPTENTRIES;
    assert a == 0x40_0000 * t + PGSIZE * (k % NPTENTRIES);
    assert a / 0x40_0000 == t;
    assert (t + 1) * 0x40_0000 - PGSIZE == PGSIZE * (NPTENTRIES * (t + 1) - 1);
  }

  lemma UnmappingStart(s: State, pd: nat, lo: nat, hi: nat, hand: set<nat>)
    requires Good(s, pd)
    ensures Unmapping(s, s, pd, lo, lo, hand) && (lo <= hi ==> Absent(s, pd, hi, lo))
    ensures (lo >= hi ==> Unmapping(s, s, pd, lo, hi, hand))
  {
  }

  lemma UnmappingEnd(s: State, t: State, pd: nat, lo: nat, hi: nat, v: nat, hand: set<nat>)
    requires Unmapping(s, t, pd, lo, v, hand) && hi <= v && Absent(s, pd, hi, v)
    ensures Unmapping(s, t, pd, lo, hi, hand)
  {
  }

  lemma UnmappingNone(s: State, t: State, pd: nat, lo: nat, v: nat, hand: set<nat>)
    requires lo <= v < NPAGES && Unmapping(s, t, pd, lo, v, hand) && !Present(Pte(t.mem, pd, v))
    ensures Unmapping(s, t, pd, lo, v + 1, hand)
  {
    assert Pte(t.mem, pd, v) == Pte(s.mem, pd, v);
  }

  /** A missing table: every page up to the next table is unmapped. */
  lemma UnmappingSkip(s: State, t: State, pd: nat, lo: nat, v: nat, hand: set<nat>)
    requires lo <= v < NPAGES && Unmapping(s, t, pd, lo, v, hand) && !Present(t.mem[pd][v / NPTENTRIES])
    ensures Unmapping(s, t, pd, lo, (v / NPTENTRIES + 1) * NPTENTRIES, hand)
    ensures forall w :: v <= w < (v / NPTENTRIES + 1) * NPTENTRIES ==> !Present(Pte(s.mem, pd, w))
  {
    forall w | v <= w < (v / NPTENTRIES + 1) * NPTENTRIES ensures !Present(Pte(s.mem, pd, w)) {
      assert w / NPTENTRIES == v / NPTENTRIES;
      assert Pte(t.mem, pd, w) == Pte(s.mem, pd, w);
    }
  }

  lemma UnmappingStep(s: State, t: State, pd: nat, lo: nat, v: nat, hand: set<nat>, junk: Page)
    requires lo <= v < KERNPAGE && Unmapping(s, t, pd, lo, v, hand) && hand <= t.spare
    requires Present(t.mem[pd][v / NPTENTRIES]) && Present(Pte(t.mem, pd, v))
    ensures Frame(t.mem[pd][v / NPTENTRIES]) < TOP && Frame(Pte(t.mem, pd, v)) < TOP
    ensures Unmapping(s, UnmapPage(t, pd, v, junk), pd, lo, v + 1, hand)
  {
    UnmapPageFlat(t, pd, v, junk);
    UnmapPageKeeps(t, pd, v, junk);
    var u := UnmapPage(t, pd, v, junk);
    ConservesTransitive(s, t, u, pd);
    UnmapPageData(t, pd, v, junk, hand);
    forall w | 0 <= w < KERNPAGE && !(lo <= w < v + 1) && Present(Pte(s.mem, pd, w)) && Frame(Pte(s.mem, pd, w)) < TOP
      ensures u.mem[Frame(Pte(s.mem, pd, w))] == s.mem[Frame(Pte(s.mem, pd, w))]
    {
      assert Pte(t.mem, pd, w) == Pte(s.mem, pd, w);
    }
  }

  /** Unmapping one page leaves the contents of the others and of frames in hand. */
  lemma UnmapPageData(t: State, pd: nat, v: nat, junk: Page, hand: set<nat>)
    requires Good(t, pd) && v < KERNPAGE && hand <= t.spare
    requires Present(t.mem[pd][v / NPTENTRIES]) && Present(Pte(t.mem, pd, v))
    requires Frame(t.mem[pd][v / NPTENTRIES]) < TOP && Frame(Pte(t.mem, pd, v)) < TOP
    ensures var u := UnmapPage(t, pd, v, junk);
      && (forall f :: f in hand && f < TOP ==> u.mem[f] == t.mem[f])
      && (forall w :: 0 <= w < KERNPAGE && w != v && Present(Pte(t.mem, pd, w)) && Frame(Pte(t.mem, pd, w)) < TOP ==>
           u.mem[Frame(Pte(t.mem, pd, w))] == t.mem[Frame(Pte(t.mem, pd, w))])
  {
    assert Ref(t.mem, pd, PageSlot(v)) == Frame(Pte(t.mem, pd, v));
    assert Ref(t.mem, pd, 1 + v / NPTENTRIES) == Frame(t.mem[pd][v / NPTENTRIES]);
    var u := UnmapPage(t, pd, v, junk);
    forall w | 0 <= w < KERNPAGE && w != v && Present(Pte(t.mem, pd, w)) && Frame(Pte(t.mem, pd, w)) < TOP
      ensures u.mem[Frame(Pte(t.mem, pd, w))] == t.mem[Frame(Pte(t.mem, pd, w))]
    {
      assert Ref(t.mem, pd, PageSlot(w)) == Frame(Pte(t.mem, pd, w));
    }
  }

  /** One of the first `i` tables is in frame `f`. */
  ghost predicate InTable(t: State, pd: nat, i: nat, f: nat) {
    pd < TOP && i <= NPTENTRIES && exists k :: 1 <= k <= i && Ref(t.mem, pd, k) == f
  }

  /** `u` is `t` with the first `i` tables freed. */
  ghost predicate TablesFreed(t: State, u: State, pd: nat, i: nat) {
    && Good(t, pd) && u.first == t.first && i <= NPTENTRIES
    && (forall f: nat :: f in u.spare <==> f in t.spare || InTable(t, pd, i, f))
    && (forall f :: 0 <= f < TOP && f !in u.spare ==> u.mem[f] == t.mem[f])
    && u.mem[pd] == t.mem[pd]
  }

  lemma TablesFreedNext(t: State, u: State, pd: nat, i: nat, junk: Page)
    requires TablesFreed(t, u, pd, i) && i < NPTENTRIES
    ensures !Present(u.mem[pd][i]) ==> TablesFreed(t, u, pd, i + 1)
    ensures Present(u.mem[pd][i]) ==>
      && t.first <= Frame(u.mem[pd][i]) < TOP && Frame(u.mem[pd][i]) !in u.spare
      && TablesFreed(t, State(t.first, u.mem[Frame(u.mem[pd][i]) := junk], u.spare + {Frame(u.mem[pd][i])}), pd, i + 1)
  {
    var f := Ref(t.mem, pd, 1 + i);
    assert f == EntryFrame(u.mem[pd][i]);
    assert Ref(t.mem, pd, 0) == pd;
    forall g: nat ensures InTable(t, pd, i + 1, g) <==> g == f || InTable(t, pd, i, g) {
    }
  }

  lemma DirectoryHeld(t: State, u: State, pd: nat)
    requires TablesFreed(t, u, pd, NPTENTRIES)
    ensures t.first <= pd < TOP && pd !in u.spare
  {
    assert Ref(t.mem, pd, 0) == pd;
  }

  /** The frames of the space are spare, and no other frame is touched. */
  ghost predicate Released(s: State, t: State, pd: nat) {
    && pd < TOP && t.first == s.first
    && (forall f: nat :: f in t.spare <==> f in s.spare || Holds(s, pd, f))
    && (forall f :: 0 <= f < TOP && f !in t.spare ==> t.mem[f] == s.mem[f])
  }

  lemma AllReleased(s: State, t: State, u: State, e: State, pd: nat)
    requires Unmapping(s, t, pd, 0, KERNPAGE, {}) && TablesFreed(t, u, pd, NPTENTRIES)
    requires e.first == u.first && e.spare == u.spare + {pd}
    requires forall f :: 0 <= f < TOP && f != pd ==> e.mem[f] == u.mem[f]
    ensures Released(s, e, pd)
  {
    forall k | NPTENTRIES < k < NREFS ensures Ref(t.mem, pd, k) == -1 {
      assert !Present(Pte(t.mem, pd, k - NPTENTRIES - 1));
    }
    assert Ref(t.mem, pd, 0) == pd;
    forall f: nat ensures f in e.spare <==> f in t.spare || Holds(t, pd, f) {
      assert Holds(t, pd, f) <==> f == pd || InTable(t, pd, NPTENTRIES, f);
    }
    forall f | 0 <= f < TOP && f !in e.spare ensures e.mem[f] == s.mem[f] {
      assert f !in s.spare && !Holds(s, pd, f);
    }
  }

  /** The frame `f`, if it is one. */
  function Hand(f: nat): set<nat> {
    if f == 0 then {} else {f}
  }

  lemma RestEmpty(v0: nat, f0: nat, m: nat)
    ensures Rest({}, v0, f0, m) == {}
  {
  }

  lemma RestOne(v: nat, f: nat)
    requires v < KERNPAGE
    ensures Rest({f}, v, f, 0) == {f} && Rest({f}, v, f, 1) == {} && InHand({f}, v, f, v + 1)
    ensures v * PGSIZE / PGSIZE == v && f * PGSIZE / PGSIZE == f && (v * PGSIZE + PGSIZE - 1) / PGSIZE == v
    ensures v * PGSIZE + PGSIZE <= WORD && f * PGSIZE % PGSIZE == 0
  {
  }

  /** What allocuvm is asked for: user pages lo .. hi, with `before` frames free. */
  datatype Growth = Growth(lo: nat, hi: nat, before: nat)

  /** Page `w` is mapped with these flags and contents. */
  ghost predicate PageIs(t: State, pd: nat, w: nat, flags: nat, page: Page)
    requires pd < TOP && w < NPAGES
  {
    var e := Pte(t.mem, pd, w);
    Flags(e) == flags && Frame(e) < TOP && t.mem[Frame(e)] == page
  }

  /** User page `w` is mapped writable and holds zeros. */
  ghost predicate ZeroPage(t: State, pd: nat, w: nat)
    requires pd < TOP && w < NPAGES
  {
    PageIs(t, pd, w, PTE_W + PTE_U + 1, Blank())
  }

  /** User page `w` has the same entry and contents. */
  ghost predicate SamePage(s: State, t: State, pd: nat, w: nat)
    requires pd < TOP && w < NPAGES
  {
    var e := Pte(s.mem, pd, w);
    Pte(t.mem, pd, w) == e && (w < KERNPAGE && Present(e) && Frame(e) < TOP ==> t.mem[Frame(e)] == s.mem[Frame(e)])
  }

  /** `t` is `s` with zeroed pages lo .. v. */
  ghost predicate Grown(s: State, t: State, pd: nat, lo: nat, v: nat) {
    && Good(s, pd) && Good(t, pd) && Conserves(s, t, pd) && lo <= v <= KERNPAGE
    && (forall w :: lo <= w < v ==> ZeroPage(t, pd, w))
    && (forall w :: 0 <= w < NPAGES && !(lo <= w < v) ==> SamePage(s, t, pd, w))
    && Directory(s.mem[pd], t.mem[pd], lo, v)
  }

  ghost predicate Growing(s: State, t: State, pd: nat, g: Growth, v: nat, after: nat) {
    && Grown(s, t, pd, g.lo, v) && v <= g.hi <= KERNPAGE
    && after + (v - g.lo) + Tables(s.mem[pd], g.lo, g.lo, g.hi) == g.before + Tables(s.mem[pd], g.lo, v, g.hi)
  }

  /** Page `v` could not be added: there are too few frames. */
  ghost predicate Overgrown(s: State, t: State, pd: nat, g: Growth, v: nat) {
    && Grown(s, t, pd, g.lo, v) && v <= g.hi <= KERNPAGE
    && g.before < g.hi - g.lo + Tables(s.mem[pd], g.lo, g.lo, g.hi)
  }

  /** `y` is `t` after kalloc, memset and mappages of page `v`, which maps it if `m` is 1. */
  ghost predicate OnePage(t: State, y: State, pd: nat, v: nat, m: nat, flags: nat, page: Page) {
    && Good(t, pd) && Good(y, pd) && Conserves(t, y, pd) && v < KERNPAGE && m <= 1
    && (m == 1 ==> PageIs(y, pd, v, flags, page))
    && (forall w :: 0 <= w < NPAGES && (w != v || m == 0) ==> SamePage(t, y, pd, w))
    && Directory(t.mem[pd], y.mem[pd], v, v + m)
  }

  lemma OnePageSame(t: State, u: State, y: State, pd: nat, f: nat, page: Page, w: nat)
    requires Good(t, pd) && f in t.spare && f < TOP && u == State(t.first, t.mem[f := page], t.spare) && w < NPAGES
    requires Good(u, pd) && Pte(u.mem, pd, w) == Pte(t.mem, pd, w) && Pte(y.mem, pd, w) == Pte(u.mem, pd, w)
    requires DataKept(u, y.mem, pd, {f})
    ensures SamePage(t, y, pd, w)
  {
    if w < KERNPAGE {
      assert Ref(u.mem, pd, PageSlot(w)) == EntryFrame(Pte(u.mem, pd, w));
    }
  }

  lemma OnePageMapped(t: State, u: State, y: State, pd: nat, v: nat, f: nat, m: nat, perm: nat, page: Page)
    requires Good(t, pd) && f in t.spare && f < TOP && u == State(t.first, t.mem[f := page], t.spare) && v < KERNPAGE
    requires Good(u, pd) && SamePtes(t, u, pd) && Conserves(t, u, pd) && m <= 1 && perm < 4096
    requires Mapping(u, {f}, y, pd, v, f, perm, m)
    ensures OnePage(t, y, pd, v, m, Flags(Entry(f, perm)), page)
  {
    ConservesTransitive(t, u, y, pd);
    assert Ref(t.mem, pd, 0) == pd && f != pd;
    assert y.mem[f] == page;
    hide Good, Conserves, DataKept, SamePage;
    forall w | 0 <= w < NPAGES && (w != v || m == 0) ensures SamePage(t, y, pd, w) {
      OnePageSame(t, u, y, pd, f, page, w);
    }
  }

  /** How many frames one page took. */
  lemma OnePageCount(u: State, y: State, pd: nat, goal: Goal, r: MapResult, m: nat, after: nat, hand: set<nat>)
    requires MapOutcome(u, hand, y, pd, goal, r, m, after) && goal.n == goal.v0 + 1 && !Present(Pte(u.mem, pd, goal.v0))
    ensures r != Remap && m == if r == Mapped then 1 else 0
    ensures after == goal.before - if r == Mapped && !Present(u.mem[pd][goal.v0 / NPTENTRIES]) then 1 else 0
    ensures r == NoMemory ==> !Present(u.mem[pd][goal.v0 / NPTENTRIES]) && goal.before == 0
  {
    assert Tables(u.mem[pd], goal.v0, goal.v0 + 1, goal.n) == 0;
  }

  lemma DirectoryCompose(c: Page, d: Page, e: Page, lo: nat, v: nat, m: nat)
    requires lo <= v && m <= 1 && Directory(c, d, lo, v) && Directory(d, e, v, v + m)
    ensures Directory(c, e, lo, v + m)
  {
  }

  lemma FlagsPresent(e: nat)
    ensures Present(e) <==> Flags(e) % 2 == 1
  {
  }

  /** An address that is a multiple of the page size. */
  lemma PageStart(v: nat, sz: nat)
    ensures v * PGSIZE / PGSIZE == v && (v * PGSIZE < sz <==> v < Up(sz))
  {
  }

  lemma GrownNext(s: State, t: State, y: State, pd: nat, lo: nat, v: nat, m: nat)
    requires Grown(s, t, pd, lo, v) && OnePage(t, y, pd, v, m, PTE_W + PTE_U + 1, Blank())
    ensures Grown(s, y, pd, lo, v + m)
  {
    ConservesTransitive(s, t, y, pd);
    DirectoryCompose(s.mem[pd], t.mem[pd], y.mem[pd], lo, v, m);
    hide Good, Conserves, Directory, ZeroPage, SamePage;
    forall w | lo <= w < v + m ensures ZeroPage(y, pd, w) {
      ZeroPageNext(t, y, pd, v, m, w);
    }
    forall w | 0 <= w < NPAGES && !(lo <= w < v + m) ensures SamePage(s, y, pd, w) {
      SamePageNext(s, t, y, pd, w);
    }
  }

  lemma ZeroPageNext(t: State, y: State, pd: nat, v: nat, m: nat, w: nat)
    requires pd < TOP && w < KERNPAGE
    requires (if w == v && m == 1 then PageIs(y, pd, v, PTE_W + PTE_U + 1, Blank())
      else ZeroPage(t, pd, w) && SamePage(t, y, pd, w))
    ensures ZeroPage(y, pd, w)
  {
    FlagsPresent(Pte(t.mem, pd, w));
  }

  lemma SamePageNext(s: State, t: State, y: State, pd: nat, w: nat)
    requires pd < TOP && w < NPAGES && SamePage(s, t, pd, w) && SamePage(t, y, pd, w)
    ensures SamePage(s, y, pd, w)
  {
  }

  /** `t` to `y` through kalloc, memset and mappages of one page. */
  lemma GrowStep(s: State, t: State, u: State, y: State, pd: nat, g: Growth, v: nat, f: nat, goal: Goal, r: MapResult,
                 m: nat,
                 before: nat, after: nat)
    requires Growing(s, t, pd, g, v, before) && g.lo <= v < g.hi && Absent(s, pd, v, g.hi)
    requires before > 0 && goal == Goal(v, f, v + 1, PTE_W + PTE_U, before - 1)
    requires f in t.spare && f < TOP && u == State(t.first, t.mem[f := Blank()], t.spare)
    requires Good(u, pd) && SamePtes(t, u, pd) && Conserves(t, u, pd)
    requires MapOutcome(u, {f}, y, pd, goal, r, m, after)
    ensures r == Mapped ==> Growing(s, y, pd, g, v + 1, after)
    ensures r != Mapped ==> Overgrown(s, y, pd, g, v)
  {
    hide Open, UserWritable, Entry, DataKept, PageIs, ZeroPage, Conserves, SamePtes;
    assert SamePage(s, t, pd, v);
    assert Ref(t.mem, pd, 0) == pd;
    OnePageCount(u, y, pd, goal, r, m, after, {f});
    OnePageMapped(t, u, y, pd, v, f, m, PTE_W + PTE_U, Blank());
    GrownNext(s, t, y, pd, g.lo, v, m);
    TablesNext(s.mem[pd], t.mem[pd], g.lo, v, g.hi);
  }

  lemma GrowingStart(s: State, pd: nat, g: Growth)
    requires Good(s, pd) && g.lo <= g.hi <= KERNPAGE
    ensures Growing(s, s, pd, g, g.lo, g.before)
  {
  }

  lemma AbsentFrom(s: State, pd: nat, lo: nat, v: nat, hi: nat)
    requires Absent(s, pd, lo, hi) && lo <= v
    ensures Absent(s, pd, v, hi)
  {
  }

  lemma AllGrown(s: State, t: State, pd: nat, g: Growth, after: nat)
    requires Growing(s, t, pd, g, g.hi, after)
    ensures Grown(s, t, pd, g.lo, g.hi) && g.before >= g.hi - g.lo + Tables(s.mem[pd], g.lo, g.lo, g.hi)
  {
    assert Tables(s.mem[pd], g.lo, g.hi, g.hi) == 0;
  }

  /** The processor's view of allocuvm: every new page can be written and used by the user, and holds zeros; every
      other address means what it meant. */
  lemma GrownMmu(s: State, t: State, pd: nat, lo: nat, v: nat)
    requires Grown(s, t, pd, lo, v) && Open(s.mem[pd])
    ensures Open(t.mem[pd])
    ensures forall a :: lo * 4096 <= a < v * 4096 ==>
      && Mmu(t.mem, pd, a).Reach? && Mmu(t.mem, pd, a).write && Mmu(t.mem, pd, a).user
      && Mmu(t.mem, pd, a).frame < 0xE000 && forall o :: 0 <= o < 1024 ==> t.mem[Mmu(t.mem, pd, a).frame][o] == 0
    ensures forall a :: 0 <= a < 0x1_0000_0000 && !(lo * 4096 <= a < v * 4096) ==>
      Mmu(t.mem, pd, a) == Mmu(s.mem, pd, a)
  {
    DirectoryOpen(s.mem[pd], t.mem[pd], lo, v);
    hide Good, Conserves, Open, Pte, Mmu;
    forall a | lo * 4096 <= a < v * 4096
      ensures Mmu(t.mem, pd, a).Reach? && Mmu(t.mem, pd, a).write && Mmu(t.mem, pd, a).user
      ensures Mmu(t.mem, pd, a).frame < 0xE000 && t.mem[Mmu(t.mem, pd, a).frame] == Blank()
    {
      MmuPte(t.mem, pd, a);
      assert ZeroPage(t, pd, a / 4096);
      FlagBits(Pte(t.mem, pd, a / 4096));
    }
    forall a | 0 <= a < 0x1_0000_0000 && !(lo * 4096 <= a < v * 4096) ensures Mmu(t.mem, pd, a) == Mmu(s.mem, pd, a) {
      assert SamePage(s, t, pd, a / 4096);
      MmuSame(s.mem, t.mem, pd, a);
    }
  }

  /** `e` has the pages of `s`; a frame that was spare and no longer is holds a new table. */
  ghost predicate Reverted(s: State, e: State, pd: nat) {
    && Good(s, pd) && Good(e, pd) && Conserves(s, e, pd)
    && (forall w :: 0 <= w < NPAGES ==>
         if Present(Pte(s.mem, pd, w)) then SamePage(s, e, pd, w) else !Present(Pte(e.mem, pd, w)))
    && (forall i :: 0 <= i < NPTENTRIES && Present(s.mem[pd][i]) ==> e.mem[pd][i] == s.mem[pd][i])
    && e.spare <= s.spare
    && (forall f :: f in s.spare && f !in e.spare ==>
         exists k :: 1 <= k <= NPTENTRIES && Ref(s.mem, pd, k) < 0 && Ref(e.mem, pd, k) == f)
    && (Open(s.mem[pd]) ==> Open(e.mem[pd]))
  }

  lemma UndoReverts(s: State, y: State, z: State, e: State, pd: nat, lo: nat, v: nat, hi: nat, h: set<nat>)
    requires Grown(s, y, pd, lo, v) && v <= hi && Absent(s, pd, lo, hi) && Unmapping(y, z, pd, lo, hi, h)
    requires Good(e, pd) && SamePtes(z, e, pd) && SameRefs(z, e, pd) && Conserves(z, e, pd) && e.spare == z.spare
    requires forall f :: 0 <= f < TOP && f !in z.spare ==> e.mem[f] == z.mem[f]
    ensures Reverted(s, e, pd)
  {
    ConservesTransitive(s, y, z, pd);
    ConservesTransitive(s, z, e, pd);
    assert Ref(z.mem, pd, 0) == pd;
    forall w | 0 <= w < NPAGES
      ensures if Present(Pte(s.mem, pd, w)) then SamePage(s, e, pd, w) else !Present(Pte(e.mem, pd, w))
    {
      PageReverts(s, y, z, e, pd, lo, v, hi, h, w);
    }
    FramesReverted(s, e, pd);
    if Open(s.mem[pd]) {
      DirectoryOpen(s.mem[pd], y.mem[pd], lo, v);
    }
  }

  lemma PageReverts(s: State, y: State, z: State, e: State, pd: nat, lo: nat, v: nat, hi: nat, h: set<nat>, w: nat)
    requires Grown(s, y, pd, lo, v) && v <= hi && Absent(s, pd, lo, hi) && Unmapping(y, z, pd, lo, hi, h)
    requires Good(e, pd) && SamePtes(z, e, pd) && w < NPAGES
    requires forall f :: 0 <= f < TOP && f !in z.spare ==> e.mem[f] == z.mem[f]
    ensures if Present(Pte(s.mem, pd, w)) then SamePage(s, e, pd, w) else !Present(Pte(e.mem, pd, w))
  {
    hide Conserves, ZeroPage, Directory;
    if lo <= w < hi {
      assert !Present(Pte(z.mem, pd, w));
    } else {
      assert SamePage(s, y, pd, w);
      if w < KERNPAGE && Present(Pte(s.mem, pd, w)) {
        assert Ref(z.mem, pd, PageSlot(w)) == Frame(Pte(s.mem, pd, w));
      }
    }
  }

  /** Where the map is the same and tables stay, frames can only have gone into new tables. */
  lemma FramesReverted(s: State, e: State, pd: nat)
    requires Good(s, pd) && Good(e, pd) && Conserves(s, e, pd)
    requires forall w :: 0 <= w < NPAGES ==>
      if Present(Pte(s.mem, pd, w)) then SamePage(s, e, pd, w) else !Present(Pte(e.mem, pd, w))
    requires forall i :: 0 <= i < NPTENTRIES && Present(s.mem[pd][i]) ==> e.mem[pd][i] == s.mem[pd][i]
    ensures e.spare <= s.spare
    ensures forall f :: f in s.spare && f !in e.spare ==>
      exists k :: 1 <= k <= NPTENTRIES && Ref(s.mem, pd, k) < 0 && Ref(e.mem, pd, k) == f
  {
    forall k | 0 <= k < NREFS && (k > NPTENTRIES || Ref(s.mem, pd, k) >= 0)
      ensures Ref(e.mem, pd, k) == Ref(s.mem, pd, k)
    {
      if k > NPTENTRIES {
        var w := k - NPTENTRIES - 1;
        assert Present(Pte(s.mem, pd, w)) ==> SamePage(s, e, pd, w);
      }
    }
    forall f: nat | Holds(s, pd, f) ensures f !in e.spare {
      var k :| 0 <= k < NREFS && Ref(s.mem, pd, k) == f;
      assert Ref(e.mem, pd, k) == f;
    }
    forall f | f in s.spare && f !in e.spare
      ensures exists k :: 1 <= k <= NPTENTRIES && Ref(s.mem, pd, k) < 0 && Ref(e.mem, pd, k) == f
    {
      assert Holds(e, pd, f);
      var k :| 0 <= k < NREFS && Ref(e.mem, pd, k) == f;
      assert Ref(s.mem, pd, 0) == pd;
    }
  }

  // ------------------------------------------------------------------ setupkvm

  const EXTMEM: nat := 0x10_0000
  const PHYSTOP: nat := 0xE00_0000
  const DEVSPACE: nat := 0xFE00_0000

  /** One frame for the directory, 56 tables up to PHYSTOP and 8 for the devices. */
  const KVMFRAMES: nat := 65

  datatype KmapEntry = KmapEntry(virt: nat, physStart: nat, physEnd: nat, perm: nat)

  /** The kernel is linked at KERNBASE + EXTMEM; its data starts on a later page, below PHYSTOP. */
  predicate DataAddress(data: nat) {
    data % PGSIZE == 0 && KERNBASE + EXTMEM < data < KERNBASE + PHYSTOP
  }

  function Kmap(data: nat): (t: seq<KmapEntry>)
    requires DataAddress(data)
    ensures |t| == 4
  {
    [KmapEntry(KERNBASE, 0, EXTMEM, PTE_W),
     KmapEntry(KERNBASE + EXTMEM, EXTMEM, data - KERNBASE, 0),
     KmapEntry(data, data - KERNBASE, PHYSTOP, PTE_W),
     KmapEntry(DEVSPACE, DEVSPACE, 0, PTE_W)]
  }

  /** The pages of the k-th kmap entry when the data starts at page `d`. */
  function KLo(d: nat, k: nat): nat {
    if k == 0 then KERNPAGE else if k == 1 then KERNPAGE + 0x100 else if k == 2 then d else 0xFE000
  }

  function KHi(d: nat, k: nat): nat {
    if k == 0 then KERNPAGE + 0x100 else if k == 1 then d else if k == 2 then KERNPAGE + TOP else NPAGES
  }

  function KGoal(d: nat, k: nat, before: nat): Goal {
    Goal(KLo(d, k), if k == 3 then 0xFE000 else if KLo(d, k) >= KERNPAGE then KLo(d, k) - KERNPAGE else 0, KHi(d, k),
         if k == 1 then 0 else PTE_W, before)
  }

  lemma KmapRange(data: nat, k: nat, before: nat)
    requires DataAddress(data) && k < 4
    ensures var e, d := Kmap(data)[k], data / PGSIZE;
      var size := (e.physEnd - e.physStart) % WORD;
      && 0 < size && e.virt + size <= WORD && e.physStart % PGSIZE == 0 && e.perm < 4096
      && KGoal(d, k, before)
           == Goal(e.virt / PGSIZE, e.physStart / PGSIZE, (e.virt + size - 1) / PGSIZE + 1, e.perm, before)
      && KERNPAGE + 0x100 < d < KERNPAGE + TOP
      && InHand({}, e.virt / PGSIZE, e.physStart / PGSIZE, (e.virt + size - 1) / PGSIZE + 1)
  {
  }

  /** The kernel's part of the flat map once the first `k` kmap entries are in: the rest is 0. */
  function KernelPte(d: nat, k: nat, v: nat): nat {
    if 0 < k && KERNPAGE <= v < KERNPAGE + 0x100 then Entry(v - KERNPAGE, PTE_W)
    else if 1 < k && KERNPAGE + 0x100 <= v < d then Entry(v - KERNPAGE, 0)
    else if 2 < k && KERNPAGE + 0x100 < d <= v < KERNPAGE + TOP then Entry(v - KERNPAGE, PTE_W)
    else if 3 < k && 0xFE000 <= v then Entry(v, PTE_W)
    else 0
  }

  /** Which tables exist then. */
  predicate KernelTable(d: nat, k: nat, i: nat) {
    || (0 < k && i == 512)
    || (1 < k && 512 <= i && d > 0 && i <= (d - 1) / NPTENTRIES)
    || (2 < k && 512 <= i < 568)
    || (3 < k && 1016 <= i)
  }

  /** How many. */
  function Made(d: nat, k: nat): int {
    if k == 0 then 0 else if k == 1 then 1 else if k == 2 then (d - 1) / NPTENTRIES - 511 else if k == 3 then 56 else 64
  }

  /** A new space whose frames all came from the spare ones of `s`. */
  ghost predicate Fresh(s: State, t: State, pd: nat) {
    && Good(t, pd) && t.first == s.first
    && (forall f: nat :: f in t.spare || Holds(t, pd, f) <==> f in s.spare)
    && (forall f :: 0 <= f < TOP && f !in s.spare ==> t.mem[f] == s.mem[f])
  }

  /** A new space with the first `k` kernel mappings. */
  ghost predicate Kspace(s: State, t: State, pd: nat, d: nat, k: nat) {
    && Fresh(s, t, pd)
    && (forall v :: 0 <= v < NPAGES ==> Pte(t.mem, pd, v) == KernelPte(d, k, v))
    && (forall i :: 0 <= i < NPTENTRIES ==> (Present(t.mem[pd][i]) <==> KernelTable(d, k, i)))
    && Open(t.mem[pd])
  }

  /** Only spare frames differ. */
  ghost predicate SpareOnly(s: State, t: State) {
    forall f :: 0 <= f < TOP && f !in s.spare ==> t.mem[f] == s.mem[f]
  }

  lemma NewSpace(s: State, t: State, pd: nat, d: nat)
    requires 0 < s.first <= pd < TOP && pd in s.spare && t == State(s.first, s.mem[pd := Blank()], s.spare - {pd})
    ensures Kspace(s, t, pd, d, 0)
  {
    forall k | 0 <= k < NREFS ensures Ref(t.mem, pd, k) == if k == 0 then pd else -1 {
    }
    forall f: nat ensures Holds(t, pd, f) <==> f == pd {
      assert Ref(t.mem, pd, 0) == pd;
    }
  }

  lemma FreshStep(s: State, u: State, y: State, pd: nat)
    requires Fresh(s, u, pd) && Good(y, pd) && Conserves(u, y, pd)
    ensures Fresh(s, y, pd)
  {
    forall f | 0 <= f < TOP && f !in s.spare ensures y.mem[f] == s.mem[f] {
      assert f !in u.spare && !Holds(u, pd, f);
    }
  }

  /** freevm of a new space gives back exactly the frames that were spare before it. */
  lemma FreshReleased(s: State, t: State, pd: nat)
    requires Fresh(s, t, pd)
    ensures forall e :: Released(t, e, pd) ==> e.spare == s.spare && SpareOnly(s, e)
  {
    forall e | Released(t, e, pd) ensures e.spare == s.spare && SpareOnly(s, e) {
      assert forall f: nat :: f in e.spare <==> f in s.spare;
    }
  }

  lemma KspaceNext(s: State, u: State, y: State, pd: nat, d: nat, k: nat, r: MapResult, m: nat, before: nat, after: nat)
    requires k < 4 && KERNPAGE + 0x100 < d < KERNPAGE + TOP && Kspace(s, u, pd, d, k)
    requires MapOutcome(u, {}, y, pd, KGoal(d, k, before), r, m, after)
    ensures r != Remap && Fresh(s, y, pd)
    ensures r == Mapped ==> Kspace(s, y, pd, d, k + 1) && after + Made(d, k + 1) == before + Made(d, k)
    ensures r != Mapped ==> before + Made(d, k) < Made(d, k + 1)
  {
    FreshStep(s, u, y, pd);
    KernelTables(u.mem[pd], d, k);
    KspaceMapped(s, u, y, pd, d, k, r, m, before, after);
  }

  lemma KspaceMapped(s: State, u: State, y: State, pd: nat, d: nat, k: nat, r: MapResult, m: nat, before: nat,
                     after: nat)
    requires k < 4 && KERNPAGE + 0x100 < d < KERNPAGE + TOP && Kspace(s, u, pd, d, k) && Fresh(s, y, pd)
    requires MapOutcome(u, {}, y, pd, KGoal(d, k, before), r, m, after)
    ensures r != Remap
    ensures r == Mapped ==> Kspace(s, y, pd, d, k + 1)
  {
    hide Good, Conserves, DataKept, Fresh, Tables, Stuck;
    KspaceFree(s, u, y, pd, d, k, r, m, before, after);
    assert pd < TOP;
    DirectoryOpen(u.mem[pd], y.mem[pd], KLo(d, k), KLo(d, k) + m);
  }

  /** The ranges of the kernel's map do not overlap, so no page is mapped twice. */
  lemma KspaceFree(s: State, u: State, y: State, pd: nat, d: nat, k: nat, r: MapResult, m: nat, before: nat,
                   after: nat)
    requires k < 4 && KERNPAGE + 0x100 < d < KERNPAGE + TOP && Kspace(s, u, pd, d, k)
    requires MapOutcome(u, {}, y, pd, KGoal(d, k, before), r, m, after)
    ensures r != Remap && pd < TOP
  {
    assert pd < TOP;
    hide Good, Conserves, DataKept, Fresh, Tables, Directory;
  }

  /** The kernel's map: its RAM at KERNBASE and above, read-only from EXTMEM to the data, and the devices; the user has
      no right to any of it, and nothing else is mapped. */
  function KernelAccess(data: nat, a: nat): Access {
    if 0x8000_0000 <= a < 0x8010_0000 then Reach((a - 0x8000_0000) / 4096, true, false)
    else if 0x8010_0000 <= a < data then Reach((a - 0x8000_0000) / 4096, false, false)
    else if 0x8010_0000 <= a < 0x8E00_0000 then Reach((a - 0x8000_0000) / 4096, true, false)
    else if 0xFE00_0000 <= a then Reach(a / 4096, true, false)
    else Fault
  }

  lemma FreshDirectory(s: State, t: State, pd: nat)
    requires Fresh(s, t, pd)
    ensures pd < TOP
  {
  }

  lemma KspaceMmu(s: State, t: State, pd: nat, data: nat)
    requires DataAddress(data) && Kspace(s, t, pd, data / PGSIZE, 4)
    ensures forall a :: 0 <= a < 0x1_0000_0000 ==> Mmu(t.mem, pd, a) == KernelAccess(data, a)
  {
    hide Fresh, Open, Mmu, Pte, KernelTable, Entry;
    FreshDirectory(s, t, pd);
    forall a | 0 <= a < 0x1_0000_0000 ensures Mmu(t.mem, pd, a) == KernelAccess(data, a) {
      MmuPte(t.mem, pd, a);
      KernelPteIs(data, a);
    }
  }

  lemma KernelPteIs(data: nat, a: nat)
    requires DataAddress(data) && a < 0x1_0000_0000
    ensures var p := KernelPte(data / PGSIZE, 4, a / 4096);
      KernelAccess(data, a) == if p % 2 == 0 then Fault else Reach(p / 4096, p / 2 % 2 == 1, p / 4 % 2 == 1)
  {
    var v := a / 4096;
    if v >= KERNPAGE {
      assert (a - 0x8000_0000) / 4096 == v - KERNPAGE;
      EntryBits(v - KERNPAGE, PTE_W);
      EntryBits(v - KERNPAGE, 0);
      EntryBits(v, PTE_W);
    }
    hide Entry;
  }

  /** The entries of `e` from `i` up to `j` that are not present. */
  function Gap(e: Page, i: nat, j: nat): nat
    requires j <= NPTENTRIES
    decreases j - i
  {
    if i >= j then 0 else (if Present(e[i]) then 0 else 1) + Gap(e, i + 1, j)
  }

  lemma {:induction false} GapIs(e: Page, i: nat, p: nat, j: nat)
    requires i <= p <= j <= NPTENTRIES
    requires forall x :: i <= x < j ==> (Present(e[x]) <==> x < p)
    ensures Gap(e, i, j) == j - p
    decreases j - i
  {
    if i < j {
      GapIs(e, i + 1, if p == i then p + 1 else p, j);
    }
  }

  /** mappages makes one table for each directory entry missing in its range. */
  lemma {:induction false} TablesAreGaps(e: Page, lo: nat, v: nat, hi: nat)
    requires lo <= v <= hi <= NPAGES && lo < hi
    ensures var from := if v > lo then (v - 1) / NPTENTRIES + 1 else lo / NPTENTRIES;
      Tables(e, lo, v, hi) == Gap(e, from, (hi - 1) / NPTENTRIES + 1)
    decreases hi - v
  {
    if v < hi {
      TablesAreGaps(e, lo, v + 1, hi);
    }
  }

  lemma KernelTables(e: Page, d: nat, k: nat)
    requires k < 4 && KERNPAGE + 0x100 < d < KERNPAGE + TOP
    requires forall i :: 0 <= i < NPTENTRIES ==> (Present(e[i]) <==> KernelTable(d, k, i))
    ensures Tables(e, KLo(d, k), KLo(d, k), KHi(d, k)) == Made(d, k + 1) - Made(d, k)
  {
    TablesAreGaps(e, KLo(d, k), KLo(d, k), KHi(d, k));
    if k == 0 {
      GapIs(e, 512, 512, 513);
    } else if k == 1 {
      GapIs(e, 512, 513, (d - 1) / NPTENTRIES + 1);
    } else if k == 2 {
      if d / NPTENTRIES == (d - 1) / NPTENTRIES {
        GapIs(e, d / NPTENTRIES, d / NPTENTRIES + 1, 568);
      } else {
        GapIs(e, d / NPTENTRIES, d / NPTENTRIES, 568);
      }
    } else {
      GapIs(e, 1016, 1016, 1024);
    }
  }

  // ------------------------------------------------------------------- copyuvm

  datatype CopyStep = Next | Missing | Full

  /** The kernel's data page and the number of frames free before copyuvm. */
  datatype Copy = Copy(data: nat, before: nat)

  /** Frames for `v` user pages and their tables. */
  function Cost(v: nat): nat {
    v + (v + NPTENTRIES - 1) / NPTENTRIES
  }

  /** Page `w` of `d` has the flags and contents of page `w` of `pd`, in a frame that was spare. */
  ghost predicate CopiedPage(s: State, t: State, pd: nat, d: nat, w: nat)
    requires pd < TOP && d < TOP && w < NPAGES
  {
    var e := Pte(s.mem, pd, w);
    && Present(e) && Frame(e) < TOP && PageIs(t, d, w, Flags(e), s.mem[Frame(e)])
    && Frame(Pte(t.mem, d, w)) in s.spare
  }

  /** `d` is a new space with the kernel's mappings and copies of the pages of `pd` below `v`. */
  ghost predicate Copied(s: State, t: State, pd: nat, d: nat, data: nat, v: nat) {
    && Good(s, pd) && Fresh(s, t, d) && v <= KERNPAGE
    && (forall w :: 0 <= w < v ==> CopiedPage(s, t, pd, d, w))
    && (forall w :: v <= w < NPAGES ==> Pte(t.mem, d, w) == KernelPte(data, 4, w))
    && Open(t.mem[d])
  }

  ghost predicate Copying(s: State, t: State, pd: nat, d: nat, c: Copy, v: nat, after: nat) {
    && Copied(s, t, pd, d, c.data, v)
    && (forall i :: 0 <= i < 512 ==> (Present(t.mem[d][i]) <==> i < (v + NPTENTRIES - 1) / NPTENTRIES))
    && after + KVMFRAMES + Cost(v) == c.before
  }

  /** All pages of `pd` below `v` are there. */
  ghost predicate PresentBelow(s: State, pd: nat, v: nat) {
    pd < TOP && v <= KERNPAGE && forall w :: 0 <= w < v ==> Present(Pte(s.mem, pd, w))
  }

  /** Page `v` of `pd` is not there. */
  ghost predicate Lacks(s: State, pd: nat, v: nat) {
    pd < TOP && v < KERNPAGE && !Present(Pte(s.mem, pd, v))
  }

  /** Page `v` is there, and there are too few frames to copy it. */
  ghost predicate CopyFailed(s: State, t: State, pd: nat, d: nat, c: Copy, v: nat) {
    pd < TOP && v < KERNPAGE && Present(Pte(s.mem, pd, v)) && Fresh(s, t, d) && c.before < KVMFRAMES + Cost(v + 1)
  }

  datatype CopyResult = Child(d: nat) | OutOfMemory | Panic

  lemma PresentNone(s: State, pd: nat)
    requires pd < TOP
    ensures PresentBelow(s, pd, 0)
  {
  }

  lemma PresentNext(s: State, pd: nat, v: nat)
    requires PresentBelow(s, pd, v) && v < KERNPAGE && !Lacks(s, pd, v)
    ensures PresentBelow(s, pd, v + 1)
  {
  }

  lemma UpBound(sz: nat)
    requires sz <= KERNBASE
    ensures Up(sz) <= KERNPAGE
  {
  }

  lemma CopyingStart(s: State, t: State, pd: nat, d: nat, c: Copy, after: nat)
    requires Good(s, pd) && Kspace(s, t, d, c.data, 4) && after + KVMFRAMES == c.before
    ensures Copying(s, t, pd, d, c, 0, after)
  {
  }

  lemma CopyingCost(s: State, t: State, pd: nat, d: nat, c: Copy, v: nat, after: nat)
    requires Copying(s, t, pd, d, c, v, after)
    ensures c.before >= KVMFRAMES + Cost(v) && pd < TOP && Fresh(s, t, d) && Good(s, pd)
    ensures Copied(s, t, pd, d, c.data, v)
  {
  }

  /** The processor's view of copyuvm: every address below page `v` means a page with the same rights and contents in
      both spaces, in different frames. */
  ghost predicate SameRights(m: Memory, n: Memory, pd: nat, d: nat, v: nat) {
    && pd < TOP && d < TOP
    && forall a :: 0 <= a < v * 4096 && a < 0x1_0000_0000 ==>
         var x, y := Mmu(m, pd, a), Mmu(n, d, a);
         && x.Reach? && y.Reach? && y.write == x.write && y.user == x.user && y.frame != x.frame
         && x.frame < 0xE000 && y.frame < 0xE000 && n[y.frame] == m[x.frame]
  }

  lemma CopiedMmu(s: State, t: State, pd: nat, d: nat, data: nat, v: nat)
    requires Copied(s, t, pd, d, data, v)
    ensures pd < TOP && d < TOP && Open(t.mem[d])
    ensures Open(s.mem[pd]) ==> SameRights(s.mem, t.mem, pd, d, v)
  {
    hide Open, Pte, Mmu, Fresh;
    FreshDirectory(s, t, d);
    if Open(s.mem[pd]) {
      forall a | 0 <= a < v * 4096 && a < 0x1_0000_0000
        ensures var x, y := Mmu(s.mem, pd, a), Mmu(t.mem, d, a);
          && x.Reach? && y.Reach? && y.write == x.write && y.user == x.user && y.frame != x.frame
          && x.frame < 0xE000 && y.frame < 0xE000 && t.mem[y.frame] == s.mem[x.frame]
      {
        MmuPte(s.mem, pd, a);
        MmuPte(t.mem, d, a);
        assert CopiedPage(s, t, pd, d, a / 4096);
        FlagBits(Pte(s.mem, pd, a / 4096));
        FlagBits(Pte(t.mem, d, a / 4096));
        assert Ref(s.mem, pd, PageSlot(a / 4096)) == Frame(Pte(s.mem, pd, a / 4096));
      }
    }
  }

  lemma CopyFailedAt(s: State, t: State, pd: nat, d: nat, c: Copy, v: nat)
    requires CopyFailed(s, t, pd, d, c, v) && PresentBelow(s, pd, v)
    ensures PresentBelow(s, pd, v + 1) && c.before < KVMFRAMES + Cost(v + 1)
  {
  }

  /** A space is not disturbed by what happens in frames that are not its own. */
  lemma OtherSpace(s: State, t: State, pd: nat, d: nat)
    requires Good(s, pd) && Fresh(s, t, d)
    ensures Good(t, pd) && SamePtes(s, t, pd) && SameRefs(s, t, pd)
    ensures forall k :: 0 <= k < NREFS && Ref(s.mem, pd, k) >= 0 ==>
      t.mem[Ref(s.mem, pd, k)] == s.mem[Ref(s.mem, pd, k)]
  {
    SpareWrites(s, State(t.first, t.mem, s.spare), pd);
  }

  lemma ParentPage(s: State, t: State, pd: nat, d: nat, v: nat)
    requires Good(s, pd) && Fresh(s, t, d) && v < KERNPAGE && Present(Pte(s.mem, pd, v))
    ensures Frame(Pte(s.mem, pd, v)) < TOP && t.mem[Frame(Pte(s.mem, pd, v))] == s.mem[Frame(Pte(s.mem, pd, v))]
  {
    assert Ref(s.mem, pd, PageSlot(v)) == Frame(Pte(s.mem, pd, v));
  }

  lemma CopyFull(s: State, t: State, pd: nat, d: nat, c: Copy, v: nat)
    requires Copying(s, t, pd, d, c, v, 0) && v < KERNPAGE && Present(Pte(s.mem, pd, v))
    ensures CopyFailed(s, t, pd, d, c, v)
  {
  }

  lemma CopiedNext(s: State, t: State, y: State, pd: nat, d: nat, data: nat, v: nat, e: nat, page: Page)
    requires Copied(s, t, pd, d, data, v) && v < KERNPAGE && e == Pte(s.mem, pd, v) && Present(e) && Frame(e) < TOP
    requires page == s.mem[Frame(e)]
    requires OnePage(t, y, d, v, 1, Flags(e), page) && Frame(Pte(y.mem, d, v)) in s.spare
    ensures Copied(s, y, pd, d, data, v + 1)
  {
    FreshStep(s, t, y, d);
    DirectoryOpen(t.mem[d], y.mem[d], v, v + 1);
    hide Good, Conserves, Fresh, Directory, Open;
    forall w | 0 <= w < v + 1 ensures CopiedPage(s, y, pd, d, w) {
      if w < v {
        assert CopiedPage(s, t, pd, d, w) && SamePage(t, y, d, w);
        FlagsPresent(Pte(s.mem, pd, w));
        FlagsPresent(Pte(t.mem, d, w));
      }
    }
    forall w | v + 1 <= w < NPAGES ensures Pte(y.mem, d, w) == KernelPte(data, 4, w) {
      assert SamePage(t, y, d, w);
    }
  }

  /** The child after the page was mapped. */
  lemma CopiedMapped(s: State, t: State, u: State, y: State, pd: nat, d: nat, data: nat, v: nat, f: nat, e: nat,
                     m: nat)
    requires Copied(s, t, pd, d, data, v) && v < KERNPAGE && e == Pte(s.mem, pd, v) && Present(e) && Frame(e) < TOP
    requires f in t.spare && f < TOP && u == State(t.first, t.mem[f := s.mem[Frame(e)]], t.spare)
    requires Good(t, d) && Good(u, d) && SamePtes(t, u, d) && Conserves(t, u, d) && m <= 1
    requires Mapping(u, {f}, y, d, v, f, Flags(e), m)
    ensures Fresh(s, y, d) && Directory(t.mem[d], y.mem[d], v, v + m)
    ensures m == 1 ==> Copied(s, y, pd, d, data, v + 1)
  {
    hide Good, Conserves, SamePtes, Directory, DataKept, SamePage, PageIs, Open;
    FlagsPresent(e);
    OnePageMapped(t, u, y, d, v, f, m, Flags(e), s.mem[Frame(e)]);
    FreshStep(s, t, y, d);
    FreshSpare(s, t, d, f);
    if m == 1 {
      CopiedNext(s, t, y, pd, d, data, v, e, s.mem[Frame(e)]);
    }
  }

  lemma FreshSpare(s: State, t: State, d: nat, f: nat)
    requires Fresh(s, t, d) && f in t.spare
    ensures f in s.spare
  {
  }

  lemma CopyPageStep(s: State, t: State, u: State, y: State, pd: nat, d: nat, c: Copy, v: nat, f: nat, e: nat,
                     goal: Goal, q: MapResult, m: nat, before: nat, after: nat)
    requires Copying(s, t, pd, d, c, v, before) && v < KERNPAGE && e == Pte(s.mem, pd, v) && Present(e)
    requires before > 0 && goal == Goal(v, f, v + 1, Flags(e), before - 1) && Frame(e) < TOP
    requires f in t.spare && f < TOP && u == State(t.first, t.mem[f := s.mem[Frame(e)]], t.spare)
    requires Good(u, d) && SamePtes(t, u, d) && Conserves(t, u, d)
    requires MapOutcome(u, {f}, y, d, goal, q, m, after)
    ensures q == Mapped ==> Copying(s, y, pd, d, c, v + 1, after)
    ensures q != Mapped ==> CopyFailed(s, y, pd, d, c, v)
  {
    hide Good, Conserves, SamePtes, DataKept, Open, UserWritable, Tables, Mapping, CopiedPage;
    CopyingCost(s, t, pd, d, c, v, before);
    FreshGood(s, t, d);
    assert KernelPte(c.data, 4, v) == 0 && Pte(t.mem, d, v) == 0;
    SamePte(t, u, d, v);
    assert Ref(t.mem, d, 0) == d && f != d by { SpareNotHeld(t, d, f); }
    OnePageCount(u, y, d, goal, q, m, after, {f});
    CopiedMapped(s, t, u, y, pd, d, c.data, v, f, e, m);
    CostNext(v);
  }

  lemma FreshGood(s: State, t: State, d: nat)
    requires Fresh(s, t, d)
    ensures d < TOP && Good(t, d)
  {
  }

  lemma SpareNotHeld(t: State, d: nat, f: nat)
    requires Good(t, d) && f in t.spare
    ensures f != d
  {
    assert Ref(t.mem, d, 0) == d;
  }

  lemma CostNext(v: nat)
    ensures Cost(v + 1) == Cost(v) + 1 + if v % NPTENTRIES == 0 then 1 else 0
    ensures v % NPTENTRIES == 0 <==> v / NPTENTRIES >= (v + NPTENTRIES - 1) / NPTENTRIES
    ensures (v + NPTENTRIES) / NPTENTRIES == v / NPTENTRIES + 1
  {
  }
}
