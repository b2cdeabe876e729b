/**
 * Two-level page tables over physical frames, as vm.c keeps them, and the flat map from page
 * numbers to entries that they stand for. `PageTablesCode` holds the kernel's procedures.
 * A kernel address of a page is written as its frame number.
 */
module PageTables {

  const NPTENTRIES: nat := 1024
  /** Page numbers below KERNBASE belong to the user. */
  const KERNPAGE: nat := 0x8_0000
  const NPAGES: nat := 0x10_0000
  /** Frames below PHYSTOP. */
  const TOP: nat := 0xE000

  type Page = p: seq<nat> | |p| == NPTENTRIES witness seq(NPTENTRIES, _ => 0)
  type Memory = m: seq<Page> | |m| == TOP ghost witness Empty()

  ghost function Empty(): seq<Page> {
    seq(TOP, _ => var p: Page := Blank(); p)
  }

  /** Memory, the frames that are free or just taken from the free list, and the first frame after the kernel. */
  datatype State = State(first: nat, mem: Memory, spare: set<nat>)

  // ------------------------------------------------------------------ entries

  predicate Present(e: nat) {
    e % 2 == 1
  }

  function Frame(e: nat): nat {
    e / 4096
  }

  function Flags(e: nat): nat {
    e % 4096
  }

  /** pa | perm | PTE_P for a page-aligned pa. */
  function Entry(f: nat, perm: nat): (e: nat)
    requires perm < 4096
    ensures Present(e) && Frame(e) == f && Flags(e) == if perm % 2 == 1 then perm else perm + 1
  {
    EntryParts(f, if perm % 2 == 1 then perm else perm + 1);
    4096 * f + if perm % 2 == 1 then perm else perm + 1
  }

  lemma EntryParts(f: nat, q: nat)
    requires q < 4096
    ensures (4096 * f + q) / 4096 == f && (4096 * f + q) % 4096 == q && (4096 * f + q) % 2 == q % 2
  {
    assert 4096 * f + q == 2 * (2048 * f) + q;
  }

  /** The entry of page `v`: 0 when its table is missing. This is the flat map. */
  function Pte(m: Memory, pd: nat, v: nat): nat
    requires pd < TOP && v < NPAGES
  {
    var e := m[pd][v / NPTENTRIES];
    if Present(e) && Frame(e) < TOP then m[Frame(e)][v % NPTENTRIES] else 0
  }

  /** The entry read through walkpgdir's pointer into table `t`. */
  lemma PteIn(m: Memory, pd: nat, v: nat)
    requires pd < TOP && v < NPAGES
    ensures !Present(m[pd][v / NPTENTRIES]) ==> !Present(Pte(m, pd, v))
    ensures Present(m[pd][v / NPTENTRIES]) && Frame(m[pd][v / NPTENTRIES]) < TOP ==>
      Pte(m, pd, v) == m[Frame(m[pd][v / NPTENTRIES])][v % NPTENTRIES]
  {
  }

  // ---------------------------------------------------------------- the rights

  /** PTE_P, PTE_W and PTE_U: bits 0, 1 and 2. */
  predicate UserWritable(e: nat) {
    e % 2 == 1 && e / 2 % 2 == 1 && e / 4 % 2 == 1
  }

  /** Every table of the directory can be read and written through by the user, page by page. */
  ghost predicate Open(d: Page) {
    forall i :: 0 <= i < 1024 && d[i] % 2 == 1 ==> UserWritable(d[i])
  }

  lemma EntryBits(f: nat, perm: nat)
    requires perm < 4096
    ensures Entry(f, perm) / 2 % 2 == perm / 2 % 2 && Entry(f, perm) / 4 % 2 == perm / 4 % 2
  {
    var q := if perm % 2 == 1 then perm else perm + 1;
    HighBits(f, q);
    assert q / 2 == perm / 2 && q / 4 == perm / 4;
  }

  lemma TableEntry(f: nat)
    ensures UserWritable(Entry(f, 7))
  {
    EntryBits(f, 7);
  }

  /** The low bits of a number are those of its remainder. */
  lemma HighBits(f: nat, q: nat)
    ensures (4096 * f + q) / 2 % 2 == q / 2 % 2 && (4096 * f + q) / 4 % 2 == q / 4 % 2
  {
    EvenPart(2048 * f, q);
    EvenPart(1024 * f, q / 2);
    EvenPart(512 * f, q / 4);
    assert (4096 * f + q) / 4 == (4096 * f + q) / 2 / 2 && q / 4 == q / 2 / 2;
  }

  lemma EvenPart(k: nat, x: nat)
    ensures (2 * k + x) / 2 == k + x / 2 && (2 * k + x) % 2 == x % 2
  {
  }

  lemma FlagBits(e: nat)
    ensures e % 2 == Flags(e) % 2 && e / 2 % 2 == Flags(e) / 2 % 2 && e / 4 % 2 == Flags(e) / 4 % 2
  {
    assert e == 4096 * (e / 4096) + e % 4096;
    HighBits(e / 4096, e % 4096);
    EvenPart(2048 * (e / 4096), e % 4096);
  }

  /** What an access to an address comes to: a page fault, or a page of memory that may be written or not, and used by
      the user or not. */
  datatype Access = Fault | Reach(frame: nat, write: bool, user: bool)

  /** The processor's walk: the directory entry for the upper ten bits of the address, the table entry for the middle
      ten; a right must be given by both. Tables are below PHYSTOP. */
  ghost function Mmu(m: Memory, pd: nat, a: nat): Access
    requires pd < 0xE000 && a < 0x1_0000_0000
  {
    var e := m[pd][a / 0x40_0000];
    if e % 2 == 0 || e / 4096 >= 0xE000 then Fault
    else
      var p := m[e / 4096][a / 4096 % 1024];
      if p % 2 == 0 then Fault
      else Reach(p / 4096, e / 2 % 2 == 1 && p / 2 % 2 == 1, e / 4 % 2 == 1 && p / 4 % 2 == 1)
  }

  /** In an open directory the table entry alone decides. */
  lemma MmuPte(m: Memory, pd: nat, a: nat)
    requires pd < TOP && a < 0x1_0000_0000 && Open(m[pd])
    ensures var p := Pte(m, pd, a / 4096);
      Mmu(m, pd, a) == if p % 2 == 0 then Fault else Reach(p / 4096, p / 2 % 2 == 1, p / 4 % 2 == 1)
  {
    assert a / 0x40_0000 == a / 4096 / 1024;
  }

  /** The same page entry and, if there is one, the same table entry. */
  lemma MmuSame(m: Memory, n: Memory, pd: nat, a: nat)
    requires pd < TOP && a < 0x1_0000_0000 && Pte(n, pd, a / 4096) == Pte(m, pd, a / 4096)
    requires Present(m[pd][a / 4096 / NPTENTRIES]) ==> n[pd][a / 4096 / NPTENTRIES] == m[pd][a / 4096 / NPTENTRIES]
    ensures Mmu(n, pd, a) == Mmu(m, pd, a)
  {
    assert a / 0x40_0000 == a / 4096 / 1024;
  }

  // ------------------------------------------------------- frames of a space

  function EntryFrame(e: nat): int {
    if Present(e) then Frame(e) else -1
  }

  /** The frames of an address space: 0 the directory, 1 to 1024 the tables, then the user pages; -1 is none. */
  const NREFS: nat := 1 + NPTENTRIES + KERNPAGE

  function Ref(m: Memory, pd: nat, k: nat): int
    requires pd < TOP && k < NREFS
  {
    if k == 0 then pd
    else if k <= NPTENTRIES then EntryFrame(m[pd][k - 1])
    else EntryFrame(Pte(m, pd, k - NPTENTRIES - 1))
  }

  /** The slot of user page `v`. */
  function PageSlot(v: nat): nat {
    v + NPTENTRIES + 1
  }

  /** Every frame of the space is an allocatable one, is not spare, and has one place in the space. */
  ghost predicate Good(s: State, pd: nat) {
    && 0 < s.first && pd < TOP
    && (forall k :: 0 <= k < NREFS && Ref(s.mem, pd, k) >= 0 ==>
         s.first <= Ref(s.mem, pd, k) < TOP && Ref(s.mem, pd, k) !in s.spare)
    && (forall k, l :: 0 <= k < NREFS && 0 <= l < NREFS && Ref(s.mem, pd, k) == Ref(s.mem, pd, l) ==>
         Ref(s.mem, pd, k) < 0 || k == l)
  }

  ghost predicate Holds(s: State, pd: nat, f: nat)
    requires pd < TOP
  {
    exists k :: 0 <= k < NREFS && Ref(s.mem, pd, k) == f
  }

  /** No frame is gained or lost, and no other frame is touched. */
  ghost predicate Conserves(s: State, t: State, pd: nat)
    requires pd < TOP
  {
    && t.first == s.first
    && (forall f: nat :: f in t.spare || Holds(t, pd, f) <==> f in s.spare || Holds(s, pd, f))
    && (forall f :: 0 <= f < TOP && f !in s.spare && !Holds(s, pd, f) ==> t.mem[f] == s.mem[f])
  }

  lemma ConservesTransitive(s: State, t: State, u: State, pd: nat)
    requires pd < TOP && Conserves(s, t, pd) && Conserves(t, u, pd)
    ensures Conserves(s, u, pd)
  {
  }

  ghost predicate SameRefs(s: State, t: State, pd: nat)
    requires pd < TOP
  {
    forall k :: 0 <= k < NREFS ==> Ref(t.mem, pd, k) == Ref(s.mem, pd, k)
  }

  ghost predicate SamePtes(s: State, t: State, pd: nat)
    requires pd < TOP
  {
    forall v :: 0 <= v < NPAGES ==> Pte(t.mem, pd, v) == Pte(s.mem, pd, v)
  }

  lemma NothingDone(s: State, pd: nat)
    requires pd < TOP
    ensures SamePtes(s, s, pd) && Conserves(s, s, pd)
  {
  }

  lemma SameHolds(s: State, t: State, pd: nat)
    requires pd < TOP && SameRefs(s, t, pd)
    ensures forall f: nat :: Holds(t, pd, f) <==> Holds(s, pd, f)
  {
    forall f: nat ensures Holds(t, pd, f) <==> Holds(s, pd, f) {
      if Holds(s, pd, f) {
        var k :| 0 <= k < NREFS && Ref(s.mem, pd, k) == f;
        assert Ref(t.mem, pd, k) == f;
      }
    }
  }

  /** Writing to spare frames, as kalloc's callers and the free list do, is not seen through the tables. */
  lemma SpareWrites(s: State, t: State, pd: nat)
    requires Good(s, pd) && t.first == s.first && t.spare == s.spare
    requires forall f :: 0 <= f < TOP && f !in s.spare ==> t.mem[f] == s.mem[f]
    ensures Good(t, pd) && SameRefs(s, t, pd) && SamePtes(s, t, pd) && Conserves(s, t, pd)
  {
    assert Ref(s.mem, pd, 0) == pd;
    forall v | 0 <= v < NPAGES ensures Pte(t.mem, pd, v) == Pte(s.mem, pd, v) {
      assert Ref(s.mem, pd, 1 + v / NPTENTRIES) == EntryFrame(s.mem[pd][v / NPTENTRIES]);
    }
    SameHolds(s, t, pd);
  }

  // ------------------------------------------------------------- a new table

  function Blank(): Page {
    seq(NPTENTRIES, _ => 0)
  }

  /** walkpgdir giving directory entry `i` a zeroed table in frame `f`, user-writable. */
  function AddTable(s: State, pd: nat, i: nat, f: nat): State
    requires pd < TOP && f < TOP && i < NPTENTRIES
  {
    var m := s.mem[f := Blank()];
    s.(mem := m[pd := m[pd][i := Entry(f, 7)]], spare := s.spare - {f})
  }

  lemma AddTablePtes(s: State, pd: nat, i: nat, f: nat)
    requires Good(s, pd) && i < NPTENTRIES && f < TOP && f in s.spare && s.first <= f && !Present(s.mem[pd][i])
    ensures SamePtes(s, AddTable(s, pd, i, f), pd)
  {
    var t := AddTable(s, pd, i, f);
    assert Ref(s.mem, pd, 0) == pd;
    forall v | 0 <= v < NPAGES ensures Pte(t.mem, pd, v) == Pte(s.mem, pd, v) {
      var j := v / NPTENTRIES;
      assert Ref(s.mem, pd, 1 + j) == EntryFrame(s.mem[pd][j]);
    }
  }

  /** A new table changes no mapping; it takes one spare frame into the space. */
  lemma AddTableKeeps(s: State, pd: nat, i: nat, f: nat)
    requires Good(s, pd) && i < NPTENTRIES && f < TOP && f in s.spare && s.first <= f && !Present(s.mem[pd][i])
    ensures var t := AddTable(s, pd, i, f);
      && SamePtes(s, t, pd) && Good(t, pd) && Conserves(s, t, pd)
      && forall k :: 0 <= k < NREFS ==> Ref(t.mem, pd, k) == if k == 1 + i then f else Ref(s.mem, pd, k)
  {
    var t := AddTable(s, pd, i, f);
    AddTablePtes(s, pd, i, f);
    assert Ref(s.mem, pd, 0) == pd;
    forall k | 0 <= k < NREFS ensures Ref(t.mem, pd, k) == if k == 1 + i then f else Ref(s.mem, pd, k) {
    }
    TakenConserves(s, t, pd, 1 + i, f);
  }

  /** A spare frame becomes the frame in slot `k`, which was empty. */
  lemma TakenConserves(s: State, t: State, pd: nat, k: nat, f: nat)
    requires Good(s, pd) && k < NREFS && f in s.spare && s.first <= f < TOP && Ref(s.mem, pd, k) < 0
    requires t.first == s.first && t.spare == s.spare - {f}
    requires forall l :: 0 <= l < NREFS ==> Ref(t.mem, pd, l) == if l == k then f else Ref(s.mem, pd, l)
    requires forall g :: 0 <= g < TOP && g !in s.spare && !Holds(s, pd, g) ==> t.mem[g] == s.mem[g]
    ensures Good(t, pd) && Conserves(s, t, pd)
  {
    forall g: nat ensures g in t.spare || Holds(t, pd, g) <==> g in s.spare || Holds(s, pd, g) {
      assert Ref(t.mem, pd, k) == f;
      if Holds(s, pd, g) {
        var l :| 0 <= l < NREFS && Ref(s.mem, pd, l) == g;
        assert Ref(t.mem, pd, l) == g;
      }
    }
  }

  // ----------------------------------------------------------- setting a page

  function SetPte(m: Memory, pd: nat, v: nat, e: nat): Memory
    requires pd < TOP && v < NPAGES && Frame(m[pd][v / NPTENTRIES]) < TOP
  {
    var t := Frame(m[pd][v / NPTENTRIES]);
    m[t := m[t][v % NPTENTRIES := e]]
  }

  /** Storing an entry through walkpgdir's pointer is an update of the flat map at that page alone. */
  lemma SetPteFlat(s: State, pd: nat, v: nat, e: nat)
    requires Good(s, pd) && v < NPAGES && Present(s.mem[pd][v / NPTENTRIES])
    ensures Frame(s.mem[pd][v / NPTENTRIES]) < TOP
    ensures var m := SetPte(s.mem, pd, v, e);
      && m[pd] == s.mem[pd]
      && (forall w :: 0 <= w < NPAGES ==> Pte(m, pd, w) == if w == v then e else Pte(s.mem, pd, w))
  {
    var i := v / NPTENTRIES;
    assert Ref(s.mem, pd, 1 + i) == Frame(s.mem[pd][i]);
    assert Ref(s.mem, pd, 0) == pd;
    var m := SetPte(s.mem, pd, v, e);
    forall w | 0 <= w < NPAGES ensures Pte(m, pd, w) == if w == v then e else Pte(s.mem, pd, w) {
      assert Ref(s.mem, pd, 1 + w / NPTENTRIES) == EntryFrame(s.mem[pd][w / NPTENTRIES]);
    }
  }

  lemma SetPteRefs(s: State, pd: nat, v: nat, e: nat)
    requires Good(s, pd) && v < NPAGES && Present(s.mem[pd][v / NPTENTRIES])
    ensures Frame(s.mem[pd][v / NPTENTRIES]) < TOP
    ensures forall k :: 0 <= k < NREFS ==>
      Ref(SetPte(s.mem, pd, v, e), pd, k) == if k == PageSlot(v) then EntryFrame(e) else Ref(s.mem, pd, k)
  {
    SetPteFlat(s, pd, v, e);
  }

  /** Only the page's table is written. */
  lemma SetPteWrites(s: State, pd: nat, v: nat, e: nat, f: nat)
    requires Good(s, pd) && v < NPAGES && Present(s.mem[pd][v / NPTENTRIES]) && f < TOP && !Holds(s, pd, f)
    ensures Frame(s.mem[pd][v / NPTENTRIES]) < TOP && SetPte(s.mem, pd, v, e)[f] == s.mem[f]
  {
    assert Ref(s.mem, pd, 1 + v / NPTENTRIES) == Frame(s.mem[pd][v / NPTENTRIES]);
  }

  /** Page `v` gets entry `e`; a user page takes its frame out of the spare ones. */
  function MapPage(s: State, pd: nat, v: nat, e: nat): State
    requires pd < TOP && v < NPAGES && Frame(s.mem[pd][v / NPTENTRIES]) < TOP
  {
    s.(mem := SetPte(s.mem, pd, v, e), spare := if v < KERNPAGE then s.spare - {Frame(e)} else s.spare)
  }

  lemma MapPageKeeps(s: State, pd: nat, v: nat, e: nat)
    requires Good(s, pd) && v < NPAGES && Present(s.mem[pd][v / NPTENTRIES])
    requires Present(e) && !Present(Pte(s.mem, pd, v))
    requires (v < KERNPAGE ==> Frame(e) in s.spare && s.first <= Frame(e) < TOP)
    ensures Frame(s.mem[pd][v / NPTENTRIES]) < TOP
    ensures Good(MapPage(s, pd, v, e), pd) && Conserves(s, MapPage(s, pd, v, e), pd)
  {
    SetPteRefs(s, pd, v, e);
    var t := MapPage(s, pd, v, e);
    forall g | 0 <= g < TOP && g !in s.spare && !Holds(s, pd, g) ensures t.mem[g] == s.mem[g] {
      SetPteWrites(s, pd, v, e, g);
    }
    if v < KERNPAGE {
      TakenConserves(s, t, pd, PageSlot(v), Frame(e));
    } else {
      SameHolds(s, t, pd);
    }
  }

  /** User page `v` loses its frame, which is filled with `junk` and becomes spare. */
  function UnmapPage(s: State, pd: nat, v: nat, junk: Page): State
    requires pd < TOP && v < NPAGES && Frame(s.mem[pd][v / NPTENTRIES]) < TOP && Frame(Pte(s.mem, pd, v)) < TOP
  {
    var f := Frame(Pte(s.mem, pd, v));
    s.(mem := SetPte(s.mem, pd, v, 0)[f := junk], spare := s.spare + {f})
  }

  lemma UnmapPageFlat(s: State, pd: nat, v: nat, junk: Page)
    requires Good(s, pd) && v < KERNPAGE && Present(s.mem[pd][v / NPTENTRIES]) && Present(Pte(s.mem, pd, v))
    ensures Frame(s.mem[pd][v / NPTENTRIES]) < TOP && s.first <= Frame(Pte(s.mem, pd, v)) < TOP
    ensures Frame(Pte(s.mem, pd, v)) !in s.spare
    ensures var t := UnmapPage(s, pd, v, junk);
      && t.mem[pd] == s.mem[pd]
      && (forall w :: 0 <= w < NPAGES ==> Pte(t.mem, pd, w) == if w == v then 0 else Pte(s.mem, pd, w))
  {
    SetPteFlat(s, pd, v, 0);
    var f := Frame(Pte(s.mem, pd, v));
    assert Ref(s.mem, pd, PageSlot(v)) == f;
    assert Ref(s.mem, pd, 0) == pd;
    var t := UnmapPage(s, pd, v, junk);
    forall w | 0 <= w < NPAGES ensures Pte(t.mem, pd, w) == if w == v then 0 else Pte(s.mem, pd, w) {
      assert Ref(s.mem, pd, 1 + w / NPTENTRIES) == EntryFrame(s.mem[pd][w / NPTENTRIES]);
      assert Pte(t.mem, pd, w) == Pte(SetPte(s.mem, pd, v, 0), pd, w);
    }
  }

  lemma UnmapPageKeeps(s: State, pd: nat, v: nat, junk: Page)
    requires Good(s, pd) && v < KERNPAGE && Present(s.mem[pd][v / NPTENTRIES]) && Present(Pte(s.mem, pd, v))
    ensures Frame(s.mem[pd][v / NPTENTRIES]) < TOP && Frame(Pte(s.mem, pd, v)) < TOP
    ensures Good(UnmapPage(s, pd, v, junk), pd) && Conserves(s, UnmapPage(s, pd, v, junk), pd)
  {
    UnmapPageFlat(s, pd, v, junk);
    var t := UnmapPage(s, pd, v, junk);
    var f := Frame(Pte(s.mem, pd, v));
    assert Ref(s.mem, pd, PageSlot(v)) == f;
    forall k | 0 <= k < NREFS ensures Ref(t.mem, pd, k) == if k == PageSlot(v) then -1 else Ref(s.mem, pd, k) {
    }
    forall g: nat ensures g in t.spare || Holds(t, pd, g) <==> g in s.spare || Holds(s, pd, g) {
      if g != f && Holds(s, pd, g) {
        var l :| 0 <= l < NREFS && Ref(s.mem, pd, l) == g;
        assert Ref(t.mem, pd, l) == g;
      }
    }
    forall g | 0 <= g < TOP && g !in s.spare && !Holds(s, pd, g) ensures t.mem[g] == s.mem[g] {
      SetPteWrites(s, pd, v, 0, g);
    }
  }
}
