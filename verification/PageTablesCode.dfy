/** kalloc.c and the page-table procedures of vm.c. */
module PageTablesCode {
  import opened PageTables
  import opened PageMaps

  class Kernel {
    const first: nat
    var mem: Memory
    var freelist: nat
    ghost var list: seq<nat>

    ghost function Free(): set<nat>
      reads this
    {
      Members(list)
    }

    /** The state in which the frames `hand`, taken from the free list, are not yet put to use. */
    ghost function St(hand: set<nat>): State
      reads this
    {
      State(first, mem, Free() + hand)
    }

    ghost predicate Valid(hand: set<nat>)
      reads this
    {
      && 0 < first && Chain(mem, first, freelist, list)
      && Free() !! hand && forall f :: f in hand ==> first <= f < TOP
    }

    constructor (first: nat, mem: Memory)
      requires 0 < first
      ensures this.first == first && this.mem == mem && list == [] && Valid({})
    {
      this.first, this.mem, this.freelist, this.list := first, mem, 0, [];
    }

    /** kfree: false is its panic. Freeing a page twice is not detected, and the list then has no end; the callers
        below are proved not to do it. */
    method Kfree(f: nat) returns (ok: bool)
      requires 0 < first && Chain(mem, first, freelist, list)
      modifies this
      ensures ok <==> first <= f < TOP
      ensures !ok ==> mem == old(mem) && list == old(list) && freelist == old(freelist)
      ensures ok ==> list == [f] + old(list) && mem == old(mem)[f := Junk(old(freelist))] && freelist == f
      ensures !ok || f !in old(list) ==> Chain(mem, first, freelist, list)
      ensures ok && f !in old(list) ==> Free() == old(Free()) + {f}
      ensures ok && f in old(list) ==> Endless(mem, first, freelist)
    {
      if f < first || f >= TOP {
        return false;
      }
      if f in list {
        TwiceFreed(mem, first, freelist, list, f);
      } else {
        ChainKept(mem, mem[f := Junk(freelist)], first, freelist, list);
      }
      mem := mem[f := Junk(freelist)];
      list := [f] + list;
      freelist := f;
      MembersTail(list);
      ok := true;
    }

    /** kalloc: 0 exactly when nothing is free. */
    method Kalloc() returns (r: nat)
      requires 0 < first && Chain(mem, first, freelist, list)
      modifies this`freelist, this`list
      ensures r == 0 <==> old(list) == []
      ensures r == 0 ==> list == old(list) && freelist == old(freelist)
      ensures r != 0 ==>
        && list == old(list)[1..] && r == old(list)[0] && r !in list && first <= r < TOP
        && old(Free()) == Free() + {r}
      ensures Chain(mem, first, freelist, list)
    {
      r := freelist;
      if r != 0 {
        freelist := mem[r][0];
        MembersTail(list);
        list := list[1..];
      }
    }

    /** freerange, from frame `lo` up to `hi`. */
    method Freerange(lo: nat, hi: nat) returns (ok: bool)
      requires Valid({}) && forall f :: lo <= f < hi ==> f !in list
      modifies this
      ensures Valid({})
      ensures ok <==> lo >= hi || (first <= lo && hi <= TOP)
      ensures ok ==> forall f: nat :: f in Free() <==> f in old(Free()) || lo <= f < hi
    {
      var p := lo;
      ok := true;
      while p < hi
        invariant p <= hi || p == lo
        invariant lo <= p && (lo < p ==> first <= lo && p <= TOP)
        invariant Valid({})
        invariant forall f: nat :: f in Free() <==> f in old(Free()) || lo <= f < p
      {
        assert p !in Free();
        ok := Kfree(p);
        if !ok {
          return;
        }
        p := p + 1;
      }
    }

    /** walkpgdir: the frame of the table of page `v`; 0 is its null pointer. The flat map is not changed, and a new
        table can be used in every way: the rights are for its entries to give. */
    method Walk(pd: nat, v: nat, alloc: bool, ghost hand: set<nat>) returns (t: nat)
      requires Valid(hand) && Good(St(hand), pd) && v < NPAGES
      modifies this
      ensures t == 0 <==> !Present(old(mem)[pd][v / NPTENTRIES]) && (!alloc || old(list) == [])
      ensures t == 0 || !alloc || Present(old(mem)[pd][v / NPTENTRIES]) ==>
        mem == old(mem) && list == old(list) && freelist == old(freelist)
      ensures t != 0 ==> Present(mem[pd][v / NPTENTRIES]) && Frame(mem[pd][v / NPTENTRIES]) == t < TOP
      ensures t != 0 && !Present(old(mem)[pd][v / NPTENTRIES]) ==> |list| == |old(list)| - 1
      ensures t != 0 && old(mem)[pd][v / 1024] % 2 == 0 ==> UserWritable(mem[pd][v / 1024])
      ensures forall i :: 0 <= i < NPTENTRIES && i != v / NPTENTRIES ==> mem[pd][i] == old(mem)[pd][i]
      ensures forall f :: 0 <= f < TOP && f !in old(Free()) && f != pd ==> mem[f] == old(mem)[f]
      ensures Valid(hand) && Good(St(hand), pd) && SamePtes(old(St(hand)), St(hand), pd)
      ensures Conserves(old(St(hand)), St(hand), pd)
    {
      hide SamePtes, Conserves, UserWritable;
      ghost var s := St(hand);
      NothingDone(s, pd);
      var i := v / NPTENTRIES;
      assert Ref(mem, pd, 0) == pd && Ref(mem, pd, 1 + i) == EntryFrame(mem[pd][i]);
      if Present(mem[pd][i]) {
        return Frame(mem[pd][i]);
      }
      if !alloc {
        return 0;
      }
      t := Kalloc();
      if t == 0 {
        return;
      }
      mem := mem[t := Blank()];
      mem := mem[pd := mem[pd][i := Entry(t, 7)]];
      TableEntry(t);
      ChainKept(s.mem, mem, first, freelist, list);
      AddTableKeeps(s, pd, i, t);
      assert St(hand) == AddTable(s, pd, i, t);
    }

    /** Storing an entry through the pointer walkpgdir returned. */
    method StoreEntry(pd: nat, v: nat, t: nat, f: nat, perm: nat, ghost hand: set<nat>)
      requires Valid(hand) && Good(St(hand), pd) && v < NPAGES && perm < 4096 && (v < KERNPAGE ==> f in hand)
      requires Present(mem[pd][v / NPTENTRIES]) && t == Frame(mem[pd][v / NPTENTRIES]) && !Present(Pte(mem, pd, v))
      modifies this`mem
      ensures var h := if v < KERNPAGE then hand - {f} else hand;
        Valid(h) && Good(St(h), pd) && Conserves(old(St(hand)), St(h), pd)
      ensures mem[pd] == old(mem)[pd] && FlatUpdate(old(mem), mem, pd, v, Entry(f, perm))
      ensures forall g :: 0 <= g < TOP && g != t ==> mem[g] == old(mem)[g]
    {
      ghost var u := St(hand);
      MapPageKeeps(u, pd, v, Entry(f, perm));
      SetPteFlat(u, pd, v, Entry(f, perm));
      assert Ref(u.mem, pd, 1 + v / NPTENTRIES) == t;
      mem := mem[t := mem[t][v % NPTENTRIES := Entry(f, perm)]];
      ChainKept(u.mem, mem, first, freelist, list);
      ghost var h := if v < KERNPAGE then hand - {f} else hand;
      assert St(h) == MapPage(u, pd, v, Entry(f, perm));
    }

    /** One turn of mappages' loop. */
    method MapOne(pd: nat, v: nat, f: nat, perm: nat, ghost hand: set<nat>) returns (r: MapResult)
      requires Valid(hand) && Good(St(hand), pd) && v < NPAGES && perm < 4096 && (v < KERNPAGE ==> f in hand)
      modifies this
      ensures r == NoMemory <==> !Present(old(mem)[pd][v / NPTENTRIES]) && old(list) == []
      ensures r == Remap <==> Present(Pte(old(mem), pd, v))
      ensures var h := if r == Mapped && v < KERNPAGE then hand - {f} else hand;
        Valid(h) && Good(St(h), pd) && Conserves(old(St(hand)), St(h), pd)
      ensures if r == Mapped then FlatUpdate(old(mem), mem, pd, v, Entry(f, perm)) else mem == old(mem)
      ensures DirectoryStep(old(mem), mem, pd, v, r == Mapped)
      ensures |list| == |old(list)| - if r == Mapped && !Present(old(mem)[pd][v / NPTENTRIES]) then 1 else 0
      ensures DataKept(old(St(hand)), mem, pd, hand)
      ensures r != Mapped ==> list == old(list)
    {
      assert pd < TOP;
      hide Good, Conserves, SamePtes, FlatUpdate, Pte, Chain, Members, DataKept, UserWritable;
      ghost var s := St(hand);
      var t := Walk(pd, v, true, hand);
      SamePte(s, St(hand), pd, v);
      PteIn(s.mem, pd, v);
      PteIn(mem, pd, v);
      if t == 0 {
        DataSame(s, pd, hand);
        return NoMemory;
      }
      ghost var u := St(hand);
      if Present(mem[t][v % NPTENTRIES]) {
        DataSame(s, pd, hand);
        return Remap;
      }
      StoreEntry(pd, v, t, f, perm, hand);
      FlatAfterSame(s, u, mem, pd, v, Entry(f, perm));
      ConservesTransitive(s, u, St(if v < KERNPAGE then hand - {f} else hand), pd);
      TableWrites(s, u, mem, pd, v, t, hand);
      r := Mapped;
    }

    /** One turn, seen from the start of mappages' loop: page v0 + m gets frame f0 + m. */
    method MapNext(pd: nat, a: nat, f: nat, perm: nat, ghost s: State, ghost hand: set<nat>, ghost g: Goal,
                   ghost m: nat)
      returns (r: MapResult)
      requires pd < TOP && a == g.v0 + m < g.n <= NPAGES && f == g.f0 + m && perm == g.perm < 4096
      requires InHand(hand, g.v0, g.f0, g.n)
      requires Valid(Rest(hand, g.v0, g.f0, m)) && Progress(s, hand, St(Rest(hand, g.v0, g.f0, m)), pd, g, m, |list|)
      modifies this
      ensures r == Mapped ==>
        && Valid(Rest(hand, g.v0, g.f0, m + 1))
        && Progress(s, hand, St(Rest(hand, g.v0, g.f0, m + 1)), pd, g, m + 1, |list|)
      ensures r != Mapped ==>
        && Valid(Rest(hand, g.v0, g.f0, m)) && Progress(s, hand, St(Rest(hand, g.v0, g.f0, m)), pd, g, m, |list|)
        && Stuck(s, pd, g, m, r, |list|)
    {
      hide Tables, Stuck, Conserves, DataKept, Directory, DirectoryStep, FlatUpdate, Progress, Good, Chain;
      ghost var h := Rest(hand, g.v0, g.f0, m);
      ghost var u := St(h);
      ghost var before := |list|;
      ProgressGood(s, hand, u, pd, g, m, before);
      RestNext(hand, g.v0, g.f0, m);
      r := MapOne(pd, a, f, perm, h);
      if r == Mapped {
        ProgressStep(s, hand, u, St(Rest(hand, g.v0, g.f0, m + 1)), pd, g, m, before, |list|);
      } else {
        StuckStep(s, hand, u, pd, g, m, r, |list|);
      }
    }

    /** The loop of mappages, over pages a0 .. last. */
    method MapLoop(pd: nat, a0: nat, last: nat, fr: nat, perm: nat, ghost hand: set<nat>)
      returns (r: MapResult, ghost m: nat)
      requires Valid(hand) && Good(St(hand), pd) && a0 <= last < NPAGES && perm < 4096 && InHand(hand, a0, fr, last + 1)
      modifies this
      ensures var g := Goal(a0, fr, last + 1, perm, |old(list)|);
        MapOutcome(old(St(hand)), hand, St(Rest(hand, a0, fr, m)), pd, g, r, m, |list|)
      ensures Valid(Rest(hand, a0, fr, m))
    {
      ghost var s := St(hand);
      ghost var g := Goal(a0, fr, last + 1, perm, |list|);
      var a, f := a0, fr;
      m := 0;
      RestNone(hand, a0, fr);
      MappingStart(s, hand, pd, a0, fr, perm);
      assert pd < TOP;
      hide Progress, Valid, Good, Stuck, InHand, Rest;
      while true
        invariant a == a0 + m <= last && f == fr + m
        invariant Valid(Rest(hand, a0, fr, m)) && Progress(s, hand, St(Rest(hand, a0, fr, m)), pd, g, m, |list|)
        decreases last - a
      {
        r := MapNext(pd, a, f, perm, s, hand, g, m);
        if r != Mapped {
          return;
        }
        m := m + 1;
        if a == last {
          return;
        }
        a := a + 1;
        f := f + 1;
      }
    }

    /** mappages: pages from `va` on get the frames from `pa` on. `m` counts the pages that were mapped
        when it stopped, for want of a frame for a table or with the panic "remap". */
    method Mappages(pd: nat, va: nat, size: nat, pa: nat, perm: nat, ghost hand: set<nat>, ghost g: Goal)
      returns (r: MapResult, ghost m: nat)
      requires Valid(hand) && Good(St(hand), pd) && 0 < size && va + size <= WORD && pa % PGSIZE == 0 && perm < 4096
      requires g == Goal(va / PGSIZE, pa / PGSIZE, (va + size - 1) / PGSIZE + 1, perm, |list|)
      requires InHand(hand, g.v0, g.f0, g.n)
      modifies this
      ensures Valid(Rest(hand, g.v0, g.f0, m))
      ensures MapOutcome(old(St(hand)), hand, St(Rest(hand, g.v0, g.f0, m)), pd, g, r, m, |list|)
      ensures pd < TOP && (Open(old(mem)[pd]) ==> Open(mem[pd]))
    {
      hide MapOutcome, Rest, Valid, InHand, Good, Open;
      ghost var s := St(hand);
      var a, last := va / PGSIZE, (va + size - 1) % WORD / PGSIZE;
      r, m := MapLoop(pd, a, last, pa / PGSIZE, perm, hand);
      MapOutcomeOpen(s, hand, St(Rest(hand, g.v0, g.f0, m)), pd, g, r, m, |list|);
    }

    /** deallocuvm freeing one page; kfree cannot panic and the page is not free already. */
    method FreePage(pd: nat, v: nat, t: nat, ghost hand: set<nat>)
      requires Valid(hand) && Good(St(hand), pd) && v < KERNPAGE && Present(mem[pd][v / NPTENTRIES])
      requires t == Frame(mem[pd][v / NPTENTRIES]) < TOP && Present(mem[t][v % NPTENTRIES])
      modifies this
      ensures Valid(hand) && Frame(Pte(old(mem), pd, v)) < TOP
      ensures St(hand) == UnmapPage(old(St(hand)), pd, v, Junk(old(freelist)))
    {
      ghost var s := St(hand);
      UnmapPageFlat(s, pd, v, Junk(freelist));
      assert Ref(mem, pd, PageSlot(v)) == Frame(Pte(mem, pd, v)) && Ref(mem, pd, 1 + v / NPTENTRIES) == t;
      var f := Frame(mem[t][v % NPTENTRIES]);
      var ok := Kfree(f);
      assert ok;
      ghost var n := mem;
      mem := mem[t := mem[t][v % NPTENTRIES := 0]];
      ChainKept(n, mem, first, freelist, list);
    }

    /** The loop body of deallocuvm: it returns the address of the last page it passed. */
    method DeallocNext(pd: nat, a: nat, ghost v: nat, ghost hand: set<nat>, ghost s: State, ghost lo: nat,
                       ghost hi: nat)
      returns (b: nat, ghost w: nat)
      requires a == v * PGSIZE && v < KERNPAGE && lo <= v < hi
      requires Valid(hand) && Unmapping(s, St(hand), pd, lo, v, hand)
      modifies this
      ensures v <= w < KERNPAGE && b == w * PGSIZE
      ensures b == if old(mem)[pd][a / 0x40_0000] % 2 == 0 then (a / 0x40_0000 + 1) * 0x40_0000 - 4096 else a
      ensures Valid(hand) && Unmapping(s, St(hand), pd, lo, w + 1, hand)
      ensures Absent(s, pd, hi, w + 1)
    {
      b, w := a, v;
      assert Good(St(hand), pd);
      hide Good, Unmapping, Conserves, Chain, Members;
      PageStart(v, a);
      PteIn(mem, pd, v);
      var t := Walk(pd, a / PGSIZE, false, hand);
      if t == 0 {
        UnmappingSkip(s, St(hand), pd, lo, v, hand);
        SkipAddress(a);
        b := (a / 0x40_0000 + 1) * 0x40_0000 - PGSIZE;
        w := b / PGSIZE;
      } else if Present(mem[t][a / PGSIZE % NPTENTRIES]) {
        UnmappingStep(s, St(hand), pd, lo, v, hand, Junk(freelist));
        FreePage(pd, a / PGSIZE, t, hand);
      } else {
        UnmappingNone(s, St(hand), pd, lo, v, hand);
      }
    }

    /** The loop of deallocuvm. */
    method DeallocLoop(pd: nat, start: nat, oldsz: nat, ghost s: State, ghost lo: nat, ghost hi: nat,
                       ghost hand: set<nat>)
      requires start == lo * PGSIZE && hi == Up(oldsz) <= KERNPAGE && lo <= hi
      requires Valid(hand) && Unmapping(s, St(hand), pd, lo, lo, hand) && Absent(s, pd, hi, lo)
      modifies this
      ensures Valid(hand) && Unmapping(s, St(hand), pd, lo, hi, hand)
    {
      hide Unmapping, Valid, Absent, Up;
      var a := start;
      ghost var v := lo;
      while a < oldsz
        invariant a == v * PGSIZE && lo <= v <= KERNPAGE
        invariant Valid(hand) && Unmapping(s, St(hand), pd, lo, v, hand) && Absent(s, pd, hi, v)
        decreases oldsz - a
      {
        PageStart(v, oldsz);
        a, v := DeallocNext(pd, a, v, hand, s, lo, hi);
        a, v := a + PGSIZE, v + 1;
      }
      PageStart(v, oldsz);
      UnmappingEnd(s, St(hand), pd, lo, hi, v, hand);
    }

    /** deallocuvm. Pages from `newsz` up to `oldsz` are unmapped and their frames are free again; skipping
        a missing table passes over no page. */
    method Deallocuvm(pd: nat, oldsz: nat, newsz: nat, ghost hand: set<nat>) returns (r: nat)
      requires Valid(hand) && Good(St(hand), pd) && oldsz <= KERNBASE
      modifies this
      ensures r == if newsz >= oldsz then oldsz else newsz
      ensures Valid(hand) && Unmapping(old(St(hand)), St(hand), pd, Up(newsz), Up(oldsz), hand)
    {
      if newsz >= oldsz {
        UnmappingStart(St(hand), pd, Up(newsz), Up(oldsz), hand);
        return oldsz;
      }
      UnmappingStart(St(hand), pd, Up(newsz), Up(oldsz), hand);
      DeallocLoop(pd, Up(newsz) * PGSIZE, oldsz, St(hand), Up(newsz), Up(oldsz), hand);
      r := newsz;
    }

    /** freevm freeing the tables that the directory lists. */
    method FreeTables(pd: nat)
      requires Valid({}) && Good(St({}), pd)
      modifies this
      ensures Valid({}) && TablesFreed(old(St({})), St({}), pd, NPTENTRIES)
    {
      ghost var s := St({});
      assert Ref(mem, pd, 0) == pd;
      var i := 0;
      while i < NPTENTRIES
        invariant i <= NPTENTRIES && Valid({}) && TablesFreed(s, St({}), pd, i)
      {
        TablesFreedNext(s, St({}), pd, i, Junk(freelist));
        if Present(mem[pd][i]) {
          var ok := Kfree(Frame(mem[pd][i]));
          assert ok;
        }
        i := i + 1;
      }
    }

    /** freevm: every frame of the address space, its tables and its directory are free again, each freed once. */
    method Freevm(pd: nat)
      requires Valid({}) && Good(St({}), pd)
      modifies this
      ensures Valid({}) && Released(old(St({})), St({}), pd)
    {
      ghost var s := St({});
      var sz := Deallocuvm(pd, KERNBASE, 0, {});
      ghost var t := St({});
      FreeTables(pd);
      ghost var u := St({});
      assert Ref(t.mem, pd, 0) == pd;
      DirectoryHeld(t, u, pd);
      var ok := Kfree(pd);
      AllReleased(s, t, u, St({}), pd);
    }

    /** A page from kalloc filled with `page`: memset or memmove into it. */
    method TakePage(page: Page, pd: nat) returns (f: nat)
      requires Valid({}) && Good(St({}), pd)
      modifies this
      ensures f == 0 <==> old(list) == []
      ensures f == 0 ==> list == old(list) && mem == old(mem) && freelist == old(freelist)
      ensures f != 0 ==>
        && Valid({f}) && mem == old(mem)[f := page] && |list| == |old(list)| - 1 && f in old(Free())
        && St({f}) == State(first, old(mem)[f := page], old(Free()))
        && Good(St({f}), pd) && SamePtes(old(St({})), St({f}), pd) && Conserves(old(St({})), St({f}), pd)
    {
      ghost var s := St({});
      f := Kalloc();
      if f != 0 {
        mem := mem[f := page];
        ChainKept(s.mem, mem, first, freelist, list);
        SpareWrites(s, St({f}), pd);
      }
    }

    /** The loop body of allocuvm: page `v` gets a zeroed frame. When it fails, a frame that kalloc gave
        but mappages could not use is left in hand. */
    method GrowNext(pd: nat, a: nat, ghost v: nat, ghost s: State, ghost g: Growth) returns (ok: bool, f: nat)
      requires a == v * PGSIZE && Valid({}) && Growing(s, St({}), pd, g, v, |list|) && g.lo <= v < g.hi <= KERNPAGE
      requires Absent(s, pd, v, g.hi)
      modifies this
      ensures ok ==> Valid({}) && Growing(s, St({}), pd, g, v + 1, |list|)
      ensures !ok ==> Valid(Hand(f)) && Overgrown(s, St(Hand(f)), pd, g, v)
    {
      ghost var t := St({});
      ghost var before := |list|;
      assert Good(t, pd);
      hide Good, Conserves, SamePtes, Grown, Progress, Tables, Chain, Absent;
      f := TakePage(Blank(), pd);
      if f == 0 {
        return false, 0;
      }
      ghost var u := St({f});
      ghost var goal := Goal(v, f, v + 1, PTE_W + PTE_U, |list|);
      RestOne(v, f);
      ghost var m;
      var r;
      r, m := Mappages(pd, a, PGSIZE, f * PGSIZE, PTE_W + PTE_U, {f}, goal);
      ok := r == Mapped;
      assert m == if ok then 1 else 0;
      GrowStep(s, t, u, St(if ok then {} else {f}), pd, g, v, f, goal, r, m, before, |list|);
    }

    /** The loop of allocuvm from page g.lo up to `newsz`. */
    method AllocLoop(pd: nat, start: nat, newsz: nat, ghost s: State, ghost g: Growth)
      returns (ok: bool, f: nat, ghost v: nat)
      requires start == g.lo * PGSIZE && g.hi == Up(newsz) && g.lo <= g.hi <= KERNPAGE
      requires Valid({}) && Growing(s, St({}), pd, g, g.lo, |list|) && Absent(s, pd, g.lo, g.hi)
      modifies this
      ensures ok ==> Valid({}) && Growing(s, St({}), pd, g, g.hi, |list|)
      ensures !ok ==> Valid(Hand(f)) && Overgrown(s, St(Hand(f)), pd, g, v)
    {
      hide Valid, Growing, Overgrown, Absent, Up, Hand;
      var a := start;
      v := g.lo;
      while a < newsz
        invariant a == v * PGSIZE && g.lo <= v <= g.hi
        invariant Valid({}) && Growing(s, St({}), pd, g, v, |list|)
      {
        PageStart(v, newsz);
        AbsentFrom(s, pd, g.lo, v, g.hi);
        ok, f := GrowNext(pd, a, v, s, g);
        if !ok {
          return;
        }
        a := a + PGSIZE;
        v := v + 1;
      }
      PageStart(v, newsz);
      ok, f := true, 0;
    }

    /** allocuvm. It succeeds exactly when enough frames are free for the pages and the tables they need;
        otherwise every data frame it took is free again and the map is as before. */
    method Allocuvm(pd: nat, oldsz: nat, newsz: nat) returns (r: nat)
      requires Valid({}) && Good(St({}), pd) && oldsz <= KERNBASE
      requires newsz < KERNBASE ==> Absent(St({}), pd, Up(oldsz), Up(newsz))
      modifies this
      ensures Valid({})
      ensures newsz >= KERNBASE ==> r == 0 && St({}) == old(St({}))
      ensures newsz < oldsz && newsz < KERNBASE ==> r == oldsz && St({}) == old(St({}))
      ensures Open(old(mem)[pd]) ==> Open(mem[pd])
      ensures r == newsz && oldsz <= newsz < KERNBASE && Open(old(mem)[pd]) ==>
        forall a :: Up(oldsz) * 4096 <= a < Up(newsz) * 4096 ==>
          Mmu(mem, pd, a).Reach? && Mmu(mem, pd, a).write && Mmu(mem, pd, a).user
      ensures oldsz <= newsz < KERNBASE ==>
        if |old(list)| >= Up(newsz) - Up(oldsz) + Tables(old(mem)[pd], Up(oldsz), Up(oldsz), Up(newsz))
        then r == newsz && Grown(old(St({})), St({}), pd, Up(oldsz), Up(newsz))
        else r == 0 && Reverted(old(St({})), St({}), pd)
    {
      if newsz >= KERNBASE {
        return 0;
      }
      if newsz < oldsz {
        return oldsz;
      }
      ghost var s := St({});
      ghost var g := Growth(Up(oldsz), Up(newsz), |list|);
      ghost var v;
      var ok, f;
      GrowingStart(s, pd, g);
      ok, f, v := AllocLoop(pd, Up(oldsz) * PGSIZE, newsz, s, g);
      if ok {
        AllGrown(s, St({}), pd, g, |list|);
        if Open(s.mem[pd]) {
          GrownMmu(s, St({}), pd, g.lo, g.hi);
        }
        return newsz;
      }
      Undo(pd, oldsz, newsz, f, s, v);
      r := 0;
    }

    /** The error paths of allocuvm: deallocuvm, and kfree of the page that could not be mapped. */
    method Undo(pd: nat, oldsz: nat, newsz: nat, f: nat, ghost s: State, ghost v: nat)
      requires oldsz <= newsz < KERNBASE && Valid(Hand(f)) && v <= Up(newsz) && Absent(s, pd, Up(oldsz), Up(newsz))
      requires Grown(s, St(Hand(f)), pd, Up(oldsz), v)
      modifies this
      ensures Valid({}) && Reverted(s, St({}), pd)
    {
      ghost var h := Hand(f);
      ghost var y := St(h);
      var d := Deallocuvm(pd, newsz, oldsz, h);
      ghost var z := St(h);
      if f != 0 {
        var ok := Kfree(f);
      }
      SpareWrites(z, St({}), pd);
      UndoReverts(s, y, z, St({}), pd, Up(oldsz), v, Up(newsz), h);
    }

    /** mappages of the k-th entry of kmap. */
    method MapKernel(pd: nat, data: nat, k: nat) returns (r: MapResult, ghost m: nat)
      requires Valid({}) && DataAddress(data) && k < 4 && Good(St({}), pd)
      modifies this
      ensures Valid({}) && MapOutcome(old(St({})), {}, St({}), pd, KGoal(data / PGSIZE, k, |old(list)|), r, m, |list|)
    {
      ghost var g := KGoal(data / PGSIZE, k, |list|);
      KmapRange(data, k, |list|);
      hide Good, MapOutcome, InHand, Kmap, KGoal, Rest, Valid;
      var e := Kmap(data)[k];
      r, m := Mappages(pd, e.virt, (e.physEnd - e.physStart) % WORD, e.physStart, e.perm, {}, g);
      RestEmpty(g.v0, g.f0, m);
    }

    /** One turn of setupkvm's loop over kmap. */
    method KmapNext(pd: nat, data: nat, k: nat, ghost s: State) returns (ok: bool)
      requires Valid({}) && DataAddress(data) && k < 4 && Kspace(s, St({}), pd, data / PGSIZE, k)
      modifies this
      ensures Valid({}) && (ok ==> Kspace(s, St({}), pd, data / PGSIZE, k + 1)) && (!ok ==> Fresh(s, St({}), pd))
      ensures ok ==> |list| + Made(data / PGSIZE, k + 1) == |old(list)| + Made(data / PGSIZE, k)
      ensures !ok ==> |old(list)| + Made(data / PGSIZE, k) < Made(data / PGSIZE, k + 1)
    {
      ghost var u := St({});
      ghost var before := |list|;
      ghost var m;
      var r;
      r, m := MapKernel(pd, data, k);
      KspaceNext(s, u, St({}), pd, data / PGSIZE, k, r, m, before, |list|);
      ok := r == Mapped;
    }

    /** setupkvm: a new directory with the kernel's mappings and no user page; 0 when fewer than 65 frames
        are free, and then every frame it took is free again. `data` is the address of the kernel's data. */
    method Setupkvm(data: nat) returns (pd: nat)
      requires Valid({}) && DataAddress(data)
      modifies this
      ensures Valid({}) && (pd == 0 <==> |old(list)| < KVMFRAMES)
      ensures pd != 0 ==> Kspace(old(St({})), St({}), pd, data / PGSIZE, 4) && |list| + KVMFRAMES == |old(list)|
      ensures pd == 0 ==> SpareOnly(old(St({})), St({})) && Free() == old(Free())
      ensures pd != 0 ==>
        && pd < TOP && Open(mem[pd])
        && forall a :: 0 <= a < WORD ==> Mmu(mem, pd, a) == KernelAccess(data, a)
    {
      ghost var s := St({});
      pd := Kalloc();
      if pd == 0 {
        return;
      }
      mem := mem[pd := Blank()];
      ChainKept(s.mem, mem, first, freelist, list);
      NewSpace(s, St({}), pd, data / PGSIZE);
      var k := 0;
      while k < 4
        invariant k <= 4 && pd != 0 && Valid({}) && Kspace(s, St({}), pd, data / PGSIZE, k)
        invariant |list| + 1 + Made(data / PGSIZE, k) == |old(list)|
      {
        var ok := KmapNext(pd, data, k, s);
        if !ok {
          FreshReleased(s, St({}), pd);
          Freevm(pd);
          return 0;
        }
        k := k + 1;
      }
      KspaceMmu(s, St({}), pd, data);
    }

    /** The loop body of copyuvm: page `v` of `pd` is copied to `d`. */
    method CopyNext(pd: nat, d: nat, i: nat, ghost v: nat, ghost s: State, ghost c: Copy) returns (r: CopyStep, f: nat)
      requires i == v * PGSIZE && Valid({}) && Copying(s, St({}), pd, d, c, v, |list|) && v < KERNPAGE
      modifies this
      ensures r == Missing <==> Lacks(s, pd, v)
      ensures r == Missing ==> mem == old(mem) && list == old(list) && freelist == old(freelist)
      ensures r == Next ==> Valid({}) && Copying(s, St({}), pd, d, c, v + 1, |list|)
      ensures r == Full ==> Valid(Hand(f)) && CopyFailed(s, St(Hand(f)), pd, d, c, v)
    {
      OtherSpace(s, St({}), pd, d);
      hide Good, Copying, Conserves, Chain, Members, Fresh;
      PageStart(v, i);
      PteIn(mem, pd, v);
      var t := Walk(pd, i / PGSIZE, false, {});
      if t == 0 || !Present(mem[t][i / PGSIZE % NPTENTRIES]) {
        return Missing, 0;
      }
      var e := mem[t][i / PGSIZE % NPTENTRIES];
      assert e == Pte(s.mem, pd, v);
      r, f := CopyPage(pd, d, i, v, e, s, c);
    }

    /** kalloc, memmove and mappages of one page with entry `e` in the parent. */
    method CopyPage(ghost pd: nat, d: nat, i: nat, ghost v: nat, e: nat, ghost s: State,
                    ghost c: Copy)
      returns (r: CopyStep, f: nat)
      requires i == v * PGSIZE && Valid({}) && Copying(s, St({}), pd, d, c, v, |list|) && v < KERNPAGE
      requires e == Pte(s.mem, pd, v) && Present(e)
      modifies this
      ensures r == Next ==> Valid({}) && Copying(s, St({}), pd, d, c, v + 1, |list|)
      ensures r == Full ==> Valid(Hand(f)) && CopyFailed(s, St(Hand(f)), pd, d, c, v)
      ensures r != Missing
    {
      ghost var t := St({});
      ghost var before := |list|;
      ParentPage(s, t, pd, d, v);
      ghost var page := mem[Frame(e)];
      assert Good(t, d);
      hide Good, Conserves, SamePtes, Copying, Progress, Chain, Fresh;
      f := TakePage(mem[Frame(e)], d);
      if f == 0 {
        CopyFull(s, t, pd, d, c, v);
        return Full, 0;
      }
      ghost var u := St({f});
      ghost var goal := Goal(v, f, v + 1, Flags(e), |list|);
      RestOne(v, f);
      ghost var m;
      var q;
      q, m := Mappages(d, i, PGSIZE, f * PGSIZE, Flags(e), {f}, goal);
      assert m == if q == Mapped then 1 else 0;
      r := if q == Mapped then Next else Full;
      CopyPageStep(s, t, u, St(if q == Mapped then {} else {f}), pd, d, c, v, f, e, goal, q, m, before, |list|);
    }

    /** The loop of copyuvm. */
    method CopyLoop(pd: nat, d: nat, sz: nat, ghost s: State, ghost c: Copy) returns (r: CopyStep, f: nat, ghost v: nat)
      requires sz <= KERNBASE && Valid({}) && Copying(s, St({}), pd, d, c, 0, |list|)
      modifies this
      ensures v <= Up(sz) && (r == Next <==> v == Up(sz)) && PresentBelow(s, pd, v)
      ensures r == Next ==> Valid({}) && Copying(s, St({}), pd, d, c, v, |list|)
      ensures r == Missing ==> Lacks(s, pd, v) && c.before >= KVMFRAMES + Cost(v)
      ensures r == Full ==> Valid(Hand(f)) && CopyFailed(s, St(Hand(f)), pd, d, c, v)
    {
      hide Valid, Copying, PresentBelow, Up, Hand, CopyFailed, Lacks, Cost;
      var i := 0;
      v := 0;
      CopyingCost(s, St({}), pd, d, c, 0, |list|);
      PresentNone(s, pd);
      UpBound(sz);
      while i < sz
        invariant i == v * PGSIZE && v <= Up(sz) && PresentBelow(s, pd, v)
        invariant Valid({}) && Copying(s, St({}), pd, d, c, v, |list|)
      {
        PageStart(v, sz);
        CopyingCost(s, St({}), pd, d, c, v, |list|);
        r, f := CopyNext(pd, d, i, v, s, c);
        if r != Next {
          return;
        }
        PresentNext(s, pd, v);
        i, v := i + PGSIZE, v + 1;
      }
      PageStart(v, sz);
      r, f := Next, 0;
    }

    /** copyuvm. The child gets copies, with the same flags, of all pages below `sz` in frames of its own, and the
        parent keeps its own; the number of free frames decides. `m` counts the pages it got to see. */
    method Copyuvm(pd: nat, sz: nat, data: nat) returns (r: CopyResult, ghost m: nat)
      requires Valid({}) && Good(St({}), pd) && sz <= KERNBASE && DataAddress(data)
      modifies this
      ensures m <= Up(sz) && PresentBelow(old(St({})), pd, m)
      ensures r.Child? ==>
        && Valid({}) && m == Up(sz) && |old(list)| >= KVMFRAMES + Cost(m)
        && Copied(old(St({})), St({}), pd, r.d, data / PGSIZE, m)
        && Good(St({}), pd) && SamePtes(old(St({})), St({}), pd)
      ensures r.Child? ==> r.d < TOP && mem[pd] == old(mem)[pd] && Open(mem[r.d])
      ensures r.Child? && Open(old(mem)[pd]) ==> SameRights(old(mem), mem, pd, r.d, Up(sz))
      ensures r == Panic ==> m < Up(sz) && Lacks(old(St({})), pd, m) && |old(list)| >= KVMFRAMES + Cost(m)
      ensures r == OutOfMemory ==>
        && Valid({}) && |old(list)| < KVMFRAMES + Cost(m)
        && Free() == old(Free()) && SpareOnly(old(St({})), St({}))
    {
      ghost var s := St({});
      ghost var c := Copy(data / PGSIZE, |list|);
      PresentNone(s, pd);
      assert Cost(0) == 0;
      hide Good, Copying, Copied, PresentBelow, Kspace, CopyFailed, Lacks, Valid, SpareOnly, Up, Cost, Hand, Members,
           Fresh, SamePtes, Open, SameRights, Mmu;
      var d := Setupkvm(data);
      if d == 0 {
        return OutOfMemory, 0;
      }
      CopyingStart(s, St({}), pd, d, c, |list|);
      var step, f;
      step, f, m := CopyLoop(pd, d, sz, s, c);
      if step == Missing {
        return Panic, m;
      }
      if step == Full {
        CopyFailedAt(s, St(Hand(f)), pd, d, c, m);
        Discard(pd, d, f, s, c, m);
        return OutOfMemory, m + 1;
      }
      CopyingCost(s, St({}), pd, d, c, m, |list|);
      OtherSpace(s, St({}), pd, d);
      CopiedMmu(s, St({}), pd, d, c.data, m);
      assert Ref(s.mem, pd, 0) == pd;
      r := Child(d);
    }

    /** The error paths of copyuvm: kfree of the page that could not be mapped, and freevm of the child. */
    method Discard(pd: nat, d: nat, f: nat, ghost s: State, ghost c: Copy, ghost v: nat)
      requires Valid(Hand(f)) && CopyFailed(s, St(Hand(f)), pd, d, c, v)
      modifies this
      ensures Valid({}) && Free() == s.spare && SpareOnly(s, St({}))
    {
      ghost var y := St(Hand(f));
      if f != 0 {
        var ok := Kfree(f);
      }
      SpareWrites(y, St({}), d);
      FreshStep(s, y, St({}), d);
      FreshReleased(s, St({}), d);
      Freevm(d);
    }
  }
}
