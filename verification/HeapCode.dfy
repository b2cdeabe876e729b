/** umalloc.c itself: free, morecore and malloc over the circular list of headers. */
module HeapCode {
  import opened Common
  import opened Heap

  // ----------------------------------------------------------------- accounts

  /** Unit `u` belongs to the block malloc handed out at header `a`. */
  ghost predicate LiveAt(live: map<int, int>, a: int, u: int) {
    a in live && a <= u < a + live[a]
  }

  ghost predicate InLive(live: map<int, int>, u: int) {
    exists a :: LiveAt(live, a, u)
  }

  /** Unit `u` belongs to one of the stretches obtained from sbrk. */
  ghost predicate GrantAt(granted: seq<(int, int)>, k: int, u: int) {
    0 <= k < |granted| && Within(u, granted[k].0, granted[k].1)
  }

  ghost predicate InGranted(granted: seq<(int, int)>, u: int) {
    exists k :: GrantAt(granted, k, u)
  }

  /** Headers of live blocks are intact, live blocks overlap neither each other nor free
      ones, and live and free units together are exactly those obtained from sbrk. */
  ghost predicate Accounts(base: int, mem: map<int, Header>, nodes: seq<int>, live: map<int, int>,
                           granted: seq<(int, int)>) {
    && (forall a :: a in live ==> live[a] > 0 && base < a && a in mem && mem[a].size == live[a])
    && (forall a, u :: LiveAt(live, a, u) ==> !InFree(mem, nodes, u))
    && (forall a, b, u :: LiveAt(live, a, u) && LiveAt(live, b, u) ==> a == b)
    && (forall u :: InGranted(granted, u) <==> InFree(mem, nodes, u) || InLive(live, u))
  }

  /** A stretch of units that are not free lies between the free blocks. */
  lemma UnitsApart(base: int, mem: map<int, Header>, nodes: seq<int>, a: int, n: int)
    requires FreeList(base, mem, nodes) && n > 0 && base < a
    requires forall u :: Within(u, a, n) ==> !InFree(mem, nodes, u)
    ensures Apart(base, mem, nodes, a, n)
  {
    forall i | 1 <= i < |nodes| ensures a + n <= nodes[i] || nodes[i] + mem[nodes[i]].size <= a {
      var u := if a <= nodes[i] then nodes[i] else a;
      if nodes[i] < a + n && a < nodes[i] + mem[nodes[i]].size {
        assert Within(u, a, n) && FreeAt(mem, nodes, i, u);
      }
    }
  }

  /** No live block starts where a free one does. */
  lemma LiveNotNode(base: int, mem: map<int, Header>, nodes: seq<int>, live: map<int, int>, granted: seq<(int, int)>,
                    a: int)
    requires FreeList(base, mem, nodes) && Accounts(base, mem, nodes, live, granted) && a in live
    ensures a !in nodes
  {
    if i :| 0 <= i < |nodes| && nodes[i] == a {
      assert LiveAt(live, a, a);
      assert i > 0 ==> FreeAt(mem, nodes, i, a);
    }
  }

  lemma AccountsAfterFree(base: int, mem: map<int, Header>, nodes: seq<int>, live: map<int, int>,
                          granted: seq<(int, int)>,
                          a: int, m: map<int, Header>, r: seq<int>)
    requires Accounts(base, mem, nodes, live, granted) && a in live
    requires forall u :: InFree(m, r, u) <==> InFree(mem, nodes, u) || Within(u, a, live[a])
    requires forall b :: b in live && b != a ==> b in m && m[b] == mem[b]
    ensures Accounts(base, m, r, live - {a}, granted)
  {
    var live' := live - {a};
    forall b, u | LiveAt(live', b, u) ensures !InFree(m, r, u) {
      assert LiveAt(live, b, u);
      assert Within(u, a, live[a]) ==> LiveAt(live, a, u);
    }
    forall b, c, u | LiveAt(live', b, u) && LiveAt(live', c, u) ensures b == c {
      assert LiveAt(live, b, u) && LiveAt(live, c, u);
    }
    forall u ensures InGranted(granted, u) <==> InFree(m, r, u) || InLive(live', u) {
      if b :| LiveAt(live, b, u) {
        if b != a { assert LiveAt(live', b, u); }
      }
      if b :| LiveAt(live', b, u) { assert LiveAt(live, b, u); }
      if Within(u, a, live[a]) { assert LiveAt(live, a, u); }
    }
  }

  lemma AccountsAfterMalloc(base: int, mem: map<int, Header>, nodes: seq<int>, live: map<int, int>,
                            granted: seq<(int, int)>,
                            h: int, n: int, m: map<int, Header>, r: seq<int>)
    requires Accounts(base, mem, nodes, live, granted) && n > 0 && base < h && h in m && m[h].size == n
    requires forall u :: Within(u, h, n) ==> InFree(mem, nodes, u)
    requires forall u :: InFree(m, r, u) <==> InFree(mem, nodes, u) && !Within(u, h, n)
    requires forall b :: b in live ==> b in m && m[b] == mem[b]
    ensures h !in live && Accounts(base, m, r, live[h := n], granted)
  {
    assert Within(h, h, n);
    if h in live { assert LiveAt(live, h, h); }
    var live' := live[h := n];
    forall b, u | LiveAt(live', b, u) ensures !InFree(m, r, u) {
      if b == h { assert Within(u, h, n); } else { assert LiveAt(live, b, u); }
    }
    forall b, c, u | LiveAt(live', b, u) && LiveAt(live', c, u) ensures b == c {
      if b != h { assert LiveAt(live, b, u); }
      if c != h { assert LiveAt(live, c, u); }
      assert b == h || c == h ==> Within(u, h, n);
    }
    forall u ensures InGranted(granted, u) <==> InFree(m, r, u) || InLive(live', u) {
      if b :| LiveAt(live, b, u) { assert b != h; assert LiveAt(live', b, u); }
      if b :| LiveAt(live', b, u) { if b != h { assert LiveAt(live, b, u); } else { assert Within(u, h, n); } }
      if Within(u, h, n) { assert LiveAt(live', h, u); }
    }
  }

  lemma AccountsAfterGrant(base: int, mem: map<int, Header>, nodes: seq<int>, live: map<int, int>,
                           granted: seq<(int, int)>,
                           g: int, n: int, m: map<int, Header>, r: seq<int>)
    requires Accounts(base, mem, nodes, live, granted)
    requires forall u :: Within(u, g, n) ==> !InGranted(granted, u)
    requires forall u :: InFree(m, r, u) <==> InFree(mem, nodes, u) || Within(u, g, n)
    requires forall b :: b in live ==> b in m && m[b] == mem[b]
    ensures Accounts(base, m, r, live, granted + [(g, n)])
  {
    var granted' := granted + [(g, n)];
    forall b, u | LiveAt(live, b, u) ensures !InFree(m, r, u) {
      assert InLive(live, u);
    }
    forall u ensures InGranted(granted', u) <==> InGranted(granted, u) || Within(u, g, n) {
      if k :| GrantAt(granted, k, u) { assert GrantAt(granted', k, u); }
      if Within(u, g, n) { assert GrantAt(granted', |granted|, u); }
      if k :| GrantAt(granted', k, u) { if k < |granted| { assert GrantAt(granted, k, u); } }
    }
  }

  // ------------------------------------------------------------- the searches

  /** Steps along the circle from node `f` to node `i`; a full turn back to `f` itself. */
  function Dist(f: nat, i: nat, n: nat): int {
    if i > f then i - f else i - f + n
  }

  /** Node `i` is the first, going round from the node after `f`, with at least `n` units. */
  ghost predicate NextFit(mem: map<int, Header>, nodes: seq<int>, f: nat, n: int, i: nat) {
    && f < |nodes| && 1 <= i < |nodes| && nodes[i] in mem && mem[nodes[i]].size >= n
    && Unfit(mem, nodes, f, n, i)
  }

  /** Node `j` lies strictly between `f` and `i` on the way round from `f`. */
  predicate Passed(f: nat, i: nat, j: nat) {
    if f < i then f < j < i else f < j || j < i
  }

  /** No node passed on the way from `f` to `i` has `n` units. */
  ghost predicate Unfit(mem: map<int, Header>, nodes: seq<int>, f: nat, n: int, i: nat) {
    forall j :: 0 <= j < |nodes| && Passed(f, i, j) ==> nodes[j] in mem && mem[nodes[j]].size < n
  }

  ghost predicate NoneFits(mem: map<int, Header>, nodes: seq<int>, n: int) {
    forall j :: 0 <= j < |nodes| ==> nodes[j] in mem && mem[nodes[j]].size < n
  }

  function Succ(i: nat, n: nat): nat {
    if i + 1 < n then i + 1 else 0
  }

  /** Following the pointer of node `i`. */
  lemma Follow(base: int, mem: map<int, Header>, nodes: seq<int>, i: nat)
    requires FreeList(base, mem, nodes) && i < |nodes|
    ensures nodes[i] in mem && mem[nodes[i]].ptr == nodes[Succ(i, |nodes|)] && nodes[Succ(i, |nodes|)] in mem
    ensures mem[nodes[i]].size > 0 ==> i > 0
  {
    assert mem[nodes[i]].ptr == Next(nodes, i);
  }

  lemma SameNode(base: int, mem: map<int, Header>, nodes: seq<int>, i: nat, j: nat)
    requires FreeList(base, mem, nodes) && i < |nodes| && j < |nodes| && nodes[i] == nodes[j]
    ensures i == j
  {
    assert i == j || i < j || j < i;
  }

  lemma UnfitStart(mem: map<int, Header>, nodes: seq<int>, f: nat, n: int)
    requires f < |nodes|
    ensures Unfit(mem, nodes, f, n, Succ(f, |nodes|))
  {
  }

  lemma UnfitStep(mem: map<int, Header>, nodes: seq<int>, f: nat, n: int, i: nat)
    requires f < |nodes| && i < |nodes| && i != f && nodes[i] in mem && mem[nodes[i]].size < n
    requires Unfit(mem, nodes, f, n, i)
    ensures Unfit(mem, nodes, f, n, Succ(i, |nodes|)) && Dist(f, Succ(i, |nodes|), |nodes|) == Dist(f, i, |nodes|) + 1
  {
    forall j | 0 <= j < |nodes| && Passed(f, Succ(i, |nodes|), j) ensures nodes[j] in mem && mem[nodes[j]].size < n {
      assert j == i || Passed(f, i, j);
    }
  }

  lemma UnfitAll(mem: map<int, Header>, nodes: seq<int>, f: nat, n: int)
    requires f < |nodes| && nodes[f] in mem && mem[nodes[f]].size < n && Unfit(mem, nodes, f, n, f)
    ensures NoneFits(mem, nodes, n)
  {
    forall j | 0 <= j < |nodes| ensures nodes[j] in mem && mem[nodes[j]].size < n {
      assert j == f || Passed(f, f, j);
    }
  }

  /** `p` is the highest of the nodes below `a`. */
  ghost predicate LastBelow(nodes: seq<int>, a: int, p: int) {
    p in nodes && p < a && forall x :: x in nodes && x < a ==> x <= p
  }

  lemma PlaceIsLast(base: int, mem: map<int, Header>, nodes: seq<int>, t: nat, a: int)
    requires FreeList(base, mem, nodes) && Place(nodes, t, a)
    ensures LastBelow(nodes, a, nodes[t])
  {
    forall k | t < k < |nodes| ensures a < nodes[k] {
      assert k == t + 1 || nodes[t + 1] < nodes[k];
    }
    forall k | 0 <= k <= t ensures nodes[k] <= nodes[t] {
      assert k == t || nodes[k] < nodes[t];
    }
  }

  /** Going round the list upwards from `q`, and from its highest node on to the lowest, `p` is the first node with `n`
      units. */
  ghost predicate FirstFrom(mem: map<int, Header>, nodes: seq<int>, q: int, n: int, p: int) {
    && q in nodes && p in nodes && p in mem && mem[p].size >= n
    && forall x :: x in nodes && x in mem && mem[x].size >= n ==> if q < p then !(q < x < p) else p <= x <= q
  }

  lemma NextFitIsFirst(base: int, mem: map<int, Header>, nodes: seq<int>, f: nat, n: int, i: nat)
    requires FreeList(base, mem, nodes) && NextFit(mem, nodes, f, n, i)
    ensures FirstFrom(mem, nodes, nodes[f], n, nodes[i])
  {
    var q, p := nodes[f], nodes[i];
    assert f < i ==> q < p;
    assert i < f ==> p < q;
    forall x | x in nodes && x in mem && mem[x].size >= n ensures if q < p then !(q < x < p) else p <= x <= q {
      var j :| 0 <= j < |nodes| && nodes[j] == x;
      assert !Passed(f, i, j);
      NodeOrder(base, mem, nodes, j, f);
      NodeOrder(base, mem, nodes, j, i);
    }
  }

  lemma NodeOrder(base: int, mem: map<int, Header>, nodes: seq<int>, j: nat, k: nat)
    requires FreeList(base, mem, nodes) && j < |nodes| && k < |nodes|
    ensures nodes[j] < nodes[k] <==> j < k
  {
    assert j < k || k < j || j == k;
  }

  const WORD: nat := 0x1_0000_0000

  /** Header units for a request, computed in 32-bit unsigned arithmetic. */
  function NUnits(nbytes: nat): nat {
    (nbytes + 7) % WORD / 8 + 1
  }

  /** How many units morecore means to obtain. */
  function Grow(n: nat): nat {
    if n < 4096 then 4096 else n
  }

  lemma GrowIs(n: nat)
    ensures Grow(n) == if n < 4096 then 4096 else n
  {
  }

  /** The argument sbrk gets for `nu` units: their bytes in 32-bit unsigned arithmetic, taken as a signed int. */
  function SbrkArg(nu: nat): int {
    var w := 8 * nu % WORD;
    if w < WORD / 2 then w else w - WORD
  }

  /** The end of memory after sbrk, called at end `g` for `nu` units, has succeeded. If it would end below address 0,
      deallocuvm takes the new size for a larger one and leaves memory as it is. */
  function NewTop(g: int, nu: nat): int {
    if SbrkArg(nu) < 0 && 8 * g + SbrkArg(nu) < 0 then g else g + SbrkArg(nu) / 8
  }

  /** sbrk is asked for all of the bytes exactly when they are below 2^31. */
  lemma SbrkArgExact(nu: nat)
    requires 0 < nu <= WORD / 8
    ensures SbrkArg(nu) == 8 * nu <==> nu < 0x1000_0000
    ensures SbrkArg(nu) / 8 <= nu && (SbrkArg(nu) / 8 == nu <==> nu < 0x1000_0000)
  {
    if nu < WORD / 8 {
      assert 8 * nu % WORD == 8 * nu;
    }
  }

  lemma NewTopExact(g: int, nu: nat)
    requires 0 < nu <= WORD / 8
    ensures NewTop(g, nu) <= g + nu && (NewTop(g, nu) == g + nu <==> nu < 0x1000_0000)
  {
    SbrkArgExact(nu);
    hide SbrkArg;
  }

  lemma UnitsOfRequest(nbytes: nat)
    requires nbytes < WORD
    ensures if nbytes <= WORD - 8 then NUnits(nbytes) == (nbytes + 7) / 8 + 1 <= WORD / 8 else NUnits(nbytes) == 1
  {
    if nbytes + 7 < WORD {
      assert (nbytes + 7) % WORD == nbytes + 7;
    } else {
      assert (nbytes + 7) % WORD == nbytes + 7 - WORD;
    }
  }

  /** A block of the units computed has room for the request exactly when the rounding does not wrap. */
  lemma RoomForRequest(nbytes: nat)
    requires nbytes < WORD
    ensures 8 * (NUnits(nbytes) - 1) >= nbytes <==> nbytes <= WORD - 8
  {
    UnitsOfRequest(nbytes);
  }

  /** When it takes new memory, that memory is all there exactly for requests up to 2^31 - 16 and for those whose
      rounding wraps, so such a block has room and memory exactly for the former. */
  lemma MemoryForRequest(nbytes: nat)
    requires nbytes < WORD
    ensures var nu := Grow(NUnits(nbytes));
      && 0 < nu <= WORD / 8
      && (nu < 0x1000_0000 <==> nbytes <= 0x7FFF_FFF0 || nbytes > WORD - 8)
      && (SbrkArg(nu) == 8 * nu && 8 * (NUnits(nbytes) - 1) >= nbytes <==> nbytes <= 0x7FFF_FFF0)
  {
    UnitsOfRequest(nbytes);
    RoomForRequest(nbytes);
    SbrkArgExact(Grow(NUnits(nbytes)));
  }

  /** Two requests that pass the rounding: sbrk is asked for nothing, or to give memory back. */
  lemma NothingAskedFor()
    ensures NUnits(0xFFFF_FFF8) == 0x2000_0000 && SbrkArg(Grow(NUnits(0xFFFF_FFF8))) == 0
    ensures NUnits(0xFFFF_EFF8) == 0x1FFF_FE00 && SbrkArg(Grow(NUnits(0xFFFF_EFF8))) == -4096
  {
    UnitsOfRequest(0xFFFF_FFF8);
    UnitsOfRequest(0xFFFF_EFF8);
  }

  /** Storing a header outside the free blocks does not disturb the list. */
  lemma HeaderElsewhere(base: int, mem: map<int, Header>, nodes: seq<int>, a: int, n: int)
    requires FreeList(base, mem, nodes) && Apart(base, mem, nodes, a, n)
    ensures var m := mem[a := Header(if a in mem then mem[a].ptr else 0, n)];
      && a !in nodes && FreeList(base, m, nodes) && Apart(base, m, nodes, a, n)
      && (forall u :: InFree(m, nodes, u) <==> InFree(mem, nodes, u))
  {
    var m := mem[a := Header(if a in mem then mem[a].ptr else 0, n)];
    forall i | 0 <= i < |nodes|
      ensures nodes[i] != a && m[nodes[i]] == mem[nodes[i]] && m[nodes[i]].ptr == Next(nodes, i)
    {
      assert mem[nodes[i]].ptr == Next(nodes, i);
    }
    forall u ensures InFree(m, nodes, u) <==> InFree(mem, nodes, u) {
      if i :| FreeAt(m, nodes, i, u) { assert FreeAt(mem, nodes, i, u); }
      if i :| FreeAt(mem, nodes, i, u) { assert FreeAt(m, nodes, i, u); }
    }
  }

  /** Live headers are neither on the free list nor in the block about to be handed out. */
  lemma TakenElsewhere(base: int, mem: map<int, Header>, nodes: seq<int>, live: map<int, int>,
                       granted: seq<(int, int)>, h: int, n: int)
    requires FreeList(base, mem, nodes) && Accounts(base, mem, nodes, live, granted) && n > 0
    requires forall u :: Within(u, h, n) ==> InFree(mem, nodes, u)
    ensures forall b :: b in live ==> b !in nodes && b != h
  {
    forall b | b in live ensures b !in nodes && b != h {
      LiveNotNode(base, mem, nodes, live, granted, b);
      assert LiveAt(live, b, b);
      assert Within(h, h, n);
    }
  }

  /** The stretch just obtained lies in one free block, which is large enough. */
  lemma GrantFits(base: int, mem: map<int, Header>, nodes: seq<int>, g: int, n: nat)
    requires FreeList(base, mem, nodes) && n > 0 && forall u :: Within(u, g, Grow(n)) ==> InFree(mem, nodes, u)
    ensures !NoneFits(mem, nodes, n)
  {
    var i := RunInOneNode(base, mem, nodes, g, Grow(n));
    assert mem[nodes[i]].size >= n;
  }

  /** Every unit obtained lies below `top`, so there is memory behind it. */
  ghost predicate AllBelow(granted: seq<(int, int)>, top: int) {
    forall u :: InGranted(granted, u) ==> u < top
  }

  lemma FreeBelow(base: int, mem: map<int, Header>, nodes: seq<int>, live: map<int, int>, granted: seq<(int, int)>,
                  top: int)
    requires Accounts(base, mem, nodes, live, granted) && AllBelow(granted, top)
    ensures forall u :: InFree(mem, nodes, u) ==> u < top
  {
  }

  /** A grant at or above the old top is all there exactly when sbrk was asked for all of it. */
  lemma AllBelowAfterGrant(granted: seq<(int, int)>, top: int, g: int, nu: nat)
    requires AllBelow(granted, top) && top <= g && 0 < nu <= WORD / 8
    ensures AllBelow(granted + [(g, nu)], NewTop(g, nu)) <==> nu < 0x1000_0000
  {
    NewTopExact(g, nu);
    hide SbrkArg, NewTop;
    var more, t := granted + [(g, nu)], NewTop(g, nu);
    assert GrantAt(more, |granted|, g + nu - 1);
    forall u | InGranted(more, u) ensures InGranted(granted, u) || Within(u, g, nu) {
      var k :| GrantAt(more, k, u);
      assert k < |granted| ==> GrantAt(granted, k, u);
    }
  }

  /** The block at `h` has room for `nbytes` behind its header, and all of it is below the top. */
  ghost predicate InMemory(h: int, nbytes: nat, top: int) {
    BlockBelow(h, NUnits(nbytes), top) && 8 * (NUnits(nbytes) - 1) >= nbytes
  }

  /** Whether all of a block lies below the top. */
  ghost predicate BlockBelow(h: int, n: int, top: int) {
    forall u :: Within(u, h, n) ==> u < top
  }

  lemma FreeBlockBelow(mem: map<int, Header>, nodes: seq<int>, h: int, n: int, top: int)
    requires forall u :: Within(u, h, n) ==> InFree(mem, nodes, u)
    requires forall u :: InFree(mem, nodes, u) ==> u < top
    ensures BlockBelow(h, n, top)
  {
  }

  lemma TailBelow(h: int, n: nat, g: int, nu: nat)
    requires 0 < nu <= WORD / 8 && 0 < n <= nu && h + n == g + nu
    ensures BlockBelow(h, n, NewTop(g, nu)) <==> nu < 0x1000_0000
  {
    NewTopExact(g, nu);
    hide SbrkArg, NewTop;
    assert Within(h + n - 1, h, n);
  }

  lemma TailIsFree(base: int, mem: map<int, Header>, nodes: seq<int>, i: nat, n: nat)
    requires FreeList(base, mem, nodes) && 1 <= i < |nodes| && 0 < n <= mem[nodes[i]].size
    ensures base < nodes[i] + mem[nodes[i]].size - n
    ensures forall u :: Within(u, nodes[i] + mem[nodes[i]].size - n, n) ==> InFree(mem, nodes, u)
  {
    forall u | Within(u, nodes[i] + mem[nodes[i]].size - n, n) ensures InFree(mem, nodes, u) {
      assert FreeAt(mem, nodes, i, u);
    }
  }

  lemma RunsAreShort(base: int, mem: map<int, Header>, nodes: seq<int>, n: nat, a: int, len: nat)
    requires FreeList(base, mem, nodes) && NoneFits(mem, nodes, n)
    requires forall u :: Within(u, a, len) ==> InFree(mem, nodes, u)
    ensures len < n || len == 0
  {
    if len > 0 {
      var i := RunInOneNode(base, mem, nodes, a, len);
      assert mem[nodes[i]].size < n;
    }
  }

  /** If nothing fitted before, the block that fits now ends where the new memory ends. */
  lemma FitEndsGrant(base: int, m0: map<int, Header>, n0: seq<int>, m1: map<int, Header>, n1: seq<int>, g: int, n: nat,
                     k: nat)
    requires FreeList(base, m0, n0) && FreeList(base, m1, n1) && NoneFits(m0, n0, n) && n > 0
    requires forall u :: InFree(m1, n1, u) <==> InFree(m0, n0, u) || Within(u, g, Grow(n))
    requires forall u :: InFree(m0, n0, u) ==> u < g
    requires 1 <= k < |n1| && m1[n1[k]].size >= n
    ensures n1[k] + m1[n1[k]].size == g + Grow(n)
  {
    var p, e := n1[k], n1[k] + m1[n1[k]].size;
    EndIsNotFree(base, m1, n1, k);
    forall u | Within(u, p, m1[p].size) ensures InFree(m1, n1, u) {
      assert FreeAt(m1, n1, k, u);
    }
    assert Within(e - 1, p, m1[p].size);
    if e <= g {
      RunsAreShort(base, m0, n0, n, p, m1[p].size);
    }
    assert !Within(e, g, Grow(n));
  }

  /** Memory above everything obtained so far is apart from the free blocks and the live headers. */
  lemma NewStretch(base: int, mem: map<int, Header>, nodes: seq<int>, live: map<int, int>, granted: seq<(int, int)>,
                   top: int, g: int, n: int)
    requires FreeList(base, mem, nodes) && Accounts(base, mem, nodes, live, granted) && AllBelow(granted, top)
    requires top <= g && base < g && n > 0
    ensures Apart(base, mem, nodes, g, n) && forall u :: Within(u, g, n) ==> !InGranted(granted, u)
    ensures forall b :: b in live ==> b !in nodes && b != g
  {
    UnitsApart(base, mem, nodes, g, n);
    forall b | b in live ensures b !in nodes && b != g {
      LiveNotNode(base, mem, nodes, live, granted, b);
      assert LiveAt(live, b, b) && InLive(live, b);
    }
  }

  lemma LiveInMem(base: int, mem: map<int, Header>, nodes: seq<int>, live: map<int, int>, granted: seq<(int, int)>)
    requires Accounts(base, mem, nodes, live, granted)
    ensures forall a :: a in live ==> a in mem
  {
  }

  lemma NothingFree(mem: map<int, Header>)
    ensures forall u :: !InFree(mem, [], u)
  {
  }

  class Allocator {
    const base: int
    var mem: map<int, Header>
    var freep: Option<int>
    ghost var nodes: seq<int>
    ghost var live: map<int, int>
    ghost var granted: seq<(int, int)>
    ghost var top: int

    constructor (base: int)
      ensures Valid() && Backed() && this.base == base && freep == None && live == map[] && granted == []
    {
      this.base, top := base, base;
      mem, freep := map[base := Header(0, 0)], None;
      nodes, live, granted := [], map[], [];
    }

    ghost predicate Listed()
      reads this
    {
      freep.Some? && FreeList(base, mem, nodes) && freep.value in nodes
    }

    ghost predicate Valid()
      reads this
    {
      && Accounts(base, mem, nodes, live, granted)
      && (if freep.None? then nodes == [] && live == map[] && granted == [] else Listed())
    }

    /** There is memory behind every unit obtained; `top` is the end of memory when sbrk was last called here. */
    ghost predicate Backed()
      reads this
    {
      AllBelow(granted, top)
    }

    /** What sbrk may answer: it fails, or returns the end of memory, which only grows in between. */
    ghost predicate Answers(answer: Option<int>)
      reads this
    {
      answer.Some? ==> base < answer.value && top <= answer.value
    }

    /** The search loop of free(): the node behind which `bp` belongs. */
    method Locate(bp: int, ghost n: int) returns (p: int, ghost t: nat)
      requires Listed() && Apart(base, mem, nodes, bp, n)
      ensures Place(nodes, t, bp) && p == nodes[t]
    {
      ghost var goal := PlaceExists(base, mem, nodes, bp, n, 0);
      p := freep.value;
      t :| 0 <= t < |nodes| && nodes[t] == p;
      while !(bp > p && bp < mem[p].ptr)
        invariant 0 <= t < |nodes| && p == nodes[t]
        decreases if t <= goal then goal - t else goal - t + |nodes|
      {
        assert mem[p].ptr == Next(nodes, t);
        if p >= mem[p].ptr && (bp > p || bp < mem[p].ptr) {
          break;
        }
        p := mem[p].ptr;
        t := if t + 1 < |nodes| then t + 1 else 0;
      }
      assert mem[p].ptr == Next(nodes, t);
    }

    /** The stores of free(). */
    method Link(p: int, bp: int)
      requires p in mem && bp in mem && p != bp && mem[p].ptr in mem && mem[p].ptr != bp
      modifies this`mem
      ensures mem == FreedMem(old(mem), p, bp)
    {
      var q := mem[p].ptr;
      if bp + mem[bp].size == q {
        mem := mem[bp := Header(mem[bp].ptr, mem[bp].size + mem[q].size)];
        mem := mem[bp := Header(mem[q].ptr, mem[bp].size)];
      } else {
        mem := mem[bp := Header(q, mem[bp].size)];
      }
      if p + mem[p].size == bp {
        mem := mem[p := Header(mem[p].ptr, mem[p].size + mem[bp].size)];
        mem := mem[p := Header(mem[bp].ptr, mem[p].size)];
      } else {
        mem := mem[p := Header(bp, mem[p].size)];
      }
    }

    /** free() of the block whose header is at `bp`. */
    method FreeBlock(bp: int)
      requires Listed() && bp in mem && Apart(base, mem, nodes, bp, mem[bp].size)
      modifies this`mem, this`freep, this`nodes
      ensures Listed()
      ensures LastBelow(old(nodes), bp, freep.value)
      ensures forall u :: InFree(mem, nodes, u) <==> InFree(old(mem), old(nodes), u) || Within(u, bp, old(mem)[bp].size)
      ensures forall b :: b in old(mem) && b != bp && b !in old(nodes) ==> b in mem && mem[b] == old(mem)[b]
    {
      hide LastBelow, InFree, Within;
      var p;
      ghost var t;
      p, t := Locate(bp, mem[bp].size);
      PlaceIsLast(base, mem, nodes, t, bp);
      FreeingFacts(base, mem, nodes, t, bp);
      ghost var r := Freed(base, mem, nodes, t, bp);
      Link(p, bp);
      freep := Some(p);
      nodes := r;
    }

    /** free(). The block joins the free ones, and the next search starts from the node below it. */
    method Free(ap: int)
      requires Valid() && ap - 1 in live
      modifies this
      ensures Valid() && Listed() && live == old(live) - {ap - 1} && granted == old(granted) && top == old(top)
      ensures forall u :: InFree(mem, nodes, u) <==> InFree(old(mem), old(nodes), u) || LiveAt(old(live), ap - 1, u)
      ensures LastBelow(old(nodes), ap - 1, freep.value)
    {
      var bp := ap - 1;
      forall u | Within(u, bp, live[bp]) ensures !InFree(mem, nodes, u) {
        assert LiveAt(live, bp, u);
      }
      UnitsApart(base, mem, nodes, bp, live[bp]);
      forall b | b in live ensures b !in nodes {
        LiveNotNode(base, mem, nodes, live, granted, b);
      }
      FreeBlock(bp);
      AccountsAfterFree(base, old(mem), old(nodes), live, granted, bp, mem, nodes);
      live := live - {bp};
    }

    /** morecore(); `answer` is what sbrk returns, None for its failure. */
    method Morecore(n: nat, answer: Option<int>) returns (p: Option<int>)
      requires Valid() && Listed() && Backed() && Answers(answer) && n > 0
      modifies this
      ensures Valid() && Listed() && live == old(live)
      ensures answer.None? ==> p == None && mem == old(mem) && nodes == old(nodes) && freep == old(freep)
      ensures answer.None? ==> granted == old(granted) && top == old(top)
      ensures answer.Some? ==>
        && p == freep && granted == old(granted) + [(answer.value, if n < 4096 then 4096 else n)]
        && top == NewTop(answer.value, Grow(n)) && LastBelow(old(nodes), answer.value, freep.value)
        && (forall u :: InFree(mem, nodes, u) <==> InFree(old(mem), old(nodes), u) || Within(u, answer.value, Grow(n)))
    {
      hide SbrkArg, NewTop;
      var nu := if n < 4096 then 4096 else n;
      if answer == None {
        return None;
      }
      var hp := answer.value;
      top := NewTop(hp, nu);
      AddStretch(hp, nu, old(top));
      p := freep;
    }

    /** morecore() with the memory in hand: its header is stored and it is freed. */
    method AddStretch(hp: int, nu: nat, ghost t: int)
      requires Valid() && Listed() && nu > 0 && base < hp && t <= hp && AllBelow(granted, t)
      modifies this`mem, this`freep, this`nodes, this`granted
      ensures Valid() && Listed() && granted == old(granted) + [(hp, nu)] && LastBelow(old(nodes), hp, freep.value)
      ensures forall u :: InFree(mem, nodes, u) <==> InFree(old(mem), old(nodes), u) || Within(u, hp, nu)
    {
      hide FreeList, InFree, InGranted, Apart, Accounts, AllBelow, LastBelow;
      NewStretch(base, mem, nodes, live, granted, t, hp, nu);
      HeaderElsewhere(base, mem, nodes, hp, nu);
      mem := mem[hp := Header(if hp in mem then mem[hp].ptr else 0, nu)];
      FreeBlock(hp);
      LiveInMem(base, old(mem), old(nodes), live, granted);
      AccountsAfterGrant(base, old(mem), old(nodes), live, granted, hp, nu, mem, nodes);
      granted := granted + [(hp, nu)];
    }

    /** malloc() on a block of exactly the right size: unlink it. */
    method TakeAll(prevp: int, p: int, ghost i: nat)
      requires FreeList(base, mem, nodes) && 1 <= i < |nodes| && p == nodes[i] && prevp == nodes[i - 1]
      modifies this`mem, this`nodes
      ensures FreeList(base, mem, nodes) && prevp in nodes && p in mem && mem[p].size == old(mem)[p].size
      ensures forall u :: InFree(mem, nodes, u) <==> InFree(old(mem), old(nodes), u) && !Within(u, p, old(mem)[p].size)
      ensures forall b :: b in old(mem) && b !in old(nodes) ==> b in mem && mem[b] == old(mem)[b]
    {
      ghost var rest := nodes[..i] + nodes[i + 1..];
      Removed(base, mem, nodes, i, rest);
      mem := mem[prevp := Header(mem[p].ptr, mem[prevp].size)];
      assert rest[i - 1] == prevp;
      nodes := rest;
    }

    /** malloc() on a larger block: its last `n` units become a block of their own. */
    method TakeTail(p: int, n: nat, ghost i: nat) returns (h: int)
      requires FreeList(base, mem, nodes) && 1 <= i < |nodes| && p == nodes[i] && 0 < n < mem[p].size
      modifies this`mem
      ensures h == p + old(mem)[p].size - n && FreeList(base, mem, nodes) && h in mem && mem[h].size == n
      ensures forall u :: InFree(mem, nodes, u) <==> InFree(old(mem), nodes, u) && !Within(u, h, n)
      ensures forall b :: b in old(mem) && b !in nodes && b != h ==> b in mem && mem[b] == old(mem)[b]
    {
      Carved(base, mem, nodes, i, n);
      ghost var m := CarvedMem(mem, p, n);
      h := p + mem[p].size - n;
      mem := mem[p := Header(mem[p].ptr, mem[p].size - n)];
      mem := mem[h := Header(if h in mem then mem[h].ptr else 0, n)];
      assert mem == m;
    }

    /** malloc() has found a block: hand out all of it or its tail. */
    method Take(prevp: int, p: int, n: nat, ghost i: nat) returns (r: int)
      requires Valid() && Listed() && 1 <= i < |nodes| && p == nodes[i] && prevp == nodes[i - 1]
      requires 0 < n <= mem[p].size
      modifies this
      ensures Valid() && Listed() && freep == Some(prevp) && granted == old(granted) && top == old(top)
      ensures r - 1 == p + old(mem)[p].size - n
      ensures r - 1 !in old(live) && live == old(live)[r - 1 := n]
      ensures forall u :: Within(u, r - 1, n) ==> InFree(old(mem), old(nodes), u)
      ensures forall u :: InFree(mem, nodes, u) <==> InFree(old(mem), old(nodes), u) && !Within(u, r - 1, n)
    {
      ghost var h := p + mem[p].size - n;
      TailIsFree(base, mem, nodes, i, n);
      TakenElsewhere(base, mem, nodes, live, granted, h, n);
      LiveInMem(base, mem, nodes, live, granted);
      hide Accounts, FreeList, InFree, Within;
      var a := TakeUnits(prevp, p, n, i);
      AccountsAfterMalloc(base, old(mem), old(nodes), live, granted, a, n, mem, nodes);
      live := live[a := n];
      freep := Some(prevp);
      r := a + 1;
    }

    /** The two ways to do it. */
    method TakeUnits(prevp: int, p: int, n: nat, ghost i: nat) returns (h: int)
      requires FreeList(base, mem, nodes) && 1 <= i < |nodes| && p == nodes[i] && prevp == nodes[i - 1]
      requires 0 < n <= mem[p].size
      modifies this`mem, this`nodes
      ensures h == p + old(mem)[p].size - n && h in mem && mem[h].size == n
      ensures FreeList(base, mem, nodes) && prevp in nodes
      ensures forall u :: InFree(mem, nodes, u) <==> InFree(old(mem), old(nodes), u) && !Within(u, h, n)
      ensures forall b :: b in old(mem) && b !in old(nodes) && b != h ==> b in mem && mem[b] == old(mem)[b]
    {
      hide InFree, Within;
      assert prevp in nodes;
      if mem[p].size == n {
        TakeAll(prevp, p, i);
        h := p;
      } else {
        h := TakeTail(p, n, i);
      }
    }

    /** One turn of malloc()'s loop round the list, from the node after freep to freep itself. */
    method Search(n: nat) returns (fit: bool, prevp: int, p: int, ghost f: nat, ghost i: nat)
      requires Listed() && n > 0
      ensures f < |nodes| && freep == Some(nodes[f])
      ensures fit ==> NextFit(mem, nodes, f, n, i) && p == nodes[i] && prevp == nodes[i - 1]
      ensures !fit ==> NoneFits(mem, nodes, n)
    {
      hide Unfit, NoneFits, FreeList, Circle;
      prevp := freep.value;
      f :| 0 <= f < |nodes| && nodes[f] == prevp;
      Follow(base, mem, nodes, f);
      p := mem[prevp].ptr;
      i := Succ(f, |nodes|);
      UnfitStart(mem, nodes, f, n);
      Follow(base, mem, nodes, i);
      while mem[p].size < n && p != freep.value
        invariant i < |nodes| && p == nodes[i] && p in mem && (i > 0 ==> prevp == nodes[i - 1])
        invariant mem[p].size > 0 ==> i > 0
        invariant Unfit(mem, nodes, f, n, i)
        decreases |nodes| - Dist(f, i, |nodes|)
      {
        UnfitStep(mem, nodes, f, n, i);
        Follow(base, mem, nodes, i);
        prevp := p;
        p := mem[p].ptr;
        i := Succ(i, |nodes|);
        Follow(base, mem, nodes, i);
      }
      fit := mem[p].size >= n;
      if !fit {
        SameNode(base, mem, nodes, i, f);
        UnfitAll(mem, nodes, f, n);
      }
    }

    /** malloc() when nothing fits: more memory is asked for once, and the next turn round the list finds a block
        at the end of it. None is the null pointer. */
    method TakeNew(n: nat, answer: Option<int>) returns (r: Option<int>)
      requires Valid() && Listed() && Backed() && Answers(answer) && n > 0 && NoneFits(mem, nodes, n)
      modifies this
      ensures Valid()
      ensures answer.None? ==> r == None && mem == old(mem) && nodes == old(nodes) && live == old(live)
      ensures answer.None? ==> granted == old(granted) && top == old(top)
      ensures answer.Some? ==>
        && r == Some(answer.value + Grow(n) - n + 1) && granted == old(granted) + [(answer.value, Grow(n))]
        && r.value - 1 !in old(live) && live == old(live)[r.value - 1 := n]
        && top == NewTop(answer.value, Grow(n))
        && (forall u :: InFree(mem, nodes, u) <==>
             (InFree(old(mem), old(nodes), u) || Within(u, answer.value, Grow(n))) && !Within(u, r.value - 1, n))
    {
      hide Accounts, FreeList, InFree, Within, NoneFits, Unfit, NewTop, AllBelow;
      FreeBelow(base, mem, nodes, live, granted, top);
      var hp := Morecore(n, answer);
      if hp == None {
        return None;
      }
      ghost var m1, n1 := mem, nodes;
      GrantFits(base, mem, nodes, answer.value, n);
      var fit, prevp, p;
      ghost var f, k;
      fit, prevp, p, f, k := Search(n);
      FitEndsGrant(base, old(mem), old(nodes), m1, n1, answer.value, n, k);
      var q := Take(prevp, p, n, k);
      r := Some(q);
    }

    /** malloc() of `n` units. `answer` is what sbrk returns if morecore calls it, which it does at most once. `f`
        and `i` tell where the first turn round the list began and ended. None is the null pointer. */
    method MallocUnits(n: nat, answer: Option<int>) returns (r: Option<int>, ghost f: nat, ghost i: nat)
      requires Valid() && Backed() && Answers(answer) && n > 0
      modifies this
      ensures Valid()
      ensures r == None <==> NoneFits(old(mem), old(nodes), n) && answer == None
      ensures r == None ==> granted == old(granted) && live == old(live) && top == old(top)
      ensures r == None ==> forall u :: InFree(mem, nodes, u) <==> InFree(old(mem), old(nodes), u)
      ensures r.Some? ==> r.value - 1 !in old(live) && live == old(live)[r.value - 1 := n]
      ensures r.Some? && NoneFits(old(mem), old(nodes), n) ==>
        && r.value - 1 == answer.value + Grow(n) - n
        && granted == old(granted) + [(answer.value, Grow(n))] && top == NewTop(answer.value, Grow(n))
        && (forall u :: InFree(mem, nodes, u) <==>
             (InFree(old(mem), old(nodes), u) || Within(u, answer.value, Grow(n))) && !Within(u, r.value - 1, n))
      ensures !NoneFits(old(mem), old(nodes), n) ==>
        && granted == old(granted) && top == old(top)
        && f < |old(nodes)| && old(freep) == Some(old(nodes)[f]) && NextFit(old(mem), old(nodes), f, n, i)
        && freep == Some(old(nodes)[i - 1]) && FirstFrom(old(mem), old(nodes), old(nodes)[f], n, old(nodes)[i])
        && r == Some(old(nodes)[i] + old(mem)[old(nodes)[i]].size - n + 1)
        && (forall u :: Within(u, r.value - 1, n) ==> InFree(old(mem), old(nodes), u))
        && (forall u :: InFree(mem, nodes, u) <==> InFree(old(mem), old(nodes), u) && !Within(u, r.value - 1, n))
    {
      hide Accounts, FreeList, InFree, Unfit, NewTop, Grow, AllBelow, Within, FirstFrom;
      if freep == None {
        NothingFree(mem);
        Start();
      }
      var fit, prevp, p;
      fit, prevp, p, f, i := Search(n);
      if fit {
        NextFitIsFirst(base, mem, nodes, f, n, i);
        var q := Take(prevp, p, n, i);
        r := Some(q);
      } else {
        r := TakeNew(n, answer);
      }
    }

    /** malloc(). It leaves every unit it accounts for with memory behind it unless it asked sbrk for too little,
        and its block is in memory and has room for the request exactly when the request is small enough. */
    method Malloc(nbytes: nat, answer: Option<int>) returns (r: Option<int>, ghost f: nat, ghost i: nat)
      requires Valid() && Backed() && Answers(answer) && nbytes < WORD
      modifies this
      ensures Valid()
      ensures r == None <==> NoneFits(old(mem), old(nodes), NUnits(nbytes)) && answer == None
      ensures r == None ==> granted == old(granted) && live == old(live) && top == old(top)
      ensures r == None ==> forall u :: InFree(mem, nodes, u) <==> InFree(old(mem), old(nodes), u)
      ensures r.Some? ==> r.value - 1 !in old(live) && live == old(live)[r.value - 1 := NUnits(nbytes)]
      ensures NUnits(nbytes) == if nbytes <= 0xFFFF_FFF8 then (nbytes + 7) / 8 + 1 else 1
      ensures granted == old(granted) || (answer.Some? && granted == old(granted) +
        [(answer.value, if NUnits(nbytes) < 4096 then 4096 else NUnits(nbytes))])
      ensures r.Some? && NoneFits(old(mem), old(nodes), NUnits(nbytes)) ==>
        var n, nu := NUnits(nbytes), Grow(NUnits(nbytes));
        && r.value - 1 == answer.value + nu - n
        && granted == old(granted) + [(answer.value, nu)] && top == NewTop(answer.value, nu)
        && (forall u :: InFree(mem, nodes, u) <==>
             (InFree(old(mem), old(nodes), u) || Within(u, answer.value, nu)) && !Within(u, r.value - 1, n))
      ensures !NoneFits(old(mem), old(nodes), NUnits(nbytes)) ==>
        && granted == old(granted) && top == old(top)
        && f < |old(nodes)| && old(freep) == Some(old(nodes)[f]) && NextFit(old(mem), old(nodes), f, NUnits(nbytes), i)
        && freep == Some(old(nodes)[i - 1])
        && FirstFrom(old(mem), old(nodes), old(nodes)[f], NUnits(nbytes), old(nodes)[i])
        && r == Some(old(nodes)[i] + old(mem)[old(nodes)[i]].size - NUnits(nbytes) + 1)
        && (forall u :: Within(u, r.value - 1, NUnits(nbytes)) ==> InFree(old(mem), old(nodes), u))
        && (forall u :: InFree(mem, nodes, u) <==>
             InFree(old(mem), old(nodes), u) && !Within(u, r.value - 1, NUnits(nbytes)))
      ensures Backed() <==> granted == old(granted) || nbytes <= 0x7FFF_FFF0 || nbytes > WORD - 8
      ensures r.Some? ==> (InMemory(r.value - 1, nbytes, top) <==>
        nbytes <= if granted == old(granted) then WORD - 8 else 0x7FFF_FFF0)
    {
      hide Accounts, FreeList, InFree, NoneFits, NextFit, NewTop, NUnits, Grow, AllBelow, Within, BlockBelow, FirstFrom;
      var n := NUnits(nbytes);
      UnitsOfRequest(nbytes);
      GrowIs(n);
      RoomForRequest(nbytes);
      MemoryForRequest(nbytes);
      FreeBelow(base, mem, nodes, live, granted, top);
      if answer.Some? {
        AllBelowAfterGrant(granted, top, answer.value, Grow(n));
        TailBelow(answer.value + Grow(n) - n, n, answer.value, Grow(n));
      }
      r, f, i := MallocUnits(n, answer);
      if r.Some? && NoneFits(old(mem), old(nodes), n) {
        assert |granted| > |old(granted)|;
      } else if r.Some? {
        FreeBlockBelow(old(mem), old(nodes), r.value - 1, n, top);
      }
    }

    /** malloc() on its first call: the list is the static header alone. */
    method Start()
      requires Valid() && freep == None
      modifies this`mem, this`freep, this`nodes
      ensures Valid() && Listed() && nodes == [base] && NoneFits(mem, nodes, 1)
      ensures freep == Some(base) && forall u :: !InFree(mem, nodes, u)
    {
      mem := mem[base := Header(base, 0)];
      freep := Some(base);
      nodes := [base];
    }

    /** malloc, then free of what it returned. If it needed no new memory the list and its headers are as before;
        otherwise the new memory is free as well. */
    method MallocFree(nbytes: nat, answer: Option<int>)
      requires Valid() && Backed() && Answers(answer) && nbytes < WORD
      modifies this
      ensures Valid() && live == old(live)
      ensures var grew := NoneFits(old(mem), old(nodes), NUnits(nbytes)) && answer.Some?;
        && granted == (if grew then old(granted) + [(answer.value, Grow(NUnits(nbytes)))] else old(granted))
        && (forall u :: InFree(mem, nodes, u) <==>
             InFree(old(mem), old(nodes), u) || (grew && Within(u, answer.value, Grow(NUnits(nbytes)))))
      ensures !NoneFits(old(mem), old(nodes), NUnits(nbytes)) ==>
        nodes == old(nodes) && forall i :: 0 <= i < |nodes| ==> mem[nodes[i]] == old(mem)[nodes[i]]
    {
      hide Accounts, FreeList, InFree, NoneFits, NextFit, NewTop, NUnits, Grow, AllBelow, FirstFrom, LastBelow;
      GrowIs(NUnits(nbytes));
      var r;
      ghost var f, i;
      r, f, i := Malloc(nbytes, answer);
      ghost var m1, n1 := mem, nodes;
      if r.Some? {
        Free(r.value);
        assert live == old(live);
        if granted == old(granted) {
          FreeUndoesMalloc(base, old(mem), old(nodes), m1, n1, mem, nodes, r.value - 1, NUnits(nbytes));
        }
      }
    }
  }
}
