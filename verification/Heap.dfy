/**
 * The user heap allocator of umalloc.c: a circular free list in address order.
 *
 * Addresses and sizes count Header units. `nodes` lists the free list from the
 * static header `base` upwards, and `live` the blocks malloc has handed out.
 */
module Heap {

  datatype Header = Header(ptr: int, size: int)

  // ------------------------------------------------------------ the free list

  /** The node after the i-th on the circle. */
  function Next(nodes: seq<int>, i: nat): int
    requires i < |nodes|
  {
    if i + 1 < |nodes| then nodes[i + 1] else nodes[0]
  }

  /** Circular and in address order from `base`; blocks may touch but not overlap. */
  ghost predicate Circle(base: int, mem: map<int, Header>, nodes: seq<int>) {
    && |nodes| >= 1 && nodes[0] == base
    && (forall i :: 0 <= i < |nodes| ==> nodes[i] in mem)
    && (forall i {:trigger Next(nodes, i)} :: 0 <= i < |nodes| ==> mem[nodes[i]].ptr == Next(nodes, i))
    && mem[base].size == 0
    && (forall i :: 1 <= i < |nodes| ==> mem[nodes[i]].size > 0)
    && (forall i, j :: 0 <= i < j < |nodes| ==> nodes[i] < nodes[j] && nodes[i] + mem[nodes[i]].size <= nodes[j])
  }

  /** ... and fully coalesced: no two blocks touch. */
  ghost predicate FreeList(base: int, mem: map<int, Header>, nodes: seq<int>) {
    && Circle(base, mem, nodes)
    && (forall i, j :: 0 <= i < j < |nodes| ==> nodes[i] + mem[nodes[i]].size < nodes[j])
  }

  /** Unit `u` belongs to a free block. */
  ghost predicate InFree(mem: map<int, Header>, nodes: seq<int>, u: int) {
    exists i :: FreeAt(mem, nodes, i, u)
  }

  ghost predicate FreeAt(mem: map<int, Header>, nodes: seq<int>, i: int, u: int) {
    1 <= i < |nodes| && nodes[i] in mem && nodes[i] <= u < nodes[i] + mem[nodes[i]].size
  }

  ghost predicate Within(u: int, a: int, n: int) {
    a <= u < a + n
  }

  /** A block [a, a + n) above base that overlaps no free block. */
  ghost predicate Apart(base: int, mem: map<int, Header>, nodes: seq<int>, a: int, n: int) {
    n > 0 && base < a && forall i :: 1 <= i < |nodes| && nodes[i] in mem ==>
      a + n <= nodes[i] || nodes[i] + mem[nodes[i]].size <= a
  }

  /** Where free() puts a block: behind the last node below it. */
  ghost predicate Place(nodes: seq<int>, t: int, a: int) {
    0 <= t < |nodes| && nodes[t] < a && (t + 1 < |nodes| ==> a < nodes[t + 1])
  }

  lemma {:induction false} PlaceExists(base: int, mem: map<int, Header>, nodes: seq<int>, a: int, n: int,
                                       k: nat)
    returns (t: nat)
    requires FreeList(base, mem, nodes) && Apart(base, mem, nodes, a, n) && k < |nodes| && nodes[k] < a
    ensures Place(nodes, t, a)
    decreases |nodes| - k
  {
    if k + 1 < |nodes| && nodes[k + 1] < a {
      t := PlaceExists(base, mem, nodes, a, n, k + 1);
    } else {
      t := k;
      if k + 1 < |nodes| {
        assert nodes[k + 1] in mem && mem[nodes[k + 1]].size > 0;
      }
    }
  }

  // ------------------------------------------------------ inserting and merging

  /** `r` is `nodes` with `a` behind node `t`. */
  ghost predicate IsInsert(nodes: seq<int>, t: nat, a: int, r: seq<int>) {
    && t < |nodes| && |r| == |nodes| + 1 && r[t + 1] == a
    && (forall i :: 0 <= i <= t ==> r[i] == nodes[i])
    && (forall i :: t + 1 < i < |r| ==> r[i] == nodes[i - 1])
  }

  /** `r` is `nodes` without node `i`. */
  ghost predicate IsDrop(nodes: seq<int>, i: nat, r: seq<int>) {
    && i < |nodes| && |r| == |nodes| - 1
    && (forall k :: 0 <= k < i ==> r[k] == nodes[k])
    && (forall k :: i <= k < |r| ==> r[k] == nodes[k + 1])
  }

  lemma InsertNode(base: int, mem: map<int, Header>, nodes: seq<int>, t: nat, a: int, n: int, r: seq<int>, i: nat)
    requires Circle(base, mem, nodes) && IsInsert(nodes, t, a, r) && i < |r|
    requires nodes[t] < a && (t + 1 < |nodes| ==> a < nodes[t + 1])
    ensures var m := mem[a := Header(Next(nodes, t), n)][nodes[t] := Header(a, mem[nodes[t]].size)];
      && r[i] in m && m[r[i]].ptr == Next(r, i)
      && (if i == t + 1 then m[r[i]].size == n else r[i] in mem && m[r[i]].size == mem[r[i]].size)
  {
    var j := if i <= t then i else i - 1;
    assert mem[nodes[j]].ptr == Next(nodes, j);
    assert r[i] == if i == t + 1 then a else nodes[j];
  }

  /** Linking block `a` in behind node `t`. */
  lemma InsertKeepsCircle(base: int, mem: map<int, Header>, nodes: seq<int>, t: nat, a: int, n: int, r: seq<int>)
    requires Circle(base, mem, nodes) && IsInsert(nodes, t, a, r) && n > 0 && base < a
    requires nodes[t] < a && nodes[t] + mem[nodes[t]].size <= a && (t + 1 < |nodes| ==> a + n <= nodes[t + 1])
    ensures Circle(base, mem[a := Header(Next(nodes, t), n)][nodes[t] := Header(a, mem[nodes[t]].size)], r)
  {
    var m := mem[a := Header(Next(nodes, t), n)][nodes[t] := Header(a, mem[nodes[t]].size)];
    forall i | 0 <= i < |r|
      ensures r[i] in m && m[r[i]].ptr == Next(r, i)
      ensures if i == t + 1 then m[r[i]].size == n else r[i] in mem && m[r[i]].size == mem[r[i]].size
    {
      InsertNode(base, mem, nodes, t, a, n, r, i);
    }
    forall i, j | 0 <= i < j < |r| ensures r[i] < r[j] && r[i] + m[r[i]].size <= r[j] {
      InsertNode(base, mem, nodes, t, a, n, r, i);
      InsertOrder(base, mem, nodes, t, a, n, r, i, j);
    }
  }

  lemma InsertOrder(base: int, mem: map<int, Header>, nodes: seq<int>, t: nat, a: int, n: int, r: seq<int>, i: nat,
                    j: nat)
    requires Circle(base, mem, nodes) && IsInsert(nodes, t, a, r) && n > 0 && i < j < |r|
    requires nodes[t] < a && nodes[t] + mem[nodes[t]].size <= a && (t + 1 < |nodes| ==> a + n <= nodes[t + 1])
    ensures r[i] < r[j]
    ensures i == t + 1 ==> a + n <= r[j]
    ensures i != t + 1 ==> r[i] in mem && r[i] + mem[r[i]].size <= r[j]
  {
    var x, y := if i <= t then i else i - 1, if j <= t then j else j - 1;
    assert i != t + 1 ==> r[i] == nodes[x];
    assert j != t + 1 ==> r[j] == nodes[y];
    assert x < t ==> nodes[x] + mem[nodes[x]].size <= nodes[t];
    assert y > t + 1 ==> nodes[t + 1] < nodes[y];
  }

  ghost predicate NodeOk(m: map<int, Header>, r: seq<int>, k: int) {
    0 <= k < |r| && r[k] in m && m[r[k]].ptr == Next(r, k) && (k > 0 ==> m[r[k]].size > 0)
  }

  ghost predicate PairOk(m: map<int, Header>, r: seq<int>, x: int, y: int) {
    0 <= x < y < |r| && r[x] in m && r[x] < r[y] && r[x] + m[r[x]].size <= r[y]
  }

  lemma CircleFrom(base: int, m: map<int, Header>, r: seq<int>)
    requires |r| >= 1 && r[0] == base && base in m && m[base].size == 0
    requires (forall k :: 0 <= k < |r| ==> NodeOk(m, r, k)) && forall x, y :: 0 <= x < y < |r| ==> PairOk(m, r, x, y)
    ensures Circle(base, m, r)
  {
    forall x, y | 0 <= x < y < |r| ensures r[x] < r[y] && r[x] in m && r[x] + m[r[x]].size <= r[y] {
      assert PairOk(m, r, x, y);
    }
    forall k | 0 <= k < |r| ensures r[k] in m && m[r[k]].ptr == Next(r, k) && (k > 0 ==> m[r[k]].size > 0) {
      assert NodeOk(m, r, k);
    }
  }

  /** Node `i` swallowing the node after it. */
  lemma MergeKeepsCircle(base: int, mem: map<int, Header>, nodes: seq<int>, i: nat, r: seq<int>)
    requires Circle(base, mem, nodes) && 1 <= i < |nodes| - 1 && IsDrop(nodes, i + 1, r)
    requires nodes[i] + mem[nodes[i]].size == nodes[i + 1]
    ensures var a, q := nodes[i], nodes[i + 1];
      Circle(base, mem[a := Header(mem[q].ptr, mem[a].size + mem[q].size)], r)
  {
    var a, q := nodes[i], nodes[i + 1];
    assert base < a && r[0] == base && mem[base].size == 0;
    var m := mem[a := Header(mem[q].ptr, mem[a].size + mem[q].size)];
    hide Circle;
    forall k | 0 <= k < |r| ensures NodeOk(m, r, k) {
      MergeNode(base, mem, nodes, i, r, m, k);
    }
    forall x, y | 0 <= x < y < |r| ensures PairOk(m, r, x, y) {
      MergeOrder(base, mem, nodes, i, r, x, y);
    }
    CircleFrom(base, m, r);
  }

  lemma MergeNode(base: int, mem: map<int, Header>, nodes: seq<int>, i: nat, r: seq<int>, m: map<int, Header>, k: nat)
    requires Circle(base, mem, nodes) && 1 <= i < |nodes| - 1 && IsDrop(nodes, i + 1, r) && k < |r|
    requires m == mem[nodes[i] := Header(mem[nodes[i + 1]].ptr, mem[nodes[i]].size + mem[nodes[i + 1]].size)]
    ensures NodeOk(m, r, k)
  {
    var k' := if k < i then k else k + 1;
    assert mem[nodes[k']].ptr == Next(nodes, k');
    assert k == i || k < i || k > i;
  }

  lemma MergeOrder(base: int, mem: map<int, Header>, nodes: seq<int>, i: nat, r: seq<int>, x: nat, y: nat)
    requires Circle(base, mem, nodes) && 1 <= i < |nodes| - 1 && IsDrop(nodes, i + 1, r) && x < y < |r|
    requires nodes[i] + mem[nodes[i]].size == nodes[i + 1]
    ensures r[x] in mem && r[x] < r[y]
    ensures r[x] + (if r[x] == nodes[i] then mem[nodes[i]].size + mem[nodes[i + 1]].size else mem[r[x]].size) <= r[y]
  {
    var x', y' := if x <= i then x else x + 1, if y <= i then y else y + 1;
    assert r[x] == nodes[x'] && r[y] == nodes[y'];
    assert nodes[x'] < nodes[y'] && nodes[x'] + mem[nodes[x']].size <= nodes[y'];
    assert x' == i || x' < i || x' > i;
  }

  // --------------------------------------------------------------- coalescing

  /** Node `i` does not touch the one after it. */
  ghost predicate Gap(mem: map<int, Header>, nodes: seq<int>, i: int) {
    0 <= i < |nodes| - 1 && nodes[i] in mem && nodes[i] + mem[nodes[i]].size < nodes[i + 1]
  }

  lemma GapsCoalesced(base: int, mem: map<int, Header>, nodes: seq<int>)
    requires Circle(base, mem, nodes) && forall i :: 0 <= i < |nodes| - 1 ==> Gap(mem, nodes, i)
    ensures FreeList(base, mem, nodes)
  {
    forall i, j | 0 <= i < j < |nodes| ensures nodes[i] + mem[nodes[i]].size < nodes[j] {
      assert Gap(mem, nodes, i);
    }
  }

  lemma InsertGaps(base: int, mem: map<int, Header>, nodes: seq<int>, t: nat, a: int, n: int, r: seq<int>,
                   m: map<int, Header>, i: nat)
    requires FreeList(base, mem, nodes) && IsInsert(nodes, t, a, r) && n > 0 && i < |r| - 1
    requires nodes[t] < a && nodes[t] + mem[nodes[t]].size <= a && (t + 1 < |nodes| ==> a + n <= nodes[t + 1])
    requires m == mem[a := Header(Next(nodes, t), n)][nodes[t] := Header(a, mem[nodes[t]].size)]
    ensures i == t ==> (Gap(m, r, i) <==> nodes[t] + mem[nodes[t]].size < a)
    ensures i == t + 1 ==> (Gap(m, r, i) <==> a + n < nodes[t + 1])
    ensures i != t && i != t + 1 ==> Gap(m, r, i)
  {
    InsertNode(base, mem, nodes, t, a, n, r, i);
  }

  lemma MergeGaps(base: int, mem: map<int, Header>, nodes: seq<int>, i: nat, r: seq<int>, m: map<int, Header>, k: nat)
    requires Circle(base, mem, nodes) && 1 <= i < |nodes| - 1 && IsDrop(nodes, i + 1, r) && k < |r| - 1
    requires nodes[i] + mem[nodes[i]].size == nodes[i + 1]
    requires m == mem[nodes[i] := Header(mem[nodes[i + 1]].ptr, mem[nodes[i]].size + mem[nodes[i + 1]].size)]
    requires Gap(mem, nodes, if k < i then k else k + 1)
    ensures Gap(m, r, k)
  {
  }

  // ------------------------------------------------------------------- units

  lemma InsertUnits(base: int, mem: map<int, Header>, nodes: seq<int>, t: nat, a: int, n: int, r: seq<int>,
                    m: map<int, Header>, u: int)
    requires Circle(base, mem, nodes) && IsInsert(nodes, t, a, r) && n > 0
    requires nodes[t] < a && (t + 1 < |nodes| ==> a + n <= nodes[t + 1])
    requires m == mem[a := Header(Next(nodes, t), n)][nodes[t] := Header(a, mem[nodes[t]].size)]
    ensures InFree(m, r, u) <==> InFree(mem, nodes, u) || Within(u, a, n)
  {
    if i :| FreeAt(m, r, i, u) {
      InsertNode(base, mem, nodes, t, a, n, r, i);
      if i != t + 1 {
        assert FreeAt(mem, nodes, if i <= t then i else i - 1, u);
      }
    }
    if Within(u, a, n) {
      InsertNode(base, mem, nodes, t, a, n, r, t + 1);
      assert FreeAt(m, r, t + 1, u);
    }
    if i :| FreeAt(mem, nodes, i, u) {
      InsertNode(base, mem, nodes, t, a, n, r, if i <= t then i else i + 1);
      assert FreeAt(m, r, if i <= t then i else i + 1, u);
    }
  }

  lemma MergeUnits(base: int, mem: map<int, Header>, nodes: seq<int>, i: nat, r: seq<int>, m: map<int, Header>, u: int)
    requires Circle(base, mem, nodes) && 1 <= i < |nodes| - 1 && IsDrop(nodes, i + 1, r)
    requires nodes[i] + mem[nodes[i]].size == nodes[i + 1]
    requires m == mem[nodes[i] := Header(mem[nodes[i + 1]].ptr, mem[nodes[i]].size + mem[nodes[i + 1]].size)]
    ensures InFree(m, r, u) <==> InFree(mem, nodes, u)
  {
    if k :| FreeAt(m, r, k, u) {
      if k == i {
        assert FreeAt(mem, nodes, i, u) || FreeAt(mem, nodes, i + 1, u);
      } else {
        assert FreeAt(mem, nodes, if k < i then k else k + 1, u);
      }
    }
    if k :| FreeAt(mem, nodes, k, u) {
      assert FreeAt(m, r, if k <= i then k else k - 1, u);
    }
  }

  // ----------------------------------------------------------------- free()

  /** The block `a` to be freed, with its header in place, and the node behind which it goes. */
  ghost predicate Freeing(base: int, mem: map<int, Header>, nodes: seq<int>, t: nat, a: int) {
    && FreeList(base, mem, nodes) && a in mem && Apart(base, mem, nodes, a, mem[a].size)
    && Place(nodes, t, a)
  }

  /** What free() stores: the freed block first, then its predecessor `p`. */
  function FreedMem(mem: map<int, Header>, p: int, a: int): map<int, Header>
    requires p in mem && a in mem && mem[p].ptr in mem
  {
    var q := mem[p].ptr;
    var ha := if a + mem[a].size == q then Header(mem[q].ptr, mem[a].size + mem[q].size) else Header(q, mem[a].size);
    if p + mem[p].size == a then mem[a := ha][p := Header(ha.ptr, mem[p].size + ha.size)]
    else mem[a := ha][p := Header(a, mem[p].size)]
  }

  lemma FreeingFacts(base: int, mem: map<int, Header>, nodes: seq<int>, t: nat, a: int)
    requires Freeing(base, mem, nodes, t, a)
    ensures var p, q, n := nodes[t], Next(nodes, t), mem[a].size;
      && mem[p].ptr == q && q in mem && n > 0 && base < a
      && p + mem[p].size <= a && (t + 1 < |nodes| ==> a + n <= nodes[t + 1])
      && (a + n == q <==> t + 1 < |nodes| && a + n == nodes[t + 1])
      && (p + mem[p].size == a ==> t > 0)
      && q != a && (t + 1 < |nodes| ==> q != p)
  {
    assert mem[nodes[t]].ptr == Next(nodes, t);
  }

  /** Link the block in, and let it swallow its upper neighbour if they touch. */
  lemma FreedUpward(base: int, mem: map<int, Header>, nodes: seq<int>, t: nat, a: int)
    returns (m: map<int, Header>, r: seq<int>)
    requires Freeing(base, mem, nodes, t, a)
    ensures Circle(base, m, r) && t + 1 < |r| && r[t] == nodes[t] && r[t + 1] == a
    ensures forall i :: 0 <= i < |r| - 1 && i != t ==> Gap(m, r, i)
    ensures forall u :: InFree(m, r, u) <==> InFree(mem, nodes, u) || Within(u, a, mem[a].size)
    ensures var q := Next(nodes, t);
      && q in mem
      && m == mem[a := if a + mem[a].size == q then Header(mem[q].ptr, mem[a].size + mem[q].size)
        else Header(q, mem[a].size)]
                 [nodes[t] := Header(a, mem[nodes[t]].size)]
  {
    FreeingFacts(base, mem, nodes, t, a);
    var n, q := mem[a].size, Next(nodes, t);
    r := nodes[..t + 1] + [a] + nodes[t + 1..];
    m := mem[a := Header(q, n)][nodes[t] := Header(a, mem[nodes[t]].size)];
    InsertKeepsCircle(base, mem, nodes, t, a, n, r);
    forall i | 0 <= i < |r| - 1 && i != t && (i != t + 1 || a + n != q) ensures Gap(m, r, i) {
      InsertGaps(base, mem, nodes, t, a, n, r, m, i);
    }
    forall u ensures InFree(m, r, u) <==> InFree(mem, nodes, u) || Within(u, a, n) {
      InsertUnits(base, mem, nodes, t, a, n, r, m, u);
    }
    if a + n == q {
      m, r := MergeStep(base, m, r, t + 1, t);
    }
  }

  /** Merging node `i` with the next closes that gap and keeps all the others but `open`. */
  lemma MergeStep(base: int, mem: map<int, Header>, nodes: seq<int>, i: nat, open: int)
    returns (m: map<int, Header>, r: seq<int>)
    requires Circle(base, mem, nodes) && 1 <= i < |nodes| - 1 && nodes[i] + mem[nodes[i]].size == nodes[i + 1]
    requires open < i && forall k :: 0 <= k < |nodes| - 1 && k != i && k != open ==> Gap(mem, nodes, k)
    ensures Circle(base, m, r) && |r| == |nodes| - 1 && (forall k :: 0 <= k <= i ==> r[k] == nodes[k])
    ensures forall k :: 0 <= k < |r| - 1 && k != open ==> Gap(m, r, k)
    ensures forall u :: InFree(m, r, u) <==> InFree(mem, nodes, u)
    ensures m == mem[nodes[i] := Header(mem[nodes[i + 1]].ptr, mem[nodes[i]].size + mem[nodes[i + 1]].size)]
  {
    hide InFree, Gap;
    r := nodes[..i + 1] + nodes[i + 2..];
    m := mem[nodes[i] := Header(mem[nodes[i + 1]].ptr, mem[nodes[i]].size + mem[nodes[i + 1]].size)];
    MergeKeepsCircle(base, mem, nodes, i, r);
    forall k | 0 <= k < |r| - 1 && k != open ensures Gap(m, r, k) {
      MergeGaps(base, mem, nodes, i, r, m, k);
    }
    forall u ensures InFree(m, r, u) <==> InFree(mem, nodes, u) {
      MergeUnits(base, mem, nodes, i, r, m, u);
    }
  }

  /** free() adds exactly the block's units, and keeps the list circular, in address order
      and fully coalesced, with the predecessor still on it. */
  lemma Freed(base: int, mem: map<int, Header>, nodes: seq<int>, t: nat, a: int) returns (r: seq<int>)
    requires Freeing(base, mem, nodes, t, a)
    ensures mem[nodes[t]].ptr in mem
    ensures FreeList(base, FreedMem(mem, nodes[t], a), r) && t < |r| && r[t] == nodes[t]
    ensures forall u :: InFree(FreedMem(mem, nodes[t], a), r, u) <==> InFree(mem, nodes, u) || Within(u, a, mem[a].size)
  {
    FreeingFacts(base, mem, nodes, t, a);
    var p := nodes[t];
    var m;
    m, r := FreedUpward(base, mem, nodes, t, a);
    if p + mem[p].size == a {
      m, r := MergeStep(base, m, r, t, -1);
    }
    GapsCoalesced(base, m, r);
    assert m == FreedMem(mem, p, a);
  }

  // ------------------------------------------- the free units fix the free list

  lemma NodeBound(base: int, m1: map<int, Header>, n1: seq<int>, m2: map<int, Header>, n2: seq<int>, k: nat)
    requires FreeList(base, m1, n1) && FreeList(base, m2, n2) && 1 <= k < |n1| && k <= |n2|
    requires forall u :: InFree(m1, n1, u) ==> InFree(m2, n2, u)
    requires forall i :: 0 <= i < k ==> n1[i] == n2[i] && m1[n1[i]].size == m2[n2[i]].size
    ensures k < |n2| && n2[k] <= n1[k]
  {
    assert FreeAt(m1, n1, k, n1[k]);
    assert InFree(m1, n1, n1[k]);
    forall i | 0 <= i < k ensures !FreeAt(m2, n2, i, n1[k]) {
      assert n1[i] + m1[n1[i]].size < n1[k];
    }
    var j :| FreeAt(m2, n2, j, n1[k]);
  }

  /** Free blocks do not touch: the unit after one is not free. */
  lemma EndIsNotFree(base: int, mem: map<int, Header>, nodes: seq<int>, k: nat)
    requires FreeList(base, mem, nodes) && 1 <= k < |nodes|
    ensures !InFree(mem, nodes, nodes[k] + mem[nodes[k]].size)
  {
    var e := nodes[k] + mem[nodes[k]].size;
    forall i ensures !FreeAt(mem, nodes, i, e) {
      assert i == k || i < k || i > k;
    }
  }

  lemma SizeBound(base: int, m1: map<int, Header>, n1: seq<int>, m2: map<int, Header>, n2: seq<int>, k: nat)
    requires FreeList(base, m1, n1) && FreeList(base, m2, n2) && 1 <= k < |n1| && k < |n2| && n1[k] == n2[k]
    requires forall u :: InFree(m2, n2, u) ==> InFree(m1, n1, u)
    ensures m2[n2[k]].size <= m1[n1[k]].size
  {
    EndIsNotFree(base, m1, n1, k);
    assert !FreeAt(m2, n2, k, n1[k] + m1[n1[k]].size);
  }

  lemma {:induction false} SamePrefix(base: int, m1: map<int, Header>, n1: seq<int>, m2: map<int, Header>,
                                      n2: seq<int>, k: nat)
    requires FreeList(base, m1, n1) && FreeList(base, m2, n2) && 1 <= k <= |n1| && k <= |n2|
    requires forall u :: InFree(m1, n1, u) <==> InFree(m2, n2, u)
    ensures forall i :: 0 <= i < k ==> n1[i] == n2[i] && m1[n1[i]].size == m2[n2[i]].size
  {
    if k > 1 {
      SamePrefix(base, m1, n1, m2, n2, k - 1);
      NodeBound(base, m1, n1, m2, n2, k - 1);
      NodeBound(base, m2, n2, m1, n1, k - 1);
      SizeBound(base, m1, n1, m2, n2, k - 1);
      SizeBound(base, m2, n2, m1, n1, k - 1);
    }
  }

  /** Two free lists with the same units are the same list: nothing else can be observed. */
  lemma UnitsFixList(base: int, m1: map<int, Header>, n1: seq<int>, m2: map<int, Header>, n2: seq<int>)
    requires FreeList(base, m1, n1) && FreeList(base, m2, n2)
    requires forall u :: InFree(m1, n1, u) <==> InFree(m2, n2, u)
    ensures n1 == n2 && forall i :: 0 <= i < |n1| ==> m1[n1[i]] == m2[n2[i]]
  {
    var k := if |n1| <= |n2| then |n1| else |n2|;
    SamePrefix(base, m1, n1, m2, n2, k);
    if |n1| > k { NodeBound(base, m1, n1, m2, n2, k); }
    if |n2| > k { NodeBound(base, m2, n2, m1, n1, k); }
    assert n1 == n2;
    forall i | 0 <= i < |n1| ensures m1[n1[i]] == m2[n2[i]] {
      assert m1[n1[i]].ptr == Next(n1, i) && m2[n2[i]].ptr == Next(n2, i);
    }
  }

  /** A run of free units lies in a single block. */
  lemma RunInOneNode(base: int, mem: map<int, Header>, nodes: seq<int>, a: int, n: int) returns (i: nat)
    requires FreeList(base, mem, nodes) && n > 0 && forall u :: Within(u, a, n) ==> InFree(mem, nodes, u)
    ensures 1 <= i < |nodes| && nodes[i] <= a && a + n <= nodes[i] + mem[nodes[i]].size
  {
    assert Within(a, a, n);
    var j :| FreeAt(mem, nodes, j, a);
    i := j;
    EndIsNotFree(base, mem, nodes, i);
    assert !Within(nodes[i] + mem[nodes[i]].size, a, n);
  }

  // ----------------------------------------------------------------- malloc()

  lemma RemovedNode(base: int, mem: map<int, Header>, nodes: seq<int>, i: nat, r: seq<int>, m: map<int, Header>, k: nat)
    requires FreeList(base, mem, nodes) && 1 <= i < |nodes| && IsDrop(nodes, i, r) && k < |r|
    requires m == mem[nodes[i - 1] := Header(mem[nodes[i]].ptr, mem[nodes[i - 1]].size)]
    ensures r[k] in m && r[k] in mem && m[r[k]].size == mem[r[k]].size && m[r[k]].ptr == Next(r, k)
  {
    var j := if k < i - 1 then k else k + 1;
    assert mem[nodes[j]].ptr == Next(nodes, j);
    assert r[k] == if k < i then nodes[k] else nodes[k + 1];
  }

  lemma RemovedUnits(base: int, mem: map<int, Header>, nodes: seq<int>, i: nat, r: seq<int>, m: map<int, Header>,
                     u: int)
    requires FreeList(base, mem, nodes) && 1 <= i < |nodes| && IsDrop(nodes, i, r)
    requires m == mem[nodes[i - 1] := Header(mem[nodes[i]].ptr, mem[nodes[i - 1]].size)]
    ensures InFree(m, r, u) <==> InFree(mem, nodes, u) && !Within(u, nodes[i], mem[nodes[i]].size)
  {
    if k :| FreeAt(m, r, k, u) {
      RemovedNode(base, mem, nodes, i, r, m, k);
      assert FreeAt(mem, nodes, if k < i then k else k + 1, u);
    }
    if k :| FreeAt(mem, nodes, k, u) && k != i {
      RemovedNode(base, mem, nodes, i, r, m, if k < i then k else k - 1);
      assert FreeAt(m, r, if k < i then k else k - 1, u);
    }
  }

  lemma RemovedOrder(base: int, mem: map<int, Header>, nodes: seq<int>, i: nat, r: seq<int>, k: nat, j: nat)
    requires FreeList(base, mem, nodes) && IsDrop(nodes, i, r) && k < j < |r|
    ensures r[k] in mem && r[k] < r[j] && r[k] + mem[r[k]].size < r[j]
  {
    var x, y := if k < i then k else k + 1, if j < i then j else j + 1;
    assert r[k] == nodes[x] && r[j] == nodes[y];
  }

  /** Unlinking an exactly fitting block. */
  lemma Removed(base: int, mem: map<int, Header>, nodes: seq<int>, i: nat, r: seq<int>)
    requires FreeList(base, mem, nodes) && 1 <= i < |nodes| && IsDrop(nodes, i, r)
    ensures var m := mem[nodes[i - 1] := Header(mem[nodes[i]].ptr, mem[nodes[i - 1]].size)];
      && FreeList(base, m, r)
      && (forall u :: InFree(m, r, u) <==> InFree(mem, nodes, u) && !Within(u, nodes[i], mem[nodes[i]].size))
  {
    var m := mem[nodes[i - 1] := Header(mem[nodes[i]].ptr, mem[nodes[i - 1]].size)];
    forall k | 0 <= k < |r|
      ensures r[k] in m && r[k] in mem && m[r[k]].size == mem[r[k]].size && m[r[k]].ptr == Next(r, k)
    {
      RemovedNode(base, mem, nodes, i, r, m, k);
    }
    forall k, j | 0 <= k < j < |r| ensures r[k] < r[j] && r[k] + m[r[k]].size < r[j] {
      RemovedOrder(base, mem, nodes, i, r, k, j);
    }
    forall u ensures InFree(m, r, u) <==> InFree(mem, nodes, u) && !Within(u, nodes[i], mem[nodes[i]].size) {
      RemovedUnits(base, mem, nodes, i, r, m, u);
    }
  }

  /** The headers after carving `n` units off the tail of node `p`; the new header's pointer is old contents. */
  function CarvedMem(mem: map<int, Header>, p: int, n: int): map<int, Header>
    requires p in mem
  {
    var h := p + mem[p].size - n;
    mem[p := Header(mem[p].ptr, mem[p].size - n)][h := Header(if h in mem then mem[h].ptr else 0, n)]
  }

  lemma CarvedNode(base: int, mem: map<int, Header>, nodes: seq<int>, i: nat, n: int, k: nat)
    requires FreeList(base, mem, nodes) && 1 <= i < |nodes| && 0 < n < mem[nodes[i]].size && k < |nodes|
    ensures var m := CarvedMem(mem, nodes[i], n);
      && nodes[k] in m && m[nodes[k]].ptr == Next(nodes, k) && nodes[k] != nodes[i] + mem[nodes[i]].size - n
      && m[nodes[k]].size == if k == i then mem[nodes[i]].size - n else mem[nodes[k]].size
  {
    assert mem[nodes[k]].ptr == Next(nodes, k);
    assert k == i || k < i || k > i;
  }

  lemma CarvedUnits(base: int, mem: map<int, Header>, nodes: seq<int>, i: nat, n: int, u: int)
    requires FreeList(base, mem, nodes) && 1 <= i < |nodes| && 0 < n < mem[nodes[i]].size
    ensures InFree(CarvedMem(mem, nodes[i], n), nodes, u)
       <==> InFree(mem, nodes, u) && !Within(u, nodes[i] + mem[nodes[i]].size - n, n)
  {
    var m, h := CarvedMem(mem, nodes[i], n), nodes[i] + mem[nodes[i]].size - n;
    if k :| FreeAt(m, nodes, k, u) {
      CarvedNode(base, mem, nodes, i, n, k);
      assert FreeAt(mem, nodes, k, u);
      assert k == i || k < i || k > i;
    }
    if k :| FreeAt(mem, nodes, k, u) && !Within(u, h, n) {
      CarvedNode(base, mem, nodes, i, n, k);
      assert FreeAt(m, nodes, k, u);
    }
  }

  /** Carving `n` units off the tail of a larger block. */
  lemma Carved(base: int, mem: map<int, Header>, nodes: seq<int>, i: nat, n: int)
    requires FreeList(base, mem, nodes) && 1 <= i < |nodes| && 0 < n < mem[nodes[i]].size
    ensures var m, h := CarvedMem(mem, nodes[i], n), nodes[i] + mem[nodes[i]].size - n;
      && FreeList(base, m, nodes)
      && (forall u :: InFree(m, nodes, u) <==> InFree(mem, nodes, u) && !Within(u, h, n))
  {
    hide InFree, Within, FreeList, CarvedMem;
    NodeIn(base, mem, nodes, i);
    CarvedList(base, mem, nodes, i, n);
    forall u
      ensures InFree(CarvedMem(mem, nodes[i], n), nodes, u)
         <==> InFree(mem, nodes, u) && !Within(u, nodes[i] + mem[nodes[i]].size - n, n)
    {
      CarvedUnits(base, mem, nodes, i, n, u);
    }
  }

  lemma NodeIn(base: int, mem: map<int, Header>, nodes: seq<int>, i: nat)
    requires FreeList(base, mem, nodes) && i < |nodes|
    ensures nodes[i] in mem
  {
  }

  lemma CarvedList(base: int, mem: map<int, Header>, nodes: seq<int>, i: nat, n: int)
    requires FreeList(base, mem, nodes) && 1 <= i < |nodes| && 0 < n < mem[nodes[i]].size
    ensures FreeList(base, CarvedMem(mem, nodes[i], n), nodes)
  {
    hide CarvedMem;
    var m := CarvedMem(mem, nodes[i], n);
    forall k | 0 <= k < |nodes|
      ensures nodes[k] in m && m[nodes[k]].ptr == Next(nodes, k)
      ensures m[nodes[k]].size == if k == i then mem[nodes[i]].size - n else mem[nodes[k]].size
    {
      CarvedNode(base, mem, nodes, i, n, k);
    }
    hide Next;
  }

  /** free() undoes malloc(): whatever happened to headers in between, the free list is back,
      node for node and header for header. */
  lemma FreeUndoesMalloc(base: int, m0: map<int, Header>, n0: seq<int>, m1: map<int, Header>, n1: seq<int>,
                         m2: map<int, Header>, n2: seq<int>, h: int, n: int)
    requires FreeList(base, m0, n0) && FreeList(base, m2, n2)
    requires forall u :: Within(u, h, n) ==> InFree(m0, n0, u)
    requires forall u :: InFree(m1, n1, u) <==> InFree(m0, n0, u) && !Within(u, h, n)
    requires forall u :: InFree(m2, n2, u) <==> InFree(m1, n1, u) || Within(u, h, n)
    ensures n2 == n0 && forall i :: 0 <= i < |n0| ==> m2[n0[i]] == m0[n0[i]]
  {
    UnitsFixList(base, m2, n2, m0, n0);
  }
}
