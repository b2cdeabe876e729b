/**
 * Directories and path names (fs.c): directories as finite maps from names, paths as sequences of names, the
 * inode a path leads to, and counts of references to cached inodes. `PathsCode` holds the procedures.
 */
module Paths {
  import opened Common

  const DIRSIZ: nat := 14
  const T_DIR: nat := 1

  // -------------------------------------------------------------------- names

  /** The characters of `s` before its NUL, at most `n` of them. */
  function Clip(s: seq<char>, n: nat): (r: seq<char>)
    ensures |r| <= n && |r| <= |s| && forall k :: 0 <= k < |r| ==> r[k] == s[k] != '\0'
    ensures |r| == n || |r| == |s| || s[|r|] == '\0'
    decreases n
  {
    if n == 0 || s == [] || s[0] == '\0' then [] else [s[0]] + Clip(s[1..], n - 1)
  }

  /** These properties of Clip determine it. */
  lemma {:induction false} ClipIs(s: seq<char>, n: nat, k: nat)
    requires k <= n && k <= |s| && (forall i :: 0 <= i < k ==> s[i] != '\0') && (k == n || k == |s| || s[k] == '\0')
    ensures Clip(s, n) == s[..k]
  {
    var r := Clip(s, n);
    assert !(|r| < k) && !(k < |r|);
  }

  /** A name as a directory keeps it. */
  function Name(s: seq<char>): seq<char> {
    Clip(s, DIRSIZ)
  }

  // -------------------------------------------------------------- directories

  type Field = f: seq<char> | |f| == DIRSIZ witness seq(DIRSIZ, _ => '\0')

  /** A directory entry; inum 0 marks it free. */
  datatype Entry = Entry(inum: nat, name: Field)

  ghost predicate Binds(es: seq<Entry>, i: int, name: seq<char>) {
    0 <= i < |es| && es[i].inum != 0 && Name(es[i].name) == name
  }

  /** Live entries have different names. */
  ghost predicate DistinctNames(es: seq<Entry>) {
    forall i, j, name :: Binds(es, i, name) && Binds(es, j, name) ==> i == j
  }

  /** The inode of the first live entry with this name. */
  function Lookup(es: seq<Entry>, name: seq<char>): Option<nat> {
    if es == [] then None
    else if es[0].inum != 0 && Name(es[0].name) == name then Some(es[0].inum)
    else Lookup(es[1..], name)
  }

  lemma {:induction false} LookupFirst(es: seq<Entry>, name: seq<char>, i: nat)
    requires Binds(es, i, name) && forall j :: 0 <= j < i ==> !Binds(es, j, name)
    ensures Lookup(es, name) == Some(es[i].inum)
  {
    hide Clip, Name;
    if i > 0 {
      assert !Binds(es, 0, name);
      forall j | 0 <= j < i - 1 ensures !Binds(es[1..], j, name) {
        assert !Binds(es, j + 1, name);
      }
      LookupFirst(es[1..], name, i - 1);
    }
  }

  lemma {:induction false} LookupNone(es: seq<Entry>, name: seq<char>)
    requires forall j :: !Binds(es, j, name)
    ensures Lookup(es, name) == None
  {
    if es != [] {
      assert !Binds(es, 0, name);
      forall j ensures !Binds(es[1..], j, name) {
        assert !Binds(es, j + 1, name);
      }
      LookupNone(es[1..], name);
    }
  }

  /** The directory that results when the free or new entry `i` gets a binding. */
  function Bound(es: seq<Entry>, i: nat, e: Entry): seq<Entry>
    requires i <= |es|
  {
    if i < |es| then es[i := e] else es + [e]
  }

  lemma BindsBound(es: seq<Entry>, i: nat, e: Entry, j: int, name: seq<char>)
    requires i <= |es|
    ensures Binds(Bound(es, i, e), j, name) <==> if j == i then e.inum != 0 && Name(e.name) == name
      else Binds(es, j, name)
  {
  }

  /** A directory is a finite map: linking a new name keeps names distinct, binds that name, and leaves what every
      other name is bound to. */
  lemma LinkIsUpdate(es: seq<Entry>, i: nat, e: Entry, name: seq<char>)
    requires DistinctNames(es) && i <= |es| && (i < |es| ==> es[i].inum == 0) && e.inum != 0
    requires forall j :: !Binds(es, j, Name(e.name))
    ensures DistinctNames(Bound(es, i, e))
    ensures Lookup(Bound(es, i, e), name) == if name == Name(e.name) then Some(e.inum) else Lookup(es, name)
  {
    var ds := Bound(es, i, e);
    forall j, n ensures Binds(ds, j, n) <==> if j == i then Name(e.name) == n else Binds(es, j, n) {
      BindsBound(es, i, e, j, n);
    }
    if name == Name(e.name) {
      LookupFirst(ds, name, i);
    } else if j :| Binds(es, j, name) {
      LookupFirst(ds, name, j);
      LookupFirst(es, name, j);
    } else {
      LookupNone(ds, name);
      LookupNone(es, name);
    }
  }

  // -------------------------------------------------------------------- paths

  /** The length of the run of characters before the next slash. */
  function Run(path: seq<char>): (k: nat)
    ensures k <= |path| && (forall i :: 0 <= i < k ==> path[i] != '/') && (k < |path| ==> path[k] == '/')
  {
    if path == [] || path[0] == '/' then 0 else 1 + Run(path[1..])
  }

  /** The elements of a path: its maximal runs without slashes, as names. */
  function Elements(path: seq<char>): seq<seq<char>>
    decreases |path|
  {
    if path == [] then []
    else if path[0] == '/' then Elements(path[1..])
    else [Name(path[..Run(path)])] + Elements(path[Run(path)..])
  }

  /** An inode: its type, 0 when it is free, its link count, and its entries if it is a directory. */
  datatype Node = Node(typ: nat, nlink: int, entries: seq<Entry>)

  const FREE_NODE := Node(0, 0, [])

  ghost predicate EntriesIn(es: seq<Entry>, n: nat) {
    forall i :: 0 <= i < |es| ==> es[i].inum < n
  }

  /** Live names in a directory are distinct, and entries name inodes of the disk, whatever has become of those. */
  ghost predicate WellFormed(nodes: seq<Node>) {
    forall d :: 0 <= d < |nodes| ==> DistinctNames(nodes[d].entries) && EntriesIn(nodes[d].entries, |nodes|)
  }

  /** The entries name allocated inodes, which have a link each. */
  ghost predicate EntriesLinked(nodes: seq<Node>, es: seq<Entry>) {
    forall i :: 0 <= i < |es| && es[i].inum != 0 ==>
      es[i].inum < |nodes| && nodes[es[i].inum].nlink > 0 && nodes[es[i].inum].typ != 0
  }

  /** What holds of the part of the tree that has links. A removed directory keeps its "." and "..", which may name
      inodes that are free. */
  ghost predicate Linked(nodes: seq<Node>) {
    && WellFormed(nodes)
    && forall d :: 0 <= d < |nodes| && nodes[d].nlink > 0 ==> EntriesLinked(nodes, nodes[d].entries)
  }

  lemma {:induction false} LookupIn(es: seq<Entry>, n: nat, name: seq<char>)
    requires EntriesIn(es, n) && Lookup(es, name).Some?
    ensures Lookup(es, name).value < n
  {
    if !(es[0].inum != 0 && Name(es[0].name) == name) {
      LookupIn(es[1..], n, name);
    }
  }

  lemma {:induction false} LookupLinked(nodes: seq<Node>, es: seq<Entry>, name: seq<char>)
    requires EntriesLinked(nodes, es) && Lookup(es, name).Some?
    ensures var n := Lookup(es, name).value; n < |nodes| && nodes[n].nlink > 0 && nodes[n].typ != 0
  {
    if !(es[0].inum != 0 && Name(es[0].name) == name) {
      LookupLinked(nodes, es[1..], name);
    }
  }

  /** Iterated lookup: the inode that a sequence of names leads to from inode `d`. */
  ghost function Walk(nodes: seq<Node>, d: nat, names: seq<seq<char>>): (r: Option<nat>)
    requires WellFormed(nodes) && d < |nodes|
    ensures r.Some? ==> r.value < |nodes|
    decreases |names|
  {
    if names == [] then Some(d)
    else if nodes[d].typ != T_DIR then None
    else match Lookup(nodes[d].entries, names[0])
      case None => None
      case Some(n) => LookupIn(nodes[d].entries, |nodes|, names[0]); Walk(nodes, n, names[1..])
  }

  /** The directory in which the last of the names would be looked up. */
  ghost function WalkParent(nodes: seq<Node>, d: nat, names: seq<seq<char>>): (r: Option<nat>)
    requires WellFormed(nodes) && d < |nodes|
    ensures r.Some? ==> r.value < |nodes|
    decreases |names|
  {
    if names == [] || nodes[d].typ != T_DIR then None
    else if |names| == 1 then Some(d)
    else match Lookup(nodes[d].entries, names[0])
      case None => None
      case Some(n) => LookupIn(nodes[d].entries, |nodes|, names[0]); WalkParent(nodes, n, names[1..])
  }

  /** A path leads where its parent's entry for the last name leads. */
  lemma {:induction false} ParentThenLast(nodes: seq<Node>, d: nat, names: seq<seq<char>>)
    requires WellFormed(nodes) && d < |nodes| && names != []
    ensures Walk(nodes, d, names) ==
      match WalkParent(nodes, d, names)
      case None => None
      case Some(p) => Lookup(nodes[p].entries, names[|names| - 1])
    decreases |names|
  {
    if nodes[d].typ == T_DIR {
      match Lookup(nodes[d].entries, names[0])
      case None =>
      case Some(n) =>
        LookupIn(nodes[d].entries, |nodes|, names[0]);
        if |names| > 1 {
          ParentThenLast(nodes, n, names[1..]);
        }
    }
  }

  // ------------------------------------------------------------- inode cache

  const NINODE: nat := 50

  datatype Slot = Slot(dev: nat, inum: nat, count: nat, valid: bool)

  predicate IsFor(s: Slot, dev: nat, inum: nat) {
    s.count > 0 && s.dev == dev && s.inum == inum
  }

  /** No two slots in use are for the same inode. */
  ghost predicate OneSlotEach(c: seq<Slot>) {
    forall i, j ::
      0 <= i < |c| && 0 <= j < |c| && c[i].count > 0 && IsFor(c[j], c[i].dev, c[i].inum) ==> i == j
  }

  /** All references to an inode. */
  function Refs(c: seq<Slot>, dev: nat, inum: nat): nat {
    if c == [] then 0
    else Refs(c[..|c| - 1], dev, inum) + if IsFor(c[|c| - 1], dev, inum) then c[|c| - 1].count else 0
  }

  lemma {:induction false} RefsUpdate(c: seq<Slot>, i: nat, s: Slot, dev: nat, inum: nat)
    requires i < |c|
    ensures Refs(c[i := s], dev, inum) ==
      Refs(c, dev, inum) - (if IsFor(c[i], dev, inum) then c[i].count else 0)
      + if IsFor(s, dev, inum) then s.count else 0
  {
    var n := |c| - 1;
    if i < n {
      assert c[i := s][..n] == c[..n][i := s];
      RefsUpdate(c[..n], i, s, dev, inum);
    } else {
      assert c[i := s][..n] == c[..n];
    }
  }

  /** `d` has `n` more references to one inode than `c`, and the same number to every other. */
  ghost predicate Counted(c: seq<Slot>, d: seq<Slot>, dev: nat, inum: nat, n: int) {
    |d| == |c| && forall v, i :: Refs(d, v, i) == Refs(c, v, i) + if v == dev && i == inum then n else 0
  }

  /** One reference to `d` given up for one to `n`. */
  lemma CountedMove(a: seq<Slot>, b: seq<Slot>, c: seq<Slot>, e: seq<Slot>, dev: nat, d: nat, n: nat)
    requires Counted(a, b, dev, d, 1) && Counted(b, c, dev, n, 1) && Counted(c, e, dev, d, -1)
    ensures Counted(a, e, dev, n, 1)
  {
    forall v, i ensures Refs(e, v, i) == Refs(a, v, i) + if v == dev && i == n then 1 else 0 {
      assert Refs(b, v, i) == Refs(a, v, i) + if v == dev && i == d then 1 else 0;
      assert Refs(c, v, i) == Refs(b, v, i) + if v == dev && i == n then 1 else 0;
      assert Refs(e, v, i) == Refs(c, v, i) + if v == dev && i == d then -1 else 0;
    }
  }

  /** The slot of an inode holds all the references to it. */
  lemma {:induction false} SlotHasRefs(c: seq<Slot>, i: nat)
    requires OneSlotEach(c) && i < |c| && c[i].count > 0
    ensures Refs(c, c[i].dev, c[i].inum) == c[i].count
  {
    var n := |c| - 1;
    var cs := c[..n];
    forall x, y | 0 <= x < |cs| && 0 <= y < |cs| && cs[x].count > 0 && IsFor(cs[y], cs[x].dev, cs[x].inum)
      ensures x == y
    {
      assert c[x] == cs[x] && c[y] == cs[y];
    }
    if i < n {
      SlotHasRefs(cs, i);
    } else {
      NoRefs(cs, c[i].dev, c[i].inum);
    }
  }

  lemma {:induction false} NoRefs(c: seq<Slot>, dev: nat, inum: nat)
    requires forall i :: 0 <= i < |c| ==> !IsFor(c[i], dev, inum)
    ensures Refs(c, dev, inum) == 0
  {
    if c != [] {
      NoRefs(c[..|c| - 1], dev, inum);
    }
  }

  lemma SetSlot(c: seq<Slot>, i: nat, s: Slot, dev: nat, inum: nat, n: int)
    requires i < |c| && s.dev == dev && s.inum == inum
    requires s.count == (if IsFor(c[i], dev, inum) then c[i].count else 0) + n
    requires c[i].count > 0 ==> IsFor(c[i], dev, inum)
    ensures Counted(c, c[i := s], dev, inum, n)
  {
    forall v, x ensures Refs(c[i := s], v, x) == Refs(c, v, x) + if v == dev && x == inum then n else 0 {
      if v >= 0 && x >= 0 {
        RefsUpdate(c, i, s, v, x);
      }
    }
  }

  // ---------------------------------------------------------------- namex

  const ROOTDEV: nat := 1
  const ROOTINO: nat := 1

  /** Where a walk ends: at an inode, nowhere, or at a free inode that it has to lock, which is a panic. */
  datatype End = Arrives(inum: nat) | Missing | NoType

  /** What a walk leaves of the inodes, and where it ends. */
  datatype Trip = Trip(nodes: seq<Node>, end: End)

  /** Giving up the reference to a locked inode to which the others hold the references `c`: without a link and
      without another reference it is freed. */
  ghost function Leave(nodes: seq<Node>, c: seq<Slot>, d: nat): (r: seq<Node>)
    requires d < |nodes|
    ensures |r| == |nodes| && (WellFormed(nodes) ==> WellFormed(r))
  {
    if nodes[d].nlink == 0 && Refs(c, ROOTDEV, d) == 0 then nodes[d := FREE_NODE] else nodes
  }

  /** What namex does from inode `d`, one name at a time: it locks the inode, looks the name up, takes a reference to
      what it finds and gives up the one it has. With `parent` it stops at the directory of the last name. */
  ghost function TripFrom(nodes: seq<Node>, c: seq<Slot>, d: nat, names: seq<seq<char>>, parent: bool): (t: Trip)
    requires WellFormed(nodes) && d < |nodes|
    ensures |t.nodes| == |nodes| && (t.end.Arrives? ==> t.end.inum < |nodes|)
    decreases |names|
  {
    if names == [] then Trip(nodes, if parent then Missing else Arrives(d))
    else if nodes[d].typ == 0 then Trip(nodes, NoType)
    else if nodes[d].typ != T_DIR then Trip(Leave(nodes, c, d), Missing)
    else if parent && |names| == 1 then Trip(nodes, Arrives(d))
    else match Lookup(nodes[d].entries, names[0])
      case None => Trip(Leave(nodes, c, d), Missing)
      case Some(n) =>
        LookupIn(nodes[d].entries, |nodes|, names[0]);
        TripFrom(if n == d then nodes else Leave(nodes, c, d), c, n, names[1..], parent)
  }

  /** Where the path leads: to the inode itself, or to the directory that holds its last name. */
  ghost function Goal(nodes: seq<Node>, d: nat, names: seq<seq<char>>, parent: bool): (r: Option<nat>)
    requires WellFormed(nodes) && d < |nodes|
    ensures r.Some? ==> r.value < |nodes|
  {
    if parent then WalkParent(nodes, d, names) else Walk(nodes, d, names)
  }

  function EndOf(goal: Option<nat>): End {
    match goal
    case None => Missing
    case Some(n) => Arrives(n)
  }

  /** Every allocated inode without a link is in use and has been read: giving up the last reference frees it. */
  ghost predicate Settled(nodes: seq<Node>, c: seq<Slot>) {
    forall n :: 0 <= n < |nodes| && nodes[n].typ != 0 && nodes[n].nlink == 0 ==> InUse(c, n)
  }

  ghost predicate InUse(c: seq<Slot>, n: nat) {
    exists i :: 0 <= i < |c| && IsFor(c[i], ROOTDEV, n) && c[i].valid
  }

  lemma {:induction false} UsedHasRefs(c: seq<Slot>, i: nat, dev: nat, n: nat)
    requires i < |c| && IsFor(c[i], dev, n)
    ensures Refs(c, dev, n) > 0
  {
    if i < |c| - 1 {
      UsedHasRefs(c[..|c| - 1], i, dev, n);
    }
  }

  lemma LeaveSettled(nodes: seq<Node>, c: seq<Slot>, d: nat)
    requires Settled(nodes, c) && d < |nodes| && nodes[d].typ != 0
    ensures Leave(nodes, c, d) == nodes
  {
    if nodes[d].nlink == 0 {
      assert InUse(c, d);
      var i :| 0 <= i < |c| && IsFor(c[i], ROOTDEV, d) && c[i].valid;
      UsedHasRefs(c, i, ROOTDEV, d);
    }
  }

  /** After the first `k` names the walk is at a free inode, with a name still to look up. */
  ghost predicate StopsAtFree(nodes: seq<Node>, d: nat, names: seq<seq<char>>, k: int)
    requires WellFormed(nodes) && d < |nodes|
  {
    0 <= k < |names| && Walk(nodes, d, names[..k]).Some? && nodes[Walk(nodes, d, names[..k]).value].typ == 0
  }

  lemma WalkFirst(nodes: seq<Node>, d: nat, names: seq<seq<char>>, k: nat, n: nat)
    requires WellFormed(nodes) && d < |nodes| && 0 < k <= |names| && nodes[d].typ == T_DIR && n < |nodes|
    requires Lookup(nodes[d].entries, names[0]) == Some(n)
    ensures Walk(nodes, d, names[..k]) == Walk(nodes, n, names[1..][..k - 1])
  {
    assert names[..k][0] == names[0] && names[..k][1..] == names[1..][..k - 1];
  }

  lemma StopsShift(nodes: seq<Node>, d: nat, names: seq<seq<char>>, n: nat, k: int)
    requires WellFormed(nodes) && d < |nodes| && n < |nodes| && names != [] && nodes[d].typ == T_DIR
    requires Lookup(nodes[d].entries, names[0]) == Some(n)
    ensures StopsAtFree(nodes, d, names, k) <==> StopsAtFree(nodes, n, names[1..], k - 1)
  {
    hide Lookup;
    if k == 0 {
      assert names[..0] == [];
    } else if 0 < k <= |names| {
      WalkFirst(nodes, d, names, k, n);
    }
  }

  /** One name further, the walk stops at the same place. */
  lemma StopsNext(nodes: seq<Node>, d: nat, names: seq<seq<char>>, n: nat)
    requires WellFormed(nodes) && d < |nodes| && n < |nodes| && names != [] && nodes[d].typ == T_DIR
    requires Lookup(nodes[d].entries, names[0]) == Some(n)
    ensures (exists k :: StopsAtFree(nodes, d, names, k)) <==> exists k :: StopsAtFree(nodes, n, names[1..], k)
  {
    if k :| StopsAtFree(nodes, d, names, k) {
      StopsShift(nodes, d, names, n, k);
      assert StopsAtFree(nodes, n, names[1..], k - 1);
    }
    if k :| StopsAtFree(nodes, n, names[1..], k) {
      StopsShift(nodes, d, names, n, k + 1);
      assert StopsAtFree(nodes, d, names, k + 1);
    }
  }

  /** It stops at once, or not at all. */
  lemma StopsHere(nodes: seq<Node>, d: nat, names: seq<seq<char>>)
    requires WellFormed(nodes) && d < |nodes|
    requires names == [] || nodes[d].typ != T_DIR || Lookup(nodes[d].entries, names[0]) == None
    ensures (exists k :: StopsAtFree(nodes, d, names, k)) <==> names != [] && nodes[d].typ == 0
  {
    if names != [] && nodes[d].typ == 0 {
      assert StopsAtFree(nodes, d, names, 0);
    }
    if k :| StopsAtFree(nodes, d, names, k) {
      assert k > 0 ==> names[..k][0] == names[0];
    }
  }

  /** In a settled file system no inode is freed on the way; namex panics exactly when the walk comes to a free inode
      with a name still to look up, and otherwise ends where iterated lookup leads. */
  lemma {:induction false} SettledTrip(nodes: seq<Node>, c: seq<Slot>, d: nat, names: seq<seq<char>>, parent: bool)
    requires WellFormed(nodes) && Settled(nodes, c) && d < |nodes|
    ensures var t := TripFrom(nodes, c, d, names, parent);
      && t.nodes == nodes
      && (t.end == NoType <==> exists k :: StopsAtFree(nodes, d, names, k))
      && (t.end != NoType ==> t.end == EndOf(Goal(nodes, d, names, parent)))
    decreases |names|
  {
    if names == [] || nodes[d].typ != T_DIR || Lookup(nodes[d].entries, names[0]) == None {
      StopsHere(nodes, d, names);
      if nodes[d].typ != 0 {
        LeaveSettled(nodes, c, d);
      }
    } else if parent && |names| == 1 {
      LastIsNotFree(nodes, d, names);
    } else {
      var n := Lookup(nodes[d].entries, names[0]).value;
      LookupIn(nodes[d].entries, |nodes|, names[0]);
      LeaveSettled(nodes, c, d);
      StopsNext(nodes, d, names, n);
      SettledTrip(nodes, c, n, names[1..], parent);
    }
  }

  lemma LastIsNotFree(nodes: seq<Node>, d: nat, names: seq<seq<char>>)
    requires WellFormed(nodes) && d < |nodes| && |names| == 1 && nodes[d].typ == T_DIR
    ensures forall k :: !StopsAtFree(nodes, d, names, k)
  {
    assert names[..0] == [];
  }

  /** From an inode with a link, in a tree whose linked part is sound, namex never panics, frees nothing and ends where
      iterated lookup leads. */
  lemma {:induction false} LinkedTrip(nodes: seq<Node>, c: seq<Slot>, d: nat, names: seq<seq<char>>, parent: bool)
    requires Linked(nodes) && d < |nodes| && nodes[d].nlink > 0 && nodes[d].typ != 0
    ensures TripFrom(nodes, c, d, names, parent) == Trip(nodes, EndOf(Goal(nodes, d, names, parent)))
    decreases |names|
  {
    if names != [] && nodes[d].typ == T_DIR && Lookup(nodes[d].entries, names[0]).Some? && !(parent && |names| == 1) {
      LookupLinked(nodes, nodes[d].entries, names[0]);
      LinkedTrip(nodes, c, Lookup(nodes[d].entries, names[0]).value, names[1..], parent);
    }
  }

  /** Freeing an inode without a link does not touch the linked part of the tree. */
  lemma FreeKeepsLinked(nodes: seq<Node>, n: nat)
    requires Linked(nodes) && n < |nodes| && nodes[n].nlink == 0
    ensures Linked(nodes[n := FREE_NODE])
  {
    var ms := nodes[n := FREE_NODE];
    forall d | 0 <= d < |ms| && ms[d].nlink > 0 ensures EntriesLinked(ms, ms[d].entries) {
      assert EntriesLinked(nodes, nodes[d].entries);
    }
  }

  // ------------------------------------------------- a removed current directory

  function FieldOf(t: seq<char>): (f: Field)
    requires |t| <= DIRSIZ
    ensures forall i :: 0 <= i < DIRSIZ ==> f[i] == if i < |t| then t[i] else '\0'
  {
    seq(DIRSIZ, i requires 0 <= i < DIRSIZ => if i < |t| then t[i] else '\0')
  }

  lemma FieldName(t: seq<char>)
    requires |t| <= DIRSIZ && forall i :: 0 <= i < |t| ==> t[i] != '\0'
    ensures Name(FieldOf(t)) == t
  {
    ClipIs(FieldOf(t), DIRSIZ, |t|);
    assert FieldOf(t)[..|t|] == t;
  }

  /** What sys_unlink stores: entry `i` of directory `p`, which names `n`, is cleared, and a link goes; removing a
      directory also takes back the link that its ".." gave to `p`. */
  function Unlinked(nodes: seq<Node>, p: nat, i: nat, n: nat): (r: seq<Node>)
    requires p < |nodes| && n < |nodes| && i < |nodes[p].entries|
    ensures |r| == |nodes|
  {
    var back := if nodes[n].typ == T_DIR then 1 else 0;
    var es := nodes[p].entries[i := Entry(0, FieldOf([]))];
    var a := nodes[p := nodes[p].(entries := es, nlink := nodes[p].nlink - back)];
    a[n := a[n].(nlink := a[n].nlink - 1)]
  }

  /** A directory called `name` in `up`, with the entries of its own inode `n` and of `up`, and one more. */
  function Directory(nlink: int, n: nat, up: nat, more: Entry): Node {
    Node(T_DIR, nlink, [Entry(n, FieldOf(".")), Entry(up, FieldOf("..")), more])
  }

  function Nothing(): Entry {
    Entry(0, FieldOf([]))
  }

  /** The root, inode 1, with the directory a, inode 2, which holds the directory b, inode 3. */
  function SmallTree(): seq<Node> {
    [FREE_NODE, Directory(2, 1, 1, Entry(2, FieldOf("a"))), Directory(2, 2, 1, Entry(3, FieldOf("b"))),
     Directory(1, 3, 2, Nothing())]
  }

  /** It after unlink of /a/b, which is somebody's current directory, and then of /a. */
  ghost function SmallTreeRemoved(c: seq<Slot>): seq<Node> {
    var t := Leave(Unlinked(SmallTree(), 2, 2, 3), c, 3);
    Leave(Unlinked(t, 1, 2, 2), c, 2)
  }

  lemma SmallNames()
    ensures Name(FieldOf(".")) == "." && Name(FieldOf("..")) == ".."
    ensures Name(FieldOf("a")) == "a" && Name(FieldOf("b")) == "b"
  {
    FieldName(".");
    FieldName("..");
    FieldName("a");
    FieldName("b");
  }

  lemma DirectoryIs(nlink: int, n: nat, up: nat, more: Entry)
    requires 0 < n < 4 && 0 < up < 4 && more.inum < 4
    requires more.inum != 0 ==> Name(more.name) != "." && Name(more.name) != ".."
    ensures var es := Directory(nlink, n, up, more).entries;
      DistinctNames(es) && EntriesIn(es, 4) && Lookup(es, "..") == Some(up)
  {
    SmallNames();
    hide Name, FieldOf;
    LookupFirst(Directory(nlink, n, up, more).entries, "..", 1);
  }

  /** The entries of such a directory are linked if the inodes they name are. */
  lemma DirectoryLinked(nodes: seq<Node>, nlink: int, n: nat, up: nat, more: Entry)
    requires n < |nodes| && nodes[n].nlink > 0 && nodes[n].typ != 0
    requires up < |nodes| && nodes[up].nlink > 0 && nodes[up].typ != 0
    requires more.inum != 0 ==> more.inum < |nodes| && nodes[more.inum].nlink > 0 && nodes[more.inum].typ != 0
    ensures EntriesLinked(nodes, Directory(nlink, n, up, more).entries)
  {
    hide FieldOf;
  }

  lemma SmallTreeLinked()
    ensures Linked(SmallTree())
  {
    SmallNames();
    hide Name, FieldOf;
    assert DistinctNames(FREE_NODE.entries);
    var t := SmallTree();
    DirectoryIs(2, 1, 1, Entry(2, FieldOf("a")));
    DirectoryIs(2, 2, 1, Entry(3, FieldOf("b")));
    DirectoryIs(1, 3, 2, Nothing());
    DirectoryLinked(t, 2, 1, 1, Entry(2, FieldOf("a")));
    DirectoryLinked(t, 2, 2, 1, Entry(3, FieldOf("b")));
    DirectoryLinked(t, 1, 3, 2, Nothing());
    hide DistinctNames, EntriesIn, EntriesLinked, Lookup, Directory, Nothing;
  }

  /** The linked part of the tree stays sound when a and b are removed; a is then free. */
  lemma SmallTreeAfter(c: seq<Slot>)
    requires Refs(c, ROOTDEV, 3) > 0 && Refs(c, ROOTDEV, 2) == 0
    ensures SmallTreeRemoved(c) ==
      [FREE_NODE, Directory(1, 1, 1, Nothing()), FREE_NODE, Directory(0, 3, 2, Nothing())]
    ensures Linked(SmallTreeRemoved(c))
  {
    var t := [FREE_NODE, Directory(1, 1, 1, Nothing()), FREE_NODE, Directory(0, 3, 2, Nothing())];
    DirectoryIs(1, 1, 1, Nothing());
    DirectoryIs(0, 3, 2, Nothing());
    DirectoryLinked(t, 1, 1, 1, Nothing());
    SmallRemovals(c);
    hide Name, FieldOf, Refs, Lookup, SmallTreeRemoved, DistinctNames, EntriesIn, EntriesLinked;
  }

  lemma SmallRemovals(c: seq<Slot>)
    requires Refs(c, ROOTDEV, 3) > 0 && Refs(c, ROOTDEV, 2) == 0
    ensures SmallTreeRemoved(c) ==
      [FREE_NODE, Directory(1, 1, 1, Nothing()), FREE_NODE, Directory(0, 3, 2, Nothing())]
  {
    hide FieldOf, Refs;
    var t := Unlinked(SmallTree(), 2, 2, 3);
    assert t[3] == Directory(0, 3, 2, Nothing()) && t[2] == Directory(1, 2, 1, Nothing());
    var u := Unlinked(t, 1, 2, 2);
    assert u[1] == Directory(1, 1, 1, Nothing()) && u[2].nlink == 0 && u[3] == t[3];
  }

  /** A name that leads to a free inode, and one more after it. */
  lemma StepToFree(nodes: seq<Node>, c: seq<Slot>, d: nat, names: seq<seq<char>>, parent: bool, n: nat)
    requires WellFormed(nodes) && d < |nodes| && nodes[d].typ == T_DIR && n != d && n < |nodes| && nodes[n].typ == 0
    requires |names| >= 2 && Lookup(nodes[d].entries, names[0]) == Some(n)
    ensures TripFrom(nodes, c, d, names, parent).end == NoType
  {
    hide Refs, Lookup;
  }

  /** Inode 3 is the current directory of a process and inode 2 is in use by nobody: the removal of /a frees it, and
      the path ../x makes namex lock a free inode. */
  lemma RemovedCurrentDirectory(c: seq<Slot>, parent: bool)
    requires Refs(c, ROOTDEV, 3) > 0 && Refs(c, ROOTDEV, 2) == 0
    ensures var t := SmallTreeRemoved(c);
      && Linked(SmallTree()) && Linked(t) && |t| == 4 && t[2] == FREE_NODE && t[3].typ == T_DIR && t[3].nlink == 0
      && TripFrom(t, c, 3, ["..", "x"], parent).end == NoType
  {
    SmallTreeLinked();
    SmallTreeAfter(c);
    DirectoryIs(0, 3, 2, Nothing());
    hide FieldOf, Refs, SmallTreeRemoved, Linked, Lookup, SmallTree;
    StepToFree(SmallTreeRemoved(c), c, 3, ["..", "x"], parent, 2);
  }

  // ------------------------------------------------------------ path elements

  lemma {:induction false} SlashesSkipped(path: seq<char>, p: nat, q: nat)
    requires p <= q <= |path| && forall i :: p <= i < q ==> path[i] == '/'
    ensures Elements(path[p..]) == Elements(path[q..])
    decreases q - p
  {
    if p < q {
      assert path[p..][1..] == path[p + 1..];
      SlashesSkipped(path, p + 1, q);
    }
  }

  lemma {:induction false} RunIs(path: seq<char>, k: nat)
    requires k <= |path| && (forall i :: 0 <= i < k ==> path[i] != '/') && (k < |path| ==> path[k] == '/')
    ensures Run(path) == k
  {
    var r := Run(path);
    assert !(r < k) && !(k < r);
  }

  /** The element from `p` to `q` is the first one. */
  lemma ElementFirst(path: seq<char>, p: nat, q: nat)
    requires p < q <= |path| && (forall i :: p <= i < q ==> path[i] != '/') && (q < |path| ==> path[q] == '/')
    ensures Elements(path[p..]) == [Name(path[p..q])] + Elements(path[q..])
  {
    hide Clip;
    RunIs(path[p..], q - p);
    assert path[p..][..q - p] == path[p..q];
    assert path[p..][q - p..] == path[q..];
  }

  lemma NoElements(path: seq<char>, p: nat)
    requires p == |path| || (p < |path| && path[p] != '/')
    ensures Elements(path[p..]) == [] <==> p == |path|
  {
  }
}
