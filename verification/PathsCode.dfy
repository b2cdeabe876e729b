/** strncmp and strncpy of string.c, and iget, idup, iput, dirlookup, dirlink, skipelem and namex of fs.c. */
module PathsCode {
  import opened Common
  import opened Paths

  /** The character at `i`, and NUL after the end. */
  function Byte(s: seq<char>, i: nat): char {
    if i < |s| then s[i] else '\0'
  }

  /** strncmp: 0 exactly when the strings agree up to their NULs or for `n` characters. */
  method Strncmp(p: seq<char>, q: seq<char>, n: nat) returns (r: int)
    ensures r == 0 <==> Clip(p, n) == Clip(q, n)
  {
    var i := 0;
    while i < n && Byte(p, i) != '\0' && Byte(p, i) == Byte(q, i)
      invariant i <= n && i <= |p| && i <= |q| && p[..i] == q[..i] && forall k :: 0 <= k < i ==> p[k] != '\0'
    {
      i := i + 1;
    }
    ClipEqual(p, q, n, i);
    if i == n {
      return 0;
    }
    r := Byte(p, i) as int - Byte(q, i) as int;
  }

  lemma ClipEqual(p: seq<char>, q: seq<char>, n: nat, i: nat)
    requires i <= n && i <= |p| && i <= |q| && p[..i] == q[..i] && forall k :: 0 <= k < i ==> p[k] != '\0'
    requires i == n || Byte(p, i) == '\0' || Byte(p, i) != Byte(q, i)
    ensures Clip(p, n) == Clip(q, n) <==> i == n || Byte(p, i) == Byte(q, i)
  {
    forall k | 0 <= k < i ensures q[k] == p[k] {
      assert p[..i][k] == q[..i][k];
    }
    if i == n || Byte(p, i) == Byte(q, i) {
      ClipIs(p, n, i);
      ClipIs(q, n, i);
    } else {
      var a, b := Clip(p, n), Clip(q, n);
      assert |a| >= i && |b| >= i;
      assert |a| > i || Byte(p, i) == '\0';
      assert |b| > i || Byte(q, i) == '\0';
    }
  }

  /** strncpy into a buffer of `n` characters: the string up to its NUL, then NULs. */
  method Strncpy(t: seq<char>, n: nat) returns (s: seq<char>)
    ensures |s| == n && Clip(s, n) == Clip(t, n)
    ensures forall k :: |Clip(t, n)| <= k < n ==> s[k] == '\0'
  {
    s := [];
    while |s| < n && Byte(t, |s|) != '\0'
      invariant |s| <= n && |s| <= |t| && s == t[..|s|] && forall k :: 0 <= k < |s| ==> s[k] != '\0'
    {
      s := s + [t[|s|]];
    }
    ghost var k := |s|;
    ClipIs(t, n, k);
    while |s| < n
      invariant k <= |s| <= n && s[..k] == t[..k] && forall i :: k <= i < |s| ==> s[i] == '\0'
    {
      s := s + ['\0'];
    }
    forall i | 0 <= i < k ensures s[i] != '\0' {
      assert s[..k][i] == t[..k][i];
    }
    ClipIs(s, n, k);
  }

  /** `name` is the first element of the path from `p` on, if there is one, and `next` is where the one after it
      starts, or the end. */
  ghost predicate Cursor(path: seq<char>, p: nat, found: bool, next: nat, name: seq<char>) {
    && p <= next <= |path| && (found <==> Elements(path[p..]) != [])
    && (found ==> p < next && Elements(path[p..]) == [name] + Elements(path[next..]) && Name(name) == name)
    && (found ==> (next == |path| <==> Elements(path[next..]) == []))
  }

  lemma NameTwice(s: seq<char>)
    ensures Name(Name(s)) == Name(s)
  {
    var r := Clip(s, DIRSIZ);
    ClipIs(r, DIRSIZ, |r|);
    assert r[..|r|] == r;
  }

  /** Behind slashes from `p` on stands an element, from `s` up to a slash or the end at `e`, and after it only slashes
      up to `next`, where there is none. */
  ghost predicate Element(path: seq<char>, p: nat, s: nat, e: nat, next: nat) {
    && p <= s < e <= next <= |path|
    && (forall i :: p <= i < s || e <= i < next ==> path[i] == '/')
    && (forall i :: s <= i < e ==> path[i] != '/')
    && (e < |path| ==> path[e] == '/') && (next < |path| ==> path[next] != '/')
  }

  /** The name is that element; if there is none, only slashes are left. */
  ghost predicate Skipped(path: seq<char>, p: nat, found: bool, next: nat, name: seq<char>) {
    if found then exists s: nat, e: nat :: Element(path, p, s, e, next) && name == Name(path[s..e])
    else forall i :: p <= i < |path| ==> path[i] == '/'
  }

  /** skipelem: the next element of the path from `p` on, and where the one after it starts. */
  method SkipElem(path: seq<char>, p: nat) returns (found: bool, next: nat, name: seq<char>)
    requires p <= |path|
    ensures Cursor(path, p, found, next, name)
    ensures Skipped(path, p, found, next, name)
  {
    hide Elements, Clip;
    var s := p;
    while s < |path| && path[s] == '/'
      invariant p <= s <= |path| && forall i :: p <= i < s ==> path[i] == '/'
    {
      s := s + 1;
    }
    SlashesSkipped(path, p, s);
    NoElements(path, s);
    if s == |path| {
      return false, s, [];
    }
    var e := s;
    while e < |path| && path[e] != '/'
      invariant s <= e <= |path| && forall i :: s <= i < e ==> path[i] != '/'
    {
      e := e + 1;
    }
    name := Name(path[s..e]);
    NameTwice(path[s..e]);
    ElementFirst(path, s, e);
    next := e;
    while next < |path| && path[next] == '/'
      invariant e <= next <= |path| && forall i :: e <= i < next ==> path[i] == '/'
    {
      next := next + 1;
    }
    SlashesSkipped(path, e, next);
    NoElements(path, next);
    assert Element(path, p, s, e, next);
    found := true;
  }

  /** The most entries a directory can have: MAXFILE blocks of 512 bytes, 16 bytes each. */
  const MAX_ENTRIES: nat := 140 * 512 / 16

  /** dirlink: the entry is made, the name is there already, or a panic: no slot left, or no room in the directory. */
  datatype LinkResult = Done | Exists | NoSlot | NoRoom

  /** What a lookup or a walk finds: nothing, or a slot for the inode; the others are panics, with no slot left in the
      cache or at a free inode. */
  datatype Found = Absent | Hit(slot: nat) | NoSlots | FreeInode

  class Inodes {
    var nodes: seq<Node>
    var cache: seq<Slot>

    /** The cache holds each inode once; a slot that has been read is for an allocated inode. `nodes` are the inodes of
        the root device. */
    ghost predicate Valid()
      reads this
    {
      && |cache| == NINODE && OneSlotEach(cache) && WellFormed(nodes) && ROOTINO < |nodes| && nodes[ROOTINO].nlink != 0
      && forall i :: 0 <= i < NINODE && cache[i].count > 0 && cache[i].dev == ROOTDEV ==>
           cache[i].inum < |nodes| && (cache[i].valid ==> nodes[cache[i].inum].typ != 0)
    }

    constructor (nodes: seq<Node>)
      requires WellFormed(nodes) && ROOTINO < |nodes| && nodes[ROOTINO].nlink != 0
      ensures Valid() && this.nodes == nodes
      ensures forall i :: 0 <= i < NINODE ==> cache[i].count == 0 && !cache[i].valid
    {
      this.nodes := nodes;
      cache := seq(NINODE, _ => Slot(0, 0, 0, false));
    }

    /** iget: a reference to the inode, in its slot or in a recycled one. */
    method Iget(dev: nat, inum: nat) returns (r: Found)
      requires Valid() && (dev == ROOTDEV ==> inum < |nodes|)
      modifies this`cache
      ensures Valid() && (r.Hit? || r == NoSlots)
      ensures r.Hit? ==>
        && r.slot < NINODE && IsFor(cache[r.slot], dev, inum)
        && Counted(old(cache), cache, dev, inum, 1) && KeepsSlots(old(cache), cache)
        && (cache[r.slot].count == 1 ==> !cache[r.slot].valid)
      ensures r == NoSlots ==> cache == old(cache) && AllInUse(cache)
      ensures old(Settled(nodes, cache)) ==> Settled(nodes, cache)
    {
      hide WellFormed, Counted, Refs, Settled;
      var i, empty := ScanSlots(dev, inum);
      if i < NINODE {
        SetSlot(cache, i, cache[i].(count := cache[i].count + 1), dev, inum, 1);
        GetKeepsSettled(nodes, cache, cache[i := cache[i].(count := cache[i].count + 1)]);
        cache := cache[i := cache[i].(count := cache[i].count + 1)];
        return Hit(i);
      }
      if empty == NINODE {
        return NoSlots;
      }
      SetSlot(cache, empty, Slot(dev, inum, 1, false), dev, inum, 1);
      GetKeepsSettled(nodes, cache, cache[empty := Slot(dev, inum, 1, false)]);
      cache := cache[empty := Slot(dev, inum, 1, false)];
      r := Hit(empty);
    }

    /** iget's loop: the slot of the inode, or else the first slot that is not in use; NINODE is none. */
    method ScanSlots(dev: nat, inum: nat) returns (i: nat, empty: nat)
      requires |cache| == NINODE
      ensures i <= NINODE && if i < NINODE then IsFor(cache[i], dev, inum)
        else forall j :: 0 <= j < NINODE ==> !IsFor(cache[j], dev, inum)
      ensures empty <= NINODE && (i == NINODE && empty < NINODE ==> cache[empty].count == 0)
      ensures i == NINODE && empty == NINODE ==> AllInUse(cache)
    {
      i, empty := 0, NINODE;
      while i < NINODE
        invariant i <= NINODE && empty <= NINODE
        invariant forall j :: 0 <= j < i ==> !IsFor(cache[j], dev, inum)
        invariant if empty == NINODE then forall j :: 0 <= j < i ==> cache[j].count > 0 else cache[empty].count == 0
      {
        if IsFor(cache[i], dev, inum) {
          return;
        }
        if empty == NINODE && cache[i].count == 0 {
          empty := i;
        }
        i := i + 1;
      }
    }

    /** idup. */
    method Idup(i: nat)
      requires Valid() && i < NINODE && cache[i].count > 0
      modifies this`cache
      ensures Valid() && IsFor(cache[i], old(cache[i]).dev, old(cache[i]).inum)
      ensures Counted(old(cache), cache, cache[i].dev, cache[i].inum, 1)
      ensures old(Settled(nodes, cache)) ==> Settled(nodes, cache)
    {
      SetSlot(cache, i, cache[i].(count := cache[i].count + 1), cache[i].dev, cache[i].inum, 1);
      GetKeepsSettled(nodes, cache, cache[i := cache[i].(count := cache[i].count + 1)]);
      cache := cache[i := cache[i].(count := cache[i].count + 1)];
    }

    /** ilock, which reads the inode if need be; false is the panic on an inode without a type, after which nothing
        more happens. */
    method Ilock(i: nat) returns (ok: bool)
      requires Valid() && i < NINODE && cache[i].count > 0 && cache[i].dev == ROOTDEV
      modifies this`cache
      ensures ok <==> nodes[old(cache)[i].inum].typ != 0
      ensures ok ==> Valid() && cache == old(cache)[i := old(cache)[i].(valid := true)]
      ensures ok ==> Counted(old(cache), cache, cache[i].dev, cache[i].inum, 0)
      ensures ok && old(Settled(nodes, cache)) ==> Settled(nodes, cache)
    {
      if cache[i].valid {
        SetSlot(cache, i, cache[i], cache[i].dev, cache[i].inum, 0);
        assert cache[i := cache[i]] == cache;
        return true;
      }
      SetSlot(cache, i, cache[i].(valid := true), cache[i].dev, cache[i].inum, 0);
      ReadKeepsSettled(nodes, cache, i);
      cache := cache[i := cache[i].(valid := true)];
      ok := nodes[cache[i].inum].typ != 0;
    }

    /** iput: a reference is given up; giving up the last one to an inode that has been read and has no link frees the
        inode, whatever entries still name it. */
    method Iput(i: nat)
      requires Valid() && i < NINODE && cache[i].count > 0 && cache[i].dev == ROOTDEV
      modifies this
      ensures Valid() && Counted(old(cache), cache, old(cache[i]).dev, old(cache[i]).inum, -1)
      ensures cache == old(cache)[i := old(cache)[i].(count := old(cache)[i].count - 1, valid := cache[i].valid)]
      ensures nodes == if old(cache[i]).valid && old(nodes[cache[i].inum]).nlink == 0 && old(cache[i]).count == 1
                       then old(nodes)[old(cache[i]).inum := FREE_NODE] else old(nodes)
      ensures old(Linked(nodes)) ==> Linked(nodes)
      ensures old(Settled(nodes, cache)) ==> Settled(nodes, cache)
    {
      hide Counted, Refs;
      var n := cache[i].inum;
      var valid := cache[i].valid;
      PutKeepsSettled(nodes, cache, i);
      if nodes[n].nlink == 0 {
        FreeKeeps(nodes, n);
      }
      hide Linked, WellFormed, Settled;
      if valid && nodes[n].nlink == 0 {
        if cache[i].count == 1 {
          nodes := nodes[n := FREE_NODE];
          valid := false;
        }
      }
      SetSlot(cache, i, cache[i].(count := cache[i].count - 1, valid := valid), cache[i].dev, n, -1);
      cache := cache[i := cache[i].(count := cache[i].count - 1, valid := valid)];
    }

    /** The entries of the directory in slot `d`. */
    ghost function Entries(d: nat): seq<Entry>
      requires Valid() && d < NINODE && cache[d].count > 0 && cache[d].dev == ROOTDEV
      reads this
    {
      nodes[cache[d].inum].entries
    }

    /** The scan of dirlookup: the first live entry with this name, or the number of entries. */
    method FindEntry(es: seq<Entry>, name: seq<char>) returns (off: nat)
      ensures off <= |es| && (off < |es| ==> Binds(es, off, Name(name)))
      ensures forall j :: 0 <= j < off ==> !Binds(es, j, Name(name))
      ensures Lookup(es, Name(name)) == if off < |es| then Some(es[off].inum) else None
    {
      hide Clip, Lookup;
      off := 0;
      while off < |es|
        invariant off <= |es| && forall j :: 0 <= j < off ==> !Binds(es, j, Name(name))
      {
        if es[off].inum != 0 {
          var c := Strncmp(name, es[off].name, DIRSIZ);
          if c == 0 {
            LookupFirst(es, Name(name), off);
            return;
          }
        }
        off := off + 1;
      }
      LookupNone(es, Name(name));
    }

    /** dirlookup in the directory of slot `d`. */
    method DirLookup(d: nat, name: seq<char>) returns (r: Found)
      requires Valid() && d < NINODE && cache[d].count > 0 && cache[d].dev == ROOTDEV
      requires nodes[cache[d].inum].typ == T_DIR
      modifies this`cache
      ensures Valid() && r != FreeInode
      ensures r == Absent <==> Lookup(old(Entries(d)), Name(name)) == None
      ensures r == Absent || r == NoSlots ==> cache == old(cache)
      ensures r == NoSlots ==> AllInUse(cache)
      ensures r.Hit? ==>
        && r.slot < NINODE && IsFor(cache[r.slot], old(cache[d]).dev, Lookup(old(Entries(d)), Name(name)).value)
        && Counted(old(cache), cache, old(cache[d]).dev, Lookup(old(Entries(d)), Name(name)).value, 1)
        && KeepsSlots(old(cache), cache) && (cache[r.slot].count == 1 ==> !cache[r.slot].valid)
      ensures old(Settled(nodes, cache)) ==> Settled(nodes, cache)
    {
      var es := nodes[cache[d].inum].entries;
      var off := FindEntry(es, name);
      hide Lookup, Name, Counted;
      if off == |es| {
        return Absent;
      }
      LookupIn(es, |nodes|, Name(name));
      r := Iget(cache[d].dev, es[off].inum);
    }

    /** iput of an inode that has a link, another reference, or has not been read: nothing is freed. */
    method PutOne(i: nat, dev: nat, inum: nat)
      requires Valid() && i < NINODE && IsFor(cache[i], dev, inum) && dev == ROOTDEV
      requires nodes[inum].nlink != 0 || Refs(cache, dev, inum) >= 2 || !cache[i].valid
      modifies this
      ensures Valid() && nodes == old(nodes) && Counted(old(cache), cache, dev, inum, -1)
      ensures cache == old(cache)[i := old(cache)[i].(count := old(cache)[i].count - 1, valid := cache[i].valid)]
      ensures old(Settled(nodes, cache)) ==> Settled(nodes, cache)
    {
      SlotHasRefs(cache, i);
      Iput(i);
    }

    /** dirlink: the new binding, or nothing when the name is there already; no reference is kept either way. */
    method DirLink(d: nat, name: seq<char>, inum: nat) returns (r: LinkResult)
      requires Valid() && d < NINODE && cache[d].count > 0 && cache[d].dev == ROOTDEV
      requires nodes[cache[d].inum].typ == T_DIR && 0 < inum < |nodes|
      modifies this
      ensures Valid() && (r == Exists ==> Lookup(old(Entries(d)), Name(name)).Some?)
      ensures r != Done ==> nodes == old(nodes) && Same(old(cache), cache)
      ensures r == NoSlot ==> AllInUse(cache)
      ensures r == NoRoom <==> Lookup(old(Entries(d)), Name(name)) == None && FullDirectory(old(Entries(d)))
      ensures r == Done ==>
        && cache == old(cache) && Lookup(old(Entries(d)), Name(name)) == None
        && nodes == old(nodes)[cache[d].inum := old(nodes)[cache[d].inum].(entries := Entries(d))]
        && InFirstGap(old(Entries(d)), Entries(d), inum, Name(name))
        && forall n :: Lookup(Entries(d), n) == if n == Name(name) then Some(inum) else Lookup(old(Entries(d)), n)
      ensures old(Linked(nodes)) && nodes[inum].nlink > 0 && nodes[inum].typ != 0 ==> Linked(nodes)
    {
      ghost var c0 := cache;
      var dn := cache[d].inum;
      var found := DirLookup(d, name);
      hide Linked;
      match found
      case NoSlots => return NoSlot;
      case Hit(i) =>
        ghost var c1 := cache;
        FreshOrShared(c0, c1, i);
        PutOne(i, cache[i].dev, cache[i].inum);
        BackAgain(c0, c1, cache, c1[i].dev, c1[i].inum);
        return Exists;
      case Absent =>
        var ok := AddEntry(dn, name, inum);
        r := if ok then Done else NoRoom;
    }

    /** dirlink's search for a free entry. */
    method FreeEntry(es: seq<Entry>) returns (off: nat)
      ensures off <= |es| && (off < |es| ==> es[off].inum == 0) && forall i :: 0 <= i < off ==> es[i].inum != 0
    {
      off := 0;
      while off < |es| && es[off].inum != 0
        invariant off <= |es| && forall i :: 0 <= i < off ==> es[i].inum != 0
      {
        off := off + 1;
      }
    }

    /** dirlink storing the entry in the first free place; false is the panic when there is no room for one more. */
    method AddEntry(dn: nat, name: seq<char>, inum: nat) returns (ok: bool)
      requires Valid() && dn < |nodes| && Lookup(nodes[dn].entries, Name(name)) == None && 0 < inum < |nodes|
      modifies this`nodes
      ensures Valid() && |nodes| == |old(nodes)| && (ok <==> !FullDirectory(old(nodes)[dn].entries))
      ensures !ok ==> nodes == old(nodes)
      ensures ok ==> nodes == old(nodes)[dn := old(nodes)[dn].(entries := nodes[dn].entries)]
      ensures ok ==> forall n :: Lookup(nodes[dn].entries, n) == if n == Name(name) then Some(inum)
        else Lookup(old(nodes)[dn].entries, n)
      ensures ok ==> InFirstGap(old(nodes)[dn].entries, nodes[dn].entries, inum, Name(name))
      ensures old(Linked(nodes)) && nodes[inum].nlink > 0 && nodes[inum].typ != 0 ==> Linked(nodes)
    {
      hide WellFormed, Lookup, Clip, Linked, OneSlotEach, InFirstGap;
      var es := nodes[dn].entries;
      var off := FreeEntry(es);
      if off == |es| && off >= MAX_ENTRIES {
        return false;
      }
      var field := Strncpy(name, DIRSIZ);
      var e := Entry(inum, field);
      EntryAdded(nodes, dn, off, e, Name(name));
      GapFilled(es, off, e);
      nodes := nodes[dn := nodes[dn].(entries := Bound(es, off, e))];
      ok := true;
    }

    /** Slot `ip` holds the one reference that namex has, to inode `d`, besides those of `c0`. */
    ghost predicate Holding(c0: seq<Slot>, ip: nat, d: nat)
      reads this
    {
      && Valid() && ip < NINODE && d < |nodes| && IsFor(cache[ip], ROOTDEV, d) && Counted(c0, cache, ROOTDEV, d, 1)
    }

    lemma HeldIs(c0: seq<Slot>, ip: nat, d: nat)
      requires Holding(c0, ip, d)
      ensures Valid() && d < |nodes| && ip < NINODE && IsFor(cache[ip], ROOTDEV, d) && Counted(c0, cache, ROOTDEV, d, 1)
    {
    }

    /** ilock in namex: it panics at a free inode and keeps what namex holds. */
    method Lock(ip: nat, ghost c0: seq<Slot>, ghost d: nat) returns (ok: bool)
      requires Holding(c0, ip, d)
      modifies this`cache
      ensures ok <==> nodes[d].typ != 0
      ensures ok ==> Holding(c0, ip, d) && cache[ip].valid
      ensures old(Settled(nodes, cache)) && ok ==> Settled(nodes, cache)
    {
      ghost var c1 := cache;
      ok := Ilock(ip);
      if ok {
        Unchanged(c0, c1, cache, ROOTDEV, d);
      }
    }

    /** iunlockput of a locked inode on the way out of namex. */
    method Drop(ip: nat, ghost c0: seq<Slot>, ghost d: nat)
      requires Holding(c0, ip, d) && cache[ip].valid
      modifies this
      ensures Valid() && Same(c0, cache) && nodes == Leave(old(nodes), c0, d)
      ensures old(Settled(nodes, cache)) ==> Settled(nodes, cache)
    {
      ghost var c1 := cache;
      assert Refs(c1, ROOTDEV, d) == Refs(c0, ROOTDEV, d) + 1;
      SlotHasRefs(cache, ip);
      Iput(ip);
      BackAgain(c0, c1, cache, ROOTDEV, d);
    }

    /** iunlockput of the locked inode in `ip` after dirlookup took a reference to inode `n`. */
    method MoveOn(ip: nat, next: nat, ghost c0: seq<Slot>, ghost c1: seq<Slot>, ghost d: nat, ghost n: nat)
      requires Valid() && ip < NINODE && IsFor(cache[ip], ROOTDEV, d) && d < |nodes| && cache[ip].valid
      requires next < NINODE && IsFor(cache[next], ROOTDEV, n) && n < |nodes|
      requires Counted(c0, c1, ROOTDEV, d, 1) && Counted(c1, cache, ROOTDEV, n, 1)
      modifies this
      ensures nodes == (if n == d then old(nodes) else Leave(old(nodes), c0, d)) && Holding(c0, next, n)
      ensures old(Settled(nodes, cache)) ==> Settled(nodes, cache)
    {
      ghost var c2 := cache;
      assert Refs(c1, ROOTDEV, d) == Refs(c0, ROOTDEV, d) + 1;
      assert Refs(c2, ROOTDEV, d) == Refs(c1, ROOTDEV, d) + if n == d then 1 else 0;
      SlotHasRefs(c2, ip);
      Iput(ip);
      CountedMove(c0, c1, c2, cache, ROOTDEV, d, n);
    }

    /** One turn of namex's loop: from inode `d` in slot `ip` to what `name` is bound to there. */
    method Descend(ip: nat, name: seq<char>, stop: bool, ghost c0: seq<Slot>, ghost d: nat)
      returns (r: Found, at: bool)
      requires Holding(c0, ip, d)
      modifies this
      ensures r != NoSlots ==> Turn(old(nodes), c0, d, Name(name), stop, nodes, r)
      ensures r == NoSlots ==> AllInUse(cache)
      ensures r == Absent ==> Valid() && Same(c0, cache)
      ensures r.Hit? ==>
        at == stop && Holding(c0, r.slot, if stop then d else Lookup(old(nodes)[d].entries, Name(name)).value)
      ensures old(Settled(nodes, cache)) && r != NoSlots && r != FreeInode ==> Settled(nodes, cache)
    {
      at := false;
      HeldIs(c0, ip, d);
      var ok := Lock(ip, c0, d);
      if !ok {
        return FreeInode, at;
      }
      HeldIs(c0, ip, d);
      if nodes[cache[ip].inum].typ != T_DIR {
        Drop(ip, c0, d);
        return Absent, at;
      }
      if stop {
        return Hit(ip), true;
      }
      ghost var c1 := cache;
      r := DirLookup(ip, name);
      match r
      case NoSlots => return;
      case Absent =>
        Drop(ip, c0, d);
        return;
      case Hit(next) =>
        LookupIn(nodes[d].entries, |nodes|, Name(name));
        MoveOn(ip, next, c0, c1, d, Lookup(nodes[d].entries, Name(name)).value);
    }

    /** namex's first reference: to the root, or to the current directory in slot `cwd`. */
    method Begin(path: seq<char>, cwd: nat) returns (r: Found, ghost d: nat)
      requires Valid() && cwd < NINODE && cache[cwd].count > 0 && cache[cwd].dev == ROOTDEV
      modifies this`cache
      ensures Valid() && (r.Hit? || r == NoSlots)
      ensures d == (if path != [] && path[0] == '/' then ROOTINO else old(cache[cwd]).inum) && d < |nodes|
      ensures r.Hit? ==> Holding(old(cache), r.slot, d)
      ensures nodes[d].nlink != 0 || Refs(old(cache), ROOTDEV, d) >= 1
      ensures r == NoSlots ==> AllInUse(cache)
      ensures old(Settled(nodes, cache)) ==> Settled(nodes, cache)
    {
      if path != [] && path[0] == '/' {
        d := ROOTINO;
        r := Iget(ROOTDEV, ROOTINO);
        return;
      }
      d := cache[cwd].inum;
      SlotHasRefs(cache, cwd);
      Idup(cwd);
      r := Hit(cwd);
    }

    /** namex from the root or from the current directory, step by step `TripFrom`. A returned inode carries one new
        reference and no other count changes; when nothing is found none does. */
    method Namex(path: seq<char>, parent: bool, cwd: nat) returns (r: Found, name: seq<char>, ghost d0: nat)
      requires Valid() && cwd < NINODE && cache[cwd].count > 0 && cache[cwd].dev == ROOTDEV
      modifies this
      ensures d0 < |old(nodes)|
      ensures d0 == if path != [] && path[0] == '/' then ROOTINO else old(cache[cwd]).inum
      ensures r == NoSlots ==> AllInUse(cache)
      ensures r != NoSlots ==>
        var t := TripFrom(old(nodes), old(cache), d0, Elements(path), parent);
        && nodes == t.nodes && (r == FreeInode <==> t.end == NoType) && (r == Absent <==> t.end == Missing)
        && (r == Absent ==> Valid() && Same(old(cache), cache))
        && (r.Hit? ==>
             && Valid() && t.end.Arrives? && r.slot < NINODE && IsFor(cache[r.slot], ROOTDEV, t.end.inum)
             && Counted(old(cache), cache, ROOTDEV, t.end.inum, 1)
             && (parent ==> Elements(path) != [] && name == Elements(path)[|Elements(path)| - 1]))
      ensures old(Settled(nodes, cache)) && r != NoSlots && r != FreeInode ==> Settled(nodes, cache)
    {
      hide Holding, TripFrom, Elements, Counted, AllInUse, Same, Settled;
      name := [];
      r, d0 := Begin(path, cwd);
      if r.Hit? {
        r, name := WalkFrom(path, parent, r.slot, old(cache), d0);
      }
    }

    /** namex from its starting inode `d0`, held in slot `start`. */
    method WalkFrom(path: seq<char>, parent: bool, start: nat, ghost c0: seq<Slot>, ghost d0: nat)
      returns (r: Found, name: seq<char>)
      requires Holding(c0, start, d0) && d0 < |nodes| && WellFormed(nodes)
      requires nodes[d0].nlink != 0 || Refs(c0, ROOTDEV, d0) >= 1
      modifies this
      ensures r == NoSlots ==> AllInUse(cache)
      ensures r != NoSlots ==>
        var t := TripFrom(old(nodes), c0, d0, Elements(path), parent);
        && nodes == t.nodes && (r == FreeInode <==> t.end == NoType) && (r == Absent <==> t.end == Missing)
        && (r == Absent ==> Valid() && Same(c0, cache))
        && (r.Hit? ==>
             && Valid() && t.end.Arrives? && r.slot < NINODE && IsFor(cache[r.slot], ROOTDEV, t.end.inum)
             && Counted(c0, cache, ROOTDEV, t.end.inum, 1)
             && (parent ==> Elements(path) != [] && name == Elements(path)[|Elements(path)| - 1]))
      ensures old(Settled(nodes, cache)) && r != NoSlots && r != FreeInode ==> Settled(nodes, cache)
    {
      name := [];
      ghost var d, p: nat, ns := d0, 0, nodes;
      var ip := start;
      var found, next, elem := SkipElem(path, 0);
      WayStart(nodes, path, c0, parent, d);
      hide Holding, TripFrom, Cursor, OnTheWay, Lookup, Name, Elements, Counted, AllInUse, Same, WellFormed, Leave,
           Turn, Settled;
      while found
        invariant Holding(c0, ip, d) && Cursor(path, p, found, next, elem)
        invariant OnTheWay(ns, path, c0, parent, d0, p, nodes, d)
        invariant parent && !found ==> d == d0 && nodes == ns
        invariant old(Settled(nodes, cache)) ==> Settled(nodes, cache)
        decreases |path| - p, found
      {
        CursorMoves(path, p, next, elem);
        ghost var ms := nodes;
        var at;
        r, at := Descend(ip, elem, parent && next == |path|, c0, d);
        if r == NoSlots {
          return;
        }
        WayTurn(ns, path, c0, parent, d0, p, next, elem, ms, d, nodes, r);
        if !r.Hit? {
          return;
        }
        if at {
          HeldIs(c0, r.slot, d);
          return r, elem;
        }
        d := Lookup(ms[d].entries, Name(elem)).value;
        ip := r.slot;
        p := next;
        found, next, elem := SkipElem(path, next);
      }
      WayEnd(ns, path, c0, parent, d0, p, next, elem, nodes, d);
      HeldIs(c0, ip, d);
      if parent {
        PutFirst(ip, c0, d);
        return Absent, name;
      }
      r := Hit(ip);
    }

    /** iput of the first inode when the path has no element to stop before: it was not locked, and is kept. */
    method PutFirst(ip: nat, ghost c0: seq<Slot>, ghost d: nat)
      requires Holding(c0, ip, d) && (nodes[d].nlink != 0 || Refs(c0, ROOTDEV, d) >= 1)
      modifies this
      ensures Valid() && nodes == old(nodes) && Same(c0, cache)
      ensures old(Settled(nodes, cache)) ==> Settled(nodes, cache)
    {
      ghost var c1 := cache;
      assert Refs(c1, ROOTDEV, d) == Refs(c0, ROOTDEV, d) + 1;
      PutOne(ip, ROOTDEV, cache[ip].inum);
      BackAgain(c0, c1, cache, ROOTDEV, d);
    }
  }

  /** One turn of namex's loop on the inodes. */
  ghost predicate Turn(nodes: seq<Node>, c: seq<Slot>, d: nat, name: seq<char>, stop: bool, after: seq<Node>, r: Found)
    requires WellFormed(nodes) && d < |nodes|
  {
    if nodes[d].typ == 0 then r == FreeInode && after == nodes
    else if nodes[d].typ != T_DIR then r == Absent && after == Leave(nodes, c, d)
    else if stop then r.Hit? && after == nodes
    else match Lookup(nodes[d].entries, name)
      case None => r == Absent && after == Leave(nodes, c, d)
      case Some(n) => r.Hit? && n < |nodes| && after == if n == d then nodes else Leave(nodes, c, d)
  }

  /** The directory `es` with an entry for the name in its first free place, or at its end; nothing else differs. */
  ghost predicate InFirstGap(es: seq<Entry>, fs: seq<Entry>, inum: nat, name: seq<char>) {
    exists off ::
      && 0 <= off < |fs| && off <= |es| && (forall i :: 0 <= i < off ==> es[i].inum != 0)
      && |fs| == (if off < |es| then |es| else |es| + 1) && (off < |es| ==> es[off].inum == 0)
      && fs[off].inum == inum && Name(fs[off].name) == name
      && forall i :: 0 <= i < |es| && i != off ==> fs[i] == es[i]
  }

  lemma GapFilled(es: seq<Entry>, off: nat, e: Entry)
    requires off <= |es| && (forall i :: 0 <= i < off ==> es[i].inum != 0) && (off < |es| ==> es[off].inum == 0)
    ensures InFirstGap(es, Bound(es, off, e), e.inum, Name(e.name))
  {
    assert Bound(es, off, e)[off] == e;
  }

  /** A directory without room for another entry. */
  ghost predicate FullDirectory(es: seq<Entry>) {
    |es| >= MAX_ENTRIES && forall i :: 0 <= i < |es| ==> es[i].inum != 0
  }

  /** A slot that dirlookup has just filled has not been read; any other is shared. */
  lemma FreshOrShared(c: seq<Slot>, d: seq<Slot>, i: nat)
    requires OneSlotEach(d) && i < |d| && d[i].count > 0 && (d[i].count == 1 ==> !d[i].valid)
    ensures Refs(d, d[i].dev, d[i].inum) >= 2 || !d[i].valid
  {
    SlotHasRefs(d, i);
  }

  lemma GetKeepsSettled(nodes: seq<Node>, c: seq<Slot>, d: seq<Slot>)
    requires KeepsSlots(c, d)
    ensures Settled(nodes, c) ==> Settled(nodes, d)
  {
    forall n | 0 <= n < |nodes| && InUse(c, n) ensures InUse(d, n) {
      var k :| 0 <= k < |c| && IsFor(c[k], ROOTDEV, n) && c[k].valid;
      assert IsFor(d[k], ROOTDEV, n) && d[k].valid;
    }
  }

  lemma ReadKeepsSettled(nodes: seq<Node>, c: seq<Slot>, i: nat)
    requires i < |c|
    ensures Settled(nodes, c) ==> Settled(nodes, c[i := c[i].(valid := true)])
  {
    var d := c[i := c[i].(valid := true)];
    forall n | 0 <= n < |nodes| && InUse(c, n) ensures InUse(d, n) {
      var k :| 0 <= k < |c| && IsFor(c[k], ROOTDEV, n) && c[k].valid;
      assert IsFor(d[k], ROOTDEV, n) && d[k].valid;
    }
  }

  lemma FreeKeeps(nodes: seq<Node>, n: nat)
    requires WellFormed(nodes) && n < |nodes| && nodes[n].nlink == 0
    ensures WellFormed(nodes[n := FREE_NODE]) && (Linked(nodes) ==> Linked(nodes[n := FREE_NODE]))
  {
    if Linked(nodes) {
      FreeKeepsLinked(nodes, n);
    }
  }

  /** Giving up a reference keeps the file system settled: the last one to an inode without a link frees it. */
  lemma PutKeepsSettled(nodes: seq<Node>, c: seq<Slot>, i: nat)
    requires i < |c| && c[i].count > 0 && c[i].dev == ROOTDEV && c[i].inum < |nodes| && OneSlotEach(c)
    ensures var freed := c[i].valid && nodes[c[i].inum].nlink == 0 && c[i].count == 1;
      var d := c[i := c[i].(count := c[i].count - 1, valid := c[i].valid && !freed)];
      Settled(nodes, c) ==> Settled(if freed then nodes[c[i].inum := FREE_NODE] else nodes, d)
  {
    var freed := c[i].valid && nodes[c[i].inum].nlink == 0 && c[i].count == 1;
    var d := c[i := c[i].(count := c[i].count - 1, valid := c[i].valid && !freed)];
    var ms := if freed then nodes[c[i].inum := FREE_NODE] else nodes;
    if Settled(nodes, c) {
      forall n | 0 <= n < |ms| && ms[n].typ != 0 && ms[n].nlink == 0 ensures InUse(d, n) {
        assert InUse(c, n);
        var k :| 0 <= k < |c| && IsFor(c[k], ROOTDEV, n) && c[k].valid;
        assert k != i ==> d[k] == c[k];
        assert IsFor(d[k], ROOTDEV, n) && d[k].valid;
      }
    }
  }

  /** No slot can be recycled. */
  ghost predicate AllInUse(c: seq<Slot>) {
    forall i :: 0 <= i < |c| ==> c[i].count > 0
  }

  /** The same number of references to every inode. */
  ghost predicate Same(c: seq<Slot>, d: seq<Slot>) {
    forall v, i :: Refs(d, v, i) == Refs(c, v, i)
  }

  /** Slots in use stay in use for the same inode. */
  ghost predicate KeepsSlots(c: seq<Slot>, d: seq<Slot>) {
    |d| == |c| && forall j :: 0 <= j < |c| && c[j].count > 0 ==>
      d[j] == c[j].(count := d[j].count) && d[j].count >= c[j].count
  }

  lemma Unchanged(a: seq<Slot>, b: seq<Slot>, c: seq<Slot>, dev: nat, n: nat)
    requires Counted(a, b, dev, n, 1) && Counted(b, c, dev, n, 0)
    ensures Counted(a, c, dev, n, 1)
  {
    forall v, i ensures Refs(c, v, i) == Refs(a, v, i) + if v == dev && i == n then 1 else 0 {
      assert Refs(b, v, i) == Refs(a, v, i) + if v == dev && i == n then 1 else 0;
    }
  }

  lemma BackAgain(a: seq<Slot>, b: seq<Slot>, c: seq<Slot>, dev: nat, n: nat)
    requires Counted(a, b, dev, n, 1) && Counted(b, c, dev, n, -1)
    ensures Same(a, c)
  {
    forall v, i ensures Refs(c, v, i) == Refs(a, v, i) {
      assert Refs(b, v, i) == Refs(a, v, i) + if v == dev && i == n then 1 else 0;
    }
  }

  lemma {:induction false} NotBound(es: seq<Entry>, name: seq<char>)
    requires Lookup(es, name) == None
    ensures forall j :: !Binds(es, j, name)
  {
    if es != [] {
      NotBound(es[1..], name);
      forall j ensures !Binds(es, j, name) {
        assert j > 0 ==> (Binds(es, j, name) <==> Binds(es[1..], j - 1, name));
      }
    }
  }

  lemma LinkKeepsWellFormed(nodes: seq<Node>, dn: nat, off: nat, e: Entry)
    requires WellFormed(nodes) && dn < |nodes| && off <= |nodes[dn].entries| && 0 < e.inum < |nodes|
    requires off < |nodes[dn].entries| ==> nodes[dn].entries[off].inum == 0
    requires forall j :: !Binds(nodes[dn].entries, j, Name(e.name))
    ensures WellFormed(nodes[dn := nodes[dn].(entries := Bound(nodes[dn].entries, off, e))])
  {
    LinkIsUpdate(nodes[dn].entries, off, e, Name(e.name));
    hide DistinctNames, Binds;
  }

  lemma BoundLinked(nodes: seq<Node>, es: seq<Entry>, off: nat, e: Entry)
    requires EntriesLinked(nodes, es) && off <= |es|
    requires 0 < e.inum < |nodes| && nodes[e.inum].nlink > 0 && nodes[e.inum].typ != 0
    ensures EntriesLinked(nodes, Bound(es, off, e))
  {
  }

  /** Entries stay linked when inodes keep their type and link count. */
  lemma SameLinks(nodes: seq<Node>, ms: seq<Node>, es: seq<Entry>)
    requires EntriesLinked(nodes, es) && |ms| == |nodes|
    requires forall i :: 0 <= i < |ms| ==> ms[i].nlink == nodes[i].nlink && ms[i].typ == nodes[i].typ
    ensures EntriesLinked(ms, es)
  {
  }

  /** Linking an allocated inode that has a link keeps the linked part of the tree sound. */
  lemma LinkKeepsLinked(nodes: seq<Node>, dn: nat, off: nat, e: Entry)
    requires Linked(nodes) && dn < |nodes| && off <= |nodes[dn].entries|
    requires off < |nodes[dn].entries| ==> nodes[dn].entries[off].inum == 0
    requires forall j :: !Binds(nodes[dn].entries, j, Name(e.name))
    requires 0 < e.inum < |nodes| && nodes[e.inum].nlink > 0 && nodes[e.inum].typ != 0
    ensures Linked(nodes[dn := nodes[dn].(entries := Bound(nodes[dn].entries, off, e))])
  {
    LinkKeepsWellFormed(nodes, dn, off, e);
    hide WellFormed;
    var es := nodes[dn].entries;
    var ms := nodes[dn := nodes[dn].(entries := Bound(es, off, e))];
    forall d | 0 <= d < |ms| && ms[d].nlink > 0 ensures EntriesLinked(ms, ms[d].entries) {
      assert EntriesLinked(nodes, nodes[d].entries);
      hide EntriesLinked;
      if d == dn {
        BoundLinked(nodes, es, off, e);
      }
      SameLinks(nodes, ms, ms[d].entries);
    }
  }

  /** What a new entry makes of the directory and of the tree. */
  lemma EntryAdded(nodes: seq<Node>, dn: nat, off: nat, e: Entry, name: seq<char>)
    requires WellFormed(nodes) && dn < |nodes| && off <= |nodes[dn].entries| && 0 < e.inum < |nodes|
    requires off < |nodes[dn].entries| ==> nodes[dn].entries[off].inum == 0
    requires Lookup(nodes[dn].entries, name) == None && Name(e.name) == name
    ensures var es := nodes[dn].entries;
      var ms := nodes[dn := nodes[dn].(entries := Bound(es, off, e))];
      && WellFormed(ms)
      && (Linked(nodes) && nodes[e.inum].nlink > 0 && nodes[e.inum].typ != 0 ==> Linked(ms))
      && (forall n :: Lookup(Bound(es, off, e), n) == if n == name then Some(e.inum) else Lookup(es, n))
  {
    var es := nodes[dn].entries;
    NotBound(es, name);
    LinkKeepsWellFormed(nodes, dn, off, e);
    if Linked(nodes) && nodes[e.inum].nlink > 0 && nodes[e.inum].typ != 0 {
      LinkKeepsLinked(nodes, dn, off, e);
    }
    assert DistinctNames(es);
    hide Linked, DistinctNames, Lookup, Binds, Clip;
    forall n ensures Lookup(Bound(es, off, e), n) == if n == name then Some(e.inum) else Lookup(es, n) {
      LinkIsUpdate(es, off, e, n);
    }
  }

  /** Both end in the same name. */
  ghost predicate SameLast(a: seq<seq<char>>, b: seq<seq<char>>) {
    a != [] && b != [] && a[|a| - 1] == b[|b| - 1]
  }

  lemma LastNext(name: seq<char>, rest: seq<seq<char>>)
    ensures var b := [name] + rest; b[|b| - 1] == if rest == [] then name else rest[|rest| - 1]
  {
  }

  lemma CursorMoves(path: seq<char>, p: nat, next: nat, elem: seq<char>)
    requires Cursor(path, p, true, next, elem)
    ensures p < next <= |path|
  {
  }

  /** Going on from inode `d` of `nodes` with the path from `p` on leads where the whole path leads from `d0` of
      `first`. */
  ghost predicate OnTheWay(first: seq<Node>, path: seq<char>, c: seq<Slot>, parent: bool, d0: nat, p: nat,
                           nodes: seq<Node>, d: nat) {
    && WellFormed(first) && WellFormed(nodes) && d0 < |first| && d < |nodes| && p <= |path|
    && TripFrom(first, c, d0, Elements(path), parent) == TripFrom(nodes, c, d, Elements(path[p..]), parent)
    && (Elements(path[p..]) != [] ==> SameLast(Elements(path), Elements(path[p..])))
  }

  lemma WayStart(nodes: seq<Node>, path: seq<char>, c: seq<Slot>, parent: bool, d: nat)
    requires WellFormed(nodes) && d < |nodes|
    ensures OnTheWay(nodes, path, c, parent, d, 0, nodes, d)
  {
    assert path[0..] == path;
  }

  /** One turn follows the trip by one name. */
  lemma TripTurn(nodes: seq<Node>, c: seq<Slot>, d: nat, name: seq<char>, rest: seq<seq<char>>, parent: bool,
                 after: seq<Node>, r: Found)
    requires WellFormed(nodes) && d < |nodes| && Turn(nodes, c, d, name, parent && rest == [], after, r)
    ensures var t := TripFrom(nodes, c, d, [name] + rest, parent);
      match r
      case FreeInode => t == Trip(after, NoType)
      case Absent => t == Trip(after, Missing)
      case NoSlots => true
      case Hit(_) =>
        if parent && rest == [] then t == Trip(after, Arrives(d))
        else
          var n := Lookup(nodes[d].entries, name).value;
          WellFormed(after) && n < |after| && t == TripFrom(after, c, n, rest, parent)
  {
    var names := [name] + rest;
    assert names[0] == name && names[1..] == rest;
  }

  lemma WayTurn(first: seq<Node>, path: seq<char>, c: seq<Slot>, parent: bool, d0: nat, p: nat, next: nat,
                elem: seq<char>, nodes: seq<Node>, d: nat, after: seq<Node>, r: Found)
    requires OnTheWay(first, path, c, parent, d0, p, nodes, d) && Cursor(path, p, true, next, elem)
    requires WellFormed(nodes) && d < |nodes| && Turn(nodes, c, d, Name(elem), parent && next == |path|, after, r)
    ensures WellFormed(first) && d0 < |first|
    ensures var t := TripFrom(first, c, d0, Elements(path), parent);
      match r
      case FreeInode => t == Trip(after, NoType)
      case Absent => t == Trip(after, Missing)
      case NoSlots => true
      case Hit(_) =>
        if parent && next == |path| then
          t == Trip(after, Arrives(d)) && Elements(path) != [] && elem == Elements(path)[|Elements(path)| - 1]
        else
          var n := Lookup(nodes[d].entries, Name(elem)).value;
          OnTheWay(first, path, c, parent, d0, next, after, n)
  {
    hide TripFrom, Turn, Lookup, Name, WellFormed;
    TripTurn(nodes, c, d, elem, Elements(path[next..]), parent, after, r);
    LastNext(elem, Elements(path[next..]));
  }

  lemma WayEnd(first: seq<Node>, path: seq<char>, c: seq<Slot>, parent: bool, d0: nat, p: nat, next: nat,
               elem: seq<char>, nodes: seq<Node>, d: nat)
    requires OnTheWay(first, path, c, parent, d0, p, nodes, d) && Cursor(path, p, false, next, elem)
    ensures WellFormed(first) && d0 < |first|
    ensures TripFrom(first, c, d0, Elements(path), parent) == Trip(nodes, if parent then Missing else Arrives(d))
  {
  }
}
