/**
 * The file system on the log: what a crash leaves of the files when the blocks are those of `RedoLogRuns` and a
 * call's log_writes are those `FileSystemCode` makes.
 */
module CrashFiles {
  import opened Bytes
  import opened Dinodes
  import opened FileSystem
  import opened FileSystemCode
  import opened RedoLog
  import Counting
  import Disk
  import Runs = RedoLogRuns

  // ------------------------------------------------------------ words and bytes

  /** Byte `q` of a little-endian word. */
  function ByteOf(x: int, q: nat): Byte
    decreases q
  {
    if q == 0 then x % 0x100 else ByteOf(x / 0x100, q - 1)
  }

  function BytesOf(w: Disk.Block): (r: Block)
    ensures forall o :: 0 <= o < BSIZE ==> r[o] == ByteOf(w[o / 4], o % 4)
  {
    seq(BSIZE, o requires 0 <= o < BSIZE => ByteOf(w[o / 4], o % 4))
  }

  function WordsOf(b: Block): (r: Disk.Block)
    ensures forall j :: 0 <= j < 128 ==> r[j] == Word(b, j)
  {
    seq(128, j requires 0 <= j < 128 => Word(b, j))
  }

  lemma LowByte(r: Byte, x: int, q: nat)
    ensures ByteOf(r + 0x100 * x, q) == if q == 0 then r else ByteOf(x, q - 1)
  {
  }

  lemma BytesOfWord(b: Block, j: nat, q: nat)
    requires j < 128 && q < 4
    ensures ByteOf(Word(b, j), q) == b[4 * j + q]
  {
    var b3: int := b[4 * j + 3];
    var w2 := b[4 * j + 2] + 0x100 * b3;
    var w1 := b[4 * j + 1] + 0x100 * w2;
    assert Word(b, j) == b[4 * j] + 0x100 * w1;
    LowByte(b[4 * j], w1, q);
    LowByte(b[4 * j + 3], 0, 0);
    hide ByteOf, Word;
    if q > 0 {
      LowByte(b[4 * j + 1], w2, q - 1);
      if q > 1 {
        LowByte(b[4 * j + 2], b3, q - 2);
      }
    }
  }

  lemma BytesOfWords(b: Block)
    ensures BytesOf(WordsOf(b)) == b
  {
    hide Word, ByteOf, BytesOf, WordsOf;
    forall o | 0 <= o < BSIZE ensures BytesOf(WordsOf(b))[o] == b[o] {
      BytesOfWord(b, o / 4, o % 4);
      assert o == 4 * (o / 4) + o % 4;
    }
  }

  // ------------------------------------------------- the file system on the disk

  /** mkfs's order: the log, the inode blocks, the bitmap, the data blocks. */
  ghost predicate Laid(l: Layout, sb: Super, n: nat) {
    && GoodLayout(l) && l.total == sb.size && l.start + l.size <= sb.inodestart
    && sb.inodestart + n / IPB < sb.bmapstart
    && 0 < sb.datastart <= sb.size < WORD && sb.bmapstart + (sb.size - 1) / 4096 < sb.datastart
  }

  /** The blocks as bytes; those of the log itself are left out. */
  ghost function BlocksOf(l: Layout, view: seq<Disk.Block>): (r: seq<Block>)
    ensures |r| == |view|
    ensures forall x :: 0 <= x < |view| ==> r[x] == if InLog(l, x) then Zero() else BytesOf(view[x])
  {
    seq(|view|, x requires 0 <= x < |view| => if InLog(l, x) then Zero() else BytesOf(view[x]))
  }

  /** The `n` inodes in those blocks. */
  ghost function InodesOf(sb: Super, n: nat, blocks: seq<Block>): (r: seq<Inode>)
    requires n == 0 || sb.inodestart + (n - 1) / IPB < |blocks|
    ensures |r| == n
    ensures forall i :: 0 <= i < n ==> IBlock(sb, i) < |blocks| && r[i] == InodeOf(blocks[IBlock(sb, i)], i % IPB)
  {
    if n == 0 then [] else InodesOf(sb, n - 1, blocks) + [InodeOf(blocks[IBlock(sb, n - 1)], (n - 1) % IPB)]
  }

  /** The file system that bread shows. */
  ghost function FsOf(l: Layout, sb: Super, n: nat, view: seq<Disk.Block>): (r: Fs)
    requires Laid(l, sb, n) && |view| == l.total
    ensures |r.blocks| == l.total && |r.inodes| == n
  {
    Fs(BlocksOf(l, view), InodesOf(sb, n, BlocksOf(l, view)))
  }

  lemma FsOfSame(l: Layout, sb: Super, n: nat, v: seq<Disk.Block>, w: seq<Disk.Block>)
    requires Laid(l, sb, n) && |v| == |w| == l.total
    requires forall b {:trigger w[b]} :: Home(l, b) ==> w[b] == v[b]
    ensures FsOf(l, sb, n, w) == FsOf(l, sb, n, v)
  {
    hide BytesOf, Zero;
    assert BlocksOf(l, w) == BlocksOf(l, v);
  }

  /** Inodes that are in step with their blocks are those found in the blocks. */
  lemma SyncedInodes(l: Layout, sb: Super, f: Fs, view: seq<Disk.Block>)
    requires Laid(l, sb, |f.inodes|) && |view| == l.total && Synced(sb, f) && f.blocks == BlocksOf(l, view)
    ensures f == FsOf(l, sb, |f.inodes|, view)
  {
    hide InodeOf, IBlock, BlocksOf, Laid;
    var g := FsOf(l, sb, |f.inodes|, view);
    forall i | 0 <= i < |f.inodes| ensures g.inodes[i] == f.inodes[i] {
      assert SyncedAt(sb, f, i);
    }
    assert g.inodes == f.inodes;
  }

  /** A log_write of bytes is a store of those bytes. */
  lemma StoredBytes(l: Layout, view: seq<Disk.Block>, b: nat, data: Block)
    requires b < |view| && !InLog(l, b)
    ensures BlocksOf(l, view[b := WordsOf(data)]) == BlocksOf(l, view)[b := data]
  {
    BytesOfWords(data);
    hide BytesOf, WordsOf, Zero;
  }

  // --------------------------------------------------------------- whole files

  /** Crash at any point of any run, crash again while recovering, and let recovery finish: inodes and blocks, and so
      every file, are as they were at one moment before the crash at which no call was running. */
  lemma FilesSurvive(l: Layout, sb: Super, n: nat, boot: seq<Disk.Block>, states: seq<Runs.Sys>,
                     evs: seq<Runs.Event>, i: nat, k: nat) returns (j: nat)
    requires Runs.Run(l, boot, states, evs) && Runs.RecoveryOnly(evs, i, k) && k < |evs| && evs[k].RecoverDone?
    requires Laid(l, sb, n)
    ensures j <= i && Runs.Quiet(states[j])
    ensures |states[j].view| == |states[k + 1].view| == l.total
    ensures FsOf(l, sb, n, states[k + 1].view) == FsOf(l, sb, n, states[j].view)
  {
    j := Runs.RecoversAMoment(l, boot, states, evs, i, k);
    assert Runs.Fits(l, states[j]) && Runs.Fits(l, states[k + 1]);
    hide Runs.Step, Runs.Enabled, Runs.Run;
    FsOfSame(l, sb, n, states[j].view, states[k + 1].view);
  }

  // ------------------------------------------------------------------ one call

  /** Event `q` after begin_op of a call that makes the log_writes `st`. */
  ghost predicate Follows(ev: Runs.Event, q: nat, op: nat, st: seq<Stored>) {
    if q < |st| then ev == Runs.LogWrite(op, st[q].bno, WordsOf(st[q].data))
    else if q == |st| then ev == Runs.End(op)
    else ev.CommitIO? || ev.CommitDone?
  }

  /** From begin_op at event `a` up to the crash at event `i` there is one call, with the log_writes `st`, and its
      commit. The crash may come anywhere in between. */
  ghost predicate Alone(evs: seq<Runs.Event>, a: nat, i: nat, op: nat, st: seq<Stored>) {
    && a < i < |evs| && evs[a] == Runs.Begin(op) && evs[i].Crash?
    && forall m :: a < m < i ==> Follows(evs[m], m - a - 1, op, st)
  }

  /** commit() has written the header between the events `a` and `i`. */
  ghost predicate HeaderWritten(states: seq<Runs.Sys>, evs: seq<Runs.Event>, a: nat, i: nat)
    requires i <= |evs| <= |states|
  {
    exists m :: a < m < i && HeaderWrite(states[m], evs[m])
  }

  ghost predicate HeaderWrite(s: Runs.Sys, ev: Runs.Event) {
    ev.CommitIO? && s.phase.Committing? && s.phase.pc == |s.lh|
  }

  /** State `t` of a run, where the only call since `s` has made the log_writes `st`. */
  ghost predicate During(l: Layout, s: Runs.Sys, t: Runs.Sys, op: nat, st: seq<Stored>) {
    && t.durable == s.durable == |s.hist| <= |t.hist| && t.hist[..s.durable] == s.hist
    && (t.phase.Running? || t.phase.Panicked?)
    && (t.phase.Running? ==> Logged(l, s, t, op, st))
  }

  /** The blocks it has added to the log are among those it has logged, and bread shows what it has stored. */
  ghost predicate Logged(l: Layout, s: Runs.Sys, t: Runs.Sys, op: nat, st: seq<Stored>) {
    && t.active == map[op := |t.lh|] && t.outstanding == 1 && |t.hist| == |s.hist| + |st|
    && (forall b :: b in t.lh ==> b >= 0 && b in Touched(st))
    && |t.view| == |s.view| == l.total && BlocksOf(l, t.view) == Played(BlocksOf(l, s.view), st)
  }

  lemma CallBegun(l: Layout, boot: seq<Disk.Block>, s: Runs.Sys, op: nat)
    requires Runs.Inv(l, boot, s) && Runs.NothingPending(s) && s.phase.Running? && s.active == map[]
    requires Runs.Enabled(l, s, Runs.Begin(op))
    ensures Runs.Step(l, s, Runs.Begin(op)).phase.Running?
    ensures During(l, s, Runs.Step(l, s, Runs.Begin(op)), op, [])
  {
    hide Runs.Enabled, Runs.Step, During, Runs.PhaseInv, Runs.Recoverable;
    CallBegins(l, s, op);
  }

  lemma CallBegins(l: Layout, s: Runs.Sys, op: nat)
    requires Runs.Fits(l, s) && Runs.Enabled(l, s, Runs.Begin(op)) && s.active == map[] && s.outstanding == 0
    requires s.lh == [] && s.durable == |s.hist|
    ensures Runs.Step(l, s, Runs.Begin(op)).phase.Running?
    ensures During(l, s, Runs.Step(l, s, Runs.Begin(op)), op, [])
  {
  }

  lemma MorePlayed(l: Layout, was: seq<Disk.Block>, view: seq<Disk.Block>, st: seq<Stored>, x: Stored)
    requires |was| == |view| == l.total && x.bno < l.total && !InLog(l, x.bno)
    requires BlocksOf(l, view) == Played(BlocksOf(l, was), st)
    ensures BlocksOf(l, view[x.bno := WordsOf(x.data)]) == Played(BlocksOf(l, was), st + [x])
  {
    PlayedSnoc(BlocksOf(l, was), st, x);
    StoredBytes(l, view, x.bno, x.data);
    hide BlocksOf, Played, WordsOf;
  }

  lemma MoreTouched(lh: seq<int>, st: seq<Stored>, x: Stored)
    requires forall b :: b in lh ==> b >= 0 && b in Touched(st)
    ensures forall b :: b in Absorb(lh, x.bno) ==> b >= 0 && b in Touched(st + [x])
  {
    assert (st + [x])[..|st + [x]| - 1] == st;
  }

  lemma MoreActive(lh: seq<int>, active: map<nat, nat>, op: nat, b: int)
    requires active == map[op := |lh|]
    ensures op in active && active[op := active[op] + if b in lh then 0 else 1] == map[op := |Absorb(lh, b)|]
  {
  }

  lemma CallLogged(l: Layout, s: Runs.Sys, t: Runs.Sys, op: nat, st: seq<Stored>, x: Stored, r: Runs.Rec)
    requires Runs.Fits(l, t) && Logged(l, s, t, op, st) && x.bno < l.total && !InLog(l, x.bno)
    ensures op in t.active
    ensures Logged(l, s, t.(view := t.view[x.bno := WordsOf(x.data)], lh := Absorb(t.lh, x.bno), hist := t.hist + [r],
                            active := t.active[op := t.active[op] + if x.bno in t.lh then 0 else 1]), op, st + [x])
  {
    hide BlocksOf, Played, Touched, WordsOf, Runs.Fits, Absorb, InLog;
    MorePlayed(l, s.view, t.view, st, x);
    MoreTouched(t.lh, st, x);
    MoreActive(t.lh, t.active, op, x.bno);
  }

  lemma CallLogs(l: Layout, s: Runs.Sys, t: Runs.Sys, op: nat, st: seq<Stored>, x: Stored)
    requires Runs.Fits(l, t) && During(l, s, t, op, st)
    requires Runs.Enabled(l, t, Runs.LogWrite(op, x.bno, WordsOf(x.data)))
    ensures During(l, s, Runs.Step(l, t, Runs.LogWrite(op, x.bno, WordsOf(x.data))), op, st + [x])
  {
    assert t.phase.Running? && x.bno < l.total && !InLog(l, x.bno);
    var r := Runs.Rec(op, x.bno, WordsOf(x.data));
    assert (t.hist + [r])[..s.durable] == t.hist[..s.durable];
    hide Logged, WordsOf, Runs.Fits, Absorb, Runs.TooBig, InLog;
    CallLogged(l, s, t, op, st, x, r);
  }

  lemma LogGoesOn(l: Layout, t: Runs.Sys, ev: Runs.Event)
    requires Runs.Fits(l, t) && ev.LogWrite? && Runs.Enabled(l, t, ev) && t.phase.Running?
    requires |t.lh| < Capacity(l) && t.outstanding == 1
    ensures Runs.Step(l, t, ev).phase.Running?
  {
  }

  /** The call so far, after `q` of its log_writes. */
  lemma {:induction false} CallSoFar(l: Layout, boot: seq<Disk.Block>, states: seq<Runs.Sys>, evs: seq<Runs.Event>,
                                     a: nat, i: nat, op: nat, st: seq<Stored>, q: nat)
    requires Runs.Run(l, boot, states, evs) && Alone(evs, a, i, op, st) && q <= |st| && a + 1 + q <= i
    requires states[a].phase.Running? && states[a].active == map[]
    ensures During(l, states[a], states[a + 1 + q], op, st[..q])
  {
    hide Runs.Step, Runs.Enabled, During, Runs.Fits, WordsOf;
    if q == 0 {
      Runs.RunInv(l, boot, states, evs, a);
      Runs.RunPending(l, boot, states, evs, a);
      CallBegun(l, boot, states[a], op);
    } else {
      CallSoFar(l, boot, states, evs, a, i, op, st, q - 1);
      assert Follows(evs[a + q], q - 1, op, st);
      assert Runs.Enabled(l, states[a + q], evs[a + q]);
      CallLogs(l, states[a], states[a + q], op, st[..q - 1], st[q - 1]);
      assert st[..q - 1] + [st[q - 1]] == st[..q];
    }
  }

  /** No call logs more blocks than it stores into. */
  lemma CallLogsFew(l: Layout, boot: seq<Disk.Block>, s: Runs.Sys, t: Runs.Sys, op: nat, st: seq<Stored>)
    requires Runs.Inv(l, boot, t) && Logged(l, s, t, op, st)
    ensures |t.lh| <= |Touched(st)|
  {
    hide Touched;
    ListSize(t.lh, Touched(st));
  }

  lemma {:induction false} ListSize(lh: seq<int>, b: set<nat>)
    requires Counting.Distinct(lh) && forall q :: 0 <= q < |lh| ==> lh[q] >= 0 && lh[q] in b
    ensures |lh| <= |b|
  {
    if lh != [] {
      var m := |lh| - 1;
      assert forall q :: 0 <= q < m ==> lh[..m][q] == lh[q] != lh[m];
      ListSize(lh[..m], b - {lh[m]});
    }
  }

  lemma {:induction false} TouchedSoFar(st: seq<Stored>, q: nat)
    requires q <= |st|
    ensures Touched(st[..q]) <= Touched(st)
    decreases |st|
  {
    if q < |st| {
      TouchedSoFar(st[..|st| - 1], q);
      assert st[..|st| - 1][..q] == st[..q];
    } else {
      assert st[..q] == st;
    }
  }

  lemma LogGoesOnDuring(l: Layout, boot: seq<Disk.Block>, s: Runs.Sys, t: Runs.Sys, op: nat, st: seq<Stored>,
                        ev: Runs.Event)
    requires Runs.Inv(l, boot, t) && During(l, s, t, op, st) && t.phase.Running? && ev.LogWrite?
    requires Runs.Enabled(l, t, ev) && |Touched(st)| < Capacity(l)
    ensures Runs.Step(l, t, ev).phase.Running?
  {
    hide Runs.Enabled, Runs.Step, Capacity, Touched, Runs.PhaseInv, Runs.Recoverable, BlocksOf, Played;
    CallLogsFew(l, boot, s, t, op, st);
    LogGoesOn(l, t, ev);
  }

  lemma TouchedBelow(st: seq<Stored>, q: nat)
    requires q <= |st|
    ensures |Touched(st[..q])| <= |Touched(st)|
  {
    TouchedSoFar(st, q);
    Counting.SubsetCount(Touched(st[..q]), Touched(st));
  }

  /** A call that runs alone and logs at most MAXOPBLOCKS blocks never meets log_write's panic, if the log has more
      slots than that. */
  lemma {:induction false} CallNeverPanics(l: Layout, boot: seq<Disk.Block>, states: seq<Runs.Sys>,
                                           evs: seq<Runs.Event>, a: nat, i: nat, op: nat, st: seq<Stored>, q: nat)
    requires Runs.Run(l, boot, states, evs) && Alone(evs, a, i, op, st) && q <= |st| && a + 1 + q <= i
    requires states[a].phase.Running? && states[a].active == map[]
    requires |Touched(st)| <= MAXOPBLOCKS < Capacity(l)
    ensures states[a + 1 + q].phase.Running?
  {
    hide Runs.Step, Runs.Enabled, Runs.Fits, WordsOf, Runs.Inv, Touched, During, Capacity;
    if q == 0 {
      Runs.RunInv(l, boot, states, evs, a);
      Runs.RunPending(l, boot, states, evs, a);
      CallBegun(l, boot, states[a], op);
    } else {
      CallNeverPanics(l, boot, states, evs, a, i, op, st, q - 1);
      CallSoFar(l, boot, states, evs, a, i, op, st, q - 1);
      Runs.RunInv(l, boot, states, evs, a + q);
      TouchedBelow(st, q - 1);
      assert Follows(evs[a + q], q - 1, op, st) && Runs.Enabled(l, states[a + q], evs[a + q]);
      LogGoesOnDuring(l, boot, states[a], states[a + q], op, st[..q - 1], evs[a + q]);
    }
  }

  /** State `t` after the call has ended in state `e`: its commit is under way or over. */
  ghost predicate After(s: Runs.Sys, e: Runs.Sys, t: Runs.Sys, header: bool) {
    && (t.phase.Running? || t.phase.Committing?) && t.active == map[] && t.hist == e.hist
    && t.durable == if header then |e.hist| else |s.hist|
  }

  lemma CallEnds(l: Layout, s: Runs.Sys, e: Runs.Sys, op: nat, st: seq<Stored>)
    requires Runs.Fits(l, e) && During(l, s, e, op, st) && Runs.Enabled(l, e, Runs.End(op))
    ensures e.phase.Running? && After(s, e, Runs.Step(l, e, Runs.End(op)), false)
  {
    assert e.active - {op} == map[];
  }

  lemma CommitGoesOn(l: Layout, boot: seq<Disk.Block>, s: Runs.Sys, e: Runs.Sys, t: Runs.Sys, header: bool,
                     ev: Runs.Event)
    requires Runs.Inv(l, boot, t) && Runs.Enabled(l, t, ev) && (ev.CommitIO? || ev.CommitDone?)
    requires After(s, e, t, header)
    ensures After(s, e, Runs.Step(l, t, ev), header || HeaderWrite(t, ev))
  {
    hide Runs.Inv;
  }

  lemma {:induction false} CallOver(l: Layout, boot: seq<Disk.Block>, states: seq<Runs.Sys>, evs: seq<Runs.Event>,
                                    a: nat, i: nat, op: nat, st: seq<Stored>, m: nat)
    requires Runs.Run(l, boot, states, evs) && Alone(evs, a, i, op, st) && a + 1 + |st| < m <= i
    requires states[a].phase.Running? && states[a].active == map[]
    ensures states[a + 1 + |st|].phase.Running?
    ensures After(states[a], states[a + 1 + |st|], states[m], HeaderWritten(states, evs, a, m))
  {
    hide Runs.Step, Runs.Enabled, During, Runs.Fits, WordsOf, Runs.Inv, HeaderWrite, After;
    assert Follows(evs[m - 1], m - 2 - a, op, st) && Runs.Enabled(l, states[m - 1], evs[m - 1]);
    NextHeader(states, evs, a, m);
    if m == a + 2 + |st| {
      CallSoFar(l, boot, states, evs, a, i, op, st, |st|);
      CallEnds(l, states[a], states[m - 1], op, st[..|st|]);
      NoHeaderYet(states, evs, a, i, op, st, m);
    } else {
      CallOver(l, boot, states, evs, a, i, op, st, m - 1);
      Runs.RunInv(l, boot, states, evs, m - 1);
      CommitGoesOn(l, boot, states[a], states[a + 1 + |st|], states[m - 1], HeaderWritten(states, evs, a, m - 1),
                   evs[m - 1]);
    }
  }

  lemma NextHeader(states: seq<Runs.Sys>, evs: seq<Runs.Event>, a: nat, m: nat)
    requires a + 1 < m <= |evs| <= |states|
    ensures HeaderWritten(states, evs, a, m)
       <==> HeaderWritten(states, evs, a, m - 1) || HeaderWrite(states[m - 1], evs[m - 1])
  {
    hide HeaderWrite;
  }

  lemma NoHeaderYet(states: seq<Runs.Sys>, evs: seq<Runs.Event>, a: nat, i: nat, op: nat, st: seq<Stored>, m: nat)
    requires Alone(evs, a, i, op, st) && m <= i && m <= a + 2 + |st| && |evs| <= |states|
    ensures !HeaderWritten(states, evs, a, m)
  {
    forall q | a < q < m ensures !HeaderWrite(states[q], evs[q]) {
      assert Follows(evs[q], q - a - 1, op, st);
    }
  }

  /** Once end_op has returned the header has been written, so a crash keeps the call. */
  lemma EndedIsKept(l: Layout, boot: seq<Disk.Block>, states: seq<Runs.Sys>, evs: seq<Runs.Event>,
                    a: nat, i: nat, op: nat, st: seq<Stored>)
    requires Runs.Run(l, boot, states, evs) && Alone(evs, a, i, op, st) && st != []
    requires states[a].phase.Running? && states[a].active == map[]
    requires a + 1 + |st| < i && states[i].phase.Running?
    ensures HeaderWritten(states, evs, a, i)
  {
    CallSoFar(l, boot, states, evs, a, i, op, st, |st|);
    CallOver(l, boot, states, evs, a, i, op, st, i);
    Runs.RunPending(l, boot, states, evs, i);
    assert st[..|st|] == st;
    hide Runs.Run, Alone, HeaderWritten, BlocksOf, Played, Touched;
  }

  /** What is durable when the crash comes. */
  lemma DurableAtCrash(l: Layout, boot: seq<Disk.Block>, states: seq<Runs.Sys>, evs: seq<Runs.Event>,
                       a: nat, i: nat, op: nat, st: seq<Stored>)
    requires Runs.Run(l, boot, states, evs) && Alone(evs, a, i, op, st)
    requires states[a].phase.Running? && states[a].active == map[]
    ensures states[i].durable <= |states[i].hist|
    ensures var e, durable := a + 1 + |st|, states[i].hist[..states[i].durable];
      if HeaderWritten(states, evs, a, i)
      then e < i && durable == states[e].hist && Logged(l, states[a], states[e], op, st) && states[e].phase.Running?
      else durable == states[a].hist
  {
    hide Runs.Step, Runs.Enabled, Runs.Fits, WordsOf, HeaderWritten, Logged, Runs.Inv;
    if i <= a + 1 + |st| {
      CallSoFar(l, boot, states, evs, a, i, op, st, i - a - 1);
      NoHeaderYet(states, evs, a, i, op, st, i);
    } else {
      CallSoFar(l, boot, states, evs, a, i, op, st, |st|);
      assert st[..|st|] == st;
      CallOver(l, boot, states, evs, a, i, op, st, i);
    }
  }

  /** Two views of the same log_writes show the same file system. */
  lemma ShowsSame(l: Layout, sb: Super, n: nat, boot: seq<Disk.Block>, hist: seq<Runs.Rec>, v: seq<Disk.Block>,
                  w: seq<Disk.Block>)
    requires Laid(l, sb, n) && |v| == |w| == |boot| == l.total
    requires Runs.Shows(l, v, boot, hist) && Runs.Shows(l, w, boot, hist)
    ensures FsOf(l, sb, n, w) == FsOf(l, sb, n, v)
  {
    forall b | Home(l, b) ensures w[b] == v[b] {
      assert v[b] == Runs.Replay(boot, hist)[b];
    }
    FsOfSame(l, sb, n, v, w);
  }

  lemma RunningShows(l: Layout, boot: seq<Disk.Block>, s: Runs.Sys)
    requires Runs.Inv(l, boot, s) && s.phase.Running?
    ensures |s.view| == |boot| == l.total && Runs.Shows(l, s.view, boot, s.hist)
  {
  }

  lemma AfterCall(l: Layout, sb: Super, s: Runs.Sys, e: Runs.Sys, op: nat, c: Call)
    requires Logged(l, s, e, op, c.stores) && Transaction(sb, c) && Laid(l, sb, |c.before.inodes|)
    requires c.before == FsOf(l, sb, |c.before.inodes|, s.view)
    ensures |e.view| == l.total && c.after == FsOf(l, sb, |c.before.inodes|, e.view)
  {
    hide Good, Synced, Laid, BlocksOf, Played, Touched;
    SyncedInodes(l, sb, c.after, e.view);
  }

  /** The same, for the view after recovery. */
  lemma RecoveredView(l: Layout, boot: seq<Disk.Block>, states: seq<Runs.Sys>, evs: seq<Runs.Event>,
                      a: nat, i: nat, k: nat, op: nat, st: seq<Stored>) returns (from: nat)
    requires Runs.Run(l, boot, states, evs) && Alone(evs, a, i, op, st)
    requires states[a].phase.Running? && states[a].active == map[]
    requires Runs.RecoveryOnly(evs, i, k) && k < |evs| && evs[k].RecoverDone?
    ensures from < |states| && |states[from].view| == |states[k + 1].view| == |boot| == l.total
    ensures Runs.Shows(l, states[from].view, boot, states[from].hist)
    ensures Runs.Shows(l, states[k + 1].view, boot, states[from].hist)
    ensures if HeaderWritten(states, evs, a, i)
      then from == a + 1 + |st| && Logged(l, states[a], states[from], op, st) else from == a
  {
    assert |states| == |evs| + 1 && a < i < |evs|;
    hide Runs.Run, Runs.Inv, Runs.Step, Runs.Enabled, Alone, HeaderWritten, Logged, Runs.Replay, Runs.Shows, Head;
    DurableAtCrash(l, boot, states, evs, a, i, op, st);
    from := if HeaderWritten(states, evs, a, i) then a + 1 + |st| else a;
    Runs.RunInv(l, boot, states, evs, from);
    RunningShows(l, boot, states[from]);
    Runs.RunInv(l, boot, states, evs, k + 1);
    Runs.CrashAtomicity(l, boot, states, evs, i, k);
    RunningShows(l, boot, states[k + 1]);
  }

  /** A call of the file system and a crash: after recovery the disk holds the file system from before the call or
      the one after it, and it is the one after it exactly if commit() had written the header. */
  lemma CallIsAllOrNothing(l: Layout, sb: Super, boot: seq<Disk.Block>, states: seq<Runs.Sys>, evs: seq<Runs.Event>,
                           a: nat, i: nat, k: nat, op: nat, c: Call)
    requires Runs.Run(l, boot, states, evs) && Alone(evs, a, i, op, c.stores)
    requires states[a].phase.Running? && states[a].active == map[]
    requires Runs.RecoveryOnly(evs, i, k) && k < |evs| && evs[k].RecoverDone?
    requires Transaction(sb, c) && Laid(l, sb, |c.before.inodes|) && |states[a].view| == |states[k + 1].view| == l.total
    requires c.before == FsOf(l, sb, |c.before.inodes|, states[a].view)
    ensures FsOf(l, sb, |c.before.inodes|, states[k + 1].view)
         == if HeaderWritten(states, evs, a, i) then c.after else c.before
  {
    var from := RecoveredView(l, boot, states, evs, a, i, k, op, c.stores);
    var n, v, hist := |c.before.inodes|, states[from].view, states[from].hist;
    hide *;
    ShowsSame(l, sb, n, boot, hist, v, states[k + 1].view);
    if HeaderWritten(states, evs, a, i) {
      AfterCall(l, sb, states[a], states[from], op, c);
    }
  }

  /** The m-th call of a filewrite starts from a file that has the first m chunks. */
  lemma PrefixBefore(sb: Super, f: Fs, g: Fs, x: nat, c: seq<Byte>, off: nat, src: seq<Byte>, done: nat,
                     calls: seq<Call>, m: nat)
    requires Good(sb, f) && x < |f.inodes| && FileIs(sb, f, x, c)
    requires Sofar(sb, f, g, x, c, off, src, done, calls) && m < |calls|
    ensures Transaction(sb, calls[m]) && |calls[m].before.inodes| == |f.inodes|
    ensures HasPrefix(sb, f, calls[m].before, x, c, off, src, m)
    ensures HasPrefix(sb, f, calls[m].after, x, c, off, src, m + 1)
  {
    hide Good, FileIs, Transaction, Spliced, Least;
    if m == 0 {
      FirstChunkAhead(sb, f, g, x, c, off, src, done, calls);
    } else {
      assert calls[m - 1].after == calls[m].before;
      assert HasPrefix(sb, f, calls[m - 1].after, x, c, off, src, m);
    }
  }

  lemma FirstChunkAhead(sb: Super, f: Fs, g: Fs, x: nat, c: seq<Byte>, off: nat, src: seq<Byte>, done: nat,
                        calls: seq<Call>)
    requires Good(sb, f) && x < |f.inodes| && FileIs(sb, f, x, c)
    requires Sofar(sb, f, g, x, c, off, src, done, calls) && |calls| > 0
    ensures calls[0].before == f && HasPrefix(sb, f, f, x, c, off, src, 0)
  {
    hide Good, FileIs, Transaction, Spliced;
    assert src[..0] == [] && off <= |c|;
    SplicedNothing(c, off);
  }

  /** Crash in the m-th call of a filewrite: after recovery file `x` has the first m chunks of what was to be written,
      or the first m + 1, and no other file has changed. */
  lemma CrashInFileWrite(l: Layout, sb: Super, boot: seq<Disk.Block>, states: seq<Runs.Sys>, evs: seq<Runs.Event>,
                         a: nat, i: nat, k: nat, op: nat, f: Fs, g: Fs, x: nat, c: seq<Byte>, off: nat,
                         src: seq<Byte>, done: nat, calls: seq<Call>, m: nat)
    requires Good(sb, f) && x < |f.inodes| && FileIs(sb, f, x, c)
    requires Sofar(sb, f, g, x, c, off, src, done, calls) && m < |calls|
    requires Runs.Run(l, boot, states, evs) && Alone(evs, a, i, op, calls[m].stores)
    requires states[a].phase.Running? && states[a].active == map[]
    requires Runs.RecoveryOnly(evs, i, k) && k < |evs| && evs[k].RecoverDone?
    requires Laid(l, sb, |f.inodes|) && |states[a].view| == |states[k + 1].view| == l.total
    requires calls[m].before == FsOf(l, sb, |f.inodes|, states[a].view)
    ensures HasPrefix(sb, f, FsOf(l, sb, |f.inodes|, states[k + 1].view), x, c, off, src,
                      if HeaderWritten(states, evs, a, i) then m + 1 else m)
  {
    hide *;
    PrefixBefore(sb, f, g, x, c, off, src, done, calls, m);
    CallIsAllOrNothing(l, sb, boot, states, evs, a, i, k, op, calls[m]);
  }
}
