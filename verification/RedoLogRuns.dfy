/**
 * Runs of file system calls over the log: begin_op, log_write and end_op of any
 * number of calls interleaved, the disk writes of commit() and of recovery one
 * by one, and a crash between any two of them.
 */
module RedoLogRuns {
  import opened Disk
  import opened RedoLog
  import Counting

  datatype Phase =
    | Running
    | Committing(pc: nat)   // commit() has done `pc` writes
    | Recovering(pc: nat)   // recover_from_log() has done `pc` writes
    | Panicked

  /** One log_write: call `op` recorded `data` as the contents of block `bno`. */
  datatype Rec = Rec(op: nat, bno: nat, data: Block)

  /**
   * `view` is what bread returns for each block, `lh` the in-memory header and
   * `active` the calls between begin_op and end_op with the number of blocks
   * each has added to `lh`. `hist` lists the log_writes that recovery or a later
   * call can still see, of which the first `durable` have reached the header.
   */
  datatype Sys = Sys(
    disk: seq<Block>, view: seq<Block>, lh: seq<int>, outstanding: int, active: map<nat, nat>,
    phase: Phase, hist: seq<Rec>, durable: nat)

  datatype Event =
    | Begin(op: nat)
    | LogWrite(op: nat, bno: nat, data: Block)
    | End(op: nat)
    | CommitIO
    | CommitDone
    | Crash
    | RecoverIO
    | RecoverDone

  // -------------------------------------------------------------------- steps

  predicate Fits(l: Layout, s: Sys) {
    && GoodLayout(l) && |s.disk| == |s.view| == l.total
    && |s.lh| <= Capacity(l) && AllHome(l, s.lh)
    && s.durable <= |s.hist|
    && 0 <= s.disk[l.start][0] <= LOGSIZE
  }

  /** When an event can happen. A call logs and ends only after it has begun, and
      begin_op sleeps while a commit runs or the log might run out of space. */
  predicate Enabled(l: Layout, s: Sys, ev: Event)
    requires Fits(l, s)
  {
    match ev
    case Begin(op) =>
      && s.phase.Running? && op !in s.active && (forall i :: 0 <= i < |s.hist| ==> s.hist[i].op != op)
      && |s.lh| + (s.outstanding + 1) * MAXOPBLOCKS <= LOGSIZE
    case LogWrite(op, bno, data) => (s.phase.Running? || s.phase.Committing?) && op in s.active && Home(l, bno)
    case End(op) => (s.phase.Running? || s.phase.Committing?) && op in s.active
    case CommitIO => s.phase.Committing? && |s.lh| > 0 && s.phase.pc <= 2 * |s.lh| + 1
    case CommitDone => s.phase.Committing? && (|s.lh| == 0 || s.phase.pc == 2 * |s.lh| + 2)
    case Crash => AllHome(l, Head(l, s.disk)) && |Head(l, s.disk)| <= Capacity(l)
    case RecoverIO => s.phase.Recovering? && s.phase.pc <= |s.lh|
    case RecoverDone => s.phase.Recovering? && s.phase.pc == |s.lh| + 1
  }

  /** log_write's test, made before it looks whether the block is already logged. */
  predicate TooBig(l: Layout, s: Sys) {
    |s.lh| >= LOGSIZE || |s.lh| >= l.size - 1
  }

  function Perform(s: Sys, w: Write): (r: Sys)
    requires w.bno < |s.disk| && w.bno < |s.view|
  {
    s.(disk := s.disk[w.bno := w.data], view := s.view[w.bno := w.data])
  }

  function Step(l: Layout, s: Sys, ev: Event): (t: Sys)
    requires Fits(l, s) && Enabled(l, s, ev)
  {
    match ev
    case Begin(op) => s.(outstanding := s.outstanding + 1, active := s.active[op := 0])
    case LogWrite(op, bno, data) =>
      if TooBig(l, s) || s.outstanding < 1 then s.(phase := Panicked)
      else s.(view := s.view[bno := data],
              lh := Absorb(s.lh, bno),
              active := s.active[op := s.active[op] + if bno in s.lh then 0 else 1],
              hist := s.hist + [Rec(op, bno, data)])
    case End(op) =>
      var s' := s.(outstanding := s.outstanding - 1, active := s.active - {op});
      if s.phase.Committing? then s'.(phase := Panicked)
      else if s'.outstanding == 0 then s'.(phase := Committing(0))
      else s'
    case CommitIO =>
      var t := Perform(s, CommitWrite(l, s.disk, s.view, s.lh, s.phase.pc));
      t.(phase := Committing(s.phase.pc + 1), durable := if s.phase.pc == |s.lh| then |s.hist| else s.durable)
    case CommitDone => s.(phase := Running, lh := [])
    case Crash =>
      s.(phase := Recovering(0), view := s.disk, lh := Head(l, s.disk),
         outstanding := 0, active := map[], hist := s.hist[..s.durable])
    case RecoverIO =>
      Perform(s, RecoverWrite(l, s.disk, s.lh, s.phase.pc)).(phase := Recovering(s.phase.pc + 1))
    case RecoverDone => s.(phase := Running, lh := [])
  }

  // ---------------------------------------------------------------- invariant

  /** The disk a sequence of log_writes describes. */
  ghost function Replay(boot: seq<Block>, hist: seq<Rec>): (r: seq<Block>)
    ensures |r| == |boot|
  {
    if hist == [] then boot
    else
      var r, x := Replay(boot, hist[..|hist| - 1]), hist[|hist| - 1];
      if x.bno < |boot| then r[x.bno := x.data] else r
  }

  /** On home blocks `d` is what `hist` describes. */
  ghost predicate Shows(l: Layout, d: seq<Block>, boot: seq<Block>, hist: seq<Rec>)
    requires |d| == |boot| == l.total
  {
    forall b {:trigger d[b]} :: Home(l, b) ==> d[b] == Replay(boot, hist)[b]
  }

  /** The slots [0, k) hold the new contents of the blocks in `lh`. */
  ghost predicate Logged(l: Layout, s: Sys, k: nat)
    requires Fits(l, s) && k <= |s.lh|
  {
    forall i :: 0 <= i < k ==> s.disk[l.start + 1 + i] == s.view[s.lh[i]]
  }

  ghost predicate Installed(l: Layout, s: Sys, k: nat)
    requires Fits(l, s) && k <= |s.lh|
  {
    forall i :: 0 <= i < k ==> s.disk[s.lh[i]] == s.view[s.lh[i]]
  }

  /** Blocks no call has logged are the same in the cache and on the disk. */
  ghost predicate CleanElsewhere(l: Layout, s: Sys)
    requires Fits(l, s)
  {
    forall b {:trigger s.disk[b]} :: Home(l, b) && b !in s.lh ==> s.view[b] == s.disk[b]
  }

  /** The calls whose records are durable and the later ones are not the same. */
  ghost predicate Grouped(s: Sys) {
    && s.durable <= |s.hist|
    && (forall i, j :: 0 <= i < s.durable <= j < |s.hist| ==> s.hist[i].op != s.hist[j].op)
    && (forall i :: 0 <= i < s.durable ==> s.hist[i].op !in s.active)
  }

  ghost predicate PhaseInv(l: Layout, boot: seq<Block>, s: Sys)
    requires Fits(l, s) && |boot| == l.total
  {
    var n := |s.lh|;
    match s.phase
    case Running =>
      Head(l, s.disk) == [] && Shows(l, s.view, boot, s.hist) && CleanElsewhere(l, s)
    case Committing(pc) =>
      && s.active == map[] && s.outstanding == 0 && pc <= 2 * n + 2 && (n == 0 ==> pc == 0)
      && Shows(l, s.view, boot, s.hist) && CleanElsewhere(l, s)
      && (pc <= n ==> Head(l, s.disk) == [] && Logged(l, s, pc))
      && (n < pc <= 2 * n + 1 ==> Head(l, s.disk) == s.lh && Logged(l, s, n) && Installed(l, s, pc - n - 1))
      && (pc == 2 * n + 2 ==> Head(l, s.disk) == [] && Installed(l, s, n))
      && (pc > n ==> s.durable == |s.hist|)
    case Recovering(pc) =>
      && s.active == map[] && s.outstanding == 0 && pc <= n + 1
      && s.view == s.disk && s.durable == |s.hist|
      && (pc <= n ==> Head(l, s.disk) == s.lh && Logged(l, s, pc))
      && (pc == n + 1 ==> Head(l, s.disk) == [])
    case Panicked => true
  }

  /** Whatever happens next, recovery yields exactly the durable log_writes. */
  ghost predicate Recoverable(l: Layout, boot: seq<Block>, s: Sys)
    requires Fits(l, s) && |boot| == l.total
  {
    GoodDisk(l, s.disk) && forall b {:trigger LogicalAt(l, s.disk, b)} :: Home(l, b) ==>
      LogicalAt(l, s.disk, b) == Replay(boot, s.hist[..s.durable])[b]
  }

  ghost predicate Inv(l: Layout, boot: seq<Block>, s: Sys) {
    && Fits(l, s) && |boot| == l.total
    && GoodList(l, s.lh)
    && s.outstanding == |s.active|
    && Grouped(s)
    && PhaseInv(l, boot, s)
    && Recoverable(l, boot, s)
  }

  // ------------------------------------------------------ every step keeps Inv

  lemma ReplaySnoc(boot: seq<Block>, hist: seq<Rec>, x: Rec)
    requires x.bno < |boot|
    ensures Replay(boot, hist + [x]) == Replay(boot, hist)[x.bno := x.data]
  {
    assert (hist + [x])[..|hist + [x]| - 1] == hist;
  }

  lemma BeginKeepsInv(l: Layout, boot: seq<Block>, s: Sys, op: nat)
    requires Inv(l, boot, s) && Enabled(l, s, Begin(op))
    ensures Inv(l, boot, Step(l, s, Begin(op)))
  {
    assert s.active[op := 0].Keys == s.active.Keys + {op};
  }

  lemma LogWriteKeepsInv(l: Layout, boot: seq<Block>, s: Sys, ev: Event)
    requires Inv(l, boot, s) && ev.LogWrite? && Enabled(l, s, ev)
    ensures Inv(l, boot, Step(l, s, ev))
  {
    hide LogicalAt, Replay, DecodeHead, EncodeHead;
    var t := Step(l, s, ev);
    if !t.phase.Panicked? {
      assert s.phase.Running?;
      ReplaySnoc(boot, s.hist, Rec(ev.op, ev.bno, ev.data));
      assert t.hist[..t.durable] == s.hist[..s.durable];
      assert t.active.Keys == s.active.Keys;
    }
  }

  lemma EndKeepsInv(l: Layout, boot: seq<Block>, s: Sys, op: nat)
    requires Inv(l, boot, s) && Enabled(l, s, End(op))
    ensures Inv(l, boot, Step(l, s, End(op)))
  {
    assert (s.active - {op}).Keys == s.active.Keys - {op};
    if s.outstanding == 1 {
      assert |s.active.Keys - {op}| == 0;
      assert s.active - {op} == map[];
    }
  }

  /** commit() writing log slot `pc`. */
  lemma CommitSlotKeepsInv(l: Layout, boot: seq<Block>, s: Sys)
    requires Inv(l, boot, s) && Enabled(l, s, CommitIO) && s.phase.pc < |s.lh|
    ensures Inv(l, boot, Step(l, s, CommitIO))
  {
    var t := Step(l, s, CommitIO);
    SlotWriteLogical(l, s.disk, s.phase.pc, s.view[s.lh[s.phase.pc]]);
    SameGroups(s, t);
    hide LogicalAt, Replay, Grouped, DecodeHead, EncodeHead;
  }

  lemma SameGroups(s: Sys, t: Sys)
    requires Grouped(s) && t.hist == s.hist && t.durable == s.durable && t.active == s.active
    ensures Grouped(t)
  {
  }

  /** commit() writing the header: the whole transaction becomes durable. */
  lemma CommitHeadKeepsInv(l: Layout, boot: seq<Block>, s: Sys)
    requires Inv(l, boot, s) && Enabled(l, s, CommitIO) && s.phase.pc == |s.lh|
    ensures Inv(l, boot, Step(l, s, CommitIO))
  {
    hide EncodeHead, DecodeHead, Replay, LogicalAt, Grouped;
    var t := Step(l, s, CommitIO);
    HeadRoundTrip(s.disk[l.start], s.lh);
    assert Grouped(t) by { HeadKeepsGroups(s, t); }
    assert t.hist[..t.durable] == s.hist;
    assert GoodDisk(l, t.disk);
    forall b | Home(l, b) ensures LogicalAt(l, t.disk, b) == Replay(boot, s.hist)[b] {
      CommitHeadShows(l, boot, s, b);
    }
  }

  /** Once everything is durable with no call active, the groups are trivial. */
  lemma HeadKeepsGroups(s: Sys, t: Sys)
    requires s.active == map[] && t.active == s.active && t.durable == |t.hist|
    ensures Grouped(t)
  {
  }

  lemma CommitHeadShows(l: Layout, boot: seq<Block>, s: Sys, b: int)
    requires Inv(l, boot, s) && Enabled(l, s, CommitIO) && s.phase.pc == |s.lh| && Home(l, b)
    requires GoodDisk(l, Step(l, s, CommitIO).disk)
    ensures LogicalAt(l, Step(l, s, CommitIO).disk, b) == Replay(boot, s.hist)[b]
  {
    hide Replay, LogicalAt, EncodeHead, DecodeHead, Head;
    HeadWriteLogical(l, s.disk, s.lh, b);
    assert s.view[b] == Replay(boot, s.hist)[b];
    assert b !in s.lh ==> s.disk[b] == s.view[b];
  }

  /** commit() copying block `pc - n - 1` home. */
  lemma CommitInstallKeepsInv(l: Layout, boot: seq<Block>, s: Sys)
    requires Inv(l, boot, s) && Enabled(l, s, CommitIO) && |s.lh| < s.phase.pc <= 2 * |s.lh|
    ensures Inv(l, boot, Step(l, s, CommitIO))
  {
    hide LogicalAt, Replay, Grouped, DecodeHead, EncodeHead, Logged, Installed, CleanElsewhere;
    var k := s.phase.pc - |s.lh| - 1;
    var t := Step(l, s, CommitIO);
    InstallStep(l, s, t, k);
    InstallWriteLogicalAll(l, s.disk, k);
    SameGroups(s, t);
  }

  lemma InstallStep(l: Layout, s: Sys, t: Sys, k: nat)
    requires Fits(l, s) && Fits(l, t) && GoodList(l, s.lh) && t.lh == s.lh && k < |s.lh|
    requires t.disk == s.disk[s.lh[k] := s.disk[l.start + 1 + k]]
    requires t.view == s.view[s.lh[k] := s.disk[l.start + 1 + k]]
    requires Logged(l, s, |s.lh|) && Installed(l, s, k) && CleanElsewhere(l, s)
    ensures t.view == s.view && Logged(l, t, |s.lh|) && Installed(l, t, k + 1) && CleanElsewhere(l, t)
  {
  }

  /** commit() clearing the header. */
  lemma CommitEraseKeepsInv(l: Layout, boot: seq<Block>, s: Sys)
    requires Inv(l, boot, s) && Enabled(l, s, CommitIO) && s.phase.pc == 2 * |s.lh| + 1
    ensures Inv(l, boot, Step(l, s, CommitIO))
  {
    var t := Step(l, s, CommitIO);
    EraseLogical(l, s.disk);
  }

  lemma CommitIOKeepsInv(l: Layout, boot: seq<Block>, s: Sys)
    requires Inv(l, boot, s) && Enabled(l, s, CommitIO)
    ensures Inv(l, boot, Step(l, s, CommitIO))
  {
    var pc, n := s.phase.pc, |s.lh|;
    if pc < n { CommitSlotKeepsInv(l, boot, s); }
    else if pc == n { CommitHeadKeepsInv(l, boot, s); }
    else if pc <= 2 * n { CommitInstallKeepsInv(l, boot, s); }
    else { CommitEraseKeepsInv(l, boot, s); }
  }

  lemma CommitDoneKeepsInv(l: Layout, boot: seq<Block>, s: Sys)
    requires Inv(l, boot, s) && Enabled(l, s, CommitDone)
    ensures Inv(l, boot, Step(l, s, CommitDone))
  {
  }

  lemma CrashKeepsInv(l: Layout, boot: seq<Block>, s: Sys)
    requires Inv(l, boot, s)
    ensures Enabled(l, s, Crash) && Inv(l, boot, Step(l, s, Crash))
  {
    var t := Step(l, s, Crash);
    assert t.hist[..t.durable] == s.hist[..s.durable];
  }

  lemma RecoverInstallKeepsInv(l: Layout, boot: seq<Block>, s: Sys)
    requires Inv(l, boot, s) && Enabled(l, s, RecoverIO) && s.phase.pc < |s.lh|
    ensures Inv(l, boot, Step(l, s, RecoverIO))
  {
    hide LogicalAt, Replay, Grouped, DecodeHead, EncodeHead;
    InstallWriteLogicalAll(l, s.disk, s.phase.pc);
    SameGroups(s, Step(l, s, RecoverIO));
  }

  lemma RecoverEraseKeepsInv(l: Layout, boot: seq<Block>, s: Sys)
    requires Inv(l, boot, s) && Enabled(l, s, RecoverIO) && s.phase.pc == |s.lh|
    ensures Inv(l, boot, Step(l, s, RecoverIO))
  {
    EraseLogical(l, s.disk);
  }

  lemma RecoverDoneKeepsInv(l: Layout, boot: seq<Block>, s: Sys)
    requires Inv(l, boot, s) && Enabled(l, s, RecoverDone)
    ensures Inv(l, boot, Step(l, s, RecoverDone))
  {
    assert s.hist[..s.durable] == s.hist;
    forall b | Home(l, b) ensures s.view[b] == Replay(boot, s.hist)[b] {
      assert LogicalAt(l, s.disk, b) == s.disk[b];
    }
  }

  lemma StepKeepsInv(l: Layout, boot: seq<Block>, s: Sys, ev: Event)
    requires Inv(l, boot, s) && Enabled(l, s, ev)
    ensures Inv(l, boot, Step(l, s, ev))
  {
    match ev
    case Begin(op) => BeginKeepsInv(l, boot, s, op);
    case LogWrite(_, _, _) => LogWriteKeepsInv(l, boot, s, ev);
    case End(op) => EndKeepsInv(l, boot, s, op);
    case CommitIO => CommitIOKeepsInv(l, boot, s);
    case CommitDone => CommitDoneKeepsInv(l, boot, s);
    case Crash => CrashKeepsInv(l, boot, s);
    case RecoverIO =>
      if s.phase.pc < |s.lh| { RecoverInstallKeepsInv(l, boot, s); } else { RecoverEraseKeepsInv(l, boot, s); }
    case RecoverDone => RecoverDoneKeepsInv(l, boot, s);
  }

  // --------------------------------------------------------------------- runs

  /** A machine booted on a disk whose log is clear. */
  function Boot(boot: seq<Block>): Sys {
    Sys(boot, boot, [], 0, map[], Running, [], 0)
  }

  ghost predicate Run(l: Layout, boot: seq<Block>, states: seq<Sys>, evs: seq<Event>) {
    && |states| == |evs| + 1
    && GoodDisk(l, boot) && Head(l, boot) == [] && states[0] == Boot(boot)
    && (forall k :: 0 <= k < |states| ==> Fits(l, states[k]))
    && (forall k :: 0 <= k < |evs| ==> Enabled(l, states[k], evs[k]) && states[k + 1] == Step(l, states[k], evs[k]))
  }

  lemma {:induction false} RunInv(l: Layout, boot: seq<Block>, states: seq<Sys>, evs: seq<Event>, k: nat)
    requires Run(l, boot, states, evs) && k <= |evs|
    ensures Inv(l, boot, states[k])
  {
    if k > 0 {
      RunInv(l, boot, states, evs, k - 1);
      StepKeepsInv(l, boot, states[k - 1], evs[k - 1]);
    }
  }

  /** A system call's log_writes are durable all together or not at all, in every
      state of every run, whatever other calls and crashes come between. */
  lemma CallsAreAtomic(l: Layout, boot: seq<Block>, states: seq<Sys>, evs: seq<Event>, k: nat, op: nat)
    requires Run(l, boot, states, evs) && k <= |evs|
    ensures var s := states[k];
      || (forall i :: 0 <= i < |s.hist| && s.hist[i].op == op ==> i < s.durable)
      || (forall i :: 0 <= i < |s.hist| && s.hist[i].op == op ==> i >= s.durable)
  {
    RunInv(l, boot, states, evs, k);
  }

  /** What is durable changes at one point only: commit()'s header write, which comes
      when no call is outstanding and takes in everything logged so far. */
  lemma DurableChangesAtHeader(l: Layout, boot: seq<Block>, s: Sys, ev: Event)
    requires Inv(l, boot, s) && Enabled(l, s, ev)
    ensures var t := Step(l, s, ev);
      if ev.CommitIO? && s.phase.pc == |s.lh|
      then t.hist == s.hist && t.durable == |s.hist| && s.active == map[]
      else t.hist[..t.durable] == s.hist[..s.durable] && t.durable == s.durable
  {
    StepKeepsInv(l, boot, s, ev);
    var t := Step(l, s, ev);
    if !(ev.CommitIO? && s.phase.pc == |s.lh|) {
      assert t.hist[..t.durable] == s.hist[..s.durable];
    }
  }

  /** Between a crash and the end of recovery: recovery's own writes and further crashes. */
  ghost predicate RecoveryOnly(evs: seq<Event>, i: nat, k: nat) {
    i < k <= |evs| && evs[i].Crash? && forall j :: i < j < k ==> evs[j].RecoverIO? || evs[j].Crash?
  }

  /** A crash, or a step of recovery. */
  lemma RecoveryStep(l: Layout, boot: seq<Block>, s: Sys, ev: Event)
    requires Inv(l, boot, s) && Enabled(l, s, ev) && (ev.Crash? || ev.RecoverIO?)
    ensures s.durable <= |s.hist| && Step(l, s, ev).phase.Recovering?
    ensures Step(l, s, ev).hist == s.hist[..s.durable] && Step(l, s, ev).durable == s.durable
  {
    hide Recoverable, Grouped, GoodList, Logged, Installed, Shows, CleanElsewhere;
    assert ev.RecoverIO? ==> s.hist[..s.durable] == s.hist;
  }

  lemma {:induction false} RecoveryKeepsHistory(l: Layout, boot: seq<Block>, states: seq<Sys>, evs: seq<Event>, i: nat,
                                                k: nat)
    requires Run(l, boot, states, evs) && RecoveryOnly(evs, i, k)
    ensures states[k].phase.Recovering? && states[k].hist == states[i].hist[..states[i].durable]
    ensures states[k].durable == |states[k].hist|
    decreases k
  {
    hide Inv, Step, Enabled, Fits, GoodDisk;
    RunInv(l, boot, states, evs, k - 1);
    RecoveryStep(l, boot, states[k - 1], evs[k - 1]);
    if k > i + 1 {
      RecoveryKeepsHistory(l, boot, states, evs, i, k - 1);
      assert states[k - 1].hist[..states[k - 1].durable] == states[k - 1].hist;
    }
  }

  /** Crash atomicity: crash at any point of any run, crash again as often as you like
      while recovering, and let recovery finish. Every block is then, on disk and in the
      cache, what the log_writes durable at the first crash made it, and the log is clear. */
  lemma CrashAtomicity(l: Layout, boot: seq<Block>, states: seq<Sys>, evs: seq<Event>, i: nat, k: nat)
    requires Run(l, boot, states, evs) && RecoveryOnly(evs, i, k) && k < |evs| && evs[k].RecoverDone?
    ensures var durable, t := states[i].hist[..states[i].durable], states[k + 1];
      && t.phase.Running? && t.hist == durable
      && Shows(l, t.disk, boot, durable) && Shows(l, t.view, boot, durable)
      && Head(l, t.disk) == []
  {
    RecoveryKeepsHistory(l, boot, states, evs, i, k);
    RunInv(l, boot, states, evs, k);
    StepKeepsInv(l, boot, states[k], evs[k]);
  }

  /** A moment at which no call is between begin_op and end_op and nothing is being recovered. */
  predicate Quiet(s: Sys) {
    s.active == map[] && (s.phase.Running? || s.phase.Committing?)
  }

  /** What is durable is always what every block showed at some quiet moment before. */
  lemma {:induction false} DurableMoment(l: Layout, boot: seq<Block>, states: seq<Sys>, evs: seq<Event>, k: nat)
    returns (j: nat)
    requires Run(l, boot, states, evs) && k <= |evs|
    ensures states[k].durable <= |states[k].hist|
    ensures j <= k && Quiet(states[j]) && Shows(l, states[j].view, boot, states[k].hist[..states[k].durable])
  {
    hide Recoverable, Logged, Installed, CleanElsewhere, GoodList, Replay;
    RunInv(l, boot, states, evs, k);
    if k == 0 {
      j := 0;
      NothingReplayed(boot);
    } else {
      RunInv(l, boot, states, evs, k - 1);
      DurableChangesAtHeader(l, boot, states[k - 1], evs[k - 1]);
      if evs[k - 1].CommitIO? && states[k - 1].phase.pc == |states[k - 1].lh| {
        j := k - 1;
        assert states[k].hist[..states[k].durable] == states[k - 1].hist;
      } else {
        j := DurableMoment(l, boot, states, evs, k - 1);
      }
    }
  }

  lemma NothingReplayed(boot: seq<Block>)
    ensures Replay(boot, []) == boot
  {
  }

  /** Between transactions the log is empty and everything logged is durable. */
  predicate NothingPending(s: Sys) {
    && (s.phase.Running? && s.active == map[] ==> s.lh == [])
    && ((s.phase.Running? || s.phase.Committing?) && s.lh == [] ==> s.durable == |s.hist|)
  }

  lemma StepPending(l: Layout, boot: seq<Block>, s: Sys, ev: Event)
    requires Inv(l, boot, s) && Enabled(l, s, ev) && NothingPending(s)
    ensures NothingPending(Step(l, s, ev))
  {
    hide Recoverable, Grouped, GoodList, Logged, Installed, Shows, CleanElsewhere, Head, EncodeHead, Capacity, AllHome,
         CommitWrite, RecoverWrite;
    var t := Step(l, s, ev);
    if ev.Begin? || ev.LogWrite? {
      assert t.phase.Running? ==> ev.op in t.active;
    } else if ev.End? {
      Smaller(s.active, ev.op);
    }
  }

  lemma {:induction false} RunPending(l: Layout, boot: seq<Block>, states: seq<Sys>, evs: seq<Event>, k: nat)
    requires Run(l, boot, states, evs) && k <= |evs|
    ensures NothingPending(states[k])
  {
    if k > 0 {
      RunPending(l, boot, states, evs, k - 1);
      RunInv(l, boot, states, evs, k - 1);
      StepPending(l, boot, states[k - 1], evs[k - 1]);
    }
  }

  /** After a crash, as many more as there are, and recovery, every block shows what it showed at one moment before the
      first crash at which no call was outstanding. */
  lemma RecoversAMoment(l: Layout, boot: seq<Block>, states: seq<Sys>, evs: seq<Event>, i: nat, k: nat) returns (j: nat)
    requires Run(l, boot, states, evs) && RecoveryOnly(evs, i, k) && k < |evs| && evs[k].RecoverDone?
    ensures j <= i && Quiet(states[j]) && Quiet(states[k + 1])
    ensures forall b {:trigger states[k + 1].view[b]} :: Home(l, b) ==>
      states[k + 1].view[b] == states[j].view[b] && states[k + 1].disk[b] == states[j].view[b]
  {
    j := DurableMoment(l, boot, states, evs, i);
    CrashAtomicity(l, boot, states, evs, i, k);
    RunInv(l, boot, states, evs, k + 1);
    RunInv(l, boot, states, evs, k);
    hide Replay, Inv, PhaseInv, Step, Enabled;
    SameHomeBlocks(l, boot, states[i].hist[..states[i].durable], states[j].view, states[k + 1]);
  }

  lemma SameHomeBlocks(l: Layout, boot: seq<Block>, hist: seq<Rec>, v: seq<Block>, s: Sys)
    requires |v| == |boot| == |s.view| == |s.disk| == l.total
    requires Shows(l, v, boot, hist) && Shows(l, s.view, boot, hist) && Shows(l, s.disk, boot, hist)
    ensures forall b {:trigger s.view[b]} :: Home(l, b) ==> s.view[b] == v[b] && s.disk[b] == v[b]
  {
    forall b | Home(l, b) ensures s.view[b] == v[b] && s.disk[b] == v[b] {
      assert v[b] == Replay(boot, hist)[b];
    }
  }

  /** The end_op that finds itself last returns only when everything logged is durable. */
  lemma CommitDoneIsDurable(l: Layout, boot: seq<Block>, s: Sys)
    requires Inv(l, boot, s) && Enabled(l, s, CommitDone) && |s.lh| > 0
    ensures s.durable == |s.hist| && Shows(l, s.disk, boot, s.hist)
  {
    assert s.hist[..s.durable] == s.hist;
    forall b | Home(l, b) ensures s.disk[b] == Replay(boot, s.hist)[b] {
      assert LogicalAt(l, s.disk, b) == s.disk[b];
    }
  }

  // ------------------------------------------------------ the writes of commit()

  /** `p` is `s`, where commit() starts, after `k` of the planned writes. */
  ghost predicate OnPlan(l: Layout, s: Sys, k: nat, p: Sys) {
    && GoodList(l, s.lh) && |s.disk| == |s.view| == l.total
    && p.phase == Committing(k) && p.lh == s.lh && p.hist == s.hist
    && CommitDisk(l, s.disk, s.view, s.lh, k, p.disk)
  }

  lemma SameWrite(l: Layout, boot: seq<Block>, hist: seq<Rec>, d: seq<Block>, v1: seq<Block>, v2: seq<Block>,
                  lh: seq<int>, k: nat)
    requires GoodList(l, lh) && |d| == |v1| == |v2| == |boot| == l.total && k <= 2 * |lh| + 1
    requires Shows(l, v1, boot, hist) && Shows(l, v2, boot, hist)
    ensures CommitWrite(l, d, v1, lh, k) == CommitWrite(l, d, v2, lh, k)
  {
    if k < |lh| {
      assert Home(l, lh[k]) && v1[lh[k]] == v2[lh[k]];
    }
  }

  lemma FollowPlan(l: Layout, boot: seq<Block>, s: Sys, k: nat, p: Sys)
    requires Inv(l, boot, s) && s.phase == Committing(0) && |s.lh| > 0 && k < 2 * |s.lh| + 2
    requires Inv(l, boot, p) && OnPlan(l, s, k, p)
    ensures OnPlan(l, s, k + 1, Step(l, p, CommitIO))
  {
    SameWrite(l, boot, s.hist, p.disk, p.view, s.view, s.lh, k);
    CommitStep(l, s.disk, s.view, s.lh, k, p.disk);
  }

  /** In every run commit() makes the planned writes in the planned order; the class
      `RedoLogCode.Log` is proved to make the same ones. */
  lemma {:induction false} CommitFollowsPlan(l: Layout, boot: seq<Block>, states: seq<Sys>, evs: seq<Event>, i: nat,
                                             k: nat)
    requires Run(l, boot, states, evs) && i + k <= |evs|
    requires states[i].phase == Committing(0) && |states[i].lh| > 0 && k <= 2 * |states[i].lh| + 2
    requires forall j :: i <= j < i + k ==> evs[j].CommitIO?
    ensures OnPlan(l, states[i], k, states[i + k])
  {
    RunInv(l, boot, states, evs, i);
    if k > 0 {
      RunInv(l, boot, states, evs, i + k - 1);
      CommitFollowsPlan(l, boot, states, evs, i, k - 1);
      FollowPlan(l, boot, states[i], k - 1, states[i + k - 1]);
      assert evs[i + k - 1].CommitIO?;
    }
  }

  // ------------------------------------------------- commit and recovery finish

  lemma GrowRun(l: Layout, boot: seq<Block>, states: seq<Sys>, evs: seq<Event>, ev: Event)
    requires Run(l, boot, states, evs) && Enabled(l, states[|evs|], ev)
    ensures Run(l, boot, states + [Step(l, states[|evs|], ev)], evs + [ev])
  {
    hide Step, Enabled, PhaseInv, Recoverable, Grouped, GoodList;
    RunInv(l, boot, states, evs, |evs|);
    StepKeepsInv(l, boot, states[|evs|], ev);
  }

  /** How commit() or recovery goes on by itself. */
  ghost predicate OwnSteps(todo: seq<Event>, io: Event, done: Event) {
    |todo| > 0 && todo[|todo| - 1] == done && forall i :: 0 <= i < |todo| - 1 ==> todo[i] == io
  }

  /** No call is under way and the log is empty. */
  predicate Idle(s: Sys) {
    s.phase.Running? && s.lh == [] && s.active == map[] && s.outstanding == 0
  }

  lemma CommitGoesOn(l: Layout, boot: seq<Block>, s: Sys)
    requires Inv(l, boot, s) && s.phase.Committing?
    ensures s.phase.pc <= 2 * |s.lh| + 2
    ensures if s.lh == [] || s.phase.pc == 2 * |s.lh| + 2
      then Enabled(l, s, CommitDone) && Idle(Step(l, s, CommitDone))
      else Enabled(l, s, CommitIO) && Step(l, s, CommitIO).phase == Committing(s.phase.pc + 1)
           && Step(l, s, CommitIO).lh == s.lh
  {
    hide Recoverable, Grouped, GoodList, Logged, Installed, Shows, CleanElsewhere, CommitWrite, Head;
  }

  lemma RecoveryGoesOn(l: Layout, boot: seq<Block>, s: Sys)
    requires Inv(l, boot, s) && s.phase.Recovering?
    ensures s.phase.pc <= |s.lh| + 1
    ensures if s.phase.pc == |s.lh| + 1
      then Enabled(l, s, RecoverDone) && Idle(Step(l, s, RecoverDone))
      else Enabled(l, s, RecoverIO) && Step(l, s, RecoverIO).phase == Recovering(s.phase.pc + 1)
           && Step(l, s, RecoverIO).lh == s.lh
  {
    hide Recoverable, Grouped, GoodList, Logged, Installed, Shows, CleanElsewhere, RecoverWrite, Head;
  }

  lemma Appended<T>(a: seq<T>, x: T, b: seq<T>)
    ensures a + [x] + b == a + ([x] + b)
  {}

  lemma {:induction false} CommitFinishes(l: Layout, boot: seq<Block>, states: seq<Sys>, evs: seq<Event>)
    returns (more: seq<Sys>, todo: seq<Event>)
    requires Run(l, boot, states, evs) && states[|evs|].phase.Committing?
    ensures Run(l, boot, states + more, evs + todo) && OwnSteps(todo, CommitIO, CommitDone)
    ensures var s := states[|evs|]; |todo| == (if s.lh == [] then 1 else 2 * |s.lh| + 3 - s.phase.pc)
    ensures |more| > 0 && Idle(more[|more| - 1])
    decreases 2 * |states[|evs|].lh| + 2 - states[|evs|].phase.pc
  {
    hide Inv, Step, Enabled, Fits, GoodDisk;
    var s := states[|evs|];
    RunInv(l, boot, states, evs, |evs|);
    CommitGoesOn(l, boot, s);
    var last := s.lh == [] || s.phase.pc == 2 * |s.lh| + 2;
    var ev := if last then CommitDone else CommitIO;
    var t := Step(l, s, ev);
    GrowRun(l, boot, states, evs, ev);
    more, todo := [], [];
    if !last {
      more, todo := CommitFinishes(l, boot, states + [t], evs + [ev]);
    }
    Appended(states, t, more);
    Appended(evs, ev, todo);
    more, todo := [t] + more, [ev] + todo;
  }

  lemma {:induction false} RecoveryFinishes(l: Layout, boot: seq<Block>, states: seq<Sys>, evs: seq<Event>)
    returns (more: seq<Sys>, todo: seq<Event>)
    requires Run(l, boot, states, evs) && states[|evs|].phase.Recovering?
    ensures Run(l, boot, states + more, evs + todo) && OwnSteps(todo, RecoverIO, RecoverDone)
    ensures |todo| == |states[|evs|].lh| + 2 - states[|evs|].phase.pc
    ensures |more| > 0 && Idle(more[|more| - 1])
    decreases |states[|evs|].lh| + 1 - states[|evs|].phase.pc
  {
    hide Inv, Step, Enabled, Fits, GoodDisk;
    var s := states[|evs|];
    RunInv(l, boot, states, evs, |evs|);
    RecoveryGoesOn(l, boot, s);
    var last := s.phase.pc == |s.lh| + 1;
    var ev := if last then RecoverDone else RecoverIO;
    var t := Step(l, s, ev);
    GrowRun(l, boot, states, evs, ev);
    more, todo := [], [];
    if !last {
      more, todo := RecoveryFinishes(l, boot, states + [t], evs + [ev]);
    }
    Appended(states, t, more);
    Appended(evs, ev, todo);
    more, todo := [t] + more, [ev] + todo;
  }

  /** No commit and no recovery is ever stuck: it can go on by itself, in exactly the writes
      it still has to make, and then any new call can begin. A crash can come in every state. */
  lemma NeverStuck(l: Layout, boot: seq<Block>, states: seq<Sys>, evs: seq<Event>, op: nat)
    returns (more: seq<Sys>, todo: seq<Event>)
    requires Run(l, boot, states, evs)
    ensures Enabled(l, states[|evs|], Crash) && Run(l, boot, states + more, evs + todo)
    ensures var s := states[|evs|];
      match s.phase
      case Committing(pc) =>
        OwnSteps(todo, CommitIO, CommitDone) && |todo| == (if s.lh == [] then 1 else 2 * |s.lh| + 3 - pc)
      case Recovering(pc) => OwnSteps(todo, RecoverIO, RecoverDone) && |todo| == |s.lh| + 2 - pc
      case _ => todo == []
    ensures var t := (states + more)[|evs + todo|];
      && (todo != [] ==> Idle(t))
      && (todo != [] && (forall i :: 0 <= i < |t.hist| ==> t.hist[i].op != op) ==> Enabled(l, t, Begin(op)))
  {
    hide Replay, Shows, CleanElsewhere, Logged, Installed, Step, CommitWrite, RecoverWrite;
    RunInv(l, boot, states, evs, |evs|);
    more, todo := [], [];
    if states[|evs|].phase.Committing? {
      more, todo := CommitFinishes(l, boot, states, evs);
    } else if states[|evs|].phase.Recovering? {
      more, todo := RecoveryFinishes(l, boot, states, evs);
    } else {
      assert states + more == states && evs + todo == evs;
    }
    RunInv(l, boot, states + more, evs + todo, |evs + todo|);
  }

  // ------------------------------------------------------------- group commit

  /** While commit() runs no call is outstanding, none can begin, log or end, and so
      neither the panic in end_op nor the one about log_write outside of a transaction
      is ever reached: a panic comes from a transaction that is too big, or not at all. */
  lemma CommitRunsAlone(l: Layout, boot: seq<Block>, states: seq<Sys>, evs: seq<Event>, k: nat)
    requires Run(l, boot, states, evs) && k < |evs|
    ensures states[k].phase.Committing? ==>
      states[k].outstanding == 0 && !evs[k].Begin? && !evs[k].LogWrite? && !evs[k].End?
    ensures states[k].phase != Panicked && states[k + 1].phase == Panicked
       ==> evs[k].LogWrite? && TooBig(l, states[k])
  {
    RunInv(l, boot, states, evs, k);
    if evs[k].LogWrite? {
      var s := states[k];
      assert evs[k].op in s.active.Keys;
      assert |s.active.Keys| > 0;
    }
  }

  /** Blocks the active calls have added to the log. */
  ghost function Added(active: map<nat, nat>): (n: nat)
    decreases |active|
  {
    if active == map[] then 0
    else
      var op :| op in active;
      Smaller(active, op);
      active[op] + Added(active - {op})
  }

  lemma Smaller(active: map<nat, nat>, op: nat)
    requires op in active
    ensures |active - {op}| == |active| - 1
  {
    assert (active - {op}).Keys == active.Keys - {op};
  }

  /** The sum does not depend on the order in which calls are taken. */
  lemma {:induction false} AddedWithout(active: map<nat, nat>, op: nat)
    requires op in active
    ensures Added(active) == active[op] + Added(active - {op})
    decreases |active|
  {
    var first :| first in active && Added(active) == active[first] + Added(active - {first});
    if first != op {
      Smaller(active, first);
      Smaller(active, op);
      AddedWithout(active - {first}, op);
      AddedWithout(active - {op}, first);
      assert active - {first} - {op} == active - {op} - {first};
    }
  }

  /** Space is reserved: `n` logged blocks plus all that active calls may still add fit. */
  ghost predicate Room(n: nat, active: map<nat, nat>) {
    && (forall op :: op in active ==> active[op] <= MAXOPBLOCKS)
    && n + MAXOPBLOCKS * |active| <= LOGSIZE + Added(active)
  }

  /** No call adds more than MAXOPBLOCKS blocks to the log. */
  predicate WithinBudget(s: Sys, ev: Event) {
    ev.LogWrite? && ev.op in s.active && ev.bno !in s.lh ==> s.active[ev.op] < MAXOPBLOCKS
  }

  lemma AddedUpdate(active: map<nat, nat>, op: nat, n: nat)
    ensures Added(active[op := n]) == n + Added(active - {op})
  {
    AddedWithout(active[op := n], op);
    assert active[op := n] - {op} == active - {op};
  }

  lemma RoomBegin(n: nat, active: map<nat, nat>, op: nat)
    requires Room(n, active) && op !in active && n + (|active| + 1) * MAXOPBLOCKS <= LOGSIZE
    ensures Room(n, active[op := 0])
  {
    hide Added;
    AddedUpdate(active, op, 0);
    assert active - {op} == active;
    assert active[op := 0].Keys == active.Keys + {op};
  }

  lemma RoomWrite(n: nat, active: map<nat, nat>, op: nat)
    requires Room(n, active) && op in active && active[op] < MAXOPBLOCKS
    ensures n < LOGSIZE && Room(n + 1, active[op := active[op] + 1])
  {
    hide Added;
    AddedUpdate(active, op, active[op] + 1);
    AddedWithout(active, op);
    assert active[op := active[op] + 1].Keys == active.Keys;
    Smaller(active, op);
    AddedBound(active - {op});
  }

  lemma RoomEnd(n: nat, active: map<nat, nat>, op: nat)
    requires Room(n, active) && op in active
    ensures Room(n, active - {op})
  {
    AddedWithout(active, op);
    Smaller(active, op);
  }

  lemma {:induction false} AddedBound(active: map<nat, nat>)
    requires forall op :: op in active ==> active[op] <= MAXOPBLOCKS
    ensures Added(active) <= MAXOPBLOCKS * |active|
    decreases |active|
  {
    if active != map[] {
      var op :| op in active;
      AddedWithout(active, op);
      Smaller(active, op);
      AddedBound(active - {op});
    }
  }

  lemma StepKeepsRoom(l: Layout, boot: seq<Block>, s: Sys, ev: Event)
    requires Inv(l, boot, s) && Enabled(l, s, ev) && Room(|s.lh|, s.active) && WithinBudget(s, ev)
    ensures var t := Step(l, s, ev); t.phase.Panicked? || t.phase.Recovering? || Room(|t.lh|, t.active)
  {
    match ev
    case Begin(op) => RoomBegin(|s.lh|, s.active, op);
    case LogWrite(op, bno, data) =>
      if bno in s.lh { assert s.active[op := s.active[op]] == s.active; } else { RoomWrite(|s.lh|, s.active, op); }
    case End(op) => RoomEnd(|s.lh|, s.active, op);
    case CommitIO =>
    case CommitDone =>
    case Crash =>
    case RecoverIO =>
    case RecoverDone =>
  }

  /** Runs in which every call keeps to its budget. */
  ghost predicate Budgeted(states: seq<Sys>, evs: seq<Event>) {
    |states| > |evs| && forall k :: 0 <= k < |evs| ==> WithinBudget(states[k], evs[k])
  }

  lemma {:induction false} RunRoom(l: Layout, boot: seq<Block>, states: seq<Sys>, evs: seq<Event>, k: nat)
    requires Run(l, boot, states, evs) && Budgeted(states, evs) && k <= |evs|
    ensures states[k].phase.Running? || states[k].phase.Committing? ==> Room(|states[k].lh|, states[k].active)
  {
    if k > 0 {
      RunRoom(l, boot, states, evs, k - 1);
      RunInv(l, boot, states, evs, k - 1);
      RunInv(l, boot, states, evs, k);
      if evs[k - 1].RecoverDone? || evs[k - 1].Crash? || evs[k - 1].RecoverIO? {
        assert Added(map[]) == 0;
      } else {
        StepKeepsRoom(l, boot, states[k - 1], evs[k - 1]);
      }
    }
  }

  /** No panic: if every call adds at most MAXOPBLOCKS blocks and the log has LOGSIZE data
      slots, a log_write of a block not yet in the log always finds room. */
  lemma NewBlockAlwaysFits(l: Layout, boot: seq<Block>, states: seq<Sys>, evs: seq<Event>, k: nat)
    requires Run(l, boot, states, evs) && Budgeted(states, evs) && k < |evs|
    requires l.size - 1 >= LOGSIZE && evs[k].LogWrite? && evs[k].bno !in states[k].lh
    ensures states[k + 1].phase != Panicked
  {
    RunRoom(l, boot, states, evs, k);
    RoomWrite(|states[k].lh|, states[k].active, evs[k].op);
    CommitRunsAlone(l, boot, states, evs, k);
  }

  // ------------------------------------------------- what a call may log at all

  /** The blocks that call `op` has logged. */
  ghost function OpBlocks(hist: seq<Rec>, op: nat): set<nat> {
    if hist == [] then {}
    else
      var x := hist[|hist| - 1];
      OpBlocks(hist[..|hist| - 1], op) + if x.op == op then {x.bno} else {}
  }

  ghost function StillLogged(s: Sys, op: nat): set<nat> {
    set b | b in OpBlocks(s.hist, op) && b in s.lh
  }

  /** A call is charged for blocks it has logged only, and for each of them once. */
  ghost predicate Charged(s: Sys) {
    forall op :: op in s.active ==> s.active[op] <= |StillLogged(s, op)|
  }

  lemma LogWriteCharged(l: Layout, s: Sys, ev: Event, op: nat)
    requires Fits(l, s) && ev.LogWrite? && Enabled(l, s, ev) && Charged(s) && !Step(l, s, ev).phase.Panicked?
    requires op in Step(l, s, ev).active
    ensures Step(l, s, ev).active[op] <= |StillLogged(Step(l, s, ev), op)|
  {
    var t, x := Step(l, s, ev), Rec(ev.op, ev.bno, ev.data);
    assert op in s.active;
    assert (s.hist + [x])[..|s.hist + [x]| - 1] == s.hist;
    if op == ev.op && ev.bno !in s.lh {
      assert StillLogged(t, op) == StillLogged(s, op) + {ev.bno} && ev.bno !in StillLogged(s, op);
    } else {
      Counting.SubsetCount(StillLogged(s, op), StillLogged(t, op));
    }
  }

  lemma StepCharged(l: Layout, boot: seq<Block>, s: Sys, ev: Event)
    requires Inv(l, boot, s) && Enabled(l, s, ev) && Charged(s)
    ensures Charged(Step(l, s, ev))
  {
    hide Recoverable, Grouped, GoodList, Logged, Installed, Shows, CleanElsewhere, StillLogged, Capacity, AllHome;
    var t := Step(l, s, ev);
    forall op | op in t.active ensures t.active[op] <= |StillLogged(t, op)| {
      if ev.LogWrite? && !t.phase.Panicked? {
        LogWriteCharged(l, s, ev, op);
      } else {
        SameStillLogged(s, t, op);
      }
    }
  }

  lemma SameStillLogged(s: Sys, t: Sys, op: nat)
    requires t.hist == s.hist && t.lh == s.lh
    ensures StillLogged(t, op) == StillLogged(s, op)
  {
  }

  lemma {:induction false} RunCharged(l: Layout, boot: seq<Block>, states: seq<Sys>, evs: seq<Event>, k: nat)
    requires Run(l, boot, states, evs) && k <= |evs|
    ensures Charged(states[k])
  {
    hide Inv, Enabled, Step, Charged;
    if k == 0 {
      NoneCharged(boot);
    } else {
      RunCharged(l, boot, states, evs, k - 1);
      RunInv(l, boot, states, evs, k - 1);
      StepCharged(l, boot, states[k - 1], evs[k - 1]);
    }
  }

  lemma NoneCharged(boot: seq<Block>)
    ensures Charged(Boot(boot))
  {
  }

  /** No call logs more than MAXOPBLOCKS different blocks. */
  ghost predicate Frugal(states: seq<Sys>, evs: seq<Event>) {
    |states| > |evs| && forall k :: 0 <= k < |evs| && evs[k].LogWrite? ==>
      |OpBlocks(states[k].hist, evs[k].op) + {evs[k].bno}| <= MAXOPBLOCKS
  }

  /** So if no call logs more than MAXOPBLOCKS different blocks, whatever other calls log at the same time, none adds
      more than that to the log. */
  lemma FrugalIsBudgeted(l: Layout, boot: seq<Block>, states: seq<Sys>, evs: seq<Event>)
    requires Run(l, boot, states, evs) && Frugal(states, evs)
    ensures Budgeted(states, evs)
  {
    forall k | 0 <= k < |evs| ensures WithinBudget(states[k], evs[k]) {
      RunCharged(l, boot, states, evs, k);
      var s, ev := states[k], evs[k];
      if ev.LogWrite? && ev.op in s.active && ev.bno !in s.lh {
        OneMoreBlock(s, ev.op, ev.bno);
      }
    }
  }

  lemma OneMoreBlock(s: Sys, op: nat, b: nat)
    requires b !in s.lh
    ensures |StillLogged(s, op)| < |OpBlocks(s.hist, op) + {b}|
  {
    assert |StillLogged(s, op) + {b}| == |StillLogged(s, op)| + 1;
    Counting.SubsetCount(StillLogged(s, op) + {b}, OpBlocks(s.hist, op) + {b});
  }

  // ------------------------------------- where a budgeted call panics after all

  lemma ExtendRun(l: Layout, boot: seq<Block>, states: seq<Sys>, evs: seq<Event>, ev: Event)
    requires Run(l, boot, states, evs) && Budgeted(states, evs)
    requires Enabled(l, states[|evs|], ev) && WithinBudget(states[|evs|], ev)
    ensures var t := Step(l, states[|evs|], ev);
      Run(l, boot, states + [t], evs + [ev]) && Budgeted(states + [t], evs + [ev])
  {
    hide Step, Enabled, WithinBudget, Fits;
    GrowRun(l, boot, states, evs, ev);
  }

  /** How many of the first `n` blocks call `op` logs when calls 0, 1 and 2 fill up in turn. */
  function Share(n: nat, op: nat): nat {
    if n <= op * MAXOPBLOCKS then 0
    else if n >= (op + 1) * MAXOPBLOCKS then MAXOPBLOCKS
    else n - op * MAXOPBLOCKS
  }

  /** Three calls within their budgets have logged `n` blocks. */
  ghost predicate Filled(l: Layout, s: Sys, n: nat) {
    && s.phase.Running? && s.outstanding == 3
    && s.active == map[0 := Share(n, 0), 1 := Share(n, 1), 2 := Share(n, 2)]
    && |s.lh| == n && forall i :: 0 <= i < n ==> s.lh[i] == l.start + l.size + i
  }

  /** Calls 0 to m - 1, none of which has logged anything. */
  function Begun(m: nat): map<nat, nat> {
    if m == 0 then map[] else Begun(m - 1)[m - 1 := 0]
  }

  lemma {:induction false} BeginCalls(l: Layout, boot: seq<Block>, m: nat) returns (states: seq<Sys>, evs: seq<Event>)
    requires GoodDisk(l, boot) && Head(l, boot) == [] && m <= 3
    ensures Run(l, boot, states, evs) && Budgeted(states, evs)
    ensures states[|evs|] == Boot(boot).(outstanding := m, active := Begun(m))
  {
    if m == 0 {
      states, evs := [Boot(boot)], [];
    } else {
      states, evs := BeginCalls(l, boot, m - 1);
      ExtendRun(l, boot, states, evs, Begin(m - 1));
      states, evs := states + [Step(l, states[|evs|], Begin(m - 1))], evs + [Begin(m - 1)];
    }
  }

  lemma {:induction false} FillLog(l: Layout, boot: seq<Block>, n: nat) returns (states: seq<Sys>, evs: seq<Event>)
    requires GoodDisk(l, boot) && Head(l, boot) == [] && n <= Capacity(l)
    requires l.start + l.size + LOGSIZE < l.total
    ensures Run(l, boot, states, evs) && Budgeted(states, evs) && Filled(l, states[|evs|], n)
  {
    if n == 0 {
      states, evs := BeginCalls(l, boot, 3);
      assert Begun(3) == map[0 := 0, 1 := 0, 2 := 0];
    } else {
      states, evs := FillLog(l, boot, n - 1);
      var s := states[|evs|];
      var op := (n - 1) / MAXOPBLOCKS;
      var ev := LogWrite(op, l.start + l.size + n - 1, boot[0]);
      ExtendRun(l, boot, states, evs, ev);
      states, evs := states + [Step(l, s, ev)], evs + [ev];
    }
  }

  /** With fewer data slots than LOGSIZE - mkfs gives the log LOGSIZE - 1 - calls that all
      keep to their budgets do panic, on a block not yet logged. */
  lemma SmallLogPanics(l: Layout, boot: seq<Block>) returns (states: seq<Sys>, evs: seq<Event>)
    requires GoodDisk(l, boot) && Head(l, boot) == [] && l.start + l.size + LOGSIZE < l.total
    requires l.size - 1 < LOGSIZE
    ensures Run(l, boot, states, evs) && Budgeted(states, evs) && |evs| > 0
    ensures evs[|evs| - 1].LogWrite? && evs[|evs| - 1].bno !in states[|evs| - 1].lh
    ensures states[|evs|].phase == Panicked
  {
    states, evs := FillLog(l, boot, l.size - 1);
    var ev := LogWrite((l.size - 1) / MAXOPBLOCKS, l.start + l.size + l.size - 1, boot[0]);
    ExtendRun(l, boot, states, evs, ev);
    states, evs := states + [Step(l, states[|evs|], ev)], evs + [ev];
  }

  /** Even with LOGSIZE slots, a call re-logging a block of a full log panics: the size
      test comes before absorption. */
  lemma FullLogPanicsOnAbsorption(l: Layout, boot: seq<Block>) returns (states: seq<Sys>, evs: seq<Event>)
    requires GoodDisk(l, boot) && Head(l, boot) == [] && l.start + l.size + LOGSIZE < l.total
    requires l.size - 1 >= LOGSIZE
    ensures Run(l, boot, states, evs) && Budgeted(states, evs) && |evs| > 0
    ensures evs[|evs| - 1].LogWrite? && evs[|evs| - 1].bno in states[|evs| - 1].lh
    ensures states[|evs|].phase == Panicked
  {
    states, evs := FillLog(l, boot, LOGSIZE);
    assert states[|evs|].lh[0] == l.start + l.size;
    var ev := LogWrite(0, l.start + l.size, boot[0]);
    ExtendRun(l, boot, states, evs, ev);
    states, evs := states + [Step(l, states[|evs|], ev)], evs + [ev];
  }
}
