/**
 * Pipes (pipe.c): what a call does between taking the pipe's lock and sleeping or returning, and runs of
 * readers and writers over one pipe. `PipeCode` holds the ring buffer. No process is killed in these runs.
 */
module Pipe {

  const PIPESIZE: nat := 512

  type Byte = x: int | 0 <= x < 256

  /** What is in the pipe, and which ends are open. */
  datatype State = State(contents: seq<Byte>, readopen: bool, writeopen: bool)

  function Min(a: nat, b: nat): nat {
    if a < b then a else b
  }

  // ------------------------------------------------------------ one section

  /** How a section of a call ends: it returns, it sleeps, or it fails because nobody can read any more. */
  datatype Outcome = Done | Sleeps | Broken

  /** How many bytes pipewrite stores before it stops. */
  function Fits(s: State, bytes: seq<Byte>): nat
    requires |s.contents| <= PIPESIZE
  {
    Min(|bytes|, PIPESIZE - |s.contents|)
  }

  function Written(s: State, bytes: seq<Byte>): State
    requires |s.contents| <= PIPESIZE
  {
    s.(contents := s.contents + bytes[..Fits(s, bytes)])
  }

  function WriteOutcome(s: State, bytes: seq<Byte>): Outcome
    requires |s.contents| <= PIPESIZE
  {
    if Fits(s, bytes) == |bytes| then Done else if s.readopen then Sleeps else Broken
  }

  function ReadOutcome(s: State): Outcome {
    if s.contents == [] && s.writeopen then Sleeps else Done
  }

  /** What piperead takes when it does not sleep. */
  function Taken(s: State, n: nat): seq<Byte> {
    s.contents[..Min(n, |s.contents|)]
  }

  function Drained(s: State, n: nat): State {
    s.(contents := s.contents[Min(n, |s.contents|)..])
  }

  // --------------------------------------------------------------------- runs

  /** A thread outside the pipe, in pipewrite with bytes left to write, or in piperead. */
  datatype Thread = Outside | Writing(rest: seq<Byte>, asleep: bool) | Reading(n: nat, asleep: bool)

  /** The pipe, its threads, all bytes ever stored in it and all bytes ever taken out. */
  datatype System = System(pipe: State, threads: map<nat, Thread>, input: seq<Byte>, output: seq<Byte>)

  /** A call starts; a call runs from the lock until it sleeps or returns; the last reference to an end goes away. */
  datatype Step = Call(t: nat, thread: Thread) | Proceed(t: nat) | CloseWrite | CloseRead

  ghost predicate Enabled(s: System, e: Step) {
    match e
    case Call(t, thread) =>
      && t in s.threads && s.threads[t] == Outside && !thread.Outside? && !thread.asleep
      && (if thread.Writing? then s.pipe.writeopen else s.pipe.readopen)
    case Proceed(t) => t in s.threads && !s.threads[t].Outside? && !s.threads[t].asleep
    case CloseWrite => forall t :: t in s.threads ==> !s.threads[t].Writing?
    case CloseRead => forall t :: t in s.threads ==> !s.threads[t].Reading?
  }

  /** The wakeup of all readers. */
  function WakeReaders(m: map<nat, Thread>): (r: map<nat, Thread>)
    ensures r.Keys == m.Keys
    ensures forall t :: t in m ==> r[t] == if m[t].Reading? then Reading(m[t].n, false) else m[t]
  {
    map t | t in m :: if m[t].Reading? then Reading(m[t].n, false) else m[t]
  }

  /** The wakeup of all writers. */
  function WakeWriters(m: map<nat, Thread>): (r: map<nat, Thread>)
    ensures r.Keys == m.Keys
    ensures forall t :: t in m ==> r[t] == if m[t].Writing? then Writing(m[t].rest, false) else m[t]
  {
    map t | t in m :: if m[t].Writing? then Writing(m[t].rest, false) else m[t]
  }

  ghost function Do(s: System, e: Step): System
    requires |s.pipe.contents| <= PIPESIZE && Enabled(s, e)
  {
    match e
    case Call(t, thread) => s.(threads := s.threads[t := thread])
    case Proceed(t) =>
      (match s.threads[t]
       case Writing(rest, _) =>
         var k := Fits(s.pipe, rest);
         var p := Written(s.pipe, rest);
         var input := s.input + rest[..k];
         (match WriteOutcome(s.pipe, rest)
          case Done => System(p, WakeReaders(s.threads)[t := Outside], input, s.output)
          case Sleeps => System(p, WakeReaders(s.threads)[t := Writing(rest[k..], true)], input, s.output)
          case Broken => System(p, s.threads[t := Outside], input, s.output))
       case Reading(n, _) =>
         if ReadOutcome(s.pipe) == Sleeps then s.(threads := s.threads[t := Reading(n, true)])
         else System(Drained(s.pipe, n), WakeWriters(s.threads)[t := Outside], s.input, s.output + Taken(s.pipe, n)))
    case CloseWrite => System(s.pipe.(writeopen := false), WakeReaders(s.threads), s.input, s.output)
    case CloseRead => System(s.pipe.(readopen := false), WakeWriters(s.threads), s.input, s.output)
  }

  ghost predicate Legal(s: System, es: seq<Step>)
    decreases |es|
  {
    |s.pipe.contents| <= PIPESIZE && (es == [] || (Enabled(s, es[0]) && Legal(Do(s, es[0]), es[1..])))
  }

  ghost function Final(s: System, es: seq<Step>): System
    requires Legal(s, es)
    decreases |es|
  {
    if es == [] then s else Final(Do(s, es[0]), es[1..])
  }

  /** What holds between any two steps. */
  ghost predicate Inv(s: System) {
    && |s.pipe.contents| <= PIPESIZE && s.input == s.output + s.pipe.contents
    && (forall t :: t in s.threads && s.threads[t].Reading? ==> s.pipe.readopen)
    && (forall t :: t in s.threads && s.threads[t].Writing? ==> s.pipe.writeopen)
    && (forall t :: t in s.threads && s.threads[t].Reading? && s.threads[t].asleep ==>
         s.pipe.contents == [] && s.pipe.writeopen)
    && (forall t :: t in s.threads && s.threads[t].Writing? && s.threads[t].asleep ==>
         |s.pipe.contents| == PIPESIZE && s.pipe.readopen)
  }

  lemma WriteKeepsInv(s: System, t: nat)
    requires Inv(s) && Enabled(s, Proceed(t)) && s.threads[t].Writing?
    ensures Inv(Do(s, Proceed(t)))
  {
    var rest := s.threads[t].rest;
    var k := Fits(s.pipe, rest);
    var u := Do(s, Proceed(t));
    assert u.output + u.pipe.contents == s.output + s.pipe.contents + rest[..k];
    if WriteOutcome(s.pipe, rest) == Broken {
      assert !s.pipe.readopen;
    }
  }

  /** What is taken and what is left are together what was in the pipe. */
  lemma ReadConserves(p: State, n: nat, output: seq<Byte>)
    ensures (output + Taken(p, n)) + Drained(p, n).contents == output + p.contents
  {
    assert Taken(p, n) + Drained(p, n).contents == p.contents;
    assert (output + Taken(p, n)) + Drained(p, n).contents == output + (Taken(p, n) + Drained(p, n).contents);
  }

  lemma ReadKeepsInv(s: System, t: nat)
    requires Inv(s) && Enabled(s, Proceed(t)) && s.threads[t].Reading?
    ensures Inv(Do(s, Proceed(t)))
  {
    var n := s.threads[t].n;
    ReadConserves(s.pipe, n, s.output);
    hide Taken;
    var u := Do(s, Proceed(t));
    if ReadOutcome(s.pipe) == Done {
      assert u.output + u.pipe.contents == s.output + s.pipe.contents;
    }
  }

  lemma StepKeepsInv(s: System, e: Step)
    requires Inv(s) && Enabled(s, e)
    ensures Inv(Do(s, e))
  {
    match e
    case Proceed(t) =>
      if s.threads[t].Writing? { WriteKeepsInv(s, t); } else { ReadKeepsInv(s, t); }
    case _ =>
  }

  /** Each section wakes the other side, and its own thread sleeps only for want of room or of bytes while the other end
      is open. */
  lemma StepWakes(s: System, e: Step)
    requires Inv(s) && Enabled(s, e)
    ensures var u := Do(s, e);
      match e
      case Call(t, thread) => u.pipe == s.pipe && u.threads == s.threads[t := thread]
      case CloseWrite => u.pipe == s.pipe.(writeopen := false) && forall r :: !ReaderAsleep(u, r)
      case CloseRead => u.pipe == s.pipe.(readopen := false) && forall w :: !WriterAsleep(u, w)
      case Proceed(t) =>
        && u.pipe.readopen == s.pipe.readopen && u.pipe.writeopen == s.pipe.writeopen
        && if s.threads[t].Reading? then
             && (ReaderAsleep(u, t) <==> s.pipe.contents == [] && s.pipe.writeopen)
             && (!ReaderAsleep(u, t) ==> u.threads[t] == Outside && forall w :: !WriterAsleep(u, w))
           else
             && (WriterAsleep(u, t) <==> |s.pipe.contents + s.threads[t].rest| > 512 && s.pipe.readopen)
             && (!WriterAsleep(u, t) ==> u.threads[t] == Outside)
             && (s.pipe.readopen ==> forall r :: !ReaderAsleep(u, r))
  {
  }

  ghost predicate WriterAsleep(s: System, w: nat) {
    w in s.threads && s.threads[w].Writing? && s.threads[w].asleep
  }

  /** A killed writer that finds the pipe full returns before the wakeup. */
  ghost function KilledWrite(s: System, t: nat): System
    requires |s.pipe.contents| <= PIPESIZE && Enabled(s, Proceed(t)) && s.threads[t].Writing?
  {
    var rest := s.threads[t].rest;
    System(Written(s.pipe, rest), s.threads[t := Outside], s.input + rest[..Fits(s.pipe, rest)], s.output)
  }

  ghost predicate ReaderAsleep(s: System, r: nat) {
    r in s.threads && s.threads[r].Reading? && s.threads[r].asleep
  }

  /** So a kill breaks the sleepers' invariant exactly when a reader was asleep. */
  lemma KilledWriterIsNotHeard(s: System, t: nat)
    requires Inv(s) && Enabled(s, Proceed(t)) && s.threads[t].Writing?
    requires WriteOutcome(s.pipe, s.threads[t].rest) != Done
    ensures Inv(KilledWrite(s, t)) <==> !exists r :: ReaderAsleep(s, r)
  {
    var rest := s.threads[t].rest;
    var u := KilledWrite(s, t);
    assert u.output + u.pipe.contents == s.output + s.pipe.contents + rest[..Fits(s.pipe, rest)];
    assert |u.pipe.contents| == PIPESIZE;
    if r :| ReaderAsleep(s, r) {
      assert u.threads[r] == s.threads[r];
    } else {
      forall r | r in u.threads && u.threads[r].Reading? ensures !u.threads[r].asleep {
        assert !ReaderAsleep(s, r);
      }
    }
  }

  /** In every run without kills: what has been read is a prefix of what has been written and at most a
      pipeful is in between; a sleeping reader has nothing to read and a writer may still come; a sleeping
      writer has no room and a reader may still come. So readers and writers never sleep at the same time. */
  lemma {:induction false} RunKeepsInv(s: System, es: seq<Step>)
    requires Inv(s) && Legal(s, es)
    ensures var u := Final(s, es);
      && Inv(u) && u.output <= u.input && |u.input| - |u.output| <= PIPESIZE
      && (forall r, w :: r in u.threads && w in u.threads && u.threads[r].Reading? && u.threads[w].Writing? ==>
           !u.threads[r].asleep || !u.threads[w].asleep)
    decreases |es|
  {
    if es != [] {
      StepKeepsInv(s, es[0]);
      RunKeepsInv(Do(s, es[0]), es[1..]);
    }
  }

  /** A reader waits on an empty pipe, and another thread starts to write 513 bytes. */
  function ReaderThenWriter(): seq<Step> {
    [Call(0, Reading(1, false)), Proceed(0), Call(1, Writing(seq(513, _ => 0), false))]
  }

  /** Two threads and a new pipe. */
  function NewPipe(): System {
    System(State([], true, true), map[0 := Outside, 1 := Outside], [], [])
  }

  /** It happens: if the writer is killed then, the reader sleeps on with a full pipe. */
  lemma KilledWriterExample()
    ensures Legal(NewPipe(), ReaderThenWriter())
    ensures var s := Final(NewPipe(), ReaderThenWriter());
      Inv(s) && Enabled(s, Proceed(1)) && s.threads[1].Writing? && !Inv(KilledWrite(s, 1))
  {
    var s, es := NewPipe(), ReaderThenWriter();
    assert Inv(s);
    var s1 := Do(s, es[0]);
    var s2 := Do(s1, es[1]);
    var s3 := Do(s2, es[2]);
    assert es[1..][0] == es[1] && es[1..][1..] == es[2..] && es[2..][0] == es[2] && es[2..][1..] == [];
    assert Legal(s3, []) && Final(s3, []) == s3;
    assert Legal(s2, es[2..]) && Final(s2, es[2..]) == s3;
    assert Legal(s1, es[1..]) && Final(s1, es[1..]) == s3;
    RunKeepsInv(s, es);
    assert ReaderAsleep(s3, 0);
    KilledWriterIsNotHeard(s3, 1);
  }
}

/** The ring buffer of pipe.c. */
module PipeCode {
  import opened Pipe

  const UINT: nat := 0x1_0000_0000

  class Ring {
    const data: array<Byte>
    var nread: nat
    var nwrite: nat
    var readopen: bool
    var writeopen: bool
    ghost var contents: seq<Byte>

    ghost function Now(): State
      reads this
    {
      State(contents, readopen, writeopen)
    }

    /** The counters wrap at 2^32; their difference, taken around the wrap, is what is in the pipe. */
    ghost predicate Valid()
      reads this, data
    {
      && data.Length == PIPESIZE && nread < UINT && nwrite < UINT && |contents| <= PIPESIZE
      && nwrite == (nread + |contents|) % UINT
      && forall k :: 0 <= k < |contents| ==> data[(nread + k) % PIPESIZE] == contents[k]
    }

    constructor ()
      ensures Valid() && contents == [] && readopen && writeopen && fresh(data)
    {
      data := new Byte[PIPESIZE](_ => 0);
      nread, nwrite, readopen, writeopen, contents := 0, 0, true, true, [];
    }

    method Store(b: Byte)
      requires Valid() && |contents| < PIPESIZE
      modifies data, this`nwrite, this`contents
      ensures Valid() && contents == old(contents) + [b]
    {
      WrapSlot(nread, |contents|);
      data[nwrite % PIPESIZE] := b;
      nwrite := (nwrite + 1) % UINT;
      forall k | 0 <= k < |contents| ensures data[(nread + k) % PIPESIZE] == contents[k] {
        SlotsDiffer(nread, k, |contents|);
      }
      contents := contents + [b];
    }

    method Take() returns (b: Byte)
      requires Valid() && contents != []
      modifies this`nread, this`contents
      ensures Valid() && old(contents) == [b] + contents
    {
      b := data[nread % PIPESIZE];
      assert data[(nread + 0) % PIPESIZE] == contents[0];
      WrapNext(nread, |contents|);
      ghost var n := nread;
      nread := (nread + 1) % UINT;
      ghost var rest := contents[1..];
      forall k | 0 <= k < |rest| ensures data[(nread + k) % PIPESIZE] == rest[k] {
        WrapSlotNext(n, k);
        assert data[(n + (k + 1)) % PIPESIZE] == contents[k + 1];
      }
      contents := rest;
    }

    /** pipewrite from byte `i` on, until it returns or sleeps; `j` is the first byte not stored. */
    method Write(addr: seq<Byte>, i: nat) returns (j: nat, r: Outcome)
      requires Valid() && i <= |addr|
      modifies data, this`nwrite, this`contents
      ensures Valid() && j == i + Fits(old(Now()), addr[i..]) && Now() == Written(old(Now()), addr[i..])
      ensures r == WriteOutcome(old(Now()), addr[i..])
      ensures i <= j <= |addr| && contents == old(contents) + addr[i..j]
      ensures readopen == old(readopen) && writeopen == old(writeopen)
      ensures if j == |addr| then r == Done else |contents| == 512 && r == if readopen then Sleeps else Broken
    {
      j := i;
      assert contents + addr[i..j] == contents;
      while j < |addr|
        invariant i <= j <= |addr| && Valid() && readopen == old(readopen) && writeopen == old(writeopen)
        invariant contents == old(contents) + addr[i..j]
      {
        FullTest(nread, |contents|);
        if nwrite == (nread + PIPESIZE) % UINT {
          assert addr[i..j] == addr[i..][..j - i];
          if !readopen {
            return j, Broken;
          }
          return j, Sleeps;
        }
        assert addr[i..j + 1] == addr[i..j] + [addr[j]];
        Store(addr[j]);
        j := j + 1;
      }
      assert addr[i..j] == addr[i..][..j - i];
      r := Done;
    }

    /** piperead, until it returns or sleeps. */
    method Read(n: nat) returns (out: seq<Byte>, r: Outcome)
      requires Valid()
      modifies this`nread, this`contents
      ensures Valid() && r == ReadOutcome(old(Now()))
      ensures if r == Sleeps then Now() == old(Now())
        else out == Taken(old(Now()), n) && Now() == Drained(old(Now()), n)
      ensures r == (if old(contents) == [] && writeopen then Sleeps else Done)
      ensures old(contents) == out + contents && readopen == old(readopen) && writeopen == old(writeopen)
      ensures r == Done ==> |out| == if n < |old(contents)| then n else |old(contents)|
    {
      out := [];
      EmptyTest(nread, |contents|);
      if nread == nwrite && writeopen {
        return out, Sleeps;
      }
      while |out| < n && nread != nwrite
        invariant |out| <= n && Valid() && readopen == old(readopen) && writeopen == old(writeopen)
        invariant old(contents) == out + contents
        decreases n - |out|
      {
        EmptyTest(nread, |contents|);
        var b := Take();
        Shift(out, b, contents);
        out := out + [b];
      }
      EmptyTest(nread, |contents|);
      TakenIs(old(contents), out, contents, n);
      r := Done;
    }

    /** pipeclose; true when the pipe itself is freed. */
    method Close(writable: bool) returns (freed: bool)
      requires Valid()
      modifies this`readopen, this`writeopen
      ensures Valid() && Now() == if writable then old(Now()).(writeopen := false) else old(Now()).(readopen := false)
      ensures readopen == (writable && old(readopen)) && writeopen == (!writable && old(writeopen))
      ensures freed <==> !readopen && !writeopen
    {
      if writable {
        writeopen := false;
      } else {
        readopen := false;
      }
      freed := !readopen && !writeopen;
    }
  }

  lemma Shift(out: seq<Byte>, b: Byte, rest: seq<Byte>)
    ensures out + ([b] + rest) == out + [b] + rest
  {
  }

  lemma TakenIs(all: seq<Byte>, out: seq<Byte>, rest: seq<Byte>, n: nat)
    requires all == out + rest && |out| <= n && (|out| == n || rest == [])
    ensures out == all[..Min(n, |all|)] && rest == all[Min(n, |all|)..]
  {
  }

  /** nwrite == nread + PIPESIZE, around the wrap, exactly when the pipe is full. */
  lemma FullTest(nread: nat, n: nat)
    requires nread < UINT && n <= PIPESIZE
    ensures (nread + n) % UINT == (nread + PIPESIZE) % UINT <==> n == PIPESIZE
  {
  }

  lemma EmptyTest(nread: nat, n: nat)
    requires nread < UINT && n <= PIPESIZE
    ensures (nread + n) % UINT == nread <==> n == 0
  {
  }

  /** The wrap at 2^32 keeps the slot, because 512 divides 2^32. */
  lemma WrapSlot(nread: nat, n: nat)
    requires nread < UINT && n <= PIPESIZE
    ensures (nread + n) % UINT % PIPESIZE == (nread + n) % PIPESIZE
    ensures ((nread + n) % UINT + 1) % UINT == (nread + (n + 1)) % UINT
  {
  }

  lemma WrapNext(nread: nat, n: nat)
    requires nread < UINT && 0 < n <= PIPESIZE
    ensures (nread + n) % UINT == ((nread + 1) % UINT + (n - 1)) % UINT
  {
  }

  lemma WrapSlotNext(nread: nat, k: nat)
    requires nread < UINT && k < PIPESIZE
    ensures ((nread + 1) % UINT + k) % PIPESIZE == (nread + (k + 1)) % PIPESIZE
  {
  }

  lemma SlotsDiffer(nread: nat, k: nat, n: nat)
    requires k < n < PIPESIZE
    ensures (nread + k) % PIPESIZE != (nread + n) % PIPESIZE
  {
  }
}
