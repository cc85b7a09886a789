/** The pipe's ring buffer. */
module PipeRing {

  const CAPACITY: nat := 4096

  type byte = x: int | 0 <= x < 256

  function Min(a: nat, b: nat): nat { if a < b then a else b }

  /** Index of the i-th buffered byte. */
  function Slot(head: nat, i: nat): (r: nat)
    requires head < CAPACITY && i <= CAPACITY
    ensures r == (head + i) % CAPACITY < CAPACITY
  {
    if head + i < CAPACITY then head + i else head + i - CAPACITY
  }

  class Ring {
    const buf: array<byte>
    var head: nat
    var count: nat

    ghost predicate Valid()
      reads this
    {
      buf.Length == CAPACITY && head < CAPACITY && count <= CAPACITY
    }

    /** The bytes buffered, oldest first. */
    ghost function Contents(): seq<byte>
      requires Valid()
      reads this, buf
    {
      var b, h, n := buf[..], head, count;
      seq<byte>(n, i requires 0 <= i < n <= CAPACITY && h < CAPACITY && |b| == CAPACITY => b[Slot(h, i)])
    }

    constructor ()
      ensures Valid() && Contents() == [] && fresh(buf)
    {
      buf := new byte[CAPACITY](_ => 0);
      head, count := 0, 0;
    }

    method Read(want: nat) returns (out: seq<byte>)
      requires Valid()
      modifies this
      ensures Valid() && |out| == Min(want, |old(Contents())|)
      ensures out + Contents() == old(Contents())
    {
      var n := Min(want, count);
      out := [];
      ghost var was := Contents();
      var i := 0;
      while i < n
        invariant i <= n && |out| == i && out == was[..i]
      {
        assert was[i] == buf[Slot(head, i)];
        out := out + [buf[(head + i) % CAPACITY]];
        i := i + 1;
      }
      head := (head + n) % CAPACITY;
      count := count - n;
      assert forall k :: 0 <= k < count ==> Slot(head, k) == Slot(old(head), n + k);
      assert Contents() == was[n..];
    }

    method Write(bytes: seq<byte>) returns (n: nat)
      requires Valid()
      modifies this, buf
      ensures Valid() && n == Min(|bytes|, CAPACITY - |old(Contents())|)
      ensures Contents() == old(Contents()) + bytes[..n]
    {
      n := Min(|bytes|, CAPACITY - count);
      var tail := (head + count) % CAPACITY;
      ghost var was := Contents();
      var i := 0;
      while i < n
        invariant i <= n && head == old(head) && count == old(count)
        invariant forall k :: 0 <= k < count ==> buf[Slot(head, k)] == was[k]
        invariant forall k :: 0 <= k < i ==> buf[Slot(head, count + k)] == bytes[k]
      {
        assert (tail + i) % CAPACITY == Slot(head, count + i);
        buf[(tail + i) % CAPACITY] := bytes[i];
        i := i + 1;
      }
      count := count + n;
      assert Contents() == was + bytes[..n];
    }
  }
}

/**
 Any number of readers, writers and closers on one pipe. Each step is one stretch
 under the pipe's lock, or one wake issued outside it.
 */
module Pipe {
  import opened PipeRing

  datatype Pc =
    | Idle
    | ReadTry(want: nat, nonblock: bool)      // at the top of the read loop
    | ReadAsleep(want: nat, nonblock: bool)
    | ReadWake                                // took bytes, about to wake writers
    | WriteTry(rest: seq<byte>, nonblock: bool)
    | WriteWake(rest: seq<byte>, nonblock: bool)   // about to wake readers
    | WriteRelock(rest: seq<byte>, nonblock: bool)
    | WriteAsleep(rest: seq<byte>, nonblock: bool)
    | CloseWake(noWriters: bool, noReaders: bool)  // ends counted down, about to wake

  /**
   `written` and `read` record every byte accepted and every byte handed out; `eof` that
   some read returned 0, and `cast` that one did so with bytes in the pipe.
   */
  datatype State = State(data: seq<byte>, readers: nat, writers: nat, pc: seq<Pc>,
                         written: seq<byte>, read: seq<byte>, eof: bool, cast: bool)

  /** Lengths are passed on in 32 bits. */
  function Low32(n: nat): nat { n % 0x1_0000_0000 }

  datatype Action =
    | StartRead(want: nat, nonblock: bool) | DoRead | ReadInterrupted | DoReadWake
    | StartWrite(bytes: seq<byte>, nonblock: bool) | DoWrite | DoWriteWake | Relock | WriteInterrupted
    | CloseReader | CloseWriter | DoCloseWake | DupReader | DupWriter

  predicate Enabled(s: State, t: nat, a: Action) {
    && t < |s.pc|
    && match a
       case StartRead(want, _) => s.pc[t].Idle? && want > 0 && s.readers > 0
       case DoRead => s.pc[t].ReadTry?
       case ReadInterrupted => s.pc[t].ReadAsleep?
       case DoReadWake => s.pc[t].ReadWake?
       case StartWrite(bytes, _) => s.pc[t].Idle? && |bytes| > 0 && s.writers > 0
       case DoWrite => s.pc[t].WriteTry?
       case DoWriteWake => s.pc[t].WriteWake?
       case Relock => s.pc[t].WriteRelock?
       case WriteInterrupted => s.pc[t].WriteAsleep?
       case CloseReader => s.pc[t].Idle? && s.readers > 0
       case CloseWriter => s.pc[t].Idle? && s.writers > 0
       case DoCloseWake => s.pc[t].CloseWake?
       case DupReader => s.pc[t].Idle? && s.readers > 0
       case DupWriter => s.pc[t].Idle? && s.writers > 0
  }

  predicate Reading(p: Pc) { p.ReadTry? || p.ReadAsleep? }

  predicate Writing(p: Pc) { p.WriteTry? || p.WriteRelock? || p.WriteAsleep? || (p.WriteWake? && p.rest != []) }

  predicate NoneReading(s: State) { forall u :: 0 <= u < |s.pc| ==> !Reading(s.pc[u]) }

  predicate NoneWriting(s: State) { forall u :: 0 <= u < |s.pc| ==> !Writing(s.pc[u]) }

  /** The last end of a kind is not closed under a read or write in progress through it. */
  predicate Orderly(s: State, a: Action) {
    && (a.CloseReader? && s.readers == 1 ==> NoneReading(s))
    && (a.CloseWriter? && s.writers == 1 ==> NoneWriting(s))
  }

  function WokenReader(p: Pc): Pc { if p.ReadAsleep? then ReadTry(p.want, p.nonblock) else p }

  function WokenWriter(p: Pc): Pc { if p.WriteAsleep? then WriteTry(p.rest, p.nonblock) else p }

  function WakeReaders(s: State): State { s.(pc := seq(|s.pc|, u requires 0 <= u < |s.pc| => WokenReader(s.pc[u]))) }

  function WakeWriters(s: State): State { s.(pc := seq(|s.pc|, u requires 0 <= u < |s.pc| => WokenWriter(s.pc[u]))) }

  function To(s: State, t: nat, p: Pc): State
    requires t < |s.pc|
  {
    s.(pc := s.pc[t := p])
  }

  /** One pass of the write loop with the lock held. */
  function WritePass(s: State, t: nat, rest: seq<byte>, nonblock: bool): State
    requires t < |s.pc|
  {
    if s.readers == 0 then To(s, t, Idle)
    else
      var n := Min(Low32(|rest|), if |s.data| <= CAPACITY then CAPACITY - |s.data| else 0);
      To(s, t, WriteWake(rest[n..], nonblock)).(data := s.data + rest[..n], written := s.written + rest[..n])
  }

  function Apply(s: State, t: nat, a: Action): State
    requires Enabled(s, t, a)
  {
    match a
    case StartRead(want, nonblock) => To(s, t, ReadTry(want, nonblock))
    case DoRead =>
      if |s.data| > 0 then
        var n := Min(Low32(s.pc[t].want), |s.data|);
        To(s, t, ReadWake).(data := s.data[n..], read := s.read + s.data[..n], eof := s.eof || n == 0, cast := s.cast || n == 0)
      else if s.writers == 0 then To(s, t, Idle).(eof := true)
      else if s.pc[t].nonblock then To(s, t, Idle)
      else To(s, t, ReadAsleep(s.pc[t].want, s.pc[t].nonblock))
    case ReadInterrupted => To(s, t, Idle)
    case DoReadWake => To(WakeWriters(s), t, Idle)
    case StartWrite(bytes, nonblock) => To(s, t, WriteTry(bytes, nonblock))
    case DoWrite => WritePass(s, t, s.pc[t].rest, s.pc[t].nonblock)
    case DoWriteWake =>
      var w := s.pc[t];
      To(WakeReaders(s), t, if w.rest == [] || w.nonblock then Idle else WriteRelock(w.rest, w.nonblock))
    case Relock =>
      if |s.data| == CAPACITY then To(s, t, WriteAsleep(s.pc[t].rest, s.pc[t].nonblock))
      else WritePass(s, t, s.pc[t].rest, s.pc[t].nonblock)
    case WriteInterrupted => To(s, t, Idle)
    case CloseReader =>
      var p := if s.readers == 1 && s.writers == 0 then Idle else CloseWake(s.writers == 0, s.readers == 1);
      To(s, t, p).(readers := s.readers - 1)
    case CloseWriter =>
      var p := if s.writers == 1 && s.readers == 0 then Idle else CloseWake(s.writers == 1, s.readers == 0);
      To(s, t, p).(writers := s.writers - 1)
    case DoCloseWake =>
      var s1 := if s.pc[t].noWriters then WakeReaders(s) else s;
      var s2 := if s.pc[t].noReaders then WakeWriters(s1) else s1;
      To(s2, t, Idle)
    case DupReader => s.(readers := s.readers + 1)
    case DupWriter => s.(writers := s.writers + 1)
  }

  predicate Init(s: State) {
    && s.data == [] && s.written == [] && s.read == [] && !s.eof && !s.cast && s.readers == 1 && s.writers == 1
    && forall t :: 0 <= t < |s.pc| ==> s.pc[t].Idle?
  }

  // ---------------------------------------------------------------- what every step keeps

  /** Nothing is lost, repeated or reordered. */
  predicate InOrder(s: State) { |s.data| <= CAPACITY && s.read + s.data == s.written }

  /** A thread that is about to wake all readers. */
  predicate WillWakeReaders(p: Pc) { p.WriteWake? || (p.CloseWake? && p.noWriters) }

  predicate WakeDue(s: State) { exists u :: 0 <= u < |s.pc| && WillWakeReaders(s.pc[u]) }

  /** Operations in progress have their end open. */
  predicate EndsHeld(s: State) {
    && (forall t :: 0 <= t < |s.pc| && Reading(s.pc[t]) ==> s.readers > 0)
    && (forall t :: 0 <= t < |s.pc| && Writing(s.pc[t]) ==> s.writers > 0)
  }

  /** A reader sleeps only on an empty pipe that can still be written, or with its wake already due. */
  predicate ReadersCovered(s: State) {
    forall t :: 0 <= t < |s.pc| && s.pc[t].ReadAsleep? ==> (s.data == [] && s.writers > 0) || WakeDue(s)
  }

  /** A read returned 0 only once every byte had been read, and nothing can follow. */
  predicate EofFinal(s: State) { s.eof && !s.cast ==> s.writers == 0 && s.data == [] }

  predicate Inv(s: State) { InOrder(s) && EndsHeld(s) && ReadersCovered(s) && EofFinal(s) }

  lemma {:induction false} EndsHeldStep(s: State, t: nat, a: Action)
    requires EndsHeld(s) && Enabled(s, t, a) && Orderly(s, a)
    ensures EndsHeld(Apply(s, t, a))
  {
    ReadersHeldStep(s, t, a);
    WritersHeldStep(s, t, a);
  }

  lemma {:induction false} ReadersHeldStep(s: State, t: nat, a: Action)
    requires EndsHeld(s) && Enabled(s, t, a) && Orderly(s, a)
    ensures forall u :: 0 <= u < |Apply(s, t, a).pc| && Reading(Apply(s, t, a).pc[u]) ==> Apply(s, t, a).readers > 0
  {
    var s' := Apply(s, t, a);
    forall u | 0 <= u < |s'.pc| && Reading(s'.pc[u])
      ensures s'.readers > 0
    {
      assert Reading(s.pc[u]) || a.StartRead?;
    }
  }

  lemma {:induction false} WritersHeldStep(s: State, t: nat, a: Action)
    requires EndsHeld(s) && Enabled(s, t, a) && Orderly(s, a)
    ensures forall u :: 0 <= u < |Apply(s, t, a).pc| && Writing(Apply(s, t, a).pc[u]) ==> Apply(s, t, a).writers > 0
  {
    var s' := Apply(s, t, a);
    forall u | 0 <= u < |s'.pc| && Writing(s'.pc[u])
      ensures s'.writers > 0
    {
      assert Writing(s.pc[u]) || a.StartWrite?;
    }
  }

  /** End of file stays final exactly unless a write under way since before the last write end closed puts bytes in after it. */
  lemma {:induction false} EofStepIff(s: State, t: nat, a: Action)
    requires EofFinal(s) && Enabled(s, t, a)
    ensures EofFinal(Apply(s, t, a)) <==> !(s.eof && !s.cast && |Apply(s, t, a).written| > |s.written|)
  {
  }

  lemma {:induction false} EofStep(s: State, t: nat, a: Action)
    requires EofFinal(s) && EndsHeld(s) && Enabled(s, t, a)
    ensures EofFinal(Apply(s, t, a))
  {
    EofStepIff(s, t, a);
    if a.DoWrite? || a.Relock? {
      assert Writing(s.pc[t]);
    }
  }

  lemma {:induction false} InOrderStep(s: State, t: nat, a: Action)
    requires InOrder(s) && Enabled(s, t, a)
    ensures InOrder(Apply(s, t, a))
  {
    if a.DoWrite? || a.Relock? {
      var rest := s.pc[t].rest;
      var n := Min(Low32(|rest|), CAPACITY - |s.data|);
      assert s.read + (s.data + rest[..n]) == s.written + rest[..n];
    } else if a.DoRead? && |s.data| > 0 {
      var n := Min(Low32(s.pc[t].want), |s.data|);
      assert s.data == s.data[..n] + s.data[n..];
      assert (s.read + s.data[..n]) + s.data[n..] == s.read + s.data;
    }
  }

  lemma {:induction false} CoveredByWake(s: State, t: nat, a: Action)
    requires Enabled(s, t, a) && (a.DoWriteWake? || (a.DoCloseWake? && s.pc[t].noWriters))
    ensures ReadersCovered(Apply(s, t, a))
  {
    assert forall u :: 0 <= u < |s.pc| ==> !Apply(s, t, a).pc[u].ReadAsleep?;
  }

  /** Any other step keeps the wakes that are due, and one that ends the reason to sleep makes a wake due. */
  lemma {:induction false} CoveredStep(s: State, t: nat, a: Action)
    requires ReadersCovered(s) && EndsHeld(s) && Enabled(s, t, a) && !a.DoWriteWake? && !(a.DoCloseWake? && s.pc[t].noWriters)
    ensures ReadersCovered(Apply(s, t, a))
  {
    var s' := Apply(s, t, a);
    assert forall u :: 0 <= u < |s.pc| && u != t ==> (s'.pc[u].ReadAsleep? <==> s.pc[u].ReadAsleep?);
    assert forall u :: 0 <= u < |s.pc| && WillWakeReaders(s.pc[u]) ==> WillWakeReaders(s'.pc[u]);
    forall z | 0 <= z < |s'.pc| && s'.pc[z].ReadAsleep?
      ensures (s'.data == [] && s'.writers > 0) || WakeDue(s')
    {
      if WillWakeReaders(s'.pc[t]) {
        assert WakeDue(s');
      } else if z != t {
        assert Reading(s.pc[z]);
        assert WakeDue(s) ==> WakeDue(s');
      }
    }
  }

  // ---------------------------------------------------------------- over whole runs

  ghost predicate Next(s: State, s': State) { exists t: nat, a :: Enabled(s, t, a) && Orderly(s, a) && s' == Apply(s, t, a) }

  ghost predicate IsRun(run: seq<State>) {
    && |run| > 0 && Init(run[0])
    && forall i :: 0 <= i < |run| - 1 ==> Next(run[i], run[i + 1])
  }

  /** In every run: bytes come out in the order they went in, no reader is stranded, and end of file is final. */
  lemma {:induction false} PipeSafe(run: seq<State>, i: nat)
    requires IsRun(run) && i < |run|
    ensures Inv(run[i])
  {
    hide Apply;
    if i > 0 {
      PipeSafe(run, i - 1);
      var s := run[i - 1];
      assert Next(s, run[i]);
      var t: nat, a :| Enabled(s, t, a) && Orderly(s, a) && run[i] == Apply(s, t, a);
      InOrderStep(s, t, a);
      EndsHeldStep(s, t, a);
      EofStep(s, t, a);
      if a.DoWriteWake? || (a.DoCloseWake? && s.pc[t].noWriters) {
        CoveredByWake(s, t, a);
      } else {
        CoveredStep(s, t, a);
      }
    }
  }

  /** A read returns 0 exactly at end of file, or if it asks for a multiple of 2^32 bytes of a pipe that has some. */
  lemma {:induction false} ReadZeroIff(s: State, t: nat)
    requires Enabled(s, t, DoRead) && !s.eof && !s.cast
    ensures Apply(s, t, DoRead).eof <==> if s.data == [] then s.writers == 0 else Low32(s.pc[t].want) == 0
    ensures Apply(s, t, DoRead).cast <==> s.data != [] && Low32(s.pc[t].want) == 0
  {
  }

  /** The second does happen. */
  lemma {:induction false} CastLooksLikeEof() returns (run: seq<State>)
    ensures IsRun(run) && Last(run).eof && Last(run).data != [] && Last(run).writers == 1
  {
    run := [State([], 1, 1, [Idle, Idle], [], [], false, false)];
    run := Extend(run, 0, StartWrite([7], false));
    run := Extend(run, 0, DoWrite);
    run := Extend(run, 1, StartRead(0x1_0000_0000, false));
    run := Extend(run, 1, DoRead);
  }

  /** Otherwise, a reader told end of file has been given, with the other readers, everything ever written. */
  lemma {:induction false} EofMeansAllRead(run: seq<State>, i: nat)
    requires IsRun(run) && i < |run| && run[i].eof && !run[i].cast
    ensures run[i].read == run[i].written
  {
    PipeSafe(run, i);
    assert run[i].read + [] == run[i].read;
  }

  /** Bytes to read, or nothing left to wait for, always come with a wake for whoever sleeps. */
  lemma {:induction false} SleepingReaderWillWake(run: seq<State>, i: nat, z: nat)
    requires IsRun(run) && i < |run| && z < |run[i].pc| && run[i].pc[z].ReadAsleep?
    requires run[i].data != [] || run[i].writers == 0
    ensures exists u :: 0 <= u < |run[i].pc| && WillWakeReaders(run[i].pc[u])
  {
    PipeSafe(run, i);
  }

  // ---------------------------------------------------------------- sleeping writers

  predicate WillWakeWriters(p: Pc) { p.ReadWake? || (p.CloseWake? && p.noReaders) }

  predicate WriterWakeDue(s: State) { exists u :: 0 <= u < |s.pc| && WillWakeWriters(s.pc[u]) }

  /** A writer sleeps only on a full pipe that somebody may still read, or with its wake already due. */
  predicate WritersCovered(s: State) {
    forall t :: 0 <= t < |s.pc| && s.pc[t].WriteAsleep? ==> (|s.data| == CAPACITY && s.readers > 0) || WriterWakeDue(s)
  }

  lemma {:induction false} WritersCoveredByWake(s: State, t: nat, a: Action)
    requires Enabled(s, t, a) && (a.DoReadWake? || (a.DoCloseWake? && s.pc[t].noReaders))
    ensures WritersCovered(Apply(s, t, a))
  {
    assert forall u :: 0 <= u < |s.pc| ==> !Apply(s, t, a).pc[u].WriteAsleep?;
  }

  lemma {:induction false} WritersCoveredStep(s: State, t: nat, a: Action)
    requires WritersCovered(s) && EndsHeld(s) && Enabled(s, t, a)
    requires !a.DoReadWake? && !(a.DoCloseWake? && s.pc[t].noReaders) && !a.Relock?
    ensures WritersCovered(Apply(s, t, a))
  {
    var s' := Apply(s, t, a);
    assert forall u :: 0 <= u < |s.pc| && u != t ==> (s'.pc[u].WriteAsleep? <==> s.pc[u].WriteAsleep?);
    assert forall u :: 0 <= u < |s.pc| && WillWakeWriters(s.pc[u]) ==> WillWakeWriters(s'.pc[u]);
    forall z | 0 <= z < |s'.pc| && s'.pc[z].WriteAsleep?
      ensures (|s'.data| == CAPACITY && s'.readers > 0) || WriterWakeDue(s')
    {
      if WillWakeWriters(s'.pc[t]) {
        assert WriterWakeDue(s');
      } else {
        assert Writing(s.pc[z]);
        assert WriterWakeDue(s) ==> WriterWakeDue(s');
      }
    }
  }

  /**
   The one step that can strand a writer is going to sleep after retaking the
   lock, where only fullness is looked at again. It does so exactly when the last
   reader has gone and no wake is on its way.
   */
  lemma {:induction false} RelockStrandsIff(s: State, t: nat)
    requires WritersCovered(s) && InOrder(s) && Enabled(s, t, Relock)
    ensures !WritersCovered(Apply(s, t, Relock)) <==> Strands(s)
  {
    var s' := Apply(s, t, Relock);
    assert forall u :: 0 <= u < |s.pc| && u != t ==> s'.pc[u] == s.pc[u];
    assert WriterWakeDue(s) ==> WriterWakeDue(s') by {
      assert forall u :: 0 <= u < |s.pc| && WillWakeWriters(s.pc[u]) ==> WillWakeWriters(s'.pc[u]);
    }
    if |s.data| == CAPACITY {
      assert s'.pc[t].WriteAsleep?;
      assert WriterWakeDue(s') ==> WriterWakeDue(s);
    } else if s.readers == 0 {
      assert s'.data == s.data;
      assert forall z :: 0 <= z < |s'.pc| && s'.pc[z].WriteAsleep? ==> s.pc[z].WriteAsleep?;
    } else {
      assert forall z :: 0 <= z < |s'.pc| && s'.pc[z].WriteAsleep? ==> s.pc[z].WriteAsleep?;
    }
  }

  /** The state in which retaking the lock strands the writer that does. */
  predicate Strands(s: State) { |s.data| == CAPACITY && s.readers == 0 && !WriterWakeDue(s) }

  /** A step that does not. */
  ghost predicate SafeNext(s: State, s': State) {
    exists t: nat, a :: Enabled(s, t, a) && s' == Apply(s, t, a) && !(a.Relock? && Strands(s))
  }

  /** In every run, no writer is stranded as long as nobody retakes the lock in such a state. */
  lemma {:induction false} WritersSafe(run: seq<State>, i: nat)
    requires IsRun(run) && i < |run| && forall j :: 0 <= j < i ==> SafeNext(run[j], run[j + 1])
    ensures WritersCovered(run[i])
  {
    hide Apply;
    hide WritersCovered;
    if i == 0 {
      NoneAsleep(run[0]);
    } else {
      WritersSafe(run, i - 1);
      PipeSafe(run, i - 1);
      var s := run[i - 1];
      assert SafeNext(s, run[i]);
      var t: nat, a :| Enabled(s, t, a) && run[i] == Apply(s, t, a) && !(a.Relock? && Strands(s));
      if a.DoReadWake? || (a.DoCloseWake? && s.pc[t].noReaders) {
        WritersCoveredByWake(s, t, a);
      } else if a.Relock? {
        RelockStrandsIff(s, t);
      } else {
        WritersCoveredStep(s, t, a);
      }
    }
  }

  lemma {:induction false} NoneAsleep(s: State)
    requires Init(s)
    ensures WritersCovered(s)
  {
  }

  /** A stranded writer: asleep, nobody left to read, nobody about to wake it. */
  predicate Stranded(s: State, t: nat) {
    t < |s.pc| && s.pc[t].WriteAsleep? && s.readers == 0 && !WriterWakeDue(s)
  }

  /** Only a signal, or somebody closing another write end, gets a stranded writer out. */
  lemma {:induction false} StrandedForGood(s: State, t: nat, u: nat, a: Action)
    requires EndsHeld(s) && Stranded(s, t) && Enabled(s, u, a) && u != t && !a.CloseWriter?
    ensures Stranded(Apply(s, u, a), t)
  {
    var s' := Apply(s, u, a);
    assert !Reading(s.pc[u]) && !WillWakeWriters(s.pc[u]);
    assert !Reading(s.pc[t]);
    assert Writing(s.pc[t]);
    assert forall z :: 0 <= z < |s.pc| ==> WillWakeWriters(s'.pc[z]) ==> WillWakeWriters(s.pc[z]);
  }

  function Last(run: seq<State>): State
    requires |run| > 0
  {
    run[|run| - 1]
  }

  lemma {:induction false} Extend(run: seq<State>, t: nat, a: Action) returns (run': seq<State>)
    requires IsRun(run) && Enabled(Last(run), t, a) && Orderly(Last(run), a)
    ensures IsRun(run') && Last(run') == Apply(Last(run), t, a)
  {
    run' := run + [Apply(Last(run), t, a)];
    forall i | 0 <= i < |run'| - 1
      ensures Next(run'[i], run'[i + 1])
    {
      if i < |run| - 1 {
        assert Next(run[i], run[i + 1]);
      } else {
        assert run'[i] == Last(run);
      }
    }
  }

  /** A writer of one byte more than fits, between dropping the lock and retaking it. */
  lemma {:induction false} FilledPipe() returns (run: seq<State>)
    ensures IsRun(run) && |Last(run).data| == CAPACITY && Last(run).readers == 1 && Last(run).writers == 1
    ensures |Last(run).pc| == 2 && Last(run).pc[0].WriteRelock? && Last(run).pc[1].Idle?
  {
    var bytes: seq<byte> := seq<byte>(CAPACITY + 1, _ => 0);
    run := [State([], 1, 1, [Idle, Idle], [], [], false, false)];
    run := Extend(run, 0, StartWrite(bytes, false));
    run := Extend(run, 0, DoWrite);
    run := Extend(run, 0, DoWriteWake);
  }

  /** It is stranded when the reader closes just then. */
  lemma {:induction false} WriterCanBeStranded() returns (run: seq<State>)
    ensures IsRun(run) && Stranded(Last(run), 0)
  {
    run := FilledPipe();
    run := Extend(run, 1, CloseReader);
    run := Extend(run, 1, DoCloseWake);
    run := Extend(run, 0, Relock);
  }

  /** That does happen when a write end is closed under a write: the writer's byte comes after end of file was reported. */
  lemma {:induction false} CloseUnderWrite() returns (run: seq<State>, acts: seq<(nat, Action)>)
    ensures |run| == |acts| + 1 == 7 && Init(run[0])
    ensures forall i :: 0 <= i < 6 ==> Enabled(run[i], acts[i].0, acts[i].1) && run[i + 1] == Apply(run[i], acts[i].0, acts[i].1)
    ensures run[5].eof && !run[5].cast && run[5].writers == 0 && |run[6].written| > |run[5].written|
  {
    var s0 := State([], 1, 1, [Idle, Idle], [], [], false, false);
    acts := [(0, StartWrite([7], false)), (1, CloseWriter), (1, DoCloseWake), (1, StartRead(1, false)), (1, DoRead), (0, DoWrite)];
    var s1 := Apply(s0, 0, StartWrite([7], false));
    var s2 := Apply(s1, 1, CloseWriter);
    var s3 := Apply(s2, 1, DoCloseWake);
    assert s3 == s0.(writers := 0, pc := [WriteTry([7], false), Idle]);
    var s4 := Apply(s3, 1, StartRead(1, false));
    var s5 := Apply(s4, 1, DoRead);
    var s6 := Apply(s5, 0, DoWrite);
    run := [s0, s1, s2, s3, s4, s5, s6];
  }
}
