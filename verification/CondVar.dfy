/**
 The sequence-number condition variable, over every interleaving of any number
 of waiters, signallers and broadcasters. `count` is the number of signals and
 broadcasts ever started; the 32-bit word holds it modulo 2^32. The mutex around
 it is the caller's business and does not affect what is stated here.
 */
module CondVar {
  import opened FutexKernel
  import opened Lists

  const MODULUS: nat := 0x1_0000_0000
  const WAKE_ALL: nat := 0x7FFF_FFFF

  datatype Pc =
    | Out
    | Read(r: nat)                 // has read the sequence number, still outside the kernel
    | InWait(r: nat)               // inside futex_wait with the number read
    | Waking(b: nat, all: bool)    // made the number b, about to wake

  /** `done` only records history: the largest number whose broadcast has finished its wake. */
  datatype State = State(count: nat, k: Kernel, pc: seq<Pc>, done: nat)

  datatype Action = ReadSeq | Enter | InKernel(st: KStep) | Return | Bump(all: bool) | DoWake

  predicate Enabled(s: State, t: Tid, a: Action) {
    && t < |s.pc| == |s.k.ph|
    && match a
       case ReadSeq => s.pc[t].Out?
       case Enter => s.pc[t].Read? && s.k.ph[t].User?
       case InKernel(st) => s.pc[t].InWait? && KEnabled(s.k, t, st)
       case Return => s.pc[t].InWait? && s.k.ph[t].Returned?
       case Bump(_) => s.pc[t].Out?
       case DoWake => s.pc[t].Waking? && s.k.lock == -1
  }

  function Apply(s: State, t: Tid, a: Action): State
    requires Enabled(s, t, a)
  {
    match a
    case ReadSeq => s.(pc := s.pc[t := Read(s.count)])
    case Enter =>
      s.(pc := s.pc[t := InWait(s.pc[t].r)], k := s.k.(ph := s.k.ph[t := Entering(s.pc[t].r % MODULUS)]))
    case InKernel(st) => s.(k := KApply(s.k, t, st, s.count % MODULUS))
    case Return => s.(pc := s.pc[t := Out], k := s.k.(ph := s.k.ph[t := User]))
    case Bump(all) => s.(count := s.count + 1, pc := s.pc[t := Waking(s.count + 1, all)])
    case DoWake =>
      s.(pc := s.pc[t := Out],
         k := WakeUpTo(s.k, if s.pc[t].all then WAKE_ALL else 1),
         done := if s.pc[t].all && s.pc[t].b > s.done then s.pc[t].b else s.done)
  }

  predicate Init(s: State) {
    && s.count == 0 && s.done == 0 && s.k.lock == -1 && s.k.list == [] && |s.pc| == |s.k.ph| <= WAKE_ALL
    && forall t :: 0 <= t < |s.pc| ==> s.pc[t].Out? && s.k.ph[t].User?
  }

  /** Fewer than 2^32 signals fall between a waiter's read and its comparison. */
  predicate Window(s: State) {
    forall t :: 0 <= t < |s.pc| && t < |s.k.ph| && s.pc[t].InWait? && s.k.ph[t].Comparing? ==> s.count - s.pc[t].r < MODULUS
  }

  /** Without that window the comparison is fooled, at exactly the multiples of 2^32. */
  lemma {:induction false} ComparisonFooledIff(r: nat, count: nat)
    requires r <= count
    ensures r % MODULUS == count % MODULUS <==> (count - r) % MODULUS == 0
    ensures count - r < MODULUS ==> (r % MODULUS == count % MODULUS <==> r == count)
  {
    var q, p := r / MODULUS, count / MODULUS;
    assert r == q * MODULUS + r % MODULUS && count == p * MODULUS + count % MODULUS;
    assert count - r == (p - q) * MODULUS + (count % MODULUS - r % MODULUS);
  }

  // ---------------------------------------------------------------- the invariant

  predicate Committed(p: Phase) { Sleeping(p) || OnList(p) }

  predicate Linked(s: State) {
    && |s.pc| == |s.k.ph| <= WAKE_ALL && KInv(s.k)
    && (forall t :: 0 <= t < |s.pc| ==> (s.pc[t].InWait? <==> !s.k.ph[t].User?))
    && (forall t :: 0 <= t < |s.pc| && (s.k.ph[t].Entering? || s.k.ph[t].Comparing?) ==> s.k.ph[t].val == s.pc[t].r % MODULUS)
  }

  predicate Bounded(s: State) {
    && s.done <= s.count
    && (forall t :: 0 <= t < |s.pc| && (s.pc[t].Read? || s.pc[t].InWait?) ==> s.pc[t].r <= s.count)
    && (forall t :: 0 <= t < |s.pc| && s.pc[t].Waking? ==> s.pc[t].b <= s.count)
  }

  /** Nobody committed to sleeping read its number before the last finished broadcast. */
  predicate AfterBroadcast(s: State)
    requires Linked(s)
  {
    forall t :: 0 <= t < |s.pc| && Committed(s.k.ph[t]) ==> s.pc[t].r >= s.done
  }

  /** From front to back the listed threads hold ever smaller numbers, starting at no more than `bound`. */
  predicate Newest(list: seq<Tid>, pc: seq<Pc>, bound: nat) {
    list == [] ||
    (list[0] < |pc| && pc[list[0]].InWait? && pc[list[0]].r <= bound && Newest(list[1..], pc, pc[list[0]].r))
  }

  /** The bucket list runs from the latest number read to the earliest. */
  predicate NewestFirst(s: State)
    requires Linked(s)
  {
    && Newest(s.k.list, s.pc, s.count)
    && (forall t :: 0 <= t < |s.pc| && s.k.ph[t].Queueing? ==> Newest(s.k.list, s.pc, s.pc[t].r))
  }

  predicate Inv(s: State) { Linked(s) && Bounded(s) && AfterBroadcast(s) && NewestFirst(s) }

  lemma {:induction false} LinkedKernelStep(s: State, t: Tid, st: KStep)
    requires Linked(s) && Enabled(s, t, InKernel(st))
    ensures Linked(Apply(s, t, InKernel(st)))
  {
    KStepKeepsInv(s.k, t, st, s.count % MODULUS);
  }

  lemma {:induction false} LinkedWake(s: State, t: Tid)
    requires Linked(s) && Enabled(s, t, DoWake)
    ensures Linked(Apply(s, t, DoWake))
  {
    var n := if s.pc[t].all then WAKE_ALL else 1;
    WakeKeepsInv(s.k, n);
    forall u | 0 <= u < |s.pc|
      ensures var p := Apply(s, t, DoWake).k.ph[u]; p == s.k.ph[u] || (p.Woken? && !s.k.ph[u].User?)
    {
      WokenWereListed(s.k, n, u);
    }
  }

  lemma {:induction false} LinkedStep(s: State, t: Tid, a: Action)
    requires Linked(s) && Enabled(s, t, a)
    ensures Linked(Apply(s, t, a))
  {
    match a
    case InKernel(st) => LinkedKernelStep(s, t, st);
    case DoWake => LinkedWake(s, t);
    case Enter => EnterKeepsInv(s.k, t, Entering(s.pc[t].r % MODULUS));
    case Return => EnterKeepsInv(s.k, t, User);
    case _ =>
  }

  /** A passed comparison, inside the window, means the number has not moved. */
  lemma {:induction false} ComparePassed(s: State, t: Tid)
    requires Linked(s) && Bounded(s) && Window(s) && Enabled(s, t, InKernel(Compare))
    ensures Apply(s, t, InKernel(Compare)).k.ph[t].Queueing? <==> s.pc[t].r == s.count
  {
    ComparisonFooledIff(s.pc[t].r, s.count);
  }

  lemma {:induction false} BroadcastEmptiesList(k: Kernel)
    requires KInv(k) && k.lock == -1 && |k.ph| <= WAKE_ALL
    ensures forall t :: 0 <= t < |k.ph| ==> !Committed(WakeUpTo(k, WAKE_ALL).ph[t])
  {
    assert forall x :: x in k.list ==> x < |k.ph|;
    Pigeonhole(k.list, |k.ph|);
    WakeAllEmpties(k, WAKE_ALL);
    WakeKeepsInv(k, WAKE_ALL);
  }

  lemma {:induction false} AfterBroadcastKernelStep(s: State, t: Tid, st: KStep)
    requires Linked(s) && Bounded(s) && AfterBroadcast(s) && Window(s) && Enabled(s, t, InKernel(st))
    requires Linked(Apply(s, t, InKernel(st)))
    ensures AfterBroadcast(Apply(s, t, InKernel(st)))
  {
    if st == Compare {
      ComparePassed(s, t);
    }
  }

  lemma {:induction false} AfterBroadcastWake(s: State, t: Tid)
    requires Linked(s) && AfterBroadcast(s) && Enabled(s, t, DoWake)
    requires Linked(Apply(s, t, DoWake))
    ensures AfterBroadcast(Apply(s, t, DoWake))
  {
    var s' := Apply(s, t, DoWake);
    if s.pc[t].all {
      BroadcastEmptiesList(s.k);
      assert forall u :: 0 <= u < |s'.pc| ==> !Committed(s'.k.ph[u]);
    } else {
      forall u | 0 <= u < |s'.pc| && Committed(s'.k.ph[u])
        ensures s'.pc[u].r >= s'.done
      {
        WokenWereListed(s.k, 1, u);
        assert Committed(s.k.ph[u]) && u != t;
      }
    }
  }

  lemma {:induction false} AfterBroadcastStep(s: State, t: Tid, a: Action)
    requires Linked(s) && Bounded(s) && AfterBroadcast(s) && Window(s) && Enabled(s, t, a)
    requires Linked(Apply(s, t, a))
    ensures AfterBroadcast(Apply(s, t, a))
  {
    match a
    case InKernel(st) => AfterBroadcastKernelStep(s, t, st);
    case DoWake => AfterBroadcastWake(s, t);
    case _ =>
  }

  lemma {:induction false} NewestFrame(list: seq<Tid>, pc: seq<Pc>, pc': seq<Pc>, bound: nat, bound': nat)
    requires Newest(list, pc, bound) && bound <= bound'
    requires forall x :: x in list && x < |pc| ==> x < |pc'| && pc'[x] == pc[x]
    ensures Newest(list, pc', bound')
  {
    if list != [] {
      assert list[0] in list && forall x :: x in list[1..] ==> x in list;
      NewestFrame(list[1..], pc, pc', pc[list[0]].r, pc[list[0]].r);
    }
  }

  lemma {:induction false} NewestDrop(list: seq<Tid>, t: Tid, pc: seq<Pc>, bound: nat)
    requires Newest(list, pc, bound)
    ensures Newest(Without(list, t), pc, bound)
  {
    if list != [] {
      if list[0] == t {
        NewestFrame(list[1..], pc, pc, pc[t].r, bound);
      } else {
        NewestDrop(list[1..], t, pc, pc[list[0]].r);
        assert Without(list, t)[1..] == Without(list[1..], t);
      }
    }
  }

  lemma {:induction false} NewestAfterWake(k: Kernel, n: nat, pc: seq<Pc>, bound: nat)
    requires Newest(k.list, pc, bound)
    ensures Newest(WakeUpTo(k, n).list, pc, bound)
    ensures forall x :: x in WakeUpTo(k, n).list ==> x in k.list
    decreases n
  {
    if n > 0 && k.list != [] && k.list[0] < |k.ph| {
      NewestFrame(k.list[1..], pc, pc, pc[k.list[0]].r, bound);
      NewestAfterWake(WakeOne(k), n - 1, pc, bound);
    }
  }

  lemma {:induction false} NewestBounds(list: seq<Tid>, pc: seq<Pc>, bound: nat, x: Tid)
    requires Newest(list, pc, bound) && x in list
    ensures x < |pc| && pc[x].InWait? && pc[x].r <= bound
  {
    if list[0] != x {
      assert x in list[1..];
      NewestBounds(list[1..], pc, pc[list[0]].r, x);
    }
  }

  lemma {:induction false} NewestFirstKernelStep(s: State, t: Tid, st: KStep)
    requires Linked(s) && Bounded(s) && NewestFirst(s) && Window(s) && Enabled(s, t, InKernel(st))
    requires Linked(Apply(s, t, InKernel(st)))
    ensures NewestFirst(Apply(s, t, InKernel(st)))
  {
    match st
    case Compare => ComparePassed(s, t);
    case FallAsleep =>
      assert ([t] + s.k.list)[1..] == s.k.list;
    case Unlink => NewestDrop(s.k.list, t, s.pc, s.count);
    case _ =>
  }

  lemma {:induction false} NewestFirstUserStep(s: State, t: Tid, a: Action)
    requires Linked(s) && NewestFirst(s) && Enabled(s, t, a) && !a.InKernel? && !a.DoWake?
    requires Linked(Apply(s, t, a))
    ensures NewestFirst(Apply(s, t, a))
  {
    var s' := Apply(s, t, a);
    assert t !in s.k.list;
    NewestFrame(s.k.list, s.pc, s'.pc, s.count, s'.count);
    forall u | 0 <= u < |s'.pc| && s'.k.ph[u].Queueing?
      ensures Newest(s'.k.list, s'.pc, s'.pc[u].r)
    {
      NewestFrame(s.k.list, s.pc, s'.pc, s.pc[u].r, s.pc[u].r);
    }
  }

  lemma {:induction false} NewestFirstWake(s: State, t: Tid)
    requires Linked(s) && NewestFirst(s) && Enabled(s, t, DoWake)
    requires Linked(Apply(s, t, DoWake))
    ensures NewestFirst(Apply(s, t, DoWake))
  {
    var s' := Apply(s, t, DoWake);
    assert t !in s.k.list;
    var n := if s.pc[t].all then WAKE_ALL else 1;
    NewestAfterWake(s.k, n, s.pc, s.count);
    NewestFrame(s'.k.list, s.pc, s'.pc, s.count, s.count);
    forall u | 0 <= u < |s.pc|
      ensures !s'.k.ph[u].Queueing?
    {
      WokenWereListed(s.k, n, u);
    }
  }

  lemma {:induction false} NewestFirstStep(s: State, t: Tid, a: Action)
    requires Inv(s) && Window(s) && Enabled(s, t, a) && Linked(Apply(s, t, a))
    ensures NewestFirst(Apply(s, t, a))
  {
    match a
    case InKernel(st) => NewestFirstKernelStep(s, t, st);
    case DoWake => NewestFirstWake(s, t);
    case _ => NewestFirstUserStep(s, t, a);
  }

  lemma {:induction false} BoundedStep(s: State, t: Tid, a: Action)
    requires Bounded(s) && Enabled(s, t, a)
    ensures Bounded(Apply(s, t, a)) && Apply(s, t, a).done >= s.done
  {
  }

  // ---------------------------------------------------------------- over whole runs

  ghost predicate Next(s: State, s': State) { exists t, a :: Enabled(s, t, a) && s' == Apply(s, t, a) }

  ghost predicate IsRun(run: seq<State>) {
    && |run| > 0 && Init(run[0])
    && (forall i :: 0 <= i < |run| ==> Window(run[i]))
    && forall i :: 0 <= i < |run| - 1 ==> Next(run[i], run[i + 1])
  }

  lemma {:induction false} InvStep(s: State, s': State)
    requires Inv(s) && Window(s) && Next(s, s')
    ensures Inv(s') && s'.done >= s.done
  {
    var t, a :| Enabled(s, t, a) && s' == Apply(s, t, a);
    LinkedStep(s, t, a);
    BoundedStep(s, t, a);
    AfterBroadcastStep(s, t, a);
    NewestFirstStep(s, t, a);
  }

  lemma {:induction false} InvInit(s: State)
    requires Init(s)
    ensures Inv(s)
  {
  }

  lemma {:induction false} CondSafe(run: seq<State>, i: nat, j: nat)
    requires IsRun(run) && i <= j < |run|
    ensures Inv(run[i]) && Inv(run[j]) && run[j].done >= run[i].done
    decreases j, i
  {
    hide Init;
    hide Inv;
    hide Next;
    hide Window;
    if j == 0 {
      InvInit(run[0]);
    } else {
      var s, s' := run[j - 1], run[j];
      CondSafe(run, if i < j then i else i - 1, j - 1);
      assert Window(s) && Next(s, s');
      InvStep(s, s');
    }
  }

  /** Once a broadcast has returned, at no later time does anyone sleep who read before its increment. */
  lemma {:induction false} BroadcastReachesAll(run: seq<State>, i: nat, j: nat, t: Tid, z: Tid)
    requires IsRun(run) && i + 1 <= j < |run|
    requires Enabled(run[i], t, DoWake) && run[i].pc[t].all && run[i + 1] == Apply(run[i], t, DoWake)
    requires z < |run[j].pc| == |run[j].k.ph| && run[j].pc[z].InWait? && run[j].pc[z].r < run[i].pc[t].b
    ensures !Sleeping(run[j].k.ph[z])
  {
    CondSafe(run, i + 1, j);
  }

  /** The thread a signal takes off the list. */
  function Chosen(s: State): Tid
    requires s.k.list != []
  {
    s.k.list[0]
  }

  /**
   A signal wakes a waiter whenever there is one, and the one it wakes had read
   its number before the signal exactly when nobody who read it afterwards is
   waiting.
   */
  lemma {:induction false} SignalWakesOne(run: seq<State>, i: nat, t: Tid)
    requires IsRun(run) && i < |run| && Enabled(run[i], t, DoWake) && !run[i].pc[t].all
    requires exists z :: 0 <= z < |run[i].pc| && Sleeping(run[i].k.ph[z])
    ensures var s := run[i];
            var s' := Apply(s, t, DoWake);
            && s.k.list != [] && Chosen(s) < |s.pc| == |s'.k.ph|
            && OnList(s.k.ph[Chosen(s)]) && s'.k.ph[Chosen(s)].Woken? && s.pc[Chosen(s)].InWait?
    ensures var s := run[i];
            s.pc[Chosen(s)].r < s.pc[t].b <==>
              forall x :: x in s.k.list ==> x < |s.pc| && s.pc[x].InWait? && s.pc[x].r < s.pc[t].b
  {
    CondSafe(run, i, i);
    var s := run[i];
    SleepersListed(s.k);
    assert WakeUpTo(s.k, 1) == WakeOne(s.k);
    forall x | x in s.k.list
      ensures x < |s.pc| && s.pc[x].InWait? && s.pc[Chosen(s)].r >= s.pc[x].r
    {
      if x != Chosen(s) {
        NewestBounds(s.k.list[1..], s.pc, s.pc[Chosen(s)].r, x);
      }
    }
  }

  // ---------------------------------------------------------------- which waiter a signal wakes

  function Last(run: seq<State>): State
    requires |run| > 0
  {
    run[|run| - 1]
  }

  lemma {:induction false} Extend(run: seq<State>, t: Tid, a: Action) returns (run': seq<State>)
    requires IsRun(run) && Enabled(Last(run), t, a) && Window(Apply(Last(run), t, a))
    ensures IsRun(run') && Last(run') == Apply(Last(run), t, a)
  {
    run' := run + [Apply(Last(run), t, a)];
    forall i | 0 <= i < |run'| - 1
      ensures Next(run'[i], run'[i + 1])
    {
      if i < |run| - 1 {
        assert Next(run[i], run[i + 1]);
      } else {
        assert run'[i] == Last(run);
      }
    }
  }

  predicate Quiet(s: State) { forall t :: 0 <= t < |s.k.ph| ==> s.k.ph[t].User? || s.k.ph[t].Asleep? }

  predicate CanSleep(s: State, t: Tid) {
    t < |s.pc| == |s.k.ph| && s.k.lock == -1 && Quiet(s) && s.pc[t].Out? && s.k.ph[t].User?
  }

  function Slept(s: State, t: Tid): State
    requires CanSleep(s, t)
  {
    s.(pc := s.pc[t := InWait(s.count)], k := Kernel(-1, [t] + s.k.list, s.k.ph[t := Asleep]))
  }

  /** A waiter that nothing interrupts reads the number and goes to the front of the list. */
  lemma {:induction false} FallsAsleep(run: seq<State>, t: Tid) returns (run': seq<State>)
    requires IsRun(run) && CanSleep(Last(run), t)
    ensures IsRun(run') && Last(run') == Slept(Last(run), t)
  {
    var s := Last(run);
    run' := Extend(run, t, ReadSeq);
    run' := Extend(run', t, Enter);
    run' := Extend(run', t, InKernel(TakeLock));
    run' := Extend(run', t, InKernel(Compare));
    run' := Extend(run', t, InKernel(FallAsleep));
    assert Last(run').pc == s.pc[t := InWait(s.count)];
    assert Last(run').k.ph == s.k.ph[t := Asleep];
  }

  /**
   A signal can pass over every thread that was asleep when it was issued: here
   thread 0 sleeps, thread 1 raises the number, thread 2 falls asleep on the new
   number, and thread 1 then wakes thread 2.
   */
  lemma {:induction false} SignalMayWakeLaterArrival() returns (run: seq<State>)
    ensures IsRun(run) && Enabled(Last(run), 1, DoWake) && Last(run).pc[1] == Waking(1, false)
    ensures var s := Last(run);
            var s' := Apply(s, 1, DoWake);
            && |s.pc| == |s.k.ph| == |s'.k.ph| == 3
            && s.pc[0] == InWait(0) && s.k.ph[0].Asleep? && s'.k.ph[0].Asleep?
            && s.pc[2] == InWait(1) && s'.k.ph[2].Woken?
  {
    var s0 := State(0, Kernel(-1, [], [User, User, User]), [Out, Out, Out], 0);
    run := [s0];
    run := FallsAsleep(run, 0);
    run := Extend(run, 1, Bump(false));
    run := FallsAsleep(run, 2);
    assert WakeUpTo(Last(run).k, 1) == WakeOne(Last(run).k);
  }
}
