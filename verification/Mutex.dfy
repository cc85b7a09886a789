/**
 The three-state futex mutex, over every interleaving of any number of threads.
 The word is 0 when free, 1 when held and nobody has had to sleep, and 2 when
 held and somebody may be sleeping.
 */
module Mutex {
  import opened FutexKernel

  datatype Pc =
    | Out                    // not using the mutex
    | Cas                    // in lock, before the compare-exchange
    | TryCas                 // in trylock, before the compare-exchange
    | Xchg                   // about to exchange in 2 for the first time
    | InWait                 // inside futex_wait
    | Retry(woken: bool)     // back from futex_wait, about to exchange again
    | Held
    | Store                  // in unlock, found 2, about to store 0
    | Wake                   // stored 0, about to wake one

  datatype State = State(word: int, k: Kernel, pc: seq<Pc>)

  datatype Action = Lock | TryLock | DoCas | DoTryCas | DoXchg | InKernel(st: KStep) | Return | Unlock | DoStore | DoWake

  predicate Holds(p: Pc) { p.Held? || p.Store? }

  predicate Enabled(s: State, t: Tid, a: Action) {
    && t < |s.pc| == |s.k.ph|
    && match a
       case Lock => s.pc[t].Out? && s.k.ph[t].User?
       case TryLock => s.pc[t].Out? && s.k.ph[t].User?
       case DoCas => s.pc[t].Cas? && s.k.ph[t].User?
       case DoTryCas => s.pc[t].TryCas?
       case DoXchg => (s.pc[t].Xchg? || s.pc[t].Retry?) && s.k.ph[t].User?
       case InKernel(st) => s.pc[t].InWait? && KEnabled(s.k, t, st)
       case Return => s.pc[t].InWait? && s.k.ph[t].Returned?
       case Unlock => s.pc[t].Held?
       case DoStore => s.pc[t].Store?
       case DoWake => s.pc[t].Wake? && s.k.lock == -1
  }

  function EnterWait(s: State, t: Tid): State
    requires t < |s.pc| == |s.k.ph|
  {
    s.(pc := s.pc[t := InWait], k := s.k.(ph := s.k.ph[t := Entering(2)]))
  }

  function Apply(s: State, t: Tid, a: Action): State
    requires Enabled(s, t, a)
  {
    match a
    case Lock => s.(pc := s.pc[t := Cas])
    case TryLock => s.(pc := s.pc[t := TryCas])
    case DoCas =>
      if s.word == 0 then s.(word := 1, pc := s.pc[t := Held])
      else if s.word != 2 then s.(pc := s.pc[t := Xchg])
      else EnterWait(s, t)
    case DoTryCas =>
      if s.word == 0 then s.(word := 1, pc := s.pc[t := Held]) else s.(pc := s.pc[t := Out])
    case DoXchg =>
      if s.word == 0 then s.(word := 2, pc := s.pc[t := Held]) else EnterWait(s.(word := 2), t)
    case InKernel(st) => s.(k := KApply(s.k, t, st, s.word))
    case Return =>
      s.(pc := s.pc[t := Retry(s.k.ph[t].woken)], k := s.k.(ph := s.k.ph[t := User]))
    case Unlock => s.(word := s.word - 1, pc := s.pc[t := if s.word != 1 then Store else Out])
    case DoStore => s.(word := 0, pc := s.pc[t := Wake])
    case DoWake => s.(pc := s.pc[t := Out], k := WakeUpTo(s.k, 1))
  }

  predicate Init(s: State) {
    && s.word == 0 && s.k.lock == -1 && s.k.list == [] && |s.pc| == |s.k.ph|
    && forall t :: 0 <= t < |s.pc| ==> s.pc[t].Out? && s.k.ph[t].User?
  }

  // ---------------------------------------------------------------- at most one holder

  /** Program counters and kernel phases agree. */
  predicate Linked(s: State) {
    && |s.pc| == |s.k.ph| && KInv(s.k)
    && (forall t :: 0 <= t < |s.pc| ==> (s.pc[t].InWait? <==> !s.k.ph[t].User?))
    && (forall t :: 0 <= t < |s.pc| && (s.k.ph[t].Entering? || s.k.ph[t].Comparing?) ==> s.k.ph[t].val == 2)
  }

  /** The word is nonzero exactly while one thread holds the mutex, and no two ever do. */
  predicate Exclusive(s: State) {
    && 0 <= s.word <= 2
    && (forall t, u :: 0 <= t < |s.pc| && 0 <= u < |s.pc| && Holds(s.pc[t]) && Holds(s.pc[u]) ==> t == u)
    && (s.word != 0 <==> exists t :: 0 <= t < |s.pc| && Holds(s.pc[t]))
  }

  lemma {:induction false} LinkedKernelStep(s: State, t: Tid, st: KStep)
    requires Linked(s) && Enabled(s, t, InKernel(st))
    ensures Linked(Apply(s, t, InKernel(st)))
  {
    KStepKeepsInv(s.k, t, st, s.word);
  }

  lemma {:induction false} LinkedWake(s: State, t: Tid)
    requires Linked(s) && Enabled(s, t, DoWake)
    ensures Linked(Apply(s, t, DoWake))
  {
    WakeKeepsInv(s.k, 1);
    forall u | 0 <= u < |s.pc|
      ensures var p := Apply(s, t, DoWake).k.ph[u]; p == s.k.ph[u] || (p.Woken? && !s.k.ph[u].User?)
    {
      WokenWereListed(s.k, 1, u);
    }
  }

  lemma {:induction false} LinkedStep(s: State, t: Tid, a: Action)
    requires Linked(s) && Enabled(s, t, a)
    ensures Linked(Apply(s, t, a))
  {
    if a.InKernel? {
      LinkedKernelStep(s, t, a.st);
    } else if a.DoWake? {
      LinkedWake(s, t);
    } else if s.k.ph[t].User? {
      EnterKeepsInv(s.k, t, Entering(2));
    } else {
      EnterKeepsInv(s.k, t, User);
    }
  }

  lemma {:induction false} ExclusiveStep(s: State, t: Tid, a: Action)
    requires Linked(s) && Exclusive(s) && Enabled(s, t, a)
    ensures Exclusive(Apply(s, t, a))
  {
    var s' := Apply(s, t, a);
    assert forall u :: 0 <= u < |s.pc| && u != t ==> s'.pc[u] == s.pc[u];
    if Holds(s'.pc[t]) {
      assert s'.word != 0;
    } else if Holds(s.pc[t]) {
      assert s'.word == 0;
    } else {
      assert s'.word == 0 <==> s.word == 0;
    }
  }

  // ---------------------------------------------------------------- no lost wake

  /** A thread that a wake took off the list and that has not yet tried the word again. */
  predicate WokenUnretried(s: State, t: Tid)
    requires t < |s.pc| == |s.k.ph|
  {
    s.k.ph[t].Woken? || (s.k.ph[t].Returned? && s.k.ph[t].woken) || (s.pc[t].Retry? && s.pc[t].woken)
  }

  predicate Unlocking(p: Pc) { p.Store? || p.Wake? }

  predicate SomeoneSleeps(s: State)
    requires |s.pc| == |s.k.ph|
  {
    exists t :: 0 <= t < |s.pc| && Sleeping(s.k.ph[t])
  }

  /** Somebody is still due to make the sleepers' wait end. */
  predicate Covered(s: State)
    requires |s.pc| == |s.k.ph|
  {
    || s.word == 2
    || (exists t :: 0 <= t < |s.pc| && Unlocking(s.pc[t]))
    || (exists t :: 0 <= t < |s.pc| && WokenUnretried(s, t))
  }

  predicate NoLostWake(s: State)
    requires |s.pc| == |s.k.ph|
  {
    SomeoneSleeps(s) ==> Covered(s)
  }

  lemma {:induction false} NoLostWakeUserStep(s: State, t: Tid, a: Action)
    requires Linked(s) && Exclusive(s) && NoLostWake(s) && Enabled(s, t, a) && !a.InKernel? && !a.DoWake?
    ensures NoLostWake(Apply(s, t, a))
  {
    var s' := Apply(s, t, a);
    if SomeoneSleeps(s') {
      var z :| 0 <= z < |s'.pc| && Sleeping(s'.k.ph[z]);
      assert Sleeping(s.k.ph[z]);
      if s'.word != 2 && !Unlocking(s'.pc[t]) && !WokenUnretried(s', t) {
        assert !a.DoXchg?;
        assert s.word != 2;
        if u :| 0 <= u < |s.pc| && Unlocking(s.pc[u]) {
          assert Unlocking(s'.pc[u]);
        } else {
          var u :| 0 <= u < |s.pc| && WokenUnretried(s, u);
          assert WokenUnretried(s', u);
        }
      } else {
        assert Covered(s');
      }
    }
  }

  lemma {:induction false} NoLostWakeKernelStep(s: State, t: Tid, st: KStep)
    requires Linked(s) && NoLostWake(s) && Enabled(s, t, InKernel(st))
    ensures NoLostWake(Apply(s, t, InKernel(st)))
  {
    var s' := Apply(s, t, InKernel(st));
    if SomeoneSleeps(s') && s'.word != 2 {
      var z :| 0 <= z < |s'.pc| && Sleeping(s'.k.ph[z]);
      assert Sleeping(s.k.ph[z]);
      if u :| 0 <= u < |s.pc| && Unlocking(s.pc[u]) {
        assert Unlocking(s'.pc[u]);
      } else {
        var u :| 0 <= u < |s.pc| && WokenUnretried(s, u);
        assert WokenUnretried(s', u);
      }
    }
  }

  lemma {:induction false} NoLostWakeWakeStep(s: State, t: Tid)
    requires Linked(s) && NoLostWake(s) && Enabled(s, t, DoWake)
    ensures NoLostWake(Apply(s, t, DoWake))
  {
    var s' := Apply(s, t, DoWake);
    if SomeoneSleeps(s') {
      var z :| 0 <= z < |s'.pc| && Sleeping(s'.k.ph[z]);
      SleepersListed(s.k);
      var head := s.k.list[0];
      assert WakeUpTo(s.k, 1) == WakeOne(s.k);
      assert s'.k.ph[head].Woken? && WokenUnretried(s', head);
    }
  }

  // ---------------------------------------------------------------- over whole runs

  predicate Inv(s: State) { Linked(s) && Exclusive(s) && NoLostWake(s) }

  ghost predicate Next(s: State, s': State) { exists t, a :: Enabled(s, t, a) && s' == Apply(s, t, a) }

  ghost predicate IsRun(run: seq<State>) {
    && |run| > 0 && Init(run[0])
    && forall i :: 0 <= i < |run| - 1 ==> Next(run[i], run[i + 1])
  }

  lemma {:induction false} InvStep(s: State, s': State)
    requires Inv(s) && Next(s, s')
    ensures Inv(s')
  {
    var t, a :| Enabled(s, t, a) && s' == Apply(s, t, a);
    LinkedStep(s, t, a);
    ExclusiveStep(s, t, a);
    match a
    case InKernel(st) => NoLostWakeKernelStep(s, t, st);
    case DoWake => NoLostWakeWakeStep(s, t);
    case _ => NoLostWakeUserStep(s, t, a);
  }

  /** In every run, at every point, at most one thread holds the mutex and no wake has been lost. */
  lemma {:induction false} MutexSafe(run: seq<State>, i: nat)
    requires IsRun(run) && i < |run|
    ensures Inv(run[i])
    ensures forall t, u :: 0 <= t < |run[i].pc| && 0 <= u < |run[i].pc| && run[i].pc[t].Held? && run[i].pc[u].Held? ==> t == u
  {
    if i > 0 {
      MutexSafe(run, i - 1);
      assert Next(run[i - 1], run[i]);
      InvStep(run[i - 1], run[i]);
    }
  }

  /** Nobody sleeps on a mutex that nobody will release: a holder, an unlocker or a woken thread is always there. */
  lemma {:induction false} SleeperHasRescuer(run: seq<State>, i: nat)
    requires IsRun(run) && i < |run| && |run[i].pc| == |run[i].k.ph| && SomeoneSleeps(run[i])
    ensures exists t :: 0 <= t < |run[i].pc| && (run[i].pc[t].Held? || Unlocking(run[i].pc[t]) || WokenUnretried(run[i], t))
  {
    MutexSafe(run, i);
    var s := run[i];
    if s.word == 2 {
      var t :| 0 <= t < |s.pc| && Holds(s.pc[t]);
    }
  }
}
