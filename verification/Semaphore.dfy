/**
 The counting semaphore, over every interleaving of any number of threads that
 wait, try, time out and post. The count is a signed 32-bit word.
 */
module Semaphore {
  import opened FutexKernel

  datatype Pc =
    | Out
    | Load(woken: bool)           // top of the wait loop
    | Cas(v: int, woken: bool)    // loaded v > 0, about to compare-exchange v - 1 in
    | InWait                      // inside futex_wait, sleeping while the count is 0
    | TryLoad
    | TryCas(v: int)
    | Waking                      // in post, count raised, about to wake one

  /** The last three fields only record history: the initial count, posts made, waits that succeeded. */
  datatype State = State(word: int, k: Kernel, pc: seq<Pc>, initial: int, posts: int, waits: int)

  datatype Action =
    | Wait | Try | DoLoad | DoCas(ok: bool) | DoTryLoad | DoTryCas(ok: bool)
    | InKernel(st: KStep) | Return(timedOut: bool) | Post | DoWake

  const INT_MAX: int := 0x7FFF_FFFF

  function Int32(n: int): int { (n + 0x8000_0000) % 0x1_0000_0000 - 0x8000_0000 }

  /** Another unit fits. */
  predicate Below(s: State) { s.word < INT_MAX }

  predicate Enabled(s: State, t: Tid, a: Action) {
    && t < |s.pc| == |s.k.ph|
    && match a
       case Wait => s.pc[t].Out? && s.k.ph[t].User?
       case Try => s.pc[t].Out?
       case DoLoad => s.pc[t].Load? && s.k.ph[t].User?
       // a weak compare-exchange may fail even when the values match
       case DoCas(ok) => s.pc[t].Cas? && (ok ==> s.word == s.pc[t].v)
       case DoTryLoad => s.pc[t].TryLoad?
       case DoTryCas(ok) => s.pc[t].TryCas? && (ok ==> s.word == s.pc[t].v)
       case InKernel(st) => s.pc[t].InWait? && KEnabled(s.k, t, st)
       // a woken sleeper never reports a timeout
       case Return(timedOut) => s.pc[t].InWait? && s.k.ph[t].Returned? && (timedOut ==> !s.k.ph[t].woken)
       case Post => s.pc[t].Out?
       case DoWake => s.pc[t].Waking? && s.k.lock == -1
  }

  function Apply(s: State, t: Tid, a: Action): State
    requires Enabled(s, t, a)
  {
    match a
    case Wait => s.(pc := s.pc[t := Load(false)])
    case Try => s.(pc := s.pc[t := TryLoad])
    case DoLoad =>
      if s.word > 0 then s.(pc := s.pc[t := Cas(s.word, s.pc[t].woken)])
      else s.(pc := s.pc[t := InWait], k := s.k.(ph := s.k.ph[t := Entering(0)]))
    case DoCas(ok) =>
      if ok then s.(word := s.word - 1, pc := s.pc[t := Out], waits := s.waits + 1)
      else s.(pc := s.pc[t := Load(s.pc[t].woken)])
    case DoTryLoad => s.(pc := s.pc[t := if s.word > 0 then TryCas(s.word) else Out])
    case DoTryCas(ok) =>
      if ok then s.(word := s.word - 1, pc := s.pc[t := Out], waits := s.waits + 1)
      else s.(pc := s.pc[t := if s.word > 0 then TryCas(s.word) else Out])
    case InKernel(st) => s.(k := KApply(s.k, t, st, s.word))
    case Return(timedOut) =>
      s.(pc := s.pc[t := if timedOut then Out else Load(s.k.ph[t].woken)], k := s.k.(ph := s.k.ph[t := User]))
    case Post => s.(word := Int32(s.word + 1), pc := s.pc[t := Waking], posts := s.posts + 1)
    case DoWake => s.(pc := s.pc[t := Out], k := WakeUpTo(s.k, 1))
  }

  predicate Init(s: State) {
    && s.word == s.initial >= 0 && s.posts == 0 && s.waits == 0
    && s.k.lock == -1 && s.k.list == [] && |s.pc| == |s.k.ph|
    && forall t :: 0 <= t < |s.pc| ==> s.pc[t].Out? && s.k.ph[t].User?
  }

  // ---------------------------------------------------------------- the count

  predicate Linked(s: State) {
    && |s.pc| == |s.k.ph| && KInv(s.k)
    && (forall t :: 0 <= t < |s.pc| ==> (s.pc[t].InWait? <==> !s.k.ph[t].User?))
    && (forall t :: 0 <= t < |s.pc| && (s.k.ph[t].Entering? || s.k.ph[t].Comparing?) ==> s.k.ph[t].val == 0)
    && (forall t :: 0 <= t < |s.pc| && s.pc[t].Cas? ==> s.pc[t].v > 0)
    && (forall t :: 0 <= t < |s.pc| && s.pc[t].TryCas? ==> s.pc[t].v > 0)
  }

  /** Units are conserved, and the count never goes negative. */
  predicate Conserved(s: State) {
    s.word >= 0 && s.word + s.waits == s.initial + s.posts
  }

  /** A post keeps the units conserved exactly if the count is below its maximum. */
  lemma {:induction false} PostExactIff(s: State, t: Tid)
    requires Enabled(s, t, Post) && Conserved(s) && s.word <= INT_MAX
    ensures Conserved(Apply(s, t, Post)) <==> Below(s)
  {
    assert s.word == INT_MAX ==> Int32(s.word + 1) == -0x8000_0000;
  }

  lemma {:induction false} LinkedKernelStep(s: State, t: Tid, st: KStep)
    requires Linked(s) && Enabled(s, t, InKernel(st))
    ensures Linked(Apply(s, t, InKernel(st)))
  {
    KStepKeepsInv(s.k, t, st, s.word);
  }

  lemma {:induction false} LinkedWake(s: State, t: Tid)
    requires Linked(s) && Enabled(s, t, DoWake)
    ensures Linked(Apply(s, t, DoWake))
  {
    WakeKeepsInv(s.k, 1);
    forall u | 0 <= u < |s.pc|
      ensures var p := Apply(s, t, DoWake).k.ph[u]; p == s.k.ph[u] || (p.Woken? && !s.k.ph[u].User?)
    {
      WokenWereListed(s.k, 1, u);
    }
  }

  lemma {:induction false} LinkedStep(s: State, t: Tid, a: Action)
    requires Linked(s) && Enabled(s, t, a)
    ensures Linked(Apply(s, t, a))
  {
    if a.InKernel? {
      LinkedKernelStep(s, t, a.st);
    } else if a.DoWake? {
      LinkedWake(s, t);
    } else if s.k.ph[t].User? {
      EnterKeepsInv(s.k, t, Entering(0));
    } else {
      EnterKeepsInv(s.k, t, User);
    }
  }

  // ---------------------------------------------------------------- no lost post

  /** Posts that have raised the count but not yet issued their wake. */
  function Posting(s: State): set<Tid> { set t | 0 <= t < |s.pc| && s.pc[t].Waking? }

  /** Woken by a post, and not yet back with an answer from the count. */
  predicate IsRetrying(s: State, t: Tid)
    requires t < |s.pc| == |s.k.ph|
  {
    || s.k.ph[t].Woken?
    || (s.k.ph[t].Returned? && s.k.ph[t].woken)
    || (s.pc[t].Load? && s.pc[t].woken)
    || (s.pc[t].Cas? && s.pc[t].woken)
  }

  function Retrying(s: State): set<Tid>
    requires |s.pc| == |s.k.ph|
  {
    set t | 0 <= t < |s.pc| && IsRetrying(s, t)
  }

  predicate SomeoneSleeps(s: State)
    requires |s.pc| == |s.k.ph|
  {
    exists t :: 0 <= t < |s.pc| && Sleeping(s.k.ph[t])
  }

  /** While anyone sleeps, every available unit has a wake or a woken thread assigned to it. */
  predicate NoLostPost(s: State)
    requires |s.pc| == |s.k.ph|
  {
    SomeoneSleeps(s) ==> s.word <= |Posting(s)| + |Retrying(s)|
  }

  lemma {:induction false} CardChange(a: set<Tid>, b: set<Tid>, t: Tid)
    requires a - {t} == b - {t}
    ensures |b| - |a| == (if t in b then 1 else 0) - (if t in a then 1 else 0)
  {
    if t in a { assert a == (a - {t}) + {t}; } else { assert a == a - {t}; }
    if t in b { assert b == (b - {t}) + {t}; } else { assert b == b - {t}; }
  }

  function Pending(s: State): int
    requires |s.pc| == |s.k.ph|
  {
    |Posting(s)| + |Retrying(s)|
  }

  function Weight(s: State, t: Tid): int
    requires t < |s.pc| == |s.k.ph|
  {
    (if s.pc[t].Waking? then 1 else 0) + (if IsRetrying(s, t) then 1 else 0)
  }

  predicate OnlyThread(s: State, s': State, t: Tid) {
    && t < |s.pc| == |s.k.ph| == |s'.pc| == |s'.k.ph|
    && forall u :: 0 <= u < |s.pc| && u != t ==> s'.pc[u] == s.pc[u] && s'.k.ph[u] == s.k.ph[u]
  }

  /** A step of one thread moves the pending count by that thread's own change. */
  lemma {:induction false} PendingChange(s: State, s': State, t: Tid)
    requires OnlyThread(s, s', t)
    ensures Pending(s') - Pending(s) == Weight(s', t) - Weight(s, t)
  {
    assert Posting(s) - {t} == Posting(s') - {t};
    assert forall u :: 0 <= u < |s.pc| && u != t ==> (IsRetrying(s', u) <==> IsRetrying(s, u));
    assert Retrying(s) - {t} == Retrying(s') - {t};
    CardChange(Posting(s), Posting(s'), t);
    CardChange(Retrying(s), Retrying(s'), t);
  }

  lemma {:induction false} StepOnlyThread(s: State, t: Tid, a: Action)
    requires Enabled(s, t, a) && !a.DoWake?
    ensures OnlyThread(s, Apply(s, t, a), t)
  {
  }

  /** A step that frees no unit of the count frees no pending wake; one that takes a unit frees at most one. */
  lemma {:induction false} WeightStep(s: State, t: Tid, a: Action)
    requires Linked(s) && s.word >= 0 && Enabled(s, t, a) && !a.DoWake?
    ensures var s' := Apply(s, t, a);
            |s'.pc| == |s'.k.ph| == |s.pc| && (s'.word == 0 || s'.word - s.word <= Weight(s', t) - Weight(s, t))
  {
  }

  lemma {:induction false} SleeperBefore(s: State, t: Tid, a: Action)
    requires Linked(s) && Enabled(s, t, a) && !a.DoWake? && s.word > 0
    requires |Apply(s, t, a).pc| == |Apply(s, t, a).k.ph| && SomeoneSleeps(Apply(s, t, a))
    ensures SomeoneSleeps(s)
  {
    var s' := Apply(s, t, a);
    var z :| 0 <= z < |s'.pc| && Sleeping(s'.k.ph[z]);
    assert Sleeping(s.k.ph[z]);
  }

  lemma {:induction false} NoLostPostStep(s: State, t: Tid, a: Action)
    requires Linked(s) && Conserved(s) && Below(s) && NoLostPost(s) && Enabled(s, t, a) && !a.DoWake?
    requires Linked(Apply(s, t, a))
    ensures NoLostPost(Apply(s, t, a))
  {
    var s' := Apply(s, t, a);
    StepOnlyThread(s, t, a);
    PendingChange(s, s', t);
    WeightStep(s, t, a);
    if SomeoneSleeps(s') && s'.word > 0 && s.word > 0 {
      SleeperBefore(s, t, a);
    }
  }

  lemma {:induction false} WakeTakesHead(s: State, t: Tid)
    requires Linked(s) && Enabled(s, t, DoWake) && s.k.list != []
    ensures var s' := Apply(s, t, DoWake);
            && |s'.pc| == |s'.k.ph|
            && Posting(s') == Posting(s) - {t} && Retrying(s') == Retrying(s) + {s.k.list[0]} && s.k.list[0] !in Retrying(s)
  {
    var s', head := Apply(s, t, DoWake), s.k.list[0];
    assert WakeUpTo(s.k, 1) == WakeOne(s.k);
    assert OnList(s.k.ph[head]);
    assert !IsRetrying(s, head);
    assert forall u :: 0 <= u < |s.pc| && u != head ==> s'.k.ph[u] == s.k.ph[u];
    assert forall u :: 0 <= u < |s.pc| && u != head ==> (IsRetrying(s', u) <==> IsRetrying(s, u));
    assert IsRetrying(s', head);
  }

  lemma {:induction false} NoLostPostWake(s: State, t: Tid)
    requires Linked(s) && NoLostPost(s) && Enabled(s, t, DoWake)
    ensures |Apply(s, t, DoWake).pc| == |Apply(s, t, DoWake).k.ph| && NoLostPost(Apply(s, t, DoWake))
  {
    var s' := Apply(s, t, DoWake);
    if SomeoneSleeps(s') {
      var z :| 0 <= z < |s'.pc| && Sleeping(s'.k.ph[z]);
      assert Sleeping(s.k.ph[z]);
      SleepersListed(s.k);
      WakeTakesHead(s, t);
      assert |Posting(s')| == |Posting(s)| - 1;
    }
  }

  // ---------------------------------------------------------------- over whole runs

  predicate Inv(s: State) { Linked(s) && Conserved(s) && NoLostPost(s) }

  ghost predicate Next(s: State, s': State) { exists t, a :: Enabled(s, t, a) && s' == Apply(s, t, a) }

  ghost predicate IsRun(run: seq<State>) {
    && |run| > 0 && Init(run[0]) && (forall i :: 0 <= i < |run| ==> Below(run[i]))
    && forall i :: 0 <= i < |run| - 1 ==> Next(run[i], run[i + 1])
  }

  lemma {:induction false} InvInit(s: State)
    requires Init(s)
    ensures Inv(s)
  {
  }

  lemma {:induction false} ConservedStep(s: State, t: Tid, a: Action)
    requires Linked(s) && Conserved(s) && Below(s) && Enabled(s, t, a)
    ensures Conserved(Apply(s, t, a))
  {
  }

  lemma {:induction false} InvStep(s: State, t: Tid, a: Action)
    requires Inv(s) && Below(s) && Enabled(s, t, a)
    ensures Inv(Apply(s, t, a))
  {
    hide Apply;
    hide Conserved;
    hide NoLostPost;
    LinkedStep(s, t, a);
    ConservedStep(s, t, a);
    if a.DoWake? { NoLostPostWake(s, t); } else { NoLostPostStep(s, t, a); }
  }

  /**
   In every run that stays below the maximum, the count accounts for every post and every
   successful wait, and no post is lost on a sleeper.
   */
  lemma {:induction false} SemaphoreSafe(run: seq<State>, i: nat)
    requires IsRun(run) && i < |run|
    ensures Inv(run[i])
  {
    hide Inv;
    hide Init;
    hide Apply;
    hide Enabled;
    if i == 0 {
      InvInit(run[0]);
    } else {
      SemaphoreSafe(run, i - 1);
      var s := run[i - 1];
      assert Next(s, run[i]) && Below(s);
      var t, a :| Enabled(s, t, a) && run[i] == Apply(s, t, a);
      InvStep(s, t, a);
    }
  }

  /** Once posts have issued their wakes and woken threads have looked again, a sleeper means the count is 0. */
  lemma {:induction false} SettledSleeperMeansEmpty(run: seq<State>, i: nat)
    requires IsRun(run) && i < |run| && |run[i].pc| == |run[i].k.ph|
    requires SomeoneSleeps(run[i]) && Posting(run[i]) == {} && Retrying(run[i]) == {}
    ensures run[i].word == 0 && run[i].waits == run[i].initial + run[i].posts
  {
    SemaphoreSafe(run, i);
  }
}
