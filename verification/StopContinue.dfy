/**
 Job control: a thread on its way into a stop, and a SIGCONT that may overtake
 it. A thread first looks for a deliverable signal without the lock; every other
 step is one stretch under the process lock. `hard` is a pending
 SIGSTOP and `soft` any other pending stop signal (SIGTSTP, SIGTTIN, SIGTTOU);
 all have their default action, and masks play no part.
 */
module StopContinue {

  datatype Life = Running | Stopped | Zombie

  datatype Pc =
    | Run
    | Chosen(hardly: bool)   // has found a stop signal to deliver, about to take it
    | Taken      // has taken a stop signal, about to mark its siblings
    | Marked     // about to look at `stopping` and count itself
    | Counted    // about to look again and park

  /** `cont` records history: a continue has run since this thread last took a stop signal. */
  datatype Thread = Thread(life: Life, pc: Pc, hard: bool, soft: bool, stopping: bool, cont: bool)

  datatype State = State(ts: seq<Thread>, hard: bool, soft: bool, stoppedCount: nat)

  datatype Action =
    | SendProcess(hardly: bool) | SendThread(hardly: bool)
    | Select(hardly: bool) | Take | Mark | Check | Commit | Continue | Exit

  predicate Live(x: Thread) { !x.life.Zombie? }

  predicate Enabled(s: State, t: nat, a: Action) {
    && t < |s.ts|
    && match a
       case SendProcess(_) => true
       case SendThread(_) => true
       case Select(hardly) =>
         s.ts[t].life.Running? && s.ts[t].pc.Run? && (if hardly then s.ts[t].hard || s.hard else s.ts[t].soft || s.soft)
       case Take => s.ts[t].life.Running? && s.ts[t].pc.Chosen?
       case Mark => s.ts[t].life.Running? && s.ts[t].pc.Taken?
       case Check => s.ts[t].life.Running? && s.ts[t].pc.Marked?
       case Commit => s.ts[t].life.Running? && s.ts[t].pc.Counted?
       case Continue => true
       case Exit => s.ts[t].life.Running? && s.ts[t].pc.Run?
  }

  function Set(s: State, t: nat, x: Thread): State
    requires t < |s.ts|
  {
    s.(ts := s.ts[t := x])
  }

  /** Take the thread's own pending signal if it has one, otherwise the process's; by now neither need be there. */
  function Took(s: State, t: nat, hardly: bool): State
    requires t < |s.ts|
  {
    var x := s.ts[t].(pc := Taken, stopping := true, cont := false);
    if hardly then
      if x.hard then Set(s, t, x.(hard := false)) else Set(s, t, x).(hard := false)
    else
      if x.soft then Set(s, t, x.(soft := false)) else Set(s, t, x).(soft := false)
  }

  function MarkedBy(x: Thread): Thread { if x.life.Running? then x.(hard := true) else x }

  function Continued(x: Thread): Thread {
    x.(hard := false, stopping := false, cont := true, life := if x.life.Stopped? then Running else x.life)
  }

  function Apply(s: State, t: nat, a: Action): State
    requires Enabled(s, t, a)
  {
    var x := s.ts[t];
    match a
    case SendProcess(hardly) => if hardly then s.(hard := true) else s.(soft := true)
    case SendThread(hardly) => Set(s, t, if hardly then x.(hard := true) else x.(soft := true))
    case Select(hardly) => Set(s, t, x.(pc := Chosen(hardly)))
    case Take => Took(s, t, x.pc.hardly)
    case Mark =>
      s.(ts := seq(|s.ts|, u requires 0 <= u < |s.ts| => if u == t then x.(pc := Marked) else MarkedBy(s.ts[u])))
    case Check =>
      if !x.stopping then Set(s, t, x.(pc := Run))
      else Set(s, t, x.(pc := Counted)).(stoppedCount := s.stoppedCount + 1)
    case Commit =>
      if !x.stopping then Set(s, t, x.(pc := Run))
      else Set(s, t, x.(pc := Run, stopping := false, life := Stopped))
    case Continue =>
      State(seq(|s.ts|, u requires 0 <= u < |s.ts| => Continued(s.ts[u])), false, s.soft, 0)
    case Exit => Set(s, t, x.(life := Zombie))
  }

  predicate Init(s: State) {
    && !s.hard && !s.soft && s.stoppedCount == 0
    && forall t :: 0 <= t < |s.ts| ==> s.ts[t] == Thread(Running, Run, false, false, false, false)
  }

  // ---------------------------------------------------------------- per thread

  /** A stop still under way or completed has seen no continue since it was taken. */
  predicate Sound(x: Thread) {
    && (x.stopping ==> !x.cont && !x.pc.Run? && !x.pc.Chosen?)
    && (x.life.Stopped? ==> !x.cont)
  }

  predicate Inv(s: State) { forall t :: 0 <= t < |s.ts| ==> Sound(s.ts[t]) }

  lemma {:induction false} InvStep(s: State, t: nat, a: Action)
    requires Inv(s) && Enabled(s, t, a)
    ensures Inv(Apply(s, t, a))
  {
    var s' := Apply(s, t, a);
    SizeKept(s, t, a);
    hide Apply;
    hide Enabled;
    hide Sound;
    forall u | 0 <= u < |s'.ts|
      ensures Sound(s'.ts[u])
    {
      SoundStep(s, t, a, u);
    }
  }

  lemma {:induction false} SizeKept(s: State, t: nat, a: Action)
    requires Enabled(s, t, a)
    ensures |Apply(s, t, a).ts| == |s.ts|
  {
  }

  lemma {:induction false} SoundStep(s: State, t: nat, a: Action, u: nat)
    requires Enabled(s, t, a) && u < |s.ts| && Sound(s.ts[u]) && |Apply(s, t, a).ts| == |s.ts|
    ensures Sound(Apply(s, t, a).ts[u])
  {
    if a.Mark? {
      SoundMark(s, t, u);
    } else if !a.Continue? {
      SoundOwn(s, t, a, u);
    }
  }

  lemma {:induction false} SoundMark(s: State, t: nat, u: nat)
    requires Enabled(s, t, Mark) && u < |s.ts| && Sound(s.ts[u])
    ensures |Apply(s, t, Mark).ts| == |s.ts| && Sound(Apply(s, t, Mark).ts[u])
  {
  }

  lemma {:induction false} SoundOwn(s: State, t: nat, a: Action, u: nat)
    requires Enabled(s, t, a) && u < |s.ts| && Sound(s.ts[u]) && !a.Mark? && !a.Continue?
    ensures |Apply(s, t, a).ts| == |s.ts| && Sound(Apply(s, t, a).ts[u])
  {
    hide MarkedBy;
    hide Continued;
  }

  datatype Event = Event(t: nat, a: Action)

  predicate IsRun(run: seq<State>, evs: seq<Event>) {
    && |run| == |evs| + 1
    && forall i :: 0 <= i < |evs| ==> Enabled(run[i], evs[i].t, evs[i].a) && run[i + 1] == Apply(run[i], evs[i].t, evs[i].a)
  }

  lemma {:induction false} SoundInit(s: State)
    requires Init(s)
    ensures Inv(s)
  {
  }

  lemma {:induction false} RunSound(run: seq<State>, evs: seq<Event>, i: nat)
    requires IsRun(run, evs) && Init(run[0]) && i < |run|
    ensures Inv(run[i]) && |run[i].ts| == |run[0].ts|
  {
    hide Apply;
    hide Enabled;
    hide Sound;
    if i == 0 {
      assert forall t :: 0 <= t < |run[0].ts| ==> Sound(run[0].ts[t]) by { SoundInit(run[0]); }
    } else {
      RunSound(run, evs, i - 1);
      assert Enabled(run[i - 1], evs[i - 1].t, evs[i - 1].a);
      SizeKept(run[i - 1], evs[i - 1].t, evs[i - 1].a);
      InvStep(run[i - 1], evs[i - 1].t, evs[i - 1].a);
    }
  }

  lemma {:induction false} ContStep(s: State, u: nat, a: Action, t: nat)
    requires Enabled(s, u, a) && t < |s.ts| && (a.Continue? || s.ts[t].cont) && !(a.Take? && u == t)
    ensures |Apply(s, u, a).ts| == |s.ts| && Apply(s, u, a).ts[t].cont
  {
  }

  /** A continue is on record until the thread takes another stop signal. */
  lemma {:induction false} ContKept(run: seq<State>, evs: seq<Event>, i: nat, j: nat, t: nat)
    requires IsRun(run, evs) && i < j < |run| && evs[i].a.Continue? && t < |run[i].ts|
    requires forall n :: i < n < j ==> !(evs[n].a.Take? && evs[n].t == t)
    ensures |run[j].ts| == |run[i].ts| && run[j].ts[t].cont
  {
    hide Apply;
    hide Enabled;
    if j > i + 1 {
      ContKept(run, evs, i, j - 1, t);
    }
    var s, e := run[j - 1], evs[j - 1];
    assert Enabled(s, e.t, e.a) && run[j] == Apply(s, e.t, e.a);
    ContStep(s, e.t, e.a, t);
  }

  /** No continue is lost: from a continue until the thread takes another stop signal, the thread is not stopped. */
  lemma {:induction false} ContinueNeverLost(run: seq<State>, evs: seq<Event>, i: nat, j: nat, t: nat)
    requires IsRun(run, evs) && Init(run[0]) && i < j < |run| && evs[i].a.Continue? && t < |run[i].ts|
    requires forall n :: i < n < j ==> !(evs[n].a.Take? && evs[n].t == t)
    ensures |run[j].ts| == |run[i].ts| && !run[j].ts[t].life.Stopped? && !run[j].ts[t].stopping
  {
    RunSound(run, evs, j);
    ContKept(run, evs, i, j, t);
    assert Sound(run[j].ts[t]);
  }

  // ---------------------------------------------------------------- the group

  /** Some thread can end up stopped although no stop signal is sent from here on. */
  ghost predicate CanStop(s: State) {
    exists run, evs :: StopsUnasked(run, evs) && run[0] == s
  }

  predicate StopsUnasked(run: seq<State>, evs: seq<Event>) {
    && IsRun(run, evs)
    && (forall i :: 0 <= i < |evs| ==> !evs[i].a.SendProcess? && !evs[i].a.SendThread?)
    && exists t :: 0 <= t < |run[|evs|].ts| && run[|evs|].ts[t].life.Stopped?
  }

  /** A thread that has taken a stop signal but not yet marked its siblings, and a live sibling to mark. */
  ghost predicate Straggler(s: State) {
    exists a, b :: 0 <= a < |s.ts| && 0 <= b < |s.ts| && a != b && s.ts[a].pc.Taken? && s.ts[a].life.Running? && Live(s.ts[b])
  }

  /** A thread that has found a stop signal to deliver and not yet taken it. */
  ghost predicate HasChosen(s: State) {
    exists a :: 0 <= a < |s.ts| && s.ts[a].pc.Chosen? && s.ts[a].life.Running?
  }

  /** A pending SIGTSTP, SIGTTIN or SIGTTOU that some live thread could take. */
  ghost predicate SoftPending(s: State) {
    exists b :: 0 <= b < |s.ts| && Live(s.ts[b]) && (s.ts[b].soft || s.soft)
  }

  /** Nothing on its way that could stop a live thread. */
  ghost predicate Calm(s: State) {
    && (forall t :: 0 <= t < |s.ts| && Live(s.ts[t]) ==>
          !s.ts[t].life.Stopped? && !s.ts[t].stopping && !s.ts[t].hard && !s.hard && !s.ts[t].soft && !s.soft)
    && !Straggler(s) && !HasChosen(s)
  }

  lemma {:induction false} CalmStep(s: State, t: nat, a: Action)
    requires Calm(s) && Enabled(s, t, a) && !a.SendProcess? && !a.SendThread?
    ensures Calm(Apply(s, t, a))
  {
    var s' := Apply(s, t, a);
    assert Live(s.ts[t]) || a.Continue?;
    forall u | 0 <= u < |s'.ts| && Live(s'.ts[u])
      ensures !s'.ts[u].life.Stopped? && !s'.ts[u].stopping && !s'.ts[u].hard && !s'.hard && !s'.ts[u].soft && !s'.soft
    {
      assert Live(s.ts[u]);
    }
    forall x, y | 0 <= x < |s'.ts| && 0 <= y < |s'.ts| && x != y
      ensures !(s'.ts[x].pc.Taken? && s'.ts[x].life.Running? && Live(s'.ts[y]))
    {
      assert s'.ts[x].pc.Taken? && s'.ts[x].life.Running? ==> s.ts[x].pc.Taken? && s.ts[x].life.Running?;
      assert Live(s'.ts[y]) ==> Live(s.ts[y]);
    }
    forall x | 0 <= x < |s'.ts|
      ensures !(s'.ts[x].pc.Chosen? && s'.ts[x].life.Running?)
    {
      assert !(s.ts[x].pc.Chosen? && s.ts[x].life.Running?);
    }
  }

  lemma {:induction false} CalmStays(run: seq<State>, evs: seq<Event>, i: nat)
    requires IsRun(run, evs) && Calm(run[0]) && i < |run|
    requires forall n :: 0 <= n < |evs| ==> !evs[n].a.SendProcess? && !evs[n].a.SendThread?
    ensures Calm(run[i])
  {
    hide Apply;
    hide Enabled;
    hide Calm;
    if i > 0 {
      CalmStays(run, evs, i - 1);
      assert Enabled(run[i - 1], evs[i - 1].t, evs[i - 1].a);
      CalmStep(run[i - 1], evs[i - 1].t, evs[i - 1].a);
    }
  }

  lemma {:induction false} CalmCannotStop(s: State)
    requires Calm(s)
    ensures !CanStop(s)
  {
    if CanStop(s) {
      var run: seq<State>, evs: seq<Event> :| StopsUnasked(run, evs) && run[0] == s;
      CalmStays(run, evs, |evs|);
    }
  }

  // From here on, a run is built that ends with a thread stopped.

  lemma {:induction false} Prepend(s: State, t: nat, a: Action)
    requires Enabled(s, t, a) && !a.SendProcess? && !a.SendThread? && CanStop(Apply(s, t, a))
    ensures CanStop(s)
  {
    var run: seq<State>, evs: seq<Event> :| StopsUnasked(run, evs) && run[0] == Apply(s, t, a);
    var run': seq<State>, evs': seq<Event> := [s] + run, [Event(t, a)] + evs;
    forall i | 0 <= i < |evs'|
      ensures Enabled(run'[i], evs'[i].t, evs'[i].a) && run'[i + 1] == Apply(run'[i], evs'[i].t, evs'[i].a)
    {
      if i > 0 { assert Enabled(run[i - 1], evs[i - 1].t, evs[i - 1].a); }
    }
    assert run'[|evs'|] == run[|evs|];
    assert StopsUnasked(run', evs');
  }

  lemma {:induction false} StoppedAlready(s: State, t: nat)
    requires t < |s.ts| && s.ts[t].life.Stopped?
    ensures CanStop(s)
  {
    var run: seq<State>, evs: seq<Event> := [s], [];
    assert IsRun(run, evs) && run[|evs|] == s;
    assert StopsUnasked(run, evs);
  }

  /** A running thread that has chosen a stop signal goes all the way. */
  lemma {:induction false} GoesToStop(s: State, t: nat)
    requires Enabled(s, t, Take)
    ensures CanStop(s)
  {
    var s1 := Apply(s, t, Take);
    var s2 := Apply(s1, t, Mark);
    var s3 := Apply(s2, t, Check);
    var s4 := Apply(s3, t, Commit);
    StoppedAlready(s4, t);
    Prepend(s3, t, Commit);
    Prepend(s2, t, Check);
    Prepend(s1, t, Mark);
    Prepend(s, t, Take);
  }

  /** The thread's own signals come first, and SIGSTOP before the others. */
  function Pick(s: State, t: nat): bool
    requires t < |s.ts|
  {
    s.ts[t].hard || (!s.ts[t].soft && s.hard)
  }

  predicate Willing(s: State, t: nat) {
    t < |s.ts| && s.ts[t].life.Running? && !s.ts[t].stopping && (s.ts[t].hard || s.hard || s.ts[t].soft || s.soft)
  }

  /** A running thread with a stop signal pending can stop, wherever it is: an overtaken stop is abandoned first. */
  lemma {:induction false} WillingCanStop(s: State, t: nat)
    requires Willing(s, t)
    ensures CanStop(s)
    decreases match s.ts[t].pc case Taken => 2 case Marked => 1 case Counted => 1 case Run => 0 case Chosen(_) => 0
  {
    match s.ts[t].pc {
      case Run =>
        GoesToStop(Apply(s, t, Select(Pick(s, t))), t);
        Prepend(s, t, Select(Pick(s, t)));
      case Chosen(_) => GoesToStop(s, t);
      case Taken =>
        WillingCanStop(Apply(s, t, Mark), t);
        Prepend(s, t, Mark);
      case Marked =>
        WillingCanStop(Apply(s, t, Check), t);
        Prepend(s, t, Check);
      case Counted =>
        WillingCanStop(Apply(s, t, Commit), t);
        Prepend(s, t, Commit);
    }
  }

  /**
   Right after a continue, with no stop signal sent since: some thread can still
   end up stopped exactly when a thread had found a stop signal and not yet taken it,
   or had taken one and not yet marked its live siblings, or a stop signal other than
   SIGSTOP was left pending.
   */
  lemma {:induction false} ContinueClearsGroupIff(s: State, t: nat)
    requires t < |s.ts|
    ensures var s' := Apply(s, t, Continue); CanStop(s') <==> HasChosen(s') || Straggler(s') || SoftPending(s')
  {
    var s' := Apply(s, t, Continue);
    assert forall u :: 0 <= u < |s'.ts| && Live(s'.ts[u]) ==> s'.ts[u].life.Running? && !s'.ts[u].stopping;
    if HasChosen(s') {
      var a :| 0 <= a < |s'.ts| && s'.ts[a].pc.Chosen? && s'.ts[a].life.Running?;
      GoesToStop(s', a);
    } else if SoftPending(s') {
      var b :| 0 <= b < |s'.ts| && Live(s'.ts[b]) && (s'.ts[b].soft || s'.soft);
      WillingCanStop(s', b);
    } else if Straggler(s') {
      var a, b :| 0 <= a < |s'.ts| && 0 <= b < |s'.ts| && a != b && s'.ts[a].pc.Taken? && s'.ts[a].life.Running? && Live(s'.ts[b]);
      WillingCanStop(Apply(s', a, Mark), b);
      Prepend(s', a, Mark);
    } else {
      assert Calm(s');
      CalmCannotStop(s');
    }
  }

  /** The straggler does happen: thread 0 takes SIGSTOP, SIGCONT comes, and thread 0 then marks thread 1. */
  lemma {:induction false} StragglerReachable() returns (run: seq<State>, evs: seq<Event>)
    ensures IsRun(run, evs) && Init(run[0]) && |evs| == 4 && evs[3].a.Continue?
    ensures Straggler(run[4]) && !HasChosen(run[4]) && !SoftPending(run[4]) && CanStop(run[4])
  {
    var x := Thread(Running, Run, false, false, false, false);
    var s0 := State([x, x], false, false, 0);
    var s1 := Apply(s0, 0, SendProcess(true));
    var s2 := Apply(s1, 0, Select(true));
    var s3 := Apply(s2, 0, Take);
    var s4 := Apply(s3, 0, Continue);
    run := [s0, s1, s2, s3, s4];
    evs := [Event(0, SendProcess(true)), Event(0, Select(true)), Event(0, Take), Event(0, Continue)];
    assert s4.ts[0].pc.Taken? && Live(s4.ts[1]);
    ContinueClearsGroupIff(s3, 0);
  }

  /** So does the other: a lone thread finds SIGSTOP, SIGCONT comes, and the thread takes a signal that is no longer there. */
  lemma {:induction false} ChosenReachable() returns (run: seq<State>, evs: seq<Event>)
    ensures IsRun(run, evs) && Init(run[0]) && |evs| == 3 && evs[2].a.Continue?
    ensures HasChosen(run[3]) && !Straggler(run[3]) && !SoftPending(run[3]) && CanStop(run[3])
  {
    var s0 := State([Thread(Running, Run, false, false, false, false)], false, false, 0);
    var s1 := Apply(s0, 0, SendProcess(true));
    var s2 := Apply(s1, 0, Select(true));
    var s3 := Apply(s2, 0, Continue);
    run, evs := [s0, s1, s2, s3], [Event(0, SendProcess(true)), Event(0, Select(true)), Event(0, Continue)];
    assert s3.ts[0].pc.Chosen?;
    ContinueClearsGroupIff(s2, 0);
  }
}
