/**
 One futex hash bucket: the list of waiters, each carrying its key. Newer
 waiters are in front.
 */
module FutexBucket {

  datatype Waiter = Waiter(key: nat, tid: nat)

  /** The waiters of one futex, in list order. */
  function OfKey(q: seq<Waiter>, key: nat): seq<Waiter> {
    if q == [] then [] else (if q[0].key == key then [q[0]] else []) + OfKey(q[1..], key)
  }

  /** The waiters a wake of at most `n` takes, and those it leaves. */
  function Taken(q: seq<Waiter>, key: nat, n: nat): seq<Waiter> {
    if q == [] || n == 0 then []
    else if q[0].key == key then [q[0]] + Taken(q[1..], key, n - 1)
    else Taken(q[1..], key, n)
  }

  function Left(q: seq<Waiter>, key: nat, n: nat): seq<Waiter> {
    if q == [] || n == 0 then q
    else if q[0].key == key then Left(q[1..], key, n - 1)
    else [q[0]] + Left(q[1..], key, n)
  }

  /** A collision in the bucket is a non-event: the wake acts on one key's waiters as on a list of their own. */
  lemma {:induction false} WakeActsOnOneKey(q: seq<Waiter>, key: nat, n: nat, other: nat)
    ensures var mine := OfKey(q, key);
            var m := if n < |mine| then n else |mine|;
            && Taken(q, key, n) == mine[..m]
            && OfKey(Left(q, key, n), key) == mine[m..]
            && (other != key ==> OfKey(Left(q, key, n), other) == OfKey(q, other))
  {
    if q != [] && n > 0 {
      WakeActsOnOneKey(q[1..], key, if q[0].key == key then n - 1 else n, other);
    }
  }

  /** Take one waiter out, leaving the order of the rest. */
  function Without(q: seq<Waiter>, w: Waiter): seq<Waiter> {
    if q == [] then [] else if q[0] == w then q[1..] else [q[0]] + Without(q[1..], w)
  }

  class Bucket {
    var waiters: seq<Waiter>
    var woken: set<nat>

    /** Walk the list under the bucket lock, unlinking and waking up to `val` matching waiters. */
    method Wake(key: nat, val: nat) returns (count: nat)
      modifies this
      ensures waiters == Left(old(waiters), key, val)
      ensures count == |Taken(old(waiters), key, val)|
      ensures woken == old(woken) + set w <- Taken(old(waiters), key, val) :: w.tid
    {
      var kept: seq<Waiter> := [];
      var rest := waiters;
      ghost var taken: seq<Waiter> := [];
      count := 0;
      while rest != [] && count < val
        invariant count <= val && count == |taken|
        invariant Left(old(waiters), key, val) == kept + Left(rest, key, val - count)
        invariant Taken(old(waiters), key, val) == taken + Taken(rest, key, val - count)
        invariant woken == old(woken) + set w <- taken :: w.tid
        decreases |rest|
      {
        var w := rest[0];
        if w.key != key {
          kept := kept + [w];
        } else {
          woken := woken + {w.tid};
          taken := taken + [w];
          count := count + 1;
        }
        rest := rest[1..];
      }
      waiters := kept + rest;
    }

    /** A sleeper that was not woken takes its own record off the list. */
    method Unlink(w: Waiter)
      modifies this`waiters
      ensures waiters == Without(old(waiters), w)
    {
      var kept: seq<Waiter> := [];
      var rest := waiters;
      while rest != [] && rest[0] != w
        invariant Without(old(waiters), w) == kept + Without(rest, w)
        decreases |rest|
      {
        kept, rest := kept + [rest[0]], rest[1..];
      }
      if rest != [] {
        rest := rest[1..];
      }
      waiters := kept + rest;
    }
  }
}

/**
 The kernel half of a futex, as the steps of any number of threads on one word.
 The comparison and the enqueue are two steps, both taken while the bucket lock
 is held; the word itself can change between them.
 */
module FutexKernel {
  import opened Lists

  type Tid = nat

  datatype Phase =
    | User                  // not in futex_wait
    | Entering(val: int)    // wants the bucket lock to compare
    | Comparing(val: int)   // holds the lock
    | Queueing              // holds the lock, the values matched
    | Asleep                // on the list
    | Roused                // on the list, but a signal or a timeout ended the sleep
    | Woken                 // taken off the list by a wake
    | Returned(woken: bool)

  /** `lock` is the thread holding the bucket lock, or -1. */
  datatype Kernel = Kernel(lock: int, list: seq<Tid>, ph: seq<Phase>)

  predicate OnList(p: Phase) { p.Asleep? || p.Roused? }

  /** Committed to sleeping: only a wake, a signal or a timeout brings the thread back. */
  predicate Sleeping(p: Phase) { p.Asleep? || p.Queueing? }

  predicate KInv(k: Kernel) {
    && (forall t :: 0 <= t < |k.ph| ==> (k.lock == t <==> k.ph[t].Comparing? || k.ph[t].Queueing?))
    && -1 <= k.lock < |k.ph|
    && (forall i :: 0 <= i < |k.list| ==> k.list[i] < |k.ph| && OnList(k.ph[k.list[i]]))
    && (forall t :: 0 <= t < |k.ph| && OnList(k.ph[t]) ==> t in k.list)
    && Distinct(k.list)
  }

  datatype KStep = TakeLock | Compare | FallAsleep | Interrupted | Rouse | Unlink | Resume

  predicate KEnabled(k: Kernel, t: Tid, st: KStep) {
    && t < |k.ph|
    && match st
       case TakeLock => k.ph[t].Entering? && k.lock == -1
       case Compare => k.ph[t].Comparing?
       case FallAsleep => k.ph[t].Queueing?
       case Interrupted => k.ph[t].Queueing?
       case Rouse => k.ph[t].Asleep?
       case Unlink => k.ph[t].Roused? && k.lock == -1
       case Resume => k.ph[t].Woken? && k.lock == -1
  }

  function KApply(k: Kernel, t: Tid, st: KStep, word: int): Kernel
    requires KEnabled(k, t, st)
  {
    match st
    case TakeLock => k.(lock := t, ph := k.ph[t := Comparing(k.ph[t].val)])
    case Compare =>
      if word == k.ph[t].val then k.(ph := k.ph[t := Queueing])
      else k.(lock := -1, ph := k.ph[t := Returned(false)])
    case FallAsleep => k.(lock := -1, list := [t] + k.list, ph := k.ph[t := Asleep])
    case Interrupted => k.(lock := -1, ph := k.ph[t := Returned(false)])
    case Rouse => k.(ph := k.ph[t := Roused])
    case Unlink => k.(list := Without(k.list, t), ph := k.ph[t := Returned(false)])
    case Resume => k.(ph := k.ph[t := Returned(true)])
  }

  /** Take the front of the list and mark it woken. */
  function WakeOne(k: Kernel): (k': Kernel)
    requires k.list != [] && k.list[0] < |k.ph|
  {
    k.(list := k.list[1..], ph := k.ph[k.list[0] := Woken])
  }

  /** A wake of at most `n`: the front of the list goes, all in one critical section. */
  function WakeUpTo(k: Kernel, n: nat): (k': Kernel)
    ensures |k'.ph| == |k.ph| && k'.lock == k.lock
    decreases n
  {
    if n == 0 || k.list == [] || k.list[0] >= |k.ph| then k else WakeUpTo(WakeOne(k), n - 1)
  }

  lemma {:induction false} QuietStepKeepsInv(k: Kernel, t: Tid, st: KStep, word: int)
    requires KInv(k) && KEnabled(k, t, st) && !st.FallAsleep? && !st.Unlink?
    ensures KInv(KApply(k, t, st, word))
  {
    var k' := KApply(k, t, st, word);
    assert k'.list == k.list;
    forall i | 0 <= i < |k'.list|
      ensures k'.list[i] < |k'.ph| && OnList(k'.ph[k'.list[i]])
    {
      assert OnList(k.ph[k.list[i]]);
    }
  }

  lemma {:induction false} FallAsleepKeepsInv(k: Kernel, t: Tid)
    requires KInv(k) && KEnabled(k, t, FallAsleep)
    ensures KInv(KApply(k, t, FallAsleep, 0))
  {
    var k' := KApply(k, t, FallAsleep, 0);
    assert t !in k.list;
    assert k'.list[0] == t;
    forall i | 1 <= i < |k'.list|
      ensures k'.list[i] == k.list[i - 1] && k'.list[i] != t && OnList(k'.ph[k'.list[i]])
    {
      assert OnList(k.ph[k.list[i - 1]]);
    }
    forall x | x in k.list
      ensures x in k'.list
    {
      var i :| 0 <= i < |k.list| && k.list[i] == x;
      assert k'.list[i + 1] == x;
    }
  }

  lemma {:induction false} UnlinkKeepsInv(k: Kernel, t: Tid)
    requires KInv(k) && KEnabled(k, t, Unlink)
    ensures KInv(KApply(k, t, Unlink, 0))
  {
    var k' := KApply(k, t, Unlink, 0);
    forall i | 0 <= i < |k'.list|
      ensures k'.list[i] < |k'.ph| && OnList(k'.ph[k'.list[i]])
    {
      assert k'.list[i] in k.list && k'.list[i] != t;
      var j :| 0 <= j < |k.list| && k.list[j] == k'.list[i];
      assert OnList(k.ph[k.list[j]]);
    }
  }

  lemma {:induction false} KStepKeepsInv(k: Kernel, t: Tid, st: KStep, word: int)
    requires KInv(k) && KEnabled(k, t, st)
    ensures KInv(KApply(k, t, st, word))
  {
    match st
    case FallAsleep => FallAsleepKeepsInv(k, t);
    case Unlink => UnlinkKeepsInv(k, t);
    case _ => QuietStepKeepsInv(k, t, st, word);
  }

  lemma {:induction false} WakeOneKeepsInv(k: Kernel)
    requires KInv(k) && k.lock == -1 && k.list != []
    ensures OnList(k.ph[k.list[0]]) && KInv(WakeOne(k))
  {
    var k', head := WakeOne(k), k.list[0];
    forall i | 0 <= i < |k'.list|
      ensures k'.list[i] < |k'.ph| && OnList(k'.ph[k'.list[i]])
    {
      assert k'.list[i] == k.list[i + 1];
    }
    forall t | 0 <= t < |k'.ph| && OnList(k'.ph[t])
      ensures t in k'.list
    {
      assert t in k.list && t != head;
    }
  }

  lemma {:induction false} WakeKeepsInv(k: Kernel, n: nat)
    requires KInv(k) && k.lock == -1
    ensures KInv(WakeUpTo(k, n))
    decreases n
  {
    if n > 0 && k.list != [] {
      WakeOneKeepsInv(k);
      WakeKeepsInv(WakeOne(k), n - 1);
    }
  }

  /** With the lock free, whoever sleeps is on the list; an empty list means nobody sleeps. */
  lemma {:induction false} SleepersListed(k: Kernel)
    requires KInv(k) && k.lock == -1
    ensures forall t :: 0 <= t < |k.ph| && Sleeping(k.ph[t]) ==> t in k.list
  {
  }

  lemma {:induction false} EnterKeepsInv(k: Kernel, t: Tid, p: Phase)
    requires KInv(k) && t < |k.ph| && (k.ph[t].User? || k.ph[t].Returned?) && (p.User? || p.Entering?)
    ensures KInv(k.(ph := k.ph[t := p]))
  {
    var k' := k.(ph := k.ph[t := p]);
    forall i | 0 <= i < |k'.list|
      ensures k'.list[i] < |k'.ph| && OnList(k'.ph[k'.list[i]])
    {
      assert OnList(k.ph[k.list[i]]);
    }
  }

  /** A wake touches only threads that were on the list. */
  lemma {:induction false} WokenWereListed(k: Kernel, n: nat, t: Tid)
    requires KInv(k) && k.lock == -1 && t < |k.ph|
    ensures var p := WakeUpTo(k, n).ph[t]; p == k.ph[t] || (OnList(k.ph[t]) && p.Woken?)
    decreases n
  {
    if n > 0 && k.list != [] {
      WakeOneKeepsInv(k);
      WokenWereListed(WakeOne(k), n - 1, t);
    }
  }

  /** A wake of no fewer than are listed leaves nobody on the list. */
  lemma {:induction false} WakeAllEmpties(k: Kernel, n: nat)
    requires KInv(k) && k.lock == -1 && n >= |k.list|
    ensures WakeUpTo(k, n).list == []
    decreases n
  {
    if k.list != [] {
      WakeOneKeepsInv(k);
      WakeAllEmpties(WakeOne(k), n - 1);
    }
  }
}
