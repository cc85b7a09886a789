/**
 Real-time signals: a pool of 64 queue nodes shared by the queues of all threads
 and processes. A holder is a thread or a process. A node in circulation is in one
 of four places: the free list, a holder's queue, with a sender that has allocated
 it and not yet appended it, or with a taker that has unlinked it and not yet
 released it. When a holder exits, whatever is still in its queue is lost.
 */
module RtSignals {
  import opened Lists

  const POOL: nat := 64
  const SIGRTMIN: nat := 32
  const NSIG: nat := 65

  datatype Info = Info(signo: nat, value: int)

  /** `sent` and `got` record, per holder, the payloads queued and the payloads taken, and `lost` the nodes dropped by exits. */
  datatype State = State(
    free: seq<nat>, queues: seq<seq<nat>>, sending: seq<nat>, taken: seq<nat>,
    infos: seq<Info>, pending: seq<set<nat>>, sent: seq<seq<Info>>, got: seq<seq<Info>>, lost: seq<nat>)

  predicate Sized(s: State) {
    |s.infos| == POOL && |s.queues| == |s.pending| == |s.sent| == |s.got|
  }

  // ---------------------------------------------------------------- lists

  /** Position of the first queued node of one number, or the length. */
  function FirstOf(q: seq<nat>, infos: seq<Info>, sig: nat): (i: nat)
    ensures i <= |q|
    ensures forall j :: 0 <= j < i ==> q[j] < |infos| ==> infos[q[j]].signo != sig
    ensures i < |q| ==> q[i] < |infos| && infos[q[i]].signo == sig
  {
    if q == [] then 0
    else if q[0] < |infos| && infos[q[0]].signo == sig then 0
    else 1 + FirstOf(q[1..], infos, sig)
  }

  predicate Has(q: seq<nat>, infos: seq<Info>, sig: nat) { FirstOf(q, infos, sig) < |q| }

  // ---------------------------------------------------------------- steps

  datatype Action =
    | Alloc                                     // a sender takes the front of the free list
    | Append(n: nat, h: nat, info: Info)        // and links the node at the end of a queue
    | SendPlain(h: nat, sig: nat)               // a signal without payload only sets the bit
    | TakeFrom(h: nat, sig: nat)
    | ReleaseNode(n: nat)
    | Exit(h: nat)                              // the struct is freed, and its place may be used again

  predicate Enabled(s: State, a: Action) {
    match a
    case Alloc => s.free != []
    case Append(n, h, info) => n in s.sending && h < |s.queues| && SIGRTMIN <= info.signo < NSIG
    case SendPlain(h, sig) => h < |s.queues| && 1 <= sig < NSIG
    case TakeFrom(h, sig) => h < |s.queues| && 1 <= sig < NSIG
    case ReleaseNode(n) => n in s.taken
    case Exit(h) => h < |s.queues|
  }

  /** Clear the bit, unlink the first payload of that number, and set the bit again if another is left. */
  function Took(s: State, h: nat, sig: nat): State
    requires Sized(s) && h < |s.queues|
  {
    var q := s.queues[h];
    var i := FirstOf(q, s.infos, sig);
    var cleared := s.pending[h] - {sig};
    if i == |q| then s.(pending := s.pending[h := cleared])
    else
      var rest := Remove(q, i);
      var again := sig >= SIGRTMIN && Has(rest, s.infos, sig);
      s.(queues := s.queues[h := rest],
         taken := s.taken + [q[i]],
         pending := s.pending[h := if again then cleared + {sig} else cleared],
         got := s.got[h := s.got[h] + [s.infos[q[i]]]])
  }

  function Apply(s: State, a: Action): State
    requires Sized(s) && Enabled(s, a)
  {
    match a
    case Alloc => s.(free := s.free[1..], sending := s.sending + [s.free[0]])
    case Append(n, h, info) =>
      s.(sending := Without(s.sending, n),
         queues := s.queues[h := s.queues[h] + [n]],
         infos := if n < POOL then s.infos[n := info] else s.infos,
         pending := s.pending[h := s.pending[h] + {info.signo}],
         sent := s.sent[h := s.sent[h] + [info]])
    case SendPlain(h, sig) => s.(pending := s.pending[h := s.pending[h] + {sig}])
    case TakeFrom(h, sig) => Took(s, h, sig)
    case ReleaseNode(n) => s.(taken := Without(s.taken, n), free := [n] + s.free)
    case Exit(h) =>
      s.(queues := s.queues[h := []], pending := s.pending[h := {}], sent := s.sent[h := []], got := s.got[h := []],
         lost := s.lost + s.queues[h])
  }

  predicate Init(s: State) {
    && Sized(s) && s.free == seq(POOL, i => POOL - 1 - i) && s.sending == [] && s.taken == [] && s.lost == []
    && forall h :: 0 <= h < |s.queues| ==> s.queues[h] == [] && s.pending[h] == {} && s.sent[h] == [] && s.got[h] == []
  }

  // ---------------------------------------------------------------- conservation

  function Count(q: seq<nat>, x: nat): nat {
    if q == [] then 0 else (if q[0] == x then 1 else 0) + Count(q[1..], x)
  }

  function CountIn(qs: seq<seq<nat>>, x: nat): nat {
    if qs == [] then 0 else Count(qs[0], x) + CountIn(qs[1..], x)
  }

  /** In how many places a node is. */
  function Places(s: State, x: nat): nat {
    Count(s.free, x) + CountIn(s.queues, x) + Count(s.sending, x) + Count(s.taken, x)
  }

  /** Each of the 64 nodes is in circulation, in exactly one place, and nothing else is anywhere. */
  ghost predicate Conserved(s: State) { forall x: nat :: Places(s, x) == if x < POOL then 1 else 0 }

  /** Each of the 64 nodes is in exactly one place or lost, once. */
  ghost predicate Accounted(s: State) { forall x: nat :: Places(s, x) + Count(s.lost, x) == if x < POOL then 1 else 0 }

  lemma {:induction false} CountJoin(a: seq<nat>, b: seq<nat>, x: nat)
    ensures Count(a + b, x) == Count(a, x) + Count(b, x)
  {
    if a == [] {
      assert a + b == b;
    } else {
      assert (a + b)[0] == a[0] && (a + b)[1..] == a[1..] + b;
      CountJoin(a[1..], b, x);
    }
  }

  lemma {:induction false} CountDrop(q: seq<nat>, n: nat, x: nat)
    requires n in q
    ensures Count(Without(q, n), x) + (if x == n then 1 else 0) == Count(q, x)
  {
    if q[0] != n {
      CountDrop(q[1..], n, x);
      assert Without(q, n)[1..] == Without(q[1..], n);
    }
  }

  lemma {:induction false} CountRemove(q: seq<nat>, i: nat, x: nat)
    requires i < |q|
    ensures Count(Remove(q, i), x) + (if x == q[i] then 1 else 0) == Count(q, x)
  {
    if i == 0 {
      assert Remove(q, i) == q[1..];
    } else {
      CountRemove(q[1..], i - 1, x);
      assert Remove(q, i)[0] == q[0] && Remove(q, i)[1..] == Remove(q[1..], i - 1);
    }
  }

  lemma {:induction false} CountUpdate(qs: seq<seq<nat>>, h: nat, q: seq<nat>, x: nat)
    requires h < |qs|
    ensures CountIn(qs[h := q], x) + Count(qs[h], x) == CountIn(qs, x) + Count(q, x)
  {
    if h == 0 {
      assert qs[h := q][1..] == qs[1..];
    } else {
      assert qs[h := q][1..] == qs[1..][h - 1 := q];
      CountUpdate(qs[1..], h - 1, q, x);
    }
  }

  lemma {:induction false} CountMember(q: seq<nat>, x: nat)
    ensures Count(q, x) > 0 <==> x in q
  {
    if q != [] {
      CountMember(q[1..], x);
      assert x in q <==> x == q[0] || x in q[1..];
    }
  }

  lemma {:induction false} CountInHas(qs: seq<seq<nat>>, h: nat, x: nat)
    requires h < |qs|
    ensures CountIn(qs, x) >= Count(qs[h], x)
  {
    if h > 0 { CountInHas(qs[1..], h - 1, x); }
  }

  lemma {:induction false} PlacesStep(s: State, a: Action, x: nat)
    requires Sized(s) && Enabled(s, a)
    ensures Places(Apply(s, a), x) + Count(Apply(s, a).lost, x) == Places(s, x) + Count(s.lost, x)
  {
    match a
    case Alloc =>
      CountJoin(s.sending, [s.free[0]], x);
    case Append(n, h, info) =>
      CountDrop(s.sending, n, x);
      CountJoin(s.queues[h], [n], x);
      CountUpdate(s.queues, h, s.queues[h] + [n], x);
    case SendPlain(_, _) =>
    case TakeFrom(h, sig) =>
      var q := s.queues[h];
      var i := FirstOf(q, s.infos, sig);
      if i < |q| {
        CountRemove(q, i, x);
        CountUpdate(s.queues, h, Remove(q, i), x);
        CountJoin(s.taken, [q[i]], x);
      }
    case ReleaseNode(n) =>
      CountDrop(s.taken, n, x);
      CountJoin([n], s.free, x);
    case Exit(h) =>
      CountUpdate(s.queues, h, [], x);
      CountJoin(s.lost, s.queues[h], x);
  }

  lemma {:induction false} AccountedStep(s: State, a: Action)
    requires Sized(s) && Accounted(s) && Enabled(s, a)
    ensures Accounted(Apply(s, a))
  {
    forall x: nat
      ensures Places(Apply(s, a), x) + Count(Apply(s, a).lost, x) == if x < POOL then 1 else 0
    {
      PlacesStep(s, a, x);
    }
  }

  /** A queued node is a pool node, and neither free nor with a sender or taker. */
  lemma {:induction false} OnePlace(s: State, h: nat, x: nat)
    requires Accounted(s) && h < |s.queues| && x in s.queues[h]
    ensures x < POOL && x !in s.sending && x !in s.free && x !in s.taken && x !in s.lost
  {
    assert Places(s, x) + Count(s.lost, x) == if x < POOL then 1 else 0;
    CountMember(s.lost, x);
    CountMember(s.queues[h], x);
    CountInHas(s.queues, h, x);
    CountMember(s.free, x);
    CountMember(s.sending, x);
    CountMember(s.taken, x);
  }

  lemma {:induction false} SentNode(s: State, n: nat)
    requires Accounted(s) && n in s.sending
    ensures n < POOL && n !in s.taken
  {
    assert Places(s, n) + Count(s.lost, n) == if n < POOL then 1 else 0;
    CountMember(s.sending, n);
    CountMember(s.taken, n);
  }

  // ---------------------------------------------------------------- order and bits

  function Infos(q: seq<nat>, infos: seq<Info>): seq<Info> {
    seq(|q|, i requires 0 <= i < |q| => if q[i] < |infos| then infos[q[i]] else Info(0, 0))
  }

  function Of(xs: seq<Info>, sig: nat): seq<Info> {
    if xs == [] then [] else (if xs[0].signo == sig then [xs[0]] else []) + Of(xs[1..], sig)
  }

  lemma {:induction false} OfJoin(a: seq<Info>, b: seq<Info>, sig: nat)
    ensures Of(a + b, sig) == Of(a, sig) + Of(b, sig)
  {
    if a == [] {
      assert a + b == b;
    } else {
      var h := if a[0].signo == sig then [a[0]] else [];
      assert (a + b)[0] == a[0] && (a + b)[1..] == a[1..] + b;
      OfJoin(a[1..], b, sig);
      assert Of(a + b, sig) == h + (Of(a[1..], sig) + Of(b, sig));
    }
  }

  lemma {:induction false} OfNone(xs: seq<Info>, sig: nat)
    requires forall i :: 0 <= i < |xs| ==> xs[i].signo != sig
    ensures Of(xs, sig) == []
  {
    if xs != [] { OfNone(xs[1..], sig); }
  }

  /** Taking the first of its number takes the front of that number's payloads and leaves other numbers alone. */
  lemma {:induction false} TakeFront(xs: seq<Info>, i: nat, sig: nat)
    requires i < |xs| && forall j :: 0 <= j < i ==> xs[j].signo != xs[i].signo
    ensures Of([xs[i]], sig) + Of(xs[..i] + xs[i + 1..], sig) == Of(xs, sig)
  {
    OfJoin(xs[..i], [xs[i]] + xs[i + 1..], sig);
    OfJoin([xs[i]], xs[i + 1..], sig);
    OfJoin(xs[..i], xs[i + 1..], sig);
    assert xs == xs[..i] + ([xs[i]] + xs[i + 1..]);
    if xs[i].signo == sig {
      OfNone(xs[..i], sig);
    } else {
      assert Of([xs[i]], sig) == [];
    }
  }

  /** For holder `h`: payloads of one number leave in the order they came, each at most once. */
  ghost predicate InOrder(s: State, h: nat)
    requires Sized(s) && h < |s.queues|
  {
    forall sig: nat :: Of(s.got[h], sig) + Of(Infos(s.queues[h], s.infos), sig) == Of(s.sent[h], sig)
  }

  /** For holder `h`: a queued payload has its bit set, and is a real-time one. */
  predicate BitsSet(s: State, h: nat)
    requires Sized(s) && h < |s.queues|
  {
    forall i :: 0 <= i < |s.queues[h]| ==>
      var n := s.queues[h][i];
      n < POOL && SIGRTMIN <= s.infos[n].signo && s.infos[n].signo in s.pending[h]
  }

  lemma {:induction false} AppendStep(s: State, n: nat, g: nat, info: Info, h: nat)
    requires Sized(s) && Accounted(s) && Enabled(s, Append(n, g, info)) && h < |s.queues|
    requires InOrder(s, h) && BitsSet(s, h)
    ensures InOrder(Apply(s, Append(n, g, info)), h) && BitsSet(Apply(s, Append(n, g, info)), h)
  {
    var s' := Apply(s, Append(n, g, info));
    SentNode(s, n);
    forall i | 0 <= i < |s.queues[h]|
      ensures s.queues[h][i] != n
    {
      assert s.queues[h][i] in s.queues[h];
      OnePlace(s, h, s.queues[h][i]);
    }
    var before := Infos(s.queues[h], s.infos);
    assert Infos(s.queues[h], s'.infos) == before;
    if g == h {
      assert Infos(s'.queues[h], s'.infos) == before + [info];
      forall sig: nat
        ensures Of(s'.got[h], sig) + Of(Infos(s'.queues[h], s'.infos), sig) == Of(s'.sent[h], sig)
      {
        OfJoin(before, [info], sig);
        OfJoin(s.sent[h], [info], sig);
        assert Of(s.got[h], sig) + (Of(before, sig) + Of([info], sig)) == Of(s.sent[h], sig) + Of([info], sig);
      }
    }
  }

  lemma {:induction false} MovedOver(got: seq<Info>, xs: seq<Info>, i: nat, g: nat)
    requires i < |xs| && forall j :: 0 <= j < i ==> xs[j].signo != xs[i].signo
    ensures Of(got + [xs[i]], g) + Of(xs[..i] + xs[i + 1..], g) == Of(got, g) + Of(xs, g)
  {
    hide Of;
    TakeFront(xs, i, g);
    OfJoin(got, [xs[i]], g);
    assert (Of(got, g) + Of([xs[i]], g)) + Of(xs[..i] + xs[i + 1..], g) == Of(got, g) + (Of([xs[i]], g) + Of(xs[..i] + xs[i + 1..], g));
  }

  lemma {:induction false} TakeOrder(s: State, h: nat, sig: nat)
    requires Sized(s) && h < |s.queues| && InOrder(s, h) && BitsSet(s, h)
    ensures InOrder(Took(s, h, sig), h)
  {
    var q := s.queues[h];
    var i := FirstOf(q, s.infos, sig);
    if i < |q| {
      var s', xs := Took(s, h, sig), Infos(q, s.infos);
      assert Infos(Remove(q, i), s.infos) == xs[..i] + xs[i + 1..];
      assert s'.got[h] == s.got[h] + [xs[i]] && s'.sent[h] == s.sent[h];
      hide Of;
      hide Infos;
      forall g: nat
        ensures Of(s'.got[h], g) + Of(Infos(s'.queues[h], s'.infos), g) == Of(s'.sent[h], g)
      {
        assert Of(s.got[h], g) + Of(xs, g) == Of(s.sent[h], g);
        MovedOver(s.got[h], xs, i, g);
      }
    }
  }

  lemma {:induction false} TakeBits(s: State, h: nat, sig: nat)
    requires Sized(s) && h < |s.queues| && BitsSet(s, h)
    ensures BitsSet(Took(s, h, sig), h)
  {
    var q := s.queues[h];
    var i := FirstOf(q, s.infos, sig);
    if i < |q| {
      var rest := Remove(q, i);
      forall j | 0 <= j < |rest|
        ensures var n := rest[j]; n < POOL && SIGRTMIN <= s.infos[n].signo && s.infos[n].signo in Took(s, h, sig).pending[h]
      {
        assert rest[j] == q[if j < i then j else j + 1];
        assert s.infos[rest[j]].signo == sig ==> Has(rest, s.infos, sig);
      }
    }
  }

  lemma {:induction false} HolderKept(s: State, s': State, h: nat)
    requires Sized(s) && Sized(s') && h < |s.queues| == |s'.queues| && InOrder(s, h) && BitsSet(s, h)
    requires s'.queues[h] == s.queues[h] && s'.infos == s.infos && s'.sent[h] == s.sent[h] && s'.got[h] == s.got[h]
    requires s.pending[h] <= s'.pending[h]
    ensures InOrder(s', h) && BitsSet(s', h)
  {
    forall sig: nat
      ensures Of(s'.got[h], sig) + Of(Infos(s'.queues[h], s'.infos), sig) == Of(s'.sent[h], sig)
    {
      assert Of(s.got[h], sig) + Of(Infos(s.queues[h], s.infos), sig) == Of(s.sent[h], sig);
    }
  }

  ghost predicate Inv(s: State) {
    Sized(s) && Accounted(s) && forall h :: 0 <= h < |s.queues| ==> InOrder(s, h) && BitsSet(s, h)
  }

  lemma {:induction false} InvStep(s: State, a: Action)
    requires Inv(s) && Enabled(s, a)
    ensures Inv(Apply(s, a))
  {
    AccountedStep(s, a);
    forall h | 0 <= h < |s.queues|
      ensures InOrder(Apply(s, a), h) && BitsSet(Apply(s, a), h)
    {
      match a
      case Append(n, g, info) => AppendStep(s, n, g, info, h);
      case TakeFrom(g, sig) =>
        if g == h {
          TakeOrder(s, h, sig);
          TakeBits(s, h, sig);
        } else {
          HolderKept(s, Apply(s, a), h);
        }
      case Exit(g) => if g != h { HolderKept(s, Apply(s, a), h); }
      case _ => HolderKept(s, Apply(s, a), h);
    }
  }

  ghost predicate IsRun(run: seq<State>, acts: seq<Action>) {
    && |run| == |acts| + 1 && Init(run[0])
    && forall i :: 0 <= i < |acts| ==> Sized(run[i]) && Enabled(run[i], acts[i]) && run[i + 1] == Apply(run[i], acts[i])
  }

  lemma {:induction false} InitInv(s: State)
    requires Init(s)
    ensures Inv(s)
  {
    forall x: nat
      ensures Places(s, x) + Count(s.lost, x) == if x < POOL then 1 else 0
    {
      NoQueues(s.queues, x);
      Countdown(POOL, x);
    }
  }

  lemma {:induction false} NoQueues(qs: seq<seq<nat>>, x: nat)
    requires forall h :: 0 <= h < |qs| ==> qs[h] == []
    ensures CountIn(qs, x) == 0
  {
    if qs != [] { NoQueues(qs[1..], x); }
  }

  lemma {:induction false} Countdown(n: nat, x: nat)
    ensures Count(seq(n, i => n - 1 - i), x) == if x < n then 1 else 0
  {
    if n > 0 {
      Countdown(n - 1, x);
      assert seq(n, i => n - 1 - i)[1..] == seq(n - 1, i => n - 1 - 1 - i);
    }
  }

  /**
   Over every interleaving of senders, takers and exits: no node is in two places, none
   but the lost ones is out of circulation, payloads come in order, and none waits
   without its bit.
   */
  lemma {:induction false} RtSafe(run: seq<State>, acts: seq<Action>, i: nat)
    requires IsRun(run, acts) && i < |run|
    ensures Inv(run[i])
  {
    if i == 0 {
      InitInv(run[0]);
    } else {
      RtSafe(run, acts, i - 1);
      assert Enabled(run[i - 1], acts[i - 1]) && run[i] == Apply(run[i - 1], acts[i - 1]);
      InvStep(run[i - 1], acts[i - 1]);
    }
  }

  lemma {:induction false} ConservedIffNoneLost(s: State)
    requires Accounted(s)
    ensures Conserved(s) <==> s.lost == []
  {
    if s.lost != [] {
      var x := s.lost[0];
      CountMember(s.lost, x);
      assert Places(s, x) + Count(s.lost, x) == if x < POOL then 1 else 0;
    } else {
      forall x: nat
        ensures Places(s, x) == if x < POOL then 1 else 0
      {
        assert Places(s, x) + Count(s.lost, x) == if x < POOL then 1 else 0;
      }
    }
  }

  lemma {:induction false} LostStep(s: State, a: Action)
    requires Sized(s) && Enabled(s, a)
    ensures s.lost <= Apply(s, a).lost
    ensures Apply(s, a).lost == s.lost <==> (a.Exit? ==> s.queues[a.h] == [])
  {
  }

  /** What is lost stays lost. */
  lemma {:induction false} LostForGood(run: seq<State>, acts: seq<Action>, i: nat, j: nat)
    requires IsRun(run, acts) && i <= j < |run|
    ensures run[i].lost <= run[j].lost
  {
    if i < j {
      LostForGood(run, acts, i, j - 1);
      assert Enabled(run[j - 1], acts[j - 1]) && run[j] == Apply(run[j - 1], acts[j - 1]);
      LostStep(run[j - 1], acts[j - 1]);
    }
  }

  ghost predicate ExitsEmpty(run: seq<State>, acts: seq<Action>, i: nat)
    requires IsRun(run, acts) && i < |run|
  {
    forall j :: 0 <= j < i && acts[j].Exit? ==> run[j].queues[acts[j].h] == []
  }

  /** All 64 nodes are still in circulation exactly if every holder that exited had an empty queue. */
  lemma {:induction false} ConservedIff(run: seq<State>, acts: seq<Action>, i: nat)
    requires IsRun(run, acts) && i < |run|
    ensures Conserved(run[i]) <==> ExitsEmpty(run, acts, i)
  {
    RtSafe(run, acts, i);
    ConservedIffNoneLost(run[i]);
    NoneLostIff(run, acts, i);
  }

  lemma {:induction false} NoneLostIff(run: seq<State>, acts: seq<Action>, i: nat)
    requires IsRun(run, acts) && i < |run|
    ensures run[i].lost == [] <==> ExitsEmpty(run, acts, i)
  {
    if i > 0 {
      NoneLostIff(run, acts, i - 1);
      var s, a := run[i - 1], acts[i - 1];
      assert Enabled(s, a) && run[i] == Apply(s, a);
      LostStep(s, a);
      assert ExitsEmpty(run, acts, i) <==> ExitsEmpty(run, acts, i - 1) && (a.Exit? ==> s.queues[a.h] == []);
    }
  }

  /** Nodes in circulation. */
  function InUse(s: State): nat { |s.free| + Total(s.queues) + |s.sending| + |s.taken| }

  function Total(qs: seq<seq<nat>>): nat { if qs == [] then 0 else |qs[0]| + Total(qs[1..]) }

  lemma {:induction false} TotalUpdate(qs: seq<seq<nat>>, h: nat, q: seq<nat>)
    requires h < |qs|
    ensures Total(qs[h := q]) + |qs[h]| == Total(qs) + |q|
  {
    if h == 0 {
      assert qs[h := q][1..] == qs[1..];
    } else {
      assert qs[h := q][1..] == qs[1..][h - 1 := q];
      TotalUpdate(qs[1..], h - 1, q);
    }
  }

  lemma {:induction false} WithoutOne(s: seq<nat>, x: nat)
    requires x in s
    ensures |Without(s, x)| == |s| - 1
  {
    if s[0] != x { WithoutOne(s[1..], x); }
  }

  lemma {:induction false} InUseStep(s: State, a: Action)
    requires Sized(s) && Enabled(s, a)
    ensures InUse(Apply(s, a)) + |Apply(s, a).lost| == InUse(s) + |s.lost|
  {
    match a
    case Append(n, h, _) =>
      WithoutOne(s.sending, n);
      TotalUpdate(s.queues, h, s.queues[h] + [n]);
    case TakeFrom(h, sig) =>
      var i := FirstOf(s.queues[h], s.infos, sig);
      if i < |s.queues[h]| { TotalUpdate(s.queues, h, Remove(s.queues[h], i)); }
    case ReleaseNode(n) => WithoutOne(s.taken, n);
    case Exit(h) => TotalUpdate(s.queues, h, []);
    case _ =>
  }

  lemma {:induction false} NoneQueued(qs: seq<seq<nat>>)
    requires forall h :: 0 <= h < |qs| ==> qs[h] == []
    ensures Total(qs) == 0
  {
    if qs != [] { NoneQueued(qs[1..]); }
  }

  /** What is in circulation is 64 less what was lost; once 64 are lost, nothing can be queued again. */
  lemma {:induction false} CirculationShrinks(run: seq<State>, acts: seq<Action>, i: nat)
    requires IsRun(run, acts) && i < |run|
    ensures InUse(run[i]) + |run[i].lost| == POOL
    ensures |run[i].lost| == POOL ==> !Enabled(run[i], Alloc)
  {
    if i == 0 {
      NoneQueued(run[0].queues);
    } else {
      CirculationShrinks(run, acts, i - 1);
      assert Enabled(run[i - 1], acts[i - 1]) && run[i] == Apply(run[i - 1], acts[i - 1]);
      InUseStep(run[i - 1], acts[i - 1]);
    }
  }

  /** It does happen: one payload queued, and its holder exits. */
  lemma {:induction false} ExitLosesNode() returns (run: seq<State>, acts: seq<Action>)
    ensures IsRun(run, acts) && |acts| == 3 && acts[2].Exit? && |run[3].lost| == 1 && InUse(run[3]) == POOL - 1
  {
    var pool: seq<nat> := seq(POOL, i => POOL - 1 - i);
    var s0 := State(pool, [[]], [], [], seq(POOL, _ => Info(0, 0)), [{}], [[]], [[]], []);
    var n := s0.free[0];
    var s1 := Apply(s0, Alloc);
    var s2 := Apply(s1, Append(n, 0, Info(SIGRTMIN, 7)));
    var s3 := Apply(s2, Exit(0));
    run, acts := [s0, s1, s2, s3], [Alloc, Append(n, 0, Info(SIGRTMIN, 7)), Exit(0)];
    assert s2.queues[0] == [n];
    CirculationShrinks(run, acts, 3);
  }

  /** The payload a taker reads after dropping the lock is the one it unlinked: nobody writes a node that is with a taker. */
  lemma {:induction false} TakenNodeUntouched(s: State, a: Action, x: nat)
    requires Inv(s) && Enabled(s, a) && x in s.taken && x < POOL
    ensures Apply(s, a).infos[x] == s.infos[x]
  {
    if a.Append? { SentNode(s, a.n); }
  }

  // ---------------------------------------------------------------- the code

  class Queue {
    var nodes: seq<nat>
    var pending: set<nat>

    /** Unlink the first payload of a number and keep the pending bit right. */
    method Take(infos: seq<Info>, sig: nat) returns (found: bool, node: nat)
      modifies this
      ensures found == Has(old(nodes), infos, sig)
      ensures !found ==> nodes == old(nodes) && pending == old(pending) - {sig}
      ensures found ==> var i := FirstOf(old(nodes), infos, sig);
                        && i < |old(nodes)| && node == old(nodes)[i] && nodes == Remove(old(nodes), i)
                        && pending == old(pending) - {sig} + if sig >= SIGRTMIN && Has(nodes, infos, sig) then {sig} else {}
    {
      pending := pending - {sig};
      var i := 0;
      while i < |nodes| && !(nodes[i] < |infos| && infos[nodes[i]].signo == sig)
        invariant i <= |nodes| && nodes == old(nodes) && pending == old(pending) - {sig}
        invariant FirstOf(nodes, infos, sig) == i + FirstOf(nodes[i..], infos, sig)
      {
        assert nodes[i..][1..] == nodes[i + 1..];
        i := i + 1;
      }
      found, node := i < |nodes|, 0;
      if found {
        node := nodes[i];
        nodes := nodes[..i] + nodes[i + 1..];
        if sig >= SIGRTMIN {
          var more := Another(infos, sig);
          if more { pending := pending + {sig}; }
        }
      }
    }

    method Another(infos: seq<Info>, sig: nat) returns (more: bool)
      ensures more == Has(nodes, infos, sig)
    {
      var i := 0;
      while i < |nodes|
        invariant i <= |nodes|
        invariant Has(nodes, infos, sig) == Has(nodes[i..], infos, sig)
      {
        if nodes[i] < |infos| && infos[nodes[i]].signo == sig {
          return true;
        }
        assert nodes[i..][1..] == nodes[i + 1..];
        i := i + 1;
      }
      more := false;
    }
  }
}
