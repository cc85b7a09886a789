/**
 Barrier, broadcast and reduce over `n` ranks that all call the same sequence of
 collectives, each at its own pace. A packet is anything sent and not yet
 received, in any order: packets may be overtaken, lost, or mixed with the
 program's own traffic.
 */
module MpiCollectives {
  import opened Lists

  const TAG_UB: int := 0x3FFF_FFFF
  const COLL_BASE: int := 0x4000_0000
  const SEQS: nat := 0x100_0000
  const TAG_HELLO: int := 0x7F00_0005
  const TAG_GO: int := 0x7F00_0006

  const BARRIER_IN: nat := 1
  const BARRIER_OUT: nat := 2
  const BCAST: nat := 3
  const REDUCE: nat := 4

  // ---------------------------------------------------------------- tags

  function Tag(kind: nat, seqno: nat): int { COLL_BASE + kind * SEQS + seqno % SEQS }

  function KindOf(tag: int): int { (tag - COLL_BASE) / SEQS }

  function SeqOf(tag: int): int { (tag - COLL_BASE) % SEQS }

  /** A tag gives back its kind and the low 24 bits of its sequence number, above every user tag and clear of the start-up tags. */
  lemma {:induction false} TagParts(kind: nat, seqno: nat)
    requires kind <= REDUCE
    ensures Tag(kind, seqno) > TAG_UB && KindOf(Tag(kind, seqno)) == kind && SeqOf(Tag(kind, seqno)) == seqno % SEQS
    ensures Tag(kind, seqno) != TAG_HELLO && Tag(kind, seqno) != TAG_GO
  {
    var x := seqno % SEQS;
    assert Tag(kind, seqno) - COLL_BASE == kind * SEQS + x;
  }

  /** Two collectives share a tag exactly when they are of one kind and a multiple of 2^24 calls apart. */
  lemma {:induction false} TagClashIff(kind: nat, seqno: nat, kind': nat, seqno': nat)
    requires kind <= REDUCE && kind' <= REDUCE
    ensures Tag(kind, seqno) == Tag(kind', seqno') <==> kind == kind' && seqno % SEQS == seqno' % SEQS
  {
    TagParts(kind, seqno);
    TagParts(kind', seqno');
  }

  /** The tag test of MPI_Send, on a 32-bit tag; the second conjunct looks at bit 30. */
  predicate Refused(tag: int) { tag < 0 || (tag > TAG_UB && (tag / COLL_BASE) % 2 == 0) }

  /** The test refuses negative tags and nothing else, so it does not keep users off the library's tags. */
  lemma {:induction false} RefusesOnlyNegative(tag: int)
    requires -0x8000_0000 <= tag < 0x8000_0000
    ensures Refused(tag) <==> tag < 0
    ensures !Refused(Tag(REDUCE, 1))
  {
  }

  // ---------------------------------------------------------------- reductions

  /** `Other` stands for any way of combining two buffers, floating-point arithmetic in particular. */
  datatype Op = Sum | Prod | Max | Min | Other(f: (int, int) -> int)

  function Combine(op: Op, d: int, s: int): int {
    match op
    case Sum => d + s
    case Prod => d * s
    case Max => if s > d then s else d
    case Min => if s < d then s else d
    case Other(f) => f(d, s)
  }

  /** Two contributions can be folded in either order. */
  ghost predicate OrderFree(op: Op) {
    forall d, x, y :: Combine(op, Combine(op, d, x), y) == Combine(op, Combine(op, d, y), x)
  }

  lemma {:induction false} IntegersOrderFree(op: Op)
    requires !op.Other?
    ensures OrderFree(op)
  {
    forall d, x, y
      ensures Combine(op, Combine(op, d, x), y) == Combine(op, Combine(op, d, y), x)
    {
      if op.Prod? {
        assert d * x * y == d * y * x;
      }
    }
  }

  lemma {:induction false} Swap(op: Op, d: int, x: int, y: int)
    requires OrderFree(op)
    ensures Combine(op, Combine(op, d, x), y) == Combine(op, Combine(op, d, y), x)
  {
  }

  type Args = map<(nat, nat), int>

  /** What rank `r` passed to call `k`. */
  function Arg(args: Args, r: nat, k: nat): int { if (r, k) in args then args[(r, k)] else 0 }

  /** The root's own value, with the listed ranks' values folded in, in that order. */
  function FoldGot(op: Op, args: Args, k: nat, root: nat, got: seq<nat>): int {
    if got == [] then Arg(args, root, k)
    else Combine(op, FoldGot(op, args, k, root, got[..|got| - 1]), Arg(args, got[|got| - 1], k))
  }

  /** The values of ranks 0 to m - 1, folded in rank order onto the root's. */
  function FoldAll(op: Op, args: Args, k: nat, root: nat, m: nat): int {
    if m == 0 then Arg(args, root, k)
    else if m - 1 == root then FoldAll(op, args, k, root, m - 1)
    else Combine(op, FoldAll(op, args, k, root, m - 1), Arg(args, m - 1, k))
  }

  /** Any one contribution can be taken as the last. */
  lemma {:induction false} FoldRemove(op: Op, args: Args, k: nat, root: nat, got: seq<nat>, i: nat)
    requires i < |got| && OrderFree(op)
    ensures FoldGot(op, args, k, root, got) == Combine(op, FoldGot(op, args, k, root, Remove(got, i)), Arg(args, got[i], k))
    decreases |got|
  {
    hide OrderFree;
    hide Combine;
    hide Arg;
    var last := |got| - 1;
    if i == last {
      assert Remove(got, i) == got[..last];
    } else {
      FoldRemove(op, args, k, root, got[..last], i);
      assert Remove(got, i)[..last - 1] == Remove(got[..last], i);
      Swap(op, FoldGot(op, args, k, root, Remove(got[..last], i)), Arg(args, got[i], k), Arg(args, got[last], k));
    }
  }

  /** Ranks 0 to m - 1 except the root, each once, in some order. */
  ghost predicate OneEach(got: seq<nat>, root: nat, m: nat) {
    Distinct(got) && forall q :: q in got <==> 0 <= q < m && q != root
  }

  /** Where order does not matter, one contribution from every other rank folds to the rank-order result. */
  lemma {:induction false} FoldAnyOrder(op: Op, args: Args, k: nat, root: nat, got: seq<nat>, m: nat)
    requires OneEach(got, root, m) && OrderFree(op)
    ensures FoldGot(op, args, k, root, got) == FoldAll(op, args, k, root, m)
    decreases m
  {
    hide OrderFree;
    hide Combine;
    hide Arg;
    if m == 0 {
      ElementsCard(got);
      assert Elements(got) == {};
    } else if m - 1 == root {
      FoldAnyOrder(op, args, k, root, got, m - 1);
    } else {
      assert m - 1 in got;
      var i :| 0 <= i < |got| && got[i] == m - 1;
      FoldRemove(op, args, k, root, got, i);
      RemoveKeeps(got, i);
      FoldAnyOrder(op, args, k, root, Remove(got, i), m - 1);
    }
  }

  function Elements(got: seq<nat>): set<nat> { set q <- got }

  function Ranks(n: nat): (s: set<nat>)
    ensures |s| == n && forall q: nat :: q in s <==> q < n
  {
    if n == 0 then {} else Ranks(n - 1) + {n - 1}
  }

  /** n - 1 different ranks other than `me` are all the ranks other than `me`. */
  lemma {:induction false} AllOthers(got: seq<nat>, me: nat, n: nat)
    requires Distinct(got) && me < n && forall q :: q in got ==> q < n && q != me
    ensures |got| <= n - 1
    ensures |got| == n - 1 ==> forall q :: 0 <= q < n && q != me ==> q in got
  {
    ElementsCard(got);
    assert Elements(got) <= Ranks(n) - {me};
    SubsetCard(Elements(got), Ranks(n) - {me});
    assert |Ranks(n) - {me}| == n - 1;
    if |got| == n - 1 {
      assert Elements(got) == Ranks(n) - {me};
      forall q | 0 <= q < n && q != me
        ensures q in got
      {
        assert q in Elements(got);
      }
    }
  }

  lemma {:induction false} ElementsCard(got: seq<nat>)
    requires Distinct(got)
    ensures |Elements(got)| == |got|
  {
    if got != [] {
      ElementsCard(got[1..]);
      assert Elements(got) == Elements(got[1..]) + {got[0]};
    }
  }

  lemma {:induction false} SubsetCard(a: set<nat>, b: set<nat>)
    requires a <= b
    ensures |a| <= |b| && (|a| == |b| ==> a == b)
  {
    if x :| x in a {
      SubsetCard(a - {x}, b - {x});
    }
  }

  // ---------------------------------------------------------------- the ranks

  /**
   An allreduce is two of these: a reduce to rank 0, and a broadcast from rank 0 of what
   it got, its `result`.
   */
  datatype Coll = Barrier | Bcast(root: nat, result: bool) | Reduce(root: nat, op: Op)

  datatype Config = Config(n: nat, prog: seq<Coll>)

  /** Roots are ranks, results are results of reduces, and there are fewer than 2^24 collectives. */
  predicate ConfigOk(c: Config) {
    && c.n >= 1 && |c.prog| < SEQS - 1
    && forall k :: 0 <= k < |c.prog| && !c.prog[k].Barrier? ==> c.prog[k].root < c.n && Follows(c, k)
  }

  predicate Follows(c: Config, k: nat)
    requires k < |c.prog|
  {
    c.prog[k].Bcast? && c.prog[k].result ==> k > 0 && c.prog[k - 1].Reduce? && c.prog[k - 1].root == c.prog[k].root
  }

  /** Where a rank is inside its current collective; `got` lists the senders it has heard from. */
  datatype Phase =
    | Ready
    | SendIn | AwaitOut
    | Gather(got: seq<nat>) | Release(next: nat)
    | BSend(next: nat) | BRecv
    | RSend | Fold(got: seq<nat>, acc: int)

  datatype Packet = Packet(dest: nat, src: nat, tag: int, value: int)

  /** `args` and `outs` record what each rank passed to and got from each call. */
  datatype State = State(pos: seq<nat>, ph: seq<Phase>, seqno: seq<nat>, net: multiset<Packet>, args: Args, outs: Args)

  datatype Action =
    | Begin(v: int)
    | DoSendIn | DoGather(p: Packet) | EndGather | DoRelease | DoAwait(p: Packet)
    | DoBSend | DoBRecv(p: Packet)
    | DoRSend | DoFold(p: Packet) | EndFold
    | UserSend(p: Packet) | Vanish(p: Packet)     // a user message sent; any packet received by the user, or lost

  predicate For(s: State, p: Packet, r: nat, kind: nat)
    requires r < |s.seqno|
  {
    p in s.net && p.dest == r && p.tag == Tag(kind, s.seqno[r])
  }

  predicate Sized(c: Config, s: State) { |s.pos| == |s.ph| == |s.seqno| == c.n }

  predicate Active(c: Config, s: State, r: nat) {
    Sized(c, s) && r < c.n && s.pos[r] < |c.prog|
  }

  /** `v` is what rank `r` got from the call before `k`. */
  predicate Result(s: State, r: nat, k: nat, v: int) { k > 0 && (r, k - 1) in s.outs && s.outs[(r, k - 1)] == v }

  predicate Enabled(c: Config, s: State, r: nat, a: Action) {
    && Active(c, s, r)
    && var ph := s.ph[r];
       var coll := c.prog[s.pos[r]];
       match a
       case Begin(v) => ph.Ready? && (coll.Bcast? && coll.result && r == coll.root ==> Result(s, r, s.pos[r], v))
       case DoSendIn => ph.SendIn?
       case DoGather(p) => ph.Gather? && |ph.got| < c.n - 1 && For(s, p, r, BARRIER_IN)
       case EndGather => ph.Gather? && |ph.got| == c.n - 1
       case DoRelease => ph.Release?
       case DoAwait(p) => ph.AwaitOut? && For(s, p, r, BARRIER_OUT) && p.src == 0
       case DoBSend => ph.BSend? && coll.Bcast?
       case DoBRecv(p) => ph.BRecv? && coll.Bcast? && For(s, p, r, BCAST) && p.src == coll.root
       case DoRSend => ph.RSend? && coll.Reduce?
       case DoFold(p) => ph.Fold? && coll.Reduce? && |ph.got| < c.n - 1 && For(s, p, r, REDUCE)
       case EndFold => ph.Fold? && |ph.got| == c.n - 1
       case UserSend(p) => 0 <= p.tag <= TAG_UB
       case Vanish(p) => p in s.net
  }

  /** Entry to a collective: the counter goes up first, except in a barrier of one. */
  function Start(c: Config, r: nat, coll: Coll, v: int): Phase {
    match coll
    case Barrier => if r == 0 then Gather([]) else SendIn
    case Bcast(root, _) => if r == root then BSend(0) else BRecv
    case Reduce(root, _) => if r == root then Fold([], v) else RSend
  }

  function In(s: State, r: nat, ph: Phase): State
    requires r < |s.ph|
  {
    s.(ph := s.ph[r := ph])
  }

  function Finish(s: State, r: nat): State
    requires r < |s.ph| == |s.pos|
  {
    s.(pos := s.pos[r := s.pos[r] + 1], ph := s.ph[r := Ready])
  }

  function Send(s: State, p: Packet): (s': State)
    ensures s' == s.(net := s'.net)
  {
    s.(net := s.net + multiset{p})
  }

  function Take(s: State, p: Packet): (s': State)
    ensures s' == s.(net := s'.net)
  {
    s.(net := s.net - multiset{p})
  }

  function Apply(c: Config, s: State, r: nat, a: Action): State
    requires Enabled(c, s, r, a)
  {
    var k, ph := s.pos[r], s.ph[r];
    var coll := c.prog[k];
    match a
    case Begin(v) =>
      var s1 := s.(args := s.args[(r, k) := v]);
      if coll.Barrier? && c.n == 1 then Finish(s1, r)
      else In(s1, r, Start(c, r, coll, v)).(seqno := s.seqno[r := s.seqno[r] + 1])
    case DoSendIn => In(Send(s, Packet(0, r, Tag(BARRIER_IN, s.seqno[r]), 0)), r, AwaitOut)
    case DoGather(p) => In(Take(s, p), r, Gather(ph.got + [p.src]))
    case EndGather => In(s, r, Release(1))
    case DoRelease =>
      if ph.next >= c.n then Finish(s, r)
      else In(Send(s, Packet(ph.next, r, Tag(BARRIER_OUT, s.seqno[r]), 0)), r, Release(ph.next + 1))
    case DoAwait(p) => Finish(Take(s, p), r)
    case DoBSend =>
      if ph.next >= c.n then Finish(s, r).(outs := s.outs[(r, k) := Arg(s.args, r, k)])
      else if ph.next == coll.root then In(s, r, BSend(ph.next + 1))
      else In(Send(s, Packet(ph.next, r, Tag(BCAST, s.seqno[r]), Arg(s.args, r, k))), r, BSend(ph.next + 1))
    case DoBRecv(p) => Finish(Take(s, p), r).(outs := s.outs[(r, k) := p.value])
    case DoRSend => Finish(Send(s, Packet(coll.root, r, Tag(REDUCE, s.seqno[r]), Arg(s.args, r, k))), r)
    case DoFold(p) => In(Take(s, p), r, Fold(ph.got + [p.src], Combine(coll.op, ph.acc, p.value)))
    case EndFold => Finish(s, r).(outs := s.outs[(r, k) := ph.acc])
    case UserSend(p) => Send(s, p)
    case Vanish(p) => Take(s, p)
  }

  predicate Init(c: Config, s: State) {
    && Sized(c, s) && s.net == multiset{} && s.args == map[] && s.outs == map[]
    && forall r :: 0 <= r < c.n ==> s.pos[r] == 0 && s.ph[r].Ready? && s.seqno[r] == 0
  }

  // ---------------------------------------------------------------- what is true of a state

  predicate Entered(s: State, r: nat, k: nat)
    requires r < |s.pos| == |s.ph|
  {
    s.pos[r] > k || (s.pos[r] == k && !s.ph[r].Ready?)
  }

  predicate AllEntered(c: Config, s: State, k: nat)
    requires Sized(c, s)
  {
    forall q :: 0 <= q < c.n ==> Entered(s, q, k)
  }

  /** Rank `src` has sent its message of this kind for call `k` to `dest`. */
  predicate Sent(c: Config, s: State, kind: int, src: nat, dest: nat, k: nat)
    requires Sized(c, s)
  {
    && src < c.n && dest < c.n && src != dest && k < |c.prog|
    && var pos, ph := s.pos[src], s.ph[src];
       match c.prog[k]
       case Barrier =>
         if kind == BARRIER_IN then dest == 0 && (pos > k || (pos == k && ph.AwaitOut?))
         else kind == BARRIER_OUT && src == 0 && (pos > k || (pos == k && ph.Release? && dest < ph.next))
       case Bcast(root, _) => kind == BCAST && src == root && (pos > k || (pos == k && ph.BSend? && dest < ph.next))
       case Reduce(root, _) => kind == REDUCE && dest == root && pos > k
  }

  function Value(args: Args, kind: int, src: nat, k: nat): int {
    if kind == BCAST || kind == REDUCE then Arg(args, src, k) else 0
  }

  /** A library packet is what its tag says: the sender's message for the call with that number. */
  predicate Claim(c: Config, s: State, p: Packet)
    requires Sized(c, s)
  {
    && SeqOf(p.tag) >= 1
    && var k := SeqOf(p.tag) - 1;
       Sent(c, s, KindOf(p.tag), p.src, p.dest, k) && p.value == Value(s.args, KindOf(p.tag), p.src, k)
  }

  predicate IsUser(p: Packet) { p.tag <= TAG_UB }

  predicate NetOk(c: Config, s: State)
    requires Sized(c, s)
  {
    forall p :: p in s.net ==> IsUser(p) || (Claim(c, s, p) && s.net[p] == 1)
  }

  /** A gathering rank has not yet counted the senders whose packets are still to come. */
  predicate Uncounted(s: State, p: Packet)
    requires p.dest < |s.ph| == |s.pos|
  {
    var ph := s.ph[p.dest];
    SeqOf(p.tag) == s.pos[p.dest] + 1 ==>
      && (ph.Gather? && KindOf(p.tag) == BARRIER_IN ==> p.src !in ph.got)
      && (ph.Fold? && KindOf(p.tag) == REDUCE ==> p.src !in ph.got)
  }

  predicate FreshOk(c: Config, s: State)
    requires Sized(c, s)
  {
    forall p :: p in s.net && !IsUser(p) && p.dest < c.n ==> Uncounted(s, p)
  }

  predicate GotOk(c: Config, s: State, kind: nat, me: nat, k: nat, got: seq<nat>)
    requires Sized(c, s)
  {
    Distinct(got) && |got| <= c.n - 1 && forall q :: q in got ==> Sent(c, s, kind, q, me, k)
  }

  predicate PhaseOk(c: Config, s: State, r: nat)
    requires Sized(c, s) && r < c.n
  {
    var k, ph := s.pos[r], s.ph[r];
    && k <= |c.prog|
    && (ph.Ready? ||
        (&& k < |c.prog|
         && var coll := c.prog[k];
            match ph
            case Ready => true
            case SendIn => coll.Barrier? && r != 0
            case AwaitOut => coll.Barrier? && r != 0
            case Gather(got) => coll.Barrier? && r == 0 && GotOk(c, s, BARRIER_IN, r, k, got)
            case Release(next) => coll.Barrier? && r == 0 && 1 <= next <= c.n
            case BSend(next) => coll.Bcast? && r == coll.root && next <= c.n
            case BRecv => coll.Bcast? && r != coll.root
            case RSend => coll.Reduce? && r != coll.root
            case Fold(got, acc) =>
              coll.Reduce? && r == coll.root && GotOk(c, s, REDUCE, r, k, got) && acc == FoldGot(coll.op, s.args, k, r, got)))
  }

  predicate SeqOk(c: Config, s: State)
    requires Sized(c, s)
  {
    c.n >= 2 ==> forall r :: 0 <= r < c.n ==> s.seqno[r] == s.pos[r] + (if s.ph[r].Ready? then 0 else 1)
  }

  /** Rank `r` is past the gathering half of barrier `k`. */
  predicate Passed(s: State, r: nat, k: nat)
    requires r < |s.pos| == |s.ph|
  {
    s.pos[r] > k || (s.pos[r] == k && s.ph[r].Release?)
  }

  predicate BarrierOk(c: Config, s: State)
    requires Sized(c, s)
  {
    forall r, k :: 0 <= r < c.n && 0 <= k < |c.prog| && c.prog[k].Barrier? && Passed(s, r, k) ==> AllEntered(c, s, k)
  }

  ghost predicate OutOk(c: Config, s: State, rk: (nat, nat))
    requires Sized(c, s) && rk in s.outs
  {
    var (r, k) := rk;
    && k < |c.prog| && r < c.n
    && match c.prog[k]
       case Barrier => true
       case Bcast(root, _) => root < c.n && Entered(s, root, k) && s.outs[rk] == Arg(s.args, root, k)
       case Reduce(root, op) => r == root && AllEntered(c, s, k) && exists got :: FoldOf(c, s, root, op, k, got, s.outs[rk])
  }

  /** `v` is the root's value with every other rank's folded in once, in the order `got`. */
  ghost predicate FoldOf(c: Config, s: State, root: nat, op: Op, k: nat, got: seq<nat>, v: int) {
    OneEach(got, root, c.n) && v == FoldGot(op, s.args, k, root, got)
  }

  /** The second half of an allreduce broadcasts what the first half gave. */
  predicate ResultsOk(c: Config, s: State)
    requires Sized(c, s)
  {
    forall k :: 0 <= k < |c.prog| && c.prog[k].Bcast? && c.prog[k].result && c.prog[k].root < c.n && Entered(s, c.prog[k].root, k) ==>
      Result(s, c.prog[k].root, k, Arg(s.args, c.prog[k].root, k))
  }

  ghost predicate OutsOk(c: Config, s: State)
    requires Sized(c, s)
  {
    forall rk :: rk in s.outs ==> OutOk(c, s, rk)
  }

  ghost predicate Inv(c: Config, s: State) {
    && Sized(c, s) && SeqOk(c, s) && (forall r :: 0 <= r < c.n ==> PhaseOk(c, s, r))
    && NetOk(c, s) && FreshOk(c, s) && BarrierOk(c, s) && OutsOk(c, s) && ResultsOk(c, s)
  }

  // ---------------------------------------------------------------- ranks only move forward

  predicate Later(a: Phase, b: Phase) {
    || a == b || a.Ready?
    || (a.SendIn? && b.AwaitOut?)
    || (a.Gather? && (b.Gather? || b.Release?))
    || (a.Release? && b.Release? && a.next <= b.next)
    || (a.BSend? && b.BSend? && a.next <= b.next)
    || (a.Fold? && b.Fold?)
  }

  predicate Forward(s: State, s': State, r: nat)
    requires r < |s.pos| == |s.ph| && r < |s'.pos| == |s'.ph|
  {
    s'.pos[r] > s.pos[r] || (s'.pos[r] == s.pos[r] && Later(s.ph[r], s'.ph[r]))
  }

  /** Ranks go forward, and what was passed to a call already entered stays as it was. */
  ghost predicate Grows(c: Config, s: State, s': State)
    requires Sized(c, s) && Sized(c, s')
  {
    && (forall r :: 0 <= r < c.n ==> Forward(s, s', r))
    && (forall r, k :: 0 <= r < c.n && 0 <= k && Entered(s, r, k) ==> Arg(s'.args, r, k) == Arg(s.args, r, k))
  }

  predicate OnlyRank(c: Config, s: State, s': State, r: nat)
    requires Sized(c, s) && Sized(c, s')
  {
    forall q :: 0 <= q < c.n && q != r ==> s'.pos[q] == s.pos[q] && s'.ph[q] == s.ph[q] && s'.seqno[q] == s.seqno[q]
  }

  lemma {:induction false} StepOnlyRank(c: Config, s: State, r: nat, a: Action)
    requires Enabled(c, s, r, a)
    ensures Sized(c, Apply(c, s, r, a)) && OnlyRank(c, s, Apply(c, s, r, a), r)
  {
    hide Tag;
    hide Combine;
    hide Arg;
    hide For;
    hide Result;
    hide Send;
    hide Take;
  }

  lemma {:induction false} StepForward(c: Config, s: State, r: nat, a: Action)
    requires Enabled(c, s, r, a)
    ensures Sized(c, Apply(c, s, r, a)) && Forward(s, Apply(c, s, r, a), r)
  {
    hide Tag;
    hide Combine;
    hide Arg;
    hide For;
    hide Result;
    hide Send;
    hide Take;
  }

  lemma {:induction false} StepArgs(c: Config, s: State, r: nat, a: Action, q: nat, k: nat)
    requires Enabled(c, s, r, a) && q < c.n && Entered(s, q, k)
    ensures Arg(Apply(c, s, r, a).args, q, k) == Arg(s.args, q, k)
  {
    hide Tag;
    hide Combine;
  }

  lemma {:induction false} StepGrows(c: Config, s: State, r: nat, a: Action)
    requires Enabled(c, s, r, a)
    ensures Sized(c, Apply(c, s, r, a)) && Grows(c, s, Apply(c, s, r, a)) && OnlyRank(c, s, Apply(c, s, r, a), r)
  {
    StepForward(c, s, r, a);
    StepOnlyRank(c, s, r, a);
    var s' := Apply(c, s, r, a);
    forall q, k | 0 <= q < c.n && 0 <= k && Entered(s, q, k)
      ensures Arg(s'.args, q, k) == Arg(s.args, q, k)
    {
      StepArgs(c, s, r, a, q, k);
    }
    forall q | 0 <= q < c.n
      ensures Forward(s, s', q)
    {
      if q != r { assert s'.ph[q] == s.ph[q]; }
    }
  }

  lemma {:induction false} EnteredGrows(c: Config, s: State, s': State, q: nat, k: nat)
    requires Sized(c, s) && Sized(c, s') && Grows(c, s, s') && q < c.n && Entered(s, q, k)
    ensures Entered(s', q, k)
  {
    assert Forward(s, s', q);
  }

  lemma {:induction false} AllEnteredGrows(c: Config, s: State, s': State, k: nat)
    requires Sized(c, s) && Sized(c, s') && Grows(c, s, s') && AllEntered(c, s, k)
    ensures AllEntered(c, s', k)
  {
    forall q | 0 <= q < c.n
      ensures Entered(s', q, k)
    {
      EnteredGrows(c, s, s', q, k);
    }
  }

  lemma {:induction false} SentGrows(c: Config, s: State, s': State, kind: int, src: nat, dest: nat, k: nat)
    requires Sized(c, s) && Sized(c, s') && Grows(c, s, s') && Sent(c, s, kind, src, dest, k)
    ensures Sent(c, s', kind, src, dest, k) && Entered(s, src, k)
  {
    assert Forward(s, s', src);
  }

  lemma {:induction false} ClaimGrows(c: Config, s: State, s': State, p: Packet)
    requires Sized(c, s) && Sized(c, s') && Grows(c, s, s') && Claim(c, s, p)
    ensures Claim(c, s', p)
  {
    SentGrows(c, s, s', KindOf(p.tag), p.src, p.dest, SeqOf(p.tag) - 1);
  }

  lemma {:induction false} FoldGrows(c: Config, s: State, s': State, op: Op, k: nat, root: nat, got: seq<nat>)
    requires Sized(c, s) && Sized(c, s') && Grows(c, s, s') && root < c.n && Entered(s, root, k)
    requires forall i :: 0 <= i < |got| ==> got[i] < c.n && Entered(s, got[i], k)
    ensures FoldGot(op, s'.args, k, root, got) == FoldGot(op, s.args, k, root, got)
  {
    if got != [] {
      assert Entered(s, got[|got| - 1], k);
      FoldGrows(c, s, s', op, k, root, got[..|got| - 1]);
    }
  }

  lemma {:induction false} FoldOfGrows(c: Config, s: State, s': State, root: nat, op: Op, k: nat, got: seq<nat>, v: int)
    requires Sized(c, s) && Sized(c, s') && Grows(c, s, s') && root < c.n && AllEntered(c, s, k) && FoldOf(c, s, root, op, k, got, v)
    ensures FoldOf(c, s', root, op, k, got, v)
  {
    assert Entered(s, root, k);
    forall i | 0 <= i < |got|
      ensures got[i] < c.n && Entered(s, got[i], k)
    {
      assert got[i] in got;
    }
    FoldGrows(c, s, s', op, k, root, got);
  }

  // ---------------------------------------------------------------- packets

  lemma {:induction false} NetShrinks(c: Config, s: State, s': State)
    requires Sized(c, s) && Sized(c, s') && Grows(c, s, s') && NetOk(c, s) && s'.net <= s.net
    ensures NetOk(c, s')
  {
    forall p | p in s'.net
      ensures IsUser(p) || (Claim(c, s', p) && s'.net[p] == 1)
    {
      assert s'.net[p] <= s.net[p];
      if !IsUser(p) { ClaimGrows(c, s, s', p); }
    }
  }

  lemma {:induction false} NetGains(c: Config, s: State, s': State, new_: Packet)
    requires Sized(c, s) && Sized(c, s') && Grows(c, s, s') && NetOk(c, s) && s'.net == s.net + multiset{new_}
    requires IsUser(new_) || (Claim(c, s', new_) && !Claim(c, s, new_))
    ensures NetOk(c, s')
  {
    forall p | p in s'.net
      ensures IsUser(p) || (Claim(c, s', p) && s'.net[p] == 1)
    {
      if !IsUser(p) && p != new_ {
        assert p in s.net;
        ClaimGrows(c, s, s', p);
      }
    }
  }

  predicate NothingCounted(ph: Phase) { (ph.Gather? || ph.Fold?) ==> ph.got == [] }

  lemma {:induction false} FreshKept(c: Config, s: State, s': State, r: nat)
    requires Sized(c, s) && Sized(c, s') && r < c.n && OnlyRank(c, s, s', r) && FreshOk(c, s) && s'.net <= s.net
    requires NothingCounted(s'.ph[r]) || (s'.pos[r] == s.pos[r] && s'.ph[r] == s.ph[r])
    ensures FreshOk(c, s')
  {
    forall p | p in s'.net && !IsUser(p) && p.dest < c.n
      ensures Uncounted(s', p)
    {
      assert s'.net[p] <= s.net[p];
      assert Uncounted(s, p);
    }
  }

  /** A packet never sent before comes from a rank not yet counted. */
  lemma {:induction false} FreshGains(c: Config, s: State, s': State, r: nat, p: Packet)
    requires Sized(c, s) && Sized(c, s') && r < c.n && OnlyRank(c, s, s', r) && FreshOk(c, s)
    requires forall q :: 0 <= q < c.n ==> PhaseOk(c, s, q)
    requires s'.net == s.net + multiset{p} && NothingCounted(s.ph[r]) && NothingCounted(s'.ph[r])
    requires IsUser(p) || (SeqOf(p.tag) >= 1 && !Sent(c, s, KindOf(p.tag), p.src, p.dest, SeqOf(p.tag) - 1))
    ensures FreshOk(c, s')
  {
    forall x | x in s'.net && !IsUser(x) && x.dest < c.n
      ensures Uncounted(s', x)
    {
      if x != p {
        assert x in s.net;
        assert Uncounted(s, x);
      } else if x.dest != r {
        assert PhaseOk(c, s, x.dest);
      }
    }
  }

  /** A sender once counted has no second packet for the same call. */
  lemma {:induction false} FreshCounts(c: Config, s: State, s': State, r: nat, p: Packet)
    requires Sized(c, s) && Sized(c, s') && r < c.n && OnlyRank(c, s, s', r) && FreshOk(c, s) && NetOk(c, s)
    requires p in s.net && !IsUser(p) && p.dest == r && s'.net == s.net - multiset{p} && s'.pos[r] == s.pos[r]
    requires (s.ph[r].Gather? && s'.ph[r].Gather?) || (s.ph[r].Fold? && s'.ph[r].Fold?)
    requires s'.ph[r].got == s.ph[r].got + [p.src]
    requires p.tag == Tag(if s.ph[r].Gather? then BARRIER_IN else REDUCE, s.pos[r] + 1) && s.pos[r] + 1 < SEQS
    ensures FreshOk(c, s')
  {
    TagParts(if s.ph[r].Gather? then BARRIER_IN else REDUCE, s.pos[r] + 1);
    forall x | x in s'.net && !IsUser(x) && x.dest < c.n
      ensures Uncounted(s', x)
    {
      assert x in s.net && Uncounted(s, x);
      if x.dest == r && x.src == p.src && SeqOf(x.tag) == SeqOf(p.tag) && KindOf(x.tag) == KindOf(p.tag) {
        SamePacket(c, s, x, p);
      }
    }
  }

  /** Same sender, receiver, kind and call: the same packet. */
  lemma {:induction false} SamePacket(c: Config, s: State, x: Packet, p: Packet)
    requires Sized(c, s) && NetOk(c, s) && x in s.net && p in s.net && !IsUser(x) && !IsUser(p)
    requires x.src == p.src && x.dest == p.dest && SeqOf(x.tag) == SeqOf(p.tag) && KindOf(x.tag) == KindOf(p.tag)
    ensures x == p && s.net[p] == 1
  {
    assert x.tag == COLL_BASE + KindOf(x.tag) * SEQS + SeqOf(x.tag);
    assert p.tag == COLL_BASE + KindOf(p.tag) * SEQS + SeqOf(p.tag);
  }

  // ---------------------------------------------------------------- every step keeps the invariant

  /** The number in use inside a collective identifies the call. */
  lemma {:induction false} SeqInUse(c: Config, s: State, r: nat, kind: nat)
    requires ConfigOk(c) && Inv(c, s) && Active(c, s, r) && !s.ph[r].Ready? && c.n >= 2 && kind <= REDUCE
    ensures s.seqno[r] == s.pos[r] + 1 < SEQS
    ensures var t := Tag(kind, s.seqno[r]); t > TAG_UB && KindOf(t) == kind && SeqOf(t) == s.pos[r] + 1
  {
    TagParts(kind, s.seqno[r]);
  }

  /** A packet taken by a rank in a collective belongs to that collective, and carries what its sender passed. */
  lemma {:induction false} TakenBelongs(c: Config, s: State, r: nat, p: Packet, kind: nat)
    requires ConfigOk(c) && Inv(c, s) && Active(c, s, r) && !s.ph[r].Ready? && c.n >= 2 && kind <= REDUCE && For(s, p, r, kind)
    ensures !IsUser(p) && Sent(c, s, kind, p.src, r, s.pos[r]) && p.value == Value(s.args, kind, p.src, s.pos[r])
    ensures p.tag == Tag(kind, s.pos[r] + 1) && Uncounted(s, p)
  {
    SeqInUse(c, s, r, kind);
  }

  predicate NumberOk(s: State, r: nat)
    requires r < |s.seqno| == |s.pos| == |s.ph|
  {
    s.seqno[r] == s.pos[r] + (if s.ph[r].Ready? then 0 else 1)
  }

  lemma {:induction false} NumberStep(c: Config, s: State, r: nat, a: Action)
    requires Enabled(c, s, r, a) && NumberOk(s, r) && c.n >= 2
    ensures Sized(c, Apply(c, s, r, a)) && NumberOk(Apply(c, s, r, a), r)
  {
    hide Tag;
    hide Combine;
    hide Arg;
    hide For;
    hide Result;
    hide Send;
    hide Take;
  }

  lemma {:induction false} SeqStep(c: Config, s: State, r: nat, a: Action)
    requires Inv(c, s) && Enabled(c, s, r, a)
    ensures Sized(c, Apply(c, s, r, a)) && SeqOk(c, Apply(c, s, r, a))
  {
    assert r < c.n && Sized(c, s) && SeqOk(c, s);
    hide Inv;
    hide Enabled;
    hide Apply;
    StepOnlyRank(c, s, r, a);
    if c.n >= 2 {
      NumberStep(c, s, r, a);
    }
  }

  lemma {:induction false} OthersKept(c: Config, s: State, s': State, q: nat)
    requires Sized(c, s) && Sized(c, s') && Grows(c, s, s') && q < c.n && PhaseOk(c, s, q)
    requires s'.pos[q] == s.pos[q] && s'.ph[q] == s.ph[q]
    ensures PhaseOk(c, s', q)
  {
    var k, ph := s.pos[q], s.ph[q];
    if ph.Gather? {
      GotGrows(c, s, s', BARRIER_IN, q, k, ph.got);
    } else if ph.Fold? {
      GotGrows(c, s, s', REDUCE, q, k, ph.got);
      FoldGrows(c, s, s', c.prog[k].op, k, q, ph.got);
    }
  }

  lemma {:induction false} GotGrows(c: Config, s: State, s': State, kind: nat, me: nat, k: nat, got: seq<nat>)
    requires Sized(c, s) && Sized(c, s') && Grows(c, s, s') && GotOk(c, s, kind, me, k, got)
    ensures GotOk(c, s', kind, me, k, got) && forall i :: 0 <= i < |got| ==> got[i] < c.n && Entered(s, got[i], k)
  {
    forall i | 0 <= i < |got|
      ensures Sent(c, s', kind, got[i], me, k) && got[i] < c.n && Entered(s, got[i], k)
    {
      assert got[i] in got;
      SentGrows(c, s, s', kind, got[i], me, k);
    }
  }

  /** Counting one more sender. */
  lemma {:induction false} CountOne(c: Config, s: State, s': State, kind: nat, r: nat, k: nat, got: seq<nat>, p: Packet)
    requires Sized(c, s) && Sized(c, s') && Grows(c, s, s') && GotOk(c, s, kind, r, k, got) && |got| < c.n - 1
    requires Sent(c, s, kind, p.src, r, k) && p.src !in got
    ensures GotOk(c, s', kind, r, k, got + [p.src])
  {
    GotGrows(c, s, s', kind, r, k, got);
    SentGrows(c, s, s', kind, p.src, r, k);
  }

  lemma {:induction false} GatherPhase(c: Config, s: State, r: nat, p: Packet)
    requires ConfigOk(c) && Inv(c, s) && Enabled(c, s, r, DoGather(p))
    ensures var s' := Apply(c, s, r, DoGather(p)); Sized(c, s') && PhaseOk(c, s', r) && FreshOk(c, s')
  {
    var s' := Apply(c, s, r, DoGather(p));
    StepGrows(c, s, r, DoGather(p));
    assert PhaseOk(c, s, r);
    TakenBelongs(c, s, r, p, BARRIER_IN);
    TagParts(BARRIER_IN, s.pos[r] + 1);
    CountOne(c, s, s', BARRIER_IN, r, s.pos[r], s.ph[r].got, p);
    FreshCounts(c, s, s', r, p);
  }

  lemma {:induction false} FoldPhase(c: Config, s: State, r: nat, p: Packet)
    requires ConfigOk(c) && Inv(c, s) && Enabled(c, s, r, DoFold(p))
    ensures var s' := Apply(c, s, r, DoFold(p)); Sized(c, s') && PhaseOk(c, s', r) && FreshOk(c, s')
  {
    var s' := Apply(c, s, r, DoFold(p));
    var k, got := s.pos[r], s.ph[r].got;
    StepGrows(c, s, r, DoFold(p));
    assert PhaseOk(c, s, r);
    TakenBelongs(c, s, r, p, REDUCE);
    TagParts(REDUCE, k + 1);
    CountOne(c, s, s', REDUCE, r, k, got, p);
    assert (got + [p.src])[..|got|] == got;
    assert s'.args == s.args;
    FreshCounts(c, s, s', r, p);
  }

  lemma {:induction false} BeginPhase(c: Config, s: State, r: nat, v: int)
    requires ConfigOk(c) && Inv(c, s) && Enabled(c, s, r, Begin(v))
    ensures Sized(c, Apply(c, s, r, Begin(v))) && PhaseOk(c, Apply(c, s, r, Begin(v)), r)
  {
    assert c.prog[s.pos[r]].Barrier? || c.prog[s.pos[r]].root < c.n;
  }

  lemma {:induction false} OwnPhase(c: Config, s: State, r: nat, a: Action)
    requires ConfigOk(c) && Inv(c, s) && Enabled(c, s, r, a) && !a.DoGather? && !a.DoFold? && !a.UserSend? && !a.Vanish?
    ensures Sized(c, Apply(c, s, r, a)) && PhaseOk(c, Apply(c, s, r, a), r)
  {
    if a.Begin? {
      BeginPhase(c, s, r, a.v);
    } else {
      assert PhaseOk(c, s, r);
    }
  }

  lemma {:induction false} PhaseStep(c: Config, s: State, r: nat, a: Action, q: nat)
    requires ConfigOk(c) && Inv(c, s) && Enabled(c, s, r, a) && q < c.n
    ensures Sized(c, Apply(c, s, r, a)) && PhaseOk(c, Apply(c, s, r, a), q)
  {
    var s' := Apply(c, s, r, a);
    StepGrows(c, s, r, a);
    if q != r || a.UserSend? || a.Vanish? {
      OthersKept(c, s, s', q);
    } else if a.DoGather? {
      GatherPhase(c, s, r, a.p);
    } else if a.DoFold? {
      FoldPhase(c, s, r, a.p);
    } else {
      OwnPhase(c, s, r, a);
    }
  }

  /** Actions that send one packet, and the packet. */
  predicate Sends(c: Config, s: State, r: nat, a: Action)
    requires Enabled(c, s, r, a)
  {
    a.DoSendIn? || a.DoRSend? || a.UserSend? || (a.DoRelease? && s.ph[r].next < c.n) ||
    (a.DoBSend? && s.ph[r].next < c.n && s.ph[r].next != c.prog[s.pos[r]].root)
  }

  function Outgoing(c: Config, s: State, r: nat, a: Action): Packet
    requires Enabled(c, s, r, a) && Sends(c, s, r, a)
  {
    var k := s.pos[r];
    match a
    case UserSend(p) => p
    case DoSendIn => Packet(0, r, Tag(BARRIER_IN, s.seqno[r]), 0)
    case DoRSend => Packet(c.prog[k].root, r, Tag(REDUCE, s.seqno[r]), Arg(s.args, r, k))
    case DoRelease => Packet(s.ph[r].next, r, Tag(BARRIER_OUT, s.seqno[r]), 0)
    case _ =>
      if s.ph[r].BSend? then Packet(s.ph[r].next, r, Tag(BCAST, s.seqno[r]), Arg(s.args, r, k)) else Packet(0, 0, 0, 0)
  }

  lemma {:induction false} OutgoingNet(c: Config, s: State, r: nat, a: Action)
    requires Enabled(c, s, r, a) && Sends(c, s, r, a)
    ensures Apply(c, s, r, a).net == s.net + multiset{Outgoing(c, s, r, a)}
  {
    hide Tag;
    hide Combine;
    hide Arg;
    hide For;
    hide Result;
  }

  /** The kind of packet an action sends. */
  function SentKind(a: Action): nat {
    if a.DoSendIn? then BARRIER_IN else if a.DoRSend? then REDUCE else if a.DoRelease? then BARRIER_OUT else BCAST
  }

  /** A library packet is the sender's message for the call it is in, and was not sent before. */
  lemma {:induction false} OutgoingClaims(c: Config, s: State, r: nat, a: Action)
    requires ConfigOk(c) && Enabled(c, s, r, a) && Sends(c, s, r, a) && !a.UserSend? && PhaseOk(c, s, r) && c.n >= 2
    requires Sized(c, Apply(c, s, r, a))
    ensures var s', p, k := Apply(c, s, r, a), Outgoing(c, s, r, a), s.pos[r];
            && p.src == r && p.tag == Tag(SentKind(a), s.seqno[r]) && !Sent(c, s, SentKind(a), r, p.dest, k)
            && Sent(c, s', SentKind(a), r, p.dest, k) && p.value == Value(s'.args, SentKind(a), r, k)
  {
    hide Tag;
    hide Combine;
    hide Arg;
    hide For;
    hide Result;
    hide Send;
    hide Take;
    hide FoldGot;
    assert c.prog[s.pos[r]].Barrier? || c.prog[s.pos[r]].root < c.n;
  }

  lemma {:induction false} OutgoingIsNew(c: Config, s: State, r: nat, a: Action)
    requires ConfigOk(c) && Inv(c, s) && Enabled(c, s, r, a) && Sends(c, s, r, a)
    ensures var s', p := Apply(c, s, r, a), Outgoing(c, s, r, a);
            && Sized(c, s') && s'.net == s.net + multiset{p}
            && (IsUser(p) || (Claim(c, s', p) && !Claim(c, s, p) && SeqOf(p.tag) >= 1
                              && !Sent(c, s, KindOf(p.tag), p.src, p.dest, SeqOf(p.tag) - 1)))
  {
    assert PhaseOk(c, s, r) && Active(c, s, r) && (a.UserSend? ==> IsUser(Outgoing(c, s, r, a)));
    StepOnlyRank(c, s, r, a);
    OutgoingNet(c, s, r, a);
    if !a.UserSend? {
      assert c.n >= 2 && !s.ph[r].Ready?;
      SeqInUse(c, s, r, SentKind(a));
      hide Inv;
      hide Apply;
      hide Enabled;
      hide Outgoing;
      hide Sent;
      hide Tag;
      OutgoingClaims(c, s, r, a);
    }
  }

  lemma {:induction false} NetStep(c: Config, s: State, r: nat, a: Action)
    requires ConfigOk(c) && Inv(c, s) && Enabled(c, s, r, a)
    ensures Sized(c, Apply(c, s, r, a)) && NetOk(c, Apply(c, s, r, a))
  {
    var s' := Apply(c, s, r, a);
    StepGrows(c, s, r, a);
    if Sends(c, s, r, a) {
      OutgoingIsNew(c, s, r, a);
      NetGains(c, s, s', Outgoing(c, s, r, a));
    } else {
      NothingSent(c, s, r, a);
      NetShrinks(c, s, s');
    }
  }

  lemma {:induction false} QuietPhase(c: Config, s: State, r: nat, a: Action)
    requires Enabled(c, s, r, a) && !a.DoGather? && !a.DoFold? && !a.UserSend?
    ensures var s' := Apply(c, s, r, a);
            Sized(c, s') && (NothingCounted(s'.ph[r]) || (s'.pos[r] == s.pos[r] && s'.ph[r] == s.ph[r]))
  {
    hide Tag;
    hide Combine;
    hide Arg;
    hide For;
    hide Result;
    hide Send;
    hide Take;
  }

  lemma {:induction false} SenderPhase(c: Config, s: State, r: nat, a: Action)
    requires Enabled(c, s, r, a) && !a.UserSend? && Sends(c, s, r, a)
    ensures var s' := Apply(c, s, r, a); Sized(c, s') && NothingCounted(s.ph[r]) && NothingCounted(s'.ph[r])
  {
    hide Tag;
    hide Combine;
    hide Arg;
    hide For;
    hide Result;
    hide Send;
    hide Take;
  }

  lemma {:induction false} NothingSent(c: Config, s: State, r: nat, a: Action)
    requires Enabled(c, s, r, a) && !Sends(c, s, r, a)
    ensures Apply(c, s, r, a).net <= s.net
  {
    hide Tag;
    hide Combine;
    hide Arg;
  }

  lemma {:induction false} FreshStep(c: Config, s: State, r: nat, a: Action)
    requires ConfigOk(c) && Inv(c, s) && Enabled(c, s, r, a)
    ensures Sized(c, Apply(c, s, r, a)) && FreshOk(c, Apply(c, s, r, a))
  {
    var s' := Apply(c, s, r, a);
    StepGrows(c, s, r, a);
    if a.DoGather? {
      GatherPhase(c, s, r, a.p);
    } else if a.DoFold? {
      FoldPhase(c, s, r, a.p);
    } else if a.UserSend? {
      FreshUser(c, s, s', a.p);
    } else {
      QuietPhase(c, s, r, a);
      if Sends(c, s, r, a) {
        SenderPhase(c, s, r, a);
        OutgoingIsNew(c, s, r, a);
        FreshGains(c, s, s', r, Outgoing(c, s, r, a));
      } else {
        NothingSent(c, s, r, a);
        FreshKept(c, s, s', r);
      }
    }
  }

  lemma {:induction false} FreshUser(c: Config, s: State, s': State, p: Packet)
    requires Sized(c, s) && FreshOk(c, s) && s' == Send(s, p) && IsUser(p)
    ensures FreshOk(c, s')
  {
    forall x | x in s'.net && !IsUser(x) && x.dest < c.n
      ensures Uncounted(s', x)
    {
      assert x in s.net && Uncounted(s, x);
    }
  }

  /** Having heard from n - 1 different ranks, the root knows that everyone is in this call. */
  lemma {:induction false} HeardFromAll(c: Config, s: State, r: nat, kind: nat, k: nat, got: seq<nat>)
    requires ConfigOk(c) && Sized(c, s) && r < c.n && Entered(s, r, k) && GotOk(c, s, kind, r, k, got) && |got| == c.n - 1
    ensures AllEntered(c, s, k) && forall q :: q in got <==> 0 <= q < c.n && q != r
  {
    assert forall q :: q in got ==> Sent(c, s, kind, q, r, k) && q < c.n && q != r;
    AllOthers(got, r, c.n);
    forall q | 0 <= q < c.n
      ensures Entered(s, q, k)
    {
      if q != r { assert q in got; }
    }
  }

  /** A rank newly past barrier `k` got there because everyone is in it. */
  lemma {:induction false} NewlyPassed(c: Config, s: State, r: nat, a: Action, k: nat)
    requires ConfigOk(c) && Inv(c, s) && Enabled(c, s, r, a) && k < |c.prog| && c.prog[k].Barrier? && !Passed(s, r, k) && c.n >= 2
    requires Sized(c, Apply(c, s, r, a)) && Passed(Apply(c, s, r, a), r, k)
    ensures AllEntered(c, s, k)
  {
    assert PhaseOk(c, s, r);
    assert k == s.pos[r];
    if a.DoAwait? {
      TakenBelongs(c, s, r, a.p, BARRIER_OUT);
      assert Passed(s, 0, k);
    } else {
      assert a.EndGather?;
      HeardFromAll(c, s, r, BARRIER_IN, k, s.ph[r].got);
    }
  }

  lemma {:induction false} BarrierStep(c: Config, s: State, r: nat, a: Action)
    requires ConfigOk(c) && Inv(c, s) && Enabled(c, s, r, a)
    ensures Sized(c, Apply(c, s, r, a)) && BarrierOk(c, Apply(c, s, r, a))
  {
    var s' := Apply(c, s, r, a);
    StepGrows(c, s, r, a);
    forall q, k | 0 <= q < c.n && 0 <= k < |c.prog| && c.prog[k].Barrier? && Passed(s', q, k)
      ensures AllEntered(c, s', k)
    {
      if Passed(s, q, k) {
        AllEnteredGrows(c, s, s', k);
      } else if c.n >= 2 {
        NewlyPassed(c, s, r, a, k);
        AllEnteredGrows(c, s, s', k);
      }
    }
  }

  lemma {:induction false} OutKept(c: Config, s: State, s': State, rk: (nat, nat))
    requires ConfigOk(c) && Sized(c, s) && Sized(c, s') && Grows(c, s, s') && rk in s.outs && OutOk(c, s, rk)
    requires rk in s'.outs && s'.outs[rk] == s.outs[rk]
    ensures OutOk(c, s', rk)
  {
    var (r, k) := rk;
    match c.prog[k]
    case Barrier =>
    case Bcast(root, _) => EnteredGrows(c, s, s', root, k);
    case Reduce(root, op) =>
      AllEnteredGrows(c, s, s', k);
      var got :| FoldOf(c, s, root, op, k, got, s.outs[rk]);
      FoldOfGrows(c, s, s', root, op, k, got, s.outs[rk]);
  }

  lemma {:induction false} BcastOut(c: Config, s: State, r: nat, a: Action)
    requires ConfigOk(c) && Inv(c, s) && Enabled(c, s, r, a) && (a.DoBRecv? || (a.DoBSend? && s.ph[r].next >= c.n))
    ensures var s' := Apply(c, s, r, a); Sized(c, s') && (r, s.pos[r]) in s'.outs && OutOk(c, s', (r, s.pos[r]))
  {
    StepGrows(c, s, r, a);
    assert PhaseOk(c, s, r);
    if a.DoBRecv? {
      TakenBelongs(c, s, r, a.p, BCAST);
      EnteredGrows(c, s, Apply(c, s, r, a), a.p.src, s.pos[r]);
    }
  }

  lemma {:induction false} ReduceOut(c: Config, s: State, r: nat)
    requires ConfigOk(c) && Inv(c, s) && Enabled(c, s, r, EndFold)
    ensures var s' := Apply(c, s, r, EndFold); Sized(c, s') && (r, s.pos[r]) in s'.outs && OutOk(c, s', (r, s.pos[r]))
  {
    var k, got := s.pos[r], s.ph[r].got;
    StepGrows(c, s, r, EndFold);
    assert PhaseOk(c, s, r);
    HeardFromAll(c, s, r, REDUCE, k, got);
    AllEnteredGrows(c, s, Apply(c, s, r, EndFold), k);
    assert FoldOf(c, Apply(c, s, r, EndFold), r, c.prog[k].op, k, got, s.ph[r].acc);
  }

  lemma {:induction false} OutsStep(c: Config, s: State, r: nat, a: Action)
    requires ConfigOk(c) && Inv(c, s) && Enabled(c, s, r, a)
    ensures Sized(c, Apply(c, s, r, a)) && OutsOk(c, Apply(c, s, r, a))
  {
    var s' := Apply(c, s, r, a);
    StepGrows(c, s, r, a);
    forall rk | rk in s'.outs
      ensures OutOk(c, s', rk)
    {
      if rk in s.outs && s'.outs[rk] == s.outs[rk] {
        OutKept(c, s, s', rk);
      } else if a.EndFold? {
        ReduceOut(c, s, r);
      } else {
        BcastOut(c, s, r, a);
      }
    }
  }

  /** What a rank got from a call it has left stays as it was. */
  lemma {:induction false} StepOuts(c: Config, s: State, r: nat, a: Action, q: nat, k: nat)
    requires Enabled(c, s, r, a) && q < c.n && s.pos[q] > k
    ensures var s' := Apply(c, s, r, a);
            ((q, k) in s'.outs <==> (q, k) in s.outs) && ((q, k) in s.outs ==> s'.outs[(q, k)] == s.outs[(q, k)])
  {
    hide Tag;
    hide Combine;
    hide Arg;
    hide For;
  }

  lemma {:induction false} ResultsStep(c: Config, s: State, r: nat, a: Action)
    requires ConfigOk(c) && Inv(c, s) && Enabled(c, s, r, a)
    ensures Sized(c, Apply(c, s, r, a)) && ResultsOk(c, Apply(c, s, r, a))
  {
    var s' := Apply(c, s, r, a);
    StepGrows(c, s, r, a);
    forall k | 0 <= k < |c.prog| && c.prog[k].Bcast? && c.prog[k].result && c.prog[k].root < c.n && Entered(s', c.prog[k].root, k)
      ensures Result(s', c.prog[k].root, k, Arg(s'.args, c.prog[k].root, k))
    {
      var root := c.prog[k].root;
      assert Follows(c, k);
      if Entered(s, root, k) {
        StepOuts(c, s, r, a, root, k - 1);
        StepArgs(c, s, r, a, root, k);
      } else {
        NewlyEntered(c, s, r, a, root, k);
        StepOuts(c, s, r, a, root, k - 1);
      }
    }
  }

  lemma {:induction false} NewlyEntered(c: Config, s: State, r: nat, a: Action, q: nat, k: nat)
    requires Enabled(c, s, r, a) && q < c.n && Sized(c, Apply(c, s, r, a)) && !Entered(s, q, k) && Entered(Apply(c, s, r, a), q, k)
    ensures q == r && a.Begin? && s.pos[r] == k && Arg(Apply(c, s, r, a).args, r, k) == a.v
  {
    hide Tag;
    hide Combine;
    hide For;
    if q != r { StepOnlyRank(c, s, r, a); }
  }

  lemma {:induction false} InvStep(c: Config, s: State, r: nat, a: Action)
    requires ConfigOk(c) && Inv(c, s) && Enabled(c, s, r, a)
    ensures Inv(c, Apply(c, s, r, a))
  {
    SeqStep(c, s, r, a);
    NetStep(c, s, r, a);
    FreshStep(c, s, r, a);
    BarrierStep(c, s, r, a);
    OutsStep(c, s, r, a);
    ResultsStep(c, s, r, a);
    forall q | 0 <= q < c.n
      ensures PhaseOk(c, Apply(c, s, r, a), q)
    {
      PhaseStep(c, s, r, a, q);
    }
  }

  // ---------------------------------------------------------------- over whole runs

  ghost predicate Next(c: Config, s: State, s': State) {
    exists r, a :: Enabled(c, s, r, a) && s' == Apply(c, s, r, a)
  }

  ghost predicate IsRun(c: Config, run: seq<State>) {
    && |run| > 0 && Init(c, run[0])
    && forall i :: 0 <= i < |run| - 1 ==> Next(c, run[i], run[i + 1])
  }

  lemma {:induction false} RunSafe(c: Config, run: seq<State>, i: nat)
    requires ConfigOk(c) && IsRun(c, run) && i < |run|
    ensures Inv(c, run[i])
  {
    if i > 0 {
      RunSafe(c, run, i - 1);
      assert Next(c, run[i - 1], run[i]);
      var r, a :| Enabled(c, run[i - 1], r, a) && run[i] == Apply(c, run[i - 1], r, a);
      InvStep(c, run[i - 1], r, a);
    }
  }

  /** No rank leaves its k-th collective, a barrier, before every rank has entered it. */
  lemma {:induction false} BarrierSeparates(c: Config, run: seq<State>, i: nat, r: nat, k: nat)
    requires ConfigOk(c) && IsRun(c, run) && i < |run| && k < |c.prog| && c.prog[k].Barrier?
    requires Sized(c, run[i]) && r < c.n && run[i].pos[r] > k
    ensures AllEntered(c, run[i], k)
  {
    RunSafe(c, run, i);
    assert Passed(run[i], r, k);
  }

  /** A step, or a user message with any tag that the library lets through. */
  ghost predicate LooseNext(c: Config, s: State, s': State) {
    Next(c, s, s') || exists r, p: Packet :: Active(c, s, r) && p.src == r && !Refused(p.tag) && s' == Send(s, p)
  }

  ghost predicate IsLooseRun(c: Config, run: seq<State>) {
    forall i :: 0 <= i < |run| - 1 ==> LooseNext(c, run[i], run[i + 1])
  }

  /**
   Tags above the limit do break it: rank 1 sends rank 0 a message with the tag of the
   first barrier, and rank 0 is through that barrier before rank 1 has entered it.
   */
  lemma {:induction false} TagBreaksBarrier() returns (c: Config, run: seq<State>)
    ensures ConfigOk(c) && c.prog == [Barrier] && |run| == 7 && Init(c, run[0])
    ensures IsLooseRun(c, run)
    ensures Sized(c, run[6]) && c.n == 2 && run[6].pos[0] == 1 && !Entered(run[6], 1, 0)
  {
    c := Config(2, [Barrier]);
    hide LooseNext;
    hide IsLooseRun;
    hide Init;
    hide Tag;
    var s0, s1, s2, s3 := Counted(c);
    var s4, s5, s6 := LetThrough(c, s3);
    run := [s0, s1, s2, s3, s4, s5, s6];
    Chained(c, s0, s1, s2, s3, s4, s5, s6);
  }

  lemma {:induction false} Chained(c: Config, s0: State, s1: State, s2: State, s3: State, s4: State, s5: State, s6: State)
    requires LooseNext(c, s0, s1) && LooseNext(c, s1, s2) && LooseNext(c, s2, s3)
    requires LooseNext(c, s3, s4) && LooseNext(c, s4, s5) && LooseNext(c, s5, s6)
    ensures IsLooseRun(c, [s0, s1, s2, s3, s4, s5, s6])
  {
    hide LooseNext;
  }

  lemma {:induction false} LetThrough(c: Config, s3: State) returns (s4: State, s5: State, s6: State)
    requires c == Config(2, [Barrier]) && s3.ph == [Gather([1]), Ready] && s3.pos == [0, 0] && |s3.seqno| == 2
    ensures LooseNext(c, s3, s4) && LooseNext(c, s4, s5) && LooseNext(c, s5, s6)
    ensures s6.ph == [Ready, Ready] && s6.pos == [1, 0] && |s6.seqno| == 2
  {
    hide Tag;
    hide Send;
    hide Take;
    hide LooseNext;
    s4 := Stepped(c, s3, 0, EndGather);
    assert s4.ph == [Release(1), Ready] && s4.pos == [0, 0];
    s5 := Stepped(c, s4, 0, DoRelease);
    assert s5.ph == [Release(2), Ready] && s5.pos == [0, 0];
    s6 := Stepped(c, s5, 0, DoRelease);
  }

  lemma {:induction false} Begun(c: Config, p: Packet) returns (s0: State, s1: State, s2: State)
    requires c == Config(2, [Barrier]) && p == Packet(0, 1, Tag(BARRIER_IN, 1), 0)
    ensures Init(c, s0) && LooseNext(c, s0, s1) && LooseNext(c, s1, s2)
    ensures s2.ph == [Gather([]), Ready] && s2.pos == [0, 0] && s2.seqno == [1, 0] && p in s2.net
  {
    s0 := State([0, 0], [Ready, Ready], [0, 0], multiset{}, map[], map[]);
    s1 := Send(s0, p);
    assert Active(c, s0, 1) && p.src == 1 && !Refused(p.tag);
    assert LooseNext(c, s0, s1) && p in s1.net;
    hide Tag;
    hide LooseNext;
    hide Send;
    s2 := Stepped(c, s1, 0, Begin(0));
  }

  /** Rank 0 counts the message as rank 1's. */
  lemma {:induction false} Counted(c: Config) returns (s0: State, s1: State, s2: State, s3: State)
    requires c == Config(2, [Barrier])
    ensures Init(c, s0) && LooseNext(c, s0, s1) && LooseNext(c, s1, s2) && LooseNext(c, s2, s3)
    ensures s3.ph == [Gather([1]), Ready] && s3.pos == [0, 0] && |s3.seqno| == 2
  {
    hide Init;
    hide LooseNext;
    hide Tag;
    hide Send;
    hide Take;
    var p := Packet(0, 1, Tag(BARRIER_IN, 1), 0);
    s0, s1, s2 := Begun(c, p);
    s3 := Stepped(c, s2, 0, DoGather(p));
    var got: seq<nat> := [] + [1];
    assert got == [1];
    assert s3.ph[0] == Gather(got);
  }

  lemma {:induction false} Stepped(c: Config, s: State, r: nat, a: Action) returns (s': State)
    requires Enabled(c, s, r, a)
    ensures s' == Apply(c, s, r, a) && LooseNext(c, s, s')
  {
    s' := Apply(c, s, r, a);
    assert Next(c, s, s');
  }

  /**
   A reduce that completed at the root folded exactly one contribution of every rank,
   each from that call, in the order `got`, whatever the operation.
   */
  lemma {:induction false} ReduceExact(c: Config, run: seq<State>, i: nat, k: nat) returns (got: seq<nat>)
    requires ConfigOk(c) && IsRun(c, run) && i < |run| && k < |c.prog| && c.prog[k].Reduce?
    requires (c.prog[k].root, k) in run[i].outs
    ensures Sized(c, run[i]) && AllEntered(c, run[i], k) && OneEach(got, c.prog[k].root, c.n)
    ensures run[i].outs[(c.prog[k].root, k)] == FoldGot(c.prog[k].op, run[i].args, k, c.prog[k].root, got)
  {
    RunSafe(c, run, i);
    assert OutOk(c, run[i], (c.prog[k].root, k));
    got :| FoldOf(c, run[i], c.prog[k].root, c.prog[k].op, k, got, run[i].outs[(c.prog[k].root, k)]);
  }

  /** With an operation for which order does not matter, that is the fold in rank order. */
  lemma {:induction false} ReduceInRankOrder(c: Config, run: seq<State>, i: nat, k: nat)
    requires ConfigOk(c) && IsRun(c, run) && i < |run| && k < |c.prog| && c.prog[k].Reduce? && OrderFree(c.prog[k].op)
    requires (c.prog[k].root, k) in run[i].outs
    ensures run[i].outs[(c.prog[k].root, k)] == FoldAll(c.prog[k].op, run[i].args, k, c.prog[k].root, c.n)
  {
    var got := ReduceExact(c, run, i, k);
    FoldAnyOrder(c.prog[k].op, run[i].args, k, c.prog[k].root, got, c.n);
  }

  /** A broadcast that completed at any rank delivered what the root passed to that call. */
  lemma {:induction false} BcastExact(c: Config, run: seq<State>, i: nat, r: nat, k: nat)
    requires ConfigOk(c) && IsRun(c, run) && i < |run| && k < |c.prog| && c.prog[k].Bcast?
    requires (r, k) in run[i].outs
    ensures run[i].outs[(r, k)] == Arg(run[i].args, c.prog[k].root, k)
  {
    RunSafe(c, run, i);
    assert OutOk(c, run[i], (r, k));
  }

  /**
   An allreduce leaves every rank with one and the same value: rank 0's contribution with
   every other rank's folded in once.
   */
  lemma {:induction false} AllreduceExact(c: Config, run: seq<State>, i: nat, k: nat, op: Op, r: nat) returns (got: seq<nat>)
    requires ConfigOk(c) && IsRun(c, run) && i < |run| && k + 1 < |c.prog|
    requires c.prog[k] == Reduce(0, op) && c.prog[k + 1] == Bcast(0, true)
    requires (r, k + 1) in run[i].outs
    ensures (0, k) in run[i].outs && OneEach(got, 0, c.n)
    ensures run[i].outs[(r, k + 1)] == run[i].outs[(0, k)] == FoldGot(op, run[i].args, k, 0, got)
  {
    RunSafe(c, run, i);
    assert OutOk(c, run[i], (r, k + 1));
    assert Result(run[i], 0, k + 1, Arg(run[i].args, 0, k + 1));
    got := ReduceExact(c, run, i, k);
  }
}
