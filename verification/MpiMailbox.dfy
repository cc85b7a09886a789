/**
 Receive matching: messages that a receive did not ask for wait in a fixed pool,
 in arrival order, and later receives look there first. The socket is a sequence
 of what successive `recvfrom` calls will yield.
 */
module MpiMailbox {
  import opened Lists

  const SLOTS: nat := 16
  const ANY: int := -1

  datatype Message = Message(src: int, tag: int, data: seq<int>)

  datatype Event = Frame(m: Message) | Runt | Interrupted | Failure

  datatype Outcome = Got(m: Message) | Error | Waiting

  predicate Matches(m: Message, src: int, tag: int) {
    (src == ANY || m.src == src) && (tag == ANY || m.tag == tag)
  }

  // ---------------------------------------------------------------- one mailbox

  /** Index of the earliest match, or the length. */
  function First(ms: seq<Message>, src: int, tag: int): (i: nat)
    ensures i <= |ms|
    ensures forall j :: 0 <= j < i ==> !Matches(ms[j], src, tag)
    ensures i < |ms| ==> Matches(ms[i], src, tag)
  {
    if ms == [] || Matches(ms[0], src, tag) then 0 else 1 + First(ms[1..], src, tag)
  }

  /** The messages the socket will still deliver. */
  function Frames(es: seq<Event>): seq<Message> {
    if es == [] then [] else (if es[0].Frame? then [es[0].m] else []) + Frames(es[1..])
  }

  /** Where a receive that found nothing pending stops reading the socket. */
  function Stop(es: seq<Event>, src: int, tag: int): (n: nat)
    ensures n <= |es|
  {
    if es == [] || es[0].Failure? || (es[0].Frame? && Matches(es[0].m, src, tag)) then 0
    else 1 + Stop(es[1..], src, tag)
  }

  function Cap(ms: seq<Message>): seq<Message> { if |ms| <= SLOTS then ms else ms[..SLOTS] }

  /** What one receive does to the pending messages and the socket. */
  function Receive(pend: seq<Message>, es: seq<Event>, src: int, tag: int): (Outcome, seq<Message>, seq<Event>) {
    var i := First(pend, src, tag);
    if i < |pend| then (Got(pend[i]), Remove(pend, i), es)
    else
      var n := Stop(es, src, tag);
      var pend' := Cap(pend + Frames(es[..n]));
      if n == |es| then (Waiting, pend', [])
      else if es[n].Failure? then (Error, pend', es[n + 1..])
      else if es[n].Frame? then (Got(es[n].m), pend', es[n + 1..])
      else (Error, pend', es[n + 1..])
  }

  /** Everything that has arrived and not been received, oldest first. */
  function Mailbox(pend: seq<Message>, es: seq<Event>): seq<Message> { pend + Frames(es) }

  lemma {:induction false} FramesJoin(a: seq<Event>, b: seq<Event>)
    ensures Frames(a + b) == Frames(a) + Frames(b)
  {
    if a == [] {
      assert a + b == b;
    } else {
      var h := if a[0].Frame? then [a[0].m] else [];
      assert (a + b)[0] == a[0] && (a + b)[1..] == a[1..] + b;
      FramesJoin(a[1..], b);
      assert Frames(a + b) == h + (Frames(a[1..]) + Frames(b));
    }
  }

  lemma {:induction false} StopFirst(es: seq<Event>, src: int, tag: int)
    ensures var n := Stop(es, src, tag);
            && (forall m :: m in Frames(es[..n]) ==> !Matches(m, src, tag))
            && (n < |es| ==> es[n].Failure? || (es[n].Frame? && Matches(es[n].m, src, tag)))
  {
    var n := Stop(es, src, tag);
    if n > 0 {
      StopFirst(es[1..], src, tag);
      assert es[..n][1..] == es[1..][..n - 1];
    }
  }

  lemma {:induction false} FirstAfter(a: seq<Message>, b: seq<Message>, src: int, tag: int)
    requires forall m :: m in a ==> !Matches(m, src, tag)
    ensures First(a + b, src, tag) == |a| + First(b, src, tag)
  {
    if a == [] {
      assert a + b == b;
    } else {
      assert a[0] in a && (a + b)[1..] == a[1..] + b;
      FirstAfter(a[1..], b, src, tag);
    }
  }

  lemma {:induction false} FirstWithin(a: seq<Message>, b: seq<Message>, src: int, tag: int)
    requires First(a, src, tag) < |a|
    ensures First(a + b, src, tag) == First(a, src, tag)
  {
    if !Matches(a[0], src, tag) {
      assert (a + b)[1..] == a[1..] + b;
      FirstWithin(a[1..], b, src, tag);
    }
  }

  /** No message has to be thrown away: the pool takes everything this receive passes over. */
  predicate Fits(pend: seq<Message>, es: seq<Event>, src: int, tag: int) {
    First(pend, src, tag) < |pend| || |pend| + |Frames(es[..Stop(es, src, tag)])| <= SLOTS
  }

  lemma {:induction false} TakeFromPending(pend: seq<Message>, es: seq<Event>, src: int, tag: int)
    requires First(pend, src, tag) < |pend|
    ensures First(Mailbox(pend, es), src, tag) == First(pend, src, tag)
    ensures Mailbox(Remove(pend, First(pend, src, tag)), es) == Remove(Mailbox(pend, es), First(pend, src, tag))
  {
    FirstWithin(pend, Frames(es), src, tag);
  }

  lemma {:induction false} TakeFromSocket(pend: seq<Message>, es: seq<Event>, src: int, tag: int)
    requires First(pend, src, tag) == |pend| && Stop(es, src, tag) < |es| && es[Stop(es, src, tag)].Frame?
    ensures var n := Stop(es, src, tag);
            var passed := pend + Frames(es[..n]);
            && Mailbox(pend, es) == passed + [es[n].m] + Frames(es[n + 1..])
            && First(Mailbox(pend, es), src, tag) == |passed|
  {
    var n := Stop(es, src, tag);
    var passed := pend + Frames(es[..n]);
    SplitFrames(es, n);
    assert Frames([es[n]]) == [es[n].m];
    StopFirst(es, src, tag);
    hide Frames;
    hide First;
    hide Stop;
    hide Matches;
    var rest := Frames(es[n + 1..]);
    Regrouped(pend, Frames(es[..n]), [es[n].m] + rest);
    Regrouped(passed, [es[n].m], rest);
    FirstAfter(passed, [es[n].m] + rest, src, tag);
  }

  lemma {:induction false} SplitFrames(es: seq<Event>, n: nat)
    requires n < |es|
    ensures Frames(es) == Frames(es[..n]) + (Frames([es[n]]) + Frames(es[n + 1..]))
  {
    FramesJoin(es[..n], [es[n]] + es[n + 1..]);
    FramesJoin([es[n]], es[n + 1..]);
    assert es == es[..n] + ([es[n]] + es[n + 1..]);
  }

  lemma {:induction false} KeepWaiting(pend: seq<Message>, es: seq<Event>, src: int, tag: int)
    requires First(pend, src, tag) == |pend|
    requires var n := Stop(es, src, tag); n == |es| || es[n].Failure?
    ensures var n := Stop(es, src, tag);
            var rest := if n == |es| then [] else es[n + 1..];
            Mailbox(pend, es) == (pend + Frames(es[..n])) + Frames(rest)
  {
    var n := Stop(es, src, tag);
    if n < |es| {
      SplitFrames(es, n);
    } else {
      assert es == es[..n];
    }
  }

  /**
   Pending list and socket act as one mailbox. A receive that succeeds returns the
   earliest match, and takes exactly that message out, exactly when the pool
   takes what it passes over; a receive that does not succeed loses nothing,
   under the same condition.
   */
  lemma {:induction false} ReceiveIsMailboxTake(pend: seq<Message>, es: seq<Event>, src: int, tag: int)
    requires |pend| <= SLOTS
    ensures var (out, pend', es') := Receive(pend, es, src, tag);
            var box, box' := Mailbox(pend, es), Mailbox(pend', es');
            var i := First(box, src, tag);
            && |pend'| <= SLOTS
            && (out.Got? ==> i < |box| && out.m == box[i] && (Fits(pend, es, src, tag) <==> box' == Remove(box, i)))
            && (!out.Got? ==> (Fits(pend, es, src, tag) <==> box' == box))
            && (out.Waiting? ==> i == |box|)
  {
    var n := Stop(es, src, tag);
    StopFirst(es, src, tag);
    if First(pend, src, tag) < |pend| {
      TakeFromPending(pend, es, src, tag);
    } else if n < |es| && es[n].Frame? {
      TakeFromSocket(pend, es, src, tag);
      TakeExact(pend + Frames(es[..n]), es[n].m, Frames(es[n + 1..]));
    } else {
      KeepWaiting(pend, es, src, tag);
      var rest := if n == |es| then [] else es[n + 1..];
      assert Fits(pend, es, src, tag) <==> |pend + Frames(es[..n])| <= SLOTS;
      assert |Mailbox(Cap(pend + Frames(es[..n])), rest)| == |Cap(pend + Frames(es[..n]))| + |Frames(rest)|;
      if n == |es| {
        assert es[..n] == es;
        FirstAfter(pend + Frames(es), [], src, tag);
        assert pend + Frames(es) + [] == Mailbox(pend, es);
      }
    }
  }

  lemma {:induction false} TakeExact(passed: seq<Message>, m: Message, rest: seq<Message>)
    ensures |passed| <= SLOTS <==> Cap(passed) + rest == Remove(passed + [m] + rest, |passed|)
  {
    assert Remove(passed + [m] + rest, |passed|) == passed + rest;
    assert |Cap(passed) + rest| == |Cap(passed)| + |rest|;
  }

  // ---------------------------------------------------------------- order within a stream

  /** The messages of one sender and tag, in order. */
  function Stream(ms: seq<Message>, src: int, tag: int): seq<Message> {
    if ms == [] then []
    else (if ms[0].src == src && ms[0].tag == tag then [ms[0]] else []) + Stream(ms[1..], src, tag)
  }

  lemma {:induction false} StreamJoin(a: seq<Message>, b: seq<Message>, src: int, tag: int)
    ensures Stream(a + b, src, tag) == Stream(a, src, tag) + Stream(b, src, tag)
  {
    if a == [] {
      assert a + b == b;
    } else {
      var h := if a[0].src == src && a[0].tag == tag then [a[0]] else [];
      assert (a + b)[0] == a[0] && (a + b)[1..] == a[1..] + b;
      StreamJoin(a[1..], b, src, tag);
      assert Stream(a + b, src, tag) == h + (Stream(a[1..], src, tag) + Stream(b, src, tag));
    }
  }

  lemma {:induction false} StreamNone(ms: seq<Message>, src: int, tag: int)
    requires forall m :: m in ms ==> m.src != src || m.tag != tag
    ensures Stream(ms, src, tag) == []
  {
    if ms != [] {
      assert ms[0] in ms && forall m :: m in ms[1..] ==> m in ms;
      StreamNone(ms[1..], src, tag);
    }
  }

  lemma {:induction false} StreamSplit(box: seq<Message>, i: nat, s: int, t: int)
    requires i < |box|
    ensures Stream(box, s, t) == Stream(box[..i], s, t) + (Stream([box[i]], s, t) + Stream(box[i + 1..], s, t))
    ensures Stream(Remove(box, i), s, t) == Stream(box[..i], s, t) + Stream(box[i + 1..], s, t)
  {
    StreamJoin(box[..i], [box[i]] + box[i + 1..], s, t);
    StreamJoin([box[i]], box[i + 1..], s, t);
    StreamJoin(box[..i], box[i + 1..], s, t);
    assert box == box[..i] + ([box[i]] + box[i + 1..]);
  }

  /** Taking the earliest match takes the front of its own stream and leaves the other streams alone. */
  lemma {:induction false} TakeFront(box: seq<Message>, src: int, tag: int, s: int, t: int)
    requires First(box, src, tag) < |box|
    ensures var i := First(box, src, tag);
            Stream([box[i]], s, t) + Stream(Remove(box, i), s, t) == Stream(box, s, t)
  {
    var i := First(box, src, tag);
    StreamSplit(box, i, s, t);
    if box[i].src == s && box[i].tag == t {
      forall x | x in box[..i]
        ensures x.src != s || x.tag != t
      {
        var j :| 0 <= j < i && box[j] == x;
        assert !Matches(box[j], src, tag);
      }
      StreamNone(box[..i], s, t);
    } else {
      assert Stream([box[i]], s, t) == [];
    }
  }

  datatype Op = Arrive(e: Event) | Recv(src: int, tag: int)

  /** `arrived` and `got` record history. */
  datatype Rank = Rank(pend: seq<Message>, es: seq<Event>, arrived: seq<Message>, got: seq<Message>)

  function Do(r: Rank, op: Op): Rank {
    match op
    case Arrive(e) => r.(es := r.es + [e], arrived := r.arrived + Frames([e]))
    case Recv(src, tag) =>
      var (out, pend', es') := Receive(r.pend, r.es, src, tag);
      Rank(pend', es', r.arrived, if out.Got? then r.got + [out.m] else r.got)
  }

  function DoAll(r: Rank, ops: seq<Op>): Rank {
    if ops == [] then r else Do(DoAll(r, ops[..|ops| - 1]), ops[|ops| - 1])
  }

  /** Every receive of the history found room for what it passed over. */
  predicate NeverOverflows(r: Rank, ops: seq<Op>) {
    ops == [] ||
    var last := ops[|ops| - 1];
    && NeverOverflows(r, ops[..|ops| - 1])
    && (last.Recv? ==> var q := DoAll(r, ops[..|ops| - 1]); Fits(q.pend, q.es, last.src, last.tag))
  }

  predicate InOrder(r: Rank, s: int, t: int) {
    Stream(r.got, s, t) + Stream(Mailbox(r.pend, r.es), s, t) == Stream(r.arrived, s, t)
  }

  lemma {:induction false} ArriveInOrder(r: Rank, e: Event, s: int, t: int)
    requires InOrder(r, s, t)
    ensures InOrder(Do(r, Arrive(e)), s, t)
  {
    var box, new_ := Mailbox(r.pend, r.es), Frames([e]);
    FramesJoin(r.es, [e]);
    assert Mailbox(r.pend, r.es + [e]) == box + new_;
    hide Stream;
    hide Frames;
    hide Mailbox;
    StreamsGrow(r.got, box, r.arrived, new_, s, t);
  }

  lemma {:induction false} StreamsGrow(got: seq<Message>, box: seq<Message>, arrived: seq<Message>, new_: seq<Message>, s: int, t: int)
    requires Stream(got, s, t) + Stream(box, s, t) == Stream(arrived, s, t)
    ensures Stream(got, s, t) + Stream(box + new_, s, t) == Stream(arrived + new_, s, t)
  {
    hide Stream;
    StreamJoin(box, new_, s, t);
    StreamJoin(arrived, new_, s, t);
    Regrouped(Stream(got, s, t), Stream(box, s, t), Stream(new_, s, t));
  }

  lemma {:induction false} Regrouped(a: seq<Message>, b: seq<Message>, c: seq<Message>)
    ensures a + (b + c) == (a + b) + c
  {
  }

  lemma {:induction false} RecvInOrder(r: Rank, src: int, tag: int, s: int, t: int)
    requires InOrder(r, s, t) && |r.pend| <= SLOTS && Fits(r.pend, r.es, src, tag)
    ensures InOrder(Do(r, Recv(src, tag)), s, t)
  {
    ReceiveIsMailboxTake(r.pend, r.es, src, tag);
    var (out, pend', es') := Receive(r.pend, r.es, src, tag);
    if out.Got? {
      TakeFront(Mailbox(r.pend, r.es), src, tag, s, t);
      StreamJoin(r.got, [out.m], s, t);
    }
  }

  /**
   Over any history of arrivals and receives, wildcard or not, that never
   overflows the pool: per sender and tag, what was received followed by what is
   still to be received is exactly what arrived, in order.
   */
  lemma {:induction false} NeverReordered(ops: seq<Op>, s: int, t: int)
    requires NeverOverflows(Rank([], [], [], []), ops)
    ensures var r := DoAll(Rank([], [], [], []), ops); InOrder(r, s, t) && |r.pend| <= SLOTS
  {
    if ops != [] {
      var last, before := ops[|ops| - 1], ops[..|ops| - 1];
      NeverReordered(before, s, t);
      var q := DoAll(Rank([], [], [], []), before);
      match last
      case Arrive(e) => ArriveInOrder(q, e, s, t);
      case Recv(src, tag) =>
        RecvInOrder(q, src, tag, s, t);
        ReceiveIsMailboxTake(q.pend, q.es, src, tag);
    }
  }

  // ---------------------------------------------------------------- the code

  class Endpoint {
    const pool: array<Message>
    const used: array<bool>
    var list: seq<nat>          // the linked list, as the slots on it
    var socket: seq<Event>

    /** Slots in use are exactly those on the list, each once. */
    ghost predicate Valid()
      reads this`list, used
    {
      && pool.Length == SLOTS && used.Length == SLOTS && Distinct(list)
      && (forall k :: 0 <= k < |list| ==> list[k] < SLOTS)
      && (forall i :: 0 <= i < SLOTS ==> (used[i] <==> i in list))
    }

    ghost function Pending(): seq<Message>
      requires Valid()
      reads this`list, pool, used
    {
      var slots, messages := list, pool[..];
      seq(|slots|, k requires 0 <= k < |slots| && slots[k] < |messages| => messages[slots[k]])
    }

    constructor ()
      ensures Valid() && list == [] && socket == [] && fresh(pool) && fresh(used)
    {
      pool := new Message[SLOTS](_ => Message(0, 0, []));
      used := new bool[SLOTS](_ => false);
      list, socket := [], [];
    }

    /** Unlink the earliest match; its slot stays in use until it has been copied out. */
    method Take(src: int, tag: int) returns (found: bool, slot: nat, ghost at: nat)
      requires Valid()
      modifies this`list
      ensures found <==> First(old(Pending()), src, tag) < |old(list)|
      ensures !found ==> list == old(list)
      ensures found ==> at == First(old(Pending()), src, tag) < |old(list)| && slot == old(list)[at] && list == Remove(old(list), at)
    {
      var i := 0;
      ghost var pend := Pending();
      while i < |list| && !Matches(pool[list[i]], src, tag)
        invariant i <= |list| && list == old(list)
        invariant First(pend, src, tag) == i + First(pend[i..], src, tag)
      {
        assert pend[i..][0] == pool[list[i]];
        assert pend[i..][1..] == pend[i + 1..];
        i := i + 1;
      }
      found, slot, at := i < |list|, 0, i;
      if found {
        assert pend[i..][0] == pool[list[i]];
        slot := list[i];
        list := list[..i] + list[i + 1..];
      }
    }

    /** Copy an unlinked message out and give its slot back. */
    method CopyOut(slot: nat, ghost was: seq<nat>, ghost at: nat) returns (m: Message)
      requires pool.Length == SLOTS && used.Length == SLOTS && Distinct(was) && forall k :: 0 <= k < |was| ==> was[k] < SLOTS
      requires forall i :: 0 <= i < SLOTS ==> (used[i] <==> i in was)
      requires at < |was| && slot == was[at] && list == Remove(was, at)
      modifies used
      ensures Valid() && m == pool[slot]
    {
      RemoveKeeps(was, at);
      m := pool[slot];
      used[slot] := false;
    }

    method Alloc() returns (found: bool, slot: nat)
      requires Valid()
      modifies used
      ensures found <==> |list| < SLOTS
      ensures found ==> slot < SLOTS && !old(used[slot]) && used[..] == old(used[..])[slot := true]
      ensures !found ==> used[..] == old(used[..])
    {
      slot := 0;
      while slot < SLOTS && used[slot]
        invariant slot <= SLOTS
        invariant forall i :: 0 <= i < slot ==> used[i]
      {
        slot := slot + 1;
      }
      found := slot < SLOTS;
      if found {
        FreeMeansRoom(list, slot);
        used[slot] := true;
      } else {
        FullMeansAll(list);
      }
    }

    /** One receive, reading the socket until something matches, fails, or nothing is left to read. */
    method RecvMatch(src: int, tag: int) returns (out: Outcome)
      requires Valid()
      modifies this, pool, used
      ensures Valid()
      ensures (out, Pending(), socket) == Receive(old(Pending()), old(socket), src, tag)
    {
      hide First;
      hide Stop;
      hide Frames;
      hide Cap;
      ghost var pend := Pending();
      var found, slot, at := Take(src, tag);
      if found {
        var m := CopyOut(slot, old(list), at);
        out := Got(m);
        assert Pending() == Remove(pend, at);
        return;
      }
      assert Pending() == pend;
      out := ReadSocket(src, tag);
    }

    method ReadSocket(src: int, tag: int) returns (out: Outcome)
      requires Valid() && First(Pending(), src, tag) == |Pending()|
      modifies this, pool, used
      ensures Valid()
      ensures (out, Pending(), socket) == Receive(old(Pending()), old(socket), src, tag)
    {
      ghost var pend, es := Pending(), socket;
      ghost var n := 0;
      Room(list);
      assert pend + Frames(es[..0]) == pend;
      while socket != []
        invariant Valid() && n <= |es| && socket == es[n..]
        invariant Pending() == Cap(pend + Frames(es[..n]))
        invariant Stop(es, src, tag) == n + Stop(socket, src, tag)
        decreases |socket|
      {
        SocketStep(pend, es, n, src, tag);
        var stop, got := ReadOne(src, tag);
        if stop {
          return got;
        }
        n := n + 1;
      }
      assert es[..n] == es;
      out := Waiting;
    }

    /** One `recvfrom`: a failure or a match ends the receive, anything else is kept or skipped. */
    method ReadOne(src: int, tag: int) returns (stop: bool, out: Outcome)
      requires Valid() && socket != []
      modifies this, pool, used
      ensures Valid() && socket == old(socket)[1..]
      ensures stop <==> Stop(old(socket), src, tag) == 0
      ensures stop ==> Pending() == old(Pending()) && out == if old(socket)[0].Frame? then Got(old(socket)[0].m) else Error
      ensures !stop ==> Pending() == Kept(old(Pending()), old(socket)[0])
    {
      var e := socket[0];
      socket := socket[1..];
      stop, out := false, Waiting;
      match e {
        case Interrupted =>
        case Runt =>
        case Failure =>
          stop, out := true, Error;
        case Frame(m) =>
          if Matches(m, src, tag) {
            stop, out := true, Got(m);
          } else {
            Keep(m);
          }
      }
    }

    /** Put an unasked-for message at the end of the queue, or drop it when the pool is full. */
    method Keep(m: Message)
      requires Valid()
      modifies this`list, pool, used
      ensures Valid()
      ensures Pending() == if |old(list)| < SLOTS then old(Pending()) + [m] else old(Pending())
    {
      ghost var pend := Pending();
      var found, slot := Alloc();
      if found {
        pool[slot] := m;
        list := list + [slot];
        assert forall k :: 0 <= k < |list| - 1 ==> list[k] != slot;
        assert Pending() == pend + [m];
      } else {
        assert Pending() == pend;
      }
    }
  }

  /** The pending messages after an event that did not end the receive. */
  function Kept(pend: seq<Message>, e: Event): seq<Message> {
    if e.Frame? && |pend| < SLOTS then pend + [e.m] else pend
  }

  /** Reading one more event: it ends the receive, or it moves the stop on by one. */
  lemma {:induction false} SocketStep(pend: seq<Message>, es: seq<Event>, n: nat, src: int, tag: int)
    requires n < |es| && Stop(es, src, tag) == n + Stop(es[n..], src, tag)
    ensures es[n..][1..] == es[n + 1..]
    ensures Stop(es[n..], src, tag) > 0 ==>
              && Stop(es, src, tag) == n + 1 + Stop(es[n + 1..], src, tag)
              && Kept(Cap(pend + Frames(es[..n])), es[n]) == Cap(pend + Frames(es[..n + 1]))
  {
    assert es[n..][1..] == es[n + 1..];
    assert es[..n + 1] == es[..n] + [es[n]];
    FramesJoin(es[..n], [es[n]]);
    if es[n].Frame? {
      CapPush(pend + Frames(es[..n]), es[n].m);
      assert pend + (Frames(es[..n]) + [es[n].m]) == pend + Frames(es[..n]) + [es[n].m];
    }
  }

  lemma {:induction false} CapPush(ms: seq<Message>, m: Message)
    ensures Cap(ms + [m]) == if |Cap(ms)| < SLOTS then Cap(ms) + [m] else Cap(ms)
  {
    if |ms| >= SLOTS {
      assert (ms + [m])[..SLOTS] == ms[..SLOTS];
    }
  }

  lemma {:induction false} Room(list: seq<nat>)
    requires Distinct(list) && forall k :: 0 <= k < |list| ==> list[k] < SLOTS
    ensures |list| <= SLOTS
  {
    Pigeonhole(list, SLOTS);
  }

  lemma {:induction false} FreeMeansRoom(list: seq<nat>, slot: nat)
    requires Distinct(list) && slot < SLOTS && slot !in list && forall k :: 0 <= k < |list| ==> list[k] < SLOTS
    ensures |list| < SLOTS
  {
    Pigeonhole(list, SLOTS);
  }

  lemma {:induction false} Covers(list: seq<nat>, n: nat)
    requires Distinct(list) && forall i :: 0 <= i < n ==> i in list
    ensures |list| >= n
    decreases n
  {
    if n > 0 {
      assert n - 1 in list;
      var k :| 0 <= k < |list| && list[k] == n - 1;
      var t := Remove(list, k);
      forall i | 0 <= i < n - 1
        ensures i in t
      {
        assert i in list;
        var j :| 0 <= j < |list| && list[j] == i;
        assert t[if j < k then j else j - 1] == i;
      }
      Covers(t, n - 1);
    }
  }

  lemma {:induction false} FullMeansAll(list: seq<nat>)
    requires Distinct(list) && forall i :: 0 <= i < SLOTS ==> i in list
    ensures |list| >= SLOTS
  {
    Covers(list, SLOTS);
  }
}
