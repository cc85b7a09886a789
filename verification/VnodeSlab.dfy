/** The bitmap slab pool behind the vnode cache: 16 slots to a slab, slabs only ever added. */
module VnodeSlab {

  const SLOTS: nat := 16

  /** `base` identifies the slab in memory; slot i is vnode `base + i`. */
  datatype Slab = Slab(base: nat, mask: seq<bool>, count: nat)

  function Ones(mask: seq<bool>): nat {
    if mask == [] then 0 else (if mask[0] then 1 else 0) + Ones(mask[1..])
  }

  function UsedFrom(mask: seq<bool>, at: nat): set<nat> {
    if mask == [] then {} else (if mask[0] then {at} else {}) + UsedFrom(mask[1..], at + 1)
  }

  function Used(slabs: seq<Slab>): set<nat> {
    if slabs == [] then {} else UsedFrom(slabs[0].mask, slabs[0].base) + Used(slabs[1..])
  }

  function Total(slabs: seq<Slab>): nat {
    if slabs == [] then 0 else slabs[0].count + Total(slabs[1..])
  }

  predicate SlabOk(s: Slab) { |s.mask| == SLOTS && s.count == Ones(s.mask) && s.base % SLOTS == 0 }

  /** Slabs are named by the order they were added; the newest is in front. */
  predicate Numbered(slabs: seq<Slab>) { forall i :: 0 <= i < |slabs| ==> slabs[i].base == SLOTS * (|slabs| - i) }

  predicate SlabsOk(slabs: seq<Slab>) {
    && (forall i :: 0 <= i < |slabs| ==> SlabOk(slabs[i]))
    && (forall i, j :: 0 <= i < j < |slabs| ==> slabs[i].base != slabs[j].base)
  }

  lemma {:induction false} UsedFromHas(mask: seq<bool>, at: nat, x: nat)
    ensures x in UsedFrom(mask, at) <==> at <= x < at + |mask| && mask[x - at]
  {
    if mask != [] { UsedFromHas(mask[1..], at + 1, x); }
  }

  lemma {:induction false} UsedFromSize(mask: seq<bool>, at: nat)
    ensures |UsedFrom(mask, at)| == Ones(mask)
  {
    if mask != [] {
      UsedFromSize(mask[1..], at + 1);
      UsedFromHas(mask[1..], at + 1, at);
    }
  }

  lemma {:induction false} UsedHas(slabs: seq<Slab>, x: nat)
    ensures x in Used(slabs) <==> exists i :: 0 <= i < |slabs| && x in UsedFrom(slabs[i].mask, slabs[i].base)
  {
    if slabs != [] {
      UsedHas(slabs[1..], x);
      if i :| 0 <= i < |slabs| && x in UsedFrom(slabs[i].mask, slabs[i].base) {
        assert i == 0 || slabs[1..][i - 1] == slabs[i];
      }
      if i :| 0 <= i < |slabs[1..]| && x in UsedFrom(slabs[1..][i].mask, slabs[1..][i].base) {
        assert slabs[i + 1] == slabs[1..][i];
      }
    }
  }

  /** Slots of different slabs are different vnodes. */
  lemma {:induction false} SlabsApart(a: Slab, b: Slab, x: nat)
    requires SlabOk(a) && SlabOk(b) && a.base != b.base && x in UsedFrom(a.mask, a.base)
    ensures x !in UsedFrom(b.mask, b.base) && !(b.base <= x < b.base + SLOTS)
  {
    UsedFromHas(a.mask, a.base, x);
    UsedFromHas(b.mask, b.base, x);
    assert a.base == SLOTS * (a.base / SLOTS) && b.base == SLOTS * (b.base / SLOTS);
  }

  /** The pool's total is the number of vnodes in use. */
  lemma {:induction false} TotalIsUsed(slabs: seq<Slab>)
    requires SlabsOk(slabs)
    ensures |Used(slabs)| == Total(slabs)
  {
    if slabs != [] {
      TotalIsUsed(slabs[1..]);
      UsedFromSize(slabs[0].mask, slabs[0].base);
      var first := UsedFrom(slabs[0].mask, slabs[0].base);
      forall x | x in first
        ensures x !in Used(slabs[1..])
      {
        UsedHas(slabs[1..], x);
        forall i | 0 <= i < |slabs[1..]|
          ensures x !in UsedFrom(slabs[1..][i].mask, slabs[1..][i].base)
        {
          SlabsApart(slabs[0], slabs[i + 1], x);
        }
      }
      assert first !! Used(slabs[1..]);
    }
  }

  lemma {:induction false} OnesSet(mask: seq<bool>, i: nat, v: bool)
    requires i < |mask| && mask[i] != v
    ensures Ones(mask[i := v]) == if v then Ones(mask) + 1 else Ones(mask) - 1
  {
    if i > 0 {
      OnesSet(mask[1..], i - 1, v);
      assert mask[i := v][1..] == mask[1..][i - 1 := v];
    } else {
      assert mask[i := v][1..] == mask[1..];
    }
  }

  lemma {:induction false} AllOnes(mask: seq<bool>)
    ensures Ones(mask) <= |mask|
    ensures Ones(mask) == |mask| ==> forall i :: 0 <= i < |mask| ==> mask[i]
    ensures (forall i :: 0 <= i < |mask| ==> mask[i]) ==> Ones(mask) == |mask|
  {
    if mask != [] {
      AllOnes(mask[1..]);
      assert (forall i :: 0 <= i < |mask| ==> mask[i]) ==> forall i :: 0 <= i < |mask[1..]| ==> mask[1..][i];
    }
  }

  lemma {:induction false} NoOnes(mask: seq<bool>)
    requires forall i :: 0 <= i < |mask| ==> !mask[i]
    ensures Ones(mask) == 0
  {
    if mask != [] { NoOnes(mask[1..]); }
  }

  /** Flip one slot of one slab. */
  function Flip(slabs: seq<Slab>, n: nat, i: nat, v: bool): seq<Slab>
    requires n < |slabs| && i < |slabs[n].mask| && (!v ==> slabs[n].count > 0)
  {
    slabs[n := slabs[n].(mask := slabs[n].mask[i := v], count := if v then slabs[n].count + 1 else slabs[n].count - 1)]
  }

  lemma {:induction false} FlipOk(slabs: seq<Slab>, n: nat, i: nat, v: bool)
    requires SlabsOk(slabs) && n < |slabs| && i < SLOTS && slabs[n].mask[i] != v
    ensures (!v ==> slabs[n].count > 0) && SlabsOk(Flip(slabs, n, i, v))
  {
    assert SlabOk(slabs[n]);
    OnesSet(slabs[n].mask, i, v);
  }

  /** Flipping a slot adds or removes exactly its vnode. */
  lemma {:induction false} FlipUsed(slabs: seq<Slab>, n: nat, i: nat, v: bool)
    requires SlabsOk(slabs) && n < |slabs| && i < SLOTS && slabs[n].mask[i] != v && (!v ==> slabs[n].count > 0)
    ensures Used(Flip(slabs, n, i, v)) == if v then Used(slabs) + {slabs[n].base + i} else Used(slabs) - {slabs[n].base + i}
  {
    var slabs', y := Flip(slabs, n, i, v), slabs[n].base + i;
    forall x: nat
      ensures x in Used(slabs') <==> if x == y then v else x in Used(slabs)
    {
      UsedHas(slabs, x);
      UsedHas(slabs', x);
      FlipOne(slabs, n, i, v, x);
    }
  }

  lemma {:induction false} FlipOne(slabs: seq<Slab>, n: nat, i: nat, v: bool, x: nat)
    requires SlabsOk(slabs) && n < |slabs| && i < SLOTS && slabs[n].mask[i] != v && (!v ==> slabs[n].count > 0)
    ensures var slabs' := Flip(slabs, n, i, v);
            (exists m :: 0 <= m < |slabs'| && x in UsedFrom(slabs'[m].mask, slabs'[m].base)) <==>
            if x == slabs[n].base + i then v
            else exists m :: 0 <= m < |slabs| && x in UsedFrom(slabs[m].mask, slabs[m].base)
  {
    var slabs' := Flip(slabs, n, i, v);
    assert |slabs'| == |slabs|;
    hide Flip;
    hide UsedFrom;
    hide SlabsOk;
    forall m | 0 <= m < |slabs|
      ensures x in UsedFrom(slabs'[m].mask, slabs'[m].base) <==>
              if x == slabs[n].base + i then m == n && v else x in UsedFrom(slabs[m].mask, slabs[m].base)
    {
      FlipAt(slabs, n, i, v, x, m);
    }
  }

  lemma {:induction false} FlipAt(slabs: seq<Slab>, n: nat, i: nat, v: bool, x: nat, m: nat)
    requires SlabsOk(slabs) && n < |slabs| && i < SLOTS && slabs[n].mask[i] != v && (!v ==> slabs[n].count > 0) && m < |slabs|
    ensures var slabs' := Flip(slabs, n, i, v);
            && |slabs'| == |slabs|
            && (x in UsedFrom(slabs'[m].mask, slabs'[m].base) <==>
                if x == slabs[n].base + i then m == n && v else x in UsedFrom(slabs[m].mask, slabs[m].base))
  {
    var slabs' := Flip(slabs, n, i, v);
    UsedFromHas(slabs[m].mask, slabs[m].base, x);
    UsedFromHas(slabs'[m].mask, slabs'[m].base, x);
    hide UsedFrom;
    assert SlabOk(slabs[m]) && SlabOk(slabs[n]);
    assert m != n ==> slabs[m].base != slabs[n].base;
  }

  class Pool {
    var slabs: seq<Slab>
    var totalInUse: nat

    ghost predicate Valid()
      reads this
    {
      SlabsOk(slabs) && Numbered(slabs) && totalInUse == Total(slabs)
    }

    ghost function InUse(): set<nat>
      reads this
    {
      Used(slabs)
    }

    constructor ()
      ensures Valid() && InUse() == {}
    {
      slabs, totalInUse := [], 0;
    }

    /** The first free slot of the first slab that is not full. */
    method FindFree() returns (found: bool, n: nat, i: nat)
      requires Valid()
      ensures found ==> n < |slabs| && i < SLOTS && !slabs[n].mask[i]
      ensures !found ==> forall m :: 0 <= m < |slabs| ==> slabs[m].count == SLOTS
    {
      n, i := 0, 0;
      while n < |slabs|
        invariant n <= |slabs| && forall m :: 0 <= m < n ==> slabs[m].count == SLOTS
      {
        assert SlabOk(slabs[n]);
        if slabs[n].count != SLOTS {
          i := 0;
          while i < SLOTS && slabs[n].mask[i]
            invariant i <= SLOTS && forall k :: 0 <= k < i ==> slabs[n].mask[k]
          {
            i := i + 1;
          }
          AllOnes(slabs[n].mask);
          return true, n, i;
        }
        n := n + 1;
      }
      found := false;
    }

    /** Claim a slot; only when every slab is full is a new one added, if there is memory for it. */
    method Alloc(memory: bool) returns (ok: bool, id: nat)
      requires Valid()
      modifies this
      ensures Valid()
      ensures !ok ==> slabs == old(slabs) && !memory && forall m :: 0 <= m < |slabs| ==> slabs[m].count == SLOTS
      ensures ok ==> id !in old(InUse()) && InUse() == old(InUse()) + {id}
      ensures |slabs| > |old(slabs)| ==> forall m :: 0 <= m < |old(slabs)| ==> old(slabs)[m].count == SLOTS
    {
      var found, n, i := FindFree();
      if !found {
        if !memory {
          return false, 0;
        }
        Grow();
        n, i := 0, 0;
      }
      ok, id := true, slabs[n].base + i;
      SlotFree(slabs, n, i);
      FlipOk(slabs, n, i, true);
      FlipUsed(slabs, n, i, true);
      TotalFlip(slabs, n, i, true);
      slabs := slabs[n := slabs[n].(mask := slabs[n].mask[i := true], count := slabs[n].count + 1)];
      totalInUse := totalInUse + 1;
    }

    method Grow()
      requires Valid()
      modifies this
      ensures Valid() && InUse() == old(InUse())
      ensures |slabs| == |old(slabs)| + 1 && !slabs[0].mask[0]
    {
      var base := SLOTS * (|slabs| + 1);
      var mask := seq(SLOTS, _ => false);
      NoOnes(mask);
      var slab := Slab(base, mask, 0);
      assert UsedFrom(mask, base) == {} by {
        forall x: nat
          ensures x !in UsedFrom(mask, base)
        {
          UsedFromHas(mask, base, x);
        }
      }
      ghost var before := slabs;
      slabs := [slab] + slabs;
      assert slabs[1..] == before;
      assert forall m :: 1 <= m < |slabs| ==> slabs[m] == before[m - 1];
    }

    /** Release a slot; the slab is found by address range. */
    method Free(id: nat)
      requires Valid()
      modifies this
      ensures Valid() && InUse() == old(InUse()) - {id}
    {
      var n := 0;
      while n < |slabs| && !(slabs[n].base <= id < slabs[n].base + SLOTS)
        invariant n <= |slabs| && slabs == old(slabs)
        invariant forall m :: 0 <= m < n ==> !(slabs[m].base <= id < slabs[m].base + SLOTS)
      {
        n := n + 1;
      }
      OnlySlab(slabs, n, id);
      if n < |slabs| && slabs[n].mask[id - slabs[n].base] {
        var i := id - slabs[n].base;
        FlipOk(slabs, n, i, false);
        FlipUsed(slabs, n, i, false);
        TotalFlip(slabs, n, i, false);
        slabs := slabs[n := slabs[n].(mask := slabs[n].mask[i := false], count := slabs[n].count - 1)];
        totalInUse := totalInUse - 1;
      }
    }
  }

  lemma {:induction false} SlotFree(slabs: seq<Slab>, n: nat, i: nat)
    requires SlabsOk(slabs) && n < |slabs| && i < SLOTS && !slabs[n].mask[i]
    ensures slabs[n].base + i !in Used(slabs)
  {
    var x := slabs[n].base + i;
    UsedHas(slabs, x);
    forall m | 0 <= m < |slabs|
      ensures x !in UsedFrom(slabs[m].mask, slabs[m].base)
    {
      UsedFromHas(slabs[m].mask, slabs[m].base, x);
      if m != n && x in UsedFrom(slabs[m].mask, slabs[m].base) {
        SlabsApart(slabs[m], slabs[n], x);
      }
    }
  }

  /** Whether a vnode is in use is decided by the slab whose range holds it. */
  lemma {:induction false} OnlySlab(slabs: seq<Slab>, n: nat, id: nat)
    requires SlabsOk(slabs) && n <= |slabs|
    requires forall m :: 0 <= m < n ==> !(slabs[m].base <= id < slabs[m].base + SLOTS)
    requires n < |slabs| ==> slabs[n].base <= id < slabs[n].base + SLOTS
    ensures n < |slabs| ==> SlabOk(slabs[n])
    ensures id in Used(slabs) <==> n < |slabs| && slabs[n].mask[id - slabs[n].base]
  {
    UsedHas(slabs, id);
    forall m | 0 <= m < |slabs|
      ensures id in UsedFrom(slabs[m].mask, slabs[m].base) <==> m == n && slabs[n].mask[id - slabs[n].base]
    {
      UsedFromHas(slabs[m].mask, slabs[m].base, id);
      if n < m && id in UsedFrom(slabs[m].mask, slabs[m].base) {
        SlabsApart(slabs[m], slabs[n], id);
      }
    }
  }

  lemma {:induction false} TotalFlip(slabs: seq<Slab>, n: nat, i: nat, v: bool)
    requires SlabsOk(slabs) && n < |slabs| && i < SLOTS && slabs[n].mask[i] != v && (!v ==> slabs[n].count > 0)
    ensures Total(Flip(slabs, n, i, v)) == if v then Total(slabs) + 1 else Total(slabs) - 1
  {
    if n == 0 {
      assert Flip(slabs, n, i, v)[1..] == slabs[1..];
    } else {
      assert forall m :: 0 <= m < |slabs[1..]| ==> slabs[1..][m] == slabs[m + 1];
      TotalFlip(slabs[1..], n - 1, i, v);
      assert Flip(slabs, n, i, v)[1..] == Flip(slabs[1..], n - 1, i, v);
    }
  }
}
