/**
 The vnode cache: one record per (mount, inode), found through 16 hash chains,
 counted by reference and kept in the slab pool; and the path walk and unmount
 that rely on it. One lock serialises the filesystem operations. `Table` is the
 cache as a value, for any hash function; `Cache` is the code.
 */
module VnodeCache {
  import opened Lists
  import opened VnodeSlab

  const BUCKETS: nat := 16

  datatype Key = Key(mount: nat, inode: nat)

  datatype Vnode = Vnode(key: Key, refs: nat)

  datatype Table = Table(nodes: map<nat, Vnode>, chains: seq<seq<nat>>, hash: Key -> nat)

  function Bucket(t: Table, k: Key): (b: nat)
    ensures b < BUCKETS
  {
    t.hash(k) % BUCKETS
  }

  predicate On(t: Table, x: nat) { x in t.nodes }

  predicate HasKey(t: Table, x: nat, k: Key) { On(t, x) && t.nodes[x].key == k }

  /** Each vnode is once on the chain of its bucket, and chains hold nothing else. */
  ghost predicate Chained(t: Table) {
    && |t.chains| == BUCKETS
    && (forall x: nat :: On(t, x) ==> x in t.chains[Bucket(t, t.nodes[x].key)])
    && (forall b, x: nat :: 0 <= b < BUCKETS && x in t.chains[b] ==> On(t, x) && Bucket(t, t.nodes[x].key) == b)
    && (forall b :: 0 <= b < BUCKETS ==> Distinct(t.chains[b]))
  }

  /** At most one vnode per mount and inode. */
  ghost predicate UniqueKeys(t: Table) {
    forall x: nat, y: nat, k: Key :: HasKey(t, x, k) && HasKey(t, y, k) ==> x == y
  }

  ghost predicate Inv(t: Table) {
    Chained(t) && UniqueKeys(t) && forall x: nat :: On(t, x) ==> t.nodes[x].refs > 0
  }

  // ---------------------------------------------------------------- reference counts

  /** References held to an inode; none if it is not cached. */
  ghost function Refs(t: Table, k: Key): nat {
    if exists x: nat :: HasKey(t, x, k) then
      var x: nat :| HasKey(t, x, k);
      t.nodes[x].refs
    else 0
  }

  lemma {:induction false} RefsAt(t: Table, x: nat, k: Key)
    requires UniqueKeys(t) && HasKey(t, x, k)
    ensures Refs(t, k) == t.nodes[x].refs
  {
  }

  ghost predicate Cached(t: Table, k: Key) { exists x: nat :: HasKey(t, x, k) }

  lemma {:induction false} RefsPositive(t: Table, k: Key)
    requires Inv(t)
    ensures Refs(t, k) > 0 <==> Cached(t, k)
  {
    if x: nat :| HasKey(t, x, k) {
      RefsAt(t, x, k);
      assert On(t, x);
    }
  }

  ghost predicate SameRefs(t: Table, t': Table) { forall q :: Refs(t', q) == Refs(t, q) }

  ghost predicate OneMore(t: Table, t': Table, k: Key) {
    forall q :: Refs(t', q) == if q == k then Refs(t, q) + 1 else Refs(t, q)
  }

  ghost predicate OneLess(t: Table, t': Table, k: Key) {
    forall q :: Refs(t', q) == if q == k && Refs(t, q) > 0 then Refs(t, q) - 1 else Refs(t, q)
  }

  /** Stepping from a held parent to a child: hold the child, let go of the parent. */
  lemma {:induction false} HandOver(t0: Table, t1: Table, t2: Table, t3: Table, a: Key, b: Key)
    requires OneMore(t0, t1, a) && OneMore(t1, t2, b) && OneLess(t2, t3, a)
    ensures OneMore(t0, t3, b)
  {
    forall q
      ensures Refs(t3, q) == if q == b then Refs(t0, q) + 1 else Refs(t0, q)
    {
      assert Refs(t1, q) == if q == a then Refs(t0, q) + 1 else Refs(t0, q);
      assert Refs(t2, q) == if q == b then Refs(t1, q) + 1 else Refs(t1, q);
    }
  }

  lemma {:induction false} LetGo(t0: Table, t1: Table, t2: Table, t3: Table, a: Key)
    requires OneMore(t0, t1, a) && SameRefs(t1, t2) && OneLess(t2, t3, a)
    ensures SameRefs(t0, t3)
  {
    forall q
      ensures Refs(t3, q) == Refs(t0, q)
    {
      assert Refs(t1, q) == if q == a then Refs(t0, q) + 1 else Refs(t0, q);
      assert Refs(t2, q) == Refs(t1, q);
    }
  }

  // ---------------------------------------------------------------- the table as a value

  function Counted(t: Table, x: nat, n: nat): Table
    requires On(t, x)
  {
    t.(nodes := t.nodes[x := t.nodes[x].(refs := n)])
  }

  function Added(t: Table, x: nat, k: Key): Table
    requires |t.chains| == BUCKETS
  {
    var b := Bucket(t, k);
    t.(nodes := t.nodes[x := Vnode(k, 1)], chains := t.chains[b := [x] + t.chains[b]])
  }

  function Removed(t: Table, x: nat): Table
    requires |t.chains| == BUCKETS && On(t, x)
  {
    var b := Bucket(t, t.nodes[x].key);
    t.(nodes := t.nodes - {x}, chains := t.chains[b := Without(t.chains[b], x)])
  }

  /** Counts agree wherever the two tables hold the same vnodes. */
  lemma {:induction false} RefsAgree(t: Table, t': Table, q: Key)
    requires UniqueKeys(t) && UniqueKeys(t')
    requires forall y: nat :: HasKey(t, y, q) <==> HasKey(t', y, q)
    requires forall y: nat :: HasKey(t, y, q) ==> t'.nodes[y].refs == t.nodes[y].refs
    ensures Refs(t', q) == Refs(t, q)
  {
    if y: nat :| HasKey(t, y, q) {
      RefsAt(t, y, q);
      RefsAt(t', y, q);
    }
  }

  lemma {:induction false} CountedKeeps(t: Table, x: nat, n: nat)
    requires Inv(t) && On(t, x) && n > 0
    ensures Inv(Counted(t, x, n))
  {
    var t' := Counted(t, x, n);
    forall y: nat, k: Key | HasKey(t', y, k)
      ensures HasKey(t, y, k)
    {
    }
    forall y: nat | On(t', y)
      ensures y in t'.chains[Bucket(t', t'.nodes[y].key)] && t'.nodes[y].refs > 0
    {
      assert On(t, y);
    }
    forall b, y: nat | 0 <= b < BUCKETS && y in t'.chains[b]
      ensures On(t', y) && Bucket(t', t'.nodes[y].key) == b
    {
      assert On(t, y);
    }
  }

  lemma {:induction false} CountedRefs(t: Table, x: nat, n: nat, q: Key)
    requires UniqueKeys(t) && On(t, x) && UniqueKeys(Counted(t, x, n))
    ensures Refs(Counted(t, x, n), q) == if q == t.nodes[x].key then n else Refs(t, q)
  {
    var t' := Counted(t, x, n);
    if q == t.nodes[x].key {
      assert HasKey(t', x, q);
      RefsAt(t', x, q);
    } else {
      RefsAgree(t, t', q);
    }
  }

  lemma {:induction false} AddedChains(t: Table, x: nat, k: Key)
    requires Chained(t) && !On(t, x)
    ensures Chained(Added(t, x, k))
  {
    var t', b := Added(t, x, k), Bucket(t, k);
    forall y: nat | On(t', y)
      ensures y in t'.chains[Bucket(t', t'.nodes[y].key)]
    {
      if y == x { assert t'.chains[b][0] == x; } else { assert On(t, y); }
    }
    forall c, y: nat | 0 <= c < BUCKETS && y in t'.chains[c]
      ensures On(t', y) && Bucket(t', t'.nodes[y].key) == c
    {
      if y in t.chains[c] { assert On(t, y) && y != x; }
    }
    assert x !in t.chains[b];
    assert Distinct(t.chains[b]);
  }

  lemma {:induction false} AddedKeeps(t: Table, x: nat, k: Key)
    requires Inv(t) && !On(t, x) && !Cached(t, k)
    ensures Inv(Added(t, x, k))
  {
    var t' := Added(t, x, k);
    AddedChains(t, x, k);
    forall y: nat, q: Key | HasKey(t', y, q)
      ensures (y == x && q == k) || (y != x && q != k && HasKey(t, y, q) && t'.nodes[y].refs == t.nodes[y].refs)
    {
      if y != x { assert HasKey(t, y, q); }
    }
    forall y: nat | On(t', y)
      ensures t'.nodes[y].refs > 0
    {
      if y != x { assert On(t, y); }
    }
  }

  lemma {:induction false} AddedRefs(t: Table, x: nat, k: Key, q: Key)
    requires UniqueKeys(t) && |t.chains| == BUCKETS && !On(t, x) && !Cached(t, k) && UniqueKeys(Added(t, x, k))
    ensures Refs(Added(t, x, k), q) == if q == k then 1 else Refs(t, q)
    ensures Refs(t, k) == 0
  {
    var t' := Added(t, x, k);
    if q == k {
      assert HasKey(t', x, k);
      RefsAt(t', x, k);
    } else {
      assert forall y: nat :: HasKey(t', y, q) ==> y != x;
      RefsAgree(t, t', q);
    }
  }

  lemma {:induction false} RemovedChains(t: Table, x: nat)
    requires Chained(t) && On(t, x)
    ensures Chained(Removed(t, x))
  {
    var t', b := Removed(t, x), Bucket(t, t.nodes[x].key);
    assert t'.chains[b] == Without(t.chains[b], x);
    forall y: nat | On(t', y)
      ensures y in t'.chains[Bucket(t', t'.nodes[y].key)]
    {
      assert On(t, y) && y != x;
    }
    forall c, y: nat | 0 <= c < BUCKETS && y in t'.chains[c]
      ensures On(t', y) && Bucket(t', t'.nodes[y].key) == c
    {
      assert y in t.chains[c] && On(t, y);
      assert y != x;
    }
  }

  lemma {:induction false} RemovedKeeps(t: Table, x: nat)
    requires Inv(t) && On(t, x)
    ensures Inv(Removed(t, x))
  {
    var t' := Removed(t, x);
    RemovedChains(t, x);
    forall y: nat, q: Key | HasKey(t', y, q)
      ensures HasKey(t, y, q)
    {
    }
    forall y: nat | On(t', y)
      ensures t'.nodes[y].refs > 0
    {
      assert On(t, y);
    }
  }

  lemma {:induction false} RemovedRefs(t: Table, x: nat, q: Key)
    requires UniqueKeys(t) && |t.chains| == BUCKETS && On(t, x) && UniqueKeys(Removed(t, x))
    ensures Refs(Removed(t, x), q) == if q == t.nodes[x].key then 0 else Refs(t, q)
  {
    var t' := Removed(t, x);
    if q == t.nodes[x].key {
      assert HasKey(t, x, q);
      assert forall y: nat :: HasKey(t', y, q) ==> HasKey(t, y, q) && y != x;
    } else {
      assert forall y: nat :: HasKey(t, y, q) ==> y != x;
      RefsAgree(t, t', q);
    }
  }

  lemma {:induction false} NotOnChain(t: Table, k: Key)
    requires Inv(t) && forall m :: 0 <= m < |t.chains[Bucket(t, k)]| ==> !HasKey(t, t.chains[Bucket(t, k)][m], k)
    ensures !Cached(t, k)
  {
    forall x: nat | On(t, x)
      ensures !HasKey(t, x, k)
    {
      var b := Bucket(t, t.nodes[x].key);
      assert x in t.chains[b];
      var m :| 0 <= m < |t.chains[b]| && t.chains[b][m] == x;
    }
  }

  // ---------------------------------------------------------------- the filesystem underneath

  datatype Errno = ENOENT | ENOTDIR | ENFILE | EINVAL | Driver(code: int)

  /**
   What a mounted filesystem answers: the inodes of names, the lookups its driver refuses
   and how, which inodes are directories, and which cannot be read in.
   */
  datatype Fs = Fs(entries: map<(nat, string), nat>, refused: map<(nat, string), int>, dirs: set<nat>, unreadable: set<nat>)

  datatype Goal = Reached(inode: nat) | ParentOf(inode: nat, name: string) | Stuck(err: Errno)

  /** One step down from a directory, for inodes that can be had. */
  function Down(fs: Fs, inode: nat, name: string): (g: Goal)
    ensures !g.ParentOf?
  {
    if inode !in fs.dirs then Stuck(ENOTDIR)
    else if (inode, name) in fs.refused then Stuck(Driver(fs.refused[(inode, name)]))
    else if (inode, name) !in fs.entries then Stuck(ENOENT)
    else Reached(fs.entries[(inode, name)])
  }

  /** Where a path leads, step by step from `inode`. */
  function Leads(fs: Fs, inode: nat, names: seq<string>, stopShort: bool): Goal
    decreases |names|
  {
    if names == [] then if stopShort then Stuck(EINVAL) else Reached(inode)
    else if stopShort && |names| == 1 then ParentOf(inode, names[0])
    else
      var g := Down(fs, inode, names[0]);
      if g.Stuck? then g else Leads(fs, g.inode, names[1..], stopShort)
  }

  lemma {:induction false} LeadsOn(fs: Fs, inode: nat, names: seq<string>, i: nat, stopShort: bool)
    requires i < |names|
    ensures stopShort && i + 1 == |names| ==> Leads(fs, inode, names[i..], stopShort) == ParentOf(inode, names[i])
    ensures !(stopShort && i + 1 == |names|) ==>
              var g := Down(fs, inode, names[i]);
              Leads(fs, inode, names[i..], stopShort) == if g.Stuck? then g else Leads(fs, g.inode, names[i + 1..], stopShort)
  {
    assert names[i..][0] == names[i] && names[i..][1..] == names[i + 1..];
  }

  datatype Found = Vnode_(id: nat) | Parent(id: nat, name: string) | Fail(err: Errno)

  // ---------------------------------------------------------------- the code

  class Cache {
    const pool: Pool
    const hash: Key -> nat
    var nodes: map<nat, Vnode>
    var chains: seq<seq<nat>>

    ghost function Now(): Table
      reads this
    {
      Table(nodes, chains, hash)
    }

    /** The slab's slots in use are exactly the vnodes on the chains. */
    ghost predicate Valid()
      reads this, pool
    {
      pool.Valid() && Inv(Now()) && pool.InUse() == nodes.Keys
    }

    constructor (hash: Key -> nat)
      ensures Valid() && nodes == map[] && fresh(pool)
    {
      this.hash := hash;
      pool := new Pool();
      nodes, chains := map[], seq(BUCKETS, _ => []);
    }

    /** The slab's count is the number of cached vnodes. */
    method InUseCount() returns (n: nat)
      requires Valid()
      ensures n == |nodes|
    {
      TotalIsUsed(pool.slabs);
      n := pool.totalInUse;
    }

    method Find(k: Key) returns (found: bool, x: nat)
      requires Valid()
      ensures found ==> HasKey(Now(), x, k)
      ensures !found ==> !Cached(Now(), k)
    {
      var chain := chains[hash(k) % BUCKETS];
      var m := 0;
      while m < |chain|
        invariant m <= |chain| && forall j :: 0 <= j < m ==> !HasKey(Now(), chain[j], k)
      {
        x := chain[m];
        assert x in chains[Bucket(Now(), k)] && On(Now(), x);
        if nodes[x].key == k {
          return true, x;
        }
        m := m + 1;
      }
      NotOnChain(Now(), k);
      found, x := false, 0;
    }

    /** Take a reference, reading the inode in if it is not cached. Fails, changing no count, without memory or if it cannot be read. */
    method Get(k: Key, memory: bool, readable: bool) returns (ok: bool, x: nat)
      requires Valid()
      modifies this, pool
      ensures Valid()
      ensures ok ==> HasKey(Now(), x, k) && OneMore(old(Now()), Now(), k)
      ensures !ok ==> Now() == old(Now()) && !Cached(Now(), k) && (!memory || !readable)
      ensures forall y: nat :: old(On(Now(), y)) ==> On(Now(), y) && nodes[y].key == old(nodes)[y].key
    {
      ok, x := Find(k);
      if ok {
        Count(x, nodes[x].refs + 1);
        return;
      }
      ok, x := pool.Alloc(memory);
      if !ok {
        return;
      }
      if !readable {
        pool.Free(x);
        ok := false;
        return;
      }
      Add(x, k);
    }

    method Count(x: nat, n: nat)
      requires Valid() && On(Now(), x) && n > 0
      modifies this
      ensures Valid() && Now() == Counted(old(Now()), x, n)
      ensures forall q :: Refs(Now(), q) == if q == old(nodes)[x].key then n else Refs(old(Now()), q)
      ensures Refs(old(Now()), old(nodes)[x].key) == old(nodes)[x].refs
    {
      ghost var t := Now();
      CountedKeeps(t, x, n);
      nodes := nodes[x := nodes[x].(refs := n)];
      assert Now() == Counted(t, x, n);
      assert HasKey(t, x, t.nodes[x].key);
      RefsAt(t, x, t.nodes[x].key);
      forall q
        ensures Refs(Now(), q) == if q == t.nodes[x].key then n else Refs(t, q)
      {
        CountedRefs(t, x, n, q);
      }
    }

    method Add(x: nat, k: Key)
      requires pool.Valid() && Inv(Now()) && !On(Now(), x) && pool.InUse() == nodes.Keys + {x} && !Cached(Now(), k)
      modifies this
      ensures Valid() && Now() == Added(old(Now()), x, k) && OneMore(old(Now()), Now(), k)
    {
      ghost var t := Now();
      AddedKeeps(t, x, k);
      var b := hash(k) % BUCKETS;
      nodes := nodes[x := Vnode(k, 1)];
      chains := chains[b := [x] + chains[b]];
      assert Now() == Added(t, x, k);
      forall q
        ensures Refs(Now(), q) == if q == k then Refs(t, q) + 1 else Refs(t, q)
      {
        AddedRefs(t, x, k, q);
      }
    }

    /** Drop a reference; the last one writes the inode back and returns the slot. */
    method Put(x: nat)
      requires Valid() && On(Now(), x)
      modifies this, pool
      ensures Valid() && OneLess(old(Now()), Now(), old(nodes)[x].key)
      ensures old(nodes)[x].refs > 1 ==> Now() == Counted(old(Now()), x, old(nodes)[x].refs - 1)
      ensures old(nodes)[x].refs == 1 ==> Now() == Removed(old(Now()), x)
    {
      if nodes[x].refs > 1 {
        Count(x, nodes[x].refs - 1);
        return;
      }
      Remove(x);
      pool.Free(x);
    }

    method Remove(x: nat)
      requires Valid() && On(Now(), x) && nodes[x].refs == 1
      modifies this
      ensures pool.Valid() && Inv(Now()) && pool.InUse() == nodes.Keys + {x}
      ensures Now() == Removed(old(Now()), x) && OneLess(old(Now()), Now(), old(nodes)[x].key)
    {
      ghost var t := Now();
      RemovedKeeps(t, x);
      var b := hash(nodes[x].key) % BUCKETS;
      var kept: seq<nat> := [];
      var rest := chains[b];
      while rest != [] && rest[0] != x
        invariant Without(chains[b], x) == kept + Without(rest, x)
        decreases |rest|
      {
        kept, rest := kept + [rest[0]], rest[1..];
      }
      if rest != [] {
        rest := rest[1..];
      }
      chains := chains[b := kept + rest];
      nodes := nodes - {x};
      assert Now() == Removed(t, x);
      RemovedLess(t, x);
    }

    /** One step of a walk that holds `cur`: hold the child instead, or nothing if it cannot be had. */
    method StepTo(ghost t0: Table, cur: nat, child: Key, memory: bool, readable: bool) returns (ok: bool, x: nat)
      requires Valid() && On(Now(), cur) && OneMore(t0, Now(), nodes[cur].key)
      modifies this, pool
      ensures Valid()
      ensures ok ==> HasKey(Now(), x, child) && OneMore(t0, Now(), child)
      ensures !ok ==> SameRefs(t0, Now()) && (!memory || !readable)
    {
      ghost var t1, k := Now(), nodes[cur].key;
      ok, x := Get(child, memory, readable);
      ghost var t2 := Now();
      assert On(t1, cur);
      if ok {
        HeldTwice(t1, t2, cur, x, child);
      }
      Put(cur);
      if ok {
        HandOver(t0, t1, t2, Now(), k, child);
      } else {
        LetGo(t0, t1, t2, Now(), k);
      }
    }

    /** One component of a walk: check the directory, look the name up, and move to the child. */
    method Descend(ghost t0: Table, dir: nat, name: string, fs: Fs, memory: bool) returns (ok: bool, x: nat, err: Errno)
      requires Valid() && On(Now(), dir) && OneMore(t0, Now(), nodes[dir].key)
      modifies this, pool
      ensures Valid()
      ensures ok ==> On(Now(), x) && nodes[x].key.mount == old(nodes)[dir].key.mount && OneMore(t0, Now(), nodes[x].key)
      ensures ok ==> Down(fs, old(nodes)[dir].key.inode, name) == Reached(nodes[x].key.inode)
      ensures !ok ==> SameRefs(t0, Now()) && (memory && fs.unreadable == {} ==> Down(fs, old(nodes)[dir].key.inode, name) == Stuck(err))
    {
      var k := nodes[dir].key;
      ok, x, err := false, 0, ENOTDIR;
      if k.inode !in fs.dirs {
        Release(t0, dir);
        return;
      }
      if (k.inode, name) in fs.refused || (k.inode, name) !in fs.entries {
        Release(t0, dir);
        err := if (k.inode, name) in fs.refused then Driver(fs.refused[(k.inode, name)]) else ENOENT;
        return;
      }
      var child := fs.entries[(k.inode, name)];
      ok, x := StepTo(t0, dir, Key(k.mount, child), memory, child !in fs.unreadable);
      err := ENFILE;
    }

    /** Take one more reference to a vnode already held by somebody. */
    method Hold(x: nat)
      requires Valid() && On(Now(), x)
      modifies this
      ensures Valid() && OneMore(old(Now()), Now(), old(nodes)[x].key)
      ensures On(Now(), x) && nodes[x].key == old(nodes)[x].key
    {
      Count(x, nodes[x].refs + 1);
    }

    /**
     Walk a path from the root of a mount. A walk that fails leaves every count as
     it was; one that succeeds leaves exactly one count one higher, that of the
     vnode it returns.
     */
    method Resolve(mount: nat, root: nat, names: seq<string>, stopShort: bool, fs: Fs, memory: nat -> bool) returns (r: Found)
      requires Valid() && HasKey(Now(), root, Key(mount, 0))
      modifies this, pool
      ensures Valid()
      ensures r.Fail? ==> SameRefs(old(Now()), Now())
      ensures !r.Fail? ==> On(Now(), r.id) && OneMore(old(Now()), Now(), nodes[r.id].key) && nodes[r.id].key.mount == mount
      ensures r.Vnode_? ==> Leads(fs, 0, names, stopShort) == Reached(nodes[r.id].key.inode)
      ensures r.Parent? ==> Leads(fs, 0, names, stopShort) == ParentOf(nodes[r.id].key.inode, r.name)
      ensures r.Fail? && (forall n :: memory(n)) && fs.unreadable == {} ==> Leads(fs, 0, names, stopShort) == Stuck(r.err)
    {
      ghost var t0 := Now();
      Hold(root);
      var dir, i := root, 0;
      while i < |names|
        invariant i <= |names| && Valid() && On(Now(), dir) && OneMore(t0, Now(), nodes[dir].key) && nodes[dir].key.mount == mount
        invariant Leads(fs, nodes[dir].key.inode, names[i..], stopShort) == Leads(fs, 0, names, stopShort)
      {
        LeadsOn(fs, nodes[dir].key.inode, names, i, stopShort);
        if stopShort && i + 1 == |names| {
          return Parent(dir, names[i]);
        }
        var ok, x, err := Descend(t0, dir, names[i], fs, memory(i));
        if !ok {
          return Fail(err);
        }
        dir, i := x, i + 1;
      }
      if stopShort {
        Release(t0, dir);
        return Fail(EINVAL);
      }
      r := Vnode_(dir);
    }

    method Release(ghost t0: Table, x: nat)
      requires Valid() && On(Now(), x) && OneMore(t0, Now(), nodes[x].key)
      modifies this, pool
      ensures Valid() && SameRefs(t0, Now())
    {
      ghost var t1, k := Now(), nodes[x].key;
      Put(x);
      LetGo(t0, t1, t1, Now(), k);
    }

    /** Look at one chain for a vnode that keeps the mount busy. */
    method BusyIn(b: nat, mount: nat, root: nat) returns (busy: bool)
      requires Valid() && b < BUCKETS
      ensures busy <==> exists x: nat :: x in chains[b] && HoldsMount(Now(), x, mount, root)
    {
      var m := 0;
      while m < |chains[b]|
        invariant m <= |chains[b]|
        invariant forall j :: 0 <= j < m ==> !HoldsMount(Now(), chains[b][j], mount, root)
      {
        var x := chains[b][m];
        assert x in chains[b] && On(Now(), x);
        if nodes[x].key.mount == mount && (if x == root then nodes[x].refs > 1 else nodes[x].refs > 0) {
          assert HoldsMount(Now(), x, mount, root);
          return true;
        }
        m := m + 1;
      }
      busy := false;
    }

    /** Unmount: succeeds exactly when the mount's own reference to its root is the only one to any of its vnodes. */
    method Umount(mount: nat, root: nat) returns (ok: bool)
      requires Valid() && HasKey(Now(), root, Key(mount, 0))
      modifies this, pool
      ensures Valid()
      ensures ok <==> old(Refs(Now(), Key(mount, 0))) == 1 && forall i :: i != 0 ==> old(Refs(Now(), Key(mount, i))) == 0
      ensures ok ==> OneLess(old(Now()), Now(), Key(mount, 0))
      ensures !ok ==> Now() == old(Now())
    {
      QuietIff(Now(), mount, root);
      var b := 0;
      while b < BUCKETS
        invariant b <= BUCKETS && Valid() && Now() == old(Now())
        invariant forall c, x: nat :: 0 <= c < b && x in chains[c] ==> !HoldsMount(Now(), x, mount, root)
      {
        var busy := BusyIn(b, mount, root);
        if busy {
          return false;
        }
        b := b + 1;
      }
      assert forall x: nat :: On(Now(), x) ==> x in chains[Bucket(Now(), nodes[x].key)];
      ok := true;
      Put(root);
    }
  }

  /** Some vnode of the mount other than its root is held, or the root by someone besides the mount. */
  ghost predicate Busy(t: Table, mount: nat, root: nat) {
    exists x: nat :: On(t, x) && HoldsMount(t, x, mount, root)
  }

  predicate HoldsMount(t: Table, x: nat, mount: nat, root: nat) {
    On(t, x) && t.nodes[x].key.mount == mount && (if x == root then t.nodes[x].refs > 1 else t.nodes[x].refs > 0)
  }

  /** The mount is quiet exactly when its root is cached once and nothing else of it is. */
  lemma {:induction false} QuietIff(t: Table, mount: nat, root: nat)
    requires Inv(t) && HasKey(t, root, Key(mount, 0))
    ensures !Busy(t, mount, root) <==> Refs(t, Key(mount, 0)) == 1 && forall i :: i != 0 ==> Refs(t, Key(mount, i)) == 0
  {
    RefsAt(t, root, Key(mount, 0));
    if !Busy(t, mount, root) {
      assert On(t, root);
      forall i: nat | i != 0
        ensures Refs(t, Key(mount, i)) == 0
      {
        RefsPositive(t, Key(mount, i));
      }
    } else {
      var x: nat :| On(t, x) && HoldsMount(t, x, mount, root);
      var k := t.nodes[x].key;
      assert HasKey(t, x, k);
      RefsAt(t, x, k);
      if x != root { assert k != Key(mount, 0); }
      assert k == Key(mount, k.inode);
    }
  }

  lemma {:induction false} RemovedLess(t: Table, x: nat)
    requires Inv(t) && On(t, x) && t.nodes[x].refs == 1 && Inv(Removed(t, x))
    ensures OneLess(t, Removed(t, x), t.nodes[x].key)
  {
    assert HasKey(t, x, t.nodes[x].key);
    RefsAt(t, x, t.nodes[x].key);
    forall q
      ensures Refs(Removed(t, x), q) == if q == t.nodes[x].key && Refs(t, q) > 0 then Refs(t, q) - 1 else Refs(t, q)
    {
      RemovedRefs(t, x, q);
    }
  }

  /** A walk's current directory, taken again as its own child, is held at least twice. */
  lemma {:induction false} HeldTwice(t1: Table, t2: Table, cur: nat, x: nat, child: Key)
    requires Inv(t1) && Inv(t2) && On(t1, cur) && On(t2, cur) && HasKey(t2, x, child) && OneMore(t1, t2, child)
    requires t2.nodes[cur].key == t1.nodes[cur].key
    ensures x == cur ==> t2.nodes[cur].refs > 1
  {
    if x == cur {
      assert HasKey(t1, cur, child);
      RefsAt(t1, cur, child);
      RefsAt(t2, cur, child);
    }
  }
}
