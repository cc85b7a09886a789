/**
 The write-through sector cache: 128 entries, found through 64 hash chains, the
 least recently used one given up when all are taken. `Table` is the cache as a
 value; `Cache` is the code that edits it in place.
 */
module BlkCache {
  import opened Lists

  const ENTRIES: nat := 128
  const BUCKETS: nat := 64

  type Sector = seq<nat>

  datatype Key = Key(drive: nat, lba: nat)

  datatype Entry = Entry(valid: bool, key: Key, stamp: nat, data: Sector)

  datatype Table = Table(entries: seq<Entry>, chains: seq<seq<nat>>, clock: nat)

  /** The 32-bit product's low bits; the drive number is mixed in above bit 24 and so never shows. */
  function Bucket(k: Key): (b: nat)
    ensures b < BUCKETS
  {
    (k.lba * 2654435761) % 0x1_0000_0000 % BUCKETS
  }

  lemma {:induction false} BucketIs(k: Key)
    ensures Bucket(k) == (49 * k.lba) % BUCKETS
  {
    var p := k.lba * 2654435761;
    assert p == 49 * k.lba + BUCKETS * (41475558 * k.lba);
    assert 0x1_0000_0000 == BUCKETS * 0x400_0000;
    assert p % 0x1_0000_0000 == p - BUCKETS * (0x400_0000 * (p / 0x1_0000_0000));
    ModShift(p, -(0x400_0000 * (p / 0x1_0000_0000)));
    ModShift(49 * k.lba, 41475558 * k.lba);
  }

  lemma {:induction false} ModShift(x: int, q: int)
    ensures (x + BUCKETS * q) % BUCKETS == x % BUCKETS
  {
  }

  /** A run of up to 64 consecutive sectors never collides: the bucket is a bijection on every window of 64. */
  lemma {:induction false} NeighboursSpread(a: Key, b: Key)
    requires a.lba < b.lba < a.lba + BUCKETS
    ensures Bucket(a) != Bucket(b)
  {
    BucketIs(a);
    BucketIs(b);
    var d := b.lba - a.lba;
    if Bucket(a) == Bucket(b) {
      var x, y := 49 * a.lba, 49 * b.lba;
      assert y - x == 49 * d;
      assert x == BUCKETS * (x / BUCKETS) + x % BUCKETS && y == BUCKETS * (y / BUCKETS) + y % BUCKETS;
      assert 49 * d == BUCKETS * (y / BUCKETS - x / BUCKETS);
      OddFactor(d, y / BUCKETS - x / BUCKETS);
    }
  }

  /** 49 is odd: 64 divides 49 d only if it divides d. 17 * 49 is 1 more than 13 * 64. */
  lemma {:induction false} OddFactor(d: int, q: int)
    requires 49 * d == BUCKETS * q
    ensures d % BUCKETS == 0
  {
    assert d == BUCKETS * (17 * q - 13 * d);
    ModShift(0, 17 * q - 13 * d);
  }

  // ---------------------------------------------------------------- the table as a value

  predicate InUse(t: Table, i: int) { 0 <= i < |t.entries| && t.entries[i].valid }

  predicate Sized(t: Table) { |t.entries| == ENTRIES && |t.chains| == BUCKETS }

  ghost predicate UniqueKeys(t: Table) {
    forall i, j :: InUse(t, i) && InUse(t, j) && t.entries[i].key == t.entries[j].key ==> i == j
  }

  /** Each valid entry is once on the chain of its own bucket, and chains hold nothing else. */
  ghost predicate Chained(t: Table)
    requires Sized(t)
  {
    && (forall i :: InUse(t, i) ==> i in t.chains[Bucket(t.entries[i].key)])
    && (forall b, x: nat :: 0 <= b < BUCKETS && x in t.chains[b] ==> InUse(t, x) && Bucket(t.entries[x].key) == b)
    && (forall b :: 0 <= b < BUCKETS ==> Distinct(t.chains[b]))
  }

  ghost predicate Stamped(t: Table) {
    && (forall i :: InUse(t, i) ==> t.entries[i].stamp <= t.clock)
    && (forall i, j :: InUse(t, i) && InUse(t, j) && i != j ==> t.entries[i].stamp != t.entries[j].stamp)
  }

  ghost predicate WellFormed(t: Table) { Sized(t) && UniqueKeys(t) && Chained(t) && Stamped(t) }

  /** What the cache holds. */
  ghost function View(t: Table): map<Key, Sector>
    requires UniqueKeys(t)
  {
    map i | 0 <= i < |t.entries| && InUse(t, i) :: t.entries[i].key := t.entries[i].data
  }

  lemma {:induction false} ViewAt(t: Table, i: nat)
    requires UniqueKeys(t) && InUse(t, i)
    ensures t.entries[i].key in View(t) && View(t)[t.entries[i].key] == t.entries[i].data
  {
  }

  lemma {:induction false} ViewHas(t: Table, k: Key) returns (i: nat)
    requires UniqueKeys(t) && k in View(t)
    ensures InUse(t, i) && t.entries[i].key == k && View(t)[k] == t.entries[i].data
  {
    i :| 0 <= i < |t.entries| && InUse(t, i) && t.entries[i].key == k;
  }

  /** Take one entry off its chain and mark it free. */
  function Unlinked(t: Table, i: nat): Table
    requires Sized(t) && i < ENTRIES
  {
    if !t.entries[i].valid then t
    else
      var b := Bucket(t.entries[i].key);
      t.(entries := t.entries[i := t.entries[i].(valid := false)], chains := t.chains[b := Without(t.chains[b], i)])
  }

  /** Give a free entry a key, bytes and a fresh stamp, and put it in front of its chain. */
  function Placed(t: Table, i: nat, k: Key, d: Sector): Table
    requires Sized(t) && i < ENTRIES
  {
    Table(t.entries[i := Entry(true, k, t.clock + 1, d)], t.chains[Bucket(k) := [i] + t.chains[Bucket(k)]], t.clock + 1)
  }

  /** New bytes and a fresh stamp for an entry in use. */
  function Refreshed(t: Table, i: nat, d: Sector): Table
    requires i < |t.entries|
  {
    t.(entries := t.entries[i := t.entries[i].(stamp := t.clock + 1, data := d)], clock := t.clock + 1)
  }

  lemma {:induction false} UnlinkedChains(t: Table, i: nat)
    requires WellFormed(t) && i < ENTRIES
    ensures Chained(Unlinked(t, i))
  {
    var t' := Unlinked(t, i);
    if t.entries[i].valid {
      var b := Bucket(t.entries[i].key);
      assert t'.chains[b] == Without(t.chains[b], i);
      forall j | InUse(t', j)
        ensures j in t'.chains[Bucket(t'.entries[j].key)]
      {
        assert InUse(t, j) && j != i;
      }
      forall c, x: nat | 0 <= c < BUCKETS && x in t'.chains[c]
        ensures InUse(t', x) && Bucket(t'.entries[x].key) == c
      {
        assert x in t.chains[c] && InUse(t, x);
        assert x != i;
      }
    }
  }

  lemma {:induction false} UnlinkedRest(t: Table, i: nat)
    requires WellFormed(t) && i < ENTRIES
    ensures Sized(Unlinked(t, i)) && UniqueKeys(Unlinked(t, i)) && Stamped(Unlinked(t, i)) && !InUse(Unlinked(t, i), i)
  {
    var t' := Unlinked(t, i);
    assert forall j :: InUse(t', j) ==> InUse(t, j) && t'.entries[j] == t.entries[j];
  }

  lemma {:induction false} UnlinkedKeeps(t: Table, i: nat)
    requires WellFormed(t) && i < ENTRIES
    ensures WellFormed(Unlinked(t, i)) && !InUse(Unlinked(t, i), i)
  {
    UnlinkedChains(t, i);
    UnlinkedRest(t, i);
  }

  lemma {:induction false} UnlinkedView(t: Table, i: nat)
    requires UniqueKeys(t) && Sized(t) && InUse(t, i) && UniqueKeys(Unlinked(t, i))
    ensures View(Unlinked(t, i)) == View(t) - {t.entries[i].key}
  {
    hide Bucket;
    var t', k := Unlinked(t, i), t.entries[i].key;
    assert t'.entries == t.entries[i := t.entries[i].(valid := false)];
    hide Unlinked;
    hide View;
    forall q | q in View(t')
      ensures q in View(t) && q != k && View(t')[q] == View(t)[q]
    {
      var j := ViewHas(t', q);
      assert j != i && InUse(t, j);
      ViewAt(t, j);
    }
    forall q | q in View(t) && q != k
      ensures q in View(t')
    {
      var j := ViewHas(t, q);
      ViewAt(t', j);
    }
  }

  lemma {:induction false} PlacedChains(t: Table, i: nat, k: Key, d: Sector)
    requires WellFormed(t) && i < ENTRIES && !InUse(t, i)
    ensures Chained(Placed(t, i, k, d))
  {
    var t', b := Placed(t, i, k, d), Bucket(k);
    forall j | InUse(t', j)
      ensures j in t'.chains[Bucket(t'.entries[j].key)]
    {
      if j != i { assert InUse(t, j); } else { assert t'.chains[b][0] == i; }
    }
    forall c, x: nat | 0 <= c < BUCKETS && x in t'.chains[c]
      ensures InUse(t', x) && Bucket(t'.entries[x].key) == c
    {
      if x in t.chains[c] { assert InUse(t, x) && x != i; }
    }
    assert i !in t.chains[b];
    assert Distinct(t.chains[b]);
  }

  lemma {:induction false} PlacedRest(t: Table, i: nat, k: Key, d: Sector)
    requires WellFormed(t) && i < ENTRIES && !InUse(t, i) && k !in View(t)
    ensures Sized(Placed(t, i, k, d)) && UniqueKeys(Placed(t, i, k, d)) && Stamped(Placed(t, i, k, d))
  {
    var t' := Placed(t, i, k, d);
    forall j | InUse(t', j) && j != i
      ensures InUse(t, j) && t'.entries[j] == t.entries[j] && t.entries[j].key != k
    {
      ViewAt(t, j);
    }
  }

  lemma {:induction false} PlacedView(t: Table, i: nat, k: Key, d: Sector)
    requires UniqueKeys(t) && Sized(t) && i < ENTRIES && !InUse(t, i) && k !in View(t) && UniqueKeys(Placed(t, i, k, d))
    ensures View(Placed(t, i, k, d)) == View(t)[k := d]
  {
    var t' := Placed(t, i, k, d);
    ViewAt(t', i);
    forall q | q in View(t')
      ensures q in View(t)[k := d] && View(t')[q] == View(t)[k := d][q]
    {
      var j := ViewHas(t', q);
      if j != i {
        assert InUse(t, j);
        ViewAt(t, j);
      }
    }
    forall q | q in View(t)
      ensures q in View(t')
    {
      var j := ViewHas(t, q);
      assert InUse(t', j) && j != i;
      ViewAt(t', j);
    }
  }

  lemma {:induction false} RefreshedKeeps(t: Table, i: nat, d: Sector)
    requires WellFormed(t) && InUse(t, i)
    ensures WellFormed(Refreshed(t, i, d))
  {
    RefreshedChains(t, i, d);
    var t' := Refreshed(t, i, d);
    forall j | InUse(t', j)
      ensures InUse(t, j) && t'.entries[j].key == t.entries[j].key && (j != i ==> t'.entries[j].stamp == t.entries[j].stamp)
    {
    }
  }

  lemma {:induction false} RefreshedChains(t: Table, i: nat, d: Sector)
    requires WellFormed(t) && InUse(t, i)
    ensures Sized(Refreshed(t, i, d)) && Chained(Refreshed(t, i, d))
  {
    var t' := Refreshed(t, i, d);
    forall j | InUse(t', j)
      ensures j in t'.chains[Bucket(t'.entries[j].key)]
    {
      assert InUse(t, j);
    }
    forall c, x: nat | 0 <= c < BUCKETS && x in t'.chains[c]
      ensures InUse(t', x) && Bucket(t'.entries[x].key) == c
    {
      assert InUse(t, x);
    }
  }

  lemma {:induction false} RefreshedView(t: Table, i: nat, d: Sector)
    requires UniqueKeys(t) && InUse(t, i) && UniqueKeys(Refreshed(t, i, d))
    ensures View(Refreshed(t, i, d)) == View(t)[t.entries[i].key := d]
  {
    var t', k := Refreshed(t, i, d), t.entries[i].key;
    forall q | q in View(t')
      ensures q in View(t)[k := d] && View(t')[q] == View(t)[k := d][q]
    {
      var j := ViewHas(t', q);
      ViewAt(t, j);
    }
    forall q | q in View(t)[k := d]
      ensures q in View(t')
    {
      ViewAt(t, i);
      var j := ViewHas(t, q);
      ViewAt(t', j);
    }
  }

  // ---------------------------------------------------------------- the code

  /** The entry given up: a free one if there is any, otherwise the least recently used. */
  ghost predicate IsVictim(t: Table, v: nat) {
    && v < |t.entries|
    && ((exists j :: 0 <= j < |t.entries| && !InUse(t, j)) ==> !InUse(t, v))
    && (InUse(t, v) ==> forall j :: InUse(t, j) ==> t.entries[v].stamp <= t.entries[j].stamp)
  }

  /** Installing `k`: an entry already holding it is reused; otherwise the victim's sector goes. */
  ghost predicate Installed(t: Table, t': Table, k: Key, d: Sector, v: nat)
    requires UniqueKeys(t) && UniqueKeys(t')
  {
    if k in View(t) then View(t') == View(t)[k := d]
    else IsVictim(t, v) && View(t') == (if InUse(t, v) then View(t) - {t.entries[v].key} else View(t))[k := d]
  }

  /** The sector's entry carries the newest stamp, so it is the last to be given up. */
  ghost predicate MostRecent(t: Table, k: Key) {
    exists i :: InUse(t, i) && t.entries[i].key == k && t.entries[i].stamp == t.clock
  }

  lemma {:induction false} InstallOver(t: Table, v: nat, k: Key, d: Sector)
    requires WellFormed(t) && k !in View(t) && IsVictim(t, v)
    ensures var t' := Placed(Unlinked(t, v), v, k, d); WellFormed(t') && Installed(t, t', k, d, v)
  {
    UnlinkedKeeps(t, v);
    var u := Unlinked(t, v);
    if InUse(t, v) { UnlinkedView(t, v); }
    PlacedChains(u, v, k, d);
    PlacedRest(u, v, k, d);
    PlacedView(u, v, k, d);
  }

  lemma {:induction false} NotOnChain(t: Table, k: Key)
    requires WellFormed(t)
    requires forall m :: 0 <= m < |t.chains[Bucket(k)]| ==> t.chains[Bucket(k)][m] < ENTRIES && t.entries[t.chains[Bucket(k)][m]].key != k
    ensures k !in View(t)
  {
    if k in View(t) {
      var j := ViewHas(t, k);
    }
  }

  class Cache {
    const entries: array<Entry>
    const chains: array<seq<nat>>
    var clock: nat

    ghost function Now(): Table
      reads this, entries, chains
    {
      Table(entries[..], chains[..], clock)
    }

    ghost predicate Valid()
      reads this, entries, chains
    {
      entries.Length == ENTRIES && chains.Length == BUCKETS && WellFormed(Now())
    }

    ghost function Holds(): map<Key, Sector>
      requires Valid()
      reads this, entries, chains
    {
      View(Now())
    }

    constructor ()
      ensures Valid() && Holds() == map[] && fresh(entries) && fresh(chains)
    {
      entries := new Entry[ENTRIES](_ => Entry(false, Key(0, 0), 0, []));
      chains := new seq<nat>[BUCKETS](_ => []);
      clock := 0;
      new;
      assert forall i :: !InUse(Now(), i);
    }

    /** Walk one hash chain. */
    method Lookup(k: Key) returns (i: nat)
      requires Valid()
      ensures i <= ENTRIES && (i < ENTRIES <==> k in Holds())
      ensures i < ENTRIES ==> InUse(Now(), i) && entries[i].key == k
    {
      var chain := chains[Bucket(k)];
      var n := 0;
      while n < |chain|
        invariant n <= |chain|
        invariant forall m :: 0 <= m < n ==> chain[m] < ENTRIES && entries[chain[m]].key != k
      {
        assert chain[n] in chain && InUse(Now(), chain[n]);
        if entries[chain[n]].valid && entries[chain[n]].key == k {
          i := chain[n];
          ViewAt(Now(), i);
          return;
        }
        n := n + 1;
      }
      i := ENTRIES;
      NotOnChain(Now(), k);
    }

    method UnlinkBuf(i: nat)
      requires Valid() && i < ENTRIES
      modifies entries, chains
      ensures Now() == Unlinked(old(Now()), i)
    {
      if !entries[i].valid {
        return;
      }
      var b := Bucket(entries[i].key);
      var kept: seq<nat> := [];
      var rest := chains[b];
      while rest != [] && rest[0] != i
        invariant Without(chains[b], i) == kept + Without(rest, i)
        decreases |rest|
      {
        kept, rest := kept + [rest[0]], rest[1..];
      }
      if rest != [] {
        rest := rest[1..];
      }
      chains[b] := kept + rest;
      entries[i] := entries[i].(valid := false);
    }

    /** Scan for a free entry, remembering the least recently used one. */
    method FindVictim() returns (v: nat)
      requires Valid()
      ensures IsVictim(Now(), v)
    {
      v := 0;
      var i := 0;
      while i < ENTRIES
        invariant i <= ENTRIES && v < ENTRIES
        invariant forall j :: 0 <= j < i ==> entries[j].valid && entries[v].stamp <= entries[j].stamp
      {
        if !entries[i].valid {
          v := i;
          assert !InUse(Now(), v);
          return;
        }
        if i == 0 || entries[i].stamp < entries[v].stamp {
          v := i;
        }
        i := i + 1;
      }
      assert forall j :: 0 <= j < ENTRIES ==> InUse(Now(), j);
    }

    /** Claim an entry for `k` and fill it in. */
    method Install(k: Key, d: Sector) returns (ghost v: nat)
      requires Valid()
      modifies this, entries, chains
      ensures Valid() && Installed(old(Now()), Now(), k, d, v)
      ensures clock == old(clock) + 1 && MostRecent(Now(), k)
    {
      ghost var t := Now();
      var i := Lookup(k);
      v := 0;
      if i < ENTRIES {
        RefreshedKeeps(t, i, d);
        RefreshedView(t, i, d);
        entries[i] := entries[i].(data := d, stamp := clock + 1);
        clock := clock + 1;
        assert Now() == Refreshed(t, i, d) && InUse(Now(), i);
        return;
      }
      var victim := FindVictim();
      v := victim;
      InstallOver(t, v, k, d);
      UnlinkBuf(victim);
      Place(victim, k, d);
      assert InUse(Now(), victim);
    }

    method Place(i: nat, k: Key, d: Sector)
      requires entries.Length == ENTRIES && chains.Length == BUCKETS && i < ENTRIES
      modifies this, entries, chains
      ensures Now() == Placed(old(Now()), i, k, d)
    {
      entries[i] := Entry(true, k, clock + 1, d);
      chains[Bucket(k)] := [i] + chains[Bucket(k)];
      clock := clock + 1;
    }

    /** The locked first half of a read: a hit returns the bytes held and makes the entry the most recent. */
    method TryHit(k: Key) returns (hit: bool, d: Sector)
      requires Valid()
      modifies this, entries
      ensures Valid() && Holds() == old(Holds()) && hit == (k in Holds())
      ensures hit ==> d == Holds()[k]
      ensures hit ==> clock == old(clock) + 1 && MostRecent(Now(), k)
    {
      hide View;
      hide Chained;
      hide Stamped;
      ghost var t := Now();
      var i := Lookup(k);
      hit, d := i < ENTRIES, [];
      if hit {
        d := entries[i].data;
        RefreshedKeeps(t, i, d);
        RefreshedView(t, i, d);
        ViewAt(t, i);
        entries[i] := entries[i].(stamp := clock + 1);
        clock := clock + 1;
        assert Now() == Refreshed(t, i, d);
        assert InUse(Now(), i);
      }
    }

    /** After a failed write the sector is forgotten. */
    method Forget(k: Key)
      requires Valid()
      modifies entries, chains
      ensures Valid() && Holds() == old(Holds()) - {k}
    {
      var i := Lookup(k);
      if i < ENTRIES {
        Drop(i);
      }
    }

    method InvalidateDrive(drive: nat)
      requires Valid()
      modifies entries, chains
      ensures Valid() && Holds() == OtherDrives(old(Holds()), drive)
    {
      var i := 0;
      while i < ENTRIES
        invariant i <= ENTRIES && Valid()
        invariant forall j :: 0 <= j < i && entries[j].valid ==> entries[j].key.drive != drive
        invariant OtherDrives(Holds(), drive) == OtherDrives(old(Holds()), drive)
      {
        if entries[i].valid && entries[i].key.drive == drive {
          DropOfDrive(Holds(), entries[i].key);
          Drop(i);
        }
        i := i + 1;
      }
      NoneLeft(Now(), drive);
    }

    method Drop(i: nat)
      requires Valid() && i < ENTRIES && entries[i].valid
      modifies entries, chains
      ensures Valid() && Holds() == old(Holds()) - {old(entries[i].key)}
      ensures entries[..] == old(entries[..])[i := old(entries[i]).(valid := false)]
    {
      ghost var t := Now();
      UnlinkedKeeps(t, i);
      UnlinkedView(t, i);
      UnlinkBuf(i);
    }
  }

  ghost function OtherDrives(m: map<Key, Sector>, drive: nat): map<Key, Sector> {
    map k | k in m && k.drive != drive :: m[k]
  }

  lemma {:induction false} DropOfDrive(m: map<Key, Sector>, k: Key)
    ensures OtherDrives(m - {k}, k.drive) == OtherDrives(m, k.drive)
  {
  }

  lemma {:induction false} NoneLeft(t: Table, drive: nat)
    requires UniqueKeys(t) && forall j :: InUse(t, j) ==> t.entries[j].key.drive != drive
    ensures OtherDrives(View(t), drive) == View(t)
  {
    forall k | k in View(t)
      ensures k.drive != drive
    {
      var j := ViewHas(t, k);
    }
  }
}

/**
 Readers and writers of the cache, interleaved where the code drops the lock: a
 missing reader looks up, reads the disk and installs in three steps, a writer
 writes the disk and then updates the cache. Each locked section acts on what the
 cache holds as `Cache.TryHit`, `Cache.Install`, `Cache.Forget` and
 `Cache.InvalidateDrive` do.
 */
module BlkCacheRace {
  import opened BlkCache

  datatype Pc =
    | Idle
    | Missed(k: Key)                        // about to read the disk
    | Loaded(k: Key, d: Sector)             // about to install
    | Written(k: Key, d: Sector, ok: bool)  // disk written or failed, about to update the cache

  datatype State = State(disk: map<Key, Sector>, cache: map<Key, Sector>, pc: seq<Pc>)

  /** `victim` is the sector evicted by an install, if any; a failed write leaves some bytes `torn` on the disk. */
  datatype Action =
    | Hit(k: Key) | Miss(k: Key) | DiskRead | DiskReadFails | DoInstall(victim: set<Key>)
    | DiskWrite(k: Key, d: Sector, ok: bool, torn: Sector) | FinishWrite(victim: set<Key>)
    | Invalidate(drive: nat)

  predicate Enabled(s: State, t: nat, a: Action) {
    && t < |s.pc|
    && match a
       case Hit(k) => s.pc[t].Idle? && k in s.cache
       case Miss(k) => s.pc[t].Idle? && k !in s.cache
       case DiskRead => s.pc[t].Missed? && s.pc[t].k in s.disk
       case DiskReadFails => s.pc[t].Missed?
       case DoInstall(victim) => s.pc[t].Loaded?
       case DiskWrite(k, _, _, _) => s.pc[t].Idle? && k in s.disk
       case FinishWrite(victim) => s.pc[t].Written?
       case Invalidate(_) => s.pc[t].Idle?
  }

  function Put(cache: map<Key, Sector>, k: Key, d: Sector, victim: set<Key>): map<Key, Sector> {
    (if k in cache then cache else cache - victim)[k := d]
  }

  /** The class's install is this one, for the sector its victim held. */
  lemma {:induction false} InstalledIsPut(t: Table, t': Table, k: Key, d: Sector, v: nat)
    requires UniqueKeys(t) && UniqueKeys(t') && Installed(t, t', k, d, v)
    ensures View(t') == Put(View(t), k, d, if InUse(t, v) then {t.entries[v].key} else {})
  {
    if k !in View(t) && !InUse(t, v) {
      assert View(t) - {} == View(t);
    }
  }

  function Apply(s: State, t: nat, a: Action): State
    requires Enabled(s, t, a)
  {
    match a
    case Hit(_) => s
    case Miss(k) => s.(pc := s.pc[t := Missed(k)])
    case DiskRead => s.(pc := s.pc[t := Loaded(s.pc[t].k, s.disk[s.pc[t].k])])
    case DiskReadFails => s.(pc := s.pc[t := Idle])
    case DoInstall(victim) => s.(cache := Put(s.cache, s.pc[t].k, s.pc[t].d, victim), pc := s.pc[t := Idle])
    case DiskWrite(k, d, ok, torn) => s.(disk := s.disk[k := if ok then d else torn], pc := s.pc[t := Written(k, d, ok)])
    case FinishWrite(victim) =>
      var w := s.pc[t];
      s.(cache := if w.ok then Put(s.cache, w.k, w.d, victim) else s.cache - {w.k}, pc := s.pc[t := Idle])
    case Invalidate(drive) => s.(cache := map k | k in s.cache && k.drive != drive :: s.cache[k])
  }

  /** The bytes a completed read hands back. */
  predicate Returns(s: State, t: nat, a: Action, k: Key, d: Sector)
    requires Enabled(s, t, a)
  {
    (a == Hit(k) && s.cache[k] == d) || (a.DoInstall? && s.pc[t] == Loaded(k, d))
  }

  predicate Busy(p: Pc, k: Key) { !p.Idle? && p.k == k }

  /** No writer of a sector overlaps any other operation on it, as the lock held by the callers ensures. */
  predicate Guarded(s: State, t: nat, a: Action) {
    match a
    case DiskWrite(k, _, _, _) => forall u :: 0 <= u < |s.pc| ==> !Busy(s.pc[u], k)
    case Hit(k) => forall u :: 0 <= u < |s.pc| ==> !(s.pc[u].Written? && s.pc[u].k == k)
    case Miss(k) => forall u :: 0 <= u < |s.pc| ==> !(s.pc[u].Written? && s.pc[u].k == k)
    case _ => true
  }

  ghost predicate BeingWritten(s: State, k: Key) { exists u :: 0 <= u < |s.pc| && s.pc[u].Written? && s.pc[u].k == k }

  /** Outside a write in progress, what the cache and the waiting readers hold is what is on the disk. */
  ghost predicate Coherent(s: State) {
    && (forall k :: k in s.cache && !BeingWritten(s, k) ==> k in s.disk && s.cache[k] == s.disk[k])
    && (forall u :: 0 <= u < |s.pc| && s.pc[u].Loaded? ==> s.pc[u].k in s.disk && s.pc[u].d == s.disk[s.pc[u].k])
    && (forall u :: 0 <= u < |s.pc| && s.pc[u].Written? ==>
          s.pc[u].k in s.disk && (s.pc[u].ok ==> s.disk[s.pc[u].k] == s.pc[u].d))
    && (forall u, v :: 0 <= u < |s.pc| && 0 <= v < |s.pc| && u != v && s.pc[u].Written? ==> !Busy(s.pc[v], s.pc[u].k))
  }

  lemma {:induction false} CoherentDiskWrite(s: State, t: nat, a: Action)
    requires Coherent(s) && Enabled(s, t, a) && Guarded(s, t, a) && a.DiskWrite?
    ensures Coherent(Apply(s, t, a))
  {
    var s' := Apply(s, t, a);
    assert s'.pc[t].Written? && s'.pc[t].k == a.k;
    assert BeingWritten(s', a.k);
    assert forall u :: 0 <= u < |s.pc| && s.pc[u].Written? ==> s'.pc[u] == s.pc[u];
    forall k | k in s'.cache && !BeingWritten(s', k)
      ensures k in s'.disk && s'.cache[k] == s'.disk[k]
    {
      assert BeingWritten(s, k) ==> BeingWritten(s', k);
    }
    assert forall u :: 0 <= u < |s.pc| && u != t ==> s'.pc[u] == s.pc[u] && !Busy(s.pc[u], a.k);
  }

  lemma {:induction false} CoherentFinish(s: State, t: nat, a: Action)
    requires Coherent(s) && Enabled(s, t, a) && a.FinishWrite?
    ensures Coherent(Apply(s, t, a))
  {
    var s', w := Apply(s, t, a), s.pc[t];
    assert forall u :: 0 <= u < |s.pc| && u != t ==> s'.pc[u] == s.pc[u];
    forall k | k in s'.cache && !BeingWritten(s', k)
      ensures k in s'.disk && s'.cache[k] == s'.disk[k]
    {
      assert k != w.k && BeingWritten(s, k) ==> BeingWritten(s', k);
    }
  }

  lemma {:induction false} CoherentRead(s: State, t: nat, a: Action)
    requires Coherent(s) && Enabled(s, t, a) && Guarded(s, t, a) && !a.FinishWrite? && !a.DiskWrite?
    ensures Coherent(Apply(s, t, a))
  {
    var s' := Apply(s, t, a);
    assert forall u :: 0 <= u < |s.pc| && s.pc[u].Written? ==> s'.pc[u] == s.pc[u];
    forall k | k in s'.cache && !BeingWritten(s', k)
      ensures k in s'.disk && s'.cache[k] == s'.disk[k]
    {
      assert BeingWritten(s, k) ==> BeingWritten(s', k);
    }
  }

  /** A read that completes returns the bytes on the disk at that moment. */
  lemma {:induction false} ReadReturnsDisk(s: State, t: nat, a: Action, k: Key, d: Sector)
    requires Coherent(s) && Enabled(s, t, a) && Guarded(s, t, a) && Returns(s, t, a, k, d)
    ensures k in s.disk && s.disk[k] == d
  {
    if a.Hit? {
      assert !BeingWritten(s, k);
    }
  }

  ghost predicate Next(s: State, s': State) { exists t, a :: Enabled(s, t, a) && Guarded(s, t, a) && s' == Apply(s, t, a) }

  ghost predicate IsRun(run: seq<State>) {
    && |run| > 0 && run[0].cache == map[] && (forall t :: 0 <= t < |run[0].pc| ==> run[0].pc[t].Idle?)
    && forall i :: 0 <= i < |run| - 1 ==> Next(run[i], run[i + 1])
  }

  /** Over every guarded interleaving the cache agrees with the disk. */
  lemma {:induction false} CacheCoherent(run: seq<State>, i: nat)
    requires IsRun(run) && i < |run|
    ensures Coherent(run[i])
  {
    if i > 0 {
      CacheCoherent(run, i - 1);
      var s := run[i - 1];
      assert Next(s, run[i]);
      var t, a :| Enabled(s, t, a) && Guarded(s, t, a) && run[i] == Apply(s, t, a);
      if a.DiskWrite? {
        CoherentDiskWrite(s, t, a);
      } else if a.FinishWrite? {
        CoherentFinish(s, t, a);
      } else {
        CoherentRead(s, t, a);
      }
    }
  }

  // ---------------------------------------------------------------- without the guard

  /** Thread `t` is about to put `s.pc[t].d` into the cache. */
  predicate Updates(s: State, t: nat, a: Action)
    requires Enabled(s, t, a)
  {
    a.DoInstall? || (a.FinishWrite? && s.pc[t].ok)
  }

  predicate AgreesAt(s: State, k: Key) { k in s.cache ==> k in s.disk && s.cache[k] == s.disk[k] }

  /** A cache entry is dropped or left alone, and the disk too; a write in progress ends in an update or a drop. */
  predicate Harmless(s: State, t: nat, a: Action, k: Key)
    requires Enabled(s, t, a)
  {
    !(Updates(s, t, a) && s.pc[t].k == k) && !(a.DiskWrite? && a.k == k)
  }

  datatype Event = Event(t: nat, a: Action)

  /** Any interleaving at all. */
  ghost predicate IsFreeRun(run: seq<State>, evs: seq<Event>) {
    && |run| == |evs| + 1
    && forall i :: 0 <= i < |evs| ==> Enabled(run[i], evs[i].t, evs[i].a) && run[i + 1] == Apply(run[i], evs[i].t, evs[i].a)
  }

  /**
   In any interleaving, if the first step updates the cache at `k` and none after it
   updates that entry or writes that sector, the cache agrees with the disk at the end
   exactly if the update brought the bytes that were on the disk, or has been dropped
   again.
   */
  lemma {:induction false} LastUpdateDecides(run: seq<State>, evs: seq<Event>, k: Key)
    requires IsFreeRun(run, evs) && |evs| >= 1 && Updates(run[0], evs[0].t, evs[0].a) && run[0].pc[evs[0].t].k == k && k in run[0].disk
    requires forall i :: 1 <= i < |evs| ==> Enabled(run[i], evs[i].t, evs[i].a) && Harmless(run[i], evs[i].t, evs[i].a, k)
    ensures AgreesAt(run[|evs|], k) <==> run[0].pc[evs[0].t].d == run[0].disk[k] || k !in run[|evs|].cache
  {
    var d := run[0].pc[evs[0].t].d;
    assert run[1] == Apply(run[0], evs[0].t, evs[0].a);
    EntryStays(run, evs, |evs|, k, d);
  }

  lemma {:induction false} EntryStays(run: seq<State>, evs: seq<Event>, j: nat, k: Key, d: Sector)
    requires IsFreeRun(run, evs) && 1 <= j < |run| && k in run[0].disk
    requires k in run[1].cache && run[1].cache[k] == d && k in run[1].disk && run[1].disk[k] == run[0].disk[k]
    requires forall i :: 1 <= i < |evs| ==> Enabled(run[i], evs[i].t, evs[i].a) && Harmless(run[i], evs[i].t, evs[i].a, k)
    ensures k in run[j].disk && run[j].disk[k] == run[0].disk[k] && (k in run[j].cache ==> run[j].cache[k] == d)
  {
    if j > 1 {
      EntryStays(run, evs, j - 1, k, d);
      var s, e := run[j - 1], evs[j - 1];
      assert Enabled(s, e.t, e.a) && run[j] == Apply(s, e.t, e.a) && Harmless(s, e.t, e.a, k);
      OthersOnly(s, e.t, e.a, k);
    }
  }

  lemma {:induction false} OthersOnly(s: State, t: nat, a: Action, k: Key)
    requires Enabled(s, t, a) && Harmless(s, t, a, k)
    ensures (k in Apply(s, t, a).cache ==> k in s.cache && Apply(s, t, a).cache[k] == s.cache[k])
    ensures (k in Apply(s, t, a).disk <==> k in s.disk) && (k in s.disk ==> Apply(s, t, a).disk[k] == s.disk[k])
  {
  }

  /**
   A write that falls between a reader's disk read and its install: the reader leaves
   its bytes in the cache, and they are wrong exactly when the write changed the sector.
   */
  lemma {:induction false} InterveningWriteIff(s: State, r: nat, w: nat, d': Sector, evict: set<Key>)
    requires r < |s.pc| && w < |s.pc| && r != w && s.pc[w].Idle? && s.pc[r].Loaded?
    requires s.pc[r].k in s.disk && s.disk[s.pc[r].k] == s.pc[r].d
    ensures var k := s.pc[r].k;
            var s1 := Apply(s, w, DiskWrite(k, d', true, []));
            var s2 := Apply(s1, w, FinishWrite(evict));
            var s3 := Apply(s2, r, DoInstall(evict));
            AgreesAt(s3, k) <==> d' == s.disk[k]
  {
    var k := s.pc[r].k;
    var s2 := Apply(Apply(s, w, DiskWrite(k, d', true, [])), w, FinishWrite(evict));
    LastUpdateDecides([s2, Apply(s2, r, DoInstall(evict))], [Event(r, DoInstall(evict))], k);
  }

  /** Two writers whose cache updates come in the other order than their disk writes agree exactly if they wrote the same. */
  lemma {:induction false} TwoWritersIff(s: State, w: nat, v: nat, k: Key, d: Sector, d': Sector, evict: set<Key>)
    requires w < |s.pc| && v < |s.pc| && w != v && s.pc[w].Idle? && s.pc[v].Idle? && k in s.disk
    ensures var s1 := Apply(s, w, DiskWrite(k, d, true, []));
            var s2 := Apply(s1, v, DiskWrite(k, d', true, []));
            var s3 := Apply(s2, v, FinishWrite(evict));
            var s4 := Apply(s3, w, FinishWrite(evict));
            AgreesAt(s4, k) <==> d == d'
  {
    var s2 := Apply(Apply(s, w, DiskWrite(k, d, true, [])), v, DiskWrite(k, d', true, []));
    var s3 := Apply(s2, v, FinishWrite(evict));
    LastUpdateDecides([s3, Apply(s3, w, FinishWrite(evict))], [Event(w, FinishWrite(evict))], k);
  }
}
