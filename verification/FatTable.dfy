/**
 The file allocation table: how an entry sits in its sector, what a cluster
 chain is, and what allocating and freeing do to the set of live chains.
 */
module FatTable {
  import opened Lists

  type byte = x: int | 0 <= x < 256
  type Sector = s: seq<byte> | |s| == 512 witness seq(512, _ => 0)
  type Disk = seq<Sector>

  datatype Variant = Fat16 | Fat32

  /**
   Per-volume geometry; sectors are 512 bytes. The FAT comes first, then on FAT16 a
   fixed root directory, then `clusters` data clusters.
   */
  datatype Geometry = Geometry(
    variant: Variant,
    sectorsPerCluster: nat,
    fatStart: nat,
    sectorsPerFat: nat,
    rootStart: nat,
    rootCount: nat,
    dataStart: nat,
    clusters: nat)
  {
    function EntrySize(): nat { if variant.Fat32? then 4 else 2 }

    function PerSector(): nat { if variant.Fat32? then 128 else 256 }

    function TotalEntries(): nat { if variant.Fat32? then sectorsPerFat * 512 / 4 else sectorsPerFat * 512 / 2 }

    /** One more than the largest number an entry can hold: 28 bits on FAT32, 16 on FAT16. */
    function Modulus(): nat { if variant.Fat32? then 0x1000_0000 else 0x1_0000 }

    function EocMin(): nat { if variant.Fat32? then 0x0FFF_FFF8 else 0xFFF8 }

    function EocMarker(): nat { if variant.Fat32? then 0x0FFF_FFFF else 0xFFFF }

    predicate IsEoc(cluster: nat) { cluster >= EocMin() }

    function ClusterBytes(): nat { sectorsPerCluster * 512 }

    /** The regions do not overlap, and the cluster count is one the variant admits. */
    predicate Valid() {
      && 1 <= sectorsPerCluster
      && fatStart + sectorsPerFat <= rootStart
      && rootStart + rootCount == dataStart && (variant.Fat32? ==> rootCount == 0)
      && 2 + clusters <= TotalEntries()
      && (if variant.Fat32? then clusters <= 0x0FFF_FFF5 else clusters < 65525)
    }

    predicate Fits(disk: Disk) {
      dataStart + clusters * sectorsPerCluster <= |disk|
    }
  }

  // ---------------------------------------------------------------- entries in sectors

  function EntryOffset(g: Geometry, cluster: nat): nat {
    if g.variant.Fat32? then cluster * 4 else cluster * 2
  }

  /** Where the entry starts in its sector; no entry crosses into the next one. */
  function EntryPlace(g: Geometry, cluster: nat): (o: nat)
    ensures o + g.EntrySize() <= 512
  {
    PlaceFits(g, cluster);
    EntryOffset(g, cluster) % 512
  }

  lemma {:induction false} Mod512(q: nat, r: nat)
    requires r < 512
    ensures (512 * q + r) / 512 == q && (512 * q + r) % 512 == r
  {
  }

  lemma {:induction false} PlaceFits(g: Geometry, cluster: nat)
    ensures var n := g.PerSector();
            EntryOffset(g, cluster) / 512 == cluster / n && EntryOffset(g, cluster) % 512 == cluster % n * g.EntrySize()
  {
    var n := g.PerSector();
    var q, r := cluster / n, cluster % n;
    assert EntryOffset(g, cluster) == 512 * q + r * g.EntrySize();
    Mod512(q, r * g.EntrySize());
  }

  function EntryLba(g: Geometry, cluster: nat): nat {
    g.fatStart + EntryOffset(g, cluster) / 512
  }

  function At(s: Sector, i: nat): (b: int)
    requires i < 512
    ensures 0 <= b < 256
  {
    s[i]
  }

  /** The number stored at byte offset `off` of a FAT sector; FAT32 ignores the top four bits. */
  function EntryInSector(v: Variant, s: Sector, off: nat): (value: nat)
    requires off + 4 <= 512 || (v.Fat16? && off + 2 <= 512)
    ensures value < if v.Fat32? then 0x1000_0000 else 0x1_0000
  {
    if v.Fat32? then (At(s, off) + 256 * At(s, off + 1) + 65536 * At(s, off + 2) + 16777216 * At(s, off + 3)) % 0x1000_0000
    else At(s, off) + 256 * At(s, off + 1)
  }

  /** FAT32 keeps the reserved top four bits of the slot it overwrites. */
  function PutEntry(v: Variant, s: Sector, off: nat, value: nat): Sector
    requires off + 4 <= 512 || (v.Fat16? && off + 2 <= 512)
  {
    if v.Fat32? then
      s[off := value % 256][off + 1 := value / 256 % 256][off + 2 := value / 65536 % 256]
       [off + 3 := At(s, off + 3) / 16 * 16 + value / 16777216 % 16]
    else
      s[off := value % 256][off + 1 := value / 256 % 256]
  }

  /** A read that fails (a sector past the end of the disk) answers 0x0FFFFFFF, an end-of-chain in both variants. */
  function NextCluster(g: Geometry, disk: Disk, cluster: nat): nat {
    var lba := EntryLba(g, cluster);
    if lba < |disk| then EntryInSector(g.variant, disk[lba], EntryPlace(g, cluster))
    else 0x0FFF_FFFF
  }

  function SetNextCluster(g: Geometry, disk: Disk, cluster: nat, value: nat): Disk {
    var lba := EntryLba(g, cluster);
    if lba < |disk| then disk[lba := PutEntry(g.variant, disk[lba], EntryPlace(g, cluster), value)]
    else disk
  }

  /** The whole table, one number per entry. */
  ghost function Table(g: Geometry, disk: Disk): (t: seq<nat>)
    ensures |t| == g.TotalEntries()
  {
    seq(g.TotalEntries(), c requires 0 <= c < g.TotalEntries() => NextCluster(g, disk, c))
  }

  lemma {:induction false} DivInSteps(x: nat)
    ensures x / 65536 == x / 256 / 256
    ensures x / 16777216 == x / 65536 / 256
  {
  }

  lemma {:induction false} TwoBytes(value: nat)
    ensures value % 256 + 256 * (value / 256 % 256) == value % 0x1_0000
  {
    DivInSteps(value);
  }

  lemma {:induction false} FourBytes(value: nat, top: nat)
    ensures (value % 256 + 256 * (value / 256 % 256) + 65536 * (value / 65536 % 256)
             + 16777216 * (top * 16 + value / 16777216 % 16)) % 0x1000_0000 == value % 0x1000_0000
  {
    DivInSteps(value);
    var high := value / 16777216;
    assert value == value % 256 + 256 * (value / 256 % 256) + 65536 * (value / 65536 % 256) + 16777216 * high;
    Reduce(value - 16777216 * high, high, top);
  }

  lemma {:induction false} Reduce(low: nat, high: nat, top: nat)
    requires low < 16777216
    ensures (low + 16777216 * (top * 16 + high % 16)) % 0x1000_0000 == (low + 16777216 * high) % 0x1000_0000
  {
    var r := low + 16777216 * (high % 16);
    assert low + 16777216 * (top * 16 + high % 16) == r + 0x1000_0000 * top;
    assert low + 16777216 * high == r + 0x1000_0000 * (high / 16);
    Low28(r, top);
    Low28(r, high / 16);
  }

  lemma {:induction false} Low28(r: nat, k: nat)
    ensures (r + 0x1000_0000 * k) % 0x1000_0000 == r % 0x1000_0000
  {
  }

  lemma {:induction false} PutThenGet(v: Variant, s: Sector, off: nat, value: nat)
    requires off + 4 <= 512 || (v.Fat16? && off + 2 <= 512)
    ensures EntryInSector(v, PutEntry(v, s, off, value), off)
         == value % (if v.Fat32? then 0x1000_0000 else 0x1_0000)
  {
    if v.Fat32? {
      FourBytes(value, At(s, off + 3) / 16);
    } else {
      TwoBytes(value);
    }
  }

  /** Writing one entry changes that entry alone, wherever the two sit relative to each other. */
  lemma {:induction false} EntryAfterSet(g: Geometry, disk: Disk, cluster: nat, value: nat, other: nat)
    ensures NextCluster(g, SetNextCluster(g, disk, cluster, value), other)
         == if other == cluster && EntryLba(g, cluster) < |disk| then value % g.Modulus()
            else NextCluster(g, disk, other)
  {
    var lba := EntryLba(g, cluster);
    if lba < |disk| {
      if other == cluster {
        PutThenGet(g.variant, disk[lba], EntryPlace(g, cluster), value);
      } else if EntryLba(g, other) == lba {
        var a, b := EntryPlace(g, cluster), EntryPlace(g, other);
        assert if g.variant.Fat32? then a + 4 <= b || b + 4 <= a else a + 2 <= b || b + 2 <= a;
      }
    }
  }

  /** On the FAT region the same fact reads: the table is updated at one index, and no other sector moves. */
  lemma {:induction false} TableAfterSet(g: Geometry, disk: Disk, cluster: nat, value: nat)
    requires cluster < g.TotalEntries() && value < g.Modulus()
    requires g.fatStart + g.sectorsPerFat <= |disk|
    ensures var d := SetNextCluster(g, disk, cluster, value);
            && |d| == |disk|
            && Table(g, d) == Table(g, disk)[cluster := value]
            && forall lba :: 0 <= lba < |disk| && !(g.fatStart <= lba < g.fatStart + g.sectorsPerFat) ==> d[lba] == disk[lba]
  {
    hide PutEntry;
    hide EntryInSector;
    var d := SetNextCluster(g, disk, cluster, value);
    assert EntryLba(g, cluster) < g.fatStart + g.sectorsPerFat;
    forall c | 0 <= c < g.TotalEntries()
      ensures Table(g, d)[c] == Table(g, disk)[cluster := value][c]
    {
      EntryAfterSet(g, disk, cluster, value, c);
    }
  }

  /** Entries depend on the FAT region only. */
  lemma {:induction false} TableFrame(g: Geometry, d0: Disk, d1: Disk)
    requires |d0| == |d1| && g.fatStart + g.sectorsPerFat <= |d0|
    requires forall lba :: g.fatStart <= lba < g.fatStart + g.sectorsPerFat ==> d0[lba] == d1[lba]
    ensures Table(g, d0) == Table(g, d1)
  {
    forall c | 0 <= c < g.TotalEntries()
      ensures Table(g, d0)[c] == Table(g, d1)[c]
    {
      assert g.fatStart <= EntryLba(g, c) < g.fatStart + g.sectorsPerFat;
    }
  }

  // ---------------------------------------------------------------- chains

  predicate IsDataCluster(g: Geometry, c: nat) { 2 <= c < 2 + g.clusters }

  /** `cs` is the complete chain that starts at `cs[0]`: linked through the table and ended by an EOC entry. */
  ghost predicate IsChain(g: Geometry, t: seq<nat>, cs: seq<nat>) {
    && |cs| > 0
    && (forall i :: 0 <= i < |cs| ==> IsDataCluster(g, cs[i]) && cs[i] < |t|)
    && (forall i :: 0 <= i < |cs| - 1 ==> t[cs[i]] == cs[i + 1])
    && g.IsEoc(t[cs[|cs| - 1]])
  }

  /** A file's first-cluster field: 0 for an empty file. */
  function First(cs: seq<nat>): nat { if cs == [] then 0 else cs[0] }

  predicate Disjoint(a: seq<nat>, b: seq<nat>) {
    forall i, j :: 0 <= i < |a| && 0 <= j < |b| ==> a[i] != b[j]
  }

  /** Every live file owns a chain (or nothing), and no two share a cluster. */
  ghost predicate ChainsOk(g: Geometry, t: seq<nat>, live: map<nat, seq<nat>>) {
    && (forall id :: id in live ==> live[id] == [] || IsChain(g, t, live[id]))
    && (forall a, b :: a in live && b in live && a != b ==> Disjoint(live[a], live[b]))
  }

  lemma {:induction false} ChainShift(g: Geometry, t: seq<nat>, cs: seq<nat>, i: nat, j: nat, k: nat)
    requires g.Valid() && IsChain(g, t, cs) && i < j && j + k < |cs| && cs[i] == cs[j]
    ensures cs[i + k] == cs[j + k]
  {
    if k > 0 {
      ChainShift(g, t, cs, i, j, k - 1);
      assert t[cs[i + k - 1]] == cs[i + k] && t[cs[j + k - 1]] == cs[j + k];
    }
  }

  /** An EOC-terminated chain never revisits a cluster: it is acyclic. */
  lemma {:induction false} ChainAcyclic(g: Geometry, t: seq<nat>, cs: seq<nat>)
    requires g.Valid() && IsChain(g, t, cs)
    ensures Distinct(cs)
  {
    forall i, j | 0 <= i < j < |cs|
      ensures cs[i] != cs[j]
    {
      var k := |cs| - 1 - j;
      assert t[cs[i + k]] == cs[i + k + 1];
      if cs[i] == cs[j] {
        ChainShift(g, t, cs, i, j, k);
        assert false;
      }
    }
  }

  /** A chain is determined by its head: two chains with the same first cluster are the same chain. */
  lemma {:induction false} ChainUnique(g: Geometry, t: seq<nat>, a: seq<nat>, b: seq<nat>)
    requires g.Valid() && IsChain(g, t, a) && IsChain(g, t, b) && a[0] == b[0]
    ensures a == b
    decreases |a|
  {
    assert |a| > 1 ==> t[a[0]] == a[1];
    assert |b| > 1 ==> t[b[0]] == b[1];
    if |a| > 1 && |b| > 1 {
      assert IsChain(g, t, a[1..]) by { ChainTail(g, t, a); }
      assert IsChain(g, t, b[1..]) by { ChainTail(g, t, b); }
      ChainUnique(g, t, a[1..], b[1..]);
      assert a == [a[0]] + a[1..] && b == [b[0]] + b[1..];
    }
  }

  lemma {:induction false} ChainTail(g: Geometry, t: seq<nat>, cs: seq<nat>)
    requires IsChain(g, t, cs) && |cs| > 1
    ensures IsChain(g, t, cs[1..])
  {
    var d := cs[1..];
    forall i | 0 <= i < |d| - 1
      ensures t[d[i]] == d[i + 1]
    {
      assert t[cs[i + 1]] == cs[i + 2];
    }
  }

  /** A chain whose entries the table still holds is still a chain. */
  lemma {:induction false} ChainFrame(g: Geometry, t0: seq<nat>, t1: seq<nat>, cs: seq<nat>)
    requires IsChain(g, t0, cs) && |t0| == |t1|
    requires forall i :: 0 <= i < |cs| ==> t1[cs[i]] == t0[cs[i]]
    ensures IsChain(g, t1, cs)
  {
  }

  /** A free entry belongs to no chain. */
  lemma {:induction false} FreeNotOnChain(g: Geometry, t: seq<nat>, cs: seq<nat>, c: nat)
    requires g.Valid() && IsChain(g, t, cs) && c < |t| && t[c] == 0
    ensures c !in cs
  {
    forall i | 0 <= i < |cs|
      ensures t[cs[i]] != 0
    {
      assert i < |cs| - 1 ==> t[cs[i]] == cs[i + 1];
    }
  }

  // ---------------------------------------------------------------- what the operations do to the chains

  ghost function FreeSet(t: seq<nat>): set<nat> { set c | 2 <= c < |t| && t[c] == 0 }

  /** Where the allocator starts looking. */
  function HintStart(hint: nat, total: nat): nat {
    var h := if hint < 2 then 2 else hint;
    if h >= total then 2 else h
  }

  /** The allocator's choice: the first free entry at or after the hint, or else the first one of all. */
  ghost predicate IsChosen(free: set<nat>, total: nat, hint: nat, c: nat) {
    var h := HintStart(hint, total);
    && c in free
    && (forall x :: x in free && h <= x ==> h <= c <= x)
    && ((forall x :: x in free ==> x < h) ==> forall x :: x in free ==> c <= x)
  }

  /** `cs` are the choices of successive allocations. */
  ghost predicate AreChosen(free: set<nat>, total: nat, hint: nat, cs: seq<nat>)
    decreases |cs|
  {
    cs == [] || (IsChosen(free, total, hint, cs[0]) && AreChosen(free - {cs[0]}, total, cs[0] + 1, cs[1..]))
  }

  ghost function FreeData(g: Geometry, free: set<nat>, from: nat): set<nat> { set c | c in free && from <= c && IsDataCluster(g, c) }

  /**
   The next `n` allocations, or as many as there are free entries, find enough free
   clusters between the hint and the end of the data; or no entry from the hint on is a
   spare one and there are enough free clusters in all.
   */
  ghost predicate EnoughData(g: Geometry, free: set<nat>, total: nat, hint: nat, n: nat) {
    var h := HintStart(hint, total);
    var m := if n < |free| then n else |free|;
    || m <= |FreeData(g, free, h)|
    || (m <= |FreeData(g, free, 0)| && forall x :: x in free && h <= x ==> IsDataCluster(g, x))
  }

  /** `free` is a free set of a table with `total` entries. */
  ghost predicate FreeOf(g: Geometry, free: set<nat>, total: nat) {
    2 + g.clusters <= total && forall c :: c in free ==> 2 <= c < total
  }

  /** Taking out the chosen cluster takes it out of the free data. */
  lemma {:induction false} FreeDataLess(g: Geometry, free: set<nat>, from: nat, from': nat, c: nat)
    requires c in free && IsDataCluster(g, c) && from <= c
    requires forall x :: x in free && x != c && IsDataCluster(g, x) ==> (from <= x <==> from' <= x)
    ensures |FreeData(g, free - {c}, from')| == |FreeData(g, free, from)| - 1
  {
    assert FreeData(g, free - {c}, from') == FreeData(g, free, from) - {c};
  }

  lemma {:induction false} FewerData(g: Geometry, free: set<nat>, from: nat)
    ensures |FreeData(g, free, from)| <= |FreeData(g, free, 0)| <= |free|
  {
    SubsetSize(FreeData(g, free, from), FreeData(g, free, 0));
    SubsetSize(FreeData(g, free, 0), free);
  }

  lemma {:induction false} SubsetSize<A>(a: set<A>, b: set<A>)
    requires a <= b
    ensures |a| <= |b|
  {
    assert b == a + (b - a);
  }

  /** One allocation: the choice is a cluster of the volume and what is left is enough for the rest. */
  lemma {:induction false} ChoiceInDataIff(g: Geometry, free: set<nat>, total: nat, hint: nat, c: nat, n: nat)
    requires FreeOf(g, free, total) && IsChosen(free, total, hint, c) && n >= 1
    ensures EnoughData(g, free, total, hint, n) <==> IsDataCluster(g, c) && EnoughData(g, free - {c}, total, c + 1, n - 1)
  {
    var h := HintStart(hint, total);
    FewerData(g, free, h);
    FewerData(g, free - {c}, c + 1);
    if !IsDataCluster(g, c) {
      assert FreeData(g, free, h) == {};
      assert h <= c || FreeData(g, free, 0) == {};
    } else {
      FreeDataLess(g, free, 0, 0, c);
      if h <= c {
        ChosenAhead(g, free, total, hint, c, n);
      } else {
        ChosenBehind(g, free, total, hint, c, n);
      }
    }
  }

  /** The choice lies at or after the hint. */
  lemma {:induction false} ChosenAhead(g: Geometry, free: set<nat>, total: nat, hint: nat, c: nat, n: nat)
    requires FreeOf(g, free, total) && IsChosen(free, total, hint, c) && n >= 1 && IsDataCluster(g, c) && HintStart(hint, total) <= c
    requires |FreeData(g, free - {c}, 0)| == |FreeData(g, free, 0)| - 1
    ensures EnoughData(g, free, total, hint, n) <==> EnoughData(g, free - {c}, total, c + 1, n - 1)
  {
    var h := HintStart(hint, total);
    if c + 1 < total {
      FreeDataLess(g, free, h, c + 1, c);
    } else {
      assert FreeData(g, free, 0) == free && FreeData(g, free - {c}, 0) == free - {c};
    }
  }

  /** Nothing is free from the hint on: the search starts over. */
  lemma {:induction false} ChosenBehind(g: Geometry, free: set<nat>, total: nat, hint: nat, c: nat, n: nat)
    requires FreeOf(g, free, total) && IsChosen(free, total, hint, c) && n >= 1 && IsDataCluster(g, c) && c < HintStart(hint, total)
    requires |FreeData(g, free - {c}, 0)| == |FreeData(g, free, 0)| - 1
    ensures EnoughData(g, free, total, hint, n) <==> EnoughData(g, free - {c}, total, c + 1, n - 1)
  {
    assert FreeData(g, free, HintStart(hint, total)) == {};
    assert FreeData(g, free - {c}, c + 1) == FreeData(g, free - {c}, 0);
  }

  /** Successive allocations hand out clusters of the volume, all of them, exactly when there is enough data for them. */
  lemma {:induction false} ChoicesInDataIff(g: Geometry, free: set<nat>, total: nat, hint: nat, cs: seq<nat>)
    requires FreeOf(g, free, total) && AreChosen(free, total, hint, cs)
    ensures (forall i :: 0 <= i < |cs| ==> IsDataCluster(g, cs[i])) <==> EnoughData(g, free, total, hint, |cs|)
    decreases |cs|
  {
    hide EnoughData;
    hide IsChosen;
    if cs == [] {
      EnoughForNone(g, free, total, hint);
    } else {
      ChoiceInDataIff(g, free, total, hint, cs[0], |cs|);
      ChoicesInDataIff(g, free - {cs[0]}, total, cs[0] + 1, cs[1..]);
      assert forall i :: 0 < i < |cs| ==> cs[i] == cs[1..][i - 1];
      assert forall i :: 0 <= i < |cs[1..]| ==> cs[1..][i] == cs[i + 1];
    }
  }

  lemma {:induction false} EnoughForNone(g: Geometry, free: set<nat>, total: nat, hint: nat)
    ensures EnoughData(g, free, total, hint, 0)
  {
  }

  /** The table may have more entries than the volume has clusters; none of those is marked free. */
  ghost predicate SlackReserved(g: Geometry, free: set<nat>) { forall c :: c in free ==> IsDataCluster(g, c) }

  /** Wherever the hint points and however many are wanted, there is enough data exactly when no spare entry is free. */
  lemma {:induction false} EnoughAlwaysIff(g: Geometry, free: set<nat>, total: nat)
    requires FreeOf(g, free, total)
    ensures SlackReserved(g, free) <==> forall hint, n :: EnoughData(g, free, total, hint, n)
  {
    if SlackReserved(g, free) {
      assert FreeData(g, free, 0) == free;
    } else {
      var x :| x in free && !IsDataCluster(g, x);
      assert HintStart(x, total) == x && FreeData(g, free, x) == {};
      assert !EnoughData(g, free, total, x, 1);
    }
  }

  /** With entries to spare in the table, the allocator can pass over a free cluster and hand out one the volume does not have. */
  lemma {:induction false} SlackHandedOut(g: Geometry) returns (t: seq<nat>, hint: nat, c: nat)
    requires g.Valid() && g.clusters >= 1 && g.TotalEntries() > 2 + g.clusters
    ensures |t| == g.TotalEntries() && 2 in FreeSet(t) && IsDataCluster(g, 2)
    ensures IsChosen(FreeSet(t), |t|, hint, c) && !IsDataCluster(g, c)
  {
    var n := g.TotalEntries();
    t := [0, 0, 0] + seq(g.clusters - 1, _ => g.EocMarker()) + seq(n - 2 - g.clusters, _ => 0);
    assert t[2] == 0 && t[2 + g.clusters] == 0;
    hint, c := 2 + g.clusters, 2 + g.clusters;
  }

  /** Link the free entry `c` behind the chain `cs` (or start a chain with it). */
  ghost function Linked(g: Geometry, t: seq<nat>, cs: seq<nat>, c: nat): seq<nat>
    requires c < |t| && (cs != [] ==> cs[|cs| - 1] < |t|)
  {
    var ended := t[c := g.EocMarker()];
    if cs == [] then ended else ended[cs[|cs| - 1] := c]
  }

  /** Zero the entries of `cs`, front to back. */
  ghost function Released(t: seq<nat>, cs: seq<nat>): (r: seq<nat>)
    requires forall i :: 0 <= i < |cs| ==> cs[i] < |t|
    ensures |r| == |t|
  {
    if cs == [] then t else Released(t, cs[..|cs| - 1])[cs[|cs| - 1] := 0]
  }

  lemma {:induction false} ReleasedAt(t: seq<nat>, cs: seq<nat>, c: nat)
    requires forall i :: 0 <= i < |cs| ==> cs[i] < |t|
    requires c < |t|
    ensures Released(t, cs)[c] == if c in cs then 0 else t[c]
  {
    if cs != [] {
      ReleasedAt(t, cs[..|cs| - 1], c);
      assert cs == cs[..|cs| - 1] + [cs[|cs| - 1]];
    }
  }

  lemma {:induction false} GrownIsChain(g: Geometry, t: seq<nat>, cs: seq<nat>, c: nat)
    requires g.Valid() && (cs == [] || IsChain(g, t, cs)) && c < |t| && t[c] == 0
    ensures IsChain(g, Linked(g, t, cs, c), cs + [c]) <==> IsDataCluster(g, c)
  {
    var t', e := Linked(g, t, cs, c), cs + [c];
    assert e[|e| - 1] == c;
    if cs != [] {
      ChainAcyclic(g, t, cs);
      FreeNotOnChain(g, t, cs, c);
      forall i | 0 <= i < |e| - 1
        ensures t'[e[i]] == e[i + 1]
      {
        assert i < |cs| - 1 ==> t[cs[i]] == cs[i + 1];
      }
    }
  }

  lemma {:induction false} OtherChainKept(g: Geometry, t: seq<nat>, cs: seq<nat>, c: nat, other: seq<nat>)
    requires g.Valid() && (cs == [] || IsChain(g, t, cs)) && c < |t| && t[c] == 0
    requires (other == [] || IsChain(g, t, other)) && Disjoint(cs, other)
    ensures (other == [] || IsChain(g, Linked(g, t, cs, c), other)) && c !in other
  {
    if other != [] {
      FreeNotOnChain(g, t, other, c);
      ChainFrame(g, t, Linked(g, t, cs, c), other);
    }
  }

  lemma {:induction false} LinkedFree(g: Geometry, t: seq<nat>, cs: seq<nat>, c: nat)
    requires g.Valid() && (cs == [] || IsChain(g, t, cs)) && 2 <= c < |t| && t[c] == 0
    ensures FreeSet(Linked(g, t, cs, c)) == FreeSet(t) - {c}
  {
    if cs != [] {
      FreeNotOnChain(g, t, cs, c);
      assert forall x :: x in FreeSet(t) && x == cs[|cs| - 1] ==> false;
    }
  }

  /**
   Allocation and linking: every other chain survives, and the grown file has a chain,
   with the new cluster at its end, exactly when the volume has that cluster.
   */
  lemma {:induction false} GrowKeepsChains(g: Geometry, t: seq<nat>, live: map<nat, seq<nat>>, id: nat, c: nat)
    requires g.Valid() && |t| == g.TotalEntries() && ChainsOk(g, t, live)
    requires id in live && 2 <= c < |t| && t[c] == 0
    ensures ChainsOk(g, Linked(g, t, live[id], c), live[id := live[id] + [c]]) <==> IsDataCluster(g, c)
    ensures FreeSet(Linked(g, t, live[id], c)) == FreeSet(t) - {c}
  {
    var cs := live[id];
    assert cs != [] ==> cs[|cs| - 1] < |t|;
    hide IsChain;
    hide Linked;
    var live' := live[id := cs + [c]];
    GrownIsChain(g, t, cs, c);
    LinkedFree(g, t, cs, c);
    assert live'[id] == cs + [c];
    forall other | other in live && other != id
      ensures live[other] == [] || IsChain(g, Linked(g, t, cs, c), live[other])
      ensures Disjoint(cs + [c], live[other]) && Disjoint(live[other], cs + [c])
    {
      assert Disjoint(cs, live[other]);
      OtherChainKept(g, t, cs, c, live[other]);
    }
  }

  lemma {:induction false} ZeroingKeepsChains(g: Geometry, t: seq<nat>, t': seq<nat>, live: map<nat, seq<nat>>, id: nat)
    requires g.Valid() && |t'| == |t| && ChainsOk(g, t, live) && id in live
    requires forall c :: 0 <= c < |t| ==> t'[c] == if c in live[id] then 0 else t[c]
    ensures ChainsOk(g, t', live[id := []])
  {
    forall other | other in live && other != id && live[other] != []
      ensures IsChain(g, t', live[other])
    {
      assert Disjoint(live[id], live[other]);
      ChainFrame(g, t, t', live[other]);
    }
  }

  /** Freeing one file's chain leaves the others alone. */
  lemma {:induction false} ReleaseKeepsChains(g: Geometry, t: seq<nat>, live: map<nat, seq<nat>>, id: nat)
    requires g.Valid() && |t| == g.TotalEntries() && ChainsOk(g, t, live) && id in live
    ensures ChainsOk(g, Released(t, live[id]), live[id := []])
  {
    forall c | 0 <= c < |t|
      ensures Released(t, live[id])[c] == if c in live[id] then 0 else t[c]
    {
      ReleasedAt(t, live[id], c);
    }
    ZeroingKeepsChains(g, t, Released(t, live[id]), live, id);
  }

  /** One file-system operation, seen from the table. A write is a series of `Grow`s; mkdir is `Create` then `Grow`. */
  datatype Op = Create(id: nat) | Grow(id: nat, cluster: nat) | Truncate(id: nat) | Unlink(id: nat)

  datatype State = State(t: seq<nat>, live: map<nat, seq<nat>>)

  ghost predicate Enabled(s: State, op: Op) {
    match op
    case Create(id) => id !in s.live
    case Grow(id, c) => id in s.live && 2 <= c < |s.t| && s.t[c] == 0 && (s.live[id] != [] ==> s.live[id][|s.live[id]| - 1] < |s.t|)
    case Truncate(id) => id in s.live && forall i :: 0 <= i < |s.live[id]| ==> s.live[id][i] < |s.t|
    case Unlink(id) => id in s.live && forall i :: 0 <= i < |s.live[id]| ==> s.live[id][i] < |s.t|
  }

  ghost function Apply(g: Geometry, s: State, op: Op): State
    requires Enabled(s, op)
  {
    match op
    case Create(id) => State(s.t, s.live[id := []])
    case Grow(id, c) => State(Linked(g, s.t, s.live[id], c), s.live[id := s.live[id] + [c]])
    case Truncate(id) => State(Released(s.t, s.live[id]), s.live[id := []])
    case Unlink(id) => State(Released(s.t, s.live[id]), s.live - {id})
  }

  ghost predicate RunOk(g: Geometry, s: State, ops: seq<Op>)
    decreases |ops|
  {
    ops == [] || (Enabled(s, ops[0]) && RunOk(g, Apply(g, s, ops[0]), ops[1..]))
  }

  ghost function Run(g: Geometry, s: State, ops: seq<Op>): State
    requires RunOk(g, s, ops)
    decreases |ops|
  {
    if ops == [] then s else Run(g, Apply(g, s, ops[0]), ops[1..])
  }

  ghost predicate Sound(g: Geometry, s: State) { |s.t| == g.TotalEntries() && ChainsOk(g, s.t, s.live) }

  /** Whatever an operation does, it keeps the chains sound; only a growth by a cluster the volume does not have breaks them. */
  lemma {:induction false} StepSoundIff(g: Geometry, s: State, op: Op)
    requires g.Valid() && Sound(g, s) && Enabled(s, op)
    ensures Sound(g, Apply(g, s, op)) <==> (op.Grow? ==> IsDataCluster(g, op.cluster))
  {
    match op
    case Create(_) =>
    case Grow(id, c) => GrowKeepsChains(g, s.t, s.live, id, c);
    case Truncate(id) => ReleaseKeepsChains(g, s.t, s.live, id);
    case Unlink(id) =>
      ReleaseKeepsChains(g, s.t, s.live, id);
      var s' := Apply(g, s, op);
      assert forall other :: other in s'.live ==> s'.live[other] == s.live[id := []][other];
  }

  ghost predicate AlwaysSound(g: Geometry, s: State, ops: seq<Op>)
    requires RunOk(g, s, ops)
    decreases |ops|
  {
    Sound(g, s) && (ops == [] || AlwaysSound(g, Apply(g, s, ops[0]), ops[1..]))
  }

  predicate GrowsInData(g: Geometry, ops: seq<Op>) {
    forall i :: 0 <= i < |ops| && ops[i].Grow? ==> IsDataCluster(g, ops[i].cluster)
  }

  /** Over every sequence of operations the chains stay sound throughout exactly when every growth was by a cluster of the volume. */
  lemma {:induction false} RunKeepsChains(g: Geometry, s: State, ops: seq<Op>)
    requires g.Valid() && Sound(g, s) && RunOk(g, s, ops)
    ensures AlwaysSound(g, s, ops) <==> GrowsInData(g, ops)
    decreases |ops|
  {
    if ops != [] {
      StepSoundIff(g, s, ops[0]);
      var rest := ops[1..];
      assert GrowsInData(g, ops) <==> (ops[0].Grow? ==> IsDataCluster(g, ops[0].cluster)) && GrowsInData(g, rest) by {
        assert forall i :: 0 < i < |ops| ==> ops[i] == rest[i - 1];
        assert forall i :: 0 <= i < |rest| ==> rest[i] == ops[i + 1];
      }
      if Sound(g, Apply(g, s, ops[0])) {
        RunKeepsChains(g, Apply(g, s, ops[0]), rest);
      }
    }
  }

  /** Sound chains are acyclic. */
  lemma {:induction false} SoundAcyclic(g: Geometry, s: State, id: nat)
    requires g.Valid() && Sound(g, s) && id in s.live
    ensures Distinct(s.live[id])
  {
    if s.live[id] != [] { ChainAcyclic(g, s.t, s.live[id]); }
  }
}
