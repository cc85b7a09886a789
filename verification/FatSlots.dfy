/**
 Walking a directory's slots on disk. The FAT16 root is a fixed run of sectors;
 every other directory is a cluster chain. Either way the walker hands out slot
 0, 1, 2, ... with the sector and offset that address it.
 */
module FatSlots {
  import opened Lists
  import opened FatTable
  import opened FatVolume
  import opened FatDriver
  import opened FatDir

  /** Where a directory lies. */
  datatype Place = Root | InChain(cs: seq<nat>)

  ghost predicate PlaceOk(g: Geometry, disk: Disk, d: Place) {
    && g.Valid() && g.Fits(disk)
    && match d
       case Root => g.variant.Fat16?
       case InChain(cs) => IsChain(g, Table(g, disk), cs)
  }

  /** What the driver knows of a directory's place: whether it is the fixed root, and if not, its first cluster. */
  predicate IsAt(d: Place, inRoot: bool, dirCluster: nat) {
    d.Root? == inRoot && (d.InChain? ==> d.cs != [] && d.cs[0] == dirCluster)
  }

  /** The sectors of one cluster, and of a chain, in order. */
  ghost function ClusterLbas(g: Geometry, c: nat): (r: seq<int>)
    ensures |r| == g.sectorsPerCluster
  {
    seq(g.sectorsPerCluster, r requires 0 <= r < g.sectorsPerCluster => ClusterLba(g, c) + r)
  }

  ghost function ChainLbas(g: Geometry, cs: seq<nat>): seq<int> {
    if cs == [] then [] else ChainLbas(g, cs[..|cs| - 1]) + ClusterLbas(g, cs[|cs| - 1])
  }

  ghost function DirLbas(g: Geometry, d: Place): seq<int> {
    match d
    case Root => seq(g.rootCount, i requires 0 <= i < g.rootCount => g.rootStart + i)
    case InChain(cs) => ChainLbas(g, cs)
  }

  /** The list of sectors agrees with the address arithmetic used for files. */
  lemma {:induction false} ChainLbasAt(g: Geometry, disk: Disk, cs: seq<nat>)
    requires g.Valid() && g.Fits(disk) && InData(g, cs)
    ensures |ChainLbas(g, cs)| == |cs| * g.sectorsPerCluster
    ensures forall s :: 0 <= s < |ChainLbas(g, cs)| ==> ChainLbas(g, cs)[s] == SectorLba(g, cs, s) && 0 <= ChainLbas(g, cs)[s] < |disk|
  {
    hide SectorLba;
    hide ClusterLba;
    if cs != [] {
      var n := |cs| - 1;
      var spc := g.sectorsPerCluster;
      ChainLbasAt(g, disk, cs[..n]);
      MulSucc(n, spc);
      forall s | 0 <= s < n * spc + spc
        ensures s < |cs| * spc && ChainLbas(g, cs)[s] == SectorLba(g, cs, s) && 0 <= ChainLbas(g, cs)[s] < |disk|
      {
        if s < n * spc {
          PrefixLba(g, cs[..n], cs, s);
          assert ChainLbas(g, cs)[s] == ChainLbas(g, cs[..n])[s];
        } else {
          LastClusterSector(g, disk, cs, s - n * spc);
        }
      }
    }
  }

  lemma {:induction false} LastClusterSector(g: Geometry, disk: Disk, cs: seq<nat>, r: nat)
    requires g.Valid() && g.Fits(disk) && InData(g, cs) && cs != [] && r < g.sectorsPerCluster
    ensures (|cs| - 1) * g.sectorsPerCluster + r < |cs| * g.sectorsPerCluster
    ensures SectorLba(g, cs, (|cs| - 1) * g.sectorsPerCluster + r) == ClusterLba(g, cs[|cs| - 1]) + r
    ensures 0 <= ClusterLba(g, cs[|cs| - 1]) + r < |disk|
  {
    var n := |cs| - 1;
    MulMonotone(n + 1, |cs|, g.sectorsPerCluster);
    DivMod(n * g.sectorsPerCluster + r, n, r, g.sectorsPerCluster);
    SectorOfCluster(g, disk, cs[n], r);
  }

  lemma {:induction false} DirLbasOk(g: Geometry, disk: Disk, d: Place)
    requires PlaceOk(g, disk, d)
    ensures forall s :: 0 <= s < |DirLbas(g, d)| ==> 0 <= DirLbas(g, d)[s] < |disk|
  {
    if d.InChain? {
      ChainLbasAt(g, disk, d.cs);
    }
  }

  lemma {:induction false} ChainLbasPrefix(g: Geometry, cs: seq<nat>, i: nat)
    requires i <= |cs|
    ensures ChainLbas(g, cs[..i]) <= ChainLbas(g, cs)
    ensures i < |cs| ==> ChainLbas(g, cs[..i]) + ClusterLbas(g, cs[i]) <= ChainLbas(g, cs)
  {
    if i == |cs| {
      assert cs[..i] == cs;
    } else {
      var n := |cs| - 1;
      ChainLbasPrefix(g, cs[..n], i);
      assert cs[..n][..i] == cs[..i];
    }
  }

  function SlotIn(sector: Sector, ent: nat): (s: Slot)
    requires ent < 16
  {
    sector[ent * 32..ent * 32 + 32]
  }

  /** The directory as a sequence of slots. */
  ghost function DirSlots(g: Geometry, disk: Disk, d: Place): (slots: seq<Slot>)
    requires PlaceOk(g, disk, d)
    ensures |slots| == |DirLbas(g, d)| * 16
  {
    DirLbasOk(g, disk, d);
    seq<Slot>(|DirLbas(g, d)| * 16, k requires 0 <= k < |DirLbas(g, d)| * 16 =>
      SlotIn(disk[DirLbas(g, d)[k / 16]], k % 16))
  }

  /** The address of slot `p` of the directory. */
  ghost predicate AddressOf(g: Geometry, d: Place, lba: nat, off: nat, p: nat) {
    p / 16 < |DirLbas(g, d)| && lba == DirLbas(g, d)[p / 16] && off == p % 16 * 32
  }

  /** A directory entry's identity: the address of its 8.3 slot. */
  function InodeId(lba: int, off: nat): int { lba * 65536 + off }

  class Walker {
    const g: Geometry
    const disk: Disk
    const inRoot: bool
    var cluster: nat
    var sectorInUnit: nat
    var ent: nat
    var sector: Sector
    var lba: nat
    var loaded: bool
    var done: bool
    ghost const d: Place
    /** Clusters passed. */
    ghost var ci: nat

    ghost predicate Valid()
      reads this
    {
      && PlaceOk(g, disk, d) && d.Root? == inRoot
      && (inRoot ==> sectorInUnit <= g.rootCount)
      && (!inRoot ==> ci < |d.cs| && sectorInUnit <= g.sectorsPerCluster && (!done ==> cluster == d.cs[ci]))
      && (done ==> !loaded && Passed() == |DirLbas(g, d)|)
      && (loaded ==>
            && sectorInUnit < (if inRoot then g.rootCount else g.sectorsPerCluster) && ent <= 16
            && Passed() < |DirLbas(g, d)| && lba == DirLbas(g, d)[Passed()] < |disk| && sector == disk[lba])
    }

    /** How many sectors lie behind the cursor. */
    ghost function Passed(): nat
      requires d.InChain? ==> ci <= |d.cs|
      reads this
    {
      match d
      case Root => sectorInUnit
      case InChain(cs) => |ChainLbas(g, cs[..ci])| + sectorInUnit
    }

    /** How many slots have been handed out. */
    ghost function Index(): nat
      requires Valid()
      reads this
    {
      16 * Passed() + if loaded then ent else 0
    }

    constructor (g: Geometry, disk: Disk, inRoot: bool, dirCluster: nat, ghost d: Place)
      requires PlaceOk(g, disk, d) && IsAt(d, inRoot, dirCluster)
      ensures Valid() && Index() == 0 && this.g == g && this.disk == disk && this.d == d
    {
      this.g, this.disk, this.inRoot := g, disk, inRoot;
      cluster, sectorInUnit, ent, lba, loaded, done := dirCluster, 0, 0, 0, false, false;
      sector := seq(512, _ => 0);
      this.d := d;
      ci := 0;
    }

    /** Cross to the next cluster, or reach the end. */
    method Advance()
      requires Valid() && !done && !loaded
      requires sectorInUnit == if inRoot then g.rootCount else g.sectorsPerCluster
      modifies this`cluster, this`sectorInUnit, this`done, this`ci
      ensures Valid() && Index() == old(Index())
      ensures !done ==> !inRoot && sectorInUnit == 0
    {
      if inRoot {
        done := true;
        return;
      }
      LinkAt(g, disk, d.cs, ci);
      cluster := NextCluster(g, disk, cluster);
      if g.IsEoc(cluster) || cluster < 2 {
        assert d.cs[..ci] == d.cs[..|d.cs| - 1];
        done := true;
        return;
      }
      assert d.cs[..ci + 1][..ci] == d.cs[..ci];
      ci := ci + 1;
      sectorInUnit := 0;
    }

    /** Bring the next sector in, crossing to the next cluster if need be. */
    method Load()
      requires Valid() && !done && !loaded
      modifies this
      ensures Valid() && Index() == old(Index()) && (done || (loaded && ent == 0))
    {
      hide ChainLbas;
      hide IsChain;
      var units := if inRoot then g.rootCount else g.sectorsPerCluster;
      if sectorInUnit >= units {
        Advance();
        if done {
          return;
        }
      }
      SectorHere(g, disk, d, ci, sectorInUnit);
      lba := (if inRoot then g.rootStart else ClusterLba(g, cluster)) + sectorInUnit;
      sector := disk[lba];
      loaded, ent := true, 0;
    }

    /** Move on until a slot is at the cursor, or the space is used up. */
    method Settle()
      requires Valid()
      modifies this
      ensures Valid() && Index() == old(Index()) && (done || (loaded && ent < 16))
    {
      while !done && !(loaded && ent < 16)
        invariant Valid() && Index() == old(Index())
        decreases |DirLbas(g, d)| - Passed(), if done then 0 else 1, if loaded then 0 else 1
      {
        if loaded {
          loaded := false;
          sectorInUnit := sectorInUnit + 1;
        } else {
          Load();
        }
      }
    }

    /** The slot at the cursor, and its address; false once the directory's space is used up. */
    method Next() returns (more: bool, slot: Slot, at: nat, off: nat)
      requires Valid()
      modifies this
      ensures Valid()
      ensures more <==> old(Index()) < |DirSlots(g, disk, d)|
      ensures !more ==> Index() == old(Index())
      ensures more ==>
                && Index() == old(Index()) + 1
                && slot == DirSlots(g, disk, d)[old(Index())] && AddressOf(g, d, at, off, old(Index()))
    {
      hide DirSlots;
      hide DirLbas;
      hide ChainLbas;
      hide PlaceOk;
      Settle();
      SlotCount(g, disk, d);
      if done {
        return false, seq(32, _ => 0), 0, 0;
      }
      SlotHere(g, disk, d, Passed(), ent);
      more, slot, at, off := true, SlotIn(sector, ent), lba, ent * 32;
      ent := ent + 1;
    }
  }

  /** Sector `r` of the cluster the walker stands on is the next one in the directory's list. */
  lemma {:induction false} SectorHere(g: Geometry, disk: Disk, d: Place, ci: nat, r: nat)
    requires PlaceOk(g, disk, d)
    requires if d.Root? then r < g.rootCount else ci < |d.cs| && r < g.sectorsPerCluster
    ensures d.Root? ==> DirLbas(g, d)[r] == g.rootStart + r < |disk|
    ensures d.InChain? ==>
              && |ChainLbas(g, d.cs[..ci])| + r < |DirLbas(g, d)|
              && DirLbas(g, d)[|ChainLbas(g, d.cs[..ci])| + r] == ClusterLba(g, d.cs[ci]) + r
              && 0 <= ClusterLba(g, d.cs[ci]) + r < |disk|
  {
    DirLbasOk(g, disk, d);
    if d.InChain? {
      ChainLbasPrefix(g, d.cs, ci);
      var front := ChainLbas(g, d.cs[..ci]);
      assert (front + ClusterLbas(g, d.cs[ci]))[|front| + r] == ClusterLba(g, d.cs[ci]) + r;
    }
  }

  lemma {:induction false} SlotCount(g: Geometry, disk: Disk, d: Place)
    requires PlaceOk(g, disk, d)
    ensures |DirSlots(g, disk, d)| == |DirLbas(g, d)| * 16
  {
  }

  lemma {:induction false} SlotHere(g: Geometry, disk: Disk, d: Place, s: nat, ent: nat)
    requires PlaceOk(g, disk, d) && s < |DirLbas(g, d)| && ent < 16 && 0 <= DirLbas(g, d)[s] < |disk|
    ensures 16 * s + ent < |DirSlots(g, disk, d)|
    ensures DirSlots(g, disk, d)[16 * s + ent] == SlotIn(disk[DirLbas(g, d)[s]], ent)
    ensures (16 * s + ent) / 16 == s && (16 * s + ent) % 16 == ent
  {
    Sixteenths(s, ent);
  }

  lemma {:induction false} Sixteenths(s: nat, ent: nat)
    requires ent < 16
    ensures (16 * s + ent) / 16 == s && (16 * s + ent) % 16 == ent
  {
  }
}
