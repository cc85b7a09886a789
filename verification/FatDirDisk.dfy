/**
 Directory changes on the disk itself: writing a run of slots through a one-sector
 buffer, and marking a run deleted slot by slot. Both change the slots meant and
 touch nothing else, in the fixed root and in cluster chains alike.
 */
module FatDirDisk {
  import opened FatTable
  import opened FatVolume
  import opened FatDriver
  import opened FatDir
  import opened FatDirOps
  import opened FatSlots

  function PatchSlot(sector: Sector, ent: nat, slot: Slot): (r: Sector)
    requires ent < 16
  {
    sector[..ent * 32] + slot + sector[ent * 32 + 32..]
  }

  lemma {:induction false} PatchRead(sector: Sector, ent: nat, slot: Slot, e: nat)
    requires ent < 16 && e < 16
    ensures SlotIn(PatchSlot(sector, ent, slot), e) == if e == ent then slot else SlotIn(sector, e)
  {
    var r := PatchSlot(sector, ent, slot);
    if e == ent {
      assert r[e * 32..e * 32 + 32] == slot;
    } else {
      assert e * 32 + 32 <= ent * 32 || ent * 32 + 32 <= e * 32;
      assert r[e * 32..e * 32 + 32] == sector[e * 32..e * 32 + 32];
    }
  }

  /** Nothing but the directory's own sectors differs. */
  ghost predicate OnlyDirChanged(g: Geometry, d0: Disk, d1: Disk, d: Place) {
    |d0| == |d1| && forall lba :: 0 <= lba < |d0| && lba !in DirLbas(g, d) ==> d1[lba] == d0[lba]
  }

  /** A directory's sectors are different sectors. */
  lemma {:induction false} LbaUnique(g: Geometry, disk: Disk, d: Place, s: nat, s': nat)
    requires PlaceOk(g, disk, d) && s < |DirLbas(g, d)| && s' < |DirLbas(g, d)| && DirLbas(g, d)[s] == DirLbas(g, d)[s']
    ensures s == s'
  {
    if d.InChain? {
      ChainAcyclic(g, Table(g, disk), d.cs);
      ChainLbasAt(g, disk, d.cs);
      SectorLbaInjective(g, disk, d.cs, s, s', DirLbas(g, d)[s]);
    }
  }

  /** A chain's sectors lie outside the FAT and on the chain. */
  lemma {:induction false} ChainLbaPlace(g: Geometry, disk: Disk, cs: seq<nat>, lba: int)
    requires g.Valid() && g.Fits(disk) && InData(g, cs) && lba in ChainLbas(g, cs)
    ensures g.dataStart <= lba < |disk| && OnChain(g, cs, lba)
  {
    ChainLbasAt(g, disk, cs);
    var s :| 0 <= s < |ChainLbas(g, cs)| && ChainLbas(g, cs)[s] == lba;
    SectorLbaOk(g, disk, cs, s);
  }

  /** A directory's sectors lie outside the FAT: in the root region, or on the directory's own chain. */
  lemma {:induction false} DirLbaPlace(g: Geometry, disk: Disk, d: Place, lba: int)
    requires PlaceOk(g, disk, d) && lba in DirLbas(g, d)
    ensures g.fatStart + g.sectorsPerFat <= lba < |disk|
    ensures match d case Root => lba < g.dataStart case InChain(cs) => OnChain(g, cs, lba)
  {
    if d.InChain? {
      ChainLbaPlace(g, disk, d.cs, lba);
    }
  }

  /** Writing into a directory moves neither it nor any other chain. */
  lemma {:induction false} DirChangeKeepsTable(g: Geometry, d0: Disk, d1: Disk, d: Place)
    requires PlaceOk(g, d0, d) && OnlyDirChanged(g, d0, d1, d)
    ensures Table(g, d1) == Table(g, d0) && (d.InChain? ==> OnlyChainChanged(g, d0, d1, d.cs))
  {
    forall lba | 0 <= lba < |d0| && (lba < g.fatStart + g.sectorsPerFat || (d.InChain? && !OnChain(g, d.cs, lba)))
      ensures d1[lba] == d0[lba]
    {
      if lba in DirLbas(g, d) { DirLbaPlace(g, d0, d, lba); }
    }
    TableFrame(g, d0, d1);
  }

  lemma {:induction false} PlaceKept(g: Geometry, d0: Disk, d1: Disk, d: Place)
    requires PlaceOk(g, d0, d) && OnlyDirChanged(g, d0, d1, d)
    ensures PlaceOk(g, d1, d)
  {
    DirChangeKeepsTable(g, d0, d1, d);
  }

  function PutSlot(disk: Disk, lba: nat, ent: nat, slot: Slot): Disk
    requires lba < |disk| && ent < 16
  {
    disk[lba := PatchSlot(disk[lba], ent, slot)]
  }

  lemma {:induction false} DirSlotAt(g: Geometry, disk: Disk, d: Place, k: nat)
    requires PlaceOk(g, disk, d) && k < |DirSlots(g, disk, d)|
    ensures k < |DirLbas(g, d)| * 16 && 0 <= DirLbas(g, d)[k / 16] < |disk|
    ensures DirSlots(g, disk, d)[k] == SlotIn(disk[DirLbas(g, d)[k / 16]], k % 16)
  {
    DirLbasOk(g, disk, d);
  }

  lemma {:induction false} SlotWrittenPlace(g: Geometry, disk: Disk, d: Place, k: nat, slot: Slot)
    requires PlaceOk(g, disk, d) && k < |DirLbas(g, d)| * 16 && 0 <= DirLbas(g, d)[k / 16] < |disk|
    ensures var disk' := PutSlot(disk, DirLbas(g, d)[k / 16], k % 16, slot);
            OnlyDirChanged(g, disk, disk', d) && PlaceOk(g, disk', d)
  {
    hide PatchSlot;
    assert DirLbas(g, d)[k / 16] in DirLbas(g, d);
    PlaceKept(g, disk, PutSlot(disk, DirLbas(g, d)[k / 16], k % 16, slot), d);
  }

  /** Changing one slot on the disk changes exactly that slot of the directory. */
  lemma {:induction false} SlotWritten(g: Geometry, disk: Disk, d: Place, k: nat, slot: Slot)
    requires PlaceOk(g, disk, d) && k < |DirSlots(g, disk, d)| && 0 <= DirLbas(g, d)[k / 16] < |disk|
    ensures var disk' := PutSlot(disk, DirLbas(g, d)[k / 16], k % 16, slot);
            OnlyDirChanged(g, disk, disk', d) && PlaceOk(g, disk', d) && DirSlots(g, disk', d) == DirSlots(g, disk, d)[k := slot]
  {
    hide DirSlots;
    hide DirLbas;
    hide SlotIn;
    hide PlaceOk;
    hide PatchSlot;
    DirSlotAt(g, disk, d, k);
    SlotWrittenPlace(g, disk, d, k, slot);
    var disk' := PutSlot(disk, DirLbas(g, d)[k / 16], k % 16, slot);
    var a, b := DirSlots(g, disk', d), DirSlots(g, disk, d);
    forall j | 0 <= j < |b|
      ensures a[j] == b[k := slot][j]
    {
      DirSlotAt(g, disk, d, j);
      DirSlotAt(g, disk', d, j);
      SlotAfter(g, disk, d, k, slot, j);
    }
  }

  lemma {:induction false} SlotAfter(g: Geometry, disk: Disk, d: Place, k: nat, slot: Slot, j: nat)
    requires PlaceOk(g, disk, d) && k < |DirLbas(g, d)| * 16 && j < |DirLbas(g, d)| * 16
    requires 0 <= DirLbas(g, d)[k / 16] < |disk| && 0 <= DirLbas(g, d)[j / 16] < |disk|
    ensures var disk' := PutSlot(disk, DirLbas(g, d)[k / 16], k % 16, slot);
            SlotIn(disk'[DirLbas(g, d)[j / 16]], j % 16) == if j == k then slot else SlotIn(disk[DirLbas(g, d)[j / 16]], j % 16)
  {
    var lba := DirLbas(g, d)[k / 16];
    PatchRead(disk[lba], k % 16, slot, j % 16);
    if DirLbas(g, d)[j / 16] == lba {
      LbaUnique(g, disk, d, j / 16, k / 16);
      assert j == 16 * (j / 16) + j % 16 && k == 16 * (k / 16) + k % 16;
    }
  }

  // ---------------------------------------------------------------- the code

  /** The disk and the one sector being edited. */
  class SlotWriter {
    var disk: Disk
    var sector: Sector
    var cur: nat
    var dirty: bool

    ghost predicate Valid()
      reads this
    {
      dirty ==> cur < |disk|
    }

    /** The disk as it will be once the buffered sector is written. */
    ghost function Pending(): Disk
      requires Valid()
      reads this
    {
      if dirty then disk[cur := sector] else disk
    }

    constructor (disk: Disk)
      ensures Valid() && Pending() == disk && !dirty
    {
      this.disk, cur, dirty := disk, 0, false;
      sector := seq(512, _ => 0);
    }

    /** Put a slot into its sector, writing the previous sector out first if it is another one. */
    method Put(lba: nat, off: nat, slot: Slot)
      requires Valid() && lba < |disk| && off < 512 && off % 32 == 0
      modifies this
      ensures Valid() && |disk| == |old(disk)| && Pending() == PutSlot(old(Pending()), lba, off / 32, slot)
    {
      ghost var was := Pending();
      if dirty && lba != cur {
        disk := disk[cur := sector];
        dirty := false;
      }
      if !dirty {
        sector := disk[lba];
        cur := lba;
      }
      assert Pending() == was && sector == was[lba];
      sector := PatchSlot(sector, off / 32, slot);
      dirty := true;
    }

    method Flush()
      requires Valid()
      modifies this
      ensures disk == old(Pending())
    {
      if dirty {
        disk := disk[cur := sector];
      }
    }
  }

  function Fewer(a: nat, b: nat): nat { if a < b then a else b }

  lemma {:induction false} SameAddress(g: Geometry, disk: Disk, d: Place, lba: nat, off: nat, p: nat, k: nat)
    requires PlaceOk(g, disk, d) && AddressOf(g, d, lba, off, p) && AddressOf(g, d, lba, off, k)
    ensures p == k
  {
    LbaUnique(g, disk, d, p / 16, k / 16);
    assert p == 16 * (p / 16) + p % 16 && k == 16 * (k / 16) + k % 16;
  }

  lemma {:induction false} SpliceMore(slots: seq<Slot>, p: nat, run: seq<Slot>, n: nat)
    requires p + n < |slots| && n < |run|
    ensures Splice(slots, p, run[..n])[p + n := run[n]] == Splice(slots, p, run[..n + 1])
  {
    var a, b := Splice(slots, p, run[..n])[p + n := run[n]], Splice(slots, p, run[..n + 1]);
    forall i | 0 <= i < |slots|
      ensures a[i] == b[i]
    {
      if p <= i <= p + n {
        assert b[p + (i - p)] == run[..n + 1][i - p];
        if i < p + n { assert Splice(slots, p, run[..n])[p + (i - p)] == run[..n][i - p]; }
      }
    }
  }

  lemma {:induction false} SpliceNone(slots: seq<Slot>, p: nat, run: seq<Slot>)
    requires p <= |slots|
    ensures Splice(slots, p, run[..0]) == slots
  {
  }

  lemma {:induction false} Unchanged(g: Geometry, disk: Disk, d: Place)
    ensures OnlyDirChanged(g, disk, disk, d)
  {
  }

  lemma {:induction false} ChangesAddUp(g: Geometry, d0: Disk, d1: Disk, d2: Disk, d: Place)
    requires OnlyDirChanged(g, d0, d1, d) && OnlyDirChanged(g, d1, d2, d)
    ensures OnlyDirChanged(g, d0, d2, d)
  {
  }

  lemma {:induction false} StartInside(g: Geometry, disk: Disk, d: Place, p: nat)
    requires PlaceOk(g, disk, d) && p / 16 < |DirLbas(g, d)|
    ensures p < |DirSlots(g, disk, d)|
  {
  }

  /**
   Write consecutive slots starting at the given address, walking the directory
   from its start. All of them are written exactly when they fit.
   */
  method WriteSlotsAt(g: Geometry, disk: Disk, inRoot: bool, dirCluster: nat,
                      startLba: nat, startOff: nat, src: seq<Slot>, ghost d: Place, ghost p: nat)
    returns (ok: bool, disk': Disk)
    requires PlaceOk(g, disk, d) && IsAt(d, inRoot, dirCluster)
    requires AddressOf(g, d, startLba, startOff, p)
    ensures OnlyDirChanged(g, disk, disk', d) && PlaceOk(g, disk', d) && p <= |DirSlots(g, disk, d)|
    ensures ok <==> p + |src| <= |DirSlots(g, disk, d)|
    ensures DirSlots(g, disk', d) == Splice(DirSlots(g, disk, d), p, src[..Fewer(|src|, |DirSlots(g, disk, d)| - p)])
  {
    hide DirSlots;
    hide DirLbas;
    hide PlaceOk;
    hide Splice;
    hide PutSlot;
    hide OnlyDirChanged;
    hide Walker.Valid;
    hide Walker.Index;
    ghost var slots := DirSlots(g, disk, d);
    var it := new Walker(g, disk, inRoot, dirCluster, d);
    var w := new SlotWriter(disk);
    var writing, written := false, 0;
    StartInside(g, disk, d, p);
    SpliceNone(slots, p, src);
    Unchanged(g, disk, d);
    while written < |src|
      invariant it.Valid() && it.g == g && it.disk == disk && it.d == d && w.Valid() && written <= |src|
      invariant |w.disk| == |disk| && OnlyDirChanged(g, disk, w.Pending(), d) && PlaceOk(g, w.Pending(), d)
      invariant if writing then it.Index() == p + written else written == 0 && it.Index() <= p
      invariant p + written <= |slots| && DirSlots(g, w.Pending(), d) == Splice(slots, p, src[..written])
      decreases |slots| - it.Index()
    {
      ghost var k := it.Index();
      var more, _, lba, off := it.Next();
      if !more {
        break;
      }
      if !writing {
        if lba != startLba || off != startOff {
          continue;
        }
        SameAddress(g, disk, d, lba, off, p, k);
        writing := true;
      }
      DirSlotAt(g, disk, d, k);
      SlotWritten(g, w.Pending(), d, k, src[written]);
      SpliceMore(slots, p, src, written);
      ghost var before := w.Pending();
      w.Put(lba, off, src[written]);
      ChangesAddUp(g, disk, before, w.Pending(), d);
      written := written + 1;
    }
    w.Flush();
    disk' := w.disk;
    ok := written == |src|;
  }

  /** Marking a slot deleted: read its sector, change its first byte, write it back. */
  function Deleted(disk: Disk, lba: nat, ent: nat): Disk
    requires lba < |disk| && ent < 16
  {
    PutSlot(disk, lba, ent, SlotIn(disk[lba], ent)[0 := 0xE5])
  }

  lemma {:induction false} EraseMore(slots: seq<Slot>, p: nat, n: nat)
    requires p + n < |slots|
    ensures Erase(slots, p, n)[p + n := Erase(slots, p, n)[p + n][0 := 0xE5]] == Erase(slots, p, n + 1)
  {
  }

  /** Mark the run of `count` slots that starts at the given address deleted, one slot at a time. */
  method EraseRunAt(g: Geometry, disk: Disk, inRoot: bool, dirCluster: nat,
                    startLba: nat, startOff: nat, count: nat, ghost d: Place, ghost p: nat)
    returns (ok: bool, disk': Disk)
    requires PlaceOk(g, disk, d) && IsAt(d, inRoot, dirCluster)
    requires AddressOf(g, d, startLba, startOff, p)
    ensures OnlyDirChanged(g, disk, disk', d) && PlaceOk(g, disk', d) && p <= |DirSlots(g, disk, d)|
    ensures ok <==> p + count <= |DirSlots(g, disk, d)|
    ensures DirSlots(g, disk', d) == Erase(DirSlots(g, disk, d), p, Fewer(count, |DirSlots(g, disk, d)| - p))
  {
    hide DirSlots;
    hide DirLbas;
    hide PlaceOk;
    hide Erase;
    hide PutSlot;
    hide OnlyDirChanged;
    hide Walker.Valid;
    hide Walker.Index;
    ghost var slots := DirSlots(g, disk, d);
    var it := new Walker(g, disk, inRoot, dirCluster, d);
    disk' := disk;
    var erasing, done := false, 0;
    StartInside(g, disk, d, p);
    EraseNone(slots, p);
    Unchanged(g, disk, d);
    while done < count
      invariant it.Valid() && it.g == g && it.disk == disk && it.d == d && done <= count
      invariant |disk'| == |disk| && OnlyDirChanged(g, disk, disk', d) && PlaceOk(g, disk', d)
      invariant if erasing then it.Index() == p + done else done == 0 && it.Index() <= p
      invariant p + done <= |slots| && DirSlots(g, disk', d) == Erase(slots, p, done)
      decreases |slots| - it.Index()
    {
      ghost var k := it.Index();
      var more, _, lba, off := it.Next();
      if !more {
        break;
      }
      if !erasing {
        if lba != startLba || off != startOff {
          continue;
        }
        SameAddress(g, disk, d, lba, off, p, k);
        erasing := true;
      }
      DirSlotAt(g, disk', d, k);
      SlotWritten(g, disk', d, k, DirSlots(g, disk', d)[k][0 := 0xE5]);
      EraseMore(slots, p, done);
      ghost var before := disk';
      disk' := Deleted(disk', lba, off / 32);
      ChangesAddUp(g, disk, before, disk', d);
      done := done + 1;
    }
    ok := done == count;
  }

  lemma {:induction false} EraseNone(slots: seq<Slot>, p: nat)
    requires p <= |slots|
    ensures Erase(slots, p, 0) == slots
  {
  }

  /** No change confined to a directory's sectors touches a byte of any other file. */
  lemma {:induction false} DirChangeKeepsFiles(g: Geometry, d0: Disk, d1: Disk, d: Place, other: seq<nat>)
    requires PlaceOk(g, d0, d) && OnlyDirChanged(g, d0, d1, d) && InData(g, other) && (d.InChain? ==> Disjoint(d.cs, other))
    ensures Table(g, d1) == Table(g, d0) && SameBytes(g, d0, d1, other)
  {
    DirChangeKeepsTable(g, d0, d1, d);
    if d.InChain? {
      ChainWriteSameBytes(g, d0, d1, d.cs, other);
    } else {
      FatChangeSameBytes(g, d0, d1, other);
    }
  }

  /** Two directories of one volume are the same or share no cluster; there is one fixed root. */
  predicate Apart(d: Place, d': Place) { d.InChain? && d'.InChain? ==> Disjoint(d.cs, d'.cs) }

  /** Different directories have no sector in common. */
  lemma {:induction false} LbasApart(g: Geometry, disk: Disk, d: Place, d': Place, lba: int)
    requires PlaceOk(g, disk, d) && PlaceOk(g, disk, d') && d != d' && Apart(d, d') && lba in DirLbas(g, d)
    ensures lba !in DirLbas(g, d')
  {
    DirLbaPlace(g, disk, d, lba);
    if lba in DirLbas(g, d') {
      DirLbaPlace(g, disk, d', lba);
    }
  }

  /**
   An inode id names one slot of one directory of the whole volume, and none of them is
   the root's own id, 0.
   */
  lemma {:induction false} InodeIdsDistinct(g: Geometry, disk: Disk, d: Place, d': Place, k: nat, k': nat)
    requires PlaceOk(g, disk, d) && PlaceOk(g, disk, d') && (d == d' || Apart(d, d'))
    requires k < |DirLbas(g, d)| * 16 && k' < |DirLbas(g, d')| * 16
    ensures InodeId(DirLbas(g, d)[k / 16], k % 16 * 32) != 0
    ensures InodeId(DirLbas(g, d)[k / 16], k % 16 * 32) == InodeId(DirLbas(g, d')[k' / 16], k' % 16 * 32) ==> d == d' && k == k'
  {
    var lba, lba' := DirLbas(g, d)[k / 16], DirLbas(g, d')[k' / 16];
    DirLbaPlace(g, disk, d, lba);
    if InodeId(lba, k % 16 * 32) == InodeId(lba', k' % 16 * 32) {
      assert lba == lba' && k % 16 == k' % 16;
      if d != d' { LbasApart(g, disk, d, d', lba); }
      LbaUnique(g, disk, d, k / 16, k' / 16);
    }
  }
}
