/**
 The FAT driver's operations on one mounted volume. The disk is read and
 written a sector at a time; every read and write inside the volume succeeds.
 */
module FatDriver {
  import opened Lists
  import opened FatTable
  import opened FatVolume

  datatype WriteResult = NoSpace | Written(first: nat, size: nat)

  /** A forward-walk cursor: which chain it is in, and how far along. */
  datatype Walk = Walk(first: nat, index: nat, cluster: nat)

  /** Follow `k` links from `first`, stopping early at a free or end-of-chain entry. */
  function PlainWalk(g: Geometry, disk: Disk, first: nat, k: nat): nat {
    if k == 0 then first
    else
      var p := PlainWalk(g, disk, first, k - 1);
      if k > 1 && Stops(g, p) then p else NextCluster(g, disk, p)
  }

  predicate Stops(g: Geometry, cluster: nat) { cluster < 2 || g.IsEoc(cluster) }

  ghost predicate CursorOk(g: Geometry, disk: Disk, w: Walk) {
    && w.cluster == PlainWalk(g, disk, w.first, w.index)
    && (w.index > 0 ==> !Stops(g, w.cluster))
  }

  /** Once the walk has stopped, walking on stays there. */
  lemma {:induction false} StoppedWalk(g: Geometry, disk: Disk, first: nat, j: nat, k: nat)
    requires 0 < j <= k && Stops(g, PlainWalk(g, disk, first, j))
    ensures PlainWalk(g, disk, first, k) == PlainWalk(g, disk, first, j)
    decreases k - j
  {
    if j < k {
      StoppedWalk(g, disk, first, j + 1, k);
    }
  }

  /** On a live chain the plain walk visits the chain in order. */
  lemma {:induction false} WalkOnChain(g: Geometry, disk: Disk, cs: seq<nat>, k: nat)
    requires g.Valid() && IsChain(g, Table(g, disk), cs) && k < |cs|
    ensures PlainWalk(g, disk, cs[0], k) == cs[k]
  {
    if k > 0 {
      WalkOnChain(g, disk, cs, k - 1);
      assert Table(g, disk)[cs[k - 1]] == cs[k];
    }
  }

  /** Clusters needed to hold `end` bytes, in 32-bit unsigned arithmetic. */
  function ClustersNeeded(g: Geometry, end: nat): int
    requires g.ClusterBytes() > 0
  {
    (end + g.ClusterBytes() - 1) % 0x1_0000_0000 / g.ClusterBytes()
  }

  function CeilDiv(n: nat, d: nat): int
    requires d > 0
  {
    (n + d - 1) / d
  }

  lemma {:induction false} NeededExact(g: Geometry, end: nat)
    requires g.Valid() && 0 < end && end + g.ClusterBytes() - 1 < 0x1_0000_0000
    ensures g.ClusterBytes() > 0 && ClustersNeeded(g, end) == CeilDiv(end, g.ClusterBytes())
    ensures 0 < ClustersNeeded(g, end) && end <= ClustersNeeded(g, end) * g.ClusterBytes()
  {
    ClustersNeededExact(g, end);
  }

  /** The 32-bit sum is enough exactly when it does not wrap. */
  lemma {:induction false} ClustersNeededExact(g: Geometry, end: nat)
    requires g.Valid() && g.ClusterBytes() < 0x1_0000_0000 && 0 < end < 0x1_0000_0000
    ensures end <= ClustersNeeded(g, end) * g.ClusterBytes() <==> end + g.ClusterBytes() - 1 < 0x1_0000_0000
  {
    var b := g.ClusterBytes();
    var sum := (end + b - 1) % 0x1_0000_0000;
    var q, r := sum / b, sum % b;
    assert sum == q * b + r && 0 <= r < b;
    if end + b - 1 >= 0x1_0000_0000 {
      assert sum == end + b - 1 - 0x1_0000_0000;
      assert sum < end;
      assert q * b <= sum;
    } else {
      assert sum == end + b - 1;
    }
  }

  lemma {:induction false} EntryInSameSector(g: Geometry, cluster: nat, c: nat, index: nat)
    requires index < g.PerSector() && c - cluster == index - cluster % g.PerSector()
    ensures EntryLba(g, c) == EntryLba(g, cluster)
    ensures EntryPlace(g, c) == index * g.EntrySize()
  {
    PlaceFits(g, cluster);
    PlaceFits(g, c);
    var n := g.PerSector();
    var q := cluster / n;
    DivMod(c, q, index, n);
  }

  /** The whole table entries that a disk holds, counted from cluster 0, that are not free. */
  ghost function NonZero(g: Geometry, disk: Disk): set<nat> {
    set c | 0 <= c < |disk| * 256 && EntryLba(g, c) < |disk| && NextCluster(g, disk, c) != 0
  }

  class Volume {
    const g: Geometry
    var disk: Disk
    var nextFreeHint: nat

    ghost predicate Valid()
      reads this
    {
      g.Valid() && g.Fits(disk) && |disk| <= 0x1_0000_0000
    }

    /** The next `n` allocations stay on the volume. */
    ghost predicate Room(n: int)
      reads this
    {
      EnoughData(g, FreeSet(T()), g.TotalEntries(), nextFreeHint, if n < 0 then 0 else n)
    }

    ghost function T(): seq<nat>
      reads this
    {
      Table(g, disk)
    }

    lemma {:induction false} TIs()
      ensures T() == Table(g, disk)
    {
    }

    constructor (g: Geometry, disk: Disk)
      requires g.Valid() && g.Fits(disk) && |disk| <= 0x1_0000_0000
      ensures Valid() && this.g == g && this.disk == disk && nextFreeHint == 2
    {
      this.g := g;
      this.disk := disk;
      this.nextFreeHint := 2;
    }

    method SetNext(cluster: nat, value: nat)
      requires Valid() && cluster < g.TotalEntries() && value < g.Modulus()
      modifies this`disk
      ensures Valid() && OnlyFatChanged(g, old(disk), disk)
      ensures T() == old(T())[cluster := value]
    {
      TableAfterSet(g, disk, cluster, value);
      disk := SetNextCluster(g, disk, cluster, value);
    }

    /** Look for a free entry among clusters `cluster..limit`, inside the one FAT sector that holds `cluster`. */
    method ScanSector(cluster: nat, limit: nat) returns (found: bool, c: nat)
      requires Valid() && cluster < limit <= g.TotalEntries()
      ensures cluster <= c <= limit
      ensures forall i :: cluster <= i < c ==> T()[i] != 0
      ensures if found then c < limit && T()[c] == 0 else c > cluster
    {
      var perSector := g.PerSector();
      var lba := EntryLba(g, cluster);
      assert lba < g.fatStart + g.sectorsPerFat;
      var sector := disk[lba];
      var index := cluster % perSector;
      c := cluster;
      while index < perSector && c < limit
        invariant cluster <= c <= limit && index <= perSector
        invariant c - cluster == index - cluster % perSector
        invariant forall i :: cluster <= i < c ==> T()[i] != 0
      {
        EntryInSameSector(g, cluster, c, index);
        assert T()[c] == EntryInSector(g.variant, sector, index * g.EntrySize());
        if EntryInSector(g.variant, sector, index * g.EntrySize()) == 0 {
          return true, c;
        }
        index, c := index + 1, c + 1;
      }
      found := false;
    }

    /** The first free entry in `start..limit`, or `limit`. */
    method ScanRange(start: nat, limit: nat) returns (c: nat)
      requires Valid() && start <= limit <= g.TotalEntries()
      ensures start <= c <= limit
      ensures forall i :: start <= i < c ==> T()[i] != 0
      ensures c < limit ==> T()[c] == 0
    {
      c := start;
      while c < limit
        invariant start <= c <= limit
        invariant forall i :: start <= i < c ==> T()[i] != 0
      {
        var found;
        found, c := ScanSector(c, limit);
        if found { return; }
      }
    }

    /** Two passes: from the hint to the end of the table, then from cluster 2 up to the hint. */
    method AllocCluster() returns (cluster: nat)
      requires Valid()
      modifies this
      ensures Valid() && OnlyFatChanged(g, old(disk), disk)
      ensures cluster == 0 <==> FreeSet(old(T())) == {}
      ensures cluster == 0 ==> disk == old(disk) && nextFreeHint == old(nextFreeHint)
      ensures cluster != 0 ==>
                && IsChosen(FreeSet(old(T())), g.TotalEntries(), old(nextFreeHint), cluster)
                && T() == old(T())[cluster := g.EocMarker()]
                && nextFreeHint == cluster + 1
    {
      var total := g.TotalEntries();
      if total <= 2 { return 0; }
      var hint := if nextFreeHint < 2 then 2 else nextFreeHint;
      if hint >= total { hint := 2; }
      var pass := 0;
      while pass < 2
        invariant 0 <= pass <= 2
        invariant disk == old(disk) && nextFreeHint == old(nextFreeHint)
        invariant pass > 0 ==> forall c :: hint <= c < total ==> T()[c] != 0
        invariant pass > 1 ==> forall c :: 2 <= c < hint ==> T()[c] != 0
      {
        var limit := if pass == 0 then total else hint;
        cluster := ScanRange(if pass == 0 then hint else 2, limit);
        if cluster < limit {
          assert cluster in FreeSet(T());
          SetNext(cluster, g.EocMarker());
          nextFreeHint := cluster + 1;
          return;
        }
        pass := pass + 1;
      }
      assert FreeSet(T()) == {};
      cluster := 0;
    }

    /**
     Zero every entry from `first` to the end of its chain. Nothing is assumed of
     the disk: on a damaged table, cyclic or pointing outside itself, the walk
     still ends. `cs` is the chain when there is one, and [] otherwise.
     */
    method FreeChain(first: nat, ghost cs: seq<nat>)
      requires g.Valid()
      requires cs != [] ==> Valid() && IsChain(g, T(), cs) && cs[0] == first
      modifies this
      ensures OnlyZeroed(g, old(disk), disk)
      ensures cs != [] ==> Valid() && OnlyFatChanged(g, old(disk), disk) && T() == Released(old(T()), cs)
      ensures nextFreeHint == if 2 <= first < old(nextFreeHint) then first else old(nextFreeHint)
    {
      hide Released;
      hide Table;
      var cluster := first;
      ghost var i := 0;
      FreeNone(g, disk, cs, first);
      while cluster >= 2 && !g.IsEoc(cluster)
        invariant nextFreeHint == old(nextFreeHint)
        invariant OnlyZeroed(g, old(disk), disk)
        invariant cs != [] ==> PartlyFreed(g, old(disk), disk, cs, i, cluster)
        decreases |NonZero(g, disk)| + if Stops(g, cluster) then 0 else 1
      {
        var next := NextCluster(g, disk, cluster);
        ZeroedOnce(g, disk, cluster);
        if cs != [] {
          FreeStep(g, old(disk), disk, cs, i, cluster);
          i := i + 1;
        }
        disk := SetNextCluster(g, disk, cluster, 0);
        cluster := next;
      }
      if cs != [] {
        FreedAll(g, old(disk), disk, cs, i, cluster);
      }
      if first >= 2 && first < nextFreeHint {
        nextFreeHint := first;
      }
    }

    /** The cursor is only a shortcut: on any table the answer is that of the walk from the head. */
    method ClusterAt(first: nat, index: nat, w: Walk) returns (cluster: nat, w': Walk)
      requires CursorOk(g, disk, w)
      ensures cluster == PlainWalk(g, disk, first, index)
      ensures CursorOk(g, disk, w')
      ensures !Stops(g, cluster) ==> w' == Walk(first, index, cluster)
    {
      var i := 0;
      cluster, w' := first, w;
      if w.first == first && first >= 2 && w.index <= index {
        cluster, i := w.cluster, w.index;
      }
      while i < index
        invariant 0 <= i <= index
        invariant cluster == PlainWalk(g, disk, first, i) && (i > 0 ==> !Stops(g, cluster))
      {
        cluster, i := NextCluster(g, disk, cluster), i + 1;
        if Stops(g, cluster) {
          StoppedWalk(g, disk, first, i, index);
          return;
        }
      }
      w' := Walk(first, index, cluster);
    }

    /**
     The sector and the place in it for byte `off`. On a live chain that is where the
     byte is; past its end it is wherever the arithmetic leads, in 32 bits.
     */
    method Locate(first: nat, off: nat, w: Walk, ghost cs: seq<nat>) returns (lba: nat, offInSector: nat, w': Walk)
      requires Valid() && IsChain(g, T(), cs) && cs[0] == first && CursorOk(g, disk, w)
      ensures CursorOk(g, disk, w') && offInSector == off % 512
      ensures off < |cs| * g.ClusterBytes() ==>
                && off / 512 < |cs| * g.sectorsPerCluster && lba == SectorLba(g, cs, off / 512)
                && g.dataStart <= lba < |disk| && CursorOnChain(w', cs)
    {
      assert g.ClusterBytes() > 0;
      hide SectorLba;
      hide Table;
      hide IsChain;
      hide Geometry.ClusterBytes;
      hide InData;
      hide ClusterIndex;
      hide SectorFor;
      hide PlaceFor;
      var cluster;
      cluster, w' := ClusterAt(first, ClusterIndex(g, off), w);
      lba, offInSector := SectorFor(g, cluster, off), PlaceFor(g, off);
      LocateOk(g, disk, cs, off);
      if off < |cs| * g.ClusterBytes() {
        WalkOnChain(g, disk, cs, ClusterIndex(g, off));
        NotStopped(g, disk, cs, ClusterIndex(g, off));
      }
    }

    static method FillSector(buffer: Sector, at: nat, src: seq<byte>, from: nat, count: nat, zeroFill: bool, ghost data: seq<byte>)
      returns (sector: Sector)
      requires at + count <= 512 && from + count <= |data| && data == if zeroFill then seq(|data|, _ => 0) else src
      ensures Filled(buffer, sector, at, data, from, count)
    {
      sector := buffer;
      var i := 0;
      while i < count
        invariant 0 <= i <= count && Filled(buffer, sector, at, data, from, i)
      {
        sector := sector[at + i := if zeroFill then 0 else src[from + i]];
        i := i + 1;
      }
    }

    /** Read-modify-write, one sector per iteration. */
    method WriteRange(first: nat, position: nat, src: seq<byte>, len: nat, zeroFill: bool, ghost cs: seq<nat>)
      requires Valid() && IsChain(g, T(), cs) && cs[0] == first
      requires position + len <= |cs| * g.ClusterBytes() && (zeroFill || |src| == len)
      modifies this`disk
      ensures Valid() && T() == old(T()) && OnlyChainChanged(g, old(disk), disk, cs)
      ensures Patched(g, old(disk), disk, cs, position, if zeroFill then seq(len, _ => 0) else src, len)
    {
      ghost var data: seq<byte> := if zeroFill then seq(len, _ => 0) else src;
      ghost var d0 := disk;
      ChainAcyclic(g, T(), cs);
      PatchNone(g, disk, cs, position, data);
      hide Patched;
      hide OnlyChainChanged;
      hide Table;
      hide IsChain;
      hide SectorLba;
      hide Geometry.ClusterBytes;
      hide Filled;
      var written := 0;
      var walk := Walk(0, 0, 0);
      while written < len
        invariant 0 <= written <= len
        invariant Valid() && OnlyChainChanged(g, d0, disk, cs)
        invariant Table(g, disk) == Table(g, d0)
        invariant Patched(g, d0, disk, cs, position, data, written)
        invariant CursorOnChain(walk, cs)
      {
        var off := position + written;
        var lba, offInSector;
        CursorOnChainOk(g, disk, cs, walk);
        lba, offInSector, walk := Locate(first, off, walk, cs);
        var toWrite := if 512 - offInSector > len - written then len - written else 512 - offInSector;
        var buffer: Sector := *;
        if offInSector != 0 || toWrite != 512 {
          buffer := disk[lba];
        }
        var sector := FillSector(buffer, offInSector, src, written, toWrite, zeroFill, data);
        WholeSector(buffer, disk[lba], sector, offInSector, data, written, toWrite);
        PatchStep(g, d0, disk, cs, position, data, written, toWrite, sector, lba);
        disk := disk[lba := sector];
        written := written + toWrite;
      }
    }

    /** Copy out `len` bytes starting at `position`, up to the first sector the disk does not have; offsets are 32-bit. */
    method ReadAt(first: nat, position: nat, len: nat, ghost cs: seq<nat>) returns (out: seq<byte>)
      requires Valid() && IsChain(g, T(), cs) && cs[0] == first && position < 0x1_0000_0000
      ensures |out| <= len
      ensures |out| < len ==> |cs| * g.ClusterBytes() <= position + |out|
      ensures Copied(g, disk, cs, position, out)
    {
      hide Copied;
      hide SectorLba;
      hide Table;
      hide IsChain;
      hide Geometry.ClusterBytes;
      out := [];
      CopyNone(g, disk, cs, position);
      var walk := Walk(0, 0, 0);
      while |out| < len
        invariant |out| <= len && CursorOk(g, disk, walk) && Copied(g, disk, cs, position, out)
      {
        var off := (position + |out|) % 0x1_0000_0000;
        var lba, offInSector;
        lba, offInSector, walk := Locate(first, off, walk, cs);
        if lba >= |disk| {
          return;
        }
        var toRead := if 512 - offInSector > len - |out| then len - |out| else 512 - offInSector;
        CopyMore(g, disk, cs, position, out, off, lba, toRead);
        out := out + disk[lba][offInSector..offInSector + toRead];
      }
    }

    /** Walk to the last cluster of a chain, counting. */
    method CountChain(first: nat, ghost cs: seq<nat>) returns (count: nat, last: nat)
      requires Valid() && IsChain(g, T(), cs) && cs[0] == first
      ensures count == |cs| && last == cs[|cs| - 1]
    {
      count, last := 1, first;
      LinkAt(g, disk, cs, 0);
      while !g.IsEoc(NextCluster(g, disk, last))
        invariant 1 <= count <= |cs| && last == cs[count - 1]
        invariant g.IsEoc(NextCluster(g, disk, last)) <==> count == |cs|
        decreases |cs| - count
      {
        LinkAt(g, disk, cs, count - 1);
        LinkAt(g, disk, cs, count);
        last := NextCluster(g, disk, last);
        count := count + 1;
      }
    }

    /** One more cluster for file `id`, or 0; the first of `n` that there is room for. */
    method GrowOne(start: nat, last: nat, ghost live: map<nat, seq<nat>>, ghost id: nat, ghost n: int) returns (taken: nat)
      requires Valid() && Sound(g, State(T(), live)) && id in live && start == First(live[id])
      requires live[id] != [] ==> last == live[id][|live[id]| - 1]
      requires n >= 1 && Room(n)
      modifies this
      ensures Valid() && OnlyFatChanged(g, old(disk), disk)
      ensures taken == 0 <==> FreeSet(old(T())) == {}
      ensures taken == 0 ==> disk == old(disk) && nextFreeHint == old(nextFreeHint)
      ensures taken != 0 ==>
                && Sound(g, State(T(), live[id := live[id] + [taken]]))
                && FreeSet(T()) == FreeSet(old(T())) - {taken} && taken in FreeSet(old(T()))
                && Room(n - 1)
    {
      ghost var t := T();
      taken := AllocCluster();
      if taken == 0 {
        return;
      }
      ChoiceInDataIff(g, FreeSet(t), g.TotalEntries(), old(nextFreeHint), taken, n);
      GrowKeepsChains(g, t, live, id, taken);
      if start != 0 {
        SetNext(last, taken);
      }
      assert T() == Linked(g, t, live[id], taken);
    }

    /** Allocate and link clusters until the chain has `needed` of them, or none is left. */
    method ExtendChain(first: nat, last0: nat, existing: nat, needed: int, ghost live: map<nat, seq<nat>>, ghost id: nat)
      returns (ok: bool, start: nat, ghost cs: seq<nat>)
      requires Valid() && Sound(g, State(T(), live)) && id in live
      requires First(live[id]) == first && existing == |live[id]|
      requires live[id] != [] ==> last0 == live[id][|live[id]| - 1]
      requires Room(needed - existing)
      modifies this
      ensures Valid() && OnlyFatChanged(g, old(disk), disk)
      ensures live[id] <= cs && start == First(cs) && Sound(g, State(T(), live[id := cs]))
      ensures ok <==> needed <= existing + |FreeSet(old(T()))|
      ensures ok ==> |cs| == if needed > existing then needed else existing
    {
      hide *;
      OnlyFatSame(g, disk);
      var last, count := last0, existing;
      ok, start, cs := true, first, live[id];
      assert live[id := cs] == live;
      while count < needed
        invariant Valid() && OnlyFatChanged(g, old(disk), disk)
        invariant live[id] <= cs && count == |cs| && start == First(cs) && (cs != [] ==> last == cs[|cs| - 1])
        invariant Sound(g, State(T(), live[id := cs]))
        invariant |FreeSet(T())| + |cs| == |FreeSet(old(T()))| + existing
        invariant count == existing || count <= needed
        invariant Room(needed - count)
      {
        ghost var now, d, free := live[id := cs], disk, FreeSet(T());
        FirstIsZero(g, T(), now, id);
        FirstOf(cs);
        TIs();
        var taken := GrowOne(start, last, now, id, needed - count);
        if taken == 0 {
          TIs();
          return false, start, cs;
        }
        if start == 0 {
          start := taken;
        }
        assert now[id := cs + [taken]] == live[id := cs + [taken]];
        OnlyFatAddsUp(g, old(disk), d, disk);
        FirstOf(cs + [taken]);
        assert |free - {taken}| == |free| - 1;
        last, count, cs := taken, count + 1, cs + [taken];
      }
    }

    /** Fill the gap past the old end with zeros, then put the data down. */
    method StoreData(start: nat, size: nat, position: nat, buf: seq<byte>, ghost cs: seq<nat>, ghost bytes: seq<byte>)
      requires Valid() && IsChain(g, T(), cs) && cs[0] == start && buf != []
      requires position + |buf| <= |cs| * g.ClusterBytes() && FileIs(g, disk, cs, size, bytes)
      modifies this`disk
      ensures Valid() && T() == old(T()) && OnlyChainChanged(g, old(disk), disk, cs)
      ensures FileIs(g, disk, cs, if position + |buf| > size then position + |buf| else size, Overlay(bytes, position, buf))
    {
      if position > size {
        WriteRange(start, size, [], position - size, true, cs);
      }
      ghost var d2 := disk;
      WriteRange(start, position, buf, |buf|, false, cs);
      Overlaid(g, old(disk), d2, disk, cs, size, bytes, position, buf);
    }

    /**
     Write `buf` at `position`. On success the file reads as its old bytes with `buf`
     laid over them, and every other file reads as before; on failure every file,
     this one included, reads as before.
     */
    method WriteFile(first: nat, size: nat, position: nat, buf: seq<byte>,
                     ghost live: map<nat, seq<nat>>, ghost id: nat, ghost bytes: seq<byte>)
      returns (r: WriteResult, ghost cs: seq<nat>)
      requires Valid() && Sound(g, State(T(), live)) && id in live
      requires First(live[id]) == first && FileIs(g, disk, live[id], size, bytes)
      requires position + |buf| + g.ClusterBytes() - 1 < 0x1_0000_0000
      requires buf != [] ==> Room(CeilDiv(position + |buf|, g.ClusterBytes()) - |live[id]|)
      modifies this
      ensures Valid() && Sound(g, State(T(), live[id := cs])) && live[id] <= cs
      ensures r.NoSpace? <==> buf != [] && |live[id]| + |FreeSet(old(T()))| < CeilDiv(position + |buf|, g.ClusterBytes())
      ensures r.NoSpace? ==> FileIs(g, disk, cs, size, bytes)
      ensures r.Written? ==> r.first == First(cs) && FileIs(g, disk, cs, r.size, Overlay(bytes, position, buf))
      ensures forall other :: other in live && other != id ==> SameBytes(g, old(disk), disk, live[other])
    {
      if buf == [] {
        assert live[id := live[id]] == live;
        return Written(first, size), live[id];
      }
      NeededExact(g, position + |buf|);
      var needed := ClustersNeeded(g, position + |buf|);
      var existing, last := 0, 0;
      if first != 0 {
        existing, last := CountChain(first, live[id]);
      }
      var ok, start;
      ok, start, cs := ExtendChain(first, last, existing, needed, live, id);
      SoundInData(g, old(T()), live);
      assert live[id := cs][id] == cs;
      SoundInData(g, T(), live[id := cs]);
      ExtendedBytes(g, old(disk), disk, live, id, cs, size, bytes);
      if !ok {
        if first == 0 {
          DropPartial(g, T(), live, id, cs);
          cs := [];
        }
        return NoSpace, cs;
      }
      MoreClusters(g, needed, |cs|);
      assert cs != [] && IsChain(g, T(), cs);
      ghost var d1 := disk;
      StoreData(start, size, position, buf, cs, bytes);
      r := Written(start, if position + |buf| > size then position + |buf| else size);
      WritesKeepOthers(g, old(disk), d1, disk, T(), live, id, cs);
    }

    /**
     Reads past the end of the file are cut short at `size`, unless `position + len` wraps
     around 2^32: then the file's bytes come first and whatever lies behind them follows.
     */
    method ReadFile(first: nat, size: nat, position: nat, len: nat, ghost cs: seq<nat>) returns (out: seq<byte>)
      requires Valid() && (cs == [] || IsChain(g, T(), cs)) && First(cs) == first && size <= |cs| * g.ClusterBytes()
      requires size < 0x1_0000_0000 && position < 0x1_0000_0000 && len < 0x1_0000_0000
      ensures position >= size ==> out == []
      ensures position < size ==>
                ReadEnd(size, position, len) - position <= |out|
                && out[..ReadEnd(size, position, len) - position] == Contents(g, disk, cs, size)[position..ReadEnd(size, position, len)]
      ensures position < size && position + len < 0x1_0000_0000 ==> |out| == ReadEnd(size, position, len) - position
      ensures position < size < |cs| * g.ClusterBytes() && position + len >= 0x1_0000_0000 ==>
                |out| > ReadEnd(size, position, len) - position
    {
      if position >= size {
        return [];
      }
      hide Copied;
      hide Contents;
      hide IsChain;
      hide Table;
      hide Geometry.ClusterBytes;
      hide ReadEnd;
      ghost var wanted := ReadEnd(size, position, len) - position;
      hide ReadLength;
      out := ReadAt(first, position, ReadLength(size, position, len), cs);
      ReadSpan(size, position, len, |cs| * g.ClusterBytes(), |out|);
      ReadIs(g, disk, cs, size, position, out, wanted);
    }

    /** Drop a file's clusters; its chain becomes empty. */
    method Truncate(first: nat, ghost live: map<nat, seq<nat>>, ghost id: nat)
      requires Valid() && Sound(g, State(T(), live)) && id in live && First(live[id]) == first
      modifies this
      ensures Valid() && Sound(g, State(T(), live[id := []])) && OnlyFatChanged(g, old(disk), disk)
      ensures T() == Released(old(T()), live[id])
      ensures forall other :: other in live && other != id ==> SameBytes(g, old(disk), disk, live[other])
    {
      ReleaseKeepsChains(g, T(), live, id);
      if first != 0 {
        FreeChain(first, live[id]);
      }
      forall other | other in live && other != id
        ensures SameBytes(g, old(disk), disk, live[other])
      {
        FatChangeSameBytes(g, old(disk), disk, live[other]);
      }
    }

    /** The new directory's own cluster, zeroed; 0 when the volume is full. */
    method MakeDirCluster(ghost live: map<nat, seq<nat>>, ghost id: nat) returns (cluster: nat)
      requires Valid() && Sound(g, State(T(), live)) && id !in live && Room(1)
      modifies this
      ensures Valid()
      ensures cluster == 0 <==> FreeSet(old(T())) == {}
      ensures cluster == 0 ==> disk == old(disk)
      ensures cluster != 0 ==>
                && Sound(g, State(T(), live[id := [cluster]]))
                && InData(g, [cluster])
                && Contents(g, disk, [cluster], g.ClusterBytes()) == seq(g.ClusterBytes(), _ => 0)
      ensures forall other :: other in live ==> SameBytes(g, old(disk), disk, live[other])
    {
      cluster := NewChain(live, id);
      if cluster == 0 {
        return;
      }
      ghost var d1 := disk;
      SoundInData(g, T(), live[id := [cluster]]);
      assert live[id := [cluster]][id] == [cluster];
      ZeroCluster(cluster);
      ZeroedContents(g, disk, cluster);
      MkdirKeepsOthers(g, old(disk), d1, disk, live, id, cluster);
    }

    /** Write zeros to every sector of a cluster. */
    method ZeroCluster(cluster: nat)
      requires Valid() && IsDataCluster(g, cluster)
      modifies this`disk
      ensures Valid() && T() == old(T()) && OnlyChainChanged(g, old(disk), disk, [cluster])
      ensures ZeroFrom(disk, ClusterLba(g, cluster), g.sectorsPerCluster)
    {
      hide Table;
      hide ClusterLba;
      hide ZeroSector;
      ghost var d0 := disk;
      var base := ClusterLba(g, cluster);
      SectorOfCluster(g, disk, cluster, 0);
      var s := 0;
      while s < g.sectorsPerCluster
        invariant 0 <= s <= g.sectorsPerCluster && Valid() && |disk| == |d0|
        invariant Table(g, disk) == Table(g, d0) && OnlyChainChanged(g, d0, disk, [cluster]) && ZeroFrom(disk, base, s)
      {
        ZeroMore(g, d0, disk, cluster, s);
        disk := disk[base + s := ZeroSector()];
        s := s + 1;
      }
    }

    /** A chain of one fresh cluster. */
    method NewChain(ghost live: map<nat, seq<nat>>, ghost id: nat) returns (cluster: nat)
      requires Valid() && Sound(g, State(T(), live)) && id !in live && Room(1)
      modifies this
      ensures Valid() && OnlyFatChanged(g, old(disk), disk)
      ensures cluster == 0 <==> FreeSet(old(T())) == {}
      ensures cluster == 0 ==> disk == old(disk)
      ensures cluster != 0 ==> Sound(g, State(T(), live[id := [cluster]])) && IsChain(g, T(), [cluster])
    {
      hide EnoughData;
      hide IsChosen;
      hide ChainsOk;
      ghost var t := T();
      cluster := AllocCluster();
      if cluster == 0 {
        return;
      }
      FreshChain(g, t, live, id, cluster, old(nextFreeHint));
      assert T()[cluster := g.EocMarker()] == T();
      SetNext(cluster, g.EocMarker());
    }
  }

  lemma {:induction false} OnlyFatSame(g: Geometry, d: Disk)
    ensures OnlyFatChanged(g, d, d)
  {
  }

  lemma {:induction false} FirstIsZero(g: Geometry, t: seq<nat>, live: map<nat, seq<nat>>, id: nat)
    requires Sound(g, State(t, live)) && id in live
    ensures First(live[id]) == 0 <==> live[id] == []
  {
  }

  lemma {:induction false} FirstOf(cs: seq<nat>)
    ensures cs != [] ==> First(cs) == cs[0]
  {
  }

  lemma {:induction false} OnlyFatAddsUp(g: Geometry, d0: Disk, d1: Disk, d2: Disk)
    requires OnlyFatChanged(g, d0, d1) && OnlyFatChanged(g, d1, d2)
    ensures OnlyFatChanged(g, d0, d2)
  {
  }

  /** A fresh cluster is a chain of its own. */
  lemma {:induction false} FreshChain(g: Geometry, t: seq<nat>, live: map<nat, seq<nat>>, id: nat, c: nat, hint: nat)
    requires g.Valid() && Sound(g, State(t, live)) && id !in live && 2 + g.clusters <= |t|
    requires IsChosen(FreeSet(t), |t|, hint, c) && EnoughData(g, FreeSet(t), |t|, hint, 1)
    ensures Sound(g, State(t[c := g.EocMarker()], live[id := [c]])) && IsChain(g, t[c := g.EocMarker()], [c])
  {
    var with0 := live[id := []];
    ChoiceInDataIff(g, FreeSet(t), |t|, hint, c, 1);
    GrowKeepsChains(g, t, with0, id, c);
    assert with0[id] + [c] == [c] && with0[id := [c]] == live[id := [c]];
    assert live[id := [c]][id] == [c];
  }

  /** Where a read of `len` bytes at `position` should end. */
  function ReadEnd(size: nat, position: nat, len: nat): (end: nat)
    requires position < size
    ensures position <= end <= size
  {
    if position + len > size then size else position + len
  }

  /** How many bytes the driver asks for. */
  function ReadLength(size: nat, position: nat, len: nat): nat
    requires position < size
  {
    if (position + len) % 0x1_0000_0000 > size then size - position else len
  }

  lemma {:induction false} ReadSpan(size: nat, position: nat, len: nat, capacity: nat, got: nat)
    requires position < size <= capacity && size < 0x1_0000_0000 && len < 0x1_0000_0000
    requires got <= ReadLength(size, position, len) && (got < ReadLength(size, position, len) ==> capacity <= position + got)
    ensures ReadEnd(size, position, len) - position <= got
    ensures position + len < 0x1_0000_0000 ==> got == ReadEnd(size, position, len) - position
    ensures size < capacity && position + len >= 0x1_0000_0000 ==> got > ReadEnd(size, position, len) - position
  {
  }

  function ClusterIndex(g: Geometry, off: nat): nat
    requires g.ClusterBytes() > 0
  {
    Quotient(off, g.ClusterBytes())
  }

  function SectorFor(g: Geometry, cluster: nat, off: nat): nat
    requires g.ClusterBytes() > 0
  {
    (ClusterLba(g, cluster) + off % g.ClusterBytes() / 512) % 0x1_0000_0000
  }

  function PlaceFor(g: Geometry, off: nat): nat
    requires g.ClusterBytes() > 0
  {
    off % g.ClusterBytes() % 512
  }

  lemma {:induction false} LocateOk(g: Geometry, disk: Disk, cs: seq<nat>, off: nat)
    requires g.Valid() && g.Fits(disk) && |disk| <= 0x1_0000_0000 && IsChain(g, Table(g, disk), cs)
    ensures g.ClusterBytes() > 0 && PlaceFor(g, off) == off % 512
    ensures off < |cs| * g.ClusterBytes() ==>
              && ClusterIndex(g, off) < |cs| && off / 512 < |cs| * g.sectorsPerCluster
              && SectorFor(g, cs[ClusterIndex(g, off)], off) == SectorLba(g, cs, off / 512)
              && g.dataStart <= SectorLba(g, cs, off / 512) < |disk|
  {
    hide SectorLba;
    hide Table;
    hide ClusterLba;
    SplitOffset(g, off);
    InCluster(off, |cs|, g.ClusterBytes());
    if off < |cs| * g.ClusterBytes() {
      OffsetPlace(g, disk, cs, off, off / g.ClusterBytes(), off % g.ClusterBytes());
    }
  }

  lemma {:induction false} NotStopped(g: Geometry, disk: Disk, cs: seq<nat>, k: nat)
    requires g.Valid() && IsChain(g, Table(g, disk), cs) && k < |cs|
    ensures !Stops(g, cs[k])
  {
  }

  /** Cluster first or sector first, byte `off` of a chain is in the same place. */
  lemma {:induction false} OffsetPlace(g: Geometry, disk: Disk, cs: seq<nat>, off: nat, q: nat, r: nat)
    requires g.Valid() && g.Fits(disk) && InData(g, cs) && q < |cs| && r < g.ClusterBytes() && off == q * g.ClusterBytes() + r
    ensures off / 512 < |cs| * g.sectorsPerCluster && SectorLba(g, cs, off / 512) == ClusterLba(g, cs[q]) + r / 512
    ensures g.dataStart <= SectorLba(g, cs, off / 512) < |disk| && r % 512 == off % 512
  {
    var spc, s := g.sectorsPerCluster, r / 512;
    assert off == 512 * (q * spc + s) + r % 512;
    Mod512(q * spc + s, r % 512);
    DivMod(q * spc + s, q, s, spc);
    MulMonotone(q + 1, |cs|, spc);
    MulSucc(q, spc);
    SectorLbaOk(g, disk, cs, off / 512);
  }

  lemma {:induction false} InCluster(off: nat, n: nat, d: nat)
    requires d > 0
    ensures off == off / d * d + off % d && 0 <= off % d < d && (off < n * d ==> off / d < n)
  {
    if off < n * d { QuotientBelow(off, n, d); }
  }

  lemma {:induction false} ByteIs(g: Geometry, disk: Disk, cs: seq<nat>, off: nat, k: nat, lba: nat)
    requires g.Valid() && g.Fits(disk) && InData(g, cs) && off + k < |cs| * g.ClusterBytes() && off % 512 + k < 512
    requires off / 512 < |cs| * g.sectorsPerCluster && lba == SectorLba(g, cs, off / 512) && lba < |disk|
    ensures ByteAt(g, disk, cs, off + k) == disk[lba][off % 512 + k]
  {
    SameSectorByte(off, k);
  }

  /** As far as they come from the chain, the bytes read are its bytes. */
  ghost predicate Copied(g: Geometry, disk: Disk, cs: seq<nat>, position: nat, out: seq<byte>) {
    && g.Valid() && g.Fits(disk) && InData(g, cs)
    && forall k :: 0 <= k < |out| && position + k < 0x1_0000_0000 && position + k < |cs| * g.ClusterBytes() ==>
         out[k] == ByteAt(g, disk, cs, position + k)
  }

  lemma {:induction false} CopyNone(g: Geometry, disk: Disk, cs: seq<nat>, position: nat)
    requires g.Valid() && g.Fits(disk) && IsChain(g, Table(g, disk), cs)
    ensures Copied(g, disk, cs, position, [])
  {
  }

  lemma {:induction false} CopyMore(g: Geometry, disk: Disk, cs: seq<nat>, position: nat, out: seq<byte>, off: nat, lba: nat, n: nat)
    requires Copied(g, disk, cs, position, out) && off == (position + |out|) % 0x1_0000_0000 && off % 512 + n <= 512 && lba < |disk|
    requires off < |cs| * g.ClusterBytes() ==> off / 512 < |cs| * g.sectorsPerCluster && lba == SectorLba(g, cs, off / 512)
    ensures Copied(g, disk, cs, position, out + disk[lba][off % 512..off % 512 + n])
  {
    hide SectorLba;
    hide ByteAt;
    hide Geometry.ClusterBytes;
    var out' := out + disk[lba][off % 512..off % 512 + n];
    forall k | |out| <= k < |out'| && position + k < 0x1_0000_0000 && position + k < |cs| * g.ClusterBytes()
      ensures out'[k] == ByteAt(g, disk, cs, position + k)
    {
      assert off == position + |out|;
      ByteIs(g, disk, cs, off, k - |out|, lba);
    }
  }

  lemma {:induction false} ReadIs(g: Geometry, disk: Disk, cs: seq<nat>, size: nat, position: nat, out: seq<byte>, n: nat)
    requires Copied(g, disk, cs, position, out) && size <= |cs| * g.ClusterBytes() && size < 0x1_0000_0000
    requires position + n <= size && n <= |out|
    ensures out[..n] == Contents(g, disk, cs, size)[position..position + n]
  {
    hide ByteAt;
  }

  /** The file with chain `cs` and length `size` holds `bytes`. */
  ghost predicate FileIs(g: Geometry, disk: Disk, cs: seq<nat>, size: nat, bytes: seq<byte>) {
    && g.Valid() && g.Fits(disk) && InData(g, cs)
    && size <= |cs| * g.ClusterBytes() && Contents(g, disk, cs, size) == bytes
  }

  lemma {:induction false} SoundInData(g: Geometry, t: seq<nat>, live: map<nat, seq<nat>>)
    requires Sound(g, State(t, live))
    ensures forall id :: id in live ==> InData(g, live[id])
  {
  }

  lemma {:induction false} LinkAt(g: Geometry, disk: Disk, cs: seq<nat>, k: nat)
    requires g.Valid() && IsChain(g, Table(g, disk), cs) && k < |cs|
    ensures if k == |cs| - 1 then g.IsEoc(NextCluster(g, disk, cs[k]))
            else NextCluster(g, disk, cs[k]) == cs[k + 1] && !g.IsEoc(cs[k + 1])
  {
    assert NextCluster(g, disk, cs[k]) == Table(g, disk)[cs[k]];
  }

  /** A chain reads the same on both disks, all the way to the end of its last cluster. */
  ghost predicate SameBytes(g: Geometry, d0: Disk, d1: Disk, cs: seq<nat>) {
    && g.Valid() && g.Fits(d0) && g.Fits(d1) && InData(g, cs)
    && Contents(g, d1, cs, |cs| * g.ClusterBytes()) == Contents(g, d0, cs, |cs| * g.ClusterBytes())
  }

  lemma {:induction false} FatChangeSameBytes(g: Geometry, d0: Disk, d1: Disk, cs: seq<nat>)
    requires g.Valid() && g.Fits(d0) && DataKept(g, d0, d1) && InData(g, cs)
    ensures SameBytes(g, d0, d1, cs)
  {
    forall off | 0 <= off < |cs| * g.ClusterBytes()
      ensures ByteAt(g, d1, cs, off) == ByteAt(g, d0, cs, off)
    {
      FatChangeKeepsBytes(g, d0, d1, cs, off);
    }
  }

  lemma {:induction false} ChainWriteSameBytes(g: Geometry, d0: Disk, d1: Disk, cs: seq<nat>, other: seq<nat>)
    requires g.Valid() && g.Fits(d0) && OnlyChainChanged(g, d0, d1, cs) && InData(g, other) && Disjoint(cs, other)
    ensures SameBytes(g, d0, d1, other)
  {
    OtherFileKept(g, d0, d1, cs, other, |other| * g.ClusterBytes());
  }

  function ZeroSector(): (z: Sector)
    ensures forall i :: 0 <= i < 512 ==> z[i] == 0
  {
    seq(512, _ => 0)
  }

  predicate ZeroFrom(disk: Disk, base: int, n: nat) {
    0 <= base && base + n <= |disk| && forall lba :: base <= lba < base + n ==> disk[lba] == ZeroSector()
  }

  lemma {:induction false} ZeroMore(g: Geometry, d0: Disk, d1: Disk, cluster: nat, s: nat)
    requires g.Valid() && g.Fits(d1) && IsDataCluster(g, cluster) && s < g.sectorsPerCluster
    requires OnlyChainChanged(g, d0, d1, [cluster]) && ZeroFrom(d1, ClusterLba(g, cluster), s)
    ensures g.dataStart <= ClusterLba(g, cluster) + s < |d1|
    ensures var d2 := d1[ClusterLba(g, cluster) + s := ZeroSector()];
            Table(g, d2) == Table(g, d1) && OnlyChainChanged(g, d0, d2, [cluster]) && ZeroFrom(d2, ClusterLba(g, cluster), s + 1)
  {
    hide ClusterLba;
    hide ClusterOf;
    hide Table;
    hide ZeroSector;
    SectorOfCluster(g, d1, cluster, s);
    var lba := ClusterLba(g, cluster) + s;
    TableFrame(g, d1, d1[lba := ZeroSector()]);
  }

  lemma {:induction false} ZeroedContents(g: Geometry, disk: Disk, cluster: nat)
    requires g.Valid() && g.Fits(disk) && IsDataCluster(g, cluster) && ZeroFrom(disk, ClusterLba(g, cluster), g.sectorsPerCluster)
    ensures InData(g, [cluster]) && Contents(g, disk, [cluster], g.ClusterBytes()) == seq(g.ClusterBytes(), _ => 0)
  {
    hide ByteAt;
    forall i | 0 <= i < g.ClusterBytes()
      ensures ByteAt(g, disk, [cluster], i) == 0
    {
      ZeroedByte(g, disk, cluster, i);
    }
  }

  lemma {:induction false} ZeroedByte(g: Geometry, disk: Disk, cluster: nat, i: nat)
    requires g.Valid() && g.Fits(disk) && IsDataCluster(g, cluster) && ZeroFrom(disk, ClusterLba(g, cluster), g.sectorsPerCluster)
    requires i < g.ClusterBytes()
    ensures InData(g, [cluster]) && i < |[cluster]| * g.ClusterBytes() && ByteAt(g, disk, [cluster], i) == 0
  {
    hide ClusterLba;
    hide SectorLba;
    OffsetPlace(g, disk, [cluster], i, 0, i);
    assert i / 512 < g.sectorsPerCluster;
  }

  /** A new directory's cluster is zeroed without touching any live file. */
  lemma {:induction false} MkdirKeepsOthers(g: Geometry, d0: Disk, d1: Disk, d2: Disk, live: map<nat, seq<nat>>, id: nat, cluster: nat)
    requires g.Valid() && g.Fits(d0) && g.Fits(d1) && OnlyFatChanged(g, d0, d1) && OnlyChainChanged(g, d1, d2, [cluster])
    requires id !in live && Sound(g, State(Table(g, d1), live[id := [cluster]]))
    ensures forall other :: other in live ==> SameBytes(g, d0, d2, live[other])
  {
    var all := live[id := [cluster]];
    forall other | other in live
      ensures SameBytes(g, d0, d2, live[other])
    {
      assert all[other] == live[other] && all[id] == [cluster];
      assert Disjoint(all[id], all[other]);
      SoundInData(g, Table(g, d1), all);
      FatChangeSameBytes(g, d0, d1, live[other]);
      ChainWriteSameBytes(g, d1, d2, [cluster], live[other]);
    }
  }

  /** Growing a chain changes nothing in its old part. */
  lemma {:induction false} ExtendedBytes(g: Geometry, d0: Disk, d1: Disk, live: map<nat, seq<nat>>, id: nat, cs: seq<nat>,
                      size: nat, bytes: seq<byte>)
    requires g.Valid() && g.Fits(d0) && DataKept(g, d0, d1)
    requires id in live && live[id] <= cs && InData(g, cs) && FileIs(g, d0, live[id], size, bytes)
    requires forall other :: other in live ==> InData(g, live[other])
    ensures FileIs(g, d1, cs, size, bytes)
    ensures forall other :: other in live ==> SameBytes(g, d0, d1, live[other])
  {
    MoreClusters(g, |live[id]|, |cs|);
    forall off | 0 <= off < size
      ensures ByteAt(g, d1, cs, off) == bytes[off]
    {
      PrefixBytes(g, d1, live[id], cs, off);
      FatChangeKeepsBytes(g, d0, d1, live[id], off);
    }
    forall other | other in live
      ensures SameBytes(g, d0, d1, live[other])
    {
      FatChangeSameBytes(g, d0, d1, live[other]);
    }
  }

  /** Clusters that were taken but never handed back to the file belong to nobody, and disturb nobody. */
  lemma {:induction false} DropPartial(g: Geometry, t: seq<nat>, live: map<nat, seq<nat>>, id: nat, cs: seq<nat>)
    requires Sound(g, State(t, live[id := cs])) && id in live
    ensures Sound(g, State(t, live[id := []]))
  {
    forall other | other in live && other != id
      ensures live[other] == [] || IsChain(g, t, live[other])
    {
      assert live[id := cs][other] == live[other];
    }
    forall a, b | a in live && b in live && a != b && a != id && b != id
      ensures Disjoint(live[a], live[b])
    {
      assert Disjoint(live[id := cs][a], live[id := cs][b]);
    }
  }

  /** The cursor has not been used yet, or it stands on the chain. */
  predicate CursorOnChain(w: Walk, cs: seq<nat>) {
    w == Walk(0, 0, 0) || (w.index < |cs| && w.first == cs[0] && w.cluster == cs[w.index])
  }

  lemma {:induction false} CursorOnChainOk(g: Geometry, disk: Disk, cs: seq<nat>, w: Walk)
    requires g.Valid() && IsChain(g, Table(g, disk), cs) && CursorOnChain(w, cs)
    ensures CursorOk(g, disk, w)
  {
    if w != Walk(0, 0, 0) {
      WalkOnChain(g, disk, cs, w.index);
    }
  }

  lemma {:induction false} SameSectorByte(off: nat, k: nat)
    requires off % 512 + k < 512
    ensures (off + k) / 512 == off / 512 && (off + k) % 512 == off % 512 + k
  {
  }

  /** Byte for byte: `data[..n]` laid over the file at `position`, everything else as before. */
  ghost predicate Patched(g: Geometry, d0: Disk, d1: Disk, cs: seq<nat>, position: nat, data: seq<byte>, n: nat) {
    && g.Valid() && g.Fits(d0) && g.Fits(d1) && InData(g, cs) && n <= |data|
    && forall off :: 0 <= off < |cs| * g.ClusterBytes() ==>
         ByteAt(g, d1, cs, off) == if position <= off < position + n then data[off - position] else ByteAt(g, d0, cs, off)
  }

  lemma {:induction false} PatchNone(g: Geometry, disk: Disk, cs: seq<nat>, position: nat, data: seq<byte>)
    requires g.Valid() && g.Fits(disk) && IsChain(g, Table(g, disk), cs)
    ensures Patched(g, disk, disk, cs, position, data, 0) && OnlyChainChanged(g, disk, disk, cs)
  {
  }

  /** `sector` is `buffer` with `data[from..from + count]` put in at `at`. */
  predicate Filled(buffer: Sector, sector: Sector, at: nat, data: seq<byte>, from: nat, count: nat)
    requires from + count <= |data|
  {
    forall k :: 0 <= k < 512 ==> sector[k] == if at <= k < at + count then data[from + k - at] else buffer[k]
  }

  /** Of a sector that is filled whole, the old contents do not matter. */
  lemma {:induction false} WholeSector(buffer: Sector, old0: Sector, sector: Sector, at: nat, data: seq<byte>, from: nat, count: nat)
    requires from + count <= |data| && Filled(buffer, sector, at, data, from, count)
    requires at != 0 || count != 512 ==> buffer == old0
    ensures Filled(old0, sector, at, data, from, count)
  {
  }

  lemma {:induction false} PatchStep(g: Geometry, d0: Disk, d1: Disk, cs: seq<nat>, position: nat, data: seq<byte>, n: nat,
                  count: nat, sector: Sector, lba: nat)
    requires Patched(g, d0, d1, cs, position, data, n) && Distinct(cs) && OnlyChainChanged(g, d0, d1, cs)
    requires 0 < count <= |data| - n && position + |data| <= |cs| * g.ClusterBytes()
    requires (position + n) % 512 + count <= 512
    requires (position + n) / 512 < |cs| * g.sectorsPerCluster && lba == SectorLba(g, cs, (position + n) / 512) && lba < |d1|
    requires Filled(d1[lba], sector, (position + n) % 512, data, n, count)
    ensures var d2 := d1[lba := sector];
            && Patched(g, d0, d2, cs, position, data, n + count)
            && OnlyChainChanged(g, d0, d2, cs)
            && Table(g, d2) == Table(g, d1)
  {
    hide SectorLba;
    hide ByteAt;
    hide OnChain;
    hide Filled;
    hide Geometry.ClusterBytes;
    var s := (position + n) / 512;
    var d2 := d1[lba := sector];
    forall off | 0 <= off < |cs| * g.ClusterBytes()
      ensures ByteAt(g, d2, cs, off) == if position <= off < position + n + count then data[off - position] else ByteAt(g, d0, cs, off)
    {
      PatchByte(g, d1, cs, position + n, data, n, count, sector, lba, off);
    }
    SectorLbaOk(g, d1, cs, s);
    TableFrame(g, d1, d2);
  }

  lemma {:induction false} PatchByte(g: Geometry, d1: Disk, cs: seq<nat>, at: nat, data: seq<byte>, n: nat, count: nat, sector: Sector,
                                     lba: nat, off: nat)
    requires g.Valid() && g.Fits(d1) && InData(g, cs) && Distinct(cs) && off < |cs| * g.ClusterBytes()
    requires n + count <= |data| && at % 512 + count <= 512
    requires at / 512 < |cs| * g.sectorsPerCluster && lba == SectorLba(g, cs, at / 512) && lba < |d1|
    requires Filled(d1[lba], sector, at % 512, data, n, count)
    ensures ByteAt(g, d1[lba := sector], cs, off) == if at <= off < at + count then data[n + off - at] else ByteAt(g, d1, cs, off)
  {
    hide SectorLba;
    hide ByteAt;
    hide Geometry.ClusterBytes;
    OneSectorWritten(g, d1, cs, at / 512, sector, off);
    if off / 512 == at / 512 {
      ByteIs(g, d1, cs, 512 * (at / 512), off % 512, lba);
    }
  }

  /** Entries, inside the table or not, only ever go to zero. */
  ghost predicate OnlyZeroed(g: Geometry, d0: Disk, d1: Disk) {
    && |d0| == |d1|
    && forall c: nat :: NextCluster(g, d1, c) == NextCluster(g, d0, c) || NextCluster(g, d1, c) == 0
  }

  /** The first `i` clusters of `cs` are free, the rest are as they were, and `cluster` is the next one to free. */
  ghost predicate PartlyFreed(g: Geometry, d0: Disk, d1: Disk, cs: seq<nat>, i: int, cluster: nat) {
    && g.Fits(d0) && IsChain(g, Table(g, d0), cs) && OnlyFatChanged(g, d0, d1)
    && 0 <= i <= |cs|
    && Table(g, d1) == Released(Table(g, d0), cs[..i])
    && (if i < |cs| then cluster == cs[i] else g.IsEoc(cluster))
  }

  lemma {:induction false} FreeNone(g: Geometry, disk: Disk, cs: seq<nat>, first: nat)
    requires cs != [] ==> g.Fits(disk) && IsChain(g, Table(g, disk), cs) && cs[0] == first
    ensures OnlyZeroed(g, disk, disk) && (cs != [] ==> PartlyFreed(g, disk, disk, cs, 0, first))
  {
  }

  lemma {:induction false} FreedAll(g: Geometry, d0: Disk, d1: Disk, cs: seq<nat>, i: int, cluster: nat)
    requires g.Valid() && PartlyFreed(g, d0, d1, cs, i, cluster) && Stops(g, cluster)
    ensures Table(g, d1) == Released(Table(g, d0), cs) && OnlyFatChanged(g, d0, d1) && g.Fits(d0)
  {
    assert i == |cs|;
    assert cs[..i] == cs;
  }

  lemma {:induction false} FreeStep(g: Geometry, d0: Disk, d1: Disk, cs: seq<nat>, i: int, cluster: nat)
    requires g.Valid() && PartlyFreed(g, d0, d1, cs, i, cluster) && !Stops(g, cluster)
    ensures PartlyFreed(g, d0, SetNextCluster(g, d1, cluster, 0), cs, i + 1, NextCluster(g, d1, cluster))
  {
    hide Released;
    hide Table;
    hide NextCluster;
    hide SetNextCluster;
    hide IsChain;
    hide OnlyFatChanged;
    FreeingAt(g, d0, d1, cs, i, cluster);
    TableAt(g, d1, cluster);
    FreedNext(g, Table(g, d0), cs, i);
    TableAfterSet(g, d1, cluster, 0);
    FatWriteOnly(g, d0, d1, cluster);
  }

  lemma {:induction false} FreeingAt(g: Geometry, d0: Disk, d1: Disk, cs: seq<nat>, i: int, cluster: nat)
    requires g.Valid() && PartlyFreed(g, d0, d1, cs, i, cluster) && !Stops(g, cluster)
    ensures i < |cs| && cluster == cs[i] < g.TotalEntries() && g.fatStart + g.sectorsPerFat <= |d1|
  {
    hide Released;
    hide NextCluster;
  }

  lemma {:induction false} FatWriteOnly(g: Geometry, d0: Disk, d1: Disk, cluster: nat)
    requires g.Valid() && OnlyFatChanged(g, d0, d1) && cluster < g.TotalEntries() && g.fatStart + g.sectorsPerFat <= |d1|
    ensures OnlyFatChanged(g, d0, SetNextCluster(g, d1, cluster, 0))
  {
    TableAfterSet(g, d1, cluster, 0);
  }

  lemma {:induction false} TableAt(g: Geometry, disk: Disk, c: nat)
    requires c < g.TotalEntries()
    ensures Table(g, disk)[c] == NextCluster(g, disk, c)
  {
  }

  lemma {:induction false} FreedNext(g: Geometry, t: seq<nat>, cs: seq<nat>, i: nat)
    requires g.Valid() && IsChain(g, t, cs) && i < |cs|
    ensures Released(t, cs[..i + 1]) == Released(t, cs[..i])[cs[i] := 0]
    ensures if i + 1 < |cs| then Released(t, cs[..i])[cs[i]] == cs[i + 1] else g.IsEoc(Released(t, cs[..i])[cs[i]])
  {
    ChainStillAhead(g, t, cs, i);
    assert cs[..i + 1][..i] == cs[..i];
  }

  /** Zeroing an entry zeroes no other, and takes it out of the non-free set. */
  lemma {:induction false} ZeroedOnce(g: Geometry, disk: Disk, cluster: nat)
    ensures var d := SetNextCluster(g, disk, cluster, 0);
            && OnlyZeroed(g, disk, d)
            && NonZero(g, d) <= NonZero(g, disk)
            && |NonZero(g, d)| <= |NonZero(g, disk)|
            && (EntryLba(g, cluster) < |disk| && NextCluster(g, disk, cluster) != 0 ==> |NonZero(g, d)| < |NonZero(g, disk)|)
  {
    var d := SetNextCluster(g, disk, cluster, 0);
    forall c: nat
      ensures NextCluster(g, d, c) == if c == cluster && EntryLba(g, cluster) < |disk| then 0 else NextCluster(g, disk, c)
    {
      EntryAfterSet(g, disk, cluster, 0, c);
    }
    SubsetSize(NonZero(g, d), NonZero(g, disk));
    if EntryLba(g, cluster) < |disk| && NextCluster(g, disk, cluster) != 0 {
      assert cluster in NonZero(g, disk) && cluster !in NonZero(g, d);
      SubsetSize(NonZero(g, d), NonZero(g, disk) - {cluster});
    }
  }

  /** While a chain is being zeroed from the front, its remaining entries are intact. */
  lemma {:induction false} ChainStillAhead(g: Geometry, t: seq<nat>, cs: seq<nat>, i: nat)
    requires g.Valid() && IsChain(g, t, cs) && i <= |cs|
    ensures i < |cs| ==> Released(t, cs[..i])[cs[i]] == t[cs[i]]
    ensures i < |cs| - 1 ==> t[cs[i]] == cs[i + 1]
  {
    if i < |cs| {
      ChainAcyclic(g, t, cs);
      ReleasedAt(t, cs[..i], cs[i]);
    }
  }

  /** Zero-fill up to `position`, then the data: together, the overlay. */
  lemma {:induction false} Overlaid(g: Geometry, d1: Disk, d2: Disk, d3: Disk, cs: seq<nat>,
                                    size: nat, bytes: seq<byte>, position: nat, buf: seq<byte>)
    requires buf != [] && position + |buf| <= |cs| * g.ClusterBytes() && FileIs(g, d1, cs, size, bytes)
    requires if position > size then Patched(g, d1, d2, cs, size, seq(position - size, _ => 0), position - size) else d2 == d1
    requires Patched(g, d2, d3, cs, position, buf, |buf|)
    ensures FileIs(g, d3, cs, if position + |buf| > size then position + |buf| else size, Overlay(bytes, position, buf))
  {
    var newSize := if position + |buf| > size then position + |buf| else size;
    forall i | 0 <= i < newSize
      ensures ByteAt(g, d3, cs, i) == Overlay(bytes, position, buf)[i]
    {
      assert i < size ==> ByteAt(g, d1, cs, i) == bytes[i];
    }
  }

  lemma {:induction false} WritesKeepOthers(g: Geometry, d0: Disk, d1: Disk, d3: Disk, t: seq<nat>,
                                            live: map<nat, seq<nat>>, id: nat, cs: seq<nat>)
    requires g.Valid() && g.Fits(d0) && OnlyChainChanged(g, d1, d3, cs) && id in live
    requires Sound(g, State(t, live[id := cs]))
    requires forall other :: other in live && other != id ==> SameBytes(g, d0, d1, live[other])
    ensures forall other :: other in live && other != id ==> SameBytes(g, d0, d3, live[other])
  {
    forall other | other in live && other != id
      ensures SameBytes(g, d0, d3, live[other])
    {
      assert Disjoint(live[id := cs][id], live[id := cs][other]);
      ChainWriteSameBytes(g, d1, d3, cs, live[other]);
    }
  }
}
