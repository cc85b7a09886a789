/**
 Where a file's bytes lie on a FAT volume, and which changes to the disk leave
 them alone.
 */
module FatVolume {
  import opened Lists
  import opened FatTable

  // ---------------------------------------------------------------- where a file's bytes are

  function ClusterLba(g: Geometry, cluster: nat): int {
    g.dataStart + (cluster - 2) * g.sectorsPerCluster
  }

  /** The data cluster a sector past `dataStart` belongs to. */
  function ClusterOf(g: Geometry, lba: nat): nat
    requires g.Valid() && g.dataStart <= lba
  {
    2 + (lba - g.dataStart) / g.sectorsPerCluster
  }

  predicate OnChain(g: Geometry, cs: seq<nat>, lba: nat)
    requires g.Valid()
  {
    g.dataStart <= lba && ClusterOf(g, lba) in cs
  }

  lemma {:induction false} MulMonotone(x: nat, y: nat, d: nat)
    requires x <= y
    ensures x * d <= y * d
  {
  }

  lemma {:induction false} MulSucc(x: nat, d: nat)
    ensures (x + 1) * d == x * d + d && x * d >= 0
  {
  }

  function Quotient(a: nat, d: nat): nat
    requires d > 0
  {
    a / d
  }

  lemma {:induction false} DivMod(a: nat, q: nat, r: nat, d: nat)
    requires d > 0 && r < d && a == q * d + r
    ensures a / d == q && a % d == r
  {
    assert a == a / d * d + a % d;
    if a / d < q {
      MulMonotone(a / d + 1, q, d);
    } else if a / d > q {
      MulMonotone(q + 1, a / d, d);
    }
  }

  lemma {:induction false} QuotientBelow(a: nat, n: nat, d: nat)
    requires d > 0 && a < n * d
    ensures a / d < n
  {
    if a / d >= n {
      MulMonotone(n, a / d, d);
    }
  }

  /** Sector `r` of cluster `c` lies on the disk, inside the data region, and belongs to `c`. */
  lemma {:induction false} SectorOfCluster(g: Geometry, disk: Disk, c: nat, r: nat)
    requires g.Valid() && g.Fits(disk) && IsDataCluster(g, c) && r < g.sectorsPerCluster
    ensures g.dataStart <= ClusterLba(g, c) + r < |disk|
    ensures ClusterOf(g, ClusterLba(g, c) + r) == c
    ensures (ClusterLba(g, c) + r - g.dataStart) % g.sectorsPerCluster == r
  {
    var spc, q := g.sectorsPerCluster, c - 2;
    MulMonotone(q + 1, g.clusters, spc);
    MulSucc(q, spc);
    DivMod(q * spc + r, q, r, spc);
  }

  /** Where sector `s` of a file with chain `cs` lives. */
  function SectorLba(g: Geometry, cs: seq<nat>, s: nat): int
    requires g.Valid() && s < |cs| * g.sectorsPerCluster
  {
    QuotientBelow(s, |cs|, g.sectorsPerCluster);
    ClusterLba(g, cs[s / g.sectorsPerCluster]) + s % g.sectorsPerCluster
  }

  predicate InData(g: Geometry, cs: seq<nat>) {
    forall i :: 0 <= i < |cs| ==> IsDataCluster(g, cs[i])
  }

  lemma {:induction false} SectorLbaOk(g: Geometry, disk: Disk, cs: seq<nat>, s: nat)
    requires g.Valid() && g.Fits(disk) && InData(g, cs) && s < |cs| * g.sectorsPerCluster
    ensures g.dataStart <= SectorLba(g, cs, s) < |disk|
    ensures OnChain(g, cs, SectorLba(g, cs, s))
  {
    QuotientBelow(s, |cs|, g.sectorsPerCluster);
    SectorOfCluster(g, disk, cs[s / g.sectorsPerCluster], s % g.sectorsPerCluster);
  }

  /** A file sector can be read back from its disk address: which cluster, and which sector of it. */
  lemma {:induction false} SectorPlace(g: Geometry, disk: Disk, cs: seq<nat>, s: nat, lba: nat)
    requires g.Valid() && g.Fits(disk) && InData(g, cs)
    requires s < |cs| * g.sectorsPerCluster && lba == SectorLba(g, cs, s)
    ensures g.dataStart <= lba && s / g.sectorsPerCluster < |cs|
    ensures cs[s / g.sectorsPerCluster] == ClusterOf(g, lba)
    ensures s % g.sectorsPerCluster == (lba - g.dataStart) % g.sectorsPerCluster
  {
    QuotientBelow(s, |cs|, g.sectorsPerCluster);
    SectorOfCluster(g, disk, cs[s / g.sectorsPerCluster], s % g.sectorsPerCluster);
  }

  lemma {:induction false} SameQuotient(a: nat, b: nat, d: nat)
    requires d > 0 && a / d == b / d && a % d == b % d
    ensures a == b
  {
    assert a == a / d * d + a % d && b == b / d * d + b % d;
  }

  lemma {:induction false} SameIndex(cs: seq<nat>, i: nat, j: nat)
    requires Distinct(cs) && i < |cs| && j < |cs| && cs[i] == cs[j]
    ensures i == j
  {
  }

  lemma {:induction false} SectorLbaInjective(g: Geometry, disk: Disk, cs: seq<nat>, s: nat, s': nat, lba: nat)
    requires g.Valid() && g.Fits(disk) && InData(g, cs) && Distinct(cs)
    requires s < |cs| * g.sectorsPerCluster && s' < |cs| * g.sectorsPerCluster
    requires lba == SectorLba(g, cs, s) && lba == SectorLba(g, cs, s')
    ensures s == s'
  {
    hide SectorLba;
    hide ClusterOf;
    SectorPlace(g, disk, cs, s, lba);
    SectorPlace(g, disk, cs, s', lba);
    SameIndex(cs, s / g.sectorsPerCluster, s' / g.sectorsPerCluster);
    SameQuotient(s, s', g.sectorsPerCluster);
  }

  /** Byte `off` of the file with chain `cs`. */
  function ByteAt(g: Geometry, disk: Disk, cs: seq<nat>, off: nat): byte
    requires g.Valid() && g.Fits(disk) && InData(g, cs) && off < |cs| * g.ClusterBytes()
  {
    SectorIndex(g, cs, off);
    SectorLbaOk(g, disk, cs, off / 512);
    disk[SectorLba(g, cs, off / 512)][off % 512]
  }

  lemma {:induction false} SectorIndex(g: Geometry, cs: seq<nat>, off: nat)
    requires g.Valid() && off < |cs| * g.ClusterBytes()
    ensures off / 512 < |cs| * g.sectorsPerCluster
  {
    assert |cs| * (g.sectorsPerCluster * 512) == |cs| * g.sectorsPerCluster * 512;
  }

  /** The code splits an offset by cluster first; splitting it by sector first gives the same place. */
  lemma {:induction false} SplitOffset(g: Geometry, off: nat)
    requires g.Valid()
    ensures g.ClusterBytes() > 0
    ensures off / g.ClusterBytes() == off / 512 / g.sectorsPerCluster
    ensures off % g.ClusterBytes() / 512 == off / 512 % g.sectorsPerCluster
    ensures off % g.ClusterBytes() % 512 == off % 512
  {
    var spc := g.sectorsPerCluster;
    var s, b := off / 512, off % 512;
    var q, r := s / spc, s % spc;
    assert s == q * spc + r;
    assert off == q * (spc * 512) + (r * 512 + b);
    assert r * 512 + b < spc * 512;
    DivMod(off, q, r * 512 + b, spc * 512);
  }

  /** The first `size` bytes of the file. */
  ghost function Contents(g: Geometry, disk: Disk, cs: seq<nat>, size: nat): (bytes: seq<byte>)
    requires g.Valid() && g.Fits(disk) && InData(g, cs) && size <= |cs| * g.ClusterBytes()
    ensures |bytes| == size
  {
    seq(size, i requires 0 <= i < size => ByteAt(g, disk, cs, i))
  }

  /** What a write of `data` at `position` makes of a file: a gap past the old end reads as zeros. */
  function Overlay(bytes: seq<byte>, position: nat, data: seq<byte>): (r: seq<byte>)
    ensures data != [] ==> |r| >= position + |data| && r[position..position + |data|] == data
  {
    if data == [] then bytes
    else
      seq(if position + |data| > |bytes| then position + |data| else |bytes|,
          i requires 0 <= i => if position <= i < position + |data| then data[i - position]
                               else if i < |bytes| then bytes[i] else 0)
  }

  /** Overwriting one sector of a file changes exactly the bytes in that sector. */
  lemma {:induction false} OneSectorWritten(g: Geometry, d0: Disk, cs: seq<nat>, s: nat, sector: Sector, off: nat)
    requires g.Valid() && g.Fits(d0) && InData(g, cs) && Distinct(cs)
    requires s < |cs| * g.sectorsPerCluster && 0 <= SectorLba(g, cs, s) < |d0| && off < |cs| * g.ClusterBytes()
    ensures ByteAt(g, d0[SectorLba(g, cs, s) := sector], cs, off)
         == if off / 512 == s then sector[off % 512] else ByteAt(g, d0, cs, off)
  {
    SectorIndex(g, cs, off);
    SectorLbaOk(g, d0, cs, off / 512);
    if SectorLba(g, cs, off / 512) == SectorLba(g, cs, s) {
      SectorLbaInjective(g, d0, cs, s, off / 512, SectorLba(g, cs, s));
    }
  }

  /** Nothing but the sectors of `cs` differs. */
  ghost predicate OnlyChainChanged(g: Geometry, d0: Disk, d1: Disk, cs: seq<nat>)
    requires g.Valid()
  {
    && |d0| == |d1|
    && forall lba :: 0 <= lba < |d0| && !OnChain(g, cs, lba) ==> d1[lba] == d0[lba]
  }

  ghost predicate OnlyFatChanged(g: Geometry, d0: Disk, d1: Disk) {
    && |d0| == |d1|
    && forall lba :: 0 <= lba < |d0| && !(g.fatStart <= lba < g.fatStart + g.sectorsPerFat) ==> d1[lba] == d0[lba]
  }

  /** Another file's bytes are untouched by writes along `cs`. */
  lemma {:induction false} OtherFileKept(g: Geometry, d0: Disk, d1: Disk, cs: seq<nat>, other: seq<nat>, size: nat)
    requires g.Valid() && g.Fits(d0) && OnlyChainChanged(g, d0, d1, cs)
    requires InData(g, other) && Disjoint(cs, other) && size <= |other| * g.ClusterBytes()
    ensures Contents(g, d1, other, size) == Contents(g, d0, other, size)
  {
    hide ByteAt;
    forall i | 0 <= i < size
      ensures i < |other| * g.ClusterBytes() && ByteAt(g, d1, other, i) == ByteAt(g, d0, other, i)
    {
      OtherByteKept(g, d0, d1, cs, other, i);
    }
  }

  lemma {:induction false} OtherByteKept(g: Geometry, d0: Disk, d1: Disk, cs: seq<nat>, other: seq<nat>, i: nat)
    requires g.Valid() && g.Fits(d0) && OnlyChainChanged(g, d0, d1, cs)
    requires InData(g, other) && Disjoint(cs, other) && i < |other| * g.ClusterBytes()
    ensures ByteAt(g, d1, other, i) == ByteAt(g, d0, other, i)
  {
    SectorIndex(g, other, i);
    var s := i / 512;
    SectorLbaOk(g, d0, other, s);
    QuotientBelow(s, |other|, g.sectorsPerCluster);
    SectorOfCluster(g, d0, other[s / g.sectorsPerCluster], s % g.sectorsPerCluster);
  }

  /** The data region is as it was. */
  ghost predicate DataKept(g: Geometry, d0: Disk, d1: Disk) {
    |d0| == |d1| && forall lba :: g.dataStart <= lba < |d0| ==> d1[lba] == d0[lba]
  }

  /** No file's bytes depend on anything before the data region, the FAT in particular. */
  lemma {:induction false} FatChangeKeepsBytes(g: Geometry, d0: Disk, d1: Disk, cs: seq<nat>, off: nat)
    requires g.Valid() && g.Fits(d0) && DataKept(g, d0, d1)
    requires InData(g, cs) && off < |cs| * g.ClusterBytes()
    ensures ByteAt(g, d1, cs, off) == ByteAt(g, d0, cs, off)
  {
    SectorIndex(g, cs, off);
    SectorLbaOk(g, d0, cs, off / 512);
  }

  lemma {:induction false} MoreClusters(g: Geometry, n: nat, m: nat)
    requires n <= m
    ensures n * g.ClusterBytes() <= m * g.ClusterBytes()
  {
  }

  lemma {:induction false} PrefixLba(g: Geometry, cs: seq<nat>, longer: seq<nat>, s: nat)
    requires g.Valid() && cs <= longer && s < |cs| * g.sectorsPerCluster
    ensures s < |longer| * g.sectorsPerCluster && SectorLba(g, longer, s) == SectorLba(g, cs, s)
  {
    MulMonotone(|cs|, |longer|, g.sectorsPerCluster);
    QuotientBelow(s, |cs|, g.sectorsPerCluster);
  }

  /** A longer chain reads the same in its old part. */
  lemma {:induction false} PrefixBytes(g: Geometry, disk: Disk, cs: seq<nat>, longer: seq<nat>, off: nat)
    requires g.Valid() && g.Fits(disk) && InData(g, longer) && cs <= longer && off < |cs| * g.ClusterBytes()
    ensures InData(g, cs) && off < |longer| * g.ClusterBytes()
    ensures ByteAt(g, disk, longer, off) == ByteAt(g, disk, cs, off)
  {
    hide SectorLba;
    assert forall i :: 0 <= i < |cs| ==> cs[i] == longer[i];
    MoreClusters(g, |cs|, |longer|);
    SectorIndex(g, cs, off);
    PrefixLba(g, cs, longer, off / 512);
  }
}
