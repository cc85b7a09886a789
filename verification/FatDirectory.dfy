/**
 Directories on the disk: scanning one, looking a name up, finding room for a new
 entry and growing the directory for it, creating a file and unlinking one.
 */
module FatDirectory {
  import opened Lists
  import opened FatTable
  import opened FatVolume
  import opened FatDriver
  import opened FatNames
  import opened FatDir
  import opened FatDirOps
  import opened FatSlots
  import opened FatDirDisk

  // ---------------------------------------------------------------- scanning

  /** An entry as the scanner hands it out: its name, its 8.3 slot, and where that slot and its run are. */
  datatype DirEntry = DirEntry(name: Name, dirent: Slot, lba: nat, off: nat, runLba: nat, runOff: nat, runSlots: nat)

  ghost predicate Describes(g: Geometry, d: Place, e: Entry, f: DirEntry) {
    && f.name == e.name && f.dirent == e.dirent && f.runSlots == e.runSlots
    && AddressOf(g, d, f.lba, f.off, e.pos) && AddressOf(g, d, f.runLba, f.runOff, e.runStart)
  }

  /** The scanner's variables while it collects a long name. */
  datatype Lfn = Lfn(chars: seq<Unit>, have: bool, seen: nat, highest: nat, sum: byte, runLba: nat, runOff: nat)

  ghost predicate Tracks(g: Geometry, d: Place, acc: Acc, l: Lfn) {
    && AccOk(acc) && acc.chars == l.chars && acc.run.Open? == l.have
    && (l.have ==> acc.run == Open(acc.run.start, l.highest, l.seen, l.sum) && AddressOf(g, d, l.runLba, l.runOff, acc.run.start))
  }

  /** A long-name slot. */
  method CollectSlot(l: Lfn, slot: Slot, lba: nat, off: nat, ghost g: Geometry, ghost d: Place, ghost acc: Acc, ghost k: nat)
    returns (l': Lfn)
    requires Tracks(g, d, acc, l) && !IsFree(slot) && IsLfn(slot) && AddressOf(g, d, lba, off, k)
    ensures Step(acc, slot, k).More? && Tracks(g, d, Step(acc, slot, k).acc, l')
  {
    hide Store;
    hide Units;
    hide AddressOf;
    l' := l;
    var ord := Order(slot);
    if ord < 1 || ord > LFN_MAX_SLOTS {
      return l.(have := false, seen := 0);
    }
    if !l.have {
      if !IsLast(slot) {
        return;
      }
      l' := l.(have := true, highest := ord, sum := slot[13], runLba := lba, runOff := off, seen := 0);
    } else if slot[13] != l.sum {
      return l.(have := false, seen := 0);
    }
    l' := l'.(chars := Store(l.chars, ord, Units(slot)), seen := l'.seen + 1);
  }

  /** An 8.3 slot ends the run. */
  method EntryFrom(l: Lfn, slot: Slot, lba: nat, off: nat, ghost g: Geometry, ghost d: Place, ghost acc: Acc, ghost k: nat)
    returns (f: DirEntry)
    requires Tracks(g, d, acc, l) && PlainShort(slot) && AddressOf(g, d, lba, off, k)
    ensures Step(acc, slot, k).Found? && Describes(g, d, Step(acc, slot, k).entry, f)
  {
    hide ReadUnits;
    hide FromFatName;
    hide Checksum;
    hide AddressOf;
    if l.have && l.seen == l.highest && Checksum(slot[..11]) == l.sum {
      f := DirEntry(ReadUnits(l.chars[..l.highest * LFN_CHARS], NAME_MAX), slot, lba, off, l.runLba, l.runOff, l.highest + 1);
    } else {
      f := DirEntry(FromFatName(slot[..11], slot[12]), slot, lba, off, lba, off, 1);
    }
  }

  lemma {:induction false} ScanOne(slots: seq<Slot>, k: nat, acc: Acc, junk: Junk)
    requires k < |slots| && AccOk(acc)
    ensures IsEnd(slots[k]) ==> Scan(slots, k, acc, junk) == []
    ensures Step(acc, slots[k], k).More? ==> Scan(slots, k, acc, junk) == Scan(slots, k + 1, Step(acc, slots[k], k).acc, junk)
    ensures Step(acc, slots[k], k).Found? ==>
              Scan(slots, k, acc, junk) == [Step(acc, slots[k], k).entry] + Scan(slots, k + 1, Start(junk), junk)
  {
    EndOnlyAtEnd(acc, slots[k], k);
    hide Step;
  }

  /** Slots that are neither long-name slots nor 8.3 entries. */
  lemma {:induction false} OtherSlot(g: Geometry, d: Place, acc: Acc, l: Lfn, slot: Slot, k: nat)
    requires Tracks(g, d, acc, l) && !IsEnd(slot) && (IsDeleted(slot) || (!IsLfn(slot) && IsVolumeId(slot)))
    ensures Step(acc, slot, k).More? && Tracks(g, d, Step(acc, slot, k).acc, l.(have := false, seen := 0))
  {
  }

  lemma {:induction false} TracksStart(g: Geometry, d: Place, junk: Junk)
    ensures Tracks(g, d, Start(junk), Lfn(junk, false, 0, 0, 0, 0, 0))
  {
  }

  lemma {:induction false} TracksOk(g: Geometry, d: Place, acc: Acc, l: Lfn)
    requires Tracks(g, d, acc, l)
    ensures AccOk(acc)
  {
  }

  lemma {:induction false} WalkerPlace(it: Walker)
    requires it.Valid()
    ensures PlaceOk(it.g, it.disk, it.d)
  {
  }

  lemma {:induction false} Kinds(s: Slot)
    ensures !IsEnd(s) && !IsDeleted(s) ==> !IsFree(s)
    ensures !IsFree(s) && !IsLfn(s) && !IsVolumeId(s) ==> PlainShort(s)
  {
  }

  lemma {:induction false} ScanDone(slots: seq<Slot>, acc: Acc, junk: Junk)
    requires AccOk(acc)
    ensures Scan(slots, |slots|, acc, junk) == []
  {
  }

  /** One call of the scanner: skip to the next 8.3 entry, collecting its long name on the way. */
  method DirNext(it: Walker, junk: Junk) returns (found: bool, f: DirEntry, ghost e: Entry)
    requires it.Valid() && it.Index() <= |DirSlots(it.g, it.disk, it.d)|
    modifies it
    ensures it.Valid() && old(it.Index()) <= it.Index() <= |DirSlots(it.g, it.disk, it.d)|
    ensures !found ==> Scan(DirSlots(it.g, it.disk, it.d), old(it.Index()), Start(junk), junk) == []
    ensures found ==>
              && old(it.Index()) < it.Index() && Describes(it.g, it.d, e, f)
              && Scan(DirSlots(it.g, it.disk, it.d), old(it.Index()), Start(junk), junk)
              == [e] + Scan(DirSlots(it.g, it.disk, it.d), it.Index(), Start(junk), junk)
  {
    hide *;
    WalkerPlace(it);
    ghost var slots, from := DirSlots(it.g, it.disk, it.d), it.Index();
    ghost var acc := Start(junk);
    var l := Lfn(junk, false, 0, 0, 0, 0, 0);
    TracksStart(it.g, it.d, junk);
    e := Entry([], seq(32, _ => 0), 0, 0, 0);
    f := DirEntry([], seq(32, _ => 0), 0, 0, 0, 0, 0);
    while true
      invariant it.Valid() && from <= it.Index() <= |slots| && AccOk(acc) && Tracks(it.g, it.d, acc, l)
      invariant Scan(slots, from, Start(junk), junk) == Scan(slots, it.Index(), acc, junk)
      decreases |slots| - it.Index()
    {
      ghost var k := it.Index();
      TracksOk(it.g, it.d, acc, l);
      var more, slot, lba, off := it.Next();
      if !more {
        ScanDone(slots, acc, junk);
        return false, f, e;
      }
      ScanOne(slots, k, acc, junk);
      Kinds(slot);
      if IsEnd(slot) {
        return false, f, e;
      }
      if IsDeleted(slot) || (!IsLfn(slot) && IsVolumeId(slot)) {
        OtherSlot(it.g, it.d, acc, l, slot, k);
        l := l.(have := false, seen := 0);
      } else if IsLfn(slot) {
        l := CollectSlot(l, slot, lba, off, it.g, it.d, acc, k);
      } else {
        f := EntryFrom(l, slot, lba, off, it.g, it.d, acc, k);
        return true, f, Step(acc, slot, k).entry;
      }
      TracksOk(it.g, it.d, Step(acc, slot, k).acc, l);
      acc := Step(acc, slot, k).acc;
    }
  }

  /** The first entry with this name. */
  method DirFind(g: Geometry, disk: Disk, inRoot: bool, dirCluster: nat, name: Name, junk: Junk, ghost d: Place)
    returns (found: bool, f: DirEntry, ghost k: int)
    requires PlaceOk(g, disk, d) && IsAt(d, inRoot, dirCluster)
    ensures found == (Find(Listing(DirSlots(g, disk, d), junk), name) >= 0)
    ensures found ==> Describes(g, d, Listing(DirSlots(g, disk, d), junk)[Find(Listing(DirSlots(g, disk, d), junk), name)], f)
    ensures k == Find(Listing(DirSlots(g, disk, d), junk), name)
  {
    hide DirSlots;
    hide DirLbas;
    hide Walker.Valid;
    hide Walker.Index;
    hide Scan;
    hide Describes;
    var it := new Walker(g, disk, inRoot, dirCluster, d);
    ghost var slots := DirSlots(g, disk, d);
    ghost var before: seq<Entry> := [];
    while true
      invariant fresh(it) && it.Valid() && it.Index() <= |slots| && it.g == g && it.disk == disk && it.d == d
      invariant Listing(slots, junk) == before + Scan(slots, it.Index(), Start(junk), junk)
      invariant forall i :: 0 <= i < |before| ==> before[i].name != name
      decreases |slots| - it.Index()
    {
      ghost var e;
      ghost var at := it.Index();
      found, f, e := DirNext(it, junk);
      k := -1;
      if !found {
        FoundAt(before, [], name);
        return;
      }
      ghost var rest := Scan(slots, it.Index(), Start(junk), junk);
      Regroup(before, e, rest);
      NameOf(g, d, e, f);
      if f.name == name {
        k := |before|;
        FoundAt(before, [e] + rest, name);
        assert before + ([e] + rest) == Listing(slots, junk);
        return;
      }
      before := before + [e];
    }
  }

  lemma {:induction false} NameOf(g: Geometry, d: Place, e: Entry, f: DirEntry)
    requires Describes(g, d, e, f)
    ensures f.name == e.name && f.dirent == e.dirent
  {
  }

  lemma {:induction false} FoundAt(before: seq<Entry>, rest: seq<Entry>, name: Name)
    requires (forall i :: 0 <= i < |before| ==> before[i].name != name) && (rest == [] || rest[0].name == name)
    ensures Find(before + rest, name) == if rest == [] then -1 else |before|
  {
    var list := before + rest;
    assert forall i :: 0 <= i < |before| ==> list[i] == before[i];
    assert rest != [] ==> list[|before|] == rest[0];
  }

  /** The 8.3 names in use. */
  method TakenNames(g: Geometry, disk: Disk, inRoot: bool, dirCluster: nat, junk: Junk, ghost d: Place) returns (taken: set<seq<byte>>)
    requires PlaceOk(g, disk, d) && IsAt(d, inRoot, dirCluster)
    ensures taken == set e <- Listing(DirSlots(g, disk, d), junk) :: e.dirent[..11]
  {
    hide DirSlots;
    hide DirLbas;
    hide Walker.Valid;
    hide Walker.Index;
    hide Scan;
    hide Describes;
    var it := new Walker(g, disk, inRoot, dirCluster, d);
    ghost var slots := DirSlots(g, disk, d);
    ghost var before: seq<Entry> := [];
    taken := {};
    while true
      invariant fresh(it) && it.Valid() && it.Index() <= |slots| && it.g == g && it.disk == disk && it.d == d
      invariant Listing(slots, junk) == before + Scan(slots, it.Index(), Start(junk), junk)
      invariant taken == set e <- before :: e.dirent[..11]
      decreases |slots| - it.Index()
    {
      ghost var e;
      var found, f;
      found, f, e := DirNext(it, junk);
      if !found {
        return;
      }
      NameOf(g, d, e, f);
      Regroup(before, e, Scan(slots, it.Index(), Start(junk), junk));
      taken := taken + {f.dirent[..11]};
      before := before + [e];
    }
  }

  // ---------------------------------------------------------------- room for a new entry

  /** How far the search has come: `run` free slots up to `i`, and no earlier stretch of `n`. */
  predicate Searched(slots: seq<Slot>, n: nat, i: nat, run: nat) {
    && run <= i <= |slots| && run < n && AllFree(slots, i - run, run) && (run < i ==> !IsFree(slots[i - run - 1]))
    && forall q :: 0 <= q <= i - n ==> !AllFree(slots, q, n)
  }

  lemma {:induction false} SearchTaken(slots: seq<Slot>, n: nat, i: nat, run: nat)
    requires Searched(slots, n, i, run) && i < |slots| && !IsFree(slots[i])
    ensures Searched(slots, n, i + 1, 0)
  {
    if i + 1 >= n {
      assert !AllFree(slots, i + 1 - n, n) by { assert !IsFree(slots[i]); }
    }
  }

  lemma {:induction false} SearchFree(slots: seq<Slot>, n: nat, i: nat, run: nat)
    requires Searched(slots, n, i, run) && i < |slots| && IsFree(slots[i])
    ensures run + 1 < n ==> Searched(slots, n, i + 1, run + 1)
    ensures run + 1 == n ==> IsFirstRun(slots, n, i - run)
  {
    if run + 1 < n {
      if i + 1 >= n {
        assert !AllFree(slots, i + 1 - n, n) by { assert !IsFree(slots[i - run - 1]); }
      }
    }
  }

  /** The first `count` consecutive free slots, and their address. */
  method FirstFreeRun(g: Geometry, disk: Disk, inRoot: bool, dirCluster: nat, count: nat, ghost d: Place)
    returns (found: bool, lba: nat, off: nat, ghost p: nat)
    requires PlaceOk(g, disk, d) && IsAt(d, inRoot, dirCluster) && count >= 1
    ensures found <==> HasRoom(DirSlots(g, disk, d), count)
    ensures found ==> IsFirstRun(DirSlots(g, disk, d), count, p) && AddressOf(g, d, lba, off, p)
  {
    hide DirSlots;
    hide DirLbas;
    hide Walker.Valid;
    hide Walker.Index;
    hide AddressOf;
    hide Searched;
    hide IsFirstRun;
    hide IsFree;
    ghost var slots := DirSlots(g, disk, d);
    var it := new Walker(g, disk, inRoot, dirCluster, d);
    var run := 0;
    found, lba, off, p := false, 0, 0, 0;
    SearchNone(slots, count);
    while true
      invariant fresh(it) && it.Valid() && it.Index() <= |slots| && it.g == g && it.disk == disk && it.d == d
      invariant Searched(slots, count, it.Index(), run)
      invariant run > 0 ==> p + run == it.Index() && AddressOf(g, d, lba, off, p)
      decreases |slots| - it.Index()
    {
      ghost var i := it.Index();
      SearchBound(slots, count, i, run);
      var more, slot, l, o := it.Next();
      if !more {
        SearchAll(slots, count, run);
        return;
      }
      if IsFree(slot) {
        SearchFree(slots, count, i, run);
        if run == 0 {
          lba, off, p := l, o, i;
        }
        run := run + 1;
        if run == count {
          FirstMeansRoom(slots, count, p);
          return true, lba, off, p;
        }
      } else {
        SearchTaken(slots, count, i, run);
        run := 0;
      }
    }
  }

  lemma {:induction false} SearchNone(slots: seq<Slot>, n: nat)
    requires n >= 1
    ensures Searched(slots, n, 0, 0)
  {
  }

  lemma {:induction false} SearchBound(slots: seq<Slot>, n: nat, i: nat, run: nat)
    requires Searched(slots, n, i, run)
    ensures run < n && run <= i
  {
  }

  lemma {:induction false} SearchAll(slots: seq<Slot>, n: nat, run: nat)
    requires Searched(slots, n, |slots|, run)
    ensures !HasRoom(slots, n)
  {
  }

  lemma {:induction false} FirstMeansRoom(slots: seq<Slot>, n: nat, p: nat)
    requires IsFirstRun(slots, n, p)
    ensures HasRoom(slots, n)
  {
  }

  // ---------------------------------------------------------------- growing a directory

  /** The live files, one of which may be the directory itself. */
  ghost predicate DirOn(v: Volume, d: Place, live: map<nat, seq<nat>>, id: nat)
    reads v
  {
    && v.Valid() && Sound(v.g, State(v.T(), live)) && PlaceOk(v.g, v.disk, d)
    && match d
       case Root => v.g.variant.Fat16? && id !in live
       case InChain(cs) => id in live && live[id] == cs && cs != []
  }

  /** The directory's slots. */
  ghost function Slots(v: Volume, d: Place): seq<Slot>
    requires PlaceOk(v.g, v.disk, d)
    reads v
  {
    DirSlots(v.g, v.disk, d)
  }

  /** The live files when the directory lies at `d`. */
  ghost function LiveAt(live: map<nat, seq<nat>>, id: nat, d: Place): map<nat, seq<nat>> {
    match d
    case Root => live
    case InChain(cs) => live[id := cs]
  }

  /** Nothing outside the directory changed: every other file reads as it did. */
  ghost predicate OthersKept(g: Geometry, d0: Disk, d1: Disk, live: map<nat, seq<nat>>, id: nat) {
    forall other :: other in live && other != id ==> SameBytes(g, d0, d1, live[other])
  }

  /** A chain with one more cluster, which reads as zeros: the old slots, and then free ones. */
  lemma {:induction false} GrownSlots(g: Geometry, d0: Disk, d2: Disk, cs: seq<nat>, c: nat)
    requires PlaceOk(g, d0, InChain(cs)) && PlaceOk(g, d2, InChain(cs + [c])) && |d0| == |d2|
    requires forall lba :: 0 <= lba < |d0| && OnChain(g, cs, lba) ==> d2[lba] == d0[lba]
    requires ZeroFrom(d2, ClusterLba(g, c), g.sectorsPerCluster)
    ensures DirSlots(g, d2, InChain(cs + [c])) == DirSlots(g, d0, InChain(cs)) + Zeros(g.sectorsPerCluster * 16)
  {
    hide ClusterLba;
    hide OnChain;
    var a, b := ChainLbas(g, cs), ChainLbas(g, cs + [c]);
    assert (cs + [c])[..|cs|] == cs;
    assert b == a + ClusterLbas(g, c);
    assert |b| * 16 == |a| * 16 + g.sectorsPerCluster * 16;
    DirLbasOk(g, d0, InChain(cs));
    DirLbasOk(g, d2, InChain(cs + [c]));
    forall k | 0 <= k < |b| * 16
      ensures DirSlots(g, d2, InChain(cs + [c]))[k] == (DirSlots(g, d0, InChain(cs)) + Zeros(g.sectorsPerCluster * 16))[k]
    {
      if k < |a| * 16 {
        OldSlot(g, d0, d2, cs, c, k);
      } else {
        NewSlot(g, d2, cs, c, k);
      }
    }
  }

  lemma {:induction false} OldSlot(g: Geometry, d0: Disk, d2: Disk, cs: seq<nat>, c: nat, k: nat)
    requires PlaceOk(g, d0, InChain(cs)) && PlaceOk(g, d2, InChain(cs + [c])) && |d0| == |d2|
    requires forall lba :: 0 <= lba < |d0| && OnChain(g, cs, lba) ==> d2[lba] == d0[lba]
    requires ChainLbas(g, cs + [c]) == ChainLbas(g, cs) + ClusterLbas(g, c) && k < |ChainLbas(g, cs)| * 16
    ensures k < |DirSlots(g, d0, InChain(cs))| && k < |DirSlots(g, d2, InChain(cs + [c]))|
    ensures DirSlots(g, d2, InChain(cs + [c]))[k] == DirSlots(g, d0, InChain(cs))[k]
  {
    var lba := ChainLbas(g, cs)[k / 16];
    assert ChainLbas(g, cs + [c])[k / 16] == lba;
    ChainLbaPlace(g, d0, cs, lba);
  }

  lemma {:induction false} NewSlot(g: Geometry, d2: Disk, cs: seq<nat>, c: nat, k: nat)
    requires PlaceOk(g, d2, InChain(cs + [c])) && ZeroFrom(d2, ClusterLba(g, c), g.sectorsPerCluster)
    requires ChainLbas(g, cs + [c]) == ChainLbas(g, cs) + ClusterLbas(g, c)
    requires |ChainLbas(g, cs)| * 16 <= k < |ChainLbas(g, cs + [c])| * 16
    ensures k < |DirSlots(g, d2, InChain(cs + [c]))| && DirSlots(g, d2, InChain(cs + [c]))[k] == seq(32, _ => 0)
  {
    hide ClusterLba;
    var n := |ChainLbas(g, cs)|;
    assert n <= k / 16 < n + g.sectorsPerCluster;
    assert ChainLbas(g, cs + [c])[k / 16] == ClusterLba(g, c) + (k / 16 - n);
  }

  lemma {:induction false} GrowthKeeps(g: Geometry, d0: Disk, d1: Disk, d2: Disk, live: map<nat, seq<nat>>, id: nat, c: nat)
    requires g.Valid() && g.Fits(d0) && OnlyFatChanged(g, d0, d1) && OnlyChainChanged(g, d1, d2, [c]) && Table(g, d2) == Table(g, d1)
    requires Sound(g, State(Table(g, d0), live)) && id in live && live[id] != []
    requires Sound(g, State(Table(g, d1), live[id := live[id] + [c]])) && c in FreeSet(Table(g, d0))
    ensures OthersKept(g, d0, d2, live, id) && PlaceOk(g, d0, InChain(live[id])) && PlaceOk(g, d2, InChain(live[id] + [c]))
    ensures |d0| == |d2| && forall lba :: 0 <= lba < |d0| && OnChain(g, live[id], lba) ==> d2[lba] == d0[lba]
  {
    var all := live[id := live[id] + [c]];
    assert all[id] == live[id] + [c];
    FreeNotOnChain(g, Table(g, d0), live[id], c);
    forall other | other in live && other != id
      ensures SameBytes(g, d0, d2, live[other])
    {
      assert all[other] == live[other] && Disjoint(all[id], all[other]);
      assert Disjoint([c], live[other]) by { assert all[id][|live[id]|] == c; }
      SoundInData(g, Table(g, d0), live);
      FatChangeSameBytes(g, d0, d1, live[other]);
      ChainWriteSameBytes(g, d1, d2, [c], live[other]);
    }
  }

  /** One more cluster for the directory, zeroed; false when the volume is full. */
  method GrowDir(v: Volume, dirCluster: nat, ghost live: map<nat, seq<nat>>, ghost id: nat) returns (grown: bool, ghost cs: seq<nat>)
    requires id in live && DirOn(v, InChain(live[id]), live, id) && live[id][0] == dirCluster && v.Room(1)
    modifies v
    ensures grown <==> FreeSet(old(v.T())) != {}
    ensures !grown ==> v.disk == old(v.disk) && cs == live[id]
    ensures DirOn(v, InChain(cs), live[id := cs], id) && live[id] <= cs && OthersKept(v.g, old(v.disk), v.disk, live, id)
    ensures PlaceOk(v.g, old(v.disk), InChain(live[id])) && PlaceOk(v.g, v.disk, InChain(cs))
    ensures grown ==>
              DirSlots(v.g, v.disk, InChain(cs)) == DirSlots(v.g, old(v.disk), InChain(live[id])) + Zeros(v.g.sectorsPerCluster * 16)
  {
    hide DirSlots;
    hide EnoughData;
    cs := live[id];
    var _, last := v.CountChain(dirCluster, cs);
    var c := v.GrowOne(dirCluster, last, live, id, 1);
    grown := c != 0;
    if !grown {
      assert live[id := cs] == live;
      return;
    }
    ghost var d1 := v.disk;
    cs := live[id] + [c];
    assert IsDataCluster(v.g, c) by { assert live[id := cs][id][|live[id]|] == c; }
    v.ZeroCluster(c);
    GrowthKeeps(v.g, old(v.disk), d1, v.disk, live, id, c);
    GrownSlots(v.g, old(v.disk), v.disk, live[id], c);
  }

  /** A directory of `n` zeroed slots is empty and tidy. */
  lemma {:induction false} EmptyDirectory(n: nat, junk: Junk)
    ensures Tidy(Zeros(n), 0, Idle) && Listing(Zeros(n), junk) == []
  {
  }

  /** The directory grows by a cluster when it has to and there is one. */
  ghost predicate Grows(v: Volume, d: Place, count: nat)
    requires PlaceOk(v.g, v.disk, d)
    reads v
  {
    d.InChain? && !HasRoom(Slots(v, d), count) && FreeSet(v.T()) != {}
  }

  /** The slots among which the new entry is placed. */
  ghost function Available(v: Volume, d: Place, count: nat): seq<Slot>
    requires PlaceOk(v.g, v.disk, d)
    reads v
  {
    if Grows(v, d, count) then Slots(v, d) + Zeros(v.g.sectorsPerCluster * 16) else Slots(v, d)
  }

  /** Find `count` consecutive free slots, growing the directory by one zeroed cluster if there are none. */
  method FindFreeRun(v: Volume, inRoot: bool, dirCluster: nat, count: nat, ghost d: Place, ghost live: map<nat, seq<nat>>, ghost id: nat)
    returns (found: bool, lba: nat, off: nat, ghost d': Place, ghost p: nat)
    requires DirOn(v, d, live, id) && IsAt(d, inRoot, dirCluster) && count >= 1
    requires d.InChain? && !HasRoom(Slots(v, d), count) ==> v.Room(1)
    modifies v
    ensures DirOn(v, d', LiveAt(live, id, d'), id) && IsAt(d', inRoot, dirCluster) && OthersKept(v.g, old(v.disk), v.disk, live, id)
    ensures Slots(v, d') == old(Available(v, d, count)) && (old(Grows(v, d, count)) || (d' == d && v.disk == old(v.disk)))
    ensures found <==> HasRoom(Slots(v, d'), count)
    ensures found ==> IsFirstRun(Slots(v, d'), count, p) && AddressOf(v.g, d', lba, off, p)
  {
    hide DirSlots;
    hide IsFirstRun;
    hide AddressOf;
    hide HasRoom;
    hide PlaceOk;
    hide Sound;
    d' := d;
    DirOnFacts(v, d, live, id);
    found, lba, off, p := FirstFreeRun(v.g, v.disk, inRoot, dirCluster, count, d);
    if found || inRoot {
      return;
    }
    var grown;
    ghost var cs;
    grown, cs := GrowDir(v, dirCluster, live, id);
    d' := InChain(cs);
    found, lba, off, p := FirstFreeRun(v.g, v.disk, inRoot, dirCluster, count, d');
  }

  // ---------------------------------------------------------------- creating

  /** The 8.3 slot for a new name: the name itself if it fits, otherwise an alias. */
  method ShortFor(variant: Variant, name: Name, attr: byte, cluster: nat, size: nat, date: Unit, time: Unit, taken: set<seq<byte>>)
    returns (short: Slot)
    requires IsCString(name) && 1 <= |name| <= NAME_MAX && attr in {0, 0x10} && size < 0x1_0000_0000
    requires cluster < if variant.Fat32? then 0x1_0000_0000 else 0x1_0000
    ensures Storable(name, short)
    ensures short[11] == attr && EntryCluster(variant, short) == cluster && EntrySize(short) == size
  {
    var fits := FitsIn83(name);
    var short11;
    if fits {
      short11 := ToFatName(name);
      FatNameFirst(name);
    } else {
      short11 := MakeShortAlias(name, taken);
    }
    short := ShortSlot(variant, short11, attr, cluster, size, date, time);
    ShortSlotRoundTrip(variant, short11, attr, cluster, size, date, time);
    PlainIfOk(short);
  }

  lemma {:induction false} FatNameFirst(name: Name)
    requires Fits83(name)
    ensures OkIn83(ToFatName(name)[0])
  {
    assert ToFatName(name)[0] == Upper(name[0]);
  }

  lemma {:induction false} PlainIfOk(s: Slot)
    requires OkIn83(s[..11][0]) && s[11] in {0, 0x10}
    ensures PlainShort(s)
  {
  }

  /** The address of the slot `n` after the one at the given address. */
  method AddressAfter(g: Geometry, disk: Disk, inRoot: bool, dirCluster: nat, lba: nat, off: nat, n: nat, ghost d: Place, ghost p: nat)
    returns (lba': nat, off': nat)
    requires PlaceOk(g, disk, d) && IsAt(d, inRoot, dirCluster) && AddressOf(g, d, lba, off, p) && p + n < |DirSlots(g, disk, d)|
    ensures AddressOf(g, d, lba', off', p + n)
  {
    hide DirSlots;
    hide DirLbas;
    hide Walker.Valid;
    hide Walker.Index;
    hide PlaceOk;
    ghost var slots := DirSlots(g, disk, d);
    var it := new Walker(g, disk, inRoot, dirCluster, d);
    var seen, counting := 0, false;
    lba', off' := lba, off;
    while true
      invariant fresh(it) && it.Valid() && it.g == g && it.disk == disk && it.d == d
      invariant if counting then it.Index() == p + seen <= p + n else seen == 0 && it.Index() <= p
      decreases |slots| - it.Index()
    {
      ghost var k := it.Index();
      var more, _, l, o := it.Next();
      if !more {
        assert false;
        return;
      }
      if !counting {
        if l != lba || o != off {
          continue;
        }
        SameAddress(g, disk, d, l, o, p, k);
        counting := true;
      }
      if seen == n {
        return l, o;
      }
      seen := seen + 1;
    }
  }

  /** What a create left on the disk: the entry's slots in the first stretch that could take them. */
  ghost predicate Written(slots: seq<Slot>, slots': seq<Slot>, name: Name, short: Slot, p: nat) {
    Storable(name, short) && IsFirstRun(slots, Needed(name), p) && slots' == Splice(slots, p, EntryRun(name, short))
  }

  /** Lay the entry's slots down at the place found for them. */
  method WriteEntry(v: Volume, inRoot: bool, dirCluster: nat, name: Name, short: Slot, startLba: nat, startOff: nat,
                    ghost d: Place, ghost live: map<nat, seq<nat>>, ghost id: nat, ghost p: nat)
    returns (lba: nat, off: nat)
    requires DirOn(v, d, live, id) && IsAt(d, inRoot, dirCluster) && Storable(name, short)
    requires IsFirstRun(Slots(v, d), Needed(name), p) && AddressOf(v.g, d, startLba, startOff, p)
    modifies v`disk
    ensures DirOn(v, d, live, id) && OthersKept(v.g, old(v.disk), v.disk, live, id)
    ensures Written(old(Slots(v, d)), Slots(v, d), name, short, p) && AddressOf(v.g, d, lba, off, p + Needed(name) - 1)
  {
    hide *;
    DirOnFacts(v, d, live, id);
    StorableLength(name, short);
    var fits := FitsIn83(name);
    LfnCount(name);
    var count := if fits then 0 else LfnSlots(|name|);
    var lfn := BuildLfnRun(name, count, Checksum(short[..11]));
    RunIs(name, short, lfn, count);
    FirstRunFits(Slots(v, d), Needed(name), p);
    SlotsIs(v, d);
    ghost var slots := Slots(v, d);
    var ok, disk := WriteSlotsAt(v.g, v.disk, inRoot, dirCluster, startLba, startOff, lfn + [short], d, p);
    DirWriteKeeps(v.g, v.disk, disk, d, live, id);
    v.disk := disk;
    DirOnIf(v, d, live, id);
    SlotsIs(v, d);
    AllOf(lfn + [short], |slots| - p);
    WrittenIf(slots, Slots(v, d), name, short, p);
    lba, off := AddressAfter(v.g, v.disk, inRoot, dirCluster, startLba, startOff, count, d, p);
  }

  lemma {:induction false} DirOnFacts(v: Volume, d: Place, live: map<nat, seq<nat>>, id: nat)
    requires DirOn(v, d, live, id)
    ensures v.Valid() && v.T() == Table(v.g, v.disk) && Sound(v.g, State(v.T(), live)) && PlaceOk(v.g, v.disk, d)
    ensures match d case Root => v.g.variant.Fat16? && id !in live case InChain(cs) => id in live && live[id] == cs && cs != []
    ensures LiveAt(live, id, d) == live && OthersKept(v.g, v.disk, v.disk, live, id) && |v.disk| <= 0x1_0000_0000
  {
    SoundInData(v.g, v.T(), live);
  }

  lemma {:induction false} DirOnIf(v: Volume, d: Place, live: map<nat, seq<nat>>, id: nat)
    requires PlaceOk(v.g, v.disk, d) && |v.disk| <= 0x1_0000_0000 && Sound(v.g, State(Table(v.g, v.disk), live))
    requires match d case Root => v.g.variant.Fat16? && id !in live case InChain(cs) => id in live && live[id] == cs && cs != []
    ensures DirOn(v, d, live, id) && v.Valid()
  {
  }

  lemma {:induction false} SlotsIs(v: Volume, d: Place)
    requires PlaceOk(v.g, v.disk, d)
    ensures Slots(v, d) == DirSlots(v.g, v.disk, d)
  {
  }

  lemma {:induction false} StorableLength(name: Name, short: Slot)
    requires Storable(name, short)
    ensures |name| <= NAME_MAX
  {
  }

  lemma {:induction false} LfnCount(name: Name)
    requires |name| <= NAME_MAX
    ensures LfnSlots(|name|) <= LFN_MAX_SLOTS && Needed(name) == if Fits83(name) then 1 else LfnSlots(|name|) + 1
  {
  }

  lemma {:induction false} FirstRunFits(slots: seq<Slot>, n: nat, p: nat)
    requires IsFirstRun(slots, n, p)
    ensures p + n <= |slots|
  {
  }

  lemma {:induction false} AllOf(run: seq<Slot>, n: nat)
    requires |run| <= n
    ensures run[..Fewer(|run|, n)] == run
  {
  }

  lemma {:induction false} WrittenIf(slots: seq<Slot>, slots': seq<Slot>, name: Name, short: Slot, p: nat)
    requires Storable(name, short) && IsFirstRun(slots, Needed(name), p) && p + Needed(name) <= |slots|
    requires slots' == Splice(slots, p, EntryRun(name, short))
    ensures Written(slots, slots', name, short, p)
  {
  }

  lemma {:induction false} RunIs(name: Name, short: Slot, lfn: seq<Slot>, count: nat)
    requires |name| <= NAME_MAX && count == (if Fits83(name) then 0 else LfnSlots(|name|)) && count <= LFN_MAX_SLOTS
    requires lfn == LfnRun(name, count, Checksum(short[..11]))
    ensures lfn + [short] == EntryRun(name, short) && Needed(name) == count + 1
  {
  }

  /** A change inside the directory leaves the chains sound and the other files as they were. */
  lemma {:induction false} DirWriteKeeps(g: Geometry, d0: Disk, d1: Disk, d: Place, live: map<nat, seq<nat>>, id: nat)
    requires PlaceOk(g, d0, d) && OnlyDirChanged(g, d0, d1, d) && Sound(g, State(Table(g, d0), live))
    requires match d case Root => id !in live case InChain(cs) => id in live && live[id] == cs
    ensures |d1| == |d0| && Table(g, d1) == Table(g, d0) && OthersKept(g, d0, d1, live, id)
  {
    SoundInData(g, Table(g, d0), live);
    DirChangeKeepsTable(g, d0, d1, d);
    forall other | other in live && other != id
      ensures SameBytes(g, d0, d1, live[other])
    {
      assert d.InChain? ==> Disjoint(live[id], live[other]);
      DirChangeKeepsFiles(g, d0, d1, d, live[other]);
    }
  }

  lemma {:induction false} KeptTwice(g: Geometry, d0: Disk, d1: Disk, d2: Disk, live: map<nat, seq<nat>>, live': map<nat, seq<nat>>,
                                     id: nat)
    requires OthersKept(g, d0, d1, live, id) && OthersKept(g, d1, d2, live', id)
    requires forall other :: other in live && other != id ==> other in live' && live'[other] == live[other]
    ensures OthersKept(g, d0, d2, live, id)
  {
  }

  /** What a create does to the listing: exactly one entry more, exactly if the place is clean. */
  lemma {:induction false} CreatedListing(slots: seq<Slot>, n: nat, slots': seq<Slot>, name: Name, short: Slot, p: nat, junk: Junk)
    requires Written(slots + Zeros(n), slots', name, short, p)
    ensures Inserted(slots', Listing(slots, junk), Listing(slots', junk), NewEntry(name, short, p))
       <==> Clean(slots + Zeros(n), p, name, short, junk)
    ensures Tidy(slots, 0, Idle) ==> Clean(slots + Zeros(n), p, name, short, junk) && Tidy(slots', 0, Idle)
  {
    hide Scan;
    hide Splice;
    hide EntryRun;
    hide NewEntry;
    hide Tidy;
    hide Inserted;
    hide Clean;
    var grown := slots + Zeros(n);
    GrownScan(slots, n, 0, Start(junk), junk);
    InsertListingIff(grown, p, name, short, junk);
    if Tidy(slots, 0, Idle) {
      GrownTidy(slots, n, 0, Idle);
      FirstRunVisible(grown, p, Needed(name));
      TidyInsert(grown, p, name, short, junk);
    }
  }

  /** How many slots the directory gains. */
  ghost function Gain(v: Volume, d: Place, count: nat): nat
    requires PlaceOk(v.g, v.disk, d)
    reads v
  {
    if Grows(v, d, count) then v.g.sectorsPerCluster * 16 else 0
  }

  /**
   Create an entry under any name. The listing gains exactly that entry, at the returned
   address, exactly if the place found for it is clean, as every place in a tidy
   directory is. There is no room exactly if no stretch of free slots is long enough,
   with one more cluster counted in if the directory can have it.
   */
  method CreateNamed(v: Volume, inRoot: bool, dirCluster: nat, name: Name, attr: byte, cluster: nat, size: nat, date: Unit, time: Unit,
                     junk: Junk, ghost d: Place, ghost live: map<nat, seq<nat>>, ghost id: nat)
    returns (rc: int, lba: nat, off: nat, ghost d': Place, ghost short: Slot, ghost p: nat)
    requires DirOn(v, d, live, id) && IsAt(d, inRoot, dirCluster)
    requires IsCString(name) && attr in {0, 0x10} && size < 0x1_0000_0000
    requires cluster < if v.g.variant.Fat32? then 0x1_0000_0000 else 0x1_0000
    requires |name| <= NAME_MAX && d.InChain? && !HasRoom(Slots(v, d), Needed(name)) ==> v.Room(1)
    modifies v
    ensures DirOn(v, d', LiveAt(live, id, d'), id) && OthersKept(v.g, old(v.disk), v.disk, live, id)
    ensures rc in {0, ENAMETOOLONG, NOSPC} && (rc == ENAMETOOLONG <==> !(1 <= |name| <= NAME_MAX))
    ensures rc == ENAMETOOLONG ==> d' == d && v.disk == old(v.disk)
    ensures rc != ENAMETOOLONG ==> (rc == NOSPC <==> !HasRoom(old(Available(v, d, Needed(name))), Needed(name)))
    ensures rc != 0 ==> Listing(Slots(v, d'), junk) == Listing(old(Slots(v, d)), junk)
    ensures rc == 0 ==>
              && Written(old(Slots(v, d)) + Zeros(old(Gain(v, d, Needed(name)))), Slots(v, d'), name, short, p)
              && short[11] == attr && EntryCluster(v.g.variant, short) == cluster && EntrySize(short) == size
              && AddressOf(v.g, d', lba, off, NewEntry(name, short, p).pos)
  {
    hide *;
    Codes();
    DirOnFacts(v, d, live, id);
    d', short, p := d, seq(32, _ => 0), 0;
    lba, off := 0, 0;
    if |name| == 0 || |name| > NAME_MAX {
      return ENAMETOOLONG, 0, 0, d', short, p;
    }
    var taken := TakenNames(v.g, v.disk, inRoot, dirCluster, junk, d);
    var slot := ShortFor(v.g.variant, name, attr, cluster, size, date, time, taken);
    short := slot;
    var fits := FitsIn83(name);
    LfnCount(name);
    AvailableIs(v, d, Needed(name));
    GrownScan(Slots(v, d), Gain(v, d, Needed(name)), 0, Start(junk), junk);
    ListingIs(Slots(v, d), junk);
    var found, startLba, startOff;
    found, startLba, startOff, d', p := FindFreeRun(v, inRoot, dirCluster, if fits then 1 else LfnSlots(|name|) + 1, d, live, id);
    DirOnFacts(v, d', LiveAt(live, id, d'), id);
    ListingIs(Slots(v, d'), junk);
    if !found {
      return NOSPC, 0, 0, d', short, p;
    }
    ghost var d1, live' := v.disk, LiveAt(live, id, d');
    LiveAtOthers(live, id, d');
    lba, off := WriteEntry(v, inRoot, dirCluster, name, slot, startLba, startOff, d', live', id, p);
    NewEntryPos(name, slot, p);
    KeptTwice(v.g, old(v.disk), d1, v.disk, live, live', id);
    rc := 0;
  }

  lemma {:induction false} Codes()
    ensures ENAMETOOLONG == -36 && NOSPC == -28 && EEXIST == -17 && ENOENT == -2 && EISDIR == -21 && NAME_MAX == 255
  {
  }

  lemma {:induction false} AvailableIs(v: Volume, d: Place, count: nat)
    requires PlaceOk(v.g, v.disk, d)
    ensures Available(v, d, count) == Slots(v, d) + Zeros(Gain(v, d, count))
  {
  }

  lemma {:induction false} ListingIs(slots: seq<Slot>, junk: Junk)
    ensures Listing(slots, junk) == Scan(slots, 0, Start(junk), junk)
  {
  }

  lemma {:induction false} LiveAtOthers(live: map<nat, seq<nat>>, id: nat, d: Place)
    ensures forall other :: other in live && other != id ==> other in LiveAt(live, id, d) && LiveAt(live, id, d)[other] == live[other]
  {
  }

  lemma {:induction false} MapUpdated(slots: seq<Slot>, list: seq<Entry>, list': seq<Entry>, e: Entry, other: Name)
    requires Inserted(slots, list, list', e) && OnDisk(slots, list) && UniqueNames(list) && Find(list, e.name) < 0
    ensures UniqueNames(list') && LookupName(list', other) == if other == e.name then Present(e) else LookupName(list, other)
  {
    var k := InsertedExactly(slots, list, list', e);
    assert list == list[..k] + list[k..];
    InsertAsMap(list[..k], e, list[k..], other);
  }

  lemma {:induction false} MapRemoved(slots: seq<Slot>, list: seq<Entry>, list': seq<Entry>, k: nat, other: Name)
    requires Removed(slots, list, list', k) && OnDisk(slots, list[..k] + list[k + 1..]) && UniqueNames(list)
    ensures UniqueNames(list') && LookupName(list', other) == if other == list[k].name then Missing else LookupName(list, other)
  {
    RemovedExactly(slots, list, list', k);
    RemoveAsMap(list, k, other);
  }

  /** The names and entries of a directory, as a map, after a create. */
  lemma {:induction false} CreatedMap(slots: seq<Slot>, n: nat, slots': seq<Slot>, name: Name, short: Slot, p: nat, junk: Junk)
    requires Written(slots + Zeros(n), slots', name, short, p) && Clean(slots + Zeros(n), p, name, short, junk)
    requires OnDisk(slots, Listing(slots, junk)) && Find(Listing(slots, junk), name) < 0
    ensures OnDisk(slots', Listing(slots', junk))
    ensures Decoded(name) == name && UniqueNames(Listing(slots, junk)) ==>
              && UniqueNames(Listing(slots', junk))
              && forall other :: LookupName(Listing(slots', junk), other)
                              == if other == name then Present(NewEntry(name, short, p)) else LookupName(Listing(slots, junk), other)
  {
    hide *;
    var grown := slots + Zeros(n);
    WrittenFacts(grown, slots', name, short, p);
    StorableLength(name, short);
    var e, list, list' := NewEntry(name, short, p), Listing(slots, junk), Listing(slots', junk);
    CreatedListing(slots, n, slots', name, short, p, junk);
    GrownScan(slots, n, 0, Start(junk), junk);
    ListingIs(slots, junk);
    ListingIs(grown, junk);
    GrownOnDisk(slots, n, list);
    InsertKeepsNames(grown, slots', p, Needed(name), junk);
    NewNameOnDisk(slots', p, name, short);
    NewEntryName(name, short, p);
    StillOnDisk(slots', list, list', e);
    if Decoded(name) == name && UniqueNames(list) {
      forall other
        ensures UniqueNames(list') && LookupName(list', other) == if other == name then Present(e) else LookupName(list, other)
      {
        MapUpdated(slots', list, list', e, other);
      }
      MapUpdated(slots', list, list', e, name);
    }
  }

  lemma {:induction false} NewEntryName(name: Name, short: Slot, p: nat)
    requires |name| <= NAME_MAX
    ensures NewEntry(name, short, p).name == Decoded(name) && NewEntry(name, short, p).dirent == short
  {
  }

  lemma {:induction false} WrittenFacts(slots: seq<Slot>, slots': seq<Slot>, name: Name, short: Slot, p: nat)
    requires Written(slots, slots', name, short, p)
    ensures Storable(name, short) && p + Needed(name) <= |slots| && AllFree(slots, p, Needed(name))
    ensures SameOutside(slots, slots', p, p + Needed(name)) && HoldsRun(slots', p, EntryRun(name, short))
  {
  }

  lemma {:induction false} GrownOnDisk(slots: seq<Slot>, n: nat, list: seq<Entry>)
    requires OnDisk(slots, list)
    ensures OnDisk(slots + Zeros(n), list)
  {
    forall i | 0 <= i < |list|
      ensures EntryOk(slots + Zeros(n), list[i]) && NameOnDisk(slots + Zeros(n), list[i])
    {
      NameStays(slots, slots + Zeros(n), list[i]);
    }
  }

  lemma {:induction false} StillOnDisk(slots: seq<Slot>, list: seq<Entry>, list': seq<Entry>, e: Entry)
    requires Inserted(slots, list, list', e) && OnDisk(slots, list) && EntryOk(slots, e) && NameOnDisk(slots, e)
    ensures OnDisk(slots, list')
  {
    var k := InsertedExactly(slots, list, list', e);
    forall i | 0 <= i < |list'|
      ensures EntryOk(slots, list'[i]) && NameOnDisk(slots, list'[i])
    {
      assert list'[i] == if i < k then list[i] else if i == k then e else list[i - 1];
    }
  }

  /** The inode id of a directory entry. */
  ghost predicate IdOf(g: Geometry, d: Place, pos: nat, inode: int) {
    pos / 16 < |DirLbas(g, d)| && inode == InodeId(DirLbas(g, d)[pos / 16], pos % 16 * 32)
  }

  /** Create an empty file. */
  method Create(v: Volume, inRoot: bool, dirCluster: nat, name: Name, date: Unit, time: Unit,
                junk: Junk, ghost d: Place, ghost live: map<nat, seq<nat>>, ghost id: nat)
    returns (rc: int, inode: int, ghost d': Place, ghost e: Entry, ghost p: nat)
    requires DirOn(v, d, live, id) && IsAt(d, inRoot, dirCluster) && IsCString(name)
    requires |name| <= NAME_MAX && d.InChain? && !HasRoom(Slots(v, d), Needed(name)) ==> v.Room(1)
    modifies v
    ensures DirOn(v, d', LiveAt(live, id, d'), id) && OthersKept(v.g, old(v.disk), v.disk, live, id)
    ensures rc in {0, EEXIST, ENAMETOOLONG, NOSPC}
    ensures rc == EEXIST <==> Find(Listing(old(Slots(v, d)), junk), name) >= 0
    ensures rc == ENAMETOOLONG <==> Find(Listing(old(Slots(v, d)), junk), name) < 0 && !(1 <= |name| <= NAME_MAX)
    ensures rc == NOSPC <==>
              && Find(Listing(old(Slots(v, d)), junk), name) < 0 && 1 <= |name| <= NAME_MAX
              && !HasRoom(old(Available(v, d, Needed(name))), Needed(name))
    ensures rc != 0 ==> Listing(Slots(v, d'), junk) == Listing(old(Slots(v, d)), junk)
    ensures rc == 0 ==>
              && |name| <= NAME_MAX && p + Needed(name) <= |old(Available(v, d, Needed(name)))|
              && e.name == Decoded(name) && e.dirent[11] == 0 && EntryCluster(v.g.variant, e.dirent) == 0 && EntrySize(e.dirent) == 0
              && IdOf(v.g, d', e.pos, inode)
              && (Inserted(Slots(v, d'), Listing(old(Slots(v, d)), junk), Listing(Slots(v, d'), junk), e)
                  <==> Clean(old(Available(v, d, Needed(name))), p, name, e.dirent, junk))
    ensures rc == 0 && Tidy(old(Slots(v, d)), 0, Idle) ==>
              Clean(old(Available(v, d, Needed(name))), p, name, e.dirent, junk) && Tidy(Slots(v, d'), 0, Idle)
    ensures rc == 0 && Clean(old(Available(v, d, Needed(name))), p, name, e.dirent, junk)
              && OnDisk(old(Slots(v, d)), Listing(old(Slots(v, d)), junk)) ==>
              && OnDisk(Slots(v, d'), Listing(Slots(v, d'), junk))
              && (Decoded(name) == name && UniqueNames(Listing(old(Slots(v, d)), junk)) ==>
                    && UniqueNames(Listing(Slots(v, d'), junk))
                    && forall other :: LookupName(Listing(Slots(v, d'), junk), other)
                                    == if other == name then Present(e) else LookupName(Listing(old(Slots(v, d)), junk), other))
  {
    hide *;
    Codes();
    DirOnFacts(v, d, live, id);
    d', p, inode := d, 0, 0;
    e := Entry([], seq(32, _ => 0), 0, 0, 0);
    ghost var slots := Slots(v, d);
    SlotsIs(v, d);
    var found, f, k := DirFind(v.g, v.disk, inRoot, dirCluster, name, junk, d);
    if found {
      return EEXIST, 0, d', e, p;
    }
    var lba, off;
    ghost var short, n;
    if |name| <= NAME_MAX {
      AvailableIs(v, d, Needed(name));
      n := Gain(v, d, Needed(name));
    }
    ZeroFits(v.g.variant);
    rc, lba, off, d', short, p := CreateNamed(v, inRoot, dirCluster, name, 0, 0, 0, date, time, junk, d, live, id);
    if rc != 0 {
      return rc, 0, d', e, p;
    }
    DirOnFacts(v, d', LiveAt(live, id, d'), id);
    e := NewEntry(name, short, p);
    NewEntryName(name, short, p);
    inode := InodeId(lba, off);
    IdIs(v.g, d', lba, off, e.pos);
    ghost var slots' := Slots(v, d');
    WrittenFacts(slots + Zeros(n), slots', name, short, p);
    CreatedListing(slots, n, slots', name, short, p, junk);
    if Clean(slots + Zeros(n), p, name, short, junk) && OnDisk(slots, Listing(slots, junk)) {
      CreatedMap(slots, n, slots', name, short, p, junk);
    }
  }

  lemma {:induction false} ZeroFits(v: Variant)
    ensures 0 < if v.Fat32? then 0x1_0000_0000 else 0x1_0000
  {
  }

  lemma {:induction false} IdIs(g: Geometry, d: Place, lba: nat, off: nat, pos: nat)
    requires AddressOf(g, d, lba, off, pos)
    ensures IdOf(g, d, pos, InodeId(lba, off))
  {
  }

  // ---------------------------------------------------------------- unlinking

  /** The FAT is no part of any directory. */
  lemma {:induction false} FatChangeKeepsSlots(g: Geometry, d0: Disk, d1: Disk, d: Place)
    requires PlaceOk(g, d0, d) && PlaceOk(g, d1, d) && OnlyFatChanged(g, d0, d1)
    ensures DirSlots(g, d1, d) == DirSlots(g, d0, d)
  {
    hide DirSlots;
    hide DirLbas;
    var a, b := DirSlots(g, d1, d), DirSlots(g, d0, d);
    forall k | 0 <= k < |b|
      ensures a[k] == b[k]
    {
      DirSlotAt(g, d0, d, k);
      DirSlotAt(g, d1, d, k);
      DirLbaPlace(g, d0, d, DirLbas(g, d)[k / 16]);
    }
  }

  /** The live files once the unlinked one is gone. */
  ghost function LiveWithout(live: map<nat, seq<nat>>, victim: nat, vid: nat): map<nat, seq<nat>> {
    if victim == 0 then live else live[vid := []]
  }

  /** Give the clusters of an unlinked file back. */
  method FreeVictim(v: Volume, victim: nat, ghost d: Place, ghost live: map<nat, seq<nat>>, ghost id: nat, ghost vid: nat)
    requires DirOn(v, d, live, id)
    requires victim != 0 ==> vid in live && vid != id && live[vid] != [] && live[vid][0] == victim
    modifies v
    ensures DirOn(v, d, LiveWithout(live, victim, vid), id) && Slots(v, d) == old(Slots(v, d))
    ensures if victim == 0 then v.T() == old(v.T()) else (forall i :: 0 <= i < |live[vid]| ==> live[vid][i] < |old(v.T())|)
                                                          && v.T() == Released(old(v.T()), live[vid])
    ensures forall other :: other in live && (victim == 0 || other != vid) ==> SameBytes(v.g, old(v.disk), v.disk, live[other])
  {
    hide *;
    DirOnFacts(v, d, live, id);
    SlotsIs(v, d);
    if victim == 0 {
      AllSame(v, live);
      WithoutNone(live, vid);
      return;
    }
    VictimChain(v.g, Table(v.g, v.disk), live, vid);
    v.Truncate(victim, live, vid);
    VictimGone(v, d, live, id, vid);
    DirOnIf(v, d, live[vid := []], id);
    FatChangeKeepsSlots(v.g, old(v.disk), v.disk, d);
    SlotsIs(v, d);
    WithoutSome(live, victim, vid);
  }

  lemma {:induction false} WithoutNone(live: map<nat, seq<nat>>, vid: nat)
    ensures LiveWithout(live, 0, vid) == live
  {
  }

  lemma {:induction false} WithoutSome(live: map<nat, seq<nat>>, victim: nat, vid: nat)
    requires victim != 0
    ensures LiveWithout(live, victim, vid) == live[vid := []]
  {
  }

  lemma {:induction false} AllSame(v: Volume, live: map<nat, seq<nat>>)
    requires v.Valid() && Sound(v.g, State(Table(v.g, v.disk), live))
    ensures forall other :: other in live ==> SameBytes(v.g, v.disk, v.disk, live[other])
  {
    SoundInData(v.g, v.T(), live);
  }

  lemma {:induction false} VictimChain(g: Geometry, t: seq<nat>, live: map<nat, seq<nat>>, vid: nat)
    requires Sound(g, State(t, live)) && vid in live && live[vid] != []
    ensures First(live[vid]) == live[vid][0] && forall i :: 0 <= i < |live[vid]| ==> live[vid][i] < |t|
  {
  }

  lemma {:induction false} VictimGone(v: Volume, d: Place, live: map<nat, seq<nat>>, id: nat, vid: nat)
    requires v.Valid() && Sound(v.g, State(v.T(), live[vid := []])) && vid in live && vid != id
    requires match d case Root => v.g.variant.Fat16? && id !in live case InChain(cs) => id in live && live[id] == cs && cs != []
    ensures PlaceOk(v.g, v.disk, d) && |v.disk| <= 0x1_0000_0000 && Sound(v.g, State(Table(v.g, v.disk), live[vid := []]))
    ensures match d case Root => id !in live[vid := []] case InChain(cs) => id in live[vid := []] && live[vid := []][id] == cs
  {
    assert d.InChain? ==> live[vid := []][id] == live[id];
  }

  /** Mark an entry's slots deleted. */
  method EraseEntry(v: Volume, inRoot: bool, dirCluster: nat, f: DirEntry, ghost d: Place, ghost live: map<nat, seq<nat>>, ghost id: nat,
                    ghost e: Entry)
    requires DirOn(v, d, live, id) && IsAt(d, inRoot, dirCluster) && Describes(v.g, d, e, f)
    requires e.runStart + e.runSlots <= |Slots(v, d)|
    modifies v`disk
    ensures DirOn(v, d, live, id) && OthersKept(v.g, old(v.disk), v.disk, live, id) && v.T() == old(v.T())
    ensures Slots(v, d) == Erase(old(Slots(v, d)), e.runStart, e.runSlots)
  {
    hide *;
    DirOnFacts(v, d, live, id);
    SlotsIs(v, d);
    DescribedRun(v.g, d, e, f);
    var ok, disk := EraseRunAt(v.g, v.disk, inRoot, dirCluster, f.runLba, f.runOff, f.runSlots, d, e.runStart);
    AllSlots(f.runSlots, |Slots(v, d)| - e.runStart);
    DirWriteKeeps(v.g, v.disk, disk, d, live, id);
    v.disk := disk;
    DirOnIf(v, d, live, id);
    DirOnFacts(v, d, live, id);
    SlotsIs(v, d);
  }

  lemma {:induction false} DescribedRun(g: Geometry, d: Place, e: Entry, f: DirEntry)
    requires Describes(g, d, e, f)
    ensures f.dirent == e.dirent && f.runSlots == e.runSlots && AddressOf(g, d, f.runLba, f.runOff, e.runStart)
  {
  }

  lemma {:induction false} AllSlots(n: nat, m: nat)
    requires n <= m
    ensures Fewer(n, m) == n
  {
  }

  /** What an unlink does to the listing and the names in it. */
  lemma {:induction false} UnlinkedMap(slots: seq<Slot>, name: Name, junk: Junk)
    requires Find(Listing(slots, junk), name) >= 0
    ensures var list, k := Listing(slots, junk), Find(Listing(slots, junk), name);
            && list[k].runStart + list[k].runSlots <= |slots|
            && var slots' := Erase(slots, list[k].runStart, list[k].runSlots);
               && Removed(slots', list, Listing(slots', junk), k)
               && (Tidy(slots, 0, Idle) ==> Tidy(slots', 0, Idle))
               && (OnDisk(slots, list) ==> OnDisk(slots', Listing(slots', junk)))
               && (OnDisk(slots, list) && UniqueNames(list) ==>
                     && UniqueNames(Listing(slots', junk))
                     && forall other :: LookupName(Listing(slots', junk), other)
                                     == if other == name then Missing else LookupName(list, other))
  {
    var list, k := Listing(slots, junk), Find(Listing(slots, junk), name);
    assert list[k].name == name;
    hide *;
    RemoveListing(slots, k, junk);
    var slots' := Erase(slots, list[k].runStart, list[k].runSlots);
    var list' := Listing(slots', junk);
    if Tidy(slots, 0, Idle) {
      TidyErase(slots, k, junk);
    }
    if OnDisk(slots, list) {
      EraseKeepsNames(slots, k, junk);
      RemovedExactly(slots', list, list', k);
      if UniqueNames(list) {
        forall other
          ensures UniqueNames(list') && LookupName(list', other) == if other == name then Missing else LookupName(list, other)
        {
          MapRemoved(slots', list, list', k, other);
        }
        MapRemoved(slots', list, list', k, name);
      }
    }
  }

  /**
   Unlink `name`: free its clusters and erase its slots. Exactly one entry leaves the
   listing, the first with that name, whatever else the directory holds.
   */
  method Unlink(v: Volume, inRoot: bool, dirCluster: nat, name: Name, junk: Junk,
                ghost d: Place, ghost live: map<nat, seq<nat>>, ghost id: nat, ghost vid: nat)
    returns (rc: int, ghost k: int)
    requires DirOn(v, d, live, id) && IsAt(d, inRoot, dirCluster)
    requires var found := LookupName(Listing(Slots(v, d), junk), name);
             found.Present? && !IsDirectory(found.entry.dirent) && EntryCluster(v.g.variant, found.entry.dirent) != 0 ==>
               vid in live && vid != id && live[vid] != [] && live[vid][0] == EntryCluster(v.g.variant, found.entry.dirent)
    modifies v
    ensures rc in {0, ENOENT, EISDIR} && k == Find(Listing(old(Slots(v, d)), junk), name)
    ensures rc == ENOENT <==> k < 0
    ensures rc == EISDIR <==> k >= 0 && IsDirectory(Listing(old(Slots(v, d)), junk)[k].dirent)
    ensures rc != 0 ==> v.disk == old(v.disk)
    ensures rc == 0 ==>
              var list := Listing(old(Slots(v, d)), junk);
              var victim := EntryCluster(v.g.variant, list[k].dirent);
              && DirOn(v, d, LiveWithout(live, victim, vid), id)
              && (if victim == 0 then v.T() == old(v.T())
                  else (forall i :: 0 <= i < |live[vid]| ==> live[vid][i] < |old(v.T())|) && v.T() == Released(old(v.T()), live[vid]))
              && (forall other :: other in live && other != id && (victim == 0 || other != vid) ==>
                    SameBytes(v.g, old(v.disk), v.disk, live[other]))
              && Removed(Slots(v, d), list, Listing(Slots(v, d), junk), k)
              && (Tidy(old(Slots(v, d)), 0, Idle) ==> Tidy(Slots(v, d), 0, Idle))
              && (OnDisk(old(Slots(v, d)), list) ==> OnDisk(Slots(v, d), Listing(Slots(v, d), junk)))
              && (OnDisk(old(Slots(v, d)), list) && UniqueNames(list) ==>
                    && UniqueNames(Listing(Slots(v, d), junk))
                    && forall other :: LookupName(Listing(Slots(v, d), junk), other)
                                    == if other == name then Missing else LookupName(list, other))
  {
    hide *;
    Codes();
    DirOnFacts(v, d, live, id);
    SlotsIs(v, d);
    var found, f;
    found, f, k := DirFind(v.g, v.disk, inRoot, dirCluster, name, junk, d);
    if !found {
      return ENOENT, k;
    }
    ghost var slots := Slots(v, d);
    ghost var list := Listing(slots, junk);
    ghost var e := list[k];
    DescribedRun(v.g, d, e, f);
    LookupIs(list, name);
    if IsDirectory(f.dirent) {
      return EISDIR, k;
    }
    var victim := EntryCluster(v.g.variant, f.dirent);
    FreeVictim(v, victim, d, live, id, vid);
    UnlinkedMap(slots, name, junk);
    ghost var d1, live' := v.disk, LiveWithout(live, victim, vid);
    DirOnFacts(v, d, live', id);
    EraseEntry(v, inRoot, dirCluster, f, d, live', id, e);
    UnlinkKeeps(v.g, old(v.disk), d1, v.disk, live, id, victim, vid);
    rc := 0;
  }

  lemma {:induction false} LookupIs(list: seq<Entry>, name: Name)
    requires Find(list, name) >= 0
    ensures LookupName(list, name) == Present(list[Find(list, name)])
  {
  }

  lemma {:induction false} UnlinkKeeps(g: Geometry, d0: Disk, d1: Disk, d2: Disk, live: map<nat, seq<nat>>, id: nat, victim: nat, vid: nat)
    requires forall other :: other in live && (victim == 0 || other != vid) ==> SameBytes(g, d0, d1, live[other])
    requires OthersKept(g, d1, d2, LiveWithout(live, victim, vid), id)
    ensures forall other :: other in live && other != id && (victim == 0 || other != vid) ==> SameBytes(g, d0, d2, live[other])
  {
    forall other | other in live && other != id && (victim == 0 || other != vid)
      ensures SameBytes(g, d0, d2, live[other])
    {
      assert LiveWithout(live, victim, vid)[other] == live[other];
    }
  }
}
