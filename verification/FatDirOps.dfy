/**
 Creating and removing directory entries. A directory behaves as a list of
 named entries: creating a name inserts exactly one entry, removing a name
 takes exactly one away, and every other entry reads as it did.
 */
module FatDirOps {
  import opened FatTable
  import opened FatNames
  import opened FatDir

  const ENOENT := -2
  const EEXIST := -17
  const EISDIR := -21
  const NOSPC := -28
  const ENAMETOOLONG := -36

  // ---------------------------------------------------------------- the slots of one entry

  /** The name the driver reads back after storing `name`. */
  function Decoded(name: Name): Name {
    if Fits83(name) then FromFatName(ToFatName(name), 0)
    else seq(|name|, i requires 0 <= i < |name| => AsciiOrUnderscore(name[i]))
  }

  /** Spelling survives exactly for ASCII names other than 8.3 names that end in a dot. */
  lemma {:induction false} DecodedExact(name: Name)
    requires |name| > 0
    ensures Decoded(name) == name <==> if Fits83(name) then name[|name| - 1] != DOT else IsAscii(name)
  {
    if Fits83(name) {
      ShortNameRoundTrip(name);
    } else if !IsAscii(name) {
      var i :| 0 <= i < |name| && name[i] >= 128;
      assert Decoded(name)[i] != name[i];
    }
  }

  lemma {:induction false} LongDecoded(name: Name)
    requires IsCString(name) && |name| <= NAME_MAX && !Fits83(name)
    ensures ReadUnits(UnitsFrom(name, 0, LfnSlots(|name|) * LFN_CHARS), NAME_MAX) == Decoded(name)
  {
    ReadUnitsBack(name, 0, LfnSlots(|name|) * LFN_CHARS, NAME_MAX);
  }

  function OrderByte(count: nat, i: nat): byte
    requires i < count <= LFN_MAX_SLOTS
  {
    count - i + if i == 0 then 64 else 0
  }

  /** The long-name slots, highest ordinal first. */
  function LfnRun(name: Name, count: nat, sum: byte): (r: seq<Slot>)
    requires count <= LFN_MAX_SLOTS
    ensures |r| == count
  {
    seq<Slot>(count, i requires 0 <= i < count => LfnSlot(OrderByte(count, i), sum, SlotUnits(name, count - i)))
  }

  method BuildLfnRun(name: Name, count: nat, sum: byte) returns (run: seq<Slot>)
    requires count <= LFN_MAX_SLOTS
    ensures run == LfnRun(name, count, sum)
  {
    run := [];
    var i := 0;
    while i < count
      invariant 0 <= i <= count && |run| == i
      invariant forall k :: 0 <= k < i ==> run[k] == LfnRun(name, count, sum)[k]
    {
      run := run + [LfnSlot(OrderByte(count, i), sum, SlotUnits(name, count - i))];
      i := i + 1;
    }
  }

  predicate PlainShort(s: Slot) { !IsFree(s) && !IsLfn(s) && !IsVolumeId(s) }

  predicate HoldsRun(slots: seq<Slot>, p: nat, run: seq<Slot>) {
    p + |run| <= |slots| && forall i :: 0 <= i < |run| ==> slots[p + i] == run[i]
  }

  /** Slot `i` of a long-name run of `count` slots for `name`. */
  predicate IsLfnOf(s: Slot, name: Name, count: nat, i: nat, sum: byte)
    requires i < count <= LFN_MAX_SLOTS
  {
    s[0] == OrderByte(count, i) && IsLfn(s) && s[13] == sum && Units(s) == SlotUnits(name, count - i)
  }

  predicate LfnAt(slots: seq<Slot>, p: nat, i: nat, name: Name, count: nat, sum: byte)
    requires i < count <= LFN_MAX_SLOTS && p + count < |slots|
  {
    IsLfnOf(slots[p + i], name, count, i, sum)
  }

  /** The slots from `p` on are such a run, followed by `short`. */
  predicate HoldsName(slots: seq<Slot>, p: nat, name: Name, count: nat, short: Slot) {
    && 1 <= count <= LFN_MAX_SLOTS && p + count < |slots| && slots[p + count] == short && PlainShort(short)
    && forall i :: 0 <= i < count ==> LfnAt(slots, p, i, name, count, Checksum(short[..11]))
  }

  lemma {:induction false} WrittenRunHolds(slots: seq<Slot>, p: nat, name: Name, count: nat, short: Slot)
    requires 1 <= count <= LFN_MAX_SLOTS && PlainShort(short)
    requires HoldsRun(slots, p, LfnRun(name, count, Checksum(short[..11])) + [short])
    ensures HoldsName(slots, p, name, count, short)
  {
    var sum := Checksum(short[..11]);
    var run := LfnRun(name, count, sum) + [short];
    forall i | 0 <= i < count
      ensures LfnAt(slots, p, i, name, count, sum)
    {
      assert slots[p + i] == run[i] == LfnSlot(OrderByte(count, i), sum, SlotUnits(name, count - i));
      LfnSlotReads(OrderByte(count, i), sum, SlotUnits(name, count - i));
    }
    assert slots[p + count] == run[count];
  }

  /** The scanner inside a run that the driver wrote: `i` slots seen, their units in place. */
  predicate Collected(acc: Acc, name: Name, p: nat, count: nat, i: nat, sum: byte) {
    && AccOk(acc) && i <= count <= LFN_MAX_SLOTS
    && (if i == 0 then acc.run.Idle? else acc.run == Open(p, count, i, sum))
    && forall k :: (count - i) * LFN_CHARS <= k < count * LFN_CHARS ==> acc.chars[k] == NameUnit(name, k)
  }

  lemma {:induction false} CollectNext(acc: Acc, s: Slot, name: Name, p: nat, count: nat, i: nat, sum: byte)
    requires AccOk(acc) && i < count <= LFN_MAX_SLOTS && IsLfnOf(s, name, count, i, sum)
    requires if i == 0 then acc.run.Idle? else acc.run == Open(p, count, i, sum)
    ensures Step(acc, s, p + i) == More(Acc(Store(acc.chars, count - i, SlotUnits(name, count - i)), Open(p, count, i + 1, sum)))
  {
    hide Store;
    hide Units;
    hide SlotUnits;
    assert Order(s) == count - i && !IsFree(s) && (IsLast(s) <==> i == 0);
  }

  lemma {:induction false} CollectStep(acc: Acc, s: Slot, name: Name, p: nat, count: nat, i: nat, sum: byte)
    requires Collected(acc, name, p, count, i, sum) && i < count && IsLfnOf(s, name, count, i, sum)
    ensures Step(acc, s, p + i).More? && Collected(Step(acc, s, p + i).acc, name, p, count, i + 1, sum)
  {
    hide Step;
    hide Store;
    hide IsLfnOf;
    CollectNext(acc, s, name, p, count, i, sum);
    var u := SlotUnits(name, count - i);
    var next := Store(acc.chars, count - i, u);
    forall k | (count - i - 1) * LFN_CHARS <= k < count * LFN_CHARS
      ensures next[k] == NameUnit(name, k)
    {
      StoreAt(acc.chars, count - i, u, k);
    }
  }

  lemma {:induction false} NameScans(slots: seq<Slot>, acc: Acc, name: Name, p: nat, count: nat, i: nat, short: Slot, junk: Junk)
    requires HoldsName(slots, p, name, count, short) && Collected(acc, name, p, count, i, Checksum(short[..11]))
    ensures Scan(slots, p + i, acc, junk)
         == [Entry(ReadUnits(UnitsFrom(name, 0, count * LFN_CHARS), NAME_MAX), short, p + count, p, count + 1)]
            + Scan(slots, p + count + 1, Start(junk), junk)
    decreases count - i
  {
    hide Step;
    hide ReadUnits;
    hide UnitsFrom;
    hide Checksum;
    hide IsLfnOf;
    if i < count {
      assert LfnAt(slots, p, i, name, count, Checksum(short[..11]));
      CollectStep(acc, slots[p + i], name, p, count, i, Checksum(short[..11]));
      NameScans(slots, Step(acc, slots[p + i], p + i).acc, name, p, count, i + 1, short, junk);
    } else {
      NameEnds(acc, name, p, count, short);
    }
  }

  lemma {:induction false} NameEnds(acc: Acc, name: Name, p: nat, count: nat, short: Slot)
    requires 1 <= count && Collected(acc, name, p, count, count, Checksum(short[..11])) && PlainShort(short)
    ensures Step(acc, short, p + count)
         == Found(Entry(ReadUnits(UnitsFrom(name, 0, count * LFN_CHARS), NAME_MAX), short, p + count, p, count + 1))
  {
    hide ReadUnits;
    hide Checksum;
    assert acc.chars[..count * LFN_CHARS] == UnitsFrom(name, 0, count * LFN_CHARS);
  }

  lemma {:induction false} NameTidy(slots: seq<Slot>, name: Name, p: nat, count: nat, i: nat, short: Slot)
    requires HoldsName(slots, p, name, count, short) && i <= count && Tidy(slots, p + count + 1, Idle)
    ensures Tidy(slots, p + i, if i == 0 then Idle else Open(p, count, i, Checksum(short[..11])))
    decreases count - i
  {
    if i < count {
      assert LfnAt(slots, p, i, name, count, Checksum(short[..11]));
      NameTidy(slots, name, p, count, i + 1, short);
      hide Checksum;
      assert Order(slots[p + i]) == count - i && !IsFree(slots[p + i]) && (IsLast(slots[p + i]) <==> i == 0);
    }
  }

  /** An entry as written: its long-name slots, if it needs any, and its 8.3 slot. */
  function EntryRun(name: Name, short: Slot): (r: seq<Slot>)
    requires |name| <= NAME_MAX
    ensures |r| == Needed(name)
  {
    if Fits83(name) then [short] else LfnRun(name, LfnSlots(|name|), Checksum(short[..11])) + [short]
  }

  /** How many consecutive slots an entry takes. */
  function Needed(name: Name): (n: nat)
    requires |name| <= NAME_MAX
    ensures 1 <= n <= LFN_MAX_SLOTS + 1
  {
    if Fits83(name) then 1 else LfnSlots(|name|) + 1
  }

  function NewEntry(name: Name, short: Slot, p: nat): Entry
    requires |name| <= NAME_MAX
  {
    var n := |EntryRun(name, short)|;
    Entry(Decoded(name), short, p + n - 1, p, n)
  }

  /** What the driver requires of a name, and makes sure of in the 8.3 slot it builds. */
  predicate Storable(name: Name, short: Slot) {
    && IsCString(name) && 1 <= |name| <= NAME_MAX && PlainShort(short) && short[12] == 0
    && (Fits83(name) ==> short[..11] == ToFatName(name))
  }

  lemma {:induction false} LongRunScans(slots: seq<Slot>, p: nat, name: Name, count: nat, short: Slot, acc: Acc, junk: Junk)
    requires Storable(name, short) && !Fits83(name) && count == LfnSlots(|name|) && HoldsName(slots, p, name, count, short)
    requires AccOk(acc) && acc.run.Idle?
    ensures Scan(slots, p, acc, junk)
         == [Entry(Decoded(name), short, p + count, p, count + 1)] + Scan(slots, p + count + 1, Start(junk), junk)
  {
    assert Collected(acc, name, p, count, 0, Checksum(short[..11]));
    NameScans(slots, acc, name, p, count, 0, short, junk);
    LongDecoded(name);
  }

  /** A later slot of a run, met while no run is open, changes nothing. */
  lemma {:induction false} FragmentSkipped(s: Slot, acc: Acc, pos: nat, name: Name, count: nat, i: nat, sum: byte)
    requires 1 <= i < count <= LFN_MAX_SLOTS && IsLfnOf(s, name, count, i, sum) && AccOk(acc) && acc.run.Idle?
    ensures Step(acc, s, pos) == More(acc)
  {
    assert !IsFree(s) && !IsLast(s) && Order(s) == count - i;
  }

  /** An entry without a long name. */
  function Alias(short: Slot, pos: nat): Entry { Entry(FromFatName(short[..11], short[12]), short, pos, pos, 1) }

  lemma {:induction false} RunReadAsFragment(slots: seq<Slot>, acc: Acc, name: Name, p: nat, count: nat, i: nat, short: Slot, junk: Junk)
    requires HoldsName(slots, p, name, count, short) && 1 <= i <= count && AccOk(acc) && acc.run.Idle?
    ensures Scan(slots, p + i, acc, junk) == [Alias(short, p + count)] + Scan(slots, p + count + 1, Start(junk), junk)
    decreases count - i
  {
    if i < count {
      assert LfnAt(slots, p, i, name, count, Checksum(short[..11]));
      FragmentSkipped(slots[p + i], acc, p + i, name, count, i, Checksum(short[..11]));
      RunReadAsFragment(slots, acc, name, p, count, i + 1, short, junk);
    }
  }

  /**
   Behind an unfinished run with another checksum, a long name's first slot is discarded
   with that run, and the name reads back as the 8.3 alias.
   */
  lemma {:induction false} OrphanHidesLongName(slots: seq<Slot>, acc: Acc, name: Name, p: nat, count: nat, short: Slot, junk: Junk)
    requires HoldsName(slots, p, name, count, short) && AccOk(acc)
    requires acc.run.Open? && acc.run.sum != Checksum(short[..11])
    ensures Scan(slots, p, acc, junk) == [Alias(short, p + count)] + Scan(slots, p + count + 1, Start(junk), junk)
  {
    assert LfnAt(slots, p, 0, name, count, Checksum(short[..11]));
    assert !IsFree(slots[p]) && Order(slots[p]) == count;
    RunReadAsFragment(slots, acc.(run := Idle), name, p, count, 1, short, junk);
  }

  lemma {:induction false} JoinStep(s: Slot, acc: Acc, pos: nat, name: Name, count: nat, i: nat, sum: byte)
    requires i < count <= LFN_MAX_SLOTS && IsLfnOf(s, name, count, i, sum) && AccOk(acc) && acc.run.Open? && acc.run.sum == sum
    ensures Step(acc, s, pos).More? && Step(acc, s, pos).acc.run == acc.run.(seen := acc.run.seen + 1)
  {
    assert !IsFree(s) && Order(s) == count - i;
  }

  /** Behind an unfinished run with the same checksum, the slots are taken into that run. */
  lemma {:induction false} OrphanTakesLongName(slots: seq<Slot>, acc: Acc, name: Name, p: nat, count: nat, i: nat, short: Slot, junk: Junk)
    returns (e: Entry)
    requires HoldsName(slots, p, name, count, short) && i <= count && AccOk(acc)
    requires acc.run.Open? && acc.run.sum == Checksum(short[..11])
    ensures Scan(slots, p + i, acc, junk) == [e] + Scan(slots, p + count + 1, Start(junk), junk)
    ensures e.dirent == short && e.pos == p + count
    ensures if acc.run.seen + count - i == acc.run.highest then e.runStart == acc.run.start && e.runSlots == acc.run.highest + 1
            else e == Alias(short, p + count)
    decreases count - i
  {
    hide FromFatName;
    hide ReadUnits;
    if i < count {
      assert LfnAt(slots, p, i, name, count, Checksum(short[..11]));
      JoinStep(slots[p + i], acc, p + i, name, count, i, Checksum(short[..11]));
      e := OrphanTakesLongName(slots, Step(acc, slots[p + i], p + i).acc, name, p, count, i + 1, short, junk);
    } else {
      e := ShortEntry(acc, short, p + count);
    }
  }

  /** The state in which the scanner takes a new entry for what it is. */
  predicate TakesEntry(run: Run, name: Name, short: Slot) { run.Idle? || (Fits83(name) && !Usable(run, short)) }

  lemma {:induction false} ShortLands(slots: seq<Slot>, p: nat, name: Name, short: Slot, acc: Acc, junk: Junk) returns (e: Entry)
    requires Storable(name, short) && Fits83(name) && p < |slots| && slots[p] == short && ShapeOk(acc, p)
    ensures Scan(slots, p, acc, junk) == [e] + Scan(slots, p + 1, Start(junk), junk)
    ensures e.pos == p && (e == NewEntry(name, short, p) <==> TakesEntry(acc.run, name, short))
  {
    hide Checksum;
    hide ReadUnits;
    hide FromFatName;
    hide ToFatName;
    assert Decoded(name) == FromFatName(short[..11], short[12]);
    e := ShortEntry(acc, short, p);
  }

  lemma {:induction false} LongLands(slots: seq<Slot>, p: nat, name: Name, count: nat, short: Slot, acc: Acc, junk: Junk) returns (e: Entry)
    requires Storable(name, short) && !Fits83(name) && count == LfnSlots(|name|) && HoldsName(slots, p, name, count, short)
    requires ShapeOk(acc, p)
    ensures Scan(slots, p, acc, junk) == [e] + Scan(slots, p + count + 1, Start(junk), junk)
    ensures e.pos == p + count && (e == NewEntry(name, short, p) <==> acc.run.Idle?)
  {
    hide Scan;
    hide Decoded;
    hide Step;
    if acc.run.Idle? {
      LongRunScans(slots, p, name, count, short, acc, junk);
      e := Entry(Decoded(name), short, p + count, p, count + 1);
    } else if acc.run.sum != Checksum(short[..11]) {
      OrphanHidesLongName(slots, acc, name, p, count, short, junk);
      e := Alias(short, p + count);
    } else {
      e := OrphanTakesLongName(slots, acc, name, p, count, 0, short, junk);
    }
  }

  /**
   A freshly written entry yields one entry, whatever the scanner was in the middle of,
   and leaves no trace in what follows. That entry is the new one, with its name and its
   slots, exactly if the scanner was between runs, or in a run that a plain 8.3 slot does
   not complete.
   */
  lemma {:induction false} EntryLands(slots: seq<Slot>, p: nat, name: Name, short: Slot, acc: Acc, junk: Junk) returns (e: Entry)
    requires Storable(name, short) && HoldsRun(slots, p, EntryRun(name, short)) && ShapeOk(acc, p)
    ensures Scan(slots, p, acc, junk) == [e] + Scan(slots, p + Needed(name), Start(junk), junk)
    ensures e.pos == p + Needed(name) - 1
    ensures e == NewEntry(name, short, p) <==> TakesEntry(acc.run, name, short)
  {
    hide Scan;
    hide Checksum;
    hide NewEntry;
    if Fits83(name) {
      assert slots[p] == EntryRun(name, short)[0];
      e := ShortLands(slots, p, name, short, acc, junk);
    } else {
      WrittenRunHolds(slots, p, name, LfnSlots(|name|), short);
      e := LongLands(slots, p, name, LfnSlots(|name|), short, acc, junk);
    }
  }

  /** The driver's own entries have their names on the disk. */
  lemma {:induction false} NewNameOnDisk(slots: seq<Slot>, p: nat, name: Name, short: Slot)
    requires Storable(name, short) && HoldsRun(slots, p, EntryRun(name, short))
    ensures EntryOk(slots, NewEntry(name, short, p)) && NameOnDisk(slots, NewEntry(name, short, p))
  {
    hide Checksum;
    hide LfnSlot;
    if !Fits83(name) {
      var count := LfnSlots(|name|);
      WrittenRunHolds(slots, p, name, count, short);
      hide LfnRun;
      hide HoldsRun;
      forall ord {:trigger HasPart(slots, p, p + count, ord)} | 1 <= ord < count + 1
        ensures HasPart(slots, p, p + count, ord)
      {
        PartHere(slots, p, name, count, short, ord);
      }
    }
  }

  lemma {:induction false} PartHere(slots: seq<Slot>, p: nat, name: Name, count: nat, short: Slot, ord: nat)
    requires HoldsName(slots, p, name, count, short) && 1 <= ord <= count
    ensures HasPart(slots, p, p + count, ord)
  {
    hide Checksum;
    assert LfnAt(slots, p, count - ord, name, count, Checksum(short[..11]));
    assert Order(slots[p + (count - ord)]) == ord;
  }

  // ---------------------------------------------------------------- inserting and removing

  predicate AllFree(slots: seq<Slot>, p: nat, n: nat)
    requires p + n <= |slots|
  {
    forall i :: p <= i < p + n ==> IsFree(slots[i])
  }

  function Splice(slots: seq<Slot>, p: nat, run: seq<Slot>): (r: seq<Slot>)
    requires p + |run| <= |slots|
    ensures |r| == |slots| && HoldsRun(r, p, run)
    ensures forall i :: 0 <= i < |slots| && !(p <= i < p + |run|) ==> r[i] == slots[i]
  {
    slots[..p] + run + slots[p + |run|..]
  }

  /** An end marker among the slots. */
  predicate Cut(slots: seq<Slot>, p: nat, n: nat)
    requires p + n <= |slots|
  {
    exists i :: p <= i < p + n && IsEnd(slots[i])
  }

  /** Free slots end the listing or the current run, and yield nothing. */
  lemma {:induction false} FreeSkipped(slots: seq<Slot>, p: nat, n: nat, acc: Acc, junk: Junk)
    requires p + n <= |slots| && AllFree(slots, p, n) && n >= 1 && AccOk(acc)
    ensures Cut(slots, p, n) ==> Scan(slots, p, acc, junk) == []
    ensures !Cut(slots, p, n) ==> Scan(slots, p, acc, junk) == Scan(slots, p + n, acc.(run := Idle), junk)
    decreases n
  {
    hide Step;
    FreeStep(acc, slots[p], p);
    if !IsEnd(slots[p]) {
      if n > 1 {
        FreeSkipped(slots, p + 1, n - 1, acc.(run := Idle), junk);
      }
      assert Cut(slots, p, n) <==> Cut(slots, p + 1, n - 1);
    }
  }

  lemma {:induction false} FreeStep(acc: Acc, s: Slot, pos: nat)
    requires AccOk(acc) && IsFree(s)
    ensures Step(acc, s, pos) == if IsEnd(s) then End else More(acc.(run := Idle))
  {
  }

  /** `list'` is `list` with `e` put in; the other entries are the same. */
  ghost predicate Inserted(slots: seq<Slot>, list: seq<Entry>, list': seq<Entry>, e: Entry) {
    exists k :: InsertedAt(slots, list, list', e, k)
  }

  predicate InsertedAt(slots: seq<Slot>, list: seq<Entry>, list': seq<Entry>, e: Entry, k: nat) {
    && k <= |list| && |list'| == |list| + 1 && list'[k] == e
    && SameEntries(slots, list'[..k], list[..k]) && SameEntries(slots, list'[k + 1..], list[k..])
  }

  /** The scanner's state when it reaches slot `p`. */
  function Reached(slots: seq<Slot>, p: nat, junk: Junk): (part: Part)
    requires p <= |slots| && NoEnd(slots, 0, p)
  {
    ScanTo(slots, 0, p, Start(junk), junk)
  }

  /**
   When writing an entry over free slots does what it should: the slots are not past the
   end marker, the scanner reaches them in a state that takes the entry for what it is,
   and if the end marker itself is overwritten there is no entry left behind it.
   */
  predicate Clean(slots: seq<Slot>, p: nat, name: Name, short: Slot, junk: Junk)
    requires |name| <= NAME_MAX && p + Needed(name) <= |slots|
  {
    && NoEnd(slots, 0, p)
    && TakesEntry(Reached(slots, p, junk).acc.run, name, short)
    && (Cut(slots, p, Needed(name)) ==> Scan(slots, p + Needed(name), Start(junk), junk) == [])
  }

  predicate SameOutside(a: seq<Slot>, b: seq<Slot>, p: nat, q: nat) {
    |a| == |b| && forall i :: 0 <= i < |a| && !(p <= i < q) ==> a[i] == b[i]
  }

  /** The old listing, cut where the entry goes. */
  lemma {:induction false} OldParts(slots: seq<Slot>, slots': seq<Slot>, p: nat, n: nat, junk: Junk) returns (after: seq<Entry>)
    requires n >= 1 && p + n <= |slots| && AllFree(slots, p, n) && NoEnd(slots, 0, p) && SameOutside(slots, slots', p, p + n)
    ensures Listing(slots, junk) == Reached(slots, p, junk).entries + after
    ensures if Cut(slots, p, n) then after == [] else SameEntries(slots', Scan(slots, p + n, Start(junk), junk), after)
  {
    hide Step;
    hide ScanTo;
    hide Scan;
    hide SameEntries;
    hide Agree;
    var x := Reached(slots, p, junk).acc;
    ScanSplit(slots, 0, p, Start(junk), junk);
    FreeSkipped(slots, p, n, x, junk);
    after := Scan(slots, p, x, junk);
    if !Cut(slots, p, n) {
      ScanFromFrame(slots, slots', p + n, Start(junk), junk);
      ScanFromFrame(slots, slots', p + n, x.(run := Idle), junk);
      BothIdle(slots', p + n, Start(junk), x.(run := Idle));
      ScanAgree(slots', p + n, Start(junk), x.(run := Idle), junk, junk);
    }
  }

  /** The new listing, cut there too. */
  lemma {:induction false} NewParts(slots: seq<Slot>, slots': seq<Slot>, p: nat, name: Name, short: Slot, junk: Junk) returns (e: Entry)
    requires Storable(name, short) && p + Needed(name) <= |slots| && NoEnd(slots, 0, p)
    requires SameOutside(slots, slots', p, p + Needed(name)) && HoldsRun(slots', p, EntryRun(name, short))
    ensures Listing(slots', junk) == Reached(slots, p, junk).entries + [e] + Scan(slots, p + Needed(name), Start(junk), junk)
    ensures e.pos == p + Needed(name) - 1
    ensures e == NewEntry(name, short, p) <==> TakesEntry(Reached(slots, p, junk).acc.run, name, short)
  {
    hide *;
    NewEntryPos(name, short, p);
    var n, acc := Needed(name), Reached(slots, p, junk).acc;
    FirstPart(slots, slots', p, n, junk);
    e := EntryLands(slots', p, name, short, acc, junk);
    LastPart(slots, slots', p, n, junk);
    Regroup(Reached(slots, p, junk).entries, e, Scan(slots, p + n, Start(junk), junk));
  }

  lemma {:induction false} FirstPart(slots: seq<Slot>, slots': seq<Slot>, p: nat, n: nat, junk: Junk)
    requires p + n <= |slots| && NoEnd(slots, 0, p) && SameOutside(slots, slots', p, p + n)
    ensures |slots'| == |slots| && ShapeOk(Reached(slots, p, junk).acc, p) && AccOk(Reached(slots, p, junk).acc)
    ensures Listing(slots', junk) == Reached(slots, p, junk).entries + Scan(slots', p, Reached(slots, p, junk).acc, junk)
  {
    hide Step;
    hide ScanTo;
    hide Scan;
    ScanToShape(slots, 0, p, Start(junk), junk);
    ScanToFrame(slots, slots', 0, p, Start(junk), junk);
    ScanSplit(slots', 0, p, Start(junk), junk);
  }

  lemma {:induction false} LastPart(slots: seq<Slot>, slots': seq<Slot>, p: nat, n: nat, junk: Junk)
    requires p + n <= |slots| && SameOutside(slots, slots', p, p + n)
    ensures |slots'| == |slots| && Scan(slots', p + n, Start(junk), junk) == Scan(slots, p + n, Start(junk), junk)
  {
    ScanFromFrame(slots, slots', p + n, Start(junk), junk);
  }

  lemma {:induction false} Regroup(a: seq<Entry>, e: Entry, b: seq<Entry>)
    ensures a + ([e] + b) == a + [e] + b
  {
  }

  lemma {:induction false} BothIdle(slots: seq<Slot>, pos: nat, a: Acc, b: Acc)
    requires pos <= |slots| && AccOk(a) && AccOk(b) && a.run.Idle? && b.run.Idle?
    ensures Agree(slots, pos, a, b)
  {
  }

  lemma {:induction false} SameAsItself(slots: seq<Slot>, list: seq<Entry>)
    requires forall e :: e in list ==> EntryOk(slots, e)
    ensures SameEntries(slots, list, list)
  {
  }

  lemma {:induction false} InsertIff(slots: seq<Slot>, slots': seq<Slot>, p: nat, name: Name, short: Slot, junk: Junk)
    requires Storable(name, short) && p + Needed(name) <= |slots| && AllFree(slots, p, Needed(name))
    requires SameOutside(slots, slots', p, p + Needed(name)) && HoldsRun(slots', p, EntryRun(name, short))
    ensures Inserted(slots', Listing(slots, junk), Listing(slots', junk), NewEntry(name, short, p)) <==> Clean(slots, p, name, short, junk)
  {
    if !NoEnd(slots, 0, p) {
      PastTheEnd(slots, slots', p, name, short, junk);
    } else {
      InsertVisible(slots, slots', p, name, short, junk);
    }
  }

  lemma {:induction false} PastTheEnd(slots: seq<Slot>, slots': seq<Slot>, p: nat, name: Name, short: Slot, junk: Junk)
    requires |name| <= NAME_MAX && p + Needed(name) <= |slots| && !NoEnd(slots, 0, p) && SameOutside(slots, slots', p, p + Needed(name))
    ensures !Inserted(slots', Listing(slots, junk), Listing(slots', junk), NewEntry(name, short, p))
  {
    var z :| 0 <= z < p && IsEnd(slots[z]);
    ScanStops(slots, slots', 0, z, Start(junk), junk);
    NotInserted(slots', Listing(slots, junk), NewEntry(name, short, p));
  }

  lemma {:induction false} InsertVisible(slots: seq<Slot>, slots': seq<Slot>, p: nat, name: Name, short: Slot, junk: Junk)
    requires Storable(name, short) && p + Needed(name) <= |slots| && AllFree(slots, p, Needed(name)) && NoEnd(slots, 0, p)
    requires SameOutside(slots, slots', p, p + Needed(name)) && HoldsRun(slots', p, EntryRun(name, short))
    ensures Inserted(slots', Listing(slots, junk), Listing(slots', junk), NewEntry(name, short, p)) <==> Clean(slots, p, name, short, junk)
  {
    hide *;
    NewEntryPos(name, short, p);
    var n, f := Needed(name), NewEntry(name, short, p);
    CleanVisible(slots, p, name, short, junk);
    SameLength(slots, slots', p, p + n);
    var after := OldParts(slots, slots', p, n, junk);
    var e := NewParts(slots, slots', p, name, short, junk);
    PartsInserted(slots, slots', p, n, Reached(slots, p, junk).entries, after, e, Scan(slots, p + n, Start(junk), junk), f, junk);
  }

  lemma {:induction false} NewEntryPos(name: Name, short: Slot, p: nat)
    requires Storable(name, short)
    ensures |name| <= NAME_MAX && NewEntry(name, short, p).pos == p + Needed(name) - 1
  {
  }

  lemma {:induction false} CleanVisible(slots: seq<Slot>, p: nat, name: Name, short: Slot, junk: Junk)
    requires |name| <= NAME_MAX && p + Needed(name) <= |slots| && NoEnd(slots, 0, p)
    ensures Clean(slots, p, name, short, junk) <==>
              && TakesEntry(Reached(slots, p, junk).acc.run, name, short)
              && (Cut(slots, p, Needed(name)) ==> Scan(slots, p + Needed(name), Start(junk), junk) == [])
  {
  }

  lemma {:induction false} NotInserted(slots: seq<Slot>, list: seq<Entry>, e: Entry)
    ensures !Inserted(slots, list, list, e)
  {
    hide SameEntries;
  }

  lemma {:induction false} SameLength(a: seq<Slot>, b: seq<Slot>, p: nat, q: nat)
    requires SameOutside(a, b, p, q)
    ensures |a| == |b|
  {
  }

  /** Writing an entry over free slots adds exactly that entry to the listing exactly if the place is clean. */
  lemma {:induction false} InsertListingIff(slots: seq<Slot>, p: nat, name: Name, short: Slot, junk: Junk)
    requires Storable(name, short) && p + Needed(name) <= |slots| && AllFree(slots, p, Needed(name))
    ensures var slots' := Splice(slots, p, EntryRun(name, short));
            Inserted(slots', Listing(slots, junk), Listing(slots', junk), NewEntry(name, short, p)) <==> Clean(slots, p, name, short, junk)
  {
    hide EntryRun;
    hide HoldsRun;
    InsertIff(slots, Splice(slots, p, EntryRun(name, short)), p, name, short, junk);
  }

  lemma {:induction false} PartsInserted(slots: seq<Slot>, slots': seq<Slot>, p: nat, n: nat, before: seq<Entry>, after: seq<Entry>,
                                         e: Entry, rest: seq<Entry>, f: Entry, junk: Junk)
    requires p + n <= |slots| == |slots'| && NoEnd(slots, 0, p) && n >= 1 && before == Reached(slots, p, junk).entries
    requires rest == Scan(slots, p + n, Start(junk), junk) && e.pos == f.pos == p + n - 1
    requires if Cut(slots, p, n) then after == [] else SameEntries(slots', rest, after)
    ensures Inserted(slots', before + after, before + [e] + rest, f) <==> e == f && (Cut(slots, p, n) ==> rest == [])
  {
    hide Scan;
    hide ScanTo;
    var list, list', k := before + after, before + [e] + rest, |before|;
    ScanToShape(slots, 0, p, Start(junk), junk);
    ScanShape(slots, p + n, Start(junk), junk);
    SameAsItself(slots', before);
    if e == f && (Cut(slots, p, n) ==> rest == []) {
      assert list'[..k] == before == list[..k] && list'[k + 1..] == rest && list[k..] == after;
      assert InsertedAt(slots', list, list', f, k);
    } else {
      forall i | 0 <= i < |list'| && i != k
        ensures list'[i] != f
      {
        assert list'[i] in before || list'[i] in rest;
      }
    }
  }

  /** A directory that breaks it: one leftover long-name slot right before the free ones. */
  lemma {:induction false} OrphanBreaksCreate(name: Name, short: Slot, m: nat, junk: Junk) returns (slots: seq<Slot>)
    requires Storable(name, short) && !Fits83(name) && m >= Needed(name)
    ensures |slots| == 1 + m && AllFree(slots, 1, m) && Listing(slots, junk) == [] && !Clean(slots, 1, name, short, junk)
    ensures Listing(Splice(slots, 1, EntryRun(name, short)), junk) == [Alias(short, Needed(name))]
  {
    var count := LfnSlots(|name|);
    var sum: byte := if Checksum(short[..11]) == 0 then 1 else 0;
    var orphan := LfnSlot(0x41, sum, SlotUnits(name, 1));
    LfnSlotReads(0x41, sum, SlotUnits(name, 1));
    slots := [orphan] + Zeros(m);
    var slots' := Splice(slots, 1, EntryRun(name, short));
    WrittenRunHolds(slots', 1, name, count, short);
    OrphanOpens(slots, slots', orphan, sum, name, count, short, junk);
  }

  lemma {:induction false} OrphanOpens(slots: seq<Slot>, slots': seq<Slot>, orphan: Slot, sum: byte, name: Name, count: nat,
                                       short: Slot, junk: Junk)
    requires orphan[0] == 0x41 && IsLfn(orphan) && orphan[13] == sum != Checksum(short[..11])
    requires |slots| == |slots'| > count + 1 && slots[0] == slots'[0] == orphan && forall i :: 0 < i < |slots| ==> IsEnd(slots[i])
    requires HoldsName(slots', 1, name, count, short) && forall i :: count + 1 < i < |slots'| ==> slots'[i] == slots[i]
    ensures Listing(slots, junk) == [] && Reached(slots, 1, junk).acc.run == Open(0, 1, 1, sum)
    ensures Listing(slots', junk) == [Alias(short, count + 1)]
  {
    hide Checksum;
    hide Store;
    hide Units;
    hide HoldsName;
    hide FromFatName;
    assert Order(orphan) == 1 && IsLast(orphan) && !IsFree(orphan);
    var acc := Step(Start(junk), orphan, 0).acc;
    assert acc.run == Open(0, 1, 1, sum);
    assert Scan(slots, 1, acc, junk) == [];
    assert ScanTo(slots, 1, 1, acc, junk) == Part([], acc);
    assert Step(Start(junk), slots[0], 0) == More(acc);
    assert Reached(slots, 1, junk) == Part([], acc);
    OrphanHidesLongName(slots', acc, name, 1, count, short, junk);
    assert Scan(slots', 1 + count + 1, Start(junk), junk) == [];
  }

  /** Mark the slots of a run deleted. */
  function Erase(slots: seq<Slot>, p: nat, n: nat): (r: seq<Slot>)
    requires p + n <= |slots|
    ensures |r| == |slots|
    ensures forall i :: 0 <= i < |slots| ==> r[i] == if p <= i < p + n then slots[i][0 := 0xE5] else slots[i]
  {
    if n == 0 then slots else Erase(slots, p, n - 1)[p + n - 1 := slots[p + n - 1][0 := 0xE5]]
  }

  /** The entry at `k` of a listing from `pos` on: what lies behind it, and where its run starts. */
  ghost predicate EntryAt(slots: seq<Slot>, pos: nat, acc: Acc, e: Entry, k: nat, rest: seq<Entry>, junk: Junk)
    requires pos <= |slots| && AccOk(acc)
  {
    && EntryOk(slots, e) && pos <= e.pos && NoEnd(slots, pos, e.pos + 1)
    && Scan(slots, e.pos + 1, Start(junk), junk) == rest
    && ScanTo(slots, pos, e.pos + 1, acc, junk).acc == Start(junk)
    && (k > 0 ==> e.runStart > pos)
    && (k == 0 ==> e.runStart >= pos || (acc.run.Open? && e.runStart == acc.run.start))
    && (e.runSlots > 1 && e.runStart == pos ==> acc.run.Idle?)
  }

  lemma {:induction false} LocateEntry(slots: seq<Slot>, pos: nat, acc: Acc, k: nat, junk: Junk)
    requires pos <= |slots| && ShapeOk(acc, pos) && k < |Scan(slots, pos, acc, junk)|
    ensures var list := Scan(slots, pos, acc, junk); EntryAt(slots, pos, acc, list[k], k, list[k + 1..], junk)
    decreases |slots| - pos
  {
    hide Step;
    hide EntryAt;
    var list := Scan(slots, pos, acc, junk);
    EndOnlyAtEnd(acc, slots[pos], pos);
    ShapeStep(acc, slots[pos], pos);
    var st := Step(acc, slots[pos], pos);
    if st.More? {
      LocateEntry(slots, pos + 1, st.acc, k, junk);
      LaterEntry(slots, pos, acc, list[k], k, list[k + 1..], junk);
    } else if k > 0 {
      LocateEntry(slots, pos + 1, Start(junk), k - 1, junk);
      assert list == [st.entry] + list[1..] && list[1..][k - 1] == list[k] && list[1..][k..] == list[k + 1..];
      LaterEntry(slots, pos, acc, list[k], k, list[k + 1..], junk);
    } else {
      EntryHere(slots, pos, acc, list[1..], junk);
    }
  }

  lemma {:induction false} LaterEntry(slots: seq<Slot>, pos: nat, acc: Acc, e: Entry, k: nat, rest: seq<Entry>, junk: Junk)
    requires pos < |slots| && ShapeOk(acc, pos) && !IsEnd(slots[pos])
    requires match Step(acc, slots[pos], pos)
             case End => false
             case More(a) => AccOk(a) && EntryAt(slots, pos + 1, a, e, k, rest, junk)
             case Found(_) => k > 0 && EntryAt(slots, pos + 1, Start(junk), e, k - 1, rest, junk)
    ensures EntryAt(slots, pos, acc, e, k, rest, junk)
  {
    hide Scan;
    hide Step;
    RunStarts(acc, slots[pos], pos);
    ShapeStep(acc, slots[pos], pos);
  }

  lemma {:induction false} EntryHere(slots: seq<Slot>, pos: nat, acc: Acc, rest: seq<Entry>, junk: Junk)
    requires pos < |slots| && ShapeOk(acc, pos) && Step(acc, slots[pos], pos).Found? && rest == Scan(slots, pos + 1, Start(junk), junk)
    ensures EntryAt(slots, pos, acc, Step(acc, slots[pos], pos).entry, 0, rest, junk)
  {
    hide Scan;
    hide Step;
    hide Start;
    EndOnlyAtEnd(acc, slots[pos], pos);
    RunStarts(acc, slots[pos], pos);
    ShapeStep(acc, slots[pos], pos);
    ScanToNow(slots, pos, acc, junk);
  }

  lemma {:induction false} ScanToNow(slots: seq<Slot>, pos: nat, acc: Acc, junk: Junk)
    requires pos < |slots| && AccOk(acc) && NoEnd(slots, pos, pos + 1) && Step(acc, slots[pos], pos).Found?
    ensures ScanTo(slots, pos, pos + 1, acc, junk) == Part([Step(acc, slots[pos], pos).entry], Start(junk))
  {
    hide Step;
    hide Start;
    assert ScanTo(slots, pos + 1, pos + 1, Start(junk), junk) == Part([], Start(junk));
  }

  /** How a slot moves the start of the current run. */
  lemma {:induction false} RunStarts(acc: Acc, s: Slot, pos: nat)
    requires ShapeOk(acc, pos)
    ensures var st := Step(acc, s, pos);
            && (st.More? && st.acc.run.Open? ==> st.acc.run.start == if acc.run.Open? then acc.run.start else pos)
            && (st.Found? ==> st.entry.runStart == pos || (acc.run.Open? && st.entry.runStart == acc.run.start))
            && (st.Found? && st.entry.runSlots > 1 ==> acc.run.Open? && st.entry.runStart < pos)
  {
    hide ReadUnits;
    hide FromFatName;
    hide Store;
    hide Units;
  }

  lemma {:induction false} BeforeEntry(slots: seq<Slot>, pos: nat, acc: Acc, k: nat, junk: Junk)
    requires pos <= |slots| && ShapeOk(acc, pos) && k < |Scan(slots, pos, acc, junk)|
    requires var e := Scan(slots, pos, acc, junk)[k]; pos <= e.runStart <= |slots| && NoEnd(slots, pos, e.runStart)
    ensures var list := Scan(slots, pos, acc, junk);
            var part := ScanTo(slots, pos, list[k].runStart, acc, junk);
            && part.entries == list[..k] && (list[k].runSlots > 1 ==> part.acc.run.Idle?)
    decreases |slots| - pos
  {
    hide Step;
    LocateEntry(slots, pos, acc, k, junk);
    EndOnlyAtEnd(acc, slots[pos], pos);
    ShapeStep(acc, slots[pos], pos);
    var st := Step(acc, slots[pos], pos);
    var e := Scan(slots, pos, acc, junk)[k];
    if e.runStart > pos {
      if st.More? {
        BeforeEntry(slots, pos + 1, st.acc, k, junk);
      } else {
        BeforeEntry(slots, pos + 1, Start(junk), k - 1, junk);
      }
    }
  }

  predicate Removed(slots: seq<Slot>, list: seq<Entry>, list': seq<Entry>, k: nat) {
    && k < |list| == |list'| + 1
    && SameEntries(slots, list'[..k], list[..k]) && SameEntries(slots, list'[k..], list[k + 1..])
  }

  /** Erasing the run of an entry takes that entry out of the listing and changes nothing else, in any directory. */
  lemma {:induction false} RemoveListing(slots: seq<Slot>, k: nat, junk: Junk)
    requires k < |Listing(slots, junk)|
    ensures var e := Listing(slots, junk)[k];
            && e.runStart + e.runSlots <= |slots|
            && Removed(Erase(slots, e.runStart, e.runSlots), Listing(slots, junk), Listing(Erase(slots, e.runStart, e.runSlots), junk), k)
  {
    hide Step;
    hide ScanTo;
    hide Scan;
    hide SameEntry;
    hide Agree;
    var list := Listing(slots, junk);
    LocateEntry(slots, 0, Start(junk), k, junk);
    var p, n := list[k].runStart, list[k].runSlots;
    BeforeEntry(slots, 0, Start(junk), k, junk);
    ScanToShape(slots, 0, p, Start(junk), junk);
    var slots', x := Erase(slots, p, n), Reached(slots, p, junk).acc;
    ScanToFrame(slots, slots', 0, p, Start(junk), junk);
    ScanSplit(slots', 0, p, Start(junk), junk);
    FreeSkipped(slots', p, n, x, junk);
    ScanFromFrame(slots, slots', p + n, Start(junk), junk);
    BothIdle(slots', p + n, x.(run := Idle), Start(junk));
    ScanAgree(slots', p + n, x.(run := Idle), Start(junk), junk, junk);
    var list', rest := Listing(slots', junk), Scan(slots', p + n, x.(run := Idle), junk);
    assert list' == list[..k] + rest;
    assert list'[..k] == list[..k] && list'[k..] == rest;
    ErasedShape(slots, slots', 0, p, junk);
    SameAsItself(slots', list[..k]);
  }

  lemma {:induction false} ErasedShape(slots: seq<Slot>, slots': seq<Slot>, pos: nat, to: nat, junk: Junk)
    requires pos <= to <= |slots| == |slots'| && NoEnd(slots, pos, to)
    ensures forall e :: e in ScanTo(slots, pos, to, Start(junk), junk).entries ==> EntryOk(slots', e)
  {
    ScanToShape(slots, pos, to, Start(junk), junk);
  }

  /** When every name is on the disk, the same entries are equal entries. */
  lemma {:induction false} SameIfOnDisk(slots: seq<Slot>, a: seq<Entry>, b: seq<Entry>)
    requires SameEntries(slots, a, b) && OnDisk(slots, b)
    ensures a == b
  {
    forall i | 0 <= i < |a|
      ensures a[i] == b[i]
    {
      assert SameEntry(slots, a[i], b[i]) && NameOnDisk(slots, b[i]);
      NameStays(slots, slots, b[i]);
    }
  }

  // ---------------------------------------------------------------- names that stay on the disk

  predicate OnDisk(slots: seq<Slot>, list: seq<Entry>) {
    forall i :: 0 <= i < |list| ==> EntryOk(slots, list[i]) && NameOnDisk(slots, list[i])
  }

  predicate Solid(slots: seq<Slot>, from: nat, to: nat)
    requires from <= to <= |slots|
  {
    forall i :: from <= i < to ==> !IsFree(slots[i])
  }

  /** An entry's run is made of slots in use, and starts no earlier than the scanner's current run. */
  lemma {:induction false} RunsSolid(slots: seq<Slot>, pos: nat, acc: Acc, junk: Junk)
    requires pos <= |slots| && ShapeOk(acc, pos) && (acc.run.Open? ==> Solid(slots, acc.run.start, pos))
    ensures forall e :: e in Scan(slots, pos, acc, junk) ==>
              && EntryOk(slots, e) && Solid(slots, e.runStart, e.pos + 1)
              && e.runStart >= if acc.run.Open? then acc.run.start else pos
    decreases |slots| - pos
  {
    hide Step;
    if pos < |slots| {
      EndOnlyAtEnd(acc, slots[pos], pos);
      ShapeStep(acc, slots[pos], pos);
      RunStarts(acc, slots[pos], pos);
      RunSlot(acc, slots[pos], pos);
      match Step(acc, slots[pos], pos)
      case End =>
      case More(a) => RunsSolid(slots, pos + 1, a, junk);
      case Found(_) => RunsSolid(slots, pos + 1, Start(junk), junk);
    }
  }

  lemma {:induction false} RunSlot(acc: Acc, s: Slot, pos: nat)
    requires AccOk(acc)
    ensures Step(acc, s, pos).Found? || (Step(acc, s, pos).More? && Step(acc, s, pos).acc.run.Open?) ==> !IsFree(s)
  {
    hide ShortEntry;
    hide Store;
    hide Units;
  }

  /** One entry's run ends before the next one's starts. */
  lemma {:induction false} RunsInOrder(slots: seq<Slot>, pos: nat, acc: Acc, junk: Junk, i: nat, j: nat)
    requires pos <= |slots| && ShapeOk(acc, pos) && (acc.run.Open? ==> Solid(slots, acc.run.start, pos))
    requires i < j < |Scan(slots, pos, acc, junk)|
    ensures Scan(slots, pos, acc, junk)[i].pos < Scan(slots, pos, acc, junk)[j].runStart
    decreases |slots| - pos
  {
    hide Step;
    EndOnlyAtEnd(acc, slots[pos], pos);
    ShapeStep(acc, slots[pos], pos);
    RunStarts(acc, slots[pos], pos);
    RunSlot(acc, slots[pos], pos);
    match Step(acc, slots[pos], pos)
    case End =>
    case More(a) => RunsInOrder(slots, pos + 1, a, junk, i, j);
    case Found(_) =>
      if i == 0 {
        RunsSolid(slots, pos + 1, Start(junk), junk);
        assert Scan(slots, pos, acc, junk)[j] in Scan(slots, pos + 1, Start(junk), junk);
      } else {
        RunsInOrder(slots, pos + 1, Start(junk), junk, i - 1, j - 1);
      }
  }

  /** A name stays on the disk when no slot of its run changes. */
  lemma {:induction false} NameStays(slots: seq<Slot>, slots': seq<Slot>, e: Entry)
    requires EntryOk(slots, e) && |slots| <= |slots'| && forall i :: e.runStart <= i < e.pos ==> slots'[i] == slots[i]
    ensures EntryOk(slots', e) && (NameOnDisk(slots, e) ==> NameOnDisk(slots', e))
  {
    if NameOnDisk(slots, e) {
      forall ord {:trigger HasPart(slots', e.runStart, e.pos, ord)} | 1 <= ord < e.runSlots
        ensures HasPart(slots', e.runStart, e.pos, ord)
      {
        assert HasPart(slots, e.runStart, e.pos, ord);
        var i :| e.runStart <= i < e.pos && Order(slots[i]) == ord;
        assert Order(slots'[i]) == ord;
      }
    }
  }

  /** Writing over free slots takes no other name off the disk. */
  lemma {:induction false} InsertKeepsNames(slots: seq<Slot>, slots': seq<Slot>, p: nat, n: nat, junk: Junk)
    requires p + n <= |slots| && AllFree(slots, p, n) && SameOutside(slots, slots', p, p + n) && OnDisk(slots, Listing(slots, junk))
    ensures OnDisk(slots', Listing(slots, junk))
  {
    hide Scan;
    RunsSolid(slots, 0, Start(junk), junk);
    var list := Listing(slots, junk);
    forall i | 0 <= i < |list|
      ensures EntryOk(slots', list[i]) && NameOnDisk(slots', list[i])
    {
      assert list[i] in list;
      NameStays(slots, slots', list[i]);
    }
  }

  /** Erasing one entry takes no other name off the disk. */
  lemma {:induction false} EraseKeepsNames(slots: seq<Slot>, k: nat, junk: Junk)
    requires k < |Listing(slots, junk)| && OnDisk(slots, Listing(slots, junk))
    ensures var list := Listing(slots, junk);
            && list[k].runStart + list[k].runSlots <= |slots|
            && OnDisk(Erase(slots, list[k].runStart, list[k].runSlots), list[..k] + list[k + 1..])
  {
    hide Scan;
    hide Erase;
    var list := Listing(slots, junk);
    var slots' := Erase(slots, list[k].runStart, list[k].runSlots);
    var rest := list[..k] + list[k + 1..];
    forall i | 0 <= i < |rest|
      ensures EntryOk(slots', rest[i]) && NameOnDisk(slots', rest[i])
    {
      var j := if i < k then i else i + 1;
      assert rest[i] == list[j];
      if j < k {
        RunsInOrder(slots, 0, Start(junk), junk, j, k);
      } else {
        RunsInOrder(slots, 0, Start(junk), junk, k, j);
      }
      NameStays(slots, slots', list[j]);
    }
  }

  /** With its names on the disk, a listing that gains an entry changes in nothing else. */
  lemma {:induction false} InsertedExactly(slots: seq<Slot>, list: seq<Entry>, list': seq<Entry>, e: Entry) returns (k: nat)
    requires Inserted(slots, list, list', e) && OnDisk(slots, list)
    ensures k <= |list| && list' == list[..k] + [e] + list[k..]
  {
    k :| InsertedAt(slots, list, list', e, k);
    hide SameEntry;
    hide NameOnDisk;
    hide EntryOk;
    var a, b := list[..k], list[k..];
    assert OnDisk(slots, a) && OnDisk(slots, b);
    hide OnDisk;
    hide SameEntries;
    SameIfOnDisk(slots, list'[..k], a);
    SameIfOnDisk(slots, list'[k + 1..], b);
    assert list' == list'[..k] + [list'[k]] + list'[k + 1..];
  }

  lemma {:induction false} RemovedExactly(slots: seq<Slot>, list: seq<Entry>, list': seq<Entry>, k: nat)
    requires Removed(slots, list, list', k) && OnDisk(slots, list[..k] + list[k + 1..])
    ensures list' == list[..k] + list[k + 1..]
  {
    var rest := list[..k] + list[k + 1..];
    assert forall i :: 0 <= i < k ==> list[i] == rest[i];
    var tail := list[k + 1..];
    assert forall i :: 0 <= i < |tail| ==> tail[i] == rest[k + i];
    SameIfOnDisk(slots, list'[..k], list[..k]);
    SameIfOnDisk(slots, list'[k..], list[k + 1..]);
    assert list' == list'[..k] + list'[k..];
  }

  // ---------------------------------------------------------------- directories the driver keeps clean

  lemma {:induction false} RunTidy(slots: seq<Slot>, p: nat, name: Name, short: Slot)
    requires Storable(name, short) && HoldsRun(slots, p, EntryRun(name, short)) && Tidy(slots, p + Needed(name), Idle)
    ensures Tidy(slots, p, Idle)
  {
    hide Checksum;
    if Fits83(name) {
      assert slots[p] == EntryRun(name, short)[0];
    } else {
      hide Tidy;
      WrittenRunHolds(slots, p, name, LfnSlots(|name|), short);
      NameTidy(slots, name, p, LfnSlots(|name|), 0, short);
    }
  }

  /** Every place in a tidy directory is clean, and writing an entry there keeps it tidy. */
  lemma {:induction false} TidyInsert(slots: seq<Slot>, p: nat, name: Name, short: Slot, junk: Junk)
    requires Tidy(slots, 0, Idle) && Storable(name, short)
    requires p + Needed(name) <= |slots| && AllFree(slots, p, Needed(name)) && NoEnd(slots, 0, p)
    ensures Clean(slots, p, name, short, junk) && Tidy(Splice(slots, p, EntryRun(name, short)), 0, Idle)
  {
    hide EntryRun;
    hide HoldsRun;
    hide Tidy;
    TidyInsertAt(slots, Splice(slots, p, EntryRun(name, short)), p, name, short, junk);
  }

  lemma {:induction false} TidyInsertAt(slots: seq<Slot>, slots': seq<Slot>, p: nat, name: Name, short: Slot, junk: Junk)
    requires Tidy(slots, 0, Idle) && Storable(name, short)
    requires p + Needed(name) <= |slots| && AllFree(slots, p, Needed(name)) && NoEnd(slots, 0, p)
    requires SameOutside(slots, slots', p, p + Needed(name)) && HoldsRun(slots', p, EntryRun(name, short))
    ensures Clean(slots, p, name, short, junk) && Tidy(slots', 0, Idle)
  {
    hide *;
    NewEntryPos(name, short, p);
    TidyIsClean(slots, p, name, short, junk);
    TidyTail(slots, slots', p, Needed(name));
    RunTidy(slots', p, name, short);
    TidyHead(slots, slots', p, Needed(name), junk);
  }

  lemma {:induction false} TidyIsClean(slots: seq<Slot>, p: nat, name: Name, short: Slot, junk: Junk)
    requires |name| <= NAME_MAX && Tidy(slots, 0, Idle)
    requires p + Needed(name) <= |slots| && AllFree(slots, p, Needed(name)) && NoEnd(slots, 0, p)
    ensures Clean(slots, p, name, short, junk) && Tidy(slots, p + Needed(name), Idle)
  {
    hide Tidy;
    hide Scan;
    hide ScanTo;
    Between(slots, p, junk);
    FreeStretch(slots, p, Needed(name), junk);
  }

  lemma {:induction false} TidyTail(slots: seq<Slot>, slots': seq<Slot>, p: nat, n: nat)
    requires p + n <= |slots| && SameOutside(slots, slots', p, p + n) && Tidy(slots, p + n, Idle)
    ensures |slots'| == |slots| && Tidy(slots', p + n, Idle)
  {
    TidyFromFrame(slots, slots', p + n, Idle);
  }

  lemma {:induction false} TidyHead(slots: seq<Slot>, slots': seq<Slot>, p: nat, n: nat, junk: Junk)
    requires n >= 1 && p + n <= |slots| == |slots'| && SameOutside(slots, slots', p, p + n) && Tidy(slots, 0, Idle) && NoEnd(slots, 0, p)
    requires AllFree(slots, p, n) && Tidy(slots', p, Idle)
    ensures Tidy(slots', 0, Idle)
  {
    hide Tidy;
    hide ScanTo;
    Between(slots, p, junk);
    TidyJoin(slots, slots', 0, p, Start(junk), Idle, junk);
  }

  /** Deleted slots in front of a tidy directory keep it tidy. */
  lemma {:induction false} DeletedThenTidy(slots: seq<Slot>, p: nat, n: nat)
    requires p + n <= |slots| && (forall i :: p <= i < p + n ==> IsDeleted(slots[i])) && Tidy(slots, p + n, Idle)
    ensures Tidy(slots, p, Idle)
    decreases n
  {
    if n > 0 {
      DeletedThenTidy(slots, p + 1, n - 1);
    }
  }

  /** In a tidy directory an 8.3 slot without a long name is not met inside a run. */
  lemma {:induction false} TidyShort(slots: seq<Slot>, pos: nat, run: Run)
    requires pos < |slots| && Tidy(slots, pos, run) && PlainShort(slots[pos]) && !Usable(run, slots[pos])
    ensures run.Idle?
  {
  }

  /** Erasing an entry keeps a directory tidy. */
  lemma {:induction false} TidyErase(slots: seq<Slot>, k: nat, junk: Junk)
    requires Tidy(slots, 0, Idle) && k < |Listing(slots, junk)|
    ensures var e := Listing(slots, junk)[k];
            e.runStart + e.runSlots <= |slots| && Tidy(Erase(slots, e.runStart, e.runSlots), 0, Idle)
  {
    hide Step;
    hide Tidy;
    hide ScanTo;
    hide Scan;
    var e := Listing(slots, junk)[k];
    LocateEntry(slots, 0, Start(junk), k, junk);
    BeforeEntry(slots, 0, Start(junk), k, junk);
    var p, n := e.runStart, e.runSlots;
    var slots' := Erase(slots, p, n);
    TidyAt(slots, 0, p + n, Start(junk), Idle, junk);
    TidyAt(slots, 0, p, Start(junk), Idle, junk);
    TidyFromFrame(slots, slots', p + n, Idle);
    DeletedThenTidy(slots', p, n);
    if n == 1 {
      SingleEntry(slots, 0, Start(junk), k, junk);
      TidyShort(slots, p, Reached(slots, p, junk).acc.run);
    }
    TidyJoin(slots, slots', 0, p, Start(junk), Idle, junk);
  }

  lemma {:induction false} SingleFound(acc: Acc, s: Slot, pos: nat)
    requires AccOk(acc)
    ensures Step(acc, s, pos).Found? && Step(acc, s, pos).entry.runSlots == 1 ==> PlainShort(s) && !Usable(acc.run, s)
  {
    hide ReadUnits;
    hide FromFatName;
    hide Store;
    hide Units;
    hide Checksum;
  }

  /** An entry without a long name is a plain 8.3 slot that completes no run. */
  lemma {:induction false} SingleEntry(slots: seq<Slot>, pos: nat, acc: Acc, k: nat, junk: Junk)
    requires pos <= |slots| && ShapeOk(acc, pos) && k < |Scan(slots, pos, acc, junk)|
    requires var e := Scan(slots, pos, acc, junk)[k]; e.runSlots == 1 && pos <= e.pos < |slots| && NoEnd(slots, pos, e.pos)
    ensures var e := Scan(slots, pos, acc, junk)[k];
            PlainShort(slots[e.pos]) && !Usable(ScanTo(slots, pos, e.pos, acc, junk).acc.run, slots[e.pos])
    decreases |slots| - pos
  {
    hide Step;
    LocateEntry(slots, pos, acc, k, junk);
    SingleFound(acc, slots[pos], pos);
    EndOnlyAtEnd(acc, slots[pos], pos);
    ShapeStep(acc, slots[pos], pos);
    var st := Step(acc, slots[pos], pos);
    if st.More? {
      ScanShape(slots, pos + 1, st.acc, junk);
      SingleEntry(slots, pos + 1, st.acc, k, junk);
    } else if k > 0 {
      ScanShape(slots, pos + 1, Start(junk), junk);
      SingleEntry(slots, pos + 1, Start(junk), k - 1, junk);
    }
  }

  // ---------------------------------------------------------------- the listing as a map from names

  datatype Lookup = Missing | Present(entry: Entry)

  function LookupName(list: seq<Entry>, name: Name): Lookup {
    if Find(list, name) < 0 then Missing else Present(list[Find(list, name)])
  }

  predicate UniqueNames(list: seq<Entry>) {
    forall i, j :: 0 <= i < j < |list| ==> list[i].name != list[j].name
  }

  lemma {:induction false} LookupAt(list: seq<Entry>, i: nat)
    requires UniqueNames(list) && i < |list|
    ensures LookupName(list, list[i].name) == Present(list[i])
  {
  }

  lemma {:induction false} InsertUnique(before: seq<Entry>, e: Entry, after: seq<Entry>)
    requires UniqueNames(before + after) && Find(before + after, e.name) < 0
    ensures UniqueNames(before + [e] + after)
  {
    var list, list' := before + after, before + [e] + after;
    assert forall i :: 0 <= i < |list| ==> list[i].name != e.name;
    assert forall i :: 0 <= i < |list'| && i != |before| ==> list'[i] == list[if i < |before| then i else i - 1];
  }

  lemma {:induction false} InsertAsMap(before: seq<Entry>, e: Entry, after: seq<Entry>, other: Name)
    requires UniqueNames(before + after) && Find(before + after, e.name) < 0
    ensures UniqueNames(before + [e] + after)
    ensures LookupName(before + [e] + after, other) == if other == e.name then Present(e) else LookupName(before + after, other)
  {
    var list, list', n := before + after, before + [e] + after, |before|;
    InsertUnique(before, e, after);
    if other == e.name {
      assert list'[n] == e;
      LookupAt(list', n);
    } else {
      var i := Find(list, other);
      if i >= 0 {
        var j := if i < n then i else i + 1;
        assert list'[j] == list[i];
        LookupAt(list', j);
      } else {
        forall j | 0 <= j < |list'|
          ensures list'[j].name != other
        {
          assert j != n ==> list'[j] == list[if j < n then j else j - 1];
        }
      }
    }
  }

  lemma {:induction false} RemoveAsMap(list: seq<Entry>, k: nat, other: Name)
    requires UniqueNames(list) && k < |list|
    ensures UniqueNames(list[..k] + list[k + 1..])
    ensures LookupName(list[..k] + list[k + 1..], other) == if other == list[k].name then Missing else LookupName(list, other)
  {
    var before, after := list[..k], list[k + 1..];
    assert list == before + [list[k]] + after;
    forall i | 0 <= i < |before + after|
      ensures (before + after)[i] == list[if i < k then i else i + 1]
    {
    }
    InsertAsMap(before, list[k], after, other);
  }

  // ---------------------------------------------------------------- room for a new entry

  /** Once the end marker is reached, everything after it is the end marker too. */
  lemma {:induction false} EndTail(slots: seq<Slot>, pos: nat, run: Run, i: nat, j: nat)
    requires pos <= i <= j < |slots| && Tidy(slots, pos, run) && IsEnd(slots[i])
    ensures IsEnd(slots[j])
    decreases |slots| - pos
  {
    if !IsEnd(slots[pos]) {
      TidyNext(slots, pos, run);
      EndTail(slots, pos + 1, NextRun(run, slots[pos], pos), i, j);
    }
  }

  lemma {:induction false} TidyNext(slots: seq<Slot>, pos: nat, run: Run)
    requires pos < |slots| && Tidy(slots, pos, run) && !IsEnd(slots[pos])
    ensures Tidy(slots, pos + 1, NextRun(run, slots[pos], pos))
  {
  }

  /** The first stretch of `n` free slots does not lie past the end marker. */
  lemma {:induction false} FirstRunVisible(slots: seq<Slot>, p: nat, n: nat)
    requires Tidy(slots, 0, Idle) && n >= 1 && IsFirstRun(slots, n, p)
    ensures NoEnd(slots, 0, p)
  {
    forall i | 0 <= i < p
      ensures !IsEnd(slots[i])
    {
      assert !AllFree(slots, i, n);
      var f :| i <= f < i + n && !IsFree(slots[f]);
      if IsEnd(slots[i]) {
        EndTail(slots, 0, Idle, i, f);
      }
    }
  }

  /** The first stretch of `n` free slots. */
  ghost predicate IsFirstRun(slots: seq<Slot>, n: nat, p: nat) {
    p + n <= |slots| && AllFree(slots, p, n) && forall q :: 0 <= q < p ==> !AllFree(slots, q, n)
  }

  predicate HasRoom(slots: seq<Slot>, n: nat) {
    exists q :: 0 <= q <= |slots| - n && AllFree(slots, q, n)
  }

  function Zeros(n: nat): (r: seq<Slot>)
    ensures |r| == n && forall i :: 0 <= i < n ==> IsEnd(r[i])
  {
    seq<Slot>(n, _ => seq(32, _ => 0))
  }

  /** A zeroed cluster at the end of a directory holds no entries. */
  lemma {:induction false} GrownScan(slots: seq<Slot>, n: nat, pos: nat, acc: Acc, junk: Junk)
    requires pos <= |slots| && AccOk(acc)
    ensures Scan(slots + Zeros(n), pos, acc, junk) == Scan(slots, pos, acc, junk)
    decreases |slots| - pos
  {
    hide Step;
    var grown := slots + Zeros(n);
    if pos < |slots| {
      assert grown[pos] == slots[pos];
      match Step(acc, slots[pos], pos)
      case End =>
      case More(a) => GrownScan(slots, n, pos + 1, a, junk);
      case Found(_) => GrownScan(slots, n, pos + 1, Start(junk), junk);
    } else if n > 0 {
      EndOnlyAtEnd(acc, grown[pos], pos);
    }
  }

  lemma {:induction false} GrownTidy(slots: seq<Slot>, n: nat, pos: nat, run: Run)
    requires pos <= |slots| && Tidy(slots, pos, run)
    ensures Tidy(slots + Zeros(n), pos, run)
    decreases |slots| - pos
  {
    if pos < |slots| && !IsEnd(slots[pos]) {
      TidyNext(slots, pos, run);
      GrownTidy(slots, n, pos + 1, NextRun(run, slots[pos], pos));
      assert (slots + Zeros(n))[pos] == slots[pos];
    }
  }
}
