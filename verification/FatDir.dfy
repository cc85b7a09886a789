/**
 A FAT directory: a run of 32-byte slots in which a long name is stored in
 reverse order in the slots before the 8.3 entry it belongs to. The directory
 is taken as the sequence of its slots; a slot's index stands for its address
 (`FatSlots` ties the two together).
 */
module FatDir {
  import opened FatTable
  import opened FatNames

  type Slot = s: seq<byte> | |s| == 32 witness seq(32, _ => 0)

  predicate IsEnd(s: Slot) { s[0] == 0x00 }
  predicate IsDeleted(s: Slot) { s[0] == 0xE5 }
  predicate IsFree(s: Slot) { IsEnd(s) || IsDeleted(s) }

  predicate IsLfn(s: Slot) { s[11] as int % 16 == 15 }
  predicate IsVolumeId(s: Slot) { s[11] as int / 8 % 2 == 1 }
  predicate IsDirectory(s: Slot) { s[11] as int / 16 % 2 == 1 }

  function Order(s: Slot): nat { s[0] as int % 32 }
  predicate IsLast(s: Slot) { s[0] as int / 64 % 2 == 1 }

  /** Byte offset of code unit `k` in a long-name slot: runs of 5, 6 and 2. */
  function UnitOffset(k: nat): nat {
    if k < 5 then 1 + 2 * k else if k < 11 then 14 + 2 * (k - 5) else 28 + 2 * (k - 11)
  }

  function Units(s: Slot): (r: seq<Unit>)
    ensures |r| == LFN_CHARS
  {
    seq<Unit>(LFN_CHARS, k requires 0 <= k < LFN_CHARS => s[UnitOffset(k)] as int + 256 * s[UnitOffset(k) + 1] as int)
  }

  function Low(u: Unit): byte { u % 256 }
  function High(u: Unit): byte { u / 256 }

  /** Which code unit a name byte of a long-name slot belongs to. */
  function UnitOf(i: nat): (k: nat)
    requires 1 <= i < 11 || 14 <= i < 26 || 28 <= i < 32
    ensures k < LFN_CHARS && UnitOffset(k) <= i <= UnitOffset(k) + 1
  {
    if i < 11 then (i - 1) / 2 else if i < 26 then 5 + (i - 14) / 2 else 11 + (i - 28) / 2
  }

  /** A long-name slot as the driver writes it. */
  function LfnSlot(order: byte, sum: byte, u: seq<Unit>): (s: Slot)
    requires |u| == LFN_CHARS
  {
    seq<byte>(32, i requires 0 <= i < 32 =>
      if i == 0 then order else if i == 11 then 0x0F else if i == 13 then sum
      else if i == 12 || i == 26 || i == 27 then 0
      else if i == UnitOffset(UnitOf(i)) then Low(u[UnitOf(i)]) else High(u[UnitOf(i)]))
  }

  lemma {:induction false} LfnSlotReads(order: byte, sum: byte, u: seq<Unit>)
    requires |u| == LFN_CHARS
    ensures var s := LfnSlot(order, sum, u);
            s[0] == order && IsLfn(s) && s[13] == sum && Units(s) == u
  {
    var s := LfnSlot(order, sum, u);
    forall k | 0 <= k < LFN_CHARS
      ensures Units(s)[k] == u[k]
    {
      UnitOfOffset(k);
      assert s[UnitOffset(k)] == Low(u[k]) && s[UnitOffset(k) + 1] == High(u[k]);
    }
  }

  lemma {:induction false} UnitOfOffset(k: nat)
    requires k < LFN_CHARS
    ensures var o := UnitOffset(k); (1 <= o < 10 || 14 <= o < 25 || 28 <= o < 31) && UnitOf(o) == k && UnitOf(o + 1) == k
  {
  }

  /** An 8.3 entry as the driver writes it; `date` and `time` come from the clock. */
  function ShortSlot(v: Variant, name11: seq<byte>, attr: byte, cluster: nat, size: nat, date: Unit, time: Unit): (s: Slot)
    requires |name11| == 11
    ensures s[..11] == name11 && s[11] == attr && s[12] == 0
  {
    var high := if v.Fat32? then cluster / 65536 % 65536 else 0;
    name11 + [ attr, 0, 0, Low(time), High(time), Low(date), High(date), Low(date), High(date),
               Low(high), High(high), Low(time), High(time), Low(date), High(date),
               cluster % 256, cluster / 256 % 256,
               size % 256, size / 256 % 256, size / 65536 % 256, size / 16777216 % 256 ]
  }

  function EntryCluster(v: Variant, s: Slot): nat {
    var low := s[26] as int + 256 * s[27] as int;
    if v.Fat32? then low + 65536 * (s[20] as int + 256 * s[21] as int) else low
  }

  function EntrySize(s: Slot): nat {
    s[28] as int + 256 * s[29] as int + 65536 * s[30] as int + 16777216 * s[31] as int
  }

  lemma {:induction false} LowHigh(x: nat)
    requires x < 0x1_0000
    ensures x % 256 + 256 * (x / 256 % 256) == x
  {
  }

  lemma {:induction false} FourBytesBack(x: nat)
    requires x < 0x1_0000_0000
    ensures x % 256 + 256 * (x / 256 % 256) + 65536 * (x / 65536 % 256) + 16777216 * (x / 16777216 % 256) == x
  {
    DivInSteps(x);
    LowHigh(x % 65536);
    LowHigh(x / 65536);
    TwoBytes(x);
  }

  lemma {:induction false} SizeBack(v: Variant, name11: seq<byte>, attr: byte, cluster: nat, size: nat, date: Unit, time: Unit)
    requires |name11| == 11 && size < 0x1_0000_0000
    ensures EntrySize(ShortSlot(v, name11, attr, cluster, size, date, time)) == size
  {
    FourBytesBack(size);
  }

  lemma {:induction false} ShortSlotRoundTrip(v: Variant, name11: seq<byte>, attr: byte, cluster: nat, size: nat, date: Unit, time: Unit)
    requires |name11| == 11 && size < 0x1_0000_0000
    requires cluster < if v.Fat32? then 0x1_0000_0000 else 0x1_0000
    ensures var s := ShortSlot(v, name11, attr, cluster, size, date, time);
            EntryCluster(v, s) == cluster && EntrySize(s) == size
  {
    SizeBack(v, name11, attr, cluster, size, date, time);
    hide EntrySize;
    var s := ShortSlot(v, name11, attr, cluster, size, date, time);
    var high: Unit := if v.Fat32? then cluster / 65536 % 65536 else 0;
    assert s[26] == cluster % 256 && s[27] == cluster / 256 % 256 && s[20] == Low(high) && s[21] == High(high);
    hide ShortSlot;
    TwoBytes(cluster);
    LowHigh(high);
    assert cluster == cluster % 65536 + 65536 * (cluster / 65536);
  }

  // ---------------------------------------------------------------- reading a directory

  datatype Run = Idle | Open(start: nat, highest: nat, seen: nat, sum: byte)

  /** The scanner's state: the units collected so far, and the run being collected. */
  datatype Acc = Acc(chars: seq<Unit>, run: Run)

  datatype Entry = Entry(name: Name, dirent: Slot, pos: nat, runStart: nat, runSlots: nat)

  datatype Outcome = End | More(acc: Acc) | Found(entry: Entry)

  const CHARS := LFN_MAX_SLOTS * LFN_CHARS

  function Store(chars: seq<Unit>, ord: nat, u: seq<Unit>): (r: seq<Unit>)
    requires |chars| == CHARS && |u| == LFN_CHARS && 1 <= ord <= LFN_MAX_SLOTS
    ensures |r| == CHARS
  {
    chars[..(ord - 1) * LFN_CHARS] + u + chars[ord * LFN_CHARS..]
  }

  lemma {:induction false} StoreAt(chars: seq<Unit>, ord: nat, u: seq<Unit>, k: nat)
    requires |chars| == CHARS && |u| == LFN_CHARS && 1 <= ord <= LFN_MAX_SLOTS && k < CHARS
    ensures Store(chars, ord, u)[k]
         == if (ord - 1) * LFN_CHARS <= k < ord * LFN_CHARS then u[k - (ord - 1) * LFN_CHARS] else chars[k]
  {
  }

  predicate Usable(run: Run, s: Slot) {
    run.Open? && run.seen == run.highest && Checksum(s[..11]) == run.sum
  }

  function ShortEntry(acc: Acc, s: Slot, pos: nat): Entry
    requires |acc.chars| == CHARS && (acc.run.Open? ==> 1 <= acc.run.highest <= LFN_MAX_SLOTS)
  {
    if Usable(acc.run, s)
    then Entry(ReadUnits(acc.chars[..acc.run.highest * LFN_CHARS], NAME_MAX), s, pos, acc.run.start, acc.run.highest + 1)
    else Entry(FromFatName(s[..11], s[12]), s, pos, pos, 1)
  }

  predicate AccOk(acc: Acc) {
    |acc.chars| == CHARS && (acc.run.Open? ==> 1 <= acc.run.highest <= LFN_MAX_SLOTS)
  }

  /** What the scanner does with one slot. */
  function Step(acc: Acc, s: Slot, pos: nat): (o: Outcome)
    requires AccOk(acc)
    ensures o.More? ==> AccOk(o.acc)
  {
    if IsEnd(s) then End
    else if IsDeleted(s) then More(acc.(run := Idle))
    else if IsLfn(s) then
      var ord := Order(s);
      if ord < 1 || ord > LFN_MAX_SLOTS then More(acc.(run := Idle))
      else if acc.run.Idle? then
        if IsLast(s) then More(Acc(Store(acc.chars, ord, Units(s)), Open(pos, ord, 1, s[13]))) else More(acc)
      else if s[13] != acc.run.sum then More(acc.(run := Idle))
      else More(Acc(Store(acc.chars, ord, Units(s)), acc.run.(seen := acc.run.seen + 1)))
    else if IsVolumeId(s) then More(acc.(run := Idle))
    else Found(ShortEntry(acc, s, pos))
  }

  type Junk = j: seq<Unit> | |j| == CHARS witness seq(CHARS, _ => 0)

  /** Each call of the scanner starts with whatever the stack held where the units go. */
  function Start(junk: Junk): (acc: Acc)
    ensures AccOk(acc)
  {
    Acc(junk, Idle)
  }

  /** All entries from slot `pos` on. */
  function Scan(slots: seq<Slot>, pos: nat, acc: Acc, junk: Junk): seq<Entry>
    requires AccOk(acc) && pos <= |slots|
    decreases |slots| - pos
  {
    if pos == |slots| then []
    else
      match Step(acc, slots[pos], pos)
      case End => []
      case More(a) => Scan(slots, pos + 1, a, junk)
      case Found(e) => [e] + Scan(slots, pos + 1, Start(junk), junk)
  }

  function Listing(slots: seq<Slot>, junk: Junk): seq<Entry> { Scan(slots, 0, Start(junk), junk) }

  /** The first entry with this name. */
  function Find(list: seq<Entry>, name: Name): (r: int)
    ensures -1 <= r < |list|
    ensures r >= 0 ==> list[r].name == name && forall i :: 0 <= i < r ==> list[i].name != name
    ensures r < 0 ==> forall i :: 0 <= i < |list| ==> list[i].name != name
  {
    if list == [] then -1
    else if list[0].name == name then 0
    else var r := Find(list[1..], name); if r < 0 then -1 else r + 1
  }

  // ---------------------------------------------------------------- which names are on the disk

  /** A run's slots are consecutive, and its last one is at hand. */
  predicate ShapeOk(acc: Acc, pos: nat) {
    AccOk(acc) && (acc.run.Open? ==> acc.run.seen >= 1 && acc.run.start + acc.run.seen == pos)
  }

  /** Where an entry's slots lie. */
  predicate EntryOk(slots: seq<Slot>, e: Entry) {
    1 <= e.runSlots && e.runStart + e.runSlots == e.pos + 1 <= |slots|
  }

  /**
   The slots of the entry's run hold every part of its name. A run with a part missing
   makes the scanner read what the stack held.
   */
  predicate NameOnDisk(slots: seq<Slot>, e: Entry)
    requires EntryOk(slots, e)
  {
    forall ord :: 1 <= ord < e.runSlots ==> HasPart(slots, e.runStart, e.pos, ord)
  }

  predicate HasPart(slots: seq<Slot>, from: nat, to: nat, ord: nat)
    requires to <= |slots|
  {
    exists i :: from <= i < to && Order(slots[i]) == ord
  }

  /** The same entry, but for a name that is not on the disk. */
  predicate SameEntry(slots: seq<Slot>, a: Entry, b: Entry) {
    && EntryOk(slots, a) && a.(name := b.name) == b
    && (NameOnDisk(slots, a) ==> a.name == b.name)
  }

  predicate SameEntries(slots: seq<Slot>, a: seq<Entry>, b: seq<Entry>) {
    |a| == |b| && forall i :: 0 <= i < |a| ==> SameEntry(slots, a[i], b[i])
  }

  predicate SamePart(a: seq<Unit>, b: seq<Unit>, ord: nat)
    requires |a| == CHARS && |b| == CHARS && 1 <= ord <= LFN_MAX_SLOTS
  {
    forall k :: (ord - 1) * LFN_CHARS <= k < ord * LFN_CHARS ==> a[k] == b[k]
  }

  /** Two scanners in the same run, which agree on the parts of the name that the run has supplied. */
  predicate Agree(slots: seq<Slot>, pos: nat, a: Acc, b: Acc) {
    && pos <= |slots| && ShapeOk(a, pos) && ShapeOk(b, pos) && a.run == b.run
    && (a.run.Open? ==> forall i :: a.run.start <= i < pos ==>
          1 <= Order(slots[i]) <= LFN_MAX_SLOTS && SamePart(a.chars, b.chars, Order(slots[i])))
  }

  lemma {:induction false} PartsStored(a: seq<Unit>, b: seq<Unit>, ord: nat, u: seq<Unit>, other: nat)
    requires |a| == CHARS && |b| == CHARS && |u| == LFN_CHARS && 1 <= ord <= LFN_MAX_SLOTS && 1 <= other <= LFN_MAX_SLOTS
    requires other == ord || SamePart(a, b, other)
    ensures SamePart(Store(a, ord, u), Store(b, ord, u), other)
  {
    forall k | (other - 1) * LFN_CHARS <= k < other * LFN_CHARS
      ensures Store(a, ord, u)[k] == Store(b, ord, u)[k]
    {
      StoreAt(a, ord, u, k);
      StoreAt(b, ord, u, k);
    }
  }

  /** Parts 1 to `n` are all of the first `n` slots' units. */
  lemma {:induction false} AllParts(a: seq<Unit>, b: seq<Unit>, n: nat)
    requires |a| == CHARS && |b| == CHARS && n <= LFN_MAX_SLOTS && forall ord :: 1 <= ord <= n ==> SamePart(a, b, ord)
    ensures a[..n * LFN_CHARS] == b[..n * LFN_CHARS]
  {
    forall k | 0 <= k < n * LFN_CHARS
      ensures a[k] == b[k]
    {
      assert SamePart(a, b, k / LFN_CHARS + 1);
    }
  }

  lemma {:induction false} AgreeLfn(slots: seq<Slot>, pos: nat, a: Acc, b: Acc)
    requires Agree(slots, pos, a, b) && pos < |slots| && !IsFree(slots[pos]) && IsLfn(slots[pos])
    ensures Step(a, slots[pos], pos).More? && Step(b, slots[pos], pos).More?
    ensures Agree(slots, pos + 1, Step(a, slots[pos], pos).acc, Step(b, slots[pos], pos).acc)
  {
    hide Store;
    hide Units;
    hide SamePart;
    var s := slots[pos];
    var ord := Order(s);
    var a', b' := Step(a, s, pos).acc, Step(b, s, pos).acc;
    if a'.run.Open? {
      assert a'.chars == Store(a.chars, ord, Units(s)) && b'.chars == Store(b.chars, ord, Units(s));
      forall i | a'.run.start <= i < pos + 1
        ensures 1 <= Order(slots[i]) <= LFN_MAX_SLOTS && SamePart(a'.chars, b'.chars, Order(slots[i]))
      {
        PartsStored(a.chars, b.chars, ord, Units(s), Order(slots[i]));
      }
    }
  }

  lemma {:induction false} AgreeShort(slots: seq<Slot>, pos: nat, a: Acc, b: Acc)
    requires Agree(slots, pos, a, b) && pos < |slots|
    ensures SameEntry(slots, ShortEntry(a, slots[pos], pos), ShortEntry(b, slots[pos], pos))
  {
    hide ReadUnits;
    hide FromFatName;
    hide Checksum;
    var ea := ShortEntry(a, slots[pos], pos);
    if Usable(a.run, slots[pos]) && NameOnDisk(slots, ea) {
      forall ord | 1 <= ord <= a.run.highest
        ensures SamePart(a.chars, b.chars, ord)
      {
        assert HasPart(slots, ea.runStart, ea.pos, ord);
      }
      AllParts(a.chars, b.chars, a.run.highest);
    }
  }

  lemma {:induction false} AgreeStep(slots: seq<Slot>, pos: nat, a: Acc, b: Acc)
    requires Agree(slots, pos, a, b) && pos < |slots| && !IsEnd(slots[pos])
    ensures var x, y := Step(a, slots[pos], pos), Step(b, slots[pos], pos);
            || (x.More? && y.More? && Agree(slots, pos + 1, x.acc, y.acc))
            || (x.Found? && y.Found? && SameEntry(slots, x.entry, y.entry))
  {
    hide Store;
    hide Units;
    hide ShortEntry;
    hide SameEntry;
    if !IsFree(slots[pos]) {
      if IsLfn(slots[pos]) {
        AgreeLfn(slots, pos, a, b);
      } else {
        AgreeShort(slots, pos, a, b);
      }
    }
  }

  /** What the scanner has in store besides the current run, and the stack, matter only to names that are not on the disk. */
  lemma {:induction false} ScanAgree(slots: seq<Slot>, pos: nat, a: Acc, b: Acc, ja: Junk, jb: Junk)
    requires Agree(slots, pos, a, b)
    ensures SameEntries(slots, Scan(slots, pos, a, ja), Scan(slots, pos, b, jb))
    decreases |slots| - pos
  {
    hide Step;
    hide SameEntry;
    if pos < |slots| {
      EndOnlyAtEnd(a, slots[pos], pos);
      EndOnlyAtEnd(b, slots[pos], pos);
      if !IsEnd(slots[pos]) {
        AgreeStep(slots, pos, a, b);
        var x, y := Step(a, slots[pos], pos), Step(b, slots[pos], pos);
        if x.More? {
          ScanAgree(slots, pos + 1, x.acc, y.acc, ja, jb);
        } else {
          ScanAgree(slots, pos + 1, Start(ja), Start(jb), ja, jb);
        }
      }
    }
  }

  lemma {:induction false} ShapeStep(acc: Acc, s: Slot, pos: nat)
    requires ShapeOk(acc, pos)
    ensures Step(acc, s, pos).More? ==> ShapeOk(Step(acc, s, pos).acc, pos + 1)
    ensures Step(acc, s, pos).Found? ==>
              var e := Step(acc, s, pos).entry; e.pos == pos && e.dirent == s && 1 <= e.runSlots && e.runStart + e.runSlots == pos + 1
  {
    hide ReadUnits;
    hide FromFatName;
    hide Store;
    hide Units;
  }

  lemma {:induction false} ScanShape(slots: seq<Slot>, pos: nat, acc: Acc, junk: Junk)
    requires pos <= |slots| && ShapeOk(acc, pos)
    ensures forall e :: e in Scan(slots, pos, acc, junk) ==> EntryOk(slots, e) && pos <= e.pos && e.dirent == slots[e.pos]
    decreases |slots| - pos
  {
    hide Step;
    if pos < |slots| {
      ShapeStep(acc, slots[pos], pos);
      match Step(acc, slots[pos], pos)
      case End =>
      case More(a) => ScanShape(slots, pos + 1, a, junk);
      case Found(_) => ScanShape(slots, pos + 1, Start(junk), junk);
    }
  }

  /** Names that are on the disk do not depend on the stack, nor does anything else in a listing. */
  lemma {:induction false} ListingOfDisk(slots: seq<Slot>, ja: Junk, jb: Junk)
    ensures SameEntries(slots, Listing(slots, ja), Listing(slots, jb))
  {
    ScanAgree(slots, 0, Start(ja), Start(jb), ja, jb);
  }

  // ---------------------------------------------------------------- well-formed directories

  /**
   Every long-name run that starts is complete and belongs to the entry that follows
   it, and nothing follows the end marker. Slots that start no run may be anything.
   */
  predicate Tidy(slots: seq<Slot>, pos: nat, run: Run)
    requires pos <= |slots|
    decreases |slots| - pos
  {
    if pos == |slots| then run.Idle?
    else
      var s := slots[pos];
      if IsEnd(s) then run.Idle? && forall j :: pos <= j < |slots| ==> IsEnd(slots[j])
      else if run.Open? then
        if IsDeleted(s) then false
        else if IsLfn(s) then 1 <= Order(s) <= LFN_MAX_SLOTS && s[13] == run.sum && Tidy(slots, pos + 1, run.(seen := run.seen + 1))
        else !IsVolumeId(s) && Usable(run, s) && Tidy(slots, pos + 1, Idle)
      else if !IsDeleted(s) && IsLfn(s) && 1 <= Order(s) <= LFN_MAX_SLOTS && IsLast(s) then
        Tidy(slots, pos + 1, Open(pos, Order(s), 1, s[13]))
      else Tidy(slots, pos + 1, Idle)
  }

  predicate NoEnd(slots: seq<Slot>, from: nat, to: nat)
    requires from <= to <= |slots|
  {
    forall i :: from <= i < to ==> !IsEnd(slots[i])
  }

  datatype Part = Part(entries: seq<Entry>, acc: Acc)

  /** The entries found before slot `to`, and the state the scanner is in there. */
  function ScanTo(slots: seq<Slot>, pos: nat, to: nat, acc: Acc, junk: Junk): (p: Part)
    requires AccOk(acc) && pos <= to <= |slots| && NoEnd(slots, pos, to)
    ensures AccOk(p.acc)
    decreases |slots| - pos
  {
    if pos == to then Part([], acc)
    else
      match Step(acc, slots[pos], pos)
      case End => Part([], acc)
      case More(a) => ScanTo(slots, pos + 1, to, a, junk)
      case Found(e) =>
        var rest := ScanTo(slots, pos + 1, to, Start(junk), junk);
        Part([e] + rest.entries, rest.acc)
  }

  lemma {:induction false} EndOnlyAtEnd(acc: Acc, s: Slot, pos: nat)
    requires AccOk(acc)
    ensures Step(acc, s, pos).End? <==> IsEnd(s)
  {
  }

  lemma {:induction false} ScanSplit(slots: seq<Slot>, pos: nat, to: nat, acc: Acc, junk: Junk)
    requires AccOk(acc) && pos <= to <= |slots| && NoEnd(slots, pos, to)
    ensures Scan(slots, pos, acc, junk)
         == ScanTo(slots, pos, to, acc, junk).entries + Scan(slots, to, ScanTo(slots, pos, to, acc, junk).acc, junk)
    decreases |slots| - pos
  {
    hide Step;
    if pos < to {
      var st := Step(acc, slots[pos], pos);
      EndOnlyAtEnd(acc, slots[pos], pos);
      if st.More? {
        ScanSplit(slots, pos + 1, to, st.acc, junk);
      } else {
        ScanSplit(slots, pos + 1, to, Start(junk), junk);
        var a := ScanTo(slots, pos + 1, to, Start(junk), junk);
        assert [st.entry] + (a.entries + Scan(slots, to, a.acc, junk)) == [st.entry] + a.entries + Scan(slots, to, a.acc, junk);
      }
    }
  }

  lemma {:induction false} ScanToShape(slots: seq<Slot>, pos: nat, to: nat, acc: Acc, junk: Junk)
    requires pos <= to <= |slots| && NoEnd(slots, pos, to) && ShapeOk(acc, pos)
    ensures ShapeOk(ScanTo(slots, pos, to, acc, junk).acc, to)
    ensures forall e :: e in ScanTo(slots, pos, to, acc, junk).entries ==> EntryOk(slots, e) && pos <= e.pos < to
    decreases |slots| - pos
  {
    hide Step;
    if pos < to {
      ShapeStep(acc, slots[pos], pos);
      EndOnlyAtEnd(acc, slots[pos], pos);
      match Step(acc, slots[pos], pos)
      case End =>
      case More(a) => ScanToShape(slots, pos + 1, to, a, junk);
      case Found(_) => ScanToShape(slots, pos + 1, to, Start(junk), junk);
    }
  }

  /** The scan up to `to` looks at no slot from `to` on. */
  lemma {:induction false} ScanToFrame(a: seq<Slot>, b: seq<Slot>, pos: nat, to: nat, acc: Acc, junk: Junk)
    requires AccOk(acc) && pos <= to <= |a| && to <= |b| && NoEnd(a, pos, to)
    requires forall i :: pos <= i < to ==> a[i] == b[i]
    ensures NoEnd(b, pos, to) && ScanTo(a, pos, to, acc, junk) == ScanTo(b, pos, to, acc, junk)
    decreases |a| - pos
  {
    if pos < to {
      match Step(acc, a[pos], pos)
      case End =>
      case More(x) => ScanToFrame(a, b, pos + 1, to, x, junk);
      case Found(_) => ScanToFrame(a, b, pos + 1, to, Start(junk), junk);
    }
  }

  /** The scan from `pos` on looks at no slot before it. */
  lemma {:induction false} ScanFromFrame(a: seq<Slot>, b: seq<Slot>, pos: nat, acc: Acc, junk: Junk)
    requires AccOk(acc) && pos <= |a| && |a| == |b| && forall i :: pos <= i < |a| ==> a[i] == b[i]
    ensures Scan(a, pos, acc, junk) == Scan(b, pos, acc, junk)
    decreases |a| - pos
  {
    if pos < |a| {
      match Step(acc, a[pos], pos)
      case End =>
      case More(x) => ScanFromFrame(a, b, pos + 1, x, junk);
      case Found(_) => ScanFromFrame(a, b, pos + 1, Start(junk), junk);
    }
  }

  /** Nor, past an end marker, at anything. */
  lemma {:induction false} ScanStops(a: seq<Slot>, b: seq<Slot>, pos: nat, end: nat, acc: Acc, junk: Junk)
    requires AccOk(acc) && pos <= end < |a| && end < |b| && IsEnd(a[end]) && forall i :: pos <= i <= end ==> a[i] == b[i]
    ensures Scan(a, pos, acc, junk) == Scan(b, pos, acc, junk)
    decreases end - pos
  {
    if pos < end {
      match Step(acc, a[pos], pos)
      case End =>
      case More(x) => ScanStops(a, b, pos + 1, end, x, junk);
      case Found(_) => ScanStops(a, b, pos + 1, end, Start(junk), junk);
    }
  }

  lemma {:induction false} TidyFromFrame(a: seq<Slot>, b: seq<Slot>, pos: nat, run: Run)
    requires pos <= |a| && |a| == |b| && (forall i :: pos <= i < |a| ==> a[i] == b[i]) && Tidy(a, pos, run)
    ensures Tidy(b, pos, run)
    decreases |a| - pos
  {
    if pos < |a| && !IsEnd(a[pos]) {
      TidyFromFrame(a, b, pos + 1, NextRun(run, a[pos], pos));
    }
  }

  /** How a slot that is not the end marker moves the run, in a tidy directory. */
  function NextRun(run: Run, s: Slot, pos: nat): Run {
    if !IsDeleted(s) && IsLfn(s) then
      if run.Open? then run.(seen := run.seen + 1)
      else if 1 <= Order(s) <= LFN_MAX_SLOTS && IsLast(s) then Open(pos, Order(s), 1, s[13])
      else Idle
    else Idle
  }

  /** Between runs, the scanner is back in its starting state. */
  predicate InStep(acc: Acc, run: Run, junk: Junk) {
    AccOk(acc) && acc.run == run && (run.Idle? ==> acc == Start(junk))
  }

  lemma {:induction false} TidyStep(slots: seq<Slot>, pos: nat, acc: Acc, run: Run, junk: Junk)
    requires pos < |slots| && Tidy(slots, pos, run) && InStep(acc, run, junk) && !IsEnd(slots[pos])
    ensures Tidy(slots, pos + 1, NextRun(run, slots[pos], pos))
    ensures !Step(acc, slots[pos], pos).End?
    ensures Step(acc, slots[pos], pos).More? ==> InStep(Step(acc, slots[pos], pos).acc, NextRun(run, slots[pos], pos), junk)
    ensures Step(acc, slots[pos], pos).Found? ==> NextRun(run, slots[pos], pos).Idle?
  {
  }

  /** A tidy directory is tidy at every slot the scanner reaches. */
  lemma {:induction false} TidyAt(slots: seq<Slot>, pos: nat, to: nat, acc: Acc, run: Run, junk: Junk)
    requires pos <= to <= |slots| && Tidy(slots, pos, run) && InStep(acc, run, junk) && NoEnd(slots, pos, to)
    ensures Tidy(slots, to, ScanTo(slots, pos, to, acc, junk).acc.run)
    ensures InStep(ScanTo(slots, pos, to, acc, junk).acc, ScanTo(slots, pos, to, acc, junk).acc.run, junk)
    decreases |slots| - pos
  {
    if pos < to {
      TidyStep(slots, pos, acc, run, junk);
      var next := NextRun(run, slots[pos], pos);
      match Step(acc, slots[pos], pos)
      case End =>
      case More(a) => TidyAt(slots, pos + 1, to, a, next, junk);
      case Found(_) => TidyAt(slots, pos + 1, to, Start(junk), next, junk);
    }
  }

  /** If the parts before and from `to` are tidy, and meet between runs, the whole is. */
  lemma {:induction false} TidyJoin(a: seq<Slot>, b: seq<Slot>, pos: nat, to: nat, acc: Acc, run: Run, junk: Junk)
    requires pos <= to <= |a| && |a| == |b| && (forall i :: pos <= i < to ==> a[i] == b[i])
    requires Tidy(a, pos, run) && InStep(acc, run, junk) && NoEnd(a, pos, to)
    requires Tidy(b, to, ScanTo(a, pos, to, acc, junk).acc.run)
    ensures Tidy(b, pos, run)
    decreases |a| - pos
  {
    if pos < to {
      TidyStep(a, pos, acc, run, junk);
      var next := NextRun(run, a[pos], pos);
      match Step(acc, a[pos], pos)
      case End =>
      case More(x) => TidyJoin(a, b, pos + 1, to, x, next, junk);
      case Found(_) => TidyJoin(a, b, pos + 1, to, Start(junk), next, junk);
    } else {
      assert acc.run == run;
    }
  }

  lemma {:induction false} EndOnly(slots: seq<Slot>, p: nat, junk: Junk)
    requires p <= |slots| && forall i :: p <= i < |slots| ==> IsEnd(slots[i])
    ensures Tidy(slots, p, Idle) && Scan(slots, p, Start(junk), junk) == []
  {
  }

  /** Free slots between runs leave the scanner between runs; behind an end marker there is nothing. */
  lemma {:induction false} FreeStretch(slots: seq<Slot>, p: nat, n: nat, junk: Junk)
    requires p + n <= |slots| && Tidy(slots, p, Idle) && forall i :: p <= i < p + n ==> IsFree(slots[i])
    ensures Tidy(slots, p + n, Idle)
    ensures (exists i :: p <= i < p + n && IsEnd(slots[i])) ==> Scan(slots, p + n, Start(junk), junk) == []
    decreases n
  {
    hide Scan;
    if n > 0 {
      if IsEnd(slots[p]) {
        EndOnly(slots, p + n, junk);
      } else {
        FreeStretch(slots, p + 1, n - 1, junk);
      }
    }
  }

  /** A stretch of slots that a run of `n` can replace, or that a run of `n` used to fill. */
  lemma {:induction false} Between(slots: seq<Slot>, p: nat, junk: Junk)
    requires p <= |slots| && Tidy(slots, 0, Idle) && NoEnd(slots, 0, p)
    ensures var part := ScanTo(slots, 0, p, Start(junk), junk);
            && Tidy(slots, p, part.acc.run)
            && (p < |slots| && IsFree(slots[p]) ==> part.acc == Start(junk))
            && (p == |slots| ==> part.acc == Start(junk))
  {
    TidyAt(slots, 0, p, Start(junk), Idle, junk);
  }
}
