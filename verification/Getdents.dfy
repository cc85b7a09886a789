/**
 Directory listing: the kernel packs entries into variable-length records, and the
 C library walks them by their lengths, fetching another buffer when it runs out.
 The directory does not change meanwhile.
 */
module Getdents {

  const HEADER: nat := 19
  const NAME_LIMIT: nat := 255
  const BUFFER: nat := 512

  type byte = x: int | 0 <= x < 256

  datatype Entry = Entry(ino: nat, kind: byte, name: seq<byte>)

  predicate EntryOk(e: Entry) {
    e.ino < 0x1_0000_0000_0000_0000 && |e.name| <= NAME_LIMIT && forall i :: 0 <= i < |e.name| ==> e.name[i] != 0
  }

  predicate DirOk(dir: seq<Entry>) {
    |dir| < 0x8000_0000_0000_0000 && forall i :: 0 <= i < |dir| ==> EntryOk(dir[i])
  }

  // ---------------------------------------------------------------- little-endian fields

  function Le(x: nat, n: nat): (r: seq<byte>)
    ensures |r| == n
  {
    if n == 0 then [] else [(x % 256) as byte] + Le(x / 256, n - 1)
  }

  function UnLe(b: seq<byte>): nat {
    if b == [] then 0 else b[0] + 256 * UnLe(b[1..])
  }

  function Pow256(n: nat): nat { if n == 0 then 1 else 256 * Pow256(n - 1) }

  lemma {:induction false} UnLeLe(x: nat, n: nat)
    requires x < Pow256(n)
    ensures UnLe(Le(x, n)) == x
  {
    if n > 0 {
      UnLeLe(x / 256, n - 1);
      assert Le(x, n)[1..] == Le(x / 256, n - 1);
    }
  }

  lemma {:induction false} Widths()
    ensures Pow256(2) == 0x1_0000 && Pow256(8) == 0x1_0000_0000_0000_0000
  {
    assert Pow256(1) == 256 && Pow256(2) == 0x1_0000 && Pow256(3) == 0x100_0000;
    assert Pow256(4) == 0x1_0000_0000 && Pow256(5) == 0x100_0000_0000;
    assert Pow256(6) == 0x1_0000_0000_0000 && Pow256(7) == 0x100_0000_0000_0000;
  }

  // ---------------------------------------------------------------- one record

  /** Header, name and NUL, rounded up to a multiple of 8. */
  function Reclen(n: nat): (r: nat)
    ensures HEADER + n + 1 <= r <= HEADER + n + 8 && r % 8 == 0
  {
    (HEADER + n + 1 + 7) / 8 * 8
  }

  function Zeros(n: nat): seq<byte> { seq<byte>(n, _ => 0) }

  function Head(e: Entry, off: nat): (r: seq<byte>)
    ensures |r| == HEADER
  {
    Le(e.ino, 8) + Le(off, 8) + Le(Reclen(|e.name|), 2) + [e.kind]
  }

  function Encode(e: Entry, off: nat): (r: seq<byte>)
    ensures |r| == Reclen(|e.name|)
  {
    Head(e, off) + e.name + Zeros(Reclen(|e.name|) - HEADER - |e.name|)
  }

  /** The bytes before the first NUL. */
  function UntilNul(b: seq<byte>): seq<byte> {
    if b == [] || b[0] == 0 then [] else [b[0]] + UntilNul(b[1..])
  }

  /** The record length a reader finds at the front of a buffer. */
  function LengthAt(b: seq<byte>): nat
    requires |b| >= HEADER
  {
    UnLe(b[16..18])
  }

  /** The position a reader would seek to for the entry after this one. */
  function OffsetAt(b: seq<byte>): nat
    requires |b| >= HEADER
  {
    UnLe(b[8..16])
  }

  function Decode(b: seq<byte>): Entry
    requires |b| >= HEADER
  {
    Entry(UnLe(b[..8]), b[18], UntilNul(b[HEADER..]))
  }

  lemma {:induction false} UntilNulOf(name: seq<byte>, rest: seq<byte>)
    requires (forall i :: 0 <= i < |name| ==> name[i] != 0) && rest != [] && rest[0] == 0
    ensures UntilNul(name + rest) == name
  {
    if name == [] {
      assert name + rest == rest;
    } else {
      assert (name + rest)[1..] == name[1..] + rest;
      UntilNulOf(name[1..], rest);
    }
  }

  lemma {:induction false} HeadFields(e: Entry, off: nat, tail: seq<byte>)
    ensures var b := Head(e, off) + tail;
            && b[..8] == Le(e.ino, 8) && b[8..16] == Le(off, 8) && b[16..18] == Le(Reclen(|e.name|), 2)
            && b[18] == e.kind && b[HEADER..] == tail
  {
  }

  /** A record reads back as the entry and position it was made from, whatever follows it. */
  lemma {:induction false} RecordRoundTrip(e: Entry, off: nat, more: seq<byte>)
    requires EntryOk(e) && off < 0x1_0000_0000_0000_0000
    ensures OffsetAt(Encode(e, off) + more) == off
    ensures LengthAt(Encode(e, off) + more) == Reclen(|e.name|) && Decode(Encode(e, off) + more) == e
  {
    var pad := Zeros(Reclen(|e.name|) - HEADER - |e.name|);
    var tail := e.name + (pad + more);
    assert Encode(e, off) + more == Head(e, off) + tail;
    HeadFields(e, off, tail);
    Widths();
    UnLeLe(e.ino, 8);
    UnLeLe(off, 8);
    UnLeLe(Reclen(|e.name|), 2);
    assert pad[0] == 0 && (pad + more)[0] == 0;
    UntilNulOf(e.name, pad + more);
  }

  // ---------------------------------------------------------------- a buffer of records

  /** How far a call gets: the first entry that no longer fits, or the end. */
  function Reach(dir: seq<Entry>, pos: nat, room: nat): (end: nat)
    requires pos <= |dir|
    ensures pos <= end <= |dir|
    decreases |dir| - pos
  {
    if pos == |dir| || Reclen(|dir[pos].name|) > room then pos
    else Reach(dir, pos + 1, room - Reclen(|dir[pos].name|))
  }

  /** The records of entries `pos` to `end`, each carrying the position after it. */
  function Pack(dir: seq<Entry>, pos: nat, end: nat): seq<byte>
    requires pos <= end <= |dir|
    decreases end - pos
  {
    if pos == end then [] else Encode(dir[pos], pos + 1) + Pack(dir, pos + 1, end)
  }

  /** What a reader gets by stepping from record to record. */
  function Parse(b: seq<byte>): seq<Entry>
    decreases |b|
  {
    if |b| < HEADER || LengthAt(b) == 0 || LengthAt(b) > |b| then []
    else [Decode(b)] + Parse(b[LengthAt(b)..])
  }

  lemma {:induction false} ParsePack(dir: seq<Entry>, pos: nat, end: nat)
    requires DirOk(dir) && pos <= end <= |dir|
    ensures Parse(Pack(dir, pos, end)) == dir[pos..end]
    decreases end - pos
  {
    if pos < end {
      var e, more := dir[pos], Pack(dir, pos + 1, end);
      RecordRoundTrip(e, pos + 1, more);
      assert (Encode(e, pos + 1) + more)[Reclen(|e.name|)..] == more;
      ParsePack(dir, pos + 1, end);
    }
  }

  lemma {:induction false} PackFits(dir: seq<Entry>, pos: nat, room: nat)
    requires pos <= |dir|
    ensures |Pack(dir, pos, Reach(dir, pos, room))| <= room
    decreases |dir| - pos
  {
    if pos < |dir| && Reclen(|dir[pos].name|) <= room {
      PackFits(dir, pos + 1, room - Reclen(|dir[pos].name|));
    }
  }

  lemma {:induction false} PackJoin(dir: seq<Entry>, pos: nat, mid: nat)
    requires pos <= mid < |dir|
    ensures Pack(dir, pos, mid + 1) == Pack(dir, pos, mid) + Encode(dir[mid], mid + 1)
    decreases mid - pos
  {
    if pos < mid {
      PackJoin(dir, pos + 1, mid);
      assert Encode(dir[pos], pos + 1) + (Pack(dir, pos + 1, mid) + Encode(dir[mid], mid + 1))
          == Encode(dir[pos], pos + 1) + Pack(dir, pos + 1, mid) + Encode(dir[mid], mid + 1);
    } else {
      assert Pack(dir, pos, mid) == [] && Pack(dir, pos + 1, mid + 1) == [];
    }
  }

  /** Whether the next record fits at all; the call fails exactly when it does not. */
  predicate FirstFits(dir: seq<Entry>, pos: nat, room: nat) {
    pos < |dir| ==> Reclen(|dir[pos].name|) <= room
  }

  // ---------------------------------------------------------------- a whole listing

  /** Position after a series of calls with these buffer sizes. */
  function After(dir: seq<Entry>, pos: nat, rooms: seq<nat>): (end: nat)
    requires pos <= |dir|
    ensures pos <= end <= |dir|
    decreases |rooms|
  {
    if rooms == [] then pos else After(dir, Reach(dir, pos, rooms[0]), rooms[1..])
  }

  /** What a reader of all those buffers gets. */
  function Listed(dir: seq<Entry>, pos: nat, rooms: seq<nat>): seq<Entry>
    requires pos <= |dir|
    decreases |rooms|
  {
    if rooms == [] then []
    else
      var end := Reach(dir, pos, rooms[0]);
      Parse(Pack(dir, pos, end)) + Listed(dir, end, rooms[1..])
  }

  /** Whatever the buffer sizes, reading on yields every entry once, in order, up to where the calls got. */
  lemma {:induction false} ListingInOrder(dir: seq<Entry>, pos: nat, rooms: seq<nat>)
    requires DirOk(dir) && pos <= |dir|
    ensures Listed(dir, pos, rooms) == dir[pos..After(dir, pos, rooms)]
    decreases |rooms|
  {
    if rooms != [] {
      var mid, end := Reach(dir, pos, rooms[0]), After(dir, pos, rooms);
      ParsePack(dir, pos, mid);
      ListingInOrder(dir, mid, rooms[1..]);
      SliceJoin(dir, pos, mid, end);
    }
  }

  lemma {:induction false} SliceJoin(dir: seq<Entry>, a: nat, b: nat, c: nat)
    requires a <= b <= c <= |dir|
    ensures dir[a..b] + dir[b..c] == dir[a..c]
  {
  }

  /** A call whose buffer takes the next record makes progress, so enough such calls list the whole directory. */
  lemma {:induction false} ListingComplete(dir: seq<Entry>, pos: nat, rooms: seq<nat>)
    requires DirOk(dir) && pos <= |dir| && |rooms| >= |dir| - pos
    requires forall i, j :: 0 <= i < |rooms| && 0 <= j < |dir| ==> Reclen(|dir[j].name|) <= rooms[i]
    ensures Listed(dir, pos, rooms) == dir[pos..]
  {
    ListingInOrder(dir, pos, rooms);
    GetsThere(dir, pos, rooms);
  }

  lemma {:induction false} GetsThere(dir: seq<Entry>, pos: nat, rooms: seq<nat>)
    requires pos <= |dir| && |rooms| >= |dir| - pos
    requires forall i, j :: 0 <= i < |rooms| && 0 <= j < |dir| ==> Reclen(|dir[j].name|) <= rooms[i]
    ensures After(dir, pos, rooms) == |dir|
    decreases |rooms|
  {
    if rooms != [] {
      assert pos < |dir| ==> Reclen(|dir[pos].name|) <= rooms[0];
      GetsThere(dir, Reach(dir, pos, rooms[0]), rooms[1..]);
    }
  }

  // ---------------------------------------------------------------- the code

  /** Store a little-endian field and touch nothing else. */
  method StoreLe(out: array<byte>, at: nat, x: nat, n: nat)
    requires at + n <= out.Length
    modifies out
    ensures out[at..at + n] == Le(x, n)
    ensures forall i :: 0 <= i < out.Length && !(at <= i < at + n) ==> out[i] == old(out[i])
    decreases n
  {
    if n > 0 {
      out[at] := (x % 256) as byte;
      StoreLe(out, at + 1, x / 256, n - 1);
      assert out[at..at + n] == [out[at]] + out[at + 1..at + n];
    }
  }

  /** Write one record at `at`: the fields, the name, and zeros to the end. */
  method PutRecord(out: array<byte>, at: nat, e: Entry, off: nat)
    requires at + Reclen(|e.name|) <= out.Length
    modifies out
    ensures out[at..at + Reclen(|e.name|)] == Encode(e, off)
    ensures forall i :: 0 <= i < out.Length && !(at <= i < at + Reclen(|e.name|)) ==> out[i] == old(out[i])
  {
    PutHead(out, at, e, off);
    PutName(out, at + HEADER, e.name, Reclen(|e.name|) - HEADER);
    var end := at + Reclen(|e.name|);
    assert out[at..end] == out[at..at + HEADER] + out[at + HEADER..end];
    assert Encode(e, off) == Head(e, off) + (e.name + Zeros(Reclen(|e.name|) - HEADER - |e.name|));
  }

  method PutHead(out: array<byte>, at: nat, e: Entry, off: nat)
    requires at + HEADER <= out.Length
    modifies out
    ensures out[at..at + HEADER] == Head(e, off)
    ensures forall i :: 0 <= i < out.Length && !(at <= i < at + HEADER) ==> out[i] == old(out[i])
  {
    StoreLe(out, at, e.ino, 8);
    StoreLe(out, at + 8, off, 8);
    assert out[at..at + 8] == Le(e.ino, 8);
    StoreLe(out, at + 16, Reclen(|e.name|), 2);
    out[at + 18] := e.kind;
    assert out[at..at + 8] == Le(e.ino, 8) && out[at + 8..at + 16] == Le(off, 8) && out[at + 16..at + 18] == Le(Reclen(|e.name|), 2);
    assert out[at..at + HEADER] == out[at..at + 8] + out[at + 8..at + 16] + out[at + 16..at + 18] + [out[at + 18]];
  }

  method PutName(out: array<byte>, at: nat, name: seq<byte>, room: nat)
    requires |name| <= room && at + room <= out.Length
    modifies out
    ensures out[at..at + room] == name + Zeros(room - |name|)
    ensures forall i :: 0 <= i < out.Length && !(at <= i < at + room) ==> out[i] == old(out[i])
  {
    var i: nat := 0;
    while i < |name|
      invariant i <= |name| && out[at..at + i] == name[..i]
      invariant forall k :: 0 <= k < out.Length && !(at <= k < at + room) ==> out[k] == old(out[k])
    {
      ghost var done := out[at..at + i];
      out[at + i] := name[i];
      i := i + 1;
      assert out[at..at + i] == done + [name[i - 1]];
    }
    assert name[..|name|] + Zeros(0) == name;
    while i < room
      invariant |name| <= i <= room && out[at..at + i] == name + Zeros(i - |name|)
      invariant forall k :: 0 <= k < out.Length && !(at <= k < at + room) ==> out[k] == old(out[k])
    {
      ghost var done := out[at..at + i];
      out[at + i] := 0;
      i := i + 1;
      assert out[at..at + i] == done + [0];
      assert Zeros(i - |name|) == Zeros(i - 1 - |name|) + [0];
    }
  }

  datatype Reply = Bytes(n: nat) | EINVAL

  /** An open directory: the driver's entries and the descriptor's position in them. */
  class OpenDir {
    const dir: seq<Entry>
    var position: nat

    ghost predicate Valid()
      reads this
    {
      DirOk(dir) && position <= |dir|
    }

    constructor (dir: seq<Entry>)
      requires DirOk(dir)
      ensures Valid() && this.dir == dir && position == 0
    {
      this.dir, position := dir, 0;
    }

    /** Fill `out` with as many whole records as fit in `bytes`, and move on past them. */
    method Getdents(out: array<byte>, bytes: int) returns (r: Reply)
      requires Valid() && bytes <= out.Length
      modifies this, out
      ensures Valid()
      ensures r.EINVAL? <==> bytes < 0 || !FirstFits(dir, old(position), bytes)
      ensures r.EINVAL? ==> position == old(position)
      ensures r.Bytes? ==> position == Reach(dir, old(position), bytes) && r.n <= bytes && out[..r.n] == Pack(dir, old(position), position)
    {
      if bytes < 0 {
        return EINVAL;
      }
      ghost var start := position;
      var written: nat := 0;
      assert out[..0] == Pack(dir, start, start);
      while position < |dir| && Reclen(|dir[position].name|) <= bytes - written
        invariant Valid() && start <= position && written <= bytes
        invariant out[..written] == Pack(dir, start, position)
        invariant Reach(dir, start, bytes) == Reach(dir, position, bytes - written)
        invariant position == start <==> written == 0
        decreases |dir| - position
      {
        written := PutNext(out, written, start);
      }
      if written == 0 && position < |dir| {
        return EINVAL;
      }
      r := Bytes(written);
    }

    /** Add the record of the entry at the position, and move on to the next. */
    method PutNext(out: array<byte>, written: nat, ghost start: nat) returns (w: nat)
      requires Valid() && start <= position < |dir| && written + Reclen(|dir[position].name|) <= out.Length
      requires out[..written] == Pack(dir, start, position)
      modifies this, out
      ensures Valid() && position == old(position) + 1 && w == written + Reclen(|dir[old(position)].name|)
      ensures out[..w] == Pack(dir, start, position)
    {
      var e := dir[position];
      ghost var done := out[..written];
      w := written + Reclen(|e.name|);
      PackJoin(dir, start, position);
      PutRecord(out, written, e, position + 1);
      assert out[..written] == done;
      assert out[..w] == done + out[written..w];
      position := position + 1;
    }
  }

  datatype Option = None | Some(e: Entry)

  lemma {:induction false} RecordsFit(dir: seq<Entry>, pos: nat)
    requires DirOk(dir) && pos <= |dir|
    ensures FirstFits(dir, pos, BUFFER)
  {
  }

  lemma {:induction false} PackEmpty(dir: seq<Entry>, a: nat, b: nat)
    requires a <= b <= |dir|
    ensures Pack(dir, a, b) == [] <==> a == b
  {
  }

  /** The front record of a packed buffer, and what is left behind it. */
  lemma {:induction false} FrontRecord(dir: seq<Entry>, a: nat, b: nat)
    requires DirOk(dir) && a < b <= |dir|
    ensures var p := Pack(dir, a, b);
            && |p| >= HEADER && Decode(p) == dir[a] && OffsetAt(p) == a + 1
            && 0 < LengthAt(p) <= |p| && p[LengthAt(p)..] == Pack(dir, a + 1, b)
  {
    var more := Pack(dir, a + 1, b);
    RecordRoundTrip(dir[a], a + 1, more);
  }

  /** The C library's stream over an open directory; `handed` counts the entries returned so far. */
  class Stream {
    const fd: OpenDir
    const buf: array<byte>
    var valid: nat
    var next: nat
    var atEnd: bool
    ghost var handed: nat

    /** What is left in the buffer is exactly the entries between those returned and those still with the kernel. */
    ghost predicate Valid()
      reads this, fd, buf
    {
      && fd.Valid() && buf.Length == BUFFER && next <= valid <= BUFFER
      && handed <= fd.position && buf[next..valid] == Pack(fd.dir, handed, fd.position)
      && (atEnd ==> fd.position == |fd.dir|)
    }

    /** opendir: the first buffer is fetched at once. */
    constructor (fd: OpenDir)
      requires fd.Valid() && fd.position == 0
      modifies fd
      ensures Valid() && this.fd == fd && handed == 0
    {
      this.fd := fd;
      buf := new byte[BUFFER](_ => 0);
      valid, next, atEnd, handed := 0, 0, false, 0;
      new;
      RecordsFit(fd.dir, 0);
      var r := fd.Getdents(buf, BUFFER);
      valid := r.n;
      atEnd := r.n == 0;
      PackEmpty(fd.dir, 0, fd.position);
      assert buf[0..valid] == buf[..valid];
      assert atEnd ==> fd.position == |fd.dir|;
    }

    /** Fetch another buffer once the last one is used up. */
    method Refill()
      requires Valid() && next >= valid && !atEnd
      modifies this, fd, buf
      ensures Valid() && handed == old(handed)
      ensures handed == |fd.dir| <==> atEnd
      ensures handed < |fd.dir| ==> next < valid
    {
      PackEmpty(fd.dir, handed, fd.position);
      RecordsFit(fd.dir, fd.position);
      var r := fd.Getdents(buf, BUFFER);
      PackEmpty(fd.dir, handed, fd.position);
      if r.n == 0 {
        atEnd := true;
        next := valid;
        return;
      }
      valid, next := r.n, 0;
      assert buf[0..valid] == buf[..valid];
    }

    /** Return the next entry of the directory, each once and in order, and nothing after the last. */
    method Readdir() returns (r: Option)
      requires Valid()
      modifies this, fd, buf
      ensures Valid()
      ensures old(handed) == |fd.dir| ==> r == None && handed == old(handed)
      ensures old(handed) < |fd.dir| ==> r == Some(fd.dir[old(handed)]) && handed == old(handed) + 1
    {
      PackEmpty(fd.dir, handed, fd.position);
      if next >= valid {
        if atEnd {
          return None;
        }
        Refill();
        if atEnd {
          return None;
        }
      }
      r := TakeRecord();
    }

    /** Hand back the record at the front and step over it by its length. */
    method TakeRecord() returns (r: Option)
      requires Valid() && next < valid
      modifies this
      ensures Valid() && old(handed) < |fd.dir| && r == Some(fd.dir[old(handed)]) && handed == old(handed) + 1
    {
      hide Pack;
      hide Decode;
      hide LengthAt;
      hide OffsetAt;
      ghost var p := buf[next..valid];
      PackEmpty(fd.dir, handed, fd.position);
      FrontRecord(fd.dir, handed, fd.position);
      r := Some(Decode(buf[next..valid]));
      var len := LengthAt(buf[next..valid]);
      assert buf[next + len..valid] == p[len..];
      next := next + len;
      handed := handed + 1;
    }
  }
}
