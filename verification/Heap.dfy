/**
 The kernel heap: power-of-two size classes carved out of single frames, and
 larger blocks taken whole from the frame allocator. An address is a frame and an
 offset into it, which is how `kfree` finds the page. `State` is the heap as a
 value, with the addresses handed out and the sizes asked for; `Heap` is the code.
 */
module HeapModel {
  import opened Lists

  const FRAME: nat := 4096
  const HEADER: nat := 64
  const CLASSES: nat := 8
  const MIN_SIZE: nat := 8          // a free slot holds its list link
  const WORD: nat := 0x1_0000_0000_0000_0000

  datatype Ptr = Ptr(frame: nat, offset: nat)

  function Address(p: Ptr): nat { p.frame * FRAME + p.offset }

  function Pow2(n: nat): (r: nat)
    ensures r >= 1
  {
    if n == 0 then 1 else 2 * Pow2(n - 1)
  }

  function ClassSize(c: nat): (r: nat)
    ensures r >= 16
  {
    if c == 0 then 16 else if c == 1 then 32 else if c == 2 then 64 else if c == 3 then 128
    else if c == 4 then 256 else if c == 5 then 512 else if c == 6 then 1024 else 2048
  }

  /** Slots in a page. */
  function SlotCount(c: nat): (n: nat)
    ensures n == (FRAME - HEADER) / ClassSize(c)
  {
    if c == 0 then 252 else if c == 1 then 126 else if c == 2 then 63 else if c == 3 then 31
    else if c == 4 then 15 else if c == 5 then 7 else if c == 6 then 3 else 1
  }

  /** Where the i-th slot starts. */
  function SlotOffset(c: nat, i: nat): nat {
    if i == 0 then HEADER else SlotOffset(c, i - 1) + ClassSize(c)
  }

  lemma {:induction false} SlotOffsetIs(c: nat, i: nat)
    ensures SlotOffset(c, i) == HEADER + i * ClassSize(c)
  {
    if i > 0 {
      SlotOffsetIs(c, i - 1);
      MulSucc(i - 1, ClassSize(c));
    }
  }

  /** `offset` is that of one of the slots of a page of class `c`. */
  predicate Slot(c: nat, offset: nat) { exists i :: 0 <= i < SlotCount(c) && offset == SlotOffset(c, i) }

  lemma {:induction false} MulLe(a: nat, b: nat, k: nat)
    requires a <= b
    ensures a * k <= b * k
  {
  }

  lemma {:induction false} MulSucc(a: nat, k: nat)
    ensures (a + 1) * k == a * k + k
  {
  }

  /** A slot lies inside its frame, clear of the header. */
  lemma {:induction false} SlotInside(c: nat, i: nat)
    requires i < SlotCount(c)
    ensures HEADER <= SlotOffset(c, i) && SlotOffset(c, i) + ClassSize(c) <= FRAME
  {
    SlotOffsetIs(c, i);
    MulLe(i + 1, SlotCount(c), ClassSize(c));
    MulSucc(i, ClassSize(c));
  }

  lemma {:induction false} SlotAligned(c: nat, i: nat)
    ensures SlotOffset(c, i) % 16 == 0
  {
    if i > 0 { SlotAligned(c, i - 1); }
  }

  lemma {:induction false} SlotsApart(c: nat, i: nat, j: nat)
    requires i < j
    ensures SlotOffset(c, i) + ClassSize(c) <= SlotOffset(c, j)
  {
    if i + 1 < j { SlotsApart(c, i, j - 1); }
  }

  // ---------------------------------------------------------------- large blocks

  /** Frames for a large block, in 64-bit arithmetic. */
  function FramesNeeded(size: nat): nat { (((size + HEADER) % WORD + FRAME - 1) % WORD) / FRAME }

  predicate IsOrder(frames: nat, order: nat) { Pow2(order) >= frames && (order > 0 ==> Pow2(order - 1) < frames) }

  /** The sizes for which the frame arithmetic does not wrap. */
  predicate NoWrap(size: nat) { size + HEADER + FRAME - 1 < WORD }

  /** The block is big enough exactly when the arithmetic did not wrap. */
  lemma {:induction false} LargeEnoughIff(size: nat, order: nat)
    requires 2048 < size < WORD && IsOrder(FramesNeeded(size), order)
    ensures FRAME * Pow2(order) >= size + HEADER <==> NoWrap(size)
  {
    if NoWrap(size) {
      assert FramesNeeded(size) == (size + HEADER + FRAME - 1) / FRAME;
      assert FRAME * FramesNeeded(size) >= size + HEADER;
      MulLe(FramesNeeded(size), Pow2(order), FRAME);
    } else {
      assert FramesNeeded(size) <= 1;
      assert order == 0;
      assert Pow2(0) == 1;
    }
  }

  // ---------------------------------------------------------------- the heap as a value

  datatype Page = Small(c: nat, free: seq<nat>, meta: nat) | Large(order: nat)

  /** Pages by frame; per class its pages; and each address handed out with the size asked for. */
  datatype State = State(pages: map<nat, Page>, lists: seq<seq<nat>>, live: map<Ptr, nat>)

  /** Frames a page occupies. */
  function Span(p: Page): nat { if p.Small? then 1 else Pow2(p.order) }

  predicate Apart(a: nat, n: nat, b: nat, m: nat) { a + n <= b || b + m <= a }

  /** A page's free list holds slots of that page, each once, and its count is right. */
  predicate PageOk(f: nat, p: Page) {
    && f > 0
    && (p.Small? ==> p.c < CLASSES && p.meta == |p.free| && Distinct(p.free)
                     && forall k :: 0 <= k < |p.free| ==> Slot(p.c, p.free[k]))
  }

  ghost predicate PagesOk(h: State) {
    && (forall f :: f in h.pages ==> PageOk(f, h.pages[f]))
    && (forall f, g :: f in h.pages && g in h.pages && f != g ==> Apart(f, Span(h.pages[f]), g, Span(h.pages[g])))
  }

  /** An address handed out: a slot that is not free, big enough, or the body of a large block. */
  predicate LiveOk(h: State, a: Ptr)
    requires a in h.live
  {
    && a.frame in h.pages
    && match h.pages[a.frame]
       case Small(c, free, _) => Slot(c, a.offset) && a.offset !in free && h.live[a] <= ClassSize(c)
       case Large(order) =>
         a.offset == HEADER && (NoWrap(h.live[a]) ==> h.live[a] + HEADER <= FRAME * Pow2(order))
  }

  ghost predicate LivesOk(h: State) { forall a :: a in h.live ==> LiveOk(h, a) }

  predicate SlotKept(h: State, f: nat, i: nat)
    requires f in h.pages && h.pages[f].Small?
  {
    var o := SlotOffset(h.pages[f].c, i);
    o in h.pages[f].free || Ptr(f, o) in h.live
  }

  /** No slot is lost: each is free or handed out; and a large block is kept only while it is in use. */
  ghost predicate NoneLost(h: State) {
    && (forall f, i :: f in h.pages && h.pages[f].Small? && 0 <= i < SlotCount(h.pages[f].c) ==> SlotKept(h, f, i))
    && (forall f :: f in h.pages && h.pages[f].Large? ==> Ptr(f, HEADER) in h.live)
  }

  ghost predicate ListsOk(h: State) {
    && |h.lists| == CLASSES
    && (forall c, f :: 0 <= c < CLASSES && f in h.lists[c] ==> f in h.pages && h.pages[f].Small? && h.pages[f].c == c)
    && (forall f :: f in h.pages && h.pages[f].Small? && h.pages[f].c < CLASSES ==> f in h.lists[h.pages[f].c])
  }

  ghost predicate Inv(h: State) { PagesOk(h) && LivesOk(h) && NoneLost(h) && ListsOk(h) }

  /** What the frame allocator promises of a block it returns; frame 0 stands for failure. */
  ghost predicate FreshBlock(h: State, phys: nat, span: nat) {
    phys > 0 && forall f :: f in h.pages ==> Apart(f, Span(h.pages[f]), phys, span)
  }

  // ---------------------------------------------------------------- what the invariant means

  /** Every address handed out is 16-byte aligned, clear of its page's header, and inside its page unless its size wrapped. */
  lemma {:induction false} LivePlaced(h: State, a: Ptr)
    requires Inv(h) && a in h.live
    ensures a.frame in h.pages && Address(a) % 16 == 0 && a.offset >= HEADER
    ensures NoWrap(h.live[a]) ==> a.offset + h.live[a] <= FRAME * Span(h.pages[a.frame])
  {
    assert LiveOk(h, a) && PageOk(a.frame, h.pages[a.frame]);
    var c := if h.pages[a.frame].Small? then h.pages[a.frame].c else 0;
    if h.pages[a.frame].Small? {
      var i :| 0 <= i < SlotCount(c) && a.offset == SlotOffset(c, i);
      SlotInside(c, i);
      SlotAligned(c, i);
    }
    assert a.offset % 16 == 0;
    Sixteens(a.frame, a.offset);
  }

  lemma {:induction false} Sixteens(f: nat, o: nat)
    requires o % 16 == 0
    ensures (f * FRAME + o) % 16 == 0
  {
    assert f * FRAME + o == 16 * (256 * f + o / 16);
  }

  /** Blocks in use never overlap. */
  lemma {:induction false} LiveDisjoint(h: State, a: Ptr, b: Ptr)
    requires Inv(h) && a in h.live && b in h.live && a != b && NoWrap(h.live[a]) && NoWrap(h.live[b])
    ensures Apart(Address(a), h.live[a], Address(b), h.live[b])
  {
    LivePlaced(h, a);
    LivePlaced(h, b);
    if a.frame == b.frame {
      SamePageApart(h, a, b);
    } else {
      assert Apart(a.frame, Span(h.pages[a.frame]), b.frame, Span(h.pages[b.frame]));
      FramesApart(a.frame, Span(h.pages[a.frame]), b.frame);
      FramesApart(b.frame, Span(h.pages[b.frame]), a.frame);
    }
  }

  lemma {:induction false} FramesApart(f: nat, n: nat, g: nat)
    ensures f + n <= g ==> f * FRAME + FRAME * n <= g * FRAME
  {
  }

  lemma {:induction false} SamePageApart(h: State, a: Ptr, b: Ptr)
    requires Inv(h) && a in h.live && b in h.live && a != b && a.frame == b.frame && a.frame in h.pages
    ensures Apart(a.offset, h.live[a], b.offset, h.live[b])
  {
    assert LiveOk(h, a) && LiveOk(h, b);
    var c := if h.pages[a.frame].Small? then h.pages[a.frame].c else 0;
    var i :| 0 <= i < SlotCount(c) && a.offset == SlotOffset(c, i);
    var j :| 0 <= j < SlotCount(c) && b.offset == SlotOffset(c, j);
    if i < j {
      SlotsApart(c, i, j);
    } else {
      SlotsApart(c, j, i);
    }
  }

  /** Each slot is on its page's free list or handed out, never both, and the list has no repeats. */
  lemma {:induction false} SlotFreeXorLive(h: State, f: nat, i: nat)
    requires Inv(h) && f in h.pages && h.pages[f].Small? && i < SlotCount(h.pages[f].c)
    ensures var o := SlotOffset(h.pages[f].c, i); o in h.pages[f].free <==> Ptr(f, o) !in h.live
    ensures Distinct(h.pages[f].free) && h.pages[f].meta == |h.pages[f].free|
  {
    assert PageOk(f, h.pages[f]) && SlotKept(h, f, i);
    var a := Ptr(f, SlotOffset(h.pages[f].c, i));
    if a in h.live { assert LiveOk(h, a); }
  }

  // ---------------------------------------------------------------- operations on the value

  /** Hand out the first free slot of page `f`. */
  function Popped(h: State, f: nat, size: nat): State
    requires f in h.pages && h.pages[f].Small? && h.pages[f].free != []
  {
    var p := h.pages[f];
    h.(pages := h.pages[f := Small(p.c, p.free[1..], if p.meta > 0 then p.meta - 1 else 0)],
       live := h.live[Ptr(f, p.free[0]) := size])
  }

  /** Take a slot back. */
  function Pushed(h: State, a: Ptr): State
    requires a.frame in h.pages && h.pages[a.frame].Small?
  {
    var p := h.pages[a.frame];
    h.(pages := h.pages[a.frame := Small(p.c, [a.offset] + p.free, p.meta + 1)], live := h.live - {a})
  }

  /** The free list of a new page: its first `n` slots, last one in front. */
  function Carved(c: nat, n: nat): seq<nat> {
    if n == 0 then [] else [SlotOffset(c, n - 1)] + Carved(c, n - 1)
  }

  function WithPage(h: State, phys: nat, c: nat): State
    requires c < |h.lists|
  {
    h.(pages := h.pages[phys := Small(c, Carved(c, SlotCount(c)), SlotCount(c))], lists := h.lists[c := [phys] + h.lists[c]])
  }

  function WithLarge(h: State, phys: nat, order: nat, size: nat): State {
    h.(pages := h.pages[phys := Large(order)], live := h.live[Ptr(phys, HEADER) := size])
  }

  function WithoutLarge(h: State, a: Ptr): State { h.(pages := h.pages - {a.frame}, live := h.live - {a}) }

  lemma {:induction false} PoppedFrame(h: State, f: nat, size: nat)
    requires Inv(h) && f in h.pages && h.pages[f].Small? && h.pages[f].free != []
    ensures PagesOk(Popped(h, f, size)) && ListsOk(Popped(h, f, size))
  {
    var h', p := Popped(h, f, size), h.pages[f];
    assert PageOk(f, p);
    assert forall k :: 0 <= k < |p.free[1..]| ==> p.free[1..][k] == p.free[k + 1];
    forall g | g in h'.pages
      ensures PageOk(g, h'.pages[g]) && Span(h'.pages[g]) == Span(h.pages[g])
    {
      assert PageOk(g, h.pages[g]);
    }
  }

  lemma {:induction false} PoppedLive(h: State, f: nat, size: nat)
    requires Inv(h) && f in h.pages && h.pages[f].Small? && h.pages[f].free != [] && size <= ClassSize(h.pages[f].c)
    ensures Ptr(f, h.pages[f].free[0]) !in h.live && LivesOk(Popped(h, f, size)) && NoneLost(Popped(h, f, size))
  {
    var h', p := Popped(h, f, size), h.pages[f];
    var x := Ptr(f, p.free[0]);
    assert PageOk(f, p) && p.free[0] in p.free;
    forall a | a in h.live
      ensures a != x
    {
      assert LiveOk(h, a);
    }
    forall a | a in h'.live
      ensures LiveOk(h', a)
    {
      if a != x { assert LiveOk(h, a); }
    }
    forall g, i | g in h'.pages && h'.pages[g].Small? && 0 <= i < SlotCount(h'.pages[g].c)
      ensures SlotKept(h', g, i)
    {
      assert SlotKept(h, g, i);
      var o := SlotOffset(h.pages[g].c, i);
      assert g == f && o in p.free ==> o == p.free[0] || o in p.free[1..];
    }
  }

  lemma {:induction false} PoppedKeeps(h: State, f: nat, size: nat)
    requires Inv(h) && f in h.pages && h.pages[f].Small? && h.pages[f].free != [] && size <= ClassSize(h.pages[f].c)
    ensures Inv(Popped(h, f, size)) && Ptr(f, h.pages[f].free[0]) !in h.live && h.pages[f].meta == |h.pages[f].free|
  {
    assert PageOk(f, h.pages[f]);
    PoppedFrame(h, f, size);
    PoppedLive(h, f, size);
  }

  lemma {:induction false} PushedFrame(h: State, a: Ptr)
    requires PagesOk(h) && ListsOk(h) && a in h.live && LiveOk(h, a) && h.pages[a.frame].Small?
    ensures PagesOk(Pushed(h, a)) && ListsOk(Pushed(h, a))
  {
    var h' := Pushed(h, a);
    assert PageOk(a.frame, h.pages[a.frame]);
    assert PageOk(a.frame, h'.pages[a.frame]);
    forall g | g in h'.pages
      ensures PageOk(g, h'.pages[g]) && Span(h'.pages[g]) == Span(h.pages[g])
    {
      if g != a.frame { assert PageOk(g, h.pages[g]); }
    }
  }

  lemma {:induction false} PushedLive(h: State, a: Ptr)
    requires LivesOk(h) && NoneLost(h) && a in h.live && a.frame in h.pages && h.pages[a.frame].Small?
    ensures LivesOk(Pushed(h, a)) && NoneLost(Pushed(h, a))
  {
    var h' := Pushed(h, a);
    forall x | x in h'.live
      ensures LiveOk(h', x)
    {
      assert LiveOk(h, x);
    }
    forall g, i | g in h'.pages && h'.pages[g].Small? && 0 <= i < SlotCount(h'.pages[g].c)
      ensures SlotKept(h', g, i)
    {
      assert SlotKept(h, g, i);
      assert g == a.frame ==> h'.pages[g].free[0] == a.offset;
    }
  }

  lemma {:induction false} CarvedAt(c: nat, n: nat, k: nat)
    ensures |Carved(c, n)| == n && (k < n ==> Carved(c, n)[k] == SlotOffset(c, n - 1 - k))
  {
    if n > 0 { CarvedAt(c, n - 1, if k > 0 then k - 1 else 0); }
  }

  lemma {:induction false} CarvedAre(c: nat)
    ensures var s := Carved(c, SlotCount(c));
            && |s| == SlotCount(c) && Distinct(s)
            && (forall k :: 0 <= k < |s| ==> Slot(c, s[k]))
            && (forall i :: 0 <= i < SlotCount(c) ==> SlotOffset(c, i) in s)
  {
    var n, s := SlotCount(c), Carved(c, SlotCount(c));
    CarvedAt(c, n, 0);
    forall k | 0 <= k < n
      ensures Slot(c, s[k])
    {
      CarvedAt(c, n, k);
    }
    forall j, k | 0 <= j < k < n
      ensures s[j] != s[k]
    {
      CarvedAt(c, n, j);
      CarvedAt(c, n, k);
      SlotsApart(c, n - 1 - k, n - 1 - j);
    }
    forall i | 0 <= i < n
      ensures SlotOffset(c, i) in s
    {
      CarvedAt(c, n, n - 1 - i);
      assert s[n - 1 - i] == SlotOffset(c, i);
    }
  }

  lemma {:induction false} FreshKey(h: State, phys: nat, span: nat)
    requires FreshBlock(h, phys, span) && span > 0
    ensures phys !in h.pages
  {
  }

  lemma {:induction false} ApartAfter(h: State, h': State, phys: nat, p: Page)
    requires PagesOk(h) && FreshBlock(h, phys, Span(p)) && h'.pages == h.pages[phys := p] && PageOk(phys, p)
    ensures PagesOk(h')
  {
    forall a, b | a in h'.pages && b in h'.pages && a != b
      ensures Apart(a, Span(h'.pages[a]), b, Span(h'.pages[b]))
    {
      if a != phys && b != phys { assert Apart(a, Span(h.pages[a]), b, Span(h.pages[b])); }
    }
  }

  lemma {:induction false} WithPagePages(h: State, phys: nat, c: nat)
    requires PagesOk(h) && c < CLASSES == |h.lists| && FreshBlock(h, phys, 1)
    ensures PagesOk(WithPage(h, phys, c))
  {
    var h' := WithPage(h, phys, c);
    CarvedAre(c);
    ApartAfter(h, h', phys, h'.pages[phys]);
  }

  lemma {:induction false} WithPageLists(h: State, phys: nat, c: nat)
    requires ListsOk(h) && c < CLASSES && phys !in h.pages
    ensures ListsOk(WithPage(h, phys, c))
  {
    var h' := WithPage(h, phys, c);
    forall g, f | 0 <= g < CLASSES && f in h'.lists[g]
      ensures f in h'.pages && h'.pages[f].Small? && h'.pages[f].c == g
    {
      if f != phys { assert f in h.lists[g]; }
    }
    forall f | f in h'.pages && h'.pages[f].Small? && h'.pages[f].c < CLASSES
      ensures f in h'.lists[h'.pages[f].c]
    {
      if f == phys { assert h'.lists[c][0] == phys; } else { assert f in h.lists[h.pages[f].c]; }
    }
  }

  lemma {:induction false} WithPageLive(h: State, phys: nat, c: nat)
    requires LivesOk(h) && NoneLost(h) && c < CLASSES == |h.lists| && FreshBlock(h, phys, 1)
    ensures LivesOk(WithPage(h, phys, c)) && NoneLost(WithPage(h, phys, c))
  {
    var h' := WithPage(h, phys, c);
    FreshKey(h, phys, 1);
    CarvedAre(c);
    forall a | a in h'.live
      ensures LiveOk(h', a)
    {
      assert LiveOk(h, a);
    }
    forall g, i | g in h'.pages && h'.pages[g].Small? && 0 <= i < SlotCount(h'.pages[g].c)
      ensures SlotKept(h', g, i)
    {
      if g != phys { assert SlotKept(h, g, i); }
    }
  }

  lemma {:induction false} WithLargeFrame(h: State, phys: nat, order: nat, size: nat)
    requires PagesOk(h) && ListsOk(h) && FreshBlock(h, phys, Pow2(order))
    ensures PagesOk(WithLarge(h, phys, order, size)) && ListsOk(WithLarge(h, phys, order, size))
  {
    FreshKey(h, phys, Pow2(order));
    ApartAfter(h, WithLarge(h, phys, order, size), phys, Large(order));
  }

  lemma {:induction false} WithLargeLive(h: State, phys: nat, order: nat, size: nat)
    requires LivesOk(h) && NoneLost(h) && phys !in h.pages
    requires NoWrap(size) ==> size + HEADER <= FRAME * Pow2(order)
    ensures Ptr(phys, HEADER) !in h.live && LivesOk(WithLarge(h, phys, order, size)) && NoneLost(WithLarge(h, phys, order, size))
  {
    var h', x := WithLarge(h, phys, order, size), Ptr(phys, HEADER);
    forall a | a in h.live
      ensures a != x
    {
      assert LiveOk(h, a);
    }
    forall a | a in h'.live
      ensures LiveOk(h', a)
    {
      if a != x { assert LiveOk(h, a); }
    }
    forall g, i | g in h'.pages && h'.pages[g].Small? && 0 <= i < SlotCount(h'.pages[g].c)
      ensures SlotKept(h', g, i)
    {
      assert SlotKept(h, g, i);
    }
  }

  lemma {:induction false} WithoutLargeFrame(h: State, a: Ptr)
    requires PagesOk(h) && ListsOk(h) && a.frame in h.pages && h.pages[a.frame].Large?
    ensures PagesOk(WithoutLarge(h, a)) && ListsOk(WithoutLarge(h, a))
  {
    var h' := WithoutLarge(h, a);
    assert forall f :: f in h'.pages ==> f in h.pages && h'.pages[f] == h.pages[f];
  }

  lemma {:induction false} WithoutLargeLive(h: State, a: Ptr)
    requires LivesOk(h) && a in h.live && a.frame in h.pages && h.pages[a.frame].Large?
    ensures LivesOk(WithoutLarge(h, a))
  {
    var h' := WithoutLarge(h, a);
    assert LiveOk(h, a);
    forall x | x in h'.live
      ensures LiveOk(h', x)
    {
      assert LiveOk(h, x);
    }
  }

  lemma {:induction false} WithoutLargeSlots(h: State, a: Ptr)
    requires NoneLost(h) && a in h.live && a.frame in h.pages && h.pages[a.frame].Large?
    ensures NoneLost(WithoutLarge(h, a))
  {
    var h' := WithoutLarge(h, a);
    forall g, i | g in h'.pages && h'.pages[g].Small? && 0 <= i < SlotCount(h'.pages[g].c)
      ensures SlotKept(h', g, i)
    {
      assert SlotKept(h, g, i);
    }
  }

  // ---------------------------------------------------------------- the code

  /** No page of class `c` has a free slot. */
  ghost predicate ClassFull(h: State, c: nat) {
    forall f :: f in h.pages && h.pages[f].Small? && h.pages[f].c == c ==> h.pages[f].free == []
  }

  /** The class that serves a size: the smallest that fits. */
  predicate Serves(c: nat, size: nat) {
    c < CLASSES && size <= ClassSize(c) && forall d :: 0 <= d < c ==> ClassSize(d) < size
  }

  lemma {:induction false} ListFull(h: State, c: nat)
    requires ListsOk(h) && c < CLASSES && forall k :: 0 <= k < |h.lists[c]| ==> FreeListEmpty(h, h.lists[c][k])
    ensures ClassFull(h, c)
  {
    forall f | f in h.pages && h.pages[f].Small? && h.pages[f].c == c
      ensures h.pages[f].free == []
    {
      assert f in h.lists[c];
      var k :| 0 <= k < |h.lists[c]| && h.lists[c][k] == f;
      assert FreeListEmpty(h, h.lists[c][k]);
    }
  }

  predicate FreeListEmpty(h: State, f: nat) { f in h.pages && h.pages[f].Small? && h.pages[f].free == [] }

  class Heap {
    var pages: map<nat, Page>
    var lists: seq<seq<nat>>
    ghost var live: map<Ptr, nat>

    ghost function Now(): State
      reads this
    {
      State(pages, lists, live)
    }

    ghost predicate Valid()
      reads this
    {
      Inv(Now())
    }

    constructor ()
      ensures Valid() && live == map[]
    {
      pages := map[];
      lists := seq(CLASSES, _ => []);
      live := map[];
    }

    /** The smallest class that fits, or CLASSES. */
    static method SizeClassFor(size: nat) returns (c: nat)
      ensures c <= CLASSES && (forall d :: 0 <= d < c ==> ClassSize(d) < size)
      ensures c < CLASSES ==> size <= ClassSize(c)
    {
      c := 0;
      while c < CLASSES && size > ClassSize(c)
        invariant c <= CLASSES && forall d :: 0 <= d < c ==> ClassSize(d) < size
      {
        c := c + 1;
      }
    }

    /** The smallest buddy order that covers `frames`. */
    static method OrderFor(frames: nat) returns (order: nat)
      ensures IsOrder(frames, order)
    {
      order := 0;
      var n := 1;
      while n < frames
        invariant n == Pow2(order) && (order > 0 ==> Pow2(order - 1) < frames)
        decreases frames - n
      {
        order, n := order + 1, 2 * n;
      }
    }

    /** Look through the pages of a class for one with a free slot. */
    method FindPage(c: nat) returns (found: bool, f: nat)
      requires Valid() && c < CLASSES
      ensures found ==> f in pages && pages[f].Small? && pages[f].c == c && pages[f].free != []
      ensures !found ==> ClassFull(Now(), c)
    {
      var i := 0;
      while i < |lists[c]|
        invariant i <= |lists[c]|
        invariant forall k :: 0 <= k < i ==> FreeListEmpty(Now(), lists[c][k])
      {
        f := lists[c][i];
        assert f in lists[c];
        if pages[f].free != [] {
          return true, f;
        }
        i := i + 1;
      }
      ListFull(Now(), c);
      found, f := false, 0;
    }

    /** Carve a fresh frame into slots and put the page in front of its class. */
    method NewPage(c: nat, phys: nat)
      requires Valid() && c < CLASSES && FreshBlock(Now(), phys, 1)
      modifies this
      ensures Valid() && Now() == WithPage(old(Now()), phys, c)
    {
      ghost var h := Now();
      WithPagePages(h, phys, c);
      FreshKey(h, phys, 1);
      WithPageLists(h, phys, c);
      WithPageLive(h, phys, c);
      var free: seq<nat> := [];
      var i, offset := 0, HEADER;
      while i < SlotCount(c)
        invariant i <= SlotCount(c) && free == Carved(c, i) && offset == SlotOffset(c, i)
        invariant Now() == h
      {
        free := [offset] + free;
        i, offset := i + 1, offset + ClassSize(c);
      }
      pages := pages[phys := Small(c, free, SlotCount(c))];
      lists := lists[c := [phys] + lists[c]];
    }

    method Pop(f: nat, size: nat) returns (a: Ptr)
      requires Valid() && f in pages && pages[f].Small? && pages[f].free != [] && size <= ClassSize(pages[f].c)
      modifies this
      ensures Valid() && a.frame == f && a !in old(live) && live == old(live)[a := size]
      ensures f in pages && pages[f].Small? && pages[f].c == old(pages)[f].c
    {
      hide Inv;
      ghost var h := Now();
      PoppedKeeps(h, f, size);
      var p := pages[f];
      a := Ptr(f, p.free[0]);
      pages := pages[f := Small(p.c, p.free[1..], p.meta - 1)];
      live := live[a := size];
      assert Now() == Popped(h, f, size);
    }

    /**
     Allocate. `phys` is what the frame allocator returns if it is asked: 0, or a
     block of the order asked for that overlaps nothing the heap holds.
     */
    method Malloc(size: nat, phys: nat) returns (ok: bool, a: Ptr)
      requires Valid() && size < WORD
      requires phys > 0 ==>
                 forall order :: IsOrder(if size <= 2048 then 1 else FramesNeeded(size), order) ==>
                   FreshBlock(Now(), phys, Pow2(order))
      modifies this
      ensures Valid()
      ensures !ok ==> Now() == old(Now())
      ensures ok ==> size > 0 && a !in old(live) && live == old(live)[a := size]
      ensures size > 0 && phys > 0 ==> ok
      ensures ok && size <= 2048 ==> a.frame in pages && pages[a.frame].Small? && Serves(pages[a.frame].c, size)
      ensures ok && size > 2048 ==> a.frame in pages && pages[a.frame].Large? && IsOrder(FramesNeeded(size), pages[a.frame].order)
      ensures ok && a.frame !in old(pages) ==> forall c :: Serves(c, size) ==> ClassFull(old(Now()), c)
    {
      ok, a := false, Ptr(0, 0);
      if size == 0 {
        return;
      }
      var wanted := if size < MIN_SIZE then MIN_SIZE else size;
      var c := SizeClassFor(wanted);
      if c < CLASSES {
        assert IsOrder(1, 0) && Pow2(0) == 1;
        assert forall d :: Serves(d, size) ==> d == c;
        ok, a := MallocSmall(size, c, phys);
      } else {
        assert ClassSize(7) == 2048;
        ok, a := MallocLarge(size, phys);
      }
    }

    method MallocSmall(size: nat, c: nat, phys: nat) returns (ok: bool, a: Ptr)
      requires Valid() && 0 < size <= ClassSize(c) && c < CLASSES && (phys > 0 ==> FreshBlock(Now(), phys, 1))
      modifies this
      ensures Valid()
      ensures !ok ==> Now() == old(Now())
      ensures ok ==> a !in old(live) && live == old(live)[a := size]
      ensures phys > 0 ==> ok
      ensures ok ==> a.frame in pages && pages[a.frame].Small? && pages[a.frame].c == c
      ensures ok && a.frame !in old(pages) ==> ClassFull(old(Now()), c)
    {
      var f;
      ok, f := GetPage(c, phys);
      a := Ptr(0, 0);
      if ok {
        a := Pop(f, size);
      }
    }

    /** A page of the class with a free slot, new only if there is none. */
    method GetPage(c: nat, phys: nat) returns (ok: bool, f: nat)
      requires Valid() && c < CLASSES && (phys > 0 ==> FreshBlock(Now(), phys, 1))
      modifies this
      ensures Valid() && live == old(live)
      ensures !ok ==> Now() == old(Now())
      ensures ok ==> f in pages && pages[f].Small? && pages[f].c == c && pages[f].free != []
      ensures phys > 0 ==> ok
      ensures ok && f !in old(pages) ==> ClassFull(old(Now()), c)
    {
      ok, f := FindPage(c);
      if !ok && phys > 0 {
        NewPage(c, phys);
        CarvedAt(c, SlotCount(c), 0);
        ok, f := true, phys;
      }
    }

    method MallocLarge(size: nat, phys: nat) returns (ok: bool, a: Ptr)
      requires Valid() && 2048 < size < WORD
      requires phys > 0 ==> forall order :: IsOrder(FramesNeeded(size), order) ==> FreshBlock(Now(), phys, Pow2(order))
      modifies this
      ensures Valid()
      ensures !ok ==> Now() == old(Now())
      ensures ok ==> a !in old(live) && live == old(live)[a := size]
      ensures ok ==> a.frame in pages && pages[a.frame].Large? && IsOrder(FramesNeeded(size), pages[a.frame].order)
      ensures phys > 0 ==> ok
    {
      ok, a := false, Ptr(0, 0);
      var order := OrderFor((((size + HEADER) % WORD + FRAME - 1) % WORD) / FRAME);
      if phys == 0 {
        return;
      }
      LargeEnoughIff(size, order);
      FreshKey(Now(), phys, Pow2(order));
      WithLargeFrame(Now(), phys, order, size);
      WithLargeLive(Now(), phys, order, size);
      ok, a := true, Ptr(phys, HEADER);
      pages := pages[phys := Large(order)];
      live := live[a := size];
    }

    /** Free an address in use; the page is found from the address alone. */
    method Free(a: Ptr)
      requires Valid() && a in live
      modifies this
      ensures Valid() && live == old(live) - {a}
      ensures old(pages)[a.frame].Small? ==> Now() == Pushed(old(Now()), a)
      ensures old(pages)[a.frame].Large? ==> Now() == WithoutLarge(old(Now()), a)
    {
      ghost var h := Now();
      assert LiveOk(h, a);
      if pages[a.frame].Large? {
        WithoutLargeFrame(h, a);
        WithoutLargeLive(h, a);
        WithoutLargeSlots(h, a);
        pages := pages - {a.frame};
      } else {
        PushedFrame(h, a);
        PushedLive(h, a);
        var p := pages[a.frame];
        pages := pages[a.frame := Small(p.c, [a.offset] + p.free, p.meta + 1)];
      }
      live := live - {a};
    }
  }
}
