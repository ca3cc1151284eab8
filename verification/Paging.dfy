/** The virtual memory manager: walking, mapping and unmapping over the page tables, and the MMIO window. */
module Paging {
  import opened Wrappers
  import opened PageTables
  import PhysicalMemory

  const MMIO_BASE: nat := 0xFFFF_FFFF_9000_0000
  const TOP: nat := 0x1_0000_0000_0000_0000
  const WRITABLE: Pte := 3
  const UNCACHED: Pte := 0x13

  // ----- ownership: every table is an allocated block -----

  predicate OwnedFrame(f: nat, bits: seq<bool>) {
    f % 4096 == 0 && f / 4096 < |bits| && bits[f / 4096]
  }

  ghost predicate Owned(mem: Memory, root: nat, bits: seq<bool>) {
    forall p :: IsPath(p, 3) && TableAt(mem, root, p).Some? ==> OwnedFrame(TableAt(mem, root, p).value, bits)
  }

  predicate AllFrames(mem: Memory, n: nat) {
    forall b :: 0 <= b < n ==> 4096 * b in mem
  }

  /** A block that was free is no table of the tree. */
  lemma FreeIsFresh(mem: Memory, root: nat, bits: seq<bool>, s: nat)
    requires Owned(mem, root, bits) && s < |bits| && !bits[s]
    ensures Fresh(mem, root, 4096 * s)
  {
    forall q | IsPath(q, 3) ensures TableAt(mem, root, q) != Some(4096 * s) {
      if TableAt(mem, root, q).Some? {
        assert OwnedFrame(TableAt(mem, root, q).value, bits);
      }
    }
  }

  /** The two memories hold the same entry for every page. */
  ghost predicate SameEntries(mem: Memory, mem': Memory, root: nat) {
    forall q :: |q| == 4 && IsPath(q, 4) ==> Entry(mem', root, q) == Entry(mem, root, q)
  }

  /** The memory with a fresh block hung into the tree, and the bitmap with that block set. */
  lemma HangOwned(mem: Memory, root: nat, bits: seq<bool>, p: seq<nat>, f: nat, i: nat, s: nat)
    requires Tree(mem, root) && Owned(mem, root, bits) && IsPath(p, 2) && TableAt(mem, root, p) == Some(f) && i < 512
    requires f in mem && !Present(mem[f][i]) && s < |bits| < 0x8000_0000 && !bits[s]
    ensures IsFrame(4096 * s) && 4096 * s != f
    ensures var mem' := Hang(mem, f, i, 4096 * s);
      Tree(mem', root) && Owned(mem', root, bits[s := true]) && SameEntries(mem, mem', root) && TableAt(mem', root, p + [i]) == Some(4096 * s)
    ensures Links(mem, root) ==> Links(Hang(mem, f, i, 4096 * s), root)
  {
    hide Hang, TableAt, Tree, Entry, Links;
    assert IsPath(p, 3);
    FreeIsFresh(mem, root, bits, s);
    HangKeeps(mem, root, p, f, i, 4096 * s);
    if Links(mem, root) { HangKeepsLinks(mem, root, p, f, i, 4096 * s); }
    var mem' := Hang(mem, f, i, 4096 * s);
    forall q | IsPath(q, 3) && TableAt(mem', root, q).Some?
      ensures OwnedFrame(TableAt(mem', root, q).value, bits[s := true])
    {
      if q != p + [i] {
        assert OwnedFrame(TableAt(mem, root, q).value, bits);
      }
    }
  }

  // ----- what mapping and unmapping do to the flat map -----

  /** The entry that a walk for `virt` ends at. */
  function Flat(mem: Memory, root: nat, virt: nat): Pte {
    Entry(mem, root, PathOf(virt))
  }

  /** The flat map with the page of `virt` set to the given entry (or untouched), and every other page as before. */
  ghost predicate Remapped(mem: Memory, mem': Memory, root: nat, virt: nat, e: Option<Pte>) {
    forall v: nat :: Flat(mem', root, v) == if e.Some? && Page(v) == Page(virt) then e.value else Flat(mem, root, v)
  }

  /** A last-level write is a change of one page of the flat map. */
  lemma WriteRemaps(mem0: Memory, mem: Memory, root: nat, virt: nat, f: nat, e: Pte)
    requires Tree(mem, root) && SameEntries(mem0, mem, root) && TableAt(mem, root, PathOf(virt)[..3]) == Some(f) && f in mem
    ensures Remapped(mem0, WriteEntry(mem, f, PathOf(virt)[3], e), root, virt, Some(e))
  {
    hide Tree, Entry, TableAt, PathOf, Page, WriteEntry;
    var mem' := WriteEntry(mem, f, PathOf(virt)[3], e);
    WriteLast(mem, root, PathOf(virt), f, e);
    forall v: nat ensures Flat(mem', root, v) == if Page(v) == Page(virt) then e else Flat(mem0, root, v) {
      SamePath(v, virt);
    }
  }

  lemma WriteOwned(mem: Memory, root: nat, p: seq<nat>, f: nat, e: Pte, bits: seq<bool>)
    requires Tree(mem, root) && |p| == 4 && IsPath(p, 4) && TableAt(mem, root, p[..3]) == Some(f) && f in mem
    requires Owned(mem, root, bits)
    ensures Owned(WriteEntry(mem, f, p[3], e), root, bits)
  {
    hide TableAt, WriteEntry;
    WriteLast(mem, root, p, f, e);
  }

  lemma MissingIsZero(mem: Memory, root: nat, virt: nat)
    requires TableAt(mem, root, PathOf(virt)[..3]) == None
    ensures Remapped(mem, mem, root, virt, Some(0))
  {
    hide TableAt, PathOf, Page;
    forall v: nat ensures Page(v) == Page(virt) ==> Flat(mem, root, v) == 0 {
      SamePath(v, virt);
    }
  }

  // ----- ranges of pages -----

  /** The first k pages from `virt` on map to the frames from `phys` on; every other page is as before. */
  ghost predicate RangeMapped(mem: Memory, mem': Memory, root: nat, virt: nat, k: nat, phys: nat, flags: Pte) {
    forall v: nat :: Flat(mem', root, v)
      == if Page(virt) <= Page(v) < Page(virt) + k then MakePte(phys + 4096 * (Page(v) - Page(virt)), flags) else Flat(mem, root, v)
  }

  /** The k pages from `virt` on are not mapped; every other page is as before. */
  ghost predicate RangeCleared(mem: Memory, mem': Memory, root: nat, virt: nat, k: nat) {
    forall v: nat :: Flat(mem', root, v) == if Page(virt) <= Page(v) < Page(virt) + k then 0 else Flat(mem, root, v)
  }

  /** Consecutive pages have consecutive numbers as long as bit 48 is not reached. */
  lemma PageStep(virt: nat, i: nat)
    requires Page(virt) + i < 0x10_0000_0000
    ensures Page(virt + 4096 * i) == Page(virt) + i
  {
    var n := virt / 0x1000;
    assert (virt + 4096 * i) / 0x1000 == n + i;
  }

  lemma RangeGrows(mem0: Memory, mem: Memory, mem': Memory, root: nat, virt: nat, k: nat, phys: nat, flags: Pte)
    requires RangeMapped(mem0, mem, root, virt, k, phys, flags) && Page(virt) + k < 0x10_0000_0000
    requires Remapped(mem, mem', root, virt + 4096 * k, Some(MakePte(phys + 4096 * k, flags)))
    ensures RangeMapped(mem0, mem', root, virt, k + 1, phys, flags)
  {
    hide Flat, MakePte, Page;
    PageStep(virt, k);
  }

  lemma RangeSame(mem0: Memory, mem: Memory, mem': Memory, root: nat, virt: nat, k: nat, phys: nat, flags: Pte, at: nat)
    requires RangeMapped(mem0, mem, root, virt, k, phys, flags) && Remapped(mem, mem', root, at, None)
    ensures RangeMapped(mem0, mem', root, virt, k, phys, flags)
  {
    hide Flat, MakePte, Page;
  }

  lemma ClearGrows(mem0: Memory, mem: Memory, mem': Memory, root: nat, virt: nat, k: nat)
    requires RangeCleared(mem0, mem, root, virt, k) && Page(virt) + k < 0x10_0000_0000
    requires Remapped(mem, mem', root, virt + 4096 * k, Some(0))
    ensures RangeCleared(mem0, mem', root, virt, k + 1)
  {
    hide Flat, Page;
    PageStep(virt, k);
  }

  // ----- the MMIO window -----

  /** The page number of an address at the top of the address space; 2^36 for the end of it. */
  function TopPage(virt: nat): int {
    virt / 4096 - 0xF_FFF0_0000_0000
  }

  lemma TopPageIs(virt: nat)
    requires MMIO_BASE <= virt < TOP
    ensures Page(virt) == TopPage(virt)
  {
    var n := virt / 4096;
    assert 0xF_FFFF_FFF9_0000 <= n < 0x10_0000_0000_0000;
    TopPart(n - 0xF_FFF0_0000_0000);
  }

  lemma TopPart(k: nat)
    requires k < 0x10_0000_0000
    ensures (0xF_FFF0_0000_0000 + k) % 0x10_0000_0000 == k
  {}

  /** Nothing is mapped from the next window address on. */
  ghost predicate WindowClear(mem: Memory, root: nat, next: nat) {
    forall v: nat :: Page(v) >= TopPage(next) ==> Flat(mem, root, v) == 0
  }

  /** The number of pages that hold `size` bytes from byte `offset` of the first page on. */
  function PagesFor(size: nat, offset: nat): nat {
    (size + offset + 4095) / 4096
  }

  /** Exactly as many as are needed. */
  lemma PagesHold(size: nat, offset: nat)
    ensures size + offset <= 4096 * PagesFor(size, offset) < size + offset + 4096
  {}

  /** The address that `virt` translates to, if it is mapped. */
  function Translate(mem: Memory, root: nat, virt: nat): Option<nat> {
    var e := Flat(mem, root, virt);
    if Present(e) then Some(FrameOf(e) + virt % 4096) else None
  }

  /** Every byte of a mapped device range translates to its device address. */
  lemma MmioTranslates(mem: Memory, mem': Memory, root: nat, base: nat, phys: nat, size: nat, b: nat)
    requires MMIO_BASE <= base && base % 4096 == 0 && phys + size <= 0x10_0000_0000_0000 && b < size
    requires base + 4096 * PagesFor(size, phys % 4096) <= TOP
    requires RangeMapped(mem, mem', root, base, PagesFor(size, phys % 4096), phys - phys % 4096, UNCACHED)
    ensures Translate(mem', root, base + phys % 4096 + b) == Some(phys + b)
    ensures Flat(mem', root, base + phys % 4096 + b) % 0x1000 == 0x13
  {
    hide Flat, MakePte, Page, FrameOf, RangeMapped;
    var d := (phys % 4096 + b) / 4096;
    var v := base + phys % 4096 + b;
    assert v / 4096 == base / 4096 + d && v % 4096 == (phys % 4096 + b) % 4096;
    TopPageIs(base);
    TopPageIs(v);
    RangeAt(mem, mem', root, base, PagesFor(size, phys % 4096), phys - phys % 4096, UNCACHED, v);
    MakePteIs(phys - phys % 4096 + 4096 * d, UNCACHED);
    LowFlags(MakePte(phys - phys % 4096 + 4096 * d, UNCACHED));
    WholeFrame(phys, b, d);
  }

  lemma LowFlags(e: Pte)
    requires e % 2 == 1 && e % 0x1000 / 2 == 9
    ensures e % 0x1000 == 0x13
  {
    EvenPart(e, e % 0x1000);
  }

  lemma RangeAt(mem: Memory, mem': Memory, root: nat, virt: nat, k: nat, phys: nat, flags: Pte, v: nat)
    requires RangeMapped(mem, mem', root, virt, k, phys, flags) && Page(virt) <= Page(v) < Page(virt) + k
    ensures Flat(mem', root, v) == MakePte(phys + 4096 * (Page(v) - Page(virt)), flags)
  {}

  lemma WholeFrame(phys: nat, b: nat, d: nat)
    requires d == (phys % 4096 + b) / 4096 && phys + b < 0x10_0000_0000_0000
    ensures (phys - phys % 4096 + 4096 * d) / 0x1000 % 0x100_0000_0000 * 0x1000 + (phys % 4096 + b) % 4096 == phys + b
  {}

  // ----- runs of mmio_map calls -----

  /** One call: where its window starts, how many pages it spans, how many were mapped, and to what. */
  datatype Window = Window(base: nat, pages: nat, mapped: nat, phys: nat)

  function EndOf(w: Window): nat {
    w.base + 4096 * w.pages
  }

  /** Call number i took mems[i] to mems[i + 1], and its window starts where the previous one ended. */
  ghost predicate CallAt(root: nat, mems: seq<Memory>, ws: seq<Window>, i: nat)
    requires |mems| == |ws| + 1 && i < |ws|
  {
    && ws[i].mapped <= ws[i].pages && ws[i].base % 4096 == 0 && EndOf(ws[i]) <= TOP
    && (if i == 0 then MMIO_BASE <= ws[0].base else ws[i].base == EndOf(ws[i - 1]))
    && RangeMapped(mems[i], mems[i + 1], root, ws[i].base, ws[i].mapped, ws[i].phys, UNCACHED)
  }

  ghost predicate IsMmioRun(root: nat, mems: seq<Memory>, ws: seq<Window>) {
    |mems| == |ws| + 1 && forall i :: 0 <= i < |ws| ==> CallAt(root, mems, ws, i)
  }

  /** Windows of different calls do not overlap. */
  lemma {:induction false} WindowsApart(root: nat, mems: seq<Memory>, ws: seq<Window>, i: nat, j: nat)
    requires IsMmioRun(root, mems, ws) && i < j < |ws|
    ensures MMIO_BASE <= ws[i].base && EndOf(ws[i]) <= ws[j].base
    decreases j
  {
    hide RangeMapped;
    assert CallAt(root, mems, ws, j);
    if i + 1 < j {
      assert CallAt(root, mems, ws, j - 1);
      WindowsApart(root, mems, ws, i, j - 1);
    } else if i > 0 {
      assert CallAt(root, mems, ws, i);
      WindowsApart(root, mems, ws, i - 1, i);
    } else {
      assert CallAt(root, mems, ws, 0);
    }
  }

  /** What a call mapped, and whatever lay below, is still there after all later calls, failed ones included. */
  lemma {:induction false} EarlierWindowsKept(root: nat, mems: seq<Memory>, ws: seq<Window>, i: nat, j: nat, v: nat)
    requires IsMmioRun(root, mems, ws) && i < j <= |ws| && Page(v) < TopPage(EndOf(ws[i]))
    ensures Flat(mems[j], root, v) == Flat(mems[i + 1], root, v)
    decreases j
  {
    hide Flat, MakePte, Page;
    if i + 1 < j {
      EarlierWindowsKept(root, mems, ws, i, j - 1, v);
      assert CallAt(root, mems, ws, j - 1);
      WindowsApart(root, mems, ws, i, j - 1);
      if ws[j - 1].base < TOP {
        TopPageIs(ws[j - 1].base);
      }
    }
  }

  /** What a driver asks to have mapped. */
  datatype Device = Device(phys: nat, size: nat)

  function PagesOf(d: Device): nat {
    PagesFor(d.size, d.phys % 4096)
  }

  /** The pages of all the requests together. */
  function TotalPages(ds: seq<Device>): nat {
    if ds == [] then 0 else PagesOf(ds[0]) + TotalPages(ds[1..])
  }

  /** Window w is what a call for d took, and virt what it returned: 0, or the address of the device in a window that
      is mapped as a whole. */
  predicate Answers(d: Device, w: Window, virt: nat) {
    && w.pages == PagesOf(d) && w.phys == d.phys - d.phys % 4096
    && (virt != 0 ==> w.mapped == w.pages && virt == w.base + d.phys % 4096)
  }

  /** Every call of the run answers its request. */
  predicate AllAnswer(ds: seq<Device>, ws: seq<Window>, virts: seq<nat>) {
    |ds| == |ws| == |virts| && forall i :: 0 <= i < |ds| ==> Answers(ds[i], ws[i], virts[i])
  }

  /** Byte b of the device is reached at virt + b, and the page is present, writable, uncached and nothing else. */
  predicate Reaches(mem: Memory, root: nat, virt: nat, d: Device, b: nat) {
    Translate(mem, root, virt + b) == Some(d.phys + b) && Flat(mem, root, virt + b) % 0x1000 == 0x13
  }

  /** The processor may write there. */
  predicate Writes(mem: Memory, root: nat, virt: nat) {
    Grants(mem, root, PathOf(virt))
  }

  /** Byte b of the device is reached there and can be written. */
  predicate Usable(mem: Memory, root: nat, virt: nat, d: Device, b: nat) {
    Reaches(mem, root, virt, d, b) && Writes(mem, root, virt + b)
  }

  /** In the trees of the manager write permission is decided by the last entry. */
  lemma WritesIff(mem: Memory, root: nat, virt: nat)
    requires Links(mem, root)
    ensures Writes(mem, root, virt) <==> Allows(Flat(mem, root, virt))
  {
    hide Grants, Links, Entry, PathOf;
    GrantsIff(mem, root, PathOf(virt));
  }

  lemma FlagsAllow(e: Pte)
    requires e % 0x1000 == 0x13
    ensures Allows(e)
  {}

  lemma ReachedWrites(mem: Memory, root: nat, virt: nat, d: Device, b: nat)
    requires Links(mem, root) && Reaches(mem, root, virt, d, b)
    ensures Usable(mem, root, virt, d, b)
  {
    hide Flat, Writes, Links;
    FlagsAllow(Flat(mem, root, virt + b));
    WritesIff(mem, root, virt + b);
  }

  /** What start-up maps can be written. */
  lemma InitialAllows(fb: Framebuffer, page: nat)
    requires InitialEntry(fb, page) != 0
    ensures Allows(InitialEntry(fb, page))
  {
    hide MakePte, Allows;
    forall phys: nat ensures Allows(MakePte(phys, WRITABLE)) && Allows(MakePte(phys, UNCACHED)) {
      MadeAllows(phys, WRITABLE);
      MadeAllows(phys, UNCACHED);
    }
  }

  lemma MadeAllows(phys: nat, flags: Pte)
    requires flags % 0x1000 / 2 % 2 == 1
    ensures Allows(MakePte(phys, flags))
  {
    hide MakePte, FrameOf;
    MakePteIs(phys, flags);
    BitOne(MakePte(phys, flags));
  }

  lemma BitOne(e: Pte)
    ensures e % 0x1000 / 2 % 2 == e / 2 % 2
  {
    var q, r := e / 0x1000, e % 0x1000;
    assert e / 2 == 0x800 * q + r / 2;
  }

  lemma CallTranslates(mem: Memory, mem': Memory, root: nat, w: Window, d: Device, virt: nat, b: nat)
    requires Answers(d, w, virt) && virt != 0 && b < d.size && d.phys + d.size <= 0x10_0000_0000_0000
    requires MMIO_BASE <= w.base && w.base % 4096 == 0 && EndOf(w) <= TOP
    requires RangeMapped(mem, mem', root, w.base, w.mapped, w.phys, UNCACHED)
    ensures Reaches(mem', root, virt, d, b) && Page(virt + b) < TopPage(EndOf(w))
  {
    hide Page, RangeMapped, TopPage, Translate;
    MmioTranslates(mem, mem', root, w.base, d.phys, d.size, b);
    InWindow(w.base, d, b);
  }

  lemma ReachesKept(mem: Memory, mem': Memory, root: nat, virt: nat, d: Device, b: nat)
    requires Reaches(mem, root, virt, d, b) && Flat(mem', root, virt + b) == Flat(mem, root, virt + b)
    ensures Reaches(mem', root, virt, d, b)
  {
    hide Flat;
  }

  /** After the whole run, every byte of every device that was mapped translates to its device address. */
  lemma RunTranslates(root: nat, mems: seq<Memory>, ws: seq<Window>, ds: seq<Device>, virts: seq<nat>, i: nat, b: nat)
    requires IsMmioRun(root, mems, ws) && AllAnswer(ds, ws, virts) && i < |ds| && virts[i] != 0
    requires b < ds[i].size && ds[i].phys + ds[i].size <= 0x10_0000_0000_0000
    ensures Reaches(mems[|ws|], root, virts[i], ds[i], b)
  {
    hide Flat, Page, RangeMapped, TopPage, EndOf, Reaches, Answers;
    assert Answers(ds[i], ws[i], virts[i]) && CallAt(root, mems, ws, i);
    WindowStarts(root, mems, ws, i);
    CallTranslates(mems[i], mems[i + 1], root, ws[i], ds[i], virts[i], b);
    EarlierWindowsKept(root, mems, ws, i, |ws|, virts[i] + b);
    ReachesKept(mems[i + 1], mems[|ws|], root, virts[i], ds[i], b);
  }

  lemma WindowStarts(root: nat, mems: seq<Memory>, ws: seq<Window>, i: nat)
    requires IsMmioRun(root, mems, ws) && i < |ws|
    ensures MMIO_BASE <= ws[i].base
  {
    hide RangeMapped;
    assert CallAt(root, mems, ws, i);
    if i > 0 {
      WindowsApart(root, mems, ws, 0, i);
    }
  }

  lemma InWindow(base: nat, d: Device, b: nat)
    requires MMIO_BASE <= base && base % 4096 == 0 && base + 4096 * PagesOf(d) <= TOP && b < d.size
    ensures Page(base + d.phys % 4096 + b) < TopPage(base + 4096 * PagesOf(d))
    ensures TopPage(base) <= Page(base + d.phys % 4096 + b)
  {
    TopPageIs(base + d.phys % 4096 + b);
  }

  /** Before each call the window is clear from its base on. */
  lemma {:induction false} ClearBefore(root: nat, mems: seq<Memory>, ws: seq<Window>, i: nat)
    requires IsMmioRun(root, mems, ws) && i < |ws| && WindowClear(mems[0], root, ws[0].base) && ws[i].base < TOP
    ensures WindowClear(mems[i], root, ws[i].base)
  {
    hide Flat, Page, RangeMapped, WindowClear, TopPage;
    if i > 0 {
      assert CallAt(root, mems, ws, i) && CallAt(root, mems, ws, i - 1);
      WindowStarts(root, mems, ws, i - 1);
      ClearBefore(root, mems, ws, i - 1);
      WindowMoves(mems[i - 1], mems[i], root, ws[i - 1].base, ws[i - 1].mapped, ws[i - 1].pages, ws[i - 1].phys);
    }
  }

  /** Unmapping the window of any call, after all later calls, puts its pages back to what they were before that call
      and leaves every other lookup alone. */
  lemma UnmapRestores(root: nat, mems: seq<Memory>, ws: seq<Window>, i: nat, mem': Memory, v: nat)
    requires IsMmioRun(root, mems, ws) && i < |ws| && WindowClear(mems[0], root, ws[0].base)
    requires RangeCleared(mems[|ws|], mem', root, ws[i].base, ws[i].pages)
    ensures Flat(mem', root, v)
         == if TopPage(ws[i].base) <= Page(v) < TopPage(EndOf(ws[i])) then Flat(mems[i], root, v) else Flat(mems[|ws|], root, v)
  {
    hide Flat, Page, RangeMapped;
    assert CallAt(root, mems, ws, i);
    WindowStarts(root, mems, ws, i);
    WindowRoom(ws[i].base, ws[i].pages);
    if ws[i].pages > 0 {
      ClearBefore(root, mems, ws, i);
      TopPageIs(ws[i].base);
    }
  }

  /** The bytes of a device lie in its own window. */
  lemma DeviceInWindow(root: nat, mems: seq<Memory>, ws: seq<Window>, ds: seq<Device>, virts: seq<nat>, j: nat, b: nat)
    requires IsMmioRun(root, mems, ws) && AllAnswer(ds, ws, virts) && j < |ds| && virts[j] != 0 && b < ds[j].size
    ensures TopPage(ws[j].base) <= Page(virts[j] + b) < TopPage(EndOf(ws[j]))
  {
    hide RangeMapped, Page, TopPage, Answers;
    assert CallAt(root, mems, ws, j) && Answers(ds[j], ws[j], virts[j]);
    WindowStarts(root, mems, ws, j);
    AnswerIs(ds[j], ws[j], virts[j]);
    InWindow(ws[j].base, ds[j], b);
  }

  lemma AnswerIs(d: Device, w: Window, virt: nat)
    requires Answers(d, w, virt) && virt != 0
    ensures w.pages == PagesOf(d) && virt == w.base + d.phys % 4096
    ensures w.base % 4096 == 0 ==> virt - virt % 4096 == w.base && PagesFor(d.size, virt % 4096) == w.pages
  {}

  /** Windows of a run and their pages: another window's pages are none of this one's. */
  lemma OtherPages(root: nat, mems: seq<Memory>, ws: seq<Window>, i: nat, j: nat, page: int)
    requires IsMmioRun(root, mems, ws) && i < |ws| && j < |ws| && i != j
    requires TopPage(ws[j].base) <= page < TopPage(EndOf(ws[j]))
    ensures !(TopPage(ws[i].base) <= page < TopPage(EndOf(ws[i])))
  {
    hide RangeMapped;
    if i < j { WindowsApart(root, mems, ws, i, j); } else { WindowsApart(root, mems, ws, j, i); }
  }

  /** After the unmap of one device: its pages are as before its call, and every other device is still reached. */
  lemma UnmapOne(root: nat, mems: seq<Memory>, ws: seq<Window>, ds: seq<Device>, virts: seq<nat>, i: nat, mem': Memory)
    requires IsMmioRun(root, mems, ws) && AllAnswer(ds, ws, virts) && i < |ds| && virts[i] != 0
    requires WindowClear(mems[0], root, ws[0].base)
    requires forall j :: 0 <= j < |ds| ==> ds[j].phys + ds[j].size <= 0x10_0000_0000_0000
    requires RangeCleared(mems[|ws|], mem', root, ws[i].base, ws[i].pages)
    ensures OnlyOneGone(root, mems, ws, ds, virts, i, mem')
  {
    hide RangeMapped, RangeCleared, WindowClear, Flat, Page, TopPage, Answers, CallAt, Reaches, EndOf;
    forall v: nat ensures Flat(mem', root, v)
      == if TopPage(ws[i].base) <= Page(v) < TopPage(EndOf(ws[i])) then Flat(mems[i], root, v) else Flat(mems[|ws|], root, v)
    {
      UnmapRestores(root, mems, ws, i, mem', v);
    }
    forall j, b: nat | 0 <= j < |ds| && j != i && virts[j] != 0 && b < ds[j].size
      ensures Reaches(mem', root, virts[j], ds[j], b)
    {
      RunTranslates(root, mems, ws, ds, virts, j, b);
      DeviceInWindow(root, mems, ws, ds, virts, j, b);
      OtherPages(root, mems, ws, i, j, Page(virts[j] + b));
      ReachesKept(mems[|ws|], mem', root, virts[j], ds[j], b);
    }
  }

  /** The window of device i is as it was before its call, and all other devices are where their drivers were told. */
  ghost predicate OnlyOneGone(root: nat, mems: seq<Memory>, ws: seq<Window>, ds: seq<Device>, virts: seq<nat>, i: nat, mem': Memory)
    requires |mems| == |ws| + 1 && |ds| == |ws| == |virts| && i < |ws|
  {
    && (forall v: nat :: TopPage(ws[i].base) <= Page(v) < TopPage(EndOf(ws[i])) ==> Flat(mem', root, v) == Flat(mems[i], root, v))
    && (forall j, b: nat :: 0 <= j < |ds| && j != i && virts[j] != 0 && b < ds[j].size ==> Reaches(mem', root, virts[j], ds[j], b))
  }

  lemma {:induction false} TotalSplit(ds: seq<Device>, i: nat)
    requires i < |ds|
    ensures TotalPages(ds[i..]) == PagesOf(ds[i]) + TotalPages(ds[i + 1..])
  {
    assert ds[i..][1..] == ds[i + 1..];
  }

  /** One more call at the end of a run. */
  lemma RunGrows(root: nat, mems: seq<Memory>, ws: seq<Window>, w: Window, mem: Memory)
    requires IsMmioRun(root, mems, ws) && w.mapped <= w.pages && w.base % 4096 == 0 && EndOf(w) <= TOP
    requires if ws == [] then MMIO_BASE <= w.base else w.base == EndOf(ws[|ws| - 1])
    requires RangeMapped(mems[|ws|], mem, root, w.base, w.mapped, w.phys, UNCACHED)
    ensures IsMmioRun(root, mems + [mem], ws + [w])
  {
    hide RangeMapped;
    var ms, us := mems + [mem], ws + [w];
    forall i | 0 <= i < |us| ensures CallAt(root, ms, us, i) {
      if i < |ws| {
        assert CallAt(root, mems, ws, i);
      }
    }
  }

  lemma RangeStarts(mem: Memory, root: nat, virt: nat, phys: nat, flags: Pte)
    ensures RangeMapped(mem, mem, root, virt, 0, phys, flags)
  {}

  lemma ClearStarts(mem: Memory, root: nat, virt: nat)
    ensures RangeCleared(mem, mem, root, virt, 0)
  {}

  lemma WindowRoom(base: nat, pages: nat)
    requires MMIO_BASE <= base && base % 4096 == 0 && base + 4096 * pages <= TOP
    ensures pages > 0 ==> Page(base) + pages <= 0x10_0000_0000
    ensures TopPage(base + 4096 * pages) == TopPage(base) + pages
  {
    if pages > 0 {
      TopPageIs(base);
    }
  }

  /** After a mapping of at most `pages` pages the window is clear beyond them. */
  lemma WindowMoves(mem: Memory, mem': Memory, root: nat, base: nat, k: nat, pages: nat, phys: nat)
    requires MMIO_BASE <= base < TOP && base % 4096 == 0 && base + 4096 * pages <= TOP && k <= pages
    requires WindowClear(mem, root, base) && RangeMapped(mem, mem', root, base, k, phys, UNCACHED)
    ensures WindowClear(mem', root, base + 4096 * pages)
  {
    hide Flat, MakePte, Page;
    WindowRoom(base, pages);
    TopPageIs(base);
  }

  /** The framebuffer as start-up maps it: its first page and the number of pages, 0 if there is none. */
  datatype Framebuffer = Framebuffer(first: nat, pages: nat)

  function FramebufferOf(addr: nat, size: nat): Framebuffer {
    Framebuffer(addr / 4096, if addr == 0 then 0 else (size + 4095) / 4096 + 1)
  }

  /** Every byte of a framebuffer lies in those pages, and at most two pages more than its bytes fill are among them. */
  lemma FramebufferCovered(addr: nat, size: nat, b: nat)
    requires addr != 0
    ensures var fb := FramebufferOf(addr, size);
      && (b < size ==> fb.first <= (addr + b) / 4096 < fb.first + fb.pages)
      && 4096 * fb.pages < size + 2 * 4096
  {
    var fb, n := FramebufferOf(addr, size), (size + 4095) / 4096;
    if b < size {
      assert addr + b < 4096 * (addr / 4096 + 1) + 4096 * n;
    }
  }

  /** The flat map that start-up builds: kernel over framebuffer over the identity map of the first 16 MB. */
  function InitialEntry(fb: Framebuffer, page: nat): Pte {
    if 0xF_FFF8_0100 <= page < 0xF_FFF8_0500 then MakePte(0x10_0000 + 4096 * (page - 0xF_FFF8_0100), WRITABLE)
    else if fb.first <= page < fb.first + fb.pages then MakePte(4096 * page, UNCACHED)
    else if page < 0x1000 then MakePte(4096 * page, WRITABLE)
    else 0
  }

  lemma InitialIs(m0: Memory, m1: Memory, m2: Memory, m3: Memory, root: nat, fb: Framebuffer, v: nat)
    requires forall u: nat :: Flat(m0, root, u) == 0
    requires RangeMapped(m0, m1, root, 0, 0x1000, 0, WRITABLE)
    requires fb.first + fb.pages <= 0x10_0000_0000
    requires if fb.pages == 0 then m2 == m1 else RangeMapped(m1, m2, root, 4096 * fb.first, fb.pages, 4096 * fb.first, UNCACHED)
    requires RangeMapped(m2, m3, root, 0xFFFF_FFFF_8010_0000, 0x400, 0x10_0000, WRITABLE)
    ensures Flat(m3, root, v) == InitialEntry(fb, Page(v))
  {
    hide Flat, MakePte;
    assert Page(0xFFFF_FFFF_8010_0000) == 0xF_FFF8_0100 && Page(0) == 0;
    if fb.pages > 0 {
      assert Page(4096 * fb.first) == fb.first;
    }
  }

  /** Where start-up lets an address lead: the four megabytes of the kernel at 0xFFFFFFFF80100000 to the physical memory
      from one megabyte on, the framebuffer and the first sixteen megabytes to themselves, and nothing else anywhere. */
  lemma InitialTranslates(mem: Memory, root: nat, fb: Framebuffer, v: nat)
    requires forall u: nat :: Flat(mem, root, u) == InitialEntry(fb, Page(u))
    requires fb.first + fb.pages <= 0x8_0000_0000
    ensures 0xFFFF_FFFF_8010_0000 <= v < 0xFFFF_FFFF_8050_0000 ==> Translate(mem, root, v) == Some(v - 0xFFFF_FFFF_8000_0000)
    ensures v < 0x100_0000 || 4096 * fb.first <= v < 4096 * (fb.first + fb.pages) ==> Translate(mem, root, v) == Some(v)
    ensures 0x100_0000 <= v < 0x8000_0000_0000 && !(4096 * fb.first <= v < 4096 * (fb.first + fb.pages)) ==> Translate(mem, root, v) == None
  {
    hide Flat, MakePte, Page, FrameOf, Present;
    assert Flat(mem, root, v) == InitialEntry(fb, Page(v));
    if 0xFFFF_FFFF_8010_0000 <= v < 0xFFFF_FFFF_8050_0000 {
      KernelPage(v);
      Leads(0x10_0000 + 4096 * (Page(v) - 0xF_FFF8_0100), WRITABLE);
    } else if v < 0x8000_0000_0000 {
      LowPage(v);
      Leads(4096 * Page(v), WRITABLE);
      Leads(4096 * Page(v), UNCACHED);
      NotPresent();
    }
  }

  /** An entry made for an aligned frame leads to it. */
  lemma Leads(phys: nat, flags: Pte)
    requires phys % 4096 == 0 && phys < 0x10_0000_0000_0000
    ensures Present(MakePte(phys, flags)) && FrameOf(MakePte(phys, flags)) == phys
  {
    hide MakePte, FrameOf, Present;
    MakePteIs(phys, flags);
  }

  lemma NotPresent()
    ensures !Present(0)
  {}

  lemma KernelPage(v: nat)
    requires 0xFFFF_FFFF_8010_0000 <= v < 0xFFFF_FFFF_8050_0000
    ensures var page := Page(v);
      0xF_FFF8_0100 <= page < 0xF_FFF8_0500 && 0x10_0000 + 4096 * (page - 0xF_FFF8_0100) + v % 4096 == v - 0xFFFF_FFFF_8000_0000
  {}

  lemma LowPage(v: nat)
    requires v < 0x8000_0000_0000
    ensures Page(v) == v / 4096 < 0x8_0000_0000
  {}

  /** The window is clear of everything start-up maps, if the framebuffer lies below it. */
  lemma InitialWindowClear(mem: Memory, root: nat, fb: Framebuffer)
    requires forall v: nat :: Flat(mem, root, v) == InitialEntry(fb, Page(v))
    requires fb.first + fb.pages <= 0xF_FFF9_0000
    ensures WindowClear(mem, root, MMIO_BASE)
  {
    hide Flat, MakePte;
  }

  /** A frame of zeros is a tree by itself. */
  lemma EmptyTree(mem: Memory, root: nat)
    requires root in mem && mem[root] == Empty()
    ensures Tree(mem, root) && Links(mem, root) && forall v: nat :: Flat(mem, root, v) == 0
    ensures forall p :: IsPath(p, 3) && TableAt(mem, root, p).Some? ==> p == []
  {
    forall p | IsPath(p, 3) && p != [] ensures TableAt(mem, root, p) == None {
      assert p[..1][..0] == [];
      assert TableAt(mem, root, p[..1]) == None;
      NothingBelow(mem, root, p[..1], p);
    }
  }

  lemma EmptyOwned(mem: Memory, root: nat, bits: seq<bool>)
    requires root in mem && mem[root] == Empty() && OwnedFrame(root, bits)
    ensures Owned(mem, root, bits)
  {
    EmptyTree(mem, root);
  }

  class Vmm {
    const pmm: PhysicalMemory.Bitmap
    var frames: Memory
    var pml4: nat
    var mmioNext: nat

    ghost predicate Valid(root: nat)
      reads this`frames, pmm`used, pmm.words
    {
      && pmm.Valid() && 0 < pmm.max && pmm.Bits()[0]
      && AllFrames(frames, pmm.max)
      && Tree(frames, root) && Links(frames, root) && Owned(frames, root, pmm.Bits())
    }

    constructor (pmm: PhysicalMemory.Bitmap, frames: Memory)
      ensures this.pmm == pmm && this.frames == frames && pml4 == 0 && mmioNext == MMIO_BASE
    {
      this.pmm, this.frames, pml4, mmioNext := pmm, frames, 0, MMIO_BASE;
    }

    // one level of get_pte
    method Step(ghost root: nat, ghost p: seq<nat>, f: nat, i: nat, create: bool) returns (ok: bool, child: nat)
      requires Valid(root) && IsPath(p, 2) && TableAt(frames, root, p) == Some(f) && i < 512
      modifies this`frames, pmm`used, pmm.words
      ensures Valid(root) && SameEntries(old(frames), frames, root)
      ensures ok ==> TableAt(frames, root, p + [i]) == Some(child)
      ensures !create ==> frames == old(frames) && pmm.State() == old(pmm.State()) && (!ok ==> TableAt(frames, root, p + [i]) == None)
    {
      hide Hang, Tree, Owned, Entry, Links;
      assert (p + [i])[..|p|] == p && IsPath(p, 3);
      assert f in frames by { InMemory(frames, root, p); }
      if !Present(frames[f][i]) {
        if !create { return false, 0; }
        ghost var bits := pmm.Bits();
        var t, s := pmm.AllocateBlocks(1);
        if t == 0 {
          RefusedOwned(frames, root, bits, pmm.Bits());
          return false, 0;
        }
        HangOwned(frames, root, bits, p, f, i, s);
        assert pmm.Bits() == bits[s := true];
        frames := frames[t := Empty()];
        frames := frames[f := frames[f][i := LinkTo(t)]];
        assert frames == Hang(old(frames), f, i, t) by { HangIs(old(frames), f, i, t); }
        return true, t;
      }
      return true, FrameOf(frames[f][i]);
    }

    // get_pte
    method GetPte(root: nat, virt: nat, create: bool) returns (found: bool, table: nat)
      requires Valid(root)
      modifies this`frames, pmm`used, pmm.words
      ensures Valid(root) && SameEntries(old(frames), frames, root)
      ensures found ==> TableAt(frames, root, PathOf(virt)[..3]) == Some(table)
      ensures !create ==> frames == old(frames) && pmm.State() == old(pmm.State())
      ensures !create && !found ==> TableAt(frames, root, PathOf(virt)[..3]) == None
    {
      hide Tree, Owned, Entry, TableAt, Links;
      var p := PathOf(virt);
      assert p[..1] == [] + [p[0]] && p[..2] == p[..1] + [p[1]] && p[..3] == p[..2] + [p[2]];
      RootPath(frames, root);
      var pdpt: nat, pd: nat;
      found, pdpt := Step(root, [], root, p[0], create);
      if !found {
        if !create { NothingBelow(frames, root, p[..1], p[..3]); }
        return false, 0;
      }
      found, pd := Step(root, p[..1], pdpt, p[1], create);
      if !found {
        if !create { NothingBelow(frames, root, p[..2], p[..3]); }
        return false, 0;
      }
      found, table := Step(root, p[..2], pd, p[2], create);
    }

    // vmm_map
    method Map(root: nat, phys: nat, virt: nat, flags: Pte) returns (ok: bool)
      requires Valid(root)
      modifies this`frames, pmm`used, pmm.words
      ensures Valid(root) && Remapped(old(frames), frames, root, virt, if ok then Some(MakePte(phys, flags)) else None)
    {
      hide Tree, Owned, Entry, TableAt, MakePte, PathOf, Page, Links;
      var found, table := GetPte(root, virt, true);
      if !found { return false; }
      var p := PathOf(virt);
      WriteLast(frames, root, p, table, MakePte(phys, flags));
      WriteRemaps(old(frames), frames, root, virt, table, MakePte(phys, flags));
      WriteOwned(frames, root, p, table, MakePte(phys, flags), pmm.Bits());
      WriteKeepsLinks(frames, root, p, table, MakePte(phys, flags));
      frames := frames[table := frames[table][p[3] := MakePte(phys, flags)]];
      ok := true;
    }

    // vmm_unmap
    method Unmap(root: nat, virt: nat)
      requires Valid(root)
      modifies this`frames, pmm`used, pmm.words
      ensures Valid(root) && Remapped(old(frames), frames, root, virt, Some(0))
    {
      hide Tree, Owned, Entry, TableAt, PathOf, Page, Links;
      var found, table := GetPte(root, virt, false);
      if !found {
        MissingIsZero(frames, root, virt);
        return;
      }
      var p := PathOf(virt);
      WriteLast(frames, root, p, table, 0);
      WriteRemaps(old(frames), frames, root, virt, table, 0);
      WriteOwned(frames, root, p, table, 0, pmm.Bits());
      WriteKeepsLinks(frames, root, p, table, 0);
      frames := frames[table := frames[table][p[3] := 0]];
    }

    // vmm_get_phys
    method GetPhys(root: nat, virt: nat) returns (phys: nat)
      requires Valid(root)
      modifies this`frames, pmm`used, pmm.words
      ensures Valid(root) && frames == old(frames)
      ensures phys == if Present(Flat(frames, root, virt)) then FrameOf(Flat(frames, root, virt)) else 0
    {
      hide Tree, Owned, PathOf, Links;
      var found, table := GetPte(root, virt, false);
      if !found { return 0; }
      InMemory(frames, root, PathOf(virt)[..3]);
      var e := frames[table][PathOf(virt)[3]];
      if !Present(e) { return 0; }
      return FrameOf(e);
    }

    // alloc_table, for a new top-level table
    method NewRoot() returns (root: nat)
      requires pmm.Valid() && 0 < pmm.max && pmm.Bits()[0] && AllFrames(frames, pmm.max)
      modifies this`frames, pmm`used, pmm.words
      ensures root != 0 ==> Valid(root) && forall v: nat :: Flat(frames, root, v) == 0
    {
      hide Tree, Owned, Links, Flat;
      var t, s := pmm.AllocateBlocks(1);
      if t == 0 { return 0; }
      frames := frames[t := Empty()];
      EmptyTree(frames, t);
      EmptyOwned(frames, t, pmm.Bits());
      root := t;
    }

    // the page-by-page mapping loops of vmm_init and mmio_map
    method MapRange(root: nat, phys: nat, virt: nat, n: nat, flags: Pte) returns (ok: bool, ghost k: nat)
      requires Valid(root) && Page(virt) + n <= 0x10_0000_0000
      modifies this`frames, pmm`used, pmm.words
      ensures Valid(root) && RangeMapped(old(frames), frames, root, virt, k, phys, flags) && k <= n && (ok ==> k == n)
    {
      hide Tree, Owned, Links, MakePte, Flat, Page, RangeMapped, Remapped;
      k := 0;
      RangeStarts(frames, root, virt, phys, flags);
      var i := 0;
      while i < n
        invariant i == k <= n && Valid(root)
        invariant RangeMapped(old(frames), frames, root, virt, k, phys, flags)
      {
        ghost var before := frames;
        var mapped := Map(root, phys + 4096 * i, virt + 4096 * i, flags);
        if !mapped {
          RangeSame(old(frames), before, frames, root, virt, k, phys, flags, virt + 4096 * i);
          return false, k;
        }
        RangeGrows(old(frames), before, frames, root, virt, k, phys, flags);
        i, k := i + 1, k + 1;
      }
      ok := true;
    }

    // vmm_init; fbAddr and fbSize describe the framebuffer, fbAddr == 0 if there is none
    method Init(fbAddr: nat, fbSize: nat) returns (ok: bool)
      requires pmm.Valid() && 0 < pmm.max && pmm.Bits()[0] && AllFrames(frames, pmm.max)
      requires FramebufferOf(fbAddr, fbSize).first + FramebufferOf(fbAddr, fbSize).pages <= 0x10_0000_0000
      modifies this`frames, this`pml4, pmm`used, pmm.words
      ensures ok ==> Valid(pml4) && pml4 != 0
      ensures ok ==> forall v: nat :: Flat(frames, pml4, v) == InitialEntry(FramebufferOf(fbAddr, fbSize), Page(v))
      ensures ok ==> forall v: nat :: Flat(frames, pml4, v) != 0 ==> Writes(frames, pml4, v)
    {
      hide Tree, Owned, Links, MakePte, Flat, RangeMapped;
      var root := NewRoot();
      if root == 0 { return false; }
      ghost var m0 := frames;
      ghost var k: nat;
      ok, k := MapRange(root, 0, 0, 0x1000, WRITABLE);
      if !ok { return; }
      ghost var m1 := frames;
      if fbAddr != 0 {
        var start := fbAddr / 4096 * 4096;
        ok, k := MapRange(root, start, start, (fbSize + 4095) / 4096 + 1, UNCACHED);
        if !ok { return; }
      }
      ghost var m2 := frames;
      ok, k := MapRange(root, 0x10_0000, 0xFFFF_FFFF_8010_0000, 0x400, WRITABLE);
      if !ok { return; }
      forall v: nat ensures Flat(frames, root, v) == InitialEntry(FramebufferOf(fbAddr, fbSize), Page(v)) {
        InitialIs(m0, m1, m2, frames, root, FramebufferOf(fbAddr, fbSize), v);
      }
      forall v: nat | Flat(frames, root, v) != 0 ensures Writes(frames, root, v) {
        InitialAllows(FramebufferOf(fbAddr, fbSize), Page(v));
        WritesIff(frames, root, v);
      }
      pml4 := root;
    }

    // mmio_map
    method MmioMap(phys: nat, size: nat) returns (virt: nat, ghost k: nat)
      requires pml4 != 0 ==> Valid(pml4) && WindowClear(frames, pml4, mmioNext)
      requires MMIO_BASE <= mmioNext && mmioNext % 4096 == 0 && mmioNext + 4096 * PagesFor(size, phys % 4096) <= TOP
      modifies this`frames, this`mmioNext, pmm`used, pmm.words
      ensures old(pml4) == 0 ==> virt == 0 && mmioNext == old(mmioNext) && frames == old(frames)
      ensures pml4 != 0 ==> Valid(pml4) && WindowClear(frames, pml4, mmioNext) && mmioNext == old(mmioNext) + 4096 * PagesFor(size, phys % 4096)
      ensures pml4 != 0 ==> RangeMapped(old(frames), frames, pml4, old(mmioNext), k, phys - phys % 4096, UNCACHED) && k <= PagesFor(size, phys % 4096)
      ensures virt != 0 ==> k == PagesFor(size, phys % 4096) && virt == old(mmioNext) + phys % 4096
      ensures virt != 0 && phys + size <= 0x10_0000_0000_0000 ==>
                forall b: nat :: b < size ==> Usable(frames, pml4, virt, Device(phys, size), b)
    {
      hide Tree, Owned, Links, MakePte, Flat, RangeMapped, WindowClear, Page, PagesFor, Valid, TopPage, Translate, Writes;
      k := 0;
      if pml4 == 0 { return 0, 0; }
      var aligned := phys - phys % 4096;
      var offset := phys - aligned;
      var pages := PageCount(size, offset);
      var base := mmioNext;
      mmioNext := mmioNext + pages * 4096;
      var ok: bool;
      WindowRoom(base, pages);
      if pages == 0 {
        NoPages(size, offset);
        RangeStarts(frames, pml4, base, aligned, UNCACHED);
        return base + offset, 0;
      }
      ok, k := MapRange(pml4, aligned, base, pages, UNCACHED);
      WindowMoves(old(frames), frames, pml4, base, k, pages, aligned);
      if !ok { return 0, k; }
      virt := base + offset;
      ValidLinks(pml4);
      if phys + size <= 0x10_0000_0000_0000 {
        forall b: nat | b < size ensures Usable(frames, pml4, virt, Device(phys, size), b) {
          MmioTranslates(old(frames), frames, pml4, base, phys, size, b);
          ReachedWrites(frames, pml4, virt, Device(phys, size), b);
        }
      }
    }

    lemma ValidLinks(root: nat)
      requires Valid(root)
      ensures Links(frames, root)
    {}

    method PageCount(size: nat, offset: nat) returns (pages: nat)
      ensures pages == PagesFor(size, offset)
    {
      pages := (size + offset + 4095) / 4096;
    }

    /** Device drivers asking for their registers one after another. */
    method MapDevices(ds: seq<Device>) returns (virts: seq<nat>, ghost mems: seq<Memory>, ghost ws: seq<Window>)
      requires pml4 != 0 && Valid(pml4) && WindowClear(frames, pml4, mmioNext)
      requires MMIO_BASE <= mmioNext && mmioNext % 4096 == 0 && mmioNext + 4096 * TotalPages(ds) <= TOP
      modifies this`frames, this`mmioNext, pmm`used, pmm.words
      ensures Valid(pml4) && WindowClear(frames, pml4, mmioNext) && mmioNext == old(mmioNext) + 4096 * TotalPages(ds)
      ensures IsMmioRun(pml4, mems, ws) && AllAnswer(ds, ws, virts) && mems[0] == old(frames) && mems[|ws|] == frames
      ensures ws != [] ==> ws[0].base == old(mmioNext)
    {
      hide Flat, RangeMapped, WindowClear, IsMmioRun, Valid, AllAnswer, PagesFor, EndOf, TotalPages;
      virts, mems, ws := [], [frames], [];
      RunStarts(pml4, frames, ds);
      var i := 0;
      while i < |ds|
        invariant i <= |ds| && Valid(pml4) && WindowClear(frames, pml4, mmioNext)
        invariant MMIO_BASE <= mmioNext && mmioNext % 4096 == 0
        invariant mmioNext + 4096 * TotalPages(ds[i..]) == old(mmioNext) + 4096 * TotalPages(ds)
        invariant |mems| == |ws| + 1 && mems[0] == old(frames) && mems[|ws|] == frames && IsMmioRun(pml4, mems, ws)
        invariant if ws == [] then mmioNext == old(mmioNext) else ws[0].base == old(mmioNext) && mmioNext == EndOf(ws[|ws| - 1])
        invariant AllAnswer(ds[..i], ws, virts)
      {
        TotalSplit(ds, i);
        var virt, w := MapDevice(ds[i]);
        RunGrows(pml4, mems, ws, w, frames);
        AnswersOne(ds, i, ws, virts, w, virt);
        virts, mems, ws := virts + [virt], mems + [frames], ws + [w];
        i := i + 1;
      }
      assert ds[..i] == ds;
      RunEnds(ds);
    }

    /** One request, with the window it took. */
    method MapDevice(d: Device) returns (virt: nat, ghost w: Window)
      requires pml4 != 0 && Valid(pml4) && WindowClear(frames, pml4, mmioNext)
      requires MMIO_BASE <= mmioNext && mmioNext % 4096 == 0 && mmioNext + 4096 * PagesOf(d) <= TOP
      modifies this`frames, this`mmioNext, pmm`used, pmm.words
      ensures Valid(pml4) && WindowClear(frames, pml4, mmioNext) && mmioNext == EndOf(w) == old(mmioNext) + 4096 * PagesOf(d)
      ensures w.base == old(mmioNext) && w.mapped <= w.pages && Answers(d, w, virt)
      ensures RangeMapped(old(frames), frames, pml4, w.base, w.mapped, w.phys, UNCACHED)
    {
      hide Flat, RangeMapped, WindowClear, Valid;
      ghost var k: nat;
      w := Window(mmioNext, PagesOf(d), 0, d.phys - d.phys % 4096);
      virt, k := MmioMap(d.phys, d.size);
      w := w.(mapped := k);
    }

    /** Start-up and then the device drivers: at the end every mapped device is where its driver was told. */
    method BringUp(fbAddr: nat, fbSize: nat, ds: seq<Device>) returns (ok: bool, virts: seq<nat>)
      requires pmm.Valid() && 0 < pmm.max && pmm.Bits()[0] && AllFrames(frames, pmm.max) && mmioNext == MMIO_BASE
      requires FramebufferOf(fbAddr, fbSize).first + FramebufferOf(fbAddr, fbSize).pages <= 0xF_FFF9_0000
      requires MMIO_BASE + 4096 * TotalPages(ds) <= TOP
      requires forall i :: 0 <= i < |ds| ==> ds[i].phys + ds[i].size <= 0x10_0000_0000_0000
      modifies this`frames, this`pml4, this`mmioNext, pmm`used, pmm.words
      ensures ok ==> Valid(pml4) && |virts| == |ds|
      ensures ok ==> forall i, b: nat :: 0 <= i < |ds| && b < ds[i].size && virts[i] != 0 ==>
                Usable(frames, pml4, virts[i], ds[i], b)
      ensures ok ==> forall v: nat :: Page(v) < TopPage(MMIO_BASE) ==>
                Flat(frames, pml4, v) == InitialEntry(FramebufferOf(fbAddr, fbSize), Page(v))
    {
      hide Valid, Tree, Owned, Links, Flat, RangeMapped, WindowClear, CallAt, Answers, Reaches, InitialEntry, Page, TopPage, Writes, TotalPages, Usable;
      ok := Init(fbAddr, fbSize);
      if !ok { return false, []; }
      ghost var initial := frames;
      InitialWindowClear(frames, pml4, FramebufferOf(fbAddr, fbSize));
      ghost var mems, ws;
      virts, mems, ws := MapDevices(ds);
      ValidLinks(pml4);
      AllReached(pml4, mems, ws, ds, virts, frames);
      AllBelowKept(pml4, mems, ws, frames);
    }

    // mmio_unmap
    method MmioUnmap(virt: nat, size: nat) returns (code: int)
      requires pml4 != 0 ==> Valid(pml4)
      requires Page(virt - virt % 4096) + PagesFor(size, virt % 4096) <= 0x10_0000_0000
      modifies this`frames, pmm`used, pmm.words
      ensures code == if pml4 == 0 then -1 else 0
      ensures pml4 == 0 ==> frames == old(frames)
      ensures pml4 != 0 ==> Valid(pml4) && RangeCleared(old(frames), frames, pml4, virt - virt % 4096, PagesFor(size, virt % 4096))
    {
      hide Tree, Owned, Links, Flat, RangeCleared, Remapped, Page;
      if pml4 == 0 { return -1; }
      var aligned := virt - virt % 4096;
      var offset := virt - aligned;
      var pages := PageCount(size, offset);
      ClearStarts(frames, pml4, aligned);
      var i := 0;
      while i < pages
        invariant i <= pages && Valid(pml4)
        invariant RangeCleared(old(frames), frames, pml4, aligned, i)
      {
        ghost var before := frames;
        Unmap(pml4, aligned + 4096 * i);
        ClearGrows(old(frames), before, frames, pml4, aligned, i);
        i := i + 1;
      }
      return 0;
    }

    /** Devices mapped one after another, and then one of them given up. */
    method MapThenUnmap(ds: seq<Device>, i: nat) returns (virts: seq<nat>, ghost mems: seq<Memory>, ghost ws: seq<Window>)
      requires pml4 != 0 && Valid(pml4) && WindowClear(frames, pml4, mmioNext)
      requires MMIO_BASE <= mmioNext && mmioNext % 4096 == 0 && mmioNext + 4096 * TotalPages(ds) <= TOP
      requires i < |ds| && forall j :: 0 <= j < |ds| ==> ds[j].phys + ds[j].size <= 0x10_0000_0000_0000
      modifies this`frames, this`mmioNext, pmm`used, pmm.words
      ensures Valid(pml4) && IsMmioRun(pml4, mems, ws) && AllAnswer(ds, ws, virts) && mems[0] == old(frames)
      ensures virts[i] != 0 ==> OnlyOneGone(pml4, mems, ws, ds, virts, i, frames)
    {
      hide Flat, RangeMapped, RangeCleared, WindowClear, CallAt, Valid, Answers, EndOf, TotalPages, OnlyOneGone, Page;
      virts, mems, ws := MapDevices(ds);
      if virts[i] != 0 {
        UnmapRoom(pml4, mems, ws, ds, virts, i);
        var code := MmioUnmap(virts[i], ds[i].size);
        UnmapOne(pml4, mems, ws, ds, virts, i, frames);
      }
    }
  }

  lemma NoPages(size: nat, offset: nat)
    requires PagesFor(size, offset) == 0
    ensures size == 0
  {}

  lemma UnmapRoom(root: nat, mems: seq<Memory>, ws: seq<Window>, ds: seq<Device>, virts: seq<nat>, i: nat)
    requires IsMmioRun(root, mems, ws) && AllAnswer(ds, ws, virts) && i < |ds| && virts[i] != 0
    ensures var virt, size := virts[i], ds[i].size;
      && virt - virt % 4096 == ws[i].base && PagesFor(size, virt % 4096) == ws[i].pages
      && Page(virt - virt % 4096) + PagesFor(size, virt % 4096) <= 0x10_0000_0000
  {
    hide RangeMapped, Page, Answers;
    assert CallAt(root, mems, ws, i) && Answers(ds[i], ws[i], virts[i]);
    WindowStarts(root, mems, ws, i);
    AnswerIs(ds[i], ws[i], virts[i]);
    WindowRoom(ws[i].base, ws[i].pages);
    PageBound(ws[i].base);
  }

  lemma PageBound(v: nat)
    ensures Page(v) < 0x10_0000_0000
  {}

  lemma RunStarts(root: nat, mem: Memory, ds: seq<Device>)
    ensures IsMmioRun(root, [mem], []) && AllAnswer(ds[..0], [], []) && ds[0..] == ds
  {}

  lemma RunEnds(ds: seq<Device>)
    ensures TotalPages(ds[|ds|..]) == 0
  {}

  lemma AnswersOne(ds: seq<Device>, i: nat, ws: seq<Window>, virts: seq<nat>, w: Window, virt: nat)
    requires i < |ds| && AllAnswer(ds[..i], ws, virts) && Answers(ds[i], w, virt)
    ensures AllAnswer(ds[..i + 1], ws + [w], virts + [virt])
  {
    hide Answers;
    forall j | 0 <= j < i ensures Answers(ds[j], ws[j], virts[j]) {
      assert Answers(ds[..i][j], ws[j], virts[j]);
    }
  }

  /** Nothing below the windows changes. */
  lemma {:induction false} BelowKept(root: nat, mems: seq<Memory>, ws: seq<Window>, j: nat, v: nat)
    requires IsMmioRun(root, mems, ws) && j <= |ws| && Page(v) < TopPage(MMIO_BASE)
    ensures Flat(mems[j], root, v) == Flat(mems[0], root, v)
  {
    hide Flat, Page, MakePte;
    if j > 0 {
      BelowKept(root, mems, ws, j - 1, v);
      assert CallAt(root, mems, ws, j - 1);
      WindowStarts(root, mems, ws, j - 1);
      if ws[j - 1].mapped > 0 {
        TopPageIs(ws[j - 1].base);
      }
    }
  }

  lemma AllBelowKept(root: nat, mems: seq<Memory>, ws: seq<Window>, mem: Memory)
    requires IsMmioRun(root, mems, ws) && mem == mems[|ws|]
    ensures forall v: nat :: Page(v) < TopPage(MMIO_BASE) ==> Flat(mem, root, v) == Flat(mems[0], root, v)
  {
    hide Flat, Page, TopPage, CallAt;
    forall v: nat | Page(v) < TopPage(MMIO_BASE) ensures Flat(mem, root, v) == Flat(mems[0], root, v) {
      BelowKept(root, mems, ws, |ws|, v);
    }
  }

  /** At the end of a run every byte of every mapped device is reached and can be written. */
  lemma AllReached(root: nat, mems: seq<Memory>, ws: seq<Window>, ds: seq<Device>, virts: seq<nat>, mem: Memory)
    requires IsMmioRun(root, mems, ws) && AllAnswer(ds, ws, virts) && mem == mems[|ws|] && Links(mem, root)
    requires forall i :: 0 <= i < |ds| ==> ds[i].phys + ds[i].size <= 0x10_0000_0000_0000
    ensures forall i, b: nat :: 0 <= i < |ds| && b < ds[i].size && virts[i] != 0 ==>
              Usable(mem, root, virts[i], ds[i], b)
  {
    hide Flat, CallAt, Answers, Reaches, Writes, Links;
    forall i, b: nat | 0 <= i < |ds| && b < ds[i].size && virts[i] != 0
      ensures Usable(mem, root, virts[i], ds[i], b)
    {
      RunTranslates(root, mems, ws, ds, virts, i, b);
      ReachedWrites(mem, root, virts[i], ds[i], b);
    }
  }

  lemma RootPath(mem: Memory, root: nat)
    ensures TableAt(mem, root, []) == Some(root)
  {}

  lemma InMemory(mem: Memory, root: nat, p: seq<nat>)
    requires Tree(mem, root) && IsPath(p, 3) && TableAt(mem, root, p).Some?
    ensures TableAt(mem, root, p).value in mem
  {}

  lemma HangIs(mem: Memory, f: nat, i: nat, t: nat)
    requires f in mem && i < 512 && IsFrame(t) && t != f
    ensures Hang(mem, f, i, t) == mem[t := Empty()][f := mem[f][i := LinkTo(t)]]
  {}

  /** A refused allocation, or one that set only block 0, keeps every table allocated. */
  lemma RefusedOwned(mem: Memory, root: nat, bits: seq<bool>, bits': seq<bool>)
    requires Owned(mem, root, bits) && |bits'| == |bits| && forall b :: 0 <= b < |bits| && bits[b] ==> bits'[b]
    ensures Owned(mem, root, bits')
  {}
}
