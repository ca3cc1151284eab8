/** Four-level page tables as a tree of frames, and the flat map from pages to entries that it stands for. */
module PageTables {
  import opened Wrappers

  type Pte = e: int | 0 <= e < 0x1_0000_0000_0000_0000

  type Table = t: seq<Pte> | |t| == 512 witness seq(512, _ => 0)

  /** Physical memory by frame address, each frame read as a table. */
  type Memory = map<nat, Table>

  function Empty(): (t: Table)
    ensures forall i :: 0 <= i < 512 ==> t[i] == 0
  {
    seq(512, _ => 0)
  }

  // ----- entries -----

  predicate Present(e: Pte) {
    e % 2 == 1
  }

  /** Bit 1 of an entry: PTE_WRITABLE. */
  predicate Writable(e: Pte) {
    e / 2 % 2 == 1
  }

  /** Bits 12 to 51 of an entry. */
  function FrameOf(e: Pte): nat {
    e / 0x1000 % 0x100_0000_0000 * 0x1000
  }

  /** A frame address that an entry can hold. */
  predicate IsFrame(f: nat) {
    f % 0x1000 == 0 && f < 0x10_0000_0000_0000
  }

  /** frame | PTE_PRESENT | PTE_WRITABLE, for an aligned frame */
  function LinkTo(f: nat): (e: Pte)
    requires IsFrame(f)
    ensures Present(e) && Writable(e) && FrameOf(e) == f
  {
    LinkFields(f / 0x1000);
    f + 3
  }

  lemma LinkFields(n: nat)
    requires n < 0x100_0000_0000
    ensures (0x1000 * n + 3) % 2 == 1 && (0x1000 * n + 3) / 2 % 2 == 1
    ensures (0x1000 * n + 3) / 0x1000 % 0x100_0000_0000 == n
  {
    OddThree(0x800 * n);
    OddOne(0x400 * n);
    Quarter(n);
  }

  lemma OddThree(k: nat)
    ensures (2 * k + 3) % 2 == 1 && (2 * k + 3) / 2 == k + 1
  {}

  lemma OddOne(k: nat)
    ensures (2 * k + 1) % 2 == 1
  {}

  lemma Quarter(n: nat)
    ensures (0x1000 * n + 3) / 0x1000 == n
  {}

  /** The three fields of an entry: bits 52 to 63, bits 12 to 51, bits 0 to 11. */
  function Pack(high: nat, mid: nat, low: nat): Pte
    requires high < 0x1000 && mid < 0x100_0000_0000 && low < 0x1000
  {
    (high * 0x100_0000_0000 + mid) * 0x1000 + low
  }

  lemma PackFields(high: nat, mid: nat, low: nat)
    requires high < 0x1000 && mid < 0x100_0000_0000 && low < 0x1000
    ensures var e := Pack(high, mid, low);
      e % 0x1000 == low && e / 0x1000 % 0x100_0000_0000 == mid && e / 0x1000 / 0x100_0000_0000 == high
  {
    var e := Pack(high, mid, low);
    assert e / 0x1000 == high * 0x100_0000_0000 + mid;
  }

  /** (phys & ADDR) | (flags & ~ADDR) | PTE_PRESENT */
  function MakePte(phys: nat, flags: Pte): Pte {
    Pack(flags / 0x1000 / 0x100_0000_0000, phys / 0x1000 % 0x100_0000_0000, flags % 0x1000 / 2 * 2 + 1)
  }

  /** The entry is present, holds the frame of phys, and takes the other flag bits from `flags`. */
  lemma MakePteIs(phys: nat, flags: Pte)
    ensures var e := MakePte(phys, flags);
      && Present(e) && FrameOf(e) == phys / 0x1000 % 0x100_0000_0000 * 0x1000
      && e % 0x1000 / 2 == flags % 0x1000 / 2 && e / 0x1000 / 0x100_0000_0000 == flags / 0x1000 / 0x100_0000_0000
  {
    hide Pack;
    PackFields(flags / 0x1000 / 0x100_0000_0000, phys / 0x1000 % 0x100_0000_0000, flags % 0x1000 / 2 * 2 + 1);
    EvenPart(MakePte(phys, flags), flags % 0x1000 / 2 * 2 + 1);
  }

  lemma EvenPart(e: nat, low: nat)
    requires e % 0x1000 == low
    ensures e % 2 == low % 2
  {}

  // ----- paths -----

  /** The page number: bits 12 to 47 of the address. */
  function Page(virt: nat): nat {
    virt / 0x1000 % 0x10_0000_0000
  }

  /** The four table indices of an address. */
  function PathOf(virt: nat): (p: seq<nat>)
    ensures |p| == 4 && IsPath(p, 4)
  {
    [virt / 0x80_0000_0000 % 0x200, virt / 0x4000_0000 % 0x200, virt / 0x20_0000 % 0x200, virt / 0x1000 % 0x200]
  }

  predicate IsPath(p: seq<nat>, n: nat) {
    |p| <= n && forall i :: 0 <= i < |p| ==> p[i] < 512
  }

  /** The path of a page number, digit by digit. */
  function Digits(n: nat): seq<nat> {
    [n / 0x200 / 0x200 / 0x200 % 0x200, n / 0x200 / 0x200 % 0x200, n / 0x200 % 0x200, n % 0x200]
  }

  function Undigits(p: seq<nat>): nat
    requires |p| == 4
  {
    ((p[0] * 0x200 + p[1]) * 0x200 + p[2]) * 0x200 + p[3]
  }

  lemma ShiftParts(v: nat)
    ensures v / 0x20_0000 == v / 0x1000 / 0x200
    ensures v / 0x4000_0000 == v / 0x20_0000 / 0x200
    ensures v / 0x80_0000_0000 == v / 0x4000_0000 / 0x200
  {}

  /** Splitting off the last nine bits of 36, of 27 and of 18. */
  lemma Split36(n: nat)
    ensures n % 0x10_0000_0000 == n / 0x200 % 0x800_0000 * 0x200 + n % 0x200
  {}

  lemma Split27(n: nat)
    ensures n % 0x800_0000 == n / 0x200 % 0x4_0000 * 0x200 + n % 0x200
  {}

  lemma Split18(n: nat)
    ensures n % 0x4_0000 == n / 0x200 % 0x200 * 0x200 + n % 0x200
  {}

  lemma UndigitsDigits(n: nat)
    ensures Undigits(Digits(n)) == n % 0x10_0000_0000
  {
    Split36(n);
    Split27(n / 0x200);
    Split18(n / 0x200 / 0x200);
  }

  lemma SameParts(x: nat, y: nat, x': nat, y': nat)
    requires x * 0x200 + y == x' * 0x200 + y' && y < 0x200 && y' < 0x200
    ensures x == x' && y == y'
  {}

  lemma DigitsOfPage(n: nat, m: nat)
    requires n % 0x10_0000_0000 == m % 0x10_0000_0000
    ensures Digits(n) == Digits(m)
  {
    var n1, m1 := n / 0x200, m / 0x200;
    var n2, m2 := n1 / 0x200, m1 / 0x200;
    Split36(n);
    Split36(m);
    SameParts(n1 % 0x800_0000, n % 0x200, m1 % 0x800_0000, m % 0x200);
    Split27(n1);
    Split27(m1);
    SameParts(n2 % 0x4_0000, n1 % 0x200, m2 % 0x4_0000, m1 % 0x200);
    Split18(n2);
    Split18(m2);
    SameParts(n2 / 0x200 % 0x200, n2 % 0x200, m2 / 0x200 % 0x200, m2 % 0x200);
  }

  /** Two addresses take the same path exactly when they lie in the same page. */
  lemma SamePath(v: nat, w: nat)
    ensures PathOf(v) == PathOf(w) <==> Page(v) == Page(w)
  {
    hide Digits, Undigits;
    var n, m := v / 0x1000, w / 0x1000;
    PathIsDigits(v);
    PathIsDigits(w);
    UndigitsDigits(n);
    UndigitsDigits(m);
    if Page(v) == Page(w) {
      DigitsOfPage(n, m);
    }
  }

  lemma PathIsDigits(v: nat)
    ensures PathOf(v) == Digits(v / 0x1000)
  {
    ShiftParts(v);
  }

  /** The indices of an address and the offset in its page make up its 48 bits, nine and then twelve at a time. */
  lemma PathValue(v: nat)
    ensures var p := PathOf(v);
      p[0] * 0x80_0000_0000 + p[1] * 0x4000_0000 + p[2] * 0x20_0000 + p[3] * 0x1000 + v % 0x1000 == v % 0x1_0000_0000_0000
  {
    var n := v / 0x1000;
    PathIsDigits(v);
    UndigitsDigits(n);
    Split48(v);
  }

  lemma Split48(v: nat)
    ensures v % 0x1_0000_0000_0000 == v / 0x1000 % 0x10_0000_0000 * 0x1000 + v % 0x1000
  {}

  // ----- the tree -----

  /** The frame of the table that the path p leads to from the root. */
  function TableAt(mem: Memory, root: nat, p: seq<nat>): Option<nat>
    requires IsPath(p, 3)
    decreases |p|
  {
    if p == [] then Some(root) else
      match TableAt(mem, root, p[..|p| - 1])
      case None => None
      case Some(f) => Child(mem, f, p[|p| - 1])
  }

  function Child(mem: Memory, f: nat, i: nat): Option<nat>
    requires i < 512
  {
    if f in mem && Present(mem[f][i]) then Some(FrameOf(mem[f][i])) else None
  }

  /** Every table lies in memory, and no two paths lead to the same one. */
  ghost predicate Tree(mem: Memory, root: nat) {
    && (forall p :: IsPath(p, 3) && TableAt(mem, root, p).Some? ==> TableAt(mem, root, p).value in mem)
    && (forall p, q :: IsPath(p, 3) && IsPath(q, 3) && TableAt(mem, root, p).Some? && TableAt(mem, root, p) == TableAt(mem, root, q) ==> p == q)
  }

  /** The flat map: the entry of a page, 0 where tables are missing. */
  function Entry(mem: Memory, root: nat, p: seq<nat>): Pte
    requires |p| == 4 && IsPath(p, 4)
  {
    match TableAt(mem, root, p[..3])
    case None => 0
    case Some(f) => if f in mem then mem[f][p[3]] else 0
  }

  /** mem' holds every table of the tree as mem does, except possibly entry i of the table at p. */
  ghost predicate Agrees(mem: Memory, mem': Memory, root: nat, p: seq<nat>, i: nat) {
    forall q :: IsPath(q, 3) && TableAt(mem, root, q).Some? ==> AgreesAt(mem, mem', TableAt(mem, root, q).value, q == p, i)
  }

  predicate AgreesAt(mem: Memory, mem': Memory, f: nat, here: bool, i: nat) {
    f in mem && f in mem' && if here then forall j :: 0 <= j < 512 && j != i ==> mem'[f][j] == mem[f][j] else mem'[f] == mem[f]
  }

  /** Tables not reached through the changed entry stay where they are. */
  lemma {:induction false} TableKept(mem: Memory, mem': Memory, root: nat, p: seq<nat>, i: nat, q: seq<nat>)
    requires Agrees(mem, mem', root, p, i) && IsPath(q, 3) && !(p + [i] <= q)
    ensures TableAt(mem', root, q) == TableAt(mem, root, q)
    decreases |q|
  {
    if q != [] {
      var r, j := q[..|q| - 1], q[|q| - 1];
      assert r <= q && q == r + [j];
      TableKept(mem, mem', root, p, i, r);
      if TableAt(mem, root, r).Some? {
        assert AgreesAt(mem, mem', TableAt(mem, root, r).value, r == p, i);
      }
    }
  }

  // ----- writing a page's entry -----

  function WriteEntry(mem: Memory, f: nat, i: nat, e: Pte): Memory
    requires f in mem && i < 512
  {
    mem[f := mem[f][i := e]]
  }

  lemma WriteAgrees(mem: Memory, root: nat, p: seq<nat>, f: nat, i: nat, e: Pte)
    requires Tree(mem, root) && IsPath(p, 3) && TableAt(mem, root, p) == Some(f) && i < 512
    ensures f in mem && Agrees(mem, WriteEntry(mem, f, i, e), root, p, i)
  {
    forall q | IsPath(q, 3) && TableAt(mem, root, q).Some?
      ensures AgreesAt(mem, WriteEntry(mem, f, i, e), TableAt(mem, root, q).value, q == p, i)
    {
      if q != p && TableAt(mem, root, q) == TableAt(mem, root, p) {
        assert false;
      }
    }
  }

  /** Writing a last-level entry changes one page of the flat map and keeps the tree. */
  lemma WriteLast(mem: Memory, root: nat, p: seq<nat>, f: nat, e: Pte)
    requires Tree(mem, root) && |p| == 4 && IsPath(p, 4) && TableAt(mem, root, p[..3]) == Some(f)
    ensures f in mem
    ensures var mem' := WriteEntry(mem, f, p[3], e);
      && Tree(mem', root)
      && (forall q :: IsPath(q, 3) ==> TableAt(mem', root, q) == TableAt(mem, root, q))
      && (forall q :: |q| == 4 && IsPath(q, 4) ==> Entry(mem', root, q) == if q == p then e else Entry(mem, root, q))
  {
    var mem' := WriteEntry(mem, f, p[3], e);
    WriteAgrees(mem, root, p[..3], f, p[3], e);
    forall q | IsPath(q, 3) ensures TableAt(mem', root, q) == TableAt(mem, root, q) {
      TableKept(mem, mem', root, p[..3], p[3], q);
    }
    forall q | |q| == 4 && IsPath(q, 4)
      ensures Entry(mem', root, q) == if q == p then e else Entry(mem, root, q)
    {
      assert p == p[..3] + [p[3]] && q == q[..3] + [q[3]];
    }
  }

  // ----- hanging a fresh table into the tree -----

  /** Entry i of table f made to point at the emptied frame t. */
  function Hang(mem: Memory, f: nat, i: nat, t: nat): Memory
    requires f in mem && i < 512 && IsFrame(t) && t != f
  {
    mem[t := Empty()][f := mem[f][i := LinkTo(t)]]
  }

  /** No path leads to t. */
  ghost predicate Fresh(mem: Memory, root: nat, t: nat) {
    forall q :: IsPath(q, 3) ==> TableAt(mem, root, q) != Some(t)
  }

  lemma HangAgrees(mem: Memory, root: nat, p: seq<nat>, f: nat, i: nat, t: nat)
    requires Tree(mem, root) && IsPath(p, 2) && TableAt(mem, root, p) == Some(f) && i < 512 && IsFrame(t) && Fresh(mem, root, t)
    ensures f in mem && t != f && Agrees(mem, Hang(mem, f, i, t), root, p, i)
  {
    assert IsPath(p, 3);
    forall q | IsPath(q, 3) && TableAt(mem, root, q).Some?
      ensures AgreesAt(mem, Hang(mem, f, i, t), TableAt(mem, root, q).value, q == p, i)
    {
      if q != p && TableAt(mem, root, q) == TableAt(mem, root, p) {
        assert false;
      }
    }
  }

  /** Below an entry that is not present there is nothing. */
  lemma {:induction false} NothingBelow(mem: Memory, root: nat, p: seq<nat>, q: seq<nat>)
    requires IsPath(p, 3) && IsPath(q, 3) && p <= q && TableAt(mem, root, p) == None
    ensures TableAt(mem, root, q) == None
    decreases |q|
  {
    if p != q {
      var r := q[..|q| - 1];
      assert p <= r;
      NothingBelow(mem, root, p, r);
    }
  }

  /** Where every path leads after a fresh table t has been hung at p + [i]. */
  lemma HangPaths(mem: Memory, root: nat, p: seq<nat>, f: nat, i: nat, t: nat, q: seq<nat>)
    requires Tree(mem, root) && IsPath(p, 2) && TableAt(mem, root, p) == Some(f) && i < 512
    requires f in mem && !Present(mem[f][i]) && IsFrame(t) && t != f && Fresh(mem, root, t) && IsPath(q, 3)
    ensures TableAt(Hang(mem, f, i, t), root, q)
         == if q == p + [i] then Some(t) else if p + [i] <= q then None else TableAt(mem, root, q)
    ensures p + [i] <= q ==> TableAt(mem, root, q) == None
  {
    var mem' := Hang(mem, f, i, t);
    var n := p + [i];
    HangAgrees(mem, root, p, f, i, t);
    assert n[..|n| - 1] == p;
    if !(n <= q) {
      TableKept(mem, mem', root, p, i, q);
    } else {
      TableKept(mem, mem', root, p, i, p);
      NothingBelow(mem, root, n, q);
      if q != n {
        var m := q[..|n| + 1];
        assert m[..|m| - 1] == n;
        assert Child(mem', t, m[|m| - 1]) == None;
        NothingBelow(mem', root, m, q);
      }
    }
  }

  /** Hanging a fresh, emptied table keeps the tree and every entry of the flat map. */
  lemma HangKeeps(mem: Memory, root: nat, p: seq<nat>, f: nat, i: nat, t: nat)
    requires Tree(mem, root) && IsPath(p, 2) && TableAt(mem, root, p) == Some(f) && i < 512
    requires f in mem && !Present(mem[f][i]) && IsFrame(t) && t != f && Fresh(mem, root, t)
    ensures var mem' := Hang(mem, f, i, t);
      && Tree(mem', root) && TableAt(mem', root, p + [i]) == Some(t)
      && (forall q :: IsPath(q, 3) && TableAt(mem', root, q).Some? ==> q == p + [i] || TableAt(mem', root, q) == TableAt(mem, root, q))
      && (forall q :: |q| == 4 && IsPath(q, 4) ==> Entry(mem', root, q) == Entry(mem, root, q))
  {
    hide Hang, TableAt, Present;
    var mem' := Hang(mem, f, i, t);
    forall q | IsPath(q, 3)
      ensures TableAt(mem', root, q) == if q == p + [i] then Some(t) else if p + [i] <= q then None else TableAt(mem, root, q)
      ensures p + [i] <= q ==> TableAt(mem, root, q) == None
    {
      HangPaths(mem, root, p, f, i, t, q);
    }
    HangFrames(mem, f, i, t);
    forall q | |q| == 4 && IsPath(q, 4) ensures Entry(mem', root, q) == Entry(mem, root, q) {
      var r := q[..3];
      assert r != p;
      if TableAt(mem', root, r).Some? && r != p + [i] {
        assert TableAt(mem, root, r).value != f;
      }
    }
  }

  lemma HangFrames(mem: Memory, f: nat, i: nat, t: nat)
    requires f in mem && i < 512 && IsFrame(t) && t != f
    ensures t in Hang(mem, f, i, t) && Hang(mem, f, i, t)[t] == Empty()
    ensures forall g :: g in mem ==> g in Hang(mem, f, i, t) && (g != f && g != t ==> Hang(mem, f, i, t)[g] == mem[g])
  {}

  // ----- write permission -----

  /** The entry that the walk along p uses last. */
  function EntryTo(mem: Memory, root: nat, p: seq<nat>): Pte
    requires p != [] && IsPath(p, 4)
  {
    match TableAt(mem, root, p[..|p| - 1])
    case None => 0
    case Some(f) => if f in mem then mem[f][p[|p| - 1]] else 0
  }

  /** Every entry that leads to a table allows writing. */
  ghost predicate Links(mem: Memory, root: nat) {
    forall p :: p != [] && IsPath(p, 3) && Present(EntryTo(mem, root, p)) ==> Writable(EntryTo(mem, root, p))
  }

  /** What the processor allows: all four entries of the walk are present and let it write. */
  predicate Grants(mem: Memory, root: nat, p: seq<nat>)
    requires |p| == 4 && IsPath(p, 4)
  {
    forall n :: 1 <= n <= 4 ==> Allows(EntryTo(mem, root, p[..n]))
  }

  predicate Allows(e: Pte) {
    Present(e) && Writable(e)
  }

  lemma EntryIsLast(mem: Memory, root: nat, p: seq<nat>)
    requires |p| == 4 && IsPath(p, 4)
    ensures p[..4] == p && EntryTo(mem, root, p) == Entry(mem, root, p)
  {}

  /** A table is reached through present entries only. */
  lemma {:induction false} PresentAbove(mem: Memory, root: nat, p: seq<nat>, n: nat)
    requires IsPath(p, 4) && 1 <= n <= |p| && Present(EntryTo(mem, root, p))
    ensures Present(EntryTo(mem, root, p[..n]))
    decreases |p|
  {
    if n < |p| {
      var q := p[..|p| - 1];
      assert TableAt(mem, root, q).Some?;
      assert Present(EntryTo(mem, root, q));
      PresentAbove(mem, root, q, n);
      assert q[..n] == p[..n];
    } else {
      assert p[..n] == p;
    }
  }

  /** So a page can be written exactly when its own entry is present and says so. */
  lemma GrantsIff(mem: Memory, root: nat, p: seq<nat>)
    requires Links(mem, root) && |p| == 4 && IsPath(p, 4)
    ensures Grants(mem, root, p) <==> Allows(Entry(mem, root, p))
  {
    hide TableAt, EntryTo, Present, Writable;
    EntryIsLast(mem, root, p);
    if Grants(mem, root, p) {
      assert Allows(EntryTo(mem, root, p[..4]));
    }
    if Allows(Entry(mem, root, p)) {
      forall n | 1 <= n <= 4 ensures Allows(EntryTo(mem, root, p[..n])) {
        PresentAbove(mem, root, p, n);
        assert n < 4 ==> IsPath(p[..n], 3);
      }
    }
  }

  /** Writing a last-level entry changes no entry above. */
  lemma WriteKeepsLinks(mem: Memory, root: nat, p: seq<nat>, f: nat, e: Pte)
    requires Tree(mem, root) && Links(mem, root) && |p| == 4 && IsPath(p, 4) && TableAt(mem, root, p[..3]) == Some(f)
    ensures f in mem && Links(WriteEntry(mem, f, p[3], e), root)
  {
    hide TableAt, Present, Writable;
    WriteLast(mem, root, p, f, e);
    var mem' := WriteEntry(mem, f, p[3], e);
    forall q | q != [] && IsPath(q, 3) ensures EntryTo(mem', root, q) == EntryTo(mem, root, q) {
      var r := q[..|q| - 1];
      assert IsPath(r, 3) && |r| < 3;
      if TableAt(mem, root, r) == Some(f) {
        assert false;
      }
    }
  }

  /** Hanging in a table adds a writable entry. */
  lemma HangKeepsLinks(mem: Memory, root: nat, p: seq<nat>, f: nat, i: nat, t: nat)
    requires Tree(mem, root) && Links(mem, root) && IsPath(p, 2) && TableAt(mem, root, p) == Some(f) && i < 512
    requires f in mem && !Present(mem[f][i]) && IsFrame(t) && t != f && Fresh(mem, root, t)
    ensures Links(Hang(mem, f, i, t), root)
  {
    hide TableAt, Present, Writable, LinkTo, Tree, Fresh;
    var mem' := Hang(mem, f, i, t);
    forall q | q != [] && IsPath(q, 3) && Present(EntryTo(mem', root, q)) ensures Writable(EntryTo(mem', root, q)) {
      HangEntry(mem, root, p, f, i, t, q);
    }
  }

  lemma HangEntry(mem: Memory, root: nat, p: seq<nat>, f: nat, i: nat, t: nat, q: seq<nat>)
    requires Tree(mem, root) && IsPath(p, 2) && TableAt(mem, root, p) == Some(f) && i < 512
    requires f in mem && !Present(mem[f][i]) && IsFrame(t) && t != f && Fresh(mem, root, t) && q != [] && IsPath(q, 3)
    ensures var e := EntryTo(Hang(mem, f, i, t), root, q);
      e == LinkTo(t) || !Present(e) || e == EntryTo(mem, root, q)
  {
    hide TableAt, LinkTo;
    var mem' := Hang(mem, f, i, t);
    var r, j := q[..|q| - 1], q[|q| - 1];
    HangPaths(mem, root, p, f, i, t, r);
    HangFrames(mem, f, i, t);
    if r == p + [i] {
      assert EntryTo(mem', root, q) == Empty()[j] == 0;
    } else if TableAt(mem', root, r) == Some(f) {
      assert mem'[f] == mem[f][i := LinkTo(t)];
    } else if TableAt(mem', root, r).Some? {
      assert TableAt(mem', root, r).value != t;
    }
  }
}
