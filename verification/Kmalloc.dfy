/** The kernel heap: blocks with headers in memory, a free list threaded through them, kmalloc and kfree. */
module Kmalloc {

  const BASE := 0x200000
  const END := 0x500000
  const HEADER := 16
  const WORD64 := 0x1_0000_0000_0000_0000

  /** A header. Address 0 ends the list. */
  datatype Block = Block(size: nat, free: bool, next: nat)

  /** The headers by address, the end of the used part, the head of the free list. */
  datatype Heap = Heap(blocks: map<nat, Block>, ptr: nat, head: nat)

  function Init(): Heap {
    Heap(map[], BASE, 0)
  }

  /** ALIGN8 on a 64-bit unsigned long. */
  function Align8(n: nat): (r: nat)
    ensures r % 8 == 0
    ensures n + 7 < WORD64 ==> n <= r < n + 8
  {
    (n + 7) % WORD64 / 8 * 8
  }

  function EndOf(h: Heap, a: nat): nat
    requires a in h.blocks
  {
    a + HEADER + h.blocks[a].size
  }

  // ----- the search -----

  datatype Search = Found(at: nat) | NotFound | Searching

  predicate Suits(h: Heap, a: nat, size: nat)
    requires a in h.blocks
  {
    h.blocks[a].free && h.blocks[a].size >= size
  }

  /** The first suitable block of the list from p on, following at most `steps` links. */
  function Find(h: Heap, p: nat, size: nat, steps: nat): Search
    decreases steps
  {
    if p == 0 || p !in h.blocks then NotFound
    else if Suits(h, p, size) then Found(p)
    else if steps == 0 then Searching
    else Find(h, h.blocks[p].next, size, steps - 1)
  }

  /** The search goes round in the list for ever. */
  ghost predicate Endless(h: Heap, p: nat, size: nat) {
    forall steps: nat :: Find(h, p, size, steps).Searching?
  }

  predicate Unsuitable(h: Heap, s: set<nat>, size: nat) {
    forall a :: a in s ==> a != 0 && a in h.blocks && !Suits(h, a, size)
  }

  lemma {:induction false} Trapped(h: Heap, p: nat, size: nat, s: set<nat>, steps: nat)
    requires Unsuitable(h, s, size) && p in s && (forall a :: a in s ==> h.blocks[a].next in s)
    ensures Find(h, p, size, steps).Searching?
    decreases steps
  {
    if steps > 0 { Trapped(h, h.blocks[p].next, size, s, steps - 1); }
  }

  lemma {:induction false} Decide(h: Heap, p: nat, size: nat, seen: set<nat>, steps: nat)
    requires Unsuitable(h, seen, size) && (forall a :: a in seen ==> h.blocks[a].next in seen + {p})
    requires |h.blocks.Keys| <= |seen| + steps
    ensures Find(h, p, size, steps).Searching? ==> Endless(h, p, size)
    decreases steps
  {
    if p in seen {
      forall n: nat ensures Find(h, p, size, n).Searching? { Trapped(h, p, size, seen, n); }
    } else if p != 0 && p in h.blocks && !Suits(h, p, size) {
      var more := seen + {p};
      Within(more, h.blocks.Keys);
      var q := h.blocks[p].next;
      if steps > 0 {
        Decide(h, q, size, more, steps - 1);
        if Find(h, p, size, steps).Searching? {
          forall n: nat ensures Find(h, p, size, n).Searching? {
            if n > 0 { assert Find(h, q, size, n - 1).Searching?; }
          }
        }
      }
    }
  }

  lemma Within(s: set<nat>, t: set<nat>)
    requires s <= t
    ensures |s| <= |t|
  {
    if s != t {
      assert t == s + (t - s);
    }
  }

  lemma {:induction false} FindMore(h: Heap, p: nat, size: nat, steps: nat, more: nat)
    requires !Find(h, p, size, steps).Searching? && steps <= more
    ensures Find(h, p, size, more) == Find(h, p, size, steps)
    decreases steps
  {
    if p != 0 && p in h.blocks && !Suits(h, p, size) {
      FindMore(h, h.blocks[p].next, size, steps - 1, more - 1);
    }
  }

  // ----- the shape of the list -----

  /** The node that n links from p lead to; 0 once the list has ended. */
  function Nth(h: Heap, p: nat, n: nat): nat
    decreases n
  {
    if n == 0 then p else if p == 0 || p !in h.blocks then 0 else Nth(h, h.blocks[p].next, n - 1)
  }

  ghost predicate Reached(h: Heap, p: nat, a: nat) {
    exists n: nat :: Nth(h, p, n) == a
  }

  /** a is a block that the free list leads to. */
  ghost predicate OnList(h: Heap, a: nat) {
    a != 0 && Reached(h, h.head, a)
  }

  /** The free list ends. */
  ghost predicate Acyclic(h: Heap) {
    Reached(h, h.head, 0)
  }

  predicate PassedOver(h: Heap, a: nat, size: nat) {
    a != 0 && a in h.blocks && !Suits(h, a, size)
  }

  lemma {:induction false} SearchingPasses(h: Heap, p: nat, size: nat, n: nat)
    requires Find(h, p, size, n).Searching?
    ensures PassedOver(h, Nth(h, p, n), size)
    decreases n
  {
    if n > 0 { SearchingPasses(h, h.blocks[p].next, size, n - 1); }
  }

  lemma {:induction false} PassesSearching(h: Heap, p: nat, size: nat, n: nat)
    requires forall k: nat :: k <= n ==> PassedOver(h, Nth(h, p, k), size)
    ensures Find(h, p, size, n).Searching?
    decreases n
  {
    assert PassedOver(h, Nth(h, p, 0), size);
    if n > 0 {
      var q := h.blocks[p].next;
      forall k: nat | k <= n - 1 ensures PassedOver(h, Nth(h, q, k), size) {
        assert Nth(h, p, k + 1) == Nth(h, q, k);
      }
      PassesSearching(h, q, size, n - 1);
    }
  }

  /** The search never ends exactly when everything the list leads to is a block that does not suit: the list goes
      round, and no block on it is free and large enough. */
  lemma EndlessIff(h: Heap, size: nat)
    ensures Endless(h, h.head, size) <==> forall a :: Reached(h, h.head, a) ==> PassedOver(h, a, size)
  {
    if Endless(h, h.head, size) {
      forall a | Reached(h, h.head, a) ensures PassedOver(h, a, size) {
        var n: nat :| Nth(h, h.head, n) == a;
        assert Find(h, h.head, size, n).Searching?;
        SearchingPasses(h, h.head, size, n);
      }
    } else if forall a :: Reached(h, h.head, a) ==> PassedOver(h, a, size) {
      forall n: nat ensures Find(h, h.head, size, n).Searching? {
        forall k: nat | k <= n ensures PassedOver(h, Nth(h, h.head, k), size) {
          assert Reached(h, h.head, Nth(h, h.head, k));
        }
        PassesSearching(h, h.head, size, n);
      }
    }
  }

  /** On a list that ends every search ends. */
  lemma AcyclicEnds(h: Heap, size: nat)
    requires Acyclic(h)
    ensures !Endless(h, h.head, size)
  {
    EndlessIff(h, size);
    assert Reached(h, h.head, 0) && !PassedOver(h, 0, size);
  }

  lemma {:induction false} NthAdd(h: Heap, p: nat, i: nat, j: nat)
    ensures Nth(h, Nth(h, p, i), j) == Nth(h, p, i + j)
    decreases i
  {
    if i > 0 {
      if p == 0 || p !in h.blocks {
        NthEnded(h, j);
      } else {
        NthAdd(h, h.blocks[p].next, i - 1, j);
      }
    }
  }

  lemma NthEnded(h: Heap, n: nat)
    ensures Nth(h, 0, n) == 0
  {}

  /** Relinking b does not change a walk that has not met b. */
  lemma {:induction false} NthAvoids(h: Heap, h': Heap, b: nat, p: nat, n: nat)
    requires h'.blocks.Keys == h.blocks.Keys && (forall a :: a in h.blocks && a != b ==> h'.blocks[a].next == h.blocks[a].next)
    requires forall k: nat :: k < n ==> Nth(h, p, k) != b
    ensures Nth(h', p, n) == Nth(h, p, n)
    decreases n
  {
    if n > 0 {
      assert Nth(h, p, 0) != b;
      if p != 0 && p in h.blocks {
        var q := h.blocks[p].next;
        forall k: nat | k < n - 1 ensures Nth(h, q, k) != b {
          assert Nth(h, p, k + 1) == Nth(h, q, k);
        }
        NthAvoids(h, h', b, q, n - 1);
      }
    }
  }

  /** A node that leads back to itself never leads to the end. */
  lemma {:induction false} LoopNeverEnds(h: Heap, b: nat, period: nat, n: nat)
    requires b != 0 && period > 0 && Nth(h, b, period) == b
    ensures Nth(h, b, n) != 0
    decreases n
  {
    if n < period {
      NthAdd(h, b, n, period - n);
      NthEnded(h, period - n);
    } else {
      NthAdd(h, b, period, n - period);
      LoopNeverEnds(h, b, period, n - period);
    }
  }

  /** The first time that a walk meets b. */
  lemma {:induction false} FirstMeeting(h: Heap, p: nat, b: nat, n: nat) returns (m: nat)
    requires Nth(h, p, n) == b
    ensures Nth(h, p, m) == b && forall k: nat :: k < m ==> Nth(h, p, k) != b
    decreases n
  {
    if k: nat :| k < n && Nth(h, p, k) == b {
      m := FirstMeeting(h, p, b, k);
    } else {
      m := n;
    }
  }

  /** kfree keeps the list finite exactly when it was finite and the block was not already on it. */
  lemma FreeAcyclic(h: Heap, p: nat)
    requires p > HEADER && p - HEADER in h.blocks
    ensures Acyclic(Free(h, p)) <==> Acyclic(h) && !OnList(h, p - HEADER)
  {
    var b, h' := p - HEADER, Free(h, p);
    if OnList(h, b) {
      var n: nat :| Nth(h, h.head, n) == b;
      var m := FirstMeeting(h, h.head, b, n);
      NthAvoids(h, h', b, h.head, m);
      assert Nth(h', b, m + 1) == Nth(h', h.head, m) == b;
      forall k: nat ensures Nth(h', b, k) != 0 { LoopNeverEnds(h', b, m + 1, k); }
    } else {
      forall n: nat ensures Nth(h', b, n + 1) == Nth(h, h.head, n) {
        forall k: nat | k < n ensures Nth(h, h.head, k) != b { assert Reached(h, h.head, Nth(h, h.head, k)); }
        NthAvoids(h, h', b, h.head, n);
      }
      FreedNext(h, p);
    }
  }

  lemma FreedNext(h: Heap, p: nat)
    requires p > HEADER && p - HEADER in h.blocks
    requires forall n: nat :: Nth(Free(h, p), p - HEADER, n + 1) == Nth(h, h.head, n)
    ensures Acyclic(Free(h, p)) <==> Acyclic(h)
  {
    var b, h' := p - HEADER, Free(h, p);
    if Acyclic(h') {
      var n: nat :| Nth(h', b, n) == 0;
      assert n > 0;
      assert Nth(h', b, (n - 1) + 1) == Nth(h, h.head, n - 1);
    }
    if Acyclic(h) {
      var n: nat :| Nth(h, h.head, n) == 0;
      assert Nth(h', b, n + 1) == 0;
    }
  }

  /** Following one link per block decides the search: if it has not ended by then, it never ends. */
  lemma SearchDecided(h: Heap, size: nat)
    ensures var n := |h.blocks|;
            && (Find(h, h.head, size, n).Searching? <==> Endless(h, h.head, size))
            && (forall steps: nat :: !Find(h, h.head, size, steps).Searching? ==>
                  Find(h, h.head, size, steps) == Find(h, h.head, size, n))
  {
    var n := |h.blocks|;
    assert n == |h.blocks.Keys| by { KeysCount(h.blocks); }
    Decide(h, h.head, size, {}, n);
    forall steps: nat | !Find(h, h.head, size, steps).Searching?
      ensures Find(h, h.head, size, steps) == Find(h, h.head, size, n)
    {
      assert !Find(h, h.head, size, n).Searching?;
      if steps <= n {
        FindMore(h, h.head, size, steps, n);
      } else {
        FindMore(h, h.head, size, n, steps);
      }
    }
  }

  lemma {:induction false} KeysCount(m: map<nat, Block>)
    ensures |m| == |m.Keys|
  {
  }

  // ----- the operations -----

  /** Shorten a block to `size` and put what is left behind it, when that is more than a header. */
  function Split(h: Heap, b: nat, size: nat): Heap
    requires b in h.blocks
  {
    var k := h.blocks[b];
    if k.size <= size + HEADER then h else
      var rest := b + HEADER + size;
      h.(blocks := h.blocks[rest := Block(k.size - size - HEADER, true, k.next)][b := k.(size := size, next := rest)])
  }

  datatype Alloc = Loops | Full | Got(h: Heap, p: nat)

  /** A new block at the end; the test is on a sum that wraps at 64 bits. */
  function Create(h: Heap, size: nat): Alloc {
    if (h.ptr + HEADER + size) % WORD64 > END then Full
    else Got(Heap(h.blocks[h.ptr := Block(size, false, 0)], (h.ptr + Align8(HEADER + size)) % WORD64, h.head), h.ptr + HEADER)
  }

  function Malloc(h: Heap, request: nat): Alloc {
    var size := Align8(request);
    match Find(h, h.head, size, |h.blocks|)
    case Searching => Loops
    case NotFound => Create(h, size)
    case Found(b) =>
      if b !in h.blocks then Full else
        var k := h.blocks[b];
        Got(Split(h.(blocks := h.blocks[b := k.(free := false)]), b, size), b + HEADER)
  }

  function Free(h: Heap, p: nat): Heap
    requires p >= HEADER && p - HEADER in h.blocks
  {
    var b := p - HEADER;
    Heap(h.blocks[b := h.blocks[b].(free := true, next := h.head)], h.ptr, b)
  }

  /** What is freed last is taken first: a request that fits it gets the same pointer back. */
  lemma FreedIsReused(h: Heap, p: nat, request: nat)
    requires p > HEADER && p - HEADER in h.blocks && Align8(request) <= h.blocks[p - HEADER].size
    ensures var r := Malloc(Free(h, p), request); r.Got? && r.p == p
  {
    hide Align8;
  }

  /** The first block of a fresh heap starts at 0x200000, its payload 16 bytes behind. */
  lemma FirstPointer(request: nat)
    requires request <= 0x2F_FFF0
    ensures var r := Malloc(Init(), request); r.Got? && r.p == 0x20_0010
  {}

  /** The block that a request takes: cut to the request when more than a header would be left over, and that is then a
      free block behind it; otherwise taken as it is. */
  lemma SplitShares(h: Heap, b: nat, size: nat)
    requires b in h.blocks && size <= h.blocks[b].size
    ensures var h', was, rest := Split(h, b, size), h.blocks[b].size, b + 16 + size;
      && h'.ptr == h.ptr && h'.head == h.head && b in h'.blocks && h'.blocks[b].free == h.blocks[b].free
      && (if was > size + 16 then
            && h'.blocks[b].size == size && h'.blocks[b].next == rest && rest in h'.blocks
            && h'.blocks[rest] == Block(was - size - 16, true, h.blocks[b].next)
          else h' == h)
      && forall a :: a in h.blocks && a != b && a != rest ==> a in h'.blocks && h'.blocks[a] == h.blocks[a]
  {}

  /** A new block is made exactly when its header and payload end at 0x500000 or before. */
  lemma CreateFits(h: Heap, size: nat)
    requires h.ptr + HEADER + size < WORD64
    ensures Create(h, size).Got? <==> h.ptr + 16 + size <= 0x500000
    ensures var r := Create(h, size); r.Got? ==> r.p == h.ptr + 16 && h.ptr in r.h.blocks && r.h.blocks[h.ptr] == Block(size, false, 0)
  {
    hide Align8;
  }

  // ----- what every step keeps -----

  predicate LinkOk(h: Heap, p: nat) {
    p == 0 || p in h.blocks
  }

  predicate BlockOk(h: Heap, a: nat)
    requires a in h.blocks
  {
    && BASE <= a && a % 8 == 0 && h.blocks[a].size % 8 == 0 && EndOf(h, a) <= h.ptr
    && (EndOf(h, a) == h.ptr || EndOf(h, a) in h.blocks)
    && LinkOk(h, h.blocks[a].next)
  }

  predicate Apart(h: Heap, a: nat, b: nat)
    requires a in h.blocks && b in h.blocks
  {
    EndOf(h, a) <= b || EndOf(h, b) <= a
  }

  /** The blocks tile the used part of the window, and every link leads to a block. Nothing is said about the shape
      of the list: it may be cyclic. */
  predicate Tiled(h: Heap) {
    && BASE <= h.ptr <= END && h.ptr % 8 == 0
    && (h.ptr == BASE || BASE in h.blocks)
    && (forall a {:trigger BlockOk(h, a)} :: a in h.blocks ==> BlockOk(h, a))
    && (forall a, b {:trigger Apart(h, a, b)} :: a in h.blocks && b in h.blocks && a != b ==> Apart(h, a, b))
    && LinkOk(h, h.head)
  }

  /** Every address of the used part lies in exactly one block, header included. */
  lemma TilesOnce(h: Heap, x: nat)
    requires Tiled(h) && BASE <= x < h.ptr
    ensures exists a :: a in h.blocks && a <= x < EndOf(h, a)
    ensures forall a, b :: a in h.blocks && b in h.blocks && a <= x < EndOf(h, a) && b <= x < EndOf(h, b) ==> a == b
  {
    var a := WalkTo(h, BASE, x);
    forall a, b | a in h.blocks && b in h.blocks && a <= x < EndOf(h, a) && b <= x < EndOf(h, b) ensures a == b {
      assert a != b ==> Apart(h, a, b);
    }
  }

  lemma {:induction false} WalkTo(h: Heap, from: nat, x: nat) returns (a: nat)
    requires Tiled(h) && from in h.blocks && from <= x < h.ptr
    ensures a in h.blocks && a <= x < EndOf(h, a)
    decreases h.ptr - from
  {
    assert BlockOk(h, from);
    if x < EndOf(h, from) {
      a := from;
    } else {
      a := WalkTo(h, EndOf(h, from), x);
    }
  }

  /** The outstanding pointers, each with the size that was asked for. */
  type Live = map<nat, nat>

  /** A pointer handed out: an allocated block in the window, 8-aligned and large enough. */
  predicate Holds(h: Heap, p: nat, request: nat) {
    && p >= HEADER && p - HEADER in h.blocks && !h.blocks[p - HEADER].free
    && request <= h.blocks[p - HEADER].size
  }

  predicate Sound(h: Heap, live: Live) {
    && Tiled(h)
    && (forall p :: p in live ==> Holds(h, p, live[p]))
    && (forall a :: a in h.blocks && !h.blocks[a].free ==> a + HEADER in live)
  }

  lemma LiveAt(h: Heap, live: Live, p: nat)
    requires Sound(h, live) && p in live
    ensures Tiled(h) && Holds(h, p, live[p])
  {
    hide Tiled;
  }

  lemma TiledApart(h: Heap, a: nat, b: nat)
    requires Tiled(h) && a in h.blocks && b in h.blocks && a != b
    ensures Apart(h, a, b)
  {
    hide BlockOk, Apart;
  }

  /** Live payloads are 8-aligned, inside the window and as large as requested, and no two overlap. */
  lemma LivePayloads(h: Heap, live: Live, p: nat, q: nat)
    requires Sound(h, live) && p in live && q in live
    ensures p % 8 == 0 && BASE < p && p + live[p] <= h.ptr <= END
    ensures p != q ==> p + live[p] <= q || q + live[q] <= p
  {
    hide Tiled, Sound;
    LiveAt(h, live, p);
    LiveAt(h, live, q);
    Inside(h, p - HEADER);
    Inside(h, q - HEADER);
    if p != q {
      TiledApart(h, p - HEADER, q - HEADER);
    }
  }

  // ----- one block at a time -----

  lemma Inside(h: Heap, a: nat)
    requires Tiled(h) && a in h.blocks
    ensures BASE <= a && a % 8 == 0 && h.blocks[a].size % 8 == 0 && EndOf(h, a) <= h.ptr <= END
    ensures EndOf(h, a) == h.ptr || EndOf(h, a) in h.blocks
  {
    hide Apart, LinkOk;
    assert BlockOk(h, a);
  }

  lemma LinksOk(h: Heap, a: nat)
    requires Tiled(h) && a in h.blocks
    ensures LinkOk(h, h.blocks[a].next)
  {
    hide Apart, LinkOk;
    assert BlockOk(h, a);
  }

  /** A block of the same size is still in order when no block has gone and the window has grown at most by blocks. */
  lemma BlockStays(h: Heap, h': Heap, a: nat)
    requires a in h.blocks && a in h'.blocks && BlockOk(h, a) && h.blocks[a].size == h'.blocks[a].size
    requires h.blocks.Keys <= h'.blocks.Keys && h.ptr <= h'.ptr && (h.ptr == h'.ptr || h.ptr in h'.blocks)
    requires LinkOk(h', h'.blocks[a].next) || h'.blocks[a].next == h.blocks[a].next
    ensures BlockOk(h', a)
  {
  }

  lemma ApartStays(h: Heap, h': Heap, a: nat, b: nat)
    requires a in h.blocks && b in h.blocks && a in h'.blocks && b in h'.blocks && Apart(h, a, b)
    requires h.blocks[a].size == h'.blocks[a].size && h.blocks[b].size == h'.blocks[b].size
    ensures Apart(h', a, b)
  {
  }

  // ----- kfree -----

  lemma FreeKeeps(h: Heap, live: Live, p: nat)
    requires Sound(h, live) && p in live
    ensures p >= HEADER && p - HEADER in h.blocks && Sound(Free(h, p), live - {p})
  {
    hide Tiled;
    LiveAt(h, live, p);
    FreeTiled(h, p);
    var h' := Free(h, p);
    forall q | q in live - {p} ensures Holds(h', q, (live - {p})[q]) { assert Holds(h, q, live[q]); }
  }

  lemma FreeTiled(h: Heap, p: nat)
    requires Tiled(h) && p >= HEADER && p - HEADER in h.blocks
    ensures Tiled(Free(h, p))
  {
    hide BlockOk, Apart;
    var h' := Free(h, p);
    forall a | a in h'.blocks ensures BlockOk(h', a) { BlockStays(h, h', a); }
    forall a, b | a in h'.blocks && b in h'.blocks && a != b ensures Apart(h', a, b) { ApartStays(h, h', a, b); }
  }

  // ----- kmalloc -----

  lemma {:induction false} FoundIs(h: Heap, p: nat, size: nat, steps: nat)
    requires Find(h, p, size, steps).Found?
    ensures var b := Find(h, p, size, steps).at; b != 0 && b in h.blocks && Suits(h, b, size)
    decreases steps
  {
    if !Suits(h, p, size) { FoundIs(h, h.blocks[p].next, size, steps - 1); }
  }

  /** Marking a block as allocated changes nothing else. */
  lemma TakeKeeps(h: Heap, b: nat, taken: bool)
    requires Tiled(h) && b in h.blocks
    ensures Tiled(h.(blocks := h.blocks[b := h.blocks[b].(free := taken)]))
  {
    hide BlockOk, Apart;
    var h' := h.(blocks := h.blocks[b := h.blocks[b].(free := taken)]);
    LinksOk(h, b);
    forall a | a in h'.blocks ensures BlockOk(h', a) { LinksOk(h, a); BlockStays(h, h', a); }
    forall a, c | a in h'.blocks && c in h'.blocks && a != c ensures Apart(h', a, c) { ApartStays(h, h', a, c); }
  }

  lemma SplitKeeps(h: Heap, b: nat, size: nat)
    requires Tiled(h) && b in h.blocks && size % 8 == 0 && size <= h.blocks[b].size
    ensures Tiled(Split(h, b, size))
  {
    hide BlockOk, Apart;
    var h' := Split(h, b, size);
    if h.blocks[b].size > size + HEADER {
      Inside(h, b);
      RestIsNew(h, b, size);
      forall a | a in h'.blocks ensures BlockOk(h', a) {
        if a == b || a == b + HEADER + size { SplitBlocks(h, b, size); } else { LinksOk(h, a); BlockStays(h, h', a); }
      }
      forall a, c | a in h'.blocks && c in h'.blocks && a != c ensures Apart(h', a, c) {
        SplitApart(h, b, size, a, c);
      }
    }
  }

  lemma RestIsNew(h: Heap, b: nat, size: nat)
    requires Tiled(h) && b in h.blocks && h.blocks[b].size > size + HEADER
    ensures b + HEADER + size !in h.blocks
  {
    hide BlockOk;
    var rest := b + HEADER + size;
    assert rest in h.blocks ==> Apart(h, b, rest);
  }

  lemma SplitBlocks(h: Heap, b: nat, size: nat)
    requires b in h.blocks && BlockOk(h, b) && size % 8 == 0 && h.blocks[b].size > size + HEADER
    requires b + HEADER + size !in h.blocks
    ensures var h' := Split(h, b, size); BlockOk(h', b) && BlockOk(h', b + HEADER + size)
  {
    var h', rest := Split(h, b, size), b + HEADER + size;
    assert EndOf(h', rest) == EndOf(h, b);
  }

  lemma SplitIs(h: Heap, b: nat, size: nat)
    requires Tiled(h) && b in h.blocks && size <= h.blocks[b].size
    ensures var h' := Split(h, b, size);
            && b in h'.blocks && h'.blocks[b].size >= size && h'.blocks[b].free == h.blocks[b].free
            && (forall a :: a in h'.blocks && !h'.blocks[a].free && a != b ==> a in h.blocks && h'.blocks[a] == h.blocks[a])
  {
    hide Tiled;
  }

  lemma SplitApart(h: Heap, b: nat, size: nat, a: nat, c: nat)
    requires Tiled(h) && b in h.blocks && h.blocks[b].size > size + HEADER
    requires a in Split(h, b, size).blocks && c in Split(h, b, size).blocks && a != c
    ensures Apart(Split(h, b, size), a, c)
  {
    hide BlockOk;
    var rest := b + HEADER + size;
    var a0 := if a == rest then b else a;
    var c0 := if c == rest then b else c;
    if a0 != c0 { assert Apart(h, a0, c0); }
  }

  lemma CreateKeeps(h: Heap, size: nat)
    requires Tiled(h) && size % 8 == 0 && h.ptr + HEADER + size < WORD64
    ensures var r := Create(h, size);
            r.Got? ==> && Tiled(r.h) && h.ptr !in h.blocks && r.h.blocks == h.blocks[h.ptr := Block(size, false, 0)]
  {
    hide BlockOk, Apart, Create;
    CreateIs(h, size);
    var r := Create(h, size);
    if h.ptr in h.blocks { Inside(h, h.ptr); }
    if r.Got? {
      NewBlock(h, r.h, size);
      forall a | a in r.h.blocks ensures BlockOk(r.h, a) { if a != h.ptr { LinksOk(h, a); BlockStays(h, r.h, a); } }
      forall a, c | a in r.h.blocks && c in r.h.blocks && a != c ensures Apart(r.h, a, c) {
        if a != h.ptr && c != h.ptr { ApartStays(h, r.h, a, c); } else { NewApart(h, r.h, if a == h.ptr then c else a); }
      }
    }
  }

  /** A new block of an aligned size, where no sum wraps. */
  lemma CreateIs(h: Heap, size: nat)
    requires size % 8 == 0 && h.ptr + HEADER + size < WORD64
    ensures Create(h, size)
         == if h.ptr + HEADER + size > END then Full
            else Got(Heap(h.blocks[h.ptr := Block(size, false, 0)], h.ptr + HEADER + size, h.head), h.ptr + HEADER)
  {
    hide Align8;
    if h.ptr + HEADER + size <= END {
      Align8Exact(HEADER + size);
    }
  }

  lemma NewBlock(h: Heap, h': Heap, size: nat)
    requires BASE <= h.ptr && h.ptr % 8 == 0 && size % 8 == 0
    requires h' == Heap(h.blocks[h.ptr := Block(size, false, 0)], h.ptr + HEADER + size, h.head)
    ensures BlockOk(h', h.ptr)
  {
  }

  lemma NewApart(h: Heap, h': Heap, a: nat)
    requires Tiled(h) && a in h.blocks && a in h'.blocks && h.ptr in h'.blocks && h'.blocks[a] == h.blocks[a]
    ensures Apart(h', a, h.ptr) && Apart(h', h.ptr, a)
  {
    hide Tiled, BlockOk;
    Inside(h, a);
  }

  lemma PtrAligned(h: Heap)
    requires Tiled(h)
    ensures h.ptr % 8 == 0 && BASE <= h.ptr
  {
    hide BlockOk, Apart;
  }

  lemma Align8Exact(n: nat)
    requires n % 8 == 0 && n < WORD64 - 7
    ensures Align8(n) == n
  {
  }

  /** The requests on which no 64-bit sum wraps. */
  predicate Fits64(h: Heap, request: nat) {
    request + 7 < WORD64 && h.ptr + HEADER + Align8(request) < WORD64
  }

  lemma MallocKeeps(h: Heap, live: Live, request: nat)
    requires Sound(h, live) && Fits64(h, request)
    ensures var r := Malloc(h, request);
            r.Got? ==> && r.p !in live && Sound(r.h, live[r.p := request])
                       && Holds(r.h, r.p, request) && r.p % 8 == 0 && BASE < r.p
  {
    hide Find, Create, Split, Sound, Align8, Holds;
    var size := Align8(request);
    AlignCovers(request);
    var found := Find(h, h.head, size, |h.blocks|);
    if found.NotFound? {
      CreateSound(h, live, request, size);
    } else if found.Found? {
      FoundIs(h, h.head, size, |h.blocks|);
      ReuseSound(h, live, found.at, request, size);
    }
  }

  lemma AlignCovers(n: nat)
    ensures Align8(n) % 8 == 0 && (n + 7 < WORD64 ==> n <= Align8(n))
  {
  }

  lemma CreateSound(h: Heap, live: Live, request: nat, size: nat)
    requires Sound(h, live) && request <= size && size % 8 == 0 && h.ptr + HEADER + size < WORD64
    ensures var r := Create(h, size);
            r.Got? ==> && r.p !in live && Sound(r.h, live[r.p := request])
                       && Holds(r.h, r.p, request) && r.p % 8 == 0 && BASE < r.p
  {
    hide Tiled, Create;
    CreateKeeps(h, size);
    CreateIs(h, size);
    var r := Create(h, size);
    if r.Got? {
      forall q | q in live ensures q != r.p { assert Holds(h, q, live[q]); }
      forall q | q in live ensures Holds(r.h, q, live[q]) { assert Holds(h, q, live[q]); }
      PtrAligned(h);
    }
  }

  lemma ReuseSound(h: Heap, live: Live, b: nat, request: nat, size: nat)
    requires Sound(h, live) && request <= size && size % 8 == 0 && b in h.blocks && Suits(h, b, size)
    ensures var h1 := h.(blocks := h.blocks[b := h.blocks[b].(free := false)]);
            var h' := Split(h1, b, size);
            && b + HEADER !in live && Sound(h', live[b + HEADER := request])
            && Holds(h', b + HEADER, request) && (b + HEADER) % 8 == 0 && BASE < b + HEADER
  {
    hide Tiled, BlockOk, Split;
    var h1 := h.(blocks := h.blocks[b := h.blocks[b].(free := false)]);
    var h' := Split(h1, b, size);
    var p := b + HEADER;
    TakeKeeps(h, b, false);
    SplitKeeps(h1, b, size);
    SplitIs(h1, b, size);
    Inside(h, b);
    forall q | q in live ensures q != p { assert Holds(h, q, live[q]); }
    forall q | q in live ensures Holds(h', q, live[q]) {
      assert Holds(h, q, live[q]);
      SplitSkips(h1, b, size, q - HEADER);
    }
    forall a | a in h'.blocks && !h'.blocks[a].free ensures a + HEADER in live[p := request] {
      if a != b { assert a in h.blocks && h.blocks[a] == h1.blocks[a] == h'.blocks[a]; }
    }
  }

  /** The remainder of a split is no other block. */
  lemma SplitSkips(h: Heap, b: nat, size: nat, a: nat)
    requires Tiled(h) && b in h.blocks && a in h.blocks && a != b
    ensures var h' := Split(h, b, size); a in h'.blocks && h'.blocks[a] == h.blocks[a]
  {
    assert Apart(h, a, b);
  }

  // ----- runs -----

  datatype Op = Malloced(request: nat) | Freed(p: nat)

  /** One call by a well-behaved client: it frees only what it holds. A failed or endless call changes nothing. */
  predicate Steps(h: Heap, live: Live, op: Op, h': Heap, live': Live) {
    match op
    case Malloced(request) =>
      Fits64(h, request) &&
      (match Malloc(h, request)
       case Got(g, p) => h' == g && live' == live[p := request]
       case _ => h' == h && live' == live)
    case Freed(p) =>
      if p == 0 then h' == h && live' == live
      else p in live && p >= HEADER && p - HEADER in h.blocks && h' == Free(h, p) && live' == live - {p}
  }

  predicate Run(hs: seq<Heap>, lives: seq<Live>, ops: seq<Op>) {
    && |hs| == |lives| == |ops| + 1 && hs[0] == Init() && lives[0] == map[]
    && forall i :: 0 <= i < |ops| ==> StepAt(hs, lives, ops, i)
  }

  predicate StepAt(hs: seq<Heap>, lives: seq<Live>, ops: seq<Op>, i: nat)
    requires |hs| == |lives| == |ops| + 1 && i < |ops|
  {
    Steps(hs[i], lives[i], ops[i], hs[i + 1], lives[i + 1])
  }

  lemma StepKeeps(h: Heap, live: Live, op: Op, h': Heap, live': Live)
    requires Sound(h, live) && Steps(h, live, op, h', live')
    ensures Sound(h', live')
  {
    match op {
      case Malloced(request) => MallocKeeps(h, live, request);
      case Freed(p) => if p != 0 { FreeKeeps(h, live, p); }
    }
  }

  /** In every state of every run the window is tiled and the live payloads are as they should be, whatever shape the
      free list has got into. */
  lemma {:induction false} RunSound(hs: seq<Heap>, lives: seq<Live>, ops: seq<Op>, i: nat)
    requires Run(hs, lives, ops) && i < |hs|
    ensures Sound(hs[i], lives[i])
  {
    if i > 0 {
      RunSound(hs, lives, ops, i - 1);
      assert StepAt(hs, lives, ops, i - 1);
      StepKeeps(hs[i - 1], lives[i - 1], ops[i - 1], hs[i], lives[i]);
    }
  }

  // ----- how the list becomes cyclic -----

  /** Blocks with the same links, and new ones that no link leads to. */
  predicate SameLinks(h: Heap, h': Heap) {
    && h'.head == h.head && h.blocks.Keys <= h'.blocks.Keys
    && (forall a :: a in h.blocks ==> h'.blocks[a].next == h.blocks[a].next && LinkOk(h, h.blocks[a].next))
  }

  lemma {:induction false} NthSame(h: Heap, h': Heap, p: nat, n: nat)
    requires SameLinks(h, h') && LinkOk(h, p)
    ensures Nth(h', p, n) == Nth(h, p, n)
    decreases n
  {
    if n > 0 && p != 0 { NthSame(h, h', h.blocks[p].next, n - 1); }
  }

  lemma SameLinksAcyclic(h: Heap, h': Heap)
    requires SameLinks(h, h') && LinkOk(h, h.head)
    ensures Acyclic(h') <==> Acyclic(h)
  {
    forall n: nat ensures Nth(h', h.head, n) == Nth(h, h.head, n) { NthSame(h, h', h.head, n); }
    if Acyclic(h) { var n: nat :| Nth(h, h.head, n) == 0; assert Nth(h', h.head, n) == 0; }
    if Acyclic(h') { var n: nat :| Nth(h', h.head, n) == 0; assert Nth(h, h.head, n) == 0; }
  }

  /** h' has a block `rest` that is new, put between b and its successor. */
  predicate Inserted(h: Heap, h': Heap, b: nat, rest: nat) {
    && h'.head == h.head && b in h.blocks && b != 0 && rest !in h.blocks && rest != 0 && h'.blocks.Keys == h.blocks.Keys + {rest}
    && h'.blocks[b].next == rest && h'.blocks[rest].next == h.blocks[b].next
    && (forall a :: a in h.blocks ==> LinkOk(h, h.blocks[a].next) && (a != b ==> h'.blocks[a].next == h.blocks[a].next))
  }

  lemma {:induction false} InsertedEnds(h: Heap, h': Heap, b: nat, rest: nat, p: nat, n: nat) returns (m: nat)
    requires Inserted(h, h', b, rest) && LinkOk(h, p) && Nth(h, p, n) == 0
    ensures Nth(h', p, m) == 0
    decreases n
  {
    if p == 0 {
      m := 0;
    } else {
      m := InsertedEnds(h, h', b, rest, h.blocks[p].next, n - 1);
      if p == b {
        assert Nth(h', p, m + 2) == Nth(h', rest, m + 1) == Nth(h', h.blocks[b].next, m);
        m := m + 2;
      } else {
        m := m + 1;
      }
    }
  }

  lemma {:induction false} InsertedEnded(h: Heap, h': Heap, b: nat, rest: nat, p: nat, n: nat) returns (m: nat)
    requires Inserted(h, h', b, rest) && LinkOk(h, p) && Nth(h', p, n) == 0
    ensures Nth(h, p, m) == 0
    decreases n
  {
    if p == 0 {
      m := 0;
    } else if p == b {
      assert n >= 2 && Nth(h', p, n) == Nth(h', rest, n - 1) == Nth(h', h.blocks[b].next, n - 2);
      m := InsertedEnded(h, h', b, rest, h.blocks[p].next, n - 2);
      m := m + 1;
    } else {
      m := InsertedEnded(h, h', b, rest, h.blocks[p].next, n - 1);
      m := m + 1;
    }
  }

  lemma InsertedAcyclic(h: Heap, h': Heap, b: nat, rest: nat)
    requires Inserted(h, h', b, rest) && LinkOk(h, h.head)
    ensures Acyclic(h') <==> Acyclic(h)
  {
    if Acyclic(h) {
      var n: nat :| Nth(h, h.head, n) == 0;
      var m := InsertedEnds(h, h', b, rest, h.head, n);
    }
    if Acyclic(h') {
      var n: nat :| Nth(h', h.head, n) == 0;
      var m := InsertedEnded(h, h', b, rest, h.head, n);
    }
  }

  /** kmalloc neither closes the list to a cycle nor opens a cycle. */
  lemma MallocAcyclic(h: Heap, live: Live, request: nat)
    requires Sound(h, live) && Fits64(h, request)
    ensures var r := Malloc(h, request); r.Got? ==> (Acyclic(r.h) <==> Acyclic(h))
  {
    hide Find, Tiled, Acyclic, Align8, BlockOk;
    var size := Align8(request);
    AlignCovers(request);
    AllLinks(h);
    var found := Find(h, h.head, size, |h.blocks|);
    if found.NotFound? {
      CreateKeeps(h, size);
      if Create(h, size).Got? {
        SameLinksAcyclic(h, Create(h, size).h);
      }
    } else if found.Found? {
      FoundIs(h, h.head, size, |h.blocks|);
      ReuseAcyclic(h, found.at, size);
    }
  }

  lemma ReuseAcyclic(h: Heap, b: nat, size: nat)
    requires Tiled(h) && b in h.blocks && size % 8 == 0 && size <= h.blocks[b].size
    ensures Acyclic(Split(h.(blocks := h.blocks[b := h.blocks[b].(free := false)]), b, size)) <==> Acyclic(h)
  {
    hide Tiled, Acyclic, BlockOk;
    var h1 := h.(blocks := h.blocks[b := h.blocks[b].(free := false)]);
    AllLinks(h);
    SameLinksAcyclic(h, h1);
    TakeKeeps(h, b, false);
    AllLinks(h1);
    Inside(h1, b);
    if h1.blocks[b].size > size + HEADER {
      RestIsNew(h1, b, size);
      InsertedAcyclic(h1, Split(h1, b, size), b, b + HEADER + size);
    }
  }

  /** Call number i of the run frees a block that is already on the list. */
  ghost predicate Relinks(hs: seq<Heap>, ops: seq<Op>, i: nat)
    requires i < |ops| && i < |hs|
  {
    ops[i].Freed? && ops[i].p > HEADER && OnList(hs[i], ops[i].p - HEADER)
  }

  lemma StepAcyclic(h: Heap, live: Live, op: Op, h': Heap, live': Live)
    requires Sound(h, live) && Steps(h, live, op, h', live')
    ensures Acyclic(h') <==> Acyclic(h) && !(op.Freed? && op.p > HEADER && OnList(h, op.p - HEADER))
  {
    hide Acyclic, OnList, Malloc, Sound, Fits64;
    match op {
      case Malloced(request) => MallocAcyclic(h, live, request);
      case Freed(p) =>
        if p != 0 {
          LivePayloads(h, live, p, p);
          FreeAcyclic(h, p);
        }
    }
  }

  /** Over every run: the list ends, and so does every search, exactly as long as no kfree has been of a block that was
      still linked from an earlier kfree. Once it is cyclic it stays so. */
  lemma {:induction false} RunAcyclic(hs: seq<Heap>, lives: seq<Live>, ops: seq<Op>, i: nat)
    requires Run(hs, lives, ops) && i < |hs|
    ensures Acyclic(hs[i]) <==> forall j :: 0 <= j < i ==> !Relinks(hs, ops, j)
  {
    hide Steps, OnList;
    if i == 0 {
      assert Nth(hs[0], hs[0].head, 0) == 0;
    } else {
      RunAcyclic(hs, lives, ops, i - 1);
      RunSound(hs, lives, ops, i - 1);
      assert StepAt(hs, lives, ops, i - 1);
      StepAcyclic(hs[i - 1], lives[i - 1], ops[i - 1], hs[i], lives[i]);
      assert Relinks(hs, ops, i - 1) <==> ops[i - 1].Freed? && ops[i - 1].p > HEADER && OnList(hs[i - 1], ops[i - 1].p - HEADER);
    }
  }

  // ----- what goes wrong -----

  /** The largest request wraps to zero: the pointer that is returned has no byte behind it. */
  lemma WrappedRequest()
    ensures Malloc(Init(), WORD64 - 1) == Got(Heap(map[BASE := Block(0, false, 0)], BASE + HEADER, 0), BASE + HEADER)
    ensures !Fits64(Init(), WORD64 - 1)
  {
    assert Align8(WORD64 - 1) == 0 && Align8(HEADER) == HEADER;
  }

  /** Allocating, freeing, allocating and freeing one block makes it its own successor; any larger request then searches
      for ever. */
  lemma CyclicList()
    ensures var h := Heap(map[BASE := Block(8, true, BASE)], BASE + 24, BASE);
            && Malloc(Init(), 8) == Got(Heap(map[BASE := Block(8, false, 0)], BASE + 24, 0), BASE + HEADER)
            && Free(Heap(map[BASE := Block(8, false, 0)], BASE + 24, 0), BASE + HEADER)
               == Heap(map[BASE := Block(8, true, 0)], BASE + 24, BASE)
            && Malloc(Heap(map[BASE := Block(8, true, 0)], BASE + 24, BASE), 8)
               == Got(Heap(map[BASE := Block(8, false, 0)], BASE + 24, BASE), BASE + HEADER)
            && Free(Heap(map[BASE := Block(8, false, 0)], BASE + 24, BASE), BASE + HEADER) == h
            && Endless(h, h.head, 16) && Malloc(h, 16) == Loops
  {
    var h := Heap(map[BASE := Block(8, true, BASE)], BASE + 24, BASE);
    forall n: nat ensures Find(h, BASE, 16, n).Searching? { Trapped(h, BASE, 16, {BASE}, n); }
    assert Align8(8) == 8 && Align8(16) == 16 && Align8(24) == 24;
  }

  /** A request is met exactly when no sum wraps: a wrapped sum passes the test and yields a block that is not there. */
  lemma MallocMeets(h: Heap, live: Live, request: nat)
    requires Sound(h, live) && request < WORD64 && Malloc(h, request).Got?
    ensures var r := Malloc(h, request);
            (Fits64(h, request) <==> r.p + request <= r.h.ptr <= END && r.h.ptr >= h.ptr)
  {
    hide Tiled, BlockOk, Malloc;
    if Fits64(h, request) {
      MallocKeeps(h, live, request);
      var r := Malloc(h, request);
      Inside(r.h, r.p - HEADER);
      MallocGrows(h, request);
    } else {
      Wraps(h, request);
    }
  }

  lemma MallocGrows(h: Heap, request: nat)
    requires Tiled(h) && Fits64(h, request) && Malloc(h, request).Got?
    ensures Malloc(h, request).h.ptr >= h.ptr
  {
    hide Find, Split, Align8, BlockOk, Apart;
    var size := Align8(request);
    if Find(h, h.head, size, |h.blocks|).NotFound? { CreateGrows(h, size); } else { SplitPtr(h, size); }
  }

  lemma CreateGrows(h: Heap, size: nat)
    requires Tiled(h) && size % 8 == 0 && h.ptr + HEADER + size < WORD64 && Create(h, size).Got?
    ensures Create(h, size).h.ptr >= h.ptr
  {
    hide BlockOk, Apart;
    Align8Exact(HEADER + size);
  }

  lemma SplitPtr(h: Heap, size: nat)
    ensures forall b :: b in h.blocks ==> Split(h.(blocks := h.blocks[b := h.blocks[b].(free := false)]), b, size).ptr == h.ptr
  {
  }

  lemma Wraps(h: Heap, request: nat)
    requires Tiled(h) && request < WORD64 && !Fits64(h, request) && Malloc(h, request).Got?
    ensures var r := Malloc(h, request); r.p + request > r.h.ptr || r.h.ptr > END
  {
    var r := Malloc(h, request);
    assert request >= END;
    assert r.h.ptr < r.p + request || r.h.ptr > END;
  }

  // ----- the allocator as an object -----

  class Allocator {
    var blocks: map<nat, Block>
    var heapPtr: nat
    var head: nat

    ghost function View(): Heap
      reads this
    {
      Heap(blocks, heapPtr, head)
    }

    /** kalloc_init. */
    constructor ()
      ensures View() == Init()
    {
      blocks, heapPtr, head := map[], BASE, 0;
    }

    /** The list walk. It gives up after as many links as there are blocks, which happens only when the list is
        cyclic and the walk would never end. */
    method FindFree(size: nat) returns (p: nat, endless: bool)
      requires LinkOk(View(), head) && (forall a :: a in blocks ==> LinkOk(View(), blocks[a].next))
      ensures endless <==> Endless(View(), head, size)
      ensures !endless ==> Find(View(), head, size, |blocks|) == if p == 0 then NotFound else Found(p)
      ensures p != 0 ==> p in blocks
    {
      SearchDecided(View(), size);
      p := head;
      var steps: nat := 0;
      while p != 0 && !(blocks[p].free && blocks[p].size >= size)
        invariant steps <= |blocks| && LinkOk(View(), p)
        invariant Find(View(), p, size, |blocks| - steps) == Find(View(), head, size, |blocks|)
        decreases |blocks| - steps
      {
        if steps == |blocks| {
          return 0, true;
        }
        p := blocks[p].next;
        steps := steps + 1;
      }
      return p, false;
    }

    method CreateBlock(size: nat) returns (b: nat)
      modifies this
      ensures match Create(old(View()), size)
              case Full => b == 0 && View() == old(View())
              case Got(h, p) => View() == h && b + HEADER == p
              case Loops => false
    {
      if (heapPtr + HEADER + size) % WORD64 > END {
        return 0;
      }
      b := heapPtr;
      blocks := blocks[b := Block(size, false, 0)];
      heapPtr := (heapPtr + Align8(HEADER + size)) % WORD64;
    }

    method SplitBlock(b: nat, size: nat)
      requires b in blocks
      modifies this`blocks
      ensures View() == Split(old(View()), b, size)
    {
      if blocks[b].size <= size + HEADER {
        return;
      }
      var rest := b + HEADER + size;
      var k := blocks[b];
      blocks := blocks[rest := Block(k.size - size - HEADER, true, k.next)];
      blocks := blocks[b := k.(size := size, next := rest)];
    }

    /** kmalloc: null when there is no room; the flag says that the call would not have returned. */
    method Allocate(request: nat) returns (p: nat, endless: bool)
      requires Tiled(View())
      modifies this
      ensures match Malloc(old(View()), request)
              case Loops => endless && Endless(old(View()), old(head), Align8(request)) && View() == old(View())
              case Full => !endless && p == 0 && View() == old(View())
              case Got(h, q) => !endless && p == q && View() == h
    {
      hide Find, Split, Align8, BlockOk, Apart, Endless;
      AllLinks(View());
      var size := Align8(request);
      var b;
      b, endless := FindFree(size);
      SearchDecided(View(), size);
      if endless {
        return 0, true;
      }
      if b != 0 {
        blocks := blocks[b := blocks[b].(free := false)];
        SplitBlock(b, size);
        return b + HEADER, false;
      }
      PtrPositive(View());
      b := CreateBlock(size);
      p := if b == 0 then 0 else b + HEADER;
    }

    /** kfree of a null pointer or of a live one. */
    method Release(p: nat)
      requires p == 0 || (p >= HEADER && p - HEADER in blocks)
      modifies this
      ensures View() == if p == 0 then old(View()) else Free(old(View()), p)
    {
      if p == 0 {
        return;
      }
      var b := p - HEADER;
      blocks := blocks[b := blocks[b].(free := true, next := head)];
      head := b;
    }
  }

  lemma AllLinks(h: Heap)
    requires Tiled(h)
    ensures LinkOk(h, h.head) && forall a :: a in h.blocks ==> LinkOk(h, h.blocks[a].next)
  {
    hide BlockOk, Apart;
    forall a | a in h.blocks ensures LinkOk(h, h.blocks[a].next) { LinksOk(h, a); }
  }

  lemma PtrPositive(h: Heap)
    requires Tiled(h)
    ensures h.ptr > 0
  {
    hide BlockOk, Apart;
  }
}
