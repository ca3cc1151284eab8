/** The physical frame allocator: a word-scanned bitmap over 4 KB blocks. */
module PhysicalMemory {

  /** A bitmap word, given by its 32 bits; bit j is the one the mask 1u << j selects. */
  type Word = w: seq<bool> | |w| == 32 witness seq(32, _ => false)

  const ALL_ONES: Word := seq(32, _ => true)

  // ----- the bitmap as a sequence of flags -----

  /** The n blocks from s on exist and are all free. */
  predicate FreeRun(bits: seq<bool>, s: nat, n: nat) {
    s + n <= |bits| && forall b :: s <= b < s + n ==> !bits[b]
  }

  /** The flags with the n blocks from s on set to v. */
  function Marked(bits: seq<bool>, s: nat, n: nat, v: bool): (r: seq<bool>)
    requires s + n <= |bits|
    ensures |r| == |bits| && forall b :: 0 <= b < |bits| ==> r[b] == if s <= b < s + n then v else bits[b]
  {
    bits[..s] + seq(n, _ => v) + bits[s + n..]
  }

  lemma MarkedStep(bits: seq<bool>, s: nat, n: nat, v: bool)
    requires s + n < |bits|
    ensures Marked(bits, s, n, v)[s + n := v] == Marked(bits, s, n + 1, v)
  {}

  lemma MarkedNone(bits: seq<bool>, s: nat, v: bool)
    requires s <= |bits|
    ensures Marked(bits, s, 0, v) == bits
  {}

  function Count(bits: seq<bool>): nat {
    if bits == [] then 0 else Count(bits[..|bits| - 1]) + if bits[|bits| - 1] then 1 else 0
  }

  lemma {:induction false} CountUpdate(bits: seq<bool>, b: nat, v: bool)
    requires b < |bits|
    ensures Count(bits[b := v]) == Count(bits) + (if v then 1 else 0) - (if bits[b] then 1 else 0)
    decreases |bits|
  {
    var n := |bits| - 1;
    if b < n {
      CountUpdate(bits[..n], b, v);
      assert bits[b := v][..n] == bits[..n][b := v];
    } else {
      assert bits[b := v][..n] == bits[..n];
    }
  }

  /** Marking a uniform run changes the count by its length. */
  lemma {:induction false} CountMarked(bits: seq<bool>, s: nat, n: nat, v: bool)
    requires s + n <= |bits| && forall b :: s <= b < s + n ==> bits[b] == !v
    ensures Count(Marked(bits, s, n, v)) == if v then Count(bits) + n else Count(bits) - n
    decreases n
  {
    hide Count, Marked;
    if n == 0 {
      assert Marked(bits, s, 0, v) == bits;
    } else {
      CountMarked(bits, s, n - 1, v);
      var m := Marked(bits, s, n - 1, v);
      CountUpdate(m, s + n - 1, v);
      assert Marked(bits, s, n, v) == m[s + n - 1 := v];
    }
  }

  /** Where the search may start a run: it looks only at whole words. */
  function SearchLimit(max: nat): nat {
    max / 32 * 32
  }

  /** s is the lowest start the search can return. */
  ghost predicate Lowest(bits: seq<bool>, n: nat, s: nat) {
    && n > 0 && s < SearchLimit(|bits|) && FreeRun(bits, s, n)
    && forall r :: 0 <= r < s ==> !FreeRun(bits, r, n)
  }

  ghost predicate NoFit(bits: seq<bool>, n: nat) {
    n == 0 || forall r :: 0 <= r < SearchLimit(|bits|) ==> !FreeRun(bits, r, n)
  }

  // ----- the allocator as a state machine -----

  datatype Frames = Frames(bits: seq<bool>, used: nat)

  /** The counter test of the allocator, in 64-bit unsigned arithmetic. */
  predicate Short(m: Frames, n: nat) {
    (|m.bits| - m.used) % 0x1_0000_0000_0000_0000 <= n
  }

  /** An allocation of n blocks at s, or a refusal (s == -1). */
  ghost predicate Allocates(m: Frames, n: nat, s: int, m': Frames) {
    if s < 0 then s == -1 && m' == m && (Short(m, n) || NoFit(m.bits, n))
    else !Short(m, n) && Lowest(m.bits, n, s) && m' == Frames(Marked(m.bits, s, n, true), (m.used + n) % 0x1_0000_0000_0000_0000)
  }

  ghost predicate Frees(m: Frames, s: nat, n: nat, m': Frames) {
    if s + n > |m.bits| then m' == m
    else m' == Frames(Marked(m.bits, s, n, false), (m.used - n) % 0x1_0000_0000_0000_0000)
  }

  /** A reservation sets the n blocks from s on, as far as they exist, and counts those that were free. */
  ghost predicate Reserves(m: Frames, s: nat, n: nat, m': Frames) {
    && |m'.bits| == |m.bits| && (forall b :: 0 <= b < |m.bits| ==> m'.bits[b] == (m.bits[b] || s <= b < s + n))
    && m'.used - Count(m'.bits) == m.used - Count(m.bits)
  }

  /** Start-up sets block 0 and counts it, whether or not it was counted before. */
  function FirstReserved(m: Frames): Frames
    requires m.bits != []
  {
    Frames(m.bits[0 := true], m.used + 1)
  }

  /** The counter is right after that exactly when block 0 was still free. */
  lemma FirstCounted(m: Frames)
    requires m.bits != [] && m.used == Count(m.bits)
    ensures var m' := FirstReserved(m);
      && (m'.used == Count(m'.bits) <==> !m.bits[0])
      && m'.used == Count(m'.bits) + if m.bits[0] then 1 else 0
  {
    CountUpdate(m.bits, 0, true);
  }

  /** A map whose first block was already reserved: one block is set and two are counted. */
  lemma FirstCountedTwice()
    ensures var m := Frames([true, false], 1);
      m.used == Count(m.bits) && FirstReserved(m) == Frames([true, false], 2) && Count(FirstReserved(m).bits) == 1
  {
    assert [true, false][..1] == [true] && [true][..0] == [];
    assert Count([true]) == 1 && Count([true, false]) == 1;
    assert [true, false][0 := true] == [true, false];
  }

  /** The runs handed out and not yet freed: start and length. */
  type Runs = map<nat, nat>

  /** Outstanding runs lie apart in set blocks, block 0 belongs to none, and the counter is the number of set
      blocks, or one more if block 0 was counted twice at start-up. */
  ghost predicate Consistent(m: Frames, runs: Runs, slack: nat) {
    && 0 < |m.bits| < 0x8000_0000 && slack <= 1
    && m.bits[0] && m.used == Count(m.bits) + slack
    && (forall s :: s in runs ==> 0 < s && 0 < runs[s] && RunSet(m.bits, s, runs[s]))
    && (forall s, t :: s in runs && t in runs && s < t ==> s + runs[s] <= t)
  }

  predicate RunSet(bits: seq<bool>, s: nat, n: nat) {
    s + n <= |bits| && forall b :: s <= b < s + n ==> bits[b]
  }

  lemma {:induction false} CountBound(bits: seq<bool>)
    ensures Count(bits) <= |bits|
  {
    if bits != [] {
      CountBound(bits[..|bits| - 1]);
    }
  }

  /** An allocation returns blocks that no outstanding run holds, never block 0. */
  lemma AllocateKeeps(m: Frames, runs: Runs, slack: nat, n: nat, s: int, m': Frames)
    requires Consistent(m, runs, slack) && Allocates(m, n, s, m')
    ensures s != 0 && (s < 0 ==> Consistent(m', runs, slack))
    ensures s > 0 ==> s !in runs && Consistent(m', runs[s as nat := n], slack)
    ensures s > 0 ==> forall t :: t in runs ==> s + n <= t || t + runs[t] <= s
  {
    hide Count;
    if s >= 0 {
      assert !m.bits[s];
      forall t | t in runs ensures s + n <= t || t + runs[t] <= s {
        assert RunSet(m.bits, t, runs[t]);
        assert m.bits[t];
      }
      CountMarked(m.bits, s, n, true);
      CountBound(m'.bits);
    }
  }

  /** Freeing an outstanding run removes it and leaves all others outstanding. */
  lemma FreeKeeps(m: Frames, runs: Runs, slack: nat, s: nat, m': Frames)
    requires Consistent(m, runs, slack) && s in runs && Frees(m, s, runs[s], m')
    ensures Consistent(m', runs - {s}, slack)
  {
    hide Count;
    var n := runs[s];
    assert RunSet(m.bits, s, n);
    CountMarked(m.bits, s, n, false);
    CountBound(m.bits);
    forall t | t in runs && t != s ensures RunSet(m'.bits, t, runs[t]) {
      assert RunSet(m.bits, t, runs[t]);
    }
  }

  /** A reservation keeps every outstanding run and the counter's relation to the bits. */
  lemma ReserveKeeps(m: Frames, runs: Runs, slack: nat, s: nat, n: nat, m': Frames)
    requires Consistent(m, runs, slack) && Reserves(m, s, n, m')
    ensures Consistent(m', runs, slack)
  {
    hide Count;
    forall t | t in runs ensures RunSet(m'.bits, t, runs[t]) {
      assert RunSet(m.bits, t, runs[t]);
    }
  }

  lemma ConsistentCounts(m: Frames, runs: Runs, slack: nat)
    requires Consistent(m, runs, slack)
    ensures Count(m.bits) <= m.used <= Count(m.bits) + 1
  {
    hide Count;
  }

  lemma LowestIsFree(bits: seq<bool>, n: nat, s: nat)
    requires Lowest(bits, n, s)
    ensures FreeRun(bits, s, n)
  {}

  /** A request that a run of free blocks would meet is refused exactly when it asks for all the blocks that are free. */
  lemma LastRefused(m: Frames, runs: Runs, n: nat, at: nat, s: int, m': Frames)
    requires Consistent(m, runs, 0) && Lowest(m.bits, n, at) && Allocates(m, n, s, m')
    ensures s == -1 <==> n == |m.bits| - Count(m.bits)
  {
    hide Count;
    CountBound(m.bits);
    CountMarked(m.bits, at, n, true);
    CountBound(Marked(m.bits, at, n, true));
  }

  /** One free block that would do, and the request for it refused. */
  lemma LastBlockRefused()
    ensures var m := Frames(seq(64, b => b != 5), 63);
      m.used == Count(m.bits) && FreeRun(m.bits, 5, 1) && Short(m, 1)
  {
    var all := seq(64, b => true);
    CountAllSet(all);
    CountUpdate(all, 5, false);
    assert all[5 := false] == seq(64, b => b != 5);
  }

  // ----- whole runs -----

  datatype Request = Take(n: nat) | Give(s: nat) | Reserve(s: nat, n: nat)

  /** One request: blocks are taken, an outstanding run is given back, or a region is reserved. */
  ghost predicate Serves(m: Frames, runs: Runs, r: Request, m': Frames, runs': Runs) {
    match r
    case Take(n) => exists s :: Allocates(m, n, s, m') && runs' == if s < 0 then runs else runs[s as nat := n]
    case Give(s) => s in runs && Frees(m, s, runs[s], m') && runs' == runs - {s}
    case Reserve(s, n) => Reserves(m, s, n, m') && runs' == runs
  }

  ghost predicate ServesAt(ms: seq<Frames>, rs: seq<Runs>, reqs: seq<Request>, i: nat)
    requires |ms| == |rs| == |reqs| + 1 && i < |reqs|
  {
    Serves(ms[i], rs[i], reqs[i], ms[i + 1], rs[i + 1])
  }

  /** In every run that gives back only outstanding runs, every state is consistent. */
  lemma {:induction false} RunStaysConsistent(ms: seq<Frames>, rs: seq<Runs>, reqs: seq<Request>, slack: nat, i: nat)
    requires |ms| == |rs| == |reqs| + 1 && Consistent(ms[0], rs[0], slack) && i <= |reqs|
    requires forall j :: 0 <= j < |reqs| ==> ServesAt(ms, rs, reqs, j)
    ensures Consistent(ms[i], rs[i], slack)
  {
    hide Consistent, Allocates, Frees, Reserves;
    if i > 0 {
      RunStaysConsistent(ms, rs, reqs, slack, i - 1);
      assert ServesAt(ms, rs, reqs, i - 1);
      match reqs[i - 1]
      case Take(n) =>
        var s :| Allocates(ms[i - 1], n, s, ms[i]) && rs[i] == if s < 0 then rs[i - 1] else rs[i - 1][s as nat := n];
        AllocateKeeps(ms[i - 1], rs[i - 1], slack, n, s, ms[i]);
      case Give(s) =>
        FreeKeeps(ms[i - 1], rs[i - 1], slack, s, ms[i]);
      case Reserve(s, n) =>
        ReserveKeeps(ms[i - 1], rs[i - 1], slack, s, n, ms[i]);
    }
  }

  /** An allocation directly undone gives back every flag and the counter. */
  lemma FreeUndoesAllocate(m: Frames, runs: Runs, slack: nat, n: nat, s: nat, m': Frames, m'': Frames)
    requires Consistent(m, runs, slack) && Allocates(m, n, s, m') && Frees(m', s, n, m'')
    ensures m'' == m
  {
    hide Count, Lowest, Short;
    LowestIsFree(m.bits, n, s);
    CountMarked(m.bits, s, n, true);
    CountBound(m'.bits);
    assert m''.bits == m.bits;
  }

  lemma {:induction false} CountAllSet(bits: seq<bool>)
    requires forall b :: 0 <= b < |bits| ==> bits[b]
    ensures Count(bits) == |bits|
  {
    if bits != [] {
      CountAllSet(bits[..|bits| - 1]);
    }
  }

  /** The number of blocks that `size` bytes touch, in 64-bit arithmetic. */
  function BlocksFor(size: nat): nat {
    (size + 4095) % 0x1_0000_0000_0000_0000 / 4096
  }

  /** A region of memory: base address and size. */
  datatype Region = Region(base: nat, size: nat)

  /** Block b is one of those that the driver takes for the region's. */
  predicate Covers(r: Region, b: nat) {
    r.base / 4096 <= b < r.base / 4096 + BlocksFor(r.size)
  }

  predicate CoversAny(rs: seq<Region>, b: nat) {
    exists i :: 0 <= i < |rs| && Covers(rs[i], b)
  }

  /** Those blocks hold every byte of the region exactly when what lies before it in its first block fits in as well: the
      number of blocks is counted as if the region began at a block. */
  lemma RegionCovered(r: Region)
    requires r.base + r.size + 4095 < 0x1_0000_0000_0000_0000
    ensures (forall a: nat :: r.base <= a < r.base + r.size ==> Covers(r, a / 4096))
       <==> r.size == 0 || r.base % 4096 + r.size <= 4096 * BlocksFor(r.size)
    ensures 4096 * BlocksFor(r.size) < r.size + 4096
  {
    var n := BlocksFor(r.size);
    var q, o := r.base / 4096, r.base % 4096;
    if r.size == 0 || o + r.size <= 4096 * n {
      forall a: nat | r.base <= a < r.base + r.size ensures Covers(r, a / 4096) {
        assert 4096 * q <= a < 4096 * (q + n);
      }
    } else {
      var a := r.base + r.size - 1;
      assert a >= 4096 * (q + n);
      assert !Covers(r, a / 4096);
    }
  }

  /** A region of 4096 bytes in the middle of a block: its second half is in no block taken for it. */
  lemma RegionCut()
    ensures var r := Region(0x800, 0x1000); Covers(r, 0x800 / 4096) && !Covers(r, 0x1000 / 4096)
  {}

  /** What start-up leaves free: the available regions without the kernel, the boot information, the bitmap, the first
      block and the processors' start-up page. */
  predicate LeftFree(available: seq<Region>, kernel: Region, info: Region, bitmap: Region, b: nat) {
    CoversAny(available, b) && !Covers(kernel, b) && !Covers(info, b) && !Covers(bitmap, b) && b != 0 && b != 8
  }

  // ----- the driver -----

  class Bitmap {
    const words: array<Word>
    const max: nat
    var used: nat

    predicate Shaped() {
      max < 0x8000_0000 && 32 * words.Length >= max
    }

    ghost predicate Valid()
      reads this`used
    {
      Shaped() && used < 0x1_0000_0000_0000_0000
    }

    ghost function Bits(): (r: seq<bool>)
      requires Shaped()
      reads words
      ensures |r| == max
    {
      seq(max, b requires 0 <= b < max reads words => words[b / 32][b % 32])
    }

    ghost function State(): Frames
      requires Valid()
      reads this`used, words
    {
      Frames(Bits(), used)
    }

    // the bitmap at the beginning of start-up: every block used
    constructor (blocks: nat)
      requires blocks < 0x8000_0000
      ensures Valid() && max == blocks && fresh(words) && used == blocks
      ensures forall b :: 0 <= b < max ==> Bits()[b]
    {
      words := new Word[(blocks + 31) / 32](_ => ALL_ONES);
      max := blocks;
      used := blocks;
    }

    // set_block
    method SetBlock(bit: nat)
      requires Valid()
      modifies words
      ensures Valid() && Bits() == if bit < max then old(Bits())[bit := true] else old(Bits())
    {
      if bit < max {
        words[bit / 32] := words[bit / 32][bit % 32 := true];
      }
    }

    // unset_block
    method UnsetBlock(bit: nat)
      requires Valid()
      modifies words
      ensures Valid() && Bits() == if bit < max then old(Bits())[bit := false] else old(Bits())
    {
      if bit < max {
        words[bit / 32] := words[bit / 32][bit % 32 := false];
      }
    }

    // reserve_region and deinitialize_memory_region; blocks at or beyond max are ignored
    method ReserveRegion(base: nat, size: nat)
      requires Valid() && Count(Bits()) <= used <= Count(Bits()) + 1
      modifies this`used, words
      ensures Valid() && Reserves(old(State()), base / 4096, BlocksFor(size), State())
    {
      hide Count;
      var start, n := base / 4096, BlocksFor(size);
      ghost var extra := used - Count(Bits());
      var i := 0;
      while i < n && start + i < max
        invariant i <= n && Valid() && used == Count(Bits()) + extra
        invariant forall b :: 0 <= b < max ==> Bits()[b] == (old(Bits())[b] || start <= b < start + i)
      {
        assert Bits()[start + i] == words[(start + i) / 32][(start + i) % 32];
        if !words[(start + i) / 32][(start + i) % 32] {
          CountUpdate(Bits(), start + i, true);
          CountBound(Bits()[start + i := true]);
          SetBlock(start + i);
          used := used + 1;
        }
        i := i + 1;
      }
    }

    // free_region
    method FreeRegion(base: nat, size: nat)
      requires Valid() && used == Count(Bits())
      modifies this`used, words
      ensures Valid() && used == Count(Bits())
      ensures forall b :: 0 <= b < max ==> Bits()[b] == (old(Bits())[b] && !(base / 4096 <= b < base / 4096 + BlocksFor(size)))
    {
      hide Count;
      var start, n := base / 4096, BlocksFor(size);
      var i := 0;
      while i < n && start + i < max
        invariant i <= n && Valid() && used == Count(Bits())
        invariant forall b :: 0 <= b < max ==> Bits()[b] == (old(Bits())[b] && !(start <= b < start + i))
      {
        assert Bits()[start + i] == words[(start + i) / 32][(start + i) % 32];
        if words[(start + i) / 32][(start + i) % 32] {
          CountUpdate(Bits(), start + i, false);
          UnsetBlock(start + i);
          used := used - 1;
        }
        i := i + 1;
      }
    }

    // the reservation of block 0, which counts it again if it was already set
    method ReserveFirst()
      requires Valid() && 0 < max && used == Count(Bits())
      modifies this`used, words
      ensures Valid() && State() == FirstReserved(old(State()))
      ensures Consistent(State(), map[], if old(Bits())[0] then 1 else 0)
    {
      FirstCounted(State());
      CountBound(Bits());
      SetBlock(0);
      used := used + 1;
    }

    // initialize_memory_manager_from_mbi: the available regions freed, then what is in use reserved again
    method StartUp(available: seq<Region>, kernel: Region, info: Region, bitmap: Region) returns (ghost slack: nat)
      requires Valid() && 0 < max && used == max && forall b :: 0 <= b < max ==> Bits()[b]
      modifies this`used, words
      ensures Valid() && Consistent(State(), map[], slack)
      ensures forall b :: 0 <= b < max ==> (!Bits()[b] <==> LeftFree(available, kernel, info, bitmap, b))
    {
      hide Count, Consistent, BlocksFor;
      CountAllSet(Bits());
      var i := 0;
      while i < |available|
        invariant i <= |available| && Valid() && used == Count(Bits())
        invariant forall b :: 0 <= b < max ==> (!Bits()[b] <==> CoversAny(available[..i], b))
      {
        CoversMore(available, i);
        FreeRegion(available[i].base, available[i].size);
        i := i + 1;
      }
      assert available[..i] == available;
      ReserveFrom(kernel);
      ReserveFrom(info);
      ReserveFrom(bitmap);
      slack := if Bits()[0] then 1 else 0;
      ReserveFirst();
      ConsistentCounts(State(), map[], slack);
      ghost var before := State();
      ReserveRegion(0x8000, 0x1000);
      OneBlock();
      ReserveKeeps(before, map[], slack, 0x8000 / 4096, BlocksFor(0x1000), State());
    }

    method ReserveFrom(r: Region)
      requires Valid() && used == Count(Bits())
      modifies this`used, words
      ensures Valid() && used == Count(Bits())
      ensures forall b :: 0 <= b < max ==> Bits()[b] == (old(Bits())[b] || Covers(r, b))
    {
      hide Count, BlocksFor;
      ReserveRegion(r.base, r.size);
    }

    // the innermost loop of find_first_free_blocks
    method RunFits(s: nat, n: nat) returns (fits: bool)
      requires Valid()
      ensures fits <==> FreeRun(Bits(), s, n)
    {
      var k := 0;
      while k < n
        invariant k <= n && (FreeRun(Bits(), s, k) || (k == 0 && s > max))
      {
        var bit := s + k;
        if bit >= max { return false; }
        assert Bits()[bit] == words[bit / 32][bit % 32];
        if words[bit / 32][bit % 32] { return false; }
        k := k + 1;
      }
      fits := s + n <= max;
    }

    // find_first_free_blocks
    method FindFirstFree(n: nat) returns (start: int)
      requires Valid()
      ensures start == -1 || start >= 0
      ensures start == -1 ==> NoFit(Bits(), n)
      ensures start >= 0 ==> Lowest(Bits(), n, start)
    {
      if n == 0 { return -1; }
      ghost var bits := Bits();
      var i := 0;
      while i < max / 32
        invariant i <= max / 32
        invariant forall r :: 0 <= r < 32 * i ==> !FreeRun(bits, r, n)
      {
        if words[i] != ALL_ONES {
          var j := 0;
          while j < 32
            invariant j <= 32
            invariant forall r :: 0 <= r < 32 * i + j ==> !FreeRun(bits, r, n)
          {
            var s := i * 32 + j;
            assert s / 32 == i && s % 32 == j && bits[s] == words[i][j];
            if !words[i][j] {
              var fits := RunFits(s, n);
              if fits { return s; }
            }
            j := j + 1;
          }
        } else {
          forall r | 32 * i <= r < 32 * i + 32 ensures !FreeRun(bits, r, n) {
            assert bits[r] == words[r / 32][r % 32];
          }
        }
        i := i + 1;
      }
      start := -1;
    }

    // allocate_blocks; the address of block 0 is NULL
    method AllocateBlocks(n: nat) returns (address: nat, ghost start: int)
      requires Valid() && n < 0x1_0000_0000
      modifies this`used, words
      ensures Valid() && Allocates(old(State()), n, start, State())
      ensures address == if start < 0 then 0 else 4096 * start
    {
      hide Marked, Lowest, NoFit;
      start := -1;
      if (max - used) % 0x1_0000_0000_0000_0000 <= n { return 0, -1; }
      var s := FindFirstFree(n);
      if s == -1 { return 0, -1; }
      ghost var bits := Bits();
      LowestIsFree(bits, n, s);
      MarkedNone(bits, s, true);
      var i := 0;
      while i < n
        invariant i <= n && Valid() && used == old(used)
        invariant Bits() == Marked(bits, s, i, true)
      {
        SetBlock(s + i);
        MarkedStep(bits, s, i, true);
        i := i + 1;
      }
      used := (used + n) % 0x1_0000_0000_0000_0000;
      address, start := 4096 * s, s;
    }

    // free_blocks
    method FreeBlocks(address: nat, n: nat)
      requires Valid() && n < 0x1_0000_0000
      modifies this`used, words
      ensures Valid() && Frees(old(State()), address / 4096 % 0x1_0000_0000, n, State())
    {
      hide Marked;
      var start := address / 4096 % 0x1_0000_0000;
      if start >= 0x8000_0000 || start + n > max { return; }
      ghost var bits := Bits();
      MarkedNone(bits, start, false);
      var i := 0;
      while i < n
        invariant i <= n && Valid() && used == old(used)
        invariant Bits() == Marked(bits, start, i, false)
      {
        UnsetBlock(start + i);
        MarkedStep(bits, start, i, false);
        i := i + 1;
      }
      used := (used - n) % 0x1_0000_0000_0000_0000;
    }
  }

  lemma CoversMore(rs: seq<Region>, i: nat)
    requires i < |rs|
    ensures forall b: nat :: CoversAny(rs[..i + 1], b) <==> CoversAny(rs[..i], b) || Covers(rs[i], b)
  {
    hide Covers;
    forall b: nat ensures CoversAny(rs[..i + 1], b) <==> CoversAny(rs[..i], b) || Covers(rs[i], b) {
      if CoversAny(rs[..i], b) {
        var k :| 0 <= k < i && Covers(rs[..i][k], b);
        assert rs[..i + 1][k] == rs[k];
      }
      assert rs[..i + 1][i] == rs[i];
      if CoversAny(rs[..i + 1], b) && !Covers(rs[i], b) {
        var k :| 0 <= k <= i && Covers(rs[..i + 1][k], b);
        assert rs[..i][k] == rs[k];
      }
    }
  }

  lemma OneBlock()
    ensures BlocksFor(0x1000) == 1
  {}
}
