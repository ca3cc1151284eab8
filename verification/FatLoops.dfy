/** What one round of each loop of the driver does: freeing, storing, reading, overwriting, scanning. */
module FatLoops {
  import opened Bytes
  import opened FatTable
  import opened FatArea
  import opened FatNames
  import opened FatDirectory
  import opened FatVolume
  import opened FatSteps
  import opened FatOps
  import opened FatRuns
  import opened FatLayout
  import opened FatFiles
  import opened FatBigRead

  lemma LowestFree(f: Fat, c: nat)
    requires IsFree(f, c) && forall x :: 2 <= x < c ==> !IsFree(f, x)
    ensures FreeList(f) != [] && FreeList(f)[0] == c
  {
    assert c in FreeList(f);
  }

  lemma NoneFree(f: Fat)
    requires forall x :: 2 <= x < |f| ==> !IsFree(f, x)
    ensures FreeList(f) == []
  {
    var l := FreeList(f);
    assert l != [] ==> IsFree(f, l[0]);
  }

  lemma {:induction false} ClearedSnoc(f: Fat, cs: seq<nat>, c: nat)
    requires AllInRange(f, cs) && InRange(f, c)
    ensures AllInRange(f, cs + [c]) && Cleared(f, cs + [c]) == SetLink(Cleared(f, cs), c, 0)
    decreases |cs|
  {
    if cs == [] {
      assert [c][1..] == [];
    } else {
      assert (cs + [c])[1..] == cs[1..] + [c];
      ClearedSnoc(SetLink(f, cs[0], 0), cs[1..], c);
    }
  }

  /** The free loop stands at c, having cleared `done`; `avail` is what it has not met. */
  ghost predicate Freeing(f: Fat, start: nat, done: seq<nat>, avail: set<nat>, c: nat) {
    && AllInRange(f, done) && avail <= Clusters(f)
    && (forall x :: x in Clusters(f) ==> (x in avail <==> x !in done))
    && ChainOf(f, start) == done + Trail(f, c, avail)
    && (c < |f| || c >= CLUSTER_BAD)
  }

  /** One round of the free loop: a cluster not met before is cleared; one met before is already clear and ends the walk. */
  lemma FreeingStep(f: Fat, start: nat, done: seq<nat>, avail: set<nat>, c: nat)
    requires LinksInRange(f, start) && Freeing(f, start, done, avail, c) && InRange(f, c)
    ensures c in avail ==>
      && Freeing(f, start, done + [c], avail - {c}, Next(f, c))
      && Cleared(f, done + [c]) == SetLink(Cleared(f, done), c, 0)
      && Next(Cleared(f, done), c) == Next(f, c)
    ensures c !in avail ==>
      && Freeing(f, start, done, avail, 0)
      && Cleared(f, done) == SetLink(Cleared(f, done), c, 0)
      && Next(Cleared(f, done), c) == 0
  {
    ClearedAt(f, done, c);
    if c in avail {
      ClearedSnoc(f, done, c);
      assert LinkInRange(f, c) by {
        assert ChainOf(f, start)[|done|] == c;
      }
      assert done + ([c] + Trail(f, Next(f, c), avail - {c})) == done + [c] + Trail(f, Next(f, c), avail - {c});
    } else {
      assert Trail(f, c, avail) == [] == Trail(f, 0, avail);
    }
  }

  lemma FreeingStart(f: Fat, start: nat)
    requires start < |f| || start >= CLUSTER_BAD
    ensures Freeing(f, start, [], Clusters(f), start) && Cleared(f, []) == f
  {
    assert [] + Trail(f, start, Clusters(f)) == Trail(f, start, Clusters(f));
  }

  lemma FreeingRange(f: Fat, start: nat, done: seq<nat>, avail: set<nat>, c: nat)
    requires Freeing(f, start, done, avail, c)
    ensures AllInRange(f, done) && (c < |f| || c >= CLUSTER_BAD)
  {}

  lemma FreeingDone(f: Fat, start: nat, done: seq<nat>, avail: set<nat>, c: nat)
    requires Freeing(f, start, done, avail, c) && !InRange(f, c)
    ensures done == ChainOf(f, start)
  {
    assert done + [] == done;
  }

  // ----- the store loop -----

  /** The store loop has linked the first c clusters of the free list l, the last of them being `prev`. */
  ghost predicate Linking(f0: Fat, f: Fat, n: nat, c: nat, prev: nat) {
    var l := FreeList(f0);
    && |f| == |f0| > 0 && c <= n && c <= |l|
    && prev == (if c == 0 then 0 else l[c - 1])
    && FreeList(f) == l[c..]
    && LinkFrom(f0, 0, Take(l, n)) == LinkFrom(f, prev, Take(l, n)[c..])
  }

  function LinkOne(f: Fat, prev: nat, cl: nat): Fat
    requires prev < |f| && cl < |f|
  {
    var f1 := SetLink(f, cl, CLUSTER_EOC);
    if prev != 0 then SetLink(f1, prev, cl) else f1
  }

  lemma LinkingStep(f0: Fat, f: Fat, n: nat, c: nat, prev: nat)
    requires Linking(f0, f, n, c, prev) && c < n && FreeList(f) != []
    ensures prev < |f| && Linking(f0, LinkOne(f, prev, FreeList(f)[0]), n, c + 1, FreeList(f)[0])
    ensures c < |FreeList(f0)| && FreeList(f)[0] == FreeList(f0)[c] && FreeList(f)[0] != 0
  {
    var l := FreeList(f0);
    var cl := FreeList(f)[0];
    var cs := Take(l, n);
    assert cl == l[c] == cs[c];
    assert cs[c..][0] == cl && cs[c..][1..] == cs[c + 1..];
    var f1 := SetLink(f, cl, CLUSTER_EOC);
    FreeListAfterTake(f, CLUSTER_EOC);
    if prev != 0 {
      assert !IsFree(f1, prev) by {
        assert prev !in l[c..];
      }
      FreeListKept(f1, prev, cl);
    }
    assert l[c..][1..] == l[c + 1..];
  }

  lemma LinkingStops(f0: Fat, f: Fat, n: nat, c: nat, prev: nat)
    requires Linking(f0, f, n, c, prev) && (c == n || FreeList(f) == [])
    ensures f == LinkFrom(f0, 0, Take(FreeList(f0), n))
    ensures |Take(FreeList(f0), n)| == c
  {
    assert Take(FreeList(f0), n)[c..] == [];
  }

  lemma LinkingStarts(f0: Fat, n: nat)
    requires |f0| > 0
    ensures Linking(f0, f0, n, 0, 0)
  {
    assert FreeList(f0)[0..] == FreeList(f0) && Take(FreeList(f0), n)[0..] == Take(FreeList(f0), n);
  }

  /** The sectors still to be written are `pending`, the content still to be stored starts at `off`. */
  ghost predicate Storing(area0: seq<Sector>, ss: seq<nat>, content: seq<Byte>, area: seq<Sector>, pending: seq<nat>, off: nat) {
    && Within(area0, ss) && Within(area, pending) && |area| == |area0| && off <= |content|
    && Store(area0, ss, content) == Store(area, pending, content[off..])
  }

  lemma StoringStep(area0: seq<Sector>, ss: seq<nat>, content: seq<Byte>, area: seq<Sector>, pending: seq<nat>, off: nat, chunk: nat)
    requires Storing(area0, ss, content, area, pending, off) && pending != [] && chunk == Min(512, |content| - off)
    ensures Storing(area0, ss, content, area[pending[0] := FirstSector(content[off..])], pending[1..], off + chunk)
  {
    assert Drop(content[off..], 512) == content[off + chunk..];
  }

  /** The store loop has dealt with c clusters of the chain it will leave. */
  ghost predicate StoreAt(v0: Vol, content: seq<Byte>, v: Vol, c: nat, prev: nat, off: nat) {
    && Shaped(v0) && SameShape(v0, v) && c <= |Taken(v0, |content|)|
    && Linking(v0.fat, v.fat, ClustersNeeded(v0.spc, |content|), c, prev)
    && Storing(v0.area, Sectors(v0, Taken(v0, |content|)), content, v.area, Rest(v0, content, c), off)
  }

  /** The sectors of the chain from cluster number c on. */
  ghost function Rest(v: Vol, content: seq<Byte>, c: nat): seq<nat>
    requires Shaped(v) && c <= |Taken(v, |content|)|
  {
    Secs(v.spc, Taken(v, |content|)[c..])
  }

  lemma StoreStarts(v: Vol, content: seq<Byte>)
    requires Shaped(v)
    ensures StoreAt(v, content, v, 0, 0, 0)
  {
    LinkingStarts(v.fat, ClustersNeeded(v.spc, |content|));
    assert Taken(v, |content|)[0..] == Taken(v, |content|) && content[0..] == content;
  }

  lemma TakenAt(v: Vol, len: nat, c: nat)
    requires Shaped(v) && c < |FreeList(v.fat)| && c < ClustersNeeded(v.spc, len)
    ensures c < |Taken(v, len)| && Taken(v, len)[c] == FreeList(v.fat)[c] >= 2
    ensures Taken(v, len)[c..] == [Taken(v, len)[c]] + Taken(v, len)[c + 1..]
  {
    hide ClustersNeeded;
  }

  /** The table after the next cluster has been taken and linked, and the sectors that are to be written next. */
  lemma StoreLinks(v0: Vol, content: seq<Byte>, v: Vol, c: nat, prev: nat, off: nat)
    requires StoreAt(v0, content, v, c, prev, off) && c < ClustersNeeded(v0.spc, |content|) && FreeList(v.fat) != []
    ensures var cl := FreeList(v.fat)[0];
      && cl >= 2 && prev < |v.fat| && c < |Taken(v0, |content|)| && cl == Taken(v0, |content|)[c]
      && Linking(v0.fat, LinkOne(v.fat, prev, cl), ClustersNeeded(v0.spc, |content|), c + 1, cl)
      && Rest(v0, content, c) == ClusterSectors(v0.spc, cl) + Rest(v0, content, c + 1)
  {
    hide ClustersNeeded, FreeList, Linking, Storing, LinkOne;
    LinkingStep(v0.fat, v.fat, ClustersNeeded(v0.spc, |content|), c, prev);
    TakenAt(v0, |content|, c);
    var cs := Taken(v0, |content|);
    assert cs[c..][1..] == cs[c + 1..];
  }

  /** Taking and linking a cluster is a round half done; writing its sectors completes it. */
  lemma StoreOpens(v0: Vol, content: seq<Byte>, v: Vol, w: Vol, c: nat, prev: nat, off: nat)
    requires StoreAt(v0, content, v, c, prev, off) && c < |Taken(v0, |content|)| && prev < |v.fat|
    requires Rest(v0, content, c) == ClusterSectors(v0.spc, Taken(v0, |content|)[c]) + Rest(v0, content, c + 1)
    requires w == v.(fat := LinkOne(v.fat, prev, Taken(v0, |content|)[c]))
    ensures Storing(v0.area, Sectors(v0, Taken(v0, |content|)), content, w.area,
                    ClusterSectors(v0.spc, Taken(v0, |content|)[c]) + Rest(v0, content, c + 1), off)
  {}

  lemma StoreCloses(v0: Vol, content: seq<Byte>, v: Vol, c: nat, prev: nat, off: nat)
    requires Shaped(v0) && SameShape(v0, v) && c <= |Taken(v0, |content|)|
    requires Linking(v0.fat, v.fat, ClustersNeeded(v0.spc, |content|), c, prev)
    requires Storing(v0.area, Sectors(v0, Taken(v0, |content|)), content, v.area, Rest(v0, content, c), off)
    ensures StoreAt(v0, content, v, c, prev, off) && off <= |content|
  {}

  lemma LinkOneIs(f: Fat, prev: nat, cl: nat)
    requires prev < |f| && cl < |f|
    ensures LinkOne(f, prev, cl) == if prev != 0 then SetLink(SetLink(f, cl, CLUSTER_EOC), prev, cl) else SetLink(f, cl, CLUSTER_EOC)
  {}

  /** Where the store loop ends, the volume is the stored one. */
  lemma StoreStops(v0: Vol, content: seq<Byte>, v: Vol, c: nat, prev: nat, off: nat)
    requires StoreAt(v0, content, v, c, prev, off) && (c == ClustersNeeded(v0.spc, |content|) || FreeList(v.fat) == [])
    ensures v == StoreChain(v0, content)
    ensures StoreResult(v0, |content|) == if c == ClustersNeeded(v0.spc, |content|) && c > 0 then Taken(v0, |content|)[0] else 0
  {
    LinkingStops(v0.fat, v.fat, ClustersNeeded(v0.spc, |content|), c, prev);
    assert Taken(v0, |content|)[c..] == [];
  }

  // ----- walking a chain -----

  /** c is cluster number q of the chain, or the end mark after its last one. */
  ghost predicate At(f: Fat, cs: seq<nat>, q: nat, c: nat) {
    q <= |cs| && if q < |cs| then c == cs[q] else c >= CLUSTER_EOC
  }

  lemma AtNext(f: Fat, cs: seq<nat>, q: nat)
    requires IsChain(f, cs) && q < |cs|
    ensures InRange(f, cs[q]) && At(f, cs, q + 1, Next(f, cs[q]))
    ensures q + 1 < |cs| ==> InRange(f, cs[q + 1])
  {
    assert LinkOk(f, cs, q);
  }

  lemma Capacity(v: Vol, c: nat)
    requires Shaped(v)
    ensures |ChainBytes(v, c)| == OffsetOf(v.spc, |ChainOf(v.fat, c)|, 0)
    ensures Numbers(ChainOf(v.fat, c)) && Within(v.area, Secs(v.spc, ChainOf(v.fat, c)))
    ensures ChainBytes(v, c) == Contents(v.area, Secs(v.spc, ChainOf(v.fat, c)))
  {}

  lemma CapacityAt(v: Vol, c: nat, q: nat, o: nat)
    requires Shaped(v) && q < |ChainOf(v.fat, c)| && o <= 512 * v.spc
    ensures OffsetOf(v.spc, q, o) <= |ChainBytes(v, c)|
    ensures OffsetOf(v.spc, q, 512 * v.spc) == OffsetOf(v.spc, q + 1, 0)
  {
    Capacity(v, c);
    TimesGrows(q + 1, |ChainOf(v.fat, c)|, v.spc);
  }

  lemma SectorAt(spc: nat, c: nat, s: nat)
    requires c >= 2
    ensures SectorOf(spc, c, 0) + s == SectorOf(spc, c, s)
  {}

  lemma BeyondChain(v: Vol, c: nat, q: nat, o: nat)
    requires Shaped(v) && q >= |ChainOf(v.fat, c)|
    ensures OffsetOf(v.spc, q, o) >= |ChainBytes(v, c)|
  {
    Capacity(v, c);
    TimesGrows(|ChainOf(v.fat, c)|, q, v.spc);
  }

  lemma LaidBound(g: Geometry, disk: seq<Sector>)
    requires Laid(g, disk)
    ensures 1 <= g.sectorsPerCluster <= 255
  {}

  lemma OffsetMoves(spc: nat, q: nat, o: nat, n: nat)
    ensures OffsetOf(spc, q, o) + n == OffsetOf(spc, q, o + n)
  {}

  lemma Joins(full: seq<Byte>, at: nat, buf: seq<Byte>, piece: seq<Byte>)
    requires at + |buf| + |piece| <= |full| && buf == full[at..at + |buf|]
    requires piece == full[at + |buf|..at + |buf| + |piece|]
    ensures buf + piece == full[at..at + |buf| + |piece|]
  {}

  lemma NothingToRead(full: seq<Byte>, size: nat, offset: nat, count: nat)
    requires offset >= size || offset >= |full|
    ensures Slice(Take(full, size), offset, count) == []
  {}

  lemma ReadDone(full: seq<Byte>, size: nat, offset: nat, count: nat, buf: seq<Byte>)
    requires offset < size && offset + |buf| <= |full| && buf == full[offset..offset + |buf|]
    requires |buf| <= Min(count, size - offset) && (|buf| == Min(count, size - offset) || offset + |buf| == |full|)
    ensures buf == Slice(Take(full, size), offset, count)
  {
    var d := Take(full, size);
    assert d == full[..|d|] && Drop(d, offset) == full[offset..|d|];
    assert |Take(Drop(d, offset), count)| == |buf|;
  }

  /** The read loop stands at byte o of cluster number q and has read buf so far. */
  ghost predicate Reading(v: Vol, start: nat, offset: nat, len: nat, q: nat, c: nat, o: nat, buf: seq<Byte>) {
    && Shaped(v) && IsChain(v.fat, ChainOf(v.fat, start)) && At(v.fat, ChainOf(v.fat, start), q, c)
    && o < 512 * v.spc && (q == |ChainOf(v.fat, start)| ==> o == 0)
    && |buf| <= len && offset + |buf| == OffsetOf(v.spc, q, o) <= |ChainBytes(v, start)|
    && buf == ChainBytes(v, start)[offset..offset + |buf|]
  }

  lemma ReadingStarts(v: Vol, start: nat, offset: nat, len: nat, q: nat, c: nat, o: nat)
    requires Shaped(v) && IsChain(v.fat, ChainOf(v.fat, start)) && At(v.fat, ChainOf(v.fat, start), q, c)
    requires q < |ChainOf(v.fat, start)| && o < 512 * v.spc && offset == OffsetOf(v.spc, q, o)
    ensures Reading(v, start, offset, len, q, c, o, [])
  {
    CapacityAt(v, start, q, o);
  }

  lemma ReadingAt(v: Vol, start: nat, offset: nat, len: nat, q: nat, c: nat, o: nat, buf: seq<Byte>)
    requires Reading(v, start, offset, len, q, c, o, buf) && c < CLUSTER_BAD
    ensures q < |ChainOf(v.fat, start)| && c == ChainOf(v.fat, start)[q] && 2 <= c < |v.fat|
  {}

  /** A piece read moves the loop on, to the next cluster when this one is used up. */
  lemma ReadingStep(v: Vol, start: nat, offset: nat, len: nat, q: nat, c: nat, o: nat, buf: seq<Byte>, piece: seq<Byte>)
    requires Reading(v, start, offset, len, q, c, o, buf) && c < CLUSTER_BAD && |buf| + |piece| <= len && o + |piece| <= 512 * v.spc
    requires OffsetOf(v.spc, q, o) + |piece| <= |ChainBytes(v, start)|
    requires piece == ChainBytes(v, start)[OffsetOf(v.spc, q, o)..OffsetOf(v.spc, q, o) + |piece|]
    ensures o + |piece| < 512 * v.spc ==> Reading(v, start, offset, len, q, c, o + |piece|, buf + piece)
    ensures c < |v.fat| && (o + |piece| == 512 * v.spc ==> Reading(v, start, offset, len, q + 1, Next(v.fat, c), 0, buf + piece))
  {
    hide ChainBytes, ChainOf, IsChain, Times;
    var cs := ChainOf(v.fat, start);
    AtNext(v.fat, cs, q);
    CapacityAt(v, start, q, o + |piece|);
    Joins(ChainBytes(v, start), offset, buf, piece);
  }

  lemma ReadingDone(v: Vol, start: nat, size: nat, offset: nat, count: nat, q: nat, c: nat, o: nat, buf: seq<Byte>)
    requires offset < size && Reading(v, start, offset, Min(count, size - offset), q, c, o, buf)
    requires |buf| == Min(count, size - offset) || c < 2 || c >= CLUSTER_BAD
    ensures buf == Slice(FileData(v, start, size), offset, count)
  {
    Capacity(v, start);
    ReadDone(ChainBytes(v, start), size, offset, count, buf);
  }

  // ----- overwriting in place -----

  /** One read-modify-write of a sector. */
  lemma WrittenStep(v0: Vol, v: Vol, start: nat, offset: nat, data: seq<Byte>, w: nat, q: nat, o: nat, n: nat)
    requires Written(v0, v, start, offset, data, w) && q < |ChainOf(v0.fat, start)| && o < 512 * v0.spc
    requires offset + w == OffsetOf(v0.spc, q, o) && n <= 512 - o % 512 && w + n <= |data|
    ensures var x := SectorOf(v0.spc, ChainOf(v0.fat, start)[q], o / 512);
      x < |v.area| && Written(v0, v.(area := v.area[x := Splice(v.area[x], o % 512, data[w..w + n])]), start, offset, data, w + n)
  {
    hide Contents, Secs, SectorOf, Times, Splice, ChainOf, Distinct, Overlay, OffsetOf;
    var cs, x := ChainOf(v0.fat, start), SectorOf(v0.spc, ChainOf(v0.fat, start)[q], o / 512);
    Capacity(v0, start);
    Capacity(v, start);
    ChunkWritten(v.area, v.spc, cs, q, o, data[w..w + n]);
    OverlayStep(ChainBytes(v0, start), offset, data, w, n);
    Capacity(v.(area := v.area[x := Splice(v.area[x], o % 512, data[w..w + n])]), start);
  }

  // ----- the directory scan -----

  lemma ScanStarts<C>(cb: (C, Placed) -> (bool, C), ctx: C, all: seq<Placed>)
    ensures Times(0, 0) == 0 && Scan(cb, ctx, all) == Scan(cb, ctx, all[0..])
  {
    assert all[0..] == all;
  }

  lemma ScanStep<C>(cb: (C, Placed) -> (bool, C), ctx: C, all: seq<Placed>, k: nat)
    requires k < |all|
    ensures var (stop, next) := cb(ctx, all[k]);
      Scan(cb, ctx, all[k..]) == if stop then next else Scan(cb, next, all[k + 1..])
  {
    assert all[k..][1..] == all[k + 1..];
  }

  lemma ScanEnds<C>(cb: (C, Placed) -> (bool, C), ctx: C, all: seq<Placed>, k: nat)
    requires k == |all|
    ensures Scan(cb, ctx, all[k..]) == ctx
  {}

  lemma RootCapacity(v: Vol)
    requires Shaped(v)
    ensures |Places(v.area, RootSectors(v))| == 16 * Times(|ChainOf(v.fat, v.root)|, v.spc)
    ensures Times(0, v.spc) == 0
  {}

  lemma ChainStarts(f: Fat, c: nat)
    requires IsChain(f, ChainOf(f, c))
    ensures At(f, ChainOf(f, c), 0, c)
  {}

  /** Sector s of cluster number q of the root chain. */
  lemma RootSectorAt(v: Vol, q: nat, s: nat)
    requires Shaped(v) && q < |ChainOf(v.fat, v.root)| && s < v.spc
    ensures var x := SectorOf(v.spc, ChainOf(v.fat, v.root)[q], 0) + s;
      Times(q, v.spc) + s < |RootSectors(v)| && RootSectors(v)[Times(q, v.spc) + s] == x && x < |v.area|
  {
    SecsAt(v.spc, ChainOf(v.fat, v.root), q, s);
  }

  lemma PlaceAt(v: Vol, q: nat, s: nat, e: nat)
    requires Shaped(v) && q < |ChainOf(v.fat, v.root)| && s < v.spc && e < 16
    ensures var x, k := SectorOf(v.spc, ChainOf(v.fat, v.root)[q], 0) + s, 16 * (Times(q, v.spc) + s) + e;
      && x < |v.area| && k < |Places(v.area, RootSectors(v))|
      && Places(v.area, RootSectors(v))[k] == Placed(Decode(v.area[x], 32 * e), x, e)
  {
    hide Decode, RootSectors, SectorOf, Times, ChainOf, Distinct;
    RootSectorAt(v, q, s);
    var t := Times(q, v.spc) + s;
    assert (16 * t + e) / 16 == t && (16 * t + e) % 16 == e;
  }

  lemma TimesNext(q: nat, n: nat)
    ensures Times(q + 1, n) == Times(q, n) + n
  {}

  /** The first cluster of a visible entry is one the free loop may start from. */
  lemma EntryCluster(v: Vol, k: nat)
    requires Sound(v) && k < |Slots(v)| && Visible(Slots(v)[k])
    ensures LinksInRange(v.fat, Cluster(Slots(v)[k]))
    ensures Cluster(Slots(v)[k]) < |v.fat| || Cluster(Slots(v)[k]) >= CLUSTER_BAD
  {
    assert EntryOk(v.fat, Slots(v)[k]);
    ChainLinksInRange(v.fat, Cluster(Slots(v)[k]));
  }

  const ZERO_ENTRY: DirEntry := DirEntry([0, 0, 0, 0, 0, 0, 0, 0, 0, 0, 0], 0, NO_STAMP, 0, 0, 0, 0, 0)

  lemma FreeFound(v: Vol, ctx: Search)
    requires Shaped(v) && ctx.findFree && !ctx.found
    ensures var k := FirstFree(Slots(v), 0);
      Scan(SearchCallback, ctx, Places(v.area, RootSectors(v)))
      == if k < |Slots(v)| then ctx.(found := true, sector := Place(v, k), index := k % 16) else ctx
  {
    hide Scan, FirstFree, RootSectors, Decode;
    var ps := Places(v.area, RootSectors(v));
    ScanFree(ctx, ps, 0);
    assert ps[0..] == ps;
  }

  lemma MatchFound(v: Vol, ctx: Search)
    requires Shaped(v) && !ctx.findFree && !ctx.found
    ensures var k := FirstMatch(Slots(v), ctx.target, 0);
      Scan(SearchCallback, ctx, Places(v.area, RootSectors(v)))
      == if k < |Slots(v)| then ctx.(found := true, sector := Place(v, k), index := k % 16, result := Slots(v)[k]) else ctx
  {
    hide Scan, FirstMatch, RootSectors, Decode;
    var ps := Places(v.area, RootSectors(v));
    ScanMatch(ctx, ps, 0);
    assert ps[0..] == ps;
  }

  lemma RootIsChain(v: Vol)
    requires Sound(v)
    ensures IsChain(v.fat, ChainOf(v.fat, v.root))
  {}

  lemma EntriesListed(v: Vol)
    requires Shaped(v)
    ensures Scan(EnumCallback, [], Places(v.area, RootSectors(v))) == Listing(Slots(v), 0)
  {
    hide Scan, Listing, RootSectors, Decode;
    var ps := Places(v.area, RootSectors(v));
    ScanEnum([], ps, 0);
    assert ps[0..] == ps;
  }

  lemma TextMatchesIs(e: DirEntry, name: Text)
    ensures TextMatches(e, name) <==> !IsDirectory(e) && SameText(Format(e.name), name)
  {}

  lemma ListedReadable(v: Vol, i: nat)
    requires Sound(v) && i < |Listing(Slots(v), 0)|
    ensures var e := Listing(Slots(v), 0)[i];
      Readable(v, Cluster(e), e.fileSize) && FileData(v, Cluster(e), e.fileSize) == NodeOf(v, e).data
  {
    var j := ListedVisible(Slots(v), 0, i);
    assert EntryOk(v.fat, Slots(v)[j]);
  }

  lemma OldStarts(data: seq<Byte>)
    ensures Take(data, Min(128 * 0, 4000)) == []
  {}

  lemma OldEnds(data: seq<Byte>, j: nat)
    requires |Take(data, Min(128 * j, 4000))| >= 4000
    ensures Take(data, Min(128 * j, 4000)) == Take(data, 4000)
  {}

  /** One round of the read loop: 128 more bytes, or none because all are there. */
  lemma OldStep(data: seq<Byte>, j: nat, before: seq<Byte>, tmp: seq<Byte>)
    requires before == Take(data, Min(128 * j, 4000)) && |before| < 4000 && tmp == Slice(data, 128 * j, 128)
    ensures tmp == [] ==> before == Take(data, 4000)
    ensures tmp != [] ==> j < 32 && Take(before + tmp, 4000) == Take(data, Min(128 * (j + 1), 4000))
    ensures tmp != [] ==> |Take(before + tmp, 4000)| <= 4000
  {
    if tmp != [] {
      assert before == data[..128 * j];
      assert before + tmp == Take(data, 128 * (j + 1));
    }
  }

  lemma SmallRead(v: Vol, c: nat, size: nat, offset: nat, count: nat)
    requires Shaped(v) && (count < 0x8000_0000 || Clipped(size, offset, count) < 0x8000_0000)
    ensures ReadResult(v, c, size, offset, count) == Slice(FileData(v, c, size), offset, count)
  {
    hide FileData, Slice, RawRead, ChainOf;
  }
}
