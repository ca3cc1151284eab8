/** The building blocks of the file operations: store a chain, free a chain, write a slot, and what each keeps. */
module FatSteps {
  import opened Bytes
  import opened FatTable
  import opened FatArea
  import opened FatDirectory
  import opened FatVolume

  /** One cluster, and one more for every full cluster the content goes beyond. */
  function ClustersNeeded(spc: nat, len: nat): (n: nat)
    requires spc > 0
    ensures n >= 1
    decreases len
  {
    if len <= 512 * spc then 1 else 1 + ClustersNeeded(spc, len - 512 * spc)
  }

  /** Enough sectors for the content, and not one cluster more. */
  lemma {:induction false} NeededFits(spc: nat, len: nat)
    requires spc > 0
    ensures len <= 512 * Times(ClustersNeeded(spc, len), spc)
    ensures ClustersNeeded(spc, len) > 1 ==> 512 * Times(ClustersNeeded(spc, len) - 1, spc) < len
    decreases len
  {
    if len > 512 * spc {
      NeededFits(spc, len - 512 * spc);
    }
  }

  /** The rounded-up division of the driver. */
  lemma {:induction false} NeededIsCeiling(spc: nat, len: nat)
    requires spc > 0 && len > 0
    ensures ClustersNeeded(spc, len) == (len + 512 * spc - 1) / (512 * spc)
    decreases len
  {
    var d := 512 * spc;
    if len > d {
      NeededIsCeiling(spc, len - d);
      var q, r := (len - 1) / d, (len - 1) % d;
      assert len - 1 == q * d + r;
      assert len + d - 1 == (q + 1) * d + r;
      DivUnique(len + d - 1, d, q + 1, r);
    } else {
      DivUnique(len + d - 1, d, 1, len - 1);
    }
  }

  /** The clusters a store of `len` bytes takes: the lowest free ones, as many as needed or as there are. */
  function Taken(v: Vol, len: nat): (cs: seq<nat>)
    requires Shaped(v)
    ensures AllInRange(v.fat, cs) && Distinct(cs) && AllFree(v.fat, cs)
  {
    Take(FreeList(v.fat), ClustersNeeded(v.spc, len))
  }

  predicate AllFree(f: Fat, cs: seq<nat>) {
    forall i :: 0 <= i < |cs| ==> IsFree(f, cs[i])
  }

  ghost function StoreChain(v: Vol, content: seq<Byte>): (w: Vol)
    requires Shaped(v)
    ensures SameShape(v, w)
  {
    var cs := Taken(v, |content|);
    v.(fat := LinkFrom(v.fat, 0, cs), area := Store(v.area, Sectors(v, cs), content))
  }

  predicate HasRoom(v: Vol, len: nat)
    requires Shaped(v)
  {
    ClustersNeeded(v.spc, len) <= |FreeList(v.fat)|
  }

  /** The first cluster of the new chain; 0 when the volume has too few free clusters. */
  function StoreResult(v: Vol, len: nat): (c: nat)
    requires Shaped(v)
    ensures c < |v.fat| && (c == 0 <==> !HasRoom(v, len))
  {
    if HasRoom(v, len) then FreeList(v.fat)[0] else 0
  }

  ghost function FreeChain(v: Vol, c: nat): (w: Vol)
    ensures SameShape(v, w)
  {
    v.(fat := Cleared(v.fat, ChainOf(v.fat, c)))
  }

  /** Directory record number i of area sector x replaced. */
  function PutSlot(v: Vol, x: nat, i: nat, e: DirEntry): (w: Vol)
    requires x < |v.area| && i < 16
    ensures SameShape(v, w) && w.fat == v.fat
  {
    v.(area := v.area[x := Splice(v.area[x], 32 * i, EntryBytes(e))])
  }

  /** The area sector of slot k. */
  ghost function Place(v: Vol, k: nat): (x: nat)
    requires Shaped(v) && k < |Slots(v)|
    ensures x < |v.area|
  {
    RootSectors(v)[k / 16]
  }

  // ----- what the building blocks keep -----

  lemma SectorsApart(v: Vol, cs: seq<nat>, ds: seq<nat>)
    requires Shaped(v) && AllInRange(v.fat, cs) && AllInRange(v.fat, ds) && Disjoint(cs, ds)
    ensures Disjoint(Sectors(v, cs), Sectors(v, ds))
  {
    SecsDisjoint(v.spc, cs, ds);
  }

  lemma SectorsSame(v: Vol, w: Vol, cs: seq<nat>)
    requires Shaped(v) && SameShape(v, w) && AllInRange(v.fat, cs)
    ensures Sectors(w, cs) == Sectors(v, cs)
  {}

  lemma StoreKeeps(v: Vol, content: seq<Byte>, cs: seq<nat>)
    requires Shaped(v) && AllInRange(v.fat, cs) && Disjoint(cs, Taken(v, |content|))
    ensures KeepsChain(v, StoreChain(v, content), cs)
  {
    var taken := Taken(v, |content|);
    LinkFromAt(v.fat, 0, taken);
    SectorsApart(v, cs, taken);
    var ss := Sectors(v, cs);
    forall i | 0 <= i < |ss| ensures StoreChain(v, content).area[ss[i]] == v.area[ss[i]] {
      StoreFrame(v.area, Sectors(v, taken), content, ss[i]);
    }
  }

  lemma FreeKeeps(v: Vol, c: nat, cs: seq<nat>)
    requires Shaped(v) && AllInRange(v.fat, cs) && Disjoint(cs, ChainOf(v.fat, c))
    ensures KeepsChain(v, FreeChain(v, c), cs)
  {
    forall i | 0 <= i < |cs| ensures FreeChain(v, c).fat[cs[i]] == v.fat[cs[i]] {
      ClearedAt(v.fat, ChainOf(v.fat, c), cs[i]);
    }
  }

  lemma PutKeeps(v: Vol, x: nat, i: nat, e: DirEntry, cs: seq<nat>)
    requires Shaped(v) && x < |v.area| && i < 16 && AllInRange(v.fat, cs) && x !in Sectors(v, cs)
    ensures KeepsChain(v, PutSlot(v, x, i, e), cs)
  {}

  lemma KeepsTwice(u: Vol, v: Vol, w: Vol, cs: seq<nat>)
    requires Shaped(u) && SameShape(u, v) && SameShape(v, w) && AllInRange(u.fat, cs)
    requires KeepsChain(u, v, cs) && KeepsChain(v, w, cs)
    ensures KeepsChain(u, w, cs)
  {
    SectorsSame(u, v, cs);
  }

  /** Free clusters belong to no chain. */
  lemma FreeApart(f: Fat, cs: seq<nat>, taken: seq<nat>)
    requires IsChain(f, cs) && AllFree(f, taken)
    ensures Disjoint(cs, taken)
  {
    forall x | x in cs ensures x !in taken {
      ChainHoldsNoFree(f, cs, x);
    }
  }

  /** A chain kept so far is clear of what the next store takes, and is kept by it. */
  lemma StoreKeepsKept(v: Vol, u: Vol, content: seq<Byte>, cs: seq<nat>)
    requires Shaped(v) && SameShape(v, u) && AllInRange(v.fat, cs) && KeepsChain(v, u, cs)
    requires cs == [] || IsChain(v.fat, cs)
    ensures Disjoint(cs, Taken(u, |content|)) && KeepsChain(v, StoreChain(u, content), cs)
  {
    if cs != [] {
      ChainFrame(v.fat, u.fat, cs);
      FreeApart(u.fat, cs, Taken(u, |content|));
    }
    StoreKeeps(u, content, cs);
    KeepsTwice(v, u, StoreChain(u, content), cs);
  }

  lemma EntryChainIs(f: Fat, e: DirEntry)
    requires EntryOk(f, e)
    ensures EntryChain(f, e) == [] || IsChain(f, EntryChain(f, e))
  {}

  /** Storing new content keeps what was kept before, and the clusters it takes are nobody's. */
  lemma StoreStep(v: Vol, u: Vol, k: nat, content: seq<Byte>)
    requires Sound(v) && OnlyChain(v, u, k)
    ensures OnlyChain(v, StoreChain(u, content), k) && Apart(v, k, Taken(u, |content|))
  {
    StoreKeepsKept(v, u, content, ChainOf(v.fat, v.root));
    forall j | 0 <= j < |Slots(v)| && j != k
      ensures Disjoint(EntryChain(v.fat, Slots(v)[j]), Taken(u, |content|))
      ensures KeepsChain(v, StoreChain(u, content), EntryChain(v.fat, Slots(v)[j]))
    {
      EntryChainIs(v.fat, Slots(v)[j]);
      StoreKeepsKept(v, u, content, EntryChain(v.fat, Slots(v)[j]));
    }
  }

  lemma FreeStep(v: Vol, k: nat)
    requires Sound(v) && k < |Slots(v)| && Visible(Slots(v)[k])
    ensures OnlyChain(v, FreeChain(v, Cluster(Slots(v)[k])), k)
  {
    var c := Cluster(Slots(v)[k]);
    FreeKeeps(v, c, ChainOf(v.fat, v.root));
    forall j | 0 <= j < |Slots(v)| && j != k
      ensures KeepsChain(v, FreeChain(v, c), EntryChain(v.fat, Slots(v)[j]))
    {
      assert Disjoint(EntryChain(v.fat, Slots(v)[j]), EntryChain(v.fat, Slots(v)[k]));
      FreeKeeps(v, c, EntryChain(v.fat, Slots(v)[j]));
    }
  }

  lemma KeepsSelf(v: Vol, k: nat)
    requires Sound(v) && k < |Slots(v)|
    ensures OnlyChain(v, v, k)
  {}

  /** The directory is read the same while only a chain changes. */
  lemma ChainKeepsSlots(v: Vol, u: Vol, k: nat)
    requires Sound(v) && OnlyChain(v, u, k)
    ensures OnlySlot(v, u, k, Slots(v)[k])
    ensures RootSectors(u) == RootSectors(v)
  {
    ChainFrame(v.fat, u.fat, ChainOf(v.fat, v.root));
    var ss := RootSectors(v);
    assert Places(u.area, ss) == Places(v.area, ss);
  }

  lemma PutInPlaces(area: seq<Sector>, ss: seq<nat>, k: nat, e: DirEntry)
    requires Within(area, ss) && Distinct(ss) && k < 16 * |ss|
    ensures var x := ss[k / 16];
      Entries(Places(area[x := Splice(area[x], 32 * (k % 16), EntryBytes(e))], ss)) == Entries(Places(area, ss))[k := e]
  {
    var x := ss[k / 16];
    var area' := area[x := Splice(area[x], 32 * (k % 16), EntryBytes(e))];
    forall j | 0 <= j < 16 * |ss|
      ensures Places(area', ss)[j].entry == if j == k then e else Places(area, ss)[j].entry
    {
      if j / 16 == k / 16 {
        DecodeSplice(area[x], k % 16, e, j % 16);
      } else {
        assert area'[ss[j / 16]] == area[ss[j / 16]];
      }
    }
  }

  /** Writing slot k after steps that touched at most its chain. */
  lemma PutStep(v: Vol, u: Vol, k: nat, e: DirEntry)
    requires Sound(v) && OnlyChain(v, u, k)
    ensures OnlySlot(v, PutSlot(u, Place(v, k), k % 16, e), k, e)
  {
    ChainKeepsSlots(v, u, k);
    var x := Place(v, k);
    var w := PutSlot(u, x, k % 16, e);
    PutInPlaces(u.area, RootSectors(u), k, e);
    forall j | 0 <= j < |Slots(v)| && j != k
      ensures KeepsChain(v, w, EntryChain(v.fat, Slots(v)[j]))
    {
      var cs := EntryChain(v.fat, Slots(v)[j]);
      RootApart(v, k, cs);
      SectorsSame(v, u, cs);
      PutKeeps(u, x, k % 16, e, cs);
      KeepsTwice(v, u, w, cs);
    }
  }

  lemma RootApart(v: Vol, k: nat, cs: seq<nat>)
    requires Shaped(v) && k < |Slots(v)| && AllInRange(v.fat, cs) && Disjoint(ChainOf(v.fat, v.root), cs)
    ensures Place(v, k) !in Sectors(v, cs)
  {
    SectorsApart(v, ChainOf(v.fat, v.root), cs);
    assert RootSectors(v)[k / 16] in RootSectors(v);
  }

  // ----- what was stored -----

  /** The size field keeps 32 bits of the length. */
  function Clip(content: seq<Byte>): seq<Byte> {
    content[..|content| % 0x1_0000_0000]
  }

  lemma TakeOfPrefix(s: seq<Byte>, content: seq<Byte>)
    requires |content| <= |s| && s[..|content|] == content
    ensures Take(s, |content| % 0x1_0000_0000) == Clip(content)
  {
    var n := |content| % 0x1_0000_0000;
    assert s[..n] == s[..|content|][..n];
  }

  /** The chain that a successful store leaves, and what it holds. */
  lemma StoredChain(u: Vol, content: seq<Byte>)
    requires Shaped(u) && HasRoom(u, |content|)
    ensures IsChain(StoreChain(u, content).fat, Taken(u, |content|))
    ensures ChainOf(StoreChain(u, content).fat, StoreResult(u, |content|)) == Taken(u, |content|)
    ensures |content| <= 512 * |Sectors(u, Taken(u, |content|))|
    ensures Contents(StoreChain(u, content).area, Sectors(u, Taken(u, |content|)))[..|content|] == content
  {
    var cs := Taken(u, |content|);
    LinkedIsChain(u.fat, cs);
    NeededFits(u.spc, |content|);
    StoreReadsBack(u.area, Sectors(u, cs), content);
  }

  /** An entry that points at freshly stored content has that chain, and reads back as that content. */
  lemma StoredEntry(u: Vol, content: seq<Byte>, w: Vol, e: DirEntry)
    requires Shaped(u) && SameShape(u, w) && Visible(e) && HasRoom(u, |content|)
    requires KeepsChain(StoreChain(u, content), w, Taken(u, |content|))
    requires Cluster(e) == StoreResult(u, |content|) && e.fileSize == |content| % 0x1_0000_0000
    ensures EntryOk(w.fat, e) && EntryChain(w.fat, e) == Taken(u, |content|)
    ensures NodeOf(w, e) == Node(e.attributes, Clip(content))
  {
    var cs := Taken(u, |content|);
    var x := StoreChain(u, content);
    StoredChain(u, content);
    ChainFrame(x.fat, w.fat, cs);
    SectorsSame(u, x, cs);
    SectorsSame(x, w, cs);
    ContentsFrame(x.area, w.area, Sectors(x, cs));
    TakeOfPrefix(Contents(x.area, Sectors(x, cs)), content);
  }
}
