/** A formatted volume, and volumes that show where the driver does not do what one expects. */
module FatExamples {
  import opened Bytes
  import opened FatTable
  import opened FatArea
  import opened FatNames
  import opened FatDirectory
  import opened FatVolume
  import opened FatSteps
  import opened FatOps
  import opened FatRuns
  import opened FatAnyRuns
  import opened FatCells
  import opened FatFiles
  import opened FatBigRead

  const USED: Entry := Entry(0, CLUSTER_EOC)
  const FREE: Entry := Entry(0, 0)
  const ZERO: Sector := seq(512, _ => 0)

  /** One sector per cluster, an empty root directory in cluster 2, and n free clusters after it. */
  function Formatted(n: nat): (v: Vol)
    requires n <= 1000
    ensures v.spc == 1 && v.root == 2 && |v.fat| == n + 3 && |v.area| == n + 1
    ensures forall c :: 0 <= c < n + 3 ==> v.fat[c] == if c < 3 then USED else FREE
  {
    Vol(1, 2, seq(n + 3, c => if c < 3 then USED else FREE), seq(n + 1, _ => ZERO))
  }

  lemma FormattedShape(n: nat)
    requires n <= 1000
    ensures Shaped(Formatted(n)) && ChainOf(Formatted(n).fat, 2) == [2] && IsChain(Formatted(n).fat, [2])
  {
    var v := Formatted(n);
    TimesIs(n + 1, 1);
    assert LinkOk(v.fat, [2], 0);
    ChainOfChain(v.fat, [2]);
  }

  lemma ZeroSlot(k: nat)
    requires k < 16
    ensures Decode(ZERO, 32 * k).name[0] == 0
  {}

  /** All sixteen slots are END. */
  lemma FormattedSlots(n: nat)
    requires n <= 1000
    ensures var v := Formatted(n);
      Shaped(v) && |Slots(v)| == 16 && forall k :: 0 <= k < 16 ==> IsEnd(Slots(v)[k])
  {
    hide Decode, ChainOf, IsChain;
    var v := Formatted(n);
    FormattedShape(n);
    TimesIs(1, 1);
    assert |RootSectors(v)| == 1;
    forall k | 0 <= k < 16 ensures IsEnd(Slots(v)[k]) {
      assert Slots(v)[k] == Decode(v.area[RootSectors(v)[k / 16]], 32 * (k % 16));
      ZeroSlot(k);
    }
  }

  lemma EmptySlots(slots: seq<DirEntry>)
    requires forall k :: 0 <= k < |slots| ==> IsEnd(slots[k])
    ensures EndClean(slots) && UniqueNames(slots) && CanonicalNames(slots) && Names(slots) == {}
    ensures |slots| > 0 ==> FirstFree(slots, 0) == 0
  {}

  /** A freshly formatted volume satisfies the invariant of all runs and holds nothing. */
  lemma FormattedNamed(n: nat)
    requires n <= 1000
    ensures var v := Formatted(n);
      && Named(v) && Files(v) == map[] && Names(Slots(v)) == {} && |Slots(v)| == 16 && FirstFree(Slots(v), 0) == 0
  {
    hide Slots, UniqueNames, EndClean, CanonicalNames, FirstFree;
    var v := Formatted(n);
    FormattedShape(n);
    FormattedSlots(n);
    EmptySlots(Slots(v));
    forall k | 0 <= k < |Slots(v)| ensures EntryOk(v.fat, Slots(v)[k]) && EntryChain(v.fat, Slots(v)[k]) == [] {
      assert !Visible(Slots(v)[k]);
    }
    assert Sound(v);
    FilesKeys(v);
  }

  lemma FormattedFree(n: nat)
    requires n <= 1000
    ensures FreeList(Formatted(n).fat) == seq(n, i => i + 3)
  {
    var f, l := Formatted(n).fat, seq(n, i => i + 3);
    forall x ensures x in FreeList(f) <==> x in l {
      if 3 <= x < n + 3 { assert l[x - 3] == x; }
    }
    AscendingUnique(FreeList(f), l);
  }

  /** The name A. */
  const A: Text := [0x41]

  lemma AStorable()
    ensures Storable(A) && Encode(A) == [0x41] + seq(10, _ => SPACE)
  {
    LastDotIs(A, -1);
    assert Take(A, 8) == A && Field(A, 8) == [0x41] + seq(7, _ => SPACE);
    assert Field([], 3) == seq(3, _ => SPACE);
  }

  lemma NeededSmall(len: nat)
    requires len <= 1024
    ensures ClustersNeeded(1, len) == if len <= 512 then 1 else 2
  {}

  /** A first file can be created on a volume with enough free clusters. */
  lemma FirstFile(n: nat, name: Text, content: seq<Byte>)
    requires n <= 1000 && ClustersNeeded(1, |content|) <= n
    ensures var v := Formatted(n);
      && Named(v) && Stores(v, |content|) && HasRoom(v, |content|) && v.spc == 1 && |FreeList(v.fat)| == n
      && |Slots(v)| == 16 && FirstFree(Slots(v), 0) == 0 && Files(v) == map[] && Names(Slots(v)) == {}
      && Create(v, name, content).code == 0 && Create(v, name, content) == CreateIn(v, 0, Encode(name), content)
  {
    hide Slots, Files, FirstFree, UniqueNames, CanonicalNames, Names, WellFormed, CreateIn, FileEntry, FreeList;
    var v := Formatted(n);
    FormattedNamed(n);
    FormattedFree(n);
    FormattedShape(n);
    FitsStore(v, |content|);
    CreateOk(v, name, content);
  }

  /** After it: the clusters and the first slot are taken. */
  lemma OneFile(n: nat, name: Text, content: seq<Byte>)
    requires n <= 1000 && ClustersNeeded(1, |content|) <= n && Storable(name)
    ensures var v := Formatted(n);
      && Shaped(v) && Create(v, name, content).code == 0
      && var w := Create(v, name, content).vol;
      && Named(w) && w.spc == 1 && w.root == 2 && |w.fat| == n + 3 && Encode(name) in Names(Slots(w))
      && |FreeList(w.fat)| == n - ClustersNeeded(1, |content|)
      && |Slots(w)| == 16 && FirstFree(Slots(w), 0) == 1 && Files(w) == map[Encode(name) := Node(ATTR_ARCHIVE, Clip(content))]
  {
    hide Slots, Files, FirstFree, Encode, Create, Stores, UniqueNames, CanonicalNames, Names, WellFormed, CreateIn, FileEntry, FreeList,
      HasRoom, ClustersNeeded, Clip;
    var v := Formatted(n);
    FirstFile(n, name, content);
    NamedShape(v);
    StringUpper(name, name);
    CreateEffect(v, name, content);
    CreateKeepsNames(v, name, content);
    CreateTakes(v, 0, Encode(name), content);
    var w := Create(v, name, content).vol;
    NamesKept(w);
    CreatedShape(v, name, content);
    FirstSlotTaken(n, name, content);
  }

  lemma FirstSlotTaken(n: nat, name: Text, content: seq<Byte>)
    requires n <= 1000 && ClustersNeeded(1, |content|) <= n && Storable(name)
    ensures var v := Formatted(n);
      Shaped(v) && var w := Create(v, name, content).vol; Shaped(w) && |Slots(w)| == 16 && FirstFree(Slots(w), 0) == 1
  {
    hide Slots, Files, FirstFree, Encode, Create, Stores, UniqueNames, CanonicalNames, Names, WellFormed, CreateIn, FileEntry, FreeList,
      HasRoom, ClustersNeeded;
    var v := Formatted(n);
    FirstFile(n, name, content);
    FormattedSlots(n);
    CreatedSlot(v, 0, Encode(name), content);
    var w := Create(v, name, content).vol;
    var e := FileEntry(Encode(name), StoreResult(v, |content|), |content|);
    FileMatches(Encode(name), StoreResult(v, |content|), |content|);
    SecondFree(Slots(v), e);
  }

  lemma FitsStore(v: Vol, len: nat)
    requires Shaped(v) && ClustersNeeded(v.spc, len) <= |FreeList(v.fat)|
    ensures Stores(v, len) && HasRoom(v, len)
  {}

  lemma NamesKept(w: Vol)
    requires Inv(w)
    ensures Files(w).Keys == Names(Slots(w))
  {
    FilesKeys(w);
  }

  lemma CreatedShape(v: Vol, name: Text, content: seq<Byte>)
    requires Shaped(v)
    ensures SameShape(v, StoreChain(v, content)) && SameShape(v, Create(v, name, content).vol)
  {
    hide Slots, FirstFree, Stores, FileEntry, Encode;
  }

  /** With the first slot taken, the second is the first free one. */
  lemma SecondFree(slots: seq<DirEntry>, e: DirEntry)
    requires |slots| == 16 && (forall k :: 0 <= k < 16 ==> IsEnd(slots[k])) && Visible(e)
    ensures FirstFree(slots[0 := e], 0) == 1
  {
    assert FirstFree(slots[0 := e], 1) == 1;
  }

  // ----- what goes wrong -----

  lemma CreateOk(v: Vol, name: Text, content: seq<Byte>)
    requires Shaped(v) && FirstFree(Slots(v), 0) < |Slots(v)| && Stores(v, |content|)
    ensures Create(v, name, content).code == 0
    ensures Create(v, name, content) == CreateIn(v, FirstFree(Slots(v), 0), Encode(name), content)
  {
    hide Slots, FirstFree, Stores, FileEntry, Encode;
  }

  /** A second create under the same raw name succeeds and leaves two entries of that name. */
  lemma CreatedAgain(name: Text, again: Text)
    requires Storable(name) && 0 !in again && Encode(again) == Encode(name)
    ensures var v := Formatted(2);
      && Shaped(v) && Create(v, name, [7]).code == 0
      && var w := Create(v, name, [7]).vol;
      && Named(w) && Create(w, again, [7]).code == 0
      && Shaped(Create(w, again, [7]).vol) && !UniqueNames(Slots(Create(w, again, [7]).vol))
  {
    hide Slots, Files, FirstFree, Encode, UniqueNames, CanonicalNames, Names, WellFormed, CreateIn, FileEntry, Create;
    NeededSmall(1);
    OneFile(2, name, [7]);
    var w := Create(Formatted(2), name, [7]).vol;
    NamedShape(w);
    FitsStore(w, 1);
    CreateOk(w, again, [7]);
    CreateDuplicates(w, again, [7]);
  }

  /** Creating A twice. */
  lemma CreatedTwice()
    ensures var v := Formatted(2);
      && Shaped(v) && Create(v, A, [7]).code == 0
      && var w := Create(v, A, [7]).vol;
      && Shaped(w) && Create(w, A, [7]).code == 0
      && Shaped(Create(w, A, [7]).vol) && !UniqueNames(Slots(Create(w, A, [7]).vol))
  {
    hide Slots, Encode, UniqueNames, CanonicalNames, WellFormed, Create;
    AStorable();
    CreatedAgain(A, A);
    NamedShape(Create(Formatted(2), A, [7]).vol);
  }

  /** ABCDEFGH and ABCDEFGHI: the raw form cuts the second one to the first. */
  const EIGHT: Text := [0x41, 0x42, 0x43, 0x44, 0x45, 0x46, 0x47, 0x48]
  const NINE: Text := [0x41, 0x42, 0x43, 0x44, 0x45, 0x46, 0x47, 0x48, 0x49]

  lemma NineIsCut()
    ensures Storable(EIGHT) && Encode(NINE) == Encode(EIGHT) && 0 !in NINE && !WellFormed(NINE)
  {
    LastDotIs(EIGHT, -1);
    LastDotIs(NINE, -1);
    assert Take(NINE, 8) == EIGHT && Take(EIGHT, 8) == EIGHT;
    assert Encode(EIGHT)[0] == 0x41;
  }

  /** Creating the file ABCDEFGHI and appending to it: the append does not find it and adds a second entry. */
  lemma AppendAddsSecond()
    ensures var v := Formatted(2);
      && Shaped(v) && Create(v, NINE, [7]).code == 0
      && var w := Create(v, NINE, [7]).vol;
      && Named(w) && Encode(NINE) in Names(Slots(w)) && Append(w, NINE, [7]).code == 0
      && Shaped(Append(w, NINE, [7]).vol) && !UniqueNames(Slots(Append(w, NINE, [7]).vol))
  {
    hide Slots, Encode, UniqueNames, CanonicalNames, WellFormed, Create, Names, Append, Files, FreeList, FirstFree;
    NineIsCut();
    var v := Formatted(2);
    NeededSmall(1);
    FormattedNamed(2);
    NamedShape(v);
    SameRaw(v, EIGHT, NINE, [7]);
    CreatedAgain(EIGHT, NINE);
    OneFile(2, EIGHT, [7]);
    AppendMisses(Create(v, NINE, [7]).vol, NINE, [7]);
  }

  /** Create sees its name in the raw form only. */
  lemma SameRaw(v: Vol, name: Text, again: Text, content: seq<Byte>)
    requires Shaped(v) && Encode(again) == Encode(name)
    ensures Create(v, again, content) == Create(v, name, content)
  {
    hide Slots, FirstFree, Encode, CreateIn;
  }

  /** A name of the one byte 0xE5. */
  const HIDDEN: Text := [MARK_FREE]

  /** Creating it succeeds, but no search finds it, its slot is still the first free one and its cluster is lost. */
  lemma HiddenFileLost()
    ensures var v := Formatted(1);
      && Shaped(v) && Create(v, HIDDEN, [7]).code == 0
      && var w := Create(v, HIDDEN, [7]).vol;
      && Shaped(w) && FirstMatch(Slots(w), Encode(HIDDEN), 0) == |Slots(w)| && FirstFree(Slots(w), 0) == 0
      && FreeList(w.fat) == [] && Lost(w, 3)
  {
    hide Slots, Encode, UniqueNames, CanonicalNames, WellFormed, Create, Names, Files, FreeList, FirstFree, Stores, ClustersNeeded, FirstMatch,
      Lost, Sound, CreateIn, HasRoom;
    NeededSmall(1);
    HiddenRaw();
    FirstFile(1, HIDDEN, [7]);
    var v := Formatted(1);
    NamedShape(v);
    CreatedFound(v, HIDDEN, [7]);
    HiddenLoses(v, HIDDEN, [7]);
    CreateTakes(v, 0, Encode(HIDDEN), [7]);
    FormattedFree(1);
    assert 3 == FreeList(v.fat)[0];
    TakesFirst(v, 1);
  }

  lemma TakesFirst(v: Vol, len: nat)
    requires Shaped(v) && FreeList(v.fat) != []
    ensures FreeList(v.fat)[0] in Taken(v, len)
  {
    hide FreeList, ClustersNeeded;
    assert Taken(v, len)[0] == FreeList(v.fat)[0];
  }

  lemma HiddenRaw()
    ensures 0 !in HIDDEN && Encode(HIDDEN)[0] == MARK_FREE
  {
    LastDotIs(HIDDEN, -1);
    assert Take(HIDDEN, 8) == HIDDEN;
  }

  /** An empty file on a full volume: the call succeeds and the entry has no cluster. */
  lemma EmptyOnFull()
    ensures var v := Formatted(0);
      && Shaped(v) && FreeList(v.fat) == [] && Create(v, A, []).code == 0
      && var w := Create(v, A, []).vol;
      && Shaped(w) && Slots(w) == Slots(v)[0 := FileEntry(Encode(A), 0, 0)] && Cluster(Slots(w)[0]) == 0
  {
    hide Slots, FirstFree, Encode, FileEntry, StoreChain, UniqueNames, CanonicalNames, Files, Names, Create, CreateIn;
    var v := Formatted(0);
    FormattedNamed(0);
    FormattedFree(0);
    NeededSmall(0);
    FormattedShape(0);
    assert !HasRoom(v, 0) && Stores(v, 0);
    CreateOk(v, A, []);
    CreatedSlot(v, 0, Encode(A), []);
    assert StoreResult(v, 0) == 0;
    var w := Create(v, A, []).vol;
    assert w == CreateIn(v, 0, Encode(A), []).vol;
    assert Slots(w) == Slots(v)[0 := FileEntry(Encode(A), 0, 0)];
    assert Slots(w)[0] == FileEntry(Encode(A), 0, 0);
  }

  lemma {:induction false} OneCluster(f: Fat, cs: seq<nat>)
    requires |f| == 4 && AllInRange(f, cs) && Distinct(cs) && 2 !in cs
    ensures |cs| <= 1
  {
    if cs != [] {
      assert cs[0] in cs && cs[|cs| - 1] in cs;
    }
  }

  /** On a volume with room for one cluster, appending 1000 bytes to a file of one byte fails, and the file is gone. */
  lemma AppendLosesFile()
    ensures var v := Formatted(1);
      && Shaped(v) && Create(v, A, [7]).code == 0
      && var w := Create(v, A, [7]).vol;
      && Named(w) && Encode(A) in Files(w)
      && var r := Append(w, A, seq(1000, _ => 1));
      && r.code == -1 && Named(r.vol) && Encode(A) !in Files(r.vol)
  {
    hide Slots, Files, FirstFree, Encode, UniqueNames, CanonicalNames, Names, WellFormed, Append, Create, OldData, Sound;
    NeededSmall(1);
    AStorable();
    OneFile(1, A, [7]);
    assert Clip([7]) == [7];
    var w := Create(Formatted(1), A, [7]).vol;
    var raw, content := Encode(A), seq(1000, _ => 1);
    NamesKept(w);
    OldSeven(w, raw);
    NotDirectory(w, raw, [7]);
    AppendEffect(w, A, content);
    var data := Take(OldData(w, raw) + content, 4095);
    assert |data| == 1001;
    NeededSmall(1001);
    NoFit(w, raw);
  }

  lemma NeededFor4001()
    ensures ClustersNeeded(1, 4001) == 8
  {
    NeededIsCeiling(1, 4001);
  }

  /** Appending the byte 9 to a file of 4001 bytes: the last old byte is gone. */
  lemma AppendCuts()
    ensures var v, old4001 := Formatted(8), seq(4001, _ => 1);
      && Shaped(v) && Create(v, A, old4001).code == 0
      && var w := Create(v, A, old4001).vol;
      && Named(w) && Files(w) == map[Encode(A) := Node(ATTR_ARCHIVE, old4001)]
      && var r := Append(w, A, [9]);
      && r.code == 0 && Named(r.vol) && Files(r.vol) == map[Encode(A) := Node(ATTR_ARCHIVE, old4001[..4000] + [9])]
  {
    hide Slots, Files, FirstFree, Encode, UniqueNames, CanonicalNames, Names, WellFormed, Append, Create, Sound, ClustersNeeded;
    var old4001: seq<Byte> := seq(4001, _ => 1);
    NeededFor4001();
    AStorable();
    OneFile(8, A, old4001);
    assert Clip(old4001) == old4001;
    var w, raw := Create(Formatted(8), A, old4001).vol, Encode(A);
    NamedShape(w);
    NotDirectory(w, raw, old4001);
    AppendEffect(w, A, [9]);
    assert Take(OldData(w, raw) + [9], 4095) == old4001[..4000] + [9];
    FitsAgain(w, raw, old4001);
    assert map[raw := Node(ATTR_ARCHIVE, old4001)][raw := Node(ATTR_ARCHIVE, old4001[..4000] + [9])]
        == map[raw := Node(ATTR_ARCHIVE, old4001[..4000] + [9])];
  }

  /** As many bytes as the file has fit where the file was. */
  lemma FitsAgain(w: Vol, raw: RawName, data: seq<Byte>)
    requires Inv(w) && raw in Names(Slots(w)) && Files(w) == map[raw := Node(ATTR_ARCHIVE, data)]
    ensures AppendFits(w, raw, |data|)
  {
    hide Files, Slots, UniqueNames, Names, ClustersNeeded, FreeList, Contents, ChainOf, Sound;
    SoundShape(w);
    LiveNode(w, raw);
    var e := LiveEntry(w, raw);
    var k := |EntryChain(w.fat, e)|;
    assert |data| <= 512 * Times(k, w.spc);
    if |data| > 0 {
      NeededLeast(w.spc, |data|, k);
    }
  }

  lemma {:induction false} NeededLeast(spc: nat, len: nat, k: nat)
    requires spc > 0 && 0 < len <= 512 * Times(k, spc)
    ensures ClustersNeeded(spc, len) <= k
    decreases k
  {
    if len > 512 * spc {
      NeededLeast(spc, len - 512 * spc, k - 1);
    }
  }

  lemma OldSeven(w: Vol, raw: RawName)
    requires Inv(w) && Files(w) == map[raw := Node(ATTR_ARCHIVE, [7])]
    ensures OldData(w, raw) == [7]
  {
    hide Files;
  }

  lemma NotDirectory(w: Vol, raw: RawName, data: seq<Byte>)
    requires Inv(w) && raw in Names(Slots(w)) && Files(w) == map[raw := Node(ATTR_ARCHIVE, data)]
    ensures !IsDirectory(LiveEntry(w, raw))
  {
    hide Files, Slots, NodeOf, Names, UniqueNames;
    NamedShapeOf(w);
    LiveNode(w, raw);
    NodeAttributes(w, LiveEntry(w, raw));
  }

  lemma NamedShapeOf(w: Vol)
    requires Inv(w)
    ensures Shaped(w)
  {}

  lemma NoFit(w: Vol, raw: RawName)
    requires Inv(w) && raw in Names(Slots(w)) && w.spc == 1 && |w.fat| == 4 && FreeList(w.fat) == [] && w.root == 2
    ensures !AppendFits(w, raw, 1001)
  {
    hide Slots, UniqueNames, FreeList, ClustersNeeded, ChainOf;
    NamedShapeOf(w);
    NeededSmall(1001);
    var e := LiveEntry(w, raw);
    RootAway(w, raw);
    OneCluster(w.fat, EntryChain(w.fat, e));
  }

  lemma RootAway(w: Vol, raw: RawName)
    requires Inv(w) && raw in Names(Slots(w)) && w.root == 2 && |w.fat| == 4
    ensures 2 !in EntryChain(w.fat, LiveEntry(w, raw))
  {
    hide Slots, UniqueNames;
    var k := Found(Slots(w), raw);
    assert Disjoint(ChainOf(w.fat, w.root), EntryChain(w.fat, Slots(w)[k]));
    assert ChainOf(w.fat, 2)[0] == 2;
  }

  // ----- a read of 2^31 bytes -----

  /** 2^15 clusters, highest first. */
  function Backwards(): (cs: seq<nat>)
    ensures |cs| == 0x8000 && forall i :: 0 <= i < 0x8000 ==> cs[i] == 0x8001 - i
  {
    seq(0x8000, i requires 0 <= i < 0x8000 => 0x8001 - i)
  }

  /** 128 sectors per cluster, and one chain that goes through all clusters backwards. */
  ghost function Large(): (v: Vol)
    ensures v.spc == 128 && |v.fat| == 0x8002 && |v.area| == 0x40_0000
  {
    Vol(128, 2, LinkFrom(seq(0x8002, _ => USED), 0, Backwards()), seq(0x40_0000, _ => ZERO))
  }

  lemma LargeChain()
    ensures Shaped(Large()) && ChainOf(Large().fat, 0x8001) == Backwards() && IsChain(Large().fat, Backwards())
    ensures |ChainBytes(Large(), 0x8001)| == 0x8000_0000
  {
    hide LinkFrom, IsChain, Contents, ChainOf;
    TimesIs(0x8000, 128);
    LinkedIsChain(seq(0x8002, _ => USED), Backwards());
  }

  /** Reading the whole file of 2^31 bytes returns something else, on a disk where the second cluster holds ones. */
  lemma LargeReadWrong()
    ensures var v := Large();
      && Shaped(v) && Readable(v, 0x8001, 0x8000_0000)
      && var w := v.(area := Marked(|v.area|, SectorOf(v.spc, 0x8000, 0)));
      && Shaped(w) && Readable(w, 0x8001, 0x8000_0000)
      && ReadResult(w, 0x8001, 0x8000_0000, 0, 0x8000_0000) != Slice(FileData(w, 0x8001, 0x8000_0000), 0, 0x8000_0000)
  {
    hide ChainBytes, ChainOf, IsChain, Times, Index, Inner, ReadResult, Slice, FileData, SectorOf, Large;
    LargeChain();
    var v := Large();
    assert Clipped(0x8000_0000, 0, 0x8000_0000) == 0x8000_0000;
    LastCluster();
    assert Backwards()[0] == 0x8001 && Backwards()[1] == 0x8000;
    GapShows(v, 0x8001, 0x8000_0000, 0, 0x8000_0000, 1);
  }

  lemma LastCluster()
    ensures Index(128, 0) == 0 && Past(128, 0, 0x8000_0000) == 0x8000
  {
    hide Index, Inner, Times;
    TimesIs(0x7FFF, 128);
    TimesIs(0, 128);
    IndexUnique(128, 0x7FFF, 0xFFFF);
    IndexUnique(128, 0, 0);
  }
}
