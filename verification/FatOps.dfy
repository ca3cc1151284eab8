/** The file operations as functions from volume to volume, and what each does to the map of names. */
module FatOps {
  import opened Bytes
  import opened FatTable
  import opened FatArea
  import opened FatNames
  import opened FatDirectory
  import opened FatVolume
  import opened FatSteps

  const WRITE_DATE: U16 := 22561  // (44 << 9) | (1 << 5) | 1
  const CREATE_STAMP: Stamp := [0, 0, 0, 0] + Bytes16(WRITE_DATE) + [0, 0]
  const NO_STAMP: Stamp := [0, 0, 0, 0, 0, 0, 0, 0]

  /** The volume an operation leaves, and its return value. */
  datatype Outcome = Outcome(vol: Vol, code: int)

  function FileEntry(raw: RawName, c: nat, len: nat): (e: DirEntry)
    requires c < 0x1_0000_0000
    ensures Cluster(e) == c
  {
    WithCluster(DirEntry(raw, ATTR_ARCHIVE, CREATE_STAMP, 0, 0, WRITE_DATE, 0, len % 0x1_0000_0000), c)
  }

  function FolderEntry(raw: RawName): (e: DirEntry)
    ensures Cluster(e) == 0
  {
    DirEntry(raw, ATTR_DIRECTORY, NO_STAMP, 0, 0, WRITE_DATE, 0, 0)
  }

  function Updated(e: DirEntry, c: nat, len: nat): (r: DirEntry)
    requires c < 0x1_0000_0000
    ensures Cluster(r) == c
  {
    WithCluster(e, c).(fileSize := len % 0x1_0000_0000, writeDate := WRITE_DATE, writeTime := 0)
  }

  function Deleted(e: DirEntry): (r: DirEntry)
    ensures IsFreeSlot(r) && !Visible(r)
  {
    e.(name := e.name[0 := MARK_FREE])
  }

  /** A store that runs out of clusters fails, unless there was nothing to store. */
  ghost predicate Stores(v: Vol, len: nat)
    requires Shaped(v)
  {
    HasRoom(v, len) || len == 0
  }

  ghost function CreateIn(v: Vol, k: nat, raw: RawName, content: seq<Byte>): Outcome
    requires Shaped(v) && k < |Slots(v)|
  {
    var u := StoreChain(v, content);
    if Stores(v, |content|)
    then Outcome(PutSlot(u, Place(v, k), k % 16, FileEntry(raw, StoreResult(v, |content|), |content|)), 0)
    else Outcome(u, -1)
  }

  ghost function Create(v: Vol, name: Text, content: seq<Byte>): Outcome
    requires Shaped(v)
  {
    var k := FirstFree(Slots(v), 0);
    if k == |Slots(v)| then Outcome(v, -1) else CreateIn(v, k, Encode(name), content)
  }

  ghost function WriteIn(v: Vol, k: nat, content: seq<Byte>): Outcome
    requires Shaped(v) && k < |Slots(v)|
  {
    var e := Slots(v)[k];
    var u := FreeChain(v, Cluster(e));
    var w := StoreChain(u, content);
    if Stores(u, |content|)
    then Outcome(PutSlot(w, Place(v, k), k % 16, Updated(e, StoreResult(u, |content|), |content|)), 0)
    else Outcome(w, -1)
  }

  ghost function Write(v: Vol, name: Text, content: seq<Byte>): Outcome
    requires Shaped(v)
  {
    var k := FirstMatch(Slots(v), Encode(name), 0);
    if k == |Slots(v)| then Create(v, name, content) else WriteIn(v, k, content)
  }

  ghost function DeleteIn(v: Vol, k: nat): (r: Outcome)
    requires Shaped(v) && k < |Slots(v)|
    ensures SameShape(v, r.vol)
  {
    var e := Slots(v)[k];
    Outcome(PutSlot(FreeChain(v, Cluster(e)), Place(v, k), k % 16, Deleted(e)), 0)
  }

  ghost function Delete(v: Vol, name: Text): (r: Outcome)
    requires Shaped(v)
    ensures Shaped(r.vol)
  {
    var k := FirstMatch(Slots(v), Encode(name), 0);
    if k == |Slots(v)| then Outcome(v, -1) else DeleteIn(v, k)
  }

  ghost function Mkdir(v: Vol, name: Text): Outcome
    requires Shaped(v)
  {
    var k := FirstFree(Slots(v), 0);
    if k == |Slots(v)| then Outcome(v, -1)
    else Outcome(PutSlot(v, Place(v, k), k % 16, FolderEntry(Encode(name))), 0)
  }

  // ----- effects on one slot -----

  /** An entry without a cluster claims nothing. */
  lemma BareEntry(v: Vol, w: Vol, k: nat, e: DirEntry)
    requires Shaped(v) && Shaped(w) && k < |Slots(v)| && (Visible(e) ==> Cluster(e) == 0 && e.fileSize == 0)
    ensures EntryOk(w.fat, e) && EntryChain(w.fat, e) == [] && Apart(v, k, EntryChain(w.fat, e))
    ensures NodeOf(w, e) == Node(e.attributes, [])
  {}

  /** Writing the directory leaves the freshly stored chain alone. */
  lemma FreshKept(v: Vol, u: Vol, k: nat, content: seq<Byte>, e: DirEntry)
    requires Shaped(v) && k < |Slots(v)| && SameShape(v, u) && Apart(v, k, Taken(u, |content|))
    ensures KeepsChain(StoreChain(u, content), PutSlot(StoreChain(u, content), Place(v, k), k % 16, e), Taken(u, |content|))
  {
    var cs := Taken(u, |content|);
    RootApart(v, k, cs);
    SectorsSame(v, StoreChain(u, content), cs);
    PutKeeps(StoreChain(u, content), Place(v, k), k % 16, e, cs);
  }

  /** Slot k gets an entry for freshly stored content. */
  lemma Filled(v: Vol, u: Vol, k: nat, content: seq<Byte>, e: DirEntry)
    requires Sound(v) && UniqueNames(Slots(v)) && OnlyChain(v, u, k) && Visible(e) && Stores(u, |content|)
    requires Cluster(e) == StoreResult(u, |content|) && e.fileSize == |content| % 0x1_0000_0000
    requires k == FirstFree(Slots(v), 0) || Visible(Slots(v)[k])
    requires FreshName(Slots(v), k, e)
    ensures var w := PutSlot(StoreChain(u, content), Place(v, k), k % 16, e);
      && Sound(w) && UniqueNames(Slots(w)) && Slots(w) == Slots(v)[k := e]
      && Files(w) == MapStep(Files(v), Slots(v)[k], e, Node(e.attributes, Clip(content)))
  {
    hide Sound, Slots, OnlySlot, Apart, KeepsChain, EntryOk, EntryChain, NodeOf, Files, MapStep, UniqueNames, FreshName;
    hide StoreChain, PutSlot, Taken, Place, HasRoom, StoreResult, Cluster;
    var x := StoreChain(u, content);
    var w := PutSlot(x, Place(v, k), k % 16, e);
    StoreStep(v, u, k, content);
    PutStep(v, x, k, e);
    if HasRoom(u, |content|) {
      FreshKept(v, u, k, content, e);
      StoredEntry(u, content, w, e);
    } else {
      BareEntry(v, w, k, e);
    }
    SlotReplaced(v, w, k, e);
  }

  lemma KeepsSlot(v: Vol, w: Vol, k: nat)
    requires Shaped(v) && k < |Slots(v)| && OnlySlot(v, w, k, Slots(v)[k])
    ensures Slots(w) == Slots(v)
  {}

  lemma SlotsOf(v: Vol, w: Vol, k: nat, e: DirEntry)
    requires OnlySlot(v, w, k, e)
    ensures Shaped(v) && Shaped(w) && k < |Slots(v)| && Slots(w) == Slots(v)[k := e]
  {}

  lemma MapSame(m: map<RawName, Node>, was: DirEntry, e: DirEntry, node: Node)
    requires !Visible(was) && !Visible(e)
    ensures MapStep(m, was, e, node) == m
  {}

  lemma FreeNotVisible(slots: seq<DirEntry>)
    ensures FirstFree(slots, 0) < |slots| ==> !Visible(slots[FirstFree(slots, 0)])
  {
    hide FirstFree;
  }

  /** A failed store leaves the directory and the map as they were. */
  lemma StoreFailed(v: Vol, k: nat, content: seq<Byte>)
    requires Sound(v) && UniqueNames(Slots(v)) && k == FirstFree(Slots(v), 0) < |Slots(v)|
    ensures var u := StoreChain(v, content);
      Sound(u) && UniqueNames(Slots(u)) && Slots(u) == Slots(v) && Files(u) == Files(v)
  {
    hide Sound, Slots, OnlyChain, OnlySlot, Apart, EntryOk, EntryChain, NodeOf, Files, UniqueNames, FreshName, MapStep, StoreChain,
      FirstFree, Visible, Taken;
    SoundShape(v);
    FreeNotVisible(Slots(v));
    var u := StoreChain(v, content);
    var e := Slots(v)[k];
    KeepsSelf(v, k);
    StoreStep(v, v, k, content);
    ChainKeepsSlots(v, u, k);
    BareEntry(v, u, k, e);
    SlotReplaced(v, u, k, e);
    KeepsSlot(v, u, k);
    MapSame(Files(v), e, e, NodeOf(u, e));
  }

  // ----- effects of the operations -----

  /** The text has a raw form that a directory slot can hold as a live entry. */
  predicate Storable(name: Text) {
    WellFormed(name) && Encode(name)[0] != 0 && Encode(name)[0] != MARK_FREE
  }

  lemma NotListed(slots: seq<DirEntry>, k: nat, e: DirEntry)
    requires e.name !in Names(slots)
    ensures FreshName(slots, k, e)
  {}

  /** The only live slot with its name. */
  lemma OwnName(slots: seq<DirEntry>, k: nat, e: DirEntry)
    requires UniqueNames(slots) && k < |slots| && Visible(slots[k]) && e.name == slots[k].name
    ensures FreshName(slots, k, e)
  {}

  ghost predicate Inv(v: Vol) {
    Sound(v) && UniqueNames(Slots(v))
  }

  lemma MapAdds(m: map<RawName, Node>, was: DirEntry, e: DirEntry, node: Node)
    requires Visible(e) && (Visible(was) ==> was.name == e.name)
    ensures MapStep(m, was, e, node) == m[e.name := node]
  {}

  lemma MapDrops(m: map<RawName, Node>, was: DirEntry, e: DirEntry, node: Node)
    requires Visible(was) && !Visible(e)
    ensures MapStep(m, was, e, node) == m - {was.name}
  {}

  lemma FileIs(raw: RawName, c: nat, len: nat)
    requires c < 0x1_0000_0000 && raw[0] != 0
    ensures var e := FileEntry(raw, c, len);
      && !IsEnd(e) && e.name == raw && e.attributes == ATTR_ARCHIVE && e.fileSize == len % 0x1_0000_0000
      && (Visible(e) <==> raw[0] != MARK_FREE)
  {}

  /** An entry that is not live, in the first free slot: the map does not change. */
  lemma HiddenPut(v: Vol, u: Vol, k: nat, e: DirEntry)
    requires Inv(v) && k == FirstFree(Slots(v), 0) < |Slots(v)| && OnlyChain(v, u, k) && !Visible(e) && !IsEnd(e)
    ensures var w := PutSlot(u, Place(v, k), k % 16, e); Inv(w) && Slots(w) == Slots(v)[k := e] && Files(w) == Files(v)
  {
    hide Sound, Slots, KeepsChain, OthersKept, OnlySlot, Apart, EntryOk, EntryChain, NodeOf, Files, UniqueNames, FirstFree, PutSlot, Place,
      MapStep, Visible, IsEnd;
    SoundShape(v);
    FreeNotVisible(Slots(v));
    PutStep(v, u, k, e);
    var w := PutSlot(u, Place(v, k), k % 16, e);
    BareEntry(v, w, k, e);
    SlotReplaced(v, w, k, e);
    SlotsOf(v, w, k, e);
    MapSame(Files(v), Slots(v)[k], e, NodeOf(w, e));
  }

  /** The map with a new entry; a name that starts with the mark of a deleted slot adds nothing. */
  ghost function Entered(m: map<RawName, Node>, raw: RawName, node: Node): map<RawName, Node> {
    if raw[0] == MARK_FREE then m else m[raw := node]
  }

  lemma CreateInEffect(v: Vol, k: nat, raw: RawName, content: seq<Byte>)
    requires Inv(v) && k == FirstFree(Slots(v), 0) < |Slots(v)| && raw !in Names(Slots(v)) && raw[0] != 0
    ensures var r := CreateIn(v, k, raw, content);
      && Inv(r.vol)
      && Files(r.vol) == if Stores(v, |content|) then Entered(Files(v), raw, Node(ATTR_ARCHIVE, Clip(content))) else Files(v)
  {
    hide Sound, Slots, OnlyChain, Files, UniqueNames, FreshName, Names, StoreChain, PutSlot, Place, Cluster, StoreResult, MapStep, Visible,
      FileEntry, FirstFree, HasRoom, IsEnd, Apart, Taken;
    SoundShape(v);
    if Stores(v, |content|) {
      var e := FileEntry(raw, StoreResult(v, |content|), |content|);
      FileIs(raw, StoreResult(v, |content|), |content|);
      FreeNotVisible(Slots(v));
      KeepsSelf(v, k);
      if raw[0] == MARK_FREE {
        StoreStep(v, v, k, content);
        HiddenPut(v, StoreChain(v, content), k, e);
      } else {
        NotListed(Slots(v), k, e);
        Filled(v, v, k, content, e);
        MapAdds(Files(v), Slots(v)[k], e, Node(ATTR_ARCHIVE, Clip(content)));
      }
    } else {
      StoreFailed(v, k, content);
    }
  }

  /** Create fails exactly when the directory is full or the free clusters do not suffice, and then changes no file. */
  lemma CreateEffect(v: Vol, name: Text, content: seq<Byte>)
    requires Inv(v) && Encode(name) !in Names(Slots(v)) && 0 !in name
    ensures var r := Create(v, name, content);
      && Inv(r.vol) && (r.code == 0 || r.code == -1)
      && (r.code == 0 <==> FirstFree(Slots(v), 0) < |Slots(v)| && Stores(v, |content|))
      && Files(r.vol) == if r.code == 0 then Entered(Files(v), Encode(name), Node(ATTR_ARCHIVE, Clip(content))) else Files(v)
  {
    hide Slots, Files, UniqueNames, Names, StoreChain, PutSlot, Encode, FirstFree, Stores, Entered;
    EncodeNotEnd(name);
    if FirstFree(Slots(v), 0) < |Slots(v)| {
      CreateInEffect(v, FirstFree(Slots(v), 0), Encode(name), content);
    }
  }

  lemma DeleteInEffect(v: Vol, k: nat)
    requires Inv(v) && k < |Slots(v)| && Visible(Slots(v)[k])
    ensures var w := DeleteIn(v, k).vol;
      Inv(w) && Slots(w) == Slots(v)[k := Deleted(Slots(v)[k])] && Files(w) == Files(v) - {Slots(v)[k].name}
  {
    hide Sound, Slots, OnlyChain, Apart, EntryOk, EntryChain, NodeOf, Files, UniqueNames, FreshName, FreeChain, PutSlot, Place, Cluster,
      MapStep, Deleted;
    SoundShape(v);
    var e := Slots(v)[k];
    var u := FreeChain(v, Cluster(e));
    FreeStep(v, k);
    PutStep(v, u, k, Deleted(e));
    var w := PutSlot(u, Place(v, k), k % 16, Deleted(e));
    BareEntry(v, w, k, Deleted(e));
    SlotReplaced(v, w, k, Deleted(e));
    MapDrops(Files(v), e, Deleted(e), NodeOf(w, Deleted(e)));
  }

  lemma NameListed(v: Vol, raw: RawName)
    requires Inv(v)
    ensures raw in Files(v) <==> FirstMatch(Slots(v), raw, 0) < |Slots(v)|
  {
    if FirstMatch(Slots(v), raw, 0) == |Slots(v)| {
      NoMatch(Slots(v), raw, 0);
    }
  }

  /** Deleting removes the name from the map and nothing else; it fails exactly for an absent name. */
  lemma DeleteEffect(v: Vol, name: Text)
    requires Inv(v)
    ensures var r := Delete(v, name);
      && Inv(r.vol) && (r.code == 0 || r.code == -1)
      && (r.code == 0 <==> Encode(name) in Files(v))
      && Files(r.vol) == if r.code == 0 then Files(v) - {Encode(name)} else Files(v)
  {
    NameListed(v, Encode(name));
    hide Slots, Files, UniqueNames, Encode, FirstMatch;
    var k := FirstMatch(Slots(v), Encode(name), 0);
    if k < |Slots(v)| {
      DeleteInEffect(v, k);
    }
  }

  /** A free slot gets an entry without clusters. */
  lemma BarePut(v: Vol, k: nat, e: DirEntry)
    requires Inv(v) && k == FirstFree(Slots(v), 0) < |Slots(v)| && !Visible(Slots(v)[k])
    requires Visible(e) && !IsEnd(e) && Cluster(e) == 0 && e.fileSize == 0 && FreshName(Slots(v), k, e)
    ensures var w := PutSlot(v, Place(v, k), k % 16, e);
      Inv(w) && Slots(w) == Slots(v)[k := e] && Files(w) == Files(v)[e.name := Node(e.attributes, [])]
  {
    hide Sound, Slots, OnlyChain, OnlySlot, Apart, EntryOk, EntryChain, NodeOf, Files, UniqueNames, FreshName, FirstFree, PutSlot, Place, MapStep, Visible, Cluster;
    SoundShape(v);
    KeepsSelf(v, k);
    PutStep(v, v, k, e);
    var w := PutSlot(v, Place(v, k), k % 16, e);
    BareEntry(v, w, k, e);
    SlotReplaced(v, w, k, e);
    SlotsOf(v, w, k, e);
    MapAdds(Files(v), Slots(v)[k], e, NodeOf(w, e));
  }

  lemma MkdirEffect(v: Vol, name: Text)
    requires Inv(v) && Encode(name) !in Names(Slots(v)) && 0 !in name
    ensures var r := Mkdir(v, name);
      && Inv(r.vol) && (r.code == 0 || r.code == -1)
      && (r.code == 0 <==> FirstFree(Slots(v), 0) < |Slots(v)|)
      && Files(r.vol) == if r.code == 0 then Entered(Files(v), Encode(name), Node(ATTR_DIRECTORY, [])) else Files(v)
  {
    hide Slots, Files, UniqueNames, Names, PutSlot, Place, Encode, FirstFree, Sound, OnlyChain, FolderEntry, Visible, IsEnd;
    SoundShape(v);
    var k, e := FirstFree(Slots(v), 0), FolderEntry(Encode(name));
    EncodeNotEnd(name);
    FolderIs(Encode(name));
    if k < |Slots(v)| {
      FreeNotVisible(Slots(v));
      if Visible(e) {
        NotListed(Slots(v), k, e);
        BarePut(v, k, e);
      } else {
        KeepsSelf(v, k);
        HiddenPut(v, v, k, e);
      }
    }
  }

  lemma FolderIs(raw: RawName)
    requires raw[0] != 0
    ensures var e := FolderEntry(raw);
      && !IsEnd(e) && e.name == raw && e.attributes == ATTR_DIRECTORY && e.fileSize == 0 && Cluster(e) == 0
      && (Visible(e) <==> raw[0] != MARK_FREE)
  {}

  // ----- overwriting -----

  /** The same names and attributes in the same slots. */
  predicate SameNames(s: seq<DirEntry>, t: seq<DirEntry>) {
    |s| == |t| && forall k :: 0 <= k < |s| ==> t[k].name == s[k].name && t[k].attributes == s[k].attributes
  }

  lemma SameNamesPut(s: seq<DirEntry>, k: nat, e: DirEntry)
    requires k < |s| && e.name == s[k].name && e.attributes == s[k].attributes
    ensures SameNames(s, s[k := e])
  {}

  lemma WriteInOk(v: Vol, k: nat, content: seq<Byte>)
    requires Inv(v) && k < |Slots(v)| && Visible(Slots(v)[k]) && Stores(FreeChain(v, Cluster(Slots(v)[k])), |content|)
    ensures var r := WriteIn(v, k, content);
      && Inv(r.vol) && SameNames(Slots(v), Slots(r.vol))
      && Files(r.vol) == Files(v)[Slots(v)[k].name := Node(Slots(v)[k].attributes, Clip(content))]
  {
    var e := Slots(v)[k];
    var u := FreeChain(v, Cluster(e));
    var d := Updated(e, StoreResult(u, |content|), |content|);
    assert Visible(d) && d.fileSize == |content| % 0x1_0000_0000 && d.name == e.name && d.attributes == e.attributes;
    OwnName(Slots(v), k, d);
    SameNamesPut(Slots(v), k, d);
    hide Sound, Slots, OnlyChain, Files, UniqueNames, FreshName, StoreChain, PutSlot, Place, Cluster, StoreResult, MapStep, Visible, FreeChain, Updated, SameNames;
    FreeStep(v, k);
    Filled(v, u, k, content, d);
    MapAdds(Files(v), e, d, Node(e.attributes, Clip(content)));
  }

  /** The entry of an overwrite that ran out of space: its first cluster was freed and then taken again. */
  lemma DanglingEntry(v: Vol, u: Vol, k: nat, content: seq<Byte>, e: DirEntry)
    requires Shaped(v) && k < |Slots(v)| && EntryOk(v.fat, e) && Visible(e) && u == FreeChain(v, Cluster(e))
    requires !HasRoom(u, |content|) && Apart(v, k, Taken(u, |content|))
    ensures EntryOk(StoreChain(u, content).fat, e) && Apart(v, k, EntryChain(StoreChain(u, content).fat, e))
  {
    hide Slots, Taken, StoreChain, Cluster, HasRoom, IsChain, ChainOf;
    var cs := Taken(u, |content|);
    var c := Cluster(e);
    if InRange(v.fat, c) {
      FreedIsTaken(v, u, c, |content|);
      var i :| 0 <= i < |cs| && cs[i] == c;
      SuffixChain(u, content, i);
      assert forall x :: x in cs[i..] ==> x in cs;
    } else {
      OutOfTable(StoreChain(u, content).fat, c);
    }
  }

  lemma OutOfTable(f: Fat, c: nat)
    requires !InRange(f, c)
    ensures ChainOf(f, c) == []
  {}

  /** A store that runs out of space takes every free cluster, among them one just freed. */
  lemma FreedIsTaken(v: Vol, u: Vol, c: nat, len: nat)
    requires Shaped(v) && InRange(v.fat, c) && u == FreeChain(v, c) && !HasRoom(u, len)
    ensures c in Taken(u, len)
  {
    hide FreeList, ClustersNeeded, Cleared;
    ClearedAt(v.fat, ChainOf(v.fat, c), c);
    assert c == ChainOf(v.fat, c)[0];
    assert IsFree(u.fat, c);
  }

  /** The chain of a new store, entered at its i-th cluster. */
  lemma SuffixChain(u: Vol, content: seq<Byte>, i: nat)
    requires Shaped(u) && i < |Taken(u, |content|)|
    ensures var cs, f := Taken(u, |content|), StoreChain(u, content).fat; IsChain(f, cs[i..]) && ChainOf(f, cs[i]) == cs[i..]
  {
    hide Taken, LinkFrom, IsChain, ChainOf;
    LinkedIsChain(u.fat, Taken(u, |content|));
    ChainSuffix(StoreChain(u, content).fat, Taken(u, |content|), i);
  }

  lemma WriteInFailed(v: Vol, k: nat, content: seq<Byte>)
    requires Inv(v) && k < |Slots(v)| && Visible(Slots(v)[k]) && !Stores(FreeChain(v, Cluster(Slots(v)[k])), |content|)
    ensures var w := WriteIn(v, k, content).vol;
      && Inv(w) && Slots(w) == Slots(v)
      && Files(w) == Files(v)[Slots(v)[k].name := NodeOf(w, Slots(v)[k])]
  {
    var e := Slots(v)[k];
    var u := FreeChain(v, Cluster(e));
    var w := StoreChain(u, content);
    assert Shaped(v) && EntryOk(v.fat, e);
    OwnName(Slots(v), k, e);
    hide Sound, Slots, OnlyChain, OnlySlot, Files, UniqueNames, FreshName, StoreChain, Cluster, MapStep, FreeChain, Apart, EntryOk, EntryChain, NodeOf, Taken;
    FreeStep(v, k);
    StoreStep(v, u, k, content);
    ChainKeepsSlots(v, w, k);
    DanglingEntry(v, u, k, content, e);
    SlotReplaced(v, w, k, e);
    KeepsSlot(v, w, k);
    MapAdds(Files(v), e, e, NodeOf(w, e));
  }

  /** The free clusters an overwrite can use: those free now and those of the old chain. */
  lemma RoomAfterFree(v: Vol, e: DirEntry, len: nat)
    requires Shaped(v) && EntryOk(v.fat, e) && Visible(e)
    ensures HasRoom(FreeChain(v, Cluster(e)), len) <==>
            ClustersNeeded(v.spc, len) <= |FreeList(v.fat)| + |EntryChain(v.fat, e)|
  {
    var cs := ChainOf(v.fat, Cluster(e));
    if cs != [] {
      forall i | 0 <= i < |cs| ensures Next(v.fat, cs[i]) != 0 {
        ChainHoldsNoFree(v.fat, cs, cs[i]);
      }
    }
    FreeCountCleared(v.fat, cs);
  }

  /** The condition, checkable beforehand, under which an overwrite of entry e succeeds. */
  ghost predicate Fits(v: Vol, e: DirEntry, len: nat)
    requires Shaped(v)
  {
    len == 0 || ClustersNeeded(v.spc, len) <= |FreeList(v.fat)| + |EntryChain(v.fat, e)|
  }

  lemma WriteInEffect(v: Vol, k: nat, content: seq<Byte>)
    requires Inv(v) && k < |Slots(v)| && Visible(Slots(v)[k])
    ensures var r, e := WriteIn(v, k, content), Slots(v)[k];
      && Inv(r.vol) && SameNames(Slots(v), Slots(r.vol)) && (r.code == 0 || r.code == -1)
      && (r.code == 0 <==> Fits(v, e, |content|))
      && (r.code == 0 ==> Files(r.vol) == Files(v)[e.name := Node(e.attributes, Clip(content))])
      && (r.code == -1 ==> Slots(r.vol) == Slots(v) && Files(r.vol) == Files(v)[e.name := NodeOf(r.vol, e)])
  {
    var e := Slots(v)[k];
    assert Shaped(v) && EntryOk(v.fat, e);
    RoomAfterFree(v, e, |content|);
    hide Sound, Slots, Files, UniqueNames, StoreChain, PutSlot, Place, FreeChain, NodeOf, EntryChain, Names, HasRoom, Cluster, FreeList, ClustersNeeded;
    if Stores(FreeChain(v, Cluster(e)), |content|) {
      WriteInOk(v, k, content);
    } else {
      WriteInFailed(v, k, content);
    }
  }

  /** The live entry with the given name. */
  ghost function LiveEntry(v: Vol, raw: RawName): (e: DirEntry)
    requires Inv(v) && raw in Names(Slots(v))
    ensures Visible(e) && e.name == raw
  {
    Slots(v)[Found(Slots(v), raw)]
  }

  /** An overwrite replaces the data and keeps the attributes. When it runs out of space it returns -1, keeps the
      invariant and every other file, and leaves the named entry with whatever its old first cluster now holds. */
  lemma WriteEffect(v: Vol, name: Text, content: seq<Byte>)
    requires Inv(v) && Encode(name) in Names(Slots(v))
    ensures var r, e := Write(v, name, content), LiveEntry(v, Encode(name));
      && Inv(r.vol) && SameNames(Slots(v), Slots(r.vol)) && (r.code == 0 || r.code == -1)
      && (r.code == 0 <==> Fits(v, e, |content|))
      && (r.code == 0 ==> Files(r.vol) == Files(v)[Encode(name) := Node(e.attributes, Clip(content))])
      && (r.code == -1 ==> Slots(r.vol) == Slots(v) && Files(r.vol) == Files(v)[Encode(name) := NodeOf(r.vol, e)])
  {
    var raw := Encode(name);
    hide Slots, Files, UniqueNames, Encode, WriteIn, NodeOf, Fits;
    WriteInEffect(v, Found(Slots(v), raw), content);
  }
}
