/** Single calls, whatever the names: duplicates, directories, names that do not survive the 8.3 form, names that hide
    their own entry. The chains stay in order, and every entry but one keeps its contents. */
module FatAnyRuns {
  import opened Bytes
  import opened FatTable
  import opened FatArea
  import opened FatNames
  import opened FatDirectory
  import opened FatVolume
  import opened FatSteps
  import opened FatOps
  import opened FatFiles
  import opened FatPatch
  import opened FatRuns

  /** The volume is sound again, and every slot but k still holds the same entry with the same contents. */
  ghost predicate OneSlot(v: Vol, w: Vol, k: nat) {
    && Sound(v) && Sound(w) && |Slots(w)| == |Slots(v)|
    && (forall j :: 0 <= j < |Slots(v)| && j != k ==> Slots(w)[j] == Slots(v)[j])
    && NodesKept(v, w, k)
  }

  lemma ChangedOne(v: Vol, w: Vol, k: nat, e: DirEntry)
    requires Sound(v) && OnlySlot(v, w, k, e) && EndClean(Slots(v)[k := e])
    requires EntryOk(w.fat, e) && Apart(v, k, EntryChain(w.fat, e))
    ensures OneSlot(v, w, k)
  {
    hide Sound, Slots, OnlySlot, Apart, EntryOk, EntryChain, NodesKept, EndClean;
    SlotsOf(v, w, k, e);
    SlotChanged(v, w, k, e);
  }

  lemma UnchangedOne(v: Vol, k: nat)
    requires Sound(v)
    ensures OneSlot(v, v, k)
  {
    hide Slots, NodeOf;
  }

  /** Slot k holds an entry of that name and kind; if it is live, it reads as that node. */
  ghost predicate Holds(w: Vol, k: nat, raw: RawName, node: Node)
    requires Shaped(w)
  {
    && k < |Slots(w)| && Slots(w)[k].name == raw && Slots(w)[k].attributes == node.attributes
    && (Visible(Slots(w)[k]) ==> NodeOf(w, Slots(w)[k]) == node)
  }

  lemma PutHolds(v: Vol, w: Vol, k: nat, e: DirEntry, node: Node)
    requires OnlySlot(v, w, k, e) && e.attributes == node.attributes && (Visible(e) ==> NodeOf(w, e) == node)
    ensures Shaped(w) && Slots(w)[k] == e && Holds(w, k, e.name, node)
  {
    hide Slots, NodeOf, KeepsChain, EntryChain;
  }

  /** A new entry for stored content, in a free slot or over a live one; a name that starts with the mark of a deleted
      slot leaves the slot free. */
  lemma StoredOne(v: Vol, u: Vol, k: nat, content: seq<Byte>, e: DirEntry)
    requires Sound(v) && OnlyChain(v, u, k) && !IsEnd(e) && Stores(u, |content|)
    requires Cluster(e) == StoreResult(u, |content|) && e.fileSize == |content| % 0x1_0000_0000
    requires k == FirstFree(Slots(v), 0) || Visible(Slots(v)[k])
    ensures var w := PutSlot(StoreChain(u, content), Place(v, k), k % 16, e);
      OneSlot(v, w, k) && Holds(w, k, e.name, Node(e.attributes, Clip(content)))
  {
    hide Sound, Slots, OnlySlot, Apart, KeepsChain, EntryOk, EntryChain, NodeOf, StoreChain, PutSlot, Taken, Place, HasRoom, StoreResult,
      Cluster, Visible, FirstFree, EndClean, OneSlot, Holds, IsEnd;
    SoundShape(v);
    var x := StoreChain(u, content);
    var w := PutSlot(x, Place(v, k), k % 16, e);
    StoreStep(v, u, k, content);
    PutStep(v, x, k, e);
    if !Visible(e) {
      BareEntry(v, w, k, e);
    } else if HasRoom(u, |content|) {
      FreshKept(v, u, k, content, e);
      StoredEntry(u, content, w, e);
    } else {
      NothingStored(u, |content|);
      BareEntry(v, w, k, e);
    }
    EndCleanPut(Slots(v), k, e);
    ChangedOne(v, w, k, e);
    PutHolds(v, w, k, e, Node(e.attributes, Clip(content)));
  }

  lemma NothingStored(u: Vol, len: nat)
    requires Shaped(u) && Stores(u, len) && !HasRoom(u, len)
    ensures len == 0 && StoreResult(u, len) == 0
  {
    hide HasRoom;
  }

  /** A store that failed, with the entry of slot k left as it was. */
  lemma FailedOne(v: Vol, w: Vol, k: nat)
    requires Sound(v) && OnlyChain(v, w, k)
    requires EntryOk(w.fat, Slots(v)[k]) && Apart(v, k, EntryChain(w.fat, Slots(v)[k]))
    ensures OneSlot(v, w, k) && Slots(w) == Slots(v)
  {
    hide Sound, Slots, OnlyChain, OnlySlot, Apart, EntryOk, EntryChain, EndClean, OneSlot;
    SoundShape(v);
    InSlots(v, w, k);
    ChainKeepsSlots(v, w, k);
    assert Slots(v)[k := Slots(v)[k]] == Slots(v);
    ChangedOne(v, w, k, Slots(v)[k]);
    SlotsOf(v, w, k, Slots(v)[k]);
  }

  lemma InSlots(v: Vol, w: Vol, k: nat)
    requires OnlyChain(v, w, k)
    ensures Shaped(v) && k < |Slots(v)|
  {
    hide KeepsChain, Slots;
  }

  lemma CreateOne(v: Vol, name: Text, content: seq<Byte>)
    requires Sound(v) && 0 !in name
    ensures var r, k := Create(v, name, content), FirstFree(Slots(v), 0);
      && OneSlot(v, r.vol, k) && (r.code == 0 || r.code == -1)
      && (r.code == 0 <==> k < |Slots(v)| && Stores(v, |content|))
      && (if r.code == 0 then Holds(r.vol, k, Encode(name), Node(ATTR_ARCHIVE, Clip(content))) else Slots(r.vol) == Slots(v))
  {
    hide Sound, Slots, OnlyChain, StoreChain, PutSlot, Place, Cluster, StoreResult, Visible, FileEntry, FirstFree, HasRoom, Encode, OneSlot,
      EntryOk, EntryChain, Apart, Taken, Holds, IsEnd, Stores;
    SoundShape(v);
    var k, raw := FirstFree(Slots(v), 0), Encode(name);
    if k == |Slots(v)| {
      UnchangedOne(v, k);
    } else {
      EncodeNotEnd(name);
      CreateInOne(v, k, raw, content);
    }
  }

  lemma CreateInOne(v: Vol, k: nat, raw: RawName, content: seq<Byte>)
    requires Sound(v) && k == FirstFree(Slots(v), 0) < |Slots(v)| && raw[0] != 0
    ensures var r := CreateIn(v, k, raw, content);
      && OneSlot(v, r.vol, k) && r.code == (if Stores(v, |content|) then 0 else -1)
      && (if r.code == 0 then Holds(r.vol, k, raw, Node(ATTR_ARCHIVE, Clip(content))) else Slots(r.vol) == Slots(v))
  {
    hide Sound, Slots, OnlyChain, StoreChain, PutSlot, Place, Cluster, StoreResult, Visible, FileEntry, FirstFree, HasRoom, Encode, OneSlot,
      EntryOk, EntryChain, Apart, Taken, Holds, IsEnd, Stores;
    SoundShape(v);
    KeepsSelf(v, k);
    if Stores(v, |content|) {
      FileIs(raw, StoreResult(v, |content|), |content|);
      StoredOne(v, v, k, content, FileEntry(raw, StoreResult(v, |content|), |content|));
    } else {
      StoreStep(v, v, k, content);
      FreeNotVisible(Slots(v));
      BareEntry(v, StoreChain(v, content), k, Slots(v)[k]);
      FailedOne(v, StoreChain(v, content), k);
    }
  }

  lemma WriteInOne(v: Vol, k: nat, content: seq<Byte>)
    requires Sound(v) && k < |Slots(v)| && Visible(Slots(v)[k])
    ensures var r, e := WriteIn(v, k, content), Slots(v)[k];
      && OneSlot(v, r.vol, k) && (r.code == 0 || r.code == -1)
      && (if r.code == 0 then Holds(r.vol, k, e.name, Node(e.attributes, Clip(content))) else Slots(r.vol) == Slots(v))
  {
    hide Sound, Slots, OnlyChain, StoreChain, PutSlot, Place, Cluster, StoreResult, Visible, FirstFree, HasRoom, OneSlot, EntryOk,
      EntryChain, Apart, Taken, FreeChain, Updated, Holds, IsEnd, Stores;
    SoundShape(v);
    var e := Slots(v)[k];
    var u := FreeChain(v, Cluster(e));
    FreeStep(v, k);
    if Stores(u, |content|) {
      var d := Updated(e, StoreResult(u, |content|), |content|);
      UpdatedIs(e, StoreResult(u, |content|), |content|);
      StoredOne(v, u, k, content, d);
    } else {
      StoreStep(v, u, k, content);
      EntryIsOk(v, k);
      NoRoom(u, |content|);
      DanglingEntry(v, u, k, content, e);
      FailedOne(v, StoreChain(u, content), k);
    }
  }

  lemma NoRoom(u: Vol, len: nat)
    requires Shaped(u) && !Stores(u, len)
    ensures !HasRoom(u, len)
  {
    hide HasRoom;
  }

  lemma UpdatedIs(e: DirEntry, c: nat, len: nat)
    requires Visible(e) && c < 0x1_0000_0000
    ensures var d := Updated(e, c, len);
      !IsEnd(d) && d.name == e.name && d.attributes == e.attributes && d.fileSize == len % 0x1_0000_0000
  {}

  /** The first slot of that name, or the free slot that a create would take. */
  ghost function SlotFor(v: Vol, name: Text): nat
    requires Shaped(v)
  {
    var k := FirstMatch(Slots(v), Encode(name), 0);
    if k < |Slots(v)| then k else FirstFree(Slots(v), 0)
  }

  lemma WriteOne(v: Vol, name: Text, content: seq<Byte>)
    requires Sound(v) && 0 !in name
    ensures OneSlot(v, Write(v, name, content).vol, SlotFor(v, name))
  {
    hide Sound, Slots, WriteIn, Create, Encode, FirstMatch, FirstFree, OneSlot, Visible, Holds, Stores;
    SoundShape(v);
    var k := FirstMatch(Slots(v), Encode(name), 0);
    if k < |Slots(v)| {
      MatchVisible(Slots(v), Encode(name));
      WriteInOne(v, k, content);
    } else {
      CreateOne(v, name, content);
    }
  }

  lemma MatchVisible(slots: seq<DirEntry>, raw: RawName)
    ensures var k := FirstMatch(slots, raw, 0); k < |slots| ==> Visible(slots[k]) && slots[k].name == raw
  {
    hide FirstMatch;
  }

  lemma MkdirOne(v: Vol, name: Text)
    requires Sound(v) && 0 !in name
    ensures var r, k := Mkdir(v, name), FirstFree(Slots(v), 0);
      && OneSlot(v, r.vol, k) && r.code == (if k < |Slots(v)| then 0 else -1)
      && (if r.code == 0 then Holds(r.vol, k, Encode(name), Node(ATTR_DIRECTORY, [])) else r.vol == v)
  {
    hide Sound, Slots, OnlyChain, OnlySlot, PutSlot, Place, Cluster, Visible, FolderEntry, FirstFree, Encode, OneSlot, EntryOk, EntryChain,
      Apart, EndClean, IsEnd, Holds, NodeOf;
    SoundShape(v);
    var k, e := FirstFree(Slots(v), 0), FolderEntry(Encode(name));
    if k == |Slots(v)| {
      UnchangedOne(v, k);
    } else {
      KeepsSelf(v, k);
      PutStep(v, v, k, e);
      EncodeNotEnd(name);
      FolderIs(Encode(name));
      var w := PutSlot(v, Place(v, k), k % 16, e);
      BareEntry(v, w, k, e);
      EndCleanPut(Slots(v), k, e);
      ChangedOne(v, w, k, e);
      PutHolds(v, w, k, e, Node(ATTR_DIRECTORY, []));
    }
  }

  lemma DeleteOne(v: Vol, name: Text)
    requires Sound(v)
    ensures var r, k := Delete(v, name), FirstMatch(Slots(v), Encode(name), 0);
      && OneSlot(v, r.vol, k) && r.code == (if k < |Slots(v)| then 0 else -1)
      && (if r.code == 0 then Slots(r.vol)[k] == Deleted(Slots(v)[k]) else r.vol == v)
  {
    hide Sound, Slots, OnlyChain, OnlySlot, Apart, EntryOk, EntryChain, FreeChain, PutSlot, Place, Cluster, Deleted, EndClean, Encode,
      FirstMatch, OneSlot, Visible, NodeOf;
    SoundShape(v);
    var k := FirstMatch(Slots(v), Encode(name), 0);
    if k == |Slots(v)| {
      UnchangedOne(v, k);
    } else {
      MatchVisible(Slots(v), Encode(name));
      var e := Slots(v)[k];
      var u := FreeChain(v, Cluster(e));
      FreeStep(v, k);
      PutStep(v, u, k, Deleted(e));
      var w := PutSlot(u, Place(v, k), k % 16, Deleted(e));
      BareEntry(v, w, k, Deleted(e));
      FreedNotEnd(e);
      EndCleanPut(Slots(v), k, Deleted(e));
      ChangedOne(v, w, k, Deleted(e));
      SlotsOf(v, w, k, Deleted(e));
    }
  }

  lemma FreedNotEnd(e: DirEntry)
    ensures !IsEnd(Deleted(e))
  {}

  // ----- the text lookup on slots -----

  /** The first slot, from k on, that the text lookup of the listing chooses; |slots| if there is none. */
  function TextSlot(slots: seq<DirEntry>, name: Text, k: nat): (t: nat)
    requires k <= |slots|
    ensures k <= t <= |slots| && (t < |slots| ==> Visible(slots[t]) && TextMatches(slots[t], name))
    decreases |slots| - k
  {
    if k == |slots| || IsEnd(slots[k]) then |slots|
    else if Visible(slots[k]) && TextMatches(slots[k], name) then k
    else TextSlot(slots, name, k + 1)
  }

  lemma {:induction false} ListedSlot(slots: seq<DirEntry>, name: Text, k: nat)
    requires k <= |slots|
    ensures var l, t := Listing(slots, k), TextSlot(slots, name, k);
      && (FirstText(l, name) < |l| <==> t < |slots|)
      && (t < |slots| ==> l[FirstText(l, name)] == slots[t])
    decreases |slots| - k
  {
    hide TextMatches, Visible, IsEnd;
    if k < |slots| && !IsEnd(slots[k]) {
      ListedSlot(slots, name, k + 1);
      if Visible(slots[k]) {
        TextStep(slots[k], Listing(slots, k + 1), name);
      } else {
        assert Listing(slots, k) == Listing(slots, k + 1);
      }
    }
  }

  /** A write through the handle of a listed file: the bytes in reach are laid over its data. */
  lemma OverwriteOne(v: Vol, name: Text, offset: nat, data: seq<Byte>)
    requires Sound(v)
    ensures var r, t := Overwrite(v, name, offset, data), TextSlot(Slots(v), name, 0);
      && OneSlot(v, r.vol, t)
      && (t == |Slots(v)| ==> r == Outcome(v, 0))
      && (t < |Slots(v)| ==>
            var e := Slots(v)[t];
            var d := NodeOf(v, e).data;
            && r.code == Reach(d, offset, |data|)
            && Holds(r.vol, t, e.name, Node(e.attributes, Overlay(d, offset, data[..r.code]))))
  {
    hide Sound, Slots, Visible, Listing, FirstText, TextSlot, OneSlot, Overwrite, Holds, NodeOf, Overlay, Reach;
    SoundShape(v);
    ListedSlot(Slots(v), name, 0);
    var t := TextSlot(Slots(v), name, 0);
    OverwriteListed(v, name, offset, data);
    if t == |Slots(v)| {
      UnchangedOne(v, t);
    } else {
      OverwriteInOne(v, t, offset, data);
    }
  }

  lemma OverwriteListed(v: Vol, name: Text, offset: nat, data: seq<Byte>)
    requires Sound(v)
    ensures var l := Listing(Slots(v), 0);
      var i := FirstText(l, name);
      if i == |l| then Overwrite(v, name, offset, data) == Outcome(v, 0) else
        var n := Writable(v, Cluster(l[i]), l[i].fileSize, offset, |data|);
        n <= |data| && Overwrite(v, name, offset, data) == Outcome(Patched(v, Cluster(l[i]), offset, data[..n]), n)
  {
    hide Slots, Listing, FirstText, Patched, Writable, Cluster;
    var l := Listing(Slots(v), 0);
    var i := FirstText(l, name);
    if i < |l| {
      WritableFits(v, Cluster(l[i]), l[i].fileSize, offset, |data|);
    }
  }

  lemma OverwriteInOne(v: Vol, k: nat, offset: nat, data: seq<Byte>)
    requires Sound(v) && k < |Slots(v)| && Visible(Slots(v)[k])
    ensures var e := Slots(v)[k];
      var d, n := NodeOf(v, e).data, Writable(v, Cluster(e), e.fileSize, offset, |data|);
      && n == Reach(d, offset, |data|)
      && var w := Patched(v, Cluster(e), offset, data[..n]);
      && OneSlot(v, w, k) && Holds(w, k, e.name, Node(e.attributes, Overlay(d, offset, data[..n])))
  {
    hide Sound, Slots, OnlyChain, Apart, EntryOk, EntryChain, Cluster, EndClean, OneSlot, Visible, Patched, Written, NodeOf, ChainBytes,
      Overlay;
    SoundShape(v);
    var e := Slots(v)[k];
    DataOf(v, e);
    WritableFits(v, Cluster(e), e.fileSize, offset, |data|);
    var n := Writable(v, Cluster(e), e.fileSize, offset, |data|);
    PatchedIsWritten(v, Cluster(e), offset, data, n);
    var w := Patched(v, Cluster(e), offset, data[..n]);
    PatchStep(v, w, k, offset, data, n);
    SameEntry(v, w, k, e, offset, data, n);
    FailedOne(v, w, k);
    OverlayTake(ChainBytes(v, Cluster(e)), e.fileSize, offset, data[..n]);
  }
}
