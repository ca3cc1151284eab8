/** Appending, undoing, and whole runs of file operations. */
module FatRuns {
  import opened Bytes
  import opened FatTable
  import opened FatArea
  import opened FatNames
  import opened FatDirectory
  import opened FatVolume
  import opened FatSteps
  import opened FatOps
  import opened FatFiles
  import opened FatPatch

  // ----- what a create takes, and that a delete gives it back -----

  /** A successful create takes the lowest free clusters, exactly as many as the content needs; only an empty
      file on a full volume takes none. */
  lemma CreateTakes(v: Vol, k: nat, raw: RawName, content: seq<Byte>)
    requires Shaped(v) && k < |Slots(v)| && Stores(v, |content|)
    ensures var w := CreateIn(v, k, raw, content).vol;
      FreeList(w.fat) == if HasRoom(v, |content|) then FreeList(v.fat)[ClustersNeeded(v.spc, |content|)..] else []
  {
    hide FreeList, LinkFrom, ClustersNeeded, Slots, Place, FileEntry, Store;
    var n := ClustersNeeded(v.spc, |content|);
    if HasRoom(v, |content|) {
      FreeAfterLink(v.fat, n);
    } else {
      NeededForNone(v.spc);
      assert Taken(v, |content|) == [];
      LinkNone(v.fat);
    }
  }

  lemma NeededForNone(spc: nat)
    requires spc > 0
    ensures ClustersNeeded(spc, 0) == 1
  {}

  lemma LinkNone(f: Fat)
    requires |f| > 0
    ensures LinkFrom(f, 0, []) == f
  {}

  /** The table after storing and then freeing from the returned cluster. */
  lemma FreeUndoesStore(v: Vol, content: seq<Byte>)
    requires Shaped(v) && Stores(v, |content|)
    ensures var f := StoreChain(v, content).fat;
      Cleared(f, ChainOf(f, StoreResult(v, |content|))) == v.fat
  {
    var cs := Taken(v, |content|);
    if HasRoom(v, |content|) {
      StoredChain(v, content);
      assert forall i :: 0 <= i < |cs| ==> IsFree(v.fat, cs[i]);
      ClearUndoesLink(v.fat, cs);
    } else {
      assert cs == [];
    }
  }

  /** No slot before k holds the given name. */
  predicate NoneBefore(slots: seq<DirEntry>, raw: RawName, k: nat)
    requires k <= |slots|
  {
    forall j :: 0 <= j < k ==> !Matches(slots[j], raw)
  }

  lemma {:induction false} FirstMatchIs(slots: seq<DirEntry>, raw: RawName, i: nat, k: nat)
    requires i <= k < |slots| && Matches(slots[k], raw)
    requires forall j :: i <= j < k ==> !IsEnd(slots[j]) && !Matches(slots[j], raw)
    ensures FirstMatch(slots, raw, i) == k
    decreases k - i
  {
    if i < k {
      FirstMatchIs(slots, raw, i + 1, k);
    }
  }

  lemma CreatedSlot(v: Vol, k: nat, raw: RawName, content: seq<Byte>)
    requires Sound(v) && k < |Slots(v)| && Stores(v, |content|)
    ensures var w := CreateIn(v, k, raw, content).vol;
      Shaped(w) && Slots(w) == Slots(v)[k := FileEntry(raw, StoreResult(v, |content|), |content|)]
      && w.fat == StoreChain(v, content).fat
  {
    KeepsSelf(v, k);
    StoreStep(v, v, k, content);
    PutStep(v, StoreChain(v, content), k, FileEntry(raw, StoreResult(v, |content|), |content|));
  }

  lemma CreateSucceeds(v: Vol, name: Text, content: seq<Byte>)
    requires Shaped(v) && Create(v, name, content).code == 0
    ensures FirstFree(Slots(v), 0) < |Slots(v)| && Stores(v, |content|)
    ensures Create(v, name, content) == CreateIn(v, FirstFree(Slots(v), 0), Encode(name), content)
  {
    hide Slots, FirstFree, Encode, FileEntry, StoreChain, StoreResult, Place;
  }

  lemma FirstMatchPut(slots: seq<DirEntry>, k: nat, e: DirEntry, raw: RawName)
    requires k == FirstFree(slots, 0) < |slots| && NoneBefore(slots, raw, k) && Matches(e, raw)
    ensures FirstMatch(slots[k := e], raw, 0) == k
  {
    FirstMatchIs(slots[k := e], raw, 0, k);
  }

  lemma FileMatches(raw: RawName, c: nat, len: nat)
    requires c < 0x1_0000_0000 && raw[0] != 0 && raw[0] != MARK_FREE
    ensures Matches(FileEntry(raw, c, len), raw)
  {}

  lemma CreatedFirst(v: Vol, k: nat, raw: RawName, content: seq<Byte>)
    requires Sound(v) && k == FirstFree(Slots(v), 0) < |Slots(v)| && Stores(v, |content|)
    requires raw[0] != 0 && raw[0] != MARK_FREE && NoneBefore(Slots(v), raw, k)
    ensures var w := CreateIn(v, k, raw, content).vol; Shaped(w) && FirstMatch(Slots(w), raw, 0) == k
  {
    hide Slots, StoreChain, StoreResult, CreateIn, FileEntry, FirstFree, FirstMatch, NoneBefore, Matches, Stores;
    var e := FileEntry(raw, StoreResult(v, |content|), |content|);
    FileMatches(raw, StoreResult(v, |content|), |content|);
    CreatedSlot(v, k, raw, content);
    FirstMatchPut(Slots(v), k, e, raw);
  }

  lemma CreatedFat(v: Vol, k: nat, raw: RawName, content: seq<Byte>)
    requires Sound(v) && k < |Slots(v)| && Stores(v, |content|)
    ensures var w := CreateIn(v, k, raw, content).vol;
      Shaped(w) && k < |Slots(w)| && DeleteIn(w, k).vol.fat == v.fat
  {
    hide Slots, StoreChain, StoreResult, PutSlot, Cleared, Place, Stores;
    CreatedSlot(v, k, raw, content);
    FreeUndoesStore(v, content);
  }

  /** Deleting a file right after creating it restores every word of the table, reserved bits included. */
  lemma DeleteUndoesCreate(v: Vol, name: Text, content: seq<Byte>)
    requires Sound(v) && Create(v, name, content).code == 0
    requires Encode(name)[0] != 0 && Encode(name)[0] != MARK_FREE
    requires NoneBefore(Slots(v), Encode(name), FirstFree(Slots(v), 0))
    ensures var w := Create(v, name, content).vol;
      Shaped(w) && Delete(w, name).code == 0 && Delete(w, name).vol.fat == v.fat
  {
    CreateSucceeds(v, name, content);
    hide Slots, Encode, CreateIn, DeleteIn, FirstFree, Create, Stores;
    var k, raw := FirstFree(Slots(v), 0), Encode(name);
    CreatedFat(v, k, raw, content);
    CreatedFirst(v, k, raw, content);
  }

  lemma DuplicateName(slots: seq<DirEntry>, k: nat, e: DirEntry)
    requires UniqueNames(slots) && k < |slots| && !Visible(slots[k]) && (Visible(e) <==> e.name[0] != MARK_FREE)
    ensures UniqueNames(slots[k := e]) <==> e.name !in Names(slots)
  {
    var t := slots[k := e];
    if e.name in Names(slots) {
      var j :| 0 <= j < |slots| && Visible(slots[j]) && slots[j].name == e.name;
      assert t[j] == slots[j] && t[k] == e;
    } else {
      NotListed(slots, k, e);
    }
  }

  /** Create never looks for its own name: names stay unique exactly when the name was absent. */
  lemma CreateDuplicates(v: Vol, name: Text, content: seq<Byte>)
    requires Inv(v) && Create(v, name, content).code == 0 && 0 !in name
    ensures Shaped(Create(v, name, content).vol)
    ensures UniqueNames(Slots(Create(v, name, content).vol)) <==> Encode(name) !in Names(Slots(v))
  {
    hide Slots, Encode, UniqueNames, Names, StoreChain, StoreResult, PutSlot, Visible, FirstFree, CreateIn, FileEntry, Sound, Stores;
    SoundShape(v);
    CreateSucceeds(v, name, content);
    var k, raw := FirstFree(Slots(v), 0), Encode(name);
    var e := FileEntry(raw, StoreResult(v, |content|), |content|);
    EncodeNotEnd(name);
    FileIs(raw, StoreResult(v, |content|), |content|);
    FreeNotVisible(Slots(v));
    CreatedSlot(v, k, raw, content);
    DuplicateName(Slots(v), k, e);
  }

  /** A delete keeps the chains sound, whether or not names are unique. */
  lemma DeleteKeepsSound(v: Vol, name: Text)
    requires Sound(v)
    ensures Sound(Delete(v, name).vol)
  {
    hide Slots, Encode, FirstMatch, DeleteIn, Sound;
    SoundShape(v);
    var k := FirstMatch(Slots(v), Encode(name), 0);
    if k < |Slots(v)| {
      DeleteInSound(v, k);
    }
  }

  lemma DeleteInSound(v: Vol, k: nat)
    requires Sound(v) && k < |Slots(v)| && Visible(Slots(v)[k])
    ensures Sound(DeleteIn(v, k).vol)
  {
    hide Sound, Slots, OnlyChain, Apart, EntryOk, EntryChain, NodeOf, FreeChain, PutSlot, Place, Cluster, Deleted, EndClean;
    SoundShape(v);
    var e := Slots(v)[k];
    var u := FreeChain(v, Cluster(e));
    FreeStep(v, k);
    PutStep(v, u, k, Deleted(e));
    var w := PutSlot(u, Place(v, k), k % 16, Deleted(e));
    BareEntry(v, w, k, Deleted(e));
    EndCleanPut(Slots(v), k, Deleted(e));
    SlotChanged(v, w, k, Deleted(e));
  }

  // ----- append -----

  predicate TextMatches(e: DirEntry, name: Text) {
    !IsDirectory(e) && SameText(Format(e.name), name)
  }

  /** The first listed file whose text form matches; |l| if there is none. */
  function FirstText(l: seq<DirEntry>, name: Text): (i: nat)
    ensures i <= |l|
  {
    if l == [] || TextMatches(l[0], name) then 0 else 1 + FirstText(l[1..], name)
  }

  ghost function Append(v: Vol, name: Text, content: seq<Byte>): Outcome
    requires Shaped(v)
  {
    var l := Listing(Slots(v), 0);
    var i := FirstText(l, name);
    if i == |l| then Create(v, name, Take(content, 4095))
    else Create(Delete(v, name).vol, name, Take(Take(NodeOf(v, l[i]).data, 4000) + content, 4095))
  }

  /** Every live name is one that some well-formed text encodes to. */
  predicate CanonicalNames(slots: seq<DirEntry>) {
    forall k :: 0 <= k < |slots| && Visible(slots[k]) ==> Canonical(slots[k].name)
  }

  /** On live entries, the text comparison with `name` says what the raw comparison with `raw` says. */
  predicate Agrees(slots: seq<DirEntry>, name: Text, raw: RawName) {
    forall k :: 0 <= k < |slots| && Visible(slots[k]) ==> (TextMatches(slots[k], name) <==> !IsDirectory(slots[k]) && slots[k].name == raw)
  }

  lemma {:induction false} LookupFrom(slots: seq<DirEntry>, name: Text, raw: RawName, k: nat)
    requires EndClean(slots) && UniqueNames(slots) && Agrees(slots, name, raw) && k <= |slots|
    ensures var l := Listing(slots, k);
      var i, r := FirstText(l, name), FirstMatch(slots, raw, k);
      if r < |slots| && !IsDirectory(slots[r]) then i < |l| && l[i] == slots[r] else i == |l|
    decreases |slots| - k
  {
    hide TextMatches, IsDirectory, Visible, IsEnd, UniqueNames, EndClean, Listing, FirstText, FirstMatch;
    LookupStep(slots, raw, k);
    if k < |slots| && !IsEnd(slots[k]) {
      LookupFrom(slots, name, raw, k + 1);
      var e, rest := slots[k], Listing(slots, k + 1);
      if Visible(e) {
        TextStep(e, rest, name);
        if e.name == raw {
          LaterUnmatched(slots, k);
        }
      }
    } else {
      TextNone(name);
    }
  }

  lemma LookupStep(slots: seq<DirEntry>, raw: RawName, k: nat)
    requires k <= |slots|
    ensures k == |slots| || IsEnd(slots[k]) ==> Listing(slots, k) == [] && FirstMatch(slots, raw, k) == |slots|
    ensures k < |slots| && !IsEnd(slots[k]) && Visible(slots[k]) ==>
              && Listing(slots, k) == [slots[k]] + Listing(slots, k + 1)
              && FirstMatch(slots, raw, k) == if slots[k].name == raw then k else FirstMatch(slots, raw, k + 1)
    ensures k < |slots| && !IsEnd(slots[k]) && !Visible(slots[k]) ==>
              Listing(slots, k) == Listing(slots, k + 1) && FirstMatch(slots, raw, k) == FirstMatch(slots, raw, k + 1)
  {
    hide Visible, IsEnd;
  }

  lemma TextStep(e: DirEntry, rest: seq<DirEntry>, name: Text)
    ensures FirstText([e] + rest, name) == if TextMatches(e, name) then 0 else 1 + FirstText(rest, name)
  {
    hide TextMatches;
    assert ([e] + rest)[1..] == rest;
  }

  lemma TextNone(name: Text)
    ensures FirstText([], name) == 0
  {}

  /** For a well-formed name the text lookup over the listing and the raw lookup over the slots choose the same entry, if
      it is a file; directories, and names that do not survive the 8.3 form, the text lookup never finds. */
  lemma TextLookup(slots: seq<DirEntry>, name: Text)
    requires EndClean(slots) && UniqueNames(slots) && CanonicalNames(slots) && 0 !in name
    ensures var l := Listing(slots, 0);
      var i, r := FirstText(l, name), FirstMatch(slots, Encode(name), 0);
      if WellFormed(name) && r < |slots| && !IsDirectory(slots[r]) then i < |l| && l[i] == slots[r] else i == |l|
  {
    hide WellFormed, Encode, UniqueNames, EndClean, Listing, FirstText, FirstMatch, SameText, Format, Canonical;
    forall k | 0 <= k < |slots| && Visible(slots[k])
      ensures TextMatches(slots[k], name) <==> !IsDirectory(slots[k]) && slots[k].name == Encode(name) && WellFormed(name)
    {
      LookupsAgree(slots[k].name, name);
    }
    if WellFormed(name) {
      LookupFrom(slots, name, Encode(name), 0);
    } else {
      NoText(slots, name, 0);
    }
  }

  lemma {:induction false} NoText(slots: seq<DirEntry>, name: Text, k: nat)
    requires k <= |slots| && forall j :: 0 <= j < |slots| && Visible(slots[j]) ==> !TextMatches(slots[j], name)
    ensures FirstText(Listing(slots, k), name) == |Listing(slots, k)|
    decreases |slots| - k
  {
    hide TextMatches, Visible, IsEnd, Listing, FirstText, FirstMatch;
    LookupStep(slots, Encode(name), k);
    if k < |slots| && !IsEnd(slots[k]) {
      NoText(slots, name, k + 1);
      TextStep(slots[k], Listing(slots, k + 1), name);
    } else {
      TextNone(name);
    }
  }

  /** Where the raw lookup finds a file, the text lookup finds the same exactly when the name is well formed. */
  lemma TextLookupIff(slots: seq<DirEntry>, name: Text)
    requires EndClean(slots) && UniqueNames(slots) && CanonicalNames(slots) && 0 !in name
    requires var r := FirstMatch(slots, Encode(name), 0); r < |slots| && !IsDirectory(slots[r])
    ensures var l, r := Listing(slots, 0), FirstMatch(slots, Encode(name), 0);
      var i := FirstText(l, name);
      (i < |l| && l[i] == slots[r]) <==> WellFormed(name)
  {
    hide WellFormed, Encode, UniqueNames, EndClean, Listing, FirstText, FirstMatch, CanonicalNames;
    TextLookup(slots, name);
  }

  lemma LaterUnmatched(slots: seq<DirEntry>, k: nat)
    requires UniqueNames(slots) && k < |slots| && Visible(slots[k])
    ensures FirstMatch(slots, slots[k].name, k + 1) == |slots|
  {}

  ghost predicate Named(v: Vol) {
    Inv(v) && CanonicalNames(Slots(v))
  }

  /** What an append leaves of the old data: its first 4000 bytes. */
  ghost function OldData(v: Vol, raw: RawName): seq<Byte>
    requires Inv(v)
  {
    if raw in Files(v) then Take(Files(v)[raw].data, 4000) else []
  }

  lemma AppendIs(v: Vol, name: Text, content: seq<Byte>)
    requires Named(v) && Storable(name)
    requires Encode(name) in Names(Slots(v)) ==> !IsDirectory(LiveEntry(v, Encode(name)))
    ensures Append(v, name, content)
         == Create(Delete(v, name).vol, name, Take(OldData(v, Encode(name)) + content, 4095))
  {
    hide Slots, Encode, UniqueNames, CanonicalNames, Sound, Listing, FirstText, FirstMatch, Files, NodeOf, Create, WellFormed, Take, IsDirectory, Names;
    var raw := Encode(name);
    SoundShape(v);
    StringUpper(name, name);
    TextLookup(Slots(v), name);
    NameListed(v, raw);
    LiveNode(v, raw);
    if raw in Files(v) {
      FoundSlot(v, raw);
      LiveIsFound(v, raw);
      var l := Listing(Slots(v), 0);
      var i := FirstText(l, name);
      assert i < |l|;
      assert l[i] == LiveEntry(v, raw);
      assert NodeOf(v, l[i]) == Files(v)[raw];
    } else {
      NothingDeleted(v, name);
      assert [] + content == content;
    }
  }

  /** An append under a name that is not well formed, or under the name of a directory, finds no file: it is a create, and
      so adds a second entry where there is one. */
  lemma AppendMisses(v: Vol, name: Text, content: seq<Byte>)
    requires Named(v) && 0 !in name
    requires !WellFormed(name) || (Encode(name) in Names(Slots(v)) && IsDirectory(LiveEntry(v, Encode(name))))
    ensures Append(v, name, content) == Create(v, name, Take(content, 4095))
  {
    hide Slots, Encode, UniqueNames, CanonicalNames, Sound, Listing, FirstText, FirstMatch, NodeOf, Create, WellFormed, Take, IsDirectory, Names;
    SoundShape(v);
    TextLookup(Slots(v), name);
    if Encode(name) in Names(Slots(v)) {
      LiveIsFound(v, Encode(name));
    }
  }

  lemma LiveIsFound(v: Vol, raw: RawName)
    requires Inv(v) && raw in Names(Slots(v))
    ensures FirstMatch(Slots(v), raw, 0) < |Slots(v)| && LiveEntry(v, raw) == Slots(v)[FirstMatch(Slots(v), raw, 0)]
  {
    hide Slots, FirstMatch, UniqueNames, Names, Sound;
    SoundShape(v);
    var k := Found(Slots(v), raw);
    assert LiveEntry(v, raw) == Slots(v)[k];
  }

  lemma NothingDeleted(v: Vol, name: Text)
    requires Inv(v) && Encode(name) !in Files(v)
    ensures Delete(v, name).vol == v
  {
    hide Slots, FirstMatch, Files, UniqueNames, Encode, DeleteIn;
    NameListed(v, Encode(name));
  }

  lemma FilesKeys(v: Vol)
    requires Sound(v)
    ensures Files(v).Keys == Names(Slots(v))
  {}

  lemma CanonicalPut(slots: seq<DirEntry>, k: nat, e: DirEntry)
    requires CanonicalNames(slots) && k < |slots| && (Visible(e) ==> Canonical(e.name))
    ensures CanonicalNames(slots[k := e])
  {}

  lemma DeleteKeepsNames(v: Vol, name: Text)
    requires Named(v)
    ensures Named(Delete(v, name).vol) && Encode(name) !in Names(Slots(Delete(v, name).vol))
  {
    hide Slots, Encode, UniqueNames, Files, FirstMatch, CanonicalNames, Names, Sound, DeleteIn, Deleted;
    DeleteEffect(v, name);
    FilesKeys(Delete(v, name).vol);
    var k := FirstMatch(Slots(v), Encode(name), 0);
    if k < |Slots(v)| {
      DeleteInEffect(v, k);
      CanonicalPut(Slots(v), k, Deleted(Slots(v)[k]));
    }
  }

  lemma ClipShort(s: seq<Byte>)
    ensures Clip(Take(s, 4095)) == Take(s, 4095)
  {}

  lemma DropThenAdd(m: map<RawName, Node>, raw: RawName, node: Node)
    ensures (m - {raw})[raw := node] == m[raw := node]
    ensures raw !in m ==> m - {raw} == m
  {}

  /** Whether an append of a total of `len` bytes succeeds, seen before the call: an existing file gives back its slot and
      its clusters first; a new one needs a slot and the clusters. */
  ghost predicate AppendFits(v: Vol, raw: RawName, len: nat)
    requires Inv(v)
  {
    if raw in Names(Slots(v)) then Fits(v, LiveEntry(v, raw), len)
    else FirstFree(Slots(v), 0) < |Slots(v)| && Stores(v, len)
  }

  lemma FreedSlot(slots: seq<DirEntry>, k: nat, e: DirEntry)
    requires k < |slots| && IsFreeSlot(e)
    ensures FirstFree(slots[k := e], 0) < |slots|
  {
    assert IsFreeSlot(slots[k := e][k]);
  }

  lemma RoomByTable(v: Vol, w: Vol, len: nat)
    requires Shaped(v) && Shaped(w) && v.fat == w.fat && v.spc == w.spc
    ensures HasRoom(v, len) <==> HasRoom(w, len)
  {
    hide ClustersNeeded, FreeList;
  }

  lemma RoomAfterDelete(v: Vol, k: nat, len: nat)
    requires Inv(v) && k < |Slots(v)| && Visible(Slots(v)[k])
    ensures var u := DeleteIn(v, k).vol;
      && Shaped(u) && FirstFree(Slots(u), 0) < |Slots(u)|
      && (Stores(u, len) <==> Fits(v, Slots(v)[k], len))
  {
    hide Slots, Files, UniqueNames, PutSlot, Place, EntryChain, ClustersNeeded, FreeList, Cluster, FirstFree, EntryOk, Visible, HasRoom;
    var e := SlotOf(v, k);
    DeleteInEffect(v, k);
    FreedSlot(Slots(v), k, Deleted(e));
    EntryIsOk(v, k);
    RoomAfterFree(v, e, len);
    RoomByTable(FreeChain(v, Cluster(e)), DeleteIn(v, k).vol, len);
  }

  lemma EntryIsOk(v: Vol, k: nat)
    requires Sound(v) && k < |Slots(v)|
    ensures EntryOk(v.fat, Slots(v)[k])
  {}

  lemma FitsAfterDelete(v: Vol, name: Text, len: nat)
    requires Inv(v)
    ensures var u := Delete(v, name).vol;
      AppendFits(v, Encode(name), len) <==> FirstFree(Slots(u), 0) < |Slots(u)| && Stores(u, len)
  {
    hide Slots, Files, UniqueNames, Encode, Fits, FirstFree, Stores, Sound, DeleteIn, Names;
    SoundShape(v);
    NameListed(v, Encode(name));
    LiveNode(v, Encode(name));
    var k := FirstMatch(Slots(v), Encode(name), 0);
    if k < |Slots(v)| {
      RoomAfterDelete(v, k, len);
    }
  }

  /** Append keeps the first 4000 old bytes and cuts the result at 4095. It succeeds exactly when that fits, counting what
      the old file gives back; a failed append has lost the file. */
  lemma AppendEffect(v: Vol, name: Text, content: seq<Byte>)
    requires Named(v) && Storable(name)
    requires Encode(name) in Names(Slots(v)) ==> !IsDirectory(LiveEntry(v, Encode(name)))
    ensures var r, raw := Append(v, name, content), Encode(name);
      var data := Take(OldData(v, raw) + content, 4095);
      && Named(r.vol) && (r.code == 0 || r.code == -1)
      && (r.code == 0 <==> AppendFits(v, raw, |data|))
      && Files(r.vol) == if r.code == 0 then Files(v)[raw := Node(ATTR_ARCHIVE, data)] else Files(v) - {raw}
  {
    var raw := Encode(name);
    var data := Take(OldData(v, raw) + content, 4095);
    AppendIs(v, name, content);
    hide Slots, Encode, Append, OldData, Create, Delete, Stores, FirstFree, UniqueNames, Sound, Names, CanonicalNames, Files, WellFormed, Take, Clip, AppendFits;
    DeleteKeepsNames(v, name);
    DeleteEffect(v, name);
    FitsAfterDelete(v, name, |data|);
    var u := Delete(v, name).vol;
    CreateEffect(u, name, data);
    CreateKeepsNames(u, name, data);
    ClipShort(OldData(v, raw) + content);
    DropThenAdd(Files(v), raw, Node(ATTR_ARCHIVE, data));
  }

  ghost function DataBefore(v: Vol, raw: RawName): seq<Byte>
    requires Inv(v)
  {
    if raw in Files(v) then Files(v)[raw].data else []
  }

  /** A successful append leaves the old data followed by the new exactly when the old data fits 4000 bytes and the whole
      4095; otherwise bytes are cut. */
  lemma AppendWhole(v: Vol, name: Text, content: seq<Byte>)
    requires Named(v) && Storable(name) && Append(v, name, content).code == 0
    requires Encode(name) in Names(Slots(v)) ==> !IsDirectory(LiveEntry(v, Encode(name)))
    ensures var w, raw, before := Append(v, name, content).vol, Encode(name), DataBefore(v, Encode(name));
      && Inv(w) && raw in Files(w)
      && (Files(w)[raw].data == before + content <==> |before| <= 4000 && |before| + |content| <= 4095)
  {
    hide Slots, Encode, Append, UniqueNames, Sound, Names, CanonicalNames, Files, WellFormed, Take, AppendFits;
    AppendEffect(v, name, content);
    CutOrWhole(DataBefore(v, Encode(name)), content);
    CutOrWhole([], content);
    assert [] + content == content;
  }

  lemma CutOrWhole(before: seq<Byte>, content: seq<Byte>)
    ensures Take(Take(before, 4000) + content, 4095) == before + content <==> |before| <= 4000 && |before| + |content| <= 4095
    ensures before == [] ==> Take(before, 4000) == before
  {}

  // ----- writing into a file -----

  /** A write of `data` at `offset` through the handle of the listed file with that name; the result is the number of bytes
      written, 0 when there is no such file. */
  ghost function Overwrite(v: Vol, name: Text, offset: nat, data: seq<Byte>): Outcome
    requires Shaped(v)
  {
    var l := Listing(Slots(v), 0);
    var i := FirstText(l, name);
    if i == |l| then Outcome(v, 0) else
      var n := Writable(v, Cluster(l[i]), l[i].fileSize, offset, |data|);
      Outcome(Patched(v, Cluster(l[i]), offset, data[..Min(n, |data|)]), n)
  }

  lemma OverwriteIs(v: Vol, name: Text, offset: nat, data: seq<Byte>)
    requires Named(v) && Storable(name)
    ensures var k := FirstMatch(Slots(v), Encode(name), 0);
      if k < |Slots(v)| && !IsDirectory(Slots(v)[k]) then
        var e := Slots(v)[k];
        var n := Writable(v, Cluster(e), e.fileSize, offset, |data|);
        n <= |data| && Overwrite(v, name, offset, data) == Outcome(Patched(v, Cluster(e), offset, data[..n]), n)
      else Overwrite(v, name, offset, data) == Outcome(v, 0)
  {
    hide Listing, FirstText, Patched, Writable, Encode, FirstMatch, Cluster, IsDirectory, UniqueNames;
    NamedShape(v);
    StringUpper(name, name);
    TextLookup(Slots(v), name);
    var l := Listing(Slots(v), 0);
    var i := FirstText(l, name);
    if i < |l| {
      WritableFits(v, Cluster(l[i]), l[i].fileSize, offset, |data|);
    }
  }

  /** The bytes a write at `offset` can reach. */
  function Reach(d: seq<Byte>, offset: nat, len: nat): (n: nat)
    ensures n <= len
  {
    if offset >= |d| then 0 else Min(len, |d| - offset)
  }

  lemma OverwriteInEffect(v: Vol, k: nat, offset: nat, data: seq<Byte>)
    requires Inv(v) && k < |Slots(v)| && Visible(Slots(v)[k])
    ensures var e := Slots(v)[k];
      var d := NodeOf(v, e).data;
      var n := Writable(v, Cluster(e), e.fileSize, offset, |data|);
      && n == Reach(d, offset, |data|)
      && var w := Patched(v, Cluster(e), offset, data[..n]);
      && Inv(w) && Slots(w) == Slots(v) && Files(w) == Files(v)[e.name := Node(e.attributes, Overlay(d, offset, data[..n]))]
  {
    hide Slots, Files, Patched, Overlay, ChainBytes, Cluster, Sound, UniqueNames, ChainOf;
    var e := SlotOf(v, k);
    DataOf(v, e);
    WritableFits(v, Cluster(e), e.fileSize, offset, |data|);
    var n := Writable(v, Cluster(e), e.fileSize, offset, |data|);
    PatchedIsWritten(v, Cluster(e), offset, data, n);
    var w := Patched(v, Cluster(e), offset, data[..n]);
    FileWriteEffect(v, w, k, offset, data, n);
    OverlayTake(ChainBytes(v, Cluster(e)), e.fileSize, offset, data[..n]);
  }

  lemma DataOf(v: Vol, e: DirEntry)
    requires Shaped(v) && Visible(e)
    ensures NodeOf(v, e).data == FileData(v, Cluster(e), e.fileSize)
  {
    hide Contents, ChainOf, Cluster;
  }

  /** A write into a file replaces the bytes in reach and nothing else, of it or of any other file. */
  lemma OverwriteEffect(v: Vol, name: Text, offset: nat, data: seq<Byte>)
    requires Named(v) && Storable(name)
    ensures var r, raw := Overwrite(v, name, offset, data), Encode(name);
      && Named(r.vol)
      && (if raw in Files(v) && Files(v)[raw].attributes / 16 % 2 == 0 then
            var d := Files(v)[raw].data;
            && r.code == Reach(d, offset, |data|)
            && Files(r.vol) == Files(v)[raw := Node(Files(v)[raw].attributes, Overlay(d, offset, data[..r.code]))]
          else r == Outcome(v, 0))
  {
    hide Slots, Files, Patched, Overlay, ChainBytes, Cluster, Sound, UniqueNames, Encode, Overwrite, Writable, Reach, CanonicalNames, NodeOf, FirstMatch, WellFormed;
    NamedShape(v);
    var raw := Encode(name);
    NameListed(v, raw);
    LiveNode(v, raw);
    OverwriteIs(v, name, offset, data);
    var k := FirstMatch(Slots(v), raw, 0);
    if k < |Slots(v)| {
      FoundSlot(v, raw);
      NodeAttributes(v, Slots(v)[k]);
      OverwriteInEffect(v, k, offset, data);
    }
  }

  lemma FoundSlot(v: Vol, raw: RawName)
    requires Inv(v) && FirstMatch(Slots(v), raw, 0) < |Slots(v)|
    ensures var k := FirstMatch(Slots(v), raw, 0);
      && Visible(Slots(v)[k]) && Slots(v)[k].name == raw && raw in Files(v) && Files(v)[raw] == NodeOf(v, Slots(v)[k])
  {
    hide Slots, NodeOf;
    NameListed(v, raw);
  }

  lemma CreateKeepsNames(v: Vol, name: Text, content: seq<Byte>)
    requires Named(v) && Storable(name) && Encode(name) !in Names(Slots(v))
    ensures Named(Create(v, name, content).vol)
  {
    var k, raw := FirstFree(Slots(v), 0), Encode(name);
    EncodeIsCanonical(name);
    hide Slots, Encode, UniqueNames, Names, StoreChain, PutSlot, FirstFree, CanonicalNames, StoreResult, Canonical, Files, Place, WellFormed;
    CreateEffect(v, name, content);
    if k < |Slots(v)| {
      if Stores(v, |content|) {
        CreatedSlot(v, k, raw, content);
        CanonicalPut(Slots(v), k, FileEntry(raw, StoreResult(v, |content|), |content|));
      } else {
        StoreFailed(v, k, content);
      }
    }
  }

  // ----- runs -----

  datatype Op =
    | CreateOp(name: Text, content: seq<Byte>)
    | WriteOp(name: Text, content: seq<Byte>)
    | AppendOp(name: Text, content: seq<Byte>)
    | DeleteOp(name: Text)
    | MkdirOp(name: Text)
    | OverwriteOp(name: Text, offset: nat, data: seq<Byte>)

  ghost function Do(v: Vol, op: Op): Outcome
    requires Shaped(v)
  {
    match op
    case CreateOp(name, content) => Create(v, name, content)
    case WriteOp(name, content) => Write(v, name, content)
    case AppendOp(name, content) => Append(v, name, content)
    case DeleteOp(name) => Delete(v, name)
    case MkdirOp(name) => Mkdir(v, name)
    case OverwriteOp(name, offset, data) => Overwrite(v, name, offset, data)
  }

  /** What a caller must see to: a storable name, absent for a create or mkdir, not a directory for an append. */
  predicate Allowed(m: map<RawName, Node>, op: Op) {
    && Storable(op.name)
    && (op.CreateOp? || op.MkdirOp? ==> Encode(op.name) !in m)
    && (op.AppendOp? && Encode(op.name) in m ==> m[Encode(op.name)].attributes / 16 % 2 == 0)
  }

  /** The abstract file system: how a call with the given return value may change the map. A create, append or mkdir may
      fail for lack of space; what it may do then is part of the step. */
  predicate Step(m: map<RawName, Node>, op: Op, code: int, n: map<RawName, Node>) {
    var raw := Encode(op.name);
    match op
    case CreateOp(_, content) => n == if code == 0 then m[raw := Node(ATTR_ARCHIVE, Clip(content))] else m
    case MkdirOp(_) => n == if code == 0 then m[raw := Node(ATTR_DIRECTORY, [])] else m
    case DeleteOp(_) => (code == 0 <==> raw in m) && n == m - {raw}
    case OverwriteOp(_, offset, data) =>
      if raw in m && m[raw].attributes / 16 % 2 == 0 then
        && code == Reach(m[raw].data, offset, |data|)
        && n == m[raw := Node(m[raw].attributes, Overlay(m[raw].data, offset, data[..code]))]
      else code == 0 && n == m
    case AppendOp(_, content) =>
      var before := if raw in m then Take(m[raw].data, 4000) else [];
      n == if code == 0 then m[raw := Node(ATTR_ARCHIVE, Take(before + content, 4095))] else m - {raw}
    case WriteOp(_, content) =>
      if code == 0 then n == m[raw := Node(if raw in m then m[raw].attributes else ATTR_ARCHIVE, Clip(content))]
      else n - {raw} == m - {raw} && (raw in n <==> raw in m)
  }

  lemma LiveNode(v: Vol, raw: RawName)
    requires Inv(v)
    ensures raw in Files(v) <==> raw in Names(Slots(v))
    ensures raw in Files(v) ==> Files(v)[raw] == NodeOf(v, LiveEntry(v, raw))
  {}

  lemma AddThenDrop(m: map<RawName, Node>, raw: RawName, node: Node)
    ensures m[raw := node] - {raw} == m - {raw}
  {}

  lemma OverwriteStep(v: Vol, name: Text, content: seq<Byte>)
    requires Named(v) && Encode(name) in Names(Slots(v))
    ensures var r := Write(v, name, content);
      Named(r.vol) && Step(Files(v), WriteOp(name, content), r.code, Files(r.vol))
  {
    hide Slots, Encode, UniqueNames, Names, Files, CanonicalNames, Write, Fits, Clip, NodeOf, SameNames, LiveEntry;
    var raw := Encode(name);
    LiveNode(v, raw);
    WriteEffect(v, name, content);
    var w := Write(v, name, content).vol;
    CanonicalSame(Slots(v), Slots(w));
    NodeAttributes(v, LiveEntry(v, raw));
    AddThenDrop(Files(v), raw, NodeOf(w, LiveEntry(v, raw)));
  }

  lemma WriteStep(v: Vol, name: Text, content: seq<Byte>)
    requires Named(v) && Storable(name)
    ensures var r := Write(v, name, content);
      Named(r.vol) && Step(Files(v), WriteOp(name, content), r.code, Files(r.vol))
  {
    hide Slots, Encode, UniqueNames, Names, Files, CanonicalNames, Write, Create, WellFormed, Clip, Stores, FirstFree;
    var raw := Encode(name);
    if raw in Names(Slots(v)) {
      OverwriteStep(v, name, content);
    } else {
      LiveNode(v, raw);
      WriteIsCreate(v, name, content);
      StringUpper(name, name);
      CreateEffect(v, name, content);
      CreateKeepsNames(v, name, content);
    }
  }

  lemma NodeAttributes(v: Vol, e: DirEntry)
    requires Shaped(v)
    ensures NodeOf(v, e).attributes == e.attributes
  {}

  lemma CanonicalSame(s: seq<DirEntry>, t: seq<DirEntry>)
    requires CanonicalNames(s) && SameNames(s, t)
    ensures CanonicalNames(t)
  {
    hide Canonical;
  }

  lemma WriteIsCreate(v: Vol, name: Text, content: seq<Byte>)
    requires Inv(v) && Encode(name) !in Names(Slots(v))
    ensures Write(v, name, content) == Create(v, name, content)
  {
    hide Slots, Encode, Create;
    NameListed(v, Encode(name));
  }

  lemma NamedShape(v: Vol)
    requires Named(v)
    ensures Shaped(v)
  {
    hide Slots, UniqueNames, CanonicalNames;
  }

  lemma MkdirKeepsNames(v: Vol, name: Text)
    requires Named(v) && Storable(name) && Encode(name) !in Names(Slots(v))
    ensures Named(Mkdir(v, name).vol)
  {
    hide Slots, Encode, UniqueNames, Names, PutSlot, FirstFree, CanonicalNames, Canonical, Files, Place, WellFormed, Sound;
    EncodeIsCanonical(name);
    NamedShape(v);
    var k, e := FirstFree(Slots(v), 0), FolderEntry(Encode(name));
    if k < |Slots(v)| {
      NotListed(Slots(v), k, e);
      BarePut(v, k, e);
      CanonicalPut(Slots(v), k, e);
    }
  }

  /** Every allowed call keeps the invariant and moves the map by one abstract step. */
  lemma StepHolds(v: Vol, op: Op)
    requires Named(v) && Allowed(Files(v), op)
    ensures Named(Do(v, op).vol) && Step(Files(v), op, Do(v, op).code, Files(Do(v, op).vol))
  {
    LiveNode(v, Encode(op.name));
    hide Slots, Encode, UniqueNames, Names, FirstMatch, Files, Sound, CanonicalNames, WellFormed, Clip, NodeOf;
    hide Write, Create, Append, Delete, Mkdir, Overwrite, FirstFree, Stores, IsDirectory, Overlay, Reach;
    match op
    case CreateOp(name, content) =>
      CreateEffect(v, name, content);
      CreateKeepsNames(v, name, content);
    case WriteOp(name, content) =>
      WriteStep(v, name, content);
    case AppendOp(name, content) =>
      AppendAllowed(v, name);
      AppendEffect(v, name, content);
    case DeleteOp(name) =>
      DeleteEffect(v, name);
      DeleteKeepsNames(v, name);
      DropThenAdd(Files(v), Encode(name), Node(0, []));
    case MkdirOp(name) =>
      MkdirEffect(v, name);
      MkdirKeepsNames(v, name);
    case OverwriteOp(name, offset, data) =>
      OverwriteEffect(v, name, offset, data);
  }

  lemma AppendAllowed(v: Vol, name: Text)
    requires Inv(v) && (Encode(name) in Files(v) ==> Files(v)[Encode(name)].attributes / 16 % 2 == 0)
    ensures Encode(name) in Names(Slots(v)) ==> !IsDirectory(LiveEntry(v, Encode(name)))
  {
    hide Slots, Files, Encode, NodeOf, Sound, UniqueNames, Names;
    SoundShape(v);
    LiveNode(v, Encode(name));
    if Encode(name) in Names(Slots(v)) {
      NodeAttributes(v, LiveEntry(v, Encode(name)));
    }
  }

  /** One allowed call takes v to w. */
  ghost predicate Call(v: Vol, op: Op, w: Vol) {
    Shaped(v) && EndClean(Slots(v)) && Allowed(Files(v), op) && w == Do(v, op).vol
  }

  ghost predicate CallAt(vs: seq<Vol>, ops: seq<Op>, i: nat)
    requires |vs| == |ops| + 1 && i < |ops|
  {
    Call(vs[i], ops[i], vs[i + 1])
  }

  /** vs are the states of a run of allowed calls. */
  ghost predicate IsRun(vs: seq<Vol>, ops: seq<Op>) {
    |vs| == |ops| + 1 && forall i :: 0 <= i < |ops| ==> CallAt(vs, ops, i)
  }

  /** Call number i made an abstract step, with the return value it gave. */
  ghost predicate RefinesAt(vs: seq<Vol>, ops: seq<Op>, i: nat)
    requires |vs| == |ops| + 1 && i < |ops| && Named(vs[i]) && Named(vs[i + 1])
  {
    Step(Files(vs[i]), ops[i], Do(vs[i], ops[i]).code, Files(vs[i + 1]))
  }

  lemma CallHolds(v: Vol, op: Op, w: Vol)
    requires Named(v) && Call(v, op, w)
    ensures Named(w) && Step(Files(v), op, Do(v, op).code, Files(w))
  {
    hide Named, Allowed, Files, Do, Step;
    StepHolds(v, op);
  }

  lemma {:induction false} RunKeepsNamed(vs: seq<Vol>, ops: seq<Op>, i: nat)
    requires IsRun(vs, ops) && Named(vs[0]) && i < |vs|
    ensures Named(vs[i])
  {
    hide Named, Call, Files, Do, Step;
    if i > 0 {
      RunKeepsNamed(vs, ops, i - 1);
      assert CallAt(vs, ops, i - 1);
      CallHolds(vs[i - 1], ops[i - 1], vs[i]);
    }
  }

  /** Every run of allowed calls, whatever they return, stays within the invariant and refines the abstract map. */
  lemma RunsRefine(vs: seq<Vol>, ops: seq<Op>)
    requires IsRun(vs, ops) && Named(vs[0])
    ensures forall i :: 0 <= i < |vs| ==> Named(vs[i])
    ensures forall i :: 0 <= i < |ops| ==> RefinesAt(vs, ops, i)
  {
    hide Named, Call, Files, Do, Step;
    forall i | 0 <= i < |vs| ensures Named(vs[i]) {
      RunKeepsNamed(vs, ops, i);
    }
    forall i | 0 <= i < |ops| ensures RefinesAt(vs, ops, i) {
      assert CallAt(vs, ops, i);
      CallHolds(vs[i], ops[i], vs[i + 1]);
    }
  }

  /** The calls are allowed one after the other, each in the state that the earlier ones leave. */
  ghost predicate AllowedRun(v: Vol, ops: seq<Op>)
    decreases |ops|
  {
    Named(v) && (ops == [] || (Allowed(Files(v), ops[0]) && AllowedRun(Do(v, ops[0]).vol, ops[1..])))
  }

  /** The abstract file system goes from m to n by the calls, given what they return. */
  ghost predicate Follows(m: map<RawName, Node>, ops: seq<Op>, codes: seq<int>, n: map<RawName, Node>)
    decreases |ops|
  {
    if ops == [] then codes == [] && n == m
    else codes != [] && exists m' :: Step(m, ops[0], codes[0], m') && Follows(m', ops[1..], codes[1..], n)
  }

  lemma FollowsMore(m: map<RawName, Node>, op: Op, code: int, m': map<RawName, Node>, ops: seq<Op>, codes: seq<int>, n: map<RawName, Node>)
    requires ops != [] && ops[0] == op && Step(m, op, code, m') && Follows(m', ops[1..], codes, n)
    ensures Follows(m, ops, [code] + codes, n)
  {
    hide Step;
    assert ([code] + codes)[1..] == codes;
  }
}
