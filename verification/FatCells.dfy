/** Runs of any calls, whatever the names. The map of names may be ambiguous then, so the abstract file system is the row of
    directory cells: every call finds its cell by the rules of the directory scan and changes that cell only. */
module FatCells {
  import opened Bytes
  import opened FatTable
  import opened FatNames
  import opened FatDirectory
  import opened FatVolume
  import opened FatSteps
  import opened FatOps
  import opened FatFiles
  import opened FatRuns
  import opened FatAnyRuns

  /** A directory slot with what it stands for: the end, a free slot, a label or part of a long name, a file or directory. */
  datatype Cell = End | Free | Other | Live(name: RawName, node: Node)

  ghost function CellOf(v: Vol, e: DirEntry): Cell
    requires Shaped(v)
  {
    if IsEnd(e) then End else if IsFreeSlot(e) then Free else if !Visible(e) then Other else Live(e.name, NodeOf(v, e))
  }

  ghost function Cells(v: Vol): (r: seq<Cell>)
    requires Shaped(v)
    ensures |r| == |Slots(v)|
  {
    seq(|Slots(v)|, k requires 0 <= k < |Slots(v)| => CellOf(v, Slots(v)[k]))
  }

  // ----- the searches, on cells -----

  /** The first free or END cell from k on. */
  function FreeCell(m: seq<Cell>, k: nat): (r: nat)
    requires k <= |m|
    ensures k <= r <= |m|
    decreases |m| - k
  {
    if k == |m| || m[k].End? || m[k].Free? then k else FreeCell(m, k + 1)
  }

  /** The first live cell of that raw name from k on, before the end. */
  function NameCell(m: seq<Cell>, raw: RawName, k: nat): (r: nat)
    requires k <= |m|
    ensures k <= r <= |m| && (r < |m| ==> m[r].Live? && m[r].name == raw)
    decreases |m| - k
  {
    if k == |m| || m[k].End? then |m| else if m[k].Live? && m[k].name == raw then k else NameCell(m, raw, k + 1)
  }

  predicate IsFileNamed(c: Cell, name: Text) {
    c.Live? && c.node.attributes / 16 % 2 == 0 && SameText(Format(c.name), name)
  }

  /** The first live cell, from k on and before the end, that is a file whose text form is that name up to case. */
  function TextCell(m: seq<Cell>, name: Text, k: nat): (r: nat)
    requires k <= |m|
    ensures k <= r <= |m| && (r < |m| ==> IsFileNamed(m[r], name))
    decreases |m| - k
  {
    if k == |m| || m[k].End? then |m| else if IsFileNamed(m[k], name) then k else TextCell(m, name, k + 1)
  }

  lemma CellKind(v: Vol, k: nat, name: Text)
    requires Shaped(v) && k < |Slots(v)|
    ensures var c, e := Cells(v)[k], Slots(v)[k];
      && (c.End? <==> IsEnd(e)) && (c.Free? <==> IsFreeSlot(e)) && (c.Live? <==> Visible(e))
      && (c.Live? ==> c == Live(e.name, NodeOf(v, e)) && c.node.attributes == e.attributes)
      && (IsFileNamed(c, name) <==> Visible(e) && TextMatches(e, name))
  {
    hide Slots;
    NodeAttributes(v, Slots(v)[k]);
  }

  lemma {:induction false} SearchesAgree(v: Vol, name: Text, raw: RawName, k: nat)
    requires Shaped(v) && k <= |Slots(v)|
    ensures FreeCell(Cells(v), k) == FirstFree(Slots(v), k)
    ensures NameCell(Cells(v), raw, k) == FirstMatch(Slots(v), raw, k)
    ensures TextCell(Cells(v), name, k) == TextSlot(Slots(v), name, k)
    decreases |Slots(v)| - k
  {
    hide Cells, Slots, IsFileNamed, TextMatches, Visible, IsEnd, IsFreeSlot, CellOf, NodeOf;
    if k < |Slots(v)| {
      CellKind(v, k, name);
      SearchesAgree(v, name, raw, k + 1);
    }
  }

  // ----- the abstract calls -----

  /** What a new entry makes of its cell: a name that starts with the mark of a deleted slot leaves it free. */
  function Born(raw: RawName, node: Node): Cell {
    if raw[0] == MARK_FREE then Free else Live(raw, node)
  }

  /** A new entry in the first free cell; without one, or without the clusters, the call fails and nothing changes. */
  predicate Adds(m: seq<Cell>, raw: RawName, node: Node, code: int, n: seq<Cell>) {
    var k := FreeCell(m, 0);
    if code == 0 then k < |m| && n == m[k := Born(raw, node)] else code == -1 && n == m
  }

  /** The first cell of that name freed. */
  function Dropped(m: seq<Cell>, raw: RawName): seq<Cell> {
    var k := NameCell(m, raw, 0);
    if k < |m| then m[k := Free] else m
  }

  /** The live cell k with other data. */
  predicate Refilled(m: seq<Cell>, k: nat, n: seq<Cell>)
    requires k < |m| && m[k].Live?
  {
    |n| == |m| && n[k].Live? && n == m[k := Live(m[k].name, Node(m[k].node.attributes, n[k].node.data))]
  }

  /** How a call with the given return value changes the row of cells. */
  predicate CellStep(m: seq<Cell>, op: Op, code: int, n: seq<Cell>) {
    var raw := Encode(op.name);
    var k, t := NameCell(m, raw, 0), TextCell(m, op.name, 0);
    match op
    case CreateOp(_, content) => Adds(m, raw, Node(ATTR_ARCHIVE, Clip(content)), code, n)
    case MkdirOp(_) => Adds(m, raw, Node(ATTR_DIRECTORY, []), code, n) && (code == 0 <==> FreeCell(m, 0) < |m|)
    case DeleteOp(_) => n == Dropped(m, raw) && code == if k < |m| then 0 else -1
    case WriteOp(_, content) =>
      if k == |m| then Adds(m, raw, Node(ATTR_ARCHIVE, Clip(content)), code, n)
      else if code == 0 then n == m[k := Live(raw, Node(m[k].node.attributes, Clip(content)))]
      else code == -1 && Refilled(m, k, n)
    case AppendOp(_, content) =>
      if t == |m| then Adds(m, raw, Node(ATTR_ARCHIVE, Take(content, 4095)), code, n)
      else Adds(Dropped(m, raw), raw, Node(ATTR_ARCHIVE, Take(Take(m[t].node.data, 4000) + content, 4095)), code, n)
    case OverwriteOp(_, offset, data) =>
      if t == |m| then code == 0 && n == m
      else
        && code == Reach(m[t].node.data, offset, |data|)
        && n == m[t := Live(m[t].name, Node(m[t].node.attributes, Overlay(m[t].node.data, offset, data[..code])))]
  }

  // ----- every call is an abstract one -----

  /** A change of one slot is a change of its cell. */
  lemma CellsOne(v: Vol, w: Vol, k: nat)
    requires OneSlot(v, w, k) && k < |Slots(v)|
    ensures Shaped(w) && |Slots(w)| == |Slots(v)| && Cells(w) == Cells(v)[k := CellOf(w, Slots(w)[k])]
  {
    hide Slots, NodeOf, Sound;
    SoundShape(v);
    SoundShape(w);
    forall j | 0 <= j < |Slots(v)| && j != k ensures Cells(w)[j] == Cells(v)[j] {
      assert NodeOf(w, Slots(v)[j]) == NodeOf(v, Slots(v)[j]);
    }
  }

  /** The cell of a slot that holds such an entry. */
  lemma HoldsCell(w: Vol, k: nat, raw: RawName, node: Node)
    requires Shaped(w) && Holds(w, k, raw, node) && raw[0] != 0 && node.attributes / 8 % 2 == 0
    ensures CellOf(w, Slots(w)[k]) == Born(raw, node)
  {
    hide Slots, NodeOf;
  }

  lemma SoundOne(v: Vol, w: Vol, k: nat)
    requires OneSlot(v, w, k)
    ensures Sound(w) && Shaped(w)
  {
    hide Slots, NodeOf;
  }

  lemma CreateCells(v: Vol, name: Text, content: seq<Byte>)
    requires Sound(v) && 0 !in name
    ensures var r := Create(v, name, content);
      Sound(r.vol) && Adds(Cells(v), Encode(name), Node(ATTR_ARCHIVE, Clip(content)), r.code, Cells(r.vol))
  {
    hide Sound, Slots, Create, Encode, FirstFree, OneSlot, Holds, Stores, Cells, CellOf, FreeCell, NameCell, TextCell, FirstMatch, TextSlot;
    SoundShape(v);
    CreateOne(v, name, content);
    EncodeNotEnd(name);
    var r, k, raw := Create(v, name, content), FirstFree(Slots(v), 0), Encode(name);
    SoundOne(v, r.vol, k);
    SearchesAgree(v, name, raw, 0);
    if k < |Slots(v)| {
      CellsOne(v, r.vol, k);
      if r.code == 0 {
        HoldsCell(r.vol, k, raw, Node(ATTR_ARCHIVE, Clip(content)));
      } else {
        FreeSame(v, r.vol, k);
      }
    } else {
      CreateFull(v, name, content);
    }
  }

  lemma CreateFull(v: Vol, name: Text, content: seq<Byte>)
    requires Shaped(v) && FirstFree(Slots(v), 0) == |Slots(v)|
    ensures Create(v, name, content) == Outcome(v, -1)
  {
    hide Slots, FirstFree;
  }

  /** A free slot that was not written stands for the same. */
  lemma FreeSame(v: Vol, w: Vol, k: nat)
    requires Shaped(v) && Shaped(w) && k == FirstFree(Slots(v), 0) < |Slots(v)| && Slots(w) == Slots(v)
    ensures CellOf(w, Slots(w)[k]) == Cells(v)[k]
  {
    hide Slots, FirstFree, NodeOf;
  }

  lemma MkdirCells(v: Vol, name: Text)
    requires Sound(v) && 0 !in name
    ensures var r := Mkdir(v, name); Sound(r.vol) && CellStep(Cells(v), MkdirOp(name), r.code, Cells(r.vol))
  {
    hide Sound, Slots, Mkdir, Encode, FirstFree, OneSlot, Holds, Cells, CellOf, FreeCell, NameCell, TextCell, FirstMatch, TextSlot;
    SoundShape(v);
    MkdirOne(v, name);
    EncodeNotEnd(name);
    var r, k, raw := Mkdir(v, name), FirstFree(Slots(v), 0), Encode(name);
    SoundOne(v, r.vol, k);
    SearchesAgree(v, name, raw, 0);
    if k < |Slots(v)| {
      CellsOne(v, r.vol, k);
      HoldsCell(r.vol, k, raw, Node(ATTR_DIRECTORY, []));
    }
  }

  lemma DeleteCells(v: Vol, name: Text)
    requires Sound(v)
    ensures var r := Delete(v, name); Sound(r.vol) && CellStep(Cells(v), DeleteOp(name), r.code, Cells(r.vol))
  {
    hide Sound, Slots, Delete, Encode, OneSlot, Cells, CellOf, FreeCell, NameCell, TextCell, FirstMatch, FirstFree, TextSlot, Deleted;
    SoundShape(v);
    DeleteOne(v, name);
    var r, raw := Delete(v, name), Encode(name);
    var k := FirstMatch(Slots(v), raw, 0);
    SoundOne(v, r.vol, k);
    SearchesAgree(v, name, raw, 0);
    if k < |Slots(v)| {
      CellsOne(v, r.vol, k);
      FreedCell(r.vol, Slots(v)[k]);
    }
  }

  lemma FreedCell(w: Vol, e: DirEntry)
    requires Shaped(w)
    ensures CellOf(w, Deleted(e)) == Free
  {}

  lemma WriteCells(v: Vol, name: Text, content: seq<Byte>)
    requires Sound(v) && 0 !in name
    ensures var r := Write(v, name, content); Sound(r.vol) && CellStep(Cells(v), WriteOp(name, content), r.code, Cells(r.vol))
  {
    hide Sound, Slots, Create, WriteIn, Encode, OneSlot, Cells, CellOf, FreeCell, NameCell, TextCell, FirstMatch, FirstFree, TextSlot, Adds,
      Holds, Refilled, Visible;
    SoundShape(v);
    var raw := Encode(name);
    var k := FirstMatch(Slots(v), raw, 0);
    SearchesAgree(v, name, raw, 0);
    if k < |Slots(v)| {
      MatchVisible(Slots(v), raw);
      WriteInOne(v, k, content);
      var r := WriteIn(v, k, content);
      SoundOne(v, r.vol, k);
      CellsOne(v, r.vol, k);
      CellKind(v, k, name);
      if r.code == 0 {
        LiveCell(v, k, r.vol, Node(Slots(v)[k].attributes, Clip(content)));
      } else {
        DataOnly(v, k, r.vol);
      }
    } else {
      CreateCells(v, name, content);
    }
  }

  lemma LiveCell(v: Vol, k: nat, w: Vol, node: Node)
    requires Shaped(v) && Shaped(w) && k < |Slots(v)| && Visible(Slots(v)[k]) && node.attributes == Slots(v)[k].attributes
    requires Holds(w, k, Slots(v)[k].name, node)
    ensures CellOf(w, Slots(w)[k]) == Live(Slots(v)[k].name, node)
  {
    hide Slots, NodeOf;
  }

  lemma DataOnly(v: Vol, k: nat, w: Vol)
    requires Shaped(v) && Shaped(w) && k < |Slots(v)| && Visible(Slots(v)[k]) && Slots(w) == Slots(v)
    requires Cells(v)[k].Live? && Cells(w) == Cells(v)[k := CellOf(w, Slots(w)[k])]
    ensures Refilled(Cells(v), k, Cells(w))
  {
    hide Slots, Cells, NodeOf;
    var e := Slots(v)[k];
    NodeAttributes(w, e);
    CellKind(v, k, []);
  }

  lemma OverwriteCells(v: Vol, name: Text, offset: nat, data: seq<Byte>)
    requires Sound(v)
    ensures var r := Overwrite(v, name, offset, data);
      Sound(r.vol) && CellStep(Cells(v), OverwriteOp(name, offset, data), r.code, Cells(r.vol))
  {
    hide Sound, Slots, Overwrite, Encode, OneSlot, Cells, CellOf, FreeCell, NameCell, TextCell, FirstMatch, FirstFree, TextSlot, Holds,
      Overlay, Reach, IsFileNamed, NodeOf, Visible, TextMatches;
    SoundShape(v);
    OverwriteOne(v, name, offset, data);
    var r, t := Overwrite(v, name, offset, data), TextSlot(Slots(v), name, 0);
    SoundOne(v, r.vol, t);
    SearchesAgree(v, name, Encode(name), 0);
    if t < |Slots(v)| {
      CellsOne(v, r.vol, t);
      CellKind(v, t, name);
      var e := Slots(v)[t];
      LiveCell(v, t, r.vol, Node(e.attributes, Overlay(NodeOf(v, e).data, offset, data[..r.code])));
    }
  }

  lemma AppendCells(v: Vol, name: Text, content: seq<Byte>)
    requires Sound(v) && 0 !in name
    ensures var r := Append(v, name, content); Sound(r.vol) && CellStep(Cells(v), AppendOp(name, content), r.code, Cells(r.vol))
  {
    hide Sound, Slots, Create, Delete, Encode, Cells, FreeCell, NameCell, TextCell, FirstMatch, FirstFree, TextSlot, Adds, Listing, FirstText,
      NodeOf, Take, Clip, Dropped, IsFileNamed, Visible, TextMatches;
    SoundShape(v);
    var l, t := Listing(Slots(v), 0), TextSlot(Slots(v), name, 0);
    ListedSlot(Slots(v), name, 0);
    SearchesAgree(v, name, Encode(name), 0);
    if t == |Slots(v)| {
      CreateCells(v, name, Take(content, 4095));
      ClipShort(content);
    } else {
      CellKind(v, t, name);
      DeleteCells(v, name);
      var data := Take(NodeOf(v, Slots(v)[t]).data, 4000) + content;
      CreateCells(Delete(v, name).vol, name, Take(data, 4095));
      ClipShort(data);
    }
  }

  /** Every call keeps the chains in order and makes one abstract step, whatever its name and whatever it returns. */
  lemma DoSound(v: Vol, op: Op)
    requires Sound(v) && 0 !in op.name
    ensures Sound(Do(v, op).vol) && CellStep(Cells(v), op, Do(v, op).code, Cells(Do(v, op).vol))
  {
    hide Sound, Create, Write, Append, Delete, Mkdir, Overwrite, Encode, Cells, FreeCell, NameCell, TextCell, Adds, Dropped, Refilled,
      IsFileNamed;
    match op
    case CreateOp(name, content) => CreateCells(v, name, content);
    case WriteOp(name, content) => WriteCells(v, name, content);
    case AppendOp(name, content) => AppendCells(v, name, content);
    case DeleteOp(name) => DeleteCells(v, name);
    case MkdirOp(name) => MkdirCells(v, name);
    case OverwriteOp(name, offset, data) => OverwriteCells(v, name, offset, data);
  }

  // ----- what the cells say about the map of names -----

  /** The map of names is read off the cells: each name has the node of its first cell. */
  lemma FilesOfCells(v: Vol, raw: RawName)
    requires Sound(v)
    ensures var k := NameCell(Cells(v), raw, 0);
      && (raw in Files(v) <==> k < |Cells(v)|)
      && (raw in Files(v) ==> Files(v)[raw] == Cells(v)[k].node)
  {
    hide Cells, CellOf, NodeOf, Slots, NameCell, FreeCell, TextCell, TextSlot, FirstFree, IsFileNamed;
    SoundShape(v);
    SearchesAgree(v, [], raw, 0);
    var k := FirstMatch(Slots(v), raw, 0);
    if k < |Slots(v)| {
      CellKind(v, k, []);
    } else {
      NoMatch(Slots(v), raw, 0);
    }
  }

  // ----- names that hide their own entry -----

  /** A file just created is found under its name exactly when the raw form does not start with the mark of a deleted
      slot. */
  lemma CreatedFound(v: Vol, name: Text, content: seq<Byte>)
    requires Sound(v) && 0 !in name && Create(v, name, content).code == 0
    ensures var w := Create(v, name, content).vol;
      Shaped(w) && (FirstMatch(Slots(w), Encode(name), 0) < |Slots(w)| <==> Encode(name)[0] != MARK_FREE)
  {
    hide Sound, Slots, Create, Encode, FirstFree, OneSlot, Stores, NodeOf, FirstMatch;
    SoundShape(v);
    CreateOne(v, name, content);
    EncodeNotEnd(name);
    var w, k, raw := Create(v, name, content).vol, FirstFree(Slots(v), 0), Encode(name);
    SoundOne(v, w, k);
    SoundShape(w);
    MatchVisible(Slots(w), raw);
    if FirstMatch(Slots(w), raw, 0) == |Slots(w)| {
      NoMatch(Slots(w), raw, 0);
    }
  }

  /** A cluster that is neither free nor part of any chain. */
  ghost predicate Lost(v: Vol, x: nat)
    requires Shaped(v)
  {
    && InRange(v.fat, x) && !IsFree(v.fat, x) && x !in ChainOf(v.fat, v.root)
    && forall j :: 0 <= j < |Slots(v)| ==> x !in EntryChain(v.fat, Slots(v)[j])
  }

  /** A create that succeeds under a hidden name leaves its slot free for the next one, and loses its clusters for good. */
  lemma HiddenLoses(v: Vol, name: Text, content: seq<Byte>)
    requires Sound(v) && Create(v, name, content).code == 0 && Encode(name)[0] == MARK_FREE
    ensures var w := Create(v, name, content).vol;
      && Shaped(w) && FirstFree(Slots(w), 0) == FirstFree(Slots(v), 0)
      && forall x :: x in Taken(v, |content|) ==> Lost(w, x)
  {
    hide Sound, Slots, CreateIn, Encode, FirstFree, Stores, Taken, FileEntry, Lost, Create, Visible, IsFreeSlot;
    SoundShape(v);
    CreateSucceeds(v, name, content);
    var k, raw := FirstFree(Slots(v), 0), Encode(name);
    var e := FileEntry(raw, StoreResult(v, |content|), |content|);
    CreatedSlot(v, k, raw, content);
    HiddenFile(raw, StoreResult(v, |content|), |content|);
    StillFree(Slots(v), e);
    forall x | x in Taken(v, |content|) ensures Lost(Create(v, name, content).vol, x) {
      TakenLost(v, k, raw, content, x);
    }
  }

  lemma HiddenFile(raw: RawName, c: nat, len: nat)
    requires c < 0x1_0000_0000 && raw[0] == MARK_FREE
    ensures IsFreeSlot(FileEntry(raw, c, len)) && !Visible(FileEntry(raw, c, len))
  {}

  lemma StillFree(slots: seq<DirEntry>, e: DirEntry)
    requires FirstFree(slots, 0) < |slots| && IsFreeSlot(e)
    ensures FirstFree(slots[FirstFree(slots, 0) := e], 0) == FirstFree(slots, 0)
  {
    hide FirstFree;
    var k := FirstFree(slots, 0);
    var t := slots[k := e];
    assert IsFreeSlot(t[k]);
    assert forall j :: 0 <= j < k ==> t[j] == slots[j];
  }

  lemma TakenLost(v: Vol, k: nat, raw: RawName, content: seq<Byte>, x: nat)
    requires Sound(v) && k < |Slots(v)| && Stores(v, |content|) && raw[0] == MARK_FREE && x in Taken(v, |content|)
    ensures var w := CreateIn(v, k, raw, content).vol; Shaped(w) && Lost(w, x)
  {
    hide Sound, Slots, FileEntry, StoreChain, StoreResult, PutSlot, Taken, EntryOk, EntryChain, ChainOf, IsChain, KeepsChain, Visible, HasRoom,
      Place, IsFree;
    SoundShape(v);
    var e := FileEntry(raw, StoreResult(v, |content|), |content|);
    HiddenFile(raw, StoreResult(v, |content|), |content|);
    KeepsSelf(v, k);
    StoreStep(v, v, k, content);
    var u := StoreChain(v, content);
    PutStep(v, u, k, e);
    var w := PutSlot(u, Place(v, k), k % 16, e);
    TakenUsed(v, content, x);
    forall j | 0 <= j < |Slots(w)| ensures x !in EntryChain(w.fat, Slots(w)[j]) {
      if j == k {
        BareEntry(v, w, k, e);
      } else {
        EntryIsOk(v, j);
        KeptEntry(v, w, Slots(v)[j]);
      }
    }
  }

  /** What a store takes is in use afterwards. */
  lemma TakenUsed(v: Vol, content: seq<Byte>, x: nat)
    requires Shaped(v) && Stores(v, |content|) && x in Taken(v, |content|)
    ensures InRange(v.fat, x) && !IsFree(StoreChain(v, content).fat, x)
  {
    hide StoreChain, ClustersNeeded, FreeList, IsChain;
    if HasRoom(v, |content|) {
      StoredChain(v, content);
      ChainHoldsNoFree(StoreChain(v, content).fat, Taken(v, |content|), x);
    } else {
      NeededForNone(v.spc);
      assert false;
    }
  }

  // ----- runs -----

  /** The row of cells goes from m to n by the calls, given what they return. */
  ghost predicate Leads(m: seq<Cell>, ops: seq<Op>, codes: seq<int>, n: seq<Cell>)
    decreases |ops|
  {
    if ops == [] then codes == [] && n == m
    else codes != [] && exists m' :: CellStep(m, ops[0], codes[0], m') && Leads(m', ops[1..], codes[1..], n)
  }

  lemma LeadsMore(m: seq<Cell>, code: int, m': seq<Cell>, ops: seq<Op>, codes: seq<int>, n: seq<Cell>)
    requires ops != [] && CellStep(m, ops[0], code, m') && Leads(m', ops[1..], codes, n)
    ensures Leads(m, ops, [code] + codes, n)
  {
    hide CellStep;
    assert ([code] + codes)[1..] == codes;
  }

  /** The names of the calls are C strings. */
  predicate Strings(ops: seq<Op>) {
    forall i :: 0 <= i < |ops| ==> 0 !in ops[i].name
  }

  /** Call number i of a run. */
  ghost predicate MadeAt(vs: seq<Vol>, ops: seq<Op>, i: nat)
    requires |vs| == |ops| + 1 && i < |ops|
  {
    Shaped(vs[i]) && vs[i + 1] == Do(vs[i], ops[i]).vol
  }

  /** vs are the states of a run of any calls. */
  ghost predicate IsAnyRun(vs: seq<Vol>, ops: seq<Op>) {
    |vs| == |ops| + 1 && forall i :: 0 <= i < |ops| ==> MadeAt(vs, ops, i)
  }

  ghost predicate SteppedAt(vs: seq<Vol>, ops: seq<Op>, i: nat)
    requires |vs| == |ops| + 1 && i < |ops| && Sound(vs[i]) && Sound(vs[i + 1])
  {
    CellStep(Cells(vs[i]), ops[i], Do(vs[i], ops[i]).code, Cells(vs[i + 1]))
  }

  lemma {:induction false} StaysSound(vs: seq<Vol>, ops: seq<Op>, i: nat)
    requires IsAnyRun(vs, ops) && Sound(vs[0]) && Strings(ops) && i < |vs|
    ensures Sound(vs[i])
  {
    hide Sound, Do, CellStep, Cells;
    if i > 0 {
      StaysSound(vs, ops, i - 1);
      assert MadeAt(vs, ops, i - 1);
      DoSound(vs[i - 1], ops[i - 1]);
    }
  }

  /** In every state of every run all chains are acyclic, end in an end mark, are pairwise disjoint and hold no free
      cluster, and every call moves the cells by one abstract step. */
  lemma AnyRunsRefine(vs: seq<Vol>, ops: seq<Op>)
    requires IsAnyRun(vs, ops) && Sound(vs[0]) && Strings(ops)
    ensures forall i :: 0 <= i < |vs| ==> Sound(vs[i])
    ensures forall i :: 0 <= i < |ops| ==> SteppedAt(vs, ops, i)
  {
    hide Sound, Do, CellStep, Cells;
    forall i | 0 <= i < |vs| ensures Sound(vs[i]) {
      StaysSound(vs, ops, i);
    }
    forall i | 0 <= i < |ops| ensures SteppedAt(vs, ops, i) {
      assert MadeAt(vs, ops, i);
      DoSound(vs[i], ops[i]);
    }
  }
}
