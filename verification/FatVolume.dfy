/** A FAT32 volume as a value: table, data area, root directory; its invariant and the map of names it stands for. */
module FatVolume {
  import opened Bytes
  import opened FatTable
  import opened FatArea
  import opened FatNames
  import opened FatDirectory

  /** spc is sectors per cluster; `area` holds the data sectors, cluster 2 first. */
  datatype Vol = Vol(spc: nat, root: nat, fat: Fat, area: seq<Sector>)

  /** Every table index from 2 on has a data cluster. */
  predicate Shaped(v: Vol) {
    1 <= v.spc && |v.fat| >= 2 && |v.area| >= Times(|v.fat| - 2, v.spc)
  }

  predicate SameShape(v: Vol, w: Vol) {
    w.spc == v.spc && w.root == v.root && |w.fat| == |v.fat| && |w.area| == |v.area|
  }

  /** The sectors of in-range clusters. */
  ghost function Sectors(v: Vol, cs: seq<nat>): (ss: seq<nat>)
    requires Shaped(v) && AllInRange(v.fat, cs)
    ensures Within(v.area, ss) && |ss| == Times(|cs|, v.spc)
    ensures Distinct(cs) ==> Distinct(ss)
  {
    SecsWithin(v.spc, cs, v.area, |v.fat|);
    SecsLength(v.spc, cs);
    if Distinct(cs) then SecsDistinct(v.spc, cs); Secs(v.spc, cs) else Secs(v.spc, cs)
  }

  /** The bytes held by the chain starting at c; none if c is not a cluster. */
  ghost function ChainBytes(v: Vol, c: nat): seq<Byte>
    requires Shaped(v)
  {
    Contents(v.area, Sectors(v, ChainOf(v.fat, c)))
  }

  ghost function RootSectors(v: Vol): (ss: seq<nat>)
    requires Shaped(v)
    ensures Within(v.area, ss) && Distinct(ss)
  {
    Sectors(v, ChainOf(v.fat, v.root))
  }

  /** Slot k lies in the k/16-th sector of the root chain. */
  ghost function Places(area: seq<Sector>, ss: seq<nat>): (r: seq<Placed>)
    requires Within(area, ss)
    ensures |r| == 16 * |ss|
  {
    seq(16 * |ss|, k requires 0 <= k < 16 * |ss| => Placed(Decode(area[ss[k / 16]], 32 * (k % 16)), ss[k / 16], k % 16))
  }

  ghost function Slots(v: Vol): (r: seq<DirEntry>)
    requires Shaped(v)
    ensures |r| == 16 * |RootSectors(v)|
  {
    Entries(Places(v.area, RootSectors(v)))
  }

  // ----- the invariant -----

  ghost function EntryChain(f: Fat, e: DirEntry): (r: seq<nat>)
    ensures AllInRange(f, r) && Distinct(r)
  {
    if Visible(e) then ChainOf(f, Cluster(e)) else []
  }

  /** The first cluster is in the table, or a value at which every walk stops at once. */
  ghost predicate EntryOk(f: Fat, e: DirEntry) {
    Visible(e) ==>
      && (InRange(f, Cluster(e)) ==> IsChain(f, ChainOf(f, Cluster(e))))
      && (!InRange(f, Cluster(e)) ==> e.fileSize == 0 && (Cluster(e) < 2 || Cluster(e) >= CLUSTER_BAD))
  }

  /** No two chains share a cluster, and all end in EOC. */
  ghost predicate Sound(v: Vol) {
    && Shaped(v)
    && IsChain(v.fat, ChainOf(v.fat, v.root))
    && EndClean(Slots(v))
    && (forall k :: 0 <= k < |Slots(v)| ==> EntryOk(v.fat, Slots(v)[k]))
    && (forall k :: 0 <= k < |Slots(v)| ==> Disjoint(ChainOf(v.fat, v.root), EntryChain(v.fat, Slots(v)[k])))
    && (forall j, k :: 0 <= j < |Slots(v)| && 0 <= k < |Slots(v)| && j != k ==>
          Disjoint(EntryChain(v.fat, Slots(v)[j]), EntryChain(v.fat, Slots(v)[k])))
  }

  lemma SoundShape(v: Vol)
    requires Sound(v)
    ensures Shaped(v) && EndClean(Slots(v))
  {}

  // ----- what a volume stands for -----

  datatype Node = Node(attributes: Byte, data: seq<Byte>)

  ghost function NodeOf(v: Vol, e: DirEntry): Node
    requires Shaped(v)
  {
    Node(e.attributes, Take(Contents(v.area, Sectors(v, EntryChain(v.fat, e))), e.fileSize))
  }

  ghost function Names(slots: seq<DirEntry>): set<RawName> {
    set k | 0 <= k < |slots| && Visible(slots[k]) :: slots[k].name
  }

  /** The map given by slots and the node of each. */
  ghost function MapOf(slots: seq<DirEntry>, nodes: seq<Node>): map<RawName, Node>
    requires EndClean(slots) && |nodes| == |slots|
  {
    map n | n in Names(slots) :: nodes[Found(slots, n)]
  }

  ghost function Nodes(v: Vol): (r: seq<Node>)
    requires Shaped(v)
    ensures |r| == |Slots(v)|
  {
    seq(|Slots(v)|, k requires 0 <= k < |Slots(v)| => NodeOf(v, Slots(v)[k]))
  }

  /** The map from raw names to files and directories that the volume stands for. */
  ghost function Files(v: Vol): map<RawName, Node>
    requires Shaped(v) && EndClean(Slots(v))
  {
    MapOf(Slots(v), Nodes(v))
  }

  ghost function Found(slots: seq<DirEntry>, n: RawName): (k: nat)
    requires EndClean(slots) && n in Names(slots)
    ensures k < |slots| && Matches(slots[k], n) && k == FirstMatch(slots, n, 0)
  {
    assert FirstMatch(slots, n, 0) < |slots| by {
      if FirstMatch(slots, n, 0) == |slots| {
        NoMatch(slots, n, 0);
      }
    }
    FirstMatch(slots, n, 0)
  }

  // ----- one slot and its chain change, everything else stays -----

  /** w has the links and the sectors of the clusters cs as v has them. */
  ghost predicate KeepsChain(v: Vol, w: Vol, cs: seq<nat>)
    requires Shaped(v) && SameShape(v, w) && AllInRange(v.fat, cs)
  {
    && (forall i :: 0 <= i < |cs| ==> w.fat[cs[i]] == v.fat[cs[i]])
    && (forall i :: 0 <= i < |Sectors(v, cs)| ==> w.area[Sectors(v, cs)[i]] == v.area[Sectors(v, cs)[i]])
  }

  /** The clusters cs belong to neither the root directory nor any entry but the one in slot k. */
  ghost predicate Apart(v: Vol, k: nat, cs: seq<nat>)
    requires Shaped(v)
  {
    && Disjoint(ChainOf(v.fat, v.root), cs)
    && (forall j :: 0 <= j < |Slots(v)| && j != k ==> Disjoint(EntryChain(v.fat, Slots(v)[j]), cs))
  }

  ghost predicate OthersKept(v: Vol, w: Vol, k: nat)
    requires Shaped(v) && SameShape(v, w)
  {
    forall j :: 0 <= j < |Slots(v)| && j != k ==> KeepsChain(v, w, EntryChain(v.fat, Slots(v)[j]))
  }

  /** w is v with at most the chain of slot k touched. */
  ghost predicate OnlyChain(v: Vol, w: Vol, k: nat) {
    && Shaped(v) && SameShape(v, w) && k < |Slots(v)|
    && KeepsChain(v, w, ChainOf(v.fat, v.root))
    && OthersKept(v, w, k)
  }

  /** w is v with e in slot k and at most the chain of that slot touched. */
  ghost predicate OnlySlot(v: Vol, w: Vol, k: nat, e: DirEntry) {
    && Shaped(v) && SameShape(v, w) && k < |Slots(v)|
    && ChainOf(w.fat, w.root) == ChainOf(v.fat, v.root) && IsChain(w.fat, ChainOf(w.fat, w.root))
    && Slots(w) == Slots(v)[k := e]
    && OthersKept(v, w, k)
  }

  lemma KeptEntry(v: Vol, w: Vol, e: DirEntry)
    requires Shaped(v) && SameShape(v, w) && EntryOk(v.fat, e) && KeepsChain(v, w, EntryChain(v.fat, e))
    ensures EntryOk(w.fat, e) && EntryChain(w.fat, e) == EntryChain(v.fat, e) && NodeOf(w, e) == NodeOf(v, e)
  {
    if Visible(e) && InRange(v.fat, Cluster(e)) {
      ChainFrame(v.fat, w.fat, ChainOf(v.fat, Cluster(e)));
    }
    ContentsFrame(v.area, w.area, Sectors(v, EntryChain(v.fat, e)));
  }

  /** The node of every slot but k is the same in w. */
  ghost predicate NodesKept(v: Vol, w: Vol, k: nat)
    requires Shaped(v) && Shaped(w)
  {
    forall j :: 0 <= j < |Slots(v)| && j != k ==> NodeOf(w, Slots(v)[j]) == NodeOf(v, Slots(v)[j])
  }

  lemma DisjointSymmetric(s: seq<nat>, t: seq<nat>)
    requires Disjoint(s, t)
    ensures Disjoint(t, s)
  {}

  /** The preservation step shared by all operations. */
  lemma SlotChanged(v: Vol, w: Vol, k: nat, e: DirEntry)
    requires Sound(v) && OnlySlot(v, w, k, e) && EndClean(Slots(w))
    requires EntryOk(w.fat, e) && Apart(v, k, EntryChain(w.fat, e))
    ensures Sound(w) && NodesKept(v, w, k)
  {
    hide NodeOf, EntryOk, EntryChain, KeepsChain, ChainOf, IsChain, EndClean;
    forall j | 0 <= j < |Slots(v)| && j != k
      ensures EntryOk(w.fat, Slots(v)[j]) && EntryChain(w.fat, Slots(v)[j]) == EntryChain(v.fat, Slots(v)[j])
      ensures NodeOf(w, Slots(v)[j]) == NodeOf(v, Slots(v)[j])
    {
      KeptEntry(v, w, Slots(v)[j]);
    }
    forall i, j | 0 <= i < |Slots(w)| && 0 <= j < |Slots(w)| && i != j
      ensures Disjoint(EntryChain(w.fat, Slots(w)[i]), EntryChain(w.fat, Slots(w)[j]))
    {
      if i == k {
        DisjointSymmetric(EntryChain(v.fat, Slots(v)[j]), EntryChain(w.fat, e));
      }
    }
  }

  /** m lists exactly the visible slots. */
  ghost predicate Lists(m: map<RawName, Node>, slots: seq<DirEntry>, nodes: seq<Node>)
    requires |nodes| == |slots|
  {
    && (forall k :: 0 <= k < |slots| && Visible(slots[k]) ==> slots[k].name in m && m[slots[k].name] == nodes[k])
    && (forall n :: n in m ==> n in Names(slots))
  }

  lemma MapLists(slots: seq<DirEntry>, nodes: seq<Node>)
    requires EndClean(slots) && |nodes| == |slots| && UniqueNames(slots)
    ensures Lists(MapOf(slots, nodes), slots, nodes)
  {
    forall k | 0 <= k < |slots| && Visible(slots[k])
      ensures slots[k].name in MapOf(slots, nodes) && MapOf(slots, nodes)[slots[k].name] == nodes[k]
    {
      MatchIs(slots, k);
    }
  }

  lemma ListsUnique(m: map<RawName, Node>, p: map<RawName, Node>, slots: seq<DirEntry>, nodes: seq<Node>)
    requires |nodes| == |slots| && Lists(m, slots, nodes) && Lists(p, slots, nodes)
    ensures m == p
  {
    assert forall n :: n in m || n in p ==> n in Names(slots);
  }

  /** No other visible slot has the name of e. */
  predicate FreshName(slots: seq<DirEntry>, k: nat, e: DirEntry) {
    forall j :: 0 <= j < |slots| && j != k && Visible(slots[j]) ==> slots[j].name != e.name
  }

  ghost function MapStep(m: map<RawName, Node>, was: DirEntry, e: DirEntry, node: Node): map<RawName, Node> {
    (if Visible(was) then m - {was.name} else m) + (if Visible(e) then map[e.name := node] else map[])
  }

  lemma StepLists(m: map<RawName, Node>, slots: seq<DirEntry>, nodes: seq<Node>, k: nat, e: DirEntry, node: Node)
    requires |nodes| == |slots| && UniqueNames(slots) && k < |slots| && Lists(m, slots, nodes)
    requires Visible(e) ==> FreshName(slots, k, e)
    ensures Lists(MapStep(m, slots[k], e, node), slots[k := e], nodes[k := node])
  {
    var t := slots[k := e];
    var r := MapStep(m, slots[k], e, node);
    forall j | 0 <= j < |t| && Visible(t[j])
      ensures t[j].name in r && r[t[j].name] == nodes[k := node][j]
    {
      if j != k {
        assert Visible(slots[j]) && slots[j].name in m;
      }
    }
    forall n | n in r ensures n in Names(t) {
      if Visible(e) && n == e.name {
        assert t[k] == e;
      } else {
        assert n in Names(slots);
        var j :| 0 <= j < |slots| && Visible(slots[j]) && slots[j].name == n;
        assert t[j] == slots[j];
      }
    }
  }

  /** Changing slot k drops its old name from the map and adds its new entry. */
  lemma MapChanged(slots: seq<DirEntry>, nodes: seq<Node>, k: nat, e: DirEntry, node: Node)
    requires EndClean(slots) && |nodes| == |slots| && UniqueNames(slots) && k < |slots|
    requires EndClean(slots[k := e]) && (Visible(e) ==> FreshName(slots, k, e))
    ensures UniqueNames(slots[k := e])
    ensures MapOf(slots[k := e], nodes[k := node]) == MapStep(MapOf(slots, nodes), slots[k], e, node)
  {
    MapLists(slots, nodes);
    StepLists(MapOf(slots, nodes), slots, nodes, k, e, node);
    MapLists(slots[k := e], nodes[k := node]);
    ListsUnique(MapOf(slots[k := e], nodes[k := node]), MapStep(MapOf(slots, nodes), slots[k], e, node),
                slots[k := e], nodes[k := node]);
  }

  /** The effect of a change of one slot on the map of the volume. */
  lemma FilesChanged(v: Vol, w: Vol, k: nat, e: DirEntry)
    requires Sound(v) && Sound(w) && UniqueNames(Slots(v)) && k < |Slots(v)|
    requires Slots(w) == Slots(v)[k := e] && NodesKept(v, w, k)
    requires Visible(e) ==> FreshName(Slots(v), k, e)
    ensures UniqueNames(Slots(w))
    ensures Files(w) == MapStep(Files(v), Slots(v)[k], e, NodeOf(w, e))
  {
    assert Nodes(w) == Nodes(v)[k := NodeOf(w, e)];
    MapChanged(Slots(v), Nodes(v), k, e, NodeOf(w, e));
  }

  lemma EndCleanPut(slots: seq<DirEntry>, k: nat, e: DirEntry)
    requires EndClean(slots) && k < |slots| && (!IsEnd(e) || e == slots[k])
    requires k == FirstFree(slots, 0) || Visible(slots[k])
    ensures EndClean(slots[k := e])
  {}

  /** One slot replaced: the invariant holds again, and the map changes by that slot alone. */
  lemma SlotReplaced(v: Vol, w: Vol, k: nat, e: DirEntry)
    requires Sound(v) && UniqueNames(Slots(v)) && OnlySlot(v, w, k, e)
    requires EntryOk(w.fat, e) && Apart(v, k, EntryChain(w.fat, e))
    requires !IsEnd(e) || e == Slots(v)[k]
    requires k == FirstFree(Slots(v), 0) || Visible(Slots(v)[k])
    requires Visible(e) ==> FreshName(Slots(v), k, e)
    ensures Sound(w) && UniqueNames(Slots(w))
    ensures Files(w) == MapStep(Files(v), Slots(v)[k], e, NodeOf(w, e))
  {
    EndCleanPut(Slots(v), k, e);
    SlotChanged(v, w, k, e);
    FilesChanged(v, w, k, e);
  }
}
