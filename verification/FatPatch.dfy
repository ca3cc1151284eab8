/** Writing into a file in place: what it does to the volume, and what later reads see. */
module FatPatch {
  import opened Bytes
  import opened FatTable
  import opened FatArea
  import opened FatNames
  import opened FatDirectory
  import opened FatVolume
  import opened FatSteps
  import opened FatOps
  import opened FatFiles

  // ----- the volume that such a write leaves -----

  /** The volume with the bytes b laid over the chain's contents from `offset` on. */
  ghost function Patched(v: Vol, c: nat, offset: nat, b: seq<Byte>): (w: Vol)
    requires Shaped(v)
    ensures SameShape(v, w) && w.fat == v.fat
  {
    v.(area := Store(v.area, Sectors(v, ChainOf(v.fat, c)), Overlay(ChainBytes(v, c), offset, b)))
  }

  lemma ContentsDetermine(a: seq<Sector>, b: seq<Sector>, ss: seq<nat>, t: nat)
    requires |a| == |b| && Within(a, ss) && Contents(a, ss) == Contents(b, ss) && t < |ss|
    ensures a[ss[t]] == b[ss[t]]
  {
    hide Contents;
    var x, y := a[ss[t]], b[ss[t]];
    forall i | 0 <= i < 512 ensures x[i] == y[i] {
      assert (512 * t + i) / 512 == t && (512 * t + i) % 512 == i;
      ContentsAt(a, ss, 512 * t + i);
      ContentsAt(b, ss, 512 * t + i);
    }
  }

  lemma OverlayLength(full: seq<Byte>, offset: nat, b: seq<Byte>)
    ensures |Overlay(full, offset, b)| == |full|
  {}

  lemma PatchedReads(v: Vol, c: nat, offset: nat, b: seq<Byte>)
    requires Shaped(v)
    ensures ChainBytes(Patched(v, c, offset, b), c) == Overlay(ChainBytes(v, c), offset, b)
  {
    hide Overlay, Store, Contents, Distinct, ChainOf;
    var ss := Sectors(v, ChainOf(v.fat, c));
    var content := Overlay(ChainBytes(v, c), offset, b);
    OverlayLength(ChainBytes(v, c), offset, b);
    StoreReadsBack(v.area, ss, content);
    var w := Patched(v, c, offset, b);
    SectorsSame(v, w, ChainOf(v.fat, c));
    assert ChainBytes(w, c)[..|content|] == ChainBytes(w, c);
  }

  /** The loop's result is that volume, and it is the only one with that result. */
  lemma WrittenIs(v: Vol, w: Vol, c: nat, offset: nat, data: seq<Byte>, n: nat)
    requires Written(v, w, c, offset, data, n)
    ensures w == Patched(v, c, offset, data[..n])
  {
    hide Overlay, Contents, Secs, ChainOf, Times, Distinct;
    var p := Patched(v, c, offset, data[..n]);
    var ss := Sectors(v, ChainOf(v.fat, c));
    PatchedReads(v, c, offset, data[..n]);
    SectorsSame(v, w, ChainOf(v.fat, c));
    SectorsSame(v, p, ChainOf(v.fat, c));
    forall x | 0 <= x < |v.area| ensures w.area[x] == p.area[x] {
      if x in ss {
        var t :| 0 <= t < |ss| && ss[t] == x;
        ContentsDetermine(w.area, p.area, ss, t);
      } else {
        StoreFrame(v.area, ss, Overlay(ChainBytes(v, c), offset, data[..n]), x);
      }
    }
    assert w.area == p.area;
  }

  lemma PatchedIsWritten(v: Vol, c: nat, offset: nat, data: seq<Byte>, n: nat)
    requires Shaped(v) && n <= |data| && (n > 0 ==> offset + n <= |ChainBytes(v, c)|)
    ensures Written(v, Patched(v, c, offset, data[..n]), c, offset, data, n)
  {
    hide Overlay, Contents, Secs, ChainOf, Times, Distinct;
    PatchedReads(v, c, offset, data[..n]);
    var ss := Sectors(v, ChainOf(v.fat, c));
    forall x | 0 <= x < |v.area| && x !in ss
      ensures Patched(v, c, offset, data[..n]).area[x] == v.area[x]
    {
      StoreFrame(v.area, ss, Overlay(ChainBytes(v, c), offset, data[..n]), x);
    }
  }

  // ----- its effect on the files -----

  /** Clusters of other chains keep their sectors. */
  lemma PatchKeeps(v: Vol, w: Vol, c: nat, offset: nat, data: seq<Byte>, n: nat, cs: seq<nat>)
    requires Written(v, w, c, offset, data, n) && AllInRange(v.fat, cs) && Disjoint(cs, ChainOf(v.fat, c))
    ensures SameShape(v, w) && KeepsChain(v, w, cs)
  {
    hide Overlay, Contents, Secs, ChainOf, Times, Distinct;
    SectorsApart(v, cs, ChainOf(v.fat, c));
    var ss := Sectors(v, cs);
    assert forall i :: 0 <= i < |ss| ==> ss[i] in ss;
  }

  lemma PatchStep(v: Vol, w: Vol, k: nat, offset: nat, data: seq<Byte>, n: nat)
    requires Sound(v) && k < |Slots(v)| && Visible(Slots(v)[k]) && Written(v, w, Cluster(Slots(v)[k]), offset, data, n)
    ensures OnlyChain(v, w, k)
  {
    hide Written, KeepsChain, Slots, Cluster;
    var c := Cluster(Slots(v)[k]);
    RootFrom(v, k);
    PatchKeeps(v, w, c, offset, data, n, ChainOf(v.fat, v.root));
    forall j | 0 <= j < |Slots(v)| && j != k ensures KeepsChain(v, w, EntryChain(v.fat, Slots(v)[j])) {
      assert Disjoint(EntryChain(v.fat, Slots(v)[j]), EntryChain(v.fat, Slots(v)[k]));
      PatchKeeps(v, w, c, offset, data, n, EntryChain(v.fat, Slots(v)[j]));
    }
  }

  lemma RootFrom(v: Vol, k: nat)
    requires Sound(v) && k < |Slots(v)| && Visible(Slots(v)[k])
    ensures Disjoint(ChainOf(v.fat, v.root), ChainOf(v.fat, Cluster(Slots(v)[k])))
  {
    assert Disjoint(ChainOf(v.fat, v.root), EntryChain(v.fat, Slots(v)[k]));
  }

  /** Writing into the file of a slot keeps the invariant, the directory and every other file. */
  lemma FileWriteEffect(v: Vol, w: Vol, k: nat, offset: nat, data: seq<Byte>, n: nat)
    requires Inv(v) && k < |Slots(v)| && Visible(Slots(v)[k]) && Written(v, w, Cluster(Slots(v)[k]), offset, data, n)
    ensures var e := Slots(v)[k];
      && Inv(w) && Slots(w) == Slots(v)
      && Files(w) == Files(v)[e.name := Node(e.attributes, Take(Overlay(ChainBytes(v, Cluster(e)), offset, data[..n]), e.fileSize))]
  {
    hide Sound, Slots, OnlyChain, OnlySlot, Files, UniqueNames, FreshName, MapStep, Apart, EntryOk, EntryChain, NodeOf, Written, Overlay, ChainBytes, Cluster, Visible;
    var e := SlotOf(v, k);
    PatchStep(v, w, k, offset, data, n);
    ChainKeepsSlots(v, w, k);
    SameEntry(v, w, k, e, offset, data, n);
    OwnName(Slots(v), k, e);
    NotEnd(e);
    SlotReplaced(v, w, k, e);
    KeepsSlot(v, w, k);
    MapAdds(Files(v), e, e, NodeOf(w, e));
  }

  ghost function SlotOf(v: Vol, k: nat): (e: DirEntry)
    requires Sound(v) && k < |Slots(v)|
    ensures Shaped(v) && e == Slots(v)[k]
  {
    Slots(v)[k]
  }

  lemma NotEnd(e: DirEntry)
    requires Visible(e)
    ensures !IsEnd(e)
  {}

  lemma SameEntry(v: Vol, w: Vol, k: nat, e: DirEntry, offset: nat, data: seq<Byte>, n: nat)
    requires Sound(v) && k < |Slots(v)| && e == Slots(v)[k] && Visible(e) && Written(v, w, Cluster(e), offset, data, n)
    ensures Shaped(w) && EntryOk(w.fat, e) && Apart(v, k, EntryChain(w.fat, e))
    ensures NodeOf(w, e) == Node(e.attributes, Take(Overlay(ChainBytes(v, Cluster(e)), offset, data[..n]), e.fileSize))
  {
    hide Slots, Overlay, Cluster, ChainOf, Contents, Visible;
    assert EntryOk(v.fat, e);
    forall j | 0 <= j < |Slots(v)| && j != k ensures Disjoint(EntryChain(v.fat, Slots(v)[j]), EntryChain(v.fat, e)) {
      assert Disjoint(EntryChain(v.fat, Slots(v)[j]), EntryChain(v.fat, Slots(v)[k]));
    }
  }

  // ----- reading after writing -----

  lemma OverlayTake(full: seq<Byte>, size: nat, offset: nat, b: seq<Byte>)
    requires b == [] || offset + |b| <= Min(size, |full|)
    ensures Take(Overlay(full, offset, b), size) == Overlay(Take(full, size), offset, b)
  {
    if b == [] {
      assert offset <= |full| ==> Splice(full, offset, b) == full;
      assert offset <= |Take(full, size)| ==> Splice(Take(full, size), offset, b) == Take(full, size);
    }
  }

  lemma WritableFits(v: Vol, c: nat, size: nat, offset: nat, len: nat)
    requires Shaped(v)
    ensures var n, d := Writable(v, c, size, offset, len), |FileData(v, c, size)|;
      && n == (if offset >= d then 0 else Min(len, d - offset)) && n <= len
      && (n > 0 ==> offset + n <= Min(size, |ChainBytes(v, c)|))
  {
    hide ChainBytes;
  }

  /** After a write, the file's data is the old data with the written bytes laid over it. */
  lemma WrittenData(v: Vol, w: Vol, c: nat, size: nat, offset: nat, data: seq<Byte>)
    requires Shaped(v) && Written(v, w, c, offset, data, Writable(v, c, size, offset, |data|))
    ensures Shaped(w) && FileData(w, c, size) == Overlay(FileData(v, c, size), offset, data[..Writable(v, c, size, offset, |data|)])
  {
    hide ChainBytes, Writable, Overlay, ChainOf;
    var n := Writable(v, c, size, offset, |data|);
    WritableFits(v, c, size, offset, |data|);
    OverlayTake(ChainBytes(v, c), size, offset, data[..n]);
  }

  /** Each byte of it is the written one inside the written range and the old one outside. */
  lemma OverlayAt(d: seq<Byte>, offset: nat, b: seq<Byte>, i: nat)
    requires i < |d| && (b == [] || offset + |b| <= |d|)
    ensures |Overlay(d, offset, b)| == |d|
    ensures Overlay(d, offset, b)[i] == if offset <= i < offset + |b| then b[i - offset] else d[i]
  {}

  /** The volume after a write through a handle, and what a read through the same handle then returns, at any offset and
      for any count. */
  lemma ReadOverWrite(v: Vol, w: Vol, c: nat, size: nat, offset: nat, data: seq<Byte>, at: nat, count: nat)
    requires Shaped(v) && Readable(v, c, size) && Written(v, w, c, offset, data, Writable(v, c, size, offset, |data|))
    ensures Shaped(w) && Readable(w, c, size)
    ensures Slice(FileData(w, c, size), at, count)
         == Slice(Overlay(FileData(v, c, size), offset, data[..Writable(v, c, size, offset, |data|)]), at, count)
  {
    hide Slice, FileData, Writable, Overlay, ChainOf, IsChain;
    WrittenShape(v, w, c, offset, data, Writable(v, c, size, offset, |data|));
    WrittenData(v, w, c, size, offset, data);
  }
}
