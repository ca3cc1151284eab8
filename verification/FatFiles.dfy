/** Reading and writing at byte offsets inside a chain: what one chunk of one sector contributes. */
module FatFiles {
  import opened Bytes
  import opened FatTable
  import opened FatArea
  import opened FatVolume

  /** The driver compares the bytes still to copy as a signed 32-bit number. */
  function ToCopy(left: nat, inCluster: nat): nat {
    var n := left % 0x1_0000_0000;
    if n < 0x8000_0000 && n > inCluster then inCluster else n
  }

  /** The comparison clips to the cluster exactly for counts below 2^31. */
  lemma ToCopyClips(left: nat, inCluster: nat)
    requires left < 0x1_0000_0000 && inCluster < 0x8000_0000
    ensures ToCopy(left, inCluster) == Min(left, inCluster) <==> left < 0x8000_0000
    ensures left >= 0x8000_0000 ==> ToCopy(left, inCluster) == left > inCluster
  {}

  /** Byte o of cluster number q of the chain lies in the chain's contents at this offset. */
  function OffsetOf(spc: nat, q: nat, o: nat): nat {
    512 * Times(q, spc) + o
  }

  lemma {:induction false} Times512(q: nat, spc: nat)
    ensures Times(q, 512 * spc) == 512 * Times(q, spc)
  {
    if q > 0 {
      Times512(q - 1, spc);
    }
  }

  lemma DivTimes(n: nat, d: nat)
    requires d > 0
    ensures n == Times(n / d, d) + n % d && n % d < d
  {
    TimesIs(n / d, d);
  }

  /** Splitting an offset into cluster number and offset within the cluster. */
  lemma OffsetSplit(spc: nat, offset: nat)
    requires spc > 0
    ensures offset == OffsetOf(spc, offset / (512 * spc), offset % (512 * spc))
    ensures offset % (512 * spc) < 512 * spc
  {
    DivTimes(offset, 512 * spc);
    Times512(offset / (512 * spc), spc);
  }

  lemma SectorPiece(area: seq<Sector>, ss: seq<nat>, t: nat, o: nat, n: nat)
    requires Within(area, ss) && t < |ss| && o + n <= 512
    ensures Contents(area, ss)[512 * t + o..512 * t + o + n] == area[ss[t]][o..o + n]
  {
    var full := Contents(area, ss);
    var p := 512 * t + o;
    forall i | p <= i < p + n
      ensures full[i] == area[ss[t]][i - 512 * t]
    {
      ContentsAt(area, ss, i);
    }
  }

  lemma SpliceInside(full: seq<Byte>, t: nat, s: seq<Byte>, o: nat, b: seq<Byte>)
    requires 512 * t + 512 <= |full| && s == full[512 * t..512 * t + 512] && o + |b| <= 512
    ensures Splice(full, 512 * t, Splice(s, o, b)) == Splice(full, 512 * t + o, b)
  {}

  lemma PieceWritten(area: seq<Sector>, ss: seq<nat>, t: nat, o: nat, b: seq<Byte>)
    requires Within(area, ss) && Distinct(ss) && t < |ss| && o + |b| <= 512
    ensures Contents(area[ss[t] := Splice(area[ss[t]], o, b)], ss) == Splice(Contents(area, ss), 512 * t + o, b)
  {
    ContentsUpdate(area, ss, t, Splice(area[ss[t]], o, b));
    SectorPiece(area, ss, t, 0, 512);
    SpliceInside(Contents(area, ss), t, area[ss[t]], o, b);
  }

  /** Overwriting a piece of one sector overwrites that piece of the contents. */
  lemma ChunkWritten(area: seq<Sector>, spc: nat, cs: seq<nat>, q: nat, o: nat, b: seq<Byte>)
    requires Numbers(cs) && spc > 0 && Distinct(cs) && Within(area, Secs(spc, cs)) && q < |cs| && o < 512 * spc && |b| <= 512 - o % 512
    ensures SectorOf(spc, cs[q], o / 512) < |area|
    ensures var x := SectorOf(spc, cs[q], o / 512);
      && x in Secs(spc, cs) && OffsetOf(spc, q, o) + |b| <= |Contents(area, Secs(spc, cs))|
      && Contents(area[x := Splice(area[x], o % 512, b)], Secs(spc, cs))
         == Splice(Contents(area, Secs(spc, cs)), OffsetOf(spc, q, o), b)
  {
    hide Contents, Secs, SectorOf, Times, Splice, Distinct;
    SecsAt(spc, cs, q, o / 512);
    SecsDistinct(spc, cs);
    PieceWritten(area, Secs(spc, cs), Times(q, spc) + o / 512, o % 512, b);
  }

  /** What a read of `count` bytes at `offset` returns. */
  function Slice(data: seq<Byte>, offset: nat, count: nat): seq<Byte> {
    Take(Drop(data, offset), count)
  }

  // ----- file handles -----

  /** A file handle: its chain is a whole chain, unless it is empty. */
  ghost predicate Readable(v: Vol, c: nat, size: nat)
    requires Shaped(v)
  {
    size < 0x1_0000_0000 && (size == 0 || (InRange(v.fat, c) && IsChain(v.fat, ChainOf(v.fat, c))))
  }

  /** What a file handle reads: its chain's bytes up to its size. */
  ghost function FileData(v: Vol, c: nat, size: nat): seq<Byte>
    requires Shaped(v)
  {
    Take(ChainBytes(v, c), size)
  }

  // ----- overwriting in place -----

  /** v is v0 with the first w bytes of data written over the chain's bytes from `offset` on, and nothing else changed. */
  ghost predicate Written(v0: Vol, v: Vol, start: nat, offset: nat, data: seq<Byte>, w: nat) {
    && Shaped(v0) && |v.area| == |v0.area| && v == v0.(area := v.area)
    && (forall x :: 0 <= x < |v0.area| && x !in Secs(v0.spc, ChainOf(v0.fat, start)) ==> v.area[x] == v0.area[x])
    && w <= |data| && (w > 0 ==> offset + w <= |ChainBytes(v0, start)|)
    && ChainBytes(v, start) == Overlay(ChainBytes(v0, start), offset, data[..w])
  }

  function Overlay(full: seq<Byte>, offset: nat, b: seq<Byte>): seq<Byte> {
    if offset + |b| <= |full| then Splice(full, offset, b) else full
  }

  lemma WrittenStarts(v: Vol, start: nat, offset: nat, data: seq<Byte>)
    requires Shaped(v)
    ensures Written(v, v, start, offset, data, 0)
  {
    assert data[..0] == [];
  }

  lemma OverlayStep(full: seq<Byte>, offset: nat, data: seq<Byte>, w: nat, n: nat)
    requires w + n <= |data| && offset + w + n <= |full|
    ensures |Overlay(full, offset, data[..w])| == |full|
    ensures Splice(Overlay(full, offset, data[..w]), offset + w, data[w..w + n]) == Overlay(full, offset, data[..w + n])
  {}

  lemma WrittenShape(v0: Vol, v: Vol, start: nat, offset: nat, data: seq<Byte>, w: nat)
    requires Written(v0, v, start, offset, data, w)
    ensures Shaped(v0) && v.fat == v0.fat && v.spc == v0.spc && |v.area| == |v0.area|
  {}

  /** How many bytes a write at `offset` stores: it neither extends the file nor leaves the chain. */
  ghost function Writable(v: Vol, start: nat, size: nat, offset: nat, len: nat): nat
    requires Shaped(v)
  {
    var room := Min(size - offset, |ChainBytes(v, start)| - offset);
    if room <= 0 then 0 else Min(len, room)
  }
}
