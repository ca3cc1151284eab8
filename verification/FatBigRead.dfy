/** Reads of 2^31 bytes and more: the driver then copies consecutive sectors, wherever the chain leads. */
module FatBigRead {
  import opened Bytes
  import opened FatTable
  import opened FatArea
  import opened FatVolume
  import opened FatFiles

  /** n bytes from byte o of sector x on, sector after sector, as far as the disk goes. */
  function RawRead(area: seq<Sector>, x: nat, o: nat, n: nat): seq<Byte> {
    Slice(Flatten(area), 512 * x + o, n)
  }

  /** The length that a read asks for, clipped to the file. */
  function Clipped(size: nat, offset: nat, count: nat): nat {
    if offset >= size then 0 else Min(count, size - offset)
  }

  /** The chain index of the cluster that holds byte `offset`. */
  function Index(spc: nat, offset: nat): nat
    requires spc > 0
    decreases offset
  {
    if offset < 512 * spc then 0 else 1 + Index(spc, offset - 512 * spc)
  }

  /** The place of byte `offset` within that cluster. */
  function Inner(spc: nat, offset: nat): (o: nat)
    requires spc > 0
    ensures o < 512 * spc
    decreases offset
  {
    if offset < 512 * spc then offset else Inner(spc, offset - 512 * spc)
  }

  /** What a read returns: below 2^31 bytes the data of the file, from there on the consecutive sectors that start at
      the place of the first byte. */
  ghost function ReadResult(v: Vol, start: nat, size: nat, offset: nat, count: nat): seq<Byte>
    requires Shaped(v)
  {
    var cs, q := ChainOf(v.fat, start), Index(v.spc, offset);
    if Clipped(size, offset, count) < 0x8000_0000 then Slice(FileData(v, start, size), offset, count)
    else if q >= |cs| then []
    else RawRead(v.area, SectorOf(v.spc, cs[q], 0), Inner(v.spc, offset), Clipped(size, offset, count))
  }

  // ----- bytes of the area and of the chain -----

  lemma RawAt(area: seq<Sector>, x: nat, o: nat, n: nat, i: nat)
    requires i < |RawRead(area, x, o, n)|
    ensures var p := 512 * x + o + i;
      p / 512 < |area| && RawRead(area, x, o, n)[i] == area[p / 512][p % 512]
  {
    assert |Flatten(area)| == 512 * |area|;
    assert 512 * x + o <= |Flatten(area)| && i < |Flatten(area)[512 * x + o..]|;
    FlattenAt(area, 512 * x + o + i);
  }

  lemma RawLength(area: seq<Sector>, x: nat, o: nat, n: nat)
    ensures |RawRead(area, x, o, n)| == if 512 * x + o >= 512 * |area| then 0 else Min(n, 512 * |area| - (512 * x + o))
  {}

  /** Byte o of cluster number j of the chain. */
  lemma ChainAt(v: Vol, start: nat, j: nat, o: nat)
    requires Shaped(v) && j < |ChainOf(v.fat, start)| && o < 512 * v.spc
    ensures var x := SectorOf(v.spc, ChainOf(v.fat, start)[j], 0) + o / 512;
      && OffsetOf(v.spc, j, o) < |ChainBytes(v, start)| && x < |v.area|
      && ChainBytes(v, start)[OffsetOf(v.spc, j, o)] == v.area[x][o % 512]
  {
    hide Contents, Secs, Times, ChainOf, Distinct;
    var cs := ChainOf(v.fat, start);
    var ss := Sectors(v, cs);
    SecsAt(v.spc, cs, j, o / 512);
    var p := OffsetOf(v.spc, j, o);
    assert p / 512 == Times(j, v.spc) + o / 512 && p % 512 == o % 512;
    assert ss == Secs(v.spc, cs) && p < 512 * |ss|;
    ContentsAt(v.area, ss, p);
  }

  /** Inside one cluster the consecutive sectors are the chain's. */
  lemma RawInCluster(v: Vol, start: nat, q: nat, from: nat, n: nat)
    requires Shaped(v) && q < |ChainOf(v.fat, start)| && from + n <= 512 * v.spc
    ensures var p := OffsetOf(v.spc, q, from);
      && p + n <= |ChainBytes(v, start)|
      && RawRead(v.area, SectorOf(v.spc, ChainOf(v.fat, start)[q], 0), from, n) == ChainBytes(v, start)[p..p + n]
  {
    hide ChainBytes, ChainOf, Times, Flatten, RawRead;
    var x := SectorOf(v.spc, ChainOf(v.fat, start)[q], 0);
    var p, r := OffsetOf(v.spc, q, from), RawRead(v.area, x, from, n);
    RawLength(v.area, x, from, n);
    if n > 0 {
      ChainAt(v, start, q, from + n - 1);
    } else {
      ChainEnd(v, start, q, from);
    }
    assert |r| == n;
    forall i | 0 <= i < n ensures r[i] == ChainBytes(v, start)[p + i] {
      RawAt(v.area, x, from, n, i);
      ChainAt(v, start, q, from + i);
      assert (512 * x + from + i) / 512 == x + (from + i) / 512 && (512 * x + from + i) % 512 == (from + i) % 512;
    }
  }

  lemma ChainEnd(v: Vol, start: nat, q: nat, o: nat)
    requires Shaped(v) && q < |ChainOf(v.fat, start)| && o <= 512 * v.spc
    ensures OffsetOf(v.spc, q, o) <= |ChainBytes(v, start)|
    ensures SectorOf(v.spc, ChainOf(v.fat, start)[q], 0) + v.spc <= |v.area|
  {
    hide ChainOf, ChainBytes, Times;
    ChainAt(v, start, q, 512 * v.spc - 1);
  }

  // ----- the copy loop -----

  /** One more piece of a sector. */
  lemma RawGrows(area: seq<Sector>, x: nat, o: nat, n: nat, k: nat)
    requires |RawRead(area, x, o, n)| == n && x + (o + n) / 512 < |area| && k <= 512 - (o + n) % 512
    ensures var i := (o + n) % 512; RawRead(area, x, o, n + k) == RawRead(area, x, o, n) + area[x + (o + n) / 512][i..i + k]
    ensures |RawRead(area, x, o, n + k)| == n + k
  {
    hide Flatten, RawRead;
    var r, t, s := RawRead(area, x, o, n), RawRead(area, x, o, n + k), area[x + (o + n) / 512];
    RawLength(area, x, o, n + k);
    RawLength(area, x, o, n);
    assert |t| == n + k;
    forall j | 0 <= j < n + k ensures t[j] == if j < n then r[j] else s[(o + n) % 512 + (j - n)] {
      RawAt(area, x, o, n + k, j);
      if j < n {
        RawAt(area, x, o, n, j);
      } else {
        assert (512 * x + o + j) / 512 == x + (o + n) / 512 && (512 * x + o + j) % 512 == (o + n) % 512 + (j - n);
      }
    }
  }

  /** At the end of the disk the copy stops. */
  lemma RawStops(area: seq<Sector>, x: nat, o: nat, n: nat, count: nat)
    requires |RawRead(area, x, o, n)| == n <= count && x + (o + n) / 512 >= |area|
    ensures RawRead(area, x, o, count) == RawRead(area, x, o, n)
  {
    hide Flatten, RawRead;
    var r, t := RawRead(area, x, o, n), RawRead(area, x, o, count);
    RawLength(area, x, o, n);
    RawLength(area, x, o, count);
    assert |t| == n;
    forall j | 0 <= j < n ensures t[j] == r[j] {
      RawAt(area, x, o, count, j);
      RawAt(area, x, o, n, j);
    }
  }

  lemma RawNone(area: seq<Sector>, x: nat, o: nat)
    ensures RawRead(area, x, o, 0) == []
  {}

  /** A small read and a large one, by cases. */
  lemma ResultIs(v: Vol, start: nat, size: nat, offset: nat, count: nat, q: nat, o: nat)
    requires Shaped(v) && offset == OffsetOf(v.spc, q, o) && o < 512 * v.spc
    ensures Clipped(size, offset, count) < 0x8000_0000 ==>
              ReadResult(v, start, size, offset, count) == Slice(FileData(v, start, size), offset, count)
    ensures Clipped(size, offset, count) >= 0x8000_0000 && q >= |ChainOf(v.fat, start)| ==> ReadResult(v, start, size, offset, count) == []
    ensures Clipped(size, offset, count) >= 0x8000_0000 && q < |ChainOf(v.fat, start)| ==>
              ReadResult(v, start, size, offset, count)
              == RawRead(v.area, SectorOf(v.spc, ChainOf(v.fat, start)[q], 0), o, Clipped(size, offset, count))
  {
    hide ChainOf, FileData, Slice, RawRead, SectorOf, Times;
    IndexUnique(v.spc, q, o);
  }

  // ----- when the large reads are right -----

  /** The clusters from number q up to m lie one after the other. */
  predicate Contiguous(cs: seq<nat>, q: nat, m: nat) {
    m <= |cs| && forall j :: q <= j < m ==> cs[j] == cs[q] + (j - q)
  }

  /** One past the chain index of the last cluster that a read of n bytes touches. */
  function Past(spc: nat, offset: nat, n: nat): nat
    requires spc > 0 && n > 0
  {
    Index(spc, offset + n - 1) + 1
  }

  lemma SectorLater(spc: nat, c: nat, k: nat)
    requires c >= 2
    ensures SectorOf(spc, c + k, 0) == SectorOf(spc, c, 0) + Times(k, spc)
  {
    TimesIs(c + k - 2, spc);
    TimesIs(c - 2, spc);
    TimesIs(k, spc);
    assert (c + k - 2) * spc == (c - 2) * spc + k * spc;
  }

  lemma {:induction false} IndexIs(spc: nat, p: nat)
    requires spc > 0
    ensures p == OffsetOf(spc, Index(spc, p), Inner(spc, p))
    decreases p
  {
    if p >= 512 * spc { IndexIs(spc, p - 512 * spc); }
  }

  lemma {:induction false} IndexUnique(spc: nat, q: nat, o: nat)
    requires spc > 0 && o < 512 * spc
    ensures Index(spc, OffsetOf(spc, q, o)) == q && Inner(spc, OffsetOf(spc, q, o)) == o
    decreases q
  {
    if q > 0 {
      assert OffsetOf(spc, q, o) - 512 * spc == OffsetOf(spc, q - 1, o);
      IndexUnique(spc, q - 1, o);
    }
  }

  lemma {:induction false} IndexGrows(spc: nat, a: nat, b: nat)
    requires spc > 0 && a <= b
    ensures Index(spc, a) <= Index(spc, b)
    decreases a
  {
    if a >= 512 * spc { IndexGrows(spc, a - 512 * spc, b - 512 * spc); }
  }

  /** Where byte p of the file lies when counted from the sector of cluster number q on, sector after sector. */
  lemma RawPlace(spc: nat, c: nat, q: nat, j: nat, from: nat, o: nat, p: nat, offset: nat)
    requires spc > 0 && c >= 2 && q <= j && offset == OffsetOf(spc, q, from) && p == OffsetOf(spc, j, o) && offset <= p
    ensures 512 * SectorOf(spc, c, 0) + from + (p - offset) == 512 * SectorOf(spc, c + (j - q), 0) + o
  {
    SectorLater(spc, c, j - q);
    TimesSum(q, j - q, spc);
  }

  lemma TimesSum(a: nat, b: nat, n: nat)
    ensures Times(a + b, n) == Times(a, n) + Times(b, n)
  {
    TimesIs(a + b, n);
    TimesIs(a, n);
    TimesIs(b, n);
    assert (a + b) * n == a * n + b * n;
  }

  /** On clusters that lie one after the other the copied bytes are the file's. */
  lemma ContiguousByte(v: Vol, start: nat, q: nat, from: nat, n: nat, i: nat)
    requires Shaped(v) && q < |ChainOf(v.fat, start)| && from < 512 * v.spc && i < n
    requires var m := Index(v.spc, OffsetOf(v.spc, q, from) + i) + 1;
             q < m && Contiguous(ChainOf(v.fat, start), q, m)
    ensures var x, p := SectorOf(v.spc, ChainOf(v.fat, start)[q], 0), OffsetOf(v.spc, q, from) + i;
      && p < |ChainBytes(v, start)| && 512 * x + from + i < 512 * |v.area|
      && (i < |RawRead(v.area, x, from, n)| ==> RawRead(v.area, x, from, n)[i] == ChainBytes(v, start)[p])
  {
    hide ChainBytes, ChainOf, Times, Flatten, RawRead, Index, Inner, OffsetOf, SectorOf;
    var cs := ChainOf(v.fat, start);
    var p := OffsetOf(v.spc, q, from) + i;
    var j, o := Index(v.spc, p), Inner(v.spc, p);
    IndexIs(v.spc, p);
    ChainAt(v, start, j, o);
    RawPlace(v.spc, cs[q], q, j, from, o, p, p - i);
    var s := SectorOf(v.spc, cs[j], 0);
    assert (512 * s + o) / 512 == s + o / 512 && (512 * s + o) % 512 == o % 512;
    if i < |RawRead(v.area, SectorOf(v.spc, cs[q], 0), from, n)| {
      RawAt(v.area, SectorOf(v.spc, cs[q], 0), from, n, i);
    }
  }

  lemma ContiguousRight(v: Vol, start: nat, size: nat, offset: nat, count: nat)
    requires Shaped(v) && size <= |ChainBytes(v, start)| && Clipped(size, offset, count) >= 0x8000_0000
    requires Contiguous(ChainOf(v.fat, start), Index(v.spc, offset), Past(v.spc, offset, Clipped(size, offset, count)))
    ensures ReadResult(v, start, size, offset, count) == Slice(FileData(v, start, size), offset, count)
  {
    hide ChainBytes, ChainOf, Times, Flatten, RawRead, Index, Inner, OffsetOf, SectorOf, Contiguous;
    var n, q, from := Clipped(size, offset, count), Index(v.spc, offset), Inner(v.spc, offset);
    var cs := ChainOf(v.fat, start);
    IndexIs(v.spc, offset);
    IndexGrows(v.spc, offset, offset + n - 1);
    ContiguousPart(cs, q, Past(v.spc, offset, n), q + 1);
    var x := SectorOf(v.spc, cs[q], 0);
    var r := RawRead(v.area, x, from, n);
    ContiguousByte(v, start, q, from, n, n - 1);
    RawLength(v.area, x, from, n);
    assert |r| == n;
    forall i | 0 <= i < n ensures r[i] == ChainBytes(v, start)[offset + i] {
      IndexGrows(v.spc, offset, offset + i);
      IndexGrows(v.spc, offset + i, offset + n - 1);
      ContiguousPart(cs, q, Past(v.spc, offset, n), Index(v.spc, offset + i) + 1);
      ContiguousByte(v, start, q, from, n, i);
    }
    assert r == Slice(FileData(v, start, size), offset, count);
  }

  lemma ContiguousPart(cs: seq<nat>, q: nat, m: nat, k: nat)
    requires Contiguous(cs, q, m) && k <= m
    ensures Contiguous(cs, q, k) && m <= |cs|
  {}

  // ----- and when they are not -----

  /** An area of zeros but for one sector of ones. */
  function Marked(n: nat, x: nat): (area: seq<Sector>)
    ensures |area| == n && forall i :: 0 <= i < n ==> area[i] == if i == x then seq(512, _ => 1) else seq(512, _ => 0)
  {
    seq(n, i => if i == x then seq(512, _ => 1) else seq(512, _ => 0))
  }

  /** The data area that shows the gap: the first sector of cluster number j is marked, and the copy takes another one. */
  lemma GapShows(v: Vol, start: nat, size: nat, offset: nat, count: nat, j: nat)
    requires Shaped(v) && size <= |ChainBytes(v, start)| && Clipped(size, offset, count) >= 0x8000_0000
    requires var cs, q := ChainOf(v.fat, start), Index(v.spc, offset);
             q < j < Past(v.spc, offset, Clipped(size, offset, count)) && j < |cs| && cs[j] != cs[q] + (j - q)
    ensures var w := v.(area := Marked(|v.area|, SectorOf(v.spc, ChainOf(v.fat, start)[j], 0)));
      Shaped(w) && ReadResult(w, start, size, offset, count) != Slice(FileData(w, start, size), offset, count)
  {
    hide ChainBytes, ChainOf, Times, Flatten, RawRead, Index, Inner, OffsetOf, SectorOf;
    var n, q, from := Clipped(size, offset, count), Index(v.spc, offset), Inner(v.spc, offset);
    var cs := ChainOf(v.fat, start);
    var s := SectorOf(v.spc, cs[j], 0);
    var w := v.(area := Marked(|v.area|, s));
    SameSize(v, w, start);
    IndexIs(v.spc, offset);
    var p := OffsetOf(v.spc, j, 0);
    GapOffset(v.spc, offset, n, j);
    ChainAt(w, start, j, 0);
    RawPlace(v.spc, cs[q], q, j, from, 0, p, offset);
    OtherSector(v.spc, cs[q] + (j - q), cs[j]);
    var x, i := SectorOf(v.spc, cs[q], 0), p - offset;
    var r := RawRead(w.area, x, from, n);
    if i < |r| {
      RawAt(w.area, x, from, n, i);
      MissedByte(r, FileData(w, start, size), ChainBytes(w, start), size, offset, count, i);
    } else {
      ShortRead(r, FileData(w, start, size), ChainBytes(w, start), size, offset, count, i);
    }
  }

  lemma SameSize(v: Vol, w: Vol, start: nat)
    requires Shaped(v) && w.fat == v.fat && w.spc == v.spc && |w.area| == |v.area|
    ensures Shaped(w) && |ChainBytes(w, start)| == |ChainBytes(v, start)|
  {
    hide ChainOf, Times, Contents;
  }

  /** The first byte of cluster number j is among the bytes read. */
  lemma GapOffset(spc: nat, offset: nat, n: nat, j: nat)
    requires spc > 0 && n > 0 && Index(spc, offset) < j < Past(spc, offset, n)
    ensures offset <= OffsetOf(spc, j, 0) < offset + n
  {
    hide Times, Index, Inner;
    var last := offset + n - 1;
    IndexIs(spc, offset);
    IndexIs(spc, last);
    TimesGrows(Index(spc, offset) + 1, j, spc);
    TimesGrows(j, Index(spc, last), spc);
    TimesSum(Index(spc, offset), 1, spc);
    TimesOne(spc);
  }

  lemma TimesOne(n: nat)
    ensures Times(1, n) == n
  {
    assert Times(0, n) == 0;
  }

  lemma OtherSector(spc: nat, c: nat, d: nat)
    requires spc > 0 && c >= 2 && d >= 2 && c != d
    ensures SectorOf(spc, c, 0) != SectorOf(spc, d, 0)
  {
    HomeOfSector(spc, c, 0);
    HomeOfSector(spc, d, 0);
  }

  lemma MissedByte(r: seq<Byte>, data: seq<Byte>, full: seq<Byte>, size: nat, offset: nat, count: nat, i: nat)
    requires data == Take(full, size) && size <= |full| && i < Clipped(size, offset, count) && i < |r|
    requires offset + i < |full| && r[i] != full[offset + i]
    ensures r != Slice(data, offset, count)
  {
    assert Slice(data, offset, count)[i] == full[offset + i];
  }

  lemma ShortRead(r: seq<Byte>, data: seq<Byte>, full: seq<Byte>, size: nat, offset: nat, count: nat, i: nat)
    requires data == Take(full, size) && size <= |full| && i < Clipped(size, offset, count) && |r| <= i
    ensures r != Slice(data, offset, count)
  {
    assert |Slice(data, offset, count)| == Clipped(size, offset, count);
  }

  /** A read of 2^31 bytes or more is right, whatever the data area holds, exactly when the clusters it covers lie one
      after the other on the disk. */
  lemma BigReadIff(v: Vol, start: nat, size: nat, offset: nat, count: nat)
    requires Shaped(v) && size <= |ChainBytes(v, start)| && Clipped(size, offset, count) >= 0x8000_0000
    ensures (forall area: seq<Sector> :: |area| == |v.area| ==>
               var w := v.(area := area);
               Shaped(w) && ReadResult(w, start, size, offset, count) == Slice(FileData(w, start, size), offset, count))
       <==> Contiguous(ChainOf(v.fat, start), Index(v.spc, offset), Past(v.spc, offset, Clipped(size, offset, count)))
  {
    hide ChainBytes, ChainOf, ReadResult, Slice, FileData, Index, SectorOf;
    var cs, q := ChainOf(v.fat, start), Index(v.spc, offset);
    var m := Past(v.spc, offset, Clipped(size, offset, count));
    PastInChain(v, start, size, offset, count);
    if Contiguous(cs, q, m) {
      forall area: seq<Sector> | |area| == |v.area|
        ensures var w := v.(area := area);
          Shaped(w) && ReadResult(w, start, size, offset, count) == Slice(FileData(w, start, size), offset, count)
      {
        SameSize(v, v.(area := area), start);
        ContiguousRight(v.(area := area), start, size, offset, count);
      }
    } else {
      var j :| q <= j < m && cs[j] != cs[q] + (j - q);
      GapShows(v, start, size, offset, count, j);
      var area := Marked(|v.area|, SectorOf(v.spc, cs[j], 0));
      assert |area| == |v.area|;
    }
  }

  lemma PastInChain(v: Vol, start: nat, size: nat, offset: nat, count: nat)
    requires Shaped(v) && size <= |ChainBytes(v, start)| && Clipped(size, offset, count) > 0
    ensures Past(v.spc, offset, Clipped(size, offset, count)) <= |ChainOf(v.fat, start)|
    ensures Index(v.spc, offset) < Past(v.spc, offset, Clipped(size, offset, count))
  {
    hide ChainOf, Times, Contents;
    var last := offset + Clipped(size, offset, count) - 1;
    var j, k := Index(v.spc, last), |ChainOf(v.fat, start)|;
    IndexIs(v.spc, last);
    IndexGrows(v.spc, offset, last);
    if j >= k { TimesGrows(k, j, v.spc); }
  }
}
