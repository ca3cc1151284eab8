/** The FAT32 driver: the loops over sectors, clusters and directory slots, each proved to do what the
    volume operations say. */
module FatDriver {
  import opened Bytes
  import opened FatTable
  import opened FatArea
  import opened FatNames
  import opened FatDirectory
  import opened FatVolume
  import opened FatSteps
  import opened FatOps
  import opened FatRuns
  import opened FatLayout
  import opened FatFiles
  import opened FatPatch
  import opened FatBigRead
  import opened FatLoops
  import opened FatCells

  class Driver {
    const g: Geometry
    var disk: seq<Sector>

    ghost predicate Valid()
      reads this
    {
      Laid(g, disk) && Mirrored(g, disk)
    }

    ghost function Volume(): (v: Vol)
      requires Valid()
      reads this
      ensures Shaped(v) && |v.fat| == 128 * g.sectorsPerFat && v.spc == g.sectorsPerCluster && v.root == g.rootCluster
    {
      View(g, disk)
    }

    /** A driver on a disk that holds a volume of that geometry, both tables alike. */
    constructor (geometry: Geometry, sectors: seq<Sector>)
      requires Laid(geometry, sectors) && Mirrored(geometry, sectors)
      ensures g == geometry && disk == sectors && Valid()
    {
      g, disk := geometry, sectors;
    }

    // fat32_next_cluster
    method NextCluster(cluster: nat) returns (entry: nat)
      requires Valid() && cluster < |Volume().fat|
      ensures entry == Next(Volume().fat, cluster)
    {
      TableAt(g, disk, cluster);
      hide View, Table, Le32, Laid;
      var fatOffset := cluster * 4;
      var fatSector := g.fatLba + fatOffset / 512;
      var byteOffset := fatOffset % 512;
      var buf: Sector := disk[fatSector];
      entry := Le32(buf, byteOffset) % 0x1000_0000;
    }

    // fat32_write_fat
    method WriteFat(cluster: nat, value: nat)
      requires Valid() && cluster < |Volume().fat|
      modifies this
      ensures Valid() && Volume() == old(Volume()).(fat := SetLink(old(Volume()).fat, cluster, value % 0x1000_0000))
    {
      hide View, Table, SectorRelinked, Mirrored, Laid, Le32;
      LinkWritten(g, disk, cluster, value);
      TableAt(g, disk, cluster);
      var fatOffset := cluster * 4;
      var fatSector := g.fatLba + fatOffset / 512;
      var byteOffset := fatOffset % 512;
      var tmp: Sector := disk[fatSector];
      tmp := SectorRelinked(tmp, byteOffset / 4, value);
      disk := disk[fatSector := tmp];
      if g.numFats > 1 {
        disk := disk[fatSector + g.sectorsPerFat := tmp];
      }
    }

    // fat32_alloc_cluster
    method AllocCluster() returns (cluster: nat)
      requires Valid()
      modifies this
      ensures Valid()
      ensures cluster == if FreeList(old(Volume().fat)) == [] then 0 else FreeList(old(Volume().fat))[0]
      ensures Volume() == if cluster == 0 then old(Volume())
                          else old(Volume()).(fat := SetLink(old(Volume().fat), cluster, CLUSTER_EOC))
    {
      hide View, Table, SectorRelinked, Mirrored, FreeList, Le32;
      ghost var f := Volume().fat;
      var s := 0;
      while s < g.sectorsPerFat
        invariant s <= g.sectorsPerFat && disk == old(disk)
        invariant forall x :: 2 <= x < 128 * s ==> !IsFree(f, x)
      {
        var tmp: Sector := disk[g.fatLba + s];
        var e := 0;
        while e < 128
          invariant e <= 128 && disk == old(disk)
          invariant forall x :: 2 <= x < 128 * s + e ==> !IsFree(f, x)
        {
          var val := Le32(tmp, 4 * e) % 0x1000_0000;
          cluster := s * 128 + e;
          assert cluster / 128 == s && cluster % 128 == e;
          TableAt(g, disk, cluster);
          if cluster >= 2 && val == 0 {
            LowestFree(f, cluster);
            LinkWritten(g, disk, cluster, CLUSTER_EOC);
            tmp := SectorRelinked(tmp, e, CLUSTER_EOC);
            disk := disk[g.fatLba + s := tmp];
            if g.numFats > 1 {
              disk := disk[g.fatLba + g.sectorsPerFat + s := tmp];
            }
            return;
          }
          e := e + 1;
        }
        s := s + 1;
      }
      NoneFree(f);
      cluster := 0;
    }

    // fat32_free_cluster_chain
    method FreeClusterChain(start: nat)
      requires Valid() && LinksInRange(Volume().fat, start) && (start < |Volume().fat| || start >= CLUSTER_BAD)
      modifies this
      ensures Valid() && Volume() == FreeChain(old(Volume()), start)
    {
      hide View, Cleared, LinksInRange, ChainOf, Freeing, NonzeroFrom;
      ghost var f := Volume().fat;
      ghost var done: seq<nat> := [];
      ghost var avail := Clusters(f);
      FreeingStart(f, start);
      var cluster: nat := start;
      while cluster >= 2 && cluster < CLUSTER_BAD
        invariant Valid() && Freeing(f, start, done, avail, cluster) && AllInRange(f, done)
        invariant cluster < |f| || cluster >= CLUSTER_BAD
        invariant Volume() == old(Volume()).(fat := Cleared(f, done))
        decreases NonzeroFrom(Volume().fat, 2), if InRange(Volume().fat, cluster) then 1 else 0
      {
        FreeingStep(f, start, done, avail, cluster);
        NonzeroDrops(Volume().fat, cluster, 2);
        var next := NextCluster(cluster);
        WriteFat(cluster, 0);
        if cluster in avail {
          done, avail := done + [cluster], avail - {cluster};
        }
        FreeingRange(f, start, done, avail, next);
        cluster := next;
      }
      FreeingDone(f, start, done, avail, cluster);
    }

    method WriteData(x: nat, s: Sector)
      requires Valid() && x < |Volume().area|
      modifies this
      ensures Valid() && Volume() == old(Volume()).(area := old(Volume()).area[x := s])
    {
      DataWritten(g, disk, x, s);
      disk := disk[DataLba(g) + x := s];
    }

    method ReadData(x: nat) returns (s: Sector)
      requires Valid() && x < |Volume().area|
      ensures s == Volume().area[x]
    {
      s := disk[DataLba(g) + x];
    }

    // cluster_to_lba, counted from the first data sector
    method ClusterStart(cluster: nat) returns (x: nat)
      requires cluster >= 2
      ensures x == SectorOf(g.sectorsPerCluster, cluster, 0)
    {
      TimesIs(cluster - 2, g.sectorsPerCluster);
      x := (cluster - 2) * g.sectorsPerCluster;
    }

    // fat32_write_cluster_chain
    method WriteClusterChain(content: seq<Byte>) returns (first: nat)
      requires Valid()
      modifies this
      ensures Valid() && Volume() == StoreChain(old(Volume()), content)
      ensures first == StoreResult(old(Volume()), |content|)
    {
      hide View, StoreAt, Linking, FreeList, Storing, ClustersNeeded, Taken, Rest, StoreChain, StoreResult, Laid, Mirrored, LinkOne;
      ghost var v0 := Volume();
      var len := |content|;
      var needed := NeededClusters(len);
      first := 0;
      var prev: nat := 0;
      var remaining := len;
      StoreStarts(v0, content);
      var c := 0;
      while c < needed
        invariant Valid() && c <= needed && remaining <= len && SameShape(v0, Volume())
        invariant StoreAt(v0, content, Volume(), c, prev, len - remaining)
        invariant prev < |Volume().fat| && c <= |Taken(v0, len)| && first == (if c == 0 then 0 else Taken(v0, len)[0])
      {
        ghost var v := Volume();
        var cl := AllocCluster();
        if cl == 0 {
          StoreStops(v0, content, Volume(), c, prev, len - remaining);
          return 0;
        }
        StoreLinks(v0, content, v, c, prev, len - remaining);
        if first == 0 { first := cl; }
        if prev != 0 { WriteFat(prev, cl); }
        assert Volume() == v.(fat := LinkOne(v.fat, prev, cl)) by { LinkOneIs(v.fat, prev, cl); }
        StoreOpens(v0, content, v, Volume(), c, prev, len - remaining);
        prev := cl;
        remaining := WriteCluster(cl, content, remaining, v0.area, Sectors(v0, Taken(v0, len)), Rest(v0, content, c + 1));
        StoreCloses(v0, content, Volume(), c + 1, prev, len - remaining);
        c := c + 1;
      }
      StoreStops(v0, content, Volume(), c, prev, len - remaining);
    }

    method NeededClusters(len: nat) returns (needed: nat)
      requires g.sectorsPerCluster >= 1
      ensures needed == ClustersNeeded(g.sectorsPerCluster, len)
    {
      var clusterSize := 512 * g.sectorsPerCluster;
      if len == 0 {
        needed := 1;
      } else {
        NeededIsCeiling(g.sectorsPerCluster, len);
        needed := (len + clusterSize - 1) / clusterSize;
      }
    }

    // the sector loop of fat32_write_cluster_chain
    method WriteCluster(cl: nat, content: seq<Byte>, before: nat, ghost area0: seq<Sector>, ghost ss: seq<nat>, ghost later: seq<nat>)
      returns (remaining: nat)
      requires Valid() && cl >= 2 && before <= |content|
      requires Storing(area0, ss, content, Volume().area, ClusterSectors(g.sectorsPerCluster, cl) + later, |content| - before)
      modifies this
      ensures Valid() && Volume() == old(Volume()).(area := Volume().area) && |Volume().area| == |old(Volume()).area|
      ensures remaining <= |content|
      ensures Storing(area0, ss, content, Volume().area, later, |content| - remaining)
    {
      hide View, Laid, Mirrored, Store, FirstSector;
      ghost var block := ClusterSectors(g.sectorsPerCluster, cl);
      assert block[0..] == block;
      remaining := before;
      var x := ClusterStart(cl);
      var s := 0;
      while s < g.sectorsPerCluster
        invariant Valid() && Volume() == old(Volume()).(area := Volume().area) && |Volume().area| == |old(Volume()).area|
        invariant s <= g.sectorsPerCluster && remaining <= |content|
        invariant Storing(area0, ss, content, Volume().area, block[s..] + later, |content| - remaining)
      {
        ghost var pending := block[s..] + later;
        assert pending[0] == block[s] == x + s && pending[1..] == block[s + 1..] + later;
        var chunk := if remaining > 512 then 512 else remaining;
        var off := |content| - remaining;
        StoringStep(area0, ss, content, Volume().area, pending, off, chunk);
        var tmp: Sector := FillSector(content, off, chunk);
        WriteData(x + s, tmp);
        remaining := remaining - chunk;
        s := s + 1;
      }
      assert block[s..] + later == later;
    }

    // memset and memcpy of one sector
    method FillSector(content: seq<Byte>, off: nat, chunk: nat) returns (tmp: Sector)
      requires off <= |content| && chunk == Min(512, |content| - off)
      ensures tmp == FirstSector(content[off..])
    {
      tmp := seq(512, _ => 0);
      if chunk > 0 {
        tmp := content[off..off + chunk] + tmp[chunk..];
      }
      assert Take(content[off..], 512) == content[off..off + chunk];
    }

    // cluster number and offset within the cluster
    method SplitOffset(offset: nat) returns (skip: nat, rest: nat)
      requires g.sectorsPerCluster > 0
      ensures offset == OffsetOf(g.sectorsPerCluster, skip, rest) && rest < 512 * g.sectorsPerCluster
    {
      OffsetSplit(g.sectorsPerCluster, offset);
      var clusterSize := 512 * g.sectorsPerCluster;
      skip, rest := offset / clusterSize, offset % clusterSize;
    }

    // the cluster skip of fat32_file_read and fat32_file_write
    method Skip(start: nat, skip: nat, ghost size: nat) returns (cluster: nat, ghost q: nat)
      requires Valid() && Readable(Volume(), start, size) && size > 0
      ensures At(Volume().fat, ChainOf(Volume().fat, start), q, cluster)
      ensures q == if skip < |ChainOf(Volume().fat, start)| then skip else |ChainOf(Volume().fat, start)|
    {
      hide View, IsChain, ChainOf, Laid, Mirrored, Distinct;
      ghost var cs := ChainOf(Volume().fat, start);
      cluster := start;
      q := 0;
      var i := 0;
      while i < skip
        invariant i == q <= skip && q < |cs| && cluster == cs[q]
      {
        AtNext(Volume().fat, cs, q);
        cluster := NextCluster(cluster);
        i, q := i + 1, q + 1;
        if cluster >= CLUSTER_BAD {
          return;
        }
      }
    }

    // the sector loop of fat32_file_read; reading past the end of the disk is an error of the drive
    method ReadRun(cluster: nat, from: nat, count: nat) returns (piece: seq<Byte>)
      requires Valid() && cluster >= 2
      ensures piece == RawRead(Volume().area, SectorOf(g.sectorsPerCluster, cluster, 0), from, count)
    {
      hide View, Laid, Mirrored, SectorOf, RawRead;
      ghost var v := Volume();
      var x := ClusterStart(cluster);
      piece := [];
      RawNone(v.area, x, from);
      var offset, toCopy: nat := from, count;
      while toCopy > 0
        invariant offset == from + |piece| && |piece| + toCopy == count
        invariant piece == RawRead(v.area, x, from, |piece|)
      {
        var sectorIndex, inSector := offset / 512, offset % 512;
        var avail := 512 - inSector;
        var chunk := if toCopy < avail then toCopy else avail;
        var onDisk := Exists(x + sectorIndex);
        if !onDisk {
          RawStops(v.area, x, from, |piece|, count);
          return;
        }
        RawGrows(v.area, x, from, |piece|, chunk);
        var sector := ReadData(x + sectorIndex);
        piece := piece + sector[inSector..inSector + chunk];
        offset := offset + chunk;
        toCopy := toCopy - chunk;
      }
    }

    // whether the drive has that sector
    method Exists(x: nat) returns (yes: bool)
      requires Valid()
      ensures yes == (x < |Volume().area|)
    {
      yes := DataLba(g) + x < |disk|;
    }

    // fat32_file_read
    method FileRead(start: nat, fileSize: nat, offset: nat, count: nat) returns (buf: seq<Byte>)
      requires Valid() && Readable(Volume(), start, fileSize)
      ensures buf == ReadResult(Volume(), start, fileSize, offset, count)
    {
      hide View, IsChain, ChainOf, ChainBytes, Times, Laid, Mirrored, ToCopy, Slice, OffsetOf, Reading, Distinct, ReadResult, RawRead, SectorOf;
      LaidBound(g, disk);
      buf := [];
      ghost var v, cs, full := Volume(), ChainOf(Volume().fat, start), ChainBytes(Volume(), start);
      var skip: nat, clusterOffset: nat := SplitOffset(offset);
      ResultIs(v, start, fileSize, offset, count, skip, clusterOffset);
      if offset >= fileSize {
        NothingToRead(full, fileSize, offset, count);
        return;
      }
      var remaining := fileSize - offset;
      var len := if count > remaining then remaining else count;
      var clusterSize := 512 * g.sectorsPerCluster;
      var cluster: nat, q := Skip(start, skip, fileSize);
      if cluster >= CLUSTER_BAD {
        BeyondChain(v, start, skip, clusterOffset);
        NothingToRead(full, fileSize, offset, count);
        return;
      }
      ghost var first := clusterOffset;
      ReadingStarts(v, start, offset, len, q, cluster, clusterOffset);
      ReadingAt(v, start, offset, len, q, cluster, clusterOffset, buf);
      while |buf| < len && cluster >= 2 && cluster < CLUSTER_BAD
        invariant Reading(v, start, offset, len, q, cluster, clusterOffset, buf)
        invariant |buf| <= len && q <= |cs| && clusterOffset < clusterSize
        invariant len >= 0x8000_0000 ==> buf == [] && q == skip && clusterOffset == first && 2 <= cluster < CLUSTER_BAD
        decreases |cs| - q, len - |buf|
      {
        ReadingAt(v, start, offset, len, q, cluster, clusterOffset, buf);
        ToCopyClips(len - |buf|, clusterSize - clusterOffset);
        var toCopy := ToCopy(len - |buf|, clusterSize - clusterOffset);
        var piece := ReadRun(cluster, clusterOffset, toCopy);
        if toCopy > clusterSize - clusterOffset {
          assert buf + piece == piece;
          buf := buf + piece;
          return;
        }
        assert len - |buf| < 0x8000_0000;
        RawInCluster(v, start, q, clusterOffset, toCopy);
        ReadingStep(v, start, offset, len, q, cluster, clusterOffset, buf, piece);
        buf := buf + piece;
        clusterOffset := clusterOffset + toCopy;
        if clusterOffset >= clusterSize {
          clusterOffset := 0;
          cluster := NextCluster(cluster);
          q := q + 1;
        }
      }
      ReadingDone(v, start, fileSize, offset, count, q, cluster, clusterOffset, buf);
    }

    // the sector loop of fat32_file_write
    method WriteInCluster(ghost v0: Vol, ghost start: nat, cluster: nat, ghost q: nat, from: nat, ghost offset: nat, data: seq<Byte>,
                          before: nat, len: nat) returns (w: nat)
      requires Valid() && before < len <= |data| && from < 512 * g.sectorsPerCluster
      requires Written(v0, Volume(), start, offset, data, before)
      requires q < |ChainOf(v0.fat, start)| && cluster == ChainOf(v0.fat, start)[q] && offset + before == OffsetOf(v0.spc, q, from)
      modifies this
      ensures Valid() && Written(v0, Volume(), start, offset, data, w)
      ensures w == Min(len, before + 512 * g.sectorsPerCluster - from)
    {
      hide View, ChainOf, Times, Laid, Mirrored, SectorOf, Distinct, Written, OffsetOf, Splice;
      WrittenShape(v0, Volume(), start, offset, data, before);
      var x := ClusterStart(cluster);
      w := before;
      var o := from;
      while w < len && o < 512 * g.sectorsPerCluster
        invariant Valid() && Written(v0, Volume(), start, offset, data, w)
        invariant before <= w <= len && o - from == w - before && o <= 512 * g.sectorsPerCluster
        decreases len - w
      {
        var sectorIndex, inSector := o / 512, o % 512;
        var avail := 512 - inSector;
        var chunk := if len - w > avail then avail else len - w;
        OffsetMoves(v0.spc, q, from, o - from);
        WrittenStep(v0, Volume(), start, offset, data, w, q, o, chunk);
        SectorAt(v0.spc, cluster, sectorIndex);
        var tmp: Sector := ReadData(x + sectorIndex);
        tmp := Splice(tmp, inSector, data[w..w + chunk]);
        WriteData(x + sectorIndex, tmp);
        w := w + chunk;
        o := o + chunk;
      }
    }

    // fat32_file_write
    method FileWrite(start: nat, fileSize: nat, offset: nat, data: seq<Byte>) returns (written: nat)
      requires Valid() && Readable(Volume(), start, fileSize)
      modifies this
      ensures Valid() && Written(old(Volume()), Volume(), start, offset, data, written)
      ensures written == Writable(old(Volume()), start, fileSize, offset, |data|)
    {
      hide View, IsChain, ChainOf, ChainBytes, Times, Laid, Mirrored, OffsetOf, Written, Distinct;
      LaidBound(g, disk);
      ghost var v0, cs := Volume(), ChainOf(Volume().fat, start);
      written := 0;
      WrittenStarts(v0, start, offset, data);
      if offset >= fileSize { return; }
      var len := |data|;
      if offset + len > fileSize { len := fileSize - offset; }
      var skip: nat, clusterOffset: nat := SplitOffset(offset);
      var cluster: nat, q := Skip(start, skip, fileSize);
      if cluster >= CLUSTER_BAD {
        BeyondChain(v0, start, skip, clusterOffset);
        return;
      }
      CapacityAt(v0, start, q, clusterOffset);
      while written < len && cluster >= 2 && cluster < CLUSTER_BAD
        invariant Valid() && Written(v0, Volume(), start, offset, data, written) && written <= len && offset + written <= |ChainBytes(v0, start)|
        invariant At(v0.fat, cs, q, cluster) && clusterOffset < 512 * g.sectorsPerCluster
        invariant written < len ==> offset + written == OffsetOf(v0.spc, q, clusterOffset)
        invariant q == |cs| ==> clusterOffset == 0
        decreases |cs| - q, len - written
      {
        WrittenShape(v0, Volume(), start, offset, data, written);
        AtNext(v0.fat, cs, q);
        OffsetMoves(v0.spc, q, clusterOffset, 512 * v0.spc - clusterOffset);
        CapacityAt(v0, start, q, 512 * v0.spc);
        written := WriteInCluster(v0, start, cluster, q, clusterOffset, offset, data, written, len);
        clusterOffset := 0;
        if written < len {
          WrittenShape(v0, Volume(), start, offset, data, written);
          cluster := NextCluster(cluster);
          q := q + 1;
        }
      }
      Capacity(v0, start);
    }

    // fat32_dir_iterate; the callback is told the sector counted from the first data sector
    method DirIterate<C>(cb: (C, Placed) -> (bool, C), ctx0: C) returns (ctx: C)
      requires Valid() && IsChain(Volume().fat, ChainOf(Volume().fat, g.rootCluster))
      ensures ctx == Scan(cb, ctx0, Places(Volume().area, RootSectors(Volume())))
    {
      hide View, IsChain, ChainOf, Times, Laid, Mirrored, Distinct, Scan, Places, RootSectors, Decode;
      LaidBound(g, disk);
      ghost var v, cs := Volume(), ChainOf(Volume().fat, g.rootCluster);
      ghost var all := Places(v.area, RootSectors(v));
      ctx := ctx0;
      ScanStarts(cb, ctx, all);
      RootCapacity(v);
      ChainStarts(v.fat, g.rootCluster);
      var cluster: nat := g.rootCluster;
      ghost var q := 0;
      while cluster >= 2 && cluster < CLUSTER_BAD
        invariant At(v.fat, cs, q, cluster)
        invariant 16 * Times(q, v.spc) <= |all| && Scan(cb, ctx0, all) == Scan(cb, ctx, all[16 * Times(q, v.spc)..])
        decreases |cs| - q
      {
        AtNext(v.fat, cs, q);
        var x := ClusterStart(cluster);
        var s := 0;
        while s < g.sectorsPerCluster
          invariant s <= g.sectorsPerCluster && 16 * (Times(q, v.spc) + s) <= |all|
          invariant Scan(cb, ctx0, all) == Scan(cb, ctx, all[16 * (Times(q, v.spc) + s)..])
        {
          RootSectorAt(v, q, s);
          var buf: Sector := ReadData(x + s);
          var e := 0;
          while e < 16
            invariant e <= 16 && 16 * (Times(q, v.spc) + s) + e <= |all|
            invariant Scan(cb, ctx0, all) == Scan(cb, ctx, all[16 * (Times(q, v.spc) + s) + e..])
          {
            PlaceAt(v, q, s, e);
            ScanStep(cb, ctx, all, 16 * (Times(q, v.spc) + s) + e);
            var (stop, next) := cb(ctx, Placed(Decode(buf, 32 * e), x + s, e));
            ctx := next;
            if stop { return; }
            e := e + 1;
          }
          s := s + 1;
        }
        TimesNext(q, v.spc);
        cluster := NextCluster(cluster);
        q := q + 1;
      }
      ScanEnds(cb, ctx, all, 16 * Times(q, v.spc));
    }

    // fat32_write_dir_entry
    method WriteDirEntry(x: nat, i: nat, e: DirEntry)
      requires Valid() && x < |Volume().area| && i < 16
      modifies this
      ensures Valid() && Volume() == PutSlot(old(Volume()), x, i, e)
    {
      hide View, Laid, Mirrored, EntryBytes;
      var tmp: Sector := ReadData(x);
      tmp := Splice(tmp, 32 * i, EntryBytes(e));
      WriteData(x, tmp);
    }

    // the free-slot search of fat32_create_file and fat32_mkdir
    method SearchFree() returns (found: bool, x: nat, i: nat)
      requires Valid() && Sound(Volume())
      ensures found <==> FirstFree(Slots(Volume()), 0) < |Slots(Volume())|
      ensures found ==> x == Place(Volume(), FirstFree(Slots(Volume()), 0)) && i == FirstFree(Slots(Volume()), 0) % 16
    {
      hide View, IsChain, ChainOf, Laid, Mirrored, Distinct, Decode, Scan, FirstFree;
      var ctx0 := Search(seq(11, _ => 0), true, false, 0, 0, ZERO_ENTRY);
      var ctx := DirIterate(SearchCallback, ctx0);
      FreeFound(Volume(), ctx0);
      found, x, i := ctx.found, ctx.sector, ctx.index;
    }

    // the name search of fat32_write_file and fat32_delete_file
    method SearchMatch(name: Text) returns (found: bool, x: nat, i: nat, e: DirEntry)
      requires Valid() && Sound(Volume())
      ensures var k := FirstMatch(Slots(Volume()), Encode(name), 0);
        && (found <==> k < |Slots(Volume())|)
        && (found ==> x == Place(Volume(), k) && i == k % 16 && e == Slots(Volume())[k])
    {
      hide View, IsChain, ChainOf, Laid, Mirrored, Distinct, Decode, Scan, FirstMatch, Encode;
      var raw8, raw3 := EncodeName(name);
      var ctx0 := Search(raw8 + raw3, false, false, 0, 0, ZERO_ENTRY);
      var ctx := DirIterate(SearchCallback, ctx0);
      MatchFound(Volume(), ctx0);
      found, x, i, e := ctx.found, ctx.sector, ctx.index, ctx.result;
    }

    /** A write through a handle and a read through the same handle, wherever the two overlap. */
    method WriteThenRead(start: nat, fileSize: nat, offset: nat, data: seq<Byte>, at: nat, count: nat)
      returns (written: nat, buf: seq<Byte>)
      requires Valid() && Readable(Volume(), start, fileSize)
      modifies this
      ensures Valid() && written == Writable(old(Volume()), start, fileSize, offset, |data|) <= |data|
      ensures buf == ReadResult(Volume(), start, fileSize, at, count)
      ensures Clipped(fileSize, at, count) < 0x8000_0000 ==>
                buf == Slice(Overlay(FileData(old(Volume()), start, fileSize), offset, data[..written]), at, count)
    {
      hide View, Laid, Mirrored, Written, FileData, Overlay, Slice, Writable, Readable, Clipped;
      ghost var v := Volume();
      WritableFits(v, start, fileSize, offset, |data|);
      written := FileWrite(start, fileSize, offset, data);
      ReadOverWrite(v, Volume(), start, fileSize, offset, data, at, count);
      if Clipped(fileSize, at, count) < 0x8000_0000 {
        SmallRead(Volume(), start, fileSize, at, count);
      }
      buf := FileRead(start, fileSize, at, count);
    }

    // a write through the handle of a listed file
    method OverwriteFile(name: Text, offset: nat, data: seq<Byte>) returns (written: nat)
      requires Valid() && Sound(Volume())
      modifies this
      ensures Valid() && Outcome(Volume(), written) == Overwrite(old(Volume()), name, offset, data)
    {
      hide View, Laid, Mirrored, Sound, Listing, Slots, FirstText, Patched, Written, Readable, Writable, TextMatches;
      SoundShape(Volume());
      ghost var v := Volume();
      var found, e := FindText(name);
      if !found { return 0; }
      ListedReadable(v, FirstText(Listing(Slots(v), 0), name));
      WritableFits(v, Cluster(e), e.fileSize, offset, |data|);
      written := FileWrite(Cluster(e), e.fileSize, offset, data);
      WrittenIs(v, Volume(), Cluster(e), offset, data, written);
    }

    // fat32_create_file
    method CreateFile(name: Text, content: seq<Byte>) returns (code: int)
      requires Valid() && Sound(Volume())
      modifies this
      ensures Valid() && Outcome(Volume(), code) == Create(old(Volume()), name, content)
    {
      hide View, Laid, Mirrored, Sound, Slots, FirstFree, Encode, StoreChain, PutSlot, HasRoom, Place;
      SoundShape(Volume());
      var found, x, i := SearchFree();
      if !found { return -1; }
      var first := WriteClusterChain(content);
      if first == 0 && |content| > 0 { return -1; }
      var raw8, raw3 := EncodeName(name);
      WriteDirEntry(x, i, FileEntry(raw8 + raw3, first, |content|));
      return 0;
    }

    // fat32_write_file
    method WriteFile(name: Text, content: seq<Byte>) returns (code: int)
      requires Valid() && Sound(Volume())
      modifies this
      ensures Valid() && Outcome(Volume(), code) == Write(old(Volume()), name, content)
    {
      hide View, Laid, Mirrored, Sound, Slots, FirstMatch, Encode, StoreChain, PutSlot, HasRoom, FreeChain, Create, Place, Updated;
      SoundShape(Volume());
      var found, x, i, e := SearchMatch(name);
      if !found {
        code := CreateFile(name, content);
        return;
      }
      EntryCluster(Volume(), FirstMatch(Slots(Volume()), Encode(name), 0));
      FreeClusterChain(Cluster(e));
      var first := WriteClusterChain(content);
      if first == 0 && |content| > 0 { return -1; }
      WriteDirEntry(x, i, Updated(e, first, |content|));
      return 0;
    }

    // fat32_delete_file
    method DeleteFile(name: Text) returns (code: int)
      requires Valid() && Sound(Volume())
      modifies this
      ensures Valid() && Outcome(Volume(), code) == Delete(old(Volume()), name)
    {
      hide View, Laid, Mirrored, Sound, Slots, FirstMatch, Encode, PutSlot, FreeChain, Place, Deleted;
      SoundShape(Volume());
      var found, x, i, e := SearchMatch(name);
      if !found { return -1; }
      EntryCluster(Volume(), FirstMatch(Slots(Volume()), Encode(name), 0));
      FreeClusterChain(Cluster(e));
      WriteDirEntry(x, i, Deleted(e));
      return 0;
    }

    // fat32_mkdir
    method MakeDirectory(name: Text) returns (code: int)
      requires Valid() && Sound(Volume())
      modifies this
      ensures Valid() && Outcome(Volume(), code) == Mkdir(old(Volume()), name)
    {
      hide View, Laid, Mirrored, Sound, Slots, FirstFree, Encode, PutSlot, Place;
      SoundShape(Volume());
      var found, x, i := SearchFree();
      if !found { return -1; }
      var raw8, raw3 := EncodeName(name);
      WriteDirEntry(x, i, FolderEntry(raw8 + raw3));
      return 0;
    }

    // the lookup of fat32_append_file over fat32_get_root_entries
    method FindText(name: Text) returns (found: bool, e: DirEntry)
      requires Valid() && Sound(Volume())
      ensures var l := Listing(Slots(Volume()), 0);
        && (found <==> FirstText(l, name) < |l|)
        && (found ==> e == l[FirstText(l, name)])
    {
      hide View, IsChain, ChainOf, Laid, Mirrored, Distinct, Decode, Scan, Listing, Slots, Sound, TextMatches;
      SoundShape(Volume());
      RootIsChain(Volume());
      var entries := DirIterate(EnumCallback, []);
      EntriesListed(Volume());
      found, e := false, ZERO_ENTRY;
      ghost var l := Listing(Slots(Volume()), 0);
      var i := 0;
      while i < |entries|
        invariant i <= |entries| && entries == l
        invariant FirstText(l, name) == i + FirstText(l[i..], name)
      {
        assert l[i..][1..] == l[i + 1..];
        var text := FormatName(entries[i].name[..8], entries[i].name[8..]);
        assert entries[i].name[..8] + entries[i].name[8..] == entries[i].name;
        var same := TextMatch(text, name);
        TextMatchesIs(entries[i], name);
        if !IsDirectory(entries[i]) && same {
          return true, entries[i];
        }
        i := i + 1;
      }
    }

    // the read loop of fat32_append_file
    method ReadOld(e: DirEntry) returns (appbuf: seq<Byte>)
      requires Valid() && Readable(Volume(), Cluster(e), e.fileSize)
      ensures appbuf == Take(FileData(Volume(), Cluster(e), e.fileSize), 4000) && |appbuf| <= 4000
    {
      hide View, Laid, Mirrored, FileData, Readable, Slice, Take, ReadResult;
      ghost var data := FileData(Volume(), Cluster(e), e.fileSize);
      appbuf := [];
      OldStarts(data);
      var j: nat := 0;
      while |appbuf| < 4000
        invariant appbuf == Take(data, Min(128 * j, 4000)) && |appbuf| <= 4000 && j <= 32
        decreases 32 - j
      {
        SmallRead(Volume(), Cluster(e), e.fileSize, 128 * j, 128);
        var tmp := FileRead(Cluster(e), e.fileSize, j * 128, 128);
        OldStep(data, j, appbuf, tmp);
        if |tmp| == 0 { return; }
        appbuf := AppendUpTo(appbuf, tmp, 4000);
        j := j + 1;
      }
      OldEnds(data, j);
    }

    // the byte loops of fat32_append_file
    method AppendUpTo(before: seq<Byte>, tmp: seq<Byte>, limit: nat) returns (buf: seq<Byte>)
      requires |before| <= limit
      ensures buf == Take(before + tmp, limit)
    {
      buf := before;
      var k := 0;
      assert before + tmp[..0] == before;
      while k < |tmp| && |buf| < limit
        invariant k <= |tmp| && buf == before + tmp[..k] && |buf| <= limit
      {
        assert before + tmp[..k] + [tmp[k]] == before + tmp[..k + 1];
        buf := buf + [tmp[k]];
        k := k + 1;
      }
    }

    // fat32_append_file
    method AppendFile(name: Text, content: seq<Byte>) returns (code: int)
      requires Valid() && Sound(Volume())
      modifies this
      ensures Valid() && Outcome(Volume(), code) == Append(old(Volume()), name, content)
    {
      hide View, Laid, Mirrored, Sound, Listing, Slots, FirstText, Create, Delete, Take, FileData, Readable, NodeOf;
      SoundShape(Volume());
      ghost var v := Volume();
      var appbuf: seq<Byte> := [];
      var found, e := FindText(name);
      if found {
        ListedReadable(v, FirstText(Listing(Slots(v), 0), name));
        appbuf := ReadOld(e);
        DeleteKeepsSound(v, name);
        var ignored := DeleteFile(name);
      }
      assert [] + content == content;
      appbuf := AppendUpTo(appbuf, content, 4095);
      code := CreateFile(name, appbuf);
    }

    /** One call of the interface. */
    method Perform(op: Op) returns (code: int)
      requires Valid() && Sound(Volume())
      modifies this
      ensures Valid() && Outcome(Volume(), code) == Do(old(Volume()), op)
    {
      hide View, Laid, Mirrored, Sound, Create, Write, Append, Delete, Mkdir, Overwrite;
      match op
      case CreateOp(name, content) => code := CreateFile(name, content);
      case WriteOp(name, content) => code := WriteFile(name, content);
      case AppendOp(name, content) => code := AppendFile(name, content);
      case DeleteOp(name) => code := DeleteFile(name);
      case MkdirOp(name) => code := MakeDirectory(name);
      case OverwriteOp(name, offset, data) => code := OverwriteFile(name, offset, data);
    }

    /** Any run of allowed calls on the disk is a run of the abstract file system. */
    method PerformAll(ops: seq<Op>) returns (codes: seq<int>)
      requires Valid() && AllowedRun(Volume(), ops)
      modifies this
      ensures Valid() && Named(Volume()) && |codes| == |ops|
      ensures Named(old(Volume())) && Follows(Files(old(Volume())), ops, codes, Files(Volume()))
      decreases |ops|
    {
      hide View, Laid, Mirrored, Sound, Slots, Files, Do, Step, Allowed, UniqueNames, CanonicalNames, EndClean;
      codes := [];
      NamedSound(Volume());
      if ops == [] { return; }
      ghost var v := Volume();
      StepHolds(v, ops[0]);
      var code := Perform(ops[0]);
      NamedSound(Volume());
      ghost var m := Files(Volume());
      codes := PerformAll(ops[1..]);
      NamedSound(Volume());
      FollowsMore(Files(v), ops[0], code, m, ops, codes, Files(Volume()));
      codes := [code] + codes;
    }

    /** Any run of any calls on the disk, whatever the names, keeps the chains in order and is a run of the row of cells. */
    method PerformAny(ops: seq<Op>) returns (codes: seq<int>)
      requires Valid() && Sound(Volume()) && Strings(ops)
      modifies this
      ensures Valid() && Sound(Volume()) && |codes| == |ops|
      ensures Leads(Cells(old(Volume())), ops, codes, Cells(Volume()))
      decreases |ops|
    {
      hide View, Laid, Mirrored, Sound, Do, CellStep, Cells;
      codes := [];
      if ops == [] { return; }
      ghost var v := Volume();
      DoSound(v, ops[0]);
      var code := Perform(ops[0]);
      ghost var m := Cells(Volume());
      codes := PerformAny(ops[1..]);
      LeadsMore(Cells(v), code, m, ops, codes, Cells(Volume()));
      codes := [code] + codes;
    }

    /** Creating a file and deleting it again leaves every byte of both tables as it was, unless the name hides the file
        from the delete. */
    method CreateThenDelete(name: Text, content: seq<Byte>) returns (created: int, deleted: int)
      requires Valid() && Inv(Volume()) && Encode(name) !in Names(Slots(Volume())) && 0 !in name
      modifies this
      ensures Valid() && (created == 0 ==> (deleted == 0 <==> Encode(name)[0] != MARK_FREE))
      ensures created == 0 && deleted == 0 ==> disk[g.fatLba..DataLba(g)] == old(disk)[g.fatLba..DataLba(g)]
    {
      hide Slots, Encode, Create, Delete, Names, Sound, UniqueNames, FirstFree, NoneBefore, Laid, Mirrored, Table, Files, Stores;
      ghost var v, before := Volume(), disk;
      NamedSound(v);
      AbsentBefore(v, Encode(name));
      CreateEffect(v, name, content);
      created := CreateFile(name, content);
      deleted := -1;
      if created != 0 { return; }
      if Encode(name)[0] == MARK_FREE {
        CreatedFound(v, name, content);
        DeleteMisses(Volume(), name);
      } else {
        EncodeNotEnd(name);
        DeleteUndoesCreate(v, name, content);
      }
      deleted := DeleteFile(name);
      if deleted == 0 { TablesEqual(g, before, disk); }
    }
  }

  lemma DeleteMisses(v: Vol, name: Text)
    requires Shaped(v) && FirstMatch(Slots(v), Encode(name), 0) == |Slots(v)|
    ensures Delete(v, name).code == -1
  {
    hide Slots, FirstMatch, Encode, DeleteIn;
  }

  lemma NamedSound(v: Vol)
    requires Inv(v)
    ensures Sound(v) && Shaped(v) && EndClean(Slots(v))
  {
    hide Slots, UniqueNames, EndClean;
  }

  lemma AbsentBefore(v: Vol, raw: RawName)
    requires Inv(v) && raw !in Names(Slots(v))
    ensures NoneBefore(Slots(v), raw, FirstFree(Slots(v), 0))
  {
    hide FirstFree;
    NamedSound(v);
  }

  lemma TablesEqual(g: Geometry, disk: seq<Sector>, d: seq<Sector>)
    requires Laid(g, disk) && Laid(g, d) && Mirrored(g, disk) && Mirrored(g, d) && View(g, disk).fat == View(g, d).fat
    ensures disk[g.fatLba..DataLba(g)] == d[g.fatLba..DataLba(g)]
  {
    hide Laid, Mirrored, Table;
    TableDeterminesBytes(g, disk, d);
  }
}
