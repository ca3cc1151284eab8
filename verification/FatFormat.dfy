/** The on-disk format as another FAT32 implementation reads it: fields at byte offsets, little-endian numbers. */
module FatFormat {
  import opened Bytes
  import opened FatTable
  import opened FatArea
  import opened FatNames
  import opened FatDirectory
  import opened FatVolume
  import opened FatSteps
  import opened FatOps
  import opened FatLayout

  /** The number that bytes stand for, the first one counting least. */
  function Value(s: seq<Byte>): nat {
    if s == [] then 0 else s[0] + 256 * Value(s[1..])
  }

  lemma ValueTwo(s: seq<Byte>)
    requires |s| == 2
    ensures Value(s) == s[0] as int + 256 * (s[1] as int)
  {
    assert s[1..] == [s[1]] && [s[1]][1..] == [];
    assert Value([s[1]]) == s[1];
  }

  lemma ValueFour(s: seq<Byte>)
    requires |s| == 4
    ensures Value(s) == s[0] as int + 256 * (s[1] as int) + 0x1_0000 * (s[2] as int) + 0x100_0000 * (s[3] as int)
  {
    assert s[1..][1..] == s[2..4];
    ValueTwo(s[2..4]);
    assert Value(s[1..]) == s[1] as int + 256 * Value(s[2..4]);
  }

  /** The words of the driver are little-endian, read and written. */
  lemma LittleEndian(s: seq<Byte>, i: nat, w: nat)
    ensures i + 2 <= |s| ==> Le16(s, i) == Value(s[i..i + 2])
    ensures i + 4 <= |s| ==> Le32(s, i) == Value(s[i..i + 4])
    ensures w < 0x1_0000 ==> Value(Bytes16(w)) == w
    ensures w < 0x1_0000_0000 ==> Value(Bytes32(w)) == w
  {
    hide Value, Le16, Le32, Bytes16, Bytes32;
    if i + 2 <= |s| { Reads16(s, i); }
    if i + 4 <= |s| { Reads32(s, i); }
    if w < 0x1_0000 { Writes16(w); }
    if w < 0x1_0000_0000 { Writes32(w); }
  }

  lemma Reads16(s: seq<Byte>, i: nat)
    requires i + 2 <= |s|
    ensures Le16(s, i) == Value(s[i..i + 2])
  {
    hide Value;
    ValueTwo(s[i..i + 2]);
  }

  lemma Reads32(s: seq<Byte>, i: nat)
    requires i + 4 <= |s|
    ensures Le32(s, i) == Value(s[i..i + 4])
  {
    hide Value;
    ValueFour(s[i..i + 4]);
  }

  lemma Writes16(w: nat)
    requires w < 0x1_0000
    ensures Value(Bytes16(w)) == w
  {
    hide Value;
    ValueTwo(Bytes16(w));
  }

  lemma Writes32(w: nat)
    requires w < 0x1_0000_0000
    ensures Value(Bytes32(w)) == w
  {
    hide Value;
    ValueFour(Bytes32(w));
  }

  // ----- directory records -----

  /** Where a record keeps its fields. */
  lemma RecordFields(e: DirEntry)
    ensures var b := EntryBytes(e);
      && b[..11] == e.name && b[11] == e.attributes && b[12..20] == e.stamp
      && Value(b[26..28]) + 0x1_0000 * Value(b[20..22]) == Cluster(e)
      && Value(b[22..24]) == e.writeTime && Value(b[24..26]) == e.writeDate && Value(b[28..32]) == e.fileSize
  {
    hide Value, Bytes16, Bytes32;
    var b := EntryBytes(e);
    assert b[20..22] == Bytes16(e.clusterHigh) && b[22..24] == Bytes16(e.writeTime) && b[24..26] == Bytes16(e.writeDate);
    assert b[26..28] == Bytes16(e.clusterLow) && b[28..32] == Bytes32(e.fileSize);
    LittleEndian([], 0, e.clusterHigh);
    LittleEndian([], 0, e.writeTime);
    LittleEndian([], 0, e.writeDate);
    LittleEndian([], 0, e.clusterLow);
    LittleEndian([], 0, e.fileSize);
  }

  /** A date as FAT counts it: years since 1980, month, day. */
  function Date(year: nat, month: nat, day: nat): nat
    requires year >= 1980
  {
    (year - 1980) * 512 + month * 32 + day
  }

  /** The record of a new file: archive bit, created and written on 1 January 2024 at midnight, never accessed. */
  lemma FileRecord(raw: RawName, c: nat, len: nat)
    requires c < 0x1_0000_0000
    ensures var b := EntryBytes(FileEntry(raw, c, len));
      && b[..11] == raw && b[11] == 0x20 && b[12..16] == [0, 0, 0, 0] && Value(b[16..18]) == Date(2024, 1, 1)
      && b[18..20] == [0, 0] && b[22..24] == [0, 0] && Value(b[24..26]) == Date(2024, 1, 1)
      && Value(b[26..28]) + 0x1_0000 * Value(b[20..22]) == c && Value(b[28..32]) == len % 0x1_0000_0000
  {
    hide Value;
    var e := FileEntry(raw, c, len);
    RecordFields(e);
    var b := EntryBytes(e);
    StampParts(b, e.stamp);
    LittleEndian([], 0, WRITE_DATE);
    assert b[16..18] == Bytes16(WRITE_DATE);
    assert b[22..24] == Bytes16(0);
  }

  lemma StampParts(b: seq<Byte>, stamp: Stamp)
    requires |b| == 32 && b[12..20] == stamp
    ensures b[12..16] == stamp[..4] && b[16..18] == stamp[4..6] && b[18..20] == stamp[6..8]
  {
    assert forall i :: 12 <= i < 20 ==> b[i] == b[12..20][i - 12];
  }

  /** The record of a new directory. */
  lemma FolderRecord(raw: RawName)
    ensures var b := EntryBytes(FolderEntry(raw));
      && b[..11] == raw && b[11] == 0x10 && b[12..20] == [0, 0, 0, 0, 0, 0, 0, 0]
      && Value(b[24..26]) == Date(2024, 1, 1) && Value(b[26..28]) + 0x1_0000 * Value(b[20..22]) == 0 && Value(b[28..32]) == 0
  {
    hide Value;
    RecordFields(FolderEntry(raw));
  }

  /** The record of an overwritten file: name, attributes and creation as they were, the new cluster, size and date. */
  lemma UpdatedRecord(e: DirEntry, c: nat, len: nat)
    requires c < 0x1_0000_0000
    ensures var a, b := EntryBytes(e), EntryBytes(Updated(e, c, len));
      && b[..20] == a[..20] && Value(b[22..24]) == 0 && Value(b[24..26]) == Date(2024, 1, 1)
      && Value(b[26..28]) + 0x1_0000 * Value(b[20..22]) == c && Value(b[28..32]) == len % 0x1_0000_0000
  {
    hide Value;
    RecordFields(e);
    RecordFields(Updated(e, c, len));
    var a, b := EntryBytes(e), EntryBytes(Updated(e, c, len));
    assert a[..20] == a[..11] + [a[11]] + a[12..20] && b[..20] == b[..11] + [b[11]] + b[12..20];
  }

  /** A deleted record differs in its first byte, which is 0xE5. */
  lemma DeletedRecord(e: DirEntry)
    ensures EntryBytes(Deleted(e)) == EntryBytes(e)[0 := 0xE5]
  {
    var a, b := EntryBytes(e), EntryBytes(Deleted(e));
    assert forall i :: 0 <= i < 32 ==> b[i] == if i == 0 then 0xE5 else a[i];
  }

  /** Which records a directory scan takes for what, by their bytes: the end, a free one, a label or part of a long name, a
      directory. */
  lemma RecordKinds(s: Sector, k: nat)
    requires k < 16
    ensures var e, i := Decode(s, 32 * k), 32 * k;
      && (IsEnd(e) <==> s[i] == 0x00) && (IsFreeSlot(e) <==> s[i] == 0xE5)
      && (Visible(e) <==> s[i] != 0x00 && s[i] != 0xE5 && s[i + 11] / 8 % 2 == 0)
      && (IsDirectory(e) <==> s[i + 11] / 16 % 2 == 1)
  {}

  // ----- the table -----

  /** Entry c of the table is the word at byte 4c of every copy: 28 bits of link below 4 reserved bits. */
  lemma TableBytes(g: Geometry, disk: seq<Sector>, c: nat)
    requires Laid(g, disk) && Mirrored(g, disk) && c < 128 * g.sectorsPerFat
    ensures var e, x, i := View(g, disk).fat[c], g.fatLba + 4 * c / 512, 4 * c % 512;
      && x < |disk| && i + 4 <= 512 && Value(disk[x][i..i + 4]) == e.link + 0x1000_0000 * e.reserved
      && (g.numFats == 2 ==> x + g.sectorsPerFat < |disk| && disk[x + g.sectorsPerFat] == disk[x])
  {
    hide Value;
    TableAt(g, disk, c);
    var x, i := g.fatLba + c / 128, 4 * (c % 128);
    LittleEndian(disk[x], i, 0);
    assert Table(g, disk)[c] == TableWord(g, disk, c);
    if g.numFats == 2 {
      assert FirstCopy(g, disk)[c / 128] == disk[x] && SecondCopy(g, disk)[c / 128] == disk[x + g.sectorsPerFat];
    }
  }

  /** A free cluster has link 0; the chain of stored content runs through its clusters and ends in the link 0x0FFFFFF8. */
  lemma ChainWords(f: Fat, cs: seq<nat>, i: nat)
    requires |f| > 0 && AllInRange(f, cs) && Distinct(cs) && i < |cs|
    ensures var e := LinkFrom(f, 0, cs)[cs[i]];
      && e.reserved == f[cs[i]].reserved
      && if i + 1 < |cs| then e.link == cs[i + 1] else e.link == 0x0FFF_FFF8
    ensures forall c: nat :: IsFree(f, c) <==> 2 <= c < |f| && f[c].link == 0
  {
    LinkFromAt(f, 0, cs);
    assert Linked(f, LinkFrom(f, 0, cs), cs, i);
  }

  /** What counts as a chain: its last link may be any of the end marks from 0x0FFFFFF8 on. A walk stops at any link from
      0x0FFFFFF7 on. */
  lemma ChainEnds(f: Fat, cs: seq<nat>, c: nat)
    requires c < |f|
    ensures IsChain(f, cs) <==>
      && cs != [] && AllInRange(f, cs) && Distinct(cs) && f[cs[|cs| - 1]].link >= 0x0FFF_FFF8
      && forall i :: 0 <= i < |cs| - 1 ==> LinkOk(f, cs, i)
    ensures LinkInRange(f, c) <==> f[c].link < |f| || f[c].link >= 0x0FFF_FFF7
  {
    hide Distinct;
    if cs != [] && AllInRange(f, cs) && Distinct(cs) {
      assert LinkOk(f, cs, |cs| - 1) <==> f[cs[|cs| - 1]].link >= 0x0FFF_FFF8;
    }
  }

  // ----- the data -----

  /** The disk address of sector s of cluster c: behind all the tables, clusters counted from 2. */
  function Lba(g: Geometry, c: nat, s: nat): nat
    requires c >= 2
  {
    g.fatLba + g.numFats * g.sectorsPerFat + (c - 2) * g.sectorsPerCluster + s
  }

  lemma DataSector(g: Geometry, disk: seq<Sector>, c: nat, s: nat)
    requires Laid(g, disk) && 2 <= c < 128 * g.sectorsPerFat && s < g.sectorsPerCluster
    ensures var k := SectorOf(g.sectorsPerCluster, c, s);
      Lba(g, c, s) < |disk| && k < |View(g, disk).area| && View(g, disk).area[k] == disk[Lba(g, c, s)]
  {
    hide Times, View, Laid, DataLba, SectorOf, Lba;
    var k := SectorOf(g.sectorsPerCluster, c, s);
    FatsAre(g, disk);
    LbaIs(g, c, s);
    ClusterInside(g, c, s);
    AreaAt(g, disk, k);
  }

  lemma LbaIs(g: Geometry, c: nat, s: nat)
    requires c >= 2 && (g.numFats == 1 || g.numFats == 2)
    ensures Lba(g, c, s) == DataLba(g) + SectorOf(g.sectorsPerCluster, c, s)
  {
    hide Times;
    TablesEnd(g);
    SectorIs(g.sectorsPerCluster, c, s);
  }

  lemma SectorIs(spc: nat, c: nat, s: nat)
    requires c >= 2
    ensures SectorOf(spc, c, s) == (c - 2) * spc + s
  {
    TimesIs(c - 2, spc);
  }

  lemma FatsAre(g: Geometry, disk: seq<Sector>)
    requires Laid(g, disk)
    ensures g.numFats == 1 || g.numFats == 2
  {}

  lemma AreaAt(g: Geometry, disk: seq<Sector>, k: nat)
    requires Laid(g, disk) && k < Times(128 * g.sectorsPerFat - 2, g.sectorsPerCluster)
    ensures DataLba(g) + k < |disk| && k < |View(g, disk).area| && View(g, disk).area[k] == disk[DataLba(g) + k]
  {
    hide Times, Table;
  }

  lemma TablesEnd(g: Geometry)
    requires g.numFats == 1 || g.numFats == 2
    ensures DataLba(g) == g.fatLba + g.numFats * g.sectorsPerFat
  {}

  lemma ClusterInside(g: Geometry, c: nat, s: nat)
    requires 2 <= c < 128 * g.sectorsPerFat && s < g.sectorsPerCluster
    ensures SectorOf(g.sectorsPerCluster, c, s) < Times(128 * g.sectorsPerFat - 2, g.sectorsPerCluster)
  {
    var spc := g.sectorsPerCluster;
    assert Times(c - 1, spc) == Times(c - 2, spc) + spc;
    TimesGrows(c - 1, 128 * g.sectorsPerFat - 2, spc);
  }
}
