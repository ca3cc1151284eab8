/** Where a volume's tables and data lie on the disk, and what a sector write does to the volume seen through them. */
module FatLayout {
  import opened Bytes
  import opened FatTable
  import opened FatArea
  import opened FatVolume

  datatype Geometry = Geometry(fatLba: nat, sectorsPerFat: nat, numFats: nat, sectorsPerCluster: nat, rootCluster: nat)

  function DataLba(g: Geometry): nat {
    g.fatLba + (if g.numFats == 2 then g.sectorsPerFat + g.sectorsPerFat else g.sectorsPerFat)
  }

  /** One or two tables, 28-bit cluster numbers below the reserved values, and LBAs that fit 32 bits. */
  predicate Laid(g: Geometry, disk: seq<Sector>) {
    && (g.numFats == 1 || g.numFats == 2)
    && 1 <= g.sectorsPerFat && 128 * g.sectorsPerFat <= 0x0FFF_FFF7
    && 1 <= g.sectorsPerCluster <= 255
    && DataLba(g) + Times(128 * g.sectorsPerFat - 2, g.sectorsPerCluster) <= |disk| < 0x1_0000_0000
  }

  /** Both copies of the table hold the same bytes. */
  predicate Mirrored(g: Geometry, disk: seq<Sector>)
    requires Laid(g, disk)
  {
    g.numFats == 2 ==> SecondCopy(g, disk) == FirstCopy(g, disk)
  }

  function FirstCopy(g: Geometry, disk: seq<Sector>): seq<Sector>
    requires Laid(g, disk)
  {
    disk[g.fatLba..g.fatLba + g.sectorsPerFat]
  }

  function SecondCopy(g: Geometry, disk: seq<Sector>): seq<Sector>
    requires Laid(g, disk) && g.numFats == 2
  {
    disk[g.fatLba + g.sectorsPerFat..g.fatLba + g.sectorsPerFat + g.sectorsPerFat]
  }

  function TableWord(g: Geometry, disk: seq<Sector>, c: nat): Entry
    requires Laid(g, disk) && c < 128 * g.sectorsPerFat
  {
    FromWord(Le32(disk[g.fatLba + c / 128], 4 * (c % 128)))
  }

  function Table(g: Geometry, disk: seq<Sector>): (f: Fat)
    requires Laid(g, disk)
    ensures |f| == 128 * g.sectorsPerFat
  {
    seq(128 * g.sectorsPerFat, c requires 0 <= c < 128 * g.sectorsPerFat => TableWord(g, disk, c))
  }

  /** The volume that the sectors of the disk hold. */
  function View(g: Geometry, disk: seq<Sector>): (v: Vol)
    requires Laid(g, disk)
    ensures Shaped(v)
  {
    Vol(g.sectorsPerCluster, g.rootCluster, Table(g, disk), disk[DataLba(g)..])
  }

  /** A data sector write changes that area sector and nothing else. */
  lemma DataWritten(g: Geometry, disk: seq<Sector>, x: nat, s: Sector)
    requires Laid(g, disk) && Mirrored(g, disk) && x < |View(g, disk).area|
    ensures var d := disk[DataLba(g) + x := s];
      && Laid(g, d) && Mirrored(g, d)
      && View(g, d) == View(g, disk).(area := View(g, disk).area[x := s])
  {
    var d := disk[DataLba(g) + x := s];
    assert Table(g, d) == Table(g, disk);
    assert FirstCopy(g, d) == FirstCopy(g, disk);
    assert g.numFats == 2 ==> SecondCopy(g, d) == SecondCopy(g, disk);
  }

  /** The disk after a table sector has been written to every copy. */
  function BothCopies(g: Geometry, disk: seq<Sector>, s: nat, t: Sector): (d: seq<Sector>)
    requires Laid(g, disk) && s < g.sectorsPerFat
    ensures |d| == |disk|
  {
    var d := disk[g.fatLba + s := t];
    if g.numFats == 2 then d[g.fatLba + g.sectorsPerFat + s := t] else d
  }

  /** Writing one word of a table sector to every copy changes that table entry and nothing else. */
  lemma WordWritten(g: Geometry, disk: seq<Sector>, c: nat, w: nat)
    requires Laid(g, disk) && Mirrored(g, disk) && c < 128 * g.sectorsPerFat && w < 0x1_0000_0000
    ensures var d := BothCopies(g, disk, c / 128, Splice(disk[g.fatLba + c / 128], 4 * (c % 128), Bytes32(w)));
      && Laid(g, d) && Mirrored(g, d)
      && View(g, d) == View(g, disk).(fat := Table(g, disk)[c := FromWord(w)])
  {
    var t := Splice(disk[g.fatLba + c / 128], 4 * (c % 128), Bytes32(w));
    var d := BothCopies(g, disk, c / 128, t);
    Le32RoundTrip(disk[g.fatLba + c / 128], 4 * (c % 128), w);
    forall b | 0 <= b < 128 * g.sectorsPerFat
      ensures TableWord(g, d, b) == if b == c then FromWord(w) else TableWord(g, disk, b)
    {
      if b / 128 == c / 128 && b != c {
        WordKept(disk[g.fatLba + c / 128], c % 128, b % 128, w);
      }
    }
    assert Table(g, d) == Table(g, disk)[c := FromWord(w)];
    assert d[DataLba(g)..] == disk[DataLba(g)..];
    CopiesWritten(g, disk, c / 128, t);
  }

  lemma CopiesWritten(g: Geometry, disk: seq<Sector>, s: nat, t: Sector)
    requires Laid(g, disk) && Mirrored(g, disk) && s < g.sectorsPerFat
    ensures Laid(g, BothCopies(g, disk, s, t)) && Mirrored(g, BothCopies(g, disk, s, t))
  {
    var d := BothCopies(g, disk, s, t);
    assert FirstCopy(g, d) == FirstCopy(g, disk)[s := t];
    if g.numFats == 2 {
      assert SecondCopy(g, d) == SecondCopy(g, disk)[s := t];
    }
  }

  /** The word with a new link: the driver's masking of the old word and the value. */
  function Relinked(w: nat, value: nat): (r: nat)
    requires w < 0x1_0000_0000
    ensures r < 0x1_0000_0000 && FromWord(r) == FromWord(w).(link := value % 0x1000_0000)
  {
    w / 0x1000_0000 * 0x1000_0000 + value % 0x1000_0000
  }

  /** A table sector with word number i relinked. */
  function SectorRelinked(t: Sector, i: nat, value: nat): Sector
    requires i < 128
  {
    Splice(t, 4 * i, Bytes32(Relinked(Le32(t, 4 * i), value)))
  }

  /** Relinking a word in every copy sets one link of the table. */
  lemma LinkWritten(g: Geometry, disk: seq<Sector>, c: nat, value: nat)
    requires Laid(g, disk) && Mirrored(g, disk) && c < 128 * g.sectorsPerFat
    ensures var d := BothCopies(g, disk, c / 128, SectorRelinked(disk[g.fatLba + c / 128], c % 128, value));
      && Laid(g, d) && Mirrored(g, d)
      && View(g, d) == View(g, disk).(fat := SetLink(View(g, disk).fat, c, value % 0x1000_0000))
  {
    var w := Le32(disk[g.fatLba + c / 128], 4 * (c % 128));
    WordWritten(g, disk, c, Relinked(w, value));
    assert Table(g, disk)[c] == TableWord(g, disk, c) == FromWord(w);
  }

  lemma TableAt(g: Geometry, disk: seq<Sector>, c: nat)
    requires Laid(g, disk) && c < 128 * g.sectorsPerFat
    ensures View(g, disk).fat[c].link == Le32(disk[g.fatLba + c / 128], 4 * (c % 128)) % 0x1000_0000
    ensures c * 4 / 512 == c / 128 && c * 4 % 512 == 4 * (c % 128)
    ensures g.fatLba + c / 128 < |disk| && (g.numFats > 1 ==> g.numFats == 2 && g.fatLba + g.sectorsPerFat + c / 128 < |disk|)
  {
    assert Table(g, disk)[c] == TableWord(g, disk, c);
  }

  lemma WordKept(s: Sector, c: nat, b: nat, w: nat)
    requires c < 128 && b < 128 && b != c
    ensures Le32(Splice(s, 4 * c, Bytes32(w)), 4 * b) == Le32(s, 4 * b)
  {
    var r := Splice(s, 4 * c, Bytes32(w));
    assert r[4 * b] == s[4 * b] && r[4 * b + 1] == s[4 * b + 1] && r[4 * b + 2] == s[4 * b + 2] && r[4 * b + 3] == s[4 * b + 3];
  }

  /** Equal tables mean equal bytes, in every copy. */
  lemma TableDeterminesBytes(g: Geometry, disk: seq<Sector>, d: seq<Sector>)
    requires Laid(g, disk) && Laid(g, d) && Mirrored(g, disk) && Mirrored(g, d)
    requires Table(g, disk) == Table(g, d)
    ensures disk[g.fatLba..DataLba(g)] == d[g.fatLba..DataLba(g)]
  {
    forall s | 0 <= s < g.sectorsPerFat
      ensures FirstCopy(g, disk)[s] == FirstCopy(g, d)[s]
    {
      SectorDetermined(g, disk, d, s);
    }
    assert FirstCopy(g, disk) == FirstCopy(g, d);
    if g.numFats == 2 {
      SliceJoin(disk, g.fatLba, g.fatLba + g.sectorsPerFat, DataLba(g));
      SliceJoin(d, g.fatLba, g.fatLba + g.sectorsPerFat, DataLba(g));
    }
  }

  lemma SliceJoin(s: seq<Sector>, a: nat, b: nat, c: nat)
    requires a <= b <= c <= |s|
    ensures s[a..c] == s[a..b] + s[b..c]
  {}

  lemma SectorDetermined(g: Geometry, disk: seq<Sector>, d: seq<Sector>, s: nat)
    requires Laid(g, disk) && Laid(g, d) && Table(g, disk) == Table(g, d) && s < g.sectorsPerFat
    ensures disk[g.fatLba + s] == d[g.fatLba + s]
  {
    var a, b := disk[g.fatLba + s], d[g.fatLba + s];
    forall i | 0 <= i < 512 ensures a[i] == b[i] {
      var c := 128 * s + i / 4;
      assert c / 128 == s && c % 128 == i / 4;
      assert Table(g, disk)[c] == TableWord(g, disk, c) && Table(g, d)[c] == TableWord(g, d, c);
      WordsEqual(Le32(a, 4 * (i / 4)), Le32(b, 4 * (i / 4)));
      Le32Injective(a, b, 4 * (i / 4));
    }
  }

  lemma WordsEqual(w: nat, u: nat)
    requires w < 0x1_0000_0000 && u < 0x1_0000_0000 && FromWord(w) == FromWord(u)
    ensures w == u
  {}
}
