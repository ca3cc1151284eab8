/** Directory slots: the 32-byte record, the two searches of the driver, and the callback-driven scan. */
module FatDirectory {
  import opened Bytes
  import opened FatNames

  type U16 = w: int | 0 <= w < 0x1_0000
  type U32 = w: int | 0 <= w < 0x1_0000_0000
  type Stamp = s: seq<Byte> | |s| == 8 witness seq(8, _ => 0)

  const ATTR_DIRECTORY: Byte := 0x10
  const ATTR_ARCHIVE: Byte := 0x20
  const MARK_FREE: Byte := 0xE5

  /** A directory record. `stamp` is bytes 12 to 19: reserved, creation time and date, access date. */
  datatype DirEntry = DirEntry(
    name: RawName,
    attributes: Byte,
    stamp: Stamp,
    clusterHigh: U16,
    writeTime: U16,
    writeDate: U16,
    clusterLow: U16,
    fileSize: U32)

  function Decode(s: seq<Byte>, i: nat): DirEntry
    requires i + 32 <= |s|
  {
    DirEntry(s[i..i + 11], s[i + 11], s[i + 12..i + 20], Le16(s, i + 20), Le16(s, i + 22), Le16(s, i + 24),
             Le16(s, i + 26), Le32(s, i + 28))
  }

  function EntryBytes(e: DirEntry): (r: seq<Byte>)
    ensures |r| == 32
  {
    e.name + [e.attributes] + e.stamp + Bytes16(e.clusterHigh) + Bytes16(e.writeTime) + Bytes16(e.writeDate)
    + Bytes16(e.clusterLow) + Bytes32(e.fileSize)
  }

  lemma Le16OfBytes(s: seq<Byte>, i: nat, w: U16)
    requires i + 2 <= |s| && s[i] == Bytes16(w)[0] && s[i + 1] == Bytes16(w)[1]
    ensures Le16(s, i) == w
  {}

  lemma Le32OfBytes(s: seq<Byte>, i: nat, w: U32)
    requires i + 4 <= |s| && s[i..i + 4] == Bytes32(w)
    ensures Le32(s, i) == w
  {
    assert s[i] == s[i..i + 4][0] && s[i + 1] == s[i..i + 4][1] && s[i + 2] == s[i..i + 4][2] && s[i + 3] == s[i..i + 4][3];
  }

  /** A record is read back as it was written. */
  lemma EntryRoundTrip(e: DirEntry)
    ensures Decode(EntryBytes(e), 0) == e
  {
    var b := EntryBytes(e);
    assert b[0..11] == e.name && b[12..20] == e.stamp;
    Le16OfBytes(b, 20, e.clusterHigh);
    Le16OfBytes(b, 22, e.writeTime);
    Le16OfBytes(b, 24, e.writeDate);
    Le16OfBytes(b, 26, e.clusterLow);
    assert b[28..32] == Bytes32(e.fileSize);
    Le32OfBytes(b, 28, e.fileSize);
  }

  /** Decoding depends on the 32 bytes of the slot and on nothing else. */
  lemma DecodeFrame(s: seq<Byte>, i: nat, t: seq<Byte>, j: nat)
    requires i + 32 <= |s| && j + 32 <= |t| && s[i..i + 32] == t[j..j + 32]
    ensures Decode(s, i) == Decode(t, j)
  {
    var w := s[i..i + 32];
    assert forall k :: 0 <= k < 32 ==> s[i + k] == w[k] == t[j + k];
    assert s[i..i + 11] == w[..11] == t[j..j + 11];
    assert s[i + 12..i + 20] == w[12..20] == t[j + 12..j + 20];
  }

  lemma DecodeSplice(s: seq<Byte>, idx: nat, e: DirEntry, k: nat)
    requires |s| == 512 && idx < 16 && k < 16
    ensures Decode(Splice(s, 32 * idx, EntryBytes(e)), 32 * k) == if k == idx then e else Decode(s, 32 * k)
  {
    var r := Splice(s, 32 * idx, EntryBytes(e));
    if k == idx {
      EntryRoundTrip(e);
      assert r[32 * k..32 * k + 32] == EntryBytes(e)[0..32];
      DecodeFrame(r, 32 * k, EntryBytes(e), 0);
    } else {
      assert r[32 * k..32 * k + 32] == s[32 * k..32 * k + 32];
      DecodeFrame(r, 32 * k, s, 32 * k);
    }
  }

  function Cluster(e: DirEntry): nat {
    e.clusterHigh as int * 0x1_0000 + e.clusterLow as int
  }

  function WithCluster(e: DirEntry, c: nat): (r: DirEntry)
    requires c < 0x1_0000_0000
    ensures Cluster(r) == c
  {
    e.(clusterHigh := c / 0x1_0000, clusterLow := c % 0x1_0000)
  }

  predicate IsEnd(e: DirEntry) {
    e.name[0] == 0
  }

  predicate IsFreeSlot(e: DirEntry) {
    e.name[0] == MARK_FREE
  }

  /** A slot in use that is neither a volume label nor part of a long name. */
  predicate Visible(e: DirEntry) {
    !IsEnd(e) && !IsFreeSlot(e) && e.attributes / 8 % 2 == 0
  }

  predicate IsDirectory(e: DirEntry) {
    e.attributes / 16 % 2 == 1
  }

  predicate Matches(e: DirEntry, raw: RawName) {
    Visible(e) && e.name == raw
  }

  /** Every slot after the first END slot is END as well. */
  predicate EndClean(slots: seq<DirEntry>) {
    forall j, k :: 0 <= j < k < |slots| && IsEnd(slots[j]) ==> IsEnd(slots[k])
  }

  predicate UniqueNames(slots: seq<DirEntry>) {
    forall j, k :: 0 <= j < k < |slots| && Visible(slots[j]) && Visible(slots[k]) ==> slots[j].name != slots[k].name
  }

  /** The first slot, from k on, that a new entry may take; |slots| if there is none. */
  function FirstFree(slots: seq<DirEntry>, k: nat): (r: nat)
    requires k <= |slots|
    ensures k <= r <= |slots|
    ensures r < |slots| ==> IsEnd(slots[r]) || IsFreeSlot(slots[r])
    ensures forall j :: k <= j < r ==> !IsEnd(slots[j]) && !IsFreeSlot(slots[j])
    decreases |slots| - k
  {
    if k == |slots| || IsEnd(slots[k]) || IsFreeSlot(slots[k]) then k else FirstFree(slots, k + 1)
  }

  /** The first visible slot, from k on, with the given raw name before any END slot; |slots| if there is none. */
  function FirstMatch(slots: seq<DirEntry>, raw: RawName, k: nat): (r: nat)
    requires k <= |slots|
    ensures k <= r <= |slots|
    ensures r < |slots| ==> Matches(slots[r], raw)
    ensures forall j :: k <= j < r && r < |slots| ==> !IsEnd(slots[j]) && !Matches(slots[j], raw)
    decreases |slots| - k
  {
    if k == |slots| || IsEnd(slots[k]) then |slots|
    else if Matches(slots[k], raw) then k
    else FirstMatch(slots, raw, k + 1)
  }

  /** On a clean directory the search fails only if no slot matches at all. */
  lemma {:induction false} NoMatch(slots: seq<DirEntry>, raw: RawName, k: nat)
    requires k <= |slots| && EndClean(slots) && FirstMatch(slots, raw, k) == |slots|
    ensures forall j :: k <= j < |slots| ==> !Matches(slots[j], raw)
    decreases |slots| - k
  {
    if k < |slots| && !IsEnd(slots[k]) {
      NoMatch(slots, raw, k + 1);
    }
  }

  lemma MatchIs(slots: seq<DirEntry>, k: nat)
    requires EndClean(slots) && UniqueNames(slots) && k < |slots| && Visible(slots[k])
    ensures FirstMatch(slots, slots[k].name, 0) == k
  {
    var r := FirstMatch(slots, slots[k].name, 0);
    if r == |slots| {
      NoMatch(slots, slots[k].name, 0);
    }
  }

  // ----- the scan with a callback -----

  /** A slot together with the place the driver passes to its callback. */
  datatype Placed = Placed(entry: DirEntry, sector: nat, index: nat)

  /** Calls back on each slot until the callback asks to stop. */
  function Scan<C>(cb: (C, Placed) -> (bool, C), ctx: C, slots: seq<Placed>): C
    decreases |slots|
  {
    if slots == [] then ctx else
      var (stop, next) := cb(ctx, slots[0]);
      if stop then next else Scan(cb, next, slots[1..])
  }

  /** The driver's search context. */
  datatype Search = Search(target: RawName, findFree: bool, found: bool, sector: nat, index: nat, result: DirEntry)

  function SearchCallback(ctx: Search, p: Placed): (bool, Search) {
    var first := p.entry.name[0];
    if ctx.findFree then
      if first == MARK_FREE || first == 0 then (true, ctx.(found := true, sector := p.sector, index := p.index))
      else (false, ctx)
    else if first == 0 then (true, ctx)
    else if first == MARK_FREE then (false, ctx)
    else if p.entry.attributes / 8 % 2 == 1 then (false, ctx)
    else if p.entry.attributes % 16 == 0x0F then (false, ctx)
    else if p.entry.name == ctx.target then
      (true, ctx.(found := true, sector := p.sector, index := p.index, result := p.entry))
    else (false, ctx)
  }

  function Entries(ps: seq<Placed>): (r: seq<DirEntry>)
    ensures |r| == |ps|
  {
    seq(|ps|, i requires 0 <= i < |ps| => ps[i].entry)
  }

  /** What the scan finds is the slot the specification names. */
  lemma {:induction false} ScanFree(ctx: Search, ps: seq<Placed>, k: nat)
    requires ctx.findFree && !ctx.found && k <= |ps|
    ensures var r := Scan(SearchCallback, ctx, ps[k..]);
            var i := FirstFree(Entries(ps), k);
            r == if i < |ps| then ctx.(found := true, sector := ps[i].sector, index := ps[i].index) else ctx
    decreases |ps| - k
  {
    if k < |ps| {
      assert ps[k..][1..] == ps[k + 1..];
      ScanFree(ctx, ps, k + 1);
    }
  }

  lemma {:induction false} ScanMatch(ctx: Search, ps: seq<Placed>, k: nat)
    requires !ctx.findFree && !ctx.found && k <= |ps|
    ensures var r := Scan(SearchCallback, ctx, ps[k..]);
            var i := FirstMatch(Entries(ps), ctx.target, k);
            r == if i < |ps| then ctx.(found := true, sector := ps[i].sector, index := ps[i].index, result := ps[i].entry)
                 else ctx
    decreases |ps| - k
  {
    if k < |ps| {
      assert ps[k..][1..] == ps[k + 1..];
      ScanMatch(ctx, ps, k + 1);
    }
  }

  /** The enumeration callback: collects the visible entries. */
  function EnumCallback(ctx: seq<DirEntry>, p: Placed): (bool, seq<DirEntry>) {
    var first := p.entry.name[0];
    if first == 0 then (true, ctx)
    else if first == MARK_FREE then (false, ctx)
    else if p.entry.attributes / 8 % 2 == 1 then (false, ctx)
    else if p.entry.attributes % 16 == 0x0F then (false, ctx)
    else (false, ctx + [p.entry])
  }

  /** The visible entries, in slot order, up to the END slot. */
  function Listing(slots: seq<DirEntry>, k: nat): seq<DirEntry>
    requires k <= |slots|
    decreases |slots| - k
  {
    if k == |slots| || IsEnd(slots[k]) then []
    else (if Visible(slots[k]) then [slots[k]] else []) + Listing(slots, k + 1)
  }

  lemma {:induction false} ScanEnum(ctx: seq<DirEntry>, ps: seq<Placed>, k: nat)
    requires k <= |ps|
    ensures Scan(EnumCallback, ctx, ps[k..]) == ctx + Listing(Entries(ps), k)
    decreases |ps| - k
  {
    if k < |ps| {
      assert ps[k..][1..] == ps[k + 1..];
      var e := ps[k].entry;
      if !IsEnd(e) {
        ScanEnum(if Visible(e) then ctx + [e] else ctx, ps, k + 1);
      }
    }
  }

  lemma {:induction false} ListedVisible(slots: seq<DirEntry>, k: nat, i: nat) returns (j: nat)
    requires k <= |slots| && i < |Listing(slots, k)|
    ensures j < |slots| && Visible(slots[j]) && slots[j] == Listing(slots, k)[i]
    decreases |slots| - k
  {
    if Visible(slots[k]) {
      if i == 0 { j := k; } else { j := ListedVisible(slots, k + 1, i - 1); }
    } else {
      j := ListedVisible(slots, k + 1, i);
    }
  }
}
