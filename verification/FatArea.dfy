/** The data area: which sectors a cluster chain owns, and reading and writing through such a list. */
module FatArea {
  import opened Bytes

  /** A quotient is fixed by its remainder's range. */
  lemma DivUnique(a: nat, b: nat, q: nat, r: nat)
    requires b > 0 && a == q * b + r && r < b
    ensures a / b == q && a % b == r
  {
    var d := a / b - q;
    assert a == (a / b) * b + a % b;
    assert d * b == r - a % b;
    assert 0 - b < d * b < b;
    assert d >= 1 ==> d * b >= b;
    assert d <= -1 ==> d * b <= 0 - b;
  }

  /** Area sector s of cluster c. Sectors are counted from the first data sector. */
  function SectorOf(spc: nat, c: nat, s: nat): nat
    requires c >= 2
  {
    Times(c - 2, spc) + s
  }

  /** The cluster that owns an area sector. */
  function Home(spc: nat, x: nat): nat
    requires spc > 0
  {
    x / spc + 2
  }

  lemma HomeOfSector(spc: nat, c: nat, s: nat)
    requires c >= 2 && s < spc
    ensures Home(spc, SectorOf(spc, c, s)) == c
  {
    TimesIs(c - 2, spc);
    DivUnique(SectorOf(spc, c, s), spc, c - 2, s);
  }

  lemma HomeBound(spc: nat, x: nat, n: nat)
    requires spc > 0 && Home(spc, x) < n
    ensures x < Times(n - 2, spc)
  {
    var q := x / spc;
    assert x == q * spc + x % spc;
    assert (q + 1) * spc == q * spc + spc;
    TimesIs(q + 1, spc);
    TimesGrows(q + 1, n - 2, spc);
  }

  predicate Numbers(cs: seq<nat>) {
    forall i :: 0 <= i < |cs| ==> cs[i] >= 2
  }

  function ClusterSectors(spc: nat, c: nat): (r: seq<nat>)
    requires c >= 2
    ensures |r| == spc
  {
    seq(spc, s requires 0 <= s < spc => SectorOf(spc, c, s))
  }

  /** The sectors of the clusters cs, in order. */
  function Secs(spc: nat, cs: seq<nat>): (r: seq<nat>)
    requires Numbers(cs)
  {
    if cs == [] then [] else ClusterSectors(spc, cs[0]) + Secs(spc, cs[1..])
  }

  lemma {:induction false} SecsLength(spc: nat, cs: seq<nat>)
    requires Numbers(cs)
    ensures |Secs(spc, cs)| == Times(|cs|, spc)
  {
    if cs != [] {
      SecsLength(spc, cs[1..]);
    }
  }

  /** The sectors owned by cs are exactly those whose home is in cs. */
  lemma {:induction false} SecsHome(spc: nat, cs: seq<nat>, x: nat)
    requires Numbers(cs) && spc > 0
    ensures x in Secs(spc, cs) <==> Home(spc, x) in cs
  {
    hide ClusterSectors, Home;
    if cs != [] {
      SecsHome(spc, cs[1..], x);
      BlockHome(spc, cs[0], x);
    }
  }

  lemma BlockHome(spc: nat, c: nat, x: nat)
    requires c >= 2 && spc > 0
    ensures x in ClusterSectors(spc, c) <==> Home(spc, x) == c
  {
    var block := ClusterSectors(spc, c);
    if x in block {
      var s :| 0 <= s < spc && block[s] == x;
      HomeOfSector(spc, c, s);
    }
    if Home(spc, x) == c {
      TimesIs(c - 2, spc);
      assert block[x % spc] == x;
    }
  }

  lemma {:induction false} SecsDistinct(spc: nat, cs: seq<nat>)
    requires Numbers(cs) && spc > 0 && Distinct(cs)
    ensures Distinct(Secs(spc, cs))
  {
    if cs != [] {
      var block, rest := ClusterSectors(spc, cs[0]), Secs(spc, cs[1..]);
      SecsDistinct(spc, cs[1..]);
      forall i | 0 <= i < spc ensures block[i] !in rest {
        HomeOfSector(spc, cs[0], i);
        SecsHome(spc, cs[1..], block[i]);
      }
    }
  }

  lemma SecsDisjoint(spc: nat, cs: seq<nat>, ds: seq<nat>)
    requires Numbers(cs) && Numbers(ds) && spc > 0 && Disjoint(cs, ds)
    ensures Disjoint(Secs(spc, cs), Secs(spc, ds))
  {
    forall x | x in Secs(spc, cs) ensures x !in Secs(spc, ds) {
      SecsHome(spc, cs, x);
      SecsHome(spc, ds, x);
    }
  }

  /** Dropping q clusters drops their sectors. */
  lemma {:induction false} SecsSuffix(spc: nat, cs: seq<nat>, q: nat)
    requires Numbers(cs) && q <= |cs|
    ensures Times(q, spc) <= |Secs(spc, cs)| && Secs(spc, cs)[Times(q, spc)..] == Secs(spc, cs[q..])
  {
    if q > 0 {
      SecsSuffix(spc, cs[1..], q - 1);
      assert cs[1..][q - 1..] == cs[q..];
      assert Secs(spc, cs)[Times(q, spc)..] == Secs(spc, cs[1..])[Times(q - 1, spc)..];
    }
  }

  lemma SecsAt(spc: nat, cs: seq<nat>, q: nat, s: nat)
    requires Numbers(cs) && q < |cs| && s < spc
    ensures Times(q, spc) + s < |Secs(spc, cs)| && Secs(spc, cs)[Times(q, spc) + s] == SectorOf(spc, cs[q], s)
  {
    SecsSuffix(spc, cs, q);
    assert Secs(spc, cs[q..])[s] == SectorOf(spc, cs[q], s);
  }

  /** All sectors in the list exist. */
  predicate Within(area: seq<Sector>, ss: seq<nat>) {
    forall i :: 0 <= i < |ss| ==> ss[i] < |area|
  }

  lemma {:induction false} SecsWithin(spc: nat, cs: seq<nat>, area: seq<Sector>, n: nat)
    requires Numbers(cs) && spc > 0 && n >= 2 && |area| >= Times(n - 2, spc)
    requires forall i :: 0 <= i < |cs| ==> cs[i] < n
    ensures Within(area, Secs(spc, cs))
  {
    var ss := Secs(spc, cs);
    forall i | 0 <= i < |ss| ensures ss[i] < |area| {
      SecsHome(spc, cs, ss[i]);
      HomeBound(spc, ss[i], n);
    }
  }

  function Gather(area: seq<Sector>, ss: seq<nat>): (r: seq<Sector>)
    requires Within(area, ss)
    ensures |r| == |ss|
  {
    seq(|ss|, i requires 0 <= i < |ss| => area[ss[i]])
  }

  /** The bytes held by a list of sectors. */
  function Contents(area: seq<Sector>, ss: seq<nat>): (r: seq<Byte>)
    requires Within(area, ss)
    ensures |r| == 512 * |ss|
  {
    Flatten(Gather(area, ss))
  }

  lemma ContentsFrame(a: seq<Sector>, b: seq<Sector>, ss: seq<nat>)
    requires Within(a, ss) && |a| == |b| && forall i :: 0 <= i < |ss| ==> a[ss[i]] == b[ss[i]]
    ensures Contents(a, ss) == Contents(b, ss)
  {
    assert Gather(a, ss) == Gather(b, ss);
  }

  /** Writing one listed sector is a splice of the contents. */
  lemma ContentsUpdate(area: seq<Sector>, ss: seq<nat>, t: nat, s: Sector)
    requires Within(area, ss) && Distinct(ss) && t < |ss|
    ensures Contents(area[ss[t] := s], ss) == Splice(Contents(area, ss), 512 * t, s)
  {
    assert Gather(area[ss[t] := s], ss) == Gather(area, ss)[t := s];
    FlattenUpdate(Gather(area, ss), t, s);
  }

  lemma ContentsHead(area: seq<Sector>, ss: seq<nat>)
    requires Within(area, ss) && ss != []
    ensures Contents(area, ss) == area[ss[0]] + Contents(area, ss[1..])
  {
    assert Gather(area, ss)[1..] == Gather(area, ss[1..]);
  }

  lemma ContentsAt(area: seq<Sector>, ss: seq<nat>, p: nat)
    requires Within(area, ss) && p < 512 * |ss|
    ensures Contents(area, ss)[p] == area[ss[p / 512]][p % 512]
  {
    FlattenAt(Gather(area, ss), p);
  }

  // ----- storing a byte string -----

  /** The first 512 bytes, filled up with zeros. */
  function FirstSector(content: seq<Byte>): Sector {
    Take(content, 512) + seq(512 - |Take(content, 512)|, _ => 0)
  }

  /** The content laid out over the listed sectors, the last one zero-filled. */
  function Store(area: seq<Sector>, ss: seq<nat>, content: seq<Byte>): (r: seq<Sector>)
    requires Within(area, ss)
    ensures |r| == |area|
    decreases |ss|
  {
    if ss == [] then area else Store(area[ss[0] := FirstSector(content)], ss[1..], Drop(content, 512))
  }

  lemma {:induction false} StoreFrame(area: seq<Sector>, ss: seq<nat>, content: seq<Byte>, x: nat)
    requires Within(area, ss) && x < |area| && x !in ss
    ensures Store(area, ss, content)[x] == area[x]
    decreases |ss|
  {
    if ss != [] {
      StoreFrame(area[ss[0] := FirstSector(content)], ss[1..], Drop(content, 512), x);
    }
  }

  /** What was stored reads back, whatever its length, as long as the list is long enough. */
  lemma {:induction false} StoreReadsBack(area: seq<Sector>, ss: seq<nat>, content: seq<Byte>)
    requires Within(area, ss) && Distinct(ss) && |content| <= 512 * |ss|
    ensures Contents(Store(area, ss, content), ss)[..|content|] == content
    decreases |ss|
  {
    if ss != [] {
      var area1 := area[ss[0] := FirstSector(content)];
      var rest := Drop(content, 512);
      var area2 := Store(area1, ss[1..], rest);
      StoreReadsBack(area1, ss[1..], rest);
      StoreFrame(area1, ss[1..], rest, ss[0]);
      ContentsHead(area2, ss);
      var tail := Contents(area2, ss[1..]);
      assert Contents(area2, ss) == FirstSector(content) + tail;
      if |content| <= 512 {
        assert (FirstSector(content) + tail)[..|content|] == FirstSector(content)[..|content|] == content;
      } else {
        assert (FirstSector(content) + tail)[..|content|] == FirstSector(content) + tail[..|rest|];
        assert content == content[..512] + content[512..];
      }
    }
  }
}
