/** The file allocation table as 32-bit words: links, chains, the set a walk visits, first-fit allocation. */
module FatTable {
  import opened Bytes

  const CLUSTER_BAD := 0x0FFF_FFF7
  const CLUSTER_EOC := 0x0FFF_FFF8

  type Link = v: int | 0 <= v < 0x1000_0000

  type Nibble = v: int | 0 <= v < 16

  /** A table word: four reserved bits, which every write keeps, and a 28-bit link. */
  datatype Entry = Entry(reserved: Nibble, link: Link)

  type Fat = f: seq<Entry> | |f| <= 0x0FFF_FFF7

  function FromWord(w: nat): Entry
    requires w < 0x1_0000_0000
  {
    Entry(w / 0x1000_0000, w % 0x1000_0000)
  }

  function Next(f: Fat, c: nat): Link
    requires c < |f|
  {
    f[c].link
  }

  predicate InRange(f: Fat, c: nat) {
    2 <= c < |f|
  }

  predicate AllInRange(f: Fat, cs: seq<nat>) {
    forall i :: 0 <= i < |cs| ==> InRange(f, cs[i])
  }

  function SetLink(f: Fat, c: nat, v: Link): (r: Fat)
    requires c < |f|
    ensures |r| == |f|
  {
    f[c := f[c].(link := v)]
  }

  // ----- chains -----

  /** cs is a complete cluster chain: distinct clusters, each linked to the following one, the last to EOC. */
  predicate IsChain(f: Fat, cs: seq<nat>) {
    && |cs| > 0
    && AllInRange(f, cs)
    && Distinct(cs)
    && (forall i :: 0 <= i < |cs| ==> LinkOk(f, cs, i))
  }

  /** Cluster number i of cs leads to its successor in cs, or to EOC when it is the last. */
  predicate LinkOk(f: Fat, cs: seq<nat>, i: nat)
    requires i < |cs| && InRange(f, cs[i])
  {
    if i + 1 < |cs| then Next(f, cs[i]) == cs[i + 1] else Next(f, cs[i]) >= CLUSTER_EOC
  }

  ghost function Clusters(f: Fat): set<nat> {
    set c | 2 <= c < |f| && InRange(f, c)
  }

  /** The clusters a walk from c meets before it stops or meets one outside `avail`. */
  ghost function Trail(f: Fat, c: nat, avail: set<nat>): (r: seq<nat>)
    requires avail <= Clusters(f)
    ensures forall i :: 0 <= i < |r| ==> r[i] in avail
    ensures Distinct(r)
    decreases avail
  {
    if c in avail then [c] + Trail(f, Next(f, c), avail - {c}) else []
  }

  ghost function ChainOf(f: Fat, c: nat): (r: seq<nat>)
    ensures AllInRange(f, r) && Distinct(r)
    ensures r == [] <==> !InRange(f, c)
    ensures r != [] ==> r[0] == c
  {
    Trail(f, c, Clusters(f))
  }

  lemma {:induction false} TrailOfChain(f: Fat, cs: seq<nat>, i: nat, avail: set<nat>)
    requires IsChain(f, cs) && i < |cs| && avail <= Clusters(f)
    requires forall j :: i <= j < |cs| ==> cs[j] in avail
    ensures Trail(f, cs[i], avail) == cs[i..]
    decreases |cs| - i
  {
    assert LinkOk(f, cs, i);
    if i + 1 < |cs| {
      TrailOfChain(f, cs, i + 1, avail - {cs[i]});
    }
  }

  lemma ChainOfChain(f: Fat, cs: seq<nat>)
    requires IsChain(f, cs)
    ensures ChainOf(f, cs[0]) == cs
  {
    TrailOfChain(f, cs, 0, Clusters(f));
  }

  lemma ChainFrame(f: Fat, g: Fat, cs: seq<nat>)
    requires IsChain(f, cs) && |g| == |f|
    requires forall i :: 0 <= i < |cs| ==> g[cs[i]] == f[cs[i]]
    ensures IsChain(g, cs) && ChainOf(g, cs[0]) == cs
  {
    forall i | 0 <= i < |cs|
      ensures LinkOk(g, cs, i)
    {
      assert LinkOk(f, cs, i);
    }
    ChainOfChain(g, cs);
  }

  /** No cluster of a chain is free. */
  lemma ChainHoldsNoFree(f: Fat, cs: seq<nat>, x: nat)
    requires IsChain(f, cs) && x in cs
    ensures Next(f, x) != 0
  {
    var i :| 0 <= i < |cs| && cs[i] == x;
    assert LinkOk(f, cs, i);
  }

  // ----- reachability, defined without any walk order -----

  ghost predicate ReachIn(f: Fat, c: nat, x: nat, n: nat)
    decreases n
  {
    if n == 0 then c == x else InRange(f, c) && ReachIn(f, Next(f, c), x, n - 1)
  }

  ghost predicate Reachable(f: Fat, c: nat, x: nat) {
    InRange(f, x) && exists n: nat :: ReachIn(f, c, x, n)
  }

  lemma {:induction false} TrailReaches(f: Fat, c: nat, avail: set<nat>, x: nat) returns (n: nat)
    requires avail <= Clusters(f) && x in Trail(f, c, avail)
    ensures ReachIn(f, c, x, n)
    decreases avail
  {
    if x == c {
      n := 0;
    } else {
      var m := TrailReaches(f, Next(f, c), avail - {c}, x);
      n := m + 1;
    }
  }

  /** A trail leaves itself only through links that lead out of `avail`. */
  lemma {:induction false} TrailClosed(f: Fat, c: nat, avail: set<nat>, y: nat)
    requires avail <= Clusters(f) && y in Trail(f, c, avail)
    ensures Next(f, y) in Trail(f, c, avail) || Next(f, y) !in avail
    decreases avail
  {
    var rest := Trail(f, Next(f, c), avail - {c});
    if y == c {
      assert Next(f, c) in avail - {c} ==> rest[0] == Next(f, c);
    } else {
      TrailClosed(f, Next(f, c), avail - {c}, y);
    }
  }

  lemma {:induction false} ReachStaysInTrail(f: Fat, start: nat, c: nat, x: nat, n: nat)
    requires c in ChainOf(f, start) && ReachIn(f, c, x, n) && InRange(f, x)
    ensures x in ChainOf(f, start)
    decreases n
  {
    if n > 0 {
      TrailClosed(f, start, Clusters(f), c);
      ReachStaysInTrail(f, start, Next(f, c), x, n - 1);
    }
  }

  /** The walk from c meets exactly the clusters reachable from c, on cyclic tables too. */
  lemma WalkMeetsReachable(f: Fat, c: nat, x: nat)
    ensures x in ChainOf(f, c) <==> Reachable(f, c, x)
  {
    if x in ChainOf(f, c) {
      var n := TrailReaches(f, c, Clusters(f), x);
    }
    if Reachable(f, c, x) {
      var n: nat :| ReachIn(f, c, x, n);
      if InRange(f, c) {
        ReachStaysInTrail(f, c, c, x, n);
      }
    }
  }

  // ----- freeing -----

  /** Every link met on the walk from c leads into the table or is a stop value. */
  ghost predicate LinksInRange(f: Fat, c: nat) {
    forall i :: 0 <= i < |ChainOf(f, c)| ==> LinkInRange(f, ChainOf(f, c)[i])
  }

  predicate LinkInRange(f: Fat, c: nat)
    requires c < |f|
  {
    Next(f, c) < |f| || Next(f, c) >= CLUSTER_BAD
  }

  lemma ChainLinksInRange(f: Fat, c: nat)
    requires InRange(f, c) ==> IsChain(f, ChainOf(f, c))
    ensures LinksInRange(f, c)
  {
    var cs := ChainOf(f, c);
    forall i | 0 <= i < |cs| ensures LinkInRange(f, cs[i]) {
      assert LinkOk(f, cs, i);
    }
  }

  /** The table with the links of the clusters cs cleared, reserved bits kept. */
  function Cleared(f: Fat, cs: seq<nat>): (r: Fat)
    requires AllInRange(f, cs)
    ensures |r| == |f|
    decreases |cs|
  {
    if cs == [] then f else Cleared(SetLink(f, cs[0], 0), cs[1..])
  }

  lemma {:induction false} ClearedAt(f: Fat, cs: seq<nat>, c: nat)
    requires AllInRange(f, cs) && c < |f|
    ensures Cleared(f, cs)[c] == if c in cs then f[c].(link := 0) else f[c]
    decreases |cs|
  {
    if cs != [] {
      ClearedAt(SetLink(f, cs[0], 0), cs[1..], c);
    }
  }

  function NonzeroFrom(f: Fat, c: nat): nat
    requires c <= |f|
    decreases |f| - c
  {
    if c == |f| then 0 else (if Next(f, c) != 0 then 1 else 0) + NonzeroFrom(f, c + 1)
  }

  /** Clearing a cluster lowers the number of nonzero entries by one if it was not free, and never raises it. */
  lemma {:induction false} NonzeroDrops(f: Fat, c: nat, d: nat)
    requires d <= |f| && c < |f|
    ensures NonzeroFrom(SetLink(f, c, 0), d) == NonzeroFrom(f, d) - (if d <= c && Next(f, c) != 0 then 1 else 0)
    decreases |f| - d
  {
    if d < |f| {
      NonzeroDrops(f, c, d + 1);
    }
  }

  // ----- first-fit allocation -----

  predicate IsFree(f: Fat, c: nat) {
    InRange(f, c) && Next(f, c) == 0
  }

  predicate Ascending(s: seq<nat>) {
    forall i, j :: 0 <= i < j < |s| ==> s[i] < s[j]
  }

  /** The free clusters from c upwards, in ascending order. */
  function FreeFrom(f: Fat, c: nat): (r: seq<nat>)
    requires 2 <= c
    ensures forall i :: 0 <= i < |r| ==> c <= r[i] && IsFree(f, r[i])
    ensures forall x :: c <= x && IsFree(f, x) ==> x in r
    ensures Ascending(r)
    decreases |f| - c
  {
    if c >= |f| then []
    else if Next(f, c) == 0 then [c] + FreeFrom(f, c + 1)
    else FreeFrom(f, c + 1)
  }

  function FreeList(f: Fat): (r: seq<nat>)
    ensures forall i :: 0 <= i < |r| ==> IsFree(f, r[i])
    ensures forall x :: IsFree(f, x) ==> x in r
    ensures Ascending(r) && Distinct(r)
  {
    FreeFrom(f, 2)
  }

  /** An ascending list is determined by its elements. */
  lemma {:induction false} AscendingUnique(s: seq<nat>, t: seq<nat>)
    requires Ascending(s) && Ascending(t)
    requires forall x :: x in s <==> x in t
    ensures s == t
  {
    assert t != [] ==> t[0] in s;
    if s != [] {
      assert s[0] in t;
      assert t[0] in s;
      var i :| 0 <= i < |s| && s[i] == t[0];
      var j :| 0 <= j < |t| && t[j] == s[0];
      assert s[0] == t[0];
      forall x ensures x in s[1..] <==> x in t[1..] {
        assert x in s[1..] <==> x in s && x != s[0];
        assert x in t[1..] <==> x in t && x != t[0];
      }
      AscendingUnique(s[1..], t[1..]);
    }
  }

  /** Taking the first free cluster leaves the rest of the free list. */
  lemma FreeListAfterTake(f: Fat, v: Link)
    requires FreeList(f) != [] && v != 0
    ensures FreeList(SetLink(f, FreeList(f)[0], v)) == FreeList(f)[1..]
  {
    var l := FreeList(f);
    var g := SetLink(f, l[0], v);
    forall x ensures x in FreeList(g) <==> x in l[1..] {
      assert x in l[1..] <==> x in l && x != l[0];
    }
    AscendingUnique(FreeList(g), l[1..]);
  }

  lemma FreeListKept(f: Fat, c: nat, v: Link)
    requires c < |f| && v != 0 && !IsFree(f, c)
    ensures FreeList(SetLink(f, c, v)) == FreeList(f)
  {
    AscendingUnique(FreeList(SetLink(f, c, v)), FreeList(f));
  }

  /** Chaining the clusters cs one at a time: mark the new one EOC, then link the previous one to it. */
  function LinkFrom(f: Fat, prev: nat, cs: seq<nat>): (r: Fat)
    requires prev < |f| && AllInRange(f, cs)
    ensures |r| == |f|
    decreases |cs|
  {
    if cs == [] then f else
      var f1 := SetLink(f, cs[0], CLUSTER_EOC);
      var f2 := if prev != 0 then SetLink(f1, prev, cs[0]) else f1;
      LinkFrom(f2, cs[0], cs[1..])
  }

  /** Cluster number i of cs was given its link in the chain, and kept its reserved bits. */
  predicate Linked(f: Fat, r: Fat, cs: seq<nat>, i: nat)
    requires |r| == |f| && i < |cs| && InRange(f, cs[i])
  {
    && r[cs[i]].reserved == f[cs[i]].reserved
    && r[cs[i]].link == if i + 1 < |cs| then cs[i + 1] else CLUSTER_EOC
  }

  /** What every cluster of the new chain points to, and that nothing else changed. */
  lemma {:induction false} LinkFromAt(f: Fat, prev: nat, cs: seq<nat>)
    requires prev < |f| && AllInRange(f, cs) && Distinct(cs) && prev !in cs
    ensures forall c :: 0 <= c < |f| && c !in cs && c != prev ==> LinkFrom(f, prev, cs)[c] == f[c]
    ensures LinkFrom(f, prev, cs)[prev] == if prev != 0 && cs != [] then f[prev].(link := cs[0]) else f[prev]
    ensures forall i :: 0 <= i < |cs| ==> Linked(f, LinkFrom(f, prev, cs), cs, i)
    decreases |cs|
  {
    if cs != [] {
      var f1 := SetLink(f, cs[0], CLUSTER_EOC);
      var f2 := if prev != 0 then SetLink(f1, prev, cs[0]) else f1;
      var rest := cs[1..];
      LinkFromAt(f2, cs[0], rest);
      var r := LinkFrom(f2, cs[0], rest);
      forall i | 0 <= i < |cs|
        ensures Linked(f, r, cs, i)
      {
        if i > 0 {
          assert Linked(f2, r, rest, i - 1);
          assert rest[i - 1] == cs[i];
        }
      }
    }
  }

  lemma LinkedIsChain(f: Fat, cs: seq<nat>)
    requires |f| > 0 && cs != [] && AllInRange(f, cs) && Distinct(cs)
    ensures IsChain(LinkFrom(f, 0, cs), cs)
    ensures ChainOf(LinkFrom(f, 0, cs), cs[0]) == cs
  {
    var r := LinkFrom(f, 0, cs);
    LinkFromAt(f, 0, cs);
    forall i | 0 <= i < |cs|
      ensures LinkOk(r, cs, i)
    {
      assert Linked(f, r, cs, i);
    }
    ChainOfChain(r, cs);
  }

  /** Linking a run of free clusters and clearing it again gives back every word, reserved bits included. */
  lemma ClearUndoesLink(f: Fat, cs: seq<nat>)
    requires |f| > 0 && AllInRange(f, cs) && Distinct(cs) && forall i :: 0 <= i < |cs| ==> Next(f, cs[i]) == 0
    ensures Cleared(LinkFrom(f, 0, cs), cs) == f
  {
    var r := LinkFrom(f, 0, cs);
    LinkFromAt(f, 0, cs);
    forall c | 0 <= c < |f|
      ensures Cleared(r, cs)[c] == f[c]
    {
      ClearedAt(r, cs, c);
      if c in cs {
        var i :| 0 <= i < |cs| && cs[i] == c;
        assert Linked(f, r, cs, i);
      }
    }
  }

  /** Linking the n lowest free clusters leaves the others, and only them, free. */
  lemma FreeAfterLink(f: Fat, n: nat)
    requires |f| > 0 && n <= |FreeList(f)|
    ensures FreeList(LinkFrom(f, 0, FreeList(f)[..n])) == FreeList(f)[n..]
  {
    hide FreeList, LinkFrom;
    var l := FreeList(f);
    var g := LinkFrom(f, 0, l[..n]);
    forall x: nat ensures x in FreeList(g) <==> x in l[n..] {
      LinkedFree(f, l[..n], x);
      SplitMember(l, n, x);
    }
    AscendingUnique(FreeList(g), l[n..]);
  }

  /** A cluster is free after the linking if it was free before and was not linked. */
  lemma LinkedFree(f: Fat, cs: seq<nat>, x: nat)
    requires |f| > 0 && AllInRange(f, cs) && Distinct(cs) && 0 !in cs
    ensures IsFree(LinkFrom(f, 0, cs), x) <==> IsFree(f, x) && x !in cs
  {
    hide LinkFrom;
    LinkFromAt(f, 0, cs);
    if x in cs {
      var i :| 0 <= i < |cs| && cs[i] == x;
      assert Linked(f, LinkFrom(f, 0, cs), cs, i);
    }
  }

  lemma SplitMember(l: seq<nat>, n: nat, x: nat)
    requires n <= |l| && Distinct(l)
    ensures x in l[n..] <==> x in l && x !in l[..n]
  {
    assert l == l[..n] + l[n..];
    if x in l[n..] {
      var i :| n <= i < |l| && l[i] == x;
      assert forall j :: 0 <= j < n ==> l[..n][j] == l[j] != x;
    }
  }

  lemma {:induction false} FreeCountSet(f: Fat, c: nat, d: nat)
    requires 2 <= d && InRange(f, c) && Next(f, c) != 0
    ensures |FreeFrom(SetLink(f, c, 0), d)| == |FreeFrom(f, d)| + if d <= c then 1 else 0
    decreases |f| - d
  {
    if d < |f| {
      FreeCountSet(f, c, d + 1);
    }
  }

  /** Freeing a chain adds its length to the number of free clusters. */
  lemma {:induction false} FreeCountCleared(f: Fat, cs: seq<nat>)
    requires AllInRange(f, cs) && Distinct(cs) && forall i :: 0 <= i < |cs| ==> Next(f, cs[i]) != 0
    ensures |FreeList(Cleared(f, cs))| == |FreeList(f)| + |cs|
    decreases |cs|
  {
    if cs != [] {
      FreeCountSet(f, cs[0], 2);
      FreeCountCleared(SetLink(f, cs[0], 0), cs[1..]);
    }
  }

  lemma ChainSuffix(f: Fat, cs: seq<nat>, i: nat)
    requires IsChain(f, cs) && i < |cs|
    ensures IsChain(f, cs[i..]) && ChainOf(f, cs[i]) == cs[i..]
  {
    var ds := cs[i..];
    forall j | 0 <= j < |ds|
      ensures LinkOk(f, ds, j)
    {
      assert LinkOk(f, cs, i + j);
    }
    ChainOfChain(f, ds);
  }
}
