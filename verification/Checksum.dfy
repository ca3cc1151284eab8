/** The Internet checksum of RFC 1071, section 1, and the headers that carry it. */
module Checksum {
  import opened Bytes

  // ----- the one's complement sum -----

  /** The 16-bit words in memory order, a last odd byte counting as a word of its own. */
  function Sum(d: seq<Byte>): nat {
    if d == [] then 0
    else if |d| == 1 then d[0]
    else Le16(d, 0) + Sum(d[2..])
  }

  /** Carries are added back in until none is left. */
  function Fold(sum: nat): (r: nat)
    ensures r < 0x1_0000
    decreases sum
  {
    if sum < 0x1_0000 then sum else Fold(sum % 0x1_0000 + sum / 0x1_0000)
  }

  function Of(d: seq<Byte>): (c: nat)
    ensures c < 0x1_0000
  {
    0xFFFF - Fold(Sum(d))
  }

  /** Folding is reduction modulo 0xFFFF, with 0xFFFF instead of 0 for every sum but 0 itself. */
  lemma {:induction false} FoldIs(sum: nat)
    ensures Fold(sum) % 0xFFFF == sum % 0xFFFF && (Fold(sum) == 0 <==> sum == 0)
  {
    if sum >= 0x1_0000 {
      var q, r := sum / 0x1_0000, sum % 0x1_0000;
      FoldIs(r + q);
      assert sum == 0xFFFF * q + (r + q);
      ModShift(r + q, q);
    }
  }

  lemma ModShift(a: nat, k: nat)
    ensures (0xFFFF * k + a) % 0xFFFF == a % 0xFFFF
  {
  }

  /** A message checks (its checksum is 0) exactly when its sum is a positive multiple of 0xFFFF. */
  lemma ChecksIff(d: seq<Byte>)
    ensures Of(d) == 0 <==> Sum(d) > 0 && Sum(d) % 0xFFFF == 0
  {
    hide Sum;
    FoldIs(Sum(d));
    var f := Fold(Sum(d));
    assert f == 0xFFFF || f % 0xFFFF == f;
  }

  // ----- one word of a message -----

  function Low(w: nat): Byte {
    w % 0x100
  }

  function High(w: nat): Byte
    requires w < 0x1_0000
  {
    w / 0x100
  }

  /** The message with the word at byte offset k replaced. */
  function WithWord(d: seq<Byte>, k: nat, w: nat): (r: seq<Byte>)
    requires k + 2 <= |d| && w < 0x1_0000
    ensures |r| == |d| && Le16(r, k) == w
  {
    d[k := Low(w)][k + 1 := High(w)]
  }

  lemma {:induction false} SumWithWord(d: seq<Byte>, k: nat, w: nat)
    requires k % 2 == 0 && k + 2 <= |d| && w < 0x1_0000
    ensures Sum(WithWord(d, k, w)) + Le16(d, k) == Sum(d) + w
    decreases k
  {
    var r := WithWord(d, k, w);
    if k == 0 {
      assert r[2..] == d[2..];
    } else {
      SumWithWord(d[2..], k - 2, w);
      assert r[2..] == WithWord(d[2..], k - 2, w);
      assert Le16(r, 0) == Le16(d, 0) && Le16(d[2..], k - 2) == Le16(d, k);
    }
  }

  /** Filling a zeroed field, at any even offset of a message of any length, with the computed checksum makes
      the message check. */
  lemma FillChecks(d: seq<Byte>, k: nat)
    requires k % 2 == 0 && k + 2 <= |d| && Le16(d, k) == 0
    ensures Of(WithWord(d, k, Of(d))) == 0
  {
    hide Sum, Fold;
    SumWithWord(d, k, Of(d));
    ChecksIff(WithWord(d, k, Of(d)));
    FoldIs(Sum(d));
    ComplementCancels(Sum(d), Fold(Sum(d)));
  }

  lemma ComplementCancels(sum: nat, f: nat)
    requires f < 0x1_0000 && f % 0xFFFF == sum % 0xFFFF && (f == 0 <==> sum == 0)
    ensures var s := sum + (0xFFFF - f); s > 0 && s % 0xFFFF == 0
  {
    assert sum - f == 0xFFFF * (sum / 0xFFFF - f / 0xFFFF);
  }

  /** Which changes of one word the check does not see: 0 for 0xFFFF, unless that leaves only zeros, or the converse. */
  lemma OneWordDetected(d: seq<Byte>, k: nat, w: nat)
    requires k % 2 == 0 && k + 2 <= |d| && w < 0x1_0000 && Of(d) == 0
    ensures Of(WithWord(d, k, w)) == 0 <==>
            || w == Le16(d, k)
            || (Le16(d, k) == 0 && w == 0xFFFF)
            || (Le16(d, k) == 0xFFFF && w == 0 && Sum(d) != 0xFFFF)
  {
    hide Sum, Of;
    SumWithWord(d, k, w);
    ChecksIff(d);
    ChecksIff(WithWord(d, k, w));
    WordShift(Sum(d), Le16(d, k), w);
  }

  lemma WordShift(sum: nat, v: nat, w: nat)
    requires sum > 0 && sum % 0xFFFF == 0 && v < 0x1_0000 && w < 0x1_0000 && v <= sum + w
    ensures var s := sum + w - v;
            (s > 0 && s % 0xFFFF == 0) <==> (w == v || (v == 0 && w == 0xFFFF) || (v == 0xFFFF && w == 0 && sum != 0xFFFF))
  {
    var q := sum / 0xFFFF;
    assert sum == 0xFFFF * q;
    var s := sum + w - v;
    assert s % 0xFFFF == (w - v) % 0xFFFF;
    assert -0xFFFF <= w - v <= 0xFFFF;
    assert (w - v) % 0xFFFF == 0 <==> (w - v == 0 || w - v == 0xFFFF || w - v == -0xFFFF);
  }

  // ----- the loops -----

  lemma {:induction false} SumBound(d: seq<Byte>)
    ensures 2 * Sum(d) <= 0xFFFF * (|d| + 1)
  {
    if |d| >= 2 {
      SumBound(d[2..]);
    }
  }

  lemma {:induction false} SumSplit(d: seq<Byte>, i: nat)
    requires i % 2 == 0 && i <= |d|
    ensures Sum(d) == Sum(d[..i]) + Sum(d[i..])
    decreases i
  {
    if i == 0 {
      assert d[..0] == [] && d[0..] == d;
    } else {
      SumSplit(d[2..], i - 2);
      assert d[..i][2..] == d[2..][..i - 2] && d[2..][i - 2..] == d[i..];
    }
  }

  /** Every partial sum of a message of at most 65535 bytes fits the 32-bit accumulator. */
  lemma SumFits(d: seq<Byte>, i: nat)
    requires i % 2 == 0 && i <= |d| <= 0xFFFF
    ensures Sum(d[..i]) <= Sum(d) < 0x1_0000_0000
  {
    SumSplit(d, i);
    SumBound(d);
  }

  lemma SumStep(d: seq<Byte>, i: nat)
    requires i % 2 == 0 && i + 2 <= |d|
    ensures Sum(d[..i + 2]) == Sum(d[..i]) + Le16(d, i)
  {
    SumSplit(d[..i + 2], i);
    assert d[..i + 2][..i] == d[..i];
    var w := d[..i + 2][i..];
    assert w == d[i..i + 2] && w[2..] == [];
  }

  lemma SumOdd(d: seq<Byte>, i: nat)
    requires i % 2 == 0 && i + 1 == |d|
    ensures Sum(d) == Sum(d[..i]) + d[i]
  {
    SumSplit(d, i);
    assert d[i..] == [d[i]];
  }

  /** The 32-bit accumulator loop and the folding loop compute the checksum; no addition wraps. */
  method Compute(d: seq<Byte>) returns (c: nat)
    requires |d| <= 0xFFFF
    ensures c == Of(d)
  {
    var sum: nat := 0;
    var i := 0;
    assert d[..0] == [];
    while |d| - i > 1
      invariant 0 <= i <= |d| && i % 2 == 0 && sum == Sum(d[..i])
    {
      SumStep(d, i);
      SumFits(d, i + 2);
      sum := Add32(sum, Le16(d, i));
      i := i + 2;
    }
    if |d| - i == 1 {
      SumOdd(d, i);
      SumFits(d, i);
      sum := Add32(sum, d[i]);
    } else {
      assert d[..i] == d;
    }
    while sum / 0x1_0000 != 0
      invariant Fold(sum) == Fold(Sum(d))
      decreases sum
    {
      sum := sum % 0x1_0000 + sum / 0x1_0000;
    }
    c := 0xFFFF - sum;
  }

  /** Addition on uint32_t, used only where it does not wrap. */
  function Add32(a: nat, b: nat): (r: nat)
    requires a + b < 0x1_0000_0000
    ensures r == a + b
  {
    (a + b) % 0x1_0000_0000
  }

  // ----- the headers -----

  /** A 16-bit field in network order. */
  function Net16(w: nat): (s: seq<Byte>)
    requires w < 0x1_0000
    ensures |s| == 2
  {
    [High(w), Low(w)]
  }

  function Net32(w: nat): (s: seq<Byte>)
    requires w < 0x1_0000_0000
    ensures |s| == 4
  {
    Net16(w / 0x1_0000) + Net16(w % 0x1_0000)
  }

  /** The number that a receiver reads from bytes in network order. */
  function FromNet(s: seq<Byte>): nat {
    if s == [] then 0 else 256 * FromNet(s[..|s| - 1]) + s[|s| - 1]
  }

  lemma FromNet16(w: nat)
    requires w < 0x1_0000
    ensures FromNet(Net16(w)) == w
  {
    var s := Net16(w);
    assert s[..1] == [s[0]] && [s[0]][..0] == [];
    assert FromNet([s[0]]) == s[0];
  }

  lemma FromNet32(w: nat)
    requires w < 0x1_0000_0000
    ensures FromNet(Net32(w)) == w
  {
    var a, b := Net16(w / 0x1_0000), Net16(w % 0x1_0000);
    FromNet16(w / 0x1_0000);
    FromNet16(w % 0x1_0000);
    FromNetJoin(a, b);
  }

  lemma FromNetJoin(a: seq<Byte>, b: seq<Byte>)
    requires |b| == 2
    ensures FromNet(a + b) == 0x1_0000 * FromNet(a) + FromNet(b)
  {
    assert (a + b)[..|a| + 1] == a + [b[0]] && (a + [b[0]])[..|a|] == a;
    assert b[..1] == [b[0]] && [b[0]][..0] == [];
    assert FromNet(a + [b[0]]) == 256 * FromNet(a) + b[0];
    assert FromNet([b[0]]) == b[0];
  }

  const IP_HEADER := 20
  const IP_CHECKSUM := 10

  /** The IPv4 header of section 3.1 of RFC 791 as ip_send fills it, the checksum still zero. */
  function IpHeader(src: nat, dst: nat, protocol: Byte, payloadLen: nat): (h: seq<Byte>)
    requires src < 0x1_0000_0000 && dst < 0x1_0000_0000 && payloadLen < 0x1_0000 - IP_HEADER
    ensures |h| == IP_HEADER && Le16(h, IP_CHECKSUM) == 0
  {
    [0x45, 0] + Net16(IP_HEADER + payloadLen) + Net16(0) + Net16(0x4000) + [64, protocol] + [0, 0] + Net32(src) + Net32(dst)
  }

  /** The header that a receiver reads at the offsets of section 3.1 of RFC 791: version 4, five words, no service, the
      total length, no identification, not to be fragmented, 64 hops, protocol, source and destination. */
  predicate ReadsAsHeader(h: seq<Byte>, src: nat, dst: nat, protocol: Byte, payloadLen: nat) {
    && |h| >= 20
    && h[0] / 16 == 4 && h[0] % 16 == 5 && h[1] == 0
    && FromNet(h[2..4]) == 20 + payloadLen && FromNet(h[4..6]) == 0 && FromNet(h[6..8]) == 0x4000
    && h[8] == 64 && h[9] == protocol
    && FromNet(h[12..16]) == src && FromNet(h[16..20]) == dst
  }

  lemma HeaderFields(src: nat, dst: nat, protocol: Byte, payloadLen: nat)
    requires src < 0x1_0000_0000 && dst < 0x1_0000_0000 && payloadLen < 0x1_0000 - IP_HEADER
    ensures ReadsAsHeader(IpHeader(src, dst, protocol, payloadLen), src, dst, protocol, payloadLen)
  {
    hide FromNet, Net16, Net32;
    var h := IpHeader(src, dst, protocol, payloadLen);
    assert h[2..4] == Net16(IP_HEADER + payloadLen) && h[4..6] == Net16(0) && h[6..8] == Net16(0x4000);
    assert h[12..16] == Net32(src) && h[16..20] == Net32(dst);
    FromNet16(IP_HEADER + payloadLen);
    FromNet16(0);
    FromNet16(0x4000);
    FromNet32(src);
    FromNet32(dst);
  }

  /** The checksum aside, the fields are read the same. */
  lemma SealedHeader(h: seq<Byte>, g: seq<Byte>, src: nat, dst: nat, protocol: Byte, payloadLen: nat)
    requires |h| == |g| == 20 && ReadsAsHeader(h, src, dst, protocol, payloadLen) && g[..10] == h[..10] && g[12..] == h[12..]
    ensures ReadsAsHeader(g, src, dst, protocol, payloadLen)
  {
    hide FromNet;
    assert forall i :: 0 <= i < 10 ==> g[i] == g[..10][i] == h[i];
    assert g[2..4] == g[..10][2..4] == h[2..4] && g[4..6] == g[..10][4..6] == h[4..6] && g[6..8] == g[..10][6..8] == h[6..8];
    assert g[12..16] == g[12..][..4] == h[12..16] && g[16..20] == g[12..][4..8] == h[16..20];
  }

  /** Fill the zeroed checksum field at byte k of the message of n bytes that the buffer starts with. */
  method Seal(a: array<Byte>, n: nat, k: nat)
    requires n <= a.Length && n <= 0xFFFF && k % 2 == 0 && k + 2 <= n && Le16(a[..n], k) == 0
    modifies a
    ensures Of(a[..n]) == 0
    ensures Sealed(old(a[..]), a[..], k)
  {
    ghost var before, message := a[..], a[..n];
    var c := Compute(a[..n]);
    FillChecks(message, k);
    Store(a, k, [Low(c), High(c)]);
    Patched(before, n, k, c, a[..]);
    assert a[..n] == a[..][..n];
  }

  /** The two bytes at k aside, nothing has changed. */
  predicate Sealed(before: seq<Byte>, after: seq<Byte>, k: nat) {
    |before| == |after| && forall i :: 0 <= i < |before| && i != k && i != k + 1 ==> after[i] == before[i]
  }

  lemma Patched(before: seq<Byte>, n: nat, k: nat, c: nat, after: seq<Byte>)
    requires k + 2 <= n <= |before| && c < 0x1_0000
    requires after == before[..k] + [Low(c), High(c)] + before[k + 2..]
    ensures after[..n] == WithWord(before[..n], k, c) && Sealed(before, after, k)
  {
    assert after[k] == Low(c) && after[k + 1] == High(c);
    forall i | 0 <= i < |before| && i != k && i != k + 1 ensures after[i] == before[i] {
      if i > k { assert after[i] == before[k + 2..][i - k - 2]; }
    }
    var w := WithWord(before[..n], k, c);
    assert forall i :: 0 <= i < n ==> after[..n][i] == w[i];
  }

  /** ip_send up to the frame it hands over: the header in place, then the payload. */
  method IpSend(tx: array<Byte>, src: nat, dst: nat, protocol: Byte, payload: seq<Byte>)
    requires tx.Length == 1514 && IP_HEADER + |payload| <= tx.Length
    requires src < 0x1_0000_0000 && dst < 0x1_0000_0000
    modifies tx
    ensures Of(tx[..IP_HEADER]) == 0
    ensures ReadsAsHeader(tx[..IP_HEADER], src, dst, protocol, |payload|)
    ensures tx[IP_HEADER..IP_HEADER + |payload|] == payload
  {
    hide IpHeader, ReadsAsHeader;
    var header := IpHeader(src, dst, protocol, |payload|);
    Lay(tx, header, payload);
    ghost var before := tx[..];
    assert tx[..IP_HEADER] == header == before[..IP_HEADER] && before[IP_HEADER..IP_HEADER + |payload|] == payload;
    Seal(tx, IP_HEADER, IP_CHECKSUM);
    ghost var after := tx[..];
    Kept(before, after, IP_CHECKSUM, header, payload);
    HeaderFields(src, dst, protocol, |payload|);
    ghost var sent := after[..IP_HEADER];
    assert sent[..10] == after[..10] && sent[12..] == after[12..20];
    SealedHeader(header, sent, src, dst, protocol, |payload|);
    assert tx[..IP_HEADER] == sent;
    assert tx[IP_HEADER..IP_HEADER + |payload|] == after[IP_HEADER..IP_HEADER + |payload|];
  }

  /** Two strings one after the other at the beginning of a buffer. */
  method Lay(a: array<Byte>, head: seq<Byte>, tail: seq<Byte>)
    requires |head| + |tail| <= a.Length
    modifies a
    ensures a[..|head|] == head && a[|head|..|head| + |tail|] == tail
  {
    Store(a, 0, head);
    assert a[..|head|] == head;
    Store(a, |head|, tail);
  }

  /** What a sealed buffer still holds of the header and the payload that were laid into it. */
  lemma Kept(before: seq<Byte>, after: seq<Byte>, k: nat, head: seq<Byte>, tail: seq<Byte>)
    requires Sealed(before, after, k) && k + 2 <= |head| && |head| + |tail| <= |before|
    requires before[..|head|] == head && before[|head|..|head| + |tail|] == tail
    ensures after[..k] == head[..k] && after[k + 2..|head|] == head[k + 2..] && after[|head|..|head| + |tail|] == tail
  {
    var h, t := before[..|head|], before[|head|..|head| + |tail|];
    forall i | 0 <= i < |head| && i != k && i != k + 1 ensures after[i] == head[i] {
      assert h[i] == before[i];
    }
    forall i | |head| <= i < |head| + |tail| ensures after[i] == tail[i - |head|] {
      assert t[i - |head|] == before[i];
    }
  }

  method Store(a: array<Byte>, at: nat, s: seq<Byte>)
    requires at + |s| <= a.Length
    modifies a
    ensures a[..] == old(a[..at]) + s + old(a[at + |s|..])
  {
    var i := 0;
    while i < |s|
      invariant 0 <= i <= |s|
      invariant forall k :: 0 <= k < i ==> a[at + k] == s[k]
      invariant forall k :: 0 <= k < at || at + i <= k < a.Length ==> a[k] == old(a[k])
    {
      a[at + i] := s[i];
      i := i + 1;
    }
  }

  const ICMP_HEADER := 8

  /** An ICMP echo message with its checksum field zero. */
  function IcmpMessage(kind: Byte, id: nat, sequence: nat, payload: seq<Byte>): (m: seq<Byte>)
    requires id < 0x1_0000 && sequence < 0x1_0000
    ensures |m| == ICMP_HEADER + |payload| && Le16(m, 2) == 0
  {
    [kind, 0, 0, 0] + [Low(id), High(id)] + [Low(sequence), High(sequence)] + payload
  }

  /** Type, code, identifier, sequence number and payload of an echo message, at the offsets of RFC 792. */
  lemma MessageFields(kind: Byte, id: nat, sequence: nat, payload: seq<Byte>)
    requires id < 0x1_0000 && sequence < 0x1_0000
    ensures var m := IcmpMessage(kind, id, sequence, payload);
      m[0] == kind && m[1] == 0 && Le16(m, 4) == id && Le16(m, 6) == sequence && m[8..] == payload
  {
    var m := IcmpMessage(kind, id, sequence, payload);
    assert m[4] == Low(id) && m[5] == High(id) && m[6] == Low(sequence) && m[7] == High(sequence);
  }

  lemma SealedMessage(m: seq<Byte>, after: seq<Byte>, id: nat, sequence: nat, payload: seq<Byte>)
    requires |m| == 8 + |payload| <= |after| && after[..2] == m[..2] && after[4..|m|] == m[4..]
    requires m[0] == 0 && m[1] == 0 && Le16(m, 4) == id && Le16(m, 6) == sequence && m[8..] == payload
    ensures after[0] == 0 && after[1] == 0 && Le16(after, 4) == id && Le16(after, 6) == sequence && after[8..8 + |payload|] == payload
  {
    assert after[0] == after[..2][0] && after[1] == after[..2][1];
    assert forall i :: 4 <= i < |m| ==> after[i] == after[4..|m|][i - 4] == m[i];
  }

  /** The message icmp_handle answers with, id and sequence number copied as they stand in memory. */
  method IcmpReply(reply: array<Byte>, id: nat, sequence: nat, payload: seq<Byte>)
    requires reply.Length == 1024 && ICMP_HEADER + |payload| <= reply.Length
    requires id < 0x1_0000 && sequence < 0x1_0000
    modifies reply
    ensures Of(reply[..ICMP_HEADER + |payload|]) == 0
    ensures reply[0] == 0 && reply[1] == 0
    ensures Le16(reply[..], 4) == id && Le16(reply[..], 6) == sequence
    ensures reply[8..8 + |payload|] == payload
  {
    hide IcmpMessage;
    var m := IcmpMessage(0, id, sequence, payload);
    MessageFields(0, id, sequence, payload);
    Lay(reply, m, []);
    ghost var before := reply[..];
    assert reply[..|m|] == m == before[..|m|] && before[|m|..|m| + 0] == [];
    Seal(reply, |m|, 2);
    ghost var after := reply[..];
    Kept(before, after, 2, m, []);
    SealedMessage(m, after, id, sequence, payload);
    assert reply[8..8 + |payload|] == after[8..8 + |payload|];
  }
}
