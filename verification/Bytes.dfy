/** Bytes, 512-byte sectors and little-endian words: the raw material of the on-disk structures. */
module Bytes {

  type Byte = b: int | 0 <= b < 256

  type Sector = s: seq<Byte> | |s| == 512 witness seq(512, _ => 0)

  function Min(a: int, b: int): int {
    if a <= b then a else b
  }

  /** The first n elements, or all of them when there are fewer. */
  function Take<T>(s: seq<T>, n: nat): seq<T> {
    if n <= |s| then s[..n] else s
  }

  /** What is left after the first n elements. */
  function Drop<T>(s: seq<T>, n: nat): seq<T> {
    if n <= |s| then s[n..] else []
  }

  /** a * b, by repeated addition. */
  function Times(a: nat, b: nat): nat {
    if a == 0 then 0 else Times(a - 1, b) + b
  }

  lemma {:induction false} TimesIs(a: nat, b: nat)
    ensures Times(a, b) == a * b
  {
    if a > 0 {
      TimesIs(a - 1, b);
      assert a * b == (a - 1) * b + b;
    }
  }

  lemma {:induction false} TimesGrows(a: nat, b: nat, n: nat)
    requires a <= b
    ensures Times(a, n) <= Times(b, n)
  {
    if a < b {
      TimesGrows(a, b - 1, n);
    }
  }

  predicate Distinct<T(==)>(s: seq<T>) {
    forall i, j :: 0 <= i < j < |s| ==> s[i] != s[j]
  }

  predicate Disjoint<T(==)>(s: seq<T>, t: seq<T>) {
    forall x :: x in s ==> x !in t
  }

  function Le16(s: seq<Byte>, i: nat): (w: nat)
    requires i + 2 <= |s|
    ensures w < 0x1_0000
  {
    s[i] as int + 0x100 * (s[i + 1] as int)
  }

  function Le32(s: seq<Byte>, i: nat): (w: nat)
    requires i + 4 <= |s|
    ensures w < 0x1_0000_0000
  {
    s[i] as int + 0x100 * (s[i + 1] as int) + 0x1_0000 * (s[i + 2] as int) + 0x100_0000 * (s[i + 3] as int)
  }

  function Bytes16(w: nat): (s: seq<Byte>)
    ensures |s| == 2
  {
    [w % 0x100, w / 0x100 % 0x100]
  }

  function Bytes32(w: nat): (s: seq<Byte>)
    ensures |s| == 4
  {
    [w % 0x100, w / 0x100 % 0x100, w / 0x100 / 0x100 % 0x100, w / 0x100 / 0x100 / 0x100 % 0x100]
  }

  /** t written over s from position i on. */
  function Splice<T>(s: seq<T>, i: nat, t: seq<T>): (r: seq<T>)
    requires i + |t| <= |s|
    ensures |r| == |s|
    ensures forall k :: 0 <= k < |s| ==> r[k] == if i <= k < i + |t| then t[k - i] else s[k]
  {
    s[..i] + t + s[i + |t|..]
  }

  lemma Le32RoundTrip(s: seq<Byte>, i: nat, w: nat)
    requires i + 4 <= |s| && w < 0x1_0000_0000
    ensures Le32(Splice(s, i, Bytes32(w)), i) == w
  {
    var r := Splice(s, i, Bytes32(w));
    assert r[i] == Bytes32(w)[0] && r[i + 1] == Bytes32(w)[1] && r[i + 2] == Bytes32(w)[2] && r[i + 3] == Bytes32(w)[3];
  }

  lemma LowByte(a: Byte, x: int, b: Byte, y: int)
    requires a as int + 0x100 * x == b as int + 0x100 * y
    ensures a == b && x == y
  {}

  lemma Le32Injective(s: seq<Byte>, t: seq<Byte>, i: nat)
    requires i + 4 <= |s| && i + 4 <= |t| && Le32(s, i) == Le32(t, i)
    ensures s[i] == t[i] && s[i + 1] == t[i + 1] && s[i + 2] == t[i + 2] && s[i + 3] == t[i + 3]
  {
    var s1, s2, s3: int := s[i + 1], s[i + 2], s[i + 3];
    var t1, t2, t3: int := t[i + 1], t[i + 2], t[i + 3];
    LowByte(s[i], s1 + 0x100 * (s2 + 0x100 * s3), t[i], t1 + 0x100 * (t2 + 0x100 * t3));
    LowByte(s[i + 1], s2 + 0x100 * s3, t[i + 1], t2 + 0x100 * t3);
    LowByte(s[i + 2], s3, t[i + 2], t3);
  }

  /** The bytes of a list of sectors, one after another. */
  function Flatten(ss: seq<Sector>): (r: seq<Byte>)
    ensures |r| == 512 * |ss|
  {
    if ss == [] then [] else ss[0] + Flatten(ss[1..])
  }

  lemma {:induction false} FlattenAt(ss: seq<Sector>, p: nat)
    requires p < 512 * |ss|
    ensures Flatten(ss)[p] == ss[p / 512][p % 512]
  {
    if p >= 512 {
      FlattenAt(ss[1..], p - 512);
    }
  }

  lemma {:induction false} FlattenConcat(ss: seq<Sector>, tt: seq<Sector>)
    ensures Flatten(ss + tt) == Flatten(ss) + Flatten(tt)
  {
    if ss == [] {
      assert ss + tt == tt;
    } else {
      assert (ss + tt)[1..] == ss[1..] + tt;
      FlattenConcat(ss[1..], tt);
    }
  }

  lemma FlattenUpdate(ss: seq<Sector>, t: nat, s: Sector)
    requires t < |ss|
    ensures Flatten(ss[t := s]) == Splice(Flatten(ss), 512 * t, s)
  {
    forall p | 0 <= p < 512 * |ss|
      ensures Flatten(ss[t := s])[p] == Splice(Flatten(ss), 512 * t, s)[p]
    {
      FlattenAt(ss[t := s], p);
      FlattenAt(ss, p);
    }
  }
}
