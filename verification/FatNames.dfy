/** 8.3 names: the text a caller types and the 11 raw bytes of a directory slot. */
module FatNames {
  import opened Bytes

  const SPACE: Byte := 0x20
  const DOT: Byte := 0x2E

  /** A C string without its terminator; no byte of it is zero. */
  type Text = seq<Byte>

  /** The name and extension fields of a slot: 8 bytes, then 3. */
  type RawName = s: seq<Byte> | |s| == 11 witness seq(11, _ => 0x20)

  function Upper(c: Byte): Byte {
    if 0x61 <= c <= 0x7A then c - 32 else c
  }

  function UpperAll(s: seq<Byte>): (r: seq<Byte>)
    ensures |r| == |s|
  {
    seq(|s|, i requires 0 <= i < |s| => Upper(s[i]))
  }

  /** The same character, or the two cases of one letter: they lie 32 apart, the larger one in a to z. */
  predicate SameLetter(a: Byte, b: Byte) {
    a == b || (a - b == 32 && 0x61 <= a <= 0x7A) || (b - a == 32 && 0x61 <= b <= 0x7A)
  }

  /** Equal up to case. */
  predicate SameText(s: seq<Byte>, t: seq<Byte>) {
    |s| == |t| && forall i :: 0 <= i < |s| ==> SameLetter(s[i], t[i])
  }

  /** The position of the last dot, or -1. */
  function LastDot(s: seq<Byte>): (d: int)
    ensures -1 <= d < |s|
    ensures d >= 0 ==> s[d] == DOT
    ensures forall i :: d < i < |s| ==> s[i] != DOT
  {
    if s == [] then -1
    else if s[|s| - 1] == DOT then |s| - 1
    else LastDot(s[..|s| - 1])
  }

  function Base(name: seq<Byte>): seq<Byte> {
    if LastDot(name) >= 0 then name[..LastDot(name)] else name
  }

  function Ext(name: seq<Byte>): seq<Byte> {
    if LastDot(name) >= 0 then name[LastDot(name) + 1..] else []
  }

  function PadTo(s: seq<Byte>, n: nat): (r: seq<Byte>)
    requires |s| <= n
    ensures |r| == n
  {
    s + seq(n - |s|, _ => SPACE)
  }

  /** The raw form of a name: upper case, base cut to 8 and extension to 3, padded with spaces. */
  function Encode(name: Text): (raw: RawName)
    ensures raw[..8] == Field(Base(name), 8) && raw[8..] == Field(Ext(name), 3)
  {
    Field(Base(name), 8) + Field(Ext(name), 3)
  }

  function Field(s: seq<Byte>, n: nat): (r: seq<Byte>)
    ensures |r| == n
  {
    PadTo(UpperAll(Take(s, n)), n)
  }

  /** The part of a padded field before its first space. */
  function UpTo(s: seq<Byte>): (r: seq<Byte>)
    ensures |r| <= |s| && r == s[..|r|] && SPACE !in r
    ensures |r| < |s| ==> s[|r|] == SPACE
  {
    if s == [] || s[0] == SPACE then [] else [s[0]] + UpTo(s[1..])
  }

  /** The text form of a raw name. */
  function Format(raw: RawName): seq<Byte> {
    var base := UpTo(raw[..8]);
    var ext := raw[8..];
    if ext == [SPACE, SPACE, SPACE] then base else base + [DOT] + UpTo(ext)
  }

  /** A name that an 8.3 slot can hold: base at most 8, extension 1 to 3 if there is a dot, no spaces. */
  predicate WellFormed(name: Text) {
    && 0 !in name
    && SPACE !in name
    && |Base(name)| <= 8
    && |Ext(name)| <= 3
    && (LastDot(name) >= 0 ==> Ext(name) != [])
  }

  predicate NoLower(s: seq<Byte>) {
    forall i :: 0 <= i < |s| ==> !(0x61 <= s[i] <= 0x7A)
  }

  /** A raw name that some well-formed text encodes to. */
  predicate Canonical(raw: RawName) {
    var base, ext := UpTo(raw[..8]), UpTo(raw[8..]);
    && raw == PadTo(base, 8) + PadTo(ext, 3)
    && NoLower(raw) && 0 !in raw
    && DOT !in ext
    && (ext == [] ==> DOT !in base)
  }

  // ----- lemmas -----

  /** UpTo is fixed by what it keeps and the space that stops it. */
  lemma {:induction false} UpToIs(s: seq<Byte>, n: nat)
    requires n <= |s| && SPACE !in s[..n] && (n < |s| ==> s[n] == SPACE)
    ensures UpTo(s) == s[..n]
  {
    var r := UpTo(s);
    assert forall i :: 0 <= i < n ==> s[..n][i] == s[i] != SPACE;
    assert forall i :: 0 <= i < |r| ==> r[i] == s[i] != SPACE;
  }

  lemma UpToPad(s: seq<Byte>, n: nat)
    requires |s| <= n
    ensures UpTo(PadTo(s, n)) == UpTo(s)
  {
    var k := |UpTo(s)|;
    assert PadTo(s, n)[..k] == s[..k];
    UpToIs(PadTo(s, n), k);
  }

  lemma UpperKeepsMarks(s: seq<Byte>)
    ensures SPACE in UpperAll(s) <==> SPACE in s
    ensures DOT in UpperAll(s) <==> DOT in s
    ensures 0 in UpperAll(s) <==> 0 in s
    ensures NoLower(UpperAll(s))
  {
    var u := UpperAll(s);
    assert forall i :: 0 <= i < |s| ==> (u[i] == SPACE <==> s[i] == SPACE) && (u[i] == DOT <==> s[i] == DOT) && (u[i] == 0 <==> s[i] == 0);
  }

  /** Raising the case identifies exactly the texts that are equal up to case. */
  lemma UpperSame(s: seq<Byte>, t: seq<Byte>)
    ensures UpperAll(s) == UpperAll(t) <==> SameText(s, t)
  {
    forall i | 0 <= i < |s| && i < |t| ensures UpperAll(s)[i] == UpperAll(t)[i] <==> SameLetter(s[i], t[i]) {}
    if UpperAll(s) == UpperAll(t) {
      assert |s| == |UpperAll(s)| == |t|;
      forall i | 0 <= i < |s| ensures SameLetter(s[i], t[i]) {
        assert UpperAll(s)[i] == UpperAll(t)[i];
      }
    }
  }

  lemma UpperFixed(s: seq<Byte>)
    requires NoLower(s)
    ensures UpperAll(s) == s
  {}

  lemma SplitAtDot(name: seq<Byte>)
    ensures name == if LastDot(name) >= 0 then Base(name) + [DOT] + Ext(name) else Base(name)
    ensures DOT !in Ext(name)
    ensures LastDot(name) < 0 ==> DOT !in name
  {
    hide LastDot;
    var d := LastDot(name);
    if d >= 0 {
      assert name == name[..d] + [name[d]] + name[d + 1..];
    }
  }

  lemma JoinSplits(base: seq<Byte>, ext: seq<Byte>)
    requires DOT !in ext
    ensures LastDot(base + [DOT] + ext) == |base|
    ensures Base(base + [DOT] + ext) == base
    ensures Ext(base + [DOT] + ext) == ext
  {
    hide LastDot, Base, Ext;
    var s := base + [DOT] + ext;
    JoinedAt(base, ext);
    LastDotIs(s, |base|);
    CutAtDot(s, |base|);
  }

  lemma JoinedAt(base: seq<Byte>, ext: seq<Byte>)
    requires DOT !in ext
    ensures var s := base + [DOT] + ext;
      && s[|base|] == DOT && s[..|base|] == base && s[|base| + 1..] == ext
      && forall i :: |base| < i < |s| ==> s[i] != DOT
  {
    var s := base + [DOT] + ext;
    forall i | |base| < i < |s| ensures s[i] != DOT {
      assert s[i] == ext[i - |base| - 1];
      assert s[i] in ext;
    }
  }

  lemma CutAtDot(s: seq<Byte>, d: nat)
    requires LastDot(s) == d
    ensures d < |s| && Base(s) == s[..d] && Ext(s) == s[d + 1..]
  {
    hide LastDot;
  }

  lemma UpToAll(s: seq<Byte>)
    ensures |UpTo(s)| == |s| <==> SPACE !in s
    ensures SPACE !in s ==> UpTo(s) == s
  {
    if SPACE !in s {
      assert s[..|s|] == s;
      UpToIs(s, |s|);
    }
  }

  lemma FieldUpTo(s: seq<Byte>, n: nat)
    ensures UpTo(Field(s, n)) == UpTo(UpperAll(Take(s, n)))
    ensures |UpTo(Field(s, n))| <= |s|
    ensures |UpTo(Field(s, n))| == |s| <==> |s| <= n && SPACE !in s
    ensures |s| <= n && SPACE !in s ==> UpTo(Field(s, n)) == UpperAll(s)
  {
    var u := UpperAll(Take(s, n));
    UpToPad(u, n);
    UpperKeepsMarks(Take(s, n));
    UpToAll(u);
  }

  lemma PadMarks(s: seq<Byte>, n: nat)
    requires |s| <= n
    ensures 0 !in s ==> 0 !in PadTo(s, n)
    ensures NoLower(s) ==> NoLower(PadTo(s, n))
  {}

  lemma UpperJoin(name: seq<Byte>)
    ensures UpperAll(name) == if LastDot(name) >= 0 then UpperAll(Base(name)) + [DOT] + UpperAll(Ext(name)) else UpperAll(Base(name))
  {
    hide LastDot;
    SplitAtDot(name);
  }

  lemma WellFormedParts(name: Text)
    requires WellFormed(name)
    ensures SPACE !in Base(name) && 0 !in Base(name) && SPACE !in Ext(name) && 0 !in Ext(name)
  {}

  lemma FormatEncode(name: Text)
    requires WellFormed(name)
    ensures Format(Encode(name)) == UpperAll(name)
  {
    WellFormedParts(name);
    FieldUpTo(Base(name), 8);
    FieldUpTo(Ext(name), 3);
    UpperJoin(name);
    BlankExt(name);
  }

  /** The extension field is blank exactly when the extension is empty or starts with spaces up to its cut. */
  lemma BlankExt(name: Text)
    ensures Ext(name) == [] ==> Encode(name)[8..] == [SPACE, SPACE, SPACE]
    ensures Ext(name) != [] && SPACE !in Ext(name) ==> Encode(name)[8..] != [SPACE, SPACE, SPACE]
  {
    var e := Ext(name);
    if e != [] && SPACE !in e {
      assert Field(e, 3)[0] == Upper(e[0]);
      assert e[0] in e;
    }
  }

  /** A name survives encoding and formatting, up to case, exactly when it is well formed. */
  lemma TextRoundTrip(name: Text)
    requires 0 !in name
    ensures UpperAll(Format(Encode(name))) == UpperAll(name) <==> WellFormed(name)
    ensures SameText(Format(Encode(name)), name) <==> WellFormed(name)
  {
    UpperSame(Format(Encode(name)), name);
    hide SameText;
    if WellFormed(name) {
      FormatEncode(name);
      UpperKeepsMarks(name);
      UpperFixed(UpperAll(name));
    } else {
      FieldUpTo(Base(name), 8);
      FieldUpTo(Ext(name), 3);
      BlankExt(name);
      SplitAtDot(name);
    }
  }

  /** Two well-formed names have the same raw form exactly when they are equal up to case. */
  lemma SameRaw(s: Text, t: Text)
    requires WellFormed(s) && WellFormed(t)
    ensures Encode(s) == Encode(t) <==> SameText(s, t)
  {
    hide WellFormed, Encode, Format, UpperAll, SameText;
    FormatEncode(s);
    FormatEncode(t);
    UpperIgnored(s);
    UpperIgnored(t);
    UpperSame(s, t);
  }

  /** The dot that parts a name is the last one, 0x2E; a name without one is all base. */
  lemma NameParts(base: Text, ext: Text)
    requires 0x2E !in ext
    ensures Base(base + [0x2E] + ext) == base && Ext(base + [0x2E] + ext) == ext
    ensures Base(ext) == ext && Ext(ext) == []
  {
    JoinSplits(base, ext);
    LastDotIs(ext, -1);
  }

  /** Every byte of a raw name, whatever the name: the base cut to 8 characters and the extension to 3, in capitals, the
      rest spaces. */
  lemma EncodeAt(name: Text, i: nat)
    requires i < 11
    ensures var part, k := if i < 8 then Base(name) else Ext(name), if i < 8 then i else i - 8;
      if k < |part| then SameLetter(Encode(name)[i], part[k]) && !(0x61 <= Encode(name)[i] <= 0x7A)
      else Encode(name)[i] == 0x20
  {
    hide Field, LastDot;
    if i < 8 {
      FieldAt(Base(name), 8, i);
    } else {
      FieldAt(Ext(name), 3, i - 8);
    }
  }

  lemma FieldAt(s: seq<Byte>, n: nat, k: nat)
    requires k < n
    ensures if k < |s| then SameLetter(Field(s, n)[k], s[k]) && !(0x61 <= Field(s, n)[k] <= 0x7A) else Field(s, n)[k] == 0x20
  {
    if k < |s| { assert Field(s, n)[k] == Upper(s[k]); }
  }

  lemma EncodeIsCanonical(name: Text)
    requires WellFormed(name)
    ensures Canonical(Encode(name))
  {
    WellFormedParts(name);
    var b, e := UpperAll(Base(name)), UpperAll(Ext(name));
    FieldUpTo(Base(name), 8);
    FieldUpTo(Ext(name), 3);
    SplitAtDot(name);
    UpperKeepsMarks(Base(name));
    UpperKeepsMarks(Ext(name));
    assert Field(Base(name), 8) == PadTo(b, 8) && Field(Ext(name), 3) == PadTo(e, 3);
    PadMarks(b, 8);
    PadMarks(e, 3);
  }

  lemma EncodeOfParts(name: Text, base: seq<Byte>, ext: seq<Byte>)
    requires Base(name) == base && Ext(name) == ext && |base| <= 8 && |ext| <= 3 && NoLower(base) && NoLower(ext)
    ensures Encode(name) == PadTo(base, 8) + PadTo(ext, 3)
  {
    UpperFixed(base);
    UpperFixed(ext);
  }

  lemma BlankField(f: seq<Byte>)
    requires |f| == 3 && f == PadTo(UpTo(f), 3)
    ensures UpTo(f) == [] <==> f == [SPACE, SPACE, SPACE]
  {
    assert UpTo(f) != [] ==> f[0] != SPACE;
  }

  lemma NoLowerPart(s: seq<Byte>, t: seq<Byte>)
    requires NoLower(s) && t <= s
    ensures NoLower(t)
  {}

  lemma CanonicalParts(raw: RawName)
    requires Canonical(raw)
    ensures NoLower(UpTo(raw[..8])) && NoLower(UpTo(raw[8..]))
    ensures UpTo(raw[8..]) == [] <==> raw[8..] == [SPACE, SPACE, SPACE]
  {
    var base, ext := UpTo(raw[..8]), UpTo(raw[8..]);
    assert NoLower(raw[8..]);
    NoLowerPart(raw, base);
    NoLowerPart(raw[8..], ext);
    assert raw[8..] == PadTo(ext, 3);
    BlankField(raw[8..]);
  }

  lemma FormatParts(raw: RawName)
    requires Canonical(raw)
    ensures Base(Format(raw)) == UpTo(raw[..8]) && Ext(Format(raw)) == UpTo(raw[8..])
  {
    hide UpTo, PadTo, NoLower;
    var base, ext := UpTo(raw[..8]), UpTo(raw[8..]);
    CanonicalParts(raw);
    if ext == [] {
      LastDotIs(base, -1);
    } else {
      JoinSplits(base, ext);
    }
  }

  lemma EncodeFormat(raw: RawName)
    requires Canonical(raw)
    ensures Encode(Format(raw)) == raw && NoLower(Format(raw))
  {
    hide UpTo, PadTo, Encode, Base, Ext;
    CanonicalParts(raw);
    FormatParts(raw);
    EncodeOfParts(Format(raw), UpTo(raw[..8]), UpTo(raw[8..]));
  }

  /** On a slot that holds the form of some well-formed text, the case-insensitive text comparison says what the raw
      comparison says for well-formed texts, and fails for all others. */
  lemma LookupsAgree(raw: RawName, name: Text)
    requires Canonical(raw) && 0 !in name
    ensures UpperAll(Format(raw)) == UpperAll(name) <==> raw == Encode(name) && WellFormed(name)
    ensures SameText(Format(raw), name) <==> raw == Encode(name) && WellFormed(name)
  {
    hide Canonical, WellFormed, Format, Encode, UpperAll, NoLower, SameText;
    UpperSame(Format(raw), name);
    EncodeFormat(raw);
    UpperFixed(Format(raw));
    UpperIgnored(name);
    TextRoundTrip(name);
  }

  lemma WellFormedUpper(s: Text, t: Text)
    requires WellFormed(s) && UpperAll(s) == UpperAll(t)
    ensures WellFormed(t)
  {
    hide WellFormed, Format, Encode, UpperAll;
    StringUpper(s, t);
    UpperIgnored(s);
    UpperIgnored(t);
    TextRoundTrip(s);
    TextRoundTrip(t);
  }

  lemma StringUpper(s: Text, t: Text)
    requires WellFormed(s) && UpperAll(s) == UpperAll(t)
    ensures 0 !in s && 0 !in t
  {
    UpperKeepsMarks(s);
    UpperKeepsMarks(t);
  }

  /** Exactly which slots the two comparisons agree on for all well-formed texts: those that hold the form of one, and
      those whose own text form is not well formed, which neither comparison finds. */
  lemma AgreeingSlots(raw: RawName)
    ensures (forall name: Text :: WellFormed(name) ==> (SameText(Format(raw), name) <==> raw == Encode(name)))
       <==> Canonical(raw) || !WellFormed(Format(raw))
  {
    hide Canonical, WellFormed, Format, Encode, UpperAll, SameText;
    UpperSame(Format(raw), Format(raw));
    if Canonical(raw) || !WellFormed(Format(raw)) {
      forall name: Text | WellFormed(name) ensures SameText(Format(raw), name) <==> raw == Encode(name) {
        StringUpper(name, name);
        UpperSame(Format(raw), name);
        if raw == Encode(name) {
          EncodeIsCanonical(name);
        }
        if Canonical(raw) {
          LookupsAgree(raw, name);
        } else if UpperAll(Format(raw)) == UpperAll(name) {
          WellFormedUpper(name, Format(raw));
        }
      }
    } else {
      var name := Format(raw);
      if raw == Encode(name) {
        EncodeIsCanonical(name);
      }
    }
  }

  lemma LastDotIs(s: seq<Byte>, d: int)
    requires -1 <= d < |s| && (d >= 0 ==> s[d] == DOT) && forall i :: d < i < |s| ==> s[i] != DOT
    ensures LastDot(s) == d
  {
    hide LastDot;
  }

  lemma UpperIgnored(name: Text)
    ensures Encode(UpperAll(name)) == Encode(name)
  {
    var u := UpperAll(name);
    LastDotIs(u, LastDot(name));
    assert Base(u) == UpperAll(Base(name)) && Ext(u) == UpperAll(Ext(name));
    FieldUpper(Base(name), 8);
    FieldUpper(Ext(name), 3);
  }

  lemma FieldUpper(s: seq<Byte>, n: nat)
    ensures Field(UpperAll(s), n) == Field(s, n)
  {
    assert UpperAll(Take(UpperAll(s), n)) == UpperAll(Take(s, n));
  }

  /** The raw form of a C string does not end the directory. */
  lemma EncodeNotEnd(name: Text)
    requires 0 !in name
    ensures Encode(name)[0] != 0
  {
    var b := Base(name);
    if b != [] {
      assert Field(b, 8)[0] == Upper(b[0]) && b[0] == name[0];
      assert name[0] in name;
    }
  }

  // ----- the loops of the driver -----

  method FindLastDot(name: Text) returns (dot: int)
    ensures dot == LastDot(name)
  {
    dot := -1;
    var i := 0;
    while i < |name|
      invariant 0 <= i <= |name|
      invariant dot == LastDot(name[..i])
    {
      assert name[..i + 1][..i] == name[..i];
      if name[i] == DOT { dot := i; }
      i := i + 1;
    }
    assert name[..|name|] == name;
  }

  /** Copies at most `width` characters of the part, in upper case, over spaces. */
  method FillField(part: Text, width: nat) returns (raw: seq<Byte>)
    ensures raw == Field(part, width)
  {
    raw := seq(width, _ => SPACE);
    var len := if |part| > width then width else |part|;
    ghost var u := UpperAll(Take(part, width));
    var i := 0;
    while i < len
      invariant 0 <= i <= len == |u| && |raw| == width
      invariant forall j :: 0 <= j < width ==> raw[j] == if j < i then u[j] else SPACE
    {
      raw := raw[i := Upper(part[i])];
      i := i + 1;
    }
  }

  method EncodeName(name: Text) returns (raw8: seq<Byte>, raw3: seq<Byte>)
    ensures |raw8| == 8 && |raw3| == 3 && raw8 + raw3 == Encode(name)
  {
    hide Field, LastDot;
    var dot := FindLastDot(name);
    raw8 := FillField(if dot >= 0 then name[..dot] else name, 8);
    raw3 := FillField(if dot >= 0 then name[dot + 1..] else [], 3);
  }

  method FormatName(rawName: seq<Byte>, rawExt: seq<Byte>) returns (buf: seq<Byte>)
    requires |rawName| == 8 && |rawExt| == 3
    ensures buf == Format(rawName + rawExt)
  {
    buf := [];
    var n := 0;
    while n < 8 && rawName[n] != SPACE
      invariant 0 <= n <= 8 && buf == rawName[..n] && SPACE !in buf
    {
      buf := buf + [rawName[n]];
      n := n + 1;
    }
    UpToIs(rawName, n);
    ghost var base := buf;
    var hasExt := false;
    n := 0;
    while n < 3 && !hasExt
      invariant 0 <= n <= 3
      invariant hasExt <==> exists j :: 0 <= j < n && rawExt[j] != SPACE
    {
      if rawExt[n] != SPACE { hasExt := true; }
      n := n + 1;
    }
    assert hasExt <==> rawExt != [SPACE, SPACE, SPACE];
    if hasExt {
      buf := buf + [DOT];
      n := 0;
      while n < 3 && rawExt[n] != SPACE
        invariant 0 <= n <= 3 && SPACE !in rawExt[..n] && buf == base + [DOT] + rawExt[..n]
      {
        buf := buf + [rawExt[n]];
        n := n + 1;
      }
      UpToIs(rawExt, n);
    }
    assert (rawName + rawExt)[..8] == rawName && (rawName + rawExt)[8..] == rawExt;
  }

  /** The comparison loop of the append lookup. */
  method TextMatch(a: seq<Byte>, b: seq<Byte>) returns (equal: bool)
    ensures equal <==> SameText(a, b)
  {
    UpperSame(a, b);
    var i := 0;
    while i < |a| && i < |b|
      invariant 0 <= i <= |a| && i <= |b|
      invariant forall j :: 0 <= j < i ==> Upper(a[j]) == Upper(b[j])
    {
      if Upper(a[i]) != Upper(b[i]) {
        assert UpperAll(a)[i] != UpperAll(b)[i];
        return false;
      }
      i := i + 1;
    }
    equal := i == |a| && i == |b|;
  }
}
