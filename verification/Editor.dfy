/** The text editor: offsets, lines and columns, cursor moves, and edits as steps of a text zipper. */
module Editor {
  import opened Bytes

  const CAPACITY := 4096

  // ----- lines and columns of a text -----

  function Newlines(s: string): nat {
    if s == "" then 0 else Newlines(s[..|s| - 1]) + if s[|s| - 1] == '\n' then 1 else 0
  }

  function LineOf(s: string, o: nat): nat
    requires o <= |s|
  {
    Newlines(s[..o])
  }

  function ColOf(s: string, o: nat): (c: nat)
    requires o <= |s|
    ensures c <= o
  {
    if o == 0 || s[o - 1] == '\n' then 0 else 1 + ColOf(s, o - 1)
  }

  /** The scan for the start of line n: it stops early at the end of the text. */
  function Scan(s: string, pos: nat, line: nat, n: nat): (p: nat)
    requires pos <= |s|
    ensures pos <= p <= |s|
    decreases |s| - pos
  {
    if line >= n || pos == |s| then pos else Scan(s, pos + 1, if s[pos] == '\n' then line + 1 else line, n)
  }

  function LineStart(s: string, n: nat): (p: nat)
    ensures p <= |s|
  {
    Scan(s, 0, 0, n)
  }

  function LenFrom(s: string, p: nat): (k: nat)
    requires p <= |s|
    ensures p + k <= |s|
    decreases |s| - p
  {
    if p == |s| || s[p] == '\n' then 0 else 1 + LenFrom(s, p + 1)
  }

  function LineLen(s: string, n: nat): nat {
    LenFrom(s, LineStart(s, n))
  }

  function Lines(s: string): nat {
    1 + Newlines(s)
  }

  lemma LineStep(s: string, o: nat)
    requires o < |s|
    ensures LineOf(s, o + 1) == LineOf(s, o) + if s[o] == '\n' then 1 else 0
  {
    assert s[..o + 1][..o] == s[..o];
  }

  lemma {:induction false} LineGrows(s: string, o: nat, p: nat)
    requires o <= p <= |s|
    ensures LineOf(s, o) <= LineOf(s, p)
  {
    if o < p {
      LineGrows(s, o, p - 1);
      LineStep(s, p - 1);
    }
  }

  /** Walking back over a line's columns stays on the line and ends where a line starts. */
  lemma {:induction false} ColIs(s: string, o: nat)
    requires o <= |s|
    ensures var p := o - ColOf(s, o); LineOf(s, p) == LineOf(s, o) && ColOf(s, p) == 0
  {
    if ColOf(s, o) > 0 {
      ColIs(s, o - 1);
      LineStep(s, o - 1);
    }
  }

  /** The scan finds the offset where line n starts, if there is such a line. */
  lemma {:induction false} ScanIs(s: string, pos: nat, n: nat)
    requires pos <= |s| && LineOf(s, pos) <= n <= Newlines(s)
    requires ColOf(s, pos) == 0 || LineOf(s, pos) < n
    ensures var p := Scan(s, pos, LineOf(s, pos), n); LineOf(s, p) == n && ColOf(s, p) == 0
    decreases |s| - pos
  {
    if LineOf(s, pos) < n {
      assert s[..|s|] == s;
      LineStep(s, pos);
      ScanIs(s, pos + 1, n);
    }
  }

  lemma StartIs(s: string, n: nat)
    requires n < Lines(s)
    ensures LineOf(s, LineStart(s, n)) == n && ColOf(s, LineStart(s, n)) == 0
  {
    assert s[..0] == "";
    ScanIs(s, 0, n);
  }

  /** A line starts at one offset only. */
  lemma StartUnique(s: string, p: nat, q: nat)
    requires p <= q <= |s| && ColOf(s, q) == 0 && LineOf(s, p) == LineOf(s, q)
    ensures p == q
  {
    if p < q {
      LineStep(s, q - 1);
      LineGrows(s, p, q - 1);
    }
  }

  lemma LineInText(s: string, o: nat)
    requires o <= |s|
    ensures LineOf(s, o) < Lines(s)
  {
    LineGrows(s, o, |s|);
    assert s[..|s|] == s;
  }

  /** From an offset to its line and column and back. */
  lemma OffsetRoundTrip(s: string, o: nat)
    requires o <= |s|
    ensures LineStart(s, LineOf(s, o)) + ColOf(s, o) == o
  {
    var n, p := LineOf(s, o), o - ColOf(s, o);
    ColIs(s, o);
    LineInText(s, o);
    StartIs(s, n);
    var q := LineStart(s, n);
    if p <= q { StartUnique(s, p, q); } else { StartUnique(s, q, p); }
  }

  lemma {:induction false} AlongLine(s: string, p: nat, c: nat)
    requires p <= |s| && ColOf(s, p) == 0 && c <= LenFrom(s, p)
    ensures LineOf(s, p + c) == LineOf(s, p) && ColOf(s, p + c) == c
    decreases c
  {
    if c > 0 {
      AlongLine(s, p, c - 1);
      LineStep(s, p + c - 1);
      NoNewline(s, p, c - 1);
    }
  }

  lemma {:induction false} NoNewline(s: string, p: nat, k: nat)
    requires p <= |s| && k < LenFrom(s, p)
    ensures s[p + k] != '\n'
    decreases k
  {
    if k > 0 { NoNewline(s, p + 1, k - 1); }
  }

  /** From a line of the text and a column on it to the offset and back. */
  lemma PlaceRoundTrip(s: string, n: nat, c: nat)
    requires n < Lines(s) && c <= LineLen(s, n)
    ensures var o := LineStart(s, n) + c; LineOf(s, o) == n && ColOf(s, o) == c
  {
    StartIs(s, n);
    AlongLine(s, LineStart(s, n), c);
  }

  /** A column never exceeds the length of its line. */
  lemma ColFits(s: string, o: nat)
    requires o <= |s|
    ensures ColOf(s, o) <= LineLen(s, LineOf(s, o))
  {
    OffsetRoundTrip(s, o);
    var p := LineStart(s, LineOf(s, o));
    ReachesCol(s, p, o);
  }

  lemma {:induction false} ReachesCol(s: string, p: nat, o: nat)
    requires p <= o <= |s| && o - p <= ColOf(s, o)
    ensures o - p <= LenFrom(s, p)
    decreases o - p
  {
    if p < o {
      ColBack(s, p, o);
      ReachesCol(s, p + 1, o);
    }
  }

  lemma {:induction false} ColBack(s: string, p: nat, o: nat)
    requires p < o <= |s| && o - p <= ColOf(s, o)
    ensures s[p] != '\n'
    decreases o - p
  {
    if p + 1 < o { ColBack(s, p, o - 1); }
  }

  // ----- moving the cursor up and down -----

  function AtLine(s: string, n: nat, col: nat): nat {
    LineStart(s, n) + if col > LineLen(s, n) then LineLen(s, n) else col
  }

  function Up(s: string, cur: nat): nat
    requires cur <= |s|
  {
    if LineOf(s, cur) == 0 then cur else AtLine(s, LineOf(s, cur) - 1, ColOf(s, cur))
  }

  function Down(s: string, cur: nat): nat
    requires cur <= |s|
  {
    if LineOf(s, cur) + 1 >= Lines(s) then cur else AtLine(s, LineOf(s, cur) + 1, ColOf(s, cur))
  }

  /** A vertical move lands on the adjacent line, at the same column or at the end of a shorter line; it stays put
      only at the edge of the text. */
  lemma VerticalMoves(s: string, cur: nat)
    requires cur <= |s|
    ensures Up(s, cur) <= |s| && Down(s, cur) <= |s|
    ensures LineOf(s, cur) > 0 ==>
              && LineOf(s, Up(s, cur)) == LineOf(s, cur) - 1
              && ColOf(s, Up(s, cur)) == Min(ColOf(s, cur), LineLen(s, LineOf(s, cur) - 1))
    ensures LineOf(s, cur) + 1 < Lines(s) ==>
              && LineOf(s, Down(s, cur)) == LineOf(s, cur) + 1
              && ColOf(s, Down(s, cur)) == Min(ColOf(s, cur), LineLen(s, LineOf(s, cur) + 1))
  {
    hide Newlines, ColOf, LenFrom;
    var n, c := LineOf(s, cur), ColOf(s, cur);
    LineInText(s, cur);
    if n > 0 { PlaceRoundTrip(s, n - 1, Min(c, LineLen(s, n - 1))); }
    if n + 1 < Lines(s) { PlaceRoundTrip(s, n + 1, Min(c, LineLen(s, n + 1))); }
  }

  /** Moving up and down again returns to the same offset exactly when the line above is long enough. */
  lemma DownUndoesUp(s: string, cur: nat)
    requires cur <= |s| && LineOf(s, cur) > 0
    ensures Up(s, cur) <= |s|
    ensures Down(s, Up(s, cur)) == cur <==> ColOf(s, cur) <= LineLen(s, LineOf(s, cur) - 1)
  {
    hide Newlines, ColOf, LenFrom, LineLen;
    VerticalMoves(s, cur);
    LineInText(s, cur);
    OffsetRoundTrip(s, cur);
    ColFits(s, cur);
  }

  // ----- the zipper -----

  /** The text left and right of the cursor. */
  datatype Zipper = Zipper(left: string, right: string) {
    function Text(): string { left + right }
  }

  datatype Key = Type(c: char) | Backspace | Left | Right | UpKey | DownKey

  function SplitAt(s: string, cur: nat): Zipper
    requires cur <= |s|
  {
    Zipper(s[..cur], s[cur..])
  }

  /** What a key does to the zipper. */
  function Press(z: Zipper, k: Key): (z': Zipper)
    ensures k.Left? || k.Right? || k.UpKey? || k.DownKey? ==> z'.Text() == z.Text()
  {
    var l, r := z.left, z.right;
    match k
    case Type(c) => if |l + r| >= CAPACITY - 1 then z else Zipper(l + [c], r)
    case Backspace => if l == "" then z else Zipper(l[..|l| - 1], r)
    case Left => if l == "" then z else MovesLeft(l, r); Zipper(l[..|l| - 1], [l[|l| - 1]] + r)
    case Right => if r == "" then z else MovesRight(l, r); Zipper(l + [r[0]], r[1..])
    case UpKey => VerticalMoves(z.Text(), |l|); Splits(z.Text(), Up(z.Text(), |l|)); SplitAt(z.Text(), Up(z.Text(), |l|))
    case DownKey => VerticalMoves(z.Text(), |l|); Splits(z.Text(), Down(z.Text(), |l|)); SplitAt(z.Text(), Down(z.Text(), |l|))
  }

  lemma MovesLeft(l: string, r: string)
    requires l != ""
    ensures l[..|l| - 1] + ([l[|l| - 1]] + r) == l + r
  {
  }

  lemma MovesRight(l: string, r: string)
    requires r != ""
    ensures l + [r[0]] + r[1..] == l + r
  {
  }

  lemma Splits(s: string, cur: nat)
    requires cur <= |s|
    ensures SplitAt(s, cur).Text() == s
  {
  }

  function Presses(z: Zipper, ks: seq<Key>): Zipper
    decreases |ks|
  {
    if ks == [] then z else Presses(Press(z, ks[0]), ks[1..])
  }

  /** No run of keys grows a text past the capacity. */
  lemma {:induction false} WithinCapacity(z: Zipper, ks: seq<Key>)
    requires |z.Text()| < CAPACITY
    ensures |Presses(z, ks).Text()| < CAPACITY
    decreases |ks|
  {
    if ks != [] {
      PressFits(z, ks[0]);
      WithinCapacity(Press(z, ks[0]), ks[1..]);
    }
  }

  lemma PressFits(z: Zipper, k: Key)
    requires |z.Text()| < CAPACITY
    ensures |Press(z, k).Text()| < CAPACITY
  {
    hide Up, Down, SplitAt;
  }

  /** A typed character comes to stand left of the cursor, between the text before it and the text after it; in a full
      buffer nothing changes. */
  lemma TypedAt(z: Zipper, c: char)
    ensures var z', s, cur := Press(z, Type(c)), z.Text(), |z.left|;
      if |s| >= 4095 then z' == z
      else |z'.left| == cur + 1 && z'.Text()[cur] == c && z'.Text()[..cur] == s[..cur] && z'.Text()[cur + 1..] == s[cur..]
  {
    hide Up, Down, SplitAt;
  }

  /** What the other keys do to the cursor and the text. */
  lemma MovedAt(z: Zipper)
    ensures z.left != "" ==> var z' := Press(z, Backspace); z'.Text() == z.Text()[..|z.left| - 1] + z.Text()[|z.left|..] && |z'.left| == |z.left| - 1
    ensures |Press(z, Left).left| == (if z.left == "" then 0 else |z.left| - 1)
    ensures |Press(z, Right).left| == (if z.right == "" then |z.left| else |z.left| + 1)
    ensures z.left == "" ==> Press(z, Backspace) == z
  {
    hide Up, Down, SplitAt;
  }

  /** A backspace undoes a key that fitted, and moving left undoes moving right. */
  lemma PressInverses(z: Zipper, c: char)
    ensures |z.Text()| < CAPACITY - 1 ==> Press(Press(z, Type(c)), Backspace) == z
    ensures z.right != "" ==> Press(Press(z, Right), Left) == z
    ensures z.left != "" ==> Press(Press(z, Left), Right) == z
  {
    hide Up, Down, SplitAt;
    var l, r := z.left, z.right;
    assert (l + [c])[..|l|] == l;
    if r != "" {
      assert (l + [r[0]])[..|l|] == l && [r[0]] + r[1..] == r;
    }
    if l != "" {
      assert l[..|l| - 1] + [l[|l| - 1]] == l && ([l[|l| - 1]] + r)[1..] == r;
    }
  }

  lemma Inserted(was: string, now: string, at: nat, c: char)
    requires |now| == |was| + 1 && at <= |was| && now[at] == c
    requires forall k :: 0 <= k < at ==> now[k] == was[k]
    requires forall k :: at < k < |now| ==> now[k] == was[k - 1]
    ensures now[..at + 1] == was[..at] + [c] && now[at + 1..] == was[at..]
  {
  }

  lemma Deleted(was: string, now: string, at: nat)
    requires |was| == |now| + 1 && at <= |now|
    requires forall k :: 0 <= k < at ==> now[k] == was[k]
    requires forall k :: at <= k < |now| ==> now[k] == was[k + 1]
    ensures now[..at] == was[..at] && now[at..] == was[at + 1..]
  {
  }

  // ----- the buffer -----

  class Buffer {
    const buf: array<char>
    var len: nat
    var cur: nat
    var dirty: bool

    ghost predicate Valid()
      reads this, buf
    {
      buf.Length == CAPACITY && cur <= len < CAPACITY
    }

    ghost function Text(): string
      requires Valid()
      reads this, buf
    {
      buf[..len]
    }

    ghost function Zip(): Zipper
      requires Valid()
      reads this, buf
    {
      SplitAt(Text(), cur)
    }

    constructor ()
      ensures Valid() && fresh(buf) && Text() == "" && cur == 0 && !dirty
    {
      buf := new char[CAPACITY](_ => '\0');
      len, cur, dirty := 0, 0, false;
    }

    method FindLineStart(n: nat) returns (pos: nat)
      requires Valid()
      ensures pos == LineStart(Text(), n)
    {
      pos := 0;
      var line: nat := 0;
      while line < n && pos < len
        invariant pos <= len && Scan(Text(), pos, line, n) == LineStart(Text(), n)
      {
        if buf[pos] == '\n' {
          line := line + 1;
        }
        pos := pos + 1;
      }
    }

    method CountLines() returns (lines: nat)
      requires Valid()
      ensures lines == Lines(Text())
    {
      lines := 1;
      var i := 0;
      while i < len
        invariant 0 <= i <= len && lines == 1 + LineOf(Text(), i)
      {
        LineStep(Text(), i);
        if buf[i] == '\n' {
          lines := lines + 1;
        }
        i := i + 1;
      }
      assert Text()[..len] == Text();
    }

    method OffsetToLine(offset: nat) returns (line: nat)
      requires Valid()
      ensures line == LineOf(Text(), Min(offset, len))
    {
      line := 0;
      var i := 0;
      while i < offset && i < len
        invariant 0 <= i <= Min(offset, len) && line == LineOf(Text(), i)
      {
        LineStep(Text(), i);
        if buf[i] == '\n' {
          line := line + 1;
        }
        i := i + 1;
      }
    }

    method OffsetToCol(offset: nat) returns (col: nat)
      requires Valid() && offset <= len
      ensures col == ColOf(Text(), offset)
    {
      col := 0;
      var i: int := offset - 1;
      while i >= 0 && buf[i] != '\n'
        invariant -1 <= i < offset && col + ColOf(Text(), i + 1) == ColOf(Text(), offset)
      {
        col := col + 1;
        i := i - 1;
      }
    }

    method FindLineLen(n: nat) returns (k: nat)
      requires Valid()
      ensures k == LineLen(Text(), n)
    {
      var start := FindLineStart(n);
      k := 0;
      while start + k < len && buf[start + k] != '\n'
        invariant start + k <= len && k + LenFrom(Text(), start + k) == LenFrom(Text(), start)
      {
        k := k + 1;
      }
    }

    method Insert(c: char)
      requires Valid()
      modifies this, buf
      ensures Valid() && Zip() == Press(old(Zip()), Type(c))
      ensures old(len) < CAPACITY - 1 ==> dirty && buf[len] == '\0'
    {
      hide Up, Down, LineOf, ColOf;
      if len >= CAPACITY - 1 {
        Splits(Text(), cur);
        return;
      }
      ghost var was := Text();
      ShiftRight();
      buf[cur] := c;
      cur := cur + 1;
      len := len + 1;
      buf[len] := '\0';
      dirty := true;
      Inserted(was, Text(), cur - 1, c);
    }

    /** Make room for one character at the cursor. */
    method ShiftRight()
      requires Valid() && len < CAPACITY - 1
      modifies buf
      ensures forall k :: 0 <= k < cur ==> buf[k] == old(buf[k])
      ensures forall k :: cur < k <= len ==> buf[k] == old(buf[k - 1])
    {
      var i := len;
      while i > cur
        invariant cur <= i <= len
        invariant forall k :: 0 <= k < i ==> buf[k] == old(buf[k])
        invariant forall k :: i < k <= len ==> buf[k] == old(buf[k - 1])
      {
        buf[i] := buf[i - 1];
        i := i - 1;
      }
    }

    /** Close the gap over the character at the cursor. */
    method ShiftLeft()
      requires Valid() && cur < len
      modifies buf
      ensures forall k :: 0 <= k < cur ==> buf[k] == old(buf[k])
      ensures forall k :: cur <= k < len - 1 ==> buf[k] == old(buf[k + 1])
    {
      var i := cur;
      while i < len - 1
        invariant cur <= i < len
        invariant forall k :: 0 <= k < cur || i <= k < len ==> buf[k] == old(buf[k])
        invariant forall k :: cur <= k < i ==> buf[k] == old(buf[k + 1])
      {
        buf[i] := buf[i + 1];
        i := i + 1;
      }
    }

    method DeleteBack()
      requires Valid()
      modifies this, buf
      ensures Valid() && Zip() == Press(old(Zip()), Key.Backspace)
      ensures old(cur) > 0 ==> dirty && buf[len] == '\0'
    {
      hide Up, Down, LineOf, ColOf;
      if cur == 0 {
        return;
      }
      ghost var was := Text();
      cur := cur - 1;
      ShiftLeft();
      len := len - 1;
      buf[len] := '\0';
      dirty := true;
      Deleted(was, Text(), cur);
    }

    method MoveLeft()
      requires Valid()
      modifies this`cur
      ensures Valid() && Zip() == Press(old(Zip()), Key.Left)
    {
      hide Up, Down, LineOf, ColOf;
      if cur > 0 {
        cur := cur - 1;
      }
    }

    method MoveRight()
      requires Valid()
      modifies this`cur
      ensures Valid() && Zip() == Press(old(Zip()), Key.Right)
    {
      hide Up, Down, LineOf, ColOf;
      if cur < len {
        cur := cur + 1;
      }
    }

    method MoveUp()
      requires Valid()
      modifies this`cur
      ensures Valid() && Zip() == Press(old(Zip()), UpKey)
    {
      hide Newlines, ColOf, LenFrom;
      VerticalMoves(Text(), cur);
      Splits(Text(), cur);
      var line := OffsetToLine(cur);
      if line == 0 {
        return;
      }
      var col := OffsetToCol(cur);
      var prev := FindLineLen(line - 1);
      if col > prev {
        col := prev;
      }
      var start := FindLineStart(line - 1);
      cur := start + col;
    }

    method MoveDown()
      requires Valid()
      modifies this`cur
      ensures Valid() && Zip() == Press(old(Zip()), DownKey)
    {
      hide Newlines, ColOf, LenFrom;
      VerticalMoves(Text(), cur);
      Splits(Text(), cur);
      var line := OffsetToLine(cur);
      var total := CountLines();
      if line >= total - 1 {
        return;
      }
      var col := OffsetToCol(cur);
      var next := FindLineLen(line + 1);
      if col > next {
        col := next;
      }
      var start := FindLineStart(line + 1);
      cur := start + col;
    }

    /** The editor's loop on the keys that edit or move: the buffer follows the zipper through the whole run. */
    method Run(keys: seq<Key>)
      requires Valid()
      modifies this, buf
      ensures Valid() && Zip() == Presses(old(Zip()), keys)
    {
      hide Press, SplitAt;
      var i := 0;
      while i < |keys|
        invariant 0 <= i <= |keys| && Valid()
        invariant Presses(Zip(), keys[i..]) == Presses(old(Zip()), keys)
      {
        assert keys[i..][1..] == keys[i + 1..];
        match keys[i] {
          case Type(c) => Insert(c);
          case Backspace => DeleteBack();
          case Left => MoveLeft();
          case Right => MoveRight();
          case UpKey => MoveUp();
          case DownKey => MoveDown();
        }
        i := i + 1;
      }
    }
  }
}
