/** The indentation lexer: what it produces when nothing is dropped, and the bounded loop that agrees with it. */
module GkLexer {
  import opened GkSyntax
  import opened Wrappers
  import opened GkValues

  const MAX_TOKENS := 2048
  const MAX_WORD := 63
  const MAX_INDENT := 64

  predicate Alpha(c: char) {
    'a' <= c <= 'z' || 'A' <= c <= 'Z' || c == '_'
  }

  function Keyword(word: string): Kind {
    if word == "if" then TIf
    else if word == "elif" then TElif
    else if word == "else" then TElse
    else if word == "while" then TWhile
    else if word == "for" then TFor
    else if word == "in" then TIn
    else if word == "def" then TDef
    else if word == "return" then TReturn
    else if word == "break" then TBreak
    else if word == "continue" then TContinue
    else if word == "and" then TAnd
    else if word == "or" then TOr
    else if word == "not" then TNot
    else if word == "True" then TTrue
    else if word == "False" then TFalse
    else TIdent
  }

  // ----- one token -----

  /** The end of the run of c that starts at i. */
  function RunEnd(src: string, i: nat, c: char): (j: nat)
    requires i <= |src|
    ensures i <= j <= |src|
    decreases |src| - i
  {
    if i < |src| && src[i] == c then RunEnd(src, i + 1, c) else i
  }

  function LineEnd(src: string, i: nat): (j: nat)
    requires i <= |src|
    ensures i <= j <= |src| && (j < |src| ==> src[j] == '\n')
    decreases |src| - i
  {
    if i < |src| && src[i] != '\n' then LineEnd(src, i + 1) else i
  }

  function Number(src: string, i: nat, acc: nat): (r: (nat, nat))
    requires i <= |src|
    ensures i <= r.1 <= |src|
    decreases |src| - i
  {
    if i < |src| && IsDigit(src[i]) then Number(src, i + 1, acc * 10 + (src[i] - '0') as nat) else (acc, i)
  }

  function Word(src: string, i: nat, done: string): (r: (string, nat))
    requires i <= |src|
    ensures i <= r.1 <= |src|
    decreases |src| - i
  {
    if i < |src| && (Alpha(src[i]) || IsDigit(src[i])) && |done| < MAX_WORD then Word(src, i + 1, done + [src[i]])
    else (done, i)
  }

  function Escaped(c: char): char {
    if c == 'n' then '\n' else if c == 't' then '\t' else c
  }

  /** The text of a string literal, up to its quote, the buffer's end or the source's end. */
  function Quoted(src: string, i: nat, quote: char, done: string): (r: (string, nat))
    requires i <= |src|
    ensures i <= r.1 <= |src|
    decreases |src| - i
  {
    if i == |src| || src[i] == quote then (done, i) else
      var at := if src[i] == '\\' && i + 1 < |src| then i + 1 else i;
      var c := if at > i then Escaped(src[at]) else src[at];
      if |done| + 1 >= MAX_TEXT then (done + [c], at + 1) else Quoted(src, at + 1, quote, done + [c])
  }

  /** An operator or punctuation of two characters, or of one. */
  function Operator(c: char, next: Option<char>): Option<(Kind, nat)> {
    if next == Some('=') && c == '=' then Some((TEq, 2))
    else if next == Some('=') && c == '!' then Some((TNeq, 2))
    else if next == Some('=') && c == '<' then Some((TLe, 2))
    else if next == Some('=') && c == '>' then Some((TGe, 2))
    else
      match c
      case '+' => Some((TPlus, 1)) case '-' => Some((TMinus, 1)) case '*' => Some((TStar, 1)) case '/' => Some((TSlash, 1))
      case '%' => Some((TPercent, 1)) case '<' => Some((TLt, 1)) case '>' => Some((TGt, 1)) case '=' => Some((TAssign, 1))
      case '(' => Some((TLparen, 1)) case ')' => Some((TRparen, 1)) case ',' => Some((TComma, 1)) case ':' => Some((TColon, 1))
      case _ => None
  }

  datatype Piece = Unknown | Piece(toks: seq<Token>, next: nat)

  predicate IsLayout(k: Kind) {
    k == TIndent || k == TDedent || k == TNewline || k == TEof
  }

  predicate Plain(toks: seq<Token>) {
    forall t :: t in toks ==> !IsLayout(t.kind)
  }

  /** What stands at i within a line: white space, a comment, or one token. */
  function PieceAt(src: string, i: nat): (p: Piece)
    requires i < |src| && src[i] != '\n'
    ensures p.Piece? ==> i < p.next <= |src| && |p.toks| <= 1 && Plain(p.toks)
  {
    var c := src[i];
    if c == ' ' || c == '\t' then Piece([], i + 1)
    else if c == '#' then Piece([], LineEnd(src, i + 1))
    else if IsDigit(c) then var r := Number(src, i + 1, (c - '0') as nat); Piece([Token(TInt, r.0, "")], r.1)
    else if c == '"' || c == '\'' then
      var r := Quoted(src, i + 1, c, "");
      Piece([Token(TStr, 0, r.0)], if r.1 < |src| then r.1 + 1 else r.1)
    else if Alpha(c) then
      var r := Word(src, i + 1, [c]);
      Piece([Token(Keyword(r.0), 0, r.0)], r.1)
    else
      match Operator(c, if i + 1 < |src| then Some(src[i + 1]) else None)
      case None => Unknown
      case Some((k, n)) => OperatorFits(c, if i + 1 < |src| then Some(src[i + 1]) else None); Piece([Token(k, 0, "")], i + n)
  }

  lemma OperatorFits(c: char, next: Option<char>)
    ensures var r := Operator(c, next); r.Some? ==> !IsLayout(r.value.0) && 1 <= r.value.1 <= (if next.Some? then 2 else 1)
  {
  }

  // ----- a line and the program -----

  datatype Lexed = Rejected | Lexed(toks: seq<Token>, next: nat)

  /** The tokens of the rest of a line. */
  function Line(src: string, i: nat): (r: Lexed)
    requires i <= |src|
    ensures r.Lexed? ==> i <= r.next <= |src| && Plain(r.toks)
    decreases |src| - i
  {
    if i == |src| || src[i] == '\n' then Lexed([], i) else
      match PieceAt(src, i)
      case Unknown => Rejected
      case Piece(toks, next) =>
        match Line(src, next)
        case Rejected => Rejected
        case Lexed(more, end) => Lexed(toks + more, end)
  }

  /** The indentation stack: widths that grow from 0. */
  predicate Increasing(stack: seq<nat>) {
    && stack != [] && stack[0] == 0
    && forall i, j :: 0 <= i < j < |stack| ==> stack[i] < stack[j]
  }

  /** Close every block that is indented further than `indent`. */
  function Pop(stack: seq<nat>, indent: nat): (r: seq<nat>)
    requires Increasing(stack)
    ensures Increasing(r) && r <= stack && r[|r| - 1] <= indent
  {
    if indent < stack[|stack| - 1] then Pop(stack[..|stack| - 1], indent) else stack
  }

  function Repeat(k: Kind, n: nat): (s: seq<Token>)
    ensures |s| == n && forall t :: t in s ==> t == Token(k, 0, "")
  {
    if n == 0 then [] else [Token(k, 0, "")] + Repeat(k, n - 1)
  }

  function Open(stack: seq<nat>, indent: nat): (r: seq<nat>)
    requires Increasing(stack)
    ensures Increasing(r)
  {
    if indent > stack[|stack| - 1] then stack + [indent] else Pop(stack, indent)
  }

  /** The tokens that take one stack to the next. */
  function Shift(before: seq<nat>, after: seq<nat>): seq<Token> {
    if |after| > |before| then [Token(TIndent, 0, "")] else Repeat(TDedent, |before| - |after|)
  }

  /** The width of the indentation at i and where it ends. */
  function Indent(src: string, i: nat): (r: (nat, nat))
    requires i <= |src|
    ensures i <= r.1 <= |src|
  {
    var j := RunEnd(src, i, ' ');
    var k := RunEnd(src, j, '\t');
    (j - i + 4 * (k - j), k)
  }

  predicate Blank(src: string, i: nat) {
    i >= |src| || src[i] == '\n' || src[i] == '#'
  }

  function PastLine(src: string, i: nat): nat
    requires i <= |src|
  {
    if i < |src| then i + 1 else i
  }

  /** The whole program from i on, nothing dropped: blank lines vanish, every other line is its layout tokens, its
      tokens and a newline; at the end the open blocks are closed. */
  function Program(src: string, i: nat, stack: seq<nat>): (r: Lexed)
    requires i <= |src| && Increasing(stack)
    decreases |src| - i
  {
    if i == |src| then Lexed(Repeat(TDedent, |stack| - 1) + [Token(TEof, 0, "")], i) else
      var (width, at) := Indent(src, i);
      if Blank(src, at) then NextLine(src, i, at); Program(src, PastLine(src, LineEnd(src, at)), stack) else
        match Line(src, at)
        case Rejected => Rejected
        case Lexed(toks, end) =>
          LineAdvances(src, at);
          match Program(src, PastLine(src, end), Open(stack, width))
          case Rejected => Rejected
          case Lexed(more, last) =>
            Lexed(Shift(stack, Open(stack, width)) + (toks + ([Token(TNewline, 0, "")] + more)), last)
  }

  lemma NextLine(src: string, i: nat, at: nat)
    requires i < |src| && i <= at <= |src|
    ensures PastLine(src, LineEnd(src, at)) > i
  {
  }

  lemma LineAdvances(src: string, at: nat)
    requires at < |src| && src[at] != '\n'
    ensures var r := Line(src, at); r.Lexed? ==> r.next > at
  {
    hide PieceAt;
  }

  // ----- what the tokens are like -----

  /** Never more blocks closed than open, and from a nesting of d all closed at the end. */
  predicate Balanced(toks: seq<Token>, d: nat) {
    if toks == [] then d == 0
    else if toks[0].kind == TIndent then Balanced(toks[1..], d + 1)
    else if toks[0].kind == TDedent then d > 0 && Balanced(toks[1..], d - 1)
    else Balanced(toks[1..], d)
  }

  predicate EofLast(toks: seq<Token>) {
    && toks != [] && toks[|toks| - 1].kind == TEof
    && forall i :: 0 <= i < |toks| - 1 ==> toks[i].kind != TEof
  }

  lemma {:induction false} PlainBalanced(toks: seq<Token>, more: seq<Token>, d: nat)
    requires forall t :: t in toks ==> t.kind != TIndent && t.kind != TDedent
    ensures Balanced(toks + more, d) == Balanced(more, d)
  {
    if toks == [] {
      assert toks + more == more;
    } else {
      assert (toks + more)[1..] == toks[1..] + more;
      PlainBalanced(toks[1..], more, d);
    }
  }

  lemma {:induction false} DedentsBalanced(n: nat, more: seq<Token>, d: nat)
    requires n <= d
    ensures Balanced(Repeat(TDedent, n) + more, d) == Balanced(more, d - n)
    decreases n
  {
    hide Balanced;
    if n == 0 {
      assert Repeat(TDedent, n) + more == more;
    } else {
      DedentsBalanced(n - 1, more, d - 1);
      var rest := Repeat(TDedent, n - 1) + more;
      assert Repeat(TDedent, n) + more == [Token(TDedent, 0, "")] + rest;
      DedentBalanced(rest, d);
    }
  }

  lemma ShiftBalanced(stack: seq<nat>, width: nat, more: seq<Token>)
    requires Increasing(stack) && Balanced(more, |Open(stack, width)| - 1)
    ensures Balanced(Shift(stack, Open(stack, width)) + more, |stack| - 1)
  {
    hide Increasing, Balanced;
    var after := Open(stack, width);
    OpenSize(stack, width);
    if |after| > |stack| {
      IndentBalanced(more, |stack| - 1);
    } else {
      DedentsBalanced(|stack| - |after|, more, |stack| - 1);
    }
  }

  lemma IndentBalanced(more: seq<Token>, d: nat)
    ensures Balanced([Token(TIndent, 0, "")] + more, d) == Balanced(more, d + 1)
  {
    assert ([Token(TIndent, 0, "")] + more)[1..] == more;
  }

  lemma DedentBalanced(more: seq<Token>, d: nat)
    requires d > 0
    ensures Balanced([Token(TDedent, 0, "")] + more, d) == Balanced(more, d - 1)
  {
    assert ([Token(TDedent, 0, "")] + more)[1..] == more;
  }

  lemma OpenSize(stack: seq<nat>, width: nat)
    requires Increasing(stack)
    ensures 1 <= |Open(stack, width)| <= |stack| + 1 && 1 <= |stack|
  {
  }

  /** Of every accepted program: the blocks balance and there is one end of file, at the end. */
  lemma {:induction false} ProgramWellFormed(src: string, i: nat, stack: seq<nat>)
    requires i <= |src| && Increasing(stack)
    ensures var r := Program(src, i, stack); r.Lexed? ==> Balanced(r.toks, |stack| - 1) && EofLast(r.toks)
    decreases |src| - i
  {
    hide Line, Open, Shift, Balanced, EofLast, Increasing, PastLine, LineEnd, Blank, Indent;
    if i == |src| {
      EndWellFormed(stack);
    } else {
      var (width, at) := Indent(src, i);
      BlankIs(src, at);
      if Blank(src, at) {
        NextLine(src, i, at);
        PastLineIs(src, LineEnd(src, at));
        ProgramWellFormed(src, PastLine(src, LineEnd(src, at)), stack);
      } else {
        var line := Line(src, at);
        if line.Lexed? {
          LineAdvances(src, at);
          PastLineIs(src, line.next);
          var next := Open(stack, width);
          var rest := Program(src, PastLine(src, line.next), next);
          ProgramWellFormed(src, PastLine(src, line.next), next);
          if rest.Lexed? {
            LineWellFormed(stack, width, line.toks, rest.toks);
          }
        }
      }
    }
  }

  lemma BlankIs(src: string, at: nat)
    ensures !Blank(src, at) ==> at < |src| && src[at] != '\n'
  {
  }

  lemma PastLineIs(src: string, end: nat)
    requires end <= |src|
    ensures end <= PastLine(src, end) <= |src|
  {
  }

  lemma EndWellFormed(stack: seq<nat>)
    requires Increasing(stack)
    ensures var toks := Repeat(TDedent, |stack| - 1) + [Token(TEof, 0, "")]; Balanced(toks, |stack| - 1) && EofLast(toks)
  {
    hide Increasing, Balanced, EofLast, Repeat;
    OpenSize(stack, 0);
    var n: nat := |stack| - 1;
    var eof := [Token(TEof, 0, "")];
    DedentsBalanced(n, eof, n);
    EofWellFormed();
    NoEof(Repeat(TDedent, n), eof);
  }

  lemma EofWellFormed()
    ensures Balanced([Token(TEof, 0, "")], 0) && EofLast([Token(TEof, 0, "")])
  {
    assert [Token(TEof, 0, "")][1..] == [];
  }

  lemma LineWellFormed(stack: seq<nat>, width: nat, toks: seq<Token>, more: seq<Token>)
    requires Increasing(stack) && Plain(toks) && Balanced(more, |Open(stack, width)| - 1) && EofLast(more)
    ensures var all := Shift(stack, Open(stack, width)) + (toks + ([Token(TNewline, 0, "")] + more));
            Balanced(all, |stack| - 1) && EofLast(all)
  {
    hide Increasing, Balanced, Open, Shift, EofLast;
    OpenSize(stack, width);
    var nl := [Token(TNewline, 0, "")];
    var d: nat := |Open(stack, width)| - 1;
    PlainBalanced(nl, more, d);
    PlainBalanced(toks, nl + more, d);
    ShiftBalanced(stack, width, toks + (nl + more));
    ShiftKinds(stack, width);
    NoEof(nl, more);
    NoEof(toks, nl + more);
    NoEof(Shift(stack, Open(stack, width)), toks + (nl + more));
  }

  lemma ShiftKinds(stack: seq<nat>, width: nat)
    requires Increasing(stack)
    ensures forall t :: t in Shift(stack, Open(stack, width)) ==> t.kind != TEof
  {
    hide Increasing;
    OpenSize(stack, width);
  }

  lemma NoEof(a: seq<Token>, b: seq<Token>)
    requires EofLast(b) && forall t :: t in a ==> t.kind != TEof
    ensures EofLast(a + b)
  {
    forall i | 0 <= i < |a + b| - 1 ensures (a + b)[i].kind != TEof {
      if i < |a| { assert a[i] in a; }
    }
  }

  // ----- balance as counts -----

  function Count(toks: seq<Token>, k: Kind): nat {
    if toks == [] then 0 else (if toks[0].kind == k then 1 else 0) + Count(toks[1..], k)
  }

  /** Every prefix has at least as many INDENT as DEDENT, and in all there are as many. */
  lemma {:induction false} BalanceCounts(toks: seq<Token>, d: nat, n: nat)
    requires Balanced(toks, d) && n <= |toks|
    ensures Count(toks[..n], TDedent) <= Count(toks[..n], TIndent) + d
    ensures Count(toks, TDedent) == Count(toks, TIndent) + d
    decreases |toks|
  {
    if toks != [] {
      var k := toks[0].kind;
      var d': nat := if k == TIndent then d + 1 else if k == TDedent then d - 1 else d;
      if n == 0 {
        BalanceCounts(toks[1..], d', 0);
      } else {
        assert toks[..n][1..] == toks[1..][..n - 1];
        BalanceCounts(toks[1..], d', n - 1);
      }
    }
  }

  /** What gk_lex guarantees of the tokens it accepts. */
  lemma LexedIs(src: string, n: nat)
    requires Program(src, 0, [0]).Lexed? && n <= |Program(src, 0, [0]).toks|
    ensures var toks := Program(src, 0, [0]).toks;
            && EofLast(toks) && Stream(toks)
            && Count(toks[..n], TDedent) <= Count(toks[..n], TIndent)
            && Count(toks, TDedent) == Count(toks, TIndent)
  {
    hide Program, Balanced;
    ProgramWellFormed(src, 0, [0]);
    BalanceCounts(Program(src, 0, [0]).toks, 0, n);
  }

  // ----- the bounded lexer -----

  /** The source never has more than 63 blocks open at once: the lexer pushes on its stack of 64 without a check. */
  predicate DepthFits(src: string, i: nat, stack: seq<nat>)
    requires i <= |src| && Increasing(stack)
    decreases |src| - i
  {
    if i == |src| then true else
      var (width, at) := Indent(src, i);
      if Blank(src, at) then NextLine(src, i, at); DepthFits(src, PastLine(src, LineEnd(src, at)), stack) else
        && |Open(stack, width)| <= MAX_INDENT
        && match Line(src, at)
           case Rejected => true
           case Lexed(_, end) => LineAdvances(src, at); DepthFits(src, PastLine(src, end), Open(stack, width))
  }

  lemma {:induction false} RepeatSnoc(k: Kind, n: nat)
    ensures Repeat(k, n + 1) == Repeat(k, n) + [Token(k, 0, "")]
  {
    if n > 0 { RepeatSnoc(k, n - 1); }
  }

  /** The loop that closes blocks has got from stack0 to `stack`, with a DEDENT for each block. */
  ghost predicate Closing(stack0: seq<nat>, all0: seq<Token>, stack: seq<nat>, all: seq<Token>, width: nat) {
    && Increasing(stack0) && Increasing(stack) && Pop(stack, width) == Pop(stack0, width)
    && |Pop(stack, width)| <= |stack| <= |stack0| && all == all0 + Repeat(TDedent, |stack0| - |stack|)
  }

  lemma ClosingStarts(stack: seq<nat>, all: seq<Token>, width: nat)
    requires Increasing(stack)
    ensures stack != [] && Closing(stack, all, stack, all, width)
  {
    hide Increasing;
    RepeatNone(TDedent);
    OpenSize(stack, width);
  }

  lemma ClosingStep(stack0: seq<nat>, all0: seq<Token>, stack: seq<nat>, all: seq<Token>, width: nat)
    requires stack != [] && Closing(stack0, all0, stack, all, width) && width < stack[|stack| - 1]
    ensures var rest := stack[..|stack| - 1];
            rest != [] && Increasing(rest) && Closing(stack0, all0, rest, all + [Token(TDedent, 0, "")], width)
  {
    hide Repeat;
    var n := |stack0| - |stack|;
    RepeatSnoc(TDedent, n);
    assert |stack| > 1;
    assert Increasing(stack[..|stack| - 1]);
    assert all0 + (Repeat(TDedent, n) + [Token(TDedent, 0, "")]) == all + [Token(TDedent, 0, "")];
  }

  lemma ClosingEnds(stack0: seq<nat>, all0: seq<Token>, stack: seq<nat>, all: seq<Token>, width: nat)
    requires stack != [] && Closing(stack0, all0, stack, all, width) && width >= stack[|stack| - 1]
    ensures Increasing(stack0) && stack == Pop(stack0, width) && all == all0 + Repeat(TDedent, |stack0| - |stack|)
  {
    hide Repeat;
  }

  lemma ClosingFull(stack0: seq<nat>, all0: seq<Token>, stack: seq<nat>, all: seq<Token>, width: nat)
    requires Closing(stack0, all0, stack, all, width) && |all| > MAX_TOKENS
    ensures |all0 + Repeat(TDedent, |stack0| - |Pop(stack0, width)|)| > MAX_TOKENS
  {
    hide Increasing, Pop;
  }

  class Lexer {
    const src: string
    var i: nat
    var tokens: seq<Token>
    var stack: seq<nat>
    /** Every token emitted, kept or not. */
    ghost var all: seq<Token>

    ghost predicate Valid()
      reads this
    {
      && i <= |src| && Increasing(stack)
      && tokens == if |all| <= MAX_TOKENS then all else all[..MAX_TOKENS]
    }

    constructor (source: string)
      ensures src == source && Valid() && i == 0 && stack == [0] && all == []
    {
      src, i, tokens, stack, all := source, 0, [], [0], [];
    }

    /** The operator tokens are emitted without a look at the result. */
    method Emit(t: Token) returns (ok: bool)
      requires Valid()
      modifies this`tokens, this`all
      ensures Valid() && all == old(all) + [t] && ok == (|all| <= MAX_TOKENS)
    {
      hide Increasing;
      all := all + [t];
      if |tokens| >= MAX_TOKENS {
        return false;
      }
      tokens := tokens + [t];
      return true;
    }

    method SkipRun(c: char)
      requires i <= |src|
      modifies this`i
      ensures i == RunEnd(src, old(i), c)
    {
      while i < |src| && src[i] == c
        invariant i <= |src| && RunEnd(src, i, c) == RunEnd(src, old(i), c)
      {
        i := i + 1;
      }
    }

    method SkipLine()
      requires i <= |src|
      modifies this`i
      ensures i == LineEnd(src, old(i))
    {
      while i < |src| && src[i] != '\n'
        invariant i <= |src| && LineEnd(src, i) == LineEnd(src, old(i))
      {
        i := i + 1;
      }
    }

    method ReadNumber() returns (val: nat)
      requires i < |src| && IsDigit(src[i])
      modifies this`i
      ensures (val, i) == Number(src, old(i) + 1, (src[old(i)] - '0') as nat)
    {
      val := 0;
      while i < |src| && IsDigit(src[i])
        invariant i <= |src| && Number(src, i, val) == Number(src, old(i), 0)
      {
        val := val * 10 + (src[i] - '0') as nat;
        i := i + 1;
      }
    }

    method ReadWord() returns (buf: string)
      requires i < |src| && Alpha(src[i])
      modifies this`i
      ensures (buf, i) == Word(src, old(i) + 1, [src[old(i)]])
    {
      buf := "";
      while i < |src| && (Alpha(src[i]) || IsDigit(src[i])) && |buf| < MAX_WORD
        invariant i <= |src| && Word(src, i, buf) == Word(src, old(i), "")
      {
        buf := buf + [src[i]];
        i := i + 1;
      }
      assert "" + [src[old(i)]] == [src[old(i)]];
    }

    method ReadString(quote: char) returns (buf: string)
      requires i <= |src|
      modifies this`i
      ensures (buf, i) == Quoted(src, old(i), quote, "")
    {
      buf := "";
      var full := false;
      while !full && i < |src| && src[i] != quote
        invariant i <= |src|
        invariant !full ==> Quoted(src, i, quote, buf) == Quoted(src, old(i), quote, "")
        invariant full ==> (buf, i) == Quoted(src, old(i), quote, "")
        decreases |src| - i
      {
        if src[i] == '\\' && i + 1 < |src| {
          i := i + 1;
          buf := buf + [Escaped(src[i])];
        } else {
          buf := buf + [src[i]];
        }
        i := i + 1;
        full := |buf| >= MAX_TEXT;
      }
    }

    /** One turn of the loop over a line. */
    method LexPiece() returns (ok: bool)
      requires Valid() && i < |src| && src[i] != '\n'
      modifies this`i, this`tokens, this`all
      ensures Valid()
      ensures var p := PieceAt(src, old(i));
              if p.Unknown? then !ok else && all == old(all) + p.toks && (ok ==> i == p.next) && (!ok ==> |all| > MAX_TOKENS)
    {
      hide Keyword, Operator, Number, Word, Quoted, Increasing, Plain;
      var c := src[i];
      ok := true;
      if c == ' ' || c == '\t' {
        i := i + 1;
      } else if c == '#' {
        SkipLine();
      } else if IsDigit(c) {
        var val := ReadNumber();
        ok := Emit(Token(TInt, val, ""));
      } else if c == '"' || c == '\'' {
        i := i + 1;
        var buf := ReadString(c);
        if i < |src| {
          i := i + 1;
        }
        ok := Emit(Token(TStr, 0, buf));
      } else if Alpha(c) {
        var buf := ReadWord();
        ok := Emit(Token(Keyword(buf), 0, buf));
      } else {
        ok := LexOperator();
      }
    }

    method LexOperator() returns (ok: bool)
      requires Valid() && i < |src|
      modifies this`i, this`tokens, this`all
      ensures Valid()
      ensures match Operator(src[old(i)], if old(i) + 1 < |src| then Some(src[old(i) + 1]) else None)
              case None => !ok
              case Some((k, n)) => ok && all == old(all) + [Token(k, 0, "")] && i == old(i) + n
    {
      hide Operator, Increasing;
      var next := if i + 1 < |src| then Some(src[i + 1]) else None;
      OperatorFits(src[i], next);
      var op := Operator(src[i], next);
      if op.None? {
        return false;
      }
      var kept := Emit(Token(op.value.0, 0, ""));
      i := i + op.value.1;
      return true;
    }

    method LexLine() returns (ok: bool)
      requires Valid()
      modifies this`i, this`tokens, this`all
      ensures Valid()
      ensures var r := Line(src, old(i));
              && (ok ==> r.Lexed? && all == old(all) + r.toks && i == r.next)
              && (!ok && r.Lexed? ==> |old(all) + r.toks| > MAX_TOKENS)
    {
      hide PieceAt, Increasing, Plain;
      ghost var r := Line(src, i);
      while i < |src| && src[i] != '\n'
        invariant Valid()
        invariant r.Rejected? <==> Line(src, i).Rejected?
        invariant r.Lexed? ==> all + Line(src, i).toks == old(all) + r.toks && Line(src, i).next == r.next
        decreases |src| - i
      {
        ghost var p := PieceAt(src, i);
        ghost var before := all;
        assert p.Piece? && r.Lexed? ==> before + (p.toks + Line(src, p.next).toks) == before + p.toks + Line(src, p.next).toks;
        ok := LexPiece();
        if !ok {
          return;
        }
      }
      ok := true;
    }

    /** Open a block, or close those that the line has left. */
    method Relayout(width: nat) returns (ok: bool)
      requires Valid() && |Open(stack, width)| <= MAX_INDENT
      modifies this`stack, this`tokens, this`all
      ensures Valid()
      ensures var s := Shift(old(stack), Open(old(stack), width));
              && (ok ==> stack == Open(old(stack), width) && all == old(all) + s)
              && (!ok ==> |old(all) + s| > MAX_TOKENS)
    {
      if width > stack[|stack| - 1] {
        stack := stack + [width];
        ok := Emit(Token(TIndent, 0, ""));
      } else {
        ok := CloseTo(width);
      }
    }

    method CloseTo(width: nat) returns (ok: bool)
      requires Valid()
      modifies this`stack, this`tokens, this`all
      ensures Valid()
      ensures var after := Pop(old(stack), width);
              var s := Repeat(TDedent, |old(stack)| - |after|);
              && (ok ==> stack == after && all == old(all) + s)
              && (!ok ==> |old(all) + s| > MAX_TOKENS)
    {
      hide Repeat, Pop, Increasing, Closing;
      ghost var stack0, all0 := stack, all;
      ClosingStarts(stack, all, width);
      while width < stack[|stack| - 1]
        invariant Valid() && stack != [] && Closing(stack0, all0, stack, all, width)
        decreases |stack|
      {
        ClosingStep(stack0, all0, stack, all, width);
        stack := stack[..|stack| - 1];
        ok := Emit(Token(TDedent, 0, ""));
        if !ok {
          ClosingFull(stack0, all0, stack, all, width);
          return;
        }
      }
      ClosingEnds(stack0, all0, stack, all, width);
      ok := true;
    }

    /** gk_lex: true exactly when the source is accepted and all its tokens fit, and then none is missing. */
    method Lex() returns (ok: bool)
      requires Valid() && i == 0 && stack == [0] && all == [] && DepthFits(src, 0, [0])
      modifies this
      ensures var r := Program(src, 0, [0]);
              && (ok <==> r.Lexed? && |r.toks| <= MAX_TOKENS)
              && (ok ==> tokens == r.toks && stack == [0])
    {
      hide Program, DepthFits, Increasing, Plain, Line;
      ghost var r := Program(src, 0, [0]);
      assert r.Lexed? ==> [] + r.toks == r.toks;
      while i < |src|
        invariant Valid() && DepthFits(src, i, stack)
        invariant Follows(r, all, Program(src, i, stack))
        decreases |src| - i
      {
        ok := LexRow(r);
        if !ok {
          return;
        }
      }
      ok := Finish(r);
    }

    /** One line of the source: its layout, its tokens and the newline. */
    method LexRow(ghost r: Lexed) returns (ok: bool)
      requires Valid() && i < |src| && DepthFits(src, i, stack) && Follows(r, all, Program(src, i, stack))
      modifies this
      ensures ok ==> Valid() && i > old(i) && DepthFits(src, i, stack) && Follows(r, all, Program(src, i, stack))
      ensures !ok ==> r.Rejected? || |r.toks| > MAX_TOKENS
    {
      hide Increasing, Plain, Open, Shift, Line, LineEnd, RunEnd;
      ghost var start := i;
      var width := ReadIndent();
      if i >= |src| || src[i] == '\n' || src[i] == '#' {
        NextLine(src, start, i);
        SkipLine();
        if i < |src| {
          i := i + 1;
        }
        return true;
      }
      LineAdvances(src, i);
      ok := LexFull(width, r);
    }

    method ReadIndent() returns (width: nat)
      requires i <= |src|
      modifies this`i
      ensures (width, i) == Indent(src, old(i))
    {
      hide RunEnd;
      var start := i;
      SkipRun(' ');
      var spaces := i;
      SkipRun('\t');
      width := spaces - start + 4 * (i - spaces);
    }

    /** A line that is not blank, from the end of its indentation. */
    method LexFull(width: nat, ghost r: Lexed) returns (ok: bool)
      requires Valid() && i < |src| && src[i] != '\n' && |Open(stack, width)| <= MAX_INDENT
      requires var line := Line(src, i);
               if line.Rejected? then r.Rejected? else
                 var after := Open(stack, width);
                 var rest := Program(src, PastLine(src, line.next), after);
                 && DepthFits(src, PastLine(src, line.next), after)
                 && if rest.Rejected? then r.Rejected? else
                      r.Lexed? && r.toks == all + (Shift(stack, after) + (line.toks + ([Token(TNewline, 0, "")] + rest.toks)))
      modifies this
      ensures ok ==> Valid() && i > old(i) && DepthFits(src, i, stack) && Follows(r, all, Program(src, i, stack))
      ensures !ok ==> r.Rejected? || |r.toks| > MAX_TOKENS
    {
      hide Increasing, Plain, Open, Shift, Line, Program, DepthFits;
      LineAdvances(src, i);
      ghost var before, line := all, Line(src, i);
      ghost var rest := if line.Lexed? then Program(src, PastLine(src, line.next), Open(stack, width)) else Rejected;
      RowTokens(before, Shift(stack, Open(stack, width)), if line.Lexed? then line.toks else [], if rest.Lexed? then rest.toks else []);
      ok := Relayout(width);
      if !ok {
        return;
      }
      ok := LexLine();
      if !ok {
        return;
      }
      ok := Emit(Token(TNewline, 0, ""));
      if !ok {
        return;
      }
      if i < |src| {
        i := i + 1;
      }
    }

    method Finish(ghost r: Lexed) returns (ok: bool)
      requires Valid() && i == |src| && Follows(r, all, Program(src, i, stack))
      modifies this
      ensures ok <==> r.Lexed? && |r.toks| <= MAX_TOKENS
      ensures ok ==> tokens == r.toks && stack == [0]
    {
      hide Repeat, Plain;
      ghost var n: nat, before, depth: nat := 0, all, |stack| - 1;
      RepeatNone(TDedent);
      while |stack| > 1
        invariant Valid() && i == |src| && |stack| - 1 + n == depth && all == before + Repeat(TDedent, n)
        decreases |stack|
      {
        RepeatSnoc(TDedent, n);
        n := n + 1;
        stack := stack[..|stack| - 1];
        ok := Emit(Token(TDedent, 0, ""));
        if !ok {
          return;
        }
      }
      ok := Emit(Token(TEof, 0, ""));
    }
  }

  /** What is emitted so far and what the rest of the source yields make up the whole. */
  ghost predicate Follows(r: Lexed, done: seq<Token>, rest: Lexed) {
    if r.Rejected? then rest.Rejected? else rest.Lexed? && r.toks == done + rest.toks
  }

  lemma RepeatNone(k: Kind)
    ensures Repeat(k, 0) == []
  {
  }

  lemma RowTokens(before: seq<Token>, shift: seq<Token>, toks: seq<Token>, more: seq<Token>)
    ensures before + (shift + (toks + ([Token(TNewline, 0, "")] + more)))
         == before + shift + toks + [Token(TNewline, 0, "")] + more
  {
  }
}
