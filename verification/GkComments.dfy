/** Comments and blank lines: the lexer works line by line, and what a comment says does not matter. */
module GkComments {
  import opened Wrappers
  import opened GkSyntax
  import opened GkValues
  import opened GkLexer
  import opened GkText

  // ----- code -----

  predicate IsQuote(c: char) {
    c == '"' || c == '\''
  }

  /** From i on, code holds no newline and no comment sign outside its strings, and its strings are closed. */
  predicate Closed(code: string, i: nat)
    requires i <= |code|
    decreases |code| - i
  {
    || i == |code|
    || (code[i] != '\n' && code[i] != '#' &&
        if IsQuote(code[i]) then
          var r := Quoted(code, i + 1, code[i], "");
          r.1 < |code| && Closed(code, r.1 + 1)
        else Closed(code, i + 1))
  }

  /** Code without quotes, comment signs and newlines is closed. */
  lemma {:induction false} PlainIsClosed(code: string, i: nat)
    requires i <= |code| && forall k :: i <= k < |code| ==> code[k] != '\n' && code[k] != '#' && !IsQuote(code[k])
    ensures Closed(code, i)
    decreases |code| - i
  {
    if i < |code| { PlainIsClosed(code, i + 1); }
  }

  /** In src the line of `code` starts at i; what follows the code up to `end` is nothing or a comment, and there the line
      ends. */
  predicate LineOf(src: string, i: nat, code: string, end: nat) {
    && Stands(src, i, code) && i + |code| <= end <= |src| && (end < |src| ==> src[end] == '\n')
    && (i + |code| < end ==> src[i + |code|] == '#' && forall k :: i + |code| < k < end ==> src[k] != '\n')
  }

  lemma CodeAt(src: string, i: nat, code: string, end: nat, k: nat)
    requires LineOf(src, i, code, end) && k <= |code|
    ensures i + k <= |src| && (k < |code| ==> i + k < |src| && src[i + k] == code[k])
    ensures k == |code| && i + k < |src| ==> src[i + k] == '\n' || src[i + k] == '#'
  {
    if k < |code| { StandsAt(src, i, code, k); }
  }

  // ----- one token -----

  lemma {:induction false} NumberLocal(src: string, i: nat, code: string, end: nat, k: nat, acc: nat)
    requires LineOf(src, i, code, end) && k <= |code|
    ensures var r := GkLexer.Number(code, k, acc); i + k <= |src| && GkLexer.Number(src, i + k, acc) == (r.0, i + r.1)
    decreases |code| - k
  {
    hide LineOf;
    CodeAt(src, i, code, end, k);
    if k < |code| && IsDigit(code[k]) { NumberLocal(src, i, code, end, k + 1, acc * 10 + (code[k] - '0') as nat); }
  }

  lemma {:induction false} WordLocal(src: string, i: nat, code: string, end: nat, k: nat, done: string)
    requires LineOf(src, i, code, end) && k <= |code|
    ensures var r := Word(code, k, done); i + k <= |src| && Word(src, i + k, done) == (r.0, i + r.1)
    decreases |code| - k
  {
    hide LineOf;
    CodeAt(src, i, code, end, k);
    if k < |code| && (Alpha(code[k]) || IsDigit(code[k])) && |done| < MAX_WORD {
      WordLocal(src, i, code, end, k + 1, done + [code[k]]);
    }
  }

  lemma {:induction false} QuotedLocal(src: string, i: nat, code: string, end: nat, k: nat, quote: char, done: string)
    requires LineOf(src, i, code, end) && k <= |code| && Quoted(code, k, quote, done).1 < |code|
    ensures var r := Quoted(code, k, quote, done); i + k <= |src| && Quoted(src, i + k, quote, done) == (r.0, i + r.1)
    decreases |code| - k
  {
    hide LineOf;
    CodeAt(src, i, code, end, k);
    if k < |code| && code[k] != quote {
      CodeAt(src, i, code, end, k + 1);
      if code[k] == '\\' && k + 1 == |code| {
        assert false;
      } else {
        var at := if code[k] == '\\' then k + 1 else k;
        var c := if at > k then Escaped(code[at]) else code[at];
        if |done| + 1 < MAX_TEXT { QuotedLocal(src, i, code, end, at + 1, quote, done + [c]); }
      }
    }
  }

  /** The token that stands in the code is the token that stands in the source. */
  lemma PieceLocal(src: string, i: nat, code: string, end: nat, k: nat)
    requires LineOf(src, i, code, end) && k < |code| && Closed(code, k)
    ensures i + k < |src| && src[i + k] != '\n' && code[k] != '\n'
    ensures PieceAt(src, i + k) == match PieceAt(code, k)
            case Unknown => Unknown
            case Piece(toks, next) => Piece(toks, i + next)
  {
    hide LineOf, Quoted, GkLexer.Number, Word, Operator, Keyword, PieceAt, Closed;
    CodeAt(src, i, code, end, k);
    ClosedHere(code, k);
    var c := code[k];
    if c == ' ' || c == '\t' {
      WhitePiece(src, i + k);
      WhitePiece(code, k);
    } else if IsDigit(c) {
      DigitPiece(src, i + k);
      DigitPiece(code, k);
      NumberLocal(src, i, code, end, k, 0);
    } else if IsQuote(c) {
      QuoteLocal(src, i, code, end, k);
    } else if Alpha(c) {
      WordPiece(src, i + k);
      WordPiece(code, k);
      WordLocal(src, i, code, end, k, "");
    } else {
      SignLocal(src, i, code, end, k);
    }
  }

  lemma QuoteLocal(src: string, i: nat, code: string, end: nat, k: nat)
    requires LineOf(src, i, code, end) && k < |code| && Closed(code, k) && IsQuote(code[k])
    ensures i + k < |src| && src[i + k] == code[k]
    ensures PieceAt(code, k).Piece? && PieceAt(src, i + k) == Piece(PieceAt(code, k).toks, i + PieceAt(code, k).next)
  {
    hide LineOf, Quoted, PieceAt;
    CodeAt(src, i, code, end, k);
    QuotePiece(src, i + k);
    QuotePiece(code, k);
    QuotedLocal(src, i, code, end, k + 1, code[k], "");
    CodeAt(src, i, code, end, Quoted(code, k + 1, code[k], "").1);
  }

  lemma SignLocal(src: string, i: nat, code: string, end: nat, k: nat)
    requires LineOf(src, i, code, end) && k < |code| && Plainly(code[k])
    ensures i + k < |src| && src[i + k] == code[k]
    ensures PieceAt(src, i + k) == match PieceAt(code, k)
            case Unknown => Unknown
            case Piece(toks, next) => Piece(toks, i + next)
  {
    hide LineOf, Operator, PieceAt;
    CodeAt(src, i, code, end, k);
    CodeAt(src, i, code, end, k + 1);
    SignPiece(src, i + k);
    SignPiece(code, k);
    OperatorLocal(code[k], if i + k + 1 < |src| then Some(src[i + k + 1]) else None, if k + 1 < |code| then Some(code[k + 1]) else None);
  }

  lemma WhitePiece(src: string, i: nat)
    requires i < |src| && (src[i] == ' ' || src[i] == '\t')
    ensures PieceAt(src, i) == Piece([], i + 1)
  {
    hide Quoted, Word, Keyword, LineEnd, GkLexer.Number, Operator;
  }

  lemma QuotePiece(src: string, i: nat)
    requires i < |src| && IsQuote(src[i])
    ensures var r := Quoted(src, i + 1, src[i], "");
            PieceAt(src, i) == Piece([Token(TStr, 0, r.0)], if r.1 < |src| then r.1 + 1 else r.1)
  {
    hide Quoted, Word, Operator, Keyword, LineEnd, GkLexer.Number;
  }

  lemma SignPiece(src: string, i: nat)
    requires i < |src| && Plainly(src[i])
    ensures var op := Operator(src[i], if i + 1 < |src| then Some(src[i + 1]) else None);
            PieceAt(src, i) == if op.None? then Unknown else Piece([Token(op.value.0, 0, "")], i + op.value.1)
  {
    hide Quoted, Word, Keyword, LineEnd, GkLexer.Number, Operator;
  }

  /** A newline, a comment sign or nothing after a character make no operator of two characters. */
  lemma OperatorLocal(c: char, a: Option<char>, b: Option<char>)
    requires a == b || (b == None && (a == None || a == Some('\n') || a == Some('#')))
    ensures Operator(c, a) == Operator(c, b)
  {}

  // ----- what is closed stays closed after a token -----

  lemma {:induction false} ClosedAfterNumber(code: string, k: nat, acc: nat)
    requires k <= |code| && Closed(code, k)
    ensures Closed(code, GkLexer.Number(code, k, acc).1)
    decreases |code| - k
  {
    if k < |code| && IsDigit(code[k]) { ClosedAfterNumber(code, k + 1, acc * 10 + (code[k] - '0') as nat); }
  }

  lemma {:induction false} ClosedAfterWord(code: string, k: nat, done: string)
    requires k <= |code| && Closed(code, k)
    ensures Closed(code, Word(code, k, done).1)
    decreases |code| - k
  {
    if k < |code| && (Alpha(code[k]) || IsDigit(code[k])) && |done| < MAX_WORD { ClosedAfterWord(code, k + 1, done + [code[k]]); }
  }

  lemma ClosedAfterPiece(code: string, k: nat)
    requires k < |code| && Closed(code, k)
    ensures code[k] != '\n'
    ensures PieceAt(code, k).Piece? ==> Closed(code, PieceAt(code, k).next)
  {
    hide Quoted, GkLexer.Number, Word, Keyword, LineEnd;
    var c := code[k];
    if IsDigit(c) {
      ClosedAfterNumber(code, k + 1, (c - '0') as nat);
    } else if Alpha(c) {
      ClosedAfterWord(code, k + 1, [c]);
    } else if !IsQuote(c) && c != ' ' && c != '\t' {
      ClosedAfterOperator(code, k);
    }
  }

  lemma ClosedAfterOperator(code: string, k: nat)
    requires k < |code| && Closed(code, k) && !IsQuote(code[k])
    ensures var op := Operator(code[k], if k + 1 < |code| then Some(code[k + 1]) else None);
      op.Some? ==> k + op.value.1 <= |code| && Closed(code, k + op.value.1)
  {
    var op := Operator(code[k], if k + 1 < |code| then Some(code[k + 1]) else None);
    if op.Some? && op.value.1 == 2 {
      assert Closed(code, k + 1) && code[k + 1] == '=';
    }
  }

  // ----- a line -----

  /** The tokens of a line are those of its code, whatever its comment says. */
  lemma {:induction false} LineLocal(src: string, i: nat, code: string, end: nat, k: nat)
    requires LineOf(src, i, code, end) && k <= |code| && Closed(code, k)
    ensures i + k <= |src|
    ensures Line(src, i + k) == match Line(code, k)
            case Rejected => Rejected
            case Lexed(toks, _) => Lexed(toks, end)
    decreases |code| - k
  {
    hide LineOf, PieceAt, Closed, Plain;
    CodeAt(src, i, code, end, k);
    if k == |code| {
      CommentSkipped(src, i, code, end);
    } else {
      PieceLocal(src, i, code, end, k);
      ClosedAfterPiece(code, k);
      match PieceAt(code, k)
      case Unknown =>
      case Piece(toks, next) =>
        LineLocal(src, i, code, end, next);
    }
  }

  lemma CommentSkipped(src: string, i: nat, code: string, end: nat)
    requires LineOf(src, i, code, end)
    ensures i + |code| <= |src| && Line(src, i + |code|) == Lexed([], end)
  {
    var j := i + |code|;
    if j < end {
      LineEndIs(src, j + 1, end);
      assert PieceAt(src, j) == Piece([], end);
      assert Line(src, end) == Lexed([], end);
    }
  }

  lemma {:induction false} LineEndIs(src: string, j: nat, end: nat)
    requires j <= end <= |src| && (end < |src| ==> src[end] == '\n') && forall k :: j <= k < end ==> src[k] != '\n'
    ensures LineEnd(src, j) == end
    decreases end - j
  {
    if j < end { LineEndIs(src, j + 1, end); }
  }

  // ----- the whole program, line by line -----

  /** A line of source: code and perhaps a comment. */
  datatype SourceLine = SourceLine(code: string, comment: Option<string>)

  predicate Proper(l: SourceLine) {
    Closed(l.code, 0) && (l.comment.Some? ==> forall k :: 0 <= k < |l.comment.value| ==> l.comment.value[k] != '\n')
  }

  predicate AllProper(ls: seq<SourceLine>) {
    forall i :: 0 <= i < |ls| ==> Proper(ls[i])
  }

  function LineText(l: SourceLine): string {
    l.code + if l.comment.Some? then "#" + l.comment.value else ""
  }

  /** The lines with newlines between them. */
  function Join(ls: seq<SourceLine>): string {
    if ls == [] then "" else if |ls| == 1 then LineText(ls[0]) else LineText(ls[0]) + "\n" + Join(ls[1..])
  }

  /** The tokens of the lines of code: an empty or white line has none, any other its layout tokens, its tokens and a
      newline. */
  function Tokens(codes: seq<string>, stack: seq<nat>): Option<seq<Token>>
    requires Increasing(stack)
  {
    if codes == [] then Some(Repeat(TDedent, |stack| - 1) + [Token(TEof, 0, "")]) else
      var (width, at) := Indent(codes[0], 0);
      if at == |codes[0]| then Tokens(codes[1..], stack) else
        match Line(codes[0], at)
        case Rejected => None
        case Lexed(toks, _) =>
          match Tokens(codes[1..], Open(stack, width))
          case None => None
          case Some(more) => Some(Shift(stack, Open(stack, width)) + (toks + ([Token(TNewline, 0, "")] + more)))
  }

  function Codes(ls: seq<SourceLine>): (cs: seq<string>)
    ensures |cs| == |ls| && forall i :: 0 <= i < |ls| ==> cs[i] == ls[i].code
  {
    seq(|ls|, i requires 0 <= i < |ls| => ls[i].code)
  }

  lemma {:induction false} RunLocal(src: string, i: nat, code: string, end: nat, k: nat, c: char)
    requires LineOf(src, i, code, end) && k <= |code| && (c == ' ' || c == '\t')
    ensures i + k <= |src| && RunEnd(src, i + k, c) == i + RunEnd(code, k, c)
    decreases |code| - k
  {
    hide LineOf;
    CodeAt(src, i, code, end, k);
    if k < |code| && code[k] == c { RunLocal(src, i, code, end, k + 1, c); }
  }

  lemma {:induction false} ClosedAfterRun(code: string, k: nat, c: char)
    requires k <= |code| && Closed(code, k) && (c == ' ' || c == '\t')
    ensures Closed(code, RunEnd(code, k, c))
    decreases |code| - k
  {
    if k < |code| && code[k] == c { ClosedAfterRun(code, k + 1, c); }
  }

  lemma IndentLocal(src: string, i: nat, code: string, end: nat)
    requires LineOf(src, i, code, end) && Closed(code, 0)
    ensures var (w, at) := Indent(code, 0);
      i <= |src| && Indent(src, i) == (w, i + at) && Closed(code, at) && (Blank(src, i + at) <==> at == |code|)
  {
    hide LineOf, Closed, RunEnd;
    var j := RunEnd(code, 0, ' ');
    var at := RunEnd(code, j, '\t');
    RunLocal(src, i, code, end, 0, ' ');
    RunLocal(src, i, code, end, j, '\t');
    ClosedAfterRun(code, 0, ' ');
    ClosedAfterRun(code, j, '\t');
    CodeAt(src, i, code, end, at);
    ClosedHere(code, at);
  }

  lemma ClosedHere(code: string, k: nat)
    requires k <= |code| && Closed(code, k)
    ensures k < |code| ==> code[k] != '\n' && code[k] != '#'
  {}

  /** One line and what follows it. */
  lemma LineThen(src: string, i: nat, code: string, end: nat, stack: seq<nat>)
    requires LineOf(src, i, code, end) && Closed(code, 0) && Increasing(stack) && i < |src|
    ensures var (w, at) := Indent(code, 0);
      Program(src, i, stack) ==
        if at == |code| then Program(src, PastLine(src, end), stack)
        else match Line(code, at)
             case Rejected => Rejected
             case Lexed(toks, _) =>
               (match Program(src, PastLine(src, end), Open(stack, w))
                case Rejected => Rejected
                case Lexed(more, last) => Lexed(Shift(stack, Open(stack, w)) + (toks + ([Token(TNewline, 0, "")] + more)), last))
  {
    hide LineOf, Closed, Line, Open, Shift, Increasing, Indent, Blank;
    IndentLocal(src, i, code, end);
    var (w, at) := Indent(code, 0);
    EndHere(src, i, code, end, at);
    if at < |code| { LineLocal(src, i, code, end, at); }
  }

  lemma EndHere(src: string, i: nat, code: string, end: nat, at: nat)
    requires LineOf(src, i, code, end) && at <= |code|
    ensures end <= |src| && (at == |code| ==> LineEnd(src, i + at) == end)
  {
    if at == |code| { LineEndIs(src, i + at, end); }
  }

  lemma LineStands(l: SourceLine, src: string, i: nat)
    requires Proper(l) && Stands(src, i, LineText(l)) && (i + |LineText(l)| < |src| ==> src[i + |LineText(l)|] == '\n')
    ensures LineOf(src, i, l.code, i + |LineText(l)|)
  {
    hide Closed;
    var tail := if l.comment.Some? then "#" + l.comment.value else "";
    StandsSplit(src, i, l.code, tail);
    var j := i + |l.code|;
    forall k | j <= k < j + |tail| ensures src[k] == tail[k - j] {
      StandsAt(src, j, tail, k - j);
    }
  }

  /** The lexer works line by line, on the code of the lines alone. */
  lemma {:induction false} LineByLine(ls: seq<SourceLine>, src: string, i: nat, stack: seq<nat>)
    requires AllProper(ls) && Increasing(stack) && Stands(src, i, Join(ls)) && i + |Join(ls)| == |src|
    ensures i <= |src|
    ensures Program(src, i, stack) == match Tokens(Codes(ls), stack)
            case None => Rejected
            case Some(toks) => Lexed(toks, |src|)
    decreases |ls|
  {
    hide Stands, LineOf, Closed, Line, Open, Shift, Increasing, Indent, Program, LineText, Tokens;
    if ls == [] {
      NoLines(src, stack);
    } else {
      var l, rest := ls[0], ls[1..];
      assert Codes(ls)[1..] == Codes(rest);
      if |ls| == 1 {
        LineStands(l, src, i);
        LastOne(ls, src, i, stack);
      } else {
        assert Join(ls) == LineText(l) + ("\n" + Join(rest));
        StandsSplit(src, i, LineText(l), "\n" + Join(rest));
        StandsSplit(src, i + |LineText(l)|, "\n", Join(rest));
        FirstAt(src, i + |LineText(l)|, "\n");
        LineStands(l, src, i);
        var j := i + |LineText(l)| + 1;
        MoreLines(ls, src, i, j, stack);
      }
    }
  }

  lemma NoLines(src: string, stack: seq<nat>)
    requires Increasing(stack)
    ensures Program(src, |src|, stack) == Lexed(Repeat(TDedent, |stack| - 1) + [Token(TEof, 0, "")], |src|)
    ensures Tokens([], stack) == Some(Repeat(TDedent, |stack| - 1) + [Token(TEof, 0, "")])
  {}

  lemma TokensStep(codes: seq<string>, stack: seq<nat>)
    requires Increasing(stack) && codes != []
    ensures var (w, at) := Indent(codes[0], 0);
      Tokens(codes, stack) ==
        if at == |codes[0]| then Tokens(codes[1..], stack)
        else match Line(codes[0], at)
             case Rejected => None
             case Lexed(toks, _) =>
               (match Tokens(codes[1..], Open(stack, w))
                case None => None
                case Some(more) => Some(Shift(stack, Open(stack, w)) + (toks + ([Token(TNewline, 0, "")] + more))))
  {
    hide Line, Open, Shift, Increasing, Indent;
  }

  lemma LastOne(ls: seq<SourceLine>, src: string, i: nat, stack: seq<nat>)
    requires |ls| == 1 && AllProper(ls) && Increasing(stack) && LineOf(src, i, ls[0].code, |src|) && i <= |src|
    ensures Program(src, i, stack) == match Tokens(Codes(ls), stack)
            case None => Rejected
            case Some(toks) => Lexed(toks, |src|)
  {
    hide LineOf, Closed, Line, Open, Shift, Increasing, Indent, Program, Tokens;
    var code := ls[0].code;
    assert Codes(ls)[1..] == [];
    TokensStep(Codes(ls), stack);
    NoLines(src, stack);
    var (w, at) := Indent(code, 0);
    if i == |src| {
      NothingLeft(src, i, code);
    } else {
      LineThen(src, i, code, |src|, stack);
      assert PastLine(src, |src|) == |src|;
      OpenGrows(stack, w);
      NoLines(src, Open(stack, w));
    }
  }

  lemma NothingLeft(src: string, i: nat, code: string)
    requires LineOf(src, i, code, |src|) && i == |src|
    ensures code == "" && Indent(code, 0) == (0, 0)
  {}

  lemma OpenGrows(stack: seq<nat>, w: nat)
    requires Increasing(stack)
    ensures Increasing(Open(stack, w))
  {}

  lemma {:induction false} MoreLines(ls: seq<SourceLine>, src: string, i: nat, j: nat, stack: seq<nat>)
    requires |ls| > 1 && AllProper(ls) && Increasing(stack) && i < j <= |src| && LineOf(src, i, ls[0].code, j - 1) && src[j - 1] == '\n'
    requires Stands(src, j, Join(ls[1..])) && j + |Join(ls[1..])| == |src|
    ensures Program(src, i, stack) == match Tokens(Codes(ls), stack)
            case None => Rejected
            case Some(toks) => Lexed(toks, |src|)
    decreases |ls|, 0
  {
    hide Stands, LineOf, Closed, Line, Open, Shift, Increasing, Indent, Program, Tokens, Join;
    var code, rest := ls[0].code, ls[1..];
    assert Codes(ls)[1..] == Codes(rest);
    TokensStep(Codes(ls), stack);
    LineThen(src, i, code, j - 1, stack);
    assert PastLine(src, j - 1) == j;
    var (w, at) := Indent(code, 0);
    OpenGrows(stack, w);
    LineByLine(rest, src, j, stack);
    LineByLine(rest, src, j, Open(stack, w));
  }

  /** The line without its comment. */
  function Bare(l: SourceLine): SourceLine {
    SourceLine(l.code, None)
  }

  function AllBare(ls: seq<SourceLine>): (bs: seq<SourceLine>)
    ensures |bs| == |ls| && forall i :: 0 <= i < |ls| ==> bs[i] == Bare(ls[i])
  {
    seq(|ls|, i requires 0 <= i < |ls| => Bare(ls[i]))
  }

  /** Comments do not matter: a program and the program without its comments have the same tokens. */
  lemma CommentsIgnored(ls: seq<SourceLine>)
    requires AllProper(ls)
    ensures var a, b := Program(Join(ls), 0, [0]), Program(Join(AllBare(ls)), 0, [0]);
      (a.Rejected? <==> b.Rejected?) && (a.Lexed? ==> a.toks == b.toks)
  {
    hide Tokens, Program, Join, Closed;
    var bs := AllBare(ls);
    assert Codes(bs) == Codes(ls);
    assert Stands(Join(ls), 0, Join(ls)) && Stands(Join(bs), 0, Join(bs));
    LineByLine(ls, Join(ls), 0, [0]);
    LineByLine(bs, Join(bs), 0, [0]);
  }

  /** And one line for itself: text + "#" + comment has the tokens of the text. */
  lemma CommentAfter(text: string, comment: string)
    requires Closed(text, 0) && forall k :: 0 <= k < |comment| ==> comment[k] != '\n'
    ensures Line(text + "#" + comment, 0) == match Line(text, 0)
            case Rejected => Rejected
            case Lexed(toks, _) => Lexed(toks, |text| + 1 + |comment|)
  {
    hide Closed, Line, LineText, Stands, LineOf;
    var l := SourceLine(text, Some(comment));
    var src := text + "#" + comment;
    WholeLine(text, comment);
    LineStands(l, src, 0);
    LineLocal(src, 0, text, |src|, 0);
  }

  lemma WholeLine(text: string, comment: string)
    ensures var src := text + "#" + comment;
      LineText(SourceLine(text, Some(comment))) == src && Stands(src, 0, src) && |src| == |text| + 1 + |comment|
  {
    assert text + ("#" + comment) == text + "#" + comment;
  }
}
