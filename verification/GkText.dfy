/** Programs as source text: what the lexer reads from spelled tokens and indented lines, and that every printed program is
    read back as that program. */
module GkText {
  import opened Wrappers
  import opened GkSyntax
  import opened GkValues
  import opened GkLexer
  import opened GkRoundTrip
  import opened GkStatements
  import G = GkGrammar
  import R = GkRun

  // ----- spelling -----

  /** A character as a literal spells it: newline and tab by their letters, quote and backslash behind a backslash. */
  function EscapeChar(c: char): string {
    if c == '\n' then ['\\', 'n'] else if c == '\t' then ['\\', 't'] else if c == '"' || c == '\\' then ['\\', c] else [c]
  }

  function Escape(s: string): string {
    if s == "" then "" else EscapeChar(s[0]) + Escape(s[1..])
  }

  /** The operators, punctuation and words that lines are made of. */
  function Symbol(k: Kind): string {
    match k
    case TPlus => "+" case TMinus => "-" case TStar => "*" case TSlash => "/" case TPercent => "%"
    case TEq => "==" case TNeq => "!=" case TLt => "<" case TLe => "<=" case TGt => ">" case TGe => ">="
    case TLparen => "(" case TRparen => ")" case TComma => "," case TAssign => "=" case TColon => ":"
    case TIf => "if" case TElif => "elif" case TElse => "else" case TWhile => "while" case TFor => "for" case TIn => "in"
    case TDef => "def" case TReturn => "return" case TBreak => "break" case TContinue => "continue"
    case TAnd => "and" case TOr => "or" case TNot => "not" case TTrue => "True" case TFalse => "False"
    case _ => ""
  }

  function Spelling(t: Token): string
    requires Lexable(t)
  {
    match t.kind
    case TInt => Digits(t.intVal)
    case TStr => "\"" + Escape(t.text) + "\""
    case TIdent => t.text
    case k => Symbol(k)
  }

  predicate AllAlnum(s: string) {
    forall i :: 0 <= i < |s| ==> Alpha(s[i]) || IsDigit(s[i])
  }

  /** The lexer takes the ASCII letters and the underscore for the start of a word, and the ten digits for the start of a
      number. */
  lemma WordCharacters(c: char)
    ensures Alpha(c) <==> 0x41 <= c as int <= 0x5A || 0x61 <= c as int <= 0x7A || c as int == 0x5F
    ensures IsDigit(c) <==> 0x30 <= c as int <= 0x39
  {}

  /** A name that the lexer reads as one: a word of at most 63 characters that is no keyword. */
  predicate IsName(s: string) {
    0 < |s| <= MAX_WORD && Alpha(s[0]) && AllAlnum(s) && Keyword(s) == TIdent
  }

  /** A token that has a spelling. */
  predicate Lexable(t: Token) {
    match t.kind
    case TInt => t.intVal >= 0
    case TStr => |t.text| <= MAX_TEXT
    case TIdent => IsName(t.text)
    case k => !IsLayout(k)
  }

  predicate AllLexable(ts: seq<Token>) {
    forall i :: 0 <= i < |ts| ==> Lexable(ts[i])
  }

  /** The tokens one after the other, a space after each. */
  function Spell(ts: seq<Token>): string
    requires AllLexable(ts)
  {
    if ts == [] then "" else Spelling(ts[0]) + " " + Spell(ts[1..])
  }

  // ----- one token -----

  /** s stands in src at i. */
  predicate Stands(src: string, i: nat, s: string) {
    i + |s| <= |src| && src[i..i + |s|] == s
  }

  lemma StandsAt(src: string, i: nat, s: string, k: nat)
    requires Stands(src, i, s) && k < |s|
    ensures src[i + k] == s[k]
  {
    assert src[i..i + |s|][k] == s[k];
  }

  lemma StandsIn(src: string, i: nat, s: string)
    requires Stands(src, i, s)
    ensures i + |s| <= |src|
  {}

  lemma StandsSplit(src: string, i: nat, a: string, b: string)
    requires Stands(src, i, a + b)
    ensures Stands(src, i, a) && Stands(src, i + |a|, b)
  {
    var s := src[i..i + |a + b|];
    assert s[..|a|] == a && s[|a|..] == b;
    assert src[i..i + |a|] == s[..|a|] && src[i + |a|..i + |a| + |b|] == s[|a|..];
  }

  lemma {:induction false} NumberReads(src: string, i: nat, s: string, acc: nat)
    requires Stands(src, i, s) && i + |s| < |src| && !IsDigit(src[i + |s|]) && ReadDigits(s, acc).Some?
    ensures GkLexer.Number(src, i, acc) == (ReadDigits(s, acc).value, i + |s|)
    decreases |s|
  {
    if s != "" {
      StandsAt(src, i, s, 0);
      assert s == [s[0]] + s[1..];
      StandsSplit(src, i, [s[0]], s[1..]);
      NumberReads(src, i + 1, s[1..], acc * 10 + (s[0] - '0') as nat);
    }
  }

  lemma {:induction false} WordReads(src: string, i: nat, s: string, done: string)
    requires Stands(src, i, s) && i + |s| < |src| && src[i + |s|] == ' ' && AllAlnum(s) && |done| + |s| <= MAX_WORD
    ensures Word(src, i, done) == (done + s, i + |s|)
    decreases |s|
  {
    if s == "" {
      assert done + s == done;
    } else {
      StandsAt(src, i, s, 0);
      assert s == [s[0]] + s[1..];
      StandsSplit(src, i, [s[0]], s[1..]);
      WordReads(src, i + 1, s[1..], done + [s[0]]);
      assert done + [s[0]] + s[1..] == done + s;
    }
  }

  lemma {:induction false} QuotedReads(src: string, i: nat, text: string, done: string)
    requires Stands(src, i, Escape(text) + "\"") && |done| + |text| <= MAX_TEXT
    ensures Quoted(src, i, '"', done) == (done + text, i + |Escape(text)|)
    decreases |text|
  {
    hide Stands, Escape, Quoted;
    if text == "" {
      QuoteHere(src, i, done);
      assert done + text == done;
    } else {
      var c, rest := text[0], text[1..];
      EscapeStep(text);
      var head := EscapeChar(c);
      assert Escape(text) + "\"" == head + (Escape(rest) + "\"");
      StandsSplit(src, i, head, Escape(rest) + "\"");
      QuotedReads(src, i + |head|, rest, done + [c]);
      HeadReads(src, i, c, head, done);
      assert done + [c] + rest == done + text;
      if rest == "" { QuoteHere(src, i + |head|, done + [c]); }
    }
  }

  lemma EscapeStep(text: string)
    requires text != ""
    ensures Escape(text) == EscapeChar(text[0]) + Escape(text[1..])
  {}

  lemma QuoteHere(src: string, i: nat, done: string)
    requires Stands(src, i, Escape("") + "\"")
    ensures i < |src| && Quoted(src, i, '"', done) == (done, i) && Escape("") == ""
  {
    assert Escape("") + "\"" == "\"";
    StandsAt(src, i, "\"", 0);
  }

  /** One character of a literal, escaped or not. */
  lemma HeadReads(src: string, i: nat, c: char, head: string, done: string)
    requires head == EscapeChar(c) && Stands(src, i, head)
    ensures i + |head| <= |src|
    ensures Quoted(src, i, '"', done)
         == if |done| + 1 >= MAX_TEXT then (done + [c], i + |head|) else Quoted(src, i + |head|, '"', done + [c])
  {
    StandsAt(src, i, head, 0);
    if |head| == 2 { StandsAt(src, i, head, 1); }
  }

  /** What stands at i is the spelling of t and a space: the lexer reads a token like t. */
  predicate Reads(src: string, i: nat, t: Token)
    requires Lexable(t)
  {
    i < |src| && src[i] != '\n' &&
    match PieceAt(src, i)
    case Unknown => false
    case Piece(toks, next) => |toks| == 1 && Alike(toks[0], t) && next == i + |Spelling(t)|
  }

  lemma NumberToken(src: string, i: nat, t: Token)
    requires t.kind == TInt && t.intVal >= 0 && Stands(src, i, Digits(t.intVal) + " ")
    ensures Reads(src, i, t)
  {
    hide Stands, Digits;
    var s := Digits(t.intVal);
    StandsSplit(src, i, s, " ");
    SpaceAfter(src, i, s);
    ReadDigitsIs(t.intVal);
    NumberReads(src, i, s, 0);
    FirstAt(src, i, s);
    DigitPiece(src, i);
  }

  lemma SpaceAfter(src: string, i: nat, s: string)
    requires Stands(src, i + |s|, " ")
    ensures i + |s| < |src| && src[i + |s|] == ' '
  {
    StandsAt(src, i + |s|, " ", 0);
  }

  lemma FirstAt(src: string, i: nat, s: string)
    requires Stands(src, i, s) && s != ""
    ensures i < |src| && src[i] == s[0]
  {
    StandsAt(src, i, s, 0);
  }

  lemma DigitPiece(src: string, i: nat)
    requires i < |src| && IsDigit(src[i])
    ensures PieceAt(src, i) == Piece([Token(TInt, GkLexer.Number(src, i, 0).0, "")], GkLexer.Number(src, i, 0).1)
  {
    hide Quoted, Word, Operator, Keyword, LineEnd;
  }

  lemma StringToken(src: string, i: nat, t: Token)
    requires t.kind == TStr && |t.text| <= MAX_TEXT && Stands(src, i, "\"" + Escape(t.text) + "\"" + " ")
    ensures Reads(src, i, t)
  {
    hide Stands, Escape, Quoted;
    var body := Escape(t.text) + "\"";
    assert "\"" + Escape(t.text) + "\"" + " " == "\"" + (body + " ");
    StandsSplit(src, i, "\"", body + " ");
    StandsSplit(src, i + 1, body, " ");
    FirstAt(src, i, "\"");
    QuotedReads(src, i + 1, t.text, "");
    assert "" + t.text == t.text;
    SpaceAfter(src, i + 1, body);
    StringPiece(src, i);
  }

  lemma StringPiece(src: string, i: nat)
    requires i < |src| && src[i] == '"'
    ensures var r := Quoted(src, i + 1, '"', "");
            PieceAt(src, i) == Piece([Token(TStr, 0, r.0)], if r.1 < |src| then r.1 + 1 else r.1)
  {
    hide Quoted, Word, Operator, Keyword, LineEnd, GkLexer.Number;
  }

  /** A word: a name or one of the words among the operators. */
  lemma WordToken(src: string, i: nat, s: string)
    requires 0 < |s| <= MAX_WORD && Alpha(s[0]) && AllAlnum(s) && Stands(src, i, s + " ")
    ensures i < |src| && src[i] != '\n' && PieceAt(src, i) == Piece([Token(Keyword(s), 0, s)], i + |s|)
  {
    hide Stands, Keyword;
    StandsSplit(src, i, s, " ");
    SpaceAfter(src, i, s);
    FirstAt(src, i, s);
    WordReads(src, i, s, "");
    assert "" + s == s;
    WordPiece(src, i);
  }

  lemma WordPiece(src: string, i: nat)
    requires i < |src| && Alpha(src[i])
    ensures var r := Word(src, i, ""); PieceAt(src, i) == Piece([Token(Keyword(r.0), 0, r.0)], r.1)
  {
    hide Quoted, Operator, Keyword, LineEnd, GkLexer.Number;
    assert "" + [src[i]] == [src[i]];
  }

  predicate IsWord(k: Kind) {
    || k == TAnd || k == TOr || k == TNot || k == TTrue || k == TFalse || k == TIf || k == TElif || k == TElse || k == TWhile
    || k == TFor || k == TIn || k == TDef || k == TReturn || k == TBreak || k == TContinue
  }

  /** Operators and punctuation. */
  predicate IsSign(k: Kind) {
    !IsLayout(k) && !IsWord(k) && k != TInt && k != TStr && k != TIdent
  }

  lemma WordSymbols(k: Kind)
    requires IsWord(k)
    ensures var s := Symbol(k); 0 < |s| <= MAX_WORD && Alpha(s[0]) && AllAlnum(s) && Keyword(s) == k
  {
    hide Symbol, Keyword, Alpha, AllAlnum;
    if k == TAnd || k == TOr || k == TNot || k == TTrue || k == TFalse {
      ExpressionWords(k);
    } else if k == TIf || k == TElif || k == TElse || k == TWhile || k == TFor {
      BranchWords(k);
    } else {
      OtherWords(k);
    }
  }

  lemma ExpressionWords(k: Kind)
    requires k == TAnd || k == TOr || k == TNot || k == TTrue || k == TFalse
    ensures var s := Symbol(k); 0 < |s| <= MAX_WORD && Alpha(s[0]) && AllAlnum(s) && Keyword(s) == k
  {}

  lemma BranchWords(k: Kind)
    requires k == TIf || k == TElif || k == TElse || k == TWhile || k == TFor
    ensures var s := Symbol(k); 0 < |s| <= MAX_WORD && Alpha(s[0]) && AllAlnum(s) && Keyword(s) == k
  {}

  lemma OtherWords(k: Kind)
    requires k == TIn || k == TDef || k == TReturn || k == TBreak || k == TContinue
    ensures var s := Symbol(k); 0 < |s| <= MAX_WORD && Alpha(s[0]) && AllAlnum(s) && Keyword(s) == k
  {}

  lemma SymbolToken(src: string, i: nat, t: Token)
    requires IsSign(t.kind) && Stands(src, i, Symbol(t.kind) + " ")
    ensures i < |src| && src[i] != '\n' && PieceAt(src, i) == Piece([Token(t.kind, 0, "")], i + |Symbol(t.kind)|)
  {
    hide Stands, PieceAt, Operator;
    var s := Symbol(t.kind);
    SymbolLength(t.kind);
    StandsSplit(src, i, s, " ");
    SpaceAfter(src, i, s);
    FirstAt(src, i, s);
    if |s| == 2 { SecondAt(src, i, s); }
    SymbolOperator(t.kind);
    OperatorPiece(src, i);
  }

  lemma SecondAt(src: string, i: nat, s: string)
    requires Stands(src, i, s) && |s| == 2
    ensures i + 1 < |src| && src[i + 1] == s[1]
  {
    StandsAt(src, i, s, 1);
  }

  lemma SymbolLength(k: Kind)
    requires IsSign(k)
    ensures 1 <= |Symbol(k)| <= 2
  {}

  lemma SymbolOperator(k: Kind)
    requires IsSign(k)
    ensures var s := Symbol(k);
            && 1 <= |s| <= 2 && Plainly(s[0])
            && Operator(s[0], if |s| == 2 then Some(s[1]) else Some(' ')) == Some((k, |s|))
  {}

  /** Neither space nor comment nor the start of a number, a string or a word. */
  predicate Plainly(c: char) {
    c != ' ' && c != '\t' && c != '\n' && c != '#' && !IsDigit(c) && c != '"' && c != '\'' && !Alpha(c)
  }

  lemma OperatorPiece(src: string, i: nat)
    requires i < |src| && Plainly(src[i])
    ensures var op := Operator(src[i], if i + 1 < |src| then Some(src[i + 1]) else None);
            op.Some? ==> PieceAt(src, i) == Piece([Token(op.value.0, 0, "")], i + op.value.1)
  {
    hide Quoted, Word, Keyword, LineEnd, GkLexer.Number, Operator;
  }

  /** The lexer reads every spelled token. */
  lemma TokenReads(src: string, i: nat, t: Token)
    requires Lexable(t) && Stands(src, i, Spelling(t) + " ")
    ensures Reads(src, i, t)
  {
    hide Stands, PieceAt, Digits, Escape, Keyword, Symbol;
    if t.kind == TInt {
      NumberToken(src, i, t);
    } else if t.kind == TStr {
      StringToken(src, i, t);
    } else if t.kind == TIdent {
      WordToken(src, i, t.text);
    } else if IsWord(t.kind) {
      WordSymbols(t.kind);
      WordToken(src, i, Symbol(t.kind));
    } else {
      SymbolToken(src, i, t);
    }
  }

  // ----- a line -----

  /** The same tokens as far as the parser looks. */
  predicate AllAlike(a: seq<Token>, b: seq<Token>) {
    |a| == |b| && forall i :: 0 <= i < |a| ==> Alike(a[i], b[i])
  }

  lemma {:induction false} LineReads(src: string, i: nat, ts: seq<Token>)
    requires AllLexable(ts) && Stands(src, i, Spell(ts)) && (i + |Spell(ts)| < |src| ==> src[i + |Spell(ts)|] == '\n')
    ensures i + |Spell(ts)| <= |src|
    ensures var r := Line(src, i); r.Lexed? && AllAlike(r.toks, ts) && r.next == i + |Spell(ts)|
    decreases |ts|
  {
    hide Stands, PieceAt, Spelling, Lexable, Alike;
    StandsIn(src, i, Spell(ts));
    if ts != [] {
      var t, rest := ts[0], ts[1..];
      var s := Spelling(t);
      assert Spell(ts) == s + " " + Spell(rest) == s + (" " + Spell(rest));
      StandsSplit(src, i, s + " ", Spell(rest));
      TokenReads(src, i, t);
      TokenBounds(src, i, s);
      LineReads(src, i + |s + " "|, rest);
      SpacePiece(src, i + |s|);
      LineTwo(src, i, t, i + |s|);
      AlikeCons(Line(src, i).toks, Line(src, i + |s| + 1).toks, ts);
    }
  }

  lemma TokenBounds(src: string, i: nat, s: string)
    requires Stands(src, i, s + " ")
    ensures i + |s| < |src| && src[i + |s|] == ' '
  {
    StandsSplit(src, i, s, " ");
    SpaceAfter(src, i, s);
  }

  lemma SpacePiece(src: string, i: nat)
    requires i < |src| && src[i] == ' '
    ensures PieceAt(src, i) == Piece([], i + 1)
  {
    hide Quoted, Word, Keyword, LineEnd, GkLexer.Number, Operator;
  }

  /** A token and the space after it. */
  lemma LineTwo(src: string, i: nat, t: Token, j: nat)
    requires Lexable(t) && Reads(src, i, t) && j == i + |Spelling(t)| < |src| && src[j] == ' ' && PieceAt(src, j) == Piece([], j + 1)
    requires Line(src, j + 1).Lexed?
    ensures var r := Line(src, i);
            && r.Lexed? && r.toks == PieceAt(src, i).toks + Line(src, j + 1).toks && r.next == Line(src, j + 1).next
            && |PieceAt(src, i).toks| == 1 && Alike(PieceAt(src, i).toks[0], t)
  {
    hide PieceAt, Spelling, Lexable, Alike, Line, Plain;
    LineStep(src, j);
    LineStep(src, i);
    assert [] + Line(src, j + 1).toks == Line(src, j + 1).toks;
  }

  lemma LineStep(src: string, i: nat)
    requires i < |src| && src[i] != '\n' && PieceAt(src, i).Piece?
    ensures var p := PieceAt(src, i);
            var r := Line(src, p.next);
            Line(src, i) == if r.Rejected? then Rejected else Lexed(p.toks + r.toks, r.next)
  {
    hide PieceAt, Plain;
  }

  lemma AlikeCons(a: seq<Token>, more: seq<Token>, ts: seq<Token>)
    requires ts != [] && AllAlike(more, ts[1..]) && |a| == 1 + |more| && a[1..] == more && Alike(a[0], ts[0])
    ensures AllAlike(a, ts)
  {
    hide Alike;
    forall i | 0 <= i < |a| ensures Alike(a[i], ts[i]) {
      if i > 0 { assert a[i] == more[i - 1] && ts[i] == ts[1..][i - 1]; }
    }
  }

  // ----- how a line starts -----

  /** No token starts with white space or a comment. */
  lemma FirstChar(t: Token)
    requires Lexable(t)
    ensures Spelling(t) != "" && var c := Spelling(t)[0]; c != ' ' && c != '\t' && c != '\n' && c != '#'
  {
    hide Digits, Escape, Keyword, Symbol, Operator;
    if t.kind == TInt {
      ReadDigitsIs(t.intVal);
    } else if t.kind != TStr && t.kind != TIdent {
      if IsWord(t.kind) { WordSymbols(t.kind); } else { SymbolOperator(t.kind); }
    }
  }

  lemma SpellFirst(ts: seq<Token>)
    requires AllLexable(ts) && ts != []
    ensures Spell(ts) != "" && var c := Spell(ts)[0]; c != ' ' && c != '\t' && c != '\n' && c != '#'
  {
    hide Spelling, Lexable;
    FirstChar(ts[0]);
  }
}
