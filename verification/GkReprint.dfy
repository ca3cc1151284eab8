/** Accepted programs can be spelled: what the lexer and the parser let through has names and literals that can be written
    down again, so every accepted program can be printed, and the printed text stands for the same tree. */
module GkReprint {
  import opened Wrappers
  import opened GkSyntax
  import opened GkValues
  import opened GkLexer
  import opened GkRoundTrip
  import opened GkStatements
  import opened GkText
  import opened GkSource
  import opened GkShapes
  import G = GkGrammar
  import R = GkRun

  // ----- trees that can be written down -----

  /** The name or literal of a node. */
  predicate Said(t: Tree) {
    match t.kind
    case NInt => t.intVal >= 0
    case NStr => |t.text| <= MAX_TEXT
    case NVar => IsName(t.text)
    case NAssign => IsName(t.text)
    case NFor => IsName(t.text)
    case NDef => IsName(t.text)
    case NCall => IsName(t.text)
    case NPrint => IsName(t.text)
    case NRange => IsName(t.text)
    case NInput => IsName(t.text)
    case NIntCast => IsName(t.text)
    case _ => true
  }

  predicate Sayable(t: Tree) {
    Said(t) && AllSayable(t.children)
  }

  predicate AllSayable(ts: seq<Tree>) {
    ts == [] || (Sayable(ts[0]) && AllSayable(ts[1..]))
  }

  lemma {:induction false} SayableAt(ts: seq<Tree>, i: nat)
    requires AllSayable(ts) && i < |ts|
    ensures Sayable(ts[i])
  {
    hide Said;
    if i > 0 { SayableAt(ts[1..], i - 1); }
  }

  lemma {:induction false} SayableUpTo(ts: seq<Tree>, n: nat)
    requires AllSayable(ts) && n <= |ts|
    ensures AllSayable(ts[..n])
  {
    hide Sayable;
    if n > 0 {
      SayableUpTo(ts[1..], n - 1);
      assert ts[..n][1..] == ts[1..][..n - 1];
    }
  }

  lemma {:induction false} SayableSnoc(ts: seq<Tree>, t: Tree)
    requires AllSayable(ts) && Sayable(t)
    ensures AllSayable(ts + [t])
  {
    hide Sayable;
    if ts == [] {
      assert (ts + [t])[1..] == [];
    } else {
      assert (ts + [t])[1..] == ts[1..] + [t];
      SayableSnoc(ts[1..], t);
    }
  }

  // ----- their tokens have a spelling -----

  lemma LexableJoin(a: seq<Token>, b: seq<Token>)
    requires AllLexable(a) && AllLexable(b)
    ensures AllLexable(a + b)
  {
    hide Lexable;
  }

  lemma OperatorLexable(k: Kind)
    requires Level(k) < 5 || k == TNot
    ensures AllLexable([Tok(k)])
  {}

  lemma PunctuationLexable()
    ensures AllLexable([Tok(TLparen)]) && AllLexable([Tok(TRparen)]) && AllLexable([Tok(TComma)]) && AllLexable([])
    ensures AllLexable([Tok(TColon)]) && AllLexable([Tok(TElse), Tok(TColon)]) && AllLexable([Tok(TRparen), Tok(TColon)])
  {
    hide IsName;
  }

  lemma NameLexable(name: string)
    requires IsName(name)
    ensures AllLexable([Ident(name)]) && AllLexable([Ident(name), Tok(TLparen)]) && AllLexable([Ident(name), Tok(TAssign)])
    ensures AllLexable([Tok(TFor), Ident(name), Tok(TIn)]) && AllLexable([Tok(TDef), Ident(name), Tok(TLparen)])
  {
    hide IsName;
  }

  lemma WordsLexable()
    ensures AllLexable([Tok(TReturn)]) && AllLexable([Tok(TBreak)]) && AllLexable([Tok(TContinue)])
    ensures AllLexable([Tok(TWhile)]) && AllLexable([Tok(TIf)]) && AllLexable([Tok(TElif)])
  {
    hide IsName;
  }

  lemma {:induction false} PrintLexable(t: Tree, level: nat)
    requires IsExpr(t) && Sayable(t)
    ensures AllLexable(Print(t, level))
    decreases t, 1
  {
    hide Bare, Print, AllLexable, Sayable, IsExpr;
    BareLexable(t);
    PunctuationLexable();
    ParensPrint(t, level);
    if TreeLevel(t) < level {
      LexableJoin([Tok(TLparen)], Bare(t));
      LexableJoin([Tok(TLparen)] + Bare(t), [Tok(TRparen)]);
    }
  }

  lemma {:induction false} BareLexable(t: Tree)
    requires IsExpr(t) && Sayable(t)
    ensures AllLexable(Bare(t))
    decreases t, 0
  {
    hide Bare, Print, PrintArgs, AllLexable, Level, IsExpr, IsLeaf, Said, AllSayable;
    PunctuationLexable();
    Operands(t);
    if t.kind == NBinop {
      OperatorParts(t);
      BareOperator(t);
      SayableAt(t.children, 0);
      SayableAt(t.children, 1);
      var l, r := t.children[0], t.children[1];
      PrintLexable(l, Level(t.op));
      PrintLexable(r, Level(t.op) + 1);
      OperatorLexable(t.op);
      LexableJoin(Print(l, Level(t.op)), [Tok(t.op)]);
      LexableJoin(Print(l, Level(t.op)) + [Tok(t.op)], Print(r, Level(t.op) + 1));
    } else if t.kind == NUnop {
      UnaryForm(t, t.children[0]);
      UnaryBare(t);
      SayableAt(t.children, 0);
      OperatorLexable(t.op);
      PrintLexable(t.children[0], 5);
      LexableJoin([Tok(t.op)], Print(t.children[0], 5));
    } else if IsLeaf(t) {
      LeafLexable(t);
    } else {
      CallParts(t);
      CallNamed(t);
      ArgsLexable(t.children);
      var head := [Token(TIdent, 0, t.text), Tok(TLparen)];
      NameLexable(t.text);
      assert head == [Ident(t.text), Tok(TLparen)];
      LexableJoin(head, PrintArgs(t.children));
      LexableJoin(head + PrintArgs(t.children), [Tok(TRparen)]);
    }
  }

  lemma LeafLexable(t: Tree)
    requires IsExpr(t) && IsLeaf(t) && Said(t) && t.kind != NBinop && t.kind != NUnop
    ensures AllLexable(Bare(t))
  {
    hide Print, PrintArgs, IsName;
  }

  lemma CallNamed(t: Tree)
    requires IsExpr(t) && Said(t) && t.kind != NBinop && t.kind != NUnop && !IsLeaf(t)
    ensures IsName(t.text)
  {
    hide IsName;
  }

  lemma {:induction false} ArgsLexable(ts: seq<Tree>)
    requires AllExprs(ts) && AllSayable(ts)
    ensures AllLexable(PrintArgs(ts))
    decreases ts
  {
    hide Print, PrintArgs, AllLexable, IsExpr, Sayable;
    PunctuationLexable();
    ArgsForm(ts);
    if ts != [] {
      PrintLexable(ts[0], 0);
      if |ts| > 1 {
        ArgsLexable(ts[1..]);
        LexableJoin([Tok(TComma)], PrintArgs(ts[1..]));
        LexableJoin(Print(ts[0], 0), [Tok(TComma)] + PrintArgs(ts[1..]));
      }
    }
  }

  lemma {:induction false} ParamsLexable(ts: seq<Tree>)
    requires AllParams(ts) && AllSayable(ts)
    ensures AllLexable(PrintParams(ts))
    decreases |ts|
  {
    hide AllLexable, IsName, PrintParams;
    PunctuationLexable();
    ParamsForm(ts);
    if ts != [] {
      NameLexable(ts[0].text);
      if |ts| > 1 {
        ParamsLexable(ts[1..]);
        LexableJoin([Ident(ts[0].text)], [Tok(TComma)]);
        assert [Ident(ts[0].text)] + [Tok(TComma)] == [Ident(ts[0].text), Tok(TComma)];
        LexableJoin([Ident(ts[0].text), Tok(TComma)], PrintParams(ts[1..]));
      }
    }
  }

  /** A keyword or a name and what follows it, an expression and a colon. */
  lemma HeadedLexable(first: seq<Token>, e: Tree)
    requires AllLexable(first) && IsExpr(e) && Sayable(e)
    ensures AllLexable(first + Print(e, 0)) && AllLexable(first + (Print(e, 0) + [Tok(TColon)]))
  {
    hide AllLexable, Print, IsExpr, Sayable;
    PunctuationLexable();
    PrintLexable(e, 0);
    LexableJoin(first, Print(e, 0));
    LexableJoin(Print(e, 0), [Tok(TColon)]);
    LexableJoin(first, Print(e, 0) + [Tok(TColon)]);
  }

  lemma SimpleHeadLexable(t: Tree)
    requires IsStatement(t) && Sayable(t) && !Compound(t.kind)
    ensures AllLexable(Head(t, false))
  {
    hide AllLexable, Print, IsExpr, AllExprs, AllSayable, IsName;
    WordsLexable();
    if t.kind == NReturn || t.kind == NAssign {
      if t.children == [] {
        assert Head(t, false) == [Tok(TReturn)];
      } else {
        OneExpr(t.children);
        SayableAt(t.children, 0);
        if t.kind == NAssign { NameLexable(t.text); }
        HeadedLexable(if t.kind == NReturn then [Tok(TReturn)] else [Ident(t.text), Tok(TAssign)], t.children[0]);
      }
    } else if t.kind != NBreak && t.kind != NContinue {
      PrintLexable(t, 0);
    }
  }

  lemma CompoundHeadLexable(t: Tree, elif: bool)
    requires IsStatement(t) && Sayable(t) && Compound(t.kind)
    ensures AllLexable(Head(t, elif))
  {
    hide AllLexable, Print, IsExpr, AllExprs, AllSayable, IsName, IsBlock, IsElse, PrintParams, AllParams;
    WordsLexable();
    PunctuationLexable();
    if t.kind == NDef {
      var ps := t.children[..|t.children| - 1];
      SayableUpTo(t.children, |t.children| - 1);
      ParamsLexable(ps);
      NameLexable(t.text);
      LexableJoin(PrintParams(ps), [Tok(TRparen), Tok(TColon)]);
      LexableJoin([Tok(TDef), Ident(t.text), Tok(TLparen)], PrintParams(ps) + [Tok(TRparen), Tok(TColon)]);
    } else {
      SayableAt(t.children, 0);
      if t.kind == NFor { NameLexable(t.text); }
      var first := if t.kind == NWhile then [Tok(TWhile)] else if t.kind == NFor then [Tok(TFor), Ident(t.text), Tok(TIn)]
                   else [Tok(if elif then TElif else TIf)];
      HeadedLexable(first, t.children[0]);
    }
  }

  lemma HeadLexable(t: Tree, elif: bool)
    requires IsStatement(t) && Sayable(t)
    ensures AllLexable(Head(t, elif))
  {
    hide AllLexable, IsStatement, Sayable, Print;
    if Compound(t.kind) {
      CompoundHeadLexable(t, elif);
    } else {
      SimpleHeadLexable(t);
    }
  }

  // ----- and so do their lines -----

  lemma SpelledJoin(a: seq<Row>, b: seq<Row>)
    requires AllSpelled(a) && AllSpelled(b)
    ensures AllSpelled(a + b)
  {
    hide AllLexable;
  }

  lemma SpelledOne(row: Row)
    requires AllLexable(row.toks)
    ensures AllSpelled([row])
  {
    hide AllLexable;
  }

  lemma {:induction false} StmtSpelled(t: Tree, elif: bool, d: nat)
    requires IsStatement(t) && Sayable(t)
    ensures AllSpelled(RowsOf(t, elif, d))
    decreases t, 1
  {
    hide AllSpelled, IsStatement, Head, BlockRows, RestRows, Said, AllLexable;
    HeadLexable(t, elif);
    var row := Row(d, Head(t, elif));
    SpelledOne(row);
    if Compound(t.kind) {
      BodySayable(t);
      BlockSpelled(BodyOf(t), d + 1);
      RestSpelled(t, d);
      SpelledJoin(BlockRows(BodyOf(t), d + 1), RestRows(t, d));
      SpelledJoin([row], BlockRows(BodyOf(t), d + 1) + RestRows(t, d));
    } else {
      assert RowsOf(t, elif, d) == [row];
    }
  }

  lemma BodySayable(t: Tree)
    requires IsStatement(t) && Sayable(t) && Compound(t.kind)
    ensures Sayable(BodyOf(t))
  {
    hide IsBlock, IsExpr, IsElse, AllSayable, Said;
    SayableAt(t.children, if t.kind == NDef then |t.children| - 1 else 1);
  }

  lemma {:induction false} BlockSpelled(b: Tree, d: nat)
    requires IsBlock(b) && Sayable(b)
    ensures AllSpelled(BlockRows(b, d))
    decreases b, 1
  {
    hide AllSpelled, AllStatements, AllRows, AllLexable;
    PunctuationLexable();
    if b.children == [] { SpelledOne(Row(d, [])); } else { AllRowsSpelled(b.children, d); }
  }

  lemma {:induction false} RestSpelled(t: Tree, d: nat)
    requires IsStatement(t) && Sayable(t)
    ensures AllSpelled(RestRows(t, d))
    decreases t, 0
  {
    hide ElseRows, AllSayable, AllLexable;
    if t.kind == NIf && |t.children| == 3 {
      SayableAt(t.children, 2);
      ElseSpelled(t.children[2], d);
    }
  }

  lemma {:induction false} ElseSpelled(t: Tree, d: nat)
    requires IsElse(t) && Sayable(t)
    ensures AllSpelled(ElseRows(t, d))
    decreases t, 2
  {
    hide AllSpelled, IsStatement, RowsOf, BlockRows, Sayable, AllLexable;
    if t.kind == NIf {
      StmtSpelled(t, true, d);
    } else {
      PunctuationLexable();
      SpelledOne(Row(d, [Tok(TElse), Tok(TColon)]));
      BlockSpelled(t, d + 1);
      SpelledJoin([Row(d, [Tok(TElse), Tok(TColon)])], BlockRows(t, d + 1));
    }
  }

  lemma {:induction false} AllRowsSpelled(ts: seq<Tree>, d: nat)
    requires AllStatements(ts) && AllSayable(ts)
    ensures AllSpelled(AllRows(ts, d))
    decreases ts, 0
  {
    hide IsStatement, RowsOf, Sayable, AllLexable;
    if ts != [] {
      StmtSpelled(ts[0], false, d);
      AllRowsSpelled(ts[1..], d);
      SpelledJoin(RowsOf(ts[0], false, d), AllRows(ts[1..], d));
    }
  }

  /** Source text and back: every program within the parser's limits whose names and literals can be written down is what
      its indented text, lexed and parsed, stands for, unless the text has too many tokens. */
  lemma SourceRoundTrip(ts: seq<Tree>)
    requires AllStatements(ts) && AllSayable(ts) && |ts| <= MAX_CHILDREN && Sizes(ts) < MAX_NODES
    ensures AllSpelled(AllRows(ts, 0))
    ensures R.TreeOf(Text(AllRows(ts, 0))) == if |PrintAll(ts)| < MAX_TOKENS then Some(Branch(NBlock, "", ts)) else None
  {
    hide AllStatements, AllSayable, AllRows, Text, PrintAll, Sizes, R.TreeOf, AllSpelled;
    AllRowsSpelled(ts, 0);
    TextRoundTrip(ts);
  }

  // ----- what the lexer lets through -----

  predicate Spoken(t: Token) {
    && (t.kind == TInt ==> t.intVal >= 0)
    && (t.kind == TStr ==> |t.text| <= MAX_TEXT)
    && (t.kind == TIdent ==> IsName(t.text))
  }

  predicate AllSpoken(ts: seq<Token>) {
    forall i :: 0 <= i < |ts| ==> Spoken(ts[i])
  }

  lemma SpokenJoin(a: seq<Token>, b: seq<Token>)
    requires AllSpoken(a) && AllSpoken(b)
    ensures AllSpoken(a + b)
  {
    hide Spoken;
  }

  lemma {:induction false} WordIs(src: string, i: nat, done: string)
    requires i <= |src| && 0 < |done| <= MAX_WORD && Alpha(done[0]) && AllAlnum(done)
    ensures var w := Word(src, i, done).0; 0 < |w| <= MAX_WORD && Alpha(w[0]) && AllAlnum(w)
    decreases |src| - i
  {
    hide Alpha;
    if i < |src| && (Alpha(src[i]) || IsDigit(src[i])) && |done| < MAX_WORD {
      WordIs(src, i + 1, done + [src[i]]);
    }
  }

  lemma {:induction false} QuotedIs(src: string, i: nat, quote: char, done: string)
    requires i <= |src| && |done| < MAX_TEXT
    ensures |Quoted(src, i, quote, done).0| <= MAX_TEXT
    decreases |src| - i
  {
    if i < |src| && src[i] != quote {
      var at := if src[i] == '\\' && i + 1 < |src| then i + 1 else i;
      var c := if at > i then Escaped(src[at]) else src[at];
      if |done| + 1 < MAX_TEXT { QuotedIs(src, at + 1, quote, done + [c]); }
    }
  }

  lemma OperatorSpoken(c: char, next: Option<char>)
    ensures var r := Operator(c, next); r.Some? ==> r.value.0 != TInt && r.value.0 != TStr && r.value.0 != TIdent
  {}

  lemma KeywordKinds(w: string)
    ensures Keyword(w) != TInt && Keyword(w) != TStr
  {}

  lemma PieceSpoken(src: string, i: nat)
    requires i < |src| && src[i] != '\n'
    ensures var p := PieceAt(src, i); p.Piece? ==> AllSpoken(p.toks)
  {
    hide Quoted, Word, Operator, Keyword, LineEnd, GkLexer.Number;
    var c := src[i];
    if c == '"' || c == '\'' {
      QuotedIs(src, i + 1, c, "");
    } else if Alpha(c) {
      WordIs(src, i + 1, [c]);
      KeywordKinds(Word(src, i + 1, [c]).0);
    } else {
      OperatorSpoken(c, if i + 1 < |src| then Some(src[i + 1]) else None);
    }
  }

  lemma {:induction false} LineSpoken(src: string, i: nat)
    requires i <= |src|
    ensures var r := Line(src, i); r.Lexed? ==> AllSpoken(r.toks)
    decreases |src| - i
  {
    hide PieceAt, Spoken;
    if i < |src| && src[i] != '\n' {
      PieceSpoken(src, i);
      match PieceAt(src, i)
      case Unknown =>
      case Piece(toks, next) =>
        LineSpoken(src, next);
        var r := Line(src, next);
        if r.Lexed? { SpokenJoin(toks, r.toks); }
    }
  }

  lemma LayoutSpoken(toks: seq<Token>)
    requires forall t :: t in toks ==> IsLayout(t.kind)
    ensures AllSpoken(toks)
  {
    hide IsName;
    forall i | 0 <= i < |toks| ensures Spoken(toks[i]) {
      assert toks[i] in toks;
    }
  }

  lemma ShiftSpoken(before: seq<nat>, after: seq<nat>)
    ensures AllSpoken(Shift(before, after)) && AllSpoken([Token(TNewline, 0, "")]) && AllSpoken([Token(TEof, 0, "")])
    ensures forall n: nat :: AllSpoken(Repeat(TDedent, n))
  {
    hide AllSpoken;
    LayoutSpoken(Shift(before, after));
    LayoutSpoken([Token(TNewline, 0, "")]);
    LayoutSpoken([Token(TEof, 0, "")]);
    forall n: nat ensures AllSpoken(Repeat(TDedent, n)) {
      LayoutSpoken(Repeat(TDedent, n));
    }
  }

  lemma {:induction false} ProgramSpoken(src: string, i: nat, stack: seq<nat>)
    requires i <= |src| && Increasing(stack)
    ensures var r := GkLexer.Program(src, i, stack); r.Lexed? ==> AllSpoken(r.toks)
    decreases |src| - i
  {
    hide Line, Open, Shift, Increasing, PastLine, LineEnd, Blank, Indent, AllSpoken, Repeat;
    OpenSize(stack, 0);
    if i == |src| {
      ShiftSpoken([], []);
      SpokenJoin(Repeat(TDedent, |stack| - 1), [Token(TEof, 0, "")]);
    } else {
      var (width, at) := Indent(src, i);
      BlankIs(src, at);
      if Blank(src, at) {
        NextLine(src, i, at);
        PastLineIs(src, LineEnd(src, at));
        ProgramSpoken(src, PastLine(src, LineEnd(src, at)), stack);
      } else {
        LineSpoken(src, at);
        var line := Line(src, at);
        if line.Lexed? {
          LineAdvances(src, at);
          PastLineIs(src, line.next);
          var next := Open(stack, width);
          var rest := GkLexer.Program(src, PastLine(src, line.next), next);
          ProgramSpoken(src, PastLine(src, line.next), next);
          if rest.Lexed? {
            ShiftSpoken(stack, next);
            SpokenJoin([Token(TNewline, 0, "")], rest.toks);
            SpokenJoin(line.toks, [Token(TNewline, 0, "")] + rest.toks);
            SpokenJoin(Shift(stack, next), line.toks + ([Token(TNewline, 0, "")] + rest.toks));
          }
        }
      }
    }
  }

  // ----- and the parser keeps -----

  predicate SayableRes(r: Res<Tree>) {
    r.Ok? ==> Sayable(r.value)
  }

  lemma LeafSayable(toks: seq<Token>, pos: nat)
    requires AllSpoken(toks) && pos < |toks|
    ensures toks[pos].kind == TInt ==> Sayable(Leaf(NInt, toks[pos].intVal, ""))
    ensures toks[pos].kind == TStr ==> Sayable(Leaf(NStr, 0, toks[pos].text))
    ensures toks[pos].kind == TIdent ==> IsName(toks[pos].text) && Sayable(Leaf(NVar, 0, toks[pos].text))
    ensures forall n :: Sayable(Leaf(NBool, n, ""))
  {
    hide IsName;
  }

  lemma PairSayable(t: Tree, l: Tree, r: Tree)
    requires Said(t) && t.children == [l, r] && Sayable(l) && Sayable(r)
    ensures Sayable(t)
  {
    hide Said;
    assert [r][1..] == [] && AllSayable([]);
    assert t.children[1..] == [r] && AllSayable([r]);
    assert AllSayable(t.children);
  }

  lemma OneSayable(t: Tree, e: Tree)
    requires Said(t) && t.children == [e] && Sayable(e)
    ensures Sayable(t)
  {
    hide Said;
    assert t.children[1..] == [] && AllSayable([]);
    assert AllSayable(t.children);
  }

  lemma {:induction false} ExprSaid(toks: seq<Token>, pos: nat, level: nat, room: nat)
    requires Stream(toks) && AllSpoken(toks) && pos < |toks| && level <= 6
    ensures SayableRes(Parse(toks, pos, level, room))
    decreases |toks| - pos, 7 - level
  {
    hide Primary, Chain, Sayable, Size, Level, AllSpoken;
    if level < 5 {
      ExprSaid(toks, pos, level + 1, room);
      var left := Parse(toks, pos, level + 1, room);
      if left.Ok? { ChainSaid(toks, left.pos, level, left.value, left.room); }
    } else if level == 5 {
      var k := toks[pos].kind;
      if k == TMinus || k == TNot {
        ExprSaid(toks, pos + 1, 5, room);
        var e := Parse(toks, pos + 1, 5, room);
        if e.Ok? { OneSayable(Unop(k, e.value), e.value); }
      } else {
        ExprSaid(toks, pos, 6, room);
      }
    } else {
      PrimarySaid(toks, pos, room);
    }
  }

  lemma {:induction false} ChainSaid(toks: seq<Token>, pos: nat, level: nat, left: Tree, room: nat)
    requires Stream(toks) && AllSpoken(toks) && pos < |toks| && level < 5 && Sayable(left)
    ensures SayableRes(Chain(toks, pos, level, left, room))
    decreases |toks| - pos, 8
  {
    hide Parse, Sayable, Size, Level, AllSpoken;
    if Level(toks[pos].kind) == level {
      OperatorNotEof(toks, pos, level);
      ExprSaid(toks, pos + 1, level + 1, room);
      var right := Parse(toks, pos + 1, level + 1, room);
      if right.Ok? && right.room > 0 {
        var t := Binop(toks[pos].kind, left, right.value);
        PairSayable(t, left, right.value);
        ChainSaid(toks, right.pos, level, t, right.room - 1);
      }
    }
  }

  lemma {:induction false} PrimarySaid(toks: seq<Token>, pos: nat, room: nat)
    requires Stream(toks) && AllSpoken(toks) && pos < |toks|
    ensures SayableRes(Primary(toks, pos, room))
    decreases |toks| - pos, 0
  {
    hide Parse, Sayable, Size, Sizes, Call, AllSpoken;
    var k := toks[pos].kind;
    LeafSayable(toks, pos);
    if k == TIdent && toks[pos + 1].kind == TLparen {
      if room > 0 { CallSaid(toks, pos, room - 1); }
    } else if k == TLparen {
      ExprSaid(toks, pos + 1, 0, room);
    }
  }

  lemma {:induction false} CallSaid(toks: seq<Token>, pos: nat, room: nat)
    requires Stream(toks) && AllSpoken(toks) && pos + 2 < |toks| && IsName(toks[pos].text)
    ensures SayableRes(Call(toks, pos, room))
    decreases |toks| - pos - 1, 10
  {
    hide Args, AllSayable, Size, Sizes, AllSpoken, IsName;
    NoneSayable();
    ArgsSaid(toks, pos + 2, [], room);
  }

  lemma NoneSayable()
    ensures AllSayable([])
  {}

  lemma {:induction false} ArgsSaid(toks: seq<Token>, pos: nat, done: seq<Tree>, room: nat)
    requires Stream(toks) && AllSpoken(toks) && pos < |toks| && AllSayable(done)
    ensures var r := Args(toks, pos, done, room); r.Ok? ==> AllSayable(r.value)
    decreases |toks| - pos, 9
  {
    hide Parse, Sayable, AllSayable, Size, Sizes, AllSpoken;
    if toks[pos].kind != TRparen && toks[pos].kind != TEof {
      ExprSaid(toks, pos, 0, room);
      var arg := Parse(toks, pos, 0, room);
      if arg.Ok? && |done| < 64 {
        SayableSnoc(done, arg.value);
        if toks[arg.pos].kind == TComma { ArgsSaid(toks, arg.pos + 1, done + [arg.value], arg.room); }
      }
    }
  }

  lemma {:induction false} StmtSaid(toks: seq<Token>, pos: nat, room: nat)
    requires Stream(toks) && AllSpoken(toks) && pos < |toks|
    ensures SayableRes(G.Stmt(toks, pos, room))
    decreases |toks| - pos, 4
  {
    hide G.Return, G.Jump, G.Def, G.If, G.Loop, G.For, G.Assign, G.ExprStmt, Sayable, AllSpoken;
    var k := toks[pos].kind;
    if k == TDef {
      DefSaid(toks, pos, room);
    } else if k == TIf || k == TElif {
      IfSaid(toks, pos, room);
    } else if k == TWhile {
      if room > 0 { LoopSaid(NWhile, "", toks, pos + 1, room - 1); }
    } else if k == TFor {
      ForSaid(toks, pos, room);
    } else {
      SimpleSaid(toks, pos, room);
    }
  }

  lemma SimpleSaid(toks: seq<Token>, pos: nat, room: nat)
    requires Stream(toks) && AllSpoken(toks) && pos < |toks| && toks[pos].kind !in {TDef, TIf, TElif, TWhile, TFor}
    ensures SayableRes(G.Stmt(toks, pos, room))
  {
    hide G.Return, G.Jump, G.Assign, G.ExprStmt, Sayable, AllSpoken;
    var k := toks[pos].kind;
    if k == TReturn {
      ReturnSaid(toks, pos, room);
    } else if k == TBreak || k == TContinue {
      JumpSaid(if k == TBreak then NBreak else NContinue, toks, pos, room);
    } else if k == TIdent && toks[pos + 1].kind == TAssign {
      NameSaid(toks, pos);
      OneSaid(NAssign, toks[pos].text, toks, pos + 2, room);
      AssignIsOne(toks, pos, room);
    } else {
      ExprStmtSaid(toks, pos, room);
    }
  }

  lemma NameSaid(toks: seq<Token>, pos: nat)
    requires AllSpoken(toks) && pos < |toks| && toks[pos].kind == TIdent
    ensures IsName(toks[pos].text)
  {
    hide IsName;
  }

  lemma JumpSaid(kind: NodeKind, toks: seq<Token>, pos: nat, room: nat)
    requires Stream(toks) && pos + 1 < |toks| && (kind == NBreak || kind == NContinue || kind == NReturn)
    ensures SayableRes(G.Jump(kind, toks, pos, room))
  {
    hide G.Past;
  }

  lemma OneSaid(kind: NodeKind, name: string, toks: seq<Token>, pos: nat, room: nat)
    requires Stream(toks) && AllSpoken(toks) && pos < |toks| && (kind == NReturn || (kind == NAssign && IsName(name)))
    ensures SayableRes(G.One(kind, name, toks, pos, room))
  {
    hide Parse, Sayable, G.Past, Size, AllSpoken, IsName;
    if room > 0 {
      ExprSaid(toks, pos, 0, room - 1);
      var r := Parse(toks, pos, 0, room - 1);
      if r.Ok? { OneSayable(Branch(kind, name, [r.value]), r.value); }
    }
  }

  lemma ReturnSaid(toks: seq<Token>, pos: nat, room: nat)
    requires Stream(toks) && AllSpoken(toks) && pos + 1 < |toks|
    ensures SayableRes(G.Return(toks, pos, room))
  {
    hide G.One, G.Jump, Sayable, AllSpoken;
    OneSaid(NReturn, "", toks, pos + 1, room);
    JumpSaid(NReturn, toks, pos, room);
  }

  lemma ExprStmtSaid(toks: seq<Token>, pos: nat, room: nat)
    requires Stream(toks) && AllSpoken(toks) && pos < |toks|
    ensures SayableRes(G.ExprStmt(toks, pos, room))
  {
    hide Parse, G.Past, Sayable, AllSpoken;
    ExprSaid(toks, pos, 0, room);
  }

  lemma {:induction false} LoopSaid(kind: NodeKind, name: string, toks: seq<Token>, pos: nat, room: nat)
    requires Stream(toks) && AllSpoken(toks) && pos < |toks| && (kind == NWhile || kind == NIf || (kind == NFor && IsName(name)))
    ensures var r := G.Loop(kind, name, toks, pos, room);
            SayableRes(r) && (r.Ok? ==> pos < r.pos < |toks| && r.value.kind == kind)
    decreases |toks| - pos, 4
  {
    hide Parse, G.Body, Sayable, Size, AllSpoken, IsName;
    ExprSaid(toks, pos, 0, room);
    var head := Parse(toks, pos, 0, room);
    if head.Ok? {
      BodySaid(toks, head.pos, head.room);
      var body := G.Body(toks, head.pos, head.room);
      if body.Ok? { PairSayable(Branch(kind, name, [head.value, body.value]), head.value, body.value); }
    }
  }

  lemma {:induction false} ForSaid(toks: seq<Token>, pos: nat, room: nat)
    requires Stream(toks) && AllSpoken(toks) && pos + 1 < |toks|
    ensures SayableRes(G.For(toks, pos, room))
    decreases |toks| - pos, 3
  {
    hide G.Loop, Sayable, AllSpoken;
    if toks[pos + 1].kind == TIdent && toks[pos + 2].kind == TIn && room > 0 {
      NameSaid(toks, pos + 1);
      LoopSaid(NFor, toks[pos + 1].text, toks, pos + 3, room - 1);
    }
  }

  lemma {:induction false} DefSaid(toks: seq<Token>, pos: nat, room: nat)
    requires Stream(toks) && AllSpoken(toks) && pos + 1 < |toks|
    ensures SayableRes(G.Def(toks, pos, room))
    decreases |toks| - pos, 3
  {
    hide G.Signature, G.Body, AllSayable, Size, Sizes, AllSpoken, IsName;
    if toks[pos + 1].kind == TIdent && room > 0 {
      NameSaid(toks, pos + 1);
      SignatureSaid(toks, pos + 2, room - 1);
      var sig := G.Signature(toks, pos + 2, room - 1);
      if sig.Ok? {
        BodySaid(toks, sig.pos, sig.room);
        var body := G.Body(toks, sig.pos, sig.room);
        if body.Ok? { SayableSnoc(sig.value, body.value); }
      }
    }
  }

  lemma SignatureSaid(toks: seq<Token>, pos: nat, room: nat)
    requires Stream(toks) && AllSpoken(toks) && pos < |toks|
    ensures var r := G.Signature(toks, pos, room); r.Ok? ==> AllSayable(r.value)
  {
    hide G.Params, Sizes, AllSayable, AllSpoken;
    NoneSayable();
    if toks[pos].kind == TLparen { ParamsSaid(toks, pos + 1, [], room); }
  }

  lemma {:induction false} ParamsSaid(toks: seq<Token>, pos: nat, done: seq<Tree>, room: nat)
    requires Stream(toks) && AllSpoken(toks) && pos < |toks| && AllSayable(done)
    ensures var r := G.Params(toks, pos, done, room); r.Ok? ==> AllSayable(r.value)
    decreases |toks| - pos
  {
    hide Sizes, AllSayable, Sayable, AllSpoken;
    if toks[pos].kind == TIdent && room > 0 {
      LeafSayable(toks, pos);
      SayableSnoc(done, Leaf(NVar, 0, toks[pos].text));
      if toks[pos + 1].kind == TComma { ParamsSaid(toks, pos + 2, done + [Leaf(NVar, 0, toks[pos].text)], room - 1); }
    }
  }

  lemma {:induction false} IfSaid(toks: seq<Token>, pos: nat, room: nat)
    requires Stream(toks) && AllSpoken(toks) && pos + 1 < |toks|
    ensures SayableRes(G.If(toks, pos, room))
    decreases |toks| - pos, 3
  {
    hide G.Loop, G.Else, Sayable, G.Skip, Size, Sizes, AllSpoken;
    if room > 0 {
      LoopSaid(NIf, "", toks, pos + 1, room - 1);
      var head := G.Loop(NIf, "", toks, pos + 1, room - 1);
      if head.Ok? {
        ElseSaid(toks, G.Skip(toks, head.pos), head.room);
        var rest := G.Else(toks, G.Skip(toks, head.pos), head.room);
        if rest.Ok? { MoreSayable(head.value, rest.value); }
      }
    }
  }

  lemma MoreSayable(t: Tree, rest: seq<Tree>)
    requires Sayable(t) && |rest| <= 1 && (rest != [] ==> Sayable(rest[0]))
    ensures Sayable(t.(children := t.children + rest))
  {
    hide AllSayable, IsName;
    if rest == [] {
      assert t.children + rest == t.children;
    } else {
      assert rest == [rest[0]];
      SayableSnoc(t.children, rest[0]);
    }
  }

  lemma {:induction false} ElseSaid(toks: seq<Token>, pos: nat, room: nat)
    requires Stream(toks) && AllSpoken(toks) && pos < |toks|
    ensures var r := G.Else(toks, pos, room); r.Ok? && r.value != [] ==> Sayable(r.value[0])
    decreases |toks| - pos, 5
  {
    hide G.Stmt, G.Body, Size, Sayable, AllSpoken;
    if toks[pos].kind == TElif {
      StmtSaid(toks, pos, room);
    } else if toks[pos].kind == TElse {
      BodySaid(toks, pos + 1, room);
    }
  }

  lemma {:induction false} BodySaid(toks: seq<Token>, pos: nat, room: nat)
    requires Stream(toks) && AllSpoken(toks) && pos < |toks|
    ensures SayableRes(G.Body(toks, pos, room))
    decreases |toks| - pos, 2
  {
    hide G.Stmts, G.Skip, Size, G.Past, AllSayable, AllSpoken, IsName;
    if toks[pos].kind == TColon {
      var p := G.Past(toks, pos + 1, TNewline);
      if toks[p].kind == TIndent && room > 0 {
        NoneSayable();
        StmtsSaid(toks, G.Skip(toks, p + 1), false, [], room - 1);
      }
    }
  }

  lemma {:induction false} StmtsSaid(toks: seq<Token>, pos: nat, top: bool, done: seq<Tree>, room: nat)
    requires Stream(toks) && AllSpoken(toks) && pos < |toks| && AllSayable(done)
    ensures var r := G.Stmts(toks, pos, top, done, room); r.Ok? ==> AllSayable(r.value)
    decreases |toks| - pos, 5
  {
    hide G.Stmt, Sayable, AllSayable, G.Skip, Size, Sizes, AllSpoken;
    if toks[pos].kind != TEof && (top || toks[pos].kind != TDedent) {
      StmtSaid(toks, pos, room);
      var r := G.Stmt(toks, pos, room);
      if r.Ok? && |done| < MAX_CHILDREN {
        SayableSnoc(done, r.value);
        StmtsSaid(toks, G.Skip(toks, r.pos), top, done + [r.value], r.room);
      }
    }
  }

  lemma ProgramSaid(toks: seq<Token>)
    requires Stream(toks) && AllSpoken(toks)
    ensures var r := G.Program(toks); r.Ok? ==> AllSayable(r.value.children)
  {
    hide G.Stmts, G.Skip, AllSayable, AllSpoken;
    NoneSayable();
    StmtsSaid(toks, G.Skip(toks, 0), true, [], MAX_NODES - 1);
  }

  /** The tree of an accepted source is one that can be printed. */
  lemma AcceptedIsPrintable(src: string)
    requires R.TreeOf(src).Some?
    ensures var t := R.TreeOf(src).value;
      && t == Branch(NBlock, "", t.children) && AllStatements(t.children) && AllSayable(t.children)
      && |t.children| <= MAX_CHILDREN && Sizes(t.children) < MAX_NODES
  {
    hide AllStatements, AllSayable, Sizes, GkLexer.Program, G.Program, AllSpoken;
    var toks := GkLexer.Program(src, 0, [0]).toks;
    LexedIs(src, 0);
    ProgramSpoken(src, 0, [0]);
    ProgramParsed(toks);
    ProgramSaid(toks);
    var r := G.Program(toks);
    BlockSize(r.value);
  }

  lemma BlockSize(t: Tree)
    ensures Size(t) == 1 + Sizes(t.children)
  {}

  /** Reprinting: whatever an accepted source looks like, its tree printed as indented text stands for the same tree, so
      that the two programs behave the same, exactly when the printed tokens and the end keep within the token limit. */
  lemma Reprint(src: string)
    requires R.TreeOf(src).Some?
    ensures var ts := R.TreeOf(src).value.children;
      && AllStatements(ts) && AllSpelled(AllRows(ts, 0))
      && (R.TreeOf(Text(AllRows(ts, 0))) == R.TreeOf(src) <==> |PrintAll(ts)| < MAX_TOKENS)
  {
    hide AllStatements, AllSayable, AllRows, Text, PrintAll, Sizes, R.TreeOf, AllSpelled;
    AcceptedIsPrintable(src);
    SourceRoundTrip(R.TreeOf(src).value.children);
  }
}
