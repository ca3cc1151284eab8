/** Printing statements as tokens, with blocks between INDENT and DEDENT, and that parsing undoes it. */
module GkStatements {
  import opened GkSyntax
  import opened GkGrammar
  import opened GkRoundTrip

  // ----- the trees -----

  /** Statements with a block below their first line. */
  predicate Compound(k: NodeKind) {
    k == NWhile || k == NFor || k == NDef || k == NIf
  }

  predicate IsParam(t: Tree) {
    t == Leaf(NVar, 0, t.text)
  }

  predicate AllParams(ts: seq<Tree>) {
    forall i :: 0 <= i < |ts| ==> IsParam(ts[i])
  }

  /** The trees that statements parse to. */
  predicate IsStatement(t: Tree)
    decreases t, 0
  {
    match t.kind
    case NReturn => t == Branch(NReturn, "", t.children) && |t.children| <= 1 && AllExprs(t.children)
    case NBreak => t == Branch(NBreak, "", [])
    case NContinue => t == Branch(NContinue, "", [])
    case NAssign => t == Branch(NAssign, t.text, t.children) && |t.children| == 1 && AllExprs(t.children)
    case NWhile => t == Branch(NWhile, "", t.children) && |t.children| == 2 && IsExpr(t.children[0]) && IsBlock(t.children[1])
    case NFor => t == Branch(NFor, t.text, t.children) && |t.children| == 2 && IsExpr(t.children[0]) && IsBlock(t.children[1])
    case NDef =>
      var n := |t.children| - 1;
      n >= 0 && t == Branch(NDef, t.text, t.children) && AllParams(t.children[..n]) && IsBlock(t.children[n])
    case NIf =>
      && t == Branch(NIf, "", t.children) && 2 <= |t.children| <= 3 && IsExpr(t.children[0]) && IsBlock(t.children[1])
      && (|t.children| == 3 ==> IsElse(t.children[2]))
    case _ => IsExpr(t)
  }

  /** The else part of an if: another if, or a block. */
  predicate IsElse(t: Tree)
    decreases t, 2
  {
    if t.kind == NIf then IsStatement(t) else IsBlock(t)
  }

  predicate IsBlock(t: Tree)
    decreases t, 1
  {
    t == Branch(NBlock, "", t.children) && |t.children| <= MAX_CHILDREN && AllStatements(t.children)
  }

  predicate AllStatements(ts: seq<Tree>)
    decreases ts
  {
    ts == [] || (IsStatement(ts[0]) && AllStatements(ts[1..]))
  }

  // ----- printing -----

  const NL: Token := Tok(TNewline)

  function Ident(name: string): Token {
    Token(TIdent, 0, name)
  }

  function PrintParams(ts: seq<Tree>): seq<Token> {
    if ts == [] then [] else if |ts| == 1 then [Ident(ts[0].text)] else [Ident(ts[0].text), Tok(TComma)] + PrintParams(ts[1..])
  }

  /** The first line of a statement; an if in the else part of another is an elif. */
  function Head(t: Tree, elif: bool): (s: seq<Token>)
    requires IsStatement(t)
    ensures |s| >= 1
  {
    match t.kind
    case NReturn => [Tok(TReturn)] + if t.children == [] then [] else Print(t.children[0], 0)
    case NBreak => [Tok(TBreak)]
    case NContinue => [Tok(TContinue)]
    case NAssign => [Ident(t.text), Tok(TAssign)] + Print(t.children[0], 0)
    case NWhile => [Tok(TWhile)] + (Print(t.children[0], 0) + [Tok(TColon)])
    case NFor => [Tok(TFor), Ident(t.text), Tok(TIn)] + (Print(t.children[0], 0) + [Tok(TColon)])
    case NDef => [Tok(TDef), Ident(t.text), Tok(TLparen)] + (PrintParams(t.children[..|t.children| - 1]) + [Tok(TRparen), Tok(TColon)])
    case NIf => [Tok(if elif then TElif else TIf)] + (Print(t.children[0], 0) + [Tok(TColon)])
    case _ => Print(t, 0)
  }

  function BodyOf(t: Tree): (b: Tree)
    requires IsStatement(t) && Compound(t.kind)
    ensures b in t.children && IsBlock(b)
  {
    if t.kind == NDef then t.children[|t.children| - 1] else t.children[1]
  }

  function PrintStmt(t: Tree, elif: bool): (s: seq<Token>)
    requires IsStatement(t)
    ensures |s| >= 1 && s[0] == Head(t, elif)[0]
    decreases t, 1
  {
    Head(t, elif) + ([NL] + if Compound(t.kind) then PrintBlock(BodyOf(t)) + PrintRest(t) else [])
  }

  function PrintBlock(b: Tree): seq<Token>
    requires IsBlock(b)
    decreases b, 1
  {
    [Tok(TIndent)] + (Inner(b.children) + [Tok(TDedent)])
  }

  /** The lines of a block; an empty block is one line without tokens. */
  function Inner(ts: seq<Tree>): seq<Token>
    requires AllStatements(ts)
    decreases ts, 1
  {
    if ts == [] then [NL] else PrintAll(ts)
  }

  function PrintRest(t: Tree): seq<Token>
    requires IsStatement(t)
    decreases t, 0
  {
    if t.kind == NIf && |t.children| == 3 then PrintElse(t.children[2]) else []
  }

  function PrintElse(t: Tree): seq<Token>
    requires IsElse(t)
    decreases t, 2
  {
    if t.kind == NIf then PrintStmt(t, true) else [Tok(TElse), Tok(TColon)] + ([NL] + PrintBlock(t))
  }

  function PrintAll(ts: seq<Tree>): seq<Token>
    requires AllStatements(ts)
    decreases ts, 0
  {
    if ts == [] then [] else PrintStmt(ts[0], false) + PrintAll(ts[1..])
  }

  // ----- which tokens expressions are made of -----

  predicate ExprKind(k: Kind) {
    k !in {TReturn, TBreak, TContinue, TDef, TIf, TElif, TElse, TWhile, TFor, TAssign, TColon, TEof, TNewline, TIndent, TDedent}
  }

  predicate AllExprKinds(s: seq<Token>) {
    forall i :: 0 <= i < |s| ==> ExprKind(s[i].kind)
  }

  lemma KindsJoin(a: seq<Token>, b: seq<Token>)
    requires AllExprKinds(a) && AllExprKinds(b)
    ensures AllExprKinds(a + b)
  {
    hide ExprKind;
  }

  lemma OperatorKind(k: Kind)
    requires Level(k) < 5 || k == TNot
    ensures AllExprKinds([Tok(k)])
  {}

  lemma {:induction false} PrintKinds(t: Tree, level: nat)
    requires IsExpr(t)
    ensures AllExprKinds(Print(t, level))
    decreases t, 1
  {
    hide Bare, Print, AllExprKinds;
    BareKinds(t);
    ParensKinds();
    ParensPrint(t, level);
    if TreeLevel(t) < level {
      KindsJoin([Tok(TLparen)], Bare(t));
      KindsJoin([Tok(TLparen)] + Bare(t), [Tok(TRparen)]);
    }
  }

  lemma ParensPrint(t: Tree, level: nat)
    requires IsExpr(t)
    ensures Print(t, level) == if TreeLevel(t) < level then [Tok(TLparen)] + Bare(t) + [Tok(TRparen)] else Bare(t)
  {
    hide Bare;
  }

  lemma ParensKinds()
    ensures AllExprKinds([Tok(TLparen)]) && AllExprKinds([Tok(TRparen)]) && AllExprKinds([Tok(TComma)]) && AllExprKinds([])
    ensures forall name :: AllExprKinds([Ident(name), Tok(TLparen)])
  {}

  lemma {:induction false} BareKinds(t: Tree)
    requires IsExpr(t)
    ensures AllExprKinds(Bare(t))
    decreases t, 0
  {
    hide Bare, Print, PrintArgs, AllExprKinds, Level, IsExpr, IsLeaf;
    ParensKinds();
    Operands(t);
    if t.kind == NBinop {
      OperatorParts(t);
      BareOperator(t);
      var l, r := t.children[0], t.children[1];
      PrintKinds(l, Level(t.op));
      PrintKinds(r, Level(t.op) + 1);
      OperatorKind(t.op);
      KindsJoin(Print(l, Level(t.op)), [Tok(t.op)]);
      KindsJoin(Print(l, Level(t.op)) + [Tok(t.op)], Print(r, Level(t.op) + 1));
    } else if t.kind == NUnop {
      UnaryForm(t, t.children[0]);
      UnaryBare(t);
      OperatorKind(t.op);
      PrintKinds(t.children[0], 5);
      KindsJoin([Tok(t.op)], Print(t.children[0], 5));
    } else if IsLeaf(t) {
      LeafKinds(t);
    } else {
      CallParts(t);
      ArgsKinds(t.children);
      var head := [Token(TIdent, 0, t.text), Tok(TLparen)];
      assert head == [Ident(t.text), Tok(TLparen)];
      KindsJoin(head, PrintArgs(t.children));
      KindsJoin(head + PrintArgs(t.children), [Tok(TRparen)]);
    }
  }

  lemma UnaryBare(t: Tree)
    requires IsExpr(t) && t.kind == NUnop && |t.children| == 1 && IsExpr(t.children[0])
    ensures Bare(t) == [Tok(t.op)] + Print(t.children[0], 5) && (Level(t.op) < 5 || t.op == TNot)
  {
    hide Print, PrintArgs;
  }

  lemma LeafKinds(t: Tree)
    requires IsExpr(t) && IsLeaf(t) && t.kind != NBinop && t.kind != NUnop
    ensures AllExprKinds(Bare(t))
  {
    hide Print, PrintArgs;
  }

  lemma CallParts(t: Tree)
    requires IsExpr(t) && t.kind != NBinop && t.kind != NUnop && !IsLeaf(t)
    ensures AllExprs(t.children)
    ensures Bare(t) == [Token(TIdent, 0, t.text), Tok(TLparen)] + PrintArgs(t.children) + [Tok(TRparen)]
  {
    hide Print, PrintArgs;
  }

  lemma {:induction false} ArgsKinds(ts: seq<Tree>)
    requires AllExprs(ts)
    ensures AllExprKinds(PrintArgs(ts))
    decreases ts
  {
    hide Print, PrintArgs, AllExprKinds, IsExpr;
    ParensKinds();
    ArgsForm(ts);
    if ts != [] {
      PrintKinds(ts[0], 0);
      if |ts| > 1 {
        ArgsKinds(ts[1..]);
        KindsJoin([Tok(TComma)], PrintArgs(ts[1..]));
        KindsJoin(Print(ts[0], 0), [Tok(TComma)] + PrintArgs(ts[1..]));
      }
    }
  }

  // ----- places -----

  lemma AtLeft(toks: seq<Token>, pos: nat, a: seq<Token>, b: seq<Token>)
    requires At(toks, pos, a + b)
    ensures At(toks, pos, a) && At(toks, pos + |a|, b)
  {
    hide At;
    AtSplit(toks, pos, a, b);
    if b == [] { assert a + b == a; }
  }

  lemma AtKind(toks: seq<Token>, pos: nat, s: seq<Token>, i: nat)
    requires At(toks, pos, s) && i < |s|
    ensures pos + i + 1 < |toks| && toks[pos + i].kind == s[i].kind && (s[i].kind == TIdent ==> toks[pos + i].text == s[i].text)
  {
    assert Alike(toks[pos + i], s[i]);
  }

  /** What may follow a statement: no further newline and no else part. */
  predicate Follows(k: Kind) {
    k != TNewline && k != TElif && k != TElse
  }

  // ----- simple statements -----

  /** An expression up to the end of its line. */
  lemma LineExpr(e: Tree, toks: seq<Token>, pos: nat, room: nat)
    requires IsExpr(e) && Stream(toks) && At(toks, pos, Print(e, 0) + [NL]) && Size(e) <= room
    ensures var p := pos + |Print(e, 0)|;
      && p + 1 < |toks| && Parse(toks, pos, 0, room) == Ok(e, p, room - Size(e)) && Past(toks, p, TNewline) == p + 1
  {
    hide IsExpr, Print, Parse, Size, At, Stream;
    AtLeft(toks, pos, Print(e, 0), [NL]);
    AtKind(toks, pos + |Print(e, 0)|, [NL], 0);
    RoundTrip(e, toks, pos, room);
  }

  lemma ExprRead(t: Tree, toks: seq<Token>, pos: nat, room: nat)
    requires IsExpr(t) && Stream(toks) && At(toks, pos, Print(t, 0) + [NL]) && Size(t) <= room
    ensures Stmt(toks, pos, room) == Ok(t, pos + |Print(t, 0)| + 1, room - Size(t))
  {
    hide IsExpr, Print, Parse, Size, At, Stream, ExprKind, Past, Stmt;
    LineExpr(t, toks, pos, room);
    ExprStarts(t, toks, pos);
    NoStatementWord(toks, pos, room);
  }

  lemma NoStatementWord(toks: seq<Token>, pos: nat, room: nat)
    requires Stream(toks) && pos + 1 < |toks| && ExprKind(toks[pos].kind) && toks[pos + 1].kind != TAssign
    ensures Stmt(toks, pos, room) == ExprStmt(toks, pos, room)
  {
    hide ExprStmt, Return, Jump, Def, If, Loop, For, Assign;
  }

  lemma ExprStarts(t: Tree, toks: seq<Token>, pos: nat)
    requires IsExpr(t) && At(toks, pos, Print(t, 0) + [NL])
    ensures pos + 1 < |toks| && ExprKind(toks[pos].kind) && toks[pos + 1].kind != TAssign
  {
    hide IsExpr, Print, At;
    var s := Print(t, 0) + [NL];
    PrintKinds(t, 0);
    AtKind(toks, pos, s, 0);
    AtKind(toks, pos, s, 1);
    assert s[0] == Print(t, 0)[0];
    if |Print(t, 0)| > 1 {
      assert s[1] == Print(t, 0)[1];
      assert ExprKind(s[1].kind);
    }
  }

  /** A node over one expression. */
  lemma OneRead(kind: NodeKind, name: string, e: Tree, toks: seq<Token>, pos: nat, room: nat)
    requires IsExpr(e) && Stream(toks) && At(toks, pos, Print(e, 0) + [NL]) && 1 + Size(e) <= room
    ensures One(kind, name, toks, pos, room) == Ok(Branch(kind, name, [e]), pos + |Print(e, 0)| + 1, room - 1 - Size(e))
    ensures Size(Branch(kind, name, [e])) == 1 + Size(e)
  {
    hide IsExpr, Print, Parse, At, Stream, Past;
    LineExpr(e, toks, pos, room - 1);
    SizesOne(e);
  }

  lemma JumpRead(kind: NodeKind, toks: seq<Token>, pos: nat, room: nat)
    requires Stream(toks) && pos + 2 < |toks| && toks[pos + 1].kind == TNewline && room > 0
    ensures Jump(kind, toks, pos, room) == Ok(Branch(kind, "", []), pos + 2, room - 1) && Size(Branch(kind, "", [])) == 1
  {}

  lemma SimpleRead(t: Tree, toks: seq<Token>, pos: nat, room: nat)
    requires IsStatement(t) && !Compound(t.kind) && Stream(toks) && At(toks, pos, Head(t, false) + [NL]) && Size(t) <= room
    ensures Stmt(toks, pos, room) == Ok(t, pos + |Head(t, false)| + 1, room - Size(t))
  {
    hide IsExpr, AllExprs, Print, At, Stream, Size, One, Jump, ExprStmt;
    var s := Head(t, false) + [NL];
    AtKind(toks, pos, s, 0);
    AtKind(toks, pos, s, 1);
    if t.kind == NReturn {
      ReturnRead(t, toks, pos, room);
    } else if t.kind == NBreak || t.kind == NContinue {
      JumpRead(t.kind, toks, pos, room);
    } else if t.kind == NAssign {
      AssignRead(t, toks, pos, room);
    } else {
      ExprRead(t, toks, pos, room);
    }
  }

  lemma OneExpr(ts: seq<Tree>)
    requires AllExprs(ts) && |ts| == 1
    ensures ts == [ts[0]] && IsExpr(ts[0])
  {}

  lemma ReturnRead(t: Tree, toks: seq<Token>, pos: nat, room: nat)
    requires IsStatement(t) && t.kind == NReturn && Stream(toks) && At(toks, pos, Head(t, false) + [NL]) && Size(t) <= room
    ensures Stmt(toks, pos, room) == Ok(t, pos + |Head(t, false)| + 1, room - Size(t))
  {
    hide IsExpr, AllExprs, Print, At, Stream, Size, One, Jump, Return, Stmt;
    var s := Head(t, false) + [NL];
    AtKind(toks, pos, s, 0);
    AtKind(toks, pos, s, 1);
    IsReturn(toks, pos, room);
    if t.children == [] {
      JumpRead(NReturn, toks, pos, room);
    } else {
      var e := t.children[0];
      OneExpr(t.children);
      assert s == [Tok(TReturn)] + (Print(e, 0) + [NL]);
      AtLeft(toks, pos, [Tok(TReturn)], Print(e, 0) + [NL]);
      SizeOfOne(NReturn, "", e);
      OneRead(NReturn, "", e, toks, pos + 1, room);
      ExprStarts(e, toks, pos + 1);
      assert ExprKind(toks[pos + 1].kind);
    }
  }

  lemma IsReturn(toks: seq<Token>, pos: nat, room: nat)
    requires Stream(toks) && pos + 1 < |toks| && toks[pos].kind == TReturn
    ensures Stmt(toks, pos, room)
         == if toks[pos + 1].kind == TNewline || toks[pos + 1].kind == TEof then Jump(NReturn, toks, pos, room)
            else One(NReturn, "", toks, pos + 1, room)
  {
    hide One, Jump;
  }

  lemma SizeOfOne(kind: NodeKind, name: string, e: Tree)
    ensures Size(Branch(kind, name, [e])) == 1 + Size(e)
  {
    SizesOne(e);
  }

  lemma AssignRead(t: Tree, toks: seq<Token>, pos: nat, room: nat)
    requires IsStatement(t) && t.kind == NAssign && Stream(toks) && At(toks, pos, Head(t, false) + [NL]) && Size(t) <= room
    ensures Stmt(toks, pos, room) == Ok(t, pos + |Head(t, false)| + 1, room - Size(t))
  {
    hide IsExpr, AllExprs, Print, At, Stream, Size, One, Stmt, IsStatement, Head;
    AssignForm(t);
    var first, e := [Ident(t.text), Tok(TAssign)], t.children[0];
    AtLeft(toks, pos, first, Print(e, 0) + [NL]);
    AtKind(toks, pos, first, 0);
    AtKind(toks, pos, first, 1);
    SizeOfOne(NAssign, t.text, e);
    OneRead(NAssign, t.text, e, toks, pos + 2, room);
    IsAssign(toks, pos, room);
  }

  lemma AssignForm(t: Tree)
    requires IsStatement(t) && t.kind == NAssign
    ensures |t.children| == 1 && IsExpr(t.children[0]) && t == Branch(NAssign, t.text, [t.children[0]])
    ensures |Head(t, false)| == 2 + |Print(t.children[0], 0)|
    ensures Head(t, false) + [NL] == [Ident(t.text), Tok(TAssign)] + (Print(t.children[0], 0) + [NL])
  {
    hide IsExpr, AllExprs, Print;
    OneExpr(t.children);
  }

  lemma IsAssign(toks: seq<Token>, pos: nat, room: nat)
    requires Stream(toks) && pos + 2 < |toks| && toks[pos].kind == TIdent && toks[pos + 1].kind == TAssign
    ensures Stmt(toks, pos, room) == One(NAssign, toks[pos].text, toks, pos + 2, room)
  {
    hide One;
  }

  // ----- compound statements -----

  /** The colon, newline and block of a body. */
  function Below(b: Tree): (s: seq<Token>)
    requires IsBlock(b)
    ensures |s| == 2 + |PrintBlock(b)|
  {
    [Tok(TColon)] + ([NL] + PrintBlock(b))
  }

  /** A first line that ends in a colon, the block and what follows. */
  lemma HeadedForm(first: seq<Token>, line: seq<Token>, b: Tree, rest: seq<Token>)
    requires IsBlock(b)
    ensures (first + (line + [Tok(TColon)])) + ([NL] + (PrintBlock(b) + rest)) == (first + (line + Below(b))) + rest
  {
    hide PrintBlock, IsBlock;
  }

  lemma BlockForm(b: Tree)
    requires IsBlock(b)
    ensures AllStatements(b.children) && |b.children| <= MAX_CHILDREN && b == Branch(NBlock, "", b.children)
    ensures Below(b) == [Tok(TColon), NL, Tok(TIndent)] + (Inner(b.children) + [Tok(TDedent)])
    ensures Size(b) == 1 + Sizes(b.children)
  {
    hide Inner, AllStatements, Sizes;
  }

  lemma {:induction false} BodyRead(b: Tree, toks: seq<Token>, pos: nat, room: nat)
    requires IsBlock(b) && Stream(toks) && At(toks, pos, Below(b)) && Size(b) <= room
    ensures Body(toks, pos, room) == Ok(b, pos + |Below(b)|, room - Size(b))
    decreases Size(b), 2
  {
    hide At, Stream, Size, Sizes, Stmts, Inner, Below, IsBlock, AllStatements, Skip;
    BlockForm(b);
    var first, ts := [Tok(TColon), NL, Tok(TIndent)], b.children;
    var s := Inner(ts);
    AtLeft(toks, pos, first, s + [Tok(TDedent)]);
    AtLeft(toks, pos + 3, s, [Tok(TDedent)]);
    AtKind(toks, pos, first, 0);
    AtKind(toks, pos, first, 1);
    AtKind(toks, pos, first, 2);
    AtKind(toks, pos + 3 + |s|, [Tok(TDedent)], 0);
    InnerRead(ts, toks, pos + 3, room - 1);
    BodyIs(toks, pos, room, ts, pos + 3 + |s|, room - 1 - Sizes(ts));
  }

  lemma BodyIs(toks: seq<Token>, pos: nat, room: nat, ts: seq<Tree>, p: nat, m: nat)
    requires Stream(toks) && pos + 3 < |toks| && p + 1 < |toks| && room > 0
    requires toks[pos].kind == TColon && toks[pos + 1].kind == TNewline && toks[pos + 2].kind == TIndent && toks[p].kind == TDedent
    requires Stmts(toks, Skip(toks, pos + 3), false, [], room - 1) == Ok(ts, p, m)
    ensures Body(toks, pos, room) == Ok(Branch(NBlock, "", ts), p + 1, m)
  {
    hide Stmts, Skip, Size, Sizes;
    assert Body(toks, pos, room) == Block(toks, pos + 2, room);
  }

  lemma {:induction false} InnerRead(ts: seq<Tree>, toks: seq<Token>, pos: nat, room: nat)
    requires AllStatements(ts) && |ts| <= MAX_CHILDREN && Stream(toks) && At(toks, pos, Inner(ts)) && Sizes(ts) <= room
    requires toks[pos + |Inner(ts)|].kind == TDedent
    ensures Stmts(toks, Skip(toks, pos), false, [], room) == Ok(ts, pos + |Inner(ts)|, room - Sizes(ts))
    decreases Sizes(ts), 8
  {
    hide At, Stream, Stmts, PrintAll, AllStatements, Skip;
    AtBound(toks, pos, Inner(ts));
    if ts == [] {
      AtKind(toks, pos, [NL], 0);
      SkipOne(toks, pos);
      StmtsEnd(toks, pos + 1, false, [], room);
    } else {
      FirstOfAll(ts, toks, pos);
      SkipNone(toks, pos);
      StmtsRead([], ts, false, toks, pos, room);
      assert [] + ts == ts;
    }
  }

  lemma SkipOne(toks: seq<Token>, pos: nat)
    requires Stream(toks) && pos + 1 < |toks| && toks[pos].kind == TNewline && toks[pos + 1].kind != TNewline
    ensures Skip(toks, pos) == pos + 1
  {}

  lemma SkipNone(toks: seq<Token>, pos: nat)
    requires Stream(toks) && pos < |toks| && toks[pos].kind != TNewline
    ensures Skip(toks, pos) == pos
  {}

  /** The token that ends the statement loop of the program, or of a block. */
  predicate Ends(top: bool, k: Kind) {
    k == if top then TEof else TDedent
  }

  lemma StmtsEnd(toks: seq<Token>, pos: nat, top: bool, done: seq<Tree>, room: nat)
    requires Stream(toks) && pos < |toks| && Ends(top, toks[pos].kind)
    ensures Stmts(toks, pos, top, done, room) == Ok(done, pos, room)
  {
    hide Stmt, Sizes, Skip;
  }

  /** How a statement starts. */
  lemma FirstOfHead(t: Tree)
    requires IsStatement(t)
    ensures Head(t, false)[0].kind !in {TNewline, TElif, TElse, TEof, TDedent}
  {
    hide Print, IsExpr, AllExprs, IsBlock, IsElse, PrintParams, AllParams;
    if !Compound(t.kind) && t.kind != NReturn && t.kind != NBreak && t.kind != NContinue && t.kind != NAssign {
      PrintKinds(t, 0);
      assert ExprKind(Print(t, 0)[0].kind);
    }
  }

  lemma FirstOfAll(ts: seq<Tree>, toks: seq<Token>, pos: nat)
    requires AllStatements(ts) && ts != [] && At(toks, pos, PrintAll(ts))
    ensures pos < |toks| && toks[pos].kind !in {TNewline, TElif, TElse, TEof, TDedent}
  {
    hide At, Head, IsStatement;
    FirstOfHead(ts[0]);
    AllForm(ts);
    AtKind(toks, pos, PrintAll(ts), 0);
  }

  lemma AllForm(ts: seq<Tree>)
    requires AllStatements(ts) && ts != []
    ensures IsStatement(ts[0]) && AllStatements(ts[1..]) && Sizes(ts) == Size(ts[0]) + Sizes(ts[1..])
    ensures PrintAll(ts) == PrintStmt(ts[0], false) + PrintAll(ts[1..]) && |PrintStmt(ts[0], false)| > 0
  {
    hide IsStatement, PrintStmt, Size;
  }

  /** The statement loop, having collected `done`, collects `ts`. */
  lemma {:induction false} StmtsRead(done: seq<Tree>, ts: seq<Tree>, top: bool, toks: seq<Token>, pos: nat, room: nat)
    requires AllStatements(ts) && |done| + |ts| <= MAX_CHILDREN && Stream(toks) && At(toks, pos, PrintAll(ts)) && Sizes(ts) <= room
    requires Ends(top, toks[pos + |PrintAll(ts)|].kind)
    ensures Stmts(toks, pos, top, done, room) == Ok(done + ts, pos + |PrintAll(ts)|, room - Sizes(ts))
    decreases Sizes(ts), 7
  {
    hide At, Stream, Stmt, Stmts, PrintAll, AllStatements, Sizes, TookAll, Ends;
    AtBound(toks, pos, PrintAll(ts));
    Regroup(done, ts);
    if ts == [] {
      NoneForm();
      StmtsEnd(toks, pos, top, done, room);
    } else {
      StmtsMore(done, ts, top, toks, pos, room);
    }
  }

  lemma {:induction false} StmtsMore(done: seq<Tree>, ts: seq<Tree>, top: bool, toks: seq<Token>, pos: nat, room: nat)
    requires AllStatements(ts) && ts != [] && |done| + |ts| <= MAX_CHILDREN
    requires Stream(toks) && At(toks, pos, PrintAll(ts)) && Sizes(ts) <= room && Ends(top, toks[pos + |PrintAll(ts)|].kind)
    ensures Stmts(toks, pos, top, done, room) == Ok(done + [ts[0]] + ts[1..], pos + |PrintAll(ts)|, room - Sizes(ts))
    decreases Sizes(ts), 6
  {
    hide At, Stream, Stmt, Stmts, PrintAll, PrintStmt, AllStatements, IsStatement, Skip, Size, Sizes, Took, TookAll, Ends, Head;
    FirstRead(ts, top, toks, pos, room);
    var p, m := pos + |PrintStmt(ts[0], false)|, room - Size(ts[0]);
    StmtsStep(toks, pos, top, done, room, ts[0], p, m);
    StmtsRead(done + [ts[0]], ts[1..], top, toks, p, m);
  }

  lemma Regroup(done: seq<Tree>, ts: seq<Tree>)
    ensures if ts == [] then done + ts == done else done + [ts[0]] + ts[1..] == done + ts
  {}

  /** The first of them. */
  lemma {:induction false} FirstRead(ts: seq<Tree>, top: bool, toks: seq<Token>, pos: nat, room: nat)
    requires AllStatements(ts) && ts != [] && Stream(toks) && At(toks, pos, PrintAll(ts)) && Sizes(ts) <= room
    requires Ends(top, toks[pos + |PrintAll(ts)|].kind)
    ensures IsStatement(ts[0]) && AllStatements(ts[1..]) && Sizes(ts) == Size(ts[0]) + Sizes(ts[1..])
    ensures |PrintAll(ts)| == |PrintStmt(ts[0], false)| + |PrintAll(ts[1..])|
    ensures pos < |toks| && toks[pos].kind != TEof && toks[pos].kind != TDedent
    ensures var p := pos + |PrintStmt(ts[0], false)|;
      && p < |toks| && At(toks, p, PrintAll(ts[1..])) && Skip(toks, p) == p
      && Stmt(toks, pos, room) == Ok(ts[0], p, room - Size(ts[0]))
    decreases Sizes(ts), 5
  {
    hide At, Stream, Stmt, PrintAll, PrintStmt, AllStatements, IsStatement, Skip, Size, Sizes, Took, Ends, Head;
    FirstOfAll(ts, toks, pos);
    AllForm(ts);
    AtLeft(toks, pos, PrintStmt(ts[0], false), PrintAll(ts[1..]));
    var p := pos + |PrintStmt(ts[0], false)|;
    NextKind(ts[1..], toks, p, top);
    StmtRead(ts[0], false, toks, pos, room);
    SkipNone(toks, p);
  }

  lemma NoneForm()
    ensures PrintAll([]) == [] && Sizes([]) == 0
  {}

  lemma NextKind(us: seq<Tree>, toks: seq<Token>, p: nat, top: bool)
    requires AllStatements(us) && At(toks, p, PrintAll(us)) && Ends(top, toks[p + |PrintAll(us)|].kind)
    ensures p < |toks| && Follows(toks[p].kind)
  {
    hide At, PrintAll, AllStatements;
    AtBound(toks, p, PrintAll(us));
    if us == [] { NoneForm(); } else { FirstOfAll(us, toks, p); }
  }

  lemma StmtsStep(toks: seq<Token>, pos: nat, top: bool, done: seq<Tree>, room: nat, t: Tree, p: nat, m: nat)
    requires Stream(toks) && pos < |toks| && toks[pos].kind != TEof && toks[pos].kind != TDedent && |done| < MAX_CHILDREN
    requires Stmt(toks, pos, room) == Ok(t, p, m) && p < |toks| && Skip(toks, p) == p
    ensures Stmts(toks, pos, top, done, room) == Stmts(toks, p, top, done + [t], m)
  {
    hide Stmt, Skip, Size, Sizes;
  }

  /** The head expression and the body of a loop or an if. */
  lemma {:induction false} LoopRead(kind: NodeKind, name: string, h: Tree, b: Tree, toks: seq<Token>, pos: nat, room: nat)
    requires IsExpr(h) && IsBlock(b) && Stream(toks) && At(toks, pos, Print(h, 0) + Below(b)) && Size(h) + Size(b) <= room
    ensures Loop(kind, name, toks, pos, room) == Ok(Branch(kind, name, [h, b]), pos + |Print(h, 0) + Below(b)|, room - Size(h) - Size(b))
    decreases Size(b), 3
  {
    hide At, Stream, Size, Print, Parse, Below, IsBlock, IsExpr, Body;
    AtLeft(toks, pos, Print(h, 0), Below(b));
    ColonNext(b, toks, pos + |Print(h, 0)|);
    RoundTrip(h, toks, pos, room);
    BodyRead(b, toks, pos + |Print(h, 0)|, room - Size(h));
  }

  lemma ColonNext(b: Tree, toks: seq<Token>, pos: nat)
    requires IsBlock(b) && At(toks, pos, Below(b))
    ensures pos < |toks| && toks[pos].kind == TColon && Level(TColon) == 7
  {
    hide At, PrintBlock, IsBlock;
    AtKind(toks, pos, Below(b), 0);
  }

  /** One statement, before anything that cannot belong to it. */
  lemma {:induction false} StmtRead(t: Tree, elif: bool, toks: seq<Token>, pos: nat, room: nat)
    requires IsStatement(t) && (elif ==> t.kind == NIf) && Stream(toks) && At(toks, pos, PrintStmt(t, elif)) && Size(t) <= room
    requires Follows(toks[pos + |PrintStmt(t, elif)|].kind)
    ensures Stmt(toks, pos, room) == Ok(t, pos + |PrintStmt(t, elif)|, room - Size(t))
    decreases Size(t), 3
  {
    hide At, Stream, Size, IsStatement, PrintStmt, Stmt, Follows;
    if t.kind == NWhile {
      WhileRead(t, toks, pos, room);
    } else if t.kind == NFor {
      ForRead(t, toks, pos, room);
    } else if t.kind == NDef {
      DefRead(t, toks, pos, room);
    } else if t.kind == NIf {
      IfRead(t, elif, toks, pos, room);
    } else {
      SimpleForm(t, elif);
      SimpleRead(t, toks, pos, room);
    }
  }

  lemma SimpleForm(t: Tree, elif: bool)
    requires IsStatement(t) && !Compound(t.kind)
    ensures PrintStmt(t, elif) == Head(t, false) + [NL]
  {
    hide IsStatement, Print;
  }

  lemma {:induction false} WhileRead(t: Tree, toks: seq<Token>, pos: nat, room: nat)
    requires IsStatement(t) && t.kind == NWhile && Stream(toks) && At(toks, pos, PrintStmt(t, false)) && Size(t) <= room
    ensures Stmt(toks, pos, room) == Ok(t, pos + |PrintStmt(t, false)|, room - Size(t))
    decreases Size(t), 2
  {
    hide At, Stream, Size, IsStatement, PrintStmt, Print, IsBlock, IsExpr, Below, Loop, Stmt, Head;
    LoopForm(t);
    var h, b := t.children[0], t.children[1];
    AtLeft(toks, pos, [Tok(TWhile)], Print(h, 0) + Below(b));
    AtKind(toks, pos, [Tok(TWhile)], 0);
    LoopRead(NWhile, "", h, b, toks, pos + 1, room - 1);
    IsWhile(toks, pos, room);
  }

  lemma IsWhile(toks: seq<Token>, pos: nat, room: nat)
    requires Stream(toks) && pos + 1 < |toks| && toks[pos].kind == TWhile && room > 0
    ensures Stmt(toks, pos, room) == Loop(NWhile, "", toks, pos + 1, room - 1)
  {
    hide Loop;
  }

  /** The tokens and the size of a loop. */
  lemma LoopForm(t: Tree)
    requires IsStatement(t) && (t.kind == NWhile || t.kind == NFor)
    ensures |t.children| == 2 && IsExpr(t.children[0]) && IsBlock(t.children[1]) && t == Branch(t.kind, t.text, t.children)
    ensures t.children == [t.children[0], t.children[1]] && (t.kind == NWhile ==> t.text == "")
    ensures Size(t) == 1 + Size(t.children[0]) + Size(t.children[1])
    ensures PrintStmt(t, false)
         == (if t.kind == NWhile then [Tok(TWhile)] else [Tok(TFor), Ident(t.text), Tok(TIn)]) + (Print(t.children[0], 0) + Below(t.children[1]))
  {
    hide Print, IsBlock, IsExpr, PrintBlock, Below, Sizes;
    SizesPair(t.children[0], t.children[1]);
    assert t.children == [t.children[0], t.children[1]];
    var first := if t.kind == NWhile then [Tok(TWhile)] else [Tok(TFor), Ident(t.text), Tok(TIn)];
    HeadedForm(first, Print(t.children[0], 0), t.children[1], []);
  }

  lemma {:induction false} ForRead(t: Tree, toks: seq<Token>, pos: nat, room: nat)
    requires IsStatement(t) && t.kind == NFor && Stream(toks) && At(toks, pos, PrintStmt(t, false)) && Size(t) <= room
    ensures Stmt(toks, pos, room) == Ok(t, pos + |PrintStmt(t, false)|, room - Size(t))
    decreases Size(t), 2
  {
    hide At, Stream, Size, IsStatement, PrintStmt, Print, IsBlock, IsExpr, Below, Loop, Stmt, Head;
    LoopForm(t);
    var h, b := t.children[0], t.children[1];
    var first := [Tok(TFor), Ident(t.text), Tok(TIn)];
    AtLeft(toks, pos, first, Print(h, 0) + Below(b));
    AtKind(toks, pos, first, 0);
    AtKind(toks, pos, first, 1);
    AtKind(toks, pos, first, 2);
    LoopRead(NFor, t.text, h, b, toks, pos + 3, room - 1);
    IsFor(toks, pos, room);
  }

  lemma IsFor(toks: seq<Token>, pos: nat, room: nat)
    requires Stream(toks) && pos + 3 < |toks| && toks[pos].kind == TFor && toks[pos + 1].kind == TIdent && toks[pos + 2].kind == TIn && room > 0
    ensures Stmt(toks, pos, room) == Loop(NFor, toks[pos + 1].text, toks, pos + 3, room - 1)
  {
    hide Loop;
  }

  // ----- definitions -----

  lemma {:induction false} ParamsRead(done: seq<Tree>, ts: seq<Tree>, toks: seq<Token>, pos: nat, room: nat)
    requires AllParams(ts) && Stream(toks) && At(toks, pos, PrintParams(ts)) && Sizes(ts) <= room
    requires toks[pos + |PrintParams(ts)|].kind == TRparen
    ensures Params(toks, pos, done, room) == Ok(done + ts, pos + |PrintParams(ts)|, room - Sizes(ts))
    decreases |ts|
  {
    hide At, Stream, PrintParams, Params, Sizes, AllParams;
    AtBound(toks, pos, PrintParams(ts));
    ParamsForm(ts);
    if ts == [] {
      assert done + ts == done;
      ParamsEnd(toks, pos, done, room);
    } else if |ts| == 1 {
      AtKind(toks, pos, PrintParams(ts), 0);
      assert done + ts == done + [ts[0]];
      ParamsStep(toks, pos, done, room, ts[0]);
    } else {
      var us := ts[1..];
      var first := [Ident(ts[0].text), Tok(TComma)];
      AtLeft(toks, pos, first, PrintParams(us));
      AtKind(toks, pos, first, 0);
      AtKind(toks, pos, first, 1);
      ParamsStep(toks, pos, done, room, ts[0]);
      ParamsRead(done + [ts[0]], us, toks, pos + 2, room - 1);
      assert done + [ts[0]] + us == done + ts;
    }
  }

  lemma ParamsForm(ts: seq<Tree>)
    requires AllParams(ts)
    ensures ts == [] ==> PrintParams(ts) == [] && Sizes(ts) == 0
    ensures ts != [] ==> Sizes(ts) == 1 + Sizes(ts[1..]) && ts[0] == Leaf(NVar, 0, ts[0].text) && AllParams(ts[1..])
    ensures |ts| == 1 ==> PrintParams(ts) == [Ident(ts[0].text)] && Sizes(ts) == 1
    ensures |ts| > 1 ==> PrintParams(ts) == [Ident(ts[0].text), Tok(TComma)] + PrintParams(ts[1..])
  {
    hide Sizes, Size;
    ParamSizes(ts);
  }

  lemma ParamSizes(ts: seq<Tree>)
    requires AllParams(ts)
    ensures if ts == [] then Sizes(ts) == 0 else Sizes(ts) == 1 + Sizes(ts[1..])
    ensures |ts| == 1 ==> Sizes(ts) == 1
  {
    if ts != [] { assert Size(ts[0]) == 1; }
  }

  lemma ParamsEnd(toks: seq<Token>, pos: nat, done: seq<Tree>, room: nat)
    requires Stream(toks) && pos < |toks| && toks[pos].kind == TRparen
    ensures Params(toks, pos, done, room) == Ok(done, pos, room)
  {}

  lemma ParamsStep(toks: seq<Token>, pos: nat, done: seq<Tree>, room: nat, v: Tree)
    requires Stream(toks) && pos + 1 < |toks| && toks[pos].kind == TIdent && v == Leaf(NVar, 0, toks[pos].text) && room > 0
    requires toks[pos + 1].kind == TComma ==> pos + 2 < |toks|
    ensures Params(toks, pos, done, room)
         == if toks[pos + 1].kind == TComma then Params(toks, pos + 2, done + [v], room - 1) else Ok(done + [v], pos + 1, room - 1)
  {
    hide Sizes;
  }

  lemma DefForm(t: Tree)
    requires IsStatement(t) && t.kind == NDef
    ensures var n := |t.children| - 1;
      && n >= 0 && AllParams(t.children[..n]) && IsBlock(t.children[n]) && t == Branch(NDef, t.text, t.children[..n] + [t.children[n]])
      && Size(t) == 1 + Sizes(t.children[..n]) + Size(t.children[n])
      && PrintStmt(t, false) == [Tok(TDef), Ident(t.text), Tok(TLparen)] + ((PrintParams(t.children[..n]) + [Tok(TRparen)]) + Below(t.children[n]))
  {
    hide IsBlock, PrintBlock, Below, Sizes, PrintParams, AllParams;
    var n := |t.children| - 1;
    var ps, b := t.children[..n], t.children[n];
    assert t.children == ps + [b];
    SizesSnoc(ps, b);
    assert PrintParams(ps) + [Tok(TRparen), Tok(TColon)] == (PrintParams(ps) + [Tok(TRparen)]) + [Tok(TColon)];
    HeadedForm([Tok(TDef), Ident(t.text), Tok(TLparen)], PrintParams(ps) + [Tok(TRparen)], b, []);
  }

  lemma {:induction false} DefRead(t: Tree, toks: seq<Token>, pos: nat, room: nat)
    requires IsStatement(t) && t.kind == NDef && Stream(toks) && At(toks, pos, PrintStmt(t, false)) && Size(t) <= room
    ensures Stmt(toks, pos, room) == Ok(t, pos + |PrintStmt(t, false)|, room - Size(t))
    decreases Size(t), 2
  {
    hide At, Stream, Size, Sizes, IsStatement, PrintStmt, PrintParams, IsBlock, Below, Body, Stmt, AllParams, Params;
    DefForm(t);
    var n := |t.children| - 1;
    var ps, b := t.children[..n], t.children[n];
    var first, s := [Tok(TDef), Ident(t.text), Tok(TLparen)], PrintParams(ps);
    AtLeft(toks, pos, first, (s + [Tok(TRparen)]) + Below(b));
    AtLeft(toks, pos + 3, s + [Tok(TRparen)], Below(b));
    AtLeft(toks, pos + 3, s, [Tok(TRparen)]);
    AtKind(toks, pos, first, 0);
    AtKind(toks, pos, first, 1);
    AtKind(toks, pos, first, 2);
    AtKind(toks, pos + 3 + |s|, [Tok(TRparen)], 0);
    ParamsRead([], ps, toks, pos + 3, room - 1);
    assert [] + ps == ps;
    BodyRead(b, toks, pos + 3 + |s| + 1, room - 1 - Sizes(ps));
    IsDef(toks, pos, room, ps, pos + 3 + |s|, room - 1 - Sizes(ps));
  }

  lemma IsDef(toks: seq<Token>, pos: nat, room: nat, ps: seq<Tree>, p: nat, m: nat)
    requires Stream(toks) && pos + 3 < |toks| && p + 1 < |toks| && room > 0 && toks[p].kind == TRparen
    requires toks[pos].kind == TDef && toks[pos + 1].kind == TIdent && toks[pos + 2].kind == TLparen
    requires Params(toks, pos + 3, [], room - 1) == Ok(ps, p, m) && pos < p
    ensures Stmt(toks, pos, room)
         == match Body(toks, p + 1, m)
            case Fail => Fail
            case Ok(body, q, m') => Ok(Branch(NDef, toks[pos + 1].text, ps + [body]), q, m')
  {
    hide Params, Body, Size, Sizes, Took, TookAll;
    SignatureIs(toks, pos + 2, room - 1, ps, p, m);
    IsDefinition(toks, pos, room);
  }

  lemma SignatureIs(toks: seq<Token>, pos: nat, room: nat, ps: seq<Tree>, p: nat, m: nat)
    requires Stream(toks) && pos + 1 < |toks| && p + 1 < |toks| && toks[pos].kind == TLparen && toks[p].kind == TRparen
    requires Params(toks, pos + 1, [], room) == Ok(ps, p, m)
    ensures Signature(toks, pos, room) == Ok(ps, p + 1, m)
  {
    hide Params, Sizes;
  }

  lemma IsDefinition(toks: seq<Token>, pos: nat, room: nat)
    requires Stream(toks) && pos + 2 < |toks| && toks[pos].kind == TDef
    ensures Stmt(toks, pos, room) == Def(toks, pos, room)
  {
    hide Def;
  }

  // ----- if, elif, else -----

  lemma IfForm(t: Tree, elif: bool)
    requires IsStatement(t) && t.kind == NIf
    ensures 2 <= |t.children| <= 3 && IsExpr(t.children[0]) && IsBlock(t.children[1]) && t == Branch(NIf, "", t.children)
    ensures |t.children| == 3 ==> IsElse(t.children[2]) && PrintRest(t) == PrintElse(t.children[2])
    ensures |t.children| == 2 ==> PrintRest(t) == []
    ensures Size(t) == 1 + Size(t.children[0]) + Size(t.children[1]) + if |t.children| == 3 then Size(t.children[2]) else 0
    ensures PrintStmt(t, elif) == ([Tok(if elif then TElif else TIf)] + (Print(t.children[0], 0) + Below(t.children[1]))) + PrintRest(t)
  {
    hide Print, IsBlock, IsExpr, PrintBlock, Below, Sizes, IsElse, PrintElse;
    var c, b := t.children[0], t.children[1];
    SizesPair(c, b);
    if |t.children| == 3 {
      SizesSnoc([c, b], t.children[2]);
      assert t.children == [c, b] + [t.children[2]];
    } else {
      assert t.children == [c, b];
    }
    HeadedForm([Tok(if elif then TElif else TIf)], Print(c, 0), b, PrintRest(t));
  }

  lemma {:induction false} IfRead(t: Tree, elif: bool, toks: seq<Token>, pos: nat, room: nat)
    requires IsStatement(t) && t.kind == NIf && Stream(toks) && At(toks, pos, PrintStmt(t, elif)) && Size(t) <= room
    requires Follows(toks[pos + |PrintStmt(t, elif)|].kind)
    ensures Stmt(toks, pos, room) == Ok(t, pos + |PrintStmt(t, elif)|, room - Size(t))
    decreases Size(t), 2
  {
    hide At, Stream, Size, IsStatement, PrintStmt, Print, IsBlock, IsExpr, IsElse, Below, Loop, Stmt, PrintRest, PrintElse, Else, Follows, Head;
    IfForm(t, elif);
    var c, b, k := t.children[0], t.children[1], if elif then TElif else TIf;
    var s := Print(c, 0) + Below(b);
    AtLeft(toks, pos, [Tok(k)] + s, PrintRest(t));
    AtLeft(toks, pos, [Tok(k)], s);
    AtKind(toks, pos, [Tok(k)], 0);
    AtBound(toks, pos + 1, s);
    LoopRead(NIf, "", c, b, toks, pos + 1, room - 1);
    var p, m := pos + 1 + |s|, room - 1 - Size(c) - Size(b);
    RestRead(t, toks, p, m);
    IsIf(toks, pos, room, c, b, p, m);
    FirstTwo(t.children);
  }

  lemma FirstTwo(ts: seq<Tree>)
    requires |ts| >= 2
    ensures ts == [ts[0], ts[1]] + ts[2..]
  {}

  lemma IsIf(toks: seq<Token>, pos: nat, room: nat, c: Tree, b: Tree, p: nat, m: nat)
    requires Stream(toks) && pos + 1 < |toks| && (toks[pos].kind == TIf || toks[pos].kind == TElif) && room > 0 && pos < p < |toks|
    requires Loop(NIf, "", toks, pos + 1, room - 1) == Ok(Branch(NIf, "", [c, b]), p, m)
    ensures Stmt(toks, pos, room)
         == match Else(toks, Skip(toks, p), m)
            case Fail => Fail
            case Ok(rest, q, m') => Ok(Branch(NIf, "", [c, b] + rest), q, m')
  {
    hide Loop, Else, Skip, Size, Sizes;
  }

  /** What follows the first block of an if. */
  lemma {:induction false} RestRead(t: Tree, toks: seq<Token>, p: nat, m: nat)
    requires IsStatement(t) && t.kind == NIf && 2 <= |t.children| <= 3 && Stream(toks) && At(toks, p, PrintRest(t))
    requires (if |t.children| == 3 then Size(t.children[2]) else 0) <= m && Follows(toks[p + |PrintRest(t)|].kind)
    ensures p < |toks| && Else(toks, Skip(toks, p), m)
         == Ok(t.children[2..], p + |PrintRest(t)|, m - if |t.children| == 3 then Size(t.children[2]) else 0)
    decreases Size(t), 1
  {
    hide At, Stream, Size, IsStatement, PrintStmt, Skip, Else, PrintRest, PrintElse, IsElse, Head;
    AtBound(toks, p, PrintRest(t));
    IfForm(t, false);
    if |t.children| == 2 {
      SkipNone(toks, p);
      NoElse(toks, p, m);
      assert t.children[2..] == [];
    } else {
      ElseRead(t.children[2], toks, p, m);
      assert t.children[2..] == [t.children[2]];
    }
  }

  lemma NoElse(toks: seq<Token>, p: nat, m: nat)
    requires Stream(toks) && p < |toks| && toks[p].kind != TElif && toks[p].kind != TElse
    ensures Else(toks, p, m) == Ok([], p, m)
  {
    hide Stmt, Body;
  }

  lemma {:induction false} ElseRead(u: Tree, toks: seq<Token>, p: nat, m: nat)
    requires IsElse(u) && Stream(toks) && At(toks, p, PrintElse(u)) && Size(u) <= m && Follows(toks[p + |PrintElse(u)|].kind)
    ensures p < |toks| && Else(toks, Skip(toks, p), m) == Ok([u], p + |PrintElse(u)|, m - Size(u))
    decreases Size(u), 4
  {
    hide At, Stream, Size, IsStatement, PrintStmt, Skip, Else, IsBlock, Below, Stmt, Body, Follows, Head;
    ElseForm(u);
    AtKind(toks, p, PrintElse(u), 0);
    SkipNone(toks, p);
    ElseIs(toks, p, m);
    if u.kind == NIf {
      StmtRead(u, true, toks, p, m);
    } else {
      AtLeft(toks, p, [Tok(TElse)], Below(u));
      BodyRead(u, toks, p + 1, m);
    }
  }

  lemma ElseForm(u: Tree)
    requires IsElse(u)
    ensures PrintElse(u) != [] && PrintElse(u)[0].kind == if u.kind == NIf then TElif else TElse
    ensures u.kind != NIf ==> PrintElse(u) == [Tok(TElse)] + Below(u)
  {
    hide PrintBlock, IsBlock, Print;
  }

  lemma ElseIs(toks: seq<Token>, p: nat, m: nat)
    requires Stream(toks) && p + 1 < |toks| && (toks[p].kind == TElif || toks[p].kind == TElse)
    ensures Else(toks, p, m)
         == match (if toks[p].kind == TElif then Stmt(toks, p, m) else Body(toks, p + 1, m))
            case Fail => Fail
            case Ok(t, q, k) => Ok([t], q, k)
  {
    hide Stmt, Body, Size;
  }

  // ----- programs -----

  /** Every program is what its printed tokens parse to. */
  lemma ProgramRead(ts: seq<Tree>, toks: seq<Token>)
    requires AllStatements(ts) && |ts| <= MAX_CHILDREN && Sizes(ts) < MAX_NODES && Stream(toks)
    requires At(toks, 0, PrintAll(ts)) && |toks| == |PrintAll(ts)| + 1
    ensures Program(toks) == Ok(Branch(NBlock, "", ts), |PrintAll(ts)|, MAX_NODES - 1 - Sizes(ts))
  {
    hide At, Stmts, PrintAll, AllStatements, Skip, Sizes;
    if ts == [] { NoneForm(); } else { FirstOfAll(ts, toks, 0); }
    SkipNone(toks, 0);
    StmtsRead([], ts, true, toks, 0, MAX_NODES - 1);
    assert [] + ts == ts;
  }
}
