/** Every program the parser accepts is one of the trees that can be printed, and has the shape the interpreter's theorems
    ask for. */
module GkShapes {
  import opened GkSyntax
  import opened GkGrammar
  import opened GkRoundTrip
  import opened GkStatements
  import opened GkAgreement
  import opened GkScopes

  // ----- what is accepted is a statement -----

  predicate StatementRes(r: Res<Tree>) {
    r.Ok? ==> IsStatement(r.value)
  }

  lemma {:induction false} StmtParsed(toks: seq<Token>, pos: nat, room: nat)
    requires Stream(toks) && pos < |toks|
    ensures StatementRes(Stmt(toks, pos, room))
    ensures toks[pos].kind == TElif && Stmt(toks, pos, room).Ok? ==> Stmt(toks, pos, room).value.kind == NIf
    decreases |toks| - pos, 4
  {
    hide Return, Jump, Def, If, Loop, For, Assign, ExprStmt, IsStatement;
    var k := toks[pos].kind;
    if k == TReturn {
      ReturnParsed(toks, pos, room);
    } else if k == TBreak || k == TContinue {
      JumpParsed(if k == TBreak then NBreak else NContinue, toks, pos, room);
    } else if k == TDef {
      DefParsed(toks, pos, room);
    } else if k == TIf || k == TElif {
      IfParsed(toks, pos, room);
    } else if k == TWhile {
      if room > 0 { LoopParsed(NWhile, "", toks, pos + 1, room - 1); }
    } else if k == TFor {
      ForParsed(toks, pos, room);
    } else if k == TIdent && toks[pos + 1].kind == TAssign {
      OneParsed(NAssign, toks[pos].text, toks, pos + 2, room);
      AssignIsOne(toks, pos, room);
    } else {
      ExprStmtParsed(toks, pos, room);
    }
  }

  lemma AssignIsOne(toks: seq<Token>, pos: nat, room: nat)
    requires Stream(toks) && pos + 2 < |toks|
    ensures Assign(toks, pos, room) == One(NAssign, toks[pos].text, toks, pos + 2, room)
  {
    hide One;
  }

  lemma JumpParsed(kind: NodeKind, toks: seq<Token>, pos: nat, room: nat)
    requires Stream(toks) && pos + 1 < |toks| && (kind == NBreak || kind == NContinue || kind == NReturn)
    ensures StatementRes(Jump(kind, toks, pos, room))
  {
    hide GkGrammar.Past;
  }

  lemma OneParsed(kind: NodeKind, name: string, toks: seq<Token>, pos: nat, room: nat)
    requires Stream(toks) && pos < |toks| && (kind == NAssign || (kind == NReturn && name == ""))
    ensures StatementRes(One(kind, name, toks, pos, room))
  {
    hide Parse, IsExpr, GkGrammar.Past, Size;
    if room > 0 {
      ParsedIsExpr(toks, pos, 0, room - 1);
      var r := Parse(toks, pos, 0, room - 1);
      if r.Ok? {
        assert AllExprs([r.value]) by { assert [r.value][1..] == []; }
      }
    }
  }

  lemma ReturnParsed(toks: seq<Token>, pos: nat, room: nat)
    requires Stream(toks) && pos + 1 < |toks|
    ensures StatementRes(Return(toks, pos, room))
  {
    hide One, Jump, IsStatement;
    OneParsed(NReturn, "", toks, pos + 1, room);
    JumpParsed(NReturn, toks, pos, room);
  }

  lemma ExprStmtParsed(toks: seq<Token>, pos: nat, room: nat)
    requires Stream(toks) && pos < |toks|
    ensures StatementRes(ExprStmt(toks, pos, room))
  {
    hide Parse, GkGrammar.Past, IsExpr, IsStatement;
    ParsedIsExpr(toks, pos, 0, room);
    var r := Parse(toks, pos, 0, room);
    if r.Ok? { ExprIsStatement(r.value); }
  }

  lemma ExprIsStatement(t: Tree)
    requires IsExpr(t)
    ensures IsStatement(t)
  {
    hide AllExprs;
  }

  lemma {:induction false} LoopParsed(kind: NodeKind, name: string, toks: seq<Token>, pos: nat, room: nat)
    requires Stream(toks) && pos < |toks| && (kind == NFor || ((kind == NWhile || kind == NIf) && name == ""))
    ensures var r := Loop(kind, name, toks, pos, room);
            && StatementRes(r)
            && (r.Ok? ==> pos < r.pos < |toks| && r.value.kind == kind && |r.value.children| == 2)
    decreases |toks| - pos, 4
  {
    hide Parse, Body, IsExpr, IsStatement, Size, IsBlock;
    ParsedIsExpr(toks, pos, 0, room);
    var head := Parse(toks, pos, 0, room);
    if head.Ok? {
      BodyParsed(toks, head.pos, head.room);
      var body := Body(toks, head.pos, head.room);
      if body.Ok? { PairIsStatement(kind, name, head.value, body.value); }
    }
  }

  lemma PairIsStatement(kind: NodeKind, name: string, head: Tree, body: Tree)
    requires IsExpr(head) && IsBlock(body) && (kind == NFor || ((kind == NWhile || kind == NIf) && name == ""))
    ensures IsStatement(Branch(kind, name, [head, body]))
  {
    hide IsExpr, IsBlock;
  }

  lemma {:induction false} ForParsed(toks: seq<Token>, pos: nat, room: nat)
    requires Stream(toks) && pos + 1 < |toks|
    ensures StatementRes(For(toks, pos, room))
    decreases |toks| - pos, 3
  {
    hide Loop, IsStatement;
    if toks[pos + 1].kind == TIdent && toks[pos + 2].kind == TIn && room > 0 {
      LoopParsed(NFor, toks[pos + 1].text, toks, pos + 3, room - 1);
    }
  }

  lemma {:induction false} DefParsed(toks: seq<Token>, pos: nat, room: nat)
    requires Stream(toks) && pos + 1 < |toks|
    ensures StatementRes(Def(toks, pos, room))
    decreases |toks| - pos, 3
  {
    hide Signature, Body, IsStatement, Size, Sizes, IsBlock;
    if toks[pos + 1].kind == TIdent && room > 0 {
      SignatureParsed(toks, pos + 2, room - 1);
      var sig := Signature(toks, pos + 2, room - 1);
      if sig.Ok? {
        BodyParsed(toks, sig.pos, sig.room);
        var body := Body(toks, sig.pos, sig.room);
        if body.Ok? { DefIsStatement(toks[pos + 1].text, sig.value, body.value); }
      }
    }
  }

  lemma SignatureParsed(toks: seq<Token>, pos: nat, room: nat)
    requires Stream(toks) && pos < |toks|
    ensures var r := Signature(toks, pos, room); r.Ok? ==> AllParams(r.value)
  {
    hide Params, Sizes;
    if toks[pos].kind == TLparen { ParamsParsed(toks, pos + 1, [], room); }
  }

  lemma {:induction false} ParamsParsed(toks: seq<Token>, pos: nat, done: seq<Tree>, room: nat)
    requires Stream(toks) && pos < |toks| && AllParams(done)
    ensures var r := Params(toks, pos, done, room); r.Ok? ==> AllParams(r.value)
    decreases |toks| - pos
  {
    hide Sizes;
    if toks[pos].kind == TIdent && room > 0 && toks[pos + 1].kind == TComma {
      ParamsParsed(toks, pos + 2, done + [Leaf(NVar, 0, toks[pos].text)], room - 1);
    }
  }

  lemma DefIsStatement(name: string, params: seq<Tree>, body: Tree)
    requires AllParams(params) && IsBlock(body)
    ensures IsStatement(Branch(NDef, name, params + [body]))
  {
    hide IsBlock;
    assert (params + [body])[|params|] == body && (params + [body])[..|params|] == params;
  }

  lemma {:induction false} IfParsed(toks: seq<Token>, pos: nat, room: nat)
    requires Stream(toks) && pos + 1 < |toks|
    ensures var r := If(toks, pos, room); StatementRes(r) && (r.Ok? ==> r.value.kind == NIf)
    decreases |toks| - pos, 3
  {
    hide Loop, Else, IsStatement, Skip, Size, Sizes, IsElse;
    if room > 0 {
      LoopParsed(NIf, "", toks, pos + 1, room - 1);
      var head := Loop(NIf, "", toks, pos + 1, room - 1);
      if head.Ok? {
        ElseParsed(toks, Skip(toks, head.pos), head.room);
        var rest := Else(toks, Skip(toks, head.pos), head.room);
        if rest.Ok? { IfIsStatement(head.value, rest.value); }
      }
    }
  }

  lemma IfIsStatement(t: Tree, rest: seq<Tree>)
    requires IsStatement(t) && t.kind == NIf && |t.children| == 2 && |rest| <= 1 && (rest != [] ==> IsElse(rest[0]))
    ensures IsStatement(t.(children := t.children + rest))
  {
    hide IsElse, IsBlock, IsExpr;
    var u := t.(children := t.children + rest);
    assert u.children[0] == t.children[0] && u.children[1] == t.children[1];
    if rest != [] { assert u.children[2] == rest[0]; }
  }

  lemma {:induction false} ElseParsed(toks: seq<Token>, pos: nat, room: nat)
    requires Stream(toks) && pos < |toks|
    ensures var r := Else(toks, pos, room); r.Ok? && r.value != [] ==> IsElse(r.value[0])
    decreases |toks| - pos, 5
  {
    hide Stmt, Body, Size, IsStatement, IsBlock;
    if toks[pos].kind == TElif {
      StmtParsed(toks, pos, room);
    } else if toks[pos].kind == TElse {
      BodyParsed(toks, pos + 1, room);
      BlockKinds();
    }
  }

  lemma BlockKinds()
    ensures forall b :: IsBlock(b) ==> b.kind == NBlock
  {}

  lemma {:induction false} BodyParsed(toks: seq<Token>, pos: nat, room: nat)
    requires Stream(toks) && pos < |toks|
    ensures var r := Body(toks, pos, room); r.Ok? ==> IsBlock(r.value)
    decreases |toks| - pos, 2
  {
    hide Stmts, Skip, Size, GkGrammar.Past, AllStatements;
    if toks[pos].kind == TColon {
      var p := GkGrammar.Past(toks, pos + 1, TNewline);
      if toks[p].kind == TIndent && room > 0 {
        StmtsParsed(toks, Skip(toks, p + 1), false, [], room - 1);
      }
    }
  }

  lemma {:induction false} StmtsParsed(toks: seq<Token>, pos: nat, top: bool, done: seq<Tree>, room: nat)
    requires Stream(toks) && pos < |toks| && |done| <= MAX_CHILDREN
    ensures var r := Stmts(toks, pos, top, done, room);
            r.Ok? && AllStatements(done) ==> AllStatements(r.value) && |r.value| <= MAX_CHILDREN
    ensures AllStatements([])
    decreases |toks| - pos, 5
  {
    hide Stmt, IsStatement, Skip, Size, Sizes;
    if toks[pos].kind != TEof && (top || toks[pos].kind != TDedent) {
      StmtParsed(toks, pos, room);
      var r := Stmt(toks, pos, room);
      if r.Ok? && |done| < MAX_CHILDREN {
        AllStatementsSnoc(done, r.value);
        StmtsParsed(toks, Skip(toks, r.pos), top, done + [r.value], r.room);
      }
    }
  }

  lemma {:induction false} AllStatementsSnoc(ts: seq<Tree>, t: Tree)
    requires IsStatement(t)
    ensures AllStatements(ts) ==> AllStatements(ts + [t])
  {
    hide IsStatement;
    if ts == [] {
      assert (ts + [t])[1..] == [];
    } else {
      assert (ts + [t])[1..] == ts[1..] + [t];
      AllStatementsSnoc(ts[1..], t);
    }
  }

  /** What gk_parse accepts is a block of statements that can be printed. */
  lemma ProgramParsed(toks: seq<Token>)
    requires Stream(toks)
    ensures var r := Program(toks);
            r.Ok? ==> r.value == Branch(NBlock, "", r.value.children) && AllStatements(r.value.children) && |r.value.children| <= MAX_CHILDREN
  {
    hide Stmts, Skip, AllStatements;
    StmtsParsed(toks, Skip(toks, 0), true, [], MAX_NODES - 1);
  }

  // ----- and a statement has the interpreter's shape -----

  lemma {:induction false} StatementShaped(t: Tree)
    requires IsStatement(t)
    ensures Shaped(t)
    decreases t, 1
  {
    hide IsExpr, AllExprs, IsBlock, IsElse, AllParams;
    if Compound(t.kind) {
      var b := if t.kind == NDef then t.children[|t.children| - 1] else t.children[1];
      BlockShaped(b);
      if t.kind == NIf && |t.children| == 3 { ElseShaped(t.children[2]); }
    } else if t.kind != NReturn && t.kind != NAssign && t.kind != NBreak && t.kind != NContinue {
      ExprShaped(t);
    }
  }

  lemma {:induction false} ElseShaped(t: Tree)
    requires IsElse(t)
    ensures Shaped(t)
    decreases t, 2
  {
    hide IsStatement, IsBlock, Shaped;
    if t.kind == NIf { StatementShaped(t); } else { BlockShaped(t); }
  }

  lemma {:induction false} BlockShaped(t: Tree)
    requires IsBlock(t)
    ensures Shaped(t)
    decreases t, 0
  {
    hide AllStatements, IsExpr, AllStmts;
    AllShaped(t.children);
  }

  lemma {:induction false} AllShaped(ts: seq<Tree>)
    requires AllStatements(ts)
    ensures AllStmts(ts, true, false)
    decreases ts
  {
    hide IsStatement, IsStmt;
    if ts != [] {
      StatementShaped(ts[0]);
      AllShaped(ts[1..]);
    }
  }

  /** What gk_parse accepts is a block of well-formed statements. */
  lemma ProgramShaped(toks: seq<Token>)
    requires Stream(toks)
    ensures var r := Program(toks); r.Ok? ==> Shaped(r.value)
  {
    hide Program, AllStatements, IsStatement, Shaped;
    ProgramParsed(toks);
    var r := Program(toks);
    if r.Ok? { BlockShaped(r.value); }
  }
}
