/** Printing expressions with as few parentheses as possible, and that parsing undoes it. */
module GkRoundTrip {
  import opened GkSyntax

  function Tok(k: Kind): Token {
    Token(k, 0, "")
  }

  predicate IsCall(t: Tree) {
    t.kind == CallKind(t.text) && t == Branch(t.kind, t.text, t.children) && |t.children| <= 64
  }

  predicate IsLeaf(t: Tree) {
    || (t.kind == NInt && t == Leaf(NInt, t.intVal, ""))
    || (t.kind == NStr && t == Leaf(NStr, 0, t.text))
    || (t.kind == NBool && t == Leaf(NBool, t.intVal, "") && (t.intVal == 0 || t.intVal == 1))
    || (t.kind == NVar && t == Leaf(NVar, 0, t.text))
  }

  /** The trees that expressions parse to. */
  predicate IsExpr(t: Tree) {
    if t.kind == NBinop then |t.children| == 2 && t == Binop(t.op, t.children[0], t.children[1]) && Level(t.op) < 5 && AllExprs(t.children)
    else if t.kind == NUnop then |t.children| == 1 && t == Unop(t.op, t.children[0]) && (t.op == TMinus || t.op == TNot) && AllExprs(t.children)
    else IsLeaf(t) || (IsCall(t) && AllExprs(t.children))
  }

  predicate AllExprs(ts: seq<Tree>) {
    ts == [] || (IsExpr(ts[0]) && AllExprs(ts[1..]))
  }

  lemma AllExprsPair(ts: seq<Tree>)
    requires AllExprs(ts) && |ts| == 2
    ensures IsExpr(ts[0]) && IsExpr(ts[1])
  {
    hide IsExpr;
    assert AllExprs(ts[1..]);
  }

  /** The loosest level at which the tree needs no parentheses. */
  function TreeLevel(t: Tree): nat {
    if t.kind == NBinop then Level(t.op) else if t.kind == NUnop then 5 else 6
  }

  function LeafToken(t: Tree): Token
    requires IsLeaf(t)
  {
    match t.kind
    case NInt => Token(TInt, t.intVal, "")
    case NStr => Token(TStr, 0, t.text)
    case NBool => Tok(if t.intVal == 1 then TTrue else TFalse)
    case _ => Token(TIdent, 0, t.text)
  }

  /** The minimally parenthesised form, in a place that binds at `level`. */
  function Print(t: Tree, level: nat): (s: seq<Token>)
    requires IsExpr(t)
    ensures |s| >= 1 && (TreeLevel(t) < level ==> |s| >= 3)
    decreases t, 1
  {
    if TreeLevel(t) < level then [Tok(TLparen)] + Bare(t) + [Tok(TRparen)] else Bare(t)
  }

  function Bare(t: Tree): (s: seq<Token>)
    requires IsExpr(t)
    ensures |s| >= 1
    decreases t, 0
  {
    if t.kind == NBinop then
      assert IsExpr(t.children[0]) && IsExpr(t.children[1]) by { AllExprsPair(t.children); }
      Print(t.children[0], Level(t.op)) + [Tok(t.op)] + Print(t.children[1], Level(t.op) + 1)
    else if t.kind == NUnop then
      assert AllExprs(t.children);
      [Tok(t.op)] + Print(t.children[0], 5)
    else if IsLeaf(t) then [LeafToken(t)]
    else [Token(TIdent, 0, t.text), Tok(TLparen)] + PrintArgs(t.children) + [Tok(TRparen)]
  }

  function PrintArgs(ts: seq<Tree>): seq<Token>
    requires AllExprs(ts)
    decreases ts
  {
    if ts == [] then [] else
      Print(ts[0], 0) + if |ts| == 1 then [] else [Tok(TComma)] + PrintArgs(ts[1..])
  }

  // ----- places in the token stream -----

  /** The same token as far as the parser looks: the value of a number, the text of a string or a name. Keywords carry
      their spelling as text, which no one reads. */
  predicate Alike(a: Token, b: Token) {
    && a.kind == b.kind
    && (a.kind == TInt ==> a.intVal == b.intVal)
    && (a.kind == TStr || a.kind == TIdent ==> a.text == b.text)
  }

  /** s stands in toks at pos, with at least one token after it. */
  predicate At(toks: seq<Token>, pos: nat, s: seq<Token>) {
    pos + |s| < |toks| && forall i :: 0 <= i < |s| ==> Alike(toks[pos + i], s[i])
  }

  lemma AtSplit(toks: seq<Token>, pos: nat, a: seq<Token>, b: seq<Token>)
    requires At(toks, pos, a + b)
    ensures (b != [] ==> At(toks, pos, a)) && At(toks, pos + |a|, b) && (a != [] ==> Alike(toks[pos], a[0]))
    ensures b != [] ==> Alike(toks[pos + |a|], b[0])
  {
    hide Alike;
    var s := a + b;
    forall i | 0 <= i < |a| ensures Alike(toks[pos + i], a[i]) {
      assert s[i] == a[i];
    }
    forall i | 0 <= i < |b| ensures Alike(toks[pos + |a| + i], b[i]) {
      assert s[|a| + i] == b[i] && Alike(toks[pos + (|a| + i)], s[|a| + i]);
    }
    if a != [] { assert Alike(toks[pos + 0], a[0]); }
    if b != [] { assert Alike(toks[pos + |a| + 0], b[0]); }
  }

  lemma AtFirst(toks: seq<Token>, pos: nat, s: seq<Token>)
    requires At(toks, pos, s) && s != []
    ensures pos < |toks| && Alike(toks[pos], s[0])
  {
    assert Alike(toks[pos + 0], s[0]);
  }

  /** A token that ends an expression at the given level: no call opens, no operator of this or a tighter level. */
  predicate Stops(k: Kind, level: nat) {
    k != TLparen && (Level(k) < level || Level(k) == 7)
  }

  // ----- one unfolding at a time -----

  lemma OperatorForm(t: Tree, l: Tree, r: Tree)
    requires IsExpr(t) && t.kind == NBinop && l == t.children[0] && r == t.children[1]
    ensures IsExpr(l) && IsExpr(r) && t == Binop(t.op, l, r) && Size(t) == 1 + Size(l) + Size(r)
    ensures Print(t, Level(t.op)) == Print(l, Level(t.op)) + ([Tok(t.op)] + Print(r, Level(t.op) + 1))
  {
    hide Print, Sizes;
    OperatorParts(t);
    OperatorTokens(t);
    assert t.children == [l, r];
    SizesPair(l, r);
  }

  lemma OperatorParts(t: Tree)
    requires IsExpr(t) && t.kind == NBinop
    ensures |t.children| == 2 && IsExpr(t.children[0]) && IsExpr(t.children[1]) && Level(t.op) < 5
  {
    assert AllExprs(t.children);
    AllExprsPair(t.children);
  }

  lemma OperatorTokens(t: Tree)
    requires IsExpr(t) && t.kind == NBinop && |t.children| == 2 && IsExpr(t.children[0]) && IsExpr(t.children[1])
    ensures Print(t, Level(t.op))
         == Print(t.children[0], Level(t.op)) + ([Tok(t.op)] + Print(t.children[1], Level(t.op) + 1))
  {
    hide Level, IsExpr, PrintArgs;
    var a, b := Print(t.children[0], Level(t.op)), Print(t.children[1], Level(t.op) + 1);
    assert Print(t, Level(t.op)) == Bare(t);
    BareOperator(t);
    assert a + [Tok(t.op)] + b == a + ([Tok(t.op)] + b);
  }

  lemma BareOperator(t: Tree)
    requires IsExpr(t) && t.kind == NBinop && |t.children| == 2 && IsExpr(t.children[0]) && IsExpr(t.children[1])
    ensures Bare(t) == Print(t.children[0], Level(t.op)) + [Tok(t.op)] + Print(t.children[1], Level(t.op) + 1)
  {
    hide Level, IsExpr, PrintArgs, Print;
  }

  lemma UnaryForm(t: Tree, e: Tree)
    requires IsExpr(t) && t.kind == NUnop && e == t.children[0]
    ensures IsExpr(e) && t == Unop(t.op, e) && Size(t) == 1 + Size(e) && (t.op == TMinus || t.op == TNot)
    ensures Print(t, 5) == [Tok(t.op)] + Print(e, 5)
  {
    assert AllExprs(t.children);
    assert t.children == [e];
    SizesOne(e);
  }

  lemma ParensForm(t: Tree, level: nat)
    requires IsExpr(t)
    ensures TreeLevel(t) < level ==> Print(t, level) == [Tok(TLparen)] + (Print(t, 0) + [Tok(TRparen)])
    ensures TreeLevel(t) >= level ==> Print(t, level) == Print(t, 0)
  {
  }

  lemma CallForm(t: Tree)
    requires IsExpr(t) && t.kind != NBinop && t.kind != NUnop && !IsLeaf(t)
    ensures AllExprs(t.children) && |t.children| <= 64 && Size(t) == 1 + Sizes(t.children)
    ensures t == Branch(CallKind(t.text), t.text, t.children)
    ensures Print(t, 6) == [Token(TIdent, 0, t.text), Tok(TLparen)] + (PrintArgs(t.children) + [Tok(TRparen)])
  {
    hide Print, PrintArgs, Sizes;
    CallTokens(t);
  }

  lemma CallTokens(t: Tree)
    requires IsExpr(t) && t.kind != NBinop && t.kind != NUnop && !IsLeaf(t)
    ensures AllExprs(t.children)
    ensures Print(t, 6) == [Token(TIdent, 0, t.text), Tok(TLparen)] + (PrintArgs(t.children) + [Tok(TRparen)])
  {
  }

  lemma ParseLevel(toks: seq<Token>, pos: nat, level: nat, room: nat, left: Tree, p: nat, m: nat)
    requires Stream(toks) && pos < |toks| && level < 5 && p < |toks|
    requires Parse(toks, pos, level + 1, room) == Ok(left, p, m)
    ensures Parse(toks, pos, level, room) == Chain(toks, p, level, left, m)
  {
    hide Chain, Primary;
  }

  lemma ChainStep(toks: seq<Token>, pos: nat, level: nat, left: Tree, room: nat, right: Tree, p: nat, m: nat)
    requires Stream(toks) && pos < |toks| - 1 && level < 5 && Level(toks[pos].kind) == level && p < |toks| && m > 0
    requires Parse(toks, pos + 1, level + 1, room) == Ok(right, p, m)
    ensures Chain(toks, pos, level, left, room) == Chain(toks, p, level, Binop(toks[pos].kind, left, right), m - 1)
  {
    hide Parse, Primary, Sizes, Size, Level;
  }

  lemma ChainStops(toks: seq<Token>, pos: nat, level: nat, left: Tree, room: nat)
    requires Stream(toks) && pos < |toks| && level < 5 && Level(toks[pos].kind) != level
    ensures Chain(toks, pos, level, left, room) == Ok(left, pos, room)
  {
    hide Parse, Primary, Sizes, Size, Level;
  }

  // ----- the theorem, by levels -----

  /** Parsing at `level` what was printed there gives back the tree and stops right after it. */
  lemma {:induction false} ParsePrint(t: Tree, level: nat, toks: seq<Token>, pos: nat, room: nat)
    requires IsExpr(t) && level <= 6 && Stream(toks) && At(toks, pos, Print(t, level)) && Size(t) <= room
    requires Stops(toks[pos + |Print(t, level)|].kind, level)
    ensures Parse(toks, pos, level, room) == Ok(t, pos + |Print(t, level)|, room - Size(t))
    decreases |Print(t, level)|, 7 - level, 1
  {
    hide Parse, Chain, Print, Size, IsExpr, Stream;
    if level < 5 {
      ParseOperators(t, level, toks, pos, room);
      ChainStops(toks, pos + |Print(t, level)|, level, t, room - Size(t));
    } else if level == 5 {
      ParseUnary(t, toks, pos, room);
    } else {
      ParsePrimary(t, toks, pos, room);
    }
  }

  lemma {:induction false} ParseOperators(t: Tree, level: nat, toks: seq<Token>, pos: nat, room: nat)
    requires IsExpr(t) && level < 5 && Stream(toks) && At(toks, pos, Print(t, level)) && Size(t) <= room
    requires Stops(toks[pos + |Print(t, level)|].kind, level + 1)
    ensures Parse(toks, pos, level, room) == Chain(toks, pos + |Print(t, level)|, level, t, room - Size(t))
    decreases |Print(t, level)|, 7 - level, 0
  {
    hide Parse, Chain, Print, Size, IsExpr, Stream, Level;
    if TreeLevel(t) == level {
      OperatorStep(t, level, toks, pos, room);
    } else {
      ParensForm(t, level);
      ParensForm(t, level + 1);
      ParsePrint(t, level + 1, toks, pos, room);
      ParseLevel(toks, pos, level, room, t, pos + |Print(t, level)|, room - Size(t));
    }
  }

  lemma {:induction false} OperatorStep(t: Tree, level: nat, toks: seq<Token>, pos: nat, room: nat)
    requires IsExpr(t) && t.kind == NBinop && Level(t.op) == level && level < 5
    requires Stream(toks) && At(toks, pos, Print(t, level)) && Size(t) <= room
    requires Stops(toks[pos + |Print(t, level)|].kind, level + 1)
    ensures Parse(toks, pos, level, room) == Chain(toks, pos + |Print(t, level)|, level, t, room - Size(t))
    decreases |Print(t, level)|, 0, 0
  {
    hide Parse, Chain, Print, Size, IsExpr, Stream, Level, At;
    Operands(t);
    var l, r := t.children[0], t.children[1];
    OperatorForm(t, l, r);
    var a, b := Print(l, level), Print(r, level + 1);
    AtSplit(toks, pos, a, [Tok(t.op)] + b);
    AtSplit(toks, pos + |a|, [Tok(t.op)], b);
    AtBound(toks, pos, Print(t, level));
    NotParen(t.op, level);
    ParseOperators(l, level, toks, pos, room);
    ParsePrint(r, level + 1, toks, pos + |a| + 1, room - Size(l));
    ChainStep(toks, pos + |a|, level, l, room - Size(l), r, pos + |a| + 1 + |b|, room - Size(l) - Size(r));
  }

  lemma Operands(t: Tree)
    requires IsExpr(t)
    ensures t.kind == NBinop ==> |t.children| == 2
    ensures t.kind == NUnop ==> |t.children| == 1
  {
  }

  lemma NotParen(k: Kind, level: nat)
    requires Level(k) == level < 5
    ensures k != TLparen && Stops(k, level + 1)
  {
  }

  lemma AtBound(toks: seq<Token>, pos: nat, s: seq<Token>)
    requires At(toks, pos, s)
    ensures pos + |s| < |toks|
  {
  }

  lemma {:induction false} ParseUnary(t: Tree, toks: seq<Token>, pos: nat, room: nat)
    requires IsExpr(t) && Stream(toks) && At(toks, pos, Print(t, 5)) && Size(t) <= room
    requires Stops(toks[pos + |Print(t, 5)|].kind, 5)
    ensures Parse(toks, pos, 5, room) == Ok(t, pos + |Print(t, 5)|, room - Size(t))
    decreases |Print(t, 5)|, 2, 0
  {
    hide Parse, Print, Size, IsExpr, Stream, Level, At;
    Operands(t);
    AtBound(toks, pos, Print(t, 5));
    if t.kind == NUnop {
      var e := t.children[0];
      UnaryForm(t, e);
      AtSplit(toks, pos, [Tok(t.op)], Print(e, 5));
      ParsePrint(e, 5, toks, pos + 1, room);
      UnaryStep(toks, pos, room, e, pos + 1 + |Print(e, 5)|, room - Size(e));
    } else {
      UnaryPasses(t);
      FirstToken(t, toks, pos);
      TighterStops(toks[pos + |Print(t, 5)|].kind);
      ParsePrimary(t, toks, pos, room);
      UnarySkip(toks, pos, room);
    }
  }

  lemma UnaryPasses(t: Tree)
    requires IsExpr(t) && t.kind != NUnop
    ensures Print(t, 5) == Print(t, 6)
  {
  }

  lemma TighterStops(k: Kind)
    requires Stops(k, 5)
    ensures Stops(k, 6)
  {
  }

  lemma UnaryStep(toks: seq<Token>, pos: nat, room: nat, e: Tree, p: nat, m: nat)
    requires Stream(toks) && pos < |toks| - 1 && (toks[pos].kind == TMinus || toks[pos].kind == TNot) && m > 0
    requires Parse(toks, pos + 1, 5, room) == Ok(e, p, m)
    ensures Parse(toks, pos, 5, room) == Ok(Unop(toks[pos].kind, e), p, m - 1)
  {
    hide Primary, Chain, Size, Sizes;
  }

  lemma UnarySkip(toks: seq<Token>, pos: nat, room: nat)
    requires Stream(toks) && pos < |toks| && toks[pos].kind != TMinus && toks[pos].kind != TNot
    ensures Parse(toks, pos, 5, room) == Parse(toks, pos, 6, room)
  {
    hide Primary, Chain, Size, Sizes;
  }

  lemma FirstToken(t: Tree, toks: seq<Token>, pos: nat)
    requires IsExpr(t) && t.kind != NUnop && At(toks, pos, Print(t, 6))
    ensures toks[pos].kind != TMinus && toks[pos].kind != TNot
  {
    hide Print, IsExpr, At;
    AtFirst(toks, pos, Print(t, 6));
    FirstIs(t);
  }

  lemma FirstIs(t: Tree)
    requires IsExpr(t) && t.kind != NUnop
    ensures Print(t, 6)[0].kind != TMinus && Print(t, 6)[0].kind != TNot
  {
    if t.kind == NBinop {
      LooseLevel(t);
      ParensForm(t, 6);
    } else if !IsLeaf(t) {
      CallTokens(t);
    }
  }

  lemma {:induction false} ParsePrimary(t: Tree, toks: seq<Token>, pos: nat, room: nat)
    requires IsExpr(t) && Stream(toks) && At(toks, pos, Print(t, 6)) && Size(t) <= room
    requires Stops(toks[pos + |Print(t, 6)|].kind, 6)
    ensures Parse(toks, pos, 6, room) == Ok(t, pos + |Print(t, 6)|, room - Size(t))
    decreases |Print(t, 6)|, 1, 0
  {
    hide Parse, Print, Size, IsExpr, Stream, At, IsLeaf, Primary;
    AtBound(toks, pos, Print(t, 6));
    if t.kind == NBinop || t.kind == NUnop {
      LooseLevel(t);
      ParseParens(t, toks, pos, room);
    } else if IsLeaf(t) {
      ParseLeaf(t, toks, pos, room);
    } else {
      ParseCall(t, toks, pos, room);
    }
  }

  lemma LooseLevel(t: Tree)
    requires IsExpr(t) && (t.kind == NBinop || t.kind == NUnop)
    ensures TreeLevel(t) < 6
  {
  }

  lemma ParseLeaf(t: Tree, toks: seq<Token>, pos: nat, room: nat)
    requires IsExpr(t) && IsLeaf(t) && t.kind != NBinop && t.kind != NUnop
    requires Stream(toks) && At(toks, pos, Print(t, 6)) && Size(t) <= room
    requires Stops(toks[pos + |Print(t, 6)|].kind, 6)
    ensures Parse(toks, pos, 6, room) == Ok(t, pos + |Print(t, 6)|, room - Size(t))
  {
    hide Parse, Call, Args, Chain, Print, IsExpr, At, Size, Sizes, Stream;
    LeafAt(t, toks, pos);
    ParsesPrimary(toks, pos, room);
  }

  lemma ParsesPrimary(toks: seq<Token>, pos: nat, room: nat)
    requires Stream(toks) && pos < |toks|
    ensures Parse(toks, pos, 6, room) == Primary(toks, pos, room)
  {
    hide Primary, Chain;
  }

  lemma LeafAt(t: Tree, toks: seq<Token>, pos: nat)
    requires IsExpr(t) && IsLeaf(t) && At(toks, pos, Print(t, 6))
    ensures |Print(t, 6)| == 1 && pos + 1 < |toks| && Alike(toks[pos], LeafToken(t)) && Size(t) == 1
  {
    AtFirst(toks, pos, Print(t, 6));
  }

  lemma {:induction false} ParseParens(t: Tree, toks: seq<Token>, pos: nat, room: nat)
    requires IsExpr(t) && TreeLevel(t) < 6 && Stream(toks) && At(toks, pos, Print(t, 6)) && Size(t) <= room
    ensures Parse(toks, pos, 6, room) == Ok(t, pos + |Print(t, 6)|, room - Size(t))
    decreases |Print(t, 6)|, 0, 0
  {
    hide Parse, Print, Size, IsExpr, Stream, At, TreeLevel, Level, Alike;
    AlikeKind();
    RparenStops();
    var s := Print(t, 0);
    ParensForm(t, 6);
    AtEnclosed(toks, pos, [Tok(TLparen)], s);
    ParsePrint(t, 0, toks, pos + 1, room);
    ParensStep(toks, pos, room, t, pos + 1 + |s|, room - Size(t));
  }

  lemma RparenStops()
    ensures Stops(TRparen, 0)
  {}

  lemma AlikeKind()
    ensures forall a, b :: Alike(a, b) ==> a.kind == b.kind
  {}

  lemma ParensStep(toks: seq<Token>, pos: nat, room: nat, e: Tree, p: nat, m: nat)
    requires Stream(toks) && pos < |toks| - 1 && toks[pos].kind == TLparen && p < |toks| && toks[p].kind == TRparen
    requires Parse(toks, pos + 1, 0, room) == Ok(e, p, m)
    ensures Parse(toks, pos, 6, room) == Ok(e, p + 1, m)
  {
    hide Parse, Chain, Call, Size, Sizes;
    ParsesPrimary(toks, pos, room);
  }

  lemma {:induction false} ParseCall(t: Tree, toks: seq<Token>, pos: nat, room: nat)
    requires IsExpr(t) && t.kind != NBinop && t.kind != NUnop && !IsLeaf(t)
    requires Stream(toks) && At(toks, pos, Print(t, 6)) && Size(t) <= room
    ensures Parse(toks, pos, 6, room) == Ok(t, pos + |Print(t, 6)|, room - Size(t))
    decreases |Print(t, 6)|, 0, 0
  {
    hide Parse, Print, PrintArgs, Size, Sizes, IsExpr, AllExprs, IsLeaf, Stream, At, CallKind, Call, Args;
    CallForm(t);
    var head, s := [Token(TIdent, 0, t.text), Tok(TLparen)], PrintArgs(t.children);
    AtEnclosed(toks, pos, head, s);
    AtSecond(toks, pos, head);
    ParseArgs([], t.children, toks, pos + 2, room - 1);
    assert [] + t.children == t.children;
    CallStep(toks, pos, room, t.children, pos + 2 + |s|, room - Size(t));
  }

  lemma AtEnclosed(toks: seq<Token>, pos: nat, head: seq<Token>, s: seq<Token>)
    requires head != [] && At(toks, pos, head + (s + [Tok(TRparen)]))
    ensures At(toks, pos, head) && At(toks, pos + |head|, s) && Alike(toks[pos], head[0])
    ensures pos + |head| + |s| + 1 < |toks| && toks[pos + |head| + |s|].kind == TRparen
    ensures |head + (s + [Tok(TRparen)])| == |head| + |s| + 1
  {
    hide At;
    AtSplit(toks, pos, head, s + [Tok(TRparen)]);
    AtSplit(toks, pos + |head|, s, [Tok(TRparen)]);
    AtBound(toks, pos + |head| + |s|, [Tok(TRparen)]);
  }

  lemma AtSecond(toks: seq<Token>, pos: nat, s: seq<Token>)
    requires At(toks, pos, s) && |s| == 2
    ensures pos + 1 < |toks| && Alike(toks[pos + 1], s[1])
  {
  }

  lemma CallStep(toks: seq<Token>, pos: nat, room: nat, args: seq<Tree>, p: nat, m: nat)
    requires Stream(toks) && pos + 2 < |toks| && toks[pos].kind == TIdent && toks[pos + 1].kind == TLparen && room > 0
    requires Args(toks, pos + 2, [], room - 1) == Ok(args, p, m) && p < |toks| && toks[p].kind == TRparen
    ensures Parse(toks, pos, 6, room) == Ok(Branch(CallKind(toks[pos].text), toks[pos].text, args), p + 1, m)
  {
    hide Parse, Chain, Args, Size, Sizes, CallKind;
    ParsesPrimary(toks, pos, room);
    assert Primary(toks, pos, room) == Call(toks, pos, room - 1);
  }

  /** The argument loop, having collected `done`, collects `ts`. */
  lemma {:induction false} ParseArgs(done: seq<Tree>, ts: seq<Tree>, toks: seq<Token>, pos: nat, room: nat)
    requires AllExprs(ts) && |done| + |ts| <= 64 && Stream(toks) && At(toks, pos, PrintArgs(ts)) && Sizes(ts) <= room
    requires toks[pos + |PrintArgs(ts)|].kind == TRparen
    ensures Args(toks, pos, done, room) == Ok(done + ts, pos + |PrintArgs(ts)|, room - Sizes(ts))
    decreases |PrintArgs(ts)|, 9, 0
  {
    hide Parse, Print, PrintArgs, Size, Sizes, IsExpr, AllExprs, Stream, At, Args;
    AtBound(toks, pos, PrintArgs(ts));
    ArgsForm(ts);
    if ts == [] {
      assert done + ts == done;
      ArgsEnd(toks, pos, done, room);
    } else if |ts| == 1 {
      var t := ts[0];
      assert done + ts == done + [t];
      FirstOfArg(t, toks, pos, PrintArgs(ts));
      ParsePrint(t, 0, toks, pos, room);
      ArgsStep(toks, pos, done, room, t, pos + |Print(t, 0)|, room - Size(t));
    } else {
      ParseMoreArgs(done, ts, toks, pos, room);
    }
  }

  lemma {:induction false} ParseMoreArgs(done: seq<Tree>, ts: seq<Tree>, toks: seq<Token>, pos: nat, room: nat)
    requires AllExprs(ts) && |ts| > 1 && |done| + |ts| <= 64
    requires Stream(toks) && At(toks, pos, PrintArgs(ts)) && Sizes(ts) <= room
    requires toks[pos + |PrintArgs(ts)|].kind == TRparen
    ensures Args(toks, pos, done, room) == Ok(done + ts, pos + |PrintArgs(ts)|, room - Sizes(ts))
    decreases |PrintArgs(ts)|, 8, 0
  {
    hide Parse, Print, PrintArgs, Size, Sizes, IsExpr, AllExprs, Stream, At, Args;
    ArgsForm(ts);
    var t, us := ts[0], ts[1..];
    var a, rest := Print(t, 0), PrintArgs(us);
    AtComma(toks, pos, a, rest);
    FirstOfArg(t, toks, pos, a);
    ParsePrint(t, 0, toks, pos, room);
    ArgsStep(toks, pos, done, room, t, pos + |a|, room - Size(t));
    ParseArgs(done + [t], us, toks, pos + |a| + 1, room - Size(t));
    assert done + [t] + us == done + ts;
  }

  lemma AtComma(toks: seq<Token>, pos: nat, a: seq<Token>, rest: seq<Token>)
    requires At(toks, pos, a + ([Tok(TComma)] + rest))
    ensures At(toks, pos, a) && At(toks, pos + |a| + 1, rest) && pos + |a| + 1 + |rest| < |toks|
    ensures toks[pos + |a|].kind == TComma && |a + ([Tok(TComma)] + rest)| == |a| + 1 + |rest|
  {
    hide At;
    AtSplit(toks, pos, a, [Tok(TComma)] + rest);
    AtSplit(toks, pos + |a|, [Tok(TComma)], rest);
    AtBound(toks, pos + |a| + 1, rest);
  }

  lemma ArgsForm(ts: seq<Tree>)
    requires AllExprs(ts)
    ensures ts == [] ==> PrintArgs(ts) == [] && Sizes(ts) == 0
    ensures ts != [] ==> IsExpr(ts[0]) && AllExprs(ts[1..]) && Sizes(ts) == Size(ts[0]) + Sizes(ts[1..])
    ensures |ts| == 1 ==> PrintArgs(ts) == Print(ts[0], 0) && Sizes(ts) == Size(ts[0])
    ensures |ts| > 1 ==> PrintArgs(ts) == Print(ts[0], 0) + ([Tok(TComma)] + PrintArgs(ts[1..]))
  {
    hide Print, IsExpr, Size;
  }

  lemma ArgsEnd(toks: seq<Token>, pos: nat, args: seq<Tree>, room: nat)
    requires Stream(toks) && pos < |toks| && toks[pos].kind == TRparen
    ensures Args(toks, pos, args, room) == Ok(args, pos, room)
  {
    hide Parse, Size, Sizes;
  }

  lemma ArgsStep(toks: seq<Token>, pos: nat, args: seq<Tree>, room: nat, t: Tree, p: nat, m: nat)
    requires Stream(toks) && pos < |toks| && toks[pos].kind != TRparen && toks[pos].kind != TEof && |args| < 64
    requires Parse(toks, pos, 0, room) == Ok(t, p, m) && p < |toks| && (toks[p].kind == TComma ==> p + 1 < |toks|)
    ensures Args(toks, pos, args, room)
         == if toks[p].kind == TComma then Args(toks, p + 1, args + [t], m) else Ok(args + [t], p, m)
  {
    hide Parse, Size, Sizes;
  }

  lemma FirstOfArg(t: Tree, toks: seq<Token>, pos: nat, s: seq<Token>)
    requires IsExpr(t) && At(toks, pos, s) && Print(t, 0) <= s
    ensures toks[pos].kind != TRparen && toks[pos].kind != TEof
  {
    hide IsExpr, Print, At;
    AtFirst(toks, pos, s);
    FirstOfPrint(t, 0);
  }

  lemma {:induction false} FirstOfPrint(t: Tree, level: nat)
    requires IsExpr(t)
    ensures Print(t, level)[0].kind != TRparen && Print(t, level)[0].kind != TEof
    decreases t
  {
    if TreeLevel(t) >= level && t.kind == NBinop {
      FirstOfPrint(t.children[0], Level(t.op));
    }
  }

  /** Every expression tree that fits the pool is what its minimally parenthesised form parses to, and the parser
      stops exactly after it, before any token that is neither an operator nor an opening parenthesis. */
  lemma RoundTrip(t: Tree, toks: seq<Token>, pos: nat, room: nat)
    requires IsExpr(t) && Stream(toks) && At(toks, pos, Print(t, 0)) && Size(t) <= room
    requires Level(toks[pos + |Print(t, 0)|].kind) == 7 && toks[pos + |Print(t, 0)|].kind != TLparen
    ensures Parse(toks, pos, 0, room) == Ok(t, pos + |Print(t, 0)|, room - Size(t))
  {
    hide IsExpr, Print, Parse, Size;
    ParsePrint(t, 0, toks, pos, room);
  }

  // ----- and conversely -----

  /** Every expression the parser accepts is one of the trees above, at the level it was parsed at or tighter
      (or it stood in parentheses, which leave no node). */
  lemma {:induction false} ParsedIsExpr(toks: seq<Token>, pos: nat, level: nat, room: nat)
    requires Stream(toks) && pos < |toks| && level <= 6
    ensures var r := Parse(toks, pos, level, room); r.Ok? ==> IsExpr(r.value)
    decreases |toks| - pos, 7 - level
  {
    hide Primary, Chain, IsExpr, Size, Level;
    if level < 5 {
      ParsedIsExpr(toks, pos, level + 1, room);
      var left := Parse(toks, pos, level + 1, room);
      if left.Ok? {
        ChainIsExpr(toks, left.pos, level, left.value, left.room);
      }
    } else if level == 5 {
      var k := toks[pos].kind;
      if k == TMinus || k == TNot {
        ParsedIsExpr(toks, pos + 1, 5, room);
        var e := Parse(toks, pos + 1, 5, room);
        if e.Ok? { UnopIsExpr(k, e.value); }
      } else {
        ParsedIsExpr(toks, pos, 6, room);
      }
    } else {
      PrimaryIsExpr(toks, pos, room);
    }
  }

  lemma UnopIsExpr(k: Kind, e: Tree)
    requires IsExpr(e) && (k == TMinus || k == TNot)
    ensures IsExpr(Unop(k, e))
  {
    assert AllExprs([e]) by { assert [e][1..] == [] && AllExprs([]); }
  }

  lemma BinopIsExpr(k: Kind, l: Tree, r: Tree)
    requires IsExpr(l) && IsExpr(r) && Level(k) < 5
    ensures IsExpr(Binop(k, l, r))
  {
    assert AllExprs([r]) by { assert [r][1..] == [] && AllExprs([]); }
    assert AllExprs([l, r]) by { assert [l, r][1..] == [r]; }
  }

  lemma OperatorNotEof(toks: seq<Token>, pos: nat, level: nat)
    requires Stream(toks) && pos < |toks| && Level(toks[pos].kind) == level < 5
    ensures pos + 1 < |toks|
  {
  }

  lemma {:induction false} ChainIsExpr(toks: seq<Token>, pos: nat, level: nat, left: Tree, room: nat)
    requires Stream(toks) && pos < |toks| && level < 5 && IsExpr(left)
    ensures var r := Chain(toks, pos, level, left, room); r.Ok? ==> IsExpr(r.value)
    decreases |toks| - pos, 8
  {
    hide Parse, IsExpr, Size, Level;
    if Level(toks[pos].kind) == level {
      OperatorNotEof(toks, pos, level);
      ParsedIsExpr(toks, pos + 1, level + 1, room);
      var right := Parse(toks, pos + 1, level + 1, room);
      if right.Ok? && right.room > 0 {
        BinopIsExpr(toks[pos].kind, left, right.value);
        ChainIsExpr(toks, right.pos, level, Binop(toks[pos].kind, left, right.value), right.room - 1);
      }
    }
  }

  lemma {:induction false} PrimaryIsExpr(toks: seq<Token>, pos: nat, room: nat)
    requires Stream(toks) && pos < |toks|
    ensures var r := Primary(toks, pos, room); r.Ok? ==> IsExpr(r.value)
    decreases |toks| - pos, 0
  {
    hide Parse, IsExpr, Size, Sizes, Call, IsLeaf;
    var k := toks[pos].kind;
    if k == TIdent && toks[pos + 1].kind == TLparen {
      if room > 0 { CallIsExpr(toks, pos, room - 1); }
    } else if k == TLparen {
      ParsedIsExpr(toks, pos + 1, 0, room);
    } else {
      LeafIsExpr(toks[pos].intVal, toks[pos].text, k == TTrue);
    }
  }

  lemma LeafIsExpr(v: int, text: string, b: bool)
    ensures IsExpr(Leaf(NInt, v, "")) && IsExpr(Leaf(NStr, 0, text)) && IsExpr(Leaf(NVar, 0, text))
    ensures IsExpr(Leaf(NBool, if b then 1 else 0, ""))
  {
  }

  lemma {:induction false} CallIsExpr(toks: seq<Token>, pos: nat, room: nat)
    requires Stream(toks) && pos + 2 < |toks|
    ensures var r := Call(toks, pos, room); r.Ok? ==> IsExpr(r.value)
    decreases |toks| - pos - 1, 10
  {
    hide Args, IsExpr, AllExprs, Size, Sizes, CallKind;
    NoExprs();
    ArgsAreExprs(toks, pos + 2, [], room);
    var args := Args(toks, pos + 2, [], room);
    if args.Ok? { CallNodeIsExpr(toks[pos].text, args.value); }
  }

  lemma NoExprs()
    ensures AllExprs([])
  {
  }

  lemma CallNodeIsExpr(name: string, args: seq<Tree>)
    requires AllExprs(args) && |args| <= 64
    ensures IsExpr(Branch(CallKind(name), name, args))
  {
  }

  lemma {:induction false} ArgsAreExprs(toks: seq<Token>, pos: nat, done: seq<Tree>, room: nat)
    requires Stream(toks) && pos < |toks| && |done| <= 64
    ensures var r := Args(toks, pos, done, room); r.Ok? && AllExprs(done) ==> AllExprs(r.value) && |r.value| <= 64
    decreases |toks| - pos, 9
  {
    hide Parse, IsExpr, AllExprs, Size, Sizes;
    if toks[pos].kind != TRparen && toks[pos].kind != TEof {
      ParsedIsExpr(toks, pos, 0, room);
      var arg := Parse(toks, pos, 0, room);
      if arg.Ok? && |done| < 64 {
        AllExprsSnoc(done, arg.value);
        if toks[arg.pos].kind == TComma {
          ArgsAreExprs(toks, arg.pos + 1, done + [arg.value], arg.room);
        }
      }
    }
  }

  lemma {:induction false} AllExprsSnoc(ts: seq<Tree>, t: Tree)
    requires IsExpr(t)
    ensures AllExprs(ts) ==> AllExprs(ts + [t])
  {
    hide IsExpr;
    if ts == [] {
      assert (ts + [t])[1..] == [] && AllExprs([]);
    } else {
      assert (ts + [t])[1..] == ts[1..] + [t];
      AllExprsSnoc(ts[1..], t);
    }
  }
}
