/** The precedence table of the language guide, written out, and that the parser follows it. */
module GkPrecedence {
  import opened GkSyntax
  import opened GkRoundTrip

  /** The binary operators of the guide, loosest group first. */
  const GROUPS: seq<set<Kind>> :=
    [{TOr}, {TAnd}, {TEq, TNeq, TLt, TLe, TGt, TGe}, {TPlus, TMinus}, {TStar, TSlash, TPercent}]

  /** k stands in group g. */
  predicate InGroup(k: Kind, g: nat) {
    g < 5 && k in GROUPS[g]
  }

  predicate IsBinary(k: Kind) {
    exists g :: 0 <= g < 5 && InGroup(k, g)
  }

  /** The levels of the parser are the groups. */
  lemma GroupIsLevel(k: Kind, g: nat)
    ensures InGroup(k, g) <==> g < 5 && Level(k) == g
  {}

  lemma NotBinary(k: Kind)
    requires !IsBinary(k)
    ensures Level(k) == 7
  {
    if Level(k) < 5 { GroupIsLevel(k, Level(k)); }
  }

  /** Nothing is added at the levels from `level` up to `from` when the next token belongs to none of them. */
  lemma {:induction false} Rises(toks: seq<Token>, pos: nat, from: nat, level: nat, room: nat, e: Tree, p: nat, m: nat)
    requires Stream(toks) && pos < |toks| && p < |toks| && level <= from <= 5 && Parse(toks, pos, from, room) == Ok(e, p, m)
    requires !(level <= Level(toks[p].kind) < from)
    ensures Parse(toks, pos, level, room) == Ok(e, p, m)
    decreases from - level
  {
    hide Parse, Chain;
    if level < from {
      Rises(toks, pos, from, level + 1, room, e, p, m);
      ParseLevel(toks, pos, level, room, e, p, m);
      ChainStops(toks, p, level, e, m);
    }
  }

  /** One operation: both operands parse one level tighter, and no operator of the group follows. */
  lemma OneOperation(toks: seq<Token>, pos: nat, g: nat, room: nat, a: Tree, p: nat, m: nat, b: Tree, q: nat, n: nat)
    requires Stream(toks) && pos < |toks| && p + 1 < |toks| && q < |toks| && g < 5 && n > 0
    requires Parse(toks, pos, g + 1, room) == Ok(a, p, m) && Level(toks[p].kind) == g
    requires Parse(toks, p + 1, g + 1, m) == Ok(b, q, n) && Level(toks[q].kind) != g
    ensures Parse(toks, pos, g, room) == Ok(Binop(toks[p].kind, a, b), q, n - 1)
  {
    hide Parse, Chain;
    ParseLevel(toks, pos, g, room, a, p, m);
    ChainStep(toks, p, g, a, m, b, q, n);
    ChainStops(toks, q, g, Binop(toks[p].kind, a, b), n - 1);
  }

  // ----- two operators -----

  /** What the guide says a op1 b op2 c means: the tighter operator first, and from the left within a group. */
  function Meant(op1: Kind, g1: nat, op2: Kind, g2: nat, a: Tree, b: Tree, c: Tree): Tree {
    if g1 < g2 then Binop(op1, a, Binop(op2, b, c)) else Binop(op2, Binop(op1, a, b), c)
  }

  /** An operand stands at pos and ends at p: a primary expression, anything in parentheses, or one of these with unary
      operators before it. */
  ghost predicate Operand(toks: seq<Token>, pos: nat, e: Tree, p: nat)
    requires Stream(toks)
  {
    pos < p < |toks| && forall room: nat :: Size(e) <= room ==> Parse(toks, pos, 5, room) == Ok(e, p, room - Size(e))
  }

  lemma OperandRises(toks: seq<Token>, pos: nat, e: Tree, p: nat, level: nat, room: nat)
    requires Stream(toks) && Operand(toks, pos, e, p) && level <= 5 && Size(e) <= room
    requires !(level <= Level(toks[p].kind) < 5)
    ensures Parse(toks, pos, level, room) == Ok(e, p, room - Size(e))
  {
    hide Parse, Level, Size;
    Rises(toks, pos, 5, level, room, e, p, room - Size(e));
  }

  lemma TighterRight(toks: seq<Token>, pos: nat, a: Tree, p: nat, b: Tree, q: nat, c: Tree, r: nat, room: nat, loose: nat, tight: nat)
    requires Stream(toks) && Operand(toks, pos, a, p) && Operand(toks, p + 1, b, q) && Operand(toks, q + 1, c, r)
    requires loose < tight < 5 && Level(toks[p].kind) == loose && Level(toks[q].kind) == tight && Level(toks[r].kind) == 7
    requires Size(a) + Size(b) + Size(c) + 2 <= room
    ensures Parse(toks, pos, 0, room)
         == Ok(Binop(toks[p].kind, a, Binop(toks[q].kind, b, c)), r, room - Size(a) - Size(b) - Size(c) - 2)
  {
    hide Parse, Level, Size, Operand;
    Bounds(toks, pos, a, p);
    Bounds(toks, p + 1, b, q);
    Bounds(toks, q + 1, c, r);
    var m := room - Size(a);
    var n := m - Size(b);
    var k := n - Size(c);
    OperandRises(toks, p + 1, b, q, tight + 1, m);
    OperandRises(toks, q + 1, c, r, tight + 1, n);
    OneOperation(toks, p + 1, tight, m, b, q, n, c, r, k);
    var bc := Binop(toks[q].kind, b, c);
    Rises(toks, p + 1, tight, loose + 1, m, bc, r, k - 1);
    OperandRises(toks, pos, a, p, loose + 1, room);
    OneOperation(toks, pos, loose, room, a, p, m, bc, r, k - 1);
    Rises(toks, pos, loose, 0, room, Binop(toks[p].kind, a, bc), r, k - 2);
  }

  lemma TighterLeft(toks: seq<Token>, pos: nat, a: Tree, p: nat, b: Tree, q: nat, c: Tree, r: nat, room: nat, loose: nat, tight: nat)
    requires Stream(toks) && Operand(toks, pos, a, p) && Operand(toks, p + 1, b, q) && Operand(toks, q + 1, c, r)
    requires loose < tight < 5 && Level(toks[p].kind) == tight && Level(toks[q].kind) == loose && Level(toks[r].kind) == 7
    requires Size(a) + Size(b) + Size(c) + 2 <= room
    ensures Parse(toks, pos, 0, room)
         == Ok(Binop(toks[q].kind, Binop(toks[p].kind, a, b), c), r, room - Size(a) - Size(b) - Size(c) - 2)
  {
    hide Parse, Level, Size, Operand;
    Bounds(toks, pos, a, p);
    Bounds(toks, p + 1, b, q);
    Bounds(toks, q + 1, c, r);
    var m := room - Size(a);
    var n := m - Size(b) - 1;
    var k := n - Size(c);
    OperandRises(toks, pos, a, p, tight + 1, room);
    OperandRises(toks, p + 1, b, q, tight + 1, m);
    OneOperation(toks, pos, tight, room, a, p, m, b, q, n + 1);
    var ab := Binop(toks[p].kind, a, b);
    Rises(toks, pos, tight, loose + 1, room, ab, q, n);
    OperandRises(toks, q + 1, c, r, loose + 1, n);
    OneOperation(toks, pos, loose, room, ab, q, n, c, r, k);
    Rises(toks, pos, loose, 0, room, Binop(toks[q].kind, ab, c), r, k - 1);
  }

  lemma SameGroup(toks: seq<Token>, pos: nat, a: Tree, p: nat, b: Tree, q: nat, c: Tree, r: nat, room: nat, g: nat)
    requires Stream(toks) && Operand(toks, pos, a, p) && Operand(toks, p + 1, b, q) && Operand(toks, q + 1, c, r)
    requires g < 5 && Level(toks[p].kind) == g && Level(toks[q].kind) == g && Level(toks[r].kind) == 7
    requires Size(a) + Size(b) + Size(c) + 2 <= room
    ensures Parse(toks, pos, 0, room)
         == Ok(Binop(toks[q].kind, Binop(toks[p].kind, a, b), c), r, room - Size(a) - Size(b) - Size(c) - 2)
  {
    hide Parse, Level, Size, Operand, Chain;
    Bounds(toks, pos, a, p);
    Bounds(toks, p + 1, b, q);
    Bounds(toks, q + 1, c, r);
    var m := room - Size(a);
    var n := m - Size(b) - 1;
    var k := n - Size(c);
    OperandRises(toks, pos, a, p, g + 1, room);
    ParseLevel(toks, pos, g, room, a, p, m);
    OperandRises(toks, p + 1, b, q, g + 1, m);
    ChainStep(toks, p, g, a, m, b, q, n + 1);
    var ab := Binop(toks[p].kind, a, b);
    OperandRises(toks, q + 1, c, r, g + 1, n);
    ChainStep(toks, q, g, ab, n, c, r, k);
    ChainStops(toks, r, g, Binop(toks[q].kind, ab, c), k - 1);
    Rises(toks, pos, g, 0, room, Binop(toks[q].kind, ab, c), r, k - 1);
  }

  lemma Bounds(toks: seq<Token>, pos: nat, e: Tree, p: nat)
    requires Stream(toks) && Operand(toks, pos, e, p)
    ensures pos < p < |toks|
  {
    hide Parse, Size;
  }

  lemma PrintedOperand(e: Tree, toks: seq<Token>, pos: nat)
    requires IsExpr(e) && Stream(toks) && At(toks, pos, Print(e, 5)) && Stops(toks[pos + |Print(e, 5)|].kind, 5)
    ensures Operand(toks, pos, e, pos + |Print(e, 5)|)
  {
    hide Parse, Print, Size, IsExpr, At, Stops;
    AtBound(toks, pos, Print(e, 5));
    forall room: nat | Size(e) <= room ensures Parse(toks, pos, 5, room) == Ok(e, pos + |Print(e, 5)|, room - Size(e)) {
      ParsePrint(e, 5, toks, pos, room);
    }
  }

  /** The tokens a op1 b op2 c. */
  function Row(a: Tree, op1: Kind, b: Tree, op2: Kind, c: Tree): seq<Token>
    requires IsExpr(a) && IsExpr(b) && IsExpr(c)
  {
    Print(a, 5) + ([Tok(op1)] + (Print(b, 5) + ([Tok(op2)] + Print(c, 5))))
  }

  /** Any two operators between any three operands are read as the guide's table says. */
  lemma GuideOrder(a: Tree, op1: Kind, g1: nat, b: Tree, op2: Kind, g2: nat, c: Tree, toks: seq<Token>, pos: nat, room: nat)
    requires IsExpr(a) && IsExpr(b) && IsExpr(c) && InGroup(op1, g1) && InGroup(op2, g2)
    requires Stream(toks) && At(toks, pos, Row(a, op1, b, op2, c)) && Size(a) + Size(b) + Size(c) + 2 <= room
    requires var k := toks[pos + |Row(a, op1, b, op2, c)|].kind; !IsBinary(k) && k != TLparen
    ensures Parse(toks, pos, 0, room)
         == Ok(Meant(op1, g1, op2, g2, a, b, c), pos + |Row(a, op1, b, op2, c)|, room - Size(a) - Size(b) - Size(c) - 2)
  {
    hide Parse, Print, Size, IsExpr, At, InGroup, IsBinary, Level, Operand, Stream;
    RowPlaces(a, op1, b, op2, c, toks, pos);
    GroupIsLevel(op1, g1);
    GroupIsLevel(op2, g2);
    var p := pos + |Print(a, 5)|;
    var q := p + 1 + |Print(b, 5)|;
    var r := q + 1 + |Print(c, 5)|;
    NotBinary(toks[r].kind);
    OperatorStops(op1, g1);
    OperatorStops(op2, g2);
    PrintedOperand(a, toks, pos);
    PrintedOperand(b, toks, p + 1);
    PrintedOperand(c, toks, q + 1);
    if g1 < g2 {
      TighterRight(toks, pos, a, p, b, q, c, r, room, g1, g2);
    } else if g2 < g1 {
      TighterLeft(toks, pos, a, p, b, q, c, r, room, g2, g1);
    } else {
      SameGroup(toks, pos, a, p, b, q, c, r, room, g1);
    }
  }

  lemma OperatorStops(k: Kind, g: nat)
    requires Level(k) == g < 5
    ensures Stops(k, 5)
  {}

  lemma RowPlaces(a: Tree, op1: Kind, b: Tree, op2: Kind, c: Tree, toks: seq<Token>, pos: nat)
    requires IsExpr(a) && IsExpr(b) && IsExpr(c) && At(toks, pos, Row(a, op1, b, op2, c))
    ensures var p := pos + |Print(a, 5)|;
      var q := p + 1 + |Print(b, 5)|;
      && q + 1 + |Print(c, 5)| == pos + |Row(a, op1, b, op2, c)| < |toks|
      && At(toks, pos, Print(a, 5)) && At(toks, p + 1, Print(b, 5)) && At(toks, q + 1, Print(c, 5))
      && toks[p].kind == op1 && toks[q].kind == op2
  {
    hide Print, IsExpr, At;
    var sa, sb, sc := Print(a, 5), Print(b, 5), Print(c, 5);
    AtOperator(toks, pos, sa, op1, sb + ([Tok(op2)] + sc));
    AtOperator(toks, pos + |sa| + 1, sb, op2, sc);
    AtBound(toks, pos + |sa| + 1 + |sb| + 1, sc);
  }

  /** An operator between what stands before and after it. */
  lemma AtOperator(toks: seq<Token>, pos: nat, s: seq<Token>, op: Kind, rest: seq<Token>)
    requires At(toks, pos, s + ([Tok(op)] + rest))
    ensures At(toks, pos, s) && At(toks, pos + |s| + 1, rest) && pos + |s| + 1 < |toks| && toks[pos + |s|].kind == op
    ensures |s + ([Tok(op)] + rest)| == |s| + 1 + |rest|
  {
    hide At;
    AtSplit(toks, pos, s, [Tok(op)] + rest);
    AtSplit(toks, pos + |s|, [Tok(op)], rest);
    AtBound(toks, pos + |s| + 1, rest);
  }

  /** A unary operator takes its operand before any binary one. */
  lemma UnaryOrder(op: Kind, a: Tree, op2: Kind, b: Tree, toks: seq<Token>, pos: nat, room: nat)
    requires (op == TMinus || op == TNot) && IsBinary(op2) && IsExpr(a) && IsExpr(b) && Stream(toks)
    requires At(toks, pos, [Tok(op)] + (Print(a, 5) + ([Tok(op2)] + Print(b, 5)))) && Size(a) + Size(b) + 2 <= room
    requires var k := toks[pos + 2 + |Print(a, 5)| + |Print(b, 5)|].kind; !IsBinary(k) && k != TLparen
    ensures Parse(toks, pos, 0, room)
         == Ok(Binop(op2, Unop(op, a), b), pos + 2 + |Print(a, 5)| + |Print(b, 5)|, room - Size(a) - Size(b) - 2)
  {
    hide Parse, Print, Size, IsExpr, At, InGroup, IsBinary, Level, Operand, Stream, Stops, Alike;
    var sa, sb := Print(a, 5), Print(b, 5);
    assert [] + ([Tok(op)] + (sa + ([Tok(op2)] + sb))) == [Tok(op)] + (sa + ([Tok(op2)] + sb));
    AtOperator(toks, pos, [], op, sa + ([Tok(op2)] + sb));
    AtOperator(toks, pos + 1, sa, op2, sb);
    AtBound(toks, pos + 2 + |sa|, sb);
    var g := GroupOf(op2);
    var p := pos + 1 + |sa|;
    GroupIsLevel(op2, g);
    OperatorStops(op2, g);
    NotBinary(toks[p + 1 + |sb|].kind);
    EndStops(toks[p + 1 + |sb|].kind);
    PrintedOperand(b, toks, p + 1);
    ParsePrint(a, 5, toks, pos + 1, room);
    UnaryStep(toks, pos, room, a, p, room - Size(a));
    OneSigned(toks, pos, Unop(op, a), p, room - Size(a) - 1, b, p + 1 + |sb|, room, g);
  }

  lemma EndStops(k: Kind)
    requires Level(k) == 7 && k != TLparen
    ensures Stops(k, 5)
  {}

  /** A signed operand, an operator of group g and another operand, before anything but a binary operator. */
  lemma OneSigned(toks: seq<Token>, pos: nat, a: Tree, p: nat, m: nat, b: Tree, q: nat, room: nat, g: nat)
    requires Stream(toks) && pos < |toks| && p + 1 < |toks| && g < 5 && Level(toks[p].kind) == g && Parse(toks, pos, 5, room) == Ok(a, p, m)
    requires Operand(toks, p + 1, b, q) && Size(b) < m && Level(toks[q].kind) == 7
    ensures Parse(toks, pos, 0, room) == Ok(Binop(toks[p].kind, a, b), q, m - Size(b) - 1)
  {
    hide Parse, Size, Level, Operand;
    Bounds(toks, p + 1, b, q);
    Rises(toks, pos, 5, g + 1, room, a, p, m);
    OperandRises(toks, p + 1, b, q, g + 1, m);
    OneOperation(toks, pos, g, room, a, p, m, b, q, m - Size(b));
    Rises(toks, pos, g, 0, room, Binop(toks[p].kind, a, b), q, m - Size(b) - 1);
  }

  lemma GroupOf(k: Kind) returns (g: nat)
    requires IsBinary(k)
    ensures InGroup(k, g) && g < 5
  {
    g :| 0 <= g < 5 && InGroup(k, g);
  }

  // ----- calls -----

  /** The built-in functions of the guide. */
  const BUILT_IN: map<string, NodeKind> := map["print" := NPrint, "range" := NRange, "input" := NInput, "int" := NIntCast]

  /** A call of a built-in function has the node of that function, and any other call is a call by name. */
  lemma CallsByName(name: string, ts: seq<Tree>, toks: seq<Token>, pos: nat, room: nat)
    requires AllExprs(ts) && |ts| <= 64 && Stream(toks) && 1 + Sizes(ts) <= room
    requires At(toks, pos, [Token(TIdent, 0, name), Tok(TLparen)] + (PrintArgs(ts) + [Tok(TRparen)]))
    ensures var kind := if name in BUILT_IN then BUILT_IN[name] else NCall;
      Parse(toks, pos, 6, room) == Ok(Branch(kind, name, ts), pos + 3 + |PrintArgs(ts)|, room - 1 - Sizes(ts))
  {
    hide Parse, PrintArgs, AllExprs, Sizes, Size, Args, Call, At, Stream;
    var head := [Token(TIdent, 0, name), Tok(TLparen)];
    AtEnclosed(toks, pos, head, PrintArgs(ts));
    AtSecond(toks, pos, head);
    ParseArgs([], ts, toks, pos + 2, room - 1);
    assert [] + ts == ts;
    CallStep(toks, pos, room, ts, pos + 2 + |PrintArgs(ts)|, room - 1 - Sizes(ts));
  }
}
