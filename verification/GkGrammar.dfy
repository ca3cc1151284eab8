/** The statement grammar of GK as functions on tokens. */
module GkGrammar {
  import opened GkSyntax

  /** The position after any newlines. */
  function Skip(toks: seq<Token>, pos: nat): (p: nat)
    requires Stream(toks) && pos < |toks|
    ensures pos <= p < |toks| && toks[p].kind != TNewline
    decreases |toks| - pos
  {
    if toks[pos].kind == TNewline then Skip(toks, pos + 1) else pos
  }

  /** The position after an optional token. */
  function Past(toks: seq<Token>, pos: nat, k: Kind): (p: nat)
    requires Stream(toks) && pos < |toks| && k != TEof
    ensures pos <= p < |toks|
  {
    if toks[pos].kind == k then pos + 1 else pos
  }

  /** A parsed tree takes tokens, and room for exactly its nodes. */
  predicate Took(toks: seq<Token>, pos: nat, room: nat, r: Res<Tree>) {
    r.Ok? ==> pos < r.pos < |toks| && r.room + Size(r.value) == room
  }

  /** A loop over children may take no token. */
  predicate TookAll(toks: seq<Token>, pos: nat, room: nat, done: seq<Tree>, r: Res<seq<Tree>>) {
    r.Ok? ==> pos <= r.pos < |toks| && r.room + Sizes(r.value) == room + Sizes(done)
  }

  function Stmt(toks: seq<Token>, pos: nat, room: nat): (r: Res<Tree>)
    requires Stream(toks) && pos < |toks|
    ensures Took(toks, pos, room, r)
    decreases |toks| - pos, 4
  {
    var k := toks[pos].kind;
    if k == TReturn then Return(toks, pos, room)
    else if k == TBreak || k == TContinue then Jump(if k == TBreak then NBreak else NContinue, toks, pos, room)
    else if k == TDef then Def(toks, pos, room)
    else if k == TIf || k == TElif then If(toks, pos, room)
    else if k == TWhile then if room == 0 then Fail else Loop(NWhile, "", toks, pos + 1, room - 1)
    else if k == TFor then For(toks, pos, room)
    else if k == TIdent && toks[pos + 1].kind == TAssign then Assign(toks, pos, room)
    else ExprStmt(toks, pos, room)
  }

  /** A break or a continue. */
  function Jump(kind: NodeKind, toks: seq<Token>, pos: nat, room: nat): (r: Res<Tree>)
    requires Stream(toks) && pos + 1 < |toks|
    ensures Took(toks, pos, room, r)
  {
    if room == 0 then Fail else Ok(Branch(kind, "", []), Past(toks, pos + 1, TNewline), room - 1)
  }

  function ExprStmt(toks: seq<Token>, pos: nat, room: nat): (r: Res<Tree>)
    requires Stream(toks) && pos < |toks|
    ensures Took(toks, pos, room, r)
  {
    match Parse(toks, pos, 0, room)
    case Fail => Fail
    case Ok(e, p, m) => Ok(e, Past(toks, p, TNewline), m)
  }

  function For(toks: seq<Token>, pos: nat, room: nat): (r: Res<Tree>)
    requires Stream(toks) && pos + 1 < |toks|
    ensures Took(toks, pos, room, r)
    decreases |toks| - pos, 3
  {
    if toks[pos + 1].kind != TIdent || toks[pos + 2].kind != TIn || room == 0 then Fail
    else Loop(NFor, toks[pos + 1].text, toks, pos + 3, room - 1)
  }

  function Return(toks: seq<Token>, pos: nat, room: nat): (r: Res<Tree>)
    requires Stream(toks) && pos + 1 < |toks|
    ensures Took(toks, pos, room, r)
  {
    if toks[pos + 1].kind == TNewline || toks[pos + 1].kind == TEof then Jump(NReturn, toks, pos, room)
    else One(NReturn, "", toks, pos + 1, room)
  }

  function Assign(toks: seq<Token>, pos: nat, room: nat): (r: Res<Tree>)
    requires Stream(toks) && pos + 2 < |toks|
    ensures Took(toks, pos, room, r)
  {
    One(NAssign, toks[pos].text, toks, pos + 2, room)
  }

  /** A node over one expression, up to the end of its line. */
  function One(kind: NodeKind, name: string, toks: seq<Token>, pos: nat, room: nat): (r: Res<Tree>)
    requires Stream(toks) && pos < |toks|
    ensures Took(toks, pos, room, r)
  {
    if room == 0 then Fail else
      match Parse(toks, pos, 0, room - 1)
      case Fail => Fail
      case Ok(e, p, m) => SizesOne(e); Ok(Branch(kind, name, [e]), Past(toks, p, TNewline), m)
  }

  /** The head expression and body of a while or for loop. */
  function Loop(kind: NodeKind, name: string, toks: seq<Token>, pos: nat, room: nat): (r: Res<Tree>)
    requires Stream(toks) && pos < |toks|
    ensures Took(toks, pos, room + 1, r)
    decreases |toks| - pos, 4
  {
    match Parse(toks, pos, 0, room)
    case Fail => Fail
    case Ok(head, p, m) =>
      match Body(toks, p, m)
      case Fail => Fail
      case Ok(body, q, m') => SizesPair(head, body); Ok(Branch(kind, name, [head, body]), q, m')
  }

  function Def(toks: seq<Token>, pos: nat, room: nat): (r: Res<Tree>)
    requires Stream(toks) && pos + 1 < |toks|
    ensures Took(toks, pos, room, r)
    decreases |toks| - pos, 3
  {
    if toks[pos + 1].kind != TIdent || room == 0 then Fail else
      match Signature(toks, pos + 2, room - 1)
      case Fail => Fail
      case Ok(params, p, m) =>
        match Body(toks, p, m)
        case Fail => Fail
        case Ok(body, q, m') =>
          SizesSnoc(params, body);
          Ok(Branch(NDef, toks[pos + 1].text, params + [body]), q, m')
  }

  /** The parameters between their parentheses. */
  function Signature(toks: seq<Token>, pos: nat, room: nat): (r: Res<seq<Tree>>)
    requires Stream(toks) && pos < |toks|
    ensures TookAll(toks, pos, room, [], r)
  {
    if toks[pos].kind != TLparen then Fail else
      match Params(toks, pos + 1, [], room)
      case Fail => Fail
      case Ok(params, p, m) => if toks[p].kind != TRparen then Fail else Ok(params, p + 1, m)
  }

  function Params(toks: seq<Token>, pos: nat, done: seq<Tree>, room: nat): (r: Res<seq<Tree>>)
    requires Stream(toks) && pos < |toks|
    ensures TookAll(toks, pos, room, done, r)
    decreases |toks| - pos
  {
    if toks[pos].kind == TRparen || toks[pos].kind == TEof then Ok(done, pos, room)
    else if toks[pos].kind != TIdent || room == 0 then Fail
    else
      var v := Leaf(NVar, 0, toks[pos].text);
      SizesSnoc(done, v);
      if toks[pos + 1].kind == TComma then Params(toks, pos + 2, done + [v], room - 1)
      else Ok(done + [v], pos + 1, room - 1)
  }

  function If(toks: seq<Token>, pos: nat, room: nat): (r: Res<Tree>)
    requires Stream(toks) && pos + 1 < |toks|
    ensures Took(toks, pos, room, r)
    decreases |toks| - pos, 3
  {
    if room == 0 then Fail else
      match Loop(NIf, "", toks, pos + 1, room - 1)
      case Fail => Fail
      case Ok(t, p, m) =>
        match Else(toks, Skip(toks, p), m)
        case Fail => Fail
        case Ok(rest, q, m') =>
          assert rest != [] ==> Sizes(t.children + rest) == Sizes(t.children) + Size(rest[0]) by {
            if rest != [] { assert rest == [rest[0]]; SizesSnoc(t.children, rest[0]); }
          }
          assert rest == [] ==> t.children + rest == t.children;
          Ok(t.(children := t.children + rest), q, m')
  }

  /** An elif or an else, if there is one. */
  function Else(toks: seq<Token>, pos: nat, room: nat): (r: Res<seq<Tree>>)
    requires Stream(toks) && pos < |toks|
    ensures r.Ok? ==> pos <= r.pos < |toks| && |r.value| <= 1
    ensures r.Ok? ==> r.room + (if r.value == [] then 0 else Size(r.value[0])) == room
    decreases |toks| - pos, 5
  {
    if toks[pos].kind == TElif then
      match Stmt(toks, pos, room)
      case Fail => Fail
      case Ok(t, p, m) => Ok([t], p, m)
    else if toks[pos].kind == TElse then
      match Body(toks, pos + 1, room)
      case Fail => Fail
      case Ok(t, p, m) => Ok([t], p, m)
    else Ok([], pos, room)
  }

  /** A colon, an optional newline and a block. */
  function Body(toks: seq<Token>, pos: nat, room: nat): (r: Res<Tree>)
    requires Stream(toks) && pos < |toks|
    ensures Took(toks, pos, room, r)
    decreases |toks| - pos, 2
  {
    if toks[pos].kind != TColon then Fail else Block(toks, Past(toks, pos + 1, TNewline), room)
  }

  function Block(toks: seq<Token>, pos: nat, room: nat): (r: Res<Tree>)
    requires Stream(toks) && pos < |toks|
    ensures Took(toks, pos, room, r)
    decreases |toks| - pos, 1
  {
    if toks[pos].kind != TIndent || room == 0 then Fail else
      match Stmts(toks, Skip(toks, pos + 1), false, [], room - 1)
      case Fail => Fail
      case Ok(ts, p, m) => Ok(Branch(NBlock, "", ts), Past(toks, p, TDedent), m)
  }

  /** The statement loop of a block, or of the whole program. */
  function Stmts(toks: seq<Token>, pos: nat, top: bool, done: seq<Tree>, room: nat): (r: Res<seq<Tree>>)
    requires Stream(toks) && pos < |toks|
    ensures TookAll(toks, pos, room, done, r)
    ensures r.Ok? && top ==> toks[r.pos].kind == TEof
    decreases |toks| - pos, 5
  {
    if toks[pos].kind == TEof || (!top && toks[pos].kind == TDedent) then Ok(done, pos, room) else
      match Stmt(toks, pos, room)
      case Fail => Fail
      case Ok(t, p, m) =>
        if |done| >= MAX_CHILDREN then Fail else
          SizesSnoc(done, t);
          Stmts(toks, Skip(toks, p), top, done + [t], m)
  }

  function Program(toks: seq<Token>): (r: Res<Tree>)
    requires Stream(toks)
    ensures r.Ok? ==> r.pos < |toks| && toks[r.pos].kind == TEof && r.room + Size(r.value) == MAX_NODES
  {
    match Stmts(toks, Skip(toks, 0), true, [], MAX_NODES - 1)
    case Fail => Fail
    case Ok(ts, p, m) => Ok(Branch(NBlock, "", ts), p, m)
  }
}
