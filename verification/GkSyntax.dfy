/** The GK language: tokens, syntax trees, the node pool, and the grammar as a function on tokens. */
module GkSyntax {

  datatype Kind =
    | TInt | TStr | TIdent
    | TPlus | TMinus | TStar | TSlash | TPercent
    | TEq | TNeq | TLt | TLe | TGt | TGe
    | TAnd | TOr | TNot | TAssign
    | TLparen | TRparen | TComma | TColon
    | TIf | TElif | TElse | TWhile | TFor | TIn | TDef | TReturn | TBreak | TContinue
    | TTrue | TFalse | TNewline | TIndent | TDedent | TEof

  datatype Token = Token(kind: Kind, intVal: int, text: string)

  datatype NodeKind =
    | NInt | NStr | NBool | NVar | NAssign | NBinop | NUnop | NCall | NIf | NWhile | NFor
    | NDef | NReturn | NBreak | NContinue | NBlock | NPrint | NRange | NInput | NIntCast

  /** A syntax tree. `op` is meaningful for NBinop and NUnop only. */
  datatype Tree = Tree(kind: NodeKind, intVal: int, text: string, op: Kind, children: seq<Tree>)

  /** A node of the pool: the same fields, children given by index. */
  datatype Node = Node(kind: NodeKind, intVal: int, text: string, op: Kind, children: seq<nat>)

  const MAX_NODES := 2048
  const MAX_CHILDREN := 64

  function Size(t: Tree): (n: nat)
    ensures n >= 1
  {
    1 + Sizes(t.children)
  }

  function Sizes(ts: seq<Tree>): nat {
    if ts == [] then 0 else Size(ts[0]) + Sizes(ts[1..])
  }

  lemma {:induction false} SizesSnoc(ts: seq<Tree>, t: Tree)
    ensures Sizes(ts + [t]) == Sizes(ts) + Size(t)
  {
    if ts == [] {
      assert [t][1..] == [];
    } else {
      assert (ts + [t])[1..] == ts[1..] + [t];
      SizesSnoc(ts[1..], t);
    }
  }

  function Leaf(kind: NodeKind, intVal: int, text: string): Tree {
    Tree(kind, intVal, text, TEof, [])
  }

  function Branch(kind: NodeKind, text: string, children: seq<Tree>): Tree {
    Tree(kind, 0, text, TEof, children)
  }

  function Binop(op: Kind, l: Tree, r: Tree): Tree {
    Tree(NBinop, 0, "", op, [l, r])
  }

  function Unop(op: Kind, e: Tree): Tree {
    Tree(NUnop, 0, "", op, [e])
  }

  /** The built-in functions have node kinds of their own. */
  function CallKind(name: string): NodeKind {
    if name == "print" then NPrint
    else if name == "range" then NRange
    else if name == "input" then NInput
    else if name == "int" then NIntCast
    else NCall
  }

  // ----- operators -----

  /** The precedence level of a binary operator, loosest first; 7 for any other token. */
  function Level(k: Kind): nat {
    match k
    case TOr => 0
    case TAnd => 1
    case TEq => 2 case TNeq => 2 case TLt => 2 case TLe => 2 case TGt => 2 case TGe => 2
    case TPlus => 3 case TMinus => 3
    case TStar => 4 case TSlash => 4 case TPercent => 4
    case _ => 7
  }

  // ----- the expression grammar -----

  /** A parse: the result, the position after it and the pool room left. */
  datatype Res<T> = Fail | Ok(value: T, pos: nat, room: nat)

  /** The token array ends in EOF. */
  predicate Stream(toks: seq<Token>) {
    |toks| > 0 && toks[|toks| - 1].kind == TEof
  }

  /** Levels 0 to 4 are the binary operators, 5 the unary ones, 6 the primary expressions. */
  function Parse(toks: seq<Token>, pos: nat, level: nat, room: nat): (r: Res<Tree>)
    requires Stream(toks) && pos < |toks| && level <= 6
    ensures r.Ok? ==> pos < r.pos < |toks| && r.room + Size(r.value) == room
    decreases |toks| - pos, 7 - level
  {
    var k := toks[pos].kind;
    if level < 5 then
      match Parse(toks, pos, level + 1, room)
      case Fail => Fail
      case Ok(left, p, m) => Chain(toks, p, level, left, m)
    else if level == 5 then
      if k == TMinus || k == TNot then
        match Parse(toks, pos + 1, 5, room)
        case Fail => Fail
        case Ok(e, p, m) => if m == 0 then Fail else SizesOne(e); Ok(Unop(k, e), p, m - 1)
      else Parse(toks, pos, 6, room)
    else Primary(toks, pos, room)
  }

  function Primary(toks: seq<Token>, pos: nat, room: nat): (r: Res<Tree>)
    requires Stream(toks) && pos < |toks|
    ensures r.Ok? ==> pos < r.pos < |toks| && r.room + Size(r.value) == room
    decreases |toks| - pos, 0
  {
    var k := toks[pos].kind;
    if k == TInt then
      if room == 0 then Fail else Ok(Leaf(NInt, toks[pos].intVal, ""), pos + 1, room - 1)
    else if k == TStr then
      if room == 0 then Fail else Ok(Leaf(NStr, 0, toks[pos].text), pos + 1, room - 1)
    else if k == TTrue || k == TFalse then
      if room == 0 then Fail else Ok(Leaf(NBool, if k == TTrue then 1 else 0, ""), pos + 1, room - 1)
    else if k == TIdent then
      if room == 0 then Fail
      else if toks[pos + 1].kind == TLparen then Call(toks, pos, room - 1)
      else Ok(Leaf(NVar, 0, toks[pos].text), pos + 1, room - 1)
    else if k == TLparen then
      match Parse(toks, pos + 1, 0, room)
      case Fail => Fail
      case Ok(e, p, m) => if toks[p].kind == TRparen then Ok(e, p + 1, m) else Fail
    else Fail
  }

  /** The rest of a call: pos is at the name, the room is what the call node has left. */
  function Call(toks: seq<Token>, pos: nat, room: nat): (r: Res<Tree>)
    requires Stream(toks) && pos + 2 < |toks|
    ensures r.Ok? ==> pos < r.pos < |toks| && r.room + Size(r.value) == room + 1
    decreases |toks| - pos - 1, 10
  {
    match Args(toks, pos + 2, [], room)
    case Fail => Fail
    case Ok(args, p, m) =>
      if toks[p].kind == TRparen then Ok(Branch(CallKind(toks[pos].text), toks[pos].text, args), p + 1, m) else Fail
  }

  /** The operator loop of a binary level. */
  function Chain(toks: seq<Token>, pos: nat, level: nat, left: Tree, room: nat): (r: Res<Tree>)
    requires Stream(toks) && pos < |toks| && level < 5
    ensures r.Ok? ==> pos <= r.pos < |toks| && r.room + Size(r.value) == room + Size(left)
    decreases |toks| - pos, 8
  {
    if Level(toks[pos].kind) != level then Ok(left, pos, room) else
      match Parse(toks, pos + 1, level + 1, room)
      case Fail => Fail
      case Ok(right, p, m) =>
        if m == 0 then Fail else
          assert Sizes([left, right]) == Size(left) + Size(right) by { SizesPair(left, right); }
          Chain(toks, p, level, Binop(toks[pos].kind, left, right), m - 1)
  }

  lemma SizesOne(e: Tree)
    ensures Sizes([e]) == Size(e)
  {
    assert [e][1..] == [] && Sizes([]) == 0;
  }

  lemma SizesPair(l: Tree, r: Tree)
    ensures Sizes([l, r]) == Size(l) + Size(r)
  {
    assert [l, r][1..] == [r];
    SizesOne(r);
  }

  /** The argument loop of a call, up to the closing parenthesis. */
  function Args(toks: seq<Token>, pos: nat, args: seq<Tree>, room: nat): (r: Res<seq<Tree>>)
    requires Stream(toks) && pos < |toks|
    ensures r.Ok? ==> pos <= r.pos < |toks| && r.room + Sizes(r.value) == room + Sizes(args)
    decreases |toks| - pos, 9
  {
    if toks[pos].kind == TRparen || toks[pos].kind == TEof then Ok(args, pos, room) else
      match Parse(toks, pos, 0, room)
      case Fail => Fail
      case Ok(arg, p, m) =>
        if |args| >= 64 then Fail else
          assert Sizes(args + [arg]) == Sizes(args) + Size(arg) by { SizesSnoc(args, arg); }
          if toks[p].kind == TComma then Args(toks, p + 1, args + [arg], m) else Ok(args + [arg], p, m)
  }
}
