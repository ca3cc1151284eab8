/** The recursive-descent parser over its node pool. */
module GkParser {
  import opened GkSyntax
  import opened GkGrammar
  import opened GkPool

  // ----- one step of the grammar, failures included -----

  lemma ParseLevelIs(toks: seq<Token>, pos: nat, level: nat, room: nat)
    requires Stream(toks) && pos < |toks| && level < 5
    ensures Parse(toks, pos, level, room)
         == match Parse(toks, pos, level + 1, room)
            case Fail => Fail
            case Ok(left, p, m) => Chain(toks, p, level, left, m)
  {
    hide Chain, Primary;
  }

  lemma ParseUnaryIs(toks: seq<Token>, pos: nat, room: nat)
    requires Stream(toks) && pos < |toks|
    ensures toks[pos].kind == TMinus || toks[pos].kind == TNot ==>
              Parse(toks, pos, 5, room)
              == match Parse(toks, pos + 1, 5, room)
                 case Fail => Fail
                 case Ok(e, p, m) => if m == 0 then Fail else Ok(Unop(toks[pos].kind, e), p, m - 1)
    ensures toks[pos].kind != TMinus && toks[pos].kind != TNot ==> Parse(toks, pos, 5, room) == Primary(toks, pos, room)
  {
    hide Chain, Primary;
  }

  /** An operator at pos with its right operand, joined to what stands left of it. */
  function Joined(toks: seq<Token>, pos: nat, level: nat, left: Tree, room: nat): (r: Res<Tree>)
    requires Stream(toks) && pos < |toks| && level < 5 && Level(toks[pos].kind) == level
    ensures r.Ok? ==> pos < r.pos < |toks|
  {
    match Parse(toks, pos + 1, level + 1, room)
    case Fail => Fail
    case Ok(right, p, m) => if m == 0 then Fail else Ok(Binop(toks[pos].kind, left, right), p, m - 1)
  }

  lemma ChainIs(toks: seq<Token>, pos: nat, level: nat, left: Tree, room: nat)
    requires Stream(toks) && pos < |toks| && level < 5
    ensures Chain(toks, pos, level, left, room)
         == if Level(toks[pos].kind) != level then Ok(left, pos, room) else
              match Joined(toks, pos, level, left, room)
              case Fail => Fail
              case Ok(t, p, m) => Chain(toks, p, level, t, m)
  {
    hide Parse, Size, Sizes;
  }

  lemma ArgsIs(toks: seq<Token>, pos: nat, args: seq<Tree>, room: nat)
    requires Stream(toks) && pos < |toks|
    ensures Args(toks, pos, args, room)
         == if toks[pos].kind == TRparen || toks[pos].kind == TEof then Ok(args, pos, room) else
              match Parse(toks, pos, 0, room)
              case Fail => Fail
              case Ok(arg, p, m) =>
                if |args| >= 64 then Fail
                else if toks[p].kind == TComma then Args(toks, p + 1, args + [arg], m) else Ok(args + [arg], p, m)
  {
    hide Parse, Size, Sizes;
  }

  lemma StmtsIs(toks: seq<Token>, pos: nat, top: bool, done: seq<Tree>, room: nat)
    requires Stream(toks) && pos < |toks|
    ensures Stmts(toks, pos, top, done, room)
         == if toks[pos].kind == TEof || (!top && toks[pos].kind == TDedent) then Ok(done, pos, room) else
              match Stmt(toks, pos, room)
              case Fail => Fail
              case Ok(t, p, m) =>
                if |done| >= MAX_CHILDREN then Fail else Stmts(toks, Skip(toks, p), top, done + [t], m)
    ensures var r := Stmt(toks, pos, room); r.Ok? ==> pos < r.pos
  {
    hide Stmt, Size, Sizes;
  }

  lemma ParamsIs(toks: seq<Token>, pos: nat, done: seq<Tree>, room: nat)
    requires Stream(toks) && pos < |toks|
    ensures Params(toks, pos, done, room)
         == if toks[pos].kind == TRparen || toks[pos].kind == TEof then Ok(done, pos, room)
            else if toks[pos].kind != TIdent || room == 0 then Fail
            else if toks[pos + 1].kind == TComma then
              Params(toks, pos + 2, done + [Leaf(NVar, 0, toks[pos].text)], room - 1)
            else Ok(done + [Leaf(NVar, 0, toks[pos].text)], pos + 1, room - 1)
  {
    hide Size, Sizes;
  }

  /** The number of names in a parameter list. */
  function Names(toks: seq<Token>, pos: nat): nat
    decreases |toks| - pos
  {
    if pos + 1 >= |toks| || toks[pos].kind != TIdent then 0
    else if toks[pos + 1].kind == TComma then 1 + Names(toks, pos + 2)
    else 1
  }

  /** No definition has more than 63 parameters: the source stores them without a check, and the body after them. */
  predicate DefsFit(toks: seq<Token>) {
    forall i: nat :: i < |toks| && toks[i].kind == TDef ==> Names(toks, i + 3) < MAX_CHILDREN
  }

  /** The parser's messages: a token that was expected, or a limit that was met. */
  datatype ParseError =
    | NoError | Expected(k: Kind) | UnexpectedToken | TooManyNodes | TooManyArguments | BlockTooLarge | TooManyStatements

  class Parser {
    const toks: seq<Token>
    var pos: nat
    var nodes: seq<Node>
    var error: ParseError

    /** Between the calls of a parse that has not failed. */
    ghost predicate Valid()
      reads this
    {
      Stream(toks) && pos < |toks| && |nodes| <= MAX_NODES && error.NoError?
    }

    ghost function Room(): nat
      requires |nodes| <= MAX_NODES
      reads this`nodes
    {
      MAX_NODES - |nodes|
    }

    /** The call agreed with the grammar: it failed, or returned the root of the tree it appended to the pool. */
    ghost predicate Built(r: Res<Tree>, before: seq<Node>, n: int)
      reads this
    {
      if r.Fail? then n == -1 && !error.NoError? else
        && Valid()
        && n == Root(r.value, |before|)
        && nodes == before + Layout(r.value, |before|)
        && pos == r.pos && Room() == r.room
    }

    constructor (tokens: seq<Token>)
      ensures toks == tokens && nodes == [] && pos == 0 && error.NoError?
    {
      toks, pos, nodes, error := tokens, 0, [], NoError;
    }

    method NewNode(kind: NodeKind) returns (n: int)
      modifies this`nodes, this`error
      ensures old(|nodes|) < MAX_NODES ==>
                n == |old(nodes)| && nodes == old(nodes) + [Node(kind, 0, "", TEof, [])] && error == old(error)
      ensures old(|nodes|) >= MAX_NODES ==> n == -1 && nodes == old(nodes) && !error.NoError?
    {
      if |nodes| >= MAX_NODES {
        error := TooManyNodes;
        return -1;
      }
      n := |nodes|;
      nodes := nodes + [Node(kind, 0, "", TEof, [])];
    }

    method Advance()
      requires Valid()
      modifies this`pos
      ensures pos == (if toks[old(pos)].kind != TEof then old(pos) + 1 else old(pos)) && Valid()
    {
      if toks[pos].kind != TEof {
        pos := pos + 1;
      }
    }

    method Match(k: Kind)
      requires Valid() && k != TEof
      modifies this`pos
      ensures pos == Past(toks, old(pos), k) && Valid()
    {
      if toks[pos].kind == k {
        Advance();
      }
    }

    method SkipNewlines()
      requires Valid()
      modifies this`pos
      ensures pos == Skip(toks, old(pos)) && Valid()
    {
      while toks[pos].kind == TNewline
        invariant pos < |toks| && Skip(toks, pos) == Skip(toks, old(pos))
        decreases |toks| - pos
      {
        Advance();
      }
    }

    method Expect(k: Kind) returns (ok: bool)
      requires Valid() && k != TEof
      modifies this`pos, this`error
      ensures ok == (toks[old(pos)].kind == k)
      ensures if ok then pos == old(pos) + 1 && Valid() else error == Expected(k)
    {
      if toks[pos].kind == k {
        Advance();
        return true;
      }
      error := Expected(k);
      return false;
    }

    /** A leaf node with its value. */
    method NewLeaf(t: Tree) returns (n: int)
      requires Valid() && t == Leaf(t.kind, t.intVal, t.text)
      modifies this`nodes, this`error
      ensures Built(if old(Room()) == 0 then Fail else Ok(t, pos, old(Room()) - 1), old(nodes), n)
    {
      n := NewNode(t.kind);
      if n < 0 {
        return -1;
      }
      nodes := nodes[n := nodes[n].(intVal := t.intVal, text := t.text)];
      LayoutLeaf(t, |old(nodes)|);
    }

    /** The levels of parse_or down to parse_mul. */
    method ParseBinary(level: nat) returns (left: int)
      requires Valid() && level < 5
      modifies this
      ensures Built(Parse(toks, old(pos), level, old(Room())), old(nodes), left)
      decreases |toks| - pos, 14 - 2 * level
    {
      hide Parse, Primary, Layout, Root, Size, Chain, Level;
      ghost var before, start, room := nodes, pos, Room();
      ParseLevelIs(toks, pos, level, room);
      left := ParseOperand(level + 1);
      if left < 0 {
        return -1;
      }
      ghost var t := Parse(toks, start, level + 1, room).value;
      while Level(toks[pos].kind) == level
        invariant Valid() && pos > start && left == Root(t, |before|) && nodes == before + Layout(t, |before|)
        invariant Chain(toks, pos, level, t, Room()) == Parse(toks, start, level, room)
        decreases |toks| - pos
      {
        ghost var joined := Joined(toks, pos, level, t, Room());
        ChainIs(toks, pos, level, t, Room());
        left := ParseRight(level, left, before, t);
        if left < 0 {
          return -1;
        }
        t := joined.value;
      }
      ChainIs(toks, pos, level, t, Room());
    }

    /** One turn of the operator loop: the operator, its right operand and the node over both. */
    method ParseRight(level: nat, left: int, ghost before: seq<Node>, ghost t: Tree) returns (n: int)
      requires Valid() && level < 5 && Level(toks[pos].kind) == level
      requires left == Root(t, |before|) && nodes == before + Layout(t, |before|)
      modifies this
      ensures Built(Joined(toks, old(pos), level, t, old(Room())), before, n)
      decreases |toks| - pos, 13 - 2 * level
    {
      hide Parse, Layout, Root, Size;
      var op := toks[pos].kind;
      Advance();
      ghost var parsed := Parse(toks, pos, level + 1, Room());
      var right := ParseOperand(level + 1);
      if right < 0 {
        return -1;
      }
      n := NewNode(NBinop);
      if n < 0 {
        return -1;
      }
      LayoutBinop(op, t, parsed.value, |before|);
      nodes := nodes[n := nodes[n].(op := op, children := [left, right])];
    }

    method ParseOperand(level: nat) returns (n: int)
      requires Valid() && 0 < level <= 5
      modifies this
      ensures Built(Parse(toks, old(pos), level, old(Room())), old(nodes), n)
      decreases |toks| - pos, 15 - 2 * level
    {
      if level < 5 {
        n := ParseBinary(level);
      } else {
        n := ParseUnary();
      }
    }

    method ParseUnary() returns (n: int)
      requires Valid()
      modifies this
      ensures Built(Parse(toks, old(pos), 5, old(Room())), old(nodes), n)
      decreases |toks| - pos, 3
    {
      hide Parse, Primary, Layout, Root, Size;
      ParseUnaryIs(toks, pos, Room());
      var op := toks[pos].kind;
      if op == TMinus || op == TNot {
        ghost var before := nodes;
        Advance();
        ghost var parsed := Parse(toks, pos, 5, Room());
        var operand := ParseUnary();
        if operand < 0 {
          return -1;
        }
        n := NewNode(NUnop);
        if n < 0 {
          return -1;
        }
        LayoutUnop(op, parsed.value, |before|);
        nodes := nodes[n := nodes[n].(op := op, children := [operand])];
      } else {
        n := ParsePrimary();
      }
    }

    method ParsePrimary() returns (n: int)
      requires Valid()
      modifies this
      ensures Built(Primary(toks, old(pos), old(Room())), old(nodes), n)
      decreases |toks| - pos, 1
    {
      hide Parse, Layout, Root, Size, Call;
      var t := toks[pos];
      if t.kind == TInt {
        n := TakeLeaf(Leaf(NInt, t.intVal, ""));
      } else if t.kind == TStr {
        n := TakeLeaf(Leaf(NStr, 0, t.text));
      } else if t.kind == TTrue || t.kind == TFalse {
        n := TakeLeaf(Leaf(NBool, if t.kind == TTrue then 1 else 0, ""));
      } else if t.kind == TIdent {
        if toks[pos + 1].kind == TLparen {
          Advance();
          n := ParseCall(t.text);
        } else {
          n := TakeLeaf(Leaf(NVar, 0, t.text));
        }
      } else if t.kind == TLparen {
        n := ParseParens();
      } else {
        error := UnexpectedToken;
        n := -1;
      }
    }

    /** A token that is an expression by itself. */
    method TakeLeaf(t: Tree) returns (n: int)
      requires Valid() && t == Leaf(t.kind, t.intVal, t.text) && pos + 1 < |toks| && toks[pos].kind != TEof
      modifies this
      ensures Built(if old(Room()) == 0 then Fail else Ok(t, old(pos) + 1, old(Room()) - 1), old(nodes), n)
    {
      hide Layout, Root, Size, Stream;
      Advance();
      n := NewLeaf(t);
    }

    method ParseParens() returns (n: int)
      requires Valid() && toks[pos].kind == TLparen && pos + 1 < |toks|
      modifies this
      ensures var r := Parse(toks, old(pos) + 1, 0, old(Room()));
              Built(if r.Fail? || toks[r.pos].kind != TRparen then Fail else Ok(r.value, r.pos + 1, r.room), old(nodes), n)
      decreases |toks| - pos, 0
    {
      hide Parse, Layout, Root, Size, Stream;
      Advance();
      n := ParseBinary(0);
      if n < 0 {
        return -1;
      }
      var ok := Expect(TRparen);
      if !ok {
        return -1;
      }
    }

    /** Store one more child in a node that has a free place for it. */
    method Attach(n: int, child: int, ghost before: seq<Node>, ghost t: Tree, ghost c: Tree)
      requires Valid() && !After(t) && |t.children| < MAX_CHILDREN
      requires n == |before| && child == Root(c, |before| + Size(t))
      requires nodes == before + Layout(t, |before|) + Layout(c, |before| + Size(t))
      modifies this`nodes
      ensures nodes == before + Layout(t.(children := t.children + [c]), |before|) && |nodes| == |old(nodes)|
    {
      hide Layout, Root, Size, Sizes, Stream;
      AddChild(before, t, c);
      LayoutFirst(before, t);
      nodes := nodes[n := nodes[n].(children := nodes[n].children + [child])];
    }

    /** The same with the check that the source makes before most of these stores. */
    method Append(n: int, child: int, message: ParseError, ghost before: seq<Node>, ghost t: Tree, ghost c: Tree) returns (ok: bool)
      requires Valid() && !After(t) && !message.NoError?
      requires n == |before| && child == Root(c, |before| + Size(t))
      requires nodes == before + Layout(t, |before|) + Layout(c, |before| + Size(t))
      modifies this`nodes, this`error
      ensures ok == (|t.children| < MAX_CHILDREN)
      ensures ok ==> Valid() && nodes == before + Layout(t.(children := t.children + [c]), |before|)
      ensures |nodes| == |old(nodes)|
      ensures !ok ==> !error.NoError?
    {
      hide Layout, Root, Size, Sizes, Stream;
      LayoutFirst(before, t);
      if |nodes[n].children| >= MAX_CHILDREN {
        error := message;
        return false;
      }
      Attach(n, child, before, t, c);
      return true;
    }

    /** The rest of a call, from its opening parenthesis. */
    method ParseCall(name: string) returns (n: int)
      requires Valid() && 0 < pos < |toks| - 1 && toks[pos - 1].text == name && toks[pos].kind == TLparen
      modifies this
      ensures Built(if old(Room()) == 0 then Fail else Call(toks, old(pos) - 1, old(Room()) - 1), old(nodes), n)
      decreases |toks| - pos, 20
    {
      hide Layout, Root, Size, CallKind, Args, Call, Stream;
      CallIs(toks, pos - 1, if Room() == 0 then 0 else Room() - 1);
      Advance();
      n := CallNode(name);
    }

    /** The node of a call and its arguments. */
    method CallNode(name: string) returns (n: int)
      requires Valid()
      modifies this
      ensures var room := old(Room());
              var r := if room == 0 then Fail else Args(toks, old(pos), [], room - 1);
              Built(if r.Fail? || toks[r.pos].kind != TRparen then Fail else Ok(Branch(CallKind(name), name, r.value), r.pos + 1, r.room),
                    old(nodes), n)
      decreases |toks| - pos, 21
    {
      hide Layout, Root, Size, CallKind, Args, Stream;
      ghost var before := nodes;
      CallKindBefore(name);
      n := NewBranch(CallKind(name), name);
      if n < 0 {
        return -1;
      }
      ghost var t := Branch(CallKind(name), name, []);
      ghost var args := Args(toks, pos, [], Room());
      var ok := ParseArgList(n, before, t);
      if !ok {
        return -1;
      }
      RootFirst(t.(children := args.value), |before|);
    }

    method ParseArgList(n: int, ghost before: seq<Node>, ghost call: Tree) returns (ok: bool)
      requires Valid() && n == |before| && nodes == before + Layout(call, |before|) && !After(call) && call.children == []
      modifies this
      ensures var r := Args(toks, old(pos), [], old(Room()));
              if r.Fail? || toks[r.pos].kind != TRparen then !ok && !error.NoError?
              else && ok && Valid() && pos == r.pos + 1 && Room() == r.room
                   && nodes == before + Layout(call.(children := r.value), |before|)
      decreases |toks| - pos, 20
    {
      hide Layout, Root, Size, Args, Stream;
      ghost var args;
      ok, args := ParseArgs(n, before, call);
      if ok {
        ok := Expect(TRparen);
      }
    }

    /** One turn of the argument loop, up to the comma. */
    method ParseArg(n: int, ghost before: seq<Node>, ghost t: Tree) returns (ok: bool)
      requires Valid() && n == |before| && nodes == before + Layout(t, |before|) && !After(t)
      modifies this
      ensures var parsed := Parse(toks, old(pos), 0, old(Room()));
              if parsed.Fail? || |t.children| >= MAX_CHILDREN then !ok && !error.NoError?
              else && ok && Valid() && pos == parsed.pos && Room() == parsed.room
                   && nodes == before + Layout(t.(children := t.children + [parsed.value]), |before|)
      decreases |toks| - pos, 18
    {
      hide Parse, Layout, Root, Size, Stream;
      ghost var parsed := Parse(toks, pos, 0, Room());
      var arg := ParseBinary(0);
      if arg < 0 {
        return false;
      }
      ok := Append(n, arg, TooManyArguments, before, t, parsed.value);
    }

    method ParseArgs(n: int, ghost before: seq<Node>, ghost call: Tree) returns (ok: bool, ghost args: seq<Tree>)
      requires Valid() && n == |before| && nodes == before + Layout(call, |before|) && !After(call) && call.children == []
      modifies this
      ensures ok <==> Args(toks, old(pos), [], old(Room())).Ok?
      ensures !ok ==> !error.NoError?
      ensures ok ==> Valid() && Args(toks, old(pos), [], old(Room())) == Ok(args, pos, Room())
                     && nodes == before + Layout(call.(children := args), |before|)
      decreases |toks| - pos, 19
    {
      hide Parse, Layout, Root, Size, Sizes, Args, Stream;
      ghost var start, room := pos, Room();
      args := [];
      var more := true;
      while more && toks[pos].kind != TRparen && toks[pos].kind != TEof
        invariant Valid() && pos >= start && nodes == before + Layout(call.(children := args), |before|)
        invariant more ==> Args(toks, pos, args, Room()) == Args(toks, start, [], room)
        invariant !more ==> Ok(args, pos, Room()) == Args(toks, start, [], room)
        decreases |toks| - pos
      {
        ArgsIs(toks, pos, args, Room());
        ghost var parsed := Parse(toks, pos, 0, Room());
        ok := ParseArg(n, before, call.(children := args));
        if !ok {
          return false, args;
        }
        args := args + [parsed.value];
        more := toks[pos].kind == TComma;
        if more {
          Advance();
        }
      }
      ArgsIs(toks, pos, args, Room());
      return true, args;
    }

    // ----- statements -----

    /** A node with a name and no children yet. */
    method NewBranch(kind: NodeKind, text: string) returns (n: int)
      requires Valid() && kind != NBinop && kind != NUnop
      modifies this`nodes, this`error
      ensures n == -1 <==> old(Room()) == 0
      ensures n == -1 ==> !error.NoError?
      ensures n != -1 ==> && n == |old(nodes)| && nodes == old(nodes) + Layout(Branch(kind, text, []), |old(nodes)|)
                          && Valid() && Room() == old(Room()) - 1
    {
      n := NewNode(kind);
      if n < 0 {
        return -1;
      }
      nodes := nodes[n := nodes[n].(text := text)];
      LayoutLeaf(Branch(kind, text, []), |old(nodes)|);
    }

    method ParseStmt() returns (n: int)
      requires Valid() && DefsFit(toks)
      modifies this
      ensures Built(Stmt(toks, old(pos), old(Room())), old(nodes), n)
      decreases |toks| - pos, 24
    {
      hide Return, Jump, Def, If, Loop, For, Assign, ExprStmt, DefsFit, Layout, Root, Size;
      var k := toks[pos].kind;
      if k == TReturn {
        n := ParseReturn();
      } else if k == TBreak || k == TContinue {
        n := ParseJump(if k == TBreak then NBreak else NContinue);
      } else if k == TDef {
        n := ParseDef();
      } else if k == TIf || k == TElif {
        n := ParseIf();
      } else if k == TWhile {
        Advance();
        n := ParseLoop(NWhile, "");
      } else if k == TFor {
        n := ParseFor();
      } else if k == TIdent && toks[pos + 1].kind == TAssign {
        n := ParseAssign();
      } else {
        n := ParseExprStmt();
      }
    }

    method ParseJump(kind: NodeKind) returns (n: int)
      requires Valid() && pos + 1 < |toks| && toks[pos].kind != TEof && kind != NBinop && kind != NUnop
      modifies this
      ensures Built(Jump(kind, toks, old(pos), old(Room())), old(nodes), n)
    {
      hide Layout, Root, Size, Past;
      RootFirst(Branch(kind, "", []), |nodes|);
      Advance();
      Match(TNewline);
      n := NewBranch(kind, "");
    }

    method ParseExprStmt() returns (n: int)
      requires Valid()
      modifies this
      ensures Built(ExprStmt(toks, old(pos), old(Room())), old(nodes), n)
      decreases |toks| - pos, 20
    {
      hide Parse, Layout, Root, Size, Past;
      n := ParseBinary(0);
      if n < 0 {
        return -1;
      }
      Match(TNewline);
    }

    method ParseFor() returns (n: int)
      requires Valid() && DefsFit(toks) && pos + 1 < |toks| && toks[pos].kind == TFor
      modifies this
      ensures Built(For(toks, old(pos), old(Room())), old(nodes), n)
      decreases |toks| - pos, 20
    {
      hide Loop, Layout, Root, Size, DefsFit;
      Advance();
      var ok, name := ForHead();
      if !ok {
        return -1;
      }
      n := ParseLoop(NFor, name);
    }

    /** The variable of a for loop and the word after it. */
    method ForHead() returns (ok: bool, name: string)
      requires Valid()
      modifies this`pos, this`error
      ensures ok <==> toks[old(pos)].kind == TIdent && toks[old(pos) + 1].kind == TIn
      ensures ok ==> Valid() && pos == old(pos) + 2 && name == toks[old(pos)].text
      ensures !ok ==> !error.NoError?
    {
      name := toks[pos].text;
      if toks[pos].kind != TIdent {
        error := Expected(TIdent);
        return false, name;
      }
      Advance();
      ok := Expect(TIn);
    }

    method ParseReturn() returns (n: int)
      requires Valid() && pos + 1 < |toks| && toks[pos].kind == TReturn
      modifies this
      ensures Built(Return(toks, old(pos), old(Room())), old(nodes), n)
      decreases |toks| - pos, 20
    {
      hide Layout, Root, Size, Past, One, Jump;
      if toks[pos + 1].kind != TNewline && toks[pos + 1].kind != TEof {
        Advance();
        n := ParseOne(NReturn, "");
      } else {
        n := ParseJump(NReturn);
      }
    }

    method ParseAssign() returns (n: int)
      requires Valid() && pos + 2 < |toks| && toks[pos].kind == TIdent && toks[pos + 1].kind == TAssign
      modifies this
      ensures Built(Assign(toks, old(pos), old(Room())), old(nodes), n)
      decreases |toks| - pos, 20
    {
      hide Layout, Root, Size, Past, One;
      var name := toks[pos].text;
      Advance();
      Advance();
      n := ParseOne(NAssign, name);
    }

    /** A node, its only child and the optional newline, for a return and an assignment. */
    method ParseOne(kind: NodeKind, name: string) returns (n: int)
      requires Valid() && kind != NBinop && kind != NUnop
      modifies this
      ensures Built(One(kind, name, toks, old(pos), old(Room())), old(nodes), n)
      decreases |toks| - pos, 20
    {
      hide Parse, Layout, Root, Size, Stream, Past;
      n := ParseOnly(kind, name);
      if n < 0 {
        return -1;
      }
      Match(TNewline);
    }

    method ParseOnly(kind: NodeKind, name: string) returns (n: int)
      requires Valid() && kind != NBinop && kind != NUnop
      modifies this
      ensures var room := old(Room());
              var r := if room == 0 then Fail else Parse(toks, old(pos), 0, room - 1);
              Built(if r.Fail? then Fail else Ok(Branch(kind, name, [r.value]), r.pos, r.room), old(nodes), n)
      decreases |toks| - pos, 19
    {
      hide Parse, Layout, Root, Size, Stream;
      ghost var before := nodes;
      n := NewBranch(kind, name);
      if n < 0 {
        return -1;
      }
      ghost var t := Branch(kind, name, []);
      SizeLeaf(t);
      ghost var parsed := Parse(toks, pos, 0, Room());
      var expr := ParseBinary(0);
      if expr < 0 {
        return -1;
      }
      StoreOne(before, t, parsed.value);
      nodes := nodes[n := nodes[n].(children := [expr])];
      RootFirst(Branch(kind, name, [parsed.value]), |before|);
    }

    /** The node, the head expression and the body of a while, a for or an if. */
    method ParseLoop(kind: NodeKind, name: string) returns (n: int)
      requires Valid() && DefsFit(toks) && kind != NBinop && kind != NUnop
      modifies this
      ensures Built(if old(Room()) == 0 then Fail else Loop(kind, name, toks, old(pos), old(Room()) - 1), old(nodes), n)
      decreases |toks| - pos, 20
    {
      hide Parse, Layout, Root, Size, Stream, Body, DefsFit;
      ghost var before := nodes;
      n := NewBranch(kind, name);
      if n < 0 {
        return -1;
      }
      ghost var t := Branch(kind, name, []);
      LayoutLeaf(t, |before|);
      ghost var head := Parse(toks, pos, 0, Room());
      var cond := ParseBinary(0);
      if cond < 0 {
        return -1;
      }
      ghost var rest := Body(toks, pos, Room());
      var body := ParseBody();
      if body < 0 {
        return -1;
      }
      StorePair(before, t, head.value, rest.value);
      nodes := nodes[n := nodes[n].(children := [cond, body])];
      RootFirst(Branch(kind, name, [head.value, rest.value]), |before|);
    }

    method ParseDef() returns (n: int)
      requires Valid() && DefsFit(toks) && pos + 1 < |toks| && toks[pos].kind == TDef
      modifies this
      ensures Built(Def(toks, old(pos), old(Room())), old(nodes), n)
      decreases |toks| - pos, 22
    {
      hide Layout, Root, Size, Signature, Body, DefsFit, Names;
      ghost var before := nodes;
      ParamsFit(toks, pos);
      Advance();
      var name := toks[pos];
      if name.kind != TIdent {
        error := Expected(TIdent);
        return -1;
      }
      Advance();
      n := NewBranch(NDef, name.text);
      if n < 0 {
        return -1;
      }
      ghost var ps := Signature(toks, pos, Room());
      SignatureAdvances(toks, pos, Room());
      var ok := ParseSignature(n, name.text, before);
      if !ok {
        return -1;
      }
      ghost var t := Branch(NDef, name.text, ps.value);
      ok := ParseDefBody(n, before, t);
      if !ok {
        return -1;
      }
      RootFirst(t.(children := ps.value + [Body(toks, ps.pos, ps.room).value]), |before|);
    }

    method ParseDefBody(n: int, ghost before: seq<Node>, ghost t: Tree) returns (ok: bool)
      requires Valid() && DefsFit(toks) && !After(t) && |t.children| < MAX_CHILDREN
      requires n == |before| && nodes == before + Layout(t, |before|)
      modifies this
      ensures var rest := Body(toks, old(pos), old(Room()));
              if rest.Fail? then !ok && !error.NoError?
              else && ok && Valid() && pos == rest.pos && Room() == rest.room
                   && nodes == before + Layout(t.(children := t.children + [rest.value]), |before|)
      decreases |toks| - pos, 20
    {
      hide Layout, Root, Size, Body, DefsFit, Stream;
      ghost var rest := Body(toks, pos, Room());
      var body := ParseBody();
      if body < 0 {
        return false;
      }
      Attach(n, body, before, t, rest.value);
      return true;
    }

    method ParseSignature(n: int, name: string, ghost before: seq<Node>) returns (ok: bool)
      requires Valid() && Names(toks, pos + 1) < MAX_CHILDREN
      requires n == |before| && nodes == before + Layout(Branch(NDef, name, []), |before|)
      modifies this
      ensures var r := Signature(toks, old(pos), old(Room()));
              if r.Fail? then !ok && !error.NoError?
              else && ok && Valid() && pos == r.pos && Room() == r.room && |r.value| < MAX_CHILDREN
                   && nodes == before + Layout(Branch(NDef, name, r.value), |before|)
    {
      hide Layout, Root, Size, Params, Names, Stream;
      ok := Expect(TLparen);
      if !ok {
        return;
      }
      ghost var ps;
      ok, ps := ParseParams(n, name, before);
      if ok {
        ok := Expect(TRparen);
      }
    }

    method AddParam(n: int, name: string, param: string, ghost before: seq<Node>, ghost ps: seq<Tree>) returns (ok: bool)
      requires Valid() && |ps| < MAX_CHILDREN
      requires n == |before| && nodes == before + Layout(Branch(NDef, name, ps), |before|)
      modifies this`nodes, this`error
      ensures ok <==> old(Room()) > 0
      ensures !ok ==> !error.NoError?
      ensures ok ==> && Valid() && Room() == old(Room()) - 1
                     && nodes == before + Layout(Branch(NDef, name, ps + [Leaf(NVar, 0, param)]), |before|)
    {
      hide Layout, Root, Size, Stream;
      var pn := NewLeaf(Leaf(NVar, 0, param));
      if pn < 0 {
        return false;
      }
      Attach(n, pn, before, Branch(NDef, name, ps), Leaf(NVar, 0, param));
      return true;
    }

    /** One turn of the parameter loop. */
    method ParseParam(n: int, name: string, ghost before: seq<Node>, ghost ps: seq<Tree>) returns (ok: bool, more: bool)
      requires Valid() && |ps| < MAX_CHILDREN && pos + 1 < |toks|
      requires n == |before| && nodes == before + Layout(Branch(NDef, name, ps), |before|)
      modifies this
      ensures ok <==> toks[old(pos)].kind == TIdent && old(Room()) > 0
      ensures !ok ==> !error.NoError?
      ensures ok ==> && Valid() && Room() == old(Room()) - 1 && (more <==> toks[old(pos) + 1].kind == TComma)
                     && pos == old(pos) + (if more then 2 else 1)
                     && nodes == before + Layout(Branch(NDef, name, ps + [Leaf(NVar, 0, toks[old(pos)].text)]), |before|)
    {
      hide Layout, Root, Size, Stream;
      var param := toks[pos];
      more := false;
      if param.kind != TIdent {
        error := Expected(TIdent);
        return false, false;
      }
      Advance();
      ok := AddParam(n, name, param.text, before, ps);
      if ok && toks[pos].kind == TComma {
        more := true;
        Advance();
      }
    }

    method ParseParams(n: int, name: string, ghost before: seq<Node>) returns (ok: bool, ghost ps: seq<Tree>)
      requires Valid() && Names(toks, pos) < MAX_CHILDREN
      requires n == |before| && nodes == before + Layout(Branch(NDef, name, []), |before|)
      modifies this
      ensures ok <==> Params(toks, old(pos), [], old(Room())).Ok?
      ensures !ok ==> !error.NoError?
      ensures ok ==> Valid() && Params(toks, old(pos), [], old(Room())) == Ok(ps, pos, Room()) && |ps| < MAX_CHILDREN
                     && nodes == before + Layout(Branch(NDef, name, ps), |before|)
    {
      hide Layout, Root, Size, Params, Names;
      ghost var start, room := pos, Room();
      ps := [];
      var more := true;
      while more && toks[pos].kind != TRparen && toks[pos].kind != TEof
        invariant Valid() && pos >= start && nodes == before + Layout(Branch(NDef, name, ps), |before|)
        invariant more ==> Params(toks, pos, ps, Room()) == Params(toks, start, [], room)
        invariant !more ==> Ok(ps, pos, Room()) == Params(toks, start, [], room)
        invariant |ps| + (if more then Names(toks, pos) else 0) < MAX_CHILDREN
        decreases |toks| - pos
      {
        ParamsIs(toks, pos, ps, Room());
        NamesIs(toks, pos);
        ghost var v := Leaf(NVar, 0, toks[pos].text);
        ok, more := ParseParam(n, name, before, ps);
        if !ok {
          return false, ps;
        }
        ps := ps + [v];
      }
      ParamsIs(toks, pos, ps, Room());
      return true, ps;
    }

    method ParseIf() returns (n: int)
      requires Valid() && DefsFit(toks) && pos + 1 < |toks| && (toks[pos].kind == TIf || toks[pos].kind == TElif)
      modifies this
      ensures Built(If(toks, old(pos), old(Room())), old(nodes), n)
      decreases |toks| - pos, 22
    {
      hide Layout, Root, Size, Stream, Loop, Else, DefsFit, Skip, If;
      IfIs(toks, pos, Room());
      ghost var before := nodes;
      Advance();
      ghost var head := if Room() == 0 then Fail else Loop(NIf, "", toks, pos, Room() - 1);
      n := IfNode();
      if n < 0 {
        return -1;
      }
      ghost var rest := Else(toks, pos, Room());
      var ok := ParseTail(n, before, head.value);
      if !ok {
        return -1;
      }
      RootFirst(head.value.(children := head.value.children + rest.value), |before|);
    }

    /** The condition and the first branch, and the newlines after them. */
    method IfNode() returns (n: int)
      requires Valid() && DefsFit(toks)
      modifies this
      ensures var room := old(Room());
              var r := if room == 0 then Fail else Loop(NIf, "", toks, old(pos), room - 1);
              if r.Fail? then n == -1 && !error.NoError?
              else && Valid() && n == |old(nodes)| && nodes == old(nodes) + Layout(r.value, |old(nodes)|)
                   && r.value.kind == NIf && |r.value.children| == 2
                   && old(pos) < r.pos < |toks| && pos == Skip(toks, r.pos) && Room() == r.room
      decreases |toks| - pos, 21
    {
      hide Layout, Root, Size, Stream, Loop, DefsFit, Skip;
      ghost var before, room := nodes, Room();
      LoopIs(NIf, "", toks, pos, if room == 0 then 0 else room - 1);
      ghost var head := if room == 0 then Fail else Loop(NIf, "", toks, pos, room - 1);
      n := ParseLoop(NIf, "");
      if n < 0 {
        return -1;
      }
      RootFirst(head.value, |before|);
      SkipNewlines();
    }

    /** The optional elif or else of an if node that is complete so far. */
    method ParseTail(n: int, ghost before: seq<Node>, ghost t: Tree) returns (ok: bool)
      requires Valid() && DefsFit(toks) && t.kind == NIf && |t.children| == 2
      requires n == |before| && nodes == before + Layout(t, |before|)
      modifies this
      ensures var rest := Else(toks, old(pos), old(Room()));
              if rest.Fail? then !ok && !error.NoError?
              else && ok && Valid() && pos == rest.pos && Room() == rest.room
                   && nodes == before + Layout(t.(children := t.children + rest.value), |before|)
      decreases |toks| - pos, 26
    {
      hide Layout, Root, Size, Stream, Else, DefsFit;
      ghost var rest := Else(toks, pos, Room());
      ElseIs(toks, pos, Room());
      if toks[pos].kind == TElif || toks[pos].kind == TElse {
        var other := ParseElse();
        if other < 0 {
          return false;
        }
        assert rest.value == [rest.value[0]];
        Attach(n, other, before, t, rest.value[0]);
      } else {
        assert t.children + [] == t.children;
      }
      return true;
    }

    method ParseElse() returns (n: int)
      requires Valid() && DefsFit(toks) && (toks[pos].kind == TElif || toks[pos].kind == TElse)
      modifies this
      ensures var r := Else(toks, old(pos), old(Room()));
              Built(if r.Fail? then Fail else Ok(r.value[0], r.pos, r.room), old(nodes), n)
      decreases |toks| - pos, 25
    {
      hide Layout, Root, Size, Stmt, Body, DefsFit;
      if toks[pos].kind == TElif {
        n := ParseStmt();
      } else {
        Advance();
        n := ParseBody();
      }
    }

    method ParseBody() returns (n: int)
      requires Valid() && DefsFit(toks)
      modifies this
      ensures Built(Body(toks, old(pos), old(Room())), old(nodes), n)
      decreases |toks| - pos, 12
    {
      hide Layout, Root, Size, Block, DefsFit;
      var ok := Expect(TColon);
      if !ok {
        return -1;
      }
      Match(TNewline);
      n := ParseBlock();
    }

    method ParseBlock() returns (n: int)
      requires Valid() && DefsFit(toks)
      modifies this
      ensures Built(Block(toks, old(pos), old(Room())), old(nodes), n)
      decreases |toks| - pos, 11
    {
      hide Layout, Root, Size, Stream, Stmts, DefsFit, Skip, Past;
      var ok := Expect(TIndent);
      if !ok {
        return -1;
      }
      n := ParseStmtList(false, BlockTooLarge);
      if n < 0 {
        return -1;
      }
      Match(TDedent);
    }

    /** A block node and its statements, for parse_block and gk_parse. */
    method ParseStmtList(top: bool, message: ParseError) returns (n: int)
      requires Valid() && DefsFit(toks) && !message.NoError?
      modifies this
      ensures var room := old(Room());
              var r := if room == 0 then Fail else Stmts(toks, Skip(toks, old(pos)), top, [], room - 1);
              Built(if r.Fail? then Fail else Ok(Branch(NBlock, "", r.value), r.pos, r.room), old(nodes), n)
      decreases |toks| - pos, 27
    {
      hide Layout, Root, Size, Stream, Stmts, DefsFit, Skip;
      ghost var before := nodes;
      n := NewBranch(NBlock, "");
      if n < 0 {
        return -1;
      }
      SkipNewlines();
      var ok;
      ghost var ts;
      ok, ts := ParseStmts(n, top, message, before);
      if !ok {
        return -1;
      }
      RootFirst(Branch(NBlock, "", ts), |before|);
    }

    /** gk_parse: the whole program, into a fresh pool. */
    method ParseProgram() returns (n: int)
      requires Stream(toks) && DefsFit(toks) && error.NoError?
      modifies this
      ensures Built(Program(toks), [], n)
      ensures n >= 0 ==> n == 0 && Represents(nodes, n, Program(toks).value)
      ensures n >= 0 ==> Kids(nodes) + multiset{0} == Range(0, |nodes|)
      ensures n < 0 <==> !error.NoError?
    {
      hide Layout, Root, Size, Stmts, DefsFit, Skip, Kids, Range, Represents;
      nodes, pos := [], 0;
      n := ParseStmtList(true, TooManyStatements);
      if n >= 0 {
        ghost var t := Program(toks).value;
        RootFirst(t, 0);
        PoolIs(nodes, t);
      }
    }

    /** One turn of the statement loop, up to the newlines. */
    method ParseChild(n: int, message: ParseError, ghost before: seq<Node>, ghost ts: seq<Tree>) returns (ok: bool)
      requires Valid() && DefsFit(toks) && !message.NoError?
      requires n == |before| && nodes == before + Layout(Branch(NBlock, "", ts), |before|)
      modifies this
      ensures var parsed := Stmt(toks, old(pos), old(Room()));
              if parsed.Fail? || |ts| >= MAX_CHILDREN then !ok && !error.NoError?
              else && ok && Valid() && pos == parsed.pos && Room() == parsed.room
                   && nodes == before + Layout(Branch(NBlock, "", ts + [parsed.value]), |before|)
      decreases |toks| - pos, 25
    {
      hide Stmt, Layout, Root, Size, Stream, DefsFit;
      ghost var parsed := Stmt(toks, pos, Room());
      var st := ParseStmt();
      if st < 0 {
        return false;
      }
      ok := Append(n, st, message, before, Branch(NBlock, "", ts), parsed.value);
    }

    /** The statement loop of parse_block and of gk_parse. */
    method ParseStmts(n: int, top: bool, message: ParseError, ghost before: seq<Node>) returns (ok: bool, ghost ts: seq<Tree>)
      requires Valid() && DefsFit(toks) && !message.NoError?
      requires n == |before| && nodes == before + Layout(Branch(NBlock, "", []), |before|)
      modifies this
      ensures ok <==> Stmts(toks, old(pos), top, [], old(Room())).Ok?
      ensures !ok ==> !error.NoError?
      ensures ok ==> Valid() && Stmts(toks, old(pos), top, [], old(Room())) == Ok(ts, pos, Room())
                     && nodes == before + Layout(Branch(NBlock, "", ts), |before|)
      decreases |toks| - pos, 26
    {
      hide Layout, Root, Size, Stream, Stmts, Stmt, DefsFit;
      ghost var start, room := pos, Room();
      ts := [];
      while !(toks[pos].kind == TEof || (!top && toks[pos].kind == TDedent))
        invariant Valid() && pos >= start && nodes == before + Layout(Branch(NBlock, "", ts), |before|)
        invariant Stmts(toks, pos, top, ts, Room()) == Stmts(toks, start, top, [], room)
        decreases |toks| - pos
      {
        StmtsIs(toks, pos, top, ts, Room());
        ghost var parsed := Stmt(toks, pos, Room());
        ok := ParseChild(n, message, before, ts);
        if !ok {
          return false, ts;
        }
        ts := ts + [parsed.value];
        SkipNewlines();
      }
      StmtsIs(toks, pos, top, ts, Room());
      return true, ts;
    }
  }

  lemma NamesIs(toks: seq<Token>, pos: nat)
    requires pos + 1 < |toks|
    ensures toks[pos].kind == TIdent ==>
              Names(toks, pos) == 1 + if toks[pos + 1].kind == TComma then Names(toks, pos + 2) else 0
  {
  }

  lemma ParamsFit(toks: seq<Token>, pos: nat)
    requires DefsFit(toks) && pos < |toks| && toks[pos].kind == TDef
    ensures Names(toks, pos + 3) < MAX_CHILDREN
  {
    hide Names;
  }

  lemma LoopIs(kind: NodeKind, name: string, toks: seq<Token>, pos: nat, room: nat)
    requires Stream(toks) && pos < |toks|
    ensures var r := Loop(kind, name, toks, pos, room);
            r.Ok? ==> r.value == Branch(kind, name, r.value.children) && |r.value.children| == 2 && pos < r.pos < |toks|
  {
    hide Parse, Body, Size;
  }

  lemma SignatureAdvances(toks: seq<Token>, pos: nat, room: nat)
    requires Stream(toks) && pos < |toks|
    ensures var r := Signature(toks, pos, room); r.Ok? ==> pos < r.pos < |toks|
  {
    hide Params, Size, Sizes;
  }

  lemma PoolIs(pool: seq<Node>, t: Tree)
    requires pool == [] + Layout(t, 0) && !After(t)
    ensures Represents(pool, 0, t) && Kids(pool) + multiset{0} == Range(0, |pool|)
  {
    hide Layout, Size, Kids, Range, Represents;
    assert pool == Layout(t, 0);
    assert Holds(pool, 0, Layout(t, 0));
    LayoutRepresents(pool, 0, t);
    EachIndexOnce(t, 0);
  }

  lemma SizeLeaf(t: Tree)
    requires t.children == []
    ensures Size(t) == 1
  {
  }

  lemma IfIs(toks: seq<Token>, pos: nat, room: nat)
    requires Stream(toks) && pos + 1 < |toks|
    ensures room == 0 ==> If(toks, pos, room).Fail?
    ensures room > 0 ==>
              var head := Loop(NIf, "", toks, pos + 1, room - 1);
              if head.Fail? then If(toks, pos, room).Fail? else
                var rest := Else(toks, Skip(toks, head.pos), head.room);
                If(toks, pos, room) == if rest.Fail? then Fail else
                  Ok(head.value.(children := head.value.children + rest.value), rest.pos, rest.room)
  {
    hide Loop, Else, Size, Skip;
  }

  lemma CallIs(toks: seq<Token>, pos: nat, room: nat)
    requires Stream(toks) && pos + 2 < |toks|
    ensures var r := Args(toks, pos + 2, [], room);
            Call(toks, pos, room)
            == if r.Fail? || toks[r.pos].kind != TRparen then Fail
               else Ok(Branch(CallKind(toks[pos].text), toks[pos].text, r.value), r.pos + 1, r.room)
  {
    hide Args, Size, Sizes, CallKind;
  }

  lemma ElseIs(toks: seq<Token>, pos: nat, room: nat)
    requires Stream(toks) && pos < |toks|
    ensures var r := Else(toks, pos, room);
            if toks[pos].kind == TElif || toks[pos].kind == TElse then r.Ok? ==> |r.value| == 1
            else r == Ok([], pos, room)
  {
    hide Stmt, Body, Size;
  }

  lemma LayoutFirst(before: seq<Node>, t: Tree)
    requires !After(t)
    ensures |before| < |before + Layout(t, |before|)|
    ensures |(before + Layout(t, |before|))[|before|].children| == |t.children|
  {
    hide Layouts, Sizes, Roots;
  }

  lemma CallKindBefore(name: string)
    ensures CallKind(name) != NBinop && CallKind(name) != NUnop
  {
  }

  lemma RootFirst(t: Tree, lo: nat)
    requires !After(t)
    ensures Root(t, lo) == lo
  {
  }
}
