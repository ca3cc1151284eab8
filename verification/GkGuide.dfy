/** Where programs do not behave as the language guide says: when, exactly, and a program for each. */
module GkGuide {
  import opened GkSyntax
  import opened Wrappers
  import opened GkValues
  import opened GkInterp
  import opened GkBigStep
  import opened GkAgreement

  // ----- a second definition -----

  lemma {:induction false} FindAppended(fs: seq<Func>, f: Func, name: string)
    ensures FindFunc(fs + [f], name)
         == if FindFunc(fs, name).Some? then FindFunc(fs, name) else if f.name == name then Some(f) else None
  {
    if fs == [] {
      assert fs + [f] == [f] && [f][1..] == [];
    } else {
      assert (fs + [f])[1..] == fs[1..] + [f];
      FindAppended(fs[1..], f, name);
    }
  }

  /** Calls reach a new definition exactly when its name was not defined before, or was defined the same way. */
  lemma SecondDefinition(fs: seq<Func>, f: Func)
    ensures FindFunc(fs + [f], f.name) == Some(f) <==> FindFunc(fs, f.name) == None || FindFunc(fs, f.name) == Some(f)
  {
    FindAppended(fs, f, f.name);
  }

  // ----- None -----

  /** A value equals itself exactly when it is not None. */
  lemma EqualToItself(v: Value)
    ensures Apply(TEq, v, v) == Gives(BoolV(true)) <==> !v.NoneV?
    ensures Apply(TNeq, v, v) == Gives(BoolV(false)) <==> !v.NoneV?
  {}

  // ----- a body without return -----

  /** A block ends as its statements but the last do, and when they end normally as the last one does. */
  lemma {:induction false} BlockLast(ts: seq<Tree>, t: Tree, e: Env, last: Value, fuel: nat)
    ensures ExecBlock(ts + [t], e, last, fuel)
         == match ExecBlock(ts, e, last, fuel)
            case Normal(_, e1) => Exec(t, e1, fuel)
            case o => o
    decreases |ts|
  {
    hide Exec;
    if ts == [] {
      assert ts + [t] == [t] && [t][1..] == [];
    } else {
      assert (ts + [t])[1..] == ts[1..] + [t];
      match Exec(ts[0], e, fuel)
      case Normal(v, e1) => BlockLast(ts[1..], t, e1, v, fuel);
      case _ =>
    }
  }

  /** A call that reaches the end of a body without a return yields the value of the last statement. */
  lemma EndOfBody(f: Func, ts: seq<Tree>, t: Tree, vals: seq<Value>, e: Env, fuel: nat)
    requires |vals| == |f.params| && fuel > 0 && f.body.kind == NBlock && f.body.children == ts + [t]
    requires BindAll(e.(depth := e.depth + 1), f.params, vals).1
    requires var e0 := BindAll(e.(depth := e.depth + 1), f.params, vals).0;
             && ExecBlock(ts, e0, NoneV, fuel - 1).Normal?
             && Exec(t, ExecBlock(ts, e0, NoneV, fuel - 1).e, fuel - 1).Normal?
    ensures var e0 := BindAll(e.(depth := e.depth + 1), f.params, vals).0;
            var v := Exec(t, ExecBlock(ts, e0, NoneV, fuel - 1).e, fuel - 1).v;
            var r := ExecBody(f, vals, e, fuel);
            r.Normal? && r.v == v
  {
    hide BindAll, PopScope, ExecBlock;
    var e0 := BindAll(e.(depth := e.depth + 1), f.params, vals).0;
    BlockLast(ts, t, e0, NoneV, fuel - 1);
    BlockIs(f.body, e0, fuel);
  }

  lemma BlockIs(t: Tree, e: Env, fuel: nat)
    requires t.kind == NBlock && fuel > 0
    ensures Exec(t, e, fuel) == ExecBlock(t.children, e, NoneV, fuel - 1)
  {
    hide ExecBlock;
  }

  /** A statement that yields None whenever it ends normally: a definition, a print, and what ends in one. */
  predicate Empty(t: Tree) {
    match t.kind
    case NDef => true
    case NPrint => true
    case NAssign => t.children == [] || Empty(t.children[0])
    case NBlock => t.children == [] || Empty(t.children[|t.children| - 1])
    case NIf => (|t.children| <= 1 || Empty(t.children[1])) && (|t.children| == 3 ==> Empty(t.children[2]))
    case NWhile => |t.children| <= 1 || Empty(t.children[1])
    case NFor => |t.children| <= 1 || Empty(t.children[1])
    case _ => false
  }

  /** A statement that never yields None: a literal, an operator, an input, and what ends in one. */
  predicate Full(t: Tree) {
    match t.kind
    case NInt => true
    case NStr => true
    case NBool => true
    case NBinop => true
    case NUnop => t.op == TMinus || t.op == TNot
    case NInput => true
    case NIntCast => true
    case NAssign => t.children != [] && Full(t.children[0])
    case NBlock => t.children != [] && Full(t.children[|t.children| - 1])
    case NIf => |t.children| == 3 && Full(t.children[1]) && Full(t.children[2])
    case _ => false
  }

  /** What the kind of a statement says about its value. */
  predicate KindTells(t: Tree, o: Outcome) {
    o.Normal? ==> (Empty(t) ==> o.v == NoneV) && (Full(t) ==> o.v != NoneV)
  }

  lemma {:induction false} ValueKind(t: Tree, e: Env, fuel: nat)
    ensures KindTells(t, Exec(t, e, fuel))
    decreases fuel, 1
  {
    hide ExecPrint, ExecBlock, ExecWhile, ExecFor, ExecCall, Apply, Cast, ReadLine, Bind, Reads;
    if fuel > 0 {
      match t.kind
      case NAssign => KidKind(t, 0, e, fuel - 1);
      case NBlock => BlockKind(t, e, fuel);
      case NIf => IfKind(t, e, fuel - 1);
      case NWhile => if |t.children| <= 1 || Empty(t.children[1]) { WhileKind(t, e, fuel - 1); }
      case NFor => if |t.children| <= 1 || Empty(t.children[1]) { ForKind(t, e, fuel - 1); }
      case NPrint => PrintKind(t.children, 0, e, fuel - 1);
      case NBinop => BinopKind(t, e, fuel - 1);
      case NIntCast => CastKind();
      case _ =>
    }
  }

  lemma KidKind(t: Tree, i: nat, e: Env, fuel: nat)
    ensures var o := Kid(t, i, e, fuel);
            if i < |t.children| then KindTells(t.children[i], o) else o == Normal(NoneV, e)
    decreases fuel, 2
  {
    hide Exec, KindTells;
    if i < |t.children| { ValueKind(t.children[i], e, fuel); }
  }

  lemma BlockKind(t: Tree, e: Env, fuel: nat)
    requires t.kind == NBlock && fuel > 0
    ensures KindTells(t, Exec(t, e, fuel))
    decreases fuel, 0
  {
    hide ExecBlock;
    BlockIs(t, e, fuel);
    if t.children == [] {
      BlockEnd(e, NoneV, fuel - 1);
    } else {
      var ts, last := t.children[..|t.children| - 1], t.children[|t.children| - 1];
      assert t.children == ts + [last];
      BlockLast(ts, last, e, NoneV, fuel - 1);
      var o := ExecBlock(ts, e, NoneV, fuel - 1);
      if o.Normal? { ValueKind(last, o.e, fuel - 1); }
    }
  }

  lemma IfKind(t: Tree, e: Env, fuel: nat)
    requires t.kind == NIf
    ensures KindTells(t, ExecIf(t, e, fuel))
    decreases fuel, 3
  {
    hide Exec, Truthy, Kid;
    var c := Kid(t, 0, e, fuel);
    if c.Normal? {
      KidKind(t, 1, c.e, fuel);
      KidKind(t, 2, c.e, fuel);
    }
  }

  lemma {:induction false} WhileKind(t: Tree, e: Env, fuel: nat)
    requires |t.children| <= 1 || Empty(t.children[1])
    ensures var o := ExecWhile(t, e, NoneV, fuel); o.Normal? ==> o.v == NoneV
    decreases fuel, 3
  {
    hide Exec, Kid, Truthy;
    var c := Kid(t, 0, e, fuel);
    if c.Normal? && Truthy(c.v) {
      KidKind(t, 1, c.e, fuel);
      var o := Kid(t, 1, c.e, fuel);
      if fuel > 0 && (o.Normal? || o.Continue?) { WhileKind(t, o.e, fuel - 1); }
    }
  }

  lemma ForKind(t: Tree, e: Env, fuel: nat)
    requires |t.children| <= 1 || Empty(t.children[1])
    ensures var o := ExecFor(t, e, fuel); o.Normal? ==> o.v == NoneV
    decreases fuel, 4
  {
    hide Exec, Kid, ExecTurns;
    var ranged := t.children != [] && t.children[0].kind == NRange;
    if !(ranged && t.children[0].children == []) {
      var o := if ranged then Kid(t.children[0], 0, e, fuel) else Kid(t, 0, e, fuel);
      if o.Normal? && o.v.IntV? { TurnsKind(t, 0, o.v.i, o.e, fuel); }
    }
  }

  lemma {:induction false} TurnsKind(t: Tree, i: int, limit: int, e: Env, fuel: nat)
    requires |t.children| <= 1 || Empty(t.children[1])
    ensures var o := ExecTurns(t, i, limit, e, NoneV, fuel); o.Normal? ==> o.v == NoneV
    decreases fuel, 3
  {
    hide Exec, Kid, Bind;
    if i < limit {
      match Bind(e, t.text, IntV(i))
      case None =>
      case Some(e0) =>
        KidKind(t, 1, e0, fuel);
        var o := Kid(t, 1, e0, fuel);
        if fuel > 0 && (o.Normal? || o.Continue?) { TurnsKind(t, i + 1, limit, o.e, fuel - 1); }
    }
  }

  lemma {:induction false} PrintKind(ts: seq<Tree>, i: nat, e: Env, fuel: nat)
    requires i <= |ts|
    ensures var o := ExecPrint(ts, i, e, fuel); o.Normal? ==> o.v == NoneV
    decreases |ts| - i
  {
    hide Exec, Show;
    if i < |ts| {
      var o := Exec(ts[i], e, fuel);
      if o.Normal? {
        var e2 := Emit(o.e, Show(o.v));
        PrintKind(ts, i + 1, if i < |ts| - 1 then Emit(e2, " ") else e2, fuel);
      }
    }
  }

  lemma BinopKind(t: Tree, e: Env, fuel: nat)
    ensures var o := ExecBinop(t, e, fuel); o.Normal? ==> o.v != NoneV
  {
    hide Exec, Kid, Apply;
    ApplyKind();
  }

  lemma ApplyKind()
    ensures forall op, l, r :: Apply(op, l, r) != Gives(NoneV)
  {}

  lemma CastKind()
    ensures forall v :: Cast(v) != Gives(NoneV)
  {}

  /** Where a body ends without a return, the guide's None holds for a body that ends in a definition or a print, and
      fails for one that ends in a literal, an operator or an assignment of one. */
  lemma EndKind(f: Func, vals: seq<Value>, e: Env, fuel: nat)
    requires |vals| == |f.params| && BindAll(e.(depth := e.depth + 1), f.params, vals).1
    requires Exec(f.body, BindAll(e.(depth := e.depth + 1), f.params, vals).0, fuel).Normal?
    ensures ExecBody(f, vals, e, fuel).Normal?
    ensures Empty(f.body) ==> ExecBody(f, vals, e, fuel).v == NoneV
    ensures Full(f.body) ==> ExecBody(f, vals, e, fuel).v != NoneV
  {
    hide BindAll, PopScope, Exec, Empty, Full;
    ValueKind(f.body, BindAll(e.(depth := e.depth + 1), f.params, vals).0, fuel);
  }

  // ----- the callers' variables -----

  /** A name that is visible is read from an outer scope, be it the main program's or a caller's, exactly when the
      current scope has no variable of that name. */
  lemma OuterRead(vars: seq<Var>, name: string, depth: nat)
    requires Layered(vars) && FindVar(vars, |vars|, name) >= 0
    ensures vars[FindVar(vars, |vars|, name)].scope < depth <==> forall j :: 0 <= j < |vars| && vars[j].name == name ==> vars[j].scope < depth
    ensures vars[FindVar(vars, |vars|, name)].scope < depth <==> FindLocal(vars, |vars|, name, depth) < 0
  {
    var i := FindVar(vars, |vars|, name);
    forall j | 0 <= j < |vars| && vars[j].name == name ensures vars[j].scope <= vars[i].scope {
      FindVarInnermost(vars, name, j);
    }
    if vars[i].scope >= depth {
      FindLocalComplete(vars, |vars|, name, depth, i);
    }
  }

  // ----- a program for each -----

  function Number(n: int): Tree { Leaf(NInt, n, "") }
  function Name(x: string): Tree { Leaf(NVar, 0, x) }
  function Called(f: string): Tree { Branch(NCall, f, []) }
  function Block(ts: seq<Tree>): Tree { Branch(NBlock, "", ts) }
  function Define(f: string, body: seq<Tree>): Tree { Branch(NDef, f, [Block(body)]) }
  function Returns(t: Tree): Tree { Branch(NReturn, "", [t]) }
  function Assigns(x: string, t: Tree): Tree { Branch(NAssign, x, [t]) }

  /** The value that a program gives from a fresh state. */
  function ValueOf(t: Tree): Option<Value> {
    match Exec(t, Initial([]).env, 12)
    case Normal(v, _) => Some(v)
    case _ => None
  }

  lemma DefineStep(f: string, body: seq<Tree>, e: Env, fuel: nat)
    requires fuel > 0 && |e.funcs| < MAX_FUNCS
    ensures Exec(Define(f, body), e, fuel) == Normal(NoneV, e.(funcs := e.funcs + [Func(f, [], Block(body))]))
  {
    hide ExecBlock;
    assert FuncOf(Define(f, body)) == Func(f, [], Block(body));
  }

  lemma BlockStep(t: Tree, ts: seq<Tree>, e: Env, last: Value, fuel: nat)
    ensures ExecBlock([t] + ts, e, last, fuel)
         == match Exec(t, e, fuel)
            case Normal(v, e1) => ExecBlock(ts, e1, v, fuel)
            case o => o
  {
    hide Exec;
    assert ([t] + ts)[1..] == ts;
  }

  /** A call without arguments of a function whose body is one block. */
  lemma CallStep(f: string, body: seq<Tree>, e: Env, fuel: nat)
    requires FindFunc(e.funcs, f) == Some(Func(f, [], Block(body))) && e.depth < MAX_DEPTH && fuel > 1
    ensures Exec(Called(f), e, fuel)
         == match ExecBlock(body, e.(depth := e.depth + 1), NoneV, fuel - 2)
            case Normal(v, e1) => Normal(v, Leave(e1))
            case Return(v, e1) => Normal(v, Leave(e1))
            case o => o
  {
    hide ExecBlock, FindFunc;
    var fn := Func(f, [], Block(body));
    assert ExecArgs([], e, [], fuel - 1) == Values([], e);
    assert Exec(Called(f), e, fuel) == ExecCall(Called(f), e, fuel - 1) == ExecBody(fn, [], e, fuel - 1);
    assert BindAll(e.(depth := e.depth + 1), [], []) == (e.(depth := e.depth + 1), true);
    BlockIs(Block(body), e.(depth := e.depth + 1), fuel - 1);
  }

  lemma NumberStep(n: int, e: Env, fuel: nat)
    requires fuel > 0
    ensures Exec(Number(n), e, fuel) == Normal(IntV(n), e)
  {}

  lemma ReturnStep(t: Tree, e: Env, fuel: nat)
    requires fuel > 0
    ensures Exec(Returns(t), e, fuel)
         == match Exec(t, e, fuel - 1)
            case Normal(v, e1) => Return(v, e1)
            case o => o
  {
    hide ExecBlock;
    assert Exec(Returns(t), e, fuel) == ExecReturn(Returns(t), e, fuel - 1);
    assert Kid(Returns(t), 0, e, fuel - 1) == Exec(t, e, fuel - 1);
  }

  lemma AssignStep(x: string, n: int, e: Env, fuel: nat)
    requires fuel > 1 && e.vars == []
    ensures Exec(Assigns(x, Number(n)), e, fuel) == Normal(IntV(n), e.(vars := [Var(x, IntV(n), e.depth)]))
  {
    hide ExecBlock;
    NumberStep(n, e, fuel - 1);
    var t := Assigns(x, Number(n));
    assert Exec(t, e, fuel) == ExecAssign(t, e, fuel - 1);
    assert Kid(t, 0, e, fuel - 1) == Exec(Number(n), e, fuel - 1);
    assert [] + [Var(x, IntV(n), e.depth)] == [Var(x, IntV(n), e.depth)];
  }

  lemma NameStep(x: string, v: Value, d: nat, e: Env, fuel: nat)
    requires fuel > 0 && e.vars == [Var(x, v, d)]
    ensures Exec(Name(x), e, fuel) == Normal(v, e)
  {
    hide ExecBlock;
  }

  lemma FirstOf(f: Func, fs: seq<Func>)
    ensures FindFunc([f] + fs, f.name) == Some(f)
  {}

  /** def f(): return 1, def f(): return 2, f() */
  lemma SecondDefinitionIgnored()
    ensures ValueOf(Block([Define("f", [Returns(Number(1))]), Define("f", [Returns(Number(2))]), Called("f")])) == Some(IntV(1))
  {
    hide Exec, ExecBlock, FindFunc;
    var e0 := Initial([]).env;
    var f1, f2 := Func("f", [], Block([Returns(Number(1))])), Func("f", [], Block([Returns(Number(2))]));
    var d1, d2, c := Define("f", [Returns(Number(1))]), Define("f", [Returns(Number(2))]), Called("f");
    assert [d1, d2, c] == [d1] + ([d2] + ([c] + []));
    BlockIs(Block([d1, d2, c]), e0, 12);
    DefineStep("f", [Returns(Number(1))], e0, 11);
    BlockStep(d1, [d2] + ([c] + []), e0, NoneV, 11);
    var e1 := e0.(funcs := [f1]);
    assert e0.funcs + [f1] == [f1];
    DefineStep("f", [Returns(Number(2))], e1, 11);
    BlockStep(d2, [c] + [], e1, NoneV, 11);
    var e2 := e0.(funcs := [f1] + [f2]);
    FirstOf(f1, [f2]);
    BlockStep(c, [], e2, NoneV, 11);
    BlockEnd(Leave(e2.(depth := 1)), IntV(1), 11);
    CallStep("f", [Returns(Number(1))], e2, 11);
    assert [Returns(Number(1))] == [Returns(Number(1))] + [];
    BlockStep(Returns(Number(1)), [], e2.(depth := 1), NoneV, 9);
    ReturnStep(Number(1), e2.(depth := 1), 9);
    NumberStep(1, e2.(depth := 1), 8);
  }

  lemma BlockEnd(e: Env, v: Value, fuel: nat)
    ensures ExecBlock([], e, v, fuel) == Normal(v, e)
  {}

  /** print() == print() */
  lemma NoneDiffersFromItself()
    ensures ValueOf(Binop(TEq, Branch(NPrint, "print", []), Branch(NPrint, "print", []))) == Some(BoolV(false))
  {
    hide Exec;
    var p, e0 := Branch(NPrint, "print", []), Initial([]).env;
    PrintStep(p, e0, 11);
    PrintStep(p, Emit(e0, "\n"), 11);
    EqualStep(p, e0, 12);
  }

  lemma PrintStep(t: Tree, e: Env, fuel: nat)
    requires t.kind == NPrint && t.children == [] && fuel > 0
    ensures Exec(t, e, fuel) == Normal(NoneV, Emit(e, "\n"))
  {
    hide ExecBlock;
  }

  lemma EqualStep(t: Tree, e: Env, fuel: nat)
    requires fuel > 1 && Exec(t, e, fuel - 1).Normal? && Exec(t, Exec(t, e, fuel - 1).e, fuel - 1).Normal?
    ensures var r := Exec(t, e, fuel - 1);
            var q := Exec(t, r.e, fuel - 1);
            Exec(Binop(TEq, t, t), e, fuel) == Normal(BoolV(Same(r.v, q.v)), q.e)
  {
    hide ExecBlock, Same;
    var b, r := Binop(TEq, t, t), Exec(t, e, fuel - 1);
    assert Exec(b, e, fuel) == ExecBinop(b, e, fuel - 1);
    assert Kid(b, 0, e, fuel - 1) == r && Kid(b, 1, r.e, fuel - 1) == Exec(t, r.e, fuel - 1);
  }

  /** def f(): 7, f() */
  lemma BodyYieldsLastValue()
    ensures ValueOf(Block([Define("f", [Number(7)]), Called("f")])) == Some(IntV(7))
  {
    hide Exec, ExecBlock, FindFunc;
    var e0 := Initial([]).env;
    var f, d, c := Func("f", [], Block([Number(7)])), Define("f", [Number(7)]), Called("f");
    assert [d, c] == [d] + ([c] + []);
    BlockIs(Block([d, c]), e0, 12);
    DefineStep("f", [Number(7)], e0, 11);
    BlockStep(d, [c] + [], e0, NoneV, 11);
    assert e0.funcs + [f] == [f] + [];
    var e1 := e0.(funcs := [f] + []);
    FirstOf(f, []);
    BlockStep(c, [], e1, NoneV, 11);
    CallStep("f", [Number(7)], e1, 11);
    var e2 := e1.(depth := 1);
    BlockEnd(Leave(e2), IntV(7), 11);
    assert [Number(7)] == [Number(7)] + [];
    BlockStep(Number(7), [], e2, NoneV, 9);
    NumberStep(7, e2, 9);
    BlockEnd(e2, IntV(7), 9);
  }

  lemma SecondOf(f: Func, g: Func)
    requires f.name != g.name
    ensures FindFunc([f] + [g], g.name) == Some(g)
  {
    assert ([f] + [g])[1..] == [g];
  }

  /** The body x = 5, return g(), where g only names x. */
  lemma CallerBody(e: Env, fuel: nat)
    requires fuel > 4 && e.vars == [] && e.depth + 1 < MAX_DEPTH && FindFunc(e.funcs, "g") == Some(Func("g", [], Block([Name("x")])))
    ensures var r := ExecBlock([Assigns("x", Number(5)), Returns(Called("g"))], e, NoneV, fuel); r.Return? && r.v == IntV(5)
  {
    hide Exec, ExecBlock, FindFunc;
    var a, r := Assigns("x", Number(5)), Returns(Called("g"));
    assert [a, r] == [a] + ([r] + []);
    BlockStep(a, [r] + [], e, NoneV, fuel);
    AssignStep("x", 5, e, fuel);
    var e1 := e.(vars := [Var("x", IntV(5), e.depth)]);
    BlockStep(r, [], e1, IntV(5), fuel);
    ReturnStep(Called("g"), e1, fuel);
    CallStep("g", [Name("x")], e1, fuel - 1);
    var e2 := e1.(depth := e.depth + 1);
    assert [Name("x")] == [Name("x")] + [];
    BlockStep(Name("x"), [], e2, NoneV, fuel - 3);
    NameStep("x", IntV(5), e.depth, e2, fuel - 3);
    BlockEnd(e2, IntV(5), fuel - 3);
  }

  /** def g(): x, def f(): x = 5, return g(), and then f() */
  lemma CallerSeen()
    ensures var f := [Assigns("x", Number(5)), Returns(Called("g"))];
            ValueOf(Block([Define("g", [Name("x")]), Define("f", f), Called("f")])) == Some(IntV(5))
  {
    hide Exec, ExecBlock, FindFunc, PopScope;
    var e0, body := Initial([]).env, [Assigns("x", Number(5)), Returns(Called("g"))];
    var g, f := Func("g", [], Block([Name("x")])), Func("f", [], Block(body));
    var d1, d2, c := Define("g", [Name("x")]), Define("f", body), Called("f");
    assert [d1, d2, c] == [d1] + ([d2] + ([c] + []));
    BlockIs(Block([d1, d2, c]), e0, 12);
    DefineStep("g", [Name("x")], e0, 11);
    BlockStep(d1, [d2] + ([c] + []), e0, NoneV, 11);
    var e1 := e0.(funcs := [g]);
    assert e0.funcs + [g] == [g];
    DefineStep("f", body, e1, 11);
    BlockStep(d2, [c] + [], e1, NoneV, 11);
    var e2 := e0.(funcs := [g] + [f]);
    FirstOf(g, [f]);
    SecondOf(g, f);
    CallStep("f", body, e2, 11);
    CallerBody(e2.(depth := 1), 9);
    BlockStep(c, [], e2, NoneV, 11);
    var r := ExecBlock(body, e2.(depth := 1), NoneV, 9);
    BlockEnd(Leave(r.e), IntV(5), 11);
  }
}
