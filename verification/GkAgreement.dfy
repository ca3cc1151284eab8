/** The flags of the interpreter mean what the big-step semantics says. */
module GkAgreement {
  import opened GkSyntax
  import opened GkRoundTrip
  import opened Wrappers
  import opened GkValues
  import opened GkInterp
  import opened GkBigStep

  // ----- the programs -----

  /** A statement as the grammar forms them. `loose` says whether a break or continue may stand here; when `strict`,
      function bodies start afresh, so that every break and continue belongs to a loop of the same body. */
  predicate IsStmt(t: Tree, loose: bool, strict: bool) {
    match t.kind
    case NReturn => |t.children| <= 1 && AllExprs(t.children)
    case NAssign => |t.children| == 1 && AllExprs(t.children)
    case NBreak => loose
    case NContinue => loose
    case NBlock => AllStmts(t.children, loose, strict)
    case NIf => && 2 <= |t.children| <= 3 && IsExpr(t.children[0]) && IsStmt(t.children[1], loose, strict)
                && (|t.children| == 3 ==> IsStmt(t.children[2], loose, strict))
    case NWhile => |t.children| == 2 && IsExpr(t.children[0]) && IsStmt(t.children[1], true, strict)
    case NFor => |t.children| == 2 && IsExpr(t.children[0]) && IsStmt(t.children[1], true, strict)
    case NDef => t.children != [] && IsStmt(t.children[|t.children| - 1], !strict, strict)
    case _ => IsExpr(t)
  }

  predicate AllStmts(ts: seq<Tree>, loose: bool, strict: bool) {
    ts == [] || (IsStmt(ts[0], loose, strict) && AllStmts(ts[1..], loose, strict))
  }

  datatype Place = InExpr | InBody | InLoop

  predicate Fits(t: Tree, place: Place) {
    match place
    case InExpr => IsExpr(t)
    case InBody => IsStmt(t, false, true)
    case InLoop => IsStmt(t, true, true)
  }

  predicate FuncsFit(fs: seq<Func>) {
    forall f :: f in fs ==> Fits(f.body, InBody)
  }

  // ----- agreement -----

  predicate Clean(s: State) {
    !Stopped(s)
  }

  predicate Ready(s: State) {
    Clean(s) && FuncsFit(s.env.funcs)
  }

  /** The state and value that stand for an outcome. */
  predicate Agrees(o: Outcome, r: Out) {
    match o
    case OutOfFuel => r.Timeout?
    case Error(x, out) => r.Done? && r.s.error == Some(x) && r.s.env.out == out
    case Normal(v, e) => r.Done? && Clean(r.s) && r.s.env == e && r.v == v
    case Break(e) => r.Done? && r.s.breaking && Clean(r.s.(breaking := false)) && r.s.env == e && r.v == NoneV
    case Continue(e) => r.Done? && r.s.continuing && Clean(r.s.(continuing := false)) && r.s.env == e && r.v == NoneV
    case Return(v, e) => r.Done? && r.s.returning && Clean(r.s.(returning := false)) && r.s.env == e && r.v == v && r.s.retVal == v
  }

  /** Expressions end normally, and only statements in a loop break or continue. */
  predicate Allowed(o: Outcome, place: Place) {
    match o
    case OutOfFuel => true
    case Error(_, _) => true
    case Normal(_, e) => FuncsFit(e.funcs)
    case Break(e) => place.InLoop? && FuncsFit(e.funcs)
    case Continue(e) => place.InLoop? && FuncsFit(e.funcs)
    case Return(_, e) => !place.InExpr? && FuncsFit(e.funcs)
  }

  predicate Meets(o: Outcome, r: Out, place: Place) {
    Agrees(o, r) && Allowed(o, place)
  }

  // ----- shapes, one step at a time -----

  lemma {:induction false} AllExprsAt(ts: seq<Tree>, i: nat)
    requires AllExprs(ts) && i < |ts|
    ensures IsExpr(ts[i])
  {
    hide IsExpr;
    if i > 0 { AllExprsAt(ts[1..], i - 1); }
  }

  lemma {:induction false} AllStmtsAt(ts: seq<Tree>, i: nat, loose: bool, strict: bool)
    requires AllStmts(ts, loose, strict) && i < |ts|
    ensures IsStmt(ts[i], loose, strict)
  {
    hide IsStmt;
    if i > 0 { AllStmtsAt(ts[1..], i - 1, loose, strict); }
  }

  /** The children of an expression are expressions. */
  lemma ExprKid(t: Tree, i: nat)
    requires IsExpr(t) && i < |t.children|
    ensures Fits(t.children[i], InExpr)
  {
    assert AllExprs(t.children);
    AllExprsAt(t.children, i);
  }

  predicate IsExprKind(k: NodeKind) {
    match k
    case NInt => true case NStr => true case NBool => true case NVar => true
    case NBinop => true case NUnop => true
    case NCall => true case NPrint => true case NRange => true case NInput => true case NIntCast => true
    case _ => false
  }

  lemma ExprKinds(t: Tree, place: Place)
    requires Fits(t, place)
    ensures place.InExpr? ==> IsExprKind(t.kind)
    ensures IsExprKind(t.kind) ==> IsExpr(t)
  {
  }

  // ----- the induction -----

  /** At every fuel, the interpreter's final state stands for the outcome of the big-step semantics. */
  lemma {:induction false} Agree(t: Tree, place: Place, s: State, fuel: nat)
    requires Fits(t, place) && Ready(s)
    ensures Meets(Exec(t, s.env, fuel), Eval(t, s, fuel), place)
    decreases fuel, 0
  {
    hide Fits, IsExpr, IsStmt, FuncsFit, FindVar, Reads;
    if fuel > 0 {
      ExprKinds(t, place);
      if IsExprKind(t.kind) {
        AgreeExpr(t, s, fuel);
      } else {
        AgreeStmt(t, place, s, fuel);
      }
    }
  }

  lemma {:induction false} AgreeExpr(t: Tree, s: State, fuel: nat)
    requires IsExpr(t) && IsExprKind(t.kind) && Ready(s) && fuel > 0
    ensures Meets(Exec(t, s.env, fuel), Eval(t, s, fuel), InExpr)
    decreases fuel - 1, 8 + |t.children|
  {
    hide IsExpr, FuncsFit, EvalVar, ExecVar, EvalUnop, EvalBinop, EvalLogic, EvalPrint, EvalInput, EvalCast, EvalCall,
      ExecUnop, ExecBinop, ExecLogic, ExecPrint, ExecInput, ExecCast, ExecCall;
    match t.kind {
      case NVar => AgreeVar(t.text, s);
      case NUnop => AgreeUnop(t, s, fuel - 1);
      case NBinop =>
        AgreeLogic(t, s, fuel - 1);
        AgreeBinop(t, s, fuel - 1);
      case NPrint => AgreePrint(t, 0, s, fuel - 1);
      case NInput => AgreeInput(t, s, fuel - 1);
      case NIntCast => AgreeCast(t, s, fuel - 1);
      case NCall => AgreeCall(t, s, fuel - 1);
      case _ =>
    }
  }

  lemma {:induction false} AgreeStmt(t: Tree, place: Place, s: State, fuel: nat)
    requires Fits(t, place) && !place.InExpr? && !IsExprKind(t.kind) && Ready(s) && fuel > 0
    ensures Meets(Exec(t, s.env, fuel), Eval(t, s, fuel), place)
    decreases fuel - 1, 8 + |t.children|
  {
    hide Fits, IsExpr, IsStmt, FuncsFit, EvalAssign, EvalBlock, EvalIf, EvalWhile, EvalFor, EvalDef, EvalReturn,
      ExecAssign, ExecBlock, ExecIf, ExecWhile, ExecFor, ExecDef, ExecReturn, AllStmts;
    match t.kind {
      case NAssign => AgreeAssign(t, place, s, fuel - 1);
      case NBlock =>
        BlockFits(t, place);
        AgreeBlock(t.children, place, s, NoneV, fuel - 1);
      case NIf => AgreeIf(t, place, s, fuel - 1);
      case NWhile => AgreeWhile(t, place, s, NoneV, fuel - 1);
      case NFor => AgreeFor(t, place, s, fuel - 1);
      case NDef => AgreeDef(t, place, s);
      case NReturn => AgreeReturn(t, place, s, fuel - 1);
      case NBreak => JumpFits(t, place);
      case NContinue => JumpFits(t, place);
    }
  }

  lemma BlockFits(t: Tree, place: Place)
    requires Fits(t, place) && t.kind == NBlock && !place.InExpr?
    ensures AllStmts(t.children, place.InLoop?, true)
  {
  }

  lemma JumpFits(t: Tree, place: Place)
    requires Fits(t, place) && (t.kind == NBreak || t.kind == NContinue)
    ensures place.InLoop?
  {
  }

  lemma {:induction false} AgreeKid(t: Tree, i: nat, place: Place, s: State, fuel: nat)
    requires i < |t.children| && Fits(t.children[i], place) && Ready(s)
    ensures Meets(Kid(t, i, s.env, fuel), EvalKid(t, i, s, fuel), place)
    ensures EvalKid(t, i, s, fuel).Done? ==> fuel > 0
    decreases fuel, 1
  {
    hide Exec, Fits, FuncsFit;
    Agree(t.children[i], place, s, fuel);
  }

  /** A child evaluated after an error changes nothing. */
  lemma AfterError(t: Tree, i: nat, s: State, fuel: nat)
    requires s.error.Some?
    ensures EvalKid(t, i, s, fuel).Done? ==> EvalKid(t, i, s, fuel) == Done(s, NoneV)
    ensures fuel > 0 ==> EvalKid(t, i, s, fuel).Done?
  {
  }

  lemma AgreeVar(name: string, s: State)
    requires Ready(s)
    ensures Meets(ExecVar(name, s.env), EvalVar(name, s), InExpr)
  {
    hide FuncsFit;
  }

  lemma UnopKids(t: Tree)
    requires IsExpr(t)
    ensures t.kind == NUnop ==> |t.children| == 1
    ensures t.kind == NBinop ==> |t.children| == 2
  {
  }

  lemma {:induction false} AgreeUnop(t: Tree, s: State, fuel: nat)
    requires IsExpr(t) && t.kind == NUnop && Ready(s)
    ensures Meets(ExecUnop(t, s.env, fuel), EvalUnop(t, s, fuel), InExpr)
    decreases fuel, 2
  {
    hide Kid, EvalKid, Fits, IsExpr, FuncsFit, ApplyUnary;
    UnopKids(t);
    ExprKid(t, 0);
    AgreeKid(t, 0, InExpr, s, fuel);
  }

  lemma {:induction false} AgreeBinop(t: Tree, s: State, fuel: nat)
    requires IsExpr(t) && t.kind == NBinop && Ready(s)
    ensures Meets(ExecBinop(t, s.env, fuel), EvalBinop(t, s, fuel), InExpr)
    decreases fuel, 2
  {
    hide Kid, EvalKid, Fits, IsExpr, FuncsFit, Apply;
    UnopKids(t);
    ExprKid(t, 0);
    ExprKid(t, 1);
    AgreeKid(t, 0, InExpr, s, fuel);
    var r := EvalKid(t, 0, s, fuel);
    if r.Done? && r.s.error.None? {
      AgreeKid(t, 1, InExpr, r.s, fuel);
    }
  }

  lemma {:induction false} AgreeLogic(t: Tree, s: State, fuel: nat)
    requires IsExpr(t) && t.kind == NBinop && Ready(s)
    ensures t.op == TAnd || t.op == TOr ==> Meets(ExecLogic(t, s.env, fuel), EvalLogic(t, s, fuel), InExpr)
    decreases fuel, 2
  {
    hide Kid, EvalKid, Fits, IsExpr, FuncsFit;
    UnopKids(t);
    ExprKid(t, 0);
    ExprKid(t, 1);
    AgreeKid(t, 0, InExpr, s, fuel);
    var r := EvalKid(t, 0, s, fuel);
    if r.Done? && r.s.error.None? {
      AgreeKid(t, 1, InExpr, r.s, fuel);
    } else if r.Done? {
      AfterError(t, 1, r.s, fuel);
    }
  }

  lemma {:induction false} AgreePrint(t: Tree, i: nat, s: State, fuel: nat)
    requires IsExpr(t) && i <= |t.children| && Ready(s)
    ensures Meets(ExecPrint(t.children, i, s.env, fuel), EvalPrint(t.children, i, s, fuel), InExpr)
    decreases fuel, 1 + |t.children| - i
  {
    hide Exec, Eval, Fits, IsExpr, FuncsFit, Show;
    if i < |t.children| {
      ExprKid(t, i);
      Agree(t.children[i], InExpr, s, fuel);
      var r := Eval(t.children[i], s, fuel);
      if r.Done? && r.s.error.None? {
        var e := Emit(r.s.env, Show(r.v));
        AgreePrint(t, i + 1, r.s.(env := if i < |t.children| - 1 then Emit(e, " ") else e), fuel);
      }
    }
  }

  lemma {:induction false} AgreeInput(t: Tree, s: State, fuel: nat)
    requires IsExpr(t) && Ready(s)
    ensures Meets(ExecInput(t, s.env, fuel), EvalInput(t, s, fuel), InExpr)
    decreases fuel, 2
  {
    hide Kid, EvalKid, Fits, IsExpr, FuncsFit, Show;
    if t.children != [] {
      ExprKid(t, 0);
      AgreeKid(t, 0, InExpr, s, fuel);
    }
  }

  lemma {:induction false} AgreeCast(t: Tree, s: State, fuel: nat)
    requires IsExpr(t) && Ready(s)
    ensures Meets(ExecCast(t, s.env, fuel), EvalCast(t, s, fuel), InExpr)
    decreases fuel, 2
  {
    hide Kid, EvalKid, Fits, IsExpr, FuncsFit, Cast;
    if |t.children| == 1 {
      ExprKid(t, 0);
      AgreeKid(t, 0, InExpr, s, fuel);
    }
  }

  // ----- calls -----

  lemma FindFuncFits(fs: seq<Func>, name: string)
    requires FuncsFit(fs)
    ensures var r := FindFunc(fs, name); r.Some? ==> Fits(r.value.body, InBody)
  {
    hide Fits;
    FindFuncIn(fs, name);
  }

  lemma {:induction false} FindFuncIn(fs: seq<Func>, name: string)
    ensures var r := FindFunc(fs, name); r.Some? ==> r.value in fs && r.value.name == name
    ensures FindFunc(fs, name).None? ==> forall f :: f in fs ==> f.name != name
  {
    if fs != [] {
      assert fs == [fs[0]] + fs[1..];
      FindFuncIn(fs[1..], name);
    }
  }

  lemma {:induction false} BindAllKeeps(e: Env, names: seq<string>, vals: seq<Value>)
    requires |names| == |vals|
    ensures var r := BindAll(e, names, vals).0; r.out == e.out && r.funcs == e.funcs && r.depth == e.depth && r.inp == e.inp
    decreases |names|
  {
    hide SetVar;
    if names != [] {
      var r := Bind(e, names[0], vals[0]);
      if r.Some? { BindAllKeeps(r.value, names[1..], vals[1..]); }
    }
  }

  /** The arguments agree as far as they are evaluated. */
  predicate ArgsMeet(a: ArgValues, r: ArgsOut) {
    match a
    case Values(vals, e) => r.ArgsDone? && Ready(r.s) && r.s.env == e && r.vals == vals
    case Stop(OutOfFuel) => r.ArgsTimeout?
    case Stop(Error(x, out)) => r.ArgsDone? && r.s.error == Some(x) && r.s.env.out == out
    case Stop(_) => false
  }

  lemma {:induction false} AgreeArgs(ts: seq<Tree>, s: State, done: seq<Value>, fuel: nat)
    requires AllExprs(ts) && Ready(s)
    ensures ArgsMeet(ExecArgs(ts, s.env, done, fuel), EvalArgs(ts, s, done, fuel))
    decreases fuel, 1 + |ts|
  {
    hide Exec, Eval, IsExpr, FuncsFit;
    if ts != [] {
      Agree(ts[0], InExpr, s, fuel);
      var r := Eval(ts[0], s, fuel);
      if r.Done? && r.s.error.None? {
        AgreeArgs(ts[1..], r.s, done + [r.v], fuel);
      }
    }
  }

  lemma CallKids(t: Tree)
    requires IsExpr(t)
    ensures AllExprs(t.children)
  {
  }

  lemma {:induction false} AgreeCall(t: Tree, s: State, fuel: nat)
    requires IsExpr(t) && t.kind == NCall && Ready(s)
    ensures Meets(ExecCall(t, s.env, fuel), EvalCall(t, s, fuel), InExpr)
    decreases fuel, 2 + |t.children|
  {
    hide Fits, IsExpr, AllExprs, FuncsFit, FindFunc, EvalArgs, ExecArgs, EvalBody, ExecBody;
    CallKids(t);
    FindFuncFits(s.env.funcs, t.text);
    AgreeArgs(t.children, s, [], fuel);
    var f := FindFunc(s.env.funcs, t.text);
    var r := EvalArgs(t.children, s, [], fuel);
    if f.Some? && |t.children| == |f.value.params| && r.ArgsDone? && r.s.error.None? {
      AgreeBody(f.value, r.vals, r.s, fuel);
    }
  }

  lemma {:induction false} AgreeBody(f: Func, vals: seq<Value>, s: State, fuel: nat)
    requires |vals| == |f.params| && Fits(f.body, InBody) && Ready(s)
    ensures Meets(ExecBody(f, vals, s.env, fuel), EvalBody(f, vals, s, fuel), InExpr)
    decreases fuel, 1
  {
    hide Fits, FuncsFit, BindAll, Exec, Eval, PopScope;
    var e := s.env.(depth := s.env.depth + 1);
    BindAllKeeps(e, f.params, vals);
    var r := BindAll(e, f.params, vals);
    if r.1 {
      Agree(f.body, InBody, s.(env := r.0), fuel);
    }
  }

  // ----- statements -----

  lemma StmtKids(t: Tree, place: Place)
    requires Fits(t, place) && !place.InExpr?
    ensures t.kind == NAssign ==> |t.children| == 1 && Fits(t.children[0], InExpr)
    ensures t.kind == NReturn ==> |t.children| <= 1 && (t.children != [] ==> Fits(t.children[0], InExpr))
    ensures t.kind == NIf ==> && 2 <= |t.children| <= 3 && Fits(t.children[0], InExpr) && Fits(t.children[1], place)
                              && (|t.children| == 3 ==> Fits(t.children[2], place))
    ensures t.kind == NWhile || t.kind == NFor ==>
              |t.children| == 2 && Fits(t.children[0], InExpr) && Fits(t.children[1], InLoop)
    ensures t.kind == NDef ==> t.children != [] && Fits(t.children[|t.children| - 1], InBody)
  {
    hide IsExpr;
  }

  lemma {:induction false} AgreeAssign(t: Tree, place: Place, s: State, fuel: nat)
    requires Fits(t, place) && !place.InExpr? && t.kind == NAssign && Ready(s)
    ensures Meets(ExecAssign(t, s.env, fuel), EvalAssign(t, s, fuel), place)
    decreases fuel, 2
  {
    hide Kid, EvalKid, Fits, FuncsFit, SetVar;
    StmtKids(t, place);
    AgreeKid(t, 0, InExpr, s, fuel);
  }

  lemma {:induction false} AgreeReturn(t: Tree, place: Place, s: State, fuel: nat)
    requires Fits(t, place) && !place.InExpr? && t.kind == NReturn && Ready(s)
    ensures Meets(ExecReturn(t, s.env, fuel), EvalReturn(t, s, fuel), place)
    decreases fuel, 2
  {
    hide Kid, EvalKid, Fits, FuncsFit;
    StmtKids(t, place);
    if t.children != [] {
      AgreeKid(t, 0, InExpr, s, fuel);
    }
  }

  lemma AgreeDef(t: Tree, place: Place, s: State)
    requires Fits(t, place) && !place.InExpr? && t.kind == NDef && Ready(s)
    ensures Meets(ExecDef(t, s.env), EvalDef(t, s), place)
  {
    hide Fits, IsStmt;
    StmtKids(t, place);
  }

  lemma {:induction false} AgreeBlock(ts: seq<Tree>, place: Place, s: State, last: Value, fuel: nat)
    requires !place.InExpr? && AllStmts(ts, place.InLoop?, true) && Ready(s)
    ensures Meets(ExecBlock(ts, s.env, last, fuel), EvalBlock(ts, s, last, fuel), place)
    decreases fuel, 1 + |ts|
  {
    hide Exec, Eval, IsStmt, FuncsFit;
    if ts != [] {
      Agree(ts[0], place, s, fuel);
      var r := Eval(ts[0], s, fuel);
      if r.Done? && Clean(r.s) {
        AgreeBlock(ts[1..], place, r.s, r.v, fuel);
      }
    }
  }

  lemma {:induction false} AgreeIf(t: Tree, place: Place, s: State, fuel: nat)
    requires Fits(t, place) && !place.InExpr? && t.kind == NIf && Ready(s)
    ensures Meets(ExecIf(t, s.env, fuel), EvalIf(t, s, fuel), place)
    decreases fuel, 2
  {
    hide Kid, EvalKid, Fits, FuncsFit;
    StmtKids(t, place);
    AgreeKid(t, 0, InExpr, s, fuel);
    var r := EvalKid(t, 0, s, fuel);
    if r.Done? && r.s.error.None? {
      AgreeKid(t, 1, place, r.s, fuel);
      if |t.children| == 3 {
        AgreeKid(t, 2, place, r.s, fuel);
      }
    }
  }

  lemma {:induction false} AgreeWhile(t: Tree, place: Place, s: State, result: Value, fuel: nat)
    requires Fits(t, place) && !place.InExpr? && t.kind == NWhile && Ready(s)
    ensures Meets(ExecWhile(t, s.env, result, fuel), EvalWhile(t, s, result, fuel), place)
    decreases fuel, 2
  {
    hide Kid, EvalKid, Fits, FuncsFit;
    StmtKids(t, place);
    AgreeKid(t, 0, InExpr, s, fuel);
    var r := EvalKid(t, 0, s, fuel);
    if r.Done? && r.s.error.None? {
      AgreeKid(t, 1, InLoop, r.s, fuel);
      var b := EvalKid(t, 1, r.s, fuel);
      if b.Done? && b.s.error.None? && !b.s.returning && !b.s.breaking {
        AgreeWhile(t, place, b.s.(continuing := false), b.v, fuel - 1);
      }
    }
  }

  lemma {:induction false} AgreeFor(t: Tree, place: Place, s: State, fuel: nat)
    requires Fits(t, place) && !place.InExpr? && t.kind == NFor && Ready(s)
    ensures Meets(ExecFor(t, s.env, fuel), EvalFor(t, s, fuel), place)
    decreases fuel, 4
  {
    hide Kid, EvalKid, Fits, FuncsFit, ExecTurns, EvalTurns;
    StmtKids(t, place);
    var head := t.children[0];
    var r: Out;
    if head.kind == NRange {
      if head.children == [] { return; }
      RangeKid(head);
      AgreeKid(head, 0, InExpr, s, fuel);
      r := EvalKid(head, 0, s, fuel);
    } else {
      AgreeKid(t, 0, InExpr, s, fuel);
      r := EvalKid(t, 0, s, fuel);
    }
    if r.Done? && r.s.error.None? && r.v.IntV? {
      AgreeTurns(t, place, 0, r.v.i, r.s, NoneV, fuel);
    }
  }

  lemma RangeKid(t: Tree)
    requires Fits(t, InExpr) && t.children != []
    ensures Fits(t.children[0], InExpr)
  {
    ExprKid(t, 0);
  }

  lemma {:induction false} AgreeTurns(t: Tree, place: Place, i: int, limit: int, s: State, result: Value, fuel: nat)
    requires Fits(t, place) && !place.InExpr? && t.kind == NFor && Ready(s)
    ensures Meets(ExecTurns(t, i, limit, s.env, result, fuel), EvalTurns(t, i, limit, s, result, fuel), place)
    decreases fuel, 3
  {
    hide Kid, EvalKid, Fits, FuncsFit, SetVar;
    StmtKids(t, place);
    var e := Bind(s.env, t.text, IntV(i));
    if i < limit && e.Some? {
      var s1 := s.(env := e.value);
      AgreeKid(t, 1, InLoop, s1, fuel);
      var b := EvalKid(t, 1, s1, fuel);
      if b.Done? && b.s.error.None? && !b.s.returning && !b.s.breaking {
        AgreeTurns(t, place, i + 1, limit, b.s.(continuing := false), b.v, fuel - 1);
      }
    }
  }

  // ----- whole programs -----

  /** A fresh interpreter: gk_init. */
  function Initial(inp: seq<string>): State {
    State(Env([], [], 0, "", inp), false, false, false, NoneV, None)
  }

  /** Running a program whose breaks and continues lie in loops of the same body, the flags give exactly the outcome
      of the semantics: an error with the same output so far, or normal or returning ends with the same tables. */
  lemma ProgramsAgree(t: Tree, inp: seq<string>, fuel: nat)
    requires IsStmt(t, false, true)
    ensures var o, r := Exec(t, Initial(inp).env, fuel), Eval(t, Initial(inp), fuel);
            && Agrees(o, r) && !o.Break? && !o.Continue?
            && (r.Done? ==> !r.s.breaking || r.s.error.Some?)
  {
    hide Exec, Eval, IsStmt;
    Agree(t, InBody, Initial(inp), fuel);
  }
}
