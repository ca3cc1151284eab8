/** The scope stack: what evaluation keeps of the variable table, and that calls restore it. */
module GkScopes {
  import opened GkSyntax
  import opened GkRoundTrip
  import opened Wrappers
  import opened GkValues
  import opened GkInterp
  import opened GkAgreement

  /** Statements as parsed, with breaks and continues anywhere. */
  predicate Shaped(t: Tree) {
    IsStmt(t, true, false)
  }

  predicate FuncsShaped(fs: seq<Func>) {
    forall f :: f in fs ==> Shaped(f.body)
  }

  /** Every state in which evaluation is entered without an error. */
  predicate Good(s: State) {
    && s.error.None? && s.env.depth <= MAX_DEPTH
    && Layered(s.env.vars) && Within(s.env.vars, s.env.depth) && FuncsShaped(s.env.funcs)
  }

  /** The table keeps its form and the depth even on errors; without one the outer scopes are untouched, and an
      expression leaves the whole table as it was. */
  predicate Kept(s: State, r: Out, expr: bool) {
    r.Done? ==> KeptState(s, r.s, expr)
  }

  predicate KeptState(s: State, s': State, expr: bool) {
    && s'.env.depth == s.env.depth && Layered(s'.env.vars) && FuncsShaped(s'.env.funcs)
    && (s'.error.None? ==>
          && Within(s'.env.vars, s.env.depth)
          && PopScope(s'.env.vars, s.env.depth) == PopScope(s.env.vars, s.env.depth)
          && (expr ==> s'.env.vars == s.env.vars))
  }

  lemma {:induction false} Keep(t: Tree, s: State, fuel: nat)
    requires Shaped(t) && Good(s)
    ensures Kept(s, Eval(t, s, fuel), IsExprKind(t.kind))
    decreases fuel, 0
  {
    hide IsStmt, IsExpr, Layered, Within, FuncsShaped, PopScope, FindVar, EvalVar, EvalUnop, EvalBinop, EvalLogic,
      EvalPrint, EvalInput, EvalCast, EvalCall, EvalAssign, EvalBlock, EvalIf, EvalWhile, EvalFor, EvalDef, EvalReturn;
    if fuel > 0 {
      if IsExprKind(t.kind) {
        ShapedExpr(t);
        match t.kind {
          case NVar => KeepVar(t.text, s);
          case NUnop => KeepUnop(t, s, fuel - 1);
          case NBinop =>
            KeepLogic(t, s, fuel - 1);
            KeepBinop(t, s, fuel - 1);
          case NPrint => KeepPrint(t, 0, s, fuel - 1);
          case NInput => KeepInput(t, s, fuel - 1);
          case NIntCast => KeepCast(t, s, fuel - 1);
          case NCall => KeepCall(t, s, fuel - 1);
          case _ =>
        }
      } else {
        match t.kind {
          case NAssign => KeepAssign(t, s, fuel - 1);
          case NBlock =>
            ShapedBlock(t);
            KeepBlock(t.children, s, NoneV, fuel - 1);
          case NIf => KeepIf(t, s, fuel - 1);
          case NWhile => KeepWhile(t, s, NoneV, fuel - 1);
          case NFor => KeepFor(t, s, fuel - 1);
          case NDef => KeepDef(t, s);
          case NReturn => KeepReturn(t, s, fuel - 1);
          case _ =>
        }
      }
    }
  }

  lemma ShapedExpr(t: Tree)
    requires Shaped(t) && IsExprKind(t.kind)
    ensures IsExpr(t)
  {
  }

  lemma ShapedBlock(t: Tree)
    requires Shaped(t) && t.kind == NBlock
    ensures AllStmts(t.children, true, false)
  {
  }

  /** An expression is a statement too. */
  lemma ExprShaped(t: Tree)
    requires IsExpr(t)
    ensures Shaped(t) && IsExprKind(t.kind)
  {
  }

  lemma {:induction false} KeepExpr(t: Tree, i: nat, s: State, fuel: nat)
    requires i < |t.children| && IsExpr(t.children[i]) && Good(s)
    ensures Kept(s, EvalKid(t, i, s, fuel), true)
    decreases fuel, 1
  {
    hide Eval, IsExpr, Shaped, KeptState;
    ExprShaped(t.children[i]);
    Keep(t.children[i], s, fuel);
  }

  lemma {:induction false} KeepKid(t: Tree, i: nat, s: State, fuel: nat)
    requires i < |t.children| && Shaped(t.children[i]) && Good(s)
    ensures Kept(s, EvalKid(t, i, s, fuel), false)
    decreases fuel, 1
  {
    hide Eval, Shaped, Layered, Within, FuncsShaped, PopScope;
    Keep(t.children[i], s, fuel);
  }

  lemma KeepVar(name: string, s: State)
    requires Good(s)
    ensures Kept(s, EvalVar(name, s), true)
  {
    hide Layered, Within, FuncsShaped, PopScope;
  }

  lemma ExprKids(t: Tree)
    requires IsExpr(t)
    ensures forall i :: 0 <= i < |t.children| ==> IsExpr(t.children[i])
    ensures t.kind == NUnop ==> |t.children| == 1
    ensures t.kind == NBinop ==> |t.children| == 2
  {
    hide IsExpr;
    UnopKids(t);
    forall i | 0 <= i < |t.children| ensures IsExpr(t.children[i]) { ExprKid(t, i); }
  }

  lemma {:induction false} KeepUnop(t: Tree, s: State, fuel: nat)
    requires IsExpr(t) && t.kind == NUnop && Good(s)
    ensures Kept(s, EvalUnop(t, s, fuel), true)
    decreases fuel, 2
  {
    hide EvalKid, IsExpr, Layered, Within, FuncsShaped, PopScope, ApplyUnary;
    ExprKids(t);
    KeepExpr(t, 0, s, fuel);
  }

  lemma {:induction false} KeepBinop(t: Tree, s: State, fuel: nat)
    requires IsExpr(t) && t.kind == NBinop && Good(s)
    ensures Kept(s, EvalBinop(t, s, fuel), true)
    decreases fuel, 2
  {
    hide EvalKid, IsExpr, Layered, Within, FuncsShaped, PopScope, Apply;
    ExprKids(t);
    KeepExpr(t, 0, s, fuel);
    var r := EvalKid(t, 0, s, fuel);
    if r.Done? && r.s.error.None? {
      KeepExpr(t, 1, r.s, fuel);
    }
  }

  lemma {:induction false} KeepLogic(t: Tree, s: State, fuel: nat)
    requires IsExpr(t) && t.kind == NBinop && Good(s)
    ensures Kept(s, EvalLogic(t, s, fuel), true)
    decreases fuel, 2
  {
    hide EvalKid, IsExpr, Layered, Within, FuncsShaped, PopScope;
    ExprKids(t);
    KeepExpr(t, 0, s, fuel);
    var r := EvalKid(t, 0, s, fuel);
    if r.Done? && r.s.error.None? {
      KeepExpr(t, 1, r.s, fuel);
    } else if r.Done? {
      AfterError(t, 1, r.s, fuel);
    }
  }

  lemma {:induction false} KeepPrint(t: Tree, i: nat, s: State, fuel: nat)
    requires IsExpr(t) && i <= |t.children| && Good(s)
    ensures Kept(s, EvalPrint(t.children, i, s, fuel), true)
    decreases fuel, 1 + |t.children| - i
  {
    hide Eval, IsExpr, Shaped, Layered, Within, FuncsShaped, PopScope, Show;
    if i < |t.children| {
      ExprKids(t);
      ExprShaped(t.children[i]);
      Keep(t.children[i], s, fuel);
      var r := Eval(t.children[i], s, fuel);
      if r.Done? && r.s.error.None? {
        var e := Emit(r.s.env, Show(r.v));
        KeepPrint(t, i + 1, r.s.(env := if i < |t.children| - 1 then Emit(e, " ") else e), fuel);
      }
    }
  }

  lemma {:induction false} KeepInput(t: Tree, s: State, fuel: nat)
    requires IsExpr(t) && Good(s)
    ensures Kept(s, EvalInput(t, s, fuel), true)
    decreases fuel, 2
  {
    hide EvalKid, IsExpr, Layered, Within, FuncsShaped, PopScope, Show;
    ExprKids(t);
    if t.children != [] {
      KeepExpr(t, 0, s, fuel);
    }
  }

  lemma {:induction false} KeepCast(t: Tree, s: State, fuel: nat)
    requires IsExpr(t) && Good(s)
    ensures Kept(s, EvalCast(t, s, fuel), true)
    decreases fuel, 2
  {
    hide EvalKid, IsExpr, Layered, Within, FuncsShaped, PopScope, Cast;
    ExprKids(t);
    if |t.children| == 1 {
      KeepExpr(t, 0, s, fuel);
    }
  }

  // ----- calls -----

  lemma {:induction false} KeepArgs(ts: seq<Tree>, s: State, done: seq<Value>, fuel: nat)
    requires AllExprs(ts) && Good(s)
    ensures var r := EvalArgs(ts, s, done, fuel); r.ArgsDone? ==> KeptState(s, r.s, true)
    decreases fuel, 1 + |ts|
  {
    hide Eval, IsExpr, Shaped, Layered, Within, FuncsShaped, PopScope;
    if ts != [] {
      ExprShaped(ts[0]);
      Keep(ts[0], s, fuel);
      var r := Eval(ts[0], s, fuel);
      if r.Done? && r.s.error.None? {
        KeepArgs(ts[1..], r.s, done + [r.v], fuel);
      }
    }
  }

  lemma {:induction false} BindAllKept(e: Env, names: seq<string>, vals: seq<Value>)
    requires |names| == |vals| && Layered(e.vars) && Within(e.vars, e.depth)
    ensures var r := BindAll(e, names, vals).0;
            && Layered(r.vars) && Within(r.vars, e.depth) && PopScope(r.vars, e.depth) == PopScope(e.vars, e.depth)
    decreases |names|
  {
    hide SetVar, Layered, Within, PopScope;
    if names != [] {
      var r := Bind(e, names[0], vals[0]);
      SetVarLayered(e.vars, names[0], vals[0], e.depth);
      SetVarKeepsOuter(e.vars, names[0], vals[0], e.depth);
      if r.Some? { BindAllKept(r.value, names[1..], vals[1..]); }
    }
  }

  lemma {:induction false} KeepCall(t: Tree, s: State, fuel: nat)
    requires IsExpr(t) && t.kind == NCall && Good(s)
    ensures Kept(s, EvalCall(t, s, fuel), true)
    decreases fuel, 2 + |t.children|
  {
    hide IsExpr, AllExprs, Shaped, Layered, Within, FuncsShaped, PopScope, FindFunc, EvalArgs, EvalBody;
    CallKids(t);
    FindFuncShaped(s.env.funcs, t.text);
    KeepArgs(t.children, s, [], fuel);
    var f := FindFunc(s.env.funcs, t.text);
    var r := EvalArgs(t.children, s, [], fuel);
    if f.Some? && |t.children| == |f.value.params| && s.env.depth < MAX_DEPTH && r.ArgsDone? && r.s.error.None? {
      KeepBody(f.value, r.vals, r.s, fuel);
    }
  }

  lemma FindFuncShaped(fs: seq<Func>, name: string)
    requires FuncsShaped(fs)
    ensures var r := FindFunc(fs, name); r.Some? ==> Shaped(r.value.body)
  {
    hide Shaped;
    FindFuncIn(fs, name);
  }

  /** Entering a function and leaving it restores the table: whatever the body did is above the scope that is popped. */
  lemma {:induction false} KeepBody(f: Func, vals: seq<Value>, s: State, fuel: nat)
    requires |vals| == |f.params| && Shaped(f.body) && Good(s) && s.env.depth < MAX_DEPTH
    ensures Kept(s, EvalBody(f, vals, s, fuel), true)
    decreases fuel, 1
  {
    hide Eval, Shaped, BindAll, Layered, Within, FuncsShaped, PopScope;
    var d := s.env.depth;
    var e := s.env.(depth := d + 1);
    WithinMore(s.env.vars, d);
    BindAllKept(e, f.params, vals);
    BindAllKeeps(e, f.params, vals);
    PopScopeAll(s.env.vars, d);
    var r := BindAll(e, f.params, vals);
    if r.1 {
      Keep(f.body, s.(env := r.0), fuel);
      var b := Eval(f.body, s.(env := r.0), fuel);
      if b.Done? {
        PopScopeLayered(b.s.env.vars, d + 1);
      }
    }
  }

  lemma WithinMore(vars: seq<Var>, d: nat)
    requires Within(vars, d)
    ensures Within(vars, d + 1)
  {
  }

  lemma PopScopeLayered(vars: seq<Var>, d: nat)
    requires Layered(vars)
    ensures Layered(PopScope(vars, d))
  {
    hide Layered, PopScope;
    PopScopeIs(vars, d);
  }

  // ----- statements -----

  lemma ShapedKids(t: Tree)
    requires Shaped(t)
    ensures t.kind == NAssign ==> |t.children| == 1 && IsExpr(t.children[0])
    ensures t.kind == NReturn ==> |t.children| <= 1 && (t.children != [] ==> IsExpr(t.children[0]))
    ensures t.kind == NIf ==> && 2 <= |t.children| <= 3 && IsExpr(t.children[0]) && Shaped(t.children[1])
                              && (|t.children| == 3 ==> Shaped(t.children[2]))
    ensures t.kind == NWhile || t.kind == NFor ==> |t.children| == 2 && IsExpr(t.children[0]) && Shaped(t.children[1])
    ensures t.kind == NDef ==> t.children != [] && Shaped(t.children[|t.children| - 1])
  {
    hide IsExpr;
  }

  lemma BindKept(s: State, name: string, v: Value)
    requires Good(s)
    ensures var r := Bind(s.env, name, v); r.Some? ==> KeptState(s, s.(env := r.value), false)
  {
    hide SetVar, Layered, Within, FuncsShaped, PopScope;
    SetVarLayered(s.env.vars, name, v, s.env.depth);
    SetVarKeepsOuter(s.env.vars, name, v, s.env.depth);
  }

  lemma {:induction false} KeepAssign(t: Tree, s: State, fuel: nat)
    requires Shaped(t) && t.kind == NAssign && Good(s)
    ensures Kept(s, EvalAssign(t, s, fuel), false)
    decreases fuel, 2
  {
    hide EvalKid, Shaped, IsExpr, Layered, Within, FuncsShaped, PopScope, Bind;
    ShapedKids(t);
    KeepExpr(t, 0, s, fuel);
    var r := EvalKid(t, 0, s, fuel);
    if r.Done? && r.s.error.None? {
      BindKept(r.s, t.text, r.v);
    }
  }

  lemma {:induction false} KeepReturn(t: Tree, s: State, fuel: nat)
    requires Shaped(t) && t.kind == NReturn && Good(s)
    ensures Kept(s, EvalReturn(t, s, fuel), false)
    decreases fuel, 2
  {
    hide EvalKid, Shaped, IsExpr, Layered, Within, FuncsShaped, PopScope;
    ShapedKids(t);
    if t.children != [] {
      KeepExpr(t, 0, s, fuel);
    }
  }

  lemma KeepDef(t: Tree, s: State)
    requires Shaped(t) && t.kind == NDef && Good(s)
    ensures Kept(s, EvalDef(t, s), false)
  {
    hide Shaped, Layered, Within, PopScope;
    ShapedKids(t);
  }

  lemma {:induction false} KeepBlock(ts: seq<Tree>, s: State, last: Value, fuel: nat)
    requires AllStmts(ts, true, false) && Good(s)
    ensures Kept(s, EvalBlock(ts, s, last, fuel), false)
    decreases fuel, 1 + |ts|
  {
    hide Eval, IsStmt, Layered, Within, FuncsShaped, PopScope;
    if ts != [] {
      Keep(ts[0], s, fuel);
      var r := Eval(ts[0], s, fuel);
      if r.Done? && !Stopped(r.s) {
        KeepBlock(ts[1..], r.s, r.v, fuel);
      }
    }
  }

  lemma {:induction false} KeepIf(t: Tree, s: State, fuel: nat)
    requires Shaped(t) && t.kind == NIf && Good(s)
    ensures Kept(s, EvalIf(t, s, fuel), false)
    decreases fuel, 2
  {
    hide EvalKid, Shaped, IsExpr, Layered, Within, FuncsShaped, PopScope;
    ShapedKids(t);
    KeepExpr(t, 0, s, fuel);
    var r := EvalKid(t, 0, s, fuel);
    if r.Done? && r.s.error.None? {
      KeepKid(t, 1, r.s, fuel);
      if |t.children| == 3 {
        KeepKid(t, 2, r.s, fuel);
      }
    }
  }

  lemma {:induction false} KeepWhile(t: Tree, s: State, result: Value, fuel: nat)
    requires Shaped(t) && t.kind == NWhile && Good(s)
    ensures Kept(s, EvalWhile(t, s, result, fuel), false)
    decreases fuel, 2
  {
    hide EvalKid, Shaped, IsExpr, Layered, Within, FuncsShaped, PopScope;
    ShapedKids(t);
    KeepExpr(t, 0, s, fuel);
    var r := EvalKid(t, 0, s, fuel);
    if r.Done? && r.s.error.None? {
      KeepKid(t, 1, r.s, fuel);
      var b := EvalKid(t, 1, r.s, fuel);
      if b.Done? && b.s.error.None? && fuel > 0 {
        KeepWhile(t, b.s.(continuing := false), b.v, fuel - 1);
      }
    }
  }

  lemma {:induction false} KeepFor(t: Tree, s: State, fuel: nat)
    requires Shaped(t) && t.kind == NFor && Good(s)
    ensures Kept(s, EvalFor(t, s, fuel), false)
    decreases fuel, 4
  {
    hide EvalKid, Shaped, IsExpr, Layered, Within, FuncsShaped, PopScope, EvalTurns;
    ShapedKids(t);
    var head := t.children[0];
    var r: Out;
    if head.kind == NRange {
      if head.children == [] { return; }
      ExprKids(head);
      KeepExpr(head, 0, s, fuel);
      r := EvalKid(head, 0, s, fuel);
    } else {
      KeepExpr(t, 0, s, fuel);
      r := EvalKid(t, 0, s, fuel);
    }
    if r.Done? && r.s.error.None? && r.v.IntV? {
      KeepTurns(t, 0, r.v.i, r.s, NoneV, fuel);
    }
  }

  lemma {:induction false} KeepTurns(t: Tree, i: int, limit: int, s: State, result: Value, fuel: nat)
    requires Shaped(t) && t.kind == NFor && Good(s)
    ensures Kept(s, EvalTurns(t, i, limit, s, result, fuel), false)
    decreases fuel, 3
  {
    hide EvalKid, Shaped, IsExpr, Layered, Within, FuncsShaped, PopScope, Bind;
    ShapedKids(t);
    var e := Bind(s.env, t.text, IntV(i));
    if i < limit && e.Some? {
      BindKept(s, t.text, IntV(i));
      var s1 := s.(env := e.value);
      KeepKid(t, 1, s1, fuel);
      var b := EvalKid(t, 1, s1, fuel);
      if b.Done? && b.s.error.None? && fuel > 0 {
        KeepTurns(t, i + 1, limit, b.s.(continuing := false), b.v, fuel - 1);
      }
    }
  }

  // ----- the results -----

  /** A call that ends without an error leaves the call depth and the whole variable table exactly as they were. */
  lemma CallRestores(t: Tree, s: State, fuel: nat)
    requires IsExpr(t) && t.kind == NCall && Good(s)
    ensures var r := Eval(t, s, fuel);
            r.Done? && r.s.error.None? ==> r.s.env.vars == s.env.vars && r.s.env.depth == s.env.depth
  {
    hide Eval, IsExpr, Shaped, Good;
    ExprShaped(t);
    Keep(t, s, fuel);
  }

  /** Every run from a fresh interpreter ends, error or not, at depth 0 with a layered table. */
  lemma RunKeepsLayers(t: Tree, inp: seq<string>, fuel: nat)
    requires Shaped(t)
    ensures var r := Eval(t, Initial(inp), fuel);
            r.Done? ==> && r.s.env.depth == 0 && Layered(r.s.env.vars)
                        && (r.s.error.None? ==> Within(r.s.env.vars, 0))
  {
    hide Eval, Shaped;
    Keep(t, Initial(inp), fuel);
  }

  /** What holds in every state at all, after an error too. */
  predicate Steady(s: State) {
    && s.env.depth <= MAX_DEPTH && Layered(s.env.vars) && FuncsShaped(s.env.funcs)
    && (s.error.None? ==> Within(s.env.vars, s.env.depth))
  }

  lemma KeepSteady(t: Tree, s: State, fuel: nat)
    requires Shaped(t) && Steady(s)
    ensures var r := Eval(t, s, fuel); r.Done? ==> Steady(r.s) && r.s.env.depth == s.env.depth
  {
    hide Shaped, Layered, FuncsShaped, Within, PopScope, EvalVar, EvalUnop, EvalBinop, EvalLogic,
      EvalPrint, EvalInput, EvalCast, EvalCall, EvalAssign, EvalBlock, EvalIf, EvalWhile, EvalFor, EvalDef, EvalReturn;
    if s.error.None? {
      Keep(t, s, fuel);
    }
  }
}
