/** The interpreter as an object that updates its tables and flags in place. */
module GkMachine {
  import opened GkSyntax
  import opened GkRoundTrip
  import opened Wrappers
  import opened GkValues
  import opened GkAgreement
  import opened GkScopes
  import I = GkInterp

  class Machine {
    var vars: seq<Var>
    var funcs: seq<Func>
    var depth: nat
    var out: string
    var inp: seq<string>
    var returning: bool
    var breaking: bool
    var continuing: bool
    var retVal: Value
    var error: Option<RunError>

    ghost function Env(): I.Env
      reads this
    {
      I.Env(vars, funcs, depth, out, inp)
    }

    ghost function State(): I.State
      reads this
    {
      I.State(Env(), returning, breaking, continuing, retVal, error)
    }

    /** The call ended as the evaluator's specification says, or both ran out of fuel. */
    ghost predicate Matches(r: I.Out, ok: bool, v: Value)
      reads this
    {
      if r.Timeout? then !ok else ok && State() == r.s && v == r.v
    }

    /** gk_init. */
    constructor (lines: seq<string>)
      ensures State() == Initial(lines)
    {
      vars, funcs, depth, out, inp := [], [], 0, "", lines;
      returning, breaking, continuing, retVal, error := false, false, false, NoneV, None;
    }

    // ----- the tables -----

    method FindVariable(name: string) returns (i: int)
      ensures i == FindVar(vars, |vars|, name)
    {
      i := |vars| - 1;
      while i >= 0 && vars[i].name != name
        invariant -1 <= i < |vars|
        invariant FindVar(vars, i + 1, name) == FindVar(vars, |vars|, name)
      {
        i := i - 1;
      }
    }

    method SetVariable(name: string, val: Value) returns (ok: bool)
      modifies this`vars, this`error
      ensures var r := SetVar(old(vars), name, val, depth);
              && ok == r.Some?
              && (ok ==> vars == r.value && error == old(error))
              && (!ok ==> vars == old(vars) && error == Some(TooManyVariables))
    {
      var i := |vars| - 1;
      while i >= 0 && vars[i].scope >= depth
        invariant -1 <= i < |vars|
        invariant FindLocal(vars, i + 1, name, depth) == FindLocal(vars, |vars|, name, depth)
        invariant vars == old(vars) && error == old(error)
      {
        if vars[i].name == name {
          vars := vars[i := vars[i].(val := val)];
          return true;
        }
        i := i - 1;
      }
      if |vars| >= MAX_VARS {
        error := Some(TooManyVariables);
        return false;
      }
      vars := vars + [Var(name, val, depth)];
      return true;
    }

    method PopVariables()
      modifies this`vars
      ensures vars == PopScope(old(vars), depth)
    {
      while vars != [] && vars[|vars| - 1].scope >= depth
        invariant PopScope(vars, depth) == PopScope(old(vars), depth)
        decreases |vars|
      {
        vars := vars[..|vars| - 1];
      }
    }

    method FindFunction(name: string) returns (r: Option<Func>)
      ensures r == FindFunc(funcs, name)
    {
      var i := 0;
      while i < |funcs|
        invariant 0 <= i <= |funcs|
        invariant FindFunc(funcs[i..], name) == FindFunc(funcs, name)
      {
        if funcs[i].name == name {
          return Some(funcs[i]);
        }
        assert funcs[i..][1..] == funcs[i + 1..];
        i := i + 1;
      }
      return None;
    }

    method Fail(e: RunError) returns (ok: bool, v: Value)
      modifies this`error
      ensures Matches(I.Fails(old(State()), e), ok, v)
    {
      error := Some(e);
      return true, NoneV;
    }

    method Apply(a: Applied) returns (ok: bool, v: Value)
      modifies this`error
      ensures Matches(I.Applying(old(State()), a), ok, v)
    {
      match a
      case Wrong(e) => ok, v := Fail(e);
      case Gives(x) => return true, x;
    }

    // ----- evaluation -----

    method Eval(t: Tree, fuel: nat) returns (ok: bool, v: Value)
      requires Shaped(t) && Steady(State())
      modifies this
      ensures Matches(I.Eval(t, old(State()), fuel), ok, v)
      ensures ok ==> Steady(State()) && depth == old(depth)
      decreases fuel, 0
    {
      KeepSteady(t, State(), fuel);
      if fuel == 0 {
        return false, NoneV;
      }
      if error.Some? {
        return true, NoneV;
      }
      if IsExprKind(t.kind) {
        ShapedExpr(t);
        ok, v := EvalExpr(t, fuel);
      } else {
        ok, v := EvalStmt(t, fuel);
      }
    }

    method EvalExpr(t: Tree, fuel: nat) returns (ok: bool, v: Value)
      requires IsExpr(t) && IsExprKind(t.kind) && Good(State()) && fuel > 0
      modifies this
      ensures Matches(I.Eval(t, old(State()), fuel), ok, v)
      decreases fuel - 1, 10 + |t.children|
    {
      hide IsExpr, Good, I.EvalVar, I.EvalUnop, I.EvalBinop, I.EvalLogic, I.EvalPrint, I.EvalInput, I.EvalCast, I.EvalCall;
      GoodHasNoError(State());
      match t.kind {
        case NInt => return true, IntV(t.intVal);
        case NStr => return true, StrV(t.text);
        case NBool => return true, BoolV(t.intVal != 0);
        case NVar => ok, v := EvalVar(t.text);
        case NUnop => ok, v := EvalUnop(t, fuel - 1);
        case NBinop =>
          if t.op == TAnd || t.op == TOr {
            ok, v := EvalLogic(t, fuel - 1);
          } else {
            ok, v := EvalBinop(t, fuel - 1);
          }
        case NPrint => ok, v := EvalPrint(t, fuel - 1);
        case NInput => ok, v := EvalInput(t, fuel - 1);
        case NIntCast => ok, v := EvalCast(t, fuel - 1);
        case NCall => ok, v := EvalCall(t, fuel - 1);
        case NRange => ok, v := Fail(UnknownNode);
      }
    }

    method EvalStmt(t: Tree, fuel: nat) returns (ok: bool, v: Value)
      requires Shaped(t) && !IsExprKind(t.kind) && Good(State()) && fuel > 0
      modifies this
      ensures Matches(I.Eval(t, old(State()), fuel), ok, v)
      decreases fuel - 1, 10 + |t.children|
    {
      hide Shaped, Good, I.EvalAssign, I.EvalBlock, I.EvalIf, I.EvalWhile, I.EvalFor, I.EvalDef, I.EvalReturn;
      GoodHasNoError(State());
      match t.kind {
        case NAssign => ok, v := EvalAssign(t, fuel - 1);
        case NBlock => ok, v := EvalBlock(t, fuel - 1);
        case NIf => ok, v := EvalIf(t, fuel - 1);
        case NWhile => ok, v := EvalWhile(t, fuel - 1);
        case NFor => ok, v := EvalFor(t, fuel - 1);
        case NDef => ok, v := EvalDef(t);
        case NReturn => ok, v := EvalReturn(t, fuel - 1);
        case NBreak =>
          breaking := true;
          return true, NoneV;
        case NContinue =>
          continuing := true;
          return true, NoneV;
      }
    }

    /** A child that is an expression. */
    method EvalOperand(t: Tree, i: nat, fuel: nat) returns (ok: bool, v: Value)
      requires i < |t.children| && IsExpr(t.children[i]) && Steady(State())
      modifies this
      ensures Matches(I.EvalKid(t, i, old(State()), fuel), ok, v)
      ensures ok ==> Steady(State()) && depth == old(depth)
      decreases fuel, 1
    {
      hide I.Eval, IsExpr, Shaped, Steady;
      ExprShaped(t.children[i]);
      ok, v := Eval(t.children[i], fuel);
    }

    method EvalVar(name: string) returns (ok: bool, v: Value)
      modifies this`error
      ensures Matches(I.EvalVar(name, old(State())), ok, v)
    {
      var i := FindVariable(name);
      if i < 0 {
        ok, v := Fail(UndefinedVariable(name));
      } else {
        return true, vars[i].val;
      }
    }

    method EvalUnop(t: Tree, fuel: nat) returns (ok: bool, v: Value)
      requires IsExpr(t) && t.kind == NUnop && Good(State())
      modifies this
      ensures Matches(I.EvalUnop(t, old(State()), fuel), ok, v)
      decreases fuel, 2
    {
      hide I.EvalKid, IsExpr, Good, Steady, ApplyUnary, I.Applying;
      GoodSteady(State());
      ExprKids(t);
      ok, v := EvalOperand(t, 0, fuel);
      if ok && error.Some? {
        return true, NoneV;
      }
      if ok {
        ok, v := Apply(ApplyUnary(t.op, v));
      }
    }

    method EvalLogic(t: Tree, fuel: nat) returns (ok: bool, v: Value)
      requires IsExpr(t) && t.kind == NBinop && Good(State())
      modifies this
      ensures Matches(I.EvalLogic(t, old(State()), fuel), ok, v)
      decreases fuel, 2
    {
      hide I.EvalKid, IsExpr, Good, Steady;
      GoodSteady(State());
      ExprKids(t);
      ok, v := EvalOperand(t, 0, fuel);
      if !ok {
        return false, NoneV;
      }
      if t.op == TAnd && !Truthy(v) {
        return true, BoolV(false);
      }
      if t.op == TOr && Truthy(v) {
        return true, BoolV(true);
      }
      ok, v := EvalOperand(t, 1, fuel);
      v := BoolV(Truthy(v));
    }

    method EvalBinop(t: Tree, fuel: nat) returns (ok: bool, v: Value)
      requires IsExpr(t) && t.kind == NBinop && Good(State())
      modifies this
      ensures Matches(I.EvalBinop(t, old(State()), fuel), ok, v)
      decreases fuel, 2
    {
      hide I.EvalKid, IsExpr, Good, Steady, GkValues.Apply, I.Applying;
      GoodSteady(State());
      ExprKids(t);
      var l, r;
      ok, l := EvalOperand(t, 0, fuel);
      if !ok || error.Some? {
        return ok, NoneV;
      }
      ok, r := EvalOperand(t, 1, fuel);
      if !ok || error.Some? {
        return ok, NoneV;
      }
      ok, v := Apply(GkValues.Apply(t.op, l, r));
    }

    method EvalPrint(t: Tree, fuel: nat) returns (ok: bool, v: Value)
      requires IsExpr(t) && Good(State())
      modifies this
      ensures Matches(I.EvalPrint(t.children, 0, old(State()), fuel), ok, v)
      decreases fuel, 2
    {
      hide I.Eval, IsExpr, Good, Steady, Shaped, Show;
      GoodSteady(State());
      ExprKids(t);
      var i := 0;
      while i < |t.children|
        invariant 0 <= i <= |t.children| && Steady(State())
        invariant I.EvalPrint(t.children, i, State(), fuel) == I.EvalPrint(t.children, 0, old(State()), fuel)
      {
        ExprShaped(t.children[i]);
        ok, v := Eval(t.children[i], fuel);
        if !ok || error.Some? {
          return ok, NoneV;
        }
        ghost var before := State();
        out := out + Show(v);
        if i < |t.children| - 1 {
          out := out + " ";
        }
        SteadyEmit(before, State());
        i := i + 1;
      }
      out := out + "\n";
      return true, NoneV;
    }

    method ReadLine() returns (line: string)
      modifies this`out, this`inp
      ensures I.ReadLine(old(Env())) == (line, Env())
    {
      line := "";
      if inp != [] {
        line := Clip(inp[0]);
        inp := inp[1..];
      }
      out := out + "\n";
    }

    method EvalInput(t: Tree, fuel: nat) returns (ok: bool, v: Value)
      requires IsExpr(t) && Good(State())
      modifies this
      ensures Matches(I.EvalInput(t, old(State()), fuel), ok, v)
      decreases fuel, 2
    {
      hide I.EvalKid, IsExpr, Good, Steady, Show, I.ReadLine;
      GoodSteady(State());
      ExprKids(t);
      if t.children != [] {
        ok, v := EvalOperand(t, 0, fuel);
        if !ok || error.Some? {
          return ok, NoneV;
        }
        out := out + Show(v);
      }
      var line := ReadLine();
      return true, StrV(line);
    }

    method EvalCast(t: Tree, fuel: nat) returns (ok: bool, v: Value)
      requires IsExpr(t) && Good(State())
      modifies this
      ensures Matches(I.EvalCast(t, old(State()), fuel), ok, v)
      decreases fuel, 2
    {
      hide I.EvalKid, IsExpr, Good, Steady, Cast, I.Applying;
      GoodSteady(State());
      ExprKids(t);
      if |t.children| != 1 {
        ok, v := Fail(IntArity);
        return;
      }
      ok, v := EvalOperand(t, 0, fuel);
      if !ok || error.Some? {
        return ok, NoneV;
      }
      ok, v := Apply(Cast(v));
    }

    // ----- statements -----

    method EvalAssign(t: Tree, fuel: nat) returns (ok: bool, v: Value)
      requires Shaped(t) && t.kind == NAssign && Good(State())
      modifies this
      ensures Matches(I.EvalAssign(t, old(State()), fuel), ok, v)
      decreases fuel, 2
    {
      hide I.EvalKid, IsExpr, Shaped, Good, Steady, SetVar;
      GoodSteady(State());
      ShapedKids(t);
      ok, v := EvalOperand(t, 0, fuel);
      if !ok || error.Some? {
        return ok, NoneV;
      }
      var fits := SetVariable(t.text, v);
      if !fits {
        return true, NoneV;
      }
    }

    method EvalBlock(t: Tree, fuel: nat) returns (ok: bool, v: Value)
      requires Shaped(t) && t.kind == NBlock && Good(State())
      modifies this
      ensures Matches(I.EvalBlock(t.children, old(State()), NoneV, fuel), ok, v)
      decreases fuel, 2
    {
      hide I.Eval, IsStmt, Good, Steady, AllStmts;
      GoodSteady(State());
      ShapedBlock(t);
      ok, v := true, NoneV;
      var i := 0;
      while i < |t.children|
        invariant 0 <= i <= |t.children| && Steady(State()) && ok
        invariant I.EvalBlock(t.children[i..], State(), v, fuel) == I.EvalBlock(t.children, old(State()), NoneV, fuel)
      {
        AllStmtsAt(t.children, i, true, false);
        assert t.children[i..][1..] == t.children[i + 1..];
        ok, v := Eval(t.children[i], fuel);
        if !ok || error.Some? || returning || breaking || continuing {
          return;
        }
        i := i + 1;
      }
    }

    method EvalIf(t: Tree, fuel: nat) returns (ok: bool, v: Value)
      requires Shaped(t) && t.kind == NIf && Good(State())
      modifies this
      ensures Matches(I.EvalIf(t, old(State()), fuel), ok, v)
      decreases fuel, 2
    {
      hide I.Eval, IsExpr, Shaped, Good, Steady;
      GoodSteady(State());
      ShapedKids(t);
      ok, v := EvalOperand(t, 0, fuel);
      if !ok || error.Some? {
        return ok, NoneV;
      }
      if Truthy(v) {
        ok, v := Eval(t.children[1], fuel);
      } else if |t.children| == 3 {
        ok, v := Eval(t.children[2], fuel);
      } else {
        return true, NoneV;
      }
    }

    method EvalWhile(t: Tree, fuel: nat) returns (ok: bool, v: Value)
      requires Shaped(t) && t.kind == NWhile && Good(State())
      modifies this
      ensures Matches(I.EvalWhile(t, old(State()), NoneV, fuel), ok, v)
      decreases fuel, 2
    {
      hide I.Eval, IsExpr, Shaped, Good, Steady;
      GoodSteady(State());
      ShapedKids(t);
      var f: nat := fuel;
      v := NoneV;
      while true
        invariant f <= fuel && Steady(State())
        invariant I.EvalWhile(t, State(), v, f) == I.EvalWhile(t, old(State()), NoneV, fuel)
        decreases f
      {
        var c;
        ok, c := EvalOperand(t, 0, f);
        if !ok || error.Some? || !Truthy(c) {
          return;
        }
        EvalTakesFuel(t.children[1], State(), f);
        ok, v := Eval(t.children[1], f);
        if !ok || error.Some? || returning {
          return;
        }
        if breaking {
          breaking := false;
          return;
        }
        ghost var before := State();
        continuing := false;
        SteadyEmit(before, State());
        f := f - 1;
      }
    }

    method EvalFor(t: Tree, fuel: nat) returns (ok: bool, v: Value)
      requires Shaped(t) && t.kind == NFor && Good(State())
      modifies this
      ensures Matches(I.EvalFor(t, old(State()), fuel), ok, v)
      decreases fuel, 4
    {
      hide I.EvalKid, I.EvalTurns, IsExpr, Shaped, Good, Steady;
      GoodSteady(State());
      ShapedKids(t);
      var head := t.children[0];
      var ranged := head.kind == NRange;
      if ranged {
        ExprKids(head);
        if head.children == [] {
          ok, v := Fail(RangeArity);
          return;
        }
        ok, v := EvalOperand(head, 0, fuel);
      } else {
        ok, v := EvalOperand(t, 0, fuel);
      }
      if !ok || error.Some? {
        return ok, NoneV;
      }
      if !v.IntV? {
        ok, v := Fail(if ranged then RangeType else ForType);
        return;
      }
      SteadyGood(State());
      ok, v := EvalTurns(t, v.i, fuel);
    }

    method EvalTurns(t: Tree, limit: int, fuel: nat) returns (ok: bool, v: Value)
      requires Shaped(t) && t.kind == NFor && Good(State())
      modifies this
      ensures Matches(I.EvalTurns(t, 0, limit, old(State()), NoneV, fuel), ok, v)
      decreases fuel, 3
    {
      hide I.Eval, IsExpr, Shaped, Good, Steady, SetVar;
      ShapedKids(t);
      var f: nat := fuel;
      var i := 0;
      v := NoneV;
      while i < limit
        invariant f <= fuel && Good(State())
        invariant I.EvalTurns(t, i, limit, State(), v, f) == I.EvalTurns(t, 0, limit, old(State()), NoneV, fuel)
        decreases f
      {
        var fits := BindTurn(t.text, i);
        if !fits {
          return true, NoneV;
        }
        EvalTakesFuel(t.children[1], State(), f);
        ok, v := Eval(t.children[1], f);
        if !ok || error.Some? || returning {
          return;
        }
        if breaking {
          breaking := false;
          return;
        }
        SteadyGood(State());
        ghost var before := State();
        continuing := false;
        GoodFlags(before, State());
        f := f - 1;
        i := i + 1;
      }
      ok := true;
    }

    /** The loop variable of one turn. */
    method BindTurn(name: string, i: int) returns (ok: bool)
      requires Good(State())
      modifies this`vars, this`error
      ensures match I.Bind(old(Env()), name, IntV(i))
              case None => !ok && State() == old(State()).(error := Some(TooManyVariables))
              case Some(e) => ok && State() == old(State()).(env := e) && Steady(State())
    {
      hide Good, Steady, SetVar;
      ghost var before := State();
      BindKept(before, name, IntV(i));
      ok := SetVariable(name, IntV(i));
      if ok {
        KeptSteady(before, State());
      }
    }

    method EvalDef(t: Tree) returns (ok: bool, v: Value)
      requires Shaped(t) && t.kind == NDef && Good(State())
      modifies this
      ensures Matches(I.EvalDef(t, old(State())), ok, v)
    {
      hide IsExpr, Shaped, Good;
      ShapedKids(t);
      if |funcs| >= MAX_FUNCS {
        ok, v := Fail(TooManyFunctions);
        return;
      }
      var n := |t.children| - 1;
      var params := [];
      while |params| < n && |params| < MAX_PARAMS
        invariant |params| <= n && |params| <= MAX_PARAMS
        invariant forall k :: 0 <= k < |params| ==> params[k] == t.children[k].text
        decreases n - |params|
      {
        params := params + [t.children[|params|].text];
      }
      assert params == I.FuncOf(t).params;
      funcs := funcs + [Func(t.text, params, t.children[n])];
      return true, NoneV;
    }

    method EvalReturn(t: Tree, fuel: nat) returns (ok: bool, v: Value)
      requires Shaped(t) && t.kind == NReturn && Good(State())
      modifies this
      ensures Matches(I.EvalReturn(t, old(State()), fuel), ok, v)
      decreases fuel, 2
    {
      hide I.EvalKid, IsExpr, Shaped, Good, Steady;
      GoodSteady(State());
      ShapedKids(t);
      v := NoneV;
      if t.children != [] {
        ok, v := EvalOperand(t, 0, fuel);
        if !ok || error.Some? {
          return ok, NoneV;
        }
      }
      returning := true;
      retVal := v;
      ok := true;
    }

    // ----- calls -----

    method EvalCall(t: Tree, fuel: nat) returns (ok: bool, v: Value)
      requires IsExpr(t) && t.kind == NCall && Good(State())
      modifies this
      ensures Matches(I.EvalCall(t, old(State()), fuel), ok, v)
      decreases fuel, 2 + |t.children|
    {
      hide I.EvalArgs, I.EvalBody, IsExpr, AllExprs, Good, Steady, FindFunc, Shaped, FuncsShaped;
      GoodFuncs(State(), t.text);
      GoodSteady(State());
      CallKids(t);
      var f := FindFunction(t.text);
      if f.None? {
        ok, v := Fail(UndefinedFunction(t.text));
        return;
      }
      if |t.children| != |f.value.params| {
        ok, v := Fail(WrongArity);
        return;
      }
      if depth >= MAX_DEPTH {
        ok, v := Fail(MaxDepth);
        return;
      }
      var args;
      ok, args := EvalArgs(t.children, fuel);
      if !ok || error.Some? {
        return ok, NoneV;
      }
      SteadyGood(State());
      ok, v := EvalBody(f.value, args, fuel);
    }

    method EvalArgs(ts: seq<Tree>, fuel: nat) returns (ok: bool, args: seq<Value>)
      requires AllExprs(ts) && Steady(State())
      modifies this
      ensures var r := I.EvalArgs(ts, old(State()), [], fuel);
              if r.ArgsTimeout? then !ok else ok && State() == r.s && args == r.vals
      ensures ok ==> Steady(State()) && depth == old(depth)
      decreases fuel, 1 + |ts|
    {
      hide I.Eval, IsExpr, Shaped, Steady;
      args := [];
      var i := 0;
      while i < |ts|
        invariant 0 <= i <= |ts| && Steady(State()) && depth == old(depth)
        invariant I.EvalArgs(ts[i..], State(), args, fuel) == I.EvalArgs(ts, old(State()), [], fuel)
      {
        AllExprsAt(ts, i);
        ExprShaped(ts[i]);
        assert ts[i..][1..] == ts[i + 1..];
        var v;
        ok, v := Eval(ts[i], fuel);
        if !ok || error.Some? {
          return;
        }
        args := args + [v];
        i := i + 1;
      }
      ok := true;
    }

    /** Bind the parameters, run the body, pop the scope. */
    method EvalBody(f: Func, args: seq<Value>, fuel: nat) returns (ok: bool, v: Value)
      requires |args| == |f.params| && Shaped(f.body) && Good(State()) && depth < MAX_DEPTH
      modifies this
      ensures Matches(I.EvalBody(f, args, old(State()), fuel), ok, v)
      decreases fuel, 1
    {
      hide I.Eval, I.BindAll, Shaped, Good, Steady, PopScope;
      ghost var s := State();
      EnterSteady(s, f, args);
      depth := depth + 1;
      var bound := BindParams(f.params, args);
      if !bound {
        depth := depth - 1;
        return true, NoneV;
      }
      ok, v := Eval(f.body, fuel);
      if !ok {
        return;
      }
      if returning {
        v := retVal;
        returning := false;
      }
      PopVariables();
      depth := depth - 1;
    }

    method BindParams(names: seq<string>, vals: seq<Value>) returns (ok: bool)
      requires |names| == |vals|
      modifies this`vars, this`error
      ensures (Env(), ok) == I.BindAll(old(Env()), names, vals)
      ensures error == if ok then old(error) else Some(TooManyVariables)
    {
      hide SetVar;
      var i := 0;
      while i < |names|
        invariant 0 <= i <= |names| && error == old(error)
        invariant I.BindAll(Env(), names[i..], vals[i..]) == I.BindAll(old(Env()), names, vals)
      {
        assert names[i..][1..] == names[i + 1..] && vals[i..][1..] == vals[i + 1..];
        ok := SetVariable(names[i], vals[i]);
        if !ok {
          return;
        }
        i := i + 1;
      }
      ok := true;
    }
  }

  // ----- what the methods need of the specification -----

  lemma GoodHasNoError(s: I.State)
    requires Good(s)
    ensures s.error.None?
  {
  }

  lemma GoodSteady(s: I.State)
    requires Good(s)
    ensures Steady(s) && s.error.None? && s.env.depth <= MAX_DEPTH
  {
    hide Layered, Within, FuncsShaped;
  }

  lemma SteadyGood(s: I.State)
    requires Steady(s) && s.error.None?
    ensures Good(s)
  {
    hide Layered, Within, FuncsShaped;
  }

  lemma SteadyEmit(s: I.State, s': I.State)
    requires Steady(s) && s.error == s'.error
    requires s.env.vars == s'.env.vars && s.env.funcs == s'.env.funcs && s.env.depth == s'.env.depth
    ensures Steady(s')
  {
    hide Layered, Within, FuncsShaped;
  }

  lemma GoodFlags(s: I.State, s': I.State)
    requires Good(s) && s.error == s'.error && s.env == s'.env
    ensures Good(s')
  {
    hide Layered, Within, FuncsShaped;
  }

  lemma KeptSteady(s: I.State, s': I.State)
    requires Good(s) && KeptState(s, s', false)
    ensures Steady(s')
  {
    hide Layered, Within, FuncsShaped, PopScope;
  }

  lemma GoodFuncs(s: I.State, name: string)
    requires Good(s)
    ensures var r := FindFunc(s.env.funcs, name); r.Some? ==> Shaped(r.value.body)
  {
    hide Layered, Within, FuncsShaped, Shaped, FindFunc;
    FindFuncShaped(s.env.funcs, name);
  }

  lemma EvalTakesFuel(t: Tree, s: I.State, fuel: nat)
    ensures I.Eval(t, s, fuel).Done? ==> fuel > 0
  {
  }

  lemma EnterSteady(s: I.State, f: Func, args: seq<Value>)
    requires Good(s) && s.env.depth < MAX_DEPTH && |args| == |f.params|
    ensures var e := I.BindAll(s.env.(depth := s.env.depth + 1), f.params, args).0;
            Steady(s.(env := e)) && e.depth == s.env.depth + 1
  {
    hide Layered, Within, FuncsShaped, PopScope, I.BindAll;
    WithinMore(s.env.vars, s.env.depth);
    BindAllKept(s.env.(depth := s.env.depth + 1), f.params, args);
    BindAllKeeps(s.env.(depth := s.env.depth + 1), f.params, args);
  }
}
