/** The fuel only cuts evaluations off: what has finished finishes the same way with more of it. */
module GkFuel {
  import opened GkSyntax
  import opened Wrappers
  import opened GkValues
  import opened GkInterp

  predicate Same(a: Out, b: Out) {
    a.Done? ==> b == a
  }

  /** An evaluation that finishes has one result, whatever fuel it is given beyond what it needs. */
  lemma {:induction false} MoreFuel(t: Tree, s: State, f: nat, g: nat)
    requires f <= g
    ensures Same(Eval(t, s, f), Eval(t, s, g))
    decreases f, 0
  {
    hide EvalVar, EvalUnop, EvalBinop, EvalLogic, EvalPrint, EvalInput, EvalCast, EvalCall, EvalAssign, EvalBlock, EvalIf,
      EvalWhile, EvalFor, EvalDef, EvalReturn;
    if f > 0 && s.error.None? {
      match t.kind
      case NAssign => MoreAssign(t, s, f - 1, g - 1);
      case NUnop => MoreUnop(t, s, f - 1, g - 1);
      case NBinop =>
        MoreLogic(t, s, f - 1, g - 1);
        MoreBinop(t, s, f - 1, g - 1);
      case NPrint => MorePrint(t.children, 0, s, f - 1, g - 1);
      case NInput => MoreInput(t, s, f - 1, g - 1);
      case NIntCast => MoreCast(t, s, f - 1, g - 1);
      case NBlock => MoreBlock(t.children, s, NoneV, f - 1, g - 1);
      case NIf => MoreIf(t, s, f - 1, g - 1);
      case NWhile => MoreWhile(t, s, NoneV, f - 1, g - 1);
      case NFor => MoreFor(t, s, f - 1, g - 1);
      case NCall => MoreCall(t, s, f - 1, g - 1);
      case NReturn => MoreReturn(t, s, f - 1, g - 1);
      case _ =>
    }
  }

  lemma {:induction false} MoreKid(t: Tree, i: nat, s: State, f: nat, g: nat)
    requires f <= g
    ensures Same(EvalKid(t, i, s, f), EvalKid(t, i, s, g))
    decreases f, 1
  {
    hide Eval;
    if i < |t.children| { MoreFuel(t.children[i], s, f, g); }
  }

  lemma {:induction false} MoreAssign(t: Tree, s: State, f: nat, g: nat)
    requires f <= g
    ensures Same(EvalAssign(t, s, f), EvalAssign(t, s, g))
    decreases f, 2
  {
    hide EvalKid, Bind;
    MoreKid(t, 0, s, f, g);
  }

  lemma {:induction false} MoreUnop(t: Tree, s: State, f: nat, g: nat)
    requires f <= g
    ensures Same(EvalUnop(t, s, f), EvalUnop(t, s, g))
    decreases f, 2
  {
    hide EvalKid, Applying;
    MoreKid(t, 0, s, f, g);
  }

  lemma {:induction false} MoreLogic(t: Tree, s: State, f: nat, g: nat)
    requires f <= g
    ensures Same(EvalLogic(t, s, f), EvalLogic(t, s, g))
    decreases f, 2
  {
    hide EvalKid;
    MoreKid(t, 0, s, f, g);
    var r := EvalKid(t, 0, s, f);
    if r.Done? { MoreKid(t, 1, r.s, f, g); }
  }

  lemma {:induction false} MoreBinop(t: Tree, s: State, f: nat, g: nat)
    requires f <= g
    ensures Same(EvalBinop(t, s, f), EvalBinop(t, s, g))
    decreases f, 2
  {
    hide EvalKid, Applying;
    MoreKid(t, 0, s, f, g);
    var r := EvalKid(t, 0, s, f);
    if r.Done? { MoreKid(t, 1, r.s, f, g); }
  }

  lemma {:induction false} MorePrint(ts: seq<Tree>, i: nat, s: State, f: nat, g: nat)
    requires f <= g && i <= |ts|
    ensures Same(EvalPrint(ts, i, s, f), EvalPrint(ts, i, s, g))
    decreases f, 1 + |ts| - i
  {
    hide Eval, Show;
    if i < |ts| {
      MoreFuel(ts[i], s, f, g);
      var r := Eval(ts[i], s, f);
      if r.Done? {
        var e := Emit(r.s.env, Show(r.v));
        MorePrint(ts, i + 1, r.s.(env := if i < |ts| - 1 then Emit(e, " ") else e), f, g);
      }
    }
  }

  lemma {:induction false} MoreInput(t: Tree, s: State, f: nat, g: nat)
    requires f <= g
    ensures Same(EvalInput(t, s, f), EvalInput(t, s, g))
    decreases f, 2
  {
    hide EvalKid, Show, ReadLine;
    MoreKid(t, 0, s, f, g);
  }

  lemma {:induction false} MoreCast(t: Tree, s: State, f: nat, g: nat)
    requires f <= g
    ensures Same(EvalCast(t, s, f), EvalCast(t, s, g))
    decreases f, 2
  {
    hide EvalKid, Applying;
    MoreKid(t, 0, s, f, g);
  }

  lemma {:induction false} MoreBlock(ts: seq<Tree>, s: State, last: Value, f: nat, g: nat)
    requires f <= g
    ensures Same(EvalBlock(ts, s, last, f), EvalBlock(ts, s, last, g))
    decreases f, 1 + |ts|
  {
    hide Eval;
    if ts != [] {
      MoreFuel(ts[0], s, f, g);
      var r := Eval(ts[0], s, f);
      if r.Done? { MoreBlock(ts[1..], r.s, r.v, f, g); }
    }
  }

  lemma {:induction false} MoreIf(t: Tree, s: State, f: nat, g: nat)
    requires f <= g
    ensures Same(EvalIf(t, s, f), EvalIf(t, s, g))
    decreases f, 2
  {
    hide EvalKid;
    MoreKid(t, 0, s, f, g);
    var r := EvalKid(t, 0, s, f);
    if r.Done? {
      MoreKid(t, 1, r.s, f, g);
      MoreKid(t, 2, r.s, f, g);
    }
  }

  lemma {:induction false} MoreWhile(t: Tree, s: State, result: Value, f: nat, g: nat)
    requires f <= g
    ensures Same(EvalWhile(t, s, result, f), EvalWhile(t, s, result, g))
    decreases f, 2
  {
    hide EvalKid;
    MoreKid(t, 0, s, f, g);
    var r := EvalKid(t, 0, s, f);
    if r.Done? {
      MoreKid(t, 1, r.s, f, g);
      var b := EvalKid(t, 1, r.s, f);
      if b.Done? && f > 0 { MoreWhile(t, b.s.(continuing := false), b.v, f - 1, g - 1); }
    }
  }

  lemma {:induction false} MoreFor(t: Tree, s: State, f: nat, g: nat)
    requires f <= g
    ensures Same(EvalFor(t, s, f), EvalFor(t, s, g))
    decreases f, 4
  {
    hide EvalKid, EvalTurns;
    MoreKid(t, 0, s, f, g);
    var r := EvalKid(t, 0, s, f);
    if t.children != [] && t.children[0].kind == NRange {
      MoreKid(t.children[0], 0, s, f, g);
      r := EvalKid(t.children[0], 0, s, f);
    }
    if r.Done? && r.v.IntV? { MoreTurns(t, 0, r.v.i, r.s, NoneV, f, g); }
  }

  lemma {:induction false} MoreTurns(t: Tree, i: int, limit: int, s: State, result: Value, f: nat, g: nat)
    requires f <= g
    ensures Same(EvalTurns(t, i, limit, s, result, f), EvalTurns(t, i, limit, s, result, g))
    decreases f, 3
  {
    hide EvalKid, Bind;
    var e := Bind(s.env, t.text, IntV(i));
    if i < limit && e.Some? {
      MoreKid(t, 1, s.(env := e.value), f, g);
      var b := EvalKid(t, 1, s.(env := e.value), f);
      if b.Done? && f > 0 { MoreTurns(t, i + 1, limit, b.s.(continuing := false), b.v, f - 1, g - 1); }
    }
  }

  lemma {:induction false} MoreArgs(ts: seq<Tree>, s: State, done: seq<Value>, f: nat, g: nat)
    requires f <= g
    ensures EvalArgs(ts, s, done, f).ArgsDone? ==> EvalArgs(ts, s, done, g) == EvalArgs(ts, s, done, f)
    decreases f, 1 + |ts|
  {
    hide Eval;
    if ts != [] {
      MoreFuel(ts[0], s, f, g);
      var r := Eval(ts[0], s, f);
      if r.Done? { MoreArgs(ts[1..], r.s, done + [r.v], f, g); }
    }
  }

  lemma {:induction false} MoreCall(t: Tree, s: State, f: nat, g: nat)
    requires f <= g
    ensures Same(EvalCall(t, s, f), EvalCall(t, s, g))
    decreases f, 2 + |t.children|
  {
    hide EvalArgs, EvalBody, FindFunc;
    MoreArgs(t.children, s, [], f, g);
    var fn := FindFunc(s.env.funcs, t.text);
    var r := EvalArgs(t.children, s, [], f);
    if fn.Some? && |t.children| == |fn.value.params| && r.ArgsDone? && r.s.error.None? {
      MoreBody(fn.value, r.vals, r.s, f, g);
    }
  }

  lemma {:induction false} MoreBody(fn: Func, vals: seq<Value>, s: State, f: nat, g: nat)
    requires f <= g && |vals| == |fn.params|
    ensures Same(EvalBody(fn, vals, s, f), EvalBody(fn, vals, s, g))
    decreases f, 1
  {
    hide Eval, BindAll, PopScope;
    var r := BindAll(s.env.(depth := s.env.depth + 1), fn.params, vals);
    MoreFuel(fn.body, s.(env := r.0), f, g);
  }

  lemma {:induction false} MoreReturn(t: Tree, s: State, f: nat, g: nat)
    requires f <= g
    ensures Same(EvalReturn(t, s, f), EvalReturn(t, s, g))
    decreases f, 2
  {
    hide EvalKid;
    MoreKid(t, 0, s, f, g);
  }
}
