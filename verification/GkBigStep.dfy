/** The meaning of GK programs as a big-step semantics with explicit outcomes, without flags. */
module GkBigStep {
  import opened GkSyntax
  import opened Wrappers
  import opened GkValues
  import opened GkInterp

  datatype Outcome =
    | OutOfFuel
    | Error(error: RunError, out: string)
    | Normal(v: Value, e: Env)
    | Break(e: Env)
    | Continue(e: Env)
    | Return(v: Value, e: Env)

  function Exec(t: Tree, e: Env, fuel: nat): Outcome
    decreases fuel, 0
  {
    if fuel == 0 then OutOfFuel else
      match t.kind
      case NInt => Normal(IntV(t.intVal), e)
      case NStr => Normal(StrV(t.text), e)
      case NBool => Normal(BoolV(t.intVal != 0), e)
      case NVar => ExecVar(t.text, e)
      case NAssign => ExecAssign(t, e, fuel - 1)
      case NUnop => ExecUnop(t, e, fuel - 1)
      case NBinop => if t.op == TAnd || t.op == TOr then ExecLogic(t, e, fuel - 1) else ExecBinop(t, e, fuel - 1)
      case NPrint => ExecPrint(t.children, 0, e, fuel - 1)
      case NInput => ExecInput(t, e, fuel - 1)
      case NIntCast => ExecCast(t, e, fuel - 1)
      case NBlock => ExecBlock(t.children, e, NoneV, fuel - 1)
      case NIf => ExecIf(t, e, fuel - 1)
      case NWhile => ExecWhile(t, e, NoneV, fuel - 1)
      case NFor => ExecFor(t, e, fuel - 1)
      case NDef => ExecDef(t, e)
      case NCall => ExecCall(t, e, fuel - 1)
      case NReturn => ExecReturn(t, e, fuel - 1)
      case NBreak => Break(e)
      case NContinue => Continue(e)
      case NRange => Error(UnknownNode, e.out)
  }

  function Kid(t: Tree, i: nat, e: Env, fuel: nat): Outcome
    decreases fuel, 1
  {
    if i < |t.children| then Exec(t.children[i], e, fuel) else Normal(NoneV, e)
  }

  function ExecVar(name: string, e: Env): Outcome {
    match Reads(e.vars, name)
    case None => Error(UndefinedVariable(name), e.out)
    case Some(v) => Normal(v, e)
  }

  function ExecAssign(t: Tree, e: Env, fuel: nat): Outcome
    decreases fuel, 2
  {
    match Kid(t, 0, e, fuel)
    case Normal(v, e1) =>
      (match Bind(e1, t.text, v)
       case None => Error(TooManyVariables, e1.out)
       case Some(e2) => Normal(v, e2))
    case o => o
  }

  function Valued(a: Applied, e: Env): Outcome {
    match a
    case Wrong(x) => Error(x, e.out)
    case Gives(v) => Normal(v, e)
  }

  function ExecUnop(t: Tree, e: Env, fuel: nat): Outcome
    decreases fuel, 2
  {
    match Kid(t, 0, e, fuel)
    case Normal(v, e1) => Valued(ApplyUnary(t.op, v), e1)
    case o => o
  }

  /** `and` and `or` evaluate their right side only when the left side does not decide. */
  function ExecLogic(t: Tree, e: Env, fuel: nat): Outcome
    decreases fuel, 2
  {
    match Kid(t, 0, e, fuel)
    case Normal(l, e1) =>
      if Truthy(l) == (t.op == TOr) then Normal(BoolV(t.op == TOr), e1) else
        (match Kid(t, 1, e1, fuel)
         case Normal(r, e2) => Normal(BoolV(Truthy(r)), e2)
         case o => o)
    case o => o
  }

  function ExecBinop(t: Tree, e: Env, fuel: nat): Outcome
    decreases fuel, 2
  {
    match Kid(t, 0, e, fuel)
    case Normal(l, e1) =>
      (match Kid(t, 1, e1, fuel)
       case Normal(r, e2) => Valued(Apply(t.op, l, r), e2)
       case o => o)
    case o => o
  }

  function ExecPrint(ts: seq<Tree>, i: nat, e: Env, fuel: nat): Outcome
    requires i <= |ts|
    decreases fuel, 1 + |ts| - i
  {
    if i == |ts| then Normal(NoneV, Emit(e, "\n")) else
      match Exec(ts[i], e, fuel)
      case Normal(v, e1) =>
        var e2 := Emit(e1, Show(v));
        ExecPrint(ts, i + 1, if i < |ts| - 1 then Emit(e2, " ") else e2, fuel)
      case o => o
  }

  function ExecInput(t: Tree, e: Env, fuel: nat): Outcome
    decreases fuel, 2
  {
    if t.children == [] then Normal(StrV(ReadLine(e).0), ReadLine(e).1) else
      match Kid(t, 0, e, fuel)
      case Normal(v, e1) => var r := ReadLine(Emit(e1, Show(v))); Normal(StrV(r.0), r.1)
      case o => o
  }

  function ExecCast(t: Tree, e: Env, fuel: nat): Outcome
    decreases fuel, 2
  {
    if |t.children| != 1 then Error(IntArity, e.out) else
      match Kid(t, 0, e, fuel)
      case Normal(v, e1) => Valued(Cast(v), e1)
      case o => o
  }

  /** A block yields the value of its last statement. */
  function ExecBlock(ts: seq<Tree>, e: Env, last: Value, fuel: nat): Outcome
    decreases fuel, 1 + |ts|
  {
    if ts == [] then Normal(last, e) else
      match Exec(ts[0], e, fuel)
      case Normal(v, e1) => ExecBlock(ts[1..], e1, v, fuel)
      case o => o
  }

  function ExecIf(t: Tree, e: Env, fuel: nat): Outcome
    decreases fuel, 2
  {
    match Kid(t, 0, e, fuel)
    case Normal(c, e1) =>
      if Truthy(c) then Kid(t, 1, e1, fuel)
      else if |t.children| == 3 then Kid(t, 2, e1, fuel)
      else Normal(NoneV, e1)
    case o => o
  }

  /** A loop absorbs the breaks and continues of its body. */
  function ExecWhile(t: Tree, e: Env, result: Value, fuel: nat): Outcome
    decreases fuel, 2
  {
    match Kid(t, 0, e, fuel)
    case Normal(c, e1) =>
      if !Truthy(c) then Normal(result, e1) else
        (match Kid(t, 1, e1, fuel)
         case Break(e2) => Normal(NoneV, e2)
         case Continue(e2) => if fuel == 0 then OutOfFuel else ExecWhile(t, e2, NoneV, fuel - 1)
         case Normal(v, e2) => if fuel == 0 then OutOfFuel else ExecWhile(t, e2, v, fuel - 1)
         case o => o)
    case o => o
  }

  function ExecFor(t: Tree, e: Env, fuel: nat): Outcome
    decreases fuel, 4
  {
    var ranged := t.children != [] && t.children[0].kind == NRange;
    if ranged && t.children[0].children == [] then Error(RangeArity, e.out) else
      match (if ranged then Kid(t.children[0], 0, e, fuel) else Kid(t, 0, e, fuel))
      case Normal(v, e1) =>
        if v.IntV? then ExecTurns(t, 0, v.i, e1, NoneV, fuel)
        else Error(if ranged then RangeType else ForType, e1.out)
      case o => o
  }

  function ExecTurns(t: Tree, i: int, limit: int, e: Env, result: Value, fuel: nat): Outcome
    decreases fuel, 3
  {
    if i >= limit then Normal(result, e) else
      match Bind(e, t.text, IntV(i))
      case None => Error(TooManyVariables, e.out)
      case Some(e0) =>
        (match Kid(t, 1, e0, fuel)
         case Break(e1) => Normal(NoneV, e1)
         case Continue(e1) => if fuel == 0 then OutOfFuel else ExecTurns(t, i + 1, limit, e1, NoneV, fuel - 1)
         case Normal(v, e1) => if fuel == 0 then OutOfFuel else ExecTurns(t, i + 1, limit, e1, v, fuel - 1)
         case o => o)
  }

  function ExecDef(t: Tree, e: Env): Outcome {
    if |e.funcs| >= MAX_FUNCS then Error(TooManyFunctions, e.out)
    else if t.children == [] then Normal(NoneV, e)
    else Normal(NoneV, e.(funcs := e.funcs + [FuncOf(t)]))
  }

  datatype ArgValues = Stop(o: Outcome) | Values(vals: seq<Value>, e: Env)

  function ExecArgs(ts: seq<Tree>, e: Env, done: seq<Value>, fuel: nat): (r: ArgValues)
    ensures r.Values? ==> |r.vals| == |done| + |ts|
    decreases fuel, 1 + |ts|
  {
    if ts == [] then Values(done, e) else
      match Exec(ts[0], e, fuel)
      case Normal(v, e1) => ExecArgs(ts[1..], e1, done + [v], fuel)
      case o => Stop(o)
  }

  function ExecCall(t: Tree, e: Env, fuel: nat): Outcome
    decreases fuel, 2 + |t.children|
  {
    match FindFunc(e.funcs, t.text)
    case None => Error(UndefinedFunction(t.text), e.out)
    case Some(f) =>
      if |t.children| != |f.params| then Error(WrongArity, e.out)
      else if e.depth >= MAX_DEPTH then Error(MaxDepth, e.out)
      else
        match ExecArgs(t.children, e, [], fuel)
        case Stop(o) => o
        case Values(vals, e1) => ExecBody(f, vals, e1, fuel)
  }

  /** The value of a call is what it returns, or else the value of its body. */
  function ExecBody(f: Func, vals: seq<Value>, e: Env, fuel: nat): Outcome
    requires |vals| == |f.params|
    decreases fuel, 1
  {
    var r := BindAll(e.(depth := e.depth + 1), f.params, vals);
    if !r.1 then Error(TooManyVariables, e.out) else
      match Exec(f.body, r.0, fuel)
      case Normal(v, e1) => Normal(v, Leave(e1))
      case Return(v, e1) => Normal(v, Leave(e1))
      case o => o
  }

  /** Drop the scope of the function that is left. */
  function Leave(e: Env): Env {
    e.(vars := PopScope(e.vars, e.depth), depth := if e.depth == 0 then 0 else e.depth - 1)
  }

  function ExecReturn(t: Tree, e: Env, fuel: nat): Outcome
    decreases fuel, 2
  {
    if t.children == [] then Return(NoneV, e) else
      match Kid(t, 0, e, fuel)
      case Normal(v, e1) => Return(v, e1)
      case o => o
  }
}
