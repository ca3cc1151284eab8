/** The interpreter as it is written: one recursive evaluator that signals return, break, continue and error by flags.
    The fuel bounds the nesting of evaluations and the turns of loops, so that the evaluator is a function; running out
    of it is an outcome of its own. */
module GkInterp {
  import opened GkSyntax
  import opened Wrappers
  import opened GkValues

  /** What the program can see or change. */
  datatype Env = Env(vars: seq<Var>, funcs: seq<Func>, depth: nat, out: string, inp: seq<string>)

  datatype State = State(env: Env, returning: bool, breaking: bool, continuing: bool, retVal: Value, error: Option<RunError>)

  datatype Out = Timeout | Done(s: State, v: Value)

  function Fails(s: State, e: RunError): Out {
    Done(s.(error := Some(e)), NoneV)
  }

  function Emit(e: Env, text: string): Env {
    e.(out := e.out + text)
  }

  /** Put a variable into the current scope, or None when the table is full. */
  function Bind(e: Env, name: string, v: Value): Option<Env> {
    var r := SetVar(e.vars, name, v, e.depth);
    if r.None? then None else Some(e.(vars := r.value))
  }

  /** Bind the parameters in turn; the flag says whether all fitted. */
  function BindAll(e: Env, names: seq<string>, vals: seq<Value>): (Env, bool)
    requires |names| == |vals|
    decreases |names|
  {
    if names == [] then (e, true) else
      var r := Bind(e, names[0], vals[0]);
      if r.None? then (e, false) else BindAll(r.value, names[1..], vals[1..])
  }

  /** One line of input; an empty one when there is none. */
  function ReadLine(e: Env): (string, Env) {
    if e.inp == [] then ("", Emit(e, "\n")) else (Clip(e.inp[0]), Emit(e.(inp := e.inp[1..]), "\n"))
  }

  /** The function that a definition adds. */
  function FuncOf(t: Tree): Func
    requires t.children != []
  {
    var n := |t.children| - 1;
    Func(t.text, seq(if n < MAX_PARAMS then n else MAX_PARAMS, i requires 0 <= i < n => t.children[i].text), t.children[n])
  }

  function Eval(t: Tree, s: State, fuel: nat): Out
    decreases fuel, 0
  {
    if fuel == 0 then Timeout
    else if s.error.Some? then Done(s, NoneV)
    else
      match t.kind
      case NInt => Done(s, IntV(t.intVal))
      case NStr => Done(s, StrV(t.text))
      case NBool => Done(s, BoolV(t.intVal != 0))
      case NVar => EvalVar(t.text, s)
      case NAssign => EvalAssign(t, s, fuel - 1)
      case NUnop => EvalUnop(t, s, fuel - 1)
      case NBinop => if t.op == TAnd || t.op == TOr then EvalLogic(t, s, fuel - 1) else EvalBinop(t, s, fuel - 1)
      case NPrint => EvalPrint(t.children, 0, s, fuel - 1)
      case NInput => EvalInput(t, s, fuel - 1)
      case NIntCast => EvalCast(t, s, fuel - 1)
      case NBlock => EvalBlock(t.children, s, NoneV, fuel - 1)
      case NIf => EvalIf(t, s, fuel - 1)
      case NWhile => EvalWhile(t, s, NoneV, fuel - 1)
      case NFor => EvalFor(t, s, fuel - 1)
      case NDef => EvalDef(t, s)
      case NCall => EvalCall(t, s, fuel - 1)
      case NReturn => EvalReturn(t, s, fuel - 1)
      case NBreak => Done(s.(breaking := true), NoneV)
      case NContinue => Done(s.(continuing := true), NoneV)
      case NRange => Fails(s, UnknownNode)
  }

  /** The i-th child; an absent one (index -1) evaluates to None. */
  function EvalKid(t: Tree, i: nat, s: State, fuel: nat): Out
    decreases fuel, 1
  {
    if i < |t.children| then Eval(t.children[i], s, fuel) else Done(s, NoneV)
  }

  function EvalVar(name: string, s: State): Out {
    var i := FindVar(s.env.vars, |s.env.vars|, name);
    if i < 0 then Fails(s, UndefinedVariable(name)) else Done(s, s.env.vars[i].val)
  }

  function EvalAssign(t: Tree, s: State, fuel: nat): Out
    decreases fuel, 2
  {
    match EvalKid(t, 0, s, fuel)
    case Timeout => Timeout
    case Done(s1, v) =>
      if s1.error.Some? then Done(s1, NoneV) else
        match Bind(s1.env, t.text, v)
        case None => Fails(s1, TooManyVariables)
        case Some(e) => Done(s1.(env := e), v)
  }

  function Applying(s: State, a: Applied): Out {
    match a
    case Wrong(e) => Fails(s, e)
    case Gives(v) => Done(s, v)
  }

  function EvalUnop(t: Tree, s: State, fuel: nat): Out
    decreases fuel, 2
  {
    match EvalKid(t, 0, s, fuel)
    case Timeout => Timeout
    case Done(s1, v) => if s1.error.Some? then Done(s1, NoneV) else Applying(s1, ApplyUnary(t.op, v))
  }

  /** `and` and `or`: the error flag is not looked at between the operands. */
  function EvalLogic(t: Tree, s: State, fuel: nat): Out
    decreases fuel, 2
  {
    match EvalKid(t, 0, s, fuel)
    case Timeout => Timeout
    case Done(s1, l) =>
      if t.op == TAnd && !Truthy(l) then Done(s1, BoolV(false))
      else if t.op == TOr && Truthy(l) then Done(s1, BoolV(true))
      else
        match EvalKid(t, 1, s1, fuel)
        case Timeout => Timeout
        case Done(s2, r) => Done(s2, BoolV(Truthy(r)))
  }

  function EvalBinop(t: Tree, s: State, fuel: nat): Out
    decreases fuel, 2
  {
    match EvalKid(t, 0, s, fuel)
    case Timeout => Timeout
    case Done(s1, l) =>
      if s1.error.Some? then Done(s1, NoneV) else
        match EvalKid(t, 1, s1, fuel)
        case Timeout => Timeout
        case Done(s2, r) => if s2.error.Some? then Done(s2, NoneV) else Applying(s2, Apply(t.op, l, r))
  }

  function EvalPrint(ts: seq<Tree>, i: nat, s: State, fuel: nat): Out
    requires i <= |ts|
    decreases fuel, 1 + |ts| - i
  {
    if i == |ts| then Done(s.(env := Emit(s.env, "\n")), NoneV) else
      match Eval(ts[i], s, fuel)
      case Timeout => Timeout
      case Done(s1, v) =>
        if s1.error.Some? then Done(s1, NoneV) else
          var e := Emit(s1.env, Show(v));
          EvalPrint(ts, i + 1, s1.(env := if i < |ts| - 1 then Emit(e, " ") else e), fuel)
  }

  function EvalInput(t: Tree, s: State, fuel: nat): Out
    decreases fuel, 2
  {
    if t.children == [] then
      var (line, e) := ReadLine(s.env);
      Done(s.(env := e), StrV(line))
    else
      match EvalKid(t, 0, s, fuel)
      case Timeout => Timeout
      case Done(s1, v) =>
        if s1.error.Some? then Done(s1, NoneV) else
          var (line, e) := ReadLine(Emit(s1.env, Show(v)));
          Done(s1.(env := e), StrV(line))
  }

  function EvalCast(t: Tree, s: State, fuel: nat): Out
    decreases fuel, 2
  {
    if |t.children| != 1 then Fails(s, IntArity) else
      match EvalKid(t, 0, s, fuel)
      case Timeout => Timeout
      case Done(s1, v) => if s1.error.Some? then Done(s1, NoneV) else Applying(s1, Cast(v))
  }

  predicate Stopped(s: State) {
    s.error.Some? || s.returning || s.breaking || s.continuing
  }

  function EvalBlock(ts: seq<Tree>, s: State, last: Value, fuel: nat): Out
    decreases fuel, 1 + |ts|
  {
    if ts == [] then Done(s, last) else
      match Eval(ts[0], s, fuel)
      case Timeout => Timeout
      case Done(s1, v) => if Stopped(s1) then Done(s1, v) else EvalBlock(ts[1..], s1, v, fuel)
  }

  function EvalIf(t: Tree, s: State, fuel: nat): Out
    decreases fuel, 2
  {
    match EvalKid(t, 0, s, fuel)
    case Timeout => Timeout
    case Done(s1, c) =>
      if s1.error.Some? then Done(s1, NoneV)
      else if Truthy(c) then EvalKid(t, 1, s1, fuel)
      else if |t.children| == 3 then EvalKid(t, 2, s1, fuel)
      else Done(s1, NoneV)
  }

  function EvalWhile(t: Tree, s: State, result: Value, fuel: nat): Out
    decreases fuel, 2
  {
    match EvalKid(t, 0, s, fuel)
    case Timeout => Timeout
    case Done(s1, c) =>
      if s1.error.Some? || !Truthy(c) then Done(s1, result) else
        match EvalKid(t, 1, s1, fuel)
        case Timeout => Timeout
        case Done(s2, v) =>
          if s2.error.Some? || s2.returning then Done(s2, v)
          else if s2.breaking then Done(s2.(breaking := false), v)
          else if fuel == 0 then Timeout
          else EvalWhile(t, s2.(continuing := false), v, fuel - 1)
  }

  function EvalFor(t: Tree, s: State, fuel: nat): Out
    decreases fuel, 4
  {
    var ranged := t.children != [] && t.children[0].kind == NRange;
    if ranged && t.children[0].children == [] then Fails(s, RangeArity) else
      match (if ranged then EvalKid(t.children[0], 0, s, fuel) else EvalKid(t, 0, s, fuel))
      case Timeout => Timeout
      case Done(s1, v) =>
        if s1.error.Some? then Done(s1, NoneV)
        else if !v.IntV? then Fails(s1, if ranged then RangeType else ForType)
        else EvalTurns(t, 0, v.i, s1, NoneV, fuel)
  }

  function EvalTurns(t: Tree, i: int, limit: int, s: State, result: Value, fuel: nat): Out
    decreases fuel, 3
  {
    if i >= limit then Done(s, result) else
      match Bind(s.env, t.text, IntV(i))
      case None => Fails(s, TooManyVariables)
      case Some(e) =>
        match EvalKid(t, 1, s.(env := e), fuel)
        case Timeout => Timeout
        case Done(s1, v) =>
          if s1.error.Some? || s1.returning then Done(s1, v)
          else if s1.breaking then Done(s1.(breaking := false), v)
          else if fuel == 0 then Timeout
          else EvalTurns(t, i + 1, limit, s1.(continuing := false), v, fuel - 1)
  }

  function EvalDef(t: Tree, s: State): Out {
    if |s.env.funcs| >= MAX_FUNCS then Fails(s, TooManyFunctions)
    else if t.children == [] then Done(s, NoneV)
    else Done(s.(env := s.env.(funcs := s.env.funcs + [FuncOf(t)])), NoneV)
  }

  datatype ArgsOut = ArgsTimeout | ArgsDone(s: State, vals: seq<Value>)

  /** The arguments from the left; they stop at an error. */
  function EvalArgs(ts: seq<Tree>, s: State, done: seq<Value>, fuel: nat): (r: ArgsOut)
    ensures r.ArgsDone? && r.s.error.None? ==> |r.vals| == |done| + |ts|
    decreases fuel, 1 + |ts|
  {
    if ts == [] then ArgsDone(s, done) else
      match Eval(ts[0], s, fuel)
      case Timeout => ArgsTimeout
      case Done(s1, v) =>
        if s1.error.Some? then ArgsDone(s1, done) else EvalArgs(ts[1..], s1, done + [v], fuel)
  }

  function EvalCall(t: Tree, s: State, fuel: nat): Out
    decreases fuel, 2 + |t.children|
  {
    match FindFunc(s.env.funcs, t.text)
    case None => Fails(s, UndefinedFunction(t.text))
    case Some(f) =>
      if |t.children| != |f.params| then Fails(s, WrongArity)
      else if s.env.depth >= MAX_DEPTH then Fails(s, MaxDepth)
      else
        match EvalArgs(t.children, s, [], fuel)
        case ArgsTimeout => Timeout
        case ArgsDone(s1, vals) => if s1.error.Some? then Done(s1, NoneV) else EvalBody(f, vals, s1, fuel)
  }

  /** Enter the function, run its body and leave it again. */
  function EvalBody(f: Func, vals: seq<Value>, s: State, fuel: nat): Out
    requires |vals| == |f.params|
    decreases fuel, 1
  {
    var d := s.env.depth;
    var (e, ok) := BindAll(s.env.(depth := d + 1), f.params, vals);
    if !ok then Fails(s.(env := e.(depth := d)), TooManyVariables) else
      match Eval(f.body, s.(env := e), fuel)
      case Timeout => Timeout
      case Done(s1, v) =>
        var v1 := if s1.returning then s1.retVal else v;
        var e1 := s1.env;
        var e2 := e1.(vars := PopScope(e1.vars, e1.depth), depth := if e1.depth == 0 then 0 else e1.depth - 1);
        Done(s1.(env := e2, returning := false), v1)
  }

  function EvalReturn(t: Tree, s: State, fuel: nat): Out
    decreases fuel, 2
  {
    if t.children == [] then Done(s.(returning := true, retVal := NoneV), NoneV) else
      match EvalKid(t, 0, s, fuel)
      case Timeout => Timeout
      case Done(s1, v) => if s1.error.Some? then Done(s1, NoneV) else Done(s1.(returning := true, retVal := v), v)
  }
}
