/** Values of GK, the variable table and the function table. */
module GkValues {
  import opened Wrappers
  import opened GkSyntax

  datatype Value = IntV(i: int) | StrV(s: string) | BoolV(b: bool) | NoneV

  datatype Var = Var(name: string, val: Value, scope: nat)

  datatype Func = Func(name: string, params: seq<string>, body: Tree)

  datatype RunError =
    | UndefinedVariable(name: string) | UndefinedFunction(name: string)
    | UnaryMinusType | OperatorType | DivisionByZero | ModuloByZero | UnknownOperator
    | IntArity | IntType | IntLiteral | RangeArity | RangeType | ForType
    | TooManyVariables | TooManyFunctions | WrongArity | MaxDepth | UnknownNode

  const MAX_VARS := 128
  const MAX_FUNCS := 64
  const MAX_PARAMS := 8
  const MAX_DEPTH := 32
  const MAX_TEXT := 255

  function Truthy(v: Value): bool {
    match v
    case BoolV(b) => b
    case IntV(i) => i != 0
    case StrV(s) => s != ""
    case NoneV => false
  }

  // ----- text -----

  function Digit(d: nat): char
    requires d < 10
  {
    '0' + d as char
  }

  function Digits(n: nat): (s: string)
    ensures |s| >= 1
  {
    if n < 10 then [Digit(n)] else Digits(n / 10) + [Digit(n % 10)]
  }

  function ShowInt(i: int): string {
    if i < 0 then "-" + Digits(-i) else Digits(i)
  }

  function Show(v: Value): string {
    match v
    case IntV(i) => ShowInt(i)
    case BoolV(b) => if b then "True" else "False"
    case StrV(s) => s
    case NoneV => "None"
  }

  /** What fits a string buffer. */
  function Clip(s: string): string {
    if |s| <= MAX_TEXT then s else s[..MAX_TEXT]
  }

  predicate IsDigit(c: char) {
    '0' <= c <= '9'
  }

  /** The decimal value of digits read from the left, after what was read before. */
  function ReadDigits(s: string, acc: nat): Option<nat>
    decreases |s|
  {
    if s == "" then Some(acc)
    else if !IsDigit(s[0]) then None
    else ReadDigits(s[1..], acc * 10 + (s[0] - '0') as nat)
  }

  /** The int() cast of a string. */
  function ReadInt(s: string): Option<int> {
    var neg := s != "" && s[0] == '-';
    var rest := if neg then s[1..] else s;
    if rest == "" then None else
      match ReadDigits(rest, 0)
      case None => None
      case Some(n) => var m: int := n; Some(if neg then -m else m)
  }

  lemma {:induction false} ReadAppend(s: string, d: nat, acc: nat)
    requires d < 10
    ensures var r := ReadDigits(s, acc);
            ReadDigits(s + [Digit(d)], acc) == if r.None? then None else Some(r.value * 10 + d)
    decreases |s|
  {
    if s == "" {
      assert s + [Digit(d)] == [Digit(d)];
      assert [Digit(d)][1..] == "";
    } else {
      assert (s + [Digit(d)])[1..] == s[1..] + [Digit(d)];
      if IsDigit(s[0]) {
        ReadAppend(s[1..], d, acc * 10 + (s[0] - '0') as nat);
      }
    }
  }

  lemma {:induction false} ReadDigitsIs(n: nat)
    ensures ReadDigits(Digits(n), 0) == Some(n) && IsDigit(Digits(n)[0])
  {
    if n < 10 {
      assert Digits(n)[1..] == "";
    } else {
      ReadDigitsIs(n / 10);
      ReadAppend(Digits(n / 10), n % 10, 0);
    }
  }

  /** int() reads back every integer as it is printed. */
  lemma ReadUndoesShow(i: int)
    ensures ReadInt(ShowInt(i)) == Some(i)
  {
    if i < 0 {
      ReadDigitsIs(-i);
      assert ("-" + Digits(-i))[1..] == Digits(-i);
    } else {
      ReadDigitsIs(i);
    }
  }

  // ----- operators -----

  /** C's division: truncated toward zero. */
  function Quotient(a: int, b: int): (q: int)
    requires b != 0
  {
    var m := Abs(a) / Abs(b);
    if (a < 0) == (b < 0) then m else -m
  }

  function Abs(a: int): nat {
    if a < 0 then -a else a
  }

  function Remainder(a: int, b: int): int
    requires b != 0
  {
    var m := Abs(a) % Abs(b);
    if a < 0 then -m else m
  }

  datatype Applied = Wrong(error: RunError) | Gives(value: Value)

  /** Equal values of the same type; None equals nothing. */
  predicate Same(l: Value, r: Value) {
    l == r && !l.NoneV?
  }

  /** A binary operator other than `and` and `or`. */
  function Apply(op: Kind, l: Value, r: Value): Applied {
    if op == TPlus && l.StrV? then Gives(StrV(Clip(l.s + Show(r))))
    else if op == TEq then Gives(BoolV(Same(l, r)))
    else if op == TNeq then Gives(BoolV(!Same(l, r)))
    else if !l.IntV? || !r.IntV? then Wrong(OperatorType)
    else
      match op
      case TPlus => Gives(IntV(l.i + r.i))
      case TMinus => Gives(IntV(l.i - r.i))
      case TStar => Gives(IntV(l.i * r.i))
      case TSlash => if r.i == 0 then Wrong(DivisionByZero) else Gives(IntV(Quotient(l.i, r.i)))
      case TPercent => if r.i == 0 then Wrong(ModuloByZero) else Gives(IntV(Remainder(l.i, r.i)))
      case TLt => Gives(BoolV(l.i < r.i))
      case TLe => Gives(BoolV(l.i <= r.i))
      case TGt => Gives(BoolV(l.i > r.i))
      case TGe => Gives(BoolV(l.i >= r.i))
      case _ => Wrong(UnknownOperator)
  }

  function ApplyUnary(op: Kind, v: Value): Applied {
    if op == TMinus then if v.IntV? then Gives(IntV(-v.i)) else Wrong(UnaryMinusType)
    else if op == TNot then Gives(BoolV(!Truthy(v)))
    else Gives(NoneV)
  }

  /** int(v). */
  function Cast(v: Value): Applied {
    match v
    case IntV(_) => Gives(v)
    case StrV(s) => if ReadInt(s).None? then Wrong(IntLiteral) else Gives(IntV(ReadInt(s).value))
    case _ => Wrong(IntType)
  }

  // ----- the variable table -----

  /** The index of the last variable of that name, searching down from `n`, or -1. */
  function FindVar(vars: seq<Var>, n: nat, name: string): (i: int)
    requires n <= |vars|
    ensures -1 <= i < n
    ensures i >= 0 ==> vars[i].name == name
    ensures forall j :: i < j < n ==> vars[j].name != name
  {
    if n == 0 then -1 else if vars[n - 1].name == name then n - 1 else FindVar(vars, n - 1, name)
  }

  /** The same search, stopped at the first variable of an outer scope. */
  function FindLocal(vars: seq<Var>, n: nat, name: string, depth: nat): (i: int)
    requires n <= |vars|
    ensures -1 <= i < n
    ensures i >= 0 ==> vars[i].name == name && vars[i].scope >= depth
  {
    if n == 0 || vars[n - 1].scope < depth then -1
    else if vars[n - 1].name == name then n - 1
    else FindLocal(vars, n - 1, name, depth)
  }

  function SetVar(vars: seq<Var>, name: string, val: Value, depth: nat): Option<seq<Var>> {
    var i := FindLocal(vars, |vars|, name, depth);
    if i >= 0 then Some(vars[i := vars[i].(val := val)])
    else if |vars| >= MAX_VARS then None
    else Some(vars + [Var(name, val, depth)])
  }

  function PopScope(vars: seq<Var>, depth: nat): (r: seq<Var>)
    ensures r <= vars
  {
    if vars == [] || vars[|vars| - 1].scope < depth then vars else PopScope(vars[..|vars| - 1], depth)
  }

  function FindFunc(funcs: seq<Func>, name: string): Option<Func> {
    if funcs == [] then None else if funcs[0].name == name then Some(funcs[0]) else FindFunc(funcs[1..], name)
  }

  // ----- what the table always looks like -----

  /** Scopes never decrease along the table, and no scope has a name twice. */
  predicate Layered(vars: seq<Var>) {
    && (forall i, j :: 0 <= i <= j < |vars| ==> vars[i].scope <= vars[j].scope)
    && (forall i, j :: 0 <= i < j < |vars| && vars[i].name == vars[j].name ==> vars[i].scope < vars[j].scope)
  }

  predicate Within(vars: seq<Var>, depth: nat) {
    forall v :: v in vars ==> v.scope <= depth
  }

  /** Of all the visible variables of a name, the one found is in the innermost scope, and it is the only one there. */
  lemma FindVarInnermost(vars: seq<Var>, name: string, j: nat)
    requires Layered(vars) && j < |vars| && vars[j].name == name
    ensures var i := FindVar(vars, |vars|, name);
            i >= 0 && (j == i || vars[j].scope < vars[i].scope)
  {
  }

  /** In a layered table the local search decides exactly whether the current scope has the name. */
  lemma {:induction false} FindLocalComplete(vars: seq<Var>, n: nat, name: string, depth: nat, j: nat)
    requires Layered(vars) && j < n <= |vars| && vars[j].name == name && vars[j].scope >= depth
    ensures var i := FindLocal(vars, n, name, depth); i >= 0 && (j == i || vars[j].scope < vars[i].scope)
  {
    if vars[n - 1].name != name {
      FindLocalComplete(vars, n - 1, name, depth, j);
    }
  }

  lemma SetVarLayered(vars: seq<Var>, name: string, val: Value, depth: nat)
    requires Layered(vars) && Within(vars, depth)
    ensures var r := SetVar(vars, name, val, depth);
            r.Some? ==> Layered(r.value) && Within(r.value, depth)
  {
    hide FindLocal, Layered, Within;
    var i := FindLocal(vars, |vars|, name, depth);
    if i < 0 {
      NotLocal(vars, name, depth);
      AppendLayered(vars, Var(name, val, depth));
    } else {
      UpdateLayered(vars, i, val, depth);
    }
  }

  lemma NotLocal(vars: seq<Var>, name: string, depth: nat)
    requires Layered(vars) && FindLocal(vars, |vars|, name, depth) < 0
    ensures forall j :: 0 <= j < |vars| && vars[j].name == name ==> vars[j].scope < depth
  {
    hide FindLocal, Layered;
    forall j | 0 <= j < |vars| && vars[j].name == name ensures vars[j].scope < depth {
      if vars[j].scope >= depth { FindLocalComplete(vars, |vars|, name, depth, j); }
    }
  }

  lemma AppendLayered(vars: seq<Var>, v: Var)
    requires Layered(vars) && Within(vars, v.scope)
    requires forall j :: 0 <= j < |vars| && vars[j].name == v.name ==> vars[j].scope < v.scope
    ensures Layered(vars + [v]) && Within(vars + [v], v.scope)
  {
    var w := vars + [v];
    assert forall j :: 0 <= j < |vars| ==> w[j] == vars[j] && vars[j] in vars;
  }

  lemma UpdateLayered(vars: seq<Var>, i: nat, val: Value, depth: nat)
    requires Layered(vars) && Within(vars, depth) && i < |vars|
    ensures var w := vars[i := vars[i].(val := val)]; Layered(w) && Within(w, depth)
  {
    var w := vars[i := vars[i].(val := val)];
    assert forall j :: 0 <= j < |vars| ==> w[j].scope == vars[j].scope && w[j].name == vars[j].name && vars[j] in vars;
  }

  /** After an assignment the name reads as the new value, and every other name as before. */
  lemma SetVarReads(vars: seq<Var>, name: string, val: Value, depth: nat, other: string)
    requires Layered(vars) && Within(vars, depth) && SetVar(vars, name, val, depth).Some?
    ensures var w := SetVar(vars, name, val, depth).value;
            && Reads(w, name) == Some(val)
            && (other != name ==> Reads(w, other) == Reads(vars, other))
  {
    var i := FindLocal(vars, |vars|, name, depth);
    var w := SetVar(vars, name, val, depth).value;
    SetVarLayered(vars, name, val, depth);
    if i >= 0 {
      assert vars[i] in vars;
      FindVarInnermost(w, name, i);
      var k := FindVar(w, |w|, name);
      assert w[k].scope == vars[k].scope && vars[k] in vars;
    }
    if other != name {
      ReadsSame(vars, w, other);
    }
  }

  function Reads(vars: seq<Var>, name: string): Option<Value> {
    var i := FindVar(vars, |vars|, name);
    if i < 0 then None else Some(vars[i].val)
  }

  lemma ReadsSame(vars: seq<Var>, w: seq<Var>, name: string)
    requires |vars| <= |w|
    requires forall j :: 0 <= j < |vars| ==> w[j] == vars[j] || (w[j].name == vars[j].name && vars[j].name != name)
    requires forall j :: |vars| <= j < |w| ==> w[j].name != name
    ensures Reads(w, name) == Reads(vars, name)
  {
    var i, k := FindVar(vars, |vars|, name), FindVar(w, |w|, name);
    if i >= 0 { assert w[i].name == name; }
    if k >= 0 { assert vars[k].name == name; }
    assert i == k;
  }

  // ----- popping a scope -----

  lemma PopScopeAll(vars: seq<Var>, depth: nat)
    requires Within(vars, depth)
    ensures PopScope(vars, depth + 1) == vars
  {
    if vars != [] { assert vars[|vars| - 1] in vars; }
  }

  lemma {:induction false} PopScopeIs(vars: seq<Var>, depth: nat)
    requires Layered(vars)
    ensures var r := PopScope(vars, depth);
            && Layered(r)
            && (forall v :: v in r ==> v.scope < depth)
            && (forall i :: |r| <= i < |vars| ==> vars[i].scope >= depth)
  {
    if vars != [] {
      var last := vars[|vars| - 1];
      if last.scope >= depth {
        PopScopeIs(vars[..|vars| - 1], depth);
      } else {
        forall v | v in vars ensures v.scope < depth {
          var i :| 0 <= i < |vars| && vars[i] == v;
        }
      }
    }
  }

  /** An assignment at a depth leaves everything below that depth alone. */
  lemma SetVarKeepsOuter(vars: seq<Var>, name: string, val: Value, depth: nat)
    requires Layered(vars) && Within(vars, depth)
    ensures var r := SetVar(vars, name, val, depth);
            r.Some? ==> PopScope(r.value, depth) == PopScope(vars, depth)
  {
    var i := FindLocal(vars, |vars|, name, depth);
    var r := SetVar(vars, name, val, depth);
    if r.Some? && i >= 0 {
      PopUpdate(vars, i, val, depth);
    } else if r.Some? {
      assert r.value[..|r.value| - 1] == vars;
    }
  }

  lemma {:induction false} PopUpdate(vars: seq<Var>, i: nat, val: Value, depth: nat)
    requires Layered(vars) && i < |vars| && vars[i].scope >= depth
    ensures PopScope(vars[i := vars[i].(val := val)], depth) == PopScope(vars, depth)
  {
    var n := |vars| - 1;
    var w := vars[i := vars[i].(val := val)];
    assert w[n].scope >= depth;
    if i == n {
      assert w[..n] == vars[..n];
    } else {
      assert w[..n] == vars[..n][i := vars[i].(val := val)];
      PopUpdate(vars[..n], i, val, depth);
    }
  }
}
