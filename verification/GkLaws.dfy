/** What the operators mean: the laws of arithmetic, order, logic and text that tie them to one another. */
module GkLaws {
  import opened GkSyntax
  import opened Wrappers
  import opened GkValues
  import opened GkInterp
  import opened GkBigStep
  import opened GkGuide

  // ----- integers -----

  /** The number that an operator makes of two numbers. */
  function Num(op: Kind, a: int, b: int): int
    requires op == TPlus || op == TMinus || op == TStar || ((op == TSlash || op == TPercent) && b != 0)
  {
    Apply(op, IntV(a), IntV(b)).value.i
  }

  predicate Holds(op: Kind, a: int, b: int) {
    Apply(op, IntV(a), IntV(b)) == Gives(BoolV(true))
  }

  predicate Fails(op: Kind, a: int, b: int) {
    Apply(op, IntV(a), IntV(b)) == Gives(BoolV(false))
  }

  lemma SumLaws(a: int, b: int, c: int)
    ensures Num(TPlus, a, 0) == a && Num(TPlus, a, b) == Num(TPlus, b, a)
    ensures Num(TPlus, Num(TPlus, a, b), c) == Num(TPlus, a, Num(TPlus, b, c))
    ensures Num(TPlus, Num(TMinus, a, b), b) == a && Num(TMinus, Num(TPlus, a, b), b) == a && Num(TMinus, a, a) == 0
    ensures ApplyUnary(TMinus, IntV(a)) == Apply(TMinus, IntV(0), IntV(a))
  {}

  lemma ProductLaws(a: int, b: int, c: int)
    ensures Num(TStar, a, 0) == 0 && Num(TStar, a, 1) == a && Num(TStar, a, b) == Num(TStar, b, a)
    ensures Num(TStar, a, Num(TPlus, b, c)) == Num(TPlus, Num(TStar, a, b), Num(TStar, a, c))
    ensures Num(TStar, Num(TStar, a, b), c) == Num(TStar, a, Num(TStar, b, c))
  {
    hide Apply;
    ProductIs(a, b);
    ProductIs(b, a);
    ProductIs(a, 0);
    ProductIs(a, 1);
    ProductIs(a, c);
    ProductIs(b, c);
    SumIs(b, c);
    SumIs(a * b, a * c);
    ProductIs(a, b + c);
    ProductIs(a * b, c);
    ProductIs(a, b * c);
    assert a * (b + c) == a * b + a * c;
    assert a * b * c == a * (b * c);
  }

  lemma ProductIs(a: int, b: int)
    ensures Num(TStar, a, b) == a * b
  {}

  lemma SumIs(a: int, b: int)
    ensures Num(TPlus, a, b) == a + b
  {}

  /** Quotient and remainder give the number back; the remainder is smaller than the divisor and has the sign of the
      number: division cuts toward zero. Dividing by 0 is an error. */
  lemma DivisionLaws(a: int, b: int)
    ensures Apply(TSlash, IntV(a), IntV(0)) == Wrong(DivisionByZero) && Apply(TPercent, IntV(a), IntV(0)) == Wrong(ModuloByZero)
    ensures b != 0 ==> Num(TPlus, Num(TStar, Num(TSlash, a, b), b), Num(TPercent, a, b)) == a
    ensures b != 0 ==> Abs(Num(TPercent, a, b)) < Abs(b) && Num(TPercent, a, b) * a >= 0
  {
    if b != 0 {
      DivisionIs(a, b);
      SumIs(Quotient(a, b) * b, Remainder(a, b));
      ProductIs(Quotient(a, b), b);
    }
  }

  lemma DivisionIs(a: int, b: int)
    requires b != 0
    ensures Quotient(a, b) * b + Remainder(a, b) == a
    ensures Abs(Remainder(a, b)) < Abs(b) && Remainder(a, b) * a >= 0
  {
    var n: int, d: int := Abs(a), Abs(b);
    var q: int, r: int := n / d, n % d;
    assert n == q * d + r;
    if (a < 0) == (b < 0) {
      SignedProduct(q, d, b);
    } else {
      SignedProduct(-q, d, b);
      assert (-q) * d == -(q * d);
    }
    SignedPart(a, r);
  }

  lemma SignedProduct(q: int, d: int, b: int)
    requires b == d || b == -d
    ensures q * b == if b == d then q * d else -(q * d)
  {}

  lemma SignedPart(a: int, r: int)
    requires r >= 0
    ensures (if a < 0 then -r else r) * a >= 0
  {}

  /** Exactly one of less, equal and greater holds; the other comparisons are their unions and complements. */
  lemma OrderLaws(a: int, b: int, c: int)
    ensures forall op :: op in {TLt, TLe, TGt, TGe, TEq, TNeq} ==> Holds(op, a, b) != Fails(op, a, b)
    ensures Holds(TLt, a, b) ==> Fails(TEq, a, b) && Fails(TGt, a, b)
    ensures Holds(TEq, a, b) ==> Fails(TLt, a, b) && Fails(TGt, a, b)
    ensures Holds(TLt, a, b) || Holds(TEq, a, b) || Holds(TGt, a, b)
    ensures Holds(TLe, a, b) <==> Holds(TLt, a, b) || Holds(TEq, a, b)
    ensures Holds(TGe, a, b) <==> Holds(TGt, a, b) || Holds(TEq, a, b)
    ensures Holds(TNeq, a, b) <==> Fails(TEq, a, b)
    ensures Holds(TEq, a, b) <==> a == b
    ensures Holds(TLt, a, b) <==> Holds(TGt, b, a)
    ensures Holds(TLt, a, Num(TPlus, a, 1))
    ensures Holds(TLt, a, b) <==> Holds(TLt, Num(TPlus, a, c), Num(TPlus, b, c))
    ensures Holds(TLt, a, b) && Holds(TLt, b, c) ==> Holds(TLt, a, c)
  {}

  // ----- other types -----

  /** Values are equal when they are the same value of the same type, and None equals nothing; joining takes a string on
      the left; every other operator asks for integers. */
  lemma TypeLaws(op: Kind, l: Value, r: Value)
    ensures Apply(TEq, l, r) == Gives(BoolV(l == r && l != NoneV)) && Apply(TNeq, l, r) == Gives(BoolV(l != r || l == NoneV))
    ensures op != TEq && op != TNeq && !(op == TPlus && l.StrV?) && !(l.IntV? && r.IntV?) ==> Apply(op, l, r) == Wrong(OperatorType)
  {}

  /** Joining puts the printed form of any value behind the text, as far as the buffer goes. */
  lemma JoinLaws(s: string, v: Value)
    ensures var r := Apply(TPlus, StrV(s), v);
      && r.Gives? && r.value.StrV? && |r.value.s| <= 255 && r.value.s <= s + Show(v)
      && (|s| + |Show(v)| <= 255 ==> r.value.s == s + Show(v))
      && (|s| + |Show(v)| > 255 ==> |r.value.s| == 255)
  {
    hide Show;
  }

  /** The decimal form of a number: digits only, a minus sign before the negative ones and no others, no leading zeros. */
  lemma NumeralIs(i: int)
    ensures var s := ShowInt(i);
      && (i < 0 <==> s[0] == '-')
      && var d := if i < 0 then s[1..] else s;
      d != "" && (forall k :: 0 <= k < |d| ==> IsDigit(d[k])) && (d[0] == '0' ==> |d| == 1 && i == 0)
  {
    hide Digits;
    DigitsAre(if i < 0 then -i else i);
    if i < 0 { assert ("-" + Digits(-i))[1..] == Digits(-i); }
  }

  lemma {:induction false} DigitsAre(n: nat)
    ensures var d := Digits(n); (forall k :: 0 <= k < |d| ==> IsDigit(d[k])) && (d[0] == '0' ==> |d| == 1 && n == 0)
  {
    if n >= 10 { DigitsAre(n / 10); }
  }

  /** A number joined to an empty text and read again is that number. */
  lemma TextOfNumber(n: int)
    requires |ShowInt(n)| <= 255
    ensures Cast(Apply(TPlus, StrV(""), IntV(n)).value) == Gives(IntV(n))
  {
    ReadUndoesShow(n);
    assert "" + ShowInt(n) == ShowInt(n);
  }

  // ----- logic -----

  /** What `and` and `or` leave when the left side is v, and the right side, if it is run, is w: the truth tables, and the
      right side is not run when the left one decides. */
  lemma LogicLaws(op: Kind, l: Tree, r: Tree, e: Env, v: Value, e1: Env, w: Value, e2: Env, fuel: nat)
    requires (op == TAnd || op == TOr) && fuel > 0 && Exec(l, e, fuel - 1) == Normal(v, e1)
    ensures op == TAnd && !Truthy(v) ==> Exec(Binop(op, l, r), e, fuel) == Normal(BoolV(false), e1)
    ensures op == TOr && Truthy(v) ==> Exec(Binop(op, l, r), e, fuel) == Normal(BoolV(true), e1)
    ensures Truthy(v) == (op == TAnd) && Exec(r, e1, fuel - 1) == Normal(w, e2) ==>
              Exec(Binop(op, l, r), e, fuel) == Normal(BoolV(Truthy(w)), e2)
  {
    hide Exec, Truthy;
    var t := Binop(op, l, r);
    BinopIs(t, e, fuel);
    KidIs(t, 0, e, fuel - 1);
    KidIs(t, 1, e1, fuel - 1);
  }

  lemma BinopIs(t: Tree, e: Env, fuel: nat)
    requires t.kind == NBinop && fuel > 0
    ensures Exec(t, e, fuel) == if t.op == TAnd || t.op == TOr then ExecLogic(t, e, fuel - 1) else ExecBinop(t, e, fuel - 1)
  {
    hide ExecLogic, ExecBinop;
  }

  lemma KidIs(t: Tree, i: nat, e: Env, fuel: nat)
    requires i < |t.children|
    ensures Kid(t, i, e, fuel) == Exec(t.children[i], e, fuel)
  {
    hide Exec;
  }

  /** The truth of every value, and that `not` turns it around. */
  lemma TruthLaws(v: Value, w: Value)
    ensures ApplyUnary(TNot, v) == Gives(BoolV(!Truthy(v)))
    ensures !Truthy(v) <==> v == BoolV(false) || v == IntV(0) || v == StrV("") || v == NoneV
  {}

  // ----- programs -----

  /** Operands are evaluated from the left and handed to the operator in that order. */
  lemma Operands(op: Kind, l: Tree, r: Tree, e: Env, v: Value, e1: Env, w: Value, e2: Env, fuel: nat)
    requires op != TAnd && op != TOr && fuel > 0 && Exec(l, e, fuel - 1) == Normal(v, e1) && Exec(r, e1, fuel - 1) == Normal(w, e2)
    ensures Exec(Binop(op, l, r), e, fuel) == Valued(Apply(op, v, w), e2)
  {
    hide Exec, Apply;
    var t := Binop(op, l, r);
    BinopIs(t, e, fuel);
    KidIs(t, 0, e, fuel - 1);
    KidIs(t, 1, e1, fuel - 1);
  }

  /** a - b is the difference: added to b it is a. */
  lemma Difference(a: int, b: int, e: Env, fuel: nat)
    requires fuel > 1
    ensures var r := Exec(Binop(TMinus, Number(a), Number(b)), e, fuel); r.Normal? && r.e == e && r.v.IntV? && r.v.i + b == a
  {
    hide Exec;
    NumberStep(a, e, fuel - 1);
    NumberStep(b, e, fuel - 1);
    Operands(TMinus, Number(a), Number(b), e, IntV(a), e, IntV(b), e, fuel);
  }

  const ASK: Tree := Branch(NInput, "input", [])

  lemma AskStep(e: Env, fuel: nat)
    requires fuel > 0 && e.inp != []
    ensures Exec(ASK, e, fuel) == Normal(StrV(Clip(e.inp[0])), e.(inp := e.inp[1..], out := e.out + "\n"))
  {
    hide ExecBlock;
  }

  /** input() + input() joins the first line and the second, in that order. */
  lemma LinesInOrder(e: Env, x: string, y: string, fuel: nat)
    requires fuel > 1 && e.inp == [x, y] && |x| + |y| <= 255
    ensures var r := Exec(Binop(TPlus, ASK, ASK), e, fuel); r.Normal? && r.v == StrV(x + y) && r.e.inp == []
  {
    hide Exec;
    AskStep(e, fuel - 1);
    var e1 := e.(inp := e.inp[1..], out := e.out + "\n");
    assert e1.inp == [y];
    AskStep(e1, fuel - 1);
    var e2 := e1.(inp := e1.inp[1..], out := e1.out + "\n");
    Operands(TPlus, ASK, ASK, e, StrV(x), e1, StrV(y), e2, fuel);
  }

  /** What print(v1, v2, ...) shows of the values from i on: spaces between them and a newline at the end. */
  function Shown(vs: seq<Value>): string {
    if vs == [] then "\n" else Show(vs[0]) + (if |vs| == 1 then "" else " ") + Shown(vs[1..])
  }

  function Numbers(ns: seq<int>): (ts: seq<Tree>)
    ensures |ts| == |ns| && forall i :: 0 <= i < |ns| ==> ts[i] == Number(ns[i])
  {
    seq(|ns|, i requires 0 <= i < |ns| => Number(ns[i]))
  }

  function Values(ns: seq<int>): (vs: seq<Value>)
    ensures |vs| == |ns| && forall i :: 0 <= i < |ns| ==> vs[i] == IntV(ns[i])
  {
    seq(|ns|, i requires 0 <= i < |ns| => IntV(ns[i]))
  }

  lemma {:induction false} PrintFrom(ns: seq<int>, i: nat, e: Env, fuel: nat)
    requires i <= |ns| && fuel > 0
    ensures ExecPrint(Numbers(ns), i, e, fuel) == Normal(NoneV, e.(out := e.out + Shown(Values(ns[i..]))))
    decreases |ns| - i
  {
    hide Exec, Show;
    if i == |ns| {
      assert ns[i..] == [] && Values([]) == [];
    } else {
      NumberStep(ns[i], e, fuel);
      var e2 := Emit(e, Show(IntV(ns[i])));
      var e3 := if i < |ns| - 1 then Emit(e2, " ") else e2;
      PrintFrom(ns, i + 1, e3, fuel);
      var vs := Values(ns[i..]);
      assert vs[1..] == Values(ns[i + 1..]) && vs[0] == IntV(ns[i]);
      assert e3.out == e.out + (Show(vs[0]) + (if |vs| == 1 then "" else " "));
      assert e3.out + Shown(vs[1..]) == e.out + Shown(vs);
    }
  }

  /** print shows its arguments from the left, a space between two and a newline at the end. */
  lemma PrintShows(ns: seq<int>, e: Env, fuel: nat)
    requires fuel > 1
    ensures Exec(Branch(NPrint, "print", Numbers(ns)), e, fuel) == Normal(NoneV, e.(out := e.out + Shown(Values(ns))))
  {
    hide ExecPrint, Shown;
    PrintFrom(ns, 0, e, fuel - 1);
    assert ns[0..] == ns;
  }

  /** The words that truth values and None are printed as. */
  lemma PrintedWords()
    ensures Show(BoolV(true)) == "True" && Show(BoolV(false)) == "False" && Show(NoneV) == "None"
    ensures forall s :: Show(StrV(s)) == s
  {}

  /** A branch is taken by the truth of its condition; without an else part a false one does nothing. */
  lemma BranchLaws(c: Tree, a: Tree, b: Tree, e: Env, v: Value, e1: Env, fuel: nat)
    requires fuel > 0 && Exec(c, e, fuel - 1) == Normal(v, e1)
    ensures Exec(Branch(NIf, "", [c, a, b]), e, fuel) == if Truthy(v) then Exec(a, e1, fuel - 1) else Exec(b, e1, fuel - 1)
    ensures Exec(Branch(NIf, "", [c, a]), e, fuel) == if Truthy(v) then Exec(a, e1, fuel - 1) else Normal(NoneV, e1)
  {
    hide Exec, Truthy;
    var t, u := Branch(NIf, "", [c, a, b]), Branch(NIf, "", [c, a]);
    IfIs(t, e, fuel);
    IfIs(u, e, fuel);
    KidIs(t, 0, e, fuel - 1);
    KidIs(t, 1, e1, fuel - 1);
    KidIs(t, 2, e1, fuel - 1);
    KidIs(u, 0, e, fuel - 1);
    KidIs(u, 1, e1, fuel - 1);
  }

  lemma IfIs(t: Tree, e: Env, fuel: nat)
    requires t.kind == NIf && fuel > 0
    ensures Exec(t, e, fuel) == ExecIf(t, e, fuel - 1)
  {
    hide ExecIf;
  }

  /** A loop ends when its condition is false; otherwise it runs its body, goes on from there after a normal end or a
      continue, ends at a break, and passes a return on. */
  lemma LoopLaws(c: Tree, b: Tree, e: Env, result: Value, v: Value, e1: Env, fuel: nat)
    requires fuel > 0 && Exec(c, e, fuel) == Normal(v, e1)
    ensures var t := Branch(NWhile, "", [c, b]);
      ExecWhile(t, e, result, fuel) ==
        if !Truthy(v) then Normal(result, e1)
        else match Exec(b, e1, fuel)
             case Normal(w, e2) => ExecWhile(t, e2, w, fuel - 1)
             case Continue(e2) => ExecWhile(t, e2, NoneV, fuel - 1)
             case Break(e2) => Normal(NoneV, e2)
             case o => o
  {
    hide Exec, Truthy;
    var t := Branch(NWhile, "", [c, b]);
    KidIs(t, 0, e, fuel);
    KidIs(t, 1, e1, fuel);
  }

  /** A turn of a for loop: the variable is set, the body is run, and the next turn follows after a normal end or a
      continue; a break ends the loop, a return is passed on. */
  lemma TurnLaws(t: Tree, i: int, limit: int, e: Env, result: Value, e0: Env, fuel: nat)
    requires fuel > 0 && i < limit && |t.children| == 2 && Bind(e, t.text, IntV(i)) == Some(e0)
    ensures ExecTurns(t, i, limit, e, result, fuel) ==
        match Exec(t.children[1], e0, fuel)
        case Normal(w, e1) => ExecTurns(t, i + 1, limit, e1, w, fuel - 1)
        case Continue(e1) => ExecTurns(t, i + 1, limit, e1, NoneV, fuel - 1)
        case Break(e1) => Normal(NoneV, e1)
        case o => o
    ensures ExecTurns(t, limit, limit, e, result, fuel) == Normal(result, e)
  {
    hide Exec, Bind;
    KidIs(t, 1, e0, fuel);
  }

  /** input(p) shows the prompt and gives the next line. */
  lemma PromptLaw(p: Tree, e: Env, v: Value, e1: Env, line: string, fuel: nat)
    requires fuel > 0 && Exec(p, e, fuel - 1) == Normal(v, e1) && e1.inp != [] && line == e1.inp[0] && |line| <= 255
    ensures Exec(Branch(NInput, "input", [p]), e, fuel)
         == Normal(StrV(line), e1.(out := e1.out + Show(v) + "\n", inp := e1.inp[1..]))
  {
    hide Show;
    var t := Branch(NInput, "input", [p]);
    assert Exec(t, e, fuel) == ExecInput(t, e, fuel - 1);
    hide Exec;
    KidIs(t, 0, e, fuel - 1);
  }

  // ----- limits -----

  /** A new variable does not fit beside 128 others, an old one is always updated. */
  lemma VariableLimit(vars: seq<Var>, name: string, v: Value, depth: nat)
    ensures SetVar(vars, name, v, depth).None? <==> |vars| >= 128 && FindLocal(vars, |vars|, name, depth) < 0
  {
    hide FindLocal;
  }

  /** A definition beyond the 64th is an error; of a longer list of parameters the first eight are kept. */
  lemma DefinitionLimit(t: Tree, e: Env)
    requires t.children != []
    ensures ExecDef(t, e).Error? <==> |e.funcs| >= 64
    ensures var n := |t.children| - 1; |FuncOf(t).params| == if n < 8 then n else 8
    ensures forall i :: 0 <= i < |FuncOf(t).params| ==> FuncOf(t).params[i] == t.children[i].text
  {}

  /** A call at depth 32 is an error, however simple the function. */
  lemma DepthLimit(t: Tree, f: Func, e: Env, fuel: nat)
    requires FindFunc(e.funcs, t.text) == Some(f) && |t.children| == |f.params| && e.depth >= 32
    ensures ExecCall(t, e, fuel) == Error(MaxDepth, e.out)
  {
    hide FindFunc;
  }

  // ----- a counting loop -----

  const SHOW_I: Tree := Branch(NPrint, "print", [Name("i")])

  /** for i in range(n): print(i) */
  function CountTo(n: int): Tree {
    Branch(NFor, "i", [Branch(NRange, "range", [Number(n)]), Block([SHOW_I])])
  }

  /** The numbers from k up to n, each on its line. */
  function Lines(k: int, n: int): string
    decreases n - k
  {
    if k >= n then "" else ShowInt(k) + "\n" + Lines(k + 1, n)
  }

  /** There is room for the variable i, or it is there already. */
  predicate RoomForI(e: Env) {
    Layered(e.vars) && Within(e.vars, e.depth) && (|e.vars| < MAX_VARS || FindLocal(e.vars, |e.vars|, "i", e.depth) >= 0)
  }

  lemma BindI(e: Env, k: int)
    requires RoomForI(e)
    ensures var b := Bind(e, "i", IntV(k));
      b.Some? && RoomForI(b.value) && Reads(b.value.vars, "i") == Some(IntV(k)) && b.value == e.(vars := b.value.vars)
  {
    hide Layered, Within, FindLocal, FindVar;
    SetVarReads(e.vars, "i", IntV(k), e.depth, "i");
    SetVarLayered(e.vars, "i", IntV(k), e.depth);
    LocalNow(e.vars, IntV(k), e.depth);
  }

  lemma LocalNow(vars: seq<Var>, v: Value, depth: nat)
    requires Layered(vars) && Within(vars, depth) && SetVar(vars, "i", v, depth).Some?
    ensures var w := SetVar(vars, "i", v, depth).value; FindLocal(w, |w|, "i", depth) >= 0
  {
    hide Within;
    SetVarLayered(vars, "i", v, depth);
    var i := FindLocal(vars, |vars|, "i", depth);
    var w := SetVar(vars, "i", v, depth).value;
    FindLocalComplete(w, |w|, "i", depth, if i >= 0 then i else |vars|);
  }

  lemma ShowIStep(e: Env, k: int, fuel: nat)
    requires fuel > 2 && Reads(e.vars, "i") == Some(IntV(k))
    ensures Exec(Block([SHOW_I]), e, fuel) == Normal(NoneV, e.(out := e.out + (ShowInt(k) + "\n")))
  {
    hide Exec, ExecBlock, ExecPrint, Reads;
    assert [SHOW_I] == [SHOW_I] + [];
    BlockIs(Block([SHOW_I]), e, fuel);
    BlockStep(SHOW_I, [], e, NoneV, fuel - 1);
    NameIs("i", IntV(k), e, fuel - 2);
    PrintOne(Name("i"), IntV(k), e, fuel - 1);
    BlockEnd(e.(out := e.out + (ShowInt(k) + "\n")), NoneV, fuel - 1);
  }

  lemma NameIs(x: string, v: Value, e: Env, fuel: nat)
    requires fuel > 0 && Reads(e.vars, x) == Some(v)
    ensures Exec(Name(x), e, fuel) == Normal(v, e)
  {
    hide Reads, ExecBlock;
  }

  lemma PrintOne(t: Tree, v: Value, e: Env, fuel: nat)
    requires fuel > 1 && Exec(t, e, fuel - 1) == Normal(v, e)
    ensures Exec(Branch(NPrint, "print", [t]), e, fuel) == Normal(NoneV, e.(out := e.out + (Show(v) + "\n")))
  {
    hide Show;
    var p := Branch(NPrint, "print", [t]);
    PrintIs(p, e, fuel);
    hide Exec;
    var e2 := Emit(e, Show(v));
    assert ExecPrint([t], 1, e2, fuel - 1) == Normal(NoneV, Emit(e2, "\n"));
    assert ExecPrint([t], 0, e, fuel - 1) == ExecPrint([t], 1, e2, fuel - 1);
    assert e.out + Show(v) + "\n" == e.out + (Show(v) + "\n");
  }

  lemma PrintIs(t: Tree, e: Env, fuel: nat)
    requires t.kind == NPrint && fuel > 0
    ensures Exec(t, e, fuel) == ExecPrint(t.children, 0, e, fuel - 1)
  {
    hide ExecPrint;
  }

  lemma {:induction false} CountTurns(n: int, k: int, e: Env, fuel: nat)
    requires 0 <= k <= n && fuel >= n - k + 3 && RoomForI(e)
    ensures var r := ExecTurns(CountTo(n), k, n, e, NoneV, fuel); r.Normal? && r.e.out == e.out + Lines(k, n)
    decreases n - k
  {
    hide Exec, Bind, RoomForI, ShowInt;
    if k < n {
      var t := CountTo(n);
      BindI(e, k);
      var e0 := Bind(e, "i", IntV(k)).value;
      KidIs(t, 1, e0, fuel);
      ShowIStep(e0, k, fuel);
      var e1 := e0.(out := e0.out + (ShowInt(k) + "\n"));
      SameRoom(e0, e1);
      CountTurns(n, k + 1, e1, fuel - 1);
      assert e.out + (ShowInt(k) + "\n") + Lines(k + 1, n) == e.out + Lines(k, n);
    }
  }

  lemma SameRoom(e: Env, f: Env)
    requires RoomForI(e) && f.vars == e.vars && f.depth == e.depth
    ensures RoomForI(f)
  {}

  /** A for loop takes its variable through 0, 1, 2 and so on, up to but not including the limit. */
  lemma CountsUp(n: nat, e: Env, fuel: nat)
    requires fuel >= n + 4 && RoomForI(e)
    ensures var r := Exec(CountTo(n), e, fuel); r.Normal? && r.e.out == e.out + Lines(0, n)
  {
    hide ExecTurns, Lines, RoomForI;
    NumberStep(n, e, fuel - 1);
    ForIs(CountTo(n), n, e, fuel);
    CountTurns(n, 0, e, fuel - 1);
  }

  lemma ForIs(t: Tree, n: int, e: Env, fuel: nat)
    requires fuel > 0 && t.kind == NFor && |t.children| == 2 && t.children[0] == Branch(NRange, "range", [Number(n)])
    requires Exec(Number(n), e, fuel - 1) == Normal(IntV(n), e)
    ensures Exec(t, e, fuel) == ExecTurns(t, 0, n, e, NoneV, fuel - 1)
  {
    hide ExecTurns;
    assert Exec(t, e, fuel) == ExecFor(t, e, fuel - 1);
    hide Exec;
    KidIs(t.children[0], 0, e, fuel - 1);
  }

  // ----- a call with arguments -----

  /** return a - b */
  const MINUS_BODY: Tree := Block([Returns(Binop(TMinus, Name("a"), Name("b")))])

  lemma MinusBody(e: Env, x: int, y: int, fuel: nat)
    requires fuel > 3 && Reads(e.vars, "a") == Some(IntV(x)) && Reads(e.vars, "b") == Some(IntV(y))
    ensures Exec(MINUS_BODY, e, fuel) == Return(IntV(x - y), e)
  {
    hide Exec, ExecBlock, Reads;
    var t := Binop(TMinus, Name("a"), Name("b"));
    assert [Returns(t)] == [Returns(t)] + [];
    BlockIs(MINUS_BODY, e, fuel);
    BlockStep(Returns(t), [], e, NoneV, fuel - 1);
    ReturnStep(t, e, fuel - 1);
    NameIs("a", IntV(x), e, fuel - 3);
    NameIs("b", IntV(y), e, fuel - 3);
    Operands(TMinus, Name("a"), Name("b"), e, IntV(x), e, IntV(y), e, fuel - 2);
  }

  const MINUS: Func := Func("f", ["a", "b"], MINUS_BODY)

  lemma ParamsBound(e: Env, x: int, y: int)
    requires e.vars == []
    ensures var r := BindAll(e, ["a", "b"], [IntV(x), IntV(y)]);
      && r.1 && r.0 == e.(vars := r.0.vars)
      && Reads(r.0.vars, "a") == Some(IntV(x)) && Reads(r.0.vars, "b") == Some(IntV(y))
  {
    hide FindVar, FindLocal;
    var e1 := e.(vars := [Var("a", IntV(x), e.depth)]);
    assert Bind(e, "a", IntV(x)) == Some(e1) by { assert [] + [Var("a", IntV(x), e.depth)] == [Var("a", IntV(x), e.depth)]; }
    var b := Bind(e1, "b", IntV(y));
    SetVarReads(e1.vars, "b", IntV(y), e.depth, "a");
    SetVarReads([], "a", IntV(x), e.depth, "a");
    BindTwo(e, "a", IntV(x), e1, "b", IntV(y));
  }

  lemma BindTwo(e: Env, a: string, v: Value, e1: Env, b: string, w: Value)
    requires Bind(e, a, v) == Some(e1) && Bind(e1, b, w).Some?
    ensures BindAll(e, [a, b], [v, w]) == (Bind(e1, b, w).value, true)
  {
    hide Bind;
    assert [a, b][1..] == [b] && [v, w][1..] == [w] && [b][1..] == [] && [w][1..] == [];
    assert BindAll(e1, [b], [w]) == BindAll(Bind(e1, b, w).value, [], []);
  }

  lemma BodyPasses(e: Env, x: int, y: int, fuel: nat)
    requires fuel > 3 && e.vars == []
    ensures var r := ExecBody(MINUS, [IntV(x), IntV(y)], e, fuel); r.Normal? && r.v == IntV(x - y)
  {
    hide Exec, BindAll, PopScope, Reads;
    var e1 := e.(depth := e.depth + 1);
    ParamsBound(e1, x, y);
    MinusBody(BindAll(e1, ["a", "b"], [IntV(x), IntV(y)]).0, x, y, fuel);
  }

  /** def f(a, b): return a - b */
  const DEF_MINUS: Tree := Branch(NDef, "f", [Name("a"), Name("b"), MINUS_BODY])

  lemma DefinesMinus()
    ensures FuncOf(DEF_MINUS) == MINUS
  {
    assert FuncOf(DEF_MINUS).params == ["a", "b"];
  }

  lemma ArgumentsAre(x: int, y: int, e: Env, fuel: nat)
    requires fuel > 0
    ensures ExecArgs([Number(x), Number(y)], e, [], fuel) == ArgValues.Values([IntV(x), IntV(y)], e)
  {
    hide Exec;
    var ts := [Number(x), Number(y)];
    NumberStep(x, e, fuel);
    NumberStep(y, e, fuel);
    assert ts[1..] == [Number(y)] && [Number(y)][1..] == [];
    assert [] + [IntV(x)] == [IntV(x)] && [IntV(x)] + [IntV(y)] == [IntV(x), IntV(y)];
    assert ExecArgs([Number(y)], e, [IntV(x)], fuel) == ExecArgs([], e, [IntV(x), IntV(y)], fuel);
  }

  /** A call hands its arguments to the parameters in their order: after def f(a, b): return a - b, f(x, y) is x - y. */
  lemma CallPasses(e: Env, x: int, y: int, fuel: nat)
    requires fuel > 4 && e.vars == [] && e.depth < MAX_DEPTH && FindFunc(e.funcs, "f") == Some(FuncOf(DEF_MINUS))
    ensures var r := Exec(Branch(NCall, "f", [Number(x), Number(y)]), e, fuel); r.Normal? && r.v == IntV(x - y)
  {
    hide Exec, ExecBody, ExecArgs, FindFunc;
    DefinesMinus();
    var t := Branch(NCall, "f", [Number(x), Number(y)]);
    CallIs(t, e, fuel);
    ArgumentsAre(x, y, e, fuel - 1);
    BodyPasses(e, x, y, fuel - 1);
  }

  lemma CallIs(t: Tree, e: Env, fuel: nat)
    requires t.kind == NCall && fuel > 0
    ensures Exec(t, e, fuel) == ExecCall(t, e, fuel - 1)
  {
    hide ExecCall;
  }
}
