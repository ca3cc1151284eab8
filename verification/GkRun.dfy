/** gk_run: from source text through tokens and tree to the outcome. */
module GkRun {
  import opened GkSyntax
  import opened Wrappers
  import opened GkValues
  import opened GkAgreement
  import opened GkScopes
  import opened GkShapes
  import G = GkGrammar
  import L = GkLexer
  import P = GkParser
  import M = GkMachine
  import I = GkInterp
  import B = GkBigStep
  import Pool = GkPool

  datatype Result = LexError | ParseError | RuntimeError(error: RunError, out: string) | Finished(out: string) | OutOfFuel

  /** The tree of a source that lexes and parses. */
  function TreeOf(src: string): Option<Tree> {
    var lexed := L.Program(src, 0, [0]);
    if lexed.Rejected? || |lexed.toks| > L.MAX_TOKENS then None else
      L.LexedIs(src, 0);
      var parsed := G.Program(lexed.toks);
      if parsed.Fail? then None else Some(parsed.value)
  }

  /** The limits that the source of a program must keep because nothing checks them. */
  predicate WithinLimits(src: string) {
    && L.DepthFits(src, 0, [0])
    && (L.Program(src, 0, [0]).Lexed? ==> P.DefsFit(L.Program(src, 0, [0]).toks))
  }

  /** How a program's outcome is reported. */
  function Report(o: B.Outcome): Result {
    match o
    case OutOfFuel => OutOfFuel
    case Error(x, out) => RuntimeError(x, out)
    case Normal(_, e) => Finished(e.out)
    case Break(e) => Finished(e.out)
    case Continue(e) => Finished(e.out)
    case Return(_, e) => Finished(e.out)
  }

  /** How the flags are reported: gk_run looks at the error only. */
  function ReportState(r: I.Out): Result {
    match r
    case Timeout => OutOfFuel
    case Done(s, _) => if s.error.Some? then RuntimeError(s.error.value, s.env.out) else Finished(s.env.out)
  }

  /** A source is refused exactly when it has no tree. Otherwise, when its breaks and continues lie in loops of the
      same body, what it prints and how it ends is what the big-step semantics of its tree says. */
  method Run(src: string, lines: seq<string>, fuel: nat) returns (r: Result)
    requires WithinLimits(src)
    ensures r.LexError? || r.ParseError? <==> TreeOf(src).None?
    ensures TreeOf(src).Some? ==> r == ReportState(I.Eval(TreeOf(src).value, Initial(lines), fuel))
    ensures TreeOf(src).Some? && IsStmt(TreeOf(src).value, false, true) ==>
              r == Report(B.Exec(TreeOf(src).value, Initial(lines).env, fuel))
  {
    hide TreeOf, WithinLimits, Shaped, IsStmt, B.Exec, I.Eval;
    var lexed, tree := FrontEnd(src);
    if !lexed {
      return LexError;
    }
    if tree.None? {
      return ParseError;
    }
    r := Interpret(tree.value, lines, fuel);
  }

  method FrontEnd(src: string) returns (lexed: bool, tree: Option<Tree>)
    requires WithinLimits(src)
    ensures tree == TreeOf(src) && (tree.Some? ==> Shaped(tree.value)) && (!lexed ==> tree.None?)
  {
    hide L.Program, L.DepthFits, P.DefsFit, G.Program, Shaped;
    var lexer := new L.Lexer(src);
    lexed := lexer.Lex();
    if !lexed {
      return false, None;
    }
    L.LexedIs(src, 0);
    tree := BuildTree(lexer.tokens);
  }

  /** The tree that the pool represents. */
  method BuildTree(toks: seq<Token>) returns (tree: Option<Tree>)
    requires Stream(toks) && P.DefsFit(toks)
    ensures tree == if G.Program(toks).Fail? then None else Some(G.Program(toks).value)
    ensures tree.Some? ==> Shaped(tree.value)
  {
    hide P.DefsFit, G.Program, Shaped, Pool.Kids, Pool.Range;
    var parser := new P.Parser(toks);
    var root := parser.ParseProgram();
    if root < 0 {
      return None;
    }
    tree := Some(G.Program(toks).value);
    assert Pool.Represents(parser.nodes, root, tree.value);
    ProgramShaped(toks);
  }

  method Interpret(tree: Tree, lines: seq<string>, fuel: nat) returns (r: Result)
    requires Shaped(tree)
    ensures r == ReportState(I.Eval(tree, Initial(lines), fuel))
    ensures IsStmt(tree, false, true) ==> r == Report(B.Exec(tree, Initial(lines).env, fuel))
    ensures !r.LexError? && !r.ParseError?
  {
    hide Shaped, IsStmt, I.Eval, B.Exec;
    if IsStmt(tree, false, true) {
      ProgramsAgree(tree, lines, fuel);
    }
    var machine := new M.Machine(lines);
    var ok, v := machine.Eval(tree, fuel);
    r := if !ok then OutOfFuel
         else if machine.error.Some? then RuntimeError(machine.error.value, machine.out)
         else Finished(machine.out);
  }
}
