/** Whole programs as indented source text, and that lexing and parsing the text gives the program back. */
module GkSource {
  import opened Wrappers
  import opened GkSyntax
  import opened GkLexer
  import opened GkRoundTrip
  import opened GkStatements
  import opened GkText
  import G = GkGrammar
  import R = GkRun

  // ----- lines -----

  /** A line: how deep it is indented, and its tokens. */
  datatype Row = Row(depth: nat, toks: seq<Token>)

  /** The lines of a statement, its first line at the given depth. */
  function RowsOf(t: Tree, elif: bool, d: nat): (r: seq<Row>)
    requires IsStatement(t)
    ensures r != [] && r[0] == Row(d, Head(t, elif))
    decreases t, 1
  {
    [Row(d, Head(t, elif))] + if Compound(t.kind) then BlockRows(BodyOf(t), d + 1) + RestRows(t, d) else []
  }

  function BlockRows(b: Tree, d: nat): (r: seq<Row>)
    requires IsBlock(b)
    ensures r != [] && r[0].depth == d
    decreases b, 1
  {
    if b.children == [] then [Row(d, [])] else AllRows(b.children, d)
  }

  function RestRows(t: Tree, d: nat): seq<Row>
    requires IsStatement(t)
    decreases t, 0
  {
    if t.kind == NIf && |t.children| == 3 then ElseRows(t.children[2], d) else []
  }

  function ElseRows(t: Tree, d: nat): (r: seq<Row>)
    requires IsElse(t)
    ensures r != [] && r[0].depth == d
    decreases t, 2
  {
    if t.kind == NIf then RowsOf(t, true, d) else [Row(d, [Tok(TElse), Tok(TColon)])] + BlockRows(t, d + 1)
  }

  function AllRows(ts: seq<Tree>, d: nat): (r: seq<Row>)
    requires AllStatements(ts)
    ensures ts != [] ==> r != [] && r[0].depth == d
    decreases ts, 0
  {
    if ts == [] then [] else RowsOf(ts[0], false, d) + AllRows(ts[1..], d)
  }

  // ----- the layout tokens of lines -----

  function Shifts(d: nat, e: nat): seq<Token> {
    if e > d then [Tok(TIndent)] else Repeat(TDedent, d - e)
  }

  /** The tokens of lines that follow a line of depth d: layout tokens, the line, a newline; all blocks closed at the end. */
  function Layout(rows: seq<Row>, d: nat): seq<Token> {
    if rows == [] then Repeat(TDedent, d) + [Tok(TEof)]
    else Shifts(d, rows[0].depth) + (rows[0].toks + ([NL] + Layout(rows[1..], rows[0].depth)))
  }

  /** No line goes deeper than one step below the previous one, and only lines of blocks are empty. */
  predicate Steps(rows: seq<Row>, d: nat) {
    rows == [] || (rows[0].depth <= d + 1 && (rows[0].toks == [] ==> rows[0].depth > 0) && Steps(rows[1..], rows[0].depth))
  }

  /** Lines that do not belong to a block of depth d + 1. */
  predicate Outside(rows: seq<Row>, d: nat) {
    Steps(rows, d) && (rows == [] || rows[0].depth <= d)
  }

  lemma RowFirst(row: Row, more: seq<Row>, d: nat)
    ensures Layout([row] + more, d) == Shifts(d, row.depth) + (row.toks + ([NL] + Layout(more, row.depth)))
    ensures Steps([row] + more, d) <==> row.depth <= d + 1 && (row.toks == [] ==> row.depth > 0) && Steps(more, row.depth)
  {
    hide Layout, Steps;
    LayoutStep([row] + more, d);
    assert ([row] + more)[1..] == more;
  }

  lemma LayoutStep(rows: seq<Row>, d: nat)
    requires rows != []
    ensures Layout(rows, d) == Shifts(d, rows[0].depth) + (rows[0].toks + ([NL] + Layout(rows[1..], rows[0].depth)))
    ensures Steps(rows, d) <==>
              rows[0].depth <= d + 1 && (rows[0].toks == [] ==> rows[0].depth > 0) && Steps(rows[1..], rows[0].depth)
  {}

  /** A line at the depth of the previous one needs no layout token. */
  lemma SameDepth(row: Row, more: seq<Row>)
    ensures Layout([row] + more, row.depth) == row.toks + ([NL] + Layout(more, row.depth))
    ensures Steps([row] + more, row.depth) <==> (row.toks == [] ==> row.depth > 0) && Steps(more, row.depth)
  {
    hide Layout, Steps;
    RowFirst(row, more, row.depth);
    assert Shifts(row.depth, row.depth) == [];
  }

  /** A block starts one deeper. */
  lemma Deeper(rows: seq<Row>, d: nat)
    requires rows != [] && rows[0].depth == d + 1
    ensures Layout(rows, d) == [Tok(TIndent)] + Layout(rows, d + 1)
    ensures Steps(rows, d) <==> Steps(rows, d + 1)
  {
    hide Layout, Steps;
    LayoutStep(rows, d);
    LayoutStep(rows, d + 1);
    assert Shifts(d + 1, d + 1) == [];
  }

  /** And ends before lines outside it. */
  lemma Closes(rows: seq<Row>, d: nat)
    requires Outside(rows, d)
    ensures Layout(rows, d + 1) == [Tok(TDedent)] + Layout(rows, d) && Steps(rows, d + 1)
  {
    hide Layout, Steps;
    if rows == [] {
      LastRow(d);
    } else {
      LayoutStep(rows, d);
      LayoutStep(rows, d + 1);
      var e := rows[0].depth;
      assert Repeat(TDedent, d + 1 - e) == [Tok(TDedent)] + Repeat(TDedent, d - e);
    }
  }

  lemma LastRow(d: nat)
    ensures Layout([], d + 1) == [Tok(TDedent)] + Layout([], d) && Steps([], d + 1)
  {
    assert Repeat(TDedent, d + 1) == [Tok(TDedent)] + Repeat(TDedent, d);
  }

  /** The lines of a statement have the tokens that it prints. */
  lemma {:induction false} StmtLayout(t: Tree, elif: bool, d: nat, rest: seq<Row>)
    requires IsStatement(t) && Outside(rest, d)
    ensures Layout(RowsOf(t, elif, d) + rest, d) == PrintStmt(t, elif) + Layout(rest, d)
    ensures Outside(RowsOf(t, elif, d) + rest, d)
    decreases t, 1
  {
    hide Layout, Steps, IsStatement, Head, PrintBlock, PrintRest, BlockRows, RestRows;
    var row := Row(d, Head(t, elif));
    if Compound(t.kind) {
      var b, more := BodyOf(t), RestRows(t, d) + rest;
      assert RowsOf(t, elif, d) + rest == [row] + (BlockRows(b, d + 1) + more);
      RestLayout(t, d, rest);
      BlockLayout(b, d, more);
      SameDepth(row, BlockRows(b, d + 1) + more);
    } else {
      assert RowsOf(t, elif, d) + rest == [row] + rest;
      SameDepth(row, rest);
    }
  }

  lemma {:induction false} BlockLayout(b: Tree, d: nat, rest: seq<Row>)
    requires IsBlock(b) && Outside(rest, d)
    ensures Layout(BlockRows(b, d + 1) + rest, d) == PrintBlock(b) + Layout(rest, d)
    ensures Steps(BlockRows(b, d + 1) + rest, d)
    decreases b, 1
  {
    hide Layout, Steps, AllStatements, AllRows, PrintAll;
    Closes(rest, d);
    var rows := BlockRows(b, d + 1) + rest;
    Deeper(rows, d);
    if b.children == [] {
      SameDepth(Row(d + 1, []), rest);
      assert Layout(rows, d + 1) == [NL] + Layout(rest, d + 1);
    } else {
      AllLayout(b.children, d + 1, rest);
    }
  }

  lemma {:induction false} RestLayout(t: Tree, d: nat, rest: seq<Row>)
    requires IsStatement(t) && Outside(rest, d)
    ensures Layout(RestRows(t, d) + rest, d) == PrintRest(t) + Layout(rest, d)
    ensures Outside(RestRows(t, d) + rest, d)
    decreases t, 0
  {
    hide Layout, Steps, ElseRows, PrintElse;
    if t.kind == NIf && |t.children| == 3 {
      ElseLayout(t.children[2], d, rest);
    } else {
      assert RestRows(t, d) + rest == rest;
    }
  }

  lemma {:induction false} ElseLayout(t: Tree, d: nat, rest: seq<Row>)
    requires IsElse(t) && Outside(rest, d)
    ensures Layout(ElseRows(t, d) + rest, d) == PrintElse(t) + Layout(rest, d)
    ensures Outside(ElseRows(t, d) + rest, d)
    decreases t, 2
  {
    hide Layout, Steps, IsStatement, RowsOf, PrintStmt, BlockRows, PrintBlock;
    if t.kind == NIf {
      StmtLayout(t, true, d, rest);
    } else {
      var row := Row(d, [Tok(TElse), Tok(TColon)]);
      assert ElseRows(t, d) + rest == [row] + (BlockRows(t, d + 1) + rest);
      BlockLayout(t, d, rest);
      SameDepth(row, BlockRows(t, d + 1) + rest);
    }
  }

  lemma {:induction false} AllLayout(ts: seq<Tree>, d: nat, rest: seq<Row>)
    requires AllStatements(ts) && Steps(rest, d) && (rest == [] || rest[0].depth <= d)
    ensures Layout(AllRows(ts, d) + rest, d) == PrintAll(ts) + Layout(rest, d)
    ensures Outside(AllRows(ts, d) + rest, d)
    decreases ts, 0
  {
    hide Layout, Steps, IsStatement, RowsOf, PrintStmt, AllRows, PrintAll, AllStatements;
    if ts == [] {
      NoRows(d, rest);
    } else {
      AllForm(ts);
      var more := AllRows(ts[1..], d) + rest;
      AllLayout(ts[1..], d, rest);
      RowsForm(ts, d, rest);
      StmtLayout(ts[0], false, d, more);
      assert Layout(RowsOf(ts[0], false, d) + more, d) == PrintStmt(ts[0], false) + (PrintAll(ts[1..]) + Layout(rest, d));
    }
  }

  lemma NoRows(d: nat, rest: seq<Row>)
    ensures AllRows([], d) + rest == rest && PrintAll([]) + Layout(rest, d) == Layout(rest, d)
  {
    hide Layout;
  }

  lemma RowsForm(ts: seq<Tree>, d: nat, rest: seq<Row>)
    requires AllStatements(ts) && ts != []
    ensures IsStatement(ts[0]) && AllStatements(ts[1..])
    ensures AllRows(ts, d) + rest == RowsOf(ts[0], false, d) + (AllRows(ts[1..], d) + rest)
  {
    hide IsStatement, RowsOf;
  }

  // ----- text -----

  function Spaces(n: nat): string {
    seq(n, _ => ' ')
  }

  /** Four spaces per block. A line without tokens ends in a tab and a space, which the lexer takes for a line. */
  function Margin(row: Row): string {
    if row.toks == [] && row.depth > 0 then Spaces(4 * row.depth - 4) + "\t" else Spaces(4 * row.depth)
  }

  function Rest(row: Row): (s: string)
    requires AllLexable(row.toks)
  {
    if row.toks == [] then " " else Spell(row.toks)
  }

  predicate AllSpelled(rows: seq<Row>) {
    forall i :: 0 <= i < |rows| ==> AllLexable(rows[i].toks)
  }

  function RowText(row: Row): string
    requires AllLexable(row.toks)
  {
    Margin(row) + (Rest(row) + "\n")
  }

  function Text(rows: seq<Row>): string
    requires AllSpelled(rows)
  {
    if rows == [] then "" else RowText(rows[0]) + Text(rows[1..])
  }

  // ----- reading one line -----

  lemma {:induction false} RunIs(src: string, i: nat, n: nat, c: char)
    requires i + n < |src| && (forall k :: i <= k < i + n ==> src[k] == c) && src[i + n] != c
    ensures RunEnd(src, i, c) == i + n
    decreases n
  {
    if n > 0 { RunIs(src, i + 1, n - 1, c); }
  }

  lemma SpacesStand(src: string, i: nat, n: nat)
    requires Stands(src, i, Spaces(n))
    ensures i + n <= |src| && forall k :: i <= k < i + n ==> src[k] == ' '
  {
    forall k | i <= k < i + n ensures src[k] == ' ' {
      StandsAt(src, i, Spaces(n), k - i);
    }
  }

  /** A line that starts with spaces and then tabs is as deep as there are spaces, and four more for each tab. */
  lemma TabsCount(src: string, i: nat, spaces: nat, tabs: nat)
    requires i + spaces + tabs < |src| && (forall k :: i <= k < i + spaces ==> src[k] == ' ')
    requires forall k :: i + spaces <= k < i + spaces + tabs ==> src[k] == '\t'
    requires src[i + spaces + tabs] != '\t' && (tabs == 0 ==> src[i + spaces] != ' ')
    ensures Indent(src, i) == (spaces + 4 * tabs, i + spaces + tabs)
  {
    RunIs(src, i, spaces, ' ');
    RunIs(src, i + spaces, tabs, '\t');
  }

  lemma RestFirst(row: Row)
    requires AllLexable(row.toks)
    ensures Rest(row) != "" && var c := Rest(row)[0]; c != '\t' && c != '\n' && c != '#' && (row.toks != [] ==> c != ' ')
  {
    hide Spell;
    if row.toks != [] { SpellFirst(row.toks); }
  }

  lemma MarginReads(src: string, i: nat, row: Row)
    requires AllLexable(row.toks) && (row.toks == [] ==> row.depth > 0) && Stands(src, i, RowText(row))
    ensures var at := i + |Margin(row)|;
      at <= |src| && Indent(src, i) == (4 * row.depth, at) && !Blank(src, at) && Stands(src, at, Rest(row) + "\n")
  {
    hide Stands, Spell, Lexable, Indent, Rest;
    RestFirst(row);
    StandsSplit(src, i, Margin(row), Rest(row) + "\n");
    var at := i + |Margin(row)|;
    FirstAt(src, at, Rest(row) + "\n");
    if row.toks == [] {
      var n := 4 * row.depth - 4;
      StandsSplit(src, i, Spaces(n), "\t");
      SpacesStand(src, i, n);
      FirstAt(src, i + n, "\t");
      TabsCount(src, i, n, 1);
    } else {
      SpacesStand(src, i, 4 * row.depth);
      TabsCount(src, i, 4 * row.depth, 0);
    }
  }

  /** From i on the lexer reads a line of that depth, with tokens from `at` on, that ends before `end`. */
  predicate LineAt(src: string, i: nat, depth: nat, at: nat, toks: seq<Token>, end: nat) {
    && i <= |src| && at <= |src| && Indent(src, i) == (4 * depth, at) && !Blank(src, at)
    && var r := Line(src, at);
    && r.Lexed? && AllAlike(r.toks, toks) && r.next + 1 == end <= |src| && src[r.next] == '\n'
  }

  /** The lexer reads a line: its depth, its tokens and where it ends. */
  lemma RowReads(src: string, i: nat, row: Row)
    requires AllLexable(row.toks) && (row.toks == [] ==> row.depth > 0) && Stands(src, i, RowText(row))
    ensures LineAt(src, i, row.depth, i + |Margin(row)|, row.toks, i + |RowText(row)|)
  {
    hide Stands, Spell, Lexable, Margin, Alike, Line, Indent, Blank;
    MarginReads(src, i, row);
    var at := i + |Margin(row)|;
    StandsSplit(src, at, Rest(row), "\n");
    FirstAt(src, at + |Rest(row)|, "\n");
    if row.toks == [] {
      FirstAt(src, at, " ");
      BlankReads(src, at);
    } else {
      LineReads(src, at, row.toks);
    }
  }

  lemma BlankReads(src: string, at: nat)
    requires at + 1 < |src| && src[at] == ' ' && src[at + 1] == '\n'
    ensures Line(src, at) == Lexed([], at + 1)
  {
    hide PieceAt;
    SpacePiece(src, at);
  }

  // ----- the indentation stack -----

  function Stack(d: nat): (s: seq<nat>)
    ensures Increasing(s) && |s| == d + 1 && s[d] == 4 * d
  {
    seq(d + 1, k => 4 * k)
  }

  lemma {:induction false} PopStack(d: nat, e: nat)
    requires e <= d
    ensures Pop(Stack(d), 4 * e) == Stack(e)
    decreases d
  {
    if e < d {
      assert Stack(d)[..d] == Stack(d - 1);
      PopStack(d - 1, e);
    }
  }

  lemma OpenStack(d: nat, e: nat)
    requires e <= d + 1
    ensures Open(Stack(d), 4 * e) == Stack(e) && Shift(Stack(d), Stack(e)) == Shifts(d, e)
  {
    hide Pop, Increasing;
    if e <= d {
      PopStack(d, e);
    } else {
      assert Stack(d) + [4 * e] == Stack(e);
    }
  }

  // ----- reading all lines -----

  lemma AlikeJoin(a: seq<Token>, b: seq<Token>, c: seq<Token>, d: seq<Token>)
    requires AllAlike(a, c) && AllAlike(b, d)
    ensures AllAlike(a + b, c + d)
  {
    hide Alike;
  }

  lemma AlikeSelf(a: seq<Token>)
    ensures AllAlike(a, a)
  {}

  /** The lexer reads the lines: it yields their layout tokens and their tokens. */
  lemma {:induction false} RowsRead(src: string, i: nat, rows: seq<Row>, d: nat)
    requires AllSpelled(rows) && Steps(rows, d) && Stands(src, i, Text(rows)) && i + |Text(rows)| == |src|
    ensures var r := GkLexer.Program(src, i, Stack(d)); r.Lexed? && AllAlike(r.toks, Layout(rows, d))
    decreases |rows|
  {
    hide Stands, RowText, AllAlike, GkLexer.Program, Layout, Steps, Stack, AllLexable;
    if rows == [] {
      EndReads(src, d);
    } else {
      var row, rest := rows[0], rows[1..];
      TextStep(rows);
      LayoutStep(rows, d);
      StandsSplit(src, i, RowText(row), Text(rest));
      var j := i + |RowText(row)|;
      RowsRead(src, j, rest, row.depth);
      RowThen(src, i, row, d, Layout(rest, row.depth));
    }
  }

  lemma TextStep(rows: seq<Row>)
    requires AllSpelled(rows) && rows != []
    ensures AllSpelled(rows[1..]) && Text(rows) == RowText(rows[0]) + Text(rows[1..])
  {
    hide RowText, AllLexable;
  }

  lemma EndReads(src: string, d: nat)
    ensures GkLexer.Program(src, |src|, Stack(d)) == Lexed(Layout([], d), |src|) && AllAlike(Layout([], d), Layout([], d))
  {
    AlikeSelf(Layout([], d));
  }

  /** One line and the lines after it. */
  lemma RowThen(src: string, i: nat, row: Row, d: nat, more: seq<Token>)
    requires AllLexable(row.toks) && (row.toks == [] ==> row.depth > 0) && row.depth <= d + 1 && Stands(src, i, RowText(row))
    requires i + |RowText(row)| <= |src|
    requires var r := GkLexer.Program(src, i + |RowText(row)|, Stack(row.depth)); r.Lexed? && AllAlike(r.toks, more)
    ensures var r := GkLexer.Program(src, i, Stack(d));
      r.Lexed? && AllAlike(r.toks, Shifts(d, row.depth) + (row.toks + ([NL] + more)))
  {
    hide Stands, RowText, AllAlike, Line, Indent, Blank, Shifts, Shift, Open, Stack, AllLexable, Margin, GkLexer.Program;
    RowReads(src, i, row);
    OpenStack(d, row.depth);
    RowNotEmpty(row);
    var line := Line(src, i + |Margin(row)|);
    var rest := GkLexer.Program(src, i + |RowText(row)|, Stack(row.depth));
    ProgramStep(src, i, Stack(d), 4 * row.depth, i + |Margin(row)|);
    AlikeSelf([NL]);
    AlikeSelf(Shifts(d, row.depth));
    AlikeJoin([NL], rest.toks, [NL], more);
    AlikeJoin(line.toks, [NL] + rest.toks, row.toks, [NL] + more);
    AlikeJoin(Shifts(d, row.depth), line.toks + ([NL] + rest.toks), Shifts(d, row.depth), row.toks + ([NL] + more));
  }

  lemma RowNotEmpty(row: Row)
    requires AllLexable(row.toks)
    ensures |RowText(row)| > 0
  {}

  lemma ProgramStep(src: string, i: nat, stack: seq<nat>, width: nat, at: nat)
    requires i < |src| && Increasing(stack) && at <= |src| && Indent(src, i) == (width, at) && !Blank(src, at)
    requires Line(src, at).Lexed? && Line(src, at).next < |src|
    requires GkLexer.Program(src, Line(src, at).next + 1, Open(stack, width)).Lexed?
    ensures var more := GkLexer.Program(src, Line(src, at).next + 1, Open(stack, width));
      && GkLexer.Program(src, i, stack).Lexed?
      && GkLexer.Program(src, i, stack).toks == Shift(stack, Open(stack, width)) + (Line(src, at).toks + ([NL] + more.toks))
  {
    hide Line, Indent, Open, Shift, Increasing;
  }

  // ----- programs -----

  lemma AlikeAt(toks: seq<Token>, s: seq<Token>)
    requires AllAlike(toks, s + [Tok(TEof)])
    ensures Stream(toks) && At(toks, 0, s) && |toks| == |s| + 1
  {
    var all := s + [Tok(TEof)];
    assert Alike(toks[|s|], all[|s|]);
    forall i | 0 <= i < |s| ensures Alike(toks[0 + i], s[i]) {
      assert Alike(toks[i], all[i]);
    }
  }

  lemma AllRowsLayout(ts: seq<Tree>)
    requires AllStatements(ts)
    ensures Layout(AllRows(ts, 0), 0) == PrintAll(ts) + [Tok(TEof)] && Steps(AllRows(ts, 0), 0)
  {
    hide AllStatements, AllRows, PrintAll;
    AllLayout(ts, 0, []);
    assert AllRows(ts, 0) + [] == AllRows(ts, 0);
    assert Layout([], 0) == [Tok(TEof)];
  }

  /** The text of a program, lexed and parsed, is that program, unless it has too many tokens. */
  lemma TextRoundTrip(ts: seq<Tree>)
    requires AllStatements(ts) && |ts| <= MAX_CHILDREN && Sizes(ts) < MAX_NODES
    requires AllSpelled(AllRows(ts, 0))
    ensures R.TreeOf(Text(AllRows(ts, 0))) == if |PrintAll(ts)| < MAX_TOKENS then Some(Branch(NBlock, "", ts)) else None
  {
    hide AllStatements, AllRows, PrintAll, Sizes, AllSpelled, Text, Layout, Steps, AllAlike, GkLexer.Program, G.Program, At, Stream;
    var rows := AllRows(ts, 0);
    var src := Text(rows);
    AllRowsLayout(ts);
    assert Stands(src, 0, src);
    FirstStack();
    RowsRead(src, 0, rows, 0);
    var r := GkLexer.Program(src, 0, [0]);
    AlikeAt(r.toks, PrintAll(ts));
    ProgramRead(ts, r.toks);
  }

  lemma FirstStack()
    ensures Stack(0) == [0]
  {}
}
