/** The shell's language without its parser: how a line falls into tokens, told from the line's
    characters alone, and which token sequences spell which commands, by a grammar. */
module ShellGrammar {
  import opened ShellSyntax

  // ----- tokens -----

  /** A piece of the line, from start up to end. */
  datatype Piece = Piece(start: nat, end: nat)

  /** The characters s[p.start..p.end] are token t, and more of them would not be. */
  ghost predicate IsToken(s: string, p: Piece, t: Tok) {
    && p.start < p.end <= |s| && s[p.start..p.end] == TokText(t)
    && match t
       case Sym(c) => IsSymbol(c) && (c == '>' && p.end < |s| ==> s[p.end] != '>')
       case Append => true
       case Word(w) =>
         && (forall i :: 0 <= i < |w| ==> !IsBlank(w[i]) && !IsSymbol(w[i]))
         && (p.end < |s| ==> IsBlank(s[p.end]) || IsSymbol(s[p.end]))
  }

  /** From pos on the line consists of these tokens, in this order, and of blanks. */
  ghost predicate Splits(s: string, pos: nat, pieces: seq<Piece>, ts: seq<Tok>)
    decreases |pieces|
  {
    && pos <= |s| && |pieces| == |ts|
    && if pieces == [] then forall i :: pos <= i < |s| ==> IsBlank(s[i])
       else
         && pos <= pieces[0].start && (forall i :: pos <= i < pieces[0].start && i < |s| ==> IsBlank(s[i]))
         && IsToken(s, pieces[0], ts[0]) && Splits(s, pieces[0].end, pieces[1..], ts[1..])
  }

  lemma OneToken(s: string, p: nat)
    requires p < |s| && !IsBlank(s[p])
    ensures IsToken(s, Piece(p, TokEnd(s, p)), TokAt(s, p))
  { }

  /** Every line splits into its tokens: nothing is swallowed, and no word is cut or run together. */
  lemma {:induction false} LineSplits(s: string, pos: nat) returns (pieces: seq<Piece>)
    requires pos <= |s|
    ensures Splits(s, pos, pieces, Toks(s, pos))
    decreases |s| - pos
  {
    hide IsToken, IsBlank, IsSymbol;
    var p := Skip(s, pos);
    if p == |s| {
      pieces := [];
    } else {
      OneToken(s, p);
      var more := LineSplits(s, TokEnd(s, p));
      pieces := [Piece(p, TokEnd(s, p))] + more;
      assert pieces[1..] == more && Toks(s, pos)[1..] == Toks(s, TokEnd(s, p));
    }
  }

  lemma SameToken(s: string, p: Piece, t: Tok, start: nat)
    requires start == p.start && IsToken(s, p, t) && start < |s| && !IsBlank(s[start])
    ensures t == TokAt(s, start) && p.end == TokEnd(s, start)
  {
    assert s[p.start..p.end][0] == s[p.start];
    match t {
      case Sym(c) =>
      case Append =>
        assert s[p.start..p.end][1] == s[p.start + 1];
      case Word(w) =>
        forall i | p.start <= i < p.end ensures !IsBlank(s[i]) && !IsSymbol(s[i]) { assert w[i - p.start] == s[i]; }
        assert p.end == WordEnd(s, start);
    }
  }

  /** ... and in only one way. */
  lemma {:induction false} SplitsOnce(s: string, pos: nat, pieces: seq<Piece>, ts: seq<Tok>)
    requires Splits(s, pos, pieces, ts)
    ensures ts == Toks(s, pos)
    decreases |pieces|
  {
    var p := Skip(s, pos);
    if pieces != [] {
      TokenStarts(s, pieces[0], ts[0]);
      SkipTo(s, pos, pieces[0].start);
      SameToken(s, pieces[0], ts[0], p);
      SplitsOnce(s, pieces[0].end, pieces[1..], ts[1..]);
    }
  }

  lemma TokenStarts(s: string, p: Piece, t: Tok)
    requires IsToken(s, p, t)
    ensures p.start < |s| && !IsBlank(s[p.start])
  {
    assert s[p.start..p.end][0] == s[p.start];
  }

  lemma SkipTo(s: string, pos: nat, p: nat)
    requires pos <= p < |s| && !IsBlank(s[p]) && forall i :: pos <= i < p ==> IsBlank(s[i])
    ensures Skip(s, pos) == p
  { }

  function NoBlanks(s: string): string {
    if s == "" then "" else (if IsBlank(s[0]) then "" else [s[0]]) + NoBlanks(s[1..])
  }

  function Texts(ts: seq<Tok>): string {
    if ts == [] then "" else TokText(ts[0]) + Texts(ts[1..])
  }

  lemma {:induction false} NoBlanksConcat(a: string, b: string)
    ensures NoBlanks(a + b) == NoBlanks(a) + NoBlanks(b)
  {
    if a == "" {
      assert a + b == b;
    } else {
      assert (a + b)[1..] == a[1..] + b;
      NoBlanksConcat(a[1..], b);
    }
  }

  lemma {:induction false} AllBlank(s: string)
    requires forall i :: 0 <= i < |s| ==> IsBlank(s[i])
    ensures NoBlanks(s) == ""
  {
    if s != "" { AllBlank(s[1..]); }
  }

  lemma {:induction false} NoneBlank(s: string)
    requires forall i :: 0 <= i < |s| ==> !IsBlank(s[i])
    ensures NoBlanks(s) == s
  {
    if s != "" { NoneBlank(s[1..]); }
  }

  lemma ThreeParts(blanks: string, text: string, rest: string)
    requires (forall i :: 0 <= i < |blanks| ==> IsBlank(blanks[i])) && forall i :: 0 <= i < |text| ==> !IsBlank(text[i])
    ensures NoBlanks(blanks + (text + rest)) == text + NoBlanks(rest)
  {
    AllBlank(blanks);
    NoneBlank(text);
    NoBlanksConcat(text, rest);
    NoBlanksConcat(blanks, text + rest);
  }

  /** Blanks, one token, and the rest of the line. */
  lemma OneText(s: string, pos: nat, p: Piece, t: Tok)
    requires pos <= p.start && IsToken(s, p, t) && forall i :: pos <= i < p.start && i < |s| ==> IsBlank(s[i])
    ensures p.start < p.end <= |s| && NoBlanks(s[pos..]) == TokText(t) + NoBlanks(s[p.end..])
  {
    TokenBlankless(s, p, t);
    hide IsBlank, IsToken, NoBlanks, TokText;
    ThreeParts(s[pos..p.start], s[p.start..p.end], s[p.end..]);
    assert s[pos..] == s[pos..p.start] + (s[p.start..p.end] + s[p.end..]);
  }

  /** The tokens' texts, one behind the other, are the line without its blanks. */
  lemma {:induction false} TextsAreLine(s: string, pos: nat, pieces: seq<Piece>, ts: seq<Tok>)
    requires Splits(s, pos, pieces, ts)
    ensures Texts(ts) == NoBlanks(s[pos..])
    decreases |pieces|
  {
    if pieces == [] {
      AllBlank(s[pos..]);
    } else {
      hide IsBlank, IsToken, NoBlanks, TokText;
      OneText(s, pos, pieces[0], ts[0]);
      TextsAreLine(s, pieces[0].end, pieces[1..], ts[1..]);
    }
  }

  lemma TokenBlankless(s: string, p: Piece, t: Tok)
    requires IsToken(s, p, t)
    ensures p.start < p.end <= |s| && s[p.start..p.end] == TokText(t)
    ensures forall i :: 0 <= i < p.end - p.start ==> !IsBlank(s[p.start..p.end][i])
  { }

  lemma NothingSwallowed(s: string)
    ensures Texts(Toks(s, 0)) == NoBlanks(s)
  {
    var pieces := LineSplits(s, 0);
    TextsAreLine(s, 0, pieces, Toks(s, 0));
    assert s[0..] == s;
  }

  // ----- the grammar -----

  /** Words and redirections of files, in any order. */
  datatype Items = Nothing | Arg(w: string, more: Items) | To(op: Tok, file: string, more: Items)

  datatype Command = Simple(items: Items) | Group(line: Line, redirs: Items)

  datatype Pipeline = One(c: Command) | Piped(c: Command, rest: Pipeline)

  /** A pipeline, any number of ampersands, and perhaps a semicolon and another line. */
  datatype Line = Last(p: Pipeline, amps: nat) | Then(p: Pipeline, amps: nat, line: Line)

  predicate IsArrow(t: Tok) { t == Sym('<') || t == Sym('>') || t == Append }

  function ArgsOf(items: Items): seq<string> {
    match items
    case Nothing => []
    case Arg(w, more) => [w] + ArgsOf(more)
    case To(_, _, more) => ArgsOf(more)
  }

  /** Redirections are by <, > and >>. */
  predicate ItemsOk(items: Items) {
    match items
    case Nothing => true
    case Arg(_, more) => ItemsOk(more)
    case To(op, _, more) => IsArrow(op) && ItemsOk(more)
  }

  /** At most MAXARGS - 1 words to a simple command, and none behind a group. */
  predicate CommandOk(c: Command) {
    match c
    case Simple(items) => |ArgsOf(items)| < MAXARGS && ItemsOk(items)
    case Group(line, redirs) => LineOk(line) && ItemsOk(redirs) && ArgsOf(redirs) == []
  }

  predicate PipelineOk(p: Pipeline) {
    match p
    case One(c) => CommandOk(c)
    case Piped(c, rest) => CommandOk(c) && PipelineOk(rest)
  }

  predicate LineOk(l: Line) {
    match l
    case Last(p, _) => PipelineOk(p)
    case Then(p, _, more) => PipelineOk(p) && LineOk(more)
  }

  // ----- how it is spelled, before the tokens of rest -----

  function SpellItems(items: Items, rest: seq<Tok>): seq<Tok> {
    match items
    case Nothing => rest
    case Arg(w, more) => [Word(w)] + SpellItems(more, rest)
    case To(op, file, more) => [op] + ([Word(file)] + SpellItems(more, rest))
  }

  function Amps(n: nat, rest: seq<Tok>): seq<Tok> {
    if n == 0 then rest else [Sym('&')] + Amps(n - 1, rest)
  }

  function SpellCommand(c: Command, rest: seq<Tok>): seq<Tok> {
    match c
    case Simple(items) => SpellItems(items, rest)
    case Group(line, redirs) => [Sym('(')] + SpellLine(line, [Sym(')')] + SpellItems(redirs, rest))
  }

  function SpellPipeline(p: Pipeline, rest: seq<Tok>): seq<Tok> {
    match p
    case One(c) => SpellCommand(c, rest)
    case Piped(c, more) => SpellCommand(c, [Sym('|')] + SpellPipeline(more, rest))
  }

  function SpellLine(l: Line, rest: seq<Tok>): seq<Tok> {
    match l
    case Last(p, n) => SpellPipeline(p, Amps(n, rest))
    case Then(p, n, more) => SpellPipeline(p, Amps(n, [Sym(';')] + SpellLine(more, rest)))
  }

  // ----- and what it means -----

  /** Redirections apply from the inside out; > and >> both open for writing. */
  function Redirected(c: Tree, items: Items): Tree
    decreases items
  {
    match items
    case Nothing => c
    case Arg(_, more) => Redirected(c, more)
    case To(op, file, more) => Redirected(Redir(c, file, if op == Sym('<') then In else Out), more)
  }

  function Background(c: Tree, n: nat): Tree {
    if n == 0 then c else Back(Background(c, n - 1))
  }

  /** The words of a simple command are its arguments, wherever redirections stand between them. */
  function CommandTree(c: Command): Tree {
    match c
    case Simple(items) => Redirected(Exec(ArgsOf(items)), items)
    case Group(line, redirs) => Redirected(LineTree(line), redirs)
  }

  function PipelineTree(p: Pipeline): Tree {
    match p
    case One(c) => CommandTree(c)
    case Piped(c, rest) => Pipe(CommandTree(c), PipelineTree(rest))
  }

  function LineTree(l: Line): Tree {
    match l
    case Last(p, n) => Background(PipelineTree(p), n)
    case Then(p, n, more) => List(Background(PipelineTree(p), n), LineTree(more))
  }

  // ----- simple commands -----

  function AddArgs(c: Tree, ws: seq<string>): Tree
    decreases |ws|
  {
    if ws == [] then c else AddArgs(AddArg(c, ws[0]), ws[1..])
  }

  /** What the parser makes of items, one after the other. */
  function Applied(c: Tree, items: Items): Tree
    decreases items
  {
    match items
    case Nothing => c
    case Arg(w, more) => Applied(AddArg(c, w), more)
    case To(op, file, more) => Applied(Redir(c, file, if op == Sym('<') then In else Out), more)
  }

  lemma {:induction false} AddArgsRedir(c: Tree, file: string, mode: Mode, ws: seq<string>)
    ensures AddArgs(Redir(c, file, mode), ws) == Redir(AddArgs(c, ws), file, mode)
    decreases |ws|
  {
    if ws != [] { AddArgsRedir(AddArg(c, ws[0]), file, mode, ws[1..]); }
  }

  lemma {:induction false} AddArgsExec(argv: seq<string>, ws: seq<string>)
    ensures AddArgs(Exec(argv), ws) == Exec(argv + ws)
    decreases |ws|
  {
    if ws == [] {
      assert argv + ws == argv;
    } else {
      AddArgsExec(argv + [ws[0]], ws[1..]);
      assert argv + [ws[0]] + ws[1..] == argv + ws;
    }
  }

  /** Words and redirections may be taken apart. */
  lemma {:induction false} AppliedApart(c: Tree, items: Items)
    ensures Applied(c, items) == Redirected(AddArgs(c, ArgsOf(items)), items)
    decreases items
  {
    match items
    case Nothing =>
    case Arg(w, more) =>
      assert ArgsOf(items)[0] == w && ArgsOf(items)[1..] == ArgsOf(more);
      AppliedApart(AddArg(c, w), more);
    case To(op, file, more) =>
      var mode := if op == Sym('<') then In else Out;
      AppliedApart(Redir(c, file, mode), more);
      AddArgsRedir(c, file, mode, ArgsOf(more));
  }

  lemma SimpleTree(items: Items)
    ensures Applied(Exec([]), items) == CommandTree(Simple(items))
  {
    AppliedApart(Exec([]), items);
    AddArgsExec([], ArgsOf(items));
    assert [] + ArgsOf(items) == ArgsOf(items);
  }

  // ----- the parser reads what the grammar spells -----

  lemma ArgStep(c: Tree, n: nat, w: string, rest: seq<Tok>)
    requires n + 1 < MAXARGS
    ensures RedirsThenArgs(c, n, [Word(w)] + rest) == RedirsThenArgs(AddArg(c, w), n + 1, rest)
  {
    var ts := [Word(w)] + rest;
    assert ts[0] == Word(w) && ts[1..] == rest;
  }

  lemma ArrowStep(c: Tree, n: nat, op: Tok, file: string, rest: seq<Tok>)
    requires IsArrow(op)
    ensures var d := Redir(c, file, if op == Sym('<') then In else Out); var ts := [op] + ([Word(file)] + rest);
      Redirs(c, ts) == Redirs(d, rest) && RedirsThenArgs(c, n, ts) == RedirsThenArgs(d, n, rest)
  {
    var ts := [op] + ([Word(file)] + rest);
    assert ts[0] == op && ts[1] == Word(file) && ts[2..] == rest;
  }

  lemma {:induction false} ItemsRead(c: Tree, n: nat, items: Items, rest: seq<Tok>)
    requires ItemsOk(items) && n + |ArgsOf(items)| < MAXARGS
    ensures RedirsThenArgs(c, n, SpellItems(items, rest))
         == RedirsThenArgs(Applied(c, items), n + |ArgsOf(items)|, rest)
    ensures ArgsOf(items) == [] ==> Redirs(c, SpellItems(items, rest)) == Redirs(Applied(c, items), rest)
    decreases items
  {
    hide RedirsThenArgs, Redirs;
    match items
    case Nothing =>
    case Arg(w, more) =>
      ArgStep(c, n, w, SpellItems(more, rest));
      ItemsRead(AddArg(c, w), n + 1, more, rest);
    case To(op, file, more) =>
      ArrowStep(c, n, op, file, SpellItems(more, rest));
      ItemsRead(Redir(c, file, if op == Sym('<') then In else Out), n, more, rest);
  }

  lemma StopsHere(c: Tree, n: nat, rest: seq<Tok>)
    requires Stops(rest)
    ensures RedirsThenArgs(c, n, rest) == Parsed(c, rest) && Redirs(c, rest) == Parsed(c, rest)
  { }

  lemma NoParenthesis(items: Items, rest: seq<Tok>)
    requires ItemsOk(items) && Stops(rest)
    ensures !Starts(SpellItems(items, rest), '(')
  { }

  lemma {:induction false} CommandReads(c: Command, rest: seq<Tok>)
    requires CommandOk(c) && Stops(rest)
    ensures ExecPart(SpellCommand(c, rest)) == Parsed(CommandTree(c), rest)
    decreases c
  {
    hide RedirsThenArgs, Redirs, LinePart;
    match c {
      case Simple(items) =>
        NoParenthesis(items, rest);
        ItemsRead(Exec([]), 0, items, rest);
        SimpleTree(items);
        StopsHere(CommandTree(c), |ArgsOf(items)|, rest);
      case Group(line, redirs) =>
        var more := [Sym(')')] + SpellItems(redirs, rest);
        assert SpellCommand(c, rest)[1..] == SpellLine(line, more) && more[1..] == SpellItems(redirs, rest);
        LineReads(line, more);
        ItemsRead(LineTree(line), 0, redirs, rest);
        AppliedApart(LineTree(line), redirs);
        StopsHere(CommandTree(c), 0, rest);
    }
  }

  lemma {:induction false} PipelineReads(p: Pipeline, rest: seq<Tok>)
    requires PipelineOk(p) && EndsPipe(rest)
    ensures PipePart(SpellPipeline(p, rest)) == Parsed(PipelineTree(p), rest)
    decreases p
  {
    hide ExecPart;
    match p {
      case One(c) => CommandReads(c, rest);
      case Piped(c, r) =>
        var more := [Sym('|')] + SpellPipeline(r, rest);
        CommandReads(c, more);
        assert more[1..] == SpellPipeline(r, rest);
        PipelineReads(r, rest);
    }
  }

  lemma {:induction false} AmpsRead(c: Tree, n: nat, rest: seq<Tok>)
    requires EndsPipe(rest) && !Starts(rest, '&')
    ensures Backs(c, Amps(n, rest)) == Parsed(Background(c, n), rest) && EndsPipe(Amps(n, rest))
    decreases n
  {
    if n > 0 {
      assert Amps(n, rest)[1..] == Amps(n - 1, rest);
      AmpsRead(Back(c), n - 1, rest);
      BackgroundBack(c, n - 1);
    }
  }

  lemma {:induction false} BackgroundBack(c: Tree, n: nat)
    ensures Background(Back(c), n) == Back(Background(c, n))
  {
    if n > 0 { BackgroundBack(c, n - 1); }
  }

  lemma {:induction false} LineReads(l: Line, rest: seq<Tok>)
    requires LineOk(l) && EndsLine(rest)
    ensures LinePart(SpellLine(l, rest)) == Parsed(LineTree(l), rest)
    decreases l
  {
    hide PipePart, Backs, Amps;
    var tree := PipelineTree(l.p);
    match l {
      case Last(p, n) =>
        AmpsRead(tree, n, rest);
        PipelineReads(p, Amps(n, rest));
      case Then(p, n, more) =>
        var next := [Sym(';')] + SpellLine(more, rest);
        AmpsRead(tree, n, next);
        PipelineReads(p, Amps(n, next));
        assert next[1..] == SpellLine(more, rest);
        LineReads(more, rest);
    }
  }

  // ----- and what the parser reads, the grammar spells -----

  lemma {:induction false} RedirsSpelled(c: Tree, ts: seq<Tok>) returns (items: Items)
    requires Redirs(c, ts).Parsed?
    ensures ItemsOk(items) && ArgsOf(items) == [] && ts == SpellItems(items, Redirs(c, ts).rest)
    ensures Redirs(c, ts).cmd == Redirected(c, items)
    decreases |ts|
  {
    if !StartsRedir(ts) {
      items := Nothing;
    } else {
      var more := RedirsSpelled(Redir(c, ts[1].w, if ts[0] == Sym('<') then In else Out), ts[2..]);
      items := To(ts[0], ts[1].w, more);
      assert ts == [ts[0]] + ([Word(ts[1].w)] + ts[2..]);
    }
  }

  lemma {:induction false} ItemsSpelled(c: Tree, n: nat, ts: seq<Tok>) returns (items: Items)
    requires RedirsThenArgs(c, n, ts).Parsed? && n < MAXARGS
    ensures var o := RedirsThenArgs(c, n, ts);
      && ItemsOk(items) && n + |ArgsOf(items)| < MAXARGS && ts == SpellItems(items, o.rest)
      && o.cmd == Applied(c, items) && Stops(o.rest)
    decreases |ts|
  {
    if StartsRedir(ts) {
      hide RedirsThenArgs;
      assert |ts| >= 2 && ts[1].Word? by { SomeFile(c, n, ts); }
      assert ts == [ts[0]] + ([Word(ts[1].w)] + ts[2..]);
      ArrowStep(c, n, ts[0], ts[1].w, ts[2..]);
      var more := ItemsSpelled(Redir(c, ts[1].w, if ts[0] == Sym('<') then In else Out), n, ts[2..]);
      items := To(ts[0], ts[1].w, more);
    } else if Stops(ts) {
      items := Nothing;
    } else {
      assert Redirs(c, ts) == Parsed(c, ts);
      assert ts[0].Word? && n + 1 < MAXARGS && ts == [Word(ts[0].w)] + ts[1..];
      ArgStep(c, n, ts[0].w, ts[1..]);
      var more := ItemsSpelled(AddArg(c, ts[0].w), n + 1, ts[1..]);
      items := Arg(ts[0].w, more);
    }
  }

  lemma SomeFile(c: Tree, n: nat, ts: seq<Tok>)
    requires RedirsThenArgs(c, n, ts).Parsed? && StartsRedir(ts)
    ensures |ts| >= 2 && ts[1].Word?
  { }

  lemma {:induction false} CommandSpelled(ts: seq<Tok>) returns (c: Command)
    requires ExecPart(ts).Parsed?
    ensures CommandOk(c) && ts == SpellCommand(c, ExecPart(ts).rest) && ExecPart(ts).cmd == CommandTree(c)
    decreases |ts|, 0
  {
    hide Redirs, RedirsThenArgs, LinePart;
    if Starts(ts, '(') {
      var o := LinePart(ts[1..]);
      var line := LineSpelled(ts[1..]);
      var redirs := RedirsSpelled(o.cmd, o.rest[1..]);
      c := Group(line, redirs);
      assert o.rest == [Sym(')')] + o.rest[1..] && ts == [Sym('(')] + ts[1..];
    } else {
      var items := ItemsSpelled(Exec([]), 0, ts);
      SimpleTree(items);
      c := Simple(items);
    }
  }

  lemma {:induction false} PipelineSpelled(ts: seq<Tok>) returns (p: Pipeline)
    requires PipePart(ts).Parsed?
    ensures PipelineOk(p) && ts == SpellPipeline(p, PipePart(ts).rest) && PipePart(ts).cmd == PipelineTree(p)
    decreases |ts|, 1
  {
    hide ExecPart;
    var o := ExecPart(ts);
    var c := CommandSpelled(ts);
    if Starts(o.rest, '|') {
      var rest := PipelineSpelled(o.rest[1..]);
      p := Piped(c, rest);
      assert o.rest == [Sym('|')] + o.rest[1..];
    } else {
      p := One(c);
    }
  }

  lemma {:induction false} AmpsSpelled(c: Tree, ts: seq<Tok>) returns (n: nat)
    ensures Backs(c, ts).cmd == Background(c, n) && ts == Amps(n, Backs(c, ts).rest)
    decreases |ts|
  {
    if Starts(ts, '&') {
      var k := AmpsSpelled(Back(c), ts[1..]);
      BackgroundBack(c, k);
      assert ts == [Sym('&')] + ts[1..];
      n := k + 1;
    } else {
      n := 0;
    }
  }

  lemma {:induction false} LineSpelled(ts: seq<Tok>) returns (l: Line)
    requires LinePart(ts).Parsed?
    ensures LineOk(l) && ts == SpellLine(l, LinePart(ts).rest) && LinePart(ts).cmd == LineTree(l)
    decreases |ts|, 2
  {
    hide PipePart, Backs, Amps;
    var o := PipePart(ts);
    var p := PipelineSpelled(ts);
    var n := AmpsSpelled(o.cmd, o.rest);
    var rest := Backs(o.cmd, o.rest).rest;
    if Starts(rest, ';') {
      var more := LineSpelled(rest[1..]);
      l := Then(p, n, more);
      assert rest == [Sym(';')] + rest[1..];
    } else {
      l := Last(p, n);
    }
  }

  /** The parser accepts exactly the token sequences that the grammar spells, and gives them the
      grammar's trees. */
  lemma ParsesGrammar(ts: seq<Tok>, c: Tree)
    ensures Parse(ts) == Parsed(c, []) <==> exists l: Line :: LineOk(l) && ts == SpellLine(l, []) && c == LineTree(l)
  {
    hide LinePart;
    if Parse(ts) == Parsed(c, []) {
      var l := LineSpelled(ts);
    } else if l: Line :| LineOk(l) && ts == SpellLine(l, []) && c == LineTree(l) {
      LineReads(l, []);
    }
  }
}
