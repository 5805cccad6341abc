/** The shell's command language: its tokens, the parser as a function of a token sequence, and the
    canonical printing that the parser inverts. */
module ShellSyntax {

  const MAXARGS: nat := 10

  /** The shell treats > and >> alike: both open for writing. */
  datatype Mode = In | Out

  /** A command tree.  W is a word's text, or the span of the input line where it stands. */
  datatype Cmd<W> =
    | Exec(argv: seq<W>)
    | Redir(cmd: Cmd<W>, file: W, mode: Mode)
    | Pipe(left: Cmd<W>, right: Cmd<W>)
    | List(left: Cmd<W>, right: Cmd<W>)
    | Back(cmd: Cmd<W>)

  datatype Tok = Sym(c: char) | Append | Word(w: string)

  type Tree = Cmd<string>

  // ----- characters and tokens -----

  predicate IsBlank(c: char) { c == ' ' || c == '\t' || c == '\r' || c == '\n' || c == '\U{0B}' }

  predicate IsSymbol(c: char) { c == '<' || c == '|' || c == '>' || c == '&' || c == ';' || c == '(' || c == ')' }

  predicate IsWordChar(c: char) { c != '\0' && !IsBlank(c) && !IsSymbol(c) }

  /** A C string of the line's characters: it ends at the first NUL, so it holds none. */
  predicate IsLine(s: string) { forall i :: 0 <= i < |s| ==> s[i] != '\0' }

  /** The first position from pos on that is not blank. */
  function Skip(s: string, pos: nat): (p: nat)
    requires pos <= |s|
    ensures pos <= p <= |s| && (p < |s| ==> !IsBlank(s[p]))
    ensures forall i :: pos <= i < p ==> IsBlank(s[i])
    decreases |s| - pos
  {
    if pos < |s| && IsBlank(s[pos]) then Skip(s, pos + 1) else pos
  }

  function WordEnd(s: string, pos: nat): (p: nat)
    requires pos <= |s|
    ensures pos <= p <= |s| && (p < |s| ==> IsBlank(s[p]) || IsSymbol(s[p]))
    ensures forall i :: pos <= i < p ==> !IsBlank(s[i]) && !IsSymbol(s[i])
    decreases |s| - pos
  {
    if pos < |s| && !IsBlank(s[pos]) && !IsSymbol(s[pos]) then WordEnd(s, pos + 1) else pos
  }

  /** The token that starts at p, where the line is neither over nor blank, and where it ends. */
  function TokAt(s: string, p: nat): Tok
    requires p < |s| && !IsBlank(s[p])
  {
    if s[p] == '>' && p + 1 < |s| && s[p + 1] == '>' then Append
    else if IsSymbol(s[p]) then Sym(s[p])
    else Word(s[p..WordEnd(s, p)])
  }

  function TokEnd(s: string, p: nat): (e: nat)
    requires p < |s| && !IsBlank(s[p])
    ensures p < e <= |s|
  {
    if s[p] == '>' && p + 1 < |s| && s[p + 1] == '>' then p + 2
    else if IsSymbol(s[p]) then p + 1
    else WordEnd(s, p)
  }

  /** The tokens of the line from pos on. */
  function Toks(s: string, pos: nat): seq<Tok>
    requires pos <= |s|
    decreases |s| - pos
  {
    var p := Skip(s, pos);
    if p == |s| then [] else [TokAt(s, p)] + Toks(s, TokEnd(s, p))
  }

  // ----- the parser on tokens -----

  datatype Outcome = Parsed(cmd: Tree, rest: seq<Tok>) | Panic

  predicate Starts(ts: seq<Tok>, c: char) { ts != [] && ts[0] == Sym(c) }

  predicate StartsRedir(ts: seq<Tok>) { Starts(ts, '<') || Starts(ts, '>') || (ts != [] && ts[0] == Append) }

  /** parseexec stops before these, and at the end of the line. */
  predicate Stops(ts: seq<Tok>) {
    ts == [] || Starts(ts, '|') || Starts(ts, ')') || Starts(ts, '&') || Starts(ts, ';')
  }

  predicate Shrinks(o: Outcome, ts: seq<Tok>) { o.Parsed? ==> |o.rest| <= |ts| }

  function Redirs(c: Tree, ts: seq<Tok>): (o: Outcome)
    ensures Shrinks(o, ts)
    ensures o.Parsed? ==> !StartsRedir(o.rest)
    decreases |ts|
  {
    if !StartsRedir(ts) then Parsed(c, ts)
    else if |ts| < 2 || !ts[1].Word? then Panic
    else Redirs(Redir(c, ts[1].w, if ts[0] == Sym('<') then In else Out), ts[2..])
  }

  /** Adds an argument to the command under a chain of redirections. */
  function AddArg<W>(c: Cmd<W>, w: W): Cmd<W> {
    match c
    case Exec(argv) => Exec(argv + [w])
    case Redir(sub, file, mode) => Redir(AddArg(sub, w), file, mode)
    case _ => c
  }

  /** parseexec from argument n on; redirections may stand between arguments. */
  function Args(c: Tree, n: nat, ts: seq<Tok>): (o: Outcome)
    ensures Shrinks(o, ts)
    decreases |ts|, 0
  {
    if Stops(ts) then Parsed(c, ts)
    else if !ts[0].Word? || n + 1 >= MAXARGS then Panic
    else RedirsThenArgs(AddArg(c, ts[0].w), n + 1, ts[1..])
  }

  function RedirsThenArgs(c: Tree, n: nat, ts: seq<Tok>): (o: Outcome)
    ensures Shrinks(o, ts)
    decreases |ts|, 1
  {
    match Redirs(c, ts)
    case Panic => Panic
    case Parsed(d, rest) => Args(d, n, rest)
  }

  function ExecPart(ts: seq<Tok>): (o: Outcome)
    ensures Shrinks(o, ts)
    decreases |ts|, 1
  {
    if Starts(ts, '(') then Block(ts) else RedirsThenArgs(Exec([]), 0, ts)
  }

  function Block(ts: seq<Tok>): (o: Outcome)
    requires Starts(ts, '(')
    ensures Shrinks(o, ts)
    decreases |ts|, 0
  {
    match LinePart(ts[1..])
    case Panic => Panic
    case Parsed(c, rest) => if Starts(rest, ')') then Redirs(c, rest[1..]) else Panic
  }

  function PipePart(ts: seq<Tok>): (o: Outcome)
    ensures Shrinks(o, ts)
    decreases |ts|, 2
  {
    match ExecPart(ts)
    case Panic => Panic
    case Parsed(c, rest) =>
      if !Starts(rest, '|') then Parsed(c, rest)
      else match PipePart(rest[1..])
        case Panic => Panic
        case Parsed(d, rest2) => Parsed(Pipe(c, d), rest2)
  }

  function Backs(c: Tree, ts: seq<Tok>): (o: Outcome)
    ensures o.Parsed? && Shrinks(o, ts)
    decreases |ts|
  {
    if Starts(ts, '&') then Backs(Back(c), ts[1..]) else Parsed(c, ts)
  }

  /** The end of a line after its first pipeline. */
  function LineTail(c: Tree, ts: seq<Tok>): (o: Outcome)
    ensures Shrinks(o, ts)
    decreases |ts|, 0
  {
    var b := Backs(c, ts);
    if !Starts(b.rest, ';') then b
    else match LinePart(b.rest[1..])
      case Panic => Panic
      case Parsed(d, rest) => Parsed(List(b.cmd, d), rest)
  }

  function LinePart(ts: seq<Tok>): (o: Outcome)
    ensures Shrinks(o, ts)
    decreases |ts|, 3
  {
    match PipePart(ts)
    case Panic => Panic
    case Parsed(c, rest) => LineTail(c, rest)
  }

  /** parsecmd: a whole line, nothing left over. */
  function Parse(ts: seq<Tok>): Outcome {
    var o := LinePart(ts);
    if o.Parsed? && o.rest == [] then o else Panic
  }

  // ----- canonical printing -----

  predicate LegalWord(w: string) { w != "" && forall i :: 0 <= i < |w| ==> IsWordChar(w[i]) }

  /** Legal words, and at most MAXARGS - 1 arguments to a command. */
  predicate Legal(c: Tree) {
    match c
    case Exec(argv) => |argv| < MAXARGS && forall i :: 0 <= i < |argv| ==> LegalWord(argv[i])
    case Redir(sub, file, _) => Legal(sub) && LegalWord(file)
    case Pipe(l, r) => Legal(l) && Legal(r)
    case List(l, r) => Legal(l) && Legal(r)
    case Back(sub) => Legal(sub)
  }

  function Words(argv: seq<string>): seq<Tok> {
    if argv == [] then [] else [Word(argv[0])] + Words(argv[1..])
  }

  function Arrow(file: string, mode: Mode): seq<Tok> { [Sym(if mode == In then '<' else '>'), Word(file)] }

  /** The grammar's levels: commands, pipelines, background lines, lists. */
  function Level(c: Tree): nat {
    match c
    case Exec(_) => 0
    case Redir(_, _, _) => 0
    case Pipe(_, _) => 1
    case Back(_) => 2
    case List(_, _) => 3
  }

  function Body(c: Tree): seq<Tok>
    decreases c, 0
  {
    match c
    case Exec(argv) => Words(argv)
    case Redir(sub, file, mode) => Print(sub, 0) + Arrow(file, mode)
    case Pipe(l, r) => Print(l, 0) + ([Sym('|')] + Print(r, 1))
    case Back(sub) => Print(sub, 2) + [Sym('&')]
    case List(l, r) => Print(l, 2) + ([Sym(';')] + Print(r, 3))
  }

  /** Prints c where the grammar wants a command of the given level, in parentheses if need be. */
  function Print(c: Tree, level: nat): seq<Tok>
    decreases c, 1
  {
    if level < Level(c) then [Sym('(')] + (Body(c) + [Sym(')')]) else Body(c)
  }

  function TokText(t: Tok): string {
    match t
    case Sym(c) => [c]
    case Append => ">>"
    case Word(w) => w
  }

  /** The canonical text: the tokens, each followed by a space. */
  function Show(ts: seq<Tok>): string {
    if ts == [] then "" else TokText(ts[0]) + " " + Show(ts[1..])
  }

  // ----- the parser inverts the printer -----

  /** A chain of redirections over a simple command. */
  predicate Simple(c: Tree) {
    c.Exec? || (c.Redir? && Simple(c.cmd))
  }

  function Argc(c: Tree): nat {
    match c
    case Exec(argv) => |argv|
    case Redir(sub, _, _) => Argc(sub)
    case _ => 0
  }

  /** What the parser does with the tokens after a printed command of the lowest level. */
  function Tail(c: Tree, ts: seq<Tok>): Outcome {
    if Simple(c) then RedirsThenArgs(c, Argc(c), ts) else Redirs(c, ts)
  }

  lemma {:induction false} WordsParse(done: seq<string>, argv: seq<string>, more: seq<Tok>)
    requires |done| + |argv| < MAXARGS
    ensures RedirsThenArgs(Exec(done), |done|, Words(argv) + more)
      == RedirsThenArgs(Exec(done + argv), |done + argv|, more)
    decreases |argv|
  {
    var ts := Words(argv) + more;
    if argv == [] {
      assert ts == more && done + argv == done;
    } else {
      assert ts[0] == Word(argv[0]) && ts[1..] == Words(argv[1..]) + more;
      assert RedirsThenArgs(Exec(done), |done|, ts) == RedirsThenArgs(Exec(done + [argv[0]]), |done| + 1, ts[1..]);
      WordsParse(done + [argv[0]], argv[1..], more);
      assert done + [argv[0]] + argv[1..] == done + argv;
    }
  }

  lemma ArrowParses(c: Tree, file: string, mode: Mode, more: seq<Tok>)
    ensures Tail(c, Arrow(file, mode) + more) == Tail(Redir(c, file, mode), more)
  {
    var ts := Arrow(file, mode) + more;
    assert ts[0] == Arrow(file, mode)[0] && ts[1] == Word(file) && ts[2..] == more;
  }

  lemma TailStops(c: Tree, rest: seq<Tok>)
    requires Stops(rest)
    ensures Tail(c, rest) == Parsed(c, rest)
  {
    assert Redirs(c, rest) == Parsed(c, rest);
    assert Args(c, Argc(c), rest) == Parsed(c, rest);
  }

  /** What may follow a pipeline, and a whole line. */
  predicate EndsPipe(ts: seq<Tok>) { Stops(ts) && !Starts(ts, '|') }

  predicate EndsLine(ts: seq<Tok>) { ts == [] || Starts(ts, ')') }

  lemma {:induction false} PipeBody(l: Tree, r: Tree, rest: seq<Tok>)
    requires Legal(l) && Legal(r) && EndsPipe(rest)
    ensures PipePart(Body(Pipe(l, r)) + rest) == Parsed(Pipe(l, r), rest)
    decreases Pipe(l, r), 0
  {
    var more := [Sym('|')] + (Print(r, 1) + rest);
    assert Body(Pipe(l, r)) + rest == Print(l, 0) + more;
    RoundExec(l, more);
    TailStops(l, more);
    assert more[1..] == Print(r, 1) + rest;
    RoundPipe(r, rest);
  }

  lemma {:induction false} BackBody(sub: Tree, rest: seq<Tok>)
    requires Legal(sub) && EndsPipe(rest)
    ensures LinePart(Body(Back(sub)) + rest) == LineTail(Back(sub), rest)
    decreases Back(sub), 0
  {
    var more := [Sym('&')] + rest;
    assert Body(Back(sub)) + rest == Print(sub, 2) + more;
    RoundBack(sub, more);
    assert more[1..] == rest;
  }

  lemma {:induction false} ListBody(l: Tree, r: Tree, rest: seq<Tok>)
    requires Legal(l) && Legal(r) && EndsLine(rest)
    ensures LinePart(Body(List(l, r)) + rest) == Parsed(List(l, r), rest)
    decreases List(l, r), 0
  {
    var more := [Sym(';')] + (Print(r, 3) + rest);
    assert Body(List(l, r)) + rest == Print(l, 2) + more;
    RoundBack(l, more);
    assert more[1..] == Print(r, 3) + rest;
    RoundLine(r, rest);
  }

  /** The inside of a pair of parentheses. */
  lemma {:induction false} BlockBody(c: Tree, rest: seq<Tok>)
    requires Legal(c) && EndsLine(rest) && Level(c) > 0
    ensures LinePart(Body(c) + rest) == Parsed(c, rest)
    decreases c, 1
  {
    match c
    case Pipe(l, r) => PipeBody(l, r, rest);
    case Back(sub) => BackBody(sub, rest);
    case List(l, r) => ListBody(l, r, rest);
  }

  lemma {:induction false} RoundExec(c: Tree, more: seq<Tok>)
    requires Legal(c) && !Starts(more, '(')
    ensures ExecPart(Print(c, 0) + more) == Tail(c, more)
    decreases c, 2
  {
    match c
    case Exec(argv) =>
      WordsParse([], argv, more);
      assert [] + argv == argv;
    case Redir(sub, file, mode) =>
      RoundExec(sub, Arrow(file, mode) + more);
      ArrowParses(sub, file, mode, more);
      assert Print(c, 0) + more == Print(sub, 0) + (Arrow(file, mode) + more);
    case _ =>
      var inside := Body(c) + ([Sym(')')] + more);
      assert Print(c, 0) + more == [Sym('(')] + inside;
      BlockBody(c, [Sym(')')] + more);
      assert ([Sym(')')] + more)[1..] == more && ([Sym('(')] + inside)[1..] == inside;
  }

  lemma {:induction false} RoundPipe(c: Tree, rest: seq<Tok>)
    requires Legal(c) && EndsPipe(rest)
    ensures PipePart(Print(c, 1) + rest) == Parsed(c, rest)
    decreases c, 3
  {
    if c.Pipe? {
      PipeBody(c.left, c.right, rest);
    } else {
      RoundExec(c, rest);
      TailStops(c, rest);
    }
  }

  lemma {:induction false} RoundBack(c: Tree, rest: seq<Tok>)
    requires Legal(c) && EndsPipe(rest)
    ensures LinePart(Print(c, 2) + rest) == LineTail(c, rest)
    decreases c, 4
  {
    if c.Back? {
      BackBody(c.cmd, rest);
    } else {
      RoundPipe(c, rest);
    }
  }

  lemma {:induction false} RoundLine(c: Tree, rest: seq<Tok>)
    requires Legal(c) && EndsLine(rest)
    ensures LinePart(Print(c, 3) + rest) == Parsed(c, rest)
    decreases c, 5
  {
    if c.List? {
      ListBody(c.left, c.right, rest);
    } else {
      RoundBack(c, rest);
    }
  }

  // ----- canonical text -----

  predicate LegalTok(t: Tok) {
    match t
    case Sym(c) => IsSymbol(c)
    case Append => true
    case Word(w) => LegalWord(w)
  }

  predicate AllLegal(ts: seq<Tok>) { forall i :: 0 <= i < |ts| ==> LegalTok(ts[i]) }

  /** A line that reads Show(ts) from pos on has the tokens ts there. */
  lemma {:induction false} ShowToks(s: string, pos: nat, ts: seq<Tok>)
    requires pos <= |s| && s[pos..] == Show(ts) && AllLegal(ts)
    ensures Toks(s, pos) == ts
    decreases |ts|
  {
    hide Toks, Skip, WordEnd;
    if ts != [] {
      var text := TokText(ts[0]);
      var after := pos + |text|;
      assert LegalTok(ts[0]);
      ShownParts(s, pos, text, Show(ts[1..]));
      ShowToks(s, after + 1, ts[1..]);
      BlankBefore(s, after);
      FirstTok(s, pos, ts[0], after);
    } else {
      NoToks(s, pos);
    }
  }

  lemma ShownParts(s: string, pos: nat, text: string, more: string)
    requires pos <= |s| && s[pos..] == text + " " + more
    ensures pos + |text| < |s| && s[pos + |text|] == ' '
    ensures s[pos..pos + |text|] == text && s[pos + |text| + 1..] == more
  {
    var shown, after := s[pos..], pos + |text|;
    assert s[pos..after] == shown[..|text|] == text;
    assert s[after] == shown[|text|] == ' ';
    assert s[after + 1..] == shown[|text| + 1..] == more;
  }

  lemma NoToks(s: string, pos: nat)
    requires pos == |s|
    ensures Toks(s, pos) == []
  { }

  lemma FirstTok(s: string, pos: nat, t: Tok, after: nat)
    requires pos < after < |s| && s[pos..after] == TokText(t) && s[after] == ' ' && LegalTok(t)
    ensures Toks(s, pos) == [t] + Toks(s, after)
  {
    var text := s[pos..after];
    assert forall i :: 0 <= i < |text| ==> s[pos + i] == text[i];
    assert s[pos] == text[0] && s[pos + 1] == if |text| > 1 then text[1] else ' ';
    if t.Word? {
      WordEndIs(s, pos, after);
    }
  }

  lemma BlankBefore(s: string, pos: nat)
    requires pos < |s| && IsBlank(s[pos])
    ensures Toks(s, pos) == Toks(s, pos + 1)
  { }

  lemma WordEndIs(s: string, pos: nat, end: nat)
    requires pos <= end < |s| && IsBlank(s[end])
    requires forall i :: pos <= i < end ==> IsWordChar(s[i])
    ensures WordEnd(s, pos) == end
  { }

  lemma {:induction false} PrintLegal(c: Tree, level: nat)
    requires Legal(c)
    ensures AllLegal(Print(c, level))
    decreases c
  {
    match c
    case Exec(argv) => WordsLegal(argv);
    case Redir(sub, _, _) => PrintLegal(sub, 0);
    case Pipe(l, r) => PrintLegal(l, 0); PrintLegal(r, 1);
    case Back(sub) => PrintLegal(sub, 2);
    case List(l, r) => PrintLegal(l, 2); PrintLegal(r, 3);
  }

  lemma {:induction false} WordsLegal(argv: seq<string>)
    requires forall i :: 0 <= i < |argv| ==> LegalWord(argv[i])
    ensures AllLegal(Words(argv))
  {
    if argv != [] { WordsLegal(argv[1..]); }
  }

  lemma {:induction false} ShowIsLine(ts: seq<Tok>)
    requires AllLegal(ts)
    ensures IsLine(Show(ts))
  {
    if ts != [] {
      assert LegalTok(ts[0]);
      ShowIsLine(ts[1..]);
    }
  }

  function Canonical(c: Tree): string { Show(Print(c, 3)) }

  /** Parsing the canonical text of any legal tree rebuilds it, and so does parsing any other
      line with the same tokens. */
  lemma RoundTrip(c: Tree)
    requires Legal(c)
    ensures IsLine(Canonical(c)) && Toks(Canonical(c), 0) == Print(c, 3)
    ensures Parse(Toks(Canonical(c), 0)) == Parsed(c, [])
  {
    PrintLegal(c, 3);
    ShowIsLine(Print(c, 3));
    ShowToks(Canonical(c), 0, Print(c, 3));
    RoundLine(c, []);
    assert Print(c, 3) + [] == Print(c, 3);
  }

  // ----- only legal trees come out of the parser -----

  lemma TokAtLegal(s: string, p: nat)
    requires IsLine(s) && p < |s| && !IsBlank(s[p])
    ensures LegalTok(TokAt(s, p))
  { }

  lemma {:induction false} ToksLegal(s: string, pos: nat)
    requires IsLine(s) && pos <= |s|
    ensures AllLegal(Toks(s, pos))
    decreases |s| - pos
  {
    hide TokAt, TokEnd, IsLine, IsBlank;
    var p := Skip(s, pos);
    if p < |s| {
      TokAtLegal(s, p);
      ToksLegal(s, TokEnd(s, p));
    }
  }

  ghost predicate LegalOutcome(o: Outcome) { o.Parsed? ==> Legal(o.cmd) && AllLegal(o.rest) }

  predicate SimpleWith(c: Tree, n: nat) { Simple(c) && Argc(c) == n }

  lemma {:induction false} RedirsLegal(c: Tree, ts: seq<Tok>)
    requires Legal(c) && AllLegal(ts)
    ensures LegalOutcome(Redirs(c, ts))
    ensures var o := Redirs(c, ts); o.Parsed? && Simple(c) ==> SimpleWith(o.cmd, Argc(c))
    decreases |ts|
  {
    if StartsRedir(ts) && |ts| >= 2 && ts[1].Word? {
      assert LegalTok(ts[1]);
      RedirsLegal(Redir(c, ts[1].w, if ts[0] == Sym('<') then In else Out), ts[2..]);
    }
  }

  lemma {:induction false} AddArgLegal(c: Tree, n: nat, w: string)
    requires Legal(c) && SimpleWith(c, n) && n + 1 < MAXARGS && LegalWord(w)
    ensures Legal(AddArg(c, w)) && SimpleWith(AddArg(c, w), n + 1)
    decreases c
  {
    if c.Redir? { AddArgLegal(c.cmd, n, w); }
  }

  lemma {:induction false} ArgsLegal(c: Tree, n: nat, ts: seq<Tok>)
    requires Legal(c) && SimpleWith(c, n) && AllLegal(ts)
    ensures LegalOutcome(Args(c, n, ts))
    decreases |ts|
  {
    if !Stops(ts) && ts[0].Word? && n + 1 < MAXARGS {
      assert LegalTok(ts[0]);
      AddArgLegal(c, n, ts[0].w);
      var d := AddArg(c, ts[0].w);
      RedirsLegal(d, ts[1..]);
      var o := Redirs(d, ts[1..]);
      if o.Parsed? { ArgsLegal(o.cmd, n + 1, o.rest); }
    }
  }

  lemma {:induction false} ExecLegal(ts: seq<Tok>)
    requires AllLegal(ts)
    ensures LegalOutcome(ExecPart(ts))
    decreases |ts|, 1
  {
    if Starts(ts, '(') {
      LineLegal(ts[1..]);
      var o := LinePart(ts[1..]);
      if o.Parsed? && Starts(o.rest, ')') { RedirsLegal(o.cmd, o.rest[1..]); }
    } else {
      RedirsLegal(Exec([]), ts);
      var o := Redirs(Exec([]), ts);
      if o.Parsed? { ArgsLegal(o.cmd, 0, o.rest); }
    }
  }

  lemma {:induction false} PipeLegal(ts: seq<Tok>)
    requires AllLegal(ts)
    ensures LegalOutcome(PipePart(ts))
    decreases |ts|, 2
  {
    ExecLegal(ts);
    var o := ExecPart(ts);
    if o.Parsed? && Starts(o.rest, '|') { PipeLegal(o.rest[1..]); }
  }

  lemma {:induction false} BacksLegal(c: Tree, ts: seq<Tok>)
    requires Legal(c) && AllLegal(ts)
    ensures LegalOutcome(Backs(c, ts))
    decreases |ts|
  {
    if Starts(ts, '&') { BacksLegal(Back(c), ts[1..]); }
  }

  lemma {:induction false} LineLegal(ts: seq<Tok>)
    requires AllLegal(ts)
    ensures LegalOutcome(LinePart(ts))
    decreases |ts|, 3
  {
    PipeLegal(ts);
    var o := PipePart(ts);
    if o.Parsed? {
      BacksLegal(o.cmd, o.rest);
      var b := Backs(o.cmd, o.rest);
      if Starts(b.rest, ';') { LineLegal(b.rest[1..]); }
    }
  }

  ghost predicate ParsesTo(s: string, c: Tree) {
    IsLine(s) && Parse(Toks(s, 0)) == Parsed(c, [])
  }

  /** The trees that some line parses to are exactly the legal ones. */
  lemma Parseable(c: Tree)
    ensures (exists s :: ParsesTo(s, c)) <==> Legal(c)
  {
    if s :| ParsesTo(s, c) {
      ToksLegal(s, 0);
      LineLegal(Toks(s, 0));
    }
    if Legal(c) {
      RoundTrip(c);
      assert ParsesTo(Canonical(c), c);
    }
  }
}
