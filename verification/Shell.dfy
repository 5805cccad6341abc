/** The shell's recursive-descent parser over a cursor into the input line, and the pass that
    NUL-terminates the words of the parsed command inside the line's own buffer. */
module Shell {
  import opened ShellSyntax

  /** A word as the parser keeps it: pointers to its first character and past its last. */
  datatype Span = Span(start: nat, end: nat)

  type SpanTree = Cmd<Span>

  /** A maximal run of word characters. */
  ghost predicate WordSpan(s: string, w: Span) {
    && w.start < w.end <= |s|
    && (forall i :: w.start <= i < w.end ==> IsWordChar(s[i]))
    && (w.end < |s| ==> !IsWordChar(s[w.end]))
  }

  ghost predicate Spanned(s: string, c: SpanTree) {
    match c
    case Exec(argv) => forall i :: 0 <= i < |argv| ==> WordSpan(s, argv[i])
    case Redir(sub, file, _) => Spanned(s, sub) && WordSpan(s, file)
    case Pipe(l, r) => Spanned(s, l) && Spanned(s, r)
    case List(l, r) => Spanned(s, l) && Spanned(s, r)
    case Back(sub) => Spanned(s, sub)
  }

  ghost function Slice(s: string, w: Span): string {
    if w.start <= w.end <= |s| then s[w.start..w.end] else ""
  }

  /** The tree with each span replaced by the text it spans. */
  ghost function Text(s: string, c: SpanTree): Tree {
    match c
    case Exec(argv) => Exec(seq(|argv|, i requires 0 <= i < |argv| => Slice(s, argv[i])))
    case Redir(sub, file, mode) => Redir(Text(s, sub), Slice(s, file), mode)
    case Pipe(l, r) => Pipe(Text(s, l), Text(s, r))
    case List(l, r) => List(Text(s, l), Text(s, r))
    case Back(sub) => Back(Text(s, sub))
  }

  lemma {:induction false} AddArgText(s: string, c: SpanTree, w: Span)
    requires Spanned(s, c) && WordSpan(s, w)
    ensures Spanned(s, AddArg(c, w)) && Text(s, AddArg(c, w)) == AddArg(Text(s, c), Slice(s, w))
    decreases c
  {
    if c.Redir? { AddArgText(s, c.cmd, w); }
  }

  lemma ExecText(s: string)
    ensures Text(s, Exec([])) == Exec([]) && Spanned(s, Exec([]))
  { }

  // ----- tokens -----

  /** What gettoken returns for a token. */
  function Kind(t: Tok): char {
    match t
    case Sym(c) => c
    case Append => '+'
    case Word(_) => 'a'
  }

  method SkipBlanks(s: string, pos: nat) returns (p: nat)
    requires pos <= |s|
    ensures p == Skip(s, pos)
  {
    p := pos;
    while p < |s| && IsBlank(s[p])
      invariant pos <= p <= |s| && Skip(s, p) == Skip(s, pos)
    {
      p := p + 1;
    }
  }

  lemma SkipToks(s: string, pos: nat)
    requires pos <= |s|
    ensures Skip(s, Skip(s, pos)) == Skip(s, pos) && Toks(s, Skip(s, pos)) == Toks(s, pos)
  { }

  /** gettoken: takes the first token off the line, and says where it stands. */
  method GetToken(s: string, pos: nat) returns (ret: char, q: nat, eq: nat, next: nat)
    requires IsLine(s) && pos <= |s|
    ensures pos <= next <= |s|
    ensures ret == '\0' <==> Toks(s, pos) == []
    ensures ret == '\0' ==> Toks(s, next) == []
    ensures ret != '\0' ==>
      pos < next && Toks(s, pos) == [Toks(s, pos)[0]] + Toks(s, next) && ret == Kind(Toks(s, pos)[0])
    ensures ret == 'a' ==> WordSpan(s, Span(q, eq)) && Toks(s, pos)[0] == Word(s[q..eq])
  {
    var p := SkipBlanks(s, pos);
    q := p;
    if p == |s| {
      return '\0', q, p, p;
    }
    ret := s[p];
    if s[p] == '>' {
      p := p + 1;
      if p < |s| && s[p] == '>' {
        ret := '+';
        p := p + 1;
      }
    } else if s[p] == '|' || s[p] == '(' || s[p] == ')' || s[p] == ';' || s[p] == '&' || s[p] == '<' {
      p := p + 1;
    } else {
      ret := 'a';
      while p < |s| && !IsBlank(s[p]) && !IsSymbol(s[p])
        invariant q <= p <= |s| && WordEnd(s, p) == WordEnd(s, q)
        invariant forall i :: q <= i < p ==> IsWordChar(s[i])
      {
        p := p + 1;
      }
    }
    eq := p;
    assert p == TokEnd(s, q);
    SkipToks(s, p);
    next := SkipBlanks(s, p);
  }

  /** gettoken without q and eq. */
  method DropToken(s: string, pos: nat) returns (ret: char, next: nat)
    requires IsLine(s) && pos <= |s|
    ensures pos <= next <= |s|
    ensures ret == '\0' <==> Toks(s, pos) == []
    ensures ret != '\0' ==>
      pos < next && Toks(s, pos) == [Toks(s, pos)[0]] + Toks(s, next) && ret == Kind(Toks(s, pos)[0])
  {
    var r, _, _, n := GetToken(s, pos);
    ret, next := r, n;
  }

  /** peek: moves past blanks, and says whether the next character is one of toks. */
  method Peek(s: string, pos: nat, toks: string) returns (hit: bool, next: nat)
    requires pos <= |s|
    ensures pos <= next <= |s| && next == Skip(s, pos) && Toks(s, next) == Toks(s, pos)
    ensures hit <==> next < |s| && s[next] in toks
  {
    next := SkipBlanks(s, pos);
    SkipToks(s, pos);
    hit := next < |s| && s[next] in toks;
  }

  /** The next character decides what the first token is. */
  lemma FirstChar(s: string, pos: nat)
    requires pos <= |s|
    ensures var ts, p := Toks(s, pos), Skip(s, pos);
      && (ts == [] <==> p == |s|)
      && (forall c | IsSymbol(c) && c != '>' :: Starts(ts, c) <==> p < |s| && s[p] == c)
      && (StartsRedir(ts) <==> p < |s| && s[p] in "<>")
      && (Stops(ts) <==> p == |s| || s[p] in "|)&;")
  { }

  // ----- the parser -----

  /** A parsing method's result against that of the parser on tokens. */
  ghost predicate Agrees(s: string, o: Outcome, ok: bool, c: SpanTree, p: nat) {
    if ok then p <= |s| && Spanned(s, c) && o == Parsed(Text(s, c), Toks(s, p)) else o == Panic
  }

  method ParseRedirs(s: string, cmd: SpanTree, pos: nat) returns (ok: bool, c: SpanTree, p: nat)
    requires IsLine(s) && pos <= |s| && Spanned(s, cmd)
    ensures p >= pos && Agrees(s, Redirs(Text(s, cmd), Toks(s, pos)), ok, c, p)
  {
    hide Toks, IsLine, WordSpan, Args;
    c, p := cmd, pos;
    FirstChar(s, p);
    var more;
    more, p := Peek(s, p, "<>");
    while more
      invariant pos <= p <= |s| && Spanned(s, c)
      invariant Redirs(Text(s, cmd), Toks(s, pos)) == Redirs(Text(s, c), Toks(s, p))
      invariant more <==> StartsRedir(Toks(s, p))
      decreases |s| - p
    {
      ghost var ts := Toks(s, p);
      var tok, q, eq;
      tok, p := DropToken(s, p);
      var word;
      word, q, eq, p := GetToken(s, p);
      if word != 'a' {
        return false, c, p;
      }
      c := Redir(c, Span(q, eq), if tok == '<' then In else Out);
      assert ts[2..] == Toks(s, p);
      FirstChar(s, p);
      more, p := Peek(s, p, "<>");
    }
    ok := true;
  }

  method ParseExec(s: string, pos: nat) returns (ok: bool, c: SpanTree, p: nat)
    requires IsLine(s) && pos <= |s|
    ensures p >= pos && Agrees(s, ExecPart(Toks(s, pos)), ok, c, p)
    decreases |s| - pos, 1
  {
    hide Toks, IsLine, WordSpan, Redirs, Block, Text, Spanned;
    FirstChar(s, pos);
    var block;
    block, p := Peek(s, pos, "(");
    if block {
      ok, c, p := ParseBlock(s, p);
      return;
    }
    var argc := 0;
    ExecText(s);
    ok, c, p := ParseRedirs(s, Exec([]), p);
    if !ok { return; }
    FirstChar(s, p);
    var stop;
    stop, p := Peek(s, p, "|)&;");
    while !stop
      invariant pos <= p <= |s| && Spanned(s, c)
      invariant ExecPart(Toks(s, pos)) == Args(Text(s, c), argc, Toks(s, p))
      invariant stop ==> Stops(Toks(s, p))
      invariant !stop ==> Stops(Toks(s, p)) ==> Toks(s, p) == []
      decreases |s| - p
    {
      ghost var ts := Toks(s, p);
      var tok, q, eq;
      tok, q, eq, p := GetToken(s, p);
      if tok == '\0' { break; }
      if tok != 'a' {
        return false, c, p;
      }
      AddArgText(s, c, Span(q, eq));
      c := AddArg(c, Span(q, eq));
      argc := argc + 1;
      if argc >= MAXARGS {
        return false, c, p;
      }
      ok, c, p := ParseRedirs(s, c, p);
      if !ok { return; }
      FirstChar(s, p);
      stop, p := Peek(s, p, "|)&;");
    }
    ok := true;
  }

  method ParseBlock(s: string, pos: nat) returns (ok: bool, c: SpanTree, p: nat)
    requires IsLine(s) && pos <= |s| && Starts(Toks(s, pos), '(')
    ensures p >= pos && Agrees(s, Block(Toks(s, pos)), ok, c, p)
    decreases |s| - pos, 0
  {
    hide Toks, IsLine, WordSpan, Redirs, LinePart, Text, Spanned;
    var tok;
    tok, p := DropToken(s, pos);
    ok, c, p := ParseLine(s, p);
    if !ok { return; }
    FirstChar(s, p);
    ok, p := Peek(s, p, ")");
    if !ok { return; }
    tok, p := DropToken(s, p);
    ok, c, p := ParseRedirs(s, c, p);
  }

  method ParsePipe(s: string, pos: nat) returns (ok: bool, c: SpanTree, p: nat)
    requires IsLine(s) && pos <= |s|
    ensures p >= pos && Agrees(s, PipePart(Toks(s, pos)), ok, c, p)
    decreases |s| - pos, 2
  {
    hide Toks, IsLine, WordSpan, ExecPart;
    var tok;
    ok, c, p := ParseExec(s, pos);
    if !ok { return; }
    FirstChar(s, p);
    var more;
    more, p := Peek(s, p, "|");
    if more {
      tok, p := DropToken(s, p);
      var right;
      ok, right, p := ParsePipe(s, p);
      c := Pipe(c, right);
    }
  }

  method ParseLine(s: string, pos: nat) returns (ok: bool, c: SpanTree, p: nat)
    requires IsLine(s) && pos <= |s|
    ensures p >= pos && Agrees(s, LinePart(Toks(s, pos)), ok, c, p)
    decreases |s| - pos, 3
  {
    hide Toks, IsLine, WordSpan, PipePart;
    var tok;
    ok, c, p := ParsePipe(s, pos);
    if !ok { return; }
    FirstChar(s, p);
    var more;
    more, p := Peek(s, p, "&");
    while more
      invariant pos <= p <= |s| && Spanned(s, c)
      invariant LinePart(Toks(s, pos)) == LineTail(Text(s, c), Toks(s, p))
      invariant more <==> Starts(Toks(s, p), '&')
      decreases |s| - p
    {
      tok, p := DropToken(s, p);
      c := Back(c);
      FirstChar(s, p);
      more, p := Peek(s, p, "&");
    }
    FirstChar(s, p);
    more, p := Peek(s, p, ";");
    if more {
      tok, p := DropToken(s, p);
      var right;
      ok, right, p := ParseLine(s, p);
      c := List(c, right);
    }
  }

  // ----- NUL-terminating the words in place -----

  /** Where the words of a command end. */
  ghost function Ends(c: SpanTree): set<nat> {
    match c
    case Exec(argv) => set i | 0 <= i < |argv| :: argv[i].end
    case Redir(sub, file, _) => Ends(sub) + {file.end}
    case Pipe(l, r) => Ends(l) + Ends(r)
    case List(l, r) => Ends(l) + Ends(r)
    case Back(sub) => Ends(sub)
  }

  ghost predicate Nulled(was: seq<char>, now: seq<char>, at: set<nat>) {
    && |now| == |was|
    && forall i: nat :: i < |now| ==> now[i] == if i in at then '\0' else was[i]
  }

  /** nulterminate: a NUL after each word, nothing else changed. */
  method NulTerminate(c: SpanTree, buf: array<char>)
    requires forall e :: e in Ends(c) ==> e < buf.Length
    modifies buf
    ensures Nulled(old(buf[..]), buf[..], Ends(c))
    decreases c
  {
    match c
    case Exec(argv) =>
      var i := 0;
      while i < |argv|
        invariant 0 <= i <= |argv|
        invariant Nulled(old(buf[..]), buf[..], set k | 0 <= k < i :: argv[k].end)
      {
        assert argv[i].end in Ends(c);
        buf[argv[i].end] := '\0';
        i := i + 1;
      }
    case Redir(sub, file, _) =>
      assert Ends(c) == Ends(sub) + {file.end};
      NulTerminate(sub, buf);
      buf[file.end] := '\0';
    case Pipe(l, r) =>
      assert Ends(c) == Ends(l) + Ends(r);
      NulTerminate(l, buf);
      NulTerminate(r, buf);
    case List(l, r) =>
      assert Ends(c) == Ends(l) + Ends(r);
      NulTerminate(l, buf);
      NulTerminate(r, buf);
    case Back(sub) =>
      assert Ends(c) == Ends(sub);
      NulTerminate(sub, buf);
  }

  /** The C string that starts at a position of a buffer. */
  ghost function CString(buf: seq<char>, start: nat): string
    decreases |buf| - start
  {
    if start >= |buf| || buf[start] == '\0' then "" else [buf[start]] + CString(buf, start + 1)
  }

  /** The tree as the rest of the shell sees it: each word read as a C string. */
  ghost function ReadBack(buf: seq<char>, c: SpanTree): Tree {
    match c
    case Exec(argv) => Exec(seq(|argv|, i requires 0 <= i < |argv| => CString(buf, argv[i].start)))
    case Redir(sub, file, mode) => Redir(ReadBack(buf, sub), CString(buf, file.start), mode)
    case Pipe(l, r) => Pipe(ReadBack(buf, l), ReadBack(buf, r))
    case List(l, r) => List(ReadBack(buf, l), ReadBack(buf, r))
    case Back(sub) => Back(ReadBack(buf, sub))
  }

  /** No word ends inside a word: where one ends there is no word character. */
  lemma {:induction false} EndsOutside(s: string, c: SpanTree, e: nat)
    requires Spanned(s, c) && e in Ends(c)
    ensures e <= |s| && (e < |s| ==> !IsWordChar(s[e]))
    decreases c
  {
    match c
    case Exec(argv) =>
    case Redir(sub, file, _) => if e in Ends(sub) { EndsOutside(s, sub, e); }
    case Pipe(l, r) => if e in Ends(l) { EndsOutside(s, l, e); } else { EndsOutside(s, r, e); }
    case List(l, r) => if e in Ends(l) { EndsOutside(s, l, e); } else { EndsOutside(s, r, e); }
    case Back(sub) => EndsOutside(s, sub, e);
  }

  /** The NULs stand at ends of words only, as far as the line goes. */
  ghost predicate Outside(s: string, at: set<nat>) {
    forall e :: e in at ==> e <= |s| && (e < |s| ==> !IsWordChar(s[e]))
  }

  lemma {:induction false} SpanReads(s: string, buf: seq<char>, at: set<nat>, from: nat, w: Span)
    requires |buf| > |s| && Nulled(s + ['\0'], buf[..|s| + 1], at) && Outside(s, at)
    requires WordSpan(s, w) && w.end in at && w.start <= from <= w.end
    ensures CString(buf, from) == s[from..w.end]
    decreases w.end - from
  {
    var line, now := s + ['\0'], buf[..|s| + 1];
    assert now[from] == buf[from];
    if from < w.end {
      assert IsWordChar(s[from]) && from !in at && line[from] == s[from];
      SpanReads(s, buf, at, from + 1, w);
    }
  }

  lemma {:induction false} ReadsBack(s: string, buf: seq<char>, at: set<nat>, c: SpanTree)
    requires |buf| > |s| && Nulled(s + ['\0'], buf[..|s| + 1], at) && Outside(s, at)
    requires Spanned(s, c) && Ends(c) <= at
    ensures ReadBack(buf, c) == Text(s, c)
    decreases c
  {
    hide Nulled, Outside, WordSpan, CString;
    match c
    case Exec(argv) =>
      forall i | 0 <= i < |argv| ensures CString(buf, argv[i].start) == Slice(s, argv[i]) {
        assert argv[i].end in Ends(c);
        SpanIs(s, buf, at, argv[i]);
      }
    case Redir(sub, file, _) =>
      ReadsBack(s, buf, at, sub);
      assert file.end in Ends(c);
      SpanIs(s, buf, at, file);
    case Pipe(l, r) => ReadsBack(s, buf, at, l); ReadsBack(s, buf, at, r);
    case List(l, r) => ReadsBack(s, buf, at, l); ReadsBack(s, buf, at, r);
    case Back(sub) => ReadsBack(s, buf, at, sub);
  }

  lemma SpanIs(s: string, buf: seq<char>, at: set<nat>, w: Span)
    requires |buf| > |s| && Nulled(s + ['\0'], buf[..|s| + 1], at) && Outside(s, at)
    requires WordSpan(s, w) && w.end in at
    ensures CString(buf, w.start) == Slice(s, w)
  {
    SpanReads(s, buf, at, w.start, w);
  }

  method StrLen(buf: array<char>) returns (n: nat)
    requires exists i :: 0 <= i < buf.Length && buf[i] == '\0'
    ensures n < buf.Length && buf[n] == '\0' && IsLine(buf[..n])
  {
    n := 0;
    while buf[n] != '\0'
      invariant n < buf.Length && IsLine(buf[..n])
      invariant exists i :: n <= i < buf.Length && buf[i] == '\0'
      decreases buf.Length - n
    {
      n := n + 1;
    }
  }

  /** parsecmd: the tree it returns, its words read as C strings out of the modified buffer, is
      exactly what the line's tokens parse to. */
  method ParseCmd(buf: array<char>) returns (ok: bool, c: SpanTree, ghost line: string)
    requires exists i :: 0 <= i < buf.Length && buf[i] == '\0'
    modifies buf
    ensures |line| < buf.Length && line == old(buf[..])[..|line|] && old(buf[..])[|line|] == '\0' && IsLine(line)
    ensures ok ==> Parse(Toks(line, 0)) == Parsed(ReadBack(buf[..], c), [])
    ensures !ok ==> Parse(Toks(line, 0)) == Panic && buf[..] == old(buf[..])
  {
    var n := StrLen(buf);
    var s := buf[..n];
    line := s;
    var p;
    ok, c, p := ParseLine(s, 0);
    if !ok { return; }
    FirstChar(s, p);
    var left;
    left, p := Peek(s, p, "");
    if p != n {
      ok := false;
      return;
    }
    forall e | e in Ends(c) ensures e <= n && (e < n ==> !IsWordChar(s[e])) {
      EndsOutside(s, c, e);
    }
    NulTerminate(c, buf);
    assert old(buf[..])[..n + 1] == s + ['\0'];
    ReadsBack(s, buf[..], Ends(c), c);
  }
}
