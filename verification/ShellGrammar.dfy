/** The shell's command language: trees, the parser of sh.c as a function of
    the text that is left, a printer, and the proof that they undo each other. */
module ShellGrammar {

  const MAXARGS: nat := 10

  predicate IsSpace(c: char) {
    c == ' ' || c == '\t' || c == '\r' || c == '\n' || c == '\U{000B}'
  }

  predicate IsSymbol(c: char) {
    c == '<' || c == '|' || c == '>' || c == '&' || c == ';' || c == '(' || c == ')'
  }

  predicate IsWordChar(c: char) {
    !IsSpace(c) && !IsSymbol(c)
  }

  /** out tells > from <; >> builds the same node as >. */
  datatype Redirection = Redirection(file: string, out: bool)

  datatype Tree =
    | Exec(words: seq<string>)
    | Redir(cmd: Tree, to: Redirection)
    | Pipe(left: Tree, right: Tree)
    | List(left: Tree, right: Tree)
    | Back(cmd: Tree)

  datatype Parsed<T> = Ok(value: T, rest: string) | Fail

  // ---- Scanning -------------------------------------------------------------------

  predicate Skipped(s: string) {
    s == "" || !IsSpace(s[0])
  }

  function Skip(s: string): (r: string)
    ensures |r| <= |s| && Skipped(r)
  {
    if s == "" || !IsSpace(s[0]) then s else Skip(s[1..])
  }

  /** The length of the word at the front of s. */
  function WordLen(s: string): (n: nat)
    ensures n <= |s|
    ensures forall i :: 0 <= i < n ==> IsWordChar(s[i])
    ensures n == |s| || !IsWordChar(s[n])
  {
    if s == "" || !IsWordChar(s[0]) then 0 else 1 + WordLen(s[1..])
  }

  /** peek for one symbol: the text after blanks starts with c. */
  predicate Sees(s: string, c: char) {
    Skip(s) != "" && Skip(s)[0] == c
  }

  // ---- The parser ------------------------------------------------------------------

  /** parseredirs, collecting what it wraps around the command. */
  function Redirs(rs: seq<Redirection>, s: string): (p: Parsed<seq<Redirection>>)
    ensures p.Ok? ==> |p.rest| <= |s| && Skipped(p.rest)
    decreases |s|
  {
    var r := Skip(s);
    if r != "" && (r[0] == '<' || r[0] == '>') then
      var after := if r[0] == '>' && |r| > 1 && r[1] == '>' then r[2..] else r[1..];
      var f := Skip(after);
      var n := WordLen(f);
      if n == 0 then Fail
      else Redirs(rs + [Redirection(f[..n], r[0] == '>')], Skip(f[n..]))
    else Ok(rs, r)
  }

  function Wrap(t: Tree, rs: seq<Redirection>): Tree {
    if rs == [] then t else Redir(Wrap(t, rs[..|rs| - 1]), rs[|rs| - 1])
  }

  /** The loop of parseexec. */
  function Args(words: seq<string>, rs: seq<Redirection>, s: string): (p: Parsed<Tree>)
    ensures p.Ok? ==> |p.rest| <= |s| && Skipped(p.rest)
    decreases |s|
  {
    var r := Skip(s);
    if r == "" || r[0] == '|' || r[0] == ')' || r[0] == '&' || r[0] == ';' then
      Ok(Wrap(Exec(words), rs), r)
    else
      var n := WordLen(r);
      if n == 0 || |words| + 1 >= MAXARGS then Fail
      else
        match Redirs(rs, Skip(r[n..]))
        case Fail => Fail
        case Ok(more, rest) => Args(words + [r[..n]], more, rest)
  }

  function ParseExec(s: string): (p: Parsed<Tree>)
    ensures p.Ok? ==> |p.rest| <= |s| && Skipped(p.rest)
    decreases |s|, 1
  {
    if Sees(s, '(') then ParseBlock(Skip(s))
    else
      match Redirs([], Skip(s))
      case Fail => Fail
      case Ok(rs, rest) => Args([], rs, rest)
  }

  /** parseblock, at its opening parenthesis. */
  function ParseBlock(s: string): (p: Parsed<Tree>)
    requires s != "" && s[0] == '('
    ensures p.Ok? ==> |p.rest| <= |s| && Skipped(p.rest)
    decreases |s|, 0
  {
    match ParseLine(Skip(s[1..]))
    case Fail => Fail
    case Ok(t, rest) =>
      if !Sees(rest, ')') then Fail
      else
        match Redirs([], Skip(Skip(rest)[1..]))
        case Fail => Fail
        case Ok(rs, rest') => Ok(Wrap(t, rs), rest')
  }

  function ParsePipe(s: string): (p: Parsed<Tree>)
    ensures p.Ok? ==> |p.rest| <= |s| && Skipped(p.rest)
    decreases |s|, 2
  {
    match ParseExec(s)
    case Fail => Fail
    case Ok(t, rest) =>
      if Sees(rest, '|') then
        match ParsePipe(Skip(Skip(rest)[1..]))
        case Fail => Fail
        case Ok(t', rest') => Ok(Pipe(t, t'), rest')
      else Ok(t, Skip(rest))
  }

  /** The loop of parseline over the ampersands. */
  function Backs(t: Tree, s: string): (p: Parsed<Tree>)
    ensures p.Ok? && |p.rest| <= |s| && Skipped(p.rest)
    decreases |s|
  {
    if Sees(s, '&') then Backs(Back(t), Skip(Skip(s)[1..])) else Ok(t, Skip(s))
  }

  /** parseline up to the semicolon. */
  function ParseAmp(s: string): (p: Parsed<Tree>)
    ensures p.Ok? ==> |p.rest| <= |s| && Skipped(p.rest)
    decreases |s|, 3
  {
    match ParsePipe(s)
    case Fail => Fail
    case Ok(t, rest) => Backs(t, rest)
  }

  function ParseLine(s: string): (p: Parsed<Tree>)
    ensures p.Ok? ==> |p.rest| <= |s| && Skipped(p.rest)
    decreases |s|, 4
  {
    match ParseAmp(s)
    case Fail => Fail
    case Ok(t, rest) =>
      if Sees(rest, ';') then
        match ParseLine(Skip(Skip(rest)[1..]))
        case Fail => Fail
        case Ok(t', rest') => Ok(List(t, t'), rest')
      else Ok(t, Skip(rest))
  }

  /** parsecmd: the whole text must be used up. */
  function ParseCmd(s: string): Parsed<Tree> {
    match ParseLine(s)
    case Fail => Fail
    case Ok(t, rest) => if rest == "" then Ok(t, "") else Fail
  }

  // ---- The printer --------------------------------------------------------------------

  predicate IsWord(w: string) {
    w != "" && forall i :: 0 <= i < |w| ==> IsWordChar(w[i])
  }

  /** The trees a shell line can mean: words of word characters, and at most
      MAXARGS - 1 of them in a command. */
  predicate Printable(t: Tree) {
    match t
    case Exec(words) => |words| < MAXARGS && forall i :: 0 <= i < |words| ==> IsWord(words[i])
    case Redir(c, to) => Printable(c) && IsWord(to.file)
    case Pipe(l, r) => Printable(l) && Printable(r)
    case List(l, r) => Printable(l) && Printable(r)
    case Back(c) => Printable(c)
  }

  /** The command under the redirections, and the redirections, inner first. */
  function Core(t: Tree): (c: Tree)
    ensures !c.Redir?
    ensures c == t || c < t
  {
    if t.Redir? then Core(t.cmd) else t
  }

  function RedirsOf(t: Tree): seq<Redirection> {
    if t.Redir? then RedirsOf(t.cmd) + [t.to] else []
  }

  function Words(ws: seq<string>): string {
    if ws == [] then "" else ws[0] + [' '] + Words(ws[1..])
  }

  function ShowRedirs(rs: seq<Redirection>): string {
    if rs == [] then "" else [Sign(rs[0].out)] + rs[0].file + ShowRedirs(rs[1..])
  }

  function Size(t: Tree): nat {
    match t
    case Exec(_) => 1
    case Redir(c, _) => 1 + Size(c)
    case Pipe(l, r) => 1 + Size(l) + Size(r)
    case List(l, r) => 1 + Size(l) + Size(r)
    case Back(c) => 1 + Size(c)
  }

  lemma {:induction false} CoreSize(t: Tree)
    ensures Size(Core(t)) <= Size(t) && (t.Redir? ==> Size(Core(t)) < Size(t))
  {
    if t.Redir? { CoreSize(t.cmd); }
  }

  /** A command as parseexec reads it: words, or a parenthesised line. */
  function ShowExec(t: Tree): string
    decreases Size(t), 1
  {
    CoreSize(t);
    (if Core(t).Exec? then Words(Core(t).words) else ['('] + Inner(Core(t)) + [')']) + ShowRedirs(RedirsOf(t))
  }

  /** A compound command without parentheses around it. */
  function Inner(t: Tree): string
    requires t.Pipe? || t.List? || t.Back?
    decreases Size(t), 0
  {
    match t
    case Pipe(l, r) => ShowExec(l) + ['|'] + ShowPipe(r)
    case List(l, r) => ShowAmp(l) + [';'] + ShowLine(r)
    case Back(c) => ShowAmp(c) + ['&']
  }

  function ShowPipe(t: Tree): string
    decreases Size(t), 2
  {
    if t.Pipe? then Inner(t) else ShowExec(t)
  }

  function ShowAmp(t: Tree): string
    decreases Size(t), 3
  {
    if t.Back? then Inner(t) else ShowPipe(t)
  }

  function ShowLine(t: Tree): string
    decreases Size(t), 4
  {
    if t.List? then Inner(t) else ShowAmp(t)
  }

  // ---- Scanning what was printed -----------------------------------------------------------

  /** Text that a word can stop in front of. */
  predicate Stops(s: string) {
    s == "" || !IsWordChar(s[0])
  }

  lemma {:induction false} WordLenOf(w: string, s: string)
    requires (forall i :: 0 <= i < |w| ==> IsWordChar(w[i])) && Stops(s)
    ensures WordLen(w + s) == |w|
  {
    if w == "" {
      assert w + s == s;
    } else {
      assert (w + s)[1..] == w[1..] + s;
      WordLenOf(w[1..], s);
    }
  }

  lemma SkipStays(s: string)
    requires Skipped(s)
    ensures Skip(s) == s
  {
  }

  /** Text that starts with a symbol out of which no redirection comes, or none. */
  predicate Ends(s: string) {
    s == "" || s[0] == '|' || s[0] == ')' || s[0] == '&' || s[0] == ';'
  }

  /** Nothing in front of s is skipped or taken for part of a word. */
  predicate Clean(s: string) {
    Stops(s) && (s == "" || !IsSpace(s[0]))
  }

  lemma {:induction false} RedirsBack(done: seq<Redirection>, rs: seq<Redirection>, s: string)
    requires (forall i :: 0 <= i < |rs| ==> IsWord(rs[i].file)) && Skip(s) == s
    requires s == "" || (s[0] != '<' && s[0] != '>')
    requires rs == [] || Clean(s)
    ensures Redirs(done, ShowRedirs(rs) + s) == Ok(done + rs, s)
    decreases |rs|
  {
    hide Skip, WordLen, IsWord, Redirs, ShowRedirs, Clean;
    if rs == [] {
      RedirsNone(done, s);
    } else {
      var tail := ShowRedirs(rs[1..]) + s;
      ShowRedirsCons(rs, s);
      RedirsStart(rs[1..], s);
      RedirsStep(done, rs[0], tail);
      RedirsBack(done + [rs[0]], rs[1..], s);
      assert done + [rs[0]] + rs[1..] == done + rs;
    }
  }

  lemma RedirsNone(done: seq<Redirection>, s: string)
    requires Skip(s) == s && (s == "" || (s[0] != '<' && s[0] != '>'))
    ensures Redirs(done, ShowRedirs([]) + s) == Ok(done + [], s)
  {
    hide Skip, WordLen;
    assert ShowRedirs([]) + s == s;
    assert done + [] == done;
  }

  function Sign(out: bool): char {
    if out then '>' else '<'
  }

  lemma ShowRedirsCons(rs: seq<Redirection>, s: string)
    requires rs != []
    ensures ShowRedirs(rs) + s == [Sign(rs[0].out)] + (rs[0].file + (ShowRedirs(rs[1..]) + s))
  {
  }

  lemma RedirsStart(rs: seq<Redirection>, s: string)
    requires Clean(s)
    ensures Clean(ShowRedirs(rs) + s)
  {
    if rs == [] {
      assert ShowRedirs(rs) + s == s;
    } else {
      ShowRedirsCons(rs, s);
    }
  }

  lemma Front(w: string, s: string)
    ensures (w + s)[..|w|] == w && (w + s)[|w|..] == s
  {
  }

  lemma RedirsStep(done: seq<Redirection>, to: Redirection, tail: string)
    requires IsWord(to.file) && Clean(tail)
    ensures Redirs(done, [Sign(to.out)] + (to.file + tail)) == Redirs(done + [to], tail)
  {
    hide Skip, WordLen, Redirs;
    var w := to.file + tail;
    assert w[0] == to.file[0];
    var s := [Sign(to.out)] + w;
    Front([Sign(to.out)], w);
    assert s[0] == Sign(to.out) && s[1] == w[0];
    SkipStays(s);
    RedirsUnfold(done, s);
    WordTaken(to.file, tail);
  }

  /** A word in front of clean text is scanned whole, and no more. */
  lemma WordTaken(w: string, tail: string)
    requires IsWord(w) && Clean(tail)
    ensures Skip(w + tail) == w + tail && WordLen(w + tail) == |w|
    ensures (w + tail)[..|w|] == w && Skip((w + tail)[|w|..]) == tail
  {
    hide Skip, WordLen;
    assert (w + tail)[0] == w[0];
    SkipStays(w + tail);
    SkipStays(tail);
    WordLenOf(w, tail);
    Front(w, tail);
  }

  lemma RedirsUnfold(done: seq<Redirection>, s: string)
    requires Skip(s) == s && |s| > 1 && (s[0] == '<' || s[0] == '>') && s[1] != '>'
    ensures var f := Skip(s[1..]);
            WordLen(f) > 0 ==>
              Redirs(done, s) == Redirs(done + [Redirection(f[..WordLen(f)], s[0] == '>')], Skip(f[WordLen(f)..]))
  {
    hide Skip, WordLen;
  }

  // ---- Commands ---------------------------------------------------------------------------

  lemma WordsCons(ws: seq<string>, s: string)
    requires ws != []
    ensures Words(ws) + s == ws[0] + ([' '] + (Words(ws[1..]) + s))
  {
  }

  lemma WordsNil(s: string)
    ensures Words([]) + s == s
  {
  }

  lemma SkipBlank(s: string)
    requires Skip(s) == s
    ensures Skip([' '] + s) == s
  {
    Front([' '], s);
  }

  lemma ArgsWord(words: seq<string>, rs: seq<Redirection>, w: string, rest: string)
    requires IsWord(w) && |words| + 1 < MAXARGS && Skip(rest) == rest
    requires Redirs(rs, rest).Ok?
    ensures Args(words, rs, w + ([' '] + rest))
         == Args(words + [w], Redirs(rs, rest).value, Redirs(rs, rest).rest)
  {
    hide Skip, WordLen, Redirs;
    var s := w + ([' '] + rest);
    var blank := [' '] + rest;
    assert Stops(blank) by { assert blank[0] == ' '; }
    assert s[0] == w[0];
    SkipStays(s);
    WordLenOf(w, blank);
    Front(w, blank);
    SkipBlank(rest);
    ArgsUnfold(words, rs, s);
  }

  lemma ArgsUnfold(words: seq<string>, rs: seq<Redirection>, s: string)
    requires Skip(s) == s && WordLen(s) > 0 && |words| + 1 < MAXARGS
    requires Redirs(rs, Skip(s[WordLen(s)..])).Ok?
    ensures var p := Redirs(rs, Skip(s[WordLen(s)..]));
            Args(words, rs, s) == Args(words + [s[..WordLen(s)]], p.value, p.rest)
  {
    hide Skip, WordLen, Redirs;
    assert IsWordChar(s[0]) by { FirstIsWord(s); }
  }

  lemma FirstIsWord(s: string)
    requires WordLen(s) > 0
    ensures s != "" && IsWordChar(s[0])
  {
  }

  lemma ArgsEnd(words: seq<string>, rs: seq<Redirection>, s: string)
    requires Ends(s)
    ensures Args(words, rs, s) == Ok(Wrap(Exec(words), rs), s)
    ensures Skip(s) == s && Clean(s)
  {
    SkipStays(s);
  }

  /** What follows the words of a printed command. */
  lemma TailSkips(ws: seq<string>, tail: string)
    requires (forall i :: 0 <= i < |ws| ==> IsWord(ws[i])) && Skip(tail) == tail
    ensures Skip(Words(ws) + tail) == Words(ws) + tail
    ensures ws != [] ==> Words(ws) + tail != "" && IsWordChar((Words(ws) + tail)[0])
  {
    hide Skip, Words;
    if ws == [] {
      WordsNil(tail);
    } else {
      WordsCons(ws, tail);
      assert (Words(ws) + tail)[0] == ws[0][0];
      SkipStays(Words(ws) + tail);
    }
  }

  lemma ArgsLast(done: seq<string>, w: string, rs: seq<Redirection>, s: string)
    requires |done| + 1 < MAXARGS && IsWord(w)
    requires (forall i :: 0 <= i < |rs| ==> IsWord(rs[i].file)) && Ends(s)
    ensures Args(done, [], w + ([' '] + (ShowRedirs(rs) + s))) == Ok(Wrap(Exec(done + [w]), rs), s)
  {
    hide Skip, WordLen, Redirs, Args, ShowRedirs, IsWord, Wrap, IsWordChar, Clean;
    TailClean(rs, s);
    RedirsBack([], rs, s);
    assert [] + rs == rs;
    ArgsWord(done, [], w, ShowRedirs(rs) + s);
    ArgsEnd(done + [w], rs, s);
  }

  lemma {:induction false} ArgsBack(done: seq<string>, ws: seq<string>, rs: seq<Redirection>, s: string)
    requires ws != [] && |done| + |ws| < MAXARGS && (forall i :: 0 <= i < |ws| ==> IsWord(ws[i]))
    requires (forall i :: 0 <= i < |rs| ==> IsWord(rs[i].file)) && Ends(s)
    ensures Args(done, [], Words(ws) + (ShowRedirs(rs) + s)) == Ok(Wrap(Exec(done + ws), rs), s)
    decreases |ws|
  {
    hide Skip, WordLen, Redirs, Args, Words, ShowRedirs, IsWord, Wrap, IsWordChar, Clean, Ends;
    var tail := ShowRedirs(rs) + s;
    TailClean(rs, s);
    WordsCons(ws, tail);
    assert done + [ws[0]] + ws[1..] == done + ws;
    if |ws| == 1 {
      WordsNil(tail);
      assert ws[1..] == [] && done + [ws[0]] == done + ws;
      ArgsLast(done, ws[0], rs, s);
    } else {
      TailSkips(ws[1..], tail);
      WordNoRedir(ws[1..], tail);
      ArgsWord(done, [], ws[0], Words(ws[1..]) + tail);
      ArgsBack(done + [ws[0]], ws[1..], rs, s);
    }
  }

  lemma TailClean(rs: seq<Redirection>, s: string)
    requires Ends(s)
    ensures Skip(ShowRedirs(rs) + s) == ShowRedirs(rs) + s && Skip(s) == s && Clean(s)
    ensures s == "" || (s[0] != '<' && s[0] != '>')
  {
    hide Skip, ShowRedirs;
    SkipStays(s);
    RedirsStart(rs, s);
    SkipStays(ShowRedirs(rs) + s);
  }

  /** No redirection starts where a word does. */
  lemma WordNoRedir(ws: seq<string>, tail: string)
    requires ws != [] && (forall i :: 0 <= i < |ws| ==> IsWord(ws[i])) && Skip(tail) == tail
    ensures Redirs([], Words(ws) + tail) == Ok([], Words(ws) + tail)
  {
    hide Skip, Words;
    TailSkips(ws, tail);
  }

  lemma {:induction false} WrapCore(t: Tree)
    ensures Wrap(Core(t), RedirsOf(t)) == t
  {
    if t.Redir? {
      WrapCore(t.cmd);
      assert RedirsOf(t)[..|RedirsOf(t)| - 1] == RedirsOf(t.cmd);
    }
  }

  lemma {:induction false} PrintableParts(t: Tree)
    requires Printable(t)
    ensures Printable(Core(t)) && forall i :: 0 <= i < |RedirsOf(t)| ==> IsWord(RedirsOf(t)[i].file)
  {
    if t.Redir? { PrintableParts(t.cmd); }
  }

  // ---- Printing and parsing undo each other ---------------------------------------------------

  lemma ParseSkip(s: string)
    ensures ParseExec(Skip(s)) == ParseExec(s)
    ensures ParsePipe(Skip(s)) == ParsePipe(s)
    ensures ParseAmp(Skip(s)) == ParseAmp(s)
    ensures ParseLine(Skip(s)) == ParseLine(s)
  {
    hide Skip, Redirs, Args, ParseBlock, Backs;
    SkipStays(Skip(s));
    assert ParseExec(Skip(s)) == ParseExec(s);
    assert ParsePipe(Skip(s)) == ParsePipe(s);
  }

  /** A command line's end: of the text, or of the parentheses it stands in. */
  predicate EndsLine(s: string) {
    s == "" || s[0] == ')'
  }

  predicate EndsPipe(s: string) {
    s == "" || s[0] == ')' || s[0] == '&' || s[0] == ';'
  }

  /** A symbol at the front is seen, and behind it the text goes on. */
  lemma SeesFront(c: char, s: string)
    requires !IsSpace(c)
    ensures Skip([c] + s) == [c] + s && Sees([c] + s, c) && Skip([c] + s)[1..] == s
  {
    hide Skip;
    Front([c], s);
    SkipStays([c] + s);
  }

  lemma SimpleBack(words: seq<string>, rs: seq<Redirection>, s: string)
    requires Printable(Exec(words)) && (forall i :: 0 <= i < |rs| ==> IsWord(rs[i].file)) && Ends(s)
    ensures ParseExec(Words(words) + (ShowRedirs(rs) + s)) == Ok(Wrap(Exec(words), rs), s)
  {
    hide Skip, Redirs, Args, Words, ShowRedirs, Wrap, IsWord, ParseBlock, Clean;
    var tail := ShowRedirs(rs) + s;
    TailClean(rs, s);
    TailSkips(words, tail);
    TailNoParen(rs, s);
    if words == [] {
      WordsNil(tail);
      RedirsBack([], rs, s);
      assert [] + rs == rs;
      ArgsEnd([], rs, s);
    } else {
      WordNoRedir(words, tail);
      ArgsBack([], words, rs, s);
      assert [] + words == words;
    }
  }

  lemma TailNoParen(rs: seq<Redirection>, s: string)
    requires Ends(s)
    ensures var t := ShowRedirs(rs) + s; t == "" || t[0] != '('
  {
    if rs == [] {
      assert ShowRedirs(rs) + s == s;
    } else {
      ShowRedirsCons(rs, s);
    }
  }

  lemma BlockBack(t: Tree, inner: string, rs: seq<Redirection>, s: string)
    requires ParseLine(inner + ([')'] + (ShowRedirs(rs) + s))) == Ok(t, [')'] + (ShowRedirs(rs) + s))
    requires (forall i :: 0 <= i < |rs| ==> IsWord(rs[i].file)) && Ends(s)
    ensures ParseExec(['('] + (inner + ([')'] + (ShowRedirs(rs) + s)))) == Ok(Wrap(t, rs), s)
  {
    hide Skip, Redirs, Args, ShowRedirs, Wrap, IsWord, ParseLine, Clean;
    var tail := ShowRedirs(rs) + s;
    var x := inner + ([')'] + tail);
    SeesFront('(', x);
    SeesFront(')', tail);
    ParseSkip(x);
    TailClean(rs, s);
    RedirsBack([], rs, s);
    assert [] + rs == rs;
  }

  lemma {:induction false} ExecBack(t: Tree, s: string)
    requires Printable(t) && Ends(s)
    ensures ParseExec(ShowExec(t) + s) == Ok(t, s)
    decreases Size(t), 1
  {
    hide ParseExec, ParseLine, Words, ShowRedirs, Inner, Wrap, IsWord;
    var c, rs := Core(t), RedirsOf(t);
    CoreSize(t);
    WrapCore(t);
    PrintableParts(t);
    if c.Exec? {
      assert ShowExec(t) + s == Words(c.words) + (ShowRedirs(rs) + s);
      SimpleBack(c.words, rs, s);
    } else {
      var rest := [')'] + (ShowRedirs(rs) + s);
      assert ShowExec(t) + s == ['('] + (Inner(c) + rest);
      assert rest[0] == ')';
      InnerBack(c, rest);
      BlockBack(c, Inner(c), rs, s);
    }
  }

  lemma PipeNode(l: Tree, r: Tree, x: string, y: string, s: string)
    requires ParseExec(x + (['|'] + y)) == Ok(l, ['|'] + y) && ParsePipe(y) == Ok(r, s)
    ensures ParsePipe(x + (['|'] + y)) == Ok(Pipe(l, r), s)
  {
    hide Skip, ParseExec;
    SeesFront('|', y);
    ParseSkip(y);
  }

  lemma PipeEnd(t: Tree, x: string, s: string)
    requires ParseExec(x + s) == Ok(t, s) && EndsPipe(s)
    ensures ParsePipe(x + s) == Ok(t, s)
  {
    hide Skip, ParseExec;
    SkipStays(s);
  }

  lemma {:induction false} PipeBack(t: Tree, s: string)
    requires Printable(t) && EndsPipe(s)
    ensures ParsePipe(ShowPipe(t) + s) == Ok(t, s)
    decreases Size(t), 2
  {
    hide ParseExec, ParsePipe, ShowExec;
    if t.Pipe? {
      var y := ShowPipe(t.right) + s;
      assert ShowPipe(t) + s == ShowExec(t.left) + (['|'] + y);
      ExecBack(t.left, ['|'] + y);
      PipeBack(t.right, s);
      PipeNode(t.left, t.right, ShowExec(t.left), y, s);
    } else {
      ExecBack(t, s);
      PipeEnd(t, ShowExec(t), s);
    }
  }

  lemma BacksStep(t: Tree, s: string)
    requires EndsPipe(s)
    ensures Backs(t, ['&'] + s) == Backs(Back(t), s)
  {
    hide Skip;
    SeesFront('&', s);
    SkipStays(s);
  }

  lemma BacksEnd(t: Tree, s: string)
    requires EndsPipe(s) && (s == "" || s[0] != '&')
    ensures Backs(t, s) == Ok(t, s)
  {
    hide Skip;
    SkipStays(s);
  }

  lemma {:induction false} AmpBack(t: Tree, s: string)
    requires Printable(t) && EndsPipe(s)
    ensures ParseAmp(ShowAmp(t) + s) == Backs(t, s)
    decreases Size(t), 3
  {
    hide ParsePipe, ShowPipe, Backs;
    if t.Back? {
      assert ShowAmp(t) + s == ShowAmp(t.cmd) + (['&'] + s);
      AmpBack(t.cmd, ['&'] + s);
      BacksStep(t.cmd, s);
    } else {
      PipeBack(t, s);
    }
  }

  lemma LineEnd(t: Tree, x: string, s: string)
    requires ParseAmp(x + s) == Ok(t, s) && EndsLine(s)
    ensures ParseLine(x + s) == Ok(t, s)
  {
    hide Skip, ParseAmp;
    SkipStays(s);
  }

  lemma LineNode(l: Tree, r: Tree, x: string, y: string, s: string)
    requires ParseAmp(x + ([';'] + y)) == Ok(l, [';'] + y) && ParseLine(y) == Ok(r, s)
    ensures ParseLine(x + ([';'] + y)) == Ok(List(l, r), s)
  {
    hide Skip, ParseAmp;
    SeesFront(';', y);
    ParseSkip(y);
  }

  lemma {:induction false} InnerBack(t: Tree, s: string)
    requires (t.Pipe? || t.List? || t.Back?) && Printable(t) && EndsLine(s)
    ensures ParseLine(Inner(t) + s) == Ok(t, s)
    decreases Size(t), 0
  {
    hide ParseExec, ParsePipe, ParseAmp, ParseLine, ShowExec, Backs, ShowPipe, ShowAmp, ShowLine;
    match t
    case Pipe(l, r) =>
      var y := ShowPipe(r) + s;
      assert Inner(t) + s == ShowExec(l) + (['|'] + y);
      ExecBack(l, ['|'] + y);
      PipeBack(r, s);
      PipeNode(l, r, ShowExec(l), y, s);
      AmpOfPipe(t, Inner(t), s);
      LineEnd(t, Inner(t), s);
    case List(l, r) =>
      var y := ShowLine(r) + s;
      assert Inner(t) + s == ShowAmp(l) + ([';'] + y);
      AmpBack(l, [';'] + y);
      BacksEnd(l, [';'] + y);
      LineBack(r, s);
      LineNode(l, r, ShowAmp(l), y, s);
    case Back(c) =>
      assert Inner(t) + s == ShowAmp(c) + (['&'] + s);
      AmpBack(c, ['&'] + s);
      BacksStep(c, s);
      BacksEnd(t, s);
      LineEnd(t, Inner(t), s);
  }

  lemma AmpOfPipe(t: Tree, x: string, s: string)
    requires ParsePipe(x + s) == Ok(t, s) && EndsLine(s)
    ensures ParseAmp(x + s) == Ok(t, s)
  {
    hide ParsePipe, Backs;
    BacksEnd(t, s);
  }

  lemma {:induction false} LineBack(t: Tree, s: string)
    requires Printable(t) && EndsLine(s)
    ensures ParseLine(ShowLine(t) + s) == Ok(t, s)
    decreases Size(t), 4
  {
    hide ParseLine, ParseAmp, Backs, Inner, ShowAmp;
    if t.List? {
      InnerBack(t, s);
    } else {
      AmpBack(t, s);
      BacksEnd(t, s);
      LineEnd(t, ShowAmp(t), s);
    }
  }

  /** Printing a command tree and parsing the text gives the tree back. */
  lemma RoundTrip(t: Tree)
    requires Printable(t)
    ensures ParseCmd(ShowLine(t)) == Ok(t, "")
  {
    hide ParseLine, ShowLine;
    LineBack(t, "");
    assert ShowLine(t) + "" == ShowLine(t);
  }

  // ---- What the parser accepts is printable -----------------------------------------------------

  predicate Files(rs: seq<Redirection>) {
    forall i :: 0 <= i < |rs| ==> IsWord(rs[i].file)
  }

  lemma {:induction false} RedirsFiles(rs: seq<Redirection>, s: string)
    requires Files(rs) && Redirs(rs, s).Ok?
    ensures Files(Redirs(rs, s).value)
    decreases |s|
  {
    hide Skip, WordLen;
    var r := Skip(s);
    if r != "" && (r[0] == '<' || r[0] == '>') {
      var after := if r[0] == '>' && |r| > 1 && r[1] == '>' then r[2..] else r[1..];
      var f := Skip(after);
      var n := WordLen(f);
      RedirsFiles(rs + [Redirection(f[..n], r[0] == '>')], Skip(f[n..]));
    }
  }

  lemma {:induction false} WrapPrintable(t: Tree, rs: seq<Redirection>)
    requires Printable(t) && Files(rs)
    ensures Printable(Wrap(t, rs))
    decreases |rs|
  {
    if rs != [] { WrapPrintable(t, rs[..|rs| - 1]); }
  }

  lemma {:induction false} ArgsPrintable(words: seq<string>, rs: seq<Redirection>, s: string)
    requires Printable(Exec(words)) && Files(rs) && Args(words, rs, s).Ok?
    ensures Printable(Args(words, rs, s).value)
    decreases |s|
  {
    hide Skip, WordLen, Wrap, Redirs;
    var r := Skip(s);
    if r == "" || r[0] == '|' || r[0] == ')' || r[0] == '&' || r[0] == ';' {
      WrapPrintable(Exec(words), rs);
    } else {
      var n := WordLen(r);
      RedirsFiles(rs, Skip(r[n..]));
      var p := Redirs(rs, Skip(r[n..]));
      ArgsPrintable(words + [r[..n]], p.value, p.rest);
    }
  }

  lemma {:induction false} ExecPrintable(s: string)
    requires ParseExec(s).Ok?
    ensures Printable(ParseExec(s).value)
    decreases |s|, 1
  {
    hide Skip, Args, Redirs;
    if Sees(s, '(') {
      BlockPrintable(Skip(s));
    } else {
      RedirsFiles([], Skip(s));
      ArgsPrintable([], Redirs([], Skip(s)).value, Redirs([], Skip(s)).rest);
    }
  }

  lemma {:induction false} BlockPrintable(s: string)
    requires s != "" && s[0] == '(' && ParseBlock(s).Ok?
    ensures Printable(ParseBlock(s).value)
    decreases |s|, 0
  {
    hide Skip, Redirs, Wrap;
    LinePrintable(Skip(s[1..]));
    var p := ParseLine(Skip(s[1..]));
    RedirsFiles([], Skip(Skip(p.rest)[1..]));
    WrapPrintable(p.value, Redirs([], Skip(Skip(p.rest)[1..])).value);
  }

  lemma {:induction false} PipePrintable(s: string)
    requires ParsePipe(s).Ok?
    ensures Printable(ParsePipe(s).value)
    decreases |s|, 2
  {
    hide Skip;
    ExecPrintable(s);
    var p := ParseExec(s);
    if Sees(p.rest, '|') { PipePrintable(Skip(Skip(p.rest)[1..])); }
  }

  lemma {:induction false} BacksPrintable(t: Tree, s: string)
    requires Printable(t)
    ensures Printable(Backs(t, s).value)
    decreases |s|
  {
    hide Skip;
    if Sees(s, '&') { BacksPrintable(Back(t), Skip(Skip(s)[1..])); }
  }

  lemma {:induction false} LinePrintable(s: string)
    requires ParseLine(s).Ok?
    ensures Printable(ParseLine(s).value)
    decreases |s|, 3
  {
    hide Skip, Backs;
    PipePrintable(s);
    BacksPrintable(ParsePipe(s).value, ParsePipe(s).rest);
    var p := ParseAmp(s);
    if Sees(p.rest, ';') { LinePrintable(Skip(Skip(p.rest)[1..])); }
  }

  /** Every accepted text parses to a tree that the printer can say again: print
      and parse are inverse on all of the parser's results, whatever the text. */
  lemma ParsePrintParse(s: string)
    requires ParseCmd(s).Ok?
    ensures Printable(ParseCmd(s).value) && ParseCmd(ShowLine(ParseCmd(s).value)) == ParseCmd(s)
  {
    hide ParseLine, ShowLine;
    LinePrintable(s);
    RoundTrip(ParseCmd(s).value);
  }
}
