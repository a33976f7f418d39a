/** The shell's command language as a grammar over tokens, and the proof that sh.c's parser accepts exactly
    its lines. */
module ShellTokens {
  import opened ShellGrammar

  // ---- Tokens -----------------------------------------------------------------------------

  predicate Blank(c: char) { c in " \t\r\n\U{000B}" }
  predicate Special(c: char) { c in "<|>&;()" }

  /** App is >>. */
  datatype Token = Word(w: string) | Sym(c: char) | App

  /** How far the text goes on without blanks and special characters. */
  function Run(s: string): (n: nat)
    ensures n <= |s|
  {
    if s == "" || Blank(s[0]) || Special(s[0]) then 0 else 1 + Run(s[1..])
  }

  function Tokens(s: string): seq<Token>
    decreases |s|
  {
    if s == "" then []
    else if Blank(s[0]) then Tokens(s[1..])
    else if s[0] == '>' && |s| > 1 && s[1] == '>' then [App] + Tokens(s[2..])
    else if Special(s[0]) then [Sym(s[0])] + Tokens(s[1..])
    else [Word(s[..Run(s)])] + Tokens(s[Run(s)..])
  }

  // ---- The grammar ------------------------------------------------------------------------

  predicate IsRedir(k: Token) { k == Sym('<') || k == Sym('>') || k == App }

  /** Words and redirections in any order, with those words and those redirections. */
  predicate Items(ts: seq<Token>, words: seq<string>, rs: seq<Redirection>) {
    if ts == [] then words == [] && rs == []
    else if ts[0].Word? then words != [] && words[0] == ts[0].w && Items(ts[1..], words[1..], rs)
    else
      && IsRedir(ts[0]) && |ts| > 1 && ts[1].Word?
      && rs != [] && rs[0] == Redirection(ts[1].w, ts[0] != Sym('<')) && Items(ts[2..], words, rs[1..])
  }

  /** exec ::= item* | "(" line ")" redirection* */
  ghost predicate IsExec(ts: seq<Token>, t: Tree)
    decreases |ts|, 1
  {
    || (exists words, rs :: IsSimple(ts, t, words, rs))
    || (exists i: nat, u, rs :: IsBlock(ts, t, i, u, rs))
  }

  predicate IsSimple(ts: seq<Token>, t: Tree, words: seq<string>, rs: seq<Redirection>) {
    Items(ts, words, rs) && |words| < MAXARGS && t == Wrap(Exec(words), rs)
  }

  ghost predicate IsBlock(ts: seq<Token>, t: Tree, i: nat, u: Tree, rs: seq<Redirection>)
    decreases |ts|, 0
  {
    && 0 < i < |ts| && ts[0] == Sym('(') && ts[i] == Sym(')')
    && IsLine(ts[1..i], u) && Items(ts[i + 1..], [], rs) && t == Wrap(u, rs)
  }

  /** pipe ::= exec | exec "|" pipe */
  ghost predicate IsPipe(ts: seq<Token>, t: Tree)
    decreases |ts|, 2
  {
    || IsExec(ts, t)
    || (t.Pipe? && exists i: nat ::
          i < |ts| && ts[i] == Sym('|') && IsExec(ts[..i], t.left) && IsPipe(ts[i + 1..], t.right))
  }

  /** amp ::= pipe | amp "&" */
  ghost predicate IsAmp(ts: seq<Token>, t: Tree)
    decreases |ts|, 3
  {
    IsPipe(ts, t) || (t.Back? && ts != [] && ts[|ts| - 1] == Sym('&') && IsAmp(ts[..|ts| - 1], t.cmd))
  }

  /** line ::= amp | amp ";" line */
  ghost predicate IsLine(ts: seq<Token>, t: Tree)
    decreases |ts|, 4
  {
    || IsAmp(ts, t)
    || (t.List? && exists i: nat ::
          i < |ts| && ts[i] == Sym(';') && IsAmp(ts[..i], t.left) && IsLine(ts[i + 1..], t.right))
  }

  // ---- Scanning and tokens ------------------------------------------------------------------

  lemma Chars(c: char)
    ensures Blank(c) <==> IsSpace(c)
    ensures Special(c) <==> IsSymbol(c)
  {
    assert " \t\r\n\U{000B}" == [' ', '\t', '\r', '\n', '\U{000B}'];
    assert "<|>&;()" == ['<', '|', '>', '&', ';', '(', ')'];
  }

  lemma {:induction false} RunIs(s: string)
    ensures Run(s) == WordLen(s)
  {
    hide Blank, Special;
    if s != "" {
      Chars(s[0]);
      if IsWordChar(s[0]) {
        RunIs(s[1..]);
      }
    }
  }

  lemma {:induction false} TokensSkip(s: string)
    ensures Tokens(Skip(s)) == Tokens(s)
  {
    hide Blank, Special;
    if s != "" {
      Chars(s[0]);
      if IsSpace(s[0]) {
        TokensSkip(s[1..]);
      }
    }
  }

  /** The first token of text that starts with no blank. */
  lemma TokensAt(r: string)
    requires Skipped(r) && r != ""
    ensures if r[0] == '>' && |r| > 1 && r[1] == '>' then Tokens(r) == [App] + Tokens(r[2..]) && WordLen(r) == 0
            else if IsSymbol(r[0]) then Tokens(r) == [Sym(r[0])] + Tokens(r[1..]) && WordLen(r) == 0
            else WordLen(r) > 0 && Tokens(r) == [Word(r[..WordLen(r)])] + Tokens(r[WordLen(r)..])
  {
    hide Blank, Special;
    Chars(r[0]);
    RunIs(r);
  }

  lemma TokensNone(s: string)
    ensures Skip(s) == "" <==> Tokens(s) == []
  {
    TokensSkip(s);
    if Skip(s) != "" {
      TokensAt(Skip(s));
    }
    hide Tokens, Skip;
    assert Tokens("") == [] by { NoTokens(); }
  }

  lemma NoTokens()
    ensures Tokens("") == []
  {
  }

  /** Peeking for a symbol is looking at the first token. */
  lemma SeesIs(s: string, c: char)
    requires IsSymbol(c) && c != '>' && c != '<'
    ensures Sees(s, c) <==> Tokens(s) != [] && Tokens(s)[0] == Sym(c)
    ensures Sees(s, c) ==> Tokens(Skip(s)[1..]) == Tokens(s)[1..] && Tokens(Skip(Skip(s)[1..])) == Tokens(s)[1..]
  {
    TokensSkip(s);
    TokensNone(s);
    if Skip(s) != "" {
      TokensAt(Skip(s));
      TokensSkip(Skip(s)[1..]);
    }
    hide Tokens, Skip, WordLen;
  }

  /** The word at the front, if there is one. */
  lemma WordIs(s: string)
    ensures Skip(s) != "" && WordLen(Skip(s)) > 0 <==> Tokens(s) != [] && Tokens(s)[0].Word?
    ensures Skip(s) != "" && WordLen(Skip(s)) > 0 ==>
              var n := WordLen(Skip(s));
              Tokens(s) == [Word(Skip(s)[..n])] + Tokens(Skip(s)[n..]) && Tokens(Skip(Skip(s)[n..])) == Tokens(s)[1..]
  {
    TokensSkip(s);
    TokensNone(s);
    if Skip(s) != "" {
      TokensAt(Skip(s));
      TokensSkip(Skip(s)[WordLen(Skip(s))..]);
    }
    hide Tokens, Skip, WordLen;
  }

  /** Text after the redirection sign at the front of r. */
  function AfterSign(r: string): string
    requires r != ""
  {
    if r[0] == '>' && |r| > 1 && r[1] == '>' then r[2..] else r[1..]
  }

  lemma SignIs(s: string)
    ensures (Skip(s) != "" && (Skip(s)[0] == '<' || Skip(s)[0] == '>')) <==> Tokens(s) != [] && IsRedir(Tokens(s)[0])
    ensures Tokens(s) != [] && IsRedir(Tokens(s)[0]) ==>
              && Skip(s) != "" && Tokens(s)[1..] == Tokens(AfterSign(Skip(s)))
              && (Skip(s)[0] == '>' <==> Tokens(s)[0] != Sym('<'))
  {
    TokensSkip(s);
    TokensNone(s);
    if Skip(s) != "" {
      TokensAt(Skip(s));
    }
    hide Tokens, Skip, WordLen;
  }

  // ---- Items ----------------------------------------------------------------------------------

  lemma ItemsWord(ts: seq<Token>, words: seq<string>, rs: seq<Redirection>, w: string)
    requires Items(ts, words, rs)
    ensures Items([Word(w)] + ts, [w] + words, rs)
  {
    assert ([Word(w)] + ts)[1..] == ts && ([w] + words)[1..] == words;
  }

  lemma ItemsRedir(ts: seq<Token>, words: seq<string>, rs: seq<Redirection>, k: Token, f: string)
    requires Items(ts, words, rs) && IsRedir(k)
    ensures Items([k, Word(f)] + ts, words, [Redirection(f, k != Sym('<'))] + rs)
  {
    assert ([k, Word(f)] + ts)[2..] == ts && ([Redirection(f, k != Sym('<'))] + rs)[1..] == rs;
  }

  lemma FirstOf<T>(a: seq<T>, b: seq<T>)
    requires a != []
    ensures a + b == [a[0]] + (a[1..] + b)
  {
  }

  lemma FirstTwo<T>(a: seq<T>, b: seq<T>)
    requires |a| > 1
    ensures a + b == [a[0], a[1]] + (a[2..] + b)
  {
  }

  lemma {:induction false} ItemsJoin(a: seq<Token>, aw: seq<string>, ar: seq<Redirection>,
                                     b: seq<Token>, bw: seq<string>, br: seq<Redirection>)
    requires Items(a, aw, ar) && Items(b, bw, br)
    ensures Items(a + b, aw + bw, ar + br)
    decreases |a|
  {
    if a == [] {
      assert a + b == b && aw + bw == bw && ar + br == br;
    } else if a[0].Word? {
      assert aw != [] && aw[0] == a[0].w && Items(a[1..], aw[1..], ar);
      hide Items;
      ItemsJoin(a[1..], aw[1..], ar, b, bw, br);
      ItemsWord(a[1..] + b, aw[1..] + bw, ar + br, a[0].w);
      FirstOf(a, b);
      FirstOf(aw, bw);
    } else {
      assert |a| > 1 && a[1].Word? && IsRedir(a[0]) && ar != [] && ar[0] == Redirection(a[1].w, a[0] != Sym('<'));
      assert Items(a[2..], aw, ar[1..]);
      hide Items;
      ItemsJoin(a[2..], aw, ar[1..], b, bw, br);
      ItemsRedir(a[2..] + b, aw + bw, ar[1..] + br, a[0], a[1].w);
      FirstTwo(a, b);
      FirstOf(ar, br);
    }
  }

  /** Items without words are redirections. */
  lemma OneRedir(k: Token, f: string)
    requires IsRedir(k)
    ensures Items([k, Word(f)], [], [Redirection(f, k != Sym('<'))])
  {
    assert [k, Word(f)][2..] == [] && [Redirection(f, k != Sym('<'))][1..] == [];
  }

  lemma OneWord(w: string)
    ensures Items([Word(w)], [w], [])
  {
    assert [Word(w)][1..] == [] && [w][1..] == [];
  }

  /** The redirections in front of the first word. */
  lemma {:induction false} Leading(ts: seq<Token>, words: seq<string>, rs: seq<Redirection>)
    returns (d: seq<Token>, e: seq<Token>, dr: seq<Redirection>, er: seq<Redirection>)
    requires Items(ts, words, rs)
    ensures ts == d + e && rs == dr + er && Items(d, [], dr) && Items(e, words, er) && (e == [] || e[0].Word?)
    decreases |ts|
  {
    if ts == [] || ts[0].Word? {
      d, e, dr, er := [], ts, [], rs;
    } else {
      d, e, dr, er := Leading(ts[2..], words, rs[1..]);
      OneRedir(ts[0], ts[1].w);
      ItemsJoin([ts[0], ts[1]], [], [rs[0]], d, [], dr);
      d, dr := [ts[0], ts[1]] + d, [rs[0]] + dr;
      assert ts == d + e;
    }
  }

  // ---- What the parser accepts is in the grammar ------------------------------------------------

  predicate NoRedir(ts: seq<Token>) { ts == [] || !IsRedir(ts[0]) }

  lemma RedirsStop(rs: seq<Redirection>, s: string)
    requires NoRedir(Tokens(s))
    ensures Redirs(rs, s) == Ok(rs, Skip(s)) && Tokens(Skip(s)) == Tokens(s)
  {
    SignIs(s);
    TokensSkip(s);
    hide Skip, WordLen, Tokens;
  }

  /** A redirection sign is followed by a word, or the parser gives up. */
  lemma RedirsNext(rs: seq<Redirection>, s: string) returns (rest: string)
    requires !NoRedir(Tokens(s))
    ensures if |Tokens(s)| > 1 && Tokens(s)[1].Word?
            then && Redirs(rs, s) == Redirs(rs + [Redirection(Tokens(s)[1].w, Tokens(s)[0] != Sym('<'))], rest)
                 && Tokens(rest) == Tokens(s)[2..] && |rest| < |s|
            else Redirs(rs, s) == Fail
  {
    SignIs(s);
    var r := Skip(s);
    var f := Skip(AfterSign(r));
    var n := WordLen(f);
    WordIs(AfterSign(r));
    rest := Skip(f[n..]);
    hide Skip, WordLen, Tokens;
    assert Tokens(s)[1..] == Tokens(AfterSign(r));
    if n > 0 {
      assert Tokens(s)[1] == Tokens(s)[1..][0] && Tokens(s)[2..] == Tokens(s)[1..][1..];
    }
  }

  lemma {:induction false} RedirsSound(rs: seq<Redirection>, s: string) returns (p: seq<Token>, nr: seq<Redirection>)
    requires Redirs(rs, s).Ok?
    ensures Tokens(s) == p + Tokens(Redirs(rs, s).rest) && Items(p, [], nr) && Redirs(rs, s).value == rs + nr
    decreases |s|
  {
    hide Redirs, Tokens, Skip;
    if NoRedir(Tokens(s)) {
      RedirsStop(rs, s);
      p, nr := [], [];
      assert rs + [] == rs;
    } else {
      var rest := RedirsNext(rs, s);
      var k, f := Tokens(s)[0], Tokens(s)[1].w;
      var d := Redirection(f, k != Sym('<'));
      var p1, nr1 := RedirsSound(rs + [d], rest);
      OneRedir(k, f);
      ItemsJoin([k, Word(f)], [], [d], p1, [], nr1);
      hide Items;
      p, nr := [k, Word(f)] + p1, [d] + nr1;
      assert rs + [d] + nr1 == rs + nr;
      TwoFirst(Tokens(s), p1, Tokens(Redirs(rs, s).rest));
    }
  }

  lemma TwoFirst(ts: seq<Token>, p: seq<Token>, q: seq<Token>)
    requires |ts| > 1 && ts[2..] == p + q
    ensures ts == [ts[0], ts[1]] + p + q
  {
    assert ts == [ts[0], ts[1]] + ts[2..];
  }

  lemma ArgsStop(words: seq<string>, rs: seq<Redirection>, s: string)
    requires EndsExec(Tokens(s))
    ensures Args(words, rs, s) == Ok(Wrap(Exec(words), rs), Skip(s)) && Tokens(Skip(s)) == Tokens(s)
  {
    EndSeen(s, Tokens(s));
    TokensSkip(s);
    hide Skip, WordLen, Tokens;
  }

  /** After a word come its redirections and the other words; anything else the parser gives up on. */
  lemma ArgsNext(words: seq<string>, rs: seq<Redirection>, s: string) returns (rest: string)
    requires !EndsExec(Tokens(s))
    ensures Tokens(s) != []
    ensures if Tokens(s)[0].Word? && |words| + 1 < MAXARGS
            then && Args(words, rs, s) == (match Redirs(rs, rest) case Fail => Fail
                                           case Ok(more, after) => Args(words + [Tokens(s)[0].w], more, after))
                 && Tokens(rest) == Tokens(s)[1..] && |rest| < |s|
            else Args(words, rs, s) == Fail
  {
    WordIs(s);
    NotEnds(s);
    var r := Skip(s);
    rest := if r == "" then "" else Skip(r[WordLen(r)..]);
    hide Skip, WordLen, Tokens, Redirs;
  }

  lemma NotEnds(s: string)
    requires !EndsExec(Tokens(s))
    ensures Skip(s) != "" && Skip(s)[0] != '|' && Skip(s)[0] != ')' && Skip(s)[0] != '&' && Skip(s)[0] != ';'
  {
    TokensSkip(s);
    TokensNone(s);
    if Skip(s) != "" {
      TokensAt(Skip(s));
    }
    hide Tokens, Skip, WordLen;
  }

  lemma {:induction false} ArgsSound(words: seq<string>, rs: seq<Redirection>, s: string)
    returns (p: seq<Token>, ws: seq<string>, nr: seq<Redirection>)
    requires Args(words, rs, s).Ok? && |words| < MAXARGS
    ensures Tokens(s) == p + Tokens(Args(words, rs, s).rest) && Items(p, ws, nr)
    ensures Args(words, rs, s).value == Wrap(Exec(words + ws), rs + nr) && |words| + |ws| < MAXARGS
    decreases |s|
  {
    hide Skip, Tokens, Redirs, Args, Wrap, EndsExec;
    if EndsExec(Tokens(s)) {
      ArgsStop(words, rs, s);
      p, ws, nr := [], [], [];
      assert words + [] == words && rs + [] == rs;
    } else {
      var rest := ArgsNext(words, rs, s);
      var w := Tokens(s)[0].w;
      var d, dr := RedirsSound(rs, rest);
      var after := Redirs(rs, rest);
      var p1, ws1, nr1 := ArgsSound(words + [w], after.value, after.rest);
      OneWord(w);
      ItemsJoin([Word(w)], [w], [], d, [], dr);
      ItemsJoin([Word(w)] + d, [w] + [], [] + dr, p1, ws1, nr1);
      hide Items;
      p, ws, nr := [Word(w)] + d + p1, [w] + [] + ws1, [] + dr + nr1;
      assert words + [w] + ws1 == words + ws && rs + dr + nr1 == rs + nr;
      OneFirst(Tokens(s), d, p1, Tokens(Args(words, rs, s).rest));
    }
  }

  lemma OneFirst(ts: seq<Token>, d: seq<Token>, p: seq<Token>, q: seq<Token>)
    requires ts != [] && ts[1..] == d + (p + q)
    ensures ts == [ts[0]] + d + p + q
  {
    assert ts == [ts[0]] + ts[1..];
  }

  lemma ExecSound(s: string) returns (p: seq<Token>)
    requires ParseExec(s).Ok?
    ensures Tokens(s) == p + Tokens(ParseExec(s).rest) && IsExec(p, ParseExec(s).value)
    decreases |s|, 1
  {
    hide Skip, Tokens, Items, IsLine, Args, Redirs;
    TokensSkip(s);
    if Sees(s, '(') {
      hide IsExec;
      p := BlockSound(Skip(s));
    } else {
      var d, dr := RedirsSound([], Skip(s));
      var after := Redirs([], Skip(s));
      var a, ws, nr := ArgsSound([], after.value, after.rest);
      ItemsJoin(d, [], dr, a, ws, nr);
      p := d + a;
      assert [] + ws == ws && [] + dr + nr == dr + nr;
      assert IsSimple(p, ParseExec(s).value, ws, dr + nr);
    }
  }

  lemma BlockSound(s: string) returns (p: seq<Token>)
    requires s != "" && s[0] == '(' && ParseBlock(s).Ok?
    ensures Tokens(s) == p + Tokens(ParseBlock(s).rest) && IsExec(p, ParseBlock(s).value)
    decreases |s|, 0
  {
    hide Skip, Tokens, Items, IsLine, ParseLine, Redirs, WordLen;
    TokensAt(s);
    TokensSkip(s[1..]);
    var inner := ParseLine(Skip(s[1..]));
    var a := LineSound(Skip(s[1..]));
    SeesIs(inner.rest, ')');
    var d, dr := RedirsSound([], Skip(Skip(inner.rest)[1..]));
    p := [Sym('(')] + a + [Sym(')')] + d;
    var i := 1 + |a|;
    assert p[1..i] == a && p[i + 1..] == d && [] + dr == dr;
    assert IsBlock(p, ParseBlock(s).value, i, inner.value, dr);
    assert Tokens(inner.rest) == [Sym(')')] + Tokens(inner.rest)[1..];
  }

  lemma PipeSound(s: string) returns (p: seq<Token>)
    requires ParsePipe(s).Ok?
    ensures Tokens(s) == p + Tokens(ParsePipe(s).rest) && IsPipe(p, ParsePipe(s).value)
    decreases |s|, 2
  {
    hide Skip, Tokens, IsExec, ParseExec, IsPipe;
    p := ExecSound(s);
    ExecIsPipe(p, ParseExec(s).value);
    var first := ParseExec(s);
    TokensSkip(first.rest);
    SeesIs(first.rest, '|');
    if Sees(first.rest, '|') {
      var rest := Skip(Skip(first.rest)[1..]);
      var q := PipeSound(rest);
      PipeJoin(p, first.value, q, ParsePipe(rest).value);
      Between(p, Tokens(first.rest), q, Tokens(ParsePipe(rest).rest));
      p := p + [Sym('|')] + q;
    }
  }

  lemma Between(p: seq<Token>, ts: seq<Token>, q: seq<Token>, rest: seq<Token>)
    requires ts != [] && ts[1..] == q + rest
    ensures p + ts == p + [ts[0]] + q + rest
  {
    assert ts == [ts[0]] + ts[1..];
  }

  lemma PipeJoin(p: seq<Token>, l: Tree, q: seq<Token>, r: Tree)
    requires IsExec(p, l) && IsPipe(q, r)
    ensures IsPipe(p + [Sym('|')] + q, Pipe(l, r))
  {
    hide IsExec;
    var all, i := p + [Sym('|')] + q, |p|;
    assert all[..i] == p && all[i + 1..] == q && all[i] == Sym('|');
  }

  lemma ExecIsPipe(p: seq<Token>, t: Tree)
    requires IsExec(p, t)
    ensures IsPipe(p, t)
  {
  }

  lemma LineJoin(p: seq<Token>, l: Tree, q: seq<Token>, r: Tree)
    requires IsAmp(p, l) && IsLine(q, r)
    ensures IsLine(p + [Sym(';')] + q, List(l, r))
  {
    hide IsAmp;
    var all, i := p + [Sym(';')] + q, |p|;
    assert all[..i] == p && all[i + 1..] == q && all[i] == Sym(';');
  }

  lemma AmpIsLine(p: seq<Token>, t: Tree)
    requires IsAmp(p, t)
    ensures IsLine(p, t)
  {
  }

  lemma {:induction false} BacksSound(a: seq<Token>, t: Tree, s: string) returns (p: seq<Token>)
    requires IsAmp(a, t)
    ensures a + Tokens(s) == p + Tokens(Backs(t, s).rest) && IsAmp(p, Backs(t, s).value)
    decreases |s|
  {
    hide Skip, Tokens, IsPipe;
    TokensSkip(s);
    SeesIs(s, '&');
    if Sees(s, '&') {
      var more := a + [Sym('&')];
      assert more[..|more| - 1] == a;
      p := BacksSound(more, Back(t), Skip(Skip(s)[1..]));
      assert Tokens(s) == [Sym('&')] + Tokens(s)[1..];
      assert more + Tokens(s)[1..] == a + Tokens(s);
    } else {
      p := a;
    }
  }

  lemma AmpSound(s: string) returns (p: seq<Token>)
    requires ParseAmp(s).Ok?
    ensures Tokens(s) == p + Tokens(ParseAmp(s).rest) && IsAmp(p, ParseAmp(s).value)
    decreases |s|, 3
  {
    hide Tokens, IsPipe, ParsePipe, Backs;
    p := PipeSound(s);
    p := BacksSound(p, ParsePipe(s).value, ParsePipe(s).rest);
  }

  lemma LineSound(s: string) returns (p: seq<Token>)
    requires ParseLine(s).Ok?
    ensures Tokens(s) == p + Tokens(ParseLine(s).rest) && IsLine(p, ParseLine(s).value)
    decreases |s|, 4
  {
    hide Skip, Tokens, IsAmp, ParseAmp, IsLine;
    p := AmpSound(s);
    AmpIsLine(p, ParseAmp(s).value);
    var first := ParseAmp(s);
    TokensSkip(first.rest);
    SeesIs(first.rest, ';');
    if Sees(first.rest, ';') {
      var rest := Skip(Skip(first.rest)[1..]);
      var q := LineSound(rest);
      LineJoin(p, first.value, q, ParseLine(rest).value);
      Between(p, Tokens(first.rest), q, Tokens(ParseLine(rest).rest));
      p := p + [Sym(';')] + q;
    }
  }

  // ---- What is in the grammar is accepted -----------------------------------------------------------

  /** Tokens that may follow a command, a pipeline, a background command and a line. */
  predicate Closes(q: seq<Token>) { q == [] || q[0] == Sym(')') }
  predicate EndsAmp(q: seq<Token>) { Closes(q) || q[0] == Sym(';') }
  predicate EndsPipe(q: seq<Token>) { EndsAmp(q) || q[0] == Sym('&') }
  predicate EndsExec(q: seq<Token>) { EndsPipe(q) || q[0] == Sym('|') }

  /** The parser's result: tree t, and text whose tokens are q. */
  predicate Gives(r: Parsed<Tree>, t: Tree, q: seq<Token>) {
    r.Ok? && r.value == t && Tokens(r.rest) == q
  }

  lemma {:induction false} RedirsTakes(rs: seq<Redirection>, s: string, p: seq<Token>, nr: seq<Redirection>,
                                       q: seq<Token>)
    requires Tokens(s) == p + q && Items(p, [], nr) && NoRedir(q)
    ensures Redirs(rs, s).Ok? && Redirs(rs, s).value == rs + nr && Tokens(Redirs(rs, s).rest) == q
    decreases |p|
  {
    hide Redirs, Skip, Tokens;
    if p == [] {
      assert p + q == q && rs + [] == rs;
      RedirsStop(rs, s);
    } else {
      var rest := RedirsNext(rs, s);
      assert (p + q)[2..] == p[2..] + q;
      RedirsTakes(rs + [nr[0]], rest, p[2..], nr[1..], q);
      assert rs + [nr[0]] + nr[1..] == rs + nr;
    }
  }

  lemma {:induction false} ArgsTakes(words: seq<string>, rs: seq<Redirection>, s: string,
                                     p: seq<Token>, ws: seq<string>, nr: seq<Redirection>, q: seq<Token>)
    requires Tokens(s) == p + q && Items(p, ws, nr) && (p == [] || p[0].Word?) && EndsExec(q)
    requires |words| + |ws| < MAXARGS
    ensures Gives(Args(words, rs, s), Wrap(Exec(words + ws), rs + nr), q)
    decreases |p|
  {
    hide Skip, Tokens, Redirs, Args, Wrap;
    if p == [] {
      assert p + q == q && words + [] == words && rs + [] == rs;
      ArgsStop(words, rs, s);
    } else {
      var rest := ArgsNext(words, rs, s);
      assert (p + q)[1..] == p[1..] + q && ws[0] == p[0].w;
      var d, e, dr, er := Leading(p[1..], ws[1..], nr);
      assert p[1..] + q == d + (e + q);
      RedirsTakes(rs, rest, d, dr, e + q);
      var after := Redirs(rs, rest);
      ArgsTakes(words + [ws[0]], after.value, after.rest, e, ws[1..], er, q);
      assert words + [ws[0]] + ws[1..] == words + ws && rs + dr + er == rs + nr;
    }
  }

  lemma EndSeen(s: string, q: seq<Token>)
    requires Tokens(s) == q && EndsExec(q)
    ensures Skip(s) == "" || Skip(s)[0] == '|' || Skip(s)[0] == ')' || Skip(s)[0] == '&' || Skip(s)[0] == ';'
  {
    TokensSkip(s);
    TokensNone(s);
    if Skip(s) != "" {
      TokensAt(Skip(s));
    }
    hide Tokens, Skip, WordLen;
  }

  lemma SimpleTakes(s: string, p: seq<Token>, t: Tree, words: seq<string>, rs: seq<Redirection>, q: seq<Token>)
    requires Tokens(s) == p + q && IsSimple(p, t, words, rs) && EndsExec(q)
    ensures Gives(ParseExec(s), t, q)
  {
    hide Skip, WordLen, Tokens, Redirs, Wrap, Args;
    SeesIs(s, '(');
    TokensSkip(s);
    NotParen(p, words, rs, q);
    hide Items;
    var d, e, dr, er := Leading(p, words, rs);
    assert p + q == d + (e + q);
    RedirsTakes([], Skip(s), d, dr, e + q);
    var after := Redirs([], Skip(s));
    assert [] + dr == dr && [] + words == words;
    ArgsTakes([], after.value, after.rest, e, words, er, q);
  }

  lemma NotParen(p: seq<Token>, words: seq<string>, rs: seq<Redirection>, q: seq<Token>)
    requires Items(p, words, rs) && EndsExec(q)
    ensures p + q == [] || (p + q)[0] != Sym('(')
  {
  }

  lemma ExecTakes(s: string, p: seq<Token>, t: Tree, q: seq<Token>)
    requires Tokens(s) == p + q && IsExec(p, t) && EndsExec(q)
    ensures Gives(ParseExec(s), t, q)
    decreases |p|, 1
  {
    hide Tokens, Items, EndsExec, ParseExec, IsLine;
    if words, rs :| IsSimple(p, t, words, rs) {
      SimpleTakes(s, p, t, words, rs, q);
    } else {
      var i: nat, u, rs :| IsBlock(p, t, i, u, rs);
      BlockTakes(s, p, t, i, u, rs, q);
    }
  }

  lemma BlockTakes(s: string, p: seq<Token>, t: Tree, i: nat, u: Tree, rs: seq<Redirection>, q: seq<Token>)
    requires Tokens(s) == p + q && IsBlock(p, t, i, u, rs) && EndsExec(q)
    ensures Gives(ParseExec(s), t, q)
    decreases |p|, 0
  {
    hide Skip, WordLen, Tokens, Items, Redirs, Wrap, ParseLine, IsLine;
    SeesIs(s, '(');
    TokensSkip(s);
    var text := Skip(s);
    assert (p + q)[1..] == p[1..i] + (p[i..] + q);
    assert text[0] == '(' && Tokens(Skip(text[1..])) == p[1..i] + (p[i..] + q);
    LineTakes(Skip(text[1..]), p[1..i], u, p[i..] + q);
    var inner := ParseLine(Skip(text[1..]));
    SeesIs(inner.rest, ')');
    assert (p[i..] + q)[1..] == p[i + 1..] + q;
    RedirsTakes([], Skip(Skip(inner.rest)[1..]), p[i + 1..], rs, q);
    assert [] + rs == rs;
  }

  /** parsepipe after its first command. */
  lemma PipeFollows(s: string, l: Tree, ts: seq<Token>) returns (rest: string)
    requires Gives(ParseExec(s), l, ts)
    ensures if ts != [] && ts[0] == Sym('|')
            then && Tokens(rest) == ts[1..]
                 && ParsePipe(s) == (match ParsePipe(rest) case Fail => Fail case Ok(r, more) => Ok(Pipe(l, r), more))
            else Gives(ParsePipe(s), l, ts)
  {
    var first := ParseExec(s).rest;
    SeesIs(first, '|');
    TokensSkip(first);
    rest := if Skip(first) == "" then "" else Skip(Skip(first)[1..]);
    hide Skip, Tokens, ParseExec;
  }

  lemma PipeTakes(s: string, p: seq<Token>, t: Tree, q: seq<Token>)
    requires Tokens(s) == p + q && IsPipe(p, t) && EndsPipe(q)
    ensures Gives(ParsePipe(s), t, q)
    decreases |p|, 2
  {
    hide Skip, Tokens, IsExec, ParseExec, ParsePipe;
    if IsExec(p, t) {
      ExecTakes(s, p, t, q);
      var _ := PipeFollows(s, t, q);
    } else {
      var i: nat :| i < |p| && p[i] == Sym('|') && IsExec(p[..i], t.left) && IsPipe(p[i + 1..], t.right);
      hide IsPipe;
      Cut(p, q, i);
      ExecTakes(s, p[..i], t.left, p[i..] + q);
      var rest := PipeFollows(s, t.left, p[i..] + q);
      PipeTakes(rest, p[i + 1..], t.right, q);
    }
  }

  lemma Cut(p: seq<Token>, q: seq<Token>, i: nat)
    requires i < |p|
    ensures p + q == p[..i] + (p[i..] + q) && (p[i..] + q)[0] == p[i] && (p[i..] + q)[1..] == p[i + 1..] + q
  {
  }

  /** Amps in front of q are taken one after the other. */
  lemma {:induction false} BacksTake(t: Tree, s: string, n: nat, q: seq<Token>)
    requires Tokens(s) == Amps(n) + q && EndsAmp(q)
    ensures Gives(Backs(t, s), Backed(t, n), q)
    decreases n
  {
    hide Skip, Tokens;
    SeesIs(s, '&');
    TokensSkip(s);
    if n == 0 {
      assert Amps(0) + q == q;
    } else {
      assert (Amps(n) + q)[1..] == Amps(n - 1) + q && (Amps(n) + q)[0] == Sym('&');
      BacksTake(Back(t), Skip(Skip(s)[1..]), n - 1, q);
      BackedMore(t, n);
    }
  }

  function Amps(n: nat): seq<Token> { seq(n, _ => Sym('&')) }

  function Backed(t: Tree, n: nat): Tree { if n == 0 then t else Back(Backed(t, n - 1)) }

  lemma {:induction false} BackedMore(t: Tree, n: nat)
    requires n > 0
    ensures Backed(Back(t), n - 1) == Backed(t, n)
    decreases n
  {
    if n > 1 {
      BackedMore(t, n - 1);
    }
  }

  /** An amp is a pipe with ampersands after it. */
  lemma {:induction false} AmpIs(p: seq<Token>, t: Tree) returns (a: seq<Token>, u: Tree, n: nat)
    requires IsAmp(p, t)
    ensures p == a + Amps(n) && t == Backed(u, n) && IsPipe(a, u)
    decreases |p|
  {
    hide IsPipe;
    if IsPipe(p, t) {
      a, u, n := p, t, 0;
      assert p + Amps(0) == p;
    } else {
      a, u, n := AmpIs(p[..|p| - 1], t.cmd);
      assert a + Amps(n + 1) == a + Amps(n) + [Sym('&')];
      n := n + 1;
    }
  }

  lemma AmpTakes(s: string, p: seq<Token>, t: Tree, q: seq<Token>)
    requires Tokens(s) == p + q && IsAmp(p, t) && EndsAmp(q)
    ensures Gives(ParseAmp(s), t, q)
    decreases |p|, 3
  {
    hide Skip, Tokens, IsPipe, ParsePipe, Backs;
    var a, u, n := AmpIs(p, t);
    assert p + q == a + (Amps(n) + q);
    PipeTakes(s, a, u, Amps(n) + q);
    BacksTake(u, ParsePipe(s).rest, n, q);
  }

  /** parseline after its first pipeline. */
  lemma LineFollows(s: string, l: Tree, ts: seq<Token>) returns (rest: string)
    requires Gives(ParseAmp(s), l, ts)
    ensures if ts != [] && ts[0] == Sym(';')
            then && Tokens(rest) == ts[1..]
                 && ParseLine(s) == (match ParseLine(rest) case Fail => Fail case Ok(r, more) => Ok(List(l, r), more))
            else Gives(ParseLine(s), l, ts)
  {
    var first := ParseAmp(s).rest;
    SeesIs(first, ';');
    TokensSkip(first);
    rest := if Skip(first) == "" then "" else Skip(Skip(first)[1..]);
    hide Skip, Tokens, ParseAmp;
  }

  lemma LineTakes(s: string, p: seq<Token>, t: Tree, q: seq<Token>)
    requires Tokens(s) == p + q && IsLine(p, t) && Closes(q)
    ensures Gives(ParseLine(s), t, q)
    decreases |p|, 4
  {
    hide Skip, Tokens, IsAmp, ParseAmp, ParseLine;
    if IsAmp(p, t) {
      AmpTakes(s, p, t, q);
      var _ := LineFollows(s, t, q);
    } else {
      var i: nat :| i < |p| && p[i] == Sym(';') && IsAmp(p[..i], t.left) && IsLine(p[i + 1..], t.right);
      hide IsLine;
      Cut(p, q, i);
      AmpTakes(s, p[..i], t.left, p[i..] + q);
      var rest := LineFollows(s, t.left, p[i..] + q);
      LineTakes(rest, p[i + 1..], t.right, q);
    }
  }

  /** parsecmd accepts exactly the texts whose tokens are a line, with that line's tree; the blanks between
      tokens do not matter, and no line has two trees. */
  lemma AcceptsExactly(s: string, t: Tree)
    ensures ParseCmd(s) == Ok(t, "") <==> IsLine(Tokens(s), t)
  {
    hide Skip, Tokens, IsLine, ParseLine;
    NoTokens();
    if ParseCmd(s).Ok? {
      var p := LineSound(s);
      assert p + [] == p;
    }
    if IsLine(Tokens(s), t) {
      assert Tokens(s) + [] == Tokens(s);
      LineTakes(s, Tokens(s), t, []);
      var rest := ParseLine(s).rest;
      TokensNone(rest);
      LineSkipped(s);
      SkipStays(rest);
    }
  }

  lemma LineSkipped(s: string)
    ensures ParseLine(s).Ok? ==> Skipped(ParseLine(s).rest)
  {
  }
}
