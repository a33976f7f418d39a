/** sh.c's parser as it runs: pointers into one buffer, and the zero bytes that
    nulterminate writes into it afterwards. */
module Shell {
  import opened ShellGrammar

  // fcntl.h
  const O_RDONLY: int := 0
  const O_WRONLY_CREATE: int := 0x201

  /** A token: buf[q..eq]. */
  datatype Tok = Tok(q: nat, eq: nat)

  datatype RedirTok = RedirTok(file: Tok, mode: int, fd: int)

  datatype Cmd =
    | ExecCmd(argv: seq<Tok>)
    | RedirCmd(cmd: Cmd, to: RedirTok)
    | PipeCmd(left: Cmd, right: Cmd)
    | ListCmd(left: Cmd, right: Cmd)
    | BackCmd(cmd: Cmd)

  // ---- What the pointers stand for ------------------------------------------------------

  function Slice(text: string, t: Tok): string {
    if t.q <= t.eq <= |text| then text[t.q..t.eq] else ""
  }

  /** A scanned word: word characters up to something that is none. */
  ghost predicate Good(text: string, t: Tok) {
    && t.q < t.eq <= |text|
    && (forall i :: t.q <= i < t.eq ==> IsWordChar(text[i]))
    && (t.eq == |text| || !IsWordChar(text[t.eq]))
  }

  ghost predicate GoodRedir(text: string, r: RedirTok) {
    Good(text, r.file) && ((r.mode == O_RDONLY && r.fd == 0) || (r.mode == O_WRONLY_CREATE && r.fd == 1))
  }

  ghost predicate GoodRedirs(text: string, rs: seq<RedirTok>) {
    forall i :: 0 <= i < |rs| ==> GoodRedir(text, rs[i])
  }

  ghost predicate GoodArgs(text: string, ts: seq<Tok>) {
    forall i :: 0 <= i < |ts| ==> Good(text, ts[i])
  }

  ghost predicate GoodCmd(text: string, c: Cmd) {
    match c
    case ExecCmd(argv) => GoodArgs(text, argv)
    case RedirCmd(d, to) => GoodCmd(text, d) && GoodRedir(text, to)
    case PipeCmd(l, r) => GoodCmd(text, l) && GoodCmd(text, r)
    case ListCmd(l, r) => GoodCmd(text, l) && GoodCmd(text, r)
    case BackCmd(d) => GoodCmd(text, d)
  }

  function RedirOf(text: string, r: RedirTok): Redirection {
    Redirection(Slice(text, r.file), r.fd == 1)
  }

  function Rs(text: string, rs: seq<RedirTok>): (r: seq<Redirection>)
    ensures |r| == |rs|
  {
    seq(|rs|, i requires 0 <= i < |rs| => RedirOf(text, rs[i]))
  }

  function WordsOf(text: string, ts: seq<Tok>): (r: seq<string>)
    ensures |r| == |ts|
  {
    seq(|ts|, i requires 0 <= i < |ts| => Slice(text, ts[i]))
  }

  function TreeOf(text: string, c: Cmd): Tree {
    match c
    case ExecCmd(argv) => Exec(WordsOf(text, argv))
    case RedirCmd(d, to) => Redir(TreeOf(text, d), RedirOf(text, to))
    case PipeCmd(l, r) => Pipe(TreeOf(text, l), TreeOf(text, r))
    case ListCmd(l, r) => List(TreeOf(text, l), TreeOf(text, r))
    case BackCmd(d) => Back(TreeOf(text, d))
  }

  function WrapCmd(c: Cmd, rs: seq<RedirTok>): Cmd {
    if rs == [] then c else RedirCmd(WrapCmd(c, rs[..|rs| - 1]), rs[|rs| - 1])
  }

  lemma {:induction false} WrapTree(text: string, c: Cmd, rs: seq<RedirTok>)
    ensures TreeOf(text, WrapCmd(c, rs)) == Wrap(TreeOf(text, c), Rs(text, rs))
    ensures GoodCmd(text, c) && GoodRedirs(text, rs) ==> GoodCmd(text, WrapCmd(c, rs))
    decreases |rs|
  {
    if rs != [] {
      WrapTree(text, c, rs[..|rs| - 1]);
      assert Rs(text, rs)[..|rs| - 1] == Rs(text, rs[..|rs| - 1]);
    }
  }

  // ---- Scanning from an index ---------------------------------------------------------------

  lemma SkipAt(text: string, i: nat)
    requires i <= |text|
    ensures (i == |text| || !IsSpace(text[i])) ==> Skip(text[i..]) == text[i..]
    ensures (i < |text| && IsSpace(text[i])) ==> Skip(text[i..]) == Skip(text[i + 1..])
  {
    if i < |text| { assert text[i..][1..] == text[i + 1..]; }
  }

  lemma WordAt(text: string, i: nat)
    requires i <= |text|
    ensures (i == |text| || !IsWordChar(text[i])) ==> WordLen(text[i..]) == 0
    ensures (i < |text| && IsWordChar(text[i])) ==> WordLen(text[i..]) == 1 + WordLen(text[i + 1..])
  {
    if i < |text| { assert text[i..][1..] == text[i + 1..]; }
  }

  /** What gettoken returns for text that starts with a token. */
  function TokenKind(r: string): char {
    if r == "" then '\0'
    else if !IsSymbol(r[0]) then 'a'
    else if r[0] == '>' && |r| > 1 && r[1] == '>' then '+'
    else r[0]
  }

  function TokenLen(r: string): (n: nat)
    ensures n <= |r|
  {
    if r == "" then 0
    else if !IsSymbol(r[0]) then WordLen(r)
    else if r[0] == '>' && |r| > 1 && r[1] == '>' then 2
    else 1
  }

  datatype Result<T> = Ok'(value: T) | Panic

  datatype ArgStep = Stop | More(argv: seq<Tok>, rs: seq<RedirTok>) | Bad

  class Parser {
    const buf: array<char>
    const es: nat
    ghost const text: string
    // *ps
    var ps: nat

    ghost predicate Valid()
      reads this, buf
    {
      && es < buf.Length && buf[es] == '\0' && buf[..es] == text
      && (forall i :: 0 <= i < es ==> text[i] != '\0')
      && ps <= es
    }

    ghost function Rest(): string
      reads this
    {
      if ps <= |text| then text[ps..] else ""
    }

    constructor (buf: array<char>, es: nat)
      requires es < buf.Length && buf[es] == '\0' && '\0' !in buf[..es]
      ensures this.buf == buf && this.es == es && ps == 0 && text == buf[..es] && Valid()
    {
      this.buf := buf;
      this.es := es;
      this.text := buf[..es];
      this.ps := 0;
    }

    /** while(s < es && strchr(whitespace, *s)) s++ */
    method SkipSpace(s0: nat) returns (s: nat)
      requires Valid() && s0 <= es
      ensures s0 <= s <= es && text[s..] == Skip(text[s0..])
      ensures s == es || !IsSpace(text[s])
    {
      s := s0;
      SkipAt(text, s);
      while s < es && IsSpace(buf[s])
        invariant s0 <= s <= es && Skip(text[s..]) == Skip(text[s0..])
      {
        assert buf[..es][s] == text[s];
        SkipAt(text, s);
        s := s + 1;
      }
      assert s < es ==> buf[..es][s] == text[s];
      SkipAt(text, s);
    }

    /** peek: moves *ps past blanks and tells whether one of toks is next. */
    method Peek(toks: string) returns (r: bool)
      requires Valid()
      modifies `ps
      ensures Valid() && old(ps) <= ps && Rest() == Skip(old(Rest()))
      ensures r <==> Rest() != "" && Rest()[0] in toks
    {
      ps := SkipSpace(ps);
      assert ps < es ==> buf[..es][ps] == text[ps];
      r := buf[ps] != '\0' && buf[ps] in toks;
    }

    /** The scanning loop of gettoken's default case. */
    method ScanWord(q: nat) returns (s: nat)
      requires Valid() && q <= es
      ensures s <= es && s == q + WordLen(text[q..])
      ensures q < s ==> Good(text, Tok(q, s))
    {
      s := q;
      while s < es && !IsSpace(buf[s]) && !IsSymbol(buf[s])
        invariant q <= s <= es && WordLen(text[q..]) == s - q + WordLen(text[s..])
        invariant forall i :: q <= i < s ==> IsWordChar(text[i])
      {
        assert buf[..es][s] == text[s];
        WordAt(text, s);
        s := s + 1;
      }
      assert s < es ==> buf[..es][s] == text[s];
      WordAt(text, s);
    }

    /** The switch of gettoken at the first character of a token. */
    method ScanToken(q: nat) returns (tok: char, s: nat)
      requires Valid() && q <= es && (q == es || !IsSpace(text[q]))
      ensures tok == TokenKind(text[q..]) && s == q + TokenLen(text[q..]) <= es
      ensures tok == 'a' ==> Good(text, Tok(q, s))
    {
      assert q < es ==> buf[..es][q] == text[q];
      assert q + 1 < es ==> buf[..es][q + 1] == text[q + 1];
      s := q;
      if buf[s] == '\0' {
        tok := '\0';
      } else if IsSymbol(buf[s]) {
        tok := buf[s];
        s := s + 1;
        if tok == '>' && buf[s] == '>' {
          tok := '+';
          s := s + 1;
        }
      } else {
        tok := 'a';
        WordAt(text, s);
        s := ScanWord(s);
      }
    }

    /** gettoken: the kind of the next token, where it lies, and *ps past it and
        the blanks behind it. */
    method GetToken() returns (tok: char, t: Tok)
      requires Valid()
      modifies `ps
      ensures Valid() && old(ps) <= ps
      ensures t.q <= t.eq <= es && text[t.q..] == Skip(old(Rest()))
      ensures tok == TokenKind(text[t.q..]) && t.eq == t.q + TokenLen(text[t.q..])
      ensures Rest() == Skip(text[t.eq..])
      ensures tok == 'a' ==> Good(text, t)
      ensures tok != '\0' ==> old(ps) < ps
    {
      hide Skip, TokenKind, TokenLen;
      var q := SkipSpace(ps);
      var s;
      tok, s := ScanToken(q);
      t := Tok(q, s);
      TokenPositive(text[q..]);
      ps := SkipSpace(s);
    }

    /** One round of parseredirs, at a < or >. */
    method NextRedir(rs: seq<RedirTok>) returns (r: Result<seq<RedirTok>>)
      requires Valid() && GoodRedirs(text, rs) && Rest() != "" && Rest()[0] in "<>"
      modifies `ps
      ensures Valid() && old(ps) < ps && Skipped(Rest())
      ensures r.Panic? ==> Redirs(Rs(text, rs), old(Rest())) == Fail
      ensures r.Ok'? ==>
                GoodRedirs(text, r.value) && Redirs(Rs(text, rs), old(Rest())) == Redirs(Rs(text, r.value), Rest())
    {
      hide Skip, Redirs, TokenKind, TokenLen, Rs, Good;
      SkipStays(Rest());
      KindOfRedir(Rest());
      var tok, t1 := GetToken();
      SkipStays(Rest());
      var w, t := GetToken();
      RedirsHere(Rs(text, rs), text, t1, t);
      if w != 'a' {
        return Panic;
      }
      var to := if tok == '<' then RedirTok(t, O_RDONLY, 0) else RedirTok(t, O_WRONLY_CREATE, 1);
      RsAppend(text, rs, to);
      r := Ok'(rs + [to]);
    }

    /** parseredirs, collecting the redirections in rs. */
    method ParseRedirs(rs0: seq<RedirTok>) returns (r: Result<seq<RedirTok>>)
      requires Valid() && GoodRedirs(text, rs0)
      modifies `ps
      ensures Valid() && old(ps) <= ps
      ensures r.Panic? <==> Redirs(Rs(text, rs0), old(Rest())).Fail?
      ensures r.Ok'? ==>
                GoodRedirs(text, r.value) && Redirs(Rs(text, rs0), old(Rest())) == Ok(Rs(text, r.value), Rest())
    {
      hide Skip, Redirs, Rs, GoodRedirs;
      r := Ok'(rs0);
      var more := Peek("<>");
      RedirsSkips(Rs(text, rs0), old(Rest()));
      while more
        invariant Valid() && old(ps) <= ps && r.Ok'? && GoodRedirs(text, r.value)
        invariant Redirs(Rs(text, rs0), old(Rest())) == Redirs(Rs(text, r.value), Rest())
        invariant Skipped(Rest()) && (more <==> Rest() != "" && Rest()[0] in "<>")
        decreases es - ps
      {
        r := NextRedir(r.value);
        if r.Panic? {
          return;
        }
        SkipStays(Rest());
        more := Peek("<>");
      }
      RedirsStop(Rs(text, r.value), Rest());
    }

    /** One round of parseexec's loop: a word and the redirections behind it. */
    method NextArg(argv: seq<Tok>, rs: seq<RedirTok>) returns (st: ArgStep)
      requires Valid() && GoodRedirs(text, rs) && GoodArgs(text, argv) && |argv| < MAXARGS
      modifies `ps
      ensures Valid() && old(ps) <= ps
      ensures st.Stop? ==>
                Args(WordsOf(text, argv), Rs(text, rs), old(Rest())) ==
                  Ok(Wrap(Exec(WordsOf(text, argv)), Rs(text, rs)), Rest())
      ensures st.Bad? ==> Args(WordsOf(text, argv), Rs(text, rs), old(Rest())) == Fail
      ensures st.More? ==>
                && old(ps) < ps && |st.argv| < MAXARGS && GoodRedirs(text, st.rs) && GoodArgs(text, st.argv)
                && Args(WordsOf(text, argv), Rs(text, rs), old(Rest()))
                   == Args(WordsOf(text, st.argv), Rs(text, st.rs), Rest())
    {
      hide Skip, Redirs, Args, TokenKind, TokenLen, Rs, WordsOf, Good, GoodRedirs, GoodArgs, Wrap;
      ArgsSkips(WordsOf(text, argv), Rs(text, rs), Rest());
      var stop := Peek("|)&;");
      ArgsRound(WordsOf(text, argv), Rs(text, rs), Rest());
      SkipStays(Rest());
      if stop {
        return Stop;
      }
      var tok, t := GetToken();
      KindZero(text[t.q..]);
      if tok == '\0' {
        return Stop;
      }
      if tok != 'a' {
        return Bad;
      }
      GoodAppend(text, argv, t);
      if |argv| + 1 >= MAXARGS {
        return Bad;
      }
      var p := ParseRedirs(rs);
      st := if p.Panic? then Bad else More(argv + [t], p.value);
    }

    /** The loop of parseexec: words, each followed by redirections. */
    method ParseArgs(rs0: seq<RedirTok>) returns (r: Result<Cmd>)
      requires Valid() && GoodRedirs(text, rs0)
      modifies `ps
      ensures Valid() && old(ps) <= ps
      ensures r.Panic? <==> Args([], Rs(text, rs0), old(Rest())).Fail?
      ensures r.Ok'? ==>
                GoodCmd(text, r.value) && Args([], Rs(text, rs0), old(Rest())) == Ok(TreeOf(text, r.value), Rest())
    {
      hide Args, Rs, WordsOf, GoodRedirs, GoodArgs, GoodCmd, TreeOf, Wrap, WrapCmd;
      NoWords(text);
      var st := NextArg([], rs0);
      var argv, rs: seq<RedirTok> := [], rs0;
      while st.More?
        invariant Valid() && old(ps) <= ps && GoodRedirs(text, rs) && GoodArgs(text, argv)
        invariant st.More? ==> GoodRedirs(text, st.rs) && GoodArgs(text, st.argv) && |st.argv| < MAXARGS
        invariant st.More? ==>
                    Args([], Rs(text, rs0), old(Rest())) == Args(WordsOf(text, st.argv), Rs(text, st.rs), Rest())
        invariant st.Bad? ==> Args([], Rs(text, rs0), old(Rest())) == Fail
        invariant st.Stop? ==>
                    Args([], Rs(text, rs0), old(Rest())) == Ok(Wrap(Exec(WordsOf(text, argv)), Rs(text, rs)), Rest())
        decreases es - ps, st.More?
      {
        argv, rs := st.argv, st.rs;
        st := NextArg(argv, rs);
      }
      if st.Bad? {
        return Panic;
      }
      ExecTree(text, argv, rs);
      r := Ok'(WrapCmd(ExecCmd(argv), rs));
    }

    method ParseExec() returns (r: Result<Cmd>)
      requires Valid()
      modifies `ps
      ensures Valid() && old(ps) <= ps
      ensures r.Panic? <==> ShellGrammar.ParseExec(old(Rest())).Fail?
      ensures r.Ok'? ==>
                GoodCmd(text, r.value) && ShellGrammar.ParseExec(old(Rest())) == Ok(TreeOf(text, r.value), Rest())
      decreases es - ps, 1
    {
      hide Skip, Redirs, Args, ShellGrammar.ParseBlock;
      var open := Peek("(");
      SkipStays(Rest());
      if open {
        r := ParseBlock();
        return;
      }
      assert Rs(text, []) == [];
      var p := ParseRedirs([]);
      if p.Panic? {
        return Panic;
      }
      r := ParseArgs(p.value);
    }

    /** gettoken where peek has seen the symbol c. */
    method PassSymbol(c: char)
      requires Valid() && Rest() != "" && Rest()[0] == c && IsSymbol(c) && c != '>'
      modifies `ps
      ensures Valid() && old(ps) < ps && Rest() == Skip(old(Rest())[1..])
    {
      hide Skip, TokenKind, TokenLen;
      BeforeSymbol(c, Rest());
      var tok, t := GetToken();
      SymbolPassed(text, c, t);
    }

    method ParseBlock() returns (r: Result<Cmd>)
      requires Valid() && Rest() != "" && Rest()[0] == '('
      modifies `ps
      ensures Valid() && old(ps) <= ps
      ensures r.Panic? <==> ShellGrammar.ParseBlock(old(Rest())).Fail?
      ensures r.Ok'? ==>
                GoodCmd(text, r.value) && ShellGrammar.ParseBlock(old(Rest())) == Ok(TreeOf(text, r.value), Rest())
      decreases es - ps, 0
    {
      hide Skip, Redirs, ShellGrammar.ParseLine, Rs, GoodRedirs;
      PassSymbol('(');
      var c := ParseLine();
      if c.Panic? {
        return Panic;
      }
      var close := Peek(")");
      if !close {
        return Panic;
      }
      PassSymbol(')');
      assert Rs(text, []) == [] && GoodRedirs(text, []) by { NoRedirs(text); }
      var p := ParseRedirs([]);
      if p.Panic? {
        return Panic;
      }
      WrapTree(text, c.value, p.value);
      r := Ok'(WrapCmd(c.value, p.value));
    }

    method ParsePipe() returns (r: Result<Cmd>)
      requires Valid()
      modifies `ps
      ensures Valid() && old(ps) <= ps
      ensures r.Panic? <==> ShellGrammar.ParsePipe(old(Rest())).Fail?
      ensures r.Ok'? ==>
                GoodCmd(text, r.value) && ShellGrammar.ParsePipe(old(Rest())) == Ok(TreeOf(text, r.value), Rest())
      decreases es - ps, 2
    {
      hide Skip, ShellGrammar.ParseExec;
      r := ParseExec();
      if r.Panic? {
        return;
      }
      var bar := Peek("|");
      if bar {
        SkipStays(Rest());
        PassSymbol('|');
        var right := ParsePipe();
        r := if right.Panic? then Panic else Ok'(PipeCmd(r.value, right.value));
      }
    }

    method ParseLine() returns (r: Result<Cmd>)
      requires Valid()
      modifies `ps
      ensures Valid() && old(ps) <= ps
      ensures r.Panic? <==> ShellGrammar.ParseLine(old(Rest())).Fail?
      ensures r.Ok'? ==>
                GoodCmd(text, r.value) && ShellGrammar.ParseLine(old(Rest())) == Ok(TreeOf(text, r.value), Rest())
      decreases es - ps, 3
    {
      hide Skip, ShellGrammar.ParsePipe, Backs;
      r := ParsePipe();
      if r.Panic? {
        return;
      }
      var c := ParseAmps(r.value);
      r := Ok'(c);
      var semi := Peek(";");
      if semi {
        SkipStays(Rest());
        PassSymbol(';');
        var right := ParseLine();
        r := if right.Panic? then Panic else Ok'(ListCmd(c, right.value));
      }
    }

    /** The loop of parseline over the ampersands. */
    method ParseAmps(c0: Cmd) returns (c: Cmd)
      requires Valid() && GoodCmd(text, c0)
      modifies `ps
      ensures Valid() && old(ps) <= ps && GoodCmd(text, c)
      ensures Backs(TreeOf(text, c0), old(Rest())) == Ok(TreeOf(text, c), Rest())
    {
      hide Skip, Backs;
      c := c0;
      BacksSkips(TreeOf(text, c), Rest());
      var more := Peek("&");
      while more
        invariant Valid() && old(ps) <= ps && GoodCmd(text, c) && Skipped(Rest())
        invariant Backs(TreeOf(text, c0), old(Rest())) == Backs(TreeOf(text, c), Rest())
        invariant more <==> Rest() != "" && Rest()[0] == '&'
        decreases es - ps
      {
        BacksRound(TreeOf(text, c), Rest());
        PassSymbol('&');
        c := BackCmd(c);
        SkipStays(Rest());
        more := Peek("&");
      }
      BacksRound(TreeOf(text, c), Rest());
    }
  }

  lemma BacksSkips(t: Tree, s: string)
    ensures Backs(t, s) == Backs(t, Skip(s))
  {
    hide Skip;
    SkipStays(Skip(s));
  }

  lemma BacksRound(t: Tree, s: string)
    requires Skipped(s)
    ensures Backs(t, s) == if s != "" && s[0] == '&' then Backs(Back(t), Skip(s[1..])) else Ok(t, s)
  {
    hide Skip;
    SkipStays(s);
  }

  /** The tree of a finished simple command. */
  lemma ExecTree(text: string, argv: seq<Tok>, rs: seq<RedirTok>)
    requires GoodArgs(text, argv) && GoodRedirs(text, rs)
    ensures GoodCmd(text, WrapCmd(ExecCmd(argv), rs))
    ensures TreeOf(text, WrapCmd(ExecCmd(argv), rs)) == Wrap(Exec(WordsOf(text, argv)), Rs(text, rs))
  {
    hide Good, GoodRedirs, Rs, WordsOf, Wrap, WrapCmd;
    WrapTree(text, ExecCmd(argv), rs);
  }

  lemma GoodAppend(text: string, ts: seq<Tok>, t: Tok)
    requires GoodArgs(text, ts) && Good(text, t)
    ensures GoodArgs(text, ts + [t])
    ensures WordsOf(text, ts + [t]) == WordsOf(text, ts) + [text[t.q..t.eq]]
    ensures text[t.q..][..t.eq - t.q] == text[t.q..t.eq] && text[t.q..][t.eq - t.q..] == text[t.eq..]
  {
    CutAt(text, t.q, t.eq);
  }

  lemma NoRedirs(text: string)
    ensures Rs(text, []) == [] && GoodRedirs(text, [])
  {
  }

  lemma BeforeSymbol(c: char, s: string)
    requires s != "" && s[0] == c && IsSymbol(c) && c != '>'
    ensures TokenKind(s) == c && TokenLen(s) == 1 && Skip(s) == s
  {
  }

  /** After gettoken has read the symbol c. */
  lemma SymbolPassed(text: string, c: char, t: Tok)
    requires t.q <= t.eq <= |text| && TokenLen(text[t.q..]) == 1 && t.eq == t.q + 1
    ensures text[t.q..][1..] == text[t.eq..]
  {
  }

  lemma KindZero(r: string)
    ensures TokenKind(r) == '\0' && Skipped(r) && (r == "" || r[0] != '\0') ==> r == ""
  {
  }

  lemma NoWords(text: string)
    ensures WordsOf(text, []) == [] && GoodArgs(text, [])
  {
  }

  lemma ArgsSkips(words: seq<string>, rs: seq<Redirection>, s: string)
    ensures Args(words, rs, s) == Args(words, rs, Skip(s))
  {
    hide Skip, Redirs, WordLen, Wrap;
    SkipStays(Skip(s));
  }

  /** One round of parseexec's loop. */
  lemma ArgsRound(words: seq<string>, rs: seq<Redirection>, r: string)
    requires Skipped(r)
    ensures Args(words, rs, r)
         == if r == "" || r[0] in "|)&;" then Ok(Wrap(Exec(words), rs), r)
            else if TokenKind(r) != 'a' || |words| + 1 >= MAXARGS then Fail
            else
              match Redirs(rs, Skip(r[TokenLen(r)..]))
              case Fail => Fail
              case Ok(more, rest) => Args(words + [r[..TokenLen(r)]], more, rest)
  {
    hide Skip, WordLen, Redirs, Wrap;
    SkipStays(r);
    WordIffKind(r);
  }

  lemma RsAppend(text: string, rs: seq<RedirTok>, to: RedirTok)
    ensures Rs(text, rs + [to]) == Rs(text, rs) + [RedirOf(text, to)]
  {
  }

  lemma RedirsSkips(done: seq<Redirection>, s: string)
    ensures Redirs(done, s) == Redirs(done, Skip(s))
  {
    hide Skip;
    SkipStays(Skip(s));
  }

  lemma RedirsStop(done: seq<Redirection>, s: string)
    requires Skipped(s) && !(s != "" && s[0] in "<>")
    ensures Redirs(done, s) == Ok(done, s)
  {
    hide Skip, WordLen;
    SkipStays(s);
  }

  lemma KindOfRedir(s: string)
    requires s != "" && s[0] in "<>"
    ensures TokenKind(s) == '<' || TokenKind(s) == '>' || TokenKind(s) == '+'
  {
  }

  lemma CutAt(text: string, q: nat, e: nat)
    requires q <= e <= |text|
    ensures text[q..][..e - q] == text[q..e] && text[q..][e - q..] == text[e..]
  {
  }

  /** One round of parseredirs: t1 is the symbol, t the file. */
  lemma RedirsHere(done: seq<Redirection>, text: string, t1: Tok, t: Tok)
    requires t1.q <= t1.eq <= |text| && t.q <= t.eq <= |text|
    requires Skipped(text[t1.q..]) && t1.eq == t1.q + TokenLen(text[t1.q..])
    requires TokenKind(text[t1.q..]) == '<' || TokenKind(text[t1.q..]) == '>' || TokenKind(text[t1.q..]) == '+'
    requires text[t.q..] == Skip(text[t1.eq..]) && t.eq == t.q + TokenLen(text[t.q..])
    ensures Redirs(done, text[t1.q..])
         == if TokenKind(text[t.q..]) != 'a' then Fail
            else Redirs(done + [Redirection(text[t.q..t.eq], TokenKind(text[t1.q..]) != '<')], Skip(text[t.eq..]))
  {
    hide Skip, Redirs, TokenKind, TokenLen;
    CutAt(text, t1.q, t1.eq);
    CutAt(text, t.q, t.eq);
    RedirsRound(done, text[t1.q..]);
  }

  lemma RedirsRound(done: seq<Redirection>, r: string)
    requires Skipped(r) && (TokenKind(r) == '<' || TokenKind(r) == '>' || TokenKind(r) == '+')
    ensures var f := Skip(r[TokenLen(r)..]);
            Redirs(done, r) == if TokenKind(f) != 'a' then Fail
                               else Redirs(done + [Redirection(f[..TokenLen(f)], TokenKind(r) != '<')],
                                           Skip(f[TokenLen(f)..]))
  {
    hide Skip, WordLen;
    SkipStays(r);
    var f := Skip(r[TokenLen(r)..]);
    WordIffKind(f);
  }

  lemma WordIffKind(f: string)
    requires Skipped(f)
    ensures TokenKind(f) == 'a' <==> WordLen(f) > 0
    ensures TokenKind(f) == 'a' ==> TokenLen(f) == WordLen(f)
  {
    assert f[0..] == f;
    WordAt(f, 0);
  }

  lemma TokenPositive(r: string)
    ensures TokenKind(r) != '\0' && Skipped(r) ==> TokenLen(r) > 0
  {
    if r != "" && !IsSymbol(r[0]) { WordAt(r, 0); assert r[0..] == r; }
  }

  // ---- nulterminate ---------------------------------------------------------------------------

  /** The C string that starts at index q. */
  function CString(b: string, q: nat): string
    decreases |b| - q
  {
    if q >= |b| || b[q] == '\0' then "" else [b[q]] + CString(b, q + 1)
  }

  /** The command as runcmd reads it, every word up to its zero byte. */
  function CTree(b: string, c: Cmd): Tree {
    match c
    case ExecCmd(argv) => Exec(seq(|argv|, i requires 0 <= i < |argv| => CString(b, argv[i].q)))
    case RedirCmd(d, to) => Redir(CTree(b, d), Redirection(CString(b, to.file.q), to.fd == 1))
    case PipeCmd(l, r) => Pipe(CTree(b, l), CTree(b, r))
    case ListCmd(l, r) => List(CTree(b, l), CTree(b, r))
    case BackCmd(d) => Back(CTree(b, d))
  }

  ghost function EndsOf(c: Cmd): set<int> {
    match c
    case ExecCmd(argv) => set i | 0 <= i < |argv| :: argv[i].eq
    case RedirCmd(d, to) => EndsOf(d) + {to.file.eq}
    case PipeCmd(l, r) => EndsOf(l) + EndsOf(r)
    case ListCmd(l, r) => EndsOf(l) + EndsOf(r)
    case BackCmd(d) => EndsOf(d)
  }

  /** b is the text with zero bytes written at the indices in z. */
  ghost predicate Zeroed(text: string, b: string, z: set<int>) {
    && |b| > |text|
    && (forall i :: 0 <= i < |text| ==> b[i] == if i in z then '\0' else text[i])
    && b[|text|] == '\0'
  }

  /** Zero bytes land only where no word character is. */
  ghost predicate Between(text: string, z: set<int>) {
    forall i :: i in z && 0 <= i < |text| ==> !IsWordChar(text[i])
  }

  lemma {:induction false} EndsBetween(text: string, c: Cmd)
    requires GoodCmd(text, c)
    ensures Between(text, EndsOf(c)) && forall i :: i in EndsOf(c) ==> 0 <= i <= |text|
  {
    match c
    case ExecCmd(argv) =>
    case RedirCmd(d, to) => EndsBetween(text, d);
    case PipeCmd(l, r) => EndsBetween(text, l); EndsBetween(text, r);
    case ListCmd(l, r) => EndsBetween(text, l); EndsBetween(text, r);
    case BackCmd(d) => EndsBetween(text, d);
  }

  /** Inside a scanned word no zero is written, at its end one is: the C string
      is the scanned slice. */
  lemma {:induction false} CStringIs(text: string, b: string, z: set<int>, q: nat, eq: nat)
    requires Zeroed(text, b, z) && Between(text, z) && q <= eq <= |text|
    requires (forall i :: q <= i < eq ==> IsWordChar(text[i]) && text[i] != '\0') && (eq == |text| || eq in z)
    ensures CString(b, q) == text[q..eq]
    decreases eq - q
  {
    if q < eq {
      CStringIs(text, b, z, q + 1, eq);
      assert text[q..eq] == [text[q]] + text[q + 1..eq];
    }
  }

  lemma TokenIs(text: string, b: string, z: set<int>, t: Tok)
    requires Zeroed(text, b, z) && Between(text, z) && Good(text, t) && t.eq in z
    requires forall i :: 0 <= i < |text| ==> text[i] != '\0'
    ensures CString(b, t.q) == Slice(text, t)
  {
    CStringIs(text, b, z, t.q, t.eq);
  }

  /** After nulterminate runcmd reads the tree that was parsed. */
  lemma {:induction false} TreesAgree(text: string, b: string, z: set<int>, c: Cmd)
    requires Zeroed(text, b, z) && Between(text, z) && GoodCmd(text, c) && EndsOf(c) <= z
    requires forall i :: 0 <= i < |text| ==> text[i] != '\0'
    ensures CTree(b, c) == TreeOf(text, c)
  {
    hide CString, Zeroed, Between, Good, Slice;
    match c
    case ExecCmd(argv) =>
      forall i | 0 <= i < |argv| ensures CString(b, argv[i].q) == Slice(text, argv[i]) {
        assert argv[i].eq in EndsOf(c);
        TokenIs(text, b, z, argv[i]);
      }
      assert CTree(b, c).words == WordsOf(text, argv);
    case RedirCmd(d, to) =>
      TreesAgree(text, b, z, d);
      assert to.file.eq in EndsOf(c);
      TokenIs(text, b, z, to.file);
    case PipeCmd(l, r) => TreesAgree(text, b, z, l); TreesAgree(text, b, z, r);
    case ListCmd(l, r) => TreesAgree(text, b, z, l); TreesAgree(text, b, z, r);
    case BackCmd(d) => TreesAgree(text, b, z, d);
  }

  ghost predicate EndsFit(c: Cmd, n: nat) {
    forall i :: i in EndsOf(c) ==> 0 <= i < n
  }

  /** Writes a zero byte at the end of every word and file name of c. */
  method NulTerminate(buf: array<char>, c: Cmd)
    requires EndsFit(c, buf.Length)
    modifies buf
    ensures forall i :: 0 <= i < buf.Length ==> buf[i] == if i in EndsOf(c) then '\0' else old(buf[i])
    decreases c
  {
    match c
    case ExecCmd(argv) =>
      for k := 0 to |argv|
        invariant forall i :: 0 <= i < buf.Length ==>
          buf[i] == if exists j :: 0 <= j < k && argv[j].eq == i then '\0' else old(buf[i])
      {
        assert argv[k].eq in EndsOf(c);
        buf[argv[k].eq] := '\0';
      }
    case RedirCmd(d, to) =>
      assert to.file.eq in EndsOf(c);
      NulTerminate(buf, d);
      buf[to.file.eq] := '\0';
    case PipeCmd(l, r) =>
      assert EndsOf(l) <= EndsOf(c) && EndsOf(r) <= EndsOf(c);
      NulTerminate(buf, l);
      NulTerminate(buf, r);
    case ListCmd(l, r) =>
      assert EndsOf(l) <= EndsOf(c) && EndsOf(r) <= EndsOf(c);
      NulTerminate(buf, l);
      NulTerminate(buf, r);
    case BackCmd(d) =>
      assert EndsOf(d) == EndsOf(c);
      NulTerminate(buf, d);
  }

  method Strlen(buf: array<char>) returns (n: nat)
    requires '\0' in buf[..]
    ensures n < buf.Length && buf[n] == '\0' && '\0' !in buf[..n]
  {
    n := 0;
    while n < buf.Length && buf[n] != '\0'
      invariant n <= buf.Length && '\0' !in buf[..n]
    {
      n := n + 1;
    }
  }

  /** parsecmd: succeeds exactly on the texts of the grammar, and then every
      word in the buffer, read as a C string, is the word that was scanned. */
  method ParseCmd(buf: array<char>) returns (r: Result<Cmd>, ghost text: string)
    requires '\0' in buf[..]
    modifies buf
    ensures text < old(buf[..]) && '\0' !in text && old(buf[..])[|text|] == '\0'
    ensures r.Panic? <==> ShellGrammar.ParseCmd(text).Fail?
    ensures r.Panic? ==> buf[..] == old(buf[..])
    ensures r.Ok'? ==> ShellGrammar.ParseCmd(text) == Ok(CTree(buf[..], r.value), "")
  {
    hide ShellGrammar.ParseLine, CTree, TreeOf, GoodCmd, EndsOf, Skip;
    var es := Strlen(buf);
    text := buf[..es];
    var p := new Parser(buf, es);
    assert p.Rest() == text;
    r := p.ParseLine();
    if r.Panic? {
      return;
    }
    LineSkipped(text);
    SkipStays(p.Rest());
    var any := p.Peek("");
    if p.ps != es {
      return Panic, text;
    }
    EndsBetween(text, r.value);
    NulTerminate(buf, r.value);
    TreesAgree(text, buf[..], EndsOf(r.value), r.value);
  }

  lemma LineSkipped(s: string)
    requires ShellGrammar.ParseLine(s).Ok?
    ensures Skipped(ShellGrammar.ParseLine(s).rest)
  {
    hide ShellGrammar.ParseLine;
  }
}
