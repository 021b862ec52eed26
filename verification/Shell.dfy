/** The shell's parser (sh.c:262-493): it accepts exactly the lines whose tokens spell a command, and
    leaves every word of the line intact. */
module Shell {
  import opened Basics
  import opened ShellGrammar
  import opened ShellTokens

  /** The words a command refers to. */
  ghost function Words(c: Cmd): multiset<Word> {
    match c
    case Exec(argv) => multiset(argv)
    case Redir(d, r) => Words(d) + multiset{r.file}
    case Pipe(l, r) => Words(l) + Words(r)
    case List(l, r) => Words(l) + Words(r)
    case Back(d) => Words(d)
  }

  // ----- the lexer -----

  /** The skipping loop of gettoken and peek. */
  method SkipWhite(line: string, pos: nat) returns (s: nat)
    requires pos <= |line|
    ensures pos <= s <= |line| && (forall k :: pos <= k < s ==> White(line[k])) && (s < |line| ==> !White(line[s]))
  {
    s := pos;
    while s < |line| && White(line[s])
      invariant pos <= s <= |line| && forall k :: pos <= k < s ==> White(line[k])
    {
      s := s + 1;
    }
  }

  function CharAt(line: string, s: nat): char { if s < |line| then line[s] else NUL }

  /** peek */
  method Peek(line: string, pos: nat, toks: string) returns (r: bool, s: nat)
    requires Text(line) && Edge(line, pos)
    ensures Edge(line, s) && Found(line, pos, s, []) && (s < |line| ==> !White(line[s]))
    ensures r <==> s < |line| && line[s] in toks
  {
    s := SkipWhite(line, pos);
    r := s < |line| && line[s] in toks;
    FoundNothing(line, pos, s);
  }

  /** gettoken: the next token, NUL at the end, and the cursor behind it and the white space after. */
  method GetToken(line: string, pos: nat) returns (tok: char, q: nat, eq: nat, s: nat)
    requires Text(line) && Edge(line, pos)
    ensures Edge(line, s)
    ensures if tok == NUL then s == |line| && Found(line, pos, s, [])
      else s > pos && Found(line, pos, s, [Tok(tok, q, eq)])
    ensures tok == NUL || tok == 'a' || tok == '+' || Symbol(tok)
    ensures pos < |line| && Symbol(line[pos]) ==> tok == line[pos] || (tok == '+' && line[pos] == '>')
  {
    s := SkipWhite(line, pos);
    q := s;
    tok := CharAt(line, s);
    if tok == NUL {
    } else if tok == '>' {
      s := s + 1;
      if CharAt(line, s) == '>' {
        tok := '+';
        s := s + 1;
      }
    } else if Symbol(tok) {
      s := s + 1;
    } else {
      tok := 'a';
      while s < |line| && !White(line[s]) && !Symbol(line[s])
        invariant q <= s <= |line| && forall k :: q <= k < s ==> WordChar(line[k])
        invariant s == q ==> s < |line| && WordChar(line[s])
      {
        s := s + 1;
      }
    }
    eq := s;
    s := SkipWhite(line, s);
    if tok == NUL {
      FoundNothing(line, pos, s);
    } else {
      FoundTok(line, pos, s, Tok(tok, q, eq));
    }
  }

  // ----- the parser -----

  /** The parser stands where the parse p says, the rest of the tokens ahead of it. */
  ghost predicate Stands(line: string, s: nat, rest: seq<Tok>) {
    Edge(line, s) && Found(line, s, |line|, rest)
  }

  ghost predicate Agrees(line: string, r: Option<Cmd>, s: nat, p: Parse<Cmd>) {
    if p.Fail? then r.None? else r == Some(p.value) && Stands(line, s, p.rest)
  }

  /** peek, on the tokens ahead. */
  method PeekTok(line: string, pos: nat, toks: string, ghost ts: seq<Tok>) returns (r: bool, s: nat)
    requires Text(line) && Stands(line, pos, ts) && forall c :: c in toks ==> Symbol(c)
    ensures Stands(line, s, ts) && (s == |line| <==> ts == [])
    ensures r <==> ts != [] && Ahead(ts[0].kind, toks)
  {
    r, s := Peek(line, pos, toks);
    FoundSkip(line, pos, s, ts);
    NextKind(line, s, ts);
    if s < |line| { KindSplit(line, s, ts); }
  }

  /** The kind of a token by its first character. */
  predicate Ahead(kind: char, toks: string) { (if kind == '+' then '>' else kind) in toks }

  lemma KindSplit(line: string, s: nat, ts: seq<Tok>)
    requires Text(line) && s < |line| && ts != [] && Found(line, s, |line|, ts) && ts[0].q == s
    ensures ts[0].kind == 'a' <==> WordChar(line[s])
    ensures ts[0].kind != 'a' ==> line[s] == if ts[0].kind == '+' then '>' else ts[0].kind
  {
    OpenFound(line, s, |line|, ts);
    assert IsTok(line, ts[0]);
  }

  /** gettoken, on the tokens ahead. */
  method TakeTok(line: string, pos: nat, ghost ts: seq<Tok>) returns (tok: char, q: nat, eq: nat, s: nat)
    requires Text(line) && Stands(line, pos, ts)
    ensures tok == NUL <==> ts == []
    ensures ts == [] ==> Stands(line, s, [])
    ensures ts != [] ==> ts[0] == Tok(tok, q, eq) && Stands(line, s, ts[1..])
  {
    tok, q, eq, s := GetToken(line, pos);
    if tok == NUL {
      NoTokens(line, pos, ts);
      FoundSkip(line, pos, s, ts);
    } else {
      FoundHead(line, pos, s, Tok(tok, q, eq), ts);
    }
  }

  /** parseredirs: adds the redirections ahead to rs0. */
  method ParseRedirs(line: string, pos: nat, rs0: seq<Redirection>, ghost ts: seq<Tok>)
    returns (ok: bool, rs: seq<Redirection>, s: nat)
    requires Text(line) && Stands(line, pos, ts)
    ensures ok <==> Redirs(rs0, ts).Done?
    ensures ok ==> Redirs(rs0, ts).value == rs && Stands(line, s, Redirs(rs0, ts).rest)
  {
    rs := rs0;
    ghost var cur := ts;
    var more;
    more, s := PeekTok(line, pos, "<>", cur);
    while more
      invariant Stands(line, s, cur) && Redirs(rs, cur) == Redirs(rs0, ts)
      invariant more <==> cur != [] && RedirKind(cur[0].kind)
      decreases |cur|
    {
      var tok, q, eq;
      tok, q, eq, s := TakeTok(line, s, cur);
      ghost var o, t1 := cur[0], cur[1..];
      var word;
      word, q, eq, s := TakeTok(line, s, t1);
      if word != 'a' { return false, rs, s; }
      rs := rs + [Redirection(Word(q, eq), tok != '<')];
      cur := cur[2..];
      assert t1[1..] == cur;
      more, s := PeekTok(line, s, "<>", cur);
    }
    ok := true;
  }

  /** parseexec, for a command that is not a block. */
  method ParseSimple(line: string, pos: nat, ghost ts: seq<Tok>) returns (r: Option<Cmd>, s: nat)
    requires Text(line) && Stands(line, pos, ts)
    ensures Agrees(line, r, s, Simple(ts))
  {
    var ok, rs;
    ok, rs, s := ParseRedirs(line, pos, [], ts);
    if !ok { return None, s; }
    var argv: seq<Word> := [];
    ghost var cur := Redirs([], ts).rest;
    var stop;
    stop, s := PeekTok(line, s, "|)&;", cur);
    while !stop
      invariant Stands(line, s, cur) && Args(argv, rs, cur) == Simple(ts) && |argv| < MAXARGS
      invariant stop <==> cur != [] && StopKind(cur[0].kind)
      decreases |cur|, !stop
    {
      var tok, q, eq;
      tok, q, eq, s := TakeTok(line, s, cur);
      if tok == NUL { break; }
      if tok != 'a' { return None, s; }
      if |argv| + 1 >= MAXARGS { return None, s; }
      ghost var rest := cur[1..];
      ghost var rs0 := rs;
      ok, rs, s := ParseRedirs(line, s, rs, rest);
      if !ok { return None, s; }
      argv := argv + [Word(q, eq)];
      cur := Redirs(rs0, rest).rest;
      stop, s := PeekTok(line, s, "|)&;", cur);
    }
    r := Some(Wrapped(Exec(argv), rs));
  }

  /** parseblock */
  method ParseBlock(line: string, pos: nat, ghost ts: seq<Tok>) returns (r: Option<Cmd>, s: nat)
    requires Text(line) && Stands(line, pos, ts) && Next(ts, '(')
    ensures Agrees(line, r, s, Block(ts))
    decreases |ts|, 0
  {
    var tok, q, eq, closed, ok, rs;
    tok, q, eq, s := TakeTok(line, pos, ts);
    ghost var p := Line(ts[1..]);
    r, s := ParseLine(line, s, ts[1..]);
    if r.None? { return; }
    closed, s := PeekTok(line, s, ")", p.rest);
    if !closed { return None, s; }
    tok, q, eq, s := TakeTok(line, s, p.rest);
    ok, rs, s := ParseRedirs(line, s, [], p.rest[1..]);
    if !ok { return None, s; }
    r := Some(Wrapped(r.value, rs));
  }

  /** parseexec */
  method ParseExec(line: string, pos: nat, ghost ts: seq<Tok>) returns (r: Option<Cmd>, s: nat)
    requires Text(line) && Stands(line, pos, ts)
    ensures Agrees(line, r, s, ExecP(ts))
    decreases |ts|, 1
  {
    var block;
    block, s := PeekTok(line, pos, "(", ts);
    if block {
      r, s := ParseBlock(line, s, ts);
    } else {
      r, s := ParseSimple(line, s, ts);
    }
  }

  /** parsepipe */
  method ParsePipe(line: string, pos: nat, ghost ts: seq<Tok>) returns (r: Option<Cmd>, s: nat)
    requires Text(line) && Stands(line, pos, ts)
    ensures Agrees(line, r, s, PipeP(ts))
    decreases |ts|, 2
  {
    r, s := ParseExec(line, pos, ts);
    if r.None? { return; }
    ghost var rest := ExecP(ts).rest;
    var bar;
    bar, s := PeekTok(line, s, "|", rest);
    if bar {
      var tok, q, eq, right;
      tok, q, eq, s := TakeTok(line, s, rest);
      right, s := ParsePipe(line, s, rest[1..]);
      if right.None? { return None, s; }
      r := Some(Pipe(r.value, right.value));
    }
  }

  /** parseline */
  method ParseLine(line: string, pos: nat, ghost ts: seq<Tok>) returns (r: Option<Cmd>, s: nat)
    requires Text(line) && Stands(line, pos, ts)
    ensures Agrees(line, r, s, Line(ts))
    decreases |ts|, 3
  {
    r, s := ParsePipe(line, pos, ts);
    if r.None? { return; }
    var c := r.value;
    c, s := ParseBacks(line, s, c, PipeP(ts).rest);
    ghost var rest := Backs(PipeP(ts).value, PipeP(ts).rest).rest;
    var more;
    more, s := PeekTok(line, s, ";", rest);
    if more {
      var tok, q, eq, right;
      tok, q, eq, s := TakeTok(line, s, rest);
      right, s := ParseLine(line, s, rest[1..]);
      if right.None? { return None, s; }
      c := List(c, right.value);
    }
    r := Some(c);
  }

  /** parseline's loop over &. */
  method ParseBacks(line: string, pos: nat, c0: Cmd, ghost ts: seq<Tok>) returns (c: Cmd, s: nat)
    requires Text(line) && Stands(line, pos, ts)
    ensures c == Backs(c0, ts).value && Stands(line, s, Backs(c0, ts).rest)
  {
    c := c0;
    ghost var cur := ts;
    var more;
    more, s := PeekTok(line, pos, "&", cur);
    while more
      invariant Stands(line, s, cur) && Backs(c, cur) == Backs(c0, ts) && (more <==> Next(cur, '&'))
      decreases |cur|
    {
      var tok, q, eq;
      tok, q, eq, s := TakeTok(line, s, cur);
      c, cur := Back(c), cur[1..];
      more, s := PeekTok(line, s, "&", cur);
    }
  }

  // ----- the words of a line -----

  /** The words among the tokens. */
  ghost function WordsOf(t: seq<Tok>): (r: seq<Word>)
    decreases |t|
  {
    if t == [] then []
    else
      var n := |t| - 1;
      WordsOf(t[..n]) + if t[n].kind == 'a' then [Word(t[n].q, t[n].eq)] else []
  }

  lemma {:induction false} WordsOfConcat(u: seq<Tok>, v: seq<Tok>)
    ensures WordsOf(u + v) == WordsOf(u) + WordsOf(v)
    decreases |v|
  {
    if v == [] {
      assert u + v == u;
    } else {
      var n := |v| - 1;
      WordsOfConcat(u, v[..n]);
      assert (u + v)[..|u + v| - 1] == u + v[..n];
    }
  }

  lemma WordsAround(t: seq<Tok>, k: nat)
    requires k < |t| && t[k].kind != 'a'
    ensures multiset(WordsOf(t)) == multiset(WordsOf(t[..k])) + multiset(WordsOf(t[k + 1..]))
  {
    assert t == t[..k + 1] + t[k + 1..];
    WordsOfConcat(t[..k + 1], t[k + 1..]);
    assert t[..k + 1][..k] == t[..k];
  }

  ghost function Files(rs: seq<Redirection>): multiset<Word>
    decreases |rs|
  {
    if rs == [] then multiset{} else Files(rs[..|rs| - 1]) + multiset{rs[|rs| - 1].file}
  }

  lemma {:induction false} FilesFirst(rs: seq<Redirection>)
    requires rs != []
    ensures Files(rs) == multiset{rs[0].file} + Files(rs[1..])
    decreases |rs|
  {
    var n := |rs| - 1;
    if n == 0 {
      assert rs[..0] == [] && rs[1..] == [];
    } else {
      FilesFirst(rs[..n]);
      assert rs[..n][1..] == rs[1..][..n - 1] && rs[1..][n - 1] == rs[n];
      Regroup(multiset{rs[0].file}, Files(rs[1..][..n - 1]), multiset{rs[n].file});
    }
  }

  lemma {:induction false} WrappedWords(c: Cmd, rs: seq<Redirection>)
    ensures Words(Wrapped(c, rs)) == Words(c) + Files(rs)
    decreases |rs|
  {
    if rs != [] { WrappedWords(c, rs[..|rs| - 1]); }
  }

  lemma {:induction false} SimpleWords(argv: seq<Word>, rs: seq<Redirection>, t: seq<Tok>)
    requires SimpleT(argv, rs, t)
    ensures multiset(argv) + Files(rs) == multiset(WordsOf(t))
    decreases |t|
  {
    if t != [] {
      if RedirKind(t[0].kind) {
        SimpleWords(argv, rs[1..], t[2..]);
        FilesFirst(rs);
        SymbolFirst(t);
        WordFirst(t[1..]);
        assert t[1..][1..] == t[2..];
        Regroup(multiset(argv), Files(rs[1..]), multiset{rs[0].file});
      } else {
        SimpleWords(argv[1..], rs, t[1..]);
        WordFirst(t);
        FirstArg(argv);
        Regroup(multiset(argv[1..]), Files(rs), multiset{argv[0]});
      }
    }
  }

  lemma Regroup(a: multiset<Word>, b: multiset<Word>, c: multiset<Word>)
    ensures (a + b) + c == a + (b + c) == (a + c) + b == c + (a + b) && b + c == c + b && a + c == c + a
  {
  }

  lemma FirstArg(argv: seq<Word>)
    requires argv != []
    ensures multiset(argv) == multiset{argv[0]} + multiset(argv[1..])
  {
    assert argv == [argv[0]] + argv[1..];
  }

  lemma WordFirst(t: seq<Tok>)
    requires t != [] && t[0].kind == 'a'
    ensures multiset(WordsOf(t)) == multiset{WordOf(t[0])} + multiset(WordsOf(t[1..]))
  {
    assert t == t[..1] + t[1..];
    WordsOfConcat(t[..1], t[1..]);
    assert t[..1][..0] == [];
    assert WordsOf(t[..1]) == [WordOf(t[0])];
  }

  lemma {:induction false} ExecWords(c: Cmd, t: seq<Tok>)
    requires ExecT(c, t)
    ensures Words(c) == multiset(WordsOf(t))
    decreases |t|, 0
  {
    if argv, rs :| c == Wrapped(Exec(argv), rs) && SimpleT(argv, rs, t) {
      SimpleWords(argv, rs, t);
      WrappedWords(Exec(argv), rs);
    } else {
      var d, rs, k :| 0 < k < |t| && Bracketed(t, k) && c == Wrapped(d, rs) && LineT(d, t[1..k])
        && SimpleT([], rs, t[k + 1..]);
      LineWords(d, t[1..k]);
      SimpleWords([], rs, t[k + 1..]);
      WrappedWords(d, rs);
      BracketWords(t, k);
    }
  }

  lemma BracketWords(t: seq<Tok>, k: nat)
    requires 0 < k < |t| && Bracketed(t, k)
    ensures multiset(WordsOf(t)) == multiset(WordsOf(t[1..k])) + multiset(WordsOf(t[k + 1..]))
  {
    WordsAround(t, k);
    SymbolFirst(t[..k]);
    assert t[..k][1..] == t[1..k];
  }

  lemma SymbolFirst(t: seq<Tok>)
    requires t != [] && t[0].kind != 'a'
    ensures WordsOf(t) == WordsOf(t[1..])
  {
    assert t == t[..1] + t[1..];
    WordsOfConcat(t[..1], t[1..]);
    assert t[..1][..0] == [];
  }

  lemma {:induction false} PipeWords(c: Cmd, t: seq<Tok>)
    requires PipeT(c, t)
    ensures Words(c) == multiset(WordsOf(t))
    decreases |t|, 1
  {
    if ExecT(c, t) {
      ExecWords(c, t);
    } else {
      var k :| 0 <= k < |t| && t[k].kind == '|' && ExecT(c.left, t[..k]) && PipeT(c.right, t[k + 1..]);
      ExecWords(c.left, t[..k]);
      PipeWords(c.right, t[k + 1..]);
      WordsAround(t, k);
    }
  }

  lemma {:induction false} BackWords(c: Cmd, t: seq<Tok>)
    requires BackT(c, t)
    ensures Words(c) == multiset(WordsOf(t))
    decreases |t|, 2
  {
    if PipeT(c, t) {
      PipeWords(c, t);
    } else {
      BackWords(c.cmd, t[..|t| - 1]);
    }
  }

  lemma {:induction false} LineWords(c: Cmd, t: seq<Tok>)
    requires LineT(c, t)
    ensures Words(c) == multiset(WordsOf(t))
    decreases |t|, 3
  {
    if BackT(c, t) {
      BackWords(c, t);
    } else {
      var k :| 0 <= k < |t| && t[k].kind == ';' && BackT(c.left, t[..k]) && LineT(c.right, t[k + 1..]);
      BackWords(c.left, t[..k]);
      LineWords(c.right, t[k + 1..]);
      WordsAround(t, k);
    }
  }

  // ----- nulterminate -----

  ghost predicate EndsAt(ws: multiset<Word>, k: int) { exists w :: w in ws && w.eq == k }

  /** NUL at the end of every word, everything else as before. */
  ghost predicate Terminated(before: seq<char>, after: seq<char>, ws: multiset<Word>) {
    && |after| == |before|
    && forall k :: 0 <= k < |before| ==> after[k] == if EndsAt(ws, k) then NUL else before[k]
  }

  lemma TerminatedTwice(a: seq<char>, b: seq<char>, c: seq<char>, us: multiset<Word>, vs: multiset<Word>)
    requires Terminated(a, b, us) && Terminated(b, c, vs)
    ensures Terminated(a, c, us + vs)
  {
    forall k | 0 <= k < |a| ensures c[k] == if EndsAt(us + vs, k) then NUL else a[k] {
      if EndsAt(us, k) { var w :| w in us && w.eq == k; assert w in us + vs; }
      if EndsAt(vs, k) { var w :| w in vs && w.eq == k; assert w in us + vs; }
    }
  }

  lemma TerminatedOne(a: seq<char>, w: Word)
    requires w.eq < |a|
    ensures Terminated(a, a[w.eq := NUL], multiset{w})
  {
    assert w in multiset{w};
  }

  /** nulterminate, writing into the command's text. */
  method Nulterminate(buf: array<char>, c: Cmd)
    requires forall w :: w in Words(c) ==> w.eq < buf.Length
    modifies buf
    ensures Terminated(old(buf[..]), buf[..], Words(c))
    decreases c
  {
    match c
    case Exec(argv) =>
      TerminateArgs(buf, argv);
    case Redir(d, r) =>
      Nulterminate(buf, d);
      ghost var was := buf[..];
      assert r.file in Words(c);
      TerminateWord(buf, r.file);
      TerminatedTwice(old(buf[..]), was, buf[..], Words(d), multiset{r.file});
    case Pipe(l, r) =>
      Nulterminate(buf, l);
      ghost var was := buf[..];
      Nulterminate(buf, r);
      TerminatedTwice(old(buf[..]), was, buf[..], Words(l), Words(r));
    case List(l, r) =>
      Nulterminate(buf, l);
      ghost var was := buf[..];
      Nulterminate(buf, r);
      TerminatedTwice(old(buf[..]), was, buf[..], Words(l), Words(r));
    case Back(d) =>
      Nulterminate(buf, d);
  }

  method TerminateWord(buf: array<char>, w: Word)
    requires w.eq < buf.Length
    modifies buf
    ensures Terminated(old(buf[..]), buf[..], multiset{w})
  {
    TerminatedOne(buf[..], w);
    buf[w.eq] := NUL;
    assert buf[..] == old(buf[..])[w.eq := NUL];
  }

  method TerminateArgs(buf: array<char>, argv: seq<Word>)
    requires forall w :: w in argv ==> w.eq < buf.Length
    modifies buf
    ensures Terminated(old(buf[..]), buf[..], multiset(argv))
  {
    var i := 0;
    assert argv[..0] == [];
    while i < |argv|
      invariant 0 <= i <= |argv| && Terminated(old(buf[..]), buf[..], multiset(argv[..i]))
    {
      ghost var was := buf[..];
      TerminateWord(buf, argv[i]);
      TerminatedTwice(old(buf[..]), was, buf[..], multiset(argv[..i]), multiset{argv[i]});
      assert argv[..i + 1] == argv[..i] + [argv[i]];
      i := i + 1;
    }
    assert argv[..|argv|] == argv;
  }

  // ----- parsecmd -----

  /** The string at w in the terminated text is the token of the line, up to its NUL. */
  ghost predicate Intact(line: string, text: seq<char>, w: Word) {
    && Token(line, w) && w.eq < |text| && |line| < |text|
    && text[w.q..w.eq] == line[w.q..w.eq] && text[w.eq] == NUL
  }

  ghost predicate Covers(ws: multiset<Word>, k: int, w: Word) { w in ws && w.q <= k < w.eq }

  /** The words of the line, in order. */
  ghost predicate AllWords(line: string, ws: seq<Word>) {
    && (forall i :: 0 <= i < |ws| ==> Token(line, ws[i]))
    && (forall i, j :: 0 <= i < j < |ws| ==> ws[i].eq < ws[j].q)
    && (forall k :: 0 <= k < |line| && WordChar(line[k]) ==> exists i :: 0 <= i < |ws| && ws[i].q <= k < ws[i].eq)
  }

  ghost predicate Spells(ts: seq<Tok>, n: nat, w: Word) {
    exists j :: 0 <= j < n <= |ts| && ts[j].kind == 'a' && w == Word(ts[j].q, ts[j].eq)
  }

  lemma OneMore(ts: seq<Tok>, n: nat)
    requires 0 < n <= |ts|
    ensures WordsOf(ts[..n]) ==
      WordsOf(ts[..n - 1]) + if ts[n - 1].kind == 'a' then [Word(ts[n - 1].q, ts[n - 1].eq)] else []
  {
    assert ts[..n][..n - 1] == ts[..n - 1];
  }

  /** The words among the first n tokens are exactly those the tokens spell. */
  lemma {:induction false} TokensSpell(ts: seq<Tok>, n: nat, w: Word)
    requires n <= |ts|
    ensures w in WordsOf(ts[..n]) <==> Spells(ts, n, w)
    decreases n
  {
    if n > 0 {
      TokensSpell(ts, n - 1, w);
      OneMore(ts, n);
      if Spells(ts, n - 1, w) {
        var j :| 0 <= j < n - 1 && ts[j].kind == 'a' && w == Word(ts[j].q, ts[j].eq);
      }
    }
  }

  ghost predicate Gaps(ws: seq<Word>) { forall i, j :: 0 <= i < j < |ws| ==> ws[i].eq < ws[j].q }

  /** They come in order, with a gap after each. */
  lemma {:induction false} TokensOrdered(line: string, ts: seq<Tok>, n: nat)
    requires (forall i :: 0 <= i < |ts| ==> IsTok(line, ts[i]))
    requires (forall i, j :: 0 <= i < j < |ts| ==> ts[i].eq <= ts[j].q) && n <= |ts|
    ensures Gaps(WordsOf(ts[..n]))
    decreases n
  {
    if n > 0 {
      TokensOrdered(line, ts, n - 1);
      OneMore(ts, n);
      var ws, t := WordsOf(ts[..n - 1]), ts[n - 1];
      if t.kind == 'a' {
        forall i | 0 <= i < |ws| ensures ws[i].eq < t.q { EarlierWord(line, ts, n - 1, ws[i]); }
        assert Gaps(ws + [Word(t.q, t.eq)]);
      }
    }
  }

  lemma EarlierWord(line: string, ts: seq<Tok>, n: nat, w: Word)
    requires n < |ts| && ts[n].kind == 'a' && w in WordsOf(ts[..n])
    requires (forall i :: 0 <= i < |ts| ==> IsTok(line, ts[i]))
    requires (forall i, j :: 0 <= i < j < |ts| ==> ts[i].eq <= ts[j].q)
    ensures w.eq < ts[n].q
  {
    TokensSpell(ts, n, w);
    var h :| 0 <= h < n && ts[h].kind == 'a' && w == Word(ts[h].q, ts[h].eq);
    WordsApart(line, ts[h], ts[n]);
  }

  lemma WordsApart(line: string, t: Tok, u: Tok)
    requires IsTok(line, t) && IsTok(line, u) && t.kind == u.kind == 'a' && t.eq <= u.q
    ensures t.eq < u.q
  {
  }

  lemma FoundWords(line: string, ts: seq<Tok>)
    requires Text(line) && Found(line, 0, |line|, ts)
    ensures AllWords(line, WordsOf(ts))
  {
    OpenFound(line, 0, |line|, ts);
    TokensOrdered(line, ts, |ts|);
    assert ts[..|ts|] == ts;
    var ws := WordsOf(ts);
    forall i | 0 <= i < |ws| ensures Token(line, ws[i]) {
      TokensSpell(ts, |ts|, ws[i]);
      var j :| 0 <= j < |ts| && ts[j].kind == 'a' && ws[i] == Word(ts[j].q, ts[j].eq);
      assert IsTok(line, ts[j]);
    }
    forall k | 0 <= k < |line| && WordChar(line[k]) ensures exists i :: 0 <= i < |ws| && ws[i].q <= k < ws[i].eq {
      var j :| 0 <= j < |ts| && ts[j].q <= k < ts[j].eq;
      WordCharInWord(line, ts[j], k);
      var w := Word(ts[j].q, ts[j].eq);
      assert Spells(ts, |ts|, w);
      TokensSpell(ts, |ts|, w);
      var i :| 0 <= i < |ws| && ws[i] == w;
    }
  }

  lemma WordCharInWord(line: string, t: Tok, k: nat)
    requires IsTok(line, t) && t.q <= k < t.eq && WordChar(line[k])
    ensures t.kind == 'a'
  {
  }

  /** The line's tokens spell the command; every word of the line is recorded once, and terminating
      the words damages none of them. */
  ghost predicate Understood(line: string, text: seq<char>, c: Cmd) {
    && FewArgs(c)
    && (exists ts :: Found(line, 0, |line|, ts) && LineT(c, ts))
    && (forall w :: w in Words(c) ==> Intact(line, text, w) && Words(c)[w] == 1)
    && (forall k :: 0 <= k < |line| && WordChar(line[k]) ==> exists w :: Covers(Words(c), k, w))
    && (forall w, v, k :: Covers(Words(c), k, w) && Covers(Words(c), k, v) ==> w == v)
  }

  lemma WordIntact(line: string, before: seq<char>, after: seq<char>, ws: seq<Word>, i: nat)
    requires |before| > |line| && before[..|line|] == line && AllWords(line, ws) && i < |ws|
    requires Terminated(before, after, multiset(ws))
    ensures Intact(line, after, ws[i])
  {
    var w, ms := ws[i], multiset(ws);
    assert Token(line, w);
    assert w in ms;
    assert EndsAt(ms, w.eq);
    forall k | w.q <= k < w.eq ensures after[k] == line[k] {
      assert WordChar(line[k]);
      assert before[..|line|][k] == before[k];
      EndIsNotWord(line, ws, ms, k);
    }
  }

  lemma WordsCover(line: string, ws: seq<Word>)
    requires AllWords(line, ws)
    ensures forall k :: 0 <= k < |line| && WordChar(line[k]) ==> exists w :: Covers(multiset(ws), k, w)
    ensures forall w, v, k :: Covers(multiset(ws), k, w) && Covers(multiset(ws), k, v) ==> w == v
  {
    var ms := multiset(ws);
    forall k | 0 <= k < |line| && WordChar(line[k]) ensures exists w :: Covers(ms, k, w) {
      var i :| 0 <= i < |ws| && ws[i].q <= k < ws[i].eq;
      assert Covers(ms, k, ws[i]);
    }
    forall w, v, k | Covers(ms, k, w) && Covers(ms, k, v) ensures w == v {
      var i :| 0 <= i < |ws| && ws[i] == w;
      var j :| 0 <= j < |ws| && ws[j] == v;
    }
  }

  lemma WordsIntact(line: string, before: seq<char>, after: seq<char>, ts: seq<Tok>, c: Cmd)
    requires |before| > |line| && before[..|line|] == line && Text(line) && FewArgs(c)
    requires Found(line, 0, |line|, ts) && LineT(c, ts) && Terminated(before, after, Words(c))
    ensures Understood(line, after, c)
  {
    var ws := WordsOf(ts);
    FoundWords(line, ts);
    LineWords(c, ts);
    WordsCover(line, ws);
    forall w | w in Words(c) ensures Intact(line, after, w) && Words(c)[w] == 1 {
      var i :| 0 <= i < |ws| && ws[i] == w;
      WordIntact(line, before, after, ws, i);
      OnlyOnce(line, ws, i);
    }
  }

  lemma EndIsNotWord(line: string, ws: seq<Word>, ms: multiset<Word>, k: int)
    requires ms == multiset(ws) && 0 <= k < |line| && forall i :: 0 <= i < |ws| ==> Token(line, ws[i])
    ensures EndsAt(ms, k) ==> !WordChar(line[k])
  {
    if EndsAt(ms, k) {
      var v :| v in ms && v.eq == k;
      var j :| 0 <= j < |ws| && ws[j] == v;
      assert Token(line, ws[j]);
    }
  }

  lemma OnlyOnce(line: string, ws: seq<Word>, i: nat)
    requires i < |ws| && (forall j :: 0 <= j < |ws| ==> Token(line, ws[j]))
    requires forall j, k :: 0 <= j < k < |ws| ==> ws[j].eq < ws[k].q
    ensures multiset(ws)[ws[i]] == 1
  {
    var before, after := ws[..i], ws[i + 1..];
    assert Token(line, ws[i]);
    forall j | 0 <= j < |before| ensures before[j] != ws[i] { assert before[j] == ws[j] && Token(line, ws[j]); }
    forall j | 0 <= j < |after| ensures after[j] != ws[i] { assert after[j] == ws[i + 1 + j]; }
    assert ws == before + [ws[i]] + after;
    OneInTheMiddle(before, ws[i], after);
  }

  lemma OneInTheMiddle(before: seq<Word>, w: Word, after: seq<Word>)
    requires w !in before && w !in after
    ensures multiset(before + [w] + after)[w] == 1
  {
    assert multiset(before)[w] == 0 && multiset(after)[w] == 0;
    assert multiset(before + [w] + after) == multiset(before) + multiset{w} + multiset(after);
  }

  /** The line's tokens spell a command with few enough arguments. */
  ghost predicate Spelled(line: string) {
    exists c, ts :: Found(line, 0, |line|, ts) && LineT(c, ts) && FewArgs(c)
  }

  /** parsecmd on a NUL-terminated buffer; None stands for a syntax error.  A line is accepted exactly
      when its tokens spell a command. */
  method ParseCmd(buf: array<char>, ghost n: nat) returns (r: Option<Cmd>)
    requires n < buf.Length && Text(buf[..n]) && buf[n] == NUL
    modifies buf
    ensures r.Some? <==> Spelled(old(buf[..n]))
    ensures r.None? ==> buf[..] == old(buf[..])
    ensures r.Some? ==> Understood(old(buf[..n]), buf[..], r.value)
  {
    var es := Strlen(buf, n);
    var line := buf[..es];
    ghost var ts := TokensExist(line, 0);
    var s, rest;
    r, s := ParseLine(line, 0, ts);
    SpelledIff(line, ts);
    if r.None? { return; }
    ghost var left := Line(ts).rest;
    rest, s := PeekTok(line, s, "", left);
    if s != es { return None; }
    ParsedIff(r.value, ts);
    RecordedInside(line, ts, r.value);
    Nulterminate(buf, r.value);
    WordsIntact(line, old(buf[..]), buf[..], ts, r.value);
  }

  lemma SpelledIff(line: string, ts: seq<Tok>)
    requires Text(line) && Found(line, 0, |line|, ts)
    ensures Spelled(line) <==> Line(ts).Done? && Line(ts).rest == []
  {
    if Spelled(line) {
      var c, us :| Found(line, 0, |line|, us) && LineT(c, us) && FewArgs(c);
      FoundUnique(line, 0, ts, us);
      ParsedIff(c, ts);
    }
    if Line(ts).Done? && Line(ts).rest == [] { ParsedIff(Line(ts).value, ts); }
  }

  method Strlen(buf: array<char>, ghost n: nat) returns (es: nat)
    requires n < buf.Length && Text(buf[..n]) && buf[n] == NUL
    ensures es == n
  {
    es := 0;
    while buf[es] != NUL
      invariant 0 <= es <= n
      decreases n - es
    {
      es := es + 1;
    }
  }

  lemma RecordedInside(line: string, ts: seq<Tok>, c: Cmd)
    requires Text(line) && Found(line, 0, |line|, ts) && LineT(c, ts)
    ensures forall w :: w in Words(c) ==> w.eq <= |line|
  {
    FoundWords(line, ts);
    LineWords(c, ts);
    var ws := WordsOf(ts);
    forall w | w in Words(c) ensures w.eq <= |line| {
      var i :| 0 <= i < |ws| && ws[i] == w;
    }
  }
}
