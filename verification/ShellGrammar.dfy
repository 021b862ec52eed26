/** The shell's commands and their grammar over tokens, and the parse that one token of look-ahead
    decides (sh.c:344-446). */
module ShellGrammar {
  import opened Basics

  const MAXARGS := 10

  /** A counted string: line[q..eq]. */
  datatype Word = Word(q: nat, eq: nat)

  /** A token: 'a' for a word, '+' for >>, otherwise the symbol itself. */
  datatype Tok = Tok(kind: char, q: nat, eq: nat)

  datatype Redirection = Redirection(file: Word, writes: bool)

  datatype Cmd =
    | Exec(argv: seq<Word>)
    | Redir(cmd: Cmd, redirection: Redirection)
    | Pipe(left: Cmd, right: Cmd)
    | List(left: Cmd, right: Cmd)
    | Back(cmd: Cmd)

  predicate FewArgs(c: Cmd) {
    match c
    case Exec(argv) => |argv| < MAXARGS
    case Redir(d, _) => FewArgs(d)
    case Pipe(l, r) => FewArgs(l) && FewArgs(r)
    case List(l, r) => FewArgs(l) && FewArgs(r)
    case Back(d) => FewArgs(d)
  }

  // ----- the grammar -----

  predicate RedirKind(c: char) { c == '<' || c == '>' || c == '+' }

  function WordOf(t: Tok): Word { Word(t.q, t.eq) }

  function RedirOf(o: Tok, t: Tok): Redirection { Redirection(WordOf(t), o.kind != '<') }

  /** redircmd around redircmd, the first redirection innermost. */
  function Wrapped(c: Cmd, rs: seq<Redirection>): Cmd
    decreases |rs|
  {
    if rs == [] then c else Redir(Wrapped(c, rs[..|rs| - 1]), rs[|rs| - 1])
  }

  lemma {:induction false} WrappedFew(c: Cmd, rs: seq<Redirection>)
    ensures FewArgs(Wrapped(c, rs)) == FewArgs(c)
    decreases |rs|
  {
    if rs != [] { WrappedFew(c, rs[..|rs| - 1]); }
  }

  /** t spells the arguments and redirections, each in order, in any mixture. */
  ghost predicate SimpleT(argv: seq<Word>, rs: seq<Redirection>, t: seq<Tok>)
    decreases |t|
  {
    if t == [] then argv == [] && rs == []
    else if RedirKind(t[0].kind) then
      |t| >= 2 && t[1].kind == 'a' && rs != [] && rs[0] == RedirOf(t[0], t[1]) && SimpleT(argv, rs[1..], t[2..])
    else
      t[0].kind == 'a' && argv != [] && argv[0] == WordOf(t[0]) && SimpleT(argv[1..], rs, t[1..])
  }

  /** A simple command, or a line in parentheses with redirections. */
  ghost predicate ExecT(c: Cmd, t: seq<Tok>)
    decreases |t|, 0
  {
    || (exists argv, rs :: c == Wrapped(Exec(argv), rs) && SimpleT(argv, rs, t))
    || (exists d, rs, k ::
       0 < k < |t| && Bracketed(t, k) && c == Wrapped(d, rs) && LineT(d, t[1..k]) && SimpleT([], rs, t[k + 1..]))
  }

  ghost predicate Bracketed(t: seq<Tok>, k: nat) { k < |t| && t[0].kind == '(' && t[k].kind == ')' }

  /** Pipes associate to the right. */
  ghost predicate PipeT(c: Cmd, t: seq<Tok>)
    decreases |t|, 1
  {
    || (c.Pipe? && exists k :: 0 <= k < |t| && t[k].kind == '|' && ExecT(c.left, t[..k]) && PipeT(c.right, t[k + 1..]))
    || ExecT(c, t)
  }

  ghost predicate BackT(c: Cmd, t: seq<Tok>)
    decreases |t|, 2
  {
    || (c.Back? && t != [] && t[|t| - 1].kind == '&' && BackT(c.cmd, t[..|t| - 1]))
    || PipeT(c, t)
  }

  /** t spells the command line c. */
  ghost predicate LineT(c: Cmd, t: seq<Tok>)
    decreases |t|, 3
  {
    || (c.List? && exists k :: 0 <= k < |t| && t[k].kind == ';' && BackT(c.left, t[..k]) && LineT(c.right, t[k + 1..]))
    || BackT(c, t)
  }

  lemma PipeOf(l: Cmd, r: Cmd, u: seq<Tok>, x: Tok, v: seq<Tok>)
    requires ExecT(l, u) && PipeT(r, v) && x.kind == '|'
    ensures PipeT(Pipe(l, r), u + [x] + v)
  {
    var t, k := u + [x] + v, |u|;
    assert t[k].kind == '|' && t[..k] == u && t[k + 1..] == v;
  }

  lemma BackOf(c: Cmd, u: seq<Tok>, x: Tok)
    requires BackT(c, u) && x.kind == '&'
    ensures BackT(Back(c), u + [x])
  {
    var t := u + [x];
    assert t[..|t| - 1] == u;
  }

  lemma ListOf(l: Cmd, r: Cmd, u: seq<Tok>, x: Tok, v: seq<Tok>)
    requires BackT(l, u) && LineT(r, v) && x.kind == ';'
    ensures LineT(List(l, r), u + [x] + v)
  {
    var t, k := u + [x] + v, |u|;
    assert t[k].kind == ';' && t[..k] == u && t[k + 1..] == v;
  }

  lemma BlockOf(d: Cmd, rs: seq<Redirection>, o: Tok, u: seq<Tok>, x: Tok, v: seq<Tok>)
    requires LineT(d, u) && SimpleT([], rs, v) && o.kind == '(' && x.kind == ')'
    ensures ExecT(Wrapped(d, rs), [o] + u + [x] + v)
  {
    var t, k := [o] + u + [x] + v, |u| + 1;
    assert t[1..k] == u && t[k + 1..] == v;
    assert Bracketed(t, k);
  }

  // ----- the parse -----

  /** What a parsing function finds, and the tokens it leaves. */
  datatype Parse<T> = Fail | Done(value: T, rest: seq<Tok>)

  predicate Next(t: seq<Tok>, kind: char) { t != [] && t[0].kind == kind }

  /** parseredirs, adding to rs. */
  function Redirs(rs: seq<Redirection>, t: seq<Tok>): (r: Parse<seq<Redirection>>)
    ensures r.Done? ==> |r.rest| <= |t| && (r.rest == [] || !RedirKind(r.rest[0].kind))
    decreases |t|
  {
    if t == [] || !RedirKind(t[0].kind) then Done(rs, t)
    else if |t| >= 2 && t[1].kind == 'a' then Redirs(rs + [RedirOf(t[0], t[1])], t[2..])
    else Fail
  }

  predicate StopKind(c: char) { c == '|' || c == ')' || c == '&' || c == ';' }

  /** parseexec's loop over the arguments. */
  function Args(argv: seq<Word>, rs: seq<Redirection>, t: seq<Tok>): (r: Parse<Cmd>)
    ensures r.Done? ==> |r.rest| <= |t|
    decreases |t|
  {
    if t == [] || StopKind(t[0].kind) then Done(Wrapped(Exec(argv), rs), t)
    else if t[0].kind != 'a' || |argv| + 1 >= MAXARGS then Fail
    else
      var p := Redirs(rs, t[1..]);
      if p.Fail? then Fail else Args(argv + [WordOf(t[0])], p.value, p.rest)
  }

  function Simple(t: seq<Tok>): (r: Parse<Cmd>)
    ensures r.Done? ==> |r.rest| <= |t|
  {
    var p := Redirs([], t);
    if p.Fail? then Fail else Args([], p.value, p.rest)
  }

  /** parseblock */
  function Block(t: seq<Tok>): (r: Parse<Cmd>)
    requires Next(t, '(')
    ensures r.Done? ==> |r.rest| < |t|
    decreases |t|, 0
  {
    var p := Line(t[1..]);
    if p.Fail? || !Next(p.rest, ')') then Fail
    else
      var q := Redirs([], p.rest[1..]);
      if q.Fail? then Fail else Done(Wrapped(p.value, q.value), q.rest)
  }

  /** parseexec */
  function ExecP(t: seq<Tok>): (r: Parse<Cmd>)
    ensures r.Done? ==> |r.rest| <= |t|
    decreases |t|, 1
  {
    if Next(t, '(') then Block(t) else Simple(t)
  }

  /** parsepipe */
  function PipeP(t: seq<Tok>): (r: Parse<Cmd>)
    ensures r.Done? ==> |r.rest| <= |t|
    decreases |t|, 2
  {
    var p := ExecP(t);
    if p.Fail? || !Next(p.rest, '|') then p
    else
      var q := PipeP(p.rest[1..]);
      if q.Fail? then Fail else Done(Pipe(p.value, q.value), q.rest)
  }

  /** parseline's loop over &. */
  function Backs(c: Cmd, t: seq<Tok>): (r: Parse<Cmd>)
    ensures r.Done? && |r.rest| <= |t| && !Next(r.rest, '&')
    decreases |t|
  {
    if Next(t, '&') then Backs(Back(c), t[1..]) else Done(c, t)
  }

  /** parseline */
  function Line(t: seq<Tok>): (r: Parse<Cmd>)
    ensures r.Done? ==> |r.rest| <= |t|
    decreases |t|, 3
  {
    var p := PipeP(t);
    if p.Fail? then Fail
    else
      var b := Backs(p.value, p.rest);
      if !Next(b.rest, ';') then b
      else
        var q := Line(b.rest[1..]);
        if q.Fail? then Fail else Done(List(b.value, q.value), q.rest)
  }

  // ----- what is parsed is spelled by the tokens consumed -----

  lemma {:induction false} RedirsSound(rs: seq<Redirection>, t: seq<Tok>) returns (u: seq<Tok>, more: seq<Redirection>)
    requires Redirs(rs, t).Done?
    ensures t == u + Redirs(rs, t).rest && Redirs(rs, t).value == rs + more && SimpleT([], more, u)
    decreases |t|
  {
    if t == [] || !RedirKind(t[0].kind) {
      u, more := [], [];
    } else {
      var r := RedirOf(t[0], t[1]);
      u, more := RedirsSound(rs + [r], t[2..]);
      assert t == [t[0], t[1]] + t[2..];
      u, more := [t[0], t[1]] + u, [r] + more;
    }
  }

  lemma {:induction false} SimpleConcat(a: seq<Word>, r: seq<Redirection>, u: seq<Tok>, a': seq<Word>,
                                        r': seq<Redirection>, u': seq<Tok>)
    requires SimpleT(a, r, u) && SimpleT(a', r', u')
    ensures SimpleT(a + a', r + r', u + u')
    decreases |u|
  {
    if u == [] {
      assert a + a' == a' && r + r' == r' && u + u' == u';
    } else if RedirKind(u[0].kind) {
      SimpleConcat(a, r[1..], u[2..], a', r', u');
      assert (u + u')[2..] == u[2..] + u' && (r + r')[1..] == r[1..] + r';
    } else {
      SimpleConcat(a[1..], r, u[1..], a', r', u');
      assert (u + u')[1..] == u[1..] + u' && (a + a')[1..] == a[1..] + a';
    }
  }

  lemma {:induction false} ArgsSound(argv: seq<Word>, rs: seq<Redirection>, t: seq<Tok>)
    returns (u: seq<Tok>, da: seq<Word>, dr: seq<Redirection>)
    requires Args(argv, rs, t).Done? && |argv| < MAXARGS
    ensures t == u + Args(argv, rs, t).rest && SimpleT(da, dr, u)
    ensures Args(argv, rs, t).value == Wrapped(Exec(argv + da), rs + dr) && |argv + da| < MAXARGS
    decreases |t|
  {
    if t == [] || StopKind(t[0].kind) {
      u, da, dr := [], [], [];
      assert argv + [] == argv && rs + [] == rs;
    } else {
      var p := Redirs(rs, t[1..]);
      var w := WordOf(t[0]);
      var u1, m1 := RedirsSound(rs, t[1..]);
      var u2, a2, r2 := ArgsSound(argv + [w], p.value, p.rest);
      u, da, dr := [t[0]] + (u1 + u2), [w] + a2, m1 + r2;
      SimpleBoth(m1, u1, a2, r2, u2);
      WordFirst(t[0], a2, m1 + r2, u1 + u2);
      TwoParts(t, u1, p.rest, u2, Args(argv + [w], p.value, p.rest).rest);
      Assoc(argv, [w], a2);
      Assoc(rs, m1, r2);
    }
  }

  lemma Assoc<T>(a: seq<T>, b: seq<T>, c: seq<T>)
    ensures a + b + c == a + (b + c)
  {
  }

  lemma TwoParts(t: seq<Tok>, u1: seq<Tok>, r: seq<Tok>, u2: seq<Tok>, rest: seq<Tok>)
    requires t != [] && t[1..] == u1 + r && r == u2 + rest
    ensures t == [t[0]] + (u1 + u2) + rest
  {
    assert t == [t[0]] + t[1..];
  }

  lemma SimpleBoth(m1: seq<Redirection>, u1: seq<Tok>, a2: seq<Word>, r2: seq<Redirection>, u2: seq<Tok>)
    requires SimpleT([], m1, u1) && SimpleT(a2, r2, u2)
    ensures SimpleT(a2, m1 + r2, u1 + u2)
  {
    SimpleConcat([], m1, u1, a2, r2, u2);
    assert [] + a2 == a2;
  }

  lemma WordFirst(x: Tok, argv: seq<Word>, rs: seq<Redirection>, u: seq<Tok>)
    requires x.kind == 'a' && SimpleT(argv, rs, u)
    ensures SimpleT([WordOf(x)] + argv, rs, [x] + u)
  {
    assert ([x] + u)[1..] == u && ([WordOf(x)] + argv)[1..] == argv;
  }

  lemma SimpleSound(t: seq<Tok>) returns (u: seq<Tok>)
    requires Simple(t).Done?
    ensures t == u + Simple(t).rest && ExecT(Simple(t).value, u) && FewArgs(Simple(t).value)
  {
    var p := Redirs([], t);
    var u1, m1 := RedirsSound([], t);
    var u2, a2, r2 := ArgsSound([], p.value, p.rest);
    SimpleBoth(m1, u1, a2, r2, u2);
    Assoc(u1, u2, Simple(t).rest);
    EmptyFirst(a2, m1);
    u := u1 + u2;
    SimpleIsExec(a2, m1 + r2, u);
  }

  lemma EmptyFirst(a: seq<Word>, r: seq<Redirection>)
    ensures [] + a == a && [] + r == r
  {
  }

  lemma SimpleIsExec(argv: seq<Word>, rs: seq<Redirection>, u: seq<Tok>)
    requires SimpleT(argv, rs, u) && |argv| < MAXARGS
    ensures ExecT(Wrapped(Exec(argv), rs), u) && FewArgs(Wrapped(Exec(argv), rs))
  {
    WrappedFew(Exec(argv), rs);
  }

  lemma {:induction false} ExecSound(t: seq<Tok>) returns (u: seq<Tok>)
    requires ExecP(t).Done?
    ensures t == u + ExecP(t).rest && ExecT(ExecP(t).value, u) && FewArgs(ExecP(t).value)
    decreases |t|, 1
  {
    if Next(t, '(') { u := BlockSound(t); } else { u := SimpleSound(t); }
  }

  lemma {:induction false} BlockSound(t: seq<Tok>) returns (u: seq<Tok>)
    requires Next(t, '(') && Block(t).Done?
    ensures t == u + Block(t).rest && ExecT(Block(t).value, u) && FewArgs(Block(t).value)
    decreases |t|, 0
  {
    var p := Line(t[1..]);
    var u1 := LineSound(t[1..]);
    var u2, m2 := RedirsSound([], p.rest[1..]);
    assert [] + m2 == m2;
    BlockOf(p.value, m2, t[0], u1, p.rest[0], u2);
    WrappedFew(p.value, m2);
    u := [t[0]] + u1 + [p.rest[0]] + u2;
    FourParts(t, u1, p.rest, u2, Block(t).rest);
  }

  lemma FourParts(t: seq<Tok>, u1: seq<Tok>, r: seq<Tok>, u2: seq<Tok>, rest: seq<Tok>)
    requires t != [] && r != [] && t[1..] == u1 + r && r[1..] == u2 + rest
    ensures t == [t[0]] + u1 + [r[0]] + u2 + rest
  {
    assert t == [t[0]] + t[1..] && r == [r[0]] + r[1..];
  }

  lemma ThreeParts(t: seq<Tok>, u: seq<Tok>, r: seq<Tok>, v: seq<Tok>, rest: seq<Tok>)
    requires t == u + r && r != [] && r[1..] == v + rest
    ensures t == u + [r[0]] + v + rest
  {
    assert r == [r[0]] + r[1..];
  }

  lemma {:induction false} PipeSound(t: seq<Tok>) returns (u: seq<Tok>)
    requires PipeP(t).Done?
    ensures t == u + PipeP(t).rest && PipeT(PipeP(t).value, u) && FewArgs(PipeP(t).value)
    decreases |t|, 2
  {
    var p := ExecP(t);
    u := ExecSound(t);
    if Next(p.rest, '|') {
      var v := PipeSound(p.rest[1..]);
      var q := PipeP(p.rest[1..]);
      PipeOf(p.value, q.value, u, p.rest[0], v);
      ThreeParts(t, u, p.rest, v, q.rest);
      u := u + [p.rest[0]] + v;
    }
  }

  lemma {:induction false} BacksSound(c: Cmd, t: seq<Tok>, u0: seq<Tok>) returns (u: seq<Tok>)
    requires BackT(c, u0) && FewArgs(c)
    ensures u0 + t == u + Backs(c, t).rest && BackT(Backs(c, t).value, u) && FewArgs(Backs(c, t).value)
    decreases |t|
  {
    u := u0;
    if Next(t, '&') {
      BackOf(c, u0, t[0]);
      u := BacksSound(Back(c), t[1..], u0 + [t[0]]);
      assert u0 + t == u0 + [t[0]] + t[1..];
    }
  }

  /** Whatever is parsed is a command with few arguments, spelled by the tokens consumed. */
  lemma {:induction false} LineSound(t: seq<Tok>) returns (u: seq<Tok>)
    requires Line(t).Done?
    ensures t == u + Line(t).rest && LineT(Line(t).value, u) && FewArgs(Line(t).value)
    decreases |t|, 3
  {
    var p := PipeP(t);
    var u0 := PipeSound(t);
    u := BacksSound(p.value, p.rest, u0);
    var b := Backs(p.value, p.rest);
    if Next(b.rest, ';') {
      var v := LineSound(b.rest[1..]);
      var q := Line(b.rest[1..]);
      ListOf(b.value, q.value, u, b.rest[0], v);
      ThreeParts(t, u, b.rest, v, q.rest);
      u := u + [b.rest[0]] + v;
    }
  }

  // ----- what the grammar spells is parsed, whatever may follow it -----

  /** The tokens from position k of u on, and then v. */
  function From(u: seq<Tok>, k: nat, v: seq<Tok>): (w: seq<Tok>)
    requires k < |u|
    ensures w != [] && w[0] == u[k]
  {
    [u[k]] + (u[k + 1..] + v)
  }

  lemma FromParts(u: seq<Tok>, k: nat, v: seq<Tok>)
    requires k < |u|
    ensures u + v == u[..k] + From(u, k, v) && From(u, k, v)[1..] == u[k + 1..] + v
    ensures k > 0 ==> (u + v)[1..] == u[1..k] + From(u, k, v) && (u + v)[0] == u[0]
  {
  }

  /** The redirections a spelling starts with are taken off. */
  lemma {:induction false} RedirsTake(argv: seq<Word>, rs: seq<Redirection>, u: seq<Tok>, v: seq<Tok>,
                                      rs0: seq<Redirection>)
    returns (rs': seq<Redirection>, u': seq<Tok>)
    requires SimpleT(argv, rs, u) && (v == [] || !RedirKind(v[0].kind))
    ensures SimpleT(argv, rs', u') && |u'| <= |u| && (u' == [] || u'[0].kind == 'a')
    ensures Redirs(rs0, u + v).Done? && Redirs(rs0, u + v).rest == u' + v && Redirs(rs0, u + v).value + rs' == rs0 + rs
    decreases |u|
  {
    if u == [] || !RedirKind(u[0].kind) {
      rs', u' := rs, u;
    } else {
      var r := RedirOf(u[0], u[1]);
      rs', u' := RedirsTake(argv, rs[1..], u[2..], v, rs0 + [r]);
      TailTwo(u, v);
      FirstMoved(rs0, rs);
    }
  }

  lemma TailTwo(u: seq<Tok>, v: seq<Tok>)
    requires |u| >= 2
    ensures (u + v)[0] == u[0] && (u + v)[1] == u[1] && (u + v)[2..] == u[2..] + v
  {
  }

  lemma FirstMoved<T>(a: seq<T>, b: seq<T>)
    requires b != []
    ensures a + [b[0]] + b[1..] == a + b
  {
  }

  lemma TailOne(u: seq<Tok>, v: seq<Tok>)
    requires u != []
    ensures (u + v)[0] == u[0] && (u + v)[1..] == u[1..] + v
  {
  }

  lemma {:induction false} ArgsTake(argv0: seq<Word>, rs0: seq<Redirection>, argv: seq<Word>, rs: seq<Redirection>,
                                    u: seq<Tok>, v: seq<Tok>)
    requires SimpleT(argv, rs, u) && (u == [] || u[0].kind == 'a') && (v == [] || StopKind(v[0].kind))
    requires |argv0 + argv| < MAXARGS
    ensures Args(argv0, rs0, u + v) == Done(Wrapped(Exec(argv0 + argv), rs0 + rs), v)
    decreases |u|
  {
    if u == [] {
      assert u + v == v && argv0 + argv == argv0 && rs0 + rs == rs0;
    } else {
      var rs1, u1 := RedirsTake(argv[1..], rs, u[1..], v, rs0);
      var p := Redirs(rs0, u[1..] + v);
      FirstMoved(argv0, argv);
      TailOne(u, v);
      ArgsTake(argv0 + [argv[0]], p.value, argv[1..], rs1, u1, v);
    }
  }

  predicate ExecFollow(v: seq<Tok>) { v == [] || StopKind(v[0].kind) }

  lemma SimpleTake(argv: seq<Word>, rs: seq<Redirection>, u: seq<Tok>, v: seq<Tok>)
    requires SimpleT(argv, rs, u) && ExecFollow(v) && |argv| < MAXARGS
    ensures ExecP(u + v) == Done(Wrapped(Exec(argv), rs), v)
  {
    assert !Next(u + v, '(');
    var rs1, u1 := RedirsTake(argv, rs, u, v, []);
    assert [] + argv == argv && [] + rs == rs;
    ArgsTake([], Redirs([], u + v).value, argv, rs1, u1, v);
  }

  lemma {:induction false} ExecTake(c: Cmd, u: seq<Tok>, v: seq<Tok>)
    requires ExecT(c, u) && FewArgs(c) && ExecFollow(v)
    ensures ExecP(u + v) == Done(c, v)
    decreases |u|, 0
  {
    if argv, rs :| c == Wrapped(Exec(argv), rs) && SimpleT(argv, rs, u) {
      WrappedFew(Exec(argv), rs);
      SimpleTake(argv, rs, u, v);
    } else {
      var d, rs, k :| 0 < k < |u| && Bracketed(u, k) && c == Wrapped(d, rs) && LineT(d, u[1..k])
        && SimpleT([], rs, u[k + 1..]);
      WrappedFew(d, rs);
      LineTake(d, u[1..k], From(u, k, v));
      FromParts(u, k, v);
      BlockTake(d, rs, u + v, From(u, k, v), u[k + 1..], v);
    }
  }

  lemma BlockTake(d: Cmd, rs: seq<Redirection>, t: seq<Tok>, w: seq<Tok>, u: seq<Tok>, v: seq<Tok>)
    requires Next(t, '(') && Line(t[1..]) == Done(d, w) && Next(w, ')') && w[1..] == u + v && SimpleT([], rs, u)
    requires ExecFollow(v)
    ensures ExecP(t) == Done(Wrapped(d, rs), v)
  {
    RedirsAll(rs, u, v);
  }

  lemma RedirsAll(rs: seq<Redirection>, u: seq<Tok>, v: seq<Tok>)
    requires SimpleT([], rs, u) && ExecFollow(v)
    ensures Redirs([], u + v) == Done(rs, v)
  {
    var rs1, u1 := RedirsTake([], rs, u, v, []);
    assert u1 == [] && rs1 == [];
    assert [] + v == v && [] + rs == rs && Redirs([], u + v).value + [] == Redirs([], u + v).value;
  }

  predicate PipeFollow(v: seq<Tok>) { ExecFollow(v) && !Next(v, '|') }

  lemma {:induction false} PipeTake(c: Cmd, u: seq<Tok>, v: seq<Tok>)
    requires PipeT(c, u) && FewArgs(c) && PipeFollow(v)
    ensures PipeP(u + v) == Done(c, v)
    decreases |u|, 1
  {
    if ExecT(c, u) {
      ExecTake(c, u, v);
    } else {
      var k := PipeCut(c, u);
      ExecTake(c.left, u[..k], From(u, k, v));
      PipeTake(c.right, u[k + 1..], v);
      FromParts(u, k, v);
      PipeStep(u + v, c.left, From(u, k, v), c.right, v, u[k + 1..] + v);
    }
  }

  lemma PipeCut(c: Cmd, u: seq<Tok>) returns (k: nat)
    requires PipeT(c, u) && !ExecT(c, u)
    ensures c.Pipe? && k < |u| && u[k].kind == '|' && ExecT(c.left, u[..k]) && PipeT(c.right, u[k + 1..])
  {
    k :| 0 <= k < |u| && u[k].kind == '|' && ExecT(c.left, u[..k]) && PipeT(c.right, u[k + 1..]);
  }

  lemma PipeStep(t: seq<Tok>, l: Cmd, w: seq<Tok>, r: Cmd, v: seq<Tok>, w1: seq<Tok>)
    requires ExecP(t) == Done(l, w) && Next(w, '|') && w[1..] == w1 && PipeP(w1) == Done(r, v)
    ensures PipeP(t) == Done(Pipe(l, r), v)
  {
  }

  /** A background command is a pipe line and a number of &. */
  lemma {:induction false} BackPeel(c: Cmd, u: seq<Tok>) returns (c0: Cmd, u0: seq<Tok>, amps: seq<Tok>)
    requires BackT(c, u) && FewArgs(c)
    ensures u == u0 + amps && PipeT(c0, u0) && FewArgs(c0) && (forall i :: 0 <= i < |amps| ==> amps[i].kind == '&')
    ensures forall v :: !Next(v, '&') ==> Backs(c0, amps + v) == Done(c, v)
    decreases |u|
  {
    if PipeT(c, u) {
      c0, u0, amps := c, u, [];
      forall v | !Next(v, '&') ensures Backs(c0, amps + v) == Done(c, v) { assert amps + v == v; }
    } else {
      var x := u[|u| - 1];
      c0, u0, amps := BackPeel(c.cmd, u[..|u| - 1]);
      assert !Next([], '&') && amps + [] == amps;
      assert Backs(c0, amps + []) == Done(c.cmd, []);
      forall v | !Next(v, '&') ensures Backs(c0, (amps + [x]) + v) == Done(c, v) {
        BacksAppend(c0, amps, c.cmd, x, v);
      }
      assert u == u0 + (amps + [x]);
      amps := amps + [x];
    }
  }

  lemma {:induction false} BacksAppend(c0: Cmd, amps: seq<Tok>, c: Cmd, x: Tok, v: seq<Tok>)
    requires Backs(c0, amps) == Done(c, []) && x.kind == '&' && !Next(v, '&')
    requires forall i :: 0 <= i < |amps| ==> amps[i].kind == '&'
    ensures Backs(c0, amps + [x] + v) == Done(Back(c), v)
    decreases |amps|
  {
    var t := amps + [x] + v;
    if amps == [] {
      assert t[1..] == v;
    } else {
      assert t[1..] == amps[1..] + [x] + v;
      BacksAppend(Back(c0), amps[1..], c, x, v);
    }
  }

  predicate LineFollow(v: seq<Tok>) { v == [] || v[0].kind == ')' }

  /** A command line followed by nothing, or by a closing parenthesis, is parsed as it is spelled. */
  lemma {:induction false} LineTake(c: Cmd, u: seq<Tok>, v: seq<Tok>)
    requires LineT(c, u) && FewArgs(c) && LineFollow(v)
    ensures Line(u + v) == Done(c, v)
    decreases |u|, 3
  {
    if BackT(c, u) {
      BackTake(c, u, v);
    } else {
      var k := LineCut(c, u);
      BackTake(c.left, u[..k], From(u, k, v));
      LineTake(c.right, u[k + 1..], v);
      FromParts(u, k, v);
      LineStep(u + v, c.left, From(u, k, v), c.right, v, u[k + 1..] + v);
    }
  }

  lemma LineCut(c: Cmd, u: seq<Tok>) returns (k: nat)
    requires LineT(c, u) && !BackT(c, u)
    ensures c.List? && k < |u| && u[k].kind == ';' && BackT(c.left, u[..k]) && LineT(c.right, u[k + 1..])
  {
    k :| 0 <= k < |u| && u[k].kind == ';' && BackT(c.left, u[..k]) && LineT(c.right, u[k + 1..]);
  }

  lemma LineStep(t: seq<Tok>, l: Cmd, w: seq<Tok>, r: Cmd, v: seq<Tok>, w1: seq<Tok>)
    requires PipeP(t).Done? && Backs(PipeP(t).value, PipeP(t).rest) == Done(l, w)
    requires Next(w, ';') && w[1..] == w1 && Line(w1) == Done(r, v)
    ensures Line(t) == Done(List(l, r), v)
  {
  }

  lemma {:induction false} BackTake(c: Cmd, u: seq<Tok>, v: seq<Tok>)
    requires BackT(c, u) && FewArgs(c) && PipeFollow(v) && !Next(v, '&')
    ensures var p := PipeP(u + v); p.Done? && Backs(p.value, p.rest) == Done(c, v)
    decreases |u|, 2
  {
    var c0, u0, amps := BackPeel(c, u);
    assert u + v == u0 + (amps + v);
    PipeTake(c0, u0, amps + v);
  }

  /** The commands of the grammar are exactly those parsed with nothing left over. */
  lemma ParsedIff(c: Cmd, t: seq<Tok>)
    ensures LineT(c, t) && FewArgs(c) <==> Line(t) == Done(c, [])
  {
    if LineT(c, t) && FewArgs(c) {
      LineTake(c, t, []);
      assert t + [] == t;
    }
    if Line(t) == Done(c, []) {
      var u := LineSound(t);
      assert u + [] == u;
    }
  }

  /** The tokens of a line spell at most one command. */
  lemma Unambiguous(c: Cmd, d: Cmd, t: seq<Tok>)
    requires LineT(c, t) && LineT(d, t) && FewArgs(c) && FewArgs(d)
    ensures c == d
  {
    ParsedIff(c, t);
    ParsedIff(d, t);
  }
}
