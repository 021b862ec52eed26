/** The characters of a command line and the tokens they form (sh.c:262-320). */
module ShellTokens {
  import opened Basics
  import opened ShellGrammar

  const NUL := '\0'

  predicate White(c: char) { c == ' ' || c == '\t' || c == '\r' || c == '\n' || c as int == 0x0b }
  predicate Symbol(c: char) { c == '<' || c == '|' || c == '>' || c == '&' || c == ';' || c == '(' || c == ')' }
  predicate WordChar(c: char) { !White(c) && !Symbol(c) && c != NUL }

  /** The text of a command, without its terminating NUL. */
  ghost predicate Text(line: string) { forall k :: 0 <= k < |line| ==> line[k] != NUL }

  // ----- tokens -----

  /** A maximal run of word characters. */
  ghost predicate Token(line: string, w: Word) {
    && w.q < w.eq <= |line|
    && (forall k :: w.q <= k < w.eq ==> WordChar(line[k]))
    && (w.eq < |line| ==> !WordChar(line[w.eq]))
    && (w.q > 0 ==> !WordChar(line[w.q - 1]))
  }

  ghost predicate IsTok(line: string, t: Tok) {
    && t.q < t.eq <= |line|
    && if t.kind == 'a' then Token(line, Word(t.q, t.eq))
       else if t.kind == '+' then t.eq == t.q + 2 && line[t.q] == '>' && line[t.q + 1] == '>'
       else
         Symbol(t.kind) && t.eq == t.q + 1 && line[t.q] == t.kind
         && (t.kind == '>' && t.eq < |line| ==> line[t.eq] != '>')
  }

  /** The cursor is not inside a word. */
  ghost predicate Edge(line: string, pos: nat) {
    pos <= |line| && (0 < pos < |line| ==> !WordChar(line[pos - 1]) || !WordChar(line[pos]))
  }

  /** ts are the tokens of line[from..to], in order and all of them: only white space lies outside. */
  ghost predicate AllToks(line: string, from: nat, to: nat, ts: seq<Tok>)
    requires from <= to <= |line|
  {
    && (forall i :: 0 <= i < |ts| ==> IsTok(line, ts[i]) && from <= ts[i].q && ts[i].eq <= to)
    && (forall i, j :: 0 <= i < j < |ts| ==> ts[i].eq <= ts[j].q)
    && (forall k :: from <= k < to && !White(line[k]) ==> exists i :: 0 <= i < |ts| && ts[i].q <= k < ts[i].eq)
  }

  /** AllToks, closed until OpenFound is called. */
  ghost predicate Found(line: string, from: nat, to: nat, ts: seq<Tok>) {
    && from <= to <= |line|
    && forall k {:trigger Key(k, (line, from, to, ts))} :: Key(k, (line, from, to, ts)) ==> AllToks(line, from, to, ts)
  }

  lemma OpenFound(line: string, from: nat, to: nat, ts: seq<Tok>)
    requires from <= to <= |line|
    ensures Found(line, from, to, ts) <==> AllToks(line, from, to, ts)
  {
    assert Key(0, (line, from, to, ts));
  }

  lemma FoundNothing(line: string, from: nat, to: nat)
    requires from <= to <= |line| && forall k :: from <= k < to ==> White(line[k])
    ensures Found(line, from, to, [])
  {
    OpenFound(line, from, to, []);
  }

  lemma FoundTok(line: string, from: nat, to: nat, t: Tok)
    requires IsTok(line, t) && from <= t.q && t.eq <= to <= |line|
    requires forall k :: from <= k < to && !(t.q <= k < t.eq) ==> White(line[k])
    ensures Found(line, from, to, [t])
  {
    assert [t][0] == t;
    OpenFound(line, from, to, [t]);
  }

  lemma FoundTwice(line: string, a: nat, b: nat, c: nat, us: seq<Tok>, vs: seq<Tok>)
    requires Found(line, a, b, us) && Found(line, b, c, vs)
    ensures Found(line, a, c, us + vs)
  {
    var ts := us + vs;
    OpenFound(line, a, b, us);
    OpenFound(line, b, c, vs);
    OpenFound(line, a, c, ts);
    forall i, j | 0 <= i < j < |ts| ensures ts[i].eq <= ts[j].q {
      if i < |us| <= j {
        assert ts[i] == us[i] && ts[j] == vs[j - |us|];
      }
    }
    forall k | a <= k < c && !White(line[k]) ensures exists i :: 0 <= i < |ts| && ts[i].q <= k < ts[i].eq {
      if k < b {
        var i :| 0 <= i < |us| && us[i].q <= k < us[i].eq;
        assert ts[i] == us[i];
      } else {
        var i :| 0 <= i < |vs| && vs[i].q <= k < vs[i].eq;
        assert ts[|us| + i] == vs[i];
      }
    }
  }

  // ----- a line has one sequence of tokens -----

  lemma TokStart(line: string, t: Tok)
    requires IsTok(line, t)
    ensures !White(line[t.q])
  {
  }

  /** Two tokens that start at the same place are the same. */
  lemma SameTok(line: string, t: Tok, u: Tok)
    requires Text(line) && IsTok(line, t) && IsTok(line, u) && t.q == u.q
    ensures t == u
  {
  }

  /** After white space the same tokens remain. */
  lemma FoundSkip(line: string, a: nat, b: nat, ts: seq<Tok>)
    requires Found(line, a, |line|, ts) && Found(line, a, b, [])
    ensures Found(line, b, |line|, ts)
  {
    OpenFound(line, a, |line|, ts);
    OpenFound(line, a, b, []);
    OpenFound(line, b, |line|, ts);
    forall i | 0 <= i < |ts| ensures b <= ts[i].q {
      TokStart(line, ts[i]);
    }
  }

  /** After a token the others remain. */
  lemma FoundHead(line: string, a: nat, b: nat, t: Tok, ts: seq<Tok>)
    requires Text(line) && Found(line, a, |line|, ts) && Found(line, a, b, [t])
    ensures ts != [] && ts[0] == t && Found(line, b, |line|, ts[1..])
  {
    OpenFound(line, a, |line|, ts);
    OpenFound(line, a, b, [t]);
    assert [t][0] == t;
    assert forall k :: a <= k < b && !(t.q <= k < t.eq) ==> White(line[k]);
    HeadIs(line, a, b, t, ts);
    RestFound(line, a, b, t, ts);
  }

  lemma HeadIs(line: string, a: nat, b: nat, t: Tok, ts: seq<Tok>)
    requires Text(line) && a <= b <= |line| && AllToks(line, a, |line|, ts) && IsTok(line, t) && a <= t.q && t.eq <= b
    requires forall k :: a <= k < b && !(t.q <= k < t.eq) ==> White(line[k])
    ensures ts != [] && ts[0] == t
  {
    TokStart(line, t);
    var i :| 0 <= i < |ts| && ts[i].q <= t.q < ts[i].eq;
    TokStart(line, ts[i]);
    TokStart(line, ts[0]);
    assert forall j :: 0 < j < |ts| ==> ts[0].eq <= ts[j].q;
    SameTok(line, t, ts[0]);
  }

  lemma RestFound(line: string, a: nat, b: nat, t: Tok, ts: seq<Tok>)
    requires a <= b <= |line| && AllToks(line, a, |line|, ts) && ts != [] && ts[0] == t && t.eq <= b
    requires forall k :: a <= k < b && !(t.q <= k < t.eq) ==> White(line[k])
    ensures Found(line, b, |line|, ts[1..])
  {
    var us := ts[1..];
    OpenFound(line, b, |line|, us);
    forall i | 0 <= i < |us| ensures IsTok(line, us[i]) && b <= us[i].q {
      assert us[i] == ts[i + 1];
      TokStart(line, ts[i + 1]);
    }
    forall k | b <= k < |line| && !White(line[k]) ensures exists i :: 0 <= i < |us| && us[i].q <= k < us[i].eq {
      var i :| 0 <= i < |ts| && ts[i].q <= k < ts[i].eq;
      assert us[i - 1] == ts[i];
    }
  }

  lemma {:induction false} FoundUnique(line: string, a: nat, ts: seq<Tok>, us: seq<Tok>)
    requires Text(line) && Found(line, a, |line|, ts) && Found(line, a, |line|, us)
    ensures ts == us
    decreases |ts|
  {
    if ts == [] {
      NoTokens(line, a, us);
    } else {
      var t := ts[0];
      FirstFound(line, a, ts);
      FoundHead(line, a, t.eq, t, ts);
      FoundHead(line, a, t.eq, t, us);
      FoundUnique(line, t.eq, ts[1..], us[1..]);
      assert ts == [t] + ts[1..] && us == [t] + us[1..];
    }
  }

  lemma NoTokens(line: string, a: nat, us: seq<Tok>)
    requires Found(line, a, |line|, []) && Found(line, a, |line|, us)
    ensures us == []
  {
    OpenFound(line, a, |line|, []);
    OpenFound(line, a, |line|, us);
    if us != [] { TokStart(line, us[0]); }
  }

  /** The first token alone, up to its end. */
  lemma FirstFound(line: string, a: nat, ts: seq<Tok>)
    requires Found(line, a, |line|, ts) && ts != []
    ensures a <= ts[0].eq <= |line| && Found(line, a, ts[0].eq, [ts[0]])
  {
    OpenFound(line, a, |line|, ts);
    assert IsTok(line, ts[0]);
    assert forall i :: 0 < i < |ts| ==> ts[0].eq <= ts[i].q;
    assert forall k :: a <= k < ts[0].q ==> White(line[k]);
    FoundTok(line, a, ts[0].eq, ts[0]);
  }

  /** What the character under the cursor says about the next token. */
  lemma NextKind(line: string, s: nat, ts: seq<Tok>)
    requires Text(line) && Found(line, s, |line|, ts) && (s < |line| ==> !White(line[s]))
    ensures s == |line| <==> ts == []
    ensures s < |line| ==> ts[0].q == s && (line[s] == '>' <==> ts[0].kind == '>' || ts[0].kind == '+')
    ensures s < |line| && Symbol(line[s]) && line[s] != '>' ==> ts[0].kind == line[s]
    ensures s < |line| && WordChar(line[s]) ==> ts[0].kind == 'a'
  {
    OpenFound(line, s, |line|, ts);
    if s < |line| {
      var i :| 0 <= i < |ts| && ts[i].q <= s < ts[i].eq;
      assert IsTok(line, ts[0]);
      assert forall j :: 0 < j < |ts| ==> ts[0].eq <= ts[j].q;
      assert i == 0;
    }
  }

  // ----- every line has tokens -----

  function SkipTo(line: string, pos: nat): (s: nat)
    requires pos <= |line|
    ensures pos <= s <= |line| && (forall k :: pos <= k < s ==> White(line[k])) && (s < |line| ==> !White(line[s]))
    decreases |line| - pos
  {
    if pos < |line| && White(line[pos]) then SkipTo(line, pos + 1) else pos
  }

  function WordEnd(line: string, pos: nat): (s: nat)
    requires pos <= |line|
    ensures pos <= s <= |line| && (forall k :: pos <= k < s ==> WordChar(line[k]))
    ensures (s < |line| ==> !WordChar(line[s]))
    decreases |line| - pos
  {
    if pos < |line| && WordChar(line[pos]) then WordEnd(line, pos + 1) else pos
  }

  function TokAt(line: string, q: nat): (t: Tok)
    requires q < |line|
  {
    if line[q] == '>' && q + 1 < |line| && line[q + 1] == '>' then Tok('+', q, q + 2)
    else if Symbol(line[q]) then Tok(line[q], q, q + 1)
    else Tok('a', q, WordEnd(line, q))
  }

  lemma TokAtOk(line: string, pos: nat, q: nat)
    requires Text(line) && Edge(line, pos) && pos <= q < |line| && !White(line[q])
    requires forall k :: pos <= k < q ==> White(line[k])
    ensures IsTok(line, TokAt(line, q)) && TokAt(line, q).q == q && Edge(line, TokAt(line, q).eq)
  {
    if q > pos { assert White(line[q - 1]); }
  }

  lemma {:induction false} TokensExist(line: string, pos: nat) returns (ts: seq<Tok>)
    requires Text(line) && Edge(line, pos)
    ensures Found(line, pos, |line|, ts)
    decreases |line| - pos
  {
    var q := SkipTo(line, pos);
    if q == |line| {
      ts := [];
      FoundNothing(line, pos, |line|);
    } else {
      var t := TokAt(line, q);
      TokAtOk(line, pos, q);
      var us := TokensExist(line, t.eq);
      FoundTok(line, pos, t.eq, t);
      FoundTwice(line, pos, t.eq, |line|, [t], us);
      ts := [t] + us;
    }
  }
}
