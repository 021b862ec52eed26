/** grep's regular-expression matcher (grep.c:72-106) and what its patterns mean. */
module Grep {

  /** What one character of a pattern stands for. */
  datatype Atom = Dot | Char(c: char)

  datatype Item = One(a: Atom) | Star(a: Atom) | End

  function AtomOf(c: char): Atom { if c == '.' then Dot else Char(c) }

  predicate Fits(a: Atom, c: char) { a == Dot || a == Char(c) }

  /** The items of a pattern after an optional leading '^'. */
  function Parse(re: string): seq<Item> {
    if re == [] then []
    else if |re| >= 2 && re[1] == '*' then [Star(AtomOf(re[0]))] + Parse(re[2..])
    else if re == "$" then [End]
    else [One(AtomOf(re[0]))] + Parse(re[1..])
  }

  // ----- the meaning -----

  /** The piece text[i..j] is an instance of the item. */
  ghost predicate Piece(it: Item, text: string, i: int, j: int) {
    && 0 <= i <= j <= |text|
    && match it
       case One(a) => j == i + 1 && Fits(a, text[i])
       case Star(a) => forall k :: i <= k < j ==> Fits(a, text[k])
       case End => j == i == |text|
  }

  /** Some way of cutting the text from i on gives one instance for each item in turn. */
  ghost predicate Cuts(items: seq<Item>, text: string, cut: seq<int>) {
    |cut| == |items| + 1 && forall k :: 0 <= k < |items| ==> Piece(items[k], text, cut[k], cut[k + 1])
  }

  ghost predicate MatchesAt(items: seq<Item>, text: string, i: int) {
    exists cut :: Cuts(items, text, cut) && cut[0] == i
  }

  /** The meaning of a pattern: an instance of its items somewhere in the text, or at its start after
      a leading '^'. */
  ghost predicate Meaning(re: string, text: string) {
    if re != [] && re[0] == '^' then MatchesAt(Parse(re[1..]), text, 0)
    else exists i :: 0 <= i <= |text| && MatchesAt(Parse(re), text, i)
  }

  // ----- one item at a time -----

  lemma NoItems(text: string, i: int)
    ensures MatchesAt([], text, i)
  {
    assert Cuts([], text, [i]);
  }

  /** The first item takes a piece, the others match where it ends. */
  lemma FirstItem(items: seq<Item>, text: string, i: int)
    requires items != []
    ensures MatchesAt(items, text, i) <==> exists j :: Piece(items[0], text, i, j) && MatchesAt(items[1..], text, j)
  {
    if MatchesAt(items, text, i) {
      var cut :| Cuts(items, text, cut) && cut[0] == i;
      assert Cuts(items[1..], text, cut[1..]);
      assert Piece(items[0], text, i, cut[1]) && MatchesAt(items[1..], text, cut[1]);
    }
    if j :| Piece(items[0], text, i, j) && MatchesAt(items[1..], text, j) {
      var cut :| Cuts(items[1..], text, cut) && cut[0] == j;
      var longer := [i] + cut;
      forall k | 0 <= k < |items| ensures Piece(items[k], text, longer[k], longer[k + 1]) {
        if k > 0 { assert items[k] == items[1..][k - 1]; }
      }
      assert Cuts(items, text, longer);
    }
  }

  // ----- the matcher -----

  /** matchhere, for the text from position i on. */
  method MatchHere(re: string, text: string, i: nat) returns (r: bool)
    requires i <= |text|
    ensures r <==> MatchesAt(Parse(re), text, i)
    decreases |re|, 1
  {
    if re == [] {
      NoItems(text, i);
      return true;
    }
    FirstItem(Parse(re), text, i);
    if |re| >= 2 && re[1] == '*' {
      assert Parse(re)[1..] == Parse(re[2..]);
      r := MatchStar(re[0], re[2..], text, i);
      return;
    }
    if re == "$" {
      NoItems(text, i);
      assert Parse(re)[1..] == [];
      assert i == |text| ==> Piece(End, text, i, i);
      return i == |text|;
    }
    assert Parse(re)[1..] == Parse(re[1..]);
    if i < |text| && (re[0] == '.' || re[0] == text[i]) {
      assert Piece(Parse(re)[0], text, i, i + 1);
      r := MatchHere(re[1..], text, i + 1);
      return;
    }
    r := false;
  }

  /** matchstar */
  method MatchStar(c: char, re: string, text: string, i: nat) returns (r: bool)
    requires i <= |text|
    ensures r <==> exists j :: Piece(Star(AtomOf(c)), text, i, j) && MatchesAt(Parse(re), text, j)
    decreases |re|, 2
  {
    var j := i;
    while true
      invariant i <= j <= |text| && Piece(Star(AtomOf(c)), text, i, j)
      invariant forall k :: i <= k < j ==> !MatchesAt(Parse(re), text, k)
      decreases |text| - j
    {
      var here := MatchHere(re, text, j);
      if here { return true; }
      if !(j < |text| && (text[j] == c || c == '.')) {
        return false;
      }
      j := j + 1;
    }
  }

  /** match */
  method Match(re: string, text: string) returns (r: bool)
    ensures r <==> Meaning(re, text)
  {
    if re != [] && re[0] == '^' {
      r := MatchHere(re[1..], text, 0);
      return;
    }
    var i := 0;
    while true
      invariant 0 <= i <= |text|
      invariant forall k :: 0 <= k < i ==> !MatchesAt(Parse(re), text, k)
      decreases |text| - i
    {
      var here := MatchHere(re, text, i);
      if here { return true; }
      if i == |text| { return false; }
      i := i + 1;
    }
  }
}
