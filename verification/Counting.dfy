/** Counting distinct numbers. */
module Counting {

  function Below(m: nat): (r: set<int>)
    ensures forall i :: i in r <==> 0 <= i < m
    ensures |r| == m
  {
    if m == 0 then {} else Below(m - 1) + {m - 1}
  }

  ghost predicate NoRepeats<T>(s: seq<T>) {
    forall i, j :: 0 <= i < j < |s| ==> s[i] != s[j]
  }

  lemma {:induction false} ElementCount<T>(s: seq<T>)
    requires NoRepeats(s)
    ensures |set x | x in s| == |s|
  {
    var all := set x | x in s;
    if s == [] {
      assert all == {};
    } else {
      var k := |s| - 1;
      ElementCount(s[..k]);
      var front := set x | x in s[..k];
      assert forall x :: x in s <==> x in s[..k] || x == s[k];
      assert all == front + {s[k]};
      assert s[k] !in front;
    }
  }

  lemma SubsetSize<T>(a: set<T>, b: set<T>)
    requires a <= b
    ensures |a| <= |b|
  {
    assert a + (b - a) == b;
  }

  /** As many numbers below m as there are: all of them. */
  lemma NoneMissing(s: set<int>, m: nat, v: nat)
    requires (forall i :: i in s ==> 0 <= i < m) && |s| == m && v < m
    ensures v in s
  {
    if v !in s { SubsetSize(s, Below(m) - {v}); }
  }

  /** At most m distinct numbers lie below m. */
  lemma Pigeonhole(s: seq<int>, m: nat)
    requires NoRepeats(s) && forall i :: 0 <= i < |s| ==> 0 <= s[i] < m
    ensures |s| <= m
  {
    ElementCount(s);
    SubsetSize((set x | x in s), Below(m));
  }
}
