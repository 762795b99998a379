/** Sequences without repetitions, and how many elements they have. */
module Distinct {

  predicate NoRepeats(s: seq<nat>) {
    forall i, j :: 0 <= i < j < |s| ==> s[i] != s[j]
  }

  /** Every element of s at its first place only. */
  function Firsts(s: seq<nat>): seq<nat>
    decreases |s|
  {
    if s == [] then []
    else
      var n := |s| - 1;
      if s[n] in s[..n] then Firsts(s[..n]) else Firsts(s[..n]) + [s[n]]
  }

  lemma FirstsOn(s: seq<nat>, x: nat)
    ensures Firsts(s + [x]) == if x in s then Firsts(s) else Firsts(s) + [x]
  {
    assert (s + [x])[..|s|] == s;
  }

  lemma {:induction false} FirstsAre(s: seq<nat>)
    ensures NoRepeats(Firsts(s)) && forall x :: x in Firsts(s) <==> x in s
    decreases |s|
  {
    if s != [] {
      var front, x := s[..|s| - 1], s[|s| - 1];
      FirstsAre(front);
      FirstsOn(front, x);
      assert s == front + [x];
    }
  }

  lemma {:induction false} FirstsSame(s: seq<nat>)
    requires NoRepeats(s)
    ensures Firsts(s) == s
    decreases |s|
  {
    if s != [] {
      FirstsSame(s[..|s| - 1]);
      assert s == s[..|s| - 1] + [s[|s| - 1]];
    }
  }

  /** The first n elements of s. */
  function Elements(s: seq<nat>, n: nat): set<nat>
    requires n <= |s|
  {
    if n == 0 then {} else Elements(s, n - 1) + {s[n - 1]}
  }

  lemma {:induction false} AreElements(s: seq<nat>, n: nat, i: nat)
    requires n <= |s|
    ensures i in Elements(s, n) <==> i in s[..n]
    decreases n
  {
    if n > 0 {
      AreElements(s, n - 1, i);
      assert s[..n] == s[..n - 1] + [s[n - 1]];
    }
  }

  lemma {:induction false} ElementCount(s: seq<nat>, n: nat)
    requires NoRepeats(s) && n <= |s|
    ensures |Elements(s, n)| == n
    decreases n
  {
    if n > 0 {
      ElementCount(s, n - 1);
      AreElements(s, n - 1, s[n - 1]);
    }
  }

  lemma {:induction false} SubsetSize(s: set<nat>, t: set<nat>)
    requires s <= t
    ensures |s| <= |t|
    decreases |s|
  {
    if x :| x in s {
      SubsetSize(s - {x}, t - {x});
    }
  }

  lemma {:induction false} SubsetFull(s: set<nat>, t: set<nat>)
    requires s <= t && |s| == |t|
    ensures s == t
    decreases |s|
  {
    if x :| x in t && x !in s {
      SubsetSize(s, t - {x});
    }
  }

  /** The size of a sequence without repetitions whose elements lie in a set. */
  lemma Fitting(s: seq<nat>, t: set<nat>)
    requires NoRepeats(s) && forall i :: 0 <= i < |s| ==> s[i] in t
    ensures |s| <= |t|
    ensures (forall x :: x in t ==> x in s) ==> |s| == |t|
  {
    ElementCount(s, |s|);
    var e := Elements(s, |s|);
    forall x | x in e ensures x in t {
      AreElements(s, |s|, x);
    }
    SubsetSize(e, t);
    if forall x :: x in t ==> x in s {
      forall x | x in t ensures x in e {
        AreElements(s, |s|, x);
        assert s[..|s|] == s;
      }
      SubsetSize(t, e);
    }
  }

  /** A sequence as long as the set is large leaves none out. */
  lemma Full(s: seq<nat>, t: set<nat>, x: nat)
    requires NoRepeats(s) && (forall i :: 0 <= i < |s| ==> s[i] in t) && |s| == |t| && x in t
    ensures x in s
  {
    ElementCount(s, |s|);
    var e := Elements(s, |s|);
    forall y | y in e ensures y in t {
      AreElements(s, |s|, y);
    }
    SubsetFull(e, t);
    AreElements(s, |s|, x);
  }

  /** The numbers below n. */
  function Below(n: nat): (s: set<nat>)
    ensures |s| == n && forall i: nat :: i in s <==> i < n
  {
    if n == 0 then {} else Below(n - 1) + {n - 1}
  }
}
