/** Visiting the intercepts of a trace in order (P_TraverseIntercepts of
    doom/p_maputl.c): repeated selection of the nearest, which is struck out by
    overwriting its distance. */
module Intercepts {
  import opened Distinct
  import opened Fixed

  /** Intercept i comes before j: nearer, or equally near and recorded earlier. */
  predicate Before(fracs: seq<int>, i: nat, j: nat)
    requires i < |fracs| && j < |fracs|
  {
    fracs[i] < fracs[j] || (fracs[i] == fracs[j] && i < j)
  }

  predicate Near(fracs: seq<int>, maxfrac: int, i: int) {
    0 <= i < |fracs| && fracs[i] <= maxfrac
  }

  /** v is an initial part of the intercepts within maxfrac in stable order of distance. */
  ghost predicate InOrder(fracs: seq<int>, maxfrac: int, v: seq<nat>) {
    && (forall k :: 0 <= k < |v| ==> Near(fracs, maxfrac, v[k]))
    && (forall k, l :: 0 <= k < l < |v| ==> Before(fracs, v[k], v[l]))
    && (forall i, k :: Near(fracs, maxfrac, i) && 0 <= k < |v| && Before(fracs, i, v[k]) ==> i in v[..k])
  }

  ghost predicate Complete(fracs: seq<int>, maxfrac: int, v: seq<nat>) {
    forall i :: Near(fracs, maxfrac, i) ==> i in v
  }

  lemma NotAmongEarlier(fracs: seq<int>, maxfrac: int, v: seq<nat>, n: nat)
    requires InOrder(fracs, maxfrac, v) && n < |v|
    ensures v[n] !in v[..n]
  {
    forall k | 0 <= k < n ensures v[..n][k] != v[n] {
      assert Before(fracs, v[k], v[n]);
    }
  }

  /** There is only one such order: initial parts of it agree as far as they go. */
  lemma {:induction false} InOrderUnique(fracs: seq<int>, maxfrac: int, v: seq<nat>, w: seq<nat>)
    requires InOrder(fracs, maxfrac, v) && InOrder(fracs, maxfrac, w) && |v| <= |w|
    ensures v == w[..|v|]
    decreases |v|
  {
    if v != [] {
      var n := |v| - 1;
      assert InOrder(fracs, maxfrac, v[..n]) by {
        assert forall k :: 0 <= k < n ==> v[..n][..k] == v[..k];
      }
      InOrderUnique(fracs, maxfrac, v[..n], w);
      assert w[..n] == v[..n];
      assert Near(fracs, maxfrac, v[n]) && Near(fracs, maxfrac, w[n]);
      NotAmongEarlier(fracs, maxfrac, v, n);
      NotAmongEarlier(fracs, maxfrac, w, n);
      assert !Before(fracs, v[n], w[n]) && !Before(fracs, w[n], v[n]);
    }
  }

  /** A complete one has every intercept within range exactly once. */
  lemma CompleteOnce(fracs: seq<int>, maxfrac: int, v: seq<nat>, i: nat)
    requires InOrder(fracs, maxfrac, v) && Complete(fracs, maxfrac, v)
    ensures multiset(v)[i] == if Near(fracs, maxfrac, i) then 1 else 0
  {
    OnceEach(fracs, maxfrac, v, i);
  }

  lemma {:induction false} OnceEach(fracs: seq<int>, maxfrac: int, v: seq<nat>, i: nat)
    requires InOrder(fracs, maxfrac, v)
    ensures multiset(v)[i] == if i in v then 1 else 0
    ensures i in v ==> Near(fracs, maxfrac, i)
    decreases |v|
  {
    if v != [] {
      var n := |v| - 1;
      assert InOrder(fracs, maxfrac, v[..n]) by {
        assert forall k :: 0 <= k < n ==> v[..n][..k] == v[..k];
      }
      OnceEach(fracs, maxfrac, v[..n], i);
      assert v == v[..n] + [v[n]];
      if i in v[..n] {
        var k :| 0 <= k < n && v[k] == i;
        assert Before(fracs, v[k], v[n]);
      }
    }
  }

  /** The distances when the intercepts in v have been struck out. */
  function Struck(fracs: seq<int>, v: seq<nat>): (r: seq<int>)
    ensures |r| == |fracs|
  {
    seq(|fracs|, i requires 0 <= i < |fracs| => if i in v then MAXINT else fracs[i])
  }

  /** The first of the nearest intercepts, or |fracs| when none is nearer than MAXINT. */
  method Nearest(a: array<int>) returns (best: nat, dist: int)
    requires forall i :: 0 <= i < a.Length ==> a[i] <= MAXINT
    ensures best <= a.Length && dist <= MAXINT && forall i :: 0 <= i < a.Length ==> dist <= a[i]
    ensures best == a.Length ==> dist == MAXINT
    ensures best < a.Length ==> a[best] == dist && dist < MAXINT && forall i :: 0 <= i < best ==> a[i] > dist
  {
    best, dist := a.Length, MAXINT;
    for scan := 0 to a.Length
      invariant best == a.Length || best < scan
      invariant dist <= MAXINT && forall i :: 0 <= i < scan ==> dist <= a[i]
      invariant best == a.Length ==> dist == MAXINT
      invariant best < a.Length ==> a[best] == dist && dist < MAXINT && forall i :: 0 <= i < best ==> a[i] > dist
    {
      if a[scan] < dist {
        best, dist := scan, a[scan];
      }
    }
  }

  /** The least intercept not struck out yet continues the order. */
  lemma NextInOrder(fracs: seq<int>, maxfrac: int, v: seq<nat>, best: nat)
    requires InOrder(fracs, maxfrac, v) && maxfrac < MAXINT && best < |fracs|
    requires var r := Struck(fracs, v);
             r[best] <= maxfrac && (forall i :: 0 <= i < |r| ==> r[best] <= r[i]) && forall i :: 0 <= i < best ==> r[i] > r[best]
    ensures InOrder(fracs, maxfrac, v + [best]) && best !in v
  {
    var r := Struck(fracs, v);
    var w := v + [best];
    assert best !in v && r[best] == fracs[best];
    assert Near(fracs, maxfrac, best);
    forall k | 0 <= k < |v| ensures Before(fracs, v[k], best) {
      assert best in v[..k] ==> best in v;
    }
    forall i, k | Near(fracs, maxfrac, i) && 0 <= k < |w| && Before(fracs, i, w[k]) ensures i in w[..k] {
      if k < |v| {
        assert w[..k] == v[..k];
      } else {
        assert w[..k] == v;
        assert r[best] <= r[i];
      }
    }
  }

  /** P_TraverseIntercepts. The traverser's answer may depend on all it has been shown so far. */
  method TraverseIntercepts(a: array<int>, maxfrac: int, func: seq<nat> -> bool) returns (ok: bool, visited: seq<nat>)
    requires maxfrac < MAXINT && forall i :: 0 <= i < a.Length ==> a[i] <= MAXINT
    modifies a
    ensures InOrder(old(a[..]), maxfrac, visited)
    ensures ok ==> Complete(old(a[..]), maxfrac, visited) && a[..] == Struck(old(a[..]), visited)
    ensures !ok ==> visited != [] && a[..] == Struck(old(a[..]), visited[..|visited| - 1])
    ensures forall k :: 0 < k < |visited| ==> func(visited[..k])
    ensures visited != [] ==> ok == func(visited)
    ensures visited == [] ==> ok
  {
    ghost var fracs := a[..];
    visited := [];
    var count := a.Length;
    assert a[..] == Struck(fracs, visited);
    while count > 0
      invariant 0 <= count <= a.Length && |visited| == a.Length - count
      invariant a[..] == Struck(fracs, visited) && InOrder(fracs, maxfrac, visited)
      invariant forall i :: 0 <= i < a.Length ==> a[i] <= MAXINT
      invariant forall k :: 0 < k <= |visited| ==> func(visited[..k])
    {
      var best, dist := Nearest(a);
      if dist > maxfrac {
        assert Complete(fracs, maxfrac, visited) by {
          forall i | Near(fracs, maxfrac, i) ensures i in visited {
            assert a[..][i] == Struck(fracs, visited)[i];
          }
        }
        assert visited != [] ==> visited[..|visited|] == visited;
        return true, visited;
      }
      ghost var before := visited;
      NextInOrder(fracs, maxfrac, visited, best);
      visited := visited + [best];
      assert forall k :: 0 < k < |visited| ==> visited[..k] == before[..k];
      if !func(visited) {
        assert visited[..|visited| - 1] == before;
        return false, visited;
      }
      a[best] := MAXINT;
      assert visited[..|visited|] == visited;
      count := count - 1;
    }
    AllVisited(fracs, maxfrac, visited);
    assert visited != [] ==> visited[..|visited|] == visited;
    ok := true;
  }

  /** As many visits as intercepts leave none out. */
  lemma AllVisited(fracs: seq<int>, maxfrac: int, v: seq<nat>)
    requires InOrder(fracs, maxfrac, v) && |v| == |fracs|
    ensures Complete(fracs, maxfrac, v)
  {
    forall i, j | 0 <= i < j < |v| ensures v[i] != v[j] {
      assert Before(fracs, v[i], v[j]);
    }
    forall i | Near(fracs, maxfrac, i) ensures i in v {
      Full(v, Below(|fracs|), i);
    }
  }
}
