/** Intrusive doubly linked lists: every thing carries its own links, every list has a
    head. doom/p_maputl.c keeps two sets of them, by blockmap cell and by sector. */
module Chains {
  import opened Options

  /** The thing has been cut out of list k, all else as before. */
  ghost predicate Removed(before: seq<seq<nat>>, after: seq<seq<nat>>, k: nat, t: nat) {
    k < |before| && exists i :: 0 <= i < |before[k]| && before[k][i] == t && after == before[k := Without(before[k], i)]
  }

  type Links = map<nat, Option<nat>>

  function Succ(chain: seq<nat>, i: int): Option<nat> {
    if 0 <= i + 1 < |chain| then Some(chain[i + 1]) else None
  }

  function Pred(chain: seq<nat>, i: int): Option<nat> {
    if 0 <= i - 1 < |chain| then Some(chain[i - 1]) else None
  }

  /** The thing at place i of the chain points to its neighbours. */
  predicate Knit(chain: seq<nat>, next: Links, prev: Links, i: int) {
    && 0 <= i < |chain| && chain[i] in next && chain[i] in prev
    && next[chain[i]] == Succ(chain, i) && prev[chain[i]] == Pred(chain, i)
  }

  /** Finite, acyclic and linked both ways, from the head to the end. */
  predicate InChain(chain: seq<nat>, next: Links, prev: Links, head: Option<nat>) {
    head == Succ(chain, -1) && forall i :: 0 <= i < |chain| ==> Knit(chain, next, prev, i)
  }

  predicate At(chains: seq<seq<nat>>, k: int, i: int) {
    0 <= k < |chains| && 0 <= i < |chains[k]|
  }

  /** No thing is on two lists, or twice on one. */
  ghost predicate Apart(chains: seq<seq<nat>>) {
    forall k, i, l, j :: At(chains, k, i) && At(chains, l, j) && chains[k][i] == chains[l][j] ==> k == l && i == j
  }

  ghost predicate OnSome(chains: seq<seq<nat>>, t: nat) {
    exists k :: 0 <= k < |chains| && t in chains[k]
  }

  function Without(s: seq<nat>, i: nat): seq<nat>
    requires i < |s|
  {
    s[..i] + s[i + 1..]
  }

  predicate Same(m: Links, m': Links, t: nat) {
    (t in m <==> t in m') && (t in m ==> m[t] == m'[t])
  }

  /** A list is not disturbed by links that change elsewhere. */
  lemma Undisturbed(chain: seq<nat>, next: Links, prev: Links, next': Links, prev': Links, head: Option<nat>)
    requires InChain(chain, next, prev, head)
    requires forall i :: 0 <= i < |chain| ==> Same(next, next', chain[i]) && Same(prev, prev', chain[i])
    ensures InChain(chain, next', prev', head)
  {
    forall i | 0 <= i < |chain| ensures Knit(chain, next', prev', i) {
      assert Knit(chain, next, prev, i);
    }
  }

  // ----- pushing

  function PushPrev(prev: Links, t: nat, first: Option<nat>): Links {
    var prev' := prev[t := None];
    if first.Some? then prev'[first.value := Some(t)] else prev'
  }

  lemma PushedChain(chain: seq<nat>, next: Links, prev: Links, head: Option<nat>, t: nat)
    requires InChain(chain, next, prev, head) && t !in chain
    requires forall i, j :: 0 <= i < j < |chain| ==> chain[i] != chain[j]
    ensures InChain([t] + chain, next[t := head], PushPrev(prev, t, head), Some(t))
  {
    var c, n, p := [t] + chain, next[t := head], PushPrev(prev, t, head);
    forall i | 0 <= i < |c| ensures Knit(c, n, p, i) {
      if i > 0 {
        assert Knit(chain, next, prev, i - 1) && c[i] == chain[i - 1];
      }
    }
  }

  lemma PushedApart(chains: seq<seq<nat>>, t: nat, k: nat)
    requires Apart(chains) && k < |chains| && !OnSome(chains, t)
    ensures Apart(chains[k := [t] + chains[k]])
  {
    var after := chains[k := [t] + chains[k]];
    forall l, i | At(after, l, i) ensures after[l][i] == t ==> l == k && i == 0 {
      if l != k || i > 0 {
        assert after[l][i] in chains[l];
      }
    }
    forall a, i, b, j | At(after, a, i) && At(after, b, j) && after[a][i] == after[b][j] ensures a == b && i == j {
      if after[a][i] != t {
        var i', j' := if a == k then i - 1 else i, if b == k then j - 1 else j;
        assert At(chains, a, i') && At(chains, b, j') && chains[a][i'] == chains[b][j'];
      }
    }
  }

  lemma PushedOther(chains: seq<seq<nat>>, next: Links, prev: Links, heads: seq<Option<nat>>, t: nat, k: nat, l: nat)
    requires |chains| == |heads| && Apart(chains) && !OnSome(chains, t) && k < |chains| && l < |chains| && l != k
    requires InChain(chains[k], next, prev, heads[k]) && InChain(chains[l], next, prev, heads[l])
    ensures InChain(chains[l], next[t := heads[k]], PushPrev(prev, t, heads[k]), heads[l])
  {
    forall i | 0 <= i < |chains[l]| ensures chains[l][i] != t && Some(chains[l][i]) != heads[k] {
      assert chains[l][i] in chains[l] && Knit(chains[l], next, prev, i);
      assert At(chains, l, i) && (chains[k] != [] ==> At(chains, k, 0));
    }
    Undisturbed(chains[l], next, prev, next[t := heads[k]], PushPrev(prev, t, heads[k]), heads[l]);
  }

  // ----- unlinking

  function UnlinkPrev(prev: Links, n: Option<nat>, p: Option<nat>): Links {
    if n.Some? then prev[n.value := p] else prev
  }

  function UnlinkNext(next: Links, n: Option<nat>, p: Option<nat>): Links {
    if p.Some? then next[p.value := n] else next
  }

  lemma UnlinkedChain(chain: seq<nat>, next: Links, prev: Links, head: Option<nat>, i: nat)
    requires InChain(chain, next, prev, head) && i < |chain|
    requires forall a, b :: 0 <= a < b < |chain| ==> chain[a] != chain[b]
    ensures var n, p := Succ(chain, i), Pred(chain, i);
            InChain(Without(chain, i), UnlinkNext(next, n, p), UnlinkPrev(prev, n, p), if p.Some? then head else n)
  {
    var n, p := Succ(chain, i), Pred(chain, i);
    var c, next', prev' := Without(chain, i), UnlinkNext(next, n, p), UnlinkPrev(prev, n, p);
    assert Knit(chain, next, prev, i);
    forall j | 0 <= j < |c| ensures Knit(c, next', prev', j) {
      var j' := if j < i then j else j + 1;
      assert Knit(chain, next, prev, j') && c[j] == chain[j'];
      assert Some(chain[j']) == n <==> j' == i + 1;
      assert Some(chain[j']) == p <==> j' == i - 1;
    }
    assert i > 0 ==> p.Some?;
  }

  lemma UnlinkedApart(chains: seq<seq<nat>>, k: nat, i: nat)
    requires Apart(chains) && k < |chains| && i < |chains[k]|
    ensures Apart(chains[k := Without(chains[k], i)])
    ensures !OnSome(chains[k := Without(chains[k], i)], chains[k][i])
  {
    var after := chains[k := Without(chains[k], i)];
    forall a, j | At(after, a, j) ensures var j' := if a == k && j >= i then j + 1 else j;
                                          At(chains, a, j') && after[a][j] == chains[a][j'] && (a != k || j' != i) {
    }
    forall a, j, b, l | At(after, a, j) && At(after, b, l) && after[a][j] == after[b][l] ensures a == b && j == l {
      var j', l' := if a == k && j >= i then j + 1 else j, if b == k && l >= i then l + 1 else l;
      assert At(chains, a, j') && At(chains, b, l') && chains[a][j'] == chains[b][l'];
    }
  }

  lemma UnlinkedOther(chains: seq<seq<nat>>, next: Links, prev: Links, heads: seq<Option<nat>>, k: nat, i: nat, l: nat)
    requires |chains| == |heads| && Apart(chains) && k < |chains| && i < |chains[k]| && l < |chains| && l != k
    requires InChain(chains[k], next, prev, heads[k]) && InChain(chains[l], next, prev, heads[l])
    ensures var n, p := Succ(chains[k], i), Pred(chains[k], i);
            InChain(chains[l], UnlinkNext(next, n, p), UnlinkPrev(prev, n, p), heads[l])
  {
    var n, p := Succ(chains[k], i), Pred(chains[k], i);
    assert Knit(chains[k], next, prev, i);
    forall j | 0 <= j < |chains[l]|
      ensures Some(chains[l][j]) != n && Some(chains[l][j]) != p && Knit(chains[l], next, prev, j)
    {
      assert At(chains, l, j);
      assert i + 1 < |chains[k]| ==> At(chains, k, i + 1);
      assert i > 0 ==> At(chains, k, i - 1);
    }
    Undisturbed(chains[l], next, prev, UnlinkNext(next, n, p), UnlinkPrev(prev, n, p), heads[l]);
  }

  lemma NeighboursListed(chains: seq<seq<nat>>, k: nat, i: int)
    requires k < |chains|
    ensures Succ(chains[k], i).Some? ==> OnSome(chains, Succ(chains[k], i).value)
    ensures Pred(chains[k], i).Some? ==> OnSome(chains, Pred(chains[k], i).value)
  {
  }

  /** Unlinking place i of list k keeps all lists in order. */
  lemma UnlinkedLists(chains: seq<seq<nat>>, next: Links, prev: Links, heads: seq<Option<nat>>, k: nat, i: nat)
    requires |chains| == |heads| && Apart(chains) && k < |chains| && i < |chains[k]|
    requires forall l :: 0 <= l < |chains| ==> InChain(chains[l], next, prev, heads[l])
    ensures var n, p := Succ(chains[k], i), Pred(chains[k], i);
            var chains' := chains[k := Without(chains[k], i)];
            var heads' := if p.Some? then heads else heads[k := n];
            && Apart(chains')
            && forall l :: 0 <= l < |chains| ==>
                 InChain(chains'[l], UnlinkNext(next, n, p), UnlinkPrev(prev, n, p), heads'[l])
  {
    var n, p := Succ(chains[k], i), Pred(chains[k], i);
    assert forall j :: 0 <= j < |chains[k]| ==> At(chains, k, j);
    UnlinkedChain(chains[k], next, prev, heads[k], i);
    UnlinkedApart(chains, k, i);
    forall l | 0 <= l < |heads| && l != k
      ensures InChain(chains[l], UnlinkNext(next, n, p), UnlinkPrev(prev, n, p), heads[l])
    {
      UnlinkedOther(chains, next, prev, heads, k, i, l);
    }
  }

  /** The links of things on no list stay. */
  lemma OthersSame(chains: seq<seq<nat>>, next: Links, prev: Links, k: nat, i: nat)
    requires k < |chains|
    ensures var n, p := Succ(chains[k], i), Pred(chains[k], i);
            forall u :: !OnSome(chains, u) ==> Same(next, UnlinkNext(next, n, p), u) && Same(prev, UnlinkPrev(prev, n, p), u)
  {
    NeighboursListed(chains, k, i);
  }

  class Lists {
    var next: Links
    var prev: Links
    var heads: seq<Option<nat>>
    ghost var chains: seq<seq<nat>>

    ghost predicate Valid()
      reads this
    {
      && |chains| == |heads| && Apart(chains)
      && forall k :: 0 <= k < |chains| ==> InChain(chains[k], next, prev, heads[k])
    }

    constructor (n: nat)
      ensures Valid() && |heads| == n && forall k :: 0 <= k < n ==> chains[k] == []
    {
      next, prev := map[], map[];
      heads := seq(n, _ => None);
      chains := seq(n, _ => []);
    }

    /** A thing that is on no list gets blank links. */
    method Blank(t: nat)
      requires Valid() && !OnSome(chains, t)
      modifies this`next, this`prev
      ensures Valid() && t in next && t in prev && next[t].None? && prev[t].None?
      ensures forall u :: u != t ==> Same(old(next), next, u) && Same(old(prev), prev, u)
    {
      forall k | 0 <= k < |chains| ensures InChain(chains[k], next[t := None], prev[t := None], heads[k]) {
        forall i | 0 <= i < |chains[k]| ensures chains[k][i] != t {
          assert chains[k][i] in chains[k];
        }
        Undisturbed(chains[k], next, prev, next[t := None], prev[t := None], heads[k]);
      }
      next, prev := next[t := None], prev[t := None];
    }

    /** Link a thing in front of list k. */
    method Push(t: nat, k: nat)
      requires Valid() && k < |heads| && !OnSome(chains, t)
      modifies this
      ensures Valid() && |heads| == |old(heads)|
      ensures chains == old(chains)[k := [t] + old(chains)[k]] && t in next && t in prev
      ensures forall u :: !OnSome(old(chains), u) && u != t ==> Same(old(next), next, u) && Same(old(prev), prev, u)
    {
      assert forall i :: 0 <= i < |chains[k]| ==> chains[k][i] in chains[k] && At(chains, k, i);
      PushedChain(chains[k], next, prev, heads[k], t);
      PushedApart(chains, t, k);
      NeighboursListed(chains, k, -1);
      forall l | 0 <= l < |heads| && l != k ensures InChain(chains[l], next[t := heads[k]], PushPrev(prev, t, heads[k]), heads[l]) {
        PushedOther(chains, next, prev, heads, t, k, l);
      }
      var first := heads[k];
      prev := prev[t := None];
      next := next[t := first];
      if first.Some? {
        prev := prev[first.value := Some(t)];
      }
      heads := heads[k := Some(t)];
      chains := chains[k := [t] + chains[k]];
    }

    /** Unlink a thing; k is the list it is on, None for a thing on no list and with blank links.
        The head of the list is needed only for a thing without predecessor. */
    method Unlink(t: nat, k: Option<nat>)
      requires Valid() && t in next && t in prev
      requires k.Some? ==> k.value < |heads| && t in chains[k.value]
      requires k.None? ==> next[t].None? && prev[t].None?
      modifies this
      ensures Valid() && |heads| == |old(heads)|
      ensures k.None? ==> chains == old(chains)
      ensures k.Some? ==> Removed(old(chains), chains, k.value, t)
      ensures forall u :: !OnSome(old(chains), u) ==> Same(old(next), next, u) && Same(old(prev), prev, u)
    {
      if k.Some? {
        UnlinkFrom(t, k.value);
      }                                // with blank links there is nothing to store
    }

    /** Taking a thing out of its list. */
    method UnlinkFrom(t: nat, k: nat)
      requires Valid() && t in next && t in prev && k < |heads| && t in chains[k]
      modifies this
      ensures Valid() && |heads| == |old(heads)| && Removed(old(chains), chains, k, t)
      ensures forall u :: !OnSome(old(chains), u) ==> Same(old(next), next, u) && Same(old(prev), prev, u)
    {
      ghost var i: nat :| i < |chains[k]| && chains[k][i] == t;
      assert Knit(chains[k], next, prev, i);
      UnlinkedLists(chains, next, prev, heads, k, i);
      OthersSame(chains, next, prev, k, i);
      StoreLinks(next[t], prev[t], k);
      chains := chains[k := Without(chains[k], i)];
    }

    /** The stores of the code. */
    method StoreLinks(n: Option<nat>, p: Option<nat>, k: nat)
      requires k < |heads|
      modifies this`next, this`prev, this`heads
      ensures next == UnlinkNext(old(next), n, p) && prev == UnlinkPrev(old(prev), n, p)
      ensures heads == if p.Some? then old(heads) else old(heads)[k := n]
    {
      if n.Some? {
        prev := prev[n.value := p];
      }
      if p.Some? {
        next := next[p.value := n];
      } else {
        heads := heads[k := n];
      }
    }
  }
}
