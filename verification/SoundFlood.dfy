/** The noise of a weapon spreading through the sectors (P_NoiseAlert and
    P_RecursiveSound of doom/p_enemy.c): a marking search that may enter a sector
    again at a lower cost, shown to find the cheapest way to every sector. */
module SoundFlood {
  import opened Options
  import opened Level

  // ----- what the flood should compute

  /** Height z is inside the sector. */
  predicate HasSpace(s: Sector, z: int) { s.floor <= z < s.ceiling }

  /** The line has two sides, and some height is inside both sectors. */
  ghost predicate IsOpen(m: Map, l: nat)
    requires m.Valid()
  {
    && l < |m.lines| && m.lines[l].twosided && m.lines[l].back.Some?
    && exists z :: HasSpace(m.sectors[m.lines[l].front], z) && HasSpace(m.sectors[m.lines[l].back.value], z)
  }

  /** An open line of sector s has sector t on its other side. */
  ghost predicate Joins(m: Map, l: nat, s: nat, t: nat)
    requires m.Valid()
  {
    && s < |m.sectors| && l in m.sectors[s].lines && IsOpen(m, l)
    && ((m.lines[l].front == s && m.lines[l].back == Some(t)) || (m.lines[l].front == t && m.lines[l].back == Some(s)))
  }

  /** A way of the sound: the sectors it leaves, each with the line taken. */
  datatype Exit = Exit(sector: nat, line: nat)

  ghost predicate IsPath(m: Map, src: nat, p: seq<Exit>, dst: nat)
    requires m.Valid()
    decreases |p|
  {
    if p == [] then src == dst
    else
      var e := p[|p| - 1];
      IsPath(m, src, p[..|p| - 1], e.sector) && Joins(m, e.line, e.sector, dst)
  }

  /** The sound-blocking lines on a path. */
  function Blocks(m: Map, p: seq<Exit>): nat
    decreases |p|
  {
    if p == [] then 0
    else
      var l := p[|p| - 1].line;
      Blocks(m, p[..|p| - 1]) + if l < |m.lines| && m.lines[l].soundblock then 1 else 0
  }

  // ----- lines as the code reads them

  /** How sound leaves a sector through one of its lines, if it does. */
  datatype Hop = Closed | Hop(other: nat, blocks: bool)

  predicate IsLine(m: Map, s: nat, i: int) {
    s < |m.sectors| && 0 <= i < |m.sectors[s].lines|
  }

  function HopOf(m: Map, s: nat, i: nat): (h: Hop)
    requires m.Valid() && IsLine(m, s, i)
    ensures h.Hop? ==> h.other < |m.sectors|
  {
    var line := m.lines[m.sectors[s].lines[i]];
    if !line.twosided || line.back.None? then Closed
    else if OpeningOf(m.sectors[line.front], m.sectors[line.back.value]).range <= 0 then Closed
    else Hop(if line.front == s then line.back.value else line.front, line.soundblock)
  }

  /** The code goes on just where an open line leads, and sees whether it blocks. */
  lemma HopIs(m: Map, s: nat, i: nat, t: nat)
    requires m.Valid() && IsLine(m, s, i)
    ensures HopOf(m, s, i) == Hop(t, m.lines[m.sectors[s].lines[i]].soundblock) <==> Joins(m, m.sectors[s].lines[i], s, t)
    ensures HopOf(m, s, i).Hop? ==> HopOf(m, s, i).blocks == m.lines[m.sectors[s].lines[i]].soundblock
  {
    var line := m.lines[m.sectors[s].lines[i]];
    assert m.IsLineOf(s, m.sectors[s].lines[i]);
    if line.back.Some? {
      var o := OpeningOf(m.sectors[line.front], m.sectors[line.back.value]);
      if o.range > 0 {
        assert HasSpace(m.sectors[line.front], o.bottom) && HasSpace(m.sectors[line.back.value], o.bottom);
      }
    }
  }

  ghost predicate Reaches(m: Map, src: nat, dst: nat, cost: int)
    requires m.Valid()
  {
    exists p :: IsPath(m, src, p, dst) && Blocks(m, p) == cost
  }

  lemma ReachOn(m: Map, src: nat, s: nat, cost: int, i: nat)
    requires m.Valid() && Reaches(m, src, s, cost) && IsLine(m, s, i) && HopOf(m, s, i).Hop?
    ensures Reaches(m, src, HopOf(m, s, i).other, if HopOf(m, s, i).blocks then cost + 1 else cost)
  {
    var p :| IsPath(m, src, p, s) && Blocks(m, p) == cost;
    var q := p + [Exit(s, m.sectors[s].lines[i])];
    assert q[..|q| - 1] == p;
    HopIs(m, s, i, HopOf(m, s, i).other);
    assert IsPath(m, src, q, HopOf(m, s, i).other);
  }

  // ----- marks

  /** validcount, soundtraversed and soundtarget of a sector. */
  datatype Mark = Mark(validcount: int, soundtraversed: int, soundtarget: int)

  /** The cost class of a mark in the flood numbered `valid`: 1, 2, or 3 when not reached. */
  function Class(mark: Mark, valid: int): int {
    if mark.validcount == valid then mark.soundtraversed else 3
  }

  predicate Classes(marks: seq<Mark>, valid: int) {
    forall s :: 0 <= s < |marks| ==> 1 <= Class(marks[s], valid) <= 3
  }

  /** Everything sound can reach from s over line i in class k has got its class. */
  predicate Covered(m: Map, marks: seq<Mark>, valid: int, s: nat, i: nat, k: int)
    requires m.Valid() && |marks| == |m.sectors| && IsLine(m, s, i)
  {
    var h := HopOf(m, s, i);
    h.Hop? ==>
      && (!h.blocks ==> Class(marks[h.other], valid) <= k)
      && (h.blocks && k == 1 ==> Class(marks[h.other], valid) <= 2)
  }

  predicate CoveredUpto(m: Map, marks: seq<Mark>, valid: int, s: nat, n: nat, k: int)
    requires m.Valid() && |marks| == |m.sectors| && s < |marks| && n <= |m.sectors[s].lines|
  {
    forall i :: 0 <= i < n ==> Covered(m, marks, valid, s, i, k)
  }

  predicate Done(m: Map, marks: seq<Mark>, valid: int, s: nat)
    requires m.Valid() && |marks| == |m.sectors| && s < |marks|
  {
    CoveredUpto(m, marks, valid, s, |m.sectors[s].lines|, Class(marks[s], valid))
  }

  /** A visit that is under way: the sector, and the class it was entered with. */
  datatype Visit = Visit(sector: nat, cost: int)

  /** A reached sector is finished, or under way in its current class. */
  predicate SettledAt(m: Map, marks: seq<Mark>, valid: int, stack: set<Visit>, s: nat)
    requires m.Valid() && |marks| == |m.sectors| && s < |marks|
  {
    Class(marks[s], valid) <= 2 ==> Visit(s, Class(marks[s], valid)) in stack || Done(m, marks, valid, s)
  }

  ghost predicate Settled(m: Map, marks: seq<Mark>, valid: int, stack: set<Visit>)
    requires m.Valid() && |marks| == |m.sectors|
  {
    forall s :: 0 <= s < |marks| ==> SettledAt(m, marks, valid, stack, s)
  }

  /** A reached sector is reachable at the cost of its class. */
  ghost predicate JustifiedAt(m: Map, marks: seq<Mark>, valid: int, src: nat, s: nat)
    requires m.Valid() && |marks| == |m.sectors| && s < |marks|
  {
    Class(marks[s], valid) <= 2 ==> Reaches(m, src, s, Class(marks[s], valid) - 1)
  }

  ghost predicate Justified(m: Map, marks: seq<Mark>, valid: int, src: nat)
    requires m.Valid() && |marks| == |m.sectors|
  {
    forall s :: 0 <= s < |marks| ==> JustifiedAt(m, marks, valid, src, s)
  }

  /** What is left to reach: the measure that ends the recursion on any graph. */
  function Pending(marks: seq<Mark>, valid: int): nat {
    if marks == [] then 0
    else
      var c := Class(marks[|marks| - 1], valid);
      Pending(marks[..|marks| - 1], valid) + if c < 0 then 0 else c
  }

  /** Marks only improve; an improved mark is of this flood and names its target. */
  predicate Improves(before: seq<Mark>, after: seq<Mark>, valid: int, target: int) {
    && |before| == |after|
    && forall s :: 0 <= s < |before| ==>
         || after[s] == before[s]
         || (Class(after[s], valid) < Class(before[s], valid) && after[s] == Mark(valid, Class(after[s], valid), target))
  }

  lemma {:induction false} PendingShrinks(before: seq<Mark>, after: seq<Mark>, valid: int, target: int)
    requires Improves(before, after, valid, target)
    ensures Pending(after, valid) <= Pending(before, valid)
    decreases |before|
  {
    if before != [] {
      var n := |before| - 1;
      PendingShrinks(before[..n], after[..n], valid, target);
    }
  }

  lemma {:induction false} PendingLess(before: seq<Mark>, valid: int, s: nat, mark: Mark)
    requires s < |before| && 0 <= Class(mark, valid) < Class(before[s], valid)
    ensures Pending(before[s := mark], valid) < Pending(before, valid)
    decreases |before|
  {
    var n := |before| - 1;
    if s < n {
      PendingLess(before[..n], valid, s, mark);
      assert before[s := mark][..n] == before[..n][s := mark];
    } else {
      assert before[s := mark][..n] == before[..n];
    }
  }

  lemma CoveredStays(m: Map, before: seq<Mark>, after: seq<Mark>, valid: int, target: int, s: nat, n: nat, k: int)
    requires m.Valid() && |before| == |m.sectors| && s < |before| && n <= |m.sectors[s].lines|
    requires Improves(before, after, valid, target) && CoveredUpto(m, before, valid, s, n, k)
    ensures CoveredUpto(m, after, valid, s, n, k)
  {
    forall i | 0 <= i < n ensures Covered(m, after, valid, s, i, k) {
      assert Covered(m, before, valid, s, i, k);
    }
  }

  /** One more line is covered. */
  lemma CoverOne(m: Map, before: seq<Mark>, after: seq<Mark>, valid: int, target: int, s: nat, i: nat, k: int)
    requires m.Valid() && |before| == |m.sectors| && s < |before| && IsLine(m, s, i)
    requires Improves(before, after, valid, target) && CoveredUpto(m, before, valid, s, i, k)
    requires Covered(m, after, valid, s, i, k)
    ensures CoveredUpto(m, after, valid, s, i + 1, k)
  {
    CoveredStays(m, before, after, valid, target, s, i, k);
  }

  lemma ImprovesOn(before: seq<Mark>, mid: seq<Mark>, after: seq<Mark>, valid: int, target: int)
    requires Improves(before, mid, valid, target) && Improves(mid, after, valid, target)
    ensures Improves(before, after, valid, target)
  {
  }

  lemma ClassSinks(before: seq<Mark>, after: seq<Mark>, valid: int, target: int, s: nat)
    requires Improves(before, after, valid, target) && s < |before|
    ensures Class(after[s], valid) <= Class(before[s], valid)
  {
  }

  /** Entering a sector: everything stays in order, with one more visit under way. */
  lemma Entered(m: Map, before: seq<Mark>, valid: int, target: int, s: nat, k: int, stack: set<Visit>, src: nat)
    requires m.Valid() && |before| == |m.sectors| && s < |before| && 1 <= k <= 2 && Class(before[s], valid) > k
    requires Classes(before, valid) && Settled(m, before, valid, stack) && Justified(m, before, valid, src)
    requires Reaches(m, src, s, k - 1)
    ensures var after := before[s := Mark(valid, k, target)];
            && Classes(after, valid) && Settled(m, after, valid, stack + {Visit(s, k)}) && Justified(m, after, valid, src)
            && Improves(before, after, valid, target) && Pending(after, valid) < Pending(before, valid)
  {
    var after := before[s := Mark(valid, k, target)];
    PendingLess(before, valid, s, Mark(valid, k, target));
    forall t | 0 <= t < |after|
      ensures SettledAt(m, after, valid, stack + {Visit(s, k)}, t) && JustifiedAt(m, after, valid, src, t)
    {
      assert SettledAt(m, before, valid, stack, t) && JustifiedAt(m, before, valid, src, t);
      if t != s && Done(m, before, valid, t) {
        CoveredStays(m, before, after, valid, target, t, |m.sectors[t].lines|, Class(before[t], valid));
      }
    }
  }

  /** Leaving a sector whose lines are all covered: the visit can be struck off. */
  lemma Left(m: Map, marks: seq<Mark>, valid: int, s: nat, k: int, stack: set<Visit>)
    requires m.Valid() && |marks| == |m.sectors| && s < |marks| && Settled(m, marks, valid, stack + {Visit(s, k)})
    requires CoveredUpto(m, marks, valid, s, |m.sectors[s].lines|, k)
    ensures Settled(m, marks, valid, stack)
  {
    forall t | 0 <= t < |marks| ensures SettledAt(m, marks, valid, stack, t) {
      assert SettledAt(m, marks, valid, stack + {Visit(s, k)}, t);
    }
  }

  /** Once nothing is under way, a path with at most one blocking line bounds the class of its end. */
  lemma {:induction false} PathBounds(m: Map, marks: seq<Mark>, valid: int, src: nat, p: seq<Exit>, dst: nat)
    requires m.Valid() && |marks| == |m.sectors| && src < |marks|
    requires Classes(marks, valid) && Settled(m, marks, valid, {}) && Class(marks[src], valid) == 1
    requires IsPath(m, src, p, dst) && Blocks(m, p) <= 1
    ensures dst < |marks| && Class(marks[dst], valid) <= Blocks(m, p) + 1
    decreases |p|
  {
    if p != [] {
      var e := p[|p| - 1];
      PathBounds(m, marks, valid, src, p[..|p| - 1], e.sector);
      assert SettledAt(m, marks, valid, {}, e.sector);
      var i :| 0 <= i < |m.sectors[e.sector].lines| && m.sectors[e.sector].lines[i] == e.line;
      HopIs(m, e.sector, i, dst);
      assert Covered(m, marks, valid, e.sector, i, Class(marks[e.sector], valid));
    }
  }

  /** `cost` is the least number of sound-blocking lines on any way from src to s. */
  ghost predicate Cheapest(m: Map, src: nat, s: nat, cost: int)
    requires m.Valid()
  {
    Reaches(m, src, s, cost) && forall p :: IsPath(m, src, p, s) ==> cost <= Blocks(m, p)
  }

  /** Some way from src to s crosses at most one blocking line. */
  ghost predicate Audible(m: Map, src: nat, s: nat)
    requires m.Valid()
  {
    exists p :: IsPath(m, src, p, s) && Blocks(m, p) <= 1
  }

  /** A finished flood has reached exactly the sectors within one blocking line, at least cost. */
  lemma FloodIsExact(m: Map, marks: seq<Mark>, valid: int, src: nat, s: nat)
    requires m.Valid() && |marks| == |m.sectors| && src < |marks| && s < |marks|
    requires Classes(marks, valid) && Settled(m, marks, valid, {}) && Class(marks[src], valid) == 1
    requires Justified(m, marks, valid, src)
    ensures Class(marks[s], valid) <= 2 <==> Audible(m, src, s)
    ensures Class(marks[s], valid) <= 2 ==> Cheapest(m, src, s, Class(marks[s], valid) - 1)
  {
    if Class(marks[s], valid) <= 2 {
      assert JustifiedAt(m, marks, valid, src, s);
      var p :| IsPath(m, src, p, s) && Blocks(m, p) == Class(marks[s], valid) - 1;
      forall q | IsPath(m, src, q, s) ensures Class(marks[s], valid) - 1 <= Blocks(m, q) {
        if Blocks(m, q) <= 1 {
          PathBounds(m, marks, valid, src, q, s);
        }
      }
    }
    forall p | IsPath(m, src, p, s) && Blocks(m, p) <= 1 ensures Class(marks[s], valid) <= 2 {
      PathBounds(m, marks, valid, src, p, s);
    }
  }

  // ----- the search

  class Noise {
    const level: Map
    var validcount: int
    var soundtarget: int
    var marks: seq<Mark>

    /** The flood is in order: what it has reached is justified, and finished but for the visits. */
    ghost predicate Flooding(src: nat, stack: set<Visit>)
      reads this
    {
      && level.Valid() && |marks| == |level.sectors| && Classes(marks, validcount)
      && Settled(level, marks, validcount, stack) && Justified(level, marks, validcount, src)
    }

    /** P_RecursiveSound. */
    method RecursiveSound(sec: nat, soundblocks: nat, ghost src: nat, ghost stack: set<Visit>)
      requires Flooding(src, stack) && sec < |marks| && soundblocks <= 1
      requires Reaches(level, src, sec, soundblocks)
      modifies this`marks
      ensures Flooding(src, stack)
      ensures Improves(old(marks), marks, validcount, soundtarget)
      ensures Class(marks[sec], validcount) <= soundblocks + 1
      decreases Pending(marks, validcount), 1
    {
      if marks[sec].validcount == validcount && marks[sec].soundtraversed <= soundblocks + 1 {
        return;
      }
      ghost var entry := marks;
      Entered(level, entry, validcount, soundtarget, sec, soundblocks + 1, stack, src);
      marks := marks[sec := Mark(validcount, soundblocks + 1, soundtarget)];
      ghost var marked := marks;
      SpreadSound(sec, soundblocks, src, stack);
      Left(level, marks, validcount, sec, soundblocks + 1, stack);
      ImprovesOn(entry, marked, marks, validcount, soundtarget);
      ClassSinks(marked, marks, validcount, soundtarget, sec);
    }

    /** The loop of P_RecursiveSound over the lines of the sector just marked. */
    method SpreadSound(sec: nat, soundblocks: nat, ghost src: nat, ghost stack: set<Visit>)
      requires sec < |marks| && soundblocks <= 1 && Flooding(src, stack + {Visit(sec, soundblocks + 1)})
      requires Reaches(level, src, sec, soundblocks)
      modifies this`marks
      ensures Flooding(src, stack + {Visit(sec, soundblocks + 1)})
      ensures Improves(old(marks), marks, validcount, soundtarget)
      ensures CoveredUpto(level, marks, validcount, sec, |level.sectors[sec].lines|, soundblocks + 1)
      decreases Pending(marks, validcount), 3
    {
      ghost var entry := marks;
      ghost var visits := stack + {Visit(sec, soundblocks + 1)};
      var i := 0;
      while i < |level.sectors[sec].lines|
        invariant 0 <= i <= |level.sectors[sec].lines|
        invariant Flooding(src, visits) && Improves(entry, marks, validcount, soundtarget)
        invariant CoveredUpto(level, marks, validcount, sec, i, soundblocks + 1)
      {
        PendingShrinks(entry, marks, validcount, soundtarget);
        CrossLine(sec, i, soundblocks, src, visits);
        i := i + 1;
      }
    }

    /** One line of the loop. */
    method CrossLine(sec: nat, i: nat, soundblocks: nat, ghost src: nat, ghost visits: set<Visit>)
      requires Flooding(src, visits) && soundblocks <= 1 && IsLine(level, sec, i)
      requires Reaches(level, src, sec, soundblocks) && CoveredUpto(level, marks, validcount, sec, i, soundblocks + 1)
      modifies this`marks
      ensures Flooding(src, visits) && Improves(old(marks), marks, validcount, soundtarget)
      ensures CoveredUpto(level, marks, validcount, sec, i + 1, soundblocks + 1)
      decreases Pending(marks, validcount), 2
    {
      var hop := HopOf(level, sec, i);
      if hop.Hop? && (!hop.blocks || soundblocks == 0) {
        ReachOn(level, src, sec, soundblocks, i);
        RecursiveSound(hop.other, if hop.blocks then 1 else soundblocks, src, visits);
      }
      CoverOne(level, old(marks), marks, validcount, soundtarget, sec, i, soundblocks + 1);
    }

    /** P_NoiseAlert: afterwards a sector bears the new count iff some open way from the emitter
        crosses at most one blocking line; it then names the target, and soundtraversed is one more
        than the least number of blocking lines. All other marks are as before. */
    method NoiseAlert(target: int, emitter: nat)
      requires level.Valid() && |marks| == |level.sectors| && emitter < |marks|
      requires forall s :: 0 <= s < |marks| ==> marks[s].validcount <= validcount
      modifies this`marks, this`validcount, this`soundtarget
      ensures validcount == old(validcount) + 1 && soundtarget == target && |marks| == |old(marks)|
      ensures forall s :: 0 <= s < |marks| ==>
                (marks[s].validcount == validcount <==> Audible(level, emitter, s))
      ensures forall s :: 0 <= s < |marks| && marks[s].validcount == validcount ==>
                marks[s].soundtarget == target && Cheapest(level, emitter, s, marks[s].soundtraversed - 1)
      ensures forall s :: 0 <= s < |marks| && marks[s].validcount != validcount ==> marks[s] == old(marks)[s]
    {
      soundtarget := target;
      validcount := validcount + 1;
      ghost var before := marks;
      assert IsPath(level, emitter, [], emitter) && Blocks(level, []) == 0;
      assert forall s :: 0 <= s < |marks| ==> Class(marks[s], validcount) == 3;
      RecursiveSound(emitter, 0, emitter, {});
      forall s | 0 <= s < |marks|
        ensures marks[s].validcount == validcount <==> Audible(level, emitter, s)
        ensures marks[s].validcount == validcount ==> Cheapest(level, emitter, s, marks[s].soundtraversed - 1)
      {
        assert marks[s].validcount == validcount <==> Class(marks[s], validcount) <= 2;
        FloodIsExact(level, marks, validcount, emitter, s);
      }
    }
  }
}
