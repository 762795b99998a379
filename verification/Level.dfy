/** Sectors and the lines between them, and the gap through a line
    (P_LineOpening of doom/p_maputl.c). */
module Level {
  import opened Options

  datatype Sector = Sector(floor: int, ceiling: int, lines: seq<nat>)

  /** A line; it has a back sector iff it has a second side. */
  datatype Line = Line(twosided: bool, soundblock: bool, front: nat, back: Option<nat>)

  datatype Map = Map(sectors: seq<Sector>, lines: seq<Line>) {
    predicate Valid() {
      && (forall s: nat, i: nat :: s < |sectors| && i < |sectors[s].lines| ==> IsLineOf(s, sectors[s].lines[i]))
      && (forall l :: 0 <= l < |lines| ==>
            lines[l].front < |sectors| && (lines[l].back.Some? ==> lines[l].back.value < |sectors|))
    }

    /** The line has the sector on one of its sides, as P_GroupLines sees to it for the lines of a sector. */
    predicate IsLineOf(s: nat, l: nat) { l < |lines| && (lines[l].front == s || lines[l].back == Some(s)) }
  }

  /** opentop, openbottom, openrange and lowfloor. */
  datatype Opening = Opening(top: int, bottom: int, range: int, low: int)

  /** P_LineOpening for a line with two sides. */
  function OpeningOf(front: Sector, back: Sector): Opening {
    var top := if front.ceiling < back.ceiling then front.ceiling else back.ceiling;
    if front.floor > back.floor then Opening(top, front.floor, top - front.floor, back.floor)
    else Opening(top, back.floor, top - back.floor, front.floor)
  }

  /** The window is what lies inside both sectors, whichever is the front one, and the
      dropoff is the lower of the two floors. */
  lemma OpeningIsCommonSpace(front: Sector, back: Sector, z: int)
    ensures var o := OpeningOf(front, back);
            && (o.bottom <= z <= o.top <==>
                front.floor <= z <= front.ceiling && back.floor <= z <= back.ceiling)
            && o.range == o.top - o.bottom
            && o.low <= front.floor && o.low <= back.floor && (o.low == front.floor || o.low == back.floor)
            && o == OpeningOf(back, front)
  {
  }
}
