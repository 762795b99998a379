/** Demo recordings (doom/g_game.c): four bytes a command between a header and an end marker. */
module Demo {
  import opened Options

  const DEMOMARKER := 0x80
  const VERSION := 110
  const MAXPLAYERS := 4

  // ----- C's narrow integers

  /** x stored in an unsigned char. */
  function Byte(x: int): (b: int)
    ensures 0 <= b < 256
  {
    x % 256
  }

  /** A byte read as a signed char. */
  function Int8(b: int): int { if b < 128 then b else b - 256 }

  /** x stored in a signed char. */
  function Char(x: int): (r: int)
    ensures -128 <= r < 128 && (r - x) % 256 == 0 && (-128 <= x < 128 ==> r == x)
  {
    Int8(Byte(x))
  }

  /** x stored in a short. */
  function Int16(x: int): (r: int)
    ensures -0x8000 <= r < 0x8000 && (r - x) % 0x10000 == 0 && (-0x8000 <= x < 0x8000 ==> r == x)
  {
    (x + 0x8000) % 0x10000 - 0x8000
  }

  predicate IsBytes(s: seq<int>) { forall i :: 0 <= i < |s| ==> 0 <= s[i] < 256 }

  // ----- commands

  datatype Ticcmd = Ticcmd(forward: int, side: int, angle: int, consistancy: int, chat: int, buttons: int) {
    predicate Valid() {
      -128 <= forward < 128 && -128 <= side < 128 && -0x8000 <= angle < 0x8000 && 0 <= buttons < 256
    }
  }

  function Encode(c: Ticcmd): (s: seq<int>)
    ensures |s| == 4 && IsBytes(s)
  {
    [Byte(c.forward), Byte(c.side), AngleByte(c.angle), Byte(c.buttons)]
  }

  /** What G_ReadDemoTiccmd makes of the command in `c`. */
  function Decode(s: seq<int>, c: Ticcmd): Ticcmd
    requires |s| >= 4
  {
    c.(forward := Int8(s[0]), side := Int8(s[1]), angle := Int16(s[2] * 256), buttons := s[3])
  }

  /** A turn as a demo keeps it: the nearest multiple of 256, halves up. */
  function Rounded(angle: int): int { Int16((angle + 128) / 256 * 256) }

  /** The command that the game applies while recording. */
  function Applied(c: Ticcmd): Ticcmd { c.(angle := Rounded(c.angle)) }

  lemma ByteBack(x: int)
    requires -128 <= x < 128
    ensures Int8(Byte(x)) == x
    ensures Byte(x) == DEMOMARKER <==> x == -128
  {
  }

  /** The rounded turn is the nearest one that a byte can hold; the largest turns wrap around. */
  lemma RoundedIs(angle: int)
    requires -0x8000 <= angle < 0x8000
    ensures Rounded(angle) % 256 == 0
    ensures angle < 0x7f80 ==> angle - 128 < Rounded(angle) <= angle + 128
    ensures angle >= 0x7f80 ==> Rounded(angle) == -0x8000
  {
    var q := (angle + 128) / 256;
    assert -128 <= q <= 128;
  }

  /** The byte of a turn. */
  function AngleByte(angle: int): int { Byte((angle + 128) / 256) }

  lemma AngleBack(angle: int)
    requires -0x8000 <= angle < 0x8000
    ensures Int16(AngleByte(angle) * 256) == Rounded(angle)
  {
    var q := (angle + 128) / 256;
    assert -128 <= q <= 128;
  }

  lemma AngleTwice(angle: int)
    requires -0x8000 <= angle < 0x8000
    ensures AngleByte(Rounded(angle)) == AngleByte(angle) && Rounded(Rounded(angle)) == Rounded(angle)
  {
    var q := (angle + 128) / 256;
    assert -128 <= q <= 128;
    assert Rounded(angle) == if q == 128 then -0x8000 else q * 256;
  }

  /** Reading back gives the moves written, the turn rounded, and leaves the rest of the command alone. */
  lemma DecodeEncode(c: Ticcmd, d: Ticcmd)
    requires c.Valid()
    ensures Decode(Encode(c), d) == Applied(c).(consistancy := d.consistancy, chat := d.chat)
    ensures Applied(c).Valid()
  {
    var s := Encode(c);
    assert Int8(s[0]) == c.forward by { ByteBack(c.forward); }
    assert Int8(s[1]) == c.side by { ByteBack(c.side); }
    assert Int16(s[2] * 256) == Rounded(c.angle) by { AngleBack(c.angle); }
    assert s[3] == c.buttons;
  }

  /** The four bytes of a command: forward and sideways moves as signed bytes, the upper byte of the turn, the buttons. */
  lemma BytesMean(move: int, side: int, turn: int, buttons: int, d: Ticcmd)
    requires IsBytes([move, side, turn, buttons])
    ensures var c := Decode([move, side, turn, buttons], d);
            && c.forward == (if move < 128 then move else move - 256) && c.side == (if side < 128 then side else side - 256)
            && c.angle == (if turn < 128 then 256 * turn else 256 * turn - 0x10000) && c.buttons == buttons
            && c.consistancy == d.consistancy && c.chat == d.chat
  {
    var s := [move, side, turn, buttons];
    assert s[0] == move && s[1] == side && s[2] == turn && s[3] == buttons;
  }

  /** Recording what was replayed writes the same bytes. */
  lemma EncodeApplied(c: Ticcmd)
    requires c.Valid()
    ensures Encode(Applied(c)) == Encode(c) && Applied(Applied(c)) == Applied(c)
  {
    AngleTwice(c.angle);
  }

  // ----- streams of commands

  function Stream(cmds: seq<Ticcmd>): (s: seq<int>)
    ensures |s| == 4 * |cmds| && IsBytes(s)
  {
    if cmds == [] then [] else Stream(cmds[..|cmds| - 1]) + Encode(cmds[|cmds| - 1])
  }

  function AllApplied(cmds: seq<Ticcmd>): seq<Ticcmd> {
    seq(|cmds|, i requires 0 <= i < |cmds| => Applied(cmds[i]))
  }

  predicate AllValid(cmds: seq<Ticcmd>) { forall i :: 0 <= i < |cmds| ==> cmds[i].Valid() }

  /** The command that looks like the end of a demo. */
  predicate IsMarked(c: Ticcmd) { c.forward == -128 }

  /** The commands before the first that looks like the end. */
  function Unmarked(cmds: seq<Ticcmd>): (r: seq<Ticcmd>)
    ensures r <= cmds
    ensures forall i :: 0 <= i < |r| ==> !IsMarked(r[i])
    ensures |r| < |cmds| ==> IsMarked(cmds[|r|])
  {
    if cmds == [] || IsMarked(cmds[0]) then [] else [cmds[0]] + Unmarked(cmds[1..])
  }

  /** Command i of a stream. */
  lemma {:induction false} StreamAt(cmds: seq<Ticcmd>, i: nat)
    requires i < |cmds|
    ensures Stream(cmds)[4 * i..4 * i + 4] == Encode(cmds[i])
    decreases |cmds|
  {
    var n := |cmds| - 1;
    if i < n {
      StreamAt(cmds[..n], i);
      assert Stream(cmds)[4 * i..4 * i + 4] == Stream(cmds[..n])[4 * i..4 * i + 4];
    }
  }

  /** Two recordings with the same bytes applied the same commands, and the other way round. */
  lemma {:induction false} StreamApplied(cmds: seq<Ticcmd>)
    requires AllValid(cmds)
    ensures Stream(AllApplied(cmds)) == Stream(cmds)
    ensures AllApplied(AllApplied(cmds)) == AllApplied(cmds)
    decreases |cmds|
  {
    if cmds != [] {
      var n := |cmds| - 1;
      StreamApplied(cmds[..n]);
      assert AllApplied(cmds)[..n] == AllApplied(cmds[..n]);
      EncodeApplied(cmds[n]);
    }
    forall i | 0 <= i < |cmds|
      ensures Applied(Applied(cmds[i])) == Applied(cmds[i])
    {
      EncodeApplied(cmds[i]);
    }
  }

  // ----- the speed limit

  /** The number within the limit that is nearest to x. */
  function Clamp(x: int, max: int): (r: int)
    ensures max >= 0 ==> -max <= r <= max && (x >= -max ==> r <= x) && (x <= max ==> x <= r)
  {
    if x > max then max else if x < -max then -max else x
  }

  /** The moves of G_BuildTiccmd. */
  function BuildTiccmd(forward: int, side: int, angle: int, buttons: int, maxmove: nat): (c: Ticcmd)
    ensures c.Valid() && (c.forward - Clamp(forward, maxmove)) % 256 == 0 && (c.side - Clamp(side, maxmove)) % 256 == 0
    ensures maxmove < 128 ==> c.forward == Clamp(forward, maxmove) && c.side == Clamp(side, maxmove)
    ensures (c.angle - angle) % 0x10000 == 0 && (c.buttons - buttons) % 256 == 0 && c.chat == 0
    ensures (-0x8000 <= angle < 0x8000 ==> c.angle == angle) && (0 <= buttons < 256 ==> c.buttons == buttons)
  {
    Ticcmd(Char(Clamp(forward, maxmove)), Char(Clamp(side, maxmove)), Int16(angle), 0, 0, Byte(buttons))
  }

  /** MAXPLMOVE under a turbo scale in percent; 100 is the default. */
  function MaxMove(scale: nat): nat { 0x32 * Turbo(scale) / 100 }

  function Turbo(scale: nat): nat { if scale < 10 then 10 else if scale > 400 then 400 else scale }

  /** Some input looks like the end of a demo exactly when the limit is 128 or more, that is from a turbo scale
      of 256 on. */
  lemma MarkerReachable(scale: nat)
    ensures (exists f: int :: IsMarked(BuildTiccmd(f, 0, 0, 0, MaxMove(scale)))) <==> scale >= 256
  {
    var m := MaxMove(scale);
    assert m <= 200 && (m >= 128 <==> scale >= 256);
    if m >= 128 {
      assert IsMarked(BuildTiccmd(128, 0, 0, 0, m));
    } else {
      forall f: int
        ensures !IsMarked(BuildTiccmd(f, 0, 0, 0, m))
      {
        assert -m <= Clamp(f, m) <= m;
        ByteBack(Clamp(f, m));
      }
    }
  }

  /** At default speed no command ends a recording. */
  lemma DefaultIsUnmarked(forward: int, side: int, angle: int, buttons: int)
    ensures !IsMarked(BuildTiccmd(forward, side, angle, buttons, MaxMove(100)))
  {
    ByteBack(Clamp(forward, 50));
  }

  // ----- the header

  datatype Header = Header(skill: int, episode: int, level: int, deathmatch: int, respawn: int, fast: int,
                           nomonsters: int, console: int, ingame: seq<int>) {
    predicate Valid() { |ingame| == MAXPLAYERS }
  }

  const HEADERSIZE := 13

  function EncodeHeader(h: Header): (s: seq<int>)
    requires h.Valid()
    ensures |s| == HEADERSIZE && IsBytes(s)
  {
    [VERSION, Byte(h.skill), Byte(h.episode), Byte(h.level), Byte(h.deathmatch), Byte(h.respawn), Byte(h.fast),
     Byte(h.nomonsters), Byte(h.console), Byte(h.ingame[0]), Byte(h.ingame[1]), Byte(h.ingame[2]), Byte(h.ingame[3])]
  }

  /** The game that G_DoPlayDemo sets up, unless the demo is of another version. */
  function DecodeHeader(s: seq<int>): (h: Option<Header>)
    requires |s| >= HEADERSIZE
    ensures h.Some? ==> h.value.Valid()
  {
    if s[0] != VERSION then None
    else Some(Header(s[1], s[2], s[3], s[4], s[5], s[6], s[7], s[8], s[9..13]))
  }

  /** The bytes of the header: version, skill, episode, map, deathmatch, respawning and fast monsters, no monsters, the
      recording player, and who plays. */
  lemma HeaderMeans(s: seq<int>)
    requires |s| >= HEADERSIZE && s[0] == VERSION
    ensures var h := DecodeHeader(s);
            && h.Some? && h.value.skill == s[1] && h.value.episode == s[2] && h.value.level == s[3]
            && h.value.deathmatch == s[4] && h.value.respawn == s[5] && h.value.fast == s[6] && h.value.nomonsters == s[7]
            && h.value.console == s[8] && h.value.ingame == [s[9], s[10], s[11], s[12]]
  {
  }

  predicate InBytes(h: Header) {
    h.Valid() && IsBytes([h.skill, h.episode, h.level, h.deathmatch, h.respawn, h.fast, h.nomonsters, h.console] + h.ingame)
  }

  /** A game whose settings fit into bytes is set up as it was recorded. */
  lemma HeaderBack(h: Header, rest: seq<int>)
    requires InBytes(h)
    ensures DecodeHeader(EncodeHeader(h) + rest) == Some(h)
  {
    var s := [h.skill, h.episode, h.level, h.deathmatch, h.respawn, h.fast, h.nomonsters, h.console] + h.ingame;
    assert s[0] == h.skill && s[1] == h.episode && s[2] == h.level && s[3] == h.deathmatch && s[4] == h.respawn;
    assert s[5] == h.fast && s[6] == h.nomonsters && s[7] == h.console;
    assert s[8] == h.ingame[0] && s[9] == h.ingame[1] && s[10] == h.ingame[2] && s[11] == h.ingame[3];
    var t := EncodeHeader(h) + rest;
    assert t[9..13] == h.ingame;
  }
}
