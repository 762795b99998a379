/** Which weapon comes up, and with how much ammo: the number keys (doom/p_user.c) and the pickups (doom/p_inter.c),
    case by case; and how the weapon of the dead and the muzzle flash go away (doom/p_pspr.c). */
module WeaponChoice {
  import opened Arith
  import opened Options
  import opened WeaponTables
  import opened Weapons
  import opened WeaponRuns
  import opened WeaponSwitch

  // ----- the number keys

  /** The weapon may be changed to. */
  predicate Available(p: Player, w: Weapon, mode: GameMode) {
    w in p.owned && w != p.ready && !(mode == Shareware && (w == Plasma || w == Bfg))
  }

  /** The key of a weapon changes to it if it is available. That of the fist prefers the chainsaw, and changes
      between the two only for a berserk player; that of the shotguns changes to the super shotgun, and back. */
  lemma KeyChanges(p: Player, slot: Weapon, strength: bool, mode: GameMode)
    requires Steady(p)
    ensures var r := ChangeWeapon(p, slot, strength, mode);
            && (slot != Fist && slot != Shotgun ==> r.pending == if Available(p, slot, mode) then Some(slot) else p.pending)
            && (slot == Fist && Chainsaw !in p.owned ==> r.pending == if p.ready == Fist then p.pending else Some(Fist))
            && (slot == Fist && Chainsaw in p.owned && p.ready != Chainsaw ==> r.pending == Some(Chainsaw))
            && (slot == Fist && Chainsaw in p.owned && p.ready == Chainsaw ==> r.pending == if strength then Some(Fist) else p.pending)
            && (slot == Shotgun && mode == Commercial && SuperShotgun in p.owned && p.ready != SuperShotgun ==>
                  r.pending == Some(SuperShotgun))
            && (slot == Shotgun && !(mode == Commercial && SuperShotgun in p.owned && p.ready != SuperShotgun) ==>
                  r.pending == if Shotgun in p.owned && p.ready != Shotgun then Some(Shotgun) else p.pending)
  {
  }

  // ----- pickups

  /** What a clip, a bunch of shells, a cell pack and a rocket hold. */
  lemma LoadIs(num: nat, double: bool)
    requires num > 0
    ensures var n := if double then 2 * num else num;
            && ClipLoad(Clip, num, double) == 10 * n && ClipLoad(Shell, num, double) == 4 * n
            && ClipLoad(Cell, num, double) == 20 * n && ClipLoad(Misl, num, double) == n
    ensures ClipLoad(Clip, 0, double) == if double then 10 else 5
    ensures ClipLoad(Shell, 0, double) == if double then 4 else 2
    ensures ClipLoad(Cell, 0, double) == if double then 20 else 10
    ensures ClipLoad(Misl, 0, double) == 0
  {
  }

  /** The first ammo of its kind brings up its weapon, for a player with the fist or, for shells and cells, the
      pistol in hand; any more does not. */
  lemma FirstAmmo(p: Player, a: Ammo, num: nat, double: bool)
    requires Steady(p)
    ensures var r := GiveAmmo(p, a, num, double).player;
            if p.ammo.Get(a) != 0 || IsFull(p, a) then r.pending == p.pending
            else if a == Clip && p.ready == Fist then r.pending == Some(if Chaingun in p.owned then Chaingun else Pistol)
            else if a == Shell && p.ready in {Fist, Pistol} && Shotgun in p.owned then r.pending == Some(Shotgun)
            else if a == Cell && p.ready in {Fist, Pistol} && Plasma in p.owned then r.pending == Some(Plasma)
            else if a == Misl && p.ready == Fist && Launcher in p.owned then r.pending == Some(Launcher)
            else r.pending == p.pending
  {
  }

  /** The clips that come with a weapon: two when it is found, one when it was dropped, and for a placed weapon that
      stays two, or five in a deathmatch, but none the second time. */
  function ClipsWith(p: Player, w: Weapon, dropped: bool, stays: bool, deathmatch: bool): nat {
    if stays then (if w in p.owned then 0 else if deathmatch then 5 else 2) else if dropped then 1 else 2
  }

  lemma WeaponBrings(p: Player, w: Weapon, dropped: bool, stays: bool, deathmatch: bool, double: bool, a: Ammo)
    requires Steady(p)
    ensures var r := GiveWeapon(p, w, dropped, stays, deathmatch, double).player;
            var n := ClipsWith(p, w, dropped, stays, deathmatch);
            r.ammo.Get(a) == if AmmoOf(w) == Some(a) && n > 0 then Min(p.ammo.Get(a) + ClipLoad(a, n, double), p.maxammo.Get(a))
                             else p.ammo.Get(a)
  {
    if stays {
      PlacedBrings(p, w, deathmatch, double, a);
    } else {
      FoundBrings(p, w, dropped, deathmatch, double, a);
    }
  }

  lemma FoundBrings(p: Player, w: Weapon, dropped: bool, deathmatch: bool, double: bool, a: Ammo)
    requires Steady(p)
    ensures GiveWeapon(p, w, dropped, false, deathmatch, double).player.ammo.Get(a) ==
            if AmmoOf(w) == Some(a) then Min(p.ammo.Get(a) + ClipLoad(a, if dropped then 1 else 2, double), p.maxammo.Get(a))
            else p.ammo.Get(a)
  {
  }

  lemma PlacedBrings(p: Player, w: Weapon, deathmatch: bool, double: bool, a: Ammo)
    requires Steady(p)
    ensures GivePlaced(p, w, deathmatch, double).ammo.Get(a) ==
            if AmmoOf(w) == Some(a) && w !in p.owned then
              Min(p.ammo.Get(a) + ClipLoad(a, if deathmatch then 5 else 2, double), p.maxammo.Get(a))
            else p.ammo.Get(a)
  {
    SteadyWithMore(p, p.(owned := p.owned + {w}));
  }

  // ----- the dead

  /** The weapon of the dead sinks by six units a tic and then stays at the bottom. */
  lemma DeadSink(p: Player, e: Env)
    requires Steady(p) && Ok(e) && p.dead && p.state == Some(Down(p.ready)) && p.tics == 1
    ensures MoveWeapon(p, e) == p.(sy := if p.sy + LOWERSPEED < WEAPONBOTTOM then p.sy + LOWERSPEED else WEAPONBOTTOM)
  {
    assert Act(p, e, Down(p.ready)) == LowerIt(p, e);
  }

  lemma DeathLowers(p: Player, e: Env)
    requires Sound(p) && Ok(e)
    ensures Die(p, e) == p.(health := 0, dead := true, state := Some(Down(p.ready)), tics := 1,
                            sy := if p.sy + LOWERSPEED < WEAPONBOTTOM then p.sy + LOWERSPEED else WEAPONBOTTOM)
  {
    var q := p.(health := 0, dead := true, state := Some(Down(p.ready)), tics := 1);
    assert Act(q, e, Down(p.ready)) == LowerIt(q, e);
  }

  // ----- the flash

  /** The tics of a flash from frame f on. */
  function FlashLeft(f: Flash): nat
    requires IsFlash(f)
    decreases if f.LightDone? then 0 else 1 + |FlashRows(f.w)| - f.k
  {
    if f.LightDone? then 0 else FlashRowOf(f).tics + FlashLeft(NextFlash(f).value)
  }

  function FlashTicks(p: Player, n: nat): (r: Player)
    requires Steady(p)
    ensures Steady(r)
    decreases n
  {
    if n == 0 then p else FlashTicks(MoveFlash(p), n - 1)
  }

  /** The flash is lit. */
  predicate Lit(p: Player) { Steady(p) && p.flash.Some? && p.flash.value.Flash? }

  function LitFor(p: Player): nat
    requires Lit(p)
  {
    p.flashtics + FlashLeft(NextFlash(p.flash.value).value)
  }

  lemma LitTic(p: Player) returns (r: Player)
    requires Lit(p)
    ensures r == MoveFlash(p) && LitFor(p) > 0
    ensures LitFor(p) > 1 ==> Lit(r) && LitFor(r) == LitFor(p) - 1
    ensures LitFor(p) == 1 ==> r.flash.None? && r.extralight == 0
  {
    var f := NextFlash(p.flash.value).value;
    FlashTics(f);
    r := MoveFlash(p);
    if p.flashtics == 1 {
      if f.LightDone? {
        var q := p.(flash := Some(f), flashtics := 0, extralight := 0);
        assert SetFlash(p, Some(f)) == SetFlash(q, None);
      } else {
        FlashesUp(p, f);
      }
    }
  }

  /** When its frames are over a flash has gone, and with it the light. */
  lemma {:induction false} FlashGoesOut(p: Player, n: nat)
    requires Lit(p) && n == LitFor(p)
    ensures FlashTicks(p, n).flash.None? && FlashTicks(p, n).extralight == 0
    decreases n
  {
    var r := LitTic(p);
    if n == 1 {
      assert FlashTicks(r, 0) == r;
    } else {
      FlashGoesOut(r, n - 1);
    }
  }

  /** Every weapon that shoots lights its flash: with the shot, or before it in a frame of its own. */
  lemma FlashesUp(p: Player, f: Flash)
    requires IsFlash(f) && f.Flash?
    ensures var r := SetFlash(p, Some(f));
            && r.flash == Some(f) && r.flashtics == FlashRowOf(f).tics
            && (f.k == 0 ==> r.extralight == 1)
  {
    FlashTics(f);
  }
}
