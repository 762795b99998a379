/** The weapon in the player's hands (doom/p_pspr.c): P_SetPsprite runs the action of the
    state it enters, and the actions set states again. That this ends, and that ammo checked
    long before it is taken is still there, is part of the contracts. */
module Weapons {
  import opened Fixed
  import opened Options
  import opened WeaponTables

  const LOWERSPEED := 6 * FRACUNIT
  const RAISESPEED := 6 * FRACUNIT
  const WEAPONBOTTOM := 128 * FRACUNIT
  const WEAPONTOP := 32 * FRACUNIT
  const MAXBOB := 0x100000

  /** A weapon in use never hangs lower than the top plus the bob. */
  const INUSE := WEAPONTOP + MAXBOB

  datatype Counts = Counts(clip: int, shell: int, cell: int, misl: int) {
    function Get(a: Ammo): int {
      match a
      case Clip => clip
      case Shell => shell
      case Cell => cell
      case Misl => misl
    }

    function Put(a: Ammo, n: int): (r: Counts)
      ensures forall b: Ammo :: r.Get(b) == if b == a then n else Get(b)
    {
      match a
      case Clip => this.(clip := n)
      case Shell => this.(shell := n)
      case Cell => this.(cell := n)
      case Misl => this.(misl := n)
    }
  }

  /** A shot fired: what it took from which ammo. */
  datatype Shot = Shot(w: Weapon, ammo: Ammo, n: nat)

  datatype Player = Player(
    ready: Weapon, pending: Option<Weapon>,
    ammo: Counts, maxammo: Counts, owned: set<Weapon>,
    health: nat, dead: bool,
    attackdown: bool, refire: nat,
    state: Option<State>, tics: nat, sy: int,            // psprites[ps_weapon]
    flash: Option<Flash>, flashtics: nat,                // psprites[ps_flash]
    extralight: nat,
    shots: seq<Shot>)                                    // history of shots

  datatype GameMode = Shareware | Registered | Commercial

  /** What a tic meets: the attack button, the bob of the weapon, a random bit, the game mode, and
      whether the player's own shot kills them. */
  datatype Env = Env(attack: bool, bob: nat, coin: bool, mode: GameMode, dies: bool)

  predicate Ok(e: Env) { e.bob <= MAXBOB }

  // ----- invariants

  /** Ammo within bounds, only owned weapons in hand or coming, the living in health. */
  predicate Sound(p: Player) {
    && (forall a: Ammo :: 0 <= p.ammo.Get(a) <= p.maxammo.Get(a))
    && Fist in p.owned && Pistol in p.owned && p.ready in p.owned
    && (p.pending.Some? ==> p.pending.value in p.owned)
    && (p.dead || p.health > 0)
    && (p.flash.Some? ==> IsFlash(p.flash.value) && p.flashtics > 0)
  }

  predicate Loaded(p: Player, w: Weapon) {
    AmmoOf(w).None? || p.ammo.Get(AmmoOf(w).value) >= Need(w)
  }

  /** State s may be set now: it is one of the weapon in hand, at a height that fits, with the ammo that
      its fire frame will take; a living player lowers a weapon only for another. */
  predicate MaySet(p: Player, s: State) {
    && IsState(s) && s.w == p.ready
    && match s
       case Up(w) => p.sy <= WEAPONBOTTOM
       case Down(w) => p.dead || p.pending.Some?
       case Ready(w, k) => p.sy <= INUSE
       case Attack(w, k) => p.sy <= INUSE && (k <= FireFrame(w) ==> Loaded(p, w))
  }

  /** As between two tics: the state is one of the weapon in hand and lasts for some tics. */
  predicate Steady(p: Player) {
    && Sound(p)
    && (p.state.Some? ==> p.tics > 0 && IsState(p.state.value) && MaySet(p, Next(p.state.value)))
  }

  /** How many nested settings may still come: the measure that ends the recursion. */
  function Rank(p: Player, s: State): nat
    requires IsState(s)
  {
    match s
    case Down(w) => if p.dead || p.sy + LOWERSPEED < WEAPONBOTTOM then 1 else 6
    case Up(w) => 5
    case Ready(w, k) => 3
    case Attack(w, k) => if Rechecks(AttackRows(w)[k].action) then 4 else 2
  }

  /** What was taken from an ammo by the shots. */
  function Spent(shots: seq<Shot>, a: Ammo): nat
    decreases |shots|
  {
    if shots == [] then 0
    else
      var s := shots[|shots| - 1];
      Spent(shots[..|shots| - 1], a) + if s.ammo == a then s.n else 0
  }

  /** Nothing but shots changes ammo, and at most one is fired; ownership and limits stay. */
  predicate Balanced(p: Player, r: Player) {
    && r.owned == p.owned && r.maxammo == p.maxammo
    && p.shots <= r.shots && |r.shots| <= |p.shots| + 1
    && forall a: Ammo :: r.ammo.Get(a) + Spent(r.shots, a) == p.ammo.Get(a) + Spent(p.shots, a)
  }

  // ----- the flash

  function LightOf(light: Light, extralight: nat): nat {
    match light
    case NoLight => extralight
    case Light0 => 0
    case Light1 => 1
    case Light2 => 2
  }

  /** P_SetPsprite for ps_flash; None is S_NULL. */
  function SetFlash(p: Player, f: Option<Flash>): (r: Player)
    requires f.Some? ==> IsFlash(f.value)
    ensures r == p.(flash := r.flash, flashtics := r.flashtics, extralight := r.extralight)
    ensures r.flash.Some? ==> IsFlash(r.flash.value) && r.flashtics > 0
    decreases if f.None? then 0 else if f.value.LightDone? then 1 else 2
  {
    if f.None? then p.(flash := None)
    else
      FlashTics(f.value);
      var row := FlashRowOf(f.value);
      var q := p.(flash := f, flashtics := row.tics, extralight := LightOf(row.light, p.extralight));
      if row.tics == 0 then SetFlash(q, NextFlash(f.value)) else q
  }

  // ----- choosing a weapon

  /** The preferences of P_CheckAmmo. */
  function Preferred(p: Player, mode: GameMode): Weapon {
    if Plasma in p.owned && p.ammo.cell != 0 && !mode.Shareware? then Plasma
    else if SuperShotgun in p.owned && p.ammo.shell > 2 && mode.Commercial? then SuperShotgun
    else if Chaingun in p.owned && p.ammo.clip != 0 then Chaingun
    else if Shotgun in p.owned && p.ammo.shell != 0 then Shotgun
    else if p.ammo.clip != 0 then Pistol
    else if Chainsaw in p.owned then Chainsaw
    else if Launcher in p.owned && p.ammo.misl != 0 then Launcher
    else if Bfg in p.owned && p.ammo.cell > 40 && !mode.Shareware? then Bfg
    else Fist
  }

  /** The weapons from the most to the least wanted. */
  const ORDER := [Plasma, SuperShotgun, Chaingun, Shotgun, Pistol, Chainsaw, Launcher, Bfg, Fist]

  /** The ammo that must be there beyond what is left for better weapons. */
  function Reserve(w: Weapon): nat { if w.SuperShotgun? then 2 else if w.Bfg? then 40 else 0 }

  predicate InGame(w: Weapon, mode: GameMode) {
    (w.Plasma? || w.Bfg? ==> !mode.Shareware?) && (w.SuperShotgun? ==> mode.Commercial?)
  }

  /** A weapon that may be changed to when the ammo is out. */
  predicate Usable(p: Player, mode: GameMode, w: Weapon) {
    w in p.owned && InGame(w, mode) && (AmmoOf(w).Some? ==> p.ammo.Get(AmmoOf(w).value) > Reserve(w))
  }

  /** The place of a weapon in the order. */
  function Place(w: Weapon): (k: nat)
    ensures k < |ORDER| && ORDER[k] == w
  {
    match w
    case Plasma => 0
    case SuperShotgun => 1
    case Chaingun => 2
    case Shotgun => 3
    case Pistol => 4
    case Chainsaw => 5
    case Launcher => 6
    case Bfg => 7
    case Fist => 8
  }

  /** The first usable weapon in that order. */
  predicate IsPreferred(p: Player, mode: GameMode, w: Weapon) {
    Usable(p, mode, w) && forall j :: 0 <= j < Place(w) ==> !Usable(p, mode, ORDER[j])
  }

  lemma PreferredUsable(p: Player, mode: GameMode)
    requires Sound(p)
    ensures Usable(p, mode, Preferred(p, mode))
  {
  }

  lemma BetterUnusable(p: Player, mode: GameMode, w: Weapon)
    requires Sound(p) && Place(w) < Place(Preferred(p, mode))
    ensures !Usable(p, mode, w)
  {
  }

  lemma UsableIsLoaded(p: Player, mode: GameMode, w: Weapon)
    requires Usable(p, mode, w)
    ensures w in p.owned && Loaded(p, w)
  {
  }

  /** There is one, and only one; it is owned and can be fired at once. */
  lemma PreferredIsFirst(p: Player, mode: GameMode, w: Weapon)
    requires Sound(p)
    ensures IsPreferred(p, mode, w) <==> w == Preferred(p, mode)
    ensures IsPreferred(p, mode, w) ==> w in p.owned && Loaded(p, w)
  {
    var f := Preferred(p, mode);
    PreferredUsable(p, mode);
    forall j | 0 <= j < Place(f) ensures !Usable(p, mode, ORDER[j]) {
      Placed(j);
      BetterUnusable(p, mode, ORDER[j]);
    }
    if IsPreferred(p, mode, w) {
      assert ORDER[Place(f)] == f && ORDER[Place(w)] == w;
      assert Place(w) == Place(f);
      UsableIsLoaded(p, mode, w);
    }
  }

  lemma Placed(j: nat)
    requires j < |ORDER|
    ensures Place(ORDER[j]) == j
  {
  }

  /** The weapon chosen is owned and can be fired at once. */
  lemma PreferredIsLoaded(p: Player, mode: GameMode)
    requires Sound(p)
    ensures Preferred(p, mode) in p.owned && Loaded(p, Preferred(p, mode))
  {
  }

  // ----- the machine

  /** P_SetPsprite for ps_weapon. */
  function Set(p: Player, e: Env, s: State): (r: Player)
    requires Sound(p) && Ok(e) && MaySet(p, s)
    ensures Steady(r) && Balanced(p, r)
    ensures p.dead && s.Down? ==> r.dead && r.shots == p.shots
    decreases Rank(p, s), 1
  {
    var q := Act(p.(state := Some(s), tics := RowOf(s).tics), e, s);
    if q.state.Some? && q.tics == 0 then Set(q, e, Next(s)) else q
  }

  /** The setting has come to rest. */
  predicate Rests(r: Player) { (r.state.None? || r.tics > 0) && Steady(r) }

  /** The state s has run its action without setting another, and has no duration: its successor follows. */
  predicate Falls(p: Player, r: Player, s: State) {
    && IsState(s) && r.state == Some(s) && r.tics == 0 && r.shots == p.shots
    && Sound(r) && MaySet(r, Next(s)) && Rank(r, Next(s)) < Rank(p, s)
  }

  /** The action of the state just entered. */
  function Act(p: Player, e: Env, s: State): (r: Player)
    requires Sound(p) && Ok(e) && MaySet(p, s) && p.state == Some(s) && p.tics == RowOf(s).tics
    ensures Balanced(p, r) && (Rests(r) || Falls(p, r, s))
    ensures p.dead && s.Down? ==> r.dead && r.shots == p.shots
    decreases Rank(p, s), 0
  {
    match s
    case Up(w) => RaiseIt(p, e)
    case Down(w) => LowerIt(p, e)
    case Ready(w, k) => WeaponIsReady(p, e)
    case Attack(w, k) => AttackFrame(p, e, w, k)
  }

  /** A_Raise. */
  function RaiseIt(p: Player, e: Env): (r: Player)
    requires Sound(p) && Ok(e) && p.state == Some(Up(p.ready)) && p.tics > 0 && p.sy <= WEAPONBOTTOM
    ensures Steady(r) && Balanced(p, r)
    decreases 4, 2
  {
    var q := p.(sy := p.sy - RAISESPEED);
    if q.sy > WEAPONTOP then q else Set(q.(sy := WEAPONTOP), e, Ready(p.ready, 0))
  }

  /** A_Lower. */
  function LowerIt(p: Player, e: Env): (r: Player)
    requires Sound(p) && Ok(e) && p.state == Some(Down(p.ready)) && p.tics > 0 && (p.dead || p.pending.Some?)
    ensures Steady(r) && Balanced(p, r)
    ensures p.dead ==> r.dead && r.shots == p.shots
    decreases if p.dead || p.sy + LOWERSPEED < WEAPONBOTTOM then 0 else 5, 3
  {
    var q := p.(sy := p.sy + LOWERSPEED);
    if q.sy < WEAPONBOTTOM then q
    else if p.dead then q.(sy := WEAPONBOTTOM)
    else BringUpWeapon(q.(ready := p.pending.value), e)
  }

  /** P_BringUpWeapon. */
  function BringUpWeapon(p: Player, e: Env): (r: Player)
    requires Sound(p) && Ok(e) && (p.pending.Some? ==> p.pending.value == p.ready)
    ensures Steady(r) && Balanced(p, r)
    decreases 5, 2
  {
    var next := if p.pending.None? then p.ready else p.pending.value;
    Set(p.(pending := None, sy := WEAPONBOTTOM), e, Up(next))
  }

  /** A_WeaponReady. */
  function WeaponIsReady(p: Player, e: Env): (r: Player)
    requires Sound(p) && Ok(e) && p.state.Some? && p.state.value.Ready? && p.state.value.w == p.ready
    requires IsState(p.state.value) && p.tics > 0 && p.sy <= INUSE
    ensures Steady(r) && Balanced(p, r)
    decreases 2, 4
  {
    if p.pending.Some? || p.health == 0 then Set(p, e, Down(p.ready))
    else if e.attack && (!p.attackdown || !(p.ready.Launcher? || p.ready.Bfg?)) then
      FireWeapon(p.(attackdown := true), e)
    else
      p.(attackdown := e.attack && p.attackdown, sy := WEAPONTOP + e.bob)
  }

  datatype Checked = Checked(ok: bool, player: Player)

  /** P_CheckAmmo. */
  function CheckAmmo(p: Player, e: Env): (c: Checked)
    requires Sound(p) && Ok(e) && p.sy <= INUSE
    ensures c.ok == Loaded(p, p.ready)
    ensures c.ok ==> c.player == p
    ensures !c.ok ==> Steady(c.player) && Balanced(p, c.player)
    decreases 1, 2
  {
    if Loaded(p, p.ready) then Checked(true, p)
    else
      PreferredIsLoaded(p, e.mode);
      Checked(false, Set(p.(pending := Some(Preferred(p, e.mode))), e, Down(p.ready)))
  }

  /** P_FireWeapon. */
  function FireWeapon(p: Player, e: Env): (r: Player)
    requires Sound(p) && Ok(e) && p.sy <= INUSE
    ensures Steady(r) && Balanced(p, r)
    decreases 2, 3
  {
    var c := CheckAmmo(p, e);
    AttackShape(p.ready, 0);
    if c.ok then Set(p, e, Attack(p.ready, 0)) else c.player
  }

  /** A_ReFire. */
  function ReFireIt(p: Player, e: Env): (r: Player)
    requires Sound(p) && Ok(e) && p.sy <= INUSE
    ensures Balanced(p, r)
    ensures r == p.(refire := 0) || Steady(r)
    decreases 3, 0
  {
    if e.attack && p.pending.None? && p.health != 0 then FireWeapon(p.(refire := p.refire + 1), e)
    else CheckAmmo(p.(refire := 0), e).player
  }

  /** P_KillMobj of the player, and P_DropWeapon. */
  function Die(p: Player, e: Env): (r: Player)
    requires Sound(p) && Ok(e)
    ensures Steady(r) && Balanced(p, r) && r.dead && r.shots == p.shots
    decreases 1, 2
  {
    Set(p.(health := 0, dead := true), e, Down(p.ready))
  }

  /** Taking n of the ammo of the weapon in hand for a shot. */
  function Discharge(p: Player, n: nat): (r: Player)
    requires Sound(p) && AmmoOf(p.ready).Some? && p.ammo.Get(AmmoOf(p.ready).value) >= n
    ensures Sound(r) && Balanced(p, r)
  {
    var r := p.(ammo := Take(p, n), shots := p.shots + [Shot(p.ready, AmmoOf(p.ready).value, n)]);
    assert r.shots[..|p.shots|] == p.shots;
    r
  }

  /** The A_Fire actions: take n of the ammo, flash, and perhaps die of it. */
  function Fire(p: Player, e: Env, n: nat, flash: Option<Flash>): (r: Player)
    requires Sound(p) && Ok(e) && AmmoOf(p.ready).Some? && p.ammo.Get(AmmoOf(p.ready).value) >= n
    requires flash.Some? ==> IsFlash(flash.value)
    requires p.state.Some? && p.tics > 0 && p.state.value.Attack? && IsState(p.state.value)
    requires MaySet(p.(ammo := Take(p, n)), Next(p.state.value))
    ensures Steady(r) && Balanced(p, r)
    decreases 1, 3
  {
    var q := Discharge(p, n);
    var f := if flash.Some? then SetFlash(q, flash) else q;
    if e.dies then Die(f, e) else f
  }

  /** The ammo when n of that of the weapon in hand is gone. */
  function Take(p: Player, n: nat): Counts
    requires AmmoOf(p.ready).Some?
  {
    p.ammo.Put(AmmoOf(p.ready).value, p.ammo.Get(AmmoOf(p.ready).value) - n)
  }

  /** The flash that goes with an action. */
  function MuzzleFlash(w: Weapon, k: nat, e: Env): (f: Option<Flash>)
    requires k < |AttackRows(w)|
    ensures f.Some? ==> IsFlash(f.value)
  {
    var action := AttackRows(w)[k].action;
    if action.FireCGun? then
      AttackShape(w, k);
      Some(Flash(w, k))
    else if action.FirePlasma? then
      AttackShape(w, k);
      Some(Flash(w, if e.coin then 1 else 0))
    else if action.FireMissile? || action.FireBFG? || FlashRows(w) == [] then None
    else Some(Flash(w, 0))
  }

  /** The actions that take ammo; the chaingun clicks when it has run out. */
  function FireFrameOf(p: Player, e: Env, w: Weapon, k: nat): (r: Player)
    requires Sound(p) && Ok(e) && IsState(Attack(w, k)) && MaySet(p, Attack(w, k)) && Takes(AttackRows(w)[k].action)
    requires p.state == Some(Attack(w, k)) && p.tics == AttackRows(w)[k].tics
    ensures Steady(r) && Balanced(p, r)
    decreases 1, 4
  {
    AttackShape(w, k);
    if w.Chaingun? && p.ammo.clip == 0 then p
    else Fire(p, e, Cost(AttackRows(w)[k].action), MuzzleFlash(w, k, e))
  }

  /** The actions that look at the ammo and the buttons again. */
  function RecheckFrame(p: Player, e: Env, action: Action): (r: Player)
    requires Sound(p) && Ok(e) && p.sy <= INUSE
    ensures Balanced(p, r) && (Steady(r) || r == p.(refire := r.refire))
    decreases 3, 1
  {
    if action.CheckReload? then CheckAmmo(p, e).player else ReFireIt(p, e)
  }

  /** The actions that neither take nor look at ammo. */
  function PlainFrame(p: Player, e: Env, w: Weapon, k: nat): (r: Player)
    requires Steady(p) && Ok(e) && k < |AttackRows(w)|
    ensures Steady(r) && Balanced(p, r)
    decreases 1, 4
  {
    var action := AttackRows(w)[k].action;
    if action.GunFlash? then SetFlash(p, MuzzleFlash(w, k, e))
    else if action.Melee? && e.dies then Die(p, e)
    else p
  }

  /** The action of an attack frame. */
  function AttackFrame(p: Player, e: Env, w: Weapon, k: nat): (r: Player)
    requires Sound(p) && Ok(e) && IsState(Attack(w, k)) && MaySet(p, Attack(w, k))
    requires p.state == Some(Attack(w, k)) && p.tics == AttackRows(w)[k].tics
    ensures Balanced(p, r) && (Rests(r) || Falls(p, r, Attack(w, k)))
    decreases if Rechecks(AttackRows(w)[k].action) then 3 else 1, 5
  {
    AttackShape(w, k);
    var action := AttackRows(w)[k].action;
    if Takes(action) then FireFrameOf(p, e, w, k)
    else if Rechecks(action) then RecheckFrame(p, e, action)
    else PlainFrame(p, e, w, k)
  }
}
