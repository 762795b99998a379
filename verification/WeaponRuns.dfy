/** Everything that happens to the weapon over a game: tics, buttons, pickups, cheats, death
    and rebirth (doom/p_pspr.c, doom/p_inter.c, doom/p_user.c, doom/g_game.c). */
module WeaponRuns {
  import opened Arith
  import opened Options
  import opened WeaponTables
  import opened Weapons

  // ----- a tic

  /** P_MovePsprites, the weapon. */
  function MoveWeapon(p: Player, e: Env): (r: Player)
    requires Steady(p) && Ok(e)
    ensures Steady(r) && Balanced(p, r)
  {
    if p.state.None? then p
    else if p.tics > 1 then p.(tics := p.tics - 1)
    else Set(p, e, Next(p.state.value))
  }

  /** P_MovePsprites, the flash. */
  function MoveFlash(p: Player): (r: Player)
    requires Steady(p)
    ensures Steady(r) && Balanced(p, r)
    ensures r == p.(flash := r.flash, flashtics := r.flashtics, extralight := r.extralight)
  {
    if p.flash.None? then p
    else if p.flashtics > 1 then p.(flashtics := p.flashtics - 1)
    else SetFlash(p, NextFlash(p.flash.value))
  }

  function MovePsprites(p: Player, e: Env): (r: Player)
    requires Steady(p) && Ok(e)
    ensures Steady(r) && Balanced(p, r)
  {
    MoveFlash(MoveWeapon(p, e))
  }

  // ----- pickups

  function ClipAmmo(a: Ammo): nat {
    match a
    case Clip => 10
    case Shell => 4
    case Cell => 20
    case Misl => 1
  }

  /** The weapon that new ammo for an empty one brings up, if any. */
  function Inspired(p: Player, a: Ammo): Option<Weapon> {
    match a
    case Clip => if p.ready.Fist? then Some(if Chaingun in p.owned then Chaingun else Pistol) else None
    case Shell => if (p.ready.Fist? || p.ready.Pistol?) && Shotgun in p.owned then Some(Shotgun) else None
    case Cell => if (p.ready.Fist? || p.ready.Pistol?) && Plasma in p.owned then Some(Plasma) else None
    case Misl => if p.ready.Fist? && Launcher in p.owned then Some(Launcher) else None
  }

  /** What num clips hold; 0 is half a clip. */
  function ClipLoad(a: Ammo, num: nat, double: bool): nat {
    var load := if num != 0 then num * ClipAmmo(a) else ClipAmmo(a) / 2;
    if double then 2 * load else load
  }

  datatype Given = Given(taken: bool, player: Player)

  /** More ammo, higher limits, more weapons or another one to change to never disturb the machine. */
  lemma SteadyWithMore(p: Player, q: Player)
    requires Steady(p) && q == p.(ammo := q.ammo, maxammo := q.maxammo, owned := q.owned, pending := q.pending)
    requires forall a: Ammo :: p.ammo.Get(a) <= q.ammo.Get(a) <= q.maxammo.Get(a)
    requires p.owned <= q.owned && (q.pending != p.pending ==> q.pending.Some? && q.pending.value in q.owned)
    ensures Steady(q)
  {
  }

  predicate IsFull(p: Player, a: Ammo) { p.ammo.Get(a) == p.maxammo.Get(a) }

  /** P_GiveAmmo: num clip loads, or half a clip for 0; twice as much in the easiest and hardest games. */
  function GiveAmmo(p: Player, a: Ammo, num: nat, double: bool): (g: Given)
    requires Steady(p)
    ensures Steady(g.player)
    ensures g.taken == !IsFull(p, a)
    ensures g.player.ammo.Get(a) == Min(p.ammo.Get(a) + ClipLoad(a, num, double), p.maxammo.Get(a))
    ensures forall b: Ammo :: b != a ==> g.player.ammo.Get(b) == p.ammo.Get(b)
    ensures p.ammo.Get(a) <= g.player.ammo.Get(a)
    ensures g.player == p.(ammo := g.player.ammo, pending := g.player.pending)
    ensures p.pending.Some? ==> g.player.pending.Some?
  {
    if p.ammo.Get(a) == p.maxammo.Get(a) then Given(false, p)
    else
      var more := p.ammo.Get(a) + ClipLoad(a, num, double);
      var calm := p.ammo.Get(a) != 0 || Inspired(p, a).None?;
      var q := p.(ammo := p.ammo.Put(a, Min(more, p.maxammo.Get(a))), pending := if calm then p.pending else Inspired(p, a));
      SteadyWithMore(p, q);
      Given(true, q)
  }

  /** P_GiveWeapon for a placed weapon of a net game, which remains for the others. */
  function GivePlaced(p: Player, w: Weapon, deathmatch: bool, double: bool): (r: Player)
    requires Steady(p)
    ensures Steady(r) && w in r.owned && r.owned == p.owned + {w} && r.shots == p.shots && r.maxammo == p.maxammo
    ensures forall a: Ammo :: p.ammo.Get(a) <= r.ammo.Get(a)
    ensures w !in p.owned ==> r.pending == Some(w)
  {
    if w in p.owned then p
    else
      var q := p.(owned := p.owned + {w});
      SteadyWithMore(p, q);
      var r := if AmmoOf(w).None? then q else GiveAmmo(q, AmmoOf(w).value, if deathmatch then 5 else 2, double).player;
      r.(pending := Some(w))
  }

  /** P_GiveWeapon. `stays`: a placed weapon of a net game. */
  function GiveWeapon(p: Player, w: Weapon, dropped: bool, stays: bool, deathmatch: bool, double: bool): (g: Given)
    requires Steady(p)
    ensures Steady(g.player) && w in g.player.owned && g.player.owned == p.owned + {w}
    ensures g.player.shots == p.shots && g.player.maxammo == p.maxammo
    ensures forall a: Ammo :: p.ammo.Get(a) <= g.player.ammo.Get(a)
    ensures w !in p.owned ==> g.player.pending == Some(w)
    ensures g.taken <==> !stays && (w !in p.owned || (AmmoOf(w).Some? && !IsFull(p, AmmoOf(w).value)))
  {
    if stays then Given(false, GivePlaced(p, w, deathmatch, double))
    else
      var g := if AmmoOf(w).None? then Given(false, p)
               else GiveAmmo(p, AmmoOf(w).value, if dropped then 1 else 2, double);
      if w in p.owned then g
      else Given(true, g.player.(owned := g.player.owned + {w}, pending := Some(w)))
  }

  /** Twice the limits. */
  function Doubled(p: Player): (r: Player)
    requires Steady(p)
    ensures Steady(r)
  {
    var m := p.maxammo;
    var q := p.(maxammo := Counts(2 * m.clip, 2 * m.shell, 2 * m.cell, 2 * m.misl));
    SteadyWithMore(p, q);
    q
  }

  /** A clip of everything. */
  function GiveClips(p: Player, double: bool): (r: Player)
    requires Steady(p)
    ensures Steady(r) && r == p.(ammo := r.ammo, pending := r.pending)
  {
    var q1 := GiveAmmo(p, Clip, 1, double).player;
    var q2 := GiveAmmo(q1, Shell, 1, double).player;
    var q3 := GiveAmmo(q2, Cell, 1, double).player;
    GiveAmmo(q3, Misl, 1, double).player
  }

  lemma ClipsGiven(p: Player, double: bool, a: Ammo)
    requires Steady(p)
    ensures GiveClips(p, double).ammo.Get(a) == Min(p.ammo.Get(a) + ClipLoad(a, 1, double), p.maxammo.Get(a))
  {
    var q1 := GiveAmmo(p, Clip, 1, double).player;
    var q2 := GiveAmmo(q1, Shell, 1, double).player;
    var q3 := GiveAmmo(q2, Cell, 1, double).player;
    assert q1.ammo.Get(a) == if a == Clip then Min(p.ammo.Get(a) + ClipLoad(a, 1, double), p.maxammo.Get(a)) else p.ammo.Get(a);
    assert q2.ammo.Get(a) == if a == Shell then Min(q1.ammo.Get(a) + ClipLoad(a, 1, double), p.maxammo.Get(a)) else q1.ammo.Get(a);
    assert q3.ammo.Get(a) == if a == Cell then Min(q2.ammo.Get(a) + ClipLoad(a, 1, double), p.maxammo.Get(a)) else q2.ammo.Get(a);
  }

  /** The backpack: twice the limits once, and a clip of everything. */
  function GiveBackpack(p: Player, first: bool, double: bool): (r: Player)
    requires Steady(p)
    ensures Steady(r) && r == p.(ammo := r.ammo, maxammo := r.maxammo, pending := r.pending)
  {
    GiveClips(if first then Doubled(p) else p, double)
  }

  /** The limits are doubled once, and every ammo gets a clip up to its limit. */
  lemma BackpackGives(p: Player, first: bool, double: bool, a: Ammo)
    requires Steady(p)
    ensures var r := GiveBackpack(p, first, double);
            && r.maxammo.Get(a) == (if first then 2 * p.maxammo.Get(a) else p.maxammo.Get(a))
            && r.ammo.Get(a) == Min(p.ammo.Get(a) + ClipLoad(a, 1, double), r.maxammo.Get(a))
            && p.ammo.Get(a) <= r.ammo.Get(a)
  {
    ClipsGiven(if first then Doubled(p) else p, double, a);
  }

  // ----- the other events

  /** The weapon change of P_PlayerThink; `slot` is the number pressed. */
  function ChangeWeapon(p: Player, slot: Weapon, strength: bool, mode: GameMode): (r: Player)
    requires Steady(p)
    ensures Steady(r) && r == p.(pending := r.pending)
    ensures r.pending != p.pending ==> r.pending.Some? && r.pending.value in p.owned && r.pending.value != p.ready
  {
    var w1 := if slot.Fist? && Chainsaw in p.owned && !(p.ready.Chainsaw? && strength) then Chainsaw else slot;
    var w2 := if mode.Commercial? && w1.Shotgun? && SuperShotgun in p.owned && !p.ready.SuperShotgun? then SuperShotgun else w1;
    if w2 in p.owned && w2 != p.ready && (!(w2.Plasma? || w2.Bfg?) || !mode.Shareware?) then p.(pending := Some(w2)) else p
  }

  /** Setting an up state that is not at the top yet raises the weapon a bit. */
  lemma SetUp(p: Player, e: Env)
    requires Sound(p) && Ok(e) && WEAPONTOP + RAISESPEED < p.sy <= WEAPONBOTTOM
    ensures Set(p, e, Up(p.ready)) == p.(state := Some(Up(p.ready)), tics := 1, sy := p.sy - RAISESPEED)
  {
    var q := p.(state := Some(Up(p.ready)), tics := 1);
    assert Act(q, e, Up(p.ready)) == RaiseIt(q, e);
  }

  /** P_SetupPsprites. */
  function SetupPsprites(p: Player, e: Env): (r: Player)
    requires Sound(p) && Ok(e)
    ensures Steady(r) && Balanced(p, r) && r.shots == p.shots
  {
    SetUp(p.(state := None, flash := None, pending := None, sy := WEAPONBOTTOM), e);
    BringUpWeapon(p.(state := None, flash := None, pending := Some(p.ready)), e)
  }

  const MAXAMMO := Counts(200, 50, 300, 50)

  /** G_PlayerReborn. */
  function Reborn(p: Player): (r: Player)
    ensures Sound(r) && r.shots == p.shots && !r.dead && r.health == MAXHEALTH
    ensures r.ready == Pistol && r.owned == {Fist, Pistol} && r.maxammo == MAXAMMO
    ensures forall a: Ammo :: r.ammo.Get(a) == if a == Clip then 50 else 0
  {
    Player(Pistol, Some(Pistol), Counts(50, 0, 0, 0), MAXAMMO, {Fist, Pistol}, MAXHEALTH, false, true, 0,
           None, 0, 0, None, 0, 0, p.shots)
  }

  datatype Event =
    | Tic(e: Env)
    | Change(slot: Weapon, strength: bool, mode: GameMode)
    | PickAmmo(a: Ammo, num: nat, double: bool)
    | PickWeapon(w: Weapon, dropped: bool, stays: bool, deathmatch: bool, double: bool)
    | PickBackpack(first: bool, double: bool)
    | PickBerserk
    | Arsenal                        // the cheat for all weapons and full ammo
    | Choppers                       // the cheat for the chainsaw
    | Killed(e: Env)
    | Healed(health: nat)
    | NewLevel(e: Env)
    | Rebirth(e: Env)

  predicate Possible(v: Event) {
    match v
    case Tic(e) => Ok(e)
    case Killed(e) => Ok(e)
    case NewLevel(e) => Ok(e)
    case Rebirth(e) => Ok(e)
    case Healed(health) => health > 0
    case _ => true
  }

  const ALLWEAPONS := {Fist, Pistol, Shotgun, Chaingun, Launcher, Plasma, Bfg, Chainsaw, SuperShotgun}

  lemma EveryWeapon()
    ensures forall w: Weapon :: w in ALLWEAPONS
  {
    forall w: Weapon ensures w in ALLWEAPONS {
      match w
      case Fist =>
      case Pistol =>
      case Shotgun =>
      case Chaingun =>
      case Launcher =>
      case Plasma =>
      case Bfg =>
      case Chainsaw =>
      case SuperShotgun =>
    }
  }

  /** The cheat for weapons and ammo. */
  function FullArsenal(p: Player): (r: Player)
    requires Steady(p)
    ensures Steady(r) && (forall a: Ammo :: IsFull(r, a)) && (forall w: Weapon :: w in r.owned)
    ensures r == p.(owned := r.owned, ammo := r.ammo)
  {
    EveryWeapon();
    var q := p.(owned := p.owned + ALLWEAPONS, ammo := p.maxammo);
    SteadyWithMore(p, q);
    q
  }

  /** The cheat for the chainsaw, which stays holstered. */
  function ChainsawCheat(p: Player): (r: Player)
    requires Steady(p)
    ensures Steady(r) && Chainsaw in r.owned && r == p.(owned := p.owned + {Chainsaw})
  {
    var q := p.(owned := p.owned + {Chainsaw});
    SteadyWithMore(p, q);
    q
  }

  const MAXHEALTH := 100

  /** The berserk pack: health up to the maximum, and the fist comes up, whatever else is owned. */
  function Berserk(p: Player): (r: Player)
    requires Steady(p)
    ensures Steady(r) && r == p.(health := r.health, pending := r.pending)
    ensures r.health >= p.health && r.health >= MAXHEALTH && (r.health == p.health || r.health == MAXHEALTH)
    ensures if p.ready.Fist? then r.pending == p.pending else r.pending == Some(Fist)
  {
    var q := if p.ready.Fist? then p else p.(pending := Some(Fist));
    SteadyWithMore(p, q);
    if q.health >= MAXHEALTH then q else q.(health := MAXHEALTH)
  }

  function Happen(p: Player, v: Event): (r: Player)
    requires Steady(p) && Possible(v)
    ensures Steady(r)
  {
    match v
    case Tic(e) => MovePsprites(p, e)
    case Change(slot, strength, mode) => ChangeWeapon(p, slot, strength, mode)
    case PickAmmo(a, num, double) => GiveAmmo(p, a, num, double).player
    case PickWeapon(w, dropped, stays, deathmatch, double) => GiveWeapon(p, w, dropped, stays, deathmatch, double).player
    case PickBackpack(first, double) => GiveBackpack(p, first, double)
    case PickBerserk => Berserk(p)
    case Arsenal => FullArsenal(p)
    case Choppers => ChainsawCheat(p)
    case Killed(e) => Die(p, e)
    case Healed(health) => p.(health := health)
    case NewLevel(e) => SetupPsprites(p, e)
    case Rebirth(e) => SetupPsprites(Reborn(p), e)
  }

  function Play(p: Player, events: seq<Event>): (r: Player)
    requires Steady(p) && forall i :: 0 <= i < |events| ==> Possible(events[i])
    ensures Steady(r)
    decreases |events|
  {
    if events == [] then p else Play(Happen(p, events[0]), events[1..])
  }

  // ----- what holds over every run

  /** What a steady player promises. */
  lemma SteadyMeans(r: Player, a: Ammo)
    requires Steady(r)
    ensures 0 <= r.ammo.Get(a) <= r.maxammo.Get(a)
    ensures r.ready in r.owned
    ensures r.state.Some? ==> r.state.value.w == r.ready
    ensures r.state.Some? && r.state.value.Attack? && r.state.value.k < FireFrame(r.ready) ==> Loaded(r, r.ready)
  {
    if r.state.Some? && r.state.value.Attack? {
      AttackShape(r.state.value.w, r.state.value.k);
      FireFrameInside(r.state.value.w);
    }
  }

  lemma FireFrameInside(w: Weapon)
    ensures FireFrame(w) < |AttackRows(w)|
  {
    match w
    case Fist =>
    case Pistol =>
    case Shotgun =>
    case Chaingun =>
    case Launcher =>
    case Plasma =>
    case Bfg =>
    case Chainsaw =>
    case SuperShotgun =>
  }

  /** After any events since the birth of the player: ammo within its limits, the weapon in hand owned
      and the one that the psprite shows, and the ammo that an attack under way is going to take is
      still there. */
  lemma AllRuns(q: Player, e: Env, events: seq<Event>, a: Ammo)
    requires Ok(e) && forall i :: 0 <= i < |events| ==> Possible(events[i])
    ensures var r := Play(SetupPsprites(Reborn(q), e), events);
            && 0 <= r.ammo.Get(a) <= r.maxammo.Get(a)
            && r.ready in r.owned
            && (r.state.Some? ==> r.state.value.w == r.ready)
            && (r.state.Some? && r.state.value.Attack? && r.state.value.k < FireFrame(r.ready) ==> Loaded(r, r.ready))
  {
    SteadyMeans(Play(SetupPsprites(Reborn(q), e), events), a);
  }

  /** Ammo on hand and ammo shot away. */
  function Ledger(p: Player, a: Ammo): int { p.ammo.Get(a) + Spent(p.shots, a) }

  /** The events that bring no ammo. */
  predicate BringsNone(v: Event) {
    v.Tic? || v.Change? || v.Killed? || v.Healed? || v.PickBerserk? || v.Choppers? || v.NewLevel?
  }

  lemma NoneBrought(p: Player, v: Event, a: Ammo)
    requires Steady(p) && Possible(v) && BringsNone(v)
    ensures Ledger(p, a) == Ledger(Happen(p, v), a)
    ensures p.shots <= Happen(p, v).shots && |Happen(p, v).shots| <= |p.shots| + 1
  {
  }

  lemma SomeBrought(p: Player, v: Event, a: Ammo)
    requires Steady(p) && Possible(v) && !BringsNone(v) && !v.Rebirth?
    ensures Ledger(p, a) <= Ledger(Happen(p, v), a) && p.shots == Happen(p, v).shots
  {
    match v
    case PickBackpack(first, double) => BackpackGives(p, first, double, a);
    case _ =>
  }

  lemma HappenLedger(p: Player, v: Event, a: Ammo)
    requires Steady(p) && Possible(v) && !v.Rebirth?
    ensures Ledger(p, a) <= Ledger(Happen(p, v), a)
    ensures BringsNone(v) ==> Ledger(p, a) == Ledger(Happen(p, v), a)
    ensures p.shots <= Happen(p, v).shots && |Happen(p, v).shots| <= |p.shots| + 1
  {
    if BringsNone(v) {
      NoneBrought(p, v, a);
    } else {
      SomeBrought(p, v, a);
    }
  }

  /** Conservation over a life: what is shot away was there or was picked up; only pickups add. */
  lemma {:induction false} LifeLedger(p: Player, events: seq<Event>, a: Ammo)
    requires Steady(p) && forall i :: 0 <= i < |events| ==> Possible(events[i]) && !events[i].Rebirth?
    ensures Ledger(p, a) <= Ledger(Play(p, events), a)
    ensures (forall i :: 0 <= i < |events| ==> BringsNone(events[i])) ==> Ledger(p, a) == Ledger(Play(p, events), a)
    ensures p.shots <= Play(p, events).shots && |Play(p, events).shots| <= |p.shots| + |events|
    decreases |events|
  {
    if events != [] {
      HappenLedger(p, events[0], a);
      LifeLedger(Happen(p, events[0]), events[1..], a);
    }
  }
}
