/** Pulling the trigger (A_WeaponReady, P_FireWeapon and A_ReFire of doom/p_pspr.c): the button fires, once for every
    attack sequence, at a tic that the tables determine, and nothing else does. */
module WeaponFire {
  import opened Options
  import opened WeaponTables
  import opened Weapons
  import opened WeaponRuns
  import opened WeaponSwitch

  // ----- the button

  /** A weapon that must be let go of between two shots. */
  predicate FiresOnce(w: Weapon) { w == Launcher || w == Bfg }

  /** Waiting with the weapon up: the next tic looks at the button. */
  predicate Waiting(p: Player) {
    Alive(p) && p.health > 0 && p.state.value.Ready? && p.tics == 1 && p.pending.None? && Loaded(p, p.ready)
  }

  /** The shot of a weapon. */
  function ShotOf(w: Weapon): Shot
    requires AmmoOf(w).Some?
  {
    Shot(w, AmmoOf(w).value, Need(w))
  }

  /** What the tics of a frame bring: the shot in the fire frame. */
  function ShotsAt(w: Weapon, k: nat): seq<Shot> {
    if AmmoOf(w).Some? && k == FireFrame(w) then [ShotOf(w)] else []
  }

  lemma SetReady(p: Player, e: Env, k: nat)
    requires Sound(p) && Ok(e) && MaySet(p, Ready(p.ready, k))
    ensures Set(p, e, Ready(p.ready, k)) ==
            WeaponIsReady(p.(state := Some(Ready(p.ready, k)), tics := RowOf(Ready(p.ready, k)).tics), e)
  {
    var s := Ready(p.ready, k);
    var q := p.(state := Some(s), tics := RowOf(s).tics);
    assert Act(q, e, s) == WeaponIsReady(q, e);
  }

  /** Nothing has changed but ammo, shots and the flash. */
  predicate SameStance(p: Player, r: Player) {
    r == p.(ammo := r.ammo, shots := r.shots, flash := r.flash, flashtics := r.flashtics, extralight := r.extralight)
  }

  lemma FrameShoots(p: Player, e: Env, w: Weapon)
    requires Sound(p) && Ok(e) && AmmoOf(w).Some? && FireFrame(w) >= 0 && IsState(Attack(w, FireFrame(w)))
    requires MaySet(p, Attack(w, FireFrame(w)))
    requires p.state == Some(Attack(w, FireFrame(w))) && p.tics == AttackRows(w)[FireFrame(w)].tics
    ensures var r := AttackFrame(p, e, w, FireFrame(w)); (!e.dies ==> SameStance(p, r)) && r.shots == p.shots + [ShotOf(w)]
  {
    var k: nat := FireFrame(w);
    AttackShape(w, k);
    assert AttackFrame(p, e, w, k) == FireFrameOf(p, e, w, k);
    assert Loaded(p, w) && (w.Chaingun? ==> p.ammo.clip >= 1);
    assert FireFrameOf(p, e, w, k) == Fire(p, e, Need(w), MuzzleFlash(w, k, e));
    ShotIs(p, e, Need(w), MuzzleFlash(w, k, e));
  }

  lemma ShotIs(p: Player, e: Env, n: nat, flash: Option<Flash>)
    requires Sound(p) && Ok(e) && AmmoOf(p.ready).Some? && p.ammo.Get(AmmoOf(p.ready).value) >= n
    requires flash.Some? ==> IsFlash(flash.value)
    requires p.state.Some? && p.tics > 0 && p.state.value.Attack? && IsState(p.state.value)
    requires MaySet(p.(ammo := Take(p, n)), Next(p.state.value))
    ensures var r := Fire(p, e, n, flash);
            (!e.dies ==> SameStance(p, r)) && r.shots == p.shots + [Shot(p.ready, AmmoOf(p.ready).value, n)]
  {
  }

  lemma FrameRests(p: Player, e: Env, w: Weapon, k: nat)
    requires Sound(p) && Ok(e) && IsState(Attack(w, k)) && MaySet(p, Attack(w, k))
    requires p.state == Some(Attack(w, k)) && p.tics == AttackRows(w)[k].tics
    requires !Takes(AttackRows(w)[k].action) && !Rechecks(AttackRows(w)[k].action)
    ensures var r := AttackFrame(p, e, w, k);
            (!e.dies || !AttackRows(w)[k].action.Melee? ==> SameStance(p, r)) && r.shots == p.shots
  {
    AttackShape(w, k);
  }

  /** A frame before the shot, or that of the shot. */
  predicate Leading(w: Weapon, k: nat) {
    k < |AttackRows(w)| && (k == 0 || k <= FireFrame(w))
  }

  lemma LeadingFrame(w: Weapon, k: nat)
    requires Leading(w, k)
    ensures !Rechecks(AttackRows(w)[k].action) && AttackRows(w)[k].tics > 0
    ensures Takes(AttackRows(w)[k].action) <==> k == FireFrame(w)
    ensures k == FireFrame(w) ==> AmmoOf(w).Some?
    ensures AmmoOf(w).Some? ==> !AttackRows(w)[k].action.Melee?
  {
    AttackShape(w, k);
    match w
    case Fist =>
    case Pistol =>
    case Shotgun =>
    case Chaingun =>
    case Launcher =>
    case Plasma =>
    case Bfg =>
    case Chainsaw =>
    case SuperShotgun =>
  }

  /** Entering such a frame: the shot is fired in the fire frame, and only a blow or the shot itself can kill. */
  lemma SetAttack(p: Player, e: Env, k: nat) returns (r: Player)
    requires Sound(p) && Ok(e) && MaySet(p, Attack(p.ready, k)) && Leading(p.ready, k)
    ensures r == Set(p, e, Attack(p.ready, k)) && r.shots == p.shots + ShotsAt(p.ready, k)
    ensures !e.dies || (AmmoOf(p.ready).Some? && k < FireFrame(p.ready)) ==>
              SameStance(p.(state := Some(Attack(p.ready, k)), tics := AttackRows(p.ready)[k].tics), r)
  {
    r := Set(p, e, Attack(p.ready, k));
    var s := Attack(p.ready, k);
    LeadingFrame(p.ready, k);
    var q := p.(state := Some(s), tics := RowOf(s).tics);
    assert Act(q, e, s) == AttackFrame(q, e, p.ready, k);
    if k == FireFrame(p.ready) {
      FrameShoots(q, e, p.ready);
    } else {
      FrameRests(q, e, p.ready, k);
    }
  }

  /** The weapon fires at the button, unless it is one that fires once and the button was not let go of. Otherwise it
      stays ready, and lets go of the button when the player does. */
  lemma ButtonFires(p: Player, e: Env)
    requires Waiting(p) && Ok(e)
    ensures var r := MoveWeapon(p, e); var w := p.ready;
            if e.attack && (!p.attackdown || !FiresOnce(w)) then
              && r.shots == p.shots + ShotsAt(w, 0)
              && (!e.dies || (AmmoOf(w).Some? && FireFrame(w) > 0) ==>
                    && r.state == Some(Attack(w, 0)) && r.tics == AttackRows(w)[0].tics
                    && r.ready == w && r.pending.None? && r.attackdown && !r.dead)
            else
              && r.state.Some? && r.state.value.Ready? && r.ready == w && r.pending.None? && r.shots == p.shots
              && r.attackdown == (e.attack && p.attackdown) && r.sy == WEAPONTOP + e.bob && r.ammo == p.ammo && !r.dead
  {
    var s := Next(p.state.value);
    SetReady(p, e, s.k);
    var q := p.(state := Some(s), tics := RowOf(s).tics);
    if e.attack && (!p.attackdown || !FiresOnce(p.ready)) {
      AttackShape(p.ready, 0);
      var r := SetAttack(q.(attackdown := true), e, 0);
    }
  }

  // ----- the shot

  /** The tics of the frames k up to the fire frame. */
  function Delay(w: Weapon, k: nat): nat
    decreases FireFrame(w) - k
  {
    if k >= FireFrame(w) || k >= |AttackRows(w)| then 0 else AttackRows(w)[k].tics + Delay(w, k + 1)
  }

  /** An attack is under way, and its shot is still to come. */
  predicate Coming(p: Player) {
    Steady(p) && p.state.Some? && p.state.value.Attack? && AmmoOf(p.ready).Some? && p.state.value.k < FireFrame(p.ready)
  }

  /** The tics until the shot. */
  function Left(p: Player): nat
    requires Coming(p)
  {
    p.tics + Delay(p.ready, p.state.value.k + 1)
  }

  lemma DelayIs(w: Weapon, k: nat)
    requires k <= FireFrame(w)
    ensures Leading(w, k)
    ensures if k < FireFrame(w) then Delay(w, k) == AttackRows(w)[k].tics + Delay(w, k + 1) else Delay(w, k) == 0
  {
    FireFrameInside(w);
  }

  /** The last tic of a frame before the shot. */
  lemma NextFrame(p: Player, e: Env) returns (m: Player)
    requires Coming(p) && Ok(e) && p.tics == 1
    ensures m == MoveWeapon(p, e)
    ensures var k := p.state.value.k + 1;
            if k < FireFrame(p.ready) then
              && Coming(m) && m.ready == p.ready && m.shots == p.shots
              && m.state.value.k == k && m.tics == AttackRows(p.ready)[k].tics
            else m.shots == p.shots + [ShotOf(p.ready)]
  {
    var k := p.state.value.k + 1;
    DelayIs(p.ready, k);
    LeadingFrame(p.ready, k);
    m := SetAttack(p, e, k);
  }

  lemma FlashComing(m: Player) returns (r: Player)
    requires Coming(m)
    ensures r == MoveFlash(m) && Coming(r) && r.ready == m.ready && r.shots == m.shots && Left(r) == Left(m)
  {
    r := MoveFlash(m);
  }

  lemma ComingTic(p: Player, e: Env) returns (r: Player)
    requires Coming(p) && Ok(e)
    ensures r == MovePsprites(p, e) && Left(p) > 0
    ensures Left(p) > 1 ==> Coming(r) && r.ready == p.ready && r.shots == p.shots && Left(r) == Left(p) - 1
    ensures Left(p) == 1 ==> r.shots == p.shots + [ShotOf(p.ready)]
  {
    if p.tics > 1 {
      r := FlashComing(p.(tics := p.tics - 1));
    } else {
      r := LastOfFrame(p, e);
    }
  }

  lemma LastOfFrame(p: Player, e: Env) returns (r: Player)
    requires Coming(p) && Ok(e) && p.tics == 1
    ensures r == MovePsprites(p, e)
    ensures Left(p) > 1 ==> Coming(r) && r.ready == p.ready && r.shots == p.shots && Left(r) == Left(p) - 1
    ensures Left(p) == 1 ==> r.shots == p.shots + [ShotOf(p.ready)]
  {
    var k := p.state.value.k + 1;
    DelayIs(p.ready, k);
    LeadingFrame(p.ready, k);
    var m := NextFrame(p, e);
    if k < FireFrame(p.ready) {
      r := FlashComing(m);
    } else {
      r := MoveFlash(m);
    }
  }

  /** An attack under way fires exactly one shot, with the ammo that was checked, when the frames before the fire
      frame are over, and not before. Nothing can stop it. */
  lemma {:induction false} ShotComes(p: Player, envs: seq<Env>)
    requires Coming(p) && |envs| <= Left(p) && forall i :: 0 <= i < |envs| ==> Ok(envs[i])
    ensures Tics(p, envs).shots == p.shots + if |envs| == Left(p) then [ShotOf(p.ready)] else []
    decreases |envs|
  {
    if envs == [] {
      assert Left(p) > 0 by { var _ := ComingTic(p, Env(false, 0, false, Shareware, false)); }
    } else {
      var r := ComingTic(p, envs[0]);
      if Left(p) > 1 {
        ShotComes(r, envs[1..]);
      } else {
        assert envs[1..] == [];
      }
    }
  }

  /** The tic of the button. */
  lemma Pulled(p: Player, e: Env) returns (r: Player)
    requires Waiting(p) && AmmoOf(p.ready).Some? && Ok(e) && e.attack && (!p.attackdown || !FiresOnce(p.ready))
    ensures r == MovePsprites(p, e) && FireFrame(p.ready) >= 0
    ensures if FireFrame(p.ready) > 0 then
              Coming(r) && r.ready == p.ready && r.shots == p.shots && Left(r) == Delay(p.ready, 0)
            else Delay(p.ready, 0) == 0 && r.shots == p.shots + [ShotOf(p.ready)]
  {
    ButtonFires(p, e);
    var m := MoveWeapon(p, e);
    r := MoveFlash(m);
    assert FireFrame(p.ready) >= 0;
    DelayIs(p.ready, 0);
  }

  /** From the button to the shot: a loaded weapon with ammo fires once, that many tics after the tic of the button. */
  lemma TriggerShoots(p: Player, envs: seq<Env>)
    requires Waiting(p) && AmmoOf(p.ready).Some? && (forall i :: 0 <= i < |envs| ==> Ok(envs[i]))
    requires 0 < |envs| <= 1 + Delay(p.ready, 0) && envs[0].attack && (!p.attackdown || !FiresOnce(p.ready))
    ensures Tics(p, envs).shots == p.shots + if |envs| == 1 + Delay(p.ready, 0) then [ShotOf(p.ready)] else []
  {
    var r := Pulled(p, envs[0]);
    if FireFrame(p.ready) > 0 {
      ShotComes(r, envs[1..]);
    } else {
      assert envs[1..] == [];
    }
  }

  /** The chaingun fires again in its second frame, if there is a bullet left, and clicks if not. */
  lemma SecondShot(p: Player, e: Env) returns (r: Player)
    requires Steady(p) && Ok(e) && p.ready == Chaingun && p.state == Some(Attack(Chaingun, 0)) && p.tics == 1
    ensures r == MoveWeapon(p, e)
    ensures p.ammo.clip > 0 ==> r.shots == p.shots + [ShotOf(Chaingun)]
    ensures p.ammo.clip == 0 ==> r.shots == p.shots
  {
    var s := Attack(Chaingun, 1);
    AttackShape(Chaingun, 1);
    assert Next(Attack(Chaingun, 0)) == s && AttackRows(Chaingun)[1] == WeaponTables.Row(4, FireCGun);
    var q := p.(state := Some(s), tics := 4);
    r := SecondFrame(q, e);
    assert Act(q, e, s) == AttackFrame(q, e, Chaingun, 1) == r;
  }

  lemma SecondFrame(q: Player, e: Env) returns (r: Player)
    requires Sound(q) && Ok(e) && q.ready == Chaingun && q.state == Some(Attack(Chaingun, 1)) && q.tics == 4
    requires MaySet(q, Attack(Chaingun, 1)) && AttackRows(Chaingun)[1].tics == 4 && Takes(AttackRows(Chaingun)[1].action)
    ensures r == FireFrameOf(q, e, Chaingun, 1) && (r.state.None? || r.tics > 0)
    ensures q.ammo.clip > 0 ==> r.shots == q.shots + [ShotOf(Chaingun)]
    ensures q.ammo.clip == 0 ==> r.shots == q.shots
  {
    AttackShape(Chaingun, 1);
    r := FireFrameOf(q, e, Chaingun, 1);
    if q.ammo.clip > 0 {
      var flash := MuzzleFlash(Chaingun, 1, e);
      assert Cost(AttackRows(Chaingun)[1].action) == 1;
      assert r == Fire(q, e, 1, flash);
      ShotIs(q, e, 1, flash);
    }
  }

  /** What the shots take. */
  lemma ShotsAre()
    ensures ShotOf(Pistol) == Shot(Pistol, Clip, 1) && ShotOf(Chaingun) == Shot(Chaingun, Clip, 1)
    ensures ShotOf(Shotgun) == Shot(Shotgun, Shell, 1) && ShotOf(SuperShotgun) == Shot(SuperShotgun, Shell, 2)
    ensures ShotOf(Launcher) == Shot(Launcher, Misl, 1)
    ensures ShotOf(Plasma) == Shot(Plasma, Cell, 1) && ShotOf(Bfg) == Shot(Bfg, Cell, 40)
  {
  }

  /** And how many tics they come after the button. */
  lemma DelaysAre()
    ensures Delay(Pistol, 0) == 4 && Delay(Shotgun, 0) == 3 && Delay(SuperShotgun, 0) == 3 && Delay(Launcher, 0) == 8
    ensures Delay(Chaingun, 0) == 0 && Delay(Plasma, 0) == 0 && Delay(Bfg, 0) == 30
  {
    assert Delay(Bfg, 1) == 10;
  }

  /** A shot lights the flash of the weapon; launcher and BFG light it before the shot, in a frame of its own. */
  lemma ShotFlashes(p: Player, e: Env, n: nat, w: Weapon, k: nat) returns (f: Option<Flash>)
    requires Sound(p) && Ok(e) && !e.dies && w == p.ready && AmmoOf(w).Some? && p.ammo.Get(AmmoOf(w).value) >= n
    requires p.state.Some? && p.tics > 0 && p.state.value.Attack? && IsState(p.state.value)
    requires MaySet(p.(ammo := Take(p, n)), Next(p.state.value))
    requires k < |AttackRows(w)| && (Takes(AttackRows(w)[k].action) || AttackRows(w)[k].action.GunFlash?)
    ensures f == MuzzleFlash(w, k, e)
    ensures AttackRows(w)[k].action.FireMissile? || AttackRows(w)[k].action.FireBFG? ==> f.None?
    ensures !AttackRows(w)[k].action.FireMissile? && !AttackRows(w)[k].action.FireBFG? ==>
              && f.Some? && f.value.Flash? && f.value.w == w
              && Fire(p, e, n, f).flash == f && Fire(p, e, n, f).extralight == (if w == Chaingun && k == 1 then 2 else 1) && SetFlash(p, f).flash == f
  {
    f := MuzzleFlash(w, k, e);
    FlashRowsLit(w, k, e);
    if f.Some? {
      FlashUp(Discharge(p, n), f.value);
      FlashUp(p, f.value);
    }
  }

  lemma FlashUp(p: Player, f: Flash)
    requires IsFlash(f) && f.Flash?
    ensures SetFlash(p, Some(f)).flash == Some(f) && SetFlash(p, Some(f)).extralight == LightOf(FlashRowOf(f).light, p.extralight)
  {
    FlashTics(f);
  }

  lemma FlashRowsLit(w: Weapon, k: nat, e: Env)
    requires k < |AttackRows(w)| && (Takes(AttackRows(w)[k].action) || AttackRows(w)[k].action.GunFlash?)
    ensures var f := MuzzleFlash(w, k, e);
            if AttackRows(w)[k].action.FireMissile? || AttackRows(w)[k].action.FireBFG? then f.None?
            else f.Some? && f.value.Flash? && f.value.w == w && FlashRowOf(f.value).light == (if w == Chaingun && k == 1 then Light2 else Light1)
  {
    AttackShape(w, k);
    match w
    case Fist =>
    case Pistol =>
    case Shotgun =>
    case Chaingun =>
    case Launcher =>
    case Plasma =>
    case Bfg =>
    case Chainsaw =>
    case SuperShotgun =>
  }

  // ----- without the button

  /** From state s on, the sequence of the weapon holds no further shot. */
  predicate Spares(s: State) {
    s.Attack? ==> forall j :: s.k <= j < |AttackRows(s.w)| ==> !Takes(AttackRows(s.w)[j].action)
  }

  /** No shot is under way. */
  predicate NoneDue(p: Player) {
    p.state.Some? ==> IsState(p.state.value) && Spares(Next(p.state.value))
  }

  lemma SparesOn(s: State)
    requires IsState(s) && Spares(s)
    ensures Spares(Next(s))
  {
  }

  lemma {:induction false} IdleSet(p: Player, e: Env, s: State)
    requires Sound(p) && Idle(e) && MaySet(p, s) && Spares(s)
    ensures Set(p, e, s).shots == p.shots && NoneDue(Set(p, e, s))
    decreases Rank(p, s), 1
  {
    var q := p.(state := Some(s), tics := RowOf(s).tics);
    SparesOn(s);
    IdleAct(q, e, s);
    var r := Act(q, e, s);
    if r.state.Some? && r.tics == 0 {
      IdleSet(r, e, Next(s));
    }
  }

  lemma {:induction false} IdleAct(p: Player, e: Env, s: State)
    requires Sound(p) && Idle(e) && MaySet(p, s) && Spares(s) && p.state == Some(s) && p.tics == RowOf(s).tics
    ensures Act(p, e, s).shots == p.shots && (Rests(Act(p, e, s)) ==> NoneDue(Act(p, e, s)))
    decreases Rank(p, s), 0
  {
    SparesOn(s);
    match s
    case Up(w) =>
      if p.sy - RAISESPEED <= WEAPONTOP {
        IdleSet(p.(sy := WEAPONTOP), e, Ready(p.ready, 0));
      }
    case Down(w) => IdleLower(p, e);
    case Ready(w, k) =>
      if p.pending.Some? || p.health == 0 {
        IdleSet(p, e, Down(p.ready));
      }
    case Attack(w, k) => IdleFrame(p, e, k);
  }

  lemma {:induction false} IdleLower(p: Player, e: Env)
    requires Sound(p) && Idle(e) && p.state == Some(Down(p.ready)) && p.tics > 0 && (p.dead || p.pending.Some?)
    ensures LowerIt(p, e).shots == p.shots && NoneDue(LowerIt(p, e))
    decreases if p.dead || p.sy + LOWERSPEED < WEAPONBOTTOM then 0 else 5, 3
  {
    if p.sy + LOWERSPEED >= WEAPONBOTTOM && !p.dead {
      var b := p.(sy := p.sy + LOWERSPEED, ready := p.pending.value);
      assert LowerIt(p, e) == BringUpWeapon(b, e);
      IdleSet(b.(pending := None, sy := WEAPONBOTTOM), e, Up(b.ready));
    }
  }

  lemma {:induction false} IdleFrame(p: Player, e: Env, k: nat)
    requires Sound(p) && Idle(e) && MaySet(p, Attack(p.ready, k)) && Spares(Attack(p.ready, k))
    requires p.state == Some(Attack(p.ready, k)) && p.tics == AttackRows(p.ready)[k].tics
    ensures var r := AttackFrame(p, e, p.ready, k); r.shots == p.shots && (Rests(r) ==> NoneDue(r))
    decreases if Rechecks(AttackRows(p.ready)[k].action) then 3 else 1, 5
  {
    AttackShape(p.ready, k);
    var action := AttackRows(p.ready)[k].action;
    SparesOn(Attack(p.ready, k));
    if Rechecks(action) {
      IdleCheck(if action.CheckReload? then p else p.(refire := 0), e);
    } else if action.Melee? && e.dies {
      IdleSet(p.(health := 0, dead := true), e, Down(p.ready));
    }
  }

  lemma {:induction false} IdleCheck(p: Player, e: Env)
    requires Sound(p) && Idle(e) && p.sy <= INUSE && NoneDue(p)
    ensures CheckAmmo(p, e).player.shots == p.shots && NoneDue(CheckAmmo(p, e).player)
    decreases 1, 2
  {
    if !Loaded(p, p.ready) {
      PreferredIsLoaded(p, e.mode);
      IdleSet(p.(pending := Some(Preferred(p, e.mode))), e, Down(p.ready));
    }
  }

  /** Without the button, and once the attack under way has fired, no shot is ever fired. */
  lemma {:induction false} IdleIsSilent(p: Player, envs: seq<Env>)
    requires Steady(p) && NoneDue(p) && forall i :: 0 <= i < |envs| ==> Ok(envs[i]) && !envs[i].attack
    ensures Tics(p, envs).shots == p.shots
    decreases |envs|
  {
    if envs != [] {
      if p.state.Some? && p.tics == 1 {
        IdleSet(p, envs[0], Next(p.state.value));
      }
      IdleIsSilent(MovePsprites(p, envs[0]), envs[1..]);
    }
  }

  // ----- the held trigger

  /** The attack sequence is about to look at the button again. */
  predicate Rechecking(p: Player) {
    && Alive(p) && p.health > 0 && p.tics == 1 && p.state.value.Attack? && p.state.value.k + 1 < |AttackRows(p.ready)|
    && LooksAgain(AttackRows(p.ready)[p.state.value.k + 1].action)
  }

  predicate LooksAgain(a: Action) { a == ReFire || a == CloseShotgun2 }

  /** Every sequence does so in its last frame; the super shotgun also when it is closed. */
  lemma RechecksAre(w: Weapon, k: nat)
    requires k < |AttackRows(w)|
    ensures LooksAgain(AttackRows(w)[k].action) <==> k + 1 == |AttackRows(w)| || (w == SuperShotgun && k == 8)
  {
    match w
    case Fist =>
    case Pistol =>
    case Shotgun =>
    case Chaingun =>
    case Launcher =>
    case Plasma =>
    case Bfg =>
    case Chainsaw =>
    case SuperShotgun =>
  }

  lemma ReFires(p: Player, e: Env) returns (r: Player)
    requires Sound(p) && Ok(e) && e.attack && p.sy <= INUSE && p.pending.None? && p.health > 0 && Loaded(p, p.ready)
    ensures r == ReFireIt(p, e) && r.shots == p.shots + ShotsAt(p.ready, 0)
    ensures !e.dies || (AmmoOf(p.ready).Some? && FireFrame(p.ready) > 0) ==>
              SameStance(p.(refire := p.refire + 1, state := Some(Attack(p.ready, 0)), tics := AttackRows(p.ready)[0].tics), r)
    ensures Rests(r)
  {
    AttackShape(p.ready, 0);
    r := SetAttack(p.(refire := p.refire + 1), e, 0);
  }

  /** Entering such a frame with the button held and ammo left: the sequence begins again, and refire counts it. */
  lemma HeldFires(p: Player, e: Env) returns (r: Player)
    requires Rechecking(p) && Ok(e) && e.attack && p.pending.None? && Loaded(p, p.ready)
    ensures r == MoveWeapon(p, e) && r.shots == p.shots + ShotsAt(p.ready, 0)
    ensures !e.dies || (AmmoOf(p.ready).Some? && FireFrame(p.ready) > 0) ==>
              && r.state == Some(Attack(p.ready, 0)) && r.tics == AttackRows(p.ready)[0].tics
              && r.refire == p.refire + 1 && r.ready == p.ready
  {
    var w, k := p.ready, p.state.value.k + 1;
    AttackShape(w, k);
    AttackShape(w, 0);
    LeadingFrame(w, 0);
    var s := Attack(w, k);
    var q := p.(state := Some(s), tics := RowOf(s).tics);
    r := ReFires(q, e);
    assert Act(q, e, s) == AttackFrame(q, e, w, k) == r;
  }

  /** Otherwise it does not: refire is cleared, and the weapon goes back to ready, or down when its ammo is out. */
  lemma ReleasedStops(p: Player, e: Env) returns (r: Player)
    requires Rechecking(p) && Ok(e) && !(e.attack && p.pending.None?)
    ensures r == ReFireIt(p, e)
    ensures Loaded(p, p.ready) ==> r == p.(refire := 0)
    ensures !Loaded(p, p.ready) ==>
              && r.refire == 0 && r.shots == p.shots && r.state == Some(Down(p.ready))
              && r.pending.Some? && IsPreferred(p.(refire := 0), e.mode, r.pending.value)
  {
    if Loaded(p, p.ready) {
      r := p.(refire := 0);
    } else {
      r := EmptyLowers(p.(refire := 0), e);
    }
  }

  lemma EmptyLowers(p: Player, e: Env) returns (r: Player)
    requires Sound(p) && Ok(e) && !p.dead && p.sy <= INUSE && !Loaded(p, p.ready)
    ensures r == CheckAmmo(p, e).player && r.refire == p.refire && r.shots == p.shots && r.state == Some(Down(p.ready))
    ensures r.pending.Some? && IsPreferred(p, e.mode, r.pending.value)
  {
    PreferredIsLoaded(p, e.mode);
    PreferredIsFirst(p, e.mode, Preferred(p, e.mode));
    var q := p.(pending := Some(Preferred(p, e.mode)));
    SetDown(q, e);
    r := Set(q, e, Down(p.ready));
  }
}
