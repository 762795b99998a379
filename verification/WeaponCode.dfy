/** doom/p_pspr.c as it is written: a player's fields changed in place by methods that call
    each other through P_SetPsprite. Every method is proved against its function in Weapons
    and WeaponRuns. */
module WeaponCode {
  import opened Arith
  import opened Options
  import opened WeaponTables
  import opened Weapons
  import opened WeaponRuns

  ghost function Entered(p: Player, e: Env, s: State): Player
    requires Sound(p) && Ok(e) && MaySet(p, s)
  {
    Act(p.(state := Some(s), tics := RowOf(s).tics), e, s)
  }

  /** Setting s is what is left of a setting that ends in `goal`. */
  ghost predicate Pending(p: Player, e: Env, s: State, goal: Player, top: nat) {
    Sound(p) && Ok(e) && MaySet(p, s) && Set(p, e, s) == goal && Rank(p, s) <= top
  }

  lemma SetStep(p: Player, e: Env, s: State, q: Player, goal: Player, top: nat)
    requires Pending(p, e, s, goal, top) && q == Entered(p, e, s)
    ensures if q.state.Some? && q.tics == 0 then
              q.state == Some(s) && Pending(q, e, Next(s), goal, top) && Rank(q, Next(s)) < Rank(p, s)
            else q == goal
  {
  }

  class PlayerSprites {
    var ready: Weapon
    var pending: Option<Weapon>
    var ammo: Counts
    var maxammo: Counts
    var owned: set<Weapon>
    var health: nat
    var dead: bool
    var attackdown: bool
    var refire: nat
    var state: Option<State>
    var tics: nat
    var sy: int
    var flash: Option<Flash>
    var flashtics: nat
    var extralight: nat
    ghost var shots: seq<Shot>

    ghost function View(): Player
      reads this
    {
      Player(ready, pending, ammo, maxammo, owned, health, dead, attackdown, refire,
             state, tics, sy, flash, flashtics, extralight, shots)
    }

    constructor ()
      ensures Sound(View())
    {
      ready, pending := Pistol, Some(Pistol);
      ammo, maxammo, owned := Counts(50, 0, 0, 0), MAXAMMO, {Fist, Pistol};
      health, dead, attackdown, refire := 100, false, true, 0;
      state, tics, sy := None, 0, 0;
      flash, flashtics, extralight := None, 0, 0;
      shots := [];
    }

    /** P_SetPsprite for ps_flash. */
    method SetFlashSprite(f: Option<Flash>)
      requires f.Some? ==> IsFlash(f.value)
      modifies this`flash, this`flashtics, this`extralight
      ensures View() == SetFlash(old(View()), f)
    {
      var next, again := f, true;
      while again
        invariant next.Some? ==> IsFlash(next.value)
        invariant SetFlash(old(View()), f) == if again then SetFlash(View(), next) else View()
        decreases again, if next.None? then 0 else if next.value.LightDone? then 1 else 2
      {
        if next.None? {
          flash, again := None, false;
        } else {
          FlashTics(next.value);
          var row := FlashRowOf(next.value);
          flash, flashtics := next, row.tics;
          extralight := LightOf(row.light, extralight);
          again, next := flashtics == 0, NextFlash(next.value);
        }
      }
    }

    /** P_SetPsprite for ps_weapon: a loop over states without duration, whose actions may call it again. */
    method SetPsprite(e: Env, s: State)
      requires Sound(View()) && Ok(e) && MaySet(View(), s)
      modifies this
      ensures View() == Set(old(View()), e, s)
      decreases Rank(View(), s), 1
    {
      ghost var goal, top := Set(View(), e, s), Rank(View(), s);
      var stnum, again := s, true;
      while again
        invariant again ==> Pending(View(), e, stnum, goal, top)
        invariant !again ==> View() == goal
        decreases if again then Rank(View(), stnum) + 1 else 0
      {
        ghost var p := View();
        EnterState(e, stnum);
        SetStep(p, e, stnum, View(), goal, top);
        again := state.Some? && tics == 0;
        if again {
          stnum := Next(state.value);
        }
      }
    }

    /** One round of the loop: the state, its duration, and its action. */
    method EnterState(e: Env, s: State)
      requires Sound(View()) && Ok(e) && MaySet(View(), s)
      modifies this
      ensures View() == Entered(old(View()), e, s)
      decreases Rank(View(), s), 1, 0
    {
      state, tics := Some(s), RowOf(s).tics;
      RunAction(e, s);
    }

    /** The call of the state's action. */
    method RunAction(e: Env, s: State)
      requires Sound(View()) && Ok(e) && MaySet(View(), s) && state == Some(s) && tics == RowOf(s).tics
      modifies this
      ensures View() == Act(old(View()), e, s)
      decreases Rank(View(), s), 0
    {
      match s
      case Up(w) => RaiseWeapon(e);
      case Down(w) => LowerWeapon(e);
      case Ready(w, k) => WeaponReady(e);
      case Attack(w, k) => RunAttackFrame(e, w, k);
    }

    /** A_Raise. */
    method RaiseWeapon(e: Env)
      requires Sound(View()) && Ok(e) && state == Some(Up(ready)) && tics > 0 && sy <= WEAPONBOTTOM
      modifies this
      ensures View() == RaiseIt(old(View()), e)
      decreases 4, 2
    {
      sy := sy - RAISESPEED;
      if sy > WEAPONTOP {
        return;
      }
      sy := WEAPONTOP;
      SetPsprite(e, Ready(ready, 0));
    }

    /** A_Lower. */
    method LowerWeapon(e: Env)
      requires Sound(View()) && Ok(e) && state == Some(Down(ready)) && tics > 0 && (dead || pending.Some?)
      modifies this
      ensures View() == LowerIt(old(View()), e)
      decreases if dead || sy + LOWERSPEED < WEAPONBOTTOM then 0 else 5, 3
    {
      sy := sy + LOWERSPEED;
      if sy < WEAPONBOTTOM {
        return;
      }
      if dead {
        sy := WEAPONBOTTOM;
        return;
      }
      ready := pending.value;
      BringUp(e);
    }

    /** P_BringUpWeapon. */
    method BringUp(e: Env)
      requires Sound(View()) && Ok(e) && (pending.Some? ==> pending.value == ready)
      modifies this
      ensures View() == BringUpWeapon(old(View()), e)
      decreases 5, 2
    {
      if pending.None? {
        pending := Some(ready);
      }
      var newstate := Up(pending.value);
      pending := None;
      sy := WEAPONBOTTOM;
      SetPsprite(e, newstate);
    }

    /** A_WeaponReady. */
    method WeaponReady(e: Env)
      requires Sound(View()) && Ok(e) && state.Some? && state.value.Ready? && state.value.w == ready
      requires IsState(state.value) && tics > 0 && sy <= INUSE
      modifies this
      ensures View() == WeaponIsReady(old(View()), e)
      decreases 2, 4
    {
      if pending.Some? || health == 0 {
        SetPsprite(e, Down(ready));
        return;
      }
      if e.attack {
        if !attackdown || !(ready.Launcher? || ready.Bfg?) {
          attackdown := true;
          FireIt(e);
          return;
        }
      } else {
        attackdown := false;
      }
      sy := WEAPONTOP + e.bob;
    }

    /** P_CheckAmmo. */
    method CheckAmmunition(e: Env) returns (ok: bool)
      requires Sound(View()) && Ok(e) && sy <= INUSE
      modifies this
      ensures Checked(ok, View()) == CheckAmmo(old(View()), e)
      decreases 1, 2
    {
      var enough := HasAmmo();
      if enough {
        return true;
      }
      PreferredIsLoaded(View(), e.mode);
      var choice := PickWeapon(e.mode);
      PreferredIsFirst(View(), e.mode, choice);
      pending := Some(choice);
      SetPsprite(e, Down(ready));
      return false;
    }

    /** Some weapons need no ammo, and the need of the others varies. */
    method HasAmmo() returns (enough: bool)
      ensures enough == Loaded(View(), ready)
    {
      var kind := AmmoOf(ready);
      var count := if ready.Bfg? then BFGCELLS else if ready.SuperShotgun? then 2 else 1;
      return kind.None? || ammo.Get(kind.value) >= count;
    }

    /** The weapon to change to when the ammo is out. */
    method PickWeapon(mode: GameMode) returns (choice: Weapon)
      requires Sound(View())
      ensures IsPreferred(View(), mode, choice)
    {
      PreferredIsFirst(View(), mode, Preferred(View(), mode));
      if Plasma in owned && ammo.cell != 0 && !mode.Shareware? {
        choice := Plasma;
      } else if SuperShotgun in owned && ammo.shell > 2 && mode.Commercial? {
        choice := SuperShotgun;
      } else if Chaingun in owned && ammo.clip != 0 {
        choice := Chaingun;
      } else if Shotgun in owned && ammo.shell != 0 {
        choice := Shotgun;
      } else if ammo.clip != 0 {
        choice := Pistol;
      } else if Chainsaw in owned {
        choice := Chainsaw;
      } else if Launcher in owned && ammo.misl != 0 {
        choice := Launcher;
      } else if Bfg in owned && ammo.cell > 40 && !mode.Shareware? {
        choice := Bfg;
      } else {
        choice := Fist;
      }
    }

    /** P_FireWeapon. */
    method FireIt(e: Env)
      requires Sound(View()) && Ok(e) && sy <= INUSE
      modifies this
      ensures View() == FireWeapon(old(View()), e)
      decreases 2, 3
    {
      var ok := CheckAmmunition(e);
      if ok {
        AttackShape(ready, 0);
        SetPsprite(e, Attack(ready, 0));
      }
    }

    /** A_ReFire. */
    method ReFireWeapon(e: Env)
      requires Sound(View()) && Ok(e) && sy <= INUSE
      modifies this
      ensures View() == ReFireIt(old(View()), e)
      decreases 3, 0
    {
      if e.attack && pending.None? && health != 0 {
        refire := refire + 1;
        FireIt(e);
      } else {
        refire := 0;
        var _ := CheckAmmunition(e);
      }
    }

    /** The player is killed: P_DropWeapon. */
    method Killed(e: Env)
      requires Sound(View()) && Ok(e)
      modifies this
      ensures View() == Die(old(View()), e)
      decreases 1, 2
    {
      health, dead := 0, true;
      SetPsprite(e, Down(ready));
    }

    /** The ammo of a shot. */
    method Spend(n: nat)
      requires Sound(View()) && AmmoOf(ready).Some? && ammo.Get(AmmoOf(ready).value) >= n
      modifies this`ammo, this`shots
      ensures View() == Discharge(old(View()), n)
    {
      var kind := AmmoOf(ready).value;
      shots := shots + [Shot(ready, kind, n)];
      ammo := ammo.Put(kind, ammo.Get(kind) - n);
    }

    /** The A_Fire actions. */
    method FireShot(e: Env, n: nat, muzzle: Option<Flash>)
      requires Sound(View()) && Ok(e) && AmmoOf(ready).Some? && ammo.Get(AmmoOf(ready).value) >= n
      requires muzzle.Some? ==> IsFlash(muzzle.value)
      requires state.Some? && tics > 0 && state.value.Attack? && IsState(state.value)
      requires MaySet(View().(ammo := Take(View(), n)), Next(state.value))
      modifies this
      ensures View() == Fire(old(View()), e, n, muzzle)
      decreases 1, 3
    {
      Spend(n);
      if muzzle.Some? {
        SetFlashSprite(muzzle);
      }
      assert View() == if muzzle.Some? then SetFlash(Discharge(old(View()), n), muzzle) else Discharge(old(View()), n);
      if e.dies {
        Killed(e);
      }
    }

    /** The action of an attack frame. */
    method RunAttackFrame(e: Env, w: Weapon, k: nat)
      requires Sound(View()) && Ok(e) && IsState(Attack(w, k)) && MaySet(View(), Attack(w, k))
      requires state == Some(Attack(w, k)) && tics == AttackRows(w)[k].tics
      modifies this
      ensures View() == AttackFrame(old(View()), e, w, k)
      decreases if Rechecks(AttackRows(w)[k].action) then 3 else 1, 5
    {
      AttackShape(w, k);
      var action := AttackRows(w)[k].action;
      if Takes(action) {
        if w.Chaingun? && ammo.clip == 0 {
          return;
        }
        FireShot(e, Cost(action), MuzzleFlash(w, k, e));
      } else if action.CheckReload? {
        var _ := CheckAmmunition(e);
      } else if Rechecks(action) {
        ReFireWeapon(e);
      } else if action.GunFlash? {
        SetFlashSprite(MuzzleFlash(w, k, e));
      } else if action.Melee? && e.dies {
        Killed(e);
      }
    }

    /** P_MovePsprites. */
    method MoveSprites(e: Env)
      requires Steady(View()) && Ok(e)
      modifies this
      ensures View() == MovePsprites(old(View()), e)
    {
      if state.Some? {
        if tics > 1 {
          tics := tics - 1;
        } else {
          SetPsprite(e, Next(state.value));
        }
      }
      if flash.Some? {
        if flashtics > 1 {
          flashtics := flashtics - 1;
        } else {
          SetFlashSprite(NextFlash(flash.value));
        }
      }
    }

    /** P_GiveAmmo. */
    method PickUpAmmo(a: Ammo, num: nat, double: bool) returns (taken: bool)
      requires Steady(View())
      modifies this`ammo, this`pending
      ensures Given(taken, View()) == GiveAmmo(old(View()), a, num, double)
    {
      if ammo.Get(a) == maxammo.Get(a) {
        return false;
      }
      var oldammo := ammo.Get(a);
      AddAmmo(a, num, double);
      if oldammo != 0 {
        return true;
      }
      SelectFor(a);
      return true;
    }

    /** The clips are added, up to the limit. */
    method AddAmmo(a: Ammo, num: nat, double: bool)
      modifies this`ammo
      ensures ammo == old(ammo).Put(a, Min(old(ammo).Get(a) + ClipLoad(a, num, double), maxammo.Get(a)))
    {
      var load: nat := if num != 0 then num * ClipAmmo(a) else ClipAmmo(a) / 2;
      if double {
        load := 2 * load;
      }
      ammo := ammo.Put(a, ammo.Get(a) + load);
      if ammo.Get(a) > maxammo.Get(a) {
        ammo := ammo.Put(a, maxammo.Get(a));
      }
    }

    /** The weapon that ammo brings up when there was none of it. */
    method SelectFor(a: Ammo)
      modifies this`pending
      ensures pending == if Inspired(View(), a).None? then old(pending) else Inspired(View(), a)
    {
      match a
      case Clip =>
        if ready.Fist? {
          pending := Some(if Chaingun in owned then Chaingun else Pistol);
        }
      case Shell =>
        if (ready.Fist? || ready.Pistol?) && Shotgun in owned {
          pending := Some(Shotgun);
        }
      case Cell =>
        if (ready.Fist? || ready.Pistol?) && Plasma in owned {
          pending := Some(Plasma);
        }
      case Misl =>
        if ready.Fist? && Launcher in owned {
          pending := Some(Launcher);
        }
    }
  }
}
