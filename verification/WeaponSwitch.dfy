/** Changing weapons comes to an end: a living player who holds fire has the chosen weapon
    up and ready after a number of tics that the height of the old one determines. */
module WeaponSwitch {
  import opened Options
  import opened WeaponTables
  import opened Weapons
  import opened WeaponRuns

  /** Moves of six units that a distance takes. */
  function Moves(d: int): nat {
    if d <= 0 then 0 else (d + LOWERSPEED - 1) / LOWERSPEED
  }

  /** The tics until the weapon is up: lowering the old one, then raising the new one in sixteen. */
  function Due(p: Player): nat {
    match p.state
    case None => 0
    case Some(s) =>
      match s
      case Up(w) => Moves(p.sy - WEAPONTOP) + p.tics
      case _ => 16 + Moves(WEAPONBOTTOM - p.sy) + p.tics
  }

  predicate Idle(e: Env) { Ok(e) && !e.attack }

  predicate Alive(p: Player) { Steady(p) && !p.dead && p.state.Some? }

  /** On the way to weapon w: idle or going down with w pending, or coming up as w. */
  predicate Toward(p: Player, w: Weapon) {
    && Alive(p)
    && ((p.pending == Some(w) && (p.state.value.Ready? || p.state.value.Down?)) ||
        (p.pending.None? && p.ready == w && p.state.value.Up?))
  }

  predicate Arrived(p: Player, w: Weapon) {
    Alive(p) && p.ready == w && p.pending.None? && p.state.value.Ready?
  }

  /** Setting a down state that is not at the bottom yet lowers the weapon a bit. */
  lemma SetDown(p: Player, e: Env)
    requires Sound(p) && Ok(e) && !p.dead && p.pending.Some? && p.sy + LOWERSPEED < WEAPONBOTTOM
    ensures Set(p, e, Down(p.ready)) == p.(state := Some(Down(p.ready)), tics := 1, sy := p.sy + LOWERSPEED)
  {
    var q := p.(state := Some(Down(p.ready)), tics := 1);
    assert Act(q, e, Down(p.ready)) == LowerIt(q, e);
  }

  /** P_SetupPsprites: the weapon in hand is on its way up from the bottom, with no flash and nothing pending. */
  lemma SetupRaises(p: Player, e: Env)
    requires Sound(p) && Ok(e)
    ensures SetupPsprites(p, e) == p.(pending := None, flash := None, state := Some(Up(p.ready)), tics := 1,
                                      sy := WEAPONBOTTOM - RAISESPEED)
  {
    SetUp(p.(state := None, flash := None, pending := None, sy := WEAPONBOTTOM), e);
  }

  /** At the bottom the pending weapon takes over. */
  lemma SetDownLast(p: Player, e: Env)
    requires Sound(p) && Ok(e) && !p.dead && p.pending.Some? && p.sy + LOWERSPEED >= WEAPONBOTTOM
    ensures var w := p.pending.value;
            Set(p, e, Down(p.ready)) ==
            p.(ready := w, pending := None, state := Some(Up(w)), tics := 1, sy := WEAPONBOTTOM - RAISESPEED)
  {
    var w := p.pending.value;
    var q := p.(state := Some(Down(p.ready)), tics := 1);
    assert Act(q, e, Down(p.ready)) == LowerIt(q, e);
    var b := q.(sy := q.sy + LOWERSPEED, ready := w);
    assert LowerIt(q, e) == BringUpWeapon(b, e);
    SetUp(b.(pending := None, sy := WEAPONBOTTOM), e);
  }

  /** At the top the weapon is ready; held fire leaves it so. */
  lemma SetUpLast(p: Player, e: Env)
    requires Sound(p) && Idle(e) && !p.dead && p.pending.None? && p.sy - RAISESPEED <= WEAPONTOP
    ensures var r := Set(p, e, Up(p.ready));
            r.state == Some(Ready(p.ready, 0)) && r.ready == p.ready && r.pending.None? && !r.dead
  {
    var q := p.(state := Some(Up(p.ready)), tics := 1);
    assert Act(q, e, Up(p.ready)) == RaiseIt(q, e);
    var t := q.(sy := WEAPONTOP);
    assert RaiseIt(q, e) == Set(t, e, Ready(p.ready, 0));
    var u := t.(state := Some(Ready(p.ready, 0)), tics := RowOf(Ready(p.ready, 0)).tics);
    assert Act(u, e, Ready(p.ready, 0)) == WeaponIsReady(u, e);
  }

  lemma LowerStep(p: Player, e: Env, w: Weapon)
    requires Toward(p, w) && p.state.value.Down? && Idle(e)
    ensures var r := MoveWeapon(p, e); Toward(r, w) && Due(r) < Due(p)
  {
    if p.tics == 1 {
      if p.sy + LOWERSPEED < WEAPONBOTTOM {
        SetDown(p, e);
      } else {
        SetDownLast(p, e);
      }
    }
  }

  lemma ReadyStep(p: Player, e: Env, w: Weapon)
    requires Toward(p, w) && p.state.value.Ready? && Idle(e)
    ensures var r := MoveWeapon(p, e); Toward(r, w) && Due(r) < Due(p)
  {
    if p.tics == 1 {
      var s := Next(p.state.value);
      var q := p.(state := Some(s), tics := RowOf(s).tics);
      assert Set(p, e, s) == Act(q, e, s);
      assert Act(q, e, s) == WeaponIsReady(q, e);
      SetDown(q, e);
    }
  }

  lemma RaiseStep(p: Player, e: Env, w: Weapon)
    requires Toward(p, w) && p.state.value.Up? && Idle(e)
    ensures var r := MoveWeapon(p, e); Arrived(r, w) || (Toward(r, w) && Due(r) < Due(p))
  {
    if p.tics == 1 {
      if p.sy - RAISESPEED > WEAPONTOP {
        SetUp(p, e);
      } else {
        SetUpLast(p, e);
      }
    }
  }

  lemma TicStep(p: Player, e: Env, w: Weapon)
    requires Toward(p, w) && Idle(e)
    ensures var r := MovePsprites(p, e); Arrived(r, w) || (Toward(r, w) && Due(r) < Due(p))
  {
    match p.state.value
    case Down(_) => LowerStep(p, e, w);
    case Ready(_, _) => ReadyStep(p, e, w);
    case Up(_) => RaiseStep(p, e, w);
  }

  function Tics(p: Player, envs: seq<Env>): (r: Player)
    requires Steady(p) && forall i :: 0 <= i < |envs| ==> Ok(envs[i])
    ensures Steady(r)
    decreases |envs|
  {
    if envs == [] then p else Tics(MovePsprites(p, envs[0]), envs[1..])
  }

  /** The weapon arrives within the tics due. */
  lemma {:induction false} SwitchCompletes(p: Player, w: Weapon, envs: seq<Env>) returns (n: nat)
    requires Toward(p, w) && |envs| >= Due(p) && forall i :: 0 <= i < |envs| ==> Idle(envs[i])
    ensures 0 < n <= Due(p) && (forall i :: 0 <= i < n ==> Ok(envs[..n][i])) && Arrived(Tics(p, envs[..n]), w)
    decreases Due(p)
  {
    assert Due(p) > 0;
    TicStep(p, envs[0], w);
    var r := MovePsprites(p, envs[0]);
    if Arrived(r, w) {
      n := 1;
      assert envs[..1][1..] == [];
      assert Tics(r, []) == r;
    } else {
      var m := SwitchCompletes(r, w, envs[1..]);
      n := m + 1;
      assert envs[..n][1..] == envs[1..][..m];
    }
  }
}
