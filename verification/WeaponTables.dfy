/** The weapon tables of doom/info.c and doom/d_items.c.

    A psprite state is named by its weapon and its place in the weapon's sequence:
    S_PISTOLUP is Up(Pistol), S_PISTOL1 is Attack(Pistol, 0), S_SAWB is Ready(Chainsaw, 1). */
module WeaponTables {
  import opened Options

  datatype Weapon = Fist | Pistol | Shotgun | Chaingun | Launcher | Plasma | Bfg | Chainsaw | SuperShotgun

  datatype Ammo = Clip | Shell | Cell | Misl

  /** weaponinfo[].ammo; None is am_noammo. */
  function AmmoOf(w: Weapon): Option<Ammo> {
    match w
    case Fist => None
    case Pistol => Some(Clip)
    case Shotgun => Some(Shell)
    case Chaingun => Some(Clip)
    case Launcher => Some(Misl)
    case Plasma => Some(Cell)
    case Bfg => Some(Cell)
    case Chainsaw => None
    case SuperShotgun => Some(Shell)
  }

  const BFGCELLS := 40

  /** The ammo of one shot, as P_CheckAmmo demands it. */
  function Need(w: Weapon): nat {
    match w
    case Bfg => BFGCELLS
    case SuperShotgun => 2
    case _ => 1
  }

  datatype Action =
    | NoAction | WeaponReady | Lower | Raise | ReFire | CheckReload | Noise | CloseShotgun2
    | GunFlash | Melee | FireMissile | FireBFG | FirePlasma | FirePistol | FireShotgun | FireShotgun2 | FireCGun

  datatype State = Up(w: Weapon) | Down(w: Weapon) | Ready(w: Weapon, k: nat) | Attack(w: Weapon, k: nat)

  datatype Row = Row(tics: nat, action: Action)

  /** The attack sequence of a weapon, doom/info.c rows S_xxx1 up to the one that leads back to ready. */
  function AttackRows(w: Weapon): seq<Row> {
    match w
    case Fist => [Row(4, NoAction), Row(4, Melee), Row(5, NoAction), Row(4, NoAction), Row(5, ReFire)]
    case Pistol => [Row(4, NoAction), Row(6, FirePistol), Row(4, NoAction), Row(5, ReFire)]
    case Shotgun => [Row(3, NoAction), Row(7, FireShotgun), Row(5, NoAction), Row(5, NoAction), Row(4, NoAction),
                     Row(5, NoAction), Row(5, NoAction), Row(3, NoAction), Row(7, ReFire)]
    case SuperShotgun => [Row(3, NoAction), Row(7, FireShotgun2), Row(7, NoAction), Row(7, CheckReload), Row(7, Noise),
                          Row(7, NoAction), Row(7, Noise), Row(6, NoAction), Row(6, CloseShotgun2), Row(5, ReFire)]
    case Chaingun => [Row(4, FireCGun), Row(4, FireCGun), Row(0, ReFire)]
    case Launcher => [Row(8, GunFlash), Row(12, FireMissile), Row(0, ReFire)]
    case Chainsaw => [Row(4, Melee), Row(4, Melee), Row(0, ReFire)]
    case Plasma => [Row(3, FirePlasma), Row(20, ReFire)]
    case Bfg => [Row(20, Noise), Row(10, GunFlash), Row(10, FireBFG), Row(20, ReFire)]
  }

  /** The chainsaw idles in two frames of four tics, all others in one of one tic. */
  function ReadyFrames(w: Weapon): nat { if w.Chainsaw? then 2 else 1 }

  predicate IsState(s: State) {
    match s
    case Ready(w, k) => k < ReadyFrames(w)
    case Attack(w, k) => k < |AttackRows(w)|
    case _ => true
  }

  function RowOf(s: State): Row
    requires IsState(s)
  {
    match s
    case Up(w) => Row(1, Raise)
    case Down(w) => Row(1, Lower)
    case Ready(w, k) => Row(if w.Chainsaw? then 4 else 1, WeaponReady)
    case Attack(w, k) => AttackRows(w)[k]
  }

  function Next(s: State): (n: State)
    requires IsState(s)
    ensures IsState(n)
  {
    match s
    case Up(w) => s
    case Down(w) => s
    case Ready(w, k) => Ready(w, if k + 1 < ReadyFrames(w) then k + 1 else 0)
    case Attack(w, k) => if k + 1 < |AttackRows(w)| then Attack(w, k + 1) else Ready(w, 0)
  }

  /** The place of the frame that takes the checked ammo; weapons without ammo have none. */
  function FireFrame(w: Weapon): int {
    match w
    case Fist => -1
    case Chainsaw => -1
    case Chaingun => 0
    case Plasma => 0
    case Bfg => 2
    case _ => 1
  }

  predicate Takes(a: Action) {
    a.FireMissile? || a.FireBFG? || a.FirePlasma? || a.FirePistol? || a.FireShotgun? || a.FireShotgun2? || a.FireCGun?
  }

  /** What the action takes from the ammo. */
  function Cost(a: Action): nat {
    if a.FireBFG? then BFGCELLS else if a.FireShotgun2? then 2 else if Takes(a) then 1 else 0
  }

  predicate Rechecks(a: Action) { a.ReFire? || a.CheckReload? || a.CloseShotgun2? }

  /** The shape of all attack sequences: they begin with a real frame, take the checked ammo in the
      fire frame (the chaingun once more in its second), recheck only behind it, and only a last,
      rechecking frame has no duration. */
  lemma AttackShape(w: Weapon, k: nat)
    requires k < |AttackRows(w)|
    ensures var r := AttackRows(w)[k];
            && !r.action.WeaponReady? && !r.action.Lower? && !r.action.Raise?
            && (k == FireFrame(w) ==> Takes(r.action) && Cost(r.action) == Need(w) && AmmoOf(w).Some?)
            && (Takes(r.action) && k != FireFrame(w) ==> r.action.FireCGun? && w.Chaingun?)
            && (Rechecks(r.action) ==> k > FireFrame(w) && k > 0)
            && (r.tics == 0 ==> r.action.ReFire? && k + 1 == |AttackRows(w)|)
            && (r.action.FireCGun? ==> w.Chaingun? && k < 2) && (r.action.FirePlasma? ==> w.Plasma?)
            && (Takes(r.action) && !r.action.FireMissile? && !r.action.FireBFG? ==> FlashRows(w) != [])
            && 0 < |AttackRows(w)|
  {
    match w
    case Fist =>
    case Pistol =>
    case Shotgun =>
    case Chaingun =>
    case Launcher =>
    case Plasma =>
    case Bfg =>
    case Chainsaw =>
    case SuperShotgun =>
  }

  // ----- muzzle flashes

  datatype Light = NoLight | Light0 | Light1 | Light2

  /** S_LIGHTDONE, or frame k of a weapon's flash. */
  datatype Flash = LightDone | Flash(w: Weapon, k: nat)

  datatype FlashRow = FlashRow(tics: nat, light: Light)

  function FlashRows(w: Weapon): seq<FlashRow> {
    match w
    case Pistol => [FlashRow(7, Light1)]
    case Shotgun => [FlashRow(4, Light1), FlashRow(3, Light2)]
    case SuperShotgun => [FlashRow(5, Light1), FlashRow(4, Light2)]
    case Chaingun => [FlashRow(5, Light1), FlashRow(5, Light2)]
    case Launcher => [FlashRow(3, Light1), FlashRow(4, NoLight), FlashRow(4, Light2), FlashRow(4, Light2)]
    case Plasma => [FlashRow(4, Light1), FlashRow(4, Light1)]
    case Bfg => [FlashRow(11, Light1), FlashRow(6, Light2)]
    case _ => []
  }

  predicate IsFlash(f: Flash) {
    f.LightDone? || f.k < |FlashRows(f.w)|
  }

  function FlashRowOf(f: Flash): FlashRow
    requires IsFlash(f)
  {
    match f
    case LightDone => FlashRow(0, Light0)
    case Flash(w, k) => FlashRows(w)[k]
  }

  /** The two flash frames of the chaingun and of the plasma rifle are alternatives. */
  function NextFlash(f: Flash): (n: Option<Flash>)
    requires IsFlash(f)
    ensures n.Some? ==> IsFlash(n.value)
  {
    match f
    case LightDone => None
    case Flash(w, k) =>
      if w.Chaingun? || w.Plasma? || k + 1 == |FlashRows(w)| then Some(LightDone) else Some(Flash(w, k + 1))
  }

  lemma FlashTics(f: Flash)
    requires IsFlash(f)
    ensures FlashRowOf(f).tics == 0 <==> f.LightDone?
  {
    if f.Flash? {
      match f.w
      case Pistol =>
      case Shotgun =>
      case SuperShotgun =>
      case Chaingun =>
      case Launcher =>
      case Plasma =>
      case Bfg =>
      case _ =>
    }
  }
}
