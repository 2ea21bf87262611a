/** The weapon system: firing patterns, the fire cooldown, upgrades from the bonus target,
    the per-frame upgrade countdown and the random choice of a drop. */
module Weapons {
  import opened Entities

  /** How long an upgrade lasts, in milliseconds. */
  const UpgradeMillis: real := 15000.0
  /** Frames a laser beam is kept alive for. */
  const LaserLife: int := 30
  const LaserWidth: int := 4

  /** Where new shots appear: the ship's nose. */
  const NoseY: real := PlayerY - (PlayerHeight / 2) as real

  /** Number of projectiles one trigger pull produces with each weapon. */
  function PatternSize(w: WeaponType): nat {
    match w
    case Single => 1
    case Double => 2
    case Triple => 3
    case Laser => 1
    case Spread => 5
  }

  /** The projectiles one trigger pull appends, with the ship centred at `x`. */
  function Pattern(w: WeaponType, x: int): (r: seq<Shot>)
    ensures |r| == PatternSize(w)
    ensures forall i :: 0 <= i < |r| ==> r[i].kind == w
  {
    match w
    case Double =>
      [Shot(x - 15, NoseY, 0, Double, 0), Shot(x + 15, NoseY, 0, Double, 0)]
    case Triple =>
      [Shot(x, NoseY, 0, Triple, 0),
       Shot(x - 15, NoseY + 10.0, -5, Triple, 0),
       Shot(x + 15, NoseY + 10.0, 5, Triple, 0)]
    case Laser =>
      [Shot(x, 0.0, 0, Laser, LaserLife)]
    case Spread =>
      seq(5, k requires 0 <= k < 5 => Shot(x, NoseY, (k - 2) * 5, Spread, 0))
    case Single =>
      [Shot(x, NoseY, 0, Single, 0)]
  }

  /** The firing table: what each variant appends, read as positions and velocities
      (a drift of 5 per frame is vx = 0.5 at shot speed 10). */
  lemma PatternTable(x: int)
    ensures Pattern(Single, x) == [Shot(x, NoseY, 0, Single, 0)]
    ensures var d := Pattern(Double, x);
      d[0].x == x - 15 && d[1].x == x + 15 && d[0].drift == 0 && d[1].drift == 0
      && d[0].y == NoseY && d[1].y == NoseY
    ensures var t := Pattern(Triple, x);
      && [t[0].drift, t[1].drift, t[2].drift] == [0, -5, 5] && t[0].x == x && t[0].y == NoseY
      && t[1].x == x - 15 && t[2].x == x + 15 && t[1].y == NoseY + 10.0 && t[2].y == NoseY + 10.0
    ensures var l := Pattern(Laser, x)[0];
      l.x == x && l.y == 0.0 && l.life == 30
    ensures var s := Pattern(Spread, x);
      [s[0].drift, s[1].drift, s[2].drift, s[3].drift, s[4].drift] == [-10, -5, 0, 5, 10]
      && forall i :: 0 <= i < 5 ==> s[i].x == x && s[i].y == NoseY
  {
  }

  /** A fire request at time `now`: ignored inside the 150 ms cooldown, otherwise the
      current weapon's pattern is appended at the nose and the fire time recorded. */
  function Fire(g: Game, now: int): (r: Game)
    ensures now - g.ship.lastShot < ShotCooldown ==> r == g
    ensures now - g.ship.lastShot >= ShotCooldown ==>
      && |r.shots| == |g.shots| + PatternSize(g.ship.weapon)
      && r.shots[..|g.shots|] == g.shots
      && (forall i :: |g.shots| <= i < |r.shots| ==> r.shots[i].kind == g.ship.weapon)
      && r.shots == g.shots + Pattern(g.ship.weapon, g.ship.x)
      && r.ship.lastShot == now
      && r == g.(shots := r.shots, ship := g.ship.(lastShot := now))
  {
    if now - g.ship.lastShot < ShotCooldown then g
    else g.(shots := g.shots + Pattern(g.ship.weapon, g.ship.x), ship := g.ship.(lastShot := now))
  }

  /** Two trigger pulls less than 150 ms apart fire once: the second changes nothing. */
  lemma RapidFireIsThrottled(g: Game, t1: int, t2: int)
    requires t1 - g.ship.lastShot >= ShotCooldown
    requires t1 <= t2 < t1 + ShotCooldown
    ensures Fire(Fire(g, t1), t2) == Fire(g, t1)
    ensures |Fire(Fire(g, t1), t2).shots| == |g.shots| + PatternSize(g.ship.weapon)
  {
  }

  /** Collecting a bonus drop: the drop becomes the weapon for 15 seconds. */
  function Upgrade(s: Ship, drop: WeaponType): (r: Ship)
    ensures r.weapon == drop && r.weaponTime == UpgradeMillis
    ensures r.x == s.x && r.lastShot == s.lastShot && r.weaponLevel == s.weaponLevel
  {
    s.(weapon := drop, weaponTime := UpgradeMillis)
  }

  /** A hit from an enemy shot revokes any upgrade at once. */
  function Disarm(s: Ship): (r: Ship)
    ensures r.weapon == Single && r.weaponTime == 0.0
    ensures r.x == s.x && r.lastShot == s.lastShot && r.weaponLevel == s.weaponLevel
  {
    s.(weapon := Single, weaponTime := 0.0)
  }

  /** The weapon invariant: a special weapon always has time left. */
  predicate WeaponTimed(s: Ship) {
    s.weapon != Single ==> s.weaponTime > 0.0
  }

  /** One frame of the upgrade countdown. */
  function Decay(s: Ship): (r: Ship)
    ensures WeaponTimed(s) ==> WeaponTimed(r)
    ensures r.weapon == s.weapon || (r.weapon == Single && r.weaponLevel == 1 && r.weaponTime <= 0.0)
    ensures s.weapon == Single ==> r == s
    ensures r.x == s.x && r.lastShot == s.lastShot
  {
    if s.weapon != Single && s.weaponTime > 0.0 then
      var t := s.weaponTime - FrameMillis;
      if t <= 0.0 then s.(weaponTime := t, weapon := Single, weaponLevel := 1)
      else s.(weaponTime := t)
    else s
  }

  /** `k` frames of the countdown. */
  function DecayFrames(s: Ship, k: nat): Ship
    decreases k
  {
    if k == 0 then s else Decay(DecayFrames(s, k - 1))
  }

  lemma {:induction false} UpgradeCountsDown(s: Ship, drop: WeaponType, k: nat)
    requires drop != Single
    requires k < 900
    ensures DecayFrames(Upgrade(s, drop), k).weapon == drop
    ensures DecayFrames(Upgrade(s, drop), k).weaponTime == UpgradeMillis - (k as real) * FrameMillis
    decreases k
  {
    if k > 0 {
      UpgradeCountsDown(s, drop, k - 1);
    }
  }

  /** An upgrade lasts exactly 900 frames: the drop is still held after 899 frames of
      countdown and the ship is back to the single shot after the 900th. */
  lemma UpgradeLastsNineHundredFrames(s: Ship, drop: WeaponType)
    requires drop != Single
    ensures DecayFrames(Upgrade(s, drop), 899).weapon == drop
    ensures DecayFrames(Upgrade(s, drop), 900).weapon == Single
    ensures DecayFrames(Upgrade(s, drop), 900).weaponLevel == 1
  {
    UpgradeCountsDown(s, drop, 899);
  }

  /** The four weapons a bonus target can carry, in the order the random pick indexes them. */
  const Drops: seq<WeaponType> := [Double, Triple, Laser, Spread]

  /** `getRandomWeapon`: a uniformly random element of the drop table. */
  function RandomWeapon(roll: Roll): (w: WeaponType)
    ensures w != Single
  {
    var k := (roll * 4.0).Floor;
    assert 0 <= k < 4;
    Drops[k]
  }

  /** Each drop owns exactly one quarter of the random range, so each is equally likely. */
  lemma DropQuarters(roll: Roll, k: int)
    requires 0 <= k < 4
    ensures RandomWeapon(roll) == Drops[k] <==> (k as real) / 4.0 <= roll < ((k + 1) as real) / 4.0
  {
    var j := (roll * 4.0).Floor;
    assert Drops[j] == Drops[k] <==> j == k;
  }
}
