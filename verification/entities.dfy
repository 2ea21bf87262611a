/** The entities of the arcade shooter and the one session record that holds them.

    Horizontal positions are whole units. The ship's row is 800 / 1.3 (set once by the
    title screen and never reset), so the vertical position of a player shot is an exact
    rational; every other vertical position is whole. Frame-accumulated timers are exact
    rationals advancing by 16.67 ms per frame. */
module Entities {

  datatype Option<T> = None | Some(value: T)

  // Playing field
  const FieldWidth: int := 600
  const FieldHeight: int := 800

  // Player ship
  const PlayerWidth: int := 50
  const PlayerHeight: int := 40
  const PlayerSpeed: int := 8
  const PlayerY: real := 800.0 / 1.3
  const ShotSpeed: int := 10
  const ShotCooldown: int := 150

  // Enemy grid
  const EnemyWidth: int := 40
  const EnemyHeight: int := 30
  const EnemyPadding: int := 20
  const EnemySpeed: int := 1
  const EnemyDrop: int := 30
  const EnemyShotSpeed: int := 5

  // Bonus target
  const BonusWidth: int := 60
  const BonusHeight: int := 40
  const BonusScore: int := 150

  /** Milliseconds the frame-driven timers advance by on every frame. */
  const FrameMillis: real := 16.67

  /** A value drawn from `Math.random()`, passed in by the environment. */
  type Roll = r: real | 0.0 <= r < 1.0

  datatype WeaponType = Single | Double | Triple | Laser | Spread
  datatype EnemyKind = Regular | Elite | Boss
  datatype Phase = Menu | Playing | LevelComplete | GameOver

  /** One grid enemy. `hitByLaser` is set by the laser pass and never cleared;
      `frame`/`counter` are its animation phase. */
  datatype Enemy = Enemy(x: int, y: int, kind: EnemyKind, health: int, alive: bool,
                         hitByLaser: bool, frame: int, counter: int)

  /** A player projectile. `drift` is the horizontal step per frame (vx times the shot
      speed; a shot without vx drifts 0). `life` counts frames and matters for lasers only. */
  datatype Shot = Shot(x: int, y: real, drift: int, kind: WeaponType, life: int)

  /** An enemy projectile; it remembers the kind of enemy that fired it. */
  datatype EnemyShot = EnemyShot(x: int, y: int, kind: EnemyKind)

  /** The roaming bonus target. A hit only clears `active`; the slot keeps the record. */
  datatype Bonus = Bonus(x: int, y: int, direction: int, speed: int, drop: WeaponType, active: bool)

  /** The player ship: horizontal position, last fire time and weapon state. */
  datatype Ship = Ship(x: int, lastShot: int, weapon: WeaponType, weaponLevel: int, weaponTime: real)

  /** The whole session. `active` is the game-active flag consulted by the input handlers,
      `showingComplete` the level-complete display flag, `backupArmed` whether the
      level-complete backup timer is still pending, `marchDir` the shared enemy direction. */
  datatype Game = Game(
    phase: Phase,
    score: int,
    lives: int,
    level: int,
    active: bool,
    showingComplete: bool,
    completeTime: int,
    completeDuration: int,
    backupArmed: bool,
    ship: Ship,
    shots: seq<Shot>,
    enemies: seq<Enemy>,
    marchDir: int,
    enemyShots: seq<EnemyShot>,
    bonus: Option<Bonus>,
    bonusTimer: real)

  /** The state at page load, before any game has started. */
  function Loaded(): Game {
    Game(Menu, 0, 3, 1, false, false, 0, 5000, false,
         Ship(FieldWidth / 2, 0, Single, 1, 0.0),
         [], [], 1, [], None, 0.0)
  }

  /** Points for destroying an enemy of the given kind. */
  function KillScore(k: EnemyKind): int {
    match k
    case Boss => 30
    case Elite => 20
    case Regular => 10
  }

  /** Points for destroying the bonus target at the given level. */
  function BonusPoints(level: int): int {
    BonusScore + (level - 1) * 50
  }

  function Min(a: int, b: int): int { if a <= b then a else b }
  function Max(a: int, b: int): int { if a >= b then a else b }

  /** No enemy of the grid is alive (vacuously true of an empty grid). */
  predicate AllDown(es: seq<Enemy>) {
    forall i :: 0 <= i < |es| ==> !es[i].alive
  }
}
