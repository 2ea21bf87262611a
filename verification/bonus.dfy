/** The bonus target: spawning (from the frame-accumulated timer or from the one-shot and
    periodic timer callbacks), its flight across the field, and its one nullable slot. */
module BonusSpawner {
  import opened Entities
  import Weapons

  /** Frame-timer threshold for a spawn, in milliseconds. */
  const BonusInterval: real := 7000.0
  /** Where the frame timer restarts after the target flies off-field (two seconds early). */
  const ExitTimer: real := 5000.0
  const BonusRow: int := 80

  /** Flight speed at a level: 2, plus one per level beyond the first, at most 5. */
  function SpeedFor(level: int): int {
    2 + Min(level - 1, 3)
  }

  /** A target that may be in the slot: flying left or right at a level speed, carrying
      a special weapon. */
  predicate WellFormed(b: Bonus) {
    && (b.direction == 1 || b.direction == -1)
    && 2 <= b.speed <= 5
    && b.drop != Single
    && b.y == BonusRow
  }

  predicate Flying(o: Option<Bonus>) {
    o.Some? && o.value.active
  }

  /** `spawnBonusEnemy`: does nothing while a target is flying; otherwise a fresh target
      enters just off one side (the side and drop come from the two rolls). */
  function SpawnBonus(g: Game, side: Roll, pick: Roll): (r: Game)
    ensures Flying(g.bonus) ==> r == g
    ensures !Flying(g.bonus) ==>
      && r == g.(bonus := r.bonus)
      && Flying(r.bonus) && r.bonus.value.drop != Single && r.bonus.value.y == BonusRow
      && (g.level >= 1 ==> WellFormed(r.bonus.value))
      && r.bonus.value.speed == SpeedFor(g.level)
      && (r.bonus.value.direction == 1 <==> side > 0.5)
      && r.bonus.value.drop == Weapons.RandomWeapon(pick)
      && r.bonus.value.x == (if side > 0.5 then -BonusWidth - 20 else FieldWidth + 20)
      && (r.bonus.value.direction == 1 ==> r.bonus.value.x + BonusWidth < 0)
      && (r.bonus.value.direction == -1 ==> r.bonus.value.x > FieldWidth)
  {
    if Flying(g.bonus) then g
    else
      var dir := if side > 0.5 then 1 else -1;
      var startX := if dir == 1 then -BonusWidth - 20 else FieldWidth + 20;
      g.(bonus := Some(Bonus(startX, BonusRow, dir, SpeedFor(g.level), Weapons.RandomWeapon(pick), true)))
  }

  /** The target has flown past the far side of the field. */
  predicate Departed(b: Bonus) {
    (b.direction > 0 && b.x > FieldWidth + 50) || (b.direction < 0 && b.x < -BonusWidth - 50)
  }

  /** `updateBonusEnemy`: a flying target moves by its speed (2 when the speed is unset);
      once past the far side it is dropped from the slot and the frame timer is primed to
      spawn again soon. A spent target is not moved. */
  function MoveBonus(g: Game): (r: Game)
    ensures !Flying(g.bonus) ==> r == g
    ensures Flying(g.bonus) ==> r == g.(bonus := r.bonus, bonusTimer := r.bonusTimer)
    ensures Flying(g.bonus) && r.bonus.Some? ==>
      && r.bonus.value == g.bonus.value.(x := r.bonus.value.x)
      && r.bonus.value.x - g.bonus.value.x == g.bonus.value.direction * (if g.bonus.value.speed == 0 then 2 else g.bonus.value.speed)
      && r.bonusTimer == g.bonusTimer
    ensures Flying(g.bonus) && r.bonus.None? ==> r.bonusTimer == ExitTimer
    ensures Flying(g.bonus) ==>
      (r.bonus.None? <==> Departed(g.bonus.value.(x := g.bonus.value.x + g.bonus.value.direction *
                                   (if g.bonus.value.speed == 0 then 2 else g.bonus.value.speed))))
  {
    if !Flying(g.bonus) then g
    else
      var b := g.bonus.value;
      var speed := if b.speed == 0 then 2 else b.speed;
      var moved := b.(x := b.x + b.direction * speed);
      if Departed(moved) then g.(bonus := None, bonusTimer := ExitTimer)
      else g.(bonus := Some(moved))
  }

  /** The frame-timer part of a frame: the timer advances one frame; if the slot is empty
      and the timer has reached the interval, a target spawns and the timer restarts. */
  function TimerStep(g: Game, side: Roll, pick: Roll): (r: Game)
    ensures g.bonus.Some? ==> r == g.(bonusTimer := g.bonusTimer + FrameMillis)
    ensures g.bonus.None? && g.bonusTimer + FrameMillis < BonusInterval ==>
      r == g.(bonusTimer := g.bonusTimer + FrameMillis)
    ensures g.bonus.None? && g.bonusTimer + FrameMillis >= BonusInterval ==>
      && Flying(r.bonus) && (g.level >= 1 ==> WellFormed(r.bonus.value)) && r.bonusTimer == 0.0
      && r == g.(bonus := r.bonus, bonusTimer := 0.0)
  {
    var t := g.bonusTimer + FrameMillis;
    if g.bonus.None? && t >= BonusInterval then SpawnBonus(g.(bonusTimer := t), side, pick).(bonusTimer := 0.0)
    else g.(bonusTimer := t)
  }

  /** The 3-second one-shot and the 5-second periodic callbacks scheduled by a new game:
      spawn only while playing and only into an empty slot. */
  function SpawnTimerFired(g: Game, side: Roll, pick: Roll): (r: Game)
    ensures !(g.phase == Playing && g.bonus.None?) ==> r == g
    ensures g.phase == Playing && g.bonus.None? ==>
      Flying(r.bonus) && (g.level >= 1 ==> WellFormed(r.bonus.value)) && r == g.(bonus := r.bonus)
  {
    if g.phase == Playing && g.bonus.None? then SpawnBonus(g, side, pick) else g
  }

  /** However many spawn callbacks fire back to back, only the first fills the slot:
      the later ones change nothing. */
  lemma SpawnCallbacksNeverStack(g: Game, s1: Roll, p1: Roll, s2: Roll, p2: Roll)
    ensures SpawnTimerFired(SpawnTimerFired(g, s1, p1), s2, p2) == SpawnTimerFired(g, s1, p1)
  {
  }

  /** A spent target (hit, so inactive but still in the slot) blocks every spawn path. */
  lemma SpentTargetBlocksSpawns(g: Game, side: Roll, pick: Roll)
    requires g.bonus.Some? && !g.bonus.value.active
    ensures SpawnTimerFired(g, side, pick) == g
    ensures TimerStep(g, side, pick).bonus == g.bonus
    ensures MoveBonus(g) == g
  {
  }

  /** `k` frames of flight. */
  function Fly(g: Game, k: nat): Game
    decreases k
  {
    if k == 0 then g else MoveBonus(Fly(g, k - 1))
  }

  lemma {:induction false} FlightIsSteady(g: Game, k: nat)
    requires Flying(g.bonus) && WellFormed(g.bonus.value)
    requires g.bonus.value.direction == 1 && g.bonus.value.x + k * g.bonus.value.speed <= FieldWidth + 50
    ensures Flying(Fly(g, k).bonus)
    ensures Fly(g, k).bonus.value == g.bonus.value.(x := g.bonus.value.x + k * g.bonus.value.speed)
    decreases k
  {
    if k > 0 {
      var v := g.bonus.value;
      assert v.x + (k - 1) * v.speed + v.speed == v.x + k * v.speed;
      assert v.x + (k - 1) * v.speed <= FieldWidth + 50;
      FlightIsSteady(g, k - 1);
      assert Fly(g, k) == MoveBonus(Fly(g, k - 1));
    }
  }

  /** A target entering from the left at level 1 (speed 2) crosses the whole field: it is
      still flying after 365 frames and gone after the 366th, which primes the timer. */
  lemma {:induction false} LevelOneCrossing(g: Game)
    requires Flying(g.bonus) && WellFormed(g.bonus.value)
    requires g.bonus.value.direction == 1 && g.bonus.value.speed == 2 && g.bonus.value.x == -BonusWidth - 20
    ensures Flying(Fly(g, 365).bonus)
    ensures Fly(g, 366).bonus.None? && Fly(g, 366).bonusTimer == ExitTimer
  {
    FlightIsSteady(g, 365);
    var f := Fly(g, 365);
    assert f.bonus.value.x == -BonusWidth - 20 + 730;
    assert Fly(g, 366) == MoveBonus(f);
  }
}
