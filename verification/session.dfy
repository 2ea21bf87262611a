/** The session state machine: a new game, the per-frame game loop, the level-complete
    countdown with its backup timer, the game-over test, and the input handlers, all as
    events over one `Game` record. */
module Session {
  import opened Entities
  import Controls
  import Weapons
  import Formation
  import Projectiles
  import BonusSpawner
  import Collisions

  /** The random draws a frame may consume: the bonus target's side and drop rolls, and
      the indices of the enemies whose firing roll came up this frame. */
  datatype Luck = Luck(side: Roll, pick: Roll, firing: set<int>)

  /** How long the level-complete screen counts down, in milliseconds. */
  const CompleteMillis: int := 3000

  // ---------------------------------------------------------------------------------
  // Starting a game

  /** The state part of `initGame`: score, lives, level, flags, projectiles, ship, weapon,
      the bonus slot and the grid are reset. The march direction, the fire clock, the
      countdown length and a pending backup timer survive. */
  function ResetSession(g: Game): (r: Game)
    ensures r.phase == Playing && r.active && !r.showingComplete && r.completeTime == 0
    ensures r.score == 0 && r.lives == 3 && r.level == 1
    ensures r.shots == [] && r.enemyShots == [] && r.bonus.None? && r.bonusTimer == 0.0
    ensures r.enemies == Formation.EnemyGrid()
    ensures r.ship == Ship(FieldWidth / 2, g.ship.lastShot, Single, 1, 0.0)
    ensures r.marchDir == g.marchDir && r.backupArmed == g.backupArmed
    ensures r.completeDuration == g.completeDuration
  {
    g.(phase := Playing, score := 0, lives := 3, level := 1, active := true,
       showingComplete := false, completeTime := 0, shots := [], enemies := Formation.EnemyGrid(),
       enemyShots := [], ship := g.ship.(x := FieldWidth / 2, weapon := Single, weaponLevel := 1, weaponTime := 0.0),
       bonus := None, bonusTimer := 0.0)
  }

  /** A game under way at level 1 with a score of 0, three lives, the full grid standing,
      no player shots, an empty bonus slot and the default weapon. */
  predicate Fresh(r: Game) {
    && r.phase == Playing && r.score == 0 && r.lives == 3 && r.level == 1
    && |r.enemies| == 24 && (forall i :: 0 <= i < 24 ==> r.enemies[i].alive)
    && r.shots == [] && r.bonus.None? && r.ship.weapon == Single
  }

  /** `initGame`: the reset, then one synchronous run of the game loop. With the march
      direction at ±1, as the game keeps it, the result is a fresh game, whatever the
      state it started from and whatever that first frame draws. */
  function InitGame(g: Game, now: int, luck: Luck): (r: Game)
    ensures (g.marchDir == 1 || g.marchDir == -1) ==> Fresh(r)
  {
    var s := ResetSession(g);
    assert (g.marchDir == 1 || g.marchDir == -1) ==> Fresh(Tick(s, now, luck)) by {
      PlayingTick(s, now, luck);
      if g.marchDir == 1 || g.marchDir == -1 {
        NewGameOpening(s, now, luck);
      }
    }
    Tick(s, now, luck)
  }

  // ---------------------------------------------------------------------------------
  // End-of-frame checks

  /** An alive enemy whose bottom edge is below the top of the ship. */
  predicate Overrun(e: Enemy) {
    (e.y + EnemyHeight) as real > PlayerY - (PlayerHeight / 2) as real
  }

  predicate Breached(es: seq<Enemy>) {
    exists i :: 0 <= i < |es| && es[i].alive && Overrun(es[i])
  }

  function Defeat(g: Game): Game {
    g.(phase := GameOver, active := false, showingComplete := false)
  }

  /** `checkGameOver`, in its order: a cleared grid while playing completes the level (and
      wins over every other test, even with no lives left); the empty-grid repair comes
      next; then no lives left, then an alive enemy reaching the ship's row, end the game. */
  function CheckGameOver(g: Game, now: int): (r: Game)
    ensures r.enemies == g.enemies
    ensures g.phase == Playing && AllDown(g.enemies) ==>
      && r.phase == LevelComplete && r.showingComplete && r.active == g.active
      && r.score == g.score + 100 * g.level && r.level == g.level + 1 && r.lives == g.lives
      && r.completeTime == now && r.completeDuration == CompleteMillis && r.backupArmed
    ensures !(g.phase == Playing && AllDown(g.enemies)) ==>
      && (r.phase == GameOver <==> g.phase == GameOver || g.lives <= 0 || Breached(g.enemies))
      && (r.phase == GameOver && g.phase != GameOver ==> !r.active && !r.showingComplete)
      && (r.phase != GameOver ==> r == g)
      && r == g.(phase := r.phase, active := r.active, showingComplete := r.showingComplete)
    ensures r == g.(phase := r.phase, active := r.active, showingComplete := r.showingComplete,
                    score := r.score, level := r.level, completeTime := r.completeTime,
                    completeDuration := r.completeDuration, backupArmed := r.backupArmed)
  {
    if AllDown(g.enemies) && g.phase == Playing then
      g.(score := g.score + 100 * g.level, level := g.level + 1, completeDuration := CompleteMillis,
         phase := LevelComplete, showingComplete := true, completeTime := now, backupArmed := true)
    else if |g.enemies| == 0 && g.phase == Playing then
      g.(enemies := Formation.EnemyGrid())
    else if g.lives <= 0 then Defeat(g)
    else if Breached(g.enemies) then Defeat(g)
    else g
  }

  /** The source's repair of an empty grid while playing never fires: an empty grid has no
      alive enemy, so the level-complete branch before it always takes that case. */
  lemma EmptyGridRepairIsDead(g: Game, now: int)
    requires |g.enemies| == 0 && g.phase == Playing
    ensures CheckGameOver(g, now).phase == LevelComplete
    ensures CheckGameOver(g, now).enemies == []
  {
  }

  // ---------------------------------------------------------------------------------
  // Level transitions

  /** `startNextLevel`: a fresh grid and an empty field at the level already reached;
      score, lives, weapon, the bonus slot and its timer carry over. */
  function StartNextLevel(g: Game): (r: Game)
    ensures r.phase == Playing && r.active && !r.showingComplete && !r.backupArmed && r.completeTime == 0
    ensures r.enemies == Formation.EnemyGrid() && r.shots == [] && r.enemyShots == []
    ensures r.ship == g.ship.(x := FieldWidth / 2)
    ensures r.score == g.score && r.lives == g.lives && r.level == g.level
    ensures r.bonus == g.bonus && r.bonusTimer == g.bonusTimer && r.marchDir == g.marchDir
  {
    g.(phase := Playing, showingComplete := false, active := true, completeTime := 0,
       backupArmed := false, shots := [], enemies := Formation.EnemyGrid(), enemyShots := [],
       ship := g.ship.(x := FieldWidth / 2))
  }

  /** Rounds up to a whole number. */
  function Ceil(x: real): int {
    -((-x).Floor)
  }

  /** The countdown shown on the level-complete screen, in whole seconds rounded up. */
  function RemainingSeconds(g: Game, now: int): int {
    Ceil((g.completeDuration - (now - g.completeTime)) as real / 1000.0)
  }

  /** The rounded-up countdown reaches zero exactly when the full duration has elapsed. */
  lemma CountdownCondition(g: Game, now: int)
    ensures RemainingSeconds(g, now) <= 0 <==> now - g.completeTime >= g.completeDuration
  {
    var x := (g.completeDuration - (now - g.completeTime)) as real / 1000.0;
    assert RemainingSeconds(g, now) <= 0 <==> (-x).Floor >= 0;
    assert (-x).Floor >= 0 <==> -x >= 0.0;
  }

  /** On the three-second screen the countdown reads 3, 2, 1, one number per second. */
  lemma CountdownReadsThreeTwoOne(g: Game, now: int)
    requires g.completeDuration == CompleteMillis
    requires 0 <= now - g.completeTime < CompleteMillis
    ensures RemainingSeconds(g, now) == 3 - (now - g.completeTime) / 1000
  {
    var e := now - g.completeTime;
    var q := e / 1000;
    var x := (CompleteMillis - e) as real / 1000.0;
    assert 0 <= q <= 2 && q * 1000 <= e < q * 1000 + 1000;
    assert -x >= (q - 3) as real && -x < (q - 2) as real;
    assert (-x).Floor == q - 3;
  }

  // ---------------------------------------------------------------------------------
  // The game loop

  /** The ship-and-projectile stages of a playing frame, in loop order: the upgrade
      countdown, the bonus timer, the target's flight and the player shots. */
  function Upkeep(g: Game, luck: Luck): (r: Game)
    ensures r == g.(ship := r.ship, shots := r.shots, bonus := r.bonus, bonusTimer := r.bonusTimer)
    ensures r.ship.x == g.ship.x && r.ship.lastShot == g.ship.lastShot
    ensures Weapons.WeaponTimed(g.ship) ==> Weapons.WeaponTimed(r.ship)
    ensures g.ship.weapon == Single ==> r.ship == g.ship
    ensures g.level >= 1 && (g.bonus.Some? ==> BonusSpawner.WellFormed(g.bonus.value)) ==>
      (r.bonus.Some? ==> BonusSpawner.WellFormed(r.bonus.value))
    ensures g.bonus.Some? && !g.bonus.value.active ==> r.bonus == g.bonus
    ensures g.bonus.None? && g.bonusTimer + FrameMillis < BonusSpawner.BonusInterval ==> r.bonus.None?
    ensures g.shots == [] ==> r.shots == []
    ensures forall i :: 0 <= i < |r.shots| ==> Projectiles.InFlight(r.shots[i])
  {
    var g1 := g.(ship := Weapons.Decay(g.ship));
    var g2 := BonusSpawner.TimerStep(g1, luck.side, luck.pick);
    var g3 := BonusSpawner.MoveBonus(g2);
    g3.(shots := Projectiles.AdvanceShots(g3.shots))
  }

  /** The march of the formation. */
  function MarchStage(g: Game): (r: Game)
    ensures r == g.(enemies := r.enemies, marchDir := r.marchDir)
    ensures |r.enemies| == |g.enemies|
    ensures forall i :: 0 <= i < |g.enemies| ==>
      && r.enemies[i].alive == g.enemies[i].alive && r.enemies[i].health == g.enemies[i].health
      && r.enemies[i].kind == g.enemies[i].kind && r.enemies[i].hitByLaser == g.enemies[i].hitByLaser
      && g.enemies[i].y <= r.enemies[i].y <= g.enemies[i].y + EnemyDrop
    ensures (g.marchDir == 1 || g.marchDir == -1) ==>
      (r.marchDir == 1 || r.marchDir == -1) && (Formation.InField(g.enemies) ==> Formation.InField(r.enemies))
  {
    var m := Formation.March(g.enemies, g.marchDir);
    assert (g.marchDir == 1 || g.marchDir == -1) && Formation.InField(g.enemies) ==> Formation.InField(m.0) by {
      if (g.marchDir == 1 || g.marchDir == -1) && Formation.InField(g.enemies) {
        Formation.MarchStaysInField(g.enemies, g.marchDir);
      }
    }
    g.(enemies := m.0, marchDir := m.1)
  }

  /** The volley from the current positions, then the fall of every enemy shot. */
  function FireStage(g: Game, firing: set<int>): (r: Game)
    ensures r == g.(enemyShots := r.enemyShots)
  {
    g.(enemyShots := Projectiles.AdvanceEnemyShots(g.enemyShots + Formation.Volley(g.enemies, firing)))
  }

  /** The enemy stages of a playing frame, in loop order: the march, the volley from the
      marched positions, and the fall of every enemy shot. */
  function EnemyTurn(g: Game, firing: set<int>): (r: Game)
    ensures r == g.(enemies := r.enemies, marchDir := r.marchDir, enemyShots := r.enemyShots)
    ensures |r.enemies| == |g.enemies|
    ensures forall i :: 0 <= i < |g.enemies| ==>
      && r.enemies[i].alive == g.enemies[i].alive && r.enemies[i].health == g.enemies[i].health
      && r.enemies[i].kind == g.enemies[i].kind && r.enemies[i].hitByLaser == g.enemies[i].hitByLaser
      && g.enemies[i].y <= r.enemies[i].y <= g.enemies[i].y + EnemyDrop
    ensures (g.marchDir == 1 || g.marchDir == -1) ==>
      (r.marchDir == 1 || r.marchDir == -1) && (Formation.InField(g.enemies) ==> Formation.InField(r.enemies))
  {
    FireStage(MarchStage(g), firing)
  }

  /** The movement stages of a playing frame. */
  function Motion(g: Game, luck: Luck): Game {
    EnemyTurn(Upkeep(g, luck), luck.firing)
  }

  /** A playing frame: movement, collisions, then the end-of-frame checks. */
  function PlayFrame(g: Game, now: int, luck: Luck): Game {
    CheckGameOver(Collisions.CheckCollisions(Motion(g, luck)), now)
  }

  /** `gameLoop`: nothing happens after the game is over or on the title screen; the
      level-complete screen either hands over to the next level once the countdown reaches
      zero or, while it is still running, cancels the backup timer; otherwise a frame is
      played. */
  function Tick(g: Game, now: int, luck: Luck): (r: Game)
    ensures g.phase == GameOver || g.phase == Menu ==> r == g
    ensures g.phase == LevelComplete ==>
      (r.phase == Playing <==> now - g.completeTime >= g.completeDuration)
    ensures g.phase == LevelComplete && now - g.completeTime < g.completeDuration ==>
      r == g.(backupArmed := false)
  {
    CountdownCondition(g, now);
    match g.phase
    case GameOver => g
    case Menu => g
    case LevelComplete =>
      if RemainingSeconds(g, now) <= 0 then
        StartNextLevel(g.(backupArmed := false, phase := Playing, showingComplete := false,
                          active := true, completeTime := 0))
      else g.(backupArmed := false)
    case Playing => PlayFrame(g, now, luck)
  }

  lemma PlayingTick(g: Game, now: int, luck: Luck)
    requires g.phase == Playing
    ensures Tick(g, now, luck) == PlayFrame(g, now, luck)
  {
  }

  /** The level-complete backup timer: if still pending when it fires, it starts the next
      level provided the screen is still up; it is spent either way. */
  function BackupTimerFired(g: Game): (r: Game)
    ensures !g.backupArmed ==> r == g
    ensures g.backupArmed && g.phase != LevelComplete ==> r == g.(backupArmed := false)
    ensures g.backupArmed && g.phase == LevelComplete ==> r == StartNextLevel(g)
    ensures !r.backupArmed || r == g
  {
    if !g.backupArmed then g
    else if g.phase == LevelComplete then StartNextLevel(g.(phase := Playing, showingComplete := false))
    else g.(backupArmed := false)
  }

  // ---------------------------------------------------------------------------------
  // Input

  /** The start button: cancels the backup timer, forces the title state at level 1,
      then starts a new game. */
  function StartButton(g: Game, now: int, luck: Luck): (r: Game)
    ensures (g.marchDir == 1 || g.marchDir == -1) ==> Fresh(r)
  {
    InitGame(g.(backupArmed := false, phase := Menu, level := 1, showingComplete := false,
                completeTime := 0, active := false), now, luck)
  }

  /** A click or touch on the field: starts a game from the title or game-over screen,
      fires while the game is active, and is ignored otherwise. */
  function Touch(g: Game, now: int, luck: Luck): (r: Game)
    ensures !g.active && !g.showingComplete ==> r == InitGame(g, now, luck)
    ensures g.active ==> r == Weapons.Fire(g, now)
    ensures !g.active && g.showingComplete ==> r == g
  {
    if !g.active && !g.showingComplete then InitGame(g, now, luck)
    else if g.active then Weapons.Fire(g, now)
    else g
  }

  /** A key press: ignored unless the game is active; steering keys move the ship one
      step within the walls and the fire keys fire. */
  function KeyDown(g: Game, key: string, now: int): (r: Game)
    ensures !g.active ==> r == g
    ensures Controls.OnField(g.ship.x) ==> Controls.OnField(r.ship.x)
    ensures g.active && Controls.Classify(key) == Controls.Shoot ==> r == Weapons.Fire(g, now)
    ensures Controls.Classify(key) != Controls.Shoot ==> r == g.(ship := g.ship.(x := r.ship.x))
    ensures Controls.Classify(key) == Controls.Ignore ==> r == g
    ensures g.active && Controls.Classify(key) == Controls.GoLeft ==> r.ship.x == Controls.MoveLeft(g.ship.x)
    ensures g.active && Controls.Classify(key) == Controls.GoRight ==> r.ship.x == Controls.MoveRight(g.ship.x)
  {
    if !g.active then g
    else match Controls.Classify(key)
      case GoLeft => g.(ship := g.ship.(x := Controls.MoveLeft(g.ship.x)))
      case GoRight => g.(ship := g.ship.(x := Controls.MoveRight(g.ship.x)))
      case Shoot => Weapons.Fire(g, now)
      case Ignore => g
  }

  /** Mouse or touch movement: ignored unless the game is active; otherwise the ship
      follows the pointer, clamped to the field. */
  function PointerMove(g: Game, x: int): (r: Game)
    ensures !g.active ==> r == g
    ensures g.active ==> Controls.OnField(r.ship.x) && r == g.(ship := g.ship.(x := r.ship.x))
    ensures g.active && Controls.OnField(x) ==> r.ship.x == x
    ensures g.active ==> r.ship.x == Controls.MoveTo(x)
  {
    if !g.active then g else g.(ship := g.ship.(x := Controls.MoveTo(x)))
  }

  /** Everything that can happen to a session: an animation frame, a key press, pointer
      movement, a click or touch, the start button, a bonus-spawn callback, and the
      level-complete backup timer. Clock readings and random draws are carried in. */
  datatype Event =
    | Frame(now: int, luck: Luck)
    | Key(key: string, now: int)
    | Pointer(x: int)
    | Tap(now: int, luck: Luck)
    | StartPressed(now: int, luck: Luck)
    | SpawnCheck(side: Roll, pick: Roll)
    | BackupFired

  function Step(g: Game, e: Event): Game {
    match e
    case Frame(now, luck) => Tick(g, now, luck)
    case Key(key, now) => KeyDown(g, key, now)
    case Pointer(x) => PointerMove(g, x)
    case Tap(now, luck) => Touch(g, now, luck)
    case StartPressed(now, luck) => StartButton(g, now, luck)
    case SpawnCheck(side, pick) => BonusSpawner.SpawnTimerFired(g, side, pick)
    case BackupFired => BackupTimerFired(g)
  }

  /** Applies a sequence of events in order. */
  function Run(g: Game, es: seq<Event>): Game
    decreases |es|
  {
    if |es| == 0 then g else Run(Step(g, es[0]), es[1..])
  }

  // ---------------------------------------------------------------------------------
  // The session invariant

  /** The part of the invariant that does not depend on the screen: the march direction,
      level, score, ship and weapon, the grid and the bonus slot are well formed. */
  predicate Sound(g: Game) {
    && (g.marchDir == 1 || g.marchDir == -1)
    && g.level >= 1 && g.score >= 0
    && Controls.OnField(g.ship.x)
    && Weapons.WeaponTimed(g.ship)
    && Collisions.Healthy(g.enemies)
    && Formation.InField(g.enemies)
    && (g.bonus.Some? ==> BonusSpawner.WellFormed(g.bonus.value))
  }

  /** What holds between any two events of a session: the screen flags agree with the
      phase, the backup timer is only pending on the level-complete screen, and a game in
      play has its full grid with someone still standing. */
  predicate Inv(g: Game) {
    && Sound(g)
    && (g.backupArmed ==> g.phase == LevelComplete)
    && (g.showingComplete <==> g.phase == LevelComplete)
    && (g.active <==> g.phase == Playing || g.phase == LevelComplete)
    && (g.phase != Menu ==> |g.enemies| == Formation.GridRows * Formation.GridCols)
    && (g.phase == Playing ==> !AllDown(g.enemies))
  }

  lemma LoadedInv()
    ensures Inv(Loaded())
  {
  }

  lemma FreshGrid()
    ensures Collisions.Healthy(Formation.EnemyGrid())
    ensures Formation.InField(Formation.EnemyGrid())
    ensures !AllDown(Formation.EnemyGrid())
  {
    var es := Formation.EnemyGrid();
    assert es[0].alive;
  }

  /** A collision pass neither moves an enemy nor revives one, so the field bound holds. */
  lemma SuccessorKeepsInField(a: seq<Enemy>, b: seq<Enemy>)
    requires Formation.InField(a) && Collisions.Successor(a, b)
    ensures Formation.InField(b)
  {
  }

  lemma {:induction false} PlayFrameKeepsInv(g: Game, now: int, luck: Luck)
    requires Inv(g) && g.phase == Playing
    ensures Inv(PlayFrame(g, now, luck))
  {
    var m := Motion(g, luck);
    MotionKeepsSound(g, luck);
    var c := Collisions.CheckCollisions(m);
    CollisionsKeepSound(m);
    assert c.phase == Playing && c.active && !c.showingComplete && !c.backupArmed;
    assert |c.enemies| == |g.enemies|;
    FrameEndKeepsInv(c, now);
  }

  /** The end-of-frame check turns a sound frame in play into a state of the invariant,
      whichever way it goes. */
  lemma {:induction false} FrameEndKeepsInv(c: Game, now: int)
    requires Sound(c) && c.phase == Playing && c.active && !c.showingComplete && !c.backupArmed
    requires |c.enemies| == Formation.GridRows * Formation.GridCols
    ensures Inv(CheckGameOver(c, now))
  {
  }

  lemma {:induction false} MotionKeepsSound(g: Game, luck: Luck)
    requires Sound(g)
    ensures Sound(Motion(g, luck))
    ensures Motion(g, luck).phase == g.phase && Motion(g, luck).active == g.active
    ensures Motion(g, luck).showingComplete == g.showingComplete && Motion(g, luck).backupArmed == g.backupArmed
    ensures |Motion(g, luck).enemies| == |g.enemies|
  {
    var u := Upkeep(g, luck);
    var m := EnemyTurn(u, luck.firing);
    assert m == Motion(g, luck);
    assert Collisions.Healthy(u.enemies);
    assert Collisions.Healthy(m.enemies);
  }

  lemma {:induction false} CollisionsKeepSound(g: Game)
    requires Sound(g)
    ensures Sound(Collisions.CheckCollisions(g))
  {
    var c := Collisions.CheckCollisions(g);
    Collisions.SuccessorKeepsHealthy(g.enemies, c.enemies);
    SuccessorKeepsInField(g.enemies, c.enemies);
    assert Collisions.BonusGain(g.bonus, c.bonus, g.level) >= 0;
    assert c.bonus.Some? ==> BonusSpawner.WellFormed(c.bonus.value) by {
      SpentKeepsWellFormed(g.bonus, c.bonus);
    }
  }

  /** Spending the target changes only its flag, so its shape stays well formed. */
  lemma SpentKeepsWellFormed(before: Option<Bonus>, after: Option<Bonus>)
    requires Collisions.BonusAfter(before, after)
    requires before.Some? ==> BonusSpawner.WellFormed(before.value)
    ensures after.Some? ==> BonusSpawner.WellFormed(after.value)
  {
  }

  lemma {:induction false} ResetKeepsInv(g: Game)
    requires (g.marchDir == 1 || g.marchDir == -1) && !g.backupArmed
    ensures Inv(ResetSession(g))
  {
    FreshGrid();
  }

  lemma {:induction false} InitGameKeepsInv(g: Game, now: int, luck: Luck)
    requires (g.marchDir == 1 || g.marchDir == -1) && !g.backupArmed
    ensures Inv(InitGame(g, now, luck))
  {
    ResetKeepsInv(g);
    PlayFrameKeepsInv(ResetSession(g), now, luck);
  }

  /** An animation frame keeps the session invariant. */
  lemma {:induction false} TickKeepsInv(g: Game, now: int, luck: Luck)
    requires Inv(g)
    ensures Inv(Tick(g, now, luck))
  {
    if g.phase == Playing {
      PlayFrameKeepsInv(g, now, luck);
    } else if g.phase == LevelComplete {
      FreshGrid();
    }
  }

  /** The start button always opens a game in play that satisfies the invariant. */
  lemma {:induction false} StartButtonOpens(g: Game, now: int, luck: Luck)
    requires g.marchDir == 1 || g.marchDir == -1
    ensures Inv(StartButton(g, now, luck))
    ensures StartButton(g, now, luck).phase == Playing
  {
    var h := g.(backupArmed := false, phase := Menu, level := 1, showingComplete := false,
                completeTime := 0, active := false);
    assert StartButton(g, now, luck) == InitGame(h, now, luck);
    InitGameKeepsInv(h, now, luck);
    var s := ResetSession(h);
    assert InitGame(h, now, luck) == PlayFrame(s, now, luck);
    NewGameOpening(s, now, luck);
  }

  /** A click or touch keeps the session invariant. */
  lemma {:induction false} TouchKeepsInv(g: Game, now: int, luck: Luck)
    requires Inv(g)
    ensures Inv(Touch(g, now, luck))
  {
    if !g.active && !g.showingComplete {
      InitGameKeepsInv(g, now, luck);
    }
  }

  /** A key press keeps the invariant and the phase. */
  lemma {:induction false} KeyKeepsInv(g: Game, key: string, now: int)
    requires Inv(g)
    ensures Inv(KeyDown(g, key, now)) && KeyDown(g, key, now).phase == g.phase
  {
  }

  /** Pointer movement keeps the invariant and the phase. */
  lemma {:induction false} PointerKeepsInv(g: Game, x: int)
    requires Inv(g)
    ensures Inv(PointerMove(g, x)) && PointerMove(g, x).phase == g.phase
  {
  }

  /** A bonus-spawn callback keeps the invariant and the phase. */
  lemma {:induction false} SpawnKeepsInv(g: Game, side: Roll, pick: Roll)
    requires Inv(g)
    ensures Inv(BonusSpawner.SpawnTimerFired(g, side, pick))
    ensures BonusSpawner.SpawnTimerFired(g, side, pick).phase == g.phase
  {
  }

  /** The backup timer keeps the invariant; it changes the phase only by starting the
      next level from the level-complete screen. */
  lemma {:induction false} BackupKeepsInv(g: Game)
    requires Inv(g)
    ensures Inv(BackupTimerFired(g))
    ensures BackupTimerFired(g).phase == if g.backupArmed then Playing else g.phase
  {
    FreshGrid();
  }

  /** Which handler each event reaches. */
  lemma {:induction false} Dispatch(g: Game, e: Event)
    ensures e.Frame? ==> Step(g, e) == Tick(g, e.now, e.luck)
    ensures e.Key? ==> Step(g, e) == KeyDown(g, e.key, e.now)
    ensures e.Pointer? ==> Step(g, e) == PointerMove(g, e.x)
    ensures e.Tap? ==> Step(g, e) == Touch(g, e.now, e.luck)
    ensures e.StartPressed? ==> Step(g, e) == StartButton(g, e.now, e.luck)
    ensures e.SpawnCheck? ==> Step(g, e) == BonusSpawner.SpawnTimerFired(g, e.side, e.pick)
    ensures e.BackupFired? ==> Step(g, e) == BackupTimerFired(g)
  {
  }

  /** Every event keeps the session invariant. */
  lemma {:induction false} StepKeepsInv(g: Game, e: Event)
    requires Inv(g)
    ensures Inv(Step(g, e))
  {
    Dispatch(g, e);
    match e
    case Frame(now, luck) => TickKeepsInv(g, now, luck);
    case Key(key, now) => KeyKeepsInv(g, key, now);
    case Pointer(x) => PointerKeepsInv(g, x);
    case Tap(now, luck) => TouchKeepsInv(g, now, luck);
    case StartPressed(now, luck) => StartButtonOpens(g, now, luck);
    case SpawnCheck(side, pick) => SpawnKeepsInv(g, side, pick);
    case BackupFired => BackupKeepsInv(g);
  }

  /** Any sequence of events from page load keeps the invariant. */
  lemma {:induction false} RunKeepsInv(g: Game, es: seq<Event>)
    requires Inv(g)
    ensures Inv(Run(g, es))
    decreases |es|
  {
    if |es| > 0 {
      StepKeepsInv(g, es[0]);
      RunKeepsInv(Step(g, es[0]), es[1..]);
    }
  }

  // ---------------------------------------------------------------------------------
  // Session properties

  /** The title and game-over screens ignore everything except a click or touch and the
      start button: frames, keys, pointer movement and timer callbacks change nothing. */
  lemma {:induction false} IdleScreensWait(g: Game, e: Event)
    requires Inv(g) && (g.phase == Menu || g.phase == GameOver)
    requires !e.Tap? && !e.StartPressed?
    ensures Step(g, e) == g
  {
  }

  /** The level-complete screen is left only by the countdown running out on a frame, the
      pending backup timer, or the start button; each leads into play. */
  lemma {:induction false} LevelCompleteExits(g: Game, e: Event)
    requires Inv(g) && g.phase == LevelComplete
    requires Step(g, e).phase != LevelComplete
    ensures Step(g, e).phase == Playing
    ensures || (e.Frame? && e.now - g.completeTime >= g.completeDuration)
            || (e.BackupFired? && g.backupArmed)
            || e.StartPressed?
  {
    Dispatch(g, e);
    match e
    case Frame(now, luck) =>
    case Key(key, now) => KeyKeepsInv(g, key, now);
    case Pointer(x) => PointerKeepsInv(g, x);
    case Tap(now, luck) =>
    case StartPressed(now, luck) => StartButtonOpens(g, now, luck);
    case SpawnCheck(side, pick) => SpawnKeepsInv(g, side, pick);
    case BackupFired => BackupKeepsInv(g);
  }

  /** The first frame of the countdown cancels the backup timer, so a screen that has been
      shown for a frame can only be left through the clock or the start button. */
  lemma {:induction false} CountdownCancelsBackup(g: Game, now: int, luck: Luck)
    requires g.phase == LevelComplete && now - g.completeTime < g.completeDuration
    ensures Step(g, Frame(now, luck)) == g.(backupArmed := false)
    ensures BackupTimerFired(Step(g, Frame(now, luck))) == Step(g, Frame(now, luck))
  {
  }

  /** When the countdown runs out, the next level starts at the level already reached
      with the score and lives carried over, a fresh grid and an empty field. */
  lemma {:induction false} NextLevelAfterCountdown(g: Game, now: int, luck: Luck)
    requires g.phase == LevelComplete && now - g.completeTime >= g.completeDuration
    ensures var r := Step(g, Frame(now, luck));
      && r.phase == Playing && r.active && !r.showingComplete && !r.backupArmed
      && r.level == g.level && r.score == g.score && r.lives == g.lives
      && r.enemies == Formation.EnemyGrid() && r.shots == [] && r.enemyShots == []
      && r.ship.x == FieldWidth / 2 && r.ship.weapon == g.ship.weapon && r.bonus == g.bonus
  {
    CountdownCondition(g, now);
  }

  /** A frame that destroys the last enemy completes the level: 100 points per level are
      added, the level number rises, the countdown starts and the backup timer is armed,
      and this wins over a last life lost in the same frame. */
  lemma {:induction false} ClearingTheGridCompletesTheLevel(g: Game, now: int, luck: Luck)
    requires Inv(g) && g.phase == Playing
    requires AllDown(Collisions.CheckCollisions(Motion(g, luck)).enemies)
    ensures var c := Collisions.CheckCollisions(Motion(g, luck));
      var r := Step(g, Frame(now, luck));
      && r.phase == LevelComplete && r.showingComplete && r.backupArmed
      && r.score == c.score + 100 * g.level && r.level == g.level + 1 && r.lives == c.lives
      && r.completeTime == now && r.completeDuration == CompleteMillis
  {
  }

  /** With no lives left and no player shots in the air, a playing frame ends the game:
      nothing can clear the grid first. */
  lemma {:induction false} NoLivesEndsTheGame(g: Game, now: int, luck: Luck)
    requires Inv(g) && g.phase == Playing && g.lives <= 0 && g.shots == []
    ensures Step(g, Frame(now, luck)).phase == GameOver
  {
    var m := EnemyTurn(Upkeep(g, luck), luck.firing);
    assert m == Motion(g, luck) && m.shots == [];
    var c := Collisions.CheckCollisions(m);
    CollisionsWithoutShots(m);
    assert c.enemies == m.enemies;
    assert !AllDown(m.enemies) by {
      var i :| 0 <= i < |g.enemies| && g.enemies[i].alive;
      assert m.enemies[i].alive;
    }
  }

  /** With no player shots in the air the collision passes leave the grid alone. */
  lemma {:induction false} CollisionsWithoutShots(g: Game)
    requires g.shots == []
    ensures Collisions.CheckCollisions(g).enemies == g.enemies
    ensures Collisions.CheckCollisions(g).score == g.score
  {
    assert Collisions.Beams([]) == [];
    var g1 := Collisions.LaserPass(g, []);
    assert g1 == g;
    var pass := Collisions.ShotPass([], g1);
    assert pass.1 == g;
  }

  /** A hit target stays spent in its slot for the rest of the session: only a new game
      (the start button, or a tap once the game is over) clears it. */
  lemma {:induction false} SpentTargetStays(g: Game, e: Event)
    requires Inv(g) && g.bonus.Some? && !g.bonus.value.active
    requires !e.StartPressed? && !(e.Tap? && !g.active)
    ensures Step(g, e).bonus == g.bonus
  {
    if e.Frame? && g.phase == Playing {
      var m := EnemyTurn(Upkeep(g, e.luck), e.luck.firing);
      assert m == Motion(g, e.luck) && m.bonus == g.bonus;
    }
  }

  /** An enemy shot that the opening frame could produce is far above the ship. */
  lemma NoneLand(shots: seq<EnemyShot>, x: int)
    requires forall i :: 0 <= i < |shots| ==> shots[i].y <= 300
    ensures Collisions.Landed(shots, x) == 0
    ensures Collisions.Missed(shots, x) == shots
    decreases |shots|
  {
    if |shots| > 0 {
      NoneLand(shots[1..], x);
    }
  }

  /** The first frame of a new game: the game is under way at level 1 with a score of 0,
      three lives, the full grid standing and the default weapon, whatever the random
      draws of that frame. */
  lemma {:induction false} NewGameOpening(s: Game, now: int, luck: Luck)
    requires s.phase == Playing && s.score == 0 && s.lives == 3 && s.level == 1
    requires s.shots == [] && s.enemyShots == [] && s.bonus.None? && s.bonusTimer == 0.0
    requires s.enemies == Formation.EnemyGrid() && s.ship.weapon == Single
    requires s.marchDir == 1 || s.marchDir == -1
    ensures var r := PlayFrame(s, now, luck);
      && r.phase == Playing && r.score == 0 && r.lives == 3 && r.level == 1
      && |r.enemies| == 24 && (forall i :: 0 <= i < 24 ==> r.enemies[i].alive)
      && r.shots == [] && r.bonus.None? && r.ship.weapon == Single
  {
    var m := Motion(s, luck);
    OpeningMotion(s, luck);
    NoneLand(m.enemyShots, m.ship.x);
    CollisionsWithoutShots(m);
    var c := Collisions.CheckCollisions(m);
    assert c.bonus.None? && c.lives == 3 && c.enemies == m.enemies;
    assert !AllDown(c.enemies) by {
      assert c.enemies[0].alive;
    }
    assert !Breached(c.enemies) by {
      forall i | 0 <= i < |c.enemies| ensures !Overrun(c.enemies[i]) {
        assert c.enemies[i].y <= 230;
      }
    }
  }

  /** The movement of a new game's first frame: nothing is fired or spawned yet, the grid
      is still standing no lower than y = 230, and every enemy shot is above y = 300. */
  lemma {:induction false} OpeningMotion(s: Game, luck: Luck)
    requires s.phase == Playing && s.score == 0 && s.lives == 3 && s.level == 1
    requires s.shots == [] && s.enemyShots == [] && s.bonus.None? && s.bonusTimer == 0.0
    requires s.enemies == Formation.EnemyGrid() && s.ship.weapon == Single
    ensures var m := Motion(s, luck);
      && m.phase == Playing && m.score == 0 && m.lives == 3 && m.level == 1
      && m.shots == [] && m.bonus.None? && m.ship.weapon == Single
      && |m.enemies| == 24
      && (forall i :: 0 <= i < 24 ==> m.enemies[i].alive && m.enemies[i].y <= 230)
      && (forall k :: 0 <= k < |m.enemyShots| ==> m.enemyShots[k].y <= 300)
  {
    var u := Upkeep(s, luck);
    assert u.enemies == s.enemies && u.enemyShots == [] && u.shots == [] && u.bonus.None?;
    forall i | 0 <= i < |u.enemies| ensures u.enemies[i].y <= 200 {
      assert i / 6 <= 3;
    }
    var m := EnemyTurn(u, luck.firing);
    assert m == Motion(s, luck);
    EnemyShotsStayHigh(u, luck.firing);
  }

  /** From a grid no lower than y = 200 and no enemy shots yet, a turn leaves every enemy
      shot above y = 300. */
  lemma {:induction false} EnemyShotsStayHigh(g: Game, firing: set<int>)
    requires g.enemyShots == []
    requires forall i :: 0 <= i < |g.enemies| ==> g.enemies[i].y <= 200
    ensures forall k :: 0 <= k < |EnemyTurn(g, firing).enemyShots| ==> EnemyTurn(g, firing).enemyShots[k].y <= 300
  {
    var m := Formation.March(g.enemies, g.marchDir);
    var volley := Formation.Volley(m.0, firing);
    VolleyBelow(m.0, firing, 230);
    assert g.enemyShots + volley == volley;
    FallBelow(volley, 265);
  }

  lemma VolleyBelow(es: seq<Enemy>, firing: set<int>, h: int)
    requires forall i :: 0 <= i < |es| ==> es[i].y <= h
    ensures forall k :: 0 <= k < |Formation.Volley(es, firing)| ==> Formation.Volley(es, firing)[k].y <= h + EnemyHeight
  {
    var volley := Formation.Volley(es, firing);
    forall k | 0 <= k < |volley| ensures volley[k].y <= h + EnemyHeight {
      assert volley[k] in volley;
      var j :| 0 <= j < |es| && es[j].alive && j in firing && volley[k] == Formation.Muzzle(es[j]);
    }
  }

  lemma FallBelow(shots: seq<EnemyShot>, h: int)
    requires forall k :: 0 <= k < |shots| ==> shots[k].y <= h
    ensures forall k :: 0 <= k < |Projectiles.AdvanceEnemyShots(shots)| ==>
      Projectiles.AdvanceEnemyShots(shots)[k].y <= h + EnemyShotSpeed
  {
  }

  /** A new game, from any state with a march direction, is under way at level 1 with a
      score of 0, three lives and the full grid standing after its first frame. */
  lemma {:induction false} NewGameStartsFresh(g: Game, now: int, luck: Luck)
    requires g.marchDir == 1 || g.marchDir == -1
    ensures var r := InitGame(g, now, luck);
      && r.phase == Playing && r.score == 0 && r.lives == 3 && r.level == 1
      && |r.enemies| == 24 && (forall i :: 0 <= i < 24 ==> r.enemies[i].alive)
      && r.shots == [] && r.bonus.None? && r.ship.weapon == Single
  {
    var s := ResetSession(g);
    assert InitGame(g, now, luck) == PlayFrame(s, now, luck);
    NewGameOpening(s, now, luck);
  }
}
