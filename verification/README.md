# Arcade shooter simulation core, in Dafny

This project models the simulation layer of the browser arcade shooter in `game_1981/game.js`:

- the 4 × 6 enemy grid and its lock-step march;
- the player ship, steered by keys, mouse or touch;
- the five weapons, with their firing patterns, cooldown, bonus upgrade and countdown;
- player and enemy projectiles;
- the bonus target: its spawn paths, its flight and its one slot;
- collision resolution in the source's fixed order;
- the session state machine: title, playing, level complete, game over;
- the colour helper `hexToRgb`.

The whole game is one immutable `Game` record (`entities.dfy`). Every rule is a pure function over it. Every outside stimulus is one case of `Session.Event`: an animation frame, a key, pointer movement, a click or touch, the start button, a bonus-spawn timer callback, or the level-complete backup timer. `Session.Step` applies one event.

Modelling choices:

- Clock readings (`Date.now()`) are integer `now` parameters.
- `Math.random` draws are passed in:
  - `Roll` values in [0, 1) for the bonus side and drop;
  - a set of enemy indices for "the enemies whose firing roll came up this frame".
- Horizontal positions are integers. A shot's horizontal velocity is stored as its per-frame drift, which is `vx` × 10 ∈ {0, ±5, ±10}.
- The ship's row is 800 / 1.3. The title screen sets it and nothing resets it. It is the exact rational `PlayerY`, so a player shot's height is a `real`.
- The 16.67 ms frame step of the bonus timer and the weapon countdown is exact `real` arithmetic.
- `initGame` runs one game-loop pass synchronously, so `InitGame` is `Tick` after `ResetSession`.
- The enemy march direction is never reset by a new game or a new level, so it lives in the record.
- The level-complete backup timer is the flag `backupArmed`. It is armed when a level is cleared. It is spent when it fires, by the start button, by a frame while the countdown is still running, or when the next level starts.

Files:

- `entities.dfy`: data model and constants.
- `controls.dfy`: steering.
- `weapons.dfy`: weapons.
- `formation.dfy`: the enemy grid.
- `projectiles.dfy`: projectile motion.
- `bonus.dfy`: the bonus target.
- `collisions.dfy`: collision passes.
- `session.dfy`: the state machine and its invariant.
- `palette.dfy`: `hexToRgb`.

## Model

| member | source | states |
|---|---|---|
| Controls.MoveLeft | game_1981/game.js:2192-2193 | A left step moves the ship 8 left when that stays at or right of x = 25, and otherwise stops exactly at 25; from an on-field x the result is on the field |
| Controls.MoveRight | game_1981/game.js:2194-2195 | A right step moves 8 right when that stays at or left of x = 575, and otherwise stops exactly at 575; from an on-field x the result is on the field |
| Controls.MoveTo | game_1981/game.js:2205-2212 | The pointer clamp lands in [25, 575] from any input, is the identity on that range, and saturates at each end |
| Controls.Classify | game_1981/game.js:2192-2200 | Left arrow or `a` steers left, right arrow or `d` steers right, space or up arrow fires, and no other key does any of these (each an if-and-only-if) |
| Controls.SteeringStaysOnField | game_1981/game.js:2188-2212 | Any sequence of key steps and pointer moves keeps an on-field ship on the field |
| Controls.PointerClampIsStable | game_1981/game.js:2371-2381 | The pointer clamp is idempotent and monotone |
| Weapons.Pattern | game_1981/game.js:2115-2182 | One trigger pull appends 1, 2, 3, 1 or 5 shots for single, double, triple, laser or spread, each of the weapon's own kind |
| Weapons.PatternTable | game_1981/game.js:2115-2182 | Single fires one shot at the nose. Double fires at x ± 15 from the nose. Triple fires drifts 0, −5, +5 (vx 0, −0.5, +0.5): the middle shot at the nose, the side shots at x − 15 and x + 15, 10 below the nose. Laser fires at y = 0 with life 30. Spread fires drifts −10..10 in steps of 5 (vx −1..1) from the nose |
| Weapons.Fire | game_1981/game.js:2110-2185 | Within 150 ms of the last shot nothing changes. Otherwise the shots become exactly the old shots followed by the current weapon's pattern at the ship's x, and the fire time is recorded |
| Weapons.RapidFireIsThrottled | game_1981/game.js:2111-2112 | Two trigger pulls less than 150 ms apart produce one pattern only |
| Weapons.Upgrade | game_1981/game.js:2043-2045 | Collecting a drop makes it the weapon for 15000 ms and changes nothing else on the ship |
| Weapons.Disarm | game_1981/game.js:1664-1666 | An enemy hit forces the single shot with no time left and changes nothing else on the ship |
| Weapons.Decay | game_1981/game.js:787-841 | A frame of countdown keeps "a special weapon has time left", and a weapon can only change by reverting to the single shot at weapon level 1 with no time left |
| Weapons.UpgradeCountsDown | game_1981/game.js:787-841 | For k < 900 frames after an upgrade the drop is still held with 15000 − 16.67·k ms left |
| Weapons.UpgradeLastsNineHundredFrames | game_1981/game.js:787-841 | An upgrade is held after 899 frames and gone, back to single at level 1, after 900 |
| Weapons.RandomWeapon | game_1981/game.js:949-956 | A random drop is never the single shot |
| Weapons.DropQuarters | game_1981/game.js:949-956 | Each of double, triple, laser and spread is picked on exactly one quarter of the random range |
| Formation.EnemyGrid | game_1981/game.js:443-485 | The grid has 24 alive, unmarked enemies; cell i sits at x = 60 + 60·(i mod 6), y = 50 + 50·(i div 6); the kind comes from the row and health is 2 exactly in row 0 |
| Formation.GridComposition | game_1981/game.js:452-469 | The grid holds 6 bosses, 6 elites and 12 regulars; the bosses are exactly the first six and exactly the ones with health 2 |
| Formation.EdgeReached | game_1981/game.js:1228-1237 | The shared edge test fires if and only if some alive enemy is at the edge it is heading for; dead enemies are ignored |
| Formation.March | game_1981/game.js:1223-1258 | The direction flips if and only if the edge test fires. Dead enemies are untouched. Every alive enemy moves one step in the new direction and drops 30 exactly when the direction flipped |
| Formation.MarchStaysInField | game_1981/game.js:1228-1249 | A formation whose alive enemies lie within the margins, no more than 300 apart, is still within the margins after a march |
| Formation.MarchKeepsSpacing | game_1981/game.js:1244-1250 | A march keeps the horizontal and vertical offset between any two alive enemies |
| Formation.Animate | game_1981/game.js:1252-1256 | The animation clock changes only the frame and counter, and keeps the frame in 0..3 |
| Formation.Volley | game_1981/game.js:1452-1464 | Every new enemy shot comes from the muzzle of an alive enemy chosen to fire, and every alive chosen enemy fires |
| Formation.VolleyInGridOrder | game_1981/game.js:1452-1464 | The volley is exactly the muzzles of the alive chosen enemies, one each, in grid order |
| Projectiles.AdvanceShot | game_1981/game.js:1080-1113 | A laser keeps its column and loses one life, and is removed exactly when its life was 1 or less. Any other shot moves 10 up and one drift across. A kept shot is on the field and keeps its kind and drift. Any other shot is kept if and only if its new position has y ≥ 0 and 0 ≤ x ≤ 600 |
| Projectiles.AdvanceShots | game_1981/game.js:1079-1114 | Every shot left after a frame is on the field and is the next position of some shot that was there before, and every shot whose next position is kept is there |
| Projectiles.BackwardSpliceKeepsOrder | game_1981/game.js:1079-1114 | The backward walk with splicing gives the same sequence as advancing each shot front to back and dropping the removed ones |
| Projectiles.LaserCountdown | game_1981/game.js:1084-1096 | For k frames below its life, a laser survives at its column with k less life |
| Projectiles.LaserLastsTwentyNineFrames | game_1981/game.js:1084-1096 | A fresh laser is on the field for 29 frame updates and gone after the 30th |
| Projectiles.AdvanceEnemyShots | game_1981/game.js:1467-1476 | Each enemy shot falls 5 and is kept exactly when still on the field; every kept shot is a fallen old one, and every old shot that stays on the field is kept |
| Projectiles.EnemyShotsKeepOrder | game_1981/game.js:1467-1476 | The backward walk with splicing gives the same sequence as letting each enemy shot fall front to back and dropping the ones that left the field |
| BonusSpawner.SpawnBonus | game_1981/game.js:869-906 | A flying target blocks the spawn. Otherwise the only change is a flying target entering off the side chosen by the roll, moving inwards at speed 2 + min(level − 1, 3), starting at x = −80 on the left or 620 on the right, and carrying exactly the weapon the drop roll picks |
| BonusSpawner.MoveBonus | game_1981/game.js:845-866 | A flying target moves by direction × speed (speed 2 when unset). It leaves the slot, priming the timer at 5000, if and only if the moved target is past the far side |
| BonusSpawner.TimerStep | game_1981/game.js:566-578 | The timer advances one frame; a spawn happens if and only if the slot is empty and the timer has reached 7000, and then the timer restarts at 0 |
| BonusSpawner.SpawnTimerFired | game_1981/game.js:426-439 | A spawn callback acts only while playing with an empty slot, and then only fills the slot |
| BonusSpawner.SpawnCallbacksNeverStack | game_1981/game.js:426-439 | A second spawn callback right after a first one changes nothing |
| BonusSpawner.SpentTargetBlocksSpawns | game_1981/game.js:426-439 | A hit target left in the slot blocks both callbacks, the frame timer and the flight |
| BonusSpawner.FlightIsSteady | game_1981/game.js:845-852 | Until it passes the far edge, k frames move a right-bound target k·speed to the right |
| BonusSpawner.LevelOneCrossing | game_1981/game.js:845-866 | A level-1 target entering from the left is still flying after 365 frames and gone, with the timer primed, after 366 |
| Collisions.HitBonus | game_1981/game.js:1576-1594 | A target hit spends the target, adds 150 + 50·(level − 1) points and gives its drop as the weapon |
| Collisions.LaserStrike | game_1981/game.js:1519-1539 | One beam's effect on one enemy never moves it, changes its kind, revives it, raises its health or clears its mark |
| Collisions.LaserSweep | game_1981/game.js:1518-1541 | A beam treats each enemy independently, and the points it scores are exactly the kill scores of the enemies it destroyed |
| Collisions.BeamStep | game_1981/game.js:1517-1562 | One beam changes only grid, score, target and weapon, and the score rises by exactly its kills plus the target if it hit it. A beam over the flying target spends it and hands its drop to the ship; otherwise target and ship are untouched |
| Collisions.LaserPass | game_1981/game.js:1512-1563 | The laser pass, over all beams, keeps the same accounting: score rises by exactly the kills and the at-most-one target hit. The target is spent, with its drop handed to the ship, if and only if some beam is over it |
| Collisions.LaserPassEffect | game_1981/game.js:1514-1563 | For an enemy with 1 or 2 health, any number of beams over it does exactly what one beam does: a second hit point is taken and the enemy marked; an unmarked last hit point is killed; a marked one is spared |
| Collisions.LaserImmunity | game_1981/game.js:1524-1539 | A marked enemy on its last hit point is untouched by any laser pass |
| Collisions.LaserPassIdempotent | game_1981/game.js:1514-1563 | Running the laser pass twice on the same beams damages nobody a second time |
| Collisions.FirstHitFrom | game_1981/game.js:1605-1645 | The search returns the first alive enemy, from a given index on, whose box strictly holds the shot, or reports that there is none |
| Collisions.Wound | game_1981/game.js:1614-1642 | A hit enemy with health above 1 loses exactly 1 and stays alive; otherwise it dies and its kill score (30, 20, 10) is added; nobody else changes |
| Collisions.BulletStrike | game_1981/game.js:1572-1646 | A shot is checked against the flying target first; otherwise it is consumed if and only if an alive enemy holds it, and only the first such enemy is wounded |
| Collisions.BulletHitsFirstEnemyOnly | game_1981/game.js:1605-1645 | Without the search: a shot that misses the target is consumed exactly when some alive enemy's box holds it, and then only the first in grid order is affected |
| Collisions.Strike | game_1981/game.js:1568-1646 | One shot of the ordinary pass. A laser is skipped and consumes nothing. Any other shot is consumed if and only if the flying target or an alive enemy holds it. An unconsumed shot leaves the game unchanged. A consumed one does exactly one unit of damage: one hit point taken, one enemy killed or the target spent. Either way the step is an accounted pass |
| Collisions.ShotPass | game_1981/game.js:1567-1647 | The backward pass over ordinary shots changes only grid, score, target and weapon, with exact accounting. The survivors are the original shots with the consumed ones removed, in order. Every laser is kept, and so is every ordinary shot that neither the flying target nor any alive enemy holds. The number of shots consumed equals the damage done: hit points taken, plus enemies killed, plus 1 if the target was spent. The first held shot the backward walk reaches is always consumed |
| Collisions.ShotPassTurn | game_1981/game.js:1567-1647 | Shot j survives the pass exactly when it is spared by the game left after the shots behind it in the list have had their turn |
| Collisions.ShieldPass | game_1981/game.js:1651-1674 | Exactly the enemy shots inside the ship's box are removed. Lives fall by their number. Any hit forces the single shot with no time left. No hit changes nothing |
| Collisions.ShotStage | game_1981/game.js:1512-1647 | The laser pass, then the ordinary-shot pass. Apart from the shots, it is an accounted pass. The shots keep every beam and lose only consumed ordinary shots, in order. After the laser pass, the shots lost equal the damage the ordinary pass does, and the first held shot it meets is lost |
| Collisions.ShieldStage | game_1981/game.js:1650-1674 | The enemy-shot pass leaves the shots that missed, takes one life per landed shot, disarms the ship on any landing, and changes nothing else |
| Collisions.CheckCollisions | game_1981/game.js:1512-1675 | Over the three passes, no enemy moves or revives. Score rises by exactly the kill scores of the enemies destroyed, plus the target if hit. Lives fall by exactly the enemy shots that landed, and those shots are removed. The player's shots lose only consumed ordinary shots, in order: lasers, and shots that no target or alive enemy holds at the start, stay. The number of player shots lost equals the damage done after the laser pass (hit points, kills and a spent target). The first shot still held after the laser pass that the ordinary pass meets is removed |
| Session.ResetSession | game_1981/game.js:377-399 | A new game resets score, lives, level, flags, projectiles, ship position, weapon, bonus slot and grid. It keeps the march direction, fire clock, countdown length and a pending backup timer |
| Session.InitGame | game_1981/game.js:377-440 | With a march direction of ±1, a new game after its synchronous first frame is playing at level 1 with score 0, three lives, 24 standing enemies, no player shots, an empty bonus slot and the single shot |
| Session.CheckGameOver | game_1981/game.js:1952-2040 | A cleared grid while playing completes the level (+100·level, level + 1, 3000 ms countdown, backup armed) whatever the lives. Otherwise the game ends if and only if lives ≤ 0 or an alive enemy's bottom passes the ship's top. The grid is never rebuilt |
| Session.EmptyGridRepairIsDead | game_1981/game.js:1954-1996 | An empty grid while playing completes the level, so the repair branch never runs |
| Session.StartNextLevel | game_1981/game.js:1905-1941 | The next level starts with a fresh grid, no projectiles and the ship centred. Score, lives, level, weapon and bonus slot carry over |
| Session.CountdownCondition | game_1981/game.js:514-523 | The rounded-up countdown is ≤ 0 exactly when the elapsed time has reached the duration |
| Session.CountdownReadsThreeTwoOne | game_1981/game.js:514-516 | On the 3000 ms screen the countdown reads 3 − ⌊elapsed / 1000⌋ |
| Session.Upkeep | game_1981/game.js:563-591 | The upgrade countdown, bonus timer, flight and player shots keep the ship's position and the weapon invariant. A spent target stays, a well-formed slot stays well formed, and every remaining shot is on the field |
| Session.EnemyTurn | game_1981/game.js:595-602 | The march, volley and enemy-shot fall keep each enemy's life, health, kind and mark and the field bound; no enemy rises or drops more than 30 |
| Session.Tick | game_1981/game.js:498-616 | Game over and the title screen are frozen. On the level-complete screen the frame starts play if and only if the full duration has elapsed, and otherwise only cancels the backup timer |
| Session.BackupTimerFired | game_1981/game.js:1981-1988 | A pending backup timer starts the next level only if the level-complete screen is still up; it is spent either way |
| Session.Touch | game_1981/game.js:2215-2225 | A click starts a new game when neither active nor showing the level-complete screen, fires when active, and is ignored otherwise |
| Session.KeyDown | game_1981/game.js:2188-2202 | Keys are ignored unless active. A left key sets the ship to `MoveLeft` of its x, and a right key to `MoveRight`, changing nothing else. Fire keys fire |
| Session.PointerMove | game_1981/game.js:2205-2213 | Pointer movement is ignored unless active. Otherwise the ship's x becomes `MoveTo` of the pointer, and nothing else changes |
| Session.StepKeepsInv | game_1981/game.js:498-616 | Every event keeps the session invariant. The flags agree with the phase, and the backup is pending only on the level-complete screen. A game in play has 24 enemies with someone standing, within the margins, each with 1–2 health. The ship is on the field and the slot is well formed |
| Session.StartButtonOpens | game_1981/game.js:2228-2256 | From any state with a march direction of ±1, the start button leads to a game in play that satisfies the invariant, whatever screen it was pressed on |
| Session.StartButton | game_1981/game.js:2228-2257 | From any screen, with a march direction of ±1, the start button gives a fresh game in play: level 1, score 0, three lives, 24 standing enemies, no player shots, an empty bonus slot and the single shot |
| Session.RunKeepsInv | game_1981/game.js:377-440 | Any sequence of events keeps the invariant |
| Session.PlayFrameKeepsInv | game_1981/game.js:556-613 | A playing frame keeps the invariant |
| Session.IdleScreensWait | game_1981/game.js:500-504 | On the title and game-over screens, everything except a click, touch or the start button leaves the whole state unchanged |
| Session.LevelCompleteExits | game_1981/game.js:516-541 | The level-complete screen is left only by a frame after the full duration, by the pending backup timer, or by the start button, and always into play |
| Session.CountdownCancelsBackup | game_1981/game.js:1843-1849 | A countdown frame before the end cancels the backup timer, so a later backup callback does nothing |
| Session.NextLevelAfterCountdown | game_1981/game.js:523-541 | At the end of the countdown the next level starts with level, score, lives, weapon and bonus slot carried over, a fresh grid and no projectiles |
| Session.ClearingTheGridCompletesTheLevel | game_1981/game.js:1954-1990 | A frame that leaves no enemy alive completes the level (+100·level, level + 1, backup armed) even if lives have run out in the same frame |
| Session.NoLivesEndsTheGame | game_1981/game.js:2001-2005 | With no lives left and no player shot in the air, the next playing frame ends the game |
| Session.SpentTargetStays | game_1981/game.js:1545-1549 | A hit target stays spent in its slot through every event except a new game |
| Session.CollisionsWithoutShots | game_1981/game.js:1512-1647 | With no player shots in the air the collision passes change neither the grid nor the score |
| Session.NewGameOpening | game_1981/game.js:377-616 | The first frame of a new game leaves it playing at level 1 with score 0, three lives, all 24 enemies standing and the single shot, whatever the random draws |
| Session.NewGameStartsFresh | game_1981/game.js:377-440 | From any state with a march direction of ±1 a new game, after its first frame, is at level 1 with score 0, three lives and the full grid |
| Palette.Channels | game_1981/game.js:1731-1735 | A colour matches if and only if, after the shorthand rewrite and an optional `#`, six hex digits remain; the channels are then in 0..255 |
| Palette.Decimal | game_1981/game.js:1736-1738 | A channel is written as a canonical decimal: non-empty, all digits, no leading zero unless it is "0". The digits read back as the channel |
| Palette.CanonicalIsDecimal | game_1981/game.js:1736-1738 | Every canonical decimal is the decimal of the number it reads as, so the written form is unique |
| Palette.Join | game_1981/game.js:1736-1738 | The text has exactly three comma-separated fields. Each field is a canonical decimal and reads back as red, green and blue in turn |
| Palette.HexToRgb | game_1981/game.js:1731-1739 | A colour that does not match becomes "255,255,255". One that does becomes three comma-separated canonical decimal fields that read back as its channels |
| Palette.HexRoundTrip | game_1981/game.js:1731-1739 | Writing a colour as `#rrggbb` (or without `#`) and reading it gives the colour back |
| Palette.ShorthandDoubles | game_1981/game.js:1732-1733 | `#rgb` reads the same as `#rrggbb`, so each channel is 17 × its digit |
| Palette.OtherLengthsAreWhite | game_1981/game.js:1731-1739 | A colour whose digits number neither 3 nor 6 is white |
| Palette.NonHexIsWhite | game_1981/game.js:1731-1739 | A colour containing a non-hex character after the optional `#` is white |

## Left out

- Drawing, including the enemy, ship, bonus-target and countdown rendering, the stars, the canvas and the DOM score, lives and level displays. It is presentation only. Bonus-target animation counters live in the drawing routine and are left out with it.
- Audio: sound effects, background and victory music, and the video player. These are foreign fire-and-forget calls.
- Explosion and hit particles. They are floating-point presentation driven by their own random draws.
- Real-time scheduling. Animation frames and timers become `Session.Event` cases delivered one at a time. The spawn intervals that pile up with each new game are modelled as any number of spawn callbacks. The uncleared 3.5 s backup timer is the single flag `backupArmed`.
- Floating-point rounding of 16.67 ms steps and of 800 / 1.3. Both are exact rationals here.
- Canvas resizing and the pixel scaling of pointer coordinates. The pointer arrives as an integer field position, so fractional positions are not modelled.
- The title screen's demo target. Its only lasting effect is the ship row, which is the constant `PlayerY`.
- The `lifeTime === undefined` branch of the laser update. Every laser is fired with life 30, so the branch cannot run.
- The `remainingSeconds <= 0` branch of the level-complete drawing routine. The game loop starts the next level before ever calling it with such a value.
- `game_1981/serve.py`, a static file server. It is pure I/O.
- The debugging spawn one second after page load. It calls the spawn routine with no phase check. On the title screen the target it creates is wiped by the reset of the next game. If play has already begun, the slot is still empty, because the first guarded spawn comes three seconds after the start, so it acts like a `SpawnCheck` event.
- The `canShoot` flag. It is never set to false, so the cooldown is the only fire gate.
- Session.InitGame and Session.StartButton: the fresh-game clause is stated for a march direction of 1 or −1. The source starts it at 1 and only ever negates it, and `Session.Inv` keeps it so.
