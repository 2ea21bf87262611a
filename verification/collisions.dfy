/** Collision resolution for one frame, in its fixed order: the laser pass, then every
    other player shot from the last to the first (bonus target before enemies, first alive
    enemy in grid order wins), then enemy shots against the ship. */
module Collisions {
  import opened Entities
  import Weapons
  import BonusSpawner

  // ---------------------------------------------------------------------------------
  // Bookkeeping shared by the passes

  /** What a collision pass may do to the grid: nobody moves, changes kind or is revived,
      health never rises, and an enemy that stays alive with less health has at least 1. */
  predicate Successor(before: seq<Enemy>, after: seq<Enemy>) {
    && |before| == |after|
    && forall i :: 0 <= i < |before| ==>
      && after[i].x == before[i].x && after[i].y == before[i].y
      && after[i].kind == before[i].kind
      && after[i].frame == before[i].frame && after[i].counter == before[i].counter
      && (after[i].alive ==> before[i].alive)
      && after[i].health <= before[i].health
      && (after[i].alive ==> after[i].health >= 1 || after[i].health == before[i].health)
      && (before[i].hitByLaser ==> after[i].hitByLaser)
  }

  /** Points owed for the enemies alive in `before` and dead in `after`. */
  function KillPoints(before: seq<Enemy>, after: seq<Enemy>): (p: int)
    requires |before| == |after|
    ensures p >= 0
    decreases |before|
  {
    if |before| == 0 then 0
    else (if before[0].alive && !after[0].alive then KillScore(before[0].kind) else 0)
         + KillPoints(before[1..], after[1..])
  }

  lemma {:induction false} SuccessorChain(a: seq<Enemy>, b: seq<Enemy>, c: seq<Enemy>)
    requires Successor(a, b) && Successor(b, c)
    ensures Successor(a, c)
    ensures KillPoints(a, c) == KillPoints(a, b) + KillPoints(b, c)
    decreases |a|
  {
    if |a| > 0 {
      SuccessorChain(a[1..], b[1..], c[1..]);
    }
  }

  lemma {:induction false} KillPointsUnchanged(es: seq<Enemy>)
    ensures KillPoints(es, es) == 0
    decreases |es|
  {
    if |es| > 0 {
      KillPointsUnchanged(es[1..]);
    }
  }

  lemma {:induction false} KillPointsUpdate(es: seq<Enemy>, j: int, e: Enemy)
    requires 0 <= j < |es|
    ensures KillPoints(es, es[j := e]) == if es[j].alive && !e.alive then KillScore(es[j].kind) else 0
    decreases |es|
  {
    var es' := es[j := e];
    if j == 0 {
      assert es'[1..] == es[1..];
      KillPointsUnchanged(es[1..]);
    } else {
      assert es'[1..] == es[1..][j - 1 := e];
      KillPointsUpdate(es[1..], j - 1, e);
    }
  }

  /** The hits the grid took between two states: every hit point lost, plus one for every
      enemy destroyed. */
  function Hits(before: seq<Enemy>, after: seq<Enemy>): int
    requires |before| == |after|
    decreases |before|
  {
    if |before| == 0 then 0
    else (before[0].health - after[0].health) + (if before[0].alive && !after[0].alive then 1 else 0)
         + Hits(before[1..], after[1..])
  }

  lemma {:induction false} HitsUnchanged(es: seq<Enemy>)
    ensures Hits(es, es) == 0
    decreases |es|
  {
    if |es| > 0 {
      HitsUnchanged(es[1..]);
    }
  }

  lemma {:induction false} HitsUpdate(es: seq<Enemy>, j: int, e: Enemy)
    requires 0 <= j < |es|
    ensures Hits(es, es[j := e]) == (es[j].health - e.health) + (if es[j].alive && !e.alive then 1 else 0)
    decreases |es|
  {
    var es' := es[j := e];
    if j == 0 {
      assert es'[1..] == es[1..];
      HitsUnchanged(es[1..]);
    } else {
      assert es'[1..] == es[1..][j - 1 := e];
      HitsUpdate(es[1..], j - 1, e);
    }
  }

  lemma {:induction false} HitsChain(a: seq<Enemy>, b: seq<Enemy>, c: seq<Enemy>)
    requires Successor(a, b) && Successor(b, c)
    ensures Hits(a, c) == Hits(a, b) + Hits(b, c)
    decreases |a|
  {
    if |a| > 0 {
      HitsChain(a[1..], b[1..], c[1..]);
    }
  }

  /** Alive enemies have one or two hit points. */
  predicate Healthy(es: seq<Enemy>) {
    forall i :: 0 <= i < |es| && es[i].alive ==> 1 <= es[i].health <= 2
  }

  lemma SuccessorKeepsHealthy(a: seq<Enemy>, b: seq<Enemy>)
    requires Healthy(a) && Successor(a, b)
    ensures Healthy(b)
  {
  }

  /** What a pass may do to the bonus slot: leave it, or mark the flying target spent. */
  predicate BonusAfter(before: Option<Bonus>, after: Option<Bonus>) {
    after == before || (BonusSpawner.Flying(before) && after == Some(before.value.(active := false)))
  }

  /** Points owed for a target that was flying before and is spent after. */
  function BonusGain(before: Option<Bonus>, after: Option<Bonus>, level: int): int {
    if BonusSpawner.Flying(before) && after.Some? && !after.value.active then BonusPoints(level) else 0
  }

  lemma BonusChain(a: Option<Bonus>, b: Option<Bonus>, c: Option<Bonus>, level: int)
    requires BonusAfter(a, b) && BonusAfter(b, c)
    ensures BonusAfter(a, c)
    ensures BonusGain(a, c, level) == BonusGain(a, b, level) + BonusGain(b, c, level)
  {
  }

  /** The bonus-target hit shared by both passes: the target is spent, its points are
      awarded at the current level, and its drop becomes the ship's weapon. */
  function HitBonus(g: Game): (r: Game)
    requires BonusSpawner.Flying(g.bonus)
    ensures !BonusSpawner.Flying(r.bonus) && BonusAfter(g.bonus, r.bonus)
    ensures r.score == g.score + BonusPoints(g.level)
    ensures r.ship == Weapons.Upgrade(g.ship, g.bonus.value.drop)
    ensures r == g.(bonus := r.bonus, score := r.score, ship := r.ship)
  {
    var b := g.bonus.value;
    g.(bonus := Some(b.(active := false)), score := g.score + BonusPoints(g.level),
       ship := Weapons.Upgrade(g.ship, b.drop))
  }

  /** A collision pass changed only the grid, the score, the bonus slot and the weapon,
      and the score moved by exactly the kills and the bonus it caused. */
  predicate Accounted(g: Game, r: Game) {
    && Successor(g.enemies, r.enemies)
    && BonusAfter(g.bonus, r.bonus)
    && r.score == g.score + KillPoints(g.enemies, r.enemies) + BonusGain(g.bonus, r.bonus, g.level)
    && (r.ship == g.ship || (g.bonus.Some? && r.ship == Weapons.Upgrade(g.ship, g.bonus.value.drop)))
    && (r.ship != g.ship ==> BonusSpawner.Flying(g.bonus) && !BonusSpawner.Flying(r.bonus))
    && r == g.(enemies := r.enemies, score := r.score, bonus := r.bonus, ship := r.ship)
  }

  /** One if the target was flying before and is not after. */
  function TargetHit(before: Option<Bonus>, after: Option<Bonus>): int {
    if BonusSpawner.Flying(before) && !BonusSpawner.Flying(after) then 1 else 0
  }

  /** Everything a collision pass hit: the grid's hits plus the target. */
  function Damage(g: Game, h: Game): int
    requires |g.enemies| == |h.enemies|
  {
    Hits(g.enemies, h.enemies) + TargetHit(g.bonus, h.bonus)
  }

  lemma DamageChain(a: Game, b: Game, c: Game)
    requires Accounted(a, b) && Accounted(b, c)
    ensures |a.enemies| == |c.enemies|
    ensures Damage(a, c) == Damage(a, b) + Damage(b, c)
  {
    HitsChain(a.enemies, b.enemies, c.enemies);
  }

  lemma AccountedRefl(g: Game)
    ensures Accounted(g, g)
  {
    KillPointsUnchanged(g.enemies);
  }

  lemma AccountedChain(a: Game, b: Game, c: Game)
    requires Accounted(a, b) && Accounted(b, c)
    ensures Accounted(a, c)
  {
    SuccessorChain(a.enemies, b.enemies, c.enemies);
    BonusChain(a.bonus, b.bonus, c.bonus, a.level);
  }

  // ---------------------------------------------------------------------------------
  // Laser pass

  /** The beam's horizontal span overlaps the enemy's; height is not consulted. */
  predicate InBeam(e: Enemy, lx: int) {
    lx + Weapons.LaserWidth / 2 > e.x && lx - Weapons.LaserWidth / 2 < e.x + EnemyWidth
  }

  /** What a beam does to an alive enemy in its span: a second hit point is taken and the
      enemy marked; a last hit point kills it only if it was never marked; a marked enemy
      on its last hit point is left alone. */
  function Struck(e: Enemy): Enemy {
    if e.health > 1 then e.(health := e.health - 1, hitByLaser := true)
    else if !e.hitByLaser then e.(alive := false, hitByLaser := true)
    else e
  }

  function LaserStrike(e: Enemy, lx: int): (r: Enemy)
    ensures Successor([e], [r])
  {
    if e.alive && InBeam(e, lx) then Struck(e) else e
  }

  /** One beam swept over the grid in order; returns the grid and the kill points scored. */
  function LaserSweep(es: seq<Enemy>, lx: int): (r: (seq<Enemy>, int))
    ensures |r.0| == |es|
    ensures forall i :: 0 <= i < |es| ==> r.0[i] == LaserStrike(es[i], lx)
    ensures Successor(es, r.0)
    ensures r.1 == KillPoints(es, r.0)
    decreases |es|
  {
    if |es| == 0 then ([], 0)
    else
      var e := es[0];
      var gain := if e.alive && InBeam(e, lx) && !(e.health > 1) && !e.hitByLaser then KillScore(e.kind) else 0;
      var rest := LaserSweep(es[1..], lx);
      var out := [LaserStrike(e, lx)] + rest.0;
      assert out[1..] == rest.0;
      assert Successor([e], [LaserStrike(e, lx)]);
      assert forall i :: 1 <= i < |es| ==> out[i] == rest.0[i - 1] && es[i] == es[1..][i - 1];
      (out, gain + rest.1)
  }

  /** The beam's span overlaps the flying target's. */
  predicate BeamHitsBonus(o: Option<Bonus>, lx: int) {
    BonusSpawner.Flying(o)
    && lx + Weapons.LaserWidth / 2 > o.value.x && lx - Weapons.LaserWidth / 2 < o.value.x + BonusWidth
  }

  /** One beam: it sweeps the grid, then tests the flying target. */
  function BeamStep(g: Game, lx: int): (r: Game)
    ensures Accounted(g, r) && r.level == g.level && r.lives == g.lives
    ensures |r.enemies| == |g.enemies|
    ensures forall i :: 0 <= i < |g.enemies| ==> r.enemies[i] == LaserStrike(g.enemies[i], lx)
    ensures BeamHitsBonus(g.bonus, lx) ==>
      r.bonus == Some(g.bonus.value.(active := false)) && r.ship == Weapons.Upgrade(g.ship, g.bonus.value.drop)
    ensures !BeamHitsBonus(g.bonus, lx) ==> r.bonus == g.bonus && r.ship == g.ship
  {
    var sweep := LaserSweep(g.enemies, lx);
    var g1 := g.(enemies := sweep.0, score := g.score + sweep.1);
    var g2 := if BeamHitsBonus(g1.bonus, lx) then HitBonus(g1) else g1;
    assert Accounted(g, g1) by {
      assert BonusGain(g.bonus, g1.bonus, g.level) == 0;
    }
    assert Accounted(g1, g2) by {
      KillPointsUnchanged(g1.enemies);
    }
    AccountedChain(g, g1, g2);
    g2
  }

  /** Some beam's span overlaps the flying target. */
  predicate AnyBeamHitsBonus(o: Option<Bonus>, beams: seq<int>) {
    exists k :: 0 <= k < |beams| && BeamHitsBonus(o, beams[k])
  }

  lemma AnyBeamHitsBonusTail(o: Option<Bonus>, beams: seq<int>)
    requires |beams| > 0 && !BeamHitsBonus(o, beams[0])
    ensures AnyBeamHitsBonus(o, beams) <==> AnyBeamHitsBonus(o, beams[1..])
  {
    if AnyBeamHitsBonus(o, beams) {
      var k :| 0 <= k < |beams| && BeamHitsBonus(o, beams[k]);
      assert beams[1..][k - 1] == beams[k];
    }
    if AnyBeamHitsBonus(o, beams[1..]) {
      var k :| 0 <= k < |beams| - 1 && BeamHitsBonus(o, beams[1..][k]);
      assert BeamHitsBonus(o, beams[k + 1]);
    }
  }

  /** The laser pass: the beams in order, each sweeping the grid and then testing the
      target. The target is spent, and its drop taken, exactly when some beam overlaps
      it; the first such beam does it and the later ones find it spent. */
  function LaserPass(g: Game, beams: seq<int>): (r: Game)
    ensures Accounted(g, r)
    ensures r.level == g.level && r.lives == g.lives
    ensures AnyBeamHitsBonus(g.bonus, beams) ==>
      r.bonus == Some(g.bonus.value.(active := false)) && r.ship == Weapons.Upgrade(g.ship, g.bonus.value.drop)
    ensures !AnyBeamHitsBonus(g.bonus, beams) ==> r.bonus == g.bonus && r.ship == g.ship
    decreases |beams|
  {
    if |beams| == 0 then
      AccountedRefl(g);
      g
    else
      var g1 := BeamStep(g, beams[0]);
      var r := LaserPass(g1, beams[1..]);
      AccountedChain(g, g1, r);
      assert BeamHitsBonus(g.bonus, beams[0]) ==> !AnyBeamHitsBonus(g1.bonus, beams[1..]);
      assert !BeamHitsBonus(g.bonus, beams[0]) ==>
        (AnyBeamHitsBonus(g.bonus, beams) <==> AnyBeamHitsBonus(g1.bonus, beams[1..])) by {
        if !BeamHitsBonus(g.bonus, beams[0]) {
          AnyBeamHitsBonusTail(g.bonus, beams);
        }
      }
      r
  }

  /** The horizontal positions of the laser beams among the player shots, in order. */
  function Beams(shots: seq<Shot>): (r: seq<int>)
    ensures |r| <= |shots|
    decreases |shots|
  {
    if |shots| == 0 then []
    else (if shots[0].kind == Laser then [shots[0].x] else []) + Beams(shots[1..])
  }

  /** Some beam's span overlaps the enemy. */
  predicate AnyBeam(e: Enemy, beams: seq<int>) {
    exists k :: 0 <= k < |beams| && InBeam(e, beams[k])
  }

  lemma StruckSettles(e: Enemy, lx: int)
    requires e.alive ==> 1 <= e.health <= 2
    ensures LaserStrike(Struck(e), lx) == Struck(e)
  {
  }

  lemma AnyBeamTail(e: Enemy, beams: seq<int>)
    requires |beams| > 0 && !(e.alive && InBeam(e, beams[0]))
    ensures e.alive && AnyBeam(e, beams) <==> e.alive && AnyBeam(e, beams[1..])
  {
    if e.alive && AnyBeam(e, beams) {
      var k :| 0 <= k < |beams| && InBeam(e, beams[k]);
      assert k != 0;
      assert beams[1..][k - 1] == beams[k];
    }
    if AnyBeam(e, beams[1..]) {
      var k :| 0 <= k < |beams| - 1 && InBeam(e, beams[1..][k]);
      assert InBeam(e, beams[k + 1]);
    }
  }

  /** With one or two hit points, any number of beams over an alive enemy in one pass do
      exactly what a single beam does; the same holds for a pass run twice. */
  lemma {:induction false} LaserPassEffect(g: Game, beams: seq<int>, i: int)
    requires Healthy(g.enemies) && 0 <= i < |g.enemies|
    ensures var e := g.enemies[i];
      LaserPass(g, beams).enemies[i] == if e.alive && AnyBeam(e, beams) then Struck(e) else e
    decreases |beams|
  {
    if |beams| > 0 {
      var e := g.enemies[i];
      var g1 := BeamStep(g, beams[0]);
      SuccessorKeepsHealthy(g.enemies, g1.enemies);
      LaserPassEffect(g1, beams[1..], i);
      var e1 := g1.enemies[i];
      assert e1 == LaserStrike(e, beams[0]);
      if e.alive && InBeam(e, beams[0]) {
        StruckSettles(e, 0);
        forall lx: int ensures LaserStrike(e1, lx) == e1 {
          StruckSettles(e, lx);
        }
        assert AnyBeam(e, beams);
      } else {
        AnyBeamTail(e, beams);
      }
    }
  }

  /** The source's persistent laser mark: an enemy that a beam has already marked and that
      is down to its last hit point can no longer be harmed by any laser pass. */
  lemma LaserImmunity(g: Game, beams: seq<int>, i: int)
    requires Healthy(g.enemies) && 0 <= i < |g.enemies|
    requires g.enemies[i].alive && g.enemies[i].hitByLaser && g.enemies[i].health <= 1
    ensures LaserPass(g, beams).enemies[i] == g.enemies[i]
  {
    LaserPassEffect(g, beams, i);
  }

  lemma LaserPassIdempotentAt(g: Game, beams: seq<int>, i: int)
    requires Healthy(g.enemies) && 0 <= i < |g.enemies|
    requires Healthy(LaserPass(g, beams).enemies)
    ensures LaserPass(LaserPass(g, beams), beams).enemies[i] == LaserPass(g, beams).enemies[i]
  {
    var g1 := LaserPass(g, beams);
    LaserPassEffect(g, beams, i);
    LaserPassEffect(g1, beams, i);
    var e := g.enemies[i];
    if e.alive && AnyBeam(e, beams) {
      assert g1.enemies[i] == Struck(e);
      assert AnyBeam(g1.enemies[i], beams) by {
        var k :| 0 <= k < |beams| && InBeam(e, beams[k]);
        assert InBeam(g1.enemies[i], beams[k]);
      }
    }
  }

  /** Re-running the laser pass on the same frame damages nobody twice. */
  lemma LaserPassIdempotent(g: Game, beams: seq<int>)
    requires Healthy(g.enemies)
    ensures LaserPass(LaserPass(g, beams), beams).enemies == LaserPass(g, beams).enemies
  {
    var g1 := LaserPass(g, beams);
    SuccessorKeepsHealthy(g.enemies, g1.enemies);
    forall i | 0 <= i < |g.enemies|
      ensures LaserPass(g1, beams).enemies[i] == g1.enemies[i]
    {
      LaserPassIdempotentAt(g, beams, i);
    }
  }

  // ---------------------------------------------------------------------------------
  // Ordinary shots

  /** The shot's point lies strictly inside the enemy's box. */
  predicate Inside(b: Shot, e: Enemy) {
    b.x > e.x && b.x < e.x + EnemyWidth && b.y > e.y as real && b.y < (e.y + EnemyHeight) as real
  }

  /** The shot's point lies strictly inside the target's box. */
  predicate InsideBonus(b: Shot, t: Bonus) {
    b.x > t.x && b.x < t.x + BonusWidth && b.y > t.y as real && b.y < (t.y + BonusHeight) as real
  }

  /** The first alive enemy from index `from` on whose box holds the shot. */
  function FirstHitFrom(es: seq<Enemy>, b: Shot, from: nat): (r: Option<nat>)
    requires from <= |es|
    ensures r.Some? ==> from <= r.value < |es| && es[r.value].alive && Inside(b, es[r.value])
    ensures r.Some? ==> forall k :: from <= k < r.value ==> !(es[k].alive && Inside(b, es[k]))
    ensures r.None? ==> forall k :: from <= k < |es| ==> !(es[k].alive && Inside(b, es[k]))
    decreases |es| - from
  {
    if from == |es| then None
    else if es[from].alive && Inside(b, es[from]) then Some(from)
    else FirstHitFrom(es, b, from + 1)
  }

  /** An ordinary shot lodged in enemy `j`: one hit point off if it has more than one,
      otherwise it is destroyed and its kill score awarded. Nobody else is touched. */
  function Wound(g: Game, j: int): (r: Game)
    requires 0 <= j < |g.enemies|
    ensures |r.enemies| == |g.enemies|
    ensures forall k :: 0 <= k < |g.enemies| && k != j ==> r.enemies[k] == g.enemies[k]
    ensures g.enemies[j].health > 1 ==>
      r.enemies[j] == g.enemies[j].(health := g.enemies[j].health - 1) && r.score == g.score
    ensures g.enemies[j].health <= 1 ==>
      r.enemies[j] == g.enemies[j].(alive := false) && r.score == g.score + KillScore(g.enemies[j].kind)
    ensures r == g.(enemies := r.enemies, score := r.score)
  {
    var e := g.enemies[j];
    if e.health > 1 then g.(enemies := g.enemies[j := e.(health := e.health - 1)])
    else g.(enemies := g.enemies[j := e.(alive := false)], score := g.score + KillScore(e.kind))
  }

  lemma WoundDamage(g: Game, j: int)
    requires 0 <= j < |g.enemies| && g.enemies[j].alive
    ensures Damage(g, Wound(g, j)) == 1
  {
    var r := Wound(g, j);
    assert r.enemies == g.enemies[j := r.enemies[j]];
    HitsUpdate(g.enemies, j, r.enemies[j]);
  }

  lemma WoundAccounted(g: Game, j: int)
    requires 0 <= j < |g.enemies| && g.enemies[j].alive
    ensures Accounted(g, Wound(g, j))
  {
    var r := Wound(g, j);
    assert r.enemies == g.enemies[j := r.enemies[j]];
    KillPointsUpdate(g.enemies, j, r.enemies[j]);
  }

  /** One ordinary shot: the flying target is checked first; otherwise the first alive
      enemy in grid order holding the shot takes it. Returns whether the shot is consumed. */
  function BulletStrike(g: Game, b: Shot): (r: (bool, Game))
    ensures Accounted(g, r.1) && r.1.level == g.level && r.1.lives == g.lives
    ensures !r.0 ==> r.1 == g
    ensures BonusSpawner.Flying(g.bonus) && InsideBonus(b, g.bonus.value) ==> r.0 && r.1 == HitBonus(g)
    ensures !(BonusSpawner.Flying(g.bonus) && InsideBonus(b, g.bonus.value)) ==>
      && (r.0 <==> FirstHitFrom(g.enemies, b, 0).Some?)
      && (r.0 ==> r.1 == Wound(g, FirstHitFrom(g.enemies, b, 0).value))
    ensures b.kind != Laser && Spared(b, g) ==> !r.0
    ensures b.kind != Laser && !Spared(b, g) ==> r.0
    ensures Damage(g, r.1) == if r.0 then 1 else 0
  {
    if BonusSpawner.Flying(g.bonus) && InsideBonus(b, g.bonus.value) then
      var r := HitBonus(g);
      assert Accounted(g, r) by { KillPointsUnchanged(g.enemies); }
      HitsUnchanged(g.enemies);
      (true, r)
    else
      match FirstHitFrom(g.enemies, b, 0)
      case None =>
        AccountedRefl(g);
        HitsUnchanged(g.enemies);
        (false, g)
      case Some(j) =>
        WoundAccounted(g, j);
        WoundDamage(g, j);
        (true, Wound(g, j))
  }

  /** The ordinary-shot rule stated without the search: a shot that misses the flying
      target is consumed exactly when some alive enemy's box holds it, and then only the
      first such enemy in grid order is affected. */
  lemma BulletHitsFirstEnemyOnly(g: Game, b: Shot)
    requires !(BonusSpawner.Flying(g.bonus) && InsideBonus(b, g.bonus.value))
    ensures BulletStrike(g, b).0 <==> exists k :: 0 <= k < |g.enemies| && g.enemies[k].alive && Inside(b, g.enemies[k])
    ensures BulletStrike(g, b).0 ==>
      exists j :: 0 <= j < |g.enemies| && g.enemies[j].alive && Inside(b, g.enemies[j])
        && (forall k :: 0 <= k < j ==> !(g.enemies[k].alive && Inside(b, g.enemies[k])))
        && BulletStrike(g, b).1 == Wound(g, j)
  {
    var f := FirstHitFrom(g.enemies, b, 0);
    if f.Some? {
      assert g.enemies[f.value].alive && Inside(b, g.enemies[f.value]);
    }
  }

  /** A shot that nothing can consume this frame: a laser, or an ordinary shot that
      neither the flying target nor any alive enemy holds. */
  predicate Spared(b: Shot, g: Game) {
    || b.kind == Laser
    || (&& !(BonusSpawner.Flying(g.bonus) && InsideBonus(b, g.bonus.value))
        && forall k :: 0 <= k < |g.enemies| ==> !(g.enemies[k].alive && Inside(b, g.enemies[k])))
  }

  /** Targets only disappear during a pass, so a shot spared at the start stays spared. */
  lemma SparedStaysSpared(b: Shot, g: Game, h: Game)
    requires Accounted(g, h) && Spared(b, g)
    ensures Spared(b, h)
  {
  }

  /** The elements of `s` whose flag in `keep` is set, in order. */
  function Select<T>(s: seq<T>, keep: seq<bool>): (r: seq<T>)
    requires |keep| == |s|
    ensures |r| <= |s|
    decreases |s|
  {
    if |s| == 0 then []
    else Select(s[..|s| - 1], keep[..|s| - 1]) + (if keep[|s| - 1] then [s[|s| - 1]] else [])
  }

  lemma {:induction false} SelectIn<T>(s: seq<T>, keep: seq<bool>)
    requires |keep| == |s|
    ensures forall x :: x in Select(s, keep) ==> x in s
    decreases |s|
  {
    if |s| > 0 {
      SelectIn(s[..|s| - 1], keep[..|s| - 1]);
    }
  }

  lemma BeamsSnoc(s: seq<Shot>, b: Shot)
    ensures Beams(s + [b]) == Beams(s) + (if b.kind == Laser then [b.x] else [])
  {
    BeamsAppend(s, [b]);
    assert Beams([b]) == (if b.kind == Laser then [b.x] else []) + Beams([]);
  }

  /** Dropping only ordinary shots leaves the beams as they were. */
  lemma {:induction false} SelectKeepsBeams(shots: seq<Shot>, keep: seq<bool>)
    requires |keep| == |shots|
    requires forall i :: 0 <= i < |shots| && shots[i].kind == Laser ==> keep[i]
    ensures Beams(Select(shots, keep)) == Beams(shots)
    decreases |shots|
  {
    if |shots| > 0 {
      var n := |shots| - 1;
      var b := shots[n];
      var pre := Select(shots[..n], keep[..n]);
      assert forall i :: 0 <= i < n && shots[..n][i].kind == Laser ==> keep[..n][i] by {
        assert forall i :: 0 <= i < n ==> shots[..n][i] == shots[i] && keep[..n][i] == keep[i];
      }
      SelectKeepsBeams(shots[..n], keep[..n]);
      assert shots == shots[..n] + [b];
      BeamsSnoc(shots[..n], b);
      if keep[n] {
        assert Select(shots, keep) == pre + [b];
        BeamsSnoc(pre, b);
      } else {
        assert Select(shots, keep) == pre + [];
        assert b.kind != Laser;
        assert pre + [] == pre;
      }
    }
  }

  /** Flags that cover every shot spared by a later game cover every shot spared by an
      earlier one. */
  lemma SparedKept(shots: seq<Shot>, g: Game, h: Game, keep: seq<bool>)
    requires |keep| == |shots| && Accounted(g, h)
    requires forall i :: 0 <= i < |shots| && Spared(shots[i], h) ==> keep[i]
    ensures forall i :: 0 <= i < |shots| && Spared(shots[i], g) ==> keep[i]
  {
    forall i | 0 <= i < |shots| && Spared(shots[i], g) ensures keep[i] {
      SparedStaysSpared(shots[i], g, h);
    }
  }

  /** One backward step of the ordinary-shot pass keeps every spared shot flagged. */
  lemma MaskStep(shots: seq<Shot>, g: Game, h: Game, flags: seq<bool>, last: bool)
    requires |shots| > 0 && |flags| == |shots| - 1 && Accounted(g, h)
    requires Spared(shots[|shots| - 1], g) ==> last
    requires forall i :: 0 <= i < |flags| && Spared(shots[..|shots| - 1][i], h) ==> flags[i]
    ensures forall i :: 0 <= i < |shots| && Spared(shots[i], g) ==> (flags + [last])[i]
  {
    var n := |shots| - 1;
    SparedKept(shots[..n], g, h, flags);
    assert forall i :: 0 <= i < n ==> shots[..n][i] == shots[i];
  }

  /** Shot `j` is held by a target in `g` and every shot after it is spared: walking from
      the back, it is the first shot the pass meets that something holds. */
  predicate LastHeld(shots: seq<Shot>, g: Game, j: int)
    requires 0 <= j < |shots|
  {
    !Spared(shots[j], g) && forall k :: j < k < |shots| ==> Spared(shots[k], g)
  }

  /** One backward step of the ordinary-shot pass keeps the last held shot unflagged. */
  lemma HeldStep(shots: seq<Shot>, g: Game, h: Game, flags: seq<bool>, last: bool)
    requires |shots| > 0 && |flags| == |shots| - 1
    requires last <==> Spared(shots[|shots| - 1], g)
    requires last ==> h == g
    requires forall j :: 0 <= j < |flags| && LastHeld(shots[..|shots| - 1], h, j) ==> !flags[j]
    ensures forall j :: 0 <= j < |shots| && LastHeld(shots, g, j) ==> !(flags + [last])[j]
  {
    var n := |shots| - 1;
    forall j | 0 <= j < |shots| && LastHeld(shots, g, j) ensures !(flags + [last])[j] {
      if j < n {
        assert Spared(shots[n], g);
        assert LastHeld(shots[..n], h, j) by {
          assert shots[..n][j] == shots[j];
          forall k | j < k < n ensures Spared(shots[..n][k], h) {
            assert shots[..n][k] == shots[k];
          }
        }
      }
    }
  }

  /** What one shot does in the ordinary-shot pass: a laser is skipped, any other shot is
      checked against the target and the grid. A shot is consumed exactly when it is not
      spared, and then it did exactly one hit; otherwise nothing changes. */
  function Strike(g: Game, b: Shot): (r: (bool, Game))
    ensures Accounted(g, r.1) && r.1.level == g.level && r.1.lives == g.lives
    ensures r.0 ==> b.kind != Laser
    ensures r.0 <==> !Spared(b, g)
    ensures !r.0 ==> r.1 == g
    ensures Damage(g, r.1) == if r.0 then 1 else 0
  {
    if b.kind == Laser then
      AccountedRefl(g);
      HitsUnchanged(g.enemies);
      (false, g)
    else
      BulletStrike(g, b)
  }

  /** The ordinary-shot pass: from the last shot to the first, lasers skipped; a consumed
      shot is spliced out. Returns the surviving shots, the game, and for each shot
      whether it survived: the survivors are the flagged shots in their original order,
      every spared shot is flagged, the first held shot the pass meets is consumed, and
      each consumed shot did exactly one hit. */
  function ShotPass(shots: seq<Shot>, g: Game): (r: (seq<Shot>, Game, seq<bool>))
    ensures Accounted(g, r.1) && r.1.level == g.level && r.1.lives == g.lives
    ensures |r.2| == |shots| && r.0 == Select(shots, r.2)
    ensures forall i :: 0 <= i < |shots| && Spared(shots[i], g) ==> r.2[i]
    ensures forall j :: 0 <= j < |shots| && LastHeld(shots, g, j) ==> !r.2[j]
    ensures |shots| - |r.0| == Damage(g, r.1)
    ensures |r.0| <= |shots|
    ensures forall i :: 0 <= i < |r.0| ==> r.0[i] in shots
    ensures Beams(r.0) == Beams(shots)
    decreases |shots|
  {
    if |shots| == 0 then
      AccountedRefl(g);
      HitsUnchanged(g.enemies);
      ([], g, [])
    else
      var n := |shots| - 1;
      var b := shots[n];
      var strike := Strike(g, b);
      var rest := ShotPass(shots[..n], strike.1);
      AccountedChain(g, strike.1, rest.1);
      DamageChain(g, strike.1, rest.1);
      HeldStep(shots, g, strike.1, rest.2, !strike.0);
      var kept := rest.0 + (if strike.0 then [] else [b]);
      var mask := rest.2 + [!strike.0];
      assert mask[..n] == rest.2;
      MaskStep(shots, g, strike.1, rest.2, !strike.0);
      SelectIn(shots, mask);
      SelectKeepsBeams(shots, mask);
      (kept, rest.1, mask)
  }

  /** The pass over a non-empty list: the last shot strikes first, then the rest. */
  lemma ShotPassUnfold(shots: seq<Shot>, g: Game)
    requires |shots| > 0
    ensures var strike := Strike(g, shots[|shots| - 1]);
      && ShotPass(shots, g).1 == ShotPass(shots[..|shots| - 1], strike.1).1
      && ShotPass(shots, g).2 == ShotPass(shots[..|shots| - 1], strike.1).2 + [!strike.0]
  {
  }

  /** The pass reduced to what each turn decides: the game after every shot has had its
      turn, last shot first. */
  function PassGame(shots: seq<Shot>, g: Game): Game
    decreases |shots|
  {
    if |shots| == 0 then g
    else PassGame(shots[..|shots| - 1], Strike(g, shots[|shots| - 1]).1)
  }

  /** The pass reduced to what each turn decides: whether each shot is still there. */
  function PassFlags(shots: seq<Shot>, g: Game): (r: seq<bool>)
    ensures |r| == |shots|
    decreases |shots|
  {
    if |shots| == 0 then []
    else
      var strike := Strike(g, shots[|shots| - 1]);
      PassFlags(shots[..|shots| - 1], strike.1) + [!strike.0]
  }

  lemma {:induction false} PassAgrees(shots: seq<Shot>, g: Game)
    ensures ShotPass(shots, g).1 == PassGame(shots, g)
    ensures ShotPass(shots, g).2 == PassFlags(shots, g)
    decreases |shots|
  {
    if |shots| > 0 {
      PassAgrees(shots[..|shots| - 1], Strike(g, shots[|shots| - 1]).1);
      ShotPassUnfold(shots, g);
    }
  }

  lemma {:induction false} PassTurn(shots: seq<Shot>, g: Game, j: int)
    requires 0 <= j < |shots|
    ensures PassFlags(shots, g)[j] == Spared(shots[j], PassGame(shots[j + 1..], g))
    decreases |shots|
  {
    var n := |shots| - 1;
    var s1 := Strike(g, shots[n]).1;
    if j == n {
      LastFlag(shots, g);
    } else {
      calc {
        PassFlags(shots, g)[j];
        { EarlierFlag(shots, g, j); }
        PassFlags(shots[..n], s1)[j];
        { PassTurn(shots[..n], s1, j); }
        Spared(shots[..n][j], PassGame(shots[..n][j + 1..], s1));
        { LaterGame(shots, g, j); assert shots[..n][j] == shots[j]; }
        Spared(shots[j], PassGame(shots[j + 1..], g));
      }
    }
  }

  /** The last shot's turn comes first, in the game the pass starts from. */
  lemma LastFlag(shots: seq<Shot>, g: Game)
    requires |shots| > 0
    ensures PassFlags(shots, g)[|shots| - 1]
      == Spared(shots[|shots| - 1], PassGame(shots[|shots|..], g))
  {
    assert shots[|shots|..] == [];
  }

  /** The last shot's turn leaves the earlier shots' flags where they were. */
  lemma EarlierFlag(shots: seq<Shot>, g: Game, j: int)
    requires 0 <= j < |shots| - 1
    ensures PassFlags(shots, g)[j]
      == PassFlags(shots[..|shots| - 1], Strike(g, shots[|shots| - 1]).1)[j]
  {
    var strike := Strike(g, shots[|shots| - 1]);
    var rest := PassFlags(shots[..|shots| - 1], strike.1);
    assert PassFlags(shots, g) == rest + [!strike.0];
    assert (rest + [!strike.0])[j] == rest[j];
  }

  /** The shots after `j` leave the same game whether the last shot strikes first inside
      or outside the slice. */
  lemma LaterGame(shots: seq<Shot>, g: Game, j: int)
    requires 0 <= j < |shots| - 1
    ensures PassGame(shots[j + 1..], g)
      == PassGame(shots[..|shots| - 1][j + 1..], Strike(g, shots[|shots| - 1]).1)
  {
    LaterSlices(shots, j);
  }

  /** Each shot meets its own turn: shot `j` survives the pass exactly when it is spared
      by the game the later shots left behind. */
  lemma ShotPassTurn(shots: seq<Shot>, g: Game, j: int)
    requires 0 <= j < |shots|
    ensures ShotPass(shots, g).2[j] == Spared(shots[j], ShotPass(shots[j + 1..], g).1)
  {
    PassAgrees(shots, g);
    PassAgrees(shots[j + 1..], g);
    PassTurn(shots, g, j);
  }

  lemma LaterSlices(shots: seq<Shot>, j: int)
    requires 0 <= j < |shots| - 1
    ensures var t := shots[j + 1..];
      t[..|t| - 1] == shots[..|shots| - 1][j + 1..] && t[|t| - 1] == shots[|shots| - 1]
  {
  }

  lemma {:induction false} BeamsAppend(a: seq<Shot>, b: seq<Shot>)
    ensures Beams(a + b) == Beams(a) + Beams(b)
    decreases |a|
  {
    if |a| == 0 {
      assert a + b == b;
    } else {
      var head := if a[0].kind == Laser then [a[0].x] else [];
      assert (a + b)[0] == a[0];
      assert (a + b)[1..] == a[1..] + b;
      BeamsAppend(a[1..], b);
      calc {
        Beams(a + b);
        head + Beams(a[1..] + b);
        head + (Beams(a[1..]) + Beams(b));
        (head + Beams(a[1..])) + Beams(b);
        Beams(a) + Beams(b);
      }
    }
  }

  // ---------------------------------------------------------------------------------
  // Enemy shots against the ship

  /** The enemy shot's point lies strictly inside the ship's box. */
  predicate HitsShip(s: EnemyShot, shipX: int) {
    && s.x > shipX - PlayerWidth / 2 && s.x < shipX + PlayerWidth / 2
    && s.y as real > PlayerY - (PlayerHeight / 2) as real
    && s.y as real < PlayerY + (PlayerHeight / 2) as real
  }

  /** The enemy shots that miss the ship, in order. */
  function Missed(shots: seq<EnemyShot>, shipX: int): seq<EnemyShot>
    decreases |shots|
  {
    if |shots| == 0 then []
    else (if HitsShip(shots[0], shipX) then [] else [shots[0]]) + Missed(shots[1..], shipX)
  }

  /** How many enemy shots hit the ship. */
  function Landed(shots: seq<EnemyShot>, shipX: int): nat
    decreases |shots|
  {
    if |shots| == 0 then 0
    else (if HitsShip(shots[0], shipX) then 1 else 0) + Landed(shots[1..], shipX)
  }

  lemma {:induction false} MissedLandedAppend(a: seq<EnemyShot>, b: seq<EnemyShot>, x: int)
    ensures Missed(a + b, x) == Missed(a, x) + Missed(b, x)
    ensures Landed(a + b, x) == Landed(a, x) + Landed(b, x)
    decreases |a|
  {
    if |a| == 0 {
      assert a + b == b;
    } else {
      var ab := a + b;
      assert ab[0] == a[0];
      assert ab[1..] == a[1..] + b;
      MissedLandedAppend(a[1..], b, x);
      var head := if HitsShip(a[0], x) then [] else [a[0]];
      assert Missed(ab, x) == head + Missed(a[1..] + b, x);
      assert Missed(a, x) == head + Missed(a[1..], x);
      assert head + (Missed(a[1..], x) + Missed(b, x)) == (head + Missed(a[1..], x)) + Missed(b, x);
    }
  }

  /** The enemy-shot pass, from the last shot to the first: each shot inside the ship's
      box is spliced out, costs one life and revokes the weapon upgrade. Returns the
      surviving shots and the game. */
  function ShieldPass(shots: seq<EnemyShot>, g: Game): (r: (seq<EnemyShot>, Game))
    ensures r.0 == Missed(shots, g.ship.x)
    ensures r.1.lives == g.lives - Landed(shots, g.ship.x)
    ensures Landed(shots, g.ship.x) == 0 ==> r.1 == g
    ensures Landed(shots, g.ship.x) > 0 ==> r.1 == g.(lives := r.1.lives, ship := Weapons.Disarm(g.ship))
    decreases |shots|
  {
    if |shots| == 0 then ([], g)
    else
      var n := |shots| - 1;
      var s := shots[n];
      var hit := HitsShip(s, g.ship.x);
      var g1 := if hit then g.(lives := g.lives - 1, ship := Weapons.Disarm(g.ship)) else g;
      var rest := ShieldPass(shots[..n], g1);
      assert shots == shots[..n] + [s];
      MissedLandedAppend(shots[..n], [s], g.ship.x);
      assert Missed([s], g.ship.x) == (if hit then [] else [s]) + Missed([], g.ship.x);
      assert Landed([s], g.ship.x) == (if hit then 1 else 0) + Landed([], g.ship.x);
      (rest.0 + (if hit then [] else [s]), rest.1)
  }

  /** `after` is `before` with some shots removed, in order, and every shot spared in `g`
      is still there. */
  ghost predicate KeepsSpared(before: seq<Shot>, g: Game, after: seq<Shot>) {
    exists keep :: && |keep| == |before| && after == Select(before, keep)
                   && forall i :: 0 <= i < |before| && Spared(before[i], g) ==> keep[i]
  }

  /** `after` is what the ordinary-shot pass may leave of `before` in game `g`: shots
      removed with the order kept, every spared shot kept, and the first held shot the
      pass meets removed. */
  ghost predicate Settled(before: seq<Shot>, g: Game, after: seq<Shot>) {
    exists keep :: && |keep| == |before| && after == Select(before, keep)
                   && (forall i :: 0 <= i < |before| && Spared(before[i], g) ==> keep[i])
                   && (forall j :: 0 <= j < |before| && LastHeld(before, g, j) ==> !keep[j])
  }

  lemma ShotPassKeepsSpared(g: Game, g1: Game)
    requires Accounted(g, g1)
    ensures KeepsSpared(g.shots, g, ShotPass(g1.shots, g1).0)
    ensures Settled(g1.shots, g1, ShotPass(g1.shots, g1).0)
  {
    var pass := ShotPass(g1.shots, g1);
    SparedKept(g.shots, g, g1, pass.2);
  }

  /** The ordinary-shot pass after an accounted pass: with the shots put back, the whole is
      accounted, and every shot it removed did exactly one hit. */
  lemma StageAccounting(g: Game, g1: Game)
    requires Accounted(g, g1)
    ensures var pass := ShotPass(g1.shots, g1); var r := pass.1.(shots := pass.0);
      && Accounted(g1, r.(shots := g.shots)) && Accounted(g, r.(shots := g.shots))
      && |g.shots| - |r.shots| == Damage(g1, r)
  {
    var pass := ShotPass(g1.shots, g1);
    AccountedChain(g, g1, pass.1);
    assert pass.1.(shots := pass.0).(shots := g.shots) == pass.1;
  }

  /** The player's side of `checkCollisions`: the laser pass, then the ordinary-shot pass.
      Apart from the shots it is an accounted pass; the shots lose only consumed ordinary
      shots. */
  function ShotStage(g: Game): (r: Game)
    ensures Accounted(g, r.(shots := g.shots)) && r.level == g.level && r.lives == g.lives
    ensures |r.shots| <= |g.shots| && Beams(r.shots) == Beams(g.shots)
    ensures KeepsSpared(g.shots, g, r.shots)
    ensures r == g.(enemies := r.enemies, score := r.score, bonus := r.bonus, ship := r.ship, shots := r.shots)
    ensures Accounted(LaserPass(g, Beams(g.shots)), r.(shots := g.shots))
    ensures |g.shots| - |r.shots| == Damage(LaserPass(g, Beams(g.shots)), r)
    ensures Settled(g.shots, LaserPass(g, Beams(g.shots)), r.shots)
  {
    var g1 := LaserPass(g, Beams(g.shots));
    var pass := ShotPass(g1.shots, g1);
    StageAccounting(g, g1);
    ShotPassKeepsSpared(g, g1);
    pass.1.(shots := pass.0)
  }

  /** The enemies' side of `checkCollisions`: the enemy-shot pass with its survivors
      stored back. */
  function ShieldStage(g: Game): (r: Game)
    ensures r.enemyShots == Missed(g.enemyShots, g.ship.x)
    ensures r.lives == g.lives - Landed(g.enemyShots, g.ship.x)
    ensures r.ship == if Landed(g.enemyShots, g.ship.x) > 0 then Weapons.Disarm(g.ship) else g.ship
    ensures r == g.(lives := r.lives, ship := r.ship, enemyShots := r.enemyShots)
  {
    var shield := ShieldPass(g.enemyShots, g);
    shield.1.(enemyShots := shield.0)
  }

  /** `checkCollisions`: the laser pass, the ordinary-shot pass, then the enemy-shot pass.
      Score rises by exactly the kill scores of the enemies destroyed this frame plus the
      target's points if it was hit; lives fall by exactly the enemy shots that landed. */
  function CheckCollisions(g: Game): (r: Game)
    ensures Successor(g.enemies, r.enemies)
    ensures BonusAfter(g.bonus, r.bonus)
    ensures r.score == g.score + KillPoints(g.enemies, r.enemies) + BonusGain(g.bonus, r.bonus, g.level)
    ensures r.enemyShots == Missed(g.enemyShots, g.ship.x)
    ensures r.lives == g.lives - Landed(g.enemyShots, g.ship.x)
    ensures Landed(g.enemyShots, g.ship.x) > 0 ==> r.ship.weapon == Single
    ensures Weapons.WeaponTimed(g.ship) ==> Weapons.WeaponTimed(r.ship)
    ensures r.ship.x == g.ship.x && r.ship.lastShot == g.ship.lastShot
    ensures |r.shots| <= |g.shots| && Beams(r.shots) == Beams(g.shots)
    ensures KeepsSpared(g.shots, g, r.shots)
    ensures var g1 := LaserPass(g, Beams(g.shots));
      && Successor(g1.enemies, r.enemies) && BonusAfter(g1.bonus, r.bonus)
      && |g.shots| - |r.shots| == Damage(g1, r)
      && Settled(g.shots, g1, r.shots)
    ensures r == g.(enemies := r.enemies, score := r.score, bonus := r.bonus, ship := r.ship,
                    lives := r.lives, shots := r.shots, enemyShots := r.enemyShots)
  {
    ShieldStage(ShotStage(g))
  }
}
