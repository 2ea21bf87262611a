/** Per-frame projectile motion: player shots (the laser pinned to the top and counting
    down, every other shot flying up with its drift) and enemy shots falling. */
module Projectiles {
  import opened Entities

  /** A player shot that may still be on the field after a frame. */
  predicate InFlight(s: Shot) {
    if s.kind == Laser then s.y == 0.0 && s.life >= 1
    else 0.0 <= s.y && 0 <= s.x <= FieldWidth
  }

  /** One frame of one player shot, or None when the frame removes it. */
  function AdvanceShot(s: Shot): (r: Option<Shot>)
    ensures r.Some? ==> InFlight(r.value) && r.value.kind == s.kind && r.value.drift == s.drift
    ensures s.kind == Laser ==> (r.Some? <==> s.life > 1) && (r.Some? ==> r.value.x == s.x && r.value.life == s.life - 1)
    ensures s.kind != Laser && r.Some? ==>
      r.value.y == s.y - ShotSpeed as real && r.value.x == s.x + s.drift && r.value.life == s.life
    ensures s.kind != Laser ==>
      (r.Some? <==> s.y - ShotSpeed as real >= 0.0 && 0 <= s.x + s.drift <= FieldWidth)
  {
    if s.kind == Laser then
      var life := s.life - 1;
      if life <= 0 then None else Some(s.(y := 0.0, life := life))
    else
      var moved := s.(y := s.y - ShotSpeed as real, x := s.x + s.drift);
      if moved.y < 0.0 || moved.x < 0 || moved.x > FieldWidth then None else Some(moved)
  }

  function Keep<T>(o: Option<T>): seq<T> {
    match o
    case None => []
    case Some(v) => [v]
  }

  /** `updateBullets`: walks the shots from the last to the first, replacing each by its
      next position or splicing it out. */
  function AdvanceShots(shots: seq<Shot>): (r: seq<Shot>)
    ensures |r| <= |shots|
    ensures forall i :: 0 <= i < |r| ==> InFlight(r[i])
    ensures forall i :: 0 <= i < |r| ==> exists j :: 0 <= j < |shots| && AdvanceShot(shots[j]) == Some(r[i])
    ensures forall j :: 0 <= j < |shots| && AdvanceShot(shots[j]).Some? ==> AdvanceShot(shots[j]).value in r
    decreases |shots|
  {
    if |shots| == 0 then []
    else
      var n := |shots| - 1;
      var rest := AdvanceShots(shots[..n]);
      assert forall j :: 0 <= j < n ==> shots[..n][j] == shots[j];
      rest + Keep(AdvanceShot(shots[n]))
  }

  /** The same frame read front to back: each shot, in order, becomes its next position
      or disappears. */
  function Survivors(shots: seq<Shot>): seq<Shot>
    decreases |shots|
  {
    if |shots| == 0 then [] else Keep(AdvanceShot(shots[0])) + Survivors(shots[1..])
  }

  lemma {:induction false} SurvivorsAppend(a: seq<Shot>, b: seq<Shot>)
    ensures Survivors(a + b) == Survivors(a) + Survivors(b)
    decreases |a|
  {
    if |a| == 0 {
      assert a + b == b;
    } else {
      assert (a + b)[0] == a[0];
      assert (a + b)[1..] == a[1..] + b;
      SurvivorsAppend(a[1..], b);
    }
  }

  /** Splicing shots out while walking backwards removes exactly the expired ones and keeps
      the survivors in their original order. */
  lemma {:induction false} BackwardSpliceKeepsOrder(shots: seq<Shot>)
    ensures AdvanceShots(shots) == Survivors(shots)
    decreases |shots|
  {
    if |shots| > 0 {
      var n := |shots| - 1;
      BackwardSpliceKeepsOrder(shots[..n]);
      SurvivorsSnoc(shots);
    }
  }

  lemma SurvivorsSnoc(shots: seq<Shot>)
    requires |shots| > 0
    ensures Survivors(shots) == Survivors(shots[..|shots| - 1]) + Keep(AdvanceShot(shots[|shots| - 1]))
  {
    var n := |shots| - 1;
    assert shots == shots[..n] + [shots[n]];
    SurvivorsAppend(shots[..n], [shots[n]]);
    assert Survivors([shots[n]]) == Keep(AdvanceShot(shots[n])) + Survivors([]);
  }

  /** `k` frames of one shot alone. */
  function AdvanceFrames(s: Shot, k: nat): Option<Shot>
    decreases k
  {
    if k == 0 then Some(s)
    else match AdvanceFrames(s, k - 1)
      case None => None
      case Some(t) => AdvanceShot(t)
  }

  lemma {:induction false} LaserCountdown(s: Shot, k: nat)
    requires s.kind == Laser && k < s.life
    ensures AdvanceFrames(s, k).Some?
    ensures AdvanceFrames(s, k).value.kind == Laser && AdvanceFrames(s, k).value.life == s.life - k
    ensures AdvanceFrames(s, k).value.x == s.x
    decreases k
  {
    if k > 0 {
      LaserCountdown(s, k - 1);
    }
  }

  /** A freshly fired laser (life 30) stays on the field for 29 frame updates, pinned at its
      firing column, and the 30th removes it. */
  lemma LaserLastsTwentyNineFrames(s: Shot)
    requires s.kind == Laser && s.life == 30
    ensures AdvanceFrames(s, 29).Some? && AdvanceFrames(s, 29).value.x == s.x
    ensures AdvanceFrames(s, 30).None?
  {
    LaserCountdown(s, 29);
  }

  /** One frame of one enemy shot: it falls 5, and is gone once below the bottom edge. */
  function Fall(s: EnemyShot): (r: Option<EnemyShot>)
    ensures r.Some? <==> s.y + EnemyShotSpeed <= FieldHeight
    ensures r.Some? ==> r.value == s.(y := s.y + EnemyShotSpeed)
  {
    var moved := s.(y := s.y + EnemyShotSpeed);
    if moved.y > FieldHeight then None else Some(moved)
  }

  /** `updateEnemyBullets`: every enemy shot falls 5; one below the bottom edge is removed. */
  function AdvanceEnemyShots(shots: seq<EnemyShot>): (r: seq<EnemyShot>)
    ensures |r| <= |shots|
    ensures forall i :: 0 <= i < |r| ==> r[i].y <= FieldHeight
    ensures forall i :: 0 <= i < |r| ==> exists j :: 0 <= j < |shots| && Fall(shots[j]) == Some(r[i])
    ensures forall j :: 0 <= j < |shots| && Fall(shots[j]).Some? ==> Fall(shots[j]).value in r
    decreases |shots|
  {
    if |shots| == 0 then []
    else
      var n := |shots| - 1;
      var rest := AdvanceEnemyShots(shots[..n]);
      assert forall j :: 0 <= j < n ==> shots[..n][j] == shots[j];
      rest + match Fall(shots[n]) case None => [] case Some(v) => [v]
  }

  /** The same enemy-shot frame read front to back: each shot, in order, falls or leaves. */
  function FallAll(shots: seq<EnemyShot>): seq<EnemyShot>
    decreases |shots|
  {
    if |shots| == 0 then [] else Keep(Fall(shots[0])) + FallAll(shots[1..])
  }

  lemma {:induction false} FallAllAppend(a: seq<EnemyShot>, b: seq<EnemyShot>)
    ensures FallAll(a + b) == FallAll(a) + FallAll(b)
    decreases |a|
  {
    if |a| == 0 {
      assert a + b == b;
    } else {
      assert (a + b)[0] == a[0];
      assert (a + b)[1..] == a[1..] + b;
      FallAllAppend(a[1..], b);
    }
  }

  /** Splicing enemy shots out while walking backwards keeps every remaining shot once,
      in its original order. */
  lemma {:induction false} EnemyShotsKeepOrder(shots: seq<EnemyShot>)
    ensures AdvanceEnemyShots(shots) == FallAll(shots)
    decreases |shots|
  {
    if |shots| > 0 {
      var n := |shots| - 1;
      EnemyShotsKeepOrder(shots[..n]);
      assert shots == shots[..n] + [shots[n]];
      FallAllAppend(shots[..n], [shots[n]]);
      assert FallAll([shots[n]]) == Keep(Fall(shots[n])) + FallAll([]);
    }
  }
}
