/** The enemy formation: the fixed 4 x 6 grid built for every level, the lock-step march
    with its single shared edge test, and the enemies' random volleys. */
module Formation {
  import opened Entities

  const GridRows: int := 4
  const GridCols: int := 6

  /** The kind an enemy gets from its row: bosses on top, elites below, regulars after. */
  function RowKind(row: int): EnemyKind {
    if row == 0 then Boss else if row == 1 then Elite else Regular
  }

  /** The enemy created for a grid cell. */
  function Recruit(row: int, col: int): Enemy {
    Enemy(col * (EnemyWidth + EnemyPadding) + 60, row * (EnemyHeight + EnemyPadding) + 50,
          RowKind(row), if row == 0 then 2 else 1, true, false, 0, 0)
  }

  /** One grid row, left to right. */
  function GridRow(row: int): (r: seq<Enemy>)
    ensures |r| == GridCols
    ensures forall c :: 0 <= c < GridCols ==> r[c] == Recruit(row, c)
  {
    seq(GridCols, c requires 0 <= c < GridCols => Recruit(row, c))
  }

  /** The first `rows` rows of the grid, row by row. */
  function GridRowsUpTo(rows: nat): (r: seq<Enemy>)
    ensures |r| == GridCols * rows
    ensures forall i :: 0 <= i < |r| ==> r[i] == Recruit(i / GridCols, i % GridCols)
    decreases rows
  {
    if rows == 0 then []
    else
      var prev := GridRowsUpTo(rows - 1);
      var row := GridRow(rows - 1);
      var r := prev + row;
      assert forall i :: |prev| <= i < |r| ==>
        i / GridCols == rows - 1 && i % GridCols == i - |prev| && r[i] == row[i - |prev|];
      r
  }

  /** `createEnemyGrid`: 24 fresh enemies, cell (row, col) at x = 60 + 60 col, y = 50 + 50 row. */
  function EnemyGrid(): (r: seq<Enemy>)
    ensures |r| == 24
    ensures forall i :: 0 <= i < 24 ==>
      && r[i].x == 60 + 60 * (i % 6) && r[i].y == 50 + 50 * (i / 6)
      && r[i].alive && !r[i].hitByLaser
      && r[i].kind == RowKind(i / 6)
      && r[i].health == (if i / 6 == 0 then 2 else 1)
  {
    GridRowsUpTo(GridRows)
  }

  /** Number of enemies of a kind that are alive. */
  function CountAlive(es: seq<Enemy>, k: EnemyKind): nat
    decreases |es|
  {
    if |es| == 0 then 0
    else (if es[0].alive && es[0].kind == k then 1 else 0) + CountAlive(es[1..], k)
  }

  lemma {:induction false} CountAliveAppend(a: seq<Enemy>, b: seq<Enemy>, k: EnemyKind)
    ensures CountAlive(a + b, k) == CountAlive(a, k) + CountAlive(b, k)
    decreases |a|
  {
    if |a| > 0 {
      assert (a + b)[1..] == a[1..] + b;
      CountAliveAppend(a[1..], b, k);
    } else {
      assert a + b == b;
    }
  }

  lemma {:induction false} CountAliveRow(row: int, k: EnemyKind, n: nat)
    requires n <= GridCols
    ensures CountAlive(GridRow(row)[GridCols - n..], k) == if RowKind(row) == k then n else 0
    decreases n
  {
    var s := GridRow(row)[GridCols - n..];
    if n > 0 {
      assert s[0] == Recruit(row, GridCols - n);
      assert s[0].alive && s[0].kind == RowKind(row);
      assert s[1..] == GridRow(row)[GridCols - (n - 1)..];
      CountAliveRow(row, k, n - 1);
    }
  }

  /** The grid's make-up: six bosses with two hit points in row 0, six elites in row 1,
      twelve regulars in rows 2 and 3, all alive. */
  lemma GridComposition()
    ensures CountAlive(EnemyGrid(), Boss) == 6
    ensures CountAlive(EnemyGrid(), Elite) == 6
    ensures CountAlive(EnemyGrid(), Regular) == 12
    ensures forall i :: 0 <= i < 24 ==> (EnemyGrid()[i].kind == Boss <==> i < 6)
    ensures forall i :: 0 <= i < 24 ==> (EnemyGrid()[i].health == 2 <==> EnemyGrid()[i].kind == Boss)
  {
    GridCount(Boss);
    GridCount(Elite);
    GridCount(Regular);
    GridRanks();
  }

  lemma GridCount(k: EnemyKind)
    ensures CountAlive(EnemyGrid(), k) == if k == Regular then 12 else 6
  {
    var r0, r1, r2, r3 := GridRow(0), GridRow(1), GridRow(2), GridRow(3);
    GridIsRows();
    CountAliveAppend(r0 + r1 + r2, r3, k);
    CountAliveAppend(r0 + r1, r2, k);
    CountAliveAppend(r0, r1, k);
    CountAliveFullRow(0, k);
    CountAliveFullRow(1, k);
    CountAliveFullRow(2, k);
    CountAliveFullRow(3, k);
  }

  lemma GridRanks()
    ensures forall i :: 0 <= i < 24 ==> (EnemyGrid()[i].kind == Boss <==> i < 6)
    ensures forall i :: 0 <= i < 24 ==> (EnemyGrid()[i].health == 2 <==> EnemyGrid()[i].kind == Boss)
  {
  }

  lemma GridIsRows()
    ensures EnemyGrid() == GridRow(0) + GridRow(1) + GridRow(2) + GridRow(3)
  {
    assert GridRowsUpTo(1) == [] + GridRow(0);
    assert [] + GridRow(0) == GridRow(0);
  }

  lemma CountAliveFullRow(row: int, k: EnemyKind)
    ensures CountAlive(GridRow(row), k) == if RowKind(row) == k then 6 else 0
  {
    CountAliveRow(row, k, 6);
    assert GridRow(row)[0..] == GridRow(row);
  }

  /** The edge condition for one alive enemy, given the current march direction. */
  predicate AtEdge(e: Enemy, dir: int) {
    (e.x <= 10 && dir == -1) || (e.x >= FieldWidth - 10 - EnemyWidth && dir == 1)
  }

  /** The shared edge test: walks the formation in order, skipping dead enemies, and stops
      at the first alive enemy at the edge. */
  function EdgeReached(es: seq<Enemy>, dir: int): (hit: bool)
    ensures hit <==> exists i :: 0 <= i < |es| && es[i].alive && AtEdge(es[i], dir)
    decreases |es|
  {
    if |es| == 0 then false
    else if es[0].alive && AtEdge(es[0], dir) then true
    else
      var rest := EdgeReached(es[1..], dir);
      assert rest ==> exists i :: 0 <= i < |es| && es[i].alive && AtEdge(es[i], dir) by {
        if rest {
          var j :| 0 <= j < |es| - 1 && es[1..][j].alive && AtEdge(es[1..][j], dir);
          assert es[j + 1] == es[1..][j];
        }
      }
      assert (exists i :: 0 <= i < |es| && es[i].alive && AtEdge(es[i], dir)) ==> rest by {
        if exists i :: 0 <= i < |es| && es[i].alive && AtEdge(es[i], dir) {
          var j :| 0 <= j < |es| && es[j].alive && AtEdge(es[j], dir);
          assert j > 0;
          assert es[1..][j - 1] == es[j];
        }
      }
      rest
  }

  /** An enemy's animation clock: the frame advances every 16 ticks, cycling through 4. */
  function Animate(e: Enemy): (r: Enemy)
    ensures r == e.(frame := r.frame, counter := r.counter)
    ensures 0 <= e.frame < 4 ==> 0 <= r.frame < 4
  {
    var c := e.counter + 1;
    if c > 15 then e.(counter := 0, frame := (e.frame + 1) % 4) else e.(counter := c)
  }

  /** One alive enemy's move in the (possibly reversed) direction, dropping if reversed. */
  function Advance(e: Enemy, dir: int, drop: bool): Enemy {
    Animate(e.(x := e.x + EnemySpeed * dir, y := if drop then e.y + EnemyDrop else e.y))
  }

  /** `updateEnemies`: one shared edge test, then every alive enemy moves one step in the
      new direction (and drops 30 if it was reversed); dead enemies stay where they are.
      Returns the enemies and the new direction. */
  function March(es: seq<Enemy>, dir: int): (r: (seq<Enemy>, int))
    ensures |r.0| == |es|
    ensures r.1 == -dir <==> EdgeReached(es, dir) || dir == 0
    ensures r.1 == dir || r.1 == -dir
    ensures forall i :: 0 <= i < |es| && !es[i].alive ==> r.0[i] == es[i]
    ensures forall i :: 0 <= i < |es| ==> es[i].y <= r.0[i].y <= es[i].y + EnemyDrop
    ensures forall i :: 0 <= i < |es| && es[i].alive ==>
      && r.0[i].x == es[i].x + r.1
      && r.0[i].y == es[i].y + (if r.1 != dir then EnemyDrop else 0)
      && r.0[i] == es[i].(x := r.0[i].x, y := r.0[i].y, frame := r.0[i].frame, counter := r.0[i].counter)
  {
    var flip := EdgeReached(es, dir);
    var d := if flip then -1 * dir else dir;
    (seq(|es|, i requires 0 <= i < |es| => if es[i].alive then Advance(es[i], d, flip) else es[i]), d)
  }

  /** The formation bound kept between frames: every alive enemy is between the two
      edge margins, and alive enemies are never more than five columns (300) apart. */
  predicate InField(es: seq<Enemy>) {
    && (forall i :: 0 <= i < |es| && es[i].alive ==> 10 <= es[i].x <= FieldWidth - 10 - EnemyWidth)
    && (forall i, j :: 0 <= i < |es| && 0 <= j < |es| && es[i].alive && es[j].alive ==>
          es[i].x - es[j].x <= 300)
  }

  /** The march never pushes an alive enemy past either margin: the shared edge test
      reverses the whole formation in time. */
  lemma MarchStaysInField(es: seq<Enemy>, dir: int)
    requires dir == 1 || dir == -1
    requires InField(es)
    ensures InField(March(es, dir).0)
  {
    var r := March(es, dir);
    var es' := r.0;
    if EdgeReached(es, dir) {
      var j :| 0 <= j < |es| && es[j].alive && AtEdge(es[j], dir);
      forall i | 0 <= i < |es| && es[i].alive
        ensures 10 <= es'[i].x <= FieldWidth - 10 - EnemyWidth
      {
        assert es[i].x - es[j].x <= 300 && es[j].x - es[i].x <= 300;
      }
    }
  }

  /** The formation moves in lock step: the horizontal gap between any two alive enemies
      is the same after a march as before. */
  lemma MarchKeepsSpacing(es: seq<Enemy>, dir: int, i: int, j: int)
    requires 0 <= i < |es| && 0 <= j < |es| && es[i].alive && es[j].alive
    ensures March(es, dir).0[i].x - March(es, dir).0[j].x == es[i].x - es[j].x
    ensures March(es, dir).0[i].y - March(es, dir).0[j].y == es[i].y - es[j].y
  {
  }

  /** Where an enemy's shot starts: centre of its bottom edge. */
  function Muzzle(e: Enemy): EnemyShot {
    EnemyShot(e.x + EnemyWidth / 2, e.y + EnemyHeight, e.kind)
  }

  /** `enemyShooting`: in grid order, every alive enemy chosen by the random oracle
      `firing` (indices that drew under the firing chance this frame) fires one shot. */
  function Volley(es: seq<Enemy>, firing: set<int>): (r: seq<EnemyShot>)
    ensures |r| <= |es|
    ensures forall s :: s in r ==> exists i :: 0 <= i < |es| && es[i].alive && i in firing && s == Muzzle(es[i])
    ensures forall i :: 0 <= i < |es| && es[i].alive && i in firing ==> Muzzle(es[i]) in r
    decreases |es|
  {
    if |es| == 0 then []
    else
      var n := |es| - 1;
      var prefix := es[..n];
      var rest := Volley(prefix, firing);
      assert forall i :: 0 <= i < n ==> prefix[i] == es[i];
      rest + (if es[n].alive && n in firing then [Muzzle(es[n])] else [])
  }

  /** The shot enemy `i` adds to a volley: one from its muzzle if it is alive and chosen. */
  function ShotOf(es: seq<Enemy>, firing: set<int>, i: int): seq<EnemyShot>
    requires 0 <= i < |es|
  {
    if es[i].alive && i in firing then [Muzzle(es[i])] else []
  }

  /** The volley read front to back: enemy `from`, then every enemy after it. */
  function Shooters(es: seq<Enemy>, firing: set<int>, from: nat): seq<EnemyShot>
    requires from <= |es|
    decreases |es| - from
  {
    if from == |es| then [] else ShotOf(es, firing, from) + Shooters(es, firing, from + 1)
  }

  lemma {:induction false} ShootersPrefix(es: seq<Enemy>, firing: set<int>, from: nat)
    requires |es| > 0 && from <= |es| - 1
    ensures Shooters(es, firing, from) ==
      Shooters(es[..|es| - 1], firing, from) + ShotOf(es, firing, |es| - 1)
    decreases |es| - from
  {
    var n := |es| - 1;
    if from == n {
      assert Shooters(es, firing, n + 1) == [];
    } else {
      ShootersPrefix(es, firing, from + 1);
      assert ShotOf(es, firing, from) == ShotOf(es[..n], firing, from);
    }
  }

  /** Each alive chosen enemy fires exactly once, and the shots are appended in grid
      order. */
  lemma {:induction false} VolleyInGridOrder(es: seq<Enemy>, firing: set<int>)
    ensures Volley(es, firing) == Shooters(es, firing, 0)
    decreases |es|
  {
    if |es| > 0 {
      var n := |es| - 1;
      VolleyInGridOrder(es[..n], firing);
      ShootersPrefix(es, firing, 0);
    }
  }
}
