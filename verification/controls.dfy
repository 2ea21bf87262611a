/** Player steering: the keyboard step and the pointer (mouse or touch) position, both
    clamped so the whole ship stays on the field. */
module Controls {
  import opened Entities

  /** Leftmost and rightmost centre positions of the ship. */
  const MinX: int := PlayerWidth / 2
  const MaxX: int := FieldWidth - PlayerWidth / 2

  predicate OnField(x: int) { MinX <= x <= MaxX }

  /** Left arrow or `a`: one step left, stopped by the left wall. */
  function MoveLeft(x: int): (r: int)
    ensures x <= MaxX ==> OnField(r)
    ensures r <= x || r == MinX
    ensures x - PlayerSpeed >= MinX ==> r == x - PlayerSpeed
    ensures x - PlayerSpeed < MinX ==> r == MinX
  {
    Max(MinX, x - PlayerSpeed)
  }

  /** Right arrow or `d`: one step right, stopped by the right wall. */
  function MoveRight(x: int): (r: int)
    ensures MinX <= x ==> OnField(r)
    ensures r >= x || r == MaxX
    ensures x + PlayerSpeed <= MaxX ==> r == x + PlayerSpeed
    ensures x + PlayerSpeed > MaxX ==> r == MaxX
  {
    Min(MaxX, x + PlayerSpeed)
  }

  /** Mouse or touch: jump to the pointer's field position, clamped on both sides. */
  function MoveTo(x: int): (r: int)
    ensures OnField(r)
    ensures OnField(x) ==> r == x
    ensures x < MinX ==> r == MinX
    ensures x > MaxX ==> r == MaxX
  {
    Max(MinX, Min(MaxX, x))
  }

  /** What a key press asks for. */
  datatype KeyAction = GoLeft | GoRight | Shoot | Ignore

  /** The key handler's tests: arrows or `a`/`d` steer, space or up-arrow fires. */
  function Classify(key: string): (a: KeyAction)
    ensures a == GoLeft <==> key == "ArrowLeft" || key == "a"
    ensures a == GoRight <==> key == "ArrowRight" || key == "d"
    ensures a == Shoot <==> key == " " || key == "ArrowUp"
  {
    if key == "ArrowLeft" || key == "a" then GoLeft
    else if key == "ArrowRight" || key == "d" then GoRight
    else if key == " " || key == "ArrowUp" then Shoot
    else Ignore
  }

  /** One steering command. */
  datatype Move = Left | Right | To(target: int)

  function Steer(x: int, m: Move): int
  {
    match m
    case Left => MoveLeft(x)
    case Right => MoveRight(x)
    case To(t) => MoveTo(t)
  }

  /** Applies a whole sequence of steering commands in order. */
  function SteerAll(x: int, ms: seq<Move>): int
    decreases |ms|
  {
    if |ms| == 0 then x else SteerAll(Steer(x, ms[0]), ms[1..])
  }

  /** Whatever the player does with keys, mouse or touch, the ship stays on the field. */
  lemma {:induction false} SteeringStaysOnField(x: int, ms: seq<Move>)
    requires OnField(x)
    ensures OnField(SteerAll(x, ms))
    decreases |ms|
  {
    if |ms| > 0 {
      SteeringStaysOnField(Steer(x, ms[0]), ms[1..]);
    }
  }

  /** The pointer clamp is idempotent and monotone: a second jump to the same place is a
      no-op, and a pointer further right never puts the ship further left. */
  lemma PointerClampIsStable(a: int, b: int)
    ensures MoveTo(MoveTo(a)) == MoveTo(a)
    ensures a <= b ==> MoveTo(a) <= MoveTo(b)
  {
  }
}
