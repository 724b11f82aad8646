/**
 * The touch layer that src/components/games/SnakeGame.jsx adds on top of the
 * shared snake core: a touch that ends is a swipe when it travelled more than
 * 30 px, otherwise a tap when it lasted under 300 ms; either one steers with
 * the same right-angle guard as the arrow keys.
 *
 * Touch positions are canvas pixels as reals; `Date.now()` differences are
 * passed in as whole milliseconds. Distances are compared squared, which is
 * equivalent to comparing `Math.sqrt` of them since both sides are non-negative.
 */
module SnakeTouch {

  import opened Options
  import opened Numeric
  import opened Snake

  const SwipeDistance: real := 30.0
  const TapMillis: int := 300

  datatype Point = Point(x: real, y: real)

  /**
   * The direction a displacement points along its dominant axis; a tie goes
   * to the vertical axis, and no displacement at all gives nothing.
   */
  function Classify(dx: real, dy: real): (r: Option<Dir>)
    ensures r.None? <==> dx == 0.0 && dy == 0.0
    ensures r.Some? ==> (r.value.Horizontal() <==> Abs(dx) > Abs(dy))
    ensures r.Some? ==> (r.value.DX() as real) * dx + (r.value.DY() as real) * dy > 0.0
  {
    if Abs(dx) > Abs(dy) then
      if dx > 0.0 then Some(Right)
      else if dx < 0.0 then Some(Left)
      else None
    else
      if dy > 0.0 then Some(Down)
      else if dy < 0.0 then Some(Up)
      else None
  }

  /**
   * Steer with a displacement: the classified direction replaces the pending
   * one only when it turns a right angle from the committed direction.
   */
  function Steer(g: Game, dx: real, dy: real): (g': Game)
    ensures g' == g.(pending := g'.pending)
    ensures g'.pending != g.pending ==> Perpendicular(g'.pending, g.dir)
    ensures match Classify(dx, dy)
      case Some(d) => g'.pending == (if Perpendicular(d, g.dir) then d else g.pending)
      case None => g' == g
  {
    if Abs(dx) > Abs(dy) then
      if dx > 0.0 && g.dir.DX() == 0 then g.(pending := Right)
      else if dx < 0.0 && g.dir.DX() == 0 then g.(pending := Left)
      else g
    else
      if dy > 0.0 && g.dir.DY() == 0 then g.(pending := Down)
      else if dy < 0.0 && g.dir.DY() == 0 then g.(pending := Up)
      else g
  }

  predicate IsSwipe(dx: real, dy: real) {
    dx * dx + dy * dy > SwipeDistance * SwipeDistance
  }

  /** The pixel centre of a cell. */
  function Centre(c: Cell): Point {
    Point((c.x * CellSize) as real + (CellSize as real) / 2.0,
          (c.y * CellSize) as real + (CellSize as real) / 2.0)
  }

  /**
   * `handleTouchEnd`: a swipe steers by the drag, a short touch steers by
   * where it started relative to the head's centre, anything else does not
   * steer; then the game starts if it is neither started nor over, whether or
   * not a direction was accepted.
   */
  function TouchEnd(g: Game, start: Point, current: Point, duration: int): (g': Game)
    requires |g.body| >= 1
    ensures g'.body == g.body && g'.dir == g.dir && g'.food == g.food
    ensures g'.score == g.score && g'.over == g.over
    ensures g'.started <==> g.started || !g.over
    ensures g'.pending != g.pending ==> Perpendicular(g'.pending, g.dir)
    ensures var dx := current.x - start.x; var dy := current.y - start.y;
      IsSwipe(dx, dy) ==> g'.pending == Steer(g, dx, dy).pending
    ensures var dx := current.x - start.x; var dy := current.y - start.y; var head := Centre(g.body[0]);
      !IsSwipe(dx, dy) && duration < TapMillis ==> g'.pending == Steer(g, start.x - head.x, start.y - head.y).pending
    ensures var dx := current.x - start.x; var dy := current.y - start.y;
      !IsSwipe(dx, dy) && duration >= TapMillis ==> g'.pending == g.pending
  {
    var dx := current.x - start.x;
    var dy := current.y - start.y;
    var steered :=
      if IsSwipe(dx, dy) then Steer(g, dx, dy)
      else if duration < TapMillis then
        var head := Centre(g.body[0]);
        Steer(g, start.x - head.x, start.y - head.y)
      else g;
    if !g.started && !g.over then steered.(started := true) else steered
  }

  /** A tap exactly on the head's centre changes no direction, though it still starts the game. */
  lemma TapOnHeadChangesNothing(g: Game, duration: int)
    requires |g.body| >= 1 && duration < TapMillis
    ensures var p := Centre(g.body[0]);
      TouchEnd(g, p, p, duration) == g.(started := g.started || !g.over)
  {
  }

  /** A diagonal swipe with |dx| == |dy| is read as vertical. */
  lemma TiesGoVertical(g: Game, d: real)
    requires d > SwipeDistance && g.dir.Horizontal() && |g.body| >= 1
    ensures TouchEnd(g, Point(0.0, 0.0), Point(d, d), 0).pending == Down
    ensures TouchEnd(g, Point(0.0, 0.0), Point(-d, -d), 0).pending == Up
  {
  }

  /** Every input the snake game reacts to, as one atomic transition each. */
  datatype Event =
    | TickEvent(newFood: Cell)
    | KeyEvent(key: Key)
    | TouchEvent(start: Point, current: Point, duration: int)
    | RestartEvent(newFood: Cell)

  /** Food drawn by `Math.floor(Math.random() * GRID_SIZE)` is on the board. */
  predicate FairDraw(e: Event) {
    match e
    case TickEvent(f) => InBounds(f)
    case RestartEvent(f) => InBounds(f)
    case _ => true
  }

  function Apply(g: Game, e: Event): (g': Game)
    requires |g.body| >= 1
    ensures |g'.body| >= 1
  {
    match e
    case TickEvent(f) => Tick(g, f)
    case KeyEvent(k) => KeyDown(g, k)
    case TouchEvent(s, c, t) => TouchEnd(g, s, c, t)
    case RestartEvent(f) => Restart(g, f)
  }

  function Run(g: Game, events: seq<Event>): (g': Game)
    requires |g.body| >= 1
    ensures |g'.body| >= 1
    decreases |events|
  {
    if |events| == 0 then g else Run(Apply(g, events[0]), events[1..])
  }

  lemma ApplyPreservesValid(g: Game, e: Event)
    requires Valid(g) && FairDraw(e)
    ensures Valid(Apply(g, e))
  {
    match e
    case TickEvent(f) => TickPreservesValid(g, f);
    case KeyEvent(k) => KeyDownPreservesValid(g, k);
    case TouchEvent(s, c, t) =>
    case RestartEvent(f) => RestartForgetsEverything(g, g, f);
  }

  /**
   * From any valid state, any run of ticks, keys, touches and restarts keeps
   * the body on the board and duplicate-free, the food on the board, the
   * score a multiple of 10, and the pending direction a non-reversal.
   */
  lemma {:induction false} RunPreservesValid(g: Game, events: seq<Event>)
    requires Valid(g)
    requires forall i :: 0 <= i < |events| ==> FairDraw(events[i])
    ensures Valid(Run(g, events))
    decreases |events|
  {
    if |events| > 0 {
      ApplyPreservesValid(g, events[0]);
      RunPreservesValid(Apply(g, events[0]), events[1..]);
    }
  }

  /** Hence no tick of any such run ever reverses the committed direction. */
  lemma NeverReverses(events: seq<Event>, newFood: Cell)
    requires forall i :: 0 <= i < |events| ==> FairDraw(events[i])
    ensures var g := Run(Initial(), events);
      Tick(g, newFood).dir != g.dir.Opposite()
  {
    InitialValid();
    RunPreservesValid(Initial(), events);
    var g := Run(Initial(), events);
    if g.started && !g.over {
      NoReversal(g, newFood);
    }
  }

}
