/**
 * The grid snake game. Both src/components/SnakeGame.jsx (keyboard only, the
 * one routed at /snake) and src/components/games/SnakeGame.jsx (keyboard plus
 * touch) run exactly this state machine: the same constants, the same
 * collision test, the same tick, the same arrow-key guard and the same
 * restart. The touch layer of the second file lives in module SnakeTouch.
 *
 * React state, refs and the interval timer are folded into one immutable
 * `Game` record; each tick, key press and restart is one atomic transition.
 * The random food cell drawn by `generateFood` is a parameter.
 */
module Snake {

  /** Board side in cells, pixel size of a cell, points per food. */
  const GridSize: int := 20
  const CellSize: int := 20
  const FoodScore: int := 10

  datatype Cell = Cell(x: int, y: int)

  /** The four unit directions the game ever stores. */
  datatype Dir = Up | Down | Left | Right {

    function DX(): int {
      match this
      case Left => -1
      case Right => 1
      case _ => 0
    }

    function DY(): int {
      match this
      case Up => -1
      case Down => 1
      case _ => 0
    }

    predicate Horizontal() {
      DY() == 0
    }

    function Opposite(): (o: Dir)
      ensures o.DX() == -DX() && o.DY() == -DY()
    {
      match this
      case Up => Down
      case Down => Up
      case Left => Right
      case Right => Left
    }
  }

  /** `a` turns a right angle from `b`: neither the same direction nor its reverse. */
  predicate Perpendicular(a: Dir, b: Dir) {
    a.Horizontal() != b.Horizontal()
  }

  /**
   * The whole game: the body (head first), the committed direction
   * (`directionRef`), the pending one (`nextDirectionRef`), food, score and
   * the started / over flags.
   */
  datatype Game = Game(
    body: seq<Cell>,
    dir: Dir,
    pending: Dir,
    food: Cell,
    score: int,
    started: bool,
    over: bool)

  predicate InBounds(c: Cell) {
    0 <= c.x < GridSize && 0 <= c.y < GridSize
  }

  /** The cell one step from `c` in direction `d`. */
  function Step(c: Cell, d: Dir): Cell {
    Cell(c.x + d.DX(), c.y + d.DY())
  }

  /** A head collides when it leaves the board or lands on any cell of the body. */
  predicate Collides(head: Cell, body: seq<Cell>) {
    !InBounds(head) || head in body
  }

  /** `checkCollision`: the wall test, then a scan of every body segment. */
  method CheckCollision(head: Cell, body: seq<Cell>) returns (hit: bool)
    ensures hit <==> head.x < 0 || head.x >= GridSize || head.y < 0 || head.y >= GridSize
                     || exists i :: 0 <= i < |body| && body[i] == head
  {
    if head.x < 0 || head.x >= GridSize || head.y < 0 || head.y >= GridSize {
      return true;
    }
    var i := 0;
    while i < |body|
      invariant 0 <= i <= |body|
      invariant forall j :: 0 <= j < i ==> body[j] != head
    {
      if body[i] == head {
        return true;
      }
      i := i + 1;
    }
    return false;
  }

  /** The method's scan and the predicate the rest of the model uses agree. */
  lemma CollidesMeansHit(head: Cell, body: seq<Cell>)
    ensures Collides(head, body) <==>
      (head.x < 0 || head.x >= GridSize || head.y < 0 || head.y >= GridSize
       || exists i :: 0 <= i < |body| && body[i] == head)
  {
  }

  /** The state on first mount. */
  function Initial(): (g: Game)
    ensures g.body == [Cell(10, 10)] && g.food == Cell(15, 15) && g.score == 0
    ensures g.dir == Right && g.pending == Right && !g.started && !g.over
  {
    Game([Cell(10, 10)], Right, Right, Cell(15, 15), 0, false, false)
  }

  /** `restartGame`: every field back to its first value; food is drawn afresh. */
  function Restart(g: Game, newFood: Cell): (g': Game)
    ensures g' == Initial().(food := newFood)
  {
    Game([Cell(10, 10)], Right, Right, newFood, 0, false, false)
  }

  /**
   * One call of `gameLoop`: commit the pending direction, move the head one
   * cell, then end the game, grow or slide. `newFood` is the cell the food
   * moves to if it is eaten.
   */
  function Move(g: Game, newFood: Cell): (g': Game)
    requires |g.body| >= 1
    ensures g'.dir == g.pending && g'.pending == g.pending && g'.started == g.started
    ensures var head := Step(g.body[0], g.pending);
      if Collides(head, g.body) then
        g'.over && g'.body == g.body && g'.score == g.score && g'.food == g.food
      else
        && g'.over == g.over
        && |g'.body| == |g.body| + (if head == g.food then 1 else 0)
        && g'.body[0] == head
        && g'.body[1..] == g.body[..|g'.body| - 1]
        && g'.score == g.score + (if head == g.food then FoodScore else 0)
        && g'.food == (if head == g.food then newFood else g.food)
  {
    var head := Step(g.body[0], g.pending);
    if Collides(head, g.body) then
      g.(dir := g.pending, over := true)
    else if head == g.food then
      g.(body := [head] + g.body, dir := g.pending, food := newFood, score := g.score + FoodScore)
    else
      g.(body := [head] + g.body[..|g.body| - 1], dir := g.pending)
  }

  /** The interval only runs `gameLoop` while the game is started and not over. */
  function Tick(g: Game, newFood: Cell): (g': Game)
    requires |g.body| >= 1
    ensures !g.started || g.over ==> g' == g
    ensures g.started && !g.over ==> g' == Move(g, newFood)
  {
    if g.started && !g.over then Move(g, newFood) else g
  }

  datatype Key = ArrowUp | ArrowDown | ArrowLeft | ArrowRight | OtherKey

  /** The direction an arrow key asks for. */
  function KeyDir(k: Key): Dir
    requires !k.OtherKey?
  {
    match k
    case ArrowUp => Up
    case ArrowDown => Down
    case ArrowLeft => Left
    case ArrowRight => Right
  }

  /** Take `d` as the next direction and start the game. */
  function Accept(g: Game, d: Dir): Game {
    g.(pending := d, started := true)
  }

  /**
   * `handleKeyPress`: ignored once the game is over; an arrow is accepted only
   * when it turns a right angle from the committed direction, and only an
   * accepted arrow starts the game.
   */
  function KeyDown(g: Game, k: Key): (g': Game)
    ensures g.over ==> g' == g
    ensures g' == g.(pending := g'.pending, started := g'.started)
    ensures var accepted := !g.over && !k.OtherKey? && Perpendicular(KeyDir(k), g.dir);
      && (accepted ==> g'.pending == KeyDir(k) && g'.started)
      && (!accepted ==> g' == g)
  {
    if g.over then g
    else
      match k
      case ArrowUp => if g.dir.DY() == 0 then Accept(g, Up) else g
      case ArrowDown => if g.dir.DY() == 0 then Accept(g, Down) else g
      case ArrowLeft => if g.dir.DX() == 0 then Accept(g, Left) else g
      case ArrowRight => if g.dir.DX() == 0 then Accept(g, Right) else g
      case OtherKey => g
  }

  /** The pending direction is the committed one or a right-angle turn from it. */
  predicate PendingTurns(g: Game) {
    g.pending == g.dir || Perpendicular(g.pending, g.dir)
  }

  /** Distinct cells, all on the board. */
  predicate WellPlaced(body: seq<Cell>) {
    && (forall i :: 0 <= i < |body| ==> InBounds(body[i]))
    && (forall i, j :: 0 <= i < j < |body| ==> body[i] != body[j])
  }

  /** What holds of every reachable game. */
  predicate Valid(g: Game) {
    && |g.body| >= 1
    && WellPlaced(g.body)
    && InBounds(g.food)
    && PendingTurns(g)
    && g.score >= 0
    && g.score % FoodScore == 0
  }

  lemma InitialValid()
    ensures Valid(Initial())
  {
  }

  /** Restart yields the same state whatever state it is called from. */
  lemma RestartForgetsEverything(g1: Game, g2: Game, newFood: Cell)
    requires InBounds(newFood)
    ensures Restart(g1, newFood) == Restart(g2, newFood)
    ensures Valid(Restart(g1, newFood))
    ensures Restart(g1, Cell(15, 15)) == Initial()
  {
  }

  /** A tick keeps the body on the board and free of repeated cells. */
  lemma MovePreservesValid(g: Game, newFood: Cell)
    requires Valid(g) && InBounds(newFood)
    ensures Valid(Move(g, newFood))
  {
    var head := Step(g.body[0], g.pending);
    var g' := Move(g, newFood);
    if !Collides(head, g.body) {
      var tail := if head == g.food then g.body else g.body[..|g.body| - 1];
      assert g'.body == [head] + tail;
      assert forall i :: 0 <= i < |tail| ==> tail[i] == g.body[i];
      forall i, j | 0 <= i < j < |g'.body|
        ensures g'.body[i] != g'.body[j]
      {
        if i == 0 {
          assert g'.body[j] == g.body[j - 1];
        } else {
          assert g'.body[i] == g.body[i - 1] && g'.body[j] == g.body[j - 1];
        }
      }
      forall i | 0 <= i < |g'.body|
        ensures InBounds(g'.body[i])
      {
        if i > 0 {
          assert g'.body[i] == g.body[i - 1];
        }
      }
    }
  }

  lemma TickPreservesValid(g: Game, newFood: Cell)
    requires Valid(g) && InBounds(newFood)
    ensures Valid(Tick(g, newFood))
  {
    if g.started && !g.over {
      MovePreservesValid(g, newFood);
    }
  }

  lemma KeyDownPreservesValid(g: Game, k: Key)
    requires Valid(g)
    ensures Valid(KeyDown(g, k))
  {
  }

  /** The body grows by one exactly on a tick that eats, and never shrinks. */
  lemma GrowsOnlyOnFood(g: Game, newFood: Cell)
    requires |g.body| >= 1 && !g.over
    ensures var g' := Move(g, newFood);
      && |g'.body| >= |g.body|
      && (|g'.body| == |g.body| + 1 <==> !g'.over && Step(g.body[0], g.pending) == g.food)
      && (g'.score == g.score + FoodScore <==> |g'.body| == |g.body| + 1)
  {
  }

  /**
   * The committed direction never reverses from one tick to the next: the key
   * guard only lets right-angle turns into the pending slot.
   */
  lemma NoReversal(g: Game, newFood: Cell)
    requires |g.body| >= 1 && PendingTurns(g)
    ensures Move(g, newFood).dir != g.dir.Opposite()
  {
  }

  /** Left and Right are both refused from the initial heading, so they do not start the game. */
  lemma HorizontalKeysIgnoredAtStart()
    ensures KeyDown(Initial(), ArrowLeft) == Initial()
    ensures KeyDown(Initial(), ArrowRight) == Initial()
    ensures KeyDown(Initial(), ArrowUp).started && KeyDown(Initial(), ArrowUp).pending == Up
  {
  }

  /**
   * The check runs against the whole body before the move, tail included, so
   * steering into the cell the tail is about to vacate ends the game.
   */
  lemma TailCellIsFatal()
    ensures var g := Game([Cell(5, 5), Cell(5, 6), Cell(6, 6), Cell(6, 5)], Up, Right, Cell(0, 0), 0, true, false);
      Move(g, Cell(1, 1)).over && Move(g, Cell(1, 1)).body == g.body
  {
  }

  /** Two ticks from the start cell: eat on the first, slide on the second. */
  lemma EatThenSlide(f: Cell)
    requires f != Cell(12, 10)
    ensures var g0 := Initial().(food := Cell(11, 10), started := true);
      var g1 := Tick(g0, f);
      var g2 := Tick(g1, Cell(0, 0));
      && g1.body == [Cell(11, 10), Cell(10, 10)] && g1.score == 10 && g1.food == f
      && g2.body == [Cell(12, 10), Cell(11, 10)] && g2.score == 10
  {
  }

}
