/**
 * The side-scrolling platformer of src/components/PlatformerGame.jsx: one
 * player under gravity on a ground line, obstacles scrolling in from the
 * right, a jump armed while Space is held, and a score for every obstacle the
 * player gets past.
 *
 * Pixel positions and speeds are reals (the source's doubles, without IEEE
 * rounding). One call of `updateGame` is `Tick`; the two `Math.random()`
 * draws of a spawn are the parameter `roll`: `None` when the 2% trial fails,
 * `Some(offset)` with the offset in [0, 300) when it succeeds.
 */
module Platformer {

  import opened Options
  import opened Seqs

  const CanvasWidth: real := 800.0
  const CanvasHeight: real := 400.0
  const GroundHeight: real := 50.0
  /** The y coordinate of the top of the ground band. */
  const GroundLine: real := CanvasHeight - GroundHeight
  const Gravity: real := 0.6
  const JumpForce: real := -15.0
  const ScrollSpeed: real := 3.0
  const ObstacleWidth: real := 40.0
  const ObstacleHeight: real := 60.0
  /** An obstacle is dropped once its right edge is at or left of this x. */
  const DropEdge: real := -50.0
  /** A spawn is only tried when the last obstacle's x is below this. */
  const SpawnTrigger: real := CanvasWidth - 200.0
  /** The width of the band right of the canvas where obstacles appear. */
  const SpawnSpread: real := 300.0
  const PassScore: int := 10

  datatype Rect = Rect(x: real, y: real, width: real, height: real)

  datatype Player = Player(x: real, y: real, width: real, height: real, velocityY: real, onGround: bool)

  datatype Obstacle = Obstacle(x: real, y: real, width: real, height: real, passed: bool)

  /** All React state of the component plus the Space entry of `keysRef`. */
  datatype World = World(
    player: Player,
    obstacles: seq<Obstacle>,
    score: int,
    over: bool,
    started: bool,
    scrollX: real,
    spaceHeld: bool)

  function PlayerRect(p: Player): Rect {
    Rect(p.x, p.y, p.width, p.height)
  }

  function ObstacleRect(o: Obstacle): Rect {
    Rect(o.x, o.y, o.width, o.height)
  }

  // ---------------------------------------------------------------- collision

  /** `checkCollision`: strict overlap on both axes. */
  predicate Overlaps(a: Rect, b: Rect) {
    && a.x < b.x + b.width
    && a.x + a.width > b.x
    && a.y < b.y + b.height
    && a.y + a.height > b.y
  }

  lemma OverlapSymmetric(a: Rect, b: Rect)
    ensures Overlaps(a, b) <==> Overlaps(b, a)
  {
  }

  /** Rectangles that only share an edge do not collide. */
  lemma TouchingEdgesDoNotOverlap(a: Rect, b: Rect)
    requires a.x + a.width == b.x || b.x + b.width == a.x || a.y + a.height == b.y || b.y + b.height == a.y
    ensures !Overlaps(a, b)
  {
  }

  /** `(px, py)` lies strictly inside `r`. */
  predicate Inside(px: real, py: real, r: Rect) {
    r.x < px < r.x + r.width && r.y < py < r.y + r.height
  }

  function Max(a: real, b: real): real {
    if a < b then b else a
  }

  function Min(a: real, b: real): real {
    if a < b then a else b
  }

  /** For rectangles of positive size, the overlap test holds exactly when some point lies inside both. */
  lemma OverlapIffCommonPoint(a: Rect, b: Rect)
    requires a.width > 0.0 && a.height > 0.0 && b.width > 0.0 && b.height > 0.0
    ensures Overlaps(a, b) <==> exists px, py :: Inside(px, py, a) && Inside(px, py, b)
  {
    if Overlaps(a, b) {
      var px := (Max(a.x, b.x) + Min(a.x + a.width, b.x + b.width)) / 2.0;
      var py := (Max(a.y, b.y) + Min(a.y + a.height, b.y + b.height)) / 2.0;
      assert Inside(px, py, a) && Inside(px, py, b);
    }
  }

  // ------------------------------------------------------------------ physics

  /** After gravity is applied, the player reaches or passes the ground line. */
  predicate Lands(p: Player) {
    p.y + p.velocityY + Gravity + p.height >= GroundLine
  }

  /**
   * The player part of `updateGame`: gravity, the ground clamp, then a jump
   * if Space is held and the clamp just put the player on the ground.
   */
  function ApplyPhysics(p: Player, jump: bool): (q: Player)
    ensures q.x == p.x && q.width == p.width && q.height == p.height
    ensures q.y + q.height <= GroundLine
    ensures Lands(p) ==> q.y == GroundLine - p.height && q.onGround == !jump
    ensures Lands(p) ==> q.velocityY == (if jump then JumpForce else 0.0)
    ensures !Lands(p) ==> q.velocityY == p.velocityY + Gravity && q.y == p.y + q.velocityY && !q.onGround
  {
    var vy := p.velocityY + Gravity;
    var fallen := p.(velocityY := vy, y := p.y + vy);
    var clamped :=
      if fallen.y + fallen.height >= GroundLine then
        fallen.(y := GroundLine - fallen.height, velocityY := 0.0, onGround := true)
      else
        fallen.(onGround := false);
    if jump && clamped.onGround then clamped.(velocityY := JumpForce, onGround := false)
    else clamped
  }

  /** Holding Space in mid-air does nothing. */
  lemma AirborneJumpIgnored(p: Player)
    requires !Lands(p)
    ensures ApplyPhysics(p, true) == ApplyPhysics(p, false)
  {
  }

  /** From rest on the ground, a jump sets the velocity to exactly -15 and does not move the player in that tick. */
  lemma JumpFromRest(p: Player)
    requires p.y + p.height == GroundLine && p.velocityY == 0.0
    ensures var q := ApplyPhysics(p, true);
      q.velocityY == JumpForce && !q.onGround && q.y == p.y
  {
  }

  // ---------------------------------------------------------------- obstacles

  /** Every obstacle one scroll step further left, in the same order. */
  function ShiftLeft(s: seq<Obstacle>): (r: seq<Obstacle>)
    ensures |r| == |s|
    ensures forall i :: 0 <= i < |s| ==> r[i] == s[i].(x := s[i].x - ScrollSpeed)
  {
    seq(|s|, i requires 0 <= i < |s| => s[i].(x := s[i].x - ScrollSpeed))
  }

  predicate OnScreen(o: Obstacle) {
    o.x + o.width > DropEdge
  }

  /** The filter that removes obstacles that have scrolled off to the left. */
  function DropOffscreen(s: seq<Obstacle>): (r: seq<Obstacle>)
    ensures |r| <= |s|
    ensures forall o :: o in r <==> o in s && o.x + o.width > DropEdge
  {
    Filter(s, OnScreen)
  }

  /** Dropping keeps the survivors in their order: it distributes over concatenation. */
  lemma DropKeepsOrder(a: seq<Obstacle>, b: seq<Obstacle>)
    ensures DropOffscreen(a + b) == DropOffscreen(a) + DropOffscreen(b)
  {
    FilterAppend(a, b, OnScreen);
  }

  /** `generateObstacle`, with `Math.random() * 300` passed in as `offset`. */
  function NewObstacle(offset: real): (o: Obstacle)
    requires 0.0 <= offset < SpawnSpread
    ensures Fresh(o) && o.x == CanvasWidth + offset
  {
    Obstacle(CanvasWidth + offset, CanvasHeight - GroundHeight - ObstacleHeight, ObstacleWidth, ObstacleHeight, false)
  }

  /** An obstacle as `generateObstacle` makes them: right of the canvas, on the ground, 40 by 60, not passed. */
  predicate Fresh(o: Obstacle) {
    && 800.0 <= o.x < 1100.0
    && o.y == 290.0
    && o.width == 40.0 && o.height == 60.0
    && !o.passed
  }

  predicate FairRoll(roll: Option<real>) {
    roll.Some? ==> 0.0 <= roll.value < SpawnSpread
  }

  /** At most one new obstacle, appended, and only when the list is empty or its last obstacle is left of x = 600. */
  function Spawn(s: seq<Obstacle>, roll: Option<real>): (r: seq<Obstacle>)
    requires FairRoll(roll)
    ensures |r| == |s| || |r| == |s| + 1
    ensures r[..|s|] == s
    ensures |r| == |s| + 1 <==> roll.Some? && (|s| == 0 || s[|s| - 1].x < SpawnTrigger)
    ensures |r| == |s| + 1 ==> Fresh(r[|s|])
  {
    if |s| == 0 || s[|s| - 1].x < SpawnTrigger then
      match roll
      case Some(offset) => s + [NewObstacle(offset)]
      case None => s
    else s
  }

  // ------------------------------------------------------------ score and hit

  /** The player's left edge is strictly right of the obstacle's right edge. */
  predicate Behind(p: Rect, o: Obstacle) {
    p.x > o.x + o.width
  }

  datatype ScanResult = ScanResult(obstacles: seq<Obstacle>, gained: int, hit: bool)

  /**
   * The `for (let obs of newObstacles)` loop: stop at the first obstacle that
   * overlaps `p`; before that, mark and score every obstacle not yet passed
   * that `p` is behind.
   */
  function Scan(p: Rect, obs: seq<Obstacle>): (r: ScanResult)
    ensures |r.obstacles| == |obs|
    ensures r.gained >= 0
  {
    if |obs| == 0 then ScanResult([], 0, false)
    else if Overlaps(p, ObstacleRect(obs[0])) then ScanResult(obs, 0, true)
    else
      var o := obs[0];
      var scored := !o.passed && Behind(p, o);
      var rest := Scan(p, obs[1..]);
      ScanResult([if scored then o.(passed := true) else o] + rest.obstacles,
                 (if scored then PassScore else 0) + rest.gained,
                 rest.hit)
  }

  /** The number of obstacles whose `passed` flag went from false to true. */
  function Flips(before: seq<Obstacle>, after: seq<Obstacle>): nat
    requires |before| == |after|
  {
    if |before| == 0 then 0
    else (if !before[0].passed && after[0].passed then 1 else 0) + Flips(before[1..], after[1..])
  }

  /** Obstacles 0 through k are all clear of `p`. */
  predicate ClearThrough(p: Rect, obs: seq<Obstacle>, k: int) {
    forall j :: 0 <= j <= k && j < |obs| ==> !Overlaps(p, ObstacleRect(obs[j]))
  }

  /**
   * The scan only ever sets `passed` flags, on obstacles the player is behind,
   * and scores exactly 10 per flag it sets: an obstacle already passed never
   * scores again.
   */
  lemma {:induction false} ScanOnlyMarksPassed(p: Rect, obs: seq<Obstacle>)
    ensures var r := Scan(p, obs);
      && (forall i :: 0 <= i < |obs| ==> r.obstacles[i] == obs[i].(passed := r.obstacles[i].passed))
      && (forall i :: 0 <= i < |obs| && obs[i].passed ==> r.obstacles[i].passed)
      && (forall i :: 0 <= i < |obs| && !obs[i].passed && r.obstacles[i].passed ==> Behind(p, obs[i]))
      && r.gained == PassScore * Flips(obs, r.obstacles)
  {
    var r := Scan(p, obs);
    if |obs| == 0 {
    } else if Overlaps(p, ObstacleRect(obs[0])) {
      FlipsSame(obs);
    } else {
      var rest := Scan(p, obs[1..]);
      ScanOnlyMarksPassed(p, obs[1..]);
      assert r.obstacles[1..] == rest.obstacles;
      forall i | 1 <= i < |obs|
        ensures r.obstacles[i] == rest.obstacles[i - 1] && obs[i] == obs[1..][i - 1]
      {
      }
    }
  }

  lemma {:induction false} FlipsSame(s: seq<Obstacle>)
    ensures Flips(s, s) == 0
  {
    if |s| > 0 {
      FlipsSame(s[1..]);
    }
  }

  /** Some obstacle of `obs` overlaps `p`. */
  predicate SomeOverlap(p: Rect, obs: seq<Obstacle>) {
    exists i :: 0 <= i < |obs| && Overlaps(p, ObstacleRect(obs[i]))
  }

  /** The scan reports a hit exactly when some obstacle overlaps `p`. */
  lemma {:induction false} ScanHitExactly(p: Rect, obs: seq<Obstacle>)
    ensures Scan(p, obs).hit <==> SomeOverlap(p, obs)
  {
    if |obs| > 0 && !Overlaps(p, ObstacleRect(obs[0])) {
      ScanHitExactly(p, obs[1..]);
      if SomeOverlap(p, obs[1..]) {
        var k :| 0 <= k < |obs| - 1 && Overlaps(p, ObstacleRect(obs[1..][k]));
        assert Overlaps(p, ObstacleRect(obs[k + 1]));
      }
      if SomeOverlap(p, obs) {
        var i :| 0 <= i < |obs| && Overlaps(p, ObstacleRect(obs[i]));
        assert obs[1..][i - 1] == obs[i];
      }
    } else if |obs| > 0 {
      assert Overlaps(p, ObstacleRect(obs[0]));
    }
  }

  /** From an obstacle that overlaps `p` on, the scan leaves the list as it was. */
  lemma {:induction false} ScanStopsAtHit(p: Rect, obs: seq<Obstacle>, i: nat)
    requires i < |obs| && Overlaps(p, ObstacleRect(obs[i]))
    ensures Scan(p, obs).obstacles[i..] == obs[i..]
  {
    if !Overlaps(p, ObstacleRect(obs[0])) {
      var rest := Scan(p, obs[1..]);
      assert obs[1..][i - 1] == obs[i];
      ScanStopsAtHit(p, obs[1..], i - 1);
      assert Scan(p, obs).obstacles[1..] == rest.obstacles;
      assert Scan(p, obs).obstacles[i..] == rest.obstacles[i - 1..];
      assert obs[i..] == obs[1..][i - 1..];
    }
  }

  /**
   * The scan reports a hit exactly when some obstacle overlaps the player;
   * from any such obstacle on, nothing is marked or scored.
   */
  lemma {:induction false} ScanHit(p: Rect, obs: seq<Obstacle>)
    ensures var r := Scan(p, obs);
      && (r.hit <==> exists i :: 0 <= i < |obs| && Overlaps(p, ObstacleRect(obs[i])))
      && (forall i :: 0 <= i < |obs| && Overlaps(p, ObstacleRect(obs[i])) ==> r.obstacles[i..] == obs[i..])
  {
    ScanHitExactly(p, obs);
    forall i | 0 <= i < |obs| && Overlaps(p, ObstacleRect(obs[i]))
      ensures Scan(p, obs).obstacles[i..] == obs[i..]
    {
      ScanStopsAtHit(p, obs, i);
    }
  }

  /** Every obstacle before the first hit ends up passed exactly when it was passed already or the player is behind it. */
  lemma {:induction false} ScanScoresClearedObstacles(p: Rect, obs: seq<Obstacle>)
    ensures var r := Scan(p, obs);
      forall i :: 0 <= i < |obs| && ClearThrough(p, obs, i) ==>
        (r.obstacles[i].passed <==> obs[i].passed || Behind(p, obs[i]))
  {
    var r := Scan(p, obs);
    if |obs| > 0 && !Overlaps(p, ObstacleRect(obs[0])) {
      var rest := Scan(p, obs[1..]);
      ScanScoresClearedObstacles(p, obs[1..]);
      forall i | 1 <= i < |obs| && ClearThrough(p, obs, i)
        ensures r.obstacles[i].passed <==> obs[i].passed || Behind(p, obs[i])
      {
        assert r.obstacles[i] == rest.obstacles[i - 1];
        assert obs[1..][i - 1] == obs[i];
        assert ClearThrough(p, obs[1..], i - 1) by {
          forall j | 0 <= j <= i - 1 && j < |obs| - 1
            ensures !Overlaps(p, ObstacleRect(obs[1..][j]))
          {
            assert obs[1..][j] == obs[j + 1];
          }
        }
      }
    }
  }

  // ------------------------------------------------------------------ the game

  function InitialPlayer(): (p: Player)
    ensures p.y + p.height == GroundLine && p.velocityY == 0.0 && p.onGround
  {
    Player(100.0, CanvasHeight - GroundHeight - 40.0, 30.0, 40.0, 0.0, true)
  }

  function Initial(): World {
    World(InitialPlayer(), [], 0, false, false, 0.0, false)
  }

  /** `restartGame`: player, obstacles, score, scroll and keys back to the first state; not started. */
  function Restart(w: World): (w': World)
    ensures w'.player == Player(100.0, 310.0, 30.0, 40.0, 0.0, true)
    ensures w'.obstacles == [] && w'.score == 0 && w'.scrollX == 0.0
    ensures !w'.over && !w'.started && !w'.spaceHeld
  {
    Initial()
  }

  /**
   * `updateGame`: nothing unless started and not over; otherwise move the
   * player, scroll, shift, drop and maybe spawn obstacles, then scan them
   * against the player as it was before this tick's physics.
   */
  function Tick(w: World, roll: Option<real>): (w': World)
    requires FairRoll(roll)
    ensures !w.started || w.over ==> w' == w
    ensures w.started && !w.over ==>
      && w'.player == ApplyPhysics(w.player, w.spaceHeld)
      && w'.scrollX == w.scrollX + ScrollSpeed
      && w'.started && w'.spaceHeld == w.spaceHeld
      && |w'.obstacles| <= |w.obstacles| + 1
      && w'.score >= w.score
    ensures w.started && !w.over ==>
      var scan := Scan(PlayerRect(w.player), Spawn(DropOffscreen(ShiftLeft(w.obstacles)), roll));
      && w'.obstacles == scan.obstacles
      && w'.over == scan.hit
      && w'.score == w.score + scan.gained
  {
    if w.over || !w.started then w
    else
      var obstacles := Spawn(DropOffscreen(ShiftLeft(w.obstacles)), roll);
      var scan := Scan(PlayerRect(w.player), obstacles);
      w.(player := ApplyPhysics(w.player, w.spaceHeld),
         obstacles := scan.obstacles,
         score := w.score + scan.gained,
         over := scan.hit,
         scrollX := w.scrollX + ScrollSpeed)
  }

  /** The obstacle list a running tick scans: moved, filtered, maybe extended. */
  function Incoming(w: World, roll: Option<real>): seq<Obstacle>
    requires FairRoll(roll)
  {
    Spawn(DropOffscreen(ShiftLeft(w.obstacles)), roll)
  }

  /**
   * A running tick ends the game exactly when one of this tick's obstacles
   * overlaps the player as it stood before the tick, and adds 10 to the score
   * for each obstacle it marks passed.
   */
  lemma TickOutcome(w: World, roll: Option<real>)
    requires FairRoll(roll) && w.started && !w.over
    ensures var w' := Tick(w, roll); var obs := Incoming(w, roll);
      && |w'.obstacles| == |obs|
      && (w'.over <==> exists i :: 0 <= i < |obs| && Overlaps(PlayerRect(w.player), ObstacleRect(obs[i])))
      && w'.score == w.score + PassScore * Flips(obs, w'.obstacles)
  {
    ScanHit(PlayerRect(w.player), Incoming(w, roll));
    ScanOnlyMarksPassed(PlayerRect(w.player), Incoming(w, roll));
  }

  datatype Key = Space | OtherKey

  /** `handleKeyDown`: Space arms the jump, and starts the game when it is neither started nor over. */
  function KeyDown(w: World, k: Key): (w': World)
    ensures k.OtherKey? ==> w' == w
    ensures k.Space? ==> w'.spaceHeld && (w'.started <==> w.started || !w.over)
    ensures w' == w.(spaceHeld := w'.spaceHeld, started := w'.started)
  {
    match k
    case Space => w.(spaceHeld := true, started := if !w.started && !w.over then true else w.started)
    case OtherKey => w
  }

  /** `handleKeyUp`: releasing Space disarms the jump. */
  function KeyUp(w: World, k: Key): (w': World)
    ensures k.OtherKey? ==> w' == w
    ensures k.Space? ==> w' == w.(spaceHeld := false)
  {
    match k
    case Space => w.(spaceHeld := false)
    case OtherKey => w
  }

  /** Only a Space press while neither started nor over starts the game, and a tick never starts it. */
  lemma OnlySpaceStarts(w: World, k: Key, roll: Option<real>)
    requires FairRoll(roll) && !w.started
    ensures KeyDown(w, k).started <==> k.Space? && !w.over
    ensures !KeyUp(w, k).started && !Tick(w, roll).started
  {
  }

  /** What holds of every reachable world. */
  predicate Valid(w: World) {
    && w.player.x == 100.0 && w.player.width == 30.0 && w.player.height == 40.0
    && w.player.y + w.player.height <= GroundLine
    && (forall i :: 0 <= i < |w.obstacles| ==> Standard(w.obstacles[i]))
    && (forall i :: 0 <= i < |w.obstacles| && w.obstacles[i].passed ==> Behind(PlayerRect(w.player), w.obstacles[i]))
    && w.score >= 0
  }

  /** Every obstacle keeps `generateObstacle`'s y and size. */
  predicate Standard(o: Obstacle) {
    o.y == 290.0 && o.width == ObstacleWidth && o.height == ObstacleHeight
  }

  /** Every obstacle of `obs` is standard, and every passed one is behind `p`. */
  predicate ObstaclesValid(p: Rect, obs: seq<Obstacle>) {
    forall i :: 0 <= i < |obs| ==> Standard(obs[i]) && (obs[i].passed ==> Behind(p, obs[i]))
  }

  /** Moving, dropping and spawning keep the obstacles standard and the passed ones behind the player. */
  lemma IncomingValid(w: World, roll: Option<real>)
    requires Valid(w) && FairRoll(roll)
    ensures ObstaclesValid(PlayerRect(w.player), Incoming(w, roll))
  {
    var p := PlayerRect(w.player);
    var shifted := ShiftLeft(w.obstacles);
    var dropped := DropOffscreen(shifted);
    var obs := Incoming(w, roll);
    assert ObstaclesValid(p, shifted);
    assert forall o :: o in dropped ==> o in shifted;
    forall i | 0 <= i < |obs|
      ensures Standard(obs[i]) && (obs[i].passed ==> Behind(p, obs[i]))
    {
      if i < |dropped| {
        assert obs[i] == obs[..|dropped|][i] == dropped[i];
        var j :| 0 <= j < |shifted| && shifted[j] == dropped[i];
      }
    }
  }

  /** The scan keeps the obstacles standard and only marks obstacles the player is behind. */
  lemma ScannedValid(p: Rect, obs: seq<Obstacle>)
    requires ObstaclesValid(p, obs)
    ensures ObstaclesValid(p, Scan(p, obs).obstacles)
  {
    ScanOnlyMarksPassed(p, obs);
  }

  /**
   * A tick keeps the player above the ground, every obstacle standard, every
   * passed obstacle behind the player, and the score non-negative.
   */
  lemma TickPreservesValid(w: World, roll: Option<real>)
    requires Valid(w) && FairRoll(roll)
    ensures Valid(Tick(w, roll))
  {
    if w.started && !w.over {
      TickKeepsObstaclesValid(w, roll);
      ValidFromParts(Tick(w, roll));
    }
  }

  lemma TickKeepsObstaclesValid(w: World, roll: Option<real>)
    requires Valid(w) && FairRoll(roll) && w.started && !w.over
    ensures var w' := Tick(w, roll); ObstaclesValid(PlayerRect(w'.player), w'.obstacles)
  {
    var p := PlayerRect(w.player);
    var obs := Incoming(w, roll);
    IncomingValid(w, roll);
    ScannedValid(p, obs);
    var w' := Tick(w, roll);
    assert w'.obstacles == Scan(p, obs).obstacles;
    assert PlayerRect(w'.player) == p.(y := w'.player.y);
  }

  lemma ValidFromParts(w: World)
    requires w.player.x == 100.0 && w.player.width == 30.0 && w.player.height == 40.0
    requires w.player.y + w.player.height <= GroundLine
    requires ObstaclesValid(PlayerRect(w.player), w.obstacles)
    requires w.score >= 0
    ensures Valid(w)
  {
  }

  /** Under the invariant, an obstacle that has been passed can never be the one that ends the game. */
  lemma PassedNeverCollides(w: World, i: nat)
    requires Valid(w) && i < |w.obstacles| && w.obstacles[i].passed
    ensures !Overlaps(PlayerRect(w.player), ObstacleRect(w.obstacles[i]))
  {
  }

  /** Restart yields the same world from any world, and it is valid. */
  lemma RestartValid(w1: World, w2: World)
    ensures Restart(w1) == Restart(w2) && Valid(Restart(w1))
  {
  }

  lemma KeysPreserveValid(w: World, k: Key)
    requires Valid(w)
    ensures Valid(KeyDown(w, k)) && Valid(KeyUp(w, k))
  {
  }

  /** Every input the platformer reacts to, as one atomic transition each. */
  datatype Event =
    | TickEvent(roll: Option<real>)
    | KeyDownEvent(key: Key)
    | KeyUpEvent(key: Key)
    | RestartEvent

  function Apply(w: World, e: Event): World
    requires e.TickEvent? ==> FairRoll(e.roll)
  {
    match e
    case TickEvent(roll) => Tick(w, roll)
    case KeyDownEvent(k) => KeyDown(w, k)
    case KeyUpEvent(k) => KeyUp(w, k)
    case RestartEvent => Restart(w)
  }

  predicate FairEvents(events: seq<Event>) {
    forall i :: 0 <= i < |events| ==> (events[i].TickEvent? ==> FairRoll(events[i].roll))
  }

  function Run(w: World, events: seq<Event>): World
    requires FairEvents(events)
    decreases |events|
  {
    if |events| == 0 then w else Run(Apply(w, events[0]), events[1..])
  }

  /**
   * From the first state, any run of ticks, key presses, releases and
   * restarts keeps the player out of the ground and every passed obstacle
   * behind the player.
   */
  lemma {:induction false} RunPreservesValid(w: World, events: seq<Event>)
    requires Valid(w) && FairEvents(events)
    ensures Valid(Run(w, events))
    decreases |events|
  {
    if |events| > 0 {
      match events[0] {
        case TickEvent(roll) => TickPreservesValid(w, roll);
        case KeyDownEvent(k) => KeysPreserveValid(w, k);
        case KeyUpEvent(k) => KeysPreserveValid(w, k);
        case RestartEvent => RestartValid(w, w);
      }
      RunPreservesValid(Apply(w, events[0]), events[1..]);
    }
  }

  /** A jump from the starting position: velocity -15 and no movement in the first tick, 14.4 px up in the second. */
  lemma JumpScenario()
    ensures var w0 := Initial().(started := true, spaceHeld := true);
      var w1 := Tick(w0, None);
      var w2 := Tick(w1, None);
      && w1.player.velocityY == -15.0 && w1.player.y == 310.0 && !w1.player.onGround
      && w2.player.velocityY == -14.4 && w2.player.y == 310.0 - 14.4
  {
  }

}
