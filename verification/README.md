# Launchpad mini-apps in Dafny

This project models the logic cores of a small React launchpad site and proves properties about them.

- **The grid snake.** It appears twice in the repository: a keyboard-only copy and a copy with touch input. Both run the same state machine, so one `Snake` module models both. `SnakeTouch` adds the swipe-and-tap layer.
- **The side-scrolling platformer tick** (`Platformer`).
- **The slide navigation of the blog's image carousel** (`Carousel`).
- **The two static registries**: the route table with its menu query (`Routes`) and the mini-app table with its lookup and grouping queries (`AppRegistry`). `Seqs` holds the JavaScript array idioms they share: `filter`, `find` and `[...new Set(xs)]`.

Every game is an immutable state record plus pure transition functions. Each of the following is one atomic step:

- a timer tick;
- a key press or release;
- the end of a touch;
- a restart;
- the carousel's animation timer.

Whatever the browser supplies is an explicit parameter:

- `Math.random()` results: the new food cell, and the platformer's spawn trial and offset;
- `Date.now()` differences: the touch duration in milliseconds;
- touch coordinates.

Distances are compared squared instead of through `Math.sqrt`. Platformer positions are `real`s. Each registry query takes its table as a parameter, so its contract is stated for any table whose keys are ordinary strings (see Left out). Separate lemmas then instantiate the queries with the current tables.

Three behaviours of the code that are easy to misread; the model follows the code:

- **Platformer jump timing.** The jump test reads `onGround` after the ground clamp of the same tick, not at the start of the tick. So a player who lands in this tick can jump in it too.
- **Platformer jump velocity.** The jump sets the velocity to exactly -15. Gravity is applied before the jump, not after, so a player jumping from rest on the ground does not move in the tick that jumps (`Platformer.JumpFromRest`, `Platformer.JumpScenario`).
- **Snake touch after game over.** The snake's touch handler does not check game-over before steering. Only the start-the-game step checks it. A touch after game over can therefore still change the pending direction; the next restart discards it.

Two behaviours of the snake come straight from the code and are kept as they are:

- **The tail cell is fatal.** The collision test runs against the body before the move, tail cell included (`Snake.TailCellIsFatal`).
- **Food can land on the body.** A new food cell is not checked against the body. The only requirement on it is that it lies on the board.

## Model

| member | source | states |
|---|---|---|
| `Snake.CheckCollision` | src/components/games/SnakeGame.jsx:40-52 | the scan reports a hit exactly when the head is off the 20 by 20 board or equals some cell of the body |
| `Snake.CollidesMeansHit` | src/components/SnakeGame.jsx:36-48 | the keyboard-only copy's collision test is the same bounds-or-membership predicate that the tick uses |
| `Snake.Initial` | src/components/SnakeGame.jsx:20-24 | the first state: body [(10,10)], heading right (committed and pending), food (15,15), score 0, not started, not over |
| `Snake.Restart` | src/components/games/SnakeGame.jsx:303-311 | restart is the initial state with freshly drawn food, whatever state it starts from |
| `Snake.RestartForgetsEverything` | src/components/SnakeGame.jsx:197-205 | any two states restart to the same state; that state is valid, and with food (15,15) it is the initial state |
| `Snake.Move` | src/components/games/SnakeGame.jsx:55-82 | the pending direction becomes the committed one; on a collision the game ends and body, score and food stay; otherwise the new head leads the old body, the tail is kept exactly when the head is on the food, eating adds 10 and moves the food |
| `Snake.GrowsOnlyOnFood` | src/components/SnakeGame.jsx:66-76 | the body never shrinks; it grows by one exactly on a tick that does not collide and moves onto the food; the score rises by 10 exactly when it grows |
| `Snake.Tick` | src/components/games/SnakeGame.jsx:283-295 | the game loop moves the snake only while the game is started and not over; otherwise the state is left exactly as it was |
| `Snake.KeyDown` | src/components/games/SnakeGame.jsx:140-174 | keys are ignored after game over; an arrow is accepted exactly when it is a right-angle turn from the committed direction; an accepted arrow sets the pending direction and starts the game; nothing else changes |
| `Snake.HorizontalKeysIgnoredAtStart` | src/components/SnakeGame.jsx:136-170 | from the initial heading, Left and Right change nothing and do not start the game, while Up does both |
| `Snake.MovePreservesValid` | src/components/games/SnakeGame.jsx:65-80 | a tick keeps the body on the board and free of repeated cells, the food on the board, the score a non-negative multiple of 10, and the pending direction at most a right angle from the committed one |
| `Snake.TickPreservesValid` | src/components/SnakeGame.jsx:177-189 | the guarded tick preserves the same invariant |
| `Snake.KeyDownPreservesValid` | src/components/SnakeGame.jsx:137-170 | key handling preserves the invariant |
| `Snake.InitialValid` | src/components/games/SnakeGame.jsx:9-10 | the initial state satisfies the invariant |
| `Snake.NoReversal` | src/components/games/SnakeGame.jsx:57 | when the pending direction is the committed one or a right angle from it, a tick never reverses the committed direction |
| `Snake.TailCellIsFatal` | src/components/games/SnakeGame.jsx:64-68 | in a four-cell square, stepping into the cell the tail occupies ends the game and keeps the body |
| `Snake.EatThenSlide` | src/components/SnakeGame.jsx:51-78 | from (10,10) heading right with food at (11,10), one tick eats (length 2, score 10, new food) and the next slides without growing |
| `SnakeTouch.Classify` | src/components/games/SnakeGame.jsx:220-234 | a displacement gives no direction exactly when it is zero; the direction is horizontal exactly when the horizontal magnitude is strictly larger, so ties go vertical; the direction points the same way as the displacement |
| `SnakeTouch.Steer` | src/components/games/SnakeGame.jsx:248-262 | only the pending direction may change; it becomes the classified direction exactly when that is a right angle from the committed one |
| `SnakeTouch.TouchEnd` | src/components/games/SnakeGame.jsx:207-269 | body, committed direction, food, score and game-over are untouched; the game is started afterwards exactly when it was started or is not over; a new pending direction is always a right-angle turn; a swipe (over 30 px) steers by its displacement, otherwise a tap (under 300 ms) steers by the offset of the touch from the head's pixel centre, and any other touch does not steer |
| `SnakeTouch.TapOnHeadChangesNothing` | src/components/games/SnakeGame.jsx:238-246 | a tap exactly on the head's pixel centre (x*20+10, y*20+10) changes only the started flag |
| `SnakeTouch.TiesGoVertical` | src/components/games/SnakeGame.jsx:218-234 | a diagonal swipe with equal components, while heading horizontally, turns down or up |
| `SnakeTouch.ApplyPreservesValid` | src/components/games/SnakeGame.jsx:140-311 | every tick, key, touch or restart with on-board food preserves the snake invariant |
| `SnakeTouch.RunPreservesValid` | src/components/games/SnakeGame.jsx:55-311 | any run of such inputs from a valid state ends in a valid state |
| `SnakeTouch.NeverReverses` | src/components/games/SnakeGame.jsx:10 | after any run of inputs from the initial state, no tick reverses the committed direction |
| `Platformer.OverlapSymmetric` | src/components/PlatformerGame.jsx:50-57 | the collision test is symmetric |
| `Platformer.TouchingEdgesDoNotOverlap` | src/components/PlatformerGame.jsx:52-55 | rectangles that share only an edge do not collide |
| `Platformer.OverlapIffCommonPoint` | src/components/PlatformerGame.jsx:51-56 | for rectangles of positive size, the test holds exactly when some point lies strictly inside both |
| `Platformer.ApplyPhysics` | src/components/PlatformerGame.jsx:67-84 | the player never ends below the ground line; on landing it rests on the ground with velocity 0, or takes off at -15 when Space is held; in the air the velocity grows by 0.6 and y moves by the new velocity; x and size are unchanged |
| `Platformer.AirborneJumpIgnored` | src/components/PlatformerGame.jsx:81-84 | holding Space in mid-air makes no difference |
| `Platformer.JumpFromRest` | src/components/PlatformerGame.jsx:72-84 | from rest on the ground, a held Space sets the velocity to exactly -15 and leaves y unchanged in that tick |
| `Platformer.ShiftLeft` | src/components/PlatformerGame.jsx:95-98 | every obstacle moves exactly 3 left, in the same order, with nothing else changed |
| `Platformer.DropOffscreen` | src/components/PlatformerGame.jsx:101 | an obstacle survives exactly when its right edge is right of -50 |
| `Platformer.DropKeepsOrder` | src/components/PlatformerGame.jsx:100-101 | dropping distributes over concatenation, so survivors keep their order |
| `Platformer.NewObstacle` | src/components/PlatformerGame.jsx:38-47 | for any random offset in [0, 300) the new obstacle is standard: x = 800 + offset, on the ground at y 290, 40 by 60, not passed |
| `Platformer.Spawn` | src/components/PlatformerGame.jsx:104-108 | at most one obstacle is appended and nothing else changes; one is appended exactly when the random trial succeeds and the list is empty or its last obstacle is left of x = 600; the new one, as `generateObstacle` makes it, has x in [800,1100), y 290, size 40 by 60, not passed |
| `Platformer.Scan` | src/components/PlatformerGame.jsx:111-122 | the scan returns one obstacle per input obstacle and never loses score |
| `Platformer.ScanOnlyMarksPassed` | src/components/PlatformerGame.jsx:117-121 | the scan changes only `passed` flags; it never clears one; it sets one only on an obstacle the player is strictly past; it scores exactly 10 per flag it sets, so an obstacle scores at most once |
| `Platformer.ScanHitExactly` | src/components/PlatformerGame.jsx:111-116 | the scan reports a hit exactly when some obstacle overlaps the player |
| `Platformer.ScanStopsAtHit` | src/components/PlatformerGame.jsx:112-116 | from an obstacle that overlaps the player on, the scan leaves the list as it was |
| `Platformer.ScanHit` | src/components/PlatformerGame.jsx:111-116 | a hit is reported exactly when some obstacle overlaps the player; from any overlapping obstacle on, the list is left as it was |
| `Platformer.ScanScoresClearedObstacles` | src/components/PlatformerGame.jsx:111-122 | every obstacle up to which no obstacle overlaps ends up passed exactly when it was passed or the player is strictly past it |
| `Platformer.InitialPlayer` | src/components/PlatformerGame.jsx:22-29 | the player starts standing on the ground at rest |
| `Platformer.Restart` | src/components/PlatformerGame.jsx:219-234 | restart gives the player (100, 310, 30 by 40, velocity 0, on the ground), no obstacles, score and scroll 0, Space released, not started and not over |
| `Platformer.RestartValid` | src/components/PlatformerGame.jsx:220-233 | restart yields the same state from any state, and it is valid |
| `Platformer.Tick` | src/components/PlatformerGame.jsx:60-126 | nothing happens unless started and not over; otherwise the player gets the physics step, the scroll grows by 3, and the obstacles, the game-over flag and the score gain are exactly those of scanning the shifted, culled and spawned list against the player as it stood before the tick |
| `Platformer.TickOutcome` | src/components/PlatformerGame.jsx:94-126 | a running tick ends the game exactly when one of this tick's obstacles overlaps the player as it stood before the tick, and adds 10 per obstacle it marks passed |
| `Platformer.KeyDown` | src/components/PlatformerGame.jsx:168-176 | Space arms the jump and starts the game exactly when it is not over or already started; other keys change nothing |
| `Platformer.KeyUp` | src/components/PlatformerGame.jsx:178-183 | releasing Space disarms the jump and changes nothing else |
| `Platformer.OnlySpaceStarts` | src/components/PlatformerGame.jsx:169-175 | from a state not started, only a Space press when not over starts the game; a key release or a tick never does |
| `Platformer.IncomingValid` | src/components/PlatformerGame.jsx:95-108 | shifting, dropping and spawning keep every obstacle at y 290 with size 40 by 60, and every passed obstacle behind the player |
| `Platformer.ScannedValid` | src/components/PlatformerGame.jsx:111-122 | the scan keeps that obstacle invariant |
| `Platformer.TickKeepsObstaclesValid` | src/components/PlatformerGame.jsx:60-126 | after a running tick every passed obstacle is still behind the player, who moves only vertically |
| `Platformer.ValidFromParts` | src/components/PlatformerGame.jsx:22-29 | the player's fixed x and size, the ground bound, the obstacle invariant and a non-negative score make a valid state |
| `Platformer.TickPreservesValid` | src/components/PlatformerGame.jsx:60-126 | a tick keeps the player at x 100 with size 30 by 40 and above the ground, the obstacles standard, passed obstacles behind the player, and the score non-negative |
| `Platformer.KeysPreserveValid` | src/components/PlatformerGame.jsx:168-183 | key presses and releases preserve the invariant |
| `Platformer.PassedNeverCollides` | src/components/PlatformerGame.jsx:112-118 | under the invariant, an obstacle already passed cannot overlap the player |
| `Platformer.RunPreservesValid` | src/components/PlatformerGame.jsx:60-234 | any run of ticks, key presses, releases and restarts from a valid state ends in a valid state |
| `Platformer.JumpScenario` | src/components/PlatformerGame.jsx:68-84 | from the start with Space held, the first tick gives velocity -15 at y 310, the second velocity -14.4 at y 310 - 14.4 |
| `Carousel.Initial` | src/components/knowledge/ImageCarousel.jsx:5-6 | the carousel starts at slide 0, not animating |
| `Carousel.Previous` | src/components/knowledge/ImageCarousel.jsx:11-17 | locked: no change; otherwise the index becomes (i - 1) mod n and the lock is taken |
| `Carousel.Next` | src/components/knowledge/ImageCarousel.jsx:19-25 | locked: no change; otherwise the index becomes (i + 1) mod n and the lock is taken |
| `Carousel.TimerExpired` | src/components/knowledge/ImageCarousel.jsx:99-104 | the reset timer releases the lock and keeps the slide and the slide count, so a valid view stays valid |
| `Carousel.KeyDown` | src/components/knowledge/ImageCarousel.jsx:35-41 | ArrowLeft is exactly a step back, ArrowRight exactly a step forward, any other key changes nothing |
| `Carousel.TouchEnd` | src/components/knowledge/ImageCarousel.jsx:67-85 | no recorded touch changes nothing; a drag steps back or forward exactly as `SwipeNav` classifies it, and changes nothing when it classifies no swipe |
| `Carousel.GoToSlide` | src/components/knowledge/ImageCarousel.jsx:27-31 | locked, or asked for the current slide: no change; otherwise the index becomes k and the lock is taken |
| `Carousel.GoToCurrentIsNoOp` | src/components/knowledge/ImageCarousel.jsx:28 | choosing the current slide changes nothing and starts no animation |
| `Carousel.SwipeNav` | src/components/knowledge/ImageCarousel.jsx:67-85 | a swipe navigates exactly when it is longer than 50 px and mostly horizontal; it goes back exactly when dragged right |
| `Carousel.InputsNavigate` | src/components/knowledge/ImageCarousel.jsx:35-41 | a key or a touch end moves at most one slide, and a mostly vertical drag does nothing |
| `Carousel.NextThenPrevious` | src/components/knowledge/ImageCarousel.jsx:11-25 | next then previous, or previous then next, with the lock released in between, returns to the same slide |
| `Carousel.ForwardAdvances` | src/components/knowledge/ImageCarousel.jsx:19-25 | for every n, from an idle view, n forward steps (each released by the timer) advance the index by n modulo the number of slides and leave the view idle |
| `Carousel.FullCycle` | src/components/knowledge/ImageCarousel.jsx:19-25 | count forward steps return to the starting slide |
| `Carousel.Run` | src/components/knowledge/ImageCarousel.jsx:11-31 | under any inputs, with indicator clicks naming real slides, the index stays in range, the count never changes, and a held lock is released only by the timer |
| `Carousel.LockedIgnoresNavigation` | src/components/knowledge/ImageCarousel.jsx:99-104 | while the lock is held, every input except the timer leaves the view as it is |
| `Routes.ToItems` | src/constants/routes.js:51-55 | the `map` step gives one item per entry, in order, with the key as path and the caption and icon copied |
| `Routes.MenuItems` | src/constants/routes.js:48-56 | there are at most as many items as entries; every shown entry yields an item; every item comes from a shown entry, with the key as path and the caption and icon copied |
| `Routes.MenuKeepsOrder` | src/constants/routes.js:49-51 | building the menu distributes over concatenation, so items keep declaration order |
| `Routes.AllShownMenu` | src/constants/routes.js:50-55 | when every entry is shown, the menu has exactly one item per entry, in order |
| `Routes.RouteListFacts` | src/constants/routes.js:6-16 | `ROUTE_LIST` is the four paths in declaration order and has no duplicates |
| `Routes.MetadataCoversRoutes` | src/constants/routes.js:21-42 | the metadata keys are exactly `ROUTE_LIST` in order, so every route has an entry |
| `Routes.CurrentMenu` | src/constants/routes.js:16-42 | with the current table the menu has four items whose paths are `ROUTE_LIST` in order |
| `Seqs.Filter` | src/constants/routes.js:50 | the filter keeps exactly the elements that pass, and never more elements than it was given |
| `Seqs.Find` | src/constants/apps.js:56 | `find` returns the first element that passes, or nothing exactly when none passes |
| `Seqs.Dedupe` | src/constants/apps.js:87 | `[...new Set(xs)]` has no duplicates, holds exactly the elements of xs, and lists them in first-occurrence order |
| `AppRegistry.GetAppById` | src/constants/apps.js:55-57 | the result is the first app with that id, or nothing exactly when no app has it |
| `AppRegistry.GetAppByPath` | src/constants/apps.js:64-66 | the result is the first app with that path, or nothing exactly when no app has it |
| `AppRegistry.LookupOwnId` | src/constants/apps.js:55-57 | when ids are unique, looking an app up by its own id returns that app |
| `AppRegistry.GetAppsByCategory` | src/constants/apps.js:72-80 | the groups are keyed by exactly the categories that occur |
| `AppRegistry.GroupIsFilter` | src/constants/apps.js:73-79 | each group holds exactly its category's apps in table order, and is not empty |
| `AppRegistry.GroupsAreFilters` | src/constants/apps.js:72-80 | this holds for every group at once |
| `AppRegistry.GetCategories` | src/constants/apps.js:86-88 | the categories have no duplicates, are exactly the categories of some app, and come in first-occurrence order |
| `AppRegistry.CategoriesAreGroupKeys` | src/constants/apps.js:72-88 | the categories are exactly the keys of the grouping |
| `AppRegistry.GroupSizesSum` | src/constants/apps.js:73-79 | the group sizes, summed over the categories, equal the number of apps |
| `AppRegistry.StaticIdsUnique` | src/constants/apps.js:22-48 | the ids in `APPS` are distinct, and every app is found by its own id |
| `AppRegistry.StaticPathsAreRoutes` | src/constants/apps.js:28-44 | every app's path is a `ROUTES` value |
| `AppRegistry.StaticCategoriesHaveMetadata` | src/constants/apps.js:86-111 | the current categories are games then knowledge, and each has display metadata |

## Left out

- Canvas drawing, theme colours, `requestAnimationFrame`, and the carousel's and blog's markup. These render and change no state.
- Intervals, timeouts, React effects, listener registration and state batching. Each tick, key event, touch end, restart and timer expiry is one atomic transition instead. The snake's and platformer's `setInterval` periods (150 ms and 1000/60 ms) and the carousel's 300 ms delay set timing only.
- `Math.random()`. It becomes a parameter: the food cell is required to lie on the board, and the spawn offset to lie in [0, 300).
- The 2% spawn chance. A successful or failed trial is the parameter itself, so the model says nothing about frequency.
- `Date.now()`, `getBoundingClientRect` and the touch-start and touch-move handlers. They only record positions and times, which arrive as parameters.
- IEEE-754 rounding in the platformer. Positions and speeds are exact reals.
- The carousel with no images. The component renders nothing, so the model keeps at least one slide. With one image it renders no navigation, but the model still admits the inputs; with one slide every navigation keeps index 0.
- `Platformer.Valid`: does not include "the score is a multiple of 10". The model shows only that each tick adds `PassScore` times a count (`Platformer.TickOutcome`).
- JavaScript object keys that are not ordinary strings. In the source, `acc[app.category]` reads an inherited `Object.prototype` member when the category is `toString`, `constructor` or `__proto__`, and the following `.push` then throws; `AppRegistry.GetAppsByCategory` returns a group for such a category instead. The current tables use no such key.
- `Routes.MenuKeepsOrder`: `Object.entries` lists integer-like keys first, in ascending order, and only then the other keys in declaration order. The model's menu keeps declaration order, which is the source's order only when no key is integer-like, as holds for the route paths, which all start with `/`.
- The navigation of the launchpad menu, the home buttons and the routes in `src/App.jsx`. This is UI wiring that uses the tables modelled here.
- The blog viewer and list, the theme context and toggle, the server and the app configuration. These are not part of this model.
