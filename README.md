# Catch game bookkeeping, in Dafny

This project models the integer and list bookkeeping of `game.js`, a one-page
bat-and-ball catch game. Enemy balls spawn at a shrinking interval. The player
fires up to three balls of their own from the bat. A player ball that touches an
enemy ball scores a point and marks that enemy as clicked, and the next frame removes
it. The game ends once 20 enemy balls are in play.

Three modules:

- `Balls` (`balls.dfy`)
  - The ball record and the two ways a ball is created: a player ball or a random enemy ball.
  - Recursive count and filter functions over the ball list, with their lemmas.
  - The scoring pass of `Ball.update`, as functions on the list.
  - The two loops of `gameLoop` that only read the list: the filter with its player
    count, and the enemy count. Each is a method proved to compute its function.
- `GameRules` (`rules.dfy`)
  - The whole game state as a value `GameState`.
  - One function per step of the frame: countdown, conditional shot, timed spawn,
    filter and recount, game-over test, scoring.
  - `Frame` for one call of `gameLoop`, and `Run` for a sequence of frames.
  - The invariant `Inv` every reachable state keeps, and the lemmas about one frame
    and about every run of frames.
- `CatchGame` (`game.dfy`)
  - The script's mutable objects as classes. `Bat` is the `bat` object literal.
    `Game` holds the module-level variables.
  - Methods `InitGame`, `ShootBall`, `MouseMove` and `GameLoop` change these fields
    in place, through the helpers `SpawnEnemy`, `RemoveClicked`, `UpdateBalls` and
    the per-ball `UpdateBall`.
  - `InitGame`, `ShootBall` and `GameLoop` move `State()` exactly as `Reset`, `Shoot`
    and `Frame` of `GameRules` do. They keep `Valid()`, which is `Inv(State())`.
    `MouseMove` clamps the mouse, changes nothing else, and leaves `Valid()` as it was.
    So every lemma about those functions holds for the objects too.
  - The helpers state only the new state, not `Valid()`:
    - `SpawnEnemy`, `RemoveClicked` and `UpdateBalls` match `Spawn`, `Recount` and `Hits`;
    - `UpdateBall` gives the new ball list as `Balls.UpdatedBy`, and the score raised
      by the balls it marks.
    `GameLoop` puts them together and proves the invariant for the whole frame.

A frame's random draws and the geometric overlap test are not computed. They come from
outside, in a `FrameInput`:
- the shot radius;
- the enemy radius and palette index;
- the frame timestamp and whether the button is held;
- `touching(i, j)`, which says whether ball `i` overlaps ball `j` when ball `i` is updated.

Consequence of the code as written: `balls.filter` removes only clicked balls. Only
enemy balls are ever clicked, so a player ball is never removed, and `bat.ballsShot`
never falls. After the third shot the bat cannot fire again until `initGame`. This is
proved as `GameRules.StaysAtThree` and `GameRules.RunKeepsInv`. The comment above the
filter (`game.js:255`) speaks of balls that have vanished from the screen. Those are
the clicked balls, which `update` and `draw` skip (`game.js:61`, `game.js:158`).

## Model

| member | source | states |
|---|---|---|
| Balls.FilterClicked | game.js:256-262 | the loop returns exactly the unclicked balls, in order, and the number of player balls among them |
| Balls.CountEnemies | game.js:265-268 | the loop counts exactly the balls that are not player balls |
| Balls.UnclickedSpec | game.js:257-261 | a ball is kept iff it is in the list and not clicked; the filtered list is shorter by the number of clicked balls and holds no clicked ball; filtering distributes over concatenation, so the order is kept |
| Balls.UnclickedKeepsPlayers | game.js:257-262 | when only enemy balls can be clicked, the filter keeps every player ball in order, so the recount gives the same number; the enemy count can only fall |
| Balls.CountsAppend | game.js:207 | appending a ball adds its kind and clicked flag to the counts and the player list, and nothing more |
| Balls.KindsPartition | game.js:259 | every ball is counted as a player ball or as an enemy ball, never both |
| Balls.MarkedByStep | game.js:95-124 | updating ball i, after balls 0..i-1, marks exactly the enemy balls that an unclicked player ball among 0..i touches |
| Balls.AfterHitsSpec | game.js:60-61 | the scoring pass keeps the length; a ball it changes is an unclicked enemy ball and becomes clicked; the player balls and the enemy count stay the same |
| Balls.GainOfFresh | game.js:116-119 | starting from a list with no clicked ball, the points scored equal the balls marked, and never exceed the enemy balls present |
| GameRules.Clamp | game.js:296-297 | `Math.max(lo, Math.min(hi, v))` never goes below lo; it stays at most hi when the range is non-empty; inside the range it returns v, below it lo, above it hi; with an empty range it returns lo |
| GameRules.ResetSpec | game.js:213-223 | `initGame` gives a running game that keeps the invariant; it is idempotent, and the state made by loading the script is already reset |
| GameRules.ShootGate | game.js:195-210 | `shootBall` leaves the state unchanged iff the cooldown is positive or three balls are out; otherwise it appends exactly one unclicked player ball, raises `ballsShot` by one, sets the cooldown to 10 and changes nothing else |
| GameRules.ShootKeepsInv | game.js:195-210 | a shot keeps the invariant and puts its ball after the existing player balls |
| GameRules.ArmedSpec | game.js:233-244 | the countdown and conditional shot keep the invariant; the bat fires exactly when the button is held, the cooldown is at most 1 and a ball is free |
| GameRules.SpawnSpec | game.js:247-253 | a spawn adds one enemy ball exactly when it is due, and changes no player ball |
| GameRules.RecountSpec | game.js:256-262 | the filter and recount keep the invariant, leave no clicked ball, keep every player ball, and never add an enemy ball |
| GameRules.CountedSpec | game.js:233-262 | the state just before the game-over test: the cooldown, timer and interval as the steps set them, the player balls before plus the shot, and at most one more enemy ball |
| GameRules.FrameKeepsInv | game.js:226-287 | one frame keeps the invariant: `ballsShot` equals the number of player balls and is at most 3; the cooldown is within 0..10; the interval is within 200..1000; every ball is well formed; a running game has fewer than 20 enemy balls |
| GameRules.FrameShots | game.js:236-244 | the cooldown drops by one while positive and is reset to 10 only by a shot; a shot needs the button, a cooldown of 0 after the countdown and fewer than 3 balls out; the player balls are those before plus the new one, all counted in `ballsShot` |
| GameRules.FrameSpawn | game.js:247-253 | an enemy ball is due exactly when more than `ballInterval` ms have passed since `lastBallTime`; then `lastBallTime` becomes the timestamp and the interval becomes max(200, interval - 10); the interval never grows and never falls below 200 |
| GameRules.FrameGameOver | game.js:264-274 | the game ends exactly when the enemy count after the filter reaches 20; that frame leaves exactly 20 enemy balls and no score; otherwise the score rises by the number of enemy balls marked |
| GameRules.RunFrozen | game.js:227 | once the game is over, any number of frames changes nothing |
| GameRules.RunKeepsInv | game.js:226-287 | over any run of frames the invariant holds; the player balls before are a prefix of those after; `ballsShot` never falls; the interval never grows and stays at least 200; a finished game stays finished |
| GameRules.StaysAtThree | game.js:196 | after the third shot, `ballsShot` stays 3 and the bat never fires again over any later frames: the player balls after the run are exactly those before it |
| Balls.PlayerBall | game.js:199-205 | reference definition of a fired ball (player colour, not clicked); properties in GameRules.ShootGate and GameRules.ShootKeepsInv |
| Balls.EnemyBall | game.js:42-56 | reference definition of a spawned ball (palette colour, not clicked); properties in GameRules.SpawnSpec |
| Balls.Unclicked | game.js:257-261 | reference definition of the filter; properties in Balls.UnclickedSpec and Balls.UnclickedKeepsPlayers |
| Balls.HitBy | game.js:95-124 | reference definition of what updating ball i does to ball j; properties in Balls.MarkedByStep |
| Balls.UpdatedBy | game.js:95-124 | reference definition of one ball's update on the list; properties in Balls.MarkedByStep |
| Balls.MarkedBy | game.js:280-283 | reference definition of the list after the first n updates, in an order-free form; properties in Balls.MarkedByStep and Balls.AfterHitsSpec |
| Balls.AfterHits | game.js:280-283 | reference definition of the whole scoring pass; properties in Balls.AfterHitsSpec |
| Balls.Gain | game.js:117-119 | reference definition of the points a pass scores; properties in Balls.GainOfFresh |
| GameRules.Reset | game.js:213-220 | reference definition of `initGame`; properties in GameRules.ResetSpec |
| GameRules.Shoot | game.js:195-210 | reference definition of `shootBall`; properties in GameRules.ShootGate and GameRules.ShootKeepsInv |
| GameRules.Armed | game.js:233-244 | reference definition of the bat move, countdown and conditional shot; properties in GameRules.ArmedSpec |
| GameRules.Spawn | game.js:247-253 | reference definition of the timed spawn; properties in GameRules.SpawnSpec |
| GameRules.Recount | game.js:256-262 | reference definition of the filter and recount; properties in GameRules.RecountSpec |
| GameRules.Finish | game.js:264-283 | reference definition of the game-over test and the scoring pass; properties in GameRules.FrameGameOver |
| GameRules.Frame | game.js:226-287 | reference definition of one `gameLoop` call; properties in GameRules.FrameKeepsInv, GameRules.FrameShots, GameRules.FrameSpawn and GameRules.FrameGameOver |
| GameRules.Run | game.js:286 | reference definition of a sequence of frames; properties in GameRules.RunFrozen, GameRules.RunKeepsInv and GameRules.StaysAtThree |
| CatchGame.Bat.constructor | game.js:22-33 | the bat starts at the given position with no ball out and no cooldown |
| CatchGame.Game.constructor | game.js:8-33 | loading the script gives the initial state: mouse and bat at (width/2, height-50), interval 1000, nothing in play |
| CatchGame.Game.InitGame | game.js:213-223 | the fields become exactly the reset state, and the invariant holds |
| CatchGame.Game.ShootBall | game.js:195-210 | the objects move exactly as `Shoot` does, and the invariant is kept |
| CatchGame.Game.MouseMove | game.js:290-298 | the mouse position is the pointer clamped so the bat stays inside the canvas, whenever the canvas is at least as big as the bat; nothing else changes |
| CatchGame.Game.GameLoop | game.js:226-287 | one frame moves the objects exactly as `Frame` does and keeps the invariant; a finished game is left unchanged |
| CatchGame.Game.SpawnEnemy | game.js:247-253 | the timed spawn moves the objects as `Spawn` does |
| CatchGame.Game.RemoveClicked | game.js:255-262 | the filter and recount move the objects as `Recount` does |
| CatchGame.Game.UpdateBalls | game.js:280-283 | updating the balls in list order gives the list after the scoring pass, with the score raised by the balls marked |
| CatchGame.Game.UpdateBall | game.js:60-124 | a clicked ball does nothing; an unclicked ball marks every other unclicked enemy ball it touches when it is a player ball, scoring one for each; nothing else changes |

## Left out

- The motion of the balls is left out: gravity, friction, wall bounces (`game.js:63-89`), the push between overlapping balls (`game.js:98-114`) and the bat bounce (`game.js:127-154`). All of it is floating-point physics on positions and velocities, which are not part of the bookkeeping. So the ball record has no position or velocity, and `bat.power` and `bat.color` are not modelled.
- The overlap test (`game.js:98-103`) is the `touching` oracle of a frame. It is asked by positions in the ball list during the update pass.
- The random draws `Math.random` are parameters of a frame: the ball radius and the palette index (`game.js:42-56`), both kept within their ranges. Positions and velocities are not drawn.
- Drawing is left out: `clearRect`, `drawBat`, `Ball.draw`, the score text and the game-over element (`game.js:1-6`, `game.js:156-191`, `game.js:221-222`, `game.js:272`).
- `requestAnimationFrame` and the event-listener wiring are left out. A frame is one call of `GameLoop`, and `Run` is any sequence of calls. The mouse handlers for `mousedown` and `mouseup` become the `mouseDown` field of a frame. The restart button is `InitGame`. A restart in a running game schedules a second frame chain beside the first. Its calls interleave with the first chain's calls into one sequence of `gameLoop` calls. That sequence is again a run, with frames that may share a timestamp, so `Run` covers it. What is not modelled is which interleaving the browser picks.
- `getBoundingClientRect` is left out: `MouseMove` takes the pointer position already relative to the canvas.
- Ball objects are values in a sequence. Each `Ball` object is reachable only from `balls`, so setting `isClicked` on one object is the same as replacing that element. The model does not capture aliasing between ball objects.
- Timestamps and mouse positions are `real`; JavaScript's binary64 rounding is not modelled.
