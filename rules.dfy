/**
 * The bookkeeping of the catch game as a state machine on values: the game state,
 * one function per step of the frame loop, the invariant every reachable state
 * keeps, and what the steps promise over one frame and over any run of frames.
 * The class in module CatchGame is proved to follow these functions.
 */
module GameRules {
  import opened Balls

  const BAT_WIDTH: nat := 100
  const BAT_HEIGHT: nat := 20
  /** How many player balls may be in play at once. */
  const BAT_MAX_BALLS: nat := 3
  /** Frames the bat waits after a shot. */
  const MAX_COOLDOWN: nat := 10
  /** Enemy balls at which the game is over. */
  const MAX_BALLS: nat := 20
  /** Milliseconds between enemy balls at the start, the floor, and the step. */
  const START_INTERVAL: int := 1000
  const MIN_INTERVAL: int := 200
  const INTERVAL_STEP: int := 10

  /** The module-level variables of the game and the fields of the bat that change. */
  datatype GameState = GameState(
    score: nat,
    isGameOver: bool,
    balls: seq<Ball>,
    lastBallTime: real,
    ballInterval: int,
    mouseX: real,
    mouseY: real,
    batX: real,
    batY: real,
    ballsShot: nat,
    cooldown: nat)

  /**
   * What one frame reads from the outside: the frame's timestamp, whether the mouse
   * button is held, the random radius of a ball the bat may fire, the random radius
   * and colour of an enemy ball that may spawn, and which ball overlaps which while
   * the balls are updated.
   */
  datatype FrameInput = FrameInput(
    timestamp: real,
    mouseDown: bool,
    shotRadius: real,
    enemyRadius: real,
    enemyColor: nat,
    touching: (nat, nat) -> bool)

  /** The random draws lie where `Math.random` puts them. */
  predicate DrawsInRange(f: FrameInput) {
    RadiusInRange(f.shotRadius) && RadiusInRange(f.enemyRadius) && f.enemyColor < |PALETTE|
  }

  function Max(a: int, b: int): int {
    if a >= b then a else b
  }

  /** `Math.max(lo, Math.min(hi, v))`, which is `lo` when the range is empty. */
  function Clamp(v: real, lo: real, hi: real): (r: real)
    ensures lo <= r
    ensures lo <= hi ==> r <= hi
    ensures lo <= v <= hi ==> r == v
    ensures v < lo || hi < lo ==> r == lo
    ensures lo <= hi < v ==> r == hi
  {
    var m := if hi <= v then hi else v;
    if lo >= m then lo else m
  }

  /** The state when the script has loaded and run `initGame` once. */
  function Initial(canvasWidth: nat, canvasHeight: nat): GameState {
    var x, y := canvasWidth as real / 2.0, canvasHeight as real - 50.0;
    GameState(0, false, [], 0.0, START_INTERVAL, x, y, x, y, 0, 0)
  }

  /** `initGame`: every counter back to its start; the mouse and the bat stay where they are. */
  function Reset(s: GameState): GameState {
    s.(score := 0, balls := [], isGameOver := false, lastBallTime := 0.0,
       ballInterval := START_INTERVAL, ballsShot := 0, cooldown := 0)
  }

  /** The gate of `shootBall`. */
  predicate MayShoot(s: GameState) {
    !(s.cooldown > 0 || s.ballsShot >= BAT_MAX_BALLS)
  }

  /** `shootBall`. */
  function Shoot(s: GameState, radius: real): GameState {
    if !MayShoot(s) then s
    else s.(balls := s.balls + [PlayerBall(radius)], ballsShot := s.ballsShot + 1, cooldown := MAX_COOLDOWN)
  }

  /** The bat follows the mouse. */
  function TrackMouse(s: GameState): GameState {
    s.(batX := s.mouseX, batY := s.mouseY)
  }

  /** The cooldown after this frame's countdown. */
  function CooledDown(cooldown: nat): nat {
    if cooldown > 0 then cooldown - 1 else cooldown
  }

  function CoolDown(s: GameState): GameState {
    s.(cooldown := CooledDown(s.cooldown))
  }

  /** The timer of the enemy balls has run out. */
  predicate SpawnDue(s: GameState, timestamp: real) {
    timestamp - s.lastBallTime > s.ballInterval as real
  }

  /** A new enemy ball when the timer has run out, and a shorter interval down to the floor. */
  function Spawn(s: GameState, timestamp: real, radius: real, pick: nat): GameState
    requires pick < |PALETTE|
  {
    if SpawnDue(s, timestamp) then
      s.(balls := s.balls + [EnemyBall(radius, pick)], lastBallTime := timestamp,
         ballInterval := Max(MIN_INTERVAL, s.ballInterval - INTERVAL_STEP))
    else s
  }

  /** Clicked balls leave the list and the bat counts the player balls left. */
  function Recount(s: GameState): GameState {
    s.(balls := Unclicked(s.balls), ballsShot := PlayerCount(Unclicked(s.balls)))
  }

  /** The update pass over all balls, with its scoring. */
  function Hits(s: GameState, touching: (nat, nat) -> bool): GameState {
    s.(balls := AfterHits(s.balls, touching), score := s.score + Gain(s.balls, touching))
  }

  /** The state after the bat has followed the mouse, the countdown and the conditional shot. */
  function Armed(s: GameState, f: FrameInput): GameState {
    var cooled := CoolDown(TrackMouse(s));
    if f.mouseDown && cooled.cooldown == 0 then Shoot(cooled, f.shotRadius) else cooled
  }

  /** The state after the spawn, the filter and the recount, just before the game-over test. */
  function Counted(s: GameState, f: FrameInput): GameState
    requires DrawsInRange(f)
  {
    Recount(Spawn(Armed(s, f), f.timestamp, f.enemyRadius, f.enemyColor))
  }

  /** The game-over test, and the update pass if the game goes on. */
  function Finish(s: GameState, touching: (nat, nat) -> bool): GameState {
    if EnemyCount(s.balls) >= MAX_BALLS then s.(isGameOver := true) else Hits(s, touching)
  }

  /** One call of `gameLoop`. */
  function Frame(s: GameState, f: FrameInput): GameState
    requires DrawsInRange(f)
  {
    if s.isGameOver then s else Finish(Counted(s, f), f.touching)
  }

  /** `Frame` in terms of its intermediate states. */
  lemma FrameBySteps(s: GameState, f: FrameInput, armed: GameState, spawned: GameState, counted: GameState)
    requires DrawsInRange(f) && !s.isGameOver
    requires armed == Armed(s, f)
    requires spawned == Spawn(armed, f.timestamp, f.enemyRadius, f.enemyColor)
    requires counted == Recount(spawned)
    ensures counted == Counted(s, f)
    ensures Frame(s, f) == Finish(counted, f.touching)
  {
  }

  /** The bat fires in this frame: the button is held, the cooldown ends now at the latest, and a ball is free. */
  predicate Fires(s: GameState, f: FrameInput) {
    f.mouseDown && s.cooldown <= 1 && s.ballsShot < BAT_MAX_BALLS
  }

  predicate AllDrawsInRange(fs: seq<FrameInput>) {
    forall k :: 0 <= k < |fs| ==> DrawsInRange(fs[k])
  }

  /** The frames `fs`, one after another. */
  function Run(s: GameState, fs: seq<FrameInput>): GameState
    requires AllDrawsInRange(fs)
    decreases |fs|
  {
    if fs == [] then s else Run(Frame(s, fs[0]), fs[1..])
  }

  /** What holds of every state the game reaches, whether or not it is over. */
  predicate Core(s: GameState) {
    s.ballsShot == PlayerCount(s.balls) &&
    s.ballsShot <= BAT_MAX_BALLS &&
    s.cooldown <= MAX_COOLDOWN &&
    MIN_INTERVAL <= s.ballInterval <= START_INTERVAL &&
    AllSound(s.balls)
  }

  /** The invariant of the game: a running game has fewer than `MAX_BALLS` enemy balls. */
  predicate Inv(s: GameState) {
    Core(s) && (!s.isGameOver ==> EnemyCount(s.balls) < MAX_BALLS)
  }

  // ---------------------------------------------------------------------------
  // Single steps

  /** `initGame` starts a running game with no balls, whatever the state before. */
  lemma ResetSpec(s: GameState)
    ensures Inv(Reset(s)) && !Reset(s).isGameOver
    ensures Reset(Reset(s)) == Reset(s)
    ensures forall w: nat, h: nat :: Reset(Initial(w, h)) == Initial(w, h)
  {
  }

  /**
   * `shootBall` changes nothing exactly when the cooldown runs or the bat's balls are
   * all out; otherwise it appends exactly one ball, a player ball, counts it and
   * restarts the cooldown, and changes nothing else.
   */
  lemma ShootGate(s: GameState, radius: real)
    ensures Shoot(s, radius) == s <==> s.cooldown > 0 || s.ballsShot >= BAT_MAX_BALLS
    ensures MayShoot(s) ==>
      var r := Shoot(s, radius);
      |r.balls| == |s.balls| + 1 && r.balls[..|s.balls|] == s.balls &&
      r.balls[|s.balls|].isPlayerBall && !r.balls[|s.balls|].isClicked &&
      r.ballsShot == s.ballsShot + 1 && r.cooldown == MAX_COOLDOWN &&
      r.(balls := s.balls, ballsShot := s.ballsShot, cooldown := s.cooldown) == s
  {
    if MayShoot(s) {
      assert |Shoot(s, radius).balls| != |s.balls|;
    }
  }

  /** A shot keeps the invariant and adds its ball at the end of the player balls. */
  lemma ShootKeepsInv(s: GameState, radius: real)
    requires Inv(s) && RadiusInRange(radius)
    ensures Inv(Shoot(s, radius))
    ensures Players(Shoot(s, radius).balls) == Players(s.balls) + (if MayShoot(s) then [PlayerBall(radius)] else [])
  {
    if MayShoot(s) {
      CountsAppend(s.balls, [PlayerBall(radius)]);
      assert Sound(PlayerBall(radius));
    }
  }

  /**
   * The countdown and the conditional shot keep the invariant; the bat fires exactly
   * when `Fires` says, and its ball goes to the end of the player balls.
   */
  lemma ArmedSpec(s: GameState, f: FrameInput)
    requires Inv(s) && !s.isGameOver && RadiusInRange(f.shotRadius)
    ensures Inv(Armed(s, f))
    ensures Players(Armed(s, f).balls) == Players(s.balls) + (if Fires(s, f) then [PlayerBall(f.shotRadius)] else [])
    ensures EnemyCount(Armed(s, f).balls) == EnemyCount(s.balls)
    ensures Armed(s, f).cooldown == if Fires(s, f) then MAX_COOLDOWN else if s.cooldown > 0 then s.cooldown - 1 else 0
    ensures Armed(s, f).(balls := s.balls, ballsShot := s.ballsShot, cooldown := s.cooldown, batX := s.batX, batY := s.batY) == s
  {
    var cooled := CoolDown(TrackMouse(s));
    assert Inv(cooled);
    ShootKeepsInv(cooled, f.shotRadius);
    if Armed(s, f) != cooled {
      CountsAppend(cooled.balls, [PlayerBall(f.shotRadius)]);
    }
  }

  /** A spawn adds at most one enemy ball and keeps everything about the player balls. */
  lemma SpawnSpec(s: GameState, timestamp: real, radius: real, pick: nat)
    requires Core(s) && RadiusInRange(radius) && pick < |PALETTE|
    ensures Core(Spawn(s, timestamp, radius, pick))
    ensures Players(Spawn(s, timestamp, radius, pick).balls) == Players(s.balls)
    ensures EnemyCount(Spawn(s, timestamp, radius, pick).balls) == EnemyCount(s.balls) + (if SpawnDue(s, timestamp) then 1 else 0)
  {
    if SpawnDue(s, timestamp) {
      var enemy := EnemyBall(radius, pick);
      CountsAppend(s.balls, [enemy]);
      assert Sound(enemy);
    }
  }

  /** The filter and recount keep the player balls and leave no clicked ball. */
  lemma RecountSpec(s: GameState)
    requires Core(s)
    ensures Core(Recount(s))
    ensures ClickedCount(Recount(s).balls) == 0
    ensures Players(Recount(s).balls) == Players(s.balls)
    ensures EnemyCount(Recount(s).balls) <= EnemyCount(s.balls)
  {
    UnclickedKeepsPlayers(s.balls);
    UnclickedSpec(s.balls);
  }

  /** The state just before the game-over test keeps the invariant except for the enemy bound. */
  lemma CountedSpec(s: GameState, f: FrameInput)
    requires Inv(s) && !s.isGameOver && DrawsInRange(f)
    ensures Core(Counted(s, f)) && ClickedCount(Counted(s, f).balls) == 0
    ensures Players(Counted(s, f).balls) == Players(s.balls) + (if Fires(s, f) then [PlayerBall(f.shotRadius)] else [])
    ensures EnemyCount(Counted(s, f).balls) <= EnemyCount(s.balls) + 1
    ensures Counted(s, f).cooldown == if Fires(s, f) then MAX_COOLDOWN else if s.cooldown > 0 then s.cooldown - 1 else 0
    ensures Counted(s, f).lastBallTime == if SpawnDue(s, f.timestamp) then f.timestamp else s.lastBallTime
    ensures Counted(s, f).ballInterval ==
      if SpawnDue(s, f.timestamp) then Max(MIN_INTERVAL, s.ballInterval - INTERVAL_STEP) else s.ballInterval
    ensures Counted(s, f).score == s.score && !Counted(s, f).isGameOver
  {
    var armed := Armed(s, f);
    ArmedSpec(s, f);
    SpawnSpec(armed, f.timestamp, f.enemyRadius, f.enemyColor);
    RecountSpec(Spawn(armed, f.timestamp, f.enemyRadius, f.enemyColor));
  }

  /** A frame keeps the invariant. */
  lemma FrameKeepsInv(s: GameState, f: FrameInput)
    requires Inv(s) && DrawsInRange(f)
    ensures Inv(Frame(s, f))
  {
    if !s.isGameOver {
      CountedSpec(s, f);
      AfterHitsSpec(Counted(s, f).balls, f.touching);
    }
  }

  /**
   * In a running game the cooldown counts down by one while it is positive and is
   * restarted exactly by a shot; a shot needs the button held, a cooldown of 0 after
   * the countdown and a free ball; the player balls of the frame before are all still
   * there, in order, followed by the new one; and `ballsShot` counts them.
   */
  lemma FrameShots(s: GameState, f: FrameInput)
    requires Inv(s) && !s.isGameOver && DrawsInRange(f)
    ensures Frame(s, f).cooldown == if Fires(s, f) then MAX_COOLDOWN else if s.cooldown > 0 then s.cooldown - 1 else 0
    ensures Players(Frame(s, f).balls) == Players(s.balls) + (if Fires(s, f) then [PlayerBall(f.shotRadius)] else [])
    ensures Frame(s, f).ballsShot == s.ballsShot + (if Fires(s, f) then 1 else 0)
  {
    CountedSpec(s, f);
    AfterHitsSpec(Counted(s, f).balls, f.touching);
    KindsPartition(s.balls);
    KindsPartition(Frame(s, f).balls);
  }

  /**
   * In a running game an enemy ball is due exactly when more than `ballInterval`
   * milliseconds have passed since the last one; then the timer restarts at this
   * frame's timestamp and the interval shrinks by 10 down to 200, so it never grows
   * and never drops below 200.
   */
  lemma FrameSpawn(s: GameState, f: FrameInput)
    requires Inv(s) && !s.isGameOver && DrawsInRange(f)
    ensures Frame(s, f).lastBallTime == if SpawnDue(s, f.timestamp) then f.timestamp else s.lastBallTime
    ensures Frame(s, f).ballInterval ==
      if SpawnDue(s, f.timestamp) then Max(MIN_INTERVAL, s.ballInterval - INTERVAL_STEP) else s.ballInterval
    ensures MIN_INTERVAL <= Frame(s, f).ballInterval <= s.ballInterval
  {
    CountedSpec(s, f);
  }

  /**
   * A running game ends in a frame exactly when the enemy balls left after the filter
   * reach `MAX_BALLS`, and then there are exactly `MAX_BALLS` of them and nothing is
   * scored; otherwise the score rises by one for each ball marked in the frame, all of
   * them enemy balls.
   */
  lemma FrameGameOver(s: GameState, f: FrameInput)
    requires Inv(s) && !s.isGameOver && DrawsInRange(f)
    ensures Frame(s, f).isGameOver <==> EnemyCount(Frame(s, f).balls) >= MAX_BALLS
    ensures Frame(s, f).isGameOver ==>
      EnemyCount(Frame(s, f).balls) == MAX_BALLS && Frame(s, f).score == s.score
    ensures !Frame(s, f).isGameOver ==>
      Frame(s, f).score == s.score + ClickedCount(Frame(s, f).balls) &&
      ClickedCount(Frame(s, f).balls) <= EnemyCount(Frame(s, f).balls)
  {
    CountedSpec(s, f);
    var counted := Counted(s, f);
    AfterHitsSpec(counted.balls, f.touching);
    if EnemyCount(counted.balls) < MAX_BALLS {
      GainOfFresh(counted.balls, f.touching);
    }
  }

  // ---------------------------------------------------------------------------
  // Runs of frames

  /** Once the game is over, no frame changes anything. */
  lemma {:induction false} RunFrozen(s: GameState, fs: seq<FrameInput>)
    requires s.isGameOver && AllDrawsInRange(fs)
    ensures Run(s, fs) == s
    decreases |fs|
  {
    if fs != [] {
      RunFrozen(Frame(s, fs[0]), fs[1..]);
    }
  }

  /**
   * Over any run of frames the invariant holds, no player ball is ever removed (the
   * player balls before are a prefix of those after), so `ballsShot` never falls, and
   * the enemy interval never grows.
   */
  lemma {:induction false} RunKeepsInv(s: GameState, fs: seq<FrameInput>)
    requires Inv(s) && AllDrawsInRange(fs)
    ensures Inv(Run(s, fs))
    ensures Players(s.balls) <= Players(Run(s, fs).balls)
    ensures s.ballsShot <= Run(s, fs).ballsShot
    ensures MIN_INTERVAL <= Run(s, fs).ballInterval <= s.ballInterval
    ensures s.isGameOver ==> Run(s, fs).isGameOver
    decreases |fs|
  {
    if fs != [] {
      var next := Frame(s, fs[0]);
      FrameKeepsInv(s, fs[0]);
      if !s.isGameOver {
        FrameShots(s, fs[0]);
        FrameSpawn(s, fs[0]);
      }
      RunKeepsInv(next, fs[1..]);
    }
  }

  /**
   * After the third shot `ballsShot` stays at 3 and the bat never fires again,
   * whatever frames follow, until `initGame`: the player balls after the run are
   * exactly those before it.
   */
  lemma StaysAtThree(s: GameState, fs: seq<FrameInput>)
    requires Inv(s) && s.ballsShot == BAT_MAX_BALLS && AllDrawsInRange(fs)
    ensures Run(s, fs).ballsShot == BAT_MAX_BALLS
    ensures Players(Run(s, fs).balls) == Players(s.balls)
    ensures forall f: FrameInput :: !Fires(Run(s, fs), f)
  {
    RunKeepsInv(s, fs);
    KindsPartition(s.balls);
    KindsPartition(Run(s, fs).balls);
  }
}
