/**
 * The catch game's state as objects updated in place: the bat object, and the
 * game whose fields are the script's module-level variables. Every method is
 * proved to follow the function of module GameRules for the same step, so what
 * those functions are proved to promise holds of the methods too.
 */
module CatchGame {
  import opened Balls
  import opened GameRules

  /** The bat: its size and limits, and the fields the game updates. */
  class Bat {
    const width: nat := BAT_WIDTH
    const height: nat := BAT_HEIGHT
    const maxBalls: nat := BAT_MAX_BALLS
    const maxCooldown: nat := MAX_COOLDOWN
    var x: real
    var y: real
    /** The player balls in play, as last counted. */
    var ballsShot: nat
    /** Frames left before the bat may fire again. */
    var cooldown: nat

    constructor (x: real, y: real)
      ensures this.x == x && this.y == y && ballsShot == 0 && cooldown == 0
    {
      this.x, this.y := x, y;
      ballsShot, cooldown := 0, 0;
    }
  }

  class Game {
    const canvasWidth: nat
    const canvasHeight: nat
    /** Enemy balls at which the game is over. */
    const maxBalls: nat := MAX_BALLS
    const bat: Bat
    var score: nat
    var isGameOver: bool
    var balls: seq<Ball>
    /** Timestamp of the last enemy ball, in milliseconds. */
    var lastBallTime: real
    /** Milliseconds between enemy balls. */
    var ballInterval: int
    /** The mouse position the bat moves to at the next frame. */
    var mouseX: real
    var mouseY: real

    /** The state as a value. */
    function State(): GameState
      reads this, bat
    {
      GameState(score, isGameOver, balls, lastBallTime, ballInterval, mouseX, mouseY,
                bat.x, bat.y, bat.ballsShot, bat.cooldown)
    }

    ghost predicate Valid()
      reads this, bat
    {
      Inv(State())
    }

    /** Loading the script: the variables take their first values and `initGame` runs. */
    constructor (canvasWidth: nat, canvasHeight: nat)
      ensures Valid() && fresh(bat)
      ensures this.canvasWidth == canvasWidth && this.canvasHeight == canvasHeight
      ensures State() == Initial(canvasWidth, canvasHeight)
    {
      this.canvasWidth, this.canvasHeight := canvasWidth, canvasHeight;
      score, isGameOver, balls := 0, false, [];
      lastBallTime, ballInterval := 0.0, START_INTERVAL;
      mouseX, mouseY := canvasWidth as real / 2.0, canvasHeight as real - 50.0;
      bat := new Bat(canvasWidth as real / 2.0, canvasHeight as real - 50.0);
      new;
      InitGame();
    }

    /** `initGame`, also run by the restart button. */
    method InitGame()
      modifies this, bat
      ensures Valid() && State() == Reset(old(State()))
    {
      score := 0;
      balls := [];
      isGameOver := false;
      lastBallTime := 0.0;
      ballInterval := START_INTERVAL;
      bat.ballsShot := 0;
      bat.cooldown := 0;
      ResetSpec(old(State()));
    }

    /** `shootBall`, firing a ball of the given random radius. */
    method ShootBall(radius: real)
      requires Valid() && RadiusInRange(radius)
      modifies this, bat
      ensures Valid() && State() == Shoot(old(State()), radius)
    {
      ghost var s0 := State();
      ShootKeepsInv(s0, radius);
      if bat.cooldown > 0 || bat.ballsShot >= bat.maxBalls {
        return;
      }
      balls := balls + [PlayerBall(radius)];
      bat.ballsShot := bat.ballsShot + 1;
      bat.cooldown := bat.maxCooldown;
      assert State() == Shoot(s0, radius);
    }

    /**
     * The `mousemove` handler, given the pointer position relative to the canvas:
     * the mouse position is clamped so that the bat stays inside the canvas.
     */
    method MouseMove(x: real, y: real)
      modifies this
      ensures Valid() == old(Valid())
      ensures mouseX == Clamp(x, bat.width as real / 2.0, canvasWidth as real - bat.width as real / 2.0)
      ensures mouseY == Clamp(y, bat.height as real / 2.0, canvasHeight as real - bat.height as real / 2.0)
      ensures canvasWidth >= bat.width ==>
        bat.width as real / 2.0 <= mouseX <= canvasWidth as real - bat.width as real / 2.0
      ensures canvasHeight >= bat.height ==>
        bat.height as real / 2.0 <= mouseY <= canvasHeight as real - bat.height as real / 2.0
      ensures State() == old(State()).(mouseX := mouseX, mouseY := mouseY)
    {
      mouseX := Clamp(x, bat.width as real / 2.0, canvasWidth as real - bat.width as real / 2.0);
      mouseY := Clamp(y, bat.height as real / 2.0, canvasHeight as real - bat.height as real / 2.0);
    }

    /** `gameLoop` for one frame, up to the drawing. */
    method GameLoop(f: FrameInput)
      requires Valid() && DrawsInRange(f)
      modifies this, bat
      ensures Valid() && State() == Frame(old(State()), f)
      ensures old(isGameOver) ==> State() == old(State())
    {
      ghost var s0 := State();
      if isGameOver {
        return;
      }
      bat.x, bat.y := mouseX, mouseY;
      if bat.cooldown > 0 {
        bat.cooldown := bat.cooldown - 1;
      }
      if f.mouseDown && bat.cooldown == 0 {
        ShootBall(f.shotRadius);
      }
      ghost var armed := State();
      SpawnEnemy(f.timestamp, f.enemyRadius, f.enemyColor);
      ghost var spawned := State();
      RemoveClicked();
      ghost var counted := State();
      FrameBySteps(s0, f, armed, spawned, counted);
      FrameKeepsInv(s0, f);
      var enemyBallCount := CountEnemies(balls);
      if enemyBallCount >= maxBalls {
        isGameOver := true;
        assert State() == Finish(counted, f.touching);
        return;
      }
      UpdateBalls(f.touching);
      assert State() == Finish(counted, f.touching);
    }

    /** The timed spawn of `gameLoop`: a new enemy ball once `ballInterval` has passed. */
    method SpawnEnemy(timestamp: real, radius: real, pick: nat)
      requires pick < |PALETTE|
      modifies this
      ensures State() == Spawn(old(State()), timestamp, radius, pick)
    {
      if timestamp - lastBallTime > ballInterval as real {
        balls := balls + [EnemyBall(radius, pick)];
        lastBallTime := timestamp;
        ballInterval := Max(MIN_INTERVAL, ballInterval - INTERVAL_STEP);
      }
    }

    /** The filter of `gameLoop`, which also recounts the player balls into the bat. */
    method RemoveClicked()
      modifies this, bat
      ensures State() == Recount(old(State()))
    {
      var kept, playerBallCount := FilterClicked(balls);
      balls := kept;
      bat.ballsShot := playerBallCount;
    }

    /**
     * The update pass of the frame: the balls are updated one after another, in list
     * order.
     */
    method UpdateBalls(touching: (nat, nat) -> bool)
      modifies this
      ensures State() == Hits(old(State()), touching)
    {
      ghost var start := balls;
      var i := 0;
      while i < |balls|
        invariant 0 <= i <= |balls| == |start|
        invariant balls == MarkedBy(start, touching, i)
        invariant score as int == old(score) as int + ClickedCount(balls) - ClickedCount(start)
        invariant State() == old(State()).(balls := balls, score := score)
      {
        MarkedByStep(start, touching, i);
        UpdateBall(i, touching);
        i := i + 1;
      }
    }

    /**
     * The scoring part of `Ball.update` for ball i: a clicked ball does nothing; an
     * unclicked ball looks at every other unclicked ball it touches, and if it is a
     * player ball and the other an enemy ball, the score rises by one and the enemy
     * is marked clicked.
     */
    method UpdateBall(i: nat, touching: (nat, nat) -> bool)
      requires i < |balls|
      modifies this
      ensures balls == UpdatedBy(old(balls), touching, i)
      ensures score as int == old(score) as int + ClickedCount(balls) - ClickedCount(old(balls))
      ensures State() == old(State()).(balls := balls, score := score)
    {
      if balls[i].isClicked {
        return;
      }
      ghost var before := balls;
      var j := 0;
      while j < |balls|
        invariant 0 <= j <= |balls| == |before|
        invariant balls[i] == before[i]
        invariant forall k :: 0 <= k < |before| ==>
          balls[k] == if k < j then HitBy(before, touching, i, k) else before[k]
        invariant score as int == old(score) as int + ClickedCount(balls) - ClickedCount(before)
        invariant State() == old(State()).(balls := balls, score := score)
      {
        if j != i && !balls[j].isClicked && touching(i, j) {
          if balls[i].isPlayerBall && !balls[j].isPlayerBall {
            ClickedCountUpdate(balls, j, balls[j].(isClicked := true));
            score := score + 1;
            balls := balls[j := balls[j].(isClicked := true)];
          }
        }
        j := j + 1;
      }
      assert balls == UpdatedBy(before, touching, i);
    }
  }
}
