/**
 * The balls of the catch game as the integer bookkeeping sees them: which side a
 * ball belongs to and whether it has been hit. Position, velocity and the rest of
 * the physics are not part of this model.
 */
module Balls {

  /** The fill colour of every ball the bat fires. */
  const PLAYER_COLOR: string := "#4CAF50"

  /** The colours an enemy ball picks from at random. */
  const PALETTE: seq<string> := ["#FF5252", "#FFEB3B", "#4CAF50", "#2196F3", "#9C27B0", "#FF9800"]

  datatype Ball = Ball(radius: real, color: string, isPlayerBall: bool, isClicked: bool)

  /** `Math.random() * 20 + 10` lies in [10, 30). */
  predicate RadiusInRange(r: real) {
    10.0 <= r < 30.0
  }

  /** A fresh ball fired by the bat. */
  function PlayerBall(radius: real): Ball {
    Ball(radius, PLAYER_COLOR, true, false)
  }

  /** A fresh enemy ball whose colour is entry `pick` of the palette. */
  function EnemyBall(radius: real, pick: nat): Ball
    requires pick < |PALETTE|
  {
    Ball(radius, PALETTE[pick], false, false)
  }

  /** What holds of every ball the game has created: a player ball is never hit. */
  predicate Sound(b: Ball) {
    RadiusInRange(b.radius) &&
    if b.isPlayerBall then b.color == PLAYER_COLOR && !b.isClicked else b.color in PALETTE
  }

  predicate AllSound(s: seq<Ball>) {
    forall k :: 0 <= k < |s| ==> Sound(s[k])
  }

  // ---------------------------------------------------------------------------
  // Counting and filtering, each defined from the front of the list to its last ball,
  // the order in which the loops of the game walk it.

  function PlayerCount(s: seq<Ball>): nat {
    if s == [] then 0 else PlayerCount(s[..|s| - 1]) + (if s[|s| - 1].isPlayerBall then 1 else 0)
  }

  function EnemyCount(s: seq<Ball>): nat {
    if s == [] then 0 else EnemyCount(s[..|s| - 1]) + (if s[|s| - 1].isPlayerBall then 0 else 1)
  }

  function ClickedCount(s: seq<Ball>): nat {
    if s == [] then 0 else ClickedCount(s[..|s| - 1]) + (if s[|s| - 1].isClicked then 1 else 0)
  }

  /** The player balls of `s`, in order. */
  function Players(s: seq<Ball>): seq<Ball> {
    if s == [] then [] else Players(s[..|s| - 1]) + (if s[|s| - 1].isPlayerBall then [s[|s| - 1]] else [])
  }

  /** `balls.filter(ball => !ball.isClicked)`. */
  function Unclicked(s: seq<Ball>): seq<Ball> {
    if s == [] then [] else Unclicked(s[..|s| - 1]) + (if s[|s| - 1].isClicked then [] else [s[|s| - 1]])
  }

  lemma {:induction false} CountsAppend(a: seq<Ball>, b: seq<Ball>)
    ensures PlayerCount(a + b) == PlayerCount(a) + PlayerCount(b)
    ensures EnemyCount(a + b) == EnemyCount(a) + EnemyCount(b)
    ensures ClickedCount(a + b) == ClickedCount(a) + ClickedCount(b)
    ensures Players(a + b) == Players(a) + Players(b)
    ensures Unclicked(a + b) == Unclicked(a) + Unclicked(b)
    decreases |b|
  {
    if b == [] {
      assert a + b == a;
    } else {
      var last := b[|b| - 1];
      assert (a + b)[..|a + b| - 1] == a + b[..|b| - 1];
      CountsAppend(a, b[..|b| - 1]);
    }
  }

  /** Every ball is either a player ball or an enemy ball. */
  lemma {:induction false} KindsPartition(s: seq<Ball>)
    ensures PlayerCount(s) + EnemyCount(s) == |s|
    ensures |Players(s)| == PlayerCount(s)
    ensures forall b :: b in Players(s) <==> b in s && b.isPlayerBall
  {
    if s != [] {
      KindsPartition(s[..|s| - 1]);
      assert s == s[..|s| - 1] + [s[|s| - 1]];
    }
  }

  /**
   * The filter keeps exactly the balls that are not clicked, in their original
   * order (it distributes over concatenation), and drops one ball per clicked one.
   */
  lemma {:induction false} UnclickedSpec(s: seq<Ball>)
    ensures forall b :: b in Unclicked(s) <==> b in s && !b.isClicked
    ensures |Unclicked(s)| == |s| - ClickedCount(s)
    ensures ClickedCount(Unclicked(s)) == 0
    ensures forall t: seq<Ball> :: Unclicked(s + t) == Unclicked(s) + Unclicked(t)
  {
    if s != [] {
      var init, last := s[..|s| - 1], s[|s| - 1];
      UnclickedSpec(init);
      assert s == init + [last];
      CountsAppend(Unclicked(init), if last.isClicked then [] else [last]);
    }
    forall t: seq<Ball> ensures Unclicked(s + t) == Unclicked(s) + Unclicked(t) {
      CountsAppend(s, t);
    }
  }

  /**
   * When no player ball is clicked the filter removes no player ball, and it can
   * only lower the number of enemy balls.
   */
  lemma {:induction false} UnclickedKeepsPlayers(s: seq<Ball>)
    requires AllSound(s)
    ensures Players(Unclicked(s)) == Players(s)
    ensures PlayerCount(Unclicked(s)) == PlayerCount(s)
    ensures EnemyCount(Unclicked(s)) <= EnemyCount(s)
    ensures AllSound(Unclicked(s))
  {
    if s != [] {
      var init, last := s[..|s| - 1], s[|s| - 1];
      assert AllSound(init) by {
        forall k | 0 <= k < |init| ensures Sound(init[k]) { assert init[k] == s[k]; }
      }
      UnclickedKeepsPlayers(init);
      assert Sound(last);
      CountsAppend(Unclicked(init), if last.isClicked then [] else [last]);
    }
  }

  /** If two lists agree on every ball's side and on every player ball, they have the same players. */
  lemma {:induction false} SameSides(a: seq<Ball>, b: seq<Ball>)
    requires |a| == |b|
    requires forall k :: 0 <= k < |a| ==> a[k].isPlayerBall == b[k].isPlayerBall
    requires forall k :: 0 <= k < |a| && a[k].isPlayerBall ==> a[k] == b[k]
    ensures Players(a) == Players(b)
    ensures PlayerCount(a) == PlayerCount(b)
    ensures EnemyCount(a) == EnemyCount(b)
  {
    if a != [] {
      SameSides(a[..|a| - 1], b[..|b| - 1]);
    }
  }

  /** Setting one ball's flag changes the clicked count by the difference of the flags. */
  lemma {:induction false} ClickedCountUpdate(s: seq<Ball>, j: nat, x: Ball)
    requires j < |s|
    ensures ClickedCount(s[j := x]) + (if s[j].isClicked then 1 else 0)
         == ClickedCount(s) + (if x.isClicked then 1 else 0)
  {
    var n := |s| - 1;
    if j < n {
      assert s[j := x][..n] == s[..n][j := x];
      ClickedCountUpdate(s[..n], j, x);
    } else {
      assert s[j := x][..n] == s[..n];
    }
  }

  /** A list whose clicked balls include those of another of the same length has at least as many. */
  lemma {:induction false} ClickedMonotone(a: seq<Ball>, b: seq<Ball>)
    requires |a| == |b|
    requires forall k :: 0 <= k < |a| && a[k].isClicked ==> b[k].isClicked
    ensures ClickedCount(a) <= ClickedCount(b)
  {
    if a != [] {
      ClickedMonotone(a[..|a| - 1], b[..|b| - 1]);
    }
  }

  // ---------------------------------------------------------------------------
  // Scoring. In the update pass every ball that is not clicked looks at every other
  // ball that is not clicked; when a player ball touches an enemy ball, the enemy is
  // marked clicked and the score rises by one. Whether ball i touches ball j at the
  // moment ball i is updated is the parameter `touching(i, j)`.

  /** Ball j is hit by one of the first n balls. */
  predicate StruckBy(s: seq<Ball>, touching: (nat, nat) -> bool, j: nat, n: nat)
    requires j < |s|
  {
    !s[j].isPlayerBall &&
    exists i :: 0 <= i < n && i < |s| && s[i].isPlayerBall && !s[i].isClicked && touching(i, j)
  }

  /** The list after the first n balls have been updated. */
  function MarkedBy(s: seq<Ball>, touching: (nat, nat) -> bool, n: nat): seq<Ball> {
    seq(|s|, j requires 0 <= j < |s| => if StruckBy(s, touching, j, n) then s[j].(isClicked := true) else s[j])
  }

  /**
   * The list after the whole update pass. What a ball gets does not depend on the
   * order of the pass: an enemy ball ends clicked exactly when it was clicked or some
   * unclicked player ball touches it.
   */
  function AfterHits(s: seq<Ball>, touching: (nat, nat) -> bool): seq<Ball> {
    MarkedBy(s, touching, |s|)
  }

  /** The score the update pass adds: one per ball it marks. */
  function Gain(s: seq<Ball>, touching: (nat, nat) -> bool): nat {
    ClickedMonotone(s, AfterHits(s, touching));
    ClickedCount(AfterHits(s, touching)) - ClickedCount(s)
  }

  /** Updating ball i adds to what the earlier balls hit just the enemies it touches, if it is an unclicked player ball. */
  lemma StruckByStep(s: seq<Ball>, touching: (nat, nat) -> bool, j: nat, i: nat)
    requires j < |s| && i < |s|
    ensures StruckBy(s, touching, j, i + 1)
        <==> StruckBy(s, touching, j, i)
             || (!s[j].isPlayerBall && s[i].isPlayerBall && !s[i].isClicked && touching(i, j))
  {
    if StruckBy(s, touching, j, i + 1) && !StruckBy(s, touching, j, i) {
      var p :| 0 <= p < i + 1 && p < |s| && s[p].isPlayerBall && !s[p].isClicked && touching(p, j);
      assert p == i;
    }
  }

  /** Ball j after ball i has been updated: hit if ball i is an unclicked player ball touching it. */
  function HitBy(s: seq<Ball>, touching: (nat, nat) -> bool, i: nat, j: nat): Ball
    requires i < |s| && j < |s|
  {
    if !s[i].isClicked && j != i && !s[j].isClicked && touching(i, j) && s[i].isPlayerBall && !s[j].isPlayerBall
    then s[j].(isClicked := true) else s[j]
  }

  /** What updating ball i does to the list. */
  function UpdatedBy(s: seq<Ball>, touching: (nat, nat) -> bool, i: nat): seq<Ball>
    requires i < |s|
  {
    seq(|s|, j requires 0 <= j < |s| => HitBy(s, touching, i, j))
  }

  /** Updating the balls one at a time, in list order, builds up the whole pass. */
  lemma MarkedByStep(s: seq<Ball>, touching: (nat, nat) -> bool, i: nat)
    requires i < |s|
    ensures MarkedBy(s, touching, i + 1) == UpdatedBy(MarkedBy(s, touching, i), touching, i)
  {
    var before := MarkedBy(s, touching, i);
    assert before[i] == s[i] || !s[i].isPlayerBall;
    forall j | 0 <= j < |s|
      ensures MarkedBy(s, touching, i + 1)[j] == UpdatedBy(before, touching, i)[j]
    {
      StruckByStep(s, touching, j, i);
    }
  }

  /**
   * The update pass leaves every player ball as it is, keeps every ball's side and
   * marks only enemy balls, so it keeps the players, the counts and soundness.
   */
  lemma AfterHitsSpec(s: seq<Ball>, touching: (nat, nat) -> bool)
    ensures |AfterHits(s, touching)| == |s|
    ensures forall k :: 0 <= k < |s| && AfterHits(s, touching)[k] != s[k] ==>
              !s[k].isPlayerBall && !s[k].isClicked && AfterHits(s, touching)[k] == s[k].(isClicked := true)
    ensures Players(AfterHits(s, touching)) == Players(s)
    ensures PlayerCount(AfterHits(s, touching)) == PlayerCount(s)
    ensures EnemyCount(AfterHits(s, touching)) == EnemyCount(s)
    ensures AllSound(s) ==> AllSound(AfterHits(s, touching))
  {
    SameSides(s, AfterHits(s, touching));
  }

  /** A pass over a list with no clicked ball scores exactly the balls it leaves clicked, all of them enemies. */
  lemma GainOfFresh(s: seq<Ball>, touching: (nat, nat) -> bool)
    requires ClickedCount(s) == 0
    ensures Gain(s, touching) == ClickedCount(AfterHits(s, touching))
    ensures Gain(s, touching) <= EnemyCount(s)
  {
    var r := AfterHits(s, touching);
    AfterHitsSpec(s, touching);
    NoneClicked(s);
    ClickedAreEnemies(r);
    assert EnemyCount(r) == EnemyCount(s);
  }

  /** A list whose clicked count is zero has no clicked ball. */
  lemma {:induction false} NoneClicked(s: seq<Ball>)
    requires ClickedCount(s) == 0
    ensures forall k :: 0 <= k < |s| ==> !s[k].isClicked
  {
    if s != [] {
      NoneClicked(s[..|s| - 1]);
      assert forall k :: 0 <= k < |s| - 1 ==> s[k] == s[..|s| - 1][k];
    }
  }

  /** Where no player ball is clicked, the clicked balls are at most the enemy balls. */
  lemma {:induction false} ClickedAreEnemies(s: seq<Ball>)
    requires forall k :: 0 <= k < |s| && s[k].isPlayerBall ==> !s[k].isClicked
    ensures ClickedCount(s) <= EnemyCount(s)
  {
    if s != [] {
      ClickedAreEnemies(s[..|s| - 1]);
    }
  }

  // ---------------------------------------------------------------------------
  // The two counting loops of the frame step.

  /** The filter of the frame step, counting the kept player balls as it goes. */
  method FilterClicked(balls: seq<Ball>) returns (kept: seq<Ball>, playerBallCount: nat)
    ensures kept == Unclicked(balls)
    ensures playerBallCount == PlayerCount(kept)
  {
    kept, playerBallCount := [], 0;
    var i := 0;
    while i < |balls|
      invariant 0 <= i <= |balls|
      invariant kept == Unclicked(balls[..i])
      invariant playerBallCount == PlayerCount(kept)
    {
      var ball := balls[i];
      assert balls[..i + 1][..i] == balls[..i];
      var keep := !ball.isClicked;
      if keep && ball.isPlayerBall {
        playerBallCount := playerBallCount + 1;
      }
      if keep {
        assert (kept + [ball])[..|kept|] == kept;
        kept := kept + [ball];
      }
      i := i + 1;
    }
    assert balls[..i] == balls;
  }

  /** The enemy count of the game-over test. */
  method CountEnemies(balls: seq<Ball>) returns (enemyBallCount: nat)
    ensures enemyBallCount == EnemyCount(balls)
  {
    enemyBallCount := 0;
    var i := 0;
    while i < |balls|
      invariant 0 <= i <= |balls|
      invariant enemyBallCount == EnemyCount(balls[..i])
    {
      assert balls[..i + 1][..i] == balls[..i];
      if !balls[i].isPlayerBall {
        enemyBallCount := enemyBallCount + 1;
      }
      i := i + 1;
    }
    assert balls[..i] == balls;
  }
}
