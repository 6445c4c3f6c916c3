/**
 * Frames played against the scene's contracts alone: what a caller can
 * conclude about a fresh scene, a recycle, the loss boundary and a collect.
 * Assignments to `player` stand for the engine's physics moving the bunny
 * between frames.
 */
module Scenarios {
  import opened World
  import opened Controller
  import opened Score
  import opened GameScene

  method StartScene() returns (g: Game)
    ensures g.Valid() && fresh(g) && fresh(g.platforms)
    ensures g.carrotsCollected == 0 && g.carrots == [] && !g.gameOver
    ensures forall i :: 0 <= i < PlatformCount ==> g.platforms[i].y == Spacing * i as real
  {
    g := new Game(480.0);
    g.Init();
    g.Create([80, 120, 240, 360, 400], [0, 1, 1, 0, 1], 60.0, 40.0);
  }

  /** The lowest platform is at 600: falling to 800 is survived, to 801 is not. */
  method LossBoundary() {
    var g := StartScene();
    g.player := g.player.(y := 800.0);
    var _ := g.Update(false, false, false, 0.0, [50, 50, 50, 50, 50], 20.0);
    assert g.platforms[4].y == 600.0;
    assert !g.gameOver;
    g.player := g.player.(y := 801.0);
    var _ := g.Update(false, false, false, 0.0, [50, 50, 50, 50, 50], 20.0);
    assert g.gameOver;
  }

  /**
   * The camera climbs so that only the platform at 600 is past the recycle
   * line: it alone moves above the camera, and the one carrot spawned sits
   * on it; collecting that carrot shows "Carrots: 1".
   */
  method RecycleThenCollect() {
    var g := StartScene();
    ghost var before := g.platforms[..];
    var spawned := g.Update(false, false, false, -100.0, [60, 70, 80, 90, 75], 20.0);
    assert StaleIndices(before, -100.0) == {4} by {
      forall i: nat | i < |before|
        ensures Stale(before[i], -100.0) <==> i == 4
      {
      }
    }
    assert g.platforms[4].y == -175.0;
    assert forall i :: 0 <= i < 4 ==> g.platforms[i].y == Spacing * i as real;
    assert spawned.Keys == {4} && spawned.Values == {spawned[4]};
    assert 0 < |g.carrots| && 0 in spawned.Values;
    assert 1 < |g.carrots| ==> 1 in spawned.Values;
    assert |g.carrots| == 1 && g.carrots[0] == CarrotAbove(g.platforms[4]);
    g.HandleCollectCarrot(0);
    assert g.carrotsCollected == 1 && !g.carrots[0].active;
    assert g.scoreText == Prefix + Decimal(1);
  }
}
