/**
 * The player controller: the bunny's per-frame launch, pose and horizontal
 * steering, and the wrap that teleports it from one screen edge to the other.
 */
module Controller {

  /** Vertical velocity given on touching a platform (upwards). */
  const JumpVelocity: real := -300.0
  /** Horizontal speed while steering in the air. */
  const SteerSpeed: real := 200.0

  /** The two player images. */
  datatype Texture = BunnyStand | BunnyJump

  /** The player sprite: position, velocity, horizontal acceleration and image. */
  datatype Player = Player(x: real, y: real, vx: real, vy: real, accelX: real, texture: Texture)

  /** The player as the scene creates it: at (240, 320), at rest, standing. */
  const InitialPlayer: Player := Player(240.0, 320.0, 0.0, 0.0, 0.0, BunnyStand)

  /**
   * One controller step, given the engine's ground contact and the two
   * arrow keys: touching a platform launches the bunny and shows the jump
   * pose; falling shows the standing pose; in the air left steers left,
   * otherwise right steers right, and with neither (or on the ground) the
   * horizontal acceleration is cancelled while the velocity is kept.
   */
  function Controlled(p: Player, touchingDown: bool, left: bool, right: bool): (q: Player)
    ensures q.x == p.x && q.y == p.y
    ensures q.vy == if touchingDown then JumpVelocity else p.vy
    ensures q.texture == BunnyStand <==> !touchingDown && (p.vy > 0.0 || p.texture == BunnyStand)
    ensures !touchingDown && left ==> q.vx == -SteerSpeed && q.accelX == p.accelX
    ensures !touchingDown && !left && right ==> q.vx == SteerSpeed && q.accelX == p.accelX
    ensures touchingDown || (!left && !right) ==> q.vx == p.vx && q.accelX == 0.0
  {
    var launched := if touchingDown then p.(vy := JumpVelocity, texture := BunnyJump) else p;
    var posed := if launched.vy > 0.0 && launched.texture != BunnyStand
                 then launched.(texture := BunnyStand) else launched;
    if left && !touchingDown then posed.(vx := -SteerSpeed)
    else if right && !touchingDown then posed.(vx := SteerSpeed)
    else posed.(accelX := 0.0)
  }

  /** A frame on the ground always ends in the jump pose, moving up. */
  lemma LaunchShowsJumpPose(p: Player, left: bool, right: bool)
    ensures Controlled(p, true, left, right).texture == BunnyJump
    ensures Controlled(p, true, left, right).vy < 0.0
  {
  }

  /** Both arrow keys held in the air: left wins. */
  lemma LeftBeatsRight(p: Player)
    ensures Controlled(p, false, true, true).vx == -SteerSpeed
  {
  }

  /**
   * The horizontal wrap: a sprite of half width `halfWidth` that has left
   * the screen completely on one side re-enters on the other; anywhere in
   * [-halfWidth, gameWidth + halfWidth], both ends included, it stays.
   */
  function Wrap(x: real, halfWidth: real, gameWidth: real): (r: real)
    requires 0.0 <= halfWidth && 0.0 <= gameWidth
    ensures -halfWidth <= r <= gameWidth + halfWidth
    ensures -halfWidth <= x <= gameWidth + halfWidth ==> r == x
    ensures x < -halfWidth ==> r == gameWidth + halfWidth
    ensures x > gameWidth + halfWidth ==> r == -halfWidth
  {
    if x < -halfWidth then gameWidth + halfWidth
    else if x > gameWidth + halfWidth then -halfWidth
    else x
  }

  /** Wrapping twice is wrapping once: the edge a sprite lands on is not wrapped back. */
  lemma WrapIdempotent(x: real, halfWidth: real, gameWidth: real)
    requires 0.0 <= halfWidth && 0.0 <= gameWidth
    ensures Wrap(Wrap(x, halfWidth, gameWidth), halfWidth, gameWidth) == Wrap(x, halfWidth, gameWidth)
  {
  }
}
