# Infinite jumper: the game scene's rules in Dafny

This project models the gameplay rules of the `Game` scene of a Doodle-Jump-style
platformer. A bunny bounces upward over five platforms. A platform that scrolls
out below the camera is recycled above it and gets a carrot on top. Collecting a
carrot raises the score shown in the label "Carrots: N". The run is lost once the
bunny falls more than 200 pixels below the lowest platform.

The engine does the physics, collision detection, rendering and camera, so it
is not modelled. Everything the scene reads from the engine is a parameter:

- ground contact;
- the camera's `scrollY`;
- the left and right arrow keys;
- the player's half display width;
- the canvas width;
- the heights of the two platform images;
- the random draws of `Phaser.Math.Between`, each with a `requires` for its range.

The pool slot that the carrot group hands out is left open: `AddCarrotAbove`
may take any inactive carrot or append a new one, and returns the slot it took.

Modules:

- `World` (world.dfy): platform and carrot records, and the initial layout. It
  holds the recycle rule for one platform, the carrot placed on a platform, the
  collected carrot, the pool discipline, and the lemmas that carry the recycle
  pass's "one carrot per recycled platform" property from one platform to the next.
- `Controller` (controller.dfy): the player record, one player-controller step
  as a function, and the horizontal wrap.
- `Score` (score.dfy): the counter written in decimal, the label text, and the
  round trips that show the label shows the counter exactly.
- `GameScene` (game.dfy): class `Game` keeps the scene's state across frames:
  - `platforms`, an array rewritten in place;
  - `carrots`, the pool;
  - `player`, `carrotsCollected` and `scoreText`;
  - `gameOver`.

  Its methods are the scene's callbacks and handlers. `Valid()` is the frame
  invariant: five platforms, a consistent pool and a label that matches the counter.
- `Scenarios` (scenarios.dfy): frames that a caller plays against the contracts
  alone: start-up, the loss boundary at 200 pixels, and one recycle followed by a
  collect.

Two details are modelled exactly as the code has them:

- The carrot sits at `platform.y - platform.displayHeight`, i.e. it is offset by
  the platform's display height, not by the carrot's height.
- `horizontalWrap` compares strictly on both sides. A player exactly at
  `-halfWidth` or `gameWidth + halfWidth` is left where it is, not wrapped.

## Model

| member | source | states |
|---|---|---|
| `GameScene.Game.constructor` | src/scenes/Game.js:21 | a new scene object starts with the counter at 0 and no game-over request |
| `GameScene.Game.Init` | src/scenes/Game.js:86-89 | a (re)start sets the counter to 0 and changes nothing else |
| `World.Initial` | src/scenes/Game.js:113-128 | platform i of the first layout is at y = 150*i and at the drawn x, so 80 <= x <= 400; the draw 0 selects the big image; its display height is half its image's height |
| `GameScene.Game.Create` | src/scenes/Game.js:113-147 | setup builds a fresh array of exactly five platforms laid out by `Initial` and an empty carrot group; the label reads "Carrots: 0"; the player starts standing at (240, 320); the scene invariant holds exactly when the counter is 0, i.e. when `init` ran first |
| `Scenarios.StartScene` | src/scenes/Game.js:86-147 | `init` followed by `create` yields a valid scene with score 0, no carrots and platforms at y = 0, 150, ..., 600 |
| `Score.Label` | src/scenes/Game.js:68 | the label is "Carrots: " followed by a canonical decimal numeral (digits only, no leading zero) |
| `Score.Decimal` | src/scenes/Game.js:68 | the counter's rendering is a canonical numeral, one digit long exactly for values below 10 |
| `Score.DecimalRoundTrip` | src/scenes/Game.js:68 | reading the rendered numeral back gives the counter |
| `Score.CanonicalRoundTrip` | src/scenes/Game.js:68 | every canonical numeral is the rendering of the number it denotes (the other direction of the round trip) |
| `Score.LabelInjective` | src/scenes/Game.js:68 | two counter values with the same label are equal, so the label determines the score |
| `Score.InitialLabel` | src/scenes/Game.js:130-131 | the literal "Carrots: 0" written at setup is the label of 0 and of no other value |
| `Controller.Wrap` | src/scenes/Game.js:27-35 | the wrapped x always lies in [-h, g+h]; an x in that closed interval (endpoints included) is unchanged; x < -h goes to g+h; x > g+h goes to -h |
| `Controller.WrapIdempotent` | src/scenes/Game.js:27-35 | wrapping a second time changes nothing |
| `GameScene.Game.HorizontalWrap` | src/scenes/Game.js:27-35 | only the player's x changes, and it becomes the wrapped x |
| `World.CarrotAbove` | src/scenes/Game.js:41-48 | the spawned carrot is active, visible and body-enabled, at the platform's x and exactly the platform's display height above its y |
| `World.Placed` | src/scenes/Game.js:45 | acquiring a slot either overwrites the chosen inactive slot or appends one carrot; no other slot changes |
| `World.PlacedConsistent` | src/scenes/Game.js:45-53 | placing a live carrot keeps every pooled carrot fully live or fully retired |
| `GameScene.Game.AddCarrotAbove` | src/scenes/Game.js:41-55 | the returned slot held an inactive carrot or is new; the pool afterwards is the old pool with the carrot above the platform in that slot; the pool stays consistent |
| `World.Collected` | src/scenes/Game.js:62-64 | a collected carrot is inactive, hidden and body-disabled, at the same position |
| `GameScene.Game.HandleCollectCarrot` | src/scenes/Game.js:61-69 | only the collected carrot changes (to `Collected`); the counter rises by exactly 1; the label shows the new counter |
| `GameScene.Game.FindBottomPlatform` | src/scenes/Game.js:71-84 | returns an index whose platform's y is at least every platform's y, and every later platform has a strictly smaller y (ties go to the last index) |
| `Controller.Controlled` | src/scenes/Game.js:173-194 | position is kept; vy is -300 exactly on ground contact, else unchanged; the pose is standing iff not on the ground and (falling or already standing); in the air left sets vx = -200, otherwise right sets vx = 200, and acceleration is kept; otherwise vx is kept and accelX becomes 0 |
| `Controller.LaunchShowsJumpPose` | src/scenes/Game.js:176-184 | a frame on the ground always ends with the jump pose and upward velocity |
| `Controller.LeftBeatsRight` | src/scenes/Game.js:187-190 | with both arrow keys held in the air, the player steers left |
| `GameScene.Game.ControlPlayer` | src/scenes/Game.js:174-194 | the player afterwards is `Controlled` of the player before |
| `World.Recycle` | src/scenes/Game.js:202-203 | x, image and height are kept; a platform above the recycle line is unchanged; a stale one moves to scrollY - gap, between 100 and 50 above the camera top; afterwards the platform is never stale |
| `World.RecycledStaysPut` | src/scenes/Game.js:202-203 | a recycled platform is not recycled again until the camera climbs more than 750 above the scroll at which it was recycled |
| `World.SpawnedNone` | src/scenes/Game.js:196 | before any platform is visited, no carrot has been spawned |
| `World.SpawnedKeep` | src/scenes/Game.js:202 | a platform left in place spawns no carrot |
| `World.SpawnedRecycle` | src/scenes/Game.js:202-206 | a recycled platform spawns exactly one carrot, in a slot that no earlier spawn of the pass took |
| `GameScene.Game.RecyclePlatforms` | src/scenes/Game.js:196-207 | the same array keeps its five platforms; each becomes `Recycle` of itself; afterwards none is stale; exactly the stale ones got one carrot each on their new position, in distinct slots; reused slots were inactive; every other carrot is unchanged |
| `GameScene.Game.Update` | src/scenes/Game.js:173-215 | one frame: controller, then recycle pass, then wrap; the game is over iff it already was or the player is more than 200 below every platform after the recycle pass; a player 900 or more below the camera top always loses; score and label are unchanged |

## Left out

- Asset loading, the background image, text styling, rendering, adding the carrot to the display list, and camera follow/deadzone. They are engine I/O with no rule of their own.
- Arcade physics: gravity, velocity integration, collider and overlap detection, how `touching.down` is computed, and the collision flags of the player's body. Ground contact, the player's position and its velocity are inputs. The engine moves the player between frames by assigning `player`.
- Registration of the collider and overlap handlers. `HandleCollectCarrot` is called with the slot of the overlapping carrot, as the engine would call it.
- Physics-body bookkeeping: `updateFromGameObject` on static platform bodies, and resizing a carrot's body to its image.
- `scene.start("game-over")` is modelled only as setting the `gameOver` flag, which nothing clears during a run.
- The `Carrot` sprite class (src/game/Carrot.js) is not part of this model.
- GameScene.Game.AddCarrotAbove: does not say which inactive carrot the group reuses. Any inactive slot, or a new one, is allowed, because the group's reuse policy belongs to the engine.
- Random draws are parameters with `requires` for their ranges. The recycle pass takes one gap draw per platform slot and uses it only when that slot is recycled, which has the same distribution as drawing on demand.
- Coordinates and velocities are exact reals. Floating-point rounding, NaN, and the loss of integer precision of a counter above 2^53 are not modelled.
- The player's display width and the canvas width are given values. The player sprite's 0.5 scale is folded into the half width passed to the wrap.
