/**
 * The game scene: the state the scene object keeps across frames and the
 * lifecycle callbacks and handlers that change it in place. Values the
 * engine computes (ground contact, camera scroll, key state, the player's
 * display width, random draws) are parameters; the pool slot a carrot is
 * put in is left open.
 */
module GameScene {
  import opened World
  import opened Controller
  import opened Score

  /** The player falling more than this below the lowest platform ends the run. */
  const LossMargin: real := 200.0

  class Game {
    /** Width of the game canvas (the engine's scale manager). */
    const gameWidth: real
    /** The platforms of the static group, in creation order. */
    var platforms: array<Platform>
    /** The members of the carrot group, live and retired. */
    var carrots: seq<Carrot>
    var player: Player
    var carrotsCollected: nat
    /** Text of the score label. */
    var scoreText: string
    /** Set once the scene has asked to switch to the game-over scene. */
    var gameOver: bool

    /**
     * The scene between frames: a fixed number of platforms, a consistent
     * carrot pool and a score label that shows the counter.
     */
    ghost predicate Valid()
      reads this
    {
      && platforms.Length == PlatformCount
      && 0.0 <= gameWidth
      && PoolConsistent(carrots)
      && scoreText == Label(carrotsCollected)
    }

    /** Builds the scene object; the counter starts at zero. */
    constructor (gameWidth: real)
      requires 0.0 <= gameWidth
      ensures this.gameWidth == gameWidth
      ensures carrotsCollected == 0 && !gameOver
    {
      this.gameWidth := gameWidth;
      platforms := new Platform[0];
      carrots := [];
      player := InitialPlayer;
      carrotsCollected := 0;
      scoreText := "";
      gameOver := false;
    }

    /** Scene (re)start: resets the counter and nothing else. */
    method Init()
      modifies this`carrotsCollected
      ensures carrotsCollected == 0
    {
      carrotsCollected := 0;
    }

    /**
     * One-time setup: five platforms at heights 0, 150, ..., 600 with x and
     * image drawn at random, the label "Carrots: 0", the player and an empty
     * carrot group. The label is accurate exactly when Init ran first.
     */
    method Create(xs: seq<int>, draws: seq<int>, bigHeight: real, smallHeight: real)
      requires |xs| == PlatformCount && |draws| == PlatformCount
      requires forall i :: 0 <= i < |xs| ==> MinX <= xs[i] <= MaxX
      requires forall i :: 0 <= i < |draws| ==> 0 <= draws[i] <= 1
      requires 0.0 <= gameWidth
      modifies this`platforms, this`carrots, this`player, this`scoreText, this`gameOver
      ensures fresh(platforms) && platforms.Length == PlatformCount
      ensures forall i :: 0 <= i < PlatformCount ==>
                platforms[i] == Initial(i, xs[i], draws[i], bigHeight, smallHeight)
      ensures carrots == [] && player == InitialPlayer && !gameOver
      ensures scoreText == "Carrots: 0"
      ensures Valid() <==> carrotsCollected == 0
    {
      var group := new Platform[PlatformCount];
      for i := 0 to PlatformCount
        invariant forall j :: 0 <= j < i ==> group[j] == Initial(j, xs[j], draws[j], bigHeight, smallHeight)
      {
        var kind := KindOf(draws[i]);
        var height := if kind == Big then bigHeight else smallHeight;
        group[i] := Platform(xs[i] as real, Spacing * i as real, kind, PlatformScale * height);
      }
      platforms := group;
      scoreText := "Carrots: 0";
      player := InitialPlayer;
      carrots := [];
      gameOver := false;
      InitialLabel();
    }

    /**
     * Wraps the player horizontally; `halfWidth` is half its display width.
     * Only the player's x changes.
     */
    method HorizontalWrap(halfWidth: real)
      requires 0.0 <= halfWidth && 0.0 <= gameWidth
      modifies this`player
      ensures player == old(player).(x := Wrap(old(player).x, halfWidth, gameWidth))
      ensures -halfWidth <= player.x <= gameWidth + halfWidth
    {
      if player.x < -halfWidth {
        player := player.(x := gameWidth + halfWidth);
      } else if player.x > gameWidth + halfWidth {
        player := player.(x := -halfWidth);
      }
    }

    /**
     * Takes a carrot from the pool and puts it on top of `p`, live. The slot
     * is an inactive carrot or a new one appended to the group; which one the
     * engine picks is left open.
     */
    method AddCarrotAbove(p: Platform) returns (slot: nat)
      requires PoolConsistent(carrots)
      modifies this`carrots
      ensures PoolConsistent(carrots)
      ensures Acquirable(old(carrots), slot)
      ensures carrots == Placed(old(carrots), slot, CarrotAbove(p))
    {
      slot :| slot <= |carrots| && (slot < |carrots| ==> !carrots[slot].active);
      PlacedConsistent(carrots, slot, p);
      if slot == |carrots| {
        carrots := carrots + [CarrotAbove(p)];
      } else {
        carrots := carrots[slot := CarrotAbove(p)];
      }
    }

    /**
     * The overlap handler: the carrot in `slot` goes back to the pool, the
     * counter goes up by one and the label shows it. No other carrot changes.
     */
    method HandleCollectCarrot(slot: nat)
      requires Valid() && slot < |carrots|
      modifies this`carrots, this`carrotsCollected, this`scoreText
      ensures Valid()
      ensures carrots == old(carrots)[slot := Collected(old(carrots)[slot])]
      ensures carrotsCollected == old(carrotsCollected) + 1
      ensures scoreText == Label(carrotsCollected)
    {
      carrots := carrots[slot := Collected(carrots[slot])];
      carrotsCollected := carrotsCollected + 1;
      scoreText := Prefix + Decimal(carrotsCollected);
    }

    /**
     * The index of the lowest platform on screen (greatest y); among
     * platforms sharing that y, the last one.
     */
    method FindBottomPlatform() returns (b: nat)
      requires platforms.Length > 0
      ensures b < platforms.Length
      ensures forall j :: 0 <= j < platforms.Length ==> platforms[j].y <= platforms[b].y
      ensures forall j :: b < j < platforms.Length ==> platforms[j].y < platforms[b].y
    {
      b := 0;
      for i := 0 to platforms.Length
        invariant b < platforms.Length && b <= i
        invariant forall j :: 0 <= j < i ==> platforms[j].y <= platforms[b].y
        invariant forall j :: b < j < i ==> platforms[j].y < platforms[b].y
      {
        if platforms[i].y < platforms[b].y {
          continue;
        }
        b := i;
      }
    }

    /** The player controller part of a frame. */
    method ControlPlayer(touchingDown: bool, left: bool, right: bool)
      modifies this`player
      ensures player == Controlled(old(player), touchingDown, left, right)
    {
      if touchingDown {
        player := player.(vy := JumpVelocity, texture := BunnyJump);
      }
      if player.vy > 0.0 && player.texture != BunnyStand {
        player := player.(texture := BunnyStand);
      }
      if left && !touchingDown {
        player := player.(vx := -SteerSpeed);
      } else if right && !touchingDown {
        player := player.(vx := SteerSpeed);
      } else {
        player := player.(accelX := 0.0);
      }
    }

    /**
     * The recycle pass of a frame: every stale platform moves above the
     * camera (by its own draw in `gaps`) and gets one carrot on top; the
     * ghost map `spawned` says which pool slot each recycled platform got.
     */
    method RecyclePlatforms(scrollY: real, gaps: seq<int>) returns (ghost spawned: map<nat, nat>)
      requires Valid()
      requires |gaps| == platforms.Length
      requires forall i :: 0 <= i < |gaps| ==> MinGap <= gaps[i] <= MaxGap
      modifies this`carrots, platforms
      ensures Valid()
      ensures forall i :: 0 <= i < platforms.Length ==>
                platforms[i] == Recycle(old(platforms[i]), scrollY, gaps[i])
      ensures forall i :: 0 <= i < platforms.Length ==> !Stale(platforms[i], scrollY)
      ensures SpawnedOnePerRecycled(old(platforms[..]), platforms[..], scrollY, old(carrots), carrots, spawned)
    {
      ghost var before := platforms[..];
      ghost var pool := carrots;
      spawned := map[];
      SpawnedNone(scrollY, pool);
      for i := 0 to platforms.Length
        invariant Valid()
        invariant forall j :: 0 <= j < i ==> platforms[j] == Recycle(before[j], scrollY, gaps[j])
        invariant forall j :: i <= j < platforms.Length ==> platforms[j] == before[j]
        invariant SpawnedOnePerRecycled(before[..i], platforms[..i], scrollY, pool, carrots, spawned)
      {
        var platform := platforms[i];
        assert before[..i + 1] == before[..i] + [platform];
        if platform.y >= scrollY + Threshold {
          ghost var done := platforms[..i];
          ghost var carrotsBefore := carrots;
          platforms[i] := platform.(y := scrollY - gaps[i] as real);
          var slot := AddCarrotAbove(platforms[i]);
          SpawnedRecycle(before[..i], done, scrollY, pool, carrotsBefore, spawned, platform, gaps[i], slot);
          spawned := spawned[i := slot];
          assert platforms[..i + 1] == done + [platforms[i]];
        } else {
          SpawnedKeep(before[..i], platforms[..i], scrollY, pool, carrots, spawned, platform);
          assert platforms[..i + 1] == platforms[..i] + [platform];
        }
      }
      assert before[..platforms.Length] == before;
      assert platforms[..platforms.Length] == platforms[..];
    }

    /**
     * One frame: the controller, the recycle pass, the wrap, then the loss
     * check against the lowest platform as the recycle pass left it.
     */
    method Update(touchingDown: bool, left: bool, right: bool, scrollY: real,
                  gaps: seq<int>, halfWidth: real) returns (ghost spawned: map<nat, nat>)
      requires Valid()
      requires |gaps| == platforms.Length
      requires forall i :: 0 <= i < |gaps| ==> MinGap <= gaps[i] <= MaxGap
      requires 0.0 <= halfWidth
      modifies this`player, this`carrots, this`gameOver, platforms
      ensures Valid()
      ensures player == var q := Controlled(old(player), touchingDown, left, right);
                        q.(x := Wrap(q.x, halfWidth, gameWidth))
      ensures forall i :: 0 <= i < platforms.Length ==>
                platforms[i] == Recycle(old(platforms[i]), scrollY, gaps[i])
      ensures forall i :: 0 <= i < platforms.Length ==> !Stale(platforms[i], scrollY)
      ensures SpawnedOnePerRecycled(old(platforms[..]), platforms[..], scrollY, old(carrots), carrots, spawned)
      ensures gameOver <==> (old(gameOver) ||
                forall i :: 0 <= i < platforms.Length ==> platforms[i].y + LossMargin < player.y)
      ensures player.y >= scrollY + Threshold + LossMargin ==> gameOver
    {
      ControlPlayer(touchingDown, left, right);
      spawned := RecyclePlatforms(scrollY, gaps);
      HorizontalWrap(halfWidth);
      var bottom := FindBottomPlatform();
      if platforms[bottom].y + LossMargin < player.y {
        gameOver := true;
      }
    }
  }
}
