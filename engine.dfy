/**
 * The `Game` object itself (static/js/game.js, class Game and the static
 * bookkeeping of class Explosion): its fields, changed in place by its
 * methods.  `Model()` reads the fields as a `GameModel.State`, and every
 * method is proved to move that value exactly as the matching simulation
 * function says; the properties are proved about those functions.
 */
module Engine {
  import opened Wrappers
  import opened Scenery
  import opened GameModel
  import Collision
  import Combat
  import Physics
  import Streaming
  import Explosions
  import Lifecycle
  import Input
  import GifTiming
  import ExplosionWorker

  /** `this.worldBounds`, the stretch of world the stars cover. */
  datatype Bounds = Bounds(left: real, right: real)

  /**
   * The three closure variables `touchStartX`, `lastTouchX` and
   * `lastMovementDirection` shared by the touch handlers; `null` is `None`.
   */
  datatype Gesture = Gesture(startX: Option<real>, lastX: Option<real>, direction: int)

  class Game {
    var viewportOffset: real
    var worldBounds: Bounds
    var trees: seq<Tree>
    var stars: seq<Star>
    var poops: seq<Poop>
    var cars: seq<Car>
    var score: int
    var carSpawnTimer: int
    var bat: Bat
    var keyMap: map<Action, string>
    var keys: map<string, bool>
    var poopAmmo: int
    var gameOver: bool
    var speedMultiplier: real
    var isPaused: bool
    var lastViewportPosition: real
    var lastBatDirection: int
    var explosions: seq<Explosion>
    /** `Explosion.nextId`, shared by every explosion of the page. */
    var nextExplosionId: nat
    /** Whether `Explosion.worker` is set. */
    var workerAlive: bool
    /** The start messages posted to the worker, oldest first. */
    var outbox: seq<StartRequest>
    /** The gesture variables of the touch handlers. */
    var gesture: Gesture
    var explosionFrames: seq<nat>
    var explosionTotalFrames: int
    var explosionFrameDuration: int
    var explosionDuration: int

    /** The fields as one value. */
    ghost function Model(): State
      reads this
    {
      State(viewportOffset, worldBounds.left, worldBounds.right, trees, stars, poops, cars, score, carSpawnTimer,
            bat, keyMap, keys, poopAmmo, gameOver, speedMultiplier, isPaused,
            lastViewportPosition, lastBatDirection, explosions, nextExplosionId, workerAlive, outbox,
            gesture.startX, gesture.lastX, gesture.direction,
            explosionFrames, explosionTotalFrames, explosionFrameDuration, explosionDuration)
    }

    ghost predicate Valid()
      reads this
    {
      GameModel.Valid(Model())
    }

    /** The constructor: defaults, then the initial scenery. */
    constructor (starRand: Rand, treeRand: Rand)
      requires IsUnit(starRand) && IsUnit(treeRand)
      ensures Model() == Lifecycle.Initial(starRand, treeRand)
      ensures Valid()
    {
      explosionFrames := [];
      explosionFrameDuration := DefaultFrameDuration;
      explosionTotalFrames := DefaultTotalFrames;
      explosionDuration := DefaultExplosionDuration;
      viewportOffset := 0.0;
      worldBounds := Bounds(-CanvasWidth, 2.0 * CanvasWidth);
      trees, stars, poops, cars := [], [], [], [];
      score, carSpawnTimer := 0, 0;
      bat := Bat(BatStartX, BatStartY, 0.0);
      keyMap := DefaultKeyMap();
      keys := map[];
      poopAmmo := MaxPoopAmmo;
      gameOver := false;
      speedMultiplier := 1.0;
      isPaused := false;
      lastViewportPosition := 0.0;
      lastBatDirection := 1;
      explosions := [];
      nextExplosionId := 0;
      workerAlive := false;
      outbox := [];
      gesture := Gesture(None, None, 0);
      new;
      GenerateInitialContent(starRand, treeRand);
    }

    // -------------------------------------------------------------- shooting and hits

    method Shoot()
      modifies this
      ensures Model() == Combat.Shoot(old(Model()))
    {
      if gameOver || poopAmmo <= 0 {
        return;
      }
      var currentBatVelocity := bat.velocity;
      poopAmmo := poopAmmo - 1;
      poops := poops + [Poop(bat.x + BatWidth / 2.0, bat.y + BatHeight * 1.2, currentBatVelocity, 2.0,
                             false, false, None, 1.0)];
    }

    /** `Explosion.nextId++`. */
    method TakeExplosionId() returns (id: nat)
      modifies this
      ensures id == old(nextExplosionId)
      ensures Model() == old(Model()).(nextExplosionId := id + 1)
    {
      id := nextExplosionId;
      nextExplosionId := nextExplosionId + 1;
    }

    /** The worker is created on first use and then shared. */
    method InitWorker()
      modifies this
      ensures Model() == old(Model()).(workerAlive := true)
    {
      if !workerAlive {
        workerAlive := true;
      }
    }

    /** `Explosion.worker.postMessage({id, duration})`. */
    method PostStart(id: nat, duration: int)
      modifies this
      ensures Model() == old(Model()).(outbox := old(outbox) + [StartRequest(id, duration)])
    {
      outbox := outbox + [StartRequest(id, duration)];
    }

    /** `new Explosion(x, y, size)`: take the next id, make sure a worker exists and start it. */
    method NewExplosion(x: real, y: real, size: real) returns (e: Explosion)
      modifies this
      ensures e == Explosion(x, y, size, old(nextExplosionId), false, 0.0)
      ensures Model() == old(Model()).(
        nextExplosionId := old(nextExplosionId) + 1,
        workerAlive := true,
        outbox := old(outbox) + [StartRequest(old(nextExplosionId), ExplosionLifetime)])
    {
      var id := TakeExplosionId();
      InitWorker();
      PostStart(id, ExplosionLifetime);
      e := Explosion(x, y, size, id, false, 0.0);
    }

    /** `this.explosions.push(new Explosion(x, y, size))`. */
    method AddExplosion(x: real, y: real, size: real)
      modifies this
      ensures Model() == old(Model()).(
        explosions := old(explosions) + [Explosion(x, y, size, old(nextExplosionId), false, 0.0)],
        nextExplosionId := old(nextExplosionId) + 1,
        workerAlive := true,
        outbox := old(outbox) + [StartRequest(old(nextExplosionId), ExplosionLifetime)])
    {
      var e := NewExplosion(x, y, size);
      explosions := explosions + [e];
    }

    /**
     * hitCar: an unhit car is marked hit at `now` and sent off at the hit
     * speed, an explosion starts at its centre, and the player is rewarded.
     */
    method HitCar(c: nat, now: int)
      requires c < |cars|
      modifies this
      ensures Model() == Combat.HitCarAt(old(Model()), c, now)
    {
      var car := cars[c];
      if !car.isHit {
        MarkHit(c, now);
        AddExplosion(car.x + CarWidth / 2.0, car.y + CarHeight / 2.0, CarWidth * 2.25);
        Reward();
      }
    }

    /** The car's own updates in hitCar: hit, hit time, and the hit speed in its direction of travel. */
    method MarkHit(c: nat, now: int)
      requires c < |cars|
      modifies this
      ensures Model() == old(Model()).(cars := old(cars)[c := old(cars)[c].(
        isHit := true, hitTime := Some(now),
        speed := if old(cars)[c].speed > 0.0 then Combat.HitSpeed(old(Model())) else -Combat.HitSpeed(old(Model())))])
    {
      var car := cars[c];
      var hitSpeed := BaseCarSpeed * speedMultiplier * HitSpeedMultiplier;
      cars := cars[c := car.(isHit := true, hitTime := Some(now), speed := if car.speed > 0.0 then hitSpeed else -hitSpeed)];
    }

    /** 100 points and a full load of ammunition. */
    method Reward()
      modifies this
      ensures Model() == old(Model()).(score := old(score) + 100, poopAmmo := MaxPoopAmmo)
    {
      score := score + 100;
      poopAmmo := MaxPoopAmmo;
    }

    method SpawnCar(side: real, colorDraw: real)
      requires 0.0 <= side < 1.0 && 0.0 <= colorDraw < 1.0
      modifies this
      ensures Model() == Combat.SpawnCar(old(Model()), side, colorDraw)
    {
      var direction: real := if side < 0.5 then -1.0 else 1.0;
      var x := if direction == -1.0 then viewportOffset + CanvasWidth + 100.0 else viewportOffset - 100.0;
      var laneOffset := if direction == -1.0 then -15.0 else 15.0;
      Combat.ScaledColor(colorDraw);
      var color := (colorDraw * CarColorCount as real).Floor;
      speedMultiplier := 1.0 + (score as real / 500.0) * 0.5;
      cars := cars + [Car(x, CanvasHeight - 80.0 + laneOffset, BaseCarSpeed * speedMultiplier * direction,
                          false, None, color)];
    }

    // -------------------------------------------------------------- the parts of update

    method MoveBat()
      modifies this
      ensures Model() == Physics.MoveBat(old(Model()))
    {
      var leftHeld := LeftKey in keyMap && keyMap[LeftKey] in keys && keys[keyMap[LeftKey]];
      var rightHeld := RightKey in keyMap && keyMap[RightKey] in keys && keys[keyMap[RightKey]];
      var targetVelocity := if leftHeld then -MaxSpeed else if rightHeld then MaxSpeed else 0.0;
      var velocity := Physics.StepVelocity(bat.velocity, targetVelocity);
      var direction := Physics.Facing(velocity, lastBatDirection);
      var x := Physics.ClampToViewport(bat.x + velocity, viewportOffset);
      bat, lastBatDirection := Bat(x, bat.y, velocity), direction;
    }

    /** One pass of the poop `forEach` body at index `k`. */
    method VisitPoop(k: nat, now: int)
      requires k < |poops|
      modifies this
      ensures Model() == Physics.VisitPoop(old(Model()), k, now)
    {
      var poop := poops[k];
      if !poop.grounded && !poop.attached {
        poop := Physics.Fall(poop);
        if poop.y > GroundY {
          poop := poop.(y := GroundY, grounded := true, groundedTime := Some(now));
          poops := poops[k := poop];
          if poopAmmo == 0 && Physics.NoneFlying(poops) {
            gameOver := true;
          }
        } else {
          poops := poops[k := poop];
        }
      } else if poop.grounded {
        var fadeProgress := Physics.FadeProgress(poop, now);
        if fadeProgress >= 1.0 {
          poops := Physics.RemoveAt(poops, k);
        } else {
          poops := poops[k := poop.(opacity := 1.0 - fadeProgress)];
        }
      }
    }

    /** The poop `forEach`: `n` indices fixed at the start, a spliced-out poop's successor skipped. */
    method UpdatePoops(now: int)
      modifies this
      ensures Model() == Physics.PoopsLoop(old(Model()), now, 0, old(|poops|))
    {
      var n := |poops|;
      var k := 0;
      while k < n
        invariant k <= n
        invariant Physics.PoopsLoop(Model(), now, k, n) == Physics.PoopsLoop(old(Model()), now, 0, n)
      {
        if k < |poops| {
          VisitPoop(k, now);
        }
        k := k + 1;
      }
    }

    /** The car `forEach` body at index `k`: advance, poop hits, chain hits, eviction. */
    method VisitCar(k: nat, now: int)
      requires k < |cars|
      modifies this
      ensures Model() == Physics.VisitCar(old(Model()), k, now)
    {
      AdvanceCar(k);
      TakePoopHits(k, now);
      HitOverlappingCars(k, now);
      EvictIfFarOff(k);
    }

    /** `car.x += car.speed`. */
    method AdvanceCar(k: nat)
      requires k < |cars|
      modifies this
      ensures Model() == Physics.AdvanceCar(old(Model()), k)
    {
      var car := cars[k];
      cars := cars[k := car.(x := car.x + car.speed)];
    }

    /** The splice at the end of the car `forEach` body. */
    method EvictIfFarOff(k: nat)
      requires k < |cars|
      modifies this
      ensures Model() == Physics.EvictIfFarOff(old(Model()), k)
    {
      if Physics.FarOff(cars[k], viewportOffset) {
        cars := Physics.RemoveAt(cars, k);
      }
    }

    /** The inner poop loop of the car pass, run while car `k` is unhit: every falling poop on it hits it and attaches. */
    method TakePoopHits(k: nat, now: int)
      requires k < |cars|
      modifies this
      ensures Model() == Physics.StrikeIfUnhit(old(Model()), k, now)
    {
      if cars[k].isHit {
        return;
      }
      var j := 0;
      while j < |poops|
        invariant j <= |poops| == old(|poops|) && |cars| == old(|cars|)
        invariant Physics.PoopsOnCar(Model(), k, j, now) == Physics.PoopsOnCar(old(Model()), k, 0, now)
        decreases |poops| - j
      {
        var poop := poops[j];
        if Physics.Strikes(poop, cars[k]) {
          HitCar(k, now);
          poops := poops[j := poop.(attached := true)];
        }
        j := j + 1;
      }
    }

    /** The chain loop of the car pass: car `k`, once hit, hits every unhit car it overlaps. */
    method HitOverlappingCars(k: nat, now: int)
      requires k < |cars|
      modifies this
      ensures Model() == Physics.ChainIfHit(old(Model()), k, now)
    {
      if !cars[k].isHit {
        return;
      }
      var j := 0;
      while j < |cars|
        invariant j <= |cars| == old(|cars|)
        invariant Physics.ChainHits(Model(), k, j, now) == Physics.ChainHits(old(Model()), k, 0, now)
        decreases |cars| - j
      {
        if !cars[j].isHit && Collision.Overlaps(Physics.CarBox(cars[k]), Physics.CarBox(cars[j])) {
          HitCar(j, now);
        }
        j := j + 1;
      }
    }

    /** The car `forEach`, with the same skipping as the poop pass. */
    method UpdateCars(now: int)
      modifies this
      ensures Model() == Physics.CarsLoop(old(Model()), now, 0, old(|cars|))
    {
      var n := |cars|;
      var k := 0;
      while k < n
        invariant k <= n
        invariant Physics.CarsLoop(Model(), now, k, n) == Physics.CarsLoop(old(Model()), now, 0, n)
      {
        if k < |cars| {
          VisitCar(k, now);
        }
        k := k + 1;
      }
    }

    method SpawnTick(chance: real, side: real, colorDraw: real)
      requires 0.0 <= chance < 1.0 && 0.0 <= side < 1.0 && 0.0 <= colorDraw < 1.0
      modifies this
      ensures Model() == Combat.SpawnTick(old(Model()), chance, side, colorDraw)
    {
      carSpawnTimer := carSpawnTimer + 1;
      if carSpawnTimer > SpawnInterval {
        carSpawnTimer := 0;
        if chance < SpawnChance {
          SpawnCar(side, colorDraw);
        }
      }
    }

    // -------------------------------------------------------------- viewport and scenery

    /** The tree half of checkContentGeneration. */
    method AddTrees(rand: Rand)
      requires IsUnit(rand)
      modifies this
      ensures Model() == Streaming.AfterTrees(old(Model()), rand)
    {
      var viewportLeft := viewportOffset;
      var viewportRight := viewportLeft + CanvasWidth;
      var viewportMovement := Collision.Abs(viewportLeft - lastViewportPosition);
      var visibleTrees := KeepTrees(trees, viewportLeft, viewportRight);
      if viewportMovement > MinTreeSpacing / 2.0 || |visibleTrees| < 2 {
        GrowTrees(rand);
      } else {
        assert Streaming.GrowTrees(Model(), rand) == (trees, lastViewportPosition);
      }
    }

    /** The body of the tree check once it fires: new trees on the side away from the motion. */
    method GrowTrees(rand: Rand)
      requires IsUnit(rand) && Streaming.TreeCheckDue(Model())
      modifies this
      ensures Model() == Streaming.AfterTrees(old(Model()), rand)
    {
      var viewportLeft := viewportOffset;
      var viewportRight := viewportLeft + CanvasWidth;
      var generationWidth := Streaming.GenerationWidth(viewportLeft, lastViewportPosition);
      if viewportLeft - lastViewportPosition <= 0.0 {
        var newTrees := GenerateTreesForRange(viewportRight, viewportRight + generationWidth, rand);
        AppendTrees(newTrees);
      } else {
        var newTrees := GenerateTreesForRange(viewportLeft - generationWidth, viewportLeft, rand);
        PrependTrees(newTrees);
      }
      lastViewportPosition := viewportLeft;
    }

    /** `this.trees.push(...newTrees)`. */
    method AppendTrees(newTrees: seq<Tree>)
      modifies this
      ensures Model() == old(Model()).(trees := old(trees) + newTrees)
    {
      trees := trees + newTrees;
    }

    /** `this.trees.unshift(...newTrees)`. */
    method PrependTrees(newTrees: seq<Tree>)
      modifies this
      ensures Model() == old(Model()).(trees := newTrees + old(trees))
    {
      trees := newTrees + trees;
    }

    /** The right half of the star generation. */
    method ExtendRight(rand: Rand)
      requires IsUnit(rand)
      modifies this
      ensures Model() == Streaming.ExtendRight(old(Model()), rand)
    {
      var viewportRight := viewportOffset + CanvasWidth;
      if viewportRight + CanvasWidth > worldBounds.right {
        stars := stars + StarsForRange(worldBounds.right, viewportRight + CanvasWidth, rand);
        worldBounds := worldBounds.(right := viewportRight + CanvasWidth);
      }
    }

    /** The left half of the star generation. */
    method ExtendLeft(rand: Rand)
      requires IsUnit(rand)
      modifies this
      ensures Model() == Streaming.ExtendLeft(old(Model()), rand)
    {
      var viewportLeft := viewportOffset;
      if viewportLeft - CanvasWidth < worldBounds.left {
        stars := StarsForRange(viewportLeft - CanvasWidth, worldBounds.left, rand) + stars;
        worldBounds := worldBounds.(left := viewportLeft - CanvasWidth);
      }
    }

    method CheckContentGeneration(d: Streaming.SceneryDraws)
      requires Streaming.UnitDraws(d)
      modifies this
      ensures Model() == Streaming.CheckContentGeneration(old(Model()), d)
    {
      AddTrees(d.trees);
      ExtendRight(d.starsRight);
      ExtendLeft(d.starsLeft);
      // the closing filter is the one cleanupContent applies
      CleanupContent(viewportOffset, viewportOffset + CanvasWidth);
    }

    method UpdateViewport(d: Streaming.SceneryDraws)
      requires Streaming.UnitDraws(d)
      modifies this
      ensures Model() == Streaming.UpdateViewport(old(Model()), d)
    {
      var batViewportX := bat.x - viewportOffset;
      if batViewportX < ViewportThreshold {
        viewportOffset := bat.x - ViewportThreshold;
      } else if batViewportX > CanvasWidth - ViewportThreshold {
        viewportOffset := bat.x - (CanvasWidth - ViewportThreshold);
      }
      CheckContentGeneration(d);
    }

    /** generateContentForRange; it reads no field. */
    static method GenerateContentForRange(startX: real, endX: real, starRand: Rand, treeRand: Rand)
      returns (content: Streaming.Content)
      requires IsUnit(starRand) && IsUnit(treeRand)
      ensures content == Streaming.GenerateContentForRange(startX, endX, starRand, treeRand)
      ensures forall t :: t in content.trees ==> startX - 40.0 <= t.x < endX
      ensures forall st :: st in content.stars ==> startX <= st.x < endX
    {
      if startX >= endX {
        return Streaming.Content([], []);
      }
      var newTrees := GenerateTreesForRange(startX, endX, treeRand);
      content := Streaming.Content(StarsForRange(startX, endX, starRand), newTrees);
      TreesInsideRange(startX, endX, treeRand);
      StarsInsideRange(startX, endX, starRand);
    }

    method GenerateInitialContent(starRand: Rand, treeRand: Rand)
      requires IsUnit(starRand) && IsUnit(treeRand)
      modifies this
      ensures Model() == Streaming.GenerateInitialContent(old(Model()), starRand, treeRand)
    {
      var initialContent := GenerateContentForRange(Streaming.InitialLeft, Streaming.InitialRight, starRand, treeRand);
      trees := initialContent.trees;
      stars := initialContent.stars;
      worldBounds := Bounds(Streaming.InitialLeft, Streaming.InitialRight);
    }

    method CleanupContent(viewportLeft: real, viewportRight: real)
      modifies this
      ensures Model() == Streaming.CleanupContent(old(Model()), viewportLeft, viewportRight)
    {
      trees := KeepTrees(trees, viewportLeft - CanvasWidth, viewportRight + CanvasWidth);
      stars := KeepStars(stars, viewportLeft - CanvasWidth, viewportRight + CanvasWidth);
    }

    // -------------------------------------------------------------- frames

    method Update(now: int, d: Lifecycle.FrameDraws)
      requires Lifecycle.UnitFrame(d)
      modifies this
      ensures Model() == Lifecycle.Update(old(Model()), now, d)
      ensures old(Valid()) ==> Valid()
    {
      ghost var s0 := Model();
      if !gameOver {
        MoveBat();
        UpdateViewport(d.viewport);
        UpdatePoops(now);
        UpdateCars(now);
        SpawnTick(d.spawnChance, d.spawnSide, d.carColor);
        CheckContentGeneration(d.late);
      }
      if GameModel.Valid(s0) {
        Lifecycle.UpdatePreservesValid(s0, now, d);
      }
    }

    /** The filter at the start of draw. */
    method PruneExplosions()
      modifies this
      ensures Model() == Explosions.PruneExplosions(old(Model()))
    {
      explosions := Explosions.LiveOnly(explosions);
    }

    /** One animation frame: update unless paused, then the state part of draw. */
    method GameLoop(now: int, d: Lifecycle.FrameDraws)
      requires Lifecycle.UnitFrame(d)
      modifies this
      ensures Model() == Lifecycle.Frame(old(Model()), now, d)
      ensures old(Valid()) ==> Valid()
    {
      ghost var s0 := Model();
      if !isPaused {
        Update(now, d);
      }
      PruneExplosions();
      if GameModel.Valid(s0) {
        Lifecycle.FramePreservesValid(s0, now, d);
      }
    }

    /**
     * restartGame, block by block: the worker, the game state, the bat, the
     * viewport, the scene, the new scenery, the speed factor and the pause.
     */
    method Restart(starRand: Rand, treeRand: Rand)
      requires IsUnit(starRand) && IsUnit(treeRand)
      modifies this
      ensures Model() == Lifecycle.Restart(old(Model()), starRand, treeRand)
      ensures old(Valid()) ==> Valid()
    {
      ghost var s0 := Model();
      CleanupExplosionWorker();
      ResetPlay();
      ResetBat();
      ResetViewport();
      ClearScene();
      GenerateInitialContent(starRand, treeRand);
      ResumeAtBaseSpeed();
      if GameModel.Valid(s0) {
        Lifecycle.RestartValid(s0, starRand, treeRand);
      }
    }

    /** `Explosion.cleanup()`: the worker is terminated and dropped. */
    method CleanupExplosionWorker()
      modifies this
      ensures Model() == old(Model()).(workerAlive := false)
    {
      workerAlive := false;
    }

    /** The score and the ammunition of a restart. */
    method ResetScore()
      modifies this
      ensures Model() == old(Model()).(score := 0, poopAmmo := MaxPoopAmmo)
    {
      score := 0;
      poopAmmo := MaxPoopAmmo;
    }

    /** The "reset game state" block of a restart: score, ammo, game over and the entity lists. */
    method ResetPlay()
      modifies this
      ensures Model() == old(Model()).(score := 0, poopAmmo := MaxPoopAmmo, gameOver := false,
                                       poops := [], cars := [], explosions := [])
    {
      ResetScore();
      gameOver := false;
      poops := [];
      cars := [];
      explosions := [];
    }

    /** The bat back at the start, at rest. */
    method ResetBat()
      modifies this
      ensures Model() == old(Model()).(bat := Bat(BatStartX, BatStartY, 0.0))
    {
      bat := Bat(BatStartX, BatStartY, 0.0);
    }

    /** The viewport back at 0 and the world bounds one canvas either side of it. */
    method ResetViewport()
      modifies this
      ensures Model() == old(Model()).(viewportOffset := 0.0,
                                       worldLeft := -CanvasWidth, worldRight := 2.0 * CanvasWidth)
    {
      viewportOffset := 0.0;
      worldBounds := Bounds(-CanvasWidth, 2.0 * CanvasWidth);
    }

    /** The existing trees and stars are dropped. */
    method ClearScene()
      modifies this
      ensures Model() == old(Model()).(trees := [], stars := [])
    {
      trees := [];
      stars := [];
    }

    /** Speed factor back to 1, and the game unpaused. */
    method ResumeAtBaseSpeed()
      modifies this
      ensures Model() == old(Model()).(speedMultiplier := 1.0, isPaused := false)
    {
      speedMultiplier := 1.0;
      isPaused := false;
    }

    /**
     * loadExplosionGif once the bytes are in: a parse failure changes
     * nothing; otherwise the frames and their count are stored, then the
     * first delay and the total, which throws (and so stops) when there is
     * no first frame.
     */
    method LoadExplosionGif(buf: seq<bv8>)
      modifies this
      ensures Model() == Lifecycle.LoadExplosionGif(old(Model()), buf)
    {
      var result := GifTiming.AnalyzeGif(buf);
      match result
      case Err(_) =>
      case Ok(frames) =>
        StoreFrames(frames);
        if |frames| > 0 {
          StoreTiming(frames[0], GifTiming.TotalDuration(frames));
        }
    }

    method StoreFrames(frames: seq<nat>)
      modifies this
      ensures Model() == old(Model()).(explosionFrames := frames, explosionTotalFrames := |frames|)
    {
      explosionFrames := frames;
      explosionTotalFrames := |frames|;
    }

    method StoreTiming(frameDuration: int, duration: int)
      modifies this
      ensures Model() == old(Model()).(explosionFrameDuration := frameDuration, explosionDuration := duration)
    {
      explosionFrameDuration := frameDuration;
      explosionDuration := duration;
    }

    method OnWorkerMessage(m: ExplosionWorker.Msg)
      modifies this
      ensures Model() == Explosions.OnWorkerMessage(old(Model()), m)
      ensures old(Valid()) ==> Valid()
    {
      var found := Explosions.FindExplosion(explosions, m.id, 0);
      if found.Some? {
        var i := found.value;
        match m
        case Complete(_) => explosions := explosions[i := explosions[i].(isComplete := true)];
        case Update(_, p) => explosions := explosions[i := explosions[i].(progress := p)];
      }
    }

    // -------------------------------------------------------------- event handlers

    method OnKeyDown(key: string)
      modifies this
      ensures Model() == Input.KeyDown(old(Model()), key)
    {
      keys := keys[key := true];
      if PauseKey in keyMap && key == keyMap[PauseKey] {
        isPaused := !isPaused;
      }
    }

    method OnKeyUp(key: string)
      modifies this
      ensures Model() == Input.KeyUp(old(Model()), key)
    {
      keys := keys[key := false];
    }

    method OnKeyPress(key: string, starRand: Rand, treeRand: Rand)
      requires IsUnit(starRand) && IsUnit(treeRand)
      modifies this
      ensures Model() == Input.KeyPress(old(Model()), key, starRand, treeRand)
    {
      if ShootKey in keyMap && key == keyMap[ShootKey] {
        if gameOver {
          Restart(starRand, treeRand);
        } else {
          Shoot();
        }
      }
    }

    method OnVisibilityChange(hidden: bool)
      modifies this
      ensures Model() == Input.VisibilityChange(old(Model()), hidden)
    {
      if hidden {
        isPaused := true;
      }
    }

    method UpdateKeyMap(action: Action, key: string)
      modifies this
      ensures Model() == Input.UpdateKeyMap(old(Model()), action, key)
    {
      var newKeys := keys;
      if action in keyMap {
        var oldKey := keyMap[action];
        if oldKey in newKeys {
          newKeys := newKeys - {oldKey};
        }
      }
      keyMap := keyMap[action := key];
      keys := newKeys[key := false];
    }

    method OnTouchStart(x: real, y: real)
      modifies this
      ensures Model() == Input.TouchStart(old(Model()), x, y)
    {
      if Input.IsTouchOnBat(bat, x + viewportOffset, y) {
        gesture := Gesture(Some(x), Some(x), 0);
      }
    }

    method OnTouchMove(x: real)
      modifies this
      ensures Model() == Input.TouchMove(old(Model()), x)
    {
      if gesture.startX.Some? {
        var direction := Input.NextDirection(gesture.direction, x - gesture.lastX.GetOr(0.0));
        bat := bat.(velocity := direction as real * MaxSpeed);
        gesture := gesture.(direction := direction, lastX := Some(x));
      }
    }

    /** touchend: a tap shoots; then the same resets as touchcancel. */
    method OnTouchEnd()
      modifies this
      ensures Model() == Input.TouchEnd(old(Model()))
    {
      if gesture.startX.Some? {
        if Collision.Abs(gesture.lastX.GetOr(0.0) - gesture.startX.GetOr(0.0)) < 10.0 && gesture.direction == 0 {
          Shoot();
        }
        OnTouchCancel();
      }
    }

    method OnTouchCancel()
      modifies this
      ensures Model() == Input.TouchCancel(old(Model()))
    {
      gesture := Gesture(None, None, 0);
      bat := bat.(velocity := 0.0);
    }
  }
}
