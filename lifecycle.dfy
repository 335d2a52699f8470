/**
 * One frame, a restart, the initial state and the explosion-timing load
 * (static/js/game.js, the constructor, update, gameLoop, restartGame and
 * loadExplosionGif), with the invariant each of them keeps.
 */
module Lifecycle {
  import opened Wrappers
  import opened Scenery
  import opened GameModel
  import opened Combat
  import opened Physics
  import opened Streaming
  import opened Explosions
  import GifTiming

  /**
   * Every random draw of one update: scenery for the content check inside
   * updateViewport and for the one at the end of update, then the spawn
   * attempt, its direction and its colour.
   */
  datatype FrameDraws = FrameDraws(
    viewport: SceneryDraws, late: SceneryDraws,
    spawnChance: real, spawnSide: real, carColor: real)

  ghost predicate UnitFrame(d: FrameDraws)
  {
    UnitDraws(d.viewport) && UnitDraws(d.late) &&
    0.0 <= d.spawnChance < 1.0 && 0.0 <= d.spawnSide < 1.0 && 0.0 <= d.carColor < 1.0
  }

  // ---------------------------------------------------------------- update

  /**
   * update: nothing once the game is over; otherwise move the bat, follow it
   * with the viewport, run the poop pass and the car pass, tick the spawn
   * counter and check the content again.  `now` stands for every reading of
   * the clock during the frame.
   */
  function Update(s: State, now: int, d: FrameDraws): (r: State)
    requires UnitFrame(d)
    ensures s.gameOver ==> r == s
    ensures !s.gameOver ==>
      ViewportThreshold <= r.bat.x - r.viewportOffset <= CanvasWidth - ViewportThreshold &&
      r.keyMap == s.keyMap && r.keys == s.keys && r.isPaused == s.isPaused &&
      r.touchStartX == s.touchStartX && r.lastTouchX == s.lastTouchX &&
      r.lastMovementDirection == s.lastMovementDirection &&
      r.explosionFrames == s.explosionFrames
  {
    if s.gameOver then s
    else
      var moved := MoveBat(s);
      var viewed := UpdateViewport(moved, d.viewport);
      var fallen := PoopsLoop(viewed, now, 0, |viewed.poops|);
      var driven := CarsLoop(fallen, now, 0, |fallen.cars|);
      var spawned := SpawnTick(driven, d.spawnChance, d.spawnSide, d.carColor);
      CheckContentGeneration(spawned, d.late)
  }

  /** A frame never breaks the invariant. */
  lemma UpdatePreservesValid(s: State, now: int, d: FrameDraws)
    requires UnitFrame(d) && Valid(s)
    ensures Valid(Update(s, now, d))
  {
    if !s.gameOver {
      var moved := MoveBat(s);
      var viewed := UpdateViewport(moved, d.viewport);
      var fallen := PoopsLoop(viewed, now, 0, |viewed.poops|);
      var driven := CarsLoop(fallen, now, 0, |fallen.cars|);
      BookkeepingTrans(viewed, fallen, driven);
      var spawned := SpawnTick(driven, d.spawnChance, d.spawnSide, d.carColor);
      var r := CheckContentGeneration(spawned, d.late);
      assert spawned.viewportOffset == viewed.viewportOffset && spawned.bat == viewed.bat;
      assert r.bat == viewed.bat && r.viewportOffset == viewed.viewportOffset;
      assert Valid(r);
    }
  }

  /** update only ends the game when the frame started with no ammo. */
  lemma UpdateEndsGameOnlyWithoutAmmo(s: State, now: int, d: FrameDraws)
    requires UnitFrame(d) && !s.gameOver
    requires Update(s, now, d).gameOver
    ensures s.poopAmmo == 0
  {
    var moved := MoveBat(s);
    var viewed := UpdateViewport(moved, d.viewport);
    var fallen := PoopsLoop(viewed, now, 0, |viewed.poops|);
    GameOverNeedsEmptyAmmo(viewed, now, 0, |viewed.poops|);
  }

  /**
   * gameLoop: update unless paused, then draw, of which only the prune of
   * completed explosions changes the state.  While paused nothing moves.
   */
  function Frame(s: State, now: int, d: FrameDraws): (r: State)
    requires UnitFrame(d)
    ensures s.isPaused ==> r == s.(explosions := r.explosions)
    ensures forall e :: e in r.explosions ==> !e.isComplete
  {
    PruneExplosions(if s.isPaused then s else Update(s, now, d))
  }

  lemma FramePreservesValid(s: State, now: int, d: FrameDraws)
    requires UnitFrame(d) && Valid(s)
    ensures Valid(Frame(s, now, d))
  {
    var updated := if s.isPaused then s else Update(s, now, d);
    if !s.isPaused {
      UpdatePreservesValid(s, now, d);
    }
    PrunePreservesValid(updated);
  }

  /** Dropping completed explosions keeps the invariant. */
  lemma PrunePreservesValid(s: State)
    requires Valid(s)
    ensures Valid(PruneExplosions(s))
  {
  }

  // ---------------------------------------------------------------- restart and start

  /**
   * restartGame: the worker is torn down; score, ammo, game over, poops, cars,
   * explosions, bat, viewport, world bounds, scenery, speed factor and pause
   * are reset.  The explosion id counter, the spawn counter, the last
   * generation position, the facing, the keys, the gesture and the loaded
   * explosion timings are kept.
   */
  function Restart(s: State, starRand: Rand, treeRand: Rand): (r: State)
    requires IsUnit(starRand) && IsUnit(treeRand)
    ensures r.score == 0 && r.poopAmmo == MaxPoopAmmo && !r.gameOver && !r.isPaused
    ensures r.poops == [] && r.cars == [] && r.explosions == [] && !r.workerAlive
    ensures r.viewportOffset == 0.0 && r.bat == Bat(BatStartX, BatStartY, 0.0)
    ensures r.worldLeft == -1600.0 && r.worldRight == 1600.0
    ensures |r.stars| == 1075 && 10 <= |r.trees| <= 16
    ensures r.speedMultiplier == 1.0
    ensures r.nextExplosionId == s.nextExplosionId && r.carSpawnTimer == s.carSpawnTimer
    ensures r.lastViewportPosition == s.lastViewportPosition && r.lastBatDirection == s.lastBatDirection
    ensures r.keyMap == s.keyMap && r.keys == s.keys && r.outbox == s.outbox
    ensures r.touchStartX == s.touchStartX && r.lastTouchX == s.lastTouchX
    ensures r.lastMovementDirection == s.lastMovementDirection
    ensures r.explosionFrames == s.explosionFrames && r.explosionTotalFrames == s.explosionTotalFrames
    ensures r.explosionFrameDuration == s.explosionFrameDuration && r.explosionDuration == s.explosionDuration
  {
    var cleared := s.(workerAlive := false, score := 0, poopAmmo := MaxPoopAmmo, gameOver := false,
                      poops := [], cars := [], explosions := [],
                      bat := Bat(BatStartX, BatStartY, 0.0),
                      viewportOffset := 0.0, worldLeft := -CanvasWidth, worldRight := 2.0 * CanvasWidth,
                      trees := [], stars := []);
    GenerateInitialContent(cleared, starRand, treeRand).(speedMultiplier := 1.0, isPaused := false)
  }

  /** A restart yields a valid state from any state whose kept parts are valid. */
  lemma RestartValid(s: State, starRand: Rand, treeRand: Rand)
    requires IsUnit(starRand) && IsUnit(treeRand)
    requires 0 <= s.carSpawnTimer <= SpawnInterval
    requires (s.lastBatDirection == 1 || s.lastBatDirection == -1)
    requires BindsAll(s.keyMap) && TouchValid(s)
    ensures Valid(Restart(s, starRand, treeRand))
  {
    var r := Restart(s, starRand, treeRand);
    assert TouchValid(r);
  }

  /** The state the constructor builds (the explosion counter starts at 0 with the page). */
  function Initial(starRand: Rand, treeRand: Rand): (r: State)
    requires IsUnit(starRand) && IsUnit(treeRand)
    ensures Valid(r)
    ensures r.score == 0 && r.poopAmmo == MaxPoopAmmo && !r.gameOver && !r.isPaused
    ensures r.poops == [] && r.cars == [] && r.explosions == []
    ensures r.explosionFrames == [] && r.explosionTotalFrames == DefaultTotalFrames
    ensures r.explosionFrameDuration == DefaultFrameDuration && r.explosionDuration == DefaultExplosionDuration
  {
    var blank := State(
      0.0, -CanvasWidth, 2.0 * CanvasWidth, [], [], [], [], 0, 0,
      Bat(BatStartX, BatStartY, 0.0), DefaultKeyMap(), map[], MaxPoopAmmo, false, 1.0, false,
      0.0, 1, [], 0, false, [], None, None, 0,
      [], DefaultTotalFrames, DefaultFrameDuration, DefaultExplosionDuration);
    GenerateInitialContent(blank, starRand, treeRand)
  }

  // ---------------------------------------------------------------- GIF timing

  /**
   * loadExplosionGif once the file's bytes are in: a parse failure is caught
   * and changes nothing; otherwise frames and frame count are stored, and,
   * when there is a first frame, its delay and the total of all delays.  With
   * no frames, reading the first frame's delay throws after the first two
   * assignments, so the defaults stay.
   */
  function LoadExplosionGif(s: State, buf: seq<bv8>): (r: State)
    ensures r == s.(explosionFrames := r.explosionFrames, explosionTotalFrames := r.explosionTotalFrames,
                    explosionFrameDuration := r.explosionFrameDuration, explosionDuration := r.explosionDuration)
    ensures GifTiming.FrameDelays(buf).Err? ==> r == s
    ensures GifTiming.FrameDelays(buf).Ok? ==>
      r.explosionFrames == GifTiming.FrameDelays(buf).value &&
      r.explosionTotalFrames == |r.explosionFrames|
    ensures GifTiming.FrameDelays(buf) == Ok([]) ==>
      r.explosionFrameDuration == s.explosionFrameDuration && r.explosionDuration == s.explosionDuration
    ensures GifTiming.FrameDelays(buf).Ok? && GifTiming.FrameDelays(buf).value != [] ==>
      r.explosionFrameDuration == r.explosionFrames[0] && r.explosionFrameDuration > 0 &&
      r.explosionDuration == GifTiming.TotalDuration(r.explosionFrames) &&
      r.explosionDuration >= 10 * r.explosionTotalFrames
  {
    GifTiming.FrameDelaysValid(buf);
    match GifTiming.FrameDelays(buf)
    case Err(_) => s
    case Ok(frames) =>
      var stored := s.(explosionFrames := frames, explosionTotalFrames := |frames|);
      if frames == [] then stored
      else
        GifTiming.TotalDurationAtLeast(frames);
        stored.(explosionFrameDuration := frames[0], explosionDuration := GifTiming.TotalDuration(frames))
  }
}
