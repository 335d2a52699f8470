/**
 * The state of one `Game` object (static/js/game.js, the constructor and the
 * fields every other method reads and writes), as a value.
 *
 * The engine class keeps these same fields as mutable fields; the simulation
 * functions map one such value to the next.  The touch-gesture variables,
 * which the source keeps in closures of setupEventListeners, and the static
 * `Explosion.nextId` counter are kept here too, beside the fields they work
 * with.
 */
module GameModel {
  import opened Wrappers
  import opened Scenery

  // ------------------------------------------------------------ constants

  const CanvasWidth: real := 800.0
  const CanvasHeight: real := 600.0
  const BatWidth: real := 25.0
  const BatHeight: real := 25.0
  const BatStartX: real := 400.0
  const BatStartY: real := 100.0
  const MaxSpeed: real := 5.0
  /** Used for speeding up and for slowing down alike; `deceleration` is never read. */
  const Acceleration: real := 0.4
  /** Poops are 20 x 20 pixels. */
  const PoopSize: real := 20.0
  const PoopFadeDuration: real := 2000.0
  const Gravity: real := 0.2
  const MaxPoopAmmo: int := 5
  /** A flying poop that goes below `canvas.height - 50` lands here. */
  const GroundY: real := 550.0
  const BaseCarSpeed: real := 3.0
  const HitSpeedMultiplier: real := 2.5
  /** Cars are 60 x 50 pixels. */
  const CarWidth: real := 60.0
  const CarHeight: real := 50.0
  /** The number of entries in getRandomCarColor's palette. */
  const CarColorCount: nat := 8
  /** Frames between two spawn attempts, and the chance of each attempt. */
  const SpawnInterval: int := 60
  const SpawnChance: real := 0.3
  /** Every `Explosion` asks the worker for a 1000 ms animation. */
  const ExplosionLifetime: int := 1000
  /** 25% of the canvas width: the dead zone at each edge of the viewport. */
  const ViewportThreshold: real := 200.0
  /** Extra pixels around the bat that still count as touching it. */
  const TouchPadding: real := 20.0
  const DefaultFrameDuration: int := 50
  const DefaultTotalFrames: int := 1
  const DefaultExplosionDuration: int := 1000

  // ------------------------------------------------------------ entities

  datatype Bat = Bat(x: real, y: real, velocity: real)

  /** A dropped poop; a null `groundedTime` is `None`. */
  datatype Poop = Poop(
    x: real, y: real,
    velocityX: real, velocityY: real,
    attached: bool, grounded: bool,
    groundedTime: Option<int>,
    opacity: real)
  {
    predicate Flying() { !grounded && !attached }
  }

  /** A car; `color` indexes the eight-colour palette. */
  datatype Car = Car(x: real, y: real, speed: real, isHit: bool, hitTime: Option<int>, color: nat)

  /** The main thread's record of one explosion, updated from the worker's messages. */
  datatype Explosion = Explosion(x: real, y: real, size: real, id: nat, isComplete: bool, progress: real)

  /** A `{id, duration}` message posted to the explosion worker. */
  datatype StartRequest = StartRequest(id: nat, duration: int)

  /** The four remappable actions of `keyMap`. */
  datatype Action = ShootKey | PauseKey | LeftKey | RightKey

  /** The fields of a `Game`, plus the touch-gesture variables and the explosion id counter. */
  datatype State = State(
    viewportOffset: real,
    worldLeft: real,
    worldRight: real,
    trees: seq<Tree>,
    stars: seq<Star>,
    poops: seq<Poop>,
    cars: seq<Car>,
    score: int,
    carSpawnTimer: int,
    bat: Bat,
    keyMap: map<Action, string>,
    keys: map<string, bool>,
    poopAmmo: int,
    gameOver: bool,
    speedMultiplier: real,
    isPaused: bool,
    lastViewportPosition: real,
    lastBatDirection: int,
    explosions: seq<Explosion>,
    nextExplosionId: nat,
    workerAlive: bool,
    outbox: seq<StartRequest>,
    touchStartX: Option<real>,
    lastTouchX: Option<real>,
    lastMovementDirection: int,
    explosionFrames: seq<nat>,
    explosionTotalFrames: int,
    explosionFrameDuration: int,
    explosionDuration: int)

  /** The key bindings the constructor installs. */
  function DefaultKeyMap(): map<Action, string>
  {
    map[ShootKey := " ", PauseKey := "p", LeftKey := "ArrowLeft", RightKey := "ArrowRight"]
  }

  /** Whether the key bound to `a` is currently held (an unset key reads as false). */
  predicate Held(s: State, a: Action)
  {
    a in s.keyMap && s.keyMap[a] in s.keys && s.keys[s.keyMap[a]]
  }

  predicate BindsAll(keyMap: map<Action, string>)
  {
    ShootKey in keyMap && PauseKey in keyMap && LeftKey in keyMap && RightKey in keyMap
  }

  /** Explosion ids strictly increase along the list and are all below the counter. */
  predicate IdsOrdered(explosions: seq<Explosion>, nextId: nat)
  {
    (forall i, j :: 0 <= i < j < |explosions| ==> explosions[i].id < explosions[j].id) &&
    (forall i :: 0 <= i < |explosions| ==> explosions[i].id < nextId)
  }

  /** A gesture is either idle (no start, no last x, no direction) or under way. */
  predicate TouchValid(s: State)
  {
    (s.touchStartX.None? <==> s.lastTouchX.None?) &&
    -1 <= s.lastMovementDirection <= 1 &&
    (s.touchStartX.None? ==> s.lastMovementDirection == 0)
  }

  /** What every reachable state satisfies; each operation is shown to preserve it. */
  predicate Valid(s: State)
  {
    0 <= s.poopAmmo <= MaxPoopAmmo &&
    -MaxSpeed <= s.bat.velocity <= MaxSpeed &&
    ViewportThreshold <= s.bat.x - s.viewportOffset <= CanvasWidth - ViewportThreshold &&
    s.worldLeft <= s.viewportOffset - CanvasWidth &&
    s.worldRight >= s.viewportOffset + 2.0 * CanvasWidth &&
    0 <= s.carSpawnTimer <= SpawnInterval &&
    (s.lastBatDirection == 1 || s.lastBatDirection == -1) &&
    BindsAll(s.keyMap) &&
    IdsOrdered(s.explosions, s.nextExplosionId) &&
    TouchValid(s)
  }
}
