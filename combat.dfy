/**
 * Shooting, hitting cars and spawning them (static/js/game.js, shoot,
 * hitCar, spawnCar and the spawn counter at the end of update).
 */
module Combat {
  import opened Wrappers
  import opened GameModel

  /**
   * What the combat operations may change: cars, poops, explosions and their
   * worker bookkeeping, score, ammo and the game-over flag.  Everything else
   * stays, ammo stays in range, explosion ids stay ordered, and the score
   * only grows, by 100 for each explosion added.
   */
  predicate Bookkeeping(s: State, r: State)
  {
    r == s.(cars := r.cars, poops := r.poops, explosions := r.explosions,
            nextExplosionId := r.nextExplosionId, workerAlive := r.workerAlive,
            outbox := r.outbox, score := r.score, poopAmmo := r.poopAmmo,
            gameOver := r.gameOver) &&
    (0 <= s.poopAmmo <= MaxPoopAmmo ==> 0 <= r.poopAmmo <= MaxPoopAmmo) &&
    (IdsOrdered(s.explosions, s.nextExplosionId) ==> IdsOrdered(r.explosions, r.nextExplosionId)) &&
    r.score >= s.score && r.score - s.score == 100 * (|r.explosions| - |s.explosions|)
  }

  lemma BookkeepingTrans(s: State, t: State, u: State)
    requires Bookkeeping(s, t) && Bookkeeping(t, u)
    ensures Bookkeeping(s, u)
  {
  }

  // ---------------------------------------------------------------- shoot

  /** The poop `shoot` pushes: below the bat's centre, carrying its velocity. */
  function NewPoop(bat: Bat): Poop
  {
    Poop(bat.x + BatWidth / 2.0, bat.y + BatHeight * 1.2, bat.velocity, 2.0,
         false, false, None, 1.0)
  }

  /** shoot: nothing after game over or without ammo; else one ammo becomes one falling poop. */
  function Shoot(s: State): (r: State)
    ensures s.gameOver || s.poopAmmo <= 0 ==> r == s
    ensures !s.gameOver && s.poopAmmo > 0 ==>
      r.poopAmmo == s.poopAmmo - 1 &&
      |r.poops| == |s.poops| + 1 && r.poops[..|s.poops|] == s.poops &&
      r.poops[|s.poops|].Flying() &&
      r.poops[|s.poops|].velocityX == s.bat.velocity &&
      r.poops[|s.poops|].velocityY == 2.0 &&
      r.poops[|s.poops|].opacity == 1.0 &&
      r.poops[|s.poops|].groundedTime == None &&
      r == s.(poopAmmo := r.poopAmmo, poops := r.poops)
    ensures Bookkeeping(s, r)
  {
    if s.gameOver || s.poopAmmo <= 0 then s
    else s.(poopAmmo := s.poopAmmo - 1, poops := s.poops + [NewPoop(s.bat)])
  }

  // ---------------------------------------------------------------- hitCar

  /** The speed of a hit car: 2.5 times the current base speed. */
  function HitSpeed(s: State): real
  {
    BaseCarSpeed * s.speedMultiplier * HitSpeedMultiplier
  }

  /** The explosion `hitCar` creates for `car`: at its centre, 2.25 times its width. */
  function ExplosionFor(car: Car, id: nat): Explosion
  {
    Explosion(car.x + CarWidth / 2.0, car.y + CarHeight / 2.0, CarWidth * 2.25, id, false, 0.0)
  }

  /** The car as hitCar leaves it: hit at `now` and sent off at `hitSpeed` in its direction of travel. */
  function MarkedHit(car: Car, hitSpeed: real, now: int): Car
  {
    car.(isHit := true, hitTime := Some(now), speed := if car.speed > 0.0 then hitSpeed else -hitSpeed)
  }

  /**
   * hitCar on the car at index `c`: a no-op on a car already hit; otherwise
   * the car is marked hit at `now` and sped up, one explosion with a fresh id
   * is recorded and started in the worker, the score gains 100 and the ammo
   * is refilled.
   */
  function HitCarAt(s: State, c: nat, now: int): (r: State)
    requires c < |s.cars|
    ensures |r.cars| == |s.cars|
    ensures s.cars[c].isHit ==> r == s
    ensures !s.cars[c].isHit ==>
      r.cars[c].isHit && r.cars[c].hitTime == Some(now) &&
      r.cars[c] == s.cars[c].(isHit := true, hitTime := Some(now), speed := r.cars[c].speed) &&
      r.cars[c] == MarkedHit(s.cars[c], HitSpeed(s), now) &&
      (s.cars[c].speed > 0.0 ==> r.cars[c].speed == HitSpeed(s)) &&
      (s.cars[c].speed <= 0.0 ==> r.cars[c].speed == -HitSpeed(s)) &&
      r.score == s.score + 100 && r.poopAmmo == MaxPoopAmmo &&
      r.explosions == s.explosions + [ExplosionFor(s.cars[c], s.nextExplosionId)] &&
      r.nextExplosionId == s.nextExplosionId + 1 &&
      r.outbox == s.outbox + [StartRequest(s.nextExplosionId, ExplosionLifetime)] &&
      r.workerAlive && r.poops == s.poops && r.gameOver == s.gameOver
    ensures forall j :: 0 <= j < |s.cars| && j != c ==> r.cars[j] == s.cars[j]
    ensures Bookkeeping(s, r)
  {
    var car := s.cars[c];
    if car.isHit then s
    else
      var hitSpeed := HitSpeed(s);
      var id := s.nextExplosionId;
      s.(cars := s.cars[c := MarkedHit(car, hitSpeed, now)],
         explosions := s.explosions + [ExplosionFor(car, id)],
         nextExplosionId := id + 1,
         workerAlive := true,
         outbox := s.outbox + [StartRequest(id, ExplosionLifetime)],
         score := s.score + 100,
         poopAmmo := MaxPoopAmmo)
  }

  /** Hitting the same car twice is the same as hitting it once. */
  lemma HitCarIdempotent(s: State, c: nat, now: int, later: int)
    requires c < |s.cars|
    ensures HitCarAt(HitCarAt(s, c, now), c, later) == HitCarAt(s, c, now)
  {
  }

  /** No car is ever un-hit. */
  lemma HitCarKeepsHits(s: State, c: nat, now: int, j: nat)
    requires c < |s.cars| && j < |s.cars| && s.cars[j].isHit
    ensures HitCarAt(s, c, now).cars[j].isHit
  {
  }

  // ---------------------------------------------------------------- spawnCar

  /** `1 + (score / 500) * 0.5`: the speed factor at a given score. */
  function SpeedMultiplierFor(score: int): (m: real)
    ensures score >= 0 ==> m >= 1.0
  {
    1.0 + (score as real / 500.0) * 0.5
  }

  /**
   * spawnCar with the three draws it makes: `side` picks the direction
   * (below 0.5: leftwards, from beyond the right edge), `colorDraw` the
   * palette entry.  The speed factor is recomputed from the score first.
   */
  function SpawnCar(s: State, side: real, colorDraw: real): (r: State)
    requires 0.0 <= side < 1.0 && 0.0 <= colorDraw < 1.0
    ensures |r.cars| == |s.cars| + 1 && r.cars[..|s.cars|] == s.cars
    ensures r == s.(cars := r.cars, speedMultiplier := SpeedMultiplierFor(s.score))
    ensures var car := r.cars[|s.cars|];
      !car.isHit && car.hitTime == None && car.color < CarColorCount &&
      (car.x < s.viewportOffset || car.x > s.viewportOffset + CanvasWidth) &&
      (s.score >= 0 ==> (car.speed > 0.0 <==> side >= 0.5)) &&
      (car.y == 505.0 <==> side < 0.5) && (car.y == 535.0 <==> side >= 0.5)
    ensures var car := r.cars[|s.cars|];
      car.speed == BaseCarSpeed * SpeedMultiplierFor(s.score) * (if side < 0.5 then -1.0 else 1.0) &&
      car.x == (if side < 0.5 then s.viewportOffset + CanvasWidth + 100.0 else s.viewportOffset - 100.0)
  {
    var direction: real := if side < 0.5 then -1.0 else 1.0;
    var x := if side < 0.5 then s.viewportOffset + CanvasWidth + 100.0 else s.viewportOffset - 100.0;
    var laneOffset := if side < 0.5 then -15.0 else 15.0;
    var multiplier := SpeedMultiplierFor(s.score);
    ScaledColor(colorDraw);
    s.(speedMultiplier := multiplier,
       cars := s.cars + [Car(x, CanvasHeight - 80.0 + laneOffset, BaseCarSpeed * multiplier * direction,
                             false, None, (colorDraw * CarColorCount as real).Floor)])
  }

  lemma ScaledColor(r: real)
    requires 0.0 <= r < 1.0
    ensures 0 <= (r * CarColorCount as real).Floor < CarColorCount
  {
    assert 0.0 <= r * CarColorCount as real < CarColorCount as real;
  }

  /**
   * The spawn counter of update: it counts frames and, past 60, resets and
   * spawns a car with probability 0.3 (`chance` is the first draw).
   */
  function SpawnTick(s: State, chance: real, side: real, colorDraw: real): (r: State)
    requires 0.0 <= chance < 1.0 && 0.0 <= side < 1.0 && 0.0 <= colorDraw < 1.0
    ensures 0 <= s.carSpawnTimer <= SpawnInterval ==> 0 <= r.carSpawnTimer <= SpawnInterval
    ensures s.carSpawnTimer < SpawnInterval ==> r == s.(carSpawnTimer := s.carSpawnTimer + 1)
    ensures |r.cars| > |s.cars| ==> s.carSpawnTimer >= SpawnInterval && chance < SpawnChance
    ensures |r.cars| == |s.cars| || |r.cars| == |s.cars| + 1
    ensures r.cars[..|s.cars|] == s.cars
    ensures r == s.(cars := r.cars, carSpawnTimer := r.carSpawnTimer, speedMultiplier := r.speedMultiplier)
    ensures s.carSpawnTimer >= SpawnInterval ==> r.carSpawnTimer == 0
    ensures |r.cars| == |s.cars| + 1 <==> s.carSpawnTimer >= SpawnInterval && chance < SpawnChance
    ensures |r.cars| > |s.cars| ==> r == SpawnCar(s.(carSpawnTimer := 0), side, colorDraw)
    ensures s.carSpawnTimer >= SpawnInterval && chance >= SpawnChance ==> r == s.(carSpawnTimer := 0)
  {
    var ticked := s.(carSpawnTimer := s.carSpawnTimer + 1);
    if ticked.carSpawnTimer > SpawnInterval then
      var reset := ticked.(carSpawnTimer := 0);
      if chance < SpawnChance then SpawnCar(reset, side, colorDraw) else reset
    else ticked
  }
}
