/**
 * The per-frame motion of update (static/js/game.js, update): the bat's
 * velocity, facing and clamp, the poop pass and the car pass.
 *
 * Both passes are `forEach` loops that may `splice` the array they walk.
 * `forEach` fixes the number of indices `n` when it starts, visits index `k`
 * only while `k` is still inside the array, and moves on to `k + 1` after a
 * removal, so the element that slid into index `k` is skipped this frame.
 * The loops below keep exactly that behaviour.
 */
module Physics {
  import opened Wrappers
  import opened GameModel
  import opened Collision
  import opened Combat

  // ---------------------------------------------------------------- the bat

  /** The velocity the held keys ask for: left wins over right, neither means stop. */
  function TargetVelocity(s: State): (t: real)
    ensures -MaxSpeed <= t <= MaxSpeed
    ensures Held(s, LeftKey) ==> t == -MaxSpeed
    ensures !Held(s, LeftKey) && Held(s, RightKey) ==> t == MaxSpeed
    ensures !Held(s, LeftKey) && !Held(s, RightKey) ==> t == 0.0
  {
    if Held(s, LeftKey) then -MaxSpeed
    else if Held(s, RightKey) then MaxSpeed
    else 0.0
  }

  /** One step of the velocity toward the target, by `acceleration` in either direction. */
  function StepVelocity(v: real, target: real): (r: real)
    ensures v <= target ==> v <= r <= target
    ensures target <= v ==> target <= r <= v
    ensures r == target || r - v == Acceleration || v - r == Acceleration
    ensures -Acceleration <= r - v <= Acceleration
  {
    if v < target then (if v + Acceleration <= target then v + Acceleration else target)
    else if v > target then (if v - Acceleration >= target then v - Acceleration else target)
    else v
  }

  /** With the target within the speed limit, the step never leaves it. */
  lemma StepKeepsSpeedLimit(v: real, target: real)
    requires -MaxSpeed <= target <= MaxSpeed
    ensures -MaxSpeed <= v <= MaxSpeed ==> -MaxSpeed <= StepVelocity(v, target) <= MaxSpeed
  {
    var r := StepVelocity(v, target);
    if v <= target {
      assert v <= r <= target;
    } else {
      assert target <= r <= v;
    }
  }

  /** The sticky facing: it only changes when |velocity| > 0.1 (1 faces left, -1 right). */
  function Facing(v: real, last: int): (d: int)
    ensures v > 0.1 ==> d == -1
    ensures v < -0.1 ==> d == 1
    ensures -0.1 <= v <= 0.1 ==> d == last
  {
    if Abs(v) > 0.1 then (if v > 0.0 then -1 else 1) else last
  }

  /** `max(offset, min(x, offset + canvas.width - bat.width))`. */
  function ClampToViewport(x: real, offset: real): (r: real)
    ensures offset <= r <= offset + CanvasWidth - BatWidth
    ensures offset <= x <= offset + CanvasWidth - BatWidth ==> r == x
    ensures x < offset ==> r == offset
    ensures x > offset + CanvasWidth - BatWidth ==> r == offset + CanvasWidth - BatWidth
  {
    var right := offset + CanvasWidth - BatWidth;
    var inner := if x <= right then x else right;
    if offset >= inner then offset else inner
  }

  /** The bat part of update: step the velocity, update the facing, move and clamp. */
  function MoveBat(s: State): (r: State)
    ensures r == s.(bat := r.bat, lastBatDirection := r.lastBatDirection)
    ensures r.bat.y == s.bat.y
    ensures r.bat.velocity == StepVelocity(s.bat.velocity, TargetVelocity(s))
    ensures s.viewportOffset <= r.bat.x <= s.viewportOffset + CanvasWidth - BatWidth
    ensures -MaxSpeed <= s.bat.velocity <= MaxSpeed ==> -MaxSpeed <= r.bat.velocity <= MaxSpeed
    ensures (s.lastBatDirection == 1 || s.lastBatDirection == -1) ==>
              (r.lastBatDirection == 1 || r.lastBatDirection == -1)
    ensures r.bat.x == ClampToViewport(s.bat.x + r.bat.velocity, s.viewportOffset)
    ensures r.lastBatDirection == Facing(r.bat.velocity, s.lastBatDirection)
  {
    var v := StepVelocity(s.bat.velocity, TargetVelocity(s));
    StepKeepsSpeedLimit(s.bat.velocity, TargetVelocity(s));
    s.(bat := Bat(ClampToViewport(s.bat.x + v, s.viewportOffset), s.bat.y, v),
       lastBatDirection := Facing(v, s.lastBatDirection))
  }

  // ---------------------------------------------------------------- poops

  /** Whether no poop is still falling freely. */
  predicate NoneFlying(poops: seq<Poop>)
  {
    forall i :: 0 <= i < |poops| ==> !poops[i].Flying()
  }

  /** `(now - groundedTime) / poopFadeDuration`; a null time reads as 0. */
  function FadeProgress(p: Poop, now: int): real
  {
    (now - p.groundedTime.GetOr(0)) as real / PoopFadeDuration
  }

  /** A flying poop after one frame of gravity, before the ground test. */
  function Fall(p: Poop): Poop
  {
    var vy := p.velocityY + Gravity;
    p.(x := p.x + p.velocityX, y := p.y + vy, velocityY := vy)
  }

  function RemoveAt<T>(xs: seq<T>, k: nat): (r: seq<T>)
    requires k < |xs|
    ensures |r| == |xs| - 1
    ensures forall i :: 0 <= i < k ==> r[i] == xs[i]
    ensures forall i :: k <= i < |r| ==> r[i] == xs[i + 1]
  {
    xs[..k] + xs[k + 1..]
  }

  /**
   * The body of the poop `forEach` for index `k`: a flying poop falls and, once
   * below the ground line, lands at y = 550 at time `now`, ending the game if
   * the ammo is gone and nothing else flies; a grounded poop fades and is
   * spliced out once its fade is complete; an attached poop is left alone.
   */
  function VisitPoop(s: State, k: nat, now: int): (r: State)
    requires k < |s.poops|
    ensures r == s.(poops := r.poops, gameOver := r.gameOver)
    ensures s.poops[k].Flying() ==>
      |r.poops| == |s.poops| &&
      (Fall(s.poops[k]).y > GroundY ==>
         r.poops[k].grounded && r.poops[k].y == GroundY && r.poops[k].groundedTime == Some(now))
    ensures r.gameOver <==>
      s.gameOver ||
      (s.poops[k].Flying() && Fall(s.poops[k]).y > GroundY && s.poopAmmo == 0 && NoneFlying(r.poops))
    ensures |r.poops| < |s.poops| <==> s.poops[k].grounded && FadeProgress(s.poops[k], now) >= 1.0
    ensures |r.poops| < |s.poops| ==> r.poops == RemoveAt(s.poops, k)
    ensures |r.poops| == |s.poops| ==> forall i :: 0 <= i < |s.poops| && i != k ==> r.poops[i] == s.poops[i]
  {
    var p := s.poops[k];
    if p.Flying() then
      var q := Fall(p);
      if q.y > GroundY then
        var landed := s.poops[k := q.(y := GroundY, grounded := true, groundedTime := Some(now))];
        var over := s.poopAmmo == 0 && NoneFlying(landed);
        s.(poops := landed, gameOver := s.gameOver || over)
      else
        s.(poops := s.poops[k := q])
    else if p.grounded then
      var fade := FadeProgress(p, now);
      if fade >= 1.0 then s.(poops := RemoveAt(s.poops, k))
      else s.(poops := s.poops[k := p.(opacity := 1.0 - fade)])
    else s
  }

  /**
   * What the visit does to poop `k` itself: a flying poop falls under gravity
   * and, below the ground line, lands there at `now`; a grounded poop that has
   * not finished fading takes opacity `1 - progress`; an attached poop (never
   * grounded) is left alone, and so is everything else.
   */
  lemma VisitPoopEffect(s: State, k: nat, now: int)
    requires k < |s.poops|
    ensures var r := VisitPoop(s, k, now);
      (s.poops[k].Flying() && Fall(s.poops[k]).y <= GroundY ==> r.poops[k] == Fall(s.poops[k])) &&
      (s.poops[k].Flying() && Fall(s.poops[k]).y > GroundY ==>
         r.poops[k] == Fall(s.poops[k]).(y := GroundY, grounded := true, groundedTime := Some(now))) &&
      (s.poops[k].grounded && FadeProgress(s.poops[k], now) < 1.0 ==>
         r.poops[k] == s.poops[k].(opacity := 1.0 - FadeProgress(s.poops[k], now))) &&
      (s.poops[k].attached && !s.poops[k].grounded ==> r == s)
  {
  }

  /** A change to the poops and the game-over flag alone is within Bookkeeping. */
  lemma PoopsOnly(s: State, r: State)
    requires r == s.(poops := r.poops, gameOver := r.gameOver)
    ensures Bookkeeping(s, r)
  {
  }

  /** The poop `forEach` from index `k` on, over the `n` indices it fixed at the start. */
  function PoopsLoop(s: State, now: int, k: nat, n: nat): (r: State)
    ensures Bookkeeping(s, r)
    ensures r == s.(poops := r.poops, gameOver := r.gameOver)
    ensures s.gameOver ==> r.gameOver
    ensures |r.poops| <= |s.poops|
    decreases n - k
  {
    if k >= n then s
    else
      var next := if k < |s.poops| then VisitPoop(s, k, now) else s;
      PoopsOnly(s, next);
      BookkeepingTrans(s, next, PoopsLoop(next, now, k + 1, n));
      PoopsLoop(next, now, k + 1, n)
  }

  /** The game only ends on a frame that starts with no ammo. */
  lemma {:induction false} GameOverNeedsEmptyAmmo(s: State, now: int, k: nat, n: nat)
    requires !s.gameOver
    requires PoopsLoop(s, now, k, n).gameOver
    ensures s.poopAmmo == 0
    decreases n - k
  {
    if k < n {
      var next := if k < |s.poops| then VisitPoop(s, k, now) else s;
      if !next.gameOver {
        GameOverNeedsEmptyAmmo(next, now, k + 1, n);
      }
    }
  }

  /** A poop that has finished fading, for the example below. */
  function Faded(x: real): Poop
  {
    Poop(x, GroundY, 0.0, 0.0, false, true, Some(0), 0.0)
  }

  /**
   * Two faded poops side by side: the first is spliced out, the second slides
   * into its index and is skipped, so it survives the frame.
   */
  lemma SpliceSkipsNextPoop(s: State, now: int)
    requires s.poops == [Faded(1.0), Faded(2.0)] && now >= 2000
    ensures PoopsLoop(s, now, 0, 2).poops == [Faded(2.0)]
  {
    var first := VisitPoop(s, 0, now);
    assert FadeProgress(Faded(1.0), now) >= 1.0;
    assert first.poops == [Faded(2.0)];
    assert PoopsLoop(first, now, 1, 2) == PoopsLoop(first, now, 2, 2);
  }

  // ---------------------------------------------------------------- cars

  function PoopBox(p: Poop): Box { Box(p.x, p.y, PoopSize) }
  function CarBox(c: Car): Box { Box(c.x, c.y, CarWidth) }

  /** Whether poop `p` can hit `car`: still falling and in its lane, overlapping. */
  predicate Strikes(p: Poop, car: Car)
  {
    !p.attached && !p.grounded && Overlaps(PoopBox(p), CarBox(car))
  }

  /** Whether some poop from index `j` on strikes `car`. */
  predicate StruckFrom(poops: seq<Poop>, car: Car, j: nat)
  {
    exists i :: j <= i < |poops| && Strikes(poops[i], car)
  }

  /**
   * The inner poop loop for the car at `k`, from poop `j` on: every falling
   * poop that overlaps the car attaches to it, and the car is hit (once) when
   * there is at least one.
   */
  function PoopsOnCar(s: State, k: nat, j: nat, now: int): (r: State)
    requires k < |s.cars|
    ensures Bookkeeping(s, r)
    ensures |r.cars| == |s.cars| && |r.poops| == |s.poops|
    ensures r.gameOver == s.gameOver
    ensures r.cars[k].x == s.cars[k].x && r.cars[k].y == s.cars[k].y
    ensures s.cars[k].isHit ==> r.cars[k].isHit
    decreases |s.poops| - j
  {
    if j >= |s.poops| then s
    else
      var next := PoopStep(s, k, j, now);
      BookkeepingTrans(s, next, PoopsOnCar(next, k, j + 1, now));
      PoopsOnCar(next, k, j + 1, now)
  }

  /** One iteration of the inner poop loop: poop `j` against the car at `k`. */
  function PoopStep(s: State, k: nat, j: nat, now: int): (r: State)
    requires k < |s.cars| && j < |s.poops|
    ensures Bookkeeping(s, r)
    ensures |r.cars| == |s.cars| && |r.poops| == |s.poops| && CarBox(r.cars[k]) == CarBox(s.cars[k])
  {
    var p := s.poops[j];
    if Strikes(p, s.cars[k]) then HitCarAt(s, k, now).(poops := s.poops[j := p.(attached := true)])
    else s
  }

  /** Exactly the poops from `j` on that strike the car attach; the others are untouched. */
  lemma {:induction false} PoopsOnCarAttaches(s: State, k: nat, j: nat, now: int)
    requires k < |s.cars|
    ensures var r := PoopsOnCar(s, k, j, now);
      forall i :: 0 <= i < |s.poops| ==>
        r.poops[i] == if j <= i && Strikes(s.poops[i], s.cars[k]) then s.poops[i].(attached := true) else s.poops[i]
    decreases |s.poops| - j
  {
    if j < |s.poops| {
      PoopsOnCarAttaches(PoopStep(s, k, j, now), k, j + 1, now);
    }
  }

  /**
   * Apart from the poops, the loop is one hitCar on the car when some poop
   * from `j` on strikes it, and no change otherwise.
   */
  lemma {:induction false} PoopsOnCarHits(s: State, k: nat, j: nat, now: int)
    requires k < |s.cars|
    ensures var r := PoopsOnCar(s, k, j, now);
      r == (if StruckFrom(s.poops, s.cars[k], j) then HitCarAt(s, k, now) else s).(poops := r.poops)
    decreases |s.poops| - j
  {
    if j < |s.poops| {
      var next := PoopStep(s, k, j, now);
      PoopsOnCarHits(next, k, j + 1, now);
      if !Strikes(s.poops[j], s.cars[k]) {
        assert StruckFrom(s.poops, s.cars[k], j) == StruckFrom(s.poops, s.cars[k], j + 1);
      }
    }
  }

  /**
   * The inner poop loop on a car not yet hit, for all states: the car ends up
   * hit exactly when some falling poop overlaps it, and then the score gains
   * exactly 100, the ammo is refilled and one explosion starts; a poop ends up
   * attached exactly when it was attached or strikes the car; with no strike
   * nothing changes.
   */
  lemma PoopHitsCar(s: State, k: nat, now: int)
    requires k < |s.cars| && !s.cars[k].isHit
    ensures var r := PoopsOnCar(s, k, 0, now);
      (r.cars[k].isHit <==> StruckFrom(s.poops, s.cars[k], 0)) &&
      (StruckFrom(s.poops, s.cars[k], 0) ==>
         r.score == s.score + 100 && r.poopAmmo == MaxPoopAmmo && |r.explosions| == |s.explosions| + 1) &&
      (!StruckFrom(s.poops, s.cars[k], 0) ==> r == s) &&
      forall i :: 0 <= i < |s.poops| ==>
        (r.poops[i].attached <==> s.poops[i].attached || Strikes(s.poops[i], s.cars[k]))
  {
    var r := PoopsOnCar(s, k, 0, now);
    PoopsOnCarAttaches(s, k, 0, now);
    PoopsOnCarHits(s, k, 0, now);
    if !StruckFrom(s.poops, s.cars[k], 0) {
      assert r.poops == s.poops;
    }
  }

  /** Whether `car` is an unhit car that `box`, the box of a hit car, overlaps. */
  predicate Knocks(box: Box, car: Car)
  {
    !car.isHit && Overlaps(box, CarBox(car))
  }

  /** How many cars from index `j` on `box` knocks. */
  function KnockCount(cars: seq<Car>, box: Box, j: nat): nat
    decreases |cars| - j
  {
    if j >= |cars| then 0 else (if Knocks(box, cars[j]) then 1 else 0) + KnockCount(cars, box, j + 1)
  }

  /** The count from `j` on only reads the cars from `j` on. */
  lemma {:induction false} KnockCountFrame(a: seq<Car>, b: seq<Car>, box: Box, j: nat)
    requires |a| == |b|
    requires forall i :: j <= i < |a| ==> a[i] == b[i]
    ensures KnockCount(a, box, j) == KnockCount(b, box, j)
    decreases |a| - j
  {
    if j < |a| {
      KnockCountFrame(a, b, box, j + 1);
    }
  }

  /** The chain loop for a hit car at `k`, from car `j` on: every unhit car it overlaps is hit. */
  function ChainHits(s: State, k: nat, j: nat, now: int): (r: State)
    requires k < |s.cars|
    ensures Bookkeeping(s, r)
    ensures |r.cars| == |s.cars| && r.poops == s.poops && r.gameOver == s.gameOver
    ensures r.cars[k].x == s.cars[k].x
    decreases |s.cars| - j
  {
    if j >= |s.cars| then s
    else
      var next := ChainStep(s, k, j, now);
      BookkeepingTrans(s, next, ChainHits(next, k, j + 1, now));
      ChainHits(next, k, j + 1, now)
  }

  /** One iteration of the chain loop: car `j` against the car at `k`. */
  function ChainStep(s: State, k: nat, j: nat, now: int): (r: State)
    requires k < |s.cars| && j < |s.cars|
    ensures Bookkeeping(s, r)
    ensures |r.cars| == |s.cars| && CarBox(r.cars[k]) == CarBox(s.cars[k])
    ensures HitSpeed(r) == HitSpeed(s)
    ensures forall i :: 0 <= i < |s.cars| && i != j ==> r.cars[i] == s.cars[i]
  {
    if Knocks(CarBox(s.cars[k]), s.cars[j]) then HitCarAt(s, j, now) else s
  }

  /** Exactly the unhit cars from `j` on that the car at `k` overlaps are hit. */
  lemma {:induction false} ChainHitsCars(s: State, k: nat, j: nat, now: int)
    requires k < |s.cars|
    ensures var r := ChainHits(s, k, j, now);
      forall i :: 0 <= i < |s.cars| ==>
        r.cars[i] == if j <= i && Knocks(CarBox(s.cars[k]), s.cars[i]) then MarkedHit(s.cars[i], HitSpeed(s), now) else s.cars[i]
    decreases |s.cars| - j
  {
    if j < |s.cars| {
      ChainHitsCars(ChainStep(s, k, j, now), k, j + 1, now);
    }
  }

  /**
   * Each car the chain hits starts one explosion (and, by Bookkeeping, scores
   * 100); any hit refills the ammo, and with no hit nothing changes.
   */
  lemma {:induction false} ChainHitsCount(s: State, k: nat, j: nat, now: int)
    requires k < |s.cars|
    ensures var r := ChainHits(s, k, j, now);
      var n := KnockCount(s.cars, CarBox(s.cars[k]), j);
      |r.explosions| == |s.explosions| + n &&
      (n > 0 ==> r.poopAmmo == MaxPoopAmmo) &&
      (n == 0 ==> r == s)
    decreases |s.cars| - j
  {
    if j < |s.cars| {
      var next := ChainStep(s, k, j, now);
      ChainHitsCount(next, k, j + 1, now);
      KnockCountFrame(next.cars, s.cars, CarBox(s.cars[k]), j + 1);
    }
  }

  /** Whether a car is more than one canvas width beyond either edge of the viewport. */
  predicate FarOff(car: Car, offset: real)
  {
    car.x < offset - CanvasWidth || car.x > offset + 2.0 * CanvasWidth
  }

  /** A car one frame further along. */
  function Advanced(car: Car): Car
  {
    car.(x := car.x + car.speed)
  }

  /** The car moves by its speed. */
  function AdvanceCar(s: State, k: nat): (r: State)
    requires k < |s.cars|
    ensures r == s.(cars := r.cars) && |r.cars| == |s.cars|
    ensures r.cars[k] == s.cars[k].(x := s.cars[k].x + s.cars[k].speed)
    ensures forall i :: 0 <= i < |s.cars| && i != k ==> r.cars[i] == s.cars[i]
  {
    s.(cars := s.cars[k := Advanced(s.cars[k])])
  }

  /** The poop hits, taken only by a car not yet hit. */
  function StrikeIfUnhit(s: State, k: nat, now: int): (r: State)
    requires k < |s.cars|
    ensures Bookkeeping(s, r)
    ensures |r.cars| == |s.cars| && |r.poops| == |s.poops| && r.gameOver == s.gameOver
    ensures r.cars[k].x == s.cars[k].x && r.cars[k].y == s.cars[k].y
    ensures r.cars[k].isHit <==> s.cars[k].isHit || StruckFrom(s.poops, s.cars[k], 0)
    ensures forall i :: 0 <= i < |s.poops| ==>
      r.poops[i] == if !s.cars[k].isHit && Strikes(s.poops[i], s.cars[k]) then s.poops[i].(attached := true) else s.poops[i]
    ensures r == (if !s.cars[k].isHit && StruckFrom(s.poops, s.cars[k], 0) then HitCarAt(s, k, now) else s).(poops := r.poops)
  {
    if s.cars[k].isHit then s
    else
      PoopsOnCarAttaches(s, k, 0, now);
      PoopsOnCarHits(s, k, 0, now);
      PoopsOnCar(s, k, 0, now)
  }

  /** The chain hits, dealt only by a car that is hit. */
  function ChainIfHit(s: State, k: nat, now: int): (r: State)
    requires k < |s.cars|
    ensures Bookkeeping(s, r)
    ensures |r.cars| == |s.cars| && r.poops == s.poops && r.gameOver == s.gameOver
    ensures r.cars[k] == s.cars[k]
    ensures forall i :: 0 <= i < |s.cars| ==>
      r.cars[i] == if s.cars[k].isHit && Knocks(CarBox(s.cars[k]), s.cars[i]) then MarkedHit(s.cars[i], HitSpeed(s), now) else s.cars[i]
    ensures |r.explosions| == |s.explosions| + (if s.cars[k].isHit then KnockCount(s.cars, CarBox(s.cars[k]), 0) else 0)
  {
    if s.cars[k].isHit then
      ChainHitsCars(s, k, 0, now);
      ChainHitsCount(s, k, 0, now);
      ChainHits(s, k, 0, now)
    else s
  }

  /** The splice of a car far off screen. */
  function EvictIfFarOff(s: State, k: nat): (r: State)
    requires k < |s.cars|
    ensures r == s.(cars := r.cars)
    ensures FarOff(s.cars[k], s.viewportOffset) ==> r.cars == RemoveAt(s.cars, k)
    ensures !FarOff(s.cars[k], s.viewportOffset) ==> r.cars == s.cars
  {
    if FarOff(s.cars[k], s.viewportOffset) then s.(cars := RemoveAt(s.cars, k)) else s
  }

  /** Where car `i` sits after the visit of car `k`, which may have spliced `k` out. */
  function After(i: nat, k: nat, spliced: bool): nat
  {
    if spliced && i > k then i - 1 else i
  }

  /**
   * The body of the car `forEach` for index `k`: advance, take poop hits if
   * not yet hit, then (if hit) hit every overlapping unhit car, and finally
   * splice the car out if it is far off screen.
   */
  function VisitCar(s: State, k: nat, now: int): (r: State)
    requires k < |s.cars|
    ensures Bookkeeping(s, r)
    ensures r.gameOver == s.gameOver && |r.poops| == |s.poops|
    ensures |r.cars| == |s.cars| || |r.cars| == |s.cars| - 1
    ensures |r.cars| < |s.cars| <==> FarOff(Advanced(s.cars[k]), s.viewportOffset)
  {
    var moved := AdvanceCar(s, k);
    var struck := StrikeIfUnhit(moved, k, now);
    var chained := ChainIfHit(struck, k, now);
    BookkeepingTrans(moved, struck, chained);
    EvictIfFarOff(chained, k)
  }

  /** The state after the first two steps of the visit, advance and poop hits. */
  lemma AdvanceThenStrike(s: State, k: nat, now: int)
    requires k < |s.cars|
    ensures var struck := StrikeIfUnhit(AdvanceCar(s, k), k, now);
      var c := Advanced(s.cars[k]);
      |struck.cars| == |s.cars| && HitSpeed(struck) == HitSpeed(s) &&
      struck.cars[k].x == c.x && CarBox(struck.cars[k]) == CarBox(c) &&
      (struck.cars[k].isHit <==> s.cars[k].isHit || StruckFrom(s.poops, c, 0)) &&
      (forall i :: 0 <= i < |s.cars| && i != k ==> struck.cars[i] == s.cars[i]) &&
      forall i :: 0 <= i < |s.poops| ==>
        struck.poops[i] == if !s.cars[k].isHit && Strikes(s.poops[i], c) then s.poops[i].(attached := true) else s.poops[i]
  {
    var moved := AdvanceCar(s, k);
    assert moved.cars[k] == Advanced(s.cars[k]);
  }

  /**
   * The visit of car `k`, for all states: the car moves by its speed and, if
   * it was not hit, the falling poops overlapping it in its new place attach
   * to it and hit it.
   */
  lemma VisitCarStrikes(s: State, k: nat, now: int)
    requires k < |s.cars|
    ensures var r := VisitCar(s, k, now);
      var c := Advanced(s.cars[k]);
      (forall i :: 0 <= i < |s.poops| ==>
         r.poops[i] == if !s.cars[k].isHit && Strikes(s.poops[i], c) then s.poops[i].(attached := true) else s.poops[i]) &&
      (|r.cars| == |s.cars| ==>
         r.cars[k].x == c.x && (r.cars[k].isHit <==> s.cars[k].isHit || StruckFrom(s.poops, c, 0)))
  {
    AdvanceThenStrike(s, k, now);
  }

  /**
   * The visit of car `k`, for all states: once it is hit, every other unhit
   * car it overlaps in its new place is hit, and the other cars are otherwise
   * unchanged, shifted down by one after `k` when `k` is spliced out.
   */
  lemma VisitCarKnocks(s: State, k: nat, now: int)
    requires k < |s.cars|
    ensures var r := VisitCar(s, k, now);
      var c := Advanced(s.cars[k]);
      forall i :: 0 <= i < |s.cars| && i != k ==>
        r.cars[After(i, k, |r.cars| < |s.cars|)] ==
          if (s.cars[k].isHit || StruckFrom(s.poops, c, 0)) && Knocks(CarBox(c), s.cars[i])
          then MarkedHit(s.cars[i], HitSpeed(s), now) else s.cars[i]
  {
    var chained := ChainIfHit(StrikeIfUnhit(AdvanceCar(s, k), k, now), k, now);
    AdvanceStrikeChain(s, k, now);
    var r := VisitCar(s, k, now);
    assert r == EvictIfFarOff(chained, k);
    if FarOff(chained.cars[k], s.viewportOffset) {
      assert r.cars == RemoveAt(chained.cars, k);
      forall i | 0 <= i < |s.cars| && i != k
        ensures r.cars[After(i, k, true)] == chained.cars[i]
      {
      }
    } else {
      assert r.cars == chained.cars;
    }
  }

  /** The state after the first three steps of the visit, before the splice. */
  lemma AdvanceStrikeChain(s: State, k: nat, now: int)
    requires k < |s.cars|
    ensures var chained := ChainIfHit(StrikeIfUnhit(AdvanceCar(s, k), k, now), k, now);
      var c := Advanced(s.cars[k]);
      |chained.cars| == |s.cars| && chained.cars[k].x == c.x &&
      forall i :: 0 <= i < |s.cars| && i != k ==>
        chained.cars[i] ==
          if (s.cars[k].isHit || StruckFrom(s.poops, c, 0)) && Knocks(CarBox(c), s.cars[i])
          then MarkedHit(s.cars[i], HitSpeed(s), now) else s.cars[i]
  {
    AdvanceThenStrike(s, k, now);
  }

  /** The car `forEach` from index `k` on, over the `n` indices it fixed at the start. */
  function CarsLoop(s: State, now: int, k: nat, n: nat): (r: State)
    ensures Bookkeeping(s, r)
    ensures r.gameOver == s.gameOver && |r.poops| == |s.poops|
    ensures |r.cars| <= |s.cars|
    decreases n - k
  {
    if k >= n then s
    else
      var next := if k < |s.cars| then VisitCar(s, k, now) else s;
      BookkeepingTrans(s, next, CarsLoop(next, now, k + 1, n));
      CarsLoop(next, now, k + 1, n)
  }
}
