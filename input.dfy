/**
 * The bodies of the keyboard, touch and visibility handlers, and the key
 * remapping (static/js/game.js, setupEventListeners, isTouchOnBat and
 * updateKeyMap).  Coordinates arrive already converted to canvas units.
 */
module Input {
  import opened Wrappers
  import opened Scenery
  import opened GameModel
  import opened Combat
  import opened Lifecycle
  import Collision

  // ---------------------------------------------------------------- keyboard

  /** keydown: the key is held; the pause key also toggles the pause. */
  function KeyDown(s: State, key: string): (r: State)
    ensures r.keys == s.keys[key := true]
    ensures PauseKey in s.keyMap && key == s.keyMap[PauseKey] ==> r.isPaused == !s.isPaused
    ensures !(PauseKey in s.keyMap && key == s.keyMap[PauseKey]) ==> r.isPaused == s.isPaused
    ensures r == s.(keys := r.keys, isPaused := r.isPaused)
  {
    var held := s.(keys := s.keys[key := true]);
    if PauseKey in s.keyMap && key == s.keyMap[PauseKey] then held.(isPaused := !s.isPaused) else held
  }

  /** keyup: the key is released. */
  function KeyUp(s: State, key: string): (r: State)
    ensures r == s.(keys := s.keys[key := false])
  {
    s.(keys := s.keys[key := false])
  }

  /** keypress: the shoot key restarts a finished game and shoots otherwise; other keys do nothing. */
  function KeyPress(s: State, key: string, starRand: Rand, treeRand: Rand): (r: State)
    requires IsUnit(starRand) && IsUnit(treeRand)
    ensures !(ShootKey in s.keyMap && key == s.keyMap[ShootKey]) ==> r == s
    ensures ShootKey in s.keyMap && key == s.keyMap[ShootKey] && s.gameOver ==>
      r == Restart(s, starRand, treeRand)
    ensures ShootKey in s.keyMap && key == s.keyMap[ShootKey] && !s.gameOver ==> r == Shoot(s)
  {
    if ShootKey in s.keyMap && key == s.keyMap[ShootKey] then
      if s.gameOver then Restart(s, starRand, treeRand) else Shoot(s)
    else s
  }

  /** The shoot key is the only way out of a finished game, and it always leads back to play. */
  lemma ShootKeyLeavesGameOver(s: State, starRand: Rand, treeRand: Rand)
    requires IsUnit(starRand) && IsUnit(treeRand)
    requires s.gameOver && ShootKey in s.keyMap
    ensures var r := KeyPress(s, s.keyMap[ShootKey], starRand, treeRand);
      !r.gameOver && !r.isPaused && r.score == 0 && r.poopAmmo == MaxPoopAmmo
  {
  }

  /** Losing visibility forces the pause; regaining it changes nothing. */
  function VisibilityChange(s: State, hidden: bool): (r: State)
    ensures hidden ==> r.isPaused
    ensures !hidden ==> r == s
    ensures r == s.(isPaused := r.isPaused)
  {
    if hidden then s.(isPaused := true) else s
  }

  /**
   * updateKeyMap: the old key's state is dropped, the action is bound to the
   * new key and the new key starts released.  Other bindings stay.
   */
  function UpdateKeyMap(s: State, action: Action, key: string): (r: State)
    ensures r.keyMap == s.keyMap[action := key]
    ensures key in r.keys && !r.keys[key]
    ensures action in s.keyMap && s.keyMap[action] != key ==> s.keyMap[action] !in r.keys
    ensures forall k :: k in s.keys && k != key && !(action in s.keyMap && k == s.keyMap[action]) ==>
      k in r.keys && r.keys[k] == s.keys[k]
    ensures forall k :: k in r.keys ==> k in s.keys || k == key
    ensures BindsAll(s.keyMap) ==> BindsAll(r.keyMap)
    ensures r == s.(keyMap := r.keyMap, keys := r.keys)
  {
    var keys :=
      if action in s.keyMap && s.keyMap[action] in s.keys then s.keys - {s.keyMap[action]} else s.keys;
    s.(keyMap := s.keyMap[action := key], keys := keys[key := false])
  }

  // ---------------------------------------------------------------- touch

  /** isTouchOnBat: inside the bat's box grown by 20 pixels on every side. */
  predicate IsTouchOnBat(bat: Bat, x: real, y: real)
  {
    x >= bat.x - TouchPadding && x <= bat.x + BatWidth + TouchPadding &&
    y >= bat.y - TouchPadding && y <= bat.y + BatHeight + TouchPadding
  }

  /** The hit box is exactly the padded rectangle, so a touch on the bat itself always counts. */
  lemma TouchOnBatItself(bat: Bat, x: real, y: real)
    requires bat.x <= x <= bat.x + BatWidth && bat.y <= y <= bat.y + BatHeight
    ensures IsTouchOnBat(bat, x, y)
  {
  }

  /** touchstart at screen point (x, y): a touch on the bat starts a gesture there. */
  function TouchStart(s: State, x: real, y: real): (r: State)
    ensures IsTouchOnBat(s.bat, x + s.viewportOffset, y) ==>
      r == s.(touchStartX := Some(x), lastTouchX := Some(x), lastMovementDirection := 0)
    ensures !IsTouchOnBat(s.bat, x + s.viewportOffset, y) ==> r == s
  {
    if IsTouchOnBat(s.bat, x + s.viewportOffset, y) then
      s.(touchStartX := Some(x), lastTouchX := Some(x), lastMovementDirection := 0)
    else s
  }

  /** `Math.sign`. */
  function Sign(v: real): (r: int)
    ensures r == 1 <==> v > 0.0
    ensures r == -1 <==> v < 0.0
    ensures r == 0 <==> v == 0.0
  {
    if v > 0.0 then 1 else if v < 0.0 then -1 else 0
  }

  /**
   * The direction after a move of `movement` pixels: a move of more than one
   * pixel sets it to the move's sign, a smaller one keeps the last direction.
   */
  function NextDirection(direction: int, movement: real): (r: int)
    ensures Collision.Abs(movement) > 1.0 ==> r == Sign(movement) && r != 0
    ensures Collision.Abs(movement) <= 1.0 ==> r == direction
  {
    var current := Sign(movement);
    if Collision.Abs(movement) > 1.0 && current != 0 && current != direction then current else direction
  }

  /**
   * touchmove during a gesture: the direction is updated, and the bat flies
   * at full speed in it (or stops when none was set yet).  Outside a gesture
   * nothing happens.
   */
  function TouchMove(s: State, x: real): (r: State)
    ensures s.touchStartX.None? ==> r == s
    ensures s.touchStartX.Some? ==>
      r.lastTouchX == Some(x) &&
      r.bat == s.bat.(velocity := r.lastMovementDirection as real * MaxSpeed) &&
      r.lastMovementDirection == NextDirection(s.lastMovementDirection, x - s.lastTouchX.GetOr(0.0)) &&
      r == s.(lastTouchX := r.lastTouchX, lastMovementDirection := r.lastMovementDirection, bat := r.bat)
  {
    if s.touchStartX.None? then s
    else
      var direction := NextDirection(s.lastMovementDirection, x - s.lastTouchX.GetOr(0.0));
      s.(bat := s.bat.(velocity := direction as real * MaxSpeed),
         lastMovementDirection := direction, lastTouchX := Some(x))
  }

  /** Whether a gesture ending now is a tap: under 10 pixels of travel and no direction set. */
  predicate IsTap(s: State)
  {
    Collision.Abs(s.lastTouchX.GetOr(0.0) - s.touchStartX.GetOr(0.0)) < 10.0 && s.lastMovementDirection == 0
  }

  /** touchend: a tap shoots; any gesture then ends and the bat stops. */
  function TouchEnd(s: State): (r: State)
    ensures s.touchStartX.None? ==> r == s
    ensures s.touchStartX.Some? ==>
      r.touchStartX.None? && r.lastTouchX.None? && r.lastMovementDirection == 0 &&
      r.bat.velocity == 0.0 &&
      r == (if IsTap(s) then Shoot(s) else s).(touchStartX := None, lastTouchX := None,
                                                lastMovementDirection := 0, bat := r.bat)
  {
    if s.touchStartX.None? then s
    else
      var shot := if IsTap(s) then Shoot(s) else s;
      shot.(touchStartX := None, lastTouchX := None, lastMovementDirection := 0,
            bat := shot.bat.(velocity := 0.0))
  }

  /** touchcancel: the gesture ends and the bat stops, whether or not one was under way. */
  function TouchCancel(s: State): (r: State)
    ensures r.touchStartX.None? && r.lastTouchX.None? && r.lastMovementDirection == 0
    ensures r.bat == s.bat.(velocity := 0.0)
    ensures r == s.(touchStartX := None, lastTouchX := None, lastMovementDirection := 0, bat := r.bat)
  {
    s.(touchStartX := None, lastTouchX := None, lastMovementDirection := 0, bat := s.bat.(velocity := 0.0))
  }

  // ---------------------------------------------------------------- invariant

  /** The keyboard and visibility handlers keep the invariant. */
  lemma KeyDownPreservesValid(s: State, key: string)
    requires Valid(s)
    ensures Valid(KeyDown(s, key))
  {
  }

  lemma KeyUpPreservesValid(s: State, key: string)
    requires Valid(s)
    ensures Valid(KeyUp(s, key))
  {
  }

  lemma VisibilityChangePreservesValid(s: State, hidden: bool)
    requires Valid(s)
    ensures Valid(VisibilityChange(s, hidden))
  {
  }

  /** Remapping keeps every action bound. */
  lemma UpdateKeyMapPreservesValid(s: State, action: Action, key: string)
    requires Valid(s)
    ensures Valid(UpdateKeyMap(s, action, key))
  {
  }

  lemma KeyPressPreservesValid(s: State, key: string, starRand: Rand, treeRand: Rand)
    requires Valid(s) && IsUnit(starRand) && IsUnit(treeRand)
    ensures Valid(KeyPress(s, key, starRand, treeRand))
  {
    if ShootKey in s.keyMap && key == s.keyMap[ShootKey] && s.gameOver {
      RestartValid(s, starRand, treeRand);
    }
  }

  /** The touch handlers keep the invariant; in particular a gesture never outlives its start. */
  lemma TouchStartPreservesValid(s: State, x: real, y: real)
    requires Valid(s)
    ensures Valid(TouchStart(s, x, y))
  {
  }

  lemma TouchMovePreservesValid(s: State, x: real)
    requires Valid(s)
    ensures Valid(TouchMove(s, x))
  {
    if s.touchStartX.Some? {
      var r := TouchMove(s, x);
      assert -1 <= r.lastMovementDirection <= 1;
      assert -MaxSpeed <= r.bat.velocity <= MaxSpeed;
    }
  }

  lemma TouchEndPreservesValid(s: State)
    requires Valid(s)
    ensures Valid(TouchEnd(s))
  {
  }

  lemma TouchCancelPreservesValid(s: State)
    requires Valid(s)
    ensures Valid(TouchCancel(s))
  {
  }
}
