# Guano Drop — a verified model of the game core

Guano Drop is a browser game. A bat flies over a street that scrolls without
end, and drops poop on the cars driving below. A hit scores 100 points,
refills the bat's five shots and sets off an explosion. A car that has been
hit speeds away, and it can knock into other cars in its lane and score
more. The game ends when the last shot lands on the ground with no ammunition
left. The world is generated on the fly around a dead-zone viewport: stars in
the sky, trees along the street, and scenery that far behind is thrown away.
Explosions are timed by a background worker. The worker keeps a single timer
and reports progress and completion back to the page. The explosion's length
comes from the frame delays in its GIF file.

The model follows the two files that hold this logic:

- `static/js/game.js`:
  - the `Game` object (state, frame update, hits, spawning, viewport and
    scenery streaming, restart, input handlers);
  - its GIF frame-delay scanner;
  - the main-thread side of class `Explosion`.
- `static/js/explosion-worker.js`: the worker's one-timer state machine.

## Layout

- `game_model.dfy` — module `GameModel`. The fields of a `Game` as one value
  `State`. It also holds the constants of the constructor and the invariant
  `Valid`:
  - ammo in range and speed within the limit;
  - the bat inside the viewport's dead zone;
  - world bounds covering the viewport plus one canvas width on each side;
  - the spawn counter in range;
  - all four actions bound;
  - explosion ids ordered;
  - the touch gesture consistent.
- `collision.dfy` — `Collision`: the lane-tolerant rectangle test.
- `combat.dfy` — `Combat`: shooting, hitting a car, spawning a car, the spawn
  counter.
- `physics.dfy` — `Physics`:
  - the bat's velocity, facing and clamp;
  - the poop pass and the car pass of `update`, including the `forEach` that
    splices the array it walks.
- `scenery.dfy` — `Scenery`: the star and tree generators, and the range
  filters.
- `streaming.dfy` — `Streaming`: the dead-zone viewport, the content check,
  the initial content and the cleanup.
- `explosions.dfy` — `Explosions`:
  - the worker-message handler of the page;
  - the prune of completed explosions.
- `explosion_worker.dfy` — `ExplosionWorker`: the worker, as class `Timer`
  with `Start` and `Tick`.
- `gif_timing.dfy` — `GifTiming`:
  - the block-structure scan of a GIF89a file;
  - its imperative loops, proved equal to the scan;
  - the total duration.
- `input.dfy` — `Input`: the key, visibility and touch handler bodies, and the
  key remapping.
- `lifecycle.dfy` — `Lifecycle`: one `update`, one animation frame, a
  restart, the initial state and the GIF load. Each comes with the
  invariant it keeps.
- `engine.dfy` — `Engine`: class `Game`, with the object's fields and
  methods that change them in place.
  - `Model()` reads the fields back as a `GameModel.State`.
  - Every method is proved to change that state exactly as the matching
    function of the modules above.
  - The properties themselves are proved about those functions.
- `wrappers.dfy` — `Option` and `Result`.

Inputs from outside the program become parameters:

- Each `Math.random()` draw comes from a stream `Rand = nat -> real` of
  values in [0, 1). Each generator reads its stream in the order the source
  draws.
- `Date.now()` is a parameter `now`.
- The bytes of the explosion GIF are a `seq<bv8>`.
- Touch coordinates arrive already converted to canvas units.
- Messages posted to the worker are appended to an `outbox` sequence.
- Messages from the worker are calls to `OnWorkerMessage`.

## Model

| member | source | states |
|---|---|---|
| Collision.Abs | static/js/game.js:498 | `Math.abs`: non-negative and equal to the value or its negation |
| Collision.OverlapsSymmetric | static/js/game.js:495-505 | checkCollision gives the same answer with its arguments swapped |
| Collision.DifferentLanesNeverOverlap | static/js/game.js:497-500 | rectangles more than 5 pixels apart vertically never collide |
| Collision.SameLaneOverlapIsIntervalIntersection | static/js/game.js:502-504 | within the lane tolerance, a collision is exactly the intersection of the two open horizontal spans |
| Combat.Shoot | static/js/game.js:314-339 | nothing changes after game over or with no ammo; otherwise ammo drops by exactly 1 and exactly one poop is appended: flying, with the bat's velocity as velocityX, velocityY 2, opacity 1 and no grounded time; nothing else changes |
| Combat.HitCarAt | static/js/game.js:852-872 | a car already hit is left alone and nothing changes; otherwise the car becomes hit at `now`, its speed is 2.5 × base speed × multiplier (negated unless it was moving right), the score gains 100, ammo is refilled, exactly one explosion (at the car's centre, 2.25 × its width, fresh id) is appended and started in the worker, and every other car is unchanged |
| Combat.HitCarIdempotent | static/js/game.js:852-853 | hitting the same car twice is the same as hitting it once |
| Combat.HitCarKeepsHits | static/js/game.js:853-854 | no car is ever un-hit |
| Combat.SpeedMultiplierFor | static/js/game.js:365 | the speed factor `1 + score/500 × 0.5` is at least 1 for a non-negative score |
| Combat.SpawnCar | static/js/game.js:355-376 | exactly one unhit car is appended, in a palette colour; on a draw under 0.5 it starts 100 px beyond the right edge moving left, otherwise 100 px before the left edge moving right, at speed base × the score's speed factor; its lane is 505 for a leftward car and 535 for a rightward one; the speed factor is recomputed from the score |
| Combat.ScaledColor | static/js/game.js:352 | a palette draw indexes one of the eight colours |
| Combat.SpawnTick | static/js/game.js:473-479 | the counter stays in [0, 60]; below 60 it only counts; from 60 it resets to 0, and a car is added exactly when the draw is under 0.3, that car being `Combat.SpawnCar` on the reset state; otherwise nothing but the reset happens; the existing cars are kept |
| Physics.TargetVelocity | static/js/game.js:382-384 | left held gives -maxSpeed, else right held gives +maxSpeed, else 0 |
| Physics.StepVelocity | static/js/game.js:386-390 | the velocity moves toward the target by at most `acceleration`, never overshooting, in both directions: either by exactly `acceleration` or onto the target |
| Physics.StepKeepsSpeedLimit | static/js/game.js:386-390 | with the target within ±maxSpeed, a velocity within ±maxSpeed stays within it |
| Physics.Facing | static/js/game.js:393-395 | the facing turns to -1 above +0.1, to 1 below -0.1, and otherwise stays |
| Physics.ClampToViewport | static/js/game.js:400-402 | the bat's x ends in [offset, offset + 800 - 25], is unchanged when already inside, and goes to the nearer edge otherwise |
| Physics.MoveBat | static/js/game.js:381-402 | the new velocity is one step toward the held keys' target; the new x is the old x plus that velocity, clamped to the viewport; the facing follows the new velocity; the speed limit and the facing's range are kept; nothing but the bat and its facing changes |
| Physics.RemoveAt | static/js/game.js:431 | `splice(k, 1)`: one shorter, the elements before k kept, the ones after shifted down by one |
| Physics.VisitPoop | static/js/game.js:408-436 | a flying poop below the ground line lands at exactly y = 550, grounded at `now`; the game ends exactly when it was already over or when such a landing leaves no ammo and no poop flying; a poop is removed exactly when it is grounded and its fade has run out; other poops are untouched; only the poops and game over change |
| Physics.VisitPoopEffect | static/js/game.js:409-436 | a flying poop above the ground falls by one frame of gravity; one below it lands at y = 550, grounded at `now`, after that fall; a grounded poop still fading takes opacity `1 - progress`; an attached poop changes nothing |
| Physics.PoopsLoop | static/js/game.js:408-436 | the whole poop pass changes only poops and game over, a finished game stays finished, no poop is added, ammo stays in range and the score never drops |
| Physics.GameOverNeedsEmptyAmmo | static/js/game.js:421-425 | the poop pass only ends the game when the frame started with zero ammo |
| Physics.SpliceSkipsNextPoop | static/js/game.js:427-431 | with two faded poops side by side, the first is spliced out and the second, which slid into its index, is skipped and survives the frame |
| Physics.PoopsOnCar | static/js/game.js:446-454 | the inner poop loop keeps the numbers of cars and poops, game over and the car's position; a hit car stays hit; the score gains 100 per explosion added |
| Physics.PoopsOnCarAttaches | static/js/game.js:447-452 | exactly the poops from index j on that are falling and overlap the car become attached; every other poop is unchanged |
| Physics.PoopsOnCarHits | static/js/game.js:447-450 | apart from the poops, the loop is one hitCar on the car when some poop from index j on strikes it, and no change otherwise |
| Physics.ChainHits | static/js/game.js:457-463 | the chain loop changes no poop, keeps the car count and game over, and keeps the striking car's position; the score gains 100 per explosion added |
| Physics.ChainHitsCars | static/js/game.js:458-462 | exactly the unhit cars from index j on that the car overlaps become hit (hit at `now`, at the hit speed in their direction); every other car is unchanged |
| Physics.ChainHitsCount | static/js/game.js:458-462 | the chain adds one explosion per car it hits, refills the ammo when it hits any, and changes nothing when it hits none |
| Physics.KnockCountFrame | static/js/game.js:457-463 | the number of cars the chain hits from index j on depends only on the cars from j on |
| Physics.AdvanceCar | static/js/game.js:443 | only car k moves, by its speed |
| Physics.StrikeIfUnhit | static/js/game.js:446-454 | for a car not yet hit, exactly the falling poops overlapping it attach, and the car is hit (one hitCar: 100 points, full ammo, one explosion) exactly when there is one; a car already hit changes nothing |
| Physics.ChainIfHit | static/js/game.js:457-463 | for a hit car, exactly the unhit cars it overlaps become hit, each with its hit time and hit speed, one explosion each; an unhit car changes nothing; poops and the car itself are untouched |
| Physics.EvictIfFarOff | static/js/game.js:466-469 | a car more than one canvas width beyond either edge is spliced out; any other car stays |
| Physics.VisitCar | static/js/game.js:442-470 | one visit removes at most the visited car, and removes it exactly when its advanced position is far off; poops are never added or removed; game over is untouched; the score gains 100 per explosion added |
| Physics.AdvanceThenStrike | static/js/game.js:443-454 | after the advance and the poop hits, the car stands at its advanced position and is hit exactly when it was or a falling poop overlaps it there; the other cars and the hit speed are unchanged |
| Physics.AdvanceStrikeChain | static/js/game.js:443-463 | before the splice, every other car is hit exactly when the visited car is hit and overlaps it unhit in its advanced position, and is otherwise unchanged |
| Physics.VisitCarStrikes | static/js/game.js:443-454 | for all states: the visited car moves by its speed and, if it was not hit, exactly the falling poops overlapping it in its new place attach and it is hit exactly when there is one |
| Physics.VisitCarKnocks | static/js/game.js:443-470 | for all states: every other unhit car that the visited car, once hit, overlaps in its new place is hit; the rest are unchanged; all keep their order, shifted down by one past the visited car when it is spliced out |
| Physics.CarsLoop | static/js/game.js:442-470 | the whole car pass never adds cars or poops, keeps game over, keeps ammo in range, keeps explosion ids ordered, and the score only grows, by exactly 100 per explosion added |
| Physics.PoopHitsCar | static/js/game.js:446-453 | for any state and any unhit car: it ends up hit exactly when some falling poop overlaps it, and then the score gains exactly 100, the ammo is full and one explosion is added; a poop ends up attached exactly when it was or it strikes the car; with no strike nothing changes |
| Scenery.StarCount | static/js/game.js:944-947 | the star count of a band is a non-negative whole number |
| Scenery.StarsForRange | static/js/game.js:941-956 | an empty or inverted range gets no stars; otherwise `floor(width × 420 × 0.0008)` stars |
| Scenery.StarInsideRange | static/js/game.js:949-955 | each star lies in [startX, startX + width), in the top 420 pixels, with size in [0.5, 2) |
| Scenery.StarsInsideRange | static/js/game.js:941-956 | every generated star lies in [startX, endX) and in the star band |
| Scenery.TreeCount | static/js/game.js:962-965 | the count is at least 1, and between `max(2, floor(w/300))` and `floor(w/200)` for ranges of 400 pixels or more |
| Scenery.TreeCountBounds | static/js/game.js:963-965 | the drawn count is at least 1, and within its bounds from 400 pixels on |
| Scenery.SpanBounds | static/js/game.js:963-964 | the lower bound is at least 2, and the count range is never inverted by more than one; from 400 pixels on it is non-empty |
| Scenery.ScaledFloor | static/js/game.js:965 | `floor(r × k)` for a draw r in [0, 1) is one of 0 .. k - 1 |
| Scenery.TreesForRange | static/js/game.js:958-984 | an empty or inverted range gets no trees; otherwise the drawn count of trees (at least one) |
| Scenery.JitterBounds | static/js/game.js:973-974 | the random offset lies in [-maxOffset/2, maxOffset/2) |
| Scenery.TreeInsideRange | static/js/game.js:970-980 | the i-th tree lies in [startX - 40, startX + width) and below height 100 |
| Scenery.TreesInsideRange | static/js/game.js:958-984 | every generated tree lies in [startX - 40, endX): the jitter can push the first tree at most 40 pixels before the range but never past its end |
| Scenery.TreesSpaced | static/js/game.js:968-977 | within one range the trees run strictly left to right, and from 400 pixels on neighbours are more than 120 pixels apart |
| Scenery.NeighbourTrees | static/js/game.js:970-977 | two neighbouring trees of a segment layout are in order, and more than 120 pixels apart once segments are at least 200 wide |
| Scenery.SegmentAtLeast | static/js/game.js:964-968 | with at most `floor(w/200)` trees, each segment is at least 200 pixels wide |
| Scenery.TreeOfRange | static/js/game.js:968-980 | the i-th tree of a range is the tree of the i-th segment |
| Scenery.PlaceTree | static/js/game.js:971-980 | one loop iteration builds exactly the i-th segment's tree |
| Scenery.GenerateTreesForRange | static/js/game.js:958-984 | the `for` loop returns exactly `TreesForRange` |
| Scenery.KeepTrees | static/js/game.js:1035-1038 | exactly the trees whose x lies in [lo, hi] are kept, and no others |
| Scenery.KeepStars | static/js/game.js:1040-1043 | exactly the stars whose x lies in [lo, hi] are kept, and no others |
| Streaming.ViewportFor | static/js/game.js:1082-1090 | afterwards the bat's screen x lies in [200, 600]; the offset is unchanged if it already did, and otherwise the bat sits exactly on the margin it crossed |
| Streaming.GenerationWidth | static/js/game.js:989-1000 | the span is at least half a canvas and at least the distance moved |
| Streaming.CheckContentGeneration | static/js/game.js:986-1044 | the world bounds become min(left, viewportLeft - 800) and max(right, viewportRight + 800); the last position is the tree half's; a tree remains exactly when it is an old or newly grown tree inside [viewportLeft - 800, viewportRight + 800]; a star remains exactly when it is an old star or one generated over the grown bands and lies inside that range; nothing else changes |
| Streaming.GrowTrees | static/js/game.js:987-1017 | when the check does not fire (moved at most 100 px and at least two trees in view) nothing changes; when it fires the last position becomes the viewport offset, and after a move left or none the old trees are kept as the prefix with `TreesForRange` over [right, right + width) after them, after a move right they are kept as the suffix with `TreesForRange` over [left - width, left) before them |
| Streaming.AfterTrees | static/js/game.js:997-1017 | the tree half replaces the trees and the last position by the tree growth and changes nothing else |
| Streaming.ExtendRight | static/js/game.js:1020-1025 | the right bound becomes max(right, viewportRight + 800); the old stars are kept in front and the stars generated over [old right, viewportRight + 800) are appended, none when the bound already covered it |
| Streaming.ExtendLeft | static/js/game.js:1027-1031 | the left bound becomes min(left, viewportLeft - 800); the stars generated over [viewportLeft - 800, old left) are put in front of the old stars, none when the bound already covered it |
| Streaming.MovingRightGrowsLeft | static/js/game.js:999-1013 | after the viewport moved right by more than 100 pixels, every new tree lies left of the viewport (the generation side is opposite to the travel) |
| Streaming.GrownLeftOfViewport | static/js/game.js:1008-1013 | after a move right of more than 100 px, every tree the tree half adds lies left of the viewport |
| Streaming.MovingLeftGrowsRight | static/js/game.js:999-1007 | after the viewport moved left or stayed, every new tree lies at or beyond 40 pixels inside the right edge |
| Streaming.NewStarsFillGrowth | static/js/game.js:1019-1031 | every new star lies in the band by which the world bounds grew |
| Streaming.UpdateViewport | static/js/game.js:1082-1094 | the new offset follows the dead-zone rule, the bat's screen x lies in [200, 600], and the world bounds cover the viewport plus one canvas width on each side |
| Streaming.GenerateContentForRange | static/js/game.js:1046-1053 | the range's stars and trees are exactly what the two generators give; the guard for an inverted range adds nothing |
| Streaming.GenerateInitialContent | static/js/game.js:1068-1080 | fresh scenery for [-1600, 1600) replaces the old: exactly 1075 stars and 10 to 16 trees, all within [-1640, 1600]; the world bounds become that range |
| Streaming.InitialCounts | static/js/game.js:1070-1073 | the initial range holds 1075 stars and 10 to 16 trees |
| Streaming.CleanupContent | static/js/game.js:1055-1066 | exactly the trees and stars within one canvas width of the viewport edges are kept |
| Streaming.CleanupIdempotent | static/js/game.js:1055-1066 | cleaning up twice with the same edges is the same as once |
| Streaming.KeepTreesIdempotent | static/js/game.js:1057-1060 | filtering trees twice by the same band is the same as once |
| Streaming.KeepStarsIdempotent | static/js/game.js:1062-1065 | filtering stars twice by the same band is the same as once |
| Explosions.FindExplosion | static/js/game.js:1274 | `find` by id: the first index holding the id, or none when no explosion has it |
| Explosions.OnWorkerMessage | static/js/game.js:1271-1281 | the first explosion with the message's id is marked complete or takes the progress; an unknown id changes nothing; no other explosion or field changes |
| Explosions.MessageReachesItsExplosion | static/js/game.js:1259-1281 | with ids kept ordered, a message reaches the explosion carrying its id |
| Explosions.LiveOnly | static/js/game.js:595 | exactly the explosions that are not complete remain |
| Explosions.LiveOnlyKeepsOrder | static/js/game.js:595 | the prune keeps the ids ordered and below the counter |
| Explosions.PruneExplosions | static/js/game.js:595 | completed explosions leave, the live ones stay, ids stay ordered, nothing else changes |
| ExplosionWorker.TickMessage | static/js/explosion-worker.js:15-24 | the message carries the timer's id; it is `complete` exactly when elapsed >= duration; otherwise progress × duration = elapsed, and progress lies in [0, 1) for a clock that has not gone back |
| ExplosionWorker.ProgressMonotone | static/js/explosion-worker.js:11-24 | with a clock that does not go back, the progress posted for one timer never decreases |
| ExplosionWorker.CompleteIsStable | static/js/explosion-worker.js:15-18 | once a tick would post `complete`, every later one would too |
| ExplosionWorker.Timer.constructor | static/js/explosion-worker.js:1 | the worker starts with no timer |
| ExplosionWorker.Timer.Start | static/js/explosion-worker.js:3-14 | a start message clears any running timer and times the new id from `now` |
| ExplosionWorker.Timer.Tick | static/js/explosion-worker.js:14-26 | no timer, no message; otherwise the tick message of the running timer, and the timer stops exactly when it posted `complete` |
| ExplosionWorker.RestartCancelsEarlierTimer | static/js/explosion-worker.js:6-9 | after two start messages, every tick reports the second id, and the first id never receives `complete` |
| ExplosionWorker.NothingAfterComplete | static/js/explosion-worker.js:16-18 | after `complete`, further ticks post nothing |
| GifTiming.ColorTableSize | static/js/game.js:1200 | a colour table is `3 × 2^(n+1)` bytes: a positive multiple of 6 |
| GifTiming.GceDelay | static/js/game.js:1211-1212 | the delay is 10 × the little-endian u16, or 100 when that is 0; always positive and a multiple of 10 |
| GifTiming.StartOffset | static/js/game.js:1196-1202 | a buffer of 10 bytes or fewer fails; otherwise the scan starts at 13, after the global colour table when there is one |
| GifTiming.SkipSubBlocks | static/js/game.js:1217-1222 | a chain of sub-blocks ends just past a zero size byte, strictly after its start and within the buffer |
| GifTiming.BlockAt | static/js/game.js:1205-1244 | a block is the trailer exactly at 0x3B; any other block moves the offset strictly forward; a frame is reported only for a Graphic Control Extension, and always for one, with its delay |
| GifTiming.BlocksFromDelaysValid | static/js/game.js:1204-1245 | every delay the scan reports is positive and a multiple of 10 |
| GifTiming.FrameDelaysValid | static/js/game.js:1192-1248 | the same for a whole file |
| GifTiming.TotalDurationAtLeast | static/js/game.js:1183 | the total of n valid delays is at least 10n ms |
| GifTiming.TwoFrameExample | static/js/game.js:1192-1248 | a two-frame file with delays 5 and 0 reads as 50 ms and 100 ms |
| GifTiming.SkipDataSubBlocks | static/js/game.js:1217-1222 | the `while (true)` sub-block loop computes exactly `SkipSubBlocks` |
| GifTiming.ReadBlock | static/js/game.js:1205-1244 | the loop body for one marker computes exactly `BlockAt` |
| GifTiming.AnalyzeGif | static/js/game.js:1192-1248 | the scan loop returns exactly `FrameDelays` |
| Input.KeyDown | static/js/game.js:169-178 | the key is held; the pause key toggles the pause and any other key leaves it |
| Input.KeyUp | static/js/game.js:180 | the key is released and nothing else changes |
| Input.KeyPress | static/js/game.js:181-189 | the shoot key restarts a finished game and shoots otherwise; any other key changes nothing |
| Input.ShootKeyLeavesGameOver | static/js/game.js:182-184 | in a finished game the shoot key brings back play: not over, not paused, score 0, full ammo |
| Input.VisibilityChange | static/js/game.js:259-266 | hiding the page forces the pause; showing it never resumes |
| Input.UpdateKeyMap | static/js/game.js:1097-1107 | the action is bound to the new key, which starts released; the old key's state is dropped; every other key's state is kept; all actions stay bound |
| Input.TouchOnBatItself | static/js/game.js:1119-1133 | a touch on the bat's own box always counts as on the bat |
| Input.TouchStart | static/js/game.js:196-209 | a touch on the padded bat box starts a gesture there with no direction; any other touch changes nothing |
| Input.Sign | static/js/game.js:219 | `Math.sign` is 1, -1 or 0 exactly for positive, negative and zero |
| Input.NextDirection | static/js/game.js:218-227 | a move of more than one pixel sets the direction to its sign; a smaller one keeps the last direction |
| Input.TouchMove | static/js/game.js:211-235 | outside a gesture nothing changes; during one, the direction follows the move and the bat flies at full speed in it |
| Input.TouchEnd | static/js/game.js:237-249 | outside a gesture nothing changes; a tap (under 10 pixels, no direction) shoots; the gesture then ends and the bat stops |
| Input.TouchCancel | static/js/game.js:251-256 | the gesture ends and the bat stops |
| Input.KeyDownPreservesValid | static/js/game.js:169-178 | keydown keeps the invariant |
| Input.KeyUpPreservesValid | static/js/game.js:180 | keyup keeps the invariant |
| Input.KeyPressPreservesValid | static/js/game.js:181-189 | keypress keeps the invariant, through a restart too |
| Input.VisibilityChangePreservesValid | static/js/game.js:259-266 | a visibility change keeps the invariant |
| Input.UpdateKeyMapPreservesValid | static/js/game.js:1097-1107 | remapping keeps every action bound |
| Input.TouchStartPreservesValid | static/js/game.js:196-209 | touchstart keeps the invariant |
| Input.TouchMovePreservesValid | static/js/game.js:211-235 | touchmove keeps the direction in {-1, 0, 1} and the bat within the speed limit |
| Input.TouchEndPreservesValid | static/js/game.js:237-249 | touchend keeps the invariant |
| Input.TouchCancelPreservesValid | static/js/game.js:251-256 | touchcancel keeps the invariant |
| Lifecycle.Update | static/js/game.js:378-493 | nothing changes once the game is over; otherwise the bat ends inside the dead zone, and keys, pause, gesture and GIF frames are untouched |
| Lifecycle.UpdatePreservesValid | static/js/game.js:378-493 | a frame update keeps the invariant |
| Lifecycle.UpdateEndsGameOnlyWithoutAmmo | static/js/game.js:421-424 | update only ends the game when the frame started with zero ammo |
| Lifecycle.Frame | static/js/game.js:753-759 | while paused only the prune changes the state; afterwards no completed explosion remains |
| Lifecycle.FramePreservesValid | static/js/game.js:753-759 | an animation frame keeps the invariant |
| Lifecycle.PrunePreservesValid | static/js/game.js:595 | the prune keeps the invariant |
| Lifecycle.Restart | static/js/game.js:897-939 | score 0, full ammo, not over, not paused, no poops, cars or explosions, worker gone, bat and viewport back at the start, world bounds [-1600, 1600], 1075 stars, 10 to 16 trees, speed factor 1; the explosion id counter, spawn counter, last generation position, facing, keys, outbox, gesture and the four loaded explosion timings are kept |
| Lifecycle.RestartValid | static/js/game.js:897-939 | a restart yields a valid state from any state whose kept parts are valid |
| Lifecycle.Initial | static/js/game.js:2-115 | the constructed state is valid, with score 0, full ammo, no entities and the default explosion timings |
| Lifecycle.LoadExplosionGif | static/js/game.js:1174-1190 | a parse failure changes nothing; otherwise the frames and their count are stored, and when there is a first frame its delay becomes the frame duration (positive) and the total is the sum of all the delays, at least 10 ms per frame; with no frames the old timings stay |
| Engine.Game.constructor | static/js/game.js:2-115 | the new object is `Lifecycle.Initial`, and valid |
| Engine.Game.Shoot | static/js/game.js:314-339 | the fields change exactly as `Combat.Shoot` |
| Engine.Game.TakeExplosionId | static/js/game.js:1253-1259 | `Explosion.nextId++`: the old value is returned and the counter goes up by one |
| Engine.Game.InitWorker | static/js/game.js:1268-1283 | the worker exists afterwards and nothing else changes |
| Engine.Game.PostStart | static/js/game.js:1285-1289 | exactly one start message is appended to the outbox |
| Engine.Game.NewExplosion | static/js/game.js:1255-1290 | a new explosion with the next id, not complete, at progress 0; the counter goes up, the worker exists and one 1000 ms start message is posted |
| Engine.Game.AddExplosion | static/js/game.js:859-863 | the new explosion is appended to the list, with the same counter, worker and outbox changes |
| Engine.Game.HitCar | static/js/game.js:852-872 | the fields change exactly as `Combat.HitCarAt` |
| Engine.Game.MarkHit | static/js/game.js:854-866 | only the car changes: hit, hit time and hit speed in its direction |
| Engine.Game.Reward | static/js/game.js:867-868 | score + 100 and full ammo, nothing else |
| Engine.Game.SpawnCar | static/js/game.js:355-376 | the fields change exactly as `Combat.SpawnCar` |
| Engine.Game.MoveBat | static/js/game.js:381-402 | the fields change exactly as `Physics.MoveBat` |
| Engine.Game.VisitPoop | static/js/game.js:408-436 | the fields change exactly as `Physics.VisitPoop` |
| Engine.Game.UpdatePoops | static/js/game.js:408-436 | the `forEach` over the poops changes the fields exactly as `Physics.PoopsLoop`, splice skipping included |
| Engine.Game.VisitCar | static/js/game.js:442-470 | the fields change exactly as `Physics.VisitCar` |
| Engine.Game.AdvanceCar | static/js/game.js:443 | the fields change exactly as `Physics.AdvanceCar` |
| Engine.Game.EvictIfFarOff | static/js/game.js:466-469 | the fields change exactly as `Physics.EvictIfFarOff` |
| Engine.Game.TakePoopHits | static/js/game.js:446-454 | the inner poop loop changes the fields exactly as `Physics.StrikeIfUnhit` |
| Engine.Game.HitOverlappingCars | static/js/game.js:457-463 | the chain loop changes the fields exactly as `Physics.ChainIfHit` |
| Engine.Game.UpdateCars | static/js/game.js:442-470 | the `forEach` over the cars changes the fields exactly as `Physics.CarsLoop` |
| Engine.Game.SpawnTick | static/js/game.js:473-479 | the fields change exactly as `Combat.SpawnTick` |
| Engine.Game.AddTrees | static/js/game.js:987-1017 | the tree half changes the fields exactly as `Streaming.AfterTrees` |
| Engine.Game.GrowTrees | static/js/game.js:998-1016 | once the tree check fires, the fields change exactly as `Streaming.AfterTrees` |
| Engine.Game.AppendTrees | static/js/game.js:1007 | the new trees go after the old ones |
| Engine.Game.PrependTrees | static/js/game.js:1013 | the new trees go before the old ones |
| Engine.Game.ExtendRight | static/js/game.js:1020-1025 | the fields change exactly as `Streaming.ExtendRight` |
| Engine.Game.ExtendLeft | static/js/game.js:1027-1031 | the fields change exactly as `Streaming.ExtendLeft` |
| Engine.Game.CheckContentGeneration | static/js/game.js:986-1044 | the fields change exactly as `Streaming.CheckContentGeneration` |
| Engine.Game.UpdateViewport | static/js/game.js:1082-1094 | the fields change exactly as `Streaming.UpdateViewport` |
| Engine.Game.GenerateContentForRange | static/js/game.js:1046-1053 | returns exactly `Streaming.GenerateContentForRange`; every tree lies in [startX - 40, endX) and every star in [startX, endX) |
| Engine.Game.GenerateInitialContent | static/js/game.js:1068-1080 | the fields change exactly as `Streaming.GenerateInitialContent` |
| Engine.Game.CleanupContent | static/js/game.js:1055-1066 | the fields change exactly as `Streaming.CleanupContent` |
| Engine.Game.Update | static/js/game.js:378-493 | the fields change exactly as `Lifecycle.Update`, and a valid game stays valid |
| Engine.Game.PruneExplosions | static/js/game.js:595 | the fields change exactly as `Explosions.PruneExplosions` |
| Engine.Game.GameLoop | static/js/game.js:753-759 | the fields change exactly as `Lifecycle.Frame`, and a valid game stays valid |
| Engine.Game.Restart | static/js/game.js:897-939 | the fields change exactly as `Lifecycle.Restart`, and a valid game stays valid |
| Engine.Game.CleanupExplosionWorker | static/js/game.js:1312-1317 | the worker is gone and nothing else changes |
| Engine.Game.ResetScore | static/js/game.js:902-904 | score 0 and full ammo, nothing else |
| Engine.Game.ResetPlay | static/js/game.js:901-908 | score, ammo, game over and the three entity lists reset, nothing else |
| Engine.Game.ResetBat | static/js/game.js:910-913 | the bat is back at (400, 100), at rest |
| Engine.Game.ResetViewport | static/js/game.js:915-920 | offset 0 and world bounds [-800, 1600] |
| Engine.Game.ClearScene | static/js/game.js:922-924 | no trees and no stars |
| Engine.Game.ResumeAtBaseSpeed | static/js/game.js:934-938 | speed factor 1 and not paused |
| Engine.Game.LoadExplosionGif | static/js/game.js:1174-1190 | the fields change exactly as `Lifecycle.LoadExplosionGif` |
| Engine.Game.StoreFrames | static/js/game.js:1180-1181 | the frames and their count are stored |
| Engine.Game.StoreTiming | static/js/game.js:1182-1183 | the frame duration and the total are stored |
| Engine.Game.OnWorkerMessage | static/js/game.js:1271-1281 | the fields change exactly as `Explosions.OnWorkerMessage`, and a valid game stays valid |
| Engine.Game.OnKeyDown | static/js/game.js:169-178 | the fields change exactly as `Input.KeyDown` |
| Engine.Game.OnKeyUp | static/js/game.js:180 | the fields change exactly as `Input.KeyUp` |
| Engine.Game.OnKeyPress | static/js/game.js:181-189 | the fields change exactly as `Input.KeyPress` |
| Engine.Game.OnVisibilityChange | static/js/game.js:259-266 | the fields change exactly as `Input.VisibilityChange` |
| Engine.Game.UpdateKeyMap | static/js/game.js:1097-1107 | the dictionaries change exactly as `Input.UpdateKeyMap` |
| Engine.Game.OnTouchStart | static/js/game.js:196-209 | the fields change exactly as `Input.TouchStart` |
| Engine.Game.OnTouchMove | static/js/game.js:211-235 | the fields change exactly as `Input.TouchMove` |
| Engine.Game.OnTouchEnd | static/js/game.js:237-249 | the fields change exactly as `Input.TouchEnd` |
| Engine.Game.OnTouchCancel | static/js/game.js:251-256 | the fields change exactly as `Input.TouchCancel` |

## Behaviour kept as the code has it

The model follows what the code does, including these points:

- **Game over.** `gameOver` is set as soon as the last poop lands. Only the
  overlay waits a second (static/js/game.js:423-424).
- **Acceleration.** `acceleration` is used both to speed up and to slow
  down; `deceleration` is never read (static/js/game.js:386-390).
- **Fade.** Opacity falls linearly, `1 - progress` (static/js/game.js:433).
- **Tree direction.** New trees go to the right when the viewport moved left or
  stayed, and to the left when it moved right (static/js/game.js:999-1014).
- **Poop hits.** Every falling poop that overlaps an unhit car attaches to it
  in the same frame, although the car itself is hit only once
  (static/js/game.js:447-452).
- **Spawn side.** Cars spawn on a random side (static/js/game.js:356).
- **World bounds.** They grow to the viewport edge ± one canvas width
  (static/js/game.js:1024, 1030), which is the band the new stars fill.
- **Restart and the explosion counter.** A restart tears the worker down, and
  the next explosion creates a new one. It resets neither `Explosion.nextId`
  nor the spawn counter nor the last generation position, and it keeps the
  loaded explosion timings (static/js/game.js:897-939).

- A `splice` inside a `forEach` makes the element after a removed one be
  skipped for that frame (static/js/game.js:431, 468).
- A new start message cancels the running worker timer, so an earlier
  explosion may never receive `complete` (static/js/explosion-worker.js:7-9).
- For a range under 400 pixels wide, `minTrees` (at least 2) can exceed
  `maxTrees`. The drawn count is then 1 or 2, never 0.

## Left out

- Rendering is not modelled: `draw`, `drawCar`, `showGameOver`,
  `Explosion.draw`, `resizeCanvas`, the canvas and the DOM score display. Only
  the prune of completed explosions at the start of `draw` changes game
  state, and it is modelled.
- Audio is not modelled: the sound players and the `AudioContext` resume
  handler. They are foreign calls with no effect on game state.
- Cosmetic animation is not modelled: `animationTime`, `wingAngle`,
  `bodyOffset`, star `twinkle` and `hitFlashTimer`. Nothing else reads them.
- `poop.attachedTo` is not modelled. It is written on a hit and never read.
- Asset loading is not modelled: `loadImages`, the `fetch` of the GIF, and
  `Worker` construction and termination. The GIF's bytes are a parameter.
  The worker's existence is the flag `workerAlive`. `postMessage` appends to
  `outbox`.
- The asynchrony between page and worker is not modelled, and neither is the
  `setInterval` schedule. Worker ticks and message delivery are explicit
  calls, with the clock as a parameter.
- Timers and clock readings within a frame are simplified. The `setTimeout`
  that draws the game-over overlay is left out. All `Date.now()` readings
  during one `update` are taken to be the same `now`.
- Numbers are exact reals: positions and speeds use `real` rather than
  IEEE-754 doubles, and `Math.floor` is `Floor`. Stars use π as
  3.141592653589793.
- `start()` is not modelled. It only generates content when there are no
  stars, which never happens after the constructor, and then runs the loop.
- The `window.updatePauseState` callback into the controls panel is not
  modelled, nor is the conversion of touch coordinates from client to
  canvas units.
- The controls panel (`static/js/controls.js`) and the web server (`app.py`)
  are not part of this model.
- `EXPLOSION_DURATION` is set from the GIF but never read by the game, since
  every explosion asks for 1000 ms. The model stores it without using it.
- Engine.Game.OnKeyDown: its contract does not repeat that the invariant is kept. It is tied to `Input.KeyDown`, and `Input.KeyDownPreservesValid` proves the invariant there.
- Engine.Game.OnKeyUp: its contract does not repeat that the invariant is kept. It is tied to `Input.KeyUp`, and `Input.KeyUpPreservesValid` proves the invariant there.
- Engine.Game.OnKeyPress: its contract does not repeat that the invariant is kept. It is tied to `Input.KeyPress`, and `Input.KeyPressPreservesValid` proves the invariant there.
- Engine.Game.OnVisibilityChange: its contract does not repeat that the invariant is kept. It is tied to `Input.VisibilityChange`, and `Input.VisibilityChangePreservesValid` proves the invariant there.
- Engine.Game.UpdateKeyMap: its contract does not repeat that the invariant is kept. It is tied to `Input.UpdateKeyMap`, and `Input.UpdateKeyMapPreservesValid` proves the invariant there.
- Engine.Game.OnTouchStart: its contract does not repeat that the invariant is kept. It is tied to `Input.TouchStart`, and `Input.TouchStartPreservesValid` proves the invariant there.
- Engine.Game.OnTouchMove: its contract does not repeat that the invariant is kept. It is tied to `Input.TouchMove`, and `Input.TouchMovePreservesValid` proves the invariant there.
- Engine.Game.OnTouchEnd: its contract does not repeat that the invariant is kept. It is tied to `Input.TouchEnd`, and `Input.TouchEndPreservesValid` proves the invariant there.
- Engine.Game.OnTouchCancel: its contract does not repeat that the invariant is kept. It is tied to `Input.TouchCancel`, and `Input.TouchCancelPreservesValid` proves the invariant there.
- ExplosionWorker.Timer.Start requires a positive duration. The only caller
  sends 1000.
