/**
 * The dead-zone viewport and the streaming of scenery around it
 * (static/js/game.js, updateViewport, checkContentGeneration,
 * generateContentForRange, cleanupContent and generateInitialContent).
 */
module Streaming {
  import opened Wrappers
  import opened Scenery
  import opened GameModel
  import Collision

  /** The three random streams one content check may read from. */
  datatype SceneryDraws = SceneryDraws(trees: Rand, starsRight: Rand, starsLeft: Rand)

  ghost predicate UnitDraws(d: SceneryDraws)
  {
    IsUnit(d.trees) && IsUnit(d.starsRight) && IsUnit(d.starsLeft)
  }

  // ---------------------------------------------------------------- viewport

  /**
   * The offset updateViewport picks: unchanged while the bat's screen x is in
   * [200, 600]; otherwise shifted so that the bat sits exactly on the margin
   * it crossed.
   */
  function ViewportFor(batX: real, offset: real): (r: real)
    ensures ViewportThreshold <= batX - r <= CanvasWidth - ViewportThreshold
    ensures ViewportThreshold <= batX - offset <= CanvasWidth - ViewportThreshold ==> r == offset
    ensures batX - offset < ViewportThreshold ==> batX - r == ViewportThreshold
    ensures batX - offset > CanvasWidth - ViewportThreshold ==> batX - r == CanvasWidth - ViewportThreshold
  {
    var screenX := batX - offset;
    if screenX < ViewportThreshold then batX - ViewportThreshold
    else if screenX > CanvasWidth - ViewportThreshold then batX - (CanvasWidth - ViewportThreshold)
    else offset
  }

  // ---------------------------------------------------------------- content check

  /** Whether every tree and star lies in [lo, hi]. */
  predicate SceneryWithin(s: State, lo: real, hi: real)
  {
    (forall t :: t in s.trees ==> InBand(t.x, lo, hi)) &&
    (forall st :: st in s.stars ==> InBand(st.x, lo, hi))
  }

  /** How far the tree check looks: `max(movement, canvas.width / 2)`. */
  function GenerationWidth(viewportLeft: real, lastPosition: real): (w: real)
    ensures w >= CanvasWidth / 2.0
    ensures w >= Collision.Abs(viewportLeft - lastPosition)
  {
    var movement := Collision.Abs(viewportLeft - lastPosition);
    if movement >= CanvasWidth / 2.0 then movement else CanvasWidth / 2.0
  }

  /** Whether the tree check fires: moved more than 100 pixels, or fewer than two trees in view. */
  predicate TreeCheckDue(s: State)
  {
    Collision.Abs(s.viewportOffset - s.lastViewportPosition) > MinTreeSpacing / 2.0 ||
    |KeepTrees(s.trees, s.viewportOffset, s.viewportOffset + CanvasWidth)| < 2
  }

  /** The tree half of checkContentGeneration, before eviction: new trees and the new last position. */
  function GrowTrees(s: State, rand: Rand): (r: (seq<Tree>, real))
    requires IsUnit(rand)
    ensures !TreeCheckDue(s) ==> r == (s.trees, s.lastViewportPosition)
    ensures TreeCheckDue(s) ==> r.1 == s.viewportOffset
    ensures TreeCheckDue(s) && s.viewportOffset - s.lastViewportPosition <= 0.0 ==>
      var right := s.viewportOffset + CanvasWidth;
      |s.trees| <= |r.0| && r.0[..|s.trees|] == s.trees &&
      r.0[|s.trees|..] == TreesForRange(right, right + GenerationWidth(s.viewportOffset, s.lastViewportPosition), rand)
    ensures TreeCheckDue(s) && s.viewportOffset - s.lastViewportPosition > 0.0 ==>
      var left := s.viewportOffset;
      var n := |r.0| - |s.trees|;
      0 <= n && r.0[n..] == s.trees &&
      r.0[..n] == TreesForRange(left - GenerationWidth(s.viewportOffset, s.lastViewportPosition), left, rand)
  {
    var left := s.viewportOffset;
    var right := left + CanvasWidth;
    if TreeCheckDue(s) then
      if left - s.lastViewportPosition <= 0.0 then
        (s.trees + TreesForRange(right, right + GenerationWidth(s.viewportOffset, s.lastViewportPosition), rand), left)
      else
        (TreesForRange(left - GenerationWidth(s.viewportOffset, s.lastViewportPosition), left, rand) + s.trees, left)
    else (s.trees, s.lastViewportPosition)
  }

  /**
   * checkContentGeneration: trees are added when the viewport has moved more
   * than 100 pixels since the last generation or fewer than two are visible
   * (to the right when it moved left or stayed, to the left when it moved
   * right); stars are added over whatever part of [left - 800, right + 800]
   * lies outside the world bounds, which grow to cover it; then every tree
   * and star outside [left - 800, right + 800] is evicted.
   */
  function CheckContentGeneration(s: State, d: SceneryDraws): (r: State)
    requires UnitDraws(d)
    ensures r == s.(trees := r.trees, stars := r.stars, worldLeft := r.worldLeft,
                    worldRight := r.worldRight, lastViewportPosition := r.lastViewportPosition)
    ensures r.worldLeft <= s.worldLeft && r.worldRight >= s.worldRight
    ensures r.worldLeft <= s.viewportOffset - CanvasWidth
    ensures r.worldRight >= s.viewportOffset + 2.0 * CanvasWidth
    ensures SceneryWithin(r, s.viewportOffset - CanvasWidth, s.viewportOffset + 2.0 * CanvasWidth)
    ensures forall t :: t in r.trees ==> t in GrowTrees(s, d.trees).0
    ensures r.lastViewportPosition == GrowTrees(s, d.trees).1
    ensures r.worldLeft == Min(s.worldLeft, s.viewportOffset - CanvasWidth)
    ensures r.worldRight == Max(s.worldRight, s.viewportOffset + 2.0 * CanvasWidth)
    ensures forall t :: t in r.trees <==>
      t in GrowTrees(s, d.trees).0 && InBand(t.x, s.viewportOffset - CanvasWidth, s.viewportOffset + 2.0 * CanvasWidth)
    ensures forall st :: st in r.stars <==>
      st in GrownStars(s, d) && InBand(st.x, s.viewportOffset - CanvasWidth, s.viewportOffset + 2.0 * CanvasWidth)
  {
    var extended := ExtendLeft(ExtendRight(AfterTrees(s, d.trees), d.starsRight), d.starsLeft);
    // the closing filter is the one cleanupContent applies
    CleanupContent(extended, s.viewportOffset, s.viewportOffset + CanvasWidth)
  }

  function Min(a: real, b: real): real { if a <= b then a else b }
  function Max(a: real, b: real): real { if a >= b then a else b }

  /**
   * The star list once both world bounds have grown to one canvas width past
   * the viewport: new stars on the left, the old ones, new stars on the right.
   * A side that needs no growth contributes nothing, its range being inverted.
   */
  function GrownStars(s: State, d: SceneryDraws): seq<Star>
    requires UnitDraws(d)
  {
    StarsForRange(s.viewportOffset - CanvasWidth, s.worldLeft, d.starsLeft) + s.stars +
    StarsForRange(s.worldRight, s.viewportOffset + 2.0 * CanvasWidth, d.starsRight)
  }

  /** The state once the tree half has run. */
  function AfterTrees(s: State, rand: Rand): (r: State)
    requires IsUnit(rand)
    ensures r == s.(trees := GrowTrees(s, rand).0, lastViewportPosition := GrowTrees(s, rand).1)
  {
    var (trees, last) := GrowTrees(s, rand);
    s.(trees := trees, lastViewportPosition := last)
  }

  /** Stars for the part of [.., right + 800) beyond the right world bound, which grows to cover it. */
  function ExtendRight(s: State, rand: Rand): (r: State)
    requires IsUnit(rand)
    ensures r == s.(stars := r.stars, worldRight := r.worldRight)
    ensures r.worldRight >= s.worldRight && r.worldRight >= s.viewportOffset + 2.0 * CanvasWidth
    ensures forall st :: st in r.stars && st !in s.stars ==> s.worldRight <= st.x < r.worldRight
    ensures r.worldRight == Max(s.worldRight, s.viewportOffset + 2.0 * CanvasWidth)
    ensures r.stars == s.stars + StarsForRange(s.worldRight, s.viewportOffset + 2.0 * CanvasWidth, rand)
  {
    StarsInsideRange(s.worldRight, s.viewportOffset + 2.0 * CanvasWidth, rand);
    var right := s.viewportOffset + CanvasWidth;
    if right + CanvasWidth > s.worldRight then
      s.(stars := s.stars + StarsForRange(s.worldRight, right + CanvasWidth, rand), worldRight := right + CanvasWidth)
    else s
  }

  /** The same on the left, with the new stars put in front. */
  function ExtendLeft(s: State, rand: Rand): (r: State)
    requires IsUnit(rand)
    ensures r == s.(stars := r.stars, worldLeft := r.worldLeft)
    ensures r.worldLeft <= s.worldLeft && r.worldLeft <= s.viewportOffset - CanvasWidth
    ensures forall st :: st in r.stars && st !in s.stars ==> r.worldLeft <= st.x < s.worldLeft
    ensures r.worldLeft == Min(s.worldLeft, s.viewportOffset - CanvasWidth)
    ensures r.stars == StarsForRange(s.viewportOffset - CanvasWidth, s.worldLeft, rand) + s.stars
  {
    StarsInsideRange(s.viewportOffset - CanvasWidth, s.worldLeft, rand);
    var left := s.viewportOffset;
    if left - CanvasWidth < s.worldLeft then
      s.(stars := StarsForRange(left - CanvasWidth, s.worldLeft, rand) + s.stars, worldLeft := left - CanvasWidth)
    else s
  }

  /**
   * The generation direction is the mirror of the travel direction: after the
   * viewport moved right by more than 100 pixels, every new tree lies left of
   * the viewport's left edge.
   */
  lemma MovingRightGrowsLeft(s: State, d: SceneryDraws)
    requires UnitDraws(d)
    requires s.viewportOffset - s.lastViewportPosition > MinTreeSpacing / 2.0
    ensures forall t :: t in CheckContentGeneration(s, d).trees && t !in s.trees ==> t.x < s.viewportOffset
  {
    GrownLeftOfViewport(s, d.trees);
  }

  /** The tree half alone, after a move right: the trees it adds lie left of the viewport. */
  lemma GrownLeftOfViewport(s: State, rand: Rand)
    requires IsUnit(rand)
    requires s.viewportOffset - s.lastViewportPosition > MinTreeSpacing / 2.0
    ensures forall t :: t in GrowTrees(s, rand).0 && t !in s.trees ==> t.x < s.viewportOffset
  {
    var left := s.viewportOffset;
    var g := GrowTrees(s, rand).0;
    assert TreeCheckDue(s);
    var n := |g| - |s.trees|;
    var grown := TreesForRange(left - GenerationWidth(s.viewportOffset, s.lastViewportPosition), left, rand);
    assert g == g[..n] + g[n..];
    assert g == grown + s.trees;
    TreesInsideRange(left - GenerationWidth(s.viewportOffset, s.lastViewportPosition), left, rand);
  }

  /**
   * ... and after it moved left (or stayed), every new tree lies no more than
   * 40 pixels inside the viewport's right edge or beyond it.
   */
  lemma MovingLeftGrowsRight(s: State, d: SceneryDraws)
    requires UnitDraws(d)
    requires s.viewportOffset - s.lastViewportPosition <= 0.0
    ensures forall t :: t in CheckContentGeneration(s, d).trees && t !in s.trees ==>
      t.x >= s.viewportOffset + CanvasWidth - 40.0
  {
    var right := s.viewportOffset + CanvasWidth;
    if TreeCheckDue(s) {
      var grown := TreesForRange(right, right + GenerationWidth(s.viewportOffset, s.lastViewportPosition), d.trees);
      assert forall t :: t in GrowTrees(s, d.trees).0 && t !in s.trees ==> t.x >= right - 40.0 by {
        assert GrowTrees(s, d.trees).0 == s.trees + grown;
        TreesInsideRange(right, right + GenerationWidth(s.viewportOffset, s.lastViewportPosition), d.trees);
      }
    } else {
      assert GrowTrees(s, d.trees).0 == s.trees;
    }
  }

  /** Every new star lies in the band by which the world bounds grew. */
  lemma NewStarsFillGrowth(s: State, d: SceneryDraws)
    requires UnitDraws(d)
    ensures var r := CheckContentGeneration(s, d);
      forall st :: st in r.stars && st !in s.stars ==>
        (r.worldLeft <= st.x < s.worldLeft) || (s.worldRight <= st.x < r.worldRight)
  {
    var right := ExtendRight(AfterTrees(s, d.trees), d.starsRight);
    var extended := ExtendLeft(right, d.starsLeft);
    var r := CheckContentGeneration(s, d);
    assert r.worldLeft == extended.worldLeft && r.worldRight == right.worldRight;
  }

  /** updateViewport: move the offset by the dead-zone rule, then check the content. */
  function UpdateViewport(s: State, d: SceneryDraws): (r: State)
    requires UnitDraws(d)
    ensures r.viewportOffset == ViewportFor(s.bat.x, s.viewportOffset)
    ensures ViewportThreshold <= r.bat.x - r.viewportOffset <= CanvasWidth - ViewportThreshold
    ensures r.worldLeft <= r.viewportOffset - CanvasWidth
    ensures r.worldRight >= r.viewportOffset + 2.0 * CanvasWidth
    ensures r == s.(viewportOffset := r.viewportOffset, trees := r.trees, stars := r.stars,
                    worldLeft := r.worldLeft, worldRight := r.worldRight,
                    lastViewportPosition := r.lastViewportPosition)
  {
    CheckContentGeneration(s.(viewportOffset := ViewportFor(s.bat.x, s.viewportOffset)), d)
  }

  // ---------------------------------------------------------------- content ranges

  datatype Content = Content(stars: seq<Star>, trees: seq<Tree>)

  /**
   * generateContentForRange.  Its own guard for an inverted range is
   * redundant: both generators already return nothing there.
   */
  function GenerateContentForRange(startX: real, endX: real, starRand: Rand, treeRand: Rand): (c: Content)
    requires IsUnit(starRand) && IsUnit(treeRand)
    ensures c == Content(StarsForRange(startX, endX, starRand), TreesForRange(startX, endX, treeRand))
  {
    if startX >= endX then Content([], [])
    else Content(StarsForRange(startX, endX, starRand), TreesForRange(startX, endX, treeRand))
  }

  /** The range generateInitialContent fills: four screen widths around the origin. */
  const InitialLeft: real := -2.0 * CanvasWidth
  const InitialRight: real := 2.0 * CanvasWidth

  /**
   * generateInitialContent: fresh scenery for [-1600, 1600) replaces the old,
   * and the world bounds become that range.
   */
  function GenerateInitialContent(s: State, starRand: Rand, treeRand: Rand): (r: State)
    requires IsUnit(starRand) && IsUnit(treeRand)
    ensures r == s.(trees := r.trees, stars := r.stars, worldLeft := InitialLeft, worldRight := InitialRight)
    ensures |r.stars| == 1075
    ensures 10 <= |r.trees| <= 16
    ensures SceneryWithin(r, InitialLeft - 40.0, InitialRight)
  {
    var content := GenerateContentForRange(InitialLeft, InitialRight, starRand, treeRand);
    StarsInsideRange(InitialLeft, InitialRight, starRand);
    TreesInsideRange(InitialLeft, InitialRight, treeRand);
    InitialCounts(treeRand(0));
    s.(trees := content.trees, stars := content.stars, worldLeft := InitialLeft, worldRight := InitialRight)
  }

  lemma InitialCounts(r: real)
    requires 0.0 <= r < 1.0
    ensures StarCount(InitialRight - InitialLeft) == 1075
    ensures 10 <= TreeCount(InitialRight - InitialLeft, r) <= 16
  {
    assert MinTrees(3200.0) == 10;
    assert MaxTrees(3200.0) == 16;
  }

  /**
   * cleanupContent: keep exactly the trees and stars within one canvas width
   * of the given viewport edges, in order.
   */
  function CleanupContent(s: State, viewportLeft: real, viewportRight: real): (r: State)
    ensures r == s.(trees := r.trees, stars := r.stars)
    ensures SceneryWithin(r, viewportLeft - CanvasWidth, viewportRight + CanvasWidth)
    ensures forall t :: t in r.trees <==> t in s.trees && InBand(t.x, viewportLeft - CanvasWidth, viewportRight + CanvasWidth)
    ensures forall st :: st in r.stars <==> st in s.stars && InBand(st.x, viewportLeft - CanvasWidth, viewportRight + CanvasWidth)
  {
    s.(trees := KeepTrees(s.trees, viewportLeft - CanvasWidth, viewportRight + CanvasWidth),
       stars := KeepStars(s.stars, viewportLeft - CanvasWidth, viewportRight + CanvasWidth))
  }

  /** Cleaning up twice with the same edges is the same as cleaning up once. */
  lemma CleanupIdempotent(s: State, viewportLeft: real, viewportRight: real)
    ensures CleanupContent(CleanupContent(s, viewportLeft, viewportRight), viewportLeft, viewportRight)
         == CleanupContent(s, viewportLeft, viewportRight)
  {
    var lo, hi := viewportLeft - CanvasWidth, viewportRight + CanvasWidth;
    KeepTreesIdempotent(s.trees, lo, hi);
    KeepStarsIdempotent(s.stars, lo, hi);
  }

  lemma {:induction false} KeepTreesIdempotent(trees: seq<Tree>, lo: real, hi: real)
    ensures KeepTrees(KeepTrees(trees, lo, hi), lo, hi) == KeepTrees(trees, lo, hi)
  {
    if trees != [] {
      KeepTreesIdempotent(trees[1..], lo, hi);
      var rest := KeepTrees(trees[1..], lo, hi);
      if InBand(trees[0].x, lo, hi) {
        assert ([trees[0]] + rest)[1..] == rest;
      }
    }
  }

  lemma {:induction false} KeepStarsIdempotent(stars: seq<Star>, lo: real, hi: real)
    ensures KeepStars(KeepStars(stars, lo, hi), lo, hi) == KeepStars(stars, lo, hi)
  {
    if stars != [] {
      KeepStarsIdempotent(stars[1..], lo, hi);
      var rest := KeepStars(stars[1..], lo, hi);
      if InBand(stars[0].x, lo, hi) {
        assert ([stars[0]] + rest)[1..] == rest;
      }
    }
  }
}
