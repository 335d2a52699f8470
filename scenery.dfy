/**
 * Background scenery of the infinite world (static/js/game.js,
 * generateStarsForRange, generateTreesForRange and the range filters used by
 * checkContentGeneration and cleanupContent).
 *
 * Every `Math.random()` draw comes from a stream `rand` of reals in [0, 1),
 * read in the order the source draws them.
 */
module Scenery {

  /** A stream of `Math.random()` results: the i-th draw is `rand(i)`. */
  type Rand = nat -> real

  ghost predicate IsUnit(rand: Rand)
  {
    forall i :: 0.0 <= rand(i) < 1.0
  }

  /** Stars per square pixel. */
  const StarDensity: real := 0.0008
  /** Stars live in the top 70% of the 600-pixel-high canvas. */
  const StarBandHeight: real := 420.0
  /** Trees per range: at least one per 300 pixels ... */
  const TreeSpacing: real := 300.0
  /** ... and at most one per 200 pixels. */
  const MinTreeSpacing: real := 200.0
  const Pi: real := 3.141592653589793

  datatype Star = Star(x: real, y: real, size: real, twinkle: real, baseOpacity: real)
  datatype Tree = Tree(x: real, y: real, size: real)

  function Max(a: int, b: int): int { if a >= b then a else b }
  function MinReal(a: real, b: real): real { if a <= b then a else b }

  lemma ScaledBelow(r: real, w: real)
    requires 0.0 <= r < 1.0 && w > 0.0
    ensures 0.0 <= r * w < w
  {
    assert (1.0 - r) * w > 0.0;
  }

  // ---------------------------------------------------------------- stars

  /** `Math.floor(area * STAR_DENSITY)` for a band of the given width. */
  function StarCount(width: real): (n: int)
    requires width > 0.0
    ensures n >= 0
  {
    (width * StarBandHeight * StarDensity).Floor
  }

  /** The i-th star of a range: it uses draws 5i .. 5i+4 (x, y, size, twinkle, brightness). */
  function MakeStar(startX: real, width: real, rand: Rand, i: nat): Star
  {
    var k := 5 * i;
    Star(startX + rand(k) * width,
         rand(k + 1) * StarBandHeight,
         0.5 + rand(k + 2) * 1.5,
         rand(k + 3) * Pi,
         0.3 + (1.0 - rand(k + 4) * StarBandHeight / StarBandHeight) * 0.7)
  }

  /** generateStarsForRange: empty for an inverted or empty range, else a density-determined count of stars. */
  function StarsForRange(startX: real, endX: real, rand: Rand): (stars: seq<Star>)
    requires IsUnit(rand)
    ensures startX >= endX ==> stars == []
    ensures startX < endX ==> |stars| == StarCount(endX - startX)
  {
    if startX >= endX then []
    else
      var width := endX - startX;
      seq(StarCount(width), i requires 0 <= i => MakeStar(startX, width, rand, i))
  }

  lemma StarInsideRange(startX: real, width: real, rand: Rand, i: nat)
    requires IsUnit(rand) && width > 0.0
    ensures var s := MakeStar(startX, width, rand, i);
      startX <= s.x < startX + width && 0.0 <= s.y < StarBandHeight && 0.5 <= s.size < 2.0
  {
    var r0, r1, r2 := rand(5 * i), rand(5 * i + 1), rand(5 * i + 2);
    ScaledBelow(r0, width);
    ScaledBelow(r1, StarBandHeight);
    ScaledBelow(r2, 1.5);
  }

  /** Every generated star lies in [startX, endX) and in the star band. */
  lemma StarsInsideRange(startX: real, endX: real, rand: Rand)
    requires IsUnit(rand)
    ensures forall s :: s in StarsForRange(startX, endX, rand) ==>
      startX <= s.x < endX && 0.0 <= s.y < StarBandHeight && 0.5 <= s.size < 2.0
  {
    var stars := StarsForRange(startX, endX, rand);
    forall i | 0 <= i < |stars|
      ensures startX <= stars[i].x < endX && 0.0 <= stars[i].y < StarBandHeight && 0.5 <= stars[i].size < 2.0
    {
      StarInsideRange(startX, endX - startX, rand, i);
    }
  }

  // ---------------------------------------------------------------- trees

  /** `max(2, floor(width / TREE_SPACING))`. */
  function MinTrees(width: real): int
  {
    Max(2, (width / TreeSpacing).Floor)
  }

  /** `floor(width / MIN_TREE_SPACING)`. */
  function MaxTrees(width: real): int
  {
    (width / MinTreeSpacing).Floor
  }

  /**
   * `minTrees + floor(r * (maxTrees - minTrees + 1))`. For ranges narrower than
   * 400 pixels the bounds cross and the count is 1 or 2, never 0.
   */
  function TreeCount(width: real, r: real): (n: int)
    requires width > 0.0 && 0.0 <= r < 1.0
    ensures n >= 1
    ensures width >= 400.0 ==> MinTrees(width) <= n <= MaxTrees(width)
  {
    var lo, hi := MinTrees(width), MaxTrees(width);
    TreeCountBounds(width, r, lo, hi);
    lo + (r * (hi - lo + 1) as real).Floor
  }

  lemma TreeCountBounds(width: real, r: real, lo: int, hi: int)
    requires width > 0.0 && 0.0 <= r < 1.0
    requires lo == MinTrees(width) && hi == MaxTrees(width)
    ensures lo + (r * (hi - lo + 1) as real).Floor >= 1
    ensures width >= 400.0 ==> lo <= lo + (r * (hi - lo + 1) as real).Floor <= hi
  {
    var k := hi - lo + 1;
    SpanBounds(width, lo, hi);
    var x := r * k as real;
    if k >= 1 {
      ScaledFloor(r, k);
    } else if k == 0 {
      assert x == 0.0;
    } else {
      assert x == -r;
    }
  }

  /** The count range is never inverted by more than one, and is proper from 400 pixels on. */
  lemma SpanBounds(width: real, lo: int, hi: int)
    requires width > 0.0
    requires lo == MinTrees(width) && hi == MaxTrees(width)
    ensures lo >= 2 && hi - lo + 1 >= -1
    ensures width >= 400.0 ==> hi - lo + 1 >= 1
  {
    assert width / TreeSpacing <= width / MinTreeSpacing;
    assert hi >= 0;
    if width >= 400.0 {
      assert hi >= 2;
    }
  }

  /** A draw in [0, 1) scaled by k >= 1 floors to one of 0 .. k - 1. */
  lemma ScaledFloor(r: real, k: int)
    requires 0.0 <= r < 1.0 && k >= 1
    ensures 0 <= (r * k as real).Floor <= k - 1
  {
    var x := r * k as real;
    ScaledBelow(r, k as real);
    assert 0.0 <= x < k as real;
  }

  /** The jitter limit: `min(segmentWidth * 0.4, MIN_TREE_SPACING * 0.4)`. */
  function MaxOffset(segment: real): real
  {
    MinReal(segment * 0.4, MinTreeSpacing * 0.4)
  }

  /** The i-th tree of a range: draws 3i+1 (jitter), 3i+2 (height) and 3i+3 (size); draw 0 chose the count. */
  function MakeTree(startX: real, segment: real, rand: Rand, i: nat): Tree
  {
    var baseX := startX + i as real * segment;
    Tree(baseX + (rand(3 * i + 1) - 0.5) * MaxOffset(segment),
         rand(3 * i + 2) * 100.0,
         0.7 + rand(3 * i + 3) * 0.6)
  }

  /** generateTreesForRange: empty for an inverted or empty range, else one jittered tree per equal segment. */
  function TreesForRange(startX: real, endX: real, rand: Rand): (trees: seq<Tree>)
    requires IsUnit(rand)
    ensures startX >= endX ==> trees == []
    ensures startX < endX ==> |trees| == TreeCount(endX - startX, rand(0)) >= 1
  {
    if startX >= endX then []
    else
      var width := endX - startX;
      var n := TreeCount(width, rand(0));
      seq(n, i requires 0 <= i < n => MakeTree(startX, width / n as real, rand, i))
  }

  /** A jitter `(r - 0.5) * m` with r in [0, 1) lies in [-m/2, m/2). */
  lemma JitterBounds(r: real, m: real, j: real)
    requires 0.0 <= r < 1.0 && m > 0.0 && j == (r - 0.5) * m
    ensures -0.5 * m <= j < 0.5 * m
  {
    assert j + 0.5 * m == r * m;
    ScaledBelow(r, m);
  }

  lemma SegmentProduct(width: real, n: int, i: int)
    requires width > 0.0 && 0 <= i < n
    ensures 0.0 <= i as real * (width / n as real) <= width - width / n as real
  {
    var seg := width / n as real;
    assert n as real * seg == width;
    assert (n - 1 - i) as real * seg >= 0.0;
    assert i as real * seg == (n - 1) as real * seg - (n - 1 - i) as real * seg;
  }

  lemma TreeInsideRange(startX: real, width: real, n: int, rand: Rand, i: nat)
    requires IsUnit(rand) && width > 0.0 && i < n
    ensures var t := MakeTree(startX, width / n as real, rand, i);
      startX - 40.0 <= t.x < startX + width && 0.0 <= t.y < 100.0
  {
    var seg := width / n as real;
    var m := MaxOffset(seg);
    SegmentAndJitter(width, n, i, rand(3 * i + 1));
    ScaledBelow(rand(3 * i + 2), 100.0);
  }

  lemma SegmentAndJitter(width: real, n: int, i: nat, r: real)
    requires width > 0.0 && i < n && 0.0 <= r < 1.0
    ensures var seg := width / n as real;
      -40.0 <= i as real * seg + (r - 0.5) * MaxOffset(seg) < width
  {
    var seg := width / n as real;
    var m := MaxOffset(seg);
    SegmentProduct(width, n, i);
    JitterBounds(r, m, (r - 0.5) * m);
    LinearTreeBound(width, seg, i as real * seg, m, (r - 0.5) * m);
  }

  lemma LinearTreeBound(width: real, seg: real, base: real, m: real, off: real)
    requires seg > 0.0 && 0.0 <= base <= width - seg
    requires 0.0 < m <= 0.4 * seg && m <= 80.0
    requires -0.5 * m <= off < 0.5 * m
    ensures -40.0 <= base + off < width
  {
  }

  /** Every generated tree lies in [startX - 40, endX): the jitter never pushes one past the range's end. */
  lemma TreesInsideRange(startX: real, endX: real, rand: Rand)
    requires IsUnit(rand)
    ensures forall t :: t in TreesForRange(startX, endX, rand) ==>
      startX - 40.0 <= t.x < endX && 0.0 <= t.y < 100.0
  {
    var trees := TreesForRange(startX, endX, rand);
    forall i | 0 <= i < |trees|
      ensures startX - 40.0 <= trees[i].x < endX && 0.0 <= trees[i].y < 100.0
    {
      TreeInsideRange(startX, endX - startX, TreeCount(endX - startX, rand(0)), rand, i);
    }
  }

  /**
   * Within one generated range the trees run strictly left to right; when the
   * range is at least 400 pixels wide, neighbours are more than 120 pixels apart.
   */
  lemma TreesSpaced(startX: real, endX: real, rand: Rand, i: nat)
    requires IsUnit(rand)
    requires i + 1 < |TreesForRange(startX, endX, rand)|
    ensures TreesForRange(startX, endX, rand)[i].x < TreesForRange(startX, endX, rand)[i + 1].x
    ensures endX - startX >= 400.0 ==>
      TreesForRange(startX, endX, rand)[i + 1].x - TreesForRange(startX, endX, rand)[i].x > 120.0
  {
    var width := endX - startX;
    var n := TreeCount(width, rand(0));
    var seg := width / n as real;
    SegmentPositive(width, n);
    assert TreesForRange(startX, endX, rand)[i] == MakeTree(startX, seg, rand, i);
    assert TreesForRange(startX, endX, rand)[i + 1] == MakeTree(startX, seg, rand, i + 1);
    if width >= 400.0 {
      SegmentAtLeast(width, n);
    }
    NeighbourTrees(startX, seg, rand(3 * i + 1), rand(3 * (i + 1) + 1), rand, i);
  }

  /** Neighbouring trees of one segment layout. */
  lemma NeighbourTrees(startX: real, seg: real, a: real, b: real, rand: Rand, i: nat)
    requires seg > 0.0 && 0.0 <= a < 1.0 && 0.0 <= b < 1.0
    requires a == rand(3 * i + 1) && b == rand(3 * (i + 1) + 1)
    ensures MakeTree(startX, seg, rand, i).x < MakeTree(startX, seg, rand, i + 1).x
    ensures seg >= MinTreeSpacing ==> MakeTree(startX, seg, rand, i + 1).x - MakeTree(startX, seg, rand, i).x > 120.0
  {
    var m := MaxOffset(seg);
    var ja, jb := (a - 0.5) * m, (b - 0.5) * m;
    var base := startX + i as real * seg;
    NextBase(startX, seg, i);
    NeighbourGap(seg, a, b, ja, jb);
    LinearSpacing(MakeTree(startX, seg, rand, i).x, MakeTree(startX, seg, rand, i + 1).x, base, seg, ja, jb);
  }

  lemma LinearSpacing(xa: real, xb: real, base: real, seg: real, ja: real, jb: real)
    requires seg > 0.0 && xa == base + ja && xb == base + seg + jb
    requires seg + jb - ja > 0.6 * seg
    requires seg >= MinTreeSpacing ==> seg + jb - ja > 120.0
    ensures xa < xb && (seg >= MinTreeSpacing ==> xb - xa > 120.0)
  {
  }

  lemma SegmentPositive(width: real, n: int)
    requires width > 0.0 && n >= 1
    ensures width / n as real > 0.0
  {
  }

  lemma NextBase(startX: real, seg: real, i: nat)
    ensures startX + (i + 1) as real * seg == startX + i as real * seg + seg
  {
  }

  /** Two neighbouring jitters leave neighbours more than `seg - MaxOffset(seg)` apart. */
  lemma NeighbourGap(seg: real, a: real, b: real, ja: real, jb: real)
    requires seg > 0.0 && 0.0 <= a < 1.0 && 0.0 <= b < 1.0
    requires ja == (a - 0.5) * MaxOffset(seg) && jb == (b - 0.5) * MaxOffset(seg)
    ensures seg + jb - ja > 0.6 * seg
    ensures seg >= MinTreeSpacing ==> seg + jb - ja > 120.0
  {
    var m := MaxOffset(seg);
    assert 0.0 < m <= 0.4 * seg && m <= 80.0;
    JitterBounds(a, m, ja);
    JitterBounds(b, m, jb);
    LinearGap(seg, m, ja, jb);
  }

  lemma LinearGap(seg: real, m: real, ja: real, jb: real)
    requires 0.0 < m <= 0.4 * seg && m <= 80.0
    requires -0.5 * m <= ja < 0.5 * m && -0.5 * m <= jb < 0.5 * m
    ensures seg + jb - ja > seg - m >= 0.6 * seg
    ensures seg >= MinTreeSpacing ==> seg + jb - ja > 120.0
  {
  }

  lemma SegmentAtLeast(width: real, n: int)
    requires width >= 400.0 && 1 <= n <= MaxTrees(width)
    ensures width / n as real >= MinTreeSpacing
  {
    var seg := width / n as real;
    assert n as real <= width / MinTreeSpacing;
    assert n as real * MinTreeSpacing <= width;
    assert n as real * seg == width;
    if seg < MinTreeSpacing {
      assert n as real * seg < n as real * MinTreeSpacing;
    }
  }

  /** The i-th tree of a non-empty range is the layout tree of its segment. */
  lemma TreeOfRange(startX: real, endX: real, rand: Rand, n: int, i: nat)
    requires IsUnit(rand) && startX < endX && n == TreeCount(endX - startX, rand(0)) && i < n
    ensures TreesForRange(startX, endX, rand)[i] == MakeTree(startX, (endX - startX) / n as real, rand, i)
  {
  }

  /** One iteration of the loop: the segment's base plus a bounded random jitter. */
  method PlaceTree(startX: real, segmentWidth: real, rand: Rand, i: nat) returns (tree: Tree)
    ensures tree == MakeTree(startX, segmentWidth, rand, i)
  {
    var baseX := startX + i as real * segmentWidth;
    var maxOffset := MinReal(segmentWidth * 0.4, MinTreeSpacing * 0.4);
    var randomOffset := (rand(3 * i + 1) - 0.5) * maxOffset;
    tree := Tree(baseX + randomOffset, rand(3 * i + 2) * 100.0, 0.7 + rand(3 * i + 3) * 0.6);
  }

  /** The `for` loop of generateTreesForRange, pushing one tree per segment. */
  method GenerateTreesForRange(startX: real, endX: real, rand: Rand) returns (trees: seq<Tree>)
    requires IsUnit(rand)
    ensures trees == TreesForRange(startX, endX, rand)
  {
    if startX >= endX {
      return [];
    }
    var width := endX - startX;
    var minTrees := Max(2, (width / TreeSpacing).Floor);
    var maxTrees := (width / MinTreeSpacing).Floor;
    var treeCount := minTrees + (rand(0) * (maxTrees - minTrees + 1) as real).Floor;
    assert treeCount == TreeCount(width, rand(0));
    ghost var all := TreesForRange(startX, endX, rand);
    trees := [];
    var segmentWidth := width / treeCount as real;
    for i := 0 to treeCount
      invariant |all| == treeCount
      invariant trees == all[..i]
    {
      var tree := PlaceTree(startX, segmentWidth, rand, i);
      TreeOfRange(startX, endX, rand, treeCount, i);
      trees := trees + [tree];
      assert trees == all[..i + 1];
    }
    assert all[..treeCount] == all;
  }

  // ---------------------------------------------------------------- eviction

  /** Whether a scenery x-coordinate is kept by a filter `x >= lo && x <= hi`. */
  predicate InBand(x: real, lo: real, hi: real)
  {
    x >= lo && x <= hi
  }

  /** `trees.filter(t => t.x >= lo && t.x <= hi)`: the kept trees, in order. */
  function KeepTrees(trees: seq<Tree>, lo: real, hi: real): (r: seq<Tree>)
    ensures forall t :: t in r <==> t in trees && InBand(t.x, lo, hi)
    ensures |r| <= |trees|
  {
    if trees == [] then []
    else
      var rest := KeepTrees(trees[1..], lo, hi);
      if InBand(trees[0].x, lo, hi) then [trees[0]] + rest else rest
  }

  /** `stars.filter(s => s.x >= lo && s.x <= hi)`: the kept stars, in order. */
  function KeepStars(stars: seq<Star>, lo: real, hi: real): (r: seq<Star>)
    ensures forall s :: s in r <==> s in stars && InBand(s.x, lo, hi)
    ensures |r| <= |stars|
  {
    if stars == [] then []
    else
      var rest := KeepStars(stars[1..], lo, hi);
      if InBand(stars[0].x, lo, hi) then [stars[0]] + rest else rest
  }
}
