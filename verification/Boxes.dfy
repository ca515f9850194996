/** Bounding boxes in u32 pixel coordinates and their intersection over union. */
module Boxes {
  import opened Common

  const WRAP: nat := 0x1_0000_0000

  type U32 = n: nat | n < WRAP

  function Wrap(n: nat): U32 {
    n % WRAP
  }

  datatype BoundingBox = BoundingBox(x: U32, y: U32, width: U32, height: U32)

  function Area(width: nat, height: nat): nat {
    width * height
  }

  function Left(a: BoundingBox, b: BoundingBox): nat {
    Max(a.x, b.x)
  }

  function Top(a: BoundingBox, b: BoundingBox): nat {
    Max(a.y, b.y)
  }

  function Right(a: BoundingBox, b: BoundingBox): nat {
    Min(Wrap(a.x + a.width), Wrap(b.x + b.width))
  }

  function Bottom(a: BoundingBox, b: BoundingBox): nat {
    Min(Wrap(a.y + a.height), Wrap(b.y + b.height))
  }

  function Quotient(n: real, d: real): real {
    if d <= 0.0 then 0.0 else n / d
  }

  /** `iou` with the wrap-around of an optimised build made explicit. */
  function Iou(a: BoundingBox, b: BoundingBox): real {
    var x1, y1, x2, y2 := Left(a, b), Top(a, b), Right(a, b), Bottom(a, b);
    if x2 <= x1 || y2 <= y1 then 0.0
    else
      var intersection := Area(x2 - x1, y2 - y1);
      var areas := Wrap(Wrap(Area(a.width, a.height)) + Wrap(Area(b.width, b.height)));
      Quotient(intersection as real, areas as real - intersection as real)
  }

  /** The lattice points of the rectangle [x1, x2) by [y1, y2). */
  ghost function Grid(x1: nat, x2: nat, y1: nat, y2: nat): set<(nat, nat)> {
    set x: nat, y: nat | x1 <= x < x2 && y1 <= y < y2 :: (x, y)
  }

  ghost function Pixels(b: BoundingBox): set<(nat, nat)> {
    Grid(b.x, b.x + b.width, b.y, b.y + b.height)
  }

  predicate NonEmpty(b: BoundingBox) {
    b.width > 0 && b.height > 0
  }

  /** No u32 operation of `iou` wraps around. */
  predicate NoOverflow(a: BoundingBox, b: BoundingBox) {
    && a.x + a.width < WRAP && a.y + a.height < WRAP
    && b.x + b.width < WRAP && b.y + b.height < WRAP
    && Area(a.width, a.height) + Area(b.width, b.height) < WRAP
  }

  lemma {:induction false} ColumnSize(x: nat, y1: nat, y2: nat)
    requires y1 <= y2
    ensures |Grid(x, x + 1, y1, y2)| == y2 - y1
    decreases y2
  {
    if y1 == y2 {
      assert Grid(x, x + 1, y1, y2) == {};
    } else {
      ColumnSize(x, y1, y2 - 1);
      assert Grid(x, x + 1, y1, y2) == Grid(x, x + 1, y1, y2 - 1) + {(x, y2 - 1)};
    }
  }

  lemma AreaStep(width: nat, height: nat)
    ensures Area(0, height) == 0
    ensures Area(width + 1, height) == Area(width, height) + height
  {
  }

  lemma GridSplit(x1: nat, x2: nat, y1: nat, y2: nat)
    requires x1 < x2
    ensures Grid(x1, x2, y1, y2) == Grid(x1, x2 - 1, y1, y2) + Grid(x2 - 1, x2, y1, y2)
    ensures Grid(x1, x2 - 1, y1, y2) !! Grid(x2 - 1, x2, y1, y2)
  {
  }

  lemma GridEmpty(x: nat, y1: nat, y2: nat)
    ensures Grid(x, x, y1, y2) == {}
  {
  }

  lemma {:induction false} GridSize(x1: nat, x2: nat, y1: nat, y2: nat)
    requires x1 <= x2 && y1 <= y2
    ensures |Grid(x1, x2, y1, y2)| == Area(x2 - x1, y2 - y1)
    decreases x2
  {
    hide Area, Grid;
    if x1 == x2 {
      AreaStep(0, y2 - y1);
      GridEmpty(x1, y1, y2);
    } else {
      GridSize(x1, x2 - 1, y1, y2);
      ColumnSize(x2 - 1, y1, y2);
      GridSplit(x1, x2, y1, y2);
      AreaStep(x2 - 1 - x1, y2 - y1);
    }
  }

  /** No coordinate wraps around. */
  predicate InRange(b: BoundingBox) {
    b.x + b.width < WRAP && b.y + b.height < WRAP
  }

  lemma Intersection(a: BoundingBox, b: BoundingBox)
    requires InRange(a) && InRange(b)
    ensures Pixels(a) * Pixels(b) == Grid(Left(a, b), Right(a, b), Top(a, b), Bottom(a, b))
  {
    assert Right(a, b) == Min(a.x + a.width, b.x + b.width);
    assert Bottom(a, b) == Min(a.y + a.height, b.y + b.height);
    hide Right, Bottom, Wrap;
  }

  lemma UnionSize<T>(a: set<T>, b: set<T>)
    ensures |a + b| == |a| + |b| - |a * b|
  {
    assert a + b == a + (b - a);
    assert b == (b - a) + (a * b);
  }

  /** The overlap that `iou` computes is the number of pixels that lie in both boxes. */
  lemma OverlapArea(a: BoundingBox, b: BoundingBox)
    requires InRange(a) && InRange(b)
    ensures var x1, y1, x2, y2 := Left(a, b), Top(a, b), Right(a, b), Bottom(a, b);
            |Pixels(a) * Pixels(b)| == if x2 <= x1 || y2 <= y1 then 0 else Area(x2 - x1, y2 - y1)
  {
    hide Area;
    var x1, y1, x2, y2 := Left(a, b), Top(a, b), Right(a, b), Bottom(a, b);
    Intersection(a, b);
    if x2 <= x1 || y2 <= y1 {
      assert Grid(x1, x2, y1, y2) == {};
    } else {
      GridSize(x1, x2, y1, y2);
    }
  }

  lemma PixelCount(b: BoundingBox)
    ensures |Pixels(b)| == Area(b.width, b.height)
  {
    GridSize(b.x, b.x + b.width, b.y, b.y + b.height);
  }

  /** Without overflow, `iou` is the number of pixels in both boxes over the number in either. */
  lemma IouIsPixelRatio(a: BoundingBox, b: BoundingBox)
    requires NonEmpty(a) && NonEmpty(b) && NoOverflow(a, b)
    ensures |Pixels(a) + Pixels(b)| > 0
    ensures Iou(a, b) == |Pixels(a) * Pixels(b)| as real / |Pixels(a) + Pixels(b)| as real
  {
    hide Area, Grid, Left, Right, Top, Bottom, Iou, Wrap;
    OverlapArea(a, b);
    PixelCount(a);
    PixelCount(b);
    UnionSize(Pixels(a), Pixels(b));
    HasPixel(a);
    assert Pixels(a) + Pixels(b) != {};
    IouFormula(a, b, |Pixels(a) * Pixels(b)|, |Pixels(a) + Pixels(b)|);
  }

  lemma IouFormula(a: BoundingBox, b: BoundingBox, n: nat, d: nat)
    requires NoOverflow(a, b) && d > 0 && d == Area(a.width, a.height) + Area(b.width, b.height) - n
    requires var x1, y1, x2, y2 := Left(a, b), Top(a, b), Right(a, b), Bottom(a, b);
             n == if x2 <= x1 || y2 <= y1 then 0 else Area(x2 - x1, y2 - y1)
    ensures Iou(a, b) == n as real / d as real
  {
    hide Area, Left, Right, Top, Bottom;
    var total := Area(a.width, a.height) + Area(b.width, b.height);
    assert Wrap(Wrap(Area(a.width, a.height)) + Wrap(Area(b.width, b.height))) == total;
    assert total as real - n as real == d as real;
  }

  lemma HasPixel(b: BoundingBox)
    requires NonEmpty(b)
    ensures (b.x, b.y) in Pixels(b)
  {
  }

  lemma SubsetSize<T>(a: set<T>, b: set<T>)
    requires a <= b
    ensures |a| <= |b|
    ensures |a| == |b| ==> a == b
  {
    assert b == a + (b - a);
  }

  lemma SamePixels(a: BoundingBox, b: BoundingBox)
    requires NonEmpty(a) && NonEmpty(b) && Pixels(a) == Pixels(b)
    ensures a == b
  {
    assert (a.x, a.y) in Pixels(a) && (b.x, b.y) in Pixels(b);
    assert (a.x + a.width - 1, a.y + a.height - 1) in Pixels(a);
    assert (b.x + b.width - 1, b.y + b.height - 1) in Pixels(b);
  }

  /** Hence it is symmetric, lies between 0 and 1, is positive exactly for boxes that
      share a pixel, and is 1 exactly for equal boxes. */
  lemma IouIsSimilarity(a: BoundingBox, b: BoundingBox)
    requires NonEmpty(a) && NonEmpty(b) && NoOverflow(a, b)
    ensures Iou(a, b) == Iou(b, a)
    ensures 0.0 <= Iou(a, b) <= 1.0
    ensures Iou(a, b) > 0.0 <==> Pixels(a) * Pixels(b) != {}
    ensures Iou(a, b) == 1.0 <==> a == b
  {
    hide Iou, Pixels, Area;
    IouIsPixelRatio(a, b);
    IouIsPixelRatio(b, a);
    var p, q := Pixels(a), Pixels(b);
    assert p * q == q * p && p + q == q + p;
    SubsetSize(p * q, p + q);
    Ratio(|p * q|, |p + q|);
    if |p * q| == |p + q| {
      assert p * q == p + q;
      assert p == q;
      SamePixels(a, b);
    }
    if a == b {
      assert p * q == p + q;
    }
  }

  lemma Ratio(n: nat, d: nat)
    requires n <= d && d > 0
    ensures 0.0 <= n as real / d as real <= 1.0
    ensures n as real / d as real == 1.0 <==> n == d
    ensures n as real / d as real > 0.0 <==> n > 0
  {
    var r := n as real / d as real;
    assert r * d as real == n as real;
  }

  /** The overflow condition is needed: a non-empty box matches itself fully exactly
      when no operation on it wraps around. */
  lemma SelfIou(a: BoundingBox)
    requires NonEmpty(a)
    ensures Iou(a, a) == 1.0 <==> NoOverflow(a, a)
  {
    hide Area;
    if InRange(a) {
      PixelCount(a);
      HasPixel(a);
      var area := Area(a.width, a.height);
      assert area > 0;
      assert Right(a, a) - Left(a, a) == a.width && Bottom(a, a) - Top(a, a) == a.height;
      WrapTwice(area);
      OneMeansEqual(area as real, Wrap(Wrap(area) + Wrap(area)) as real - area as real);
    }
  }

  lemma WrapTwice(n: nat)
    ensures Wrap(Wrap(n) + Wrap(n)) == n + n <==> n + n < WRAP
  {
  }

  lemma OneMeansEqual(n: real, d: real)
    requires n > 0.0
    ensures Quotient(n, d) == 1.0 <==> n == d
  {
    if d > 0.0 {
      assert n / d * d == n;
      assert d / d == 1.0;
    }
  }
}
