/** The canvas-to-ground mapping: a touch point in canvas pixels becomes a point on
    the robot's 100 cm x 100 cm ground, with the y axis flipped (the canvas origin is
    its top-left corner, the ground origin its bottom-left corner) and both
    coordinates rounded to two decimals. */
module CanvasMapping {
  import opened Numerics

  const CanvasWidth: real := 500.0
  const CanvasHeight: real := 500.0
  const GroundWidthCm: real := 100.0
  const GroundHeightCm: real := 100.0
  const ScaleX: real := GroundWidthCm / CanvasWidth
  const ScaleY: real := GroundHeightCm / CanvasHeight

  /** A touch point, in canvas pixels. */
  datatype CanvasPoint = CanvasPoint(x: real, y: real)

  /** A point on the ground, in centimetres (`App.tsx`'s `[number, number]` pair). */
  datatype RealPoint = RealPoint(x: real, y: real)

  /** `insideCanvas`: the touch handlers only record points for which this holds. */
  predicate InsideCanvas(x: real, y: real)
  {
    0.0 <= x <= CanvasWidth && 0.0 <= y <= CanvasHeight
  }

  /** One point of the `map` expression that builds the real-world paths. */
  function ToRealWorld(p: CanvasPoint): (q: RealPoint)
    ensures Abs(q.x - p.x * ScaleX) <= 0.005
    ensures Abs(q.y - (CanvasHeight - p.y) * ScaleY) <= 0.005
    ensures IsCents(q.x) && IsCents(q.y)
  {
    RealPoint(ToFixed2(p.x * ScaleX), ToFixed2((CanvasHeight - p.y) * ScaleY))
  }

  /** A stroke mapped point by point, order kept: every mapped coordinate has two
      decimals. */
  function RealWorldPath(path: seq<CanvasPoint>): (r: seq<RealPoint>)
    ensures |r| == |path|
    ensures forall i :: 0 <= i < |r| ==> IsCents(r[i].x) && IsCents(r[i].y)
  {
    seq(|path|, i requires 0 <= i < |path| => ToRealWorld(path[i]))
  }

  /** Every stroke of the drawing mapped, stroke order kept. */
  function RealWorldPaths(paths: seq<seq<CanvasPoint>>): (r: seq<seq<RealPoint>>)
    ensures |r| == |paths|
  {
    seq(|paths|, i requires 0 <= i < |paths| => RealWorldPath(paths[i]))
  }

  /** `toFixed(2)` is monotone: a bound that has two decimals survives rounding. */
  lemma ToFixed2Between(v: real, lo: real, hi: real)
    requires 0.0 <= lo <= v <= hi
    requires IsCents(lo) && IsCents(hi)
    ensures lo <= ToFixed2(v) <= hi
  {
    var n := (v * 100.0 + 0.5).Floor;
    var a, b := (lo * 100.0).Floor, (hi * 100.0).Floor;
    assert a as real == lo * 100.0 && b as real == hi * 100.0;
    assert a as real <= v * 100.0 + 0.5;
    assert a <= n;
    assert n as real <= v * 100.0 + 0.5 <= b as real + 0.5;
    assert n <= b;
    assert ToFixed2(v) == n as real / 100.0;
  }

  /** A point inside the canvas lands on the ground square. */
  lemma InsideCanvasOnGround(p: CanvasPoint)
    requires InsideCanvas(p.x, p.y)
    ensures 0.0 <= ToRealWorld(p).x <= GroundWidthCm
    ensures 0.0 <= ToRealWorld(p).y <= GroundHeightCm
  {
    assert IsCents(0.0) && IsCents(100.0);
    assert ScaleX == 0.2 && ScaleY == 0.2;
    var u, v := p.x * ScaleX, (CanvasHeight - p.y) * ScaleY;
    assert 0.0 <= u <= 100.0 && 0.0 <= v <= 100.0;
    ToFixed2Between(u, 0.0, 100.0);
    ToFixed2Between(v, 0.0, 100.0);
    assert ToRealWorld(p).x == ToFixed2(u);
    assert ToRealWorld(p).y == ToFixed2(v);
  }

  /** The y axis is flipped: the top edge of the canvas is the far edge of the ground,
      the bottom edge its near edge. */
  lemma YAxisFlipped(x: real)
    ensures ToRealWorld(CanvasPoint(x, 0.0)).y == GroundHeightCm
    ensures ToRealWorld(CanvasPoint(x, CanvasHeight)).y == 0.0
  {
    assert IsCents(100.0) && IsCents(0.0);
    ToFixed2Exact(100.0);
    ToFixed2Exact(0.0);
  }

  /** Mapped coordinates already carry two decimals, so rounding them again (as a
      second pass of the mapping's `toFixed(2)`) changes nothing: recomputing the
      refined path from mapped points is reproducible. */
  lemma MappedPointsStable(p: CanvasPoint)
    ensures ToFixed2(ToRealWorld(p).x) == ToRealWorld(p).x
    ensures ToFixed2(ToRealWorld(p).y) == ToRealWorld(p).y
  {
    ToFixed2Exact(ToRealWorld(p).x);
    ToFixed2Exact(ToRealWorld(p).y);
  }
}
