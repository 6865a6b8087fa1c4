/** The path refiner (`refinePath`): keeps the first point, then keeps a point only
    when it is at least `threshold` away from the last KEPT point on the x axis or on
    the y axis (a per-axis test, not a Euclidean one). */
module Refinement {
  import opened Numerics
  import opened CanvasMapping

  /** The threshold both call sites pass. */
  const DefaultThreshold: real := 3.0

  /** `refinePath`'s drop test: both axis differences stay below the threshold. */
  predicate Near(last: RealPoint, p: RealPoint, threshold: real)
  {
    Abs(p.x - last.x) < threshold && Abs(p.y - last.y) < threshold
  }

  /** What `refinePath` returns, as a fold from the left over the input. */
  function Refine(path: seq<RealPoint>, threshold: real): (r: seq<RealPoint>)
    ensures |r| <= |path|
    ensures |r| == 0 <==> |path| == 0
    ensures |path| > 0 ==> r[0] == path[0]
    decreases |path|
  {
    if |path| <= 1 then path
    else
      var kept := Refine(path[..|path| - 1], threshold);
      var p := path[|path| - 1];
      if Near(kept[|kept| - 1], p, threshold) then kept else kept + [p]
  }

  /** `refinePath`, loop and all. */
  method RefinePath(path: seq<RealPoint>, threshold: real) returns (refined: seq<RealPoint>)
    ensures refined == Refine(path, threshold)
  {
    if |path| == 0 {
      return [];
    }
    refined := [path[0]];
    for i := 1 to |path|
      invariant refined == Refine(path[..i], threshold)
    {
      assert path[..i + 1][..i] == path[..i];
      var prev := refined[|refined| - 1];
      var curr := path[i];
      var dx := Abs(curr.x - prev.x);
      var dy := Abs(curr.y - prev.y);
      if dx < threshold && dy < threshold {
        continue;
      }
      refined := refined + [curr];
    }
    assert path[..|path|] == path;
  }

  /** Positions of the kept points, computed by the same fold (proof witness only). */
  ghost function KeptIndices(path: seq<RealPoint>, threshold: real): (idx: seq<nat>)
    ensures |idx| == 0 <==> |path| == 0
    ensures forall k :: 0 <= k < |idx| ==> idx[k] < |path|
    decreases |path|
  {
    if |path| <= 1 then (if |path| == 0 then [] else [0])
    else
      var kept := KeptIndices(path[..|path| - 1], threshold);
      if Near(path[kept[|kept| - 1]], path[|path| - 1], threshold) then kept
      else kept + [|path| - 1]
  }

  /** Where the run of dropped points after the k-th kept point ends. */
  ghost function NextKept(idx: seq<nat>, k: nat, n: nat): (e: nat)
    requires k < |idx|
  {
    if k + 1 < |idx| then idx[k + 1] else n
  }

  /** The refined path is an order-preserving selection of the input that starts with
      its first point: kept point k is input point idx[k], and the positions strictly
      increase. */
  lemma {:induction false} RefineSelects(path: seq<RealPoint>, threshold: real)
    ensures |KeptIndices(path, threshold)| == |Refine(path, threshold)|
    ensures |path| > 0 ==> KeptIndices(path, threshold)[0] == 0
    ensures forall k :: 0 <= k < |KeptIndices(path, threshold)| ==>
      Refine(path, threshold)[k] == path[KeptIndices(path, threshold)[k]]
    ensures forall k :: 0 < k < |KeptIndices(path, threshold)| ==>
      KeptIndices(path, threshold)[k - 1] < KeptIndices(path, threshold)[k]
    decreases |path|
  {
    if |path| >= 2 {
      var n := |path|;
      var q := path[..n - 1];
      RefineSelects(q, threshold);
      var idx0, r0 := KeptIndices(q, threshold), Refine(q, threshold);
      var idx, r := KeptIndices(path, threshold), Refine(path, threshold);
      var last := idx0[|idx0| - 1];
      assert r0[|r0| - 1] == q[last] == path[last];
      forall k | 0 <= k < |idx0|
        ensures r0[k] == path[idx0[k]]
      {
        assert r0[k] == q[idx0[k]];
      }
      if Near(path[last], path[n - 1], threshold) {
        assert idx == idx0 && r == r0;
      } else {
        assert idx == idx0 + [n - 1] && r == r0 + [path[n - 1]];
        assert last < n - 1;
      }
    }
  }

  /** Every point strictly between the k-th kept position and the next one (or the end
      of the path) is Near the k-th kept point. */
  ghost predicate DropsOnlyNear(path: seq<RealPoint>, idx: seq<nat>, threshold: real)
  {
    forall k, i {:trigger idx[k], path[i]} :: 0 <= k < |idx| && idx[k] < i < NextKept(idx, k, |path|) && i < |path| ==>
      idx[k] < |path| && Near(path[idx[k]], path[i], threshold)
  }

  /** Every dropped point is within `threshold` on both axes of the last point kept
      before it. */
  lemma {:induction false} RefineDropsOnlyNear(path: seq<RealPoint>, threshold: real)
    ensures DropsOnlyNear(path, KeptIndices(path, threshold), threshold)
    decreases |path|
  {
    if |path| >= 2 {
      var n := |path|;
      var q := path[..n - 1];
      RefineDropsOnlyNear(q, threshold);
      var idx0, idx := KeptIndices(q, threshold), KeptIndices(path, threshold);
      var last := idx0[|idx0| - 1];
      if Near(path[last], path[n - 1], threshold) {
        assert idx == idx0;
        forall k, i {:trigger idx[k], path[i]} | 0 <= k < |idx| && idx[k] < i < NextKept(idx, k, n) && i < n
          ensures idx[k] < n && Near(path[idx[k]], path[i], threshold)
        {
          assert path[idx0[k]] == q[idx0[k]];
          if i < n - 1 {
            assert path[i] == q[i];
            assert i < NextKept(idx0, k, n - 1);
          } else {
            assert k + 1 == |idx0| && idx0[k] == last;
          }
        }
      } else {
        assert idx == idx0 + [n - 1];
        forall k, i {:trigger idx[k], path[i]} | 0 <= k < |idx| && idx[k] < i < NextKept(idx, k, n) && i < n
          ensures idx[k] < n && Near(path[idx[k]], path[i], threshold)
        {
          assert k < |idx0| && idx[k] == idx0[k];
          assert NextKept(idx, k, n) == NextKept(idx0, k, n - 1);
          assert path[i] == q[i] && path[idx0[k]] == q[idx0[k]];
        }
      }
    }
  }

  /** Consecutive points are never Near each other. */
  predicate Spaced(s: seq<RealPoint>, threshold: real)
  {
    forall k :: 0 < k < |s| ==> !Near(s[k - 1], s[k], threshold)
  }

  /** Every kept point after the first is at least `threshold` away from the previous
      kept point on the x axis or on the y axis. */
  lemma {:induction false} RefineSpaced(path: seq<RealPoint>, threshold: real)
    ensures Spaced(Refine(path, threshold), threshold)
    decreases |path|
  {
    if |path| >= 2 {
      var q := path[..|path| - 1];
      RefineSpaced(q, threshold);
      var r0, p := Refine(q, threshold), path[|path| - 1];
      if !Near(r0[|r0| - 1], p, threshold) {
        var r := r0 + [p];
        assert Refine(path, threshold) == r;
        forall k | 0 < k < |r|
          ensures !Near(r[k - 1], r[k], threshold)
        {
          if k < |r0| {
            assert r[k - 1] == r0[k - 1] && r[k] == r0[k];
          }
        }
      } else {
        assert Refine(path, threshold) == r0;
      }
    }
  }

  /** A path whose consecutive points are never Near each other is its own refinement. */
  lemma {:induction false} RefineKeepsSpacedPath(s: seq<RealPoint>, threshold: real)
    requires Spaced(s, threshold)
    ensures Refine(s, threshold) == s
    decreases |s|
  {
    if |s| >= 2 {
      var n := |s|;
      var q, p := s[..n - 1], s[n - 1];
      assert Spaced(q, threshold) by {
        forall k | 0 < k < |q|
          ensures !Near(q[k - 1], q[k], threshold)
        {
          assert q[k - 1] == s[k - 1] && q[k] == s[k];
        }
      }
      RefineKeepsSpacedPath(q, threshold);
      assert q[|q| - 1] == s[n - 2];
      assert !Near(s[n - 2], p, threshold);
      assert Refine(s, threshold) == q + [p];
      assert q + [p] == s;
    }
  }

  /** Refining a refined path with the same threshold changes nothing. */
  lemma RefineIdempotent(path: seq<RealPoint>, threshold: real)
    ensures Refine(Refine(path, threshold), threshold) == Refine(path, threshold)
  {
    RefineSpaced(path, threshold);
    RefineKeepsSpacedPath(Refine(path, threshold), threshold);
  }

  /** The per-axis test is not a Euclidean one: a diagonal step of 2.9 cm on each axis
      (about 4.1 cm long) is dropped with the default threshold. */
  lemma DiagonalStepDropped()
    ensures Refine([RealPoint(0.0, 0.0), RealPoint(2.9, 2.9)], DefaultThreshold) == [RealPoint(0.0, 0.0)]
  {
    var path := [RealPoint(0.0, 0.0), RealPoint(2.9, 2.9)];
    assert path[..1] == [RealPoint(0.0, 0.0)];
  }
}
