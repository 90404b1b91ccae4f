/**
 * `process_full_mask`: from a segmentation mask to the four-vertex polygon
 * outlining the card in it, or nothing. The OpenCV calls it makes are
 * supplied as plain functions in a `Geometry` record; what is modelled is
 * the decision logic around them.
 */
module MaskQuad {
  import opened Options
  import opened Points

  /** A binary mask, true where the pixel is set (255). */
  type Mask = seq<seq<bool>>

  /** A contour as OpenCV returns it: its points in order. */
  type Contour = seq<Point>

  /**
   * The OpenCV operations the function calls: `morphologyEx` closing with a
   * 5 by 5 kernel, `findContours` (external contours, simple chains),
   * `contourArea`, `convexHull`, `arcLength` of the closed curve, and
   * `approxPolyDP` of the closed curve with a given tolerance.
   */
  datatype Geometry = Geometry(
    close: Mask -> Mask,
    findContours: Mask -> seq<Contour>,
    contourArea: Contour -> real,
    convexHull: Contour -> Contour,
    arcLength: Contour -> real,
    approxPolyDP: (Contour, real) -> Polygon)

  /** `np.linspace(start, stop, num)`: num evenly spaced values from start to stop, both included. */
  function Linspace(start: real, stop: real, num: nat): (r: seq<real>)
    ensures |r| == num
    ensures num >= 1 ==> r[0] == start
    ensures num >= 2 ==> r[num - 1] == stop
    ensures num >= 2 ==> forall i :: 0 < i < num ==> r[i] - r[i - 1] == (stop - start) / (num - 1) as real
  {
    if num <= 1 then seq(num, i requires 0 <= i < num => start)
    else
      var step := (stop - start) / (num - 1) as real;
      seq(num, i requires 0 <= i < num => if i == num - 1 then stop else start + i as real * step)
  }

  /** The factor of the perimeter used for the first approximation. */
  const InitialFactor: real := 0.02

  /** The factors of the hull perimeter tried, in order, when the first approximation misses. */
  const SweepFactors: seq<real> := Linspace(0.01, 0.1, 10)

  /** The sweep tries ten factors, 0.01, 0.02, ..., 0.1, in increasing order. */
  lemma SweepFactorsAscending()
    ensures |SweepFactors| == 10
    ensures forall i :: 0 <= i < 10 ==> SweepFactors[i] == (i + 1) as real / 100.0
    ensures forall i, j :: 0 <= i < j < 10 ==> SweepFactors[i] < SweepFactors[j]
  {
    var t := SweepFactors;
    assert t[0] == 0.01;
    forall i | 0 < i < 10
      ensures t[i] == t[i - 1] + 0.01
    {
      assert t[i] - t[i - 1] == (0.1 - 0.01) / 9.0;
    }
    assert t[1] == 0.02 && t[2] == 0.03 && t[3] == 0.04 && t[4] == 0.05;
    assert t[5] == 0.06 && t[6] == 0.07 && t[7] == 0.08 && t[8] == 0.09;
  }

  /**
   * The position `max(contours, key=area)` picks: Python's `max` keeps the
   * first of several equal maxima, since it replaces its candidate only on a
   * strictly greater key.
   */
  function LargestIndex(cs: seq<Contour>, area: Contour -> real): (k: nat)
    requires |cs| > 0
    ensures k < |cs|
    ensures forall j :: 0 <= j < |cs| ==> area(cs[j]) <= area(cs[k])
    ensures forall j :: 0 <= j < k ==> area(cs[j]) < area(cs[k])
  {
    if |cs| == 1 then 0
    else
      var k := LargestIndex(cs[..|cs| - 1], area);
      assert forall j :: 0 <= j < |cs| - 1 ==> cs[..|cs| - 1][j] == cs[j];
      if area(cs[|cs| - 1]) > area(cs[k]) then |cs| - 1 else k
  }

  /** The polygon `approxPolyDP` gives for a closed contour at `factor` times its perimeter. */
  function Approximate(g: Geometry, c: Contour, factor: real): Polygon
  {
    g.approxPolyDP(c, factor * g.arcLength(c))
  }

  /** The first of `factors` whose approximation of the hull has four vertices, as that polygon. */
  function FirstQuad(g: Geometry, hull: Contour, factors: seq<real>): (r: Option<Polygon>)
    ensures r.Some? ==> |r.value| == 4
    decreases |factors|
  {
    if factors == [] then None
    else if |Approximate(g, hull, factors[0])| == 4 then Some(Approximate(g, hull, factors[0]))
    else FirstQuad(g, hull, factors[1..])
  }

  /**
   * `FirstQuad` against its reference: nothing exactly when no factor gives
   * four vertices, otherwise the approximation at the first factor that does.
   */
  lemma {:induction false} FirstQuadIsFirstSuccess(g: Geometry, hull: Contour, factors: seq<real>)
    ensures FirstQuad(g, hull, factors).None? <==>
      forall k :: 0 <= k < |factors| ==> |Approximate(g, hull, factors[k])| != 4
    ensures forall k ::
        (0 <= k < |factors| && |Approximate(g, hull, factors[k])| == 4 &&
         forall j :: 0 <= j < k ==> |Approximate(g, hull, factors[j])| != 4) ==>
      FirstQuad(g, hull, factors) == Some(Approximate(g, hull, factors[k]))
    decreases |factors|
  {
    if factors != [] {
      FirstQuadIsFirstSuccess(g, hull, factors[1..]);
      assert forall k :: 0 < k < |factors| ==> factors[1..][k - 1] == factors[k];
      if |Approximate(g, hull, factors[0])| != 4 {
        forall k | 0 <= k < |factors| && |Approximate(g, hull, factors[k])| == 4 &&
            (forall j :: 0 <= j < k ==> |Approximate(g, hull, factors[j])| != 4)
          ensures FirstQuad(g, hull, factors) == Some(Approximate(g, hull, factors[k]))
        {
          assert k > 0;
          assert forall j :: 0 <= j < k - 1 ==> factors[1..][j] == factors[j + 1];
        }
      }
    }
  }

  /** The quadrilateral for a mask: what `process_full_mask` returns. */
  function QuadOf(g: Geometry, mask: Mask): (r: Option<Polygon>)
    ensures r.Some? ==> |r.value| == 4
  {
    var contours := g.findContours(g.close(mask));
    if |contours| == 0 then None
    else
      var largest := contours[LargestIndex(contours, g.contourArea)];
      var approx := Approximate(g, largest, InitialFactor);
      if |approx| == 4 then Some(approx)
      else FirstQuad(g, g.convexHull(largest), SweepFactors)
  }

  /**
   * What the function promises: nothing without contours; the first
   * approximation of the largest contour unchanged when it has four vertices;
   * otherwise the hull approximation at the first sweep factor giving four
   * vertices, and nothing when none does.
   */
  lemma QuadOfCases(g: Geometry, mask: Mask)
    ensures var contours := g.findContours(g.close(mask));
      && (|contours| == 0 ==> QuadOf(g, mask) == None)
      && (|contours| > 0 ==>
        var largest := contours[LargestIndex(contours, g.contourArea)];
        var approx := Approximate(g, largest, InitialFactor);
        var hull := g.convexHull(largest);
        && (|approx| == 4 ==> QuadOf(g, mask) == Some(approx))
        && (|approx| != 4 ==>
          && (QuadOf(g, mask).None? <==>
            forall k :: 0 <= k < |SweepFactors| ==> |Approximate(g, hull, SweepFactors[k])| != 4)
          && (forall k ::
              (0 <= k < |SweepFactors| && |Approximate(g, hull, SweepFactors[k])| == 4 &&
               forall j :: 0 <= j < k ==> |Approximate(g, hull, SweepFactors[j])| != 4) ==>
            QuadOf(g, mask) == Some(Approximate(g, hull, SweepFactors[k])))))
  {
    var contours := g.findContours(g.close(mask));
    if |contours| > 0 {
      var largest := contours[LargestIndex(contours, g.contourArea)];
      FirstQuadIsFirstSuccess(g, g.convexHull(largest), SweepFactors);
    }
  }

  /**
   * `process_full_mask`: close the mask, take the largest external contour,
   * approximate it at 2% of its perimeter and, when that does not give four
   * vertices, sweep the tolerances over its convex hull until one does.
   */
  method ProcessFullMask(g: Geometry, mask: Mask) returns (quad: Option<Polygon>)
    ensures quad == QuadOf(g, mask)
  {
    var closed := g.close(mask);
    var contours := g.findContours(closed);
    if |contours| == 0 {
      return None;
    }
    var largest := contours[LargestIndex(contours, g.contourArea)];
    var hull := g.convexHull(largest);
    var approx := Approximate(g, largest, InitialFactor);
    if |approx| != 4 {
      var factors := SweepFactors;
      var i := 0;
      while i < |factors|
        invariant 0 <= i <= |factors|
        invariant FirstQuad(g, hull, factors[i..]) == FirstQuad(g, hull, factors)
        invariant |approx| != 4
      {
        approx := Approximate(g, hull, factors[i]);
        assert factors[i..] == [factors[i]] + factors[i + 1..];
        if |approx| == 4 {
          assert FirstQuad(g, hull, factors) == Some(approx);
          break;
        }
        i := i + 1;
      }
    }
    if |approx| != 4 {
      return None;
    }
    return Some(approx);
  }
}
