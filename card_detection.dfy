/**
 * The mask loop of `detect_edges_and_corners`: each of the first ten masks
 * the segmentation model returns is reduced to a quadrilateral, and each
 * quadrilateral found becomes one card, warped onto a fixed upright
 * 500 by 700 rectangle. A card is modelled by the parameters of its warp.
 */
module CardDetection {
  import opened Options
  import opened Points
  import opened PointOrder
  import opened MaskQuad

  /** At most this many masks are examined. */
  const MaskLimit: nat := 10

  /** The size of a warped card, in pixels. */
  const CardWidth: nat := 500
  const CardHeight: nat := 700

  /** The upright rectangle a card is warped onto, in top-left, top-right, bottom-right, bottom-left order. */
  const Destination: Polygon := [
    Point(0.0, 0.0),
    Point((CardWidth - 1) as real, 0.0),
    Point((CardWidth - 1) as real, (CardHeight - 1) as real),
    Point(0.0, (CardHeight - 1) as real)]

  /**
   * One detected card: the corners of its quadrilateral in the order the warp
   * expects, the rectangle they are mapped to and the output size.
   */
  datatype Card = Card(corners: Polygon, destination: Polygon, width: nat, height: nat)

  /** The factors taking a point of the resized image back to the original image. */
  datatype Scale = Scale(x: real, y: real)

  /** The scale for an original image of the given size; masks come from the image resized to 640 by 640. */
  function ScaleOf(imageWidth: nat, imageHeight: nat): (k: Scale)
    ensures imageWidth > 0 ==> k.x > 0.0
    ensures imageHeight > 0 ==> k.y > 0.0
  {
    Scale(imageWidth as real / 640.0, imageHeight as real / 640.0)
  }

  /** `rectangle * np.array([scale_x, scale_y])`: each point scaled coordinate by coordinate. */
  function Scaled(quad: Polygon, k: Scale): (r: Polygon)
    ensures |r| == |quad|
  {
    seq(|quad|, i requires 0 <= i < |quad| => Point(quad[i].x * k.x, quad[i].y * k.y))
  }

  /**
   * The card for a quadrilateral found in the resized image: its corners
   * scaled to the original image, put in order, and paired with the fixed
   * destination.
   */
  function CardFor(quad: Polygon, k: Scale): (card: Card)
    requires |quad| == 4
    ensures |card.corners| == 4 && multiset(card.corners) == multiset(Scaled(quad, k))
    ensures forall i, j :: 0 <= i < 2 <= j < 4 ==> card.corners[i].y <= card.corners[j].y
    ensures card.corners[0].x <= card.corners[1].x && card.corners[2].x >= card.corners[3].x
    ensures card.destination == Destination && card.width == CardWidth && card.height == CardHeight
  {
    var original := Scaled(quad, k);
    var c := StableArgsorts(original);
    SortRectanglePointsCorners(original, c);
    Card(SortRectanglePoints(original, c), Destination, CardWidth, CardHeight)
  }

  /**
   * The destination is the 500 by 700 pixel rectangle, listed in the order
   * corners are sorted into: sorting its corners, given in any order, gives
   * it back, so the i-th sorted corner of a card is sent to its i-th corner.
   */
  lemma DestinationInCornerOrder(pts: seq<Point>, c: Argsorts)
    requires multiset(pts) == multiset(Destination) && ValidArgsorts(pts, c)
    ensures Destination == Rectangle(0.0, 0.0, 499.0, 699.0)
    ensures SortRectanglePoints(pts, c) == Destination
  {
    assert Destination == Rectangle(0.0, 0.0, 499.0, 699.0);
    RectangleCornersInAnyOrder(0.0, 0.0, 499.0, 699.0, pts, c);
  }

  /** `masks[:n]`. */
  function Take<T>(s: seq<T>, n: nat): (r: seq<T>)
    ensures |r| <= n && |r| <= |s|
    ensures r == s[..|r|]
    ensures |r| == if |s| < n then |s| else n
  {
    if |s| <= n then s else s[..n]
  }

  /** The values `f` yields for the elements of `xs` on which it yields one, in order. */
  function Collect<T, U>(xs: seq<T>, f: T -> Option<U>): (r: seq<U>)
    ensures |r| <= |xs|
  {
    if xs == [] then []
    else
      var last := xs[|xs| - 1];
      Collect(xs[..|xs| - 1], f) + (if f(last).Some? then [f(last).value] else [])
  }

  /** The positions of the elements of `xs` on which `f` yields a value, in increasing order. */
  function Hits<T, U>(xs: seq<T>, f: T -> Option<U>): (ps: seq<nat>)
    ensures forall k :: 0 <= k < |ps| ==> ps[k] < |xs| && f(xs[ps[k]]).Some?
    ensures forall k, l :: 0 <= k < l < |ps| ==> ps[k] < ps[l]
    ensures forall i :: 0 <= i < |xs| && f(xs[i]).Some? ==> i in ps
  {
    if xs == [] then []
    else
      var n := |xs| - 1;
      var front := xs[..n];
      assert forall i :: 0 <= i < n ==> front[i] == xs[i];
      Hits(front, f) + (if f(xs[n]).Some? then [n] else [])
  }

  /** Collecting over one more element adds its value, if it has one, at the end. */
  lemma CollectSnoc<T, U>(xs: seq<T>, x: T, f: T -> Option<U>)
    ensures Collect(xs + [x], f) == Collect(xs, f) + (if f(x).Some? then [f(x).value] else [])
  {
    assert (xs + [x])[..|xs|] == xs;
  }

  /** The k-th collected value is the value at the k-th hit. */
  lemma {:induction false} CollectFollowsHits<T, U>(xs: seq<T>, f: T -> Option<U>)
    ensures |Collect(xs, f)| == |Hits(xs, f)|
    ensures forall k :: 0 <= k < |Hits(xs, f)| ==> Collect(xs, f)[k] == f(xs[Hits(xs, f)[k]]).value
  {
    if xs != [] {
      var n := |xs| - 1;
      var front := xs[..n];
      CollectFollowsHits(front, f);
      var r, frontR := Collect(xs, f), Collect(front, f);
      var ps, frontPs := Hits(xs, f), Hits(front, f);
      forall k | 0 <= k < |ps|
        ensures r[k] == f(xs[ps[k]]).value
      {
        if k < |frontPs| {
          assert r[k] == frontR[k] && ps[k] == frontPs[k];
          assert xs[frontPs[k]] == front[frontPs[k]];
        }
      }
    }
  }

  /** The card a mask yields, if `process_full_mask` finds a quadrilateral in it. */
  function MaskCard(g: Geometry, k: Scale, m: Mask): (r: Option<Card>)
    ensures r.Some? <==> QuadOf(g, m).Some?
    ensures r.Some? ==> r.value.destination == Destination && r.value.width == CardWidth && r.value.height == CardHeight
  {
    match QuadOf(g, m)
    case None => None
    case Some(quad) => Some(CardFor(quad, k))
  }

  /** The cards for a list of masks: one per mask that yields a quadrilateral, in mask order. */
  function CardsOf(g: Geometry, k: Scale, masks: seq<Mask>): (r: seq<Card>)
    ensures |r| <= |masks|
  {
    Collect(masks, m => MaskCard(g, k, m))
  }

  /** The positions of the masks that yield a quadrilateral, in increasing order. */
  function QuadPositions(g: Geometry, k: Scale, masks: seq<Mask>): seq<nat>
  {
    Hits(masks, m => MaskCard(g, k, m))
  }

  /**
   * The k-th card comes from the k-th mask that yields a quadrilateral, and
   * those are all the masks that do, in increasing order: no mask is
   * skipped, none contributes twice, and mask order is kept.
   */
  lemma CardsFollowMasks(g: Geometry, k: Scale, masks: seq<Mask>)
    ensures var ps := QuadPositions(g, k, masks);
      && (forall i :: 0 <= i < |masks| ==> (QuadOf(g, masks[i]).Some? <==> i in ps))
      && (forall a, b :: 0 <= a < b < |ps| ==> ps[a] < ps[b])
      && |CardsOf(g, k, masks)| == |ps|
      && forall a :: 0 <= a < |ps| ==> CardsOf(g, k, masks)[a] == CardFor(QuadOf(g, masks[ps[a]]).value, k)
  {
    var f := m => MaskCard(g, k, m);
    CollectFollowsHits(masks, f);
    var ps := QuadPositions(g, k, masks);
    forall i | 0 <= i < |masks|
      ensures QuadOf(g, masks[i]).Some? <==> i in ps
    {
      if i in ps {
        var a :| 0 <= a < |ps| && ps[a] == i;
        assert f(masks[ps[a]]).Some?;
      }
    }
  }

  /** One more mask adds its card, if it yields a quadrilateral, at the end. */
  lemma CardsOfSnoc(g: Geometry, k: Scale, masks: seq<Mask>, i: nat)
    requires i < |masks|
    ensures CardsOf(g, k, masks[..i + 1]) ==
      CardsOf(g, k, masks[..i]) + (if QuadOf(g, masks[i]).Some? then [CardFor(QuadOf(g, masks[i]).value, k)] else [])
  {
    assert masks[..i + 1] == masks[..i] + [masks[i]];
    CollectSnoc(masks[..i], masks[i], m => MaskCard(g, k, m));
  }

  /**
   * The mask loop: run `process_full_mask` on each of the first ten masks and
   * keep a card for every quadrilateral found, its corners taken back to the
   * original image of the given size.
   */
  method DetectEdgesAndCorners(g: Geometry, masks: seq<Mask>, imageWidth: nat, imageHeight: nat)
    returns (cards: seq<Card>)
    ensures cards == CardsOf(g, ScaleOf(imageWidth, imageHeight), Take(masks, MaskLimit))
    ensures |cards| <= MaskLimit && |cards| <= |masks|
    ensures forall c :: c in cards ==> c.destination == Destination && c.width == 500 && c.height == 700
  {
    var k := ScaleOf(imageWidth, imageHeight);
    var limited := Take(masks, MaskLimit);
    cards := [];
    for i := 0 to |limited|
      invariant cards == CardsOf(g, k, limited[..i])
      invariant forall c :: c in cards ==> c.destination == Destination && c.width == 500 && c.height == 700
    {
      var rectangle := ProcessFullMask(g, limited[i]);
      CardsOfSnoc(g, k, limited, i);
      if rectangle.Some? {
        cards := cards + [CardFor(rectangle.value, k)];
      }
    }
    assert limited[..|limited|] == limited;
  }
}
