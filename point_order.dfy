/**
 * Corner ordering: `sort_rectangle_points` puts the four corners of a detected
 * quadrilateral in the order top-left, top-right, bottom-right, bottom-left,
 * by sorting on y, splitting into a top and a bottom pair, and sorting each
 * pair on x (the bottom pair right to left).
 */
module PointOrder {
  import opened Points
  import opened Argsort

  function XOf(p: Point): real { p.x }

  function YOf(p: Point): real { p.y }

  /** `s[::-1]`. */
  function Reverse<T>(s: seq<T>): (r: seq<T>)
    ensures |r| == |s|
  {
    seq(|s|, i requires 0 <= i < |s| => s[|s| - 1 - i])
  }

  /**
   * The three index sequences the function obtains from `np.argsort`: on the y
   * column of the points, then on the x column of the first two and of the
   * last two of the points reordered by y.
   */
  datatype Argsorts = Argsorts(byY: seq<nat>, topByX: seq<nat>, bottomByX: seq<nat>)

  /** The index sequences select positions that exist. */
  predicate WellIndexed(pts: seq<Point>, c: Argsorts)
  {
    |pts| == 4 && InRange(c.byY, 4) && |c.byY| == 4 && InRange(c.topByX, 2) && InRange(c.bottomByX, 2)
  }

  /** `c` holds index sequences `np.argsort` may return for `pts`, ties broken either way. */
  predicate ValidArgsorts(pts: seq<Point>, c: Argsorts)
  {
    && |pts| == 4
    && IsArgsort(Project(pts, YOf), c.byY)
    && IsArgsort(Project(Gather(pts, c.byY)[..2], XOf), c.topByX)
    && IsArgsort(Project(Gather(pts, c.byY)[2..], XOf), c.bottomByX)
  }

  /**
   * The index sequences of a stable argsort, which keeps tied keys in input
   * order; every other tie-break gives the same corners wherever the
   * corners are determined (`SortRectanglePointsOrderIndependent`).
   */
  function StableArgsorts(pts: seq<Point>): (c: Argsorts)
    requires |pts| == 4
    ensures ValidArgsorts(pts, c)
  {
    var ys := Project(pts, YOf);
    StableArgsortIsArgsort(ys);
    var byY := StableArgsort(ys, 4);
    var s := Gather(pts, byY);
    var upper, lower := Project(s[..2], XOf), Project(s[2..], XOf);
    StableArgsortIsArgsort(upper);
    StableArgsortIsArgsort(lower);
    Argsorts(byY, StableArgsort(upper, 2), StableArgsort(lower, 2))
  }

  /** The four points reordered as top-left, top-right, bottom-right, bottom-left, by the index sequences in `c`. */
  function SortRectanglePoints(pts: seq<Point>, c: Argsorts): (r: seq<Point>)
    requires WellIndexed(pts, c)
    ensures |r| == |c.topByX| + |c.bottomByX|
    ensures forall i :: 0 <= i < |r| ==> r[i] in pts
  {
    var byY := Gather(pts, c.byY);
    var top := Gather(byY[..2], c.topByX);
    var bottom := Reverse(Gather(byY[2..], c.bottomByX));
    top + bottom
  }

  /** With two keys, argsort gives [0, 1] or [1, 0], whichever lists the keys in order. */
  lemma ArgsortOfTwo(keys: seq<real>, p: seq<nat>)
    requires |keys| == 2 && IsArgsort(keys, p)
    ensures (p == [0, 1] && keys[0] <= keys[1]) || (p == [1, 0] && keys[1] <= keys[0])
  {
    assert Range(2) == [0, 1];
    assert p[0] in multiset(p) && p[1] in multiset(p);
    assert multiset(p) == multiset{0, 1};
    assert p == [p[0], p[1]];
  }

  /** The pair `s2[p]` for an argsort p of the pair's x column: the pair left to right. */
  lemma PairByX(s2: seq<Point>, p: seq<nat>)
    requires |s2| == 2 && IsArgsort(Project(s2, XOf), p)
    ensures InRange(p, 2)
    ensures var g := Gather(s2, p);
      && (g == [s2[0], s2[1]] || g == [s2[1], s2[0]])
      && g[0].x <= g[1].x
      && multiset(g) == multiset(s2)
  {
    ArgsortOfTwo(Project(s2, XOf), p);
    assert Project(s2, XOf)[0] == s2[0].x && Project(s2, XOf)[1] == s2[1].x;
    assert s2 == [s2[0], s2[1]];
  }

  /** The points reordered by y, as the first argsort gives them. */
  lemma ByY(pts: seq<Point>, p: seq<nat>)
    requires |pts| == 4 && IsArgsort(Project(pts, YOf), p)
    ensures InRange(p, 4)
    ensures var s := Gather(pts, p);
      && multiset(s) == multiset(pts)
      && s[0].y <= s[1].y <= s[2].y <= s[3].y
  {
    ArgsortSorts(pts, YOf, p);
    var s := Gather(pts, p);
    assert YOf(s[0]) <= YOf(s[1]) <= YOf(s[2]) <= YOf(s[3]);
  }

  /** The y-sorted points, the top pair ordered by x and the bottom pair ordered by x. */
  predicate PairsOfSorted(s: seq<Point>, top: seq<Point>, bottom: seq<Point>)
  {
    && |s| == 4 && s[0].y <= s[1].y <= s[2].y <= s[3].y
    && (top == [s[0], s[1]] || top == [s[1], s[0]]) && top[0].x <= top[1].x
    && (bottom == [s[2], s[3]] || bottom == [s[3], s[2]]) && bottom[0].x <= bottom[1].x
  }

  lemma PairsKeepPoints(s: seq<Point>, top: seq<Point>, bottom: seq<Point>)
    requires PairsOfSorted(s, top, bottom)
    ensures multiset(top + Reverse(bottom)) == multiset(s)
  {
    ReversePair(bottom);
    var rb := Reverse(bottom);
    EitherOrder(top, s[0], s[1]);
    EitherOrder(rb, s[2], s[3]);
    JoinPairs(top, rb, s);
  }

  /** A pair listed either way round holds the same two elements. */
  lemma EitherOrder<T>(p: seq<T>, a: T, b: T)
    requires p == [a, b] || p == [b, a]
    ensures multiset(p) == multiset([a, b])
  {
  }

  /** Two pairs holding the first and the last two of four elements hold all four. */
  lemma JoinPairs<T>(u: seq<T>, v: seq<T>, s: seq<T>)
    requires |s| == 4
    requires multiset(u) == multiset([s[0], s[1]]) && multiset(v) == multiset([s[2], s[3]])
    ensures multiset(u + v) == multiset(s)
  {
    assert s == [s[0], s[1]] + [s[2], s[3]];
  }

  lemma PairsInCornerOrder(s: seq<Point>, top: seq<Point>, bottom: seq<Point>)
    requires PairsOfSorted(s, top, bottom)
    ensures var r := top + Reverse(bottom);
      && |r| == 4
      && (forall i, j :: 0 <= i < 2 <= j < 4 ==> r[i].y <= r[j].y)
      && r[0].x <= r[1].x
      && r[2].x >= r[3].x
  {
    assert Reverse(bottom) == [bottom[1], bottom[0]];
  }

  lemma SwapPair<T>(a: T, b: T)
    ensures multiset([a, b]) == multiset([b, a])
  {
  }

  /**
   * The output is a rearrangement of the input, its top pair lies at or above
   * its bottom pair, the top pair runs left to right and the bottom pair right
   * to left.
   */
  lemma SortRectanglePointsCorners(pts: seq<Point>, c: Argsorts)
    requires ValidArgsorts(pts, c)
    ensures var r := SortRectanglePoints(pts, c);
      && |r| == 4
      && multiset(r) == multiset(pts)
      && (forall i, j :: 0 <= i < 2 <= j < 4 ==> r[i].y <= r[j].y)
      && r[0].x <= r[1].x
      && r[2].x >= r[3].x
  {
    var s := Gather(pts, c.byY);
    ByY(pts, c.byY);
    PairByX(s[..2], c.topByX);
    PairByX(s[2..], c.bottomByX);
    var top, bottom := Gather(s[..2], c.topByX), Gather(s[2..], c.bottomByX);
    assert PairsOfSorted(s, top, bottom);
    PairsKeepPoints(s, top, bottom);
    PairsInCornerOrder(s, top, bottom);
  }

  /** The points of `s` lying strictly above the line y = t, in order. */
  function Above(s: seq<Point>, t: real): seq<Point>
  {
    if s == [] then [] else (if s[0].y < t then [s[0]] else []) + Above(s[1..], t)
  }

  lemma {:induction false} AboveAppend(u: seq<Point>, v: seq<Point>, t: real)
    ensures Above(u + v, t) == Above(u, t) + Above(v, t)
  {
    if u == [] {
      assert u + v == v;
    } else {
      assert (u + v)[0] == u[0];
      assert (u + v)[1..] == u[1..] + v;
      AboveAppend(u[1..], v, t);
    }
  }

  /** Taking out the point at k takes it out of the points above the line, if it is there. */
  lemma AboveRemoveAt(b: seq<Point>, k: nat, t: real)
    requires k < |b|
    ensures multiset(Above(b[..k] + b[k + 1..], t)) + multiset(Above([b[k]], t)) == multiset(Above(b, t))
  {
    assert b == b[..k] + [b[k]] + b[k + 1..];
    AboveAppend(b[..k] + [b[k]], b[k + 1..], t);
    AboveAppend(b[..k], [b[k]], t);
    AboveAppend(b[..k], b[k + 1..], t);
  }

  /** Rearranging points rearranges the points above any horizontal line. */
  lemma {:induction false} AboveMultiset(a: seq<Point>, b: seq<Point>, t: real)
    requires multiset(a) == multiset(b)
    ensures multiset(Above(a, t)) == multiset(Above(b, t))
    decreases |a|
  {
    assert |a| == |multiset(a)| == |multiset(b)| == |b|;
    if a != [] {
      assert a[0] in multiset(b);
      var k :| 0 <= k < |b| && b[k] == a[0];
      var rest := b[..k] + b[k + 1..];
      RemoveAt(b, k);
      SameTailAfterRemoval(a, b, k);
      AboveMultiset(a[1..], rest, t);
      AboveRemoveAt(b, k, t);
      AboveRemoveAt(a, 0, t);
      assert a[..0] + a[1..] == a[1..];
    }
  }

  lemma SameTailAfterRemoval(a: seq<Point>, b: seq<Point>, k: nat)
    requires |a| > 0 && k < |b| && b[k] == a[0] && multiset(a) == multiset(b)
    ensures multiset(a[1..]) == multiset(b[..k] + b[k + 1..])
  {
    RemoveAt(b, k);
    RemoveAt(a, 0);
    assert a[..0] + a[1..] == a[1..];
    MultisetCancel(multiset(a[1..]), multiset(b[..k] + b[k + 1..]), multiset{a[0]});
  }

  /** Four points in y order with exactly two above y = t: the first two are those two. */
  lemma SplitAtLine(s: seq<Point>, t: real)
    requires |s| == 4 && s[0].y <= s[1].y <= s[2].y <= s[3].y && |Above(s, t)| == 2
    ensures s[0].y < t && s[1].y < t && s[2].y >= t && s[3].y >= t
    ensures Above(s, t) == s[..2]
  {
    AboveFour(s, t);
    forall p: Point ensures Above([p], t) == if p.y < t then [p] else [] {
      assert [p][1..] == [];
    }
  }

  /**
   * Two y-orderings of the same four points, exactly two of them above y = t,
   * have the same top pair and the same bottom pair, up to order.
   */
  lemma HalvesAgreeSlices(pts: seq<Point>, s: seq<Point>, s': seq<Point>, t: real)
    requires |s| == 4 && s[0].y <= s[1].y <= s[2].y <= s[3].y
    requires |s'| == 4 && s'[0].y <= s'[1].y <= s'[2].y <= s'[3].y
    requires multiset(s) == multiset(pts) && multiset(s') == multiset(pts)
    requires |Above(pts, t)| == 2
    ensures s[0].y < t && s[1].y < t && s[2].y >= t && s[3].y >= t
    ensures s'[0].y < t && s'[1].y < t && s'[2].y >= t && s'[3].y >= t
    ensures multiset(s[..2]) == multiset(s'[..2]) && multiset(s[2..]) == multiset(s'[2..])
  {
    TopHalf(pts, s, t);
    TopHalf(pts, s', t);
    OtherHalf(s, s');
  }

  /** A y-ordering of the points with two of them above y = t starts with those two. */
  lemma TopHalf(pts: seq<Point>, s: seq<Point>, t: real)
    requires |s| == 4 && s[0].y <= s[1].y <= s[2].y <= s[3].y
    requires multiset(s) == multiset(pts) && |Above(pts, t)| == 2
    ensures s[0].y < t && s[1].y < t && s[2].y >= t && s[3].y >= t
    ensures multiset(s[..2]) == multiset(Above(pts, t))
  {
    AboveMultiset(pts, s, t);
    assert |Above(s, t)| == |multiset(Above(s, t))| == |multiset(Above(pts, t))| == 2;
    SplitAtLine(s, t);
  }

  /** Two arrangements of four elements that agree on the first two agree on the last two. */
  lemma OtherHalf<T>(s: seq<T>, s': seq<T>)
    requires |s| == 4 && |s'| == 4 && multiset(s) == multiset(s')
    requires multiset(s[..2]) == multiset(s'[..2])
    ensures multiset(s[2..]) == multiset(s'[2..])
  {
    assert s == s[..2] + s[2..];
    assert s' == s'[..2] + s'[2..];
    assert multiset(s[2..]) + multiset(s[..2]) == multiset(s) by {
      assert multiset(s) == multiset(s[..2]) + multiset(s[2..]);
    }
    assert multiset(s'[2..]) + multiset(s[..2]) == multiset(s') by {
      assert multiset(s') == multiset(s'[..2]) + multiset(s'[2..]);
    }
    MultisetCancel(multiset(s[2..]), multiset(s'[2..]), multiset(s[..2]));
  }

  /** `HalvesAgreeSlices` in terms of the four points. */
  lemma HalvesAgree(pts: seq<Point>, s: seq<Point>, s': seq<Point>, t: real)
    requires |s| == 4 && s[0].y <= s[1].y <= s[2].y <= s[3].y
    requires |s'| == 4 && s'[0].y <= s'[1].y <= s'[2].y <= s'[3].y
    requires multiset(s) == multiset(pts) && multiset(s') == multiset(pts)
    requires |Above(pts, t)| == 2
    ensures s[0].y < t && s[1].y < t && s[2].y >= t && s[3].y >= t
    ensures s'[0].y < t && s'[1].y < t && s'[2].y >= t && s'[3].y >= t
    ensures multiset([s[0], s[1]]) == multiset([s'[0], s'[1]])
    ensures multiset([s[2], s[3]]) == multiset([s'[2], s'[3]])
  {
    HalvesAgreeSlices(pts, s, s', t);
    SlicesOfFour(s);
    SlicesOfFour(s');
  }

  lemma SlicesOfFour(s: seq<Point>)
    requires |s| == 4
    ensures s[..2] == [s[0], s[1]] && s[2..] == [s[2], s[3]]
  {
  }

  /** Each of four rearranged points is one of the originals. */
  lemma FourElements(s: seq<Point>, pts: seq<Point>)
    requires |s| == 4 && multiset(s) == multiset(pts)
    ensures s[0] in multiset(pts) && s[1] in multiset(pts) && s[2] in multiset(pts) && s[3] in multiset(pts)
  {
    assert s[0] in multiset(s) && s[1] in multiset(s) && s[2] in multiset(s) && s[3] in multiset(s);
  }

  /** On each side of the line y = t, no two different points share an x. */
  predicate DistinctXOnEachSide(pts: seq<Point>, t: real)
  {
    forall p, q :: p in pts && q in pts && (p.y < t <==> q.y < t) && p.x == q.x ==> p == q
  }

  /**
   * Two x-orderings of the same pair of points from one side of the line are
   * equal when the points on that side differ in x.
   */
  lemma PairsEqual(pair: seq<Point>, pair': seq<Point>, a: Point, b: Point, a': Point, b': Point,
                   pts: seq<Point>, t: real, above: bool)
    requires multiset([a, b]) == multiset([a', b'])
    requires (pair == [a, b] || pair == [b, a]) && pair[0].x <= pair[1].x
    requires (pair' == [a', b'] || pair' == [b', a']) && pair'[0].x <= pair'[1].x
    requires a in multiset(pts) && b in multiset(pts)
    requires (a.y < t <==> above) && (b.y < t <==> above)
    requires DistinctXOnEachSide(pts, t)
    ensures pair == pair'
  {
    SwapPair(a, b);
    SwapPair(a', b');
    assert multiset(pair) == multiset(pair');
    assert pair[0].x == pair[1].x ==> pair[0] == pair[1];
    XSortedPair(pair, pair');
  }

  /** Two pairs of the same points, each left to right, with distinct points differing in x, are equal. */
  lemma XSortedPair(pair: seq<Point>, pair': seq<Point>)
    requires |pair| == 2 && |pair'| == 2 && multiset(pair) == multiset(pair')
    requires pair[0].x <= pair[1].x && pair'[0].x <= pair'[1].x
    requires pair[0].x == pair[1].x ==> pair[0] == pair[1]
    ensures pair == pair'
  {
    assert forall x, y :: x in pair && y in pair && XOf(x) == XOf(y) ==> x == y;
    SortedPermutationsEqual(pair, pair', XOf);
  }

  /**
   * Two y-orderings of the same four points, split into x-ordered pairs, give
   * the same pairs when exactly two points lie above the line y = t and the
   * points on each side differ in x.
   */
  lemma SamePairs(pts: seq<Point>, s: seq<Point>, top: seq<Point>, bottom: seq<Point>,
                  s': seq<Point>, top': seq<Point>, bottom': seq<Point>, t: real)
    requires PairsOfSorted(s, top, bottom) && PairsOfSorted(s', top', bottom')
    requires multiset(s) == multiset(pts) && multiset(s') == multiset(pts)
    requires |Above(pts, t)| == 2 && DistinctXOnEachSide(pts, t)
    ensures top == top' && bottom == bottom'
  {
    HalvesAgree(pts, s, s', t);
    FourElements(s, pts);
    PairsEqual(top, top', s[0], s[1], s'[0], s'[1], pts, t, true);
    PairsEqual(bottom, bottom', s[2], s[3], s'[2], s'[3], pts, t, false);
  }

  /**
   * When exactly two points lie above some horizontal line and the x values
   * differ within each pair, the output does not depend on the order of the
   * input points nor on how `argsort` breaks ties.
   */
  lemma SortRectanglePointsOrderIndependent(pts: seq<Point>, c: Argsorts, pts': seq<Point>, c': Argsorts, t: real)
    requires ValidArgsorts(pts, c) && ValidArgsorts(pts', c')
    requires multiset(pts') == multiset(pts)
    requires |Above(pts, t)| == 2
    requires DistinctXOnEachSide(pts, t)
    ensures SortRectanglePoints(pts, c) == SortRectanglePoints(pts', c')
  {
    var s, s' := Gather(pts, c.byY), Gather(pts', c'.byY);
    ByY(pts, c.byY);
    ByY(pts', c'.byY);
    PairByX(s[..2], c.topByX);
    PairByX(s'[..2], c'.topByX);
    PairByX(s[2..], c.bottomByX);
    PairByX(s'[2..], c'.bottomByX);
    var top, bottom := Gather(s[..2], c.topByX), Gather(s[2..], c.bottomByX);
    var top', bottom' := Gather(s'[..2], c'.topByX), Gather(s'[2..], c'.bottomByX);
    assert PairsOfSorted(s, top, bottom);
    assert PairsOfSorted(s', top', bottom');
    SamePairs(pts, s, top, bottom, s', top', bottom', t);
  }

  /** The corners of an axis-parallel rectangle in top-left, top-right, bottom-right, bottom-left order. */
  function Rectangle(left: real, top: real, right: real, bottom: real): seq<Point>
  {
    [Point(left, top), Point(right, top), Point(right, bottom), Point(left, bottom)]
  }

  /** Index sequences `np.argsort` may return for the corners listed in order. */
  function RectangleArgsorts(): Argsorts
  {
    Argsorts([0, 1, 2, 3], [0, 1], [1, 0])
  }

  /** Two keys in order are sorted by [0, 1], two keys out of order by [1, 0]. */
  lemma ArgsortOfTwoKeys(keys: seq<real>)
    requires |keys| == 2
    ensures keys[0] <= keys[1] ==> IsArgsort(keys, [0, 1])
    ensures keys[1] <= keys[0] ==> IsArgsort(keys, [1, 0])
  {
    assert Range(2) == [0, 1];
    assert multiset([1, 0]) == multiset([0, 1]);
  }

  /** Four keys in order are sorted by [0, 1, 2, 3]. */
  lemma ArgsortOfSortedFour(keys: seq<real>)
    requires |keys| == 4 && keys[0] <= keys[1] <= keys[2] <= keys[3]
    ensures IsArgsort(keys, [0, 1, 2, 3])
  {
    assert Range(4) == [0, 1, 2, 3];
  }

  /** A pair reversed is the pair swapped. */
  lemma ReversePair<T>(s: seq<T>)
    requires |s| == 2
    ensures Reverse(s) == [s[1], s[0]]
  {
  }

  /** Selecting positions 0 .. 3 of four elements keeps them as they are. */
  lemma GatherAllOfFour<T>(s: seq<T>)
    requires |s| == 4
    ensures InRange([0, 1, 2, 3], 4) && Gather(s, [0, 1, 2, 3]) == s
  {
  }

  /** Selecting [0, 1] of a pair keeps it, [1, 0] swaps it. */
  lemma GatherPair<T>(s: seq<T>)
    requires |s| == 2
    ensures InRange([0, 1], 2) && Gather(s, [0, 1]) == [s[0], s[1]]
    ensures InRange([1, 0], 2) && Gather(s, [1, 0]) == [s[1], s[0]]
  {
  }

  /** The corners already in order are in y order, and each pair in x order as listed. */
  lemma RectangleArgsortsValid(left: real, top: real, right: real, bottom: real)
    requires left < right && top < bottom
    ensures ValidArgsorts(Rectangle(left, top, right, bottom), RectangleArgsorts())
  {
    var rect := Rectangle(left, top, right, bottom);
    var ys, upper, lower := Project(rect, YOf), Project(rect[..2], XOf), Project(rect[2..], XOf);
    assert ys == [top, top, bottom, bottom];
    assert upper == [left, right];
    assert lower == [right, left];
    ArgsortOfSortedFour(ys);
    ArgsortOfTwoKeys(upper);
    ArgsortOfTwoKeys(lower);
    GatherAllOfFour(rect);
  }

  /** The corners already in order come out unchanged. */
  lemma RectangleInOrder(left: real, top: real, right: real, bottom: real)
    ensures WellIndexed(Rectangle(left, top, right, bottom), RectangleArgsorts())
    ensures SortRectanglePoints(Rectangle(left, top, right, bottom), RectangleArgsorts()) == Rectangle(left, top, right, bottom)
  {
    var rect := Rectangle(left, top, right, bottom);
    GatherAllOfFour(rect);
    SlicesOfFour(rect);
    GatherPair(rect[..2]);
    GatherPair(rect[2..]);
    ReversePair([rect[3], rect[2]]);
  }

  /** The points of four above the line, taken one at a time. */
  lemma AboveFour(s: seq<Point>, t: real)
    requires |s| == 4
    ensures Above(s, t) == Above([s[0]], t) + Above([s[1]], t) + Above([s[2]], t) + Above([s[3]], t)
  {
    assert s == [s[0]] + [s[1]] + [s[2]] + [s[3]];
    AboveAppend([s[0]] + [s[1]] + [s[2]], [s[3]], t);
    AboveAppend([s[0]] + [s[1]], [s[2]], t);
    AboveAppend([s[0]], [s[1]], t);
  }

  /** The top two corners of a rectangle, and only they, lie above its bottom edge. */
  lemma RectangleAboveBottom(left: real, top: real, right: real, bottom: real)
    requires top < bottom
    ensures Above(Rectangle(left, top, right, bottom), bottom) == [Point(left, top), Point(right, top)]
  {
    var rect := Rectangle(left, top, right, bottom);
    AboveFour(rect, bottom);
    assert Above([rect[0]], bottom) == [rect[0]] by { assert [rect[0]][1..] == []; }
    assert Above([rect[1]], bottom) == [rect[1]] by { assert [rect[1]][1..] == []; }
    assert Above([rect[2]], bottom) == [] by { assert [rect[2]][1..] == []; }
    assert Above([rect[3]], bottom) == [] by { assert [rect[3]][1..] == []; }
  }

  /** A rearrangement of a rectangle's corners has two of them on each side of its bottom edge, differing in x. */
  lemma RectangleSides(left: real, top: real, right: real, bottom: real, pts: seq<Point>)
    requires left < right && top < bottom
    requires multiset(pts) == multiset(Rectangle(left, top, right, bottom))
    ensures |Above(pts, bottom)| == 2 && DistinctXOnEachSide(pts, bottom)
  {
    var rect := Rectangle(left, top, right, bottom);
    AboveMultiset(pts, rect, bottom);
    RectangleAboveBottom(left, top, right, bottom);
    assert |Above(pts, bottom)| == |multiset(Above(pts, bottom))| == |multiset(Above(rect, bottom))| == 2;
    RectangleCornersDistinct(left, top, right, bottom, pts);
  }

  /** Corners of a rectangle on the same side of its bottom edge differ in x. */
  lemma RectangleCornersDistinct(left: real, top: real, right: real, bottom: real, pts: seq<Point>)
    requires left < right && top < bottom
    requires multiset(pts) == multiset(Rectangle(left, top, right, bottom))
    ensures DistinctXOnEachSide(pts, bottom)
  {
    forall p | p in pts
      ensures p in Rectangle(left, top, right, bottom)
    {
      assert p in multiset(Rectangle(left, top, right, bottom));
    }
  }

  /**
   * The corners of any axis-parallel rectangle, given in any order, come out
   * as top-left, top-right, bottom-right, bottom-left.
   */
  lemma RectangleCornersInAnyOrder(left: real, top: real, right: real, bottom: real, pts: seq<Point>, c: Argsorts)
    requires left < right && top < bottom
    requires multiset(pts) == multiset(Rectangle(left, top, right, bottom))
    requires ValidArgsorts(pts, c)
    ensures SortRectanglePoints(pts, c) == Rectangle(left, top, right, bottom)
  {
    RectangleArgsortsValid(left, top, right, bottom);
    RectangleInOrder(left, top, right, bottom);
    RectangleSides(left, top, right, bottom, pts);
    SortRectanglePointsOrderIndependent(pts, c, Rectangle(left, top, right, bottom), RectangleArgsorts(), bottom);
  }

  /** The 100 by 140 outline with corners (0, 0), (100, 0), (100, 140), (0, 140), given in any order. */
  lemma OutlineInAnyOrder(pts: seq<Point>, c: Argsorts)
    requires multiset(pts) == multiset([Point(0.0, 0.0), Point(100.0, 0.0), Point(100.0, 140.0), Point(0.0, 140.0)])
    requires ValidArgsorts(pts, c)
    ensures SortRectanglePoints(pts, c) == [Point(0.0, 0.0), Point(100.0, 0.0), Point(100.0, 140.0), Point(0.0, 140.0)]
  {
    RectangleCornersInAnyOrder(0.0, 0.0, 100.0, 140.0, pts, c);
  }
}
