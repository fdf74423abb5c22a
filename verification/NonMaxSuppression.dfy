/** Class-agnostic non-maximum suppression. Floats are modelled as reals, and the
    argsort as any order that lists the scores from high to low. */
module NonMaxSuppression {
  import opened Suppression

  datatype Box = Box(x1: real, y1: real, x2: real, y2: real)

  /** The constant below which a union is not trusted as a divisor. */
  const EPSILON: real := 0.000001

  function Max(a: real, b: real): real {
    if a >= b then a else b
  }

  function Min(a: real, b: real): real {
    if a <= b then a else b
  }

  /** Two intervals on one axis: the length they share and the length of each. */
  datatype Axis = Axis(shared: real, first: real, second: real)

  function OnAxis(lo: real, hi: real, lo': real, hi': real): Axis {
    Axis(Max(0.0, Min(hi, hi') - Max(lo, lo')), Max(0.0, hi - lo), Max(0.0, hi' - lo'))
  }

  function OnX(a: Box, b: Box): Axis {
    OnAxis(a.x1, a.x2, b.x1, b.x2)
  }

  function OnY(a: Box, b: Box): Axis {
    OnAxis(a.y1, a.y2, b.y1, b.y2)
  }

  function Inter(x: Axis, y: Axis): real {
    x.shared * y.shared
  }

  function Union(x: Axis, y: Axis): real {
    x.first * y.first + x.second * y.second - Inter(x, y)
  }

  function Ratio(x: Axis, y: Axis): real {
    Inter(x, y) / Max(Union(x, y), EPSILON)
  }

  /** `box_iou`. */
  function Iou(a: Box, b: Box): real {
    Ratio(OnX(a, b), OnY(a, b))
  }

  function Swapped(x: Axis): Axis {
    Axis(x.shared, x.second, x.first)
  }

  lemma OnAxisSwaps(lo: real, hi: real, lo': real, hi': real)
    ensures OnAxis(lo', hi', lo, hi) == Swapped(OnAxis(lo, hi, lo', hi'))
  {
  }

  lemma RatioSwaps(x: Axis, y: Axis)
    ensures Ratio(Swapped(x), Swapped(y)) == Ratio(x, y)
  {
    assert Union(Swapped(x), Swapped(y)) == Union(x, y);
  }

  lemma IouIsSymmetric(a: Box, b: Box)
    ensures Iou(a, b) == Iou(b, a)
  {
    OnAxisSwaps(a.x1, a.x2, b.x1, b.x2);
    OnAxisSwaps(a.y1, a.y2, b.y1, b.y2);
    RatioSwaps(OnX(a, b), OnY(a, b));
  }

  lemma OnAxisBounds(lo: real, hi: real, lo': real, hi': real)
    ensures var x := OnAxis(lo, hi, lo', hi'); 0.0 <= x.shared <= x.first && x.shared <= x.second
  {
  }

  lemma Areas(a: real, b: real, c: real, d: real)
    requires 0.0 <= a <= c && 0.0 <= b <= d
    ensures 0.0 <= a * b <= c * d
  {
    assert a * b <= c * b;
    assert c * b <= c * d;
  }

  lemma Quotient(i: real, m: real)
    requires 0.0 <= i <= m && m > 0.0
    ensures 0.0 <= i / m <= 1.0
    ensures i / m == 0.0 <==> i == 0.0
    ensures i / m == 1.0 <==> i == m
  {
    var q := i / m;
    assert q * m == i;
  }

  /** The IoU is between 0 and 1, 0 exactly for boxes that share no area, and 1 exactly for
      boxes that share all of theirs, provided that it reaches the divisor floor. */
  lemma IouIsARatio(a: Box, b: Box)
    ensures var x, y := OnX(a, b), OnY(a, b);
            && 0.0 <= Iou(a, b) <= 1.0
            && (Iou(a, b) == 0.0 <==> Inter(x, y) == 0.0)
            && (Iou(a, b) == 1.0 <==>
                Inter(x, y) == x.first * y.first == x.second * y.second && Inter(x, y) >= 0.000001)
  {
    OnAxisBounds(a.x1, a.x2, b.x1, b.x2);
    OnAxisBounds(a.y1, a.y2, b.y1, b.y2);
    RatioIsBounded(OnX(a, b), OnY(a, b));
  }

  lemma RatioIsBounded(x: Axis, y: Axis)
    requires 0.0 <= x.shared <= x.first && x.shared <= x.second
    requires 0.0 <= y.shared <= y.first && y.shared <= y.second
    ensures var r := Ratio(x, y);
            && 0.0 <= r <= 1.0
            && (r == 0.0 <==> Inter(x, y) == 0.0)
            && (r == 1.0 <==> Inter(x, y) == x.first * y.first == x.second * y.second && Inter(x, y) >= 0.000001)
  {
    Areas(x.shared, y.shared, x.first, y.first);
    Areas(x.shared, y.shared, x.second, y.second);
    RatioBounds(Inter(x, y), x.first * y.first, x.second * y.second);
  }

  lemma RatioBounds(i: real, a: real, b: real)
    requires 0.0 <= i <= a && i <= b
    ensures var r := i / Max(a + b - i, EPSILON);
            0.0 <= r <= 1.0 && (r == 0.0 <==> i == 0.0) && (r == 1.0 <==> i == a == b && i >= EPSILON)
  {
    Quotient(i, Max(a + b - i, EPSILON));
  }

  // ----- what the IoU measures ----------------------------------------------------------------

  /** A box whose corners are whole numbers, and the unit cells it covers. */
  datatype Raster = Raster(x1: int, y1: int, x2: int, y2: int)
  {
    ghost function Cells(): set<(int, int)> {
      set i, j | x1 <= i < x2 && y1 <= j < y2 :: (i, j)
    }

    function AsBox(): Box {
      Box(x1 as real, y1 as real, x2 as real, y2 as real)
    }

    function Meet(o: Raster): Raster {
      Raster(if x1 >= o.x1 then x1 else o.x1, if y1 >= o.y1 then y1 else o.y1,
             if x2 <= o.x2 then x2 else o.x2, if y2 <= o.y2 then y2 else o.y2)
    }
  }

  function Extent(lo: int, hi: int): nat {
    if lo < hi then hi - lo else 0
  }

  ghost function Column(i: int, lo: int, hi: int): set<(int, int)> {
    set j | lo <= j < hi :: (i, j)
  }

  lemma {:induction false} ColumnCount(i: int, lo: int, hi: int)
    ensures |Column(i, lo, hi)| == Extent(lo, hi)
    decreases Extent(lo, hi)
  {
    if lo < hi {
      ColumnCount(i, lo, hi - 1);
      assert Column(i, lo, hi) == Column(i, lo, hi - 1) + {(i, hi - 1)};
    } else {
      assert Column(i, lo, hi) == {};
    }
  }

  lemma {:induction false} CellCount(r: Raster)
    ensures |r.Cells()| == Extent(r.x1, r.x2) * Extent(r.y1, r.y2)
    decreases Extent(r.x1, r.x2)
  {
    if r.x1 < r.x2 {
      var less, column := r.(x2 := r.x2 - 1), Column(r.x2 - 1, r.y1, r.y2);
      CellCount(less);
      ColumnCount(r.x2 - 1, r.y1, r.y2);
      CellsGrow(r, less, column);
      OneMoreColumn(Extent(r.x1, r.x2 - 1), Extent(r.y1, r.y2));
    } else {
      assert r.Cells() == {};
    }
  }

  lemma CellsGrow(r: Raster, less: Raster, column: set<(int, int)>)
    requires r.x1 < r.x2 && less == r.(x2 := r.x2 - 1) && column == Column(r.x2 - 1, r.y1, r.y2)
    ensures r.Cells() == less.Cells() + column && less.Cells() !! column
    ensures |r.Cells()| == |less.Cells()| + |column|
  {
    forall c | c in r.Cells() ensures c in less.Cells() + column {
      assert c == (c.0, c.1);
    }
  }

  lemma OneMoreColumn(m: nat, n: nat)
    ensures m * n + n == (m + 1) * n
  {
  }

  lemma MeetIsIntersection(a: Raster, b: Raster)
    ensures a.Meet(b).Cells() == a.Cells() * b.Cells()
  {
  }

  lemma RealProduct(m: nat, n: nat, count: nat)
    requires count == m * n
    ensures (m as real) * (n as real) == count as real
  {
  }

  lemma AxisCounts(lo: int, hi: int, lo': int, hi': int, l: int, h: int)
    requires l == (if lo >= lo' then lo else lo') && h == (if hi <= hi' then hi else hi')
    ensures OnAxis(lo as real, hi as real, lo' as real, hi' as real)
            == Axis(Extent(l, h) as real, Extent(lo, hi) as real, Extent(lo', hi') as real)
  {
  }

  /** The widths and heights of two rasters and of their meet. */
  lemma Measures(a: Raster, b: Raster) returns (w: nat, h: nat, w': nat, h': nat, ws: nat, hs: nat)
    ensures |a.Cells()| == w * h && |b.Cells()| == w' * h' && |a.Cells() * b.Cells()| == ws * hs
    ensures Iou(a.AsBox(), b.AsBox())
            == Ratio(Axis(ws as real, w as real, w' as real), Axis(hs as real, h as real, h' as real))
  {
    var m := a.Meet(b);
    w, h := Extent(a.x1, a.x2), Extent(a.y1, a.y2);
    w', h' := Extent(b.x1, b.x2), Extent(b.y1, b.y2);
    ws, hs := Extent(m.x1, m.x2), Extent(m.y1, m.y2);
    CellCount(a);
    CellCount(b);
    CellCount(m);
    MeetIsIntersection(a, b);
    AxisCounts(a.x1, a.x2, b.x1, b.x2, m.x1, m.x2);
    AxisCounts(a.y1, a.y2, b.y1, b.y2, m.y1, m.y2);
  }

  lemma RatioIs(x: Axis, y: Axis, i: real, p: real, q: real)
    requires x.shared * y.shared == i && x.first * y.first == p && x.second * y.second == q
    ensures Ratio(x, y) == i / Max(p + q - i, EPSILON)
  {
  }

  lemma RatioCounts(w: nat, h: nat, w': nat, h': nat, ws: nat, hs: nat, both: nat, either: nat)
    requires both == ws * hs && either + both == w * h + w' * h' && both <= either
    ensures Ratio(Axis(ws as real, w as real, w' as real), Axis(hs as real, h as real, h' as real))
            == if either == 0 then 0.0 else both as real / either as real
  {
    var first, second := w * h, w' * h';
    RealProduct(ws, hs, both);
    RealProduct(w, h, first);
    RealProduct(w', h', second);
    RatioIs(Axis(ws as real, w as real, w' as real), Axis(hs as real, h as real, h' as real),
            both as real, first as real, second as real);
    CountsAdd(first, second, both, either);
    CellRatio(both, either);
  }

  lemma CountsAdd(first: nat, second: nat, both: nat, either: nat)
    requires either + both == first + second
    ensures first as real + second as real - both as real == either as real
  {
  }

  /** On whole-number corners, in order or not, the IoU is the number of unit cells in both
      boxes over the number of cells in either; 0 when there are none at all. */
  lemma IouCountsCells(a: Raster, b: Raster)
    ensures var both, either := |a.Cells() * b.Cells()|, |a.Cells() + b.Cells()|;
            Iou(a.AsBox(), b.AsBox()) == if either == 0 then 0.0 else both as real / either as real
  {
    var w, h, w', h', ws, hs := Measures(a, b);
    UnionCount(a.Cells(), b.Cells());
    RatioCounts(w, h, w', h', ws, hs, |a.Cells() * b.Cells()|, |a.Cells() + b.Cells()|);
  }

  lemma UnionCount(s: set<(int, int)>, t: set<(int, int)>)
    ensures |s + t| + |s * t| == |s| + |t| && |s * t| <= |s + t|
  {
    assert |s * t| <= |s| by {
      assert s == (s * t) + (s - t);
    }
    assert |s| <= |s + t| by {
      assert s + t == s + (t - s);
    }
  }

  lemma CellRatio(both: nat, either: nat)
    requires both <= either
    ensures both as real / Max(either as real, EPSILON) == if either == 0 then 0.0 else both as real / either as real
  {
  }

  /** Above the threshold, as the source compares. */
  function Overlapping(boxes: seq<Box>, thr: real): (over: Relation)
    ensures Symmetric(over)
  {
    var over := (i: nat, j: nat) => i < |boxes| && j < |boxes| && Iou(boxes[i], boxes[j]) > thr;
    assert Symmetric(over) by {
      forall i: nat, j: nat ensures over(i, j) == over(j, i) {
        if i < |boxes| && j < |boxes| {
          IouIsSymmetric(boxes[i], boxes[j]);
        }
      }
    }
    over
  }

  /** `argsort` with the result reversed: every index once, scores from high to low. */
  ghost predicate Descending(scores: seq<real>, order: seq<nat>) {
    && |order| == |scores|
    && (forall p, q :: 0 <= p < q < |order| ==> order[p] != order[q])
    && (forall x :: 0 <= x < |scores| ==> x in order)
    && HighToLow(scores, order)
  }

  /** `nms`; the order of the argsort comes in as `sorted`. */
  method Nms(boxes: seq<Box>, scores: seq<real>, thr: real, sorted: seq<nat>) returns (keep: seq<nat>)
    requires |boxes| == |scores| && Descending(scores, sorted)
    ensures keep == Greedy(Overlapping(boxes, thr), sorted)
  {
    if |boxes| == 0 {
      return [];
    }
    keep := Suppress(Overlapping(boxes, thr), sorted);
  }
}
