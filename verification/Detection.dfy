/** From raw YOLO rows to reported detections: confidence filter, corner boxes clipped
    to the model input, suppression, the cut at 100 and the scaling back to the image. */
module Detection {
  import opened Suppression
  import opened NonMaxSuppression

  /** One output row: centre, size and at least two class scores. */
  datatype Row = Row(cx: real, cy: real, w: real, h: real, classes: seq<real>)

  predicate WellFormed(rows: seq<Row>) {
    forall k :: 0 <= k < |rows| ==> |rows[k].classes| >= 2
  }

  datatype Candidate = Candidate(box: Box, score: real, classId: nat)

  const LIMIT := 100

  /** `argmax`: the first position of the greatest value. */
  function ArgMax(s: seq<real>): (r: nat)
    requires s != []
    ensures r < |s|
    ensures forall j :: 0 <= j < |s| ==> s[j] <= s[r]
    ensures forall j :: 0 <= j < r ==> s[j] < s[r]
  {
    if |s| == 1 then 0
    else
      var r := ArgMax(s[..|s| - 1]);
      if s[|s| - 1] > s[r] then |s| - 1 else r
  }

  function Clip(v: real, lo: real, hi: real): real {
    Max(lo, Min(hi, v))
  }

  /** Corner form of a row, clipped to the model input. */
  function CornerBox(r: Row, width: nat, height: nat): Box {
    Box(Clip(r.cx - r.w / 2.0, 0.0, width as real), Clip(r.cy - r.h / 2.0, 0.0, height as real),
        Clip(r.cx + r.w / 2.0, 0.0, width as real), Clip(r.cy + r.h / 2.0, 0.0, height as real))
  }

  /** Corners that lie in the model input give back the row's centre and size. */
  lemma CornersReadBack(r: Row, width: nat, height: nat)
    requires 0.0 <= r.cx - r.w / 2.0 && r.cx + r.w / 2.0 <= width as real && r.w >= 0.0
    requires 0.0 <= r.cy - r.h / 2.0 && r.cy + r.h / 2.0 <= height as real && r.h >= 0.0
    ensures var b := CornerBox(r, width, height);
            && b.x2 - b.x1 == r.w && b.x1 + b.x2 == 2.0 * r.cx
            && b.y2 - b.y1 == r.h && b.y1 + b.y2 == 2.0 * r.cy
  {
  }

  lemma ClipIsNearest(v: real, lo: real, hi: real)
    requires lo <= hi
    ensures v < lo ==> Clip(v, lo, hi) == lo
    ensures lo <= v <= hi ==> Clip(v, lo, hi) == v
    ensures hi < v ==> Clip(v, lo, hi) == hi
  {
  }

  /** Where one end of a row's interval is reported: pulled to the edge it sticks out of. */
  ghost predicate PulledIn(end: real, v: real, size: nat) {
    && (v < 0.0 ==> end == 0.0)
    && (0.0 <= v <= size as real ==> end == v)
    && (size as real < v ==> end == size as real)
  }

  /** The corners of any row, inside the model input or not. */
  lemma CornersPulledIn(r: Row, width: nat, height: nat)
    ensures var b := CornerBox(r, width, height);
            && PulledIn(b.x1, r.cx - r.w / 2.0, width) && PulledIn(b.x2, r.cx + r.w / 2.0, width)
            && PulledIn(b.y1, r.cy - r.h / 2.0, height) && PulledIn(b.y2, r.cy + r.h / 2.0, height)
  {
    ClipIsNearest(r.cx - r.w / 2.0, 0.0, width as real);
    ClipIsNearest(r.cx + r.w / 2.0, 0.0, width as real);
    ClipIsNearest(r.cy - r.h / 2.0, 0.0, height as real);
    ClipIsNearest(r.cy + r.h / 2.0, 0.0, height as real);
  }

  function ToCandidate(r: Row, width: nat, height: nat): Candidate
    requires r.classes != []
  {
    var best := ArgMax(r.classes);
    Candidate(CornerBox(r, width, height), r.classes[best], best)
  }

  /** The candidates that pass the confidence filter, in row order. */
  function Candidates(rows: seq<Row>, conf: real, width: nat, height: nat): seq<Candidate>
    requires WellFormed(rows)
  {
    if rows == [] then []
    else
      var n := |rows| - 1;
      var c := ToCandidate(rows[n], width, height);
      Candidates(rows[..n], conf, width, height) + (if c.score >= conf then [c] else [])
  }

  lemma {:induction false} RowIsListed(rows: seq<Row>, conf: real, width: nat, height: nat, k: nat)
    requires WellFormed(rows) && k < |rows| && ToCandidate(rows[k], width, height).score >= conf
    ensures ToCandidate(rows[k], width, height) in Candidates(rows, conf, width, height)
  {
    var n := |rows| - 1;
    if k < n {
      RowIsListed(rows[..n], conf, width, height, k);
    }
  }

  lemma {:induction false} ListedIsRow(rows: seq<Row>, conf: real, width: nat, height: nat, c: Candidate)
    requires WellFormed(rows) && c in Candidates(rows, conf, width, height)
    ensures c.score >= conf && exists k :: 0 <= k < |rows| && ToCandidate(rows[k], width, height) == c
  {
    var n := |rows| - 1;
    if c in Candidates(rows[..n], conf, width, height) {
      ListedIsRow(rows[..n], conf, width, height, c);
      var k :| 0 <= k < n && ToCandidate(rows[..n][k], width, height) == c;
      assert rows[k] == rows[..n][k];
    } else {
      assert ToCandidate(rows[n], width, height) == c;
    }
  }

  function Boxes(cs: seq<Candidate>): (bs: seq<Box>)
    ensures |bs| == |cs| && forall k :: 0 <= k < |cs| ==> bs[k] == cs[k].box
  {
    seq(|cs|, k requires 0 <= k < |cs| => cs[k].box)
  }

  function Scores(cs: seq<Candidate>): (ss: seq<real>)
    ensures |ss| == |cs| && forall k :: 0 <= k < |cs| ==> ss[k] == cs[k].score
  {
    seq(|cs|, k requires 0 <= k < |cs| => cs[k].score)
  }

  ghost predicate Within(cs: seq<Candidate>, keep: seq<nat>) {
    forall k :: 0 <= k < |keep| ==> keep[k] < |cs|
  }

  function Pick(cs: seq<Candidate>, keep: seq<nat>): (ds: seq<Candidate>)
    requires Within(cs, keep)
    ensures |ds| == |keep| && forall k :: 0 <= k < |keep| ==> ds[k] == cs[keep[k]]
  {
    seq(|keep|, k requires 0 <= k < |keep| => cs[keep[k]])
  }

  function FirstHundred<T>(s: seq<T>): seq<T> {
    if |s| <= LIMIT then s else s[..LIMIT]
  }

  /** The first hundred kept candidates, for the order in which argsort listed them. */
  ghost predicate IsReport(cs: seq<Candidate>, thr: real, sorted: seq<nat>, report: seq<Candidate>) {
    && Descending(Scores(cs), sorted)
    && var keep := Greedy(Overlapping(Boxes(cs), thr), sorted);
       Within(cs, keep) && report == FirstHundred(Pick(cs, keep))
  }

  /** `postprocess_yolo_outputs` on one output tensor, then the worker's `[:100]`.
      `sorted` is what the argsort of the filtered scores returns. */
  method Report(rows: seq<Row>, conf: real, thr: real, width: nat, height: nat, sorted: seq<nat>)
    returns (report: seq<Candidate>)
    requires WellFormed(rows)
    requires Descending(Scores(Candidates(rows, conf, width, height)), sorted)
    ensures IsReport(Candidates(rows, conf, width, height), thr, sorted, report)
  {
    var cs := Candidates(rows, conf, width, height);
    var keep := Nms(Boxes(cs), Scores(cs), thr, sorted);
    KeptWithin(cs, thr, sorted);
    var detections := [];
    for k := 0 to |keep|
      invariant detections == Pick(cs, keep)[..k]
    {
      detections := detections + [cs[keep[k]]];
    }
    assert detections == Pick(cs, keep);
    report := FirstHundred(detections);
  }

  lemma KeptWithin(cs: seq<Candidate>, thr: real, sorted: seq<nat>)
    requires Descending(Scores(cs), sorted)
    ensures var keep := Greedy(Overlapping(Boxes(cs), thr), sorted);
            Within(cs, keep) && HighToLow(Scores(cs), keep)
  {
    GreedyIsPass(Overlapping(Boxes(cs), thr), sorted);
    KeptHighToLow(Overlapping(Boxes(cs), thr), Scores(cs), sorted);
  }

  // ----- what a report leaves out -------------------------------------------------------------

  /** A candidate is reported, or a reported box of no lower score overlaps it above the
      threshold, or the report is full of scores at least as high. */
  ghost predicate AccountedFor(c: Candidate, report: seq<Candidate>, thr: real) {
    || c in report
    || (exists d :: d in report && d.score >= c.score && Iou(d.box, c.box) > thr)
    || (|report| == 100 && forall d :: d in report ==> d.score >= c.score)
  }

  lemma EveryCandidateAccountedFor(rows: seq<Row>, conf: real, thr: real, width: nat, height: nat, sorted: seq<nat>,
                                   report: seq<Candidate>, k: nat)
    requires WellFormed(rows) && k < |rows|
    requires ToCandidate(rows[k], width, height).score >= conf
    requires IsReport(Candidates(rows, conf, width, height), thr, sorted, report)
    ensures AccountedFor(ToCandidate(rows[k], width, height), report, thr)
  {
    var cs := Candidates(rows, conf, width, height);
    var c := ToCandidate(rows[k], width, height);
    RowIsListed(rows, conf, width, height, k);
    var x :| 0 <= x < |cs| && cs[x] == c;
    assert x in sorted;
    var p :| 0 <= p < |sorted| && sorted[p] == x;
    IndexAccountedFor(cs, thr, sorted, p);
  }

  /** `m` is the first class of the row with the greatest score. */
  ghost predicate IsBestClass(r: Row, m: nat) {
    && m < |r.classes|
    && (forall j :: 0 <= j < |r.classes| ==> r.classes[j] <= r.classes[m])
    && (forall j :: 0 <= j < m ==> r.classes[j] < r.classes[m])
  }

  lemma CandidateHasBestClass(r: Row, width: nat, height: nat)
    requires r.classes != []
    ensures var c := ToCandidate(r, width, height);
            IsBestClass(r, c.classId) && c.score == r.classes[c.classId] && c.box == CornerBox(r, width, height)
    ensures forall m :: IsBestClass(r, m) ==> m == ToCandidate(r, width, height).classId
  {
    forall m: nat | IsBestClass(r, m) ensures m == ToCandidate(r, width, height).classId {
      var best := ArgMax(r.classes);
      assert r.classes[best] <= r.classes[m] && r.classes[m] <= r.classes[best];
    }
  }

  /** Every row with some class at or above the confidence threshold is accounted for, at its
      best class and that class's score. */
  lemma EveryConfidentRowAccountedFor(rows: seq<Row>, conf: real, thr: real, width: nat, height: nat,
                                      sorted: seq<nat>, report: seq<Candidate>, k: nat, j: nat)
    returns (m: nat)
    requires WellFormed(rows) && k < |rows| && j < |rows[k].classes| && rows[k].classes[j] >= conf
    requires IsReport(Candidates(rows, conf, width, height), thr, sorted, report)
    ensures IsBestClass(rows[k], m)
    ensures AccountedFor(Candidate(CornerBox(rows[k], width, height), rows[k].classes[m], m), report, thr)
  {
    CandidateHasBestClass(rows[k], width, height);
    m := ToCandidate(rows[k], width, height).classId;
    EveryCandidateAccountedFor(rows, conf, thr, width, height, sorted, report, k);
  }

  /** Every reported box is the box of a row, with the row's best class and that class's score,
      at or above the confidence threshold. */
  lemma ReportedIsBestClassOfRow(rows: seq<Row>, conf: real, thr: real, width: nat, height: nat, sorted: seq<nat>,
                                 report: seq<Candidate>, a: nat) returns (k: nat)
    requires WellFormed(rows) && a < |report|
    requires IsReport(Candidates(rows, conf, width, height), thr, sorted, report)
    ensures k < |rows| && IsBestClass(rows[k], report[a].classId)
    ensures report[a].score == rows[k].classes[report[a].classId] >= conf
    ensures report[a].box == CornerBox(rows[k], width, height)
  {
    ReportComesFromRows(rows, conf, thr, width, height, sorted, report, a);
    k :| 0 <= k < |rows| && ToCandidate(rows[k], width, height) == report[a];
    CandidateHasBestClass(rows[k], width, height);
  }

  /** What is reported: candidates from high to low, at most 100, no two of them
      overlapping above the threshold. */
  lemma ReportIsApart(cs: seq<Candidate>, thr: real, sorted: seq<nat>, report: seq<Candidate>)
    requires IsReport(cs, thr, sorted, report)
    ensures |report| <= 100
    ensures forall a :: 0 <= a < |report| ==> report[a] in cs
    ensures forall a, b :: 0 <= a < b < |report| ==>
              report[a].score >= report[b].score && Iou(report[a].box, report[b].box) <= thr
  {
    var over := Overlapping(Boxes(cs), thr);
    var keep := Greedy(over, sorted);
    GreedyIsPass(over, sorted);
    KeptWithin(cs, thr, sorted);
    KeptApart(over, sorted);
    forall a, b | 0 <= a < b < |report|
      ensures report[a].score >= report[b].score && Iou(report[a].box, report[b].box) <= thr
    {
      assert !over(keep[a], keep[b]) && Scores(cs)[keep[a]] >= Scores(cs)[keep[b]];
    }
  }

  /** Every reported box comes from a row that passed the confidence filter. */
  lemma ReportComesFromRows(rows: seq<Row>, conf: real, thr: real, width: nat, height: nat, sorted: seq<nat>,
                            report: seq<Candidate>, a: nat)
    requires WellFormed(rows) && a < |report|
    requires IsReport(Candidates(rows, conf, width, height), thr, sorted, report)
    ensures report[a].score >= conf
    ensures exists k :: 0 <= k < |rows| && ToCandidate(rows[k], width, height) == report[a]
  {
    ReportIsApart(Candidates(rows, conf, width, height), thr, sorted, report);
    ListedIsRow(rows, conf, width, height, report[a]);
  }

  lemma IndexAccountedFor(cs: seq<Candidate>, thr: real, sorted: seq<nat>, p: nat)
    requires Descending(Scores(cs), sorted) && p < |sorted|
    requires Within(cs, Greedy(Overlapping(Boxes(cs), thr), sorted))
    ensures AccountedFor(cs[sorted[p]], FirstHundred(Pick(cs, Greedy(Overlapping(Boxes(cs), thr), sorted))), thr)
  {
    var over := Overlapping(Boxes(cs), thr);
    var keep := Greedy(over, sorted);
    GreedyIsPass(over, sorted);
    KeptWithin(cs, thr, sorted);
    KeptCover(over, Scores(cs), sorted, p);
    if sorted[p] in keep {
      var a :| 0 <= a < |keep| && keep[a] == sorted[p];
      KeptAccountedFor(cs, keep, a, cs[sorted[p]], thr);
    } else {
      var a :| 0 <= a < |keep| && keep[a] < |cs| && over(keep[a], sorted[p])
               && cs[keep[a]].score >= cs[sorted[p]].score;
      KeptAccountedFor(cs, keep, a, cs[sorted[p]], thr);
    }
  }

  /** `c` is the kept box `a` itself or is overlapped by it and scores no higher. */
  lemma KeptAccountedFor(cs: seq<Candidate>, keep: seq<nat>, a: nat, c: Candidate, thr: real)
    requires Within(cs, keep) && HighToLow(Scores(cs), keep) && a < |keep|
    requires c == cs[keep[a]] || (cs[keep[a]].score >= c.score && Iou(cs[keep[a]].box, c.box) > thr)
    ensures AccountedFor(c, FirstHundred(Pick(cs, keep)), thr)
  {
    var all, report := Pick(cs, keep), FirstHundred(Pick(cs, keep));
    if a < |report| {
      assert report[a] == cs[keep[a]];
      assert report[a] in report;
    } else {
      forall d | d in report ensures d.score >= c.score {
        var b :| 0 <= b < |report| && report[b] == d;
        assert d == cs[keep[b]];
        assert Scores(cs)[keep[b]] >= Scores(cs)[keep[a]];
      }
    }
  }

  // ----- scaling back to the original image ------------------------------------------------

  /** The two scale factors of `refine_detection`. */
  function Scale(original: nat, input: nat): real {
    original as real / Max(input as real, 1.0)
  }

  function Scaled(b: Box, sx: real, sy: real): Box {
    Box(b.x1 * sx, b.y1 * sy, b.x2 * sx, b.y2 * sy)
  }

  function ClipTo(b: Box, width: nat, height: nat): Box {
    Box(Clip(b.x1, 0.0, width as real), Clip(b.y1, 0.0, height as real),
        Clip(b.x2, 0.0, width as real), Clip(b.y2, 0.0, height as real))
  }

  /** The reported box in original-image coordinates. */
  function Refine(b: Box, width: nat, height: nat, inWidth: nat, inHeight: nat): Box {
    ClipTo(Scaled(b, Scale(width, inWidth), Scale(height, inHeight)), width, height)
  }

  predicate Inside(b: Box, width: nat, height: nat) {
    && 0.0 <= b.x1 <= width as real && 0.0 <= b.x2 <= width as real
    && 0.0 <= b.y1 <= height as real && 0.0 <= b.y2 <= height as real
  }

  lemma Monotone(a: real, b: real, s: real)
    requires s >= 0.0 && a <= b
    ensures a * s <= b * s
  {
  }

  lemma ScaleFits(original: nat, input: nat)
    ensures Scale(original, input) >= 0.0
    ensures input as real * Scale(original, input) <= original as real
  {
    var m, s := Max(input as real, 1.0), Scale(original, input);
    assert m * s == original as real;
    Monotone(input as real, m, s);
  }

  /** One coordinate of the scaling stays in the image. */
  lemma CoordinateFits(v: real, original: nat, input: nat, s: real)
    requires 0.0 <= v <= input as real && s >= 0.0 && input as real * s <= original as real
    ensures 0.0 <= v * s <= original as real
  {
    Areas(v, s, input as real, s);
  }

  lemma ScaledFits(b: Box, width: nat, height: nat, inWidth: nat, inHeight: nat, sx: real, sy: real)
    requires Inside(b, inWidth, inHeight)
    requires sx >= 0.0 && inWidth as real * sx <= width as real
    requires sy >= 0.0 && inHeight as real * sy <= height as real
    ensures Inside(Scaled(b, sx, sy), width, height)
  {
    CoordinateFits(b.x1, width, inWidth, sx);
    CoordinateFits(b.x2, width, inWidth, sx);
    CoordinateFits(b.y1, height, inHeight, sy);
    CoordinateFits(b.y2, height, inHeight, sy);
  }

  lemma InsideIsNotClipped(b: Box, width: nat, height: nat)
    requires Inside(b, width, height)
    ensures ClipTo(b, width, height) == b
  {
  }

  /** The clip of `refine_detection` does nothing to a box already clipped to the model
      input, and the result lies inside the image. */
  lemma RefineIsPureScaling(b: Box, width: nat, height: nat, inWidth: nat, inHeight: nat)
    requires Inside(b, inWidth, inHeight)
    ensures Refine(b, width, height, inWidth, inHeight) == Scaled(b, Scale(width, inWidth), Scale(height, inHeight))
    ensures Inside(Refine(b, width, height, inWidth, inHeight), width, height)
  {
    var sx, sy := Scale(width, inWidth), Scale(height, inHeight);
    ScaleFits(width, inWidth);
    ScaleFits(height, inHeight);
    ScaledFits(b, width, height, inWidth, inHeight, sx, sy);
    InsideIsNotClipped(Scaled(b, sx, sy), width, height);
  }

  lemma KeepsOrder(a: real, b: real, s: real)
    requires s >= 0.0
    ensures a <= b ==> a * s <= b * s
  {
    if a <= b {
      Monotone(a, b, s);
    }
  }

  /** Whatever the box, the refined one lies inside the image. */
  lemma RefinedIsInside(b: Box, width: nat, height: nat, inWidth: nat, inHeight: nat)
    ensures Inside(Refine(b, width, height, inWidth, inHeight), width, height)
  {
  }

  /** In original pixels a coordinate has the same share of the image as it had of the model
      input. */
  lemma RefineKeepsShares(b: Box, width: nat, height: nat, inWidth: nat, inHeight: nat)
    requires Inside(b, inWidth, inHeight) && inWidth > 0 && inHeight > 0
    ensures var r := Refine(b, width, height, inWidth, inHeight);
            && r.x1 * inWidth as real == b.x1 * width as real && r.x2 * inWidth as real == b.x2 * width as real
            && r.y1 * inHeight as real == b.y1 * height as real && r.y2 * inHeight as real == b.y2 * height as real
  {
    RefineIsPureScaling(b, width, height, inWidth, inHeight);
    SharesOfScaled(b, inWidth, width, Scale(width, inWidth));
    SharesOfScaled(b, inHeight, height, Scale(height, inHeight));
  }

  lemma SharesOfScaled(b: Box, input: nat, original: nat, s: real)
    requires input > 0 && s == Scale(original, input)
    ensures (b.x1 * s) * input as real == b.x1 * original as real
    ensures (b.x2 * s) * input as real == b.x2 * original as real
    ensures (b.y1 * s) * input as real == b.y1 * original as real
    ensures (b.y2 * s) * input as real == b.y2 * original as real
  {
    var m := input as real;
    assert m * s == original as real;
    Share(b.x1, s, m, original as real);
    Share(b.x2, s, m, original as real);
    Share(b.y1, s, m, original as real);
    Share(b.y2, s, m, original as real);
  }

  /** In particular a box that fills the input is refined to the whole image. */
  lemma WholeInputIsWholeImage(width: nat, height: nat, inWidth: nat, inHeight: nat)
    requires inWidth > 0 && inHeight > 0
    ensures Refine(Box(0.0, 0.0, inWidth as real, inHeight as real), width, height, inWidth, inHeight)
            == Box(0.0, 0.0, width as real, height as real)
  {
    var b, sx, sy := Box(0.0, 0.0, inWidth as real, inHeight as real), Scale(width, inWidth), Scale(height, inHeight);
    RefineIsPureScaling(b, width, height, inWidth, inHeight);
    assert inWidth as real * sx == width as real && inHeight as real * sy == height as real;
  }

  lemma Share(v: real, s: real, input: real, original: real)
    requires input * s == original
    ensures (v * s) * input == v * original
  {
  }

  /** The refined box keeps the order of the corners, whether or not it is clipped. */
  lemma CornersKeepOrder(b: Box, width: nat, height: nat, inWidth: nat, inHeight: nat)
    ensures var r := Refine(b, width, height, inWidth, inHeight);
            (b.x1 <= b.x2 ==> r.x1 <= r.x2) && (b.y1 <= b.y2 ==> r.y1 <= r.y2)
  {
    var sx, sy := Scale(width, inWidth), Scale(height, inHeight);
    ScaleFits(width, inWidth);
    ScaleFits(height, inHeight);
    ScaledCornersKeepOrder(b, Scaled(b, sx, sy), sx, sy);
  }

  lemma ScaledCornersKeepOrder(b: Box, r: Box, sx: real, sy: real)
    requires sx >= 0.0 && sy >= 0.0 && r == Scaled(b, sx, sy)
    ensures (b.x1 <= b.x2 ==> r.x1 <= r.x2) && (b.y1 <= b.y2 ==> r.y1 <= r.y2)
  {
    KeepsOrder(b.x1, b.x2, sx);
    KeepsOrder(b.y1, b.y2, sy);
  }

  lemma MaxScales(a: real, b: real, s: real)
    requires s >= 0.0
    ensures Max(a * s, b * s) == Max(a, b) * s && Min(a * s, b * s) == Min(a, b) * s
  {
    if a <= b {
      Monotone(a, b, s);
    } else {
      Monotone(b, a, s);
    }
  }

  lemma LengthScales(l: real, h: real, s: real)
    requires s >= 0.0
    ensures Max(0.0, h * s - l * s) == Max(0.0, h - l) * s
  {
    assert h * s - l * s == (h - l) * s;
    MaxScales(0.0, h - l, s);
  }

  function ScaledAxis(x: Axis, s: real): Axis {
    Axis(x.shared * s, x.first * s, x.second * s)
  }

  /** The length of an interval both of whose ends are scaled. */
  lemma IntervalScales(lo: real, hi: real, l: real, h: real, s: real)
    requires s >= 0.0 && l == lo * s && h == hi * s
    ensures Max(0.0, h - l) == Max(0.0, hi - lo) * s
  {
    LengthScales(lo, hi, s);
  }

  lemma SharedScales(lo: real, hi: real, lo': real, hi': real, l: real, h: real, l': real, h': real, s: real)
    requires s >= 0.0 && l == lo * s && h == hi * s && l' == lo' * s && h' == hi' * s
    ensures Max(0.0, Min(h, h') - Max(l, l')) == Max(0.0, Min(hi, hi') - Max(lo, lo')) * s
  {
    MaxScales(lo, lo', s);
    MaxScales(hi, hi', s);
    IntervalScales(Max(lo, lo'), Min(hi, hi'), Max(l, l'), Min(h, h'), s);
  }

  lemma AxisScales(lo: real, hi: real, lo': real, hi': real, l: real, h: real, l': real, h': real, s: real)
    requires s >= 0.0 && l == lo * s && h == hi * s && l' == lo' * s && h' == hi' * s
    ensures OnAxis(l, h, l', h') == ScaledAxis(OnAxis(lo, hi, lo', hi'), s)
  {
    SharedScales(lo, hi, lo', hi', l, h, l', h', s);
    IntervalScales(lo, hi, l, h, s);
    IntervalScales(lo', hi', l', h', s);
  }

  lemma FourFactors(x: real, y: real, s: real, t: real)
    ensures (x * s) * (y * t) == (x * y) * (s * t)
  {
  }

  lemma Distribute(p: real, q: real, r: real, c: real)
    ensures p * c + q * c - r * c == (p + q - r) * c
  {
  }

  lemma InterScales(x: Axis, y: Axis, sx: real, sy: real)
    ensures Inter(ScaledAxis(x, sx), ScaledAxis(y, sy)) == Inter(x, y) * (sx * sy)
  {
    FourFactors(x.shared, y.shared, sx, sy);
  }

  lemma UnionScales(x: Axis, y: Axis, sx: real, sy: real)
    ensures Union(ScaledAxis(x, sx), ScaledAxis(y, sy)) == Union(x, y) * (sx * sy)
  {
    FourFactors(x.shared, y.shared, sx, sy);
    FourFactors(x.first, y.first, sx, sy);
    FourFactors(x.second, y.second, sx, sy);
    Distribute(x.first * y.first, x.second * y.second, x.shared * y.shared, sx * sy);
  }

  lemma CompareScaled(i: real, a: real, b: real)
    requires i >= 0.0
    ensures i * a <= i * b <==> i == 0.0 || a <= b
  {
    if i > 0.0 && a > b {
      assert i * (a - b) > 0.0;
    } else if i > 0.0 {
      Monotone(a, b, i);
    }
  }

  lemma CrossMultiply(p: real, d': real, i: real, d: real)
    requires d > 0.0 && d' > 0.0
    ensures p / d' <= i / d <==> p * d <= i * d'
  {
    var x, y, k := p / d', i / d, d * d';
    assert p == x * d' && i == y * d;
    assert k > 0.0;
    assert p * d == x * k;
    assert i * d' == y * k;
    CompareScaled(k, x, y);
  }

  lemma LargerFactor(u: real, c: real, e: real)
    requires u < e && c > 1.0 && e > 0.0
    ensures c * e > e && c * e > u * c
  {
    assert (c - 1.0) * e > 0.0;
    assert c * (e - u) > 0.0;
  }

  lemma DivisorScales(u: real, c: real, d: real, u': real)
    requires c >= 0.0 && u' == u * c && d == Max(u, EPSILON)
    ensures c * d <= Max(u', EPSILON) <==> u >= EPSILON || c <= 1.0
  {
    if u >= EPSILON {
      assert d == u;
      assert c * d == u';
    } else {
      assert d == EPSILON;
      if c <= 1.0 {
        Monotone(c, 1.0, d);
      } else {
        LargerFactor(u, c, d);
      }
    }
  }

  /** `i / u` with both scaled by `c`, the divisor never below EPSILON. */
  lemma ScaledRatio(i: real, u: real, c: real, i': real, u': real)
    requires i >= 0.0 && c >= 0.0 && i' == i * c && u' == u * c
    ensures i' / Max(u', EPSILON) <= i / Max(u, EPSILON) <==> i == 0.0 || u >= EPSILON || c <= 1.0
  {
    var d, d' := Max(u, EPSILON), Max(u', EPSILON);
    CrossMultiply(i', d', i, d);
    assert i' * d == i * (c * d);
    CompareScaled(i, c * d, d');
    DivisorScales(u, c, d, u');
  }

  lemma ScaledAxesIff(x: Axis, y: Axis, sx: real, sy: real)
    requires sx >= 0.0 && sy >= 0.0 && x.shared >= 0.0 && y.shared >= 0.0
    ensures Ratio(ScaledAxis(x, sx), ScaledAxis(y, sy)) <= Ratio(x, y) <==>
            Inter(x, y) == 0.0 || Union(x, y) >= EPSILON || sx * sy <= 1.0
  {
    var x', y' := ScaledAxis(x, sx), ScaledAxis(y, sy);
    InterScales(x, y, sx, sy);
    UnionScales(x, y, sx, sy);
    Areas(0.0, 0.0, sx, sy);
    Areas(0.0, 0.0, x.shared, y.shared);
    ScaledRatio(Inter(x, y), Union(x, y), sx * sy, Inter(x', y'), Union(x', y'));
  }

  /** Scaling a pair of boxes does not raise their IoU exactly when they are disjoint, or
      their union in model input is large enough to be the divisor, or the scaling does
      not enlarge areas. */
  lemma ScaledIouIff(a: Box, b: Box, sx: real, sy: real)
    requires sx >= 0.0 && sy >= 0.0
    ensures var x, y := OnX(a, b), OnY(a, b);
            Iou(Scaled(a, sx, sy), Scaled(b, sx, sy)) <= Iou(a, b) <==>
            Inter(x, y) == 0.0 || Union(x, y) >= 0.000001 || sx * sy <= 1.0
  {
    var a', b' := Scaled(a, sx, sy), Scaled(b, sx, sy);
    ScaledOnX(a, b, a', b', sx);
    ScaledOnY(a, b, a', b', sy);
    ScaledAxesIff(OnX(a, b), OnY(a, b), sx, sy);
  }

  lemma ScaledOnX(a: Box, b: Box, a': Box, b': Box, s: real)
    requires s >= 0.0 && a'.x1 == a.x1 * s && a'.x2 == a.x2 * s && b'.x1 == b.x1 * s && b'.x2 == b.x2 * s
    ensures OnX(a', b') == ScaledAxis(OnX(a, b), s)
  {
    AxisScales(a.x1, a.x2, b.x1, b.x2, a'.x1, a'.x2, b'.x1, b'.x2, s);
  }

  lemma ScaledOnY(a: Box, b: Box, a': Box, b': Box, s: real)
    requires s >= 0.0 && a'.y1 == a.y1 * s && a'.y2 == a.y2 * s && b'.y1 == b.y1 * s && b'.y2 == b.y2 * s
    ensures OnY(a', b') == ScaledAxis(OnY(a, b), s)
  {
    AxisScales(a.y1, a.y2, b.y1, b.y2, a'.y1, a'.y2, b'.y1, b'.y2, s);
  }

  lemma CandidatesInside(r: Row, width: nat, height: nat)
    ensures Inside(CornerBox(r, width, height), width, height)
  {
  }

  /** The guarantee of suppression survives the scaling: two reported boxes whose union in
      model input is at least 1e-6 do not overlap above the threshold in the image. */
  lemma RefinedReportIsApart(rows: seq<Row>, conf: real, thr: real, width: nat, height: nat,
                             inWidth: nat, inHeight: nat, sorted: seq<nat>, report: seq<Candidate>, a: nat, b: nat)
    requires WellFormed(rows) && a < b < |report|
    requires IsReport(Candidates(rows, conf, inWidth, inHeight), thr, sorted, report)
    requires Union(OnX(report[a].box, report[b].box), OnY(report[a].box, report[b].box)) >= 0.000001
    ensures Iou(Refine(report[a].box, width, height, inWidth, inHeight),
                Refine(report[b].box, width, height, inWidth, inHeight)) <= thr
  {
    ReportIsApart(Candidates(rows, conf, inWidth, inHeight), thr, sorted, report);
    ReportedInside(rows, conf, thr, inWidth, inHeight, sorted, report, a);
    ReportedInside(rows, conf, thr, inWidth, inHeight, sorted, report, b);
    RefineIsPureScaling(report[a].box, width, height, inWidth, inHeight);
    RefineIsPureScaling(report[b].box, width, height, inWidth, inHeight);
    ScaleFits(width, inWidth);
    ScaleFits(height, inHeight);
    ScaledIouIff(report[a].box, report[b].box, Scale(width, inWidth), Scale(height, inHeight));
  }

  lemma ReportedInside(rows: seq<Row>, conf: real, thr: real, width: nat, height: nat, sorted: seq<nat>,
                       report: seq<Candidate>, a: nat)
    requires WellFormed(rows) && a < |report|
    requires IsReport(Candidates(rows, conf, width, height), thr, sorted, report)
    ensures Inside(report[a].box, width, height)
  {
    ReportComesFromRows(rows, conf, thr, width, height, sorted, report, a);
    var k :| 0 <= k < |rows| && ToCandidate(rows[k], width, height) == report[a];
    CandidatesInside(rows[k], width, height);
  }

  // ----- where the guarantee is lost --------------------------------------------------------

  /** A box so small that its own area is below the divisor floor. */
  const TINY := Box(0.0, 0.0, 0.0005, 0.0005)

  lemma SelfIou(b: Box, side: real)
    requires side >= 0.0 && b == Box(0.0, 0.0, side, side)
    ensures Iou(b, b) == side * side / Max(side * side, EPSILON)
  {
    var x := OnX(b, b);
    assert x == Axis(side, side, side) && OnY(b, b) == x;
    assert Union(x, x) == side * side;
  }

  /** Two detections of the same tiny object, apart for the threshold in model input, overlap
      completely once scaled to an image ten times as large. */
  lemma TinyPairRises(thr: real)
    requires 0.25 <= thr < 1.0
    ensures Iou(TINY, TINY) <= thr
    ensures var r := Refine(TINY, 6400, 6400, 640, 640); Iou(r, r) > thr
  {
    SelfIou(TINY, 0.0005);
    RefineIsPureScaling(TINY, 6400, 6400, 640, 640);
    assert Scale(6400, 640) == 10.0;
    SelfIou(Scaled(TINY, 10.0, 10.0), 0.005);
  }

  /** A row with this box. */
  const TINY_ROW := Row(0.00025, 0.00025, 0.0005, 0.0005, [0.9, 0.1])

  lemma TinyCandidate()
    ensures ToCandidate(TINY_ROW, 640, 640) == Candidate(TINY, 0.9, 0)
  {
    var best := ArgMax(TINY_ROW.classes);
    assert TINY_ROW.classes[0] == 0.9 && TINY_ROW.classes[1] == 0.1;
    assert TINY_ROW.classes[0] <= TINY_ROW.classes[best];
  }

  lemma TwoCandidates(r: Row, conf: real, c: Candidate)
    requires |r.classes| >= 2 && c == ToCandidate(r, 640, 640) && c.score >= conf
    ensures Candidates([r, r], conf, 640, 640) == [c, c]
  {
    assert [r, r][..1] == [r] && [r][..0] == [];
    assert Candidates([r], conf, 640, 640) == [] + [c];
    assert [c] + [c] == [c, c];
  }

  lemma DescendingPair(scores: seq<real>, sorted: seq<nat>)
    requires |scores| == 2 && scores[0] >= scores[1] && sorted == [0, 1]
    ensures Descending(scores, sorted)
  {
    assert sorted[0] == 0 && sorted[1] == 1;
  }

  /** Boxes that do not overlap are all kept. */
  lemma ApartAllReported(cs: seq<Candidate>, thr: real, sorted: seq<nat>)
    requires Descending(Scores(cs), sorted) && Apart(Overlapping(Boxes(cs), thr), sorted) && |cs| <= LIMIT
    ensures Within(cs, sorted) && IsReport(cs, thr, sorted, Pick(cs, sorted))
  {
    ApartAllKept(Overlapping(Boxes(cs), thr), sorted);
    GreedyIsPass(Overlapping(Boxes(cs), thr), sorted);
  }

  lemma ApartPair(over: Relation, sorted: seq<nat>)
    requires |sorted| == 2 && !over(sorted[0], sorted[1])
    ensures Apart(over, sorted)
  {
  }

  lemma BothKept(cs: seq<Candidate>, thr: real, sorted: seq<nat>)
    requires |cs| == 2 && Iou(cs[0].box, cs[1].box) <= thr && cs[0].score >= cs[1].score && sorted == [0, 1]
    ensures IsReport(cs, thr, sorted, cs)
  {
    DescendingPair(Scores(cs), sorted);
    assert Boxes(cs)[0] == cs[0].box && Boxes(cs)[1] == cs[1].box;
    ApartPair(Overlapping(Boxes(cs), thr), sorted);
    ApartAllReported(cs, thr, sorted);
    assert Pick(cs, sorted) == cs;
  }

  /** The guarantee lost in full: both rows are reported, since in model input they overlap
      by no more than the threshold, and in the image they coincide. */
  lemma ScalingLosesGuarantee() returns (sorted: seq<nat>, report: seq<Candidate>)
    ensures IsReport(Candidates([TINY_ROW, TINY_ROW], 0.25, 640, 640), 0.45, sorted, report)
    ensures |report| == 2
    ensures Iou(report[0].box, report[1].box) <= 0.45
    ensures Iou(Refine(report[0].box, 6400, 6400, 640, 640), Refine(report[1].box, 6400, 6400, 640, 640)) > 0.45
  {
    var c := Candidate(TINY, 0.9, 0);
    TinyCandidate();
    TwoCandidates(TINY_ROW, 0.25, c);
    TinyPairRises(0.45);
    sorted, report := [0, 1], [c, c];
    BothKept(report, 0.45, sorted);
  }
}
