/**
 * The ORP -> free-chlorine estimator of frontend/src/utils/chlorineCalculator.ts.
 *
 * A reading is a pH value and an oxidation-reduction potential in millivolts;
 * the estimate is a free-chlorine concentration in parts per million. The
 * estimator picks the reference curve whose pH anchor is nearest to the
 * (clamped) reading, extrapolates linearly below its 0.5 ppm point, and
 * otherwise scans consecutive control points for an interval that contains
 * the reading.
 *
 * The scan walks the control points in the order `Object.entries` lists the
 * keys of the curve object: the integer-like keys "1", "2", "3", "4" first,
 * then "0.5". The estimator is therefore defined once, parameterised by that
 * enumeration order: `CalculatePPM` uses the order the program actually sees,
 * `CalculatePPMSorted` the ascending order its comments describe.
 */
module Chlorine {
  import opened Basics

  // ---------------------------------------------------------------------
  // Rounding: Number(x.toFixed(1))
  // ---------------------------------------------------------------------

  /** x has at most one decimal digit. */
  predicate OneDecimal(x: real) {
    (10.0 * x).Floor as real == 10.0 * x
  }

  /** Non-negative rounding to one decimal, ties upwards. */
  function HalfUp(x: real): (r: real)
    requires x >= 0.0
    ensures -0.05 < r - x <= 0.05
    ensures OneDecimal(r)
    ensures r >= 0.0
  {
    var n := (10.0 * x + 0.5).Floor;
    assert n as real <= 10.0 * x + 0.5 < n as real + 1.0;
    assert 10.0 * (n as real / 10.0) == n as real;
    assert (n as real).Floor == n;
    n as real / 10.0
  }

  /**
   * `Number(x.toFixed(1))` on exact reals: the one-decimal value nearest to x,
   * ties resolved away from zero (toFixed rounds the magnitude and keeps the sign).
   */
  function Round1(x: real): (r: real)
    ensures -0.05 <= r - x <= 0.05
    ensures OneDecimal(r)
    ensures x >= 0.0 ==> r >= 0.0
    ensures x <= 0.0 ==> r <= 0.0
  {
    if x >= 0.0 then HalfUp(x)
    else
      var h := HalfUp(-x);
      assert (10.0 * -h).Floor == -((10.0 * h).Floor);
      -h
  }

  /** Rounding never reverses the order of two values. */
  lemma Round1Monotone(x: real, y: real)
    requires x <= y
    ensures Round1(x) <= Round1(y)
  {
    if 0.0 <= x {
      assert (10.0 * x + 0.5).Floor <= (10.0 * y + 0.5).Floor;
    } else if y < 0.0 {
      assert (10.0 * -y + 0.5).Floor <= (10.0 * -x + 0.5).Floor;
    }
  }

  /** Rounding leaves a value that already has one decimal digit unchanged. */
  lemma Round1Exact(x: real)
    requires OneDecimal(x)
    ensures Round1(x) == x
  {
    var k := (10.0 * x).Floor;
    assert 10.0 * x == k as real;
    if x >= 0.0 {
      assert (10.0 * x + 0.5).Floor == k;
    } else {
      assert (10.0 * -x + 0.5).Floor == -k;
    }
  }

  // ---------------------------------------------------------------------
  // The reference table
  // ---------------------------------------------------------------------

  /** A control point: (ppm, millivolts). */
  type Point = (real, int)

  /** A reference curve as the scan sees it: control points in enumeration order. */
  type Curve = seq<Point>

  /**
   * One row of `referenceTable`: the object literal
   * `{ 0.5: at05, 1.0: at1, 2.0: at2, 3.0: at3, 4.0: at4 }` of millivolt values.
   */
  datatype Row = Row(at05: int, at1: int, at2: int, at3: int, at4: int)

  /** The order in which the scan visits the control points of a row. */
  datatype Order =
    | ObjectEntries  // the order `Object.entries` produces: "1", "2", "3", "4", then "0.5"
    | AscendingPpm   // 0.5, 1, 2, 3, 4

  /** The control points of a row, enumerated in the given order. */
  function Points(row: Row, order: Order): (c: Curve)
    ensures |c| == 5
    ensures order == AscendingPpm ==> c[0] == (0.5, row.at05)
    ensures order == ObjectEntries ==> c[4] == (0.5, row.at05)
  {
    match order
    case ObjectEntries =>
      [(1.0, row.at1), (2.0, row.at2), (3.0, row.at3), (4.0, row.at4), (0.5, row.at05)]
    case AscendingPpm =>
      [(0.5, row.at05), (1.0, row.at1), (2.0, row.at2), (3.0, row.at3), (4.0, row.at4)]
  }

  /** The five pH anchors, as `Object.keys(...).map(Number).sort((a, b) => a - b)` lists them. */
  const PhKeys: seq<real> := [7.0, 7.2, 7.4, 7.6, 7.8]

  /** `referenceTable`: millivolt readings per pH anchor and ppm column. */
  const ReferenceTable: map<real, Row> := map[
    7.0 := Row(625, 715, 805, 858, 896),
    7.2 := Row(618, 705, 792, 843, 880),
    7.4 := Row(611, 695, 779, 829, 864),
    7.6 := Row(604, 685, 766, 814, 848),
    7.8 := Row(597, 675, 753, 799, 832)
  ]

  /** Within one row, the millivolt reading strictly increases with ppm. */
  predicate IncreasingInPpm(row: Row) {
    row.at05 < row.at1 < row.at2 < row.at3 < row.at4
  }

  /** A row as the table holds it: increasing in ppm and inside the saturation window. */
  predicate TableRow(row: Row) {
    IncreasingInPpm(row) && 400 < row.at05 <= 625 && row.at4 < 950
  }

  /** For every ppm column, row `hi` needs strictly fewer millivolts than row `lo`. */
  predicate BelowColumnwise(hi: Row, lo: Row) {
    && hi.at05 < lo.at05 && hi.at1 < lo.at1 && hi.at2 < lo.at2
    && hi.at3 < lo.at3 && hi.at4 < lo.at4
  }

  /** The table's keys are exactly the anchors, listed in increasing order. */
  lemma TableKeys()
    ensures ReferenceTable.Keys == set k | k in PhKeys
    ensures forall i, j :: 0 <= i < j < |PhKeys| ==> PhKeys[i] < PhKeys[j]
  {
  }

  /**
   * Every row increases with ppm and stays strictly inside the (400, 950)
   * saturation window.
   */
  lemma TableRows()
    ensures forall a :: a in ReferenceTable ==> TableRow(ReferenceTable[a])
  {
  }

  /** For a fixed ppm the millivolts fall as pH rises from one anchor to the next. */
  lemma TableColumnwise()
    ensures forall i :: 0 <= i < |PhKeys| - 1 ==>
              BelowColumnwise(ReferenceTable[PhKeys[i + 1]], ReferenceTable[PhKeys[i]])
  {
  }

  // ---------------------------------------------------------------------
  // Nearest-anchor selection: keys.reduce((prev, curr) => |curr - p| < |prev - p| ? curr : prev)
  // ---------------------------------------------------------------------

  /** |a - p| */
  function Dist(a: real, p: real): real {
    if a >= p then a - p else p - a
  }

  /** The reduce step: keep `prev` unless `curr` is strictly nearer. */
  function NearestFrom(prev: real, rest: seq<real>, p: real): real
    decreases |rest|
  {
    if rest == [] then prev
    else NearestFrom(Pick(prev, rest[0], p), rest[1..], p)
  }

  /** `keys.reduce(...)` without an initial value: the fold starts from `keys[0]`. */
  function Nearest(keys: seq<real>, p: real): real
    requires |keys| > 0
  {
    NearestFrom(keys[0], keys[1..], p)
  }

  /** keys[i] is at minimal distance from p, and no earlier key is as near. */
  predicate FirstNearest(keys: seq<real>, p: real, i: int) {
    && 0 <= i < |keys|
    && (forall j :: 0 <= j < |keys| ==> Dist(keys[i], p) <= Dist(keys[j], p))
    && (forall j :: 0 <= j < i ==> Dist(keys[i], p) < Dist(keys[j], p))
  }

  /** The reduce step's choice between the running anchor and the next key. */
  function Pick(prev: real, curr: real, p: real): real {
    if Dist(curr, p) < Dist(prev, p) then curr else prev
  }

  /**
   * One reduce step keeps the first-nearest property: if the fold from the
   * picked anchor ends on the first nearest element of the remaining list,
   * it ends on the first nearest element of the whole list.
   */
  lemma PickKeepsFirstNearest(prev: real, rest: seq<real>, p: real, i: nat)
    requires |rest| > 0
    requires FirstNearest([Pick(prev, rest[0], p)] + rest[1..], p, i)
    ensures var s := [prev] + rest;
            var t := [Pick(prev, rest[0], p)] + rest[1..];
            var k := if i > 0 then i + 1 else if Dist(rest[0], p) < Dist(prev, p) then 1 else 0;
            FirstNearest(s, p, k) && s[k] == t[i]
  {
    var s := [prev] + rest;
    var t := [Pick(prev, rest[0], p)] + rest[1..];
    assert forall j :: 1 <= j < |t| ==> t[j] == s[j + 1];
    assert s[0] == prev && s[1] == rest[0];
    var m := Dist(t[0], p);
    assert m <= Dist(prev, p) && m <= Dist(rest[0], p);
    var k := if i > 0 then i + 1 else if Dist(rest[0], p) < Dist(prev, p) then 1 else 0;
    forall j | 0 <= j < |s| ensures Dist(s[k], p) <= Dist(s[j], p) {
      if j >= 2 {
        assert s[j] == t[j - 1];
      }
    }
    forall j | 0 <= j < k ensures Dist(s[k], p) < Dist(s[j], p) {
      if j >= 2 {
        assert s[j] == t[j - 1];
      }
    }
  }

  /**
   * The fold from `prev` over `rest` ends on the first element of
   * `[prev] + rest` at minimal distance from p.
   */
  lemma {:induction false} NearestFromIsFirstNearest(prev: real, rest: seq<real>, p: real)
    ensures exists i :: FirstNearest([prev] + rest, p, i) && NearestFrom(prev, rest, p) == ([prev] + rest)[i]
    decreases |rest|
  {
    if rest == [] {
      assert FirstNearest([prev] + rest, p, 0);
    } else {
      var next := Pick(prev, rest[0], p);
      NearestFromIsFirstNearest(next, rest[1..], p);
      var i :| FirstNearest([next] + rest[1..], p, i) && NearestFrom(next, rest[1..], p) == ([next] + rest[1..])[i];
      PickKeepsFirstNearest(prev, rest, p, i);
    }
  }

  /**
   * The anchor chosen by the reduce is a key at minimal distance from p, and on
   * a tie the earliest such key wins (the replacement needs a strictly smaller
   * distance).
   */
  lemma NearestIsFirstMinimiser(keys: seq<real>, p: real)
    requires |keys| > 0
    ensures exists i :: FirstNearest(keys, p, i) && Nearest(keys, p) == keys[i]
  {
    NearestFromIsFirstNearest(keys[0], keys[1..], p);
    assert [keys[0]] + keys[1..] == keys;
  }

  /**
   * An independent description of the anchor selection over the five anchors:
   * a midpoint between two anchors goes to the lower one.
   */
  function AnchorByThreshold(p: real): (a: real)
    ensures a in PhKeys
  {
    if p <= 7.1 then 7.0
    else if p <= 7.3 then 7.2
    else if p <= 7.5 then 7.4
    else if p <= 7.7 then 7.6
    else 7.8
  }

  /** The reduce over the sorted anchors selects exactly the threshold anchor. */
  lemma NearestMatchesThresholds(p: real)
    ensures Nearest(PhKeys, p) == AnchorByThreshold(p)
  {
    var a1 := if Dist(7.2, p) < Dist(7.0, p) then 7.2 else 7.0;
    var a2 := if Dist(7.4, p) < Dist(a1, p) then 7.4 else a1;
    var a3 := if Dist(7.6, p) < Dist(a2, p) then 7.6 else a2;
    var a4 := if Dist(7.8, p) < Dist(a3, p) then 7.8 else a3;
    calc {
      Nearest(PhKeys, p);
      NearestFrom(a1, [7.4, 7.6, 7.8], p);
      { assert [7.4, 7.6, 7.8][1..] == [7.6, 7.8]; }
      NearestFrom(a2, [7.6, 7.8], p);
      { assert [7.6, 7.8][1..] == [7.8]; }
      NearestFrom(a3, [7.8], p);
      { assert [7.8][1..] == []; }
      a4;
    }
    if p <= 7.1 {
      assert a1 == 7.0 && a2 == 7.0 && a3 == 7.0 && a4 == 7.0;
    } else if p <= 7.3 {
      assert a1 == 7.2 && a2 == 7.2 && a3 == 7.2 && a4 == 7.2;
    } else if p <= 7.5 {
      assert a2 == 7.4 && a3 == 7.4 && a4 == 7.4;
    } else if p <= 7.7 {
      assert a3 == 7.6 && a4 == 7.6;
    }
  }

  /** `Math.max(6.5, Math.min(8.0, ph))` */
  function ClampPh(ph: real): (c: real)
    ensures 6.5 <= c <= 8.0
    ensures 6.5 <= ph <= 8.0 ==> c == ph
  {
    MaxReal(6.5, MinReal(8.0, ph))
  }

  /** The row of the anchor nearest to the clamped pH. */
  function SelectedRow(ph: real): (row: Row)
    ensures row == ReferenceTable[AnchorByThreshold(ClampPh(ph))]
    ensures TableRow(row)
  {
    NearestMatchesThresholds(ClampPh(ph));
    TableKeys();
    TableRows();
    ReferenceTable[Nearest(PhKeys, ClampPh(ph))]
  }

  // ---------------------------------------------------------------------
  // Interpolation scan
  // ---------------------------------------------------------------------

  /** `orp >= p1.mv && orp <= p2.mv` */
  predicate Covers(p1: Point, p2: Point, orp: real) {
    p1.1 as real <= orp <= p2.1 as real
  }

  /** No two consecutive control points share a millivolt value (so no interval divides by zero). */
  predicate DistinctSteps(c: Curve) {
    forall i :: 0 <= i < |c| - 1 ==> c[i].1 != c[i + 1].1
  }

  /** `p1.ppm + (orp - p1.mv) / (p2.mv - p1.mv) * (p2.ppm - p1.ppm)` */
  function Lerp(p1: Point, p2: Point, orp: real): real
    requires p1.1 != p2.1
  {
    p1.0 + (orp - p1.1 as real) / ((p2.1 - p1.1) as real) * (p2.0 - p1.0)
  }

  /** Multiplying by a non-negative factor keeps the order. */
  lemma MulLe(a: real, b: real, d: real)
    requires a <= b && d >= 0.0
    ensures a * d <= b * d
  {
    assert (b - a) * d == b * d - a * d;
    assert (b - a) * d >= 0.0;
  }

  /** Dividing by a positive divisor keeps the order. */
  lemma QuotMonotone(a: real, b: real, m: real)
    requires 0.0 < m && a <= b
    ensures a / m <= b / m
  {
    var inv := 1.0 / m;
    assert a / m == a * inv && b / m == b * inv;
    MulLe(a, b, inv);
  }

  /** The interpolation fraction of a covered interval lies in [0, 1]. */
  lemma FractionInUnit(p1: Point, p2: Point, orp: real)
    requires p1.1 != p2.1 && Covers(p1, p2, orp)
    ensures 0.0 <= (orp - p1.1 as real) / ((p2.1 - p1.1) as real) <= 1.0
  {
    var d := (p2.1 - p1.1) as real;
    QuotMonotone(0.0, orp - p1.1 as real, d);
    QuotMonotone(orp - p1.1 as real, d, d);
  }

  /** A point a fraction f of the way from lo to hi lies between them. */
  lemma Between(f: real, lo: real, hi: real)
    requires 0.0 <= f <= 1.0
    ensures lo <= hi ==> lo <= lo + f * (hi - lo) <= hi
    ensures hi <= lo ==> hi <= lo + f * (hi - lo) <= lo
  {
    if lo <= hi {
      ProductNonNegative(f, hi - lo);
      ProductNonNegative(1.0 - f, hi - lo);
    } else {
      ProductNonNegative(f, lo - hi);
      ProductNonNegative(1.0 - f, lo - hi);
    }
  }

  /** The product of two non-negative reals is non-negative. */
  lemma ProductNonNegative(x: real, y: real)
    requires x >= 0.0 && y >= 0.0
    ensures x * y >= 0.0
  {
  }

  /** A linear interpolation over a covered interval stays between the two ppm values. */
  lemma LerpBetween(p1: Point, p2: Point, orp: real)
    requires p1.1 != p2.1 && Covers(p1, p2, orp)
    ensures p1.0 <= p2.0 ==> p1.0 <= Lerp(p1, p2, orp) <= p2.0
    ensures p2.0 <= p1.0 ==> p2.0 <= Lerp(p1, p2, orp) <= p1.0
  {
    FractionInUnit(p1, p2, orp);
    Between((orp - p1.1 as real) / ((p2.1 - p1.1) as real), p1.0, p2.0);
  }

  /** Rounding an interpolation between two one-decimal ppm values stays between them. */
  lemma RoundedLerpBetween(p1: Point, p2: Point, orp: real)
    requires p1.1 != p2.1 && Covers(p1, p2, orp)
    requires p1.0 <= p2.0 && OneDecimal(p1.0) && OneDecimal(p2.0)
    ensures p1.0 <= Round1(Lerp(p1, p2, orp)) <= p2.0
  {
    LerpBetween(p1, p2, orp);
    var x := Lerp(p1, p2, orp);
    Round1Monotone(p1.0, x);
    Round1Monotone(x, p2.0);
    Round1Exact(p1.0);
    Round1Exact(p2.0);
  }

  /** The interpolation passes through both control points of its interval. */
  lemma LerpEndpoints(p1: Point, p2: Point)
    requires p1.1 != p2.1
    ensures Lerp(p1, p2, p1.1 as real) == p1.0
    ensures Lerp(p1, p2, p2.1 as real) == p2.0
  {
    var d := (p2.1 - p1.1) as real;
    assert d / d == 1.0;
  }

  /** Halfway between two control points the interpolation is halfway between their ppm values. */
  lemma LerpMidpoint(p1: Point, p2: Point)
    requires p1.1 != p2.1
    ensures Lerp(p1, p2, (p1.1 + p2.1) as real / 2.0) == (p1.0 + p2.0) / 2.0
  {
    var d := (p2.1 - p1.1) as real;
    assert (p1.1 + p2.1) as real / 2.0 - p1.1 as real == d / 2.0;
    assert (d / 2.0) / d == 0.5;
  }

  /** A linear interpolation over an increasing interval is non-decreasing in the reading. */
  lemma LerpMonotone(p1: Point, p2: Point, x: real, y: real)
    requires p1.1 < p2.1 && p1.0 <= p2.0
    requires x <= y
    ensures Lerp(p1, p2, x) <= Lerp(p1, p2, y)
  {
    var d := (p2.1 - p1.1) as real;
    QuotMonotone(x - p1.1 as real, y - p1.1 as real, d);
    MulLe((x - p1.1 as real) / d, (y - p1.1 as real) / d, p2.0 - p1.0);
  }

  /** No pair (k, k + 1) with i <= k < j covers orp. */
  predicate NoCoverBetween(c: Curve, i: nat, j: int, orp: real)
    requires j <= |c| - 1
  {
    forall k :: i <= k < j ==> !Covers(c[k], c[k + 1], orp)
  }

  /** The pair (j, j + 1) is the first pair from index i on that covers orp. */
  predicate FirstCover(c: Curve, i: nat, j: int, orp: real) {
    && i <= j < |c| - 1
    && Covers(c[j], c[j + 1], orp)
    && NoCoverBetween(c, i, j, orp)
  }

  /** The index of the first pair from index i on whose interval contains orp. */
  function FirstCoverFrom(c: Curve, i: nat, orp: real): (r: Option<nat>)
    ensures r.None? <==> NoCoverBetween(c, i, |c| - 1, orp)
    ensures r.Some? ==> FirstCover(c, i, r.value, orp)
    decreases |c| - i
  {
    if i + 1 >= |c| then None
    else if Covers(c[i], c[i + 1], orp) then Some(i)
    else FirstCoverFrom(c, i + 1, orp)
  }

  /**
   * The loop over consecutive control points: the rounded interpolation over the first
   * consecutive pair whose interval contains orp, or None when none does.
   */
  function Scan(c: Curve, orp: real): Option<real>
    requires DistinctSteps(c)
  {
    match FirstCoverFrom(c, 0, orp)
    case Some(j) => Some(Round1(Lerp(c[j], c[j + 1], orp)))
    case None => None
  }

  /** The scan interpolates over the first pair that covers the reading. */
  lemma ScanFirstCover(c: Curve, orp: real, j: nat)
    requires DistinctSteps(c) && FirstCover(c, 0, j, orp)
    ensures Scan(c, orp) == Some(Round1(Lerp(c[j], c[j + 1], orp)))
  {
    var r := FirstCoverFrom(c, 0, orp);
    assert !NoCoverBetween(c, 0, |c| - 1, orp);
    assert r.Some? && FirstCover(c, 0, r.value, orp);
  }

  /** The same scan as a loop over the pairs (i, i + 1), as the program writes it. */
  method FindInterval(c: Curve, orp: real) returns (r: Option<real>)
    requires DistinctSteps(c)
    ensures r == Scan(c, orp)
  {
    var i := 0;
    while i < |c| - 1
      invariant 0 <= i <= |c|
      invariant FirstCoverFrom(c, 0, orp) == FirstCoverFrom(c, i, orp)
    {
      var p1 := c[i];
      var p2 := c[i + 1];
      if orp >= p1.1 as real && orp <= p2.1 as real {
        var ppm := Lerp(p1, p2, orp);
        return Some(Round1(ppm));
      }
      i := i + 1;
    }
    return None;
  }

  // ---------------------------------------------------------------------
  // The estimator
  // ---------------------------------------------------------------------

  /** Every row of the table enumerates to a curve the scan can run on. */
  lemma RowPointsDistinct(row: Row, order: Order)
    requires IncreasingInPpm(row)
    ensures DistinctSteps(Points(row, order))
  {
  }

  /** The lower extrapolation: the straight line through the origin and the 0.5 ppm point. */
  function Extrapolate(row: Row, orp: real): real
    requires row.at05 > 0
  {
    Round1(orp / (row.at05 as real) * 0.5)
  }

  /**
   * The estimator for a reading inside the [400, 950] window: lower
   * extrapolation, the interpolation scan, and the 4.0 fallback. Such a
   * reading never produces either sentinel.
   */
  function InWindow(row: Row, orp: real, order: Order): (r: real)
    requires TableRow(row)
    requires 400.0 <= orp <= 950.0
    ensures 0.3 <= r <= 4.0
    ensures OneDecimal(r)
  {
    if orp < row.at05 as real then
      ExtrapolateBounds(row, orp);
      Extrapolate(row, orp)
    else
      RowPointsDistinct(row, order);
      match Scan(Points(row, order), orp)
      case Some(v) =>
        ScanBounds(Points(row, order), orp);
        v
      case None =>
        assert OneDecimal(4.0);
        4.0
  }

  /**
   * `calculatePPM` with the control points visited in the given order:
   * the zero guard, the pH clamp, the two saturation sentinels, nearest-anchor
   * selection, then the in-window branches.
   */
  function Estimate(ph: real, orp: real, order: Order): (r: real)
    ensures 0.0 <= r <= 5.0
    ensures OneDecimal(r)
    ensures ph == 0.0 || orp == 0.0 ==> r == 0.0
  {
    if ph == 0.0 || orp == 0.0 then 0.0
    else if orp < 400.0 then 0.0
    else if orp > 950.0 then 5.0
    else
      InWindow(SelectedRow(ph), orp, order)
  }

  /** Below the 0.5 ppm point (and at or above 400 mV) the extrapolation lies in [0.3, 0.5]. */
  lemma ExtrapolateBounds(row: Row, orp: real)
    requires 400 < row.at05 <= 625 && 400.0 <= orp <= row.at05 as real
    ensures 0.3 <= Extrapolate(row, orp) <= 0.5
  {
    var m := row.at05 as real;
    QuotMonotone(orp, m, m);
    QuotMonotone(0.64 * m, orp, m);
    assert (0.64 * m) / m == 0.64;
    var x := orp / m * 0.5;
    assert 0.32 <= x <= 0.5;
    Round1Monotone(0.3, x);
    Round1Monotone(x, 0.5);
    Round1Exact(0.3);
    Round1Exact(0.5);
  }

  /** Any value the scan finds over a curve whose ppm values lie in [0.5, 4.0] lies there too. */
  lemma ScanBounds(c: Curve, orp: real)
    requires DistinctSteps(c)
    requires forall i :: 0 <= i < |c| ==> 0.5 <= c[i].0 <= 4.0
    ensures Scan(c, orp).Some? ==> 0.5 <= Scan(c, orp).value <= 4.0
  {
    match FirstCoverFrom(c, 0, orp)
    case Some(j) =>
      var x := Lerp(c[j], c[j + 1], orp);
      LerpBetween(c[j], c[j + 1], orp);
      assert 0.5 <= x <= 4.0;
      Round1Monotone(0.5, x);
      Round1Monotone(x, 4.0);
      Round1Exact(0.5);
      Round1Exact(4.0);
    case None =>
  }

  /** Inside the window, the estimate is the in-window computation on the selected row. */
  lemma EstimateInWindow(ph: real, orp: real, order: Order)
    requires ph != 0.0 && 400.0 <= orp <= 950.0
    ensures Estimate(ph, orp, order) == InWindow(SelectedRow(ph), orp, order)
  {
  }

  /** `calculatePPM(ph, orp)` exactly as written. */
  function CalculatePPM(ph: real, orp: real): (r: real)
    ensures 0.0 <= r <= 5.0
    ensures ph == 0.0 || orp == 0.0 ==> r == 0.0
  {
    Estimate(ph, orp, ObjectEntries)
  }

  /** The estimator with the control points scanned in ascending ppm order. */
  function CalculatePPMSorted(ph: real, orp: real): (r: real)
    ensures 0.0 <= r <= 5.0
    ensures ph == 0.0 || orp == 0.0 ==> r == 0.0
  {
    Estimate(ph, orp, AscendingPpm)
  }

  // ---------------------------------------------------------------------
  // Properties of the estimator as written
  // ---------------------------------------------------------------------

  /** Once both inputs are non-zero, a reading below 400 mV gives 0 and one above 950 mV gives 5. */
  lemma SaturationSentinels(ph: real, orp: real)
    requires ph != 0.0 && orp != 0.0
    ensures orp < 400.0 ==> CalculatePPM(ph, orp) == 0.0
    ensures orp > 950.0 ==> CalculatePPM(ph, orp) == 5.0
    ensures 400.0 <= orp <= 950.0 ==> 0.3 <= CalculatePPM(ph, orp) <= 4.0
  {
  }

  /** A non-zero pH at or below 6.5 behaves as 6.5; at or above 8.0 it behaves as 8.0. */
  lemma PhClamp(ph: real, orp: real)
    requires ph != 0.0
    ensures ph <= 6.5 ==> CalculatePPM(ph, orp) == CalculatePPM(6.5, orp)
    ensures ph >= 8.0 ==> CalculatePPM(ph, orp) == CalculatePPM(8.0, orp)
  {
  }

  /** Every pH up to 7.0 uses the 7.0 curve and every pH from 7.8 uses the 7.8 curve. */
  lemma ExtremeAnchors(ph: real)
    ensures ph <= 7.0 ==> SelectedRow(ph) == ReferenceTable[7.0]
    ensures ph >= 7.8 ==> SelectedRow(ph) == ReferenceTable[7.8]
  {
  }

  /** Between 400 mV and the 0.5 ppm point the result is the rounded extrapolation, at most 0.5. */
  lemma LowerExtrapolation(ph: real, orp: real)
    requires ph != 0.0
    requires 400.0 <= orp < SelectedRow(ph).at05 as real
    ensures CalculatePPM(ph, orp) == Round1(orp / (SelectedRow(ph).at05 as real) * 0.5)
    ensures 0.3 <= CalculatePPM(ph, orp) <= 0.5
  {
    EstimateInWindow(ph, orp, ObjectEntries);
    ExtrapolateBounds(SelectedRow(ph), orp);
  }

  /** From the 0.5 ppm point on, a reading in the window gets the scan's value when it finds one. */
  lemma InWindowScanValue(row: Row, orp: real, order: Order)
    requires TableRow(row) && row.at05 as real <= orp <= 950.0
    requires DistinctSteps(Points(row, order)) && Scan(Points(row, order), orp).Some?
    ensures InWindow(row, orp, order) == Scan(Points(row, order), orp).value
  {
  }

  /**
   * In `Object.entries` order, a reading covered by the pair (k, k + 1), k < 3,
   * is first covered by that pair, or by the previous one when it sits exactly
   * on their shared control point.
   */
  lemma EntriesFirstCover(row: Row, orp: real, k: nat)
    requires TableRow(row) && k < 3
    requires Covers(Points(row, ObjectEntries)[k], Points(row, ObjectEntries)[k + 1], orp)
    ensures var c := Points(row, ObjectEntries);
            FirstCover(c, 0, if k > 0 && orp == c[k].1 as real then k - 1 else k, orp)
  {
  }

  /**
   * Over a table row, a reading covered by the pair (k, k + 1) of the
   * enumeration, for k < 3, is rounded-interpolated over that pair.
   */
  lemma InWindowInterpolates(row: Row, orp: real, k: nat)
    requires TableRow(row) && k < 3
    requires Covers(Points(row, ObjectEntries)[k], Points(row, ObjectEntries)[k + 1], orp)
    ensures 400.0 <= orp <= 950.0
    ensures var c := Points(row, ObjectEntries);
            InWindow(row, orp, ObjectEntries) == Round1(Lerp(c[k], c[k + 1], orp))
            && c[k].0 <= InWindow(row, orp, ObjectEntries) <= c[k + 1].0
  {
    var c := Points(row, ObjectEntries);
    RowPointsDistinct(row, ObjectEntries);
    EntriesFirstCover(row, orp, k);
    if k > 0 && orp == c[k].1 as real {
      SharedPointValue(row, k);
      LerpEndpoints(c[k], c[k + 1]);
      Round1Exact(c[k].0);
    } else {
      if k == 0 {
        ScanFirstCover(c, orp, 0);
        InWindowScanValue(row, orp, ObjectEntries);
        RoundedLerpBetween(c[0], c[1], orp);
      } else if k == 1 {
        ScanFirstCover(c, orp, 1);
        InWindowScanValue(row, orp, ObjectEntries);
        RoundedLerpBetween(c[1], c[2], orp);
      } else {
        ScanFirstCover(c, orp, 2);
        InWindowScanValue(row, orp, ObjectEntries);
        RoundedLerpBetween(c[2], c[3], orp);
      }
    }
  }

  /**
   * A reading exactly at the shared control point of pairs (k - 1, k) and
   * (k, k + 1) is interpolated over the earlier pair, which gives that point's
   * ppm value.
   */
  lemma SharedPointValue(row: Row, k: nat)
    requires TableRow(row) && 0 < k < 3
    requires FirstCover(Points(row, ObjectEntries), 0, k - 1, Points(row, ObjectEntries)[k].1 as real)
    ensures InWindow(row, Points(row, ObjectEntries)[k].1 as real, ObjectEntries) == Points(row, ObjectEntries)[k].0
  {
    var c := Points(row, ObjectEntries);
    var orp := c[k].1 as real;
    RowPointsDistinct(row, ObjectEntries);
    ScanFirstCover(c, orp, k - 1);
    InWindowScanValue(row, orp, ObjectEntries);
    LerpEndpoints(c[k - 1], c[k]);
    Round1Exact(c[k].0);
  }

  /**
   * On each interval [1, 2], [2, 3], [3, 4] ppm of the selected curve the result
   * is the rounded linear interpolation over that interval, and lies within it.
   */
  lemma Interpolation(ph: real, orp: real, k: nat)
    requires ph != 0.0 && k < 3
    requires Covers(Points(SelectedRow(ph), ObjectEntries)[k], Points(SelectedRow(ph), ObjectEntries)[k + 1], orp)
    ensures var c := Points(SelectedRow(ph), ObjectEntries);
            CalculatePPM(ph, orp) == Round1(Lerp(c[k], c[k + 1], orp))
            && c[k].0 <= CalculatePPM(ph, orp) <= c[k + 1].0
  {
    InWindowInterpolates(SelectedRow(ph), orp, k);
    EstimateInWindow(ph, orp, ObjectEntries);
  }

  /** Over a table row, each tabulated 1, 2, 3 and 4 ppm reading maps back to its ppm value. */
  lemma InWindowAtControlPoint(row: Row, k: nat)
    requires TableRow(row) && k < 4
    ensures var p := Points(row, ObjectEntries)[k];
            400.0 <= p.1 as real <= 950.0 && InWindow(row, p.1 as real, ObjectEntries) == p.0
  {
    var c := Points(row, ObjectEntries);
    if k < 3 {
      InWindowInterpolates(row, c[k].1 as real, k);
      LerpEndpoints(c[k], c[k + 1]);
    } else {
      InWindowInterpolates(row, c[3].1 as real, 2);
      LerpEndpoints(c[2], c[3]);
    }
    Round1Exact(c[k].0);
  }

  /** At each tabulated 1, 2, 3 and 4 ppm point of the selected curve the result is exact. */
  lemma ExactControlPoints(ph: real)
    requires ph != 0.0
    ensures CalculatePPM(ph, SelectedRow(ph).at1 as real) == 1.0
    ensures CalculatePPM(ph, SelectedRow(ph).at2 as real) == 2.0
    ensures CalculatePPM(ph, SelectedRow(ph).at3 as real) == 3.0
    ensures CalculatePPM(ph, SelectedRow(ph).at4 as real) == 4.0
  {
    var row := SelectedRow(ph);
    InWindowAtControlPoint(row, 0);
    EstimateInWindow(ph, row.at1 as real, ObjectEntries);
    InWindowAtControlPoint(row, 1);
    EstimateInWindow(ph, row.at2 as real, ObjectEntries);
    InWindowAtControlPoint(row, 2);
    EstimateInWindow(ph, row.at3 as real, ObjectEntries);
    InWindowAtControlPoint(row, 3);
    EstimateInWindow(ph, row.at4 as real, ObjectEntries);
  }

  /**
   * No pair the scan tests covers [0.5 ppm point, 1 ppm point) or the span above
   * the 4 ppm point, so every reading there falls through to the 4.0 fallback.
   */
  lemma FallbackGap(ph: real, orp: real)
    requires ph != 0.0
    requires SelectedRow(ph).at05 as real <= orp < SelectedRow(ph).at1 as real
          || SelectedRow(ph).at4 as real < orp <= 950.0
    ensures CalculatePPM(ph, orp) == 4.0
  {
    EstimateInWindow(ph, orp, ObjectEntries);
    RowPointsDistinct(SelectedRow(ph), ObjectEntries);
  }

  /** The tabulated 1.0 and 2.0 ppm points of the pH 7.0 curve read back exactly. */
  lemma ReferenceControlPoints()
    ensures CalculatePPM(7.0, 715.0) == 1.0
    ensures CalculatePPM(7.0, 805.0) == 2.0
  {
    assert SelectedRow(7.0) == Row(625, 715, 805, 858, 896);
    ExactControlPoints(7.0);
  }

  /** The rows selected at pH 7.0 and at pH 7.3. */
  lemma SelectedReferenceRows()
    ensures SelectedRow(7.0) == Row(625, 715, 805, 858, 896)
    ensures SelectedRow(7.3) == Row(618, 705, 792, 843, 880) == ReferenceTable[7.2]
  {
  }

  /**
   * Halfway between the 1 and 2 ppm points of the selected curve the estimate
   * is 1.5 ppm, for every non-zero pH (at pH 7.0: 760 mV, halfway between 715
   * and 805 mV).
   */
  lemma ReferenceMidpoint(ph: real)
    requires ph != 0.0
    ensures var row := SelectedRow(ph);
            CalculatePPM(ph, (row.at1 + row.at2) as real / 2.0) == 1.5
  {
    var row := SelectedRow(ph);
    var c := Points(row, ObjectEntries);
    var m := (row.at1 + row.at2) as real / 2.0;
    InWindowInterpolates(row, m, 0);
    EstimateInWindow(ph, m, ObjectEntries);
    LerpMidpoint(c[0], c[1]);
    Round1Exact(1.5);
  }

  /**
   * Every pH in (7.1, 7.3] selects the 7.2 curve; at 7.3, equally far from 7.2
   * and 7.4, the lower anchor wins. On that curve 715 mV reads 1.1 ppm.
   */
  lemma ReferenceTieBreak(ph: real)
    requires 7.1 < ph <= 7.3
    ensures SelectedRow(ph) == ReferenceTable[7.2]
    ensures CalculatePPM(ph, 715.0) == 1.1
  {
    var row := Row(618, 705, 792, 843, 880);
    assert SelectedRow(ph) == row;
    InWindowInterpolates(row, 715.0, 0);
    EstimateInWindow(ph, 715.0, ObjectEntries);
    TieBreakValue();
  }

  /** On the 7.2 curve, 715 mV interpolates to 1 + 10/87 ppm, which rounds to 1.1. */
  lemma TieBreakValue()
    ensures Round1(Lerp((1.0, 705), (2.0, 792), 715.0)) == 1.1
  {
    var x := Lerp((1.0, 705), (2.0, 792), 715.0);
    assert x == 1.0 + 10.0 / 87.0;
    assert (10.0 * x + 0.5).Floor == 11;
  }

  /**
   * The estimate as written is not monotone in ORP: at pH 7.0, 700 mV reads
   * 4.0 ppm while the higher 715 mV reads 1.0 ppm.
   */
  lemma NotMonotoneInOrp()
    ensures 700.0 < 715.0 && CalculatePPM(7.0, 700.0) > CalculatePPM(7.0, 715.0)
  {
    FallbackGap(7.0, 700.0);
    ExactControlPoints(7.0);
  }

  // ---------------------------------------------------------------------
  // The estimator with the control points in ascending ppm order
  // ---------------------------------------------------------------------

  /**
   * The unrounded piecewise-linear curve through the origin and the five
   * control points of a row in ascending ppm order, flat at 4.0 above the
   * 4 ppm point.
   */
  function Raw(row: Row, orp: real): real
    requires TableRow(row)
  {
    var c := Points(row, AscendingPpm);
    if orp < row.at05 as real then orp / (row.at05 as real) * 0.5
    else if orp <= row.at1 as real then Lerp(c[0], c[1], orp)
    else if orp <= row.at2 as real then Lerp(c[1], c[2], orp)
    else if orp <= row.at3 as real then Lerp(c[2], c[3], orp)
    else if orp <= row.at4 as real then Lerp(c[3], c[4], orp)
    else 4.0
  }

  /** Which piece of Raw a reading falls on: 0 below the 0.5 ppm point, 5 above the 4 ppm point. */
  function Piece(row: Row, orp: real): (s: nat)
    ensures s <= 5
  {
    if orp < row.at05 as real then 0
    else if orp <= row.at1 as real then 1
    else if orp <= row.at2 as real then 2
    else if orp <= row.at3 as real then 3
    else if orp <= row.at4 as real then 4
    else 5
  }

  /** The ppm value at the lower end of a piece. */
  function PieceLow(s: nat): real {
    [0.0, 0.5, 1.0, 2.0, 3.0, 4.0][if s <= 5 then s else 5]
  }

  /** The ppm value at the upper end of a piece. */
  function PieceHigh(s: nat): real {
    [0.5, 1.0, 2.0, 3.0, 4.0, 4.0][if s <= 5 then s else 5]
  }

  /** On each piece, Raw stays between the ppm values at the ends of that piece. */
  lemma RawWithinPiece(row: Row, orp: real)
    requires TableRow(row) && orp >= 0.0
    ensures PieceLow(Piece(row, orp)) <= Raw(row, orp) <= PieceHigh(Piece(row, orp))
  {
    var c := Points(row, AscendingPpm);
    var m := row.at05 as real;
    match Piece(row, orp)
    case 0 =>
      QuotMonotone(0.0, orp, m);
      QuotMonotone(orp, m, m);
    case 1 => LerpBetween(c[0], c[1], orp);
    case 2 => LerpBetween(c[1], c[2], orp);
    case 3 => LerpBetween(c[2], c[3], orp);
    case 4 => LerpBetween(c[3], c[4], orp);
    case 5 =>
  }

  /** Raw is non-decreasing in the reading. */
  lemma RawMonotone(row: Row, x: real, y: real)
    requires TableRow(row) && 0.0 <= x <= y
    ensures Raw(row, x) <= Raw(row, y)
  {
    var c := Points(row, AscendingPpm);
    RawWithinPiece(row, x);
    RawWithinPiece(row, y);
    if Piece(row, x) == Piece(row, y) {
      match Piece(row, x)
      case 0 => QuotMonotone(x, y, row.at05 as real);
      case 1 => LerpMonotone(c[0], c[1], x, y);
      case 2 => LerpMonotone(c[1], c[2], x, y);
      case 3 => LerpMonotone(c[2], c[3], x, y);
      case 4 => LerpMonotone(c[3], c[4], x, y);
      case 5 =>
    } else {
      assert Piece(row, x) < Piece(row, y);
      assert PieceHigh(Piece(row, x)) <= PieceLow(Piece(row, y));
    }
  }

  /** In the window, the ascending scan rounds Raw. */
  lemma SortedInWindowIsRoundedRaw(row: Row, orp: real)
    requires TableRow(row) && 400.0 <= orp <= 950.0
    ensures InWindow(row, orp, AscendingPpm) == Round1(Raw(row, orp))
  {
    var c := Points(row, AscendingPpm);
    RowPointsDistinct(row, AscendingPpm);
    if orp >= row.at05 as real {
      if orp <= row.at4 as real {
        var k := Piece(row, orp) - 1;
        assert Covers(c[k], c[k + 1], orp);
      } else {
        assert NoCoverBetween(c, 0, |c| - 1, orp);
        Round1Exact(4.0);
      }
    }
  }

  /**
   * In the window and outside the gap [0.5 ppm point, 1 ppm point), the scan in
   * `Object.entries` order also rounds Raw.
   */
  lemma EntriesInWindowIsRoundedRaw(row: Row, orp: real)
    requires TableRow(row) && 400.0 <= orp <= 950.0
    requires !(row.at05 as real <= orp < row.at1 as real)
    ensures InWindow(row, orp, ObjectEntries) == Round1(Raw(row, orp))
  {
    var c := Points(row, ObjectEntries);
    var a := Points(row, AscendingPpm);
    RowPointsDistinct(row, ObjectEntries);
    if orp >= row.at1 as real {
      if orp <= row.at4 as real {
        var k := if Piece(row, orp) <= 2 then 0 else Piece(row, orp) - 2;
        assert Covers(c[k], c[k + 1], orp);
        if orp == row.at1 as real {
          LerpEndpoints(c[0], c[1]);
          LerpEndpoints(a[0], a[1]);
        }
      } else {
        assert NoCoverBetween(c, 0, |c| - 1, orp);
        Round1Exact(4.0);
      }
    }
  }

  /**
   * The ascending-order estimator is non-decreasing in ORP for every non-zero
   * pH: the property the `Object.entries` order breaks.
   */
  lemma SortedMonotoneInOrp(ph: real, x: real, y: real)
    requires ph != 0.0 && x <= y
    ensures CalculatePPMSorted(ph, x) <= CalculatePPMSorted(ph, y)
  {
    if 400.0 <= x && y <= 950.0 {
      var row := SelectedRow(ph);
      SortedInWindowIsRoundedRaw(row, x);
      SortedInWindowIsRoundedRaw(row, y);
      EstimateInWindow(ph, x, AscendingPpm);
      EstimateInWindow(ph, y, AscendingPpm);
      RawMonotone(row, x, y);
      Round1Monotone(Raw(row, x), Raw(row, y));
    }
  }

  /**
   * Scanning in ascending order changes the result only on the gap between the
   * 0.5 and 1 ppm points, where it interpolates into [0.5, 1.0] instead of
   * falling through to 4.0.
   */
  lemma SortedDiffersOnlyOnGap(ph: real, orp: real)
    requires ph != 0.0
    ensures !(SelectedRow(ph).at05 as real <= orp < SelectedRow(ph).at1 as real) ==>
              CalculatePPMSorted(ph, orp) == CalculatePPM(ph, orp)
    ensures SelectedRow(ph).at05 as real <= orp < SelectedRow(ph).at1 as real ==>
              0.5 <= CalculatePPMSorted(ph, orp) <= 1.0 && CalculatePPM(ph, orp) == 4.0
  {
    var row := SelectedRow(ph);
    if 400.0 <= orp <= 950.0 {
      SortedInWindowIsRoundedRaw(row, orp);
      EstimateInWindow(ph, orp, AscendingPpm);
      EstimateInWindow(ph, orp, ObjectEntries);
      if !(row.at05 as real <= orp < row.at1 as real) {
        EntriesInWindowIsRoundedRaw(row, orp);
      } else {
        FallbackGap(ph, orp);
        RoundedRawOnGap(row, orp);
      }
    }
  }

  /** Between the 0.5 and 1 ppm points the rounded curve lies in [0.5, 1.0]. */
  lemma RoundedRawOnGap(row: Row, orp: real)
    requires TableRow(row) && row.at05 as real <= orp < row.at1 as real
    ensures 0.5 <= Round1(Raw(row, orp)) <= 1.0
  {
    RawWithinPiece(row, orp);
    Round1Monotone(0.5, Raw(row, orp));
    Round1Monotone(Raw(row, orp), 1.0);
    Round1Exact(0.5);
    Round1Exact(1.0);
  }
}
