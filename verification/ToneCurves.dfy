/** The piecewise-linear tone curves of the tuning scripts, over the reals. */
module ToneCurves {
  datatype Point = Point(x: real, y: real)

  /** The breakpoints of a curve, from left to right. */
  ghost predicate Increasing(t: seq<Point>) {
    |t| > 0 && forall i :: 0 <= i < |t| - 1 ==> t[i].x < t[i + 1].x
  }

  function Clamp(x: real, lo: real, hi: real): real {
    var m := if x < hi then x else hi;
    if m < lo then lo else m
  }

  /** The height at a fraction of the way from a to b. */
  function Lerp(a: Point, b: Point, f: real): real {
    a.y + (b.y - a.y) * f
  }

  /** The line from a to b. */
  function Between(a: Point, b: Point, x: real): real
    requires a.x < b.x
  {
    Lerp(a, b, (x - a.x) / (b.x - a.x))
  }

  /** Linear between the breakpoints, constant outside them. */
  function Interp(t: seq<Point>, x: real): real
    requires Increasing(t)
  {
    if x <= t[0].x || |t| == 1 then t[0].y
    else if x < t[1].x then Between(t[0], t[1], x)
    else Interp(t[1..], x)
  }

  // -------------------------------------------------- the branch-free form

  function IntervalMask(x: real, x0: real, x1: real): real { if x0 <= x < x1 then 1.0 else 0.0 }

  function LowerMask(x: real, x0: real): real { if x < x0 then 1.0 else 0.0 }

  function UpperMask(x: real, x0: real): real { if x >= x0 then 1.0 else 0.0 }

  function Segment(x: real, a: Point, b: Point): real
    requires a.x < b.x
  {
    var t := Clamp((x - a.x) / (b.x - a.x), 0.0, 1.0);
    IntervalMask(x, a.x, b.x) * Lerp(a, b, t)
  }

  /** All segments added up, masked to their intervals. */
  function Segments(t: seq<Point>, x: real): real
    requires Increasing(t)
  {
    if |t| == 1 then 0.0 else Segment(x, t[0], t[1]) + Segments(t[1..], x)
  }

  function MaskedSum(t: seq<Point>, x: real): real
    requires Increasing(t)
  {
    LowerMask(x, t[0].x) * t[0].y + Segments(t, x)
  }

  /** A product with a positive factor has the sign of the other factor. */
  lemma SignOf(q: real, d: real)
    requires d > 0.0
    ensures q * d > 0.0 <==> q > 0.0
    ensures q * d == 0.0 <==> q == 0.0
  {
    if q > 0.0 {
      assert q * d > 0.0;
    } else if q < 0.0 {
      assert -q * d > 0.0;
    }
  }

  lemma FractionInside(x: real, a: real, b: real)
    requires a < b && a <= x <= b
    ensures 0.0 <= (x - a) / (b - a) <= 1.0
    ensures x == a ==> (x - a) / (b - a) == 0.0
  {
    var q, d := (x - a) / (b - a), b - a;
    assert q * d == x - a;
    SignOf(q, d);
    SignOf(q - 1.0, d);
    assert (q - 1.0) * d == x - b;
  }

  /** Multiplying by a mask. */
  lemma Masked(m: real, v: real)
    ensures m == 1.0 ==> m * v == v && v * m == v
    ensures m == 0.0 ==> m * v == 0.0 && v * m == 0.0
  {
  }

  /** A line at its two ends. */
  lemma BetweenEnds(a: Point, b: Point)
    requires a.x < b.x
    ensures Between(a, b, a.x) == a.y && Between(a, b, b.x) == b.y
  {
    var d := b.x - a.x;
    assert (a.x - a.x) / d == 0.0 && (b.x - a.x) / d == 1.0;
    Masked((a.x - a.x) / d, b.y - a.y);
    Masked((b.x - a.x) / d, b.y - a.y);
  }

  /** A segment is its line on its interval and zero elsewhere. */
  lemma SegmentIs(x: real, a: Point, b: Point)
    requires a.x < b.x
    ensures Segment(x, a, b) == if a.x <= x < b.x then Between(a, b, x) else 0.0
  {
    var t := Clamp((x - a.x) / (b.x - a.x), 0.0, 1.0);
    Masked(IntervalMask(x, a.x, b.x), Lerp(a, b, t));
    if a.x <= x < b.x {
      FractionInside(x, a.x, b.x);
      assert t == (x - a.x) / (b.x - a.x);
    }
  }

  lemma {:induction false} SegmentsLeft(t: seq<Point>, x: real)
    requires Increasing(t) && x < t[0].x
    ensures Segments(t, x) == 0.0
  {
    if |t| > 1 {
      SegmentIs(x, t[0], t[1]);
      SegmentsLeft(t[1..], x);
    }
  }

  /** From the first breakpoint on, the segments are the curve, up to the last breakpoint, and nothing after it. */
  lemma {:induction false} SegmentsAre(t: seq<Point>, x: real)
    requires Increasing(t) && t[0].x <= x
    ensures Segments(t, x) == if x < t[|t| - 1].x then Interp(t, x) else 0.0
  {
    if |t| > 1 {
      LastIsRightmost(t[1..]);
      SegmentIs(x, t[0], t[1]);
      BetweenEnds(t[0], t[1]);
      if x < t[1].x {
        SegmentsLeft(t[1..], x);
      } else {
        SegmentsAre(t[1..], x);
      }
    }
  }

  lemma {:induction false} LastIsRightmost(t: seq<Point>)
    requires Increasing(t)
    ensures t[0].x <= t[|t| - 1].x
  {
    if |t| > 1 {
      LastIsRightmost(t[1..]);
    }
  }

  lemma {:induction false} RightOfAll(t: seq<Point>, x: real)
    requires Increasing(t) && t[|t| - 1].x <= x
    ensures Interp(t, x) == t[|t| - 1].y
  {
    if |t| > 1 {
      LastIsRightmost(t[1..]);
      RightOfAll(t[1..], x);
    }
  }

  /** The masked sum with the upper mask of the last breakpoint is the curve at every point. */
  lemma MaskedSumAndUpper(t: seq<Point>, x: real)
    requires Increasing(t)
    ensures var last := t[|t| - 1]; MaskedSum(t, x) + UpperMask(x, last.x) * last.y == Interp(t, x)
  {
    var last := t[|t| - 1];
    Masked(LowerMask(x, t[0].x), t[0].y);
    Masked(UpperMask(x, last.x), last.y);
    LastIsRightmost(t);
    if x < t[0].x {
      SegmentsLeft(t, x);
    } else {
      SegmentsAre(t, x);
      if last.x <= x {
        RightOfAll(t, x);
      }
    }
  }

  /** Without the upper mask the sum is the curve everywhere exactly when the curve ends at zero. */
  lemma MaskedSumIsInterp(t: seq<Point>)
    requires Increasing(t)
    ensures (forall x :: MaskedSum(t, x) == Interp(t, x)) <==> t[|t| - 1].y == 0.0
  {
    var last := t[|t| - 1];
    forall x ensures MaskedSum(t, x) == Interp(t, x) - UpperMask(x, last.x) * last.y {
      MaskedSumAndUpper(t, x);
    }
    assert MaskedSum(t, last.x) == Interp(t, last.x) - last.y;
  }

  // ---------------------------------------------------------------- slopes

  /** No segment falls as steeply as one stop a stop. */
  ghost predicate FallsSlowly(t: seq<Point>) {
    forall i :: 0 <= i < |t| - 1 ==> t[i + 1].y - t[i].y > -(t[i + 1].x - t[i].x)
  }

  function ToneMap(t: seq<Point>, s: real, x: real): real
    requires Increasing(t)
  {
    x + s * Interp(t, x)
  }

  ghost predicate KeepsOrder(t: seq<Point>)
    requires Increasing(t)
  {
    forall s, x, z :: 0.0 <= s <= 1.0 && x < z ==> ToneMap(t, s, x) < ToneMap(t, s, z)
  }

  lemma Steep(a: Point, b: Point, x: real, z: real)
    requires a.x < b.x && b.y - a.y > -(b.x - a.x) && x < z
    ensures Between(a, b, z) - Between(a, b, x) > -(z - x)
  {
    var d, r := b.x - a.x, b.y - a.y;
    var qx, qz := (x - a.x) / d, (z - a.x) / d;
    assert qx * d == x - a.x && qz * d == z - a.x;
    assert (qz - qx) * d == z - x;
    SignOf(qz - qx, d);
    SignOf(r + d, qz - qx);
    assert (r + d) * (qz - qx) == r * qz - r * qx + (z - x);
  }

  /** Between any two points the curve falls by less than the distance. */
  lemma {:induction false} FallsLess(t: seq<Point>, x: real, z: real)
    requires Increasing(t) && FallsSlowly(t) && x < z
    ensures Interp(t, z) - Interp(t, x) > -(z - x)
    decreases |t|, if x < t[0].x then 1 else 0
  {
    if z <= t[0].x || |t| == 1 {
    } else if x < t[0].x {
      FallsLess(t, t[0].x, z);
    } else {
      var a, b := t[0], t[1];
      assert b.y - a.y > -(b.x - a.x);
      assert FallsSlowly(t[1..]) && Increasing(t[1..]);
      if x < b.x {
        Steep(a, b, x, if z < b.x then z else b.x);
        BetweenEnds(a, b);
        assert Interp(t, x) == Between(a, b, x);
        if b.x < z {
          FallsLess(t[1..], b.x, z);
        }
      } else {
        FallsLess(t[1..], x, z);
      }
    }
  }

  lemma {:induction false} InterpAt(t: seq<Point>, i: nat)
    requires Increasing(t) && i < |t|
    ensures Interp(t, t[i].x) == t[i].y
  {
    if i > 0 {
      InterpAt(t[1..], i - 1);
      SortedX(t, 0, 1);
      if i > 1 {
        SortedX(t, 1, i);
      }
    }
  }

  lemma {:induction false} SortedX(t: seq<Point>, i: nat, j: nat)
    requires Increasing(t) && i < j < |t|
    ensures t[i].x < t[j].x
  {
    if i + 1 < j {
      SortedX(t, i, j - 1);
    }
  }

  lemma KeepsOrderAt(t: seq<Point>, s: real, x: real, z: real)
    requires Increasing(t) && FallsSlowly(t) && 0.0 <= s <= 1.0 && x < z
    ensures ToneMap(t, s, x) < ToneMap(t, s, z)
  {
    var u, v := Interp(t, x), Interp(t, z);
    FallsLess(t, x, z);
    Scaled(s, u, v, z - x);
    assert ToneMap(t, s, x) == x + s * u && ToneMap(t, s, z) == z + s * v;
  }

  /** The tone map is strictly increasing for every amount exactly when no segment falls by one stop a stop. */
  lemma OrderIffSlopes(t: seq<Point>)
    requires Increasing(t)
    ensures KeepsOrder(t) <==> FallsSlowly(t)
  {
    if FallsSlowly(t) {
      forall s, x, z | 0.0 <= s <= 1.0 && x < z ensures ToneMap(t, s, x) < ToneMap(t, s, z) {
        KeepsOrderAt(t, s, x, z);
      }
    }
    if KeepsOrder(t) {
      forall i | 0 <= i < |t| - 1 ensures t[i + 1].y - t[i].y > -(t[i + 1].x - t[i].x) {
        InterpAt(t, i);
        InterpAt(t, i + 1);
        assert ToneMap(t, 1.0, t[i].x) < ToneMap(t, 1.0, t[i + 1].x);
      }
    }
  }

  lemma ProductNotNegative(a: real, b: real)
    requires a >= 0.0 && b >= 0.0
    ensures a * b >= 0.0
  {
    if b > 0.0 {
      SignOf(a, b);
    }
  }

  /** Scaling a fall down keeps it less than the distance. */
  lemma Scaled(s: real, u: real, v: real, run: real)
    requires 0.0 <= s <= 1.0 && v - u > -run && run > 0.0
    ensures s * v - s * u > -run
  {
    assert s * (v - u) == s * v - s * u;
    if v < u {
      ProductNotNegative(1.0 - s, u - v);
      assert (1.0 - s) * (u - v) == (u - v) + s * (v - u);
    } else {
      ProductNotNegative(s, v - u);
    }
  }

  // ----------------------------------------------------------- the tables

  const SKY_LIFT: seq<Point> := [
    Point(-1.433, 1.714), Point(-0.433, 1.676), Point(0.152, 1.316), Point(0.567, 0.958), Point(0.889, 0.718),
    Point(1.152, 0.519), Point(1.374, 0.339), Point(1.567, 0.179), Point(1.737, 0.089), Point(1.889, 0.068),
    Point(2.026, 0.054), Point(2.152, 0.036), Point(2.267, 0.020), Point(2.374, 0.009), Point(2.474, 0.0)]

  const LOCAL_LIFT: seq<Point> := [
    Point(-5.520, 3.170), Point(-3.935, 3.700), Point(-2.713, 2.974), Point(-1.713, 2.100), Point(-0.997, 1.564),
    Point(-0.433, 1.179), Point(0.065, 0.807), Point(0.475, 0.570), Point(0.850, 0.483), Point(1.188, 0.415),
    Point(1.485, 0.355), Point(1.760, 0.300), Point(2.015, 0.255), Point(2.251, 0.220), Point(2.474, 0.0)]

  const JOINT_REDUCE: seq<Point> := [
    Point(0.0, 0.0), Point(0.5, 0.06), Point(1.0, 0.42), Point(1.5, 0.85), Point(2.0, 1.30), Point(2.35, 1.20),
    Point(2.65, 1.08), Point(3.0, 0.96), Point(4.0, 0.68), Point(5.0, 0.50), Point(6.0, 0.40)]

  /** The curve turned upside down. */
  function Negated(t: seq<Point>): (r: seq<Point>)
    ensures |r| == |t| && forall i :: 0 <= i < |t| ==> r[i] == Point(t[i].x, -t[i].y)
  {
    seq(|t|, i requires 0 <= i < |t| => Point(t[i].x, -t[i].y))
  }

  lemma {:induction false} NegatedInterp(t: seq<Point>, x: real)
    requires Increasing(t)
    ensures Increasing(Negated(t)) && Interp(Negated(t), x) == -Interp(t, x)
  {
    var n := Negated(t);
    if |t| > 1 && t[0].x < x {
      if x < t[1].x {
        var q := (x - t[0].x) / (t[1].x - t[0].x);
        assert (-t[1].y - -t[0].y) * q == -((t[1].y - t[0].y) * q);
      } else {
        assert n[1..] == Negated(t[1..]);
        NegatedInterp(t[1..], x);
      }
    }
  }

  /** The lift of the sky script is its table, and both lifts and the joint reduction keep the order of tones. */
  lemma SkyLift()
    ensures Increasing(SKY_LIFT) && KeepsOrder(SKY_LIFT)
    ensures forall x :: MaskedSum(SKY_LIFT, x) == Interp(SKY_LIFT, x)
  {
    assert Increasing(SKY_LIFT) && FallsSlowly(SKY_LIFT);
    OrderIffSlopes(SKY_LIFT);
    MaskedSumIsInterp(SKY_LIFT);
  }

  lemma LocalLift()
    ensures Increasing(LOCAL_LIFT) && KeepsOrder(LOCAL_LIFT)
  {
    assert Increasing(LOCAL_LIFT) && FallsSlowly(LOCAL_LIFT);
    OrderIffSlopes(LOCAL_LIFT);
  }

  /** A tone with the joint reduction in the amount s. */
  function Reduced(s: real, x: real): real
    requires Increasing(JOINT_REDUCE)
  {
    x - s * Interp(JOINT_REDUCE, x)
  }

  lemma ReducedIs(s: real, x: real)
    requires Increasing(JOINT_REDUCE)
    ensures Increasing(Negated(JOINT_REDUCE)) && Reduced(s, x) == ToneMap(Negated(JOINT_REDUCE), s, x)
  {
    NegatedInterp(JOINT_REDUCE, x);
    assert s * -Interp(JOINT_REDUCE, x) == -(s * Interp(JOINT_REDUCE, x));
  }

  lemma JointReduction()
    ensures Increasing(JOINT_REDUCE)
    ensures forall s, x, z :: 0.0 <= s <= 1.0 && x < z ==> Reduced(s, x) < Reduced(s, z)
  {
    var n := Negated(JOINT_REDUCE);
    assert Increasing(JOINT_REDUCE);
    assert Increasing(n) && FallsSlowly(n);
    OrderIffSlopes(n);
    forall s, x, z | 0.0 <= s <= 1.0 && x < z ensures Reduced(s, x) < Reduced(s, z) {
      ReducedIs(s, x);
      ReducedIs(s, z);
    }
  }

  // ------------------------------------------------------------ the loops

  /** The scan of the table in the local tone script; the table ends at zero, as the value after the loop does. */
  method ShadowReferenceLiftDelta(t: seq<Point>, ev: real) returns (r: real)
    requires Increasing(t) && t[|t| - 1].y == 0.0
    ensures r == Interp(t, ev)
  {
    if ev <= t[0].x {
      return t[0].y;
    }
    for i := 1 to |t|
      invariant t[i - 1].x <= ev
      invariant Interp(t, ev) == Interp(t[i - 1..], ev)
    {
      ghost var rest := t[i - 1..];
      assert rest[0] == t[i - 1] && rest[1] == t[i] && rest[1..] == t[i..];
      if ev < t[i].x {
        r := SegmentValue(t[i - 1], t[i], ev);
        return;
      }
      NextSegment(rest, ev);
    }
    RightOfAll(t, ev);
    r := 0.0;
  }

  lemma NextSegment(t: seq<Point>, ev: real)
    requires Increasing(t) && |t| > 1 && t[1].x <= ev
    ensures Increasing(t[1..]) && Interp(t, ev) == Interp(t[1..], ev)
  {
  }

  method SegmentValue(a: Point, b: Point, ev: real) returns (r: real)
    requires a.x <= ev < b.x
    ensures ev == a.x ==> r == a.y
    ensures r == Between(a, b, ev)
  {
    var f := Clamp((ev - a.x) / (b.x - a.x), 0.0, 1.0);
    FractionInside(ev, a.x, b.x);
    r := a.y + (b.y - a.y) * f;
  }

  /** The single reduction curve: three stops reached over four. */
  function SingleReduceDelta(ev: real): real {
    3.0 * Clamp(ev / 4.0, 0.0, 1.0)
  }

  /** That is the line from nothing at zero to three stops at four, and level outside. */
  lemma SingleIsLine(ev: real)
    ensures var t := [Point(0.0, 0.0), Point(4.0, 3.0)]; Increasing(t) && SingleReduceDelta(ev) == Interp(t, ev)
  {
    var t := [Point(0.0, 0.0), Point(4.0, 3.0)];
    assert t[1..] == [Point(4.0, 3.0)];
  }

  lemma SingleIsMonotone(a: real, b: real)
    requires a <= b
    ensures 0.0 <= SingleReduceDelta(a) <= SingleReduceDelta(b)
  {
  }

  /** The slope a stage may have: the limit of the stage or of the shadow curve, and never negative. */
  function AllowedSlope(start: real, shadowLimit: real, maxTransition: real, maxSky: real, skyStart: real): real {
    var stage := if start >= skyStart then maxSky else maxTransition;
    var least := if stage < shadowLimit then stage else shadowLimit;
    if 0.0 < least then least else 0.0
  }

  /** The rise that a slope makes of a run; a negative slope makes none. */
  function Rise(slope: real, run: real): real {
    if slope < 0.0 then 0.0 else slope * run
  }

  /**
   From p to q, over the run, the curve does not fall, and rises no more than the shadow limit lets it,
   nor than the limit of the stage that p is in; it stays below the single curve only if one of them stops it.
   */
  predicate WithinLimits(p: Point, q: Point, run: real, shadowLimit: real, maxTransition: real, maxSky: real, skyStart: real) {
    var rise := q.y - p.y;
    && 0.0 <= rise <= Rise(shadowLimit, run) && q.y <= SingleReduceDelta(q.x)
    && (p.x >= skyStart ==> rise <= Rise(maxSky, run))
    && (p.x < skyStart ==> rise <= Rise(maxTransition, run))
    && (q.y < SingleReduceDelta(q.x) ==>
          || rise == Rise(shadowLimit, run)
          || (p.x >= skyStart && rise == Rise(maxSky, run))
          || (p.x < skyStart && rise == Rise(maxTransition, run)))
  }

  lemma SlopeGrows(a: real, b: real, run: real)
    requires 0.0 <= run && a <= b
    ensures a * run <= b * run
  {
    ProductNotNegative(b - a, run);
    assert b * run - a * run == (b - a) * run;
  }

  /** The allowed slope makes the lesser of the two rises. */
  lemma AllowedRise(start: real, shadowLimit: real, maxTransition: real, maxSky: real, skyStart: real, run: real)
    requires 0.0 <= run
    ensures var allowed := AllowedSlope(start, shadowLimit, maxTransition, maxSky, skyStart);
            var stage := Rise(if start >= skyStart then maxSky else maxTransition, run);
            && 0.0 <= allowed * run <= Rise(shadowLimit, run) && allowed * run <= stage
            && (allowed * run == Rise(shadowLimit, run) || allowed * run == stage)
  {
    var allowed := AllowedSlope(start, shadowLimit, maxTransition, maxSky, skyStart);
    var stage := if start >= skyStart then maxSky else maxTransition;
    SlopeGrows(allowed, if shadowLimit < 0.0 then 0.0 else shadowLimit, run);
    SlopeGrows(allowed, if stage < 0.0 then 0.0 else stage, run);
    ProductNotNegative(allowed, run);
    Masked(0.0, run);
  }

  /** As high as the single curve and the greatest rise let it. */
  method NextPoint(p: Point, end: real, most: real) returns (q: Point)
    requires p.x <= end && p.y <= SingleReduceDelta(p.x) && most >= 0.0
    ensures q.x == end && q.y <= SingleReduceDelta(end) && p.y <= q.y <= p.y + most
    ensures q.y == SingleReduceDelta(end) || q.y == p.y + most
  {
    var target := SingleReduceDelta(end);
    SingleIsMonotone(p.x, end);
    q := Point(end, if target < p.y + most then target else p.y + most);
  }

  /** One stage of the fitted table. */
  method NextStage(p: Point, end: real, run: real, shadowLimit: real, maxTransition: real, maxSky: real, skyStart: real)
    returns (q: Point)
    requires run == end - p.x >= 0.0 && p.y <= SingleReduceDelta(p.x)
    ensures q.x == end && q.y <= SingleReduceDelta(end)
    ensures WithinLimits(p, q, run, shadowLimit, maxTransition, maxSky, skyStart)
  {
    var allowed := AllowedSlope(p.x, shadowLimit, maxTransition, maxSky, skyStart);
    AllowedRise(p.x, shadowLimit, maxTransition, maxSky, skyStart, run);
    q := NextPoint(p, end, allowed * run);
  }

  /**
   The fitted table begins at zero and never rises above the single curve, and each stage keeps the
   limits.  shadowLimits[i] is the least shadow output slope of stage i less the least combined slope.
   */
  method FitJointPoints(anchors: seq<real>, shadowLimits: seq<real>, maxTransition: real, maxSky: real, skyStart: real)
    returns (points: seq<Point>)
    requires |anchors| > 0 && |shadowLimits| == |anchors| - 1
    requires forall i :: 0 <= i < |anchors| - 1 ==> anchors[i] <= anchors[i + 1]
    ensures |points| == |anchors| && points[0].y == 0.0
    ensures forall i :: 0 <= i < |anchors| ==> points[i].x == anchors[i] && points[i].y <= SingleReduceDelta(anchors[i])
    ensures forall i :: 0 <= i < |anchors| - 1 ==>
              WithinLimits(points[i], points[i + 1], anchors[i + 1] - anchors[i], shadowLimits[i],
                           maxTransition, maxSky, skyStart)
  {
    SingleIsMonotone(anchors[0], anchors[0]);
    points := [Point(anchors[0], 0.0)];
    for i := 0 to |anchors| - 1
      invariant |points| == i + 1 && points[0].y == 0.0
      invariant forall k :: 0 <= k <= i ==> points[k].x == anchors[k] && points[k].y <= SingleReduceDelta(anchors[k])
      invariant forall k :: 0 <= k < i ==>
                  WithinLimits(points[k], points[k + 1], anchors[k + 1] - anchors[k], shadowLimits[k],
                               maxTransition, maxSky, skyStart)
    {
      var next := NextStage(points[i], anchors[i + 1], anchors[i + 1] - anchors[i], shadowLimits[i],
                            maxTransition, maxSky, skyStart);
      points := points + [next];
    }
  }

  // ------------------------------------------------------ the sky reduction

  /** The reduction between the entry and the full exposure. */
  function EvNdReduceDelta(ev: real, entry: real, full: real, stops: real): real {
    var width := if full - entry < 0.000001 then 0.000001 else full - entry;
    stops * Clamp((ev - entry) / width, 0.0, 1.0)
  }

  /** It keeps the order of tones exactly when it takes less than its width in stops. */
  lemma SkyReductionOrder(entry: real, full: real, stops: real)
    ensures var width := if full - entry < 0.000001 then 0.000001 else full - entry;
            (forall x, z :: x < z ==> AfterReduction(entry, full, stops, x) < AfterReduction(entry, full, stops, z)) <==> stops < width
  {
    var width := if full - entry < 0.000001 then 0.000001 else full - entry;
    var t := [Point(entry, 0.0), Point(entry + width, -stops)];
    assert Increasing(t);
    forall x ensures AfterReduction(entry, full, stops, x) == ToneMap(t, 1.0, x) {
      SkyReductionIs(entry, full, stops, x);
    }
    if stops < width {
      assert FallsSlowly(t);
      OrderIffSlopes(t);
      forall x, z | x < z ensures AfterReduction(entry, full, stops, x) < AfterReduction(entry, full, stops, z) {
        assert ToneMap(t, 1.0, x) < ToneMap(t, 1.0, z);
      }
    } else {
      InterpAt(t, 0);
      InterpAt(t, 1);
      assert AfterReduction(entry, full, stops, entry) >= AfterReduction(entry, full, stops, entry + width);
    }
  }

  function AfterReduction(entry: real, full: real, stops: real, x: real): real {
    x - EvNdReduceDelta(x, entry, full, stops)
  }

  lemma SkyReductionIs(entry: real, full: real, stops: real, x: real)
    ensures var width := if full - entry < 0.000001 then 0.000001 else full - entry;
            var t := [Point(entry, 0.0), Point(entry + width, -stops)];
            Increasing(t) && AfterReduction(entry, full, stops, x) == ToneMap(t, 1.0, x)
  {
    var width := if full - entry < 0.000001 then 0.000001 else full - entry;
    var a, b := Point(entry, 0.0), Point(entry + width, -stops);
    var t := [a, b];
    var q := (x - entry) / width;
    ClampedFraction(x, entry, width);
    Masked(1.0, Interp(t, x));
    Masked(Clamp(q, 0.0, 1.0), stops);
    if x <= entry {
    } else if x < entry + width {
      assert b.x - a.x == width && Interp(t, x) == Lerp(a, b, q);
      assert Lerp(a, b, q) == -(stops * q) by {
        assert (-stops - 0.0) * q == -(stops * q);
      }
    } else {
      assert t[1..] == [b];
      assert Interp(t[1..], x) == -stops;
    }
  }

  lemma ClampedFraction(x: real, from: real, width: real)
    requires width > 0.0
    ensures var q := (x - from) / width;
            Clamp(q, 0.0, 1.0) == if x <= from then 0.0 else if x < from + width then q else 1.0
  {
    var q := (x - from) / width;
    assert q * width == x - from;
    SignOf(q, width);
    SignOf(q - 1.0, width);
    assert (q - 1.0) * width == x - from - width;
  }
}
