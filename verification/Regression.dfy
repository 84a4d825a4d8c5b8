/** Capacity trend by linear regression (services/capacity-planner/planner/planner.go), over the reals. */
module Regression {
  /** A sample's time in hours and its value. */
  datatype Sample = Sample(hours: real, value: real)

  datatype Point = Point(x: real, y: real)

  /** Days since the first sample. */
  function PointOf(first: Sample, s: Sample): Point {
    Point((s.hours - first.hours) / 24.0, s.value)
  }

  function Points(samples: seq<Sample>): (ps: seq<Point>)
    ensures |ps| == |samples|
  {
    seq(|samples|, i requires 0 <= i < |samples| => PointOf(samples[0], samples[i]))
  }

  function SumX(ps: seq<Point>): real {
    if ps == [] then 0.0 else SumX(ps[..|ps| - 1]) + ps[|ps| - 1].x
  }

  function SumY(ps: seq<Point>): real {
    if ps == [] then 0.0 else SumY(ps[..|ps| - 1]) + ps[|ps| - 1].y
  }

  function SumXY(ps: seq<Point>): real {
    if ps == [] then 0.0 else SumXY(ps[..|ps| - 1]) + ps[|ps| - 1].x * ps[|ps| - 1].y
  }

  function SumXX(ps: seq<Point>): real {
    if ps == [] then 0.0 else SumXX(ps[..|ps| - 1]) + ps[|ps| - 1].x * ps[|ps| - 1].x
  }

  function Denominator(ps: seq<Point>): real {
    (|ps| as real) * SumXX(ps) - SumX(ps) * SumX(ps)
  }

  function Residual(p: Point, slope: real, intercept: real): real {
    p.y - (slope * p.x + intercept)
  }

  /** The sum of squared residuals of a line. */
  function SquaredError(ps: seq<Point>, slope: real, intercept: real): real {
    if ps == [] then 0.0
    else
      var r := Residual(ps[|ps| - 1], slope, intercept);
      SquaredError(ps[..|ps| - 1], slope, intercept) + r * r
  }

  method CalculateLinearRegression(samples: seq<Sample>) returns (slope: real, intercept: real)
    ensures samples == [] ==> slope == 0.0 && intercept == 0.0
    ensures samples != [] ==>
      forall a, b :: SquaredError(Points(samples), slope, intercept) <= SquaredError(Points(samples), a, b)
    ensures forall perDay, start {:trigger OnLine(samples, perDay, start)} ::
      OnLine(samples, perDay, start) && !SameTime(samples) ==> slope == perDay && intercept == start
    ensures SameTime(samples) ==> slope == 0.0
  {
    hide SquaredError, SumX, SumY, SumXY, SumXX, OnLine, SameTime;
    if |samples| == 0 {
      NoSamples(samples);
      return 0.0, 0.0;
    }
    ghost var ps := Points(samples);
    var n := |samples| as real;
    var sumX, sumY, sumXY, sumXX := Sums(samples);
    var denom := n * sumXX - sumX * sumX;
    if denom == 0.0 {
      slope, intercept := 0.0, sumY / n;
    } else {
      slope := (n * sumXY - sumX * sumY) / denom;
      intercept := (sumY - slope * sumX) / n;
    }
    FitIsOptimal(ps, n, sumX, sumY, sumXY, sumXX, denom, slope, intercept);
    ExactOnLines(samples, slope, intercept);
    SameTimeDenominator(samples, n, sumX, sumXX);
  }

  lemma NoSamples(samples: seq<Sample>)
    requires samples == []
    ensures SameTime(samples)
  {
  }

  lemma ExactOnLines(samples: seq<Sample>, m: real, c: real)
    requires forall a, b :: SquaredError(Points(samples), m, c) <= SquaredError(Points(samples), a, b)
    ensures forall perDay, start {:trigger OnLine(samples, perDay, start)} ::
      OnLine(samples, perDay, start) && !SameTime(samples) ==> m == perDay && c == start
  {
    hide SquaredError, OnLine, SameTime;
    forall perDay, start | OnLine(samples, perDay, start) && !SameTime(samples) ensures m == perDay && c == start {
      ExactFit(samples, perDay, start, m, c);
    }
  }

  lemma SameTimeDenominator(samples: seq<Sample>, n: real, sx: real, sxx: real)
    requires var ps := Points(samples); samples != [] && n == |ps| as real && sx == SumX(ps) && sxx == SumXX(ps)
    ensures SameTime(samples) ==> n * sxx - sx * sx == 0.0
  {
    hide SumX, SumXX;
    var ps := Points(samples);
    if SameTime(samples) {
      assert forall i :: 0 <= i < |ps| ==> ps[i].x == ps[0].x;
      DenominatorZero(ps);
    }
  }

  ghost predicate SameTime(samples: seq<Sample>) {
    forall i :: 0 <= i < |samples| ==> samples[i].hours == samples[0].hours
  }

  /** Every sample lies on the line that starts at `start` with the first sample and grows by `perDay` every 24 hours.
      */
  ghost predicate OnLine(samples: seq<Sample>, perDay: real, start: real) {
    forall i :: 0 <= i < |samples| ==>
      samples[i].value == start + perDay * (samples[i].hours - samples[0].hours) / 24.0
  }

  lemma {:induction false} ZeroErrorOnLine(ps: seq<Point>, m: real, c: real)
    requires forall i :: 0 <= i < |ps| ==> Residual(ps[i], m, c) == 0.0
    ensures SquaredError(ps, m, c) == 0.0
  {
    if ps != [] { ZeroErrorOnLine(ps[..|ps| - 1], m, c); }
  }

  lemma {:induction false} NoErrorMeansOnLine(ps: seq<Point>, m: real, c: real, i: nat)
    ensures SquaredError(ps, m, c) >= 0.0
    ensures SquaredError(ps, m, c) == 0.0 && i < |ps| ==> Residual(ps[i], m, c) == 0.0
  {
    hide Residual;
    if ps != [] {
      var front, r := ps[..|ps| - 1], Residual(ps[|ps| - 1], m, c);
      NoErrorMeansOnLine(front, m, c, i);
      SquareSign(r);
    }
  }

  /** The best line through samples that lie on a line, at different times, is that line. */
  lemma ExactFit(samples: seq<Sample>, perDay: real, start: real, m: real, c: real)
    requires OnLine(samples, perDay, start) && !SameTime(samples)
    requires forall a, b :: SquaredError(Points(samples), m, c) <= SquaredError(Points(samples), a, b)
    ensures m == perDay && c == start
  {
    hide SquaredError, OnLine, Residual;
    var ps := Points(samples);
    LineResiduals(samples, perDay, start);
    ZeroErrorOnLine(ps, perDay, start);
    var i :| 0 <= i < |samples| && samples[i].hours != samples[0].hours;
    NoErrorMeansOnLine(ps, m, c, 0);
    NoErrorMeansOnLine(ps, m, c, i);
    AtTimeZero(ps[0], perDay, start, m, c);
    SameLine(ps[i], perDay, start, m, c);
  }

  lemma LineResiduals(samples: seq<Sample>, perDay: real, start: real)
    requires OnLine(samples, perDay, start)
    ensures var ps := Points(samples); forall i :: 0 <= i < |ps| ==> Residual(ps[i], perDay, start) == 0.0
  {
    var ps := Points(samples);
    forall i | 0 <= i < |ps| ensures Residual(ps[i], perDay, start) == 0.0 {
      InDays(samples[i].hours - samples[0].hours, perDay);
    }
  }

  lemma AtTimeZero(p: Point, perDay: real, start: real, m: real, c: real)
    requires p.x == 0.0 && Residual(p, perDay, start) == 0.0 && Residual(p, m, c) == 0.0
    ensures c == start
  {
  }

  lemma InDays(hours: real, perDay: real)
    ensures perDay * hours / 24.0 == perDay * (hours / 24.0)
  {
  }

  lemma SameLine(p: Point, perDay: real, start: real, m: real, c: real)
    requires p.x != 0.0 && c == start && Residual(p, perDay, start) == 0.0 && Residual(p, m, c) == 0.0
    ensures m == perDay
  {
    assert m * p.x == perDay * p.x;
    assert (m - perDay) * p.x == 0.0;
  }

  /** The normal equations: the residuals of the line sum to zero, plain and weighted by x. */
  ghost predicate Normal(ps: seq<Point>, slope: real, intercept: real) {
    && slope * SumX(ps) + intercept * (|ps| as real) == SumY(ps)
    && slope * SumXX(ps) + intercept * SumX(ps) == SumXY(ps)
  }

  method Sums(samples: seq<Sample>) returns (sumX: real, sumY: real, sumXY: real, sumXX: real)
    requires samples != []
    ensures var ps := Points(samples); sumX == SumX(ps) && sumY == SumY(ps) && sumXY == SumXY(ps) && sumXX == SumXX(ps)
  {
    ghost var ps := Points(samples);
    sumX, sumY, sumXY, sumXX := 0.0, 0.0, 0.0, 0.0;
    for i := 0 to |samples|
      invariant sumX == SumX(ps[..i]) && sumY == SumY(ps[..i]) && sumXY == SumXY(ps[..i]) && sumXX == SumXX(ps[..i])
    {
      assert ps[..i + 1][..i] == ps[..i];
      var p := PointOf(samples[0], samples[i]);
      sumX, sumY := sumX + p.x, sumY + p.y;
      sumXY, sumXX := sumXY + p.x * p.y, sumXX + p.x * p.x;
    }
    assert ps[..|ps|] == ps;
  }

  /** What the function computes from the four sums, in both branches, is the best line. */
  lemma FitIsOptimal(
    ps: seq<Point>, n: real, sx: real, sy: real, sxy: real, sxx: real, denom: real, slope: real, intercept: real)
    requires ps != [] && ps[0].x == 0.0
    requires n == |ps| as real && sx == SumX(ps) && sy == SumY(ps) && sxy == SumXY(ps) && sxx == SumXX(ps)
    requires denom == n * sxx - sx * sx
    requires denom == 0.0 ==> slope == 0.0 && intercept == sy / n
    requires denom != 0.0 ==> slope == (n * sxy - sx * sy) / denom && intercept == (sy - slope * sx) / n
    ensures forall a, b :: SquaredError(ps, slope, intercept) <= SquaredError(ps, a, b)
  {
    hide SquaredError, SumX, SumY, SumXY, SumXX;
    if denom == 0.0 {
      FlatNormal(ps);
    } else {
      SlopedNormal(n, sx, sy, sxy, sxx, denom, slope, intercept);
    }
    NormalIsOptimal(ps, slope, intercept);
  }

  lemma SlopedNormal(n: real, sx: real, sy: real, sxy: real, sxx: real, d: real, slope: real, intercept: real)
    requires n > 0.0 && d == n * sxx - sx * sx && d != 0.0
    requires slope == (n * sxy - sx * sy) / d && intercept == (sy - slope * sx) / n
    ensures slope * sx + intercept * n == sy
    ensures slope * sxx + intercept * sx == sxy
  {
    assert slope * d == n * sxy - sx * sy;
    assert intercept * n == sy - slope * sx;
    assert n * (slope * sxx + intercept * sx) == n * sxy by {
      assert n * (slope * sxx + intercept * sx) == slope * (n * sxx) + (intercept * n) * sx;
      assert (intercept * n) * sx == sy * sx - slope * (sx * sx);
      assert slope * (n * sxx) - slope * (sx * sx) == slope * d;
    }
    Cancel(n, slope * sxx + intercept * sx, sxy);
  }

  lemma Cancel(n: real, a: real, b: real)
    requires n > 0.0 && n * a == n * b
    ensures a == b
  {
    assert n * (a - b) == 0.0;
  }

  // ---- The sums of residuals ----

  function SumResiduals(ps: seq<Point>, m: real, c: real): real {
    if ps == [] then 0.0 else SumResiduals(ps[..|ps| - 1], m, c) + Residual(ps[|ps| - 1], m, c)
  }

  function SumXResiduals(ps: seq<Point>, m: real, c: real): real {
    if ps == [] then 0.0 else SumXResiduals(ps[..|ps| - 1], m, c) + ps[|ps| - 1].x * Residual(ps[|ps| - 1], m, c)
  }

  lemma ResidualStep(
    m: real, c: real, n: real, n1: real, sx: real, sx1: real, sy: real, sy1: real, x: real, y: real, r: real)
    requires r == y - (m * x + c)
    requires n1 == n + 1.0 && sx1 == sx + x && sy1 == sy + y
    ensures (sy - (m * sx + c * n)) + r == sy1 - (m * sx1 + c * n1)
  {
  }

  function Product(a: real, b: real): real {
    a * b
  }

  /** The x-weighted sum of residuals in terms of the three other sums. */
  function WeightedSum(m: real, c: real, sx: real, sxx: real, sxy: real): real {
    sxy - (m * sxx + c * sx)
  }

  lemma XResidualStep(m: real, c: real, sx: real, sx1: real, sxx: real, sxx1: real, sxy: real, sxy1: real, p: Point)
    requires sx1 == sx + p.x && sxx1 == sxx + Product(p.x, p.x) && sxy1 == sxy + Product(p.x, p.y)
    ensures WeightedSum(m, c, sx, sxx, sxy) + Product(p.x, Residual(p, m, c)) == WeightedSum(m, c, sx1, sxx1, sxy1)
  {
    assert m * sxx1 == m * sxx + m * (p.x * p.x);
    assert c * sx1 == c * sx + c * p.x;
    assert p.x * (p.y - (m * p.x + c)) == p.x * p.y - m * (p.x * p.x) - c * p.x;
  }

  lemma ResidualIs(p: Point, m: real, c: real)
    ensures Residual(p, m, c) == p.y - (m * p.x + c)
  {
  }

  lemma {:induction false} PlainResiduals(ps: seq<Point>, m: real, c: real)
    ensures SumResiduals(ps, m, c) == SumY(ps) - (m * SumX(ps) + c * (|ps| as real))
  {
    hide Residual;
    if ps != [] {
      var front, p := ps[..|ps| - 1], ps[|ps| - 1];
      PlainResiduals(front, m, c);
      ResidualIs(p, m, c);
      ResidualStep(m, c, |front| as real, |ps| as real, SumX(front), SumX(ps), SumY(front), SumY(ps),
                   p.x, p.y, Residual(p, m, c));
    }
  }

  /** The sums one point at a time. */
  lemma LastPoint(ps: seq<Point>, m: real, c: real)
    requires ps != []
    ensures var front, p := ps[..|ps| - 1], ps[|ps| - 1];
      && SumX(ps) == SumX(front) + p.x
      && SumXX(ps) == SumXX(front) + Product(p.x, p.x)
      && SumXY(ps) == SumXY(front) + Product(p.x, p.y)
      && SumXResiduals(ps, m, c) == SumXResiduals(front, m, c) + Product(p.x, Residual(p, m, c))
  {
    hide Residual;
  }

  lemma {:induction false} WeightedResiduals(ps: seq<Point>, m: real, c: real)
    ensures SumXResiduals(ps, m, c) == WeightedSum(m, c, SumX(ps), SumXX(ps), SumXY(ps))
  {
    if ps == [] {
      NoPoints(m, c);
    } else {
      hide Residual, SumXResiduals, SumX, SumXX, SumXY, Product, WeightedSum;
      var front, p := ps[..|ps| - 1], ps[|ps| - 1];
      WeightedResiduals(front, m, c);
      LastPoint(ps, m, c);
      XResidualStep(m, c, SumX(front), SumX(ps), SumXX(front), SumXX(ps), SumXY(front), SumXY(ps), p);
    }
  }

  lemma NoPoints(m: real, c: real)
    ensures SumXResiduals([], m, c) == 0.0 && WeightedSum(m, c, SumX([]), SumXX([]), SumXY([])) == 0.0
  {
  }

  /** Twice the product of the move (d, e) with the two sums of residuals. */
  function CrossTerm(d: real, e: real, sxr: real, sr: real): real {
    2.0 * (d * sxr + e * sr)
  }

  lemma MovedStep(r: real, s: real, x: real, d: real, e: real, sxr: real, sxr1: real, sr: real, sr1: real,
                  before: real, before1: real, after: real, after1: real)
    requires after >= before - CrossTerm(d, e, sxr, sr)
    requires s == r - (Product(d, x) + e) && sxr1 == sxr + Product(x, r) && sr1 == sr + r
    requires before1 == before + Product(r, r) && after1 == after + Product(s, s)
    ensures after1 >= before1 - CrossTerm(d, e, sxr1, sr1)
  {
    var move := d * x + e;
    SquareSign(move);
    assert s * s == r * r - 2.0 * (move * r) + move * move;
    assert move * r == d * (x * r) + e * r;
    assert d * sxr1 == d * sxr + d * (x * r);
    assert e * sr1 == e * sr + e * r;
  }

  lemma LastResidual(ps: seq<Point>, m: real, c: real)
    requires ps != []
    ensures var front, p, r := ps[..|ps| - 1], ps[|ps| - 1], Residual(ps[|ps| - 1], m, c);
      && SquaredError(ps, m, c) == SquaredError(front, m, c) + Product(r, r)
      && SumXResiduals(ps, m, c) == SumXResiduals(front, m, c) + Product(p.x, r)
      && SumResiduals(ps, m, c) == SumResiduals(front, m, c) + r
  {
    hide Residual;
  }

  /** Moving from line (m, c) to (m + d, c + e) changes the squared error by a cross term and a square. */
  lemma {:induction false} ErrorOfMoved(ps: seq<Point>, m: real, c: real, d: real, e: real)
    ensures SquaredError(ps, m + d, c + e) >=
            SquaredError(ps, m, c) - CrossTerm(d, e, SumXResiduals(ps, m, c), SumResiduals(ps, m, c))
  {
    if ps == [] {
      ZeroCross(d, e, SumXResiduals(ps, m, c), SumResiduals(ps, m, c));
    } else {
      hide Residual, SquaredError, SumXResiduals, SumResiduals, Product, CrossTerm;
      var front, p := ps[..|ps| - 1], ps[|ps| - 1];
      ErrorOfMoved(front, m, c, d, e);
      LastResidual(ps, m, c);
      LastResidual(ps, m + d, c + e);
      ResidualMoved(p, m, c, d, e);
      MovedStep(Residual(p, m, c), Residual(p, m + d, c + e), p.x, d, e,
                SumXResiduals(front, m, c), SumXResiduals(ps, m, c), SumResiduals(front, m, c), SumResiduals(ps, m, c),
                SquaredError(front, m, c), SquaredError(ps, m, c),
                SquaredError(front, m + d, c + e), SquaredError(ps, m + d, c + e));
    }
  }

  lemma ResidualMoved(p: Point, m: real, c: real, d: real, e: real)
    ensures Residual(p, m + d, c + e) == Residual(p, m, c) - (Product(d, p.x) + e)
  {
    assert (m + d) * p.x == m * p.x + d * p.x;
  }

  lemma NormalResiduals(ps: seq<Point>, m: real, c: real)
    requires Normal(ps, m, c)
    ensures SumResiduals(ps, m, c) == 0.0 && SumXResiduals(ps, m, c) == 0.0
  {
    hide SumX, SumY, SumXY, SumXX, SumResiduals, SumXResiduals;
    PlainResiduals(ps, m, c);
    WeightedResiduals(ps, m, c);
  }

  lemma ZeroCross(d: real, e: real, a: real, b: real)
    requires a == 0.0 && b == 0.0
    ensures d * a + e * b == 0.0
  {
  }

  /** A line that satisfies the normal equations has the least squared error of all lines. */
  lemma NormalIsOptimal(ps: seq<Point>, m: real, c: real)
    requires Normal(ps, m, c)
    ensures forall a, b :: SquaredError(ps, m, c) <= SquaredError(ps, a, b)
  {
    hide SquaredError, SumResiduals, SumXResiduals, Normal;
    NormalResiduals(ps, m, c);
    forall a, b ensures SquaredError(ps, m, c) <= SquaredError(ps, a, b) {
      ErrorOfMoved(ps, m, c, a - m, b - c);
      assert m + (a - m) == a && c + (b - c) == b;
      ZeroCross(a - m, b - c, SumXResiduals(ps, m, c), SumResiduals(ps, m, c));
    }
  }

  // ---- The zero denominator ----

  function Square(z: real): real {
    z * z
  }

  function SquaredSpread(ps: seq<Point>, center: real): real {
    if ps == [] then 0.0
    else SquaredSpread(ps[..|ps| - 1], center) + Square(ps[|ps| - 1].x - center)
  }

  lemma SpreadStep(center: real, n: real, n1: real, sx: real, sx1: real, sxx: real, sxx1: real, x: real)
    requires n1 == n + 1.0 && sx1 == sx + x && sxx1 == sxx + x * x
    ensures sxx - 2.0 * center * sx + center * center * n + Square(x - center) ==
            sxx1 - 2.0 * center * sx1 + center * center * n1
  {
    assert (x - center) * (x - center) == x * x - 2.0 * center * x + center * center;
    assert 2.0 * center * sx1 == 2.0 * center * sx + 2.0 * center * x;
    assert center * center * n1 == center * center * n + center * center;
  }

  lemma {:induction false} SpreadExpanded(ps: seq<Point>, center: real)
    ensures SquaredSpread(ps, center) == SumXX(ps) - 2.0 * center * SumX(ps) + center * center * (|ps| as real)
  {
    hide Square;
    if ps != [] {
      var front, p := ps[..|ps| - 1], ps[|ps| - 1];
      SpreadExpanded(front, center);
      SpreadStep(center, |front| as real, |ps| as real, SumX(front), SumX(ps), SumXX(front), SumXX(ps), p.x);
    }
  }

  lemma {:induction false} SpreadZero(ps: seq<Point>, center: real)
    ensures SquaredSpread(ps, center) >= 0.0
    ensures SquaredSpread(ps, center) == 0.0 <==> forall i :: 0 <= i < |ps| ==> ps[i].x == center
  {
    hide Square;
    if ps != [] {
      var front, p := ps[..|ps| - 1], ps[|ps| - 1];
      SpreadZero(front, center);
      SquareSign(p.x - center);
      assert forall i :: 0 <= i < |front| ==> front[i] == ps[i];
    }
  }

  lemma SquareSign(z: real)
    ensures Square(z) >= 0.0
    ensures Square(z) == 0.0 <==> z == 0.0
  {
    if z < 0.0 {
      PositiveSquare(-z);
      assert Square(-z) == Square(z);
    } else if z > 0.0 {
      PositiveSquare(z);
    }
  }

  lemma PositiveSquare(z: real)
    requires z > 0.0
    ensures Square(z) > 0.0
  {
    ProductPositive(z, z);
    assert Product(z, z) == Square(z);
  }

  lemma ProductPositive(a: real, b: real)
    requires a > 0.0 && b > 0.0
    ensures Product(a, b) > 0.0
  {
  }

  /** The denominator is zero exactly when all sample times are equal. */
  lemma DenominatorZero(ps: seq<Point>)
    requires ps != []
    ensures Denominator(ps) == 0.0 <==> forall i :: 0 <= i < |ps| ==> ps[i].x == ps[0].x
  {
    hide SumX, SquaredSpread, Denominator;
    var mean := Mean(ps);
    DenominatorIsSpread(ps);
    SpreadZero(ps, mean);
    if forall i :: 0 <= i < |ps| ==> ps[i].x == ps[0].x {
      MeanOfEqual(ps, ps[0].x);
    }
  }

  ghost function Mean(ps: seq<Point>): real
    requires ps != []
  {
    SumX(ps) / (|ps| as real)
  }

  lemma DenominatorIsSpread(ps: seq<Point>)
    requires ps != []
    ensures Denominator(ps) == 0.0 <==> SquaredSpread(ps, Mean(ps)) == 0.0
  {
    hide SumX, SumXX, SquaredSpread;
    var n, mean, spread := |ps| as real, Mean(ps), SquaredSpread(ps, Mean(ps));
    SpreadExpanded(ps, mean);
    MeanSpread(n, SumX(ps), SumXX(ps), mean, spread);
    if Denominator(ps) == 0.0 {
      Cancel(n, spread, 0.0);
    }
  }

  lemma MeanOfEqual(ps: seq<Point>, x: real)
    requires ps != [] && forall i :: 0 <= i < |ps| ==> ps[i].x == x
    ensures Mean(ps) == x
  {
    hide SumX;
    EqualSum(ps, x);
    Cancel(|ps| as real, Mean(ps), x);
  }

  lemma MeanSpread(n: real, sx: real, sxx: real, mean: real, spread: real)
    requires n > 0.0 && mean == sx / n
    requires spread == sxx - 2.0 * mean * sx + mean * mean * n
    ensures n * sxx - sx * sx == n * spread
  {
    assert mean * n == sx;
    assert n * spread == n * (sxx - 2.0 * mean * sx + mean * mean * n);
    assert n * (2.0 * mean * sx) == 2.0 * (mean * n) * sx;
    assert n * (mean * mean * n) == (mean * n) * (mean * n);
  }

  lemma {:induction false} EqualSum(ps: seq<Point>, x: real)
    requires forall i :: 0 <= i < |ps| ==> ps[i].x == x
    ensures SumX(ps) == x * (|ps| as real)
  {
    if ps != [] {
      EqualSum(ps[..|ps| - 1], x);
      assert x * (|ps| as real) == x * (|ps| - 1) as real + x;
    }
  }

  lemma {:induction false} ZeroX(ps: seq<Point>)
    requires forall i :: 0 <= i < |ps| ==> ps[i].x == 0.0
    ensures SumX(ps) == 0.0 && SumXX(ps) == 0.0 && SumXY(ps) == 0.0
  {
    if ps != [] { ZeroX(ps[..|ps| - 1]); }
  }

  /** When the denominator is zero every x is 0, as the first is, and the flat line through the mean is normal. */
  lemma FlatNormal(ps: seq<Point>)
    requires ps != [] && ps[0].x == 0.0 && Denominator(ps) == 0.0
    ensures Normal(ps, 0.0, SumY(ps) / (|ps| as real))
  {
    DenominatorZero(ps);
    ZeroX(ps);
  }
}
