/**
 The trend line and the forecast of `fleet/metrics.py`, over the real numbers.
 */
module LeastSquares {
  import opened Wrappers

  datatype Point = Point(x: real, y: real)

  datatype Line = Line(a: real, b: real)

  const DAY: real := 86400.0

  // --- sums ----------------------------------------------------------------------------------------------------------

  function SumX(ps: seq<Point>): real {
    if ps == [] then 0.0 else SumX(ps[1..]) + ps[0].x
  }

  function SumY(ps: seq<Point>): real {
    if ps == [] then 0.0 else SumY(ps[1..]) + ps[0].y
  }

  function SumXX(ps: seq<Point>): real {
    if ps == [] then 0.0 else SumXX(ps[1..]) + ps[0].x * ps[0].x
  }

  function SumXY(ps: seq<Point>): real {
    if ps == [] then 0.0 else SumXY(ps[1..]) + ps[0].x * ps[0].y
  }

  function SumYY(ps: seq<Point>): real {
    if ps == [] then 0.0 else SumYY(ps[1..]) + ps[0].y * ps[0].y
  }

  function Square(v: real): real {
    v * v
  }

  /** The value of the line at `x`. */
  function At(l: Line, x: real): real {
    l.a + l.b * x
  }

  lemma SquareIsPositive(v: real)
    ensures Square(v) >= 0.0 && (v == 0.0 <==> Square(v) == 0.0)
  {
    hide Square;
    if v < 0.0 {
      NegativeSquare(v);
    } else if v > 0.0 {
      PositiveSquare(v);
    } else {
      ZeroSquare();
    }
  }

  lemma PositiveSquare(v: real)
    requires v > 0.0
    ensures Square(v) > 0.0
  {
    calc {
      Square(v);
    ==
      v * v;
    >  { ProductIsPositive(v, v); }
      0.0;
    }
  }

  lemma ProductIsPositive(a: real, b: real)
    requires a > 0.0 && b > 0.0
    ensures a * b > 0.0
  {
  }

  lemma NegativeSquare(v: real)
    requires v < 0.0
    ensures Square(v) > 0.0
  {
    hide Square;
    PositiveSquare(-v);
    SquareOfNegation(v);
  }

  lemma SquareOfNegation(v: real)
    ensures Square(-v) == Square(v)
  {
  }

  lemma ZeroSquare()
    ensures Square(0.0) == 0.0
  {
  }

  /** The squared deviations of `x` from `m`. */
  function Spread(ps: seq<Point>, m: real): real {
    if ps == [] then 0.0 else Spread(ps[1..], m) + Square(ps[0].x - m)
  }

  function Covariation(ps: seq<Point>, mx: real, my: real): real {
    if ps == [] then 0.0 else Covariation(ps[1..], mx, my) + (ps[0].x - mx) * (ps[0].y - my)
  }

  /** How far the points are off the line, squared. */
  function Error(ps: seq<Point>, l: Line): real {
    if ps == [] then 0.0
    else Error(ps[1..], l) + Square(ps[0].y - At(l, ps[0].x))
  }

  /** The squares of the values of a line at the points. */
  function Energy(ps: seq<Point>, l: Line): real {
    if ps == [] then 0.0 else Energy(ps[1..], l) + Square(At(l, ps[0].x))
  }

  /** `linear_fit` */
  function LinearFit(ps: seq<Point>): Option<Line> {
    var n := |ps|;
    if n < 2 then None
    else
      var mx, my := SumX(ps) / n as real, SumY(ps) / n as real;
      var sxx := Spread(ps, mx);
      if sxx == 0.0 then None
      else
        var b := Covariation(ps, mx, my) / sxx;
        Some(Line(my - b * mx, b))
  }

  // --- the sums multiplied out -------------------------------------------------------------------------------------

  function SpreadOf(n: real, sx: real, xx: real, m: real): real {
    xx - 2.0 * m * sx + n * m * m
  }

  lemma SpreadStep(n: real, sx: real, xx: real, m: real, x: real)
    ensures SpreadOf(n, sx, xx, m) + Square(x - m) == SpreadOf(n + 1.0, sx + x, xx + x * x, m)
  {
  }

  lemma {:induction false} SpreadForm(ps: seq<Point>, m: real)
    ensures Spread(ps, m) == SpreadOf(|ps| as real, SumX(ps), SumXX(ps), m)
  {
    hide SpreadOf, Square;
    if ps == [] {
      NoSpread(m);
    } else {
      var t := ps[1..];
      SpreadForm(t, m);
      var x := ps[0].x;
      SpreadStep(|t| as real, SumX(t), SumXX(t), m, x);
      assert |ps| as real == |t| as real + 1.0 && SumX(ps) == SumX(t) + x && SumXX(ps) == SumXX(t) + x * x;
    }
  }

  lemma NoSpread(m: real)
    ensures SpreadOf(0.0, 0.0, 0.0, m) == 0.0
  {
  }

  function CovariationOf(n: real, sx: real, sy: real, xy: real, mx: real, my: real): real {
    xy - mx * sy - my * sx + n * mx * my
  }

  lemma CovariationStep(n: real, sx: real, sy: real, xy: real, mx: real, my: real, x: real, y: real)
    ensures CovariationOf(n, sx, sy, xy, mx, my) + (x - mx) * (y - my) ==
        CovariationOf(n + 1.0, sx + x, sy + y, xy + x * y, mx, my)
  {
  }

  lemma {:induction false} CovariationForm(ps: seq<Point>, mx: real, my: real)
    ensures Covariation(ps, mx, my) == CovariationOf(|ps| as real, SumX(ps), SumY(ps), SumXY(ps), mx, my)
  {
    hide CovariationOf;
    if ps == [] {
      NoCovariation(mx, my);
    } else {
      var t := ps[1..];
      CovariationForm(t, mx, my);
      var x, y := ps[0].x, ps[0].y;
      CovariationStep(|t| as real, SumX(t), SumY(t), SumXY(t), mx, my, x, y);
      assert |ps| as real == |t| as real + 1.0 && SumX(ps) == SumX(t) + x && SumY(ps) == SumY(t) + y &&
          SumXY(ps) == SumXY(t) + x * y;
    }
  }

  lemma NoCovariation(mx: real, my: real)
    ensures CovariationOf(0.0, 0.0, 0.0, 0.0, mx, my) == 0.0
  {
  }

  /** The error of a line as a polynomial in its coefficients. */
  function Quadratic(n: real, sx: real, sy: real, xx: real, xy: real, yy: real, a: real, b: real): real {
    yy + n * a * a + b * b * xx - 2.0 * a * sy - 2.0 * b * xy + 2.0 * a * b * sx
  }

  lemma ErrorStep(n: real, sx: real, sy: real, xx: real, xy: real, yy: real, l: Line, x: real, y: real)
    ensures Quadratic(n, sx, sy, xx, xy, yy, l.a, l.b) + Square(y - At(l, x)) ==
            Quadratic(n + 1.0, sx + x, sy + y, xx + x * x, xy + x * y, yy + y * y, l.a, l.b)
  {
    var a, b, e := l.a, l.b, At(l, x);
    assert (y - e) * (y - e) == y * y - 2.0 * e * y + e * e;
    assert e * e == a * a + 2.0 * a * b * x + b * b * x * x;
  }

  lemma {:induction false} ErrorForm(ps: seq<Point>, l: Line)
    ensures Error(ps, l) == Quadratic(|ps| as real, SumX(ps), SumY(ps), SumXX(ps), SumXY(ps), SumYY(ps), l.a, l.b)
  {
    hide Square, At, Quadratic, Error, SumX, SumY, SumXX, SumXY, SumYY;
    if ps == [] {
      NoError(l.a, l.b);
      ErrorOnce(ps, l);
      NoSums();
    } else {
      var t := ps[1..];
      ErrorForm(t, l);
      ErrorOnce(ps, l);
      var n, x, y := |t| as real, ps[0].x, ps[0].y;
      ErrorStep(n, SumX(t), SumY(t), SumXX(t), SumXY(t), SumYY(t), l, x, y);
      SumsOnce(ps);
      SameQuadratic(n + 1.0, SumX(t) + x, SumY(t) + y, SumXX(t) + x * x, SumXY(t) + x * y, SumYY(t) + y * y,
                    |ps| as real, SumX(ps), SumY(ps), SumXX(ps), SumXY(ps), SumYY(ps), l.a, l.b);
    }
  }

  lemma SameQuadratic(n: real, sx: real, sy: real, xx: real, xy: real, yy: real,
                      n1: real, sx1: real, sy1: real, xx1: real, xy1: real, yy1: real, a: real, b: real)
    requires n == n1 && sx == sx1 && sy == sy1 && xx == xx1 && xy == xy1 && yy == yy1
    ensures Quadratic(n, sx, sy, xx, xy, yy, a, b) == Quadratic(n1, sx1, sy1, xx1, xy1, yy1, a, b)
  {
    hide Quadratic;
  }

  lemma NoSums()
    ensures SumX([]) == SumY([]) == SumXX([]) == SumXY([]) == SumYY([]) == 0.0
  {
  }

  lemma ErrorOnce(ps: seq<Point>, l: Line)
    ensures ps == [] ==> Error(ps, l) == 0.0
    ensures ps != [] ==>
              Error(ps, l) == Error(ps[1..], l) + Square(ps[0].y - At(l, ps[0].x))
  {
  }

  lemma SumsOnce(ps: seq<Point>)
    requires ps != []
    ensures var t, x, y := ps[1..], ps[0].x, ps[0].y;
            && |ps| as real == |t| as real + 1.0 && SumX(ps) == SumX(t) + x && SumY(ps) == SumY(t) + y
            && SumXX(ps) == SumXX(t) + x * x && SumXY(ps) == SumXY(t) + x * y && SumYY(ps) == SumYY(t) + y * y
  {
  }

  lemma NoError(a: real, b: real)
    ensures Quadratic(0.0, 0.0, 0.0, 0.0, 0.0, 0.0, a, b) == 0.0
  {
  }

  function EnergyOf(n: real, sx: real, xx: real, a: real, b: real): real {
    n * a * a + 2.0 * a * b * sx + b * b * xx
  }

  lemma EnergyStep(n: real, sx: real, xx: real, l: Line, x: real)
    ensures EnergyOf(n, sx, xx, l.a, l.b) + Square(At(l, x)) == EnergyOf(n + 1.0, sx + x, xx + x * x, l.a, l.b)
  {
  }

  lemma {:induction false} EnergyForm(ps: seq<Point>, l: Line)
    ensures Energy(ps, l) == EnergyOf(|ps| as real, SumX(ps), SumXX(ps), l.a, l.b)
  {
    hide EnergyOf, Square, At;
    if ps == [] {
      NoEnergy(l.a, l.b);
    } else {
      var t := ps[1..];
      EnergyForm(t, l);
      var x := ps[0].x;
      EnergyStep(|t| as real, SumX(t), SumXX(t), l, x);
      assert |ps| as real == |t| as real + 1.0 && SumX(ps) == SumX(t) + x && SumXX(ps) == SumXX(t) + x * x;
    }
  }

  lemma NoEnergy(a: real, b: real)
    ensures EnergyOf(0.0, 0.0, 0.0, a, b) == 0.0
  {
  }

  // --- the best line -----------------------------------------------------------------------------------------------

  /** Moving away from a line that meets the normal equations costs the energy of the move. */
  lemma MovingAway(n: real, sx: real, sy: real, xx: real, xy: real, yy: real, a: real, b: real, p: real, q: real)
    requires n * a + b * sx == sy && a * sx + b * xx == xy
    ensures Quadratic(n, sx, sy, xx, xy, yy, a + p, b + q) ==
        Quadratic(n, sx, sy, xx, xy, yy, a, b) + EnergyOf(n, sx, xx, p, q)
  {
    var d := n * a + b * sx - sy;
    var e := a * sx + b * xx - xy;
    Expanded(n, sx, sy, xx, xy, yy, a, b, p, q, d, e);
    assert d == 0.0 && e == 0.0;
  }

  lemma Expanded(n: real, sx: real, sy: real, xx: real, xy: real, yy: real, a: real, b: real, p: real, q: real,
                 d: real, e: real)
    requires d == n * a + b * sx - sy && e == a * sx + b * xx - xy
    ensures Quadratic(n, sx, sy, xx, xy, yy, a + p, b + q) ==
            Quadratic(n, sx, sy, xx, xy, yy, a, b) + EnergyOf(n, sx, xx, p, q) + 2.0 * p * d + 2.0 * q * e
  {
  }

  /** The fitted line meets the normal equations. */
  lemma NormalEquations(n: real, sx: real, sy: real, xx: real, xy: real, mx: real, my: real, sxx: real, sxy: real,
                        a: real, b: real)
    requires n * mx == sx && n * my == sy
    requires sxx == SpreadOf(n, sx, xx, mx) && sxy == CovariationOf(n, sx, sy, xy, mx, my)
    requires b * sxx == sxy && a == my - b * mx
    ensures n * a + b * sx == sy && a * sx + b * xx == xy
  {
    assert n * a == n * my - b * (n * mx);
    assert n * mx * mx == sx * mx && n * mx * my == sx * my;
    assert mx * sy == mx * n * my;
    assert sxx == xx - mx * sx && sxy == xy - my * sx;
    assert b * sxx == b * xx - b * (mx * sx);
    assert a * sx == my * sx - b * mx * sx;
  }

  lemma FitMeetsNormalEquations(ps: seq<Point>)
    requires LinearFit(ps).Some?
    ensures var l, n := LinearFit(ps).value, |ps| as real;
            n * l.a + l.b * SumX(ps) == SumY(ps) && l.a * SumX(ps) + l.b * SumXX(ps) == SumXY(ps)
  {
    hide SumX, SumY, SumXX, SumXY, Spread, Covariation, SpreadOf, CovariationOf;
    var n := |ps| as real;
    var mx, my := SumX(ps) / n, SumY(ps) / n;
    var l := LinearFit(ps).value;
    SpreadForm(ps, mx);
    CovariationForm(ps, mx, my);
    Quotients(SumX(ps), n);
    Quotients(SumY(ps), n);
    Quotients(Covariation(ps, mx, my), Spread(ps, mx));
    NormalEquations(n, SumX(ps), SumY(ps), SumXX(ps), SumXY(ps), mx, my, Spread(ps, mx), Covariation(ps, mx, my), l.a,
        l.b);
  }

  lemma Quotients(a: real, n: real)
    requires n != 0.0
    ensures n * (a / n) == a && (a / n) * n == a
  {
  }

  lemma {:induction false} EnergyIsPositive(ps: seq<Point>, l: Line)
    ensures Energy(ps, l) >= 0.0
    ensures Energy(ps, l) == 0.0 ==> forall i :: 0 <= i < |ps| ==> At(l, ps[i].x) == 0.0
  {
    hide Square, At;
    if ps != [] {
      EnergyIsPositive(ps[1..], l);
      SquareIsPositive(At(l, ps[0].x));
      assert forall i :: 0 < i < |ps| ==> ps[i] == ps[1..][i - 1];
    }
  }

  predicate Constant(ps: seq<Point>) {
    forall i, j :: 0 <= i < |ps| && 0 <= j < |ps| ==> ps[i].x == ps[j].x
  }

  lemma {:induction false} NoSpreadIsConstant(ps: seq<Point>, m: real)
    ensures Spread(ps, m) >= 0.0
    ensures Spread(ps, m) == 0.0 <==> forall i :: 0 <= i < |ps| ==> ps[i].x == m
  {
    hide Square;
    if ps != [] {
      NoSpreadIsConstant(ps[1..], m);
      SquareIsPositive(ps[0].x - m);
      assert forall i :: 0 < i < |ps| ==> ps[i] == ps[1..][i - 1];
    }
  }

  lemma {:induction false} ConstantMean(ps: seq<Point>, x: real)
    requires forall i :: 0 <= i < |ps| ==> ps[i].x == x
    ensures SumX(ps) == |ps| as real * x
  {
    if ps != [] {
      ConstantMean(ps[1..], x);
      assert |ps| as real == |ps[1..]| as real + 1.0;
      OneMore(|ps[1..]| as real, x);
    }
  }

  lemma OneMore(n: real, x: real)
    ensures (n + 1.0) * x == n * x + x
  {
  }

  lemma Cancel(n: real, x: real, y: real)
    requires n != 0.0 && n * x == y
    ensures y / n == x
  {
  }

  /** There is a fit exactly when there are two points with different times. */
  lemma FitExists(ps: seq<Point>)
    ensures LinearFit(ps).Some? <==> exists i, j :: 0 <= i < |ps| && 0 <= j < |ps| && ps[i].x != ps[j].x
  {
    hide SumX, SumY, Spread, Covariation;
    if |ps| >= 2 {
      var n := |ps| as real;
      var m := SumX(ps) / n;
      NoSpreadIsConstant(ps, m);
      if Constant(ps) {
        ConstantMean(ps, ps[0].x);
        Cancel(n, ps[0].x, SumX(ps));
      }
    }
  }

  /** What another line costs more than the fitted one. */
  lemma OtherLinesCostMore(ps: seq<Point>, l: Line)
    requires LinearFit(ps).Some?
    ensures var fit := LinearFit(ps).value; Error(ps, l) == Error(ps, fit) + Energy(ps, Line(l.a - fit.a, l.b - fit.b))
  {
    hide SumX, SumY, SumXX, SumXY, SumYY, LinearFit, Error, Energy, Quadratic, EnergyOf;
    var fit, n := LinearFit(ps).value, |ps| as real;
    var move := Line(l.a - fit.a, l.b - fit.b);
    FitMeetsNormalEquations(ps);
    ErrorForm(ps, fit);
    ErrorForm(ps, l);
    EnergyForm(ps, move);
    MovingAway(n, SumX(ps), SumY(ps), SumXX(ps), SumXY(ps), SumYY(ps), fit.a, fit.b, move.a, move.b);
  }

  /** The fitted line has the least squared error of all lines, and it is the only one. */
  lemma FitIsBest(ps: seq<Point>, l: Line)
    requires LinearFit(ps).Some?
    ensures Error(ps, LinearFit(ps).value) <= Error(ps, l)
    ensures Error(ps, LinearFit(ps).value) == Error(ps, l) ==> l == LinearFit(ps).value
  {
    hide LinearFit, Error, Energy;
    var fit := LinearFit(ps).value;
    var move := Line(l.a - fit.a, l.b - fit.b);
    OtherLinesCostMore(ps, l);
    EnergyIsPositive(ps, move);
    if Energy(ps, move) == 0.0 {
      FitExists(ps);
      var i, j :| 0 <= i < |ps| && 0 <= j < |ps| && ps[i].x != ps[j].x;
      OnlyZeroLine(move.a, move.b, ps[i].x, ps[j].x);
    }
  }

  lemma OnlyZeroLine(a: real, b: real, x: real, y: real)
    requires a + b * x == 0.0 && a + b * y == 0.0 && x != y
    ensures a == 0.0 && b == 0.0
  {
    assert b * (x - y) == 0.0;
  }

  // --- the forecast ------------------------------------------------------------------------------------------------

  datatype Trend = Flat(perDay: real) | Growing(perDay: real, days: real, daysLeft: real)

  predicate Before(p: Point, q: Point) {
    p.x < q.x || (p.x == q.x && p.y <= q.y)
  }

  function Insert(ps: seq<Point>, p: Point): seq<Point> {
    if ps == [] || Before(ps[|ps| - 1], p) then ps + [p] else Insert(ps[..|ps| - 1], p) + [ps[|ps| - 1]]
  }

  function Sort(ps: seq<Point>): seq<Point> {
    if ps == [] then [] else Insert(Sort(ps[..|ps| - 1]), ps[|ps| - 1])
  }

  ghost predicate Ordered(ps: seq<Point>) {
    forall i, j :: 0 <= i < j < |ps| ==> Before(ps[i], ps[j])
  }

  lemma {:induction false} InsertKeeps(ps: seq<Point>, p: Point)
    ensures multiset(Insert(ps, p)) == multiset(ps) + multiset{p}
    decreases |ps|
  {
    if ps != [] && !Before(ps[|ps| - 1], p) {
      var n := |ps| - 1;
      InsertKeeps(ps[..n], p);
      assert ps == ps[..n] + [ps[n]];
    }
  }

  lemma {:induction false} InsertOrders(ps: seq<Point>, p: Point)
    requires Ordered(ps)
    ensures Ordered(Insert(ps, p))
    decreases |ps|
  {
    if ps != [] && !Before(ps[|ps| - 1], p) {
      var n := |ps| - 1;
      InsertOrders(ps[..n], p);
      var r := Insert(ps[..n], p);
      forall i | 0 <= i < |r| ensures Before(r[i], ps[n]) {
        ComesFrom(ps[..n], p, r[i]);
      }
    }
  }

  lemma ComesFrom(ps: seq<Point>, p: Point, q: Point)
    requires q in Insert(ps, p)
    ensures q == p || exists k :: 0 <= k < |ps| && ps[k] == q
  {
    hide Insert;
    InsertKeeps(ps, p);
    assert q in multiset(Insert(ps, p));
  }

  /** Sorting keeps the points, the earliest first and the latest last. */
  lemma {:induction false} SortOrders(ps: seq<Point>)
    ensures Ordered(Sort(ps)) && multiset(Sort(ps)) == multiset(ps) && |Sort(ps)| == |ps|
    decreases |ps|
  {
    hide Insert, Ordered;
    if ps == [] {
      assert Ordered(Sort(ps)) by { NothingUnordered(); }
    } else {
      var n := |ps| - 1;
      SortOrders(ps[..n]);
      InsertOrders(Sort(ps[..n]), ps[n]);
      InsertKeeps(Sort(ps[..n]), ps[n]);
      assert ps == ps[..n] + [ps[n]];
      assert |multiset(Sort(ps))| == |multiset(ps)|;
    }
  }

  lemma NothingUnordered()
    ensures Ordered([])
  {
  }

  /** `forecast_full`, before the figures are rounded. Points without a value are left out beforehand. */
  function Forecast(points: seq<Point>, limit: real, minSpan: real): Option<Trend> {
    var ps := Sort(points);
    if |ps| < 3 || ps[|ps| - 1].x - ps[0].x < minSpan then None
    else
      var fit := LinearFit(ps);
      if fit.None? then None
      else
        var perDay := fit.value.b * DAY;
        if fit.value.b <= 0.0 then Some(Flat(perDay))
        else
          var days := (limit - (fit.value.a + fit.value.b * ps[|ps| - 1].x)) / perDay;
          Some(Growing(perDay, days, if days < 0.0 then 0.0 else days))
  }

  lemma SamePoints(points: seq<Point>)
    ensures forall p :: p in points <==> p in Sort(points)
  {
    hide Sort;
    SortOrders(points);
    assert forall p :: p in points <==> p in multiset(points);
    assert forall p :: p in Sort(points) <==> p in multiset(Sort(points));
  }

  /** The widest distance in time is that of the latest point from the earliest. */
  lemma WidestSpan(points: seq<Point>, span: real)
    requires points != []
    ensures var ps := Sort(points);
            |ps| == |points| &&
            (ps[|ps| - 1].x - ps[0].x >= span <==> exists p, q :: p in points && q in points && q.x - p.x >= span)
  {
    hide Sort;
    SortOrders(points);
    SamePoints(points);
    var ps := Sort(points);
    assert forall i :: 0 <= i < |ps| ==> ps[0].x <= ps[i].x <= ps[|ps| - 1].x;
    assert ps[0] in points && ps[|ps| - 1] in points;
  }

  /** A forecast is made exactly of three or more points, two of which are the least span apart, and two at different
      times; it is flat exactly if the best line does not grow, and names that line's growth in a day. */
  lemma ForecastsAreMade(points: seq<Point>, limit: real, minSpan: real)
    ensures var r := Forecast(points, limit, minSpan);
            && (r.Some? <==>
                  && |points| >= 3 && (exists p, q :: p in points && q in points && q.x - p.x >= minSpan)
                  && exists p, q :: p in points && q in points && p.x != q.x)
            && (r.Some? ==>
                  && LinearFit(Sort(points)).Some?
                  && var l := LinearFit(Sort(points)).value;
                     (r.value.Flat? <==> l.b <= 0.0) && r.value.perDay == l.b * 86400.0)
  {
    hide Sort, LinearFit;
    SortOrders(points);
    if |points| >= 3 {
      WidestSpan(points, minSpan);
      SamePoints(points);
      FitExists(Sort(points));
    }
  }

  /**
   With a growing fit, the forecast is the one moment, counted from the latest point, at which the best line meets the
   limit; nothing is left exactly when that line is at the limit already.
   */
  lemma ForecastIsTheCrossing(points: seq<Point>, limit: real, minSpan: real, d: real)
    requires Forecast(points, limit, minSpan).Some? && Forecast(points, limit, minSpan).value.Growing?
    ensures var ps, f := Sort(points), Forecast(points, limit, minSpan).value;
            && |ps| >= 3 && LinearFit(ps).Some?
            && var now, l := ps[|ps| - 1].x, LinearFit(ps).value;
               && (l.a + l.b * (now + d * DAY) == limit <==> d == f.days)
               && (f.daysLeft == 0.0 <==> l.a + l.b * now >= limit)
  {
    hide LinearFit, Sort;
    var ps := Sort(points);
    var l, now := LinearFit(ps).value, ps[|ps| - 1].x;
    Crossing(l.a, l.b, now, limit, d);
  }

  lemma Crossing(a: real, b: real, now: real, limit: real, d: real)
    requires b > 0.0
    ensures var days := (limit - (a + b * now)) / (b * DAY);
            && (a + b * (now + d * DAY) == limit <==> d == days)
            && (days <= 0.0 <==> a + b * now >= limit)
  {
    var rate, gap := b * DAY, limit - (a + b * now);
    assert rate > 0.0;
    assert b * (now + d * DAY) == b * now + d * rate;
    Divided(gap, rate, d);
  }

  lemma Divided(gap: real, rate: real, d: real)
    requires rate > 0.0
    ensures d * rate == gap <==> d == gap / rate
    ensures gap / rate <= 0.0 <==> gap <= 0.0
  {
    Quotients(gap, rate);
    var q := gap / rate;
    assert q * rate == gap;
    if d * rate == gap {
      assert (d - q) * rate == 0.0;
    }
  }
}
