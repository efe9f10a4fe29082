/** The implicit-line algebra of main.py: calc_intersection,
    calc_intersection_circle, calc_crossing_line and calc_direction. */
module LineAlgebra {
  import opened Geometry

  /** The list [point, angle, (a2, b2, c2)] that calc_intersection returns:
      where the probe meets a surface, the signed angle between the two,
      and the surface's own line. */
  datatype Crossing = Crossing(point: Vector2, angle: real, surface: LineEq)

  /** The determinant of the 2x2 system made of the two equations. */
  function Determinant(l1: LineEq, l2: LineEq): real {
    l1.a * l2.b - l1.b * l2.a
  }

  /** x * (dx / d) + y * (dy / d) + z, over the common denominator. */
  lemma OverCommonDenominator(x: real, y: real, z: real, dx: real, dy: real, d: real)
    requires d != 0.0
    ensures x * (dx / d) + y * (dy / d) + z == (x * dx + y * dy + z * d) / d
  {
  }

  /** The solution of the two equations by Cramer's rule. */
  function CramerPoint(l1: LineEq, l2: LineEq): Vector2
    requires Determinant(l1, l2) != 0.0
  {
    var d := Determinant(l1, l2);
    Vector2((-l1.c * l2.b + l1.b * l2.c) / d, (-l1.a * l2.c + l1.c * l2.a) / d)
  }

  /** Cramer's rule: the point it produces satisfies both equations. */
  lemma CramerSolves(l1: LineEq, l2: LineEq)
    requires Determinant(l1, l2) != 0.0
    ensures l1.Contains(CramerPoint(l1, l2)) && l2.Contains(CramerPoint(l1, l2))
  {
    var d := Determinant(l1, l2);
    var dx, dy := -l1.c * l2.b + l1.b * l2.c, -l1.a * l2.c + l1.c * l2.a;
    OverCommonDenominator(l1.a, l1.b, l1.c, dx, dy, d);
    OverCommonDenominator(l2.a, l2.b, l2.c, dx, dy, d);
    assert l1.a * dx + l1.b * dy + l1.c * d == 0.0;
    assert l2.a * dx + l2.b * dy + l2.c * d == 0.0;
  }

  /** The slopes k1 = -a1/b1 and k2 = -a2/b2 multiply to -1 exactly when the
      normals (a1, b1) and (a2, b2) are orthogonal. */
  lemma SlopeProduct(l1: LineEq, l2: LineEq)
    requires l1.b != 0.0 && l2.b != 0.0
    ensures (-l1.a / l1.b) * (-l2.a / l2.b) == -1.0 <==> l1.a * l2.a == -(l1.b * l2.b)
  {
    var k1, k2 := -l1.a / l1.b, -l2.a / l2.b;
    assert k1 * l1.b == -l1.a;
    assert k2 * l2.b == -l2.a;
    assert (k1 * k2) * (l1.b * l2.b) == l1.a * l2.a by {
      assert (k1 * k2) * (l1.b * l2.b) == (k1 * l1.b) * (k2 * l2.b);
    }
    assert l1.b * l2.b != 0.0;
  }

  /** The angle calc_intersection reports (main.py:478-492); None only when
      both lines are vertical. */
  function IntersectionAngle(m: Math, l1: LineEq, l2: LineEq): (r: Option<real>)
    ensures r.None? <==> l1.IsVertical() && l2.IsVertical()
    // perpendicular non-vertical lines: k1*k2 == -1 is reported as a right angle
    ensures !l1.IsVertical() && !l2.IsVertical() && l1.a * l2.a == -(l1.b * l2.b) ==> r == Some(m.pi / 2.0)
  {
    if l1.b != 0.0 then
      if l2.b != 0.0 then
        var k1 := -l1.a / l1.b;
        var k2 := -l2.a / l2.b;
        SlopeProduct(l1, l2);
        if k1 * k2 == -1.0 then Some(m.pi / 2.0)
        else Some(m.atan((k1 - k2) / (1.0 + k1 * k2)))
      else
        Some(m.pi / 2.0 - m.atan(-l1.a / l1.b))
    else if l2.b != 0.0 then
      Some(-(m.pi / 2.0 - m.atan(-l2.a / l2.b)))
    else
      None
  }

  /** calc_intersection(a1, b1, c1, a2, b2, c2): where the probe l1 meets the
      surface l2, with the signed angle between them; None for parallel lines. */
  function CalcIntersection(m: Math, l1: LineEq, l2: LineEq): (r: Option<Crossing>)
    ensures r.None? <==> Determinant(l1, l2) == 0.0
    ensures r.Some? ==> l1.Contains(r.value.point) && l2.Contains(r.value.point)
    ensures r.Some? ==> r.value.surface == l2
    // two vertical lines are parallel, so the final `return None` is never reached
    ensures l1.IsVertical() && l2.IsVertical() ==> r.None?
    ensures r.Some? && !l1.IsVertical() && !l2.IsVertical() && l1.a * l2.a == -(l1.b * l2.b)
            ==> r.value.angle == m.pi / 2.0
  {
    if Determinant(l1, l2) == 0.0 then None
    else
      CramerSolves(l1, l2);
      match IntersectionAngle(m, l1, l2)
      case None => None
      case Some(angle) => Some(Crossing(CramerPoint(l1, l2), angle, l2))
  }

  /** Eliminating y from two equations satisfied by (x, y). */
  lemma EliminateY(l1: LineEq, l2: LineEq, p: Vector2)
    requires l1.Contains(p) && l2.Contains(p)
    ensures p.x * Determinant(l1, l2) == -l1.c * l2.b + l1.b * l2.c
  {
    assert l1.a * p.x == -l1.c - l1.b * p.y;
    assert l2.a * p.x == -l2.c - l2.b * p.y;
    calc {
      p.x * Determinant(l1, l2);
      l2.b * (l1.a * p.x) - l1.b * (l2.a * p.x);
      l2.b * (-l1.c - l1.b * p.y) - l1.b * (-l2.c - l2.b * p.y);
      -l1.c * l2.b + l1.b * l2.c;
    }
  }

  /** Eliminating x from two equations satisfied by (x, y). */
  lemma EliminateX(l1: LineEq, l2: LineEq, p: Vector2)
    requires l1.Contains(p) && l2.Contains(p)
    ensures p.y * Determinant(l1, l2) == -l1.a * l2.c + l1.c * l2.a
  {
    assert l1.b * p.y == -l1.c - l1.a * p.x;
    assert l2.b * p.y == -l2.c - l2.a * p.x;
    calc {
      p.y * Determinant(l1, l2);
      l1.a * (l2.b * p.y) - l2.a * (l1.b * p.y);
      l1.a * (-l2.c - l2.a * p.x) - l2.a * (-l1.c - l1.a * p.x);
      -l1.a * l2.c + l1.c * l2.a;
    }
  }

  /** The point calc_intersection returns is the only common point of the two lines. */
  lemma CalcIntersectionUnique(m: Math, l1: LineEq, l2: LineEq, p: Vector2)
    requires Determinant(l1, l2) != 0.0
    requires l1.Contains(p) && l2.Contains(p)
    ensures CalcIntersection(m, l1, l2).Some? && CalcIntersection(m, l1, l2).value.point == p
  {
    CommonPointIsCramer(l1, l2, p);
  }

  /** A common point of two non-parallel lines is the one Cramer's rule gives. */
  lemma CommonPointIsCramer(l1: LineEq, l2: LineEq, p: Vector2)
    requires Determinant(l1, l2) != 0.0
    requires l1.Contains(p) && l2.Contains(p)
    ensures p == CramerPoint(l1, l2)
  {
    var d := Determinant(l1, l2);
    EliminateY(l1, l2, p);
    EliminateX(l1, l2, p);
    DivideOut(p.x, d, -l1.c * l2.b + l1.b * l2.c);
    DivideOut(p.y, d, -l1.a * l2.c + l1.c * l2.a);
  }

  /** x * d == n determines x when d is not zero. */
  lemma DivideOut(x: real, d: real, n: real)
    requires d != 0.0 && x * d == n
    ensures x == n / d
  {
  }

  /** Intersecting the lines in either order gives the same point. */
  lemma CalcIntersectionSymmetric(m: Math, l1: LineEq, l2: LineEq)
    ensures CalcIntersection(m, l1, l2).Some? <==> CalcIntersection(m, l2, l1).Some?
    ensures CalcIntersection(m, l1, l2).Some? ==>
              CalcIntersection(m, l1, l2).value.point == CalcIntersection(m, l2, l1).value.point
  {
    assert Determinant(l2, l1) == -Determinant(l1, l2);
    var r := CalcIntersection(m, l1, l2);
    if r.Some? {
      CalcIntersectionUnique(m, l2, l1, r.value.point);
    }
  }

  // ---------------------------------------------------------------------------
  // calc_intersection_circle

  /** The line (i.x - x0)*x + (i.y - y0)*y + (x0^2 - x0*i.x + y0^2 - y0*i.y - R^2) == 0
      that calc_intersection_circle reports as the surface at circle point i:
      its normal is the radius vector. */
  function TangentLine(center: Vector2, radius: real, i: Vector2): (r: LineEq)
    ensures r.a == i.x - center.x && r.b == i.y - center.y
    // at i the equation is the squared distance from the centre less the squared radius
    ensures r.Eval(i) == (i.x - center.x) * (i.x - center.x) + (i.y - center.y) * (i.y - center.y) - radius * radius
  {
    LineEq(i.x - center.x, i.y - center.y,
           center.x * center.x - center.x * i.x + center.y * center.y - center.y * i.y - radius * radius)
  }

  /** The tangent line passes through i exactly when i is on the circle. */
  lemma TangentLineThroughPointIffOnCircle(center: Vector2, radius: real, i: Vector2)
    ensures TangentLine(center, radius, i).Contains(i)
            <==> (i.x - center.x) * (i.x - center.x) + (i.y - center.y) * (i.y - center.y) == radius * radius
  {
    var t := TangentLine(center, radius, i);
    calc {
      t.Eval(i);
      (i.x - center.x) * i.x + (i.y - center.y) * i.y
        + center.x * center.x - center.x * i.x + center.y * center.y - center.y * i.y - radius * radius;
      (i.x - center.x) * (i.x - center.x) + (i.y - center.y) * (i.y - center.y) - radius * radius;
    }
  }

  /** y := (-a*x - c)/b lies on the line when b != 0. */
  lemma SolvedForY(l: LineEq, x: real)
    requires l.b != 0.0
    ensures l.Contains(Vector2(x, (-l.a * x - l.c) / l.b))
  {
    assert l.b * ((-l.a * x - l.c) / l.b) == -l.a * x - l.c;
  }

  /** The discriminant D of the quadratic in x (main.py:498). */
  function CircleDiscriminant(l: LineEq, center: Vector2, radius: real): (r: real)
    // 4b^2 (R^2 (a^2 + b^2) - e^2), e the equation at the centre: positive exactly
    // when the line passes closer to the centre than the radius (for b != 0)
    ensures r == 4.0 * (l.b * l.b) * (radius * radius * (l.a * l.a + l.b * l.b) - l.Eval(center) * l.Eval(center))
  {
    var a, b, c, x0, y0 := l.a, l.b, l.c, center.x, center.y;
    var h := a * c + a * b * y0 - b * b * x0;
    4.0 * h * h - 4.0 * (a * a + b * b) * (b * b * (x0 * x0 + y0 * y0 - radius * radius) + c * c + 2.0 * b * c * y0)
  }

  /** The roots for a slanted line (a != 0 and b != 0, main.py:497-510). */
  function SlantedCirclePoints(m: Math, l: LineEq, center: Vector2, radius: real): (pts: seq<Vector2>)
    requires l.a != 0.0 && l.b != 0.0
    ensures |pts| <= 2
    ensures forall p | p in pts :: l.Contains(p)
  {
    var a, b, c, x0, y0 := l.a, l.b, l.c, center.x, center.y;
    QuadraticRoots(m, l, a * c + a * b * y0 - b * b * x0, CircleDiscriminant(l, center, radius))
  }

  /** The denominator 2(a^2 + b^2) of main.py:500-506, written as
      2a^2(1 + (b/a)^2) so that the solver can see it is not zero;
      DenominatorIsTwiceSumOfSquares shows the two agree. */
  lemma DenominatorNonZero(a: real, b: real)
    requires a != 0.0
    ensures 2.0 * (a * a) * (1.0 + (b / a) * (b / a)) != 0.0
  {
    var u := b / a;
    assert u * u >= 0.0;
    assert 1.0 + u * u > 0.0;
    assert a * a > 0.0;
  }

  lemma DenominatorIsTwiceSumOfSquares(a: real, b: real)
    requires a != 0.0
    ensures 2.0 * (a * a) * (1.0 + (b / a) * (b / a)) == 2.0 * (a * a + b * b)
  {
    var u := b / a;
    assert u * a == b;
  }

  /** x = (-2h +- sqrt(D)) / (2(a^2 + b^2)) with y solved from the line: two
      points for D > 0, one for D == 0, none for D < 0. */
  function QuadraticRoots(m: Math, l: LineEq, h: real, d: real): (pts: seq<Vector2>)
    requires l.a != 0.0 && l.b != 0.0
    ensures |pts| == (if d > 0.0 then 2 else if d == 0.0 then 1 else 0)
    ensures forall p | p in pts :: l.Contains(p)
  {
    if d > 0.0 then [Root(l, -2.0 * h + m.sqrt(d)), Root(l, -2.0 * h - m.sqrt(d))]
    else if d == 0.0 then [Root(l, -2.0 * h)]
    else []
  }

  /** The point of the line at x = num / (2(a^2 + b^2)), y solved from the line. */
  function Root(l: LineEq, num: real): (p: Vector2)
    requires l.a != 0.0 && l.b != 0.0
    ensures l.Contains(p)
    ensures p.x * (2.0 * (l.a * l.a + l.b * l.b)) == num
  {
    var a, b, c := l.a, l.b, l.c;
    DenominatorNonZero(a, b);
    DenominatorIsTwiceSumOfSquares(a, b);
    var x := num / (2.0 * (a * a) * (1.0 + (b / a) * (b / a)));
    SolvedForY(l, x);
    Vector2(x, (-a * x - c) / b)
  }

  /** The candidate points of calc_intersection_circle (the list intrs,
      main.py:497-536): the roots of the quadratic, by the library's square
      root. A horizontal or vertical line is solved directly, and a tangent
      there gives one point. */
  function CirclePoints(m: Math, l: LineEq, center: Vector2, radius: real): (pts: seq<Vector2>)
    ensures |pts| <= 2
    ensures forall p | p in pts :: l.Contains(p)
    ensures l.Degenerate() ==> pts == []
  {
    var a, b, c, x0, y0 := l.a, l.b, l.c, center.x, center.y;
    if a != 0.0 && b != 0.0 then
      SlantedCirclePoints(m, l, center, radius)
    else if a == 0.0 && b != 0.0 then
      var y := -c / b;
      assert l.Eval(Vector2(0.0, y)) == 0.0;
      var undSqrt := radius * radius - (y - y0) * (y - y0);
      if undSqrt >= 0.0 then
        var x1 := m.sqrt(undSqrt) + x0;
        var x2 := -m.sqrt(undSqrt) + x0;
        if x1 != x2 then [Vector2(x2, y), Vector2(x1, y)] else [Vector2(x2, y)]
      else
        []
    else if a != 0.0 && b == 0.0 then
      var x := -c / a;
      assert l.Eval(Vector2(x, 0.0)) == 0.0;
      var undSqrt := radius * radius - (x - x0) * (x - x0);
      if undSqrt >= 0.0 then
        var y1 := m.sqrt(undSqrt) + y0;
        var y2 := -m.sqrt(undSqrt) + y0;
        if y1 != y2 then [Vector2(x, y2), Vector2(x, y1)] else [Vector2(x, y2)]
      else
        []
    else
      []
  }

  /** The crossings the loop at the end of calc_intersection_circle keeps from
      `pts`: each point whose tangent line is not parallel to the probe, with
      the angle calc_intersection reports for it. */
  function TangentCrossings(m: Math, l: LineEq, center: Vector2, radius: real, pts: seq<Vector2>): (r: seq<Crossing>)
    ensures |r| <= |pts|
    ensures forall cr | cr in r ::
              cr.point in pts && cr.surface == TangentLine(center, radius, cr.point)
              && CalcIntersection(m, l, cr.surface).Some?
              && cr.angle == CalcIntersection(m, l, cr.surface).value.angle
    ensures forall p | p in pts && CalcIntersection(m, l, TangentLine(center, radius, p)).Some? ::
              exists cr :: cr in r && cr.point == p
  {
    if pts == [] then []
    else
      var i := pts[|pts| - 1];
      var rest := TangentCrossings(m, l, center, radius, pts[..|pts| - 1]);
      var t := TangentLine(center, radius, i);
      match CalcIntersection(m, l, t)
      case None => rest
      case Some(cr) => rest + [Crossing(i, cr.angle, t)]
  }

  /** calc_intersection_circle(a, b, c, x0, y0, R): builds its result by
      appending, point by point, the crossings TangentCrossings describes. */
  method CalcIntersectionCircle(m: Math, l: LineEq, x0: real, y0: real, radius: real) returns (result: seq<Crossing>)
    ensures result == TangentCrossings(m, l, Vector2(x0, y0), radius, CirclePoints(m, l, Vector2(x0, y0), radius))
    ensures |result| <= 2
    ensures forall cr | cr in result :: l.Contains(cr.point)
  {
    var center := Vector2(x0, y0);
    var intrs := CirclePoints(m, l, center, radius);
    result := KeepCrossings(m, l, center, radius, intrs);
  }

  /** The closing loop of calc_intersection_circle over the candidate points. */
  method KeepCrossings(m: Math, l: LineEq, center: Vector2, radius: real, intrs: seq<Vector2>)
    returns (result: seq<Crossing>)
    ensures result == TangentCrossings(m, l, center, radius, intrs)
  {
    result := [];
    var k := 0;
    while k < |intrs|
      invariant 0 <= k <= |intrs|
      invariant result == TangentCrossings(m, l, center, radius, intrs[..k])
    {
      var i := intrs[k];
      var t := TangentLine(center, radius, i);
      var calcd := CalcIntersection(m, l, t);
      if calcd.Some? {
        result := result + [Crossing(i, calcd.value.angle, t)];
      }
      assert intrs[..k + 1][..k] == intrs[..k];
      k := k + 1;
    }
    assert intrs[..k] == intrs;
  }

  // ---------------------------------------------------------------------------
  // calc_crossing_line

  /** calc_crossing_line(point, a, b, c, angle) as written: the line through
      `point` turned by `angle` from (a, b, c). Only the trigonometry is
      abstract; the branches are the source's. */
  function CalcCrossingLineAsWritten(m: Math, point: Vector2, l: LineEq, angle: real): (r: Result<LineEq>)
    ensures angle == 0.0 || angle == m.pi ==> r == Ok(l)
    ensures r.ZeroDivision? ==> angle == m.pi / 2.0 && l.a != 0.0 && l.b != 0.0
    ensures r.Ok? && angle != 0.0 && angle != m.pi ==>
              (r.value.Degenerate() <==> angle == m.pi / 2.0 && l.a != 0.0 && l.b != 0.0 && l.c == 0.0)
  {
    CrossingLine(m, point, l, angle, point.x)
  }

  /** calc_crossing_line with the vertical-result branch (main.py:560-563)
      setting c2 = -point.x, so that the line x = point.x is produced. */
  function CalcCrossingLine(m: Math, point: Vector2, l: LineEq, angle: real): (r: Result<LineEq>)
    ensures angle == 0.0 || angle == m.pi ==> r == Ok(l)
    // every other branch yields a line through `point`
    ensures r.Ok? && angle != 0.0 && angle != m.pi ==> r.value.Contains(point)
    // a quarter turn yields a line perpendicular to the original
    ensures r.Ok? && angle == m.pi / 2.0 && angle != 0.0 && angle != m.pi ==> r.value.a * l.a + r.value.b * l.b == 0.0
    ensures r.ZeroDivision? <==>
              angle == m.pi / 2.0 && angle != 0.0 && angle != m.pi && l.a != 0.0 && l.b != 0.0
              && -l.b / l.a * point.x + point.y == 0.0
    ensures r.Ok? && angle != 0.0 && angle != m.pi ==>
              (r.value.Degenerate() <==> angle == m.pi / 2.0 && l.a != 0.0 && l.b != 0.0 && l.c == 0.0)
  {
    CrossingLine(m, point, l, angle, -point.x)
  }

  /** The branches of calc_crossing_line; `verticalC` is the constant term
      used when the turned line comes out vertical (c2 at main.py:563). */
  function CrossingLine(m: Math, point: Vector2, l: LineEq, angle: real, verticalC: real): (r: Result<LineEq>)
    ensures angle == 0.0 || angle == m.pi ==> r == Ok(l)
    ensures r.Ok? && angle != 0.0 && angle != m.pi && !VerticalBranch(m, l, angle) ==> r.value.Contains(point)
    ensures r.Ok? && VerticalBranch(m, l, angle) ==> r.value == LineEq(1.0, 0.0, verticalC)
    ensures r.Ok? && angle == m.pi / 2.0 && angle != 0.0 && angle != m.pi ==> r.value.a * l.a + r.value.b * l.b == 0.0
    ensures r.ZeroDivision? <==>
              angle == m.pi / 2.0 && angle != 0.0 && angle != m.pi && l.a != 0.0 && l.b != 0.0
              && -l.b / l.a * point.x + point.y == 0.0
    // a turned line is degenerate only in the slanted quarter turn of a line through the scene origin
    ensures r.Ok? && angle != 0.0 && angle != m.pi ==>
              (r.value.Degenerate() <==> angle == m.pi / 2.0 && l.a != 0.0 && l.b != 0.0 && l.c == 0.0)
  {
    var a, b, c := l.a, l.b, l.c;
    if angle == 0.0 || angle == m.pi then Ok(l)
    else if angle != m.pi / 2.0 then
      Ok(TurnedLine(m, point, l, angle, verticalC))
    else
      if a != 0.0 && b != 0.0 then
        QuarterTurn(point, l)
      else if a == 0.0 then
        Ok(LineEq(1.0, 0.0, -point.x))
      else
        Ok(LineEq(0.0, 1.0, -point.y))
  }

  /** The branches at main.py:552-569 (angle other than 0, pi and pi/2): the
      line through `point` whose slope is turned by tan(angle), or the
      vertical line with constant term `verticalC` when the turned slope is
      infinite. */
  function TurnedLine(m: Math, point: Vector2, l: LineEq, angle: real, verticalC: real): (r: LineEq)
    ensures l.b != 0.0 && (l.a / l.b) * m.tan(angle) == 1.0 ==> r == LineEq(1.0, 0.0, verticalC)
    ensures !(l.b != 0.0 && (l.a / l.b) * m.tan(angle) == 1.0) ==> r.Contains(point)
    ensures !r.Degenerate()
  {
    var a, b, c := l.a, l.b, l.c;
    if b != 0.0 then
      var tanAng := m.tan(angle);
      if (a / b) * tanAng != 1.0 then
        var k2 := (tanAng + a / b) / ((a / b) * tanAng - 1.0);
        LineEq(-k2, 1.0, k2 * point.x - point.y)
      else
        LineEq(1.0, 0.0, verticalC)
    else
      var tanAng := m.tan(angle);
      var k2 := -tanAng;
      LineEq(1.0, -k2, k2 * point.y - point.x)
  }

  /** The branch at main.py:571-575 (angle == pi/2, a != 0, b != 0): the
      perpendicular through `point`, whose constant term is kept as c. When
      c == 0 every coefficient comes out zero, and the result is the
      degenerate equation 0 == 0 rather than a line. */
  function QuarterTurn(point: Vector2, l: LineEq): (r: Result<LineEq>)
    requires l.a != 0.0 && l.b != 0.0
    ensures r.ZeroDivision? <==> -l.b / l.a * point.x + point.y == 0.0
    ensures r.Ok? ==> r.value.Contains(point) && r.value.a * l.a + r.value.b * l.b == 0.0
    // the constant term is kept, so a line through the scene origin turns into 0 == 0
    ensures r.Ok? ==> (r.value.Degenerate() <==> l.c == 0.0)
  {
    var a, b, c := l.a, l.b, l.c;
    var den := -b / a * point.x + point.y;
    if den == 0.0 then ZeroDivision
    else
      var b2 := -c / den;
      var a2 := -b * b2 / a;
      QuarterTurnFacts(a, b, c, den, b2, a2, point);
      Ok(LineEq(a2, b2, c))
  }

  lemma QuarterTurnFacts(a: real, b: real, c: real, den: real, b2: real, a2: real, point: Vector2)
    requires a != 0.0 && den != 0.0
    requires den == -b / a * point.x + point.y && b2 == -c / den && a2 == -b * b2 / a
    ensures a2 * point.x + b2 * point.y + c == 0.0
    ensures a2 * a + b2 * b == 0.0
  {
    assert a2 * a == -b * b2;
    assert a2 == b2 * (-b / a);
    assert b2 * den == -c;
    calc {
      a2 * point.x + b2 * point.y + c;
      b2 * (-b / a) * point.x + b2 * point.y + c;
      b2 * den + c;
      0.0;
    }
  }

  /** The branch at main.py:560-563: the turned line is vertical. */
  predicate VerticalBranch(m: Math, l: LineEq, angle: real) {
    angle != 0.0 && angle != m.pi && angle != m.pi / 2.0 && l.b != 0.0 && (l.a / l.b) * m.tan(angle) == 1.0
  }

  /** As written, the vertical branch yields x = -point.x, which misses
      `point` unless point.x == 0. */
  lemma VerticalBranchMissesPoint(m: Math, point: Vector2, l: LineEq, angle: real)
    requires VerticalBranch(m, l, angle)
    ensures CalcCrossingLineAsWritten(m, point, l, angle) == Ok(LineEq(1.0, 0.0, point.x))
    ensures CalcCrossingLineAsWritten(m, point, l, angle).value.Contains(point) <==> point.x == 0.0
  {
  }

  /** The corrected vertical branch yields x = point.x, through `point`. */
  lemma VerticalBranchHitsPoint(m: Math, point: Vector2, l: LineEq, angle: real)
    requires VerticalBranch(m, l, angle)
    ensures CalcCrossingLine(m, point, l, angle) == Ok(LineEq(1.0, 0.0, -point.x))
    ensures CalcCrossingLine(m, point, l, angle).value.Contains(point)
  {
  }

  /** A concrete instance: with t the library's tan(pi/4), turning
      x + t*y - 1 == 0 about its point (1, 0) by a quarter of pi makes
      (a/b)*tan(angle) exactly 1, and gives x + 1 == 0 as written. Taking
      b equal to the computed tangent, rather than 1, keeps the instance in
      the vertical branch whatever value the tangent rounds to. */
  lemma VerticalBranchCounterexample(m: Math)
    requires m.pi > 0.0 && m.tan(m.pi / 4.0) != 0.0
    ensures LineEq(1.0, m.tan(m.pi / 4.0), -1.0).Contains(Vector2(1.0, 0.0))
    ensures CalcCrossingLineAsWritten(m, Vector2(1.0, 0.0), LineEq(1.0, m.tan(m.pi / 4.0), -1.0), m.pi / 4.0)
            == Ok(LineEq(1.0, 0.0, 1.0))
    ensures !LineEq(1.0, 0.0, 1.0).Contains(Vector2(1.0, 0.0))
  {
    var l := LineEq(1.0, m.tan(m.pi / 4.0), -1.0);
    assert VerticalBranch(m, l, m.pi / 4.0);
    VerticalBranchMissesPoint(m, Vector2(1.0, 0.0), l, m.pi / 4.0);
  }

  // ---------------------------------------------------------------------------
  // calc_direction

  /** point_chck: the point of line l one unit past `intr` along x (along y
      when l is vertical). */
  function CheckPoint(intr: Vector2, l: LineEq): (p: Vector2)
    requires !l.Degenerate()
    ensures l.Contains(p)
    ensures if l.IsVertical() then p.y == intr.y + 1.0 else p.x == intr.x + 1.0
  {
    if l.b != 0.0 then
      SolvedForY(l, intr.x + 1.0);
      Vector2(intr.x + 1.0, (-l.a / l.b) * (intr.x + 1.0) - l.c / l.b)
    else
      Vector2((-l.b / l.a) * (intr.y + 1.0) - l.c / l.a, intr.y + 1.0)
  }

  /** p lies strictly above the non-vertical surface line. */
  predicate Above(surf: LineEq, p: Vector2)
    requires surf.b != 0.0
  {
    p.y > (-surf.a / surf.b) * p.x - surf.c / surf.b
  }

  /** same_side in calc_direction: whether `from` and `chck` fall on the same
      side of the surface (for a vertical surface, of the vertical through `intr`). */
  predicate SameSide(from: Vector2, intr: Vector2, chck: Vector2, surf: LineEq)
    ensures surf.b != 0.0 ==>
              (SameSide(from, intr, chck, surf) <==> (PositiveSide(surf, from) == PositiveSide(surf, chck)))
  {
    if surf.b != 0.0 then
      AboveIsPositiveSide(surf, from);
      AboveIsPositiveSide(surf, chck);
      Above(surf, from) == Above(surf, chck)
    else (from.x > intr.x) == (chck.x > intr.x)
  }

  /** calc_direction(point_from, point_intr, a, b, c, surf_a, surf_b, surf_c,
      get_trough): whether the outgoing line l is travelled in its positive
      sense. Python raises ZeroDivisionError for a degenerate l. */
  function CalcDirection(from: Vector2, intr: Vector2, l: LineEq, surf: LineEq, getThrough: bool): (r: Result<bool>)
    ensures r.ZeroDivision? <==> l.Degenerate()
    ensures r.Ok? ==> r.value == (SameSide(from, intr, CheckPoint(intr, l), surf) != getThrough)
  {
    if l.b == 0.0 && l.a == 0.0 then ZeroDivision
    else
      var positiveDirection := true;
      var sameSide := SameSide(from, intr, CheckPoint(intr, l), surf);
      var afterSide := if !sameSide then !positiveDirection else positiveDirection;
      Ok(if getThrough then !afterSide else afterSide)
  }

  /** With every other argument fixed, refraction and reflection (get_trough
      true and false) choose opposite senses. */
  lemma CalcDirectionFlip(from: Vector2, intr: Vector2, l: LineEq, surf: LineEq, getThrough: bool)
    requires !l.Degenerate()
    ensures CalcDirection(from, intr, l, surf, !getThrough).Ok?
    ensures CalcDirection(from, intr, l, surf, !getThrough).value == !CalcDirection(from, intr, l, surf, getThrough).value
  {
  }

  /** The open half-plane of `surf` on the positive side of its normal (b, or
      a for a vertical surface, taken positive). */
  predicate PositiveSide(surf: LineEq, p: Vector2) {
    (if surf.b != 0.0 then surf.b else surf.a) * surf.Eval(p) > 0.0
  }

  /** The sign test s * Eval(p) > 0 for s = b agrees with Above. */
  lemma AboveIsPositiveSide(surf: LineEq, p: Vector2)
    requires surf.b != 0.0
    ensures Above(surf, p) <==> PositiveSide(surf, p)
  {
    var b := surf.b;
    var e := surf.Eval(p);
    var lhs := p.y - ((-surf.a / b) * p.x - surf.c / b);
    assert lhs * b == e by {
      assert (-surf.a / b) * b == -surf.a;
      assert (surf.c / b) * b == surf.c;
    }
    assert lhs * (b * b) == b * e;
    assert b * b > 0.0;
    assert lhs > 0.0 <==> lhs * (b * b) > 0.0;
  }

  /** calc_direction's side test is the half-plane test of the surface line:
      for a surface through `intr`, same_side holds exactly when `from` and the
      check point are both or neither on the positive side. */
  lemma SameSideIsHalfPlaneTest(from: Vector2, intr: Vector2, chck: Vector2, surf: LineEq)
    requires !surf.Degenerate() && surf.Contains(intr)
    ensures SameSide(from, intr, chck, surf) <==> (PositiveSide(surf, from) == PositiveSide(surf, chck))
  {
    if surf.b != 0.0 {
      AboveIsPositiveSide(surf, from);
      AboveIsPositiveSide(surf, chck);
    } else {
      var a := surf.a;
      assert surf.c == -a * intr.x;
      forall p: Vector2 ensures (p.x > intr.x) <==> PositiveSide(surf, p) {
        assert surf.Eval(p) == a * (p.x - intr.x);
        assert a * surf.Eval(p) == (a * a) * (p.x - intr.x);
        assert a * a > 0.0;
      }
    }
  }
}
