/** The optical elements of main.py, Polygon and Lens, and how each one
    intersects a probe line: every edge is cut with the probe, only the
    crossings inside the edge's extent are kept, and each kept crossing is
    tagged with the element's absolute refractive index. */
module Elements {
  import opened Geometry
  import opened LineAlgebra

  /** One entry of an element's `intersections` list:
      [point, angle, (a2, b2, c2), abs_refr_indx]. */
  datatype Hit = Hit(point: Vector2, angle: real, surface: LineEq, index: real)

  /** `intr + [abs_refr_indx]`. */
  function Tag(cr: Crossing, index: real): Hit {
    Hit(cr.point, cr.angle, cr.surface, index)
  }

  /** The extent test an edge applies to a crossing: strictly between two x
      values, or inclusively between two x or two y values. */
  datatype Span = OpenX(lo: real, hi: real) | ClosedX(lo: real, hi: real) | ClosedY(lo: real, hi: real)

  predicate InSpan(p: Vector2, s: Span) {
    match s
    case OpenX(lo, hi) => lo < p.x < hi
    case ClosedX(lo, hi) => lo <= p.x <= hi
    case ClosedY(lo, hi) => lo <= p.y <= hi
  }

  /** The crossing of the probe with a straight edge: what calc_intersection
      finds with the edge's line, kept when it lies inside the edge's span. */
  function Clip(m: Math, probe: LineEq, edge: LineEq, span: Span): (r: seq<Crossing>)
    ensures |r| <= 1
    ensures forall cr | cr in r ::
              probe.Contains(cr.point) && edge.Contains(cr.point) && InSpan(cr.point, span) && cr.surface == edge
  {
    match CalcIntersection(m, probe, edge)
    case None => []
    case Some(cr) => if InSpan(cr.point, span) then [cr] else []
  }

  /** Conversely, a common point of a non-parallel probe and edge that lies
      inside the span is always reported. */
  lemma ClipComplete(m: Math, probe: LineEq, edge: LineEq, span: Span, p: Vector2)
    requires Determinant(probe, edge) != 0.0
    requires probe.Contains(p) && edge.Contains(p) && InSpan(p, span)
    ensures |Clip(m, probe, edge, span)| == 1 && Clip(m, probe, edge, span)[0].point == p
  {
    CalcIntersectionUnique(m, probe, edge, p);
  }

  /** The hit an element's straight edge contributes: its clipped crossing,
      tagged with the element's index. */
  function EdgeHits(m: Math, probe: LineEq, edge: LineEq, span: Span, index: real): (r: seq<Hit>)
    ensures |r| <= 1
    ensures forall h | h in r ::
              probe.Contains(h.point) && edge.Contains(h.point) && InSpan(h.point, span)
              && h.surface == edge && h.index == index
  {
    var cs := Clip(m, probe, edge, span);
    if cs == [] then [] else [Tag(cs[0], index)]
  }

  /** One edge's block of an `intersections` method: cut the probe with the
      edge's line and append the crossing, tagged, when it lies in the span. */
  method AppendEdgeHit(m: Math, probe: LineEq, edge: LineEq, span: Span, index: real, result: seq<Hit>)
    returns (r: seq<Hit>)
    ensures r == result + EdgeHits(m, probe, edge, span, index)
  {
    r := result;
    var intr := CalcIntersection(m, probe, edge);
    if intr.Some? {
      if InSpan(intr.value.point, span) {
        r := r + [Tag(intr.value, index)];
      }
    }
  }

  /** The arc test of Lens.intersections: within the lens's height band around
      the centre, and on the outer side (x >= centre.x when `keepRight`). */
  predicate InArc(p: Vector2, centre: Vector2, width: real, keepRight: bool) {
    centre.y - width / 2.0 <= p.y <= centre.y + width / 2.0
    && (if keepRight then p.x >= centre.x else p.x <= centre.x)
  }

  /** The circle crossings a lens side keeps, tagged, in their original order. */
  function ArcHits(cs: seq<Crossing>, centre: Vector2, width: real, keepRight: bool, index: real): (r: seq<Hit>)
    ensures |r| <= |cs|
    ensures forall h | h in r ::
              h.index == index && InArc(h.point, centre, width, keepRight)
              && Crossing(h.point, h.angle, h.surface) in cs
    ensures forall cr | cr in cs && InArc(cr.point, centre, width, keepRight) :: Tag(cr, index) in r
  {
    if cs == [] then []
    else
      var rest := ArcHits(cs[..|cs| - 1], centre, width, keepRight, index);
      var cr := cs[|cs| - 1];
      assert cs == cs[..|cs| - 1] + [cr];
      if InArc(cr.point, centre, width, keepRight) then rest + [Tag(cr, index)] else rest
  }

  /** One arc's loop in Lens.intersections: append, tagged, each circle
      crossing that passes the arc test. */
  method AppendArcHits(cs: seq<Crossing>, centre: Vector2, width: real, keepRight: bool, index: real, result: seq<Hit>)
    returns (r: seq<Hit>)
    ensures r == result + ArcHits(cs, centre, width, keepRight, index)
  {
    r := result;
    var k := 0;
    while k < |cs|
      invariant 0 <= k <= |cs|
      invariant r == result + ArcHits(cs[..k], centre, width, keepRight, index)
    {
      var i := cs[k];
      if centre.y - width / 2.0 <= i.point.y <= centre.y + width / 2.0 {
        if keepRight {
          if i.point.x >= centre.x {
            r := r + [Tag(i, index)];
          }
        } else {
          if i.point.x <= centre.x {
            r := r + [Tag(i, index)];
          }
        }
      }
      assert cs[..k + 1][..k] == cs[..k];
      k := k + 1;
    }
    assert cs[..k] == cs;
  }

  /** A trapezoid (main.py:107-132): `coords` are its corners clockwise from
      the top-left `base`; the top and bottom edges are horizontal. */
  class Polygon {
    const absRefrIndx: real
    const angleL: real
    const angleR: real
    const width: real
    const lengthT: real
    const lengthB: real
    const coords: seq<Vector2>

    predicate Valid() {
      |coords| == 4
    }

    /** Python raises ZeroDivisionError where a tangent it divides by is zero;
        the requires clauses exclude exactly those inputs. */
    constructor (m: Math, base: Vector2, length: real, width: real, angleL: real, angleR: real, absRefrIndx: real)
      requires angleL + angleR != m.pi && angleL + angleR < m.pi ==> m.tan(angleL) != 0.0 && m.tan(angleR) != 0.0
      requires angleR != m.pi / 2.0 ==> m.tan(angleR) != 0.0
      ensures Valid()
      ensures this.absRefrIndx == absRefrIndx && this.angleL == angleL && this.angleR == angleR
      ensures this.width == width
      ensures angleL + angleR == m.pi ==> lengthT == length && lengthB == length
      ensures angleL + angleR < m.pi ==>
                lengthT == length && lengthB == length + width / m.tan(angleL) + width / m.tan(angleR)
      ensures angleL + angleR > m.pi ==>
                lengthB == length
                && lengthT == length + width * m.tan(angleL - m.pi / 2.0) + width * m.tan(angleR - m.pi / 2.0)
      ensures coords[0] == base
      ensures coords[1] == Vector2(base.x + lengthT, base.y)
      ensures coords[2].y == base.y - width
      ensures angleR == m.pi / 2.0 ==> coords[2].x == coords[1].x
      ensures angleR != m.pi / 2.0 ==> coords[2].x == width / m.tan(angleR) + coords[1].x
      ensures coords[3] == Vector2(coords[2].x - lengthB, coords[2].y)
    {
      this.absRefrIndx := absRefrIndx;
      this.angleL := angleL;
      this.angleR := angleR;
      this.width := width;
      var lt, lb;
      if angleR + angleL == m.pi {
        lt, lb := length, length;
      } else if angleL + angleR < m.pi {
        lt := length;
        lb := length + width / m.tan(angleL) + width / m.tan(angleR);
      } else {
        lt := length + width * m.tan(angleL - m.pi / 2.0) + width * m.tan(angleR - m.pi / 2.0);
        lb := length;
      }
      lengthT, lengthB := lt, lb;
      var cs: seq<Vector2> := [];
      cs := cs + [base];
      cs := cs + [Vector2(base.x + lt, base.y)];
      if angleR == m.pi / 2.0 {
        cs := cs + [Vector2(cs[1].x, cs[1].y - width)];
      } else {
        cs := cs + [Vector2(width / m.tan(angleR) + cs[1].x, -width + cs[1].y)];
      }
      cs := cs + [Vector2(cs[2].x - lb, cs[2].y)];
      coords := cs;
    }

    /** Top edge, coords[0] to coords[1]: x strictly between its ends. */
    function TopHits(m: Math, probe: LineEq): (r: seq<Hit>)
      requires Valid()
      ensures |r| <= 1
      ensures forall h | h in r ::
                coords[0].x < h.point.x < coords[1].x
                && probe.Contains(h.point) && h.surface.Contains(coords[0]) && h.surface.Contains(coords[1])
                && h.surface.Contains(h.point) && h.index == absRefrIndx
    {
      EdgeHits(m, probe, LineThrough(coords[0], coords[1]), OpenX(coords[0].x, coords[1].x), absRefrIndx)
    }

    /** The right edge's extent: by y when it is upright, otherwise by x in
        the direction the edge leans. */
    function RightSpan(m: Math): (r: Span)
      requires Valid()
      // a y-range exactly for an upright edge, otherwise an x-range; its bounds are the edge's ends
      ensures r.ClosedY? <==> angleR == m.pi / 2.0
      ensures r.ClosedY? ==> r.lo == coords[2].y && r.hi == coords[1].y
      ensures !r.ClosedY? ==> r.ClosedX? && {r.lo, r.hi} == {coords[1].x, coords[2].x}
    {
      if angleR == m.pi / 2.0 then ClosedY(coords[2].y, coords[1].y)
      else if angleR > m.pi / 2.0 then ClosedX(coords[2].x, coords[1].x)
      else ClosedX(coords[1].x, coords[2].x)
    }

    /** Right edge, coords[1] to coords[2], bounds inclusive. */
    function RightHits(m: Math, probe: LineEq): (r: seq<Hit>)
      requires Valid()
      ensures |r| <= 1
      ensures forall h | h in r ::
                (if angleR == m.pi / 2.0 then coords[2].y <= h.point.y <= coords[1].y
                 else if angleR > m.pi / 2.0 then coords[2].x <= h.point.x <= coords[1].x
                 else coords[1].x <= h.point.x <= coords[2].x)
                && probe.Contains(h.point) && h.surface.Contains(coords[1]) && h.surface.Contains(coords[2])
                && h.surface.Contains(h.point) && h.index == absRefrIndx
    {
      EdgeHits(m, probe, LineThrough(coords[1], coords[2]), RightSpan(m), absRefrIndx)
    }

    /** Bottom edge, coords[3] to coords[2]: x strictly between its ends. */
    function BottomHits(m: Math, probe: LineEq): (r: seq<Hit>)
      requires Valid()
      ensures |r| <= 1
      ensures forall h | h in r ::
                coords[3].x < h.point.x < coords[2].x
                && probe.Contains(h.point) && h.surface.Contains(coords[3]) && h.surface.Contains(coords[2])
                && h.surface.Contains(h.point) && h.index == absRefrIndx
    {
      EdgeHits(m, probe, LineThrough(coords[3], coords[2]), OpenX(coords[3].x, coords[2].x), absRefrIndx)
    }

    function LeftSpan(m: Math): (r: Span)
      requires Valid()
      // a y-range exactly for an upright edge, otherwise an x-range; its bounds are the edge's ends
      ensures r.ClosedY? <==> angleL == m.pi / 2.0
      ensures r.ClosedY? ==> r.lo == coords[3].y && r.hi == coords[0].y
      ensures !r.ClosedY? ==> r.ClosedX? && {r.lo, r.hi} == {coords[0].x, coords[3].x}
    {
      if angleL == m.pi / 2.0 then ClosedY(coords[3].y, coords[0].y)
      else if angleL > m.pi / 2.0 then ClosedX(coords[0].x, coords[3].x)
      else ClosedX(coords[3].x, coords[0].x)
    }

    /** Left edge, coords[3] to coords[0], bounds inclusive. */
    function LeftHits(m: Math, probe: LineEq): (r: seq<Hit>)
      requires Valid()
      ensures |r| <= 1
      ensures forall h | h in r ::
                (if angleL == m.pi / 2.0 then coords[3].y <= h.point.y <= coords[0].y
                 else if angleL > m.pi / 2.0 then coords[0].x <= h.point.x <= coords[3].x
                 else coords[3].x <= h.point.x <= coords[0].x)
                && probe.Contains(h.point) && h.surface.Contains(coords[3]) && h.surface.Contains(coords[0])
                && h.surface.Contains(h.point) && h.index == absRefrIndx
    {
      EdgeHits(m, probe, LineThrough(coords[3], coords[0]), LeftSpan(m), absRefrIndx)
    }

    /** Everything Polygon.intersections reports, edge by edge. */
    function Hits(m: Math, probe: LineEq): (r: seq<Hit>)
      requires Valid()
      ensures |r| <= 4
      ensures forall h | h in r :: probe.Contains(h.point) && h.surface.Contains(h.point) && h.index == absRefrIndx
    {
      TopHits(m, probe) + RightHits(m, probe) + BottomHits(m, probe) + LeftHits(m, probe)
    }

    /** Polygon.intersections(a, b, c), appending edge by edge. */
    method Intersections(m: Math, a: real, b: real, c: real) returns (result: seq<Hit>)
      requires Valid()
      ensures result == Hits(m, LineEq(a, b, c))
    {
      var probe := LineEq(a, b, c);
      result := [];
      // top, right, bottom, left
      result := AppendEdgeHit(m, probe, LineThrough(coords[0], coords[1]), OpenX(coords[0].x, coords[1].x),
                              absRefrIndx, result);
      result := AppendEdgeHit(m, probe, LineThrough(coords[1], coords[2]), RightSpan(m), absRefrIndx, result);
      result := AppendEdgeHit(m, probe, LineThrough(coords[3], coords[2]), OpenX(coords[3].x, coords[2].x),
                              absRefrIndx, result);
      result := AppendEdgeHit(m, probe, LineThrough(coords[3], coords[0]), LeftSpan(m), absRefrIndx, result);
    }
  }

  /** A lens (main.py:220-243): flat top and bottom between baseL and baseR,
      and a circular arc on each side, convex when its radius is not negative. */
  class Lens {
    const absRefrIndx: real
    const length: real
    const width: real
    const convexL: bool
    const convexR: bool
    const baseL: Vector2
    const baseR: Vector2
    const radL: real
    const radR: real
    const alphaL: real
    const alphaR: real
    const centreL: Vector2
    const centreR: Vector2

    /** Python raises ZeroDivisionError for a zero radius (width / (2 * 0)). */
    constructor (m: Math, base: Vector2, length: real, width: real, radL: real, radR: real, absRefrIndx: real)
      requires radL != 0.0 && radR != 0.0
      ensures this.absRefrIndx == absRefrIndx && this.length == length && this.width == width
      ensures convexL == (radL >= 0.0) && convexR == (radR >= 0.0)
      ensures baseL == base && baseR == Vector2(base.x + length, base.y)
      ensures this.radL > 0.0 && (this.radL == radL || this.radL == -radL)
      ensures this.radR > 0.0 && (this.radR == radR || this.radR == -radR)
      ensures alphaL == m.asin(width / (2.0 * this.radL)) && alphaR == m.asin(width / (2.0 * this.radR))
      ensures centreL.y == base.y - width / 2.0 && centreR.y == base.y - width / 2.0
      ensures centreL.x == (if convexL then base.x + this.radL * m.cos(alphaL) else base.x - this.radL * m.cos(alphaL))
      ensures centreR.x == (if convexR then baseR.x - this.radR * m.cos(alphaR) else baseR.x + this.radR * m.cos(alphaR))
    {
      this.absRefrIndx := absRefrIndx;
      this.length := length;
      this.width := width;
      var cl, cr := radL >= 0.0, radR >= 0.0;
      convexL, convexR := cl, cr;
      var bl, br := base, Vector2(base.x + length, base.y);
      baseL, baseR := bl, br;
      var rl := if radL < 0.0 then -radL else radL;
      var rr := if radR < 0.0 then -radR else radR;
      this.radL, this.radR := rl, rr;
      var al := m.asin(width / (2.0 * rl));
      var ar := m.asin(width / (2.0 * rr));
      alphaL, alphaR := al, ar;
      if cl {
        centreL := Vector2(bl.x + rl * m.cos(al), bl.y - width / 2.0);
      } else {
        centreL := Vector2(bl.x - rl * m.cos(al), bl.y - width / 2.0);
      }
      if cr {
        centreR := Vector2(br.x - rr * m.cos(ar), br.y - width / 2.0);
      } else {
        centreR := Vector2(br.x + rr * m.cos(ar), br.y - width / 2.0);
      }
    }

    /** Top face y == baseL.y: x between the bases, bounds inclusive. */
    function TopHits(m: Math, probe: LineEq): (r: seq<Hit>)
      ensures |r| <= 1
      ensures forall h | h in r ::
                baseL.x <= h.point.x <= baseR.x && h.point.y == baseL.y
                && probe.Contains(h.point) && h.index == absRefrIndx
    {
      EdgeHits(m, probe, LineEq(0.0, 1.0, -baseL.y), ClosedX(baseL.x, baseR.x), absRefrIndx)
    }

    /** Bottom face y == baseL.y - width: x between the bases, bounds inclusive. */
    function BottomHits(m: Math, probe: LineEq): (r: seq<Hit>)
      ensures |r| <= 1
      ensures forall h | h in r ::
                baseL.x <= h.point.x <= baseR.x && h.point.y == baseL.y - width
                && probe.Contains(h.point) && h.index == absRefrIndx
    {
      EdgeHits(m, probe, LineEq(0.0, 1.0, -(baseL.y - width)), ClosedX(baseL.x, baseR.x), absRefrIndx)
    }

    /** The crossings of the probe with the full circle of one side. */
    function CircleCrossings(m: Math, probe: LineEq, centre: Vector2, radius: real): (r: seq<Crossing>)
      ensures |r| <= 2
      ensures forall cr | cr in r :: probe.Contains(cr.point)
    {
      TangentCrossings(m, probe, centre, radius, CirclePoints(m, probe, centre, radius))
    }

    /** Right arc: the circle crossings inside the band, on the outer side
        (right of the centre when convex, left when concave). */
    function RightHits(m: Math, probe: LineEq): (r: seq<Hit>)
      ensures |r| <= 2
      ensures forall h | h in r ::
                InArc(h.point, centreR, width, convexR) && probe.Contains(h.point) && h.index == absRefrIndx
    {
      ArcHits(CircleCrossings(m, probe, centreR, radR), centreR, width, convexR, absRefrIndx)
    }

    /** Left arc: left of the centre when convex, right when concave. */
    function LeftHits(m: Math, probe: LineEq): (r: seq<Hit>)
      ensures |r| <= 2
      ensures forall h | h in r ::
                InArc(h.point, centreL, width, !convexL) && probe.Contains(h.point) && h.index == absRefrIndx
    {
      ArcHits(CircleCrossings(m, probe, centreL, radL), centreL, width, !convexL, absRefrIndx)
    }

    /** Everything Lens.intersections reports: top, right arc, bottom, left arc. */
    function Hits(m: Math, probe: LineEq): (r: seq<Hit>)
      ensures |r| <= 6
      ensures forall h | h in r :: probe.Contains(h.point) && h.index == absRefrIndx
    {
      TopHits(m, probe) + RightHits(m, probe) + BottomHits(m, probe) + LeftHits(m, probe)
    }

    /** Lens.intersections(a, b, c), appending face by face and arc point by arc point. */
    method Intersections(m: Math, a: real, b: real, c: real) returns (result: seq<Hit>)
      ensures result == Hits(m, LineEq(a, b, c))
    {
      var probe := LineEq(a, b, c);
      result := [];
      // top
      result := AppendEdgeHit(m, probe, LineEq(0.0, 1.0, -baseL.y), ClosedX(baseL.x, baseR.x), absRefrIndx, result);
      ghost var top := result;
      assert top == TopHits(m, probe);
      // right
      var arc := CalcIntersectionCircle(m, probe, centreR.x, centreR.y, radR);
      assert Vector2(centreR.x, centreR.y) == centreR;
      result := AppendArcHits(arc, centreR, width, convexR, absRefrIndx, result);
      ghost var right := result;
      assert right == top + RightHits(m, probe);
      // bottom
      result := AppendEdgeHit(m, probe, LineEq(0.0, 1.0, -(baseL.y - width)), ClosedX(baseL.x, baseR.x),
                              absRefrIndx, result);
      ghost var bottom := result;
      assert bottom == right + BottomHits(m, probe);
      // left
      arc := CalcIntersectionCircle(m, probe, centreL.x, centreL.y, radL);
      assert Vector2(centreL.x, centreL.y) == centreL;
      result := AppendArcHits(arc, centreL, width, !convexL, absRefrIndx, result);
      assert result == bottom + LeftHits(m, probe);
    }
  }

  /** An entry of Plane.obj_list. */
  datatype Element = PolygonElement(polygon: Polygon) | LensElement(lens: Lens) {

    predicate Valid() {
      PolygonElement? ==> polygon.Valid()
    }

    function Index(): real {
      match this
      case PolygonElement(p) => p.absRefrIndx
      case LensElement(l) => l.absRefrIndx
    }

    function Hits(m: Math, probe: LineEq): (r: seq<Hit>)
      requires Valid()
      ensures forall h | h in r :: probe.Contains(h.point) && h.index == Index()
    {
      match this
      case PolygonElement(p) => p.Hits(m, probe)
      case LensElement(l) => l.Hits(m, probe)
    }

    /** obj.intersections(a, b, c), dispatched on the element's class. */
    method Intersections(m: Math, a: real, b: real, c: real) returns (result: seq<Hit>)
      requires Valid()
      ensures result == Hits(m, LineEq(a, b, c))
    {
      match this
      case PolygonElement(p) =>
        result := p.Intersections(m, a, b, c);
      case LensElement(l) =>
        result := l.Intersections(m, a, b, c);
    }
  }
}
