/** Plane geometry shared by the ray tracer: points, implicit lines, and the
    transcendental functions the tracer calls but whose values are not modelled. */
module Geometry {

  datatype Option<T> = None | Some(value: T)

  /** The outcome of a computation that Python aborts with ZeroDivisionError. */
  datatype Result<T> = Ok(value: T) | ZeroDivision

  /** A point (or vector) in scene coordinates: x to the right, y upwards. */
  datatype Vector2 = Vector2(x: real, y: real)

  /** The implicit line a*x + b*y + c == 0, kept as the triple (a, b, c). */
  datatype LineEq = LineEq(a: real, b: real, c: real) {

    /** The left-hand side of the equation at `p`. */
    function Eval(p: Vector2): real {
      a * p.x + b * p.y + c
    }

    predicate Contains(p: Vector2) {
      Eval(p) == 0.0
    }

    predicate IsVertical() {
      b == 0.0
    }

    /** No point set: both coefficients of the variables vanish. */
    predicate Degenerate() {
      a == 0.0 && b == 0.0
    }
  }

  /** The floating-point library the tracer calls. Only the names are modelled:
      every function is an arbitrary total function and `pi` an arbitrary real,
      so nothing proved here depends on their values. */
  datatype Math = Math(pi: real,
                       sin: real -> real, cos: real -> real, tan: real -> real,
                       asin: real -> real, atan: real -> real,
                       sqrt: real -> real)

  /** Vector2.dist: the Euclidean distance; the power 0.5 is the uninterpreted root. */
  function Dist(m: Math, p: Vector2, q: Vector2): (r: real)
    ensures r == m.sqrt(SquaredDist(p, q))
    ensures p == q ==> r == m.sqrt(0.0)
  {
    m.sqrt(SquaredDist(p, q))
  }

  /** The argument of the square root in Vector2.dist: never negative, and zero
      for coincident points. */
  function SquaredDist(p: Vector2, q: Vector2): (r: real)
    ensures r >= 0.0
    ensures p == q ==> r == 0.0
  {
    (q.x - p.x) * (q.x - p.x) + (q.y - p.y) * (q.y - p.y)
  }

  /** The distance does not depend on which point it is measured from. */
  lemma DistSymmetric(m: Math, p: Vector2, q: Vector2)
    ensures Dist(m, p, q) == Dist(m, q, p)
  {
    assert (q.x - p.x) * (q.x - p.x) == (p.x - q.x) * (p.x - q.x);
    assert (q.y - p.y) * (q.y - p.y) == (p.y - q.y) * (p.y - q.y);
  }

  /** The coefficients Line.calc_line (and each polygon edge) derives from two points. */
  function LineThrough(v1: Vector2, v2: Vector2): (l: LineEq)
    ensures l.Contains(v1) && l.Contains(v2)
    ensures l.Degenerate() <==> v1 == v2
    ensures l.IsVertical() <==> v1.x == v2.x
  {
    LineEq(v2.y - v1.y, v1.x - v2.x, v2.x * v1.y - v1.x * v2.y)
  }

  /** The point v1 + t*(v2 - v1). */
  function Lerp(v1: Vector2, v2: Vector2, t: real): Vector2 {
    Vector2(v1.x + t * (v2.x - v1.x), v1.y + t * (v2.y - v1.y))
  }

  /** Every point of the straight line through v1 and v2 satisfies the equation. */
  lemma LineThroughContainsSpan(v1: Vector2, v2: Vector2, t: real)
    ensures LineThrough(v1, v2).Contains(Lerp(v1, v2, t))
  {
    var l := LineThrough(v1, v2);
    var p := Lerp(v1, v2, t);
    var dx, dy := v2.x - v1.x, v2.y - v1.y;
    calc {
      l.Eval(p);
      dy * (v1.x + t * dx) - dx * (v1.y + t * dy) + (v2.x * v1.y - v1.x * v2.y);
      (dy * v1.x - dx * v1.y + (v2.x * v1.y - v1.x * v2.y)) + (dy * (t * dx) - dx * (t * dy));
      { assert dy * v1.x - dx * v1.y == v2.y * v1.x - v2.x * v1.y;
        assert dy * (t * dx) == dx * (t * dy); }
      0.0;
    }
  }

  /** Conversely, for distinct points the equation holds only on that line. */
  lemma LineThroughOnlySpan(v1: Vector2, v2: Vector2, p: Vector2)
    requires v1 != v2
    requires LineThrough(v1, v2).Contains(p)
    ensures exists t :: p == Lerp(v1, v2, t)
  {
    var dx, dy := v2.x - v1.x, v2.y - v1.y;
    var ux, uy := p.x - v1.x, p.y - v1.y;
    // The equation says the cross product of (ux, uy) and (dx, dy) is zero.
    assert dy * ux == dx * uy by {
      assert LineThrough(v1, v2).Eval(p) == dy * ux - dx * uy;
    }
    if dx != 0.0 {
      var t := ux / dx;
      assert t * dx == ux;
      assert t * dy == uy by {
        calc {
          t * dy * dx;
          ux * dy;
          dx * uy;
        }
      }
      assert p == Lerp(v1, v2, t);
    } else {
      assert dy != 0.0;
      var t := uy / dy;
      assert t * dy == uy;
      assert ux == 0.0 by {
        assert dy * ux == 0.0;
      }
      assert p == Lerp(v1, v2, t);
    }
  }
}
