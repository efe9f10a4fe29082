/** The draggable ray source: a line through two points whose propagation
    sense runs from the first point towards the second. */
module RaySource {
  import opened Geometry
  import opened Scene

  /** The sense calc_line derives: towards growing x along a non-vertical
      line, towards growing y along a vertical one, in each case as seen
      from v1 towards v2. */
  predicate PosDir(v1: Vector2, v2: Vector2) {
    if LineThrough(v1, v2).b != 0.0 then v2.x > v1.x else v2.y > v1.y
  }

  class Line {
    var v1: Vector2
    var v2: Vector2
    var a: real
    var b: real
    var c: real
    var posDir: bool

    /** The test line: two points 40 units apart on screen row 100. */
    constructor (plane: Plane)
      ensures v1 == Vector2(10.0, plane.Pry(100.0)) && v2 == Vector2(50.0, plane.Pry(100.0))
      ensures LineEq(a, b, c) == LineThrough(v1, v2) && posDir == PosDir(v1, v2)
      ensures b == -40.0 && a == 0.0 && posDir
    {
      v1 := Vector2(10.0, plane.Pry(100.0));
      v2 := Vector2(50.0, plane.Pry(100.0));
      // The coefficients start unset; calc_line fills them in.
      a, b, c := 0.0, 0.0, 0.0;
      posDir := true;
      new;
      CalcLine();
    }

    /** Line.calc_line: recompute the coefficients and the sense from the
        current endpoints. */
    method CalcLine()
      modifies this
      ensures v1 == old(v1) && v2 == old(v2)
      ensures LineEq(a, b, c) == LineThrough(v1, v2)
      ensures posDir == PosDir(v1, v2)
    {
      a := v2.y - v1.y;
      b := v1.x - v2.x;
      c := v2.x * v1.y - v1.x * v2.y;
      if b != 0.0 {
        if v2.x > v1.x {
          posDir := true;
        } else {
          posDir := false;
        }
      } else {
        if v2.y > v1.y {
          posDir := true;
        } else {
          posDir := false;
        }
      }
    }
  }

  /** s * d keeps the sign of s when d is positive. */
  lemma ScaledSign(s: real, d: real)
    requires d > 0.0
    ensures s * d >= 0.0 <==> s >= 0.0
  {
    if s >= 0.0 {
      assert s * d >= 0.0 * d;
    } else {
      assert s * d < 0.0 * d;
    }
  }

  /** A ray cast from v2 in the sense calc_line derives goes away from v1:
      of the points v1 + t*(v2 - v1) on the line, cast_ray's exit test keeps
      exactly those with t >= 1. */
  lemma PosDirPointsAwayFromV1(v1: Vector2, v2: Vector2, t: real)
    requires v1 != v2
    ensures NotBehind(v2, Lerp(v1, v2, t), LineThrough(v1, v2).b == 0.0, PosDir(v1, v2)) <==> t >= 1.0
  {
    var p := Lerp(v1, v2, t);
    if v1.x != v2.x {
      var d := v2.x - v1.x;
      assert p.x - v2.x == (t - 1.0) * d;
      if d > 0.0 {
        ScaledSign(t - 1.0, d);
      } else {
        ScaledSign(t - 1.0, -d);
        assert (t - 1.0) * -d == -((t - 1.0) * d);
      }
    } else {
      var d := v2.y - v1.y;
      assert d != 0.0;
      assert p.y - v2.y == (t - 1.0) * d;
      if d > 0.0 {
        ScaledSign(t - 1.0, d);
      } else {
        ScaledSign(t - 1.0, -d);
        assert (t - 1.0) * -d == -((t - 1.0) * d);
      }
    }
  }
}
