/** The scene: the window-sized plane holding the optical elements, and the
    recursive ray caster that walks a ray through them. */
module Scene {
  import opened Geometry
  import opened LineAlgebra
  import opened Elements

  /** The margin by which a collision must lie ahead of the ray's origin. */
  const Eps: real := 0.001

  function Abs(x: real): real {
    if x < 0.0 then -x else x
  }

  /** The colour a traced segment is drawn in: red up to a collision, blue
      from the last collision to the window's border. */
  datatype Colour = Red | Blue

  /** How the ray continues after a collision: the refracted line, the
      sense to follow it in, and the refractive index of the medium ahead. */
  datatype Bend = Bend(line: LineEq, positiveDir: bool, index: real)

  /** One straight piece of the drawn ray, in scene coordinates. */
  datatype Segment = Segment(from: Vector2, to: Vector2, colour: Colour)

  /** Consecutive segments meet: each one ends where the one drawn
      before it starts. */
  predicate Chained(segs: seq<Segment>) {
    forall i, j | 0 <= i < |segs| && 0 <= j < |segs| && j == i + 1 :: segs[i].from == segs[j].to
  }

  /** The segments drawn by one cast_ray call form a path leaving `origin`:
      the last-drawn segment starts there, each segment ends where the one
      drawn before it starts, and only the first-drawn one may be blue. */
  predicate PathFrom(segs: seq<Segment>, origin: Vector2) {
    (segs != [] ==> segs[|segs| - 1].from == origin)
    && Chained(segs)
    && forall i | 1 <= i < |segs| :: segs[i].colour == Red
  }

  /** A red segment from `origin` to the start of a path extends the path. */
  lemma PathSnoc(segs: seq<Segment>, p: Vector2, origin: Vector2)
    requires PathFrom(segs, p)
    ensures PathFrom(segs + [Segment(origin, p, Red)], origin)
  {
    var t := segs + [Segment(origin, p, Red)];
    forall i, j | 0 <= i < |t| && 0 <= j < |t| && j == i + 1
      ensures t[i].from == t[j].to
    {
      if j < |segs| {
        assert t[i] == segs[i] && t[j] == segs[j];
      }
    }
    forall i | 1 <= i < |t|
      ensures t[i].colour == Red
    {
      if i < |segs| {
        assert t[i] == segs[i];
      }
    }
  }

  /** How far `p` lies beyond `origin` along the ray's axis (y for a vertical
      ray, x otherwise), counted in the ray's sense. */
  function Progress(origin: Vector2, p: Vector2, vertical: bool, positiveDir: bool): real {
    var d := if vertical then p.y - origin.y else p.x - origin.x;
    if positiveDir then d else -d
  }

  /** The collision loop's forward test: `p` lies beyond `origin` by at least
      Eps along x (along y for a vertical ray), in the ray's sense. */
  predicate Ahead(origin: Vector2, p: Vector2, vertical: bool, positiveDir: bool)
    ensures Ahead(origin, p, vertical, positiveDir) <==> Progress(origin, p, vertical, positiveDir) >= Eps
  {
    if positiveDir then
      (if vertical then p.y >= origin.y + Eps else p.x >= origin.x + Eps)
    else
      (if vertical then p.y <= origin.y - Eps else p.x <= origin.x - Eps)
  }

  /** The exit loop's forward test: the same comparison without the margin. */
  predicate NotBehind(origin: Vector2, p: Vector2, vertical: bool, positiveDir: bool)
    ensures NotBehind(origin, p, vertical, positiveDir) <==> Progress(origin, p, vertical, positiveDir) >= 0.0
  {
    if positiveDir then
      (if vertical then p.y >= origin.y else p.x >= origin.x)
    else
      (if vertical then p.y <= origin.y else p.x <= origin.x)
  }

  /** A point ahead of the origin is never behind it, and is never the origin. */
  lemma AheadIsNotBehind(origin: Vector2, p: Vector2, vertical: bool, positiveDir: bool)
    requires Ahead(origin, p, vertical, positiveDir)
    ensures NotBehind(origin, p, vertical, positiveDir) && p != origin
  {
  }

  /** Every element's hits with the probe, in list order and, within an
      element, in the order its `intersections` reports them. */
  function Candidates(m: Math, objs: seq<Element>, probe: LineEq): (r: seq<Hit>)
    requires forall e | e in objs :: e.Valid()
    ensures forall h | h in r :: probe.Contains(h.point) && exists e | e in objs :: h.index == e.Index()
  {
    if objs == [] then []
    else Candidates(m, objs[..|objs| - 1], probe) + objs[|objs| - 1].Hits(m, probe)
  }

  /** The position of the collision the loop keeps: among the candidates
      ahead of the origin, one at the least distance, the earliest such one
      when several tie (the update only fires on a strictly smaller distance). */
  function PickIndex(m: Math, origin: Vector2, vertical: bool, positiveDir: bool, cs: seq<Hit>): (r: Option<nat>)
    ensures r.Some? ==> r.value < |cs| && Ahead(origin, cs[r.value].point, vertical, positiveDir)
    ensures r.None? <==> forall j | 0 <= j < |cs| :: !Ahead(origin, cs[j].point, vertical, positiveDir)
    ensures r.Some? ==> forall j | 0 <= j < |cs| && Ahead(origin, cs[j].point, vertical, positiveDir) ::
                          Dist(m, origin, cs[r.value].point) <= Dist(m, origin, cs[j].point)
    ensures r.Some? ==> forall j | 0 <= j < r.value && Ahead(origin, cs[j].point, vertical, positiveDir) ::
                          Dist(m, origin, cs[r.value].point) < Dist(m, origin, cs[j].point)
  {
    if cs == [] then None
    else
      var last := |cs| - 1;
      var prev := PickIndex(m, origin, vertical, positiveDir, cs[..last]);
      assert forall j | 0 <= j < last :: cs[..last][j] == cs[j];
      if !Ahead(origin, cs[last].point, vertical, positiveDir) then prev
      else if prev.None? || Dist(m, origin, cs[last].point) < Dist(m, origin, cs[prev.value].point) then Some(last)
      else prev
  }

  /** The chosen collision itself, or None when nothing lies ahead. */
  function Collision(m: Math, origin: Vector2, vertical: bool, positiveDir: bool, cs: seq<Hit>): Option<Hit> {
    match PickIndex(m, origin, vertical, positiveDir, cs)
    case None => None
    case Some(k) => Some(cs[k])
  }

  /** The position of the border crossing the exit loop keeps: the last one
      not behind the origin. */
  function ExitIndex(origin: Vector2, vertical: bool, positiveDir: bool, cs: seq<Crossing>): (r: Option<nat>)
    ensures r.Some? ==> r.value < |cs| && NotBehind(origin, cs[r.value].point, vertical, positiveDir)
    ensures r.Some? ==> forall j | r.value < j < |cs| :: !NotBehind(origin, cs[j].point, vertical, positiveDir)
    ensures r.None? <==> forall j | 0 <= j < |cs| :: !NotBehind(origin, cs[j].point, vertical, positiveDir)
  {
    if cs == [] then None
    else if NotBehind(origin, cs[|cs| - 1].point, vertical, positiveDir) then Some(|cs| - 1)
    else
      var prev := ExitIndex(origin, vertical, positiveDir, cs[..|cs| - 1]);
      assert forall j | 0 <= j < |cs| - 1 :: cs[..|cs| - 1][j] == cs[j];
      prev
  }

  /** The point the exit loop leaves in `point`. */
  function ExitPoint(origin: Vector2, vertical: bool, positiveDir: bool, cs: seq<Crossing>): Option<Vector2> {
    match ExitIndex(origin, vertical, positiveDir, cs)
    case None => None
    case Some(k) => Some(cs[k].point)
  }

  /** The reflected line of a collision and its sense (the line only feeds
      debug drawing, but computing it can still raise). */
  function Reflection(m: Math, origin: Vector2, hit: Hit, probe: LineEq): (r: Result<bool>)
    ensures r.Ok? ==> CalcCrossingLineAsWritten(m, hit.point, probe, hit.angle * 2.0).Ok?
    // it raises when the reflected line does, or when that line is 0 == 0
    ensures var cl := CalcCrossingLineAsWritten(m, hit.point, probe, hit.angle * 2.0);
            r.ZeroDivision? <==> cl.ZeroDivision? || cl.value.Degenerate()
    // the sense is calc_direction's for the reflected line, with get_through false
    ensures r.Ok? ==>
              r == CalcDirection(origin, hit.point, CalcCrossingLineAsWritten(m, hit.point, probe, hit.angle * 2.0).value,
                                 hit.surface, false)
  {
    match CalcCrossingLineAsWritten(m, hit.point, probe, hit.angle * 2.0)
    case ZeroDivision => ZeroDivision
    case Ok(reflection) => CalcDirection(origin, hit.point, reflection, hit.surface, false)
  }

  /** When the reflection step raises, in terms of the collision: an
      unturned probe (twice the angle is 0 or pi) raises only if it is
      degenerate, and a turned one only in the slanted quarter turn, by the
      denominator or through the origin. Kept apart from Reflection's own
      contract so that the tracer's proofs do not carry its arithmetic. */
  lemma ReflectionRaises(m: Math, origin: Vector2, hit: Hit, probe: LineEq)
    ensures hit.angle * 2.0 == 0.0 || hit.angle * 2.0 == m.pi ==>
              (Reflection(m, origin, hit, probe).ZeroDivision? <==> probe.Degenerate())
    ensures hit.angle * 2.0 != 0.0 && hit.angle * 2.0 != m.pi ==>
              (Reflection(m, origin, hit, probe).ZeroDivision? <==>
                 hit.angle * 2.0 == m.pi / 2.0 && probe.a != 0.0 && probe.b != 0.0
                 && (-probe.b / probe.a * hit.point.x + hit.point.y == 0.0 || probe.c == 0.0))
  {
  }

  /** A collision at a quarter of pi on a slanted probe through the scene
      origin reflects into the degenerate 0 == 0, and calc_direction then
      divides by zero: the reflection step raises whenever it does not
      raise earlier. */
  lemma ReflectionThroughOriginRaises(m: Math, origin: Vector2, hit: Hit, probe: LineEq)
    requires hit.angle * 2.0 == m.pi / 2.0 && hit.angle * 2.0 != 0.0 && hit.angle * 2.0 != m.pi
    requires probe.a != 0.0 && probe.b != 0.0 && probe.c == 0.0
    ensures Reflection(m, origin, hit, probe).ZeroDivision?
  {
    var refl := CalcCrossingLineAsWritten(m, hit.point, probe, hit.angle * 2.0);
    if refl.Ok? {
      assert refl.value.Degenerate();
    }
  }

  /** The angle handed to calc_crossing_line for the refracted ray: Snell's
      law through the library's sin and asin, which divides by the angle's
      magnitude and by the new index. */
  function RefractionAngle(m: Math, angle: real, n1: real, n2: real): (r: Result<real>)
    ensures r.ZeroDivision? <==> angle == 0.0 || n2 == 0.0
  {
    if angle == 0.0 then ZeroDivision
    else
      var alpha := angle / Abs(angle) * (m.pi / 2.0 - Abs(angle));
      if n2 == 0.0 then ZeroDivision
      else
        var beta := m.asin((m.sin(alpha) * n1) / n2);
        Ok(-alpha + beta)
  }

  class Plane {
    const resX: int
    const resY: int
    /** The screen row of the scene's y = 0 axis. */
    const mainAxisY: int
    const maxRecursionDepth: nat := 5
    /** The refractive index outside every element. */
    const absRefrIndx: real := 1.0
    const objList: seq<Element>

    predicate Valid() {
      forall e | e in objList :: e.Valid()
    }

    /** The plane with its two fixed elements: a prism with 60-degree base
        angles and a biconvex lens, both of index 1.65. The trigonometric
        precondition is what the prism's constructor divides by. */
    constructor (m: Math, resX: int, resY: int)
      requires m.tan(m.pi / 3.0) != 0.0
      ensures this.resX == resX && this.resY == resY
      ensures mainAxisY == resY / 2 && (resY / 2) * 2 <= resY < (resY / 2) * 2 + 2
      ensures |objList| == 2 && objList[0].PolygonElement? && objList[1].LensElement?
      ensures objList[0].Index() == 1.65 && objList[1].Index() == 1.65
      // the prism: base (200, 50), top length 100, width 100, both base angles pi/3
      ensures var p := objList[0].polygon;
              p.Valid() && p.coords[0] == Vector2(200.0, 50.0) && p.width == 100.0 && p.angleL == m.pi / 3.0 && p.angleR == m.pi / 3.0
              && (m.pi / 3.0 + m.pi / 3.0 <= m.pi ==> p.lengthT == 100.0)
      // the lens: base (600, 70), length 50, width 140, both radii 70 and convex
      ensures var l := objList[1].lens;
              l.baseL == Vector2(600.0, 70.0) && l.length == 50.0 && l.width == 140.0
              && l.radL == 70.0 && l.radR == 70.0 && l.convexL && l.convexR
      ensures Valid()
    {
      this.resX := resX;
      this.resY := resY;
      // Python's floor division; Dafny's division agrees with it for a positive divisor.
      mainAxisY := resY / 2;
      var polygon := new Polygon(m, Vector2(200.0, 50.0), 100.0, 100.0, m.pi / 3.0, m.pi / 3.0, 1.65);
      var lens := new Lens(m, Vector2(600.0, 70.0), 50.0, 140.0, 70.0, 70.0, 1.65);
      objList := [PolygonElement(polygon), LensElement(lens)];
    }

    /** Converts between screen rows and scene y (the map is its own inverse). */
    function Pry(y: real): (r: real)
      ensures r + y == mainAxisY as real
    {
      mainAxisY as real - y
    }

    lemma PryInvolution(y: real)
      ensures Pry(Pry(y)) == y
    {
    }

    /** The window's four borders in scene coordinates, each with the range a
        crossing must fall in: open in x along the top and bottom, closed in
        y along the right and left. */
    function TopBorder(): LineEq { LineEq(0.0, 1.0, -Pry(0.0)) }
    function RightBorder(): LineEq { LineEq(1.0, 0.0, -(resX as real)) }
    function BottomBorder(): LineEq { LineEq(0.0, 1.0, -Pry(resY as real)) }
    function LeftBorder(): LineEq { LineEq(1.0, 0.0, 0.0) }
    function AcrossSpan(): Span { OpenX(0.0, resX as real) }
    function UpSpan(): Span { ClosedY(Pry(resY as real), Pry(0.0)) }

    /** The probe's crossings with the borders, top, right, bottom, left. */
    function BorderCrossings(m: Math, probe: LineEq): (r: seq<Crossing>)
      ensures |r| <= 4
      ensures forall cr | cr in r ::
                probe.Contains(cr.point)
                && ((TopBorder().Contains(cr.point) && InSpan(cr.point, AcrossSpan()))
                    || (RightBorder().Contains(cr.point) && InSpan(cr.point, UpSpan()))
                    || (BottomBorder().Contains(cr.point) && InSpan(cr.point, AcrossSpan()))
                    || (LeftBorder().Contains(cr.point) && InSpan(cr.point, UpSpan())))
    {
      Clip(m, probe, TopBorder(), AcrossSpan()) + Clip(m, probe, RightBorder(), UpSpan())
      + Clip(m, probe, BottomBorder(), AcrossSpan()) + Clip(m, probe, LeftBorder(), UpSpan())
    }

    /** Plane.intersections: the border crossings, appended border by border. */
    method Intersections(m: Math, a: real, b: real, c: real) returns (result: seq<Crossing>)
      ensures result == BorderCrossings(m, LineEq(a, b, c))
    {
      var probe := LineEq(a, b, c);
      result := [];
      result := AppendClip(m, probe, LineEq(0.0, 1.0, -Pry(0.0)), OpenX(0.0, resX as real), result);
      result := AppendClip(m, probe, LineEq(1.0, 0.0, -(resX as real)), ClosedY(Pry(resY as real), Pry(0.0)), result);
      result := AppendClip(m, probe, LineEq(0.0, 1.0, -Pry(resY as real)), OpenX(0.0, resX as real), result);
      result := AppendClip(m, probe, LineEq(1.0, 0.0, 0.0), ClosedY(Pry(resY as real), Pry(0.0)), result);
    }

    /** The collision loop of cast_ray: every element's hits are scanned in
        order and offered to Consider. `collision == None` plays the part of
        `min_dist == inf`. */
    method NearestCollision(m: Math, origin: Vector2, a: real, b: real, c: real, positiveDir: bool)
      returns (collision: Option<Hit>)
      requires Valid()
      ensures collision == Collision(m, origin, b == 0.0, positiveDir, Candidates(m, objList, LineEq(a, b, c)))
    {
      ghost var probe := LineEq(a, b, c);
      collision := None;
      var minDist := 0.0;
      ghost var seen: seq<Hit> := [];
      var i := 0;
      while i < |objList|
        invariant 0 <= i <= |objList|
        invariant seen == Candidates(m, objList[..i], probe)
        invariant collision == Collision(m, origin, b == 0.0, positiveDir, seen)
        invariant collision.Some? ==> minDist == Dist(m, origin, collision.value.point)
      {
        assert objList[..i + 1][..i] == objList[..i];
        var hits := objList[i].Intersections(m, a, b, c);
        collision, minDist := ConsiderAll(m, origin, b, positiveDir, hits, collision, minDist, seen);
        seen := seen + hits;
        i := i + 1;
      }
      assert objList[..i] == objList;
    }

    /** The exit branch of cast_ray (main.py:435-454): the last border
        crossing not behind the origin, joined to it by a blue segment. */
    method DrawExit(m: Math, origin: Vector2, a: real, b: real, c: real, positiveDir: bool)
      returns (segs: seq<Segment>)
      ensures segs == ExitSegments(m, origin, LineEq(a, b, c), positiveDir)
    {
      var crossings := Intersections(m, a, b, c);
      var point := LastNotBehind(origin, b, positiveDir, crossings);
      if point.Some? {
        segs := [Segment(origin, point.value, Blue)];
      } else {
        segs := [];
      }
    }

    /** The line, sense and refractive index the ray continues with after a
        collision: the reflected line is computed and its sense tested
        first (both only feed debug drawing, but either can raise), then
        n2 is chosen (leaving an element of the current index means going
        back to the surrounding index), and the refracted line and its sense
        are computed. */
    function Refract(m: Math, origin: Vector2, hit: Hit, probe: LineEq, n1: real): (r: Result<Bend>)
      ensures r.Ok? ==> r.value.index == (if hit.index == n1 then absRefrIndx else hit.index)
      ensures r.Ok? ==> hit.angle != 0.0 && r.value.index != 0.0 && !r.value.line.Degenerate()
      ensures r.Ok? ==> Reflection(m, origin, hit, probe).Ok?
      ensures Reflection(m, origin, hit, probe).ZeroDivision? ==> r.ZeroDivision?
    {
      if Reflection(m, origin, hit, probe).ZeroDivision? then ZeroDivision
      else
        var n2 := if hit.index == n1 then absRefrIndx else hit.index;
        match RefractionAngle(m, hit.angle, n1, n2)
        case ZeroDivision => ZeroDivision
        case Ok(angle) =>
          match CalcCrossingLineAsWritten(m, hit.point, probe, angle)
          case ZeroDivision => ZeroDivision
          case Ok(refraction) =>
            match CalcDirection(origin, hit.point, refraction, hit.surface, true)
            case ZeroDivision => ZeroDivision
            case Ok(dir) => Ok(Bend(refraction, dir, n2))
    }

    /** What a successful bend is made of, and exactly when it fails once the
        reflection has succeeded. Kept apart from Refract's own contract so that
        the tracer's proofs do not carry it. */
    lemma RefractBend(m: Math, origin: Vector2, hit: Hit, probe: LineEq, n1: real)
      // the line is calc_crossing_line at the Snell angle, and the sense calc_direction's with get_through
      ensures var r := Refract(m, origin, hit, probe, n1);
              r.Ok? ==> RefractionAngle(m, hit.angle, n1, r.value.index).Ok?
      ensures var r := Refract(m, origin, hit, probe, n1);
              r.Ok? ==> CalcCrossingLineAsWritten(m, hit.point, probe, RefractionAngle(m, hit.angle, n1, r.value.index).value)
                        == Ok(r.value.line)
      ensures var r := Refract(m, origin, hit, probe, n1);
              r.Ok? ==> CalcDirection(origin, hit.point, r.value.line, hit.surface, true) == Ok(r.value.positiveDir)
      // the refracted line passes through the collision unless it is the vertical branch's line
      ensures var r := Refract(m, origin, hit, probe, n1);
              r.Ok? ==>
                var angle := RefractionAngle(m, hit.angle, n1, r.value.index).value;
                angle != 0.0 && angle != m.pi && !VerticalBranch(m, probe, angle) ==> r.value.line.Contains(hit.point)
      // after the reflection, it raises exactly where the Snell angle, the line or its sense does
      ensures Reflection(m, origin, hit, probe).Ok? ==>
                var n2 := if hit.index == n1 then absRefrIndx else hit.index;
                (Refract(m, origin, hit, probe, n1).ZeroDivision? <==>
                   hit.angle == 0.0 || n2 == 0.0
                   || var cl := CalcCrossingLineAsWritten(m, hit.point, probe, RefractionAngle(m, hit.angle, n1, n2).value);
                      cl.ZeroDivision? || cl.value.Degenerate())
    {
    }

    /** The collision the ray from `origin` along `probe` meets first. */
    function NextHit(m: Math, origin: Vector2, probe: LineEq, positiveDir: bool): Option<Hit>
      requires Valid()
    {
      Collision(m, origin, probe.b == 0.0, positiveDir, Candidates(m, objList, probe))
    }

    /** The blue segment drawn when nothing is hit: from the origin to the
        last border crossing not behind it, if there is one. */
    function ExitSegments(m: Math, origin: Vector2, probe: LineEq, positiveDir: bool): (r: seq<Segment>)
      ensures |r| <= 1
      ensures forall s | s in r :: s.from == origin && s.colour == Blue
    {
      match ExitPoint(origin, probe.b == 0.0, positiveDir, BorderCrossings(m, probe))
      case None => []
      case Some(p) => [Segment(origin, p, Blue)]
    }

    /** The blue segment ends on a border crossing of the probe that is not
        behind the origin, and it is missing only when every crossing is. */
    lemma ExitSegmentsOnBorder(m: Math, origin: Vector2, probe: LineEq, positiveDir: bool)
      ensures forall s | s in ExitSegments(m, origin, probe, positiveDir) ::
                (exists cr | cr in BorderCrossings(m, probe) :: cr.point == s.to)
                && NotBehind(origin, s.to, probe.b == 0.0, positiveDir)
      ensures ExitSegments(m, origin, probe, positiveDir) == [] <==>
                forall cr | cr in BorderCrossings(m, probe) :: !NotBehind(origin, cr.point, probe.b == 0.0, positiveDir)
    {
      var bs := BorderCrossings(m, probe);
      var e := ExitIndex(origin, probe.b == 0.0, positiveDir, bs);
      if e.None? {
        forall cr | cr in bs ensures !NotBehind(origin, cr.point, probe.b == 0.0, positiveDir) {
          var j :| 0 <= j < |bs| && bs[j] == cr;
        }
      }
    }

    /** What cast_ray draws, deepest segment first, or ZeroDivision when a
        division on the way raises (nothing is drawn then: every level draws
        only after its recursive call has returned). */
    function Trace(m: Math, origin: Vector2, probe: LineEq, positiveDir: bool, refrIndx: real, depth: nat)
      : (r: Result<seq<Segment>>)
      requires Valid()
      decreases maxRecursionDepth + 1 - depth, 1
      ensures depth > maxRecursionDepth ==> r == Ok([])
      ensures r.Ok? ==> |r.value| <= if depth > maxRecursionDepth then 0 else maxRecursionDepth + 1 - depth
      ensures r.Ok? ==> PathFrom(r.value, origin)
    {
      if depth > maxRecursionDepth then Ok([])
      else
        match NextHit(m, origin, probe, positiveDir)
        case None => Ok(ExitSegments(m, origin, probe, positiveDir))
        case Some(hit) => TraceFromHit(m, origin, hit, probe, refrIndx, depth)
    }

    /** The segments drawn once the ray from `origin` has met `hit`: the
        trace of the bent ray from the collision, then the red segment. */
    function TraceFromHit(m: Math, origin: Vector2, hit: Hit, probe: LineEq, refrIndx: real, depth: nat)
      : (r: Result<seq<Segment>>)
      requires Valid()
      requires depth <= maxRecursionDepth
      decreases maxRecursionDepth + 1 - depth, 0
      ensures r.Ok? ==> 0 < |r.value| <= maxRecursionDepth + 1 - depth
      ensures r.Ok? ==> r.value[|r.value| - 1] == Segment(origin, hit.point, Red)
      ensures r.Ok? ==> PathFrom(r.value, origin)
    {
      match Refract(m, origin, hit, probe, refrIndx)
      case ZeroDivision => ZeroDivision
      case Ok(bend) =>
        match Trace(m, hit.point, bend.line, bend.positiveDir, bend.index, depth + 1)
        case ZeroDivision => ZeroDivision
        case Ok(segs) =>
          PathSnoc(segs, hit.point, origin);
          Ok(segs + [Segment(origin, hit.point, Red)])
    }

    /** How many times cast_ray is invoked by a call at `depth`, that call
        included. */
    ghost function CallCount(m: Math, origin: Vector2, probe: LineEq, positiveDir: bool, refrIndx: real, depth: nat): nat
      requires Valid()
      decreases maxRecursionDepth + 1 - depth, 1
    {
      if depth > maxRecursionDepth then 1
      else
        match NextHit(m, origin, probe, positiveDir)
        case None => 1
        case Some(hit) => 1 + CallCountFromHit(m, origin, hit, probe, refrIndx, depth)
    }

    /** How many times cast_ray is invoked after the ray has met `hit`: none
        when bending it raises, otherwise the recursive call's count. */
    ghost function CallCountFromHit(m: Math, origin: Vector2, hit: Hit, probe: LineEq, refrIndx: real, depth: nat): nat
      requires Valid()
      requires depth <= maxRecursionDepth
      decreases maxRecursionDepth + 1 - depth, 0
    {
      match Refract(m, origin, hit, probe, refrIndx)
      case ZeroDivision => 0
      case Ok(bend) => CallCount(m, hit.point, bend.line, bend.positiveDir, bend.index, depth + 1)
    }

    /** The recursion is bounded by maxRecursionDepth: a call at `depth`
        makes at most maxRecursionDepth + 2 - depth invocations, and exactly
        one past the cap. */
    lemma {:induction false} CallCountBounded(m: Math, origin: Vector2, probe: LineEq, positiveDir: bool, refrIndx: real, depth: nat)
      requires Valid()
      decreases maxRecursionDepth + 1 - depth, 1
      ensures var n := CallCount(m, origin, probe, positiveDir, refrIndx, depth);
              n >= 1 && (depth > maxRecursionDepth ==> n == 1)
              && (depth <= maxRecursionDepth + 1 ==> n + depth <= maxRecursionDepth + 2)
    {
      if depth <= maxRecursionDepth {
        match NextHit(m, origin, probe, positiveDir)
        case None =>
        case Some(hit) =>
          CallCountFromHitBounded(m, origin, hit, probe, refrIndx, depth);
      }
    }

    /** The same bound after a hit, one invocation fewer. */
    lemma {:induction false} CallCountFromHitBounded(m: Math, origin: Vector2, hit: Hit, probe: LineEq, refrIndx: real, depth: nat)
      requires Valid()
      requires depth <= maxRecursionDepth
      decreases maxRecursionDepth + 1 - depth, 0
      ensures CallCountFromHit(m, origin, hit, probe, refrIndx, depth) + depth <= maxRecursionDepth + 1
    {
      match Refract(m, origin, hit, probe, refrIndx)
      case ZeroDivision =>
      case Ok(bend) =>
        CallCountBounded(m, hit.point, bend.line, bend.positiveDir, bend.index, depth + 1);
    }

    /** Every drawn segment costs at least one invocation. */
    lemma {:induction false} CallCountCoversSegments(m: Math, origin: Vector2, probe: LineEq, positiveDir: bool, refrIndx: real, depth: nat)
      requires Valid()
      decreases maxRecursionDepth + 1 - depth, 1
      ensures var r := Trace(m, origin, probe, positiveDir, refrIndx, depth);
              r.Ok? ==> CallCount(m, origin, probe, positiveDir, refrIndx, depth) >= |r.value|
    {
      if depth <= maxRecursionDepth {
        match NextHit(m, origin, probe, positiveDir)
        case None =>
        case Some(hit) =>
          CallCountFromHitCoversSegments(m, origin, hit, probe, refrIndx, depth);
      }
    }

    /** After a hit, the red segment is the one drawn without an invocation
        of its own. */
    lemma {:induction false} CallCountFromHitCoversSegments(m: Math, origin: Vector2, hit: Hit, probe: LineEq, refrIndx: real, depth: nat)
      requires Valid()
      requires depth <= maxRecursionDepth
      decreases maxRecursionDepth + 1 - depth, 0
      ensures var r := TraceFromHit(m, origin, hit, probe, refrIndx, depth);
              r.Ok? ==> CallCountFromHit(m, origin, hit, probe, refrIndx, depth) + 1 >= |r.value|
    {
      match Refract(m, origin, hit, probe, refrIndx)
      case ZeroDivision =>
      case Ok(bend) =>
        CallCountCoversSegments(m, hit.point, bend.line, bend.positiveDir, bend.index, depth + 1);
    }

    /** Below the depth cap, a red segment is drawn last exactly when the
        ray hit something, and it ends at that hit. */
    lemma TraceEndsAtHit(m: Math, origin: Vector2, probe: LineEq, positiveDir: bool, refrIndx: real, depth: nat)
      requires Valid()
      requires depth <= maxRecursionDepth
      requires Trace(m, origin, probe, positiveDir, refrIndx, depth).Ok?
      ensures var segs := Trace(m, origin, probe, positiveDir, refrIndx, depth).value;
              NextHit(m, origin, probe, positiveDir).Some? <==> segs != [] && segs[|segs| - 1].colour == Red
      ensures var segs := Trace(m, origin, probe, positiveDir, refrIndx, depth).value;
              NextHit(m, origin, probe, positiveDir).Some? ==>
                segs[|segs| - 1].to == NextHit(m, origin, probe, positiveDir).value.point
    {
      match NextHit(m, origin, probe, positiveDir)
      case None =>
        assert Trace(m, origin, probe, positiveDir, refrIndx, depth) == Ok(ExitSegments(m, origin, probe, positiveDir));
      case Some(hit) =>
        var bend := Refract(m, origin, hit, probe, refrIndx).value;
        var inner := Trace(m, hit.point, bend.line, bend.positiveDir, bend.index, depth + 1).value;
        assert Trace(m, origin, probe, positiveDir, refrIndx, depth) == Ok(inner + [Segment(origin, hit.point, Red)]);
    }

    /** A trace whose last segment is red ends at a hit that lies ahead of
        the origin and that no other candidate ahead of the origin beats on
        distance. */
    lemma TraceStopsAtNearest(m: Math, origin: Vector2, probe: LineEq, positiveDir: bool,
                              refrIndx: real, depth: nat)
      requires Valid()
      requires Trace(m, origin, probe, positiveDir, refrIndx, depth).Ok?
      requires var segs := Trace(m, origin, probe, positiveDir, refrIndx, depth).value;
               segs != [] && segs[|segs| - 1].colour == Red
      ensures var segs := Trace(m, origin, probe, positiveDir, refrIndx, depth).value;
              var to := segs[|segs| - 1].to;
              var cs := Candidates(m, objList, probe);
              (exists h | h in cs :: h.point == to)
              && Ahead(origin, to, probe.b == 0.0, positiveDir)
              && forall h | h in cs && Ahead(origin, h.point, probe.b == 0.0, positiveDir) ::
                   Dist(m, origin, to) <= Dist(m, origin, h.point)
    {
      TraceEndsAtHit(m, origin, probe, positiveDir, refrIndx, depth);
      var cs := Candidates(m, objList, probe);
      var k := PickIndex(m, origin, probe.b == 0.0, positiveDir, cs);
      forall h | h in cs && Ahead(origin, h.point, probe.b == 0.0, positiveDir)
        ensures Dist(m, origin, cs[k.value].point) <= Dist(m, origin, h.point)
      {
        var j :| 0 <= j < |cs| && cs[j] == h;
      }
    }

    /** A trace that does not end in a red segment met no candidate ahead of
        the origin: it is empty, or it is the single blue segment from the
        origin to a border crossing of the probe that is not behind it. */
    lemma TraceMissesAll(m: Math, origin: Vector2, probe: LineEq, positiveDir: bool, refrIndx: real, depth: nat)
      requires Valid()
      requires depth <= maxRecursionDepth
      requires Trace(m, origin, probe, positiveDir, refrIndx, depth).Ok?
      requires var segs := Trace(m, origin, probe, positiveDir, refrIndx, depth).value;
               segs == [] || segs[|segs| - 1].colour == Blue
      ensures forall h | h in Candidates(m, objList, probe) :: !Ahead(origin, h.point, probe.b == 0.0, positiveDir)
      ensures var segs := Trace(m, origin, probe, positiveDir, refrIndx, depth).value;
              |segs| <= 1
              && forall s | s in segs ::
                   s.from == origin && s.colour == Blue
                   && (exists cr | cr in BorderCrossings(m, probe) :: cr.point == s.to)
                   && NotBehind(origin, s.to, probe.b == 0.0, positiveDir)
    {
      TraceEndsAtHit(m, origin, probe, positiveDir, refrIndx, depth);
      var cs := Candidates(m, objList, probe);
      forall h | h in cs ensures !Ahead(origin, h.point, probe.b == 0.0, positiveDir) {
        var j :| 0 <= j < |cs| && cs[j] == h;
      }
      assert Trace(m, origin, probe, positiveDir, refrIndx, depth) == Ok(ExitSegments(m, origin, probe, positiveDir));
      ExitSegmentsOnBorder(m, origin, probe, positiveDir);
    }

    /** The statements of cast_ray between choosing the collision and the
        recursive call. */
    method RefractAt(m: Math, origin: Vector2, hit: Hit, a: real, b: real, c: real, refrIndx: real)
      returns (r: Result<Bend>)
      ensures r == Refract(m, origin, hit, LineEq(a, b, c), refrIndx)
    {
      var reflection := CalcCrossingLineAsWritten(m, hit.point, LineEq(a, b, c), hit.angle * 2.0);
      if reflection.ZeroDivision? {
        return ZeroDivision;
      }
      var reflPosDir := CalcDirection(origin, hit.point, reflection.value, hit.surface, false);
      if reflPosDir.ZeroDivision? {
        return ZeroDivision;
      }
      assert Reflection(m, origin, hit, LineEq(a, b, c)) == reflPosDir;
      var n1 := refrIndx;
      var n2;
      if hit.index == n1 {
        n2 := absRefrIndx;
      } else {
        n2 := hit.index;
      }
      var angle := RefractionAngle(m, hit.angle, n1, n2);
      if angle.ZeroDivision? {
        return ZeroDivision;
      }
      var refraction := CalcCrossingLineAsWritten(m, hit.point, LineEq(a, b, c), angle.value);
      if refraction.ZeroDivision? {
        return ZeroDivision;
      }
      var refrPosDir := CalcDirection(origin, hit.point, refraction.value, hit.surface, true);
      if refrPosDir.ZeroDivision? {
        return ZeroDivision;
      }
      r := Ok(Bend(refraction.value, refrPosDir.value, n2));
    }

    /** Plane.cast_ray, with the drawing calls turned into the returned
        segments. `calls` counts the invocations of cast_ray this one makes,
        itself included. */
    method CastRay(m: Math, origin: Vector2, a: real, b: real, c: real, positiveDir: bool, refrIndx: real,
                   depth: nat)
      returns (r: Result<seq<Segment>>, ghost calls: nat)
      requires Valid()
      decreases maxRecursionDepth + 1 - depth, 1
      ensures r == Trace(m, origin, LineEq(a, b, c), positiveDir, refrIndx, depth)
      ensures calls == CallCount(m, origin, LineEq(a, b, c), positiveDir, refrIndx, depth)
    {
      if depth > maxRecursionDepth {
        return Ok([]), 1;
      }
      var collision := NearestCollision(m, origin, a, b, c, positiveDir);
      if collision.Some? {
        r, calls := CastFromHit(m, origin, collision.value, a, b, c, refrIndx, depth);
        calls := calls + 1;
      } else {
        var segs := DrawExit(m, origin, a, b, c, positiveDir);
        r, calls := Ok(segs), 1;
      }
    }

    /** The part of cast_ray after a collision is chosen: bend the ray
        there, trace on from the collision, and draw the red segment.
        `calls` counts the invocations of cast_ray made from here. */
    method CastFromHit(m: Math, origin: Vector2, hit: Hit, a: real, b: real, c: real, refrIndx: real, depth: nat)
      returns (r: Result<seq<Segment>>, ghost calls: nat)
      requires Valid()
      requires depth <= maxRecursionDepth
      decreases maxRecursionDepth + 1 - depth, 0
      ensures r == TraceFromHit(m, origin, hit, LineEq(a, b, c), refrIndx, depth)
      ensures calls == CallCountFromHit(m, origin, hit, LineEq(a, b, c), refrIndx, depth)
    {
      var bend := RefractAt(m, origin, hit, a, b, c, refrIndx);
      if bend.ZeroDivision? {
        return ZeroDivision, 0;
      }
      var l := bend.value.line;
      assert LineEq(l.a, l.b, l.c) == l;
      var inner, innerCalls := CastRay(m, hit.point, l.a, l.b, l.c, bend.value.positiveDir, bend.value.index, depth + 1);
      calls := innerCalls;
      if inner.ZeroDivision? {
        return ZeroDivision, calls;
      }
      r := Ok(inner.value + [Segment(origin, hit.point, Red)]);
    }
  }

  /** One border's block of Plane.intersections: cut the probe with the
      border and append the crossing when it lies within the border's span. */
  method AppendClip(m: Math, probe: LineEq, border: LineEq, span: Span, result: seq<Crossing>)
    returns (r: seq<Crossing>)
    ensures r == result + Clip(m, probe, border, span)
  {
    r := result;
    var intr := CalcIntersection(m, probe, border);
    if intr.Some? && InSpan(intr.value.point, span) {
      r := r + [intr.value];
    }
  }

  /** The exit loop of cast_ray: of the crossings not behind the origin,
      the last one is kept. */
  method LastNotBehind(origin: Vector2, b: real, positiveDir: bool, crossings: seq<Crossing>)
    returns (point: Option<Vector2>)
    ensures point == ExitPoint(origin, b == 0.0, positiveDir, crossings)
  {
    point := None;
    var k := 0;
    while k < |crossings|
      invariant 0 <= k <= |crossings|
      invariant point == ExitPoint(origin, b == 0.0, positiveDir, crossings[..k])
    {
      var intr := crossings[k];
      assert crossings[..k + 1][..k] == crossings[..k];
      k := k + 1;
      if positiveDir {
        if b == 0.0 {
          if intr.point.y < origin.y {
            continue;
          }
        } else {
          if intr.point.x < origin.x {
            continue;
          }
        }
      } else {
        if b == 0.0 {
          if intr.point.y > origin.y {
            continue;
          }
        } else {
          if intr.point.x > origin.x {
            continue;
          }
        }
      }
      point := Some(intr.point);
    }
    assert crossings[..k] == crossings;
  }

  /** The body of the collision loop for one hit: a hit not ahead of the
      origin is skipped, and an accepted hit replaces the current collision
      only when strictly nearer. */
  method Consider(m: Math, origin: Vector2, b: real, positiveDir: bool, intr: Hit,
                  collision: Option<Hit>, minDist: real, ghost seen: seq<Hit>)
    returns (collision': Option<Hit>, minDist': real)
    requires collision == Collision(m, origin, b == 0.0, positiveDir, seen)
    requires collision.Some? ==> minDist == Dist(m, origin, collision.value.point)
    ensures collision' == Collision(m, origin, b == 0.0, positiveDir, seen + [intr])
    ensures collision'.Some? ==> minDist' == Dist(m, origin, collision'.value.point)
  {
    StepCollision(m, origin, b == 0.0, positiveDir, seen, intr);
    var eps := Eps;
    collision', minDist' := collision, minDist;
    if positiveDir {
      if b == 0.0 {
        if intr.point.y < origin.y + eps {
          return;
        }
      } else {
        if intr.point.x < origin.x + eps {
          return;
        }
      }
    } else {
      if b == 0.0 {
        if intr.point.y > origin.y - eps {
          return;
        }
      } else {
        if intr.point.x > origin.x - eps {
          return;
        }
      }
    }
    var distance := Dist(m, origin, intr.point);
    if collision.None? || distance < minDist {
      minDist' := distance;
      collision' := Some(intr);
    }
  }

  /** The inner loop over one element's hits. */
  method ConsiderAll(m: Math, origin: Vector2, b: real, positiveDir: bool, hits: seq<Hit>,
                     collision: Option<Hit>, minDist: real, ghost seen: seq<Hit>)
    returns (collision': Option<Hit>, minDist': real)
    requires collision == Collision(m, origin, b == 0.0, positiveDir, seen)
    requires collision.Some? ==> minDist == Dist(m, origin, collision.value.point)
    ensures collision' == Collision(m, origin, b == 0.0, positiveDir, seen + hits)
    ensures collision'.Some? ==> minDist' == Dist(m, origin, collision'.value.point)
  {
    collision', minDist' := collision, minDist;
    var j := 0;
    assert seen + hits[..j] == seen;
    while j < |hits|
      invariant 0 <= j <= |hits|
      invariant collision' == Collision(m, origin, b == 0.0, positiveDir, seen + hits[..j])
      invariant collision'.Some? ==> minDist' == Dist(m, origin, collision'.value.point)
    {
      collision', minDist' := Consider(m, origin, b, positiveDir, hits[j], collision', minDist', seen + hits[..j]);
      assert seen + hits[..j + 1] == seen + hits[..j] + [hits[j]];
      j := j + 1;
    }
    assert hits[..j] == hits;
  }

  /** One step of the collision loop: appending a hit keeps the old choice
      unless the hit is ahead and strictly nearer (or nothing was chosen). */
  lemma StepCollision(m: Math, origin: Vector2, vertical: bool, positiveDir: bool, seen: seq<Hit>, h: Hit)
    ensures var before := Collision(m, origin, vertical, positiveDir, seen);
            Collision(m, origin, vertical, positiveDir, seen + [h])
            == if Ahead(origin, h.point, vertical, positiveDir)
                  && (before.None? || Dist(m, origin, h.point) < Dist(m, origin, before.value.point))
               then Some(h) else before
  {
    assert (seen + [h])[..|seen|] == seen;
  }
}
