/** `CoordinateTransform::transformObstacle`: the axis-aligned box rebuilt around a transformed
    rectangle. Cosine and sine of the orientation are given numbers; nothing is assumed of them. */
module CoordinateTransform {
  import opened Common
  import opened Regression

  datatype Point = Point(x: real, y: real, z: real)

  // One row of the homogeneous matrix. The fourth row plays no part.
  datatype Row = Row(a: real, b: real, c: real, t: real)
  datatype Matrix = Matrix(row0: Row, row1: Row, row2: Row)

  datatype Settings = Settings(enabled: bool, transformer: Option<Matrix>, negateY: bool)

  datatype Kind = Circle | Rectangle | Line | Polygon
  datatype Obstacle = Obstacle(kind: Kind, position: Point, width: real, height: real, orientation: real, vertices: seq<Point>)

  function Apply(r: Row, p: Point): real {
    Mul(r.a, p.x) + Mul(r.b, p.y) + Mul(r.c, p.z) + r.t
  }

  function ApplyTransform(m: Matrix, p: Point): Point {
    Point(Apply(m.row0, p), Apply(m.row1, p), Apply(m.row2, p))
  }

  function TransformPoint(cfg: Settings, p: Point): Point {
    var q := if cfg.enabled && cfg.transformer.Some? then ApplyTransform(cfg.transformer.value, p) else p;
    if cfg.negateY then q.(y := -q.y) else q
  }

  function TransformAll(cfg: Settings, ps: seq<Point>): (r: seq<Point>)
    ensures |r| == |ps| && forall i :: 0 <= i < |r| ==> r[i] == TransformPoint(cfg, ps[i])
  {
    seq(|ps|, i requires 0 <= i < |ps| => TransformPoint(cfg, ps[i]))
  }

  // The point at (u, v) of the oriented rectangle; its corners are at u, v = -1 or 1.
  function RectPoint(o: Obstacle, cos: real, sin: real, u: real, v: real): Point {
    var hw, hh := o.width * 0.5, o.height * 0.5;
    Point(o.position.x + Mul(u, Mul(hw, cos)) - Mul(v, Mul(hh, sin)),
          o.position.y + Mul(u, Mul(hw, sin)) + Mul(v, Mul(hh, cos)),
          o.position.z)
  }

  // The four corners, written out as the code does.
  function Corners(o: Obstacle, cos: real, sin: real): (cs: seq<Point>)
    ensures |cs| == 4
  {
    var hw, hh := o.width * 0.5, o.height * 0.5;
    var p := o.position;
    [Point(p.x + Mul(hw, cos) - Mul(hh, sin), p.y + Mul(hw, sin) + Mul(hh, cos), p.z),
     Point(p.x - Mul(hw, cos) - Mul(hh, sin), p.y - Mul(hw, sin) + Mul(hh, cos), p.z),
     Point(p.x - Mul(hw, cos) + Mul(hh, sin), p.y - Mul(hw, sin) - Mul(hh, cos), p.z),
     Point(p.x + Mul(hw, cos) + Mul(hh, sin), p.y + Mul(hw, sin) - Mul(hh, cos), p.z)]
  }

  predicate Rebuilds(cfg: Settings, o: Obstacle) {
    cfg.enabled && cfg.transformer.Some? && o.kind == Rectangle && o.vertices == [] && o.width > 0.0 && o.height > 0.0
  }

  // Least and greatest coordinates of a list of points.
  datatype Box = Box(minX: real, maxX: real, minY: real, maxY: real)

  ghost predicate IsBoundingBox(ps: seq<Point>, b: Box) {
    && (forall i :: 0 <= i < |ps| ==> b.minX <= ps[i].x <= b.maxX && b.minY <= ps[i].y <= b.maxY)
    && (exists i :: 0 <= i < |ps| && ps[i].x == b.minX) && (exists i :: 0 <= i < |ps| && ps[i].x == b.maxX)
    && (exists i :: 0 <= i < |ps| && ps[i].y == b.minY) && (exists i :: 0 <= i < |ps| && ps[i].y == b.maxY)
  }

  // The box an axis-aligned obstacle describes by centre, width and height.
  function BoxOf(o: Obstacle): Box {
    Box(o.position.x - o.width * 0.5, o.position.x + o.width * 0.5, o.position.y - o.height * 0.5, o.position.y + o.height * 0.5)
  }

  ghost predicate IsRebuilt(cfg: Settings, o: Obstacle, cos: real, sin: real, r: Obstacle) {
    var vs := TransformAll(cfg, Corners(o, cos, sin));
    r.vertices == vs && IsBoundingBox(vs, BoxOf(r)) && r.position.z == vs[0].z && r.orientation == 0.0 && r.kind == o.kind
  }

  method TransformObstacle(cfg: Settings, o: Obstacle, cos: real, sin: real) returns (r: Obstacle)
    ensures if !cfg.enabled && !cfg.negateY then r == o
            else if Rebuilds(cfg, o) then IsRebuilt(cfg, o, cos, sin, r)
            else r == o.(position := TransformPoint(cfg, o.position), vertices := TransformAll(cfg, o.vertices))
    ensures r.kind == o.kind
    // sides and angle change only for a rectangle given by its sides alone, under a matrix
    ensures !cfg.enabled || cfg.transformer == None || o.kind != Rectangle || |o.vertices| > 0 || o.width <= 0.0 || o.height <= 0.0 ==>
              r.width == o.width && r.height == o.height && r.orientation == o.orientation && |r.vertices| == |o.vertices|
    ensures cfg.enabled && cfg.transformer != None && o.kind == Rectangle && |o.vertices| == 0 && o.width > 0.0 && o.height > 0.0 ==>
              r.orientation == 0.0 && |r.vertices| == 4
  {
    if !cfg.enabled && !cfg.negateY {
      return o;
    }
    hide TransformPoint, Corners;
    if Rebuilds(cfg, o) {
      var vertices := TransformEach(cfg, Corners(o, cos, sin));
      var box := Extent(vertices);
      r := o.(vertices := vertices,
      position := Point((box.minX + box.maxX) * 0.5, (box.minY + box.maxY) * 0.5, vertices[0].z),
      width := box.maxX - box.minX,
      height := box.maxY - box.minY,
      orientation := 0.0);
      assert BoxOf(r) == box;
      return;
    }
    var vertices := TransformEach(cfg, o.vertices);
    r := o.(position := TransformPoint(cfg, o.position), vertices := vertices);
  }

  // `for (Point& vertex : obstacle.vertices) transformGeometryPoint(vertex, true)`
  method TransformEach(cfg: Settings, ps: seq<Point>) returns (r: seq<Point>)
    ensures r == TransformAll(cfg, ps)
  {
    hide TransformPoint;
    r := ps;
    for i := 0 to |ps|
      invariant |r| == |ps|
      invariant forall j :: 0 <= j < |ps| ==> r[j] == if j < i then TransformPoint(cfg, ps[j]) else ps[j]
    {
      r := r[i := TransformPoint(cfg, r[i])];
    }
  }

  method Extent(vs: seq<Point>) returns (b: Box)
    requires vs != []
    ensures IsBoundingBox(vs, b)
  {
    b := Box(vs[0].x, vs[0].x, vs[0].y, vs[0].y);
    for i := 1 to |vs|
      invariant IsBoundingBox(vs[..i], b)
    {
      var before := b;
      var v := vs[i];
      b := Box(if v.x < b.minX then v.x else b.minX, if v.x > b.maxX then v.x else b.maxX,
               if v.y < b.minY then v.y else b.minY, if v.y > b.maxY then v.y else b.maxY);
      ExtentStep(vs, i, before, b);
    }
    assert vs[..|vs|] == vs;
  }

  lemma ExtentStep(vs: seq<Point>, i: nat, b: Box, b': Box)
    requires 0 < i < |vs| && IsBoundingBox(vs[..i], b)
    requires b' == Box(if vs[i].x < b.minX then vs[i].x else b.minX, if vs[i].x > b.maxX then vs[i].x else b.maxX,
                       if vs[i].y < b.minY then vs[i].y else b.minY, if vs[i].y > b.maxY then vs[i].y else b.maxY)
    ensures IsBoundingBox(vs[..i + 1], b')
  {
  }

  // ---------------------------------------------------------------- what a point is moved to

  /** All twelve entries: the origin goes to the translation, and each unit point adds its column. */
  lemma MatrixEntries(m: Matrix)
    ensures ApplyTransform(m, Point(0.0, 0.0, 0.0)) == Point(m.row0.t, m.row1.t, m.row2.t)
    ensures ApplyTransform(m, Point(1.0, 0.0, 0.0)) == Point(m.row0.a + m.row0.t, m.row1.a + m.row1.t, m.row2.a + m.row2.t)
    ensures ApplyTransform(m, Point(0.0, 1.0, 0.0)) == Point(m.row0.b + m.row0.t, m.row1.b + m.row1.t, m.row2.b + m.row2.t)
    ensures ApplyTransform(m, Point(0.0, 0.0, 1.0)) == Point(m.row0.c + m.row0.t, m.row1.c + m.row1.t, m.row2.c + m.row2.t)
  {
  }

  // The point a fraction k of the way from p to q.
  function Along(p: Point, q: Point, k: real): Point {
    Point(p.x + Mul(k, q.x - p.x), p.y + Mul(k, q.y - p.y), p.z + Mul(k, q.z - p.z))
  }

  /** A line goes to a line, point by point; with the four points above this leaves nothing open. */
  lemma LinesStayLines(cfg: Settings, p: Point, q: Point, k: real)
    ensures TransformPoint(cfg, Along(p, q, k)) == Along(TransformPoint(cfg, p), TransformPoint(cfg, q), k)
  {
    if cfg.enabled && cfg.transformer.Some? {
      var m := cfg.transformer.value;
      RowAlong(m.row0, p, q, k);
      RowAlong(m.row1, p, q, k);
      RowAlong(m.row2, p, q, k);
    }
    var p', q' := TransformPoint(cfg.(negateY := false), p), TransformPoint(cfg.(negateY := false), q);
    MulNegate(k, q'.y - p'.y);
    hide Mul, Apply;
    assert -q'.y - -p'.y == -(q'.y - p'.y);
  }

  lemma RowAlong(r: Row, p: Point, q: Point, k: real)
    ensures Apply(r, Along(p, q, k)) == Apply(r, p) + Mul(k, Apply(r, q) - Apply(r, p))
  {
    hide Mul;
    ProductAlong(r.a, p.x, q.x, k);
    ProductAlong(r.b, p.y, q.y, k);
    ProductAlong(r.c, p.z, q.z, k);
    MulAdd(k, Mul(r.a, q.x) - Mul(r.a, p.x), Mul(r.b, q.y) - Mul(r.b, p.y));
    MulAdd(k, Mul(r.a, q.x) - Mul(r.a, p.x) + (Mul(r.b, q.y) - Mul(r.b, p.y)), Mul(r.c, q.z) - Mul(r.c, p.z));
  }

  lemma ProductAlong(a: real, x: real, y: real, k: real)
    ensures Mul(a, x + Mul(k, y - x)) == Mul(a, x) + Mul(k, Mul(a, y) - Mul(a, x))
  {
    hide Mul;
    MulAdd(a, x, Mul(k, y - x));
    MulSwap(a, k, y - x);
    MulSub(a, y, x);
  }

  /** Mirroring negates the y that comes out of the matrix, and nothing else. */
  lemma MirrorComesLast(cfg: Settings, p: Point)
    ensures var plain, mirrored := TransformPoint(cfg.(negateY := false), p), TransformPoint(cfg.(negateY := true), p);
            mirrored == Point(plain.x, -plain.y, plain.z)
    ensures !cfg.enabled || cfg.transformer.None? ==> TransformPoint(cfg.(negateY := false), p) == p
  {
  }

  // No rotation, scale or shear.
  predicate IsTranslation(m: Matrix, d: Point) {
    && m.row0 == Row(1.0, 0.0, 0.0, d.x) && m.row1 == Row(0.0, 1.0, 0.0, d.y) && m.row2 == Row(0.0, 0.0, 1.0, d.z)
  }

  function Plus(p: Point, d: Point): Point {
    Point(p.x + d.x, p.y + d.y, p.z + d.z)
  }

  /** A matrix without rotation moves a rebuilt rectangle along the axes, and each of its corners, by the
      translation, and keeps its sides. */
  lemma TranslationMovesBox(m: Matrix, d: Point, o: Obstacle, r: Obstacle)
    requires IsTranslation(m, d) && o.width > 0.0 && o.height > 0.0
    requires IsRebuilt(Settings(true, Some(m), false), o, 1.0, 0.0, r)
    ensures r.position == Plus(o.position, d) && r.width == o.width && r.height == o.height
    ensures |r.vertices| == 4 && forall i :: 0 <= i < 4 ==> r.vertices[i] == Plus(Corners(o, 1.0, 0.0)[i], d)
  {
    var cfg, cs, hw, hh := Settings(true, Some(m), false), Corners(o, 1.0, 0.0), o.width * 0.5, o.height * 0.5;
    forall p: Point
      ensures TransformPoint(cfg, p) == Plus(p, d)
    {
      TranslatePoint(m, d, p);
    }
    PlainCorners(o);
    var x, y := o.position.x + d.x, o.position.y + d.y;
    hide TransformPoint, Corners;
    var vs := r.vertices;
    assert vs[0].x == vs[3].x == x + hw && vs[1].x == vs[2].x == x - hw;
    assert vs[0].y == vs[1].y == y + hh && vs[2].y == vs[3].y == y - hh;
  }

  lemma TranslatePoint(m: Matrix, d: Point, p: Point)
    requires IsTranslation(m, d)
    ensures TransformPoint(Settings(true, Some(m), false), p) == Plus(p, d)
  {
    Unit(p.x);
    Unit(p.y);
    Unit(p.z);
    MulZero(p.x);
    MulZero(p.y);
    MulZero(p.z);
    hide Mul;
  }

  lemma PlainCorners(o: Obstacle)
    ensures var p, hw, hh := o.position, o.width * 0.5, o.height * 0.5;
            Corners(o, 1.0, 0.0) == [Point(p.x + hw, p.y + hh, p.z), Point(p.x - hw, p.y + hh, p.z),
                                     Point(p.x - hw, p.y - hh, p.z), Point(p.x + hw, p.y - hh, p.z)]
  {
    var hw, hh := o.width * 0.5, o.height * 0.5;
    MulComm(hw, 1.0);
    MulComm(hh, 1.0);
    Unit(hw);
    Unit(hh);
    MulZero(hw);
    MulZero(hh);
    hide Mul;
  }

  // ---------------------------------------------------------------- the box holds the whole image

  lemma MulSwap(a: real, b: real, c: real)
    ensures Mul(a, Mul(b, c)) == Mul(b, Mul(a, c))
  {
  }

  // One row applied to a rectangle point is linear in u and v.
  lemma RowOnRectangle(r: Row, o: Obstacle, cos: real, sin: real, u: real, v: real)
    ensures var hw, hh := o.width * 0.5, o.height * 0.5;
            Apply(r, RectPoint(o, cos, sin, u, v)) == Apply(r, o.position)
              + Mul(u, Mul(r.a, Mul(hw, cos)) + Mul(r.b, Mul(hw, sin)))
              + Mul(v, Mul(r.b, Mul(hh, cos)) - Mul(r.a, Mul(hh, sin)))
  {
    hide Mul;
    var hw, hh := o.width * 0.5, o.height * 0.5;
    var p := o.position;
    MulSub(r.a, p.x + Mul(u, Mul(hw, cos)), Mul(v, Mul(hh, sin)));
    MulAdd(r.a, p.x, Mul(u, Mul(hw, cos)));
    MulAdd(r.b, p.y + Mul(u, Mul(hw, sin)), Mul(v, Mul(hh, cos)));
    MulAdd(r.b, p.y, Mul(u, Mul(hw, sin)));
    MulSwap(r.a, u, Mul(hw, cos));
    MulSwap(r.a, v, Mul(hh, sin));
    MulSwap(r.b, u, Mul(hw, sin));
    MulSwap(r.b, v, Mul(hh, cos));
    MulAdd(u, Mul(r.a, Mul(hw, cos)), Mul(r.b, Mul(hw, sin)));
    MulSub(v, Mul(r.b, Mul(hh, cos)), Mul(r.a, Mul(hh, sin)));
  }

  lemma Unit(a: real)
    ensures Mul(1.0, a) == a && Mul(-1.0, a) == -a
  {
  }

  lemma CornersAreExtremePoints(o: Obstacle, cos: real, sin: real)
    ensures var cs := Corners(o, cos, sin);
            && cs[0] == RectPoint(o, cos, sin, 1.0, 1.0) && cs[1] == RectPoint(o, cos, sin, -1.0, 1.0)
            && cs[2] == RectPoint(o, cos, sin, -1.0, -1.0) && cs[3] == RectPoint(o, cos, sin, 1.0, -1.0)
  {
  }

  // |t| <= 1 scales no further than to plus or minus a.
  lemma ScaledWithin(t: real, a: real)
    requires -1.0 <= t <= 1.0
    ensures (-a <= Mul(t, a) <= a) || (a <= Mul(t, a) <= -a)
  {
    Unit(a);
    MulZero(t);
    MulNegate(t, a);
    MulNegate(1.0, a);
    MulNegate(-1.0, a);
    hide Mul;
    if a > 0.0 {
      if t < 1.0 { MulLess(t, 1.0, a); }
      if t > -1.0 { MulLess(-1.0, t, a); }
    } else if a < 0.0 {
      if t < 1.0 { MulLess(t, 1.0, -a); }
      if t > -1.0 { MulLess(-1.0, t, -a); }
    }
  }

  // A coordinate of an affine map: its value at (u, v), from its values at the centre and along both axes.
  function Coordinate(centre: real, alongU: real, alongV: real, u: real, v: real): real {
    centre + Mul(u, alongU) + Mul(v, alongV)
  }

  lemma BetweenCorners(c: real, p: real, q: real, u: real, v: real, lo: real, hi: real)
    requires -1.0 <= u <= 1.0 && -1.0 <= v <= 1.0
    requires lo <= c + p + q <= hi && lo <= c - p + q <= hi && lo <= c - p - q <= hi && lo <= c + p - q <= hi
    ensures lo <= Coordinate(c, p, q, u, v) <= hi
  {
    ScaledWithin(u, p);
    ScaledWithin(v, q);
    hide Mul;
  }

  // Both image coordinates of a rectangle point, in that form.
  lemma ImageIsLinear(cfg: Settings, o: Obstacle, cos: real, sin: real)
    returns (cx: real, ux: real, vx: real, cy: real, uy: real, vy: real)
    requires cfg.enabled && cfg.transformer.Some?
    ensures forall u, v {:trigger RectPoint(o, cos, sin, u, v)} ::
              var q := TransformPoint(cfg, RectPoint(o, cos, sin, u, v));
              q.x == Coordinate(cx, ux, vx, u, v) && q.y == Coordinate(cy, uy, vy, u, v)
  {
    var hw, hh := o.width * 0.5, o.height * 0.5;
    var r0, r1 := cfg.transformer.value.row0, cfg.transformer.value.row1;
    cx := Apply(r0, o.position);
    ux := Mul(r0.a, Mul(hw, cos)) + Mul(r0.b, Mul(hw, sin));
    vx := Mul(r0.b, Mul(hh, cos)) - Mul(r0.a, Mul(hh, sin));
    var y0 := Apply(r1, o.position);
    var y1 := Mul(r1.a, Mul(hw, cos)) + Mul(r1.b, Mul(hw, sin));
    var y2 := Mul(r1.b, Mul(hh, cos)) - Mul(r1.a, Mul(hh, sin));
    cy, uy, vy := if cfg.negateY then -y0 else y0, if cfg.negateY then -y1 else y1, if cfg.negateY then -y2 else y2;
    hide Mul;
    forall u, v
      ensures var q := TransformPoint(cfg, RectPoint(o, cos, sin, u, v));
              q.x == Coordinate(cx, ux, vx, u, v) && q.y == Coordinate(cy, uy, vy, u, v)
    {
      RowOnRectangle(r0, o, cos, sin, u, v);
      RowOnRectangle(r1, o, cos, sin, u, v);
      MulNegate(u, y1);
      MulNegate(v, y2);
    }
  }

  lemma MulNegate(a: real, b: real)
    ensures Mul(a, -b) == -Mul(a, b)
  {
  }

  lemma CoordinateAtCorners(c: real, p: real, q: real)
    ensures Coordinate(c, p, q, 1.0, 1.0) == c + p + q && Coordinate(c, p, q, -1.0, 1.0) == c - p + q
    ensures Coordinate(c, p, q, -1.0, -1.0) == c - p - q && Coordinate(c, p, q, 1.0, -1.0) == c + p - q
  {
  }

  /** The rebuilt box contains the image of every point of the rectangle, for any matrix and angle. */
  lemma BoxContainsImage(cfg: Settings, o: Obstacle, cos: real, sin: real, r: Obstacle, u: real, v: real)
    requires Rebuilds(cfg, o) && IsRebuilt(cfg, o, cos, sin, r) && -1.0 <= u <= 1.0 && -1.0 <= v <= 1.0
    ensures var q, b := TransformPoint(cfg, RectPoint(o, cos, sin, u, v)), BoxOf(r);
            b.minX <= q.x <= b.maxX && b.minY <= q.y <= b.maxY
  {
    var b := BoxOf(r);
    CornersAreExtremePoints(o, cos, sin);
    hide Mul, Corners, RectPoint, TransformPoint, BoxOf, Coordinate;
    var cx, ux, vx, cy, uy, vy := ImageIsLinear(cfg, o, cos, sin);
    CoordinateAtCorners(cx, ux, vx);
    CoordinateAtCorners(cy, uy, vy);
    var vs := TransformAll(cfg, Corners(o, cos, sin));
    assert forall i :: 0 <= i < 4 ==> b.minX <= vs[i].x <= b.maxX && b.minY <= vs[i].y <= b.maxY;
    BetweenCorners(cx, ux, vx, u, v, b.minX, b.maxX);
    BetweenCorners(cy, uy, vy, u, v, b.minY, b.maxY);
  }

  ghost predicate ContainsImage(cfg: Settings, o: Obstacle, cos: real, sin: real, b: Box) {
    forall u, v {:trigger RectPoint(o, cos, sin, u, v)} :: -1.0 <= u <= 1.0 && -1.0 <= v <= 1.0 ==>
      var q := TransformPoint(cfg, RectPoint(o, cos, sin, u, v));
      b.minX <= q.x <= b.maxX && b.minY <= q.y <= b.maxY
  }

  /** ... and it is the smallest such box: any other one that does contains it. */
  lemma BoxIsSmallest(cfg: Settings, o: Obstacle, cos: real, sin: real, r: Obstacle, b: Box)
    requires Rebuilds(cfg, o) && IsRebuilt(cfg, o, cos, sin, r) && ContainsImage(cfg, o, cos, sin, b)
    ensures b.minX <= BoxOf(r).minX && BoxOf(r).maxX <= b.maxX && b.minY <= BoxOf(r).minY && BoxOf(r).maxY <= b.maxY
  {
    CornersAreExtremePoints(o, cos, sin);
    hide Mul, Corners, RectPoint, TransformPoint, BoxOf;
    var vs := TransformAll(cfg, Corners(o, cos, sin));
    assert forall i :: 0 <= i < 4 ==> b.minX <= vs[i].x <= b.maxX && b.minY <= vs[i].y <= b.maxY;
  }

  // ---------------------------------------------------------------- a matrix on a rectangle that is not rebuilt

  // The matrix in the directions of the rectangle's own sides: what becomes of a step along u, and along v.
  datatype Frame = Frame(uu: real, uv: real, vu: real, vv: real)

  function FrameOf(cfg: Settings, m: Matrix, cos: real, sin: real): Frame {
    var x0, x1 := Mul(m.row0.a, cos) + Mul(m.row0.b, sin), Mul(m.row0.b, cos) - Mul(m.row0.a, sin);
    var y0, y1 := Mul(m.row1.a, cos) + Mul(m.row1.b, sin), Mul(m.row1.b, cos) - Mul(m.row1.a, sin);
    var z0, z1 := if cfg.negateY then -y0 else y0, if cfg.negateY then -y1 else y1;
    Frame(Mul(cos, x0) + Mul(sin, z0), Mul(cos, x1) + Mul(sin, z1), Mul(cos, z0) - Mul(sin, x0), Mul(cos, z1) - Mul(sin, x1))
  }

  function Abs(a: real): real {
    if a < 0.0 then -a else a
  }

  // The half sides, mapped by the matrix, stay within the half sides.
  predicate StaysWithin(f: Frame, hw: real, hh: real) {
    Abs(Mul(hw, f.uu)) + Abs(Mul(hh, f.uv)) <= hw && Abs(Mul(hw, f.vu)) + Abs(Mul(hh, f.vv)) <= hh
  }

  // Width, height and angle are kept, and only the centre is moved.
  predicate OnlyMoved(cfg: Settings, o: Obstacle, r: Obstacle) {
    r.position == TransformPoint(cfg, o.position) && r.width == o.width && r.height == o.height && r.orientation == o.orientation
  }

  // Seen from above, `p` lies in the rectangle.
  ghost predicate Covers(r: Obstacle, cos: real, sin: real, p: Point) {
    exists u, v :: IsAbove(r, cos, sin, p, u, v)
  }

  ghost predicate IsAbove(r: Obstacle, cos: real, sin: real, p: Point, u: real, v: real) {
    && -1.0 <= u <= 1.0 && -1.0 <= v <= 1.0
    && p.x == RectPoint(r, cos, sin, u, v).x && p.y == RectPoint(r, cos, sin, u, v).y
  }

  ghost predicate CoversImage(cfg: Settings, o: Obstacle, cos: real, sin: real, r: Obstacle) {
    forall u, v {:trigger RectPoint(o, cos, sin, u, v)} :: -1.0 <= u <= 1.0 && -1.0 <= v <= 1.0 ==>
      Covers(r, cos, sin, TransformPoint(cfg, RectPoint(o, cos, sin, u, v)))
  }

  lemma MulSwapTwice(c: real, u: real, h: real, x: real)
    ensures Mul(c, Mul(u, Mul(h, x))) == Mul(u, Mul(h, Mul(c, x)))
  {
    hide Mul;
    MulSwap(c, u, Mul(h, x));
    MulSwap(c, h, x);
  }

  // Two offsets of the form u * h * x + v * k * y, combined.
  lemma CombineOffsets(c: real, s: real, u: real, v: real, h: real, k: real, x0: real, x1: real, y0: real, y1: real)
    ensures Mul(c, Mul(u, Mul(h, x0)) + Mul(v, Mul(k, x1))) + Mul(s, Mul(u, Mul(h, y0)) + Mul(v, Mul(k, y1)))
            == Mul(u, Mul(h, Mul(c, x0) + Mul(s, y0))) + Mul(v, Mul(k, Mul(c, x1) + Mul(s, y1)))
  {
    hide Mul;
    MulAdd(c, Mul(u, Mul(h, x0)), Mul(v, Mul(k, x1)));
    MulAdd(s, Mul(u, Mul(h, y0)), Mul(v, Mul(k, y1)));
    MulSwapTwice(c, u, h, x0);
    MulSwapTwice(c, v, k, x1);
    MulSwapTwice(s, u, h, y0);
    MulSwapTwice(s, v, k, y1);
    MulAdd(h, Mul(c, x0), Mul(s, y0));
    MulAdd(k, Mul(c, x1), Mul(s, y1));
    MulAdd(u, Mul(h, Mul(c, x0)), Mul(h, Mul(s, y0)));
    MulAdd(v, Mul(k, Mul(c, x1)), Mul(k, Mul(s, y1)));
  }

  // One row on an offset along the sides.
  lemma RowOffset(r: Row, o: Obstacle, cos: real, sin: real, u: real, v: real)
    ensures var hw, hh := o.width * 0.5, o.height * 0.5;
            Apply(r, RectPoint(o, cos, sin, u, v)) == Apply(r, o.position)
              + Mul(u, Mul(hw, Mul(r.a, cos) + Mul(r.b, sin))) + Mul(v, Mul(hh, Mul(r.b, cos) - Mul(r.a, sin)))
  {
    hide Mul, Apply, RectPoint;
    var hw, hh := o.width * 0.5, o.height * 0.5;
    RowOnRectangle(r, o, cos, sin, u, v);
    MulSwap(r.a, hw, cos);
    MulSwap(r.b, hw, sin);
    MulSwap(r.b, hh, cos);
    MulSwap(r.a, hh, sin);
    MulAdd(hw, Mul(r.a, cos), Mul(r.b, sin));
    MulSub(hh, Mul(r.b, cos), Mul(r.a, sin));
  }

  // The image of (u, v), seen from the moved centre in the rectangle's own directions.
  lemma OffsetInFrame(cfg: Settings, m: Matrix, o: Obstacle, cos: real, sin: real, u: real, v: real)
    requires cfg.enabled && cfg.transformer == Some(m)
    ensures var q, c := TransformPoint(cfg, RectPoint(o, cos, sin, u, v)), TransformPoint(cfg, o.position);
            var f, hw, hh := FrameOf(cfg, m, cos, sin), o.width * 0.5, o.height * 0.5;
            && Mul(cos, q.x - c.x) + Mul(sin, q.y - c.y) == Coordinate(0.0, Mul(hw, f.uu), Mul(hh, f.uv), u, v)
            && Mul(cos, q.y - c.y) - Mul(sin, q.x - c.x) == Coordinate(0.0, Mul(hw, f.vu), Mul(hh, f.vv), u, v)
  {
    var hw, hh := o.width * 0.5, o.height * 0.5;
    var x0, x1 := Mul(m.row0.a, cos) + Mul(m.row0.b, sin), Mul(m.row0.b, cos) - Mul(m.row0.a, sin);
    var y0, y1 := Mul(m.row1.a, cos) + Mul(m.row1.b, sin), Mul(m.row1.b, cos) - Mul(m.row1.a, sin);
    var z0, z1 := if cfg.negateY then -y0 else y0, if cfg.negateY then -y1 else y1;
    RowOffset(m.row0, o, cos, sin, u, v);
    RowOffset(m.row1, o, cos, sin, u, v);
    MulNegate(hw, y0);
    MulNegate(hh, y1);
    MulNegate(u, Mul(hw, y0));
    MulNegate(v, Mul(hh, y1));
    CombineOffsets(cos, sin, u, v, hw, hh, x0, x1, z0, z1);
    CombineOffsets(cos, -sin, u, v, hw, hh, z0, z1, x0, x1);
    NegateFirst(sin, x0);
    NegateFirst(sin, x1);
    NegateFirst(sin, Mul(u, Mul(hw, x0)) + Mul(v, Mul(hh, x1)));
    hide Mul, RectPoint;
  }

  // An offset lies in a rectangle exactly when, in its own directions, it is no longer than the half sides.
  lemma CoversIff(r: Obstacle, cos: real, sin: real, p: Point)
    requires r.width >= 0.0 && r.height >= 0.0 && Mul(cos, cos) + Mul(sin, sin) == 1.0
    ensures var dx, dy := p.x - r.position.x, p.y - r.position.y;
            Covers(r, cos, sin, p) <==>
            Abs(Mul(cos, dx) + Mul(sin, dy)) <= r.width * 0.5 && Abs(Mul(cos, dy) - Mul(sin, dx)) <= r.height * 0.5
  {
    var dx, dy, hw, hh := p.x - r.position.x, p.y - r.position.y, r.width * 0.5, r.height * 0.5;
    var along, across := Mul(cos, dx) + Mul(sin, dy), Mul(cos, dy) - Mul(sin, dx);
    if Covers(r, cos, sin, p) {
      var u, v :| IsAbove(r, cos, sin, p, u, v);
      SideParts(r, cos, sin, u, v);
      TurnBack(cos, sin, Mul(u, hw), Mul(v, hh));
      ScaledWithin(u, hw);
      ScaledWithin(v, hh);
      hide Mul;
    }
    if Abs(along) <= hw && Abs(across) <= hh {
      var u := Part(along, hw);
      var v := Part(across, hh);
      SideParts(r, cos, sin, u, v);
      TurnForth(cos, sin, dx, dy);
      hide Mul;
      assert IsAbove(r, cos, sin, p, u, v);
    }
  }

  lemma SideParts(r: Obstacle, cos: real, sin: real, u: real, v: real)
    ensures var p, q, pt := Mul(u, r.width * 0.5), Mul(v, r.height * 0.5), RectPoint(r, cos, sin, u, v);
            pt.x == r.position.x + (Mul(p, cos) - Mul(q, sin)) && pt.y == r.position.y + (Mul(p, sin) + Mul(q, cos))
  {
    var hw, hh := r.width * 0.5, r.height * 0.5;
    MulAssoc(u, hw, cos);
    MulAssoc(u, hw, sin);
    MulAssoc(v, hh, cos);
    MulAssoc(v, hh, sin);
    hide Mul;
  }

  // The fraction of `side` that makes `a`.
  lemma Part(a: real, side: real) returns (t: real)
    requires side >= 0.0 && Abs(a) <= side
    ensures -1.0 <= t <= 1.0 && Mul(t, side) == a
  {
    t := if side == 0.0 then 0.0 else a / side;
  }

  lemma TurnForth(c: real, s: real, dx: real, dy: real)
    requires Mul(c, c) + Mul(s, s) == 1.0
    ensures Mul(Mul(c, dx) + Mul(s, dy), c) - Mul(Mul(c, dy) - Mul(s, dx), s) == dx
    ensures Mul(Mul(c, dx) + Mul(s, dy), s) + Mul(Mul(c, dy) - Mul(s, dx), c) == dy
  {
    assert (c * dx + s * dy) * c - (c * dy - s * dx) * s == dx * (c * c + s * s);
    assert (c * dx + s * dy) * s + (c * dy - s * dx) * c == dy * (c * c + s * s);
  }

  // All of |u|, |v| <= 1 stays within the bound exactly when the sum of the two sizes does.
  lemma WithinIff(p: real, q: real, bound: real)
    ensures (forall u, v {:trigger Coordinate(0.0, p, q, u, v)} :: -1.0 <= u <= 1.0 && -1.0 <= v <= 1.0 ==>
               Abs(Coordinate(0.0, p, q, u, v)) <= bound)
            <==> Abs(p) + Abs(q) <= bound
  {
    CoordinateAtCorners(0.0, p, q);
    hide Coordinate;
    if Abs(p) + Abs(q) <= bound {
      forall u, v | -1.0 <= u <= 1.0 && -1.0 <= v <= 1.0
        ensures Abs(Coordinate(0.0, p, q, u, v)) <= bound
      {
        BetweenCorners(0.0, p, q, u, v, -bound, bound);
      }
    }
  }

  /** A rectangle that is not rebuilt keeps width, height and angle while a matrix moves its centre. It then
      still covers the image exactly when the mapped half sides stay within the half sides. */
  lemma KeptSidesCoverIff(cfg: Settings, m: Matrix, o: Obstacle, cos: real, sin: real, r: Obstacle)
    requires cfg.enabled && cfg.transformer == Some(m) && o.width >= 0.0 && o.height >= 0.0 && OnlyMoved(cfg, o, r)
    requires Mul(cos, cos) + Mul(sin, sin) == 1.0
    ensures CoversImage(cfg, o, cos, sin, r) <==> StaysWithin(FrameOf(cfg, m, cos, sin), o.width * 0.5, o.height * 0.5)
  {
    var f, hw, hh := FrameOf(cfg, m, cos, sin), o.width * 0.5, o.height * 0.5;
    hide Mul, RectPoint, TransformPoint, FrameOf, Coordinate, Covers, Abs;
    forall u, v
      ensures Covers(r, cos, sin, TransformPoint(cfg, RectPoint(o, cos, sin, u, v))) <==>
              Abs(Coordinate(0.0, Mul(hw, f.uu), Mul(hh, f.uv), u, v)) <= hw
              && Abs(Coordinate(0.0, Mul(hw, f.vu), Mul(hh, f.vv), u, v)) <= hh
    {
      OffsetInFrame(cfg, m, o, cos, sin, u, v);
      CoversIff(r, cos, sin, TransformPoint(cfg, RectPoint(o, cos, sin, u, v)));
    }
    WithinIff(Mul(hw, f.uu), Mul(hh, f.uv), hw);
    WithinIff(Mul(hw, f.vu), Mul(hh, f.vv), hh);
  }

  /** A wall of no height, turned by a right angle, is no longer covered. */
  lemma WallTurned(o: Obstacle, r: Obstacle, shift: real)
    requires o.kind == Rectangle && o.width == 4.0 && o.height == 0.0
    requires var m := Matrix(Row(0.0, -1.0, 0.0, shift), Row(1.0, 0.0, 0.0, shift), Row(0.0, 0.0, 1.0, 0.0));
             OnlyMoved(Settings(true, Some(m), false), o, r)
    ensures var m := Matrix(Row(0.0, -1.0, 0.0, shift), Row(1.0, 0.0, 0.0, shift), Row(0.0, 0.0, 1.0, 0.0));
            var cfg := Settings(true, Some(m), false);
            !Rebuilds(cfg, o) && !CoversImage(cfg, o, 1.0, 0.0, r)
  {
    var m := Matrix(Row(0.0, -1.0, 0.0, shift), Row(1.0, 0.0, 0.0, shift), Row(0.0, 0.0, 1.0, 0.0));
    var cfg := Settings(true, Some(m), false);
    RightAngle(cfg, m);
    hide Mul, CoversImage, OnlyMoved, FrameOf;
    Unit(1.0);
    MulZero(0.0);
    MulComm(2.0, 1.0);
    Unit(2.0);
    MulZero(2.0);
    KeptSidesCoverIff(cfg, m, o, 1.0, 0.0, r);
  }

  lemma RightAngle(cfg: Settings, m: Matrix)
    requires m.row0.a == 0.0 && m.row0.b == -1.0 && m.row1.a == 1.0 && m.row1.b == 0.0 && !cfg.negateY
    ensures FrameOf(cfg, m, 1.0, 0.0) == Frame(0.0, -1.0, 1.0, 0.0)
  {
  }

  // ---------------------------------------------------------------- mirroring without a matrix

  const MIRROR := Settings(false, None, true)

  // What the code makes of a rectangle without vertices: the centre is mirrored, the rest is kept.
  function Mirrored(o: Obstacle): Obstacle {
    o.(position := TransformPoint(MIRROR, o.position))
  }

  ghost predicate InRectangle(o: Obstacle, cos: real, sin: real, p: Point) {
    exists u, v :: IsPointAt(o, cos, sin, p, u, v)
  }

  ghost predicate IsPointAt(o: Obstacle, cos: real, sin: real, p: Point, u: real, v: real) {
    -1.0 <= u <= 1.0 && -1.0 <= v <= 1.0 && p == RectPoint(o, cos, sin, u, v)
  }

  // Every point of the rectangle is mirrored to a point of the result.
  ghost predicate MirrorFits(o: Obstacle, cos: real, sin: real) {
    forall u, v {:trigger RectPoint(o, cos, sin, u, v)} :: -1.0 <= u <= 1.0 && -1.0 <= v <= 1.0 ==>
      InRectangle(Mirrored(o), cos, sin, TransformPoint(MIRROR, RectPoint(o, cos, sin, u, v)))
  }

  // Along the axes, a square on its corner, or a single point.
  predicate KeepsShape(o: Obstacle, cos: real, sin: real) {
    cos == 0.0 || sin == 0.0 || (o.width == o.height && (cos == sin || cos == -sin || o.width == 0.0))
  }

  // The coordinates a kept shape mirrors (u, v) to; a single point stays where it is.
  function ImageOf(cos: real, sin: real, u: real, v: real): (real, real) {
    if sin == 0.0 then (u, -v)
    else if cos == 0.0 then (-u, v)
    else if cos == sin then (-v, -u)
    else if cos == -sin then (v, u)
    else (u, v)
  }

  /** Mirroring alone keeps width, height and angle. That maps the rectangle into the result exactly when
      the sides lie along the axes, or it is a square on its corner. */
  lemma MirrorExactly(o: Obstacle, cos: real, sin: real)
    requires o.width >= 0.0 && o.height >= 0.0 && Mul(cos, cos) + Mul(sin, sin) == 1.0
    ensures MirrorFits(o, cos, sin) <==> KeepsShape(o, cos, sin)
  {
    if KeepsShape(o, cos, sin) {
      forall u, v {:trigger RectPoint(o, cos, sin, u, v)} | -1.0 <= u <= 1.0 && -1.0 <= v <= 1.0
        ensures InRectangle(Mirrored(o), cos, sin, TransformPoint(MIRROR, RectPoint(o, cos, sin, u, v)))
      {
        MirrorMapsPoint(o, cos, sin, u, v);
        var (u', v') := ImageOf(cos, sin, u, v);
        assert IsPointAt(Mirrored(o), cos, sin, TransformPoint(MIRROR, RectPoint(o, cos, sin, u, v)), u', v');
      }
    }
    if MirrorFits(o, cos, sin) {
      FitKeepsShape(o, cos, sin);
    }
  }

  lemma MirrorMapsPoint(o: Obstacle, cos: real, sin: real, u: real, v: real)
    requires KeepsShape(o, cos, sin)
    ensures var (u', v') := ImageOf(cos, sin, u, v);
            TransformPoint(MIRROR, RectPoint(o, cos, sin, u, v)) == RectPoint(Mirrored(o), cos, sin, u', v')
  {
    var hw, hh := o.width * 0.5, o.height * 0.5;
    MulZero(hw);
    MulZero(hh);
    MulZero(u);
    MulZero(v);
    MulZero(cos);
    MulZero(sin);
    MulNegate(hw, sin);
    MulNegate(hh, sin);
    NegateFirst(u, Mul(hw, cos));
    NegateFirst(u, Mul(hw, sin));
    NegateFirst(v, Mul(hh, cos));
    NegateFirst(v, Mul(hh, sin));
    MulNegate(u, Mul(hw, sin));
    MulNegate(v, Mul(hh, sin));
    hide Mul;
  }

  lemma NegateFirst(a: real, b: real)
    ensures Mul(-a, b) == -Mul(a, b)
  {
  }

  // Turning (p, q) by the angle and back.
  lemma TurnBack(c: real, s: real, p: real, q: real)
    requires Mul(c, c) + Mul(s, s) == 1.0
    ensures Mul(c, Mul(p, c) - Mul(q, s)) + Mul(s, Mul(p, s) + Mul(q, c)) == p
    ensures Mul(c, Mul(p, s) + Mul(q, c)) - Mul(s, Mul(p, c) - Mul(q, s)) == q
  {
    assert c * (p * c - q * s) + s * (p * s + q * c) == p * (c * c + s * s);
    assert c * (p * s + q * c) - s * (p * c - q * s) == q * (c * c + s * s);
  }

  // The mirrored offset of (p, q), in the rectangle's own directions: c2 and s2 stand for the double angle.
  lemma MirroredOffset(c: real, s: real, p: real, q: real, c2: real, s2: real)
    requires c2 == Mul(c, c) - Mul(s, s) && s2 == 2.0 * Mul(s, c)
    ensures Mul(c, Mul(p, c) - Mul(q, s)) - Mul(s, Mul(p, s) + Mul(q, c)) == Mul(c2, p) - Mul(s2, q)
    ensures -Mul(c, Mul(p, s) + Mul(q, c)) - Mul(s, Mul(p, c) - Mul(q, s)) == -Mul(s2, p) - Mul(c2, q)
  {
  }

  lemma DoubleAngle(c: real, s: real, c2: real, s2: real)
    requires Mul(c, c) + Mul(s, s) == 1.0 && c2 == Mul(c, c) - Mul(s, s) && s2 == 2.0 * Mul(s, c)
    ensures Mul(c2, c2) + Mul(s2, s2) == 1.0
  {
    assert c2 * c2 + s2 * s2 == (c * c + s * s) * (c * c + s * s);
  }

  // Where the corner (u, v) goes, in the result's own coordinates.
  lemma CornerBound(o: Obstacle, cos: real, sin: real, u: real, v: real, c2: real, s2: real)
    requires MirrorFits(o, cos, sin) && Mul(cos, cos) + Mul(sin, sin) == 1.0 && o.width >= 0.0 && o.height >= 0.0
    requires c2 == Mul(cos, cos) - Mul(sin, sin) && s2 == 2.0 * Mul(sin, cos) && -1.0 <= u <= 1.0 && -1.0 <= v <= 1.0
    ensures var p, q := Mul(u, o.width * 0.5), Mul(v, o.height * 0.5);
            Mul(c2, p) - Mul(s2, q) <= o.width * 0.5 && Mul(s2, p) + Mul(c2, q) <= o.height * 0.5
  {
    var hw, hh := o.width * 0.5, o.height * 0.5;
    var r, m := Mirrored(o), TransformPoint(MIRROR, RectPoint(o, cos, sin, u, v));
    var u', v' :| IsPointAt(r, cos, sin, m, u', v');
    var p, q, p', q' := Mul(u, hw), Mul(v, hh), Mul(u', hw), Mul(v', hh);
    MulAssoc(u, hw, cos);
    MulAssoc(u, hw, sin);
    MulAssoc(v, hh, cos);
    MulAssoc(v, hh, sin);
    MulAssoc(u', hw, cos);
    MulAssoc(u', hw, sin);
    MulAssoc(v', hh, cos);
    MulAssoc(v', hh, sin);
    ScaledWithin(u', hw);
    ScaledWithin(v', hh);
    TurnBack(cos, sin, p', q');
    MirroredOffset(cos, sin, p, q, c2, s2);
    hide Mul;
    var x, y := Mul(p, cos) - Mul(q, sin), Mul(p, sin) + Mul(q, cos);
    assert Mul(p', cos) - Mul(q', sin) == x && Mul(p', sin) + Mul(q', cos) == -y;
    MulNegate(cos, y);
    MulNegate(sin, y);
  }

  // |a| + |b| <= 1 on the unit circle leaves only the axes.
  lemma OnlyAxes(a: real, b: real)
    requires Mul(a, a) + Mul(b, b) == 1.0 && (a + b <= 1.0 && a - b <= 1.0 && b - a <= 1.0 && -a - b <= 1.0)
    ensures a == 0.0 || b == 0.0
  {
    var p, q := if a >= 0.0 then a else -a, if b >= 0.0 then b else -b;
    if p > 0.0 && q > 0.0 {
      SquareOfSum(p, q);
      MulLess(0.0, p, q);
      MulZero(q);
      if p + q < 1.0 {
        MulLess(p + q, 1.0, p + q);
      }
    }
  }

  lemma CancelSide(t: real, side: real)
    requires Mul(t, side) <= side && side > 0.0
    ensures t <= 1.0
  {
    if t > 1.0 {
      MulLess(1.0, t, side);
    }
  }

  lemma FitKeepsShape(o: Obstacle, cos: real, sin: real)
    requires o.width >= 0.0 && o.height >= 0.0 && Mul(cos, cos) + Mul(sin, sin) == 1.0 && MirrorFits(o, cos, sin)
    ensures KeepsShape(o, cos, sin)
  {
    var hw, hh := o.width * 0.5, o.height * 0.5;
    var c2, s2 := Mul(cos, cos) - Mul(sin, sin), 2.0 * Mul(sin, cos);
    DoubleAngle(cos, sin, c2, s2);
    CornerBound(o, cos, sin, 1.0, 1.0, c2, s2);
    CornerBound(o, cos, sin, 1.0, -1.0, c2, s2);
    CornerBound(o, cos, sin, -1.0, 1.0, c2, s2);
    CornerBound(o, cos, sin, -1.0, -1.0, c2, s2);
    Unit(hw);
    Unit(hh);
    MulNegate(c2, hw);
    MulNegate(c2, hh);
    MulNegate(s2, hw);
    MulNegate(s2, hh);
    CornerAlgebra(c2, s2, hw, hh);
    AxesOrDiagonal(cos, sin);
  }

  // The four corner bounds, added up.
  lemma CornerAlgebra(c2: real, s2: real, hw: real, hh: real)
    requires hw >= 0.0 && hh >= 0.0 && Mul(c2, c2) + Mul(s2, s2) == 1.0
    requires Mul(c2, hw) - Mul(s2, hh) <= hw && Mul(s2, hw) + Mul(c2, hh) <= hh
    requires Mul(c2, hw) + Mul(s2, hh) <= hw && Mul(s2, hw) - Mul(c2, hh) <= hh
    requires -Mul(c2, hw) - Mul(s2, hh) <= hw && -Mul(s2, hw) + Mul(c2, hh) <= hh
    requires -Mul(c2, hw) + Mul(s2, hh) <= hw && -Mul(s2, hw) - Mul(c2, hh) <= hh
    ensures s2 == 0.0 || (hw == hh && (c2 == 0.0 || hw == 0.0))
  {
    hide Mul;
    var side := hw + hh;
    if side > 0.0 {
      Spread(c2, s2, hw, hh);
      Spread(c2, -s2, hw, hh);
      Spread(-c2, s2, hw, hh);
      Spread(-c2, -s2, hw, hh);
      CancelSide(c2 + s2, side);
      CancelSide(c2 + -s2, side);
      CancelSide(-c2 + s2, side);
      CancelSide(-c2 + -s2, side);
      OnlyAxes(c2, s2);
      if c2 == 0.0 {
        DiagonalSides(s2, hw, hh);
      }
    }
  }

  lemma Spread(a: real, b: real, x: real, y: real)
    ensures Mul(a + b, x + y) == Mul(a, x) + Mul(a, y) + Mul(b, x) + Mul(b, y)
    ensures Mul(-a, x) == -Mul(a, x) && Mul(-a, y) == -Mul(a, y) && Mul(-b, x) == -Mul(b, x) && Mul(-b, y) == -Mul(b, y)
  {
  }

  lemma DiagonalSides(s2: real, hw: real, hh: real)
    requires Mul(0.0, 0.0) + Mul(s2, s2) == 1.0
    requires Mul(s2, hh) <= hw && Mul(s2, hw) <= hh && -Mul(s2, hh) <= hw && -Mul(s2, hw) <= hh
    ensures hw == hh
  {
    MulZero(0.0);
    UnitSquare(s2);
    Unit(hw);
    Unit(hh);
  }

  lemma AxesOrDiagonal(c: real, s: real)
    ensures 2.0 * Mul(s, c) == 0.0 ==> c == 0.0 || s == 0.0
    ensures Mul(c, c) - Mul(s, s) == 0.0 ==> c == s || c == -s
  {
    if Mul(s, c) == 0.0 && s != 0.0 {
      MulCancel(s, c);
    }
    if Mul(c, c) == Mul(s, s) && c != s {
      DifferenceOfSquares(c, s);
      MulCancel(c - s, c + s);
    }
  }

  lemma DifferenceOfSquares(a: real, b: real)
    ensures Mul(a, a) - Mul(b, b) == Mul(a - b, a + b)
  {
  }

  lemma UnitSquare(a: real)
    requires Mul(a, a) == 1.0
    ensures a == 1.0 || a == -1.0
  {
    DifferenceOfSquares(a, 1.0);
    if a != 1.0 {
      MulCancel(a - 1.0, a + 1.0);
    }
  }

  /** So a tilted rectangle of unequal sides is not mirrored into the result, whatever its other fields. */
  lemma MirrorTilted(o: Obstacle)
    requires o.width == 4.0 && o.height == 2.0
    ensures !MirrorFits(o, 0.6, 0.8)
  {
    assert Mul(0.6, 0.6) + Mul(0.8, 0.8) == 1.0;
    hide MirrorFits;
    MirrorExactly(o, 0.6, 0.8);
  }
}
