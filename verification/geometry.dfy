/** Pixel-space geometry of the rasterizer: Go's float-to-int truncation, the
    triangle bounding box (`findBBox`) and the barycentric solver
    (`barycentric`), modelled over exact integers and reals. */
module Geometry {

  /** An integer pixel position (Go `image.Point`). */
  datatype Point = Point(x: int, y: int)

  /** A screen-space vertex: x, y in pixels, z a depth proxy (Go `r3.Vector`). */
  datatype Vec3 = Vec3(x: real, y: real, z: real)

  /** An integer 3-vector; the cross product of integer differences stays integral. */
  datatype IVec3 = IVec3(x: int, y: int, z: int)

  /** Barycentric weights: `u` for the first vertex, `v` the second, `w` the third. */
  datatype Weights = Weights(u: real, v: real, w: real)

  /** A half-open pixel rectangle [minX, maxX) x [minY, maxY) (Go `image.Rectangle`). */
  datatype Rect = Rect(minX: int, minY: int, maxX: int, maxY: int)

  function Abs(r: real): real {
    if r < 0.0 then -r else r
  }

  function MinR(a: real, b: real): real { if a <= b then a else b }
  function MaxR(a: real, b: real): real { if a >= b then a else b }

  function AbsI(n: int): nat { if n < 0 then -n else n }
  function MinI(a: int, b: int): int { if a <= b then a else b }
  function MaxI(a: int, b: int): int { if a >= b then a else b }

  /** Go's `int(f)` for a float `f`: rounds toward zero. */
  function Trunc(r: real): (n: int)
    ensures 0.0 <= r ==> n as real <= r < n as real + 1.0
    ensures r < 0.0 ==> n as real - 1.0 < r <= n as real
  {
    if r >= 0.0 then r.Floor else -((-r).Floor)
  }

  lemma TruncMonotone(a: real, b: real)
    requires a <= b
    ensures Trunc(a) <= Trunc(b)
  {
    if a < 0.0 && b >= 0.0 {
    } else if a >= 0.0 {
      assert a.Floor <= b.Floor;
    } else {
      assert (-b).Floor <= (-a).Floor;
    }
  }

  /** A real lying between two integers truncates to a value between them. */
  lemma TruncBetween(lo: int, r: real, hi: int)
    requires lo as real <= r <= hi as real
    ensures lo <= Trunc(r) <= hi
  {
    TruncMonotone(lo as real, r);
    TruncMonotone(r, hi as real);
    assert Trunc(lo as real) == lo;
    assert Trunc(hi as real) == hi;
  }

  /** The pixel a vertex falls on: both coordinates truncated. */
  function TruncPoint(v: Vec3): Point {
    Point(Trunc(v.x), Trunc(v.y))
  }

  /** Go's `image.Rect`: the corners are swapped where needed so min <= max. */
  function MakeRect(x0: int, y0: int, x1: int, y1: int): (r: Rect)
    ensures r.minX <= r.maxX && r.minY <= r.maxY
    ensures (r.minX == x0 && r.maxX == x1) || (r.minX == x1 && r.maxX == x0)
    ensures (r.minY == y0 && r.maxY == y1) || (r.minY == y1 && r.maxY == y0)
  {
    var (lx, hx) := if x0 > x1 then (x1, x0) else (x0, x1);
    var (ly, hy) := if y0 > y1 then (y1, y0) else (y0, y1);
    Rect(lx, ly, hx, hy)
  }

  /** Go's `findBBox`: min and max of the coordinates, each truncated toward
      zero, as an `image.Rect`. The result is the tightest integer box that
      holds the truncated vertices. */
  function BoundingBox(p0: Vec3, p1: Vec3, p2: Vec3): (box: Rect)
    ensures box.minX <= box.maxX && box.minY <= box.maxY
    ensures forall v :: v in [p0, p1, p2] ==>
              box.minX <= Trunc(v.x) <= box.maxX && box.minY <= Trunc(v.y) <= box.maxY
    ensures box.minX in {Trunc(p0.x), Trunc(p1.x), Trunc(p2.x)}
    ensures box.maxX in {Trunc(p0.x), Trunc(p1.x), Trunc(p2.x)}
    ensures box.minY in {Trunc(p0.y), Trunc(p1.y), Trunc(p2.y)}
    ensures box.maxY in {Trunc(p0.y), Trunc(p1.y), Trunc(p2.y)}
  {
    var x0 := MinR(MinR(p0.x, p1.x), p2.x);
    var x1 := MaxR(MaxR(p0.x, p1.x), p2.x);
    var y0 := MinR(MinR(p0.y, p1.y), p2.y);
    var y1 := MaxR(MaxR(p0.y, p1.y), p2.y);
    TruncMonotone(x0, p0.x); TruncMonotone(x0, p1.x); TruncMonotone(x0, p2.x);
    TruncMonotone(p0.x, x1); TruncMonotone(p1.x, x1); TruncMonotone(p2.x, x1);
    TruncMonotone(y0, p0.y); TruncMonotone(y0, p1.y); TruncMonotone(y0, p2.y);
    TruncMonotone(p0.y, y1); TruncMonotone(p1.y, y1); TruncMonotone(p2.y, y1);
    MakeRect(Trunc(x0), Trunc(y0), Trunc(x1), Trunc(y1))
  }

  /** Membership in a half-open rectangle: the pixels `for i := Min.X; i < Max.X`
      / `for j := Min.Y; j < Max.Y` enumerates. */
  predicate InRect(box: Rect, x: int, y: int) {
    box.minX <= x < box.maxX && box.minY <= y < box.maxY
  }

  /** A convex combination of three values lies between the least and the
      greatest of them. */
  lemma ConvexBetween(a: real, b: real, c: real, w: Weights)
    requires w.u >= 0.0 && w.v >= 0.0 && w.w >= 0.0 && w.u + w.v + w.w == 1.0
    ensures MinR(MinR(a, b), c) <= a * w.u + b * w.v + c * w.w
    ensures a * w.u + b * w.v + c * w.w <= MaxR(MaxR(a, b), c)
  {
    var lo := MinR(MinR(a, b), c);
    var hi := MaxR(MaxR(a, b), c);
    assert a - lo >= 0.0 && b - lo >= 0.0 && c - lo >= 0.0;
    assert hi - a >= 0.0 && hi - b >= 0.0 && hi - c >= 0.0;
    NonNegProduct(a - lo, w.u); NonNegProduct(b - lo, w.v); NonNegProduct(c - lo, w.w);
    NonNegProduct(hi - a, w.u); NonNegProduct(hi - b, w.v); NonNegProduct(hi - c, w.w);
    assert a * w.u + b * w.v + c * w.w - lo == (a - lo) * w.u + (b - lo) * w.v + (c - lo) * w.w;
    assert hi - (a * w.u + b * w.v + c * w.w) == (hi - a) * w.u + (hi - b) * w.v + (hi - c) * w.w;
  }

  /** The same, for bounds shared by the three values. */
  lemma ConvexInRange(lo: real, hi: real, a: real, b: real, c: real, w: Weights)
    requires w.u >= 0.0 && w.v >= 0.0 && w.w >= 0.0 && w.u + w.v + w.w == 1.0
    requires lo <= a <= hi && lo <= b <= hi && lo <= c <= hi
    ensures lo <= w.u * a + w.v * b + w.w * c <= hi
  {
    ConvexBetween(a, b, c, w);
    assert w.u * a + w.v * b + w.w * c == a * w.u + b * w.v + c * w.w;
  }

  lemma NonNegProduct(a: real, b: real)
    requires a >= 0.0 && b >= 0.0
    ensures a * b >= 0.0
  {
  }

  /** r3's `Cross`. */
  function Cross(a: IVec3, b: IVec3): IVec3 {
    IVec3(a.y * b.z - a.z * b.y, a.z * b.x - a.x * b.z, a.x * b.y - a.y * b.x)
  }

  /** The vector `res` the solver divides by: (y-row) x (x-row) of edge and
      point-to-vertex differences. */
  function SolverCross(p0: Point, p1: Point, p2: Point, t: Point): IVec3 {
    var xs := IVec3(p2.x - p0.x, p1.x - p0.x, p0.x - t.x);
    var ys := IVec3(p2.y - p0.y, p1.y - p0.y, p0.y - t.y);
    Cross(ys, xs)
  }

  /** Twice the signed area of a triangle by the shoelace formula; an
      independent reference for the solver's denominator. */
  function TwiceArea(p0: Point, p1: Point, p2: Point): int {
    p0.x * p1.y - p1.x * p0.y + p1.x * p2.y - p2.x * p1.y + p2.x * p0.y - p0.x * p2.y
  }

  predicate Collinear(p0: Point, p1: Point, p2: Point) {
    TwiceArea(p0, p1, p2) == 0
  }

  /** Orientation of `c` relative to the directed edge a -> b (edge function). */
  function EdgeFn(a: Point, b: Point, c: Point): int {
    (b.x - a.x) * (c.y - a.y) - (b.y - a.y) * (c.x - a.x)
  }

  /** The weights the degenerate branch returns; the first is negative. */
  const Sentinel: Weights := Weights(-1.0, 1.0, 1.0)

  /** The inclusive inside test of the scan loops: no weight is negative. */
  predicate Inside(w: Weights) {
    !(w.u < 0.0 || w.v < 0.0 || w.w < 0.0)
  }

  /** Go's `barycentric`, in exact arithmetic. A triangle whose cross-product
      z-component has magnitude below 1 (that is, zero area) gets the sentinel,
      which fails the inside test; otherwise the weights sum to one. */
  function Barycentric(p0: Point, p1: Point, p2: Point, t: Point): (w: Weights)
    ensures Collinear(p0, p1, p2) ==> w == Sentinel && !Inside(w)
    ensures !Collinear(p0, p1, p2) ==> w.u + w.v + w.w == 1.0
  {
    var res := SolverCross(p0, p1, p2, t);
    CrossParts(p0, p1, p2, t);
    if Abs(res.z as real) < 1.0 then
      Sentinel
    else
      var z := res.z as real;
      DivSum(res.x as real, res.y as real, z);
      Weights(1.0 - (res.x as real + res.y as real) / z, res.y as real / z, res.x as real / z)
  }

  /** For a triangle of nonzero area the weights recombine the vertices into
      the test point: they are its barycentric coordinates. */
  lemma BarycentricRecombines(p0: Point, p1: Point, p2: Point, t: Point) returns (w: Weights)
    requires !Collinear(p0, p1, p2)
    ensures w == Barycentric(p0, p1, p2, t)
    ensures w.u * p0.x as real + w.v * p1.x as real + w.w * p2.x as real == t.x as real
    ensures w.u * p0.y as real + w.v * p1.y as real + w.w * p2.y as real == t.y as real
  {
    w := Barycentric(p0, p1, p2, t);
    var res := SolverCross(p0, p1, p2, t);
    CrossParts(p0, p1, p2, t);
    var z := res.z as real;
    assert Barycentric(p0, p1, p2, t)
           == Weights(1.0 - (res.x as real + res.y as real) / z, res.y as real / z, res.x as real / z);
    Recombine(p0, p1, p2, t);
  }

  /** The components of the solver's cross product are edge functions; its
      z-component is twice the signed area, so it does not depend on the test
      point and vanishes exactly on collinear vertices. */
  lemma CrossParts(p0: Point, p1: Point, p2: Point, t: Point)
    ensures SolverCross(p0, p1, p2, t).z == TwiceArea(p0, p1, p2) == EdgeFn(p0, p1, p2)
    ensures SolverCross(p0, p1, p2, t).x == EdgeFn(p0, p1, t)
    ensures SolverCross(p0, p1, p2, t).y == EdgeFn(p2, p0, t)
    ensures TwiceArea(p0, p1, p2) - SolverCross(p0, p1, p2, t).x - SolverCross(p0, p1, p2, t).y
            == EdgeFn(p1, p2, t)
    ensures Abs(SolverCross(p0, p1, p2, t).z as real) < 1.0 <==> Collinear(p0, p1, p2)
  {
  }

  lemma CrossZ(p0: Point, p1: Point, p2: Point, t: Point)
    ensures SolverCross(p0, p1, p2, t).z == TwiceArea(p0, p1, p2)
  {
  }

  /** The integer identities behind the recombination of the test point. */
  lemma RecombineInt(p0: Point, p1: Point, p2: Point, t: Point)
    ensures var res := SolverCross(p0, p1, p2, t);
            res.y * (p1.x - p0.x) + res.x * (p2.x - p0.x) == (t.x - p0.x) * res.z
    ensures var res := SolverCross(p0, p1, p2, t);
            res.y * (p1.y - p0.y) + res.x * (p2.y - p0.y) == (t.y - p0.y) * res.z
  {
  }

  lemma Recombine(p0: Point, p1: Point, p2: Point, t: Point)
    requires !Collinear(p0, p1, p2)
    ensures var res := SolverCross(p0, p1, p2, t);
            var z := res.z as real;
            var w := Weights(1.0 - (res.x as real + res.y as real) / z, res.y as real / z, res.x as real / z);
            && w.u + w.v + w.w == 1.0
            && w.u * p0.x as real + w.v * p1.x as real + w.w * p2.x as real == t.x as real
            && w.u * p0.y as real + w.v * p1.y as real + w.w * p2.y as real == t.y as real
  {
    var res := SolverCross(p0, p1, p2, t);
    CrossZ(p0, p1, p2, t);
    RecombineInt(p0, p1, p2, t);
    RecombineWeights(res.x, res.y, res.z, p0, p1, p2, t);
  }

  /** `Recombine` over the three components of the cross product as plain
      integers. */
  lemma RecombineWeights(rx: int, ry: int, rz: int, p0: Point, p1: Point, p2: Point, t: Point)
    requires rz != 0
    requires ry * (p1.x - p0.x) + rx * (p2.x - p0.x) == (t.x - p0.x) * rz
    requires ry * (p1.y - p0.y) + rx * (p2.y - p0.y) == (t.y - p0.y) * rz
    ensures var z := rz as real;
            var w := Weights(1.0 - (rx as real + ry as real) / z, ry as real / z, rx as real / z);
            && w.u + w.v + w.w == 1.0
            && w.u * p0.x as real + w.v * p1.x as real + w.w * p2.x as real == t.x as real
            && w.u * p0.y as real + w.v * p1.y as real + w.w * p2.y as real == t.y as real
  {
    var z := rz as real;
    DivSum(rx as real, ry as real, z);
    AxisFromInt(p0.x, p1.x, p2.x, t.x, rx, ry, rz);
    AxisFromInt(p0.y, p1.y, p2.y, t.y, rx, ry, rz);
  }

  /** Division distributes over a sum. */
  lemma DivSum(a: real, b: real, z: real)
    requires z != 0.0
    ensures (a + b) / z == a / z + b / z
  {
  }

  lemma CastMul(a: int, b: int)
    ensures (a * b) as real == a as real * b as real
  {
  }

  /** One coordinate of the recombination, lifted from the integer identity. */
  lemma AxisFromInt(c0: int, c1: int, c2: int, tc: int, rx: int, ry: int, z: int)
    requires z != 0
    requires ry * (c1 - c0) + rx * (c2 - c0) == (tc - c0) * z
    ensures (1.0 - (rx as real / z as real + ry as real / z as real)) * c0 as real
            + (ry as real / z as real) * c1 as real + (rx as real / z as real) * c2 as real == tc as real
  {
    CastMul(ry, c1 - c0);
    CastMul(rx, c2 - c0);
    CastMul(tc - c0, z);
    RecombineAxis(c0 as real, c1 as real, c2 as real, tc as real, rx as real, ry as real, z as real);
  }

  lemma RecombineAxis(c0: real, c1: real, c2: real, tc: real, rx: real, ry: real, z: real)
    requires z != 0.0
    requires ry * (c1 - c0) + rx * (c2 - c0) == (tc - c0) * z
    ensures (1.0 - (rx / z + ry / z)) * c0 + (ry / z) * c1 + (rx / z) * c2 == tc
  {
    var a := rx / z;
    var b := ry / z;
    calc {
      (1.0 - (a + b)) * c0 + b * c1 + a * c2;
      c0 + b * (c1 - c0) + a * (c2 - c0);
      c0 + (ry * (c1 - c0) + rx * (c2 - c0)) / z;
      c0 + ((tc - c0) * z) / z;
      tc;
    }
  }

  /** The sign of a quotient. */
  lemma QuotientSign(a: real, z: real)
    requires z != 0.0
    ensures a / z >= 0.0 <==> (z > 0.0 && a >= 0.0) || (z < 0.0 && a <= 0.0)
  {
    var q := a / z;
    assert q * z == a;
    if z > 0.0 {
      if q < 0.0 { assert q * z < 0.0; }
    } else {
      if q < 0.0 { assert q * z > 0.0; }
    }
  }

  /** The independent reference for the inside test: the point lies on the
      inner side of (or on) all three directed edges of a triangle of nonzero
      area. */
  predicate HalfPlaneInside(p0: Point, p1: Point, p2: Point, t: Point) {
    var a := EdgeFn(p0, p1, p2);
    var e0 := EdgeFn(p1, p2, t);
    var e1 := EdgeFn(p2, p0, t);
    var e2 := EdgeFn(p0, p1, t);
    (a > 0 && e0 >= 0 && e1 >= 0 && e2 >= 0) || (a < 0 && e0 <= 0 && e1 <= 0 && e2 <= 0)
  }

  /** The barycentric inside test (edges inclusive) selects exactly the pixels
      the edge-function rasterizer selects, degenerate triangles included. */
  lemma InsideIffHalfPlanes(p0: Point, p1: Point, p2: Point, t: Point)
    ensures Inside(Barycentric(p0, p1, p2, t)) <==> HalfPlaneInside(p0, p1, p2, t)
  {
    CrossParts(p0, p1, p2, t);
    if !Collinear(p0, p1, p2) {
      var res := SolverCross(p0, p1, p2, t);
      assert Barycentric(p0, p1, p2, t)
          == Weights(1.0 - (res.x as real + res.y as real) / res.z as real,
                     res.y as real / res.z as real, res.x as real / res.z as real);
      InsideSigns(res.x, res.y, res.z);
    }
  }

  /** Sign analysis of the non-degenerate weights, over the cross product's
      integer components. */
  lemma InsideSigns(ex: int, ey: int, z: int)
    requires z != 0
    ensures var w := Weights(1.0 - (ex as real + ey as real) / z as real, ey as real / z as real, ex as real / z as real);
            var e0 := z - ex - ey;
            Inside(w) <==> (z > 0 && e0 >= 0 && ey >= 0 && ex >= 0) || (z < 0 && e0 <= 0 && ey <= 0 && ex <= 0)
  {
    var zr := z as real;
    var e0 := z - ex - ey;
    FirstWeight(ex as real, ey as real, zr);
    QuotientSign(e0 as real, zr);
    QuotientSign(ex as real, zr);
    QuotientSign(ey as real, zr);
  }

  lemma FirstWeight(ex: real, ey: real, z: real)
    requires z != 0.0
    ensures 1.0 - (ex + ey) / z == (z - ex - ey) / z
  {
    calc {
      (z - ex - ey) / z;
      z / z - (ex + ey) / z;
      1.0 - (ex + ey) / z;
    }
  }
}
