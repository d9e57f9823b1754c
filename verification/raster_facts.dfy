/** Properties of drawing triangles through the depth test: what one draw
    can change, repeated and reordered draws, degenerate triangles, and the
    effect of the half-open scan box. */
module RasterFacts {
  import opened MachineInt
  import opened Geometry
  import opened FrameBuffer
  import opened Raster

  /** A covered pixel lies in the closed box of the truncated vertices, so the
      half-open scan can only miss covered pixels on its last column or row. */
  lemma CoveredInClosedBox(t: Triangle, x: int, y: int)
    requires Covered(t, x, y)
    ensures Box(t).minX <= x <= Box(t).maxX && Box(t).minY <= y <= Box(t).maxY
    ensures Selected(t, x, y) <==> x < Box(t).maxX && y < Box(t).maxY
  {
    var p0, p1, p2, w := CoveredWeights(t, x, y);
    var box := BoxHoldsCorners(t);
    WeightsInClosedBox(p0, p1, p2, w, x, y, box);
  }

  /** The weights of a covered pixel are a convex combination that rebuilds
      the pixel from the truncated vertices. */
  lemma CoveredWeights(t: Triangle, x: int, y: int) returns (p0: Point, p1: Point, p2: Point, w: Weights)
    requires Covered(t, x, y)
    ensures p0 == TruncPoint(t.v0) && p1 == TruncPoint(t.v1) && p2 == TruncPoint(t.v2) && w == WeightsAt(t, x, y)
    ensures w.u >= 0.0 && w.v >= 0.0 && w.w >= 0.0 && w.u + w.v + w.w == 1.0
    ensures w.u * p0.x as real + w.v * p1.x as real + w.w * p2.x as real == x as real
    ensures w.u * p0.y as real + w.v * p1.y as real + w.w * p2.y as real == y as real
  {
    p0, p1, p2 := TruncPoint(t.v0), TruncPoint(t.v1), TruncPoint(t.v2);
    assert Inside(Barycentric(p0, p1, p2, Point(x, y)));
    w := BarycentricRecombines(p0, p1, p2, Point(x, y));
  }

  /** The convexity step: nonnegative weights summing to
      one that rebuild (x, y) from three corners of a closed box keep (x, y)
      in that box. */
  lemma WeightsInClosedBox(p0: Point, p1: Point, p2: Point, w: Weights, x: int, y: int, box: Rect)
    requires w.u >= 0.0 && w.v >= 0.0 && w.w >= 0.0 && w.u + w.v + w.w == 1.0
    requires box.minX <= p0.x <= box.maxX && box.minX <= p1.x <= box.maxX && box.minX <= p2.x <= box.maxX
    requires box.minY <= p0.y <= box.maxY && box.minY <= p1.y <= box.maxY && box.minY <= p2.y <= box.maxY
    requires w.u * p0.x as real + w.v * p1.x as real + w.w * p2.x as real == x as real
    requires w.u * p0.y as real + w.v * p1.y as real + w.w * p2.y as real == y as real
    ensures box.minX <= x <= box.maxX && box.minY <= y <= box.maxY
  {
    BetweenVertices(box.minX, box.maxX, p0.x, p1.x, p2.x, w, x);
    BetweenVertices(box.minY, box.maxY, p0.y, p1.y, p2.y, w, y);
  }

  /** The truncated vertices lie in the triangle's closed box. */
  lemma BoxHoldsCorners(t: Triangle) returns (box: Rect)
    ensures box == Box(t)
    ensures var p0, p1, p2 := TruncPoint(t.v0), TruncPoint(t.v1), TruncPoint(t.v2);
            && box.minX <= p0.x <= box.maxX && box.minX <= p1.x <= box.maxX && box.minX <= p2.x <= box.maxX
            && box.minY <= p0.y <= box.maxY && box.minY <= p1.y <= box.maxY && box.minY <= p2.y <= box.maxY
  {
    box := Box(t);
    var vs := [t.v0, t.v1, t.v2];
    assert t.v0 in vs && t.v1 in vs && t.v2 in vs;
  }

  /** An integer that is a convex combination of three integers in [lo, hi]
      is in [lo, hi] too. */
  lemma BetweenVertices(lo: int, hi: int, a: int, b: int, c: int, w: Weights, x: int)
    requires w.u >= 0.0 && w.v >= 0.0 && w.w >= 0.0 && w.u + w.v + w.w == 1.0
    requires lo <= a <= hi && lo <= b <= hi && lo <= c <= hi
    requires w.u * a as real + w.v * b as real + w.w * c as real == x as real
    ensures lo <= x <= hi
  {
    ConvexInRange(lo as real, hi as real, a as real, b as real, c as real, w);
  }

  /** A triangle whose truncated vertices are collinear covers no pixel, so
      drawing it changes nothing. */
  lemma DegenerateDrawsNothing(r: Renderer, t: Triangle, shade: Weights -> Color)
    requires r.Valid() && DepthsInRange(t) && Degenerate(t)
    ensures forall x, y :: !Covered(t, x, y)
    ensures Paint(r, t, shade) == r
  {
    SameRenderer(Paint(r, t, shade), r);
  }

  /** Drawing one triangle never lowers a depth, changes only selected pixels,
      and leaves each selected pixel at least as deep as the triangle there. */
  lemma PaintMonotone(r: Renderer, t: Triangle, shade: Weights -> Color)
    requires r.Valid() && DepthsInRange(t)
    ensures var out := Paint(r, t, shade);
            forall x, y :: 0 <= x < r.width && 0 <= y < r.height ==>
              && out.zbuf[x][y] >= r.zbuf[x][y]
              && (out.zbuf[x][y] != r.zbuf[x][y] ==> Selected(t, x, y) && out.zbuf[x][y] == Depth(t, x, y))
              && (Selected(t, x, y) ==> out.zbuf[x][y] >= Depth(t, x, y))
    ensures var out := Paint(r, t, shade);
            forall x, row :: 0 <= x < r.width && 0 <= row < r.height && out.img[x][row] != r.img[x][row] ==>
              && 0 < row && Selected(t, x, r.height - row)
              && out.zbuf[x][r.height - row] == Depth(t, x, r.height - row)
              && out.img[x][row] == shade(WeightsAt(t, x, r.height - row))
  {
  }

  /** Drawing the same triangle again with the same depths changes nothing:
      the strict depth test rejects equal depths. */
  lemma PaintIdempotent(r: Renderer, t: Triangle, shade: Weights -> Color)
    requires r.Valid() && DepthsInRange(t)
    ensures Paint(Paint(r, t, shade), t, shade) == Paint(r, t, shade)
  {
    var once := Paint(r, t, shade);
    var twice := Paint(once, t, shade);
    forall x, row | 0 <= x < r.width && 0 <= row < r.height
      ensures twice.img[x][row] == once.img[x][row]
    {
      if 0 < row {
        assert !Wins(once, t, x, r.height - row);
      }
    }
    SameRenderer(twice, once);
  }

  /** The depth-buffer result does not depend on the colour source: the flat
      and the textured scans select the same pixels with the same depths, and
      their images differ only on pixels the triangle won. */
  lemma ShadeIndependent(r: Renderer, t: Triangle, s1: Weights -> Color, s2: Weights -> Color)
    requires r.Valid() && DepthsInRange(t)
    ensures Paint(r, t, s1).zbuf == Paint(r, t, s2).zbuf
    ensures forall x, row ::
              (0 <= x < r.width && 0 <= row < r.height && Paint(r, t, s1).img[x][row] != Paint(r, t, s2).img[x][row])
              ==> 0 < row && Wins(r, t, x, r.height - row)
  {
    var a := Paint(r, t, s1);
    var b := Paint(r, t, s2);
    forall x | 0 <= x < r.width
      ensures a.zbuf[x] == b.zbuf[x]
    {
    }
  }

  /** The final depth buffer does not depend on the order two triangles are
      drawn in: each entry ends as the largest depth offered. */
  lemma DepthOrderIndependent(r: Renderer, a: Triangle, b: Triangle, sa: Weights -> Color, sb: Weights -> Color)
    requires r.Valid() && DepthsInRange(a) && DepthsInRange(b)
    ensures Paint(Paint(r, a, sa), b, sb).zbuf == Paint(Paint(r, b, sb), a, sa).zbuf
  {
    var ab := Paint(Paint(r, a, sa), b, sb);
    var ba := Paint(Paint(r, b, sb), a, sa);
    forall x | 0 <= x < r.width
      ensures ab.zbuf[x] == ba.zbuf[x]
    {
    }
  }

  /** The nearer triangle (larger depth) wins wherever two triangles overlap,
      whichever is drawn first: if `b` is strictly deeper than `a` on every
      shared pixel, both orders give the same image. */
  lemma ColourOrderIndependent(r: Renderer, a: Triangle, b: Triangle, sa: Weights -> Color, sb: Weights -> Color)
    requires r.Valid() && DepthsInRange(a) && DepthsInRange(b)
    requires forall x, y :: Selected(a, x, y) && Selected(b, x, y) ==> Depth(a, x, y) < Depth(b, x, y)
    ensures Paint(Paint(r, a, sa), b, sb) == Paint(Paint(r, b, sb), a, sa)
  {
    var ab := Paint(Paint(r, a, sa), b, sb);
    var ba := Paint(Paint(r, b, sb), a, sa);
    DepthOrderIndependent(r, a, b, sa, sb);
    forall x | 0 <= x < r.width
      ensures ab.img[x] == ba.img[x]
    {
      forall row | 0 <= row < r.height
        ensures ab.img[x][row] == ba.img[x][row]
      {
        ColourOrderAt(r, a, b, sa, sb, x, row);
      }
    }
    assert ab.img == ba.img;
  }

  /** The image pixel at column x, row `row` under both orders. */
  lemma ColourOrderAt(r: Renderer, a: Triangle, b: Triangle, sa: Weights -> Color, sb: Weights -> Color, x: int, row: int)
    requires r.Valid() && DepthsInRange(a) && DepthsInRange(b)
    requires forall x, y :: Selected(a, x, y) && Selected(b, x, y) ==> Depth(a, x, y) < Depth(b, x, y)
    requires 0 <= x < r.width && 0 <= row < r.height
    ensures Paint(Paint(r, a, sa), b, sb).img[x][row] == Paint(Paint(r, b, sb), a, sa).img[x][row]
  {
    if 0 < row {
      var y := r.height - row;
      var ra, rb := Paint(r, a, sa), Paint(r, b, sb);
      var selA, da, ca := PixelAfter(r, a, sa, x, y, row);
      var selB, db, cb := PixelAfter(r, b, sb, x, y, row);
      var selB', db', cb' := PixelAfter(ra, b, sb, x, y, row);
      var selA', da', ca' := PixelAfter(rb, a, sa, x, y, row);
      assert selA' == selA && selB' == selB && da' == da && db' == db;
      PixelOrder(selA, selB, r.zbuf[x][y], da, db, ra.zbuf[x][y], rb.zbuf[x][y], ca, cb, r.img[x][row],
                 ra.img[x][row], rb.img[x][row], Paint(ra, b, sb).img[x][row], Paint(rb, a, sa).img[x][row]);
    }
  }

  /** What one draw does to pixel (x, height - row), over plain values: whether
      it is selected, its depth and its colour. */
  lemma PixelAfter(r: Renderer, t: Triangle, shade: Weights -> Color, x: int, y: int, row: int)
    returns (sel: bool, d: int, c: Color)
    requires r.Valid() && DepthsInRange(t) && 0 <= x < r.width && 0 < row < r.height && y == r.height - row
    ensures sel == Selected(t, x, y)
    ensures sel ==> d == Depth(t, x, y)
    ensures !sel ==> d == 0
    ensures c == shade(WeightsAt(t, x, y))
    ensures Paint(r, t, shade).zbuf[x][y] == (if sel then MaxI(r.zbuf[x][y], d) else r.zbuf[x][y])
    ensures Paint(r, t, shade).img[x][row] == (if sel && d > r.zbuf[x][y] then c else r.img[x][row])
  {
    sel := Selected(t, x, y);
    d := if sel then Depth(t, x, y) else 0;
    c := shade(WeightsAt(t, x, y));
  }

  /** One pixel under two draws, over plain values: with `b` strictly deeper
      wherever both are selected, the final colour does not depend on the
      order, and it is `b`'s exactly when `b` beats the initial depth. */
  lemma PixelOrder<C>(selA: bool, selB: bool, z0: int, da: int, db: int, za: int, zb: int,
                      ca: C, cb: C, c0: C, imgA: C, imgB: C, ab: C, ba: C)
    requires selA && selB ==> da < db
    requires za == (if selA then MaxI(z0, da) else z0)
    requires zb == (if selB then MaxI(z0, db) else z0)
    requires imgA == (if selA && da > z0 then ca else c0)
    requires imgB == (if selB && db > z0 then cb else c0)
    requires ab == (if selB && db > za then cb else imgA)
    requires ba == (if selA && da > zb then ca else imgB)
    ensures ab == ba
    ensures ab == (if selB && db > z0 then cb else if selA && da > z0 then ca else c0)
  {
  }

  /** On a fresh renderer every selected pixel records exactly the
      triangle's depth, and its image row (when inside the image) takes the
      triangle's colour unless that depth is `MinInt`. */
  lemma FreshCanvas(width: nat, height: nat, t: Triangle, shade: Weights -> Color)
    requires DepthsInRange(t)
    ensures var out := Paint(NewRenderer(width, height), t, shade);
            forall x, y :: 0 <= x < width && 0 <= y < height ==>
              out.zbuf[x][y] == (if Selected(t, x, y) then Depth(t, x, y) else MinInt)
    ensures var out := Paint(NewRenderer(width, height), t, shade);
            forall x, row :: 0 <= x < width && 0 < row < height ==>
              out.img[x][row] == (if Selected(t, x, height - row) && Depth(t, x, height - row) > MinInt
                                  then shade(WeightsAt(t, x, height - row)) else Black)
  {
  }

  /** A right triangle with legs of 40 pixels at depth 5. */
  const Right: Triangle := Triangle(Vec3(10.0, 10.0, 5.0), Vec3(50.0, 10.0, 5.0), Vec3(10.0, 50.0, 5.0))

  /** Its covered pixels are exactly those on or inside its three edges,
      hypotenuse included. */
  lemma RightCoverage(x: int, y: int)
    ensures Covered(Right, x, y) <==> 10 <= x && 10 <= y && x + y <= 60
  {
    assert TruncPoint(Right.v0) == Point(10, 10);
    assert TruncPoint(Right.v1) == Point(50, 10);
    assert TruncPoint(Right.v2) == Point(10, 50);
    InsideIffHalfPlanes(Point(10, 10), Point(50, 10), Point(10, 50), Point(x, y));
  }

  /** The pixels of `Right` the scan submits: covered, and inside the
      half-open box [10, 50) x [10, 50). */
  predicate RightDrawn(x: int, y: int) {
    10 <= x < 50 && 10 <= y < 50 && x + y <= 60
  }

  /** The scan submits exactly the `RightDrawn` pixels of `Right`, each at
      depth 5. */
  lemma RightSelected(x: int, y: int)
    ensures Selected(Right, x, y) <==> RightDrawn(x, y)
    ensures Selected(Right, x, y) ==> Depth(Right, x, y) == 5
  {
    assert TruncPoint(Right.v0) == Point(10, 10);
    assert TruncPoint(Right.v1) == Point(50, 10);
    assert TruncPoint(Right.v2) == Point(10, 50);
    RightCoverage(x, y);
    if Selected(Right, x, y) {
      assert 5 <= Depth(Right, x, y) <= 5;
    }
  }

  /** Drawn in colour `c` on a fresh 100 x 100 canvas, the z-buffer holds 5
      exactly on the covered pixels of the box [10, 50) x [10, 50), and the
      image is `c` exactly at their rows `100 - y` and black everywhere else;
      the covered vertex (50, 10) lies on the box's excluded column and is
      never drawn. */
  lemma RightOnFreshCanvas(c: Color)
    ensures Box(Right) == Rect(10, 10, 50, 50)
    ensures Covered(Right, 50, 10) && !Selected(Right, 50, 10)
    ensures var out := Paint(NewRenderer(100, 100), Right, Flat(c));
            forall x, y :: 0 <= x < 100 && 0 <= y < 100 ==>
              out.zbuf[x][y] == (if RightDrawn(x, y) then 5 else MinInt)
    ensures var out := Paint(NewRenderer(100, 100), Right, Flat(c));
            forall x, row :: 0 <= x < 100 && 0 <= row < 100 ==>
              out.img[x][row] == (if RightDrawn(x, 100 - row) then c else Black)
  {
    assert TruncPoint(Right.v0) == Point(10, 10);
    assert TruncPoint(Right.v1) == Point(50, 10);
    assert TruncPoint(Right.v2) == Point(10, 50);
    RightCoverage(50, 10);
    RightDepths(c);
    RightColours(c);
  }

  lemma RightDepths(c: Color)
    ensures var out := Paint(NewRenderer(100, 100), Right, Flat(c));
            forall x, y :: 0 <= x < 100 && 0 <= y < 100 ==>
              out.zbuf[x][y] == (if RightDrawn(x, y) then 5 else MinInt)
  {
    var r := NewRenderer(100, 100);
    var out := Paint(r, Right, Flat(c));
    forall x, y | 0 <= x < 100 && 0 <= y < 100
      ensures out.zbuf[x][y] == (if RightDrawn(x, y) then 5 else MinInt)
    {
      RightSelected(x, y);
      assert out.zbuf[x][y] == DepthAfter(r, Right, x, y);
    }
  }

  lemma RightColours(c: Color)
    ensures var out := Paint(NewRenderer(100, 100), Right, Flat(c));
            forall x, row :: 0 <= x < 100 && 0 <= row < 100 ==>
              out.img[x][row] == (if RightDrawn(x, 100 - row) then c else Black)
  {
    var r := NewRenderer(100, 100);
    var out := Paint(r, Right, Flat(c));
    forall x, row | 0 <= x < 100 && 0 <= row < 100
      ensures out.img[x][row] == (if RightDrawn(x, 100 - row) then c else Black)
    {
      assert out.img[x][row] == ColourAfter(r, Right, Flat(c), x, row);
      if 0 < row {
        RightSelected(x, 100 - row);
      }
    }
  }
}
