/** Triangle rasterization (Go `VecTriangle` and `TexturedTriangle`): scan the
    bounding box, keep the pixels whose barycentric weights are all
    non-negative, interpolate depth and write through `blSet`. The two Go
    functions differ only in where the colour comes from, so one scan is
    parameterised by a shading function of the pixel's weights. */
module Raster {
  import opened MachineInt
  import opened Geometry
  import opened FrameBuffer

  /** Three screen-space vertices (the `[]r3.Vector` argument). */
  datatype Triangle = Triangle(v0: Vec3, v1: Vec3, v2: Vec3)

  function Box(t: Triangle): Rect {
    BoundingBox(t.v0, t.v1, t.v2)
  }

  /** The truncated vertices the solver works with are collinear. */
  predicate Degenerate(t: Triangle) {
    Collinear(TruncPoint(t.v0), TruncPoint(t.v1), TruncPoint(t.v2))
  }

  /** The weights of pixel (x, y), from the truncated vertices. */
  function WeightsAt(t: Triangle, x: int, y: int): Weights {
    Barycentric(TruncPoint(t.v0), TruncPoint(t.v1), TruncPoint(t.v2), Point(x, y))
  }

  /** The pixel passes the inclusive inside test. */
  predicate Covered(t: Triangle, x: int, y: int) {
    Inside(WeightsAt(t, x, y))
  }

  /** The pixel is submitted to the depth test: scanned and covered. */
  predicate Selected(t: Triangle, x: int, y: int) {
    InRect(Box(t), x, y) && Covered(t, x, y)
  }

  /** Go's float-to-int conversion of the interpolated depth is only defined
      inside the 64-bit range; vertex depths there keep every interpolated
      depth there too. */
  predicate DepthsInRange(t: Triangle) {
    && MinInt as real <= t.v0.z <= MaxInt as real
    && MinInt as real <= t.v1.z <= MaxInt as real
    && MinInt as real <= t.v2.z <= MaxInt as real
  }

  function MinZ(t: Triangle): real { MinR(MinR(t.v0.z, t.v1.z), t.v2.z) }
  function MaxZ(t: Triangle): real { MaxR(MaxR(t.v0.z, t.v1.z), t.v2.z) }

  /** `α·z0 + β·z1 + γ·z2`: the weights applied to the vertex depths. */
  function Interpolate(t: Triangle, w: Weights): real {
    t.v0.z * w.u + t.v1.z * w.v + t.v2.z * w.w
  }

  /** The depth submitted for a covered pixel: `int(α·z0 + β·z1 + γ·z2)`. It
      lies between the truncated least and greatest vertex depths. */
  function Depth(t: Triangle, x: int, y: int): (d: Int64)
    requires DepthsInRange(t) && Covered(t, x, y)
    ensures Trunc(MinZ(t)) <= d <= Trunc(MaxZ(t))
  {
    var w := WeightsAt(t, x, y);
    InterpolateBetween(t, w);
    Trunc(Interpolate(t, w))
  }

  /** Weights of a covered pixel keep the interpolated depth, truncated,
      between the truncated least and greatest vertex depths. */
  lemma InterpolateBetween(t: Triangle, w: Weights)
    requires DepthsInRange(t)
    requires w.u >= 0.0 && w.v >= 0.0 && w.w >= 0.0 && w.u + w.v + w.w == 1.0
    ensures MinInt <= Trunc(MinZ(t)) <= Trunc(Interpolate(t, w)) <= Trunc(MaxZ(t)) <= MaxInt
  {
    var lo, z, hi := MinZ(t), Interpolate(t, w), MaxZ(t);
    ConvexBetween(t.v0.z, t.v1.z, t.v2.z, w);
    assert lo <= z <= hi;
    TruncOrdered(lo, z, hi);
  }

  lemma TruncOrdered(lo: real, z: real, hi: real)
    requires MinInt as real <= lo <= z <= hi <= MaxInt as real
    ensures MinInt <= Trunc(lo) <= Trunc(z) <= Trunc(hi) <= MaxInt
  {
    TruncMonotone(lo, z);
    TruncMonotone(z, hi);
    TruncBetween(MinInt, lo, MaxInt);
    TruncBetween(MinInt, hi, MaxInt);
  }

  /** Every selected pixel has a z-buffer entry: Go indexes `ZBuf[x][y]`
      without clamping and panics otherwise. */
  ghost predicate Fits(r: Renderer, t: Triangle) {
    forall x, y :: Selected(t, x, y) ==> 0 <= x < r.width && 0 <= y < r.height
  }

  /** The selected pixel beats the depth already recorded there. */
  predicate Wins(r: Renderer, t: Triangle, x: int, y: int)
    requires r.Valid() && DepthsInRange(t) && 0 <= x < r.width && 0 <= y < r.height
  {
    Selected(t, x, y) && Depth(t, x, y) > r.zbuf[x][y]
  }

  /** The depth recorded at (x, y) once the triangle is drawn. */
  function DepthAfter(r: Renderer, t: Triangle, x: int, y: int): Int64
    requires r.Valid() && DepthsInRange(t) && 0 <= x < r.width && 0 <= y < r.height
  {
    if Selected(t, x, y) then MaxI(r.zbuf[x][y], Depth(t, x, y)) else r.zbuf[x][y]
  }

  /** The colour at image (x, row) once the triangle is drawn; row `row` shows
      pixel y = height - row, and row 0 shows no pixel of the z-buffer. */
  function ColourAfter(r: Renderer, t: Triangle, shade: Weights -> Color, x: int, row: int): Color
    requires r.Valid() && DepthsInRange(t) && 0 <= x < r.width && 0 <= row < r.height
  {
    if 0 < row && Wins(r, t, x, r.height - row) then shade(WeightsAt(t, x, r.height - row))
    else r.img[x][row]
  }

  /** The declarative reference for drawing one triangle: each selected pixel
      is depth-tested once against the depth it had before the triangle. */
  function Paint(r: Renderer, t: Triangle, shade: Weights -> Color): (out: Renderer)
    requires r.Valid() && DepthsInRange(t)
    ensures out.Valid() && out.width == r.width && out.height == r.height
    ensures forall x, y :: 0 <= x < r.width && 0 <= y < r.height ==>
              out.zbuf[x][y] == DepthAfter(r, t, x, y)
    ensures forall x, row :: 0 <= x < r.width && 0 <= row < r.height ==>
              out.img[x][row] == ColourAfter(r, t, shade, x, row)
  {
    Renderer(r.width, r.height,
             seq(r.width, x requires 0 <= x < r.width =>
                   seq(r.height, y requires 0 <= y < r.height => DepthAfter(r, t, x, y))),
             seq(r.width, x requires 0 <= x < r.width =>
                   seq(r.height, row requires 0 <= row < r.height => ColourAfter(r, t, shade, x, row))))
  }

  /** Two valid renderers of one size that agree on every entry are equal. */
  lemma SameRenderer(a: Renderer, b: Renderer)
    requires a.Valid() && b.Valid() && a.width == b.width && a.height == b.height
    requires forall x, y :: 0 <= x < a.width && 0 <= y < a.height ==> a.zbuf[x][y] == b.zbuf[x][y]
    requires forall x, y :: 0 <= x < a.width && 0 <= y < a.height ==> a.img[x][y] == b.img[x][y]
    ensures a == b
  {
    forall x | 0 <= x < a.width
      ensures a.zbuf[x] == b.zbuf[x] && a.img[x] == b.img[x]
    {
    }
  }

  /** Scan order: column by column, bottom to top within a column. */
  predicate ScanBefore(p: Point, q: Point) {
    p.x < q.x || (p.x == q.x && p.y < q.y)
  }

  /** The pixels the nested loops have visited before reaching (i, j). */
  predicate Done(box: Rect, i: int, j: int, x: int, y: int) {
    (box.minX <= x < i && box.minY <= y < box.maxY) || (x == i && box.minY <= y < j)
  }

  /** The state after the scan has visited exactly the pixels before (i, j). */
  ghost predicate PaintedUpTo(r: Renderer, t: Triangle, shade: Weights -> Color, cur: Renderer, i: int, j: int)
    requires r.Valid() && DepthsInRange(t)
  {
    && cur.Valid() && cur.width == r.width && cur.height == r.height
    && (forall x, y :: 0 <= x < r.width && 0 <= y < r.height ==>
          cur.zbuf[x][y] == (if Done(Box(t), i, j, x, y) then DepthAfter(r, t, x, y) else r.zbuf[x][y]))
    && (forall x, row :: 0 <= x < r.width && 0 <= row < r.height ==>
          cur.img[x][row] == (if 0 < row && Done(Box(t), i, j, x, r.height - row)
                              then ColourAfter(r, t, shade, x, row) else r.img[x][row]))
  }

  /** The scan has finished the columns before `i`: the state holds their
      pixels' results, and `visited` lists their pixels in scan order. */
  ghost predicate ColumnsDone(r: Renderer, t: Triangle, shade: Weights -> Color, cur: Renderer,
                              visited: seq<Point>, i: int)
    requires r.Valid() && DepthsInRange(t)
  {
    && PaintedUpTo(r, t, shade, cur, i, Box(t).minY)
    && (forall p :: p in visited <==> Done(Box(t), i, Box(t).minY, p.x, p.y))
    && (forall a, b :: 0 <= a < b < |visited| ==> ScanBefore(visited[a], visited[b]))
    && |visited| == (i - Box(t).minX) * (Box(t).maxY - Box(t).minY)
  }

  /** The shared scan of `VecTriangle` and `TexturedTriangle`. It returns the
      drawn state and the pixels visited in order: every pixel of the half-open
      bounding box exactly once, in scan order, nothing else. */
  method FillTriangle(r: Renderer, t: Triangle, shade: Weights -> Color) returns (out: Renderer, visited: seq<Point>)
    requires r.Valid() && DepthsInRange(t) && Fits(r, t)
    ensures out == Paint(r, t, shade)
    ensures forall p :: p in visited <==> InRect(Box(t), p.x, p.y)
    ensures forall a, b :: 0 <= a < b < |visited| ==> ScanBefore(visited[a], visited[b])
    ensures |visited| == (Box(t).maxX - Box(t).minX) * (Box(t).maxY - Box(t).minY)
  {
    var box := BoundingBox(t.v0, t.v1, t.v2);
    out := r;
    visited := [];
    ScanStart(r, t, shade);
    var i := box.minX;
    while i < box.maxX
      invariant box.minX <= i <= box.maxX
      invariant ColumnsDone(r, t, shade, out, visited, i)
    {
      out, visited := NextColumn(r, t, shade, out, visited, i);
      i := i + 1;
    }
    ScanComplete(r, t, shade, out, visited);
  }

  /** After the last column the state is the reference drawing and the
      visited pixels are the whole box. */
  lemma ScanComplete(r: Renderer, t: Triangle, shade: Weights -> Color, cur: Renderer, visited: seq<Point>)
    requires r.Valid() && DepthsInRange(t)
    requires ColumnsDone(r, t, shade, cur, visited, Box(t).maxX)
    ensures cur == Paint(r, t, shade)
    ensures forall p :: p in visited <==> InRect(Box(t), p.x, p.y)
    ensures forall a, b :: 0 <= a < b < |visited| ==> ScanBefore(visited[a], visited[b])
    ensures |visited| == (Box(t).maxX - Box(t).minX) * (Box(t).maxY - Box(t).minY)
  {
    ScanFinished(r, t, shade, cur);
    VisitedAll(Box(t), visited);
  }

  /** Before the first column nothing is done. */
  lemma ScanStart(r: Renderer, t: Triangle, shade: Weights -> Color)
    requires r.Valid() && DepthsInRange(t)
    ensures ColumnsDone(r, t, shade, r, [], Box(t).minX)
  {
  }

  /** One pass of the outer loop: column `i`, then on to column `i + 1`. */
  method NextColumn(r: Renderer, t: Triangle, shade: Weights -> Color, cur: Renderer, visited: seq<Point>, i: int)
    returns (out: Renderer, trace: seq<Point>)
    requires r.Valid() && DepthsInRange(t) && Fits(r, t)
    requires Box(t).minX <= i < Box(t).maxX
    requires ColumnsDone(r, t, shade, cur, visited, i)
    ensures ColumnsDone(r, t, shade, out, trace, i + 1)
  {
    var box := Box(t);
    out, trace := ScanColumn(r, t, shade, cur, visited, i);
    ColumnKeeps(r, t, shade, out, i);
    ColumnTrace(box, trace, i);
    MulStep(i - box.minX, box.maxY - box.minY);
  }

  /** The pixels of the columns up to `i`, inclusive, are those before
      column `i + 1`. */
  lemma ColumnTrace(box: Rect, trace: seq<Point>, i: int)
    requires box.minX <= i
    requires forall p :: p in trace <==> Done(box, i, box.maxY, p.x, p.y)
    ensures forall p :: p in trace <==> Done(box, i + 1, box.minY, p.x, p.y)
  {
  }

  lemma MulStep(a: int, rows: int)
    ensures (a + 1) * rows == a * rows + rows
  {
  }

  /** Once the last column is done the scan has visited the whole box. */
  lemma VisitedAll(box: Rect, visited: seq<Point>)
    requires forall p :: p in visited <==> Done(box, box.maxX, box.minY, p.x, p.y)
    ensures forall p :: p in visited <==> InRect(box, p.x, p.y)
  {
  }

  /** The inner loop of the scan: column `i` of the bounding box, bottom to
      top, each covered pixel written through the depth test. */
  method ScanColumn(r: Renderer, t: Triangle, shade: Weights -> Color, cur: Renderer, visited: seq<Point>, i: int)
    returns (out: Renderer, trace: seq<Point>)
    requires r.Valid() && DepthsInRange(t) && Fits(r, t)
    requires Box(t).minX <= i < Box(t).maxX
    requires PaintedUpTo(r, t, shade, cur, i, Box(t).minY)
    requires forall p :: p in visited <==> Done(Box(t), i, Box(t).minY, p.x, p.y)
    requires forall a, b :: 0 <= a < b < |visited| ==> ScanBefore(visited[a], visited[b])
    ensures PaintedUpTo(r, t, shade, out, i, Box(t).maxY)
    ensures forall p :: p in trace <==> Done(Box(t), i, Box(t).maxY, p.x, p.y)
    ensures forall a, b :: 0 <= a < b < |trace| ==> ScanBefore(trace[a], trace[b])
    ensures |trace| == |visited| + (Box(t).maxY - Box(t).minY)
  {
    var box := BoundingBox(t.v0, t.v1, t.v2);
    out := cur;
    trace := visited;
    var j := box.minY;
    while j < box.maxY
      invariant box.minY <= j <= box.maxY
      invariant PixelsDone(r, t, shade, out, trace, i, j)
      invariant |trace| == |visited| + (j - box.minY)
    {
      out, trace := ScanPixel(r, t, shade, out, trace, i, j);
      j := j + 1;
    }
  }

  /** The scan has reached pixel (i, j): the state holds the results of the
      pixels before it, and `trace` lists those pixels in scan order. */
  ghost predicate PixelsDone(r: Renderer, t: Triangle, shade: Weights -> Color, cur: Renderer,
                             trace: seq<Point>, i: int, j: int)
    requires r.Valid() && DepthsInRange(t)
  {
    && PaintedUpTo(r, t, shade, cur, i, j)
    && (forall p :: p in trace <==> Done(Box(t), i, j, p.x, p.y))
    && (forall a, b :: 0 <= a < b < |trace| ==> ScanBefore(trace[a], trace[b]))
  }

  /** The body of the inner loop, for pixel (i, j): the inside test on its
      weights and, when it passes, the depth-tested write. */
  method ScanPixel(r: Renderer, t: Triangle, shade: Weights -> Color, cur: Renderer, trace: seq<Point>, i: int, j: int)
    returns (out: Renderer, next: seq<Point>)
    requires r.Valid() && DepthsInRange(t) && Fits(r, t)
    requires InRect(Box(t), i, j)
    requires PixelsDone(r, t, shade, cur, trace, i, j)
    ensures PixelsDone(r, t, shade, out, next, i, j + 1)
    ensures next == trace + [Point(i, j)]
  {
    var ip0 := TruncPoint(t.v0);
    var ip1 := TruncPoint(t.v1);
    var ip2 := TruncPoint(t.v2);
    var w := Barycentric(ip0, ip1, ip2, Point(i, j));
    out := cur;
    if w.u < 0.0 || w.v < 0.0 || w.w < 0.0 {
      SkipKeeps(r, t, shade, out, i, j);
    } else {
      var zCoord := Interpolate(t, w);
      assert w == WeightsAt(t, i, j);
      WriteKeeps(r, t, shade, out, i, j);
      out := BlSet(out, Point(i, j), shade(w), Trunc(zCoord));
    }
    VisitKeeps(Box(t), trace, i, j);
    next := trace + [Point(i, j)];
  }

  /** Visiting (i, j) next keeps the trace in strict scan order. */
  lemma VisitKeeps(box: Rect, visited: seq<Point>, i: int, j: int)
    requires box.minX <= i < box.maxX && box.minY <= j < box.maxY
    requires forall p :: p in visited <==> Done(box, i, j, p.x, p.y)
    requires forall a, b :: 0 <= a < b < |visited| ==> ScanBefore(visited[a], visited[b])
    ensures var v := visited + [Point(i, j)];
            && (forall p :: p in v <==> Done(box, i, j + 1, p.x, p.y))
            && (forall a, b :: 0 <= a < b < |v| ==> ScanBefore(v[a], v[b]))
  {
    var v := visited + [Point(i, j)];
    forall a, b | 0 <= a < b < |v|
      ensures ScanBefore(v[a], v[b])
    {
      if b == |visited| {
        assert v[a] in visited;
      }
    }
  }

  /** A pixel that fails the inside test advances the scan without a write. */
  lemma SkipKeeps(r: Renderer, t: Triangle, shade: Weights -> Color, cur: Renderer, i: int, j: int)
    requires r.Valid() && DepthsInRange(t)
    requires InRect(Box(t), i, j) && !Covered(t, i, j)
    requires PaintedUpTo(r, t, shade, cur, i, j)
    ensures PaintedUpTo(r, t, shade, cur, i, j + 1)
  {
  }

  /** A pixel that passes the inside test is written through the depth test,
      which advances the scan. */
  lemma WriteKeeps(r: Renderer, t: Triangle, shade: Weights -> Color, cur: Renderer, i: int, j: int)
    requires r.Valid() && DepthsInRange(t) && Fits(r, t)
    requires InRect(Box(t), i, j) && Covered(t, i, j)
    requires PaintedUpTo(r, t, shade, cur, i, j)
    ensures 0 <= i < r.width && 0 <= j < r.height
    ensures PaintedUpTo(r, t, shade, BlSet(cur, Point(i, j), shade(WeightsAt(t, i, j)), Depth(t, i, j)), i, j + 1)
  {
    assert Selected(t, i, j);
    var next := BlSet(cur, Point(i, j), shade(WeightsAt(t, i, j)), Depth(t, i, j));
    assert cur.zbuf[i][j] == r.zbuf[i][j] by {
      assert !Done(Box(t), i, j, i, j);
    }
    forall x, y | 0 <= x < r.width && 0 <= y < r.height
      ensures next.zbuf[x][y] == (if Done(Box(t), i, j + 1, x, y) then DepthAfter(r, t, x, y) else r.zbuf[x][y])
    {
      if x == i && y == j {
      } else {
        assert Done(Box(t), i, j + 1, x, y) == Done(Box(t), i, j, x, y);
      }
    }
    forall x, row | 0 <= x < r.width && 0 <= row < r.height
      ensures next.img[x][row] == (if 0 < row && Done(Box(t), i, j + 1, x, r.height - row)
                                   then ColourAfter(r, t, shade, x, row) else r.img[x][row])
    {
      if x == i && row == r.height - j {
      } else if 0 < row {
        assert Done(Box(t), i, j + 1, x, r.height - row) == Done(Box(t), i, j, x, r.height - row);
      }
    }
  }

  /** Finishing a column is the same as starting the next one. */
  lemma ColumnKeeps(r: Renderer, t: Triangle, shade: Weights -> Color, cur: Renderer, i: int)
    requires r.Valid() && DepthsInRange(t) && Box(t).minX <= i
    requires PaintedUpTo(r, t, shade, cur, i, Box(t).maxY)
    ensures PaintedUpTo(r, t, shade, cur, i + 1, Box(t).minY)
  {
    var box := Box(t);
    assert forall x, y :: Done(box, i, box.maxY, x, y) == Done(box, i + 1, box.minY, x, y);
  }

  /** Once every column is scanned the state is the reference drawing. */
  lemma ScanFinished(r: Renderer, t: Triangle, shade: Weights -> Color, cur: Renderer)
    requires r.Valid() && DepthsInRange(t)
    requires PaintedUpTo(r, t, shade, cur, Box(t).maxX, Box(t).minY)
    ensures cur == Paint(r, t, shade)
  {
    var p := Paint(r, t, shade);
    forall x, y | 0 <= x < r.width && 0 <= y < r.height
      ensures cur.zbuf[x][y] == p.zbuf[x][y]
    {
    }
    forall x, row | 0 <= x < r.width && 0 <= row < r.height
      ensures cur.img[x][row] == p.img[x][row]
    {
    }
    SameRenderer(cur, p);
  }

  /** Go's `VecTriangle`: the scan with one flat colour. */
  method VecTriangle(r: Renderer, t: Triangle, c: Color) returns (out: Renderer)
    requires r.Valid() && DepthsInRange(t) && Fits(r, t)
    ensures out == Paint(r, t, Flat(c))
    ensures forall x, row :: 0 <= x < r.width && 0 <= row < r.height && out.img[x][row] != r.img[x][row] ==>
              out.img[x][row] == c
  {
    var visited;
    out, visited := FillTriangle(r, t, Flat(c));
  }

  function Flat(c: Color): Weights -> Color {
    _ => c
  }

  /** Go's `TexturedTriangle`: the scan with the colour sampled from the
      texture at the pixel's weights. The sampler (`mapVts`) is a parameter. */
  method TexturedTriangle(r: Renderer, t: Triangle, sample: Weights -> Color) returns (out: Renderer)
    requires r.Valid() && DepthsInRange(t) && Fits(r, t)
    ensures out == Paint(r, t, sample)
    ensures forall x, row :: 0 <= x < r.width && 0 <= row < r.height && out.img[x][row] != r.img[x][row] ==>
              0 < row && out.img[x][row] == sample(WeightsAt(t, x, r.height - row))
  {
    var visited;
    out, visited := FillTriangle(r, t, sample);
  }
}
