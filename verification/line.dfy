/** Go's `Line`: a line between two integer pixels drawn by stepping along
    the major axis, one depth-tested write at depth 0 per step. */
module LineDraw {
  import opened MachineInt
  import opened Geometry
  import opened FrameBuffer

  /** A point with its coordinates exchanged. */
  function Swap(p: Point): Point { Point(p.y, p.x) }

  /** The endpoints of a line after `Line`'s normalisation: in a steep line
      (|dy| > |dx|) both points have their coordinates exchanged so that `x` is
      the major axis, and `start` is the endpoint with the smaller major
      coordinate. */
  datatype Span = Span(steep: bool, start: Point, end: Point)

  /** A point of the normalised frame back in image coordinates. */
  function Unframe(s: Span, p: Point): Point {
    if s.steep then Swap(p) else p
  }

  /** The normalisation of `Line`: swap the axes of a steep line, then order
      the endpoints along the major axis. */
  function Orient(p0: Point, p1: Point): (s: Span)
    ensures s.steep <==> AbsI(p1.y - p0.y) > AbsI(p1.x - p0.x)
    ensures (Unframe(s, s.start) == p0 && Unframe(s, s.end) == p1)
         || (Unframe(s, s.start) == p1 && Unframe(s, s.end) == p0)
    ensures s.start.x <= s.end.x
    ensures s.end.x - s.start.x == MaxI(AbsI(p1.x - p0.x), AbsI(p1.y - p0.y))
    ensures AbsI(s.end.y - s.start.y) <= s.end.x - s.start.x
  {
    var steep := AbsI(p1.y - p0.y) > AbsI(p1.x - p0.x);
    var a := if steep then Swap(p0) else p0;
    var b := if steep then Swap(p1) else p1;
    if a.x > b.x then Span(steep, b, a) else Span(steep, a, b)
  }

  /** The minor coordinate chosen at major coordinate `i`: the start's minor
      coordinate plus the exact fractional offset, truncated toward zero. */
  function MinorAt(s: Span, i: int): (j: int)
    requires s.start.x < s.end.x
    ensures var ideal := s.start.y as real
                         + (i - s.start.x) as real / (s.end.x - s.start.x) as real * (s.end.y - s.start.y) as real;
            j as real - 1.0 < ideal < j as real + 1.0
  {
    var frac := (i - s.start.x) as real / (s.end.x - s.start.x) as real;
    s.start.y + Trunc(frac * (s.end.y - s.start.y) as real)
  }

  /** The pixels `Line` writes, in the order it writes them. */
  function LinePixels(p0: Point, p1: Point): (pts: seq<Point>)
    ensures |pts| == MaxI(AbsI(p1.x - p0.x), AbsI(p1.y - p0.y))
    ensures |pts| == 0 <==> p0 == p1
  {
    var s := Orient(p0, p1);
    seq(s.end.x - s.start.x, k requires 0 <= k < s.end.x - s.start.x =>
          Unframe(s, Point(s.start.x + k, MinorAt(s, s.start.x + k))))
  }

  /** Go's integer quotient: division rounding toward zero. */
  function QuoTowardZero(q: int, n: int): int
    requires n > 0
  {
    if q >= 0 then q / n else -((-q) / n)
  }

  /** For a nonnegative numerator the exact real quotient floors to Dafny's
      integer quotient. */
  lemma FloorQuotient(q: nat, n: int)
    requires n > 0
    ensures (q as real / n as real).Floor == q / n
  {
    var f := q / n;
    var rem := q % n;
    assert q == f * n + rem && 0 <= rem < n;
    assert q as real / n as real == f as real + rem as real / n as real;
    assert 0.0 <= rem as real / n as real < 1.0;
  }

  /** The float expression `int(float64(k) / float64(n) * float64(d))`, taken
      exactly, is the integer quotient of k * d by n rounded toward zero. */
  lemma TruncQuotient(k: int, n: int, d: int)
    requires n > 0
    ensures Trunc(k as real / n as real * d as real) == QuoTowardZero(k * d, n)
  {
    var q := k * d;
    assert k as real / n as real * d as real == q as real / n as real;
    if q >= 0 {
      FloorQuotient(q, n);
    } else {
      FloorQuotient(-q, n);
      assert -(q as real / n as real) == (-q) as real / n as real;
    }
  }

  /** Line pixel number k, stated with integer arithmetic only: it sits k
      steps past the start along the major axis, and its minor coordinate is
      the start's plus k * (rise) / (run) rounded toward zero. */
  lemma {:induction false} LinePixelAt(p0: Point, p1: Point, k: int)
    requires 0 <= k < |LinePixels(p0, p1)|
    ensures var s := Orient(p0, p1);
            LinePixels(p0, p1)[k]
            == Unframe(s, Point(s.start.x + k,
                                s.start.y + QuoTowardZero(k * (s.end.y - s.start.y), s.end.x - s.start.x)))
  {
    MinorAtQuotient(Orient(p0, p1), k);
  }

  /** `MinorAt` with integer arithmetic only. */
  lemma MinorAtQuotient(s: Span, k: int)
    requires s.start.x < s.end.x
    ensures MinorAt(s, s.start.x + k)
         == s.start.y + QuoTowardZero(k * (s.end.y - s.start.y), s.end.x - s.start.x)
  {
    var n, d := s.end.x - s.start.x, s.end.y - s.start.y;
    assert s.start.x + k - s.start.x == k;
    TruncQuotient(k, n, d);
  }

  /** Truncated quotients of neighbouring multiples of a step no larger than
      the divisor differ by at most one. */
  lemma QuoStep(k: int, n: int, d: int)
    requires n > 0 && AbsI(d) <= n && k >= 0
    ensures AbsI(QuoTowardZero((k + 1) * d, n) - QuoTowardZero(k * d, n)) <= 1
  {
    if d >= 0 {
      assert (k + 1) * d == k * d + d;
      QuoAdd(k * d, d, n);
    } else {
      assert (k + 1) * (-d) == k * (-d) + (-d);
      QuoAdd(k * (-d), -d, n);
      assert (k + 1) * d == -((k + 1) * (-d)) && k * d == -(k * (-d));
    }
  }

  /** Adding at most one divisor to a nonnegative numerator raises the
      quotient by at most one. */
  lemma QuoAdd(a: nat, d: nat, n: int)
    requires n > 0 && d <= n
    ensures a / n <= (a + d) / n <= a / n + 1
  {
    var qa, ra := a / n, a % n;
    if ra + d < n {
      DivUnique(a + d, n, qa, ra + d);
    } else {
      assert (qa + 1) * n == qa * n + n;
      DivUnique(a + d, n, qa + 1, ra + d - n);
    }
  }

  /** Multiplying by a nonnegative factor keeps an order. */
  lemma MulLe(x: int, y: int, n: int)
    requires x <= y && n >= 0
    ensures x * n <= y * n
  {
    assert y * n == x * n + (y - x) * n;
  }

  /** The quotient and remainder of Euclidean division are unique. */
  lemma DivUnique(x: int, n: int, q: int, r: int)
    requires n > 0 && x == q * n + r && 0 <= r < n
    ensures x / n == q
  {
    var q0, r0 := x / n, x % n;
    assert x == q0 * n + r0 && 0 <= r0 < n;
    if q0 < q {
      assert (q0 + 1) * n == q0 * n + n;
      MulLe(q0 + 1, q, n);
    } else if q0 > q {
      assert (q + 1) * n == q * n + n;
      MulLe(q + 1, q0, n);
    }
  }

  /** A line has no gaps: consecutive pixels are 8-neighbours, one step apart
      on the major axis and at most one apart on the other. */
  lemma {:induction false} LineConnected(p0: Point, p1: Point, k: int)
    requires 0 <= k && k + 1 < |LinePixels(p0, p1)|
    ensures var a, b := LinePixels(p0, p1)[k], LinePixels(p0, p1)[k + 1];
            AbsI(b.x - a.x) <= 1 && AbsI(b.y - a.y) <= 1 && (a.x != b.x || a.y != b.y)
  {
    var s := Orient(p0, p1);
    var n, d := s.end.x - s.start.x, s.end.y - s.start.y;
    LinePixelAt(p0, p1, k);
    LinePixelAt(p0, p1, k + 1);
    QuoStep(k, n, d);
  }

  /** The first pixel written is an endpoint; the other endpoint is never
      written, and every pixel lies in the closed box of the two endpoints. */
  lemma {:induction false} LineEndpoints(p0: Point, p1: Point)
    requires p0 != p1
    ensures LinePixels(p0, p1)[0] in {p0, p1}
    ensures LinePixels(p0, p1)[0] == p0 ==> p1 !in LinePixels(p0, p1)
    ensures LinePixels(p0, p1)[0] == p1 ==> p0 !in LinePixels(p0, p1)
    ensures forall k :: 0 <= k < |LinePixels(p0, p1)| ==>
              && MinI(p0.x, p1.x) <= LinePixels(p0, p1)[k].x <= MaxI(p0.x, p1.x)
              && MinI(p0.y, p1.y) <= LinePixels(p0, p1)[k].y <= MaxI(p0.y, p1.y)
  {
    var s := Orient(p0, p1);
    var pts := LinePixels(p0, p1);
    var n, d := s.end.x - s.start.x, s.end.y - s.start.y;
    LinePixelAt(p0, p1, 0);
    assert pts[0] == Unframe(s, s.start);
    forall k | 0 <= k < |pts|
      ensures s.start.x <= Unframe(s, pts[k]).x < s.end.x
      ensures MinI(s.start.y, s.end.y) <= Unframe(s, pts[k]).y <= MaxI(s.start.y, s.end.y)
    {
      LinePixelAt(p0, p1, k);
      QuoBetween(k, n, d);
    }
  }

  /** For 0 <= k < n the rounded-toward-zero quotient of k * d by n lies
      between 0 and d. */
  lemma QuoBetween(k: int, n: int, d: int)
    requires 0 <= k < n
    ensures MinI(0, d) <= QuoTowardZero(k * d, n) <= MaxI(0, d)
  {
    var e := AbsI(d);
    MulLe(0, k, e);
    MulLe(k, n, e);
    QuoMono(k * e, n * e, n);
    DivUnique(n * e, n, e, 0);
    if d < 0 {
      assert k * d == -(k * e);
    }
  }

  /** Euclidean division by a positive divisor is monotone on naturals. */
  lemma QuoMono(a: nat, b: nat, n: int)
    requires n > 0 && a <= b
    ensures 0 <= a / n <= b / n
  {
    var qa, qb := a / n, b / n;
    assert qa * n <= a && b < qb * n + n;
    if qa > qb {
      assert (qb + 1) * n == qb * n + n;
      MulLe(qb + 1, qa, n);
    }
    if qa < 0 {
      MulLe(qa, -1, n);
    }
  }

  /** The endpoints are unordered: drawing from p1 to p0 writes the same
      pixels in the same order as drawing from p0 to p1. */
  lemma LineSymmetric(p0: Point, p1: Point)
    ensures LinePixels(p0, p1) == LinePixels(p1, p0)
  {
    var s, t := Orient(p0, p1), Orient(p1, p0);
    if p0 != p1 {
      assert s == t;
    }
  }

  /** Go's `Line`: one depth-0 write per pixel of `LinePixels`, in order. The
      source indexes the z-buffer directly, so every pixel must be inside it. */
  method Line(r: Renderer, p0: Point, p1: Point, c: Color) returns (out: Renderer)
    requires r.Valid() && AllInBounds(r, LinePixels(p0, p1))
    ensures out == PlotAll(r, LinePixels(p0, p1), c, 0)
  {
    var pts := LinePixels(p0, p1);
    var s := Orient(p0, p1);
    out := r;
    var i := s.start.x;
    while i < s.end.x
      invariant s.start.x <= i <= s.end.x
      invariant AllInBounds(r, pts[..i - s.start.x])
      invariant out == PlotAll(r, pts[..i - s.start.x], c, 0)
    {
      var j := MinorAt(s, i);
      var p := Unframe(s, Point(i, j));
      var k := i - s.start.x;
      assert i == s.start.x + k;
      assert p == pts[k];
      assert pts[..k + 1][..k] == pts[..k];
      assert AllInBounds(r, pts[..k + 1]);
      out := BlSet(out, p, c, 0);
      i := i + 1;
    }
    assert pts[..|pts|] == pts;
  }

  /** On a fresh renderer a line records depth 0 exactly on its pixels and
      paints them (rows inside the image) in its colour; nothing else changes. */
  lemma LineOnFreshCanvas(width: nat, height: nat, p0: Point, p1: Point, c: Color)
    requires AllInBounds(NewRenderer(width, height), LinePixels(p0, p1))
    ensures var out := PlotAll(NewRenderer(width, height), LinePixels(p0, p1), c, 0);
            forall x, y :: 0 <= x < width && 0 <= y < height ==>
              out.zbuf[x][y] == (if Point(x, y) in LinePixels(p0, p1) then 0 else MinInt)
    ensures var out := PlotAll(NewRenderer(width, height), LinePixels(p0, p1), c, 0);
            forall x, row :: 0 <= x < width && 0 <= row < height ==>
              out.img[x][row] == (if 0 < row && Point(x, height - row) in LinePixels(p0, p1) then c else Black)
  {
    PlotAllEffect(NewRenderer(width, height), LinePixels(p0, p1), c, 0);
  }
}
