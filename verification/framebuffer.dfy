/** The renderer's state (Go `CustomRenderer`): an RGBA image and a parallel
    integer z-buffer, created by `NewRenderer` and changed only through the
    depth-tested write `blSet`. */
module FrameBuffer {
  import opened MachineInt
  import opened Geometry

  type Byte = b: int | 0 <= b < 256

  /** A non-premultiplied RGBA colour (Go `color.NRGBA`). */
  datatype Color = Color(r: Byte, g: Byte, b: Byte, a: Byte)

  /** Opaque black, the initial colour of every pixel. */
  const Black: Color := Color(0, 0, 0, 255)

  /** `zbuf[x][y]` is the depth recorded for pixel (x, y); `img[x][row]` is the
      colour at image column x, row `row` (rows counted from the top). */
  datatype Renderer = Renderer(width: nat, height: nat, zbuf: seq<seq<Int64>>, img: seq<seq<Color>>) {

    /** Both grids have `width` columns of `height` entries. */
    predicate Valid() {
      && |zbuf| == width && |img| == width
      && (forall x :: 0 <= x < width ==> |zbuf[x]| == height)
      && (forall x :: 0 <= x < width ==> |img[x]| == height)
    }

    /** The pixels whose z-buffer entry exists; any other index panics in Go. */
    predicate InBounds(p: Point) {
      0 <= p.x < width && 0 <= p.y < height
    }
  }

  /** Go's `NewRenderer`: a `width` x `height` image filled with opaque black
      and a z-buffer of `width` columns of `height` entries, all `MinInt`. */
  function NewRenderer(width: nat, height: nat): (r: Renderer)
    ensures r.Valid() && r.width == width && r.height == height
    ensures forall x, y :: 0 <= x < width && 0 <= y < height ==> r.zbuf[x][y] == MinInt
    ensures forall x, row :: 0 <= x < width && 0 <= row < height ==> r.img[x][row] == Black
  {
    Renderer(width, height,
             seq(width, _ => seq(height, _ => MinInt)),
             seq(width, _ => seq(height, _ => Black)))
  }

  /** `image.NRGBA.Set`: a write outside [0, width) x [0, height) is dropped. */
  function SetPixel(img: seq<seq<Color>>, x: int, row: int, c: Color): (out: seq<seq<Color>>)
    ensures |out| == |img|
    ensures forall i :: 0 <= i < |img| ==> |out[i]| == |img[i]|
    ensures forall i, j :: 0 <= i < |img| && 0 <= j < |img[i]| ==>
              out[i][j] == (if i == x && j == row then c else img[i][j])
  {
    if 0 <= x < |img| && 0 <= row < |img[x]| then img[x := img[x][row := c]] else img
  }

  /** Go's `blSet`: a depth-tested write of pixel `p`. The z-buffer entry at p
      becomes the larger of its old value and `z` and no other entry changes;
      the colour lands in image row `height - p.y`, and only when `z` is strictly
      greater than the recorded depth. */
  function BlSet(r: Renderer, p: Point, c: Color, z: Int64): (out: Renderer)
    requires r.Valid() && r.InBounds(p)
    ensures out.Valid() && out.width == r.width && out.height == r.height
    ensures out.zbuf[p.x][p.y] == MaxI(r.zbuf[p.x][p.y], z)
    ensures forall x, y :: 0 <= x < r.width && 0 <= y < r.height && (x != p.x || y != p.y) ==>
              out.zbuf[x][y] == r.zbuf[x][y]
    ensures forall x, row :: 0 <= x < r.width && 0 <= row < r.height ==>
              out.img[x][row] == (if x == p.x && row == r.height - p.y && z > r.zbuf[p.x][p.y]
                                  then c else r.img[x][row])
    ensures z <= r.zbuf[p.x][p.y] ==> out == r
  {
    var realY := r.height - p.y;
    if z > r.zbuf[p.x][p.y] then
      var column: seq<Int64> := r.zbuf[p.x][p.y := z];
      r.(zbuf := r.zbuf[p.x := column], img := SetPixel(r.img, p.x, realY, c))
    else
      r
  }

  /** Repeating an identical write changes nothing: the test is strict. */
  lemma BlSetIdempotent(r: Renderer, p: Point, c: Color, z: Int64)
    requires r.Valid() && r.InBounds(p)
    ensures BlSet(BlSet(r, p, c, z), p, c, z) == BlSet(r, p, c, z)
  {
  }

  /** A write at depth `MinInt` never takes effect, whatever the buffer holds. */
  lemma BlSetMinIntIgnored(r: Renderer, p: Point, c: Color)
    requires r.Valid() && r.InBounds(p)
    ensures BlSet(r, p, c, MinInt) == r
  {
  }

  /** On row y = 0 the image row would be `height`, outside the image: the
      depth is still recorded but no colour is stored. The top image row is
      never written at all. */
  lemma BlSetRowZeroLosesColour(r: Renderer, p: Point, c: Color, z: Int64)
    requires r.Valid() && r.InBounds(p)
    ensures p.y == 0 ==> BlSet(r, p, c, z).img == r.img
    ensures forall x :: 0 <= x < r.width && 0 < r.height ==> BlSet(r, p, c, z).img[x][0] == r.img[x][0]
  {
    if p.y == 0 {
      var out := BlSet(r, p, c, z);
      assert |out.img| == |r.img|;
      forall x | 0 <= x < r.width
        ensures out.img[x] == r.img[x]
      {
        assert |out.img[x]| == |r.img[x]|;
      }
    }
  }

  /** Every pixel of `pts` must have a z-buffer entry. */
  predicate AllInBounds(r: Renderer, pts: seq<Point>) {
    forall k :: 0 <= k < |pts| ==> r.InBounds(pts[k])
  }

  /** A run of depth-tested writes of one colour at one depth, in order. */
  function PlotAll(r: Renderer, pts: seq<Point>, c: Color, z: Int64): (out: Renderer)
    requires r.Valid() && AllInBounds(r, pts)
    ensures out.Valid() && out.width == r.width && out.height == r.height
    decreases |pts|
  {
    if |pts| == 0 then r
    else
      var prev := PlotAll(r, pts[..|pts| - 1], c, z);
      BlSet(prev, pts[|pts| - 1], c, z)
  }

  /** The net effect of a run of writes at a single depth: each listed pixel
      keeps the larger of its old depth and `z`, takes the colour exactly when
      `z` beat its old depth, and nothing else changes, however often a pixel
      repeats in the run. */
  lemma {:induction false} PlotAllEffect(r: Renderer, pts: seq<Point>, c: Color, z: Int64)
    requires r.Valid() && AllInBounds(r, pts)
    ensures var out := PlotAll(r, pts, c, z);
            forall x, y :: 0 <= x < r.width && 0 <= y < r.height ==>
              out.zbuf[x][y] == (if Point(x, y) in pts then MaxI(r.zbuf[x][y], z) else r.zbuf[x][y])
    ensures var out := PlotAll(r, pts, c, z);
            forall x, row :: 0 <= x < r.width && 0 < row < r.height ==>
              out.img[x][row] == (if Point(x, r.height - row) in pts && z > r.zbuf[x][r.height - row]
                                  then c else r.img[x][row])
    ensures var out := PlotAll(r, pts, c, z);
            forall x :: 0 <= x < r.width && 0 < r.height ==> out.img[x][0] == r.img[x][0]
    decreases |pts|
  {
    if |pts| > 0 {
      var init := pts[..|pts| - 1];
      var last := pts[|pts| - 1];
      assert AllInBounds(r, init);
      PlotAllEffect(r, init, c, z);
      var prev := PlotAll(r, init, c, z);
      assert forall q :: q in pts <==> q in init || q == last;
      forall x, row | 0 <= x < r.width && 0 < row < r.height
        ensures PlotAll(r, pts, c, z).img[x][row]
             == (if Point(x, r.height - row) in pts && z > r.zbuf[x][r.height - row] then c else r.img[x][row])
      {
        var y := r.height - row;
        if Point(x, y) == last && Point(x, y) in init {
          assert prev.zbuf[x][y] >= z;
        }
      }
    }
  }
}
