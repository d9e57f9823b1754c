# CustomRenderer core in Dafny

A model of the two central pieces of CustomRenderer, a small software
rasterizer written in Go:

- the renderer (`customrenderer/customrenderer.go`): a colour image and a
  z-buffer created by `NewRenderer`, the depth-tested pixel write `blSet`,
  the barycentric solver `barycentric`, the bounding box `findBBox`, the two
  triangle scans `VecTriangle` and `TexturedTriangle`, and the line drawer
  `Line`;
- the Wavefront OBJ reader (`util/objectUtils.go`): `NewModel`, which turns
  the lines of a file into texture coordinates, vertices and triangular faces
  or stops with an error built by `fail`, or with a panic.

The renderer state is an immutable value (`FrameBuffer.Renderer`): the
z-buffer `zbuf[x][y]` of Go `int`s and the image `img[x][row]`. Every
operation returns a new state. The triangle scans are methods whose loops
are proved equal to a declarative reference, `Raster.Paint`. `Paint` says
what every pixel holds once a triangle is drawn. The line drawer is a method
proved equal to writing the pixels of `LineDraw.LinePixels` in order. The
OBJ reader is a pure function over a sequence of lines. Its outcome is a
model, an error (`Failed`) or a run-time panic (`Panicked`).

Modules, in dependency order:

| file | module | contents |
|---|---|---|
| machine_int.dfy | MachineInt | Go's 64-bit `int`: its range and the wrap-around of `v - 1` |
| geometry.dfy | Geometry | points, `int(float64)` truncation, `findBBox`, `barycentric`, the inside test and its edge-function reading |
| framebuffer.dfy | FrameBuffer | colours, the renderer state, `NewRenderer`, `blSet`, a sequence of `blSet` calls |
| raster.dfy | Raster | triangles, depth interpolation, the reference `Paint`, the scan loops, `VecTriangle`, `TexturedTriangle` |
| raster_facts.dfy | RasterFacts | properties of `Paint`: box, degenerate triangles, idempotence, order independence, a worked example |
| line.dfy | LineDraw | `Line`: normalisation, the pixels it writes, their connectivity and end points |
| text.dfy | Text | `strings.Fields`, `strings.Split`, `strconv.Atoi` (fast path and `ParseInt`/`ParseUint`), `strconv.Itoa` |
| objparser.dfy | ObjParser | `fail`, the face tokens, one line of `NewModel`, the whole file |

Floats are exact reals. Go's `int(x)` of a float is `Geometry.Trunc`
(rounding toward zero). The float parser `strconv.ParseFloat` is a parameter
of the OBJ reader: a function from a token to a value and an ok flag. The
texture sampler `mapVts` is a parameter of `TexturedTriangle`: a function
from the pixel's weights to a colour.

The model keeps what the code does where it is surprising:

- `blSet` writes image row `height - y`, so pixel row `y = 0` lands outside
  the image and image row 0 is never written (`FrameBuffer.BlSetRowZeroLosesColour`).
- The scan covers the half-open box, so covered pixels on the box's maximum
  column and row are never drawn (`RasterFacts.CoveredInClosedBox`,
  `RasterFacts.RightOnFreshCanvas`).
- A face token's vertex index is never checked: its error is overwritten
  before the test (`ObjParser.UnreportedVertexIndex`).
- Go's `vi - 1` wraps for the least `int` (`MachineInt.Pred`).
- `NewRenderer` takes no colour; the background is always opaque black.
- A `v` or `vt` line with too few fields panics with an index out of range.
  A float that does not parse panics only when it is the last coordinate
  read (z for `v`, y for `vt`), because the earlier errors are overwritten.
- A face line with fewer than three tokens stops at its first failing
  token: it panics on the missing token only when every token it has
  passes, so `f 1/2` is the shape error (`ObjParser.ShortFaceLine`,
  `ObjParser.ShortFaceShape`).

`strings` and `strconv` are Go's standard library. They are modelled from
their documented behaviour. Their rows cite the lines of the reader that
call them.

## Model

| member | source | states |
|---|---|---|
| MachineInt.Pred | util/objectUtils.go:77-78 | `v - 1` in Go's `int`: one less, except that the least value wraps to the greatest |
| Geometry.Trunc | customrenderer/customrenderer.go:112-114 | `int(x)` of a float rounds toward zero: a non-negative input gives the integer at or below it, a negative one the integer at or above it |
| Geometry.MakeRect | customrenderer/customrenderer.go:140 | `image.Rect` orders each pair of corners, keeping the given coordinates |
| Geometry.BoundingBox | customrenderer/customrenderer.go:131-141 | the box holds every truncated vertex, and each of its four bounds is the truncated coordinate of one of the vertices |
| Geometry.Barycentric | customrenderer/customrenderer.go:38-60 | collinear vertices give the sentinel `(-1, 1, 1)`, which fails the inside test; otherwise the weights sum to 1 |
| Geometry.BarycentricRecombines | customrenderer/customrenderer.go:50-58 | for non-collinear vertices the weights recombine the vertices into the test point, on both axes |
| Geometry.CrossParts | customrenderer/customrenderer.go:40-51 | the solver's cross product is made of the three edge functions, its z part is twice the signed area, and a z of magnitude below 1 occurs exactly for collinear vertices |
| Geometry.InsideIffHalfPlanes | customrenderer/customrenderer.go:116-117 | the inclusive inside test on the weights selects exactly the points on the inner side of, or on, all three edges of a non-degenerate triangle |
| FrameBuffer.NewRenderer | customrenderer/customrenderer.go:24-35 | a `width` x `height` state whose z-buffer entries are all `MinInt` and whose pixels are all opaque black |
| FrameBuffer.SetPixel | customrenderer/customrenderer.go:173 | the image changes at the one given pixel and nowhere else |
| FrameBuffer.BlSet | customrenderer/customrenderer.go:169-175 | the z-buffer entry becomes the greater of old and new depth, no other entry changes; the image pixel `(x, height - y)` takes the colour exactly when the depth wins; a losing depth leaves the state unchanged |
| FrameBuffer.BlSetIdempotent | customrenderer/customrenderer.go:171-173 | repeating an identical write changes nothing |
| FrameBuffer.BlSetMinIntIgnored | customrenderer/customrenderer.go:171-173 | a write at depth `MinInt` never changes the state |
| FrameBuffer.BlSetRowZeroLosesColour | customrenderer/customrenderer.go:170-173 | image row 0 is never written, and a pixel with `y = 0` never changes the image |
| FrameBuffer.PlotAllEffect | customrenderer/customrenderer.go:158-166 | after a sequence of writes at one depth and colour, each z-buffer entry is the greater of its old value and the depth if its pixel was written, and each image row holds the colour exactly where a written pixel won |
| Raster.Depth | customrenderer/customrenderer.go:119-120 | the depth submitted for a covered pixel lies between the truncated least and greatest vertex depths |
| Raster.FillTriangle | customrenderer/customrenderer.go:104-129 | the nested scan gives the reference `Paint`; it visits every pixel of the half-open box once, column by column, and nothing else |
| Raster.VecTriangle | customrenderer/customrenderer.go:104-129 | the result is `Paint` with a flat colour, so any changed pixel holds that colour |
| Raster.TexturedTriangle | customrenderer/customrenderer.go:80-101 | the result is `Paint` with the sampler; a changed pixel holds the sample at its own weights, and row 0 never changes |
| RasterFacts.CoveredInClosedBox | customrenderer/customrenderer.go:106-117 | a covered pixel lies in the closed bounding box, and it is submitted to the depth test exactly when it is not on the box's maximum column or row |
| RasterFacts.DegenerateDrawsNothing | customrenderer/customrenderer.go:51-52 | a triangle whose truncated vertices are collinear covers no pixel and leaves the state unchanged |
| RasterFacts.PaintMonotone | customrenderer/customrenderer.go:117-121 | drawing never lowers a depth, a changed depth is the triangle's own depth at a selected pixel, and a changed pixel shows a selected pixel whose depth won |
| RasterFacts.PaintIdempotent | customrenderer/customrenderer.go:104-129 | drawing the same triangle twice is the same as drawing it once |
| RasterFacts.ShadeIndependent | customrenderer/customrenderer.go:85-97 | the colour source does not change which pixels are selected or which depths are stored; colours differ only at pixels whose depth won |
| RasterFacts.DepthOrderIndependent | customrenderer/customrenderer.go:169-175 | the z-buffer after two triangles does not depend on the order they are drawn in |
| RasterFacts.ColourOrderIndependent | customrenderer/customrenderer.go:169-175 | when one triangle is strictly nearer wherever both are selected, the whole state after both does not depend on their order |
| RasterFacts.PixelOrder | customrenderer/customrenderer.go:171-173 | two depth-tested writes to one pixel at distinct depths leave the colour of the deeper one, in either order |
| RasterFacts.FreshCanvas | customrenderer/customrenderer.go:24-35 | on a fresh state a triangle's depth is stored exactly at its selected pixels, and a pixel takes its colour exactly where that depth beats `MinInt` |
| RasterFacts.RightCoverage | customrenderer/customrenderer.go:38-60 | the right triangle (10,10), (50,10), (10,50) covers exactly the points with `x, y >= 10` and `x + y <= 60` |
| RasterFacts.RightSelected | customrenderer/customrenderer.go:104-121 | the scan submits that triangle's pixel (x, y) exactly when it is covered and inside the half-open box [10, 50) x [10, 50), always at depth 5 |
| RasterFacts.RightOnFreshCanvas | customrenderer/customrenderer.go:104-129 | drawn in colour c on a fresh 100 x 100 state, that triangle stores depth 5 at the covered pixels of its half-open box and `MinInt` elsewhere, and the image is c at image row `100 - y` of those pixels and black everywhere else; its covered corner (50, 10) is not drawn |
| LineDraw.Orient | customrenderer/customrenderer.go:144-157 | the line is steep exactly when the vertical extent exceeds the horizontal one; the endpoints come back in some order, ordered along the major axis, whose length is the larger of abs(dx) and abs(dy), with the minor extent at most the major one |
| LineDraw.MinorAt | customrenderer/customrenderer.go:159-160 | the minor coordinate of each step is within 1 of the ideal point on the line |
| LineDraw.LinePixels | customrenderer/customrenderer.go:158-166 | `Line` writes the larger of abs(dx) and abs(dy) pixels, none when the endpoints coincide |
| LineDraw.LinePixelAt | customrenderer/customrenderer.go:158-165 | pixel k is k steps along the major axis from the start, with the minor offset `k * dminor / dmajor` rounded toward zero |
| LineDraw.TruncQuotient | customrenderer/customrenderer.go:159-160 | truncating the exact product `k / n * d` gives the integer quotient of `k * d` by `n` rounded toward zero |
| LineDraw.LineConnected | customrenderer/customrenderer.go:158-166 | consecutive pixels of a line are distinct 8-neighbours |
| LineDraw.LineEndpoints | customrenderer/customrenderer.go:154-166 | the first pixel is one endpoint, the other endpoint is never written, and every pixel lies in the box of the endpoints |
| LineDraw.LineSymmetric | customrenderer/customrenderer.go:154-157 | exchanging the endpoints writes the same pixels |
| LineDraw.Line | customrenderer/customrenderer.go:143-167 | the loop writes the pixels of `LinePixels` in order, each at depth 0 |
| LineDraw.LineOnFreshCanvas | customrenderer/customrenderer.go:158-166 | on a fresh state a line stores depth 0 exactly at its pixels and shows its colour exactly at their image rows, except row 0 |
| Text.Fields | util/objectUtils.go:47 | every field is non-empty and free of white space |
| Text.FieldsKeepText | util/objectUtils.go:47 | the fields, concatenated, are the line's non-space characters in order |
| Text.FieldsJoinSpaced | util/objectUtils.go:47 | fields joined by single spaces split back into the same fields |
| Text.FieldsSkipSpace | util/objectUtils.go:47 | a leading white-space character does not change the fields |
| Text.FieldsAtSpace | util/objectUtils.go:47 | every white-space character separates fields: the fields of `a`, a space and `b` are the fields of `a` followed by those of `b` |
| Text.Split | util/objectUtils.go:68 | one more part than there are separators, and no part holds the separator |
| Text.SplitJoin | util/objectUtils.go:68 | joining the parts with the separator gives the string back |
| Text.JoinSplit | util/objectUtils.go:68 | splitting parts that do not hold the separator, once joined, gives the parts back |
| Text.ParseUint | util/objectUtils.go:72-73 | the digit loop returns the declarative reading: the value of all-digit input that fits in 64 bits, the maximum with a range error once the leading digits overflow (even before a later bad character), else a syntax error |
| Text.ParseIntSpec | util/objectUtils.go:72-73 | the signed parse is the declarative reading: syntax error with 0, range error with the bound on the sign's side, or the signed value |
| Text.ParseIntMeaning | util/objectUtils.go:72-73 | the parse succeeds exactly when the text is an optional sign followed by at least one digit, all digits, whose signed value fits in 64 bits (`Int64Text`); the value is then that signed value (`SignedValue`) |
| Text.Atoi | util/objectUtils.go:72-73 | whichever path the length selects, the result is that of the signed parse |
| Text.FastAtoiAgrees | util/objectUtils.go:72-73 | the fast path for 1 to 18 characters returns what the signed parse returns |
| Text.Decimal | util/objectUtils.go:24 | the printed digits of a natural number read back as that number, with no leading zero except for 0 itself |
| Text.AtoiItoa | util/objectUtils.go:24 | printing a 64-bit integer and reading it back gives the integer with no error |
| ObjParser.Fail | util/objectUtils.go:23-25 | for a message without '%', the error text is the message, " at ", the line number as `%d` prints it (`Text.Itoa`), ": " and the line |
| ObjParser.FailLineNumber | util/objectUtils.go:23-25 | the number in the error text is digits only, has no leading zero unless it is 0, and reads back as the line number |
| ObjParser.ParseCorner | util/objectUtils.go:67-79 | a face token panics exactly when it is missing, is the shape error exactly when it is present without exactly two '/', and otherwise can only fail with the index error; `ObjParser.CornerText` says when a token `a/b/c` succeeds and what it stores |
| ObjParser.SlashParts | util/objectUtils.go:68-69 | a token with exactly two '/' is `a/b/c` with no '/' in its parts, so it passes the shape test |
| ObjParser.SplitThree | util/objectUtils.go:68-69 | splitting `a/b/c` on '/' gives the three parts back |
| ObjParser.CornerText | util/objectUtils.go:68-78 | a token `a/b/c` succeeds exactly when `b` is decimal text of a 64-bit `int`, failing otherwise with the index error; it then stores that value minus one as the texture index, and `a`'s value minus one as the vertex index when `a` is such text too |
| ObjParser.ParseCorners | util/objectUtils.go:65-80 | a face line succeeds exactly when all three tokens do and stores token k in column k; otherwise it halts as the first failing token does |
| ObjParser.ShortFaceLine | util/objectUtils.go:66-76 | a face line with fewer than three tokens always fails, and it panics exactly when every token it has passes |
| ObjParser.ShortFaceShape | util/objectUtils.go:67-71 | `f 1/2` is the shape error, not a panic |
| ObjParser.ExtraTokensIgnored | util/objectUtils.go:67-68 | fields after the third face token do not change the outcome |
| ObjParser.UnreportedVertexIndex | util/objectUtils.go:72-78 | when the texture index parses, a vertex index that is not a 64-bit decimal is accepted anyway: stored as -1 after a syntax error, as `MaxInt - 1` when too large, and as `MaxInt` (the least `int` minus one, wrapped) when too small |
| ObjParser.ParseLine | util/objectUtils.go:43-91 | a line halts exactly when it is a short or bad `v`/`vt` line or a failing face line, with its own line number; otherwise it appends its vertex, texture coordinate or face to the model |
| ObjParser.IgnoredLines | util/objectUtils.go:43-51 | a line leaves the model unchanged exactly when it is not a `v`, `vt` or `f` line |
| ObjParser.RunSucceeds | util/objectUtils.go:39-92 | the loop from a line on finishes exactly when none of the remaining lines halts |
| ObjParser.NewModelCollects | util/objectUtils.go:27-98 | a file loads exactly when no line halts, and the model then holds every line's vertices, texture coordinates and faces in file order |
| ObjParser.NewModelHalts | util/objectUtils.go:27-98 | a file that does not load stops at its first halting line: that 1-based number is reported, all earlier lines are fine, and an error carries that line and one of the two messages |
| ObjParser.TriangleFace | util/objectUtils.go:65-80 | the face line `f 1/4/7 2/5/8 3/6/9` gives vertex indices 0, 1, 2 and texture indices 3, 4, 5 |
| ObjParser.DigitFace | util/objectUtils.go:65-80 | a face line of three `d/d/c` tokens with digits d succeeds and stores each digit minus one |

## Left out

- Raster.VecTriangle: the vertex slice is modelled as exactly three vertices (`Triangle`). Go reads `vertexes[0]`, `vertexes[1]` and `vertexes[2]` (customrenderer/customrenderer.go:105) and panics with an index out of range on a shorter slice; that panic is not modelled.
- Raster.TexturedTriangle: the vertex slice is modelled as exactly three vertices, as for `VecTriangle`. Go reads `v[0]` to `v[2]` (customrenderer/customrenderer.go:81, 87-89, 94) and panics on a shorter slice; that panic is not modelled.
- FrameBuffer.BlSet: takes a colour already in `image.NRGBA`'s model. Go's `blSet` and `VecTriangle` (customrenderer/customrenderer.go:104, 169) accept any `color.Color`, and `image.NRGBA.Set` stores `color.NRGBAModel.Convert` of it, which changes a colour that is not already NRGBA (a premultiplied `RGBA` with alpha below 255 is un-premultiplied, say). Callers of the model pass the converted colour; the conversion is not modelled.
- FrameBuffer.NewRenderer: the sizes are `nat`. Go's `NewRenderer(width, height int)` panics in `make` (customrenderer/customrenderer.go:28) for a negative size; that input and its panic are not modelled.
- `mapVts` (customrenderer/customrenderer.go:62-77) is a parameter of `TexturedTriangle`, because it reads a foreign `image.Image` and scales colours in floating point. Its vertical sample coordinate is scaled by the texture's width (`Dx()`) rather than its height, which looks wrong for non-square textures. The model does not reproduce or correct this.
- Floating-point rounding: every float is an exact real. The weights, the interpolated depth and `Line`'s fraction are computed exactly, so a pixel on an edge can be selected where a float computation would reject it. `Line`'s pixels can move too, even on an ordinary diagonal: for `Line` from (0, 0) to (22, 22), step k = 15 computes `15.0 / 22.0 * 22.0` in float64, which is just below 15 and truncates to 14, so Go writes (15, 14) where the exact model (`LineDraw.LinePixelAt`) gives (15, 15).
- `strconv.ParseFloat` is a parameter of the OBJ reader. Only its value and whether its error was nil are used.
- `os.Open`, `bufio.Scanner` and `scanner.Err()` are file I/O. The reader takes the lines of the file as a sequence, so the scanner's line-length limit and its read errors are not modelled. A panic when the file cannot be opened is not modelled either.
- `main.go` (projection, lighting, loading, export) and `util/imageUtils.go` (image decoding and encoding) are not part of this model. `InitImage`'s fill with one colour is part of `FrameBuffer.NewRenderer`.
- The commented-out goroutine and channel code is not behaviour and is left out.
- Raster.FillTriangle: requires that every selected pixel has a z-buffer entry (`Fits`). Go panics on any other index and the model does not describe that panic.
- Raster.Depth: requires vertex depths inside the 64-bit range (`DepthsInRange`), because Go's float-to-int conversion is implementation-defined outside it.
- LineDraw.Line: requires every pixel of the line to be in bounds (`AllInBounds`), for the same reason as `FillTriangle`. Overflow of Go's `int` in `p1.X - p0.X` for coordinates near the 64-bit limits is not modelled.
- Raster.FillTriangle: the truncated vertex coordinates `int(v.X)` and the differences `p1.X - p0.X` that `barycentric` forms from them (customrenderer/customrenderer.go:40-49) are unbounded integers, so Go's conversion of an out-of-range float and the wrap-around of those differences are not modelled.
- ObjParser.Fail: requires the message to contain no '%'. Go's `fmt.Errorf` reads the message as part of its format string, so a '%' in it would be a formatting verb; both messages `NewModel` passes contain none.
- ObjParser.FailLineNumber: requires the line number to fit in a 64-bit `int`, because `Atoi` cannot read back a larger one.
- Strings are sequences of code points, not UTF-8 bytes. `Atoi` picks its fast path by byte length. `Text.FastAtoiAgrees` shows the choice of path does not change the result, so the difference is not observable. `strings.Fields` splits on the Unicode white-space code points, which is its rule for valid UTF-8.
- Text.Atoi: `NumError`'s function name and input string are not modelled; only the error kind (`ErrSyntax`, `ErrRange`) is.
