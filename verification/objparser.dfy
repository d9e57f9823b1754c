/** Go's `NewModel`: the Wavefront OBJ reader, as a function from the lines
    of a file to a model, an error, or a panic. Float parsing
    (`strconv.ParseFloat`) is a parameter; its value is used whatever its
    error says, as `NewModel` does. */
module ObjParser {
  import opened MachineInt
  import opened Text

  /** A texture coordinate (Go `r2.Point`). */
  datatype Uv<F> = Uv(x: F, y: F)

  /** A vertex position (Go `r3.Vector`). */
  datatype Vertex<F> = Vertex(x: F, y: F, z: F)

  type Triple = s: seq<Int64> | |s| == 3 witness [0, 0, 0]

  /** A triangle as Go's `[2][3]int`: `verts` is row 0 (vertex indices), `uvs`
      is row 1 (texture-coordinate indices), both 0-based as stored. */
  datatype Face = Face(verts: Triple, uvs: Triple)

  /** Go's `Model`: texture coordinates, vertices and faces in file order. */
  datatype Model<F> = Model(uvs: seq<Uv<F>>, verts: seq<Vertex<F>>, faces: seq<Face>)

  function EmptyModel<F>(): Model<F> {
    Model([], [], [])
  }

  /** What `strconv.ParseFloat(s, 64)` returns: a value, and whether the error
      was nil. */
  datatype FloatParse<F> = FloatParse(value: F, ok: bool)

  /** The error `fail` builds: its message, the offending line and its
      1-based number. */
  datatype LoadError = LoadError(msg: string, line: string, lineNum: nat)

  /** A run-time panic of `NewModel`: indexing past the fields of a line, or
      `panic(err)` after a float that did not parse. */
  datatype Panic =
    | IndexOutOfRange(lineNum: nat, index: nat, length: nat)
    | BadFloat(lineNum: nat, token: string)

  /** How reading stops early: an error returned to the caller, or a panic. */
  datatype Halt = Failed(error: LoadError) | Panicked(panic: Panic) {
    function LineNum(): nat {
      match this
      case Failed(e) => e.lineNum
      case Panicked(p) => p.lineNum
    }
  }

  datatype Result<T> = Ok(value: T) | Err(halt: Halt)

  const ShapeMsg: string := "unsupported face shape (not a triangle)"
  const IndexMsg: string := "unsupported face vertex index"

  /** Go's `fail`: `msg + " at <n>: <line>"`. Go passes `msg` inside the
      format string, so the text is this only for a message without '%', as
      both messages of `NewModel` are. */
  function Fail(msg: string, line: string, lineNum: nat): (text: string)
    requires '%' !in msg
    ensures HasPrefix(text, msg + " at ")
    ensures |text| >= |msg| + 4 + |line| + 2
    ensures text[|text| - |line| - 2..] == ": " + line
    ensures text[|msg| + 4..|text| - |line| - 2] == Itoa(lineNum)
  {
    var num := Itoa(lineNum);
    var head, tail := msg + " at ", ": " + line;
    var text := head + num + tail;
    assert text[..|head|] == head;
    assert text[|text| - |line| - 2..] == tail;
    Middle(head, num, tail);
    text
  }

  /** The line number in an error text is written as `%d` writes it, digits
      only and without a leading zero, and reads back as the number `fail`
      was given. */
  lemma FailLineNumber(msg: string, line: string, lineNum: nat)
    requires '%' !in msg && lineNum <= MaxInt
    ensures var text := Fail(msg, line, lineNum);
            var num := text[|msg| + 4..|text| - |line| - 2];
            && |num| > 0 && AllDigits(num) && (lineNum == 0 || num[0] != '0')
            && Atoi(num) == Parsed(lineNum, NoErr)
  {
    var text := Fail(msg, line, lineNum);
    assert text[|msg| + 4..|text| - |line| - 2] == Decimal(lineNum);
    AtoiItoa(lineNum);
  }

  lemma Middle(a: string, b: string, c: string)
    ensures (a + b + c)[|a|..|a + b + c| - |c|] == b
  {
  }

  /** The keyword a line is dispatched on: none for a line starting with '#'
      or a space, or holding no fields; otherwise its first field. */
  function Keyword(line: string): string {
    if HasPrefix(line, "#") || HasPrefix(line, " ") then ""
    else
      var fields := Fields(line);
      if |fields| == 0 then "" else fields[0]
  }

  // ---------------------------------------------------------------------
  // Faces

  /** Face token k (0-based) is present, splits on '/' into three parts, and
      its texture index parses. The vertex index is not checked: its error is
      overwritten before the test. */
  predicate CornerOk(fields: seq<string>, k: nat) {
    k + 1 < |fields|
    && |Token(fields, k)| == 3
    && Atoi(Token(fields, k)[1]).err == NoErr
  }

  /** Face token k (0-based), split on '/'. */
  function Token(fields: seq<string>, k: nat): seq<string>
    requires k + 1 < |fields|
  {
    Split(fields[k + 1], '/')
  }

  /** The first of the three face tokens that fails, or 3 when none does. */
  function FirstBadCorner(fields: seq<string>): nat {
    if !CornerOk(fields, 0) then 0
    else if !CornerOk(fields, 1) then 1
    else if !CornerOk(fields, 2) then 2
    else 3
  }

  /** How a failing face token stops the reader. */
  function CornerHalt(fields: seq<string>, k: nat, line: string, lineNum: nat): Halt
    requires !CornerOk(fields, k)
  {
    if k + 1 >= |fields| then Panicked(IndexOutOfRange(lineNum, k + 1, |fields|))
    else if |Token(fields, k)| != 3 then Failed(LoadError(ShapeMsg, line, lineNum))
    else Failed(LoadError(IndexMsg, line, lineNum))
  }

  /** The stored index for a 1-based index string: `Atoi(s) - 1` in Go's
      64-bit `int`, the value of a malformed string being what `Atoi`
      returns with its error. */
  function StoredIndex(s: string): Int64 {
    var p := Atoi(s);
    Pred(p.value)
  }

  /** The indices one face token contributes: vertex and texture, 0-based. */
  datatype Corner = Corner(vert: Int64, uv: Int64)

  /** The indices good face token k stores. */
  function CornerAt(fields: seq<string>, k: nat): Corner
    requires CornerOk(fields, k)
  {
    var tok := Token(fields, k);
    Corner(StoredIndex(tok[0]), StoredIndex(tok[1]))
  }

  /** Go's `f[0][i] = vi - 1; f[1][i] = vti - 1` for the three tokens:
      corner i in column i. */
  function FaceFrom(c0: Corner, c1: Corner, c2: Corner): Face {
    Face([c0.vert, c1.vert, c2.vert], [c0.uv, c1.uv, c2.uv])
  }

  /** The face a line with three good tokens describes: token k in column k. */
  function FaceOf(fields: seq<string>): Face
    requires FirstBadCorner(fields) == 3
  {
    assert CornerOk(fields, 0) && CornerOk(fields, 1) && CornerOk(fields, 2);
    FaceFrom(CornerAt(fields, 0), CornerAt(fields, 1), CornerAt(fields, 2))
  }

  /** One iteration of the loop over the face tokens, for token `k`. A
      missing token panics, a token without exactly two '/' is the shape
      error, and any other failure is the index error (`CornerText` says
      when a token of the right shape succeeds and what it stores). */
  function ParseCorner(fields: seq<string>, line: string, lineNum: nat, k: nat): (r: Result<Corner>)
    ensures r.Ok? <==> CornerOk(fields, k)
    ensures r.Ok? ==> r.value == CornerAt(fields, k)
    ensures r.Err? ==> r.halt == CornerHalt(fields, k, line, lineNum)
    ensures r.Err? && r.halt.Panicked? <==> k + 1 >= |fields|
    ensures r.Err? && r.halt == Failed(LoadError(ShapeMsg, line, lineNum))
            <==> k + 1 < |fields| && Count(fields[k + 1], '/') != 2
    ensures r.Err? && r.halt.Failed? ==>
              r.halt.error == LoadError(ShapeMsg, line, lineNum) || r.halt.error == LoadError(IndexMsg, line, lineNum)
  {
    if k + 1 >= |fields| then
      Err(Panicked(IndexOutOfRange(lineNum, k + 1, |fields|)))
    else
      var face := Split(fields[k + 1], '/');
      if |face| != 3 then
        Err(Failed(LoadError(ShapeMsg, line, lineNum)))
      else
        var vi := Atoi(face[0]);
        var vti := Atoi(face[1]);
        if vti.err != NoErr then
          Err(Failed(LoadError(IndexMsg, line, lineNum)))
        else
          Ok(Corner(Pred(vi.value), Pred(vti.value)))
  }

  /** A face token `a/b/c`, no part holding a '/': it succeeds exactly when
      its texture part `b` is decimal text of a 64-bit `int`, and then stores
      that value minus one; its vertex part `a`, when it is such text too,
      is stored as its value minus one. Otherwise it is the index error. */
  lemma CornerText(fields: seq<string>, line: string, lineNum: nat, k: nat, a: string, b: string, c: string)
    requires k + 1 < |fields| && fields[k + 1] == a + "/" + b + "/" + c
    requires '/' !in a && '/' !in b && '/' !in c
    ensures var r := ParseCorner(fields, line, lineNum, k);
            && (r.Ok? <==> Int64Text(b))
            && (r.Err? ==> r.halt == Failed(LoadError(IndexMsg, line, lineNum)))
            && (r.Ok? ==> r.value.uv == Pred(SignedValue(b)))
            && (r.Ok? && Int64Text(a) ==> r.value.vert == Pred(SignedValue(a)))
  {
    SplitThree(a, b, c);
    assert Token(fields, k) == [a, b, c];
    ParseIntMeaning(a);
    ParseIntMeaning(b);
  }

  /** A token with exactly two '/' is some `a/b/c` with no '/' in its parts,
      so `CornerText` covers every token that passes the shape test. */
  lemma SlashParts(tok: string) returns (a: string, b: string, c: string)
    requires Count(tok, '/') == 2
    ensures tok == a + "/" + b + "/" + c
    ensures '/' !in a && '/' !in b && '/' !in c
  {
    var parts := Split(tok, '/');
    SplitJoin(tok, '/');
    a, b, c := parts[0], parts[1], parts[2];
    assert parts[1..][1..] == [c];
    assert Join(parts[1..], '/') == b + ['/'] + c;
    assert Join(parts, '/') == a + ['/'] + (b + ['/'] + c);
  }

  lemma SplitThree(a: string, b: string, c: string)
    requires '/' !in a && '/' !in b && '/' !in c
    ensures Split(a + "/" + b + "/" + c, '/') == [a, b, c]
  {
    var parts := [a, b, c];
    assert parts[1..][1..] == [c];
    assert Join(parts[1..], '/') == b + "/" + c;
    assert Join(parts, '/') == a + "/" + b + "/" + c;
    JoinSplit(parts, '/');
  }

  /** The loop over the three face tokens of a `f` line: it stops at the
      first token that fails, and otherwise stores token k's indices in
      column k. */
  function ParseCorners(fields: seq<string>, line: string, lineNum: nat): (r: Result<Face>)
    ensures r.Ok? <==> FirstBadCorner(fields) == 3
    ensures r.Ok? ==> r.value == FaceOf(fields)
    ensures r.Err? ==> r.halt == CornerHalt(fields, FirstBadCorner(fields), line, lineNum)
  {
    match ParseCorner(fields, line, lineNum, 0)
    case Err(h) => Err(h)
    case Ok(c0) =>
      match ParseCorner(fields, line, lineNum, 1)
      case Err(h) => Err(h)
      case Ok(c1) =>
        match ParseCorner(fields, line, lineNum, 2)
        case Err(h) => Err(h)
        case Ok(c2) => Ok(FaceFrom(c0, c1, c2))
  }

  /** Only the first three face tokens are read: a face line with more
      tokens (a quad, say) parses as its first four fields do. */
  lemma ExtraTokensIgnored(fields: seq<string>, line: string, lineNum: nat)
    requires |fields| >= 4
    ensures ParseCorners(fields, line, lineNum) == ParseCorners(fields[..4], line, lineNum)
  {
    var head := fields[..4];
    assert Token(fields, 0) == Token(head, 0);
    assert Token(fields, 1) == Token(head, 1);
    assert Token(fields, 2) == Token(head, 2);
  }

  /** A face line with fewer than three tokens fails at its first failing
      token: it panics on the missing token only when every token it has
      passes. */
  lemma ShortFaceLine(fields: seq<string>, line: string, lineNum: nat)
    requires |fields| < 4
    ensures ParseCorners(fields, line, lineNum).Err?
    ensures ParseCorners(fields, line, lineNum).halt.Panicked?
            <==> forall k: nat :: k + 1 < |fields| ==> ParseCorner(fields, line, lineNum, k).Ok?
  {
    var b := FirstBadCorner(fields);
    assert b + 1 >= |fields| ==> CornerHalt(fields, b, line, lineNum).Panicked?;
    if b + 1 < |fields| {
      assert !ParseCorner(fields, line, lineNum, b).Ok?;
    } else {
      CornersBeforeFirstBad(fields, line, lineNum);
    }
  }

  /** Every face token before the first failing one succeeds. */
  lemma CornersBeforeFirstBad(fields: seq<string>, line: string, lineNum: nat)
    ensures forall k: nat :: k < FirstBadCorner(fields) ==> ParseCorner(fields, line, lineNum, k).Ok?
  {
  }

  /** `f 1/2`: the one token fails the shape test before the missing
      tokens are reached. */
  lemma ShortFaceShape(line: string, lineNum: nat)
    ensures ParseCorners(["f", "1/2"], line, lineNum) == Err(Failed(LoadError(ShapeMsg, line, lineNum)))
  {
    assert Count("1/2", '/') == 1;
  }

  /** A vertex index that is not decimal text of a 64-bit `int` goes
      unreported: its error is overwritten by the texture index's. It is
      stored as 0 - 1 after a syntax error; after a range error it is
      clamped to the bound on its sign's side first, so a too large index is
      stored as `MaxInt - 1` and a too small one wraps round to `MaxInt`. */
  lemma UnreportedVertexIndex(fields: seq<string>, line: string, lineNum: nat, k: nat, a: string, b: string, c: string)
    requires k + 1 < |fields| && fields[k + 1] == a + "/" + b + "/" + c
    requires '/' !in a && '/' !in b && '/' !in c
    requires Int64Text(b) && !Int64Text(a)
    ensures var r := ParseCorner(fields, line, lineNum, k);
            && r.Ok?
            && Atoi(a).err != NoErr
            && r.value.vert == (if Atoi(a).err == ErrSyntax then -1
                                else if SignOf(a) then MaxInt
                                else MaxInt - 1)
  {
    CornerText(fields, line, lineNum, k, a, b, c);
    SplitThree(a, b, c);
    assert Token(fields, k) == [a, b, c];
    ParseIntMeaning(a);
    ParseIntSpec(a);
  }

  // ---------------------------------------------------------------------
  // Lines

  /** What one line adds to the model, once it is known to succeed. */
  function LineVerts<F>(line: string, parseFloat: string -> FloatParse<F>): seq<Vertex<F>> {
    var fields := Fields(line);
    if Keyword(line) == "v" && |fields| >= 4 then
      [Vertex(parseFloat(fields[1]).value, parseFloat(fields[2]).value, parseFloat(fields[3]).value)]
    else []
  }

  function LineUvs<F>(line: string, parseFloat: string -> FloatParse<F>): seq<Uv<F>> {
    var fields := Fields(line);
    if Keyword(line) == "vt" && |fields| >= 3 then
      [Uv(parseFloat(fields[1]).value, parseFloat(fields[2]).value)]
    else []
  }

  function LineFaces(line: string): seq<Face> {
    var fields := Fields(line);
    if Keyword(line) == "f" && FirstBadCorner(fields) == 3 then [FaceOf(fields)] else []
  }

  /** Why a line stops the reader, if it does: a `v` line short of four
      fields or whose z does not parse, a `vt` line short of three fields or
      whose y does not parse, or a face token that fails. */
  predicate LineHalts<F>(line: string, parseFloat: string -> FloatParse<F>) {
    var fields := Fields(line);
    match Keyword(line)
    case "v" => |fields| < 4 || !parseFloat(fields[3]).ok
    case "vt" => |fields| < 3 || !parseFloat(fields[2]).ok
    case "f" => FirstBadCorner(fields) < 3
    case _ => false
  }

  /** One iteration of the reading loop, for line number `lineNum`. */
  function ParseLine<F>(m: Model<F>, line: string, lineNum: nat, parseFloat: string -> FloatParse<F>)
    : (r: Result<Model<F>>)
    ensures r.Err? <==> LineHalts(line, parseFloat)
    ensures r.Ok? ==> r.value == Model(m.uvs + LineUvs(line, parseFloat),
                                       m.verts + LineVerts(line, parseFloat),
                                       m.faces + LineFaces(line))
    ensures r.Err? ==> r.halt.LineNum() == lineNum
    ensures r.Err? && r.halt.Failed? ==> r.halt.error.line == line && Keyword(line) == "f"
  {
    if HasPrefix(line, "#") || HasPrefix(line, " ") then Ok(m)
    else
      var fields := Fields(line);
      if |fields| == 0 then Ok(m)
      else if fields[0] == "v" then
        if |fields| < 4 then Err(Panicked(IndexOutOfRange(lineNum, |fields|, |fields|)))
        else
          var x := parseFloat(fields[1]);
          var y := parseFloat(fields[2]);
          var z := parseFloat(fields[3]);
          if !z.ok then Err(Panicked(BadFloat(lineNum, fields[3])))
          else Ok(m.(verts := m.verts + [Vertex(x.value, y.value, z.value)]))
      else if fields[0] == "f" then
        match ParseCorners(fields, line, lineNum)
        case Ok(f) => Ok(m.(faces := m.faces + [f]))
        case Err(h) => Err(h)
      else if fields[0] == "vt" then
        if |fields| < 3 then Err(Panicked(IndexOutOfRange(lineNum, |fields|, |fields|)))
        else
          var x := parseFloat(fields[1]);
          var y := parseFloat(fields[2]);
          if !y.ok then Err(Panicked(BadFloat(lineNum, fields[2])))
          else Ok(m.(uvs := m.uvs + [Uv(x.value, y.value)]))
      else Ok(m)
  }

  /** Lines that are comments, start with a space, hold no fields or carry
      an unknown keyword are exactly the lines that leave the model as it is. */
  lemma IgnoredLines<F>(m: Model<F>, line: string, lineNum: nat, parseFloat: string -> FloatParse<F>)
    ensures ParseLine(m, line, lineNum, parseFloat) == Ok(m)
            <==> Keyword(line) !in {"v", "vt", "f"}
  {
    var r := ParseLine(m, line, lineNum, parseFloat);
    if Keyword(line) in {"v", "vt", "f"} && r.Ok? {
      assert |r.value.uvs| + |r.value.verts| + |r.value.faces| == |m.uvs| + |m.verts| + |m.faces| + 1;
    }
  }

  // ---------------------------------------------------------------------
  // Files

  /** The reading loop from line index `i` (line number i + 1) on. */
  function Run<F>(lines: seq<string>, i: nat, m: Model<F>, parseFloat: string -> FloatParse<F>)
    : Result<Model<F>>
    requires i <= |lines|
    decreases |lines| - i
  {
    if i == |lines| then Ok(m)
    else
      match ParseLine(m, lines[i], i + 1, parseFloat)
      case Ok(m2) => Run(lines, i + 1, m2, parseFloat)
      case Err(h) => Err(h)
  }

  /** Go's `NewModel` over the lines of the file. */
  function NewModel<F>(lines: seq<string>, parseFloat: string -> FloatParse<F>): Result<Model<F>> {
    Run(lines, 0, EmptyModel(), parseFloat)
  }

  /** The vertices, texture coordinates and faces of a file, read line by
      line independently of each other. */
  function VertsOf<F>(lines: seq<string>, parseFloat: string -> FloatParse<F>): seq<Vertex<F>> {
    if |lines| == 0 then [] else LineVerts(lines[0], parseFloat) + VertsOf(lines[1..], parseFloat)
  }

  function UvsOf<F>(lines: seq<string>, parseFloat: string -> FloatParse<F>): seq<Uv<F>> {
    if |lines| == 0 then [] else LineUvs(lines[0], parseFloat) + UvsOf(lines[1..], parseFloat)
  }

  function FacesOf(lines: seq<string>): seq<Face> {
    if |lines| == 0 then [] else LineFaces(lines[0]) + FacesOf(lines[1..])
  }

  predicate NoLineHalts<F>(lines: seq<string>, parseFloat: string -> FloatParse<F>) {
    forall k {:trigger LineHalts(lines[k], parseFloat)} :: 0 <= k < |lines| ==> !LineHalts(lines[k], parseFloat)
  }

  /** The per-file collections of a non-empty list, by its head and tail. */
  lemma OfCons<F>(lines: seq<string>, parseFloat: string -> FloatParse<F>)
    requires |lines| > 0
    ensures UvsOf(lines, parseFloat) == LineUvs(lines[0], parseFloat) + UvsOf(lines[1..], parseFloat)
    ensures VertsOf(lines, parseFloat) == LineVerts(lines[0], parseFloat) + VertsOf(lines[1..], parseFloat)
    ensures FacesOf(lines) == LineFaces(lines[0]) + FacesOf(lines[1..])
  {
  }

  lemma AppendAssoc<T>(a: seq<T>, b: seq<T>, c: seq<T>)
    ensures a + b + c == a + (b + c)
  {
  }

  /** None of the lines with index in [i, j) halts. */
  predicate NoHaltBetween<F>(lines: seq<string>, i: nat, j: nat, parseFloat: string -> FloatParse<F>)
    requires j <= |lines|
  {
    forall k {:trigger LineHalts(lines[k], parseFloat)} :: i <= k < j ==> !LineHalts(lines[k], parseFloat)
  }

  lemma NoHaltPrefix<F>(lines: seq<string>, j: nat, parseFloat: string -> FloatParse<F>)
    requires j <= |lines| && NoHaltBetween(lines, 0, j, parseFloat)
    ensures NoLineHalts(lines[..j], parseFloat)
  {
    forall k | 0 <= k < j ensures !LineHalts(lines[..j][k], parseFloat) {
      assert lines[..j][k] == lines[k];
    }
  }

  /** `NoLineHalts` of a non-empty list, by its head and tail. */
  lemma NoLineHaltsCons<F>(lines: seq<string>, parseFloat: string -> FloatParse<F>)
    requires |lines| > 0
    ensures NoLineHalts(lines, parseFloat)
            <==> !LineHalts(lines[0], parseFloat) && NoLineHalts(lines[1..], parseFloat)
  {
    if !LineHalts(lines[0], parseFloat) && NoLineHalts(lines[1..], parseFloat) {
      forall k | 0 <= k < |lines| ensures !LineHalts(lines[k], parseFloat) {
        if k > 0 { assert lines[k] == lines[1..][k - 1]; }
      }
    }
  }

  lemma {:induction false} RunSucceeds<F>(lines: seq<string>, i: nat, m: Model<F>, parseFloat: string -> FloatParse<F>)
    requires i <= |lines|
    ensures Run(lines, i, m, parseFloat).Ok? <==> NoLineHalts(lines[i..], parseFloat)
    decreases |lines| - i
  {
    if i < |lines| {
      var rest := lines[i..];
      assert rest[0] == lines[i] && rest[1..] == lines[i + 1..];
      NoLineHaltsCons(rest, parseFloat);
      var r := ParseLine(m, lines[i], i + 1, parseFloat);
      if r.Ok? {
        RunSucceeds(lines, i + 1, r.value, parseFloat);
      }
    } else {
      assert lines[i..] == [];
    }
  }

  lemma {:induction false} RunCollects<F>(lines: seq<string>, i: nat, m: Model<F>, parseFloat: string -> FloatParse<F>)
    requires i <= |lines| && Run(lines, i, m, parseFloat).Ok?
    ensures Run(lines, i, m, parseFloat).value
            == Model(m.uvs + UvsOf(lines[i..], parseFloat),
                     m.verts + VertsOf(lines[i..], parseFloat),
                     m.faces + FacesOf(lines[i..]))
    decreases |lines| - i
  {
    if i < |lines| {
      var rest := lines[i..];
      assert rest[0] == lines[i] && rest[1..] == lines[i + 1..];
      var line := lines[i];
      var r := ParseLine(m, line, i + 1, parseFloat);
      RunCollects(lines, i + 1, r.value, parseFloat);
      OfCons(rest, parseFloat);
      AppendAssoc(m.uvs, LineUvs(line, parseFloat), UvsOf(lines[i + 1..], parseFloat));
      AppendAssoc(m.verts, LineVerts(line, parseFloat), VertsOf(lines[i + 1..], parseFloat));
      AppendAssoc(m.faces, LineFaces(line), FacesOf(lines[i + 1..]));
    } else {
      assert lines[i..] == [];
    }
  }

  /** A file loads exactly when none of its lines halts, and then the model
      holds every line's vertices, texture coordinates and faces in file
      order. */
  lemma NewModelCollects<F>(lines: seq<string>, parseFloat: string -> FloatParse<F>)
    ensures NewModel(lines, parseFloat).Ok? <==> NoLineHalts(lines, parseFloat)
    ensures NewModel(lines, parseFloat).Ok? ==>
              NewModel(lines, parseFloat).value
              == Model(UvsOf(lines, parseFloat), VertsOf(lines, parseFloat), FacesOf(lines))
  {
    RunSucceeds(lines, 0, EmptyModel(), parseFloat);
    if NewModel(lines, parseFloat).Ok? {
      RunCollects(lines, 0, EmptyModel(), parseFloat);
    }
    assert lines[0..] == lines;
  }

  lemma {:induction false} RunHalts<F>(lines: seq<string>, i: nat, m: Model<F>, parseFloat: string -> FloatParse<F>, h: Halt)
    requires i <= |lines| && Run(lines, i, m, parseFloat) == Err(h)
    ensures i < h.LineNum() <= |lines|
    ensures LineHalts(lines[h.LineNum() - 1], parseFloat)
    ensures NoHaltBetween(lines, i, h.LineNum() - 1, parseFloat)
    ensures h.Failed? ==> h.error.line == lines[h.LineNum() - 1]
    decreases |lines| - i
  {
    var r := RunStep(lines, i, m, parseFloat);
    if r.Ok? {
      RunHalts(lines, i + 1, r.value, parseFloat, h);
    }
  }

  /** One turn of the reading loop: line `i` either passes its model on to
      the rest of the loop or is where the loop stops, with its own number
      and text. */
  lemma RunStep<F>(lines: seq<string>, i: nat, m: Model<F>, parseFloat: string -> FloatParse<F>)
    returns (r: Result<Model<F>>)
    requires i < |lines|
    ensures r.Err? <==> LineHalts(lines[i], parseFloat)
    ensures r.Ok? ==> Run(lines, i, m, parseFloat) == Run(lines, i + 1, r.value, parseFloat)
    ensures r.Err? ==> Run(lines, i, m, parseFloat) == r && r.halt.LineNum() == i + 1
    ensures r.Err? && r.halt.Failed? ==> r.halt.error.line == lines[i]
  {
    r := ParseLine(m, lines[i], i + 1, parseFloat);
  }

  /** A file that does not load stops at the first line that halts: the
      reported line number is that line's 1-based number, every earlier line
      is fine, and an error carries the text of that very line. */
  lemma NewModelHalts<F>(lines: seq<string>, parseFloat: string -> FloatParse<F>)
    requires NewModel(lines, parseFloat).Err?
    ensures var h := NewModel(lines, parseFloat).halt;
            && 1 <= h.LineNum() <= |lines|
            && LineHalts(lines[h.LineNum() - 1], parseFloat)
            && NoLineHalts(lines[..h.LineNum() - 1], parseFloat)
            && (h.Failed? ==> h.error.line == lines[h.LineNum() - 1] && h.error.msg in {ShapeMsg, IndexMsg})
  {
    var h := NewModel(lines, parseFloat).halt;
    RunHalts(lines, 0, EmptyModel(), parseFloat, h);
    NoHaltPrefix(lines, h.LineNum() - 1, parseFloat);
    ErrorMessages(lines, 0, EmptyModel(), parseFloat);
  }

  lemma {:induction false} ErrorMessages<F>(lines: seq<string>, i: nat, m: Model<F>, parseFloat: string -> FloatParse<F>)
    requires i <= |lines|
    ensures var r := Run(lines, i, m, parseFloat);
            r.Err? && r.halt.Failed? ==> r.halt.error.msg in {ShapeMsg, IndexMsg}
    decreases |lines| - i
  {
    if i < |lines| {
      var r := ParseLine(m, lines[i], i + 1, parseFloat);
      if r.Ok? {
        ErrorMessages(lines, i + 1, r.value, parseFloat);
      } else if r.halt.Failed? {
        var fields := Fields(lines[i]);
        assert Keyword(lines[i]) == "f";
        assert r.halt == CornerHalt(fields, FirstBadCorner(fields), lines[i], i + 1);
      }
    }
  }

  // ---------------------------------------------------------------------
  // Face lines, concretely

  /** A face of three `v/vt/vn` tokens stores both indices minus one. */
  lemma TriangleFace(line: string)
    requires line == "f 1/4/7 2/5/8 3/6/9"
    ensures LineFaces(line) == [Face([0, 1, 2], [3, 4, 5])]
  {
    var fields := TriangleFields(line);
    assert Keyword(line) == "f" by {
      assert line[..1] == "f";
    }
    TriangleDigits(fields);
    DigitFace(fields);
  }

  lemma TriangleDigits(fields: seq<string>)
    requires fields == ["f", "1/4/7", "2/5/8", "3/6/9"]
    ensures DigitCorner(fields[1]) && DigitCorner(fields[2]) && DigitCorner(fields[3])
    ensures DigitValue(fields[1][0]) == 1 && DigitValue(fields[1][2]) == 4
    ensures DigitValue(fields[2][0]) == 2 && DigitValue(fields[2][2]) == 5
    ensures DigitValue(fields[3][0]) == 3 && DigitValue(fields[3][2]) == 6
  {
  }

  lemma TriangleFields(line: string) returns (fields: seq<string>)
    requires line == "f 1/4/7 2/5/8 3/6/9"
    ensures fields == Fields(line) == ["f", "1/4/7", "2/5/8", "3/6/9"]
  {
    fields := ["f", "1/4/7", "2/5/8", "3/6/9"];
    assert JoinSpaced(fields[3..]) == "3/6/9";
    assert JoinSpaced(fields[2..]) == "2/5/8 3/6/9";
    assert JoinSpaced(fields[1..]) == "1/4/7 2/5/8 3/6/9";
    assert JoinSpaced(fields) == line;
    assert forall k :: 0 <= k < |fields| ==> IsField(fields[k]);
    FieldsJoinSpaced(fields);
  }

  /** A face line whose three tokens have the form `d/d/c` with digits d
      stores the digits minus one. */
  lemma DigitFace(fields: seq<string>)
    requires |fields| == 4
    requires DigitCorner(fields[1]) && DigitCorner(fields[2]) && DigitCorner(fields[3])
    ensures FirstBadCorner(fields) == 3
    ensures FaceOf(fields).verts
            == [DigitValue(fields[1][0]) - 1, DigitValue(fields[2][0]) - 1, DigitValue(fields[3][0]) - 1]
    ensures FaceOf(fields).uvs
            == [DigitValue(fields[1][2]) - 1, DigitValue(fields[2][2]) - 1, DigitValue(fields[3][2]) - 1]
  {
    var v0, u0 := GoodCorner(fields, 0);
    var v1, u1 := GoodCorner(fields, 1);
    var v2, u2 := GoodCorner(fields, 2);
    assert FirstBadCorner(fields) == 3;
  }

  predicate DigitCorner(tok: string) {
    |tok| == 5 && IsDigit(tok[0]) && tok[1] == '/' && IsDigit(tok[2]) && tok[3] == '/' && tok[4] != '/'
  }

  /** Face token k of the form `d/d/c` with digits d: it succeeds and
      stores its two digits minus one. */
  lemma GoodCorner(fields: seq<string>, k: nat) returns (vert: int, uv: int)
    requires k + 1 < |fields| && DigitCorner(fields[k + 1])
    ensures CornerOk(fields, k)
    ensures vert == CornerAt(fields, k).vert == DigitValue(fields[k + 1][0]) - 1
    ensures uv == CornerAt(fields, k).uv == DigitValue(fields[k + 1][2]) - 1
  {
    var tok := fields[k + 1];
    assert tok == [tok[0], '/', tok[2], '/', tok[4]];
    DigitToken(tok[0], tok[2], tok[4]);
    vert := DigitValue(tok[0]) - 1;
    uv := DigitValue(tok[2]) - 1;
  }

  /** A `v/vt/vn` token of single digits. */
  lemma DigitToken(v: char, vt: char, vn: char)
    requires IsDigit(v) && IsDigit(vt) && vn != '/'
    ensures Split([v, '/', vt, '/', vn], '/') == [[v], [vt], [vn]]
    ensures Atoi([v]) == Parsed(DigitValue(v), NoErr)
    ensures Atoi([vt]) == Parsed(DigitValue(vt), NoErr)
  {
    SingleDigit(v);
    SingleDigit(vt);
    var s := [v, '/', vt, '/', vn];
    var t := [vt, '/', vn];
    assert IndexOf([vn], '/') == 1;
    assert Split([vn], '/') == [[vn]];
    assert IndexOf(t, '/') == 1;
    assert t[..1] == [vt] && t[2..] == [vn];
    assert Split(t, '/') == [[vt], [vn]];
    assert IndexOf(s, '/') == 1;
    assert s[..1] == [v] && s[2..] == t;
  }

  lemma SingleDigit(d: char)
    requires IsDigit(d)
    ensures Atoi([d]) == Parsed(DigitValue(d), NoErr)
  {
    ParseIntMeaning([d]);
    assert Unsigned([d]) == [d];
    assert DecValue([d]) == DigitValue(d);
  }
}
