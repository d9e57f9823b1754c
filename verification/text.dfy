/** The Go string routines the OBJ reader relies on, over strings of
    code points: `strings.Fields`, `strings.Split` with a one-character
    separator, `strings.HasPrefix`, and base-10 `strconv.Atoi` with its fast
    path, its `ParseInt` slow path and its error kinds. `Itoa` (the `%d` verb)
    is the printing side used in error messages. */
module Text {
  import opened MachineInt

  /** Go's `unicode.IsSpace`: the ASCII spaces, NEL, NBSP and the other
      code points with the Unicode White_Space property. */
  predicate IsSpace(c: char) {
    || c == '\t' || c == '\n' || c == '\U{000B}' || c == '\U{000C}' || c == '\r' || c == ' '
    || c == '\U{0085}' || c == '\U{00A0}' || c == '\U{1680}'
    || ('\U{2000}' <= c <= '\U{200A}')
    || c == '\U{2028}' || c == '\U{2029}' || c == '\U{202F}' || c == '\U{205F}' || c == '\U{3000}'
  }

  predicate HasPrefix(s: string, prefix: string) {
    |prefix| <= |s| && s[..|prefix|] == prefix
  }

  predicate NoSpace(s: string) {
    forall i :: 0 <= i < |s| ==> !IsSpace(s[i])
  }

  /** A field: a non-empty run of non-space characters. */
  predicate IsField(f: string) {
    |f| > 0 && NoSpace(f)
  }

  /** Length of the longest non-space prefix. */
  function WordLength(s: string): (n: nat)
    ensures n <= |s| && NoSpace(s[..n])
    ensures n < |s| ==> IsSpace(s[n])
  {
    if |s| == 0 || IsSpace(s[0]) then 0
    else
      var n := 1 + WordLength(s[1..]);
      assert s[..n] == [s[0]] + s[1..][..n - 1];
      n
  }

  /** Go's `strings.Fields`: the maximal runs of non-space characters, in
      order. */
  function Fields(s: string): (fs: seq<string>)
    ensures forall i :: 0 <= i < |fs| ==> IsField(fs[i])
    decreases |s|
  {
    if |s| == 0 then []
    else if IsSpace(s[0]) then Fields(s[1..])
    else
      var n := WordLength(s);
      [s[..n]] + Fields(s[n..])
  }

  /** A space character separates fields: the fields on either side of it
      are found independently. With `FieldsJoinSpaced` this fixes `Fields`
      on every input. */
  lemma {:induction false} FieldsAtSpace(a: string, c: char, b: string)
    requires IsSpace(c)
    ensures Fields(a + [c] + b) == Fields(a) + Fields(b)
    decreases |a|
  {
    var s := a + [c] + b;
    if |a| == 0 {
      assert s == [c] + b && s[1..] == b;
    } else if IsSpace(a[0]) {
      assert s[0] == a[0] && s[1..] == a[1..] + [c] + b;
      FieldsAtSpace(a[1..], c, b);
    } else {
      assert s[0] == a[0];
      WordLengthAtSpace(a, c, b);
      var n := WordLength(a);
      assert s[..n] == a[..n];
      assert s[n..] == a[n..] + [c] + b;
      FieldsAtSpace(a[n..], c, b);
    }
  }

  /** A word ends no later than the next space. */
  lemma {:induction false} WordLengthAtSpace(a: string, c: char, b: string)
    requires IsSpace(c)
    ensures WordLength(a + [c] + b) == WordLength(a)
    decreases |a|
  {
    var s := a + [c] + b;
    if |a| == 0 {
      assert s[0] == c;
    } else if !IsSpace(a[0]) {
      assert s[0] == a[0] && s[1..] == a[1..] + [c] + b;
      WordLengthAtSpace(a[1..], c, b);
    } else {
      assert s[0] == a[0];
    }
  }

  /** The characters of `s` with every space removed. */
  function Squeeze(s: string): string {
    if |s| == 0 then []
    else if IsSpace(s[0]) then Squeeze(s[1..])
    else [s[0]] + Squeeze(s[1..])
  }

  function Concat(fs: seq<string>): string {
    if |fs| == 0 then [] else fs[0] + Concat(fs[1..])
  }

  lemma SqueezeAppend(a: string, b: string)
    ensures Squeeze(a + b) == Squeeze(a) + Squeeze(b)
  {
    if |a| > 0 {
      assert (a + b)[0] == a[0] && (a + b)[1..] == a[1..] + b;
      SqueezeAppend(a[1..], b);
    } else {
      assert a + b == b;
    }
  }

  lemma SqueezeNoSpace(s: string)
    requires NoSpace(s)
    ensures Squeeze(s) == s
  {
  }

  /** Fields lose only the spaces: their concatenation is the input with its
      spaces removed. */
  lemma {:induction false} FieldsKeepText(s: string)
    ensures Concat(Fields(s)) == Squeeze(s)
    decreases |s|
  {
    if |s| == 0 {
    } else if IsSpace(s[0]) {
      FieldsKeepText(s[1..]);
    } else {
      var n := WordLength(s);
      FieldsKeepText(s[n..]);
      assert s == s[..n] + s[n..];
      SqueezeAppend(s[..n], s[n..]);
      SqueezeNoSpace(s[..n]);
      assert Fields(s)[1..] == Fields(s[n..]);
    }
  }

  /** The fields joined with one space between neighbours. */
  function JoinSpaced(fs: seq<string>): string {
    if |fs| == 0 then []
    else if |fs| == 1 then fs[0]
    else fs[0] + " " + JoinSpaced(fs[1..])
  }

  lemma {:induction false} WordLengthOfField(f: string, rest: string)
    requires IsField(f) && (|rest| == 0 || IsSpace(rest[0]))
    ensures WordLength(f + rest) == |f|
    decreases |f|
  {
    var s := f + rest;
    assert s[0] == f[0] && !IsSpace(f[0]);
    if |f| == 1 {
      assert s[1..] == rest;
    } else {
      assert s[1..] == f[1..] + rest;
      assert forall i :: 0 <= i < |f| - 1 ==> f[1..][i] == f[i + 1];
      WordLengthOfField(f[1..], rest);
    }
  }

  /** Splitting fields joined by single spaces gives the fields back. */
  lemma {:induction false} FieldsJoinSpaced(fs: seq<string>)
    requires forall i :: 0 <= i < |fs| ==> IsField(fs[i])
    ensures Fields(JoinSpaced(fs)) == fs
  {
    if |fs| == 1 {
      var f := fs[0];
      WordLengthOfField(f, []);
      assert f + [] == f;
      assert f[|f|..] == [];
    } else if |fs| > 1 {
      var f, rest := fs[0], JoinSpaced(fs[1..]);
      var s := f + " " + rest;
      assert s == f + (" " + rest);
      WordLengthOfField(f, " " + rest);
      assert s[..|f|] == f;
      assert s[|f|..] == " " + rest;
      assert (" " + rest)[1..] == rest;
      FieldsJoinSpaced(fs[1..]);
    }
  }

  /** Leading spaces do not change the fields. */
  lemma FieldsSkipSpace(c: char, s: string)
    requires IsSpace(c)
    ensures Fields([c] + s) == Fields(s)
  {
    assert ([c] + s)[1..] == s;
  }

  /** Number of occurrences of `c` in `s`. */
  function Count(s: string, c: char): nat {
    if |s| == 0 then 0 else (if s[0] == c then 1 else 0) + Count(s[1..], c)
  }

  /** Index of the first `c` in `s`, or `|s|` when there is none. */
  function IndexOf(s: string, c: char): (i: nat)
    ensures i <= |s| && (i < |s| ==> s[i] == c)
    ensures forall k :: 0 <= k < i ==> s[k] != c
  {
    if |s| == 0 then 0
    else if s[0] == c then 0
    else 1 + IndexOf(s[1..], c)
  }

  /** Go's `strings.Split(s, sep)` for a one-character `sep`: the pieces
      between separators, one more piece than there are separators (the
      empty string gives one empty piece). */
  function Split(s: string, sep: char): (parts: seq<string>)
    ensures |parts| == Count(s, sep) + 1
    ensures forall i :: 0 <= i < |parts| ==> sep !in parts[i]
    decreases |s|
  {
    var i := IndexOf(s, sep);
    if i == |s| then
      CountAbsent(s, sep);
      [s]
    else
      CountSplit(s, sep, i);
      [s[..i]] + Split(s[i + 1..], sep)
  }

  lemma CountAbsent(s: string, c: char)
    requires forall k :: 0 <= k < |s| ==> s[k] != c
    ensures Count(s, c) == 0
  {
  }

  lemma {:induction false} CountSplit(s: string, c: char, i: nat)
    requires i < |s| && s[i] == c && forall k :: 0 <= k < i ==> s[k] != c
    ensures Count(s, c) == 1 + Count(s[i + 1..], c)
  {
    if i > 0 {
      assert s[1..][i - 1 + 1..] == s[i + 1..];
      CountSplit(s[1..], c, i - 1);
    }
  }

  /** The pieces joined with the separator. */
  function Join(parts: seq<string>, sep: char): string
    requires |parts| > 0
  {
    if |parts| == 1 then parts[0] else parts[0] + [sep] + Join(parts[1..], sep)
  }

  /** Splitting loses nothing: joining the pieces gives the input back. */
  lemma {:induction false} SplitJoin(s: string, sep: char)
    ensures Join(Split(s, sep), sep) == s
    decreases |s|
  {
    var i := IndexOf(s, sep);
    if i < |s| {
      SplitJoin(s[i + 1..], sep);
      assert s == s[..i] + [sep] + s[i + 1..];
    }
  }

  /** Joining pieces that hold no separator and splitting again gives the
      pieces back. */
  lemma {:induction false} JoinSplit(parts: seq<string>, sep: char)
    requires |parts| > 0 && forall i :: 0 <= i < |parts| ==> sep !in parts[i]
    ensures Split(Join(parts, sep), sep) == parts
  {
    var p := parts[0];
    if |parts| == 1 {
      assert IndexOf(p, sep) == |p|;
    } else {
      var rest := Join(parts[1..], sep);
      var s := p + [sep] + rest;
      assert Join(parts, sep) == s;
      IndexAfterPiece(p, sep, rest);
      assert s[..|p|] == p;
      assert s[|p| + 1..] == rest;
      assert Split(s, sep) == [p] + Split(rest, sep);
      JoinSplit(parts[1..], sep);
      assert parts == [p] + parts[1..];
    }
  }

  lemma IndexAfterPiece(p: string, sep: char, rest: string)
    requires sep !in p
    ensures IndexOf(p + [sep] + rest, sep) == |p|
    decreases |p|
  {
    if |p| > 0 {
      assert (p + [sep] + rest)[1..] == p[1..] + [sep] + rest;
      IndexAfterPiece(p[1..], sep, rest);
    }
  }

  // ---------------------------------------------------------------------
  // Decimal integers

  predicate IsDigit(c: char) { '0' <= c <= '9' }

  function DigitValue(c: char): nat
    requires IsDigit(c)
  {
    (c - '0') as nat
  }

  function DigitChar(d: nat): (c: char)
    requires d < 10
    ensures IsDigit(c) && DigitValue(c) == d
  {
    ('0' as int + d) as char
  }

  predicate AllDigits(s: string) {
    forall i :: 0 <= i < |s| ==> IsDigit(s[i])
  }

  /** The value of a digit string read left to right, as `n = n*10 + d`. */
  function DecValue(s: string): nat
    requires AllDigits(s)
  {
    if |s| == 0 then 0 else DecValue(s[..|s| - 1]) * 10 + DigitValue(s[|s| - 1])
  }

  function Pow10(n: nat): (p: nat)
    ensures p >= 1
  {
    if n == 0 then 1 else 10 * Pow10(n - 1)
  }

  /** A digit string of length n is worth less than 10^n. */
  lemma {:induction false} DecValueBound(s: string)
    requires AllDigits(s)
    ensures DecValue(s) < Pow10(|s|)
  {
    if |s| > 0 {
      DecValueBound(s[..|s| - 1]);
    }
  }

  /** Reading further digits never lowers the value. */
  lemma {:induction false} DecValuePrefix(s: string, i: nat, j: nat)
    requires i <= j <= |s| && AllDigits(s[..j])
    ensures AllDigits(s[..i]) && DecValue(s[..i]) <= DecValue(s[..j])
    decreases j - i
  {
    assert s[..j][..i] == s[..i];
    if i < j {
      assert s[..j][..j - 1] == s[..j - 1];
      DecValuePrefix(s, i, j - 1);
    }
  }

  /** Length of the longest all-digit prefix. */
  function LeadingDigits(s: string): (m: nat)
    ensures m <= |s| && AllDigits(s[..m])
    ensures m < |s| ==> !IsDigit(s[m])
  {
    if |s| == 0 || !IsDigit(s[0]) then 0
    else
      var m := 1 + LeadingDigits(s[1..]);
      assert s[..m] == [s[0]] + s[1..][..m - 1];
      m
  }

  /** The error kinds of `strconv`: none, `ErrSyntax`, `ErrRange`. */
  datatype NumErr = NoErr | ErrSyntax | ErrRange

  /** A conversion's value and error, as Go returns them together. */
  datatype Parsed = Parsed(value: int, err: NumErr)

  /** `cutoff` of `ParseUint` for base 10 and 64 bits: the least value whose
      tenfold overflows. */
  const UintCutoff: int := MaxUint / 10 + 1

  /** What `ParseUint(s, 10, 64)` returns, stated declaratively: the value of
      the digits when they are all digits and fit in 64 bits; the maximum with
      `ErrRange` when the leading digits already overflow (the loop reports
      overflow before it reaches a later bad character); otherwise 0 with
      `ErrSyntax`. */
  function UintSpec(s: string): Parsed {
    var m := LeadingDigits(s);
    if |s| == 0 then Parsed(0, ErrSyntax)
    else if DecValue(s[..m]) > MaxUint then Parsed(MaxUint, ErrRange)
    else if m < |s| then Parsed(0, ErrSyntax)
    else Parsed(DecValue(s[..m]), NoErr)
  }

  /** The digit loop of `ParseUint`, from position `i` with `n` read so far:
      a bad character stops with `ErrSyntax`, an overflowing step with the
      maximum and `ErrRange`. */
  function ScanUint(s: string, i: nat, n: nat): (r: Parsed)
    requires i <= LeadingDigits(s) && n == DecValue(s[..i]) && n <= MaxUint
    ensures r == (var m := LeadingDigits(s);
                  if DecValue(s[..m]) > MaxUint then Parsed(MaxUint, ErrRange)
                  else if m < |s| then Parsed(0, ErrSyntax)
                  else Parsed(DecValue(s[..m]), NoErr))
    decreases |s| - i
  {
    var m := LeadingDigits(s);
    if i == |s| then
      assert s[..i] == s[..m];
      Parsed(n, NoErr)
    else if !IsDigit(s[i]) then
      assert s[..i] == s[..m];
      Parsed(0, ErrSyntax)
    else
      assert s[..i + 1][..i] == s[..i];
      var n1 := n * 10 + DigitValue(s[i]);
      assert n1 == DecValue(s[..i + 1]);
      DecValuePrefix(s, i + 1, m);
      if n >= UintCutoff then Parsed(MaxUint, ErrRange)
      else if n1 > MaxUint then Parsed(MaxUint, ErrRange)
      else ScanUint(s, i + 1, n1)
  }

  /** Go's `ParseUint(s, 10, 64)`. */
  function ParseUint(s: string): (r: Parsed)
    ensures r == UintSpec(s)
  {
    if |s| == 0 then Parsed(0, ErrSyntax) else ScanUint(s, 0, 0)
  }

  /** Go's `ParseInt(s, 10, 0)` on a 64-bit target: an optional sign, then
      `ParseUint`; a syntax error gives 0, a magnitude out of range gives the
      nearest 64-bit bound with `ErrRange`. */
  function ParseInt(s: string): (r: Parsed)
    ensures MinInt <= r.value <= MaxInt
  {
    if |s| == 0 then Parsed(0, ErrSyntax)
    else
      var neg := s[0] == '-';
      var digits := if s[0] == '+' || s[0] == '-' then s[1..] else s;
      var m := LeadingDigits(digits);
      var u := ParseUint(digits);
      if u.err != NoErr && u.err != ErrRange then Parsed(0, u.err)
      else if !neg && u.value >= -MinInt then Parsed(MaxInt, ErrRange)
      else if neg && u.value > -MinInt then Parsed(MinInt, ErrRange)
      else Parsed(if neg then -u.value else u.value, u.err)
  }

  /** What `ParseInt(s, 10, 0)` returns, stated declaratively over the
      leading digits after the optional sign: a syntax error (value 0) for no
      digits, or for a later bad character while the leading digits still fit
      in 64 unsigned bits; the bound on the side of the sign with `ErrRange`
      when the magnitude is too large for a signed 64-bit value; otherwise
      the signed value. */
  function IntSpec(s: string): Parsed {
    var neg, digits := SignOf(s), Unsigned(s);
    var m := LeadingDigits(digits);
    var v := DecValue(digits[..m]);
    if |digits| == 0 || (v <= MaxUint && m < |digits|) then Parsed(0, ErrSyntax)
    else if neg && v > -MinInt then Parsed(MinInt, ErrRange)
    else if !neg && v > MaxInt then Parsed(MaxInt, ErrRange)
    else Parsed(if neg then -(v as int) else v, NoErr)
  }

  /** `ParseInt`, built on the `ParseUint` loop, returns what `IntSpec` says. */
  lemma ParseIntSpec(s: string)
    ensures ParseInt(s) == IntSpec(s)
  {
    if |s| > 0 {
      var digits := Unsigned(s);
      assert UintSpec(digits) == ParseUint(digits);
    }
  }

  /** When `ParseInt` succeeds: exactly on `Int64Text`, with its signed
      value. */
  lemma ParseIntMeaning(s: string)
    ensures ParseInt(s).err == NoErr <==> Int64Text(s)
    ensures Int64Text(s) ==> ParseInt(s).value == SignedValue(s)
  {
    ParseIntSpec(s);
    var digits := Unsigned(s);
    var m := LeadingDigits(digits);
    assert m == |digits| ==> digits[..m] == digits;
    assert AllDigits(digits) <==> m == |digits|;
  }

  /** Decimal text of a 64-bit `int`: an optional sign, at least one digit
      and nothing else, its signed value within range. */
  predicate Int64Text(s: string) {
    var digits := Unsigned(s);
    |digits| > 0 && AllDigits(digits)
    && (if SignOf(s) then DecValue(digits) <= -MinInt else DecValue(digits) <= MaxInt)
  }

  /** The value `Int64Text` denotes. */
  function SignedValue(s: string): (v: Int64)
    requires Int64Text(s)
  {
    if SignOf(s) then -(DecValue(Unsigned(s)) as int) else DecValue(Unsigned(s))
  }

  /** The sign `ParseInt` sees: a leading '-'. */
  predicate SignOf(s: string) { |s| > 0 && s[0] == '-' }

  /** `s` without its leading sign, if any. */
  function Unsigned(s: string): string {
    if |s| > 0 && (s[0] == '+' || s[0] == '-') then s[1..] else s
  }

  /** The digit loop of `Atoi`'s fast path: any non-digit is a syntax error. */
  function FastDigits(s: string, i: nat, n: nat): (r: Parsed)
    requires i <= |s|
    decreases |s| - i
  {
    if i == |s| then Parsed(n, NoErr)
    else if !IsDigit(s[i]) then Parsed(0, ErrSyntax)
    else FastDigits(s, i + 1, n * 10 + DigitValue(s[i]))
  }

  lemma {:induction false} FastDigitsValue(s: string, i: nat, n: nat)
    requires i <= |s| && AllDigits(s[..i]) && n == DecValue(s[..i])
    ensures FastDigits(s, i, n) == (if AllDigits(s) then Parsed(DecValue(s), NoErr) else Parsed(0, ErrSyntax))
    decreases |s| - i
  {
    if i == |s| {
      assert s[..i] == s;
    } else if IsDigit(s[i]) {
      assert s[..i + 1][..i] == s[..i];
      FastDigitsValue(s, i + 1, n * 10 + DigitValue(s[i]));
    }
  }

  /** `Atoi`'s fast path for strings of 1 to 18 characters, which cannot
      overflow. */
  function FastAtoi(s: string): Parsed
    requires 0 < |s| < 19
  {
    var digits := if s[0] == '-' || s[0] == '+' then s[1..] else s;
    if |digits| < 1 then Parsed(0, ErrSyntax)
    else
      var r := FastDigits(digits, 0, 0);
      if r.err != NoErr then r
      else Parsed(if s[0] == '-' then -r.value else r.value, NoErr)
  }

  /** Go's `strconv.Atoi` on a 64-bit target: a fast path for strings of 1
      to 18 characters, `ParseInt` otherwise. Whatever the path, the result
      is `ParseInt`'s, so a string of code points is read the same whichever
      path its byte length would select. */
  function Atoi(s: string): (r: Parsed)
    ensures r == ParseInt(s)
  {
    if 0 < |s| < 19 then
      FastAtoiAgrees(s);
      FastAtoi(s)
    else ParseInt(s)
  }

  /** The fast path is only a shortcut: it returns what `ParseInt` would. */
  lemma FastAtoiAgrees(s: string)
    requires 0 < |s| < 19
    ensures FastAtoi(s) == ParseInt(s)
  {
    ParseIntSpec(s);
    var digits := Unsigned(s);
    if |digits| > 0 {
      assert digits[..0] == [];
      FastDigitsValue(digits, 0, 0);
      var m := LeadingDigits(digits);
      DecValueBound(digits[..m]);
      Pow10Le(m, 18);
      Pow10Add(9, 9);
      assert Pow10(9) == 1_000_000_000;
      if AllDigits(digits) {
        assert digits[..m] == digits;
      }
    }
  }

  lemma {:induction false} Pow10Add(a: nat, b: nat)
    ensures Pow10(a + b) == Pow10(a) * Pow10(b)
  {
    if b > 0 {
      Pow10Add(a, b - 1);
      assert Pow10(a + b) == 10 * Pow10(a + b - 1);
    }
  }

  lemma Pow10Le(a: nat, b: nat)
    requires a <= b
    ensures Pow10(a) <= Pow10(b)
    decreases b
  {
    if a < b {
      Pow10Le(a, b - 1);
    }
  }

  /** The decimal digits of a natural number, most significant first. */
  function Decimal(n: nat): (s: string)
    ensures |s| > 0 && AllDigits(s) && DecValue(s) == n
    ensures n == 0 || s[0] != '0'
  {
    if n < 10 then [DigitChar(n)]
    else
      var s := Decimal(n / 10) + [DigitChar(n % 10)];
      assert s[..|s| - 1] == Decimal(n / 10);
      s
  }

  /** Go's `strconv.Itoa`, also what the `%d` verb prints. */
  function Itoa(n: int): string {
    if n < 0 then "-" + Decimal(-n) else Decimal(n)
  }

  /** Printing and reading back a 64-bit integer is the identity. */
  lemma AtoiItoa(n: Int64)
    ensures Atoi(Itoa(n)) == Parsed(n, NoErr)
  {
    var s := Itoa(n);
    ParseIntMeaning(s);
    if n < 0 {
      assert Unsigned(s) == Decimal(-(n as int));
    } else {
      assert Unsigned(s) == Decimal(n);
    }
  }
}
