/** The text rules the CSV loaders rely on: the decimal number syntax read by
    C `sscanf("%f")` and C++ `std::stof` (both follow `strtod`: leading blanks,
    the longest numeric prefix, trailing text ignored) and by Go
    `strconv.ParseFloat` (the whole string must be a number), splitting a line
    on commas the way `std::getline(ss, token, ',')` does, and Go's
    `strings.TrimSpace`. */
module CsvNumber {
  import opened Numeric
  import opened Options

  predicate IsDigit(c: char) { '0' <= c <= '9' }

  /** Blank, tab, newline, vertical tab, form feed, carriage return. */
  predicate IsSpace(c: char) { c == ' ' || '\t' <= c <= '\r' }

  predicate AllDigits(s: string) { forall k :: 0 <= k < |s| ==> IsDigit(s[k]) }

  function SkipSpaces(s: string, i: nat): (r: nat)
    requires i <= |s|
    ensures i <= r <= |s|
    ensures forall k :: i <= k < r ==> IsSpace(s[k])
    ensures r == |s| || !IsSpace(s[r])
    decreases |s| - i
  {
    if i < |s| && IsSpace(s[i]) then SkipSpaces(s, i + 1) else i
  }

  /** Every character of `s[i..j]` is a digit. */
  predicate DigitsBetween(s: string, i: nat, j: nat)
    requires i <= j <= |s|
  {
    forall k :: i <= k < j ==> IsDigit(s[k])
  }

  /** End of the run of digits that starts at `i`. */
  function DigitsEnd(s: string, i: nat): (r: nat)
    requires i <= |s|
    ensures i <= r <= |s|
    ensures DigitsBetween(s, i, r)
    ensures r == |s| || !IsDigit(s[r])
    decreases |s| - i
  {
    if i < |s| && IsDigit(s[i]) then DigitsEnd(s, i + 1) else i
  }

  function DigitValue(c: char): nat
    requires IsDigit(c)
  {
    (c as int) - ('0' as int)
  }

  /** The number a string of decimal digits denotes (0 for the empty string). */
  function DigitsValue(ds: string): nat
    requires AllDigits(ds)
  {
    if ds == [] then 0 else 10 * DigitsValue(ds[..|ds| - 1]) + DigitValue(ds[|ds| - 1])
  }

  /** The number the digits `s[i..j]` denote, read in place. */
  function DigitsValueAt(s: string, i: nat, j: nat): nat
    requires i <= j <= |s| && DigitsBetween(s, i, j)
    decreases j
  {
    if j == i then 0 else 10 * DigitsValueAt(s, i, j - 1) + DigitValue(s[j - 1])
  }

  /** Reading in place is reading the slice. */
  lemma {:induction false} DigitsValueAtSlice(s: string, i: nat, j: nat)
    requires i <= j <= |s| && DigitsBetween(s, i, j)
    ensures AllDigits(s[i..j]) && DigitsValueAt(s, i, j) == DigitsValue(s[i..j])
    decreases j
  {
    assert forall k :: 0 <= k < j - i ==> s[i..j][k] == s[i + k];
    if j > i {
      DigitsValueAtSlice(s, i, j - 1);
      assert s[i..j][..j - 1 - i] == s[i..j - 1];
      assert s[i..j][j - 1 - i] == s[j - 1];
    }
  }

  /** `m * 10^e` for an exponent of either sign, one factor of ten at a time. */
  function Scale10(m: real, e: int): real
    decreases if e >= 0 then e else -e
  {
    if e == 0 then m else if e > 0 then 10.0 * Scale10(m, e - 1) else Scale10(m, e + 1) / 10.0
  }

  /** The stepwise scaling is multiplication or division by a power of ten. */
  lemma {:induction false} Scale10Pow(m: real, n: nat)
    ensures Scale10(m, n) == m * Pow10(n) as real
    ensures Scale10(m, -(n as int)) == m / Pow10(n) as real
  {
    if n > 0 {
      Scale10Pow(m, n - 1);
      var p := Pow10(n - 1) as real;
      assert Pow10(n) as real == 10.0 * p;
      assert m * (10.0 * p) == 10.0 * (m * p);
      assert m / (10.0 * p) == (m / p) / 10.0;
    }
  }

  /** A number read from some position: its value and the index just past its
      last character. */
  datatype Scan = Scan(value: real, end: nat)

  /** Digits with an optional fraction, at least one digit in all: its value
      and the index just past it. */
  function ScanMantissa(s: string, p: nat): (r: Option<Scan>)
    requires p <= |s|
    ensures r.Some? ==> p < r.value.end <= |s|
  {
    var p2 := DigitsEnd(s, p);
    var hasDot := p2 < |s| && s[p2] == '.';
    var p3 := if hasDot then p2 + 1 else p2;
    var p4 := if hasDot then DigitsEnd(s, p3) else p2;
    if p2 == p && p4 == p3 then None
    else Some(Scan(DigitsValueAt(s, p, p2) as real + Scale10(DigitsValueAt(s, p3, p4) as real, -(p4 - p3)), p4))
  }

  /** An exponent `e`/`E`, optional sign, digits, starting at `p`: its value
      and the index just past it; `(0, p)` when no digit follows, so that the
      `e` is not part of the number. */
  function ScanExponent(s: string, p: nat): (r: (int, nat))
    requires p <= |s|
    ensures p <= r.1 <= |s|
    ensures r.1 == p ==> r.0 == 0
  {
    if p < |s| && (s[p] == 'e' || s[p] == 'E') then
      var q1 := p + 1;
      var neg := q1 < |s| && s[q1] == '-';
      var q2 := if q1 < |s| && (s[q1] == '-' || s[q1] == '+') then q1 + 1 else q1;
      var q3 := DigitsEnd(s, q2);
      var v: int := DigitsValueAt(s, q2, q3);
      if q3 == q2 then (0, p) else (if neg then -v else v, q3)
    else (0, p)
  }

  /** After optional blanks: an optional sign, a mantissa and an optional
      exponent. `None` when no digit is found, which is where `sscanf` stops
      converting and `stof` throws. */
  function ScanNumber(s: string, i: nat): (r: Option<Scan>)
    requires i <= |s|
    ensures r.Some? ==> i < r.value.end <= |s|
  {
    var p0 := SkipSpaces(s, i);
    var neg := p0 < |s| && s[p0] == '-';
    var p1 := if p0 < |s| && (s[p0] == '-' || s[p0] == '+') then p0 + 1 else p0;
    match ScanMantissa(s, p1)
    case None => None
    case Some(m) =>
      var (e, end) := ScanExponent(s, m.end);
      var mag := Scale10(m.value, e);
      Some(Scan(if neg then -mag else mag, end))
  }

  /** `sscanf(line, "%f,%f,%f", ...) == 3`: three numbers, each of the first
      two followed directly by a comma; text after the third is ignored. */
  function ScanTriple(s: string): (r: Option<(real, real, real)>)
  {
    match ScanNumber(s, 0)
    case None => None
    case Some(a) =>
      if a.end < |s| && s[a.end] == ',' then
        match ScanNumber(s, a.end + 1)
        case None => None
        case Some(b) =>
          if b.end < |s| && s[b.end] == ',' then
            match ScanNumber(s, b.end + 1)
            case None => None
            case Some(c) => Some((a.value, b.value, c.value))
          else None
      else None
  }

  /** `std::stof(token)`: `None` stands for the thrown `std::invalid_argument`. */
  function Stof(token: string): (r: Option<real>)
  {
    match ScanNumber(token, 0)
    case None => None
    case Some(sc) => Some(sc.value)
  }

  /** The index just past the last non-blank before `j` (0 when there is
      none). */
  function TrimEnd(s: string, j: nat): (r: nat)
    requires j <= |s|
    ensures r <= j
    ensures forall k :: r <= k < j ==> IsSpace(s[k])
    ensures r == 0 || !IsSpace(s[r - 1])
  {
    if j > 0 && IsSpace(s[j - 1]) then TrimEnd(s, j - 1) else j
  }

  /** Go `strings.TrimSpace`, over the ASCII blanks. */
  function TrimSpace(s: string): (r: string)
    ensures r == [] || (!IsSpace(r[0]) && !IsSpace(r[|r| - 1]))
  {
    var a, b := SkipSpaces(s, 0), TrimEnd(s, |s|);
    if b <= a then [] else s[a..b]
  }

  /** Go `strconv.ParseFloat(strings.TrimSpace(field), 64)` with its error
      discarded: the value when the whole trimmed field is one number, and 0
      (the value returned beside a syntax error) otherwise. */
  function ParseFloatOrZero(field: string): real
  {
    var t := TrimSpace(field);
    match ScanNumber(t, 0)
    case None => 0.0
    case Some(sc) => if sc.end == |t| then sc.value else 0.0
  }

  /** The text readers the CSV loaders are built on, as values: the loaders'
      contracts hold for any readers, and `SourceReaders` are the ones the
      source calls. */
  datatype Readers = Readers(triple: string -> Option<(real, real, real)>, stof: string -> Option<real>,
                             parse: string -> real, tokens: string -> seq<string>)

  /** `sscanf("%f,%f,%f")`, `std::stof`, Go's `ParseFloat` with its error
      dropped, and the comma tokens of `std::getline`. */
  function SourceReaders(): Readers
  {
    Readers(ScanTriple, Stof, ParseFloatOrZero, GetlineTokens)
  }

  function IndexOf(s: string, c: char): (r: Option<nat>)
    ensures r.None? <==> forall k :: 0 <= k < |s| ==> s[k] != c
    ensures r.Some? ==> r.value < |s| && s[r.value] == c && forall k :: 0 <= k < r.value ==> s[k] != c
  {
    if s == [] then None
    else if s[0] == c then Some(0)
    else match IndexOf(s[1..], c)
      case None => None
      case Some(k) => Some(k + 1)
  }

  /** The fields of `s` between the separators `c` (always at least one). */
  function SplitOn(s: string, c: char): (r: seq<string>)
    ensures |r| >= 1
    decreases |s|
  {
    match IndexOf(s, c)
    case None => [s]
    case Some(k) => [s[..k]] + SplitOn(s[k + 1..], c)
  }

  function JoinWith(fs: seq<string>, c: char): string
    requires |fs| >= 1
  {
    if |fs| == 1 then fs[0] else fs[0] + [c] + JoinWith(fs[1..], c)
  }

  /** Splitting and joining again gives back the line. */
  lemma {:induction false} SplitJoin(s: string, c: char)
    ensures JoinWith(SplitOn(s, c), c) == s
    decreases |s|
  {
    match IndexOf(s, c)
    case None =>
    case Some(k) =>
      SplitJoin(s[k + 1..], c);
      var rest := SplitOn(s[k + 1..], c);
      var r := [s[..k]] + rest;
      assert r[0] == s[..k] && r[1..] == rest && |r| > 1;
      assert JoinWith(r, c) == s[..k] + [c] + JoinWith(rest, c);
      assert s == s[..k] + [c] + s[k + 1..];
  }

  /** No field holds the separator. */
  lemma {:induction false} SplitFieldsSeparatorFree(s: string, c: char)
    ensures forall k :: 0 <= k < |SplitOn(s, c)| ==> c !in SplitOn(s, c)[k]
    decreases |s|
  {
    match IndexOf(s, c)
    case None =>
    case Some(k) =>
      SplitFieldsSeparatorFree(s[k + 1..], c);
      var r := SplitOn(s, c);
      assert r[1..] == SplitOn(s[k + 1..], c);
      forall t | 0 <= t < |r| ensures c !in r[t] {
        if t > 0 { assert r[t] == r[1..][t - 1]; }
      }
  }

  /** The tokens `while (std::getline(ss, token, ','))` produces: the comma
      fields, except that an empty last field is not produced (so an empty
      line has no tokens and a trailing comma adds none). */
  function GetlineTokens(s: string): (r: seq<string>)
    ensures forall k :: 0 <= k < |r| ==> ',' !in r[k]
    ensures s == [] ==> r == []
    ensures s != [] && s[|s| - 1] != ',' ==> |r| >= 1 && JoinWith(r, ',') == s
  {
    var f := SplitOn(s, ',');
    SplitJoin(s, ',');
    SplitFieldsSeparatorFree(s, ',');
    if f[|f| - 1] == [] then
      LastFieldEmpty(s, ',');
      f[..|f| - 1]
    else f
  }

  /** An empty last field means the line is empty or ends with the separator. */
  lemma {:induction false} LastFieldEmpty(s: string, c: char)
    requires SplitOn(s, c)[|SplitOn(s, c)| - 1] == []
    ensures s == [] || s[|s| - 1] == c
    decreases |s|
  {
    match IndexOf(s, c)
    case None =>
    case Some(k) =>
      var rest := SplitOn(s[k + 1..], c);
      assert SplitOn(s, c) == [s[..k]] + rest;
      assert rest[|rest| - 1] == [];
      LastFieldEmpty(s[k + 1..], c);
  }

  lemma {:induction false} DigitsEndOfDigits(s: string, i: nat, j: nat)
    requires i <= j <= |s| && DigitsBetween(s, i, j)
    requires j == |s| || !IsDigit(s[j])
    ensures DigitsEnd(s, i) == j
    decreases j - i
  {
    if i < j {
      DigitsEndOfDigits(s, i + 1, j);
    }
  }

  /** A plain decimal `A.B` (digits `A`, at least one, then a point and digits
      `B`) followed by text that does not continue the number reads as
      `A + B / 10^|B|` and ends after `B`. */
  lemma {:induction false} ScanDecimal(s: string, a: string, b: string, rest: string)
    requires |a| > 0 && AllDigits(a) && AllDigits(b)
    requires rest == [] || !(IsDigit(rest[0]) || rest[0] == 'e' || rest[0] == 'E')
    requires s == a + "." + b + rest
    ensures ScanNumber(s, 0) ==
      Some(Scan(DigitsValue(a) as real + Scale10(DigitsValue(b) as real, -|b|), |a| + 1 + |b|))
  {
    var e := |a| + 1 + |b|;
    DecimalLayout(s, a, b, rest);
    var value := DigitsValue(a) as real + Scale10(DigitsValue(b) as real, -|b|);
    assert ScanMantissa(s, 0) == Some(Scan(value, e));
    assert ScanExponent(s, e) == (0, e);
    assert Scale10(value, 0) == value;
  }

  /** Where the parts of `A.B` followed by `rest` lie in the text, and what
      their digits read as in place. */
  lemma {:induction false} DecimalLayout(s: string, a: string, b: string, rest: string)
    requires |a| > 0 && AllDigits(a) && AllDigits(b)
    requires rest == [] || !(IsDigit(rest[0]) || rest[0] == 'e' || rest[0] == 'E')
    requires s == a + "." + b + rest
    ensures |s| >= |a| + 1 + |b| && SkipSpaces(s, 0) == 0 && IsDigit(s[0])
    ensures DigitsEnd(s, 0) == |a| && s[|a|] == '.' && DigitsEnd(s, |a| + 1) == |a| + 1 + |b|
    ensures DigitsBetween(s, 0, |a|) && DigitsValueAt(s, 0, |a|) == DigitsValue(a)
    ensures DigitsBetween(s, |a| + 1, |a| + 1 + |b|) && DigitsValueAt(s, |a| + 1, |a| + 1 + |b|) == DigitsValue(b)
    ensures |a| + 1 + |b| < |s| ==> !(s[|a| + 1 + |b|] == 'e' || s[|a| + 1 + |b|] == 'E')
  {
    var e := |a| + 1 + |b|;
    assert s[0] == a[0];
    assert SkipSpaces(s, 0) == 0;
    assert s[0..|a|] == a;
    assert s[|a|] == '.';
    assert s[|a| + 1..e] == b;
    assert DigitsBetween(s, 0, |a|) by {
      assert forall k :: 0 <= k < |a| ==> s[k] == a[k];
    }
    assert DigitsBetween(s, |a| + 1, e) by {
      assert forall k :: |a| + 1 <= k < e ==> s[k] == b[k - |a| - 1];
    }
    DigitsEndOfDigits(s, 0, |a|);
    assert e < |s| ==> s[e] == rest[0];
    DigitsEndOfDigits(s, |a| + 1, e);
    DigitsValueAtSlice(s, 0, |a|);
    DigitsValueAtSlice(s, |a| + 1, e);
  }

  /** Go reads the same plain decimal. */
  lemma {:induction false} ParseDecimal(a: string, b: string)
    requires |a| > 0 && AllDigits(a) && AllDigits(b)
    ensures ParseFloatOrZero(a + "." + b) == DigitsValue(a) as real + Scale10(DigitsValue(b) as real, -|b|)
  {
    var s := a + "." + b;
    assert s[0] == a[0];
    assert s[|s| - 1] == if b == [] then '.' else b[|b| - 1];
    TrimNoop(s);
    assert a + "." + b + [] == s;
    ScanDecimal(s, a, b, []);
    var value := DigitsValue(a) as real + Scale10(DigitsValue(b) as real, -|b|);
    assert ScanNumber(s, 0) == Some(Scan(value, |s|));
    ScanToParse(s, value);
  }

  lemma {:induction false} ScanToParse(s: string, v: real)
    requires TrimSpace(s) == s && ScanNumber(s, 0) == Some(Scan(v, |s|))
    ensures ParseFloatOrZero(s) == v
  {
  }

  lemma {:induction false} TrimNoop(s: string)
    requires s != [] && !IsSpace(s[0]) && !IsSpace(s[|s| - 1])
    ensures TrimSpace(s) == s
  {
    assert SkipSpaces(s, 0) == 0;
    assert TrimEnd(s, |s|) == |s|;
    assert s[0..|s|] == s;
  }
  /** `1e1` reads as ten, both through `std::stof` and through `ParseFloat`. */
  lemma ExponentNumberRead()
    ensures Stof("1e1") == Some(10.0) && ParseFloatOrZero("1e1") == 10.0
  {
    var s := "1e1";
    assert SkipSpaces(s, 0) == 0;
    assert DigitsBetween(s, 0, 1);
    DigitsEndOfDigits(s, 0, 1);
    assert DigitsValueAt(s, 0, 1) == 1;
    assert ScanMantissa(s, 0) == Some(Scan(1.0, 1));
    assert DigitsBetween(s, 2, 3);
    DigitsEndOfDigits(s, 2, 3);
    assert DigitsValueAt(s, 2, 3) == 1;
    assert ScanExponent(s, 1) == (1, 3);
    assert Scale10(1.0, 1) == 10.0;
    assert ScanNumber(s, 0) == Some(Scan(10.0, 3));
    TrimNoop(s);
    ScanToParse(s, 10.0);
  }

  /** `0` reads as zero through `std::stof`. */
  lemma ZeroRead()
    ensures Stof("0") == Some(0.0)
  {
    var s := "0";
    assert SkipSpaces(s, 0) == 0;
    assert DigitsBetween(s, 0, 1);
    DigitsEndOfDigits(s, 0, 1);
    assert DigitsValueAt(s, 0, 1) == 0;
    assert ScanMantissa(s, 0) == Some(Scan(0.0, 1));
    assert ScanExponent(s, 1) == (0, 1);
  }

  /** The comma tokens of `0,0,1e1`. */
  lemma ExponentLineTokens()
    ensures GetlineTokens("0,0,1e1") == ["0", "0", "1e1"]
  {
    var s := "0,0,1e1";
    var s2, s3 := "0,1e1", "1e1";
    assert IndexOf(s3, ',') == None by {
      assert IndexOf(s3[1..], ',') == None by {
        assert IndexOf(s3[1..][1..], ',') == None;
      }
    }
    assert SplitOn(s3, ',') == [s3];
    assert IndexOf(s2, ',') == Some(1);
    assert s2[..1] == "0" && s2[2..] == s3;
    assert SplitOn(s2, ',') == ["0", "1e1"];
    assert IndexOf(s, ',') == Some(1);
    assert s[..1] == "0" && s[2..] == s2;
    assert SplitOn(s, ',') == ["0", "0", "1e1"];
  }
}
