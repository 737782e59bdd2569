/** The snow depth map: a 0.1 degree world grid of depths (`DepthMap` in
    the C++ of the plugin and of the services layer, `depthMap` in Go), read
    by grid index and by bilinear interpolation, and filled from CSV. */
module DepthMaps {
  import opened Numeric
  import opened Options
  import opened Grid
  import opened CsvNumber

  class DepthMap {
    const w: nat
    const h: nat
    /** `val[i, j]`: longitude column `i`, latitude row `j`. */
    var val: array2<real>

    ghost predicate Valid()
      reads this
    {
      val.Length0 == w && val.Length1 == h && w > 0 && h > 0
    }

    /** The array holds the grid `g`. */
    ghost predicate Holds(g: Field)
      reads this, val
    {
      val.Length0 == w && val.Length1 == h && IsGrid(g, w, h) &&
      forall i, j :: 0 <= i < w && 0 <= j < h ==> val[i, j] == g[i][j]
    }

    ghost function Cells(): (g: Field)
      reads this, val
      requires Valid()
      ensures Holds(g)
    {
      var a := val;
      seq(w, i requires 0 <= i < a.Length0 reads a =>
        seq(h, j requires 0 <= j < a.Length1 reads a => a[i, j]))
    }

    /** A map of zero depth (the zero-initialised storage). */
    constructor (w: nat, h: nat)
      requires w > 0 && h > 0
      ensures Valid() && this.w == w && this.h == h && fresh(val)
      ensures Holds(Zeros(w, h))
    {
      this.w := w;
      this.h := h;
      val := new real[w, h]((i, j) => 0.0);
    }

    /** `get_idx` / `GetIdx`: the column wraps by one period, the row is
        clamped to the grid. */
    function GetIdx(iLon: int, iLat: int): (r: real)
      reads this, val
      requires Valid() && -(w as int) <= iLon < 2 * w
      ensures 0 <= iLon < w && 0 <= iLat < h ==> r == val[iLon, iLat]
    {
      val[WrapOnce(iLon, w), Clamp(iLat, h)]
    }

    /** `get` / `Get`: the bilinear blend of the four cells around the
        grid coordinates of `(lon, lat)`.  Where those coordinates are not
        negative the result lies between the four corners, and on a grid
        point it is that cell's depth. */
    function Get(lon: real, lat: real): (r: real)
      reads this, val
      requires Valid() && InLonRange(LonCoord(lon), w)
      ensures var x, y := LonCoord(lon), LatCoord(lat);
              var i, j := Trunc(x), Trunc(y);
              x >= 0.0 && y >= 0.0 ==>
                Min4(GetIdx(i, j), GetIdx(i + 1, j), GetIdx(i, j + 1), GetIdx(i + 1, j + 1)) <= r <=
                Max4(GetIdx(i, j), GetIdx(i + 1, j), GetIdx(i, j + 1), GetIdx(i + 1, j + 1))
      ensures var x, y := LonCoord(lon), LatCoord(lat);
              x == Trunc(x) as real && y == Trunc(y) as real ==> r == GetIdx(Trunc(x), Trunc(y))
    {
      var x, y := LonCoord(lon), LatCoord(lat);
      var i, j := Trunc(x), Trunc(y);
      var s, t := x - i as real, y - j as real;
      var v00, v10, v01, v11 := GetIdx(i, j), GetIdx(i + 1, j), GetIdx(i, j + 1), GetIdx(i + 1, j + 1);
      if x >= 0.0 && y >= 0.0 then
        BilinearConvex(s, t, v00, v10, v01, v11);
        Blend(BilinearWeights(s, t), v00, v10, v01, v11)
      else
        Blend(BilinearWeights(s, t), v00, v10, v01, v11)
    }

    /** One store into the array: `Put` on the grid it holds. */
    method Store(x: int, y: int, v: real, mode: Mode, ghost g: Field)
      requires Holds(g) && 0 <= x < w && 0 <= y < h
      modifies val
      ensures Holds(Put(g, w, h, Write(x, y, v), mode))
    {
      if mode == Overwrite || v > val[x, y] {
        val[x, y] := v;
      }
    }

    /** `load_csv` (the plugin's loader): after the header every line that
        scans as three numbers and falls on the grid is stored, values
        below 0.001 as zero; an unopenable file changes nothing. */
    method LoadCsv(file: Option<seq<string>>, rd: Readers)
      requires Valid()
      modifies val
      ensures Holds(Apply(old(Cells()), w, h, ScanfWrites(DataLines(file), w, h, rd), Overwrite))
    {
      if file.None? || |file.value| == 0 {
        return;
      }
      var lines := file.value;
      ghost var all := lines[1..];
      ghost var g0 := Cells();
      var k := 1;
      while k < |lines|
        invariant 1 <= k <= |lines|
        invariant Holds(Apply(g0, w, h, ScanfWrites(all[..k - 1], w, h, rd), Overwrite))
      {
        LoadScanfLine(lines[k], rd, Apply(g0, w, h, ScanfWrites(all[..k - 1], w, h, rd), Overwrite));
        assert all[k - 1] == lines[k];
        ScanfAdvance(g0, w, h, all, k, rd);
        k := k + 1;
      }
      assert all[..k - 1] == all;
    }

    /** One line of `load_csv`. */
    method LoadScanfLine(line: string, rd: Readers, ghost g: Field)
      requires Valid() && Holds(g)
      modifies val
      ensures Holds(Apply(g, w, h, Stores(ScanfLine(line, w, h, rd)), Overwrite))
    {
      match rd.triple(line) {
        case None =>
        case Some(triple) =>
          var lon, lat, value := triple.0, triple.1, triple.2;
          if value < 0.001 {
            value := 0.0;
          }
          var x := Trunc(lon * 10.0);
          var y := Trunc((lat + 90.0) * 10.0);
          if !(x < 0 || x >= w || y < 0 || y >= h) {
            val[x, y] := value;
            assert Stores(ScanfLine(line, w, h, rd)) == [Write(x, y, value)];
          }
      }
    }

    /** `LoadCsv` of the services layer: every line after the header is cut
        into comma tokens; lines of fewer than three tokens are skipped, a
        token `std::stof` cannot read throws (the lines before it stay
        loaded), and a value token holding an `e` is stored as zero. */
    method LoadCsvTokens(file: Option<seq<string>>, rd: Readers) returns (threw: bool)
      requires Valid()
      requires AllInBounds(TokensRun(DataLines(file), rd).ws, w, h)
      modifies val
      ensures Holds(Apply(old(Cells()), w, h, TokensRun(DataLines(file), rd).ws, Overwrite))
      ensures threw == TokensRun(DataLines(file), rd).threw
    {
      threw := false;
      if file.None? || |file.value| == 0 {
        return;
      }
      var lines := file.value;
      ghost var all := lines[1..];
      assert all == DataLines(file);
      ghost var g0 := Cells();
      var k := 1;
      while k < |lines|
        invariant 1 <= k <= |lines|
        invariant !TokensRun(all[..k - 1], rd).threw
        invariant AllInBounds(TokensRun(all[..k - 1], rd).ws, w, h)
        invariant Holds(Apply(g0, w, h, TokensRun(all[..k - 1], rd).ws, Overwrite))
      {
        assert all[k - 1] == lines[k];
        TokensAdvance(g0, w, h, all, k, rd);
        threw := LoadTokensLine(lines[k], rd, Apply(g0, w, h, TokensRun(all[..k - 1], rd).ws, Overwrite));
        if threw {
          TokensRunThrown(all, k, rd);
          return;
        }
        k := k + 1;
      }
      assert all[..k - 1] == all;
    }

    /** One line of the services `LoadCsv`; `threw` reports the exception. */
    method LoadTokensLine(line: string, rd: Readers, ghost g: Field) returns (threw: bool)
      requires Valid() && Holds(g)
      requires TokensLine(line, rd).Store? ==> InBounds(TokensLine(line, rd).wr, w, h)
      modifies val
      ensures threw == TokensLine(line, rd).Throw?
      ensures Holds(Apply(g, w, h, Emitted(TokensLine(line, rd)), Overwrite))
    {
      threw := false;
      var record := rd.tokens(line);
      if |record| < 3 {
        return;
      }
      var lon := rd.stof(record[0]);
      var lat := rd.stof(record[1]);
      if lon.None? || lat.None? {
        threw := true;
        return;
      }
      var value := 0.0;
      if 'e' in record[2] {
        value := 0.0;
      } else {
        var parsed := rd.stof(record[2]);
        if parsed.None? {
          threw := true;
          return;
        }
        value := parsed.value;
      }
      var x := Trunc(lon.value * 10.0);
      var y := Trunc((lat.value + 90.0) * 10.0);
      assert Emitted(TokensLine(line, rd)) == [Write(x, y, value)];
      val[x, y] := value;
    }

    /** `LoadCsv` (Go): the records the reader yields after the header are
        stored in order, and the first record whose field count differs from
        the header's ends the loop. Fields `strconv.ParseFloat` cannot read
        count as zero, and the test for an `e` in the value field has no
        effect because the parsed value is assigned right after it. */
    method LoadCsvRecords(records: seq<seq<string>>, rd: Readers)
      requires Valid()
      requires ReadableRecords(records)
      requires AllInBounds(RecordWrites(DataRecords(records), rd), w, h)
      modifies val
      ensures Holds(Apply(old(Cells()), w, h, RecordWrites(DataRecords(records), rd), Overwrite))
    {
      if |records| == 0 {
        return;
      }
      ghost var g0 := Cells();
      ghost var data := DataRecords(records);
      ghost var ws := RecordWrites(data, rd);
      var k := 1;
      while k < |records| && |records[k]| == |records[0]|
        invariant 1 <= k <= ReadCount(records)
        invariant Holds(Apply(g0, w, h, ws[..k - 1], Overwrite))
      {
        ghost var done := ws[..k - 1];
        assert data[k - 1] == records[k];
        assert ws[..k] == done + [ws[k - 1]];
        LoadRecord(records[k], rd, Apply(g0, w, h, done, Overwrite));
        ApplySnoc(g0, w, h, done, ws[k - 1], Overwrite);
        k := k + 1;
      }
      assert ws[..k - 1] == ws;
    }

    /** One record of the Go `LoadCsv`. */
    method LoadRecord(record: seq<string>, rd: Readers, ghost g: Field)
      requires Valid() && Holds(g) && |record| >= 3 && InBounds(RecordWrite(record, rd), w, h)
      modifies val
      ensures Holds(Put(g, w, h, RecordWrite(record, rd), Overwrite))
    {
      var lon := rd.parse(record[0]);
      var lat := rd.parse(record[1]);
      var value := 0.0;
      if 'e' in record[2] {
        value := 0.0;
      }
      value := rd.parse(record[2]);
      var x := Trunc(lon * 10.0);
      var y := Trunc((lat + 90.0) * 10.0);
      val[x, y] := value;
    }
  }

  /** The grid column coordinate of a longitude: negative longitudes are
      shifted by a full turn, then scaled to 0.1 degree steps. */
  function LonCoord(lon: real): real
  {
    10.0 * (if lon < 0.0 then lon + 360.0 else lon)
  }

  /** The grid row coordinate of a latitude: 0 at the south pole. */
  function LatCoord(lat: real): real
  {
    10.0 * (lat + 90.0)
  }

  /** The column coordinates whose cell and right neighbour stay within one
      period of wrap. */
  predicate InLonRange(x: real, w: nat)
  {
    -(w as real) <= x < (2 * w - 1) as real
  }

  /** Columns one period apart and rows beyond the edges read the same cell. */
  lemma GetIdxWrapsAndClamps(dm: DepthMap, i: int, j: int)
    requires dm.Valid() && 0 <= i < dm.w
    ensures dm.GetIdx(i + dm.w, j) == dm.GetIdx(i, j) == dm.GetIdx(i - dm.w, j)
    ensures j >= dm.h ==> dm.GetIdx(i, j) == dm.val[i, dm.h - 1]
    ensures j < 0 ==> dm.GetIdx(i, j) == dm.val[i, 0]
  {
  }

  /** On the grid point of cell `(i, j)` the interpolation is that cell. */
  lemma {:induction false} GetAtGridPoint(dm: DepthMap, i: nat, j: nat)
    requires dm.Valid() && i < dm.w && j < dm.h
    ensures dm.Get(i as real / 10.0, j as real / 10.0 - 90.0) == dm.val[i, j]
  {
    var lon, lat := i as real / 10.0, j as real / 10.0 - 90.0;
    assert LonCoord(lon) == i as real;
    assert LatCoord(lat) == j as real;
    assert Trunc(i as real) == i;
    assert Trunc(j as real) == j;
  }

  /** A western longitude reads the same as its eastern equivalent. */
  lemma GetWestEqualsEast(dm: DepthMap, lon: real, lat: real)
    requires dm.Valid() && 0.0 <= lon < 360.0 && InLonRange(LonCoord(lon), dm.w)
    ensures InLonRange(LonCoord(lon - 360.0), dm.w)
    ensures dm.Get(lon - 360.0, lat) == dm.Get(lon, lat)
  {
    assert LonCoord(lon - 360.0) == LonCoord(lon);
  }

  // ---------------------------------------------------------------------
  // The stores each loader makes.

  /** The lines after the header; none when the file cannot be opened. */
  function DataLines(file: Option<seq<string>>): seq<string>
  {
    match file
    case None => []
    case Some(lines) => if lines == [] then [] else lines[1..]
  }

  /** The grid cell a `(lon, lat)` pair of the CSV goes to. */
  function CellOf(lon: real, lat: real): (int, int)
  {
    (Trunc(lon * 10.0), Trunc((lat + 90.0) * 10.0))
  }

  /** The store of one line of `load_csv`: none unless the line scans as
      `lon,lat,value` and its cell lies on the grid. */
  function ScanfLine(line: string, w: nat, h: nat, rd: Readers): (r: Option<Write>)
    ensures rd.triple(line).None? ==> r.None?
    ensures r.Some? ==> InBounds(r.value, w, h) && (r.value.v == 0.0 || r.value.v >= 0.001)
    ensures r.Some? ==> var (lon, lat, value) := rd.triple(line).value;
                        (r.value.x, r.value.y) == CellOf(lon, lat) && (value >= 0.001 ==> r.value.v == value)
    ensures rd.triple(line).Some? ==> var (lon, lat, _) := rd.triple(line).value;
                        var (x, y) := CellOf(lon, lat);
                        (r.None? <==> !(0 <= x < w && 0 <= y < h))
  {
    match rd.triple(line)
    case None => None
    case Some((lon, lat, value)) =>
      var (x, y) := CellOf(lon, lat);
      if x < 0 || x >= w || y < 0 || y >= h then None
      else Some(Write(x, y, if value < 0.001 then 0.0 else value))
  }

  function Stores(r: Option<Write>): seq<Write>
  {
    match r case None => [] case Some(wr) => [wr]
  }

  /** The stores of `load_csv`, line by line. */
  function ScanfWrites(lines: seq<string>, w: nat, h: nat, rd: Readers): (ws: seq<Write>)
    ensures |ws| <= |lines|
    ensures forall k :: 0 <= k < |ws| ==> InBounds(ws[k], w, h) && (ws[k].v == 0.0 || ws[k].v >= 0.001)
  {
    if lines == [] then []
    else ScanfWrites(lines[..|lines| - 1], w, h, rd) + Stores(ScanfLine(lines[|lines| - 1], w, h, rd))
  }

  /** Loading one more line applies that line's store. */
  lemma ScanfAdvance(g0: Field, w: nat, h: nat, lines: seq<string>, k: nat, rd: Readers)
    requires IsGrid(g0, w, h) && 1 <= k <= |lines|
    ensures Apply(g0, w, h, ScanfWrites(lines[..k], w, h, rd), Overwrite) ==
            Apply(Apply(g0, w, h, ScanfWrites(lines[..k - 1], w, h, rd), Overwrite), w, h,
                  Stores(ScanfLine(lines[k - 1], w, h, rd)), Overwrite)
  {
    assert lines[..k][..k - 1] == lines[..k - 1];
    ApplyConcat(g0, w, h, ScanfWrites(lines[..k - 1], w, h, rd), Stores(ScanfLine(lines[k - 1], w, h, rd)), Overwrite);
  }

  /** A later line on a cell overrides whatever the earlier lines stored
      there, and a line leaves every other cell as it was. */
  lemma {:induction false} ScanfLaterLineWins(g: Field, w: nat, h: nat, lines: seq<string>, line: string,
                                              rd: Readers, x: int, y: int)
    requires IsGrid(g, w, h) && 0 <= x < w && 0 <= y < h
    ensures var after := Apply(g, w, h, ScanfWrites(lines + [line], w, h, rd), Overwrite);
            var before := Apply(g, w, h, ScanfWrites(lines, w, h, rd), Overwrite);
            match ScanfLine(line, w, h, rd)
            case Some(wr) => after[x][y] == if Hits(wr, x, y) then wr.v else before[x][y]
            case None => after[x][y] == before[x][y]
  {
    assert (lines + [line])[..|lines|] == lines;
    var ws := ScanfWrites(lines, w, h, rd);
    match ScanfLine(line, w, h, rd)
    case None =>
      assert ScanfWrites(lines + [line], w, h, rd) == ws + [];
      assert ws + [] == ws;
    case Some(wr) =>
      ApplySnoc(g, w, h, ws, wr, Overwrite);
  }

  /** The outcome of one line of the services loader. */
  datatype LineOutcome = Skip | Store(wr: Write) | Throw

  /** One line of the services `LoadCsv`. */
  function TokensLine(line: string, rd: Readers): (r: LineOutcome)
    ensures |rd.tokens(line)| < 3 <==> r.Skip?
    ensures r.Throw? <==> (var t := rd.tokens(line);
                           |t| >= 3 && (rd.stof(t[0]).None? || rd.stof(t[1]).None? || ('e' !in t[2] && rd.stof(t[2]).None?)))
    ensures r.Store? && 'e' in rd.tokens(line)[2] ==> r.wr.v == 0.0
    ensures r.Store? ==> var t := rd.tokens(line);
                         (r.wr.x, r.wr.y) == CellOf(rd.stof(t[0]).value, rd.stof(t[1]).value) &&
                         ('e' !in t[2] ==> r.wr.v == rd.stof(t[2]).value)
  {
    var t := rd.tokens(line);
    if |t| < 3 then Skip
    else if rd.stof(t[0]).None? || rd.stof(t[1]).None? then Throw
    else
      var (x, y) := CellOf(rd.stof(t[0]).value, rd.stof(t[1]).value);
      if 'e' in t[2] then Store(Write(x, y, 0.0))
      else if rd.stof(t[2]).None? then Throw
      else Store(Write(x, y, rd.stof(t[2]).value))
  }

  /** The stores a line outcome makes. */
  function Emitted(o: LineOutcome): seq<Write>
  {
    if o.Store? then [o.wr] else []
  }

  /** The stores made so far, and whether a line has thrown. */
  datatype Run = Run(ws: seq<Write>, threw: bool)

  /** The services `LoadCsv` over lines: stores in order until the first
      line that throws. */
  function TokensRun(lines: seq<string>, rd: Readers): (r: Run)
    ensures |r.ws| <= |lines|
  {
    if lines == [] then Run([], false)
    else
      var before := TokensRun(lines[..|lines| - 1], rd);
      if before.threw then before
      else
        var o := TokensLine(lines[|lines| - 1], rd);
        Run(before.ws + Emitted(o), o.Throw?)
  }

  /** The stores of a prefix of the lines begin the stores of all of them. */
  lemma {:induction false} TokensRunPrefix(lines: seq<string>, k: nat, rd: Readers)
    requires k <= |lines|
    ensures |TokensRun(lines[..k], rd).ws| <= |TokensRun(lines, rd).ws|
    ensures TokensRun(lines[..k], rd).ws == TokensRun(lines, rd).ws[..|TokensRun(lines[..k], rd).ws|]
    decreases |lines| - k
  {
    if k < |lines| {
      TokensRunPrefix(lines, k + 1, rd);
      assert lines[..k + 1][..k] == lines[..k];
    } else {
      assert lines[..k] == lines;
    }
  }

  /** One more line: nothing once a line has thrown, else its outcome. */
  lemma TokensRunStep(lines: seq<string>, k: nat, rd: Readers)
    requires 1 <= k <= |lines|
    ensures var before := TokensRun(lines[..k - 1], rd);
            var o := TokensLine(lines[k - 1], rd);
            TokensRun(lines[..k], rd) == if before.threw then before else Run(before.ws + Emitted(o), o.Throw?)
  {
    assert lines[..k][..k - 1] == lines[..k - 1];
  }

  /** What one more line adds to a run that has not thrown. */
  lemma TokensAdvance(g0: Field, w: nat, h: nat, lines: seq<string>, k: nat, rd: Readers)
    requires IsGrid(g0, w, h) && 1 <= k <= |lines|
    requires AllInBounds(TokensRun(lines, rd).ws, w, h) && !TokensRun(lines[..k - 1], rd).threw
    ensures var done := TokensRun(lines[..k - 1], rd).ws;
            var o := TokensLine(lines[k - 1], rd);
            AllInBounds(done, w, h) && AllInBounds(TokensRun(lines[..k], rd).ws, w, h) &&
            (o.Store? ==> InBounds(o.wr, w, h)) &&
            TokensRun(lines[..k], rd).threw == o.Throw? &&
            Apply(g0, w, h, TokensRun(lines[..k], rd).ws, Overwrite) ==
              Apply(Apply(g0, w, h, done, Overwrite), w, h, Emitted(o), Overwrite)
  {
    var done := TokensRun(lines[..k - 1], rd).ws;
    var o := TokensLine(lines[k - 1], rd);
    TokensRunStep(lines, k, rd);
    TokensRunPrefixInBounds(lines, k, rd, w, h);
    TokensRunPrefixInBounds(lines, k - 1, rd, w, h);
    assert o.Store? ==> (done + Emitted(o))[|done|] == o.wr;
    ApplyConcat(g0, w, h, done, Emitted(o), Overwrite);
  }

  /** Every store of a prefix is a store of the whole run. */
  lemma TokensRunPrefixInBounds(lines: seq<string>, k: nat, rd: Readers, w: nat, h: nat)
    requires k <= |lines| && AllInBounds(TokensRun(lines, rd).ws, w, h)
    ensures AllInBounds(TokensRun(lines[..k], rd).ws, w, h)
  {
    TokensRunPrefix(lines, k, rd);
  }

  /** Once a line has thrown, nothing after it is loaded. */
  lemma {:induction false} TokensRunThrown(lines: seq<string>, k: nat, rd: Readers)
    requires k <= |lines| && TokensRun(lines[..k], rd).threw
    ensures TokensRun(lines, rd) == TokensRun(lines[..k], rd)
    decreases |lines| - k
  {
    if k < |lines| {
      assert lines[..k + 1][..k] == lines[..k];
      TokensRunThrown(lines, k + 1, rd);
    } else {
      assert lines[..k] == lines;
    }
  }

  /** The end of the run of records, from `k` on, that have as many fields
      as the header: Go's `csv.Reader` with `FieldsPerRecord` left at 0 takes
      the header's field count and fails with `ErrFieldCount` on the first
      record that differs. */
  function SameWidthEnd(records: seq<seq<string>>, k: nat): (n: nat)
    requires 1 <= k <= |records|
    ensures k <= n <= |records|
    ensures forall i :: k <= i < n ==> |records[i]| == |records[0]|
    ensures n < |records| ==> |records[n]| != |records[0]|
    decreases |records| - k
  {
    if k == |records| || |records[k]| != |records[0]| then k
    else SameWidthEnd(records, k + 1)
  }

  /** The number of records the Go reader yields, the header included,
      before its first field-count error ends the loop at `err != nil`. */
  function ReadCount(records: seq<seq<string>>): (n: nat)
    ensures n <= |records|
    ensures records != [] ==> 1 <= n
    ensures forall i :: 0 <= i < n ==> |records[i]| == |records[0]|
    ensures n < |records| ==> |records[n]| != |records[0]|
  {
    if records == [] then 0 else SameWidthEnd(records, 1)
  }

  /** What the Go loaders demand of a file: the first data record, when the
      reader yields one, has the three fields `record[2]` indexes; a header
      narrower than that makes the source panic there. */
  predicate ReadableRecords(records: seq<seq<string>>)
  {
    ReadCount(records) > 1 ==> |records[0]| >= 3
  }

  /** The data records the Go loaders store: those the reader yields after
      the header. */
  function DataRecords(records: seq<seq<string>>): (r: seq<seq<string>>)
    ensures |r| == if records == [] then 0 else ReadCount(records) - 1
    ensures forall k :: 0 <= k < |r| ==> r[k] == records[k + 1] && |r[k]| == |records[0]|
    ensures ReadableRecords(records) ==> forall k :: 0 <= k < |r| ==> |r[k]| >= 3
  {
    if records == [] then [] else records[1..ReadCount(records)]
  }

  /** A record whose field count differs from the header's ends the load:
      neither it nor anything after it is stored. */
  lemma CountChangeEndsLoad(records: seq<seq<string>>, k: nat)
    requires 1 <= k < |records| && |records[k]| != |records[0]|
    ensures |DataRecords(records)| < k
  {
  }

  /** The header `lon,lat,val` followed by the record `1,2`: the reader
      stops cleanly at the short record and nothing is stored. */
  lemma ShortRecordStops()
    ensures var records := [["lon", "lat", "val"], ["1", "2"]];
            ReadableRecords(records) && DataRecords(records) == []
  {
    var records := [["lon", "lat", "val"], ["1", "2"]];
    assert SameWidthEnd(records, 1) == 1;
  }

  /** The store of one record of the Go loader. */
  function RecordWrite(record: seq<string>, rd: Readers): Write
    requires |record| >= 3
  {
    var (x, y) := CellOf(rd.parse(record[0]), rd.parse(record[1]));
    Write(x, y, rd.parse(record[2]))
  }

  /** The stores of the Go loader: one per record. */
  function RecordWrites(records: seq<seq<string>>, rd: Readers): (ws: seq<Write>)
    requires forall k :: 0 <= k < |records| ==> |records[k]| >= 3
    ensures |ws| == |records|
    ensures forall k :: 0 <= k < |ws| ==> ws[k] == RecordWrite(records[k], rd)
  {
    seq(|records|, k requires 0 <= k < |records| && |records[k]| >= 3 => RecordWrite(records[k], rd))
  }

  /** Unlike the services loader, the Go loader keeps a value written with
      an exponent: the two read the record `0,0,1e1` differently. */
  lemma ExponentValueKept()
    ensures RecordWrite(["0", "0", "1e1"], SourceReaders()).v == 10.0
  {
    ExponentNumberRead();
  }

  /** The services loader stores zero for the value `1e1`. */
  lemma ExponentValueZeroed()
    ensures TokensLine("0,0,1e1", SourceReaders()) == Store(Write(0, 900, 0.0))
  {
    ExponentLineTokens();
    ZeroRead();
    var t := GetlineTokens("0,0,1e1");
    assert t[0] == "0" && t[1] == "0" && t[2] == "1e1";
    assert 'e' in t[2] by { assert t[2][1] == 'e'; }
    assert CellOf(0.0, 0.0) == (0, 900);
  }
}
