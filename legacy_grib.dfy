/** The older service's depth map (`depthMap` and `gribService` in Go): a
    3600 x 1801 grid read by nearest cell, filled from CSV records, and
    softened at the edges of snow fields by an east/west pass that marks
    the cells it fills with negative depths. */
module LegacyGrib {
  import opened Numeric
  import opened Grid
  import opened CsvNumber
  import DepthMaps
  import Cycles

  const NLon := 3600
  const NLat := 1801

  /** The band counted as "no snow". */
  predicate NoSnow(v: real) { -0.001 <= v <= 0.001 }

  /** The stricter band a smoothing store tests before it writes. */
  predicate Blank(v: real) { -0.001 < v < 0.001 }

  predicate HasSnow(v: real) { v > 0.001 }

  /** Cells to smooth east or west of a snow edge, and the no-snow run that
      must precede the edge. */
  const SmoothFactor := 20
  const SmoothGapMin := 3

  /** How a cell may change under smoothing: not at all, or from no snow to
      a value that is not positive. */
  predicate Smoothed(before: real, after: real)
  {
    after == before || (NoSnow(before) && after <= 0.0)
  }

  lemma SmoothedTrans(a: real, b: real, c: real)
    requires Smoothed(a, b) && Smoothed(b, c)
    ensures Smoothed(a, c)
  {
  }

  /** The row index of the nearest grid row. */
  function LatIndex(lat: real): (j: int)
    ensures j as real - 0.5 <= DepthMaps.LatCoord(lat) <= j as real + 0.5
  {
    Round(DepthMaps.LatCoord(lat))
  }

  /** The column index of the nearest grid column; the column one full turn
      east is column 0. */
  function LonIndex(lon: real): (i: int)
    ensures var x := DepthMaps.LonCoord(lon);
            (i as real - 0.5 <= x <= i as real + 0.5) ||
            (i == 0 && NLon as real - 0.5 <= x <= NLon as real + 0.5)
  {
    var i := Round(DepthMaps.LonCoord(lon));
    if i == NLon then 0 else i
  }

  /** Every latitude maps to a row of the grid. */
  lemma LatIndexInRange(lat: real)
    requires -90.0 <= lat <= 90.0
    ensures 0 <= LatIndex(lat) < NLat
  {
  }

  /** Every longitude from one turn west up to just short of one turn east
      maps to a column. */
  lemma LonIndexInRange(lon: real)
    requires -360.0 <= lon < 359.95
    ensures 0 <= LonIndex(lon) < NLon
  {
  }

  /** West of column `j` by `k`, wrapped with `period`: the service uses
      3599. */
  function WestIndex(j: int, k: int, period: int): (x: int)
    requires 0 <= j < NLon && 1 <= k <= SmoothFactor && period in {NLon - 1, NLon}
    ensures 0 <= x < NLon
    ensures x == j - k || x == j - k + period
  {
    var x := j - k;
    if x < 0 then period + x else x
  }

  /** East of column `j` by `k`, wrapped with `period`. */
  function EastIndex(j: int, k: int, period: int): (x: int)
    requires 0 <= j < NLon && 1 <= k <= SmoothFactor && period in {NLon - 1, NLon}
    ensures 0 <= x < NLon
    ensures x == j + k || x == j + k - period
  {
    var x := j + k;
    if x > NLon - 1 then x - period else x
  }

  /** With the service's period the cell one west of column 0 is taken to
      be column 3598 and the cell one east of column 3599 column 1: the
      seam column is skipped. */
  lemma SeamSkipped()
    ensures WestIndex(3, 4, NLon - 1) == NLon - 2
    ensures EastIndex(NLon - 4, 4, NLon - 1) == 1
  {
  }

  /** With a period of a full turn the wrapped index is the neighbour around
      the globe: it agrees with the depth map's one-period wrap. */
  lemma SeamCorrected(j: int, k: int)
    requires 0 <= j < NLon && 1 <= k <= SmoothFactor
    ensures WestIndex(j, k, NLon) == WrapOnce(j - k, NLon)
    ensures EastIndex(j, k, NLon) == WrapOnce(j + k, NLon)
    ensures WestIndex(j, k, NLon) % NLon == (j - k) % NLon
  {
    if j - k < 0 {
      WrapResidue(j - k);
    }
  }

  lemma WrapResidue(x: int)
    requires -NLon <= x < 0
    ensures x % NLon == x + NLon
  {
    assert x == -1 * NLon + (x + NLon);
  }

  /** The fill written `k` cells away from a snow edge of depth `v`. */
  function TaperValue(k: int, v: real): (r: real)
    requires 1 <= k <= SmoothFactor
    ensures r <= 0.0
    ensures v >= 0.0 ==> -v <= r
  {
    var c := (SmoothFactor - k) as real;
    assert v >= 0.0 ==> c * v <= SmoothFactor as real * v by {
      if v >= 0.0 {
        NonnegProduct(SmoothFactor as real - c, v);
      }
    }
    -1.0 * Max(c * v / SmoothFactor as real, 0.0)
  }

  class LegacyMap {
    /** `val[i, j]`: longitude column `i`, latitude row `j`. */
    var val: array2<real>
    var created: bool

    ghost predicate Valid()
      reads this
    {
      val.Length0 == NLon && val.Length1 == NLat
    }

    ghost predicate Holds(g: Field)
      reads this, val
    {
      Valid() && IsGrid(g, NLon, NLat) &&
      forall i, j :: 0 <= i < NLon && 0 <= j < NLat ==> val[i, j] == g[i][j]
    }

    ghost function Cells(): (g: Field)
      reads this, val
      requires Valid()
      ensures Holds(g)
    {
      var a := val;
      seq(NLon, i requires 0 <= i < a.Length0 reads a =>
        seq(NLat, j requires 0 <= j < a.Length1 reads a => a[i, j]))
    }

    /** An empty map: zero everywhere and not yet created. */
    constructor ()
      ensures Valid() && fresh(val) && !created
      ensures Holds(Zeros(NLon, NLat))
    {
      val := new real[NLon, NLat]((i, j) => 0.0);
      created := false;
    }

    /** The nearest cell's depth, or 0 before the map has been loaded. */
    function Get(lon: real, lat: real): (r: real)
      reads this, val
      requires Valid()
      requires created ==> 0 <= LonIndex(lon) < NLon && 0 <= LatIndex(lat) < NLat
      ensures !created ==> r == 0.0
      ensures created ==> r == val[LonIndex(lon), LatIndex(lat)]
    {
      if !created then 0.0 else val[LonIndex(lon), LatIndex(lat)]
    }

    /** Skips the header record, stores the value of every record the
        reader yields after it, stopping at the first record whose field
        count differs from the header's, and marks the map created, even
        when there were no records. */
    method LoadCsv(records: seq<seq<string>>, rd: Readers)
      requires Valid()
      requires DepthMaps.ReadableRecords(records)
      requires AllInBounds(DepthMaps.RecordWrites(DepthMaps.DataRecords(records), rd), NLon, NLat)
      modifies this, val
      ensures Valid() && val == old(val) && created
      ensures Holds(Apply(old(Cells()), NLon, NLat, DepthMaps.RecordWrites(DepthMaps.DataRecords(records), rd), Overwrite))
    {
      LoadRecords(records, rd);
      created := true;
    }

    /** The record loop of `LoadCsv`, ended by the reader's first error. */
    method LoadRecords(records: seq<seq<string>>, rd: Readers)
      requires Valid()
      requires DepthMaps.ReadableRecords(records)
      requires AllInBounds(DepthMaps.RecordWrites(DepthMaps.DataRecords(records), rd), NLon, NLat)
      modifies val
      ensures Holds(Apply(old(Cells()), NLon, NLat, DepthMaps.RecordWrites(DepthMaps.DataRecords(records), rd), Overwrite))
    {
      if |records| > 0 {
        ghost var g0 := Cells();
        ghost var data := DepthMaps.DataRecords(records);
        ghost var ws := DepthMaps.RecordWrites(data, rd);
        var counter := 1;
        while counter < |records| && |records[counter]| == |records[0]|
          invariant 1 <= counter <= DepthMaps.ReadCount(records)
          invariant Holds(Apply(g0, NLon, NLat, ws[..counter - 1], Overwrite))
        {
          assert data[counter - 1] == records[counter];
          ApplyPrefixSnoc(g0, NLon, NLat, ws, counter - 1, Overwrite);
          LoadRecord(records[counter], rd, Apply(g0, NLon, NLat, ws[..counter - 1], Overwrite));
          counter := counter + 1;
        }
        assert ws[..counter - 1] == ws;
      }
    }

    /** One record: the value is assigned 0 when it holds an `e` and then
        overwritten by the parsed number in every case. */
    method LoadRecord(record: seq<string>, rd: Readers, ghost g: Field)
      requires Holds(g) && |record| >= 3 && InBounds(DepthMaps.RecordWrite(record, rd), NLon, NLat)
      modifies val
      ensures Holds(Put(g, NLon, NLat, DepthMaps.RecordWrite(record, rd), Overwrite))
    {
      var lon := rd.parse(record[0]);
      var lat := rd.parse(record[1]);
      var value := 0.0;
      if 'e' in record[2] {
        value := 0.0;
      }
      value := rd.parse(record[2]);
      var x := Trunc(lon * 10.0);
      var y := Trunc((lat + 90.0) * 10.0);
      val[x, y] := value;
    }

    /** Writes a non-positive value into a cell that holds no snow. */
    method Mark(x: int, y: int, v: real)
      requires Valid() && 0 <= x < NLon && 0 <= y < NLat
      requires NoSnow(val[x, y]) && v <= 0.0
      modifies val
      ensures val[x, y] == v
      ensures forall a, b :: 0 <= a < NLon && 0 <= b < NLat && (a != x || b != y) ==> val[a, b] == old(val[a, b])
    {
      val[x, y] := v;
    }

    /** The east/west smoothing pass over every row, with the seam wrapped
        by `period`. */
    method SmoothWith(period: int)
      requires Valid() && period in {NLon - 1, NLon}
      modifies val
      ensures forall x, y :: 0 <= x < NLon && 0 <= y < NLat ==> Smoothed(old(val[x, y]), val[x, y])
    {
      var i := 0;
      while i < NLat
        invariant 0 <= i <= NLat
        invariant forall x, y :: 0 <= x < NLon && 0 <= y < NLat ==> Smoothed(old(val[x, y]), val[x, y])
      {
        SmoothRow(i, period);
        i := i + 1;
      }
    }

    /** `Smooth` as the service runs it: the seam wraps by 3599. */
    method Smooth()
      requires Valid()
      modifies val
      ensures forall x, y :: 0 <= x < NLon && 0 <= y < NLat ==> Smoothed(old(val[x, y]), val[x, y])
    {
      SmoothWith(NLon - 1);
    }

    /** One latitude row: a west-to-east scan, then an east-to-west scan.
        Nothing outside the row changes. */
    method SmoothRow(i: int, period: int)
      requires Valid() && 0 <= i < NLat && period in {NLon - 1, NLon}
      modifies val
      ensures forall x, y :: 0 <= x < NLon && 0 <= y < NLat && y != i ==> val[x, y] == old(val[x, y])
      ensures forall x :: 0 <= x < NLon ==> Smoothed(old(val[x, i]), val[x, i])
    {
      ScanEastward(i, period);
      ScanWestward(i, period);
    }

    /** West to east: a blank cell between two snow cells gets the negated
        mean of its neighbours; a snow cell after at least `SmoothGapMin`
        blank cells tapers the cells west of it and skips `SmoothFactor`
        cells. */
    method ScanEastward(i: int, period: int)
      requires Valid() && 0 <= i < NLat && period in {NLon - 1, NLon}
      modifies val
      ensures forall x, y :: 0 <= x < NLon && 0 <= y < NLat && y != i ==> val[x, y] == old(val[x, y])
      ensures forall x :: 0 <= x < NLon ==> Smoothed(old(val[x, i]), val[x, i])
    {
      var noSnowCounter := 0;
      var j := 0;
      while j < NLon
        invariant 0 <= j
        invariant forall x, y :: 0 <= x < NLon && 0 <= y < NLat && y != i ==> val[x, y] == old(val[x, y])
        invariant forall x :: 0 <= x < NLon ==> Smoothed(old(val[x, i]), val[x, i])
        decreases NLon - j
      {
        if NoSnow(val[j, i]) {
          if j - 1 >= 0 && j + 1 < NLon {
            if HasSnow(val[j - 1, i]) && HasSnow(val[j + 1, i]) {
              ghost var before := val[j, i];
              Mark(j, i, -1.0 * (val[j - 1, i] + val[j + 1, i]) / 2.0);
              SmoothedTrans(old(val[j, i]), before, val[j, i]);
            } else {
              noSnowCounter := noSnowCounter + 1;
              j := j + 1;
              continue;
            }
          } else {
            noSnowCounter := noSnowCounter + 1;
            j := j + 1;
            continue;
          }
        }
        if HasSnow(val[j, i]) {
          if noSnowCounter >= SmoothGapMin {
            TaperWest(i, j, period);
            j := j + SmoothFactor;
          }
          noSnowCounter := 0;
        }
        j := j + 1;
      }
    }

    /** East to west: blank cells only count; a snow cell after at least
        `SmoothGapMin` blank cells tapers the cells east of it and skips
        `SmoothFactor` cells. */
    method ScanWestward(i: int, period: int)
      requires Valid() && 0 <= i < NLat && period in {NLon - 1, NLon}
      modifies val
      ensures forall x, y :: 0 <= x < NLon && 0 <= y < NLat && y != i ==> val[x, y] == old(val[x, y])
      ensures forall x :: 0 <= x < NLon ==> Smoothed(old(val[x, i]), val[x, i])
    {
      var noSnowCounter := 0;
      var j := NLon - 1;
      while j >= 0
        invariant j < NLon
        invariant forall x, y :: 0 <= x < NLon && 0 <= y < NLat && y != i ==> val[x, y] == old(val[x, y])
        invariant forall x :: 0 <= x < NLon ==> Smoothed(old(val[x, i]), val[x, i])
        decreases j
      {
        if NoSnow(val[j, i]) {
          noSnowCounter := noSnowCounter + 1;
          j := j - 1;
          continue;
        }
        if HasSnow(val[j, i]) {
          if noSnowCounter >= SmoothGapMin {
            TaperEast(i, j, period);
            noSnowCounter := 0;
            j := j - SmoothFactor;
          }
        }
        j := j - 1;
      }
    }

    /** Tapers the blank cells west of the snow cell `(j, i)`, stopping at
        the first cell that is not blank. */
    method TaperWest(i: int, j: int, period: int)
      requires Valid() && 0 <= i < NLat && 0 <= j < NLon && period in {NLon - 1, NLon}
      requires HasSnow(val[j, i])
      modifies val
      ensures forall x, y :: 0 <= x < NLon && 0 <= y < NLat && y != i ==> val[x, y] == old(val[x, y])
      ensures forall x :: 0 <= x < NLon ==> Smoothed(old(val[x, i]), val[x, i])
    {
      var k := 1;
      while k <= SmoothFactor
        invariant 1 <= k <= SmoothFactor + 1
        invariant HasSnow(val[j, i])
        invariant forall x, y :: 0 <= x < NLon && 0 <= y < NLat && y != i ==> val[x, y] == old(val[x, y])
        invariant forall x :: 0 <= x < NLon ==> Smoothed(old(val[x, i]), val[x, i])
      {
        var x := WestIndex(j, k, period);
        if Blank(val[x, i]) {
          ghost var before := val[x, i];
          Mark(x, i, TaperValue(k, val[j, i]));
          SmoothedTrans(old(val[x, i]), before, val[x, i]);
        } else {
          break;
        }
        k := k + 1;
      }
    }

    /** Tapers the blank cells east of the snow cell `(j, i)`, stopping at
        the first cell that is not blank. */
    method TaperEast(i: int, j: int, period: int)
      requires Valid() && 0 <= i < NLat && 0 <= j < NLon && period in {NLon - 1, NLon}
      requires HasSnow(val[j, i])
      modifies val
      ensures forall x, y :: 0 <= x < NLon && 0 <= y < NLat && y != i ==> val[x, y] == old(val[x, y])
      ensures forall x :: 0 <= x < NLon ==> Smoothed(old(val[x, i]), val[x, i])
    {
      var k := 1;
      while k <= SmoothFactor
        invariant 1 <= k <= SmoothFactor + 1
        invariant HasSnow(val[j, i])
        invariant forall x, y :: 0 <= x < NLon && 0 <= y < NLat && y != i ==> val[x, y] == old(val[x, y])
        invariant forall x :: 0 <= x < NLon ==> Smoothed(old(val[x, i]), val[x, i])
      {
        var x := EastIndex(j, k, period);
        if Blank(val[x, i]) {
          ghost var before := val[x, i];
          Mark(x, i, TaperValue(k, val[j, i]));
          SmoothedTrans(old(val[x, i]), before, val[x, i]);
        } else {
          break;
        }
        k := k + 1;
      }
    }
  }

  /** The service holding the snow and the ice map. */
  class LegacyGribService {
    const snow: LegacyMap
    const ice: LegacyMap

    ghost predicate Valid()
      reads this, snow, ice
    {
      snow.Valid() && ice.Valid() && snow != ice && snow.val != ice.val
    }

    constructor ()
      ensures Valid() && fresh(snow) && fresh(ice) && fresh(snow.val) && fresh(ice.val)
      ensures !IsReady()
    {
      snow := new LegacyMap();
      ice := new LegacyMap();
    }

    /** Ready once both maps have been loaded. */
    predicate IsReady()
      reads this, snow, ice
    {
      snow.created && ice.created
    }

    /** The snow depth at (lat, lon): the snow map read with the two
        coordinates swapped into its (lon, lat) order. */
    function GetSnowDepth(lat: real, lon: real): (r: real)
      reads this, snow, snow.val
      requires snow.Valid()
      requires snow.created ==> 0 <= LonIndex(lon) < NLon && 0 <= LatIndex(lat) < NLat
      ensures !snow.created ==> r == 0.0
      ensures snow.created ==> r == snow.val[LonIndex(lon), LatIndex(lat)]
    {
      snow.Get(lon, lat)
    }

    /** Loading the snow and the ice records, then smoothing the snow map,
        leaves the service ready with the ice map exactly as loaded. */
    method LoadAndSmooth(snowRecords: seq<seq<string>>, iceRecords: seq<seq<string>>, rd: Readers)
      requires Valid()
      requires DepthMaps.ReadableRecords(snowRecords) && DepthMaps.ReadableRecords(iceRecords)
      requires AllInBounds(DepthMaps.RecordWrites(DepthMaps.DataRecords(snowRecords), rd), NLon, NLat)
      requires AllInBounds(DepthMaps.RecordWrites(DepthMaps.DataRecords(iceRecords), rd), NLon, NLat)
      modifies snow, snow.val, ice, ice.val
      ensures Valid() && IsReady()
      ensures ice.Holds(Apply(old(ice.Cells()), NLon, NLat, DepthMaps.RecordWrites(DepthMaps.DataRecords(iceRecords), rd), Overwrite))
      ensures var loaded := Apply(old(snow.Cells()), NLon, NLat, DepthMaps.RecordWrites(DepthMaps.DataRecords(snowRecords), rd), Overwrite);
              forall x, y :: 0 <= x < NLon && 0 <= y < NLat ==> Smoothed(loaded[x][y], snow.val[x, y])
    {
      snow.LoadCsv(snowRecords, rd);
      ice.LoadCsv(iceRecords, rd);
      snow.Smooth();
    }
  }

  /** `getCycleDate`: the cycle and forecast hour for a request at
      `hour:minute` UTC (the date string is left to the clock). */
  method GetCycleDate(hour: int, minute: int) returns (cycle: int, forecast: int)
    requires 0 <= hour < 24 && 0 <= minute < 60
    ensures (cycle, forecast) == Cycles.CycleAndForecast(hour, minute)
    ensures forecast in {3, 6, 9}
  {
    var (cHour, dayChanged) := Cycles.Adjusted(hour, minute);
    cycle := Cycles.LatestCycle(cHour);
    var adjs := 0;
    if dayChanged {
      adjs := 24;
    }
    forecast := CDiv(adjs + hour - cycle, 3) * 3;
    Cycles.ForecastReachesRequest(hour, minute);
  }
}
