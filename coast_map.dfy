/** The water/land/coast map on the 0.1 degree grid (C++ `CoastMap` and Go
    `coastService`).  Each cell holds one byte `(dir << 2) | state`, where
    `state` is water, land or coast and `dir` is the grid direction (0..7,
    counter-clockwise from +x in steps of 45 degrees) in which land lies from
    a coast cell.  The map is computed from a decoded water/land raster. */
module CoastMaps {
  import opened Numeric
  import opened Grid
  import opened Options

  const Water: bv8 := 0
  const Land: bv8 := 1
  const Coast: bv8 := 2

  /** Unit steps of the eight grid directions. */
  const DirX: seq<int> := [1, 1, 0, -1, -1, -1, 0, 1]
  const DirY: seq<int> := [0, 1, 1, 1, 0, -1, -1, -1]

  /** `(dir << 2) | state` on a byte. */
  function Encode(dir: int, state: bv8): (v: bv8)
    requires 0 <= dir < 8 && state < 4
    ensures StateOf(v) == state && DirOf(v) == dir
  {
    ((dir as bv8) << 2) | state
  }

  /** `v & 0x3` */
  function StateOf(v: bv8): bv8 { v & 3 }

  /** `v >> 2` */
  function DirOf(v: bv8): int { (v >> 2) as int }

  /** The bytes the classifier ever stores. */
  predicate ValidCode(v: bv8)
  {
    v == Water || v == Land || (StateOf(v) == Coast && DirOf(v) < 8)
  }

  /** Both tables have eight entries and no direction is the zero step. */
  lemma DirectionsNonzero(d: int)
    requires 0 <= d < 8
    ensures |DirX| == 8 && |DirY| == 8
    ensures DirX[d] != 0 || DirY[d] != 0
    ensures -1 <= DirX[d] <= 1 && -1 <= DirY[d] <= 1
  {
  }

  /** `wrap_ij`: one period of wrap for the column, clamp of the row. */
  function WrapIJ(i: int, j: int, n: int, m: int): (r: (int, int))
    requires n > 0 && m > 0 && -n <= i < 2 * n
    ensures 0 <= r.0 < n && 0 <= r.1 < m
    ensures 0 <= i < n ==> r.0 == i
    ensures i >= n ==> r.0 == i - n
    ensures i < 0 ==> r.0 == i + n
    ensures 0 <= j < m ==> r.1 == j
    ensures j >= m ==> r.1 == m - 1
    ensures j < 0 ==> r.1 == 0
  {
    (WrapOnce(i, n), Clamp(j, m))
  }

  /** Every cell holds a byte the classifier stores. */
  predicate ValidMap(wm: seq<seq<bv8>>, n: nat, m: nat)
  {
    IsGrid(wm, n, m) &&
    forall i, j {:trigger CodeAt(wm, i, j)} :: 0 <= i < n && 0 <= j < m ==> ValidCode(CodeAt(wm, i, j))
  }

  /** The byte of cell `(i, j)`. */
  function CodeAt(wm: seq<seq<bv8>>, i: int, j: int): bv8
    requires 0 <= i < |wm| && 0 <= j < |wm[i]|
  {
    wm[i][j]
  }

  /** `is_water` on a snapshot of the map. */
  function WaterIn(wm: seq<seq<bv8>>, n: nat, m: nat, i: int, j: int): bool
    requires IsGrid(wm, n, m) && n > 0 && m > 0 && -(n as int) <= i < 2 * n
  {
    var p := WrapIJ(i, j, n, m);
    StateOf(wm[p.0][p.1]) == Water
  }

  /** `is_land` on a snapshot of the map. */
  function LandIn(wm: seq<seq<bv8>>, n: nat, m: nat, i: int, j: int): bool
    requires IsGrid(wm, n, m) && n > 0 && m > 0 && -(n as int) <= i < 2 * n
  {
    var p := WrapIJ(i, j, n, m);
    StateOf(wm[p.0][p.1]) == Land
  }

  /** Result of `is_coast`: the flag, the unit step towards land and the
      direction number. */
  datatype CoastInfo = CoastInfo(yes: bool, dx: int, dy: int, dir: int)

  /** `is_coast` on a snapshot of the map: rows at or past `m` (the depth map
      has one row more than the coast map) are never coast. */
  function CoastIn(wm: seq<seq<bv8>>, n: nat, m: nat, i: int, j: int): (r: CoastInfo)
    requires ValidMap(wm, n, m) && 0 <= i < n && 0 <= j
    ensures r.yes <==> j < m && StateOf(wm[i][j]) == Coast
    ensures r.yes ==> 0 <= r.dir < 8 && wm[i][j] == Encode(r.dir, Coast)
    ensures r.yes ==> r.dx == DirX[r.dir] && r.dy == DirY[r.dir] && (r.dx != 0 || r.dy != 0)
    ensures -1 <= r.dx <= 1 && -1 <= r.dy <= 1
  {
    if j >= m then CoastInfo(false, 0, 0, 0)
    else
      var v := wm[i][j];
      var d := DirOf(v);
      assert ValidCode(CodeAt(wm, i, j));
      CoastInfo(StateOf(v) == Coast, DirX[d], DirY[d], d)
  }

  /** A cell is never both water and land, and a coast cell is neither. */
  lemma WaterLandExclusive(wm: seq<seq<bv8>>, n: nat, m: nat, i: int, j: int)
    requires ValidMap(wm, n, m) && n > 0 && m > 0 && 0 <= i < n && 0 <= j < m
    ensures !(WaterIn(wm, n, m, i, j) && LandIn(wm, n, m, i, j))
    ensures CoastIn(wm, n, m, i, j).yes ==> !WaterIn(wm, n, m, i, j) && !LandIn(wm, n, m, i, j)
    ensures WaterIn(wm, n, m, i, j) || LandIn(wm, n, m, i, j) || CoastIn(wm, n, m, i, j).yes
  {
    assert ValidCode(CodeAt(wm, i, j));
  }

  /** Lookups repeat with period `n` in the column and read the edge row
      beyond either edge. */
  lemma LookupWrapsAndClamps(wm: seq<seq<bv8>>, n: nat, m: nat, i: int, j: int)
    requires IsGrid(wm, n, m) && n > 0 && m > 0 && 0 <= i < n
    ensures WaterIn(wm, n, m, i + n, j) == WaterIn(wm, n, m, i, j) == WaterIn(wm, n, m, i - n, j)
    ensures LandIn(wm, n, m, i + n, j) == LandIn(wm, n, m, i, j) == LandIn(wm, n, m, i - n, j)
    ensures j >= m ==> WaterIn(wm, n, m, i, j) == WaterIn(wm, n, m, i, m - 1)
    ensures j < 0 ==> WaterIn(wm, n, m, i, j) == WaterIn(wm, n, m, i, 0)
  {
  }

  // ---------------------------------------------------------------------
  // The raster the map is computed from.

  /** A decoded water/land image: `water[y][x]` says whether pixel `(x, y)`
      reads as water (a zero byte in the C++ reader, a zero red channel in
      the Go reader).  Row 0 is the top of the image. */
  datatype Raster = Raster(width: int, height: int, bitDepth: int, water: seq<seq<bool>>)

  predicate Shaped(img: Raster)
  {
    img.width >= 0 && img.height >= 0 && |img.water| == img.height &&
    forall y :: 0 <= y < img.height ==> |img.water[y]| == img.width
  }

  /** Images large enough for the classifier's two-step probes. */
  predicate Lookable(img: Raster)
  {
    Shaped(img) && img.width >= 2 && img.height >= 1
  }

  /** How the classifier reads a pixel.  `CLookup` flips the row and applies
      `wrap_ij`.  `GoLookup` flips the row, wraps the column only when it is
      greater than the width or negative, and clamps the row to
      `[0, height]`; a position left outside the image reads as `outside`,
      the colour the decoder reports there. */
  datatype Lookup = CLookup | GoLookup(outside: bool)

  function PixelWater(img: Raster, lk: Lookup, i: int, j: int): bool
    requires Lookable(img) && -img.width <= i < 2 * img.width
  {
    var w := img.width;
    var h := img.height;
    var jf := h - j;
    match lk
    case CLookup =>
      var p := WrapIJ(i, jf, w, h);
      img.water[p.1][p.0]
    case GoLookup(outside) =>
      var i1 := if i > w then i - w else i;
      var i2 := if i1 < 0 then i1 + w else i1;
      var j1 := if jf > h then h else jf;
      var j2 := if j1 < 0 then 0 else j1;
      if i2 < w && j2 < h then img.water[j2][i2] else outside
  }

  /** The two readers agree except on column `width` and on rows at or above
      the image's top edge. */
  lemma LookupsAgree(img: Raster, outside: bool, i: int, j: int)
    requires Lookable(img) && -img.width <= i < 2 * img.width
    ensures i != img.width && j > 0 ==>
      PixelWater(img, GoLookup(outside), i, j) == PixelWater(img, CLookup, i, j)
    ensures i == img.width ==> PixelWater(img, GoLookup(outside), i, j) == outside
  {
  }

  /** The C++ reader is periodic in the column. */
  lemma CLookupPeriodic(img: Raster, i: int, j: int)
    requires Lookable(img) && 0 <= i < img.width
    ensures PixelWater(img, CLookup, i + img.width, j) == PixelWater(img, CLookup, i, j)
    ensures PixelWater(img, CLookup, i - img.width, j) == PixelWater(img, CLookup, i, j)
  {
  }

  /** The Go reader is not: on a one-row strip whose pixels are not the
      outside colour, column `width` and column 0 read differently. */
  lemma GoLookupNotPeriodic(outside: bool)
    ensures var img := Raster(2, 1, 8, [[!outside, !outside]]);
      Lookable(img) && PixelWater(img, GoLookup(outside), 2, 1) != PixelWater(img, GoLookup(outside), 0, 1)
  {
    var img := Raster(2, 1, 8, [[!outside, !outside]]);
    assert PixelWater(img, GoLookup(outside), 0, 1) == img.water[0][0];
  }

  // ---------------------------------------------------------------------
  // Classification of one source pixel.

  /** An `atan2` in degrees: results in (-180, 180]. */
  ghost predicate AngleRange(atan2deg: (real, real) -> real)
  {
    forall y, x :: -180.0 < atan2deg(y, x) <= 180.0
  }

  /** Is direction `d` a coast normal at `(i, j)`: water two steps and one
      step against it, land one step along it. */
  predicate Qualifies(img: Raster, lk: Lookup, i: int, j: int, d: int)
    requires Lookable(img) && 0 <= i < img.width && 0 <= d < 8
  {
    PixelWater(img, lk, i - 2 * DirX[d], j - 2 * DirY[d]) &&
    PixelWater(img, lk, i - DirX[d], j - DirY[d]) &&
    !PixelWater(img, lk, i + DirX[d], j + DirY[d])
  }

  /** Diagonal directions count `0.7071` (one over the square root of 2). */
  function Weight(d: int): real { if d % 2 == 1 then 0.7071 else 1.0 }

  /** Sum of the weighted x steps of the qualifying directions below `d`. */
  function SumX(img: Raster, lk: Lookup, i: int, j: int, d: nat): real
    requires Lookable(img) && 0 <= i < img.width && d <= 8
  {
    if d == 0 then 0.0
    else SumX(img, lk, i, j, d - 1) +
         (if Qualifies(img, lk, i, j, d - 1) then Weight(d - 1) * DirX[d - 1] as real else 0.0)
  }

  function SumY(img: Raster, lk: Lookup, i: int, j: int, d: nat): real
    requires Lookable(img) && 0 <= i < img.width && d <= 8
  {
    if d == 0 then 0.0
    else SumY(img, lk, i, j, d - 1) +
         (if Qualifies(img, lk, i, j, d - 1) then Weight(d - 1) * DirY[d - 1] as real else 0.0)
  }

  /** Does some direction below `d` qualify. */
  function AnyQualifies(img: Raster, lk: Lookup, i: int, j: int, d: nat): (r: bool)
    requires Lookable(img) && 0 <= i < img.width && d <= 8
    ensures r <==> exists k :: 0 <= k < d && Qualifies(img, lk, i, j, k)
  {
    if d == 0 then false
    else AnyQualifies(img, lk, i, j, d - 1) || Qualifies(img, lk, i, j, d - 1)
  }

  /** The bearing of `(sx, sy)` in degrees, moved into `[0, 360)`. */
  function Bearing(atan2deg: (real, real) -> real, sx: real, sy: real): (a: real)
    requires AngleRange(atan2deg)
    ensures 0.0 <= a < 360.0
  {
    var ang := atan2deg(sy, sx);
    if ang < 0.0 then ang + 360.0 else ang
  }

  /** `round(ang / 45)` with 8 read as 0: the grid direction nearest to
      the bearing. */
  function LandDirection(atan2deg: (real, real) -> real, sx: real, sy: real): (d: int)
    requires AngleRange(atan2deg)
    ensures 0 <= d < 8
    ensures var a := Bearing(atan2deg, sx, sy);
      (-22.5 <= a - 45.0 * d as real <= 22.5) || (d == 0 && a >= 337.5)
  {
    var r := Round(Bearing(atan2deg, sx, sy) / 45.0);
    if r == 8 then 0 else r
  }

  /** The byte the classifier stores for source pixel `(i, j)`. */
  function CellCode(img: Raster, lk: Lookup, atan2deg: (real, real) -> real, i: int, j: int): (r: bv8)
    requires Lookable(img) && 0 <= i < img.width && AngleRange(atan2deg)
    ensures ValidCode(r)
  {
    if !PixelWater(img, lk, i, j) then Land
    else if AnyQualifies(img, lk, i, j, 8) then
      Encode(LandDirection(atan2deg, SumX(img, lk, i, j, 8), SumY(img, lk, i, j, 8)), Coast)
    else Water
  }

  /** A pixel is land iff it reads as land; it is coast iff it reads as water
      and some direction qualifies, and then its direction is the one nearest
      to the weighted sum; otherwise it is water. */
  lemma CellCodeClassifies(img: Raster, lk: Lookup, atan2deg: (real, real) -> real, i: int, j: int)
    requires Lookable(img) && 0 <= i < img.width && AngleRange(atan2deg)
    ensures var r := CellCode(img, lk, atan2deg, i, j);
      && (r == Land <==> !PixelWater(img, lk, i, j))
      && (r == Water <==> PixelWater(img, lk, i, j) && forall d :: 0 <= d < 8 ==> !Qualifies(img, lk, i, j, d))
      && (StateOf(r) == Coast <==> PixelWater(img, lk, i, j) && exists d :: 0 <= d < 8 && Qualifies(img, lk, i, j, d))
      && (StateOf(r) == Coast ==>
            DirOf(r) == LandDirection(atan2deg, SumX(img, lk, i, j, 8), SumY(img, lk, i, j, 8)))
  {
    var lo := AnyQualifies(img, lk, i, j, 8);
  }

  // ---------------------------------------------------------------------
  // Where a source pixel lands in the map.

  /** Source rows `[10, m - 10)` land at rows `[7, m - 13)`. */
  predicate InBand(jc: int, m: int) { 7 <= jc < m - 13 }

  /** `i_cs = i - 3 - n / 2`, moved up by `n` when negative. */
  function DestCol(i: int, n: int): (r: int)
    requires n >= 6 && 0 <= i < n
    ensures 0 <= r < n
    ensures SrcCol(r, n) == i
  {
    var c := i - 3 - n / 2;
    if c < 0 then c + n else c
  }

  /** The source column that lands in map column `ic`. */
  function SrcCol(ic: int, n: int): (r: int)
    requires n >= 6 && 0 <= ic < n
    ensures 0 <= r < n
  {
    var c := ic + 3 + n / 2;
    if c >= n then c - n else c
  }

  lemma SrcDest(ic: int, n: int)
    requires n >= 6 && 0 <= ic < n
    ensures 0 <= SrcCol(ic, n) < n && DestCol(SrcCol(ic, n), n) == ic
  {
  }

  /** Every coast cell of `wm` lies in rows `[lo, hi)`. */
  predicate CoastRowsWithin(wm: seq<seq<bv8>>, n: nat, m: nat, lo: int, hi: int)
    requires IsGrid(wm, n, m)
  {
    forall i, j :: 0 <= i < n && 0 <= j < m && StateOf(wm[i][j]) == Coast ==> lo <= j < hi
  }

  class CoastMap {
    const n: nat
    const m: nat
    /** `wmap[i][j]`: column `i`, row `j`. */
    var wmap: array2<bv8>

    ghost predicate Valid()
      reads this, wmap
    {
      wmap.Length0 == n && wmap.Length1 == m && n > 0 && m > 0 &&
      forall i, j :: 0 <= i < n && 0 <= j < m ==> ValidCode(wmap[i, j])
    }

    ghost function Cells(): (wm: seq<seq<bv8>>)
      reads this, wmap
      requires Valid()
      ensures ValidMap(wm, n, m)
      ensures forall i, j :: 0 <= i < n && 0 <= j < m ==> wm[i][j] == wmap[i, j]
    {
      var a := wmap;
      seq(n, i requires 0 <= i < a.Length0 reads a =>
        seq(m, j requires 0 <= j < a.Length1 reads a => a[i, j]))
    }

    /** A map of all water (the zero-initialised storage). */
    constructor (n: nat, m: nat)
      requires n > 0 && m > 0
      ensures Valid() && this.n == n && this.m == m && fresh(wmap)
      ensures forall i, j :: 0 <= i < n && 0 <= j < m ==> wmap[i, j] == Water
    {
      this.n := n;
      this.m := m;
      wmap := new bv8[n, m]((i, j) => Water);
    }

    /** `is_water` (C++). */
    function IsWater(i: int, j: int): (r: bool)
      reads this, wmap
      requires Valid() && -(n as int) <= i < 2 * n
      ensures r == WaterIn(Cells(), n, m, i, j)
    {
      var p := WrapIJ(i, j, n, m);
      StateOf(wmap[p.0, p.1]) == Water
    }

    /** `is_land` (C++). */
    function IsLand(i: int, j: int): (r: bool)
      reads this, wmap
      requires Valid() && -(n as int) <= i < 2 * n
      ensures r == LandIn(Cells(), n, m, i, j)
    {
      var p := WrapIJ(i, j, n, m);
      StateOf(wmap[p.0, p.1]) == Land
    }

    /** `IsWater` (Go): the row is clamped to `[0, m]`, so row `m` and beyond
        index past the array and the caller must stay below `m`. */
    function GoIsWater(i: int, j: int): (r: bool)
      reads this, wmap
      requires Valid() && -(n as int) <= i < 2 * n && j < m
      ensures r == WaterIn(Cells(), n, m, i, j)
    {
      var jj := if j > m then m else if j < 0 then 0 else j;
      StateOf(wmap[WrapOnce(i, n), jj]) == Water
    }

    /** `IsLand` (Go), with the same row clamp. */
    function GoIsLand(i: int, j: int): (r: bool)
      reads this, wmap
      requires Valid() && -(n as int) <= i < 2 * n && j < m
      ensures r == LandIn(Cells(), n, m, i, j)
    {
      var jj := if j > m then m else if j < 0 then 0 else j;
      StateOf(wmap[WrapOnce(i, n), jj]) == Land
    }

    /** `is_coast` (C++) and `IsCoast` (Go). */
    function IsCoast(i: int, j: int): (r: CoastInfo)
      reads this, wmap
      requires Valid() && 0 <= i < n && 0 <= j
      ensures r == CoastIn(Cells(), n, m, i, j)
    {
      if j >= m then CoastInfo(false, 0, 0, 0)
      else
        var v := wmap[i, j];
        var d := DirOf(v);
        assert ValidCode(v);
        CoastInfo(StateOf(v) == Coast, DirX[d], DirY[d], d)
    }

    /** Map cell `(ic, jc)` holds the classification of its source pixel
        when that pixel comes before `(i, j)` in the scan, and `prev[ic][jc]`
        otherwise. */
    ghost predicate ClassifiedBefore(img: Raster, lk: Lookup, atan2deg: (real, real) -> real,
                                     prev: seq<seq<bv8>>, i: int, j: int)
      reads this, wmap
      requires Valid() && IsGrid(prev, n, m) && Lookable(img) && img.width == n && n >= 6
      requires AngleRange(atan2deg)
    {
      forall ic, jc :: 0 <= ic < n && 0 <= jc < m ==>
        wmap[ic, jc] == if InBand(jc, m) && (SrcCol(ic, n) < i || (SrcCol(ic, n) == i && jc + 3 < j))
                        then CellCode(img, lk, atan2deg, SrcCol(ic, n), jc + 3)
                        else prev[ic][jc]
    }

    /** Fills the band rows from the raster, one source pixel at a time;
        rows outside the band keep their value. */
    method Classify(img: Raster, lk: Lookup, atan2deg: (real, real) -> real)
      requires Valid() && Lookable(img) && img.width == n && img.height == m && n >= 6
      requires AngleRange(atan2deg)
      modifies wmap
      ensures Valid()
      ensures forall ic, jc :: 0 <= ic < n && 0 <= jc < m ==>
        wmap[ic, jc] == if InBand(jc, m) then CellCode(img, lk, atan2deg, SrcCol(ic, n), jc + 3)
                        else old(wmap[ic, jc])
    {
      ghost var prev := Cells();
      forall ic | 0 <= ic < n
        ensures 0 <= SrcCol(ic, n) < n && DestCol(SrcCol(ic, n), n) == ic
      {
        SrcDest(ic, n);
      }
      var i := 0;
      while i < n
        invariant 0 <= i <= n && Valid()
        invariant ClassifiedBefore(img, lk, atan2deg, prev, i, 0)
      {
        ClassifyColumn(img, lk, atan2deg, prev, i);
        i := i + 1;
      }
    }

    /** The inner loop: source column `i`, rows `[10, m - 10)`. */
    method ClassifyColumn(img: Raster, lk: Lookup, atan2deg: (real, real) -> real, ghost prev: seq<seq<bv8>>, i: int)
      requires Valid() && IsGrid(prev, n, m) && Lookable(img) && img.width == n && n >= 6
      requires AngleRange(atan2deg) && 0 <= i < n
      requires forall ic | 0 <= ic < n :: 0 <= SrcCol(ic, n) < n && DestCol(SrcCol(ic, n), n) == ic
      requires ClassifiedBefore(img, lk, atan2deg, prev, i, 0)
      modifies wmap
      ensures Valid()
      ensures ClassifiedBefore(img, lk, atan2deg, prev, i + 1, 0)
    {
      var j := 10;
      while j < m - 10
        invariant 10 <= j && (j <= m - 10 || j == 10) && Valid()
        invariant ClassifiedBefore(img, lk, atan2deg, prev, i, j)
      {
        ClassifyStep(img, lk, atan2deg, prev, i, j);
        j := j + 1;
      }
      forall ic, jc | 0 <= ic < n && 0 <= jc < m
        ensures wmap[ic, jc] ==
          if InBand(jc, m) && SrcCol(ic, n) < i + 1
          then CellCode(img, lk, atan2deg, SrcCol(ic, n), jc + 3)
          else prev[ic][jc]
      {
        assert InBand(jc, m) ==> jc + 3 < j;
      }
    }

    /** One step of the inner loop keeps the scan invariant. */
    method ClassifyStep(img: Raster, lk: Lookup, atan2deg: (real, real) -> real, ghost prev: seq<seq<bv8>>, i: int, j: int)
      requires Valid() && IsGrid(prev, n, m) && Lookable(img) && img.width == n && n >= 6
      requires AngleRange(atan2deg) && 0 <= i < n && 10 <= j < m - 10
      requires forall ic | 0 <= ic < n :: 0 <= SrcCol(ic, n) < n && DestCol(SrcCol(ic, n), n) == ic
      requires ClassifiedBefore(img, lk, atan2deg, prev, i, j)
      modifies wmap
      ensures Valid()
      ensures ClassifiedBefore(img, lk, atan2deg, prev, i, j + 1)
    {
      label Before:
      ClassifyCell(img, lk, atan2deg, i, j);
      forall ic, jc | 0 <= ic < n && 0 <= jc < m
        ensures wmap[ic, jc] ==
          if InBand(jc, m) && (SrcCol(ic, n) < i || (SrcCol(ic, n) == i && jc + 3 < j + 1))
          then CellCode(img, lk, atan2deg, SrcCol(ic, n), jc + 3)
          else prev[ic][jc]
      {
        if ic != DestCol(i, n) || jc != j - 3 {
          assert wmap[ic, jc] == old@Before(wmap[ic, jc]);
          assert !(SrcCol(ic, n) == i && jc + 3 == j);
        }
      }
    }

    /** One step of the classification loop: the map cell of source pixel
        `(i, j)` receives its code and nothing else changes. */
    method ClassifyCell(img: Raster, lk: Lookup, atan2deg: (real, real) -> real, i: int, j: int)
      requires Valid() && Lookable(img) && img.width == n && n >= 6
      requires AngleRange(atan2deg)
      requires 0 <= i < n && 3 <= j < m + 3
      modifies wmap
      ensures Valid()
      ensures wmap[DestCol(i, n), j - 3] == CellCode(img, lk, atan2deg, i, j)
      ensures forall ic, jc :: 0 <= ic < n && 0 <= jc < m && (ic != DestCol(i, n) || jc != j - 3) ==>
        wmap[ic, jc] == old(wmap[ic, jc])
    {
      var ics := i - 3;
      var jcs := j - 3;
      ics := ics - n / 2;
      if ics < 0 {
        ics := ics + n;
      }
      assert ics == DestCol(i, n);
      var code := PixelCode(img, lk, atan2deg, i, j);
      assert ValidCode(code);
      wmap[ics, jcs] := code;
    }

    /** `load` (C++): `false` when the file is missing or the image is not
        `n` by `m` at 8 bits per pixel, with the map left as it was; `true`
        once the band rows are classified with the C++ pixel reader. */
    method Load(file: Option<Raster>, atan2deg: (real, real) -> real) returns (ok: bool)
      requires Valid() && n >= 6 && AngleRange(atan2deg)
      requires file.Some? ==> Shaped(file.value)
      modifies wmap
      ensures Valid()
      ensures ok <==> file.Some? && file.value.width == n && file.value.height == m && file.value.bitDepth == 8
      ensures !ok ==> forall ic, jc :: 0 <= ic < n && 0 <= jc < m ==> wmap[ic, jc] == old(wmap[ic, jc])
      ensures ok ==> forall ic, jc :: 0 <= ic < n && 0 <= jc < m ==>
        wmap[ic, jc] == if InBand(jc, m) then CellCode(file.value, CLookup, atan2deg, SrcCol(ic, n), jc + 3)
                        else old(wmap[ic, jc])
    {
      if file.None? {
        return false;
      }
      var img := file.value;
      if img.width != n || img.height != m || img.bitDepth != 8 {
        return false;
      }
      Classify(img, CLookup, atan2deg);
      return true;
    }
  }

  /** The body of the classification loop for one source pixel: land, or
      water, or coast towards the nearest grid direction of the weighted
      sum of the qualifying directions. */
  method PixelCode(img: Raster, lk: Lookup, atan2deg: (real, real) -> real, i: int, j: int) returns (code: bv8)
    requires Lookable(img) && 0 <= i < img.width && AngleRange(atan2deg)
    ensures code == CellCode(img, lk, atan2deg, i, j)
  {
    if PixelWater(img, lk, i, j) {
      code := Water;
      var sumX, sumY, isCoast := ScanDirections(img, lk, i, j);
      assert isCoast == AnyQualifies(img, lk, i, j, 8);
      if isCoast {
        var ang := atan2deg(sumY, sumX);
        if ang < 0.0 {
          ang := ang + 360.0;
        }
        var dirLand := Round(ang / 45.0);
        if dirLand == 8 {
          dirLand := 0;
        }
        assert dirLand == LandDirection(atan2deg, sumX, sumY);
        code := Encode(dirLand, Coast);
      }
    } else {
      code := Land;
    }
  }

  /** The C++ loop's eight-direction probe: the weighted sums of the
      qualifying directions and whether any qualifies. */
  method ScanDirections(img: Raster, lk: Lookup, i: int, j: int) returns (sumX: real, sumY: real, isCoast: bool)
    requires Lookable(img) && 0 <= i < img.width
    ensures sumX == SumX(img, lk, i, j, 8) && sumY == SumY(img, lk, i, j, 8)
    ensures isCoast <==> exists d :: 0 <= d < 8 && Qualifies(img, lk, i, j, d)
  {
    sumX, sumY, isCoast := 0.0, 0.0, false;
    for dir := 0 to 8
      invariant sumX == SumX(img, lk, i, j, dir) && sumY == SumY(img, lk, i, j, dir)
      invariant isCoast == AnyQualifies(img, lk, i, j, dir)
    {
      var di := DirX[dir];
      var dj := DirY[dir];
      if Qualifies(img, lk, i, j, dir) {
        var f := 1.0;
        if dir % 2 == 1 {
          f := 0.7071;
        }
        sumX := sumX + f * di as real;
        sumY := sumY + f * dj as real;
        isCoast := true;
      }
    }
  }

  /** `NewCoastService` (Go): `null` when the file cannot be opened or
      decoded (`None`) or the image is not `n` by `m`; otherwise a fresh map
      whose band rows are classified with the Go pixel reader and whose other
      rows are water. */
  method NewCoastService(file: Option<Raster>, outside: bool, atan2deg: (real, real) -> real, n: nat, m: nat)
    returns (cs: CoastMap?)
    requires n >= 6 && m > 0 && AngleRange(atan2deg)
    requires file.Some? ==> Shaped(file.value)
    ensures cs == null <==> file.None? || file.value.width != n || file.value.height != m
    ensures cs != null ==> fresh(cs) && fresh(cs.wmap) && cs.Valid() && cs.n == n && cs.m == m
    ensures cs != null ==> forall ic, jc :: 0 <= ic < n && 0 <= jc < m ==>
      cs.wmap[ic, jc] == if InBand(jc, m) then CellCode(file.value, GoLookup(outside), atan2deg, SrcCol(ic, n), jc + 3)
                         else Water
    ensures cs != null ==> CoastRowsWithin(cs.Cells(), n, m, 7, m - 13)
  {
    if file.None? {
      return null;
    }
    var img := file.value;
    if img.width != n || img.height != m {
      return null;
    }
    cs := new CoastMap(n, m);
    cs.Classify(img, GoLookup(outside), atan2deg);
    assert forall ic, jc :: 0 <= ic < n && 0 <= jc < m && !InBand(jc, m) ==> StateOf(cs.wmap[ic, jc]) != Coast;
  }
}
