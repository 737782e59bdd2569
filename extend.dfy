/** The coastal snow extension as the source runs it: a new depth map is
    filled cell by cell from the raw map and the coast map
    (`DepthMap::extend_coastal_snow` in the plugin and in the services layer,
    `ElsaOnTheCoast` in Go).  Each method is proved to compute the
    specification `CoastalSnow.Extended`. */
module Extension {
  import opened Numeric
  import opened Options
  import opened Grid
  import opened CoastMaps
  import opened CoastalSnow
  import opened DepthMaps

  /** The inputs of the extension as values. */
  ghost predicate Inputs(src: DepthMap, cm: CoastMap)
    reads src, cm, cm.wmap
  {
    src.Valid() && cm.Valid() && cm.n == src.w && src.w >= 3
  }

  ghost function WorldOf(src: DepthMap, cm: CoastMap): (z: World)
    reads src, src.val, cm, cm.wmap
    requires Inputs(src, cm)
    ensures ValidWorld(z) && z.w == src.w && z.h == src.h && z.m == cm.m
    ensures z.raw == src.Cells() && z.wm == cm.Cells()
  {
    World(src.Cells(), cm.Cells(), src.w, src.h, cm.m)
  }

  /** `z` is the world the two maps hold, stated cell by cell. */
  ghost predicate Describes(src: DepthMap, cm: CoastMap, z: World)
    reads src, src.val, cm, cm.wmap
  {
    Inputs(src, cm) && z.w == src.w && z.h == src.h && z.m == cm.m && src.Holds(z.raw) &&
    IsGrid(z.wm, cm.n, cm.m) && forall i, j :: 0 <= i < cm.n && 0 <= j < cm.m ==> z.wm[i][j] == cm.wmap[i, j]
  }

  lemma DescribesWorld(src: DepthMap, cm: CoastMap, z: World)
    requires Describes(src, cm, z)
    ensures z == WorldOf(src, cm)
  {
    var raw, wm := src.Cells(), cm.Cells();
    assert forall i :: 0 <= i < src.w ==> raw[i] == z.raw[i];
    assert forall i :: 0 <= i < cm.n ==> wm[i] == z.wm[i];
  }

  /** The new map shares no storage with the inputs. */
  ghost predicate Apart(src: DepthMap, cm: CoastMap, r: DepthMap)
    reads src, cm, r
  {
    r.val != src.val && r.val as object != cm.wmap as object
  }

  /** What the Go coast service guarantees and the Go extension relies on:
      every coast cell lies at least two rows below the last coast map row
      (so the water test of the search stays inside the map), and the coast
      map has no more rows than the depth map (so the backfill rows stay
      inside the depth map). */
  ghost predicate GoRowsSafe(src: DepthMap, cm: CoastMap)
    reads src, cm, cm.wmap
    requires Inputs(src, cm)
  {
    CoastRowsWithin(cm.Cells(), cm.n, cm.m, 0, cm.m - 2) && cm.m <= src.h
  }

  /** The coastal pass from the raw map `src`.  `goRows` selects the Go
      variant, whose water test and backfill row clamp only work under
      `GoRowsSafe`; `mode` selects how a backfill store combines with what
      the cell holds (the source assigns). */
  method Extend(src: DepthMap, cm: CoastMap, mode: Mode, goRows: bool) returns (r: DepthMap)
    requires Inputs(src, cm)
    requires goRows ==> GoRowsSafe(src, cm)
    ensures fresh(r) && fresh(r.val) && r.Valid() && r.w == src.w && r.h == src.h
    ensures r.Holds(Extended(WorldOf(src, cm), mode))
  {
    ghost var z := WorldOf(src, cm);
    ghost var p := PassOf(z);
    PassForOf(z);
    assert Describes(src, cm, z);
    r := new DepthMap(src.w, src.h);
    ExtendColumns(src, cm, mode, goRows, r, z, p);
  }

  /** The stores of the pass `p` are the backfills of `z`.  The cell-wise
      fact is only used through `StoresOf`, so that the backfill definitions
      stay out of the loops that merely pass `p` on. */
  ghost predicate PassFor(p: Pass, z: World)
  {
    ValidWorld(z) && PassOk(p) && p.raw == z.raw && p.w == z.w && p.h == z.h &&
    forall a, b {:trigger StoresOf(p, a, b)} :: 0 <= a < z.w && 0 <= b < z.h ==> StoresOf(p, a, b) == StepWrites(z, a, b)
  }

  ghost function StoresOf(p: Pass, a: int, b: int): seq<Write>
  {
    p.stores(a, b)
  }

  lemma PassForOf(z: World)
    requires ValidWorld(z)
    ensures PassFor(PassOf(z), z)
  {
  }

  /** The scan of every column, starting from the zeroed new map. */
  method ExtendColumns(src: DepthMap, cm: CoastMap, mode: Mode, goRows: bool, r: DepthMap,
                       ghost z: World, ghost p: Pass)
    requires Inputs(src, cm) && (goRows ==> GoRowsSafe(src, cm))
    requires Describes(src, cm, z) && PassFor(p, z)
    requires r.Valid() && r.w == src.w && r.h == src.h && Apart(src, cm, r)
    requires r.Holds(ScanTo(p, 0, 0, mode))
    modifies r.val
    ensures r.Holds(ScanTo(p, src.w, 0, mode))
  {
    var i := 0;
    while i < src.w
      invariant 0 <= i <= src.w
      invariant r.Valid() && r.w == src.w && r.h == src.h && Apart(src, cm, r)
      invariant Describes(src, cm, z)
      invariant r.Holds(ScanTo(p, i, 0, mode))
    {
      ExtendColumn(src, cm, mode, goRows, r, i, z, p);
      i := i + 1;
    }
  }

  /** One column of the scan. */
  method ExtendColumn(src: DepthMap, cm: CoastMap, mode: Mode, goRows: bool, r: DepthMap, i: int,
                      ghost z: World, ghost p: Pass)
    requires Inputs(src, cm) && (goRows ==> GoRowsSafe(src, cm))
    requires Describes(src, cm, z) && PassFor(p, z)
    requires r.Valid() && r.w == src.w && r.h == src.h && Apart(src, cm, r) && 0 <= i < src.w
    requires r.Holds(ScanTo(p, i, 0, mode))
    modifies r.val
    ensures r.Holds(ScanTo(p, i + 1, 0, mode))
  {
    var j := 0;
    while j < src.h
      invariant 0 <= j <= src.h
      invariant r.Holds(ScanTo(p, i, j, mode))
    {
      ExtendCell(src, cm, mode, goRows, r, i, j, z, p, ScanTo(p, i, j, mode));
      j := j + 1;
    }
  }

  /** One cell: keep the larger of the new map and the raw depth, and for a
      coast cell with little snow backfill from the first inland anchor. */
  method ExtendCell(src: DepthMap, cm: CoastMap, mode: Mode, goRows: bool, r: DepthMap, i: int, j: int,
                    ghost z: World, ghost p: Pass, ghost g: Field)
    requires Inputs(src, cm) && (goRows ==> GoRowsSafe(src, cm))
    requires Describes(src, cm, z) && PassFor(p, z)
    requires r.Valid() && r.w == src.w && r.h == src.h && Apart(src, cm, r)
    requires 0 <= i < src.w && 0 <= j < src.h && r.Holds(g)
    modifies r.val
    ensures r.Holds(CellStep(p, g, i, j, mode))
  {
    DescribesWorld(src, cm, z);
    var sd := src.GetIdx(i, j);
    r.Store(i, j, sd, Maximize, g);
    ghost var g1 := Put(g, src.w, src.h, Write(i, j, sd), Maximize);
    assert StoresOf(p, i, j) == StepWrites(z, i, j);
    CellStepIsStepWrites(z, p, g, i, j, mode);
    var c := cm.IsCoast(i, j);
    if c.yes && sd <= MinSd {
      assert goRows ==> j < cm.m - 2;
      var dist, anchor := FindInland(src, cm, goRows, i, j, c.dx, c.dy, sd, z);
      if dist > 0 {
        StoreBackfill(mode, goRows, r, i, j, c.dx, c.dy, dist, anchor, z, g1);
      }
    }
  }

  /** A cell step of the pass of `z` is the seed followed by the cell's
      backfill stores. */
  lemma CellStepIsStepWrites(z: World, p: Pass, g: Field, i: int, j: int, mode: Mode)
    requires ValidWorld(z) && PassOk(p) && p.raw == z.raw && p.w == z.w && p.h == z.h
    requires IsGrid(g, z.w, z.h) && 0 <= i < z.w && 0 <= j < z.h && p.stores(i, j) == StepWrites(z, i, j)
    ensures CellStep(p, g, i, j, mode) ==
            Apply(Put(g, z.w, z.h, Write(i, j, z.raw[i][j]), Maximize), z.w, z.h, StepWrites(z, i, j), mode)
  {
  }

  /** The search inland along `(dx, dy)`: `dist` is 0 when no step accepts,
      else the first accepting step, with `anchor` its raw depth. */
  method FindInland(src: DepthMap, cm: CoastMap, goRows: bool, i: int, j: int, dx: int, dy: int, sd: real,
                    ghost z: World)
    returns (dist: int, anchor: real)
    requires Inputs(src, cm) && z == WorldOf(src, cm) && 0 <= i < src.w && UnitStep(dx, dy)
    requires goRows ==> j < cm.m - 2
    ensures Search(z, i, j, dx, dy, sd, 1) == if dist == 0 then None else Some((dist, anchor))
  {
    dist, anchor := 0, 0.0;
    var k := 1;
    while k <= MaxStep
      invariant 1 <= k <= MaxStep + 1 && dist == 0
      invariant forall k' :: 1 <= k' < k ==> !Accepts(z, i, j, dx, dy, sd, k')
    {
      var found, tmp := Probe(src, cm, goRows, i, j, dx, dy, sd, k, z);
      if found {
        dist, anchor := k, tmp;
        break;
      }
      k := k + 1;
    }
    SearchFindsFirst(z, i, j, dx, dy, sd, k);
  }

  /** Step `k` of the search: water is skipped before the last step, else
      the step accepts when its raw depth exceeds both `sd` and `MinSd`. */
  method Probe(src: DepthMap, cm: CoastMap, goRows: bool, i: int, j: int, dx: int, dy: int, sd: real, k: int,
               ghost z: World)
    returns (found: bool, tmp: real)
    requires Inputs(src, cm) && z == WorldOf(src, cm) && 0 <= i < src.w && UnitStep(dx, dy) && 1 <= k <= MaxStep
    requires goRows ==> j < cm.m - 2
    ensures found == Accepts(z, i, j, dx, dy, sd, k)
    ensures found ==> tmp == RawAt(z, i + Offset(k, dx), j + Offset(k, dy))
  {
    var ii := i + Offset(k, dx);
    var jj := j + Offset(k, dy);
    if k < MaxStep && (if goRows then cm.GoIsWater(ii, jj) else cm.IsWater(ii, jj)) {
      return false, 0.0;
    }
    tmp := src.GetIdx(ii, jj);
    found := tmp > sd && tmp > MinSd;
  }

  /** The backfill from the anchor at distance `d` back to the coast cell,
      decaying the anchor depth by `Decay` per step. */
  method StoreBackfill(mode: Mode, goRows: bool, r: DepthMap,
                       i: int, j: int, dx: int, dy: int, d: int, v: real, ghost z: World, ghost g: Field)
    requires ValidWorld(z) && r.Valid() && r.w == z.w && r.h == z.h
    requires 0 <= i < r.w && 0 <= j < r.h && UnitStep(dx, dy) && 1 <= d <= MaxStep
    requires goRows ==> j + 2 < r.h
    requires r.Holds(g)
    modifies r.val
    ensures r.Holds(Apply(g, r.w, r.h, Backfill(z, i, j, dx, dy, d, v), mode))
  {
    ghost var ws := Backfill(z, i, j, dx, dy, d, v);
    var sdv := v;
    var k := d - 1;
    while k >= 0
      invariant -1 <= k <= d - 1
      invariant sdv == Decayed(v, d - 1 - k)
      invariant r.Holds(Apply(g, r.w, r.h, ws[..d - 1 - k], mode))
      decreases k + 1
    {
      sdv := BackfillStep(mode, goRows, r, i, j, dx, dy, d, v, k, sdv, z, g);
      k := k - 1;
    }
    assert ws[..d] == ws;
  }

  /** One store of the backfill, `k` steps out from the coast cell: the
      decayed depth, the column wrapped once, the row clamped (to one past
      the last row in Go, which `goRows ==> j + 2 < h` keeps unreachable). */
  method BackfillStep(mode: Mode, goRows: bool, r: DepthMap, i: int, j: int, dx: int, dy: int, d: int, v: real,
                      k: int, sdv0: real, ghost z: World, ghost g: Field) returns (sdv: real)
    requires ValidWorld(z) && r.Valid() && r.w == z.w && r.h == z.h
    requires 0 <= i < r.w && 0 <= j < r.h && UnitStep(dx, dy) && 1 <= d <= MaxStep && 0 <= k < d
    requires goRows ==> j + 2 < r.h
    requires sdv0 == Decayed(v, d - 1 - k) && IsGrid(g, z.w, z.h)
    requires r.Holds(Apply(g, r.w, r.h, Backfill(z, i, j, dx, dy, d, v)[..d - 1 - k], mode))
    modifies r.val
    ensures sdv == Decayed(v, d - k)
    ensures r.Holds(Apply(g, r.w, r.h, Backfill(z, i, j, dx, dy, d, v)[..d - k], mode))
  {
    var w, h := r.w, r.h;
    sdv := sdv0 * Decay;
    if sdv < MinSd {
      sdv := MinSd;
    }
    var x, y := BackfillTarget(goRows, w, h, i, j, dx, dy, k);
    BackfillNext(z, i, j, dx, dy, d, v, k, g, mode);
    r.Store(x, y, sdv, mode, Apply(g, w, h, Backfill(z, i, j, dx, dy, d, v)[..d - 1 - k], mode));
  }

  /** The cell `k` steps out from `(i, j)`: the column wrapped once, the row
      clamped (in Go to one past the last row, which `goRows ==> j + 2 < h`
      keeps unreachable). */
  method BackfillTarget(goRows: bool, w: nat, h: nat, i: int, j: int, dx: int, dy: int, k: int) returns (x: int, y: int)
    requires w > 0 && h > 0 && 0 <= i < w && 0 <= j < h && UnitStep(dx, dy) && 0 <= k < MaxStep
    requires goRows ==> j + 2 < h
    requires k < w
    ensures x == WrapOnce(i + Offset(k, dx), w) && y == Clamp(j + Offset(k, dy), h)
  {
    x := i + Offset(k, dx);
    y := j + Offset(k, dy);
    if x >= w {
      x := x - w;
    }
    if x < 0 {
      x := x + w;
    }
    if y >= h {
      y := if goRows then h else h - 1;
    }
    if y < 0 {
      y := 0;
    }
  }

  /** Store `d - 1 - k` of a backfill is the step `k` cells out, and applying
      one more store extends the applied prefix. */
  lemma BackfillNext(z: World, i: int, j: int, dx: int, dy: int, d: int, v: real, k: int, g: Field, mode: Mode)
    requires ValidWorld(z) && 0 <= i < z.w && UnitStep(dx, dy) && 1 <= d <= MaxStep && 0 <= k < d
    requires IsGrid(g, z.w, z.h)
    ensures var ws := Backfill(z, i, j, dx, dy, d, v);
            ws[d - 1 - k] == Write(WrapOnce(i + Offset(k, dx), z.w), Clamp(j + Offset(k, dy), z.h), Decayed(v, d - k)) &&
            Apply(g, z.w, z.h, ws[..d - k], mode) == Put(Apply(g, z.w, z.h, ws[..d - 1 - k], mode), z.w, z.h, ws[d - 1 - k], mode)
  {
    var ws := Backfill(z, i, j, dx, dy, d, v);
    assert ws[..d - k] == ws[..d - 1 - k] + [ws[d - 1 - k]];
    ApplySnoc(g, z.w, z.h, ws[..d - 1 - k], ws[d - 1 - k], mode);
  }

  /** `extend_coastal_snow` of the plugin and of the services layer: stores
      assign, rows past the depth map clamp to its last row. */
  method ExtendCoastalSnow(src: DepthMap, cm: CoastMap) returns (r: DepthMap)
    requires Inputs(src, cm)
    ensures fresh(r) && fresh(r.val) && r.Valid() && r.w == src.w && r.h == src.h
    ensures r.Holds(Extended(WorldOf(src, cm), Overwrite))
  {
    r := Extend(src, cm, Overwrite, false);
  }

  /** `ElsaOnTheCoast` (Go): stores assign; the water test and the row clamp
      need the coast rows the Go coast service produces. */
  method ElsaOnTheCoast(src: DepthMap, cm: CoastMap) returns (r: DepthMap)
    requires Inputs(src, cm) && GoRowsSafe(src, cm)
    ensures fresh(r) && fresh(r.val) && r.Valid() && r.w == src.w && r.h == src.h
    ensures r.Holds(Extended(WorldOf(src, cm), Overwrite))
  {
    r := Extend(src, cm, Overwrite, true);
  }

  /** The pass with maximizing backfill stores, which the comments of the
      source ask for ("always maximize"): no cell ends below its raw depth. */
  method ExtendCoastalSnowMaximized(src: DepthMap, cm: CoastMap) returns (r: DepthMap)
    requires Inputs(src, cm)
    ensures fresh(r) && fresh(r.val) && r.Valid() && r.w == src.w && r.h == src.h
    ensures r.Holds(Extended(WorldOf(src, cm), Maximize))
    ensures forall x, y :: 0 <= x < r.w && 0 <= y < r.h ==> r.val[x, y] >= src.val[x, y]
  {
    r := Extend(src, cm, Maximize, false);
    forall x, y | 0 <= x < r.w && 0 <= y < r.h
      ensures r.val[x, y] >= src.val[x, y]
    {
      MaximizeKeepsRaw(WorldOf(src, cm), x, y);
    }
  }
}
