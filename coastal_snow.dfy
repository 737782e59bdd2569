/** The coastal snow extension (`extend_coastal_snow` / `ElsaOnTheCoast`) as
    a specification on values.  The grid is scanned column by column.  Each
    cell first raises the new map to its raw depth.  A coast cell with at most
    `MinSd` of snow then looks up to `MaxStep` steps inland along its coast
    normal for more snow; if it finds any, it backfills the steps between the
    anchor and itself with the anchor's depth decayed by `Decay` per step and
    floored at `MinSd`. */
module CoastalSnow {
  import opened Numeric
  import opened Options
  import opened Grid
  import opened CoastMaps

  const MinSd: real := 0.02
  const Decay: real := 0.8
  const MaxStep: int := 3

  /** The input of the pass: the raw depth map (`w` by `h`) and the coast
      map (`w` by `m`; the source's depth map has one row more). */
  datatype World = World(raw: Field, wm: seq<seq<bv8>>, w: nat, h: nat, m: nat)

  predicate ValidWorld(z: World)
  {
    z.w >= 3 && z.h > 0 && z.m > 0 && IsGrid(z.raw, z.w, z.h) && ValidMap(z.wm, z.w, z.m)
  }

  /** `get_idx` on the raw map. */
  function RawAt(z: World, i: int, j: int): real
    requires ValidWorld(z) && -(z.w as int) <= i < 2 * z.w
  {
    z.raw[WrapOnce(i, z.w)][Clamp(j, z.h)]
  }

  /** `k * d` for a step count `k` and a unit step `d`. */
  function Offset(k: int, d: int): (r: int)
    requires 0 <= k <= MaxStep && -1 <= d <= 1
    ensures r == k * d && -k <= r <= k
  {
    if d == 0 then 0 else if d == 1 then k else -k
  }

  predicate UnitStep(dx: int, dy: int) { -1 <= dx <= 1 && -1 <= dy <= 1 }

  /** Step `k` of the search accepts: it is not water skipped before the last
      step, and its raw depth exceeds both the coast cell's depth and
      `MinSd`. */
  predicate Accepts(z: World, i: int, j: int, dx: int, dy: int, sd: real, k: int)
    requires ValidWorld(z) && 0 <= i < z.w && UnitStep(dx, dy) && 1 <= k <= MaxStep
  {
    var ii := i + Offset(k, dx);
    var jj := j + Offset(k, dy);
    !(k < MaxStep && WaterIn(z.wm, z.w, z.m, ii, jj)) && RawAt(z, ii, jj) > sd && RawAt(z, ii, jj) > MinSd
  }

  /** The search from step `k` on: the first accepting step and its depth. */
  function Search(z: World, i: int, j: int, dx: int, dy: int, sd: real, k: int): (r: Option<(int, real)>)
    requires ValidWorld(z) && 0 <= i < z.w && UnitStep(dx, dy) && 1 <= k <= MaxStep + 1
    ensures r.Some? ==> k <= r.value.0 <= MaxStep && Accepts(z, i, j, dx, dy, sd, r.value.0) &&
                        r.value.1 == RawAt(z, i + Offset(r.value.0, dx), j + Offset(r.value.0, dy))
    decreases MaxStep + 1 - k
  {
    if k > MaxStep then None
    else if Accepts(z, i, j, dx, dy, sd, k) then Some((k, RawAt(z, i + Offset(k, dx), j + Offset(k, dy))))
    else Search(z, i, j, dx, dy, sd, k + 1)
  }

  /** No step before the one the search finds accepts (none at all when it
      finds nothing). */
  lemma {:induction false} SearchNoEarlier(z: World, i: int, j: int, dx: int, dy: int, sd: real, k: int, k': int)
    requires ValidWorld(z) && 0 <= i < z.w && UnitStep(dx, dy) && 1 <= k <= k' <= MaxStep
    requires Search(z, i, j, dx, dy, sd, k).None? || k' < Search(z, i, j, dx, dy, sd, k).value.0
    ensures !Accepts(z, i, j, dx, dy, sd, k')
    decreases k' - k
  {
    if k < k' && !Accepts(z, i, j, dx, dy, sd, k) {
      SearchNoEarlier(z, i, j, dx, dy, sd, k + 1, k');
    }
  }

  /** Skipping steps that do not accept does not change the search. */
  lemma {:induction false} SearchSkips(z: World, i: int, j: int, dx: int, dy: int, sd: real, k: int)
    requires ValidWorld(z) && 0 <= i < z.w && UnitStep(dx, dy) && 1 <= k <= MaxStep + 1
    requires forall k' :: 1 <= k' < k ==> !Accepts(z, i, j, dx, dy, sd, k')
    ensures Search(z, i, j, dx, dy, sd, 1) == Search(z, i, j, dx, dy, sd, k)
  {
    if k > 1 {
      SearchSkips(z, i, j, dx, dy, sd, k - 1);
      assert !Accepts(z, i, j, dx, dy, sd, k - 1);
    }
  }

  /** The search finds the first accepting step, and nothing when no step
      accepts. */
  lemma SearchFindsFirst(z: World, i: int, j: int, dx: int, dy: int, sd: real, k: int)
    requires ValidWorld(z) && 0 <= i < z.w && UnitStep(dx, dy) && 1 <= k <= MaxStep + 1
    requires forall k' :: 1 <= k' < k ==> !Accepts(z, i, j, dx, dy, sd, k')
    ensures k <= MaxStep && Accepts(z, i, j, dx, dy, sd, k) ==>
              Search(z, i, j, dx, dy, sd, 1) == Some((k, RawAt(z, i + Offset(k, dx), j + Offset(k, dy))))
    ensures k == MaxStep + 1 ==> Search(z, i, j, dx, dy, sd, 1) == None
  {
    SearchSkips(z, i, j, dx, dy, sd, k);
  }

  /** The anchor depth after `n` decay steps, floored at `MinSd` each step. */
  function Decayed(v: real, n: nat): (r: real)
    ensures n >= 1 ==> r >= MinSd
  {
    if n == 0 then v
    else
      var u := Decayed(v, n - 1) * Decay;
      if u < MinSd then MinSd else u
  }

  /** The decay without the floor: `v * 0.8^n`, one factor at a time. */
  function Unfloored(v: real, n: nat): real
  {
    if n == 0 then v else Unfloored(v, n - 1) * Decay
  }

  lemma {:induction false} UnflooredPow(v: real, n: nat)
    ensures Unfloored(v, n) == v * Pow(Decay, n)
  {
    if n > 0 {
      UnflooredPow(v, n - 1);
      var p := Pow(Decay, n - 1);
      assert Pow(Decay, n) == Decay * p;
      assert Unfloored(v, n) == (v * p) * Decay;
      assert (v * p) * Decay == v * (Decay * p);
    }
  }

  /** Flooring at every step is flooring once at the end. */
  lemma {:induction false} DecayedUnfloored(v: real, n: nat)
    requires n >= 1
    ensures Decayed(v, n) == Max(Unfloored(v, n), MinSd)
  {
    if n > 1 {
      DecayedUnfloored(v, n - 1);
    }
  }

  /** The floored decay in closed form: `max(v * 0.8^n, MinSd)`. */
  lemma DecayedClosedForm(v: real, n: nat)
    requires n >= 1
    ensures Decayed(v, n) == Max(v * Pow(Decay, n), MinSd)
  {
    DecayedUnfloored(v, n);
    UnflooredPow(v, n);
  }

  /** Decay never raises an anchor that is above the floor. */
  lemma {:induction false} DecayedAtMostAnchor(v: real, n: nat)
    requires v >= MinSd
    ensures Decayed(v, n) <= v
  {
    if n > 0 {
      DecayedAtMostAnchor(v, n - 1);
    }
  }

  /** The store `k` steps from the coast cell, with the anchor decayed `n`
      times (column wrapped, row clamped). */
  function BackfillWrite(z: World, i: int, j: int, dx: int, dy: int, k: int, n: nat, v: real): (wr: Write)
    requires ValidWorld(z) && 0 <= i < z.w && UnitStep(dx, dy) && 0 <= k <= MaxStep
    ensures InBounds(wr, z.w, z.h) && (n >= 1 ==> wr.v >= MinSd)
    ensures k == 0 && 0 <= j < z.h ==> Hits(wr, i, j)
  {
    Write(WrapOnce(i + Offset(k, dx), z.w), Clamp(j + Offset(k, dy), z.h), Decayed(v, n))
  }

  /** The backfill for an anchor of depth `v` at distance `d`: store `t`
      goes `d - 1 - t` steps from the coast cell with the anchor decayed
      `t + 1` times, so the last store is the coast cell itself. */
  function Backfill(z: World, i: int, j: int, dx: int, dy: int, d: int, v: real): (ws: seq<Write>)
    requires ValidWorld(z) && 0 <= i < z.w && UnitStep(dx, dy) && 1 <= d <= MaxStep
    ensures |ws| == d
    ensures forall t :: 0 <= t < d ==> ws[t] == BackfillWrite(z, i, j, dx, dy, d - 1 - t, t + 1, v)
    ensures forall t :: 0 <= t < d ==> InBounds(ws[t], z.w, z.h) && ws[t].v >= MinSd
    ensures 0 <= j < z.h ==> Hits(ws[d - 1], i, j)
  {
    seq(d, t requires 0 <= t < d => BackfillWrite(z, i, j, dx, dy, d - 1 - t, t + 1, v))
  }

  /** The backfill stores of cell `(i, j)`: none unless it is a coast cell
      with at most `MinSd` of raw snow whose search finds an anchor. */
  function StepWrites(z: World, i: int, j: int): (ws: seq<Write>)
    requires ValidWorld(z) && 0 <= i < z.w && 0 <= j < z.h
    ensures forall k :: 0 <= k < |ws| ==> InBounds(ws[k], z.w, z.h) && ws[k].v >= MinSd
  {
    var sd := z.raw[i][j];
    var c := CoastIn(z.wm, z.w, z.m, i, j);
    if c.yes && sd <= MinSd then
      match Search(z, i, j, c.dx, c.dy, sd, 1)
      case None => []
      case Some(a) => Backfill(z, i, j, c.dx, c.dy, a.0, a.1)
    else []
  }

  /** A scan in the abstract: the raw map and, for every cell, the stores
      that cell makes after its seed.  The lemmas about the scan hold for any
      stores that stay in the grid and respect the floor. */
  datatype Pass = Pass(raw: Field, w: nat, h: nat, stores: (int, int) -> seq<Write>)

  predicate PassOk(p: Pass)
  {
    IsGrid(p.raw, p.w, p.h) &&
    forall a, b :: 0 <= a < p.w && 0 <= b < p.h ==>
      forall k :: 0 <= k < |p.stores(a, b)| ==> InBounds(p.stores(a, b)[k], p.w, p.h) && p.stores(a, b)[k].v >= MinSd
  }

  /** The coastal pass of a world: every cell's stores are its backfill. */
  function PassOf(z: World): (p: Pass)
    requires ValidWorld(z)
    ensures PassOk(p) && p.raw == z.raw && p.w == z.w && p.h == z.h
    ensures forall a, b :: 0 <= a < z.w && 0 <= b < z.h ==> p.stores(a, b) == StepWrites(z, a, b)
  {
    Pass(z.raw, z.w, z.h, (a, b) => if ValidWorld(z) && 0 <= a < z.w && 0 <= b < z.h then StepWrites(z, a, b) else [])
  }

  /** One cell of the scan: raise the cell to its raw depth, then apply its
      stores in the given mode (the source assigns). */
  function CellStep(p: Pass, g: Field, i: int, j: int, mode: Mode): (r: Field)
    requires PassOk(p) && IsGrid(g, p.w, p.h) && 0 <= i < p.w && 0 <= j < p.h
    ensures IsGrid(r, p.w, p.h)
  {
    Apply(Put(g, p.w, p.h, Write(i, j, p.raw[i][j]), Maximize), p.w, p.h, p.stores(i, j), mode)
  }

  /** Scan positions: before cell `(i, j)` of column-major order, or the
      end `(w, 0)`. */
  predicate ScanPos(p: Pass, i: int, j: int)
  {
    (0 <= i < p.w && 0 <= j <= p.h) || (i == p.w && j == 0)
  }

  /** Cell `(x, y)` comes before position `(i, j)` in the scan. */
  predicate Before(x: int, y: int, i: int, j: int) { x < i || (x == i && y < j) }

  /** The new map once every cell before `(i, j)` has been processed. */
  function ScanTo(p: Pass, i: int, j: int, mode: Mode): (g: Field)
    requires PassOk(p) && ScanPos(p, i, j)
    ensures IsGrid(g, p.w, p.h)
    decreases i, j
  {
    if j > 0 then CellStep(p, ScanTo(p, i, j - 1, mode), i, j - 1, mode)
    else if i == 0 then Zeros(p.w, p.h)
    else ScanTo(p, i - 1, p.h, mode)
  }

  /** The result of the whole coastal pass. */
  function Extended(z: World, mode: Mode): (g: Field)
    requires ValidWorld(z)
    ensures IsGrid(g, z.w, z.h)
  {
    ScanTo(PassOf(z), z.w, 0, mode)
  }

  /** Some store of cell `(a, b)` goes to `(x, y)`. */
  predicate Targets(p: Pass, a: int, b: int, x: int, y: int)
  {
    exists k :: 0 <= k < |p.stores(a, b)| && Hits(p.stores(a, b)[k], x, y)
  }

  /** One cell step leaves a cell its stores do not reach as the seed left
      it. */
  lemma CellStepUntargeted(p: Pass, g: Field, i: int, j: int, mode: Mode, x: int, y: int)
    requires PassOk(p) && IsGrid(g, p.w, p.h) && 0 <= i < p.w && 0 <= j < p.h
    requires 0 <= x < p.w && 0 <= y < p.h && !Targets(p, i, j, x, y)
    ensures CellStep(p, g, i, j, mode)[x][y] == if x == i && y == j then Max(g[x][y], p.raw[x][y]) else g[x][y]
  {
    var g1 := Put(g, p.w, p.h, Write(i, j, p.raw[i][j]), Maximize);
    ApplyUntouched(g1, p.w, p.h, p.stores(i, j), mode, x, y);
  }

  lemma {:induction false} ScanUntargeted(p: Pass, mode: Mode, i: int, j: int, x: int, y: int)
    requires PassOk(p) && ScanPos(p, i, j) && 0 <= x < p.w && 0 <= y < p.h
    requires forall a, b :: 0 <= a < p.w && 0 <= b < p.h ==> !Targets(p, a, b, x, y)
    ensures ScanTo(p, i, j, mode)[x][y] == if Before(x, y, i, j) then Max(0.0, p.raw[x][y]) else 0.0
    decreases i, j
  {
    if j > 0 {
      ScanUntargeted(p, mode, i, j - 1, x, y);
      CellStepUntargeted(p, ScanTo(p, i, j - 1, mode), i, j - 1, mode, x, y);
    } else if i > 0 {
      ScanUntargeted(p, mode, i - 1, p.h, x, y);
    }
  }

  /** A cell no backfill reaches ends with its raw depth, or 0 when that is
      negative. */
  lemma UntargetedKeepsRaw(z: World, mode: Mode, x: int, y: int)
    requires ValidWorld(z) && 0 <= x < z.w && 0 <= y < z.h
    requires forall a, b :: 0 <= a < z.w && 0 <= b < z.h ==>
      forall k :: 0 <= k < |StepWrites(z, a, b)| ==> !Hits(StepWrites(z, a, b)[k], x, y)
    ensures Extended(z, mode)[x][y] == Max(0.0, z.raw[x][y])
  {
    var p := PassOf(z);
    assert forall a, b :: 0 <= a < p.w && 0 <= b < p.h ==> !Targets(p, a, b, x, y) by {
      forall a, b | 0 <= a < p.w && 0 <= b < p.h
        ensures !Targets(p, a, b, x, y)
      {
        assert p.stores(a, b) == StepWrites(z, a, b);
      }
    }
    ScanUntargeted(p, mode, z.w, 0, x, y);
  }

  /** One cell step keeps a cell at or above `c` when it was, or when one of
      the cell's stores reaches it, provided the stores are at least `c`. */
  lemma CellStepFloor(p: Pass, g: Field, i: int, j: int, mode: Mode, x: int, y: int, c: real)
    requires PassOk(p) && IsGrid(g, p.w, p.h) && 0 <= i < p.w && 0 <= j < p.h
    requires 0 <= x < p.w && 0 <= y < p.h && c <= MinSd
    requires g[x][y] >= c || Targets(p, i, j, x, y)
    ensures CellStep(p, g, i, j, mode)[x][y] >= c
  {
    var g1 := Put(g, p.w, p.h, Write(i, j, p.raw[i][j]), Maximize);
    assert g1[x][y] >= g[x][y];
    ApplyFloor(g1, p.w, p.h, p.stores(i, j), mode, x, y, c);
  }

  lemma {:induction false} ScanFloor(p: Pass, mode: Mode, i: int, j: int, x: int, y: int)
    requires PassOk(p) && ScanPos(p, i, j) && 0 <= x < p.w && 0 <= y < p.h
    ensures ScanTo(p, i, j, mode)[x][y] >= 0.0
    ensures (exists a, b :: 0 <= a < p.w && 0 <= b < p.h && Before(a, b, i, j) && Targets(p, a, b, x, y)) ==>
      ScanTo(p, i, j, mode)[x][y] >= MinSd
    decreases i, j
  {
    if j > 0 {
      ScanFloor(p, mode, i, j - 1, x, y);
      var g := ScanTo(p, i, j - 1, mode);
      CellStepFloor(p, g, i, j - 1, mode, x, y, 0.0);
      if exists a, b :: 0 <= a < p.w && 0 <= b < p.h && Before(a, b, i, j) && Targets(p, a, b, x, y) {
        var a, b :| 0 <= a < p.w && 0 <= b < p.h && Before(a, b, i, j) && Targets(p, a, b, x, y);
        if !(a == i && b == j - 1) {
          assert Before(a, b, i, j - 1);
        }
        CellStepFloor(p, g, i, j - 1, mode, x, y, MinSd);
      }
    } else if i > 0 {
      ScanFloor(p, mode, i - 1, p.h, x, y);
      if exists a, b :: 0 <= a < p.w && 0 <= b < p.h && Before(a, b, i, j) && Targets(p, a, b, x, y) {
        var a, b :| 0 <= a < p.w && 0 <= b < p.h && Before(a, b, i, j) && Targets(p, a, b, x, y);
        assert Before(a, b, i - 1, p.h);
      }
    }
  }

  /** Every cell of the result is nonnegative, and a cell some backfill
      reaches holds at least `MinSd`, whether stores assign or maximize. */
  lemma ExtendedFloor(z: World, mode: Mode, x: int, y: int)
    requires ValidWorld(z) && 0 <= x < z.w && 0 <= y < z.h
    ensures Extended(z, mode)[x][y] >= 0.0
    ensures (exists a, b, k :: 0 <= a < z.w && 0 <= b < z.h && 0 <= k < |StepWrites(z, a, b)| &&
                              Hits(StepWrites(z, a, b)[k], x, y)) ==>
      Extended(z, mode)[x][y] >= MinSd
  {
    var p := PassOf(z);
    ScanFloor(p, mode, z.w, 0, x, y);
    if exists a, b, k :: 0 <= a < z.w && 0 <= b < z.h && 0 <= k < |StepWrites(z, a, b)| &&
                         Hits(StepWrites(z, a, b)[k], x, y) {
      var a, b, k :| 0 <= a < z.w && 0 <= b < z.h && 0 <= k < |StepWrites(z, a, b)| &&
                     Hits(StepWrites(z, a, b)[k], x, y);
      assert p.stores(a, b) == StepWrites(z, a, b);
      assert Targets(p, a, b, x, y) && Before(a, b, z.w, 0);
    }
  }

  lemma {:induction false} ScanMaximizeAboveRaw(p: Pass, i: int, j: int, x: int, y: int)
    requires PassOk(p) && ScanPos(p, i, j) && 0 <= x < p.w && 0 <= y < p.h
    ensures Before(x, y, i, j) ==> ScanTo(p, i, j, Maximize)[x][y] >= p.raw[x][y]
    decreases i, j
  {
    if j > 0 {
      ScanMaximizeAboveRaw(p, i, j - 1, x, y);
      var g1 := Put(ScanTo(p, i, j - 1, Maximize), p.w, p.h, Write(i, j - 1, p.raw[i][j - 1]), Maximize);
      ApplyMaximizeAbove(g1, p.w, p.h, p.stores(i, j - 1), x, y);
    } else if i > 0 {
      ScanMaximizeAboveRaw(p, i - 1, p.h, x, y);
    }
  }

  /** With maximizing stores no cell ends below its raw depth. */
  lemma MaximizeKeepsRaw(z: World, x: int, y: int)
    requires ValidWorld(z) && 0 <= x < z.w && 0 <= y < z.h
    ensures Extended(z, Maximize)[x][y] >= z.raw[x][y]
  {
    ScanMaximizeAboveRaw(PassOf(z), z.w, 0, x, y);
  }

  /** With assigning stores (as the source writes them) a water cell scanned
      earlier can end below its raw depth: land at column 0 with 0.3, water
      at column 1 with 0.5, and a coast cell at column 2 facing land to the
      west (direction 4) whose search skips the water and anchors at column
      0; the backfill then stores 0.24 into the water cell. */
  lemma OverwriteLowersWater()
    ensures var z := World([[0.3], [0.5], [0.0]], [[Land], [Water], [Encode(4, Coast)]], 3, 1, 1);
      ValidWorld(z) && Extended(z, Overwrite)[1][0] == 0.24 && z.raw[1][0] == 0.5
  {
    var z := World([[0.3], [0.5], [0.0]], [[Land], [Water], [Encode(4, Coast)]], 3, 1, 1);
    assert ValidCode(CodeAt(z.wm, 2, 0));
    assert ValidWorld(z);
    var c := CoastIn(z.wm, 3, 1, 2, 0);
    assert c.yes && c.dx == -1 && c.dy == 0;
    assert !Accepts(z, 2, 0, -1, 0, 0.0, 1);
    assert Accepts(z, 2, 0, -1, 0, 0.0, 2);
    assert Search(z, 2, 0, -1, 0, 0.0, 2) == Some((2, 0.3));
    var ws := StepWrites(z, 2, 0);
    assert ws == Backfill(z, 2, 0, -1, 0, 2, 0.3);
    assert ws[0] == Write(1, 0, 0.24) && Hits(ws[1], 2, 0);
    assert LastWrite(ws, 1, 0) == Some(0.24) by {
      assert ws[..1] == [ws[0]];
    }
    var p := PassOf(z);
    var g1 := ScanTo(p, 2, 0, Overwrite);
    var g2 := Put(g1, 3, 1, Write(2, 0, 0.0), Maximize);
    assert Extended(z, Overwrite) == CellStep(p, g1, 2, 0, Overwrite);
    assert p.stores(2, 0) == ws;
    ApplyLastWins(g2, 3, 1, ws, 1, 0);
  }
}
