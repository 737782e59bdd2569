/** The conversion of a snow depth in metres into the simulator's snow
    parameters: the plugin's three-table piecewise-linear lookup (snow
    coverage, snow area width, ice coverage) and the older service's
    single-table lookup for the snow coverage alone, plus the plugin's
    exported depth query. */
module SnowTables {
  import opened Options
  import opened Grid
  import DepthMaps

  // ---------------------------------------------------------------------
  // Piecewise-linear tables

  predicate StrictlyIncreasing(xs: seq<real>)
  {
    forall a, b :: 0 <= a < b < |xs| ==> xs[a] < xs[b]
  }

  predicate NonIncreasing(ys: seq<real>)
  {
    forall a, b :: 0 <= a < b < |ys| ==> ys[a] >= ys[b]
  }

  predicate NonDecreasing(ys: seq<real>)
  {
    forall a, b :: 0 <= a < b < |ys| ==> ys[a] <= ys[b]
  }

  /** Depth `d` lies in the half-open bracket `[xs[k], xs[k+1])`. */
  predicate InBracket(xs: seq<real>, k: int, d: real)
  {
    0 <= k < |xs| - 1 && xs[k] <= d < xs[k + 1]
  }

  /** The table scan of both sources: the first bracket at or after `i`
      that holds `d`; `None` when the scan reaches the last entry. */
  function FirstBracket(xs: seq<real>, d: real, i: nat): (r: Option<nat>)
    decreases |xs| - i
    ensures r.Some? ==> i <= r.value && InBracket(xs, r.value, d)
    ensures r.Some? ==> forall k :: i <= k < r.value ==> !InBracket(xs, k, d)
    ensures r.None? ==> forall k :: i <= k < |xs| - 1 ==> !InBracket(xs, k, d)
  {
    if i + 1 >= |xs| then None
    else if xs[i] <= d < xs[i + 1] then Some(i)
    else FirstBracket(xs, d, i + 1)
  }

  /** Position of `d` inside its bracket, as a fraction of the bracket. */
  function Frac(xs: seq<real>, k: nat, d: real): (x: real)
    requires InBracket(xs, k, d)
    ensures 0.0 <= x < 1.0
  {
    var c := xs[k + 1] - xs[k];
    assert (d - xs[k]) / c * c == d - xs[k];
    (d - xs[k]) / c
  }

  /** Both sources' interpolation formula `ys[k] + x * (ys[k+1] - ys[k])`. */
  function Interp(ys: seq<real>, k: nat, x: real): real
    requires k + 1 < |ys|
  {
    ys[k] + x * (ys[k + 1] - ys[k])
  }

  /** The table with every entry negated, so that a non-decreasing table
      can use the lemmas about non-increasing ones. */
  function Neg(ys: seq<real>): seq<real>
  {
    seq(|ys|, k requires 0 <= k < |ys| => -ys[k])
  }

  /** In a strictly increasing table a bracket that holds `d` is the one
      the scan finds. */
  lemma {:induction false} BracketUnique(xs: seq<real>, k: nat, d: real)
    requires StrictlyIncreasing(xs) && InBracket(xs, k, d)
    ensures FirstBracket(xs, d, 0) == Some(k)
  {
  }

  /** Between the first and the last entry of a strictly increasing table
      the scan from `i` finds a bracket. */
  lemma {:induction false} BracketFound(xs: seq<real>, d: real, i: nat)
    requires StrictlyIncreasing(xs) && i < |xs| && xs[i] <= d < xs[|xs| - 1]
    ensures FirstBracket(xs, d, i).Some?
    decreases |xs| - i
  {
    if d >= xs[i + 1] {
      BracketFound(xs, d, i + 1);
    }
  }

  /** An interpolated value lies between the two entries it blends. */
  lemma InterpBetween(ys: seq<real>, k: nat, x: real, lo: real, hi: real)
    requires k + 1 < |ys| && 0.0 <= x <= 1.0
    requires lo <= ys[k] <= hi && lo <= ys[k + 1] <= hi
    ensures lo <= Interp(ys, k, x) <= hi
  {
    assert Interp(ys, k, x) == Lerp(ys[k], ys[k + 1], x);
    LerpBetween(ys[k], ys[k + 1], x, lo, hi);
  }

  lemma FracMonotone(xs: seq<real>, k: nat, d1: real, d2: real)
    requires InBracket(xs, k, d1) && InBracket(xs, k, d2) && d1 <= d2
    ensures Frac(xs, k, d1) <= Frac(xs, k, d2)
  {
    var c := xs[k + 1] - xs[k];
    assert Frac(xs, k, d2) - Frac(xs, k, d1) == (d2 - d1) / c;
  }

  lemma InterpMonotone(ys: seq<real>, k: nat, x1: real, x2: real)
    requires k + 1 < |ys| && x1 <= x2 && ys[k + 1] <= ys[k]
    ensures Interp(ys, k, x1) >= Interp(ys, k, x2)
  {
    var s := ys[k + 1] - ys[k];
    assert Interp(ys, k, x1) - Interp(ys, k, x2) == (x2 - x1) * (-s);
  }

  lemma InterpNeg(ys: seq<real>, k: nat, x: real)
    requires k + 1 < |ys|
    ensures Interp(Neg(ys), k, x) == -Interp(ys, k, x)
  {
  }

  /** Interpolating a non-increasing table over a strictly increasing one
      gives a non-increasing function of the depth. */
  lemma {:induction false} PiecewiseNonIncreasing(xs: seq<real>, ys: seq<real>, k1: nat, d1: real, k2: nat, d2: real)
    requires StrictlyIncreasing(xs) && NonIncreasing(ys) && |ys| == |xs|
    requires InBracket(xs, k1, d1) && InBracket(xs, k2, d2) && d1 <= d2
    ensures Interp(ys, k1, Frac(xs, k1, d1)) >= Interp(ys, k2, Frac(xs, k2, d2))
  {
    if k2 < k1 {
      assert false;
    } else if k1 == k2 {
      FracMonotone(xs, k1, d1, d2);
      InterpMonotone(ys, k1, Frac(xs, k1, d1), Frac(xs, k1, d2));
    } else {
      InterpBetween(ys, k1, Frac(xs, k1, d1), ys[k1 + 1], ys[k1]);
      InterpBetween(ys, k2, Frac(xs, k2, d2), ys[k2 + 1], ys[k2]);
      assert k1 + 1 == k2 || ys[k1 + 1] >= ys[k2];
    }
  }

  /** Every interpolated value of a non-increasing table lies between its
      last and its first entry. */
  lemma InterpWithinTable(ys: seq<real>, k: nat, x: real)
    requires NonIncreasing(ys) && k + 1 < |ys| && 0.0 <= x <= 1.0
    ensures ys[|ys| - 1] <= Interp(ys, k, x) <= ys[0]
  {
    assert ys[|ys| - 1] <= ys[k + 1] && ys[k] <= ys[0];
    InterpBetween(ys, k, x, ys[|ys| - 1], ys[0]);
  }

  // ---------------------------------------------------------------------
  // The plugin's lookup (snow coverage, snow area width, ice coverage)

  const DepthTab: seq<real> := [0.01, 0.02, 0.03, 0.05, 0.10, 0.20, 0.25]
  const NowTab: seq<real> := [0.90, 0.70, 0.60, 0.30, 0.15, 0.06, 0.05]
  const AreaWidthTab: seq<real> := [0.25, 0.25, 0.25, 0.25, 0.25, 0.29, 0.33]
  const IceTab: seq<real> := [2.00, 2.00, 2.00, 2.00, 0.80, 0.37, 0.37]

  /** The snow coverage forced at and below the first depth. */
  const ThinSnowNow := 1.2

  /** The simulator's snow coverage, snow area width and ice coverage. */
  datatype XpSnow = XpSnow(snowNow: real, areaWidth: real, iceNow: real)

  function Entry(k: nat): XpSnow
    requires k < |DepthTab|
  {
    XpSnow(NowTab[k], AreaWidthTab[k], IceTab[k])
  }

  /** The values for depths at or below the first table entry. */
  const Thin := XpSnow(ThinSnowNow, AreaWidthTab[0], IceTab[0])

  /** The simulator parameters for a depth, specified by the tables. */
  function ToXpSnow(depth: real): XpSnow
  {
    if depth >= DepthTab[|DepthTab| - 1] then Entry(|DepthTab| - 1)
    else if depth <= DepthTab[0] then Thin
    else match FirstBracket(DepthTab, depth, 0)
      case None => Thin
      case Some(k) =>
        var x := Frac(DepthTab, k, depth);
        XpSnow(Interp(NowTab, k, x), Interp(AreaWidthTab, k, x), Interp(IceTab, k, x))
  }

  lemma TablesShape()
    ensures |DepthTab| == |NowTab| == |AreaWidthTab| == |IceTab| == 7
    ensures StrictlyIncreasing(DepthTab)
    ensures NonIncreasing(NowTab) && NonIncreasing(IceTab) && NonDecreasing(AreaWidthTab)
    ensures NonIncreasing(Neg(AreaWidthTab))
  {
  }

  /** The table scan: the defaults survive unless a bracket matches. */
  method SnowDepthToXplaneSnowNow(depth: real) returns (r: XpSnow)
    ensures r == ToXpSnow(depth)
  {
    if depth >= DepthTab[|DepthTab| - 1] {
      return Entry(|DepthTab| - 1);
    }
    if depth <= DepthTab[0] {
      return Thin;
    }
    var snowNow, areaWidth, iceNow := ThinSnowNow, AreaWidthTab[0], IceTab[0];
    var i := 0;
    while i < |DepthTab| - 1
      invariant 0 <= i <= |DepthTab| - 1
      invariant FirstBracket(DepthTab, depth, 0) == FirstBracket(DepthTab, depth, i)
      invariant XpSnow(snowNow, areaWidth, iceNow) == Thin
    {
      var sd0, sd1 := DepthTab[i], DepthTab[i + 1];
      if sd0 <= depth && depth < sd1 {
        var x := (depth - sd0) / (sd1 - sd0);
        snowNow := Interp(NowTab, i, x);
        areaWidth := Interp(AreaWidthTab, i, x);
        iceNow := Interp(IceTab, i, x);
        BracketEntry(depth, i);
        break;
      }
      i := i + 1;
    }
    return XpSnow(snowNow, areaWidth, iceNow);
  }

  /** Inside the table the lookup interpolates in the bracket the scan
      stops at. */
  lemma BracketEntry(depth: real, i: nat)
    requires DepthTab[0] < depth < DepthTab[|DepthTab| - 1] && FirstBracket(DepthTab, depth, 0) == FirstBracket(DepthTab, depth, i)
    requires i + 1 < |DepthTab| && DepthTab[i] <= depth < DepthTab[i + 1]
    ensures var x := (depth - DepthTab[i]) / (DepthTab[i + 1] - DepthTab[i]);
            ToXpSnow(depth) == XpSnow(Interp(NowTab, i, x), Interp(AreaWidthTab, i, x), Interp(IceTab, i, x))
  {
    assert FirstBracket(DepthTab, depth, i) == Some(i);
  }

  /** Strictly inside the table some bracket always matches, so the
      defaults set before the scan are never what is returned. */
  lemma InteriorBracketed(depth: real)
    requires DepthTab[0] < depth < DepthTab[|DepthTab| - 1]
    ensures FirstBracket(DepthTab, depth, 0).Some?
  {
    TablesShape();
    BracketFound(DepthTab, depth, 0);
  }

  /** At every depth of the table past the first the lookup returns that
      row's entries exactly. */
  lemma AtBreakpoint(k: nat)
    requires 1 <= k < |DepthTab|
    ensures ToXpSnow(DepthTab[k]) == Entry(k)
  {
    TablesShape();
    if k < |DepthTab| - 1 {
      assert InBracket(DepthTab, k, DepthTab[k]);
      BracketUnique(DepthTab, k, DepthTab[k]);
      assert Frac(DepthTab, k, DepthTab[k]) == 0.0;
    }
  }

  /** The three outputs stay within the ranges of their tables (the snow
      coverage up to the forced 1.2). */
  lemma ToXpSnowRange(depth: real)
    ensures NowTab[6] <= ToXpSnow(depth).snowNow <= ThinSnowNow
    ensures AreaWidthTab[0] <= ToXpSnow(depth).areaWidth <= AreaWidthTab[6]
    ensures IceTab[6] <= ToXpSnow(depth).iceNow <= IceTab[0]
  {
    TablesShape();
    if DepthTab[0] < depth < DepthTab[6] {
      var k := FirstBracket(DepthTab, depth, 0).value;
      var x := Frac(DepthTab, k, depth);
      InterpWithinTable(NowTab, k, x);
      InterpWithinTable(IceTab, k, x);
      InterpWithinTable(Neg(AreaWidthTab), k, x);
      InterpNeg(AreaWidthTab, k, x);
    }
  }

  /** The snow coverage falls and the ice coverage falls with the depth,
      the snow area width grows with it, over all depths. */
  lemma {:induction false} ToXpSnowMonotone(d1: real, d2: real)
    requires d1 <= d2
    ensures ToXpSnow(d1).snowNow >= ToXpSnow(d2).snowNow
    ensures ToXpSnow(d1).iceNow >= ToXpSnow(d2).iceNow
    ensures ToXpSnow(d1).areaWidth <= ToXpSnow(d2).areaWidth
  {
    TablesShape();
    ToXpSnowRange(d1);
    ToXpSnowRange(d2);
    var inner1 := DepthTab[0] < d1 < DepthTab[6];
    var inner2 := DepthTab[0] < d2 < DepthTab[6];
    if inner1 && inner2 {
      var k1 := FirstBracket(DepthTab, d1, 0).value;
      var k2 := FirstBracket(DepthTab, d2, 0).value;
      PiecewiseNonIncreasing(DepthTab, NowTab, k1, d1, k2, d2);
      PiecewiseNonIncreasing(DepthTab, IceTab, k1, d1, k2, d2);
      PiecewiseNonIncreasing(DepthTab, Neg(AreaWidthTab), k1, d1, k2, d2);
      InterpNeg(AreaWidthTab, k1, Frac(DepthTab, k1, d1));
      InterpNeg(AreaWidthTab, k2, Frac(DepthTab, k2, d2));
    }
  }

  /** The coverage jumps at the first depth: 1.2 there, but just above it
      the first bracket's line, which starts from 0.90. */
  lemma ThinSnowJump(depth: real)
    requires DepthTab[0] < depth < DepthTab[1]
    ensures ToXpSnow(DepthTab[0]).snowNow == ThinSnowNow
    ensures ToXpSnow(depth).snowNow == NowTab[0] - 20.0 * (depth - DepthTab[0])
    ensures ToXpSnow(depth).snowNow < NowTab[0] < ThinSnowNow
  {
    TablesShape();
    BracketUnique(DepthTab, 0, depth);
    assert Frac(DepthTab, 0, depth) == (depth - 0.01) * 100.0;
  }

  /** The plugin's exported query: the depth map sampled at (longitude,
      latitude), with the two coordinates passed in swapped order. */
  function GetSnowDepth(m: DepthMaps.DepthMap, lat: real, lon: real): (r: real)
    reads m, m.val
    requires m.Valid() && DepthMaps.InLonRange(DepthMaps.LonCoord(lon), m.w)
    ensures r == m.Get(lon, lat)
  {
    m.Get(lon, lat)
  }

  // ---------------------------------------------------------------------
  // The older service's lookup (snow coverage only)

  const SdTab: seq<real> := [0.00, 0.005, 0.01, 0.02, 0.03, 0.05, 0.10, 0.20, 0.40, 2.00]
  const SnTab: seq<real> := [1.10, 0.950, 0.90, 0.70, 0.60, 0.30, 0.15, 0.06, 0.04, 0.02]

  /** Snow coverage at and past the depth cap, and at and below zero. */
  const DeepSnowNow := 0.03
  const DeepDepth := 1.0
  const BareSnowNow := 1.2

  /** The service's range loop as the scan over brackets: `None` is the
      scan reaching the last entry, where the loop would index past the
      table, and `BareSnowNow` stands for the fallback after the loop. */
  function GoSnowNow(depth: real): (r: real)
    ensures depth >= DeepDepth ==> r == DeepSnowNow
    ensures depth <= 0.0 ==> r == BareSnowNow
    ensures 0.0 < depth < DeepDepth ==> DeepSnowNow < r <= SnTab[0]
  {
    if depth >= DeepDepth then DeepSnowNow
    else if depth <= 0.0 then BareSnowNow
    else
      GoScanFinds(depth);
      match FirstBracket(SdTab, depth, 0)
        case None => assert false; BareSnowNow
        case Some(k) => GoBracketRange(depth, k); Interp(SnTab, k, Frac(SdTab, k, depth))
  }

  /** The interpolated coverage of a depth strictly inside (0, 1) lies
      above the deep value 0.03 and at most the first entry: the last
      bracket the scan reaches ends at 2.00, so a depth below 1 stays in
      its first 3/8. */
  lemma GoBracketRange(depth: real, k: nat)
    requires 0.0 < depth < DeepDepth && FirstBracket(SdTab, depth, 0) == Some(k) && k < |SdTab| - 1
    ensures DeepSnowNow < Interp(SnTab, k, Frac(SdTab, k, depth)) <= SnTab[0]
  {
    GoTablesShape();
    BracketUnique(SdTab, k, depth);
    var x := Frac(SdTab, k, depth);
    InterpWithinTable(SnTab, k, x);
    if k < |SdTab| - 2 {
      InterpBetween(SnTab, k, x, SnTab[k + 1], SnTab[k]);
      assert SnTab[k + 1] >= SnTab[8];
    } else {
      assert x < 0.375;
    }
  }

  lemma GoTablesShape()
    ensures |SdTab| == |SnTab| == 10
    ensures StrictlyIncreasing(SdTab) && NonIncreasing(SnTab)
  {
  }

  /** For every depth the loop visits, a bracket matches before the last
      entry: neither the out-of-range index nor the fallback after the
      loop is reachable. */
  lemma {:induction false} GoScanFinds(depth: real)
    requires 0.0 < depth < DeepDepth
    ensures FirstBracket(SdTab, depth, 0).Some?
    ensures FirstBracket(SdTab, depth, 0).value < |SdTab| - 1
  {
    GoTablesShape();
    BracketFound(SdTab, depth, 0);
  }

  /** The value at an inner depth of the table is that row's entry. */
  lemma {:induction false} GoAtBreakpoint(k: nat)
    requires 1 <= k < |SdTab| - 1
    ensures GoSnowNow(SdTab[k]) == SnTab[k]
  {
    GoTablesShape();
    assert InBracket(SdTab, k, SdTab[k]);
    BracketUnique(SdTab, k, SdTab[k]);
    assert Frac(SdTab, k, SdTab[k]) == 0.0;
  }

  /** Inside a bracket the value lies between the bracket's two entries. */
  lemma {:induction false} GoBetween(depth: real, k: nat)
    requires 0.0 < depth < DeepDepth && InBracket(SdTab, k, depth)
    ensures SnTab[k + 1] <= GoSnowNow(depth) <= SnTab[k]
  {
    GoTablesShape();
    BracketUnique(SdTab, k, depth);
    InterpBetween(SnTab, k, Frac(SdTab, k, depth), SnTab[k + 1], SnTab[k]);
  }

  /** The coverage never rises with the depth, across both cut-offs. */
  lemma {:induction false} GoMonotone(d1: real, d2: real)
    requires d1 <= d2
    ensures GoSnowNow(d1) >= GoSnowNow(d2)
  {
    GoTablesShape();
    if 0.0 < d1 < DeepDepth {
      GoScanFinds(d1);
      var k1 := FirstBracket(SdTab, d1, 0).value;
      InterpWithinTable(SnTab, k1, Frac(SdTab, k1, d1));
      if d2 < DeepDepth {
        GoScanFinds(d2);
        var k2 := FirstBracket(SdTab, d2, 0).value;
        PiecewiseNonIncreasing(SdTab, SnTab, k1, d1, k2, d2);
      } else {
        if k1 < |SdTab| - 2 {
          InterpBetween(SnTab, k1, Frac(SdTab, k1, d1), SnTab[k1 + 1], SnTab[k1]);
          assert SnTab[k1 + 1] >= SnTab[8];
        } else {
          assert Frac(SdTab, k1, d1) < 0.375;
        }
      }
    } else if 0.0 < d2 < DeepDepth {
      GoScanFinds(d2);
      var k2 := FirstBracket(SdTab, d2, 0).value;
      InterpWithinTable(SnTab, k2, Frac(SdTab, k2, d2));
    }
  }
}
