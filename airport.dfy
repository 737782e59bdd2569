/** Airports whose scenery has no snow of its own: the relative-angle and
    vector helpers of the airport header, the airport record with its
    cached elevation, and the rule that thins the snow depth when the
    aircraft approaches such an airport.  Positions enter as the distances
    the flat-earth vector arithmetic gives; the terrain probe and the
    aircraft's elevation and height are readings passed in. */
module Airports {
  import opened Numeric
  import opened Options

  // ---------------------------------------------------------------------
  // Relative angles and vectors

  /** `fmodf(a, 360)`: the remainder with the sign of `a`. */
  function FmodTurn(a: real): (f: real)
    ensures a >= 0.0 ==> 0.0 <= f < 360.0
    ensures a < 0.0 ==> -360.0 < f <= 0.0
    ensures f == a - 360.0 * Trunc(a / 360.0) as real
  {
    a - 360.0 * Trunc(a / 360.0) as real
  }

  /** Whole turns `RA` adds to its argument. */
  function Turns(angle: real): int
  {
    var f := FmodTurn(angle);
    -Trunc(angle / 360.0) + (if f > 180.0 then -1 else if f <= -180.0 then 1 else 0)
  }

  /** `RA`: the angle brought into (-180, 180] by whole turns, unchanged when
      it is already there. */
  function RA(angle: real): (r: real)
    ensures -180.0 < r <= 180.0
    ensures r == angle + 360.0 * Turns(angle) as real
    ensures -180.0 < angle <= 180.0 ==> r == angle
  {
    var f := FmodTurn(angle);
    if f > 180.0 then f - 360.0
    else if f <= -180.0 then f + 360.0
    else f
  }

  /** Angles a whole turn apart have the same relative angle. */
  lemma {:induction false} RAUnique(a: real, b: real, n: int)
    requires b == a + 360.0 * n as real
    ensures RA(a) == RA(b)
  {
    var ra, rb := RA(a), RA(b);
    var m := Turns(a) - Turns(b) - n;
    assert ra - rb == 360.0 * m as real;
  }

  datatype Vec2 = Vec2(x: real, y: real)

  /** `Vec2 operator+`. */
  function Add(a: Vec2, b: Vec2): Vec2
  {
    Vec2(a.x + b.x, a.y + b.y)
  }

  /** `Vec2 operator-`. */
  function Sub(b: Vec2, a: Vec2): Vec2
  {
    Vec2(b.x - a.x, b.y - a.y)
  }

  /** `operator*` of a scalar and a vector. */
  function Scale(c: real, v: Vec2): Vec2
  {
    Vec2(c * v.x, c * v.y)
  }

  /** Adding and then subtracting a vector gives the original one back, and
      addition commutes. */
  lemma VecRoundTrip(a: Vec2, b: Vec2)
    ensures Sub(Add(a, b), b) == a
    ensures Add(Sub(a, b), b) == a
    ensures Add(a, b) == Add(b, a)
    ensures Sub(a, a) == Vec2(0.0, 0.0)
  {
  }

  /** Scaling distributes over addition and composes by multiplication. */
  lemma ScaleLinear(c: real, d: real, a: Vec2, b: Vec2)
    ensures Scale(c, Add(a, b)) == Add(Scale(c, a), Scale(c, b))
    ensures Scale(c, Scale(d, a)) == Scale(c * d, a)
  {
    assert c * (d * a.x) == (c * d) * a.x;
    assert c * (d * a.y) == (c * d) * a.y;
  }

  // ---------------------------------------------------------------------
  // Airports

  datatype LLPos = LLPos(lon: real, lat: real)

  datatype Runway = Runway(name: string, end1: LLPos, end2: LLPos)

  /** Elevation of an airport not probed yet. */
  const NoElevation := -999.0

  class Airport {
    var name: string
    var elevation: real
    var runways: seq<Runway>
    /** The circle enclosing the runways. */
    var mecCenter: LLPos
    var mecRadius: real

    /** A new airport: no name, no runways, elevation not determined. */
    constructor ()
      ensures elevation == NoElevation && runways == [] && name == ""
    {
      name := "";
      elevation := NoElevation;
      runways := [];
      mecCenter := LLPos(0.0, 0.0);
      mecRadius := 0.0;
    }
  }

  /** The elevation after the cache is consulted: probed only while it is
      still `NoElevation`. */
  function Cached(elevation: real, probed: real): (e: real)
    ensures elevation != NoElevation ==> e == elevation
    ensures elevation == NoElevation ==> e == probed
  {
    if elevation == NoElevation then probed else elevation
  }

  /** Once a probe has determined the elevation, later probes change
      nothing. */
  lemma CachedOnce(elevation: real, p1: real, p2: real)
    requires p1 != NoElevation
    ensures Cached(Cached(elevation, p1), p2) == Cached(elevation, p1)
  {
  }

  // ---------------------------------------------------------------------
  // Snow depth near an airport

  /** Distance within which an airport thins the snow, in metres. */
  const ArptLimit := 18000.0
  /** Snow depth at the airport, in metres. */
  const ArptSnow := 0.07
  const SnowLim200ft := 0.11
  const F2M := 0.3048
  const Ft200 := 200.0 * F2M
  /** Slope of the reference glide path into the circle's centre (5 degrees). */
  const MecSlope := 0.087
  const BlendCap := 0.25

  /** The distance weighted by the height above the reference slope. */
  function RefDist(dist: real, haa: real): (r: real)
    ensures r >= dist
    ensures haa <= dist * MecSlope ==> r == dist
  {
    var refHaa := dist * MecSlope;
    var dh := Max(0.0, haa - refHaa);
    dist + 10.0 * dh
  }

  function Clamp01(a: real): (r: real)
    ensures 0.0 <= r <= 1.0
    ensures 0.0 <= a <= 1.0 ==> r == a
  {
    Max(0.0, Min(a, 1.0))
  }

  /** The blend weight: 0 inside the circle, 1 at the distance limit,
      linear between. */
  function BlendWeight(dist: real, haa: real, mecRadius: real): (a: real)
    requires mecRadius != ArptLimit
    ensures 0.0 <= a <= 1.0
    ensures mecRadius < ArptLimit && RefDist(dist, haa) <= mecRadius ==> a == 0.0
    ensures mecRadius < ArptLimit && RefDist(dist, haa) >= ArptLimit ==> a == 1.0
  {
    var num, den := RefDist(dist, haa) - mecRadius, ArptLimit - mecRadius;
    var q := num / den;
    assert q * den == num;
    assert den > 0.0 && num <= 0.0 ==> q <= 0.0;
    assert den > 0.0 && num >= den ==> q >= 1.0;
    Clamp01(q)
  }

  /** The depth blended from `ArptSnow` (weight 0) up to the capped depth
      (weight 1). */
  function Blend(sd: real, a: real): (r: real)
    ensures 0.0 <= a <= 1.0 && sd >= ArptSnow ==> ArptSnow <= r <= Min(sd, BlendCap)
    ensures a == 0.0 ==> r == ArptSnow
    ensures a == 1.0 ==> r == Min(sd, BlendCap)
  {
    var span := Min(sd, BlendCap) - ArptSnow;
    assert 0.0 <= a <= 1.0 && span >= 0.0 ==> 0.0 <= a * span <= span;
    ArptSnow + a * span
  }

  /** The plugin's height rule: at least `SnowLim200ft` above 200 ft;
      at or below it a ramp in the height alone. */
  function HeightRule(blend: real, height: real): (r: real)
    ensures height > Ft200 ==> r >= SnowLim200ft && r >= blend
    ensures 0.0 <= height <= Ft200 ==> ArptSnow <= r <= SnowLim200ft
  {
    if height > Ft200 then Max(blend, SnowLim200ft)
    else ArptSnow + height / Ft200 * (SnowLim200ft - ArptSnow)
  }

  /** At or below 200 ft the result does not depend on the blended depth. */
  lemma HeightRuleIgnoresBlend(b1: real, b2: real, height: real)
    requires height <= Ft200
    ensures HeightRule(b1, height) == HeightRule(b2, height)
  {
  }

  /** Which of the two versions runs: the plugin's, with the aircraft's
      height above ground, or the services layer's, without the height
      rule. */
  datatype Variant = Plugin(heightAgl: real) | Services

  /** The depth once the nearest airport in range is known. */
  function Adjust(sd: real, dist: real, elevation: real, mecRadius: real, planeElevation: real, v: Variant): real
    requires mecRadius != ArptLimit
  {
    var b := Blend(sd, BlendWeight(dist, planeElevation - elevation, mecRadius));
    match v
    case Plugin(height) => HeightRule(b, height)
    case Services => b
  }

  /** The first airport at or after `i` closer than the limit. */
  function FirstNear(dists: seq<real>, i: nat): (r: Option<nat>)
    decreases |dists| - i
    ensures r.Some? ==> i <= r.value < |dists| && dists[r.value] < ArptLimit
    ensures r.Some? ==> forall k :: i <= k < r.value ==> dists[k] >= ArptLimit
    ensures r.None? ==> forall k :: i <= k < |dists| ==> dists[k] >= ArptLimit
  {
    if i >= |dists| then None
    else if dists[i] < ArptLimit then Some(i)
    else FirstNear(dists, i + 1)
  }

  /** The adjusted depth, from the distances, the elevations as cached
      before the call, the probe readings and the circles' radii. */
  function AirportDepth(sd: real, dists: seq<real>, elevs: seq<real>, probes: seq<real>, radii: seq<real>,
                        planeElevation: real, v: Variant): (r: real)
    requires |elevs| == |dists| && |probes| == |dists| && |radii| == |dists|
    requires forall i :: 0 <= i < |radii| ==> radii[i] != ArptLimit
    ensures sd < ArptSnow ==> r == sd
    ensures FirstNear(dists, 0).None? ==> r == sd
    ensures sd >= ArptSnow && FirstNear(dists, 0).Some? && v.Services? ==> ArptSnow <= r <= Min(sd, BlendCap)
    ensures sd >= ArptSnow && FirstNear(dists, 0).Some? && v.Plugin? && v.heightAgl > Ft200 ==> r >= SnowLim200ft
  {
    if sd < ArptSnow then sd
    else match FirstNear(dists, 0)
      case None => sd
      case Some(k) => Adjust(sd, dists[k], Cached(elevs[k], probes[k]), radii[k], planeElevation, v)
  }

  /** Only the first airport in range matters: what lies after it in the
      list, near or far, does not change the result. */
  lemma {:induction false} OnlyFirstApplies(sd: real, dists: seq<real>, elevs: seq<real>, probes: seq<real>, radii: seq<real>,
                                            planeElevation: real, v: Variant, k: nat, more: seq<real>, moreElevs: seq<real>,
                                            moreProbes: seq<real>, moreRadii: seq<real>)
    requires |elevs| == |dists| && |probes| == |dists| && |radii| == |dists|
    requires forall i :: 0 <= i < |radii| ==> radii[i] != ArptLimit
    requires |moreElevs| == |more| && |moreProbes| == |more| && |moreRadii| == |more|
    requires forall i :: 0 <= i < |moreRadii| ==> moreRadii[i] != ArptLimit
    requires k < |dists| && dists[k] < ArptLimit
    ensures AirportDepth(sd, dists[..k + 1] + more, elevs[..k + 1] + moreElevs, probes[..k + 1] + moreProbes,
                         radii[..k + 1] + moreRadii, planeElevation, v) ==
            AirportDepth(sd, dists[..k + 1], elevs[..k + 1], probes[..k + 1], radii[..k + 1], planeElevation, v)
  {
    var d1, d2 := dists[..k + 1] + more, dists[..k + 1];
    FirstNearPrefix(d1, d2, 0);
  }

  /** The scan gives the same answer on two lists that agree up to and
      including the first near entry of the shorter one. */
  lemma {:induction false} FirstNearPrefix(d1: seq<real>, d2: seq<real>, i: nat)
    requires |d2| <= |d1| && d2 == d1[..|d2|] && i <= |d2|
    requires FirstNear(d2, i).Some?
    ensures FirstNear(d1, i) == FirstNear(d2, i)
    decreases |d2| - i
  {
    if d2[i] >= ArptLimit {
      FirstNearPrefix(d1, d2, i + 1);
    }
  }

  ghost function Elevations(airports: seq<Airport>): (r: seq<real>)
    reads set i | 0 <= i < |airports| :: airports[i]
    ensures |r| == |airports| && forall i :: 0 <= i < |airports| ==> r[i] == airports[i].elevation
  {
    seq(|airports|, i requires 0 <= i < |airports| reads set t | 0 <= t < |airports| :: airports[t] => airports[i].elevation)
  }

  ghost function Radii(airports: seq<Airport>): (r: seq<real>)
    reads set i | 0 <= i < |airports| :: airports[i]
    ensures |r| == |airports| && forall i :: 0 <= i < |airports| ==> r[i] == airports[i].mecRadius
  {
    seq(|airports|, i requires 0 <= i < |airports| reads set t | 0 <= t < |airports| :: airports[t] => airports[i].mecRadius)
  }

  /** The elevations after the call: only the airport applied had its
      cache consulted. */
  function ElevationsAfter(sd: real, dists: seq<real>, elevs: seq<real>, probes: seq<real>): (r: seq<real>)
    requires |elevs| == |dists| && |probes| == |dists|
    ensures |r| == |elevs|
    ensures forall i :: 0 <= i < |r| && (sd < ArptSnow || FirstNear(dists, 0) != Some(i)) ==> r[i] == elevs[i]
    ensures forall i :: 0 <= i < |r| && sd >= ArptSnow && FirstNear(dists, 0) == Some(i) ==> r[i] == Cached(elevs[i], probes[i])
  {
    if sd < ArptSnow then elevs
    else match FirstNear(dists, 0)
      case None => elevs
      case Some(k) => elevs[k := Cached(elevs[k], probes[k])]
  }

  /** `LegacyAirportSnowDepth`: scans the airports for the first one in
      range, probes its elevation if not cached yet, and adjusts the
      depth. */
  method AirportSnowDepth(snowDepth: real, airports: seq<Airport>, dists: seq<real>, probes: seq<real>,
                          planeElevation: real, v: Variant) returns (sd: real)
    requires |dists| == |airports| && |probes| == |airports|
    requires forall i, j :: 0 <= i < j < |airports| ==> airports[i] != airports[j]
    requires forall i :: 0 <= i < |airports| ==> airports[i].mecRadius != ArptLimit
    modifies set i | 0 <= i < |airports| :: airports[i]
    ensures Radii(airports) == old(Radii(airports))
    ensures sd == AirportDepth(snowDepth, dists, old(Elevations(airports)), probes, Radii(airports), planeElevation, v)
    ensures Elevations(airports) == ElevationsAfter(snowDepth, dists, old(Elevations(airports)), probes)
  {
    sd := snowDepth;
    if snowDepth < ArptSnow {
      return;
    }
    var i := 0;
    while i < |airports|
      invariant 0 <= i <= |airports|
      invariant FirstNear(dists, 0) == FirstNear(dists, i)
      invariant Elevations(airports) == old(Elevations(airports)) && Radii(airports) == old(Radii(airports))
    {
      var dist := dists[i];
      if dist < ArptLimit {
        ghost var elevs := Elevations(airports);
        sd := ApplyAirport(sd, airports, i, dist, probes[i], planeElevation, v);
        assert Elevations(airports) == elevs[i := Cached(elevs[i], probes[i])];
        return;
      }
      i := i + 1;
    }
  }

  /** The body of the loop for the airport in range. */
  method ApplyAirport(snowDepth: real, airports: seq<Airport>, i: nat, dist: real, probed: real,
                      planeElevation: real, v: Variant) returns (sd: real)
    requires i < |airports| && airports[i].mecRadius != ArptLimit
    requires forall a, b :: 0 <= a < b < |airports| ==> airports[a] != airports[b]
    modifies airports[i]
    ensures airports[i].mecRadius == old(airports[i].mecRadius)
    ensures sd == Adjust(snowDepth, dist, Cached(old(airports[i].elevation), probed), airports[i].mecRadius, planeElevation, v)
    ensures airports[i].elevation == Cached(old(airports[i].elevation), probed)
    ensures forall t :: 0 <= t < |airports| && t != i ==> airports[t].elevation == old(airports[t].elevation)
  {
    var arpt := airports[i];
    if arpt.elevation == NoElevation {
      arpt.elevation := probed;
    }
    var haa := planeElevation - arpt.elevation;
    var refHaa := dist * MecSlope;
    var dh := Max(0.0, haa - refHaa);
    var refDist := dist + 10.0 * dh;
    var a := (refDist - arpt.mecRadius) / (ArptLimit - arpt.mecRadius);
    a := Max(0.0, Min(a, 1.0));
    sd := ArptSnow + a * (Min(snowDepth, BlendCap) - ArptSnow);
    match v {
      case Plugin(height) =>
        if height > Ft200 {
          sd := Max(sd, SnowLim200ft);
        } else {
          sd := ArptSnow + height / Ft200 * (SnowLim200ft - ArptSnow);
        }
      case Services =>
    }
  }
}
