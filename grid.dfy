/** Index arithmetic shared by the 0.1 degree grids: longitude columns wrap by
    one period, latitude rows are clamped, and real coordinates are blended
    from the four surrounding cells (bilinear interpolation). */
module Grid {
  import opened Numeric
  import opened Options

  /** A grid as columns: `g[i][j]` is column (longitude) `i`, row (latitude) `j`. */
  type Field = seq<seq<real>>

  predicate IsGrid<T>(g: seq<seq<T>>, w: nat, h: nat)
  {
    |g| == w && forall i :: 0 <= i < w ==> |g[i]| == h
  }

  function Zeros(w: nat, h: nat): (g: Field)
    ensures IsGrid(g, w, h)
    ensures forall i, j :: 0 <= i < w && 0 <= j < h ==> g[i][j] == 0.0
  {
    seq(w, _ => seq(h, _ => 0.0))
  }

  /** One conditional wrap of a column index (`if i >= n: i -= n; else if
      i < 0: i += n`): the canonical column for any index within one period
      either side of the grid. */
  function WrapOnce(i: int, n: int): (r: int)
    requires n > 0 && -n <= i < 2 * n
    ensures 0 <= r < n
    ensures 0 <= i < n ==> r == i
    ensures i >= n ==> r == i - n
    ensures i < 0 ==> r == i + n
  {
    if i >= n then i - n else if i < 0 then i + n else i
  }

  /** Clamp of a row index into `[0, hi - 1]`. */
  function Clamp(j: int, hi: int): (r: int)
    requires hi > 0
    ensures 0 <= r < hi
    ensures 0 <= j < hi ==> r == j
    ensures j >= hi ==> r == hi - 1
    ensures j < 0 ==> r == 0
  {
    if j < 0 then 0 else if j >= hi then hi - 1 else j
  }

  lemma WrapPeriodic(i: int, n: int)
    requires n > 0 && 0 <= i < n
    ensures WrapOnce(i + n, n) == i && WrapOnce(i - n, n) == i && WrapOnce(i, n) == i
  {
  }

  /** The four corner weights of a bilinear blend at fractional offsets
      `(s, t)` from the lower-left corner. */
  datatype Weights = Weights(p00: real, p10: real, p01: real, p11: real)

  function BilinearWeights(s: real, t: real): (w: Weights)
    ensures w.p00 + w.p10 + w.p01 + w.p11 == 1.0
    ensures 0.0 <= s <= 1.0 && 0.0 <= t <= 1.0 ==>
      0.0 <= w.p00 <= 1.0 && 0.0 <= w.p10 <= 1.0 && 0.0 <= w.p01 <= 1.0 && 0.0 <= w.p11 <= 1.0
    ensures s == 0.0 && t == 0.0 ==> w == Weights(1.0, 0.0, 0.0, 0.0)
  {
    UnitProduct(1.0 - s, 1.0 - t);
    UnitProduct(s, 1.0 - t);
    UnitProduct(1.0 - s, t);
    UnitProduct(s, t);
    Weights((1.0 - s) * (1.0 - t), s * (1.0 - t), (1.0 - s) * t, s * t)
  }

  lemma UnitProduct(a: real, b: real)
    ensures 0.0 <= a <= 1.0 && 0.0 <= b <= 1.0 ==> 0.0 <= a * b <= 1.0
  {
    if 0.0 <= a <= 1.0 && 0.0 <= b <= 1.0 {
      assert a * b <= a * 1.0;
    }
  }

  function Blend(w: Weights, v00: real, v10: real, v01: real, v11: real): real
  {
    w.p00 * v00 + w.p10 * v10 + w.p01 * v01 + w.p11 * v11
  }

  function Min4(a: real, b: real, c: real, d: real): real { Min(Min(a, b), Min(c, d)) }
  function Max4(a: real, b: real, c: real, d: real): real { Max(Max(a, b), Max(c, d)) }

  function Lerp(a: real, b: real, s: real): real { (1.0 - s) * a + s * b }

  /** The bilinear blend is a linear blend along the rows of two linear
      blends along the columns. */
  lemma BlendIsNestedLerp(s: real, t: real, v00: real, v10: real, v01: real, v11: real)
    ensures Blend(BilinearWeights(s, t), v00, v10, v01, v11) == Lerp(Lerp(v00, v10, s), Lerp(v01, v11, s), t)
  {
  }

  lemma {:induction false} LerpBetween(a: real, b: real, s: real, lo: real, hi: real)
    requires 0.0 <= s <= 1.0 && lo <= a <= hi && lo <= b <= hi
    ensures lo <= Lerp(a, b, s) <= hi
  {
    assert Lerp(a, b, s) - lo == (1.0 - s) * (a - lo) + s * (b - lo);
    assert hi - Lerp(a, b, s) == (1.0 - s) * (hi - a) + s * (hi - b);
    NonnegProduct(1.0 - s, a - lo);
    NonnegProduct(s, b - lo);
    NonnegProduct(1.0 - s, hi - a);
    NonnegProduct(s, hi - b);
  }

  lemma NonnegProduct(x: real, y: real)
    requires x >= 0.0 && y >= 0.0
    ensures x * y >= 0.0
  {
  }

  /** For offsets in the unit square the blend is a convex combination of the
      four corners: it lies between their minimum and their maximum. */
  lemma {:induction false} BilinearConvex(s: real, t: real, v00: real, v10: real, v01: real, v11: real)
    requires 0.0 <= s <= 1.0 && 0.0 <= t <= 1.0
    ensures Min4(v00, v10, v01, v11) <= Blend(BilinearWeights(s, t), v00, v10, v01, v11) <= Max4(v00, v10, v01, v11)
  {
    var lo, hi := Min4(v00, v10, v01, v11), Max4(v00, v10, v01, v11);
    BlendIsNestedLerp(s, t, v00, v10, v01, v11);
    LerpBetween(v00, v10, s, lo, hi);
    LerpBetween(v01, v11, s, lo, hi);
    LerpBetween(Lerp(v00, v10, s), Lerp(v01, v11, s), t, lo, hi);
  }

  /** A single store `g[x][y] = v`. */
  datatype Write = Write(x: int, y: int, v: real)

  /** How a store combines with the value already in the cell: plain
      assignment, or keeping the larger of the two. */
  datatype Mode = Overwrite | Maximize

  predicate Hits(wr: Write, x: int, y: int) { wr.x == x && wr.y == y }

  predicate InBounds(wr: Write, w: nat, h: nat) { 0 <= wr.x < w && 0 <= wr.y < h }

  predicate AllInBounds(ws: seq<Write>, w: nat, h: nat) { forall k :: 0 <= k < |ws| ==> InBounds(ws[k], w, h) }

  function Stored(was: real, v: real, mode: Mode): real
  {
    match mode
    case Overwrite => v
    case Maximize => Max(was, v)
  }

  function Put(g: Field, w: nat, h: nat, wr: Write, mode: Mode): (r: Field)
    requires IsGrid(g, w, h) && InBounds(wr, w, h)
    ensures IsGrid(r, w, h)
    ensures forall i, j :: 0 <= i < w && 0 <= j < h ==>
      r[i][j] == if Hits(wr, i, j) then Stored(g[i][j], wr.v, mode) else g[i][j]
  {
    g[wr.x := g[wr.x][wr.y := Stored(g[wr.x][wr.y], wr.v, mode)]]
  }

  /** The stores of `ws`, first to last. */
  function Apply(g: Field, w: nat, h: nat, ws: seq<Write>, mode: Mode): (r: Field)
    requires IsGrid(g, w, h)
    requires forall k :: 0 <= k < |ws| ==> InBounds(ws[k], w, h)
    ensures IsGrid(r, w, h)
    decreases |ws|
  {
    if ws == [] then g else Apply(Put(g, w, h, ws[0], mode), w, h, ws[1..], mode)
  }

  lemma {:induction false} ApplySnoc(g: Field, w: nat, h: nat, ws: seq<Write>, wr: Write, mode: Mode)
    requires IsGrid(g, w, h)
    requires forall k :: 0 <= k < |ws| ==> InBounds(ws[k], w, h)
    requires InBounds(wr, w, h)
    ensures Apply(g, w, h, ws + [wr], mode) == Put(Apply(g, w, h, ws, mode), w, h, wr, mode)
    decreases |ws|
  {
    if ws == [] {
      assert [] + [wr] == [wr];
      assert [wr][1..] == [];
    } else {
      assert (ws + [wr])[0] == ws[0];
      assert (ws + [wr])[1..] == ws[1..] + [wr];
      ApplySnoc(Put(g, w, h, ws[0], mode), w, h, ws[1..], wr, mode);
    }
  }

  /** Applying one more store of `ws` extends the applied prefix by it. */
  lemma ApplyPrefixSnoc(g: Field, w: nat, h: nat, ws: seq<Write>, n: nat, mode: Mode)
    requires IsGrid(g, w, h) && AllInBounds(ws, w, h) && n < |ws|
    ensures AllInBounds(ws[..n], w, h) && AllInBounds(ws[..n + 1], w, h)
    ensures Apply(g, w, h, ws[..n + 1], mode) == Put(Apply(g, w, h, ws[..n], mode), w, h, ws[n], mode)
  {
    assert ws[..n + 1] == ws[..n] + [ws[n]];
    ApplySnoc(g, w, h, ws[..n], ws[n], mode);
  }

  /** Applying two lists of stores one after the other is applying their
      concatenation. */
  lemma {:induction false} ApplyConcat(g: Field, w: nat, h: nat, a: seq<Write>, b: seq<Write>, mode: Mode)
    requires IsGrid(g, w, h)
    requires forall k :: 0 <= k < |a| ==> InBounds(a[k], w, h)
    requires forall k :: 0 <= k < |b| ==> InBounds(b[k], w, h)
    ensures forall k :: 0 <= k < |a + b| ==> InBounds((a + b)[k], w, h)
    ensures Apply(g, w, h, a + b, mode) == Apply(Apply(g, w, h, a, mode), w, h, b, mode)
    decreases |a|
  {
    if a == [] {
      assert a + b == b;
    } else {
      assert (a + b)[0] == a[0];
      assert (a + b)[1..] == a[1..] + b;
      ApplyConcat(Put(g, w, h, a[0], mode), w, h, a[1..], b, mode);
    }
  }

  /** The value of the last store of `ws` into cell `(x, y)`, if any. */
  function LastWrite(ws: seq<Write>, x: int, y: int): (r: Option<real>)
    ensures r.None? <==> forall k :: 0 <= k < |ws| ==> !Hits(ws[k], x, y)
    ensures r.Some? ==> exists k :: 0 <= k < |ws| && Hits(ws[k], x, y) && ws[k].v == r.value &&
                                    forall k' :: k < k' < |ws| ==> !Hits(ws[k'], x, y)
  {
    if ws == [] then None
    else if Hits(ws[|ws| - 1], x, y) then Some(ws[|ws| - 1].v)
    else LastWrite(ws[..|ws| - 1], x, y)
  }

  /** Under plain assignment a cell ends with the value of the last store into
      it, or keeps its value when nothing is stored there. */
  lemma {:induction false} ApplyLastWins(g: Field, w: nat, h: nat, ws: seq<Write>, x: int, y: int)
    requires IsGrid(g, w, h)
    requires forall k :: 0 <= k < |ws| ==> InBounds(ws[k], w, h)
    requires 0 <= x < w && 0 <= y < h
    ensures Apply(g, w, h, ws, Overwrite)[x][y] ==
      match LastWrite(ws, x, y) case None => g[x][y] case Some(v) => v
    decreases |ws|
  {
    if ws != [] {
      var n := |ws| - 1;
      assert ws == ws[..n] + [ws[n]];
      ApplySnoc(g, w, h, ws[..n], ws[n], Overwrite);
      ApplyLastWins(g, w, h, ws[..n], x, y);
    }
  }

  /** A cell no store of `ws` targets keeps its value, in either mode. */
  lemma {:induction false} ApplyUntouched(g: Field, w: nat, h: nat, ws: seq<Write>, mode: Mode, x: int, y: int)
    requires IsGrid(g, w, h)
    requires forall k :: 0 <= k < |ws| ==> InBounds(ws[k], w, h)
    requires 0 <= x < w && 0 <= y < h
    requires forall k :: 0 <= k < |ws| ==> !Hits(ws[k], x, y)
    ensures Apply(g, w, h, ws, mode)[x][y] == g[x][y]
    decreases |ws|
  {
    if ws != [] {
      assert !Hits(ws[0], x, y);
      ApplyUntouched(Put(g, w, h, ws[0], mode), w, h, ws[1..], mode, x, y);
    }
  }

  /** When every store is at least `c`, a cell that was at least `c` stays so,
      and a cell some store targets ends at least `c`, in either mode. */
  lemma {:induction false} ApplyFloor(g: Field, w: nat, h: nat, ws: seq<Write>, mode: Mode, x: int, y: int, c: real)
    requires IsGrid(g, w, h)
    requires forall k :: 0 <= k < |ws| ==> InBounds(ws[k], w, h) && ws[k].v >= c
    requires 0 <= x < w && 0 <= y < h
    requires g[x][y] >= c || exists k :: 0 <= k < |ws| && Hits(ws[k], x, y)
    ensures Apply(g, w, h, ws, mode)[x][y] >= c
    decreases |ws|
  {
    if ws != [] {
      var g' := Put(g, w, h, ws[0], mode);
      if !(g'[x][y] >= c) {
        var k :| 0 <= k < |ws| && Hits(ws[k], x, y);
        assert k != 0;
        assert Hits(ws[1..][k - 1], x, y);
      }
      ApplyFloor(g', w, h, ws[1..], mode, x, y, c);
    }
  }

  /** Keeping the larger value never lowers a cell and leaves it at least as
      large as every store into it. */
  lemma {:induction false} ApplyMaximizeAbove(g: Field, w: nat, h: nat, ws: seq<Write>, x: int, y: int)
    requires IsGrid(g, w, h)
    requires forall k :: 0 <= k < |ws| ==> InBounds(ws[k], w, h)
    requires 0 <= x < w && 0 <= y < h
    ensures Apply(g, w, h, ws, Maximize)[x][y] >= g[x][y]
    ensures forall k :: 0 <= k < |ws| && Hits(ws[k], x, y) ==> Apply(g, w, h, ws, Maximize)[x][y] >= ws[k].v
    decreases |ws|
  {
    if ws != [] {
      var g' := Put(g, w, h, ws[0], Maximize);
      ApplyMaximizeAbove(g', w, h, ws[1..], x, y);
      forall k | 0 <= k < |ws| && Hits(ws[k], x, y)
        ensures Apply(g, w, h, ws, Maximize)[x][y] >= ws[k].v
      {
        if k > 0 {
          assert ws[1..][k - 1] == ws[k];
        }
      }
    }
  }
}
