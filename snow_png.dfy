/** The debug image of the snow maps: a 3600 x 1800 raster of 32-bit
    pixels, shifted by half a turn so that longitude 0 is in the middle and
    flipped so that north is up, painted in three layers (land grey, snow
    cyan, coastal correction yellow).  The PNG encoding is not part of this
    model; the result is the filled pixel buffer. */
module SnowPng {
  import opened Numeric
  import opened Options
  import DepthMaps
  import CoastMaps

  const Width := 3600
  const Height := 1800

  // ---------------------------------------------------------------------
  // Layout

  /** `xlate`: half a turn to the right, wrapped once. */
  function Xlate(i: int): (r: int)
    requires 0 <= i < Width
    ensures 0 <= r < Width
    ensures i < Width / 2 ==> r == i + Width / 2
    ensures i >= Width / 2 ==> r == i - Width / 2
  {
    var k := i + Width / 2;
    if k >= Width then k - Width else k
  }

  /** The column a shifted column comes from. */
  function Unxlate(x: int): (i: int)
    requires 0 <= x < Width
    ensures 0 <= i < Width && Xlate(i) == x
  {
    if x >= Width / 2 then x - Width / 2 else x + Width / 2
  }

  /** `xlate` is a bijection on the columns. */
  lemma XlateBijective(i: int, x: int)
    requires 0 <= i < Width && 0 <= x < Width
    ensures Unxlate(Xlate(i)) == i
    ensures Xlate(i) == x <==> i == Unxlate(x)
  {
  }

  /** The pixel of column `i`, row `j`: rows counted from the top, columns
      shifted.  The column and row can be read back, so no two cells share a
      pixel. */
  function PixelIndex(i: int, j: int): (k: int)
    requires 0 <= i < Width && 0 <= j < Height
    ensures 0 <= k < Width * Height
    ensures ColumnOf(k) == i && RowOf(k) == j
  {
    var x := Xlate(i);
    var y := Height - j - 1;
    assert (y * Width + x) / Width == y && (y * Width + x) % Width == x;
    y * Width + x
  }

  function ColumnOf(k: int): (i: int)
    requires 0 <= k < Width * Height
    ensures 0 <= i < Width
  {
    Unxlate(k % Width)
  }

  function RowOf(k: int): (j: int)
    requires 0 <= k < Width * Height
    ensures 0 <= j < Height
  {
    Height - 1 - k / Width
  }

  /** Every pixel belongs to a cell. */
  lemma PixelIndexOnto(k: int)
    requires 0 <= k < Width * Height
    ensures PixelIndex(ColumnOf(k), RowOf(k)) == k
  {
    var i, j := ColumnOf(k), RowOf(k);
    assert k == (k / Width) * Width + k % Width;
  }

  lemma PixelIndexOntoAll()
    ensures forall k :: 0 <= k < Width * Height ==> PixelIndex(ColumnOf(k), RowOf(k)) == k
  {
    forall k | 0 <= k < Width * Height {
      PixelIndexOnto(k);
    }
  }

  /** Different cells have different pixels. */
  lemma PixelIndexInjective(i1: int, j1: int, i2: int, j2: int)
    requires 0 <= i1 < Width && 0 <= j1 < Height && 0 <= i2 < Width && 0 <= j2 < Height
    ensures PixelIndex(i1, j1) == PixelIndex(i2, j2) <==> i1 == i2 && j1 == j2
  {
  }

  // ---------------------------------------------------------------------
  // Pixels

  /** A byte: `uint8_t`. */
  type Byte = x: int | 0 <= x < 0x100

  /** A pixel word: `uint32_t`. */
  type Word = x: int | 0 <= x < 0x1_0000_0000

  /** `RGBA(R, G, B)`: opaque (alpha 0xFF in byte 3), blue in byte 2, green
      in byte 1, red in byte 0.  The source ors the shifted bytes together;
      the fields do not overlap, so the word is their sum.  Each channel can
      be read back from the word. */
  function RGBA(r: Byte, g: Byte, b: Byte): (p: Word)
    ensures p / 0x100_0000 == 0xFF
    ensures (p / 0x1_0000) % 0x100 == b
    ensures (p / 0x100) % 0x100 == g
    ensures p % 0x100 == r
  {
    var w2 := 0xFF * 0x100 + b;
    var w1 := w2 * 0x100 + g;
    SplitAt8(0xFF, b);
    SplitAt8(w2, g);
    SplitAt8(w1, r);
    SplitAt16(w2, g * 0x100 + r);
    SplitAt24(0xFF, b * 0x1_0000 + g * 0x100 + r);
    w1 * 0x100 + r
  }

  /** The word `hi * 2^8 + lo` with `lo` a byte splits back into `hi` and
      `lo`; likewise at bits 16 and 24. */
  lemma SplitAt8(hi: int, lo: int)
    requires 0 <= lo < 0x100
    ensures (hi * 0x100 + lo) / 0x100 == hi && (hi * 0x100 + lo) % 0x100 == lo
  {
  }

  lemma SplitAt16(hi: int, lo: int)
    requires 0 <= lo < 0x1_0000
    ensures (hi * 0x1_0000 + lo) / 0x1_0000 == hi
  {
  }

  lemma SplitAt24(hi: int, lo: int)
    requires 0 <= lo < 0x100_0000
    ensures (hi * 0x100_0000 + lo) / 0x100_0000 == hi
  {
  }

  /** The byte a conversion to `uint8_t` gives.  Values in 0..255 are kept;
      the model takes the low byte of the others, which the C++ standard
      leaves undefined. */
  function ToByte(v: int): (b: Byte)
    ensures 0 <= v < 0x100 ==> b == v
  {
    v % 0x100
  }

  const LandPixel := RGBA(80, 80, 80)

  /** The snow layer's depth threshold and saturation depth, in metres. */
  const SnowMin := 0.01
  const SnowMax := 0.10

  /** `bg`: the depth capped at `SnowMax`, scaled to 1 and spread over
      70..255. */
  function SnowLevel(sd: real): (bg: int)
    requires sd > SnowMin
    ensures 88 <= bg <= 255
    ensures sd >= SnowMax ==> bg == 255
  {
    var s := (if sd > SnowMax then SnowMax else sd) / SnowMax;
    assert 0.1 < s <= 1.0;
    Trunc(70.0 + s * (255.0 - 70.0))
  }

  /** A deeper snow is drawn at least as bright. */
  lemma SnowLevelMonotone(sd1: real, sd2: real)
    requires SnowMin < sd1 <= sd2
    ensures SnowLevel(sd1) <= SnowLevel(sd2)
  {
    var s1 := (if sd1 > SnowMax then SnowMax else sd1) / SnowMax;
    var s2 := (if sd2 > SnowMax then SnowMax else sd2) / SnowMax;
    assert s1 <= s2;
    assert 70.0 + s1 * 185.0 <= 70.0 + s2 * 185.0;
  }

  /** `rg`: the corrected depth spread over 100..255, not capped. */
  function CoastLevel(sdc: real): int
  {
    Trunc(100.0 + sdc * (255.0 - 100.0))
  }

  /** Without a cap the colour stays in a byte only for depths up to one
      metre; two metres give 410. */
  lemma CoastLevelRange(sdc: real)
    ensures 0.0 <= sdc <= 1.0 ==> 100 <= CoastLevel(sdc) <= 255
    ensures sdc == 2.0 ==> CoastLevel(sdc) == 410
  {
  }

  function SnowPixel(sd: real): Word
    requires sd > SnowMin
  {
    var bg := ToByte(SnowLevel(sd));
    RGBA(0, bg, bg)
  }

  function CoastPixel(sdc: real): Word
  {
    var rg := ToByte(CoastLevel(sdc));
    RGBA(rg, rg, 0)
  }

  // ---------------------------------------------------------------------
  // Layers

  /** The maps the image is drawn from, at the sizes the plugin uses. */
  ghost predicate Sources(grib: DepthMaps.DepthMap, snod: DepthMaps.DepthMap, coast: CoastMaps.CoastMap)
    reads grib, snod, coast, coast.wmap
  {
    grib.Valid() && grib.w == Width && snod.Valid() && snod.w == Width && coast.Valid() && coast.n == Width
  }

  /** What a layer paints on a pixel, if anything. */
  function Over(p: Word, layer: Option<Word>): Word
  {
    match layer
    case Some(q) => q
    case None => p
  }

  function LandLayer(coast: CoastMaps.CoastMap, i: int, j: int): Option<Word>
    reads coast, coast.wmap
    requires coast.Valid() && coast.n == Width && 0 <= i < Width
  {
    if coast.IsLand(i, j) then Some(LandPixel) else None
  }

  function SnowLayer(grib: DepthMaps.DepthMap, i: int, j: int): Option<Word>
    reads grib, grib.val
    requires grib.Valid() && grib.w == Width && 0 <= i < Width
  {
    var sd := grib.GetIdx(i, j);
    if sd > SnowMin then Some(SnowPixel(sd)) else None
  }

  function CoastalLayer(grib: DepthMaps.DepthMap, snod: DepthMaps.DepthMap, i: int, j: int): Option<Word>
    reads grib, grib.val, snod, snod.val
    requires grib.Valid() && grib.w == Width && snod.Valid() && snod.w == Width && 0 <= i < Width
  {
    var sd := grib.GetIdx(i, j);
    var sdc := snod.GetIdx(i, j);
    if sd != sdc then Some(CoastPixel(sdc)) else None
  }

  /** The colour of a cell once all three layers are painted: the later
      layer wins, an unpainted pixel stays 0. */
  function FinalPixel(grib: DepthMaps.DepthMap, snod: DepthMaps.DepthMap, coast: CoastMaps.CoastMap,
                      i: int, j: int): Word
    reads grib, grib.val, snod, snod.val, coast, coast.wmap
    requires Sources(grib, snod, coast) && 0 <= i < Width
  {
    Over(Over(Over(0, LandLayer(coast, i, j)), SnowLayer(grib, i, j)), CoastalLayer(grib, snod, i, j))
  }

  /** A cell shows the coastal colour where the correction changed its
      depth; otherwise the snow colour where the depth exceeds 1 cm;
      otherwise grey on land; otherwise nothing. */
  lemma FinalPixelCases(grib: DepthMaps.DepthMap, snod: DepthMaps.DepthMap, coast: CoastMaps.CoastMap,
                        i: int, j: int)
    requires Sources(grib, snod, coast) && 0 <= i < Width
    ensures var sd, sdc := grib.GetIdx(i, j), snod.GetIdx(i, j);
            FinalPixel(grib, snod, coast, i, j) ==
              if sd != sdc then CoastPixel(sdc)
              else if sd > SnowMin then SnowPixel(sd)
              else if coast.IsLand(i, j) then LandPixel
              else 0
  {
  }

  /** A pixel shows snow only where the depth exceeds 1 cm, and then it is
      opaque with equal green and blue and no red. */
  lemma SnowPixelShape(sd: real)
    requires sd > SnowMin
    ensures var p := SnowPixel(sd);
            p / 0x100_0000 == 0xFF && p % 0x100 == 0 && (p / 0x100) % 0x100 == (p / 0x1_0000) % 0x100 &&
            88 <= (p / 0x100) % 0x100 <= 255
  {
    var bg := ToByte(SnowLevel(sd));
    assert bg == SnowLevel(sd);
  }

  // ---------------------------------------------------------------------
  // Painting

  /** Pixel `k` is painted once the loops have passed column `i`, row `j`:
      its column comes earlier, or it is in column `i` above row `j`. */
  predicate Passed(k: int, i: int, j: int)
    requires 0 <= k < Width * Height
  {
    ColumnOf(k) < i || (ColumnOf(k) == i && RowOf(k) < j)
  }

  /** `CreateSnowMapPng` without the encoding: a zeroed buffer painted with
      land, then snow, then the coastal correction. */
  method CreateSnowMap(grib: DepthMaps.DepthMap, snod: DepthMaps.DepthMap, coast: CoastMaps.CoastMap)
    returns (img: array<Word>)
    requires Sources(grib, snod, coast)
    ensures fresh(img) && img.Length == Width * Height
    ensures forall k :: 0 <= k < Width * Height ==> img[k] == FinalPixel(grib, snod, coast, ColumnOf(k), RowOf(k))
  {
    img := new Word[Width * Height](k => 0);
    PaintLand(img, coast);
    PaintSnow(img, grib);
    PaintCoastal(img, grib, snod);
  }

  /** The land pass. */
  method PaintLand(img: array<Word>, coast: CoastMaps.CoastMap)
    requires img.Length == Width * Height && coast.Valid() && coast.n == Width
    modifies img
    ensures forall k :: 0 <= k < Width * Height ==>
              img[k] == Over(old(img[k]), LandLayer(coast, ColumnOf(k), RowOf(k)))
  {
    PixelIndexOntoAll();
    var pixel := RGBA(80, 80, 80);
    assert pixel == LandPixel;
    for i := 0 to Width
      invariant forall k :: 0 <= k < Width * Height ==>
                  img[k] == if Passed(k, i, 0) then Over(old(img[k]), LandLayer(coast, ColumnOf(k), RowOf(k))) else old(img[k])
    {
      for j := 0 to Height
        invariant forall k :: 0 <= k < Width * Height ==>
                    img[k] == if Passed(k, i, j) then Over(old(img[k]), LandLayer(coast, ColumnOf(k), RowOf(k))) else old(img[k])
      {
        if coast.IsLand(i, j) {
          img[PixelIndex(i, j)] := pixel;
        }
      }
    }
  }

  /** The snow pass. */
  method PaintSnow(img: array<Word>, grib: DepthMaps.DepthMap)
    requires img.Length == Width * Height && grib.Valid() && grib.w == Width
    modifies img
    ensures forall k :: 0 <= k < Width * Height ==>
              img[k] == Over(old(img[k]), SnowLayer(grib, ColumnOf(k), RowOf(k)))
  {
    PixelIndexOntoAll();
    for i := 0 to Width
      invariant forall k :: 0 <= k < Width * Height ==>
                  img[k] == if Passed(k, i, 0) then Over(old(img[k]), SnowLayer(grib, ColumnOf(k), RowOf(k))) else old(img[k])
    {
      for j := 0 to Height
        invariant forall k :: 0 <= k < Width * Height ==>
                    img[k] == if Passed(k, i, j) then Over(old(img[k]), SnowLayer(grib, ColumnOf(k), RowOf(k))) else old(img[k])
      {
        var sd := grib.GetIdx(i, j);
        if sd > 0.01 {
          var sdMax := 0.10;
          if sd > sdMax {
            sd := sdMax;
          }
          sd := sd / sdMax;
          var bg := ToByte(Trunc(70.0 + sd * (255.0 - 70.0)));
          var pixel := RGBA(0, bg, bg);
          img[PixelIndex(i, j)] := pixel;
        }
      }
    }
  }

  /** The coastal pass. */
  method PaintCoastal(img: array<Word>, grib: DepthMaps.DepthMap, snod: DepthMaps.DepthMap)
    requires img.Length == Width * Height
    requires grib.Valid() && grib.w == Width && snod.Valid() && snod.w == Width
    modifies img
    ensures forall k :: 0 <= k < Width * Height ==>
              img[k] == Over(old(img[k]), CoastalLayer(grib, snod, ColumnOf(k), RowOf(k)))
  {
    PixelIndexOntoAll();
    for i := 0 to Width
      invariant forall k :: 0 <= k < Width * Height ==>
                  img[k] == if Passed(k, i, 0) then Over(old(img[k]), CoastalLayer(grib, snod, ColumnOf(k), RowOf(k))) else old(img[k])
    {
      for j := 0 to Height
        invariant forall k :: 0 <= k < Width * Height ==>
                    img[k] == if Passed(k, i, j) then Over(old(img[k]), CoastalLayer(grib, snod, ColumnOf(k), RowOf(k))) else old(img[k])
      {
        var sd := grib.GetIdx(i, j);
        var sdc := snod.GetIdx(i, j);
        if sd != sdc {
          var rg := ToByte(Trunc(100.0 + sdc * (255.0 - 100.0)));
          var pixel := RGBA(rg, rg, 0);
          img[PixelIndex(i, j)] := pixel;
        }
      }
    }
  }
}
