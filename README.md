# xa-snow in Dafny

A model of the numerical core of xa-snow, a snow-depth add-on for the X-Plane
flight simulator, with proofs about that model. The plugin downloads a GFS
forecast (GRIB) and converts it to CSV with an external tool. From there the
core:

- reads the CSV samples into a 0.1 degree world depth map (3600 x 1801 cells);
- answers bilinear queries on the map, with the longitude wrapped and the
  latitude clamped;
- classifies a water/land raster into water, land and coast cells, each
  coast cell carrying one of eight directions towards land;
- pushes snow found a few cells inland onto coast cells the forecast
  reports as bare, with a decay of 0.8 per step;
- turns a depth into the simulator's snow and ice parameters through
  piecewise-linear tables;
- thins the snow near airports whose scenery has none;
- paints a debug image of the maps.

Beside the core sit the airport collection from the scenery packs, the
download control (forecast cycle, historic dates, retries, removal of old
files) and the older Go service with its nearest-cell map and
east/west smoothing.

The code exists in up to three versions: the plugin's C++, a services-layer
C++ port and the original Go. The model follows each version where they
differ. One Dafny module per component, directly in this directory:

| file | module | models |
|---|---|---|
| numeric.dfy | Numeric | C/Go truncation, `round`, truncating `%` and `/` |
| grid.dfy | Grid | column wrap, row clamp, bilinear weights, sequences of grid stores |
| csv_number.dfy | CsvNumber | the number syntax of `sscanf("%f")`, `std::stof` and `ParseFloat`; comma tokens |
| text.dfy | Text | `std::string::find`, prefix tests, backslash replacement |
| depth_map.dfy | DepthMaps | the depth map class, its lookups and its three CSV loaders |
| coast_map.dfy | CoastMaps | the coast map class, its lookups and the raster classification |
| coastal_snow.dfy | CoastalSnow | the coastal extension as functions over values, and its properties |
| extend.dfy | Extension | the coastal extension as the array loops of the source, proved equal to those functions |
| snow_tables.dfy | SnowTables | depth to snow coverage, snow area width and ice coverage |
| snow_png.dfy | SnowPng | the pixel buffer of the debug image |
| airport.dfy | Airports | relative angles, vectors, the airport record, the depth near airports |
| collect_airports.dfy | SceneryAirports | `scenery_packs.ini`, `apt.dat` parsing, the global airport list |
| cycles.dfy | Cycles | forecast cycle and forecast hour |
| grib_download.dfy | GribDownload | download URL choice, historic year, old-file removal, retries, async flag |
| legacy_grib.dfy | LegacyGrib | the older Go depth map, its CSV loader and smoothing |
| options.dfy | Options | an `Option` datatype |

The same conventions hold throughout:

- **Arrays and state.** Grids the source updates in place are `array2`
  fields of classes: `DepthMap.val`, `CoastMap.wmap` and `LegacyMap.val`.
  The debug image is an `array<Word>`, `Word` being the 32-bit
  unsigned pixel word. Every loop over them is a `method`
  proved against a function on values. A grid as a value is a
  `seq<seq<real>>` indexed `[column][row]`. A sequence of stores is a
  `seq<Write>`, applied with `Grid.Apply` as assignments or as
  "keep the larger".
- **Coast cells.** They are the source's bytes: `(dir << 2) | state` as a
  `bv8`.
- **Numbers.** Depths, angles and coordinates are `real`. Truncation,
  rounding and C's `%` are written out in `Numeric`.
- **Inputs.** File contents are parameters: `Option<seq<string>>` for a
  text file, with `None` for an open that fails, and a decoded `Raster`
  for the image. So are the clock readings and `atan2` (any function with
  results in (-180, 180]). The number readers (`sscanf`, `stof`,
  `ParseFloat`, `atoi`, `atof`) are parameters too, and the loaders'
  contracts hold for any readers. `SourceReaders()` is the library
  behaviour written out in `CsvNumber`.

## Model

| member | source | states |
|---|---|---|
| Numeric.Trunc | depth_map.cpp:71-72 | `static_cast<int>` rounds toward zero: the result lies within one of `x`, on the side of zero |
| Numeric.Round | services/coast.cpp:212 | `round` gives the nearest integer, halves away from zero, with the sign of the argument |
| Numeric.CRem | services/collect_airports.cpp:120 | C `%` by a positive divisor: the remainder takes the sign of the dividend and is smaller than the divisor |
| Numeric.CDiv | grib.cpp:62 | C `/` by a positive divisor: quotient times divisor plus the C remainder gives back the dividend |
| Grid.Zeros | depth_map.h:33 | a fresh map is zero in every cell |
| Grid.WrapOnce | depth_map.cpp:38-43 | one conditional wrap puts any column within a period of the grid into `[0, n)`, shifting by exactly one period when outside |
| Grid.Clamp | depth_map.cpp:45-50 | a row is clamped into `[0, h)`: unchanged inside, the first or last row outside |
| Grid.WrapPeriodic | depth_map.cpp:38-43 | columns one period apart wrap to the same column |
| Grid.BilinearWeights | depth_map.cpp:84-88 | the four Lagrange weights sum to 1, lie in [0, 1] on the unit square, and are the corner itself at offset (0, 0) |
| Grid.BlendIsNestedLerp | depth_map.cpp:84-90 | the bilinear blend is a blend along the row of two blends along the columns |
| Grid.BilinearConvex | depth_map.cpp:84-90 | the interpolated value lies between the smallest and the largest of the four corners |
| Grid.ApplyLastWins | depth_map.cpp:206 | after assigning stores a cell holds the last value stored into it, or its old value when none was |
| Grid.ApplyUntouched | depth_map.cpp:206 | a cell no store hits keeps its value, whether stores assign or maximize |
| Grid.ApplyFloor | depth_map.cpp:185-188 | when every store holds at least `c`, a cell that was at least `c`, or that some store hits, ends at least `c` |
| Grid.ApplyMaximizeAbove | depth_map.cpp:149-152 | with maximizing stores a cell ends at or above its old value and every value stored into it |
| Grid.ApplyConcat | depth_map.cpp:146-212 | applying two runs of stores one after the other is applying their concatenation |
| Grid.LastWrite | depth_map.cpp:206 | the last store into a cell, or none exactly when no store hits it |
| CsvNumber.SkipSpaces | depth_map.cpp:113 | the leading blanks `%f` skips: all blanks, stopping at the first non-blank |
| CsvNumber.DigitsEnd | depth_map.cpp:113 | the longest run of digits from a position |
| CsvNumber.DigitsValueAtSlice | depth_map.cpp:113 | the value of digits read in place equals the value of the sliced digits |
| CsvNumber.Scale10Pow | depth_map.cpp:113 | scaling by ten step by step is multiplying or dividing by a power of ten |
| CsvNumber.ScanMantissa | depth_map.cpp:113 | a mantissa reading consumes at least one character, within the text |
| CsvNumber.ScanExponent | depth_map.cpp:113 | an exponent reading that consumes nothing has value 0 |
| CsvNumber.ScanNumber | depth_map.cpp:113 | a number reading consumes at least one character, within the text |
| CsvNumber.TrimEnd | services/depth_map.go:53-54 | the end of the text once trailing blanks are dropped |
| CsvNumber.TrimSpace | services/depth_map.go:53-54 | `strings.TrimSpace` leaves no blank at either end |
| CsvNumber.IndexOf | services/depth_map.cpp:133-135 | the first position of a character, or none exactly when it does not occur |
| CsvNumber.SplitOn | services/depth_map.cpp:133-135 | splitting at a separator gives at least one field |
| CsvNumber.SplitJoin | services/depth_map.cpp:133-135 | joining the fields with the separator gives back the line |
| CsvNumber.SplitFieldsSeparatorFree | services/depth_map.cpp:133-135 | no field holds the separator |
| CsvNumber.GetlineTokens | services/depth_map.cpp:133-135 | the `getline(ss, token, ',')` tokens hold no comma, none for an empty line, and rejoin to the line when it does not end in a comma |
| CsvNumber.LastFieldEmpty | services/depth_map.cpp:133-135 | an empty last field comes only from an empty line or a trailing separator, which `getline` drops |
| CsvNumber.DigitsEndOfDigits | depth_map.cpp:113 | the run of digits ends at the first non-digit |
| CsvNumber.ScanDecimal | depth_map.cpp:113 | a plain decimal `A.B` reads as `A + B / 10^|B|` and ends after `B` |
| CsvNumber.DecimalLayout | depth_map.cpp:113 | where the integer part, the point and the fraction of `A.B` lie in the text |
| CsvNumber.ParseDecimal | services/depth_map.go:53-54 | `ParseFloat` reads a plain decimal `A.B` as `A + B / 10^|B|` |
| CsvNumber.ScanToParse | services/depth_map.go:53-54 | a trimmed text that scans whole as `v` parses as `v` |
| CsvNumber.TrimNoop | services/depth_map.go:53-54 | trimming a text without blanks at its ends changes nothing |
| CsvNumber.ExponentNumberRead | services/depth_map.cpp:139-146 | `1e1` reads as 10 through `std::stof` and `ParseFloat` |
| CsvNumber.ZeroRead | services/depth_map.cpp:139-140 | `0` reads as 0 through `std::stof` |
| CsvNumber.ExponentLineTokens | services/depth_map.cpp:133-135 | the line `0,0,1e1` splits into the three tokens `0`, `0`, `1e1` |
| Text.Find | services/collect_airports.cpp:47-52 | `find` returns the first occurrence at or after the start position, and `npos` exactly when there is none |
| Text.ContainsIff | services/collect_airports.cpp:47-52 | `find != npos` holds exactly when the text occurs somewhere |
| Text.ContainsEmpty | grib.cpp:185 | the empty text is always found |
| Text.ContainsSelf | grib.cpp:185 | a text is found in itself |
| Text.FindAtStart | services/collect_airports.cpp:47 | `find(prefix) == 0` holds exactly when the text starts with the prefix |
| Text.Posix | services/collect_airports.cpp:63-66 | every backslash becomes a slash, nothing else changes, and no backslash remains |
| DepthMaps.DepthMap.Cells | depth_map.h:33 | the grid value of the array, cell by cell |
| DepthMaps.DepthMap.constructor | services/depth_map.cpp:41 | a new map holds zero in every cell |
| DepthMaps.DepthMap.GetIdx | depth_map.cpp:35-53 | an index inside the grid reads exactly that cell (the wrap and clamp outside are stated by `GetIdxWrapsAndClamps`) |
| DepthMaps.DepthMap.Get | depth_map.cpp:56-93 | for a non-negative grid coordinate the result lies between the smallest and the largest of the four cells around it, the lower-left one found by truncation; on a grid point it is that cell |
| DepthMaps.DepthMap.Store | depth_map.cpp:130 | one store changes exactly one cell, as `Put` on the grid |
| DepthMaps.DepthMap.LoadCsv | depth_map.cpp:95-136 | the map becomes the old map with the stores of the data lines applied in order; nothing changes when the file cannot be opened |
| DepthMaps.DepthMap.LoadScanfLine | depth_map.cpp:111-132 | one line stores its value at its cell, or stores nothing when it does not scan or falls outside the grid |
| DepthMaps.DepthMap.LoadCsvTokens | services/depth_map.cpp:112-160 | the map becomes the old map with the token-line stores applied up to the first line whose `stof` throws, and the method reports that throw |
| DepthMaps.DepthMap.LoadTokensLine | services/depth_map.cpp:128-156 | one line: short lines are skipped, a failed `stof` throws, otherwise its value (0 when the third token has an `e`) is stored |
| DepthMaps.DepthMap.LoadCsvRecords | services/depth_map.go:30-73 | the map becomes the old map with one store per record the reader yields after the header; the first record whose field count differs from the header's ends the load |
| DepthMaps.DepthMap.LoadRecord | services/depth_map.go:52-69 | one record stores its parsed value at its cell |
| DepthMaps.GetIdxWrapsAndClamps | services/depth_map.go:75-91 | columns a period apart read the same cell; rows beyond either edge read the edge row |
| DepthMaps.GetAtGridPoint | services/depth_map.go:93-128 | at the coordinate of a grid point the interpolation returns that cell |
| DepthMaps.GetWestEqualsEast | depth_map.cpp:62-65 | a western longitude reads the same as the eastern one a turn further |
| DepthMaps.ScanfLine | depth_map.cpp:112-130 | a line stores exactly when it scans and its truncated cell lies inside the grid, at that cell; a value of at least 0.001 is stored as read, and no stored value lies strictly between 0 and 0.001 |
| DepthMaps.ScanfWrites | depth_map.cpp:111-132 | at most one store per line, all inside the grid, each 0 or at least 0.001 |
| DepthMaps.ScanfAdvance | depth_map.cpp:111-132 | reading one more line applies exactly that line's store |
| DepthMaps.ScanfLaterLineWins | depth_map.cpp:130 | a later line for a cell overrides what earlier lines stored there |
| DepthMaps.TokensLine | services/depth_map.cpp:133-154 | fewer than three tokens skip; a failed `stof` throws; a stored value is 0 when the third token holds `e` |
| DepthMaps.TokensRun | services/depth_map.cpp:128-156 | at most one store per line, in order, until a line throws |
| DepthMaps.TokensRunPrefix | services/depth_map.cpp:128-156 | the stores of a prefix of the lines begin the stores of all the lines |
| DepthMaps.TokensRunStep | services/depth_map.cpp:128-156 | one more line adds nothing after a throw, else exactly that line's outcome |
| DepthMaps.TokensAdvance | services/depth_map.cpp:128-156 | applying one more line's stores to the grid extends the run by that line |
| DepthMaps.TokensRunPrefixInBounds | services/depth_map.cpp:154 | the stores of a prefix lie inside the grid when the whole run's do |
| DepthMaps.TokensRunThrown | services/depth_map.cpp:139-146 | once a line throws, the lines after it load nothing |
| DepthMaps.RecordWrites | services/depth_map.go:42-70 | one store per record, in order |
| DepthMaps.ReadCount | services/depth_map.go:39-46 | the records `csv.Reader` yields before `ErrFieldCount`: all as wide as the header, and the next one, if any, of another width |
| DepthMaps.DataRecords | services/depth_map.go:42-50 | the records after the header up to the first width change; each has three fields when the file is readable |
| DepthMaps.CountChangeEndsLoad | services/depth_map.go:42-46 | no record at or after one whose field count differs from the header's is stored |
| DepthMaps.ShortRecordStops | services/depth_map.go:42-46 | the file `lon,lat,val` then `1,2` loads nothing and does not panic |
| DepthMaps.ExponentValueKept | services/depth_map.go:56-60 | the Go loader stores 10 for the value `1e1`: its zeroing is overwritten |
| DepthMaps.ExponentValueZeroed | services/depth_map.cpp:143-147 | the services loader stores 0 for the value `1e1` |
| CoastMaps.Encode | services/coast.cpp:217 | `(dir << 2) \| state` decodes back to its direction and its state |
| CoastMaps.DirectionsNonzero | services/coast.cpp:36-37 | both direction tables have eight unit entries and no direction is the zero step |
| CoastMaps.WrapIJ | services/coast.cpp:48-63 | `wrap_ij`: the column wraps by one period, the row is clamped into `[0, m)` |
| CoastMaps.CoastIn | services/coast.cpp:90-101 | `is_coast` holds exactly for coast cells inside the map's rows, and then returns the stored direction and its nonzero unit step |
| CoastMaps.WaterLandExclusive | services/coast.cpp:74-101 | no cell is both water and land, a coast cell is neither, and every cell is one of the three |
| CoastMaps.LookupWrapsAndClamps | services/coast.cpp:48-88 | water and land lookups repeat with the column period and read the edge row beyond the edges |
| CoastMaps.LookupsAgree | services/coast.go:103-123 | for rows above 0 the Go and C++ image readers agree at every column but `width`, where the Go reader gives the out-of-image answer |
| CoastMaps.CLookupPeriodic | services/coast.cpp:168-176 | the C++ image reader is periodic in the column |
| CoastMaps.GoLookupNotPeriodic | services/coast.go:105-107 | on a small image the Go reader gives a different answer one period east |
| CoastMaps.AnyQualifies | services/coast.cpp:188-202 | true exactly when some direction below `d` has water one and two steps out and land one step back |
| CoastMaps.Bearing | services/coast.cpp:207-210 | the bearing of the summed vector lies in [0, 360) |
| CoastMaps.LandDirection | services/coast.cpp:212-215 | the direction index is in 0..7 and within 22.5 degrees of the bearing |
| CoastMaps.CellCode | services/coast.cpp:182-221 | the stored byte is always a valid code |
| CoastMaps.CellCodeClassifies | services/coast.cpp:182-221 | a pixel is land iff the image says land; coast iff water with a qualifying direction; water otherwise |
| CoastMaps.DestCol | services/coast.cpp:160-166 | the map column of a source column lies in the grid and maps back to it |
| CoastMaps.SrcCol | services/coast.cpp:160-166 | the source column of a map column lies in the grid |
| CoastMaps.SrcDest | services/coast.cpp:160-166 | the column shift is a bijection on the columns |
| CoastMaps.CoastMap.Cells | services/coast.cpp:46 | the byte grid held by the array, every byte a valid code |
| CoastMaps.CoastMap.constructor | services/coast.cpp:72 | a new map is water everywhere (the zero byte) |
| CoastMaps.CoastMap.IsWater | services/coast.cpp:74-80 | `is_water` is the water test on the wrapped and clamped cell |
| CoastMaps.CoastMap.IsLand | services/coast.cpp:82-88 | `is_land` is the land test on the wrapped and clamped cell |
| CoastMaps.CoastMap.GoIsWater | services/coast.go:40-54 | the Go water test agrees with the C++ one on every row up to the last row of the map |
| CoastMaps.CoastMap.GoIsLand | services/coast.go:56-69 | the Go land test agrees with the C++ one on every row up to the last row of the map |
| CoastMaps.CoastMap.IsCoast | services/coast.cpp:90-101 | `is_coast` on the array is `CoastIn` on its grid |
| CoastMaps.CoastMap.Classify | services/coast.cpp:156-223 | every map cell fed by a band row holds its source pixel's code; every other cell keeps its value |
| CoastMaps.CoastMap.ClassifyColumn | services/coast.cpp:157-222 | one source column classified, the scan invariant kept |
| CoastMaps.CoastMap.ClassifyStep | services/coast.cpp:157-222 | one source pixel classified, the scan invariant kept |
| CoastMaps.CoastMap.ClassifyCell | services/coast.cpp:160-221 | the map cell of pixel `(i, j)` gets its code and no other cell changes |
| CoastMaps.CoastMap.Load | services/coast.cpp:103-240 | `false` exactly when the file is missing or not of the map's size at 8 bits, and then nothing changes; otherwise every map cell of the band holds its source pixel's code and the others keep theirs |
| CoastMaps.PixelCode | services/coast.cpp:182-221 | the loop body computes the specified code of the pixel |
| CoastMaps.ScanDirections | services/coast.cpp:186-202 | the weighted direction sums, and the coast flag exactly when some direction qualifies |
| CoastMaps.NewCoastService | services/coast.go:82-189 | `nil` exactly when the file is missing or of the wrong size; otherwise a fresh classified map whose coast cells lie in rows 7 to m - 14 |
| CoastalSnow.Offset | depth_map.cpp:163-164 | `k * d` for a unit step stays within `k` |
| CoastalSnow.Search | depth_map.cpp:162-176 | the first step from `k` on that accepts, and its depth; none when no step accepts |
| CoastalSnow.SearchNoEarlier | depth_map.cpp:162-176 | no step before the one found accepts |
| CoastalSnow.SearchSkips | depth_map.cpp:166-168 | skipping steps that do not accept leaves the search unchanged |
| CoastalSnow.SearchFindsFirst | depth_map.cpp:162-176 | the search finds the first accepting step, and nothing when none accepts |
| CoastalSnow.Decayed | depth_map.cpp:185-188 | after at least one decay step the depth is at least the floor 0.02 |
| CoastalSnow.UnflooredPow | depth_map.cpp:185 | decaying `n` times without the floor multiplies by `0.8^n` |
| CoastalSnow.DecayedUnfloored | depth_map.cpp:185-188 | flooring at every step equals flooring once at the end |
| CoastalSnow.DecayedClosedForm | depth_map.cpp:185-188 | the stored depth is `max(v * 0.8^n, 0.02)` |
| CoastalSnow.DecayedAtMostAnchor | depth_map.cpp:185-188 | for an anchor at or above the floor, the decayed depth never exceeds the anchor |
| CoastalSnow.BackfillWrite | depth_map.cpp:189-206 | a backfill store lies inside the grid, holds at least the floor, and step 0 hits the coast cell |
| CoastalSnow.Backfill | depth_map.cpp:184-208 | `d` stores from the anchor back to the coast cell, decayed one more step each, all inside the grid and at least the floor; the last hits the coast cell |
| CoastalSnow.StepWrites | depth_map.cpp:157-209 | the stores of one cell lie inside the grid and hold at least the floor |
| CoastalSnow.PassOf | depth_map.cpp:146-212 | the pass of a world: each cell's stores are its backfill |
| CoastalSnow.CellStep | depth_map.cpp:148-209 | one cell step keeps the grid's shape |
| CoastalSnow.ScanTo | depth_map.cpp:146-212 | the new map after every cell before a position keeps the grid's shape |
| CoastalSnow.Extended | depth_map.cpp:138-216 | the result of the whole pass keeps the grid's shape |
| CoastalSnow.CellStepUntargeted | depth_map.cpp:148-152 | a cell the step's stores miss is only raised to its raw depth, and only when it is the current cell |
| CoastalSnow.ScanUntargeted | depth_map.cpp:148-152 | a cell no store ever reaches holds `max(0, raw)` once scanned and 0 before |
| CoastalSnow.UntargetedKeepsRaw | depth_map.cpp:148-152 | a cell no backfill reaches ends with its raw depth, or 0 when that is negative |
| CoastalSnow.CellStepFloor | depth_map.cpp:186-188 | a cell at or above the floor, or hit by a store, stays at or above the floor |
| CoastalSnow.ScanFloor | depth_map.cpp:146-212 | every cell stays nonnegative, and a cell some earlier store hit stays at least the floor |
| CoastalSnow.ExtendedFloor | depth_map.cpp:138-216 | every result cell is nonnegative, and every cell some backfill reaches is at least 0.02 |
| CoastalSnow.ScanMaximizeAboveRaw | depth_map.cpp:150 | with maximizing stores a scanned cell is at least its raw depth |
| CoastalSnow.MaximizeKeepsRaw | depth_map.cpp:150 | with maximizing stores no cell ends below its raw depth |
| CoastalSnow.OverwriteLowersWater | depth_map.cpp:206 | with assigning stores a water cell of depth 0.5 ends at 0.24 |
| Extension.WorldOf | depth_map.cpp:138-148 | the values the two maps hold, as a world of raw depths and coast bytes |
| Extension.DescribesWorld | depth_map.cpp:146-157 | the cell-by-cell description determines the world |
| Extension.Extend | depth_map.cpp:138-216 | the loops build a fresh map holding exactly `Extended` of the inputs, for either store mode and either row clamp |
| Extension.PassForOf | depth_map.cpp:146-212 | the pass of a world gives every cell its backfill stores |
| Extension.ExtendColumns | depth_map.cpp:146-212 | the column loop takes the new map from the scan at column 0 to the scan at the last column |
| Extension.ExtendColumn | depth_map.cpp:147-211 | one column advances the scan by one column |
| Extension.ExtendCell | depth_map.cpp:148-210 | one cell applies exactly its cell step |
| Extension.CellStepIsStepWrites | depth_map.cpp:148-209 | a cell step is "keep the larger of the new and the raw depth", then the cell's backfill |
| Extension.FindInland | depth_map.cpp:160-176 | the loop variables report the specified search: distance 0 for none, else the step and its depth |
| Extension.Probe | depth_map.cpp:163-175 | step `k` accepts exactly as specified, returning the depth there |
| Extension.StoreBackfill | depth_map.cpp:184-208 | the backfill loop applies exactly the specified stores to the new map |
| Extension.BackfillStep | depth_map.cpp:185-206 | one turn decays the depth once more and applies one more store |
| Extension.BackfillTarget | depth_map.cpp:189-205 | the target cell is the column wrapped once and the row clamped |
| Extension.BackfillNext | depth_map.cpp:184-208 | store `d - 1 - k` of a backfill is the one `k` cells out, and one more store extends the applied prefix |
| Extension.ExtendCoastalSnow | depth_map.cpp:138-216 | the plugin's extension builds a fresh map holding `Extended` with assigning stores |
| Extension.ElsaOnTheCoast | services/depth_map.go:130-204 | the Go extension builds the same map, under the row bounds its coast service guarantees |
| Extension.ExtendCoastalSnowMaximized | depth_map.cpp:149-152 | the pass with maximizing stores; no cell ends below its raw depth |
| SnowTables.FirstBracket | xa-snow.cpp:102-112 | the scan returns the first bracket that holds the depth, or none when none does |
| SnowTables.Frac | xa-snow.cpp:106 | the position inside a bracket lies in [0, 1) |
| SnowTables.BracketUnique | xa-snow.cpp:102-112 | in a strictly increasing table the bracket holding a depth is the one the scan finds |
| SnowTables.BracketFound | xa-snow.cpp:102-112 | between the first and the last entry the scan always finds a bracket |
| SnowTables.InterpBetween | xa-snow.cpp:107-109 | an interpolated value lies between the two entries it blends |
| SnowTables.FracMonotone | xa-snow.cpp:106 | the position inside a bracket grows with the depth |
| SnowTables.InterpMonotone | xa-snow.cpp:107-109 | on a falling segment the interpolation falls as the position grows |
| SnowTables.InterpNeg | xa-snow.cpp:108 | interpolating the negated table negates the result |
| SnowTables.PiecewiseNonIncreasing | xa-snow.cpp:102-112 | a non-increasing table interpolates to a non-increasing function of the depth |
| SnowTables.InterpWithinTable | xa-snow.cpp:107-109 | an interpolated value lies between the table's last and first entries |
| SnowTables.TablesShape | xa-snow.cpp:81-84 | four tables of seven entries; depths strictly increasing, coverage and ice non-increasing, width non-decreasing |
| SnowTables.SnowDepthToXplaneSnowNow | xa-snow.cpp:86-115 | the loop returns the table function of the depth: the last entries at and past 0.25, the thin values at and below 0.01, the interpolation between |
| SnowTables.BracketEntry | xa-snow.cpp:105-110 | the bracket the loop stops at is the specified one |
| SnowTables.InteriorBracketed | xa-snow.cpp:97-112 | strictly inside the table some bracket always matches: the defaults before the loop are never returned |
| SnowTables.AtBreakpoint | xa-snow.cpp:89-112 | at each depth of the table past the first, the lookup returns that row's entries |
| SnowTables.ToXpSnowRange | xa-snow.cpp:86-115 | the three outputs stay within their tables' ranges, the coverage up to the forced 1.2 |
| SnowTables.ToXpSnowMonotone | xa-snow.cpp:86-115 | snow and ice coverage never rise with the depth; the area width never falls |
| SnowTables.ThinSnowJump | xa-snow.cpp:93-94 | the coverage is 1.2 at 0.01 m, but just above it drops to the first bracket's line from 0.90 |
| SnowTables.GetSnowDepth | xa-snow.cpp:75-78 | the exported query reads the map at (lon, lat), with the arguments swapped |
| SnowTables.GoTablesShape | services/phys_2_xplane.go:30-31 | two tables of ten entries; depths strictly increasing, coverage non-increasing |
| SnowTables.GoSnowNow | services/phys_2_xplane.go:34-57 | 0.03 at and past 1 m, 1.2 at and below 0, otherwise the interpolation of the first bracket holding the depth, which lies above 0.03 and at most 1.10 |
| SnowTables.GoBracketRange | services/phys_2_xplane.go:45-51 | an interpolated value for a depth in (0, 1) lies above 0.03 and at most the first entry |
| SnowTables.GoScanFinds | services/phys_2_xplane.go:45-52 | for every depth in (0, 1) a bracket before the last entry matches: neither the out-of-range index nor the fallback is reached |
| SnowTables.GoAtBreakpoint | services/phys_2_xplane.go:45-52 | at each inner depth of the table the coverage is that row's entry |
| SnowTables.GoBetween | services/phys_2_xplane.go:47-50 | inside a bracket the coverage lies between the bracket's two entries |
| SnowTables.GoMonotone | services/phys_2_xplane.go:34-57 | the coverage never rises with the depth, across both cut-offs at 0 and 1 m |
| SnowPng.Xlate | create_snow_png.cpp:40-45 | columns shift by half a turn, wrapped once, into the image |
| SnowPng.Unxlate | create_snow_png.cpp:40-45 | every image column comes from some map column |
| SnowPng.XlateBijective | create_snow_png.cpp:40-45 | `xlate` is a bijection on the columns |
| SnowPng.PixelIndex | create_snow_png.cpp:58 | the pixel of a cell lies in the buffer and gives back its column and row |
| SnowPng.ColumnOf | create_snow_png.cpp:58 | the map column of a pixel lies in the grid |
| SnowPng.RowOf | create_snow_png.cpp:58 | the map row of a pixel lies in the grid |
| SnowPng.PixelIndexOnto | create_snow_png.cpp:58 | every pixel is the pixel of its cell |
| SnowPng.PixelIndexOntoAll | create_snow_png.cpp:58 | every pixel of the buffer belongs to a cell |
| SnowPng.PixelIndexInjective | create_snow_png.cpp:58 | different cells have different pixels |
| SnowPng.RGBA | create_snow_png.cpp:33-34 | the word has alpha 0xFF in byte 3, blue in byte 2, green in byte 1 and red in byte 0 |
| SnowPng.ToByte | create_snow_png.cpp:77 | a conversion to `uint8_t` gives a byte, and leaves values in 0..255 unchanged |
| SnowPng.SnowLevel | create_snow_png.cpp:71-77 | above 1 cm the snow shade lies in 88..255, and it saturates at 255 from 0.10 m |
| SnowPng.SnowLevelMonotone | create_snow_png.cpp:70-77 | deeper snow is drawn at least as bright |
| SnowPng.CoastLevelRange | create_snow_png.cpp:91-92 | the coast shade stays in 100..255 only up to 1 m; at 2 m it is 410, outside a byte |
| SnowPng.FinalPixelCases | create_snow_png.cpp:52-97 | a pixel shows the coastal colour where the correction changed its depth, else the snow colour above 1 cm, else the land colour on land, else stays transparent |
| SnowPng.SnowPixelShape | create_snow_png.cpp:70-79 | a snow pixel is opaque with no red and equal green and blue, at least 88 |
| SnowPng.CreateSnowMap | create_snow_png.cpp:47-97 | a fresh buffer in which every pixel holds the colour of its cell after the three passes |
| SnowPng.PaintLand | create_snow_png.cpp:52-62 | the land pass paints exactly the land pixels and leaves the others |
| SnowPng.PaintSnow | create_snow_png.cpp:64-83 | the snow pass paints exactly the pixels whose depth exceeds 1 cm |
| SnowPng.PaintCoastal | create_snow_png.cpp:85-97 | the coastal pass paints exactly the pixels whose corrected depth differs |
| Airports.FmodTurn | airport.h:36 | `fmodf(a, 360)`: the remainder takes the sign of `a` and differs from `a` by whole turns |
| Airports.RA | airport.h:33-44 | the angle moved into (-180, 180] by whole turns, unchanged when already there |
| Airports.RAUnique | airport.h:33-44 | angles a whole number of turns apart have the same relative angle |
| Airports.VecRoundTrip | airport.h:88-99 | `+` and `-` are inverse: adding then subtracting a vector gives the original back, a vector minus itself is zero, and addition commutes |
| Airports.ScaleLinear | airport.h:95-106 | scaling distributes over addition and composes by multiplication |
| Airports.Airport.constructor | airport.h:114-123 | a new airport has no name, no runways and the elevation "not yet determined" |
| Airports.Cached | airport.cpp:46-57 | the elevation is probed only while it is not determined, then kept |
| Airports.CachedOnce | airport.cpp:46-57 | once determined, later probes do not change the elevation |
| Airports.RefDist | airport.cpp:61-64 | the weighted distance is at least the distance, and equals it at or below the 5 degree slope |
| Airports.Clamp01 | airport.cpp:68 | the weight is clamped into [0, 1], unchanged inside |
| Airports.BlendWeight | airport.cpp:67-68 | the weight lies in [0, 1], is 0 inside the circle and 1 at the distance limit |
| Airports.Blend | airport.cpp:69 | the depth is blended from 0.07 up to the depth capped at 0.25 |
| Airports.HeightRule | airport.cpp:71-76 | above 200 ft the depth is at least 0.11; at or below, it lies between 0.07 and 0.11 |
| Airports.HeightRuleIgnoresBlend | airport.cpp:75-76 | at or below 200 ft the result does not depend on the blended depth |
| Airports.FirstNear | airport.cpp:43-45 | the first airport within 18 km, or none exactly when all are further |
| Airports.AirportDepth | airport.cpp:32-85 | depths below 0.07 and depths far from every airport are unchanged; otherwise the services version stays within [0.07, min(sd, 0.25)] and the plugin version above 200 ft stays at least 0.11 |
| Airports.OnlyFirstApplies | airport.cpp:43-82 | airports after the first one in range do not change the result |
| Airports.FirstNearPrefix | airport.cpp:43-45 | the scan gives the same answer on lists that agree up to the airport found |
| Airports.Elevations | airport.h:117 | the cached elevation of each airport |
| Airports.Radii | airport.h:122 | the circle radius of each airport |
| Airports.ElevationsAfter | airport.cpp:46-57 | only the airport applied has its elevation filled in; the others keep theirs |
| Airports.AirportSnowDepth | airport.cpp:32-85 | the loop returns the specified depth and probes only the first airport in range |
| Airports.ApplyAirport | airport.cpp:44-80 | the body for the airport in range: caches its elevation, adjusts the depth, changes no other airport |
| SceneryAirports.CutAtCR | services/collect_airports.cpp:43-45 | the line up to its first carriage return, which it does not contain |
| SceneryAirports.CutAtCRIdempotent | services/collect_airports.cpp:43-45 | cutting twice cuts nothing more |
| SceneryAirports.PackLineIff | services/collect_airports.cpp:47-53 | a line is kept exactly when it starts with `SCENERY_PACK ` and mentions neither `*GLOBAL_AIRPORTS*` nor `/z_ao_` |
| SceneryAirports.PackPathShape | services/collect_airports.cpp:55-66 | a kept path is the rest of the line, put under the X-Plane folder unless absolute, with slashes for backslashes |
| SceneryAirports.PosixConcat | services/collect_airports.cpp:63-66 | replacing backslashes distributes over concatenation |
| SceneryAirports.ReadPackLine | services/collect_airports.cpp:43-66 | one line of the file yields its specified path, or none |
| SceneryAirports.Posixify | services/collect_airports.cpp:63-66 | the in-place loop replaces every backslash by a slash |
| SceneryAirports.KeptPaths | services/collect_airports.cpp:42-69 | at most one path per line of the file |
| SceneryAirports.KeptPathsFromLines | services/collect_airports.cpp:42-69 | every kept path comes from a line of the file and holds no backslash |
| SceneryAirports.SceneryPacks.constructor | services/collect_airports.cpp:29-73 | the paths kept from the file's lines, in order; none when the file cannot be opened |
| SceneryAirports.WordEnd | services/collect_airports.cpp:78-82 | the end of a word is the first blank after it, or the end of the line |
| SceneryAirports.WordEndUnique | services/collect_airports.cpp:78-82 | a run of non-blanks ending at a blank or the end is the word's end |
| SceneryAirports.WordsFrom | services/collect_airports.cpp:75-83 | the words `strtok` returns are non-empty and hold no blank |
| SceneryAirports.SplitWords | services/collect_airports.cpp:75-83 | the loop pushes exactly the words of the line |
| SceneryAirports.WordsFromShift | services/collect_airports.cpp:75-83 | the words of a suffix do not depend on what precedes it |
| SceneryAirports.WordsOfJoin | services/collect_airports.cpp:75-83 | splitting words joined by blanks gives the words back |
| SceneryAirports.AtoiOfDigits | services/collect_airports.cpp:119 | `atoi` reads a string of digits as the number it denotes |
| SceneryAirports.ScanInt | services/collect_airports.cpp:107 | one `%*d` consumes at least one character and ends on a digit |
| SceneryAirports.FourIntsEnd | services/collect_airports.cpp:107 | the `%n` after four integers and blanks points at a non-blank or the end |
| SceneryAirports.AirportName | services/collect_airports.cpp:104-110 | the name is the text after the four integers, or the whole line when they do not scan |
| SceneryAirports.RunwayOf | services/collect_airports.cpp:116-131 | a runway exactly for lines of at least 20 words with surface code 15 (mod 100), named by word 8, its ends from words 9, 10, 18 and 19 |
| SceneryAirports.PrefixesExclusive | services/collect_airports.cpp:104-115 | no line is both a `1 ` line and a `100 ` line |
| SceneryAirports.AptLine | services/collect_airports.cpp:98-132 | a line sets the name exactly when it starts with `1 `, and adds a runway exactly when it starts with `100 ` and describes a wanted runway |
| SceneryAirports.ParseLines | services/collect_airports.cpp:98-133 | reading lines only ever appends runways |
| SceneryAirports.ParseLinesAppend | services/collect_airports.cpp:98-133 | reading two pieces one after the other is reading their concatenation |
| SceneryAirports.NameWithoutNameLine | services/collect_airports.cpp:104-111 | without a `1 ` line the name stays what it was |
| SceneryAirports.NameOfLastNameLine | services/collect_airports.cpp:104-111 | the name is the one of the last `1 ` line |
| SceneryAirports.RunwaysFromLines | services/collect_airports.cpp:115-131 | every runway added comes from an accepted `100 ` line |
| SceneryAirports.ParseAptDat | services/collect_airports.cpp:86-137 | `false` exactly when the file cannot be opened; the airport's name and runways are the parse of the file's lines |
| SceneryAirports.ParseLinesNext | services/collect_airports.cpp:98-133 | reading one more line applies that line's effect |
| SceneryAirports.ParseAptLine | services/collect_airports.cpp:99-132 | one turn of the loop applies the line's specified effect |
| SceneryAirports.ReadRunway | services/collect_airports.cpp:116-131 | the statements for a `100 ` line compute the specified runway |
| SceneryAirports.PackDataExists | services/collect_airports.cpp:150-153 | the parse of each pack's `apt.dat` meets the pack-data condition |
| SceneryAirports.Collected | services/collect_airports.cpp:150-158 | at most one airport per pack, each with runways |
| SceneryAirports.CollectedNext | services/collect_airports.cpp:150-158 | one more pack appends its airport exactly when it has runways |
| SceneryAirports.CollectedFromPacks | services/collect_airports.cpp:150-158 | every airport kept is some pack's data, and every pack with runways is kept |
| SceneryAirports.Datas | services/collect_airports.cpp:26 | the name and runways of each airport of the list |
| SceneryAirports.AirportList.constructor | services/collect_airports.cpp:26 | the global list starts empty |
| SceneryAirports.AirportList.CollectAirports | services/collect_airports.cpp:139-170 | `false` exactly when no scenery path was read; otherwise the list gains one fresh airport per pack with runways, in pack order |
| SceneryAirports.AirportList.CollectFrom | services/collect_airports.cpp:150-158 | the loop appends exactly the collected airports, in order |
| SceneryAirports.AirportList.CollectOne | services/collect_airports.cpp:151-157 | one pack's airport is appended, and removed again when it has no runways |
| Cycles.CycleFor | grib.cpp:50-56 | the latest of the runs 0, 6, 12, 18 at or before the hour |
| Cycles.LatestCycle | grib.cpp:50-56 | the loop over the run hours finds the latest run not after the hour |
| Cycles.Adjusted | grib.cpp:40-44 | the hour 4 h 25 min earlier, and whether that falls on the previous day |
| Cycles.ForecastReachesRequest | grib.cpp:58-62 | the forecast hour is 3, 6 or 9, and the run plus the forecast is the last three-hour step at or before the request |
| GribDownload.GetDownloadUrl | grib.cpp:37-83 | the run of the adjusted time; NOAA with the computed forecast for the system time, the archive with forecast 6 otherwise |
| GribDownload.HistoricYearLatest | grib.cpp:109-120 | the historic year is the latest in which the requested date and hour are not in the future |
| GribDownload.ChooseTime | grib.cpp:95-127 | the system time exactly when requested or when the provided time is within the last 24 hours; a historic time is never in the future |
| GribDownload.ArchiveOnlyForHistoric | grib.cpp:107-121 | a provided time outside the last 24 hours is taken as historic |
| GribDownload.MatchingPaths | grib.cpp:185 | at most one removal per directory entry |
| GribDownload.MatchingPathsIff | grib.cpp:185 | a path is removed exactly when it is an entry, holds `_noaa.grib2` and does not hold the file to keep |
| GribDownload.MatchingPathsSnoc | grib.cpp:179-189 | one more entry is removed exactly when it matches |
| GribDownload.RemoveOldGribFiles | grib.cpp:166-193 | the loop removes exactly the matching entries, in directory order, after the Windows slash rewrite |
| GribDownload.KeptFileSurvives | grib.cpp:185 | the file just downloaded is never removed, and an empty file to keep removes nothing |
| GribDownload.Swapped | grib.cpp:246 | the request with day and month exchanged |
| GribDownload.Retry | grib.cpp:245-256 | at most three tries; success exactly when some try succeeds, stopping at the first that does |
| GribDownload.DownloadAndProcess | grib.cpp:242-257 | the retry loop as written: every try receives the request with day and month exchanged |
| GribDownload.DownloadAndProcessCorrected | grib.cpp:242-257 | the retry loop passing the request unchanged |
| GribDownload.SwapChangesRequest | async_download.cpp:243 | the exchange turns 10 February into 2 October, and changes every request whose day differs from its month |
| GribDownload.ReportsOnce | grib.cpp:272-285 | a completion is reported once, on the transition from active to inactive |
| GribDownload.Downloader.constructor | grib.cpp:196-197 | no download active and none running |
| GribDownload.Downloader.StartAsyncDownload | grib.cpp:260-269 | the request is launched and the flag set, even when one is running |
| GribDownload.Downloader.CheckAsyncDownload | grib.cpp:272-285 | true exactly on the transition from active to finished, which clears the flag |
| LegacyGrib.SmoothedTrans | services/grib.go:123-207 | the change smoothing may make to a cell composes |
| LegacyGrib.LatIndex | services/grib.go:107 | the nearest row: within half a row of the coordinate |
| LegacyGrib.LonIndex | services/grib.go:110-117 | the nearest column, where the column a full turn east is column 0 |
| LegacyGrib.LatIndexInRange | services/grib.go:107 | every latitude from -90 to 90 maps to a row of the grid |
| LegacyGrib.LonIndexInRange | services/grib.go:110-117 | every longitude from one turn west to just short of a turn east maps to a column |
| LegacyGrib.WestIndex | services/grib.go:156-159 | the cell `k` west, wrapped by the period, lies in the grid |
| LegacyGrib.EastIndex | services/grib.go:188-191 | the cell `k` east, wrapped by the period, lies in the grid |
| LegacyGrib.SeamSkipped | services/grib.go:157-158 | with period 3599, four columns west of column 3 is column 3598 and four east of column 3596 is column 1: both one column short of the neighbour around the globe |
| LegacyGrib.SeamCorrected | services/grib.go:156-159 | with period 3600 the wrapped neighbour is the one around the globe |
| LegacyGrib.TaperValue | services/grib.go:163 | the fill is never positive and never below minus the edge depth |
| LegacyGrib.LegacyMap.Cells | services/grib.go:30-34 | the grid value of the array |
| LegacyGrib.LegacyMap.constructor | services/grib.go:226-227 | a new map is zero and not created |
| LegacyGrib.LegacyMap.Get | services/grib.go:101-119 | 0 before loading; afterwards the nearest cell |
| LegacyGrib.LegacyMap.LoadCsv | services/grib.go:55-99 | one store per record the reader yields after the header, and the map is marked created even with no records |
| LegacyGrib.LegacyMap.LoadRecords | services/grib.go:64-95 | the record loop applies one store per record and ends at the first record whose field count differs from the header's |
| LegacyGrib.LegacyMap.LoadRecord | services/grib.go:77-93 | one record makes exactly its one store into the map |
| LegacyGrib.LegacyMap.Mark | services/grib.go:139 | a store of a non-positive value into a no-snow cell changes that cell only |
| LegacyGrib.LegacyMap.SmoothWith | services/grib.go:123-207 | smoothing changes a cell only from no snow to a non-positive value |
| LegacyGrib.LegacyMap.Smooth | services/grib.go:123-207 | the service's smoothing, with the seam wrapped by 3599 |
| LegacyGrib.LegacyMap.SmoothRow | services/grib.go:130-204 | one row changes only within that row, and only by smoothing |
| LegacyGrib.LegacyMap.ScanEastward | services/grib.go:131-173 | the west-to-east scan changes only its row, and only by smoothing |
| LegacyGrib.LegacyMap.ScanWestward | services/grib.go:174-204 | the east-to-west scan changes only its row, and only by smoothing |
| LegacyGrib.LegacyMap.TaperWest | services/grib.go:155-167 | the fill west of a snow edge changes only blank cells of its row |
| LegacyGrib.LegacyMap.TaperEast | services/grib.go:187-198 | the fill east of a snow edge changes only blank cells of its row |
| LegacyGrib.LegacyGribService.constructor | services/grib.go:212-231 | two fresh maps, not ready |
| LegacyGrib.LegacyGribService.GetSnowDepth | services/grib.go:237-239 | the snow map read at (lon, lat), with the arguments swapped |
| LegacyGrib.LegacyGribService.LoadAndSmooth | services/grib.go:272-276 | both maps loaded and the service ready; the ice map exactly as loaded, the snow map smoothed from what was loaded |
| LegacyGrib.GetCycleDate | services/grib.go:285-303 | the same run and forecast hour as the plugin: a forecast of 3, 6 or 9 hours |

## Code and documentation differ

- **Backfill stores.** The comment at depth_map.cpp:150 says the new map
  always keeps the larger value. The backfill stores at depth_map.cpp:206,
  services/depth_map.cpp:230 and services/depth_map.go:194 assign instead.
  The model follows the code (see Findings).

## Modelling notes

- **Zero-sum directions.** A water cell whose qualifying directions sum to
  the zero vector is still marked coast in `load`
  (services/coast.cpp:204-217), with the direction `atan2(0, 0)` gives.
  `CellCodeClassifies` marks every water cell with a qualifying direction
  as coast.
- **Duplicated code.** The download control in grib.cpp and in
  async_download.cpp is the same code. The C++ versions of
  `extend_coastal_snow` (depth_map.cpp and services/depth_map.cpp) are the
  same as well. Each is modelled once.
- **Store bounds.** The three loaders require that the stores they make lie
  inside the grid. Only `load_csv` checks this itself. The others index the
  array unchecked: undefined behaviour in C++, a panic in Go.
- **Record widths.** The Go loaders leave `FieldsPerRecord` of
  `csv.Reader` at 0, so the header fixes the field count and the first
  record of another width ends the loop (`ReadCount`). Only a header with
  fewer than three fields, followed by a record of its width, makes the
  source panic at `record[2]`; `ReadableRecords` excludes that file. The
  records are the file's lines already split at commas: quoting errors of
  the reader are not modelled.
- **The Go backfill clamp.** `ElsaOnTheCoast` clamps `y` to `n_iLat`, one
  past the last row (services/depth_map.go:188-190). `Extension.ElsaOnTheCoast`
  requires what `NewCoastService` proves: coast rows lie in 7 to m - 14,
  so that branch is never taken.
- **Loop bodies.** `ParseAptLine` models one turn of the `apt.dat` loop,
  with `continue` as `return`.
- **Runway lines.** A runway line with fewer than 20 words indexes past its
  words in the source (undefined behaviour); the model skips such a line.
- **The `%n` offset.** When the four integers of a `1 ` line do not scan,
  the source reads an uninitialised `ofs`. The model keeps the whole line
  as the name.
- **Circle centres and radii.** `mec_center` and `mec_radius` are never
  computed in services/collect_airports.cpp. The airport distances and
  radii are inputs, and a radius of exactly 18000 m is excluded: the
  source divides by `kArptLimit - mec_radius`.
- **Collected airports.** `CollectAirports` is stated for any `packData`
  that reads the packs' files. `PackDataExists` shows that one exists.
- **Casts and pixels.** An out-of-range conversion to `uint8_t` is written
  as the low byte (`ToByte`). Pixel words are integer sums of their byte
  fields.
- **The Go `LoadCsv`.** It marks the map created even when the file cannot
  be opened (services/grib.go:57-60, 96). The model has the records as
  input, and none for a file that does not open.
- **Clamping.** `clampf` is modelled as `max(0, min(a, 1))`, the plugin's
  form.

## Left out

- PNG encoding and file writing (create_snow_png.cpp:99-170): a foreign library.
- Decoding the water/land PNG in coast.cpp and coast.go. The model takes the decoded raster as input.
- Reading and writing files, directory listing and the HTTP download: I/O. Files are line sequences or records, and the download outcome is a parameter of the retry loop.
- Running `wgrib2` and the other external commands: foreign processes.
- The clock and calendar normalisation (`mktime`, `gmtime`, `localtime`, `time.Now`). The model reduces the date arithmetic to the time of day and the day change, and takes the clock readings as inputs.
- The date strings and URL texts: the model keeps the run, the forecast hour and the service chosen, not the formatted text.
- `atan2`, `cosf`, `sqrtf`, `fmodf` on `float`: transcendental and floating-point functions. `atan2` is a parameter; the distances from `len(pos - mec_center)` are inputs.
- Single-precision rounding: every quantity is an unbounded real or integer.
- The background task, `std::future` and the Go mutex: concurrency. The state of the download flag is modelled; the download's outcome is an input.
- Logging and statistics counters (`n_extend`, `counter`, `smoothedCounter`): no effect on the results.
- The terrain probe in `LegacyAirportSnowDepth`: a simulator call. Its reading is an input.
- The environment overrides `USE_SNOD_CSV` and `USE_ICEC_CSV`: the model loads the records it is given.
- LegacyGrib.LegacyMap.SmoothWith: the contract states only how each cell may change (unchanged, or from no snow to a non-positive value). It does not give the exact fill values or which cells the east/west scans reach.
- LegacyGrib.LegacyMap.Smooth: as for `SmoothWith`; the exact taper and the `j += smoothFactor` skips are not stated.
- Airports.AirportDepth: the plugin version at or below 200 ft is stated only through `HeightRule` (between 0.07 and 0.11).
- GribDownload.GetDownloadUrl: the URL and file-name strings are not produced.
- CsvNumber.ScanNumber: only the decimal syntax is read. `inf`, `nan` and hexadecimal floats such as `0x1p3`, which `strtod`, `std::stof` and `strconv.ParseFloat` accept, give no number. The readers are parameters of the loaders, so only `SourceReaders` and the lemmas about it are affected.
- CsvNumber.TrimSpace: only the ASCII blanks (space, tab, CR, LF, VT, FF) are trimmed. Go's `strings.TrimSpace` also trims Unicode white space such as U+0085 and U+00A0; the CSV the converter writes is ASCII.
- CsvNumber.ScanTriple: a value with a dangling exponent (`1e`) reads as its mantissa, as `strtod` does. `sscanf("%f")` consumes the `e` and then fails the conversion, so `load_csv` skips a line such as `1e,2,3`; the model stores it.
- GribDownload.RemoveOldGribFiles: every matching entry is removed. In the source a `remove` or directory step that throws ends the loop inside the `try` (grib.cpp:178-192), and the later matches stay on disk; filesystem failures are not modelled.

## Findings

| source | as written | input that shows it | evidently intended | confidence | as-written member | corrected member |
|---|---|---|---|---|---|---|
| depth_map.cpp:206 | the backfill assigns `new_dm->val_[x][y] = inland_sd`, so a cell already written with a larger value (its own raw depth, or an earlier backfill) is lowered; the same at services/depth_map.cpp:230 and services/depth_map.go:194 | a 3 x 1 strip: land 0.3, water 0.5, coast cell 0.0 pointing west; the water cell ends at 0.24, below its raw 0.5 | "always maximize" (depth_map.cpp:150): no cell ends below its raw depth | not executed | CoastalSnow.OverwriteLowersWater | Extension.ExtendCoastalSnowMaximized |
| services/coast.go:105 | the image lookup wraps only `i > n_wm`, so column `n_wm` reads outside the image, unlike `i >= n_wm` in services/coast.cpp:170 | a 2 x 1 image of land, column 2: the Go reader gives the out-of-image answer, the C++ reader column 0 | the lookup periodic in the column | not executed | CoastMaps.GoLookupNotPeriodic | CoastMaps.CLookupPeriodic |
| services/grib.go:158 | the smoothing wraps west by `3599 + x` and east by `x - 3599`, so one column west of 0 is 3598 and one east of 3599 is 1; the seam column is skipped (also at 190) | column 3, step 4 west gives 3598 | wrap by the grid width 3600 | not executed | LegacyGrib.SeamSkipped | LegacyGrib.SeamCorrected |
| grib.cpp:246 | `DownloadAndProcessGribFile(sys_time, month, day, hour)` passes month and day in the wrong order for its own `(day, month)` parameters; the same at async_download.cpp:243 | the request 10 February 21h is downloaded as 2 October 21h | the request passed through unchanged | not executed | GribDownload.DownloadAndProcess | GribDownload.DownloadAndProcessCorrected |
