/** Collecting the airports whose runways are marked with the surface code
    the snow thinning looks for: the filter and rewrite of the lines of
    `scenery_packs.ini`, the word splitting `strtok` performs, the two
    kinds of `apt.dat` lines that are read, and the list of airports kept.
    Files enter as the sequences of their lines (`None` when the file
    cannot be opened); `atoi`/`atof` are passed in. */
module SceneryAirports {
  import opened Options
  import opened Numeric
  import opened Text
  import CsvNumber
  import opened Airports

  // ---------------------------------------------------------------------
  // Lines

  /** The line cut at its first carriage return: `line.resize(line.find('\r'))`. */
  function CutAtCR(line: string): (r: string)
    ensures |r| <= |line|
    ensures forall k :: 0 <= k < |r| ==> r[k] == line[k] && r[k] != '\r'
    ensures |r| < |line| ==> line[|r|] == '\r'
  {
    match Find(line, "\r", 0)
    case None =>
      assert forall k :: 0 <= k < |line| && line[k] == '\r' ==> OccursAt(line, "\r", k);
      line
    case Some(i) =>
      assert forall k :: 0 <= k < i && line[k] == '\r' ==> OccursAt(line, "\r", k);
      assert line[i + 0] == "\r"[0];
      line[..i]
  }

  /** Cutting twice cuts nothing more. */
  lemma CutAtCRIdempotent(line: string)
    ensures CutAtCR(CutAtCR(line)) == CutAtCR(line)
  {
    var r := CutAtCR(line);
    assert |CutAtCR(r)| == |r|;
  }

  // ---------------------------------------------------------------------
  // scenery_packs.ini

  /** `"SCENERY_PACK "`, 13 characters. */
  const PackPrefix := "SCENERY_PACK "
  const GlobalAirports := "*GLOBAL_AIRPORTS*"
  /** Packs of autoortho pretend that every file exists. */
  const AutoOrtho := "/z_ao_"

  /** The tests the constructor applies to a (cut) line, as written. */
  predicate PackLine(line: string)
  {
    Find(line, PackPrefix, 0) == Some(0) && !Contains(line, GlobalAirports) && !Contains(line, AutoOrtho)
  }

  /** A line is kept exactly when it starts with the prefix and contains
      neither the global-airports marker nor the autoortho marker. */
  lemma PackLineIff(line: string)
    ensures PackLine(line) <==>
            StartsWith(line, PackPrefix) &&
            (forall i :: !OccursAt(line, GlobalAirports, i)) &&
            (forall i :: !OccursAt(line, AutoOrtho, i))
  {
    FindAtStart(line, PackPrefix);
    ContainsIff(line, GlobalAirports);
    ContainsIff(line, AutoOrtho);
  }

  /** `line[0] == '/' || line.find(':') != npos`; on an empty string
      `line[0]` is the terminating NUL. */
  predicate IsAbsolute(path: string)
  {
    (|path| > 0 && path[0] == '/') || Contains(path, ":")
  }

  /** The pack path a line yields, or `None` for a line that is skipped. */
  function PackPath(xpDir: string, line: string): (r: Option<string>)
  {
    if !PackLine(line) then None
    else
      var rest := line[|PackPrefix|..];
      Some(Posix(if IsAbsolute(rest) then rest else xpDir + "/" + rest))
  }

  /** The path of a kept line: the text after the prefix, put under the
      X-Plane directory when relative, with every backslash turned into a
      slash. */
  lemma PackPathShape(xpDir: string, line: string)
    requires PackLine(line)
    ensures |line| >= |PackPrefix|
    ensures var rest := line[|PackPrefix|..];
            PackPath(xpDir, line) ==
            Some(if IsAbsolute(rest) then Posix(rest) else Posix(xpDir) + "/" + Posix(rest))
  {
    FindAtStart(line, PackPrefix);
    var rest := line[|PackPrefix|..];
    if !IsAbsolute(rest) {
      PosixConcat(xpDir, "/" + rest);
      PosixConcat("/", rest);
      assert Posix("/") == "/";
      assert xpDir + "/" + rest == xpDir + ("/" + rest);
      assert Posix(xpDir) + ("/" + Posix(rest)) == Posix(xpDir) + "/" + Posix(rest);
    }
  }

  lemma PosixConcat(a: string, b: string)
    ensures Posix(a + b) == Posix(a) + Posix(b)
  {
    assert forall i :: 0 <= i < |a + b| ==> Posix(a + b)[i] == (Posix(a) + Posix(b))[i];
  }

  /** The rewrite of one line of `scenery_packs.ini`: cut at `'\r'`, the
      filters, the prefix erased, the directory prepended to a relative path
      and the backslash loop. */
  method ReadPackLine(xpDir: string, raw: string) returns (path: Option<string>)
    ensures path == PackPath(xpDir, CutAtCR(raw))
  {
    var line := CutAtCR(raw);
    if Find(line, PackPrefix, 0) != Some(0) || Find(line, GlobalAirports, 0).Some? {
      return None;
    }
    if Find(line, AutoOrtho, 0).Some? {
      return None;
    }
    line := line[13..];
    var scPath := if IsAbsolute(line) then line else xpDir + "/" + line;
    scPath := Posixify(scPath);
    path := Some(scPath);
  }

  /** The loop replacing each backslash by a slash, in place. */
  method Posixify(s: string) returns (r: string)
    ensures r == Posix(s)
  {
    r := s;
    var i := 0;
    while i < |r|
      invariant 0 <= i <= |r| == |s|
      invariant forall k :: 0 <= k < i ==> r[k] == if s[k] == '\\' then '/' else s[k]
      invariant forall k :: i <= k < |r| ==> r[k] == s[k]
    {
      if r[i] == '\\' {
        r := r[i := '/'];
      }
      i := i + 1;
    }
  }

  /** The paths kept from the lines of the file, in order. */
  function KeptPaths(xpDir: string, lines: seq<string>): (r: seq<string>)
    ensures |r| <= |lines|
  {
    if lines == [] then []
    else
      KeptPaths(xpDir, lines[..|lines| - 1]) +
      match PackPath(xpDir, CutAtCR(lines[|lines| - 1]))
      case None => []
      case Some(p) => [p]
  }

  /** `sc_paths` after construction: nothing when the file cannot be opened. */
  function PackPaths(xpDir: string, ini: Option<seq<string>>): (r: seq<string>)
  {
    match ini
    case None => []
    case Some(lines) => KeptPaths(xpDir, lines)
  }

  /** Every kept path comes from a line of the file and holds no
      backslash. */
  lemma {:induction false} KeptPathsFromLines(xpDir: string, lines: seq<string>)
    ensures forall p :: p in KeptPaths(xpDir, lines) ==>
              '\\' !in p && exists k :: 0 <= k < |lines| && PackPath(xpDir, CutAtCR(lines[k])) == Some(p)
  {
    if lines != [] {
      var init := lines[..|lines| - 1];
      KeptPathsFromLines(xpDir, init);
      forall p | p in KeptPaths(xpDir, lines)
        ensures '\\' !in p && exists k :: 0 <= k < |lines| && PackPath(xpDir, CutAtCR(lines[k])) == Some(p)
      {
        if p in KeptPaths(xpDir, init) {
          var k :| 0 <= k < |init| && PackPath(xpDir, CutAtCR(init[k])) == Some(p);
          assert lines[k] == init[k];
        } else {
          assert PackPath(xpDir, CutAtCR(lines[|lines| - 1])) == Some(p);
        }
      }
    }
  }

  /** `SceneryPacks`: the list of scenery paths read from
      `Custom Scenery/scenery_packs.ini`. */
  class SceneryPacks {
    var scPaths: seq<string>

    constructor (xpDir: string, ini: Option<seq<string>>)
      ensures scPaths == PackPaths(xpDir, ini)
    {
      var paths := [];
      if ini.Some? {
        var lines := ini.value;
        var n := 0;
        while n < |lines|
          invariant 0 <= n <= |lines|
          invariant paths == KeptPaths(xpDir, lines[..n])
        {
          var p := ReadPackLine(xpDir, lines[n]);
          assert lines[..n + 1][..n] == lines[..n];
          if p.Some? {
            paths := paths + [p.value];
          }
          n := n + 1;
        }
        assert lines[..n] == lines;
      }
      scPaths := paths;
    }
  }

  // ---------------------------------------------------------------------
  // SplitWords

  /** End of the word that starts at `i`. */
  function WordEnd(s: string, i: nat): (r: nat)
    requires i <= |s|
    ensures i <= r <= |s|
    ensures forall k :: i <= k < r ==> s[k] != ' '
    ensures r == |s| || s[r] == ' '
    decreases |s| - i
  {
    if i < |s| && s[i] != ' ' then WordEnd(s, i + 1) else i
  }

  /** The end of a word is the first blank after it, or the end of the
      string. */
  lemma {:induction false} WordEndUnique(s: string, i: nat, j: nat)
    requires i <= j <= |s|
    requires forall k :: i <= k < j ==> s[k] != ' '
    requires j == |s| || s[j] == ' '
    ensures WordEnd(s, i) == j
    decreases j - i
  {
    if i < j {
      WordEndUnique(s, i + 1, j);
    }
  }

  predicate IsWord(w: string)
  {
    |w| > 0 && forall k :: 0 <= k < |w| ==> w[k] != ' '
  }

  /** The words of `s[i..]` that `strtok(…, " ")` returns, in order. */
  function WordsFrom(s: string, i: nat): (r: seq<string>)
    requires i <= |s|
    ensures forall t :: 0 <= t < |r| ==> IsWord(r[t])
    decreases |s| - i
  {
    if i == |s| then []
    else if s[i] == ' ' then WordsFrom(s, i + 1)
    else [s[i..WordEnd(s, i)]] + WordsFrom(s, WordEnd(s, i))
  }

  function Words(s: string): (r: seq<string>)
  {
    WordsFrom(s, 0)
  }

  /** `SplitWords`: the `strtok` loop that pushes each word. */
  method SplitWords(s: string) returns (words: seq<string>)
    ensures words == Words(s)
    ensures forall t :: 0 <= t < |words| ==> IsWord(words[t])
  {
    words := [];
    var i := 0;
    while i < |s|
      invariant 0 <= i <= |s|
      invariant words + WordsFrom(s, i) == Words(s)
      decreases |s| - i
    {
      if s[i] == ' ' {
        i := i + 1;
      } else {
        var j := i;
        while j < |s| && s[j] != ' '
          invariant i <= j <= |s|
          invariant forall k :: i <= k < j ==> s[k] != ' '
        {
          j := j + 1;
        }
        WordEndUnique(s, i, j);
        assert WordsFrom(s, i) == [s[i..j]] + WordsFrom(s, j);
        words := words + [s[i..j]];
        i := j;
      }
    }
  }

  /** The words joined by single blanks. */
  function Join(ws: seq<string>): string
  {
    if ws == [] then "" else if |ws| == 1 then ws[0] else ws[0] + " " + Join(ws[1..])
  }

  /** The scan of a suffix does not depend on what precedes it. */
  lemma {:induction false} WordsFromShift(p: string, s: string, i: nat)
    requires i <= |s|
    ensures WordsFrom(p + s, |p| + i) == WordsFrom(s, i)
    decreases |s| - i
  {
    var ps := p + s;
    assert forall k :: 0 <= k < |s| ==> ps[|p| + k] == s[k];
    if i < |s| {
      if s[i] == ' ' {
        WordsFromShift(p, s, i + 1);
      } else {
        var e := WordEnd(s, i);
        WordEndUnique(ps, |p| + i, |p| + e);
        WordsFromShift(p, s, e);
        assert ps[|p| + i..|p| + e] == s[i..e];
      }
    }
  }

  /** Splitting words joined by blanks gives the words back. */
  lemma {:induction false} WordsOfJoin(ws: seq<string>)
    requires forall t :: 0 <= t < |ws| ==> IsWord(ws[t])
    ensures Words(Join(ws)) == ws
  {
    if ws != [] {
      var w := ws[0];
      WordEndUnique(w, 0, |w|);
      if |ws| == 1 {
        assert WordsFrom(w, |w|) == [];
        assert w[0..|w|] == w;
      } else {
        var rest := Join(ws[1..]);
        var s := w + " " + rest;
        assert s == w + (" " + rest);
        WordEndUnique(s, 0, |w|);
        assert s[0..|w|] == w;
        WordsOfJoin(ws[1..]);
        WordsFromShift(w + " ", rest, 0);
        assert s == (w + " ") + rest;
        assert WordsFrom(s, |w|) == WordsFrom(s, |w| + 1);
      }
    }
  }

  // ---------------------------------------------------------------------
  // apt.dat

  /** `atoi` and `atof` as the parser uses them. */
  datatype NumberReaders = NumberReaders(atoi: string -> int, atof: string -> real)

  /** `atoi`: leading blanks, an optional sign, the longest run of digits;
      0 when there is none. */
  function Atoi(s: string): int
  {
    var j := CsvNumber.SkipSpaces(s, 0);
    var k := if j < |s| && (s[j] == '+' || s[j] == '-') then j + 1 else j;
    var v: int := CsvNumber.DigitsValueAt(s, k, CsvNumber.DigitsEnd(s, k));
    if j < |s| && s[j] == '-' then -v else v
  }

  /** A string of digits reads as the number it denotes. */
  lemma AtoiOfDigits(s: string)
    requires |s| > 0 && CsvNumber.AllDigits(s)
    ensures Atoi(s) == CsvNumber.DigitsValue(s)
  {
    assert CsvNumber.IsDigit(s[0]);
    assert CsvNumber.SkipSpaces(s, 0) == 0;
    assert CsvNumber.DigitsEnd(s, 0) == |s| by {
      CsvNumber.DigitsEndOfDigits(s, 0, |s|);
    }
    CsvNumber.DigitsValueAtSlice(s, 0, |s|);
    assert s[0..|s|] == s;
  }

  /** The C library's `atoi` and `atof` (the longest numeric prefix, 0 when
      there is none). */
  function SourceReaders(): NumberReaders
  {
    NumberReaders(Atoi, (w: string) => match CsvNumber.Stof(w) case Some(v) => v case None => 0.0)
  }

  /** One `%*d` of `sscanf`: blanks, a sign, at least one digit. */
  function ScanInt(s: string, i: nat): (r: Option<nat>)
    requires i <= |s|
    ensures r.Some? ==> i < r.value <= |s| && CsvNumber.IsDigit(s[r.value - 1])
  {
    var j := CsvNumber.SkipSpaces(s, i);
    var k := if j < |s| && (s[j] == '+' || s[j] == '-') then j + 1 else j;
    var e := CsvNumber.DigitsEnd(s, k);
    if e == k then None else Some(e)
  }

  /** The `%n` of `"%*d %*d %*d %*d %n"`: where the text after four integer
      fields and the blanks behind them starts; `None` when the fields are
      not there and `ofs` is never written. */
  function FourIntsEnd(s: string): (r: Option<nat>)
    ensures r.Some? ==> r.value <= |s| && (r.value == |s| || !CsvNumber.IsSpace(s[r.value]))
  {
    match ScanInt(s, 0)
    case None => None
    case Some(e1) =>
      match ScanInt(s, e1)
      case None => None
      case Some(e2) =>
        match ScanInt(s, e2)
        case None => None
        case Some(e3) =>
          match ScanInt(s, e3)
          case None => None
          case Some(e4) => Some(CsvNumber.SkipSpaces(s, e4))
  }

  /** The airport name on a `"1 "` line: the text after the four integer
      fields when there is any, else the whole line.  (When the fields are
      missing the source reads `ofs` uninitialised; the model keeps the
      line.) */
  function AirportName(line: string): (r: string)
    ensures |r| <= |line|
    ensures r == line || (FourIntsEnd(line).Some? && r == line[FourIntsEnd(line).value..] &&
                          |r| > 0 && !CsvNumber.IsSpace(r[0]))
  {
    match FourIntsEnd(line)
    case None => line
    case Some(o) => if o < |line| then line[o..] else line
  }

  /** The surface code a collected runway carries (modulo 100). */
  const WantedSurface := 15

  /** The runway a `"100 "` line describes, read from its words; `None`
      when its surface code is another one.  The name is word 8, the ends
      are (lat, lon) in words 9-10 and 18-19.  (A line with too few words
      is read out of bounds by the source; the model skips it.) */
  function RunwayOf(words: seq<string>, rd: NumberReaders): (r: Option<Runway>)
    ensures r.Some? <==> |words| >= 20 && CRem(rd.atoi(words[2]), 100) == WantedSurface
    ensures r.Some? ==> r.value.name == words[8] &&
                        r.value.end1 == LLPos(rd.atof(words[10]), rd.atof(words[9])) &&
                        r.value.end2 == LLPos(rd.atof(words[19]), rd.atof(words[18]))
  {
    if |words| < 3 then None
    else if CRem(rd.atoi(words[2]), 100) != WantedSurface then None
    else if |words| < 20 then None
    else Some(Runway(words[8], LLPos(rd.atof(words[10]), rd.atof(words[9])),
                     LLPos(rd.atof(words[19]), rd.atof(words[18]))))
  }

  /** What one line of `apt.dat` does to the airport. */
  datatype LineEffect = SetName(name: string) | AddRunway(rwy: Runway) | Ignored

  const NamePrefix := "1 "
  const RunwayPrefix := "100 "

  /** No line is both a name line and a runway line. */
  lemma PrefixesExclusive(line: string)
    ensures !(StartsWith(line, NamePrefix) && StartsWith(line, RunwayPrefix))
  {
    if StartsWith(line, RunwayPrefix) {
      assert line[1] == RunwayPrefix[1] == '0';
      assert NamePrefix[1] == ' ';
    }
  }

  /** The effect of a line: its name on a `"1 "` line, its runway on an
      accepted `"100 "` line, nothing otherwise. */
  function AptLine(raw: string, rd: NumberReaders): (e: LineEffect)
    ensures e.SetName? <==> StartsWith(CutAtCR(raw), NamePrefix)
    ensures e.SetName? ==> e.name == AirportName(CutAtCR(raw))
    ensures e.AddRunway? <==> StartsWith(CutAtCR(raw), RunwayPrefix) && RunwayOf(Words(CutAtCR(raw)), rd).Some?
    ensures e.AddRunway? ==> RunwayOf(Words(CutAtCR(raw)), rd) == Some(e.rwy)
  {
    var line := CutAtCR(raw);
    PrefixesExclusive(line);
    if StartsWith(line, NamePrefix) then SetName(AirportName(line))
    else if StartsWith(line, RunwayPrefix) then
      match RunwayOf(Words(line), rd)
      case None => Ignored
      case Some(rwy) => AddRunway(rwy)
    else Ignored
  }

  /** The part of an airport the parser writes. */
  datatype AirportData = AirportData(name: string, runways: seq<Runway>)

  function ApplyLine(d: AirportData, e: LineEffect): AirportData
  {
    match e
    case SetName(n) => d.(name := n)
    case AddRunway(r) => d.(runways := d.runways + [r])
    case Ignored => d
  }

  /** The airport after the lines, read in order. */
  function ParseLines(d: AirportData, lines: seq<string>, rd: NumberReaders): (r: AirportData)
    ensures |d.runways| <= |r.runways| && r.runways[..|d.runways|] == d.runways
  {
    if lines == [] then d
    else ApplyLine(ParseLines(d, lines[..|lines| - 1], rd), AptLine(lines[|lines| - 1], rd))
  }

  /** Reading two pieces of a file one after the other is reading the
      whole. */
  lemma {:induction false} ParseLinesAppend(d: AirportData, a: seq<string>, b: seq<string>, rd: NumberReaders)
    ensures ParseLines(d, a + b, rd) == ParseLines(ParseLines(d, a, rd), b, rd)
    decreases |b|
  {
    if b == [] {
      assert a + b == a;
    } else {
      assert (a + b)[..|a + b| - 1] == a + b[..|b| - 1];
      ParseLinesAppend(d, a, b[..|b| - 1], rd);
    }
  }

  /** Without a `"1 "` line the name stays what it was. */
  lemma {:induction false} NameWithoutNameLine(d: AirportData, lines: seq<string>, rd: NumberReaders)
    requires forall k :: 0 <= k < |lines| ==> !AptLine(lines[k], rd).SetName?
    ensures ParseLines(d, lines, rd).name == d.name
  {
    if lines != [] {
      var init := lines[..|lines| - 1];
      assert forall k :: 0 <= k < |init| ==> init[k] == lines[k];
      NameWithoutNameLine(d, init, rd);
    }
  }

  /** The name is the one of the last `"1 "` line. */
  lemma {:induction false} NameOfLastNameLine(d: AirportData, lines: seq<string>, k: nat, rd: NumberReaders)
    requires k < |lines| && AptLine(lines[k], rd).SetName?
    requires forall t :: k < t < |lines| ==> !AptLine(lines[t], rd).SetName?
    ensures ParseLines(d, lines, rd).name == AptLine(lines[k], rd).name
  {
    var init := lines[..|lines| - 1];
    if k < |lines| - 1 {
      assert forall t :: k < t < |init| ==> init[t] == lines[t];
      NameOfLastNameLine(d, init, k, rd);
      assert init[k] == lines[k];
    }
  }

  /** Each runway added comes from an accepted `"100 "` line. */
  lemma {:induction false} RunwaysFromLines(d: AirportData, lines: seq<string>, rd: NumberReaders)
    ensures forall r :: r in ParseLines(d, lines, rd).runways[|d.runways|..] ==>
              exists k :: 0 <= k < |lines| && AptLine(lines[k], rd) == AddRunway(r)
  {
    if lines != [] {
      var init := lines[..|lines| - 1];
      RunwaysFromLines(d, init, rd);
      var p := ParseLines(d, init, rd);
      var q := ParseLines(d, lines, rd);
      forall r | r in q.runways[|d.runways|..]
        ensures exists k :: 0 <= k < |lines| && AptLine(lines[k], rd) == AddRunway(r)
      {
        var e := AptLine(lines[|lines| - 1], rd);
        if e.AddRunway? && r == e.rwy {
        } else {
          assert q.runways[|d.runways|..] == p.runways[|d.runways|..] + (if e.AddRunway? then [e.rwy] else []);
          assert r in p.runways[|d.runways|..];
          var k :| 0 <= k < |init| && AptLine(init[k], rd) == AddRunway(r);
          assert lines[k] == init[k];
        }
      }
    }
  }

  /** `ParseAptDat`: reads the name and the runways of an airport's
      `apt.dat`; false when the file cannot be opened. */
  method ParseAptDat(file: Option<seq<string>>, arpt: Airport, rd: NumberReaders) returns (ok: bool)
    modifies arpt
    ensures ok == file.Some?
    ensures AirportData(arpt.name, arpt.runways) ==
            if file.None? then old(AirportData(arpt.name, arpt.runways))
            else ParseLines(old(AirportData(arpt.name, arpt.runways)), file.value, rd)
    ensures arpt.elevation == old(arpt.elevation) && arpt.mecRadius == old(arpt.mecRadius)
  {
    if file.None? {
      return false;
    }
    var lines := file.value;
    ghost var d0 := AirportData(arpt.name, arpt.runways);
    var n := 0;
    while n < |lines|
      invariant 0 <= n <= |lines|
      invariant AirportData(arpt.name, arpt.runways) == ParseLines(d0, lines[..n], rd)
      invariant arpt.elevation == old(arpt.elevation) && arpt.mecRadius == old(arpt.mecRadius)
    {
      ParseLinesNext(d0, lines, n, rd);
      ParseAptLine(lines[n], arpt, rd);
      n := n + 1;
    }
    assert lines[..n] == lines;
    ok := true;
  }

  /** Reading one more line applies its effect. */
  lemma ParseLinesNext(d: AirportData, lines: seq<string>, n: nat, rd: NumberReaders)
    requires n < |lines|
    ensures ParseLines(d, lines[..n + 1], rd) == ApplyLine(ParseLines(d, lines[..n], rd), AptLine(lines[n], rd))
  {
    assert lines[..n + 1][..n] == lines[..n];
  }

  /** One turn of the loop of `ParseAptDat` (a `continue` ends it early). */
  method ParseAptLine(raw: string, arpt: Airport, rd: NumberReaders)
    modifies arpt
    ensures AirportData(arpt.name, arpt.runways) == ApplyLine(old(AirportData(arpt.name, arpt.runways)), AptLine(raw, rd))
    ensures arpt.elevation == old(arpt.elevation) && arpt.mecRadius == old(arpt.mecRadius)
  {
    var line := CutAtCR(raw);
    FindAtStart(line, NamePrefix);
    FindAtStart(line, RunwayPrefix);
    if Find(line, "1 ", 0) == Some(0) {
      arpt.name := AirportName(line);
      return;
    }
    if Find(line, "100 ", 0) == Some(0) {
      var words := SplitWords(line);
      var rwy := ReadRunway(words, rd);
      if rwy.Some? {
        arpt.runways := arpt.runways + [rwy.value];
      }
    }
  }

  /** The statements for a `"100 "` line once it is split into words. */
  method ReadRunway(words: seq<string>, rd: NumberReaders) returns (rwy: Option<Runway>)
    ensures rwy == RunwayOf(words, rd)
  {
    if |words| < 3 {
      return None;
    }
    var code := rd.atoi(words[2]);
    code := CRem(code, 100);
    if code != 15 || |words| < 20 {
      return None;
    }
    var r := Runway(words[8], LLPos(0.0, 0.0), LLPos(0.0, 0.0));
    r := r.(end1 := r.end1.(lat := rd.atof(words[9])));
    r := r.(end1 := r.end1.(lon := rd.atof(words[10])));
    r := r.(end2 := r.end2.(lat := rd.atof(words[18])));
    r := r.(end2 := r.end2.(lon := rd.atof(words[19])));
    rwy := Some(r);
  }

  // ---------------------------------------------------------------------
  // CollectAirports

  /** Where a pack keeps its airport data. */
  const AptDat := "Earth nav data/apt.dat"

  /** What a fresh airport holds after its `apt.dat` is read. */
  function FileData(file: Option<seq<string>>, rd: NumberReaders): AirportData
  {
    match file
    case None => AirportData("", [])
    case Some(lines) => ParseLines(AirportData("", []), lines, rd)
  }

  /** `packData` gives, for each pack path, what its `apt.dat` yields.
      (The trigger keeps the parser's definition out of the proofs that only
      move these values around.) */
  ghost predicate ReadsPacks(packData: string -> AirportData, files: string -> Option<seq<string>>, rd: NumberReaders)
  {
    forall p {:trigger FileData(files(p + AptDat), rd)} :: packData(p) == FileData(files(p + AptDat), rd)
  }

  /** Such a function exists: the parse of each pack's file. */
  lemma PackDataExists(files: string -> Option<seq<string>>, rd: NumberReaders)
    ensures ReadsPacks((p: string) => FileData(files(p + AptDat), rd), files, rd)
  {
  }

  /** The airports kept from the packs, in order: those with runways. */
  function Collected(paths: seq<string>, packData: string -> AirportData): (r: seq<AirportData>)
    ensures |r| <= |paths|
    ensures forall t :: 0 <= t < |r| ==> |r[t].runways| > 0
  {
    if paths == [] then []
    else
      var d := packData(paths[|paths| - 1]);
      Collected(paths[..|paths| - 1], packData) + (if |d.runways| == 0 then [] else [d])
  }

  /** One more pack extends the airports kept from a prefix of the packs. */
  lemma CollectedNext(paths: seq<string>, n: nat, packData: string -> AirportData)
    requires n < |paths|
    ensures var d := packData(paths[n]);
            Collected(paths[..n + 1], packData) == Collected(paths[..n], packData) + if |d.runways| == 0 then [] else [d]
  {
    assert paths[..n + 1][..n] == paths[..n];
  }

  /** Each airport kept is the data of some pack, and every pack whose data
      has runways is kept. */
  lemma {:induction false} CollectedFromPacks(paths: seq<string>, packData: string -> AirportData)
    ensures forall a :: a in Collected(paths, packData) ==>
              exists k :: 0 <= k < |paths| && a == packData(paths[k])
    ensures forall k :: 0 <= k < |paths| && |packData(paths[k]).runways| > 0 ==>
              packData(paths[k]) in Collected(paths, packData)
  {
    if paths != [] {
      var init := paths[..|paths| - 1];
      CollectedFromPacks(init, packData);
      forall a | a in Collected(paths, packData)
        ensures exists k :: 0 <= k < |paths| && a == packData(paths[k])
      {
        if a in Collected(init, packData) {
          var k :| 0 <= k < |init| && a == packData(init[k]);
          assert paths[k] == init[k];
        }
      }
      forall k | 0 <= k < |paths| && |packData(paths[k]).runways| > 0
        ensures packData(paths[k]) in Collected(paths, packData)
      {
        if k < |init| {
          assert paths[k] == init[k];
        }
      }
    }
  }

  function DataOf(a: Airport): AirportData
    reads a
  {
    AirportData(a.name, a.runways)
  }

  /** The data of a list of airports. */
  ghost function Datas(airports: seq<Airport>): (r: seq<AirportData>)
    reads set i | 0 <= i < |airports| :: airports[i]
    ensures |r| == |airports| && forall i :: 0 <= i < |airports| ==> r[i] == DataOf(airports[i])
  {
    seq(|airports|, i requires 0 <= i < |airports| reads set t | 0 <= t < |airports| :: airports[t] => DataOf(airports[i]))
  }

  /** The plugin's global list of airports. */
  class AirportList {
    var airports: seq<Airport>

    constructor ()
      ensures airports == []
    {
      airports := [];
    }

    /** `CollectAirports`: false when no scenery path was read; otherwise
        one new airport per pack whose `apt.dat` yields runways, appended
        in the order of the packs. */
    method CollectAirports(xpDir: string, ini: Option<seq<string>>, files: string -> Option<seq<string>>,
                           rd: NumberReaders, ghost packData: string -> AirportData) returns (ok: bool)
      requires ReadsPacks(packData, files, rd)
      modifies this
      ensures ok <==> PackPaths(xpDir, ini) != []
      ensures |airports| >= |old(airports)| && airports[..|old(airports)|] == old(airports)
      ensures Datas(airports[|old(airports)|..]) == if ok then Collected(PackPaths(xpDir, ini), packData) else []
      ensures forall t :: |old(airports)| <= t < |airports| ==> fresh(airports[t])
    {
      var scp := new SceneryPacks(xpDir, ini);
      if |scp.scPaths| == 0 {
        return false;
      }
      CollectFrom(scp.scPaths, files, rd, packData);
      ok := true;
    }

    /** The loop of `CollectAirports` over the scenery paths. */
    method CollectFrom(paths: seq<string>, files: string -> Option<seq<string>>, rd: NumberReaders,
                       ghost packData: string -> AirportData)
      requires ReadsPacks(packData, files, rd)
      modifies this
      ensures |airports| >= |old(airports)| && airports[..|old(airports)|] == old(airports)
      ensures Datas(airports[|old(airports)|..]) == Collected(paths, packData)
      ensures forall t :: |old(airports)| <= t < |airports| ==> fresh(airports[t])
    {
      ghost var base := |airports|;
      var n := 0;
      while n < |paths|
        invariant 0 <= n <= |paths|
        invariant |airports| >= base && airports[..base] == old(airports)
        invariant Datas(airports[base..]) == Collected(paths[..n], packData)
        invariant forall t :: base <= t < |airports| ==> fresh(airports[t])
      {
        CollectedNext(paths, n, packData);
        ghost var d := CollectOne(paths[n], files, rd, base, packData);
        n := n + 1;
      }
      assert paths[..n] == paths;
    }

    /** One turn of the loop: a new airport is appended, read from its
        file, and removed again when it has no runways.  The airports from
        `base` on gain its data when it has runways. */
    method CollectOne(path: string, files: string -> Option<seq<string>>, rd: NumberReaders, ghost base: nat,
                      ghost packData: string -> AirportData) returns (ghost d: AirportData)
      requires base <= |airports| && ReadsPacks(packData, files, rd)
      modifies this
      ensures d == packData(path)
      ensures |airports| >= |old(airports)| && airports[..|old(airports)|] == old(airports)
      ensures Datas(airports[base..]) == old(Datas(airports[base..])) + if |d.runways| == 0 then [] else [d]
      ensures forall t :: |old(airports)| <= t < |airports| ==> fresh(airports[t])
    {
      ghost var before := airports;
      var arpt := new Airport();
      airports := airports + [arpt];
      var _ := ParseAptDat(files(path + "Earth nav data/apt.dat"), arpt, rd);
      d := DataOf(arpt);
      assert d == FileData(files(path + AptDat), rd);
      if |arpt.runways| == 0 {
        airports := airports[..|airports| - 1];
        assert airports == before;
      } else {
        assert airports[base..] == before[base..] + [arpt];
      }
    }
  }
}
