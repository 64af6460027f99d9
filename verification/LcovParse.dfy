/** LCOV parser, and its round trip with the printer. */
module LcovParse {
  import opened Words
  import opened Options
  import opened Decimal
  import opened LineRanges
  import opened RangePushing
  import opened Lcov

  datatype LcovError = DaBeforeSf | MissingComma | BadLine | BadHits | Truncated

  /** What the line loop has read so far. */
  datatype ParseState = ParseState(path: Option<string>, hits: seq<Hit>, files: seq<FileCoverage>)

  const START := ParseState(None, [], [])

  function IndexOf(s: string, c: char): (i: nat)
    ensures i <= |s| && (i < |s| ==> s[i] == c)
    ensures forall k :: 0 <= k < i ==> s[k] != c
  {
    if s == [] || s[0] == c then 0
    else
      var rest := IndexOf(s[1..], c);
      assert forall k :: 1 <= k < rest + 1 ==> s[k] == s[1..][k - 1];
      rest + 1
  }

  function StripCr(line: string): string {
    if line != [] && line[|line| - 1] == '\r' then line[..|line| - 1] else line
  }

  /** `str::lines`: pieces between newlines, without a carriage return before the newline. */
  function Lines(text: string): seq<string> {
    var i := IndexOf(text, '\n');
    if text == [] then []
    else if i == |text| then [text]
    else [StripCr(text[..i])] + Lines(text[i + 1..])
  }

  function RangesOf(hits: seq<Hit>, covered: bool): seq<LineRange> {
    if hits == [] then []
    else
      var n := |hits| - 1;
      var before := RangesOf(hits[..n], covered);
      if (hits[n].1 != 0) == covered then Push(before, hits[n].0) else before
  }

  function FileOf(path: string, hits: seq<Hit>): FileCoverage {
    FileCoverage(path, RangesOf(hits, true), RangesOf(hits, false))
  }

  method FileCoverageOf(path: string, hits: seq<Hit>) returns (f: FileCoverage)
    ensures f == FileOf(path, hits)
  {
    var covered: seq<LineRange>, uncovered: seq<LineRange> := [], [];
    for i := 0 to |hits|
      invariant covered == RangesOf(hits[..i], true) && uncovered == RangesOf(hits[..i], false)
    {
      assert hits[..i + 1][..i] == hits[..i];
      if hits[i].1 == 0 {
        uncovered := PushRange(uncovered, hits[i].0);
      } else {
        covered := PushRange(covered, hits[i].0);
      }
    }
    assert hits[..|hits|] == hits;
    f := FileCoverage(path, covered, uncovered);
  }

  function ParseDa(da: string): Result<Hit, LcovError> {
    var comma := IndexOf(da, ',');
    if comma == |da| then Err(MissingComma)
    else
      match (Parse(da[..comma], U32_MAX), Parse(da[comma + 1..], U64_MAX))
      case (None, _) => Err(BadLine)
      case (_, None) => Err(BadHits)
      case (Some(line), Some(hits)) => Ok((line, hits))
  }

  /** The effect of one trimmed line. */
  function Step(st: ParseState, line: string): Result<ParseState, LcovError> {
    if line == "" || "TN:" <= line then Ok(st)
    else if "SF:" <= line then
      if st.path.Some? then Err(Truncated) else Ok(ParseState(Some(Slashes(line[3..])), [], st.files))
    else if "DA:" <= line then
      if st.path.None? then Err(DaBeforeSf)
      else
        match ParseDa(line[3..])
        case Err(e) => Err(e)
        case Ok(hit) => Ok(st.(hits := st.hits + [hit]))
    else if line == "end_of_record" then
      match st.path
      case None => Err(Truncated)
      case Some(path) => Ok(ParseState(None, [], st.files + [FileOf(path, st.hits)]))
    else Ok(st)
  }

  function Steps(st: ParseState, lines: seq<string>): Result<ParseState, LcovError>
    decreases |lines|
  {
    if lines == [] then Ok(st)
    else
      match Step(st, Trim(lines[0]))
      case Err(e) => Err(e)
      case Ok(next) => Steps(next, lines[1..])
  }

  function Finish(r: Result<ParseState, LcovError>): Result<CoverageArtifact, LcovError> {
    match r
    case Err(e) => Err(e)
    case Ok(st) => if st.path.Some? then Err(Truncated) else Ok(CoverageArtifact(st.files))
  }

  function Parsed(text: string): Result<CoverageArtifact, LcovError> {
    Finish(Steps(START, Lines(text)))
  }

  method ParseLcov(text: string) returns (r: Result<CoverageArtifact, LcovError>)
    ensures r == Parsed(text)
  {
    hide Trim;
    hide ParseDa;
    var lines := Lines(text);
    var path: Option<string>, hits: seq<Hit>, files: seq<FileCoverage> := None, [], [];
    for i := 0 to |lines|
      invariant Parsed(text) == Finish(Steps(ParseState(path, hits, files), lines[i..]))
    {
      var line := Trim(lines[i]);
      ghost var st := ParseState(path, hits, files);
      assert lines[i..][1..] == lines[i + 1..];
      if line == "" || "TN:" <= line {
        continue;
      }
      if "SF:" <= line {
        if path.Some? { return Err(Truncated); }
        path, hits := Some(Slashes(line[3..])), [];
      } else if "DA:" <= line {
        if path.None? { return Err(DaBeforeSf); }
        match ParseDa(line[3..]) {
          case Err(e) => return Err(e);
          case Ok(hit) => hits := hits + [hit];
        }
      } else if line == "end_of_record" {
        match path {
          case None => return Err(Truncated);
          case Some(p) =>
            var f := FileCoverageOf(p, hits);
            path, hits, files := None, [], files + [f];
        }
      }
      assert Step(st, line) == Ok(ParseState(path, hits, files));
    }
    if path.Some? { return Err(Truncated); }
    r := Ok(CoverageArtifact(files));
  }

  // ----- reading back one printed line -----

  function ReadOn(st: ParseState, text: string): Result<ParseState, LcovError> {
    Steps(st, Lines(text))
  }

  lemma LinesCons(line: string, rest: string)
    requires '\n' !in line
    ensures Lines(line + "\n" + rest) == [StripCr(line)] + Lines(rest)
  {
    var text := line + "\n" + rest;
    var i := IndexOf(text, '\n');
    assert text[|line|] == '\n';
    forall k | 0 <= k < |line| ensures text[k] != '\n' {
      assert line[k] in line;
    }
    assert text[..|line|] == line && text[|line| + 1..] == rest;
  }

  /** Reading a printable line followed by more text applies that line's step. */
  lemma ReadLine(st: ParseState, line: string, rest: string)
    requires '\n' !in line && line != [] && !IsSpace(line[0]) && !IsSpace(line[|line| - 1])
    ensures ReadOn(st, line + "\n" + rest)
         == match Step(st, line) case Err(e) => Err(e) case Ok(next) => ReadOn(next, rest)
  {
    LinesCons(line, rest);
    assert StripCr(line) == line && Trim(line) == line;
    var all := Lines(line + "\n" + rest);
    assert all[0] == line && all[1..] == Lines(rest);
  }

  lemma TrimPathLine(path: string)
    ensures Trim(StripCr("SF:" + path)) == "SF:" + TrimEnd(path)
  {
    var line := "SF:" + path;
    if path != [] && path[|path| - 1] == '\r' {
      assert StripCr(line) == "SF:" + path[..|path| - 1];
      TrimEndKeepsPrefix("SF:", path[..|path| - 1]);
    } else {
      assert StripCr(line) == line;
      TrimEndKeepsPrefix("SF:", path);
    }
  }

  lemma ReadPath(st: ParseState, path: string, rest: string)
    requires '\n' !in path && st.path.None?
    ensures ReadOn(st, "SF:" + path + "\n" + rest)
         == ReadOn(ParseState(Some(Slashes(TrimEnd(path))), [], st.files), rest)
  {
    hide Trim;
    hide TrimEnd;
    hide Slashes;
    LinesCons("SF:" + path, rest);
    TrimPathLine(path);
    hide Lines;
    hide StripCr;
    var all, trimmed := Lines("SF:" + path + "\n" + rest), "SF:" + TrimEnd(path);
    assert all[1..] == Lines(rest);
    assert trimmed[3..] == TrimEnd(path) && trimmed[0] == 'S';
    assert Step(st, trimmed) == Ok(ParseState(Some(Slashes(TrimEnd(path))), [], st.files));
  }

  lemma PrintHasNoComma(n: nat)
    ensures ',' !in Print(n) && '\n' !in Print(n)
  {
  }

  lemma ParseDaLine(h: Hit)
    ensures ParseDa(DaLine(h)[3..]) == Ok(h)
  {
    var line, hits := Print(h.0), Print(h.1);
    var da := line + "," + hits;
    assert DaLine(h)[3..] == da;
    PrintHasNoComma(h.0);
    forall k | 0 <= k < |line| ensures da[k] != ',' {
      assert line[k] in line;
    }
    assert da[|line|] == ',' && IndexOf(da, ',') == |line|;
    assert da[..|line|] == line && da[|line| + 1..] == hits;
    ParsePrint(h.0, U32_MAX);
    ParsePrint(h.1, U64_MAX);
  }

  lemma ReadDa(st: ParseState, h: Hit, rest: string)
    requires st.path.Some?
    ensures ReadOn(st, DaLine(h) + "\n" + rest) == ReadOn(st.(hits := st.hits + [h]), rest)
  {
    var line := DaLine(h);
    PrintHasNoComma(h.0);
    PrintHasNoComma(h.1);
    ParseDaLine(h);
    assert IsDigit(line[|line| - 1]) by { assert line[|line| - 1] == Print(h.1)[|Print(h.1)| - 1]; }
    ReadLine(st, line, rest);
  }

  lemma {:induction false} ReadDas(st: ParseState, hits: seq<Hit>, rest: string)
    requires st.path.Some?
    ensures ReadOn(st, DaText(hits) + rest) == ReadOn(st.(hits := st.hits + hits), rest)
  {
    hide ReadOn;
    hide DaLine;
    if hits == [] {
      assert DaText(hits) + rest == rest && st.hits + hits == st.hits;
    } else {
      var n := |hits| - 1;
      var more := DaLine(hits[n]) + "\n" + rest;
      assert DaText(hits) + rest == DaText(hits[..n]) + more;
      ReadDas(st, hits[..n], more);
      ReadDa(st.(hits := st.hits + hits[..n]), hits[n], rest);
      assert st.hits + hits[..n] + [hits[n]] == st.hits + hits;
    }
  }

  lemma ReadEnd(st: ParseState, rest: string)
    requires st.path.Some?
    ensures ReadOn(st, "end_of_record\n" + rest)
              == ReadOn(ParseState(None, [], st.files + [FileOf(st.path.value, st.hits)]), rest)
  {
    assert "end_of_record\n" + rest == "end_of_record" + "\n" + rest;
    ReadLine(st, "end_of_record", rest);
  }

  lemma NoNewlineInSlashes(path: string)
    requires '\n' !in path
    ensures '\n' !in Slashes(path)
  {
    forall i | 0 <= i < |path| ensures Slashes(path)[i] != '\n' {
      assert path[i] in path;
    }
  }

  /** One printed record reads back as one file: its path without trailing whitespace, its hits as ranges. */
  lemma ReadRecord(st: ParseState, path: string, hits: seq<Hit>, rest: string)
    requires '\n' !in path && st.path.None?
    ensures ReadOn(st, RecordText(path, hits) + rest)
         == ReadOn(ParseState(None, [], st.files + [FileOf(Slashes(TrimEnd(Slashes(path))), hits)]), rest)
  {
    hide FileOf;
    hide DaText;
    hide TrimEnd;
    hide ReadOn;
    var tail := "end_of_record\n" + rest;
    NoNewlineInSlashes(path);
    assert RecordText(path, hits) + rest == "SF:" + Slashes(path) + "\n" + (DaText(hits) + tail);
    ReadPath(st, Slashes(path), DaText(hits) + tail);
    var begun := ParseState(Some(Slashes(TrimEnd(Slashes(path)))), [], st.files);
    ReadDas(begun, hits, tail);
    assert begun.hits + hits == hits;
    ReadEnd(begun.(hits := hits), rest);
  }

  function FilesOf(files: seq<FileCoverage>, hits: seq<seq<Hit>>): (r: seq<FileCoverage>)
    requires |files| == |hits|
    ensures |r| == |files|
  {
    seq(|files|, i requires 0 <= i < |files| => FileOf(Slashes(TrimEnd(Slashes(files[i].path))), hits[i]))
  }

  lemma {:induction false} ReadFiles(st: ParseState, files: seq<FileCoverage>, hits: seq<seq<Hit>>, rest: string)
    requires |files| == |hits| && st.path.None? && st.hits == []
    requires forall f :: f in files ==> '\n' !in f.path
    ensures ReadOn(st, FilesText(files, hits) + rest)
         == ReadOn(ParseState(None, [], st.files + FilesOf(files, hits)), rest)
  {
    hide ReadOn;
    hide RecordText;
    hide FileOf;
    if files == [] {
      assert FilesText(files, hits) + rest == rest && st.files + FilesOf(files, hits) == st.files;
    } else {
      var n := |files| - 1;
      var last := RecordText(files[n].path, hits[n]);
      assert FilesText(files, hits) + rest == FilesText(files[..n], hits[..n]) + (last + rest);
      ReadFiles(st, files[..n], hits[..n], last + rest);
      var begun := ParseState(None, [], st.files + FilesOf(files[..n], hits[..n]));
      assert files[n] in files;
      ReadRecord(begun, files[n].path, hits[n], rest);
      assert begun.files + [FilesOf(files, hits)[n]] == st.files + FilesOf(files, hits);
    }
  }

  /** Some hit of that kind names the line. */
  ghost predicate Named(hits: seq<Hit>, covered: bool, line: u32) {
    exists i :: 0 <= i < |hits| && hits[i].0 == line && (hits[i].1 != 0) == covered
  }

  lemma NamedLast(hits: seq<Hit>, h: Hit, covered: bool, line: u32)
    ensures Named(hits + [h], covered, line) <==> Named(hits, covered, line) || (h.0 == line && (h.1 != 0) == covered)
  {
    var all := hits + [h];
    if Named(hits, covered, line) {
      var i :| 0 <= i < |hits| && hits[i].0 == line && (hits[i].1 != 0) == covered;
      assert all[i] == hits[i];
    }
    if h.0 == line && (h.1 != 0) == covered {
      assert all[|hits|] == h;
    }
  }

  lemma {:induction false} RangesOfIsNormal(hits: seq<Hit>, covered: bool)
    requires AscendingLines(hits)
    ensures var rs := RangesOf(hits, covered);
            && Normal(rs)
            && (rs != [] ==> hits != [] && rs[|rs| - 1].end <= hits[|hits| - 1].0)
            && (forall line: u32 :: Has(rs, line) <==> Named(hits, covered, line))
  {
    if hits != [] {
      var n := |hits| - 1;
      RangesOfIsNormal(hits[..n], covered);
      assert hits == hits[..n] + [hits[n]];
      forall line: u32
        ensures Named(hits, covered, line) <==>
                  Named(hits[..n], covered, line) || (hits[n].0 == line && (hits[n].1 != 0) == covered)
      {
        NamedLast(hits[..n], hits[n], covered, line);
      }
      var before := RangesOf(hits[..n], covered);
      hide Named;
      hide Normal;
      hide Has;
      if (hits[n].1 != 0) == covered {
        PushNormal(before, hits[n].0);
      }
    }
  }

  /** g is the normal form of f: maximal covered runs, maximal runs of the uncovered rest. */
  ghost predicate IsNormalForm(g: FileCoverage, f: FileCoverage) {
    && g.path == Slashes(TrimEnd(Slashes(f.path)))
    && Normal(g.covered) && Normal(g.uncovered)
    && (forall line: u32 :: Has(g.covered, line) <==> Has(f.covered, line))
    && (forall line: u32 :: Has(g.uncovered, line) <==> Has(f.uncovered, line) && !Has(f.covered, line))
  }

  lemma FileOfHits(path: string, hits: seq<Hit>, f: FileCoverage)
    requires HitsOf(hits, f) && path == Slashes(TrimEnd(Slashes(f.path)))
    ensures IsNormalForm(FileOf(path, hits), f)
  {
    RangesOfIsNormal(hits, true);
    RangesOfIsNormal(hits, false);
    hide Normal;
    hide RangesOf;
    hide Slashes;
    hide TrimEnd;
    hide Has;
    forall line: u32
      ensures Named(hits, true, line) <==> Has(f.covered, line)
      ensures Named(hits, false, line) <==> Has(f.uncovered, line) && !Has(f.covered, line)
    {
      if Has(f.covered, line) || Has(f.uncovered, line) {
        assert line in LineSet(hits);
        var i :| 0 <= i < |hits| && hits[i].0 == line;
      }
      if Named(hits, true, line) || Named(hits, false, line) {
        assert line in LineSet(hits);
      }
    }
  }

  /** Printing and parsing gives each file's normal form, whatever ranges the artifact listed. */
  lemma RoundTrip(a: CoverageArtifact, hits: seq<seq<Hit>>)
    requires HitsOfAll(hits, a.files) && forall f :: f in a.files ==> '\n' !in f.path
    ensures var r := Parsed("TN:\n" + FilesText(a.files, hits));
            && r.Ok?
            && |r.value.files| == |a.files|
            && forall i :: 0 <= i < |a.files| ==> IsNormalForm(r.value.files[i], a.files[i])
  {
    var body := FilesText(a.files, hits);
    hide FilesText;
    hide HitsOf;
    assert "TN:\n" + body == "TN:" + "\n" + body && body == body + "";
    ReadLine(START, "TN:", body);
    ReadFiles(START, a.files, hits, "");
    hide FileOf;
    forall i | 0 <= i < |a.files| ensures IsNormalForm(FilesOf(a.files, hits)[i], a.files[i]) {
      FileOfHits(Slashes(TrimEnd(Slashes(a.files[i].path))), hits[i], a.files[i]);
    }
  }

  /** An artifact already in normal form is returned unchanged. */
  lemma RoundTripOfNormalForm(a: CoverageArtifact, hits: seq<seq<Hit>>)
    requires HitsOfAll(hits, a.files) && forall f :: f in a.files ==> '\n' !in f.path && IsNormalForm(f, f)
    ensures Parsed("TN:\n" + FilesText(a.files, hits)) == Ok(a)
  {
    RoundTrip(a, hits);
    var files := Parsed("TN:\n" + FilesText(a.files, hits)).value.files;
    hide Parsed;
    hide FilesText;
    hide HitsOfAll;
    hide Slashes;
    hide TrimEnd;
    forall i | 0 <= i < |a.files| ensures files[i] == a.files[i] {
      assert a.files[i] in a.files;
      NormalIsUnique(files[i].covered, a.files[i].covered);
      NormalIsUnique(files[i].uncovered, a.files[i].uncovered);
    }
    assert files == a.files;
  }

  /** The path survives exactly when it holds no backslash and ends in no whitespace. */
  lemma PathSurvivesExactlyWhen(path: string)
    ensures Slashes(TrimEnd(Slashes(path))) == path
       <==> '\\' !in path && (path == [] || !IsSpace(path[|path| - 1]))
  {
    var s := Slashes(path);
    var t := TrimEnd(s);
    TrimEndShortens(s);
    if '\\' in path {
      var i :| 0 <= i < |path| && path[i] == '\\';
      assert |t| == |path| ==> Slashes(t)[i] != path[i];
    } else {
      assert s == path;
    }
  }

  lemma {:induction false} TrimEndShortens(s: string)
    ensures |TrimEnd(s)| <= |s|
    ensures |TrimEnd(s)| == |s| <==> s == [] || !IsSpace(s[|s| - 1])
  {
    if s != [] && IsSpace(s[|s| - 1]) {
      TrimEndShortens(s[..|s| - 1]);
    }
  }
}
