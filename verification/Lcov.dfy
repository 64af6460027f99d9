/** LCOV printer and parser. */
module Lcov {
  import opened Words
  import opened Options
  import opened Decimal
  import opened LineRanges
  import opened RangePushing

  // ----- the printer -----

  function Slashes(path: string): (r: string)
    ensures |r| == |path|
  {
    seq(|path|, i requires 0 <= i < |path| => if path[i] == '\\' then '/' else path[i])
  }

  /** Line number and hit count of one DA record. */
  type Hit = (u32, u64)

  function DaLine(h: Hit): string {
    "DA:" + Print(h.0) + "," + Print(h.1)
  }

  function DaText(hits: seq<Hit>): string {
    if hits == [] then "" else DaText(hits[..|hits| - 1]) + DaLine(hits[|hits| - 1]) + "\n"
  }

  function LineSet(hits: seq<Hit>): set<u32> {
    set i | 0 <= i < |hits| :: hits[i].0
  }

  ghost predicate AscendingLines(hits: seq<Hit>) {
    forall i, j :: 0 <= i < j < |hits| ==> hits[i].0 < hits[j].0
  }

  /** The DA records of a file: every named line once, ascending; covered wins on a shared line. */
  ghost predicate HitsOf(hits: seq<Hit>, f: FileCoverage) {
    && AscendingLines(hits)
    && (forall l: u32 :: l in LineSet(hits) <==> Has(f.covered, l) || Has(f.uncovered, l))
    && (forall i :: 0 <= i < |hits| ==> hits[i].1 == if Has(f.covered, hits[i].0) then 1 else 0)
  }

  function RecordText(path: string, hits: seq<Hit>): string {
    "SF:" + Slashes(path) + "\n" + DaText(hits) + "end_of_record\n"
  }

  function FilesText(files: seq<FileCoverage>, hits: seq<seq<Hit>>): string
    requires |files| == |hits|
  {
    var n := |files| - 1;
    if files == [] then "" else FilesText(files[..n], hits[..n]) + RecordText(files[n].path, hits[n])
  }

  ghost predicate HitsOfAll(hits: seq<seq<Hit>>, files: seq<FileCoverage>) {
    |hits| == |files| && forall i :: 0 <= i < |hits| ==> HitsOf(hits[i], files[i])
  }

  method InsertRanges(before: map<u32, u64>, ranges: seq<LineRange>, hits: u64) returns (lines: map<u32, u64>)
    ensures forall l :: l in lines <==> l in before || Has(ranges, l)
    ensures forall l :: l in lines ==> lines[l] == if Has(ranges, l) then hits else before[l]
  {
    lines := before;
    for r := 0 to |ranges|
      invariant forall l :: l in lines <==> l in before || Has(ranges[..r], l)
      invariant forall l :: l in lines ==> lines[l] == if Has(ranges[..r], l) then hits else before[l]
    {
      var range := ranges[r];
      ghost var outer := lines;
      var line := range.start as int;
      while line <= range.end
        invariant range.start <= line
        invariant line <= range.end + 1 || line == range.start
        invariant forall l :: l in lines <==> l in outer || range.start <= l < line
        invariant forall l :: l in lines ==> lines[l] == if range.start <= l < line then hits else outer[l]
      {
        lines := lines[line := hits];
        line := line + 1;
      }
      assert ranges[..r + 1] == ranges[..r] + [range];
      forall l: u32 ensures Has(ranges[..r + 1], l) <==> Has(ranges[..r], l) || range.start <= l <= range.end {
        HasLast(ranges[..r], range, l);
      }
    }
    assert ranges[..|ranges|] == ranges;
  }

  lemma {:induction false} Least(s: set<u32>) returns (m: u32)
    requires s != {}
    ensures m in s && forall l :: l in s ==> m <= l
  {
    var x :| x in s;
    m := x;
    if s - {x} != {} {
      var rest := Least(s - {x});
      m := if rest < x then rest else x;
    }
    assert forall l :: l in s ==> l == x || l in s - {x};
  }

  lemma LineSetAppend(hits: seq<Hit>, h: Hit)
    ensures LineSet(hits + [h]) == LineSet(hits) + {h.0}
  {
    var all := hits + [h];
    assert all[|hits|] == h;
    forall l | l in LineSet(hits) ensures l in LineSet(all) {
      var i :| 0 <= i < |hits| && hits[i].0 == l;
      assert all[i].0 == l;
    }
  }

  /** The records so far name the lines already taken, in order, with their counts. */
  ghost predicate Recorded(hits: seq<Hit>, lines: map<u32, u64>, todo: set<u32>) {
    && LineSet(hits) + todo == lines.Keys && LineSet(hits) !! todo
    && (forall i :: 0 <= i < |hits| ==> hits[i].0 in lines && hits[i].1 == lines[hits[i].0])
    && (forall i, l :: 0 <= i < |hits| && l in todo ==> hits[i].0 < l)
    && AscendingLines(hits)
  }

  lemma RecordOne(hits: seq<Hit>, lines: map<u32, u64>, todo: set<u32>, line: u32)
    requires Recorded(hits, lines, todo) && line in todo && forall l :: l in todo ==> line <= l
    ensures line in lines && Recorded(hits + [(line, lines[line])], lines, todo - {line})
  {
    hide LineSet;
    assert line in lines.Keys;
    LineSetAppend(hits, (line, lines[line]));
  }

  method DaRecords(lines: map<u32, u64>) returns (out: string, ghost hits: seq<Hit>)
    ensures out == DaText(hits) && AscendingLines(hits) && LineSet(hits) == lines.Keys
    ensures forall i :: 0 <= i < |hits| ==> hits[i].0 in lines && hits[i].1 == lines[hits[i].0]
  {
    out, hits := "", [];
    var todo := lines.Keys;
    NothingRecorded(lines);
    hide DaLine, Recorded;
    while todo != {}
      invariant todo <= lines.Keys && Recorded(hits, lines, todo)
      invariant out == DaText(hits)
      decreases todo
    {
      ghost var least := Least(todo);
      var line :| line in todo && forall l :: l in todo ==> line <= l;
      RecordOne(hits, lines, todo, line);
      ghost var before := hits;
      hits := hits + [(line, lines[line])];
      assert hits[..|hits| - 1] == before;
      out := out + DaLine((line, lines[line])) + "\n";
      todo := todo - {line};
    }
    AllRecorded(hits, lines);
  }

  lemma NothingRecorded(lines: map<u32, u64>)
    ensures Recorded([], lines, lines.Keys) && DaText([]) == ""
  {
  }

  lemma AllRecorded(hits: seq<Hit>, lines: map<u32, u64>)
    requires Recorded(hits, lines, {})
    ensures AscendingLines(hits) && LineSet(hits) == lines.Keys
    ensures forall i :: 0 <= i < |hits| ==> hits[i].0 in lines && hits[i].1 == lines[hits[i].0]
  {
    hide LineSet;
  }

  method EncodeFile(f: FileCoverage) returns (out: string, ghost hits: seq<Hit>)
    ensures HitsOf(hits, f) && out == RecordText(f.path, hits)
  {
    hide DaText;
    var lines := InsertRanges(map[], f.uncovered, 0);
    lines := InsertRanges(lines, f.covered, 1);
    var records: string;
    records, hits := DaRecords(lines);
    out := "SF:" + Slashes(f.path) + "\n" + records + "end_of_record\n";
  }

  /** The printed text, with the DA records it was printed from. */
  method EncodeLcov(coverage: CoverageArtifact) returns (out: string, ghost hits: seq<seq<Hit>>)
    ensures HitsOfAll(hits, coverage.files) && out == "TN:\n" + FilesText(coverage.files, hits)
  {
    hide HitsOf;
    hide RecordText;
    out, hits := "", [];
    for i := 0 to |coverage.files|
      invariant HitsOfAll(hits, coverage.files[..i])
      invariant out == FilesText(coverage.files[..i], hits)
    {
      var record, more := EncodeFile(coverage.files[i]);
      ghost var before := hits;
      hits := hits + [more];
      assert coverage.files[..i + 1][..i] == coverage.files[..i] && hits[..i] == before;
      out := out + record;
    }
    assert coverage.files[..|coverage.files|] == coverage.files;
    out := "TN:\n" + out;
  }
}
