/** Inclusive line ranges and their normal form. */
module LineRanges {
  import opened Words

  datatype LineRange = LineRange(start: u32, end: u32)

  datatype FileCoverage = FileCoverage(path: string, covered: seq<LineRange>, uncovered: seq<LineRange>)

  datatype CoverageArtifact = CoverageArtifact(files: seq<FileCoverage>)

  predicate Has(rs: seq<LineRange>, line: u32) {
    exists i :: 0 <= i < |rs| && rs[i].start <= line <= rs[i].end
  }

  ghost predicate SameLines(a: seq<LineRange>, b: seq<LineRange>) {
    forall line: u32 :: Has(a, line) <==> Has(b, line)
  }

  /** Maximal runs in ascending order: non-empty ranges with a gap before each next one. */
  ghost predicate Normal(rs: seq<LineRange>) {
    && (forall i :: 0 <= i < |rs| ==> rs[i].start <= rs[i].end)
    && (forall i, j :: 0 <= i < j < |rs| ==> rs[i].end + 1 < rs[j].start)
  }

  lemma HasLast(rs: seq<LineRange>, r: LineRange, line: u32)
    ensures Has(rs + [r], line) <==> Has(rs, line) || r.start <= line <= r.end
  {
    var all := rs + [r];
    if Has(rs, line) {
      var i :| 0 <= i < |rs| && rs[i].start <= line <= rs[i].end;
      assert all[i] == rs[i];
    }
    if r.start <= line <= r.end {
      assert all[|rs|] == r;
    }
  }

  lemma HasFirst(r: LineRange, rs: seq<LineRange>, line: u32)
    ensures Has([r] + rs, line) <==> Has(rs, line) || r.start <= line <= r.end
  {
    var all := [r] + rs;
    if Has(rs, line) {
      var i :| 0 <= i < |rs| && rs[i].start <= line <= rs[i].end;
      assert all[i + 1] == rs[i];
    }
    if r.start <= line <= r.end {
      assert all[0] == r;
    }
  }

  lemma FirstRun(rs: seq<LineRange>, line: u32)
    requires Normal(rs) && rs != []
    ensures Has(rs, rs[0].start) && Has(rs, rs[0].end)
    ensures rs[0].start <= line <= rs[0].end ==> Has(rs, line)
    ensures Has(rs, line) ==> rs[0].start <= line
    ensures Has(rs, line) && line <= rs[0].end + 1 ==> line <= rs[0].end
  {
  }

  lemma FirstRunReaches(a: seq<LineRange>, b: seq<LineRange>)
    requires Normal(a) && Normal(b) && SameLines(a, b) && a != [] && b != []
    ensures a[0].start <= b[0].start && (a[0].start == b[0].start ==> b[0].end <= a[0].end)
  {
    FirstRun(a, b[0].start);
    FirstRun(b, b[0].start);
    if a[0].start == b[0].start && a[0].end < b[0].end {
      FirstRun(b, a[0].end + 1);
      FirstRun(a, a[0].end + 1);
    }
  }

  /** A set of lines has one normal form. */
  lemma {:induction false} NormalIsUnique(a: seq<LineRange>, b: seq<LineRange>)
    requires Normal(a) && Normal(b) && SameLines(a, b)
    ensures a == b
  {
    assert b != [] ==> Has(b, b[0].start);
    assert a != [] ==> Has(a, a[0].start);
    if a != [] {
      FirstRunReaches(a, b);
      FirstRunReaches(b, a);
      forall line: u32 ensures Has(a[1..], line) <==> Has(b[1..], line) {
        HasFirst(a[0], a[1..], line);
        HasFirst(b[0], b[1..], line);
        assert a == [a[0]] + a[1..] && b == [b[0]] + b[1..];
        TailBeyondHead(a, line);
        TailBeyondHead(b, line);
      }
      NormalIsUnique(a[1..], b[1..]);
      assert a == [a[0]] + a[1..] && b == [b[0]] + b[1..];
    }
  }

  lemma TailBeyondHead(rs: seq<LineRange>, line: u32)
    requires Normal(rs) && rs != []
    ensures Has(rs[1..], line) ==> line > rs[0].end
  {
  }
}

/** `push_range`: extending the last run in place, or opening a new one. */
module RangePushing {
  import opened Words
  import opened LineRanges

  function Push(rs: seq<LineRange>, line: u32): seq<LineRange> {
    var n := |rs| - 1;
    if rs != [] && Min(rs[n].end + 1, U32_MAX) == line then rs[n := LineRange(rs[n].start, line)]
    else rs + [LineRange(line, line)]
  }

  method PushRange(ranges: seq<LineRange>, line: u32) returns (r: seq<LineRange>)
    ensures r == Push(ranges, line)
  {
    r := ranges;
    if |r| > 0 {
      var last := r[|r| - 1];
      if Min(last.end + 1, U32_MAX) == line {
        last := last.(end := line);
        return r[|r| - 1 := last];
      }
    }
    r := r + [LineRange(line, line)];
  }

  /** Pushing a line beyond the last run keeps the normal form and adds just that line. */
  lemma PushNormal(rs: seq<LineRange>, line: u32)
    requires Normal(rs) && (rs != [] ==> rs[|rs| - 1].end < line)
    ensures Normal(Push(rs, line)) && Push(rs, line) != []
    ensures Push(rs, line)[|Push(rs, line)| - 1].end == line
    ensures forall l: u32 :: Has(Push(rs, line), l) <==> Has(rs, l) || l == line
  {
    var n := |rs| - 1;
    forall l: u32 ensures Has(Push(rs, line), l) <==> Has(rs, l) || l == line {
      if rs != [] && Min(rs[n].end + 1, U32_MAX) == line {
        assert rs == rs[..n] + [rs[n]] && Push(rs, line) == rs[..n] + [LineRange(rs[n].start, line)];
        HasLast(rs[..n], rs[n], l);
        HasLast(rs[..n], LineRange(rs[n].start, line), l);
      } else {
        HasLast(rs, LineRange(line, line), l);
      }
    }
  }
}

/** Go coverage records: accumulation per file and `merge`. */
module GoCover {
  import opened Words
  import opened Options
  import opened Sorting
  import opened LineRanges

  /** One decoded record of the profile. */
  datatype Record = Record(path: string, start: u32, end: u32, hits: u64)

  predicate RangeBefore(a: LineRange, b: LineRange) {
    a.start < b.start || (a.start == b.start && a.end < b.end)
  }

  ghost predicate NonEmpty(rs: seq<LineRange>) {
    forall i :: 0 <= i < |rs| ==> rs[i].start <= rs[i].end
  }

  lemma SortedRanges(ranges: seq<LineRange>)
    ensures var s := Sort(ranges, RangeBefore);
            (forall i, j :: 0 <= i < j < |s| ==> s[i].start <= s[j].start) && SameLines(s, ranges)
    ensures NonEmpty(ranges) ==> NonEmpty(Sort(ranges, RangeBefore))
  {
    var s := Sort(ranges, RangeBefore);
    SortSorts(ranges, RangeBefore);
    SameElements(s, ranges);
    forall i, j | 0 <= i < j < |s| ensures s[i].start <= s[j].start {
      assert !RangeBefore(s[j], s[i]);
    }
    forall i | 0 <= i < |s| ensures NonEmpty(ranges) ==> s[i].start <= s[i].end {
      assert s[i] in ranges;
    }
    SameMembersSameLines(s, ranges);
    SameMembersSameLines(ranges, s);
  }

  lemma SameMembersSameLines(a: seq<LineRange>, b: seq<LineRange>)
    requires forall r :: r in a ==> r in b
    ensures forall line: u32 :: Has(a, line) ==> Has(b, line)
  {
    forall line: u32 | Has(a, line) ensures Has(b, line) {
      var i :| 0 <= i < |a| && a[i].start <= line <= a[i].end;
      assert a[i] in b;
    }
  }

  /** What merging one more range does to the list. */
  function Merged(out: seq<LineRange>, range: LineRange): seq<LineRange> {
    var n := |out| - 1;
    if |out| > 0 && range.start <= Min(out[n].end + 1, U32_MAX)
    then out[n := out[n].(end := Max(out[n].end, range.end))]
    else out + [range]
  }

  lemma MergedKeepsLines(out: seq<LineRange>, range: LineRange, line: u32)
    requires Normal(out) && range.start <= range.end && (out != [] ==> out[|out| - 1].start <= range.start)
    ensures Has(Merged(out, range), line) <==> Has(out, line) || range.start <= line <= range.end
  {
    HasLast(out, range, line);
    var n := |out| - 1;
    if |out| > 0 && range.start <= Min(out[n].end + 1, U32_MAX) {
      WidenLast(out, range, Merged(out, range));
    }
    hide Has;
  }

  lemma MergedIsNormal(out: seq<LineRange>, range: LineRange)
    requires Normal(out) && range.start <= range.end && (out != [] ==> out[|out| - 1].start <= range.start)
    ensures Normal(Merged(out, range)) && Merged(out, range) != []
    ensures Merged(out, range)[|Merged(out, range)| - 1].start <= range.start
  {
  }

  /** `merge`: the normal form of the lines the ranges name. */
  method Merge(ranges: seq<LineRange>) returns (out: seq<LineRange>)
    requires NonEmpty(ranges)
    ensures Normal(out) && SameLines(out, ranges)
  {
    var sorted := Sort(ranges, RangeBefore);
    SortedRanges(ranges);
    out := [];
    hide Normal, Has, RangeBefore;
    assert Normal([]) && SameLines([], sorted[..0]) by { NothingMerged(sorted); }
    for i := 0 to |sorted|
      invariant Normal(out) && SameLines(out, sorted[..i])
      invariant out != [] ==> i > 0 && out[|out| - 1].start <= sorted[i - 1].start
    {
      var range := sorted[i];
      assert sorted[..i + 1] == sorted[..i] + [range];
      MergedIsNormal(out, range);
      forall line: u32 ensures Has(Merged(out, range), line) <==> Has(sorted[..i + 1], line) {
        MergedKeepsLines(out, range, line);
        HasLast(sorted[..i], range, line);
      }
      if |out| > 0 && range.start <= Min(out[|out| - 1].end + 1, U32_MAX) {
        var last := out[|out| - 1];
        out := out[|out| - 1 := last.(end := Max(last.end, range.end))];
      } else {
        out := out + [range];
      }
    }
    assert sorted[..|sorted|] == sorted;
  }

  lemma NothingMerged(s: seq<LineRange>)
    ensures Normal([]) && SameLines([], s[..0])
  {
  }

  lemma WidenLast(rs: seq<LineRange>, range: LineRange, out: seq<LineRange>)
    requires rs != [] && range.start <= range.end && rs[|rs| - 1].start <= rs[|rs| - 1].end
    requires rs[|rs| - 1].start <= range.start <= Min(rs[|rs| - 1].end + 1, U32_MAX)
    requires out == rs[|rs| - 1 := LineRange(rs[|rs| - 1].start, Max(rs[|rs| - 1].end, range.end))]
    ensures forall line: u32 :: Has(out, line) <==> Has(rs + [range], line)
  {
    var n := |rs| - 1;
    forall line: u32 ensures Has(out, line) <==> Has(rs + [range], line) {
      assert rs == rs[..n] + [rs[n]] && out == rs[..n] + [out[n]];
      HasLast(rs, range, line);
      HasLast(rs[..n], rs[n], line);
      HasLast(rs[..n], out[n], line);
    }
  }

  datatype GoError = InvalidRange(record: nat) | Truncated

  type Sides = (seq<LineRange>, seq<LineRange>)

  /** Some record of that path, hit or unhit as asked, covers the line. */
  ghost predicate Recorded(records: seq<Record>, path: string, hit: bool, line: u32) {
    exists i :: 0 <= i < |records| && records[i].path == path && (records[i].hits > 0) == hit
             && records[i].start <= line <= records[i].end
  }

  ghost predicate ValidRecord(r: Record) {
    0 < r.start <= r.end
  }

  ghost predicate Accumulated(files: map<string, Sides>, records: seq<Record>) {
    && (forall path :: path in files <==> exists i :: 0 <= i < |records| && records[i].path == path)
    && (forall path :: path in files ==> NonEmpty(files[path].0) && NonEmpty(files[path].1))
    && (forall path, line: u32 :: path in files ==> (Has(files[path].0, line) <==> Recorded(records, path, true, line)))
    && (forall path, line: u32 :: path in files ==>
        (Has(files[path].1, line) <==> Recorded(records, path, false, line)))
  }

  function AddRecord(files: map<string, Sides>, r: Record): map<string, Sides> {
    var sides: Sides := if r.path in files then files[r.path] else ([], []);
    var range := LineRange(r.start, r.end);
    files[r.path := if r.hits > 0 then (sides.0 + [range], sides.1) else (sides.0, sides.1 + [range])]
  }

  lemma RecordedLast(records: seq<Record>, r: Record, path: string, hit: bool, line: u32)
    ensures Recorded(records + [r], path, hit, line)
       <==> Recorded(records, path, hit, line) || (r.path == path && (r.hits > 0) == hit && r.start <= line <= r.end)
  {
    var all := records + [r];
    if Recorded(records, path, hit, line) {
      var i :| 0 <= i < |records| && records[i].path == path && (records[i].hits > 0) == hit
            && records[i].start <= line <= records[i].end;
      assert all[i] == records[i];
    }
    if r.path == path && (r.hits > 0) == hit && r.start <= line <= r.end {
      assert all[|records|] == r;
    }
  }

  lemma AddRecordAccumulates(files: map<string, Sides>, records: seq<Record>, r: Record)
    requires Accumulated(files, records) && ValidRecord(r)
    ensures Accumulated(AddRecord(files, r), records + [r])
  {
    var more, all := AddRecord(files, r), records + [r];
    var sides: Sides := if r.path in files then files[r.path] else ([], []);
    var range := LineRange(r.start, r.end);
    forall path ensures path in more <==> exists i :: 0 <= i < |all| && all[i].path == path {
      if path in files {
        var i :| 0 <= i < |records| && records[i].path == path;
        assert all[i] == records[i];
      }
      assert all[|records|] == r;
    }
    forall path, line: u32 | path in more
      ensures Has(more[path].0, line) <==> Recorded(all, path, true, line)
      ensures Has(more[path].1, line) <==> Recorded(all, path, false, line)
    {
      RecordedLast(records, r, path, true, line);
      RecordedLast(records, r, path, false, line);
      HasLast(sides.0, range, line);
      HasLast(sides.1, range, line);
    }
  }

  /** Sorted, merged coverage of every path the profile names, or the first error. */
  method ParseRecords(records: seq<Record>) returns (r: Result<map<string, Sides>, GoError>)
    ensures r.Err? <==> records == [] || exists i :: 0 <= i < |records| && !ValidRecord(records[i])
    ensures r.Err? && r.error.InvalidRange? ==>
              r.error.record < |records| && !ValidRecord(records[r.error.record])
              && forall i :: 0 <= i < r.error.record ==> ValidRecord(records[i])
    ensures r.Ok? ==> Accumulated(r.value, records)
    ensures r.Ok? ==> forall path :: path in r.value ==> Normal(r.value[path].0) && Normal(r.value[path].1)
  {
    var files: map<string, Sides> := map[];
    for i := 0 to |records|
      invariant Accumulated(files, records[..i])
      invariant forall k :: 0 <= k < i ==> ValidRecord(records[k])
    {
      var record := records[i];
      if record.start == 0 || record.end < record.start {
        assert !ValidRecord(records[i]);
        return Err(InvalidRange(i));
      }
      AddRecordAccumulates(files, records[..i], record);
      assert records[..i] + [record] == records[..i + 1];
      files := AddRecord(files, record);
    }
    assert records[..|records|] == records;
    if |records| == 0 {
      return Err(Truncated);
    }
    files := MergeAll(files);
    r := Ok(files);
  }

  method MergeAll(files: map<string, Sides>) returns (merged: map<string, Sides>)
    requires forall path :: path in files ==> NonEmpty(files[path].0) && NonEmpty(files[path].1)
    ensures merged.Keys == files.Keys
    ensures forall path :: path in files ==> Normal(merged[path].0) && SameLines(merged[path].0, files[path].0)
    ensures forall path :: path in files ==> Normal(merged[path].1) && SameLines(merged[path].1, files[path].1)
  {
    merged := map[];
    var todo := files.Keys;
    while todo != {}
      invariant todo <= files.Keys && merged.Keys == files.Keys - todo
      invariant forall path :: path in merged ==> Normal(merged[path].0) && SameLines(merged[path].0, files[path].0)
      invariant forall path :: path in merged ==> Normal(merged[path].1) && SameLines(merged[path].1, files[path].1)
      decreases todo
    {
      var path :| path in todo;
      var covered := Merge(files[path].0);
      var uncovered := Merge(files[path].1);
      merged := merged[path := (covered, uncovered)];
      todo := todo - {path};
    }
  }
}
