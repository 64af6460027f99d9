/** Requests, policies, paths and summaries of mutation runs, read off what they are given. */
module PolicyLaws {
  import opened Words
  import opened Options
  import opened Text
  import opened Strings
  import opened Decimal
  import opened TextLaws
  import opened PathLaws
  import opened SourcePaths
  import opened MutationRules
  import opened MutationPlan
  import opened MutationPolicies
  import opened MutationDocuments
  import opened ChangePlanning

  // ----- paths -----

  /** The part stands between slashes, or between a slash and an end of the path. */
  ghost predicate IsPart(path: string, part: string) {
    '/' !in part && exists a, b :: Stands(path, a, part, b)
  }

  ghost predicate Stands(path: string, a: string, part: string, b: string) {
    path == a + part + b && (a == "" || a[|a| - 1] == '/') && (b == "" || b[0] == '/')
  }

  lemma PartOfTail(first: string, tail: string, part: string)
    requires '/' !in first
    ensures IsPart(first + "/" + tail, part) <==> part == first || IsPart(tail, part)
  {
    var path := first + "/" + tail;
    if part == first {
      assert Stands(path, "", part, "/" + tail);
    }
    if '/' !in part {
      if a, b :| Stands(tail, a, part, b) {
        assert path == (first + "/" + a) + part + b;
        assert Stands(path, first + "/" + a, part, b);
      }
      if a, b :| Stands(path, a, part, b) {
        if a == "" {
          FirstEnds(first, tail, part, b);
        } else {
          AfterFirst(first, tail, a, part, b);
        }
      }
    }
  }

  lemma FirstEnds(first: string, tail: string, part: string, b: string)
    requires '/' !in first && '/' !in part && first + "/" + tail == part + b && (b == "" || b[0] == '/')
    ensures part == first
  {
    var path := first + "/" + tail;
    assert path[|first|] == '/';
    assert forall i :: 0 <= i < |part| ==> path[i] == part[i] && part[i] in part;
    assert |part| <= |first|;
    assert path[|part|] == '/' by {
      assert path == part + b && b != "";
    }
    assert forall i :: 0 <= i < |first| ==> path[i] == first[i] && first[i] in first;
    assert first == path[..|first|] && part == path[..|part|];
  }

  lemma AfterFirst(first: string, tail: string, a: string, part: string, b: string)
    requires '/' !in first && a != "" && a[|a| - 1] == '/' && (b == "" || b[0] == '/')
    requires first + "/" + tail == a + part + b
    ensures |a| > |first| && Stands(tail, a[|first| + 1..], part, b)
  {
    var path := first + "/" + tail;
    assert path[|a| - 1] == a[|a| - 1];
    assert forall i :: 0 <= i < |first| ==> path[i] == first[i] && first[i] in first;
    assert |a| - 1 >= |first|;
    var n := |first| + 1;
    assert path[n..] == tail;
    assert (a + part + b)[n..] == a[n..] + part + b;
    if a[n..] != "" {
      assert a[n..][|a[n..]| - 1] == a[|a| - 1];
    }
  }

  /** Splitting a path at its slashes finds exactly the parts between them. */
  lemma {:induction false} ComponentsExactlyWhen(path: string, part: string)
    ensures part in Components(path) <==> IsPart(path, part)
  {
    hide IsPart, FindChar;
    if '/' !in path {
      assert Components(path) == [path];
      OnlyPart(path, part);
    } else {
      var at := FindChar(path, '/', 0, |path|);
      SplitsAt(path);
      assert Components(path) == [path[..at]] + Components(path[at + 1..]);
      PartOfTail(path[..at], path[at + 1..], part);
      ComponentsExactlyWhen(path[at + 1..], part);
      hide Components;
    }
  }

  lemma SplitsAt(path: string)
    requires '/' in path
    ensures var at := FindChar(path, '/', 0, |path|);
            at < |path| && '/' !in path[..at] && path == path[..at] + "/" + path[at + 1..]
  {
    hide FindChar;
    assert path[0..] == path;
    SlashIsFound(path, 0);
    FirstSlash(path, 0);
    var at := FindChar(path, '/', 0, |path|);
    assert path[0..at] == path[..at];
    assert path == path[..at] + [path[at]] + path[at + 1..];
  }

  lemma OnlyPart(path: string, part: string)
    requires '/' !in path
    ensures IsPart(path, part) <==> part == path
  {
    assert Stands(path, "", path, "");
    if '/' !in part {
      if a, b :| Stands(path, a, part, b) {
        NoSlash(path, a, part, b);
      }
    }
  }

  lemma InWhole(a: string, part: string, b: string)
    ensures forall c :: c in a + part + b <==> c in a || c in part || c in b
    ensures a != "" ==> a[|a| - 1] in a
    ensures b != "" ==> b[0] in b
  {
  }

  lemma NoSlash(path: string, a: string, part: string, b: string)
    requires '/' !in path && Stands(path, a, part, b)
    ensures part == path
  {
    InWhole(a, part, b);
  }

  lemma {:induction false} FirstSlash(path: string, at: nat)
    requires at <= |path|
    ensures var i := FindChar(path, '/', at, |path|); '/' !in path[at..i] && (i < |path| ==> path[i] == '/')
    decreases |path| - at
  {
    if at < |path| && path[at] != '/' {
      FirstSlash(path, at + 1);
      var i := FindChar(path, '/', at + 1, |path|);
      assert path[at..i] == [path[at]] + path[at + 1..i];
    }
  }

  /** A path is refused exactly when it is blank, rooted, of another platform, or has an empty or dotted part. */
  lemma UnsafePathExactlyWhen(path: string)
    ensures UnsafePath(path) <==>
              AllSpace(path) || Begins(path, "/") || (exists c :: c in path && (c == '\\' || c == ':'))
              || IsPart(path, "") || IsPart(path, ".") || IsPart(path, "..")
  {
    ComponentsExactlyWhen(path, "");
    ComponentsExactlyWhen(path, ".");
    ComponentsExactlyWhen(path, "..");
    StartsWithExactlyWhen(path, "/");
    TrimExactlyWhen(path, "");
    BlankIsSpace(path);
    hide Components, IsPart, Trim, AllSpace, IsTrimmed;
  }

  lemma BlankIsSpace(s: string)
    ensures AllSpace(s) <==> exists before, after :: IsTrimmed(s, before, "", after)
  {
    if AllSpace(s) {
      assert IsTrimmed(s, s, "", "");
    }
    if before, after :| IsTrimmed(s, before, "", after) {
      assert s == before + after;
    }
  }

  lemma StartsWithFirst(first: string, tail: string, part: string)
    requires '/' !in first && '/' !in part
    ensures part + "/" <= first + "/" + tail <==> part == first
  {
    var path := first + "/" + tail;
    if part + "/" <= path {
      var b := "/" + path[|part| + 1..];
      assert path == part + b;
      FirstEnds(first, tail, part, b);
    }
    if part == first {
      assert path == (part + "/") + tail;
    }
  }

  lemma FirstPartIs(path: string, part: string)
    requires '/' !in part
    ensures Components(path)[0] == part <==> path == part || Begins(path, part + "/")
  {
    StartsWithExactlyWhen(path, part + "/");
    hide FindChar, Begins;
    if '/' in path {
      var at := FindChar(path, '/', 0, |path|);
      SplitsAt(path);
      assert Components(path)[0] == path[..at];
      StartsWithFirst(path[..at], path[at + 1..], part);
      hide Components;
    } else {
      assert '/' in part + "/" && (part + "/" <= path ==> forall c :: c in part + "/" ==> c in path);
    }
  }

  /** A document may name a path exactly when it is not rooted, starts at no dot, and never steps to a parent. */
  lemma SafeRelativeExactlyWhen(path: string)
    ensures SafeRelative(path) <==>
              !Begins(path, "/") && !IsPart(path, "..") && path != "." && !Begins(path, "./")
  {
    StartsWithExactlyWhen(path, "/");
    ComponentsExactlyWhen(path, "..");
    FirstPartIs(path, ".");
    assert "." + "/" == "./";
    hide Components, IsPart, Begins;
  }

  // ----- ecosystems and requested operators -----

  function Extensions(e: Ecosystem): set<string> {
    match e
    case TsJs => {"ts", "tsx", "js", "jsx", "mjs", "cjs"}
    case Go => {"go"}
    case Rust => {"rs"}
  }

  /** The extension stands after the last dot, with something before that dot. */
  ghost predicate HasExtension(name: string, stem: string, x: string) {
    name == stem + "." + x && stem != "" && '.' !in x
  }

  lemma LastOfName(name: string, stem: string, x: string)
    requires HasExtension(name, stem, x)
    ensures |name| > 1 && (x == "" <==> name[|name| - 1] == '.')
    ensures x != "" ==> x[|x| - 1] == name[|name| - 1]
  {
    assert x != "" ==> x[|x| - 1] in x;
  }

  lemma {:induction false} ExtensionExactlyWhen(name: string, x: string)
    ensures Extension(name) == Some(x) <==> exists stem :: HasExtension(name, stem, x)
  {
    var n := |name| - 1;
    if |name| <= 1 {
      assert forall stem :: stem != "" ==> |stem + "." + x| > 1;
    } else if name[n] == '.' {
      if x == "" {
        assert name == name[..n] + "." + x;
        assert HasExtension(name, name[..n], x);
      } else if stem :| HasExtension(name, stem, x) {
        LastOfName(name, stem, x);
      }
    } else if x == "" {
      if stem :| HasExtension(name, stem, x) {
        LastOfName(name, stem, x);
      }
    } else {
      var m := |x| - 1;
      ExtensionExactlyWhen(name[..n], x[..m]);
      assert name == name[..n] + [name[n]] && x == x[..m] + [x[m]];
      assert Extension(name) == Some(x) <==> Extension(name[..n]) == Some(x[..m]) && x[m] == name[n];
      hide HasExtension, Extension;
      if stem :| HasExtension(name[..n], stem, x[..m]) {
        LongerName(name[..n], stem, x[..m], name[n]);
      }
      if stem :| HasExtension(name, stem, x) {
        LastOfName(name, stem, x);
        LongerName(name[..n], stem, x[..m], name[n]);
      }
    }
  }

  lemma LongerName(name: string, stem: string, x: string, c: char)
    requires c != '.'
    ensures HasExtension(name + [c], stem, x + [c]) <==> HasExtension(name, stem, x)
  {
    assert stem + "." + (x + [c]) == stem + "." + x + [c];
    assert name + [c] == stem + "." + x + [c] ==> (name + [c])[..|name|] == (stem + "." + x + [c])[..|stem + "." + x|];
  }

  /** The ecosystem of a file is told by its extension, in any case. */
  lemma EcosystemExactlyWhen(path: string, dir: string, name: string, e: Ecosystem)
    requires PathLaws.Names(path, dir, name)
    ensures EcosystemOf(path) == Some(e) <==>
              exists stem, x, low :: HasExtension(name, stem, x) && IsLower(x, low) && low in Extensions(e)
  {
    FileNameExactlyWhen(path, name);
    var x := Extension(name);
    assert EcosystemOf(path) == Some(e) <==> x.Some? && Lower(x.value) in Extensions(e) by {
      hide Extension, FileName, Lower, PathLaws.Names, HasExtension, IsLower;
    }
    hide HasExtension, Extension, FileName, IsLower, PathLaws.Names, EcosystemOf, Extensions, Lower;
    forall y, low ensures (x == Some(y) && low == Lower(y))
                     <==> exists stem :: HasExtension(name, stem, y) && IsLower(y, low) {
      ExtensionExactlyWhen(name, y);
      LowerExactlyWhen(y, low);
    }
    if EcosystemOf(path) == Some(e) {
      var stem :| HasExtension(name, stem, x.value) && IsLower(x.value, Lower(x.value));
    }
    if stem, y, low :| HasExtension(name, stem, y) && IsLower(y, low) && low in Extensions(e) {
      assert x == Some(y) && low == Lower(y);
    }
  }

  const TEST_PARTS := ["/tests/", "/benches/", "/examples/", ".test.", ".spec.", ".stories."]

  /** A changed file is left alone exactly when its path has a test ending or test part, in any case. */
  lemma LooksLikeTestExactlyWhen(path: string, low: string)
    requires IsLower(path, low)
    ensures LooksLikeTest(path) <==>
              Ends(low, "_test.go") || Ends(low, "/tests.rs") || exists i :: 0 <= i < 6 && Holds(low, TEST_PARTS[i])
  {
    LowerExactlyWhen(path, low);
    EndsWithExactlyWhen(low, "_test.go");
    EndsWithExactlyWhen(low, "/tests.rs");
    forall i | 0 <= i < 6 ensures Contains(low, TEST_PARTS[i]) <==> Holds(low, TEST_PARTS[i]) {
      ContainsExactlyWhen(low, TEST_PARTS[i]);
    }
    hide Contains, Holds, EndsWith, Ends, Lower, IsLower;
    assert TEST_PARTS[0] == "/tests/" && TEST_PARTS[1] == "/benches/" && TEST_PARTS[2] == "/examples/";
    assert TEST_PARTS[3] == ".test." && TEST_PARTS[4] == ".spec." && TEST_PARTS[5] == ".stories.";
  }

  /** Requested are the operators that some given word spells; none given requests the whole catalogue. */
  lemma RequestedExactlyWhen(e: Ecosystem, operators: seq<string>, op: string)
    ensures op in Requested(e, operators) <==>
              if operators == [] then op in Catalogue(e) else exists raw :: raw in operators && Spells(raw, op)
  {
    hide Spells, Catalogue, Lower, Trim;
    forall raw ensures Lower(Trim(raw)) == op <==> Spells(raw, op) {
      SpellsExactlyWhen(raw, op);
    }
  }

  // ----- who may judge -----

  /** A scenario names an operator of some catalogue when one of its hints spells it. */
  lemma NamesExactlyWhen(s: Scenario, op: string)
    ensures MutationPolicies.Names(s, op) <==>
              s.hints.Some? && (exists e :: op in Catalogue(e))
              && exists raw :: raw in s.hints.value && Spells(raw, op)
  {
    hide Spells, Catalogue, Lower, Trim;
    forall raw ensures OperatorToken(raw) == op <==> Spells(raw, op) {
      SpellsExactlyWhen(raw, op);
    }
    if e :| op in Catalogue(e) {
      assert e == TsJs || e == Go || e == Rust;
    }
  }

  /** An obligation may judge exactly what a scenario of it asks for: everything, or this operator. */
  lemma JudgesExactlyWhen(p: MutationPolicy, scenarios: seq<Scenario>, e: Ecosystem, op: string, o: string)
    requires IsPolicyOf(p, scenarios)
    ensures o in ObligationsFor(p, e, op) <==>
              || (op in Catalogue(e)
                  && exists s :: s in scenarios && o in s.obligations && s.hints == Some([]))
              || exists s :: s in scenarios && o in s.obligations && MutationPolicies.Names(s, op)
  {
    hide MutationPolicies.Names, Catalogue;
    assert AsksForAll(scenarios, o) <==> exists s :: s in scenarios && o in s.obligations && s.hints == Some([]);
    assert forall s :: MutationPolicies.Names(s, op) ==> s.hints.Some? by { NamesHints(op); }
    assert AsksForOperator(scenarios, o, op) <==>
           exists s :: s in scenarios && o in s.obligations && MutationPolicies.Names(s, op);
    assert AsksForAll(scenarios, o) || AsksForOperator(scenarios, o, op) ==> AsksFor(scenarios, o);
  }

  lemma NamesHints(op: string)
    ensures forall s :: MutationPolicies.Names(s, op) ==> s.hints.Some?
  {
  }

  // ----- what a document reports -----

  /** The places of the results of an obligation with a status. */
  function Places(results: seq<MutationResultRecord>, obligation: string, status: Status): set<nat> {
    set i: nat | i < |results| && results[i].obligation == obligation && results[i].status == status
  }

  lemma CountGrows(results: seq<MutationResultRecord>, r: MutationResultRecord, status: Status)
    ensures Count(results + [r], status) == Count(results, status) + if r.status == status then 1 else 0
  {
    assert (results + [r])[..|results|] == results;
  }

  lemma PlacesGrow(results: seq<MutationResultRecord>, r: MutationResultRecord, obligation: string, status: Status)
    ensures |Places(results + [r], obligation, status)| == |Places(results, obligation, status)|
            + if r.obligation == obligation && r.status == status then 1 else 0
  {
    var here, there := Places(results + [r], obligation, status), Places(results, obligation, status);
    if r.obligation == obligation && r.status == status {
      assert here == there + {|results|};
    } else {
      assert here == there;
    }
  }

  lemma {:induction false} AboutCounts(results: seq<MutationResultRecord>, obligation: string, status: Status)
    ensures Count(About(results, obligation), status) == |Places(results, obligation, status)|
    ensures About(results, obligation) == [] <==> forall r :: r in results ==> r.obligation != obligation
  {
    hide Places, Count;
    if results == [] {
      NothingCounted(obligation, status);
    } else {
      var n := |results| - 1;
      var last, front := results[n], results[..n];
      AboutCounts(front, obligation, status);
      assert results == front + [last];
      PlacesGrow(front, last, obligation, status);
      CountGrows(About(front, obligation), last, status);
      assert About(front, obligation) + [] == About(front, obligation);
    }
  }

  lemma NothingCounted(obligation: string, status: Status)
    ensures |Places([], obligation, status)| == 0 && Count([], status) == 0
  {
    assert Places([], obligation, status) == {};
  }

  /** The places of the results with a status. */
  function PlacesOf(results: seq<MutationResultRecord>, status: Status): set<nat> {
    set i: nat | i < |results| && results[i].status == status
  }

  lemma PlacesOfGrow(results: seq<MutationResultRecord>, r: MutationResultRecord, status: Status)
    ensures |PlacesOf(results + [r], status)| == |PlacesOf(results, status)| + if r.status == status then 1 else 0
  {
    var here, there := PlacesOf(results + [r], status), PlacesOf(results, status);
    if r.status == status {
      assert here == there + {|results|};
    } else {
      assert here == there;
    }
  }

  /** The counters of a document count the results of each status. */
  lemma {:induction false} CountIsSize(results: seq<MutationResultRecord>, status: Status)
    ensures Count(results, status) == |set i: nat | i < |results| && results[i].status == status|
  {
    if results == [] {
      assert PlacesOf(results, status) == {};
    } else {
      var n := |results| - 1;
      CountIsSize(results[..n], status);
      PlacesOfGrow(results[..n], results[n], status);
      assert results == results[..n] + [results[n]];
      assert Count(results[..n], status) == |PlacesOf(results[..n], status)|;
      assert Count(results, status) == |PlacesOf(results, status)|;
    }
  }

  /** A summary counts the results of its obligation; without any it is unmeasured. */
  lemma SummaryExactlyWhen(d: MutationRunDocument, o: string)
    ensures SummaryFor(d, o).Some? <==>
              o in d.obligations && (o in d.applicable || (d.planned > 0 && d.applicable == []))
    ensures SummaryFor(d, o).Some? && o in d.applicable ==>
              var s := SummaryFor(d, o).value;
              && s.killed == Clamp(|Places(d.results, o, Killed)|)
              && s.survived == Clamp(|Places(d.results, o, Survived)|)
              && s.invalid == Clamp(|Places(d.results, o, Invalid)|)
              && (s.unmeasured <==> forall r :: r in d.results ==> r.obligation != o)
    ensures SummaryFor(d, o).Some? && o !in d.applicable ==> SummaryFor(d, o).value == MutationSummary(0, 0, 0, true)
  {
    AboutCounts(d.results, o, Killed);
    AboutCounts(d.results, o, Survived);
    AboutCounts(d.results, o, Invalid);
    hide Count, About, Places;
  }

  /** Some result has the status. */
  ghost predicate HasResult(d: MutationRunDocument, status: Status) {
    exists r :: r in d.results && r.status == status
  }

  lemma {:induction false} CountIsPositive(results: seq<MutationResultRecord>, status: Status)
    ensures Count(results, status) > 0 <==> exists r :: r in results && r.status == status
  {
    if results != [] {
      var n := |results| - 1;
      CountIsPositive(results[..n], status);
      assert results == results[..n] + [results[n]];
      assert forall r :: r in results <==> r in results[..n] || r == results[n];
    }
  }

  /**
   * At most one state fits a document: measured with a killed or surviving mutant, unmeasured when nothing was
   * planned for its obligations or the only results are invalid, not applicable when there is nothing at all.
   */
  lemma StateExactlyWhen(d: MutationRunDocument)
    ensures ValidState(d) <==>
              if HasResult(d, Killed) || HasResult(d, Survived) then d.state.Measured? && d.planned > 0
              else if d.applicable == []
                   then d.results == [] && d.state == (if d.planned == 0 then NotApplicable else Unmeasured)
                   else d.state.Unmeasured? && (d.planned == 0 || HasResult(d, Invalid))
  {
    CountIsPositive(d.results, Killed);
    CountIsPositive(d.results, Survived);
    CountIsPositive(d.results, Invalid);
    hide Count;
  }
}
