/** Judging planned mutants one by one in an isolated workspace. */
module MutationRun {
  import opened Words
  import opened Options
  import opened Text
  import opened Sorting
  import opened Listings
  import opened Lcov
  import opened SourcePaths
  import opened BindingReach
  import opened MutationRules
  import opened MutationPlan
  import opened MutationPolicies
  import opened MutationDocuments

  const MAX_DECISIONS: nat := 128

  /** The implementation nodes one obligation claims. */
  datatype Surface = Surface(obligation: string, nodes: seq<string>)

  type Verdict = s: Status | !s.OtherStatus? witness Killed

  /** Runs the judging tests of an obligation in a workspace; its verdict is an input of the model. */
  type Judge = (map<string, string>, SourceMutant, string) -> Verdict

  /** One surface per obligation, in order. */
  ghost predicate ValidSurfaces(surfaces: seq<Surface>) {
    forall i, j :: 0 <= i < j < |surfaces| ==> Text.Before(surfaces[i].obligation, surfaces[j].obligation)
  }

  predicate Claims(s: Surface, path: string) {
    var normal := Slashes(path);
    exists id :: id in s.nodes
        && ((UpTo(WithoutScheme(id), '#') != "" && Slashes(UpTo(WithoutScheme(id), '#')) == normal) || id == normal)
  }

  /** Candidates that own the path; nobody else may judge a mutant on it. */
  function Owners(surfaces: seq<Surface>, path: string, candidates: set<string>): seq<string> {
    if surfaces == [] then []
    else
      var s := surfaces[|surfaces| - 1];
      Owners(surfaces[..|surfaces| - 1], path, candidates)
      + if s.obligation in candidates && Claims(s, path) then [s.obligation] else []
  }

  /** Exactly the candidates whose surface claims the path. */
  lemma {:induction false} OwnersAreCandidates(surfaces: seq<Surface>, path: string, candidates: set<string>)
    ensures forall o :: o in Owners(surfaces, path, candidates) <==>
                          o in candidates && exists s :: s in surfaces && s.obligation == o && Claims(s, path)
  {
    hide Claims;
    if surfaces != [] {
      var n := |surfaces| - 1;
      OwnersAreCandidates(surfaces[..n], path, candidates);
      assert surfaces == surfaces[..n] + [surfaces[n]];
    }
  }

  ghost predicate AllDifferent<T>(items: seq<T>) {
    forall i, j :: 0 <= i < j < |items| ==> items[i] != items[j]
  }

  lemma OneMoreDifferent<T>(items: seq<T>, x: T)
    requires AllDifferent(items)
    ensures AllDifferent(items + [x]) <==> x !in items
  {
    var more := items + [x];
    if x in items {
      var i :| 0 <= i < |items| && items[i] == x;
      assert more[i] == more[|items|];
    }
  }

  lemma EarlierSurfacesDiffer(surfaces: seq<Surface>, path: string, candidates: set<string>)
    requires ValidSurfaces(surfaces) && surfaces != []
    ensures surfaces[|surfaces| - 1].obligation !in Owners(surfaces[..|surfaces| - 1], path, candidates)
  {
    hide Claims, Owners, Text.Before;
    var n := |surfaces| - 1;
    OwnersAreCandidates(surfaces[..n], path, candidates);
    BeforeIsStrictOrder();
    forall s | s in surfaces[..n] ensures s.obligation != surfaces[n].obligation {
      var i :| 0 <= i < n && surfaces[i] == s;
      assert Text.Before(surfaces[i].obligation, surfaces[n].obligation);
    }
  }

  lemma {:induction false} OwnersAreDistinct(surfaces: seq<Surface>, path: string, candidates: set<string>)
    requires ValidSurfaces(surfaces)
    ensures AllDifferent(Owners(surfaces, path, candidates))
  {
    hide Claims, AllDifferent;
    if surfaces == [] {
      assert AllDifferent<string>([]) by { NothingDiffers(); }
    } else {
      var n := |surfaces| - 1;
      OwnersAreDistinct(surfaces[..n], path, candidates);
      EarlierSurfacesDiffer(surfaces, path, candidates);
      OneMoreDifferent(Owners(surfaces[..n], path, candidates), surfaces[n].obligation);
      hide ValidSurfaces;
      assert Owners(surfaces[..n], path, candidates) + [] == Owners(surfaces[..n], path, candidates);
    }
  }

  lemma NothingDiffers()
    ensures AllDifferent<string>([])
  {
  }

  function JudgesOf(surfaces: seq<Surface>, p: MutationPolicy, m: SourceMutant): seq<string> {
    Owners(surfaces, m.path, ObligationsFor(p, m.ecosystem, m.operator))
  }

  // ----- the decisions of a run -----

  function RecordOf(m: SourceMutant, obligation: string, status: Status): MutationResultRecord {
    MutationResultRecord(DecisionId(m.id, obligation), Known(m.ecosystem), m.operator, m.path, m.line, m.column, status,
                         obligation)
  }

  /** The overlay with exactly this mutant applied. */
  function Mutated(overlay: map<string, string>, m: SourceMutant): map<string, string> {
    if m.path in overlay && m.Apply(overlay[m.path]).Ok? then overlay[m.path := m.Apply(overlay[m.path]).value]
        else overlay
  }

  function RecordsFor(m: SourceMutant, owners: seq<string>, overlay: map<string, string>,
                      judge: Judge): seq<MutationResultRecord> {
    seq(|owners|, i requires 0 <= i < |owners| => RecordOf(m, owners[i], judge(Mutated(overlay, m), m, owners[i])))
  }

  lemma RecordAt(m: SourceMutant, owners: seq<string>, overlay: map<string, string>, judge: Judge, i: nat)
    requires i < |owners|
    ensures RecordsFor(m, owners, overlay, judge)[i] == RecordOf(m, owners[i], judge(Mutated(overlay, m), m, owners[i]))
  {
  }

  /** Every decision an unlimited run would make: each mutant judged alone, for each of its owners. */
  function AllRecords(planned: seq<SourceMutant>, surfaces: seq<Surface>, p: MutationPolicy,
                      overlay: map<string, string>, judge: Judge)
    : seq<MutationResultRecord>
  {
    if planned == [] then []
    else
      var n := |planned| - 1;
      AllRecords(planned[..n], surfaces, p, overlay, judge)
          + RecordsFor(planned[n], JudgesOf(surfaces, p, planned[n]), overlay, judge)
  }

  lemma {:induction false} EarlierRecordsComeFirst(planned: seq<SourceMutant>, i: nat, surfaces: seq<Surface>,
                                                   p: MutationPolicy,
                                                   overlay: map<string, string>, judge: Judge)
    requires i <= |planned|
    ensures AllRecords(planned[..i], surfaces, p, overlay, judge) <= AllRecords(planned, surfaces, p, overlay, judge)
    decreases |planned|
  {
    hide RecordsFor;
    if i < |planned| {
      var n := |planned| - 1;
      EarlierRecordsComeFirst(planned[..n], i, surfaces, p, overlay, judge);
      assert planned[..n][..i] == planned[..i];
    } else {
      assert planned[..i] == planned;
    }
  }

  /** The mutant can be applied to the workspace it is judged in. */
  ghost predicate Applies(overlay: map<string, string>, m: SourceMutant) {
    m.path in overlay && m.Apply(overlay[m.path]).Ok?
  }

  // ----- what the clock allows -----

  /** No clock reading of the interval is past the deadline. */
  ghost predicate OnTime(clock: nat -> bool, from: nat, to: nat) {
    forall k :: from <= k < to ==> !clock(k)
  }

  /** Reading n is the first one past the deadline. */
  ghost predicate FirstLate(clock: nat -> bool, n: nat) {
    clock(n) && OnTime(clock, 0, n)
  }

  /** How many decisions a run without ceilings makes. */
  function Owned(planned: seq<SourceMutant>, surfaces: seq<Surface>, p: MutationPolicy): nat {
    if planned == [] then 0
    else
      var n := |planned| - 1;
      Owned(planned[..n], surfaces, p) + |JudgesOf(surfaces, p, planned[n])|
  }

  /** How often the clock is read: once for each mutant and once for each of its owners. */
  function Readings(planned: seq<SourceMutant>, surfaces: seq<Surface>, p: MutationPolicy): nat {
    |planned| + Owned(planned, surfaces, p)
  }

  /** How many decisions are made before reading n. */
  function DecisionsBy(planned: seq<SourceMutant>, surfaces: seq<Surface>, p: MutationPolicy, n: nat): nat {
    if planned == [] then 0
    else
      var last := |planned| - 1;
      var before := Readings(planned[..last], surfaces, p);
      if n <= before then DecisionsBy(planned[..last], surfaces, p, n)
      else Owned(planned[..last], surfaces, p) + Min(n - before - 1, |JudgesOf(surfaces, p, planned[last])|)
  }

  lemma {:induction false} OwnedIsAll(planned: seq<SourceMutant>, surfaces: seq<Surface>, p: MutationPolicy,
                                      overlay: map<string, string>, judge: Judge)
    ensures |AllRecords(planned, surfaces, p, overlay, judge)| == Owned(planned, surfaces, p)
  {
    hide JudgesOf;
    if planned != [] {
      OwnedIsAll(planned[..|planned| - 1], surfaces, p, overlay, judge);
    }
  }

  lemma {:induction false} AllReadingsAllow(planned: seq<SourceMutant>, surfaces: seq<Surface>, p: MutationPolicy,
                                            n: nat)
    requires n >= Readings(planned, surfaces, p)
    ensures DecisionsBy(planned, surfaces, p, n) == Owned(planned, surfaces, p)
  {
    hide JudgesOf;
  }

  /** Later mutants do not change what the earlier readings allow. */
  lemma {:induction false} EarlierReadings(planned: seq<SourceMutant>, i: nat, surfaces: seq<Surface>,
                                           p: MutationPolicy, n: nat)
    requires i <= |planned| && n <= Readings(planned[..i], surfaces, p)
    ensures DecisionsBy(planned, surfaces, p, n) == DecisionsBy(planned[..i], surfaces, p, n)
    ensures Readings(planned[..i], surfaces, p) <= Readings(planned, surfaces, p)
    decreases |planned|
  {
    hide JudgesOf;
    if i < |planned| {
      var last := |planned| - 1;
      assert planned[..last][..i] == planned[..i];
      EarlierReadings(planned[..last], i, surfaces, p, n);
    } else {
      assert planned[..i] == planned;
    }
  }

  lemma {:induction false} DecisionsGrow(planned: seq<SourceMutant>, surfaces: seq<Surface>, p: MutationPolicy, n: nat,
                                         later: nat)
    requires n <= later
    ensures DecisionsBy(planned, surfaces, p, n) <= DecisionsBy(planned, surfaces, p, later)
  {
    hide JudgesOf;
    if planned != [] {
      var front := planned[..|planned| - 1];
      var before := Readings(front, surfaces, p);
      if n <= before {
        if later <= before {
          DecisionsGrow(front, surfaces, p, n, later);
        } else {
          DecisionsGrow(front, surfaces, p, n, before);
          AllReadingsAllow(front, surfaces, p, before);
        }
      }
    }
  }

  /** At owner j of mutant i, as many decisions were made as the readings so far allow. */
  lemma ReadingsAllow(planned: seq<SourceMutant>, i: nat, j: nat, surfaces: seq<Surface>, p: MutationPolicy)
    requires i < |planned| && j <= |JudgesOf(surfaces, p, planned[i])|
    ensures DecisionsBy(planned, surfaces, p, Readings(planned[..i], surfaces, p)) == Owned(planned[..i], surfaces, p)
    ensures DecisionsBy(planned, surfaces, p, Readings(planned[..i], surfaces, p) + 1 + j)
              == Owned(planned[..i], surfaces, p) + j
    ensures Owned(planned[..i + 1], surfaces, p) == Owned(planned[..i], surfaces, p)
              + |JudgesOf(surfaces, p, planned[i])|
  {
    hide JudgesOf;
    var before := Readings(planned[..i], surfaces, p);
    assert planned[..i + 1][..i] == planned[..i];
    EarlierReadings(planned, i, surfaces, p, before);
    AllReadingsAllow(planned[..i], surfaces, p, before);
    EarlierReadings(planned, i + 1, surfaces, p, before + 1 + j);
  }

  /** The length of a run in terms of its clock. */
  ghost predicate StopsInTime(count: nat, planned: seq<SourceMutant>, surfaces: seq<Surface>, p: MutationPolicy,
                              clock: nat -> bool) {
    && ((forall k :: !clock(k)) ==> count == Min(Owned(planned, surfaces, p), MAX_DECISIONS))
    && (forall n :: FirstLate(clock, n) ==> count == Min(DecisionsBy(planned, surfaces, p, n), MAX_DECISIONS))
  }

  /** A run that stops at a late reading has made the decisions before it. */
  lemma LateStop(planned: seq<SourceMutant>, surfaces: seq<Surface>, p: MutationPolicy, clock: nat -> bool, n: nat,
                 count: nat)
    requires FirstLate(clock, n) && count == DecisionsBy(planned, surfaces, p, n) <= MAX_DECISIONS
    ensures StopsInTime(count, planned, surfaces, p, clock)
  {
    forall k: nat | FirstLate(clock, k) ensures k == n {
      assert k < n ==> clock(k);
      assert n < k ==> clock(n);
    }
  }

  /** A run that stops at the decision ceiling is as long as any clock allows. */
  lemma FullStop(planned: seq<SourceMutant>, surfaces: seq<Surface>, p: MutationPolicy, clock: nat -> bool, n: nat)
    requires OnTime(clock, 0, n + 1) && DecisionsBy(planned, surfaces, p, n) == MAX_DECISIONS
    ensures StopsInTime(MAX_DECISIONS, planned, surfaces, p, clock)
  {
    var all := Readings(planned, surfaces, p);
    forall late: nat | FirstLate(clock, late) ensures DecisionsBy(planned, surfaces, p, late) >= MAX_DECISIONS {
      assert late >= n;
      DecisionsGrow(planned, surfaces, p, n, late);
    }
    DecisionsGrow(planned, surfaces, p, n, n + all);
    AllReadingsAllow(planned, surfaces, p, n + all);
  }

  /** A run that is never stopped judges everything. */
  lemma NoStop(planned: seq<SourceMutant>, surfaces: seq<Surface>, p: MutationPolicy, clock: nat -> bool)
    requires OnTime(clock, 0, Readings(planned, surfaces, p)) && Owned(planned, surfaces, p) <= MAX_DECISIONS
    ensures StopsInTime(Owned(planned, surfaces, p), planned, surfaces, p, clock)
  {
    forall late: nat | FirstLate(clock, late)
      ensures DecisionsBy(planned, surfaces, p, late) == Owned(planned, surfaces, p)
    {
      assert late >= Readings(planned, surfaces, p);
      AllReadingsAllow(planned, surfaces, p, late);
    }
  }

  // ----- what a decision is about -----

  /** The verdict of an obligation on the text with this one mutant spliced in, and where the mutant came from. */
  ghost predicate IsDecision(r: MutationResultRecord, m: SourceMutant, o: string, overlay: map<string, string>,
                             judge: Judge) {
    && m.path in overlay && m.start <= m.end <= |overlay[m.path]| && overlay[m.path][m.start..m.end] == m.original
    && r.status == judge(overlay[m.path := overlay[m.path][..m.start] + m.replacement + overlay[m.path][m.end..]], m, o)
    && r.id == DecisionId(m.id, o) && r.obligation == o
    && r.ecosystem == Known(m.ecosystem) && r.operator == m.operator
    && r.path == m.path && r.line == m.line && r.column == m.column
  }

  /** Some planned mutant was judged by one of its owners. */
  ghost predicate IsJudged(r: MutationResultRecord, planned: seq<SourceMutant>, surfaces: seq<Surface>,
                           p: MutationPolicy, overlay: map<string, string>, judge: Judge) {
    exists m, o :: m in planned && o in JudgesOf(surfaces, p, m) && IsDecision(r, m, o, overlay, judge)
  }

  lemma RecordsAreDecisions(m: SourceMutant, owners: seq<string>, overlay: map<string, string>, judge: Judge,
                            r: MutationResultRecord)
    requires Applies(overlay, m) && r in RecordsFor(m, owners, overlay, judge)
    ensures exists o :: o in owners && IsDecision(r, m, o, overlay, judge)
  {
    var i :| 0 <= i < |owners| && RecordsFor(m, owners, overlay, judge)[i] == r;
    RecordAt(m, owners, overlay, judge, i);
    assert owners[i] in owners && IsDecision(r, m, owners[i], overlay, judge);
  }

  lemma OwnersAreJudged(planned: seq<SourceMutant>, i: nat, surfaces: seq<Surface>, p: MutationPolicy,
                        overlay: map<string, string>, judge: Judge,
                        before: seq<MutationResultRecord>, results: seq<MutationResultRecord>)
    requires i < |planned| && Applies(overlay, planned[i])
    requires forall r :: r in before ==> IsJudged(r, planned, surfaces, p, overlay, judge)
    requires results <= before + RecordsFor(planned[i], JudgesOf(surfaces, p, planned[i]), overlay, judge)
    ensures forall r :: r in results ==> IsJudged(r, planned, surfaces, p, overlay, judge)
  {
    hide JudgesOf, RecordsFor, IsDecision, Applies;
    var m := planned[i];
    forall r | r in results ensures IsJudged(r, planned, surfaces, p, overlay, judge) {
      if r !in before {
        assert r in RecordsFor(m, JudgesOf(surfaces, p, m), overlay, judge);
        RecordsAreDecisions(m, JudgesOf(surfaces, p, m), overlay, judge, r);
      }
    }
  }

  // ----- the judging loop -----

  /** Judges one mutant for each owner, until a ceiling is met. */
  method JudgeOwners(m: SourceMutant, owners: seq<string>, workspace: map<string, string>, judge: Judge,
                     clock: nat -> bool, reading: nat, before: seq<MutationResultRecord>,
                     ghost overlay: map<string, string>)
    returns (results: seq<MutationResultRecord>, stopped: bool, next: nat)
    requires |before| <= MAX_DECISIONS && workspace == Mutated(overlay, m)
    ensures before <= results <= before + RecordsFor(m, owners, overlay, judge) && |results| <= MAX_DECISIONS
    ensures if stopped
            then reading < next && |results| == |before| + (next - 1 - reading) < |before| + |owners|
                 && OnTime(clock, reading, next - 1) && (clock(next - 1) || |results| == MAX_DECISIONS)
            else results == before + RecordsFor(m, owners, overlay, judge) && next == reading + |owners|
                 && OnTime(clock, reading, next)
  {
    hide Mutated, RecordOf;
    results, stopped, next := before, false, reading;
    for k := 0 to |owners|
      invariant next == reading + k && OnTime(clock, reading, next) && |results| <= MAX_DECISIONS
      invariant results == before + RecordsFor(m, owners, overlay, judge)[..k]
    {
      var late := clock(next);
      next := next + 1;
      if late || |results| >= MAX_DECISIONS {
        stopped := true;
        return;
      }
      results := results + [RecordOf(m, owners[k], judge(workspace, m, owners[k]))];
    }
  }

  /** The workspace is the overlay at the head of every turn, and in the end; each mutant is judged alone in it. */
  method JudgeMutants(planned: seq<SourceMutant>, surfaces: seq<Surface>, p: MutationPolicy,
                      overlay: map<string, string>,
                      judge: Judge, clock: nat -> bool)
    returns (r: Result<seq<MutationResultRecord>, ()>, workspace: map<string, string>)
    ensures workspace == overlay
    ensures r.Ok? ==> r.value <= AllRecords(planned, surfaces, p, overlay, judge) && |r.value| <= MAX_DECISIONS
    ensures r.Ok? ==> StopsInTime(|r.value|, planned, surfaces, p, clock)
    ensures r.Ok? ==> forall x :: x in r.value ==> IsJudged(x, planned, surfaces, p, overlay, judge)
    ensures (forall m :: m in planned ==> JudgesOf(surfaces, p, m) == [] || Applies(overlay, m)) ==> r.Ok?
  {
    hide RecordsFor, JudgesOf, DecisionsBy, StopsInTime, IsJudged;
    workspace := overlay;
    var results: seq<MutationResultRecord>, reading: nat := [], 0;
    for i := 0 to |planned|
      invariant workspace == overlay && |results| <= MAX_DECISIONS
      invariant results == AllRecords(planned[..i], surfaces, p, overlay, judge)
      invariant forall x :: x in results ==> IsJudged(x, planned, surfaces, p, overlay, judge)
      invariant reading == Readings(planned[..i], surfaces, p) && OnTime(clock, 0, reading)
    {
      var m := planned[i];
      EarlierRecordsComeFirst(planned, i, surfaces, p, overlay, judge);
      EarlierRecordsComeFirst(planned, i + 1, surfaces, p, overlay, judge);
      assert planned[..i + 1][..i] == planned[..i];
      OwnedIsAll(planned[..i], surfaces, p, overlay, judge);
      var late := clock(reading);
      if late {
        ReadingsAllow(planned, i, 0, surfaces, p);
        LateStop(planned, surfaces, p, clock, reading, |results|);
        return Ok(results), workspace;
      }
      reading := reading + 1;
      var owners := JudgesOf(surfaces, p, m);
      ReadingsAllow(planned, i, 0, surfaces, p);
      if owners == [] {
        NoOwners(m, overlay, judge);
      } else {
        if m.path !in workspace { return Err(()), workspace; }
        var original := workspace[m.path];
        var mutated := m.Apply(original);
        if mutated.Err? { return Err(()), workspace; }
        workspace := workspace[m.path := mutated.value];
        var stopped;
        ghost var before := results;
        results, stopped, reading := JudgeOwners(m, owners, workspace, judge, clock, reading, results, overlay);
        OwnersAreJudged(planned, i, surfaces, p, overlay, judge, before, results);
        workspace := workspace[m.path := original];
        if stopped {
          Stopped(planned, i, surfaces, p, clock, reading, |results|);
          return Ok(results), workspace;
        }
      }
    }
    assert planned[..|planned|] == planned;
    OwnedIsAll(planned, surfaces, p, overlay, judge);
    NoStop(planned, surfaces, p, clock);
    r := Ok(results);
  }

  /** A stop among the owners of mutant i leaves what the clock or the ceiling allows. */
  lemma Stopped(planned: seq<SourceMutant>, i: nat, surfaces: seq<Surface>, p: MutationPolicy, clock: nat -> bool,
                next: nat, count: nat)
    requires i < |planned| && Readings(planned[..i], surfaces, p) + 1 < next && OnTime(clock, 0, next - 1)
    requires count == Owned(planned[..i], surfaces, p) + (next - 2 - Readings(planned[..i], surfaces, p))
    requires count < Owned(planned[..i], surfaces, p) + |JudgesOf(surfaces, p, planned[i])| && count <= MAX_DECISIONS
    requires clock(next - 1) || count == MAX_DECISIONS
    ensures StopsInTime(count, planned, surfaces, p, clock)
  {
    hide JudgesOf, DecisionsBy, StopsInTime, Readings, Owned;
    ReadingsAllow(planned, i, next - 2 - Readings(planned[..i], surfaces, p), surfaces, p);
    if clock(next - 1) {
      LateStop(planned, surfaces, p, clock, next - 1, count);
    } else {
      FullStop(planned, surfaces, p, clock, next - 1);
    }
  }

  lemma NoOwners(m: SourceMutant, overlay: map<string, string>, judge: Judge)
    ensures RecordsFor(m, [], overlay, judge) == []
  {
  }

  // ----- the document of a run -----

  ghost predicate IsApplicable(planned: seq<SourceMutant>, surfaces: seq<Surface>, p: MutationPolicy, o: string) {
    exists m :: m in planned && o in JudgesOf(surfaces, p, m)
  }

  /** Every obligation that owns some planned mutant, in order. */
  method Applicable(planned: seq<SourceMutant>, surfaces: seq<Surface>, p: MutationPolicy)
    returns (obligations: seq<string>)
    ensures Ascending(obligations, Text.Before)
    ensures forall o :: o in obligations <==> IsApplicable(planned, surfaces, p, o)
  {
    hide JudgesOf;
    var owned: set<string> := {};
    for i := 0 to |planned|
      invariant forall o :: o in owned <==> IsApplicable(planned[..i], surfaces, p, o)
    {
      var owners := JudgesOf(surfaces, p, planned[i]);
      assert planned[..i + 1] == planned[..i] + [planned[i]];
      assert forall m :: m in planned[..i + 1] <==> m in planned[..i] || m == planned[i];
      owned := owned + set o | o in owners;
    }
    assert planned[..|planned|] == planned;
    obligations := Listing(owned);
  }

  /** What the document says about its results. */
  ghost predicate Reports(d: MutationRunDocument, planned: seq<SourceMutant>) {
    && d.planned == Clamp(|planned|) && d.llmTokens == 0
    && RightCounters(d)
    && d.state == if planned == [] then NotApplicable else if Count(d.results, Invalid) == |d.results| then Unmeasured
        else Measured
  }

  /** The document of a run: what it lists, and how far the clock let it come. */
  ghost predicate IsProduced(d: MutationRunDocument, planned: seq<SourceMutant>, surfaces: seq<Surface>,
                             p: MutationPolicy,
                             overlay: map<string, string>, judge: Judge, clock: nat -> bool) {
    && Lists(d.obligations, p.obligations) && Reports(d, planned)
    && Ascending(d.applicable, Text.Before)
        && (forall o :: o in d.applicable <==> IsApplicable(planned, surfaces, p, o))
    && d.results <= AllRecords(planned, surfaces, p, overlay, judge) && |d.results| <= MAX_DECISIONS
    && StopsInTime(|d.results|, planned, surfaces, p, clock)
    && (forall r :: r in d.results ==> IsJudged(r, planned, surfaces, p, overlay, judge))
  }

  method ExecuteSourceMutation(planned: seq<SourceMutant>, surfaces: seq<Surface>, p: MutationPolicy,
                               overlay: map<string, string>,
                               judge: Judge, clock: nat -> bool)
    returns (r: Result<MutationRunDocument, ()>, workspace: map<string, string>)
    ensures workspace == overlay
    ensures r.Ok? ==> IsProduced(r.value, planned, surfaces, p, overlay, judge, clock)
    ensures r.Ok? ==> (r.value.results == [] <==> NothingIsJudged(planned, surfaces, p, clock))
    ensures r.Ok? ==> forall x :: x in r.value.results ==> IsJudged(x, planned, surfaces, p, overlay, judge)
    ensures (forall m :: m in planned ==> JudgesOf(surfaces, p, m) == [] || Applies(overlay, m)) ==> r.Ok?
  {
    hide JudgesOf, Applies, RecordsFor, Ascending, Text.Before, StopsInTime, NothingIsJudged, IsJudged;
    var obligations := Listing(p.obligations);
    workspace := overlay;
    if planned == [] {
      NothingToJudge(surfaces, p, clock);
      return Ok(MutationRunDocument(NotApplicable, obligations, [], 0, 0, 0, 0, [], 0)), workspace;
    }
    var applicable := Applicable(planned, surfaces, p);
    var judged;
    judged, workspace := JudgeMutants(planned, surfaces, p, overlay, judge, clock);
    if judged.Err? { return Err(()), workspace; }
    var results := judged.value;
    var killed, survived, invalid := Count(results, Killed), Count(results, Survived), Count(results, Invalid);
    var state := if invalid == |results| then Unmeasured else Measured;
    r := Ok(MutationRunDocument(state, obligations, applicable, Clamp(|planned|), Clamp(killed), Clamp(survived),
                                Clamp(invalid), results, 0));
    NothingIsJudgedExactlyWhen(|results|, planned, surfaces, p, clock);
  }

  lemma NothingToJudge(surfaces: seq<Surface>, p: MutationPolicy, clock: nat -> bool)
    ensures StopsInTime(0, [], surfaces, p, clock) && NothingIsJudged([], surfaces, p, clock)
    ensures Ascending<string>([], Text.Before)
  {
  }

  // ----- when nothing is judged -----

  /** The first mutant that some obligation owns, or the number of mutants. */
  function FirstOwned(planned: seq<SourceMutant>, surfaces: seq<Surface>, p: MutationPolicy): (f: nat)
    ensures f <= |planned| && (f < |planned| ==> JudgesOf(surfaces, p, planned[f]) != [])
    ensures forall i :: 0 <= i < f ==> JudgesOf(surfaces, p, planned[i]) == []
  {
    if planned == [] then 0
    else
      var n := |planned| - 1;
      var f := FirstOwned(planned[..n], surfaces, p);
      if f < n || JudgesOf(surfaces, p, planned[n]) != [] then f else f + 1
  }

  /**
   * No planned mutant has an owner, or the clock is late by the reading before the first owner of the
   * first owned mutant.
   */
  ghost predicate NothingIsJudged(planned: seq<SourceMutant>, surfaces: seq<Surface>, p: MutationPolicy,
                                  clock: nat -> bool) {
    var f := FirstOwned(planned, surfaces, p);
    f == |planned| || exists k :: 0 <= k <= f + 1 && clock(k)
  }

  lemma {:induction false} NothingOwned(planned: seq<SourceMutant>, surfaces: seq<Surface>, p: MutationPolicy)
    ensures Owned(planned, surfaces, p) == 0 <==>
              forall i :: 0 <= i < |planned| ==> JudgesOf(surfaces, p, planned[i]) == []
  {
    hide JudgesOf;
    if planned != [] {
      var n := |planned| - 1;
      NothingOwned(planned[..n], surfaces, p);
      assert forall i :: 0 <= i < n ==> planned[..n][i] == planned[i];
    }
  }

  /** With an owned mutant at f, the first decision follows reading f + 1. */
  lemma FirstDecision(planned: seq<SourceMutant>, surfaces: seq<Surface>, p: MutationPolicy, n: nat)
    requires FirstOwned(planned, surfaces, p) < |planned|
    ensures DecisionsBy(planned, surfaces, p, n) == 0 <==> n <= FirstOwned(planned, surfaces, p) + 1
    ensures Owned(planned, surfaces, p) > 0
  {
    hide JudgesOf, DecisionsBy;
    var f := FirstOwned(planned, surfaces, p);
    NothingOwned(planned, surfaces, p);
    NothingOwned(planned[..f], surfaces, p);
    assert |planned[..f]| == f && Readings(planned[..f], surfaces, p) == f;
    ReadingsAllow(planned, f, 0, surfaces, p);
    ReadingsAllow(planned, f, 1, surfaces, p);
    if n <= f + 1 {
      DecisionsGrow(planned, surfaces, p, n, f + 1);
    } else {
      DecisionsGrow(planned, surfaces, p, f + 2, n);
    }
  }

  /** A clock that is late by reading k has a first late reading. */
  lemma {:induction false} SomeFirstLate(clock: nat -> bool, k: nat) returns (n: nat)
    requires clock(k)
    ensures n <= k && FirstLate(clock, n)
    decreases k
  {
    if i :| 0 <= i < k && clock(i) {
      n := SomeFirstLate(clock, i);
    } else {
      n := k;
    }
  }

  /** Nothing is judged exactly when no mutant is owned or the clock is late too early. */
  lemma NothingIsJudgedExactlyWhen(count: nat, planned: seq<SourceMutant>, surfaces: seq<Surface>, p: MutationPolicy,
                                   clock: nat -> bool)
    requires StopsInTime(count, planned, surfaces, p, clock)
    ensures count == 0 <==> NothingIsJudged(planned, surfaces, p, clock)
  {
    hide JudgesOf, DecisionsBy, Owned, FirstOwned;
    var f := FirstOwned(planned, surfaces, p);
    if f == |planned| {
      NothingOwned(planned, surfaces, p);
    }
    if k: nat :| clock(k) {
      var n := SomeFirstLate(clock, k);
      if f == |planned| {
        DecisionsGrow(planned, surfaces, p, n, n + Readings(planned, surfaces, p));
        AllReadingsAllow(planned, surfaces, p, n + Readings(planned, surfaces, p));
      } else {
        FirstDecision(planned, surfaces, p, n);
        assert forall i :: 0 <= i <= f + 1 && clock(i) ==> n <= i;
      }
    } else if f < |planned| {
      FirstDecision(planned, surfaces, p, 0);
    }
  }

  // ----- producer and validator agree -----

  /** What the planner guarantees of its mutants. */
  ghost predicate WellPlanned(m: SourceMutant) {
    SafeRelative(m.path) && m.line > 0 && m.column > 0 && OperatorFor(m.ecosystem, m.operator)
  }

  ghost predicate DistinctMutants(planned: seq<SourceMutant>) {
    forall i, j :: 0 <= i < j < |planned| ==> planned[i].id != planned[j].id
  }

  /** Where a decision comes from. */
  ghost predicate Decides(planned: seq<SourceMutant>, surfaces: seq<Surface>, p: MutationPolicy,
                          r: MutationResultRecord) {
    exists m :: m in planned && r.obligation in JudgesOf(surfaces, p, m) && !r.status.OtherStatus?
        && r == RecordOf(m, r.obligation, r.status)
  }

  lemma RecordsDecide(m: SourceMutant, planned: seq<SourceMutant>, surfaces: seq<Surface>, p: MutationPolicy,
                      overlay: map<string, string>, judge: Judge, r: MutationResultRecord)
    requires m in planned && r in RecordsFor(m, JudgesOf(surfaces, p, m), overlay, judge)
    ensures Decides(planned, surfaces, p, r) && r.id.mutant == m.id
  {
    hide JudgesOf;
    var owners := JudgesOf(surfaces, p, m);
    var i :| 0 <= i < |owners| && RecordsFor(m, owners, overlay, judge)[i] == r;
    assert owners[i] in owners && r == RecordOf(m, owners[i], judge(Mutated(overlay, m), m, owners[i]));
  }

  lemma {:induction false} AllRecordsDecide(planned: seq<SourceMutant>, surfaces: seq<Surface>, p: MutationPolicy,
                                            overlay: map<string, string>, judge: Judge, r: MutationResultRecord)
    requires r in AllRecords(planned, surfaces, p, overlay, judge)
    ensures Decides(planned, surfaces, p, r)
  {
    hide JudgesOf, RecordOf, RecordsFor;
    if planned != [] {
      var n := |planned| - 1;
      if r in AllRecords(planned[..n], surfaces, p, overlay, judge) {
        AllRecordsDecide(planned[..n], surfaces, p, overlay, judge, r);
        var m :| m in planned[..n] && r.obligation in JudgesOf(surfaces, p, m) && !r.status.OtherStatus?
            && r == RecordOf(m, r.obligation, r.status);
        assert m in planned;
      } else {
        assert r in RecordsFor(planned[n], JudgesOf(surfaces, p, planned[n]), overlay, judge);
        RecordsDecide(planned[n], planned, surfaces, p, overlay, judge, r);
      }
    }
  }

  lemma OwnDecisionsAreDistinct(m: SourceMutant, surfaces: seq<Surface>, p: MutationPolicy,
                                overlay: map<string, string>, judge: Judge)
    requires ValidSurfaces(surfaces)
    ensures DistinctDecisions(RecordsFor(m, JudgesOf(surfaces, p, m), overlay, judge))
  {
    OwnersAreDistinct(surfaces, m.path, ObligationsFor(p, m.ecosystem, m.operator));
    hide Owners, ObligationsFor, Mutated, ValidSurfaces;
    var owners := JudgesOf(surfaces, p, m);
    var records := RecordsFor(m, owners, overlay, judge);
    forall i | 0 <= i < |records| ensures records[i].id == DecisionId(m.id, owners[i]) {
      RecordAt(m, owners, overlay, judge, i);
    }
    assert DistinctDecisions(records);
  }

  lemma JoinedDecisionsAreDistinct(a: seq<MutationResultRecord>, b: seq<MutationResultRecord>)
    requires DistinctDecisions(a) && DistinctDecisions(b) && forall x, y :: x in a && y in b ==> x.id != y.id
    ensures DistinctDecisions(a + b)
  {
    var c := a + b;
    forall i, j | 0 <= i < j < |c| ensures c[i].id != c[j].id {
      if i < |a| <= j { assert c[i] in a && c[j] in b; }
    }
  }

  lemma {:induction false} DecisionsAreDistinct(planned: seq<SourceMutant>, surfaces: seq<Surface>, p: MutationPolicy,
                                                overlay: map<string, string>, judge: Judge)
    requires DistinctMutants(planned) && ValidSurfaces(surfaces)
    ensures DistinctDecisions(AllRecords(planned, surfaces, p, overlay, judge))
  {
    hide JudgesOf, RecordsFor, ValidSurfaces, DistinctDecisions;
    if planned == [] {
      NoDecisions();
    } else {
      var n := |planned| - 1;
      var a, b := AllRecords(planned[..n], surfaces, p, overlay, judge),
          RecordsFor(planned[n], JudgesOf(surfaces, p, planned[n]), overlay, judge);
      DecisionsAreDistinct(planned[..n], surfaces, p, overlay, judge);
      OwnDecisionsAreDistinct(planned[n], surfaces, p, overlay, judge);
      forall x, y | x in a && y in b ensures x.id != y.id {
        AllRecordsDecide(planned[..n], surfaces, p, overlay, judge, x);
        var m :| m in planned[..n] && x.id.mutant == m.id;
        RecordsDecide(planned[n], planned, surfaces, p, overlay, judge, y);
      }
      JoinedDecisionsAreDistinct(a, b);
    }
  }

  lemma NoDecisions()
    ensures DistinctDecisions([])
  {
  }

  lemma DecisionIsValid(planned: seq<SourceMutant>, surfaces: seq<Surface>, p: MutationPolicy, d: MutationRunDocument,
                        r: MutationResultRecord)
    requires Decides(planned, surfaces, p, r) && ValidSurfaces(surfaces)
    requires forall m :: m in planned ==> WellPlanned(m)
    requires forall o :: o in d.applicable <==> IsApplicable(planned, surfaces, p, o)
    ensures ValidRecord(p, d.applicable, r)
  {
    hide SafeRelative, OperatorFor, Claims, ObligationsFor, Owners;
    var m :| m in planned && r.obligation in JudgesOf(surfaces, p, m) && !r.status.OtherStatus?
        && r == RecordOf(m, r.obligation, r.status);
    OwnersAreCandidates(surfaces, m.path, ObligationsFor(p, m.ecosystem, m.operator));
    assert WellPlanned(m);
  }

  lemma ApplicableIsWithinPolicy(planned: seq<SourceMutant>, surfaces: seq<Surface>, p: MutationPolicy, o: string)
    requires IsApplicable(planned, surfaces, p, o) && ValidSurfaces(surfaces) && p.byObligation.Keys == p.obligations
    ensures o in p.obligations
  {
    var m :| m in planned && o in JudgesOf(surfaces, p, m);
    OwnersAreCandidates(surfaces, m.path, ObligationsFor(p, m.ecosystem, m.operator));
    hide Claims, Owners;
  }

  lemma {:induction false} CountsAddUp(results: seq<MutationResultRecord>)
    requires forall r :: r in results ==> !r.status.OtherStatus?
    ensures Count(results, Killed) + Count(results, Survived) + Count(results, Invalid) == |results|
  {
    if results != [] {
      var n := |results| - 1;
      assert results[n] in results && forall r :: r in results[..n] ==> r in results;
      CountsAddUp(results[..n]);
    }
  }

  /** The state the run reports is right exactly when something was judged or nothing had an owner. */
  lemma StateIsValidExactlyWhen(d: MutationRunDocument, planned: seq<SourceMutant>)
    requires Reports(d, planned)
    requires (forall r :: r in d.results ==> !r.status.OtherStatus? && r.obligation in d.applicable)
    requires planned == [] ==> d.results == [] && d.applicable == []
    ensures ValidState(d) <==> d.results != [] || d.applicable == []
  {
    CountsAddUp(d.results);
    hide Count, RightCounters;
    if d.results != [] {
      assert d.results[0].obligation in d.applicable;
    }
  }

  /** Everything but the state of a produced document is always valid. */
  lemma OnlyTheStateCanFail(planned: seq<SourceMutant>, surfaces: seq<Surface>, p: MutationPolicy,
                            overlay: map<string, string>,
                            judge: Judge, clock: nat -> bool, d: MutationRunDocument)
    requires DistinctMutants(planned) && (forall m :: m in planned ==> WellPlanned(m)) && ValidSurfaces(surfaces)
    requires p.byObligation.Keys == p.obligations && IsProduced(d, planned, surfaces, p, overlay, judge, clock)
    ensures ValidDocument(d, p) <==> d.results != [] || d.applicable == []
  {
    var all := AllRecords(planned, surfaces, p, overlay, judge);
    hide Lists, ValidSurfaces, WellPlanned, ValidState, RightCounters, StopsInTime;
    hide Decides, AllRecords, IsApplicable, ValidRecord, Reports;
    DecisionsAreDistinct(planned, surfaces, p, overlay, judge);
    forall r | r in d.results ensures ValidRecord(p, d.applicable, r) {
      assert r in all;
      AllRecordsDecide(planned, surfaces, p, overlay, judge, r);
      DecisionIsValid(planned, surfaces, p, d, r);
    }
    forall o | o in d.applicable ensures o in p.obligations {
      ApplicableIsWithinPolicy(planned, surfaces, p, o);
    }
    ValidRecordsAreDecided(p, d);
    NothingPlanned(planned, surfaces, p, overlay, judge, d);
    StateIsValidExactlyWhen(d, planned);
    ReportsCounters(d, planned);
  }

  lemma NothingApplicable(planned: seq<SourceMutant>, surfaces: seq<Surface>, p: MutationPolicy,
                          applicable: seq<string>)
    requires forall o :: o in applicable <==> IsApplicable(planned, surfaces, p, o)
    ensures applicable == [] <==> FirstOwned(planned, surfaces, p) == |planned|
  {
    hide JudgesOf;
    var f := FirstOwned(planned, surfaces, p);
    if f < |planned| {
      var o := JudgesOf(surfaces, p, planned[f])[0];
      assert o in JudgesOf(surfaces, p, planned[f]) && planned[f] in planned;
      assert o in applicable;
    } else {
      assert forall o :: o !in applicable;
    }
    EmptyExactlyWhen(applicable);
  }

  lemma EmptyExactlyWhen<T>(items: seq<T>)
    ensures items == [] <==> forall x :: x !in items
  {
    if items != [] {
      assert items[0] in items;
    }
  }

  /**
   * The validator accepts the document of a run exactly when no planned mutant has an owner, or
   * the clock is on time up to the reading before the first owner of the first owned mutant.
   */
  lemma ProducedDocumentIsValidExactlyWhen(planned: seq<SourceMutant>, surfaces: seq<Surface>, p: MutationPolicy,
                                           overlay: map<string, string>, judge: Judge, clock: nat -> bool,
                                           d: MutationRunDocument)
    requires DistinctMutants(planned) && (forall m :: m in planned ==> WellPlanned(m)) && ValidSurfaces(surfaces)
    requires p.byObligation.Keys == p.obligations && IsProduced(d, planned, surfaces, p, overlay, judge, clock)
    ensures var f := FirstOwned(planned, surfaces, p);
            ValidDocument(d, p) <==> f == |planned| || OnTime(clock, 0, f + 2)
  {
    OnlyTheStateCanFail(planned, surfaces, p, overlay, judge, clock, d);
    NothingApplicable(planned, surfaces, p, d.applicable);
    NothingIsJudgedExactlyWhen(|d.results|, planned, surfaces, p, clock);
    hide FirstOwned, ValidDocument, StopsInTime;
  }

  lemma ValidRecordsAreDecided(p: MutationPolicy, d: MutationRunDocument)
    requires forall r :: r in d.results ==> ValidRecord(p, d.applicable, r)
    ensures forall r :: r in d.results ==> !r.status.OtherStatus? && r.obligation in d.applicable
  {
    hide Authorized, SafeRelative;
  }

  lemma ReportsCounters(d: MutationRunDocument, planned: seq<SourceMutant>)
    requires Reports(d, planned)
    ensures RightCounters(d) && d.llmTokens == 0
  {
    hide RightCounters, Count;
  }

  lemma NothingPlanned(planned: seq<SourceMutant>, surfaces: seq<Surface>, p: MutationPolicy,
                       overlay: map<string, string>, judge: Judge, d: MutationRunDocument)
    requires d.results <= AllRecords(planned, surfaces, p, overlay, judge)
    requires forall o :: o in d.applicable <==> IsApplicable(planned, surfaces, p, o)
    ensures planned == [] ==> d.results == [] && d.applicable == []
  {
    assert d.applicable != [] ==> d.applicable[0] in d.applicable;
  }
}

/** Planning the mutants of a whole change. */
module ChangePlanning {
  import opened Words
  import opened Options
  import opened Strings
  import opened Sorting
  import opened Listings
  import opened SourcePaths
  import opened MutationRules
  import opened MutationPlan
  import opened MutationLaws
  import opened MutationPolicies
  import opened MutationDocuments
  import opened MutationRun

  const MAX_MUTANTS: nat := 32
  const MAX_FILES: nat := 64

  predicate LooksLikeTest(path: string) {
    var lower := Lower(path);
    || EndsWith(lower, "_test.go") || EndsWith(lower, "/tests.rs")
    || Contains(lower, "/tests/") || Contains(lower, "/benches/") || Contains(lower, "/examples/")
    || Contains(lower, ".test.") || Contains(lower, ".spec.") || Contains(lower, ".stories.")
  }

  /** The text after the last dot of a file name; a name that starts with its only dot has none. */
  function Extension(name: string): Option<string>
    decreases |name|
  {
    if |name| <= 1 then None
    else if name[|name| - 1] == '.' then Some("")
    else
      var shorter := Extension(name[..|name| - 1]);
      if shorter.Some? then Some(shorter.value + [name[|name| - 1]]) else None
  }

  function EcosystemOf(path: string): Option<Ecosystem> {
    var extension := Extension(FileName(path));
    if extension.None? then None
    else
      var lower := Lower(extension.value);
      if lower == "go" then Some(Go)
      else if lower == "rs" then Some(Rust)
      else if lower in ["ts", "tsx", "js", "jsx", "mjs", "cjs"] then Some(TsJs)
      else None
  }

  /** The operators to plan with: all of them, those named for the ecosystem, or none at all. */
  method OperatorsFor(p: MutationPolicy, e: Ecosystem) returns (operators: Option<seq<string>>)
    ensures operators == Some([]) <==> p.allSafe
    ensures operators.Some? && !p.allSafe ==> forall op :: op in operators.value <==>
              op in p.operators && OperatorFor(e, op)
    ensures operators.None? <==> !p.allSafe && forall op :: op in p.operators ==> !OperatorFor(e, op)
  {
    hide OperatorFor;
    if p.allSafe { return Some([]); }
    var mine := set op | op in p.operators && OperatorFor(e, op);
    var items := Listing(mine);
    if items == [] {
      operators := None;
      forall op | op in p.operators ensures !OperatorFor(e, op) {
        assert op in mine <==> op in items;
      }
    } else {
      operators := Some(items);
      assert items[0] in items;
    }
  }

  /** What a mutant of the plan of one file is good for. */
  ghost predicate PlannedFrom(m: SourceMutant, path: string, source: string) {
    WellPlanned(m) && m.path == path && m.id.path == path && m.Apply(source).Ok?
  }

  lemma SafePathIsRelative(path: string)
    requires !UnsafePath(path)
    ensures SafeRelative(path)
  {
    assert Components(path)[0] in Components(path);
  }

  lemma MutantsOfOneFile(e: Ecosystem, path: string, source: string, changed: set<u32>, requested: set<string>,
                         edits: seq<Edit>, k: nat)
    requires !UnsafePath(path) && AllKnown(e, requested) && IsPlan(e, source, changed, requested, edits) && k <= |edits|
    requires forall x :: x in edits ==> x.start <= x.end <= |source|
    ensures var ms := MutantsOf(e, path, source, edits[..k]);
            DistinctMutants(ms) && forall m :: m in ms ==> PlannedFrom(m, path, source)
  {
    hide UnsafePath, SafeRelative, IsPlanned, EditLess;
    PlanIdsAreDistinct(e, path, source, edits[..k]);
    SafePathIsRelative(path);
    var ms := MutantsOf(e, path, source, edits[..k]);
    forall m | m in ms ensures PlannedFrom(m, path, source) {
      var i :| 0 <= i < |ms| && ms[i] == m;
      assert edits[i] in edits;
      OneMutant(e, path, source, changed, requested, edits[i]);
    }
  }

  lemma OneMutant(e: Ecosystem, path: string, source: string, changed: set<u32>, requested: set<string>, x: Edit)
    requires AllKnown(e, requested) && IsPlanned(e, source, changed, requested, x) && SafeRelative(path)
    ensures x.start <= x.end <= |source| && PlannedFrom(MutantOf(e, path, source, x), path, source)
  {
    hide SafeRelative, IsFound, Catalogue;
    PlannedMutantIsSafe(e, path, source, changed, requested, x);
  }

  /** The first mutants of the plan of a file, as many as fit. */
  ghost predicate IsFilePlan(ms: seq<SourceMutant>, e: Ecosystem, path: string, source: string, changed: set<u32>,
                             operators: seq<string>, max: nat) {
    exists edits: seq<Edit> ::
      && IsPlan(e, source, changed, Requested(e, operators), edits)
      && (forall x :: x in edits ==> x.start <= x.end <= |source|)
      && ms == MutantsOf(e, path, source, edits[..Min(|edits|, Min(max, 256))])
  }

  /** Why a file cannot be planned. */
  ghost predicate CannotPlan(e: Ecosystem, path: string, source: string, operators: seq<string>) {
    || UnsafePath(path) || |source| > 4 * 1024 * 1024
    || exists op :: op in Requested(e, operators) && op !in Catalogue(e)
  }

  method PlanOneFile(e: Ecosystem, path: string, source: string, changed: set<u32>, operators: seq<string>, max: nat)
    returns (r: Result<seq<SourceMutant>, MutationError>)
    ensures r.Err? <==> max == 0 || CannotPlan(e, path, source, operators)
    ensures r.Ok? ==> IsFilePlan(r.value, e, path, source, changed, operators, max)
    ensures r.Ok? ==> |r.value| <= max && DistinctMutants(r.value) && forall m :: m in r.value ==>
              PlannedFrom(m, path, source)
  {
    hide UnsafePath, IsPlan, PlannedFrom, DistinctMutants, Requested, Catalogue;
    ghost var edits;
    r, edits := PlanSourceMutants(e, path, source, changed, operators, max);
    assert r.Err? ==> r == Err(r.error);
    assert r.Err? ==> r.error.BadRequest? || r.error.TooLarge? || r.error.UnknownOperator?;
    if r.Ok? {
      MutantsOfOneFile(e, path, source, changed, Requested(e, operators), edits, |r.value|);
    }
  }

  /** The mutants come from listed files and apply to the text they were planned from. */
  ghost predicate PlannedWithin(planned: seq<SourceMutant>, files: seq<string>, sources: map<string, string>) {
    forall m :: m in planned ==> m.path in files && m.path in sources && PlannedFrom(m, m.path, sources[m.path])
  }

  lemma PlansJoin(planned: seq<SourceMutant>, more: seq<SourceMutant>, files: seq<string>, i: nat,
                  sources: map<string, string>)
    requires i < |files| && PlannedWithin(planned, files[..i], sources) && files[i] in sources
    requires forall m :: m in more ==> PlannedFrom(m, files[i], sources[files[i]])
    ensures PlannedWithin(planned + more, files[..i + 1], sources)
    ensures AllDifferent(files) && DistinctMutants(planned) && DistinctMutants(more) ==> DistinctMutants(planned + more)
  {
    hide WellPlanned;
    assert forall f :: f in files[..i + 1] <==> f in files[..i] || f == files[i];
    if AllDifferent(files) && DistinctMutants(planned) && DistinctMutants(more) {
      var all := planned + more;
      forall a, b | a in planned && b in more ensures a.id != b.id {
        var k :| 0 <= k < i && files[k] == a.path;
      }
      forall x, y | 0 <= x < y < |all| ensures all[x].id != all[y].id {
        if x < |planned| <= y { assert all[x] in planned && all[y] in more; }
      }
    }
  }

  lemma PlansCarryOver(planned: seq<SourceMutant>, files: seq<string>, i: nat, sources: map<string, string>)
    requires i < |files| && PlannedWithin(planned, files[..i], sources)
    ensures PlannedWithin(planned, files[..i + 1], sources) && PlannedWithin(planned, files, sources)
  {
    hide PlannedFrom;
  }

  // ----- which files are planned, and how far -----

  function Joined(parts: seq<seq<SourceMutant>>): seq<SourceMutant> {
    if parts == [] then [] else Joined(parts[..|parts| - 1]) + parts[|parts| - 1]
  }

  /** How many of the files count against the file ceiling. */
  function Considered(files: seq<string>): nat {
    if files == [] then 0
    else Considered(files[..|files| - 1]) + if LooksLikeTest(files[|files| - 1]) then 0 else 1
  }

  /** The operators that a policy asks of an ecosystem, none named meaning all. */
  ghost predicate AreOperators(operators: seq<string>, p: MutationPolicy, e: Ecosystem) {
    if p.allSafe then operators == []
    else operators != [] && forall op :: op in operators <==> op in p.operators && OperatorFor(e, op)
  }

  ghost predicate HasOperators(p: MutationPolicy, e: Ecosystem) {
    p.allSafe || exists op :: op in p.operators && OperatorFor(e, op)
  }

  /**
   * The mutants of file i: the first of its plan that fit, unless it is a test, of no ecosystem, or
   * beyond a ceiling.
   */
  ghost predicate IsPart(ms: seq<SourceMutant>, files: seq<string>, i: nat, before: nat, sources: map<string, string>,
                         lines: map<string, set<u32>>, p: MutationPolicy)
    requires i < |files|
  {
    var path := files[i];
    var e := EcosystemOf(path);
    if LooksLikeTest(path) || Considered(files[..i]) >= 64 || e.None? || before >= 32 || !HasOperators(p, e.value)
    then ms == []
    else
      && path in sources && path in lines
      && exists operators ::
           AreOperators(operators, p, e.value)
           && IsFilePlan(ms, e.value, path, sources[path], lines[path], operators, 32 - before)
  }

  ghost predicate AreParts(parts: seq<seq<SourceMutant>>, files: seq<string>, sources: map<string, string>,
                           lines: map<string, set<u32>>, p: MutationPolicy) {
    |parts| == |files|
    && forall i :: 0 <= i < |files| ==> IsPart(parts[i], files, i, |Joined(parts[..i])|, sources, lines, p)
  }

  /** Some source file is missing, without changed lines, or cannot be planned. */
  ghost predicate CannotPlanSome(files: seq<string>, sources: map<string, string>, lines: map<string, set<u32>>) {
    exists path :: path in files && !LooksLikeTest(path) && EcosystemOf(path).Some?
                   && (path in sources && path in lines ==>
                         exists operators :: CannotPlan(EcosystemOf(path).value, path, sources[path], operators))
  }

  lemma OnePart(parts: seq<seq<SourceMutant>>, more: seq<SourceMutant>, files: seq<string>, i: nat,
                sources: map<string, string>, lines: map<string, set<u32>>, p: MutationPolicy)
    requires i < |files| && AreParts(parts, files[..i], sources, lines, p)
    requires IsPart(more, files, i, |Joined(parts)|, sources, lines, p)
    ensures AreParts(parts + [more], files[..i + 1], sources, lines, p)
    ensures Joined(parts + [more]) == Joined(parts) + more
  {
    var all, now := parts + [more], files[..i + 1];
    hide Joined, IsFilePlan, LooksLikeTest, EcosystemOf, AreOperators, HasOperators;
    JoinedOne(parts, more);
    hide IsPart;
    forall k | 0 <= k < |now| ensures IsPart(all[k], now, k, |Joined(all[..k])|, sources, lines, p) {
      if k < i {
        assert all[..k] == parts[..k] && now[..k] == files[..i][..k];
        SamePart(parts[k], files[..i], now, k, |Joined(parts[..k])|, sources, lines, p);
      } else {
        assert all[..k] == parts && now[..k] == files[..k];
        SamePart(more, files, now, k, |Joined(parts)|, sources, lines, p);
      }
    }
  }

  lemma SamePart(ms: seq<SourceMutant>, a: seq<string>, b: seq<string>, k: nat, before: nat,
                 sources: map<string, string>, lines: map<string, set<u32>>, p: MutationPolicy)
    requires k < |a| && k < |b| && a[k] == b[k] && a[..k] == b[..k] && IsPart(ms, a, k, before, sources, lines, p)
    ensures IsPart(ms, b, k, before, sources, lines, p)
  {
    hide IsFilePlan, LooksLikeTest, EcosystemOf, AreOperators, HasOperators, Considered;
  }

  lemma JoinedOne(parts: seq<seq<SourceMutant>>, more: seq<SourceMutant>)
    ensures Joined(parts + [more]) == Joined(parts) + more
  {
    assert (parts + [more])[..|parts|] == parts;
  }

  lemma ConsideredGrows(files: seq<string>, i: nat)
    requires i < |files|
    ensures Considered(files[..i + 1]) == Considered(files[..i]) + if LooksLikeTest(files[i]) then 0 else 1
  {
    hide LooksLikeTest;
    assert files[..i + 1][..i] == files[..i];
  }

  lemma NoParts(files: seq<string>, sources: map<string, string>, lines: map<string, set<u32>>, p: MutationPolicy)
    ensures AreParts([], files[..0], sources, lines, p) && Joined([]) == []
  {
  }

  /** Beyond a ceiling every further file has an empty part. */
  lemma {:induction false} EmptyParts(parts: seq<seq<SourceMutant>>, files: seq<string>, i: nat,
                                      sources: map<string, string>, lines: map<string, set<u32>>, p: MutationPolicy)
    returns (all: seq<seq<SourceMutant>>)
    requires i <= |files| && AreParts(parts, files[..i], sources, lines, p)
    requires Considered(files[..i]) >= 64 || |Joined(parts)| >= 32
    ensures AreParts(all, files, sources, lines, p) && Joined(all) == Joined(parts)
    decreases |files| - i
  {
    hide Joined, AreParts, LooksLikeTest, EcosystemOf, Considered;
    if i == |files| {
      assert files[..i] == files;
      all := parts;
    } else {
      ConsideredGrows(files, i);
      OnePart(parts, [], files, i, sources, lines, p);
      all := EmptyParts(parts + [[]], files, i + 1, sources, lines, p);
    }
  }

  /** Plans every added and changed source file, up to the ceilings; lines are the changed lines of each file. */
  method PlanMutants(added: seq<string>, changed: seq<string>, sources: map<string, string>,
                     lines: map<string, set<u32>>, p: MutationPolicy)
    returns (r: Result<seq<SourceMutant>, ()>, ghost parts: seq<seq<SourceMutant>>)
    ensures r.Ok? ==> r.value == Joined(parts) && AreParts(parts, added + changed, sources, lines, p)
    ensures r.Err? ==> CannotPlanSome(added + changed, sources, lines)
    ensures r.Ok? ==> |r.value| <= MAX_MUTANTS && PlannedWithin(r.value, added + changed, sources)
    ensures r.Ok? && AllDifferent(added + changed) ==> DistinctMutants(r.value)
  {
    hide LooksLikeTest, EcosystemOf, DistinctMutants, AllDifferent, PlannedWithin, PlannedFrom;
    hide Joined, AreParts, Considered, CannotPlan, IsFilePlan, IsPart;
    var files, planned: seq<SourceMutant>, taken: nat := added + changed, [], 0;
    NothingPlannedYet(files, sources);
    parts := [];
    NoParts(files, sources, lines, p);
    ConsideredNone(files);
    for i := 0 to |files|
      invariant |planned| <= MAX_MUTANTS && PlannedWithin(planned, files[..i], sources)
      invariant AllDifferent(files) ==> DistinctMutants(planned)
      invariant AreParts(parts, files[..i], sources, lines, p) && planned == Joined(parts)
      invariant taken == Considered(files[..i]) <= MAX_FILES
    {
      var path := files[i];
      PlansCarryOver(planned, files, i, sources);
      ConsideredGrows(files, i);
      ghost var more: seq<SourceMutant>, before := [], |planned|;
      if !LooksLikeTest(path) {
        if taken == MAX_FILES {
          parts := EmptyParts(parts, files, i, sources, lines, p);
          return Ok(planned), parts;
        }
        taken := taken + 1;
        var e := EcosystemOf(path);
        if e.Some? {
          if path !in sources || path !in lines { return Err(()), parts; }
          var remaining := MAX_MUTANTS - |planned|;
          if remaining == 0 {
            parts := EmptyParts(parts, files, i, sources, lines, p);
            return Ok(planned), parts;
          }
          var operators := OperatorsFor(p, e.value);
          if operators.Some? {
            var mine := PlanOneFile(e.value, path, sources[path], lines[path], operators.value, remaining);
            if mine.Err? { return Err(()), parts; }
            PlansJoin(planned, mine.value, files, i, sources);
            planned := planned + mine.value;
            more := mine.value;
          }
          OperatorsDecide(p, e.value, operators);
          if operators.Some? {
            PartOfFile(more, files, i, before, sources, lines, p, operators.value);
          }
        }
      }
      EmptyPart(files, i, before, sources, lines, p);
      OnePart(parts, more, files, i, sources, lines, p);
      parts := parts + [more];
    }
    assert files[..|files|] == files;
    r := Ok(planned);
  }

  lemma ConsideredNone(files: seq<string>)
    ensures Considered(files[..0]) == 0
  {
  }

  lemma OperatorsDecide(p: MutationPolicy, e: Ecosystem, operators: Option<seq<string>>)
    requires operators == Some([]) <==> p.allSafe
    requires operators.Some? && !p.allSafe ==> AreOperators(operators.value, p, e)
    requires operators.None? <==> !p.allSafe && forall op :: op in p.operators ==> !OperatorFor(e, op)
    ensures operators.Some? <==> HasOperators(p, e)
    ensures operators.Some? ==> AreOperators(operators.value, p, e)
  {
    hide OperatorFor;
  }

  lemma EmptyPart(files: seq<string>, i: nat, before: nat, sources: map<string, string>, lines: map<string, set<u32>>,
                  p: MutationPolicy)
    requires i < |files|
    ensures LooksLikeTest(files[i]) || EcosystemOf(files[i]).None? || !HasOperators(p, EcosystemOf(files[i]).value) ==>
              IsPart([], files, i, before, sources, lines, p)
  {
    hide LooksLikeTest, EcosystemOf, HasOperators;
  }

  lemma PartOfFile(ms: seq<SourceMutant>, files: seq<string>, i: nat, before: nat, sources: map<string, string>,
                   lines: map<string, set<u32>>, p: MutationPolicy, operators: seq<string>)
    requires i < |files| && !LooksLikeTest(files[i]) && Considered(files[..i]) < 64 && before < 32
    requires EcosystemOf(files[i]).Some? && files[i] in sources && files[i] in lines
    requires var e := EcosystemOf(files[i]).value;
             && HasOperators(p, e) && AreOperators(operators, p, e)
             && IsFilePlan(ms, e, files[i], sources[files[i]], lines[files[i]], operators, 32 - before)
    ensures IsPart(ms, files, i, before, sources, lines, p)
  {
    hide LooksLikeTest, EcosystemOf, HasOperators, AreOperators, IsFilePlan;
  }

  lemma NothingPlannedYet(files: seq<string>, sources: map<string, string>)
    ensures PlannedWithin([], files[..0], sources) && DistinctMutants([])
  {
  }

  /**
   * Whatever was planned from the sources can be run on them, and the document of that run is valid
   * exactly when nothing is owned or the clock is on time up to the first decision.
   */
  lemma PlannedChangeRuns(planned: seq<SourceMutant>, files: seq<string>, sources: map<string, string>,
                          surfaces: seq<Surface>, p: MutationPolicy, judge: Judge, clock: nat -> bool,
                          d: MutationRunDocument)
    requires PlannedWithin(planned, files, sources) && DistinctMutants(planned)
    requires ValidSurfaces(surfaces) && p.byObligation.Keys == p.obligations
    requires IsProduced(d, planned, surfaces, p, sources, judge, clock)
    ensures var f := FirstOwned(planned, surfaces, p);
            ValidDocument(d, p) <==> f == |planned| || OnTime(clock, 0, f + 2)
  {
    PlannedApply(planned, files, sources);
    hide PlannedWithin, WellPlanned, Applies, IsProduced, ValidSurfaces, FirstOwned, ValidDocument;
    ProducedDocumentIsValidExactlyWhen(planned, surfaces, p, sources, judge, clock, d);
  }

  lemma PlannedApply(planned: seq<SourceMutant>, files: seq<string>, sources: map<string, string>)
    requires PlannedWithin(planned, files, sources)
    ensures forall m :: m in planned ==> WellPlanned(m) && Applies(sources, m)
  {
    hide WellPlanned;
  }

  /** The whole run: it fails only when planning fails, restores the sources, and says when its document is valid. */
  method ExecuteOnChange(added: seq<string>, changed: seq<string>, sources: map<string, string>,
                         lines: map<string, set<u32>>, p: MutationPolicy, surfaces: seq<Surface>, judge: Judge,
                         clock: nat -> bool)
    returns (r: Result<MutationRunDocument, ()>, workspace: map<string, string>,
             ghost plan: Result<seq<SourceMutant>, ()>, ghost parts: seq<seq<SourceMutant>>)
    ensures workspace == sources && (r.Ok? <==> plan.Ok?)
    ensures plan.Ok? ==> plan.value == Joined(parts) && AreParts(parts, added + changed, sources, lines, p)
    ensures plan.Err? ==> CannotPlanSome(added + changed, sources, lines)
    ensures plan.Ok? ==> |plan.value| <= MAX_MUTANTS && PlannedWithin(plan.value, added + changed, sources)
    ensures plan.Ok? ==> IsProduced(r.value, plan.value, surfaces, p, sources, judge, clock)
    ensures plan.Ok? && AllDifferent(added + changed)
            && ValidSurfaces(surfaces) && p.byObligation.Keys == p.obligations ==>
              var f := FirstOwned(plan.value, surfaces, p);
              ValidDocument(r.value, p) <==> f == |plan.value| || OnTime(clock, 0, f + 2)
  {
    hide PlannedWithin, WellPlanned, Applies, IsProduced, ValidSurfaces, FirstOwned, ValidDocument, NothingIsJudged;
    hide Joined, AreParts, CannotPlanSome, IsJudged;
    var planned;
    planned, parts := PlanMutants(added, changed, sources, lines, p);
    plan := planned;
    if planned.Err? { return Err(()), sources, plan, parts; }
    PlannedApply(planned.value, added + changed, sources);
    r, workspace := ExecuteSourceMutation(planned.value, surfaces, p, sources, judge, clock);
    if AllDifferent(added + changed) && ValidSurfaces(surfaces) && p.byObligation.Keys == p.obligations {
      PlannedChangeRuns(planned.value, added + changed, sources, surfaces, p, judge, clock, r.value);
    }
  }
}
