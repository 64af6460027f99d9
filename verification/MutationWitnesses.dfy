/** Concrete mutants and runs that do less than one would expect. */
module MutationWitnesses {
  import opened Words
  import opened Options
  import opened Text
  import opened Sorting
  import opened Decimal
  import opened Lcov
  import opened Lexing
  import opened SourcePaths
  import opened BindingReach
  import opened MutationRules
  import opened MutationPlan
  import opened MutationLaws
  import opened MutationPolicies
  import opened MutationDocuments
  import opened MutationRun

  // ----- a mutant that changes nothing -----

  const HEAD := "a.slice(0,"

  /** `a.slice(0,n)` for the digits of n. */
  function Slice(digits: string): string {
    HEAD + (digits + ")")
  }

  function SliceEdit(digits: string, next: string): Edit {
    Edit("collection_boundary", |HEAD|, |HEAD| + |digits|, next)
  }

  lemma {:induction false} DigitsEnd(s: string, at: nat, to: nat)
    requires at <= to < |s| && !IsDigit(s[to]) && forall i :: at <= i < to ==> IsDigit(s[i])
    ensures AfterDigits(s, at) == to
    decreases |s| - at
  {
    if at < to {
      DigitsEnd(s, at + 1, to);
    }
  }

  lemma SliceIsRead(digits: string)
    requires digits != [] && AllDigits(digits)
    ensures var s, n := Slice(digits), |HEAD|;
            && n + |digits| < |s| && AfterSpace(s, n) == n && AfterDigits(s, n) == n + |digits|
            && s[n..n + |digits|] == digits
  {
    var s, n := Slice(digits), |HEAD|;
    assert forall i :: n <= i < n + |digits| ==> s[i] == digits[i - n];
    assert s[n + |digits|] == ')' && !IsAsciiSpace(s[n]);
    DigitsEnd(s, n, n + |digits|);
  }

  lemma SliceIsCode(digits: string)
    ensures |Mask(Slice(digits))| == |Slice(digits)| && CodeRange(Mask(Slice(digits)), 1, |HEAD|)
  {
    hide Mask;
    PlainText(HEAD, digits + ")");
  }

  lemma SliceStarts(digits: string)
    ensures var s := Slice(digits); MatchesAt(s, ".slice(0,", 1) && !MatchesAt(s, ".slice(0,", 0)
  {
    var s := Slice(digits);
    assert s[1..] == ".slice(0," + (digits + ")");
    assert s[0..][0] == 'a';
  }

  lemma SliceIsEdited(digits: string, n: nat)
    requires digits != [] && AllDigits(digits) && Parse(digits, U64_MAX) == Some(n) && n <= U64_MAX
    ensures SliceBoundEdit("collection_boundary", Slice(digits), Mask(Slice(digits)), 1)
         == Some(SliceEdit(digits, Print(SatAdd(n, 1))))
  {
    SliceIsRead(digits);
    SliceIsCode(digits);
    hide Mask, CodeRange, Slice, Parse, Print, AfterSpace, AfterDigits, AllDigits;
  }

  lemma SliceStops(digits: string)
    requires digits != [] && AllDigits(digits)
    ensures var s, op := Slice(digits), "collection_boundary";
            && At(SliceBound, op, s, Mask(s), 0) == (None, 1)
            && At(SliceBound, op, s, Mask(s), 1).0 == SliceBoundEdit(op, s, Mask(s), 1)
  {
    SliceStarts(digits);
    assert |Slice(digits)| > 10;
    hide Mask, Slice, MatchesAt, SliceBoundEdit, AllDigits;
  }

  lemma SliceIsFound(digits: string, n: nat)
    requires digits != [] && AllDigits(digits) && Parse(digits, U64_MAX) == Some(n) && n <= U64_MAX
    ensures SliceEdit(digits, Print(SatAdd(n, 1))) in Sites(SliceBound, "collection_boundary", Slice(digits),
                                                            Mask(Slice(digits)), 0)
  {
    var s, op, edit := Slice(digits), "collection_boundary", SliceEdit(digits, Print(SatAdd(n, 1)));
    SliceIsEdited(digits, n);
    SliceStops(digits);
    assert |s| > 1 && Sensible(SliceBound);
    hide Mask, Parse, Print, Sites, At, SliceBoundEdit, SliceEdit, Slice, AllDigits;
    InSites(SliceBound, op, s, Mask(s), 0, edit);
    InSites(SliceBound, op, s, Mask(s), 1, edit);
  }

  lemma FullBoundIsFull()
    ensures FullBound() != [] && AllDigits(FullBound()) && Parse(FullBound(), U64_MAX) == Some(U64_MAX)
    ensures Print(SatAdd(U64_MAX, 1)) == FullBound()
  {
    ParsePrint(U64_MAX, U64_MAX);
    hide Print, Parse;
  }

  /** Raising the bound of `a.slice(0,18446744073709551615)` is planned, and leaves the text as it was. */
  lemma FullSliceMutantIsIdle(path: string)
    ensures var s, edit := Slice(FullBound()), SliceEdit(FullBound(), FullBound());
            && IsPlanned(TsJs, s, {1}, {"collection_boundary"}, edit)
            && edit.start <= edit.end <= |s|
            && MutantOf(TsJs, path, s, edit).Apply(s) == Ok(s)
  {
    var s, edit, op := Slice(FullBound()), SliceEdit(FullBound(), FullBound()), "collection_boundary";
    FullBoundIsFull();
    hide FullBound, Print, Parse;
    SliceIsFound(FullBound(), U64_MAX);
    SliceIsRead(FullBound());
    FirstLine(FullBound());
    RaisingIsPlanned(s, edit);
    hide Slice, IsPlanned, LineAt;
    MutantIsIdleExactlyWhen(TsJs, path, s, {1}, {op}, edit);
  }

  lemma RaisingIsPlanned(s: string, edit: Edit)
    requires edit in Sites(SliceBound, "collection_boundary", s, Mask(s), 0) && edit.operator == "collection_boundary"
    requires edit.start <= |s| && LineAt(s, edit.start) == 1
    ensures IsPlanned(TsJs, s, {1}, {"collection_boundary"}, edit)
  {
    BoundRule();
    hide Mask, Sites, LineAt, Rules;
  }

  lemma BoundRule()
    ensures SliceBound in Rules(TsJs, "collection_boundary") && Sensible(SliceBound)
  {
    assert SliceBound in [SliceBound];
  }

  lemma FirstLine(digits: string)
    ensures LineAt(Slice(digits), |HEAD|) == 1
  {
    NoNewlines(HEAD);
    assert Slice(digits)[..|HEAD|] == HEAD;
  }

  lemma {:induction false} NoNewlines(s: string)
    requires '\n' !in s
    ensures Newlines(s) == 0
  {
    if s != [] {
      NoNewlines(s[..|s| - 1]);
    }
  }

  // ----- a run whose document is refused -----

  const TEXT := "true"
  const FLIP := Edit("invert_bool", 0, 4, "false")
  const SURFACES := [Surface("o", ["a.go"])]
  const POLICY := MutationPolicy({"o"}, {"invert_bool"}, false, map["o" := Choice(false, {"invert_bool"})])

  /** The only mutant of the file a.go, which holds the word true. */
  function OwnedMutant(): SourceMutant {
    MutantOf(Go, "a.go", TEXT, FLIP)
  }

  /** One planned mutant, one owner, no decision. */
  const UNJUDGED := MutationRunDocument(Unmeasured, ["o"], ["o"], 1, 0, 0, 0, [], 0)

  lemma WordStands(x: nat)
    ensures StandsAt(TEXT, Mask(TEXT), "true", x) <==> x == 0
    ensures !StandsAt(TEXT, Mask(TEXT), "false", x)
  {
    WordIsCode();
    hide Mask, IsIdentifier;
    assert TEXT[0..] == TEXT;
    assert MatchesAt(TEXT, "true", x) ==> x + 4 <= |TEXT|;
    assert MatchesAt(TEXT, "false", x) ==> x + 5 <= |TEXT|;
  }

  lemma WordIsCode()
    ensures Mask(TEXT) == Flags(4, true)
  {
    hide Mask;
    PlainText(TEXT, "");
    assert TEXT + "" == TEXT;
  }

  lemma FlipIsFound(x: Edit)
    requires x.operator == "invert_bool"
    ensures IsFound(Go, TEXT, x) <==> x == FLIP
  {
    hide StandsAt, Mask, IsFound;
    WordStands(x.start);
    FlipsAreFound(Go, "invert_bool", TEXT, x);
    assert IsFlip("true", "false");
    assert IsFlipEdit("invert_bool", TEXT, x) <==> x == FLIP;
  }

  /** Planning the changed line of that file gives exactly this mutant. */
  lemma FlipIsThePlan()
    ensures IsPlan(Go, TEXT, {1}, {"invert_bool"}, [FLIP])
  {
    hide IsFound;
    assert TEXT[..0] == [] && LineAt(TEXT, 0) == 1;
    forall x ensures x in [FLIP] <==> IsPlanned(Go, TEXT, {1}, {"invert_bool"}, x) {
      if x.operator == "invert_bool" {
        FlipIsFound(x);
      }
    }
  }

  lemma OwnedIsWellPlanned()
    ensures WellPlanned(OwnedMutant())
  {
    hide LineAt;
    GoFileIsRelative();
    FlipIsThePlan();
    assert FLIP in [FLIP];
  }

  lemma GoFileIsRelative()
    ensures SafeRelative("a.go") && OperatorFor(Go, "invert_bool")
  {
    var path := "a.go";
    assert path[0] == 'a' && '/' !in path;
    assert Components(path) == [path];
    assert [path][0] == path && path != "." && path != "..";
    assert Catalogue(Go)[5] == "invert_bool";
  }

  lemma OwnedHasAnOwner()
    ensures JudgesOf(SURFACES, POLICY, OwnedMutant()) == ["o"] && ValidSurfaces(SURFACES)
  {
    SurfaceClaims();
    assert "o" in ObligationsFor(POLICY, Go, "invert_bool");
    hide Claims, ObligationsFor;
    assert SURFACES[..0] == [] && OwnedMutant().path == "a.go";
  }

  lemma SurfaceClaims()
    ensures Claims(SURFACES[0], "a.go")
  {
    var path := "a.go";
    assert Slashes(path) == path;
    hide Slashes, UpTo;
    assert path in SURFACES[0].nodes;
  }

  lemma OwnedIsFirst()
    ensures FirstOwned([OwnedMutant()], SURFACES, POLICY) == 0
    ensures forall o :: IsApplicable([OwnedMutant()], SURFACES, POLICY, o) <==> o == "o"
  {
    OwnedHasAnOwner();
    hide JudgesOf, ValidSurfaces, OwnedMutant;
    assert [OwnedMutant()][..0] == [] && OwnedMutant() in [OwnedMutant()];
    assert "o" in ["o"];
  }

  /**
   * The mutant is what the planner makes of the file; with a late first or second reading the run
   * builds this document of it, and its own validator refuses it.
   */
  lemma LateRunIsRefused(overlay: map<string, string>, judge: Judge, clock: nat -> bool)
    requires clock(0) || clock(1)
    ensures IsPlan(Go, TEXT, {1}, {"invert_bool"}, [FLIP]) && WellPlanned(OwnedMutant())
    ensures MutantsOf(Go, "a.go", TEXT, [FLIP]) == [OwnedMutant()]
    ensures IsProduced(UNJUDGED, [OwnedMutant()], SURFACES, POLICY, overlay, judge, clock)
    ensures !ValidDocument(UNJUDGED, POLICY)
  {
    FlipIsThePlan();
    OwnedIsWellPlanned();
    OneOwned();
    OwnedIsFirst();
    NothingBefore(clock);
    hide IsPlan, FirstOwned, IsApplicable, StopsInTime, AllRecords, WellPlanned, OwnedMutant, MutantsOf;
    UnjudgedIsProduced([OwnedMutant()], overlay, judge, clock);
  }

  lemma UnjudgedIsProduced(planned: seq<SourceMutant>, overlay: map<string, string>, judge: Judge, clock: nat -> bool)
    requires |planned| == 1 && StopsInTime(0, planned, SURFACES, POLICY, clock)
    requires forall o :: IsApplicable(planned, SURFACES, POLICY, o) <==> o == "o"
    ensures IsProduced(UNJUDGED, planned, SURFACES, POLICY, overlay, judge, clock) && !ValidDocument(UNJUDGED, POLICY)
  {
    hide IsApplicable, StopsInTime, AllRecords;
    assert UNJUDGED.results == [];
  }

  lemma OneOwned()
    ensures MutantsOf(Go, "a.go", TEXT, [FLIP]) == [OwnedMutant()]
  {
  }

  lemma NothingBefore(clock: nat -> bool)
    requires clock(0) || clock(1)
    ensures StopsInTime(0, [OwnedMutant()], SURFACES, POLICY, clock)
  {
    OwnedIsFirst();
    hide FirstOwned, DecisionsBy, Owned, OwnedMutant;
    forall n: nat | FirstLate(clock, n) ensures DecisionsBy([OwnedMutant()], SURFACES, POLICY, n) == 0 {
      assert n <= 1;
      FirstDecision([OwnedMutant()], SURFACES, POLICY, n);
    }
  }
}
