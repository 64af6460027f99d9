/** When a flipped operator is flipped back by planning again. */
module OperatorFlips {
  import opened Words
  import opened Options
  import opened Lexing
  import opened MutationRules
  import opened MutationPlan
  import opened MutationLaws

  /** How often c is repeated at the end of a text. */
  function Trailing(a: string, c: char): nat {
    if a == [] || a[|a| - 1] != c then 0 else 1 + Trailing(a[..|a| - 1], c)
  }

  // ----- patterns that repeat one character -----

  predicate IsRun(p: string, c: char) {
    (|p| == 2 || |p| == 3) && forall i :: 0 <= i < |p| ==> p[i] == c
  }

  /** A run that the scan meets: in code, and after whole patterns only. */
  ghost predicate RunStands(s: string, mask: seq<bool>, p: string, c: char, x: nat) {
    p != [] && MatchesAt(s, p, x) && CodeRange(mask, x, x + |p|) && Trailing(s[..x], c) % |p| == 0
  }

  lemma RunMatches(s: string, p: string, c: char, x: nat)
    requires IsRun(p, c) && x <= |s|
    ensures MatchesAt(s, p, x) <==> x + |p| <= |s| && forall i :: x <= i < x + |p| ==> s[i] == c
  {
    if MatchesAt(s, p, x) {
      assert forall i :: x <= i < x + |p| ==> s[i] == s[x..][i - x] == p[i - x];
    }
    if x + |p| <= |s| && forall i :: x <= i < x + |p| ==> s[i] == c {
      assert p == s[x..][..|p|];
    }
  }

  lemma {:induction false} TrailingGrows(s: string, c: char, x: nat, k: nat)
    requires x + k <= |s| && forall i :: x <= i < x + k ==> s[i] == c
    ensures Trailing(s[..x + k], c) == Trailing(s[..x], c) + k
  {
    if k > 0 {
      TrailingGrows(s, c, x, k - 1);
      assert s[..x + k][..x + k - 1] == s[..x + k - 1];
    }
  }

  /** The scan stands behind whole patterns, or too little of the run is left. */
  ghost predicate Aligned(s: string, p: string, c: char, at: nat)
    requires at <= |s| && p != []
  {
    Trailing(s[..at], c) % |p| == 0 || TooShort(s, p, c, at)
  }

  ghost predicate TooShort(s: string, p: string, c: char, at: nat) {
    exists j :: at <= j < at + |p| && Other(s, c, j)
  }

  predicate Other(s: string, c: char, j: nat) {
    j >= |s| || s[j] != c
  }

  lemma MatchOrShort(s: string, p: string, c: char, at: nat)
    requires IsRun(p, c) && at <= |s|
    ensures MatchesAt(s, p, at) <==> !TooShort(s, p, c, at)
  {
    RunMatches(s, p, c, at);
    if at + |p| > |s| {
      assert Other(s, c, |s|);
    } else {
      assert forall i :: at <= i < at + |p| ==> (Other(s, c, i) <==> s[i] != c);
    }
  }

  lemma AlignedNext(s: string, p: string, c: char, at: nat)
    requires IsRun(p, c) && at < |s| && Aligned(s, p, c, at)
    ensures MatchesAt(s, p, at) ==> at + |p| <= |s| && Aligned(s, p, c, at + |p|)
    ensures !MatchesAt(s, p, at) ==> Aligned(s, p, c, at + 1)
  {
    MatchOrShort(s, p, c, at);
    RunMatches(s, p, c, at);
    if MatchesAt(s, p, at) {
      TrailingGrows(s, c, at, |p|);
    } else if s[at] == c {
      var j :| at <= j < at + |p| && Other(s, c, j);
      assert at + 1 <= j < at + 1 + |p|;
    } else {
      assert Trailing(s[..at + 1], c) == 0;
    }
  }

  /** Inside a matched run no other pattern is met. */
  lemma NoneInside(s: string, mask: seq<bool>, p: string, c: char, at: nat, x: nat)
    requires IsRun(p, c) && at <= |s| && Aligned(s, p, c, at) && MatchesAt(s, p, at) && at < x < at + |p|
    ensures !RunStands(s, mask, p, c, x)
  {
    MatchOrShort(s, p, c, at);
    RunMatches(s, p, c, at);
    TrailingGrows(s, c, at, x - at);
  }

  lemma ReplaceAt(op: string, p: string, r: string, s: string, mask: seq<bool>, at: nat)
    requires p != [] && at < |s|
    ensures var found := At(Replace(p, r), op, s, mask, at);
            && found.1 == (if MatchesAt(s, p, at) then |p| else 1)
            && found.0 == if MatchesAt(s, p, at) && CodeRange(mask, at, at + |p|) then Some(Edit(op, at, at + |p|, r))
                else None
  {
    hide CodeRange;
  }

  lemma NothingBeyond(op: string, p: string, r: string, s: string, mask: seq<bool>, x: nat)
    requires p != [] && x >= |s|
    ensures Sites(Replace(p, r), op, s, mask, x) == [] && !MatchesAt(s, p, x)
  {
  }

  lemma {:induction false} RunSites(op: string, p: string, c: char, r: string, s: string, mask: seq<bool>, at: nat,
                                    e: Edit)
    requires IsRun(p, c) && at <= |s| && Aligned(s, p, c, at)
    ensures e in Sites(Replace(p, r), op, s, mask, at) <==>
              at <= e.start && RunStands(s, mask, p, c, e.start) && e == Edit(op, e.start, e.start + |p|, r)
    decreases |s| - at
  {
    hide At, Sites, MatchesAt, Aligned, CodeRange, Trailing;
    if at == |s| {
      NothingBeyond(op, p, r, s, mask, at);
      NothingBeyond(op, p, r, s, mask, Max(at, e.start));
    } else {
      var found := At(Replace(p, r), op, s, mask, at);
      ReplaceAt(op, p, r, s, mask, at);
      InSites(Replace(p, r), op, s, mask, at, e);
      AlignedNext(s, p, c, at);
      RunSites(op, p, c, r, s, mask, at + found.1, e);
      if at < e.start < at + found.1 {
        NoneInside(s, mask, p, c, at, e.start);
      }
      AlignedMatch(s, mask, p, c, at);
    }
  }

  lemma AlignedMatch(s: string, mask: seq<bool>, p: string, c: char, at: nat)
    requires IsRun(p, c) && at <= |s| && Aligned(s, p, c, at)
    ensures RunStands(s, mask, p, c, at) <==> MatchesAt(s, p, at) && CodeRange(mask, at, at + |p|)
  {
    MatchOrShort(s, p, c, at);
    hide MatchesAt, CodeRange;
  }

  // ----- a pattern that cannot overlap itself -----

  lemma {:induction false} UnborderedSites(op: string, p: string, r: string, s: string, mask: seq<bool>, at: nat,
                                           e: Edit)
    requires Unbordered(p) && at <= |s|
    ensures e in Sites(Replace(p, r), op, s, mask, at) <==>
              && at <= e.start && MatchesAt(s, p, e.start) && CodeRange(mask, e.start, e.start + |p|)
              && e == Edit(op, e.start, e.start + |p|, r)
    decreases |s| - at
  {
    hide At, Sites, MatchesAt, CodeRange;
    if at == |s| {
      NothingBeyond(op, p, r, s, mask, at);
      NothingBeyond(op, p, r, s, mask, Max(at, e.start));
    } else {
      var found := At(Replace(p, r), op, s, mask, at);
      ReplaceAt(op, p, r, s, mask, at);
      InSites(Replace(p, r), op, s, mask, at, e);
      UnborderedSites(op, p, r, s, mask, at + found.1, e);
      if at < e.start < at + found.1 && MatchesAt(s, p, e.start) {
        NoOverlap(s, p, at, e.start);
      }
      hide Unbordered;
    }
  }

  // ----- logical and equality flips -----

  predicate IsOperatorFlip(op: string, p: string, r: string) {
    || (op == "logical_flip" && ((p == "&&" && r == "||") || (p == "||" && r == "&&")))
    || (op == "equality_flip" && ((p == "===" && r == "!==") || (p == "!==" && r == "===")))
  }

  lemma FlipRulesOf(op: string, p: string, r: string)
    requires IsOperatorFlip(op, p, r)
    ensures forall rule :: rule in Rules(TsJs, op) <==> rule == Replace(p, r) || rule == Replace(r, p)
    ensures IsOperatorFlip(op, r, p) && p != r && |p| == |r|
  {
  }

  lemma FlipPatterns(op: string, p: string, r: string)
    requires IsOperatorFlip(op, p, r)
    ensures r == "!==" || IsRun(r, r[0])
    ensures forall i :: 0 <= i < |r| ==> Plain(r[i]) && Plain(p[i])
    ensures Unbordered("!==")
  {
    forall k | 0 < k < 3 ensures "!=="[k..] != "!=="[..3 - k] {
      assert "!=="[k..][0] == "!=="[k] != '!';
    }
  }

  /** Where the scan finds a pattern with a given replacement. */
  ghost predicate Stands(s: string, p: string, x: nat) {
    MatchesAt(s, p, x) && CodeRange(Mask(s), x, x + |p|)
        && (p == "!==" || (p != [] && Trailing(s[..x], p[0]) % |p| == 0))
  }

  lemma OperatorSites(op: string, p: string, r: string, s: string, e: Edit)
    requires IsOperatorFlip(op, p, r)
    ensures e in Sites(Replace(p, r), op, s, Mask(s), 0) <==>
              Stands(s, p, e.start) && e == Edit(op, e.start, e.start + |p|, r)
  {
    hide Sites, Mask, MatchesAt, CodeRange;
    FlipPatterns(op, r, p);
    if p == "!==" {
      UnborderedSites(op, p, r, s, Mask(s), 0, e);
    } else {
      assert s[..0] == [] && Aligned(s, p, p[0], 0);
      RunSites(op, p, p[0], r, s, Mask(s), 0, e);
    }
  }

  /** An edit of a flip is found exactly where its pattern stands. */
  lemma OperatorIsFound(op: string, p: string, r: string, s: string, x: nat)
    requires IsOperatorFlip(op, p, r)
    ensures IsFound(TsJs, s, Edit(op, x, x + |p|, r)) <==> Stands(s, p, x)
  {
    hide Sites, Mask, Stands, Rules, IsOperatorFlip;
    var e := Edit(op, x, x + |p|, r);
    FlipRulesOf(op, p, r);
    OperatorSites(op, p, r, s, e);
    OperatorSites(op, r, p, s, e);
    FlipsAreSensible(op, p, r);
  }

  lemma FlipsAreSensible(op: string, p: string, r: string)
    requires IsOperatorFlip(op, p, r)
    ensures Sensible(Replace(p, r)) && Sensible(Replace(r, p))
  {
  }

  lemma OperatorMarks(a: string, p: string, r: string, t: string)
    requires p != [] && |p| == |r| && forall i :: 0 <= i < |r| ==> Plain(r[i]) && Plain(p[i])
    requires CodeRange(Mask(a + (p + t)), |a|, |a| + |p|)
    ensures CodeRange(Mask(a + (r + t)), |a|, |a| + |r|)
    ensures forall i :: 0 <= i < |a| ==> Mask(a + (r + t))[i] == Mask(a + (p + t))[i]
  {
    hide Mask, Plain;
    assert (p + t)[0] == p[0] && (r + t)[0] == r[0];
    MaskSwap(a, p + t, r + t);
    PlainText(r, t);
  }

  lemma PatternHere(a: string, p: string, t: string)
    ensures MatchesAt(a + (p + t), p, |a|) && (a + (p + t))[..|a|] == a
  {
    assert (a + (p + t))[|a|..] == p + t;
  }

  /** Whole operators only, or one that cannot overlap itself. */
  predicate Undoable(a: string, r: string) {
    r == "!==" || (r != [] && Trailing(a, r[0]) % |r| == 0)
  }

  lemma FlippedStands(op: string, a: string, p: string, r: string, t: string)
    requires IsOperatorFlip(op, p, r) && Stands(a + (p + t), p, |a|)
    ensures Stands(a + (r + t), r, |a|) <==> Undoable(a, r)
  {
    hide Mask, MatchesAt, CodeRange;
    FlipPatterns(op, p, r);
    OperatorMarks(a, p, r, t);
    PatternHere(a, r, t);
    hide Trailing;
  }

  lemma FoundBackExactlyWhen(op: string, a: string, p: string, r: string, t: string)
    requires IsOperatorFlip(op, p, r) && IsFound(TsJs, a + (p + t), Edit(op, |a|, |a| + |p|, r))
    ensures IsFound(TsJs, a + (r + t), Edit(op, |a|, |a| + |r|, p)) <==> Undoable(a, r)
  {
    FlipRulesOf(op, p, r);
    hide Stands, IsFound, IsOperatorFlip, Undoable;
    OperatorIsFound(op, p, r, a + (p + t), |a|);
    OperatorIsFound(op, r, p, a + (r + t), |a|);
    FlippedStands(op, a, p, r, t);
  }

  lemma PlannedHere(e: Ecosystem, s: string, changed: set<u32>, requested: set<string>, x: Edit)
    requires x.start <= |s| && x.operator in requested
    ensures IsPlanned(e, s, changed, requested, x) <==> LineAt(s, x.start) in changed && IsFound(e, s, x)
  {
    hide LineAt, IsFound;
  }

  /**
   * Planning again flips an operator back exactly when the characters of the new operator right
   * before it are whole operators themselves; `!==` is always found again.
   */
  lemma OperatorFlipIsUndoneExactlyWhen(changed: set<u32>, requested: set<string>, op: string, a: string, p: string,
                                        r: string, t: string)
    requires IsOperatorFlip(op, p, r) && op in requested
    requires IsPlanned(TsJs, a + (p + t), changed, requested, Edit(op, |a|, |a| + |p|, r))
    ensures IsPlanned(TsJs, a + (r + t), changed, requested, Edit(op, |a|, |a| + |r|, p)) <==> Undoable(a, r)
  {
    FlipRulesOf(op, p, r);
    hide IsFound, IsOperatorFlip, LineAt, Undoable;
    PlannedHere(TsJs, a + (p + t), changed, requested, Edit(op, |a|, |a| + |p|, r));
    PlannedHere(TsJs, a + (r + t), changed, requested, Edit(op, |a|, |a| + |r|, p));
    SameLine(a, p + t, r + t, |a|);
    hide IsPlanned;
    FoundBackExactlyWhen(op, a, p, r, t);
  }

  // ----- a flip that cannot be taken back -----

  lemma PlainMask(s: string)
    requires forall i :: 0 <= i < |s| ==> Plain(s[i])
    ensures Mask(s) == Flags(|s|, true)
  {
    PlainText(s, "");
    assert s + "" == s;
  }

  lemma BarStands()
    ensures Stands("|&&", "&&", 1) && !Undoable("|", "||") && LineAt("|&&", 1) == 1
  {
    PlainMask("|&&");
    var a := "|";
    assert "|&&" == a + ("&&" + "") && a[..0] == [];
    PatternHere(a, "&&", "");
    assert Trailing(a, '&') == 0 && Trailing(a, '|') == 1;
  }

  /** `|&&` becomes `|||`, where the first two bars are found and the flipped two are not. */
  lemma FlipAfterABarStays()
    ensures IsPlanned(TsJs, "|&&", {1}, {"logical_flip"}, Edit("logical_flip", 1, 3, "||"))
    ensures !IsPlanned(TsJs, "|||", {1}, {"logical_flip"}, Edit("logical_flip", 1, 3, "&&"))
  {
    hide Stands, Undoable, LineAt, IsFound;
    BarStands();
    OperatorIsFound("logical_flip", "&&", "||", "|&&", 1);
    assert "|" + ("&&" + "") == "|&&" && "|" + ("||" + "") == "|||";
    OperatorFlipIsUndoneExactlyWhen({1}, {"logical_flip"}, "logical_flip", "|", "&&", "||", "");
  }

  // ----- the equality flip of Rust -----

  /** Where the scan finds an operator: not inside the one before, and no part of an arrow or a longer operator. */
  ghost predicate RustStands(s: string, mask: seq<bool>, x: nat) {
    || NotEqualAt(s, mask, x)
    || (MatchesAt(s, "==", x) && CodeRange(mask, x, x + 2) && !HasAt(s, x + 2, '>') && !HasBefore(s, x, '=')
        && (x > 0 ==> !NotEqualAt(s, mask, x - 1)))
  }

  predicate NotEqualAt(s: string, mask: seq<bool>, x: nat) {
    MatchesAt(s, "!=", x) && CodeRange(mask, x, x + 2)
  }

  function RustFlip(op: string, s: string, x: nat): Edit {
    Edit(op, x, x + 2, if MatchesAt(s, "!=", x) then "==" else "!=")
  }

  lemma RustAt(op: string, s: string, mask: seq<bool>, at: nat)
    requires at < |s| && (at > 0 ==> !NotEqualAt(s, mask, at - 1))
    ensures var found := At(RustEquality, op, s, mask, at);
            if RustStands(s, mask, at)
            then found == (Some(RustFlip(op, s, at)), 2) && at + 2 <= |s| && !RustStands(s, mask, at + 1)
                 && !NotEqualAt(s, mask, at + 1)
            else found == (None, 1) && !NotEqualAt(s, mask, at)
  {
    hide CodeRange;
    TwoChars(s, "!=", at);
    TwoChars(s, "==", at);
    TwoChars(s, "!=", at + 1);
    TwoChars(s, "==", at + 1);
    hide MatchesAt;
  }

  lemma TwoChars(s: string, p: string, x: nat)
    requires |p| == 2
    ensures MatchesAt(s, p, x) <==> x + 2 <= |s| && s[x] == p[0] && s[x + 1] == p[1]
  {
    if x + 2 <= |s| && s[x] == p[0] && s[x + 1] == p[1] {
      assert s[x..][..2] == p;
    }
  }

  lemma {:induction false} RustSites(op: string, s: string, mask: seq<bool>, at: nat, e: Edit)
    requires at <= |s| && (at > 0 ==> !NotEqualAt(s, mask, at - 1))
    ensures e in Sites(RustEquality, op, s, mask, at) <==>
              at <= e.start && RustStands(s, mask, e.start) && e == RustFlip(op, s, e.start)
    decreases |s| - at
  {
    hide At, Sites, RustStands, NotEqualAt, MatchesAt;
    if at == |s| {
      RustEnds(op, s, mask, at);
      RustEnds(op, s, mask, Max(at, e.start));
    } else {
      var found := At(RustEquality, op, s, mask, at);
      RustAt(op, s, mask, at);
      InSites(RustEquality, op, s, mask, at, e);
      RustSites(op, s, mask, at + found.1, e);
    }
  }

  lemma RustEnds(op: string, s: string, mask: seq<bool>, x: nat)
    requires x >= |s|
    ensures Sites(RustEquality, op, s, mask, x) == [] && !RustStands(s, mask, x)
  {
    TwoChars(s, "!=", x);
    TwoChars(s, "==", x);
  }

  predicate IsRustFlip(p: string, r: string) {
    (p == "==" && r == "!=") || (p == "!=" && r == "==")
  }

  lemma RustIsFound(p: string, r: string, s: string, x: nat)
    requires IsRustFlip(p, r)
    ensures IsFound(Rust, s, Edit("eq_neq_flip", x, x + 2, r)) <==> RustStands(s, Mask(s), x) && MatchesAt(s, p, x)
  {
    hide Sites, Mask;
    assert Rules(Rust, "eq_neq_flip") == [RustEquality] && RustEquality in [RustEquality];
    RustSites("eq_neq_flip", s, Mask(s), 0, Edit("eq_neq_flip", x, x + 2, r));
    TwoChars(s, "!=", x);
    TwoChars(s, "==", x);
    hide MatchesAt, CodeRange;
  }

  /** A new `==` is found unless it continues an operator before it or an arrow after it. */
  predicate RustUndoable(a: string, r: string, t: string, mask: seq<bool>) {
    r == "!=" ||
    (!HasAt(t, 0, '>') && !HasBefore(a, |a|, '=') && !(HasBefore(a, |a|, '!') && |a| <= |mask| && mask[|a| - 1]))
  }

  lemma RustFlippedStands(a: string, p: string, r: string, t: string)
    requires IsRustFlip(p, r) && MatchesAt(a + (p + t), p, |a|) && CodeRange(Mask(a + (p + t)), |a|, |a| + 2)
    ensures var s := a + (r + t);
            RustStands(s, Mask(s), |a|) && MatchesAt(s, r, |a|) <==> RustUndoable(a, r, t, Mask(a + (p + t)))
  {
    hide Mask, MatchesAt, RustStands, RustUndoable, CodeRange;
    var s := a + (r + t);
    PatternHere(a, r, t);
    OperatorMarks(a, p, r, t);
    if r == "!=" {
      NotEqualStands(a, t, Mask(s), Mask(a + (p + t)));
    } else {
      EqualStands(a, t, Mask(s), Mask(a + (p + t)));
    }
  }

  lemma NotEqualStands(a: string, t: string, mask: seq<bool>, before: seq<bool>)
    requires var s := a + ("!=" + t); MatchesAt(s, "!=", |a|) && CodeRange(mask, |a|, |a| + 2)
    ensures RustStands(a + ("!=" + t), mask, |a|) && RustUndoable(a, "!=", t, before)
  {
    hide MatchesAt, CodeRange;
  }

  lemma EqualStands(a: string, t: string, mask: seq<bool>, before: seq<bool>)
    requires var s := a + ("==" + t); MatchesAt(s, "==", |a|) && CodeRange(mask, |a|, |a| + 2)
    requires |a| <= |before| && forall i :: 0 <= i < |a| ==> mask[i] == before[i]
    ensures RustStands(a + ("==" + t), mask, |a|) <==> RustUndoable(a, "==", t, before)
  {
    var s := a + ("==" + t);
    TwoChars(s, "!=", |a|);
    if |a| > 0 {
      TwoChars(s, "!=", |a| - 1);
      assert s[|a| - 1] == a[|a| - 1] && s[|a|] == '=';
    }
    assert HasAt(s, |a| + 2, '>') <==> HasAt(t, 0, '>');
    hide MatchesAt;
  }

  /** Planning again flips a Rust comparison back exactly when the new operator stands apart from its neighbours. */
  lemma RustFlipIsUndoneExactlyWhen(changed: set<u32>, requested: set<string>, a: string, p: string, r: string,
                                    t: string)
    requires IsRustFlip(p, r) && "eq_neq_flip" in requested
    requires IsPlanned(Rust, a + (p + t), changed, requested, Edit("eq_neq_flip", |a|, |a| + 2, r))
    ensures IsPlanned(Rust, a + (r + t), changed, requested, Edit("eq_neq_flip", |a|, |a| + 2, p)) <==>
              RustUndoable(a, r, t, Mask(a + (p + t)))
  {
    var s := a + (p + t);
    RustIsFound(p, r, s, |a|);
    RustIsFound(r, p, a + (r + t), |a|);
    assert CodeRange(Mask(s), |a|, |a| + 2);
    hide Mask, LineAt, IsFound, RustStands, RustUndoable, MatchesAt, CodeRange;
    RustFlippedStands(a, p, r, t);
    SameLine(a, p + t, r + t, |a|);
  }
}
