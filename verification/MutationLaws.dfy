/** What the mutants of a plan promise, and how a flipped word is flipped back. */
module MutationLaws {
  import opened Words
  import opened Options
  import Text
  import opened Sorting
  import opened Decimal
  import opened Lexing
  import opened MutationRules
  import opened MutationPlan

  // ----- the reported position -----

  /** Where the newlines of a text are. */
  ghost function NewlinesIn(s: string): set<nat> {
    set i: nat | i < |s| && s[i] == '\n'
  }

  lemma {:induction false} NewlinesAreCounted(s: string)
    ensures Newlines(s) == |NewlinesIn(s)|
  {
    if s != [] {
      var n := |s| - 1;
      NewlinesAreCounted(s[..n]);
      var before := NewlinesIn(s[..n]);
      assert NewlinesIn(s) == before + if s[n] == '\n' then {n as nat} else {};
    }
  }

  /** k characters back from the end the last line of the text starts. */
  predicate LineStartsBack(s: string, k: nat) {
    && k <= |s| && '\n' !in s[|s| - k..]
    && (k == |s| || s[|s| - k - 1] == '\n')
  }

  lemma {:induction false} LineStart(s: string)
    ensures LineStartsBack(s, SinceNewline(s))
  {
    if s != [] && s[|s| - 1] != '\n' {
      var n := |s| - 1;
      LineStart(s[..n]);
      var k := SinceNewline(s[..n]);
      assert s[|s| - (k + 1)..] == s[..n][n - k..] + [s[n]];
    }
  }

  /** Line and column of a mutant: one more than the newlines before it, and one more than the characters since. */
  lemma MutantPosition(e: Ecosystem, path: string, s: string, edit: Edit)
    requires edit.start <= edit.end <= |s|
    ensures var m := MutantOf(e, path, s, edit);
            && m.line == Min(U32_MAX, |set i: nat | i < m.start && s[i] == '\n'| + 1)
            && exists k: nat :: LineStartsBack(s[..m.start], k) && m.column == Min(U32_MAX, k + 1)
  {
    var text := s[..edit.start];
    NewlinesAreCounted(text);
    assert NewlinesIn(text) == set i: nat | i < edit.start && s[i] == '\n';
    LineStart(text);
  }

  /** A plan is in order of start, end, operator and replacement, and no edit stands in it twice. */
  lemma PlanIsOrdered(e: Ecosystem, s: string, changed: set<u32>, requested: set<string>, edits: seq<Edit>, i: nat,
                      j: nat)
    requires IsPlan(e, s, changed, requested, edits) && i < j < |edits|
    ensures var a, b := edits[i], edits[j];
            && a != b && a.start <= b.start && (a.start == b.start ==> a.end <= b.end)
            && (a.start == b.start && a.end == b.end ==> !Text.Before(b.operator, a.operator))
            && (a.start == b.start && a.end == b.end && a.operator == b.operator ==>
                  !Text.Before(b.replacement, a.replacement))
  {
    hide IsPlanned;
    Text.BeforeIsStrictOrder();
    hide Text.Before;
  }

  /** A planned mutant applies, touches code only, and stays on a changed line, counted in newlines before it. */
  lemma PlannedMutantIsSafe(e: Ecosystem, path: string, s: string, changed: set<u32>, requested: set<string>,
                            edit: Edit)
    requires IsPlanned(e, s, changed, requested, edit)
    ensures edit.start <= edit.end <= |s|
    ensures var m := MutantOf(e, path, s, edit);
            && m.Apply(s) == Ok(s[..edit.start] + edit.replacement + s[edit.end..])
            && m.original == s[edit.start..edit.end] && m.replacement == edit.replacement
            && m.start == edit.start && m.end == edit.end && m.operator == edit.operator
            && m.path == path && m.ecosystem == e
            && m.line == Min(U32_MAX, |set i: nat | i < m.start && s[i] == '\n'| + 1)
            && m.line in changed && m.operator in requested
            && (exists k: nat :: LineStartsBack(s[..m.start], k) && m.column == Min(U32_MAX, k + 1))
            && (forall i :: m.start <= i < m.end ==> Mask(s)[i])
            && (m.start == m.end ==> (m.start > 0 && Mask(s)[m.start - 1]) || (m.start < |s| && Mask(s)[m.start]))
  {
    hide Mask, LineAt, SinceNewline, IsFound;
    FoundIsSafe(e, s, edit);
    MutantPosition(e, path, s, edit);
    hide LineStartsBack;
  }

  /** The mutant that puts the original back. */
  function Reversed(m: SourceMutant): SourceMutant {
    m.(end := m.start + |m.replacement|, original := m.replacement, replacement := m.original)
  }

  /**
   * Once applied, a mutant finds the text stale unless its replacement and what follows begin with the
   * original; it can be undone.
   */
  lemma MutantRefusesStaleText(m: SourceMutant, s: string)
    requires m.Apply(s).Ok?
    ensures m.Apply(m.Apply(s).value).Ok? <==> m.original <= m.replacement + s[m.end..]
    ensures Reversed(m).Apply(m.Apply(s).value) == Ok(s)
  {
    var after := m.replacement + s[m.end..];
    var t := m.Apply(s).value;
    assert t == s[..m.start] + after;
    assert t[m.start..] == after;
    assert m.end <= |t| ==> t[m.start..m.end] == after[..m.end - m.start];
    assert t[m.start..m.start + |m.replacement|] == m.replacement;
    assert s == s[..m.start] + m.original + s[m.end..];
  }

  lemma SameIdSameEdit(e: Ecosystem, path: string, s: string, a: Edit, b: Edit)
    requires a.start <= a.end <= |s| && b.start <= b.end <= |s|
    requires MutantOf(e, path, s, a).id == MutantOf(e, path, s, b).id
    ensures a == b
  {
    assert |s[a.start..a.end]| == |s[b.start..b.end]|;
  }

  lemma PlanIdsAreDistinct(e: Ecosystem, path: string, s: string, edits: seq<Edit>)
    requires Ascending(edits, EditLess) && forall x :: x in edits ==> x.start <= x.end <= |s|
    ensures var ms := MutantsOf(e, path, s, edits); forall i, j :: 0 <= i < j < |ms| ==> ms[i].id != ms[j].id
  {
    EditLessIsTotal();
    var ms := MutantsOf(e, path, s, edits);
    hide EditLess, MutantOf;
    forall i, j | 0 <= i < j < |ms| ensures ms[i].id != ms[j].id {
      assert edits[i] in edits && edits[j] in edits;
      assert EditLess(edits[i], edits[j]);
      if ms[i].id == ms[j].id {
        SameIdSameEdit(e, path, s, edits[i], edits[j]);
      }
    }
  }

  // ----- mutants that change nothing -----

  /** The rule's replacement text is never its own pattern. */
  predicate Alters(rule: Rule) {
    match rule
    case Replace(p, r) => p != r
    case Word(p, r) => p != r
    case StandaloneCall(call) => call != "void 0"
    case _ => true
  }

  lemma SameLengthFlipsDiffer()
    ensures "===" != "!==" && "&&" != "||" && "+1" != "-1"
    ensures "err != nil" != "err == nil" && "nil != err" != "nil == err" && ".is_some()" != ".is_none()"
  {
    assert "==="[0] != "!=="[0];
    assert "err != nil"[4] != "err == nil"[4];
    assert "nil != err"[4] != "nil == err"[4];
    assert ".is_some()"[4] != ".is_none()"[4];
  }

  lemma TsJsRulesAlter(op: string)
    ensures forall rule :: rule in TsJsRules(op) ==> Alters(rule)
  {
    SameLengthFlipsDiffer();
  }

  lemma SliceBoundRule(op: string)
    ensures forall rule :: rule in TsJsRules(op) ==> (rule.SliceBound? <==> op == "collection_boundary")
  {
  }

  lemma OtherRulesBoundNothing(op: string)
    ensures forall rule :: rule in GoRules(op) || rule in RustRules(op) ==>
              !rule.SliceBound? && op != "collection_boundary"
  {
  }

  lemma OtherRulesAlter(op: string)
    ensures forall rule :: rule in GoRules(op) || rule in RustRules(op) ==> Alters(rule)
  {
    SameLengthFlipsDiffer();
  }

  lemma RulesAlter(e: Ecosystem, op: string)
    ensures forall rule :: rule in Rules(e, op) ==> Alters(rule) && (rule.SliceBound? <==> op == "collection_boundary")
  {
    hide TsJsRules, GoRules, RustRules, Alters;
    TsJsRulesAlter(op);
    OtherRulesAlter(op);
    SliceBoundRule(op);
    OtherRulesBoundNothing(op);
  }

  /** The largest bound: adding one to it saturates. */
  function FullBound(): string {
    Print(U64_MAX)
  }

  lemma NextBoundAlters(text: string)
    requires Parse(text, U64_MAX).Some?
    ensures Parse(text, U64_MAX).value <= U64_MAX
    ensures Print(SatAdd(Parse(text, U64_MAX).value, 1)) == text <==> text == FullBound()
  {
    var v: u64 := Parse(text, U64_MAX).value;
    ParsePrint(SatAdd(v, 1), U64_MAX);
    ParsePrint(U64_MAX, U64_MAX);
    hide Parse, Print;
  }

  lemma SliceBoundAlters(op: string, s: string, mask: seq<bool>, at: nat)
    requires at + 9 <= |s|
    ensures var e := SliceBoundEdit(op, s, mask, at);
            e.Some? ==> e.value.start <= e.value.end <= |s|
                        && (e.value.replacement == s[e.value.start..e.value.end] <==>
                            s[e.value.start..e.value.end] == FullBound())
  {
    hide AfterSpace, AfterDigits, CodeRange, Print, FullBound;
    var e := SliceBoundEdit(op, s, mask, at);
    if e.Some? {
      NextBoundAlters(s[e.value.start..e.value.end]);
    }
  }

  /** An edit whose replacement is exactly what it replaces. */
  ghost predicate IsIdle(s: string, e: Edit) {
    e.start <= e.end <= |s| && e.replacement == s[e.start..e.end]
  }

  /** Only a slice bound at the ceiling is replaced by itself. */
  ghost predicate IdleOnlyAtCeiling(rule: Rule, s: string, e: Edit) {
    && e.start <= e.end <= |s|
    && (IsIdle(s, e) <==> rule.SliceBound? && s[e.start..e.end] == FullBound())
  }

  lemma SiteAlters(rule: Rule, op: string, s: string, mask: seq<bool>, at: nat)
    requires MatchesAt(s, Pattern(rule), at) && Sensible(rule) && Alters(rule)
    ensures var e := SiteEdit(rule, op, s, mask, at); e.Some? ==> IdleOnlyAtCeiling(rule, s, e.value)
  {
    hide AfterSpace, AfterDigits, CodeRange, WordBoundary, Parse, Print, FullBound;
    assert Pattern(rule) == s[at..at + |Pattern(rule)|];
    if rule.SliceBound? {
      SliceBoundAlters(op, s, mask, at);
      hide SliceBoundEdit;
    } else if rule.ReturnZero? {
      ReturnZeroAlters(op, s, mask, at);
      hide ReturnZeroEdit;
    } else {
      hide SliceBoundEdit, ReturnZeroEdit;
    }
  }

  lemma ReturnZeroAlters(op: string, s: string, mask: seq<bool>, at: nat)
    requires at + 6 <= |s|
    ensures var e := ReturnZeroEdit(op, s, mask, at);
            e.Some? ==> e.value.start <= e.value.end <= |s| && !IsIdle(s, e.value)
  {
    hide AfterSpace, CodeRange, WordBoundary;
    var e := ReturnZeroEdit(op, s, mask, at);
    if e.Some? && e.value.end <= |s| {
      var original := s[e.value.start..e.value.end];
      if e.value.replacement == "0" {
        var i :| e.value.start <= i < e.value.end && s[i] != '0';
        assert original[i - e.value.start] == s[i];
      }
    }
  }

  lemma AtAlters(rule: Rule, op: string, s: string, mask: seq<bool>, at: nat)
    requires at < |s| && Sensible(rule) && Alters(rule)
    ensures var e := At(rule, op, s, mask, at).0; e.Some? ==> IdleOnlyAtCeiling(rule, s, e.value)
  {
    hide CodeRange, SiteEdit, FullBound, Spaced;
    if rule.RustEquality? {
      assert MatchesAt(s, "!=", at) ==> s[at..at + 2][0] == '!';
      assert MatchesAt(s, "==", at) ==> s[at..at + 2][0] == '=';
    } else if !rule.Comparison? && MatchesAt(s, Pattern(rule), at) {
      SiteAlters(rule, op, s, mask, at);
    }
  }

  lemma {:induction false} SitesAlter(rule: Rule, op: string, s: string, mask: seq<bool>, at: nat, e: Edit)
    requires Sensible(rule) && Alters(rule) && e in Sites(rule, op, s, mask, at)
    ensures IdleOnlyAtCeiling(rule, s, e)
    decreases |s| - at
  {
    hide At, Sites, Alters, IdleOnlyAtCeiling, Sensible;
    SitesEnd(rule, op, s, mask, at);
    var r := At(rule, op, s, mask, at);
    InSites(rule, op, s, mask, at, e);
    if r.0 == Some(e) {
      AtAlters(rule, op, s, mask, at);
    } else {
      SitesAlter(rule, op, s, mask, at + r.1, e);
    }
  }

  lemma IdleEdits(e: Ecosystem, s: string, edit: Edit)
    requires IsFound(e, s, edit)
    ensures edit.start <= edit.end <= |s|
    ensures IsIdle(s, edit) <==> edit.operator == "collection_boundary" && s[edit.start..edit.end] == FullBound()
  {
    hide Sites, Mask, Sensible, Alters, FullBound, IsIdle, Rules;
    FoundIsSafe(e, s, edit);
    RulesAlter(e, edit.operator);
    var rule :| rule in Rules(e, edit.operator) && Sensible(rule) && edit in Sites(rule, edit.operator, s, Mask(s), 0);
    SitesAlter(rule, edit.operator, s, Mask(s), 0, edit);
  }

  lemma SpliceIsIdle(s: string, start: nat, end: nat, text: string)
    requires start <= end <= |s|
    ensures s[..start] + text + s[end..] == s <==> text == s[start..end]
  {
    assert s == s[..start] + s[start..end] + s[end..];
    var t := s[..start] + text + s[end..];
    if t == s {
      assert |text| == end - start;
      assert text == t[start..end];
    }
  }

  /** A planned mutant leaves the text as it was exactly when it would raise the largest slice bound. */
  lemma MutantIsIdleExactlyWhen(e: Ecosystem, path: string, s: string, changed: set<u32>, requested: set<string>,
                                edit: Edit)
    requires IsPlanned(e, s, changed, requested, edit)
    ensures edit.start <= edit.end <= |s|
    ensures var m := MutantOf(e, path, s, edit);
            m.Apply(s) == Ok(s) <==> m.operator == "collection_boundary" && m.original == FullBound()
  {
    hide IsFound, FullBound, LineAt, SinceNewline;
    IdleEdits(e, s, edit);
    SpliceIsIdle(s, edit.start, edit.end, edit.replacement);
  }

  // ----- flipped words are flipped back -----

  predicate IsFlip(p: string, r: string) {
    (p == "true" && r == "false") || (p == "false" && r == "true")
  }

  predicate IsFlipOperator(e: Ecosystem, op: string) {
    op == if e.TsJs? then "bool_flip" else "invert_bool"
  }

  predicate Letters(w: string) {
    w != [] && forall i :: 0 <= i < |w| ==> 'a' <= w[i] <= 'z'
  }

  /** A whole word true or false in code, with its flip. */
  ghost predicate IsFlipEdit(op: string, s: string, x: Edit) {
    exists p, r :: IsFlip(p, r) && StandsAt(s, Mask(s), p, x.start) && x == Edit(op, x.start, x.start + |p|, r)
  }

  lemma FlipRules(e: Ecosystem, op: string)
    requires IsFlipOperator(e, op)
    ensures Rules(e, op) == [Word("true", "false"), Word("false", "true")]
  {
  }

  lemma FlipsAreFound(e: Ecosystem, op: string, s: string, x: Edit)
    requires IsFlipOperator(e, op) && x.operator == op
    ensures IsFound(e, s, x) <==> IsFlipEdit(op, s, x)
  {
    hide Sites, Mask, StandsAt, Rules;
    FlipRules(e, op);
    FlipWordsAreUnbordered();
    var rules := Rules(e, op);
    WordSites(op, "true", "false", s, Mask(s), 0, x);
    WordSites(op, "false", "true", s, Mask(s), 0, x);
    hide Unbordered;
    assert forall rule :: rule in rules <==> rule == Word("true", "false") || rule == Word("false", "true");
    assert IsFlip("true", "false") && IsFlip("false", "true");
  }

  lemma FlipWordsAreLetters(p: string, r: string)
    requires IsFlip(p, r)
    ensures Letters(p) && Letters(r) && IsFlip(r, p) && p[0] != r[0]
  {
  }

  /** The marks after a word in code is replaced by another word. */
  lemma WordMarks(a: string, p: string, r: string, t: string)
    requires Letters(p) && Letters(r) && Mask(a + (p + t))[|a|]
    ensures Mask(a + (r + t)) == Mask(a + (p + t))[..|a|] + (Flags(|r|, true) + Mask(t))
  {
    hide Mask;
    assert (p + t)[0] == p[0] && (r + t)[0] == r[0];
    MaskSwap(a, p + t, r + t);
    PlainText(r, t);
  }

  /** The replacement stands where the word stood. */
  lemma FlipStands(a: string, p: string, r: string, t: string)
    requires Letters(p) && Letters(r) && StandsAt(a + (p + t), Mask(a + (p + t)), p, |a|)
    ensures StandsAt(a + (r + t), Mask(a + (r + t)), r, |a|)
  {
    var s, s' := a + (p + t), a + (r + t);
    hide Mask, IsIdentifier;
    assert Mask(s)[|a|];
    WordMarks(a, p, r, t);
    assert s[|a| + |p|..] == t == s'[|a| + |r|..];
    assert s'[|a|..] == r + t;
    assert |a| > 0 ==> s'[|a| - 1] == s[|a| - 1];
    assert t != [] ==> s[|a| + |p|] == t[0] == s'[|a| + |r|];
  }

  /** Whole words before the flipped one are where they were. */
  lemma EarlierStands(a: string, p: string, r: string, t: string, q: string, y: nat)
    requires Letters(p) && Letters(r) && Letters(q) && y < |a|
    requires StandsAt(a + (p + t), Mask(a + (p + t)), p, |a|) && StandsAt(a + (p + t), Mask(a + (p + t)), q, y)
    ensures StandsAt(a + (r + t), Mask(a + (r + t)), q, y)
  {
    var s, s' := a + (p + t), a + (r + t);
    hide Mask;
    EarlierEnds(a, p, t, q, y);
    assert Mask(s)[|a|];
    WordMarks(a, p, r, t);
    assert s[y..][..|q|] == a[y..y + |q|] == s'[y..][..|q|];
    assert forall i :: 0 <= i < |a| ==> s[i] == a[i] == s'[i] && Mask(s)[i] == Mask(s')[i];
    hide IsIdentifier;
  }

  lemma LetterInside(s: string, q: string, y: nat, i: nat)
    requires MatchesAt(s, q, y) && Letters(q) && y <= i < y + |q|
    ensures i < |s| && IsIdentifier(s[i])
  {
    assert s[i] == s[y..][i - y] == q[i - y];
  }

  lemma EarlierEnds(a: string, p: string, t: string, q: string, y: nat)
    requires Letters(p) && Letters(q) && y < |a|
    requires StandsAt(a + (p + t), Mask(a + (p + t)), p, |a|) && StandsAt(a + (p + t), Mask(a + (p + t)), q, y)
    ensures y + |q| < |a|
  {
    hide Mask, Letters;
    if y + |q| >= |a| {
      LetterInside(a + (p + t), q, y, |a| - 1);
    }
  }

  /** Before the flipped word both texts have the same flips. */
  lemma EarlierFlipsAgree(op: string, a: string, p: string, r: string, t: string, x: Edit)
    requires IsFlip(p, r) && StandsAt(a + (p + t), Mask(a + (p + t)), p, |a|) && x.start < |a|
    ensures IsFlipEdit(op, a + (p + t), x) ==> IsFlipEdit(op, a + (r + t), x)
  {
    hide Mask, StandsAt, IsFlip, Letters;
    FlipWordsAreLetters(p, r);
    var s := a + (p + t);
    if IsFlipEdit(op, s, x) {
      var q, u :| IsFlip(q, u) && StandsAt(s, Mask(s), q, x.start) && x == Edit(op, x.start, x.start + |q|, u);
      FlipWordsAreLetters(q, u);
      EarlierStands(a, p, r, t, q, x.start);
    }
  }

  lemma SameFirstSameFlip(p: string, r: string, q: string, u: string)
    requires IsFlip(p, r) && IsFlip(q, u) && p[0] == q[0]
    ensures p == q && r == u
  {
  }

  /** One flip at most starts at a position. */
  lemma FlipIsUnique(op: string, s: string, p: string, r: string, x: Edit)
    requires IsFlip(p, r) && StandsAt(s, Mask(s), p, x.start) && IsFlipEdit(op, s, x)
    ensures x == Edit(op, x.start, x.start + |p|, r)
  {
    hide Mask, CodeRange, WordBoundary, IsFlip;
    var q, u :| IsFlip(q, u) && StandsAt(s, Mask(s), q, x.start) && x == Edit(op, x.start, x.start + |q|, u);
    FlipWordsAreLetters(p, r);
    FlipWordsAreLetters(q, u);
    assert s[x.start..][0] == p[0] == q[0];
    SameFirstSameFlip(p, r, q, u);
  }

  lemma FlipAtOneStart(op: string, s: string, x: Edit, y: Edit)
    requires IsFlipEdit(op, s, x) && IsFlipEdit(op, s, y) && x.start == y.start
    ensures x == y
  {
    hide Mask, StandsAt, IsFlip;
    var p, r :| IsFlip(p, r) && StandsAt(s, Mask(s), p, x.start) && x == Edit(op, x.start, x.start + |p|, r);
    FlipIsUnique(op, s, p, r, y);
  }

  /** The edits before the i-th are exactly the planned ones that start earlier. */
  lemma PlanPrefix(e: Ecosystem, s: string, changed: set<u32>, op: string, edits: seq<Edit>, i: nat)
    requires IsFlipOperator(e, op) && IsPlan(e, s, changed, {op}, edits) && i < |edits|
    ensures forall x :: x in edits[..i] <==> IsPlanned(e, s, changed, {op}, x) && x.start < edits[i].start
  {
    hide IsFlipEdit, IsFound, IsFlipOperator, LineAt;
    EditLessIsTotal();
    assert forall k :: i < k < |edits| ==> EditLess(edits[i], edits[k]) && edits[i].start <= edits[k].start;
    forall x ensures x in edits[..i] <==> x in edits && x.start < edits[i].start {
      if x in edits[..i] {
        var k :| 0 <= k < i && edits[k] == x;
        assert EditLess(edits[k], edits[i]) && edits[i] in edits && x in edits;
        FlipsAreFound(e, op, s, x);
        FlipsAreFound(e, op, s, edits[i]);
        if x.start == edits[i].start { FlipAtOneStart(op, s, x, edits[i]); }
      }
      if x in edits && x.start < edits[i].start {
        var k :| 0 <= k < |edits| && edits[k] == x;
      }
    }
  }

  lemma SameLine(a: string, b: string, c: string, at: nat)
    requires at <= |a|
    ensures LineAt(a + b, at) == LineAt(a + c, at)
  {
    assert (a + b)[..at] == a[..at] == (a + c)[..at];
  }

  /** A planned flip, taken apart: the text before, the word, its flip, the text after. */
  lemma PlannedFlip(e: Ecosystem, s: string, changed: set<u32>, op: string, x: Edit) returns (p: string, t: string)
    requires IsFlipOperator(e, op) && IsPlanned(e, s, changed, {op}, x)
    ensures x.end <= |s| && s == s[..x.start] + (p + t) && x == Edit(op, x.start, x.start + |p|, x.replacement)
    ensures IsFlip(p, x.replacement) && StandsAt(s, Mask(s), p, x.start)
  {
    hide Mask, IsFound, IsFlipOperator, IsFlip, CodeRange, WordBoundary, LineAt;
    FlipsAreFound(e, op, s, x);
    var q, r :| IsFlip(q, r) && StandsAt(s, Mask(s), q, x.start) && x == Edit(op, x.start, x.start + |q|, r);
    p, t := q, s[x.end..];
    assert s[x.start..] == p + t;
  }

  /** The replacement can be planned back, whatever else is requested. */
  lemma InverseIsPlanned(e: Ecosystem, changed: set<u32>, requested: set<string>, op: string, a: string, p: string,
                         r: string, t: string)
    requires IsFlipOperator(e, op) && op in requested && IsFlip(p, r)
    requires StandsAt(a + (p + t), Mask(a + (p + t)), p, |a|)
    requires LineAt(a + (p + t), |a|) in changed
    ensures IsPlanned(e, a + (r + t), changed, requested, Edit(op, |a|, |a| + |r|, p))
  {
    hide Mask, StandsAt, LineAt, IsFound, IsFlip, Letters;
    FlipWordsAreLetters(p, r);
    FlipStands(a, p, r, t);
    var back := Edit(op, |a|, |a| + |r|, p);
    assert IsFlipEdit(op, a + (r + t), back);
    FlipsAreFound(e, op, a + (r + t), back);
    SameLine(a, p + t, r + t, |a|);
  }

  lemma EarlierIsPlannedAgain(e: Ecosystem, changed: set<u32>, op: string, a: string, p: string, r: string, t: string,
                              x: Edit)
    requires IsFlipOperator(e, op) && IsFlip(p, r) && StandsAt(a + (p + t), Mask(a + (p + t)), p, |a|) && x.start < |a|
    requires IsPlanned(e, a + (p + t), changed, {op}, x)
    ensures IsPlanned(e, a + (r + t), changed, {op}, x)
  {
    hide Mask, StandsAt, LineAt, IsFound, IsFlip, IsFlipEdit;
    FlipsAreFound(e, op, a + (p + t), x);
    EarlierFlipsAgree(op, a, p, r, t, x);
    FlipsAreFound(e, op, a + (r + t), x);
    SameLine(a, p + t, r + t, x.start);
  }

  lemma SamePrefix(edits: seq<Edit>, i: nat, again: seq<Edit>, j: nat)
    requires Ascending(edits, EditLess) && Ascending(again, EditLess) && i <= |edits| && j <= |again|
    requires forall x :: x in edits[..i] <==> x in again[..j]
    ensures i == j && edits[..i] == again[..j]
  {
    hide EditLess;
    EditLessIsTotal();
    AscendingIsUnique(edits[..i], again[..j], EditLess);
    assert |edits[..i]| == i && |again[..j]| == j;
  }

  lemma EarlierEditsAgree(e: Ecosystem, changed: set<u32>, op: string, a: string, p: string, r: string, t: string,
                          edits: seq<Edit>, i: nat, again: seq<Edit>, j: nat)
    requires IsFlipOperator(e, op) && IsFlip(p, r) && IsFlip(r, p)
    requires StandsAt(a + (p + t), Mask(a + (p + t)), p, |a|) && StandsAt(a + (r + t), Mask(a + (r + t)), r, |a|)
    requires IsPlan(e, a + (p + t), changed, {op}, edits) && i < |edits| && edits[i].start == |a|
    requires IsPlan(e, a + (r + t), changed, {op}, again) && j < |again| && again[j].start == |a|
    ensures forall x :: x in edits[..i] <==> x in again[..j]
  {
    hide Mask, StandsAt, IsPlanned, IsFlipOperator, IsFlip, EditLess, IsPlan;
    PlanPrefix(e, a + (p + t), changed, op, edits, i);
    PlanPrefix(e, a + (r + t), changed, op, again, j);
    forall x ensures x in edits[..i] <==> x in again[..j] {
      if x in edits[..i] { EarlierIsPlannedAgain(e, changed, op, a, p, r, t, x); }
      if x in again[..j] { EarlierIsPlannedAgain(e, changed, op, a, r, p, t, x); }
    }
  }

  /** Both plans begin alike, and the second turns the flipped word back. */
  lemma PlansBeginAlike(e: Ecosystem, changed: set<u32>, op: string, a: string, p: string, r: string, t: string,
                        edits: seq<Edit>, i: nat, again: seq<Edit>)
    requires IsFlipOperator(e, op) && IsFlip(p, r) && StandsAt(a + (p + t), Mask(a + (p + t)), p, |a|)
    requires IsPlan(e, a + (p + t), changed, {op}, edits) && i < |edits| && edits[i].start == |a|
    requires IsPlan(e, a + (r + t), changed, {op}, again)
    ensures i < |again| && again[..i] == edits[..i] && again[i] == Edit(op, |a|, |a| + |r|, p)
  {
    hide Mask, StandsAt, IsPlanned, IsFlipOperator, IsFlip, Letters, EditLess, Ascending;
    FlipWordsAreLetters(p, r);
    FlipStands(a, p, r, t);
    assert edits[i] in edits;
    InverseIsPlannedHere(e, changed, op, a, p, r, t, edits[i]);
    var back := Edit(op, |a|, |a| + |r|, p);
    assert back in again;
    var j :| 0 <= j < |again| && again[j] == back;
    EarlierEditsAgree(e, changed, op, a, p, r, t, edits, i, again, j);
    SamePrefix(edits, i, again, j);
  }

  lemma InverseIsPlannedHere(e: Ecosystem, changed: set<u32>, op: string, a: string, p: string, r: string, t: string,
                             x: Edit)
    requires IsFlipOperator(e, op) && IsFlip(p, r) && StandsAt(a + (p + t), Mask(a + (p + t)), p, |a|)
    requires IsPlanned(e, a + (p + t), changed, {op}, x) && x.start == |a|
    ensures IsPlanned(e, a + (r + t), changed, {op}, Edit(op, |a|, |a| + |r|, p))
  {
    hide Mask, StandsAt, LineAt, IsFound, IsFlip, IsFlipOperator;
    InverseIsPlanned(e, changed, {op}, op, a, p, r, t);
  }

  lemma EditApplies(e: Ecosystem, path: string, a: string, p: string, r: string, t: string, op: string)
    ensures var s := a + (p + t);
            |a| + |p| <= |s| && MutantOf(e, path, s, Edit(op, |a|, |a| + |p|, r)).Apply(s) == Ok(a + (r + t))
  {
    hide LineAt, SinceNewline;
    var s := a + (p + t);
    assert s[|a|..|a| + |p|] == p && s[..|a|] == a && s[|a| + |p|..] == t;
    assert a + r + t == a + (r + t);
  }

  /** Planning the flipped text again yields, at the same place of the list, the edit that restores it byte for byte. */
  lemma FlipIsUndoneByReplanning(e: Ecosystem, path: string, s: string, changed: set<u32>, op: string,
                                 edits: seq<Edit>, i: nat, again: seq<Edit>)
    requires IsFlipOperator(e, op) && IsPlan(e, s, changed, {op}, edits) && i < |edits|
    requires edits[i].start <= edits[i].end <= |s|
    requires var m := MutantOf(e, path, s, edits[i]);
             m.Apply(s).Ok? && IsPlan(e, m.Apply(s).value, changed, {op}, again)
    ensures var mutated := MutantOf(e, path, s, edits[i]).Apply(s).value;
            && i < |again| && again[..i] == edits[..i]
            && again[i].start == edits[i].start && again[i].start <= again[i].end <= |mutated|
            && MutantOf(e, path, mutated, again[i]).Apply(mutated) == Ok(s)
  {
    hide Mask, StandsAt, IsPlanned, IsFlipOperator, IsFlip, EditLess, Ascending, MutantOf, SourceMutant.Apply;
    var x := edits[i];
    assert x in edits;
    var p, t := PlannedFlip(e, s, changed, op, x);
    hide IsPlan;
    var a, r := s[..x.start], x.replacement;
    EditApplies(e, path, a, p, r, t, op);
    EditApplies(e, path, a, r, p, t, op);
    PlansBeginAlike(e, changed, op, a, p, r, t, edits, i, again);
  }
}
