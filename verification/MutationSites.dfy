/** Where each planner finds its edits, and what each operator writes. */
module MutationSites {
  import opened Words
  import opened Options
  import opened Decimal
  import opened Lexing
  import opened MutationRules
  import opened MutationPlan

  // ----- every occurrence of a pattern is looked at -----

  ghost predicate EditedAt(rule: Rule, op: string, s: string, mask: seq<bool>, x: nat, e: Edit)
    requires rule.StandaloneCall? ==> |rule.call| >= 2
  {
    MatchesAt(s, Pattern(rule), x) && SiteEdit(rule, op, s, mask, x) == Some(e)
  }

  predicate HasPattern(rule: Rule) {
    Sensible(rule) && !rule.Comparison? && !rule.RustEquality?
  }

  lemma PatternAt(rule: Rule, op: string, s: string, mask: seq<bool>, at: nat)
    requires HasPattern(rule) && at < |s|
    ensures var found := At(rule, op, s, mask, at);
            && found.1 == (if MatchesAt(s, Pattern(rule), at) then |Pattern(rule)| else 1)
            && (forall e :: EditedAt(rule, op, s, mask, at, e) <==> found.0 == Some(e))
  {
    hide SiteEdit;
  }

  lemma NothingPast(rule: Rule, op: string, s: string, mask: seq<bool>, at: nat, x: nat)
    requires HasPattern(rule) && |s| <= at && at <= x
    ensures Sites(rule, op, s, mask, at) == [] && !MatchesAt(s, Pattern(rule), x)
  {
  }

  ghost predicate EditedFrom(rule: Rule, op: string, s: string, mask: seq<bool>, at: nat, e: Edit)
    requires rule.StandaloneCall? ==> |rule.call| >= 2
  {
    exists x :: at <= x && EditedAt(rule, op, s, mask, x, e)
  }

  /** An edit is found exactly when the rule plans it at some occurrence of its pattern; none is skipped. */
  lemma {:induction false} PatternSites(rule: Rule, op: string, s: string, mask: seq<bool>, at: nat, e: Edit)
    requires HasPattern(rule) && Unbordered(Pattern(rule)) && at <= |s|
    ensures Sensible(rule) && (rule.StandaloneCall? ==> |rule.call| >= 2)
    ensures e in Sites(rule, op, s, mask, at) <==> EditedFrom(rule, op, s, mask, at, e)
    decreases |s| - at
  {
    SensiblePattern(rule);
    hide At, Sites, EditedAt, EditedFrom, Unbordered, HasPattern, Sensible, Pattern, MatchesAt;
    if at == |s| {
      EndOfSites(rule, op, s, mask, at, e);
    } else {
      var next := FoundNext(rule, op, s, mask, at, e);
      PatternSites(rule, op, s, mask, next, e);
      EditedNext(rule, op, s, mask, at, next, e);
    }
  }

  lemma FoundNext(rule: Rule, op: string, s: string, mask: seq<bool>, at: nat, e: Edit) returns (next: nat)
    requires HasPattern(rule) && at < |s|
    ensures Sensible(rule) && (rule.StandaloneCall? ==> |rule.call| >= 2)
    ensures at < next <= |s| && next == at + if MatchesAt(s, Pattern(rule), at) then |Pattern(rule)| else 1
    ensures e in Sites(rule, op, s, mask, at) <==>
              EditedAt(rule, op, s, mask, at, e) || e in Sites(rule, op, s, mask, next)
  {
    SensiblePattern(rule);
    PatternAt(rule, op, s, mask, at);
    hide At, Sites, EditedAt, HasPattern, Sensible, Pattern, MatchesAt;
    InSites(rule, op, s, mask, at, e);
    next := at + At(rule, op, s, mask, at).1;
  }

  lemma EditedNext(rule: Rule, op: string, s: string, mask: seq<bool>, at: nat, next: nat, e: Edit)
    requires HasPattern(rule) && Unbordered(Pattern(rule)) && at < next
    requires next == at + if MatchesAt(s, Pattern(rule), at) then |Pattern(rule)| else 1
    ensures Sensible(rule) && (rule.StandaloneCall? ==> |rule.call| >= 2)
    ensures EditedFrom(rule, op, s, mask, at, e) <==>
              EditedAt(rule, op, s, mask, at, e) || EditedFrom(rule, op, s, mask, next, e)
  {
    SensiblePattern(rule);
    hide EditedAt, Unbordered, Sensible, HasPattern, Pattern, MatchesAt;
    forall x | at < x < next ensures !EditedAt(rule, op, s, mask, x, e) {
      NoneBetween(rule, op, s, mask, at, x, e);
    }
  }

  lemma EndOfSites(rule: Rule, op: string, s: string, mask: seq<bool>, at: nat, e: Edit)
    requires HasPattern(rule) && at == |s|
    ensures Sensible(rule) && (rule.StandaloneCall? ==> |rule.call| >= 2)
    ensures Sites(rule, op, s, mask, at) == [] && !EditedFrom(rule, op, s, mask, at, e)
  {
    SensiblePattern(rule);
    hide Sites, MatchesAt, SiteEdit, HasPattern;
    forall x | at <= x ensures !EditedAt(rule, op, s, mask, x, e) {
      NothingPast(rule, op, s, mask, at, x);
    }
    NothingPast(rule, op, s, mask, at, at);
  }

  /** Occurrences do not overlap. */
  lemma NoneBetween(rule: Rule, op: string, s: string, mask: seq<bool>, at: nat, x: nat, e: Edit)
    requires HasPattern(rule) && Unbordered(Pattern(rule))
    requires at < x < at + (if MatchesAt(s, Pattern(rule), at) then |Pattern(rule)| else 1)
    ensures Sensible(rule) && (rule.StandaloneCall? ==> |rule.call| >= 2)
    ensures !EditedAt(rule, op, s, mask, x, e)
  {
    SensiblePattern(rule);
    hide MatchesAt, SiteEdit, Unbordered, Pattern;
    if MatchesAt(s, Pattern(rule), x) {
      NoOverlap(s, Pattern(rule), at, x);
    }
  }

  lemma SensiblePattern(rule: Rule)
    requires HasPattern(rule)
    ensures Sensible(rule) && (rule.StandaloneCall? ==> |rule.call| >= 2)
  {
  }

  // ----- characters -----

  /** So many characters from one on, in the order of their codes. */
  function From(first: char, count: nat): seq<char>
    requires first as int + count < 0x80
  {
    seq(count, i requires 0 <= i < count => (first as int + i) as char)
  }

  lemma FromHas(first: char, count: nat, c: char)
    requires first as int + count < 0x80
    ensures c in From(first, count) <==> first as int <= c as int < first as int + count
  {
    if first as int <= c as int < first as int + count {
      assert From(first, count)[c as int - first as int] == c;
    }
  }

  const NAME_CHARACTERS := From('a', 26) + From('A', 26) + From('0', 10) + ['_', '$']

  /** Names are made of ASCII letters, digits, underscores and dollars; blanks are the five ASCII ones. */
  lemma CharactersAre(c: char)
    ensures IsDigit(c) <==> c in From('0', 10)
    ensures IsIdentifier(c) <==> c in NAME_CHARACTERS
    ensures IsAsciiSpace(c) <==> c in [' ', '\t', '\n', '\r', '\U{000C}']
  {
    FromHas('a', 26, c);
    FromHas('A', 26, c);
    FromHas('0', 10, c);
    hide From;
  }

  // ----- comparisons -----

  /** A comparison with its equals sign, or a lone one between spaces and no part of a longer operator. */
  ghost predicate ComparisonStands(s: string, mask: seq<bool>, e: Edit) {
    && e.start < |s| && (s[e.start] == '<' || s[e.start] == '>')
    && if HasAt(s, e.start + 1, '=')
       then e.end == e.start + 2 && e.replacement == [s[e.start]] && CodeRange(mask, e.start, e.end)
       else
         && e.end == e.start + 1 && e.replacement == [s[e.start], '='] && CodeRange(mask, e.start, e.end)
         && !HasAt(s, e.start + 1, s[e.start])
         && 0 < e.start && IsAsciiSpace(s[e.start - 1]) && e.end < |s| && IsAsciiSpace(s[e.end])
  }

  lemma ComparisonHere(op: string, s: string, mask: seq<bool>, at: nat, e: Edit)
    requires at < |s|
    ensures var found := At(Comparison, op, s, mask, at);
            && (found.0 == Some(e) <==> e.operator == op && e.start == at && ComparisonStands(s, mask, e))
            && (found.1 == 2 ==> at + 1 < |s| && s[at + 1] == '=')
            && found.1 <= 2
  {
    hide CodeRange;
  }

  /** Every comparison that stands is found, whatever comes before it. */
  lemma {:induction false} ComparisonSites(op: string, s: string, mask: seq<bool>, at: nat, e: Edit)
    requires at <= |s|
    ensures e in Sites(Comparison, op, s, mask, at) <==>
              e.operator == op && at <= e.start && ComparisonStands(s, mask, e)
    decreases |s| - at
  {
    hide At, Sites;
    if at == |s| {
      SitesEnd(Comparison, op, s, mask, at);
    } else {
      var found := At(Comparison, op, s, mask, at);
      ComparisonHere(op, s, mask, at, e);
      InSites(Comparison, op, s, mask, at, e);
      ComparisonSites(op, s, mask, at + found.1, e);
    }
  }

  // ----- what a rule looks for -----

  /** A whole word in code. */
  ghost predicate WordHere(s: string, mask: seq<bool>, x: nat, end: nat) {
    && x <= end <= |s| && CodeRange(mask, x, end)
    && (x > 0 ==> !IsIdentifier(s[x - 1])) && (end < |s| ==> !IsIdentifier(s[end]))
  }

  /** Only white space lies between the two places. */
  ghost predicate Blanks(s: string, from: nat, to: nat) {
    from <= to <= |s| && forall i :: from <= i < to ==> IsAsciiSpace(s[i])
  }

  lemma AfterSpaceExactlyWhen(s: string, at: nat, r: nat)
    requires at <= |s|
    ensures r == AfterSpace(s, at) <==> Blanks(s, at, r) && (r < |s| ==> !IsAsciiSpace(s[r]))
    decreases |s| - at
  {
    if at < |s| && IsAsciiSpace(s[at]) {
      AfterSpaceExactlyWhen(s, at + 1, r);
    }
  }

  lemma AfterDigitsExactlyWhen(s: string, at: nat, r: nat)
    requires at <= |s|
    ensures r == AfterDigits(s, at) <==>
              at <= r <= |s| && (forall i :: at <= i < r ==> IsDigit(s[i])) && (r < |s| ==> !IsDigit(s[r]))
    decreases |s| - at
  {
    if at < |s| && IsDigit(s[at]) {
      AfterDigitsExactlyWhen(s, at + 1, r);
    }
  }

  /** A bracket opens after the white space that follows. */
  ghost predicate OpensAfter(s: string, at: nat, open: nat) {
    Blanks(s, at, open) && open < |s| && s[open] == '('
  }

  ghost predicate BracketFollows(s: string, at: nat) {
    exists open: nat :: OpensAfter(s, at, open)
  }

  /** No semicolon before the end of the line or the brace that opens the branch. */
  ghost predicate PlainCondition(s: string, from: nat) {
    forall i :: from <= i < |s| && s[i] == ';' ==> exists j :: from <= j < i && (s[j] == '\n' || s[j] == '{')
  }

  /** What the rule makes of an occurrence of its pattern at x. */
  ghost predicate Plans(rule: Rule, op: string, s: string, mask: seq<bool>, x: nat, e: Edit) {
    e.operator == op &&
    match rule
    case Replace(p, r) => e.start == x && e.end == x + |p| && e.replacement == r && CodeRange(mask, x, e.end)
    case Word(p, r) => e.start == x && e.end == x + |p| && e.replacement == r && WordHere(s, mask, x, e.end)
    case AfterIf =>
      && WordHere(s, mask, x, x + 2) && e.start == e.end && e.replacement == "false && "
      && e.start > 0 && OpensAfter(s, x + 2, e.start - 1)
    case BeforeCall(name) =>
      && WordHere(s, mask, x, x + |name|) && e.start == e.end == x && e.replacement == "!"
      && BracketFollows(s, x + |name|)
      && (x > 0 ==> s[x - 1] != '.' && s[x - 1] != '!')
    case StandaloneCall(call) =>
      && e.start == x && e.end == x + |call| && e.replacement == "void 0" && CodeRange(mask, x, e.end)
      && |call| >= 2 && WordHere(s, mask, x, e.end - 2) && (x > 0 ==> s[x - 1] != '.')
    case GoBranchSkip =>
      && WordHere(s, mask, x, x + 2) && e.start == e.end && e.replacement == "false && "
      && Blanks(s, x + 2, e.start) && (e.start < |s| ==> !IsAsciiSpace(s[e.start])) && PlainCondition(s, x + 2)
    case SliceBound =>
      && CodeRange(mask, x, x + 9) && x + 9 <= e.start < e.end <= |s| && Blanks(s, x + 9, e.start)
      && (forall i :: e.start <= i < e.end ==> IsDigit(s[i])) && (e.end < |s| ==> !IsDigit(s[e.end]))
      && Parse(s[e.start..e.end], U64_MAX).Some?
      && e.replacement == Print(Min(U64_MAX, Parse(s[e.start..e.end], U64_MAX).value + 1))
    case ReturnZero =>
      && WordHere(s, mask, x, x + 6) && x + 6 <= e.start <= e.end <= |s| && Blanks(s, x + 6, e.start)
      && CodeRange(mask, e.start, e.end) && ReturnsInstead(s, e)
    case _ => false
  }

  /** A returned literal: true and false change places, and any number but zero becomes zero. */
  ghost predicate ReturnsInstead(s: string, e: Edit)
    requires e.start <= e.end <= |s|
  {
    var text := s[e.start..e.end];
    || (text == "true" && e.replacement == "false" && (e.end < |s| ==> !IsIdentifier(s[e.end])))
    || (text == "false" && e.replacement == "true" && (e.end < |s| ==> !IsIdentifier(s[e.end])))
    || (e.replacement == "0" && (forall i :: e.start <= i < e.end ==> IsDigit(s[i]))
        && (e.end < |s| ==> !IsDigit(s[e.end])) && (exists i :: e.start <= i < e.end && s[i] != '0'))
  }

  lemma WordHereIs(s: string, mask: seq<bool>, x: nat, end: nat)
    requires x <= end <= |s|
    ensures CodeRange(mask, x, end) && WordBoundary(s, x, end) <==> WordHere(s, mask, x, end)
  {
    hide IsIdentifier;
  }

  lemma AfterIfPlans(op: string, s: string, mask: seq<bool>, x: nat, e: Edit)
    requires MatchesAt(s, "if", x)
    ensures x + 2 <= |s|
    ensures AfterIfEdit(op, s, mask, x) == Some(e) <==> Plans(AfterIf, op, s, mask, x, e)
  {
    var open := AfterSpace(s, x + 2);
    WordHereIs(s, mask, x, x + 2);
    AfterSpaceExactlyWhen(s, x + 2, open);
    hide WordBoundary, CodeRange, WordHere, AfterSpace, IsIdentifier;
    if e.start > 0 && OpensAfter(s, x + 2, e.start - 1) {
      AfterSpaceExactlyWhen(s, x + 2, e.start - 1);
    }
  }

  lemma BeforeCallPlans(op: string, name: string, s: string, mask: seq<bool>, x: nat, e: Edit)
    requires MatchesAt(s, name, x) && name != []
    ensures x + |name| <= |s|
    ensures BeforeCallEdit(op, s, mask, x, x + |name|) == Some(e) <==> Plans(BeforeCall(name), op, s, mask, x, e)
  {
    var end := x + |name|;
    var open := AfterSpace(s, end);
    WordHereIs(s, mask, x, end);
    AfterSpaceExactlyWhen(s, end, open);
    hide WordBoundary, CodeRange, WordHere, AfterSpace, IsIdentifier;
    if other: nat :| OpensAfter(s, end, other) {
      AfterSpaceExactlyWhen(s, end, other);
    }
    assert HasAt(s, open, '(') <==> OpensAfter(s, end, open);
  }

  lemma StandaloneCallPlans(op: string, call: string, s: string, mask: seq<bool>, x: nat, e: Edit)
    requires MatchesAt(s, call, x) && |call| > 2
    ensures x + |call| <= |s|
    ensures StandaloneCallEdit(op, s, mask, x, x + |call|) == Some(e) <==>
              Plans(StandaloneCall(call), op, s, mask, x, e)
  {
    var end := x + |call|;
    WordHereIs(s, mask, x, end - 2);
    assert CodeRange(mask, x, end) ==> CodeRange(mask, x, end - 2);
    hide WordBoundary, CodeRange, WordHere, IsIdentifier;
  }

  lemma {:induction false} FindCharExactlyWhen(s: string, c: char, at: nat, to: nat, r: nat)
    requires at <= to <= |s|
    ensures r == FindChar(s, c, at, to) <==>
              at <= r <= to && (forall i :: at <= i < r ==> s[i] != c) && (r < to ==> s[r] == c)
    decreases |s| - at
  {
    if at < to && s[at] != c {
      FindCharExactlyWhen(s, c, at + 1, to, r);
    }
  }

  lemma ConditionIs(s: string, from: nat)
    requires from <= |s|
    ensures var lineEnd := FindChar(s, '\n', from, |s|);
            ';' !in s[from..FindChar(s, '{', from, lineEnd)] <==> PlainCondition(s, from)
  {
    var lineEnd := FindChar(s, '\n', from, |s|);
    var end := FindChar(s, '{', from, lineEnd);
    FindCharExactlyWhen(s, '\n', from, |s|, lineEnd);
    FindCharExactlyWhen(s, '{', from, lineEnd, end);
    hide FindChar;
    InSlice(s, ';', from, end);
    if forall i :: from <= i < end ==> s[i] != ';' {
      forall i | from <= i < |s| && s[i] == ';' ensures exists j :: from <= j < i && (s[j] == '\n' || s[j] == '{') {
        assert end <= i;
        assert end < |s| && (s[end] == '\n' || s[end] == '{');
      }
    }
  }

  lemma InSlice(s: string, c: char, from: nat, to: nat)
    requires from <= to <= |s|
    ensures c in s[from..to] <==> exists i :: from <= i < to && s[i] == c
  {
    if i :| from <= i < to && s[i] == c {
      assert s[from..to][i - from] == c;
    }
  }

  lemma GoBranchSkipPlans(op: string, s: string, mask: seq<bool>, x: nat, e: Edit)
    requires MatchesAt(s, "if", x)
    ensures x + 2 <= |s|
    ensures GoBranchSkipEdit(op, s, mask, x) == Some(e) <==> Plans(GoBranchSkip, op, s, mask, x, e)
  {
    WordHereIs(s, mask, x, x + 2);
    AfterSpaceExactlyWhen(s, x + 2, e.start);
    ConditionIs(s, x + 2);
    hide WordBoundary, CodeRange, WordHere, AfterSpace, IsIdentifier, FindChar, PlainCondition;
  }

  lemma SliceBoundPlans(op: string, s: string, mask: seq<bool>, x: nat, e: Edit)
    requires MatchesAt(s, ".slice(0,", x)
    ensures x + 9 <= |s|
    ensures SliceBoundEdit(op, s, mask, x) == Some(e) <==> Plans(SliceBound, op, s, mask, x, e)
  {
    var start := AfterSpace(s, x + 9);
    AfterSpaceExactlyWhen(s, x + 9, start);
    AfterSpaceExactlyWhen(s, x + 9, e.start);
    AfterDigitsExactlyWhen(s, start, e.end);
    SpaceIsNoDigit();
    hide AfterSpace, AfterDigits, CodeRange, Parse, Print, IsDigit, IsAsciiSpace;
  }

  lemma NoPrefixOfBoth(s: string, at: nat)
    requires at <= |s|
    ensures !(MatchesAt(s, "true", at) && MatchesAt(s, "false", at))
    ensures MatchesAt(s, "true", at) || MatchesAt(s, "false", at) ==> at < |s| && !IsDigit(s[at])
    ensures forall to :: at <= to <= |s| && s[at..to] == "true" <==> MatchesAt(s, "true", at) && to == at + 4
    ensures forall to :: at <= to <= |s| && s[at..to] == "false" <==> MatchesAt(s, "false", at) && to == at + 5
  {
    assert MatchesAt(s, "true", at) ==> s[at] == s[at..][0] == 't' && s[at..at + 4] == "true";
    assert MatchesAt(s, "false", at) ==> s[at] == s[at..][0] == 'f' && s[at..at + 5] == "false";
  }

  /** What may stand after a return, read in the order of the planner. */
  lemma LiteralExactlyWhen(s: string, e: Edit)
    requires e.start <= |s|
    requires e.start > 0 && IsIdentifier(s[e.start - 1]) ==> e.start < |s| ==> !IsIdentifier(s[e.start])
    ensures ReturnedLiteral(s, e.start) == Some((e.end - e.start, e.replacement)) <==>
              e.start <= e.end <= |s| && ReturnsInstead(s, e)
    ensures e.start <= e.end <= |s| && ReturnsInstead(s, e) ==> e.start < |s| && !IsAsciiSpace(s[e.start])
  {
    NoPrefixOfBoth(s, e.start);
    AfterDigitsExactlyWhen(s, e.start, e.end);
    AfterDigitsExactlyWhen(s, e.start, AfterDigits(s, e.start));
    LettersAndDigits();
    hide AfterDigits, IsIdentifier, IsDigit, IsAsciiSpace;
  }

  lemma LettersAndDigits()
    ensures IsIdentifier('t') && IsIdentifier('f') && forall c :: IsDigit(c) ==> IsIdentifier(c)
    ensures !IsAsciiSpace('t') && !IsAsciiSpace('f') && forall c :: IsDigit(c) ==> !IsAsciiSpace(c)
    ensures forall c :: IsAsciiSpace(c) ==> !IsIdentifier(c)
  {
  }

  lemma ReturnZeroPlans(op: string, s: string, mask: seq<bool>, x: nat, e: Edit)
    requires MatchesAt(s, "return", x)
    ensures x + 6 <= |s|
    ensures ReturnZeroEdit(op, s, mask, x) == Some(e) <==> Plans(ReturnZero, op, s, mask, x, e)
  {
    var start := AfterSpace(s, x + 6);
    WordHereIs(s, mask, x, x + 6);
    AfterSpaceExactlyWhen(s, x + 6, start);
    AfterSpaceExactlyWhen(s, x + 6, e.start);
    LettersAndDigits();
    if WordHere(s, mask, x, x + 6) && Blanks(s, x + 6, e.start) {
      assert e.start > x + 6 ==> IsAsciiSpace(s[e.start - 1]);
      hide IsIdentifier, IsAsciiSpace;
      LiteralExactlyWhen(s, e);
      hide AfterSpace, CodeRange, WordBoundary, WordHere, ReturnsInstead, ReturnedLiteral;
    }
  }

  lemma SpaceIsNoDigit()
    ensures forall c :: IsAsciiSpace(c) ==> !IsDigit(c)
  {
  }

  // ----- the rules of the operators -----

  /** What a rule with a pattern finds: the edits its plan calls for, at some occurrence in the text. */
  ghost predicate Finds(rule: Rule, op: string, s: string, e: Edit) {
    match rule
    case Comparison => e.operator == op && ComparisonStands(s, Mask(s), e)
    case _ => exists x: nat :: MatchesAt(s, Pattern(rule), x) && Plans(rule, op, s, Mask(s), x, e)
  }

  lemma PlansExactlyWhen(rule: Rule, op: string, s: string, mask: seq<bool>, x: nat, e: Edit)
    requires HasPattern(rule) && MatchesAt(s, Pattern(rule), x)
    ensures rule.StandaloneCall? ==> |rule.call| >= 2
    ensures SiteEdit(rule, op, s, mask, x) == Some(e) <==> Plans(rule, op, s, mask, x, e)
  {
    hide AfterIfEdit, BeforeCallEdit, StandaloneCallEdit, GoBranchSkipEdit, SliceBoundEdit, ReturnZeroEdit;
    match rule {
      case Replace(p, _) => hide CodeRange;
      case Word(p, _) =>
        WordHereIs(s, mask, x, x + |p|);
        hide CodeRange, WordBoundary, WordHere;
      case AfterIf => AfterIfPlans(op, s, mask, x, e); hide Plans;
      case BeforeCall(name) => BeforeCallPlans(op, name, s, mask, x, e); hide Plans;
      case StandaloneCall(call) => StandaloneCallPlans(op, call, s, mask, x, e); hide Plans;
      case GoBranchSkip => GoBranchSkipPlans(op, s, mask, x, e); hide Plans;
      case SliceBound => SliceBoundPlans(op, s, mask, x, e); hide Plans;
      case ReturnZero => ReturnZeroPlans(op, s, mask, x, e); hide Plans;
    }
  }

  /** A rule finds exactly what it looks for: nothing else, and every occurrence. */
  lemma RuleExactlyWhen(rule: Rule, op: string, s: string, e: Edit)
    requires rule.Comparison? || (HasPattern(rule) && Unbordered(Pattern(rule)))
    ensures Sensible(rule)
    ensures e in Sites(rule, op, s, Mask(s), 0) <==> Finds(rule, op, s, e)
  {
    if rule.Comparison? {
      hide Sites, Mask, ComparisonStands;
      ComparisonSites(op, s, Mask(s), 0, e);
    } else {
      SensiblePattern(rule);
      hide Sites, Mask, SiteEdit, Plans, Pattern, MatchesAt, HasPattern, Unbordered, Sensible;
      PatternSites(rule, op, s, Mask(s), 0, e);
      if EditedFrom(rule, op, s, Mask(s), 0, e) {
        var x :| 0 <= x && EditedAt(rule, op, s, Mask(s), x, e);
        PlansExactlyWhen(rule, op, s, Mask(s), x, e);
      }
      if Finds(rule, op, s, e) {
        var x: nat :| MatchesAt(s, Pattern(rule), x) && Plans(rule, op, s, Mask(s), x, e);
        PlansExactlyWhen(rule, op, s, Mask(s), x, e);
        assert EditedAt(rule, op, s, Mask(s), x, e);
      }
    }
  }

  /** A text whose first character does not come again cannot overlap itself. */
  lemma FirstOnce(p: string)
    requires p != [] && forall k :: 0 < k < |p| ==> p[k] != p[0]
    ensures Unbordered(p)
  {
    forall k | 0 < k < |p| ensures p[k..] != p[..|p| - k] {
      assert p[k..][0] == p[k];
    }
  }

  // ----- operators that replace one text by another -----

  const OFF_BY_ONE := [("+1", "-1"), ("-1", "+1")]
  const REMOVE_SORT := [(".sort()", ".slice()")]
  const ERR_NIL := [("err != nil", "err == nil"), ("err == nil", "err != nil"),
                    ("nil != err", "nil == err"), ("nil == err", "nil != err")]
  const IGNORE_CONTEXT := [("ctx.Err()", "nil"), ("context.Err()", "nil")]
  const IS_OK := [(".is_ok()", ".is_err()"), (".is_err()", ".is_ok()")]
  const IS_SOME := [(".is_some()", ".is_none()"), (".is_none()", ".is_some()")]

  ghost predicate ReplacesTexts(e: Ecosystem, op: string, pairs: seq<(string, string)>) {
    || (e.TsJs? && op == "off_by_one" && pairs == OFF_BY_ONE)
    || (e.TsJs? && op == "remove_sort" && pairs == REMOVE_SORT)
    || (e.Go? && op == "err_nil_flip" && pairs == ERR_NIL)
    || (e.Go? && op == "ignore_context" && pairs == IGNORE_CONTEXT)
    || (e.Rust? && op == "is_ok_err_flip" && pairs == IS_OK)
    || (e.Rust? && op == "is_some_none_flip" && pairs == IS_SOME)
  }

  function RuleFor(pair: (string, string)): Rule {
    Replace(pair.0, pair.1)
  }

  ghost predicate Replaces(pair: (string, string), s: string, x: Edit) {
    && x.end == x.start + |pair.0| && x.end <= |s| && s[x.start..x.end] == pair.0 && x.replacement == pair.1
    && CodeRange(Mask(s), x.start, x.end)
  }

  lemma TableIsRules(e: Ecosystem, op: string, pairs: seq<(string, string)>)
    requires ReplacesTexts(e, op, pairs)
    ensures |Rules(e, op)| == |pairs| && forall i :: 0 <= i < |pairs| ==> Rules(e, op)[i] == RuleFor(pairs[i])
  {
  }

  lemma TableIsUnbordered(e: Ecosystem, op: string, pairs: seq<(string, string)>, i: nat)
    requires ReplacesTexts(e, op, pairs) && i < |pairs|
    ensures pairs[i].0 != [] && forall k :: 0 < k < |pairs[i].0| ==> pairs[i].0[k] != pairs[i].0[0]
  {
  }

  lemma PairIsFound(pair: (string, string), op: string, s: string, x: Edit)
    requires pair.0 != [] && x.operator == op
    ensures Finds(RuleFor(pair), op, s, x) <==> Replaces(pair, s, x)
  {
    hide Mask, CodeRange;
    if Finds(RuleFor(pair), op, s, x) {
      assert MatchesAt(s, pair.0, x.start);
      assert s[x.start..x.end] == pair.0;
    }
    if Replaces(pair, s, x) {
      assert s[x.start..][..|pair.0|] == pair.0;
      assert MatchesAt(s, pair.0, x.start) && Plans(RuleFor(pair), op, s, Mask(s), x.start, x);
    }
  }

  /** Such an operator replaces exactly the texts of its table, wherever they stand in code. */
  lemma TextsAreReplacedExactlyWhen(e: Ecosystem, op: string, pairs: seq<(string, string)>, s: string, x: Edit)
    requires ReplacesTexts(e, op, pairs) && x.operator == op
    ensures IsFound(e, s, x) <==> exists i :: 0 <= i < |pairs| && Replaces(pairs[i], s, x)
  {
    TableIsRules(e, op, pairs);
    hide Rules, Finds, Replaces, Sites, Mask, Sensible, ReplacesTexts;
    forall i | 0 <= i < |pairs|
      ensures Sensible(Rules(e, op)[i])
      ensures x in Sites(Rules(e, op)[i], op, s, Mask(s), 0) <==> Replaces(pairs[i], s, x)
    {
      PairDecides(e, op, pairs, i, s, x);
    }
  }

  lemma PairDecides(e: Ecosystem, op: string, pairs: seq<(string, string)>, i: nat, s: string, x: Edit)
    requires ReplacesTexts(e, op, pairs) && i < |pairs| && x.operator == op
    ensures Sensible(RuleFor(pairs[i]))
    ensures x in Sites(RuleFor(pairs[i]), op, s, Mask(s), 0) <==> Replaces(pairs[i], s, x)
  {
    TableIsUnbordered(e, op, pairs, i);
    FirstOnce(pairs[i].0);
    hide ReplacesTexts, Finds, Replaces, Sites, Mask, Unbordered;
    assert HasPattern(RuleFor(pairs[i])) && Pattern(RuleFor(pairs[i])) == pairs[i].0;
    RuleExactlyWhen(RuleFor(pairs[i]), op, s, x);
    PairIsFound(pairs[i], op, s, x);
  }

  // ----- the other operators -----

  lemma OneRule(e: Ecosystem, op: string, rule: Rule, s: string, x: Edit)
    requires Rules(e, op) == [rule] && (rule.Comparison? || (HasPattern(rule) && Unbordered(Pattern(rule))))
    requires x.operator == op
    ensures IsFound(e, s, x) <==> Finds(rule, op, s, x)
  {
    hide Rules, Finds, Sites, Mask, Unbordered, Sensible;
    RuleExactlyWhen(rule, op, s, x);
    assert rule in [rule];
  }

  /** A boundary flip takes or gives the equals sign of exactly the comparisons that stand. */
  lemma BoundariesAreFlippedExactlyWhen(e: Ecosystem, s: string, x: Edit)
    requires x.operator == "boundary_flip"
    ensures IsFound(e, s, x) <==> ComparisonStands(s, Mask(s), x)
  {
    hide Mask, ComparisonStands, IsFound;
    OneRule(e, "boundary_flip", Comparison, s, x);
  }

  lemma KeywordsAreUnbordered()
    ensures Unbordered("if") && Unbordered("return") && Unbordered("throw") && Unbordered(".slice(0,")
  {
    FirstOnce("if");
    FirstOnce("throw");
    FirstOnce(".slice(0,");
    forall k | 0 < k < 6 ensures "return"[k..] != "return"[..6 - k] {
      assert "return"[k..][0] == "return"[k];
      if k == 4 {
        assert "return"[4..][1] == 'n' && "return"[..2][1] == 'e';
      }
    }
  }

  /**
   * Branches are switched off, throws voided, slice bounds raised and returned literals changed exactly
   * where they stand.
   */
  lemma KeywordsAreEditedExactlyWhen(s: string, x: Edit)
    ensures x.operator == "remove_branch" ==> (IsFound(TsJs, s, x) <==> Finds(AfterIf, "remove_branch", s, x))
    ensures x.operator == "omit_error" ==> (IsFound(TsJs, s, x) <==> Finds(Word("throw", "void"), "omit_error", s, x))
    ensures x.operator == "collection_boundary" ==>
              (IsFound(TsJs, s, x) <==> Finds(SliceBound, "collection_boundary", s, x))
    ensures x.operator == "skip_branch" ==> (IsFound(Go, s, x) <==> Finds(GoBranchSkip, "skip_branch", s, x))
    ensures x.operator == "return_zero" ==> (IsFound(Go, s, x) <==> Finds(ReturnZero, "return_zero", s, x))
  {
    KeywordsAreUnbordered();
    hide Finds, IsFound, Unbordered;
    if x.operator == "remove_branch" { OneRule(TsJs, "remove_branch", AfterIf, s, x); }
    if x.operator == "omit_error" { OneRule(TsJs, "omit_error", Word("throw", "void"), s, x); }
    if x.operator == "collection_boundary" { OneRule(TsJs, "collection_boundary", SliceBound, s, x); }
    if x.operator == "skip_branch" { OneRule(Go, "skip_branch", GoBranchSkip, s, x); }
    if x.operator == "return_zero" { OneRule(Go, "return_zero", ReturnZero, s, x); }
  }

  const PERMISSIONS := ["canDelete", "canWrite", "hasPermission", "isAllowed", "isAuthorized"]
  const CALLBACKS := ["callback()", "onComplete()", "onSuccess()", "onDone()"]

  /** Two characters decide that a text cannot overlap itself. */
  lemma FirstTwoOnce(p: string)
    requires |p| > 2 && forall k :: 0 < k < |p| - 1 ==> p[k] != p[0] || p[k + 1] != p[1]
    requires p[|p| - 1] != p[0]
    ensures Unbordered(p)
  {
    forall k | 0 < k < |p| ensures p[k..] != p[..|p| - k] {
      assert p[k..][0] == p[k];
      if k < |p| - 1 {
        assert p[k..][1] == p[k + 1] && p[..|p| - k][1] == p[1];
      }
    }
  }

  lemma PermissionsAreUnbordered(i: nat)
    requires i < 5
    ensures Unbordered(PERMISSIONS[i]) && PERMISSIONS[i] != []
    ensures Rules(TsJs, "wrong_permission")[i] == BeforeCall(PERMISSIONS[i])
  {
    FirstTwoOnce(PERMISSIONS[i]);
  }

  lemma CallbacksAreUnbordered(i: nat)
    requires i < 4
    ensures |CALLBACKS[i]| > 2 && Rules(TsJs, "omit_callback")[i] == StandaloneCall(CALLBACKS[i])
    ensures Unbordered(CALLBACKS[i])
  {
    if i == 3 {
      var p := "onDone()";
      forall k | 0 < k < |p| ensures p[k..] != p[..|p| - k] {
        assert p[k..][0] == p[k];
        if k == 3 {
          assert p[3..][2] == 'e' && p[..5][2] == 'D';
        }
      }
    } else {
      FirstTwoOnce(CALLBACKS[i]);
    }
  }

  /** The named checks are negated, and the named callbacks left out, exactly where they are called. */
  lemma CallsAreEditedExactlyWhen(s: string, x: Edit)
    ensures x.operator == "wrong_permission" ==>
              (IsFound(TsJs, s, x) <==>
               exists i :: 0 <= i < 5 && Finds(BeforeCall(PERMISSIONS[i]), "wrong_permission", s, x))
    ensures x.operator == "omit_callback" ==>
              (IsFound(TsJs, s, x) <==>
               exists i :: 0 <= i < 4 && Finds(StandaloneCall(CALLBACKS[i]), "omit_callback", s, x))
  {
    assert |Rules(TsJs, "wrong_permission")| == 5 && |Rules(TsJs, "omit_callback")| == 4;
    hide Finds, Sites, Mask, Unbordered, Rules;
    forall i | 0 <= i < 5
      ensures Sensible(Rules(TsJs, "wrong_permission")[i])
      ensures x in Sites(Rules(TsJs, "wrong_permission")[i], "wrong_permission", s, Mask(s), 0) <==>
                Finds(BeforeCall(PERMISSIONS[i]), "wrong_permission", s, x)
    {
      PermissionsAreUnbordered(i);
      RuleExactlyWhen(BeforeCall(PERMISSIONS[i]), "wrong_permission", s, x);
    }
    forall i | 0 <= i < 4
      ensures Sensible(Rules(TsJs, "omit_callback")[i])
      ensures x in Sites(Rules(TsJs, "omit_callback")[i], "omit_callback", s, Mask(s), 0) <==>
                Finds(StandaloneCall(CALLBACKS[i]), "omit_callback", s, x)
    {
      CallbacksAreUnbordered(i);
      RuleExactlyWhen(StandaloneCall(CALLBACKS[i]), "omit_callback", s, x);
    }
  }

  /** Every operator of a catalogue has rules, and no other has. */
  lemma CatalogueHasRules(e: Ecosystem, op: string)
    ensures op in Catalogue(e) <==> Rules(e, op) != []
  {
    assert op in Catalogue(e) <==> exists i :: 0 <= i < |Catalogue(e)| && Catalogue(e)[i] == op;
  }
}
