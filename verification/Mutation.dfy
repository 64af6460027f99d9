/** Concrete source edits of the three catalogues, and the places they are planned at. */
module MutationRules {
  import opened Words
  import opened Options
  import opened Sequences
  import opened Decimal
  import opened Lexing

  datatype Ecosystem = TsJs | Go | Rust

  /** One way of finding edits; most look for every non-overlapping occurrence of a pattern. */
  datatype Rule =
    | Comparison
    | RustEquality
    | Replace(pattern: string, replacement: string)
    | Word(pattern: string, replacement: string)
    | AfterIf
    | BeforeCall(name: string)
    | StandaloneCall(call: string)
    | GoBranchSkip
    | SliceBound
    | ReturnZero

  datatype Edit = Edit(operator: string, start: nat, end: nat, replacement: string)

  function Catalogue(e: Ecosystem): seq<string> {
    match e
    case TsJs => ["boundary_flip", "equality_flip", "bool_flip", "logical_flip", "off_by_one", "remove_branch",
                  "remove_sort", "wrong_permission", "omit_callback", "omit_error", "collection_boundary"]
    case Go => ["err_nil_flip", "boundary_flip", "return_zero", "skip_branch", "ignore_context", "invert_bool"]
    case Rust => ["boundary_flip", "invert_bool", "is_ok_err_flip", "is_some_none_flip", "eq_neq_flip"]
  }

  function TsJsRules(operator: string): seq<Rule> {
    if operator == "boundary_flip" then [Comparison]
    else if operator == "equality_flip" then [Replace("===", "!=="), Replace("!==", "===")]
    else if operator == "bool_flip" then [Word("true", "false"), Word("false", "true")]
    else if operator == "logical_flip" then [Replace("&&", "||"), Replace("||", "&&")]
    else if operator == "off_by_one" then [Replace("+1", "-1"), Replace("-1", "+1")]
    else if operator == "remove_branch" then [AfterIf]
    else if operator == "remove_sort" then [Replace(".sort()", ".slice()")]
    else if operator == "wrong_permission" then
      [BeforeCall("canDelete"), BeforeCall("canWrite"), BeforeCall("hasPermission"), BeforeCall("isAllowed"),
       BeforeCall("isAuthorized")]
    else if operator == "omit_callback" then
      [StandaloneCall("callback()"), StandaloneCall("onComplete()"), StandaloneCall("onSuccess()"),
       StandaloneCall("onDone()")]
    else if operator == "omit_error" then [Word("throw", "void")]
    else if operator == "collection_boundary" then [SliceBound]
    else []
  }

  function GoRules(operator: string): seq<Rule> {
    if operator == "err_nil_flip" then
      [Replace("err != nil", "err == nil"), Replace("err == nil", "err != nil"),
       Replace("nil != err", "nil == err"), Replace("nil == err", "nil != err")]
    else if operator == "boundary_flip" then [Comparison]
    else if operator == "return_zero" then [ReturnZero]
    else if operator == "skip_branch" then [GoBranchSkip]
    else if operator == "ignore_context" then [Replace("ctx.Err()", "nil"), Replace("context.Err()", "nil")]
    else if operator == "invert_bool" then [Word("true", "false"), Word("false", "true")]
    else []
  }

  function RustRules(operator: string): seq<Rule> {
    if operator == "boundary_flip" then [Comparison]
    else if operator == "invert_bool" then [Word("true", "false"), Word("false", "true")]
    else if operator == "is_ok_err_flip" then [Replace(".is_ok()", ".is_err()"), Replace(".is_err()", ".is_ok()")]
    else if operator == "is_some_none_flip"
        then [Replace(".is_some()", ".is_none()"), Replace(".is_none()", ".is_some()")]
    else if operator == "eq_neq_flip" then [RustEquality]
    else []
  }

  function Rules(e: Ecosystem, operator: string): seq<Rule> {
    match e
    case TsJs => TsJsRules(operator)
    case Go => GoRules(operator)
    case Rust => RustRules(operator)
  }

  // ----- reading the source -----

  predicate IsAsciiSpace(c: char) {
    c == ' ' || c == '\t' || c == '\n' || c == '\r' || c as int == 12
  }

  function AfterSpace(s: string, at: nat): (r: nat)
    requires at <= |s|
    ensures at <= r <= |s|
    ensures forall i :: at <= i < r ==> IsAsciiSpace(s[i])
    decreases |s| - at
  {
    if at < |s| && IsAsciiSpace(s[at]) then AfterSpace(s, at + 1) else at
  }

  function AfterDigits(s: string, at: nat): (r: nat)
    requires at <= |s|
    ensures at <= r <= |s|
    ensures forall i :: at <= i < r ==> IsDigit(s[i])
    decreases |s| - at
  {
    if at < |s| && IsDigit(s[at]) then AfterDigits(s, at + 1) else at
  }

  /** The first position of c in s[at..to], or to. */
  function FindChar(s: string, c: char, at: nat, to: nat): (r: nat)
    requires at <= to <= |s|
    ensures at <= r <= to
    decreases |s| - at
  {
    if at == to || s[at] == c then at else FindChar(s, c, at + 1, to)
  }

  predicate HasAt(s: string, at: nat, c: char) {
    at < |s| && s[at] == c
  }

  predicate HasBefore(s: string, at: nat, c: char) {
    0 < at <= |s| && s[at - 1] == c
  }

  predicate IsIdentifier(c: char) {
    'a' <= c <= 'z' || 'A' <= c <= 'Z' || IsDigit(c) || c == '_' || c == '$'
  }

  predicate WordBoundary(s: string, start: nat, end: nat) {
    && !(0 < start <= |s| && IsIdentifier(s[start - 1]))
    && !(end < |s| && IsIdentifier(s[end]))
  }

  predicate CodeRange(mask: seq<bool>, start: nat, end: nat) {
    start <= end <= |mask| && forall i :: start <= i < end ==> mask[i]
  }

  predicate MatchesAt(s: string, pattern: string, at: nat) {
    at <= |s| && pattern <= s[at..]
  }

  predicate Spaced(s: string, start: nat, end: nat) {
    && 0 < start <= |s| && IsAsciiSpace(s[start - 1])
    && end < |s| && IsAsciiSpace(s[end])
  }

  // ----- the rules -----

  function Pattern(rule: Rule): string {
    match rule
    case Comparison => ""
    case RustEquality => ""
    case Replace(p, _) => p
    case Word(p, _) => p
    case AfterIf => "if"
    case BeforeCall(name) => name
    case StandaloneCall(call) => call
    case GoBranchSkip => "if"
    case SliceBound => ".slice(0,"
    case ReturnZero => "return"
  }

  function Insertion(op: string, at: nat, text: string): Edit {
    Edit(op, at, at, text)
  }

  function AfterIfEdit(op: string, s: string, mask: seq<bool>, at: nat): Option<Edit>
    requires at + 2 <= |s|
  {
    var open := AfterSpace(s, at + 2);
    if CodeRange(mask, at, at + 2) && WordBoundary(s, at, at + 2) && HasAt(s, open, '(')
    then Some(Insertion(op, open + 1, "false && ")) else None
  }

  function BeforeCallEdit(op: string, s: string, mask: seq<bool>, at: nat, end: nat): Option<Edit>
    requires at <= end <= |s|
  {
    if CodeRange(mask, at, end) && WordBoundary(s, at, end) && HasAt(s, AfterSpace(s, end), '(')
       && !HasBefore(s, at, '.') && !HasBefore(s, at, '!')
    then Some(Insertion(op, at, "!")) else None
  }

  /** The name of the call is followed by its two parentheses. */
  function StandaloneCallEdit(op: string, s: string, mask: seq<bool>, at: nat, end: nat): Option<Edit>
    requires at + 2 <= end <= |s|
  {
    if CodeRange(mask, at, end) && WordBoundary(s, at, end - 2) && !HasBefore(s, at, '.')
    then Some(Edit(op, at, end, "void 0")) else None
  }

  function GoBranchSkipEdit(op: string, s: string, mask: seq<bool>, at: nat): Option<Edit>
    requires at + 2 <= |s|
  {
    var lineEnd := FindChar(s, '\n', at + 2, |s|);
    var conditionEnd := FindChar(s, '{', at + 2, lineEnd);
    if CodeRange(mask, at, at + 2) && WordBoundary(s, at, at + 2) && ';' !in s[at + 2..conditionEnd]
    then Some(Insertion(op, AfterSpace(s, at + 2), "false && ")) else None
  }

  function SliceBoundEdit(op: string, s: string, mask: seq<bool>, at: nat): Option<Edit>
    requires at + 9 <= |s|
  {
    var start := AfterSpace(s, at + 9);
    var end := AfterDigits(s, start);
    var value := Parse(s[start..end], U64_MAX);
    if CodeRange(mask, at, at + 9) && start < end && value.Some?
    then Some(Edit(op, start, end, Print(SatAdd(value.value, 1)))) else None
  }

  /** The length of the returned literal and what replaces it. */
  function ReturnedLiteral(s: string, at: nat): Option<(nat, string)>
    requires at <= |s|
  {
    var digits := AfterDigits(s, at) - at;
    if MatchesAt(s, "true", at) && WordBoundary(s, at, at + 4) then Some((4, "false"))
    else if MatchesAt(s, "false", at) && WordBoundary(s, at, at + 5) then Some((5, "true"))
    else if digits == 0 || (forall i :: at <= i < at + digits ==> s[i] == '0') then None
    else Some((digits, "0"))
  }

  function ReturnZeroEdit(op: string, s: string, mask: seq<bool>, at: nat): Option<Edit>
    requires at + 6 <= |s|
  {
    var start := AfterSpace(s, at + 6);
    var literal := ReturnedLiteral(s, start);
    if CodeRange(mask, at, at + 6) && WordBoundary(s, at, at + 6)
       && literal.Some? && CodeRange(mask, start, start + literal.value.0)
    then Some(Edit(op, start, start + literal.value.0, literal.value.1)) else None
  }

  /** What a rule does with an occurrence of its pattern. */
  function SiteEdit(rule: Rule, op: string, s: string, mask: seq<bool>, at: nat): Option<Edit>
    requires MatchesAt(s, Pattern(rule), at) && (rule.StandaloneCall? ==> |rule.call| >= 2)
  {
    var end := at + |Pattern(rule)|;
    match rule
    case Replace(_, r) => if CodeRange(mask, at, end) then Some(Edit(op, at, end, r)) else None
    case Word(_, r) => if CodeRange(mask, at, end) && WordBoundary(s, at, end) then Some(Edit(op, at, end, r)) else None
    case AfterIf => AfterIfEdit(op, s, mask, at)
    case BeforeCall(_) => BeforeCallEdit(op, s, mask, at, end)
    case StandaloneCall(_) => StandaloneCallEdit(op, s, mask, at, end)
    case GoBranchSkip => GoBranchSkipEdit(op, s, mask, at)
    case SliceBound => SliceBoundEdit(op, s, mask, at)
    case ReturnZero => ReturnZeroEdit(op, s, mask, at)
    case _ => None
  }

  function ComparisonAt(op: string, s: string, mask: seq<bool>, at: nat): (r: (Option<Edit>, nat))
    requires at < |s|
    ensures 1 <= r.1 <= |s| - at
  {
    var next := if at + 1 < |s| then s[at + 1] else '\0';
    if (s[at] == '>' || s[at] == '<') && next == '=' then
      (if CodeRange(mask, at, at + 2) then Some(Edit(op, at, at + 2, [s[at]])) else None, 2)
    else if (s[at] == '>' || s[at] == '<') && next != s[at] then
      (if CodeRange(mask, at, at + 1) && !HasBefore(s, at, '=') && !HasBefore(s, at, '>') && !HasBefore(s, at, '<')
          && Spaced(s, at, at + 1)
       then Some(Edit(op, at, at + 1, [s[at], '='])) else None, 1)
    else (None, 1)
  }

  function RustEqualityAt(op: string, s: string, mask: seq<bool>, at: nat): (r: (Option<Edit>, nat))
    requires at < |s|
    ensures 1 <= r.1 <= |s| - at
  {
    if MatchesAt(s, "!=", at) && CodeRange(mask, at, at + 2) then (Some(Edit(op, at, at + 2, "==")), 2)
    else if MatchesAt(s, "==", at) && CodeRange(mask, at, at + 2) && !HasAt(s, at + 2, '>') && !HasBefore(s, at, '=')
    then (Some(Edit(op, at, at + 2, "!=")), 2)
    else (None, 1)
  }

  predicate Sensible(rule: Rule) {
    && (rule.StandaloneCall? ==> |rule.call| > 2)
    && (rule.Comparison? || rule.RustEquality? || Pattern(rule) != "")
  }

  /** The edit planned at one position of the scan, and how far the scan moves on. */
  function At(rule: Rule, op: string, s: string, mask: seq<bool>, at: nat): (r: (Option<Edit>, nat))
    requires at < |s| && Sensible(rule)
    ensures 1 <= r.1 <= |s| - at
  {
    match rule
    case Comparison => ComparisonAt(op, s, mask, at)
    case RustEquality => RustEqualityAt(op, s, mask, at)
    case _ => if MatchesAt(s, Pattern(rule), at) then (SiteEdit(rule, op, s, mask, at), |Pattern(rule)|) else (None, 1)
  }

  function Optional(e: Option<Edit>): seq<Edit> {
    if e.Some? then [e.value] else []
  }

  /** Every edit of one rule from a position on. */
  function Sites(rule: Rule, op: string, s: string, mask: seq<bool>, at: nat): seq<Edit>
    requires Sensible(rule)
    decreases |s| - at
  {
    if at >= |s| then []
    else Optional(At(rule, op, s, mask, at).0) + Sites(rule, op, s, mask, at + At(rule, op, s, mask, at).1)
  }

  lemma TsJsRulesAreSensible(op: string)
    ensures forall rule :: rule in TsJsRules(op) ==> Sensible(rule)
  {
  }

  lemma OtherRulesAreSensible(op: string)
    ensures forall rule :: rule in GoRules(op) || rule in RustRules(op) ==> Sensible(rule)
  {
  }

  lemma RulesAreSensible(e: Ecosystem, op: string)
    ensures forall rule :: rule in Rules(e, op) ==> Sensible(rule)
  {
    hide TsJsRules, GoRules, RustRules, Sensible;
    TsJsRulesAreSensible(op);
    OtherRulesAreSensible(op);
  }

  // ----- where edits may lie -----

  /** The edit replaces code bytes only, or is inserted next to one. */
  ghost predicate Safe(s: string, mask: seq<bool>, e: Edit) {
    && e.start <= e.end <= |s| == |mask|
    && CodeRange(mask, e.start, e.end)
    && (e.start == e.end ==> (e.start > 0 && mask[e.start - 1]) || (e.start < |s| && mask[e.start]))
  }

  /** Spaces after a code byte are code, and so is what follows them unless it opens something. */
  lemma SpacesAreCode(s: string, at: nat)
    requires 0 < at <= |s| && Mask(s)[at - 1]
    ensures var r := AfterSpace(s, at);
            Mask(s)[r - 1] && (r < |s| && !IsQuote(s[r]) && s[r] != '/' ==> Mask(s)[r])
  {
    hide Mask;
    var r := AfterSpace(s, at);
    CodeRunsOn(s, at - 1, r);
    if r < |s| && !IsQuote(s[r]) && s[r] != '/' {
      NextIsCode(s, r - 1);
    }
  }

  lemma DigitsAreCode(s: string, at: nat)
    requires 0 < at <= |s| && Mask(s)[at - 1]
    ensures CodeRange(Mask(s), at, AfterDigits(s, at))
  {
    hide Mask;
    CodeRunsOn(s, at - 1, AfterDigits(s, at));
  }

  lemma InsertionsAreSafe(rule: Rule, op: string, s: string, at: nat)
    requires MatchesAt(s, Pattern(rule), at) && Sensible(rule)
    requires (rule.AfterIf? || rule.BeforeCall? || rule.GoBranchSkip?)
    ensures var e := SiteEdit(rule, op, s, Mask(s), at); e.Some? ==> e.value.operator == op && Safe(s, Mask(s), e.value)
  {
    hide Mask, IsIdentifier, FindChar;
    assert at + |Pattern(rule)| <= |s|;
    if SiteEdit(rule, op, s, Mask(s), at).Some? && !rule.BeforeCall? {
      assert Mask(s)[at + 1];
      SpacesAreCode(s, at + 2);
    }
  }

  lemma SliceBoundIsSafe(op: string, s: string, at: nat)
    requires at + 9 <= |s|
    ensures var e := SliceBoundEdit(op, s, Mask(s), at); e.Some? ==> e.value.operator == op && Safe(s, Mask(s), e.value)
  {
    hide Mask, Parse, Print;
    if SliceBoundEdit(op, s, Mask(s), at).Some? {
      assert Mask(s)[at + 8];
      SpacesAreCode(s, at + 9);
      DigitsAreCode(s, AfterSpace(s, at + 9));
    }
  }

  lemma SiteIsSafe(rule: Rule, op: string, s: string, at: nat)
    requires MatchesAt(s, Pattern(rule), at) && Sensible(rule)
    ensures var e := SiteEdit(rule, op, s, Mask(s), at); e.Some? ==> e.value.operator == op && Safe(s, Mask(s), e.value)
  {
    hide Mask, WordBoundary, AfterDigits;
    if rule.AfterIf? || rule.BeforeCall? || rule.GoBranchSkip? {
      InsertionsAreSafe(rule, op, s, at);
    } else if rule.SliceBound? {
      SliceBoundIsSafe(op, s, at);
    } else {
      hide SliceBoundEdit, AfterIfEdit, BeforeCallEdit, GoBranchSkipEdit;
    }
  }

  lemma AtIsSafe(rule: Rule, op: string, s: string, at: nat)
    requires at < |s| && Sensible(rule)
    ensures var e := At(rule, op, s, Mask(s), at).0; e.Some? ==> e.value.operator == op && Safe(s, Mask(s), e.value)
  {
    hide Mask, SiteEdit, Spaced;
    if !rule.Comparison? && !rule.RustEquality? && MatchesAt(s, Pattern(rule), at) {
      SiteIsSafe(rule, op, s, at);
    }
  }

  lemma InSites(rule: Rule, op: string, s: string, mask: seq<bool>, at: nat, e: Edit)
    requires Sensible(rule) && at < |s|
    ensures var r := At(rule, op, s, mask, at);
            e in Sites(rule, op, s, mask, at) <==> r.0 == Some(e) || e in Sites(rule, op, s, mask, at + r.1)
  {
    hide At, Sensible;
    var r := At(rule, op, s, mask, at);
    assert Sites(rule, op, s, mask, at) == Optional(r.0) + Sites(rule, op, s, mask, at + r.1);
  }

  lemma SitesEnd(rule: Rule, op: string, s: string, mask: seq<bool>, at: nat)
    requires Sensible(rule)
    ensures Sites(rule, op, s, mask, at) != [] ==> at < |s|
  {
  }

  lemma {:induction false} SitesAreSafe(rule: Rule, op: string, s: string, at: nat, e: Edit)
    requires Sensible(rule) && e in Sites(rule, op, s, Mask(s), at)
    ensures e.operator == op && Safe(s, Mask(s), e)
    decreases |s| - at
  {
    hide At, Safe, Mask, Sensible, Sites;
    SitesEnd(rule, op, s, Mask(s), at);
    AtIsSafe(rule, op, s, at);
    InSites(rule, op, s, Mask(s), at, e);
    var r := At(rule, op, s, Mask(s), at);
    if r.0 != Some(e) {
      SitesAreSafe(rule, op, s, at + r.1, e);
    }
  }

  // ----- scanning -----

  method RuleEdits(rule: Rule, op: string, s: string, mask: seq<bool>) returns (edits: seq<Edit>)
    requires Sensible(rule)
    ensures edits == Sites(rule, op, s, mask, 0)
  {
    hide At, Sensible;
    edits := [];
    var at := 0;
    while at < |s|
      invariant edits + Sites(rule, op, s, mask, at) == Sites(rule, op, s, mask, 0)
      decreases |s| - at
    {
      var found := At(rule, op, s, mask, at);
      ConcatAssociates(edits, Optional(found.0), Sites(rule, op, s, mask, at + found.1));
      if found.0.Some? {
        edits := edits + [found.0.value];
      }
      at := at + found.1;
    }
  }

  // ----- word rules -----

  /** No proper suffix of the pattern begins it again, so occurrences never overlap. */
  predicate Unbordered(p: string) {
    p != [] && forall k :: 0 < k < |p| ==> p[k..] != p[..|p| - k]
  }

  lemma Overlap(s: string, p: string, at: nat, x: nat)
    requires MatchesAt(s, p, at) && MatchesAt(s, p, x) && at < x < at + |p|
    ensures p[x - at..] == p[..|p| - (x - at)]
  {
    assert p[x - at..] == s[x..at + |p|] == p[..|p| - (x - at)];
  }

  lemma NoOverlap(s: string, p: string, at: nat, x: nat)
    requires Unbordered(p) && MatchesAt(s, p, at) && MatchesAt(s, p, x) && at < x
    ensures at + |p| <= x
  {
    if x < at + |p| {
      Overlap(s, p, at, x);
    }
  }

  /** A whole word standing in code. */
  ghost predicate StandsAt(s: string, mask: seq<bool>, p: string, x: nat) {
    MatchesAt(s, p, x) && CodeRange(mask, x, x + |p|) && WordBoundary(s, x, x + |p|)
  }

  lemma WordAt(op: string, p: string, r: string, s: string, mask: seq<bool>, at: nat)
    requires p != [] && at < |s|
    ensures var found := At(Word(p, r), op, s, mask, at);
            && found.1 == (if MatchesAt(s, p, at) then |p| else 1)
            && found.0 == if StandsAt(s, mask, p, at) then Some(Edit(op, at, at + |p|, r)) else None
  {
    hide CodeRange, WordBoundary;
  }

  /** Between one stop of the scan and the next no whole word can start. */
  lemma NoneSkipped(p: string, s: string, mask: seq<bool>, at: nat, x: nat)
    requires Unbordered(p) && at < x < at + (if MatchesAt(s, p, at) then |p| else 1)
    ensures !StandsAt(s, mask, p, x)
  {
    hide CodeRange, WordBoundary, Unbordered;
    if StandsAt(s, mask, p, x) {
      NoOverlap(s, p, at, x);
    }
  }

  lemma NoSitesLeft(rule: Rule, op: string, s: string, mask: seq<bool>, x: nat)
    requires Sensible(rule) && x >= |s|
    ensures Sites(rule, op, s, mask, x) == [] && (Pattern(rule) != "" ==> !StandsAt(s, mask, Pattern(rule), x))
  {
  }

  /** A word rule finds exactly the whole words in code. */
  lemma {:induction false} WordSites(op: string, p: string, r: string, s: string, mask: seq<bool>, at: nat, e: Edit)
    requires Unbordered(p) && at <= |s|
    ensures e in Sites(Word(p, r), op, s, mask, at) <==>
              at <= e.start && StandsAt(s, mask, p, e.start) && e == Edit(op, e.start, e.start + |p|, r)
    decreases |s| - at
  {
    hide StandsAt, At, Sites, MatchesAt;
    if at == |s| {
      NoSitesLeft(Word(p, r), op, s, mask, at);
      NoSitesLeft(Word(p, r), op, s, mask, Max(at, e.start));
    } else {
      var found := At(Word(p, r), op, s, mask, at);
      WordAt(op, p, r, s, mask, at);
      InSites(Word(p, r), op, s, mask, at, e);
      WordSites(op, p, r, s, mask, at + found.1, e);
      if at < e.start < at + found.1 {
        NoneSkipped(p, s, mask, at, e.start);
      }
      hide Unbordered;
    }
  }

  lemma FlipWordsAreUnbordered()
    ensures Unbordered("true") && Unbordered("false")
  {
    forall k | 0 < k < 4 ensures "true"[k..] != "true"[..4 - k] {
      assert "true"[k..][0] == "true"[k] != 't';
    }
    forall k | 0 < k < 5 ensures "false"[k..] != "false"[..5 - k] {
      assert "false"[k..][0] == "false"[k] != 'f';
    }
  }
}
