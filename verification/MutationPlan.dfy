/** Planning the mutants of one changed file, and applying one of them. */
module MutationPlan {
  import opened Words
  import opened Options
  import opened Text
  import opened Sorting
  import opened Strings
  import opened Decimal
  import opened Lexing
  import opened MutationRules

  const MAX_SOURCE_BYTES: nat := 4 * 1024 * 1024
  const MAX_PLANNED: nat := 256

  datatype MutationError = SourceChanged | BadRequest | TooLarge | UnknownOperator

  /** The digested identity of a mutant: the digest is injective in these fields. */
  datatype MutantId = MutantId(ecosystem: Ecosystem, path: string, operator: string, start: nat, original: string,
                               replacement: string)

  datatype SourceMutant = SourceMutant(
    id: MutantId, ecosystem: Ecosystem, operator: string, path: string, line: u32, column: u32,
    start: nat, end: nat, original: string, replacement: string)
  {
    /** Applies this one edit to the exact text it was planned from. */
    function Apply(source: string): Result<string, MutationError> {
      if start > end || end > |source| || source[start..end] != original then Err(SourceChanged)
      else Ok(source[..start] + replacement + source[end..])
    }
  }

  // ----- the request -----

  function Components(path: string): seq<string> {
    if '/' !in path then [path]
    else
      var at := FindChar(path, '/', 0, |path|);
      SlashIsFound(path, 0);
      [path[..at]] + Components(path[at + 1..])
  }

  lemma {:induction false} SlashIsFound(path: string, at: nat)
    requires at <= |path| && '/' in path[at..]
    ensures FindChar(path, '/', at, |path|) < |path|
    decreases |path| - at
  {
    if path[at] != '/' {
      assert path[at..] == [path[at]] + path[at + 1..];
      SlashIsFound(path, at + 1);
    }
  }

  predicate UnsafePath(path: string) {
    || Trim(path) == ""
    || "/" <= path
    || '\\' in path
    || ':' in path
    || "" in Components(path) || "." in Components(path) || ".." in Components(path)
  }

  function Requested(e: Ecosystem, operators: seq<string>): set<string> {
    if operators == [] then set op | op in Catalogue(e) else set op | op in operators :: Lower(Trim(op))
  }

  predicate AllKnown(e: Ecosystem, requested: set<string>) {
    forall op :: op in requested ==> op in Catalogue(e)
  }

  // ----- positions -----

  function Newlines(s: string): nat {
    if s == [] then 0 else Newlines(s[..|s| - 1]) + if s[|s| - 1] == '\n' then 1 else 0
  }

  function Clamp32(n: nat): u32 {
    if n <= U32_MAX then n else U32_MAX
  }

  /** One-based line of an offset. */
  function LineAt(s: string, offset: nat): u32
    requires offset <= |s|
  {
    Clamp32(Newlines(s[..offset]) + 1)
  }

  /** Bytes since the last line end. */
  function SinceNewline(s: string): nat {
    if s == [] || s[|s| - 1] == '\n' then 0 else 1 + SinceNewline(s[..|s| - 1])
  }

  function MutantOf(e: Ecosystem, path: string, s: string, edit: Edit): SourceMutant
    requires edit.start <= edit.end <= |s|
  {
    var original := s[edit.start..edit.end];
    SourceMutant(MutantId(e, path, edit.operator, edit.start, original, edit.replacement), e, edit.operator, path,
                 LineAt(s, edit.start), Clamp32(SinceNewline(s[..edit.start]) + 1),
                 edit.start, edit.end, original, edit.replacement)
  }

  // ----- the order of a plan -----

  predicate EditLess(a: Edit, b: Edit) {
    || a.start < b.start
    || (a.start == b.start && a.end < b.end)
    || (a.start == b.start && a.end == b.end && Before(a.operator, b.operator))
    || (a.start == b.start && a.end == b.end && a.operator == b.operator && Before(a.replacement, b.replacement))
  }

  lemma EditLessIsTotal()
    ensures StrictOrder(EditLess)
    ensures forall a, b :: a == b || EditLess(a, b) || EditLess(b, a)
  {
    BeforeIsStrictOrder();
    hide Before;
    assert forall a, b, c :: EditLess(a, b) && EditLess(b, c) ==> EditLess(a, c);
    forall a, b, c | EditLess(a, c) && !EditLess(a, b) ensures EditLess(b, c) {
      assert a == b || EditLess(b, a);
    }
  }

  // ----- the plan -----

  /** An edit of a requested operator on a changed line. */
  ghost predicate IsPlanned(e: Ecosystem, s: string, changed: set<u32>, requested: set<string>, edit: Edit) {
    && edit.start <= |s| && LineAt(s, edit.start) in changed
    && edit.operator in requested
    && IsFound(e, s, edit)
  }

  ghost predicate IsFound(e: Ecosystem, s: string, edit: Edit) {
    FoundBy(Rules(e, edit.operator), edit.operator, s, edit)
  }

  ghost predicate FoundBy(rules: seq<Rule>, op: string, s: string, edit: Edit) {
    exists rule :: rule in rules && Sensible(rule) && edit in Sites(rule, op, s, Mask(s), 0)
  }

  lemma FoundIsSafe(e: Ecosystem, s: string, edit: Edit)
    requires IsFound(e, s, edit)
    ensures Safe(s, Mask(s), edit)
  {
    hide Sites, Mask, Safe, Sensible;
    var rule :| rule in Rules(e, edit.operator) && Sensible(rule) && edit in Sites(rule, edit.operator, s, Mask(s), 0);
    SitesAreSafe(rule, edit.operator, s, 0, edit);
  }

  lemma FoundByOneMore(rules: seq<Rule>, rule: Rule, op: string, s: string, edit: Edit)
    requires Sensible(rule)
    ensures FoundBy(rules + [rule], op, s, edit) <==>
              FoundBy(rules, op, s, edit) || edit in Sites(rule, op, s, Mask(s), 0)
  {
    hide Sites, Mask, Sensible;
    assert rule in rules + [rule];
    assert forall x :: x in rules + [rule] <==> x in rules || x == rule;
  }

  method OperatorEdits(e: Ecosystem, op: string, s: string, mask: seq<bool>) returns (edits: seq<Edit>)
    requires mask == Mask(s)
    ensures forall x :: x in edits <==> x.operator == op && IsFound(e, s, x)
  {
    hide Sites, Mask, Sensible, FoundBy, Rules;
    var rules := Rules(e, op);
    RulesAreSensible(e, op);
    edits := [];
    NothingFound(op, s);
    for k := 0 to |rules|
      invariant forall x :: x in edits <==> FoundBy(rules[..k], op, s, x)
    {
      var more := RuleEdits(rules[k], op, s, mask);
      assert rules[..k + 1] == rules[..k] + [rules[k]];
      forall x ensures x in edits + more <==> FoundBy(rules[..k + 1], op, s, x) {
        FoundByOneMore(rules[..k], rules[k], op, s, x);
      }
      edits := edits + more;
    }
    assert rules[..|rules|] == rules;
    forall x | FoundBy(rules, op, s, x) ensures x.operator == op {
      FoundByOperator(rules, op, s, x);
    }
  }

  lemma NothingFound(op: string, s: string)
    ensures forall x :: !FoundBy([], op, s, x)
  {
  }

  lemma FoundByOperator(rules: seq<Rule>, op: string, s: string, x: Edit)
    requires FoundBy(rules, op, s, x)
    ensures x.operator == op
  {
    hide Sites, Mask, Sensible, Safe;
    var rule :| rule in rules && Sensible(rule) && x in Sites(rule, op, s, Mask(s), 0);
    SitesAreSafe(rule, op, s, 0, x);
  }

  method AllEdits(e: Ecosystem, s: string, mask: seq<bool>, requested: set<string>) returns (edits: seq<Edit>)
    requires mask == Mask(s) && AllKnown(e, requested)
    ensures forall x :: x in edits <==> x.operator in requested && IsFound(e, s, x)
  {
    hide Mask, IsFound, Catalogue;
    var catalogue := Catalogue(e);
    edits := [];
    for i := 0 to |catalogue|
      invariant forall x :: x in edits <==> x.operator in requested && x.operator in catalogue[..i] && IsFound(e, s, x)
    {
      assert catalogue[..i + 1] == catalogue[..i] + [catalogue[i]];
      if catalogue[i] in requested {
        var more := OperatorEdits(e, catalogue[i], s, mask);
        edits := edits + more;
      }
    }
    assert catalogue[..|catalogue|] == catalogue;
  }

  method OnChangedLines(s: string, edits: seq<Edit>, changed: set<u32>) returns (kept: seq<Edit>)
    requires forall x :: x in edits ==> x.start <= |s|
    ensures forall x :: x in kept <==> x in edits && LineAt(s, x.start) in changed
  {
    hide LineAt;
    kept := [];
    for i := 0 to |edits|
      invariant forall x :: x in kept <==> x in edits[..i] && LineAt(s, x.start) in changed
    {
      assert edits[..i + 1] == edits[..i] + [edits[i]];
      if LineAt(s, edits[i].start) in changed {
        kept := kept + [edits[i]];
      }
    }
    assert edits[..|edits|] == edits;
  }

  method Deduplicated(s: seq<Edit>) returns (r: seq<Edit>)
    ensures r == Dedup(s)
  {
    r := [];
    for i := 0 to |s|
      invariant r == Dedup(s[..i])
    {
      DedupKeepsElements(s[..i]);
      assert s[..i + 1][..i] == s[..i];
      if i == 0 || r[|r| - 1] != s[i] {
        r := r + [s[i]];
      }
    }
    assert s[..|s|] == s;
  }

  /** The edits of a plan, in order and without repetition, before it is cut to its budget. */
  ghost predicate IsPlan(e: Ecosystem, s: string, changed: set<u32>, requested: set<string>, edits: seq<Edit>) {
    Ascending(edits, EditLess) && forall x :: x in edits <==> IsPlanned(e, s, changed, requested, x)
  }

  lemma PlanIsUnique(e: Ecosystem, s: string, changed: set<u32>, requested: set<string>, a: seq<Edit>, b: seq<Edit>)
    requires IsPlan(e, s, changed, requested, a) && IsPlan(e, s, changed, requested, b)
    ensures a == b
  {
    hide IsPlanned, EditLess;
    EditLessIsTotal();
    AscendingIsUnique(a, b, EditLess);
  }

  method PlanEdits(e: Ecosystem, s: string, changed: set<u32>, requested: set<string>) returns (edits: seq<Edit>)
    requires AllKnown(e, requested)
    ensures IsPlan(e, s, changed, requested, edits)
  {
    hide Mask, IsFound, EditLess, Ascending, LineAt;
    var mask := CodeMask(s);
    var raw := AllEdits(e, s, mask, requested);
    forall x | x in raw ensures x.start <= |s| {
      FoundIsSafe(e, s, x);
    }
    var kept := OnChangedLines(s, raw, changed);
    var sorted := Sort(kept, EditLess);
    edits := Deduplicated(sorted);
    EditLessIsTotal();
    SortSorts(kept, EditLess);
    DedupAscends(sorted, EditLess);
    DedupKeepsElements(sorted);
    SameElements(sorted, kept);
  }

  function MutantsOf(e: Ecosystem, path: string, s: string, edits: seq<Edit>): seq<SourceMutant>
    requires forall x :: x in edits ==> x.start <= x.end <= |s|
  {
    seq(|edits|, i requires 0 <= i < |edits| => MutantOf(e, path, s, edits[i]))
  }

  lemma PlannedIsInside(e: Ecosystem, s: string, changed: set<u32>, requested: set<string>, edits: seq<Edit>)
    requires IsPlan(e, s, changed, requested, edits)
    ensures forall x :: x in edits ==> x.start <= x.end <= |s|
  {
    hide Mask, IsFound;
    forall x | x in edits ensures x.start <= x.end <= |s| {
      FoundIsSafe(e, s, x);
    }
  }

  /** Plans the mutants; edits is the whole ordered plan they are the first part of. */
  method PlanSourceMutants(e: Ecosystem, path: string, source: string, changed: set<u32>, operators: seq<string>,
                           max: nat)
    returns (r: Result<seq<SourceMutant>, MutationError>, ghost edits: seq<Edit>)
    ensures r == Err(BadRequest) <==> UnsafePath(path) || max == 0
    ensures r == Err(TooLarge) <==> !UnsafePath(path) && max > 0 && |source| > MAX_SOURCE_BYTES
    ensures r == Err(UnknownOperator) <==>
              !UnsafePath(path) && max > 0 && |source| <= MAX_SOURCE_BYTES
              && exists op :: op in Requested(e, operators) && op !in Catalogue(e)
    ensures r != Err(SourceChanged)
    ensures r.Ok? ==> IsPlan(e, source, changed, Requested(e, operators), edits)
    ensures r.Ok? ==> (forall x :: x in edits ==> x.start <= x.end <= |source|)
                      && r.value == MutantsOf(e, path, source, edits[..Min(|edits|, Min(max, 256))])
  {
    hide UnsafePath, Requested, IsPlan, MutantsOf, Catalogue;
    edits := [];
    if UnsafePath(path) || max == 0 { return Err(BadRequest), edits; }
    if |source| > MAX_SOURCE_BYTES { return Err(TooLarge), edits; }
    var requested := Requested(e, operators);
    if !AllKnown(e, requested) { return Err(UnknownOperator), edits; }
    var planned := PlanEdits(e, source, changed, requested);
    PlannedIsInside(e, source, changed, requested, planned);
    edits := planned;
    var kept := planned[..Min(|planned|, Min(max, MAX_PLANNED))];
    r := Ok(MutantsOf(e, path, source, kept));
  }
}
