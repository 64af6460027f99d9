/** Which obligations asked for mutation, and with which operators. */
module MutationPolicies {
  import opened Options
  import opened Strings
  import opened Decimal
  import opened MutationRules

  /** A scenario of the contract: its obligations and, when hinted, its operator tokens. */
  datatype Scenario = Scenario(obligations: seq<string>, hints: Option<seq<string>>)

  /** Everything safe, or the named operators. */
  datatype Choice = Choice(all: bool, operators: set<string>)

  datatype MutationPolicy = MutationPolicy(
    obligations: set<string>, operators: set<string>, allSafe: bool, byObligation: map<string, Choice>)

  const EMPTY_POLICY := MutationPolicy({}, {}, false, map[])

  function OperatorToken(raw: string): string {
    Lower(Trim(raw))
  }

  predicate OperatorFor(e: Ecosystem, op: string) {
    op in Catalogue(e)
  }

  predicate KnownOperator(op: string) {
    OperatorFor(TsJs, op) || OperatorFor(Go, op) || OperatorFor(Rust, op)
  }

  // ----- what a policy says about its contract -----

  ghost predicate Hinted(scenarios: seq<Scenario>, s: Scenario) {
    s in scenarios && s.hints.Some?
  }

  ghost predicate Names(s: Scenario, op: string) {
    s.hints.Some? && KnownOperator(op) && exists raw :: raw in s.hints.value && OperatorToken(raw) == op
  }

  ghost predicate TakesAll(s: Scenario) {
    s.hints == Some([])
  }

  ghost predicate AsksFor(scenarios: seq<Scenario>, o: string) {
    exists s :: Hinted(scenarios, s) && o in s.obligations
  }

  ghost predicate AsksForAll(scenarios: seq<Scenario>, o: string) {
    exists s :: Hinted(scenarios, s) && o in s.obligations && TakesAll(s)
  }

  ghost predicate AsksForOperator(scenarios: seq<Scenario>, o: string, op: string) {
    exists s :: Hinted(scenarios, s) && o in s.obligations && Names(s, op)
  }

  ghost predicate IsPolicyOf(p: MutationPolicy, scenarios: seq<Scenario>) {
    && p.byObligation.Keys == p.obligations
    && (forall o :: o in p.obligations <==> AsksFor(scenarios, o))
    && (p.allSafe <==> exists s :: Hinted(scenarios, s) && TakesAll(s))
    && (forall op :: op in p.operators <==> exists s :: Hinted(scenarios, s) && Names(s, op))
    && AreChoicesOf(p.byObligation, scenarios)
  }

  ghost predicate AreChoicesOf(choices: map<string, Choice>, scenarios: seq<Scenario>) {
    && (forall o :: o in choices ==> (choices[o].all <==> AsksForAll(scenarios, o)))
    && (forall o, op :: o in choices ==> (op in choices[o].operators <==> AsksForOperator(scenarios, o, op)))
  }

  /** Some hinted operator is blank. */
  ghost predicate HasBlankOperator(scenarios: seq<Scenario>) {
    exists s :: Hinted(scenarios, s) && exists raw :: raw in s.hints.value && OperatorToken(raw) == ""
  }

  function KnownTokens(raws: seq<string>): set<string> {
    set raw | raw in raws && KnownOperator(OperatorToken(raw)) :: OperatorToken(raw)
  }

  method Operators(raws: seq<string>) returns (known: Option<set<string>>)
    ensures known.None? <==> exists raw :: raw in raws && OperatorToken(raw) == ""
    ensures known.Some? ==> known.value == KnownTokens(raws)
  {
    hide OperatorToken, KnownOperator;
    var tokens: set<string> := {};
    for i := 0 to |raws|
      invariant forall raw :: raw in raws[..i] ==> OperatorToken(raw) != ""
      invariant tokens == KnownTokens(raws[..i])
    {
      var token := OperatorToken(raws[i]);
      assert raws[..i + 1] == raws[..i] + [raws[i]];
      if token == "" { return None; }
      if KnownOperator(token) {
        tokens := tokens + {token};
      }
    }
    assert raws[..|raws|] == raws;
    known := Some(tokens);
  }

  function ChoiceOf(p: MutationPolicy, o: string): Choice {
    if o in p.byObligation then p.byObligation[o] else Choice(false, {})
  }

  /** The selections of the listed obligations, widened by one hint. */
  function Widened(p: MutationPolicy, obligations: seq<string>, all: bool, known: set<string>): map<string, Choice> {
    map o | o in p.byObligation.Keys + (set x | x in obligations) ::
      if o in obligations then Choice(ChoiceOf(p, o).all || all, ChoiceOf(p, o).operators + known) else ChoiceOf(p, o)
  }

  lemma WidenedGrows(p: MutationPolicy, obligations: seq<string>, i: nat, all: bool, known: set<string>)
    requires i < |obligations|
    ensures var o, before := obligations[i], Widened(p, obligations[..i], all, known);
            var was := if o in before then before[o] else Choice(false, {});
            Widened(p, obligations[..i + 1], all, known) == before[o := Choice(was.all || all, was.operators + known)]
  {
    var o := obligations[i];
    assert obligations[..i + 1] == obligations[..i] + [o];
  }

  method Select(p: MutationPolicy, obligations: seq<string>, all: bool, known: set<string>)
    returns (choices: map<string, Choice>)
    ensures choices == Widened(p, obligations, all, known)
  {
    choices := p.byObligation;
    for i := 0 to |obligations|
      invariant choices == Widened(p, obligations[..i], all, known)
    {
      var o := obligations[i];
      var was := if o in choices then choices[o] else Choice(false, {});
      WidenedGrows(p, obligations, i, all, known);
      choices := choices[o := Choice(was.all || all, was.operators + known)];
    }
    assert obligations[..|obligations|] == obligations;
  }

  function Extended(p: MutationPolicy, s: Scenario): MutationPolicy
    requires s.hints.Some?
  {
    var all, known := s.hints.value == [], KnownTokens(s.hints.value);
    MutationPolicy(p.obligations + (set o | o in s.obligations), p.operators + known, p.allSafe
                   || all, Widened(p, s.obligations, all, known))
  }

  lemma HintedGrows(scenarios: seq<Scenario>, s: Scenario)
    ensures forall x :: Hinted(scenarios + [s], x) <==> Hinted(scenarios, x) || (x == s && s.hints.Some?)
  {
    assert forall x :: x in scenarios + [s] <==> x in scenarios || x == s;
  }

  lemma NamesKnown(s: Scenario, op: string)
    requires s.hints.Some?
    ensures Names(s, op) <==> op in KnownTokens(s.hints.value)
  {
    hide OperatorToken, KnownOperator;
  }

  lemma AsksGrow(scenarios: seq<Scenario>, s: Scenario, o: string, op: string)
    requires s.hints.Some?
    ensures AsksFor(scenarios + [s], o) <==> AsksFor(scenarios, o) || o in s.obligations
    ensures AsksForAll(scenarios + [s], o) <==> AsksForAll(scenarios, o) || (o in s.obligations && TakesAll(s))
    ensures AsksForOperator(scenarios + [s], o, op) <==>
              AsksForOperator(scenarios, o, op) || (o in s.obligations && Names(s, op))
  {
    hide Hinted, Names, TakesAll;
    HintedGrows(scenarios, s);
  }

  lemma AnyGrows(scenarios: seq<Scenario>, s: Scenario, op: string)
    requires s.hints.Some?
    ensures (exists x :: Hinted(scenarios + [s], x) && TakesAll(x)) <==>
              (exists x :: Hinted(scenarios, x) && TakesAll(x)) || TakesAll(s)
    ensures (exists x :: Hinted(scenarios + [s], x) && Names(x, op)) <==>
              (exists x :: Hinted(scenarios, x) && Names(x, op)) || Names(s, op)
  {
    hide Hinted, Names, TakesAll;
    HintedGrows(scenarios, s);
  }

  lemma AsksTogether(scenarios: seq<Scenario>, o: string, op: string)
    ensures AsksForAll(scenarios, o) || AsksForOperator(scenarios, o, op) ==> AsksFor(scenarios, o)
  {
  }

  lemma PolicyGrows(p: MutationPolicy, scenarios: seq<Scenario>, s: Scenario)
    requires IsPolicyOf(p, scenarios) && s.hints.Some?
    ensures IsPolicyOf(Extended(p, s), scenarios + [s])
  {
    var q, more := Extended(p, s), scenarios + [s];
    hide AsksFor, AsksForAll, AsksForOperator, Names, Hinted, KnownTokens, AreChoicesOf;
    forall o ensures o in q.obligations <==> AsksFor(more, o) { AsksGrow(scenarios, s, o, ""); }
    AnyGrows(scenarios, s, "");
    forall op ensures op in q.operators <==> exists x :: Hinted(more, x) && Names(x, op) {
      AnyGrows(scenarios, s, op);
      NamesKnown(s, op);
    }
    ChoicesGrow(p, scenarios, s);
  }

  lemma ChoicesGrow(p: MutationPolicy, scenarios: seq<Scenario>, s: Scenario)
    requires IsPolicyOf(p, scenarios) && s.hints.Some?
    ensures AreChoicesOf(Extended(p, s).byObligation, scenarios + [s])
  {
    var q, more := Extended(p, s), scenarios + [s];
    hide AsksFor, AsksForAll, AsksForOperator, Names, Hinted, KnownTokens;
    forall o | o in q.byObligation ensures q.byObligation[o].all <==> AsksForAll(more, o) {
      AsksGrow(scenarios, s, o, "");
      AsksTogether(scenarios, o, "");
    }
    forall o, op | o in q.byObligation ensures op in q.byObligation[o].operators <==> AsksForOperator(more, o, op) {
      AsksGrow(scenarios, s, o, op);
      AsksTogether(scenarios, o, op);
      NamesKnown(s, op);
    }
  }

  lemma UnhintedChangesNothing(p: MutationPolicy, scenarios: seq<Scenario>, s: Scenario)
    requires IsPolicyOf(p, scenarios) && s.hints.None?
    ensures IsPolicyOf(p, scenarios + [s])
  {
    hide Names, TakesAll;
    HintedGrows(scenarios, s);
    hide Hinted;
  }

  /** Reads the contract; no policy when no scenario with hints has an obligation. */
  method FromContract(scenarios: seq<Scenario>) returns (r: Result<Option<MutationPolicy>, ()>)
    ensures r.Err? <==> HasBlankOperator(scenarios)
    ensures r.Ok? && r.value.Some? ==> r.value.value.obligations != {} && IsPolicyOf(r.value.value, scenarios)
    ensures r == Ok(None) ==> forall o :: !AsksFor(scenarios, o)
  {
    hide IsPolicyOf, Extended, Hinted, OperatorToken;
    var policy := EMPTY_POLICY;
    EmptyPolicy();
    assert scenarios[..0] == [];
    for i := 0 to |scenarios|
      invariant !HasBlankOperator(scenarios[..i]) && IsPolicyOf(policy, scenarios[..i])
    {
      var s := scenarios[i];
      assert scenarios[..i + 1] == scenarios[..i] + [s];
      HintedGrows(scenarios[..i], s);
      if s.hints.None? {
        UnhintedChangesNothing(policy, scenarios[..i], s);
      } else {
        var known := Operators(s.hints.value);
        if known.None? {
          BlankIsFound(scenarios, i);
          return Err(());
        }
        PolicyGrows(policy, scenarios[..i], s);
        policy := ExtendPolicy(policy, s, known.value);
      }
    }
    assert scenarios[..|scenarios|] == scenarios;
    NoObligations(policy, scenarios);
    r := Ok(if policy.obligations == {} then None else Some(policy));
  }

  lemma EmptyPolicy()
    ensures IsPolicyOf(EMPTY_POLICY, []) && !HasBlankOperator([])
  {
  }

  lemma BlankIsFound(scenarios: seq<Scenario>, i: nat)
    requires i < |scenarios| && scenarios[i].hints.Some?
    requires exists raw :: raw in scenarios[i].hints.value && OperatorToken(raw) == ""
    ensures HasBlankOperator(scenarios)
  {
    assert Hinted(scenarios, scenarios[i]);
  }

  lemma NoObligations(p: MutationPolicy, scenarios: seq<Scenario>)
    requires IsPolicyOf(p, scenarios)
    ensures p.obligations == {} ==> forall o :: !AsksFor(scenarios, o)
  {
    hide AsksFor, AreChoicesOf;
  }

  method ExtendPolicy(p: MutationPolicy, s: Scenario, known: set<string>) returns (q: MutationPolicy)
    requires s.hints.Some? && known == KnownTokens(s.hints.value)
    ensures q == Extended(p, s)
  {
    hide Widened, KnownTokens;
    var choices := Select(p, s.obligations, s.hints.value == [], known);
    q := MutationPolicy(p.obligations + (set o | o in s.obligations), p.operators + known, p.allSafe
                        || s.hints.value == [], choices);
  }
}

/** The mutation evidence document: its summaries and its validation. */
module MutationDocuments {
  import opened Words
  import opened Options
  import opened Text
  import opened Sorting
  import opened Listings
  import opened MutationRules
  import opened MutationPlan
  import opened MutationPolicies

  /** A token read from a document: one the validator knows, or any other. */
  datatype EcosystemToken = Known(ecosystem: Ecosystem) | OtherEcosystem

  datatype Status = Killed | Survived | Invalid | OtherStatus

  datatype RunState = NotApplicable | Unmeasured | Measured | OtherState

  /** The identity of a decision joins the mutant and the obligation. */
  datatype DecisionId = DecisionId(mutant: MutantId, obligation: string)

  datatype MutationResultRecord = MutationResultRecord(
    id: DecisionId, ecosystem: EcosystemToken, operator: string, path: string, line: u32, column: u32, status: Status,
    obligation: string)

  datatype MutationRunDocument = MutationRunDocument(
    state: RunState, obligations: seq<string>, applicable: seq<string>,
    planned: u64, killed: u64, survived: u64, invalid: u64,
    results: seq<MutationResultRecord>, llmTokens: u64)

  datatype MutationSummary = MutationSummary(killed: u64, survived: u64, invalid: u64, unmeasured: bool)

  datatype Refusal = WrongObligations | BadApplicable | UsedTokens | DuplicateId | NotApplicableObligation
                   | UnknownEcosystem | Unauthorized | BadRegion | UnknownStatus | WrongCounters | StateContradicts

  /** How many results of an obligation, or of all, have a status. */
  function Count(results: seq<MutationResultRecord>, status: Status): nat {
    if results == [] then 0
    else Count(results[..|results| - 1], status) + if results[|results| - 1].status == status then 1 else 0
  }

  function About(results: seq<MutationResultRecord>, obligation: string): seq<MutationResultRecord> {
    if results == [] then []
    else
      var last := results[|results| - 1];
      About(results[..|results| - 1], obligation) + if last.obligation == obligation then [last] else []
  }

  /** Obligations whose choice admits the operator. */
  function ObligationsFor(p: MutationPolicy, e: Ecosystem, op: string): set<string> {
    set o | o in p.byObligation && ((p.byObligation[o].all && OperatorFor(e, op)) || op in p.byObligation[o].operators)
  }

  function SummaryFor(d: MutationRunDocument, obligation: string): Option<MutationSummary> {
    if obligation !in d.obligations then None
    else if obligation !in d.applicable then
      (if d.planned > 0 && d.applicable == [] then Some(MutationSummary(0, 0, 0, true)) else None)
    else
      var relevant := About(d.results, obligation);
      Some(MutationSummary(Clamp(Count(relevant, Killed)), Clamp(Count(relevant, Survived)),
                           Clamp(Count(relevant, Invalid)), relevant == []))
  }

  // ----- validity -----

  /** Path components as the platform reads them: no root, no parent step, no leading current-directory step. */
  predicate SafeRelative(path: string) {
    !("/" <= path) && ".." !in Components(path) && Components(path)[0] != "."
  }

  predicate Authorized(p: MutationPolicy, r: MutationResultRecord) {
    r.ecosystem.Known? && OperatorFor(r.ecosystem.ecosystem, r.operator)
    && r.obligation in ObligationsFor(p, r.ecosystem.ecosystem, r.operator)
  }

  predicate ValidRecord(p: MutationPolicy, applicable: seq<string>, r: MutationResultRecord) {
    && r.obligation in applicable
    && Authorized(p, r)
    && SafeRelative(r.path) && r.line != 0 && r.column != 0
    && !r.status.OtherStatus?
  }

  ghost predicate DistinctDecisions(results: seq<MutationResultRecord>) {
    forall i, j :: 0 <= i < j < |results| ==> results[i].id != results[j].id
  }

  predicate ValidState(d: MutationRunDocument) {
    match d.state
    case NotApplicable => d.planned == 0 && d.results == [] && d.applicable == []
    case Unmeasured =>
      && Count(d.results, Killed) == 0 && Count(d.results, Survived) == 0
      && ((d.planned > 0 && d.results == [] && d.applicable == [])
          || ((d.planned == 0 || Count(d.results, Invalid) > 0) && d.applicable != []))
    case Measured => d.planned > 0 && Count(d.results, Killed) + Count(d.results, Survived) > 0
    case OtherState => false
  }

  predicate RightCounters(d: MutationRunDocument) {
    && d.killed == Clamp(Count(d.results, Killed))
    && d.survived == Clamp(Count(d.results, Survived))
    && d.invalid == Clamp(Count(d.results, Invalid))
  }

  /** The sorted list of a set. */
  ghost predicate Lists(items: seq<string>, s: set<string>) {
    Ascending(items, Text.Before) && forall o :: o in items <==> o in s
  }

  ghost predicate ValidDocument(d: MutationRunDocument, p: MutationPolicy) {
    && Lists(d.obligations, p.obligations)
    && Ascending(d.applicable, Text.Before) && (forall o :: o in d.applicable ==> o in p.obligations)
    && d.llmTokens == 0
    && DistinctDecisions(d.results)
    && (forall r :: r in d.results ==> ValidRecord(p, d.applicable, r))
    && RightCounters(d)
    && ValidState(d)
  }

  // ----- the validator -----

  lemma AscendingGrows(items: seq<string>, i: nat)
    requires 0 < i < |items| && Ascending(items[..i], Text.Before)
    ensures Ascending(items[..i + 1], Text.Before) <==> Text.Before(items[i - 1], items[i])
  {
    BeforeIsStrictOrder();
    hide Text.Before;
    var more := items[..i + 1];
    assert more[i] == items[i] && more[i - 1] == items[i - 1];
    if Text.Before(items[i - 1], items[i]) {
      forall j | 0 <= j < i ensures Text.Before(items[j], items[i]) {
        assert items[..i][j] == items[j] && items[..i][i - 1] == items[i - 1];
        assert j < i - 1 ==> Text.Before(items[j], items[i - 1]);
      }
    }
  }

  method StrictlySorted(items: seq<string>) returns (sorted: bool)
    ensures sorted <==> Ascending(items, Text.Before)
  {
    hide Text.Before;
    var i := 1;
    while i < |items|
      invariant 1 <= i && (i <= |items| ==> Ascending(items[..i], Text.Before))
      invariant i <= |items| || |items| == 0
    {
      AscendingGrows(items, i);
      if !Text.Before(items[i - 1], items[i]) {
        assert items[..i + 1] <= items;
        return false;
      }
      i := i + 1;
    }
    assert |items| > 0 ==> items[..|items|] == items;
    sorted := true;
  }

  lemma ListsIsUnique(a: seq<string>, b: seq<string>, s: set<string>)
    requires Lists(b, s)
    ensures Lists(a, s) <==> a == b
  {
    if Lists(a, s) {
      BeforeIsStrictOrder();
      AscendingIsUnique(a, b, Text.Before);
    }
  }

  /** Why one record is refused, in the order the checks are made. */
  method CheckRecord(p: MutationPolicy, applicable: seq<string>, r: MutationResultRecord)
    returns (refusal: Option<Refusal>)
    ensures refusal.None? <==> ValidRecord(p, applicable, r)
  {
    hide SafeRelative, OperatorFor, ObligationsFor;
    if r.obligation !in applicable { return Some(NotApplicableObligation); }
    if r.ecosystem.OtherEcosystem? { return Some(UnknownEcosystem); }
    if !OperatorFor(r.ecosystem.ecosystem, r.operator)
       || r.obligation !in ObligationsFor(p, r.ecosystem.ecosystem, r.operator) {
      return Some(Unauthorized);
    }
    if !SafeRelative(r.path) || r.line == 0 || r.column == 0 { return Some(BadRegion); }
    if r.status.OtherStatus? { return Some(UnknownStatus); }
    refusal := None;
  }

  ghost predicate AllValid(p: MutationPolicy, applicable: seq<string>, results: seq<MutationResultRecord>) {
    && DistinctDecisions(results)
    && forall r :: r in results ==> ValidRecord(p, applicable, r)
  }

  lemma AllValidGrows(p: MutationPolicy, applicable: seq<string>, results: seq<MutationResultRecord>,
                      r: MutationResultRecord)
    requires AllValid(p, applicable, results)
    ensures AllValid(p, applicable, results + [r]) <==>
              ValidRecord(p, applicable, r) && forall x :: x in results ==> x.id != r.id
  {
    hide ValidRecord;
    var more := results + [r];
    assert more[|results|] == r;
    if AllValid(p, applicable, more) {
      forall x | x in results ensures x.id != r.id {
        var i :| 0 <= i < |results| && results[i] == x;
        assert more[i].id != more[|results|].id;
      }
    }
  }

  lemma InvalidPrefix(p: MutationPolicy, applicable: seq<string>, results: seq<MutationResultRecord>, i: nat)
    requires i <= |results| && !AllValid(p, applicable, results[..i])
    ensures !AllValid(p, applicable, results)
  {
    hide ValidRecord;
  }

  method CheckRecords(p: MutationPolicy, applicable: seq<string>, results: seq<MutationResultRecord>)
    returns (refusal: Option<Refusal>, killed: u64, survived: u64, invalid: u64)
    ensures refusal.None? <==> AllValid(p, applicable, results)
    ensures refusal.None? ==>
              killed == Clamp(Count(results, Killed)) && survived == Clamp(Count(results, Survived))
                  && invalid == Clamp(Count(results, Invalid))
  {
    hide ValidRecord, AllValid;
    refusal, killed, survived, invalid := None, 0, 0, 0;
    var ids: set<DecisionId> := {};
    assert AllValid(p, applicable, results[..0]) by { NothingToRefuse(p, applicable); }
    for i := 0 to |results|
      invariant refusal == None && AllValid(p, applicable, results[..i])
      invariant forall id :: id in ids <==> exists x :: x in results[..i] && x.id == id
      invariant killed == Clamp(Count(results[..i], Killed)) && survived == Clamp(Count(results[..i], Survived))
      invariant invalid == Clamp(Count(results[..i], Invalid))
    {
      var r := results[i];
      assert results[..i + 1] == results[..i] + [r];
      AllValidGrows(p, applicable, results[..i], r);
      refusal := if r.id in ids then Some(DuplicateId) else None;
      if refusal.None? {
        refusal := CheckRecord(p, applicable, r);
      }
      if refusal.Some? {
        InvalidPrefix(p, applicable, results, i + 1);
        return;
      }
      ids := ids + {r.id};
      killed, survived, invalid := Tallied(results, i, killed, survived, invalid);
    }
    assert results[..|results|] == results;
  }

  lemma NothingToRefuse(p: MutationPolicy, applicable: seq<string>)
    ensures AllValid(p, applicable, [])
  {
  }

  method Tallied(results: seq<MutationResultRecord>, i: nat, k: u64, s: u64, n: u64)
    returns (killed: u64, survived: u64, invalid: u64)
    requires i < |results|
    requires k == Clamp(Count(results[..i], Killed)) && s == Clamp(Count(results[..i], Survived))
    requires n == Clamp(Count(results[..i], Invalid))
    ensures killed == Clamp(Count(results[..i + 1], Killed)) && survived == Clamp(Count(results[..i + 1], Survived))
    ensures invalid == Clamp(Count(results[..i + 1], Invalid))
  {
    assert results[..i + 1][..i] == results[..i];
    killed, survived, invalid := k, s, n;
    match results[i].status
    case Killed => killed := SatAdd(killed, 1);
    case Survived => survived := SatAdd(survived, 1);
    case Invalid => invalid := SatAdd(invalid, 1);
    case OtherStatus =>
  }

  method Validate(d: MutationRunDocument, p: MutationPolicy) returns (refusal: Option<Refusal>)
    ensures refusal.None? <==> ValidDocument(d, p)
  {
    hide AllValid, ValidRecord, Count;
    var expected := Listing(p.obligations);
    ListsIsUnique(d.obligations, expected, p.obligations);
    ValidInParts(d, p);
    hide Lists, ValidDocument;
    if d.obligations != expected { return Some(WrongObligations); }
    var sorted := StrictlySorted(d.applicable);
    if !sorted || exists o :: o in d.applicable && o !in p.obligations { return Some(BadApplicable); }
    if d.llmTokens != 0 { return Some(UsedTokens); }
    var killed, survived, invalid;
    refusal, killed, survived, invalid := CheckRecords(p, d.applicable, d.results);
    if refusal.Some? { return; }
    if (d.killed, d.survived, d.invalid) != (killed, survived, invalid) { return Some(WrongCounters); }
    refusal := if ValidState(d) then None else Some(StateContradicts);
  }

  lemma ValidInParts(d: MutationRunDocument, p: MutationPolicy)
    ensures ValidDocument(d, p) <==>
              && Lists(d.obligations, p.obligations)
              && Ascending(d.applicable, Text.Before) && (forall o :: o in d.applicable ==> o in p.obligations)
              && d.llmTokens == 0 && AllValid(p, d.applicable, d.results) && RightCounters(d) && ValidState(d)
  {
    hide Lists, ValidRecord, DistinctDecisions, RightCounters, ValidState;
  }

  // ----- the summaries of a document -----

  function CountIn(s: MutationSummary, status: Status): nat {
    match status
    case Killed => s.killed
    case Survived => s.survived
    case Invalid => s.invalid
    case OtherStatus => 0
  }

  /** What the summary of an obligation reports; an absent summary reports nothing. */
  function Reported(d: MutationRunDocument, obligation: string, status: Status): nat {
    var s := SummaryFor(d, obligation);
    if s.None? then 0 else CountIn(s.value, status)
  }

  function TotalReported(d: MutationRunDocument, obligations: seq<string>, status: Status): nat {
    if obligations == [] then 0
    else
      var last := |obligations| - 1;
      TotalReported(d, obligations[..last], status) + Reported(d, obligations[last], status)
  }

  function Total(obligations: seq<string>, results: seq<MutationResultRecord>, status: Status): nat {
    if obligations == [] then 0
    else
      var n := |obligations| - 1;
      Total(obligations[..n], results, status) + Count(About(results, obligations[n]), status)
  }

  lemma CountGrows(results: seq<MutationResultRecord>, r: MutationResultRecord, status: Status, obligation: string)
    ensures Count(results + [r], status) == Count(results, status) + if r.status == status then 1 else 0
    ensures About(results + [r], obligation) == About(results, obligation) + if r.obligation == obligation then [r]
              else []
  {
    assert (results + [r])[..|results|] == results;
  }

  lemma CountAboutGrows(results: seq<MutationResultRecord>, r: MutationResultRecord, status: Status, o: string)
    ensures Count(About(results + [r], o), status) == Count(About(results, o), status) + if r.obligation == o
            && r.status == status then 1 else 0
  {
    CountGrows(results, r, status, o);
    CountGrows(About(results, o), r, status, o);
    hide Count, About;
    if r.obligation != o {
      assert About(results + [r], o) == About(results, o);
    }
  }

  lemma {:induction false} TotalGrows(obligations: seq<string>, results: seq<MutationResultRecord>,
                                      r: MutationResultRecord, status: Status)
    requires forall i, j :: 0 <= i < j < |obligations| ==> obligations[i] != obligations[j]
    ensures Total(obligations, results + [r], status)
              == Total(obligations, results, status) + if r.obligation in obligations && r.status == status then 1
                  else 0
  {
    hide Count, About;
    if obligations != [] {
      var n := |obligations| - 1;
      TotalGrows(obligations[..n], results, r, status);
      CountAboutGrows(results, r, status, obligations[n]);
      assert r.obligation in obligations <==> r.obligation in obligations[..n] || r.obligation == obligations[n];
      assert !(r.obligation in obligations[..n] && r.obligation == obligations[n]);
    }
  }

  lemma {:induction false} TotalIsCount(obligations: seq<string>, results: seq<MutationResultRecord>, status: Status)
    requires forall i, j :: 0 <= i < j < |obligations| ==> obligations[i] != obligations[j]
    requires forall r :: r in results ==> r.obligation in obligations
    ensures Total(obligations, results, status) == Count(results, status)
  {
    if results == [] {
      NothingTotals(obligations, status);
    } else {
      var n := |results| - 1;
      TotalIsCount(obligations, results[..n], status);
      TotalGrows(obligations, results[..n], results[n], status);
      assert results == results[..n] + [results[n]];
      CountGrows(results[..n], results[n], status, "");
    }
  }

  lemma {:induction false} NothingTotals(obligations: seq<string>, status: Status)
    ensures Total(obligations, [], status) == 0
  {
    if obligations != [] {
      NothingTotals(obligations[..|obligations| - 1], status);
    }
  }

  lemma {:induction false} AboutIsShorter(results: seq<MutationResultRecord>, obligation: string, status: Status)
    ensures |About(results, obligation)| <= |results| && Count(results, status) <= |results|
    ensures (forall r :: r in results ==> r.obligation != obligation) ==> About(results, obligation) == []
  {
    if results != [] {
      AboutIsShorter(results[..|results| - 1], obligation, status);
    }
  }

  lemma ReportedIsCount(d: MutationRunDocument, p: MutationPolicy, o: string, status: Status)
    requires ValidDocument(d, p) && |d.results| <= U64_MAX && o in d.obligations && !status.OtherStatus?
    ensures Reported(d, o, status) == Count(About(d.results, o), status)
  {
    AboutIsShorter(d.results, o, status);
    AboutIsShorter(About(d.results, o), o, status);
    hide RightCounters, ValidState, About, Lists, DistinctDecisions, Authorized, SafeRelative;
    if o !in d.applicable {
      assert forall r :: r in d.results ==> ValidRecord(p, d.applicable, r) && r.obligation != o;
    }
  }

  lemma {:induction false} TotalReportedIsTotal(d: MutationRunDocument, p: MutationPolicy, obligations: seq<string>,
                                                status: Status)
    requires ValidDocument(d, p) && |d.results| <= U64_MAX && !status.OtherStatus?
    requires forall o :: o in obligations ==> o in d.obligations
    ensures TotalReported(d, obligations, status) == Total(obligations, d.results, status)
  {
    hide ValidDocument, Reported, Count, About;
    if obligations != [] {
      var n := |obligations| - 1;
      TotalReportedIsTotal(d, p, obligations[..n], status);
      ReportedIsCount(d, p, obligations[n], status);
    }
  }

  /** The summaries of the obligations of a valid document add up to its counters. */
  lemma SummariesAddUp(d: MutationRunDocument, p: MutationPolicy)
    requires ValidDocument(d, p) && |d.results| <= U64_MAX
    ensures TotalReported(d, d.obligations, Killed) == d.killed
    ensures TotalReported(d, d.obligations, Survived) == d.survived
    ensures TotalReported(d, d.obligations, Invalid) == d.invalid
  {
    BeforeIsStrictOrder();
    forall status: Status | !status.OtherStatus?
      ensures TotalReported(d, d.obligations, status) == Count(d.results, status) <= U64_MAX
    {
      AllAboutObligations(d, p);
      TotalReportedIsTotal(d, p, d.obligations, status);
      TotalIsCount(d.obligations, d.results, status);
      AboutIsShorter(d.results, "", status);
    }
    hide TotalReported, Count, Lists, DistinctDecisions, ValidState;
  }

  lemma AllAboutObligations(d: MutationRunDocument, p: MutationPolicy)
    requires ValidDocument(d, p)
    ensures forall r :: r in d.results ==> r.obligation in d.obligations
    ensures forall i, j :: 0 <= i < j < |d.obligations| ==> d.obligations[i] != d.obligations[j]
  {
    BeforeIsStrictOrder();
    hide Text.Before, Authorized, SafeRelative, RightCounters, ValidState, DistinctDecisions;
    forall r | r in d.results ensures r.obligation in d.obligations {
      assert ValidRecord(p, d.applicable, r);
    }
  }
}
