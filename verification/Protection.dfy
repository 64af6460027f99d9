/** The safety net of a change, flow by flow. */
module ProtectionDeltas {
  import opened Options
  import opened Text
  import opened Sorting
  import opened Listings

  datatype FlowProtection = FlowProtection(flow: string, tests: seq<string>, sessions: seq<string>,
                                           branches: seq<string>, obligations: seq<string>)
  {
    predicate Protected() {
      tests != [] || sessions != []
    }
  }

  datatype DeltaState = Preserved | Improved | Degraded | Lost | Replaced | Relocated | NewUnprotected
                      | ObsoleteRemoved | Unknown

  datatype ProtectionDelta = ProtectionDelta(
    flow: string, state: DeltaState, baseTests: seq<string>, headTests: seq<string>, lostCritical: set<string>,
    lostObligations: set<string>)

  datatype DeltaContext = DeltaContext(
    criticalBranches: set<string>, intentionallyRemoved: set<string>, relocations: seq<(string, string)>,
    approvedReplaced: set<string>, changedObligations: set<string>, replacements: seq<(string, string)>,
    replacementApproved: bool)

  /** The first entry of a flow in a snapshot. */
  function FlowIn(flows: seq<FlowProtection>, name: string): Option<FlowProtection> {
    if flows == [] then None
    else if flows[0].flow == name then Some(flows[0])
    else FlowIn(flows[1..], name)
  }

  function Difference(left: seq<string>, right: seq<string>): set<string> {
    set x | x in left && x !in right
  }

  function CriticalLosses(base: FlowProtection, headBranches: seq<string>, ctx: DeltaContext): set<string> {
    Difference(base.branches, headBranches) * ctx.criticalBranches
  }

  function LostObligations(base: FlowProtection, head: FlowProtection, ctx: DeltaContext): set<string> {
    var raw := Difference(base.obligations, head.obligations);
    if ctx.replacementApproved
    then set o | o in raw && !exists r :: r in ctx.replacements && r.0 == o && r.1 in head.obligations
    else raw
  }

  predicate ExpectationChanged(base: FlowProtection, head: FlowProtection, ctx: DeltaContext) {
    exists o :: o in base.obligations + head.obligations && o in ctx.changedObligations
  }

  /** The order of the branches is the policy: no later gain outvotes a lost critical branch. */
  function PresentState(base: FlowProtection, head: FlowProtection, relocated: bool, ctx: DeltaContext): DeltaState {
    if !base.Protected() && !head.Protected() then Unknown
    else if !base.Protected() then Improved
    else if CriticalLosses(base, head.branches, ctx) != {} then Lost
    else if base.flow in ctx.approvedReplaced then ObsoleteRemoved
    else if !head.Protected() then Lost
    else if ExpectationChanged(base, head, ctx) && !ctx.replacementApproved then Degraded
    else if LostObligations(base, head, ctx) != {} then Degraded
    else if relocated then Relocated
    else if base.tests != head.tests then Replaced
    else if Difference(base.branches, head.branches) == {} then
      (if Difference(head.branches, base.branches) != {} then Improved else Preserved)
    else Degraded
  }

  function Compare(flow: string, base: Option<FlowProtection>, head: Option<FlowProtection>, relocated: bool,
                   ctx: DeltaContext): ProtectionDelta {
    var baseTests := if base.Some? then base.value.tests else [];
    var headTests := if head.Some? then head.value.tests else [];
    match (base, head)
    case (Some(b), None) =>
      if flow in ctx.approvedReplaced || flow in ctx.intentionallyRemoved
      then ProtectionDelta(flow, ObsoleteRemoved, baseTests, headTests, {}, {})
      else ProtectionDelta(flow, Lost, baseTests, headTests, CriticalLosses(b, [], ctx), set o | o in b.obligations)
    case (None, Some(h)) =>
      ProtectionDelta(flow, if h.Protected() then Improved else NewUnprotected, baseTests, headTests, {}, {})
    case (Some(b), Some(h)) =>
      ProtectionDelta(flow, PresentState(b, h, relocated, ctx), baseTests, headTests,
                      CriticalLosses(b, h.branches, ctx), LostObligations(b, h, ctx))
    case (None, None) =>
      ProtectionDelta(flow, Unknown, baseTests, headTests, {}, {})
  }

  /** A relocation target whose source the base has is not compared under its own name. */
  predicate Skipped(base: seq<FlowProtection>, ctx: DeltaContext, flow: string) {
    exists r :: r in ctx.relocations && r.1 == flow && FlowIn(base, r.0).Some?
  }

  function RelocatedTo(relocations: seq<(string, string)>, flow: string): Option<string> {
    if relocations == [] then None
    else if relocations[0].0 == flow then Some(relocations[0].1)
    else RelocatedTo(relocations[1..], flow)
  }

  function HeadName(ctx: DeltaContext, flow: string): string {
    var target := RelocatedTo(ctx.relocations, flow);
    if target.Some? then target.value else flow
  }

  function DeltaFor(base: seq<FlowProtection>, head: seq<FlowProtection>, ctx: DeltaContext,
                    flow: string): ProtectionDelta {
    Compare(flow, FlowIn(base, flow), FlowIn(head, HeadName(ctx, flow)), RelocatedTo(ctx.relocations, flow).Some?, ctx)
  }

  predicate Names(flows: seq<FlowProtection>, name: string) {
    exists f :: f in flows && f.flow == name
  }

  ghost predicate Reported(deltas: seq<ProtectionDelta>, name: string) {
    exists d :: d in deltas && d.flow == name
  }

  /** One delta for every flow of either revision, but for skipped relocation targets. */
  ghost predicate IsDeltaList(base: seq<FlowProtection>, head: seq<FlowProtection>, ctx: DeltaContext,
                              deltas: seq<ProtectionDelta>) {
    && (forall d :: d in deltas ==> d == DeltaFor(base, head, ctx, d.flow))
    && (forall name :: Reported(deltas, name) <==>
        (Names(base, name) || Names(head, name)) && !Skipped(base, ctx, name))
    && (forall i, j :: 0 <= i < j < |deltas| ==> Text.Before(deltas[i].flow, deltas[j].flow))
  }

  method FlowNames(base: seq<FlowProtection>, head: seq<FlowProtection>) returns (names: seq<string>)
    ensures Ascending(names, Text.Before)
    ensures forall name :: name in names <==> Names(base, name) || Names(head, name)
  {
    var flows := set f | f in base + head :: f.flow;
    names := Listing(flows);
    forall name ensures name in flows <==> Names(base, name) || Names(head, name) {
      assert forall f :: f in base + head <==> f in base || f in head;
    }
  }

  method DeltasOf(base: seq<FlowProtection>, head: seq<FlowProtection>, ctx: DeltaContext)
    returns (deltas: seq<ProtectionDelta>)
    ensures IsDeltaList(base, head, ctx, deltas)
  {
    hide Names, Skipped, Text.Before;
    var names := FlowNames(base, head);
    deltas := [];
    for i := 0 to |names|
      invariant forall d :: d in deltas ==> d == DeltaFor(base, head, ctx, d.flow)
      invariant forall name :: Reported(deltas, name) <==> name in names[..i] && !Skipped(base, ctx, name)
      invariant forall j, k :: 0 <= j < k < |deltas| ==> Text.Before(deltas[j].flow, deltas[k].flow)
    {
      assert names[..i + 1] == names[..i] + [names[i]];
      if !Skipped(base, ctx, names[i]) {
        var d := DeltaFor(base, head, ctx, names[i]);
        AppendDelta(names, i, deltas, d);
        deltas := deltas + [d];
      }
    }
    assert names[..|names|] == names;
  }

  lemma AppendDelta(names: seq<string>, i: nat, deltas: seq<ProtectionDelta>, d: ProtectionDelta)
    requires i < |names| && Ascending(names, Text.Before) && d.flow == names[i]
    requires forall j, k :: 0 <= j < k < |deltas| ==> Text.Before(deltas[j].flow, deltas[k].flow)
    requires forall x :: x in deltas ==> x.flow in names[..i]
    ensures var more := deltas + [d]; forall j, k :: 0 <= j < k < |more| ==> Text.Before(more[j].flow, more[k].flow)
    ensures var more := deltas + [d]; forall name :: Reported(more, name) <==> Reported(deltas, name) || name == d.flow
  {
    hide Text.Before;
    forall j | 0 <= j < |deltas| ensures Text.Before(deltas[j].flow, d.flow) {
      assert deltas[j] in deltas;
      var k :| 0 <= k < i && names[k] == deltas[j].flow;
    }
    assert forall x :: x in deltas + [d] <==> x in deltas || x == d;
    assert d in deltas + [d];
  }

  // ----- local losses -----

  /** The head lacks the branch: the flow went without approval, or it stayed and no longer runs it. */
  ghost predicate LosesBranch(base: FlowProtection, head: seq<FlowProtection>, ctx: DeltaContext, branch: string) {
    && branch in base.branches && branch in ctx.criticalBranches
    && match FlowIn(head, HeadName(ctx, base.flow))
       case None => base.flow !in ctx.approvedReplaced && base.flow !in ctx.intentionallyRemoved
       case Some(h) => branch !in h.branches
  }

  lemma {:induction false} FlowInHasName(flows: seq<FlowProtection>, name: string)
    ensures FlowIn(flows, name).Some? ==> FlowIn(flows, name).value.flow == name && FlowIn(flows, name).value in flows
    ensures FlowIn(flows, name).Some? <==> Names(flows, name)
  {
    if flows != [] {
      FlowInHasName(flows[1..], name);
      assert forall f :: f in flows <==> f == flows[0] || f in flows[1..];
    }
  }

  /**
   * A lost critical branch of a base flow is reported exactly when the flow is not skipped; protected
   * flows are Lost.
   */
  lemma LocalLossIsReportedExactlyWhen(base: seq<FlowProtection>, head: seq<FlowProtection>, ctx: DeltaContext,
                                       deltas: seq<ProtectionDelta>, name: string, branch: string)
    requires IsDeltaList(base, head, ctx, deltas) && FlowIn(base, name).Some?
    ensures (exists d :: d in deltas && d.flow == name && branch in d.lostCritical)
              <==> !Skipped(base, ctx, name) && LosesBranch(FlowIn(base, name).value, head, ctx, branch)
    ensures FlowIn(base, name).value.Protected() ==>
              forall d :: d in deltas && d.flow == name && d.lostCritical != {} ==> d.state.Lost?
  {
    hide Skipped, RelocatedTo, ExpectationChanged, LostObligations;
    FlowInHasName(base, name);
    var d := DeltaFor(base, head, ctx, name);
    assert branch in d.lostCritical <==> LosesBranch(FlowIn(base, name).value, head, ctx, branch);
    assert Reported(deltas, name) <==> !Skipped(base, ctx, name);
    hide DeltaFor, LosesBranch, FlowIn;
    assert forall x :: x in deltas && x.flow == name ==> x == d;
  }

  const OLD_PAY := FlowProtection("pay", ["t"], [], [], [])
  const OLD_CARD := FlowProtection("card", ["u"], [], ["refuse"], [])
  const NEW_CARD := FlowProtection("card", ["t"], [], [], [])

  /** When a base flow is also the target of a relocation, its lost critical branch is reported nowhere. */
  lemma RelocationTargetHidesItsLoss(deltas: seq<ProtectionDelta>)
    requires IsDeltaList([OLD_PAY, OLD_CARD], [NEW_CARD],
                         DeltaContext({"refuse"}, {}, [("pay", "card")], {}, {}, [], false), deltas)
    ensures LosesBranch(OLD_CARD, [NEW_CARD], DeltaContext({"refuse"}, {}, [("pay", "card")], {}, {}, [], false),
                        "refuse")
    ensures forall d :: d in deltas ==> d.flow == "pay" && d.lostCritical == {}
  {
    var base, head, ctx := [OLD_PAY, OLD_CARD], [NEW_CARD],
        DeltaContext({"refuse"}, {}, [("pay", "card")], {}, {}, [], false);
    assert FlowIn(base, "pay") == Some(OLD_PAY);
    assert ("pay", "card") in ctx.relocations;
    assert Skipped(base, ctx, "card");
    assert [("pay", "card")][1..] == [];
    forall d | d in deltas ensures d.flow == "pay" && d.lostCritical == {} {
      assert Reported(deltas, d.flow);
      assert Names(base, d.flow) || Names(head, d.flow);
    }
  }
}

/** The protection checks that turn deltas into findings, and the axis built from both. */
module ProtectionGate {
  import opened Options
  import opened Text
  import opened Sorting
  import opened Listings
  import opened ProtectionDeltas

  datatype Severity = Info | Warn | Error

  /** The number of the check is its identity. */
  datatype ProtectionFinding = ProtectionFinding(check: nat, severity: Severity, subject: string)

  datatype TestChange = TestChange(
    test: string, flow: string, survives: bool, lostFlows: seq<string>, lostObligations: seq<string>,
    replacedBy: Option<string>,
    assertionsWeakened: bool, changedWithImplementation: bool, newOracleSeal: bool, declaredSpecDelta: bool)

  datatype ProtectionTrend = ProtectionTrend(flow: string, protectors: seq<nat>)

  datatype ProtectionCheckInput = ProtectionCheckInput(
    deltas: seq<ProtectionDelta>, tests: seq<TestChange>, trends: seq<ProtectionTrend>, highRiskFlows: set<string>)

  function SeverityFor(highRisk: set<string>, flow: string): Severity {
    if flow in highRisk then Error else Warn
  }

  function When(fires: bool, f: ProtectionFinding): seq<ProtectionFinding> {
    if fires then [f] else []
  }

  function LostFindings(d: ProtectionDelta, severity: Severity): seq<ProtectionFinding> {
    [ProtectionFinding(1, severity, d.flow)]
    + When(d.lostCritical != {}, ProtectionFinding(6, Error, d.flow))
    + When(d.lostCritical != {} && |d.headTests| > |d.baseTests|, ProtectionFinding(10, Error, d.flow))
    + When(d.lostObligations != {}, ProtectionFinding(7, severity, d.flow))
  }

  function FlowFindings(d: ProtectionDelta, highRisk: set<string>): seq<ProtectionFinding> {
    var severity := SeverityFor(highRisk, d.flow);
    match d.state
    case Lost => LostFindings(d, severity)
    case Degraded => [ProtectionFinding(if d.lostObligations == {} then 6 else 7, severity, d.flow)]
    case NewUnprotected => [ProtectionFinding(9, severity, d.flow)]
    case Replaced => [ProtectionFinding(4, Info, d.flow)]
    case ObsoleteRemoved => [ProtectionFinding(8, Info, d.flow)]
    case _ => []
  }

  function TestFindings(t: TestChange, highRisk: set<string>): seq<ProtectionFinding> {
    var severity := SeverityFor(highRisk, t.flow);
    When(t.survives && t.lostFlows != [], ProtectionFinding(2, severity, t.test))
    + When(!t.survives && t.replacedBy.None? && t.lostObligations != [], ProtectionFinding(3, Error, t.test))
    + When(t.assertionsWeakened && !t.newOracleSeal, ProtectionFinding(5, Error, t.test))
    + When(t.changedWithImplementation && !t.newOracleSeal
           && !t.declaredSpecDelta, ProtectionFinding(11, severity, t.test))
  }

  /** Never up, and lower in the end: at least three revisions of it. */
  predicate Erodes(protectors: seq<nat>) {
    && |protectors| >= 3
    && (forall i :: 0 < i < |protectors| ==> protectors[i] <= protectors[i - 1])
    && protectors[|protectors| - 1] < protectors[0]
  }

  function TrendFindings(t: ProtectionTrend): seq<ProtectionFinding> {
    When(Erodes(t.protectors), ProtectionFinding(12, Warn, t.flow))
  }

  predicate FindingLess(a: ProtectionFinding, b: ProtectionFinding) {
    a.check < b.check || (a.check == b.check && Before(a.subject, b.subject))
  }

  lemma FindingLessIsStrict()
    ensures StrictOrder(FindingLess)
  {
    BeforeIsStrictOrder();
    hide Before;
    assert forall a, b, c :: FindingLess(a, b) && FindingLess(b, c) ==> FindingLess(a, c);
    forall a, b, c | FindingLess(a, c) && !FindingLess(a, b) ensures FindingLess(b, c) {
      assert a.check != b.check || a.subject == b.subject || Before(b.subject, a.subject);
    }
  }

  /** Where a finding comes from. */
  ghost predicate Raised(input: ProtectionCheckInput, f: ProtectionFinding) {
    || (exists d :: d in input.deltas && f in FlowFindings(d, input.highRiskFlows))
    || (exists t :: t in input.tests && f in TestFindings(t, input.highRiskFlows))
    || (exists t :: t in input.trends && f in TrendFindings(t))
  }

  ghost predicate IsGate(input: ProtectionCheckInput, findings: seq<ProtectionFinding>) {
    Sorted(findings, FindingLess) && forall f :: f in findings <==> Raised(input, f)
  }

  method GateProtection(input: ProtectionCheckInput) returns (out: seq<ProtectionFinding>)
    ensures IsGate(input, out)
  {
    hide FlowFindings, TestFindings, TrendFindings, FindingLess;
    out := [];
    for i := 0 to |input.deltas|
      invariant forall f :: f in out <==>
                  exists d :: d in input.deltas[..i] && f in FlowFindings(d, input.highRiskFlows)
    {
      assert input.deltas[..i + 1] == input.deltas[..i] + [input.deltas[i]];
      out := out + FlowFindings(input.deltas[i], input.highRiskFlows);
    }
    assert input.deltas[..|input.deltas|] == input.deltas;
    ghost var flows := out;
    out := AfterTests(input, out);
    ghost var tests := out;
    out := AfterTrends(input, out);
    ghost var raised := out;
    out := Sort(out, FindingLess);
    FindingLessIsStrict();
    SortSorts(raised, FindingLess);
    SameElements(out, raised);
  }

  method AfterTests(input: ProtectionCheckInput, before: seq<ProtectionFinding>) returns (out: seq<ProtectionFinding>)
    ensures forall f :: f in out <==>
              f in before || exists t :: t in input.tests && f in TestFindings(t, input.highRiskFlows)
  {
    hide TestFindings;
    out := before;
    for i := 0 to |input.tests|
      invariant forall f :: f in out <==>
                  f in before || exists t :: t in input.tests[..i] && f in TestFindings(t, input.highRiskFlows)
    {
      assert input.tests[..i + 1] == input.tests[..i] + [input.tests[i]];
      out := out + TestFindings(input.tests[i], input.highRiskFlows);
    }
    assert input.tests[..|input.tests|] == input.tests;
  }

  method AfterTrends(input: ProtectionCheckInput, before: seq<ProtectionFinding>) returns (out: seq<ProtectionFinding>)
    ensures forall f :: f in out <==> f in before || exists t :: t in input.trends && f in TrendFindings(t)
  {
    hide TrendFindings;
    out := before;
    for i := 0 to |input.trends|
      invariant forall f :: f in out <==> f in before || exists t :: t in input.trends[..i] && f in TrendFindings(t)
    {
      assert input.trends[..i + 1] == input.trends[..i] + [input.trends[i]];
      out := out + TrendFindings(input.trends[i]);
    }
    assert input.trends[..|input.trends|] == input.trends;
  }

  predicate Blocks(findings: seq<ProtectionFinding>) {
    exists f :: f in findings && f.severity == Error
  }

  /** A lost critical branch raises an error whatever tests, trends or risk policy say. */
  lemma LostBranchRaisesAnError(input: ProtectionCheckInput, findings: seq<ProtectionFinding>, d: ProtectionDelta)
    requires IsGate(input, findings) && d in input.deltas && d.state.Lost? && d.lostCritical != {}
    ensures ProtectionFinding(6, Error, d.flow) in findings && Blocks(findings)
    ensures |d.headTests| > |d.baseTests| ==> ProtectionFinding(10, Error, d.flow) in findings
  {
    hide FindingLess, TestFindings, TrendFindings;
    var f, g := ProtectionFinding(6, Error, d.flow), ProtectionFinding(10, Error, d.flow);
    assert f in FlowFindings(d, input.highRiskFlows);
    assert |d.headTests| > |d.baseTests| ==> g in FlowFindings(d, input.highRiskFlows);
    hide FlowFindings;
    assert Raised(input, f);
  }

  // ----- the protection axis -----

  datatype AxisState = NotApplicable | Clean | Warnings | Blocking | Unmeasured

  datatype ProtectionAxis = ProtectionAxis(
    state: AxisState, lostFlows: seq<string>, lostCritical: seq<string>, blocking: seq<ProtectionFinding>,
    warnings: seq<ProtectionFinding>)

  ghost predicate IsAxis(deltas: seq<ProtectionDelta>, findings: seq<ProtectionFinding>, axis: ProtectionAxis) {
    && (forall b :: b in axis.lostCritical <==> exists d :: d in deltas && b in d.lostCritical)
    && (forall n :: n in axis.lostFlows <==> exists d :: d in deltas && d.state.Lost? && d.flow == n)
    && (forall f :: f in axis.blocking <==> f in findings && f.severity == Error)
    && (forall f :: f in axis.warnings <==> f in findings && f.severity == Warn)
    && axis.state == if axis.blocking != [] || axis.lostCritical != [] then Blocking else if axis.warnings == []
        then Clean else Warnings
  }

  method AxisFrom(deltas: seq<ProtectionDelta>, findings: seq<ProtectionFinding>) returns (axis: ProtectionAxis)
    ensures IsAxis(deltas, findings, axis)
  {
    var lostFlows, lostCritical := LostOf(deltas);
    var flows := Listing(lostFlows);
    var branches := Listing(lostCritical);
    var blocking, warnings := Partitioned(findings);
    var state := if blocking != [] || branches != [] then Blocking else if warnings == [] then Clean else Warnings;
    axis := ProtectionAxis(state, flows, branches, blocking, warnings);
  }

  method LostOf(deltas: seq<ProtectionDelta>) returns (flows: set<string>, branches: set<string>)
    ensures forall b :: b in branches <==> exists d :: d in deltas && b in d.lostCritical
    ensures forall n :: n in flows <==> exists d :: d in deltas && d.state.Lost? && d.flow == n
  {
    flows, branches := {}, {};
    for i := 0 to |deltas|
      invariant forall b :: b in branches <==> exists d :: d in deltas[..i] && b in d.lostCritical
      invariant forall n :: n in flows <==> exists d :: d in deltas[..i] && d.state.Lost? && d.flow == n
    {
      assert deltas[..i + 1] == deltas[..i] + [deltas[i]];
      if deltas[i].state.Lost? {
        flows := flows + {deltas[i].flow};
      }
      branches := branches + deltas[i].lostCritical;
    }
    assert deltas[..|deltas|] == deltas;
  }

  method Partitioned(findings: seq<ProtectionFinding>)
    returns (blocking: seq<ProtectionFinding>, warnings: seq<ProtectionFinding>)
    ensures forall f :: f in blocking <==> f in findings && f.severity == Error
    ensures forall f :: f in warnings <==> f in findings && f.severity == Warn
  {
    blocking, warnings := [], [];
    for i := 0 to |findings|
      invariant forall f :: f in blocking <==> f in findings[..i] && f.severity == Error
      invariant forall f :: f in warnings <==> f in findings[..i] && f.severity == Warn
    {
      assert findings[..i + 1] == findings[..i] + [findings[i]];
      match findings[i].severity
      case Error => blocking := blocking + [findings[i]];
      case Warn => warnings := warnings + [findings[i]];
      case Info =>
    }
    assert findings[..|findings|] == findings;
  }
}
