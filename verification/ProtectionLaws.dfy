/** What deltas and findings say, in the fields of the snapshots and the records they come from. */
module ProtectionLaws {
  import opened Options
  import opened Text
  import opened Sorting
  import opened ProtectionDeltas
  import opened ProtectionGate

  // ----- looking up a flow -----

  /** The first entry of that name. */
  ghost predicate IsEntry(flows: seq<FlowProtection>, name: string, f: FlowProtection) {
    exists i :: 0 <= i < |flows| && flows[i] == f && f.flow == name && forall j :: 0 <= j < i ==> flows[j].flow != name
  }

  lemma {:induction false} FlowInIsEntry(flows: seq<FlowProtection>, name: string, f: FlowProtection)
    ensures FlowIn(flows, name) == Some(f) <==> IsEntry(flows, name, f)
    ensures FlowIn(flows, name).None? <==> forall x :: x in flows ==> x.flow != name
  {
    if flows != [] {
      var rest := flows[1..];
      FlowInIsEntry(rest, name, f);
      assert forall x :: x in flows <==> x == flows[0] || x in rest;
      if flows[0].flow != name {
        if IsEntry(rest, name, f) {
          var i :| 0 <= i < |rest| && rest[i] == f && f.flow == name && forall j :: 0 <= j < i ==> rest[j].flow != name;
          assert flows[i + 1] == f && forall j :: 0 <= j < i + 1 ==> j == 0 || flows[j] == rest[j - 1];
        }
        if IsEntry(flows, name, f) {
          var i :| 0 <= i < |flows| && flows[i] == f && f.flow == name && forall j :: 0 <= j < i ==>
              flows[j].flow != name;
          assert i > 0 && rest[i - 1] == f && forall j :: 0 <= j < i - 1 ==> rest[j] == flows[j + 1];
        }
      } else {
        assert flows[0] == f ==> IsEntry(flows, name, f);
      }
    }
  }

  /** The first relocation of the flow leads to the target. */
  ghost predicate MovesTo(relocations: seq<(string, string)>, flow: string, target: string) {
    exists i :: 0 <= i < |relocations| && relocations[i] == (flow, target)
             && forall j :: 0 <= j < i ==> relocations[j].0 != flow
  }

  lemma {:induction false} RelocatedIsFirst(relocations: seq<(string, string)>, flow: string, target: string)
    ensures RelocatedTo(relocations, flow) == Some(target) <==> MovesTo(relocations, flow, target)
    ensures RelocatedTo(relocations, flow).None? <==> forall r :: r in relocations ==> r.0 != flow
  {
    if relocations != [] {
      var rest := relocations[1..];
      RelocatedIsFirst(rest, flow, target);
      assert forall r :: r in relocations <==> r == relocations[0] || r in rest;
      if relocations[0].0 != flow {
        if MovesTo(rest, flow, target) {
          var i :| 0 <= i < |rest| && rest[i] == (flow, target) && forall j :: 0 <= j < i ==> rest[j].0 != flow;
          assert relocations[i + 1] == rest[i];
          assert forall j :: 0 <= j < i + 1 ==> j == 0 || relocations[j] == rest[j - 1];
        }
        if MovesTo(relocations, flow, target) {
          var i :| 0 <= i < |relocations| && relocations[i] == (flow, target)
                   && forall j :: 0 <= j < i ==> relocations[j].0 != flow;
          assert i > 0 && rest[i - 1] == relocations[i] && forall j :: 0 <= j < i - 1 ==> rest[j] == relocations[j + 1];
        }
      } else {
        assert relocations[0] == (flow, target) ==> MovesTo(relocations, flow, target);
      }
    }
  }

  // ----- one flow on both revisions -----

  predicate Runs(f: FlowProtection) {
    f.tests != [] || f.sessions != []
  }

  ghost predicate LosesCritical(b: FlowProtection, h: FlowProtection, ctx: DeltaContext) {
    exists x :: x in b.branches && x in ctx.criticalBranches && x !in h.branches
  }

  /** An expectation of either side changed, and the change was not approved. */
  ghost predicate Changed(b: FlowProtection, h: FlowProtection, ctx: DeltaContext) {
    !ctx.replacementApproved && exists o :: (o in b.obligations || o in h.obligations) && o in ctx.changedObligations
  }

  /** The obligation is no longer proved, and no approved replacement of it is. */
  ghost predicate LosesProof(b: FlowProtection, h: FlowProtection, ctx: DeltaContext, o: string) {
    && o in b.obligations && o !in h.obligations
    && !(ctx.replacementApproved && exists r :: r in ctx.replacements && r.0 == o && r.1 in h.obligations)
  }

  ghost predicate LosesBranches(b: FlowProtection, h: FlowProtection) {
    exists x :: x in b.branches && x !in h.branches
  }

  /** Protection that lost neither a critical branch, nor its tests, nor a proof. */
  ghost predicate Holds(b: FlowProtection, h: FlowProtection, ctx: DeltaContext) {
    && Runs(b) && Runs(h) && !LosesCritical(b, h, ctx) && b.flow !in ctx.approvedReplaced
    && !Changed(b, h, ctx) && !exists o :: LosesProof(b, h, ctx, o)
  }

  ghost predicate StateIs(state: DeltaState, b: FlowProtection, h: FlowProtection, moved: bool, ctx: DeltaContext) {
    match state
    case Unknown => !Runs(b) && !Runs(h)
    case Lost => Runs(b) && (LosesCritical(b, h, ctx) || (b.flow !in ctx.approvedReplaced && !Runs(h)))
    case ObsoleteRemoved => Runs(b) && !LosesCritical(b, h, ctx) && b.flow in ctx.approvedReplaced
    case Degraded =>
      && Runs(b) && Runs(h) && !LosesCritical(b, h, ctx) && b.flow !in ctx.approvedReplaced
      && (Changed(b, h, ctx) || (exists o :: LosesProof(b, h, ctx, o))
          || (!moved && b.tests == h.tests && LosesBranches(b, h)))
    case Relocated => Holds(b, h, ctx) && moved
    case Replaced => Holds(b, h, ctx) && !moved && b.tests != h.tests
    case Improved =>
      || (!Runs(b) && Runs(h))
      || (Holds(b, h, ctx) && !moved && b.tests == h.tests && !LosesBranches(b, h) && LosesBranches(h, b))
    case Preserved =>
      Holds(b, h, ctx) && !moved && b.tests == h.tests && !LosesBranches(b, h) && !LosesBranches(h, b)
    case NewUnprotected => false
  }

  lemma DifferenceIsLost(left: seq<string>, right: seq<string>)
    ensures Difference(left, right) != {} <==> exists x :: x in left && x !in right
  {
    if x :| x in left && x !in right {
      assert x in Difference(left, right);
    }
  }

  lemma LossesAre(b: FlowProtection, h: FlowProtection, ctx: DeltaContext)
    ensures forall x :: x in CriticalLosses(b, h.branches, ctx) <==>
                          x in b.branches && x in ctx.criticalBranches && x !in h.branches
    ensures CriticalLosses(b, h.branches, ctx) != {} <==> LosesCritical(b, h, ctx)
    ensures forall o :: o in LostObligations(b, h, ctx) <==> LosesProof(b, h, ctx, o)
    ensures LostObligations(b, h, ctx) != {} <==> exists o :: LosesProof(b, h, ctx, o)
    ensures ExpectationChanged(b, h, ctx) && !ctx.replacementApproved <==> Changed(b, h, ctx)
  {
    if LosesCritical(b, h, ctx) {
      var x :| x in b.branches && x in ctx.criticalBranches && x !in h.branches;
      assert x in CriticalLosses(b, h.branches, ctx);
    }
    forall o ensures o in LostObligations(b, h, ctx) <==> LosesProof(b, h, ctx, o) {
    }
    if o :| LosesProof(b, h, ctx, o) {
      assert o in LostObligations(b, h, ctx);
    }
  }

  /** Exactly one state fits the fields of the two sides, and it is the reported one. */
  lemma PresentStateExactlyWhen(b: FlowProtection, h: FlowProtection, moved: bool, ctx: DeltaContext, state: DeltaState)
    ensures PresentState(b, h, moved, ctx) == state <==> StateIs(state, b, h, moved, ctx)
  {
    LossesAre(b, h, ctx);
    DifferenceIsLost(b.branches, h.branches);
    DifferenceIsLost(h.branches, b.branches);
    hide CriticalLosses, LostObligations, ExpectationChanged, Difference, LosesCritical, Changed, LosesProof;
    assert b.Protected() == Runs(b) && h.Protected() == Runs(h);
  }

  // ----- every delta -----

  /** What a delta reports about a flow with these sides. */
  ghost predicate Tells(d: ProtectionDelta, base: Option<FlowProtection>, head: Option<FlowProtection>, moved: bool,
                        ctx: DeltaContext) {
    && d.baseTests == (if base.Some? then base.value.tests else [])
    && d.headTests == (if head.Some? then head.value.tests else [])
    && match (base, head)
       case (Some(b), Some(h)) =>
         && StateIs(d.state, b, h, moved, ctx)
         && (forall x :: x in d.lostCritical <==> x in b.branches && x in ctx.criticalBranches && x !in h.branches)
         && (forall o :: o in d.lostObligations <==> LosesProof(b, h, ctx, o))
       case (Some(b), None) =>
         if d.flow in ctx.approvedReplaced || d.flow in ctx.intentionallyRemoved
         then d.state.ObsoleteRemoved? && d.lostCritical == {} && d.lostObligations == {}
         else
           && d.state.Lost?
           && (forall x :: x in d.lostCritical <==> x in b.branches && x in ctx.criticalBranches)
           && (forall o :: o in d.lostObligations <==> o in b.obligations)
       case (None, Some(h)) =>
         (if Runs(h) then d.state.Improved? else d.state.NewUnprotected?) && d.lostCritical == {}
             && d.lostObligations == {}
       case (None, None) => d.state.Unknown? && d.lostCritical == {} && d.lostObligations == {}
  }

  lemma CompareTells(flow: string, base: Option<FlowProtection>, head: Option<FlowProtection>, moved: bool,
                     ctx: DeltaContext)
    ensures Compare(flow, base, head, moved, ctx).flow == flow
    ensures Tells(Compare(flow, base, head, moved, ctx), base, head, moved, ctx)
  {
    if base.Some? && head.Some? {
      LossesAre(base.value, head.value, ctx);
      PresentStateExactlyWhen(base.value, head.value, moved, ctx, PresentState(base.value, head.value, moved, ctx));
      hide CriticalLosses, LostObligations, PresentState, StateIs, LosesProof;
    }
    hide StateIs, LosesProof, PresentState;
  }

  /** The head entry a flow is compared with: that of its first relocation, or its own. */
  ghost predicate ComparedWith(head: seq<FlowProtection>, ctx: DeltaContext, flow: string, h: Option<FlowProtection>,
                               moved: bool) {
    && (moved <==> exists r :: r in ctx.relocations && r.0 == flow)
    && exists name :: (if moved then MovesTo(ctx.relocations, flow, name) else name == flow)
                      && match h
                         case Some(f) => IsEntry(head, name, f)
                         case None => forall x :: x in head ==> x.flow != name
  }

  /** A flow has a delta exactly when a side has it, and no flow of the base moves onto its name. */
  lemma ReportedExactlyWhen(base: seq<FlowProtection>, head: seq<FlowProtection>, ctx: DeltaContext,
                            deltas: seq<ProtectionDelta>, name: string)
    requires IsDeltaList(base, head, ctx, deltas)
    ensures (exists d :: d in deltas && d.flow == name) <==>
              && (exists f :: (f in base || f in head) && f.flow == name)
              && (forall b, r :: b in base && r in ctx.relocations && r.0 == b.flow ==> r.1 != name)
  {
    assert Skipped(base, ctx, name) <==> exists r :: r in ctx.relocations && r.1 == name && Names(base, r.0) by {
      forall r | r in ctx.relocations ensures FlowIn(base, r.0).Some? <==> Names(base, r.0) {
        FlowInHasName(base, r.0);
      }
    }
    assert Reported(deltas, name) <==> exists d :: d in deltas && d.flow == name;
    hide Skipped, Reported, FlowIn, Text.Before, DeltaFor;
  }

  /** Every delta tells what the first entries of its flow say. */
  lemma DeltasTell(base: seq<FlowProtection>, head: seq<FlowProtection>, ctx: DeltaContext,
                   deltas: seq<ProtectionDelta>, d: ProtectionDelta)
    returns (b: Option<FlowProtection>, h: Option<FlowProtection>, moved: bool)
    requires IsDeltaList(base, head, ctx, deltas) && d in deltas
    ensures match b
            case Some(f) => IsEntry(base, d.flow, f)
            case None => forall x :: x in base ==> x.flow != d.flow
    ensures ComparedWith(head, ctx, d.flow, h, moved)
    ensures Tells(d, b, h, moved, ctx)
  {
    var name := HeadName(ctx, d.flow);
    b, h, moved := FlowIn(base, d.flow), FlowIn(head, name), RelocatedTo(ctx.relocations, d.flow).Some?;
    FlowInIsEntry(base, d.flow, if b.Some? then b.value else NOBODY);
    FlowInIsEntry(head, name, if h.Some? then h.value else NOBODY);
    RelocatedIsFirst(ctx.relocations, d.flow, name);
    CompareTells(d.flow, b, h, moved, ctx);
    hide Compare, FlowIn, RelocatedTo, Tells, IsEntry, MovesTo;
    assert d == DeltaFor(base, head, ctx, d.flow);
  }

  const NOBODY := FlowProtection("", [], [], [], [])

  // ----- every finding -----

  predicate Weighs(severity: Severity, flow: string, highRisk: set<string>) {
    severity == if flow in highRisk then Error else Warn
  }

  /** The deltas that raise a check. */
  ghost predicate RaisedByFlow(f: ProtectionFinding, d: ProtectionDelta, highRisk: set<string>) {
    f.subject == d.flow &&
    match f.check
    case 1 => d.state.Lost? && Weighs(f.severity, d.flow, highRisk)
    case 4 => d.state.Replaced? && f.severity.Info?
    case 6 =>
      || (d.state.Lost? && d.lostCritical != {} && f.severity.Error?)
      || (d.state.Degraded? && d.lostObligations == {} && Weighs(f.severity, d.flow, highRisk))
    case 7 => (d.state.Lost? || d.state.Degraded?) && d.lostObligations != {} && Weighs(f.severity, d.flow, highRisk)
    case 8 => d.state.ObsoleteRemoved? && f.severity.Info?
    case 9 => d.state.NewUnprotected? && Weighs(f.severity, d.flow, highRisk)
    case 10 => d.state.Lost? && d.lostCritical != {} && |d.headTests| > |d.baseTests| && f.severity.Error?
    case _ => false
  }

  ghost predicate RaisedByTest(f: ProtectionFinding, t: TestChange, highRisk: set<string>) {
    f.subject == t.test &&
    match f.check
    case 2 => t.survives && t.lostFlows != [] && Weighs(f.severity, t.flow, highRisk)
    case 3 => !t.survives && t.replacedBy.None? && t.lostObligations != [] && f.severity.Error?
    case 5 => t.assertionsWeakened && !t.newOracleSeal && f.severity.Error?
    case 11 =>
      && t.changedWithImplementation && !t.newOracleSeal && !t.declaredSpecDelta
      && Weighs(f.severity, t.flow, highRisk)
    case _ => false
  }

  ghost predicate RaisedByTrend(f: ProtectionFinding, t: ProtectionTrend) {
    && f == ProtectionFinding(12, Warn, t.flow) && |t.protectors| >= 3
    && (forall i, j :: 0 <= i < j < |t.protectors| ==> t.protectors[j] <= t.protectors[i])
    && t.protectors[|t.protectors| - 1] != t.protectors[0]
  }

  lemma FlowFindingsAre(f: ProtectionFinding, d: ProtectionDelta, highRisk: set<string>)
    ensures f in FlowFindings(d, highRisk) <==> RaisedByFlow(f, d, highRisk)
  {
  }

  lemma TestFindingsAre(f: ProtectionFinding, t: TestChange, highRisk: set<string>)
    ensures f in TestFindings(t, highRisk) <==> RaisedByTest(f, t, highRisk)
  {
  }

  lemma {:induction false} NeverRises(protectors: seq<nat>, i: nat, j: nat)
    requires forall k :: 0 < k < |protectors| ==> protectors[k] <= protectors[k - 1]
    requires i <= j < |protectors|
    ensures protectors[j] <= protectors[i]
    decreases j
  {
    if i < j {
      NeverRises(protectors, i, j - 1);
    }
  }

  lemma TrendFindingsAre(f: ProtectionFinding, t: ProtectionTrend)
    ensures f in TrendFindings(t) <==> RaisedByTrend(f, t)
  {
    if forall k :: 0 < k < |t.protectors| ==> t.protectors[k] <= t.protectors[k - 1] {
      forall i, j | 0 <= i < j < |t.protectors| ensures t.protectors[j] <= t.protectors[i] {
        NeverRises(t.protectors, i, j);
      }
    }
  }

  /** The gate raises exactly the findings that the fields of a delta, a changed test or a trend call for. */
  lemma FindingsAre(input: ProtectionCheckInput, findings: seq<ProtectionFinding>, f: ProtectionFinding)
    requires IsGate(input, findings)
    ensures f in findings <==>
              || (exists d :: d in input.deltas && RaisedByFlow(f, d, input.highRiskFlows))
              || (exists t :: t in input.tests && RaisedByTest(f, t, input.highRiskFlows))
              || (exists t :: t in input.trends && RaisedByTrend(f, t))
  {
    forall d ensures f in FlowFindings(d, input.highRiskFlows) <==> RaisedByFlow(f, d, input.highRiskFlows) {
      FlowFindingsAre(f, d, input.highRiskFlows);
    }
    forall t ensures f in TestFindings(t, input.highRiskFlows) <==> RaisedByTest(f, t, input.highRiskFlows) {
      TestFindingsAre(f, t, input.highRiskFlows);
    }
    forall t ensures f in TrendFindings(t) <==> RaisedByTrend(f, t) {
      TrendFindingsAre(f, t);
    }
    hide FlowFindings, TestFindings, TrendFindings, RaisedByFlow, RaisedByTest, RaisedByTrend, FindingLess;
  }

  /** Findings stand by check, then by subject. */
  lemma FindingsAreOrdered(input: ProtectionCheckInput, findings: seq<ProtectionFinding>, i: nat, j: nat)
    requires IsGate(input, findings) && i < j < |findings|
    ensures findings[i].check <= findings[j].check
    ensures findings[i].check == findings[j].check ==> !Text.Before(findings[j].subject, findings[i].subject)
  {
    hide Raised, Text.Before;
  }
}
