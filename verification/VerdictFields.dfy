/** Every reason of a verdict, told by the fields of the inputs that call for it. */
module VerdictFields {
  import opened Options
  import opened Text
  import opened Sorting
  import opened ProtectionDeltas
  import opened ProtectionGate
  import opened ChangeVerdicts

  // ----- what calls for a reason -----

  ghost predicate Judged(inputs: VerdictInputs, subject: string, verdicts: set<ProofVerdict>, mandatory: bool) {
    exists o :: o in inputs.proofs && o.obligation == subject && o.verdict in verdicts && (mandatory ==> o.mandatory)
  }

  ghost predicate Owes(items: seq<DebtItem>, subject: string, blocking: bool) {
    exists d :: d in items && d.id == subject && d.blocking == blocking
  }

  ghost predicate Finds(findings: seq<FindingRef>, subject: string, errors: bool) {
    exists f :: f in findings && f.subject == subject && (errors <==> f.severity == Error)
  }

  ghost predicate Protects(findings: seq<ProtectionFinding>, subject: string, withSix: bool) {
    exists f :: f in findings && f.subject == subject && (f.check == 6 ==> withSix)
  }

  /** An axis with the name it is listed under. */
  predicate IsNamed(axis: Axis, name: string) {
    match axis
    case ProofOf => name == "proof"
    case ProtectionOf => name == "protection"
    case DebtOf => name == "debt"
    case StabilityOf => name == "stability"
    case UiOf => name == "ui_integrity"
    case TriangleOf => name == "delta_triangle"
    case AiOf => false
  }

  /** The axis is in scope and was not measured; for proof, some is missing and none is contradicted. */
  ghost predicate IsGap(inputs: VerdictInputs, axis: Axis) {
    match axis
    case ProofOf =>
      && (exists o :: o in inputs.proofs && (o.verdict.Unproven? || o.verdict.Partial?))
      && (forall o :: o in inputs.proofs ==> !o.verdict.Contradicted?)
    case ProtectionOf => inputs.protection.state.Unmeasured?
    case DebtOf => inputs.debt.state.Unmeasured?
    case StabilityOf => inputs.stability.state.Unmeasured?
    case UiOf => inputs.ui.state.Unmeasured?
    case TriangleOf => inputs.triangle.state.Unmeasured?
    case AiOf => false
  }

  ghost predicate BlocksFor(inputs: VerdictInputs, r: Reason) {
    match (r.rank, r.code, r.axis)
    case (1, 1, ProofOf) => Judged(inputs, r.subject, {Contradicted}, false)
    case (2, 2, ProtectionOf) =>
      r.subject in inputs.protection.lostCritical || Protects(inputs.protection.blocking, r.subject, false)
    case (3, 3, DebtOf) => Owes(inputs.debt.added, r.subject, true)
    case (3, 3, UiOf) => Finds(inputs.ui.added, r.subject, true)
    case (3, 11, TriangleOf) => Finds(inputs.triangle.findings, r.subject, true)
    case (4, 4, ProofOf) => Judged(inputs, r.subject, {Unproven, Partial}, true)
    case (5, 5, DebtOf) => Owes(inputs.debt.returned, r.subject, true)
    case (5, 5, UiOf) => Finds(inputs.ui.returned, r.subject, true)
    case _ => false
  }

  ghost predicate AsksFor(inputs: VerdictInputs, r: Reason) {
    match (r.rank, r.code, r.axis)
    case (6, 6, StabilityOf) => r.subject in inputs.stability.unresolvedMandatoryFlakes
    case (6, 10, ProofOf) => Judged(inputs, r.subject, {HumanRequired}, false)
    case (7, 7, axis) => IsGap(inputs, axis) && IsNamed(axis, r.subject)
    case (8, 8, AiOf) => inputs.ai.budgetExhausted && r.subject in inputs.ai.unresolvedDecisions
    case _ => false
  }

  ghost predicate WarnsOf(inputs: VerdictInputs, r: Reason) {
    match (r.rank, r.code, r.axis)
    case (9, 9, ProtectionOf) => Protects(inputs.protection.warnings, r.subject, true)
    case (9, 9, DebtOf) => Owes(inputs.debt.added, r.subject, false) || Owes(inputs.debt.returned, r.subject, false)
    case (9, 9, UiOf) => Finds(inputs.ui.added, r.subject, false) || Finds(inputs.ui.returned, r.subject, false)
    case (9, 9, TriangleOf) => Finds(inputs.triangle.findings, r.subject, false)
    case (9, 9, StabilityOf) => inputs.stability.flaky > 0 && r.subject == "test-history"
    case _ => false
  }

  // ----- the lists -----

  lemma {:induction false} ItemIdsAre(items: seq<DebtItem>, blocking: bool, x: string)
    ensures x in ItemIds(items, blocking) <==> Owes(items, x, blocking)
  {
    if items != [] {
      var n := |items| - 1;
      ItemIdsAre(items[..n], blocking, x);
      assert items == items[..n] + [items[n]];
    }
  }

  lemma {:induction false} SubjectsAre(findings: seq<FindingRef>, errors: bool, x: string)
    ensures x in Subjects(findings, errors) <==> Finds(findings, x, errors)
  {
    if findings != [] {
      var n := |findings| - 1;
      SubjectsAre(findings[..n], errors, x);
      assert findings == findings[..n] + [findings[n]];
    }
  }

  lemma {:induction false} ProtectionSubjectsAre(findings: seq<ProtectionFinding>, withSix: bool, x: string)
    ensures x in ProtectionSubjects(findings, withSix) <==> Protects(findings, x, withSix)
  {
    if findings != [] {
      var n := |findings| - 1;
      ProtectionSubjectsAre(findings[..n], withSix, x);
      assert findings == findings[..n] + [findings[n]];
    }
  }

  lemma FindsInBoth(a: seq<FindingRef>, b: seq<FindingRef>, x: string, errors: bool)
    ensures Finds(a + b, x, errors) <==> Finds(a, x, errors) || Finds(b, x, errors)
  {
    assert forall f :: f in a + b <==> f in a || f in b;
  }

  lemma ReasonsOfAre(rank: nat, code: nat, axis: Axis, subjects: seq<string>, r: Reason)
    ensures r in ReasonsOf(rank, code, axis, subjects) <==>
              r.rank == rank && r.code == code && r.axis == axis && r.subject in subjects
  {
    if r.rank == rank && r.code == code && r.axis == axis && r.subject in subjects {
      var i :| 0 <= i < |subjects| && subjects[i] == r.subject;
      assert ReasonsOf(rank, code, axis, subjects)[i] == r;
    }
  }

  lemma {:induction false} UnmeasuredsAre(axes: seq<(Axis, AxisState)>, r: Reason)
    ensures r in Unmeasureds(axes) <==>
              r.rank == 7 && r.code == 7 && r.subject == AxisName(r.axis)
              && exists a :: a in axes && a.0 == r.axis && a.1.Unmeasured?
  {
    if axes != [] {
      var n := |axes| - 1;
      UnmeasuredsAre(axes[..n], r);
      assert axes == axes[..n] + [axes[n]];
    }
  }

  lemma GapsAre(proof: ProofAxis, inputs: VerdictInputs, axis: Axis)
    requires IsProofAxis(proof, inputs.proofs)
    ensures (exists a :: a in Required(proof.state, inputs) && a.0 == axis && a.1.Unmeasured?) <==> IsGap(inputs, axis)
  {
    ProofGap(inputs.proofs);
    hide ListsObligations, CountVerdict, ProofState;
    var axes := Required(proof.state, inputs);
    assert axes[0] in axes && axes[1] in axes && axes[2] in axes && axes[3] in axes && axes[4] in axes
        && axes[5] in axes;
  }

  lemma ProofGap(outcomes: seq<ProofOutcome>)
    ensures ProofState(outcomes).Unmeasured? <==>
              && (exists o :: o in outcomes && (o.verdict.Unproven? || o.verdict.Partial?))
              && (forall o :: o in outcomes ==> !o.verdict.Contradicted?)
  {
  }

  lemma JudgedAre(proof: ProofAxis, inputs: VerdictInputs, x: string)
    requires IsProofAxis(proof, inputs.proofs)
    ensures x in proof.contradictedObligations <==> Judged(inputs, x, {Contradicted}, false)
    ensures x in proof.unprovenMandatory <==> Judged(inputs, x, {Unproven, Partial}, true)
    ensures x in proof.ambiguousObligations <==> Judged(inputs, x, {HumanRequired}, false)
  {
    hide CountVerdict, ProofState;
  }

  // ----- the reasons -----

  lemma BlockingReasonsAre(proof: ProofAxis, inputs: VerdictInputs, r: Reason)
    requires IsProofAxis(proof, inputs.proofs)
    ensures r in BlockingReasons(proof, inputs) <==> BlocksFor(inputs, r)
  {
    JudgedAre(proof, inputs, r.subject);
    ProtectionSubjectsAre(inputs.protection.blocking, false, r.subject);
    ItemIdsAre(inputs.debt.added, true, r.subject);
    ItemIdsAre(inputs.debt.returned, true, r.subject);
    SubjectsAre(inputs.ui.added, true, r.subject);
    SubjectsAre(inputs.ui.returned, true, r.subject);
    SubjectsAre(inputs.triangle.findings, true, r.subject);
    ReasonsOfAre(1, 1, ProofOf, proof.contradictedObligations, r);
    ReasonsOfAre(2, 2, ProtectionOf, inputs.protection.lostCritical
                 + ProtectionSubjects(inputs.protection.blocking, false), r);
    ReasonsOfAre(3, 3, DebtOf, ItemIds(inputs.debt.added, true), r);
    ReasonsOfAre(3, 3, UiOf, Subjects(inputs.ui.added, true), r);
    ReasonsOfAre(3, 11, TriangleOf, Subjects(inputs.triangle.findings, true), r);
    ReasonsOfAre(4, 4, ProofOf, proof.unprovenMandatory, r);
    ReasonsOfAre(5, 5, DebtOf, ItemIds(inputs.debt.returned, true), r);
    ReasonsOfAre(5, 5, UiOf, Subjects(inputs.ui.returned, true), r);
    hide ItemIds, Subjects, ProtectionSubjects, ReasonsOf, IsProofAxis, Judged, Owes, Finds, Protects;
  }

  lemma HumanReasonsAre(proof: ProofAxis, inputs: VerdictInputs, r: Reason)
    requires IsProofAxis(proof, inputs.proofs)
    ensures var decisions := if inputs.ai.budgetExhausted then inputs.ai.unresolvedDecisions else [];
            var all := ReasonsOf(6, 6, StabilityOf, inputs.stability.unresolvedMandatoryFlakes)
                       + ReasonsOf(6, 10, ProofOf, proof.ambiguousObligations)
                       + Unmeasureds(Required(proof.state, inputs)) + ReasonsOf(8, 8, AiOf, decisions);
            r in all <==> AsksFor(inputs, r)
  {
    JudgedAre(proof, inputs, r.subject);
    UnmeasuredsAre(Required(proof.state, inputs), r);
    GapsAre(proof, inputs, r.axis);
    assert !r.axis.AiOf? ==> (IsNamed(r.axis, r.subject) <==> r.subject == AxisName(r.axis));
    assert r.axis.AiOf? ==> !IsGap(inputs, r.axis);
    hide ReasonsOf, IsProofAxis, Judged, Unmeasureds, Required, IsGap, IsNamed, AxisName;
    forall rank, code, axis, subjects ensures r in ReasonsOf(rank, code, axis, subjects) <==>
        r.rank == rank && r.code == code && r.axis == axis && r.subject in subjects {
      ReasonsOfAre(rank, code, axis, subjects, r);
    }
  }

  lemma WarningReasonsAre(inputs: VerdictInputs, r: Reason)
    ensures var debts := ItemIds(inputs.debt.added, false) + ItemIds(inputs.debt.returned, false);
            var all := ReasonsOf(9, 9, ProtectionOf, ProtectionSubjects(inputs.protection.warnings, true))
                       + ReasonsOf(9, 9, DebtOf, debts)
                       + ReasonsOf(9, 9, UiOf, Subjects(inputs.ui.added + inputs.ui.returned, false))
                       + ReasonsOf(9, 9, TriangleOf, Subjects(inputs.triangle.findings, false))
                       + ReasonsOf(9, 9, StabilityOf, if inputs.stability.flaky > 0 then ["test-history"] else []);
            r in all <==> WarnsOf(inputs, r)
  {
    ProtectionSubjectsAre(inputs.protection.warnings, true, r.subject);
    ItemIdsAre(inputs.debt.added, false, r.subject);
    ItemIdsAre(inputs.debt.returned, false, r.subject);
    SubjectsAre(inputs.ui.added + inputs.ui.returned, false, r.subject);
    FindsInBoth(inputs.ui.added, inputs.ui.returned, r.subject, false);
    SubjectsAre(inputs.triangle.findings, false, r.subject);
    hide ItemIds, Subjects, ProtectionSubjects, ReasonsOf, Owes, Finds, Protects;
    forall rank, code, axis, subjects ensures r in ReasonsOf(rank, code, axis, subjects) <==>
        r.rank == rank && r.code == code && r.axis == axis && r.subject in subjects {
      ReasonsOfAre(rank, code, axis, subjects, r);
    }
  }

  /** A verdict gives a reason exactly when its inputs call for it. */
  lemma ReasonsAre(proof: ProofAxis, inputs: VerdictInputs, r: Reason)
    requires IsProofAxis(proof, inputs.proofs)
    ensures r in SortedReasons(proof, inputs) <==> BlocksFor(inputs, r) || AsksFor(inputs, r) || WarnsOf(inputs, r)
  {
    BlockingReasonsAre(proof, inputs, r);
    HumanReasonsAre(proof, inputs, r);
    WarningReasonsAre(inputs, r);
    var all := BlockingReasons(proof, inputs) + OtherReasons(proof, inputs);
    SameElements(Sort(all, ReasonLess), all);
    hide ItemIds, Subjects, ProtectionSubjects, ReasonsOf, Unmeasureds, Required, BlocksFor, AsksFor, WarnsOf,
         BlockingReasons, IsProofAxis, ReasonLess;
  }

  /** Reasons stand by rank, then by code, then by subject. */
  lemma ReasonsAreOrdered(proof: ProofAxis, inputs: VerdictInputs, i: nat, j: nat)
    requires IsProofAxis(proof, inputs.proofs) && i < j < |SortedReasons(proof, inputs)|
    ensures var a, b := SortedReasons(proof, inputs)[i], SortedReasons(proof, inputs)[j];
            && a.rank <= b.rank && (a.rank == b.rank ==> a.code <= b.code)
            && (a.rank == b.rank && a.code == b.code ==> !Before(b.subject, a.subject))
  {
    SortedRanks(proof, inputs);
    hide SortedReasons, IsProofAxis, Before;
  }

  /** The limitations gain exactly the names of the axes that were not measured. */
  lemma LimitationsAre(proof: ProofAxis, inputs: VerdictInputs, name: string)
    requires IsProofAxis(proof, inputs.proofs)
    ensures name in Gaps(Required(proof.state, inputs)) <==> exists axis :: IsGap(inputs, axis) && IsNamed(axis, name)
  {
    forall axis ensures (exists a :: a in Required(proof.state, inputs) && a.0 == axis && a.1.Unmeasured?)
                        <==> IsGap(inputs, axis) {
      GapsAre(proof, inputs, axis);
    }
    assert forall axis: Axis :: !axis.AiOf? ==> (IsNamed(axis, name) <==> name == AxisName(axis));
    assert !IsGap(inputs, AiOf);
    hide Required, IsGap, IsNamed, AxisName, IsProofAxis;
  }
}
