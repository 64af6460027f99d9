/** The change-level verdict, composed from every measured axis by a fixed priority order. */
module ChangeVerdicts {
  import opened Options
  import opened Text
  import opened Sorting
  import opened ProtectionDeltas
  import opened ProtectionGate

  datatype ProofVerdict = Proven | Partial | Unproven | Contradicted | HumanRequired

  datatype ProofOutcome = ProofOutcome(obligation: string, verdict: ProofVerdict, mandatory: bool)

  datatype ProofAxis = ProofAxis(
    state: AxisState, proven: nat, partial: nat, unproven: nat, contradicted: nat, humanRequired: nat,
    contradictedObligations: seq<string>, unprovenMandatory: seq<string>, ambiguousObligations: seq<string>)

  datatype DebtItem = DebtItem(id: string, blocking: bool)

  datatype DebtAxis = DebtAxis(state: AxisState, added: seq<DebtItem>, returned: seq<DebtItem>)

  datatype StabilityAxis = StabilityAxis(state: AxisState, flaky: nat, unresolvedMandatoryFlakes: seq<string>)

  datatype AiAxis = AiAxis(budgetExhausted: bool, unresolvedDecisions: seq<string>)

  /** A finding of the UI or delta-triangle axis. */
  datatype FindingRef = FindingRef(subject: string, severity: Severity)

  datatype UiIntegrityAxis = UiIntegrityAxis(state: AxisState, added: seq<FindingRef>, returned: seq<FindingRef>)

  datatype DeltaTriangleAxis = DeltaTriangleAxis(state: AxisState, findings: seq<FindingRef>)

  datatype VerdictInputs = VerdictInputs(
    proofs: seq<ProofOutcome>, protection: ProtectionAxis, debt: DebtAxis, stability: StabilityAxis, ai: AiAxis,
    ui: UiIntegrityAxis, triangle: DeltaTriangleAxis, limitations: set<string>)

  datatype VerdictState = Blocked | NeedsHuman | NotEnoughEvidence | PassWithWarnings | Pass

  datatype Axis = ProofOf | ProtectionOf | DebtOf | StabilityOf | UiOf | TriangleOf | AiOf

  datatype Reason = Reason(rank: nat, code: nat, axis: Axis, subject: string)

  datatype ChangeVerdict = ChangeVerdict(state: VerdictState, proof: ProofAxis, reasons: seq<Reason>,
                                         limitations: set<string>)

  // ----- the proof axis -----

  function CountVerdict(outcomes: seq<ProofOutcome>, v: ProofVerdict): nat {
    if outcomes == [] then 0
    else CountVerdict(outcomes[..|outcomes| - 1], v) + if outcomes[|outcomes| - 1].verdict == v then 1 else 0
  }

  predicate IsContradicted(o: ProofOutcome) {
    o.verdict.Contradicted?
  }

  predicate IsAmbiguous(o: ProofOutcome) {
    o.verdict.HumanRequired?
  }

  predicate LacksProof(o: ProofOutcome) {
    o.mandatory && (o.verdict.Unproven? || o.verdict.Partial?)
  }

  /** The ids of the outcomes that pass a test, as listed in the axis. */
  ghost predicate ListsObligations(ids: seq<string>, outcomes: seq<ProofOutcome>, test: ProofOutcome -> bool) {
    forall id :: id in ids <==> exists o :: o in outcomes && test(o) && o.obligation == id
  }

  function ProofState(outcomes: seq<ProofOutcome>): AxisState {
    if outcomes == [] then NotApplicable
    else if exists o :: o in outcomes && o.verdict.Contradicted? then Blocking
    else if exists o :: o in outcomes && (o.verdict.Unproven? || o.verdict.Partial?) then Unmeasured
    else if exists o :: o in outcomes && o.verdict.HumanRequired? then Warnings
    else Clean
  }

  ghost predicate IsProofAxis(axis: ProofAxis, outcomes: seq<ProofOutcome>) {
    && axis.state == ProofState(outcomes)
    && axis.proven == CountVerdict(outcomes, Proven) && axis.partial == CountVerdict(outcomes, Partial)
    && axis.unproven == CountVerdict(outcomes, Unproven) && axis.contradicted == CountVerdict(outcomes, Contradicted)
    && axis.humanRequired == CountVerdict(outcomes, HumanRequired)
    && ListsObligations(axis.contradictedObligations, outcomes, IsContradicted)
    && ListsObligations(axis.unprovenMandatory, outcomes, LacksProof)
    && ListsObligations(axis.ambiguousObligations, outcomes, IsAmbiguous)
  }

  lemma {:induction false} CountIsPresence(outcomes: seq<ProofOutcome>, v: ProofVerdict)
    ensures CountVerdict(outcomes, v) > 0 <==> exists o :: o in outcomes && o.verdict == v
  {
    if outcomes != [] {
      var n := |outcomes| - 1;
      assert outcomes == outcomes[..n] + [outcomes[n]];
      CountIsPresence(outcomes[..n], v);
    }
  }

  function Ids(outcomes: seq<ProofOutcome>, test: ProofOutcome -> bool): seq<string> {
    if outcomes == [] then []
    else
      var last := outcomes[|outcomes| - 1];
      Ids(outcomes[..|outcomes| - 1], test) + if test(last) then [last.obligation] else []
  }

  lemma {:induction false} IdsList(outcomes: seq<ProofOutcome>, test: ProofOutcome -> bool)
    ensures ListsObligations(Ids(outcomes, test), outcomes, test)
  {
    if outcomes != [] {
      var n := |outcomes| - 1;
      assert outcomes == outcomes[..n] + [outcomes[n]];
      IdsList(outcomes[..n], test);
      assert forall o :: o in outcomes <==> o in outcomes[..n] || o == outcomes[n];
    }
  }

  lemma SortedListsToo(ids: seq<string>, outcomes: seq<ProofOutcome>, test: ProofOutcome -> bool)
    requires ListsObligations(ids, outcomes, test)
    ensures ListsObligations(Sort(ids, Text.Before), outcomes, test)
  {
    SameElements(Sort(ids, Text.Before), ids);
  }

  /** Counters and lists of a loop over the outcomes. */
  method Tally(outcomes: seq<ProofOutcome>) returns (axis: ProofAxis)
    ensures axis.proven == CountVerdict(outcomes, Proven) && axis.partial == CountVerdict(outcomes, Partial)
    ensures axis.unproven == CountVerdict(outcomes, Unproven)
    ensures axis.contradicted == CountVerdict(outcomes, Contradicted)
    ensures axis.humanRequired == CountVerdict(outcomes, HumanRequired)
    ensures axis.contradictedObligations == Ids(outcomes, IsContradicted)
    ensures axis.unprovenMandatory == Ids(outcomes, LacksProof)
    ensures axis.ambiguousObligations == Ids(outcomes, IsAmbiguous)
  {
    var proven, partial, unproven, contradicted, human := 0, 0, 0, 0, 0;
    var against: seq<string>, lacking: seq<string>, ambiguous: seq<string> := [], [], [];
    for i := 0 to |outcomes|
      invariant proven == CountVerdict(outcomes[..i], Proven) && partial == CountVerdict(outcomes[..i], Partial)
      invariant unproven == CountVerdict(outcomes[..i], Unproven)
      invariant contradicted == CountVerdict(outcomes[..i], Contradicted)
      invariant human == CountVerdict(outcomes[..i], HumanRequired)
      invariant against == Ids(outcomes[..i], IsContradicted)
      invariant lacking == Ids(outcomes[..i], LacksProof)
      invariant ambiguous == Ids(outcomes[..i], IsAmbiguous)
    {
      var o := outcomes[i];
      assert outcomes[..i + 1][..i] == outcomes[..i];
      match o.verdict {
        case Proven => proven := proven + 1;
        case Partial => partial := partial + 1;
        case Unproven => unproven := unproven + 1;
        case Contradicted => contradicted, against := contradicted + 1, against + [o.obligation];
        case HumanRequired => human, ambiguous := human + 1, ambiguous + [o.obligation];
      }
      if LacksProof(o) {
        lacking := lacking + [o.obligation];
      }
    }
    assert outcomes[..|outcomes|] == outcomes;
    axis := ProofAxis(NotApplicable, proven, partial, unproven, contradicted, human, against, lacking, ambiguous);
  }

  method ProofAxisOf(outcomes: seq<ProofOutcome>) returns (axis: ProofAxis)
    ensures IsProofAxis(axis, outcomes)
  {
    axis := Tally(outcomes);
    hide CountVerdict, Ids, ListsObligations;
    IdsList(outcomes, IsContradicted);
    IdsList(outcomes, LacksProof);
    IdsList(outcomes, IsAmbiguous);
    SortedListsToo(axis.contradictedObligations, outcomes, IsContradicted);
    SortedListsToo(axis.unprovenMandatory, outcomes, LacksProof);
    SortedListsToo(axis.ambiguousObligations, outcomes, IsAmbiguous);
    var state :=
      if outcomes == [] then NotApplicable
      else if axis.contradicted > 0 then Blocking
      else if axis.unproven > 0 || axis.partial > 0 then Unmeasured
      else if axis.humanRequired > 0 then Warnings
      else Clean;
    StateByPresence(outcomes);
    axis := axis.(state := state,
                  contradictedObligations := Sort(axis.contradictedObligations, Text.Before),
                  unprovenMandatory := Sort(axis.unprovenMandatory, Text.Before),
                  ambiguousObligations := Sort(axis.ambiguousObligations, Text.Before));
  }

  lemma StateByPresence(outcomes: seq<ProofOutcome>)
    ensures ProofState(outcomes) ==
            if outcomes == [] then NotApplicable
            else if CountVerdict(outcomes, Contradicted) > 0 then Blocking
            else if CountVerdict(outcomes, Unproven) > 0 || CountVerdict(outcomes, Partial) > 0 then Unmeasured
            else if CountVerdict(outcomes, HumanRequired) > 0 then Warnings
            else Clean
  {
    hide CountVerdict;
    CountIsPresence(outcomes, Contradicted);
    CountIsPresence(outcomes, Unproven);
    CountIsPresence(outcomes, Partial);
    CountIsPresence(outcomes, HumanRequired);
  }

  // ----- the reasons -----

  function ItemIds(items: seq<DebtItem>, blocking: bool): seq<string> {
    if items == [] then []
    else
      var last := items[|items| - 1];
      ItemIds(items[..|items| - 1], blocking) + if last.blocking == blocking then [last.id] else []
  }

  function Subjects(findings: seq<FindingRef>, errors: bool): seq<string> {
    if findings == [] then []
    else
      var last := findings[|findings| - 1];
      Subjects(findings[..|findings| - 1], errors) + if last.severity.Error? == errors then [last.subject] else []
  }

  /** Check 6 repeats a critical-branch loss that is listed on its own. */
  function ProtectionSubjects(findings: seq<ProtectionFinding>, withSix: bool): seq<string> {
    if findings == [] then []
    else
      var last := findings[|findings| - 1];
      ProtectionSubjects(findings[..|findings| - 1], withSix) + if last.check == 6 && !withSix then []
          else [last.subject]
  }

  function AxisName(axis: Axis): string {
    match axis
    case ProofOf => "proof"
    case ProtectionOf => "protection"
    case DebtOf => "debt"
    case StabilityOf => "stability"
    case UiOf => "ui_integrity"
    case TriangleOf => "delta_triangle"
    case AiOf => "ai"
  }

  /** The six axes that must be measured when they are in scope. */
  function Required(proof: AxisState, inputs: VerdictInputs): seq<(Axis, AxisState)> {
    [(ProofOf, proof), (ProtectionOf, inputs.protection.state), (DebtOf, inputs.debt.state),
     (StabilityOf, inputs.stability.state), (UiOf, inputs.ui.state), (TriangleOf, inputs.triangle.state)]
  }

  function ReasonsOf(rank: nat, code: nat, axis: Axis, subjects: seq<string>): seq<Reason> {
    seq(|subjects|, i requires 0 <= i < |subjects| => Reason(rank, code, axis, subjects[i]))
  }

  function Unmeasureds(axes: seq<(Axis, AxisState)>): seq<Reason> {
    if axes == [] then []
    else
      var last := axes[|axes| - 1];
      Unmeasureds(axes[..|axes| - 1]) + if last.1.Unmeasured? then [Reason(7, 7, last.0, AxisName(last.0))] else []
  }

  function BlockingReasons(proof: ProofAxis, inputs: VerdictInputs): seq<Reason> {
    ReasonsOf(1, 1, ProofOf, proof.contradictedObligations)
    + ReasonsOf(2, 2, ProtectionOf,
                inputs.protection.lostCritical + ProtectionSubjects(inputs.protection.blocking, false))
    + ReasonsOf(3, 3, DebtOf, ItemIds(inputs.debt.added, true))
    + ReasonsOf(3, 3, UiOf, Subjects(inputs.ui.added, true))
    + ReasonsOf(3, 11, TriangleOf, Subjects(inputs.triangle.findings, true))
    + ReasonsOf(4, 4, ProofOf, proof.unprovenMandatory)
    + ReasonsOf(5, 5, DebtOf, ItemIds(inputs.debt.returned, true))
    + ReasonsOf(5, 5, UiOf, Subjects(inputs.ui.returned, true))
  }

  function OtherReasons(proof: ProofAxis, inputs: VerdictInputs): seq<Reason> {
    ReasonsOf(6, 6, StabilityOf, inputs.stability.unresolvedMandatoryFlakes)
    + ReasonsOf(6, 10, ProofOf, proof.ambiguousObligations)
    + Unmeasureds(Required(proof.state, inputs))
    + ReasonsOf(8, 8, AiOf, if inputs.ai.budgetExhausted then inputs.ai.unresolvedDecisions else [])
    + ReasonsOf(9, 9, ProtectionOf, ProtectionSubjects(inputs.protection.warnings, true))
    + ReasonsOf(9, 9, DebtOf, ItemIds(inputs.debt.added, false) + ItemIds(inputs.debt.returned, false))
    + ReasonsOf(9, 9, UiOf, Subjects(inputs.ui.added + inputs.ui.returned, false))
    + ReasonsOf(9, 9, TriangleOf, Subjects(inputs.triangle.findings, false))
    + ReasonsOf(9, 9, StabilityOf, if inputs.stability.flaky > 0 then ["test-history"] else [])
  }

  predicate ReasonLess(a: Reason, b: Reason) {
    || a.rank < b.rank
    || (a.rank == b.rank && a.code < b.code)
    || (a.rank == b.rank && a.code == b.code && Before(a.subject, b.subject))
  }

  function StateFor(rank: nat): VerdictState {
    if rank == 1 || rank == 2 || rank == 3 || rank == 5 then Blocked
    else if rank == 6 || rank == 8 then NeedsHuman
    else if rank == 4 || rank == 7 then NotEnoughEvidence
    else PassWithWarnings
  }

  /** The axes that were in scope and not measured. */
  function Gaps(axes: seq<(Axis, AxisState)>): set<string> {
    set a | a in axes && a.1.Unmeasured? :: AxisName(a.0)
  }

  // ----- the operation -----

  method Push(out: seq<Reason>, rank: nat, code: nat, axis: Axis, subjects: seq<string>) returns (more: seq<Reason>)
    ensures more == out + ReasonsOf(rank, code, axis, subjects)
  {
    more := out;
    for i := 0 to |subjects|
      invariant more == out + ReasonsOf(rank, code, axis, subjects[..i])
    {
      assert ReasonsOf(rank, code, axis, subjects[..i + 1]) == ReasonsOf(rank, code, axis, subjects[..i])
          + [Reason(rank, code, axis, subjects[i])];
      more := more + [Reason(rank, code, axis, subjects[i])];
    }
    assert subjects[..|subjects|] == subjects;
  }

  method PushUnmeasured(out: seq<Reason>, known: set<string>, axes: seq<(Axis, AxisState)>)
    returns (more: seq<Reason>, limitations: set<string>)
    ensures more == out + Unmeasureds(axes) && limitations == known + Gaps(axes)
  {
    more, limitations := out, known;
    for i := 0 to |axes|
      invariant more == out + Unmeasureds(axes[..i]) && limitations == known + Gaps(axes[..i])
    {
      assert axes[..i + 1][..i] == axes[..i];
      assert axes[..i + 1] == axes[..i] + [axes[i]];
      if axes[i].1.Unmeasured? {
        more := more + [Reason(7, 7, axes[i].0, AxisName(axes[i].0))];
        limitations := limitations + {AxisName(axes[i].0)};
      }
    }
    assert axes[..|axes|] == axes;
  }

  method PushBlocking(proof: ProofAxis, inputs: VerdictInputs) returns (out: seq<Reason>)
    ensures out == BlockingReasons(proof, inputs)
  {
    hide ReasonsOf, ItemIds, Subjects, ProtectionSubjects;
    out := Push([], 1, 1, ProofOf, proof.contradictedObligations);
    out := Push(out, 2, 2, ProtectionOf,
                inputs.protection.lostCritical + ProtectionSubjects(inputs.protection.blocking, false));
    out := Push(out, 3, 3, DebtOf, ItemIds(inputs.debt.added, true));
    out := Push(out, 3, 3, UiOf, Subjects(inputs.ui.added, true));
    out := Push(out, 3, 11, TriangleOf, Subjects(inputs.triangle.findings, true));
    out := Push(out, 4, 4, ProofOf, proof.unprovenMandatory);
    out := Push(out, 5, 5, DebtOf, ItemIds(inputs.debt.returned, true));
    out := Push(out, 5, 5, UiOf, Subjects(inputs.ui.returned, true));
  }

  method PushWarnings(before: seq<Reason>, inputs: VerdictInputs) returns (out: seq<Reason>)
    ensures out == before
                   + ReasonsOf(9, 9, ProtectionOf, ProtectionSubjects(inputs.protection.warnings, true))
                   + ReasonsOf(9, 9, DebtOf, ItemIds(inputs.debt.added, false) + ItemIds(inputs.debt.returned, false))
                   + ReasonsOf(9, 9, UiOf, Subjects(inputs.ui.added + inputs.ui.returned, false))
                   + ReasonsOf(9, 9, TriangleOf, Subjects(inputs.triangle.findings, false))
                   + ReasonsOf(9, 9, StabilityOf, if inputs.stability.flaky > 0 then ["test-history"] else [])
  {
    hide ReasonsOf, ItemIds, Subjects, ProtectionSubjects;
    out := Push(before, 9, 9, ProtectionOf, ProtectionSubjects(inputs.protection.warnings, true));
    out := Push(out, 9, 9, DebtOf, ItemIds(inputs.debt.added, false) + ItemIds(inputs.debt.returned, false));
    out := Push(out, 9, 9, UiOf, Subjects(inputs.ui.added + inputs.ui.returned, false));
    out := Push(out, 9, 9, TriangleOf, Subjects(inputs.triangle.findings, false));
    out := Push(out, 9, 9, StabilityOf, if inputs.stability.flaky > 0 then ["test-history"] else []);
  }

  method PushOther(proof: ProofAxis, inputs: VerdictInputs) returns (out: seq<Reason>, limitations: set<string>)
    ensures out == OtherReasons(proof, inputs)
    ensures limitations == inputs.limitations + Gaps(Required(proof.state, inputs))
  {
    hide ReasonsOf, ItemIds, Subjects, ProtectionSubjects, Unmeasureds, Gaps, Required;
    out := Push([], 6, 6, StabilityOf, inputs.stability.unresolvedMandatoryFlakes);
    out := Push(out, 6, 10, ProofOf, proof.ambiguousObligations);
    out, limitations := PushUnmeasured(out, inputs.limitations, Required(proof.state, inputs));
    out := Push(out, 8, 8, AiOf, if inputs.ai.budgetExhausted then inputs.ai.unresolvedDecisions else []);
    out := PushWarnings(out, inputs);
  }

  function SortedReasons(proof: ProofAxis, inputs: VerdictInputs): seq<Reason> {
    Sort(BlockingReasons(proof, inputs) + OtherReasons(proof, inputs), ReasonLess)
  }

  function FirstState(reasons: seq<Reason>): VerdictState {
    if reasons == [] then Pass else StateFor(reasons[0].rank)
  }

  method Compose(inputs: VerdictInputs) returns (v: ChangeVerdict)
    ensures IsProofAxis(v.proof, inputs.proofs)
    ensures v.reasons == SortedReasons(v.proof, inputs)
    ensures v.state == FirstState(v.reasons) == StateOf(inputs)
    ensures v.limitations == inputs.limitations + Gaps(Required(v.proof.state, inputs))
  {
    hide IsProofAxis, BlockingReasons, OtherReasons, ReasonLess, StateFor, StateOf, Gaps, Required;
    var proof := ProofAxisOf(inputs.proofs);
    var blocking := PushBlocking(proof, inputs);
    var others, limitations := PushOther(proof, inputs);
    var reasons := Sort(blocking + others, ReasonLess);
    StateIsFirstRank(inputs, proof);
    v := ChangeVerdict(FirstState(reasons), proof, reasons, limitations);
  }

  // ----- which rules fire -----

  ghost predicate AnyItem(items: seq<DebtItem>, blocking: bool) {
    exists i :: i in items && i.blocking == blocking
  }

  ghost predicate AnyFinding(findings: seq<FindingRef>, errors: bool) {
    exists f :: f in findings && f.severity.Error? == errors
  }

  ghost predicate AnyProof(proofs: seq<ProofOutcome>, test: ProofOutcome -> bool) {
    exists o :: o in proofs && test(o)
  }

  ghost predicate AnyUnmeasured(inputs: VerdictInputs) {
    || ProofState(inputs.proofs).Unmeasured? || inputs.protection.state.Unmeasured? || inputs.debt.state.Unmeasured?
    || inputs.stability.state.Unmeasured? || inputs.ui.state.Unmeasured? || inputs.triangle.state.Unmeasured?
  }

  /** The rule of a rank has something to report. */
  ghost predicate Fires(rank: nat, inputs: VerdictInputs) {
    match rank
    case 1 => AnyProof(inputs.proofs, IsContradicted)
    case 2 => inputs.protection.lostCritical != [] || exists f :: f in inputs.protection.blocking && f.check != 6
    case 3 => AnyItem(inputs.debt.added, true) || AnyFinding(inputs.ui.added, true)
        || AnyFinding(inputs.triangle.findings, true)
    case 4 => AnyProof(inputs.proofs, LacksProof)
    case 5 => AnyItem(inputs.debt.returned, true) || AnyFinding(inputs.ui.returned, true)
    case 6 => inputs.stability.unresolvedMandatoryFlakes != [] || AnyProof(inputs.proofs, IsAmbiguous)
    case 7 => AnyUnmeasured(inputs)
    case 8 => inputs.ai.budgetExhausted && inputs.ai.unresolvedDecisions != []
    case 9 =>
      || inputs.protection.warnings != []
      || AnyItem(inputs.debt.added, false) || AnyItem(inputs.debt.returned, false)
      || AnyFinding(inputs.ui.added, false) || AnyFinding(inputs.ui.returned, false)
      || AnyFinding(inputs.triangle.findings, false) || inputs.stability.flaky > 0
    case _ => false
  }

  /** The state of the first rule that fires, from a rank on. */
  ghost function StateFrom(inputs: VerdictInputs, rank: nat): VerdictState
    decreases 10 - rank
  {
    if rank > 9 then Pass else if Fires(rank, inputs) then StateFor(rank) else StateFrom(inputs, rank + 1)
  }

  ghost function StateOf(inputs: VerdictInputs): VerdictState {
    StateFrom(inputs, 1)
  }

  ghost predicate HasRank(reasons: seq<Reason>, rank: nat) {
    exists r :: r in reasons && r.rank == rank
  }

  lemma RankJoins(a: seq<Reason>, b: seq<Reason>, rank: nat)
    ensures HasRank(a + b, rank) <==> HasRank(a, rank) || HasRank(b, rank)
  {
    assert forall r :: r in a + b <==> r in a || r in b;
  }

  lemma RankOfPushed(rank: nat, code: nat, axis: Axis, subjects: seq<string>, k: nat)
    ensures HasRank(ReasonsOf(rank, code, axis, subjects), k) <==> k == rank && subjects != []
  {
    var rs := ReasonsOf(rank, code, axis, subjects);
    assert subjects != [] ==> rs[0] in rs;
  }

  lemma {:induction false} ItemIdsExist(items: seq<DebtItem>, blocking: bool)
    ensures ItemIds(items, blocking) != [] <==> AnyItem(items, blocking)
  {
    if items != [] {
      var n := |items| - 1;
      assert items == items[..n] + [items[n]];
      ItemIdsExist(items[..n], blocking);
    }
  }

  lemma {:induction false} SubjectsExist(findings: seq<FindingRef>, errors: bool)
    ensures Subjects(findings, errors) != [] <==> AnyFinding(findings, errors)
  {
    if findings != [] {
      var n := |findings| - 1;
      assert findings == findings[..n] + [findings[n]];
      SubjectsExist(findings[..n], errors);
    }
  }

  lemma {:induction false} ProtectionSubjectsExist(findings: seq<ProtectionFinding>, withSix: bool)
    ensures ProtectionSubjects(findings, withSix) != [] <==> exists f :: f in findings && (withSix || f.check != 6)
  {
    if findings != [] {
      var n := |findings| - 1;
      assert findings == findings[..n] + [findings[n]];
      ProtectionSubjectsExist(findings[..n], withSix);
    }
  }

  lemma {:induction false} UnmeasuredsExist(axes: seq<(Axis, AxisState)>, k: nat)
    ensures HasRank(Unmeasureds(axes), k) <==> k == 7 && exists a :: a in axes && a.1.Unmeasured?
  {
    if axes != [] {
      var n := |axes| - 1;
      assert axes == axes[..n] + [axes[n]];
      UnmeasuredsExist(axes[..n], k);
      var last := if axes[n].1.Unmeasured? then [Reason(7, 7, axes[n].0, AxisName(axes[n].0))] else [];
      RankJoins(Unmeasureds(axes[..n]), last, k);
      assert axes[n].1.Unmeasured? ==> last[0] in last;
    }
  }

  lemma PushedJoins(before: seq<Reason>, rank: nat, code: nat, axis: Axis, subjects: seq<string>, k: nat)
    ensures HasRank(before + ReasonsOf(rank, code, axis, subjects), k) <==>
              HasRank(before, k) || (k == rank && subjects != [])
  {
    hide HasRank, ReasonsOf;
    RankJoins(before, ReasonsOf(rank, code, axis, subjects), k);
    RankOfPushed(rank, code, axis, subjects, k);
  }

  lemma UrgentRanks(proof: ProofAxis, inputs: VerdictInputs, k: nat)
    ensures var a := ReasonsOf(1, 1, ProofOf, proof.contradictedObligations)
                     + ReasonsOf(2, 2, ProtectionOf,
                                 inputs.protection.lostCritical + ProtectionSubjects(inputs.protection.blocking, false))
                     + ReasonsOf(3, 3, DebtOf, ItemIds(inputs.debt.added, true))
                     + ReasonsOf(3, 3, UiOf, Subjects(inputs.ui.added, true))
                     + ReasonsOf(3, 11, TriangleOf, Subjects(inputs.triangle.findings, true));
            HasRank(a, k) <==>
              || (k == 1 && proof.contradictedObligations != [])
              || (k == 2 && Fires(2, inputs))
              || (k == 3 && Fires(3, inputs))
  {
    hide HasRank, ReasonsOf, ItemIds, Subjects, ProtectionSubjects, AnyItem, AnyFinding, AnyProof;
    ProtectionSubjectsExist(inputs.protection.blocking, false);
    ItemIdsExist(inputs.debt.added, true);
    SubjectsExist(inputs.ui.added, true);
    SubjectsExist(inputs.triangle.findings, true);
    var lost := inputs.protection.lostCritical + ProtectionSubjects(inputs.protection.blocking, false);
    var a := ReasonsOf(1, 1, ProofOf, proof.contradictedObligations);
    RankOfPushed(1, 1, ProofOf, proof.contradictedObligations, k);
    PushedJoins(a, 2, 2, ProtectionOf, lost, k);
    var b := a + ReasonsOf(2, 2, ProtectionOf, lost);
    PushedJoins(b, 3, 3, DebtOf, ItemIds(inputs.debt.added, true), k);
    var c := b + ReasonsOf(3, 3, DebtOf, ItemIds(inputs.debt.added, true));
    PushedJoins(c, 3, 3, UiOf, Subjects(inputs.ui.added, true), k);
    var d := c + ReasonsOf(3, 3, UiOf, Subjects(inputs.ui.added, true));
    PushedJoins(d, 3, 11, TriangleOf, Subjects(inputs.triangle.findings, true), k);
  }

  lemma BlockingRanks(proof: ProofAxis, inputs: VerdictInputs, k: nat)
    requires IsProofAxis(proof, inputs.proofs)
    ensures HasRank(BlockingReasons(proof, inputs), k) <==> 1 <= k <= 5 && Fires(k, inputs)
  {
    ListedExists(proof.contradictedObligations, inputs.proofs, IsContradicted);
    ListedExists(proof.unprovenMandatory, inputs.proofs, LacksProof);
    hide HasRank, ReasonsOf, ItemIds, Subjects, ProtectionSubjects, AnyItem, AnyFinding, AnyProof, ListsObligations,
         IsProofAxis;
    UrgentRanks(proof, inputs, k);
    ItemIdsExist(inputs.debt.returned, true);
    SubjectsExist(inputs.ui.returned, true);
    var a := ReasonsOf(1, 1, ProofOf, proof.contradictedObligations)
             + ReasonsOf(2, 2, ProtectionOf,
                         inputs.protection.lostCritical + ProtectionSubjects(inputs.protection.blocking, false))
             + ReasonsOf(3, 3, DebtOf, ItemIds(inputs.debt.added, true))
             + ReasonsOf(3, 3, UiOf, Subjects(inputs.ui.added, true))
             + ReasonsOf(3, 11, TriangleOf, Subjects(inputs.triangle.findings, true));
    PushedJoins(a, 4, 4, ProofOf, proof.unprovenMandatory, k);
    var b := a + ReasonsOf(4, 4, ProofOf, proof.unprovenMandatory);
    PushedJoins(b, 5, 5, DebtOf, ItemIds(inputs.debt.returned, true), k);
    var c := b + ReasonsOf(5, 5, DebtOf, ItemIds(inputs.debt.returned, true));
    PushedJoins(c, 5, 5, UiOf, Subjects(inputs.ui.returned, true), k);
  }

  lemma ListedExists(ids: seq<string>, proofs: seq<ProofOutcome>, test: ProofOutcome -> bool)
    requires ListsObligations(ids, proofs, test)
    ensures ids != [] <==> AnyProof(proofs, test)
  {
    assert ids != [] ==> ids[0] in ids;
    if AnyProof(proofs, test) {
      var o :| o in proofs && test(o);
      assert o.obligation in ids;
    }
  }

  lemma HumanRanks(proof: ProofAxis, inputs: VerdictInputs, k: nat)
    requires IsProofAxis(proof, inputs.proofs)
    ensures var decisions := if inputs.ai.budgetExhausted then inputs.ai.unresolvedDecisions else [];
            var a := ReasonsOf(6, 6, StabilityOf, inputs.stability.unresolvedMandatoryFlakes)
                     + ReasonsOf(6, 10, ProofOf, proof.ambiguousObligations)
                     + Unmeasureds(Required(proof.state, inputs))
                     + ReasonsOf(8, 8, AiOf, decisions);
            HasRank(a, k) <==> 6 <= k <= 8 && Fires(k, inputs)
  {
    ListedExists(proof.ambiguousObligations, inputs.proofs, IsAmbiguous);
    RequiredUnmeasured(proof, inputs);
    hide HasRank, ReasonsOf, AnyItem, AnyFinding, AnyProof, ListsObligations, IsProofAxis, AnyUnmeasured, Unmeasureds,
         Required;
    var decisions := if inputs.ai.budgetExhausted then inputs.ai.unresolvedDecisions else [];
    var a := ReasonsOf(6, 6, StabilityOf, inputs.stability.unresolvedMandatoryFlakes);
    RankOfPushed(6, 6, StabilityOf, inputs.stability.unresolvedMandatoryFlakes, k);
    PushedJoins(a, 6, 10, ProofOf, proof.ambiguousObligations, k);
    var b := a + ReasonsOf(6, 10, ProofOf, proof.ambiguousObligations);
    UnmeasuredsExist(Required(proof.state, inputs), k);
    RankJoins(b, Unmeasureds(Required(proof.state, inputs)), k);
    PushedJoins(b + Unmeasureds(Required(proof.state, inputs)), 8, 8, AiOf, decisions, k);
  }

  lemma RequiredUnmeasured(proof: ProofAxis, inputs: VerdictInputs)
    requires IsProofAxis(proof, inputs.proofs)
    ensures (exists a :: a in Required(proof.state, inputs) && a.1.Unmeasured?) <==> AnyUnmeasured(inputs)
  {
    hide ListsObligations, CountVerdict, ProofState;
    var axes := Required(proof.state, inputs);
    assert axes[0] in axes && axes[1] in axes && axes[2] in axes && axes[3] in axes && axes[4] in axes
        && axes[5] in axes;
  }

  lemma {:induction false} SubjectsJoin(a: seq<FindingRef>, b: seq<FindingRef>, errors: bool)
    ensures AnyFinding(a + b, errors) <==> AnyFinding(a, errors) || AnyFinding(b, errors)
  {
    assert forall f :: f in a + b <==> f in a || f in b;
  }

  lemma OtherRanks(proof: ProofAxis, inputs: VerdictInputs, k: nat)
    requires IsProofAxis(proof, inputs.proofs)
    ensures HasRank(OtherReasons(proof, inputs), k) <==> 6 <= k <= 9 && Fires(k, inputs)
  {
    hide HasRank, ReasonsOf, ItemIds, Subjects, ProtectionSubjects, AnyItem, AnyFinding, AnyProof, IsProofAxis,
         AnyUnmeasured, Unmeasureds, Required;
    HumanRanks(proof, inputs, k);
    WarningSubjects(inputs);
    var decisions := if inputs.ai.budgetExhausted then inputs.ai.unresolvedDecisions else [];
    var a := ReasonsOf(6, 6, StabilityOf, inputs.stability.unresolvedMandatoryFlakes)
             + ReasonsOf(6, 10, ProofOf, proof.ambiguousObligations)
             + Unmeasureds(Required(proof.state, inputs))
             + ReasonsOf(8, 8, AiOf, decisions);
    WarningRanks(a, inputs, k);
  }

  lemma WarningSubjects(inputs: VerdictInputs)
    ensures ProtectionSubjects(inputs.protection.warnings, true) != [] <==> inputs.protection.warnings != []
    ensures (ItemIds(inputs.debt.added, false) + ItemIds(inputs.debt.returned, false) != [])
              <==> AnyItem(inputs.debt.added, false) || AnyItem(inputs.debt.returned, false)
    ensures (Subjects(inputs.ui.added + inputs.ui.returned, false) != [])
              <==> AnyFinding(inputs.ui.added, false) || AnyFinding(inputs.ui.returned, false)
    ensures Subjects(inputs.triangle.findings, false) != [] <==> AnyFinding(inputs.triangle.findings, false)
  {
    ProtectionSubjectsExist(inputs.protection.warnings, true);
    assert inputs.protection.warnings != [] ==> inputs.protection.warnings[0] in inputs.protection.warnings;
    hide ItemIds, Subjects, ProtectionSubjects, AnyItem, AnyFinding;
    ItemIdsExist(inputs.debt.added, false);
    ItemIdsExist(inputs.debt.returned, false);
    SubjectsExist(inputs.ui.added + inputs.ui.returned, false);
    SubjectsJoin(inputs.ui.added, inputs.ui.returned, false);
    SubjectsExist(inputs.triangle.findings, false);
  }

  lemma WarningRanks(a: seq<Reason>, inputs: VerdictInputs, k: nat)
    ensures var all := a + ReasonsOf(9, 9, ProtectionOf, ProtectionSubjects(inputs.protection.warnings, true))
                       + ReasonsOf(9, 9, DebtOf,
                                   ItemIds(inputs.debt.added, false) + ItemIds(inputs.debt.returned, false))
                       + ReasonsOf(9, 9, UiOf, Subjects(inputs.ui.added + inputs.ui.returned, false))
                       + ReasonsOf(9, 9, TriangleOf, Subjects(inputs.triangle.findings, false))
                       + ReasonsOf(9, 9, StabilityOf, if inputs.stability.flaky > 0 then ["test-history"] else []);
            HasRank(all, k) <==> HasRank(a, k) || (k == 9 && Fires(9, inputs))
  {
    hide HasRank, ReasonsOf, ItemIds, Subjects, ProtectionSubjects, AnyItem, AnyFinding;
    WarningSubjects(inputs);
    var ps := ProtectionSubjects(inputs.protection.warnings, true);
    var ds := ItemIds(inputs.debt.added, false) + ItemIds(inputs.debt.returned, false);
    var us := Subjects(inputs.ui.added + inputs.ui.returned, false);
    var ts := Subjects(inputs.triangle.findings, false);
    PushedJoins(a, 9, 9, ProtectionOf, ps, k);
    var b := a + ReasonsOf(9, 9, ProtectionOf, ps);
    PushedJoins(b, 9, 9, DebtOf, ds, k);
    var c := b + ReasonsOf(9, 9, DebtOf, ds);
    PushedJoins(c, 9, 9, UiOf, us, k);
    var d := c + ReasonsOf(9, 9, UiOf, us);
    PushedJoins(d, 9, 9, TriangleOf, ts, k);
    PushedJoins(d + ReasonsOf(9, 9, TriangleOf, ts), 9, 9, StabilityOf,
                if inputs.stability.flaky > 0 then ["test-history"] else [], k);
  }

  lemma ReasonLessIsStrict()
    ensures StrictOrder(ReasonLess)
  {
    BeforeIsStrictOrder();
    hide Before;
    assert forall a, b, c :: ReasonLess(a, b) && ReasonLess(b, c) ==> ReasonLess(a, c);
    forall a, b, c | ReasonLess(a, c) && !ReasonLess(a, b) ensures ReasonLess(b, c) {
      assert a.rank != b.rank || a.code != b.code || a.subject == b.subject || Before(b.subject, a.subject);
    }
  }

  /** The rules that fired, by rank. */
  ghost predicate RanksAreFired(reasons: seq<Reason>, inputs: VerdictInputs) {
    forall k: nat :: HasRank(reasons, k) <==> 1 <= k <= 9 && Fires(k, inputs)
  }

  lemma FirstIsLeast(reasons: seq<Reason>, k: nat)
    requires Sorted(reasons, ReasonLess) && HasRank(reasons, k)
    ensures reasons != [] && reasons[0].rank <= k && HasRank(reasons, reasons[0].rank)
  {
    var r :| r in reasons && r.rank == k;
    var i :| 0 <= i < |reasons| && reasons[i] == r;
    assert i > 0 ==> !ReasonLess(reasons[i], reasons[0]);
    assert reasons[0] in reasons;
  }

  lemma {:induction false} StateFromFirst(reasons: seq<Reason>, inputs: VerdictInputs, rank: nat)
    requires Sorted(reasons, ReasonLess) && RanksAreFired(reasons, inputs) && 1 <= rank <= 10
    requires forall k: nat :: 1 <= k < rank ==> !Fires(k, inputs)
    ensures StateFrom(inputs, rank) == FirstState(reasons)
    decreases 10 - rank
  {
    hide Fires, ReasonLess, HasRank;
    if rank > 9 {
      NoReasonNoRank(reasons);
    } else if Fires(rank, inputs) {
      assert HasRank(reasons, rank);
      FirstIsLeast(reasons, rank);
    } else {
      StateFromFirst(reasons, inputs, rank + 1);
    }
  }

  lemma NoReasonNoRank(reasons: seq<Reason>)
    ensures reasons != [] ==> HasRank(reasons, reasons[0].rank)
  {
    assert reasons != [] ==> reasons[0] in reasons;
  }

  lemma SortedRanks(proof: ProofAxis, inputs: VerdictInputs)
    requires IsProofAxis(proof, inputs.proofs)
    ensures RanksAreFired(SortedReasons(proof, inputs), inputs) && Sorted(SortedReasons(proof, inputs), ReasonLess)
  {
    hide Fires, ReasonLess, IsProofAxis, BlockingReasons, OtherReasons;
    var all := BlockingReasons(proof, inputs) + OtherReasons(proof, inputs);
    ReasonLessIsStrict();
    SortSorts(all, ReasonLess);
    SameElements(Sort(all, ReasonLess), all);
    forall k: nat ensures HasRank(Sort(all, ReasonLess), k) <==> 1 <= k <= 9 && Fires(k, inputs) {
      BlockingRanks(proof, inputs, k);
      OtherRanks(proof, inputs, k);
      RankJoins(BlockingReasons(proof, inputs), OtherReasons(proof, inputs), k);
    }
  }

  /** The first rule that fires decides the state. */
  lemma StateIsFirstRank(inputs: VerdictInputs, proof: ProofAxis)
    requires IsProofAxis(proof, inputs.proofs)
    ensures FirstState(SortedReasons(proof, inputs)) == StateOf(inputs)
  {
    hide Fires, ReasonLess, IsProofAxis, SortedReasons, FirstState;
    SortedRanks(proof, inputs);
    StateFromFirst(SortedReasons(proof, inputs), inputs, 1);
  }
}

/** What the priority order guarantees, and what it does not. */
module VerdictLaws {
  import opened Options
  import opened Text
  import opened Sorting
  import opened ProtectionDeltas
  import opened ProtectionGate
  import opened ChangeVerdicts

  lemma StateUnfolds(inputs: VerdictInputs)
    ensures StateOf(inputs) ==
            if Fires(1, inputs) || Fires(2, inputs) || Fires(3, inputs) then Blocked
            else if Fires(4, inputs) then NotEnoughEvidence
            else if Fires(5, inputs) then Blocked
            else if Fires(6, inputs) then NeedsHuman
            else if Fires(7, inputs) then NotEnoughEvidence
            else if Fires(8, inputs) then NeedsHuman
            else if Fires(9, inputs) then PassWithWarnings
            else Pass
  {
    hide Fires;
    assert StateFrom(inputs, 7) == if Fires(7, inputs) then NotEnoughEvidence else StateFrom(inputs, 8);
    assert StateFrom(inputs, 8) == if Fires(8, inputs) then NeedsHuman else StateFrom(inputs, 9);
    assert StateFrom(inputs, 9) == if Fires(9, inputs) then PassWithWarnings else StateFrom(inputs, 10);
    assert StateFrom(inputs, 4) == if Fires(4, inputs) then NotEnoughEvidence else StateFrom(inputs, 5);
    assert StateFrom(inputs, 5) == if Fires(5, inputs) then Blocked else StateFrom(inputs, 6);
    assert StateFrom(inputs, 6) == if Fires(6, inputs) then NeedsHuman else StateFrom(inputs, 7);
    assert StateFrom(inputs, 2) == if Fires(2, inputs) then Blocked else StateFrom(inputs, 3);
    assert StateFrom(inputs, 3) == if Fires(3, inputs) then Blocked else StateFrom(inputs, 4);
  }

  /** A change is blocked exactly by a rule of rank 1 to 3, or by one of rank 5 when no mandatory proof is missing. */
  lemma BlockedExactlyWhen(inputs: VerdictInputs)
    ensures StateOf(inputs).Blocked? <==>
              Fires(1, inputs) || Fires(2, inputs) || Fires(3, inputs) || (Fires(5, inputs) && !Fires(4, inputs))
  {
    hide Fires, StateOf;
    StateUnfolds(inputs);
  }

  /** A passing change has every proof, and every required axis was measured. */
  lemma PassingIsFullyEvidenced(inputs: VerdictInputs)
    requires StateOf(inputs).Pass? || StateOf(inputs).PassWithWarnings?
    ensures forall o :: o in inputs.proofs ==> o.verdict.Proven?
    ensures !inputs.protection.state.Unmeasured? && !inputs.debt.state.Unmeasured?
    ensures !inputs.stability.state.Unmeasured?
    ensures !inputs.ui.state.Unmeasured? && !inputs.triangle.state.Unmeasured? && !ProofState(inputs.proofs).Unmeasured?
    ensures inputs.protection.lostCritical == []
  {
    StateUnfolds(inputs);
    hide StateOf, AnyItem, AnyFinding;
    assert !Fires(1, inputs) && !Fires(2, inputs) && !Fires(6, inputs) && !Fires(7, inputs);
    forall o | o in inputs.proofs ensures o.verdict.Proven? {
      assert !IsContradicted(o) && !IsAmbiguous(o);
    }
  }

  /** A lost critical branch blocks, whatever every other axis says. */
  lemma LostBranchAlwaysBlocks(inputs: VerdictInputs, branch: string)
    requires branch in inputs.protection.lostCritical
    ensures StateOf(inputs).Blocked?
  {
    hide StateFrom, StateOf;
    BlockedExactlyWhen(inputs);
    assert Fires(2, inputs);
  }

  /** From the snapshots to the verdict: a protected base flow that loses a critical branch blocks the change. */
  lemma LocalLossBlocksTheChange(base: seq<FlowProtection>, head: seq<FlowProtection>, ctx: DeltaContext, name: string,
                                 branch: string,
                                 checks: ProtectionCheckInput, findings: seq<ProtectionFinding>, axis: ProtectionAxis,
                                 inputs: VerdictInputs)
    requires FlowIn(base, name).Some? && FlowIn(base, name).value.Protected()
    requires LosesBranch(FlowIn(base, name).value, head, ctx, branch) && !Skipped(base, ctx, name)
    requires IsDeltaList(base, head, ctx, checks.deltas) && IsGate(checks, findings)
    requires IsAxis(checks.deltas, findings, axis)
    requires inputs.protection == axis
    ensures exists d :: d in checks.deltas && d.flow == name && d.state.Lost? && branch in d.lostCritical
    ensures ProtectionFinding(6, Error, name) in findings && name in axis.lostFlows && branch in axis.lostCritical
    ensures axis.state.Blocking? && StateOf(inputs).Blocked?
  {
    hide LosesBranch, Skipped, IsDeltaList, IsGate, StateOf, FlowIn;
    LocalLossIsReportedExactlyWhen(base, head, ctx, checks.deltas, name, branch);
    var d :| d in checks.deltas && d.flow == name && branch in d.lostCritical;
    LostBranchRaisesAnError(checks, findings, d);
    LostBranchAlwaysBlocks(inputs, branch);
  }

  /** Adding a mandatory obligation without proof turns a block by a returned regression into missing evidence. */
  lemma MissingProofOutranksAReturnedRegression(inputs: VerdictInputs, o: ProofOutcome)
    requires Fires(5, inputs) && LacksProof(o)
    requires !Fires(1, inputs) && !Fires(2, inputs) && !Fires(3, inputs) && !Fires(4, inputs)
    ensures StateOf(inputs).Blocked? && StateOf(inputs.(proofs := inputs.proofs + [o])).NotEnoughEvidence?
  {
    var more := inputs.(proofs := inputs.proofs + [o]);
    StateUnfolds(inputs);
    StateUnfolds(more);
    hide StateOf, AnyItem, AnyFinding;
    assert forall p :: p in more.proofs <==> p in inputs.proofs || p == o;
    assert !Fires(1, more) && Fires(4, more);
    assert Fires(2, more) == Fires(2, inputs) && Fires(3, more) == Fires(3, inputs);
  }

  /** An error finding that does not reach the priority order: only check 6, and no critical branch lost. */
  ghost predicate OnlyRepeatsALoss(deltas: seq<ProtectionDelta>, findings: seq<ProtectionFinding>) {
    && (forall f :: f in findings && f.severity.Error? ==> f.check == 6)
    && (forall d :: d in deltas ==> d.lostCritical == {})
  }

  /**
   * When the gate blocks, the protection rule fires exactly unless every error only repeats a loss that
   * no delta has.
   */
  lemma GateBlockReachesTheVerdictExactlyWhen(checks: ProtectionCheckInput, findings: seq<ProtectionFinding>,
                                              axis: ProtectionAxis, inputs: VerdictInputs)
    requires IsGate(checks, findings) && IsAxis(checks.deltas, findings, axis) && inputs.protection == axis
    requires Blocks(findings)
    ensures axis.state.Blocking?
    ensures Fires(2, inputs) <==> !OnlyRepeatsALoss(checks.deltas, findings)
  {
    hide IsGate;
    var f :| f in findings && f.severity.Error?;
    assert f in axis.blocking;
    assert axis.lostCritical != [] ==> axis.lostCritical[0] in axis.lostCritical;
    if d :| d in checks.deltas && d.lostCritical != {} {
      var b :| b in d.lostCritical;
      assert b in axis.lostCritical;
    }
  }

  lemma HeadIsMember<T>(s: seq<T>)
    ensures s == [] || s[0] in s
  {
  }

  const WEAKER := ProtectionDelta("pay", Degraded, ["t"], ["t"], {}, {})

  /** A high-risk flow that runs fewer branches raises an error and a blocking axis, and the change still passes. */
  lemma HighRiskDegradationPasses(findings: seq<ProtectionFinding>, axis: ProtectionAxis)
    requires var checks := ProtectionCheckInput([WEAKER], [], [], {"pay"});
             IsGate(checks, findings) && IsAxis([WEAKER], findings, axis)
    ensures Blocks(findings) && axis.state.Blocking?
    ensures StateOf(VerdictInputs([], axis, DebtAxis(Clean, [], []), StabilityAxis(Clean, 0, []), AiAxis(false, []),
                                  UiIntegrityAxis(Clean, [], []), DeltaTriangleAxis(Clean, []), {})).Pass?
  {
    var checks := ProtectionCheckInput([WEAKER], [], [], {"pay"});
    var inputs := VerdictInputs([], axis, DebtAxis(Clean, [], []), StabilityAxis(Clean, 0, []), AiAxis(false, []),
                                UiIntegrityAxis(Clean, [], []), DeltaTriangleAxis(Clean, []), {});
    var six := ProtectionFinding(6, Error, "pay");
    HeadIsMember(axis.warnings);
    OnlySix(checks, findings);
    GateBlockReachesTheVerdictExactlyWhen(checks, findings, axis, inputs);
    StateUnfolds(inputs);
    hide StateOf;
    assert !Fires(2, inputs) && !Fires(9, inputs);
  }

  lemma OnlySix(checks: ProtectionCheckInput, findings: seq<ProtectionFinding>)
    requires checks == ProtectionCheckInput([WEAKER], [], [], {"pay"}) && IsGate(checks, findings)
    ensures forall f :: f in findings <==> f == ProtectionFinding(6, Error, "pay")
  {
    hide FindingLess;
    assert FlowFindings(WEAKER, {"pay"}) == [ProtectionFinding(6, Error, "pay")];
    assert WEAKER in checks.deltas;
    forall f ensures f in findings <==> f == ProtectionFinding(6, Error, "pay") {
      assert f in findings <==> Raised(checks, f);
    }
  }
}
