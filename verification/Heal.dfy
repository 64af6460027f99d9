/** Safe healing: locators and waits only. */
module Heal {
  import opened Words
  import opened Options
  import opened Programs

  datatype HealError = SealMismatch | AssertionChanged | ExpectedResultChanged | XPathIdentity | EmptyTarget
                     | StepOutOfRange | NotRetargetable | WaitOutOfRange | InvalidProgram(e: ProgramError)

  datatype HealEdit = Retarget(step: nat, target: Target) | InsertWait(after: nat, condition: WaitCondition)

  datatype HealedProgram = HealedProgram(program: TestProgram, revision: u32, seal: string)

  function Or<T>(a: Option<T>, b: Option<T>): Option<T> {
    if a.Some? then a else b
  }

  predicate XPathCss(css: Option<string>) {
    css.Some? && ("//" <= css.value || "/html" <= css.value)
  }

  /** The observed alias laid over the previous target. */
  function Overlay(previous: Target, observed: Target): Target {
    Target(Or(observed.role, previous.role), Or(observed.accessibleName, previous.accessibleName),
           Or(observed.labelText, previous.labelText), Or(observed.testId, previous.testId),
           Or(observed.componentHint, previous.componentHint), Or(observed.scope, previous.scope),
           Or(observed.fallbackCss, previous.fallbackCss))
  }

  predicate Anonymous(t: Target) {
    t.role.None? && t.accessibleName.None? && t.labelText.None? && t.testId.None? && t.componentHint.None?
        && t.fallbackCss.None?
  }

  function RecoverTarget(previous: Target, observed: Target): Result<Target, HealError> {
    var recovered := Overlay(previous, observed);
    if XPathCss(observed.fallbackCss) || XPathCss(previous.fallbackCss) then Err(XPathIdentity)
    else if Anonymous(recovered) then Err(EmptyTarget)
    else if previous.role.Some? && recovered.role != previous.role then Err(ExpectedResultChanged)
    else if previous.accessibleName.Some? && recovered.accessibleName != previous.accessibleName
        then Err(ExpectedResultChanged)
    else Ok(recovered)
  }

  predicate Retargetable(a: TestAction) {
    a.Activate? || a.Fill? || a.Select? || a.Hover? || a.Scroll? || a.Drag? || a.Upload? || a.Download? || a.Popup?
  }

  function WithTarget(a: TestAction, t: Target): TestAction
    requires Retargetable(a)
  {
    match a
    case Activate(_) => Activate(t)
    case Fill(_, v) => Fill(t, v)
    case Select(_, v) => Select(t, v)
    case Hover(_) => Hover(t)
    case Scroll(_) => Scroll(t)
    case Drag(_, to) => Drag(t, to)
    case Upload(_, f) => Upload(t, f)
    case Download(_) => Download(t)
    case Popup(_) => Popup(t)
  }

  function RetargetStep(a: TestAction, observed: Target): Result<TestAction, HealError> {
    if Retargetable(a) then
      match RecoverTarget(a.target, observed)
      case Err(e) => Err(e)
      case Ok(t) => Ok(WithTarget(a, t))
    else if a.Assert? then Err(AssertionChanged)
    else Err(NotRetargetable)
  }

  // ----- what a heal may change -----

  /** A role or accessible name, once set, stays. */
  predicate KeepsIdentity(before: Target, after: Target) {
    (before.role.Some? ==> after.role == before.role)
    && (before.accessibleName.Some? ==> after.accessibleName == before.accessibleName)
  }

  /** The same action, except that a locator may have been replaced by one of the same identity. */
  predicate SameAction(before: TestAction, after: TestAction) {
    before == after ||
    (Retargetable(before) && Retargetable(after) && after == WithTarget(before, after.target)
     && KeepsIdentity(before.target, after.target))
  }

  /** Deleting some waits from the healed steps leaves the original actions, one by one. */
  predicate Simulates(original: seq<TestAction>, healed: seq<TestAction>) {
    if healed == [] then original == []
    else
      var m := |healed| - 1;
      (healed[m].Wait? && Simulates(original, healed[..m]))
      || (original != [] && SameAction(original[|original| - 1], healed[m])
          && Simulates(original[..|original| - 1], healed[..m]))
  }

  function AssertOf(a: TestAction): seq<string> {
    if a.Assert? then [a.obligation] else []
  }

  function AssertSteps(steps: seq<TestAction>): seq<string> {
    if steps == [] then [] else AssertSteps(steps[..|steps| - 1]) + AssertOf(steps[|steps| - 1])
  }

  function Assertions(p: TestProgram): seq<string> {
    AssertSteps(p.steps) + p.obligations
  }

  function ValueOf(a: TestAction): seq<string> {
    match a
    case Fill(_, v) => [v]
    case Select(_, v) => [v]
    case Upload(_, f) => [f]
    case _ => []
  }

  function FillValues(steps: seq<TestAction>): seq<string> {
    if steps == [] then [] else FillValues(steps[..|steps| - 1]) + ValueOf(steps[|steps| - 1])
  }

  // ----- the edits -----

  function ApplyEdit(steps: seq<TestAction>, edit: HealEdit): Result<seq<TestAction>, HealError> {
    match edit
    case Retarget(step, target) =>
      if step >= |steps| then Err(StepOutOfRange)
      else
        (match RetargetStep(steps[step], target)
         case Err(e) => Err(e)
         case Ok(a) => Ok(steps[step := a]))
    case InsertWait(after, condition) =>
      if after >= |steps| then Err(WaitOutOfRange)
      else Ok(steps[..after + 1] + [Wait(condition)] + steps[after + 1..])
  }

  function ApplyEdits(steps: seq<TestAction>, edits: seq<HealEdit>): Result<seq<TestAction>, HealError> {
    if edits == [] then Ok(steps)
    else
      match ApplyEdits(steps, edits[..|edits| - 1])
      case Err(e) => Err(e)
      case Ok(next) => ApplyEdit(next, edits[|edits| - 1])
  }

  /** Apply the edits, then run the final guards and the validator. */
  method ApplyHeal(program: TestProgram, seal: string, expectedSeal: string, edits: seq<HealEdit>, currentRevision: u32)
    returns (r: Result<HealedProgram, HealError>)
    ensures seal != expectedSeal ==> r == Err(SealMismatch)
    ensures seal == expectedSeal && ApplyEdits(program.steps, edits).Err? ==>
              r == Err(ApplyEdits(program.steps, edits).error)
    ensures seal == expectedSeal && ApplyEdits(program.steps, edits).Ok? ==>
              var next := program.(steps := ApplyEdits(program.steps, edits).value);
              if ValidProgram(next) then r == Ok(HealedProgram(next, Max(1, Min(U32_MAX, currentRevision + 1)), seal))
              else r.Err? && r.error.InvalidProgram?
    ensures r.Ok? ==> Simulates(program.steps, r.value.program.steps)
    ensures r.Ok? ==> Assertions(r.value.program) == Assertions(program)
  {
    hide ValidProgram;
    hide ApplyEdit;
    if seal != expectedSeal { return Err(SealMismatch); }
    var before := Assertions(program);
    var next := program;
    for i := 0 to |edits|
      invariant ApplyEdits(program.steps, edits[..i]) == Ok(next.steps)
      invariant next == program.(steps := next.steps)
    {
      assert edits[..i + 1][..i] == edits[..i];
      var step := ApplyEdit(next.steps, edits[i]);
      if step.Err? {
        FirstErrorStays(program.steps, edits, i + 1);
        return Err(step.error);
      }
      next := next.(steps := step.value);
    }
    assert edits[..|edits|] == edits;
    EditsSimulate(program.steps, edits);
    SimulationKeepsMeaning(program.steps, next.steps);
    var asserted := Assertions(next) != before || next.obligations != program.obligations;
    var filled := FillValues(next.steps) != FillValues(program.steps);
    var invalid := Validate(next);
    r := if asserted then Err(AssertionChanged)
         else if filled then Err(ExpectedResultChanged)
         else if invalid.Some? then Err(InvalidProgram(invalid.value))
         else Ok(HealedProgram(next, Max(1, Min(U32_MAX, currentRevision + 1)), seal));
  }

  lemma {:induction false} FirstErrorStays(steps: seq<TestAction>, edits: seq<HealEdit>, i: nat)
    requires i <= |edits| && ApplyEdits(steps, edits[..i]).Err?
    ensures ApplyEdits(steps, edits) == ApplyEdits(steps, edits[..i])
    decreases |edits|
  {
    if i < |edits| {
      var shorter := edits[..|edits| - 1];
      assert shorter[..i] == edits[..i];
      FirstErrorStays(steps, shorter, i);
    } else {
      assert edits[..i] == edits;
    }
  }

  // ----- simulation -----

  lemma SameActionComposes(a: TestAction, b: TestAction, c: TestAction)
    requires SameAction(a, b) && SameAction(b, c)
    ensures SameAction(a, c)
  {
  }

  lemma {:induction false} SimulatesItself(steps: seq<TestAction>)
    ensures Simulates(steps, steps)
  {
    if steps != [] {
      SimulatesItself(steps[..|steps| - 1]);
    }
  }

  /** Healing a healed program heals the original. */
  lemma {:induction false} SimulationComposes(a: seq<TestAction>, b: seq<TestAction>, c: seq<TestAction>)
    requires Simulates(a, b) && Simulates(b, c)
    ensures Simulates(a, c)
    decreases |c|, |b|
  {
    hide SameAction;
    if c != [] {
      var k := |c| - 1;
      if c[k].Wait? && Simulates(b, c[..k]) {
        SimulationComposes(a, b, c[..k]);
      } else {
        var m := |b| - 1;
        assert SameAction(b[m], c[k]) && Simulates(b[..m], c[..k]);
        if b[m].Wait? && Simulates(a, b[..m]) {
          SimulationComposes(a, b[..m], c[..k]);
          WaitStaysWait(b[m], c[k]);
        } else {
          SimulationComposes(a[..|a| - 1], b[..m], c[..k]);
          SameActionComposes(a[|a| - 1], b[m], c[k]);
        }
      }
    }
  }

  lemma WaitStaysWait(a: TestAction, b: TestAction)
    requires SameAction(a, b) && a.Wait?
    ensures b.Wait?
  {
  }

  lemma {:induction false} ExtendBoth(a: seq<TestAction>, b: seq<TestAction>, x: TestAction, y: TestAction)
    requires Simulates(a, b) && SameAction(x, y)
    ensures Simulates(a + [x], b + [y])
  {
    assert (a + [x])[..|a|] == a && (b + [y])[..|b|] == b;
  }

  lemma {:induction false} ExtendAll(a: seq<TestAction>, b: seq<TestAction>, tail: seq<TestAction>)
    requires Simulates(a, b)
    ensures Simulates(a + tail, b + tail)
  {
    if tail == [] {
      assert a + tail == a && b + tail == b;
    } else {
      var n := |tail| - 1;
      ExtendAll(a, b, tail[..n]);
      ExtendBoth(a + tail[..n], b + tail[..n], tail[n], tail[n]);
      assert a + tail == (a + tail[..n]) + [tail[n]] && b + tail == (b + tail[..n]) + [tail[n]];
    }
  }

  lemma RetargetKeepsAction(a: TestAction, observed: Target)
    requires RetargetStep(a, observed).Ok?
    ensures SameAction(a, RetargetStep(a, observed).value)
  {
  }

  lemma EditSimulates(steps: seq<TestAction>, edit: HealEdit)
    requires ApplyEdit(steps, edit).Ok?
    ensures Simulates(steps, ApplyEdit(steps, edit).value)
  {
    hide SameAction;
    match edit {
      case Retarget(i, target) =>
        RetargetKeepsAction(steps[i], target);
        hide RetargetStep;
        SimulatesItself(steps[..i]);
        var a := RetargetStep(steps[i], target).value;
        ExtendBoth(steps[..i], steps[..i], steps[i], a);
        ExtendAll(steps[..i] + [steps[i]], steps[..i] + [a], steps[i + 1..]);
        assert steps == steps[..i] + [steps[i]] + steps[i + 1..];
        assert steps[i := a] == steps[..i] + [a] + steps[i + 1..];
      case InsertWait(after, condition) =>
        var head, tail := steps[..after + 1], steps[after + 1..];
        SimulatesItself(head);
        assert (head + [Wait(condition)])[..|head|] == head;
        assert Simulates(head, head + [Wait(condition)]);
        ExtendAll(head, head + [Wait(condition)], tail);
        assert steps == head + tail;
    }
  }

  /** Whatever the edit list, the healed steps simulate the original ones. */
  lemma {:induction false} EditsSimulate(steps: seq<TestAction>, edits: seq<HealEdit>)
    requires ApplyEdits(steps, edits).Ok?
    ensures Simulates(steps, ApplyEdits(steps, edits).value)
  {
    hide ApplyEdit;
    if edits == [] {
      SimulatesItself(steps);
    } else {
      var before := edits[..|edits| - 1];
      EditsSimulate(steps, before);
      var middle := ApplyEdits(steps, before).value;
      EditSimulates(middle, edits[|edits| - 1]);
      SimulationComposes(steps, middle, ApplyEdits(steps, edits).value);
    }
  }

  lemma SameActionSameMeaning(a: TestAction, b: TestAction)
    requires SameAction(a, b)
    ensures AssertOf(a) == AssertOf(b) && ValueOf(a) == ValueOf(b)
  {
  }

  lemma WaitMeansNothing(a: TestAction)
    requires a.Wait?
    ensures AssertOf(a) == [] && ValueOf(a) == []
  {
  }

  /** A simulation asserts the same obligations and enters the same values, so the final guards never fire. */
  lemma {:induction false} SimulationKeepsMeaning(original: seq<TestAction>, healed: seq<TestAction>)
    requires Simulates(original, healed)
    ensures AssertSteps(original) == AssertSteps(healed) && FillValues(original) == FillValues(healed)
  {
    hide SameAction;
    hide AssertOf;
    hide ValueOf;
    if healed != [] {
      var m := |healed| - 1;
      if healed[m].Wait? && Simulates(original, healed[..m]) {
        SimulationKeepsMeaning(original, healed[..m]);
        WaitMeansNothing(healed[m]);
      } else {
        var n := |original| - 1;
        SimulationKeepsMeaning(original[..n], healed[..m]);
        SameActionSameMeaning(original[n], healed[m]);
      }
    }
  }

  // ----- chains of heals -----

  ghost predicate HealsTo(a: seq<TestAction>, b: seq<TestAction>) {
    exists edits :: ApplyEdits(a, edits) == Ok(b)
  }

  /** Each program of the chain is healed from the one before it. */
  ghost predicate HealChain(chain: seq<seq<TestAction>>) {
    forall i :: 0 < i < |chain| ==> HealsTo(chain[i - 1], chain[i])
  }

  /** Over any chain of heals the last program still simulates the first. */
  lemma {:induction false} ChainSimulates(chain: seq<seq<TestAction>>)
    requires chain != [] && HealChain(chain)
    ensures Simulates(chain[0], chain[|chain| - 1])
  {
    hide ApplyEdits;
    hide Simulates;
    if |chain| == 1 {
      SimulatesItself(chain[0]);
    } else {
      var n := |chain| - 1;
      ChainSimulates(chain[..n]);
      assert HealsTo(chain[n - 1], chain[n]);
      var edits :| ApplyEdits(chain[n - 1], edits) == Ok(chain[n]);
      EditsSimulate(chain[n - 1], edits);
      SimulationComposes(chain[0], chain[n - 1], chain[n]);
    }
  }

  /** Without its waits a simulation has exactly the original's actions that are not waits, in order. */
  lemma {:induction false} SimulationWithoutWaits(original: seq<TestAction>, healed: seq<TestAction>)
    requires Simulates(original, healed)
    ensures var a, b := WithoutWaits(original), WithoutWaits(healed);
            |a| == |b| && forall i :: 0 <= i < |a| ==> SameAction(a[i], b[i])
  {
    hide SameAction;
    if healed != [] {
      var m := |healed| - 1;
      if healed[m].Wait? && Simulates(original, healed[..m]) {
        SimulationWithoutWaits(original, healed[..m]);
      } else {
        var n := |original| - 1;
        SimulationWithoutWaits(original[..n], healed[..m]);
        WaitMatchesWait(original[n], healed[m]);
      }
    }
  }

  lemma WaitMatchesWait(a: TestAction, b: TestAction)
    requires SameAction(a, b)
    ensures a.Wait? <==> b.Wait?
  {
  }

  function WithoutWaits(steps: seq<TestAction>): seq<TestAction> {
    if steps == [] then []
    else
      var n := |steps| - 1;
      WithoutWaits(steps[..n]) + if steps[n].Wait? then [] else [steps[n]]
  }
}
