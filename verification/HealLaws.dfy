/** What one heal edit does, in the fields of the target it changes and the steps around it. */
module HealLaws {
  import opened Words
  import opened Options
  import opened Programs
  import opened Heal

  // ----- a recovered target -----

  /** The observed text where there is one, else the previous one. */
  predicate Takes<T(==)>(observed: Option<T>, previous: Option<T>, now: Option<T>) {
    match observed
    case Some(x) => now == Some(x)
    case None => now == previous
  }

  predicate StartsAsXPath(css: Option<string>) {
    css.Some? && ("//" <= css.value || "/html" <= css.value)
  }

  predicate Unidentified(t: Target) {
    forall i :: 0 <= i < 6 ==> Identities(t)[i].None?
  }

  /** The observation contradicts a role or name that was set. */
  predicate Contradicts(previous: Target, observed: Target) {
    || (previous.role.Some? && observed.role.Some? && observed.role != previous.role)
    || (previous.accessibleName.Some? && observed.accessibleName.Some?
        && observed.accessibleName != previous.accessibleName)
  }

  /** Field by field: what was observed, and what is known from before. */
  predicate Recovers(previous: Target, observed: Target, now: Target) {
    && Takes(observed.role, previous.role, now.role)
        && Takes(observed.accessibleName, previous.accessibleName, now.accessibleName)
    && Takes(observed.labelText, previous.labelText, now.labelText)
        && Takes(observed.testId, previous.testId, now.testId)
    && Takes(observed.componentHint, previous.componentHint, now.componentHint)
    && Takes(observed.scope, previous.scope, now.scope)
        && Takes(observed.fallbackCss, previous.fallbackCss, now.fallbackCss)
  }

  /** The outcome of a recovery is decided by the two targets, the first failing rule first. */
  lemma RecoveryExactlyWhen(previous: Target, observed: Target)
    ensures var r := RecoverTarget(previous, observed);
            if StartsAsXPath(observed.fallbackCss) || StartsAsXPath(previous.fallbackCss) then r == Err(XPathIdentity)
            else if Unidentified(observed) && Unidentified(previous) then r == Err(EmptyTarget)
            else if Contradicts(previous, observed) then r == Err(ExpectedResultChanged)
            else r.Ok? && Recovers(previous, observed, r.value)
  {
    var now := Overlay(previous, observed);
    AnonymousExactlyWhen(now);
    AnonymousExactlyWhen(observed);
    AnonymousExactlyWhen(previous);
    hide Unidentified;
  }

  lemma AnonymousExactlyWhen(t: Target)
    ensures Anonymous(t) <==> Unidentified(t)
  {
    assert Identities(t)[0] == t.role && Identities(t)[1] == t.accessibleName && Identities(t)[2] == t.labelText;
    assert Identities(t)[3] == t.testId && Identities(t)[4] == t.componentHint && Identities(t)[5] == t.fallbackCss;
  }

  // ----- a retargeted step -----

  /** The same action on another target; what is typed, chosen, dropped on or uploaded stays. */
  predicate OnTarget(a: TestAction, b: TestAction, t: Target) {
    || (a.Activate? && b.Activate? && b.target == t)
    || (a.Fill? && b.Fill? && b.target == t && b.value == a.value)
    || (a.Select? && b.Select? && b.target == t && b.value == a.value)
    || (a.Hover? && b.Hover? && b.target == t)
    || (a.Scroll? && b.Scroll? && b.target == t)
    || (a.Drag? && b.Drag? && b.target == t && b.to == a.to)
    || (a.Upload? && b.Upload? && b.target == t && b.fixture == a.fixture)
    || (a.Download? && b.Download? && b.target == t)
    || (a.Popup? && b.Popup? && b.target == t)
  }

  predicate ActsOnTarget(a: TestAction) {
    !(a.Navigate? || a.Press? || a.Wait? || a.SetFeatureFlag? || a.InjectFault? || a.ApiCall? || a.SwitchTab?
      || a.Assert?)
  }

  /** A step that acts on a target takes over the recovered one or its error; an assertion is never touched. */
  lemma RetargetExactlyWhen(a: TestAction, observed: Target)
    ensures var r := RetargetStep(a, observed);
            if a.Assert? then r == Err(AssertionChanged)
            else if !ActsOnTarget(a) then r == Err(NotRetargetable)
            else
              match RecoverTarget(a.target, observed)
              case Err(e) => r == Err(e)
              case Ok(t) => r.Ok? && OnTarget(a, r.value, t)
  {
    hide RecoverTarget;
  }

  // ----- an edit among the other steps -----

  /** A retarget changes one step, a wait is inserted right after its step, and all other steps stay as they are. */
  lemma EditExactlyWhen(steps: seq<TestAction>, edit: HealEdit)
    ensures match (edit, ApplyEdit(steps, edit))
            case (Retarget(k, t), Ok(next)) =>
              && k < |steps| && |next| == |steps| && RetargetStep(steps[k], t) == Ok(next[k])
              && (forall j :: 0 <= j < |steps| && j != k ==> next[j] == steps[j])
            case (Retarget(k, t), Err(e)) =>
              if k >= |steps| then e.StepOutOfRange? else RetargetStep(steps[k], t) == Err(e)
            case (InsertWait(k, c), Ok(next)) =>
              && k < |steps| && |next| == |steps| + 1 && next[k + 1] == Wait(c)
              && (forall j :: 0 <= j <= k ==> next[j] == steps[j])
              && (forall j :: k < j < |steps| ==> next[j + 1] == steps[j])
            case (InsertWait(k, c), Err(e)) => k >= |steps| && e.WaitOutOfRange?
  {
    hide RetargetStep;
  }

  /** The edits are applied one after the other; the first that fails decides. */
  lemma {:induction false} EditsInOrder(steps: seq<TestAction>, edits: seq<HealEdit>, k: nat)
    requires k < |edits|
    ensures ApplyEdits(steps, []) == Ok(steps)
    ensures ApplyEdits(steps, edits[..k]).Ok? ==>
              ApplyEdits(steps, edits[..k + 1]) == ApplyEdit(ApplyEdits(steps, edits[..k]).value, edits[k])
    ensures ApplyEdits(steps, edits[..k]).Err? ==> ApplyEdits(steps, edits) == ApplyEdits(steps, edits[..k])
  {
    assert edits[..k + 1][..k] == edits[..k];
    hide ApplyEdit;
    if ApplyEdits(steps, edits[..k]).Err? {
      FirstErrorStays(steps, edits, k);
    }
  }

  // ----- what simulation means, place by place -----

  /** The same action, or the same on a target whose role and name, once set, are the same. */
  predicate Corresponds(a: TestAction, b: TestAction) {
    a == b
    || (ActsOnTarget(a) && ActsOnTarget(b) && OnTarget(a, b, b.target)
        && (a.target.role.None? || b.target.role == a.target.role)
        && (a.target.accessibleName.None? || b.target.accessibleName == a.target.accessibleName))
  }

  lemma SameActionExactlyWhen(a: TestAction, b: TestAction)
    ensures SameAction(a, b) <==> Corresponds(a, b)
  {
  }

  /** The original actions stand at these places of the healed steps, in order; all else is waiting. */
  ghost predicate Embeds(ks: seq<nat>, original: seq<TestAction>, healed: seq<TestAction>) {
    && |ks| == |original|
    && (forall i, j :: 0 <= i < j < |ks| ==> ks[i] < ks[j])
    && (forall i :: 0 <= i < |ks| ==> ks[i] < |healed| && Corresponds(original[i], healed[ks[i]]))
    && (forall k :: 0 <= k < |healed| && k !in ks ==> healed[k].Wait?)
  }

  lemma EmbedsOneWait(ks: seq<nat>, original: seq<TestAction>, healed: seq<TestAction>)
    requires healed != [] && (|healed| - 1) !in ks
    ensures Embeds(ks, original, healed) <==>
              healed[|healed| - 1].Wait? && Embeds(ks, original, healed[..|healed| - 1])
  {
    hide Corresponds;
    var m := |healed| - 1;
    if Embeds(ks, original, healed) {
      forall i | 0 <= i < |ks| ensures ks[i] < m {
        assert ks[i] in ks;
      }
    }
  }

  lemma EmbedsOneMore(ks: seq<nat>, original: seq<TestAction>, healed: seq<TestAction>)
    requires healed != [] && original != [] && ks != [] && ks[|ks| - 1] == |healed| - 1
    ensures Embeds(ks, original, healed) <==>
              Corresponds(original[|original| - 1], healed[|healed| - 1])
              && Embeds(ks[..|ks| - 1], original[..|original| - 1], healed[..|healed| - 1])
  {
    hide Corresponds;
    var n := |ks| - 1;
    assert ks == ks[..n] + [ks[n]];
    assert forall i :: 0 <= i < n ==> ks[..n][i] == ks[i];
    if |ks| == |original| {
      assert forall i :: 0 <= i < n ==> original[..n][i] == original[i];
    }
  }

  lemma LastPlace(ks: seq<nat>, original: seq<TestAction>, healed: seq<TestAction>)
    requires Embeds(ks, original, healed) && (|healed| - 1) in ks
    ensures healed != [] && original != [] && ks[|ks| - 1] == |healed| - 1
  {
    hide Corresponds;
    var i :| 0 <= i < |ks| && ks[i] == |healed| - 1;
    assert ks[i] <= ks[|ks| - 1];
  }

  /** Healed steps simulate exactly when the original actions can be found in them with only waits between. */
  lemma {:induction false} SimulatesExactlyWhen(original: seq<TestAction>, healed: seq<TestAction>)
    ensures Simulates(original, healed) <==> exists ks :: Embeds(ks, original, healed)
    decreases |healed|
  {
    if healed == [] {
      NothingEmbeds(original);
    } else {
      var m, n := |healed| - 1, |original| - 1;
      SimulatesExactlyWhen(original, healed[..m]);
      if original != [] {
        SimulatesExactlyWhen(original[..n], healed[..m]);
        SameActionExactlyWhen(original[n], healed[m]);
      }
      hide Embeds, SameAction, Corresponds;
      if ks :| Embeds(ks, original, healed) {
        EmbeddingShrinks(ks, original, healed);
      }
      if Simulates(original, healed) {
        EmbeddingGrows(original, healed);
      }
    }
  }

  lemma EmbeddingGrows(original: seq<TestAction>, healed: seq<TestAction>)
    requires healed != []
    requires var m, n := |healed| - 1, |original| - 1;
             || (healed[m].Wait? && exists ks :: Embeds(ks, original, healed[..m]))
             || (original != [] && Corresponds(original[n], healed[m])
                 && exists ks :: Embeds(ks, original[..n], healed[..m]))
    ensures exists ks :: Embeds(ks, original, healed)
  {
    hide Embeds, Corresponds;
    var m, n := |healed| - 1, |original| - 1;
    if healed[m].Wait? && exists ks :: Embeds(ks, original, healed[..m]) {
      var ks :| Embeds(ks, original, healed[..m]);
      NotYetPlaced(ks, original, healed[..m], m);
      EmbedsOneWait(ks, original, healed);
    } else {
      var ks :| Embeds(ks, original[..n], healed[..m]);
      assert (ks + [m as nat])[..|ks|] == ks;
      EmbedsOneMore(ks + [m], original, healed);
    }
  }

  lemma NothingEmbeds(original: seq<TestAction>)
    ensures (exists ks :: Embeds(ks, original, [])) <==> original == []
  {
    assert Embeds([], [], []);
    forall ks | Embeds(ks, original, []) ensures original == [] {
      FirstPlace(ks, original, []);
    }
  }

  lemma FirstPlace(ks: seq<nat>, original: seq<TestAction>, healed: seq<TestAction>)
    requires Embeds(ks, original, healed)
    ensures |ks| == |original| && (ks != [] ==> ks[0] < |healed|)
  {
    hide Corresponds;
  }

  lemma NotYetPlaced(ks: seq<nat>, original: seq<TestAction>, healed: seq<TestAction>, m: nat)
    requires Embeds(ks, original, healed) && m >= |healed|
    ensures m !in ks
  {
    hide Corresponds;
  }

  lemma EmbeddingShrinks(ks: seq<nat>, original: seq<TestAction>, healed: seq<TestAction>)
    requires healed != [] && Embeds(ks, original, healed)
    ensures var m, n := |healed| - 1, |original| - 1;
            || (healed[m].Wait? && Embeds(ks, original, healed[..m]))
            || (original != [] && ks != [] && Corresponds(original[n], healed[m])
                && Embeds(ks[..|ks| - 1], original[..n], healed[..m]))
  {
    hide Embeds, Corresponds;
    if (|healed| - 1) in ks {
      LastPlace(ks, original, healed);
      EmbedsFills(ks, original, healed);
      EmbedsOneMore(ks, original, healed);
    } else {
      EmbedsOneWait(ks, original, healed);
    }
  }

  lemma EmbedsFills(ks: seq<nat>, original: seq<TestAction>, healed: seq<TestAction>)
    requires Embeds(ks, original, healed)
    ensures |ks| == |original|
  {
  }

  // ----- what healing must not touch -----

  /** The step puts this text or file in. */
  predicate Puts(a: TestAction, text: string) {
    ((a.Fill? || a.Select?) && a.value == text) || (a.Upload? && a.fixture == text)
  }

  predicate PutsNothing(a: TestAction) {
    !a.Fill? && !a.Select? && !a.Upload?
  }

  /** The values stand, in order, at the steps that put something in. */
  ghost predicate ArePutAt(ks: seq<nat>, steps: seq<TestAction>, values: seq<string>) {
    && |values| == |ks|
    && (forall i, j :: 0 <= i < j < |ks| ==> ks[i] < ks[j])
    && (forall j :: 0 <= j < |ks| ==> ks[j] < |steps| && Puts(steps[ks[j]], values[j]))
    && (forall k :: 0 <= k < |steps| && k !in ks ==> PutsNothing(steps[k]))
  }

  /** The filled values are those of the filling, choosing and uploading steps, in order. */
  lemma {:induction false} FillValuesAre(steps: seq<TestAction>) returns (ks: seq<nat>)
    ensures ArePutAt(ks, steps, FillValues(steps))
  {
    if steps == [] {
      ks := [];
    } else {
      var n := |steps| - 1;
      ks := FillValuesAre(steps[..n]);
      assert steps == steps[..n] + [steps[n]];
      hide ArePutAt, ValueOf;
      ks := OnePutMore(ks, steps[..n], FillValues(steps[..n]), steps[n]);
    }
  }

  lemma OnePutMore(ks: seq<nat>, steps: seq<TestAction>, values: seq<string>, a: TestAction) returns (more: seq<nat>)
    requires ArePutAt(ks, steps, values)
    ensures ArePutAt(more, steps + [a], values + ValueOf(a))
  {
    var n: nat := |steps|;
    ValueIs(a);
    hide ValueOf, Puts, PutsNothing;
    if ValueOf(a) == [] {
      more := ks;
      assert values + [] == values;
    } else {
      more := ks + [n];
      assert ValueOf(a) == [ValueOf(a)[0]];
      assert forall k :: k in more <==> k in ks || k == n;
    }
  }

  lemma ValueIs(a: TestAction)
    ensures if PutsNothing(a) then ValueOf(a) == [] else |ValueOf(a)| == 1 && Puts(a, ValueOf(a)[0])
  {
  }

  /** The obligations stand, in order, at the steps that assert them. */
  ghost predicate AreAssertedAt(ks: seq<nat>, steps: seq<TestAction>, ids: seq<string>) {
    && |ids| == |ks|
    && (forall i, j :: 0 <= i < j < |ks| ==> ks[i] < ks[j])
    && (forall j :: 0 <= j < |ks| ==> ks[j] < |steps| && steps[ks[j]] == Assert(ids[j]))
    && (forall k :: 0 <= k < |steps| && k !in ks ==> !steps[k].Assert?)
  }

  /** The asserted obligations are those of the asserting steps, in order. */
  lemma {:induction false} AssertStepsAre(steps: seq<TestAction>) returns (ks: seq<nat>)
    ensures AreAssertedAt(ks, steps, AssertSteps(steps))
  {
    if steps == [] {
      ks := [];
    } else {
      var n := |steps| - 1;
      ks := AssertStepsAre(steps[..n]);
      assert steps == steps[..n] + [steps[n]];
      hide AreAssertedAt, AssertOf;
      ks := OneAssertMore(ks, steps[..n], AssertSteps(steps[..n]), steps[n]);
    }
  }

  lemma OneAssertMore(ks: seq<nat>, steps: seq<TestAction>, ids: seq<string>, a: TestAction) returns (more: seq<nat>)
    requires AreAssertedAt(ks, steps, ids)
    ensures AreAssertedAt(more, steps + [a], ids + AssertOf(a))
  {
    var n: nat := |steps|;
    if a.Assert? {
      more := ks + [n];
      assert forall k :: k in more <==> k in ks || k == n;
    } else {
      more := ks;
      assert ids + [] == ids;
    }
  }
}
