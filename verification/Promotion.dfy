/** Recorded behaviour traces and their promotion into test programs. */
module Promotion {
  import opened Words
  import opened Options
  import opened Sequences
  import opened Selections
  import opened Programs

  datatype BehaviorState = BehaviorState(
    route: string,
    actor: Option<string>,
    component: Option<string>,
    modal: Option<string>,
    networkPhase: Option<string>,
    dataClass: Option<string>,
    featureFlags: map<string, string>,
    a11yDigest: Option<string>,
    viewport: Option<string>)

  function Present(o: Option<string>): Option<string> {
    if o == Some("") then None else o
  }

  /** State identity: the canonical form that is hashed. Empty optional texts are absent. */
  function Digest(s: BehaviorState): BehaviorState {
    BehaviorState(s.route, Present(s.actor), Present(s.component), Present(s.modal), Present(s.networkPhase),
                  Present(s.dataClass), s.featureFlags, Present(s.a11yDigest), Present(s.viewport))
  }

  predicate Blank(o: Option<string>) {
    o == None || o == Some("")
  }

  predicate SameText(a: Option<string>, b: Option<string>) {
    a == b || (Blank(a) && Blank(b))
  }

  /** Equal in all nine fields, an empty optional text being no text. */
  predicate SameState(a: BehaviorState, b: BehaviorState) {
    && a.route == b.route && a.featureFlags == b.featureFlags
    && SameText(a.actor, b.actor) && SameText(a.component, b.component) && SameText(a.modal, b.modal)
    && SameText(a.networkPhase, b.networkPhase) && SameText(a.dataClass, b.dataClass)
    && SameText(a.a11yDigest, b.a11yDigest) && SameText(a.viewport, b.viewport)
  }

  /** The digest tells states apart exactly by their fields. */
  lemma DigestsAgreeExactlyWhen(a: BehaviorState, b: BehaviorState)
    ensures Digest(a) == Digest(b) <==> SameState(a, b)
  {
  }

  datatype RecordedEvent = RecordedEvent(action: TestAction, after: BehaviorState)

  datatype BehaviorTrace = BehaviorTrace(
    sessionId: string,
    fixture: Option<string>,
    seed: Option<u64>,
    data: map<string, Fixture>,
    obligations: seq<string>,
    initial: BehaviorState,
    events: seq<RecordedEvent>)

  /** The digest before event i. */
  function Before(t: BehaviorTrace, i: nat): BehaviorState
    requires i < |t.events|
  {
    Digest(if i == 0 then t.initial else t.events[i - 1].after)
  }

  /** Event i is an interaction that changed the state. */
  predicate Measured(t: BehaviorTrace, i: nat)
    requires i < |t.events|
  {
    !t.events[i].action.Assert? && Digest(t.events[i].after) != Before(t, i)
  }

  /** The steps promotion keeps from a suffix of the events. */
  function Kept(events: seq<RecordedEvent>, prev: BehaviorState, asserted: set<string>): seq<TestAction>
    decreases |events|
  {
    if events == [] then []
    else
      var action, next := events[0].action, Digest(events[0].after);
      match action
      case Assert(o) => (if o in asserted then [] else [action]) + Kept(events[1..], next, asserted + {o})
      case _ => (if next != prev then [action] else []) + Kept(events[1..], next, asserted)
  }

  /** Assertions for declared obligations not asserted yet, in declaration order, each once. */
  function Missing(obligations: seq<string>, asserted: set<string>): seq<TestAction>
    decreases |obligations|
  {
    if obligations == [] then []
    else
      (if obligations[0] in asserted then [] else [Assert(obligations[0])])
      + Missing(obligations[1..], asserted + {obligations[0]})
  }

  function RecordedAsserts(events: seq<RecordedEvent>): set<string> {
    set i | 0 <= i < |events| && events[i].action.Assert? :: events[i].action.obligation
  }

  function PromotedSteps(t: BehaviorTrace): seq<TestAction> {
    Kept(t.events, Digest(t.initial), {}) + Missing(t.obligations, RecordedAsserts(t.events))
  }

  function PromotedProgram(t: BehaviorTrace, id: string): TestProgram {
    TestProgram(1, id, Recorded, t.obligations, [], PromotedSteps(t), t.data, map[], map[], t.seed)
  }

  /** Exactly the traces that promotion accepts. */
  ghost predicate Promotable(t: BehaviorTrace) {
    && t.obligations != []
    && (forall i :: 0 <= i < |t.events| && t.events[i].action.Assert? ==>
        t.events[i].action.obligation in t.obligations)
    && (exists i :: 0 <= i < |t.events| && Measured(t, i))
    && (forall i :: 0 <= i < |t.events| && Measured(t, i) ==>
          ValidAction(t.events[i].action) && Registered(t.events[i].action, PromotedProgram(t, "")))
  }

  /** The recorded state before event k. */
  function StateBefore(t: BehaviorTrace, k: nat): BehaviorState
    requires k < |t.events|
  {
    if k == 0 then t.initial else t.events[k - 1].after
  }

  /** An assertion is kept where it is first recorded, any other action where a field of the state changes. */
  ghost predicate KeepsEvent(t: BehaviorTrace, k: nat) {
    k < |t.events| &&
    if t.events[k].action.Assert? then forall i :: 0 <= i < k ==> t.events[i].action != t.events[k].action
    else !SameState(StateBefore(t, k), t.events[k].after)
  }

  // ----- the recorder -----

  class Recorder {
    const sessionId: string
    const fixture: Option<string>
    const seed: Option<u64>
    var initial: Option<BehaviorState>
    var current: Option<BehaviorState>
    var events: seq<RecordedEvent>
    var obligations: set<string>
    var data: map<string, Fixture>

    /** Everything recorded is a valid action, and nothing is recorded before the start. */
    ghost predicate Valid()
      reads this
    {
      && (forall e :: e in events ==> ValidAction(e.action))
      && (initial.None? ==> events == [])
      && (initial.Some? <==> current.Some?)
    }

    constructor (sessionId: string, fixture: Option<string>, seed: Option<u64>)
      ensures Valid() && initial.None? && obligations == {} && data == map[]
      ensures this.sessionId == sessionId && this.fixture == fixture && this.seed == seed
    {
      this.sessionId, this.fixture, this.seed := sessionId, fixture, seed;
      initial, current, events, obligations, data := None, None, [], {}, map[];
    }

    method Start(state: BehaviorState)
      requires Valid()
      modifies this`initial, this`current
      ensures Valid() && initial == current == Some(state)
    {
      initial, current := Some(state), Some(state);
    }

    method Step(action: TestAction, after: BehaviorState) returns (ok: bool)
      requires Valid()
      modifies this`current, this`events
      ensures Valid() && (ok <==> ValidAction(action) && initial.Some?)
      ensures events == if ok then old(events) + [RecordedEvent(action, after)] else old(events)
      ensures current == if ok then Some(after) else old(current)
    {
      ok := ValidAction(action) && initial.Some?;
      if ok {
        current, events := Some(after), events + [RecordedEvent(action, after)];
      }
    }

    method LinkObligation(id: string)
      requires Valid()
      modifies this`obligations
      ensures Valid() && obligations == old(obligations) + {id}
    {
      obligations := obligations + {id};
    }

    method LinkFixture(name: string, value: Fixture)
      requires Valid()
      modifies this`data
      ensures Valid() && data == old(data)[name := value]
    {
      data := data[name := value];
    }

    /** The finished session; the obligations are listed in some order, each once. */
    method Finish(order: seq<string>) returns (r: Option<BehaviorTrace>)
      requires Valid()
      requires (forall o :: o in order <==> o in obligations) && forall i, j :: 0 <= i < j < |order| ==>
                 order[i] != order[j]
      ensures r.None? <==> initial.None?
      ensures r.Some? ==> r.value == BehaviorTrace(sessionId, fixture, seed, data, order, initial.value, events)
      ensures r.Some? ==> forall e :: e in r.value.events ==> ValidAction(e.action)
    {
      if initial.None? { return None; }
      r := Some(BehaviorTrace(sessionId, fixture, seed, data, order, initial.value, events));
    }
  }

  // ----- promotion -----

  lemma RecordedAppend(events: seq<RecordedEvent>, e: RecordedEvent)
    ensures RecordedAsserts(events + [e]) == RecordedAsserts(events) + if e.action.Assert? then {e.action.obligation}
              else {}
  {
    var all := events + [e];
    assert all[|events|] == e;
    forall o | o in RecordedAsserts(events) ensures o in RecordedAsserts(all) {
      var i :| 0 <= i < |events| && events[i].action.Assert? && events[i].action.obligation == o;
      assert all[i] == events[i];
    }
  }

  function MeasuredUpTo(t: BehaviorTrace, n: nat): nat
    requires n <= |t.events|
  {
    if n == 0 then 0 else MeasuredUpTo(t, n - 1) + if Measured(t, n - 1) then 1 else 0
  }

  lemma {:induction false} MeasuredSome(t: BehaviorTrace, n: nat)
    requires n <= |t.events|
    ensures MeasuredUpTo(t, n) > 0 <==> exists i :: 0 <= i < n && Measured(t, i)
  {
    hide Measured;
    if n > 0 {
      MeasuredSome(t, n - 1);
      assert MeasuredUpTo(t, n) > 0 ==> Measured(t, n - 1) || MeasuredUpTo(t, n - 1) > 0;
    }
  }

  lemma NoEvents(t: BehaviorTrace)
    ensures RecordedAsserts(t.events[..0]) == {}
  {
  }

  lemma KeptUnfolds(t: BehaviorTrace, i: nat, prev: BehaviorState, asserted: set<string>)
    requires i < |t.events|
    ensures var action, next := t.events[i].action, Digest(t.events[i].after);
            var kept := if action.Assert? then action.obligation !in asserted else next != prev;
            Kept(t.events[i..], prev, asserted)
              == (if kept then [action] else []) + Kept(t.events[i + 1..], next, AssertedAfter(action, asserted))
  {
    hide Digest;
    assert t.events[i..][1..] == t.events[i + 1..];
  }

  datatype Scan = Scan(steps: seq<TestAction>, measured: nat)

  method KeepSteps(t: BehaviorTrace) returns (r: Result<Scan, ProgramError>, asserted: set<string>)
    ensures r.Ok? <==> forall i :: 0 <= i < |t.events| && t.events[i].action.Assert? ==>
              t.events[i].action.obligation in t.obligations
    ensures r.Ok? ==> r.value.steps == Kept(t.events, Digest(t.initial), {}) && asserted == RecordedAsserts(t.events)
    ensures r.Ok? ==> r.value.measured == MeasuredUpTo(t, |t.events|)
  {
    hide Digest, RecordedAsserts, Kept;
    var steps: seq<TestAction>, measured, prev := [], 0, Digest(t.initial);
    asserted := {};
    NoEvents(t);
    ghost var ahead := Kept(t.events, prev, {});
    assert t.events[0..] == t.events;
    for i := 0 to |t.events|
      invariant Kept(t.events, Digest(t.initial), {}) == steps + ahead
      invariant ahead == Kept(t.events[i..], prev, asserted)
      invariant asserted == RecordedAsserts(t.events[..i])
      invariant prev == PrevAt(t, i)
      invariant measured == MeasuredUpTo(t, i)
      invariant forall k :: 0 <= k < i && t.events[k].action.Assert? ==> t.events[k].action.obligation in t.obligations
    {
      var event := t.events[i];
      var next := Digest(event.after);
      KeptUnfolds(t, i, prev, asserted);
      RecordedAppend(t.events[..i], event);
      assert t.events[..i + 1] == t.events[..i] + [event];
      ghost var before, was := steps, ahead;
      match event.action {
        case Assert(obligation) =>
          if obligation !in t.obligations {
            return Err(Undeclared(obligation)), asserted;
          }
          if obligation !in asserted {
            steps := steps + [event.action];
          }
          asserted := asserted + {obligation};
        case _ =>
          assert Measured(t, i) <==> next != prev;
          if next != prev {
            steps := steps + [event.action];
            measured := measured + 1;
          }
      }
      prev := next;
      ahead := Kept(t.events[i + 1..], prev, asserted);
      assert was == steps[|before|..] + ahead;
      assert steps == before + steps[|before|..];
      ConcatAssociates(before, steps[|before|..], ahead);
    }
    NothingKept(t, asserted);
    assert t.events[..|t.events|] == t.events;
    r := Ok(Scan(steps, measured));
  }

  method AppendMissing(steps: seq<TestAction>, obligations: seq<string>, recorded: set<string>)
    returns (r: seq<TestAction>)
    ensures r == steps + Missing(obligations, recorded)
  {
    r := steps;
    var asserted := recorded;
    ghost var ahead := Missing(obligations, recorded);
    for i := 0 to |obligations|
      invariant r + ahead == steps + Missing(obligations, recorded)
      invariant ahead == Missing(obligations[i..], asserted)
    {
      assert obligations[i..][1..] == obligations[i + 1..];
      if obligations[i] !in asserted {
        r := r + [Assert(obligations[i])];
      }
      asserted := asserted + {obligations[i]};
      ahead := Missing(obligations[i + 1..], asserted);
    }
  }

  /** Promotion succeeds on exactly the promotable traces, and then yields the promoted program, which is valid. */
  method Promote(t: BehaviorTrace, id: string) returns (r: Result<TestProgram, ProgramError>)
    ensures r.Ok? <==> Promotable(t)
    ensures r.Ok? ==> r.value == PromotedProgram(t, id) && ValidProgram(r.value)
  {
    hide Measured;
    hide ValidProgram;
    var scan, asserted := KeepSteps(t);
    if scan.Err? { return Err(scan.error); }
    MeasuredSome(t, |t.events|);
    if scan.value.measured == 0 { return Err(NoMeasuredSteps); }
    var steps := AppendMissing(scan.value.steps, t.obligations, asserted);
    var program := TestProgram(1, id, Recorded, t.obligations, [], steps, t.data, map[], map[], t.seed);
    var error := Validate(program);
    PromotedIsValidExactlyWhen(t, id);
    if error.Some? { return Err(error.value); }
    r := Ok(program);
  }

  lemma AssertedFirst(events: seq<RecordedEvent>)
    requires events != []
    ensures RecordedAsserts(events)
         == RecordedAsserts(events[1..]) + if events[0].action.Assert? then {events[0].action.obligation} else {}
  {
    var rest := events[1..];
    forall o | o in RecordedAsserts(rest) ensures o in RecordedAsserts(events) {
      var i :| 0 <= i < |rest| && rest[i].action.Assert? && rest[i].action.obligation == o;
      assert events[i + 1] == rest[i];
    }
    forall o | o in RecordedAsserts(events) && !(events[0].action.Assert? && events[0].action.obligation == o)
      ensures o in RecordedAsserts(rest)
    {
      var i :| 0 <= i < |events| && events[i].action.Assert? && events[i].action.obligation == o;
      assert rest[i - 1] == events[i];
    }
  }

  /** An obligation is kept asserted once, at its first recorded assertion. */
  lemma {:induction false} KeptAssertsOnce(events: seq<RecordedEvent>, prev: BehaviorState, asserted: set<string>,
                                           o: string)
    ensures multiset(Kept(events, prev, asserted))[Assert(o)] == if o in RecordedAsserts(events) && o !in asserted
              then 1 else 0
    decreases |events|
  {
    hide Digest;
    if events != [] {
      AssertedFirst(events);
      var next := Digest(events[0].after);
      match events[0].action {
        case Assert(p) => KeptAssertsOnce(events[1..], next, asserted + {p}, o);
        case _ => KeptAssertsOnce(events[1..], next, asserted, o);
      }
    }
  }

  lemma {:induction false} MissingAssertsOnce(obligations: seq<string>, asserted: set<string>, a: TestAction)
    ensures multiset(Missing(obligations, asserted))[a]
         == if a.Assert? && a.obligation in obligations && a.obligation !in asserted then 1 else 0
    decreases |obligations|
  {
    if obligations != [] {
      MissingAssertsOnce(obligations[1..], asserted + {obligations[0]}, a);
    }
  }

  /** Every declared obligation is asserted exactly once, and nothing else is. */
  lemma AssertsEachObligationOnce(t: BehaviorTrace, o: string)
    requires Promotable(t)
    ensures multiset(PromotedSteps(t))[Assert(o)] == if o in t.obligations then 1 else 0
  {
    hide Measured;
    KeptAssertsOnce(t.events, Digest(t.initial), {}, o);
    MissingAssertsOnce(t.obligations, RecordedAsserts(t.events), Assert(o));
  }

  function PrevAt(t: BehaviorTrace, i: nat): BehaviorState
    requires i <= |t.events|
  {
    Digest(if i == 0 then t.initial else t.events[i - 1].after)
  }

  function AssertedAfter(action: TestAction, asserted: set<string>): set<string> {
    if action.Assert? then asserted + {action.obligation} else asserted
  }

  lemma KeptStep(t: BehaviorTrace, i: nat, asserted: set<string>, a: TestAction)
    requires i < |t.events| && !a.Assert?
    ensures a in Kept(t.events[i..], PrevAt(t, i), asserted)
       <==> (Measured(t, i) && t.events[i].action == a)
            || a in Kept(t.events[i + 1..], PrevAt(t, i + 1), AssertedAfter(t.events[i].action, asserted))
  {
    hide Digest;
    assert t.events[i..][1..] == t.events[i + 1..];
  }

  lemma NothingKept(t: BehaviorTrace, asserted: set<string>)
    ensures Kept(t.events[|t.events|..], PrevAt(t, |t.events|), asserted) == []
  {
  }

  /** A kept step is a recorded assertion or a measured interaction. */
  lemma {:induction false} KeptFrom(t: BehaviorTrace, i: nat, asserted: set<string>, a: TestAction)
    requires i <= |t.events| && !a.Assert?
    ensures a in Kept(t.events[i..], PrevAt(t, i), asserted)
       <==> exists k :: i <= k < |t.events| && Measured(t, k) && t.events[k].action == a
    decreases |t.events| - i
  {
    hide Kept;
    hide Measured;
    hide PrevAt;
    if i < |t.events| {
      KeptStep(t, i, asserted, a);
      KeptFrom(t, i + 1, AssertedAfter(t.events[i].action, asserted), a);
    } else {
      NothingKept(t, asserted);
    }
  }

  lemma PromotedInteractions(t: BehaviorTrace, a: TestAction)
    requires !a.Assert?
    ensures a in PromotedSteps(t) <==> exists k :: 0 <= k < |t.events| && Measured(t, k) && t.events[k].action == a
    ensures a in PromotedSteps(t) <==>
              exists k :: 0 <= k < |t.events| && t.events[k].action == a
                  && !SameState(StateBefore(t, k), t.events[k].after)
  {
    forall k | 0 <= k < |t.events| && t.events[k].action == a
      ensures Measured(t, k) <==> !SameState(StateBefore(t, k), t.events[k].after)
    {
      DigestsAgreeExactlyWhen(StateBefore(t, k), t.events[k].after);
    }
    hide Measured;
    KeptFrom(t, 0, {}, a);
    assert t.events[0..] == t.events;
    MissingAssertsOnce(t.obligations, RecordedAsserts(t.events), a);
    assert a in Missing(t.obligations, RecordedAsserts(t.events)) <==>
        a in multiset(Missing(t.obligations, RecordedAsserts(t.events)));
  }

  lemma PromotedAssertions(t: BehaviorTrace, o: string)
    ensures o in Asserted(PromotedSteps(t)) <==> o in t.obligations || o in RecordedAsserts(t.events)
    ensures Assert(o) in PromotedSteps(t) <==> o in Asserted(PromotedSteps(t))
  {
    var kept, missing := Kept(t.events, Digest(t.initial), {}), Missing(t.obligations, RecordedAsserts(t.events));
    KeptAssertsOnce(t.events, Digest(t.initial), {}, o);
    MissingAssertsOnce(t.obligations, RecordedAsserts(t.events), Assert(o));
    assert Assert(o) in kept <==> Assert(o) in multiset(kept);
    assert Assert(o) in missing <==> Assert(o) in multiset(missing);
    var steps := PromotedSteps(t);
    if Assert(o) in steps {
      var i :| 0 <= i < |steps| && steps[i] == Assert(o);
      assert o in Asserted(steps);
    }
  }

  // ----- the promoted steps, event by event -----

  ghost function KeptEvents(t: BehaviorTrace): nat -> bool {
    (k: nat) => KeepsEvent(t, k)
  }

  ghost function AddedAssertions(t: BehaviorTrace): nat -> bool {
    (k: nat) => AddsAssertion(t, k)
  }

  lemma KeptAt(t: BehaviorTrace, i: nat)
    requires i < |t.events|
    ensures Kept(t.events[i..], PrevAt(t, i), RecordedAsserts(t.events[..i]))
         == (if KeepsEvent(t, i) then [t.events[i].action] else [])
            + Kept(t.events[i + 1..], PrevAt(t, i + 1), RecordedAsserts(t.events[..i + 1]))
  {
    var action, asserted := t.events[i].action, RecordedAsserts(t.events[..i]);
    KeptUnfolds(t, i, PrevAt(t, i), asserted);
    assert t.events[..i + 1] == t.events[..i] + [t.events[i]];
    RecordedAppend(t.events[..i], t.events[i]);
    DigestsAgreeExactlyWhen(StateBefore(t, i), t.events[i].after);
    assert PrevAt(t, i) == Digest(StateBefore(t, i)) && PrevAt(t, i + 1) == Digest(t.events[i].after);
    assert RecordedAsserts(t.events[..i + 1]) == AssertedAfter(action, asserted);
    if action.Assert? {
      RecordedEarlier(t, i, action.obligation);
    }
    hide Kept, Digest, SameState, RecordedAsserts;
  }

  lemma RecordedEarlier(t: BehaviorTrace, i: nat, o: string)
    requires i <= |t.events|
    ensures o in RecordedAsserts(t.events[..i]) <==> exists k :: 0 <= k < i && t.events[k].action == Assert(o)
  {
    if k :| 0 <= k < i && t.events[k].action == Assert(o) {
      assert t.events[..i][k].action.Assert?;
    }
  }

  function RecordedActions(t: BehaviorTrace): seq<TestAction> {
    seq(|t.events|, i requires 0 <= i < |t.events| => t.events[i].action)
  }

  lemma {:induction false} KeptIsSelected(t: BehaviorTrace, i: nat) returns (ks: seq<nat>)
    requires i <= |t.events|
    ensures Picks(ks, i, |t.events|, KeptEvents(t)) && Within(ks, |t.events|)
    ensures Kept(t.events[i..], PrevAt(t, i), RecordedAsserts(t.events[..i])) == Chosen(RecordedActions(t), ks)
    decreases |t.events| - i
  {
    hide Kept, KeepsEvent, PrevAt, RecordedAsserts, Picks;
    if i == |t.events| {
      ks := [];
      NothingKept(t, RecordedAsserts(t.events[..i]));
      PicksNone(i, |t.events|, KeptEvents(t));
    } else {
      var later := KeptIsSelected(t, i + 1);
      KeptAt(t, i);
      PicksOneMore(later, i, |t.events|, KeptEvents(t));
      ChosenOneMore(RecordedActions(t), later, i);
      ks := if KeepsEvent(t, i) then [i] + later else later;
    }
  }

  /** An obligation that no event asserts, where it is first declared. */
  ghost predicate AddsAssertion(t: BehaviorTrace, k: nat) {
    && k < |t.obligations|
    && (forall i :: 0 <= i < |t.events| ==> t.events[i].action != Assert(t.obligations[k]))
    && (forall j :: 0 <= j < k ==> t.obligations[j] != t.obligations[k])
  }

  function DeclaredAssertions(t: BehaviorTrace): seq<TestAction> {
    seq(|t.obligations|, k requires 0 <= k < |t.obligations| => Assert(t.obligations[k]))
  }

  function AssertedBy(t: BehaviorTrace, i: nat): set<string>
    requires i <= |t.obligations|
  {
    RecordedAsserts(t.events) + set j | 0 <= j < i :: t.obligations[j]
  }

  lemma MissingAt(t: BehaviorTrace, i: nat)
    requires i < |t.obligations|
    ensures Missing(t.obligations[i..], AssertedBy(t, i))
         == (if AddsAssertion(t, i) then [Assert(t.obligations[i])] else [])
            + Missing(t.obligations[i + 1..], AssertedBy(t, i + 1))
  {
    var o := t.obligations[i];
    assert t.obligations[i..][1..] == t.obligations[i + 1..];
    assert AssertedBy(t, i) + {o} == AssertedBy(t, i + 1);
    assert t.events[..|t.events|] == t.events;
    RecordedEarlier(t, |t.events|, o);
  }

  lemma {:induction false} MissingIsSelected(t: BehaviorTrace, i: nat) returns (ks: seq<nat>)
    requires i <= |t.obligations|
    ensures Picks(ks, i, |t.obligations|, AddedAssertions(t)) && Within(ks, |t.obligations|)
    ensures Missing(t.obligations[i..], AssertedBy(t, i)) == Chosen(DeclaredAssertions(t), ks)
    decreases |t.obligations| - i
  {
    hide AddsAssertion, AssertedBy, Picks;
    if i == |t.obligations| {
      ks := [];
      PicksNone(i, |t.obligations|, AddedAssertions(t));
    } else {
      var later := MissingIsSelected(t, i + 1);
      MissingAt(t, i);
      PicksOneMore(later, i, |t.obligations|, AddedAssertions(t));
      ChosenOneMore(DeclaredAssertions(t), later, i);
      ks := if AddsAssertion(t, i) then [i] + later else later;
    }
  }

  /**
   * The promoted steps in order: the kept events as recorded, then an assertion for each obligation
   * that no event asserts, where it is first declared.
   */
  lemma PromotedStepsAre(t: BehaviorTrace) returns (kept: seq<nat>, missing: seq<nat>)
    ensures Picks(kept, 0, |t.events|, KeptEvents(t)) && Within(kept, |t.events|)
    ensures Picks(missing, 0, |t.obligations|, AddedAssertions(t)) && Within(missing, |t.obligations|)
    ensures PromotedSteps(t) == Chosen(RecordedActions(t), kept) + Chosen(DeclaredAssertions(t), missing)
  {
    kept := KeptIsSelected(t, 0);
    missing := MissingIsSelected(t, 0);
    assert t.events[0..] == t.events && t.obligations[0..] == t.obligations;
    NoEvents(t);
    assert AssertedBy(t, 0) == RecordedAsserts(t.events);
    hide Kept, RecordedAsserts, Missing, Picks;
  }

  lemma RecordedIsDeclared(t: BehaviorTrace, o: string)
    requires forall i :: 0 <= i < |t.events| && t.events[i].action.Assert? ==>
               t.events[i].action.obligation in t.obligations
    ensures o in RecordedAsserts(t.events) ==> o in t.obligations
  {
  }

  /** Every step of the promoted program is valid exactly when every measured interaction is. */
  lemma PromotedStepsAreValidExactlyWhen(t: BehaviorTrace, p: TestProgram)
    requires forall i :: 0 <= i < |t.events| && t.events[i].action.Assert? ==>
               t.events[i].action.obligation in t.obligations
    requires p.obligations == t.obligations
    ensures (forall a :: a in PromotedSteps(t) ==> ValidAction(a) && Registered(a, p)) <==>
              forall i :: 0 <= i < |t.events| && Measured(t, i) ==>
                  ValidAction(t.events[i].action) && Registered(t.events[i].action, p)
  {
    hide Measured, ValidAction, PromotedSteps;
    forall a | a in PromotedSteps(t) && a.Assert? ensures ValidAction(a) && Registered(a, p) {
      AssertIsValid(a);
      PromotedAssertions(t, a.obligation);
      RecordedIsDeclared(t, a.obligation);
    }
    hide Registered;
    forall a: TestAction | !a.Assert?
      ensures a in PromotedSteps(t) <==> exists k :: 0 <= k < |t.events| && Measured(t, k) && t.events[k].action == a
    {
      PromotedInteractions(t, a);
    }
    forall i | 0 <= i < |t.events| && Measured(t, i)
      ensures !t.events[i].action.Assert? && t.events[i].action in PromotedSteps(t) {
      MeasuredInteracts(t, i);
    }
  }

  lemma PromotedCovers(t: BehaviorTrace, o: string)
    requires o in t.obligations
    ensures o in Asserted(PromotedSteps(t)) && PromotedSteps(t) != []
  {
    PromotedAssertions(t, o);
  }

  lemma PromotedHasSteps(t: BehaviorTrace, k: nat)
    requires k < |t.events| && Measured(t, k)
    ensures PromotedSteps(t) != []
  {
    MeasuredInteracts(t, k);
    PromotedInteractions(t, t.events[k].action);
  }

  lemma PromotedIsValidExactlyWhen(t: BehaviorTrace, id: string)
    requires forall i :: 0 <= i < |t.events| && t.events[i].action.Assert? ==>
               t.events[i].action.obligation in t.obligations
    requires exists i :: 0 <= i < |t.events| && Measured(t, i)
    ensures ValidProgram(PromotedProgram(t, id)) <==> Promotable(t)
  {
    hide Measured, ValidAction, PromotedSteps, Asserted;
    var p, q := PromotedProgram(t, id), PromotedProgram(t, "");
    assert forall a :: Registered(a, p) <==> Registered(a, q);
    hide Registered;
    assert p.preconditions + p.steps == p.steps == PromotedSteps(t);
    PromotedStepsAreValidExactlyWhen(t, p);
    forall o | o in t.obligations ensures o in Asserted(p.steps) {
      PromotedCovers(t, o);
    }
    var k :| 0 <= k < |t.events| && Measured(t, k);
    PromotedHasSteps(t, k);
  }

  lemma MeasuredInteracts(t: BehaviorTrace, i: nat)
    requires i < |t.events| && Measured(t, i)
    ensures !t.events[i].action.Assert?
  {
  }

  lemma AssertIsValid(a: TestAction)
    requires a.Assert?
    ensures ValidAction(a)
  {
  }
}
