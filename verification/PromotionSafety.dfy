/** For which traces promotion is safe on every host, hidden state included. */
module PromotionSafety {
  import opened Words
  import opened Options
  import opened Programs
  import opened Promotion
  import opened Replay

  /** No recorded assertion changed the digest; a host with read-only assertions shows nothing else. */
  predicate QuietAssertions(prev: BehaviorState, events: seq<RecordedEvent>)
    decreases |events|
  {
    events == [] ||
    ((events[0].action.Assert? ==> Digest(events[0].after) == prev)
     && QuietAssertions(Digest(events[0].after), events[1..]))
  }

  /** Every recorded interaction changed the digest, so promotion drops none. */
  predicate EveryInteractionShows(prev: BehaviorState, events: seq<RecordedEvent>)
    decreases |events|
  {
    events == [] ||
    ((!events[0].action.Assert? ==> Digest(events[0].after) != prev)
     && EveryInteractionShows(Digest(events[0].after), events[1..]))
  }

  /**
   * Every host of counters that realises the trace and only reads on assertions ends the promoted
   * program where it ends the trace.
   */
  ghost predicate PromotionIsSafe(t: BehaviorTrace, id: string) {
    forall h: Host<nat>, s: nat :: Realises(h, s, t) && AssertsAreReadOnly(h) ==>
      Final(h, s, PromotedProgram(t, id).steps) == Final(h, s, Actions(t.events))
  }

  lemma {:induction false} RealisedIsQuiet<S(!new)>(h: Host<S>, s: S, events: seq<RecordedEvent>)
    requires AssertsAreReadOnly(h) && Follows(h, s, events)
    ensures QuietAssertions(Seen(h, s), events)
    decreases |events|
  {
    hide Digest;
    if events != [] {
      if events[0].action.Assert? {
        assert h.apply(s, Assert(events[0].action.obligation)) == s;
      }
      RealisedIsQuiet(h, h.apply(s, events[0].action), events[1..]);
    }
  }

  lemma {:induction false} ShownInteractionsAreSilent<S(!new)>(h: Host<S>, s: S, events: seq<RecordedEvent>)
    requires AssertsAreReadOnly(h) && Follows(h, s, events) && EveryInteractionShows(Seen(h, s), events)
    ensures LoopsAreSilent(h, s, events)
    decreases |events|
  {
    hide Digest;
    if events != [] {
      if events[0].action.Assert? {
        assert h.apply(s, Assert(events[0].action.obligation)) == s;
      }
      ShownInteractionsAreSilent(h, h.apply(s, events[0].action), events[1..]);
    }
  }

  // ----- a host that counts interactions -----

  function Interactions(steps: seq<TestAction>): nat
    decreases |steps|
  {
    if steps == [] then 0 else (if steps[0].Assert? then 0 else 1) + Interactions(steps[1..])
  }

  /** What is recorded after n interactions. */
  function Shown(prev: BehaviorState, events: seq<RecordedEvent>, n: nat): BehaviorState
    decreases |events|
  {
    if events == [] then prev
    else if events[0].action.Assert? then Shown(prev, events[1..], n)
    else if n == 0 then prev
    else Shown(events[0].after, events[1..], n - 1)
  }

  function Count(n: nat, a: TestAction): nat {
    if a.Assert? then n else n + 1
  }

  /** Its state is the number of interactions so far, and it shows what the trace recorded then. */
  function Counter(t: BehaviorTrace): Host<nat> {
    Host(Count, n => Shown(t.initial, t.events, n))
  }

  lemma {:induction false} ShownAtOnce(prev: BehaviorState, events: seq<RecordedEvent>)
    ensures Shown(prev, events, 0) == prev
    decreases |events|
  {
    if events != [] && events[0].action.Assert? {
      ShownAtOnce(prev, events[1..]);
    }
  }

  lemma CounterActs(t: BehaviorTrace, n: nat, a: TestAction)
    ensures Counter(t).apply(n, a) == Count(n, a)
    ensures Seen(Counter(t), n) == Digest(Shown(t.initial, t.events, n))
  {
  }

  /** From n interactions on, the trace shows what these events show. */
  ghost predicate Remaining(t: BehaviorTrace, n: nat, prev: BehaviorState, events: seq<RecordedEvent>) {
    forall k: nat :: Shown(t.initial, t.events, n + k) == Shown(prev, events, k)
  }

  lemma NowShown(t: BehaviorTrace, n: nat, prev: BehaviorState, events: seq<RecordedEvent>)
    requires Remaining(t, n, prev, events)
    ensures Shown(t.initial, t.events, n) == prev
  {
    ShownAtOnce(prev, events);
    assert Shown(t.initial, t.events, n + 0) == prev;
  }

  lemma RemainingAfter(t: BehaviorTrace, n: nat, prev: BehaviorState, events: seq<RecordedEvent>)
    requires events != [] && Remaining(t, n, prev, events)
    ensures if events[0].action.Assert? then Remaining(t, n, prev, events[1..])
            else Remaining(t, n + 1, events[0].after, events[1..])
  {
    var rest := events[1..];
    if events[0].action.Assert? {
      forall k: nat ensures Shown(t.initial, t.events, n + k) == Shown(prev, rest, k) {
        assert Shown(prev, events, k) == Shown(prev, rest, k);
      }
    } else {
      forall k: nat ensures Shown(t.initial, t.events, n + 1 + k) == Shown(events[0].after, rest, k) {
        assert Shown(t.initial, t.events, n + (1 + k)) == Shown(prev, events, 1 + k);
      }
    }
  }

  lemma {:induction false} CounterFollows(t: BehaviorTrace, n: nat, prev: BehaviorState, events: seq<RecordedEvent>)
    requires QuietAssertions(Digest(prev), events) && Remaining(t, n, prev, events)
    ensures Follows(Counter(t), n, events)
    decreases |events|
  {
    hide Digest, Counter, Seen, Shown, Remaining;
    if events != [] {
      var next, after := Count(n, events[0].action), if events[0].action.Assert? then prev else events[0].after;
      RemainingAfter(t, n, prev, events);
      NowShown(t, next, after, events[1..]);
      CounterActs(t, n, events[0].action);
      CounterActs(t, next, events[0].action);
      CounterFollows(t, next, after, events[1..]);
    }
  }

  lemma {:induction false} CounterCounts(t: BehaviorTrace, n: nat, steps: seq<TestAction>)
    ensures Final(Counter(t), n, steps) == n + Interactions(steps)
    decreases |steps|
  {
    if steps != [] {
      CounterCounts(t, Counter(t).apply(n, steps[0]), steps[1..]);
    }
  }

  lemma {:induction false} InteractionsJoin(a: seq<TestAction>, b: seq<TestAction>)
    ensures Interactions(a + b) == Interactions(a) + Interactions(b)
    decreases |a|
  {
    if a == [] {
      assert a + b == b;
    } else {
      assert (a + b)[1..] == a[1..] + b;
      InteractionsJoin(a[1..], b);
    }
  }

  lemma {:induction false} AssertionsAreNoInteractions(steps: seq<TestAction>)
    requires forall a :: a in steps ==> a.Assert?
    ensures Interactions(steps) == 0
    decreases |steps|
  {
    if steps != [] {
      AssertionsAreNoInteractions(steps[1..]);
    }
  }

  /** Promotion keeps every interaction exactly when every interaction shows. */
  lemma {:induction false} KeptInteractions(events: seq<RecordedEvent>, prev: BehaviorState, asserted: set<string>)
    ensures Interactions(Kept(events, prev, asserted)) <= Interactions(Actions(events))
    ensures Interactions(Kept(events, prev, asserted)) == Interactions(Actions(events)) <==>
              EveryInteractionShows(prev, events)
    decreases |events|
  {
    hide Digest;
    if events != [] {
      var action, next, rest := events[0].action, Digest(events[0].after), events[1..];
      var asserted' := if action.Assert? then asserted + {action.obligation} else asserted;
      assert Actions(events)[1..] == Actions(rest);
      KeptInteractions(rest, next, asserted');
      var later := Kept(rest, next, asserted');
      if Kept(events, prev, asserted) != later {
        assert Kept(events, prev, asserted) == [action] + later;
        assert ([action] + later)[1..] == later;
      }
    }
  }

  lemma CounterRealises(t: BehaviorTrace)
    requires QuietAssertions(Digest(t.initial), t.events)
    ensures Realises(Counter(t), 0, t) && AssertsAreReadOnly(Counter(t))
  {
    hide Digest;
    ShownAtOnce(t.initial, t.events);
    CounterFollows(t, 0, t.initial, t.events);
  }

  lemma PromotedInteractionCount(t: BehaviorTrace)
    ensures Interactions(PromotedSteps(t)) == Interactions(Actions(t.events)) <==>
              EveryInteractionShows(Digest(t.initial), t.events)
  {
    var missing := Missing(t.obligations, RecordedAsserts(t.events));
    MissingAreAsserts(t.obligations, RecordedAsserts(t.events));
    AssertionsAreNoInteractions(missing);
    InteractionsJoin(Kept(t.events, Digest(t.initial), {}), missing);
    KeptInteractions(t.events, Digest(t.initial), {});
  }

  /** A trace whose interactions all show is safe on any host, and shows the same digests up to stuttering. */
  lemma ShownTracesAreSafe<S(!new)>(t: BehaviorTrace, id: string, h: Host<S>, s: S)
    requires Realises(h, s, t) && AssertsAreReadOnly(h) && EveryInteractionShows(Digest(t.initial), t.events)
    ensures Final(h, s, PromotedProgram(t, id).steps) == Final(h, s, Actions(t.events))
    ensures Destutter(Visits(h, s, PromotedProgram(t, id).steps)) == Destutter(TraceDigests(t))
  {
    hide Digest, PromotedSteps, LoopsAreSilent, Follows;
    ShownInteractionsAreSilent(h, s, t.events);
    PromotionPreservesMeaning(t, id, h, s);
  }

  /**
   * Promotion is safe on every host exactly for the traces that record no invisible interaction;
   * a trace with an assertion that changed the digest has no host to be unsafe on.
   */
  lemma PromotionIsSafeExactlyWhen(t: BehaviorTrace, id: string)
    ensures PromotionIsSafe(t, id) <==>
              (QuietAssertions(Digest(t.initial), t.events) ==> EveryInteractionShows(Digest(t.initial), t.events))
  {
    hide Digest, QuietAssertions, EveryInteractionShows, PromotedSteps, LoopsAreSilent, Follows;
    if QuietAssertions(Digest(t.initial), t.events) && PromotionIsSafe(t, id) {
      CounterRealises(t);
      CounterCounts(t, 0, PromotedSteps(t));
      CounterCounts(t, 0, Actions(t.events));
      PromotedInteractionCount(t);
    }
    forall h: Host<nat>, s: nat | Realises(h, s, t) && AssertsAreReadOnly(h)
      ensures QuietAssertions(Digest(t.initial), t.events)
      ensures EveryInteractionShows(Digest(t.initial), t.events) ==>
                Final(h, s, PromotedProgram(t, id).steps) == Final(h, s, Actions(t.events))
    {
      RealisedIsQuiet(h, s, t.events);
      if EveryInteractionShows(Digest(t.initial), t.events) {
        ShownTracesAreSafe(t, id, h, s);
      }
    }
  }

  /** Counting hosts decide for all hosts: a trace that is safe on them is safe on every host, whatever its state. */
  lemma SafeOnEveryHost<S(!new)>(t: BehaviorTrace, id: string, h: Host<S>, s: S)
    requires PromotionIsSafe(t, id) && Realises(h, s, t) && AssertsAreReadOnly(h)
    ensures Final(h, s, PromotedProgram(t, id).steps) == Final(h, s, Actions(t.events))
    ensures Destutter(Visits(h, s, PromotedProgram(t, id).steps)) == Destutter(TraceDigests(t))
  {
    hide Digest, QuietAssertions, EveryInteractionShows, PromotionIsSafe, PromotedProgram, Follows;
    PromotionIsSafeExactlyWhen(t, id);
    RealisedIsQuiet(h, s, t.events);
    ShownTracesAreSafe(t, id, h, s);
  }
}
