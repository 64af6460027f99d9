/** Replaying traces and promoted programs against a deterministic host. */
module Replay {
  import opened Words
  import opened Options
  import opened Programs
  import opened Promotion

  /** A deterministic host: how an action changes its state, and what of it can be observed. */
  datatype Host<!S> = Host(apply: (S, TestAction) -> S, observe: S -> BehaviorState)

  function Seen<S>(h: Host<S>, s: S): BehaviorState {
    Digest(h.observe(s))
  }

  /** The host states after each action. */
  function After<S>(h: Host<S>, s: S, actions: seq<TestAction>): seq<S> {
    if actions == [] then [] else [h.apply(s, actions[0])] + After(h, h.apply(s, actions[0]), actions[1..])
  }

  function Final<S>(h: Host<S>, s: S, actions: seq<TestAction>): S {
    if actions == [] then s else Final(h, h.apply(s, actions[0]), actions[1..])
  }

  /** The digests visited, the starting one included. */
  function Visits<S>(h: Host<S>, s: S, actions: seq<TestAction>): seq<BehaviorState> {
    [Seen(h, s)] + if actions == [] then [] else Visits(h, h.apply(s, actions[0]), actions[1..])
  }

  function Actions(events: seq<RecordedEvent>): (r: seq<TestAction>)
    ensures |r| == |events|
  {
    seq(|events|, i requires 0 <= i < |events| => events[i].action)
  }

  function EventDigests(events: seq<RecordedEvent>): (r: seq<BehaviorState>)
    ensures |r| == |events|
  {
    seq(|events|, i requires 0 <= i < |events| => Digest(events[i].after))
  }

  /** The digests of a trace, in visit order. */
  function TraceDigests(t: BehaviorTrace): seq<BehaviorState> {
    [Digest(t.initial)] + EventDigests(t.events)
  }

  /** Every event shows the digest it was recorded with. */
  predicate Follows<S>(h: Host<S>, s: S, events: seq<RecordedEvent>) {
    events == [] ||
    (Seen(h, h.apply(s, events[0].action)) == Digest(events[0].after)
     && Follows(h, h.apply(s, events[0].action), events[1..]))
  }

  /** Started in s, the host shows exactly the recorded digests. */
  predicate Realises<S>(h: Host<S>, s: S, t: BehaviorTrace) {
    Seen(h, s) == Digest(t.initial) && Follows(h, s, t.events)
  }

  /** A host follows the events exactly when it shows every recorded state, field by field. */
  lemma {:induction false} FollowsExactlyWhen<S>(h: Host<S>, s: S, events: seq<RecordedEvent>)
    ensures Follows(h, s, events) <==>
              forall i :: 0 <= i < |events| ==>
                  SameState(h.observe(Final(h, s, Actions(events)[..i + 1])), events[i].after)
    decreases |events|
  {
    hide SameState, Digest;
    if events != [] {
      var next, rest := h.apply(s, events[0].action), events[1..];
      FollowsExactlyWhen(h, next, rest);
      DigestsAgreeExactlyWhen(h.observe(next), events[0].after);
      assert Actions(events)[..1][1..] == [] && Actions(events)[..1][0] == events[0].action;
      forall i | 1 <= i < |events|
        ensures Final(h, s, Actions(events)[..i + 1]) == Final(h, next, Actions(rest)[..i])
      {
        assert Actions(events)[..i + 1][1..] == Actions(rest)[..i];
      }
      assert forall i :: 1 <= i < |events| ==> events[i] == rest[i - 1];
      assert forall i :: 0 <= i < |rest| ==> rest[i] == events[i + 1];
    }
  }

  predicate SeedsAgree(recorded: Option<u64>, requested: Option<u64>) {
    recorded.None? || requested.None? || recorded == requested
  }

  datatype ReplayError = SeedMismatch | FixtureMismatch | Diverged(at: nat) | InvalidProgram

  /** Replay a recorded session; it succeeds exactly when the host follows the recording. */
  method ReplayTrace<S(==)>(t: BehaviorTrace, fixture: Option<string>, seed: Option<u64>, h: Host<S>, start: S)
    returns (r: Result<seq<S>, ReplayError>)
    ensures r.Ok? <==> (t.seed.Some? && seed.Some? ==> t.seed == seed)
                       && (t.fixture.Some? && fixture.Some? ==> t.fixture == fixture)
                       && Follows(h, start, t.events)
    ensures r.Ok? ==> r.value == After(h, start, Actions(t.events))
  {
    hide Digest;
    if !SeedsAgree(t.seed, seed) { return Err(SeedMismatch); }
    if t.fixture.Some? && fixture.Some? && t.fixture != fixture { return Err(FixtureMismatch); }
    var states: seq<S>, s := [], start;
    var actions := Actions(t.events);
    for i := 0 to |t.events|
      invariant Follows(h, start, t.events) <==> Follows(h, s, t.events[i..])
      invariant After(h, start, actions) == states + After(h, s, actions[i..])
    {
      var next := h.apply(s, t.events[i].action);
      assert t.events[i..][1..] == t.events[i + 1..] && actions[i..][1..] == actions[i + 1..];
      if Digest(h.observe(next)) != Digest(t.events[i].after) { return Err(Diverged(i)); }
      assert states + ([next] + After(h, next, actions[i + 1..])) == (states + [next])
          + After(h, next, actions[i + 1..]);
      states, s := states + [next], next;
    }
    r := Ok(states);
  }

  method ReplayProgram<S>(p: TestProgram, seed: Option<u64>, h: Host<S>, start: S)
    returns (r: Result<seq<S>, ReplayError>)
    ensures r.Ok? <==> ValidProgram(p) && (p.seed.Some? && seed.Some? ==> p.seed == seed)
    ensures r.Ok? ==> r.value == After(h, start, p.steps)
  {
    hide ValidProgram;
    var invalid := Validate(p);
    if invalid.Some? { return Err(InvalidProgram); }
    if !SeedsAgree(p.seed, seed) { return Err(SeedMismatch); }
    var states: seq<S>, s := [], start;
    for i := 0 to |p.steps|
      invariant After(h, start, p.steps) == states + After(h, s, p.steps[i..])
    {
      assert p.steps[i..][1..] == p.steps[i + 1..];
      var next := h.apply(s, p.steps[i]);
      assert states + ([next] + After(h, next, p.steps[i + 1..])) == (states + [next])
          + After(h, next, p.steps[i + 1..]);
      states, s := states + [next], next;
    }
    r := Ok(states);
  }

  // ----- promotion preserves meaning -----

  /** A visit list without immediate repetitions. */
  function Destutter<T(==)>(xs: seq<T>): seq<T> {
    if |xs| <= 1 then xs
    else if xs[0] == xs[1] then Destutter(xs[1..])
    else [xs[0]] + Destutter(xs[1..])
  }

  ghost predicate AssertsAreReadOnly<S(!new)>(h: Host<S>) {
    forall s, o :: h.apply(s, Assert(o)) == s
  }

  /** Along these events, an interaction that leaves the digest alone leaves the host alone. */
  ghost predicate LoopsAreSilent<S>(h: Host<S>, s: S, events: seq<RecordedEvent>) {
    events == [] ||
    (var next := h.apply(s, events[0].action);
     (Seen(h, next) == Seen(h, s) ==> next == s) && LoopsAreSilent(h, next, events[1..]))
  }

  lemma DestutterSame<T>(x: T, xs: seq<T>)
    requires xs != [] && xs[0] == x
    ensures Destutter([x] + xs) == Destutter(xs)
  {
    assert ([x] + xs)[1..] == xs;
  }

  lemma DestutterNew<T>(x: T, xs: seq<T>, ys: seq<T>)
    requires xs != [] && ys != [] && xs[0] == ys[0] && Destutter(xs) == Destutter(ys)
    ensures Destutter([x] + xs) == Destutter([x] + ys)
  {
    assert ([x] + xs)[1..] == xs && ([x] + ys)[1..] == ys;
  }

  lemma {:induction false} AssertionsStandStill<S(!new)>(h: Host<S>, s: S, steps: seq<TestAction>)
    requires AssertsAreReadOnly(h) && forall a :: a in steps ==> a.Assert?
    ensures Final(h, s, steps) == s && Destutter(Visits(h, s, steps)) == [Seen(h, s)]
  {
    if steps != [] {
      var o := steps[0].obligation;
      assert h.apply(s, Assert(o)) == s;
      AssertionsStandStill(h, s, steps[1..]);
      DestutterSame(Seen(h, s), Visits(h, s, steps[1..]));
    }
  }

  lemma {:induction false} MissingAreAsserts(obligations: seq<string>, asserted: set<string>)
    ensures forall a :: a in Missing(obligations, asserted) ==> a.Assert?
    decreases |obligations|
  {
    if obligations != [] {
      MissingAreAsserts(obligations[1..], asserted + {obligations[0]});
    }
  }

  /** What promotion keeps from a suffix visits the suffix's digests and ends in the same state. */
  lemma {:induction false} KeptSimulates<S(!new)>(h: Host<S>, s: S, events: seq<RecordedEvent>, asserted: set<string>,
                                                  extra: seq<TestAction>)
    requires AssertsAreReadOnly(h) && LoopsAreSilent(h, s, events) && Follows(h, s, events)
    requires forall a :: a in extra ==> a.Assert?
    ensures var steps := Kept(events, Seen(h, s), asserted) + extra;
            && Final(h, s, steps) == Final(h, s, Actions(events))
            && Destutter(Visits(h, s, steps)) == Destutter([Seen(h, s)] + EventDigests(events))
    decreases |events|
  {
    hide Digest;
    if events == [] {
      AssertionsStandStill(h, s, extra);
      assert Kept(events, Seen(h, s), asserted) + extra == extra;
    } else {
      var e, next := events[0], h.apply(s, events[0].action);
      assert Actions(events)[1..] == Actions(events[1..]);
      var asserted' := if e.action.Assert? then asserted + {e.action.obligation} else asserted;
      KeptSimulates(h, next, events[1..], asserted', extra);
      var later := Kept(events[1..], Seen(h, next), asserted') + extra;
      assert EventDigests(events) == [Seen(h, next)] + EventDigests(events[1..]);
      assert [Seen(h, s)] + EventDigests(events) == [Seen(h, s)] + ([Seen(h, next)] + EventDigests(events[1..]));
      if e.action.Assert? {
        assert h.apply(s, Assert(e.action.obligation)) == s;
      }
      if Seen(h, next) == Seen(h, s) {
        DestutterSame(Seen(h, s), [Seen(h, next)] + EventDigests(events[1..]));
        KeptLoop(h, s, events, asserted, extra, later);
      } else {
        assert Kept(events, Seen(h, s), asserted) + extra == [e.action] + later;
        assert ([e.action] + later)[1..] == later;
        DestutterNew(Seen(h, s), Visits(h, next, later), [Seen(h, next)] + EventDigests(events[1..]));
      }
    }
  }

  /** A step that stands still is dropped or stutters. */
  lemma KeptLoop<S>(h: Host<S>, s: S, events: seq<RecordedEvent>, asserted: set<string>, extra: seq<TestAction>,
                    later: seq<TestAction>)
    requires events != [] && h.apply(s, events[0].action) == s && Seen(h, s) == Digest(events[0].after)
    requires later == Kept(events[1..], Seen(h, s), if events[0].action.Assert?
                           then asserted + {events[0].action.obligation} else asserted) + extra
    ensures var steps := Kept(events, Seen(h, s), asserted) + extra;
            Final(h, s, steps) == Final(h, s, later) && Destutter(Visits(h, s, steps)) == Destutter(Visits(h, s, later))
  {
    hide Digest;
    var steps := Kept(events, Seen(h, s), asserted) + extra;
    if events[0].action.Assert? && events[0].action.obligation !in asserted {
      assert steps == [events[0].action] + later && steps[1..] == later;
      DestutterSame(Seen(h, s), Visits(h, s, later));
    } else {
      assert steps == later;
    }
  }

  /**
   * Promotion preserves meaning: on a host that realises the trace, whose assertions are read-only
   * and whose recorded no-op interactions really are no-ops, the promoted program visits the
   * trace's states up to stuttering and ends where the trace ends.
   */
  lemma PromotionPreservesMeaning<S(!new)>(t: BehaviorTrace, id: string, h: Host<S>, s: S)
    requires Realises(h, s, t) && AssertsAreReadOnly(h) && LoopsAreSilent(h, s, t.events)
    ensures var p := PromotedProgram(t, id);
            && Final(h, s, p.steps) == Final(h, s, Actions(t.events))
            && Destutter(Visits(h, s, p.steps)) == Destutter(TraceDigests(t))
  {
    MissingAreAsserts(t.obligations, RecordedAsserts(t.events));
    KeptSimulates(h, s, t.events, {}, Missing(t.obligations, RecordedAsserts(t.events)));
  }

  /** A host whose whole state is the digest needs no further condition. */
  lemma {:induction false} DigestHostsAreSilent(h: Host<BehaviorState>, s: BehaviorState, events: seq<RecordedEvent>)
    requires forall x: BehaviorState, a: TestAction :: Digest(h.observe(h.apply(x, a))) == h.apply(x, a)
    requires Digest(h.observe(s)) == s
    ensures LoopsAreSilent(h, s, events)
    decreases |events|
  {
    hide Digest;
    if events != [] {
      var next := h.apply(s, events[0].action);
      assert Digest(h.observe(h.apply(s, events[0].action))) == next;
      DigestHostsAreSilent(h, next, events[1..]);
    }
  }

  // ----- what the replays return -----

  /** The digests of a start and of the states a replay returned. */
  function Digests<S>(h: Host<S>, start: S, states: seq<S>): (r: seq<BehaviorState>)
    ensures |r| == |states| + 1
  {
    [Seen(h, start)] + seq(|states|, i requires 0 <= i < |states| => Seen(h, states[i]))
  }

  function Reached<S>(start: S, states: seq<S>): S {
    if states == [] then start else states[|states| - 1]
  }

  /** The states a replay returns are the ones its actions visit, the last one the one they end in. */
  lemma {:induction false} ReturnedIsVisited<S>(h: Host<S>, start: S, actions: seq<TestAction>)
    ensures Digests(h, start, After(h, start, actions)) == Visits(h, start, actions)
    ensures Reached(start, After(h, start, actions)) == Final(h, start, actions)
    decreases |actions|
  {
    hide Seen, Digests;
    if actions == [] {
      NothingReturned(h, start);
    } else {
      var next, rest := h.apply(start, actions[0]), actions[1..];
      ReturnedIsVisited(h, next, rest);
      OneMoreReturned(h, start, next, After(h, next, rest));
    }
  }

  lemma NothingReturned<S>(h: Host<S>, start: S)
    ensures Digests(h, start, []) == [Seen(h, start)]
  {
    hide Seen;
  }

  lemma OneMoreReturned<S>(h: Host<S>, start: S, next: S, states: seq<S>)
    ensures Digests(h, start, [next] + states) == [Seen(h, start)] + Digests(h, next, states)
    ensures Reached(start, [next] + states) == Reached(next, states)
  {
    hide Seen;
  }

  /**
   * Whatever ReplayTrace returns for a trace and ReplayProgram for the program it is promoted to:
   * the states show the same digests up to stuttering, and the last one is the same.
   */
  lemma ReplaysAgree<S(!new)>(t: BehaviorTrace, id: string, h: Host<S>, start: S, traced: seq<S>, promoted: seq<S>)
    requires Realises(h, start, t) && AssertsAreReadOnly(h) && LoopsAreSilent(h, start, t.events)
    requires traced == After(h, start, Actions(t.events)) && promoted == After(h, start, PromotedProgram(t, id).steps)
    ensures Destutter(Digests(h, start, promoted)) == Destutter(Digests(h, start, traced))
    ensures Reached(start, promoted) == Reached(start, traced)
  {
    PromotionPreservesMeaning(t, id, h, start);
    ReturnedIsVisited(h, start, Actions(t.events));
    ReturnedIsVisited(h, start, PromotedProgram(t, id).steps);
    FollowedIsVisited(h, start, t.events);
  }

  /** A host that follows the events visits their digests. */
  lemma {:induction false} FollowedIsVisited<S>(h: Host<S>, s: S, events: seq<RecordedEvent>)
    requires Follows(h, s, events)
    ensures Visits(h, s, Actions(events)) == [Seen(h, s)] + EventDigests(events)
    decreases |events|
  {
    hide Digest;
    if events != [] {
      var next := h.apply(s, events[0].action);
      FollowedIsVisited(h, next, events[1..]);
      assert Actions(events)[1..] == Actions(events[1..]);
      assert EventDigests(events) == [Digest(events[0].after)] + EventDigests(events[1..]);
    }
  }

  // ----- hidden host state -----

  const PLAIN := BehaviorState("/a", None, None, None, None, None, map[], None, None)
  const OPENED := BehaviorState("/b", None, None, None, None, None, map[], None, None)
  const BUTTON := Target(Some("button"), Some("Open"), None, None, None, None, None)

  /** A menu: hovering arms it without a visible change, and activating opens it only when armed. */
  function MenuApply(armed: nat, a: TestAction): nat {
    match a
    case Hover(_) => if armed == 0 then 1 else armed
    case Activate(_) => if armed == 1 then 2 else armed
    case _ => armed
  }

  function MenuObserve(armed: nat): BehaviorState {
    if armed == 2 then OPENED else PLAIN
  }

  function Menu(): Host<nat> {
    Host(MenuApply, MenuObserve)
  }

  function MenuTrace(): BehaviorTrace {
    BehaviorTrace("s", None, None, map[], ["o"], PLAIN,
                  [RecordedEvent(Hover(BUTTON), PLAIN), RecordedEvent(Activate(BUTTON), OPENED)])
  }

  lemma MenuRuns()
    ensures Realises(Menu(), 0, MenuTrace()) && !LoopsAreSilent(Menu(), 0, MenuTrace().events)
    ensures Seen(Menu(), Final(Menu(), 0, Actions(MenuTrace().events))) == OPENED
  {
    var events := MenuTrace().events;
    var h := Menu();
    assert events[1..] == [events[1]] && events[1..][1..] == [];
    assert h.apply(0, Hover(BUTTON)) == 1 && h.apply(1, Activate(BUTTON)) == 2;
    assert Follows(h, 1, events[1..]);
    assert Actions(events) == [Hover(BUTTON), Activate(BUTTON)];
    assert Actions(events)[1..] == [Activate(BUTTON)] && Actions(events)[1..][1..] == [];
  }

  lemma MenuIsPromoted(id: string)
    ensures PromotedProgram(MenuTrace(), id).steps == [Activate(BUTTON), Assert("o")]
  {
    var events := MenuTrace().events;
    assert events[1..] == [events[1]] && events[1..][1..] == [];
    assert Kept(events[1..], PLAIN, {}) == [Activate(BUTTON)];
    assert Kept(events, PLAIN, {}) == [Activate(BUTTON)];
    assert RecordedAsserts(events) == {};
    assert Missing(["o"], {}) == [Assert("o")];
  }

  lemma UnarmedMenuStaysShut()
    ensures Final(Menu(), 0, [Activate(BUTTON), Assert("o")]) == 0
  {
    var steps := [Activate(BUTTON), Assert("o")];
    var h := Menu();
    assert steps[1..] == [Assert("o")] && steps[1..][1..] == [];
    assert h.apply(0, Activate(BUTTON)) == 0 && h.apply(0, Assert("o")) == 0;
    assert Final(h, 0, steps[1..]) == 0;
  }

  /** Without silent loops promotion can change the outcome: the dropped hover was needed. */
  lemma HiddenStateBreaksPromotion(id: string)
    ensures Realises(Menu(), 0, MenuTrace()) && AssertsAreReadOnly(Menu())
    ensures !LoopsAreSilent(Menu(), 0, MenuTrace().events)
    ensures Seen(Menu(), Final(Menu(), 0, Actions(MenuTrace().events))) == OPENED
    ensures Seen(Menu(), Final(Menu(), 0, PromotedProgram(MenuTrace(), id).steps)) == PLAIN
  {
    hide Realises, LoopsAreSilent, Final, Actions, PromotedProgram;
    MenuRuns();
    MenuIsPromoted(id);
    UnarmedMenuStaysShut();
  }
}
