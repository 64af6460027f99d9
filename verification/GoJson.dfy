/** The `go test -json` event machine over decoded lines. */
module GoJson {
  import opened Words
  import opened Options

  datatype TestStatus = Pass | Fail | Skip

  datatype GoEvent = GoEvent(action: string, package: Option<string>, test: Option<string>, elapsedMs: Option<u64>,
                             output: Option<string>)

  datatype Line = Blank | Undecodable | Event(e: GoEvent)

  datatype TestCase = TestCase(name: string, suite: string, status: TestStatus, durationMs: Option<u64>,
                               message: Option<string>)

  datatype GoError = Truncated | Malformed | MissingAction | UnknownAction(action: string)

  type Key = (string, string)

  /** Messages of the tests that have started and not finished, and the cases finished so far. */
  datatype State = State(slots: map<Key, string>, finished: seq<TestCase>)

  const START := State(map[], [])

  function KeyOf(e: GoEvent): Key
    requires e.test.Some?
  {
    (if e.package.Some? then e.package.value else "", e.test.value)
  }

  function KeyOfCase(c: TestCase): Key {
    (c.suite, c.name)
  }

  function StatusOf(action: string): Option<TestStatus> {
    if action == "pass" then Some(Pass)
    else if action == "fail" then Some(Fail)
    else if action == "skip" then Some(Skip)
    else None
  }

  predicate IsProgress(action: string) {
    action == "run" || action == "pause" || action == "cont" || action == "start" || action == "bench"
  }

  function NonEmpty(message: string): Option<string> {
    if message == "" then None else Some(message)
  }

  function CaseOf(e: GoEvent, status: TestStatus, message: string): TestCase
    requires e.test.Some?
  {
    TestCase(e.test.value, KeyOf(e).0, status, e.elapsedMs, NonEmpty(message))
  }

  /** What an event does to its test's slot. */
  datatype Effect = Keep(message: string) | Finish(c: TestCase) | Refuse(error: GoError)

  function EffectOf(e: GoEvent, message: string): Effect
    requires e.test.Some?
  {
    if e.action == "output" then Keep(message + (if e.output.Some? then e.output.value else ""))
    else
      match StatusOf(e.action)
      case Some(status) => Finish(CaseOf(e, status, message))
      case None => if IsProgress(e.action) then Keep(message) else Refuse(UnknownAction(e.action))
  }

  function MessageAt(slots: map<Key, string>, key: Key): string {
    if key in slots then slots[key] else ""
  }

  /** The effect of one event. */
  function Step(st: State, e: GoEvent): Result<State, GoError> {
    if e.action == "" then Err(MissingAction)
    else if e.test.None? then Ok(st)
    else
      match EffectOf(e, MessageAt(st.slots, KeyOf(e)))
      case Keep(message) => Ok(st.(slots := st.slots[KeyOf(e) := message]))
      case Finish(c) => Ok(State(st.slots - {KeyOf(e)}, st.finished + [c]))
      case Refuse(error) => Err(error)
  }

  function LineStep(st: State, line: Line, last: bool): Result<State, GoError> {
    match line
    case Blank => Ok(st)
    case Undecodable => Err(if last then Truncated else Malformed)
    case Event(e) => Step(st, e)
  }

  /** Every line but the last is read with more to come. */
  function Steps(lines: seq<Line>, total: nat): Result<State, GoError>
    requires |lines| <= total
  {
    if lines == [] then Ok(START)
    else
      var n := |lines| - 1;
      match Steps(lines[..n], total)
      case Err(e) => Err(e)
      case Ok(st) => LineStep(st, lines[n], n + 1 == total)
  }

  function Parsed(lines: seq<Line>): Result<seq<TestCase>, GoError> {
    match Steps(lines, |lines|)
    case Err(e) => Err(e)
    case Ok(st) => if st.slots != map[] then Err(Truncated) else Ok(st.finished)
  }

  method ParseGoJson(lines: seq<Line>) returns (r: Result<seq<TestCase>, GoError>)
    ensures r == Parsed(lines)
  {
    hide IsProgress;
    hide StatusOf;
    var slots: map<Key, string>, finished: seq<TestCase> := map[], [];
    for i := 0 to |lines|
      invariant Steps(lines[..i], |lines|) == Ok(State(slots, finished))
    {
      assert lines[..i + 1][..i] == lines[..i];
      ghost var st := State(slots, finished);
      if lines[i].Blank? { continue; }
      if lines[i].Undecodable? {
        ErrorStays(lines, i + 1);
        return Err(if i + 1 == |lines| then Truncated else Malformed);
      }
      var e := lines[i].e;
      if e.action == "" {
        ErrorStays(lines, i + 1);
        return Err(MissingAction);
      }
      if e.test.None? { continue; }
      var key := KeyOf(e);
      var message := if key in slots then slots[key] else "";
      if e.action == "output" {
        slots := slots[key := message + (if e.output.Some? then e.output.value else "")];
      } else if StatusOf(e.action).Some? {
        finished := finished + [CaseOf(e, StatusOf(e.action).value, message)];
        slots := slots - {key};
      } else if IsProgress(e.action) {
        slots := slots[key := message];
      } else {
        ErrorStays(lines, i + 1);
        return Err(UnknownAction(e.action));
      }
    }
    assert lines[..|lines|] == lines;
    if slots != map[] { return Err(Truncated); }
    r := Ok(finished);
  }

  lemma {:induction false} ErrorStays(lines: seq<Line>, i: nat)
    requires i <= |lines| && Steps(lines[..i], |lines|).Err?
    ensures Parsed(lines) == Err(Steps(lines[..i], |lines|).error)
  {
    ErrorStaysIn(lines, i, |lines|);
  }

  lemma {:induction false} ErrorStaysIn(lines: seq<Line>, i: nat, total: nat)
    requires i <= |lines| <= total && Steps(lines[..i], total).Err?
    ensures Steps(lines, total) == Steps(lines[..i], total)
    decreases |lines|
  {
    if i == |lines| {
      assert lines[..i] == lines;
    } else {
      var shorter := lines[..|lines| - 1];
      assert shorter[..i] == lines[..i];
      ErrorStaysIn(shorter, i, total);
    }
  }

  // ----- decomposition by test -----

  /** The lines of one test. */
  function Project(lines: seq<Line>, key: Key): seq<Line> {
    if lines == [] then []
    else
      var n := |lines| - 1;
      Project(lines[..n], key) + if Concerns(lines[n], key) then [lines[n]] else []
  }

  predicate Concerns(line: Line, key: Key) {
    line.Event? && line.e.test.Some? && KeyOf(line.e) == key
  }

  function CasesOf(cases: seq<TestCase>, key: Key): seq<TestCase> {
    if cases == [] then []
    else
      var n := |cases| - 1;
      CasesOf(cases[..n], key) + if KeyOfCase(cases[n]) == key then [cases[n]] else []
  }

  /** Every line decodes and every event names an action. */
  ghost predicate WellFormed(lines: seq<Line>) {
    forall i :: 0 <= i < |lines| ==> !lines[i].Undecodable? && (lines[i].Event? ==> lines[i].e.action != "")
  }

  /** st seen through one key. */
  ghost predicate Agrees(whole: State, part: State, key: Key) {
    && part.slots == (if key in whole.slots then map[key := whole.slots[key]] else map[])
    && part.finished == CasesOf(whole.finished, key)
  }

  lemma CasesAppend(cases: seq<TestCase>, c: TestCase, key: Key)
    ensures CasesOf(cases + [c], key) == CasesOf(cases, key) + if KeyOfCase(c) == key then [c] else []
  {
    assert (cases + [c])[..|cases|] == cases;
  }

  /** A step of another test leaves this one alone; a step of this one acts on both alike. */
  lemma StepAgrees(whole: State, part: State, e: GoEvent, key: Key)
    requires Agrees(whole, part, key) && e.action != ""
    ensures e.test.Some? && KeyOf(e) == key ==> (Step(whole, e).Ok? <==> Step(part, e).Ok?)
    ensures e.test.Some? && KeyOf(e) == key && Step(whole, e).Ok? ==>
              Agrees(Step(whole, e).value, Step(part, e).value, key)
    ensures !(e.test.Some? && KeyOf(e) == key) && Step(whole, e).Ok? ==> Agrees(Step(whole, e).value, part, key)
  {
    hide CasesOf;
    if e.test.Some? {
      var k := KeyOf(e);
      var effect := EffectOf(e, MessageAt(whole.slots, k));
      if effect.Finish? {
        CasesAppend(whole.finished, effect.c, key);
        FinishesItsOwn(e, MessageAt(whole.slots, k));
      }
      hide EffectOf;
      hide KeyOfCase;
    }
  }

  lemma FinishesItsOwn(e: GoEvent, message: string)
    requires e.test.Some?
    ensures EffectOf(e, message).Finish? ==> KeyOfCase(EffectOf(e, message).c) == KeyOf(e)
  {
  }

  /** The whole run succeeds up to here exactly when each test's own run does, and they agree. */
  lemma {:induction false} Decomposes(lines: seq<Line>, total: nat, key: Key, own: nat)
    requires |lines| <= total && |Project(lines, key)| <= own && WellFormed(lines)
    requires Steps(lines, total).Ok?
    ensures Steps(Project(lines, key), own).Ok?
    ensures Agrees(Steps(lines, total).value, Steps(Project(lines, key), own).value, key)
    decreases |lines|
  {
    hide Step;
    if lines != [] {
      var n := |lines| - 1;
      var before := lines[..n];
      Decomposes(before, total, key, own);
      var part := Project(before, key);
      if lines[n].Event? {
        StepAgrees(Steps(before, total).value, Steps(part, own).value, lines[n].e, key);
      }
      hide Agrees;
      if Concerns(lines[n], key) {
        assert (part + [lines[n]])[..|part|] == part;
      } else {
        assert part + [] == part;
      }
    }
  }

  /** A failure of the whole run shows in the run of some test. */
  lemma {:induction false} FailureHasATest(lines: seq<Line>, total: nat) returns (key: Key)
    requires |lines| <= total && WellFormed(lines) && Steps(lines, total).Err?
    ensures forall own :: own >= |Project(lines, key)| ==> Steps(Project(lines, key), own).Err?
    decreases |lines|
  {
    hide Step;
    var n := |lines| - 1;
    var before := lines[..n];
    if Steps(before, total).Err? {
      key := FailureHasATest(before, total);
      var part := Project(before, key);
      forall own: nat | own >= |Project(lines, key)| ensures Steps(Project(lines, key), own).Err? {
        if Concerns(lines[n], key) {
          assert (part + [lines[n]])[..|part|] == part;
        } else {
          assert part + [] == part;
        }
      }
    } else {
      key := FailingKey(Steps(before, total).value, lines[n].e);
      var part := Project(before, key);
      forall own: nat | own >= |Project(lines, key)| ensures Steps(Project(lines, key), own).Err? {
        Decomposes(before, total, key, own);
        StepAgrees(Steps(before, total).value, Steps(part, own).value, lines[n].e, key);
        hide Agrees;
        assert (part + [lines[n]])[..|part|] == part;
      }
    }
  }

  lemma FailingKey(st: State, e: GoEvent) returns (key: Key)
    requires e.action != "" && Step(st, e).Err?
    ensures e.test.Some? && KeyOf(e) == key
  {
    key := KeyOf(e);
  }

  lemma {:induction false} SuccessIsWellFormed(lines: seq<Line>, total: nat)
    requires |lines| <= total && Steps(lines, total).Ok?
    ensures WellFormed(lines)
    decreases |lines|
  {
    if lines != [] {
      var n := |lines| - 1;
      SuccessIsWellFormed(lines[..n], total);
      forall i | 0 <= i < |lines|
        ensures !lines[i].Undecodable? && (lines[i].Event? ==> lines[i].e.action != "")
      {
        if i < n { assert lines[..n][i] == lines[i]; }
      }
    }
  }

  lemma OwnRun(lines: seq<Line>, key: Key)
    requires WellFormed(lines) && Steps(lines, |lines|).Ok?
    ensures var whole := Steps(lines, |lines|).value;
            Parsed(Project(lines, key)) == if key in whole.slots then Err(Truncated)
                else Ok(CasesOf(whole.finished, key))
  {
    Decomposes(lines, |lines|, key, |Project(lines, key)|);
    var whole, part := Steps(lines, |lines|).value, Steps(Project(lines, key), |Project(lines, key)|).value;
    assert key in whole.slots ==> key in part.slots;
  }

  /**
   * Parsing succeeds exactly when every line is well formed and every test's own lines parse; each
   * test's results are its own.
   */
  lemma SucceedsExactlyWhenEachTestDoes(lines: seq<Line>)
    ensures Parsed(lines).Ok? <==> WellFormed(lines) && forall key :: Parsed(Project(lines, key)).Ok?
    ensures Parsed(lines).Ok? ==> forall key :: Parsed(Project(lines, key)) == Ok(CasesOf(Parsed(lines).value, key))
  {
    hide CasesOf;
    hide Project;
    hide WellFormed;
    if Steps(lines, |lines|).Ok? {
      SuccessIsWellFormed(lines, |lines|);
      forall key
        ensures Parsed(Project(lines, key)) == if key in Steps(lines, |lines|).value.slots then Err(Truncated)
                                               else Ok(CasesOf(Steps(lines, |lines|).value.finished, key))
      {
        OwnRun(lines, key);
      }
      var slots := Steps(lines, |lines|).value.slots;
      if slots == map[] {
        assert forall key :: Parsed(Project(lines, key)) == Ok(CasesOf(Steps(lines, |lines|).value.finished, key));
      } else {
        var key :| key in slots;
        assert Parsed(Project(lines, key)).Err?;
      }
    } else if WellFormed(lines) {
      var key := FailureHasATest(lines, |lines|);
      assert Parsed(Project(lines, key)).Err?;
    }
  }

  /** Any interleaving of the same test streams parses alike and gives each test the same results. */
  lemma InterleavingIrrelevant(a: seq<Line>, b: seq<Line>)
    requires WellFormed(a) && WellFormed(b) && forall key :: Project(a, key) == Project(b, key)
    ensures Parsed(a).Ok? <==> Parsed(b).Ok?
    ensures Parsed(a).Ok? ==> forall key :: CasesOf(Parsed(a).value, key) == CasesOf(Parsed(b).value, key)
  {
    hide CasesOf;
    hide Parsed;
    hide Project;
    SucceedsExactlyWhenEachTestDoes(a);
    SucceedsExactlyWhenEachTestDoes(b);
    if Parsed(a).Ok? {
      assert forall key :: Parsed(Project(b, key)).Ok? by {
        forall key ensures Parsed(Project(b, key)).Ok? {
          assert Parsed(Project(a, key)).Ok?;
        }
      }
      forall key ensures CasesOf(Parsed(a).value, key) == CasesOf(Parsed(b).value, key) {
        assert Parsed(Project(a, key)) == Parsed(Project(b, key));
      }
    }
    if Parsed(b).Ok? {
      assert forall key :: Parsed(Project(a, key)).Ok? by {
        forall key ensures Parsed(Project(a, key)).Ok? {
          assert Parsed(Project(b, key)).Ok?;
        }
      }
    }
  }
}
