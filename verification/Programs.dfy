/** Typed test programs and their structural validation. */
module Programs {
  import opened Words
  import opened Options
  import opened Decimal
  import opened Strings

  datatype Target = Target(role: Option<string>, accessibleName: Option<string>, labelText: Option<string>,
                           testId: Option<string>,
                           componentHint: Option<string>, scope: Option<Target>, fallbackCss: Option<string>)

  datatype WaitCondition = Visible(target: Target) | Url(route: string)

  datatype TestAction =
    | Navigate(route: string)
    | Activate(target: Target)
    | Fill(target: Target, value: string)
    | Select(target: Target, value: string)
    | Press(focus: Option<Target>, key: string)
    | Wait(condition: WaitCondition)
    | SetFeatureFlag(key: string, value: string)
    | InjectFault(fault: string)
    | ApiCall(operation: string, input: string)
    | Hover(target: Target)
    | Scroll(target: Target)
    | Drag(target: Target, to: Target)
    | Upload(target: Target, fixture: string)
    | Download(target: Target)
    | Popup(target: Target)
    | SwitchTab(route: string)
    | Assert(obligation: string)

  /** A decoded data fixture: a file for upload, or any other JSON value. */
  datatype Fixture = FileFixture(filename: string, textBytes: nat) | OtherFixture

  datatype FaultSpec = Abort(url: string) | HttpResponse(url: string, status: nat) | Delay(url: string, delayMs: nat)

  datatype ApiOperation = ApiOperation(httpMethod: string, path: string)

  datatype ProgramSource = Authored | Generated | Recorded | Recovered

  datatype TestProgram = TestProgram(
    schemaV: nat,
    id: string,
    source: ProgramSource,
    obligations: seq<string>,
    preconditions: seq<TestAction>,
    steps: seq<TestAction>,
    data: map<string, Fixture>,
    faults: map<string, FaultSpec>,
    apiOperations: map<string, ApiOperation>,
    seed: Option<u64>)

  datatype ProgramError = UnknownSchema | NoObligations | NoSteps | BadFault | BadOperation | AssertingPrecondition
                        | BadAction(at: nat) | Undeclared(obligation: string) | UnknownFault(fault: string)
                        | UnregisteredCall | BadFixture | NeverAsserted(missing: string)
                        | NoMeasuredSteps

  const MAX_UPLOAD_TEXT_BYTES := 65536

  // ----- values the validator looks at -----

  function Identities(t: Target): seq<Option<string>> {
    [t.role, t.accessibleName, t.labelText, t.testId, t.componentHint, t.fallbackCss]
  }

  predicate LooksLikeXPath(value: string) {
    var v := Lower(Trim(value));
    Contains(v, "xpath") || "//" <= v
  }

  /** Some identity is not blank, none looks like an XPath, and the scope is valid too. */
  predicate ValidTarget(t: Target) {
    && (exists i :: 0 <= i < 6 && Identities(t)[i].Some? && Trim(Identities(t)[i].value) != "")
    && (forall i :: 0 <= i < 6 && Identities(t)[i].Some? ==> !LooksLikeXPath(Identities(t)[i].value))
    && (t.scope.Some? ==> ValidTarget(t.scope.value))
  }

  predicate RegisteredName(name: string) {
    name != "" && '/' !in name && '\\' !in name && !Contains(name, "..")
  }

  predicate ValidAction(a: TestAction) {
    match a
    case Navigate(route) => route != ""
    case Activate(t) => ValidTarget(t)
    case Fill(t, _) => ValidTarget(t)
    case Select(t, _) => ValidTarget(t)
    case Hover(t) => ValidTarget(t)
    case Scroll(t) => ValidTarget(t)
    case Download(t) => ValidTarget(t)
    case Popup(t) => ValidTarget(t)
    case Wait(Visible(t)) => ValidTarget(t)
    case Drag(t, to) => ValidTarget(t) && ValidTarget(to)
    case Upload(t, fixture) => ValidTarget(t) && RegisteredName(fixture)
    case SwitchTab(route) => route != ""
    case Press(focus, key) => key != "" && (focus.Some? ==> ValidTarget(focus.value))
    case Wait(Url(route)) => route != ""
    case SetFeatureFlag(key, _) => key != ""
    case InjectFault(fault) => fault != ""
    case ApiCall(operation, _) => operation != ""
    case Assert(_) => true
  }

  /** On Unix a basename is one normal path component. */
  predicate ValidFilename(name: string) {
    name != "" && name != "." && name != ".." && '/' !in name
  }

  predicate ValidFault(f: FaultSpec) {
    Trim(f.url) != ""
    && (f.HttpResponse? ==> 100 <= f.status <= 599)
    && (f.Delay? ==> 0 < f.delayMs <= 30000)
  }

  predicate ValidOperation(o: ApiOperation) {
    o.httpMethod in ["GET", "POST", "PUT", "PATCH", "DELETE", "HEAD", "OPTIONS"]
    && "/" <= o.path && !("//" <= o.path)
  }

  // ----- the whole program -----

  /** A step names only what the program registers. */
  predicate Registered(a: TestAction, p: TestProgram) {
    match a
    case Assert(obligation) => obligation in p.obligations
    case InjectFault(fault) => fault in p.faults
    case ApiCall(operation, input) => operation in p.apiOperations && input in p.data
    case Upload(_, fixture) => RegisteredName(fixture) && fixture in p.data && p.data[fixture].FileFixture?
                               && ValidFilename(p.data[fixture].filename)
                                   && p.data[fixture].textBytes <= MAX_UPLOAD_TEXT_BYTES
    case _ => true
  }

  function Asserted(steps: seq<TestAction>): set<string> {
    set i | 0 <= i < |steps| && steps[i].Assert? :: steps[i].obligation
  }

  /** What `validate` accepts. */
  ghost predicate ValidProgram(p: TestProgram) {
    && p.schemaV == 1
    && p.obligations != [] && p.steps != []
    && (forall f :: f in p.faults ==> ValidFault(p.faults[f]))
    && (forall o :: o in p.apiOperations ==> ValidOperation(p.apiOperations[o]))
    && (forall a :: a in p.preconditions ==> !a.Assert?)
    && (forall a :: a in p.preconditions + p.steps ==> ValidAction(a) && Registered(a, p))
    && (forall o :: o in p.obligations ==> o in Asserted(p.steps))
  }

  method CheckRegistry(p: TestProgram) returns (error: Option<ProgramError>)
    ensures error.None? <==>
      && (forall f :: f in p.faults ==> ValidFault(p.faults[f]))
      && (forall o :: o in p.apiOperations ==> ValidOperation(p.apiOperations[o]))
  {
    var faults := p.faults.Keys;
    while faults != {}
      invariant faults <= p.faults.Keys
      invariant forall f :: f in p.faults && f !in faults ==> ValidFault(p.faults[f])
    {
      var f :| f in faults;
      if !ValidFault(p.faults[f]) { return Some(BadFault); }
      faults := faults - {f};
    }
    var operations := p.apiOperations.Keys;
    while operations != {}
      invariant operations <= p.apiOperations.Keys
      invariant forall o :: o in p.apiOperations && o !in operations ==> ValidOperation(p.apiOperations[o])
    {
      var o :| o in operations;
      if !ValidOperation(p.apiOperations[o]) { return Some(BadOperation); }
      operations := operations - {o};
    }
    return None;
  }

  function StepError(a: TestAction, p: TestProgram, at: nat): ProgramError {
    if !ValidAction(a) then BadAction(at)
    else
      match a
      case Assert(obligation) => Undeclared(obligation)
      case InjectFault(fault) => UnknownFault(fault)
      case ApiCall(_, _) => UnregisteredCall
      case _ => BadFixture
  }

  method CheckSteps(p: TestProgram) returns (error: Option<ProgramError>, asserted: set<string>)
    requires forall a :: a in p.preconditions ==> !a.Assert?
    ensures error.None? <==> forall a :: a in p.preconditions + p.steps ==> ValidAction(a) && Registered(a, p)
    ensures error.None? ==> asserted == Asserted(p.steps)
  {
    hide ValidAction;
    hide Registered;
    asserted := {};
    var steps := p.preconditions + p.steps;
    for i := 0 to |steps|
      invariant forall k :: 0 <= k < i ==> ValidAction(steps[k]) && Registered(steps[k], p)
      invariant asserted == Asserted(steps[..i])
    {
      var step := steps[i];
      if !ValidAction(step) || !Registered(step, p) {
        assert step in steps;
        return Some(StepError(step, p, i)), asserted;
      }
      AssertedAppend(steps[..i], step);
      assert steps[..i + 1] == steps[..i] + [step];
      if step.Assert? {
        asserted := asserted + {step.obligation};
      }
    }
    assert steps[..|steps|] == steps;
    AssertedConcat(p.preconditions, p.steps);
    error := None;
  }

  lemma AssertedAppend(steps: seq<TestAction>, a: TestAction)
    ensures Asserted(steps + [a]) == Asserted(steps) + if a.Assert? then {a.obligation} else {}
  {
    var all := steps + [a];
    assert all[|steps|] == a;
    forall o | o in Asserted(steps) ensures o in Asserted(all) {
      var i :| 0 <= i < |steps| && steps[i].Assert? && steps[i].obligation == o;
      assert all[i] == steps[i];
    }
  }

  lemma AssertedConcat(pre: seq<TestAction>, steps: seq<TestAction>)
    requires forall a :: a in pre ==> !a.Assert?
    ensures Asserted(pre + steps) == Asserted(steps)
  {
    var all := pre + steps;
    forall o | o in Asserted(steps) ensures o in Asserted(all) {
      var i :| 0 <= i < |steps| && steps[i].Assert? && steps[i].obligation == o;
      assert all[|pre| + i] == steps[i];
    }
    assert forall k :: 0 <= k < |pre| ==> all[k] == pre[k] && pre[k] in pre;
    forall o | o in Asserted(all) ensures o in Asserted(steps) {
      var i :| 0 <= i < |all| && all[i].Assert? && all[i].obligation == o;
      assert steps[i - |pre|] == all[i];
    }
  }

  /** Structural validation accepts exactly the valid programs. */
  method Validate(p: TestProgram) returns (error: Option<ProgramError>)
    ensures error.None? <==> ValidProgram(p)
  {
    hide ValidAction;
    hide Registered;
    if p.schemaV != 1 { return Some(UnknownSchema); }
    if |p.obligations| == 0 { return Some(NoObligations); }
    if |p.steps| == 0 { return Some(NoSteps); }
    error := CheckRegistry(p);
    if error.Some? { return; }
    if exists i :: 0 <= i < |p.preconditions| && p.preconditions[i].Assert? { return Some(AssertingPrecondition); }
    var asserted: set<string>;
    error, asserted := CheckSteps(p);
    if error.Some? { return; }
    for i := 0 to |p.obligations|
      invariant forall k :: 0 <= k < i ==> p.obligations[k] in asserted
    {
      if p.obligations[i] !in asserted { return Some(NeverAsserted(p.obligations[i])); }
    }
    error := None;
  }
}
