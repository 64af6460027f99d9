/** AI cost firewall: the charge state machine and the local-model reservation. */
module Firewall {
  import opened Words
  import opened Options

  datatype AiBudget = AiBudget(planningTokens: u64, runtimeTokens: u64, browserEscapeCalls: u32, visionCalls: u32,
                               maxCostMicros: Option<u64>)

  datatype AiCallKind = Planning | Runtime | BrowserEscape | Vision

  datatype AiCall = AiCall(kind: AiCallKind, tokens: u64, costMicros: u64)

  datatype AiUsage = AiUsage(planningTokens: u64, runtimeTokens: u64, browserEscapeCalls: u32, visionCalls: u32,
                             costMicros: u64)

  datatype BudgetLimit = PlanningTokens | RuntimeTokens | BrowserEscapeCalls | VisionCalls | Cost

  datatype BudgetExhausted = BudgetExhausted(limit: BudgetLimit, allowed: u64, used: u64, requested: u64)

  const NO_USAGE := AiUsage(0, 0, 0, 0, 0)

  function TokenLimit(kind: AiCallKind): BudgetLimit {
    if kind.Planning? then PlanningTokens else RuntimeTokens
  }

  /** Used and allowed on one ceiling; an absent money ceiling allows everything. */
  function Used(usage: AiUsage, limit: BudgetLimit): u64 {
    match limit
    case PlanningTokens => usage.planningTokens
    case RuntimeTokens => usage.runtimeTokens
    case BrowserEscapeCalls => usage.browserEscapeCalls
    case VisionCalls => usage.visionCalls
    case Cost => usage.costMicros
  }

  function Allowed(budget: AiBudget, limit: BudgetLimit): u64 {
    match limit
    case PlanningTokens => budget.planningTokens
    case RuntimeTokens => budget.runtimeTokens
    case BrowserEscapeCalls => budget.browserEscapeCalls
    case VisionCalls => budget.visionCalls
    case Cost => match budget.maxCostMicros case None => U64_MAX case Some(m) => m
  }

  /** What a call asks of each ceiling. */
  function Requested(call: AiCall, limit: BudgetLimit): u64 {
    match limit
    case PlanningTokens => if call.kind.Planning? then call.tokens else 0
    case RuntimeTokens => if call.kind.Planning? then 0 else call.tokens
    case BrowserEscapeCalls => if call.kind.BrowserEscape? then 1 else 0
    case VisionCalls => if call.kind.Vision? then 1 else 0
    case Cost => call.costMicros
  }

  /** The ceilings a call is checked against, in the order they are checked. */
  function Checks(kind: AiCallKind): seq<BudgetLimit> {
    (match kind
     case BrowserEscape => [BrowserEscapeCalls]
     case Vision => [VisionCalls]
     case _ => [])
    + [TokenLimit(kind), Cost]
  }

  predicate Fits(budget: AiBudget, usage: AiUsage, call: AiCall, limit: BudgetLimit) {
    Used(usage, limit) + Requested(call, limit) <= Allowed(budget, limit)
    || (limit.Cost? && budget.maxCostMicros.None?)
    || (Allowed(budget, limit) == U64_MAX && !limit.BrowserEscapeCalls? && !limit.VisionCalls?)
  }

  predicate FitsAll(budget: AiBudget, usage: AiUsage, call: AiCall) {
    forall i :: 0 <= i < |Checks(call.kind)| ==> Fits(budget, usage, call, Checks(call.kind)[i])
  }

  /** The first ceiling in checking order that the call would cross. */
  ghost predicate FirstCrossed(budget: AiBudget, usage: AiUsage, call: AiCall, e: BudgetExhausted) {
    exists i :: 0 <= i < |Checks(call.kind)| && e.limit == Checks(call.kind)[i]
             && !Fits(budget, usage, call, e.limit)
             && (forall k :: 0 <= k < i ==> Fits(budget, usage, call, Checks(call.kind)[k]))
             && e.allowed == Allowed(budget, e.limit) && e.used == Used(usage, e.limit)
                 && e.requested == Requested(call, e.limit)
  }

  /** Usage after recording a call. */
  function Spend(usage: AiUsage, call: AiCall): AiUsage {
    AiUsage(SatAdd(usage.planningTokens, Requested(call, PlanningTokens)),
            SatAdd(usage.runtimeTokens, Requested(call, RuntimeTokens)),
            Min(U32_MAX, usage.browserEscapeCalls + Requested(call, BrowserEscapeCalls)),
            Min(U32_MAX, usage.visionCalls + Requested(call, VisionCalls)),
            SatAdd(usage.costMicros, call.costMicros))
  }

  class AiCostFirewall {
    const budget: AiBudget
    var usage: AiUsage
    var exhausted: bool

    constructor (budget: AiBudget)
      ensures this.budget == budget && usage == NO_USAGE && !exhausted
    {
      this.budget, usage, exhausted := budget, NO_USAGE, false;
    }

    /** Resume from usage persisted by an earlier call. */
    constructor WithUsage(budget: AiBudget, usage: AiUsage)
      ensures this.budget == budget && this.usage == usage
      ensures exhausted <==> exists limit :: Used(usage, limit) > Allowed(budget, limit)
    {
      this.budget, this.usage := budget, usage;
      exhausted := usage.planningTokens > budget.planningTokens
                || usage.runtimeTokens > budget.runtimeTokens
                || usage.browserEscapeCalls > budget.browserEscapeCalls
                || usage.visionCalls > budget.visionCalls
                || (budget.maxCostMicros.Some? && usage.costMicros > budget.maxCostMicros.value);
      new;
      assert exhausted <==>
        Used(usage, PlanningTokens) > Allowed(budget, PlanningTokens)
        || Used(usage, RuntimeTokens) > Allowed(budget, RuntimeTokens)
        || Used(usage, BrowserEscapeCalls) > Allowed(budget, BrowserEscapeCalls)
        || Used(usage, VisionCalls) > Allowed(budget, VisionCalls)
        || Used(usage, Cost) > Allowed(budget, Cost);
      forall limit | Used(usage, limit) > Allowed(budget, limit) ensures exhausted {
        match limit {
          case PlanningTokens =>
          case RuntimeTokens =>
          case BrowserEscapeCalls =>
          case VisionCalls =>
          case Cost =>
        }
      }
    }

    /** A copy to try a reservation on. */
    constructor Clone(other: AiCostFirewall)
      ensures budget == other.budget && usage == other.usage && exhausted == other.exhausted
    {
      budget, usage, exhausted := other.budget, other.usage, other.exhausted;
    }

    method Refuse(limit: BudgetLimit, allowed: u64, used: u64, requested: u64) returns (e: BudgetExhausted)
      modifies this`exhausted
      ensures exhausted && e == BudgetExhausted(limit, allowed, used, requested)
    {
      exhausted := true;
      e := BudgetExhausted(limit, allowed, used, requested);
    }

    method CheckCallCeiling(call: AiCall) returns (r: Option<BudgetExhausted>)
      modifies this`exhausted
      ensures r.Some? <==> |Checks(call.kind)| == 3 && !Fits(budget, usage, call, Checks(call.kind)[0])
      ensures r.Some? ==> exhausted && r.value.limit == Checks(call.kind)[0]
      ensures r.Some? ==>
                r.value == BudgetExhausted(r.value.limit, Allowed(budget, r.value.limit), Used(usage, r.value.limit), 1)
      ensures r.None? ==> exhausted == old(exhausted)
    {
      var limit, allowed, used;
      match call.kind {
        case BrowserEscape => limit, allowed, used := BrowserEscapeCalls, budget.browserEscapeCalls,
            usage.browserEscapeCalls;
        case Vision => limit, allowed, used := VisionCalls, budget.visionCalls, usage.visionCalls;
        case _ => return None;
      }
      if used >= allowed {
        var e := Refuse(limit, allowed, used, 1);
        return Some(e);
      }
      return None;
    }

    method CheckTokenCeiling(call: AiCall) returns (r: Option<BudgetExhausted>)
      modifies this`exhausted
      ensures r.Some? <==> !Fits(budget, usage, call, TokenLimit(call.kind))
      ensures r.Some? ==> exhausted
      ensures r.Some? ==>
                r.value == BudgetExhausted(TokenLimit(call.kind), Allowed(budget, TokenLimit(call.kind)),
                                           Used(usage, TokenLimit(call.kind)), call.tokens)
      ensures r.None? ==> exhausted == old(exhausted)
    {
      var allowed, used := budget.runtimeTokens, usage.runtimeTokens;
      if call.kind.Planning? {
        allowed, used := budget.planningTokens, usage.planningTokens;
      }
      if SatAdd(used, call.tokens) > allowed {
        var e := Refuse(TokenLimit(call.kind), allowed, used, call.tokens);
        return Some(e);
      }
      return None;
    }

    method CheckCostCeiling(call: AiCall) returns (r: Option<BudgetExhausted>)
      modifies this`exhausted
      ensures r.Some? <==> !Fits(budget, usage, call, Cost)
      ensures r.Some? ==> exhausted
      ensures r.Some? ==> r.value == BudgetExhausted(Cost, Allowed(budget, Cost), Used(usage, Cost), call.costMicros)
      ensures r.None? ==> exhausted == old(exhausted)
    {
      if budget.maxCostMicros.None? {
        return None;
      }
      var allowed := budget.maxCostMicros.value;
      if SatAdd(usage.costMicros, call.costMicros) > allowed {
        var e := Refuse(Cost, allowed, usage.costMicros, call.costMicros);
        return Some(e);
      }
      return None;
    }

    method Record(call: AiCall)
      modifies this`usage
      ensures usage == Spend(old(usage), call)
    {
      match call.kind {
        case Planning =>
          usage := usage.(planningTokens := SatAdd(usage.planningTokens, call.tokens));
        case Runtime =>
          usage := usage.(runtimeTokens := SatAdd(usage.runtimeTokens, call.tokens));
        case BrowserEscape =>
          usage := usage.(runtimeTokens := SatAdd(usage.runtimeTokens, call.tokens));
          usage := usage.(browserEscapeCalls := Min(U32_MAX, usage.browserEscapeCalls + 1));
        case Vision =>
          usage := usage.(runtimeTokens := SatAdd(usage.runtimeTokens, call.tokens));
          usage := usage.(visionCalls := Min(U32_MAX, usage.visionCalls + 1));
      }
      usage := usage.(costMicros := SatAdd(usage.costMicros, call.costMicros));
    }

    /** Charge one call: it is recorded whole, or refused with nothing recorded and exhaustion latched. */
    method Charge(call: AiCall) returns (r: Option<BudgetExhausted>)
      modifies this
      ensures r.None? <==> FitsAll(budget, old(usage), call)
      ensures State(usage, exhausted) == Apply(budget, State(old(usage), old(exhausted)), call)
      ensures r.Some? ==> FirstCrossed(budget, usage, call, r.value)
    {
      ghost var checks := Checks(call.kind);
      assert checks[|checks| - 2] == TokenLimit(call.kind) && checks[|checks| - 1] == Cost;
      r := CheckCallCeiling(call);
      if r.Some? { return; }
      r := CheckTokenCeiling(call);
      if r.Some? { return; }
      r := CheckCostCeiling(call);
      if r.Some? { return; }
      Record(call);
    }
  }

  // ----- runs of charges -----

  datatype State = State(usage: AiUsage, exhausted: bool)

  function Apply(budget: AiBudget, st: State, call: AiCall): State {
    if FitsAll(budget, st.usage, call) then State(Spend(st.usage, call), st.exhausted) else State(st.usage, true)
  }

  function Run(budget: AiBudget, st: State, calls: seq<AiCall>): State
    decreases |calls|
  {
    if calls == [] then st else Run(budget, Apply(budget, st, calls[0]), calls[1..])
  }

  /** What the accepted calls of a run asked of one ceiling. */
  function Granted(budget: AiBudget, st: State, calls: seq<AiCall>, limit: BudgetLimit): nat
    decreases |calls|
  {
    if calls == [] then 0
    else
      (if FitsAll(budget, st.usage, calls[0]) then Requested(calls[0], limit) else 0)
      + Granted(budget, Apply(budget, st, calls[0]), calls[1..], limit)
  }

  function Refusals(budget: AiBudget, st: State, calls: seq<AiCall>): nat
    decreases |calls|
  {
    if calls == [] then 0
    else (if FitsAll(budget, st.usage, calls[0]) then 0
          else 1) + Refusals(budget, Apply(budget, st, calls[0]), calls[1..])
  }

  /** The largest value the counter of a ceiling can hold. */
  function Width(limit: BudgetLimit): int {
    if limit.BrowserEscapeCalls? || limit.VisionCalls? then U32_MAX else U64_MAX
  }

  lemma ChecksEveryRequest(call: AiCall, limit: BudgetLimit)
    ensures Requested(call, limit) > 0 ==> exists i :: 0 <= i < |Checks(call.kind)| && Checks(call.kind)[i] == limit
  {
    var checks := Checks(call.kind);
    assert checks[|checks| - 1] == Cost && checks[|checks| - 2] == TokenLimit(call.kind);
    if |checks| == 3 { assert checks[0] == BrowserEscapeCalls || checks[0] == VisionCalls; }
  }

  /**
   * One charge: a ceiling that held still holds, one already crossed never moves, and the counter adds
   * exactly the grant.
   */
  lemma ApplyOnCeiling(budget: AiBudget, st: State, call: AiCall, limit: BudgetLimit)
    ensures var next := Apply(budget, st, call);
            var grant := if FitsAll(budget, st.usage, call) then Requested(call, limit) else 0;
            && Used(next.usage, limit) == Min(Width(limit), Used(st.usage, limit) + grant)
            && (Used(st.usage, limit) <= Allowed(budget, limit) ==> Used(next.usage, limit) <= Allowed(budget, limit))
            && (Used(st.usage, limit) > Allowed(budget, limit) ==> Used(next.usage, limit) == Used(st.usage, limit))
            && (Allowed(budget, limit) < Width(limit) ==> Used(next.usage, limit) == Used(st.usage, limit) + grant)
  {
    ChecksEveryRequest(call, limit);
    match limit {
      case PlanningTokens =>
      case RuntimeTokens =>
      case BrowserEscapeCalls =>
      case VisionCalls =>
      case Cost =>
    }
  }

  /**
   * Over any run, from a fresh or a resumed firewall: no ceiling is crossed, and one crossed before
   * resuming stays frozen.
   */
  lemma {:induction false} RunStaysWithinCeilings(budget: AiBudget, st: State, calls: seq<AiCall>, limit: BudgetLimit)
    ensures var end := Run(budget, st, calls);
            && (Used(st.usage, limit) <= Allowed(budget, limit) ==> Used(end.usage, limit) <= Allowed(budget, limit))
            && (Used(st.usage, limit) > Allowed(budget, limit) ==> Used(end.usage, limit) == Used(st.usage, limit))
    decreases |calls|
  {
    if calls != [] {
      ApplyOnCeiling(budget, st, calls[0], limit);
      RunStaysWithinCeilings(budget, Apply(budget, st, calls[0]), calls[1..], limit);
    }
  }

  /** The ledger: usage is what was granted, clipped only where the counter itself is full. */
  lemma {:induction false} RunConservesUsage(budget: AiBudget, st: State, calls: seq<AiCall>, limit: BudgetLimit)
    ensures Used(Run(budget, st, calls).usage, limit)
         == Min(Width(limit), Used(st.usage, limit) + Granted(budget, st, calls, limit))
    ensures Allowed(budget, limit) < Width(limit) ==>
              Used(Run(budget, st, calls).usage, limit) == Used(st.usage, limit) + Granted(budget, st, calls, limit)
    decreases |calls|
  {
    if calls != [] {
      ApplyOnCeiling(budget, st, calls[0], limit);
      RunConservesUsage(budget, Apply(budget, st, calls[0]), calls[1..], limit);
    }
  }

  /** Exhaustion latches: it holds at the end exactly when it held at the start or some call was refused. */
  lemma {:induction false} ExhaustionLatches(budget: AiBudget, st: State, calls: seq<AiCall>)
    ensures Run(budget, st, calls).exhausted <==> st.exhausted || Refusals(budget, st, calls) > 0
    decreases |calls|
  {
    if calls != [] {
      ExhaustionLatches(budget, Apply(budget, st, calls[0]), calls[1..]);
    }
  }

  lemma RunOfTwo(budget: AiBudget, st: State, a: AiCall, b: AiCall, limit: BudgetLimit)
    requires FitsAll(budget, st.usage, a) && FitsAll(budget, Apply(budget, st, a).usage, b)
    ensures Run(budget, st, [a, b]) == Apply(budget, Apply(budget, st, a), b)
    ensures Granted(budget, st, [a, b], limit) == Requested(a, limit) + Requested(b, limit)
  {
    hide FitsAll, Apply, Requested;
    assert [a, b][1..] == [b] && [b][1..] == [];
    var next := Apply(budget, st, a);
    assert Run(budget, next, [b]) == Apply(budget, next, b);
    assert Granted(budget, next, [b], limit) == Requested(b, limit);
  }

  const UNLIMITED := AiBudget(0, U64_MAX, 0, 0, None)
  const FILLING := AiCall(Runtime, U64_MAX, 0)
  const FORGOTTEN := AiCall(Runtime, 7, 0)

  lemma FullCounterSteps()
    ensures FitsAll(UNLIMITED, NO_USAGE, FILLING) && FitsAll(UNLIMITED, NO_USAGE.(runtimeTokens := U64_MAX), FORGOTTEN)
    ensures Spend(NO_USAGE, FILLING) == Spend(NO_USAGE.(runtimeTokens := U64_MAX), FORGOTTEN)
              == NO_USAGE.(runtimeTokens := U64_MAX)
  {
  }

  /** With an unlimited ceiling the counter can fill up and stop counting. */
  lemma FullCounterForgets()
    ensures Granted(UNLIMITED, State(NO_USAGE, false), [FILLING, FORGOTTEN], RuntimeTokens) == U64_MAX + 7
    ensures Run(UNLIMITED, State(NO_USAGE, false), [FILLING, FORGOTTEN]).usage.runtimeTokens == U64_MAX
  {
    hide FitsAll, Spend, Run, Granted;
    FullCounterSteps();
    RunOfTwo(UNLIMITED, State(NO_USAGE, false), FILLING, FORGOTTEN, RuntimeTokens);
  }
}

/** The local model adapter: a worst-case reservation on a clone, then the measured charge. */
module LocalModel {
  import opened Words
  import opened Options
  import opened Firewall
  import opened Decimal

  datatype LocalModelConfig = LocalModelConfig(model: string, maxOutputTokens: u64, inputRate: u64, outputRate: u64)

  /** What the endpoint answered; every other transport or decoding failure is NoReply. */
  datatype Reply = NoReply | Reply(text: string, usage: Option<(u64, u64)>)

  /** Preflight: the cloned reservation was refused. Refused: the real charge was. */
  datatype ModelError = BadPrompt | BadConfig | Preflight | BadResponse | Refused

  datatype LocalModelReply = LocalModelReply(text: string, inputTokens: u64, outputTokens: u64, costMicros: u64)

  const MAX_PROMPT_BYTES := 262144

  function DivCeil(n: nat, d: nat): nat
    requires d > 0
  {
    (n + d - 1) / d
  }

  function TokenCost(input: u64, output: u64, inputRate: u64, outputRate: u64): (r: u64) {
    DivCeil(SatAdd(SatMul(input, inputRate), SatMul(output, outputRate)), 1_000_000)
  }

  /** Tokens cost the least number of micros that pays both rates per million, each product and the sum clamped. */
  lemma CostIsRoundedUp(input: u64, output: u64, inputRate: u64, outputRate: u64, c: nat)
    ensures var due := Min(U64_MAX, Min(U64_MAX, input * inputRate) + Min(U64_MAX, output * outputRate));
            TokenCost(input, output, inputRate, outputRate) == c <==>
              due <= 1_000_000 * c && (c > 0 ==> 1_000_000 * (c - 1) < due)
  {
  }

  predicate PassesUsageCheck(prompt: u64, completion: u64, estimate: u64, maxOutput: u64) {
    SatAdd(prompt, completion) <= SatAdd(estimate, maxOutput) && completion <= maxOutput
  }

  function Reservation(kind: AiCallKind, estimate: u64, config: LocalModelConfig): AiCall {
    AiCall(kind, SatAdd(estimate, config.maxOutputTokens),
           TokenCost(estimate, config.maxOutputTokens, config.inputRate, config.outputRate))
  }

  function Measured(kind: AiCallKind, prompt: u64, completion: u64, config: LocalModelConfig): AiCall {
    AiCall(kind, SatAdd(prompt, completion), TokenCost(prompt, completion, config.inputRate, config.outputRate))
  }

  /** The whole token reservation reported as input. */
  function AllAsInput(kind: AiCallKind, estimate: u64, config: LocalModelConfig): AiCall {
    var total := SatAdd(estimate, config.maxOutputTokens);
    AiCall(kind, total, TokenCost(total, 0, config.inputRate, config.outputRate))
  }

  function Outcome(config: LocalModelConfig, kind: AiCallKind, promptBytes: nat, reply: Reply, budget: AiBudget,
                   usage: AiUsage)
    : Result<LocalModelReply, ModelError>
  {
    if promptBytes == 0 || promptBytes > MAX_PROMPT_BYTES then Err(BadPrompt)
    else if Trim(config.model) == "" || config.maxOutputTokens == 0 then Err(BadConfig)
    else if !FitsAll(budget, usage, Reservation(kind, promptBytes, config)) then Err(Preflight)
    else if reply.NoReply? || reply.usage.None? || reply.text == "" then Err(BadResponse)
    else
      var (prompt, completion) := reply.usage.value;
      if !PassesUsageCheck(prompt, completion, promptBytes, config.maxOutputTokens) then Err(BadResponse)
      else if !FitsAll(budget, usage, Measured(kind, prompt, completion, config)) then Err(Refused)
      else Ok(LocalModelReply(reply.text, prompt, completion, Measured(kind, prompt, completion, config).costMicros))
  }

  method CallLocalModel(config: LocalModelConfig, kind: AiCallKind, promptBytes: nat, reply: Reply,
                        firewall: AiCostFirewall)
    returns (r: Result<LocalModelReply, ModelError>)
    modifies firewall
    ensures r == Outcome(config, kind, promptBytes, reply, firewall.budget, old(firewall.usage))
    ensures firewall.usage == if r.Ok?
              then Spend(old(firewall.usage), Measured(kind, r.value.inputTokens, r.value.outputTokens, config))
                              else old(firewall.usage)
    ensures firewall.exhausted == (old(firewall.exhausted) || r == Err(Refused))
  {
    hide TokenCost;
    hide Fits;
    hide FitsAll;
    hide Spend;
    hide FirstCrossed;
    if promptBytes == 0 || promptBytes > MAX_PROMPT_BYTES { return Err(BadPrompt); }
    if Trim(config.model) == "" || config.maxOutputTokens == 0 { return Err(BadConfig); }
    var estimate: u64 := promptBytes;
    var reserved := Reservation(kind, estimate, config);
    var reservation := new AiCostFirewall.Clone(firewall);
    var refused := reservation.Charge(reserved);
    if refused.Some? { return Err(Preflight); }
    if reply.NoReply? || reply.usage.None? || reply.text == "" { return Err(BadResponse); }
    var (prompt, completion) := reply.usage.value;
    var tokens := SatAdd(prompt, completion);
    if tokens > reserved.tokens || completion > config.maxOutputTokens { return Err(BadResponse); }
    var cost := TokenCost(prompt, completion, config.inputRate, config.outputRate);
    refused := firewall.Charge(AiCall(kind, tokens, cost));
    if refused.Some? { return Err(Refused); }
    r := Ok(LocalModelReply(reply.text, prompt, completion, cost));
  }

  /** With input no dearer than output the real charge is never refused once the reservation was accepted. */
  lemma CallIsNeverRefused(config: LocalModelConfig, kind: AiCallKind, promptBytes: nat, reply: Reply, budget: AiBudget,
                           usage: AiUsage)
    requires config.inputRate <= config.outputRate && promptBytes + config.maxOutputTokens < U64_MAX
    ensures Outcome(config, kind, promptBytes, reply, budget, usage) != Err(Refused)
  {
    hide FitsAll;
    hide TokenCost;
    if reply.Reply? && reply.usage.Some? && FitsAll(budget, usage, Reservation(kind, promptBytes, config)) {
      var (prompt, completion) := reply.usage.value;
      if PassesUsageCheck(prompt, completion, promptBytes, config.maxOutputTokens) {
        ReservationCoversCharge(budget, usage, kind, promptBytes, prompt, completion, config);
      }
    }
  }

  lemma CostIsClampedSum(input: u64, output: u64, inputRate: u64, outputRate: u64)
    ensures TokenCost(input, output, inputRate, outputRate)
              == DivCeil(Clamp(input * inputRate + output * outputRate), 1_000_000)
  {
  }

  lemma DearestSplit(p: nat, c: nat, e: nat, m: nat, low: nat, high: nat)
    requires p + c <= e + m && c <= m && low <= high
    ensures p * low + c * high <= e * low + m * high
  {
    assert p * low <= (e + (m - c)) * low == e * low + (m - c) * low;
    assert (m - c) * low <= (m - c) * high;
  }

  lemma AllInput(p: nat, c: nat, total: nat, high: nat, low: nat)
    requires p + c <= total && low <= high
    ensures p * high + c * low <= total * high
  {
    assert c * low <= c * high;
    assert p * high + c * high == (p + c) * high <= total * high;
  }

  lemma ReservationCoversCharge(budget: AiBudget, usage: AiUsage, kind: AiCallKind, estimate: u64,
                                prompt: u64, completion: u64, config: LocalModelConfig)
    requires FitsAll(budget, usage, Reservation(kind, estimate, config))
    requires PassesUsageCheck(prompt, completion, estimate, config.maxOutputTokens)
    requires estimate + config.maxOutputTokens < U64_MAX && config.inputRate <= config.outputRate
    ensures FitsAll(budget, usage, Measured(kind, prompt, completion, config))
  {
    CostIsClampedSum(estimate, config.maxOutputTokens, config.inputRate, config.outputRate);
    CostIsClampedSum(prompt, completion, config.inputRate, config.outputRate);
    DearestSplit(prompt, completion, estimate, config.maxOutputTokens, config.inputRate, config.outputRate);
    SmallerCallFits(budget, usage, Reservation(kind, estimate, config), Measured(kind, prompt, completion, config));
  }

  lemma SmallerCallFits(budget: AiBudget, usage: AiUsage, large: AiCall, small: AiCall)
    requires FitsAll(budget, usage, large) && small.kind == large.kind
    requires small.tokens <= large.tokens && small.costMicros <= large.costMicros
    ensures FitsAll(budget, usage, small)
  {
    forall i | 0 <= i < |Checks(small.kind)| ensures Fits(budget, usage, small, Checks(small.kind)[i]) {
      assert Fits(budget, usage, large, Checks(small.kind)[i]);
    }
  }

  ghost predicate NeverRefused(budget: AiBudget, usage: AiUsage, kind: AiCallKind, estimate: u64,
                               config: LocalModelConfig) {
    forall prompt: u64, completion: u64 :: PassesUsageCheck(prompt, completion, estimate, config.maxOutputTokens) ==>
      FitsAll(budget, usage, Measured(kind, prompt, completion, config))
  }

  lemma NeverRefusedIfWorstFits(budget: AiBudget, usage: AiUsage, kind: AiCallKind, estimate: u64,
                                config: LocalModelConfig)
    requires FitsAll(budget, usage, Reservation(kind, estimate, config))
    requires estimate + config.maxOutputTokens < U64_MAX && config.outputRate <= config.inputRate
    requires Fits(budget, usage, AllAsInput(kind, estimate, config), Cost)
    ensures NeverRefused(budget, usage, kind, estimate, config)
  {
    hide FitsAll;
    hide Fits;
    hide TokenCost;
    var worst := AllAsInput(kind, estimate, config);
    WorstFits(budget, usage, Reservation(kind, estimate, config), worst);
    forall prompt: u64, completion: u64 | PassesUsageCheck(prompt, completion, estimate, config.maxOutputTokens)
      ensures FitsAll(budget, usage, Measured(kind, prompt, completion, config))
    {
      WorstIsDearest(kind, estimate, prompt, completion, config);
      SmallerCallFits(budget, usage, worst, Measured(kind, prompt, completion, config));
    }
  }

  lemma NeverRefusedMeansWorstFits(budget: AiBudget, usage: AiUsage, kind: AiCallKind, estimate: u64,
                                   config: LocalModelConfig)
    requires estimate + config.maxOutputTokens < U64_MAX && NeverRefused(budget, usage, kind, estimate, config)
    ensures Fits(budget, usage, AllAsInput(kind, estimate, config), Cost)
  {
    hide FitsAll;
    hide Fits;
    hide TokenCost;
    var total := SatAdd(estimate, config.maxOutputTokens);
    assert PassesUsageCheck(total, 0, estimate, config.maxOutputTokens);
    assert Measured(kind, total, 0, config) == AllAsInput(kind, estimate, config);
    CostIsChecked(budget, usage, AllAsInput(kind, estimate, config));
  }

  /**
   * After an accepted reservation the measured charge can never be refused exactly when output is
   * at least as dear as input, or the budget could also pay for the whole reservation as input.
   */
  lemma ChargeNeverRefusedExactlyWhen(budget: AiBudget, usage: AiUsage, kind: AiCallKind, estimate: u64,
                                      config: LocalModelConfig)
    requires FitsAll(budget, usage, Reservation(kind, estimate, config))
    requires estimate + config.maxOutputTokens < U64_MAX
    ensures NeverRefused(budget, usage, kind, estimate, config)
       <==> config.inputRate <= config.outputRate
            || Fits(budget, usage, AllAsInput(kind, estimate, config), Cost)
  {
    hide FitsAll;
    hide Fits;
    hide TokenCost;
    if config.inputRate <= config.outputRate {
      forall prompt: u64, completion: u64 | PassesUsageCheck(prompt, completion, estimate, config.maxOutputTokens)
        ensures FitsAll(budget, usage, Measured(kind, prompt, completion, config))
      {
        ReservationCoversCharge(budget, usage, kind, estimate, prompt, completion, config);
      }
    } else {
      hide NeverRefused;
      if Fits(budget, usage, AllAsInput(kind, estimate, config), Cost) {
        NeverRefusedIfWorstFits(budget, usage, kind, estimate, config);
      }
      if NeverRefused(budget, usage, kind, estimate, config) {
        NeverRefusedMeansWorstFits(budget, usage, kind, estimate, config);
      }
    }
  }

  lemma CostIsChecked(budget: AiBudget, usage: AiUsage, call: AiCall)
    ensures FitsAll(budget, usage, call) ==> Fits(budget, usage, call, Cost)
  {
    assert Checks(call.kind)[|Checks(call.kind)| - 1] == Cost;
  }

  lemma WorstIsDearest(kind: AiCallKind, estimate: u64, prompt: u64, completion: u64, config: LocalModelConfig)
    requires PassesUsageCheck(prompt, completion, estimate, config.maxOutputTokens)
    requires estimate + config.maxOutputTokens < U64_MAX && config.outputRate <= config.inputRate
    ensures var worst, call := AllAsInput(kind, estimate, config), Measured(kind, prompt, completion, config);
            call.tokens <= worst.tokens && call.costMicros <= worst.costMicros
  {
    hide TokenCost;
    hide DivCeil;
    var total := SatAdd(estimate, config.maxOutputTokens);
    CostIsClampedSum(total, 0, config.inputRate, config.outputRate);
    CostIsClampedSum(prompt, completion, config.inputRate, config.outputRate);
    AllInput(prompt, completion, total, config.inputRate, config.outputRate);
    CostMonotone(prompt * config.inputRate + completion * config.outputRate, total * config.inputRate);
  }

  lemma CostMonotone(n: nat, n': nat)
    requires n <= n'
    ensures DivCeil(Clamp(n), 1_000_000) <= DivCeil(Clamp(n'), 1_000_000)
  {
  }

  lemma WorstFits(budget: AiBudget, usage: AiUsage, reserved: AiCall, worst: AiCall)
    requires FitsAll(budget, usage, reserved) && worst.kind == reserved.kind && worst.tokens == reserved.tokens
    requires Fits(budget, usage, worst, Cost)
    ensures FitsAll(budget, usage, worst)
  {
    forall i | 0 <= i < |Checks(worst.kind)| ensures Fits(budget, usage, worst, Checks(worst.kind)[i]) {
      assert Fits(budget, usage, reserved, Checks(worst.kind)[i]);
    }
  }

  /** With input dearer than output a report that passes its checks can cost more than was reserved. */
  lemma DearInputCanBeRefused()
    ensures var config := LocalModelConfig("m", 100, 2_000_000, 1_000_000);
            var budget := AiBudget(0, 1000, 0, 0, Some(120));
            && FitsAll(budget, NO_USAGE, Reservation(Runtime, 10, config))
            && PassesUsageCheck(110, 0, 10, 100)
            && !FitsAll(budget, NO_USAGE, Measured(Runtime, 110, 0, config))
  {
    var config := LocalModelConfig("m", 100, 2_000_000, 1_000_000);
    var budget := AiBudget(0, 1000, 0, 0, Some(120));
    assert Checks(Runtime)[1] == Cost;
    assert !Fits(budget, NO_USAGE, Measured(Runtime, 110, 0, config), Cost);
  }
}
