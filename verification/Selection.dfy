/** Greedy weighted set cover for minimal impacted regression. */
module Selection {
  import opened Words
  import opened Options
  import opened Sequences
  import opened Text
  import opened Sorting

  datatype TestCandidate = TestCandidate(id: string, cost: u64, flakePenalty: u64, covers: set<string>)

  datatype ObligationNeed = ObligationNeed(id: string, highRisk: bool)

  datatype SelectedTest = SelectedTest(id: string, covers: set<string>, cost: u64)

  datatype SelectionPlan = SelectionPlan(selected: seq<SelectedTest>, uncoveredMandatory: set<string>)

  datatype CandidateSources = CandidateSources(
    baseProtectors: seq<TestCandidate>,
    headStatic: seq<TestCandidate>,
    headDynamic: seq<TestCandidate>,
    obligationTests: seq<TestCandidate>,
    riskRequired: seq<TestCandidate>)
  {
    function All(): seq<TestCandidate> {
      baseProtectors + headStatic + headDynamic + obligationTests + riskRequired
    }
  }

  const MANDATORY_WEIGHT: u64 := 1000

  function EffectiveCost(c: TestCandidate): u64 {
    SatAdd(c.cost, c.flakePenalty)
  }

  function RankCost(c: TestCandidate): u64 {
    Max(1, EffectiveCost(c))
  }

  function Score(c: TestCandidate, remaining: set<string>, mandatory: set<string>): u64 {
    SatAdd(SatMul(Clamp(|c.covers * remaining * mandatory|), MANDATORY_WEIGHT),
           Clamp(|c.covers * remaining - mandatory|))
  }

  predicate Better(score: u64, cost: u64, id: string, bestScore: u64, bestCost: u64, bestId: string) {
    var left, right := SatMul(score, bestCost), SatMul(bestScore, cost);
    if left != right then left > right
    else if cost != bestCost then cost < bestCost
    else Before(id, bestId)
  }

  predicate Beats(a: TestCandidate, b: TestCandidate, remaining: set<string>, mandatory: set<string>) {
    Better(Score(a, remaining, mandatory), RankCost(a), a.id, Score(b, remaining, mandatory), RankCost(b), b.id)
  }

  predicate Gainful(c: TestCandidate, remaining: set<string>) {
    c.covers * remaining != {}
  }

  /** One step of the scan: candidate n against the best of those before it. */
  function Scan(best: Option<nat>, unused: seq<TestCandidate>, n: nat, remaining: set<string>,
                mandatory: set<string>): (r: Option<nat>)
    requires n < |unused| && (best.Some? ==> best.value < n)
    ensures r.Some? ==> r.value <= n
  {
    if Gainful(unused[n], remaining) && (best.None? || Beats(unused[n], unused[best.value], remaining, mandatory))
    then Some(n) else best
  }

  /** The winner of the scan over the first n unused candidates. */
  function BestUpTo(unused: seq<TestCandidate>, n: nat, remaining: set<string>,
                    mandatory: set<string>): (r: Option<nat>)
    requires n <= |unused|
    ensures r.Some? ==> r.value < n
  {
    if n == 0 then None
    else Scan(BestUpTo(unused, n - 1, remaining, mandatory), unused, n - 1, remaining, mandatory)
  }

  function Without<T>(s: seq<T>, i: nat): seq<T>
    requires i < |s|
  {
    s[..i] + s[i + 1..]
  }

  function PickOf(c: TestCandidate, remaining: set<string>): SelectedTest {
    SelectedTest(c.id, c.covers * remaining, EffectiveCost(c))
  }

  /** The picks of the greedy loop, in order. */
  function Greedy(unused: seq<TestCandidate>, remaining: set<string>, mandatory: set<string>): seq<SelectedTest>
    decreases |unused|, 1
  {
    var best := BestUpTo(unused, |unused|, remaining, mandatory);
    if best.None? then []
    else [PickOf(unused[best.value], remaining)] + GreedyRest(unused, best.value, remaining, mandatory)
  }

  /** What the loop picks after candidate i. */
  function GreedyRest(unused: seq<TestCandidate>, i: nat, remaining: set<string>,
                      mandatory: set<string>): seq<SelectedTest>
    requires i < |unused|
    decreases |unused|, 0
  {
    var left := remaining - unused[i].covers * remaining;
    if left == {} then [] else Greedy(Without(unused, i), left, mandatory)
  }

  function AllCovers(picks: seq<SelectedTest>): set<string> {
    set i, o | 0 <= i < |picks| && o in picks[i].covers :: o
  }

  function Coverable(cs: seq<TestCandidate>): set<string> {
    set i, o | 0 <= i < |cs| && o in cs[i].covers :: o
  }

  function NeedIds(obligations: seq<ObligationNeed>): set<string> {
    set i | 0 <= i < |obligations| :: obligations[i].id
  }

  function MandatoryIds(obligations: seq<ObligationNeed>): set<string> {
    set i | 0 <= i < |obligations| && obligations[i].highRisk :: obligations[i].id
  }

  predicate IdBefore(a: TestCandidate, b: TestCandidate) {
    Before(a.id, b.id)
  }

  lemma IdOrder()
    ensures StrictOrder(IdBefore)
  {
    BeforeIsStrictOrder();
  }

  ghost predicate DistinctIds(cs: seq<TestCandidate>) {
    forall i, j :: 0 <= i < j < |cs| ==> cs[i].id != cs[j].id
  }

  /** The plan as a function of the sorted candidate list. */
  function PlanOf(candidates: seq<TestCandidate>, obligations: seq<ObligationNeed>): SelectionPlan {
    var picks := Greedy(Sort(candidates, IdBefore), NeedIds(obligations), MandatoryIds(obligations));
    SelectionPlan(picks, MandatoryIds(obligations) - AllCovers(picks))
  }

  // ----- the loops -----

  lemma GainStep(seen: set<string>, id: string, remaining: set<string>, mandatory: set<string>)
    requires id !in seen
    ensures |(seen + {id}) * remaining * mandatory|
         == |seen * remaining * mandatory| + if id in remaining && id in mandatory then 1 else 0
    ensures |(seen + {id}) * remaining - mandatory|
         == |seen * remaining - mandatory| + if id in remaining && id !in mandatory then 1 else 0
  {
    var both, optional := seen * remaining * mandatory, seen * remaining - mandatory;
    if id in remaining && id in mandatory {
      assert (seen + {id}) * remaining * mandatory == both + {id};
      assert (seen + {id}) * remaining - mandatory == optional;
    } else if id in remaining {
      assert (seen + {id}) * remaining * mandatory == both;
      assert (seen + {id}) * remaining - mandatory == optional + {id};
    } else {
      assert (seen + {id}) * remaining == seen * remaining;
    }
  }

  method Gains(candidate: TestCandidate, remaining: set<string>, mandatory: set<string>)
    returns (gainMandatory: u64, gainOptional: u64)
    ensures gainMandatory == Clamp(|candidate.covers * remaining * mandatory|)
    ensures gainOptional == Clamp(|candidate.covers * remaining - mandatory|)
  {
    gainMandatory, gainOptional := 0, 0;
    var todo := candidate.covers;
    ghost var seen := {};
    while todo != {}
      invariant seen + todo == candidate.covers && seen !! todo
      invariant gainMandatory == Clamp(|seen * remaining * mandatory|)
      invariant gainOptional == Clamp(|seen * remaining - mandatory|)
      decreases todo
    {
      var id :| id in todo;
      GainStep(seen, id, remaining, mandatory);
      if id in remaining {
        if id in mandatory {
          gainMandatory := SatAdd(gainMandatory, 1);
        } else {
          gainOptional := SatAdd(gainOptional, 1);
        }
      }
      todo, seen := todo - {id}, seen + {id};
    }
    assert seen == candidate.covers;
  }

  lemma NoGain(c: TestCandidate, remaining: set<string>, mandatory: set<string>)
    ensures Gainful(c, remaining) <==>
            Clamp(|c.covers * remaining * mandatory|) != 0 || Clamp(|c.covers * remaining - mandatory|) != 0
  {
    var useful := c.covers * remaining;
    assert useful == useful * mandatory + (useful - mandatory);
    assert useful == {} ==> useful * mandatory == {} && useful - mandatory == {};
  }

  method BestIndex(unused: seq<TestCandidate>, remaining: set<string>, mandatory: set<string>)
    returns (best: Option<nat>)
    ensures best == BestUpTo(unused, |unused|, remaining, mandatory)
  {
    best := None;
    var bestScore: u64, bestCost: u64 := 0, 0;
    for index := 0 to |unused|
      invariant best == BestUpTo(unused, index, remaining, mandatory)
      invariant best.Some? ==> bestScore == Score(unused[best.value], remaining, mandatory)
      invariant best.Some? ==> bestCost == RankCost(unused[best.value])
    {
      var candidate := unused[index];
      var gainMandatory, gainOptional := Gains(candidate, remaining, mandatory);
      NoGain(candidate, remaining, mandatory);
      ghost var previous := best;
      if gainMandatory != 0 || gainOptional != 0 {
        var cost := RankCost(candidate);
        var score := SatAdd(SatMul(gainMandatory, MANDATORY_WEIGHT), gainOptional);
        if best.None? || Better(score, cost, candidate.id, bestScore, bestCost, unused[best.value].id) {
          best, bestScore, bestCost := Some(index), score, cost;
        }
      }
      assert best == Scan(previous, unused, index, remaining, mandatory);
    }
  }

  method SelectMinimalPlan(candidates: seq<TestCandidate>, obligations: seq<ObligationNeed>)
    returns (plan: SelectionPlan)
    ensures plan == PlanOf(candidates, obligations)
  {
    var mandatory := MandatoryIds(obligations);
    var selected, remaining := TakeGreedily(Sort(candidates, IdBefore), NeedIds(obligations), mandatory);
    MandatoryIsNeeded(obligations);
    plan := SelectionPlan(selected, set id | id in mandatory && id in remaining);
  }

  method TakeGreedily(candidates: seq<TestCandidate>, needed: set<string>, mandatory: set<string>)
    returns (selected: seq<SelectedTest>, remaining: set<string>)
    ensures selected == Greedy(candidates, needed, mandatory)
    ensures remaining == needed - AllCovers(selected)
  {
    hide Greedy, GreedyRest, BestUpTo, PickOf, Without, AllCovers;
    NothingCoversNothing();
    var unused := candidates;
    selected, remaining := [], needed;
    ghost var ahead, covered := Greedy(candidates, needed, mandatory), {};
    var open := true;
    while open
      invariant Greedy(candidates, needed, mandatory) == selected + ahead
      invariant ahead == if open then Greedy(unused, remaining, mandatory) else []
      invariant AllCovers(selected) == covered
      invariant remaining == needed - covered
      decreases open, |unused|
    {
      var best := BestIndex(unused, remaining, mandatory);
      GreedyUnfolds(unused, remaining, mandatory);
      if best.None? {
        open := false;
      } else {
        var pick := PickOf(unused[best.value], remaining);
        AllCoversAppend(selected, pick);
        ahead := GreedyRest(unused, best.value, remaining, mandatory);
        RestUnfolds(unused, best.value, remaining, mandatory);
        ConcatAssociates(selected, [pick], ahead);
        unused := Without(unused, best.value);
        remaining := remaining - pick.covers;
        selected, covered := selected + [pick], covered + pick.covers;
        open := remaining != {};
      }
    }
  }

  lemma NothingCoversNothing()
    ensures AllCovers([]) == {}
  {
  }

  lemma GreedyUnfolds(unused: seq<TestCandidate>, remaining: set<string>, mandatory: set<string>)
    ensures var best := BestUpTo(unused, |unused|, remaining, mandatory);
            Greedy(unused, remaining, mandatory)
              == if best.None? then []
                  else [PickOf(unused[best.value], remaining)] + GreedyRest(unused, best.value, remaining, mandatory)
  {
  }

  lemma RestUnfolds(unused: seq<TestCandidate>, i: nat, remaining: set<string>, mandatory: set<string>)
    requires i < |unused|
    ensures var left := remaining - PickOf(unused[i], remaining).covers;
            GreedyRest(unused, i, remaining, mandatory) == if left == {} then []
                else Greedy(Without(unused, i), left, mandatory)
    ensures |Without(unused, i)| < |unused|
  {
  }

  lemma MandatoryIsNeeded(obligations: seq<ObligationNeed>)
    ensures MandatoryIds(obligations) <= NeedIds(obligations)
  {
  }

  lemma AllCoversAppend(picks: seq<SelectedTest>, p: SelectedTest)
    ensures AllCovers(picks + [p]) == AllCovers(picks) + p.covers
  {
    forall o ensures o in AllCovers(picks + [p]) <==> o in AllCovers(picks) + p.covers {
      if o in AllCovers(picks) {
        var i :| 0 <= i < |picks| && o in picks[i].covers;
        assert (picks + [p])[i] == picks[i];
      }
      if o in p.covers {
        assert (picks + [p])[|picks|] == p;
      }
    }
  }

  lemma AllCoversPrepend(p: SelectedTest, picks: seq<SelectedTest>)
    ensures AllCovers([p] + picks) == p.covers + AllCovers(picks)
  {
    var s := [p] + picks;
    forall o ensures o in AllCovers(s) <==> o in p.covers + AllCovers(picks) {
      if o in AllCovers(picks) {
        var i :| 0 <= i < |picks| && o in picks[i].covers;
        assert s[i + 1] == picks[i];
      }
      if o in p.covers {
        assert s[0] == p;
      }
    }
  }
}
