/** When mandatory obligations are picked first, and when they are not. */
module SelectionPriority {
  import opened Words
  import opened Options
  import opened Text
  import opened Sorting
  import opened Selection
  import opened SelectionOrder

  /** Covers a mandatory obligation that is still open. */
  predicate Urgent(c: TestCandidate, remaining: set<string>, mandatory: set<string>) {
    c.covers * remaining * mandatory != {}
  }

  /** The test without a mandatory gain is worth more per cost, or as much and is cheaper, or has the smaller id. */
  ghost predicate Outprices(o: TestCandidate, m: TestCandidate, remaining: set<string>, mandatory: set<string>) {
    ExactlyBetter(|o.covers * remaining|, RankCost(o), o.id, Weight(m.covers * remaining, mandatory), RankCost(m), m.id)
  }

  /** Without a mandatory obligation every one counts 1. */
  lemma OptionalWeight(c: TestCandidate, remaining: set<string>, mandatory: set<string>)
    requires !Urgent(c, remaining, mandatory)
    ensures Weight(c.covers * remaining, mandatory) == |c.covers * remaining|
  {
  }

  /** A test that gains nothing mandatory is preferred to one that does exactly when it outprices it. */
  lemma MandatoryLosesExactlyWhen(cs: seq<TestCandidate>, m: TestCandidate, o: TestCandidate,
                                  remaining: set<string>, needed: set<string>, mandatory: set<string>)
    requires Unsaturated(cs, needed, mandatory) && m in cs && o in cs && remaining <= needed
    requires Urgent(m, remaining, mandatory) && !Urgent(o, remaining, mandatory)
    ensures Beats(o, m, remaining, mandatory) <==> Outprices(o, m, remaining, mandatory)
  {
    OptionalWeight(o, remaining, mandatory);
    BeatsByRank(cs, o, m, remaining, needed, mandatory);
  }

  /** One mandatory obligation against n optional ones: the cost ratio that decides depends on n. */
  lemma OneAgainstManyExactlyWhen(cs: seq<TestCandidate>, m: TestCandidate, o: TestCandidate, n: nat,
                                  remaining: set<string>, needed: set<string>, mandatory: set<string>)
    requires Unsaturated(cs, needed, mandatory) && m in cs && o in cs && remaining <= needed
    requires |m.covers * remaining| == 1 && m.covers * remaining <= mandatory
    requires |o.covers * remaining| == n && !Urgent(o, remaining, mandatory)
    ensures Beats(o, m, remaining, mandatory) <==>
              || n * RankCost(m) > 1000 * RankCost(o)
              || (n * RankCost(m) == 1000 * RankCost(o)
                  && (RankCost(o) < RankCost(m) || (RankCost(o) == RankCost(m) && Before(o.id, m.id))))
    ensures RankCost(m) == RankCost(o) && n > 1000 ==> Beats(o, m, remaining, mandatory)
  {
    assert m.covers * remaining * mandatory == m.covers * remaining;
    assert m.covers * remaining - mandatory == {};
    assert Weight(m.covers * remaining, mandatory) == 1000;
    MandatoryLosesExactlyWhen(cs, m, o, remaining, needed, mandatory);
    if RankCost(m) == RankCost(o) && n > 1000 {
      ProductMonotone(1001, n, RankCost(o));
    }
  }

  // ----- the first pick -----

  /** Some test without a mandatory gain outprices every test that has one. */
  ghost predicate OptionalOutprices(cs: seq<TestCandidate>, remaining: set<string>, mandatory: set<string>) {
    exists o :: o in cs && OutpricesAll(o, cs, remaining, mandatory)
  }

  ghost predicate OutpricesAll(o: TestCandidate, cs: seq<TestCandidate>, remaining: set<string>,
                               mandatory: set<string>) {
    && Gainful(o, remaining) && !Urgent(o, remaining, mandatory)
    && forall m :: m in cs && Urgent(m, remaining, mandatory) ==> Outprices(o, m, remaining, mandatory)
  }

  lemma BestOutprices(cs: seq<TestCandidate>, o: TestCandidate, m: TestCandidate,
                      remaining: set<string>, needed: set<string>, mandatory: set<string>)
    requires Unsaturated(cs, needed, mandatory) && DistinctIds(cs) && m in cs && o in cs && remaining <= needed
    requires Urgent(m, remaining, mandatory) && !Urgent(o, remaining, mandatory)
    ensures Outprices(o, m, remaining, mandatory) <==> !Beats(m, o, remaining, mandatory)
  {
    hide Beats, Outprices;
    MandatoryLosesExactlyWhen(cs, m, o, remaining, needed, mandatory);
    BeatsIsStrictTotalOrder(cs, remaining, needed, mandatory);
    assert m != o;
    BeatsAsymmetric(cs, m, o, remaining, needed, mandatory);
  }

  lemma UrgentIsGainful(c: TestCandidate, remaining: set<string>, mandatory: set<string>)
    requires Urgent(c, remaining, mandatory)
    ensures Gainful(c, remaining)
  {
    assert c.covers * remaining != {};
  }

  /** The best candidate gains nothing mandatory exactly when some such test outprices every mandatory one. */
  lemma BestIsOptionalExactlyWhen(cs: seq<TestCandidate>, remaining: set<string>, needed: set<string>,
                                  mandatory: set<string>)
    requires Unsaturated(cs, needed, mandatory) && DistinctIds(cs) && remaining <= needed
    ensures var best := BestUpTo(cs, |cs|, remaining, mandatory);
            (best.Some? && !Urgent(cs[best.value], remaining, mandatory)) <==>
                OptionalOutprices(cs, remaining, mandatory)
  {
    hide Beats, Outprices, Urgent, Gainful, BestUpTo, Unsaturated, DistinctIds;
    ScanFindsBest(cs, |cs|, remaining, needed, mandatory);
    var best := BestUpTo(cs, |cs|, remaining, mandatory);
    if best.None? {
      assert forall o :: o in cs ==> !Gainful(o, remaining);
    } else if !Urgent(cs[best.value], remaining, mandatory) {
      var b := cs[best.value];
      forall m | m in cs && Urgent(m, remaining, mandatory) ensures Outprices(b, m, remaining, mandatory) {
        UrgentIsGainful(m, remaining, mandatory);
        BestOutprices(cs, b, m, remaining, needed, mandatory);
      }
      assert b in cs && OutpricesAll(b, cs, remaining, mandatory);
    } else {
      forall o | o in cs && Gainful(o, remaining) && !Urgent(o, remaining, mandatory)
        ensures !Outprices(o, cs[best.value], remaining, mandatory)
      {
        MandatoryLosesExactlyWhen(cs, cs[best.value], o, remaining, needed, mandatory);
      }
      assert cs[best.value] in cs;
    }
  }

  lemma SortedKeeps(candidates: seq<TestCandidate>, needed: set<string>, mandatory: set<string>)
    ensures var cs := Sort(candidates, IdBefore);
            && (forall c :: c in cs <==> c in candidates)
            && (Unsaturated(candidates, needed, mandatory) ==> Unsaturated(cs, needed, mandatory))
            && (DistinctIds(candidates) ==> DistinctIds(cs))
  {
    SameElements(Sort(candidates, IdBefore), candidates);
    if DistinctIds(candidates) {
      SortedByIdIsAscending(candidates);
      AscendingIdsDiffer(Sort(candidates, IdBefore));
    }
  }

  lemma AscendingIdsDiffer(cs: seq<TestCandidate>)
    requires Ascending(cs, IdBefore)
    ensures DistinctIds(cs)
  {
    hide Before;
    forall i, j | 0 <= i < j < |cs| ensures cs[i].id != cs[j].id {
      assert IdBefore(cs[i], cs[j]);
      BeforeIrreflexive(cs[i].id);
    }
  }

  /**
   * A plan starts with a pick of optional obligations exactly when some optional test outprices every
   * mandatory one.
   */
  lemma OptionalComesFirstExactlyWhen(candidates: seq<TestCandidate>, obligations: seq<ObligationNeed>)
    requires Unsaturated(candidates, NeedIds(obligations), MandatoryIds(obligations)) && DistinctIds(candidates)
    ensures var picks, mandatory := PlanOf(candidates, obligations).selected, MandatoryIds(obligations);
            (picks != [] && picks[0].covers * mandatory == {})
              <==> OptionalOutprices(candidates, NeedIds(obligations), mandatory)
  {
    hide Outprices;
    var cs, needed, mandatory := Sort(candidates, IdBefore), NeedIds(obligations), MandatoryIds(obligations);
    SortedKeeps(candidates, needed, mandatory);
    BestIsOptionalExactlyWhen(cs, needed, needed, mandatory);
    GreedyUnfolds(cs, needed, mandatory);
  }

  // ----- the whole plan -----

  /** What a caller has to bound: no other test has so many optional obligations at so low a cost. */
  ghost predicate MandatoryIsAffordable(cs: seq<TestCandidate>, needed: set<string>, mandatory: set<string>) {
    forall m, o :: m in cs && o in cs && m != o && Urgent(m, needed, mandatory) ==>
      RankCost(m) * |o.covers * needed - mandatory| < 1000 * RankCost(o)
  }

  lemma AffordableIsPreferred(cs: seq<TestCandidate>, m: TestCandidate, o: TestCandidate,
                              remaining: set<string>, needed: set<string>, mandatory: set<string>)
    requires Unsaturated(cs, needed, mandatory) && m in cs && o in cs && remaining <= needed
    requires MandatoryIsAffordable(cs, needed, mandatory)
    requires Urgent(m, remaining, mandatory) && !Urgent(o, remaining, mandatory)
    ensures Beats(m, o, remaining, mandatory)
  {
    StaysUrgent(m, remaining, needed, mandatory);
    GainShrinks(o, remaining, needed, mandatory);
    OptionalWeight(o, remaining, mandatory);
    BeatsByRank(cs, m, o, remaining, needed, mandatory);
    hide Unsaturated, Beats, Urgent, Weight, RankCost;
    var few, many := |o.covers * remaining|, |o.covers * needed - mandatory|;
    ProductMonotone(few, many, RankCost(m));
    ProductMonotone(1000, Weight(m.covers * remaining, mandatory), RankCost(o));
  }

  lemma StaysUrgent(m: TestCandidate, remaining: set<string>, needed: set<string>, mandatory: set<string>)
    requires remaining <= needed && Urgent(m, remaining, mandatory)
    ensures Urgent(m, needed, mandatory) && Weight(m.covers * remaining, mandatory) >= 1000
  {
    var id :| id in m.covers * remaining * mandatory;
    assert id in m.covers * needed * mandatory;
  }

  lemma GainShrinks(o: TestCandidate, remaining: set<string>, needed: set<string>, mandatory: set<string>)
    requires remaining <= needed && !Urgent(o, remaining, mandatory)
    ensures |o.covers * remaining| <= |o.covers * needed - mandatory|
  {
    var few, many := o.covers * remaining, o.covers * needed - mandatory;
    forall id | id in few ensures id in many {
      assert id in mandatory ==> id in o.covers * remaining * mandatory;
    }
    SubsetIsSmaller(few, many);
  }

  lemma {:induction false} SubsetIsSmaller<T>(a: set<T>, b: set<T>)
    requires a <= b
    ensures |a| <= |b|
  {
    assert b == a + (b - a);
  }

  ghost predicate MandatoryFirst(picks: seq<SelectedTest>, mandatory: set<string>) {
    forall i, j :: 0 <= i < j < |picks| && picks[j].covers * mandatory != {} ==> picks[i].covers * mandatory != {}
  }

  /** Under the bound, no pick without a mandatory obligation comes before one with. */
  lemma {:induction false} GreedyIsMandatoryFirst(cs: seq<TestCandidate>, unused: seq<TestCandidate>,
                                                  remaining: set<string>, needed: set<string>, mandatory: set<string>)
    requires Unsaturated(cs, needed, mandatory) && MandatoryIsAffordable(cs, needed, mandatory) && remaining <= needed
    requires forall c :: c in unused ==> c in cs
    ensures MandatoryFirst(Greedy(unused, remaining, mandatory), mandatory)
    decreases |unused|
  {
    hide Beats, Unsaturated, MandatoryIsAffordable, BestUpTo;
    var picks := Greedy(unused, remaining, mandatory);
    var best := BestUpTo(unused, |unused|, remaining, mandatory);
    GreedyUnfolds(unused, remaining, mandatory);
    if best.Some? {
      var b, left := unused[best.value], remaining - PickOf(unused[best.value], remaining).covers;
      var later := GreedyRest(unused, best.value, remaining, mandatory);
      RestUnfolds(unused, best.value, remaining, mandatory);
      if left != {} {
        GreedyIsMandatoryFirst(cs, Without(unused, best.value), left, needed, mandatory);
      }
      hide Greedy, GreedyRest;
      if !Urgent(b, remaining, mandatory) {
        forall j | 0 < j < |picks| ensures picks[j].covers * mandatory == {} {
          NothingUrgentAfter(cs, unused, best.value, picks, j, remaining, needed, mandatory);
        }
      }
      FirstPickDecides(picks, later, mandatory);
    }
  }

  lemma FirstPickDecides(picks: seq<SelectedTest>, later: seq<SelectedTest>, mandatory: set<string>)
    requires picks != [] && later == picks[1..] && MandatoryFirst(later, mandatory)
    requires picks[0].covers * mandatory == {} ==> forall j :: 0 < j < |picks| ==> picks[j].covers * mandatory == {}
    ensures MandatoryFirst(picks, mandatory)
  {
    forall i, j | 0 <= i < j < |picks| && picks[j].covers * mandatory != {} ensures picks[i].covers * mandatory != {} {
      if i > 0 {
        assert later[j - 1] == picks[j] && later[i - 1] == picks[i];
      }
    }
  }

  /** Once the best candidate has no mandatory gain, no candidate has one. */
  lemma NothingUrgentAfter(cs: seq<TestCandidate>, unused: seq<TestCandidate>, best: nat, picks: seq<SelectedTest>,
                           j: nat,
                           remaining: set<string>, needed: set<string>, mandatory: set<string>)
    requires Unsaturated(cs, needed, mandatory) && MandatoryIsAffordable(cs, needed, mandatory) && remaining <= needed
    requires forall c :: c in unused ==> c in cs
    requires BestUpTo(unused, |unused|, remaining, mandatory) == Some(best) && best < |unused|
    requires !Urgent(unused[best], remaining, mandatory)
    requires picks == Greedy(unused, remaining, mandatory) && j < |picks|
    ensures picks[j].covers * mandatory == {}
  {
    hide Beats, BestUpTo, Greedy, MandatoryIsAffordable;
    GreedyPartitions(unused, remaining, mandatory);
    if id :| id in picks[j].covers * mandatory {
      assert id in AllCovers(picks);
      assert id in Coverable(unused);
      var i :| 0 <= i < |unused| && id in unused[i].covers;
      var c := unused[i];
      assert id in c.covers * remaining * mandatory;
      UrgentIsGainful(c, remaining, mandatory);
      UnsaturatedPart(cs, unused, needed, mandatory);
      ScanFindsBest(unused, |unused|, remaining, needed, mandatory);
      AffordableIsPreferred(cs, c, unused[best], remaining, needed, mandatory);
      assert false;
    }
  }

  /**
   * A caller who bounds optional obligations by cost gets every mandatory obligation picked before any
   * optional-only test.
   */
  lemma MandatoryPicksComeFirst(candidates: seq<TestCandidate>, obligations: seq<ObligationNeed>)
    requires Unsaturated(candidates, NeedIds(obligations), MandatoryIds(obligations))
    requires MandatoryIsAffordable(candidates, NeedIds(obligations), MandatoryIds(obligations))
    ensures MandatoryFirst(PlanOf(candidates, obligations).selected, MandatoryIds(obligations))
  {
    var cs, needed, mandatory := Sort(candidates, IdBefore), NeedIds(obligations), MandatoryIds(obligations);
    SortedKeeps(candidates, needed, mandatory);
    GreedyIsMandatoryFirst(candidates, cs, needed, needed, mandatory);
  }

  // ----- one obligation -----

  /** Cheaper by cost plus flake penalty, at least 1, or as cheap and with the smaller id. */
  predicate Cheaper(c: TestCandidate, d: TestCandidate) {
    var x, y := Max(1, c.cost + c.flakePenalty), Max(1, d.cost + d.flakePenalty);
    x < y || (x == y && Before(c.id, d.id))
  }

  /** A plan for a single obligation takes the cheapest test that covers it, flake penalty included. */
  lemma SingleObligationTakesTheCheapest(candidates: seq<TestCandidate>, need: ObligationNeed, d: TestCandidate)
    returns (c: TestCandidate)
    requires Unsaturated(candidates, NeedIds([need]), MandatoryIds([need])) && DistinctIds(candidates)
    requires d in candidates && need.id in d.covers
    ensures c in candidates && need.id in c.covers
    ensures PlanOf(candidates, [need]).selected == [SelectedTest(c.id, {need.id}, c.cost + c.flakePenalty)]
    ensures forall x :: x in candidates && need.id in x.covers && x != c ==> Cheaper(c, x)
  {
    var cs, needed, mandatory := Sort(candidates, IdBefore), NeedIds([need]), MandatoryIds([need]);
    OnlyNeed(need);
    SortedKeeps(candidates, needed, mandatory);
    assert PlanOf(candidates, [need]).selected == Greedy(cs, needed, mandatory);
    hide Unsaturated, DistinctIds, NeedIds, MandatoryIds, Greedy, Cheaper, PlanOf, Sort;
    var best := CheapestOf(cs, needed, mandatory, need.id, d);
    c := cs[best];
    assert c in cs;
  }

  lemma CheapestOf(cs: seq<TestCandidate>, needed: set<string>, mandatory: set<string>, o: string, d: TestCandidate)
    returns (best: nat)
    requires Unsaturated(cs, needed, mandatory) && DistinctIds(cs) && needed == {o} && d in cs && o in d.covers
    ensures best < |cs| && o in cs[best].covers
    ensures Greedy(cs, needed, mandatory) == [SelectedTest(cs[best].id, {o}, cs[best].cost + cs[best].flakePenalty)]
    ensures forall x :: x in cs && o in x.covers && x != cs[best] ==> Cheaper(cs[best], x)
  {
    hide Beats, Unsaturated, DistinctIds, BestUpTo, Unbeaten, Cheaper, Greedy;
    best := BestForOne(cs, needed, mandatory, o, d);
    PickIsAll(cs, best, needed, mandatory, o);
    forall x | x in cs && o in x.covers && x != cs[best] ensures Cheaper(cs[best], x) {
      CheaperOfTwo(cs, best, x, needed, mandatory, o);
    }
  }

  lemma BestForOne(cs: seq<TestCandidate>, needed: set<string>, mandatory: set<string>, o: string, d: TestCandidate)
    returns (best: nat)
    requires Unsaturated(cs, needed, mandatory) && needed == {o} && d in cs && o in d.covers
    ensures best < |cs| && BestUpTo(cs, |cs|, needed, mandatory) == Some(best)
    ensures o in cs[best].covers && cs[best].covers * needed == {o} && Unbeaten(cs, |cs|, best, needed, mandatory)
  {
    hide Beats, Unsaturated, BestUpTo, Unbeaten;
    ScanFindsBest(cs, |cs|, needed, needed, mandatory);
    var k :| 0 <= k < |cs| && cs[k] == d;
    assert o in cs[k].covers * needed;
    assert BestUpTo(cs, |cs|, needed, mandatory).Some?;
    best := BestUpTo(cs, |cs|, needed, mandatory).value;
    var x :| x in cs[best].covers * needed;
    assert x == o;
    assert cs[best].covers * needed == {o};
  }

  lemma OnlyNeed(need: ObligationNeed)
    ensures NeedIds([need]) == {need.id}
  {
    assert [need][0] == need;
  }

  lemma PickIsAll(cs: seq<TestCandidate>, best: nat, needed: set<string>, mandatory: set<string>, o: string)
    requires Unsaturated(cs, needed, mandatory) && BestUpTo(cs, |cs|, needed, mandatory) == Some(best) && best < |cs|
    requires needed == {o} && cs[best].covers * needed == {o}
    ensures Greedy(cs, needed, mandatory)
         == [SelectedTest(cs[best].id, {o}, cs[best].cost + cs[best].flakePenalty)]
  {
    GreedyUnfolds(cs, needed, mandatory);
    RestUnfolds(cs, best, needed, mandatory);
    assert cs[best] in cs;
    hide Greedy, GreedyRest, BestUpTo;
  }

  lemma CheaperOfTwo(cs: seq<TestCandidate>, best: nat, x: TestCandidate, needed: set<string>, mandatory: set<string>,
                     o: string)
    requires Unsaturated(cs, needed, mandatory) && DistinctIds(cs) && best < |cs| && x in cs && x != cs[best]
    requires Unbeaten(cs, |cs|, best, needed, mandatory) && needed == {o} && o in x.covers && o in cs[best].covers
    ensures Cheaper(cs[best], x)
  {
    var c := cs[best];
    assert c.covers * needed == {o} == x.covers * needed;
    var k :| 0 <= k < |cs| && cs[k] == x;
    assert Gainful(x, needed);
    assert !Beats(cs[k], cs[best], needed, mandatory);
    BeatsIsStrictTotalOrder(cs, needed, needed, mandatory);
    BeatsIsExact(cs, c, x, needed, needed, mandatory);
    WeightPositive({o}, mandatory);
    hide Beats, Weight, Unsaturated, DistinctIds, Unbeaten;
    var w, p, q := Weight({o}, mandatory), Max(1, c.cost + c.flakePenalty), Max(1, x.cost + x.flakePenalty);
    SameFactor(w, p, q);
  }

  lemma SameFactor(w: nat, p: nat, q: nat)
    requires w > 0
    ensures w * q > w * p <==> q > p
    ensures w * q == w * p <==> q == p
  {
    CancelFactor(q, p, w);
    CancelFactor(p, q, w);
    if q > p { ProductMonotone(p + 1, q, w); }
  }

  // ----- an optional test first -----

  /** A mandatory test a thousand times dearer is picked after an optional one, though the plan still holds it. */
  lemma OptionalCanComeFirst()
    ensures var dear, cheap := TestCandidate("A", 1001, 0, {"must"}), TestCandidate("B", 1, 0, {"may"});
            PlanOf([dear, cheap], [ObligationNeed("must", true), ObligationNeed("may", false)])
              == SelectionPlan([SelectedTest("B", {"may"}, 1), SelectedTest("A", {"must"}, 1001)], {})
  {
    var dear, cheap := TestCandidate("A", 1001, 0, {"must"}), TestCandidate("B", 1, 0, {"may"});
    var cs, obligations := [dear, cheap], [ObligationNeed("must", true), ObligationNeed("may", false)];
    WitnessIds(obligations);
    assert Sort(cs[..1], IdBefore) == [dear];
    assert Sort(cs, IdBefore) == cs;
    WitnessPicks(dear, cheap, {"must", "may"}, {"must"});
  }

  lemma WitnessIds(obligations: seq<ObligationNeed>)
    requires obligations == [ObligationNeed("must", true), ObligationNeed("may", false)]
    ensures NeedIds(obligations) == {"must", "may"} && MandatoryIds(obligations) == {"must"}
  {
    assert obligations[0].id in NeedIds(obligations) && obligations[1].id in NeedIds(obligations);
    assert obligations[0].id in MandatoryIds(obligations);
  }

  lemma WitnessPicks(dear: TestCandidate, cheap: TestCandidate, needed: set<string>, mandatory: set<string>)
    requires dear == TestCandidate("A", 1001, 0, {"must"}) && cheap == TestCandidate("B", 1, 0, {"may"})
    requires needed == {"must", "may"} && mandatory == {"must"}
    ensures var picks := Greedy([dear, cheap], needed, mandatory);
            picks == [SelectedTest("B", {"may"}, 1), SelectedTest("A", {"must"}, 1001)]
                && mandatory - AllCovers(picks) == {}
  {
    var cs := [dear, cheap];
    assert dear.covers * needed == {"must"} && cheap.covers * needed == {"may"};
    OneAgainstManyExactlyWhen(cs, dear, cheap, 1, needed, needed, mandatory);
    hide Score;
    hide Beats;
    assert BestUpTo(cs, 1, needed, mandatory) == Some(0);
    assert BestUpTo(cs, 2, needed, mandatory) == Some(1);
    assert Without(cs, 1) == [dear] && needed - {"may"} == {"must"};
    assert dear.covers * {"must"} == {"must"};
    assert BestUpTo([dear], 1, {"must"}, mandatory) == Some(0);
    var picks := [SelectedTest("B", {"may"}, 1), SelectedTest("A", {"must"}, 1001)];
    assert {"must"} - {"must"} == {};
    assert Greedy([dear], {"must"}, mandatory) == [picks[1]];
    assert GreedyRest(cs, 1, needed, mandatory) == [picks[1]];
    assert Greedy(cs, needed, mandatory) == picks;
    assert picks[1].covers == {"must"};
  }
}
