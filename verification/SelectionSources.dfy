/** The union of the five candidate sources, and the plan built on it. */
module SelectionSources {
  import opened Words
  import opened Options
  import opened Text
  import opened Sorting
  import opened Selection
  import opened SelectionOrder

  /** m carries everything the candidates of its id say: all obligations, least cost, worst flake penalty. */
  ghost predicate Summarises(m: TestCandidate, all: seq<TestCandidate>) {
    && (forall o :: o in m.covers <==> exists c :: c in all && c.id == m.id && o in c.covers)
    && (forall c :: c in all && c.id == m.id ==> m.cost <= c.cost && c.flakePenalty <= m.flakePenalty)
    && (exists c :: c in all && c.id == m.id && c.cost == m.cost)
    && (exists c :: c in all && c.id == m.id && c.flakePenalty == m.flakePenalty)
  }

  ghost predicate IsUnionOf(merged: seq<TestCandidate>, all: seq<TestCandidate>) {
    && DistinctIds(merged)
    && (forall m :: m in merged ==> Summarises(m, all))
    && (forall c :: c in all ==> exists m :: m in merged && m.id == c.id)
  }

  function Combine(m: TestCandidate, c: TestCandidate): TestCandidate {
    TestCandidate(m.id, Min(m.cost, c.cost), Max(m.flakePenalty, c.flakePenalty), m.covers + c.covers)
  }

  lemma SummariesGrow(m: TestCandidate, all: seq<TestCandidate>, c: TestCandidate)
    requires Summarises(m, all)
    ensures m.id == c.id ==> Summarises(Combine(m, c), all + [c])
    ensures m.id != c.id ==> Summarises(m, all + [c])
  {
    var more := all + [c];
    assert forall x :: x in more <==> x in all || x == c;
    var cheap :| cheap in all && cheap.id == m.id && cheap.cost == m.cost;
    var flaky :| flaky in all && flaky.id == m.id && flaky.flakePenalty == m.flakePenalty;
    assert c in more && cheap in more && flaky in more;
    var next := if m.id == c.id then Combine(m, c) else m;
    forall o ensures o in next.covers <==> exists x :: x in more && x.id == next.id && o in x.covers {
      if o in m.covers {
        var x :| x in all && x.id == m.id && o in x.covers;
        assert x in more;
      }
    }
  }

  lemma SummaryOfOne(c: TestCandidate, all: seq<TestCandidate>)
    requires forall x :: x in all ==> x.id != c.id
    ensures Summarises(c, all + [c])
  {
    assert c in all + [c];
    assert forall x :: x in all + [c] <==> x in all || x == c;
  }

  /** The entry of that id, or the length of the list. */
  method FindId(merged: seq<TestCandidate>, id: string) returns (at: nat)
    ensures at <= |merged|
    ensures at < |merged| ==> merged[at].id == id
    ensures at == |merged| ==> forall m :: m in merged ==> m.id != id
  {
    at := 0;
    while at < |merged|
      invariant at <= |merged|
      invariant forall k :: 0 <= k < at ==> merged[k].id != id
    {
      if merged[at].id == id { return; }
      at := at + 1;
    }
  }

  method Absorb(merged: seq<TestCandidate>, c: TestCandidate, ghost all: seq<TestCandidate>)
    returns (r: seq<TestCandidate>)
    requires IsUnionOf(merged, all)
    ensures IsUnionOf(r, all + [c])
  {
    hide Summarises;
    var at := FindId(merged, c.id);
    forall m | m in merged
      ensures Summarises(if m.id == c.id then Combine(m, c) else m, all + [c])
    {
      SummariesGrow(m, all, c);
    }
    if at < |merged| {
      r := merged[at := Combine(merged[at], c)];
      Represented(merged, r, all, c);
    } else {
      forall x | x in all ensures x.id != c.id {
        var m :| m in merged && m.id == x.id;
      }
      SummaryOfOne(c, all);
      r := merged + [c];
      assert r[|merged|] == c;
      Represented(merged, r, all, c);
    }
  }

  lemma Represented(merged: seq<TestCandidate>, r: seq<TestCandidate>, all: seq<TestCandidate>, c: TestCandidate)
    requires forall x :: x in all ==> exists m :: m in merged && m.id == x.id
    requires |merged| <= |r| && forall i :: 0 <= i < |merged| ==> r[i].id == merged[i].id
    requires exists m :: m in r && m.id == c.id
    ensures forall x :: x in all + [c] ==> exists m :: m in r && m.id == x.id
  {
    forall x | x in all + [c] ensures exists m :: m in r && m.id == x.id {
      if x in all {
        var m :| m in merged && m.id == x.id;
        var i :| 0 <= i < |merged| && merged[i] == m;
        assert r[i] in r;
      }
    }
  }

  method FlowAwareCandidates(sources: CandidateSources) returns (merged: seq<TestCandidate>)
    ensures IsUnionOf(merged, sources.All())
    ensures Ascending(merged, IdBefore)
  {
    hide Summarises;
    merged := [];
    var labelled := [sources.baseProtectors, sources.headStatic, sources.headDynamic,
                     sources.obligationTests, sources.riskRequired];
    ghost var all: seq<TestCandidate> := [];
    for origin := 0 to 5
      invariant IsUnionOf(merged, all)
      invariant all == [sources.baseProtectors[..0], sources.baseProtectors,
                        sources.baseProtectors + sources.headStatic,
                        sources.baseProtectors + sources.headStatic + sources.headDynamic,
                        sources.baseProtectors + sources.headStatic + sources.headDynamic + sources.obligationTests,
                        sources.All()][origin]
    {
      var candidates := labelled[origin];
      ghost var before := all;
      for k := 0 to |candidates|
        invariant IsUnionOf(merged, all) && all == before + candidates[..k]
      {
        merged := Absorb(merged, candidates[k], all);
        all := all + [candidates[k]];
      }
    }
    UnionSorted(merged, all);
    merged := Sort(merged, IdBefore);
  }

  lemma UnionSorted(merged: seq<TestCandidate>, all: seq<TestCandidate>)
    requires IsUnionOf(merged, all)
    ensures IsUnionOf(Sort(merged, IdBefore), all) && Ascending(Sort(merged, IdBefore), IdBefore)
  {
    hide Summarises;
    var r := Sort(merged, IdBefore);
    SortedByIdIsAscending(merged);
    SameElements(r, merged);
    forall i, j | 0 <= i < j < |r| ensures r[i].id != r[j].id {
      BeforeIrreflexive(r[i].id);
    }
    forall c | c in all ensures exists m :: m in r && m.id == c.id {
      var m :| m in merged && m.id == c.id;
      assert m in r;
    }
  }

  lemma SummaryIsUnique(a: TestCandidate, b: TestCandidate, all: seq<TestCandidate>, all': seq<TestCandidate>)
    requires Summarises(a, all) && Summarises(b, all') && a.id == b.id
    requires forall c :: c in all <==> c in all'
    ensures a == b
  {
    assert a.covers == b.covers;
  }

  lemma UnionsAgree(a: seq<TestCandidate>, b: seq<TestCandidate>, all: seq<TestCandidate>, all': seq<TestCandidate>)
    requires IsUnionOf(a, all) && IsUnionOf(b, all') && forall c :: c in all <==> c in all'
    ensures forall m :: m in a ==> m in b
  {
    hide Summarises;
    forall m | m in a ensures m in b {
      var c := SummarySource(m, all);
      var n :| n in b && n.id == c.id;
      SummaryIsUnique(m, n, all, all');
    }
  }

  lemma SummarySource(m: TestCandidate, all: seq<TestCandidate>) returns (c: TestCandidate)
    requires Summarises(m, all)
    ensures c in all && c.id == m.id
  {
    c :| c in all && c.id == m.id && c.cost == m.cost;
  }

  method SelectFlowAwarePlan(sources: CandidateSources, obligations: seq<ObligationNeed>) returns (plan: SelectionPlan)
    ensures exists merged :: IsUnionOf(merged, sources.All()) && plan == PlanOf(merged, obligations)
  {
    hide PlanOf;
    hide IsUnionOf;
    var merged := FlowAwareCandidates(sources);
    plan := SelectMinimalPlan(merged, obligations);
  }

  /** The flow-aware plan depends only on which candidates the five sources name together. */
  lemma FlowAwarePlanIgnoresSourceAndOrder(s: CandidateSources, t: CandidateSources, obligations: seq<ObligationNeed>,
                                           a: seq<TestCandidate>, b: seq<TestCandidate>)
    requires IsUnionOf(a, s.All()) && IsUnionOf(b, t.All())
    requires forall c :: c in s.All() <==> c in t.All()
    ensures PlanOf(a, obligations) == PlanOf(b, obligations)
  {
    UnionsAgree(a, b, s.All(), t.All());
    UnionsAgree(b, a, t.All(), s.All());
    PlanIgnoresOrder(a, b, obligations);
  }

  /** The flow-aware plan covers exactly the obligations some candidate of some source covers. */
  lemma FlowAwarePlanCoversAllSources(sources: CandidateSources, obligations: seq<ObligationNeed>,
                                      merged: seq<TestCandidate>)
    requires IsUnionOf(merged, sources.All())
    ensures var plan := PlanOf(merged, obligations);
            && AllCovers(plan.selected) == NeedIds(obligations) * Coverable(sources.All())
            && plan.uncoveredMandatory == MandatoryIds(obligations) - Coverable(sources.All())
            && PairwiseDisjoint(plan.selected)
  {
    PlanCoversEverythingCoverable(merged, obligations);
    UnionCoversTheSame(merged, sources.All());
  }

  lemma UnionCoversTheSame(merged: seq<TestCandidate>, all: seq<TestCandidate>)
    requires IsUnionOf(merged, all)
    ensures Coverable(merged) == Coverable(all)
  {
    hide Summarises;
    forall o | o in Coverable(merged) ensures o in Coverable(all) {
      var i :| 0 <= i < |merged| && o in merged[i].covers;
      var k := SummaryCovers(merged[i], all, o);
    }
    forall o | o in Coverable(all) ensures o in Coverable(merged) {
      var k :| 0 <= k < |all| && o in all[k].covers;
      var m :| m in merged && m.id == all[k].id;
      SummaryHolds(m, all, k, o);
      var i :| 0 <= i < |merged| && merged[i] == m;
    }
  }

  lemma SummaryCovers(m: TestCandidate, all: seq<TestCandidate>, o: string) returns (k: nat)
    requires Summarises(m, all) && o in m.covers
    ensures k < |all| && o in all[k].covers
  {
    var c :| c in all && c.id == m.id && o in c.covers;
    k :| k < |all| && all[k] == c;
  }

  lemma SummaryHolds(m: TestCandidate, all: seq<TestCandidate>, k: nat, o: string)
    requires Summarises(m, all) && k < |all| && all[k].id == m.id && o in all[k].covers
    ensures o in m.covers
  {
    assert all[k] in all;
  }
}
