/** What the greedy plan covers, and why its order is well defined. */
module SelectionOrder {
  import opened Words
  import opened Options
  import opened Text
  import opened Sorting
  import opened Selection

  /** Exact value of a set of obligations: 1000 per mandatory one, 1 per optional one. */
  function Weight(s: set<string>, mandatory: set<string>): nat {
    |s| + (MANDATORY_WEIGHT - 1) * |s * mandatory|
  }

  /** No effective cost, score or cross product of the run reaches the u64 ceiling. */
  ghost predicate Unsaturated(cs: seq<TestCandidate>, needed: set<string>, mandatory: set<string>) {
    && (forall c :: c in cs ==> c.cost + c.flakePenalty <= U64_MAX)
    && (forall a, b :: a in cs && b in cs ==> Weight(a.covers * needed, mandatory) * RankCost(b) <= U64_MAX)
  }

  lemma UnsaturatedPart(cs: seq<TestCandidate>, part: seq<TestCandidate>, needed: set<string>, mandatory: set<string>)
    requires Unsaturated(cs, needed, mandatory) && forall c :: c in part ==> c in cs
    ensures Unsaturated(part, needed, mandatory)
  {
    hide Weight;
    hide RankCost;
  }

  /** Below the ceiling a candidate is ranked by its cost plus its flake penalty, and by 1 when both are 0. */
  lemma RankIsFullCost(c: TestCandidate)
    requires c.cost + c.flakePenalty <= U64_MAX
    ensures RankCost(c) == Max(1, c.cost + c.flakePenalty)
  {
  }

  lemma UnsaturatedRank(cs: seq<TestCandidate>, c: TestCandidate, needed: set<string>, mandatory: set<string>)
    requires Unsaturated(cs, needed, mandatory) && c in cs
    ensures RankCost(c) == Max(1, c.cost + c.flakePenalty)
  {
    RankIsFullCost(c);
    hide RankCost, Weight;
  }

  lemma WeightSplit(s: set<string>, part: set<string>, mandatory: set<string>)
    ensures Weight(s, mandatory) == Weight(s * part, mandatory) + Weight(s - part, mandatory)
  {
    assert s * mandatory == s * part * mandatory + (s - part) * mandatory;
    assert s - mandatory == (s * part - mandatory) + (s - part - mandatory);
  }

  lemma WeightMonotone(s: set<string>, t: set<string>, mandatory: set<string>)
    requires s <= t
    ensures Weight(s, mandatory) <= Weight(t, mandatory)
  {
    assert t * s == s;
    WeightSplit(t, s, mandatory);
  }

  lemma WeightPositive(s: set<string>, mandatory: set<string>)
    ensures Weight(s, mandatory) == 0 <==> s == {}
  {
    assert s == s * mandatory + (s - mandatory);
    if s == {} {
      assert s * mandatory == {} && s - mandatory == {};
    }
  }

  lemma ProductAtLeast(a: nat, b: nat)
    requires b >= 1
    ensures a <= a * b
  {
  }

  lemma ProductMonotone(a: nat, a': nat, b: nat)
    requires a <= a'
    ensures a * b <= a' * b
  {
  }

  lemma ScoreIsWeight(cs: seq<TestCandidate>, c: TestCandidate, remaining: set<string>, needed: set<string>,
                      mandatory: set<string>)
    requires Unsaturated(cs, needed, mandatory) && c in cs && remaining <= needed
    ensures Score(c, remaining, mandatory) == Weight(c.covers * remaining, mandatory)
  {
    WeightMonotone(c.covers * remaining, c.covers * needed, mandatory);
    ProductAtLeast(Weight(c.covers * needed, mandatory), RankCost(c));
  }

  /** Under Unsaturated the comparison is exact: higher weight per cost, then lower cost, then smaller id. */
  ghost predicate ExactlyBetter(score: nat, cost: nat, id: string, score': nat, cost': nat, id': string) {
    || score * cost' > score' * cost
    || (score * cost' == score' * cost && (cost < cost' || (cost == cost' && Before(id, id'))))
  }

  lemma BeatsByRank(cs: seq<TestCandidate>, a: TestCandidate, b: TestCandidate, remaining: set<string>,
                     needed: set<string>, mandatory: set<string>)
    requires Unsaturated(cs, needed, mandatory) && a in cs && b in cs && remaining <= needed
    ensures Beats(a, b, remaining, mandatory)
       <==> ExactlyBetter(Weight(a.covers * remaining, mandatory), RankCost(a), a.id,
                          Weight(b.covers * remaining, mandatory), RankCost(b), b.id)
  {
    ScoreIsWeight(cs, a, remaining, needed, mandatory);
    ScoreIsWeight(cs, b, remaining, needed, mandatory);
    WeightMonotone(a.covers * remaining, a.covers * needed, mandatory);
    WeightMonotone(b.covers * remaining, b.covers * needed, mandatory);
    ProductMonotone(Weight(a.covers * remaining, mandatory), Weight(a.covers * needed, mandatory), RankCost(b));
    ProductMonotone(Weight(b.covers * remaining, mandatory), Weight(b.covers * needed, mandatory), RankCost(a));
  }

  /** The comparison in the candidates' own fields: cost plus flake penalty, at least 1. */
  lemma BeatsIsExact(cs: seq<TestCandidate>, a: TestCandidate, b: TestCandidate, remaining: set<string>,
                     needed: set<string>, mandatory: set<string>)
    requires Unsaturated(cs, needed, mandatory) && a in cs && b in cs && remaining <= needed
    ensures Beats(a, b, remaining, mandatory)
       <==> ExactlyBetter(Weight(a.covers * remaining, mandatory), Max(1, a.cost + a.flakePenalty), a.id,
                          Weight(b.covers * remaining, mandatory), Max(1, b.cost + b.flakePenalty), b.id)
  {
    RankIsFullCost(a);
    RankIsFullCost(b);
    BeatsByRank(cs, a, b, remaining, needed, mandatory);
    hide Beats, RankCost, Weight;
  }

  /** What a candidate gains, 1000 for each mandatory obligation, and what it costs, as the counters hold them. */
  function Points(c: TestCandidate, remaining: set<string>, mandatory: set<string>): nat {
    Min(U64_MAX, 1000 * |c.covers * remaining * mandatory| + |c.covers * remaining - mandatory|)
  }

  function Expense(c: TestCandidate): nat {
    Max(1, Min(U64_MAX, c.cost + c.flakePenalty))
  }

  /** In every case the comparison is that of the clamped cross products, then of the cost, then of the id. */
  lemma BeatsExactlyWhen(a: TestCandidate, b: TestCandidate, remaining: set<string>, mandatory: set<string>)
    ensures var l := Min(U64_MAX, Points(a, remaining, mandatory) * Expense(b));
            var r := Min(U64_MAX, Points(b, remaining, mandatory) * Expense(a));
            Beats(a, b, remaining, mandatory) <==>
              if l != r then l > r
              else if Expense(a) != Expense(b) then Expense(a) < Expense(b)
              else Before(a.id, b.id)
  {
    ScoreIsPoints(a, remaining, mandatory);
    ScoreIsPoints(b, remaining, mandatory);
    RankIsExpense(a);
    RankIsExpense(b);
    hide Score, Points, Expense, RankCost, Before, Better, Min;
    BetterExactlyWhen(Score(a, remaining, mandatory), RankCost(a), a.id, Score(b, remaining, mandatory), RankCost(b),
                      b.id);
  }

  lemma BetterExactlyWhen(p: u64, c: u64, id: string, q: u64, d: u64, other: string)
    ensures var l, r := Min(U64_MAX, p * d), Min(U64_MAX, q * c);
            Better(p, c, id, q, d, other) <==>
              if l != r then l > r else if c != d then c < d else Before(id, other)
  {
    hide Before;
    ProductIs(p, d);
    ProductIs(q, c);
    hide SatMul, Min;
  }

  lemma ProductIs(x: u64, y: u64)
    ensures SatMul(x, y) == Min(U64_MAX, x * y)
  {
    assert x * y >= 0;
  }

  lemma RankIsExpense(c: TestCandidate)
    ensures RankCost(c) == Expense(c)
  {
  }

  lemma ScoreIsPoints(c: TestCandidate, remaining: set<string>, mandatory: set<string>)
    ensures Score(c, remaining, mandatory) == Points(c, remaining, mandatory)
  {
  }

  lemma CancelFactor(x: nat, y: nat, d: nat)
    requires d > 0
    ensures x * d >= y * d ==> x >= y
    ensures x * d > y * d ==> x > y
  {
    if x < y { ProductMonotone(x + 1, y, d); }
    if x <= y { ProductMonotone(x, y, d); }
  }

  lemma StrictProduct(x: nat, y: nat, d: nat)
    requires d > 0
    ensures x >= y ==> x * d >= y * d
    ensures x > y ==> x * d > y * d
  {
    if x > y { ProductMonotone(y + 1, x, d); }
  }

  /** Cross multiplication orders fractions: a/b >= c/d >= e/f gives a/b >= e/f, strictly if either was strict. */
  lemma FractionsCompose(a: nat, b: nat, c: nat, d: nat, e: nat, f: nat)
    requires b > 0 && d > 0 && f > 0
    requires a * d >= c * b && c * f >= e * d
    ensures a * f >= e * b
    ensures a * d > c * b || c * f > e * d ==> a * f > e * b
  {
    assert (a * d) * f == (a * f) * d && (c * b) * f == (c * f) * b && (e * d) * b == (e * b) * d;
    StrictProduct(a * d, c * b, f);
    StrictProduct(c * f, e * d, b);
    CancelFactor(a * f, e * b, d);
  }

  lemma BetterTransitive(s1: nat, c1: nat, i1: string, s2: nat, c2: nat, i2: string, s3: nat, c3: nat, i3: string)
    requires c1 > 0 && c2 > 0 && c3 > 0
    requires ExactlyBetter(s1, c1, i1, s2, c2, i2) && ExactlyBetter(s2, c2, i2, s3, c3, i3)
    ensures ExactlyBetter(s1, c1, i1, s3, c3, i3)
  {
    FractionsCompose(s1, c1, s2, c2, s3, c3);
    if s1 * c2 == s2 * c1 && s2 * c3 == s3 * c2 {
      FractionsCompose(s3, c3, s2, c2, s1, c1);
      if Before(i1, i2) && Before(i2, i3) {
        BeforeTransitive(i1, i2, i3);
      }
    }
  }

  /** With distinct ids and no saturation, `better` is a strict total order on candidates. */
  lemma BeatsIsStrictTotalOrder(cs: seq<TestCandidate>, remaining: set<string>, needed: set<string>,
                                mandatory: set<string>)
    requires Unsaturated(cs, needed, mandatory) && remaining <= needed && DistinctIds(cs)
    ensures forall a :: a in cs ==> !Beats(a, a, remaining, mandatory)
    ensures forall a, b :: a in cs && b in cs && a != b ==>
              Beats(a, b, remaining, mandatory) || Beats(b, a, remaining, mandatory)
    ensures forall a, b, c :: a in cs && b in cs && c in cs ==>
              (Beats(a, b, remaining, mandatory) && Beats(b, c, remaining, mandatory)
               ==> Beats(a, c, remaining, mandatory))
  {
    forall a | a in cs ensures !Beats(a, a, remaining, mandatory) {
      BeatsByRank(cs, a, a, remaining, needed, mandatory);
      BeforeIrreflexive(a.id);
    }
    forall a, b | a in cs && b in cs && a != b
      ensures Beats(a, b, remaining, mandatory) || Beats(b, a, remaining, mandatory)
    {
      BeatsByRank(cs, a, b, remaining, needed, mandatory);
      BeatsByRank(cs, b, a, remaining, needed, mandatory);
      BeforeTotal(a.id, b.id);
    }
    forall a, b, c | a in cs && b in cs && c in cs && Beats(a, b, remaining, mandatory)
        && Beats(b, c, remaining, mandatory)
      ensures Beats(a, c, remaining, mandatory)
    {
      BeatsCompose(cs, a, b, c, remaining, needed, mandatory);
    }
  }

  lemma BeatsCompose(cs: seq<TestCandidate>, a: TestCandidate, b: TestCandidate, c: TestCandidate,
                     remaining: set<string>, needed: set<string>, mandatory: set<string>)
    requires Unsaturated(cs, needed, mandatory) && remaining <= needed
    requires a in cs && b in cs && c in cs
    requires Beats(a, b, remaining, mandatory) && Beats(b, c, remaining, mandatory)
    ensures Beats(a, c, remaining, mandatory)
  {
    BeatsByRank(cs, a, b, remaining, needed, mandatory);
    BeatsByRank(cs, b, c, remaining, needed, mandatory);
    BeatsByRank(cs, a, c, remaining, needed, mandatory);
    BetterTransitive(Weight(a.covers * remaining, mandatory), RankCost(a), a.id,
                     Weight(b.covers * remaining, mandatory), RankCost(b), b.id,
                     Weight(c.covers * remaining, mandatory), RankCost(c), c.id);
  }

  /** The scan finds nothing exactly when no candidate gains, and otherwise something that gains. */
  lemma {:induction false} ScanFindsGain(unused: seq<TestCandidate>, n: nat, remaining: set<string>,
                                         mandatory: set<string>)
    requires n <= |unused|
    ensures var best := BestUpTo(unused, n, remaining, mandatory);
            match best
            case None => forall i :: 0 <= i < n ==> !Gainful(unused[i], remaining)
            case Some(b) => Gainful(unused[b], remaining)
  {
    if n > 0 {
      ScanFindsGain(unused, n - 1, remaining, mandatory);
    }
  }

  ghost predicate Unbeaten(unused: seq<TestCandidate>, n: nat, b: nat, remaining: set<string>, mandatory: set<string>)
    requires n <= |unused| && b < |unused|
  {
    forall j :: 0 <= j < n && Gainful(unused[j], remaining) ==> !Beats(unused[j], unused[b], remaining, mandatory)
  }

  lemma ChallengerUnbeaten(unused: seq<TestCandidate>, n: nat, b: nat, remaining: set<string>, needed: set<string>,
                           mandatory: set<string>)
    requires n < |unused| && b < n && remaining <= needed && Unsaturated(unused, needed, mandatory)
    requires Unbeaten(unused, n, b, remaining, mandatory) && Beats(unused[n], unused[b], remaining, mandatory)
    ensures Unbeaten(unused, n + 1, n, remaining, mandatory)
  {
    forall j | 0 <= j < n + 1 && Gainful(unused[j], remaining)
      ensures !Beats(unused[j], unused[n], remaining, mandatory)
    {
      if j == n {
        BeatsAsymmetric(unused, unused[n], unused[n], remaining, needed, mandatory);
      } else if Beats(unused[j], unused[n], remaining, mandatory) {
        BeatsCompose(unused, unused[j], unused[n], unused[b], remaining, needed, mandatory);
      }
    }
  }

  ghost predicate IsBest(best: Option<nat>, unused: seq<TestCandidate>, n: nat, remaining: set<string>,
                         mandatory: set<string>)
    requires n <= |unused|
  {
    match best
    case None => forall i :: 0 <= i < n ==> !Gainful(unused[i], remaining)
    case Some(b) => b < n && Gainful(unused[b], remaining) && Unbeaten(unused, n, b, remaining, mandatory)
  }

  lemma FirstGainIsBest(unused: seq<TestCandidate>, n: nat, remaining: set<string>, needed: set<string>,
                        mandatory: set<string>)
    requires n < |unused| && remaining <= needed && Unsaturated(unused, needed, mandatory)
    requires Gainful(unused[n], remaining)
    requires forall i :: 0 <= i < n ==> !Gainful(unused[i], remaining)
    ensures Unbeaten(unused, n + 1, n, remaining, mandatory)
  {
    hide Beats, Gainful, Unsaturated;
    BeatsAsymmetric(unused, unused[n], unused[n], remaining, needed, mandatory);
  }

  lemma BestStaysUnbeaten(unused: seq<TestCandidate>, n: nat, b: nat, remaining: set<string>, mandatory: set<string>)
    requires n < |unused| && b < n && Unbeaten(unused, n, b, remaining, mandatory)
    requires Gainful(unused[n], remaining) ==> !Beats(unused[n], unused[b], remaining, mandatory)
    ensures Unbeaten(unused, n + 1, b, remaining, mandatory)
  {
    hide Beats, Gainful;
  }

  lemma ScanKeepsBest(best: Option<nat>, unused: seq<TestCandidate>, n: nat, remaining: set<string>,
                      needed: set<string>, mandatory: set<string>)
    requires n < |unused| && remaining <= needed && Unsaturated(unused, needed, mandatory)
    requires IsBest(best, unused, n, remaining, mandatory)
    ensures IsBest(Scan(best, unused, n, remaining, mandatory), unused, n + 1, remaining, mandatory)
  {
    hide Beats, Unbeaten, Unsaturated, Gainful;
    if best.None? {
      if Gainful(unused[n], remaining) { FirstGainIsBest(unused, n, remaining, needed, mandatory); }
    } else if Gainful(unused[n], remaining) && Beats(unused[n], unused[best.value], remaining, mandatory) {
      ChallengerUnbeaten(unused, n, best.value, remaining, needed, mandatory);
    } else {
      BestStaysUnbeaten(unused, n, best.value, remaining, mandatory);
    }
  }

  /** With no saturation nothing that gains beats the winner of the scan. */
  lemma {:induction false} ScanFindsBest(unused: seq<TestCandidate>, n: nat, remaining: set<string>,
                                         needed: set<string>, mandatory: set<string>)
    requires n <= |unused| && remaining <= needed && Unsaturated(unused, needed, mandatory)
    ensures IsBest(BestUpTo(unused, n, remaining, mandatory), unused, n, remaining, mandatory)
  {
    hide Score;
    if n > 0 {
      ScanFindsBest(unused, n - 1, remaining, needed, mandatory);
      ScanKeepsBest(BestUpTo(unused, n - 1, remaining, mandatory), unused, n - 1, remaining, needed, mandatory);
    }
  }

  lemma BeatsAsymmetric(cs: seq<TestCandidate>, a: TestCandidate, b: TestCandidate, remaining: set<string>,
                        needed: set<string>, mandatory: set<string>)
    requires Unsaturated(cs, needed, mandatory) && a in cs && b in cs && remaining <= needed
    ensures Beats(a, b, remaining, mandatory) ==> !Beats(b, a, remaining, mandatory)
  {
    BeatsByRank(cs, a, b, remaining, needed, mandatory);
    BeatsByRank(cs, b, a, remaining, needed, mandatory);
    if Before(a.id, b.id) && Before(b.id, a.id) {
      BeforeTransitive(a.id, b.id, a.id);
      BeforeIrreflexive(a.id);
    }
  }

  // ----- what the picks cover -----

  lemma CoverableWithout(cs: seq<TestCandidate>, i: nat)
    requires i < |cs|
    ensures Coverable(cs) == cs[i].covers + Coverable(Without(cs, i))
  {
    var rest := Without(cs, i);
    forall o ensures o in Coverable(cs) <==> o in cs[i].covers + Coverable(rest) {
      if o in Coverable(cs) {
        var k :| 0 <= k < |cs| && o in cs[k].covers;
        if k < i { assert rest[k] == cs[k]; }
        if k > i { assert rest[k - 1] == cs[k]; }
      }
      if o in Coverable(rest) {
        var k :| 0 <= k < |rest| && o in rest[k].covers;
        assert rest[k] == if k < i then cs[k] else cs[k + 1];
      }
    }
  }

  ghost predicate PairwiseDisjoint(picks: seq<SelectedTest>) {
    forall i, j :: 0 <= i < j < |picks| ==> picks[i].covers !! picks[j].covers
  }

  ghost predicate IsPick(p: SelectedTest, cs: seq<TestCandidate>) {
    exists c :: c in cs && p.id == c.id && p.cost == Clamp(c.cost + c.flakePenalty) && p.covers <= c.covers
  }

  /** The picks split exactly the obligations that some candidate covers. */
  lemma {:induction false} GreedyPartitions(unused: seq<TestCandidate>, remaining: set<string>, mandatory: set<string>)
    ensures var picks := Greedy(unused, remaining, mandatory);
            && AllCovers(picks) == remaining * Coverable(unused)
            && PairwiseDisjoint(picks)
            && (forall p :: p in picks ==> p.covers != {} && IsPick(p, unused))
    decreases |unused|
  {
    var picks := Greedy(unused, remaining, mandatory);
    ScanFindsGain(unused, |unused|, remaining, mandatory);
    var best := BestUpTo(unused, |unused|, remaining, mandatory);
    if best.None? {
      NothingCovered(unused, remaining);
    } else {
      var i := best.value;
      var rest, left := Without(unused, i), remaining - unused[i].covers * remaining;
      var later := GreedyRest(unused, i, remaining, mandatory);
      CoverableWithout(unused, i);
      AllCoversPrepend(PickOf(unused[i], remaining), later);
      if left != {} {
        GreedyPartitions(rest, left, mandatory);
      }
      assert AllCovers(later) == left * Coverable(rest);
      PicksSplit(PickOf(unused[i], remaining), later, left);
      forall p | p in picks ensures p.covers != {} && IsPick(p, unused) {
        if p == PickOf(unused[i], remaining) {
          assert unused[i] in unused;
        } else {
          assert IsPick(p, rest);
        }
      }
    }
  }

  lemma NothingCovered(unused: seq<TestCandidate>, remaining: set<string>)
    requires forall i :: 0 <= i < |unused| ==> !Gainful(unused[i], remaining)
    ensures remaining * Coverable(unused) == {}
  {
    forall i, o | 0 <= i < |unused| && o in unused[i].covers ensures o !in remaining {
      assert !Gainful(unused[i], remaining);
      assert o in unused[i].covers * remaining <==> o in remaining;
    }
  }

  lemma PicksSplit(p: SelectedTest, later: seq<SelectedTest>, left: set<string>)
    requires PairwiseDisjoint(later) && AllCovers(later) <= left && p.covers !! left
    ensures PairwiseDisjoint([p] + later)
  {
    var all := [p] + later;
    forall i, j | 0 <= i < j < |all| ensures all[i].covers !! all[j].covers {
      assert all[j] == later[j - 1];
      if i == 0 {
        forall o | o in all[j].covers ensures o !in p.covers {
          assert o in AllCovers(later);
        }
      } else {
        assert all[i] == later[i - 1];
      }
    }
  }

  lemma SameCoverable(a: seq<TestCandidate>, b: seq<TestCandidate>)
    requires forall c :: c in a <==> c in b
    ensures Coverable(a) == Coverable(b)
  {
    forall o ensures o in Coverable(a) <==> o in Coverable(b) {
      if o in Coverable(a) {
        var i :| 0 <= i < |a| && o in a[i].covers;
        assert a[i] in b;
      }
      if o in Coverable(b) {
        var i :| 0 <= i < |b| && o in b[i].covers;
        assert b[i] in a;
      }
    }
  }

  /** Only obligations nothing covers are left out, and no obligation is charged to two tests. */
  lemma PlanCoversEverythingCoverable(candidates: seq<TestCandidate>, obligations: seq<ObligationNeed>)
    ensures var plan := PlanOf(candidates, obligations);
            && AllCovers(plan.selected) == NeedIds(obligations) * Coverable(candidates)
            && plan.uncoveredMandatory == MandatoryIds(obligations) - Coverable(candidates)
            && PairwiseDisjoint(plan.selected)
            && (forall p :: p in plan.selected ==> p.covers != {} && IsPick(p, candidates))
  {
    var unused := Sort(candidates, IdBefore);
    SameElements(unused, candidates);
    SameCoverable(unused, candidates);
    GreedyPartitions(unused, NeedIds(obligations), MandatoryIds(obligations));
    MandatoryIsNeeded(obligations);
    forall p | p in PlanOf(candidates, obligations).selected ensures IsPick(p, candidates) {
      assert IsPick(p, unused);
    }
  }

  /** In terms of single obligations and tests: what is covered, and what is reported as uncovered. */
  lemma ObligationIsCoveredExactlyWhen(candidates: seq<TestCandidate>, obligations: seq<ObligationNeed>, o: string)
    ensures var plan := PlanOf(candidates, obligations);
            && ((exists p :: p in plan.selected && o in p.covers) <==>
                (exists need :: need in obligations && need.id == o) && exists c :: c in candidates && o in c.covers)
            && (o in plan.uncoveredMandatory <==>
                (exists need :: need in obligations && need.id == o && need.highRisk)
                && forall c :: c in candidates ==> o !in c.covers)
  {
    PlanCoversEverythingCoverable(candidates, obligations);
    hide PlanOf;
    var picks := PlanOf(candidates, obligations).selected;
    CoveredBySome(picks, o);
    CoverableBySome(candidates, o);
    NeededBySome(obligations, o);
    hide AllCovers, Coverable, NeedIds, MandatoryIds;
  }

  lemma CoveredBySome(picks: seq<SelectedTest>, o: string)
    ensures o in AllCovers(picks) <==> exists p :: p in picks && o in p.covers
  {
    if p :| p in picks && o in p.covers {
      var i :| 0 <= i < |picks| && picks[i] == p;
    }
  }

  lemma CoverableBySome(cs: seq<TestCandidate>, o: string)
    ensures o in Coverable(cs) <==> exists c :: c in cs && o in c.covers
  {
    if c :| c in cs && o in c.covers {
      var i :| 0 <= i < |cs| && cs[i] == c;
    }
  }

  lemma NeededBySome(obligations: seq<ObligationNeed>, o: string)
    ensures o in NeedIds(obligations) <==> exists need :: need in obligations && need.id == o
    ensures o in MandatoryIds(obligations) <==> exists need :: need in obligations && need.id == o && need.highRisk
  {
    if need :| need in obligations && need.id == o {
      var i :| 0 <= i < |obligations| && obligations[i] == need;
    }
    if need :| need in obligations && need.id == o && need.highRisk {
      var i :| 0 <= i < |obligations| && obligations[i] == need;
    }
  }

  /** Candidates with distinct ids give the same plan in whatever order they arrive. */
  lemma PlanIgnoresOrder(a: seq<TestCandidate>, b: seq<TestCandidate>, obligations: seq<ObligationNeed>)
    requires DistinctIds(a) && DistinctIds(b) && forall c :: c in a <==> c in b
    ensures PlanOf(a, obligations) == PlanOf(b, obligations)
  {
    SortedByIdIsAscending(a);
    SortedByIdIsAscending(b);
    SameElements(Sort(a, IdBefore), a);
    SameElements(Sort(b, IdBefore), b);
    IdOrder();
    AscendingIsUnique(Sort(a, IdBefore), Sort(b, IdBefore), IdBefore);
  }

  lemma SortedByIdIsAscending(cs: seq<TestCandidate>)
    requires DistinctIds(cs)
    ensures Ascending(Sort(cs, IdBefore), IdBefore)
  {
    IdOrder();
    forall i, j | 0 <= i < j < |cs| ensures IdBefore(cs[i], cs[j]) || IdBefore(cs[j], cs[i]) {
      BeforeTotal(cs[i].id, cs[j].id);
    }
    SortAscends(cs, IdBefore);
  }
}
