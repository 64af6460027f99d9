/** The greedy plan costs at most a harmonic factor more than any cover of the same obligations. */
module SelectionCost {
  import opened Words
  import opened Options
  import opened Sorting
  import opened Selection
  import opened SelectionOrder

  function Harmonic(n: nat): real {
    if n == 0 then 0.0 else Harmonic(n - 1) + 1.0 / (n as real)
  }

  function Billed(p: SelectedTest): nat {
    Max(1, p.cost)
  }

  function TotalCost(picks: seq<SelectedTest>): nat {
    if picks == [] then 0 else Billed(picks[0]) + TotalCost(picks[1..])
  }

  function CoverCost(cover: seq<TestCandidate>): nat {
    if cover == [] then 0 else Max(1, cover[0].cost + cover[0].flakePenalty) + CoverCost(cover[1..])
  }

  /** Largest weight one candidate can gain at the start. */
  function MaxScore(cs: seq<TestCandidate>, needed: set<string>, mandatory: set<string>): nat {
    if cs == [] then 0
    else Max(Weight(cs[0].covers * needed, mandatory), MaxScore(cs[1..], needed, mandatory))
  }

  /** Price per unit of weight a pick pays. */
  function Price(p: SelectedTest, mandatory: set<string>): real {
    if p.covers == {} then 0.0
    else
      WeightPositive(p.covers, mandatory);
      Billed(p) as real / Weight(p.covers, mandatory) as real
  }

  /** What the picks pay for the obligations in x. */
  function Charge(picks: seq<SelectedTest>, x: set<string>, mandatory: set<string>): real {
    if picks == [] then 0.0
    else Price(picks[0], mandatory) * Weight(picks[0].covers * x, mandatory) as real + Charge(picks[1..], x, mandatory)
  }

  lemma {:induction false} HarmonicMonotone(m: nat, n: nat)
    requires m <= n
    ensures Harmonic(m) <= Harmonic(n)
  {
    if m < n {
      HarmonicMonotone(m, n - 1);
    }
  }

  /** Dropping from r to m units costs at most the harmonic terms between them. */
  lemma {:induction false} HarmonicGap(m: nat, n: nat, r: nat)
    requires m <= n <= r && r > 0
    ensures (n - m) as real / r as real <= Harmonic(n) - Harmonic(m)
  {
    if m < n {
      HarmonicGap(m, n - 1, r);
      FractionOrder(n, r);
      assert (n - m) as real / r as real == (n - 1 - m) as real / r as real + 1.0 / r as real;
    }
  }

  lemma FractionOrder(n: nat, r: nat)
    requires 0 < n <= r
    ensures 1.0 / r as real <= 1.0 / n as real
  {
  }

  /** The pick pays no more per unit than a rival would have. */
  lemma RivalPrice(paid: nat, w: nat, rival: nat, r: nat)
    requires w > 0 && r > 0 && w * rival >= r * paid
    ensures paid as real / w as real <= rival as real / r as real
  {
    var p, q := paid as real / w as real, rival as real / r as real;
    assert p * w as real == paid as real && q * r as real == rival as real;
    assert (w * rival) as real == w as real * rival as real && (r * paid) as real == r as real * paid as real;
    RealCancel(p, q, w as real * r as real);
  }

  lemma RealCancel(p: real, q: real, k: real)
    requires k > 0.0 && p * k <= q * k
    ensures p <= q
  {
    assert p > q ==> (p - q) * k > 0.0;
  }

  lemma RealScale(p: real, q: real, k: real)
    requires k >= 0.0 && p <= q
    ensures p * k <= q * k
  {
  }

  lemma SharesOfARival(rival: real, part: real, r: real)
    requires r > 0.0
    ensures rival / r * part == part / r * rival
  {
  }

  lemma StepArithmetic(paid: nat, w: nat, rival: nat, part: nat, m: nat)
    requires w > 0 && part + m > 0 && w * rival >= (part + m) * paid
    ensures paid as real / w as real * part as real <= rival as real * (Harmonic(part + m) - Harmonic(m))
  {
    hide Harmonic;
    var r := part + m;
    var price, rivalPrice, share := paid as real / w as real, rival as real / r as real, part as real / r as real;
    var gap := Harmonic(r) - Harmonic(m);
    RivalPrice(paid, w, rival, r);
    HarmonicGap(m, r, r);
    assert share <= gap by { assert part as real == (r - m) as real; }
    RealScale(price, rivalPrice, part as real);
    SharesOfARival(rival as real, part as real, r as real);
    RealScale(share, gap, rival as real);
  }

  /** What one pick charges a candidate fits in that candidate's harmonic budget. */
  lemma StepCharge(p: SelectedTest, c: TestCandidate, remaining: set<string>, mandatory: set<string>)
    requires p.covers != {} && p.covers <= remaining
    requires c.covers * remaining != {} ==>
               Weight(p.covers, mandatory) * RankCost(c) >= Weight(c.covers * remaining, mandatory) * Billed(p)
    ensures var r, m := Weight(c.covers * remaining, mandatory), Weight(c.covers * (remaining - p.covers), mandatory);
            Price(p, mandatory) * Weight(p.covers * c.covers, mandatory) as real
              <= RankCost(c) as real * (Harmonic(r) - Harmonic(m))
  {
    hide Weight;
    hide RankCost;
    var x := c.covers * remaining;
    var part, m := Weight(p.covers * c.covers, mandatory), Weight(c.covers * (remaining - p.covers), mandatory);
    assert x * p.covers == p.covers * c.covers;
    assert x - p.covers == c.covers * (remaining - p.covers);
    WeightSplit(x, p.covers, mandatory);
    WeightPositive(p.covers, mandatory);
    WeightPositive(x, mandatory);
    if x != {} {
      StepArithmetic(Billed(p), Weight(p.covers, mandatory), RankCost(c), part, m);
    }
  }

  lemma PickIsCheapest(unused: seq<TestCandidate>, i: nat, remaining: set<string>, needed: set<string>,
                       mandatory: set<string>, c: TestCandidate)
    requires i < |unused| && remaining <= needed && Unsaturated(unused, needed, mandatory)
    requires IsBest(Some(i), unused, |unused|, remaining, mandatory)
    requires c in unused || c.covers * remaining == {}
    ensures var p := PickOf(unused[i], remaining);
            c.covers * remaining != {} ==>
              Weight(p.covers, mandatory) * RankCost(c) >= Weight(c.covers * remaining, mandatory) * Billed(p)
  {
    if c.covers * remaining != {} {
      var j :| 0 <= j < |unused| && unused[j] == c;
      assert Gainful(unused[j], remaining);
      BeatsByRank(unused, c, unused[i], remaining, needed, mandatory);
    }
  }

  lemma StillUnused(unused: seq<TestCandidate>, i: nat, remaining: set<string>, needed: set<string>,
                    mandatory: set<string>, c: TestCandidate)
    requires i < |unused| && Unsaturated(unused, needed, mandatory)
    requires c in unused || c.covers * remaining == {}
    ensures var left := remaining - unused[i].covers * remaining;
            c in Without(unused, i) || c.covers * left == {}
    ensures Unsaturated(Without(unused, i), needed, mandatory)
  {
    hide Weight;
    var rest, left := Without(unused, i), remaining - unused[i].covers * remaining;
    UnsaturatedPart(unused, rest, needed, mandatory);
    if c in unused && c != unused[i] {
      var j :| 0 <= j < |unused| && unused[j] == c;
      assert rest[if j < i then j else j - 1] == c;
    } else {
      assert c.covers * left <= c.covers * remaining;
    }
  }

  /** Every candidate's obligations are charged at most its own cost times a harmonic number. */
  lemma {:induction false} ChargeBound(unused: seq<TestCandidate>, remaining: set<string>, needed: set<string>,
                                       mandatory: set<string>, c: TestCandidate)
    requires remaining <= needed && Unsaturated(unused, needed, mandatory)
    requires c in unused || c.covers * remaining == {}
    ensures Charge(Greedy(unused, remaining, mandatory), c.covers, mandatory)
         <= RankCost(c) as real * Harmonic(Weight(c.covers * remaining, mandatory))
    decreases |unused|
  {
    hide Weight;
    hide BestUpTo;
    hide Unsaturated;
    hide RankCost;
    hide Unbeaten;
    var best := BestUpTo(unused, |unused|, remaining, mandatory);
    ScanFindsBest(unused, |unused|, remaining, needed, mandatory);
    WeightPositive(c.covers * remaining, mandatory);
    if best.Some? {
      var i := best.value;
      var p, left := PickOf(unused[i], remaining), remaining - unused[i].covers * remaining;
      var later, m := GreedyRest(unused, i, remaining, mandatory), Weight(c.covers * left, mandatory);
      PickIsCheapest(unused, i, remaining, needed, mandatory, c);
      StepCharge(p, c, remaining, mandatory);
      StillUnused(unused, i, remaining, needed, mandatory, c);
      WeightPositive(c.covers * left, mandatory);
      if left != {} {
        ChargeBound(Without(unused, i), left, needed, mandatory, c);
      }
      assert ([p] + later)[1..] == later;
      Distribute(RankCost(c) as real, Harmonic(Weight(c.covers * remaining, mandatory)), Harmonic(m));
    }
  }

  lemma Distribute(k: real, x: real, y: real)
    ensures k * (x - y) + k * y == k * x
  {
  }

  // ----- charging a whole cover -----

  function SumCharge(picks: seq<SelectedTest>, cover: seq<TestCandidate>, mandatory: set<string>): real {
    if cover == [] then 0.0
    else Charge(picks, cover[0].covers, mandatory) + SumCharge(picks, cover[1..], mandatory)
  }

  function SumWeight(s: set<string>, cover: seq<TestCandidate>, mandatory: set<string>): nat {
    if cover == [] then 0
    else Weight(s * cover[0].covers, mandatory) + SumWeight(s, cover[1..], mandatory)
  }

  lemma {:induction false} SumWeightMonotone(s: set<string>, t: set<string>, cover: seq<TestCandidate>,
                                             mandatory: set<string>)
    requires s <= t
    ensures SumWeight(s, cover, mandatory) <= SumWeight(t, cover, mandatory)
  {
    if cover != [] {
      WeightMonotone(s * cover[0].covers, t * cover[0].covers, mandatory);
      SumWeightMonotone(s, t, cover[1..], mandatory);
    }
  }

  lemma {:induction false} CoverWeighsEnough(s: set<string>, cover: seq<TestCandidate>, mandatory: set<string>)
    requires s <= Coverable(cover)
    ensures Weight(s, mandatory) <= SumWeight(s, cover, mandatory)
  {
    hide Weight;
    if cover == [] {
      assert s == {};
      WeightPositive(s, mandatory);
    } else {
      CoverableWithout(cover, 0);
      assert Without(cover, 0) == cover[1..];
      WeightSplit(s, cover[0].covers, mandatory);
      CoverWeighsEnough(s - cover[0].covers, cover[1..], mandatory);
      SumWeightMonotone(s - cover[0].covers, s, cover[1..], mandatory);
    }
  }

  lemma {:induction false} SumChargeSplits(p: SelectedTest, later: seq<SelectedTest>, cover: seq<TestCandidate>,
                                           mandatory: set<string>)
    ensures SumCharge([p] + later, cover, mandatory)
         == Price(p, mandatory) * SumWeight(p.covers, cover, mandatory) as real + SumCharge(later, cover, mandatory)
  {
    hide Weight;
    hide Price;
    if cover != [] {
      SumChargeSplits(p, later, cover[1..], mandatory);
      assert ([p] + later)[1..] == later;
      var price, w, more := Price(p, mandatory), Weight(p.covers * cover[0].covers, mandatory),
          SumWeight(p.covers, cover[1..], mandatory);
      assert (w + more) as real == w as real + more as real;
      assert price * (w as real + more as real) == price * w as real + price * more as real;
    }
  }

  lemma PriceTimesWeight(p: SelectedTest, w: nat, mandatory: set<string>)
    requires p.covers != {} && Weight(p.covers, mandatory) <= w
    ensures Billed(p) as real <= Price(p, mandatory) * w as real
  {
    WeightPositive(p.covers, mandatory);
    var exact := Weight(p.covers, mandatory);
    hide Weight;
    assert Price(p, mandatory) * exact as real == Billed(p) as real;
    RealScale(exact as real, w as real, Price(p, mandatory));
  }

  /** The first pick pays for itself out of the cover. */
  lemma CoverPaysForOne(p: SelectedTest, cover: seq<TestCandidate>, mandatory: set<string>)
    requires p.covers != {} && p.covers <= Coverable(cover)
    ensures Billed(p) as real <= Price(p, mandatory) * SumWeight(p.covers, cover, mandatory) as real
  {
    hide Weight, Price, SumWeight, Coverable, Billed;
    CoverWeighsEnough(p.covers, cover, mandatory);
    PriceTimesWeight(p, SumWeight(p.covers, cover, mandatory), mandatory);
  }

  lemma FirstPickBills(picks: seq<SelectedTest>)
    requires picks != []
    ensures TotalCost(picks) == Billed(picks[0]) + TotalCost(picks[1..])
  {
  }

  lemma FirstPickIsPaid(p: SelectedTest, later: seq<SelectedTest>, cover: seq<TestCandidate>, mandatory: set<string>)
    requires p.covers != {} && p.covers <= Coverable(cover)
    ensures Billed(p) as real + SumCharge(later, cover, mandatory) <= SumCharge([p] + later, cover, mandatory)
  {
    hide Weight, Price, SumWeight, Coverable, SumCharge, Billed;
    SumChargeSplits(p, later, cover, mandatory);
    CoverPaysForOne(p, cover, mandatory);
  }

  lemma LaterCovers(p: SelectedTest, later: seq<SelectedTest>, s: set<string>)
    requires AllCovers([p] + later) <= s
    ensures p.covers <= s && AllCovers(later) <= s
  {
    hide AllCovers;
    AllCoversPrepend(p, later);
  }

  lemma {:induction false} CoverPaysForPicks(picks: seq<SelectedTest>, cover: seq<TestCandidate>,
                                             mandatory: set<string>)
    requires AllCovers(picks) <= Coverable(cover) && forall p :: p in picks ==> p.covers != {}
    ensures TotalCost(picks) as real <= SumCharge(picks, cover, mandatory)
  {
    hide Coverable, SumCharge, AllCovers, Billed;
    if picks == [] {
      ChargeNothing(cover, mandatory);
    } else {
      var p, later := picks[0], picks[1..];
      assert picks == [p] + later;
      LaterCovers(p, later, Coverable(cover));
      CoverPaysForPicks(later, cover, mandatory);
      FirstPickIsPaid(p, later, cover, mandatory);
      FirstPickBills(picks);
    }
  }

  lemma {:induction false} ChargeNothing(cover: seq<TestCandidate>, mandatory: set<string>)
    ensures SumCharge([], cover, mandatory) == 0.0
  {
    if cover != [] {
      ChargeNothing(cover[1..], mandatory);
    }
  }

  lemma {:induction false} ScoreAtMostMax(cs: seq<TestCandidate>, c: TestCandidate, needed: set<string>,
                                          mandatory: set<string>)
    requires c in cs
    ensures Weight(c.covers * needed, mandatory) <= MaxScore(cs, needed, mandatory)
  {
    if c != cs[0] {
      ScoreAtMostMax(cs[1..], c, needed, mandatory);
    }
  }

  lemma BoundsJoin(x: real, y: real, h: real, a: nat, b: nat)
    requires x <= h * a as real && y <= h * b as real
    ensures x + y <= h * (a + b) as real
  {
    assert (a + b) as real == a as real + b as real;
    assert h * (a as real + b as real) == h * a as real + h * b as real;
  }

  lemma {:induction false} SumChargeBound(unused: seq<TestCandidate>, needed: set<string>, mandatory: set<string>,
                                          cover: seq<TestCandidate>, k: nat)
    requires Unsaturated(unused, needed, mandatory)
    requires forall c :: c in cover ==> c in unused && Weight(c.covers * needed, mandatory) <= k
    ensures SumCharge(Greedy(unused, needed, mandatory), cover, mandatory) <= Harmonic(k) * CoverCost(cover) as real
  {
    hide Weight;
    hide Greedy;
    hide Charge;
    hide RankCost;
    hide Unsaturated;
    hide Harmonic;
    if cover != [] {
      var c := cover[0];
      UnsaturatedRank(unused, c, needed, mandatory);
      ChargeBound(unused, needed, needed, mandatory, c);
      HarmonicMonotone(Weight(c.covers * needed, mandatory), k);
      RealScale(Harmonic(Weight(c.covers * needed, mandatory)), Harmonic(k), RankCost(c) as real);
      SumChargeBound(unused, needed, mandatory, cover[1..], k);
      assert CoverCost(cover) == RankCost(c) + CoverCost(cover[1..]);
      var picks := Greedy(unused, needed, mandatory);
      var x, y := Charge(picks, c.covers, mandatory), SumCharge(picks, cover[1..], mandatory);
      assert SumCharge(picks, cover, mandatory) == x + y;
      hide SumCharge, CoverCost;
      BoundsJoin(x, y, Harmonic(k), RankCost(c), CoverCost(cover[1..]));
    }
  }

  /**
   * The approximation bound: whatever list of candidates covers all that any candidate can cover,
   * the plan's ranked cost is at most Harmonic(K) times its ranked cost, K being the largest
   * initial score of one candidate.
   */
  lemma PlanWithinHarmonicFactor(candidates: seq<TestCandidate>, obligations: seq<ObligationNeed>,
                                 cover: seq<TestCandidate>)
    requires Unsaturated(candidates, NeedIds(obligations), MandatoryIds(obligations))
    requires forall c :: c in cover ==> c in candidates
    requires NeedIds(obligations) * Coverable(candidates) <= Coverable(cover)
    ensures var k := MaxScore(candidates, NeedIds(obligations), MandatoryIds(obligations));
            TotalCost(PlanOf(candidates, obligations).selected) as real <= Harmonic(k) * CoverCost(cover) as real
  {
    hide Weight;
    hide Greedy;
    hide NeedIds;
    hide MandatoryIds;
    hide Coverable;
    hide Unsaturated;
    hide SumCharge;
    hide TotalCost;
    hide CoverCost;
    hide Harmonic;
    hide MaxScore;
    hide AllCovers;
    hide IsPick;
    hide PairwiseDisjoint;
    var needed, mandatory := NeedIds(obligations), MandatoryIds(obligations);
    var unused, k := Sort(candidates, IdBefore), MaxScore(candidates, needed, mandatory);
    var picks := Greedy(unused, needed, mandatory);
    SameElements(unused, candidates);
    UnsaturatedPart(candidates, unused, needed, mandatory);
    PlanCoversEverythingCoverable(candidates, obligations);
    CoverPaysForPicks(picks, cover, mandatory);
    forall c | c in cover ensures Weight(c.covers * needed, mandatory) <= k {
      ScoreAtMostMax(candidates, c, needed, mandatory);
    }
    SumChargeBound(unused, needed, mandatory, cover, k);
  }
}
