/** Lineage loses no flow on either side. */
module FlowLaws {
  import opened Options
  import opened Text
  import opened Sorting
  import opened Gathering
  import opened Flows

  function IdOf(f: Flow): multiset<string> {
    multiset{f.id}
  }

  function HeadOf(m: FlowMatch): multiset<string> {
    if m.head.Some? then multiset{m.head.value} else multiset{}
  }

  function BaseOf(m: FlowMatch): multiset<string> {
    if m.base.Some? then multiset{m.base.value} else multiset{}
  }

  function SplitBaseOf(m: FlowMatch): multiset<string> {
    if m.state.Split? then BaseOf(m) else multiset{}
  }

  function RemovedOf(m: FlowMatch): multiset<string> {
    if m.state.Removed? then multiset{m.surface} else multiset{}
  }

  lemma {:induction false} GatherSame<T, K>(a: seq<T>, b: seq<T>, f: T -> multiset<K>)
    requires |a| == |b| && forall i :: 0 <= i < |a| ==> f(a[i]) == f(b[i])
    ensures Gather(a, f) == Gather(b, f)
  {
    if a != [] {
      GatherSame(a[..|a| - 1], b[..|b| - 1], f);
    }
  }

  lemma {:induction false} GatherSizes<T>(s: seq<T>, f: T -> multiset<string>, g: T -> multiset<string>)
    requires forall x :: x in s ==> |f(x)| + |g(x)| == 1
    ensures |Gather(s, f)| + |Gather(s, g)| == |s|
  {
    if s != [] {
      var n := |s| - 1;
      assert s == s[..n] + [s[n]];
      GatherSizes(s[..n], f, g);
    }
  }

  // ----- head flows -----

  /** The ids of the head flows whose index is used. */
  function IdsIn(head: seq<Flow>, used: set<nat>): multiset<string> {
    if head == [] then multiset{}
    else
      var n := |head| - 1;
      IdsIn(head[..n], used) + if n in used then multiset{head[n].id} else multiset{}
  }

  lemma {:induction false} IdsGrow(head: seq<Flow>, used: set<nat>, i: nat)
    requires i !in used
    ensures IdsIn(head, used + {i}) == IdsIn(head, used) + if i < |head| then multiset{head[i].id} else multiset{}
  {
    if head != [] {
      var n := |head| - 1;
      IdsGrow(head[..n], used, i);
      assert n in used + {i} <==> n in used || n == i;
    }
  }

  lemma LastMatch(b: Flow, head: seq<Flow>, links: seq<Link>, f: FlowMatch -> multiset<string>)
    requires links != []
    ensures var n := |links| - 1;
            Gather(MatchesOf(b, head, links), f) == Gather(MatchesOf(b, head, links[..n]), f)
                + f(MatchOf(b, head, links[n]))
  {
    var n := |links| - 1;
    hide MatchOf;
    assert MatchesOf(b, head, links)[..n] == MatchesOf(b, head, links[..n]);
  }

  ghost predicate Different(links: seq<Link>) {
    forall i, j :: 0 <= i < j < |links| ==> links[i].head != links[j].head
  }

  function IdAt(head: seq<Flow>, i: Option<nat>): multiset<string> {
    if i.Some? && i.value < |head| then multiset{head[i.value].id} else multiset{}
  }

  lemma OneHead(head: seq<Flow>, used: set<nat>, links: seq<Link>)
    requires links != [] && Different(links)
    requires (links[|links| - 1].head.Some? ==> links[|links| - 1].head.value !in used)
    ensures var n := |links| - 1;
            IdsIn(head, used + Heads(links)) == IdsIn(head, used + Heads(links[..n])) + IdAt(head, links[n].head)
  {
    var n := |links| - 1;
    hide IdsIn;
    assert links[..n + 1] == links;
    HeadsGrow(links, n);
    if links[n].head.Some? {
      NewHead(links, n);
      hide Heads;
      IdsGrow(head, used + Heads(links[..n]), links[n].head.value);
      assert used + Heads(links) == used + Heads(links[..n]) + {links[n].head.value};
    } else {
      hide Heads;
      assert used + Heads(links) == used + Heads(links[..n]);
    }
  }

  lemma {:induction false} LinkedHeads(b: Flow, head: seq<Flow>, used: set<nat>, links: seq<Link>)
    requires (forall l :: l in links ==> FitsOne(l, head, used)) && Different(links)
    ensures IdsIn(head, used + Heads(links)) == IdsIn(head, used) + Gather(MatchesOf(b, head, links), HeadOf)
  {
    hide IdsIn, Heads, MatchesOf;
    if links == [] {
      NoHeads(b, head, used);
    } else {
      var n := |links| - 1;
      LinkedHeads(b, head, used, links[..n]);
      assert links[n] in links && FitsOne(links[n], head, used);
      LastMatch(b, head, links, HeadOf);
      OneHead(head, used, links);
    }
  }

  lemma NoHeads(b: Flow, head: seq<Flow>, used: set<nat>)
    ensures used + Heads([]) == used && MatchesOf(b, head, []) == []
  {
  }

  lemma NewHead(links: seq<Link>, n: nat)
    requires n < |links| && links[n].head.Some? && Different(links)
    ensures links[n].head.value !in Heads(links[..n])
  {
  }

  lemma {:induction false} LinesHeads(base: seq<Flow>, head: seq<Flow>)
    ensures Gather(Lines(base, head).matches, HeadOf) == IdsIn(head, Lines(base, head).used)
  {
    if base == [] {
      NothingUsed(head);
    } else {
      var n := |base| - 1;
      var before := Lines(base[..n], head);
      var links := LinksFor(base[n], head, before.used);
      LinesHeads(base[..n], head);
      LinksFit(base[n], head, before.used);
      hide LinksFor, FitsOne, IdsIn, Heads, MatchesOf;
      LinkedHeads(base[n], head, before.used, links);
      GatherJoins(before.matches, MatchesOf(base[n], head, links), HeadOf);
    }
  }

  lemma {:induction false} NothingUsed(head: seq<Flow>)
    ensures IdsIn(head, {}) == multiset{}
  {
    if head != [] {
      NothingUsed(head[..|head| - 1]);
    }
  }

  lemma {:induction false} AddedHeads(head: seq<Flow>, used: set<nat>)
    ensures IdsIn(head, used) + Gather(AddedTo(head, used), HeadOf) == Gather(head, IdOf)
  {
    if head != [] {
      var n := |head| - 1;
      AddedHeads(head[..n], used);
      GatherJoins(AddedTo(head[..n], used), AddedTo(head, used)[|AddedTo(head[..n], used)|..], HeadOf);
      AddedSplits(head, used);
      hide AddedTo, IdsIn;
    }
  }

  lemma AddedSplits(head: seq<Flow>, used: set<nat>)
    requires head != []
    ensures var n := |head| - 1;
            var before, all := AddedTo(head[..n], used), AddedTo(head, used);
            all == before + all[|before|..]
            && Gather(all[|before|..], HeadOf) == if n in used then multiset{} else multiset{head[n].id}
  {
    var n := |head| - 1;
    var before, all := AddedTo(head[..n], used), AddedTo(head, used);
    assert all[|before|..] == if n in used then []
        else [FlowMatch(Added, None, Some(head[n].id), NoReason, head[n].surface)];
    if n !in used {
      assert all[|before|..][..0] == [];
    }
  }

  lemma FoundHeads(base: seq<Flow>, head: seq<Flow>)
    ensures Gather(Found(base, head), HeadOf) == Gather(head, IdOf)
  {
    hide Lines, AddedTo, IdsIn;
    var lines := Lines(base, head);
    LinesHeads(base, head);
    AddedHeads(head, lines.used);
    GatherJoins(lines.matches, AddedTo(head, lines.used), HeadOf);
  }

  lemma MatchedGathers(base: seq<Flow>, head: seq<Flow>, f: FlowMatch -> multiset<string>)
    requires forall m, all :: f(Remarked(m, all)) == f(m)
    ensures Gather(Matched(base, head), f) == Gather(Found(base, head), f)
  {
    hide Found, MatchLess, Remarked;
    var found := Found(base, head);
    GatherSort(RemarkedAll(found, found), MatchLess, f);
    GatherSame(RemarkedAll(found, found), found, f);
  }

  /** Every head flow appears in exactly one match. */
  lemma HeadFlowsAreConserved(base: seq<Flow>, head: seq<Flow>)
    ensures Gather(Matched(base, head), HeadOf) == Gather(head, IdOf)
  {
    hide Found, BasedOn, Matched;
    assert forall m, all :: HeadOf(Remarked(m, all)) == HeadOf(m);
    MatchedGathers(base, head, HeadOf);
    FoundHeads(base, head);
  }

  // ----- one match per head flow, and the removed ones -----

  /** A match has a head unless it is a removal. */
  predicate HeadOrRemoved(m: FlowMatch) {
    |HeadOf(m)| + |RemovedOf(m)| == 1
  }

  lemma {:induction false} LinesAreHeadOrRemoved(base: seq<Flow>, head: seq<Flow>)
    ensures forall m :: m in Lines(base, head).matches ==> HeadOrRemoved(m)
  {
    if base != [] {
      var n := |base| - 1;
      var before := Lines(base[..n], head);
      var links := LinksFor(base[n], head, before.used);
      LinesAreHeadOrRemoved(base[..n], head);
      LinksFit(base[n], head, before.used);
      hide LinksFor, Heads;
      forall i | 0 <= i < |links| ensures HeadOrRemoved(MatchOf(base[n], head, links[i])) {
        assert links[i] in links && FitsOne(links[i], head, before.used);
      }
      hide HeadOrRemoved, MatchOf;
    }
  }

  lemma {:induction false} AddedHaveHeads(head: seq<Flow>, used: set<nat>)
    ensures forall m :: m in AddedTo(head, used) ==> HeadOrRemoved(m) && m.state.Added? && m.base.None?
  {
    if head != [] {
      AddedHaveHeads(head[..|head| - 1], used);
    }
  }

  lemma {:induction false} IdsCountFlows(flows: seq<Flow>)
    ensures |Gather(flows, IdOf)| == |flows|
  {
    if flows != [] {
      IdsCountFlows(flows[..|flows| - 1]);
    }
  }

  /** There are as many matches as head flows and removals together. */
  lemma LineageLength(base: seq<Flow>, head: seq<Flow>)
    ensures |Matched(base, head)| == |head| + |Gather(Matched(base, head), RemovedOf)|
  {
    var found := Found(base, head);
    LinesAreHeadOrRemoved(base, head);
    AddedHaveHeads(head, Lines(base, head).used);
    hide Lines, AddedTo, BasedOn, HeadOrRemoved;
    assert forall m :: m in found ==> HeadOrRemoved(m);
    assert forall m, all :: HeadOf(Remarked(m, all)) == HeadOf(m);
    MatchedGathers(base, head, HeadOf);
    FoundHeads(base, head);
    IdsCountFlows(head);
    hide Found;
    MatchedRemovals(base, head);
    FoundSizes(found);
  }

  lemma FoundSizes(found: seq<FlowMatch>)
    requires forall m :: m in found ==> HeadOrRemoved(m)
    ensures |Gather(found, HeadOf)| + |Gather(found, RemovedOf)| == |found|
  {
    forall m | m in found ensures |HeadOf(m)| + |RemovedOf(m)| == 1 {
      assert HeadOrRemoved(m);
    }
    GatherSizes(found, HeadOf, RemovedOf);
  }

  lemma MatchedRemovals(base: seq<Flow>, head: seq<Flow>)
    ensures |Matched(base, head)| == |Found(base, head)|
    ensures Gather(Matched(base, head), RemovedOf) == Gather(Found(base, head), RemovedOf)
  {
    var found := Found(base, head);
    LinesAreHeadOrRemoved(base, head);
    AddedHaveHeads(head, Lines(base, head).used);
    forall i | 0 <= i < |found| ensures RemovedOf(Remarked(found[i], found)) == RemovedOf(found[i]) {
      assert found[i] in found && HeadOrRemoved(found[i]);
    }
    hide Found, MatchLess, Remarked;
    GatherSort(RemarkedAll(found, found), MatchLess, RemovedOf);
    GatherSame(RemarkedAll(found, found), found, RemovedOf);
  }

  // ----- base flows -----

  lemma {:induction false} LinkedBases(b: Flow, head: seq<Flow>, links: seq<Link>, id: string)
    ensures Gather(MatchesOf(b, head, links), BaseOf)[id] == if id == b.id then |links| else 0
  {
    hide MatchesOf, Gather;
    if links == [] {
      NoMatches(b, head, BaseOf);
    } else {
      LinkedBases(b, head, links[..|links| - 1], id);
      LastMatch(b, head, links, BaseOf);
    }
  }

  lemma {:induction false} LinkedSplits(b: Flow, head: seq<Flow>, links: seq<Link>, id: string, split: bool)
    requires forall l :: l in links ==> (l.state.Split? <==> split)
    ensures Gather(MatchesOf(b, head, links), SplitBaseOf)[id] == if id == b.id && split then |links| else 0
  {
    hide MatchesOf, Gather;
    if links == [] {
      NoMatches(b, head, SplitBaseOf);
    } else {
      var n := |links| - 1;
      assert links[n] in links;
      LinkedSplits(b, head, links[..n], id, split);
      LastMatch(b, head, links, SplitBaseOf);
    }
  }

  lemma NoMatches(b: Flow, head: seq<Flow>, f: FlowMatch -> multiset<string>)
    ensures Gather(MatchesOf(b, head, []), f) == multiset{}
  {
  }

  lemma {:induction false} AddedHaveNoBase(head: seq<Flow>, used: set<nat>)
    ensures Gather(AddedTo(head, used), BaseOf) == multiset{} && Gather(AddedTo(head, used), SplitBaseOf) == multiset{}
  {
    if head != [] {
      var n := |head| - 1;
      AddedHaveNoBase(head[..n], used);
      assert AddedTo(head, used) == AddedTo(head[..n], used)
          || AddedTo(head, used)[..|AddedTo(head[..n], used)|] == AddedTo(head[..n], used);
    }
  }

  /** Every base flow of an id is matched at least once. */
  lemma {:induction false} LinesBases(base: seq<Flow>, head: seq<Flow>, id: string)
    ensures Gather(base, IdOf)[id] <= Gather(Lines(base, head).matches, BaseOf)[id]
  {
    if base != [] {
      var n := |base| - 1;
      var before := Lines(base[..n], head);
      var links := LinksFor(base[n], head, before.used);
      LinesBases(base[..n], head, id);
      LinksFit(base[n], head, before.used);
      assert |links| >= 1;
      LinkedBases(base[n], head, links, id);
      hide LinksFor, Heads, MatchesOf, Fit;
      GatherJoins(before.matches, MatchesOf(base[n], head, links), BaseOf);
    }
  }

  lemma BaseFlowsAreConserved(base: seq<Flow>, head: seq<Flow>)
    ensures Gather(base, IdOf) <= Gather(Matched(base, head), BaseOf)
  {
    hide BasedOn, Matched, Lines, AddedTo;
    assert forall m, all :: BaseOf(Remarked(m, all)) == BaseOf(m);
    MatchedGathers(base, head, BaseOf);
    var lines := Lines(base, head);
    GatherJoins(lines.matches, AddedTo(head, lines.used), BaseOf);
    AddedHaveNoBase(head, lines.used);
    forall id ensures Gather(base, IdOf)[id] <= Gather(Matched(base, head), BaseOf)[id] {
      LinesBases(base, head, id);
    }
  }

  ghost predicate DistinctIds(flows: seq<Flow>) {
    forall i, j :: 0 <= i < j < |flows| ==> flows[i].id != flows[j].id
  }

  ghost predicate HasId(flows: seq<Flow>, id: string) {
    exists f :: f in flows && f.id == id
  }

  /** Matched once and not split, or several times and always split. */
  predicate OnceOrSplit(total: nat, splits: nat) {
    (total == 1 && splits == 0) || (total > 1 && splits == total)
  }

  lemma LastIsNew(base: seq<Flow>)
    requires base != [] && DistinctIds(base)
    ensures var n := |base| - 1; DistinctIds(base[..n]) && !HasId(base[..n], base[n].id)
    ensures forall id :: HasId(base, id) <==> HasId(base[..|base| - 1], id) || id == base[|base| - 1].id
  {
    var n := |base| - 1;
    assert base == base[..n] + [base[n]];
    assert forall f :: f in base <==> f in base[..n] || f == base[n];
  }

  lemma {:induction false} LinesOnceOrSplit(base: seq<Flow>, head: seq<Flow>, id: string)
    requires DistinctIds(base)
    ensures var ms := Lines(base, head).matches;
            if HasId(base, id) then OnceOrSplit(Gather(ms, BaseOf)[id], Gather(ms, SplitBaseOf)[id])
            else Gather(ms, BaseOf)[id] == 0 && Gather(ms, SplitBaseOf)[id] == 0
  {
    if base != [] {
      var n := |base| - 1;
      var before := Lines(base[..n], head);
      var links := LinksFor(base[n], head, before.used);
      LastIsNew(base);
      LinesOnceOrSplit(base[..n], head, id);
      LinksFit(base[n], head, before.used);
      LinkedBases(base[n], head, links, id);
      LinkedSplits(base[n], head, links, id, |links| > 1);
      hide LinksFor, Heads, MatchesOf, DistinctIds, HasId;
      GatherJoins(before.matches, MatchesOf(base[n], head, links), BaseOf);
      GatherJoins(before.matches, MatchesOf(base[n], head, links), SplitBaseOf);
    }
  }

  lemma {:induction false} BasedOnIsCounted(matches: seq<FlowMatch>, id: string)
    ensures BasedOn(matches, Some(id)) <= Gather(matches, HeadOf)[id]
  {
    if matches != [] {
      BasedOnIsCounted(matches[..|matches| - 1], id);
    }
  }

  lemma {:induction false} DistinctIdsCountOnce(flows: seq<Flow>, id: string)
    requires DistinctIds(flows)
    ensures Gather(flows, IdOf)[id] == if HasId(flows, id) then 1 else 0
  {
    if flows != [] {
      LastIsNew(flows);
      DistinctIdsCountOnce(flows[..|flows| - 1], id);
      hide DistinctIds, HasId;
    }
  }

  /** With distinct head ids nothing is ever marked as merged. */
  lemma NothingIsMerged(base: seq<Flow>, head: seq<Flow>)
    requires DistinctIds(head)
    ensures RemarkedAll(Found(base, head), Found(base, head)) == Found(base, head)
    ensures forall m :: m in Matched(base, head) ==> !m.state.Merged?
  {
    hide DistinctIds, BasedOn, Lines, AddedTo, Found, MatchLess;
    var found := Found(base, head);
    FoundHeads(base, head);
    forall m | m in found ensures Remarked(m, found) == m {
      if m.head.Some? {
        BasedOnIsCounted(found, m.head.value);
        DistinctIdsCountOnce(head, m.head.value);
      }
    }
    assert RemarkedAll(found, found) == found;
    FoundAreUnmerged(base, head);
    SameElements(Matched(base, head), found);
  }

  lemma FoundAreUnmerged(base: seq<Flow>, head: seq<Flow>)
    ensures forall m :: m in Found(base, head) ==> !m.state.Merged?
  {
    LinesAreUnmerged(base, head);
    AddedHaveHeads(head, Lines(base, head).used);
    hide Lines, AddedTo;
  }

  lemma {:induction false} LinesAreUnmerged(base: seq<Flow>, head: seq<Flow>)
    ensures forall m :: m in Lines(base, head).matches ==> !m.state.Merged?
  {
    if base != [] {
      var n := |base| - 1;
      var before := Lines(base[..n], head);
      var links := LinksFor(base[n], head, before.used);
      LinesAreUnmerged(base[..n], head);
      LinksFit(base[n], head, before.used);
      hide LinksFor, Heads;
      forall i | 0 <= i < |links| ensures !MatchOf(base[n], head, links[i]).state.Merged? {
        assert links[i] in links && FitsOne(links[i], head, before.used);
      }
    }
  }

  /** With distinct ids on both sides a base flow has one match, or several that are all splits. */
  lemma SeveralMatchesAreSplits(base: seq<Flow>, head: seq<Flow>, id: string)
    requires DistinctIds(base) && DistinctIds(head)
    ensures var ms := Matched(base, head);
            if HasId(base, id) then OnceOrSplit(Gather(ms, BaseOf)[id], Gather(ms, SplitBaseOf)[id])
            else Gather(ms, BaseOf)[id] == 0
  {
    var found, lines := Found(base, head), Lines(base, head);
    GatherJoins(lines.matches, AddedTo(head, lines.used), BaseOf);
    GatherJoins(lines.matches, AddedTo(head, lines.used), SplitBaseOf);
    LinesOnceOrSplit(base, head, id);
    hide DistinctIds, HasId, Lines, AddedTo, MatchLess;
    AddedHaveNoBase(head, lines.used);
    NothingIsMerged(base, head);
    GatherSort(found, MatchLess, BaseOf);
    GatherSort(found, MatchLess, SplitBaseOf);
  }

  // ----- a list against itself -----

  ghost predicate DistinctSurfaces(flows: seq<Flow>) {
    forall i, j :: 0 <= i < j < |flows| ==> flows[i].surface != flows[j].surface
  }

  function Below(k: nat): (s: set<nat>)
    ensures forall i: nat :: i in s <==> i < k
  {
    if k == 0 then {} else Below(k - 1) + {k - 1}
  }

  function Kept(f: Flow): FlowMatch {
    FlowMatch(Unchanged, Some(f.id), Some(f.id), EntrySurface, f.surface)
  }

  function KeptAll(flows: seq<Flow>): seq<FlowMatch> {
    seq(|flows|, i requires 0 <= i < |flows| => Kept(flows[i]))
  }

  lemma {:induction false} OnlyCandidateUpTo(flows: seq<Flow>, k: nat, m: nat)
    requires k < |flows| && m <= |flows| && DistinctSurfaces(flows)
    ensures Candidates(flows[..m], Below(k), flows[k].surface) == if k < m then [k] else []
  {
    if m > 0 {
      OnlyCandidateUpTo(flows, k, m - 1);
      assert flows[..m][..m - 1] == flows[..m - 1];
    }
  }

  lemma OnlyCandidate(flows: seq<Flow>, k: nat)
    requires k < |flows| && DistinctSurfaces(flows)
    ensures Candidates(flows, Below(k), flows[k].surface) == [k]
  {
    OnlyCandidateUpTo(flows, k, |flows|);
    assert flows[..|flows|] == flows;
  }

  lemma KeepsItself(flows: seq<Flow>, k: nat)
    requires k < |flows| && DistinctSurfaces(flows)
    ensures var links := LinksFor(flows[k], flows, Below(k));
            MatchesOf(flows[k], flows, links) == [Kept(flows[k])] && Below(k) + Heads(links) == Below(k + 1)
  {
    OnlyCandidate(flows, k);
    hide Candidates, FirstFree;
    var links := LinksFor(flows[k], flows, Below(k));
    assert links == [Link(Unchanged, Some(k), EntrySurface)];
    assert Heads(links) == {k} by {
      assert links[0] in links;
    }
  }

  lemma {:induction false} SelfLines(flows: seq<Flow>, k: nat)
    requires k <= |flows| && DistinctSurfaces(flows)
    ensures Lines(flows[..k], flows) == Lineage(KeptAll(flows[..k]), Below(k))
  {
    if k == 0 {
      assert flows[..0] == [] && Below(0) == {};
    } else {
      SelfLines(flows, k - 1);
      KeepsItself(flows, k - 1);
      assert flows[..k][..k - 1] == flows[..k - 1];
      hide LinksFor, MatchesOf, Heads, DistinctSurfaces, Below, Kept;
      assert KeptAll(flows[..k]) == KeptAll(flows[..k - 1]) + [Kept(flows[k - 1])];
    }
  }

  lemma {:induction false} NothingAdded(head: seq<Flow>, k: nat)
    requires |head| <= k
    ensures AddedTo(head, Below(k)) == []
  {
    if head != [] {
      NothingAdded(head[..|head| - 1], k);
    }
  }

  lemma SelfFound(flows: seq<Flow>)
    requires DistinctSurfaces(flows)
    ensures Found(flows, flows) == KeptAll(flows)
  {
    SelfLines(flows, |flows|);
    assert flows[..|flows|] == flows;
    NothingAdded(flows, |flows|);
    hide Lines, AddedTo;
  }

  lemma {:induction false} KeptCounts(flows: seq<Flow>, id: string)
    ensures BasedOn(KeptAll(flows), Some(id)) == Gather(flows, IdOf)[id]
  {
    if flows != [] {
      var n := |flows| - 1;
      KeptCounts(flows[..n], id);
      assert KeptAll(flows)[..n] == KeptAll(flows[..n]);
    }
  }

  lemma {:induction false} CountOfTwo(flows: seq<Flow>, i: nat, j: nat)
    requires i < j < |flows| && flows[i].id == flows[j].id
    ensures Gather(flows, IdOf)[flows[i].id] > 1
  {
    var n := |flows| - 1;
    if j < n {
      CountOfTwo(flows[..n], i, j);
    } else {
      CountOfOne(flows[..n], i);
    }
  }

  lemma {:induction false} CountOfOne(flows: seq<Flow>, i: nat)
    requires i < |flows|
    ensures Gather(flows, IdOf)[flows[i].id] > 0
  {
    if i < |flows| - 1 {
      CountOfOne(flows[..|flows| - 1], i);
    }
  }

  lemma RepeatedIdsMerge(flows: seq<Flow>, i: nat, j: nat)
    requires DistinctSurfaces(flows) && i < j < |flows| && flows[i].id == flows[j].id
    ensures exists m :: m in Matched(flows, flows) && m.state.Merged?
  {
    var found := Found(flows, flows);
    SelfFound(flows);
    CountOfTwo(flows, i, j);
    KeptCounts(flows, flows[i].id);
    hide DistinctSurfaces, Found, MatchLess, BasedOn;
    var all := RemarkedAll(found, found);
    assert all[i].state.Merged?;
    SameElements(Matched(flows, flows), all);
    assert all[i] in all;
  }

  /**
   * Matching flows of distinct surfaces against themselves changes nothing, exactly when their ids are
   * distinct too.
   */
  lemma SelfMatchIsUnchangedExactlyWhen(flows: seq<Flow>)
    requires DistinctSurfaces(flows)
    ensures (forall m :: m in Matched(flows, flows) ==> m.state.Unchanged?) <==> DistinctIds(flows)
  {
    if DistinctIds(flows) {
      NothingIsMerged(flows, flows);
      SelfFound(flows);
      hide Found, MatchLess;
      SameElements(Matched(flows, flows), Found(flows, flows));
    } else {
      var i, j :| 0 <= i < j < |flows| && flows[i].id == flows[j].id;
      RepeatedIdsMerge(flows, i, j);
    }
  }

  // ----- the preference order is per base flow -----

  const CART := Flow("cart", "/cart", [], [], ["pay"])
  const CHECKOUT := Flow("checkout", "/checkout", [], [], [])
  const NEW_CHECKOUT := Flow("checkout2", "/checkout", [], [], ["pay"])

  lemma CartTakesCheckout()
    ensures LinksFor(CART, [NEW_CHECKOUT], {}) == [Link(Unchanged, Some(0), Requirement)]
  {
    var head := [NEW_CHECKOUT];
    assert head[..0] == [];
    assert Candidates(head, {}, "/cart") == [];
    assert "pay" in CART.requirements && "pay" in NEW_CHECKOUT.requirements;
    assert SharesRequirement(CART, head[0]);
    assert ByRequirement(CART, head, {}) == 0;
  }

  lemma CheckoutIsLeftOver()
    ensures LinksFor(CHECKOUT, [NEW_CHECKOUT], {0}) == [Link(Removed, None, NoReason)]
  {
    var head := [NEW_CHECKOUT];
    assert head[..0] == [];
    assert Candidates(head, {0}, "/checkout") == [];
  }

  /** An earlier base flow takes a head flow by requirement although a later one has that very surface. */
  lemma EarlierFlowTakesTheSurface()
    ensures Found([CART, CHECKOUT], [NEW_CHECKOUT])
              == [FlowMatch(Unchanged, Some("cart"), Some("checkout2"), Requirement, "/cart"),
                  FlowMatch(Removed, Some("checkout"), None, NoReason, "/checkout")]
  {
    var base, head := [CART, CHECKOUT], [NEW_CHECKOUT];
    CartTakesCheckout();
    CheckoutIsLeftOver();
    hide LinksFor;
    var taken := [Link(Unchanged, Some(0), Requirement)];
    OneTaken();
    var first := Lineage([FlowMatch(Unchanged, Some("cart"), Some("checkout2"), Requirement, "/cart")], {0});
    assert base[..1] == [CART] && [CART][..0] == [];
    assert MatchesOf(CART, head, taken) == first.matches;
    assert Lines([], head) == Lineage([], {});
    assert Lines([CART], head) == first;
    assert MatchesOf(CHECKOUT, head, [Link(Removed, None, NoReason)])
        == [FlowMatch(Removed, Some("checkout"), None, NoReason, "/checkout")];
    assert Lines(base, head).used == {0} && AddedTo(head, {0}) == [];
  }

  lemma OneTaken()
    ensures Heads([Link(Unchanged, Some(0), Requirement)]) == {0} && Heads([Link(Removed, None, NoReason)]) == {}
  {
    var taken := [Link(Unchanged, Some(0), Requirement)];
    assert taken[..1] == taken;
    HeadsGrow(taken, 0);
  }
}
